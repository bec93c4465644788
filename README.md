# Speer-Tweeter core, modelled in Dafny

Speer-Tweeter is a small social-messaging back end (Express and Mongoose).
Users sign up, log in on a server-side session, post tweets, and exchange
messages inside two-member chats. This project models four parts of it and
proves what each promises:

- **Session authentication** (`auth.dfy`). The `Authentication` handlers
  act on mutable `Session` and `Request` objects. The user service is an
  oracle. The self-destruct timer is an explicit `Expire` event.
- **Chats and messages** (`chat_model.dfy`, `chat_service.dfy`,
  `chat_controller.dfy`, `msg_model.dfy`, `msg_controller.dfy`). Both
  collections live in one `Db` object as sequences in insertion order, so
  `findOne` is "first match". The cascading chat delete is a method:
  - a `Fault` parameter chooses where, if anywhere, a store call fails;
  - errors inside the `try` block are swallowed;
  - a failing `startSession` escapes.
- **Entity records** (`tweet_model.dfy`, `user_model.dfy`):
  - the tweet and user schemas;
  - the like counter, saved without validation;
  - the pre-save password hook and `validPassword`, over uninterpreted
    bcrypt functions.
- **Request validators** (`validation.dfy`, `user_sanitize.dfy`,
  `tweet_sanitize.dfy`, `msg_sanitize.dfy`). The Joi object schemas are
  data. One reference predicate (`PartOk`) says what a schema accepts, next
  to the checker that reproduces Joi's conversion (trim, lower-case) and its
  first-error reporting. For each route, a lemma states in plain terms what
  its validator lets through. Lemmas also relate validators to each other
  and to the message schema.

Shared pieces:

- `common.dfy`: results, outcomes, status codes, time of day, the
  JSON-key removal.
- `strings.dfy`: trim, lower-case, first-occurrence replace.
- `collection.dfy`: first match, removal, uniqueness.

Things the store or the platform decide become parameters:

- Fresh ids are `freshId` arguments.
- The moment the schema module was loaded and the current time are
  integers.
- Joi's number and date parsers for string input are the `Parsers` oracle.

Modelling choices where the behaviour is not visible in the code:

- **Mongoose.** Validation runs before the user's `pre('save')` hooks. A
  `required` string rejects `''`. Setters (`trim`, `lowercase`) run on
  assignment and on query filters.
  An `ObjectId` path casts a string of 24 hexadecimal digits, read without
  regard to case. The ObjectId prints them in lower case, which is the form
  the store keeps (`CastId`, `Canonical`). A failed cast in a query filter or
  an update throws a `CastError`, and on create it is a validation error of
  that path.
- **MongoDB.** `$all: []` matches no document.
- **`removeProps(keys)`.** The helper is not part of this model. It is taken
  to delete the listed keys from the JSON form.
- **Joi.** Objects refuse unknown keys (Joi's default). Validation stops at
  the first error (`abortEarly`). A nested literal object such as `time` is
  optional even when its children are `required()`.

## Model

| member | source | states |
|---|---|---|
| Auth.AttachUser | src/features/auth/auth.ts:51-68 | Without a user, the bag is returned unchanged. With one, `user` is added with the user's id, but an existing `user` key keeps its value. Every other key keeps its value. |
| Auth.Authentication.AuthorizedUser | src/features/auth/auth.ts:47-71 | Params and query become the merge of their old contents with the request's user, and the handler proceeds. |
| Auth.SessionCredentials | src/features/auth/auth.ts:75-77 | With no session, the credentials are undefined. Otherwise they are the session's stored pair, and undefined once the session is destroyed. |
| Auth.Authentication.Authorization | src/features/auth/auth.ts:73-94 | If `logIn` on the stored pair returns a value, the handler proceeds with `req.user` set to it. Otherwise it fails with "Authentication Failed. Please Log In!" and 401, and `req.user` is untouched. |
| Auth.Authentication.LogIn | src/features/auth/auth.ts:110-136 | On a service error, the error's message and code are forwarded and the session is untouched. On success, the session stores the user's username and the submitted plaintext password, and one self-destruct timer is scheduled. |
| Auth.SelfDestructDelay | src/features/auth/auth.ts:122-128 | The timer fires `maxAge - 100` ms after login exactly when that lies in 1..2^31-1. In every other case, including a null `maxAge`, it fires after 1 ms. |
| Auth.Authentication.LogOut | src/features/auth/auth.ts:138-147 | The session is destroyed and success is reported, whatever its state. |
| Auth.Authentication.ChangePassword | src/features/auth/auth.ts:149-174 | The service is asked with the session's username. On an error it is forwarded and the session survives. On success the session is destroyed. |
| Auth.Session.State | src/features/auth/auth.ts:119-120 | The session is Anonymous, Authenticated with the stored pair, or Destroyed. |
| Auth.Session.Expire | src/features/auth/auth.ts:122-128 | The oldest pending timer fires and destroys the session. |
| Auth.Session.Destroy | src/features/auth/auth.ts:139 | The session ends up destroyed, whatever its state, and a request carrying its cookie sees no credentials. |
| Auth.LoginThenLogout | src/features/auth/auth.ts:73-147 | The first gated request after a login passes. After a logout, the next one fails with 401. |
| Auth.LoginThenExpire | src/features/auth/auth.ts:73-136 | After the self-destruct timer fires, the next gated request fails with 401. |
| Auth.FailedLogin | src/features/auth/auth.ts:110-117 | A refused login leaves the session anonymous, and a gated request on it fails. |
| Auth.PasswordChangeLogsOut | src/features/auth/auth.ts:149-174 | After a successful password change, the next gated request fails with 401. |
| ChatModel.FindByMembers | src/features/chats/Model.ts:41-43 | A found chat is in the collection and has every asked-for id among its members. Nothing is found exactly when no chat qualifies. An empty list matches nothing. |
| ChatModel.FindByMembersOrderFree | src/features/chats/Model.ts:41-43 | Only the set of ids asked for matters, not their order or repetition. |
| ChatModel.FindByMembersAppend | src/features/chats/Model.ts:41-43 | A chat added at the end is found only when no earlier chat qualifies. |
| ChatModel.FindAMember | src/features/chats/Model.ts:44-46 | The result holds exactly the chats that have the member. |
| ChatModel.CastIds | src/features/chats/Model.ts:16-20 | Each member id is cast to its ObjectId, in order, so every stored member is in canonical form. |
| ChatModel.CascadeChats | src/features/chats/Model.ts:47-52 | When the first `findOneAndDelete` throws, or nothing matches, the chats are unchanged. Otherwise exactly the first matching chat is removed, as a multiset. |
| ChatModel.CascadeMsgs | src/features/chats/Model.ts:54-66 | The messages are unchanged with no match, or when the cascade failed at or before `deleteMany` (the first find included). Otherwise exactly the removed chat's messages are gone. |
| ChatModel.CascadeError | src/features/chats/Model.ts:47-66 | A failing first `findOneAndDelete` escapes with its own error. Otherwise an error escapes exactly when a chat matched and `startSession` failed, and it is the session error. Errors inside the `try` are swallowed. |
| ChatModel.DeleteById | src/features/chats/Model.ts:60 | With no chat of that id, nothing changes. With one, exactly one chat goes, every remaining chat was there before, and every chat with another id stays. |
| ChatModel.CascadeRemovesChatAndMsgs | src/features/chats/Model.ts:48-60 | Unless the first find throws, after a cascade on a match no chat with its id is left. Unless `deleteMany` never ran, none of its messages is left either. |
| ChatModel.CascadeKeepsOthers | src/features/chats/Model.ts:48-58 | Whatever call fails, every other chat, and every message of another chat, survives. |
| ChatModel.CascadeByIdIdempotent | src/features/chats/Model.ts:47-52 | With an id filter and a first find that does not throw, a second cascade changes nothing, and raises nothing unless its own first find throws. |
| ChatModel.CascadeSteps | src/features/chats/Model.ts:47-60 | Once the first find succeeds on a match, it takes exactly that chat and the delete by id finds nothing. `deleteMany` leaves only old messages. Ids stay unique throughout. |
| ChatModel.Db.DeleteChatWithMsgs | src/features/chats/Model.ts:47-68 | The new chats, messages and escaping error are the cascade's, a failing first find included. Sessions opened are also ended. Store invariants (unique ids, well-formed messages) are kept. |
| ChatModel.Db.DeleteInSession | src/features/chats/Model.ts:54-67 | After the chat is gone: the chat's messages go exactly when `deleteMany` ran, the chats stay as they are, the session is ended, and only a failing `startSession` escapes. |
| ChatModel.Db.InsertMsg | src/features/msgs/service.ts:43-48 | A created message is appended under its fresh id. Ids stay unique and stored messages well formed. |
| ChatService.Get | src/features/chats/service.ts:66-90 | A found chat matches the filter and is in the collection. The error "Invalid Chat. Chat Does Not Exist!", with 400, is returned exactly when nothing matches. |
| ChatService.ChatFor | src/features/chats/service.ts:98-110 | When some chat has every asked-for member, the answer is such an existing chat. When none has, it is the new chat with exactly those members. Either way it contains every one of them. |
| ChatService.AfterGetByRecipient | src/features/chats/service.ts:98-103 | When some chat has every asked-for member, the collection is unchanged. Otherwise exactly the new chat is added at the end. The answered chat is in the collection. |
| ChatService.GetByRecipientTwice | src/features/chats/service.ts:98-103 | Two calls in a row with the same non-empty members create at most one chat and answer the same chat. |
| ChatService.GetByRecipientEmpty | src/features/chats/service.ts:98-103 | With no members asked for, nothing matches, so each call adds another chat. |
| ChatService.GetByRecipient | src/features/chats/service.ts:98-110 | A member that is not an ObjectId makes the query throw a cast error, and nothing is created. Otherwise the members are cast, the collection becomes the find-or-create result on them, and the answer is that chat. Stored chats stay in canonical form. |
| ChatService.Delete | src/features/chats/service.ts:142-150 | The call delegates to the cascade and answers `{}` unless the cascade throws. |
| ChatService.Update | src/features/chats/service.ts:159-183 | A member that is not an ObjectId throws a cast error, with no change, whether or not a chat matches. With no match: the not-found error, no change. Otherwise only the first match is replaced by its update, with the members cast and the id kept, and returned. |
| ChatService.ReplaceKeepsStore | src/features/chats/service.ts:160-167 | Replacing a chat by one with the same id, in canonical form, keeps ids unique and every chat in canonical form. |
| ChatService.UpdateThenGet | src/features/chats/service.ts:66-90 | Reading a chat back by id right after an update gives the updated chat. |
| ChatController.RecipientError | src/features/chats/controller.ts:57-60 | The code is kept. The message is unchanged when it has no "User". |
| ChatController.RecipientCheck | src/features/chats/controller.ts:51-61 | As written: messaging oneself, judged by comparing the two strings, fails with "Error! You cannot chat with yourself." and 401. Otherwise the user lookup's error is returned, reworded. |
| ChatController.RecipientCheckById | src/features/chats/controller.ts:51-61 | As intended: a recipient that names the caller, as the same string or as an ObjectId casting to the caller's, fails with the self-chat error. Otherwise the user lookup's error is returned, reworded. |
| ChatController.RecipientChecksAgree | src/features/msgs/controller.ts:52-62 | With the caller's id in canonical form and a recipient without upper-case hexadecimal digits, as the message validator hands it on, the two guards give the same answer. |
| ChatController.SelfChatGuardBypassed | src/features/chats/controller.ts:51-69 | As written, the caller's id in upper case passes the self-chat guard and casts to `[caller, caller]`. When the caller is in no chat, a chat with the caller twice is created. The intended guard refuses it. |
| ChatController.GetChatByRecipient | src/features/chats/controller.ts:46-76 | With the intended self-chat guard: a failed guard fails with no chat created. Member ids that are not ObjectIds make the `$all` query throw a cast error, with no chat created. Otherwise the two ids are cast and differ, find-or-create runs on exactly those two, and the handler responds 201. |
| ChatController.ConversationIsShared | src/features/chats/controller.ts:63-69 | Once A opened the chat with B, B opening it finds the same chat and creates nothing. |
| ChatController.AllChatsQuery | src/features/chats/controller.ts:90 | The filter is `members = caller` unless the query string has `members`, which wins. Every query key is kept. |
| ChatController.DeleteChat | src/features/chats/controller.ts:105-124 | An `_id` that is not an ObjectId throws a cast error from the first find and changes nothing. Otherwise the cascade runs on the cast `_id`, whatever the case of its digits, and the handler responds 204 unless the store throws. |
| ChatController.DeleteChatTwice | src/features/chats/controller.ts:105-124 | For an ObjectId whose first find succeeds, no chat with the cast id is left after a delete, and none of its messages unless `deleteMany` never ran. A second delete then responds 204 unless its own find throws. A non-ObjectId id raises the cast error both times. |
| ChatController.DeleteIgnoresCase | src/features/chats/Model.ts:48-58 | An id spelled with its hexadecimal digits in another case deletes the same chat, and its messages once `deleteMany` ran. |
| MsgModel.Create | src/features/msgs/Model.ts:25-76 | It succeeds exactly when the text (trimmed, lower-cased) is non-empty, author, recipient and chat are given and cast to ObjectIds, a date is given, and the time of day is in range. Then the stored message is well formed, keeps the given fields, and its time is the cast time. |
| MsgModel.RefError | src/features/msgs/Model.ts:33-49 | No error exactly when author, recipient and chat are all present ObjectIds. Otherwise the error is a validation error of the first bad path. |
| MsgModel.CreateWithoutTime | src/features/msgs/Model.ts:56-75 | A message without `time` is always refused. When everything else is valid, the error is at `time.hour`. |
| MsgModel.FindBy | src/features/msgs/Model.ts:101-109 | The result holds exactly the messages whose field equals the value. |
| MsgModel.FindByAuthor | src/features/msgs/Model.ts:101-103 | The result holds exactly the messages by that author. |
| MsgModel.FindByRecipient | src/features/msgs/Model.ts:104-106 | The result holds exactly the messages to that recipient. |
| MsgModel.FindByChat | src/features/msgs/Model.ts:107-109 | The result holds exactly the messages of that chat. |
| MsgModel.DeleteByChat | src/features/chats/Model.ts:58 | Exactly the chat's messages are removed. |
| MsgModel.DeleteByChatSplits | src/features/chats/Model.ts:58 | What `deleteMany` leaves, together with what `find` answers, is every message exactly once. |
| MsgController.MsgDetails | src/features/msgs/controller.ts:64 | The author and the chat come from the request, whatever the body says. Every other field comes from the body. |
| MsgController.CreateMsg | src/features/msgs/controller.ts:46-78 | A failed guard fails with nothing stored. A schema error escapes with nothing stored. Otherwise the message is appended and answered with 201. Its author is the caller, its chat is the route's, and its recipient is someone else. |
| MsgController.GetMsgsByChat | src/features/msgs/controller.ts:86-109 | A chat id that is not an ObjectId makes the query throw a cast error. Otherwise the response is 200 with exactly the messages of the route's chat. |
| MsgController.DeleteFirstOfChat | src/features/msgs/service.ts:108-116 | With no message of the chat, nothing changes. Otherwise exactly one message of that chat is removed. |
| MsgController.DeleteMsgListings | src/features/msgs/controller.ts:122-134 | The chat's listing shrinks by one, and every other chat's listing is unchanged. |
| MsgController.DeleteMsg | src/features/msgs/controller.ts:117-136 | A chat id that is not an ObjectId throws a cast error and changes nothing. Otherwise the first message of the chat is removed and the handler responds 204. |
| TweetModel.Create | src/features/tweets/Model.ts:25-75 | It succeeds exactly when the text is non-empty once converted, the author is given and casts to an ObjectId, a date is given, the time is in range, and given likes are at least 0. Likes default to 0, `thread` to false, and the time is the cast time. |
| TweetModel.NewTweetDefaults | src/features/tweets/Model.ts:65-74 | A tweet created without likes or thread has 0 likes and is not a thread. |
| TweetModel.Liked | src/features/tweets/Model.ts:103-107 | Likes go up by exactly one, and no other modelled field changes. |
| TweetModel.Unliked | src/features/tweets/Model.ts:108-112 | Likes go down by exactly one, and no other modelled field changes. |
| TweetModel.LikeUnlikeRestores | src/features/tweets/Model.ts:103-112 | A like then an unlike, in either order, gives back the tweet. |
| TweetModel.LikedWellFormed | src/features/tweets/Model.ts:65-69 | A like keeps every schema bound. |
| TweetModel.UnlikedWellFormed | src/features/tweets/Model.ts:64-112 | An unlike keeps the bounds exactly when likes were at least 1. From 0 it saves -1. |
| TweetModel.TweetDocument.LikeTweet | src/features/tweets/Model.ts:103-107 | The document becomes its liked version and is saved. |
| TweetModel.TweetDocument.UnlikeTweet | src/features/tweets/Model.ts:108-112 | The document becomes its unliked version and is saved. |
| TweetModel.LikeThenUnlike | src/features/tweets/Model.ts:103-112 | On a loaded document, a like then an unlike saves the modelled fields as loaded. |
| TweetModel.UnlikeFromZero | src/features/tweets/Model.ts:108-112 | Unliking a tweet with 0 likes saves -1 likes, which the schema would refuse. |
| TweetModel.ToJsonShowsThread | src/features/tweets/Model.ts:71-82 | The JSON transform removes `threads`, which is not a key, so `thread` is still shown. |
| UserModel.TaggedSound | src/features/users/Model.ts:58-71 | The bcrypt assumption can be met. |
| UserModel.PreSaveAsWritten | src/features/users/Model.ts:58-61 | The hook as written always stores a digest: it differs from what it hashed, and it matches exactly that value, even when the value was already a digest. |
| UserModel.PreSave | src/features/users/Model.ts:58-61 | The intended hook leaves an unchanged password as it is. A changed password becomes a digest that matches exactly that password. |
| UserModel.ValidPassword | src/features/users/Model.ts:69-71 | For a stored digest, the answer is yes exactly when the candidate hashes to that digest. |
| UserModel.ReSaveLocksOut | src/features/users/Model.ts:58-61 | As written, saving a second time hashes the digest again, and the user's password stops matching. |
| UserModel.ReSaveKeepsPassword | src/features/users/Model.ts:58-61 | With the hook hashing only a changed password, a re-save changes nothing. The password matches, and only that one. |
| UserModel.CreatedAtFrozen | src/features/users/Model.ts:34-38 | As written, two users signed up one after the other are both found with `createdAt` equal to the moment the module was loaded. |
| UserModel.CreatedAtOrdered | src/features/users/Model.ts:34-38 | With the default evaluated per document, the two users are found with their own sign-up times, and the later user has the later `createdAt`. |
| UserModel.SignUpsFound | src/features/users/Model.ts:19-66 | After two sign-ups with distinct ids and usernames, each user is found by its username. |
| UserModel.SignUpTwoUsers | src/features/users/Model.ts:34-38 | Two sign-ups on the store both succeed and both users are found. As written, both have the load-time `createdAt`. With the intended default, they have their own sign-up times. |
| UserModel.FindByUsername | src/features/users/Model.ts:64-66 | A found user has the normalised username. Nothing is found exactly when no user has it. |
| UserModel.FindsEveryUser | src/features/users/Model.ts:19-66 | With unique normalised usernames, every user is found by the username, whatever its spelling in case and surrounding blanks. |
| UserModel.ToJsonHidesPassword | src/features/users/Model.ts:46 | A user's JSON has every key but `password`. |
| UserModel.SaveError | src/features/users/Model.ts:19-32 | A save is refused exactly when the username or the password is empty, or another user has the username. Past the required checks, the refusal is the duplicate key. |
| UserModel.Upsert | src/features/users/Model.ts:58-61 | The saved user is present, other users stay, and nothing else appears. |
| UserModel.UpsertUnique | src/features/users/Model.ts:19-25 | An accepted save keeps ids and usernames unique. |
| UserModel.UserDocument.constructor | src/features/users/Model.ts:19-32 | The username is stored trimmed and lower-cased, and the password trimmed. |
| UserModel.UserStore.SaveAsWritten | src/features/users/Model.ts:58-61 | Validation comes first. Then the document's password is hashed whether or not it changed, and the write may still be refused by the unique index. |
| UserModel.UserStore.Save | src/features/users/Model.ts:58-61 | This is the same save, with the password hashed only when it was set since the last save. |
| UserModel.UserStore.Write | src/features/users/Model.ts:24 | The accepted user replaces the one with its id or is appended, and the unique indexes on id and username still hold. |
| UserModel.SignUp | src/features/users/Model.ts:19-61 | A first save of a new document with a fresh id and an unused username is accepted. The user is stored with the normalised username and the hashed trimmed password. The username stays unique. |
| UserModel.SignUpThenReSaveAsWritten | src/features/users/Model.ts:34-71 | As written, after a sign-up and one more save, the signed-up password is refused, and `createdAt` is the load time. |
| UserModel.SignUpThenReSave | src/features/users/Model.ts:34-71 | With the intended hook and default, after a sign-up and one more save, the user is found by name, the password still matches, and `createdAt` is the sign-up time. |
| Validation.CheckLeaf | src/features/users/sanitize.ts:4 | One rule accepts exactly what `LeafOk` states, with string length bounds counted in UTF-16 code units. It answers the converted value, and its error names the key. |
| Validation.TextBoundsCountCodeUnits | src/features/msgs/sanitize.ts:17-20 | 101 emoji are refused by the 200 bound, and two emoji meet a bound of 3. |
| Validation.Validate | src/features/users/sanitize.ts:11-24 | An object schema accepts exactly what `PartOk` states. It answers the converted object with the same keys. |
| Validation.CheckRequest | src/features/msgs/sanitize.ts:11-32 | Params are checked, then the body. A request passes exactly when both pass. |
| Validation.ValidatedStringsNormal | src/features/users/sanitize.ts:4 | Every string a validator hands on is trimmed and lower-case. |
| Validation.Revalidate | src/features/users/sanitize.ts:4 | Validating a validated object again gives the same answer. |
| Validation.RelaxAccepts | src/features/tweets/sanitize.ts:46-64 | A schema with every `required()` dropped accepts whatever the original accepts, converted the same way. |
| Validation.TimeRule | src/features/tweets/sanitize.ts:22-26 | The `time` literal accepts an absent `time`, or an object whose hour is 0..23 and minutes and seconds 0..59. Each part is required, or checked only when present. |
| UserSanitize.CreateUserRules | src/features/users/sanitize.ts:12-24 | Sign-up accepts exactly: no params, a username of 3..30 and a password of 6..30 characters after conversion, and no other key. |
| UserSanitize.UsernameParamRules | src/features/users/sanitize.ts:26-40 | Get and delete accept exactly: a non-empty `username` param and an empty body. |
| UserSanitize.LoginUserRules | src/features/users/sanitize.ts:42-50 | Login accepts exactly: a non-empty username with no length bound, and a password of 6..30 characters. |
| UserSanitize.ChangePasswordUserRules | src/features/users/sanitize.ts:52-60 | A password change accepts exactly: a current and a new password, each of 6..30 characters. |
| UserSanitize.SignUpBodyLogsIn | src/features/users/sanitize.ts:12-50 | Whatever sign-up accepts, login accepts, with the same converted output. |
| TweetSanitize.CreateTweetRules | src/features/tweets/sanitize.ts:11-28 | A new tweet accepts exactly: text of 1..200 characters, a date, a time of day in range when `time` is sent, and no other key. |
| TweetSanitize.IdParamRules | src/features/tweets/sanitize.ts:30-44 | Get and delete accept exactly: a non-empty `_id` and an empty body. |
| TweetSanitize.UpdateIsOptionalCreate | src/features/tweets/sanitize.ts:46-64 | The update body is the create body with every `required()` dropped. |
| TweetSanitize.UpdateTweetRules | src/features/tweets/sanitize.ts:46-64 | An update accepts exactly: `_id`, and each of text, date and time only when sent, within the same bounds. |
| TweetSanitize.UpdateAcceptsCreateBody | src/features/tweets/sanitize.ts:46-64 | Any body valid for a new tweet is valid, and converted the same way, for an update. |
| MsgSanitize.CreateMsgRules | src/features/msgs/sanitize.ts:11-32 | A new message accepts exactly: a `chat` param, text of 1..200 characters, a date, a recipient, a time of day in range when sent, and nothing else. |
| MsgSanitize.ChatParamRules | src/features/msgs/sanitize.ts:34-48 | Listing and deleting accept exactly: a non-empty `chat` param and an empty body. |
| MsgSanitize.ConvertedTexts | src/features/msgs/sanitize.ts:17-24 | The handler receives text and recipient trimmed and lower-cased. |
| MsgSanitize.ValidatedMsgIsStored | src/features/msgs/controller.ts:64-70 | A validated message with a `time` is accepted by the message schema exactly when the caller, the recipient and the chat are ObjectIds, and then with the converted text. |
| MsgSanitize.MissingTimeIsRefusedByStore | src/features/msgs/Model.ts:56-75 | A validated message without `time` passes the validator but is always refused by the schema, at `time.hour` when the three ids are ObjectIds. |
| Strings.NormalizeIdempotent | src/features/users/sanitize.ts:4 | Trimming and lower-casing twice is the same as once. |
| Strings.Trim | src/features/users/Model.ts:22 | The result has no white space at either end, and it is the input with only white space cut from each side. |
| Strings.Utf16Length | src/features/msgs/sanitize.ts:17-20 | A string's JavaScript length lies between its character count and twice that. It equals the count without astral characters and twice it with only astral ones. |
| Strings.TrimLowerCommute | src/features/users/Model.ts:22-23 | Trimming and lower-casing can be done in either order. |
| Strings.ReplaceFirst | src/features/chats/controller.ts:58 | Only the first occurrence is replaced, and a string without the pattern is unchanged. |
| Common.WithDefault | src/features/chats/controller.ts:90 | `{ key: value, ...bag }`: the bag's keys all win, and `value` only fills the gap. |
| Common.CastTime | src/features/msgs/Model.ts:56-75 | A time of day is cast exactly when hour, minutes and seconds are given and in range. |
| Common.CastIdCanonical | src/features/chats/Model.ts:16-20 | Casting an ObjectId gives an id in canonical form, and casting that again changes nothing. |
| Common.UpperIdCastsBack | src/features/chats/Model.ts:16-20 | The upper-case spelling of a canonical id is still an ObjectId and casts back to it. |

## Left out

- The `ApiFeatures` query builder and the `getAll` services behind `getAllChats`. Their code is not part of this model. `getAllChats` is modelled up to the filter it builds.
- The user service's `logIn`, `changePassword` and `get`. Their code is not part of this model, so they are oracles. bcrypt's `hash` and `compare` are uninterpreted functions. Their only assumption is `Sound`, and `TaggedSound` shows it can be met.
- UserModel.ValidPassword, UserModel.ReSaveKeepsPassword, UserModel.PreSave and UserModel.PreSaveAsWritten: `Sound` says a digest matches exactly its own plaintext. Real bcrypt reads only the first 72 bytes, so two passwords that agree on those bytes both match. With the 30-character limit on sign-up and password change, only passwords with many multi-byte characters reach 72 bytes.
- Real time. `setTimeout` becomes a queue of pending timers and an `Expire` event. Races between a timer, a logout and concurrent requests are not modelled.
- Mongoose sessions and transactions. The deletes in `deleteChatWithMsgs` run one after the other, and `Fault` picks the call that fails. The transaction never covers them, so abort undoes nothing.
- HTTP rendering, `catchAsync`/`AppError` (modelled as the `Outcome` values), the logger, routes, index files, subscribers and spec files.
- `src/features/chats/sanitize.ts`. It is imported by `src/features/chats/routes.ts:9` and registers a second `createMsg` schema, with a `recipient` param and an empty body. No chat route names that schema. Whether it replaces the message schema of the same name in the registry depends on `registerSanitizeSchema`, whose code is not part of this model. The model takes the message schema to be the one in force.
- The thin services (tweets, users, and message `create`/`getAll`). They are one call into the store. Message `create`, `getAllByChat` and `delete` are modelled inside the controllers that call them.
- MsgModel.Create, TweetModel.Create and UserModel.SaveError: Mongoose reports every failing path, for instance both an empty username and an empty password. The model names only the first, in schema order.
- Validation.Validate: Joi numbers are integers here, not doubles. Strings that parse as numbers or dates go through the `Parsers` oracle. String lengths are UTF-16 code units, as JavaScript counts them.
- Validation.CheckLeaf, Validation.Validate, UserModel.UserDocument.constructor and UserModel.FindByUsername: lower-casing covers ASCII letters only. Joi's `lowercase()` and Mongoose's `lowercase` setter use JavaScript's full `toLowerCase`, so a username such as "ÉMILE" is stored, and looked up, as "Émile" here and as "émile" by the source.
- Validation.CheckRequest, MsgSanitize.ConvertedTexts, MsgSanitize.ValidatedMsgIsStored and MsgSanitize.MissingTimeIsRefusedByStore: the route middleware `reqValidate` (imported at `src/features/msgs/routes.ts:17` and `src/features/users/routes.ts:16`) is not part of this model. It is taken to check the params, then the body, against the schema registered under its name, and to hand the converted values on to the handler.
- ObjectIds are modelled as strings of 24 hexadecimal digits. bson also accepts a 12-character string and other forms, which are not modelled. The cast error is modelled for the query filters (`_id`, `chat`, `members`), the chat update's `members`, and the schema paths (`author`, `recipient`, `chat`). Mongoose's `required` on an array, which `runValidators` would also check on update, is not modelled.
- MsgModel.Create, MsgController.GetMsgsByChat and MsgController.DeleteMsg: message ids are kept and compared as they arrive, without the cast to canonical form. On the message routes the validator lower-cases `chat` and `recipient`, and the caller's id is the user document's, so they arrive in canonical form. The case-insensitive cast is modelled on the chat routes, which have no validator.
- MsgController.CreateMsg keeps the self-chat guard as written. `RecipientChecksAgree` shows it agrees with the intended guard on the lower-cased recipient the validator hands on.
- ChatController.GetChatByRecipient and MsgController.CreateMsg: the user service looks up the recipient before any chat query, and that lookup is an oracle. What it answers for a recipient that is not an ObjectId is the oracle's choice.
- TweetModel.Liked, TweetModel.Unliked, TweetModel.LikeThenUnlike and ChatService.Update: `timestamps: true` (`src/features/tweets/Model.ts:87`, `src/features/chats/Model.ts:34`) sets `updatedAt` on every save and update, and `createdAt` on create. The tweet and chat records carry no timestamps, so their contracts cover the modelled fields only.
- UserModel.FindByUsername: this assumes Mongoose runs the path's setters on the query value. Without that, a query differing in case would find nothing.
- ChatModel.CascadeByIdIdempotent: this is stated for the id filter the controller uses. With any other filter, a second call may remove one more matching chat.
- Ids come from `freshId` arguments with a freshness precondition. ObjectId generation is not modelled.

## Findings

| source | as written | input that shows it | evidently intended | confidence | as-written member | corrected member |
|---|---|---|---|---|---|---|
| src/features/users/Model.ts:58-61 | The pre-save hook hashes `this.password` on every save. | Sign up with password `secret1`, then save the same document again without touching the password. The stored value becomes `hash(hash("secret1"))`, and `validPassword("secret1")` is false. | Hash only when the password was modified since the last save. | medium, not executed | UserModel.ReSaveLocksOut, UserModel.UserStore.SaveAsWritten, UserModel.SignUpThenReSaveAsWritten | UserModel.ReSaveKeepsPassword, UserModel.UserStore.Save, UserModel.SignUpThenReSave |
| src/features/users/Model.ts:34-38 | `default: Date.now()` calls the function once, when the schema is built. | Sign up two users a minute apart without `createdAt`. Both are stored with the moment the module was loaded. | `default: Date.now`, evaluated for each document. | high, not executed | UserModel.CreatedAtFrozen, UserModel.SignUpThenReSaveAsWritten | UserModel.CreatedAtOrdered, UserModel.SignUpTwoUsers, UserModel.SignUpThenReSave |
| src/features/chats/controller.ts:51 | The self-chat guard compares `req.user.id` and `req.params.recipient` as strings, and the chat route has no validator to lower-case the recipient. | Caller `5f1a5f1a5f1a5f1a5f1a5f1a` asks for recipient `5F1A5F1A5F1A5F1A5F1A5F1A`. The guard passes, the user lookup finds the caller, and `$all` casts both ids to the caller's. The handler answers the caller's first chat or creates a chat with the caller twice. | Refuse a recipient whose ObjectId is the caller's. | medium, not executed | ChatController.RecipientCheck, ChatController.SelfChatGuardBypassed | ChatController.RecipientCheckById, ChatController.GetChatByRecipient |

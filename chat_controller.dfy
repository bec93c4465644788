/** The chat request handlers (src/features/chats/controller.ts). Every chat
    route runs after `authorization`, so the caller is always known. */
module ChatController {
  import opened Common
  import opened Strings
  import opened Collection
  import opened MsgModel
  import opened ChatModel
  import opened ChatService
  import opened Auth

  const SelfChatMsg: string := "Error! You cannot chat with yourself."
  /** The status the self-chat guard uses, written as a literal in the handler. */
  const SelfChatCode: int := 401

  /** The user service's error reworded for the recipient: the first `User`
      in the message becomes `Recipient`, the code is kept. */
  function RecipientError(e: Failure): (r: Failure)
    ensures r.code == e.code
    ensures (forall k: nat :: k <= |e.msg| ==> !OccursAt(e.msg, "User", k)) ==> r.msg == e.msg
  {
    Failure(ReplaceFirst(e.msg, "User", "Recipient"), e.code)
  }

  /** The two guards `getChatByRecipient` and `createMsg` share before they
      reach the store, as written: no chat with oneself, judged by comparing
      the two strings, and the recipient must exist. A missing recipient is
      never the caller, and is looked up as `undefined`. */
  function RecipientCheck(users: UserService, caller: Principal, recipient: Option<Id>): (r: Option<Failure>)
    ensures recipient == Some(caller.id) ==> r == Some(Failure(SelfChatMsg, SelfChatCode))
    ensures recipient != Some(caller.id) ==>
              r == (match users.get(recipient)
                    case Some(e) => Some(RecipientError(e))
                    case None => None)
  {
    if recipient == Some(caller.id) then Some(Failure(SelfChatMsg, SelfChatCode))
    else match users.get(recipient)
         case Some(e) => Some(RecipientError(e))
         case None => None
  }

  /** The recipient names the caller: the same string, or an ObjectId that
      casts to the caller's. */
  predicate NamesCaller(caller: Principal, recipient: Option<Id>) {
    || recipient == Some(caller.id)
    || (recipient.Some? && IsObjectId(recipient.value) && IsObjectId(caller.id)
        && CastId(recipient.value) == CastId(caller.id))
  }

  /** The guards as evidently intended: the self-chat guard compares the
      ObjectIds the store will use, not their spellings. */
  function RecipientCheckById(users: UserService, caller: Principal, recipient: Option<Id>): (r: Option<Failure>)
    ensures NamesCaller(caller, recipient) ==> r == Some(Failure(SelfChatMsg, SelfChatCode))
    ensures !NamesCaller(caller, recipient) ==>
              r == (match users.get(recipient)
                    case Some(e) => Some(RecipientError(e))
                    case None => None)
  {
    if NamesCaller(caller, recipient) then Some(Failure(SelfChatMsg, SelfChatCode))
    else match users.get(recipient)
         case Some(e) => Some(RecipientError(e))
         case None => None
  }

  /** With the caller's id in canonical form and a recipient with no
      upper-case hexadecimal digit, as the message validator hands it on, the
      two guards agree. */
  lemma RecipientChecksAgree(users: UserService, caller: Principal, recipient: Option<Id>)
    requires Canonical(caller.id)
    requires recipient.Some? && IsObjectId(recipient.value) ==> CastId(recipient.value) == recipient.value
    ensures RecipientCheck(users, caller, recipient) == RecipientCheckById(users, caller, recipient)
  {
  }

  /** As written, the caller's own id spelled in upper case passes the
      self-chat guard. The `$all` filter then casts both ids to the caller's,
      so the handler answers the caller's first chat, or creates a chat whose
      two members are the caller. The intended guard refuses it. */
  lemma SelfChatGuardBypassed(users: UserService, chats: seq<Chat>, caller: Principal, freshId: Id)
    requires Canonical(caller.id) && exists k :: 0 <= k < |caller.id| && 'a' <= caller.id[k] <= 'f'
    requires users.get(Some(UpperId(caller.id))) == None
    ensures var recipient := UpperId(caller.id);
            && RecipientCheck(users, caller, Some(recipient)) == None
            && IsObjectId(recipient)
            && CastIds([caller.id, recipient]) == [caller.id, caller.id]
            && ((forall c :: c in chats ==> caller.id !in c.members) ==>
                  AfterGetByRecipient(chats, CastIds([caller.id, recipient]), freshId)
                    == chats + [Chat(freshId, [caller.id, caller.id])])
            && RecipientCheckById(users, caller, Some(recipient)) == Some(Failure(SelfChatMsg, SelfChatCode))
  {
    var recipient := UpperId(caller.id);
    UpperIdCastsBack(caller.id);
    var k :| 0 <= k < |caller.id| && 'a' <= caller.id[k] <= 'f';
    assert recipient[k] != caller.id[k];
    assert CastIds([caller.id, recipient]) == [caller.id, caller.id];
  }

  /** `getChatByRecipient`, with the intended self-chat guard: refuse a chat
      with oneself or with an unknown user; otherwise find or create the chat
      of the two and answer it with 201. The `$all` filter casts both ids, and
      a refused cast throws before anything is created. */
  method GetChatByRecipient(db: Db, users: UserService, caller: Principal, recipient: Id, freshId: Id)
    returns (o: Outcome<Chat>)
    requires db.Valid()
    requires Canonical(freshId) && forall c :: c in db.chats ==> c.id != freshId
    modifies db`chats
    ensures db.Valid()
    ensures RecipientCheckById(users, caller, Some(recipient)).Some? ==>
              o == Fail(RecipientCheckById(users, caller, Some(recipient)).value) && db.chats == old(db.chats)
    ensures RecipientCheckById(users, caller, Some(recipient)).None? && !(IsObjectId(caller.id) && IsObjectId(recipient)) ==>
              o == Raise(CastError("members")) && db.chats == old(db.chats)
    ensures RecipientCheckById(users, caller, Some(recipient)).None? && IsObjectId(caller.id) && IsObjectId(recipient) ==>
              && CastId(caller.id) != CastId(recipient)
              && db.chats == AfterGetByRecipient(old(db.chats), [CastId(caller.id), CastId(recipient)], freshId)
              && o == Respond(CREATED, ChatFor(old(db.chats), [CastId(caller.id), CastId(recipient)], freshId))
  {
    if NamesCaller(caller, Some(recipient)) {
      return Fail(Failure(SelfChatMsg, SelfChatCode));
    }
    var error := users.get(Some(recipient));
    if error.Some? {
      return Fail(RecipientError(error.value));
    }
    var members := [caller.id, recipient];
    if IsObjectId(caller.id) && IsObjectId(recipient) {
      assert CastIds(members) == [CastId(caller.id), CastId(recipient)];
    }
    var reply := GetByRecipient(db, members, freshId);
    if reply.Thrown? {
      return Raise(reply.cause);
    }
    return Respond(CREATED, reply.data);
  }

  /** Once one of two users opens their conversation, the other opening it
      finds the same chat and creates nothing. */
  lemma ConversationIsShared(chats: seq<Chat>, a: Id, b: Id, id1: Id, id2: Id)
    ensures var after := AfterGetByRecipient(chats, [a, b], id1);
            && AfterGetByRecipient(after, [b, a], id2) == after
            && ChatFor(after, [b, a], id2) == ChatFor(chats, [a, b], id1)
  {
    FindByMembersOrderFree(chats, [a, b], [b, a]);
    FindByMembersAppend(chats, Chat(id1, [a, b]), [a, b]);
    FindByMembersOrderFree(chats + [Chat(id1, [a, b])], [a, b], [b, a]);
  }

  /** The filter `getAllChats` hands to the query builder:
      `{ members: caller, ...req.query }`. The caller's membership is only a
      default, so a `members` key in the query string replaces it. */
  function AllChatsQuery(caller: Principal, query: Bag): (r: Bag)
    ensures r.Keys == query.Keys + {"members"}
    ensures r["members"] == if "members" in query then query["members"] else caller.id
    ensures forall k :: k in query ==> r[k] == query[k]
  {
    WithDefault(query, "members", caller.id)
  }

  /** `deleteChat` on the route `/:_id/chat`: the cascading delete of the chat
      with that id, answered with 204; an escaping store error is passed on.
      The route has no validator, so the id arrives as sent. The first
      `findOneAndDelete` casts it: one that is not an ObjectId throws, and the
      others find the chat whatever the case of their hexadecimal digits. */
  method DeleteChat(db: Db, id: Id, fault: Fault) returns (o: Outcome<()>)
    requires db.Valid()
    modifies db`chats, db`msgs, db`openSessions
    ensures db.Valid()
    ensures !IsObjectId(id) ==> db.chats == old(db.chats) && db.msgs == old(db.msgs) && o == Raise(CastError("_id"))
    ensures IsObjectId(id) ==>
              && db.chats == CascadeChats(old(db.chats), ById(CastId(id)), fault)
              && db.msgs == CascadeMsgs(old(db.chats), old(db.msgs), ById(CastId(id)), fault)
              && o == match CascadeError(old(db.chats), ById(CastId(id)), fault)
                      case Some(e) => Raise(e)
                      case None => Respond(NO_CONTENT, ())
  {
    var f := if IsObjectId(id) then fault else FindFails(CastError("_id"));
    var reply := Delete(db, ById(CastId(id)), f);
    if reply.Thrown? {
      return Raise(reply.cause);
    }
    return Respond(NO_CONTENT, ());
  }

  /** For an ObjectId: after a delete whose first step succeeded no chat with
      that ObjectId is left; when the chat existed and `deleteMany` ran, none
      of its messages is left either; and a second delete, unless its own
      first step fails, succeeds without doing anything. Any other id is
      refused twice. */
  method DeleteChatTwice(db: Db, id: Id, fault: Fault, fault': Fault) returns (first: Outcome<()>, second: Outcome<()>)
    requires db.Valid()
    modifies db`chats, db`msgs, db`openSessions
    ensures IsObjectId(id) && !fault.FindFails? ==> forall c :: c in db.chats ==> c.id != CastId(id)
    ensures IsObjectId(id) && (exists c :: c in old(db.chats) && c.id == CastId(id)) && DeleteManyRan(fault) ==>
              forall m :: m in db.msgs ==> m.chat != CastId(id)
    ensures IsObjectId(id) && !fault.FindFails? && !fault'.FindFails? ==> second == Respond(NO_CONTENT, ())
    ensures !IsObjectId(id) ==> first == Raise(CastError("_id")) && second == Raise(CastError("_id"))
  {
    ghost var chats0, msgs0 := db.chats, db.msgs;
    first := DeleteChat(db, id, fault);
    if Matched(chats0, ById(CastId(id))).Some? {
      CascadeRemovesChatAndMsgs(chats0, msgs0, ById(CastId(id)), fault);
    }
    CascadeByIdIdempotent(chats0, msgs0, CastId(id), fault, fault');
    second := DeleteChat(db, id, fault');
  }

  /** A chat and its messages are deleted through any spelling of its id that
      differs only in the case of its hexadecimal digits. */
  lemma DeleteIgnoresCase(chats: seq<Chat>, msgs: seq<Msg>, c: Chat, id: Id, fault: Fault)
    requires UniqueBy(chats, ChatId) && c in chats && IsObjectId(id) && CastId(id) == c.id
    ensures !fault.FindFails? ==> forall x :: x in CascadeChats(chats, ById(CastId(id)), fault) ==> x.id != c.id
    ensures DeleteManyRan(fault) ==>
              forall m :: m in CascadeMsgs(chats, msgs, ById(CastId(id)), fault) ==> m.chat != c.id
  {
    assert ById(CastId(id))(c);
    CascadeRemovesChatAndMsgs(chats, msgs, ById(CastId(id)), fault);
  }
}

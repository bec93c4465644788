/** The message request handlers (src/features/msgs/controller.ts) on the
    routes `/:chat/msg` and `/:chat/chat`, all behind `authorization`. The
    message service they call is a pass-through to the store. */
module MsgController {
  import opened Common
  import opened Collection
  import opened MsgModel
  import opened ChatModel
  import opened ChatController
  import opened Auth

  /** `{ ...req.body, author: req.user.id, chat: req.params.chat }`: the later
      keys win, so the author and the chat always come from the request, never
      from the body. */
  function MsgDetails(body: MsgFields, caller: Principal, chat: Id): (d: MsgFields)
    ensures d.author == Some(caller.id) && d.chat == Some(chat)
    ensures d.text == body.text && d.recipient == body.recipient && d.date == body.date && d.time == body.time
  {
    body.(author := Some(caller.id), chat := Some(chat))
  }

  /** `createMsg`: the guards of `getChatByRecipient` on the body's recipient,
      then create the message; a validation error escapes to the error handler. */
  method CreateMsg(db: Db, users: UserService, caller: Principal, chat: Id, body: MsgFields, freshId: Id)
    returns (o: Outcome<Msg>)
    requires db.Valid()
    requires forall m :: m in db.msgs ==> m.id != freshId
    modifies db`msgs
    ensures db.Valid()
    ensures RecipientCheck(users, caller, body.recipient).Some? ==>
              o == Fail(RecipientCheck(users, caller, body.recipient).value) && db.msgs == old(db.msgs)
    ensures RecipientCheck(users, caller, body.recipient).None? ==>
              match Create(MsgDetails(body, caller, chat), freshId)
              case Err(e) => o == Raise(e) && db.msgs == old(db.msgs)
              case Ok(m) => o == Respond(CREATED, m) && db.msgs == old(db.msgs) + [m]
    ensures o.Respond? ==> o.body.author == caller.id && o.body.chat == chat && o.body.recipient != caller.id
  {
    if body.recipient == Some(caller.id) {
      return Fail(Failure(SelfChatMsg, SelfChatCode));
    }
    var error := users.get(body.recipient);
    if error.Some? {
      return Fail(RecipientError(error.value));
    }
    var details := MsgDetails(body, caller, chat);
    var created := Create(details, freshId);
    if created.Err? {
      return Raise(created.error);
    }
    var m := created.value;
    db.InsertMsg(m);
    return Respond(CREATED, m);
  }

  /** `getMsgsByChat`: every message of the chat named in the route, in store
      order. The validator lets any string through, and a chat that is not an
      ObjectId makes the query's cast throw, which escapes to the error handler. */
  method GetMsgsByChat(db: Db, chat: Id) returns (o: Outcome<seq<Msg>>)
    ensures !IsObjectId(chat) ==> o == Raise(CastError("chat"))
    ensures IsObjectId(chat) ==> o == Respond(OK, FindByChat(db.msgs, chat))
    ensures o.Respond? ==> forall m :: m in o.body <==> m in db.msgs && m.chat == chat
  {
    if !IsObjectId(chat) {
      return Raise(CastError("chat"));
    }
    return Respond(OK, FindByChat(db.msgs, chat));
  }

  /** The filter `{ chat }` built from the route's parameters. */
  function OfChat(chat: Id): Msg -> bool {
    (m: Msg) => m.chat == chat
  }

  /** `findOneAndDelete({ chat })`: the first message of the chat is removed,
      and nothing when the chat has none. */
  function DeleteFirstOfChat(msgs: seq<Msg>, chat: Id): (r: seq<Msg>)
    ensures FindOne(msgs, OfChat(chat)).None? <==> r == msgs
    ensures FindOne(msgs, OfChat(chat)).Some? ==>
              && msgs[FindOne(msgs, OfChat(chat)).value].chat == chat
              && multiset(r) + multiset{msgs[FindOne(msgs, OfChat(chat)).value]} == multiset(msgs)
  {
    match FindOne(msgs, OfChat(chat))
    case None => msgs
    case Some(i) => RemoveAt(msgs, i)
  }

  /** Removing one message leaves every other field value's messages as they
      were, and takes exactly one message from its own. */
  lemma {:induction false} FindByRemoveAt(msgs: seq<Msg>, i: nat, f: MsgField, v: Id)
    requires i < |msgs|
    ensures FieldOf(msgs[i], f) != v ==> FindBy(RemoveAt(msgs, i), f, v) == FindBy(msgs, f, v)
    ensures FieldOf(msgs[i], f) == v ==> |FindBy(RemoveAt(msgs, i), f, v)| + 1 == |FindBy(msgs, f, v)|
  {
    if i == 0 {
      assert RemoveAt(msgs, 0) == msgs[1..];
    } else {
      assert RemoveAt(msgs, i) == [msgs[0]] + RemoveAt(msgs[1..], i - 1);
      assert RemoveAt(msgs, i)[1..] == RemoveAt(msgs[1..], i - 1);
      FindByRemoveAt(msgs[1..], i - 1, f, v);
    }
  }

  /** `deleteMsg` takes one message, and only from the chat it names: the
      chat's listing shrinks by one, every other chat's listing is as it was. */
  lemma DeleteMsgListings(msgs: seq<Msg>, chat: Id, other: Id)
    requires exists m :: m in msgs && m.chat == chat
    requires other != chat
    ensures |FindByChat(DeleteFirstOfChat(msgs, chat), chat)| + 1 == |FindByChat(msgs, chat)|
    ensures FindByChat(DeleteFirstOfChat(msgs, chat), other) == FindByChat(msgs, other)
  {
    var m :| m in msgs && m.chat == chat;
    var j :| 0 <= j < |msgs| && msgs[j] == m;
    assert OfChat(chat)(msgs[j]);
    var i := FindOne(msgs, OfChat(chat)).value;
    FindByRemoveAt(msgs, i, ChatField, chat);
    FindByRemoveAt(msgs, i, ChatField, other);
  }

  /** `deleteMsg` on the route `/:chat/msg`: remove the first message of that
      chat, answered with 204 whether or not one was found; a chat that is not
      an ObjectId makes the query's cast throw before anything is removed. */
  method DeleteMsg(db: Db, chat: Id) returns (o: Outcome<()>)
    requires db.Valid()
    modifies db`msgs
    ensures db.Valid()
    ensures !IsObjectId(chat) ==> db.msgs == old(db.msgs) && o == Raise(CastError("chat"))
    ensures IsObjectId(chat) ==> db.msgs == DeleteFirstOfChat(old(db.msgs), chat) && o == Respond(NO_CONTENT, ())
  {
    if !IsObjectId(chat) {
      return Raise(CastError("chat"));
    }
    var found := FindOne(db.msgs, OfChat(chat));
    if found.Some? {
      RemoveAtUnique(db.msgs, found.value, MsgId);
      db.msgs := RemoveAt(db.msgs, found.value);
    }
    return Respond(NO_CONTENT, ());
  }
}

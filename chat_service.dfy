/** The chat service (src/features/chats/service.ts): find, find-or-create
    by members, cascading delete and update, over the store of ChatModel. */
module ChatService {
  import opened Common
  import opened Collection
  import opened MsgModel
  import opened ChatModel

  const ChatNotFoundMsg: string := "Invalid Chat. Chat Does Not Exist!"

  /** `get(query)`: the first chat that matches, or the not-found error. */
  function Get(chats: seq<Chat>, q: Chat -> bool): (r: Reply<Chat>)
    ensures !r.Thrown?
    ensures r.Value? ==> r.data in chats && q(r.data)
    ensures r.Error? <==> forall c :: c in chats ==> !q(c)
    ensures r.Error? ==> r.failure == Failure(ChatNotFoundMsg, BAD_REQUEST)
  {
    match Matched(chats, q)
    case None => Error(Failure(ChatNotFoundMsg, BAD_REQUEST))
    case Some(c) => Value(c)
  }

  /** The chat `getByRecipient(rs)` answers: an existing chat with all of `rs`
      among its members, or else the one it creates with exactly `rs`. */
  function ChatFor(chats: seq<Chat>, rs: seq<Id>, freshId: Id): (c: Chat)
    ensures (exists x :: x in chats && HasAll(x, rs)) ==> c in chats && HasAll(c, rs)
    ensures (forall x :: x in chats ==> !HasAll(x, rs)) ==> c == Chat(freshId, rs)
    ensures forall m :: m in rs ==> m in c.members
  {
    match FindByMembers(chats, rs)
    case Some(c) => c
    case None => Chat(freshId, rs)
  }

  /** The chats after `getByRecipient(rs)`: nothing is created when a chat
      qualifies, and otherwise the new chat is added at the end. */
  function AfterGetByRecipient(chats: seq<Chat>, rs: seq<Id>, freshId: Id): (r: seq<Chat>)
    ensures (exists x :: x in chats && HasAll(x, rs)) ==> r == chats
    ensures (forall x :: x in chats ==> !HasAll(x, rs)) ==> r == chats + [Chat(freshId, rs)]
    ensures ChatFor(chats, rs, freshId) in r
  {
    if FindByMembers(chats, rs).Some? then chats else chats + [Chat(freshId, rs)]
  }

  /** Asking twice for the same non-empty members creates at most one chat, and
      both calls answer the same chat. */
  lemma GetByRecipientTwice(chats: seq<Chat>, rs: seq<Id>, id1: Id, id2: Id)
    requires rs != []
    ensures var after := AfterGetByRecipient(chats, rs, id1);
            && AfterGetByRecipient(after, rs, id2) == after
            && ChatFor(after, rs, id2) == ChatFor(chats, rs, id1)
  {
    FindByMembersAppend(chats, Chat(id1, rs), rs);
  }

  /** With no members asked for, `$all: []` matches nothing, so every call
      creates another chat. */
  lemma GetByRecipientEmpty(chats: seq<Chat>, freshId: Id)
    ensures AfterGetByRecipient(chats, [], freshId) == chats + [Chat(freshId, [])]
  {
  }

  /** `getByRecipient(rs)`: find a chat with all of `rs` among its members, or
      create one with exactly those members under a fresh id. The `$all`
      filter casts every id, so one that is not an ObjectId throws before
      anything is created; the others are compared, and stored, as ObjectIds. */
  method GetByRecipient(db: Db, rs: seq<Id>, freshId: Id) returns (r: Reply<Chat>)
    requires db.Valid()
    requires Canonical(freshId) && forall c :: c in db.chats ==> c.id != freshId
    modifies db`chats
    ensures db.Valid()
    ensures (exists m :: m in rs && !IsObjectId(m)) ==>
              r == Thrown(CastError("members")) && db.chats == old(db.chats)
    ensures (forall m :: m in rs ==> IsObjectId(m)) ==>
              && db.chats == AfterGetByRecipient(old(db.chats), CastIds(rs), freshId)
              && r == Value(ChatFor(old(db.chats), CastIds(rs), freshId))
  {
    if exists m :: m in rs && !IsObjectId(m) {
      return Thrown(CastError("members"));
    }
    var ms := CastIds(rs);
    var chat := FindByMembers(db.chats, ms);
    if chat.None? {
      var created := Chat(freshId, ms);
      AppendUnique(db.chats, created, ChatId);
      db.chats := db.chats + [created];
      return Value(created);
    }
    return Value(chat.value);
  }

  /** `delete(query)`: the cascading delete; its answer carries no data. */
  method Delete(db: Db, q: Chat -> bool, fault: Fault) returns (r: Reply<()>)
    requires db.Valid()
    modifies db`chats, db`msgs, db`openSessions
    ensures db.Valid() && db.openSessions == old(db.openSessions)
    ensures db.chats == CascadeChats(old(db.chats), q, fault)
    ensures db.msgs == CascadeMsgs(old(db.chats), old(db.msgs), q, fault)
    ensures r == match CascadeError(old(db.chats), q, fault)
                 case Some(e) => Thrown(e)
                 case None => Value(())
  {
    var e := db.DeleteChatWithMsgs(q, fault);
    if e.Some? {
      return Thrown(e.value);
    }
    return Value(());
  }

  /** The body of an update: the one path a chat has. */
  datatype ChatUpdate = ChatUpdate(members: Option<seq<Id>>)

  /** A chat after `$set` of the given paths: its id never changes. */
  function Updated(c: Chat, details: ChatUpdate): (u: Chat)
    ensures u.id == c.id
    ensures u.members == (if details.members.Some? then details.members.value else c.members)
  {
    match details.members
    case Some(ms) => c.(members := ms)
    case None => c
  }

  /** The update's cast succeeds: every member given is an ObjectId. */
  predicate UpdateCasts(details: ChatUpdate) {
    details.members.Some? ==> forall m :: m in details.members.value ==> IsObjectId(m)
  }

  /** The update as the store writes it: the members cast to ObjectIds. */
  function CastUpdate(details: ChatUpdate): (d: ChatUpdate)
    requires UpdateCasts(details)
    ensures d.members.Some? <==> details.members.Some?
    ensures d.members.Some? ==> d.members.value == CastIds(details.members.value)
  {
    match details.members
    case Some(ms) => ChatUpdate(Some(CastIds(ms)))
    case None => details
  }

  /** `update(query, details)`: `findOneAndUpdate` on the first match, answering
      the updated chat, or the not-found error with nothing changed. The update
      is cast before the query runs, so a member that is not an ObjectId throws
      whether or not a chat matches. */
  method Update(db: Db, q: Chat -> bool, details: ChatUpdate) returns (r: Reply<Chat>)
    requires db.Valid()
    modifies db`chats
    ensures db.Valid()
    ensures !UpdateCasts(details) ==> db.chats == old(db.chats) && r == Thrown(CastError("members"))
    ensures UpdateCasts(details) && FindOne(old(db.chats), q).None? ==>
              db.chats == old(db.chats) && r == Error(Failure(ChatNotFoundMsg, BAD_REQUEST))
    ensures UpdateCasts(details) && FindOne(old(db.chats), q).Some? ==>
              var i := FindOne(old(db.chats), q).value;
              && db.chats == old(db.chats)[i := Updated(old(db.chats)[i], CastUpdate(details))]
              && r == Value(Updated(old(db.chats)[i], CastUpdate(details)))
  {
    if !UpdateCasts(details) {
      return Thrown(CastError("members"));
    }
    var found := FindOne(db.chats, q);
    if found.None? {
      return Error(Failure(ChatNotFoundMsg, BAD_REQUEST));
    }
    var i := found.value;
    var u := Updated(db.chats[i], CastUpdate(details));
    assert db.chats[i] in db.chats && StoredChat(u);
    ReplaceKeepsStore(db.chats, i, u);
    db.chats := db.chats[i := u];
    return Value(u);
  }

  /** Replacing a chat by one with its id, in the stored form, keeps ids unique
      and every chat stored. */
  lemma ReplaceKeepsStore(chats: seq<Chat>, i: nat, u: Chat)
    requires i < |chats| && u.id == chats[i].id && StoredChat(u)
    requires UniqueBy(chats, ChatId) && forall c :: c in chats ==> StoredChat(c)
    ensures UniqueBy(chats[i := u], ChatId) && forall c :: c in chats[i := u] ==> StoredChat(c)
  {
    var r := chats[i := u];
    assert forall j :: 0 <= j < |r| ==> ChatId(r[j]) == ChatId(chats[j]);
    forall c | c in r
      ensures StoredChat(c)
    {
      var j :| 0 <= j < |r| && r[j] == c;
      if j != i { assert chats[j] in chats; }
    }
  }

  /** A chat read back by its id right after an update is the updated chat. */
  lemma UpdateThenGet(chats: seq<Chat>, q: Chat -> bool, details: ChatUpdate)
    requires UniqueBy(chats, ChatId) && FindOne(chats, q).Some?
    ensures var i := FindOne(chats, q).value;
            Get(chats[i := Updated(chats[i], details)], ById(chats[i].id)) == Value(Updated(chats[i], details))
  {
    var i := FindOne(chats, q).value;
    var u := Updated(chats[i], details);
    var after := chats[i := u];
    assert ById(chats[i].id)(after[i]);
  }
}

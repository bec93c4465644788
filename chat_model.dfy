/** The chat schema and its statics (src/features/chats/Model.ts), over a
    store that holds the chat and message collections side by side. */
module ChatModel {
  import opened Common
  import opened Collection
  import opened MsgModel

  /** A stored chat: its id and the ids of its members. */
  datatype Chat = Chat(id: Id, members: seq<Id>)

  function ChatId(c: Chat): Id { c.id }

  /** A chat as the store keeps it: its id and its members are ObjectIds in
      canonical form. */
  predicate StoredChat(c: Chat) {
    Canonical(c.id) && forall m :: m in c.members ==> Canonical(m)
  }

  /** The cast of an array path: every element is cast to an ObjectId. */
  function CastIds(ms: seq<Id>): (r: seq<Id>)
    requires forall m :: m in ms ==> IsObjectId(m)
    ensures |r| == |ms| && forall k :: 0 <= k < |ms| ==> r[k] == CastId(ms[k])
    ensures forall m :: m in r ==> Canonical(m)
  {
    if ms == [] then []
    else CastIdCanonical(ms[0]); [CastId(ms[0])] + CastIds(ms[1..])
  }

  /** The filter `{ _id: id }`. */
  function ById(id: Id): Chat -> bool {
    (c: Chat) => c.id == id
  }

  /** The filter `{ members: { $all: ms } }`: every id of `ms` is a member.
      MongoDB's `$all` with an empty array matches no document. */
  predicate HasAll(c: Chat, ms: seq<Id>) {
    ms != [] && forall m :: m in ms ==> m in c.members
  }

  /** `findByMembers(ms)`: the first chat whose members include all of `ms`
      (in any order, other members allowed), or none when no chat qualifies. */
  function FindByMembers(chats: seq<Chat>, ms: seq<Id>): (r: Option<Chat>)
    ensures r.Some? ==> r.value in chats && HasAll(r.value, ms)
    ensures r.None? <==> forall c :: c in chats ==> !HasAll(c, ms)
  {
    if chats == [] then None
    else if HasAll(chats[0], ms) then Some(chats[0])
    else FindByMembers(chats[1..], ms)
  }

  /** Only the set of ids asked for matters to `findByMembers`, not their order or repetition. */
  lemma {:induction false} FindByMembersOrderFree(chats: seq<Chat>, ms: seq<Id>, ns: seq<Id>)
    requires forall m :: m in ms <==> m in ns
    ensures FindByMembers(chats, ms) == FindByMembers(chats, ns)
  {
    if chats != [] {
      assert ms == [] <==> ns == [] by {
        if ms != [] { assert ms[0] in ns; }
        if ns != [] { assert ns[0] in ms; }
      }
      assert HasAll(chats[0], ms) == HasAll(chats[0], ns);
      FindByMembersOrderFree(chats[1..], ms, ns);
    }
  }

  /** A chat appended at the end is found when no earlier chat qualifies. */
  lemma {:induction false} FindByMembersAppend(chats: seq<Chat>, c: Chat, ms: seq<Id>)
    ensures FindByMembers(chats + [c], ms) ==
              if FindByMembers(chats, ms).Some? then FindByMembers(chats, ms)
              else if HasAll(c, ms) then Some(c) else None
  {
    if chats != [] {
      assert (chats + [c])[1..] == chats[1..] + [c];
      FindByMembersAppend(chats[1..], c, ms);
    }
  }

  /** `findAMember(m)`: exactly the chats that have `m` as a member, in order. */
  function FindAMember(chats: seq<Chat>, m: Id): (r: seq<Chat>)
    ensures forall c :: c in r <==> c in chats && m in c.members
    ensures |r| <= |chats|
  {
    if chats == [] then []
    else (if m in chats[0].members then [chats[0]] else []) + FindAMember(chats[1..], m)
  }

  /** `findByIdAndDelete(id)`: the chats that remain. */
  function DeleteById(chats: seq<Chat>, id: Id): (r: seq<Chat>)
    ensures (forall c :: c in chats ==> c.id != id) ==> r == chats
    ensures (exists c :: c in chats && c.id == id) ==> |r| + 1 == |chats|
    ensures forall c :: c in r ==> c in chats
    ensures forall c :: c in chats && c.id != id ==> c in r
  {
    match FindOne(chats, ById(id))
    case None => chats
    case Some(i) => RemoveAt(chats, i)
  }

  /** Where the cascading delete can fail. The first `findOneAndDelete` and
      `startSession` sit outside the `try`, so their errors escape (the first
      with nothing changed, for instance a filter value the cast refuses);
      one inside the `try` block is caught and the transaction aborted. */
  datatype Fault = NoFault | FindFails(cause: StoreError) | StartSessionFails | DeleteManyFails | ReDeleteFails | CommitFails

  /** The cascade's `deleteMany` ran and did not fail. */
  predicate DeleteManyRan(fault: Fault) {
    !fault.FindFails? && fault != StartSessionFails && fault != DeleteManyFails
  }

  /** The chat `deleteChatWithMsgs(q)` removes, if any: the first match. */
  function Matched(chats: seq<Chat>, q: Chat -> bool): (r: Option<Chat>)
    ensures r.Some? ==> r.value in chats && q(r.value)
    ensures r.None? <==> forall c :: c in chats ==> !q(c)
  {
    match FindOne(chats, q)
    case None => None
    case Some(i) => Some(chats[i])
  }

  /** The chats after `deleteChatWithMsgs(q)`: unless the first delete
      failed, the first match is gone and all others stay, whatever fails after it. */
  function CascadeChats(chats: seq<Chat>, q: Chat -> bool, fault: Fault): (r: seq<Chat>)
    ensures Matched(chats, q).None? || fault.FindFails? ==> r == chats
    ensures Matched(chats, q).Some? && !fault.FindFails? ==>
              multiset(r) + multiset{Matched(chats, q).value} == multiset(chats)
  {
    if fault.FindFails? then chats
    else match FindOne(chats, q)
    case None => chats
    case Some(i) => RemoveAt(chats, i)
  }

  /** The messages after `deleteChatWithMsgs(q)`: those of the removed chat are
      gone unless the cascade failed before or at `deleteMany`. */
  function CascadeMsgs(chats: seq<Chat>, msgs: seq<Msg>, q: Chat -> bool, fault: Fault): (r: seq<Msg>)
    ensures forall m :: m in r ==> m in msgs
    ensures Matched(chats, q).None? || !DeleteManyRan(fault) ==> r == msgs
    ensures Matched(chats, q).Some? && DeleteManyRan(fault) ==>
              forall m :: m in r <==> m in msgs && m.chat != Matched(chats, q).value.id
  {
    match Matched(chats, q)
    case None => msgs
    case Some(c) => if DeleteManyRan(fault) then DeleteByChat(msgs, c.id) else msgs
  }

  /** The errors `deleteChatWithMsgs` lets escape: that of the first delete,
      and, once a chat was removed, that of `startSession`. */
  function CascadeError(chats: seq<Chat>, q: Chat -> bool, fault: Fault): (r: Option<StoreError>)
    ensures fault.FindFails? ==> r == Some(fault.cause)
    ensures !fault.FindFails? ==> (r.Some? <==> Matched(chats, q).Some? && fault == StartSessionFails)
    ensures r.Some? && !fault.FindFails? ==> r == Some(SessionUnavailable)
  {
    if fault.FindFails? then Some(fault.cause)
    else if Matched(chats, q).Some? && fault == StartSessionFails then Some(SessionUnavailable)
    else None
  }

  /** After a cascade on a matching chat whose first delete succeeded, no
      chat with its id is left; once `deleteMany` ran, no message of it is left either. */
  lemma CascadeRemovesChatAndMsgs(chats: seq<Chat>, msgs: seq<Msg>, q: Chat -> bool, fault: Fault)
    requires UniqueBy(chats, ChatId) && Matched(chats, q).Some?
    ensures !fault.FindFails? ==> forall c :: c in CascadeChats(chats, q, fault) ==> c.id != Matched(chats, q).value.id
    ensures DeleteManyRan(fault) ==>
              forall m :: m in CascadeMsgs(chats, msgs, q, fault) ==> m.chat != Matched(chats, q).value.id
  {
    var i := FindOne(chats, q).value;
    RemoveAtUnique(chats, i, ChatId);
    var r := CascadeChats(chats, q, NoFault);
    forall c | c in r
      ensures c.id != chats[i].id
    {
      var j :| 0 <= j < |r| && r[j] == c;
      assert ChatId(r[j]) != ChatId(chats[i]);
    }
  }

  /** The cascade touches nothing else: every other chat, and every message of
      another chat, is still there. */
  lemma CascadeKeepsOthers(chats: seq<Chat>, msgs: seq<Msg>, q: Chat -> bool, fault: Fault)
    requires Matched(chats, q).Some?
    ensures forall c :: c in chats && c != Matched(chats, q).value ==> c in CascadeChats(chats, q, fault)
    ensures forall m :: m in msgs && m.chat != Matched(chats, q).value.id ==> m in CascadeMsgs(chats, msgs, q, fault)
  {
    var d := Matched(chats, q).value;
    forall c | c in chats && c != d
      ensures c in CascadeChats(chats, q, fault)
    {
      assert c in multiset(chats);
      if !fault.FindFails? {
        assert c in multiset(CascadeChats(chats, q, fault)) + multiset{d};
      }
    }
  }

  /** With an id filter, once the first delete of a cascade succeeded, a
      second cascade right after it changes nothing, and raises nothing unless
      its own first delete fails. */
  lemma CascadeByIdIdempotent(chats: seq<Chat>, msgs: seq<Msg>, id: Id, fault: Fault, fault': Fault)
    requires UniqueBy(chats, ChatId)
    ensures var chats1 := CascadeChats(chats, ById(id), fault);
            var msgs1 := CascadeMsgs(chats, msgs, ById(id), fault);
            !fault.FindFails? ==>
              && CascadeChats(chats1, ById(id), fault') == chats1
              && CascadeMsgs(chats1, msgs1, ById(id), fault') == msgs1
              && (!fault'.FindFails? ==> CascadeError(chats1, ById(id), fault') == None)
  {
    if Matched(chats, ById(id)).Some? {
      CascadeRemovesChatAndMsgs(chats, msgs, ById(id), fault);
    }
  }

  /** The states the cascade passes through once a chat matched: the first
      delete takes that chat, the second finds nothing, and the store's
      uniqueness and well-formedness survive both and the `deleteMany`. */
  lemma CascadeSteps(chats: seq<Chat>, msgs: seq<Msg>, q: Chat -> bool, fault: Fault)
    requires UniqueBy(chats, ChatId) && UniqueBy(msgs, MsgId) && FindOne(chats, q).Some? && !fault.FindFails?
    ensures Matched(chats, q) == Some(chats[FindOne(chats, q).value])
    ensures CascadeChats(chats, q, fault) == RemoveAt(chats, FindOne(chats, q).value)
    ensures UniqueBy(CascadeChats(chats, q, fault), ChatId)
    ensures DeleteById(CascadeChats(chats, q, fault), Matched(chats, q).value.id) == CascadeChats(chats, q, fault)
    ensures DeleteManyRan(fault) ==>
              CascadeMsgs(chats, msgs, q, fault) == DeleteByChat(msgs, Matched(chats, q).value.id)
    ensures fault == DeleteManyFails ==> CascadeMsgs(chats, msgs, q, fault) == msgs
    ensures UniqueBy(DeleteByChat(msgs, Matched(chats, q).value.id), MsgId)
    ensures forall m :: m in DeleteByChat(msgs, Matched(chats, q).value.id) ==> m in msgs
  {
    var i := FindOne(chats, q).value;
    RemoveAtUnique(chats, i, ChatId);
    CascadeRemovesChatAndMsgs(chats, msgs, q, fault);
    DeleteByChatUnique(msgs, chats[i].id);
  }

  /** The chat and message collections. `openSessions` counts the store
      sessions started and not yet ended. */
  class Db {
    var chats: seq<Chat>
    var msgs: seq<Msg>
    var openSessions: nat

    ghost predicate Valid()
      reads this
    {
      && UniqueBy(chats, ChatId) && (forall c :: c in chats ==> StoredChat(c))
      && UniqueBy(msgs, MsgId) && (forall m :: m in msgs ==> WellFormed(m))
    }

    constructor ()
      ensures Valid() && chats == [] && msgs == [] && openSessions == 0
    {
      chats, msgs, openSessions := [], [], 0;
    }

    /** The write of a created message: ids stay unique and every stored
        message well-formed. */
    method InsertMsg(m: Msg)
      requires Valid() && WellFormed(m)
      requires forall x :: x in msgs ==> x.id != m.id
      modifies this`msgs
      ensures Valid() && msgs == old(msgs) + [m]
    {
      forall j | 0 <= j < |msgs|
        ensures MsgId(msgs[j]) != MsgId(m)
      {
        assert msgs[j] in msgs;
      }
      AppendUnique(msgs, m, MsgId);
      msgs := msgs + [m];
    }

    /** The part of `deleteChatWithMsgs` after the chat with id `id` was
        removed: start a session (its failure escapes), then inside a
        transaction delete the chat's messages and delete the chat again by
        id; an error there aborts the transaction and is swallowed. */
    method DeleteInSession(id: Id, fault: Fault) returns (r: Option<StoreError>)
      requires Valid() && !fault.FindFails?
      requires forall c :: c in chats ==> c.id != id
      modifies this`msgs, this`openSessions
      ensures Valid() && openSessions == old(openSessions)
      ensures msgs == if DeleteManyRan(fault) then DeleteByChat(old(msgs), id) else old(msgs)
      ensures r == if fault == StartSessionFails then Some(SessionUnavailable) else None
    {
      r := None;
      if fault == StartSessionFails {
        r := Some(SessionUnavailable);
      } else {
        openSessions := openSessions + 1;
        if fault != DeleteManyFails {
          DeleteByChatUnique(msgs, id);
          msgs := DeleteByChat(msgs, id);
          if fault != ReDeleteFails {
            // The re-delete by id finds nothing; on CommitFails the abort has nothing to undo.
            assert DeleteById(chats, id) == chats;
          }
        }
        openSessions := openSessions - 1;
      }
    }

    /** `deleteChatWithMsgs(q)`: remove the first matching chat; then, inside a
        transaction, delete its messages and delete it again by id. An error of
        the first delete escapes before anything changes; errors in the `try`
        block are swallowed; the first delete is never undone. */
    method DeleteChatWithMsgs(q: Chat -> bool, fault: Fault) returns (r: Option<StoreError>)
      requires Valid()
      modifies this`chats, this`msgs, this`openSessions
      ensures Valid() && openSessions == old(openSessions)
      ensures chats == CascadeChats(old(chats), q, fault)
      ensures msgs == CascadeMsgs(old(chats), old(msgs), q, fault)
      ensures r == CascadeError(old(chats), q, fault)
    {
      r := None;
      if fault.FindFails? {
        r := Some(fault.cause);
      } else {
        var found := FindOne(chats, q);
        if found.Some? {
          var chat := chats[found.value];
          CascadeSteps(chats, msgs, q, fault);
          chats := RemoveAt(chats, found.value);
          r := DeleteInSession(chat.id, fault);
        }
      }
    }
  }
}

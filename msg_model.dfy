/** The message schema and its finders (src/features/msgs/Model.ts). */
module MsgModel {
  import opened Common
  import opened Strings
  import opened Collection

  /** The fields a message is created from; any of them may be missing. */
  datatype MsgFields = MsgFields(
    text: Option<string>,
    author: Option<Id>,
    recipient: Option<Id>,
    chat: Option<Id>,
    date: Option<int>,
    time: Option<TimeFields>)

  /** A stored message. */
  datatype Msg = Msg(id: Id, text: string, author: Id, recipient: Id, chat: Id, date: int, time: Time)

  function MsgId(m: Msg): Id { m.id }

  /** What the schema guarantees of every stored message: a non-empty text,
      trimmed and lower-case, three ObjectId references and a time of day in range. */
  predicate WellFormed(m: Msg) {
    && m.text != [] && Normal(m.text) && TimeOfDay(m.time)
    && IsObjectId(m.author) && IsObjectId(m.recipient) && IsObjectId(m.chat)
  }

  /** The schema's requirements: every field present, the text non-empty once
      trimmed, `author`, `recipient` and `chat` castable to ObjectIds, the time in range. */
  predicate Admissible(f: MsgFields) {
    && f.text.Some? && Normalize(f.text.value) != []
    && f.author.Some? && IsObjectId(f.author.value)
    && f.recipient.Some? && IsObjectId(f.recipient.value)
    && f.chat.Some? && IsObjectId(f.chat.value)
    && f.date.Some? && AdmissibleTime(f.time)
  }

  /** The first of `author`, `recipient` and `chat` that is missing or that
      the cast to an ObjectId refuses, reported as a validation error of its path. */
  function RefError(f: MsgFields): (r: Option<StoreError>)
    ensures r.None? <==> && f.author.Some? && IsObjectId(f.author.value) && f.recipient.Some? && IsObjectId(f.recipient.value)
                         && f.chat.Some? && IsObjectId(f.chat.value)
    ensures r.Some? ==> r.value.ValidationError?
  {
    if f.author.None? || !IsObjectId(f.author.value) then Some(ValidationError("author"))
    else if f.recipient.None? || !IsObjectId(f.recipient.value) then Some(ValidationError("recipient"))
    else if f.chat.None? || !IsObjectId(f.chat.value) then Some(ValidationError("chat"))
    else None
  }

  /** `Msg.create(fields)`: apply the `trim`/`lowercase` setters to the text
      and cast the references, then validate (a failed cast is reported as a
      validation error of its path); the document gets the id the store generated. */
  function Create(f: MsgFields, id: Id): (r: Result<Msg, StoreError>)
    ensures r.Ok? <==> Admissible(f)
    ensures r.Ok? ==> WellFormed(r.value) && r.value.id == id
    ensures r.Ok? ==> && r.value.text == Normalize(f.text.value)
                      && Some(r.value.author) == f.author && Some(r.value.recipient) == f.recipient
                      && Some(r.value.chat) == f.chat && Some(r.value.date) == f.date
    ensures r.Ok? ==> CastTime(f.time) == Ok(r.value.time)
  {
    var text := if f.text.Some? then Normalize(f.text.value) else "";
    if text == [] then Err(ValidationError("text"))
    else if RefError(f).Some? then Err(RefError(f).value)
    else if f.date.None? then Err(ValidationError("date"))
    else match CastTime(f.time)
      case Err(e) => Err(e)
      case Ok(t) => Ok(Msg(id, text, f.author.value, f.recipient.value, f.chat.value, f.date.value, t))
  }

  /** Without a `time` the schema refuses every message, and once the other
      paths pass it names `time.hour`. */
  lemma CreateWithoutTime(f: MsgFields, id: Id)
    requires f.time.None?
    ensures Create(f, id).Err?
    ensures && f.text.Some? && Normalize(f.text.value) != []
            && f.author.Some? && IsObjectId(f.author.value) && f.recipient.Some? && IsObjectId(f.recipient.value)
            && f.chat.Some? && IsObjectId(f.chat.value) && f.date.Some?
            ==> Create(f, id) == Err(ValidationError("time.hour"))
  {
    assert !AdmissibleTime(f.time);
    var text := if f.text.Some? then Normalize(f.text.value) else "";
    if text != [] && f.author.Some? && IsObjectId(f.author.value) && f.recipient.Some? && IsObjectId(f.recipient.value)
       && f.chat.Some? && IsObjectId(f.chat.value) && f.date.Some? {
      assert CastTime(f.time) == Err(ValidationError("time.hour"));
    }
  }

  /** The three indexed reference fields. */
  datatype MsgField = AuthorField | RecipientField | ChatField

  function FieldOf(m: Msg, f: MsgField): Id {
    match f
    case AuthorField => m.author
    case RecipientField => m.recipient
    case ChatField => m.chat
  }

  /** `find({ field: v })`: the messages whose field equals `v`, in order. */
  function FindBy(msgs: seq<Msg>, f: MsgField, v: Id): (r: seq<Msg>)
    ensures forall m :: m in r <==> m in msgs && FieldOf(m, f) == v
    ensures |r| <= |msgs|
  {
    if msgs == [] then []
    else (if FieldOf(msgs[0], f) == v then [msgs[0]] else []) + FindBy(msgs[1..], f, v)
  }

  function FindByAuthor(msgs: seq<Msg>, author: Id): (r: seq<Msg>)
    ensures forall m :: m in r <==> m in msgs && m.author == author
  {
    FindBy(msgs, AuthorField, author)
  }

  function FindByRecipient(msgs: seq<Msg>, recipient: Id): (r: seq<Msg>)
    ensures forall m :: m in r <==> m in msgs && m.recipient == recipient
  {
    FindBy(msgs, RecipientField, recipient)
  }

  function FindByChat(msgs: seq<Msg>, chat: Id): (r: seq<Msg>)
    ensures forall m :: m in r <==> m in msgs && m.chat == chat
  {
    FindBy(msgs, ChatField, chat)
  }

  /** `deleteMany({ chat })`: the messages that remain. */
  function DeleteByChat(msgs: seq<Msg>, chat: Id): (r: seq<Msg>)
    ensures forall m :: m in r <==> m in msgs && m.chat != chat
    ensures |r| <= |msgs|
  {
    if msgs == [] then []
    else (if msgs[0].chat != chat then [msgs[0]] else []) + DeleteByChat(msgs[1..], chat)
  }

  /** What `deleteMany` leaves and what `find` with the same filter answers
      together hold every message exactly as often as before. */
  lemma {:induction false} DeleteByChatSplits(msgs: seq<Msg>, chat: Id)
    ensures multiset(DeleteByChat(msgs, chat)) + multiset(FindByChat(msgs, chat)) == multiset(msgs)
  {
    if msgs != [] {
      var t := msgs[1..];
      DeleteByChatSplits(t, chat);
      SplitsStep(msgs, chat);
    }
  }

  /** One step of the split: the first message goes to exactly one side. */
  lemma SplitsStep(msgs: seq<Msg>, chat: Id)
    requires msgs != []
    ensures multiset(DeleteByChat(msgs, chat)) + multiset(FindByChat(msgs, chat))
            == multiset{msgs[0]} + multiset(DeleteByChat(msgs[1..], chat)) + multiset(FindByChat(msgs[1..], chat))
    ensures multiset(msgs) == multiset{msgs[0]} + multiset(msgs[1..])
  {
    assert msgs == [msgs[0]] + msgs[1..];
    assert FieldOf(msgs[0], ChatField) == msgs[0].chat;
    if msgs[0].chat == chat {
      assert DeleteByChat(msgs, chat) == DeleteByChat(msgs[1..], chat);
      assert FindByChat(msgs, chat) == [msgs[0]] + FindByChat(msgs[1..], chat);
    } else {
      assert DeleteByChat(msgs, chat) == [msgs[0]] + DeleteByChat(msgs[1..], chat);
      assert FindByChat(msgs, chat) == FindByChat(msgs[1..], chat);
    }
  }

  lemma {:induction false} DeleteByChatUnique(msgs: seq<Msg>, chat: Id)
    requires UniqueBy(msgs, MsgId)
    ensures UniqueBy(DeleteByChat(msgs, chat), MsgId)
  {
    if msgs != [] {
      var rest := DeleteByChat(msgs[1..], chat);
      DeleteByChatUnique(msgs[1..], chat);
      forall m | m in rest
        ensures m.id != msgs[0].id
      {
        var j :| 0 <= j < |msgs[1..]| && msgs[1..][j] == m;
        assert MsgId(msgs[0]) != MsgId(msgs[j + 1]);
      }
      if msgs[0].chat != chat {
        var r := [msgs[0]] + rest;
        forall i, j | 0 <= i < j < |r|
          ensures MsgId(r[i]) != MsgId(r[j])
        {
          if i == 0 { assert r[j] in rest; } else { assert r[i] == rest[i - 1] && r[j] == rest[j - 1]; }
        }
      }
    }
  }
}

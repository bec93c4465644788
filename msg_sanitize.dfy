/** The message routes' validators (src/features/msgs/sanitize.ts), and how
    what they let through fares at the message schema. */
module MsgSanitize {
  import opened Common
  import opened Strings
  import opened Validation
  import opened MsgModel
  import opened MsgController
  import Auth

  /** The `chat` route parameter every message route has. */
  const ChatParam: Schema := [("chat", Scalar(Text(true, 0, None)))]

  const CreateMsg: Validator := Validator(ChatParam, [
    ("text", Scalar(Text(true, 1, Some(200)))),
    ("date", Scalar(Date(true))),
    ("recipient", Scalar(Text(true, 0, None))),
    ("time", Group(TimeOfDayKeys))])

  const GetMsgsByChat: Validator := Validator(ChatParam, [])

  const DeleteMsg: Validator := Validator(ChatParam, [])

  /** Sending a message: a `chat` parameter; a text of 1..200 characters once
      trimmed and lower-cased, a date, a recipient, and a time of day if a
      `time` is sent; nothing else. */
  lemma CreateMsgRules(params: Part, body: Part, ps: Parsers)
    ensures CheckRequest(CreateMsg, params, body, ps).Ok? <==>
              && TextGiven(params, "chat") && params.Keys <= {"chat"}
              && TextWithin(body, "text", 1, 200) && DateGiven(body, "date", ps)
              && TextGiven(body, "recipient") && TimeWithin(body, true, ps)
              && body.Keys <= {"text", "date", "recipient", "time"}
  {
    var schema := CreateMsg.body;
    PartOkUnfold(ChatParam, params, ps);
    TextRule(params, "chat", true, 0, None, ps);
    PartOkUnfold(schema, body, ps);
    assert FieldOk(schema[0].1, Lookup(body, "text"), ps) <==> TextWithin(body, "text", 1, 200) by {
      TextRule(body, "text", true, 1, Some(200), ps);
    }
    assert FieldOk(schema[1].1, Lookup(body, "date"), ps) <==> DateGiven(body, "date", ps) by {
      DateRule(body, "date", true, ps);
    }
    assert FieldOk(schema[2].1, Lookup(body, "recipient"), ps) <==> TextGiven(body, "recipient") by {
      TextRule(body, "recipient", true, 0, None, ps);
    }
    assert FieldOk(schema[3].1, Lookup(body, "time"), ps) <==> TimeWithin(body, true, ps) by {
      TimeRule(body, true, ps);
    }
  }

  /** Listing a chat's messages, or deleting one: a non-empty `chat`
      parameter and nothing else; an empty body. */
  lemma ChatParamRules(v: Validator, params: Part, body: Part, ps: Parsers)
    requires v == GetMsgsByChat || v == DeleteMsg
    ensures CheckRequest(v, params, body, ps).Ok? <==>
              TextGiven(params, "chat") && params.Keys <= {"chat"} && body == map[]
  {
    EmptyPart(body, ps);
    PartOkUnfold(ChatParam, params, ps);
    TextRule(params, "chat", true, 0, None, ps);
  }

  function NumberAt(fields: map<string, Value>, k: string): Option<int> {
    if k in fields && fields[k].Num? then Some(fields[k].n) else None
  }

  function StringAt(fields: map<string, Value>, k: string): Option<string> {
    if k in fields && fields[k].Str? then Some(fields[k].s) else None
  }

  /** A converted body as the message handler reads it. */
  function BodyFields(body: Part): MsgFields {
    MsgFields(
      StringAt(body, "text"), None, StringAt(body, "recipient"), None, NumberAt(body, "date"),
      if "time" in body && body["time"].Obj? then
        Some(TimeFields(NumberAt(body["time"].fields, "hour"), NumberAt(body["time"].fields, "min"),
                        NumberAt(body["time"].fields, "sec")))
      else None)
  }

  /** The time of day the converted `time` object holds. */
  lemma ConvertedTime(t: map<string, Value>, ps: Parsers)
    requires GroupOk(TimeOfDayKeys, t, ps)
    ensures var c := ConvertGroup(TimeOfDayKeys, t, ps);
            AdmissibleTime(Some(TimeFields(NumberAt(c, "hour"), NumberAt(c, "min"), NumberAt(c, "sec"))))
  {
    GroupOkUnfold(TimeOfDayKeys, t, ps);
    var c := ConvertGroup(TimeOfDayKeys, t, ps);
    assert RuleFor(TimeOfDayKeys, "hour") == Number(true, 0, 23);
    assert RuleFor(TimeOfDayKeys, "min") == Number(true, 0, 59) by {
      assert TimeOfDayKeys[1..][0].0 == "min";
    }
    assert RuleFor(TimeOfDayKeys, "sec") == Number(true, 0, 59) by {
      assert TimeOfDayKeys[1..][1..][0].0 == "sec";
    }
    assert c["hour"] == Num(NumberOf(t["hour"], ps).value);
    assert c["min"] == Num(NumberOf(t["min"], ps).value);
    assert c["sec"] == Num(NumberOf(t["sec"], ps).value);
  }

  /** Where each key of the message body finds its rule. */
  lemma CreateMsgRulesFor()
    ensures Names(CreateMsg.body) == {"text", "date", "recipient", "time"}
    ensures RuleFor(CreateMsg.body, "text") == Scalar(Text(true, 1, Some(200)))
    ensures RuleFor(CreateMsg.body, "date") == Scalar(Date(true))
    ensures RuleFor(CreateMsg.body, "recipient") == Scalar(Text(true, 0, None))
    ensures RuleFor(CreateMsg.body, "time") == Group(TimeOfDayKeys)
  {
    var s0 := CreateMsg.body;
    var s1, s2, s3 := s0[1..], s0[2..], s0[3..];
    assert s1[1..] == s2 && s2[1..] == s3 && s3[1..] == [];
    assert Names(s3) == {"time"};
    assert Names(s2) == {"recipient", "time"};
    assert Names(s1) == {"date", "recipient", "time"};
    assert RuleFor(s2, "time") == RuleFor(s3, "time");
    assert RuleFor(s1, "time") == RuleFor(s2, "time");
    assert RuleFor(s1, "recipient") == RuleFor(s2, "recipient");
  }

  /** A text key of the message body reaches the handler trimmed and lower-cased. */
  lemma ConvertedText(body: Part, ps: Parsers, k: string, min: nat, max: Option<nat>)
    requires k in Names(CreateMsg.body) && RuleFor(CreateMsg.body, k) == Scalar(Text(true, min, max))
    requires FieldOk(Scalar(Text(true, min, max)), Lookup(body, k), ps)
    ensures k in body && body[k].Str?
    ensures StringAt(ConvertPart(CreateMsg.body, body, ps), k) == Some(Normalize(body[k].s))
  {
    ConvertPartAt(CreateMsg.body, body, k, Scalar(Text(true, min, max)), ps);
  }

  /** The text and the recipient of a new message reach the handler trimmed and lower-cased. */
  lemma ConvertedTexts(body: Part, ps: Parsers)
    requires PartOk(CreateMsg.body, body, ps)
    ensures "text" in body && body["text"].Str? && "recipient" in body && body["recipient"].Str?
    ensures StringAt(ConvertPart(CreateMsg.body, body, ps), "text") == Some(Normalize(body["text"].s))
    ensures StringAt(ConvertPart(CreateMsg.body, body, ps), "recipient") == Some(Normalize(body["recipient"].s))
  {
    var schema := CreateMsg.body;
    CreateMsgRulesFor();
    assert FieldOk(schema[0].1, Lookup(body, schema[0].0), ps);
    assert FieldOk(schema[2].1, Lookup(body, schema[2].0), ps);
    ConvertedText(body, ps, "text", 1, Some(200));
    ConvertedText(body, ps, "recipient", 0, None);
  }

  /** The date of a new message reaches the handler as a number. */
  lemma ConvertedDate(body: Part, ps: Parsers)
    requires PartOk(CreateMsg.body, body, ps)
    ensures "date" in body && NumberAt(ConvertPart(CreateMsg.body, body, ps), "date") == DateOf(body["date"], ps)
  {
    var schema := CreateMsg.body;
    CreateMsgRulesFor();
    assert FieldOk(schema[1].1, Lookup(body, schema[1].0), ps);
    ConvertPartAt(schema, body, "date", Scalar(Date(true)), ps);
  }

  /** A `time` object reaches the handler with its keys converted; a missing one stays missing. */
  lemma ConvertedTimeField(body: Part, ps: Parsers)
    requires PartOk(CreateMsg.body, body, ps)
    ensures "time" in body ==> && "time" in ConvertPart(CreateMsg.body, body, ps) && body["time"].Obj?
                               && GroupOk(TimeOfDayKeys, body["time"].fields, ps)
                               && ConvertPart(CreateMsg.body, body, ps)["time"] == Obj(ConvertGroup(TimeOfDayKeys, body["time"].fields, ps))
    ensures "time" !in body ==> "time" !in ConvertPart(CreateMsg.body, body, ps)
  {
    var schema := CreateMsg.body;
    CreateMsgRulesFor();
    assert FieldOk(schema[3].1, Lookup(body, schema[3].0), ps);
    ConvertPartAt(schema, body, "time", Group(TimeOfDayKeys), ps);
  }

  /** The `chat` parameter reaches the handler trimmed and lower-cased. */
  lemma ChatParsed(params: Part, ps: Parsers)
    requires PartOk(ChatParam, params, ps)
    ensures "chat" in params && params["chat"].Str?
    ensures "chat" in ConvertPart(ChatParam, params, ps)
    ensures ConvertPart(ChatParam, params, ps)["chat"] == Str(Normalize(params["chat"].s))
  {
    assert FieldOk(ChatParam[0].1, Lookup(params, "chat"), ps);
    ConvertPartAt(ChatParam, params, "chat", Scalar(Text(true, 0, None)), ps);
  }

  /** The handler reads the text, not empty, and the recipient, both trimmed and lower-cased. */
  lemma BodyTextOf(body: Part, ps: Parsers)
    requires PartOk(CreateMsg.body, body, ps)
    ensures "text" in body && body["text"].Str? && Normalize(body["text"].s) != []
    ensures "recipient" in body && body["recipient"].Str?
    ensures BodyFields(ConvertPart(CreateMsg.body, body, ps)).text == Some(Normalize(body["text"].s))
    ensures BodyFields(ConvertPart(CreateMsg.body, body, ps)).recipient == Some(Normalize(body["recipient"].s))
  {
    ConvertedTexts(body, ps);
    assert FieldOk(CreateMsg.body[0].1, Lookup(body, "text"), ps);
  }

  /** The handler reads some date. */
  lemma BodyDateOf(body: Part, ps: Parsers)
    requires PartOk(CreateMsg.body, body, ps)
    ensures BodyFields(ConvertPart(CreateMsg.body, body, ps)).date.Some?
  {
    ConvertedDate(body, ps);
    assert FieldOk(CreateMsg.body[1].1, Lookup(body, "date"), ps);
  }

  /** The handler reads a time of day in range when one was sent, and none otherwise. */
  lemma BodyTimeOf(body: Part, ps: Parsers)
    requires PartOk(CreateMsg.body, body, ps)
    ensures "time" in body ==> AdmissibleTime(BodyFields(ConvertPart(CreateMsg.body, body, ps)).time)
    ensures "time" !in body ==> BodyFields(ConvertPart(CreateMsg.body, body, ps)).time.None?
  {
    ConvertedTimeField(body, ps);
    if "time" in body {
      ConvertedTime(body["time"].fields, ps);
    }
  }

  /** What the validator hands on for a new message, when it carries a
      `time`, is stored exactly when the author, the recipient and the chat
      are ObjectIds: the validator asks only for strings. A stored message has
      the converted text. */
  lemma ValidatedMsgIsStored(params: Part, body: Part, ps: Parsers, caller: Auth.Principal, id: Id)
    requires CheckRequest(CreateMsg, params, body, ps).Ok?
    requires "time" in body
    ensures "chat" in params && params["chat"].Str? && "recipient" in body && body["recipient"].Str?
    ensures var (p, b) := CheckRequest(CreateMsg, params, body, ps).value;
            var m := Create(MsgDetails(BodyFields(b), caller, Normalize(params["chat"].s)), id);
            && p["chat"] == Str(Normalize(params["chat"].s))
            && (m.Ok? <==> && IsObjectId(caller.id) && IsObjectId(Normalize(body["recipient"].s))
                           && IsObjectId(Normalize(params["chat"].s)))
            && (m.Ok? ==> m.value.text == Normalize(body["text"].s))
  {
    var (p, b) := CheckRequest(CreateMsg, params, body, ps).value;
    ChatParsed(params, ps);
    BodyTextOf(body, ps);
    BodyDateOf(body, ps);
    BodyTimeOf(body, ps);
    NormalizeIdempotent(body["text"].s);
    var d := MsgDetails(BodyFields(b), caller, Normalize(params["chat"].s));
    assert d.recipient == Some(Normalize(body["recipient"].s));
    assert Admissible(d) <==> && IsObjectId(caller.id) && IsObjectId(Normalize(body["recipient"].s))
                              && IsObjectId(Normalize(params["chat"].s));
  }

  /** The gap between the two checks: the validator lets a message without
      `time` through (a nested literal is optional), and the schema, which
      requires `time.hour`, always refuses it, at `time.hour` once the
      references are ObjectIds. */
  lemma MissingTimeIsRefusedByStore(params: Part, body: Part, ps: Parsers, caller: Auth.Principal, id: Id)
    requires CheckRequest(CreateMsg, params, body, ps).Ok?
    requires "time" !in body
    ensures "chat" in params && params["chat"].Str? && "recipient" in body && body["recipient"].Str?
    ensures var (p, b) := CheckRequest(CreateMsg, params, body, ps).value;
            var m := Create(MsgDetails(BodyFields(b), caller, Normalize(params["chat"].s)), id);
            && p["chat"] == Str(Normalize(params["chat"].s))
            && m.Err?
            && (IsObjectId(caller.id) && IsObjectId(Normalize(body["recipient"].s)) && IsObjectId(Normalize(params["chat"].s))
                ==> m == Err(ValidationError("time.hour")))
  {
    var (p, b) := CheckRequest(CreateMsg, params, body, ps).value;
    ChatParsed(params, ps);
    BodyTextOf(body, ps);
    BodyDateOf(body, ps);
    BodyTimeOf(body, ps);
    NormalizeIdempotent(body["text"].s);
    var d := MsgDetails(BodyFields(b), caller, Normalize(params["chat"].s));
    assert d.recipient == Some(Normalize(body["recipient"].s));
    assert d.time.None?;
    CreateWithoutTime(d, id);
  }
}

/** The tweet routes' validators (src/features/tweets/sanitize.ts). */
module TweetSanitize {
  import opened Common
  import opened Strings
  import opened Validation

  const CreateTweet: Validator := Validator([], [
    ("text", Scalar(Text(true, 1, Some(200)))),
    ("date", Scalar(Date(true))),
    ("time", Group(TimeOfDayKeys))])

  const GetTweet: Validator := Validator([("_id", Scalar(Text(true, 0, None)))], [])

  const DeleteTweet: Validator := Validator([("_id", Scalar(Text(true, 0, None)))], [])

  const UpdateTweet: Validator := Validator([("_id", Scalar(Text(true, 0, None)))], [
    ("text", Scalar(Text(false, 1, Some(200)))),
    ("date", Scalar(Date(false))),
    ("time", Group([("hour", Number(false, 0, 23)), ("min", Number(false, 0, 59)), ("sec", Number(false, 0, 59))]))])

  /** Posting a tweet: a text of 1..200 characters once trimmed and
      lower-cased, a date, and a time of day if a `time` is sent; nothing else. */
  lemma CreateTweetRules(params: Part, body: Part, ps: Parsers)
    ensures CheckRequest(CreateTweet, params, body, ps).Ok? <==>
              && params == map[]
              && TextWithin(body, "text", 1, 200) && DateGiven(body, "date", ps) && TimeWithin(body, true, ps)
              && body.Keys <= {"text", "date", "time"}
  {
    var schema := CreateTweet.body;
    EmptyPart(params, ps);
    PartOkUnfold(schema, body, ps);
    assert FieldOk(schema[0].1, Lookup(body, "text"), ps) <==> TextWithin(body, "text", 1, 200) by {
      TextRule(body, "text", true, 1, Some(200), ps);
    }
    assert FieldOk(schema[1].1, Lookup(body, "date"), ps) <==> DateGiven(body, "date", ps) by {
      DateRule(body, "date", true, ps);
    }
    assert FieldOk(schema[2].1, Lookup(body, "time"), ps) <==> TimeWithin(body, true, ps) by {
      TimeRule(body, true, ps);
    }
  }

  /** Fetching or deleting a tweet: a non-empty `_id` parameter and nothing
      else; an empty body. */
  lemma IdParamRules(v: Validator, params: Part, body: Part, ps: Parsers)
    requires v == GetTweet || v == DeleteTweet
    ensures CheckRequest(v, params, body, ps).Ok? <==>
              TextGiven(params, "_id") && params.Keys <= {"_id"} && body == map[]
  {
    EmptyPart(body, ps);
    PartOkUnfold(v.params, params, ps);
    TextRule(params, "_id", true, 0, None, ps);
  }

  /** The update body is the creation body with every `required()` dropped. */
  lemma UpdateIsOptionalCreate()
    ensures UpdateTweet.body == Optional(CreateTweet.body)
  {
    assert RelaxKeys(TimeOfDayKeys) == UpdateTweet.body[2].1.keys;
  }

  /** Editing a tweet: the `_id` parameter; in the body, each of text, date
      and time only when sent, with the bounds of a new tweet. */
  lemma UpdateTweetRules(params: Part, body: Part, ps: Parsers)
    ensures CheckRequest(UpdateTweet, params, body, ps).Ok? <==>
              && TextGiven(params, "_id") && params.Keys <= {"_id"}
              && ("text" in body ==> TextWithin(body, "text", 1, 200))
              && ("date" in body ==> DateGiven(body, "date", ps))
              && TimeWithin(body, false, ps)
              && body.Keys <= {"text", "date", "time"}
  {
    var schema := UpdateTweet.body;
    UpdateIsOptionalCreate();
    PartOkUnfold(UpdateTweet.params, params, ps);
    TextRule(params, "_id", true, 0, None, ps);
    PartOkUnfold(schema, body, ps);
    assert FieldOk(schema[0].1, Lookup(body, "text"), ps) <==> ("text" in body ==> TextWithin(body, "text", 1, 200)) by {
      TextRule(body, "text", false, 1, Some(200), ps);
    }
    assert FieldOk(schema[1].1, Lookup(body, "date"), ps) <==> ("date" in body ==> DateGiven(body, "date", ps)) by {
      DateRule(body, "date", false, ps);
    }
    assert FieldOk(schema[2].1, Lookup(body, "time"), ps) <==> TimeWithin(body, false, ps) by {
      TimeRule(body, false, ps);
    }
  }

  /** Any body accepted for a new tweet is accepted for an edit, converted the same way. */
  lemma UpdateAcceptsCreateBody(body: Part, ps: Parsers)
    requires Validate(CreateTweet.body, body, ps).Ok?
    ensures Validate(UpdateTweet.body, body, ps) == Validate(CreateTweet.body, body, ps)
  {
    UpdateIsOptionalCreate();
    RelaxAccepts(CreateTweet.body, body, ps);
  }
}

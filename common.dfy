/** Types shared by every feature: results of the services, outcomes of the
    request handlers, HTTP status codes, and the parameter/query bags of a request. */
module Common {

  datatype Option<+T> = None | Some(value: T)

  datatype Result<+T, +E> = Ok(value: T) | Err(error: E)

  /** Identifiers of stored documents (ObjectIds in their string form). A
      string in the request may be anything, so an `Id` is any string. */
  type Id = string

  predicate IsHexDigit(c: char) {
    '0' <= c <= '9' || 'a' <= c <= 'f' || 'A' <= c <= 'F'
  }

  predicate AllHex(s: string) {
    s == [] || (IsHexDigit(s[0]) && AllHex(s[1..]))
  }

  /** A string the document mapper can cast to an ObjectId: 24 hexadecimal digits. */
  predicate IsObjectId(s: string) {
    |s| == 24 && AllHex(s)
  }

  /** A hexadecimal digit as an ObjectId prints it: in lower case. */
  function HexLower(c: char): (d: char)
    ensures IsHexDigit(c) ==> IsHexDigit(d) && !('A' <= d <= 'F')
    ensures !('A' <= c <= 'F') ==> d == c
  {
    if 'A' <= c <= 'F' then (c as int + 32) as char else c
  }

  /** The string form of the ObjectId a string casts to: the cast reads the
      hexadecimal digits without regard to case, and the ObjectId prints them
      in lower case. */
  function CastId(s: string): (r: Id)
    ensures |r| == |s|
    ensures forall k :: 0 <= k < |s| ==> r[k] == HexLower(s[k])
  {
    if s == [] then [] else [HexLower(s[0])] + CastId(s[1..])
  }

  /** An id in the form the store keeps and prints it. */
  predicate Canonical(s: string) {
    IsObjectId(s) && CastId(s) == s
  }

  lemma {:induction false} CastIdHex(s: string)
    requires AllHex(s)
    ensures AllHex(CastId(s)) && CastId(CastId(s)) == CastId(s)
  {
    if s != [] {
      CastIdHex(s[1..]);
      assert CastId(s)[1..] == CastId(s[1..]);
    }
  }

  /** Casting an ObjectId gives an id in canonical form, and a canonical id
      casts to itself. */
  lemma CastIdCanonical(s: string)
    requires IsObjectId(s)
    ensures Canonical(CastId(s))
  {
    CastIdHex(s);
  }

  function HexUpper(c: char): char {
    if 'a' <= c <= 'f' then (c as int - 32) as char else c
  }

  /** An id spelled with upper-case hexadecimal digits. */
  function UpperId(s: string): (r: string)
    ensures |r| == |s|
    ensures forall k :: 0 <= k < |s| ==> r[k] == HexUpper(s[k])
  {
    if s == [] then [] else [HexUpper(s[0])] + UpperId(s[1..])
  }

  /** The upper-case spelling of a canonical id casts back to it. */
  lemma {:induction false} UpperIdCastsBack(s: string)
    requires AllHex(s) && CastId(s) == s
    ensures AllHex(UpperId(s)) && CastId(UpperId(s)) == s
  {
    if s != [] {
      assert CastId(s)[1..] == CastId(s[1..]);
      UpperIdCastsBack(s[1..]);
      assert UpperId(s)[1..] == UpperId(s[1..]);
    }
  }

  /** `req.params`, `req.query`: string keys to string values. */
  type Bag = map<string, string>

  /** The HTTP statuses the handlers use. */
  const OK: int := 200
  const CREATED: int := 201
  const NO_CONTENT: int := 204
  const BAD_REQUEST: int := 400
  const UNAUTHORIZED: int := 401

  /** `{ msg, code }`, the error half of a service reply, and also what an
      `AppError` built from it carries. */
  datatype Failure = Failure(msg: string, code: int)

  /** Exceptions thrown by the document store; the handlers do not catch them. */
  datatype StoreError =
    | ValidationError(path: string)
    | CastError(path: string)
    | DuplicateKey(key: string)
    | SessionUnavailable

  /** What a service method gives back: `{ value: { data } }` or `{ error }`,
      or an exception from the store underneath. */
  datatype Reply<+T> = Value(data: T) | Error(failure: Failure) | Thrown(cause: StoreError)

  /** What a request handler does: call `next()`, call `next(new AppError(...))`,
      let an exception escape (caught by `catchAsync` and passed on), or send a response. */
  datatype Outcome<+T> =
    | Proceed
    | Fail(error: Failure)
    | Raise(cause: StoreError)
    | Respond(status: int, body: T)

  /** `{ key: value, ...bag }`: the spread comes last, so a key already in the
      bag keeps its own value and `value` only fills the gap. */
  function WithDefault(bag: Bag, key: string, value: string): (r: Bag)
    ensures r.Keys == bag.Keys + {key}
    ensures forall k :: k in bag ==> r[k] == bag[k]
    ensures key !in bag ==> r[key] == value
  {
    map[key := value] + bag
  }

  /** Time of a tweet or a message as it reaches the document mapper. */
  datatype TimeFields = TimeFields(hour: Option<int>, min: Option<int>, sec: Option<int>)

  /** A stored time of day. */
  datatype Time = Time(hour: int, min: int, sec: int)

  predicate TimeOfDay(t: Time) {
    0 <= t.hour <= 23 && 0 <= t.min <= 59 && 0 <= t.sec <= 59
  }

  /** The nested `time` path of a schema: `hour` 0..23, `min` and `sec` 0..59,
      all three required. */
  predicate AdmissibleTime(t: Option<TimeFields>) {
    && t.Some? && t.value.hour.Some? && t.value.min.Some? && t.value.sec.Some?
    && 0 <= t.value.hour.value <= 23 && 0 <= t.value.min.value <= 59 && 0 <= t.value.sec.value <= 59
  }

  /** The document mapper's cast and validation of `time`; the error names the first failing path. */
  function CastTime(t: Option<TimeFields>): (r: Result<Time, StoreError>)
    ensures r.Ok? <==> AdmissibleTime(t)
    ensures r.Ok? ==> TimeOfDay(r.value)
    ensures r.Ok? ==> r.value == Time(t.value.hour.value, t.value.min.value, t.value.sec.value)
  {
    var f := if t.Some? then t.value else TimeFields(None, None, None);
    if f.hour.None? || !(0 <= f.hour.value <= 23) then Err(ValidationError("time.hour"))
    else if f.min.None? || !(0 <= f.min.value <= 59) then Err(ValidationError("time.min"))
    else if f.sec.None? || !(0 <= f.sec.value <= 59) then Err(ValidationError("time.sec"))
    else Ok(Time(f.hour.value, f.min.value, f.sec.value))
  }

  /** `removeProps(props)` as a `toJSON` transform: the keys of the JSON form
      that remain once every listed prop is deleted. */
  function RemoveProps(keys: set<string>, props: seq<string>): (r: set<string>)
    ensures forall k :: k in r <==> k in keys && k !in props
  {
    set k | k in keys && k !in props
  }
}

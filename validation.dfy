/** The request validators' rule language: the part of Joi the sanitize
    schemas use, applied in Joi's default mode (values are converted before
    the rules run, the first error aborts, keys the schema does not name are
    refused). A schema lists the keys of one request part (`params` or `body`). */
module Validation {
  import opened Common
  import opened Strings

  /** A JSON value in a request part. `Other` is anything the rules never
      accept where a value is expected (null, booleans, arrays); numbers are
      whole, since fractions are not represented in this model. */
  datatype Value = Str(s: string) | Num(n: int) | Obj(fields: map<string, Value>) | Other

  type Part = map<string, Value>

  /** Joi's conversion of a string to a number and to a date (a timestamp);
      its code is not part of this model. */
  datatype Parsers = Parsers(number: string -> Option<int>, date: string -> Option<int>)

  /** `defaultStringValidate` (`Joi.string().lowercase().trim()`) with its
      `required()`, `min` and `max` (which compare the string's `length`, in
      UTF-16 code units); `Joi.number().min(lo).max(hi)`; `Joi.date()`. */
  datatype Leaf =
    | Text(required: bool, min: nat, max: Option<nat>)
    | Number(required: bool, lo: int, hi: int)
    | Date(required: bool)

  /** A key of a schema: one value, or a nested object literal of values. A
      nested literal is itself optional; its keys' rules apply when it is there. */
  datatype Field = Scalar(leaf: Leaf) | Group(keys: seq<(string, Leaf)>)

  type Schema = seq<(string, Field)>

  datatype Kind = Required | Base | Empty | TooShort | TooLong | Below | Above | Unknown

  /** The first error Joi reports: where, and which rule failed. */
  datatype Rejection = Rejection(path: string, kind: Kind)

  function Lookup(fields: map<string, Value>, k: string): Option<Value> {
    if k in fields then Some(fields[k]) else None
  }

  function AtPath(prefix: string, k: string): string {
    if prefix == "" then k else prefix + "." + k
  }

  function Names<R>(keys: seq<(string, R)>): set<string> {
    if keys == [] then {} else {keys[0].0} + Names(keys[1..])
  }

  /** The rule of the first key named `k`. */
  function RuleFor<R>(keys: seq<(string, R)>, k: string): R
    requires k in Names(keys)
  {
    if keys[0].0 == k then keys[0].1 else RuleFor(keys[1..], k)
  }

  ghost predicate Distinct<R>(keys: seq<(string, R)>) {
    forall i, j :: 0 <= i < j < |keys| ==> keys[i].0 != keys[j].0
  }

  lemma {:induction false} NamesHas<R>(keys: seq<(string, R)>, i: nat)
    requires i < |keys|
    ensures keys[i].0 in Names(keys)
    ensures Distinct(keys) ==> RuleFor(keys, keys[i].0) == keys[i].1
  {
    if i > 0 {
      NamesHas(keys[1..], i - 1);
    }
  }

  function NumberOf(x: Value, ps: Parsers): Option<int> {
    match x
    case Num(n) => Some(n)
    case Str(s) => ps.number(s)
    case _ => None
  }

  function DateOf(x: Value, ps: Parsers): Option<int> {
    match x
    case Num(t) => Some(t)
    case Str(s) => ps.date(s)
    case _ => None
  }

  /** What a single rule accepts, stated on its own. */
  predicate LeafOk(leaf: Leaf, v: Option<Value>, ps: Parsers) {
    match v
    case None => !leaf.required
    case Some(x) =>
      match leaf
      case Text(_, min, max) =>
        x.Str? && Normalize(x.s) != [] && min <= Utf16Length(Normalize(x.s))
        && (max.None? || Utf16Length(Normalize(x.s)) <= max.value)
      case Number(_, lo, hi) => NumberOf(x, ps).Some? && lo <= NumberOf(x, ps).value <= hi
      case Date(_) => DateOf(x, ps).Some?
  }

  /** All keys of a nested literal accepted, and no other key present. */
  predicate GroupOk(keys: seq<(string, Leaf)>, fields: map<string, Value>, ps: Parsers) {
    && (forall i :: 0 <= i < |keys| ==> LeafOk(keys[i].1, Lookup(fields, keys[i].0), ps))
    && fields.Keys <= Names(keys)
  }

  predicate FieldOk(field: Field, v: Option<Value>, ps: Parsers) {
    match field
    case Scalar(leaf) => LeafOk(leaf, v, ps)
    case Group(keys) => v.None? || (v.value.Obj? && GroupOk(keys, v.value.fields, ps))
  }

  /** What a schema accepts, stated on its own: every key's rule holds and no
      key outside the schema is present. */
  predicate PartOk(schema: Schema, part: Part, ps: Parsers) {
    && (forall i :: 0 <= i < |schema| ==> FieldOk(schema[i].1, Lookup(part, schema[i].0), ps))
    && part.Keys <= Names(schema)
  }

  /** The converted value: a string trimmed and lower-cased, a number or a date as a number. */
  function Convert(leaf: Leaf, x: Value, ps: Parsers): Value {
    match leaf
    case Text(_, _, _) => if x.Str? then Str(Normalize(x.s)) else x
    case Number(_, _, _) => if NumberOf(x, ps).Some? then Num(NumberOf(x, ps).value) else x
    case Date(_) => if DateOf(x, ps).Some? then Num(DateOf(x, ps).value) else x
  }

  function ConvertGroup(keys: seq<(string, Leaf)>, fields: map<string, Value>, ps: Parsers): map<string, Value> {
    map k | k in fields && k in Names(keys) :: Convert(RuleFor(keys, k), fields[k], ps)
  }

  function ConvertField(field: Field, x: Value, ps: Parsers): Value {
    match field
    case Scalar(leaf) => Convert(leaf, x, ps)
    case Group(keys) => if x.Obj? then Obj(ConvertGroup(keys, x.fields, ps)) else x
  }

  /** One rule: a missing value, then the type, then `''`, then the bounds. */
  function CheckLeaf(path: string, leaf: Leaf, v: Option<Value>, ps: Parsers): (r: Result<Option<Value>, Rejection>)
    ensures r.Ok? <==> LeafOk(leaf, v, ps)
    ensures r.Ok? ==> r.value == if v.Some? then Some(Convert(leaf, v.value, ps)) else None
    ensures r.Err? ==> r.error.path == path
  {
    match v
    case None => if leaf.required then Err(Rejection(path, Required)) else Ok(None)
    case Some(x) =>
      match leaf
      case Text(_, min, max) =>
        if !x.Str? then Err(Rejection(path, Base))
        else
          var s := Normalize(x.s);
          if s == [] then Err(Rejection(path, Empty))
          else if Utf16Length(s) < min then Err(Rejection(path, TooShort))
          else if max.Some? && Utf16Length(s) > max.value then Err(Rejection(path, TooLong))
          else Ok(Some(Str(s)))
      case Number(_, lo, hi) =>
        (match NumberOf(x, ps)
         case None => Err(Rejection(path, Base))
         case Some(n) =>
           if n < lo then Err(Rejection(path, Below))
           else if n > hi then Err(Rejection(path, Above))
           else Ok(Some(Num(n))))
      case Date(_) =>
        match DateOf(x, ps)
        case None => Err(Rejection(path, Base))
        case Some(t) => Ok(Some(Num(t)))
  }

  /** The keys of a nested literal, in schema order. */
  function CheckGroupKeys(prefix: string, keys: seq<(string, Leaf)>, fields: map<string, Value>, ps: Parsers)
    : (r: Result<map<string, Value>, Rejection>)
    ensures r.Ok? <==> forall i :: 0 <= i < |keys| ==> LeafOk(keys[i].1, Lookup(fields, keys[i].0), ps)
    ensures r.Ok? ==> r.value == ConvertGroup(keys, fields, ps)
  {
    if keys == [] then Ok(map[])
    else
      match CheckLeaf(AtPath(prefix, keys[0].0), keys[0].1, Lookup(fields, keys[0].0), ps)
      case Err(e) => Err(e)
      case Ok(o) =>
        match CheckGroupKeys(prefix, keys[1..], fields, ps)
        case Err(e) => Err(e)
        case Ok(m) =>
          ConvertGroupCons(keys, fields, ps);
          Ok(if o.Some? then m[keys[0].0 := o.value] else m)
  }

  /** Converting a literal's fields: the first key's rule, over the rest's. */
  lemma ConvertGroupCons(keys: seq<(string, Leaf)>, fields: map<string, Value>, ps: Parsers)
    requires keys != []
    ensures keys[0].0 !in fields ==> ConvertGroup(keys, fields, ps) == ConvertGroup(keys[1..], fields, ps)
    ensures keys[0].0 in fields ==>
              ConvertGroup(keys, fields, ps)
              == ConvertGroup(keys[1..], fields, ps)[keys[0].0 := Convert(keys[0].1, fields[keys[0].0], ps)]
  {
  }

  function CheckField(path: string, field: Field, v: Option<Value>, ps: Parsers): (r: Result<Option<Value>, Rejection>)
    ensures r.Ok? <==> FieldOk(field, v, ps)
    ensures r.Ok? ==> r.value == if v.Some? then Some(ConvertField(field, v.value, ps)) else None
  {
    match field
    case Scalar(leaf) => CheckLeaf(path, leaf, v, ps)
    case Group(keys) =>
      match v
      case None => Ok(None)
      case Some(x) =>
        if !x.Obj? then Err(Rejection(path, Base))
        else
          match CheckGroupKeys(path, keys, x.fields, ps)
          case Err(e) => Err(e)
          case Ok(m) => if x.fields.Keys <= Names(keys) then Ok(Some(Obj(m))) else Err(Rejection(path, Unknown))
  }

  function ConvertPart(schema: Schema, part: Part, ps: Parsers): Part {
    map k | k in part && k in Names(schema) :: ConvertField(RuleFor(schema, k), part[k], ps)
  }

  function CheckPartKeys(schema: Schema, part: Part, ps: Parsers): (r: Result<Part, Rejection>)
    ensures r.Ok? <==> forall i :: 0 <= i < |schema| ==> FieldOk(schema[i].1, Lookup(part, schema[i].0), ps)
    ensures r.Ok? ==> r.value == ConvertPart(schema, part, ps)
  {
    if schema == [] then Ok(map[])
    else
      match CheckField(schema[0].0, schema[0].1, Lookup(part, schema[0].0), ps)
      case Err(e) => Err(e)
      case Ok(o) =>
        match CheckPartKeys(schema[1..], part, ps)
        case Err(e) => Err(e)
        case Ok(m) =>
          ConvertPartCons(schema, part, ps);
          Ok(if o.Some? then m[schema[0].0 := o.value] else m)
  }

  /** Converting a part: the first key's rule, over the rest's. */
  lemma ConvertPartCons(schema: Schema, part: Part, ps: Parsers)
    requires schema != []
    ensures schema[0].0 !in part ==> ConvertPart(schema, part, ps) == ConvertPart(schema[1..], part, ps)
    ensures schema[0].0 in part ==>
              ConvertPart(schema, part, ps)
              == ConvertPart(schema[1..], part, ps)[schema[0].0 := ConvertField(schema[0].1, part[schema[0].0], ps)]
  {
  }

  /** Validate one request part: the schema's keys in order, then the keys it
      does not name. The result is the converted part. */
  function Validate(schema: Schema, part: Part, ps: Parsers): (r: Result<Part, Rejection>)
    ensures r.Ok? <==> PartOk(schema, part, ps)
    ensures r.Ok? ==> r.value.Keys == part.Keys && r.value == ConvertPart(schema, part, ps)
  {
    match CheckPartKeys(schema, part, ps)
    case Err(e) => Err(e)
    case Ok(m) => if part.Keys <= Names(schema) then Ok(m) else Err(Rejection("", Unknown))
  }

  /** The index of the first key named `k`. */
  lemma {:induction false} RuleForIndex<R>(keys: seq<(string, R)>, k: string) returns (i: nat)
    requires k in Names(keys)
    ensures i < |keys| && keys[i].0 == k && keys[i].1 == RuleFor(keys, k)
  {
    if keys[0].0 == k {
      i := 0;
    } else {
      var j := RuleForIndex(keys[1..], k);
      i := j + 1;
    }
  }

  /** Every string of a part, at the top or one level down, is trimmed and lower-case. */
  ghost predicate NormalStrings(part: Part) {
    forall k :: k in part ==>
      && (part[k].Str? ==> Normal(part[k].s))
      && (part[k].Obj? ==> forall j :: j in part[k].fields && part[k].fields[j].Str? ==> Normal(part[k].fields[j].s))
  }

  lemma ConvertLeafNormal(leaf: Leaf, x: Value, ps: Parsers)
    requires LeafOk(leaf, Some(x), ps)
    ensures Convert(leaf, x, ps).Str? ==> Normal(Convert(leaf, x, ps).s)
    ensures !Convert(leaf, x, ps).Obj?
  {
  }

  lemma ConvertFieldNormal(field: Field, x: Value, ps: Parsers)
    requires FieldOk(field, Some(x), ps)
    ensures ConvertField(field, x, ps).Str? ==> Normal(ConvertField(field, x, ps).s)
    ensures ConvertField(field, x, ps).Obj? ==>
              forall j :: j in ConvertField(field, x, ps).fields && ConvertField(field, x, ps).fields[j].Str? ==>
                Normal(ConvertField(field, x, ps).fields[j].s)
  {
    match field
    case Scalar(leaf) => ConvertLeafNormal(leaf, x, ps);
    case Group(keys) =>
      var out := ConvertGroup(keys, x.fields, ps);
      forall j | j in out
        ensures out[j].Str? ==> Normal(out[j].s)
      {
        var i := RuleForIndex(keys, j);
        assert LeafOk(keys[i].1, Lookup(x.fields, keys[i].0), ps);
        ConvertLeafNormal(keys[i].1, x.fields[j], ps);
      }
  }

  /** Joi converts before it checks: every string the validator hands on,
      passwords included, is trimmed and lower-case. */
  lemma ValidatedStringsNormal(schema: Schema, part: Part, ps: Parsers)
    requires Validate(schema, part, ps).Ok?
    ensures NormalStrings(Validate(schema, part, ps).value)
  {
    var out := Validate(schema, part, ps).value;
    forall k | k in out
      ensures out[k].Str? ==> Normal(out[k].s)
      ensures out[k].Obj? ==> forall j :: j in out[k].fields && out[k].fields[j].Str? ==> Normal(out[k].fields[j].s)
    {
      var i := RuleForIndex(schema, k);
      assert FieldOk(schema[i].1, Lookup(part, schema[i].0), ps);
      ConvertFieldNormal(schema[i].1, part[k], ps);
    }
  }

  /** No two keys of the schema, or of one of its nested literals, share a name. */
  ghost predicate DistinctSchema(schema: Schema) {
    && Distinct(schema)
    && forall i :: 0 <= i < |schema| && schema[i].1.Group? ==> Distinct(schema[i].1.keys)
  }

  lemma ConvertIdempotent(leaf: Leaf, x: Value, ps: Parsers)
    ensures Convert(leaf, Convert(leaf, x, ps), ps) == Convert(leaf, x, ps)
  {
    if leaf.Text? && x.Str? {
      NormalizeIdempotent(x.s);
    }
  }

  lemma ConvertLeafOk(leaf: Leaf, x: Value, ps: Parsers)
    requires LeafOk(leaf, Some(x), ps)
    ensures LeafOk(leaf, Some(Convert(leaf, x, ps)), ps)
  {
    if leaf.Text? {
      NormalizeIdempotent(x.s);
    }
  }

  lemma ConvertFieldIdempotent(field: Field, x: Value, ps: Parsers)
    ensures ConvertField(field, ConvertField(field, x, ps), ps) == ConvertField(field, x, ps)
  {
    match field
    case Scalar(leaf) => ConvertIdempotent(leaf, x, ps);
    case Group(keys) =>
      if x.Obj? {
        var once := ConvertGroup(keys, x.fields, ps);
        var twice := ConvertGroup(keys, once, ps);
        forall k | k in twice
          ensures twice[k] == once[k]
        {
          ConvertIdempotent(RuleFor(keys, k), x.fields[k], ps);
        }
      }
  }

  lemma ConvertFieldOk(field: Field, x: Value, ps: Parsers)
    requires FieldOk(field, Some(x), ps)
    requires field.Group? ==> Distinct(field.keys)
    ensures FieldOk(field, Some(ConvertField(field, x, ps)), ps)
  {
    match field
    case Scalar(leaf) => ConvertLeafOk(leaf, x, ps);
    case Group(keys) =>
      var out := ConvertGroup(keys, x.fields, ps);
      forall i | 0 <= i < |keys|
        ensures LeafOk(keys[i].1, Lookup(out, keys[i].0), ps)
      {
        NamesHas(keys, i);
        assert LeafOk(keys[i].1, Lookup(x.fields, keys[i].0), ps);
        if keys[i].0 in x.fields {
          ConvertLeafOk(keys[i].1, x.fields[keys[i].0], ps);
        }
      }
  }

  /** The converted part passes the schema it came from. */
  lemma ConvertedPasses(schema: Schema, part: Part, ps: Parsers)
    requires DistinctSchema(schema) && PartOk(schema, part, ps)
    ensures PartOk(schema, ConvertPart(schema, part, ps), ps)
  {
    var out := ConvertPart(schema, part, ps);
    forall i | 0 <= i < |schema|
      ensures FieldOk(schema[i].1, Lookup(out, schema[i].0), ps)
    {
      NamesHas(schema, i);
      assert FieldOk(schema[i].1, Lookup(part, schema[i].0), ps);
      if schema[i].0 in part {
        ConvertFieldOk(schema[i].1, part[schema[i].0], ps);
      }
    }
  }

  lemma ConvertPartIdempotent(schema: Schema, part: Part, ps: Parsers)
    ensures ConvertPart(schema, ConvertPart(schema, part, ps), ps) == ConvertPart(schema, part, ps)
  {
    var out := ConvertPart(schema, part, ps);
    var again := ConvertPart(schema, out, ps);
    forall k | k in again
      ensures again[k] == out[k]
    {
      ConvertFieldIdempotent(RuleFor(schema, k), part[k], ps);
    }
  }

  /** Validation is stable: the converted part passes the same schema again
      and converts to itself. */
  lemma Revalidate(schema: Schema, part: Part, ps: Parsers)
    requires DistinctSchema(schema) && Validate(schema, part, ps).Ok?
    ensures Validate(schema, Validate(schema, part, ps).value, ps) == Validate(schema, part, ps)
  {
    ConvertedPasses(schema, part, ps);
    ConvertPartIdempotent(schema, part, ps);
  }

  function RelaxLeaf(leaf: Leaf): Leaf {
    leaf.(required := false)
  }

  function RelaxKeys(keys: seq<(string, Leaf)>): (r: seq<(string, Leaf)>)
    ensures |r| == |keys| && forall i :: 0 <= i < |keys| ==> r[i] == (keys[i].0, RelaxLeaf(keys[i].1))
  {
    if keys == [] then [] else [(keys[0].0, RelaxLeaf(keys[0].1))] + RelaxKeys(keys[1..])
  }

  function RelaxField(field: Field): Field {
    match field
    case Scalar(leaf) => Scalar(RelaxLeaf(leaf))
    case Group(keys) => Group(RelaxKeys(keys))
  }

  /** The schema with every `required()` dropped. */
  function Optional(schema: Schema): (r: Schema)
    ensures |r| == |schema| && forall i :: 0 <= i < |schema| ==> r[i] == (schema[i].0, RelaxField(schema[i].1))
  {
    if schema == [] then [] else [(schema[0].0, RelaxField(schema[0].1))] + Optional(schema[1..])
  }

  /** Renaming no key and rewriting every rule by `f` keeps the names, and the
      rule found for a name is the rewritten one. */
  lemma {:induction false} NamesOfRewrite<R, S>(keys: seq<(string, R)>, keys': seq<(string, S)>, f: R -> S)
    requires |keys'| == |keys| && forall i :: 0 <= i < |keys| ==> keys'[i] == (keys[i].0, f(keys[i].1))
    ensures Names(keys') == Names(keys)
    ensures forall k :: k in Names(keys) ==> RuleFor(keys', k) == f(RuleFor(keys, k))
  {
    if keys != [] {
      NamesOfRewrite(keys[1..], keys'[1..], f);
    }
  }

  lemma RelaxFieldAccepts(field: Field, v: Option<Value>, ps: Parsers)
    requires FieldOk(field, v, ps)
    ensures FieldOk(RelaxField(field), v, ps)
    ensures v.Some? ==> ConvertField(RelaxField(field), v.value, ps) == ConvertField(field, v.value, ps)
  {
    match field
    case Scalar(leaf) =>
    case Group(keys) =>
      NamesOfRewrite(keys, RelaxKeys(keys), RelaxLeaf);
      if v.Some? {
        assert ConvertGroup(RelaxKeys(keys), v.value.fields, ps) == ConvertGroup(keys, v.value.fields, ps);
      }
  }

  /** Dropping every `required()` accepts all the schema accepted, with the
      same converted result. */
  lemma RelaxAccepts(schema: Schema, part: Part, ps: Parsers)
    requires PartOk(schema, part, ps)
    ensures Validate(Optional(schema), part, ps) == Validate(schema, part, ps)
  {
    var relaxed := Optional(schema);
    NamesOfRewrite(schema, relaxed, RelaxField);
    forall i | 0 <= i < |relaxed|
      ensures FieldOk(relaxed[i].1, Lookup(part, relaxed[i].0), ps)
    {
      RelaxFieldAccepts(schema[i].1, Lookup(part, schema[i].0), ps);
    }
    assert PartOk(relaxed, part, ps);
    var a, b := ConvertPart(relaxed, part, ps), ConvertPart(schema, part, ps);
    forall k | k in b
      ensures a[k] == b[k]
    {
      var i := RuleForIndex(schema, k);
      RelaxFieldAccepts(schema[i].1, Some(part[k]), ps);
    }
    assert a == b;
  }

  /** A route's validator: the schemas of its `params` and of its `body`. */
  datatype Validator = Validator(params: Schema, body: Schema)

  /** Both parts of a request validated, `params` first; the converted parts. */
  function CheckRequest(v: Validator, params: Part, body: Part, ps: Parsers): (r: Result<(Part, Part), Rejection>)
    ensures r.Ok? <==> PartOk(v.params, params, ps) && PartOk(v.body, body, ps)
    ensures r.Ok? ==> r.value == (ConvertPart(v.params, params, ps), ConvertPart(v.body, body, ps))
  {
    match Validate(v.params, params, ps)
    case Err(e) => Err(e)
    case Ok(p) =>
      match Validate(v.body, body, ps)
      case Err(e) => Err(e)
      case Ok(b) => Ok((p, b))
  }

  /** A validator with the same parameters whose body schema accepts a
      passing body, and converts it alike, answers the request alike. */
  lemma CheckRequestAlike(v1: Validator, v2: Validator, params: Part, body: Part, ps: Parsers)
    requires CheckRequest(v1, params, body, ps).Ok?
    requires v2.params == v1.params && PartOk(v2.body, body, ps)
    requires ConvertPart(v2.body, body, ps) == ConvertPart(v1.body, body, ps)
    ensures CheckRequest(v2, params, body, ps) == CheckRequest(v1, params, body, ps)
  {
  }

  /** `fields[k]` is a string of `lo..hi` UTF-16 code units once trimmed and
      lower-cased, and not empty. */
  predicate TextWithin(fields: map<string, Value>, k: string, lo: nat, hi: nat) {
    k in fields && fields[k].Str? && Normalize(fields[k].s) != [] && lo <= Utf16Length(Normalize(fields[k].s)) <= hi
  }

  /** The length bounds count UTF-16 code units, not characters: 101 emoji
      are 202 units and over `max(200)`, while two emoji are 4 units and
      meet `min(3)`. */
  lemma TextBoundsCountCodeUnits(ps: Parsers)
    ensures !LeafOk(Text(true, 1, Some(200)), Some(Str(seq(101, _ => '\U{1F600}'))), ps)
    ensures LeafOk(Text(true, 3, Some(30)), Some(Str("\U{1F600}\U{1F600}")), ps)
  {
    var long: string := seq(101, _ => '\U{1F600}');
    var short: string := "\U{1F600}\U{1F600}";
    AstralNormal(long);
    AstralNormal(short);
  }

  /** `fields[k]` is a string that is not empty once trimmed. */
  predicate TextGiven(fields: map<string, Value>, k: string) {
    k in fields && fields[k].Str? && Normalize(fields[k].s) != []
  }

  /** `fields[k]` is, or converts to, a number in `lo..hi`. */
  predicate NumberWithin(fields: map<string, Value>, k: string, lo: int, hi: int, ps: Parsers) {
    k in fields && NumberOf(fields[k], ps).Some? && lo <= NumberOf(fields[k], ps).value <= hi
  }

  /** `fields[k]` is, or converts to, a date. */
  predicate DateGiven(fields: map<string, Value>, k: string, ps: Parsers) {
    k in fields && DateOf(fields[k], ps).Some?
  }

  /** The nested `time` literal the tweet and message schemas share: `hour`
      0..23, `min` and `sec` 0..59, each required when `time` is given. */
  const TimeOfDayKeys: seq<(string, Leaf)> :=
    [("hour", Number(true, 0, 23)), ("min", Number(true, 0, 59)), ("sec", Number(true, 0, 59))]

  /** What `TimeOfDayKeys` asks of a part: `time` absent, or an object with
      exactly the three bounded numbers (the literal's keys when not required). */
  predicate TimeWithin(part: Part, required: bool, ps: Parsers) {
    "time" !in part ||
      (&& part["time"].Obj?
       && (var t := part["time"].fields;
           && (required || "hour" in t ==> NumberWithin(t, "hour", 0, 23, ps))
           && (required || "min" in t ==> NumberWithin(t, "min", 0, 59, ps))
           && (required || "sec" in t ==> NumberWithin(t, "sec", 0, 59, ps))
           && t.Keys <= {"hour", "min", "sec"}))
  }

  /** A schema's acceptance, key by key, for the short schemas the routes use. */
  lemma PartOkUnfold(schema: Schema, part: Part, ps: Parsers)
    requires 1 <= |schema| <= 4
    ensures |schema| == 1 ==> Names(schema) == {schema[0].0}
    ensures |schema| == 2 ==> Names(schema) == {schema[0].0, schema[1].0}
    ensures |schema| == 3 ==> Names(schema) == {schema[0].0, schema[1].0, schema[2].0}
    ensures |schema| == 4 ==> Names(schema) == {schema[0].0, schema[1].0, schema[2].0, schema[3].0}
    ensures PartOk(schema, part, ps) <==>
              && FieldOk(schema[0].1, Lookup(part, schema[0].0), ps)
              && (|schema| > 1 ==> FieldOk(schema[1].1, Lookup(part, schema[1].0), ps))
              && (|schema| > 2 ==> FieldOk(schema[2].1, Lookup(part, schema[2].0), ps))
              && (|schema| > 3 ==> FieldOk(schema[3].1, Lookup(part, schema[3].0), ps))
              && part.Keys <= Names(schema)
  {
    NamesIndexed(schema);
    if |schema| == 4 {
      assert (set i | 0 <= i < |schema| :: schema[i].0) == {schema[0].0, schema[1].0, schema[2].0, schema[3].0};
    } else if |schema| == 3 {
      assert (set i | 0 <= i < |schema| :: schema[i].0) == {schema[0].0, schema[1].0, schema[2].0};
    } else if |schema| == 2 {
      assert (set i | 0 <= i < |schema| :: schema[i].0) == {schema[0].0, schema[1].0};
    } else {
      assert (set i | 0 <= i < |schema| :: schema[i].0) == {schema[0].0};
    }
  }

  lemma {:induction false} NamesIndexed<R>(keys: seq<(string, R)>)
    ensures Names(keys) == set i | 0 <= i < |keys| :: keys[i].0
  {
    if keys != [] {
      NamesIndexed(keys[1..]);
      assert forall i :: 1 <= i < |keys| ==> keys[i] == keys[1..][i - 1];
    }
  }

  /** The empty schema accepts exactly the empty part. */
  lemma EmptyPart(part: Part, ps: Parsers)
    ensures PartOk([], part, ps) <==> part == map[]
  {
    if part.Keys == {} {
      assert part == map[];
    }
  }

  lemma TextRule(fields: map<string, Value>, k: string, required: bool, min: nat, max: Option<nat>, ps: Parsers)
    ensures LeafOk(Text(required, min, max), Lookup(fields, k), ps) <==>
              (required || k in fields ==>
                 && TextGiven(fields, k) && min <= Utf16Length(Normalize(fields[k].s))
                 && (max.None? || Utf16Length(Normalize(fields[k].s)) <= max.value))
  {
  }

  lemma DateRule(fields: map<string, Value>, k: string, required: bool, ps: Parsers)
    ensures LeafOk(Date(required), Lookup(fields, k), ps) <==> (required || k in fields ==> DateGiven(fields, k, ps))
  {
  }

  lemma NumberRule(fields: map<string, Value>, k: string, required: bool, lo: int, hi: int, ps: Parsers)
    ensures LeafOk(Number(required, lo, hi), Lookup(fields, k), ps) <==>
              (required || k in fields ==> NumberWithin(fields, k, lo, hi, ps))
  {
  }

  lemma GroupOkUnfold(keys: seq<(string, Leaf)>, fields: map<string, Value>, ps: Parsers)
    requires |keys| == 3
    ensures Names(keys) == {keys[0].0, keys[1].0, keys[2].0}
    ensures GroupOk(keys, fields, ps) <==>
              && LeafOk(keys[0].1, Lookup(fields, keys[0].0), ps)
              && LeafOk(keys[1].1, Lookup(fields, keys[1].0), ps)
              && LeafOk(keys[2].1, Lookup(fields, keys[2].0), ps)
              && fields.Keys <= Names(keys)
  {
    var k1, k2 := keys[1..], keys[2..];
    assert k1[0] == keys[1] && k2[0] == keys[2] && k1[1..] == k2 && k2[1..] == [];
    assert Names(k2) == {keys[2].0};
    assert Names(k1) == {keys[1].0, keys[2].0};
    if && LeafOk(keys[0].1, Lookup(fields, keys[0].0), ps)
       && LeafOk(keys[1].1, Lookup(fields, keys[1].0), ps)
       && LeafOk(keys[2].1, Lookup(fields, keys[2].0), ps)
    {
      forall i | 0 <= i < |keys|
        ensures LeafOk(keys[i].1, Lookup(fields, keys[i].0), ps)
      {
        assert i == 0 || i == 1 || i == 2;
      }
    }
  }

  /** The `time` literal, with and without its `required()`s, accepts what `TimeWithin` says. */
  lemma TimeRule(part: Part, required: bool, ps: Parsers)
    ensures var keys := if required then TimeOfDayKeys else RelaxKeys(TimeOfDayKeys);
            FieldOk(Group(keys), Lookup(part, "time"), ps) <==> TimeWithin(part, required, ps)
  {
    var keys := if required then TimeOfDayKeys else RelaxKeys(TimeOfDayKeys);
    if "time" in part && part["time"].Obj? {
      var t := part["time"].fields;
      GroupOkUnfold(keys, t, ps);
      NumberRule(t, "hour", required, 0, 23, ps);
      NumberRule(t, "min", required, 0, 59, ps);
      NumberRule(t, "sec", required, 0, 59, ps);
    }
  }

  /** Two schemas with the same keys, whose rules convert each given value
      alike, convert a part alike. */
  lemma ConvertPartAlike(s1: Schema, s2: Schema, part: Part, ps: Parsers)
    requires Names(s1) == Names(s2)
    requires forall k :: k in part && k in Names(s1) ==>
               ConvertField(RuleFor(s1, k), part[k], ps) == ConvertField(RuleFor(s2, k), part[k], ps)
    ensures ConvertPart(s1, part, ps) == ConvertPart(s2, part, ps)
  {
  }

  /** The converted value of one key of a part. */
  lemma ConvertPartAt(schema: Schema, part: Part, k: string, field: Field, ps: Parsers)
    requires k in Names(schema) && RuleFor(schema, k) == field
    ensures k in part ==> k in ConvertPart(schema, part, ps) && ConvertPart(schema, part, ps)[k] == ConvertField(field, part[k], ps)
    ensures k !in part ==> k !in ConvertPart(schema, part, ps)
  {
  }
}

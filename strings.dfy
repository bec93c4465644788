/** The string conversions the document mapper and the request validators
    apply (`trim`, `lowercase`), and `String.prototype.replace` with a string
    pattern, which the controllers use to reword an error message. */
module Strings {
  import opened Common

  /** The characters JavaScript's `trim` removes: the white-space and
      line-terminator characters of ECMAScript. */
  predicate IsSpace(c: char) {
    || c in {' ', '\t', '\n', '\r', '\U{000B}', '\U{000C}', '\U{00A0}', '\U{1680}',
             '\U{2028}', '\U{2029}', '\U{202F}', '\U{205F}', '\U{3000}', '\U{FEFF}'}
    || '\U{2000}' <= c <= '\U{200A}'
  }

  /** Neither end of `s` is white space. */
  predicate Trimmed(s: string) {
    s == [] || (!IsSpace(s[0]) && !IsSpace(s[|s| - 1]))
  }

  predicate AllSpace(s: string) {
    forall k :: 0 <= k < |s| ==> IsSpace(s[k])
  }

  function TrimStart(s: string): (r: string)
    ensures |r| <= |s| && r == s[|s| - |r|..]
    ensures AllSpace(s[..|s| - |r|])
    ensures r != [] ==> !IsSpace(r[0])
  {
    if s != [] && IsSpace(s[0]) then TrimStart(s[1..]) else s
  }

  function TrimEnd(s: string): (r: string)
    ensures |r| <= |s| && r == s[..|r|]
    ensures AllSpace(s[|r|..])
    ensures r != [] ==> !IsSpace(r[|r| - 1])
  {
    if s != [] && IsSpace(s[|s| - 1]) then TrimEnd(s[..|s| - 1]) else s
  }

  /** `s` is `r` with white space on either side: `r` starts at `i` in `s`. */
  predicate Padded(s: string, i: nat, r: string) {
    && i + |r| <= |s| && r == s[i..i + |r|]
    && AllSpace(s[..i]) && AllSpace(s[i + |r|..])
  }

  /** `s.trim()`: `s` is `r` with white space on either side, and `r` has none at its ends. */
  function Trim(s: string): (r: string)
    ensures Trimmed(r)
    ensures exists i :: Padded(s, i, r)
  {
    var t := TrimStart(s);
    var r := TrimEnd(t);
    var i := |s| - |t|;
    TrimSlices(s, i, t, r);
    assert Padded(s, i, r);
    r
  }

  /** `t` is `s` from `i` on, `r` is `t` up to `|r|`, and what each drops is space. */
  lemma TrimSlices(s: string, i: nat, t: string, r: string)
    requires i <= |s| && t == s[i..] && (t != [] ==> !IsSpace(t[0]))
    requires |r| <= |t| && r == t[..|r|] && AllSpace(t[|r|..]) && (r != [] ==> !IsSpace(r[|r| - 1]))
    ensures Trimmed(r)
    ensures r == s[i..i + |r|]
    ensures AllSpace(s[i + |r|..])
  {
    TrimmedEnds(t, r);
    SliceOfSuffix(s, i, |r|);
    AllSpaceSuffix(s, t, i, |r|);
  }

  lemma TrimmedEnds(t: string, r: string)
    requires t != [] ==> !IsSpace(t[0])
    requires |r| <= |t| && r == t[..|r|] && (r != [] ==> !IsSpace(r[|r| - 1]))
    ensures Trimmed(r)
  {
    if r != [] {
      assert r[0] == t[0];
    }
  }

  lemma SliceOfSuffix(s: string, i: nat, n: nat)
    requires i + n <= |s|
    ensures s[i..][..n] == s[i..i + n]
  {
  }

  lemma AllSpaceSuffix(s: string, t: string, i: nat, n: nat)
    requires i <= |s| && t == s[i..] && n <= |t|
    requires AllSpace(t[n..])
    ensures AllSpace(s[i + n..])
  {
    assert s[i + n..] == t[n..];
  }

  function LowerChar(c: char): char {
    if 'A' <= c <= 'Z' then (c as int + 32) as char else c
  }

  predicate IsUpper(c: char) { 'A' <= c <= 'Z' }

  predicate NoUpper(s: string) {
    forall k :: 0 <= k < |s| ==> !IsUpper(s[k])
  }

  /** `s.toLowerCase()` on the ASCII letters: same length, no upper-case letter
      left, and white space exactly where it was. */
  function Lower(s: string): (r: string)
    ensures |r| == |s| && NoUpper(r)
    ensures forall k :: 0 <= k < |s| ==> (IsSpace(r[k]) <==> IsSpace(s[k]))
    ensures forall k :: 0 <= k < |s| && !IsUpper(s[k]) ==> r[k] == s[k]
  {
    seq(|s|, k requires 0 <= k < |s| => LowerChar(s[k]))
  }

  /** The conversion `trim: true, lowercase: true` (document mapper) and
      `.lowercase().trim()` (validators) apply to a string. */
  function Normalize(s: string): (r: string)
    ensures |r| <= |s| && Trimmed(r) && NoUpper(r)
  {
    Trim(Lower(s))
  }

  /** A string the conversion leaves as it is. */
  predicate Normal(s: string) {
    Trimmed(s) && NoUpper(s)
  }

  lemma {:induction false} TrimStartOfTrimmed(s: string)
    requires s == [] || !IsSpace(s[0])
    ensures TrimStart(s) == s
  {
  }

  lemma {:induction false} TrimEndOfTrimmed(s: string)
    requires s == [] || !IsSpace(s[|s| - 1])
    ensures TrimEnd(s) == s
  {
  }

  lemma LowerOfNoUpper(s: string)
    requires NoUpper(s)
    ensures Lower(s) == s
  {
  }

  /** Converting twice is converting once, so a stored value passes the
      conversion unchanged. */
  lemma NormalizeIdempotent(s: string)
    ensures Normalize(Normalize(s)) == Normalize(s)
  {
    var n := Normalize(s);
    LowerOfNoUpper(n);
    TrimStartOfTrimmed(n);
    TrimEndOfTrimmed(n);
  }

  /** A converted string is a fixed point of the conversion, and conversely. */
  lemma NormalIffFixedPoint(s: string)
    ensures Normal(s) <==> Normalize(s) == s
  {
    if Normal(s) {
      LowerOfNoUpper(s);
      TrimStartOfTrimmed(s);
      TrimEndOfTrimmed(s);
    }
  }

  lemma {:induction false} LowerTail(s: string)
    requires s != []
    ensures Lower(s[1..]) == Lower(s)[1..]
    ensures Lower(s[..|s| - 1]) == Lower(s)[..|s| - 1]
  {
  }

  lemma {:induction false} TrimStartLower(s: string)
    ensures TrimStart(Lower(s)) == Lower(TrimStart(s))
    decreases |s|
  {
    if s != [] && IsSpace(s[0]) {
      LowerTail(s);
      TrimStartLower(s[1..]);
    }
  }

  lemma {:induction false} TrimEndLower(s: string)
    ensures TrimEnd(Lower(s)) == Lower(TrimEnd(s))
    decreases |s|
  {
    if s != [] && IsSpace(s[|s| - 1]) {
      LowerTail(s);
      TrimEndLower(s[..|s| - 1]);
    }
  }

  /** Trimming and lower-casing commute, so the order in which the document
      mapper applies its two setters does not matter. */
  lemma TrimLowerCommute(s: string)
    ensures Lower(Trim(s)) == Trim(Lower(s))
  {
    TrimStartLower(s);
    TrimEndLower(TrimStart(s));
  }

  /** A character outside the Basic Multilingual Plane, which UTF-16 writes
      as a surrogate pair. */
  predicate Astral(c: char) { c as int > 0xFFFF }

  /** JavaScript's `s.length`: the number of UTF-16 code units, one per
      character and two per astral character. */
  function Utf16Length(s: string): (n: nat)
    ensures |s| <= n <= 2 * |s|
    ensures (forall k :: 0 <= k < |s| ==> !Astral(s[k])) ==> n == |s|
    ensures (forall k :: 0 <= k < |s| ==> Astral(s[k])) ==> n == 2 * |s|
  {
    if s == [] then 0
    else
      assert forall k :: 0 <= k < |s| - 1 ==> s[1..][k] == s[k + 1];
      (if Astral(s[0]) then 2 else 1) + Utf16Length(s[1..])
  }

  /** A string of astral characters only is left as it is by the conversion,
      and is twice as long in code units as in characters. */
  lemma AstralNormal(s: string)
    requires forall k :: 0 <= k < |s| ==> Astral(s[k])
    ensures Normalize(s) == s && Utf16Length(s) == 2 * |s|
  {
    assert Normal(s);
    NormalIffFixedPoint(s);
  }

  /** `pat` occurs in `s` at index `k`. */
  predicate OccursAt(s: string, pat: string, k: nat) {
    k + |pat| <= |s| && s[k..k + |pat|] == pat
  }

  function IndexOfFrom(s: string, pat: string, i: nat): (r: Option<nat>)
    requires i <= |s|
    ensures r.Some? ==> i <= r.value && OccursAt(s, pat, r.value)
                        && forall k: nat :: i <= k < r.value ==> !OccursAt(s, pat, k)
    ensures r.None? ==> forall k: nat :: i <= k <= |s| ==> !OccursAt(s, pat, k)
    decreases |s| - i
  {
    if i + |pat| > |s| then None
    else if s[i..i + |pat|] == pat then Some(i)
    else IndexOfFrom(s, pat, i + 1)
  }

  /** `s.indexOf(pat)`: the first index where `pat` occurs, if any. */
  function IndexOf(s: string, pat: string): (r: Option<nat>)
    ensures r.Some? ==> OccursAt(s, pat, r.value) && forall k: nat :: k < r.value ==> !OccursAt(s, pat, k)
    ensures r.None? <==> forall k: nat :: k <= |s| ==> !OccursAt(s, pat, k)
  {
    IndexOfFrom(s, pat, 0)
  }

  /** `s.replace(pat, rep)` with a string pattern: only the first occurrence is
      replaced; with no occurrence the string is returned as it is. */
  function ReplaceFirst(s: string, pat: string, rep: string): (r: string)
    ensures (forall k: nat :: k <= |s| ==> !OccursAt(s, pat, k)) ==> r == s
    ensures forall k: nat :: OccursAt(s, pat, k) && (forall j: nat :: j < k ==> !OccursAt(s, pat, j)) ==>
              r == s[..k] + rep + s[k + |pat|..]
  {
    match IndexOf(s, pat)
    case None => s
    case Some(k) => s[..k] + rep + s[k + |pat|..]
  }
}

/** The few JavaScript string operations the node relies on: `||` on an
    optional string, `Array.prototype.join`, `String.prototype.trim` and the
    decimal rendering of a non-negative integer in a template literal. */
module JsText {
  import opened Wrappers

  /** `o || fallback` where `o` is an optional string: both `undefined` and
      the empty string are falsy, so both give `fallback`. */
  function OrElse(o: Option<string>, fallback: string): string
  {
    if o.Some? && o.value != "" then o.value else fallback
  }

  /** The characters `String.prototype.trim` removes: the ECMAScript
      WhiteSpace and LineTerminator code points. */
  predicate IsWhitespace(c: char)
  {
    || c == '\t' || c == '\n' || c == '\U{B}' || c == '\U{C}' || c == '\r'
    || c == ' ' || c == '\U{A0}' || c == '\U{1680}'
    || ('\U{2000}' <= c <= '\U{200A}')
    || c == '\U{2028}' || c == '\U{2029}' || c == '\U{202F}' || c == '\U{205F}'
    || c == '\U{3000}' || c == '\U{FEFF}'
  }

  /** Every character of `s` at a position in [lo, hi) is whitespace. */
  predicate WhitespaceBetween(s: string, lo: int, hi: int)
  {
    forall k :: 0 <= lo <= k < hi <= |s| ==> IsWhitespace(s[k])
  }

  /** Neither end of `s` is whitespace. */
  predicate IsTrimmed(s: string)
  {
    s == [] || (!IsWhitespace(s[0]) && !IsWhitespace(s[|s| - 1]))
  }

  /** The first position at or after `i` that is not whitespace (or the
      end of `s`). */
  function SkipLeading(s: string, i: nat): (j: nat)
    requires i <= |s|
    ensures i <= j <= |s|
    ensures WhitespaceBetween(s, i, j)
    ensures j == |s| || !IsWhitespace(s[j])
    decreases |s| - i
  {
    if i < |s| && IsWhitespace(s[i]) then SkipLeading(s, i + 1) else i
  }

  /** The position just after the last character before `j` that is not
      whitespace, looking no further back than `lo`. */
  function SkipTrailing(s: string, lo: nat, j: nat): (k: nat)
    requires lo <= j <= |s|
    ensures lo <= k <= j
    ensures WhitespaceBetween(s, k, j)
    ensures k == lo || !IsWhitespace(s[k - 1])
    decreases j
  {
    if lo < j && IsWhitespace(s[j - 1]) then SkipTrailing(s, lo, j - 1) else j
  }

  /** `r` is the slice of `s` starting at `a`, only whitespace lies outside
      it, and neither of its ends is whitespace. */
  predicate IsTrimAt(s: string, r: string, a: int)
  {
    && 0 <= a <= |s| - |r|
    && r == s[a..a + |r|]
    && WhitespaceBetween(s, 0, a)
    && WhitespaceBetween(s, a + |r|, |s|)
    && IsTrimmed(r)
  }

  /** `r` is what remains of `s` once whitespace is removed at both ends. */
  ghost predicate IsTrimOf(s: string, r: string)
  {
    exists a :: IsTrimAt(s, r, a)
  }

  /** JavaScript's `s.trim()`. */
  function Trim(s: string): (r: string)
    ensures IsTrimmed(r)
    ensures |r| <= |s|
  {
    var a := SkipLeading(s, 0);
    var b := SkipTrailing(s, a, |s|);
    assert b > a ==> !IsWhitespace(s[a]);
    s[a..b]
  }

  /** `Trim` removes whitespace, and only whitespace, from both ends. */
  lemma TrimIsTrimOf(s: string)
    ensures IsTrimOf(s, Trim(s))
  {
    var a := SkipLeading(s, 0);
    var b := SkipTrailing(s, a, |s|);
    assert IsTrimAt(s, Trim(s), a);
  }

  /** At most one string is a trim of `s`, so `IsTrimOf` is an independent
      definition of what `Trim` computes. */
  lemma TrimAtUnique(s: string, r1: string, a1: int, r2: string, a2: int)
    requires IsTrimAt(s, r1, a1) && IsTrimAt(s, r2, a2)
    ensures r1 == r2
  {
    if r1 != [] && r2 != [] {
      // Both start at the first non-whitespace character of s ...
      assert s[a1] == r1[0] && s[a2] == r2[0];
      assert a1 == a2;
      // ... and end at the last one.
      assert s[a1 + |r1| - 1] == r1[|r1| - 1] && s[a2 + |r2| - 1] == r2[|r2| - 1];
      assert |r1| == |r2|;
    }
  }

  lemma TrimOfUnique(s: string, r1: string, r2: string)
    requires IsTrimOf(s, r1) && IsTrimOf(s, r2)
    ensures r1 == r2
  {
    var a1 :| IsTrimAt(s, r1, a1);
    var a2 :| IsTrimAt(s, r2, a2);
    TrimAtUnique(s, r1, a1, r2, a2);
  }

  /** Trimming twice is trimming once. */
  lemma TrimIdempotent(s: string)
    ensures Trim(Trim(s)) == Trim(s)
  {
    var r := Trim(s);
    assert IsTrimAt(r, r, 0);
    TrimIsTrimOf(r);
    TrimOfUnique(r, Trim(r), r);
  }

  /** JavaScript's `xs.join(sep)`. */
  function Join(xs: seq<string>, sep: string): string
  {
    if |xs| == 0 then ""
    else if |xs| == 1 then xs[0]
    else xs[0] + sep + Join(xs[1..], sep)
  }

  /** Joining keeps the parts in order: splitting the list at any inner
      position splits the joined string at one separator. */
  lemma {:induction false} JoinSplit(xs: seq<string>, sep: string, k: nat)
    requires 0 < k < |xs|
    ensures Join(xs, sep) == Join(xs[..k], sep) + sep + Join(xs[k..], sep)
  {
    if k == 1 {
      assert xs[..1] == [xs[0]] && xs[1..] == xs[k..];
    } else {
      var tail := xs[1..];
      JoinSplit(tail, sep, k - 1);
      assert xs[..k][1..] == tail[..k - 1];
      assert tail[k - 1..] == xs[k..];
    }
  }

  /** The length of a join: every part plus one separator between neighbours. */
  function JoinedLength(xs: seq<string>, sepLength: nat): nat
  {
    if |xs| == 0 then 0
    else if |xs| == 1 then |xs[0]|
    else |xs[0]| + sepLength + JoinedLength(xs[1..], sepLength)
  }

  lemma {:induction false} JoinLength(xs: seq<string>, sep: string)
    ensures |Join(xs, sep)| == JoinedLength(xs, |sep|)
    ensures |xs| >= 2 ==> |Join(xs, sep)| >= |sep|
  {
    if |xs| >= 2 {
      JoinLength(xs[1..], sep);
    }
  }

  /** With a non-empty separator the join is empty exactly when there is no
      part, or a single empty part. */
  lemma JoinEmptyIff(xs: seq<string>, sep: string)
    requires sep != ""
    ensures Join(xs, sep) == "" <==> (xs == [] || xs == [""])
  {
    JoinLength(xs, sep);
  }

  function DigitChar(d: nat): (c: char)
    requires d < 10
  {
    "0123456789"[d]
  }

  predicate IsDigit(c: char)
  {
    '0' <= c <= '9'
  }

  function DigitValue(c: char): (d: nat)
    requires IsDigit(c)
  {
    (c as int) - ('0' as int)
  }

  /** The decimal digits of `n`, as a template literal `${n}` renders a
      non-negative integer: no sign, no leading zeros. */
  function NatToString(n: nat): (r: string)
    ensures r != []
    ensures forall k :: 0 <= k < |r| ==> IsDigit(r[k])
    ensures (r[0] == '0') == (n == 0)
    decreases n
  {
    if n < 10 then [DigitChar(n)]
    else NatToString(n / 10) + [DigitChar(n % 10)]
  }

  /** The number a string of decimal digits denotes. */
  function ParseDigits(s: string): nat
    requires forall k :: 0 <= k < |s| ==> IsDigit(s[k])
  {
    if s == [] then 0
    else ParseDigits(s[..|s| - 1]) * 10 + DigitValue(s[|s| - 1])
  }

  lemma {:induction false} ParseNatToString(n: nat)
    ensures ParseDigits(NatToString(n)) == n
    decreases n
  {
    var r := NatToString(n);
    if n >= 10 {
      ParseNatToString(n / 10);
      assert r[..|r| - 1] == NatToString(n / 10);
    }
  }

  /** Distinct numbers render as distinct strings. */
  lemma NatToStringInjective(i: nat, j: nat)
    requires NatToString(i) == NatToString(j)
    ensures i == j
  {
    ParseNatToString(i);
    ParseNatToString(j);
  }
}

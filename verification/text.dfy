/** The few JavaScript string operations the listing modals rely on, over `seq<char>`. */
module Text {
  import opened Wrappers

  /** `s.startsWith(prefix)` */
  predicate StartsWith(s: string, prefix: string) {
    |prefix| <= |s| && s[..|prefix|] == prefix
  }

  /** `toLowerCase` on one character; only ASCII letters change (addresses are ASCII). */
  function LowerChar(c: char): char {
    if 'A' <= c <= 'Z' then (c as int - 'A' as int + 'a' as int) as char else c
  }

  function ToLower(s: string): (r: string)
    ensures |r| == |s|
    ensures forall i :: 0 <= i < |s| ==> r[i] == LowerChar(s[i])
  {
    if |s| == 0 then "" else [LowerChar(s[0])] + ToLower(s[1..])
  }

  /** `a.toLowerCase() === b.toLowerCase()` */
  predicate SameIgnoringCase(a: string, b: string) {
    ToLower(a) == ToLower(b)
  }

  /** Case-insensitive equality, stated character by character. */
  lemma SameIgnoringCaseCharwise(a: string, b: string)
    ensures SameIgnoringCase(a, b) <==>
      |a| == |b| && forall i :: 0 <= i < |a| ==> LowerChar(a[i]) == LowerChar(b[i])
  {
  }

  /** `sep` occurs in `s` at position `j`. */
  predicate OccursAt(s: string, sep: string, j: int) {
    0 <= j && j + |sep| <= |s| && s[j..j + |sep|] == sep
  }

  /** The first position at or after `k` where `sep` occurs in `s`. */
  function IndexFrom(s: string, sep: string, k: nat): (r: Option<nat>)
    requires |sep| > 0
    ensures r.Some? ==> k <= r.value && OccursAt(s, sep, r.value)
    ensures r.Some? ==> forall j :: k <= j < r.value ==> !OccursAt(s, sep, j)
    ensures r.None? ==> forall j :: k <= j ==> !OccursAt(s, sep, j)
    decreases |s| - k
  {
    if k + |sep| > |s| then None
    else if s[k..k + |sep|] == sep then Some(k)
    else IndexFrom(s, sep, k + 1)
  }

  /** `s.indexOf(sep)`, with `None` for -1. */
  function IndexOf(s: string, sep: string): Option<nat>
    requires |sep| > 0
  {
    IndexFrom(s, sep, 0)
  }

  /** `s.split(sep)` for a non-empty separator string. */
  function Split(s: string, sep: string): (parts: seq<string>)
    requires |sep| > 0
    ensures |parts| >= 1
    decreases |s|
  {
    match IndexOf(s, sep)
    case None => [s]
    case Some(i) => [s[..i]] + Split(s[i + |sep|..], sep)
  }

  /** `parts.join(sep)` */
  function Join(parts: seq<string>, sep: string): string
    requires |parts| >= 1
  {
    if |parts| == 1 then parts[0] else parts[0] + sep + Join(parts[1..], sep)
  }

  /** Splitting and joining again gives back the original string. */
  lemma {:induction false} SplitThenJoin(s: string, sep: string)
    requires |sep| > 0
    ensures Join(Split(s, sep), sep) == s
    decreases |s|
  {
    match IndexOf(s, sep)
    case None =>
    case Some(i) =>
      var rest := s[i + |sep|..];
      var parts := Split(s, sep);
      var tail := Split(rest, sep);
      assert parts == [s[..i]] + tail;
      assert parts[1..] == tail;
      SplitThenJoin(rest, sep);
      calc {
        Join(parts, sep);
        parts[0] + sep + Join(parts[1..], sep);
        s[..i] + sep + rest;
        { assert s[i..i + |sep|] == sep; assert s == s[..i] + s[i..i + |sep|] + rest; }
        s;
      }
  }

  /** When `sep` first occurs right after `prefix`, the first piece of the split is `prefix`. */
  lemma SplitAtFirstSeparator(prefix: string, sep: string, suffix: string)
    requires |sep| > 0
    requires IndexOf(prefix + sep[..|sep| - 1], sep).None?
    ensures Split(prefix + sep + suffix, sep) == [prefix] + Split(suffix, sep)
  {
    var s := prefix + sep + suffix;
    var early := prefix + sep[..|sep| - 1];
    forall j | 0 <= j < |prefix|
      ensures !OccursAt(s, sep, j)
    {
      assert !OccursAt(early, sep, j);
      assert s[j..j + |sep|] == early[j..j + |sep|];
    }
    assert OccursAt(s, sep, |prefix|);
    assert IndexOf(s, sep) == Some(|prefix|);
    assert s[|prefix| + |sep|..] == suffix;
    assert s[..|prefix|] == prefix;
  }

  /** A separator cannot occur where no window of its length starts and ends with its end characters. */
  lemma AbsentByEnds(s: string, sep: string)
    requires |sep| > 0
    requires forall j :: 0 <= j <= |s| - |sep| ==> s[j] != sep[0] || s[j + |sep| - 1] != sep[|sep| - 1]
    ensures IndexOf(s, sep).None?
  {
    forall j | 0 <= j && j + |sep| <= |s|
      ensures !OccursAt(s, sep, j)
    {
      var w := s[j..j + |sep|];
      assert w[0] == s[j] && w[|sep| - 1] == s[j + |sep| - 1];
    }
  }

  function DigitChar(d: nat): char
    requires d < 10
  {
    "0123456789"[d]
  }

  /** `String(n)` for a non-negative integer. */
  function NatToDecimal(n: nat): (r: string)
    ensures |r| >= 1
    ensures forall i :: 0 <= i < |r| ==> '0' <= r[i] <= '9'
    decreases n
  {
    if n < 10 then [DigitChar(n)] else NatToDecimal(n / 10) + [DigitChar(n % 10)]
  }

  /** The number a string of decimal digits denotes. */
  function DecimalValue(s: string): nat
    requires forall i :: 0 <= i < |s| ==> '0' <= s[i] <= '9'
  {
    if |s| == 0 then 0 else DecimalValue(s[..|s| - 1]) * 10 + (s[|s| - 1] as int - '0' as int)
  }

  /** Reading back the decimal text of `n` gives `n`. */
  lemma {:induction false} DecimalRoundTrip(n: nat)
    ensures DecimalValue(NatToDecimal(n)) == n
    decreases n
  {
    if n >= 10 {
      DecimalRoundTrip(n / 10);
      var front := NatToDecimal(n / 10);
      var d := DigitChar(n % 10);
      var r := front + [d];
      assert r == NatToDecimal(n);
      assert r[..|r| - 1] == front;
      assert d as int - '0' as int == n % 10;
      assert DecimalValue(r) == DecimalValue(front) * 10 + n % 10;
    } else {
      assert DigitChar(n) as int - '0' as int == n;
    }
  }
}

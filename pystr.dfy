/**
 * The Python string operations the core and the URL checks rely on:
 * `str.isspace()`, `str.strip()` with no argument, `str.find`, `str.split`,
 * `str.join` and `str.partition` with a one-character separator, the tail of
 * `str.rpartition`, and `str(n)` for an integer `n`.
 */
module PyStr {

  /**
   * The characters for which Python's `str.isspace()` is true: the
   * characters of Unicode category Zs and of bidirectional class WS, B or S.
   */
  predicate IsSpace(c: char)
    ensures c == ' ' || c == '\t' || c == '\n' || c == '\r' || c == '\U{A0}' ==> IsSpace(c)
    ensures IsSpace(c) ==> c != '\0' && !('0' <= c <= '9') && !('a' <= c <= 'z') && !('A' <= c <= 'Z')
  {
    ('\t' <= c <= '\r') || ('\U{1C}' <= c <= '\U{1F}') || c == ' ' ||
    c == '\U{85}' || c == '\U{A0}' || c == '\U{1680}' ||
    ('\U{2000}' <= c <= '\U{200A}') || c == '\U{2028}' || c == '\U{2029}' ||
    c == '\U{202F}' || c == '\U{205F}' || c == '\U{3000}'
  }

  /** How many whitespace characters `s` starts with. */
  function LeadingSpaces(s: string): (n: nat)
    ensures n <= |s|
    ensures forall k :: 0 <= k < n ==> IsSpace(s[k])
    ensures n < |s| ==> !IsSpace(s[n])
  {
    if s != [] && IsSpace(s[0]) then 1 + LeadingSpaces(s[1..]) else 0
  }

  /** How many whitespace characters `s` ends with. */
  function TrailingSpaces(s: string): (n: nat)
    ensures n <= |s|
    ensures forall k :: |s| - n <= k < |s| ==> IsSpace(s[k])
    ensures n < |s| ==> !IsSpace(s[|s| - 1 - n])
  {
    if s != [] && IsSpace(s[|s| - 1]) then 1 + TrailingSpaces(s[..|s| - 1]) else 0
  }

  /**
   * `s.strip()`: what is left of `s` once the whitespace at both ends is
   * removed; it neither starts nor ends with whitespace.
   */
  function Strip(s: string): (r: string)
    ensures Unpadded(r)
    ensures r == [] <==> forall k :: 0 <= k < |s| ==> IsSpace(s[k])
    ensures var i := LeadingSpaces(s);
      && i + |r| <= |s| && r == s[i..i + |r|]
      && (forall k :: i + |r| <= k < |s| ==> IsSpace(s[k]))
  {
    var i := LeadingSpaces(s);
    if i == |s| then []
    else
      var j := |s| - TrailingSpaces(s);
      assert !IsSpace(s[i]);
      s[i..j]
  }

  /** Neither the first nor the last character is whitespace. */
  predicate Unpadded(s: string)
  {
    s == [] || (!IsSpace(s[0]) && !IsSpace(s[|s| - 1]))
  }

  /** A string that neither starts nor ends with whitespace is left as it is. */
  lemma StripUnpadded(s: string)
    requires Unpadded(s)
    ensures Strip(s) == s
  {
    if s != [] {
      assert LeadingSpaces(s) == 0 && TrailingSpaces(s) == 0;
      assert s[0..|s|] == s;
    }
  }

  /** Stripping twice is stripping once. */
  lemma StripIdempotent(s: string)
    ensures Strip(Strip(s)) == Strip(s)
  {
    StripUnpadded(Strip(s));
  }

  /** `s.find(c)`: the first position of `c` in `s`, or -1. */
  function Find(s: string, c: char): (i: int)
    ensures i == -1 <==> c !in s
    ensures i != -1 ==> 0 <= i < |s| && s[i] == c && forall k :: 0 <= k < i ==> s[k] != c
  {
    if s == [] then -1
    else if s[0] == c then 0
    else
      var j := Find(s[1..], c);
      if j == -1 then -1 else j + 1
  }

  /** `c.join(parts)` for a one-character separator. */
  function Join(parts: seq<string>, c: char): (r: string)
    requires |parts| >= 1
    ensures |parts| == 1 ==> r == parts[0]
    ensures |parts| > 1 ==> |parts[0]| < |r| && r[|parts[0]|] == c
  {
    if |parts| == 1 then parts[0] else parts[0] + [c] + Join(parts[1..], c)
  }

  /** `s.split(c)`: the pieces between the occurrences of `c`, in order. */
  function Split(s: string, c: char): (parts: seq<string>)
    ensures |parts| >= 1
    ensures forall k :: 0 <= k < |parts| ==> c !in parts[k]
    ensures Join(parts, c) == s
    decreases |s|
  {
    var i := Find(s, c);
    if i == -1 then [s]
    else
      var rest := Split(s[i + 1..], c);
      SplitStep(s, c, i, rest);
      [s[..i]] + rest
  }

  /** The text before the first separator, followed by the pieces of the rest, are the pieces of `s`. */
  lemma SplitStep(s: string, c: char, i: nat, rest: seq<string>)
    requires i < |s| && s[i] == c && forall k :: 0 <= k < i ==> s[k] != c
    requires |rest| >= 1 && forall k :: 0 <= k < |rest| ==> c !in rest[k]
    requires Join(rest, c) == s[i + 1..]
    ensures var parts := [s[..i]] + rest;
      && (forall k :: 0 <= k < |parts| ==> c !in parts[k])
      && Join(parts, c) == s
  {
    var parts := [s[..i]] + rest;
    assert parts[0] == s[..i] && parts[1..] == rest;
    assert c !in s[..i] by {
      assert forall k :: 0 <= k < i ==> s[..i][k] == s[k];
    }
    assert forall k :: 1 <= k < |parts| ==> parts[k] == rest[k - 1];
    assert Join(parts, c) == s[..i] + [c] + Join(rest, c);
    assert s == s[..i] + [c] + s[i + 1..];
  }

  /** Splitting a join of pieces free of the separator gives the pieces back. */
  lemma {:induction false} SplitJoin(parts: seq<string>, c: char)
    requires |parts| >= 1
    requires forall k :: 0 <= k < |parts| ==> c !in parts[k]
    ensures Split(Join(parts, c), c) == parts
  {
    if |parts| > 1 {
      var p := parts[0];
      var t := Join(parts[1..], c);
      var s := Join(parts, c);
      assert s == p + [c] + t;
      FindAfterPiece(p, c, t);
      assert Split(s, c) == [p] + Split(t, c);
      SplitJoin(parts[1..], c);
      assert parts == [p] + parts[1..];
    } else {
      assert Find(parts[0], c) == -1;
    }
  }

  /** The first separator after a piece free of it is the one right after the piece. */
  lemma FindAfterPiece(p: string, c: char, t: string)
    requires c !in p
    ensures var s := p + [c] + t;
      Find(s, c) == |p| && s[..|p|] == p && s[|p| + 1..] == t
  {
    var s := p + [c] + t;
    assert s[|p|] == c;
    assert forall k :: 0 <= k < |p| ==> s[k] == p[k] && p[k] in p;
  }

  /** A join of pieces of at most `m` characters has at most `|parts| * (m + 1) - 1`. */
  lemma {:induction false} JoinBound(parts: seq<string>, c: char, m: nat)
    requires |parts| >= 1
    requires forall k :: 0 <= k < |parts| ==> |parts[k]| <= m
    ensures |Join(parts, c)| <= |parts| * (m + 1) - 1
  {
    if |parts| > 1 {
      JoinBound(parts[1..], c, m);
      assert |parts| * (m + 1) == (|parts| - 1) * (m + 1) + (m + 1);
    }
  }

  /**
   * `s.partition(c)`: the text before the first `c`, whether there is one,
   * and the text after it; without `c`, all of `s`, false and "".
   */
  function Partition(s: string, c: char): (r: (string, bool, string))
    ensures r.1 <==> c in s
    ensures !r.1 ==> r.0 == s && r.2 == ""
    ensures r.1 ==> s == r.0 + [c] + r.2
    ensures c !in r.0
  {
    var i := Find(s, c);
    if i == -1 then (s, false, "")
    else
      assert s == s[..i] + [c] + s[i + 1..];
      assert forall k :: 0 <= k < i ==> s[..i][k] == s[k];
      (s[..i], true, s[i + 1..])
  }

  /** Partitioning at a separator the text starts with leaves nothing before it. */
  lemma PartitionAtStart(s: string, c: char)
    ensures s != [] && s[0] == c ==> Partition(s, c) == ([], true, s[1..])
    ensures c in s && s[0] != c ==> Partition(s, c).0 != []
  {
    if s != [] && s[0] == c {
      assert Find(s, c) == 0;
    }
  }

  /** Partitioning a piece free of the separator, the separator and a rest gives those three. */
  lemma PartitionAfterPiece(p: string, c: char, t: string)
    requires c !in p
    ensures Partition(p + [c] + t, c) == (p, true, t)
  {
    FindAfterPiece(p, c, t);
  }

  /** `s.rfind(c)`: the last position of `c` in `s`, or -1. */
  function RFind(s: string, c: char): (i: int)
    ensures i == -1 <==> c !in s
    ensures i != -1 ==> 0 <= i < |s| && s[i] == c && forall k :: i < k < |s| ==> s[k] != c
  {
    if s == [] then -1
    else if s[|s| - 1] == c then |s| - 1
    else RFind(s[..|s| - 1], c)
  }

  /** `s.rpartition(c)[2]`: the text after the last `c`, or all of `s` when there is none. */
  function AfterLast(s: string, c: char): (r: string)
    ensures c !in r
    ensures |r| <= |s| && r == s[|s| - |r|..]
    ensures c !in s ==> r == s
    ensures c in s ==> |r| < |s| && s[|s| - |r| - 1] == c
  {
    var i := RFind(s, c);
    if i == -1 then s else s[i + 1..]
  }

  /** Every character of a join is the separator or comes from a piece. */
  lemma {:induction false} JoinChars(parts: seq<string>, c: char, d: char)
    requires |parts| >= 1
    requires d in Join(parts, c)
    ensures d == c || exists k :: 0 <= k < |parts| && d in parts[k]
  {
    if |parts| > 1 && d != c && d !in parts[0] {
      var j := Join(parts[1..], c);
      var s := parts[0] + [c] + j;
      var i :| 0 <= i < |s| && s[i] == d;
      assert s[i] == j[i - |parts[0]| - 1];
      JoinChars(parts[1..], c, d);
      var k :| 0 <= k < |parts[1..]| && d in parts[1..][k];
      assert d in parts[k + 1];
    }
  }

  function DigitChar(d: nat): (c: char)
    requires d < 10
    ensures '0' <= c <= '9'
  {
    ['0', '1', '2', '3', '4', '5', '6', '7', '8', '9'][d]
  }

  /** The decimal digits of `n`, most significant first, without leading zeros. */
  function Digits(n: nat): (r: string)
    ensures |r| > 0 && (r[0] == '0' ==> n == 0)
    ensures forall k :: 0 <= k < |r| ==> '0' <= r[k] <= '9'
  {
    if n < 10 then [DigitChar(n)] else Digits(n / 10) + [DigitChar(n % 10)]
  }

  /** The number a string of decimal digits denotes. */
  function DigitsValue(s: string): nat
    requires forall k :: 0 <= k < |s| ==> '0' <= s[k] <= '9'
  {
    if s == [] then 0 else 10 * DigitsValue(s[..|s| - 1]) + (s[|s| - 1] as int - '0' as int)
  }

  /** `str(i)` for a Python `int`: an optional minus sign and the digits of `|i|`. */
  function IntToStr(i: int): (r: string)
    ensures |r| > 0 && Unpadded(r)
    ensures forall k :: 0 <= k < |r| ==> r[k] != '\0'
  {
    if i < 0 then "-" + Digits(-i) else Digits(i)
  }

  /** Reading the digits back gives the number: `int(str(n)) == n`. */
  lemma {:induction false} DigitsRoundTrip(n: nat)
    ensures DigitsValue(Digits(n)) == n
  {
    if n >= 10 {
      DigitsRoundTrip(n / 10);
      var d := Digits(n / 10) + [DigitChar(n % 10)];
      assert d[..|d| - 1] == Digits(n / 10);
    }
  }
}

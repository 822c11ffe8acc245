/**
 * Which strings `ipaddress.ip_address` (CPython 3.12.13) accepts: a
 * dotted-quad IPv4 address, or an IPv6 address of at most 45 characters in
 * full or `::`-compressed form, with an optional trailing IPv4 part and an
 * optional `%scope` suffix.
 *
 * CPython splits an IPv6 address with `split(':', maxsplit=9)`; the model
 * uses a plain split. The two agree on every address with at most nine
 * parts, and both refuse every address with more: the plain split leaves
 * more than nine parts, and CPython's tenth part is either refused by the
 * part count or, when it holds a `.`, by the IPv4 parse, since it holds a
 * `:`.
 */
module PyIpAddress {
  import PyStr

  predicate AsciiDigit(c: char)
  {
    '0' <= c <= '9'
  }

  predicate HexDigit(c: char)
  {
    AsciiDigit(c) || 'a' <= c <= 'f' || 'A' <= c <= 'F'
  }

  /**
   * One decimal octet of an IPv4 address: one to three ASCII digits, no
   * leading zero unless the octet is `0`, and at most 255.
   */
  predicate OctetValid(p: string)
  {
    && p != []
    && (forall k :: 0 <= k < |p| ==> AsciiDigit(p[k]))
    && |p| <= 3
    && (p == "0" || p[0] != '0')
    && PyStr.DigitsValue(p) <= 255
  }

  /** Four valid octets. */
  predicate FourOctets(octets: seq<string>)
  {
    |octets| == 4 && forall k :: 0 <= k < 4 ==> OctetValid(octets[k])
  }

  /**
   * `IPv4Address(s)` succeeds: no `/`, and exactly four valid octets between
   * dots. Such an address is non-empty, at most 15 characters long, and made
   * of decimal digits and dots.
   */
  predicate Ipv4Valid(s: string)
    ensures Ipv4Valid(s) ==>
      && s != [] && |s| <= 15
      && forall k :: 0 <= k < |s| ==> AsciiDigit(s[k]) || s[k] == '.'
  {
    var octets := PyStr.Split(s, '.');
    if '/' !in s && FourOctets(octets) then OctetsJoined(octets); true else false
  }

  /** Four valid octets joined by dots: non-empty, at most 15 characters, digits and dots. */
  lemma OctetsJoined(octets: seq<string>)
    requires FourOctets(octets)
    ensures var s := PyStr.Join(octets, '.');
      && s != [] && |s| <= 15
      && forall k :: 0 <= k < |s| ==> AsciiDigit(s[k]) || s[k] == '.'
  {
    var s := PyStr.Join(octets, '.');
    PyStr.JoinBound(octets, '.', 3);
    forall k | 0 <= k < |s| ensures AsciiDigit(s[k]) || s[k] == '.' {
      var c := s[k];
      PyStr.JoinChars(octets, '.', c);
      if c != '.' {
        var j :| 0 <= j < 4 && c in octets[j];
        var i :| 0 <= i < |octets[j]| && octets[j][i] == c;
      }
    }
  }

  /** One group of an IPv6 address: one to four hexadecimal digits. */
  predicate HextetValid(h: string)
  {
    h != [] && |h| <= 4 && forall k :: 0 <= k < |h| ==> HexDigit(h[k])
  }

  /** The positions in `[start, stop)` whose part is empty, in increasing order. */
  function EmptyPositions(parts: seq<string>, start: nat, stop: nat): (r: seq<nat>)
    requires stop <= |parts|
    ensures forall k :: 0 <= k < |r| ==> start <= r[k] < stop && parts[r[k]] == ""
    ensures forall i :: start <= i < stop && parts[i] == "" ==> i in r
    decreases stop - start
  {
    if start >= stop then []
    else (if parts[start] == "" then [start] else []) + EmptyPositions(parts, start + 1, stop)
  }

  /**
   * The colon-separated parts of an IPv6 address form eight groups: between
   * three and nine parts; at most one empty part strictly inside, which
   * stands for one or more zero groups (`::`); an empty first or last part
   * only as the other half of that `::`; every written group valid.
   */
  predicate HextetsValid(parts: seq<string>)
    ensures HextetsValid(parts) ==> forall i :: 0 <= i < |parts| ==> parts[i] == "" || HextetValid(parts[i])
  {
    && 3 <= |parts| <= 9
    && var skips := EmptyPositions(parts, 1, |parts| - 1);
       if |skips| > 1 then false
       else if |skips| == 1 then SkipValid(parts, skips[0])
       else |parts| == 8 && forall i :: 0 <= i < 8 ==> HextetValid(parts[i])
  }

  /**
   * The parts around the one `::` at `skip`: `parts_hi` groups before it and
   * `parts_lo` after it, an empty end counting only as half of the `::`,
   * fewer than eight groups in all, each of them valid.
   */
  predicate SkipValid(parts: seq<string>, skip: nat)
    requires 1 <= skip < |parts| - 1 && parts[skip] == ""
    ensures SkipValid(parts, skip) ==> forall i :: 0 <= i < |parts| ==> parts[i] == "" || HextetValid(parts[i])
  {
    var n := |parts|;
    var hi := if parts[0] == "" then 0 else skip;
    var lo := if parts[n - 1] == "" then 0 else n - skip - 1;
    && (parts[0] == "" ==> skip == 1)
    && (parts[n - 1] == "" ==> skip == n - 2)
    && hi + lo < 8
    && (forall i :: 0 <= i < hi ==> HextetValid(parts[i]))
    && (forall i :: n - lo <= i < n ==> HextetValid(parts[i]))
  }

  /**
   * The address part of an IPv6 address (without scope): non-empty, at most
   * 45 characters, at least three colon-separated parts. A last part holding
   * a `.` must be a valid IPv4 address and counts as two groups. Such an
   * address holds a `:`.
   */
  predicate Ipv6AddressValid(a: string)
    ensures Ipv6AddressValid(a) ==> ':' in a
  {
    var parts := PyStr.Split(a, ':');
    var last := parts[|parts| - 1];
    && a != []
    && |a| <= 45
    && |parts| >= 3
    && if '.' in last then Ipv4Valid(last) && HextetsValid(parts[..|parts| - 1] + ["0", "0"])
       else HextetsValid(parts)
  }

  /**
   * `IPv6Address(s)` succeeds: no `/`, a valid address, and a non-empty scope
   * after a `%`. Such a string holds a `:`, so it is never also an IPv4
   * address, whichever `ip_address` tries first.
   */
  predicate Ipv6Valid(s: string)
    ensures Ipv6Valid(s) ==> ':' in s && !Ipv4Valid(s)
  {
    var k := PyStr.Find(s, '%');
    && '/' !in s
    && if k == -1 then Ipv6AddressValid(s)
       else var scope := s[k + 1..]; scope != [] && '%' !in scope && Ipv6AddressValid(s[..k])
  }

  /** `str(n)` of a byte value is a valid octet. */
  lemma OctetOfByte(n: nat)
    requires n <= 255
    ensures OctetValid(PyStr.Digits(n))
  {
    PyStr.DigitsRoundTrip(n);
    DigitsLength(n);
  }

  /** A number below 1000 has at most three digits. */
  lemma DigitsLength(n: nat)
    requires n < 1000
    ensures |PyStr.Digits(n)| <= 3
  {
    if n >= 10 {
      assert |PyStr.Digits(n)| == |PyStr.Digits(n / 10)| + 1;
      if n / 10 >= 10 {
        assert |PyStr.Digits(n / 10)| == |PyStr.Digits(n / 100)| + 1;
      }
    }
  }

  /**
   * The dotted-quad form, stated directly: a string is a valid IPv4 address
   * exactly when it is four valid octets joined by dots.
   */
  lemma Ipv4DottedQuad(s: string)
    ensures Ipv4Valid(s) <==> exists octets :: FourOctets(octets) && PyStr.Join(octets, '.') == s
  {
    if octets :| FourOctets(octets) && PyStr.Join(octets, '.') == s {
      forall k | 0 <= k < 4 ensures '.' !in octets[k] && '/' !in octets[k] {
        assert forall i :: 0 <= i < |octets[k]| ==> AsciiDigit(octets[k][i]);
      }
      PyStr.SplitJoin(octets, '.');
      if '/' in s {
        PyStr.JoinChars(octets, '.', '/');
      }
    }
  }

  /** Eight valid groups joined by colons form a valid IPv6 address. */
  lemma Ipv6FullForm(groups: seq<string>)
    requires |groups| == 8 && forall k :: 0 <= k < 8 ==> HextetValid(groups[k])
    ensures Ipv6Valid(PyStr.Join(groups, ':'))
  {
    var s := PyStr.Join(groups, ':');
    forall k | 0 <= k < 8 ensures ':' !in groups[k] && '/' !in groups[k] && '%' !in groups[k] && '.' !in groups[k] {
      assert forall i :: 0 <= i < |groups[k]| ==> HexDigit(groups[k][i]);
    }
    PyStr.SplitJoin(groups, ':');
    if '/' in s { PyStr.JoinChars(groups, ':', '/'); }
    if '%' in s { PyStr.JoinChars(groups, ':', '%'); }
    assert s != [] by { assert |s| >= |groups[0]|; }
    PyStr.JoinBound(groups, ':', 4);
    assert EmptyPositions(groups, 1, 7) == [];
  }

  /** The compressed loopback address `::1` is a valid IPv6 address. */
  lemma Ipv6Loopback()
    ensures Ipv6Valid("::1")
  {
    LoopbackSplit();
    LoopbackHextets();
    assert '.' !in "1";
  }

  /** `::1` splits into an empty first part, the `::` and one group, and has no scope and no `/`. */
  lemma LoopbackSplit()
    ensures PyStr.Split("::1", ':') == ["", "", "1"]
    ensures PyStr.Find("::1", '%') == -1 && '/' !in "::1"
  {
    var parts := ["", "", "1"];
    assert PyStr.Join(parts[1..], ':') == ":1";
    SplitParts(parts, "::1");
  }

  /** The parts `""`, `""`, `"1"` are a `::` followed by one group. */
  lemma LoopbackHextets()
    ensures HextetsValid(["", "", "1"])
  {
    var parts := ["", "", "1"];
    assert SkipValid(parts, 1) by { assert HextetValid("1"); }
    assert EmptyPositions(parts, 1, 2) == [1];
  }

  /**
   * Pieces free of `:`, `%` and `/` joined by colons: the string splits into
   * those pieces and holds neither `%` nor `/`.
   */
  lemma SplitParts(parts: seq<string>, s: string)
    requires |parts| >= 1
    requires forall k :: 0 <= k < |parts| ==> ':' !in parts[k] && '%' !in parts[k] && '/' !in parts[k]
    requires PyStr.Join(parts, ':') == s
    ensures PyStr.Split(s, ':') == parts
    ensures PyStr.Find(s, '%') == -1 && '/' !in s
  {
    PyStr.SplitJoin(parts, ':');
    if '%' in s { PyStr.JoinChars(parts, ':', '%'); }
    if '/' in s { PyStr.JoinChars(parts, ':', '/'); }
  }

  /** Text without a dot is no IPv4 address. */
  lemma NoDotNotIpv4(s: string)
    requires '.' !in s
    ensures !Ipv4Valid(s)
  {
    assert PyStr.Split(s, '.') == [s];
  }
}

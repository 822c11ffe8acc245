/**
 * The checks `urllib.request.Request(url)` (CPython 3.12.13) makes before it
 * returns, each of which raises `ValueError`:
 *
 *  - setting `full_url` unwraps the URL, splits off the fragment and refuses
 *    a URL that does not start with a scheme (`unknown url type`), that is,
 *    when the pattern `([^/:]+):` does not match at its start;
 *  - `request_host` then runs `urlsplit` on the reassembled URL, which
 *    refuses a network location holding only one of `[` and `]`;
 *  - when it holds both, `urlsplit` looks at the host and port after the
 *    last `@` and refuses text before a `[`, and text after the first `]`
 *    that does not start with `:`; the host (between the brackets, or up to
 *    the first `:` when there is no `[` after the `@`) must be an IPvFuture
 *    literal or an IPv6 address;
 *  - last, it refuses a non-ASCII network location that NFKC normalisation
 *    turns into one holding `/`, `?`, `#`, `@` or `:`.
 *
 * NFKC normalisation needs the Unicode tables, so it is a parameter.
 */
module PyUrl {
  import opened Wrappers
  import PyStr
  import PyIpAddress

  /** Why `Request(url)` refuses a URL. */
  datatype UrlError =
    | UnknownUrlType      // "unknown url type: ..."
    | InvalidIpv6Url      // "Invalid IPv6 URL"
    | InvalidIpvFuture    // "IPvFuture address is invalid"
    | BracketedIpv4       // "An IPv4 address cannot be in brackets"
    | NotAnIpAddress      // "... does not appear to be an IPv4 or IPv6 address"
    | NetlocNfkcUnsafe    // "netloc ... contains invalid characters under NFKC normalization"

  /** `unwrap(url)`: strip, drop one pair of enclosing `<` `>`, drop a leading `URL:`. */
  function Unwrap(url: string): (r: string)
    ensures forall c :: c in r ==> c in url
  {
    var u := PyStr.Strip(url);
    StripKeepsChars(url);
    var v := if |u| >= 1 && u[0] == '<' && u[|u| - 1] == '>' then Unbracket(u) else u;
    if |v| >= 4 && v[..4] == "URL:" then StripKeepsChars(v[4..]); PyStr.Strip(v[4..]) else v
  }

  /** `url[1:-1].strip()` of a URL in angle brackets. */
  function Unbracket(u: string): (r: string)
    requires |u| >= 2
    ensures forall c :: c in r ==> c in u
  {
    StripKeepsChars(u[1..|u| - 1]);
    PyStr.Strip(u[1..|u| - 1])
  }

  /** Every character `str.strip()` keeps comes from its input. */
  lemma StripKeepsChars(s: string)
    ensures forall c :: c in PyStr.Strip(s) ==> c in s
  {
    var r := PyStr.Strip(s);
    var i := PyStr.LeadingSpaces(s);
    forall c | c in r ensures c in s {
      var k :| 0 <= k < |r| && r[k] == c;
      assert s[i + k] == c;
    }
  }

  /** `_splittag(url)[0]`: the URL without its fragment, cut at the last `#`. */
  function DropFragment(url: string): (r: string)
    ensures '#' !in url ==> r == url
    ensures '#' in url ==> |r| < |url| && r == url[..|r|] && url[|r|] == '#' && '#' !in url[|r| + 1..]
  {
    if '#' !in url then url
    else if url[|url| - 1] == '#' then url[..|url| - 1]
    else
      var r := DropFragment(url[..|url| - 1]);
      assert url[|r| + 1..] == url[..|url| - 1][|r| + 1..] + [url[|url| - 1]];
      r
  }

  /** The URL the constructor looks for a scheme in. */
  function ParsedUrl(url: string): (r: string)
    ensures forall c :: c in r ==> c in url
  {
    var u := Unwrap(url);
    var r := DropFragment(u);
    assert forall c :: c in r ==> c in u;
    r
  }

  /** The position of the first `/` or `:`, or the length when there is none. */
  function SeparatorIndex(s: string): (k: nat)
    ensures k <= |s|
    ensures forall i :: 0 <= i < k ==> s[i] != '/' && s[i] != ':'
    ensures k < |s| ==> s[k] == '/' || s[k] == ':'
  {
    if s == [] || s[0] == '/' || s[0] == ':' then 0 else 1 + SeparatorIndex(s[1..])
  }

  /** `_splittype` finds a scheme: `([^/:]+):` matches at the start, so `s` has a `:` but does not start with one. */
  predicate HasScheme(s: string)
    ensures HasScheme(s) ==> ':' in s && s[0] != ':' && s[0] != '/'
  {
    var k := SeparatorIndex(s);
    0 < k < |s| && s[k] == ':'
  }

  /** The pattern, stated directly: a non-empty run free of `/` and `:`, then `:`. */
  lemma HasSchemeMeansPattern(s: string)
    ensures HasScheme(s) <==>
      exists k :: 0 < k < |s| && s[k] == ':' && forall i :: 0 <= i < k ==> s[i] != '/' && s[i] != ':'
  {
    if k :| 0 < k < |s| && s[k] == ':' && forall i :: 0 <= i < k ==> s[i] != '/' && s[i] != ':' {
      assert SeparatorIndex(s) == k;
    }
  }

  /**
   * The `full_url` property: the unwrapped URL with its fragment put back,
   * which drops a `#` that had nothing after it.
   */
  function FullUrl(url: string): (r: string)
    ensures '#' !in Unwrap(url) ==> r == Unwrap(url)
    ensures ParsedUrl(url) <= r
  {
    var u := Unwrap(url);
    var base := DropFragment(u);
    if u != [] && u[|u| - 1] == '#' then
      assert '#' in u && base == u[..|u| - 1];
      u[..|u| - 1]
    else u
  }

  /** `url.lstrip(_WHATWG_C0_CONTROL_OR_SPACE)`: drop leading characters up to `' '`. */
  function LstripC0(s: string): (r: string)
    ensures |r| <= |s| && r == s[|s| - |r|..]
    ensures r != [] ==> r[0] > ' '
    ensures forall k :: 0 <= k < |s| - |r| ==> s[k] <= ' '
  {
    if s != [] && s[0] <= ' ' then LstripC0(s[1..]) else s
  }

  /** `s` with every character of `cs` removed. */
  function Remove(s: string, cs: set<char>): (r: string)
    ensures forall c :: c in r <==> c in s && c !in cs
    ensures Avoids(s, cs) ==> r == s
  {
    if s == [] then []
    else (if s[0] in cs then [] else [s[0]]) + Remove(s[1..], cs)
  }

  /** The characters `urlsplit` deletes wherever they occur. */
  const UNSAFE_BYTES: set<char> := {'\t', '\r', '\n'}

  /** A character allowed in a scheme name. */
  predicate SchemeChar(c: char)
  {
    PyIpAddress.AsciiDigit(c) || AsciiLetter(c) || c == '+' || c == '-' || c == '.'
  }

  predicate AsciiLetter(c: char)
  {
    'a' <= c <= 'z' || 'A' <= c <= 'Z'
  }

  /**
   * What `urlsplit` parses after the scheme: the text after the first `:`
   * when everything before it is a scheme name starting with a letter, and
   * otherwise all of `u`.
   */
  function AfterScheme(u: string): (r: string)
    ensures r == u || (':' in u && r == u[PyStr.Find(u, ':') + 1..])
  {
    var i := PyStr.Find(u, ':');
    if i > 0 && AsciiLetter(u[0]) && forall k :: 0 <= k < i ==> SchemeChar(u[k]) then u[i + 1..] else u
  }

  /** The first position from `start` on holding `/`, `?` or `#`, or the length. */
  function DelimiterIndex(s: string, start: nat): (k: nat)
    requires start <= |s|
    ensures start <= k <= |s|
    ensures forall i :: start <= i < k ==> s[i] !in {'/', '?', '#'}
    ensures k < |s| ==> s[k] in {'/', '?', '#'}
    decreases |s| - start
  {
    if start == |s| || s[start] in {'/', '?', '#'} then start else DelimiterIndex(s, start + 1)
  }

  /** `_splitnetloc(rest, 2)[0]`: the network location after a leading `//`. */
  function Netloc(rest: string): (netloc: string)
    requires |rest| >= 2
    ensures forall c :: c in netloc ==> c in rest[2..] && c !in {'/', '?', '#'}
  {
    var k := DelimiterIndex(rest, 2);
    var netloc := rest[2..k];
    assert forall i :: 0 <= i < |netloc| ==> netloc[i] == rest[i + 2];
    netloc
  }

  /**
   * The IPvFuture form `\Av[a-fA-F0-9]+\..+\Z`: `v`, one or more hexadecimal
   * digits, a dot, and at least one more character, none of them a newline.
   */
  predicate IpvFuture(h: string)
    ensures IpvFuture(h) ==> |h| >= 4 && h[0] == 'v' && PyIpAddress.HexDigit(h[1]) && '.' in h
  {
    var k := HexRun(h, 1);
    |h| >= 1 && h[0] == 'v' && 1 < k && k + 1 < |h| && h[k] == '.' && '\n' !in h[k + 1..]
  }

  /** The IPvFuture form, stated with a dot position instead of the digit run. */
  lemma IpvFutureMeansPattern(h: string)
    ensures IpvFuture(h) <==>
      exists k :: (&& 1 < k < |h| - 1 && h[0] == 'v' && h[k] == '.' && '\n' !in h[k + 1..]
                   && forall i :: 1 <= i < k ==> PyIpAddress.HexDigit(h[i]))
  {
    var r := HexRun(h, 1);
    if IpvFuture(h) {
      assert 1 < r < |h| - 1 && h[r] == '.';
    }
  }

  /** The end of the run of hexadecimal digits that starts at `start`. */
  function HexRun(h: string, start: nat): (k: nat)
    ensures start <= |h| ==> start <= k <= |h| && forall i :: start <= i < k ==> PyIpAddress.HexDigit(h[i])
    ensures start <= k < |h| ==> !PyIpAddress.HexDigit(h[k])
    decreases |h| - start
  {
    if start < |h| && PyIpAddress.HexDigit(h[start]) then HexRun(h, start + 1) else start
  }

  /** `_check_bracketed_host(h)`: what is between the brackets must be an IPvFuture literal or an IPv6 address. */
  function BracketedHostError(h: string): (e: Option<UrlError>)
    ensures e != Some(UnknownUrlType)
    ensures e == None <==> (if h != [] && h[0] == 'v' then IpvFuture(h) else !PyIpAddress.Ipv4Valid(h) && PyIpAddress.Ipv6Valid(h))
  {
    if h != [] && h[0] == 'v' then (if IpvFuture(h) then None else Some(InvalidIpvFuture))
    else if PyIpAddress.Ipv4Valid(h) then Some(BracketedIpv4)
    else if PyIpAddress.Ipv6Valid(h) then None
    else Some(NotAnIpAddress)
  }

  /**
   * `_check_bracketed_netloc(netloc)`: in the host and port after the last
   * `@`, no text may come before a `[`, and after the first `]` only a port
   * starting with `:`; the host, between the brackets or else up to the
   * first `:`, must pass `_check_bracketed_host`.
   */
  function BracketedNetlocError(netloc: string): (e: Option<UrlError>)
    ensures e != Some(UnknownUrlType)
    ensures var hp := PyStr.AfterLast(netloc, '@');
      '[' in hp && hp[0] != '[' ==> e == Some(InvalidIpv6Url)
  {
    var hp := PyStr.AfterLast(netloc, '@');
    var p := PyStr.Partition(hp, '[');
    PyStr.PartitionAtStart(hp, '[');
    if !p.1 then BracketedHostError(PyStr.Partition(hp, ':').0)
    else if p.0 != [] then Some(InvalidIpv6Url)
    else
      var q := PyStr.Partition(p.2, ']');
      if q.2 != [] && q.2[0] != ':' then Some(InvalidIpv6Url) else BracketedHostError(q.0)
  }

  predicate IsAscii(s: string)
  {
    forall k :: 0 <= k < |s| ==> s[k] < '\U{80}'
  }

  /**
   * `_checknetloc(netloc)`: a non-ASCII network location is refused when
   * NFKC normalisation changes it (with `@`, `:`, `#` and `?` removed) into
   * text holding one of `/?#@:`.
   */
  function NetlocNfkcError(netloc: string, nfkc: string -> string): (e: Option<UrlError>)
    ensures IsAscii(netloc) ==> e == None
    ensures e.Some? ==> e == Some(NetlocNfkcUnsafe)
  {
    if IsAscii(netloc) then None
    else
      var n := Remove(netloc, {'@', ':', '#', '?'});
      var n2 := nfkc(n);
      if n == n2 then None
      else if exists k :: 0 <= k < |n2| && n2[k] in {'/', '?', '#', '@', ':'} then Some(NetlocNfkcUnsafe)
      else None
  }

  /** The checks `urlsplit` makes on a network location, in its order. */
  function NetlocError(netloc: string, nfkc: string -> string): (e: Option<UrlError>)
    ensures e != Some(UnknownUrlType)
    ensures ('[' in netloc) != (']' in netloc) ==> e == Some(InvalidIpv6Url)
    ensures '[' !in netloc && ']' !in netloc ==> e == NetlocNfkcError(netloc, nfkc)
    ensures '[' in netloc && ']' in netloc ==>
      e == (var b := BracketedNetlocError(netloc); if b.Some? then b else NetlocNfkcError(netloc, nfkc))
  {
    if ('[' in netloc) != (']' in netloc) then Some(InvalidIpv6Url)
    else if '[' in netloc then
      var b := BracketedNetlocError(netloc);
      if b.Some? then b else NetlocNfkcError(netloc, nfkc)
    else NetlocNfkcError(netloc, nfkc)
  }

  /** Whether `urlsplit(url)` raises, and why: only a `//` network location is checked. */
  function SplitError(url: string, nfkc: string -> string): (e: Option<UrlError>)
    ensures e != Some(UnknownUrlType)
  {
    var rest := AfterScheme(Remove(LstripC0(url), UNSAFE_BYTES));
    if |rest| >= 2 && rest[..2] == "//" then NetlocError(Netloc(rest), nfkc) else None
  }

  /** Whether `Request(url)` raises, and why: the scheme check comes first. */
  function RequestError(url: string, nfkc: string -> string): (e: Option<UrlError>)
    ensures !HasScheme(ParsedUrl(url)) <==> e == Some(UnknownUrlType)
    ensures HasScheme(ParsedUrl(url)) ==> e == SplitError(FullUrl(url), nfkc)
  {
    if !HasScheme(ParsedUrl(url)) then Some(UnknownUrlType) else SplitError(FullUrl(url), nfkc)
  }

  /** Whether `Request(url)` returns instead of raising `ValueError`. */
  predicate Accepts(url: string, nfkc: string -> string)
  {
    RequestError(url, nfkc).None?
  }

  /** A URL that needs no unwrapping and has no fragment is parsed as it is. */
  lemma PlainUrl(url: string)
    requires PyStr.Unpadded(url)
    requires url != [] && url[0] != '<'
    requires |url| < 4 || url[..4] != "URL:"
    requires '#' !in url
    ensures ParsedUrl(url) == url && FullUrl(url) == url
  {
    PyStr.StripUnpadded(url);
  }

  /** A URL that opens with a scheme and carries no fragment passes the scheme check. */
  lemma {:induction false} SchemeFound(scheme: string, rest: string)
    requires scheme != [] && scheme[0] != '<' && scheme[..1] != "U"
    requires forall i :: 0 <= i < |scheme| ==> scheme[i] != '/' && scheme[i] != ':' && !PyStr.IsSpace(scheme[i])
    requires rest != [] && !PyStr.IsSpace(rest[|rest| - 1])
    requires '#' !in scheme && '#' !in rest
    ensures ParsedUrl(scheme + ":" + rest) == scheme + ":" + rest
    ensures FullUrl(scheme + ":" + rest) == scheme + ":" + rest
    ensures HasScheme(scheme + ":" + rest)
  {
    var url := scheme + ":" + rest;
    assert url[0] == scheme[0] && url[|url| - 1] == rest[|rest| - 1];
    assert url[..1] == scheme[..1];
    assert '#' !in url by {
      forall i | 0 <= i < |url| ensures url[i] != '#' {
        if i < |scheme| { assert url[i] in scheme; }
        else if i > |scheme| { assert url[i] == rest[i - |scheme| - 1]; assert url[i] in rest; }
      }
    }
    PlainUrl(url);
    HasSchemeMeansPattern(url);
    assert url[|scheme|] == ':';
  }

  /**
   * A URL `scheme://netloc path` with a plain scheme name, no fragment and no
   * tab or line break is refused exactly when its network location is.
   */
  lemma HierarchicalUrl(scheme: string, netloc: string, path: string, nfkc: string -> string)
    requires scheme != [] && AsciiLetter(scheme[0]) && scheme[0] != 'U'
    requires forall i :: 0 <= i < |scheme| ==> SchemeChar(scheme[i])
    requires forall i :: 0 <= i < |netloc| ==> netloc[i] !in {'/', '?', '#', '\t', '\r', '\n'}
    requires path != [] && path[0] == '/' && !PyStr.IsSpace(path[|path| - 1])
    requires forall i :: 0 <= i < |path| ==> path[i] !in {'#', '\t', '\r', '\n'}
    ensures RequestError(scheme + "://" + netloc + path, nfkc) == NetlocError(netloc, nfkc)
  {
    var rest := "//" + netloc + path;
    var url := scheme + ":" + rest;
    assert url == scheme + "://" + netloc + path;
    PlainRest(netloc, path);
    SchemeNameChars(scheme);
    SchemeFound(scheme, rest);
    SchemeSplit(scheme, rest);
    ConcatAvoids(scheme + ":", rest, UNSAFE_BYTES);
    assert Remove(LstripC0(url), UNSAFE_BYTES) == url;
    DelimiterAfterNetloc(netloc, path);
    assert SplitError(url, nfkc) == NetlocError(netloc, nfkc);
  }

  /** No character of `s` is in `cs`. */
  predicate Avoids(s: string, cs: set<char>)
  {
    forall i :: 0 <= i < |s| ==> s[i] !in cs
  }

  lemma ConcatAvoids(a: string, b: string, cs: set<char>)
    requires Avoids(a, cs) && Avoids(b, cs)
    ensures Avoids(a + b, cs)
  {
    assert forall i :: |a| <= i < |a + b| ==> (a + b)[i] == b[i - |a|];
  }

  /** The text after the scheme of `//netloc path` has no fragment, tab or line break. */
  lemma PlainRest(netloc: string, path: string)
    requires forall i :: 0 <= i < |netloc| ==> netloc[i] !in {'#', '\t', '\r', '\n'}
    requires path != [] && !PyStr.IsSpace(path[|path| - 1])
    requires forall i :: 0 <= i < |path| ==> path[i] !in {'#', '\t', '\r', '\n'}
    ensures var rest := "//" + netloc + path;
      && rest != [] && !PyStr.IsSpace(rest[|rest| - 1]) && '#' !in rest
      && Avoids(rest, UNSAFE_BYTES)
  {
    var rest := "//" + netloc + path;
    assert rest[|rest| - 1] == path[|path| - 1];
    forall i | 0 <= i < |rest| ensures rest[i] !in UNSAFE_BYTES && rest[i] != '#' {
      if 2 <= i < 2 + |netloc| { assert rest[i] == netloc[i - 2]; }
      else if i >= 2 + |netloc| { assert rest[i] == path[i - 2 - |netloc|]; }
    }
  }

  /** The characters of a scheme name are none of those the URL checks look for. */
  lemma SchemeNameChars(scheme: string)
    requires scheme != [] && scheme[0] != 'U'
    requires forall i :: 0 <= i < |scheme| ==> SchemeChar(scheme[i])
    ensures scheme[..1] != "U"
    ensures forall i :: 0 <= i < |scheme| ==> scheme[i] != '/' && scheme[i] != ':' && !PyStr.IsSpace(scheme[i]) && scheme[i] != '#' && scheme[i] != '<'
    ensures Avoids(scheme + ":", UNSAFE_BYTES)
  {
    assert scheme[..1] == [scheme[0]];
    assert forall i :: 0 <= i < |scheme| ==> (scheme + ":")[i] == scheme[i];
  }

  /** After a plain scheme name and its `:`, `urlsplit` goes on with the rest. */
  lemma SchemeSplit(scheme: string, rest: string)
    requires scheme != [] && AsciiLetter(scheme[0])
    requires forall i :: 0 <= i < |scheme| ==> SchemeChar(scheme[i])
    ensures AfterScheme(scheme + ":" + rest) == rest
  {
    var url := scheme + ":" + rest;
    assert forall i :: 0 <= i < |scheme| ==> url[i] == scheme[i] && url[i] != ':';
    assert url[|scheme|] == ':';
    assert PyStr.Find(url, ':') == |scheme|;
    assert url[|scheme| + 1..] == rest;
  }

  /** The network location of `//netloc path` ends where `path` begins. */
  lemma DelimiterAfterNetloc(netloc: string, path: string)
    requires forall i :: 0 <= i < |netloc| ==> netloc[i] !in {'/', '?', '#'}
    requires path != [] && path[0] == '/'
    ensures ("//" + netloc + path)[..2] == "//"
    ensures Netloc("//" + netloc + path) == netloc
  {
    var rest := "//" + netloc + path;
    assert rest[2 + |netloc|] == '/';
    assert forall i :: 2 <= i < 2 + |netloc| ==> rest[i] == netloc[i - 2];
    assert DelimiterIndex(rest, 2) == 2 + |netloc|;
  }

  /** A URL without any `:` is refused as having no scheme. */
  lemma {:induction false} NoColonRefused(url: string, nfkc: string -> string)
    requires ':' !in url
    ensures RequestError(url, nfkc) == Some(UnknownUrlType)
  {
    var p := ParsedUrl(url);
    assert forall i :: 0 <= i < |p| ==> p[i] != ':' by {
      forall i | 0 <= i < |p| ensures p[i] != ':' { assert p[i] in p; }
    }
  }

  /**
   * For a network location `[h]port` with no `@`, a port after the `]` that
   * does not start with `:` is refused; otherwise `urlsplit` checks `h` and
   * then the NFKC rule.
   */
  lemma BracketedHostPort(h: string, port: string, nfkc: string -> string)
    requires '[' !in h && ']' !in h && '@' !in h && '@' !in port
    ensures var netloc := "[" + h + "]" + port;
      NetlocError(netloc, nfkc) ==
        if port != [] && port[0] != ':' then Some(InvalidIpv6Url)
        else var b := BracketedHostError(h); if b.Some? then b else NetlocNfkcError(netloc, nfkc)
  {
    var netloc := "[" + h + "]" + port;
    assert netloc[0] == '[' && netloc[|h| + 1] == ']';
    BracketedNetlocOf(h, port);
  }

  /** The host and port `_check_bracketed_netloc` finds in `[h]port` are `h` and `port`. */
  lemma BracketedNetlocOf(h: string, port: string)
    requires '[' !in h && ']' !in h && '@' !in h && '@' !in port
    ensures BracketedNetlocError("[" + h + "]" + port) ==
      if port != [] && port[0] != ':' then Some(InvalidIpv6Url) else BracketedHostError(h)
  {
    var netloc := "[" + h + "]" + port;
    NoAtInBracketed(h, port);
    assert netloc == [] + "[" + (h + "]" + port);
    PyStr.PartitionAfterPiece([], '[', h + "]" + port);
    PyStr.PartitionAfterPiece(h, ']', port);
  }

  lemma NoAtInBracketed(h: string, port: string)
    requires '@' !in h && '@' !in port
    ensures PyStr.AfterLast("[" + h + "]" + port, '@') == "[" + h + "]" + port
  {
    assert Avoids("[", {'@'}) && Avoids("]", {'@'});
    assert Avoids(h, {'@'}) && Avoids(port, {'@'}) by {
      assert forall i :: 0 <= i < |h| ==> h[i] in h;
      assert forall i :: 0 <= i < |port| ==> port[i] in port;
    }
    ConcatAvoids("[", h, {'@'});
    ConcatAvoids("[" + h, "]", {'@'});
    ConcatAvoids("[" + h + "]", port, {'@'});
  }

  /** For a network location `[h]` with no `@`, `urlsplit` checks `h` and then the NFKC rule. */
  lemma BracketedNetloc(h: string, nfkc: string -> string)
    requires '[' !in h && ']' !in h && '@' !in h
    ensures var netloc := "[" + h + "]";
      NetlocError(netloc, nfkc) == (var b := BracketedHostError(h); if b.Some? then b else NetlocNfkcError(netloc, nfkc))
  {
    BracketedHostPort(h, "", nfkc);
    assert "[" + h + "]" + "" == "[" + h + "]";
  }

  /** Text before the `[` of a network location without `@` is refused. */
  lemma PrefixBeforeBracket(prefix: string, rest: string, nfkc: string -> string)
    requires prefix != [] && '[' !in prefix && '@' !in prefix && '@' !in rest
    ensures NetlocError(prefix + "[" + rest, nfkc) == Some(InvalidIpv6Url)
  {
    var netloc := prefix + "[" + rest;
    assert netloc[|prefix|] == '[' && netloc[0] == prefix[0];
    assert '@' !in netloc by {
      forall i | 0 <= i < |netloc| ensures netloc[i] != '@' {
        if i < |prefix| { assert netloc[i] == prefix[i]; }
        else if i > |prefix| { assert netloc[i] == rest[i - |prefix| - 1]; }
      }
    }
    assert prefix[0] in prefix;
  }

  /**
   * When the text after the last `@` has no `[`, `urlsplit` checks that text
   * up to its first `:` as the host, even if the brackets come before the `@`.
   */
  lemma HostAfterUserinfo(userinfo: string, hostport: string, nfkc: string -> string)
    requires '@' !in hostport && '[' !in hostport
    requires '[' in userinfo + "@" + hostport && ']' in userinfo + "@" + hostport
    ensures var netloc := userinfo + "@" + hostport;
      NetlocError(netloc, nfkc) ==
        (var b := BracketedHostError(PyStr.Partition(hostport, ':').0); if b.Some? then b else NetlocNfkcError(netloc, nfkc))
  {
    var netloc := userinfo + "@" + hostport;
    assert netloc[|userinfo|] == '@';
    assert netloc[|userinfo| + 1..] == hostport;
  }

  /**
   * In `[v1.a@b]` the brackets enclose userinfo and host together; the host
   * `urlsplit` checks is `b]`, which is no IP address.
   */
  lemma UserinfoBracketRefused(nfkc: string -> string)
    ensures NetlocError("[v1.a@b]", nfkc) == Some(NotAnIpAddress)
  {
    assert "[v1.a@b]" == "[v1.a" + "@" + "b]";
    assert "[v1.a@b]"[0] == '[' && "[v1.a@b]"[7] == ']';
    assert '@' !in "b]" && '[' !in "b]";
    HostAfterUserinfo("[v1.a", "b]", nfkc);
    assert PyStr.Partition("b]", ':').0 == "b]" by { assert ':' !in "b]"; }
    UserinfoHostRefused();
  }

  /** The host `b]` is neither an IPv4 nor an IPv6 address. */
  lemma UserinfoHostRefused()
    ensures BracketedHostError("b]") == Some(NotAnIpAddress)
  {
    assert '.' !in "b]" && ':' !in "b]";
    PyIpAddress.NoDotNotIpv4("b]");
  }

  /** The characters of groups joined by colons are hexadecimal digits and colons. */
  lemma JoinedHextetChars(groups: seq<string>)
    requires |groups| == 8 && forall k :: 0 <= k < 8 ==> PyIpAddress.HextetValid(groups[k])
    ensures var h := PyStr.Join(groups, ':');
      && (forall c :: c in h ==> PyIpAddress.HexDigit(c) || c == ':')
      && h != [] && h[0] != 'v' && IsAscii(h) && '.' !in h && '[' !in h && ']' !in h && '@' !in h
  {
    var h := PyStr.Join(groups, ':');
    forall c | c in h ensures PyIpAddress.HexDigit(c) || c == ':' {
      JoinedHextetChar(groups, c);
    }
    assert |h| >= |groups[0]| > 0;
    assert forall k :: 0 <= k < |h| ==> h[k] in h;
  }

  lemma JoinedHextetChar(groups: seq<string>, c: char)
    requires |groups| == 8 && forall k :: 0 <= k < 8 ==> PyIpAddress.HextetValid(groups[k])
    requires c in PyStr.Join(groups, ':')
    ensures PyIpAddress.HexDigit(c) || c == ':'
  {
    PyStr.JoinChars(groups, ':', c);
    if c != ':' {
      var k :| 0 <= k < 8 && c in groups[k];
      var i :| 0 <= i < |groups[k]| && groups[k][i] == c;
    }
  }

  /** Brackets around ASCII text give an ASCII network location. */
  lemma BracketedAscii(h: string)
    requires IsAscii(h)
    ensures IsAscii("[" + h + "]")
  {
    var netloc := "[" + h + "]";
    assert forall k :: 0 < k < |netloc| - 1 ==> netloc[k] == h[k - 1];
  }

  /** A full-form IPv6 address in brackets is accepted. */
  lemma BracketedIpv6Accepted(groups: seq<string>, nfkc: string -> string)
    requires |groups| == 8 && forall k :: 0 <= k < 8 ==> PyIpAddress.HextetValid(groups[k])
    ensures NetlocError("[" + PyStr.Join(groups, ':') + "]", nfkc) == None
  {
    var h := PyStr.Join(groups, ':');
    PyIpAddress.Ipv6FullForm(groups);
    JoinedHextetChars(groups);
    PyIpAddress.NoDotNotIpv4(h);
    BracketedAscii(h);
    BracketedNetloc(h, nfkc);
  }

  /** An IPv4 address in brackets is refused. */
  lemma BracketedIpv4Refused(octets: seq<string>, nfkc: string -> string)
    requires PyIpAddress.FourOctets(octets)
    ensures NetlocError("[" + PyStr.Join(octets, '.') + "]", nfkc) == Some(BracketedIpv4)
  {
    var h := PyStr.Join(octets, '.');
    assert PyIpAddress.Ipv4Valid(h) by { PyIpAddress.Ipv4DottedQuad(h); }
    Ipv4HostChars(h);
    BracketedNetloc(h, nfkc);
  }

  /** An IPv4 address holds no bracket and no `@`, and does not start with `v`. */
  lemma Ipv4HostChars(h: string)
    requires PyIpAddress.Ipv4Valid(h)
    ensures '[' !in h && ']' !in h && '@' !in h && h != [] && h[0] != 'v'
  {
    assert forall c :: c in h ==> PyIpAddress.AsciiDigit(c) || c == '.' by {
      forall c | c in h ensures PyIpAddress.AsciiDigit(c) || c == '.' {
        var k :| 0 <= k < |h| && h[k] == c;
      }
    }
  }
}

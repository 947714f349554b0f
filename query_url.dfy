/**
 * The query strings both `ServerInterface` copies send: `Uri.EscapeDataString`
 * (UTF-8, then every byte outside the unreserved set of section 2.3 of
 * RFC 3986 written as `%XX` with upper-case hex digits), `key=value` pairs
 * joined by `&`, and a reference parser that splits and percent-decodes a
 * query again.
 */
module QueryStrings {
  import opened Wrappers
  import opened Text

  // ------------------------------------------------------------- UTF-8

  /** The UTF-8 encoding of one Unicode scalar value (section 3 of RFC 3629). */
  function Utf8(c: char): (bs: seq<byte>)
    ensures 1 <= |bs| <= 4
    ensures (c as int) < 0x80 ==> bs == [(c as int) as byte]
    ensures (c as int) >= 0x80 ==> |bs| >= 2 && forall i :: 0 <= i < |bs| ==> bs[i] >= 0x80
  {
    var v := c as int;
    if v < 0x80 then [v as byte]
    else if v < 0x800 then [(0xC0 + v / 64) as byte, (0x80 + v % 64) as byte]
    else if v < 0x1_0000 then [(0xE0 + v / 4096) as byte, (0x80 + (v / 64) % 64) as byte, (0x80 + v % 64) as byte]
    else
      assert v <= 0x10_FFFF;
      [(0xF0 + v / 262144) as byte, (0x80 + (v / 4096) % 64) as byte, (0x80 + (v / 64) % 64) as byte, (0x80 + v % 64) as byte]
  }

  /** `Encoding.UTF8.GetBytes`. */
  function Utf8String(s: string): (bs: seq<byte>)
    ensures |s| <= |bs| <= 4 * |s|
  {
    if s == [] then [] else Utf8(s[0]) + Utf8String(s[1..])
  }

  // ------------------------------------------------------ percent-encoding

  /** The unreserved characters of section 2.3 of RFC 3986. */
  predicate IsUnreservedChar(c: char) {
    'A' <= c <= 'Z' || 'a' <= c <= 'z' || '0' <= c <= '9' || c == '-' || c == '.' || c == '_' || c == '~'
  }

  predicate IsUnreserved(b: byte) {
    IsUnreservedChar((b as int) as char)
  }

  /** Characters an escaped string can hold: the unreserved ones and `%`. */
  predicate IsEscapedChar(c: char) {
    IsUnreservedChar(c) || c == '%'
  }

  predicate AllEscapedChars(s: string) {
    forall i :: 0 <= i < |s| ==> IsEscapedChar(s[i])
  }

  /** One byte: itself when unreserved, else `%` and two upper-case hex digits. */
  function EscapeByte(b: byte): (s: string)
    ensures AllEscapedChars(s)
  {
    if IsUnreserved(b) then [(b as int) as char] else "%" + HexX2(b)
  }

  function EscapeBytes(bs: seq<byte>): (s: string)
    ensures AllEscapedChars(s)
    ensures |bs| <= |s| <= 3 * |bs|
  {
    if bs == [] then [] else EscapeByte(bs[0]) + EscapeBytes(bs[1..])
  }

  /** `Uri.EscapeDataString`. */
  function EscapeDataString(s: string): (r: string)
    ensures AllEscapedChars(r)
  {
    EscapeBytes(Utf8String(s))
  }

  /** No escaped string holds a query delimiter. */
  lemma NoDelimiters(s: string)
    ensures var r := EscapeDataString(s);
      '&' !in r && '=' !in r && '?' !in r && '/' !in r && '#' !in r
  {
    var r := EscapeDataString(s);
    forall c | c in r ensures IsEscapedChar(c) {
      var i :| 0 <= i < |r| && r[i] == c;
    }
  }

  /** The reference decoder: `%XX` gives byte XX, any other character below 256 its own code. */
  function Unescape(s: string): (r: Option<seq<byte>>) {
    if s == [] then Some([])
    else if s[0] == '%' then
      if |s| >= 3 && IsUpperHex(s[1]) && IsUpperHex(s[2]) then
        Prepend((HexValue(s[1]) * 16 + HexValue(s[2])) as byte, Unescape(s[3..]))
      else None
    else if (s[0] as int) < 256 then Prepend((s[0] as int) as byte, Unescape(s[1..]))
    else None
  }

  function Prepend(b: byte, r: Option<seq<byte>>): Option<seq<byte>> {
    if r.Some? then Some([b] + r.value) else None
  }

  lemma UnescapeByteThen(b: byte, t: string)
    ensures Unescape(EscapeByte(b) + t) == Prepend(b, Unescape(t))
  {
    var s := EscapeByte(b) + t;
    if IsUnreserved(b) {
      assert s[0] == (b as int) as char && s[1..] == t;
    } else {
      var h := HexX2(b);
      assert s[0] == '%' && s[1] == h[0] && s[2] == h[1] && s[3..] == t;
    }
  }

  /** Percent-decoding undoes the escaping of any byte sequence. */
  lemma {:induction false} EscapeRoundTrip(bs: seq<byte>)
    ensures Unescape(EscapeBytes(bs)) == Some(bs)
  {
    if bs != [] {
      UnescapeByteThen(bs[0], EscapeBytes(bs[1..]));
      EscapeRoundTrip(bs[1..]);
      assert [bs[0]] + bs[1..] == bs;
    }
  }

  /** A string of unreserved ASCII characters is its own escaping. */
  lemma {:induction false} UnreservedUnchanged(s: string)
    requires forall i :: 0 <= i < |s| ==> IsUnreservedChar(s[i])
    ensures EscapeDataString(s) == s
  {
    if s != [] {
      UnreservedUnchanged(s[1..]);
      assert Utf8String(s) == [(s[0] as int) as byte] + Utf8String(s[1..]);
      assert EscapeBytes(Utf8String(s)) == [s[0]] + EscapeBytes(Utf8String(s[1..])) by {
        assert Utf8String(s)[1..] == Utf8String(s[1..]);
      }
      assert [s[0]] + s[1..] == s;
    }
  }

  // ------------------------------------------------------ split and join

  /** The pieces of `s` between the separators (`string.Split(sep)`). */
  function Split(s: string, sep: char): (parts: seq<string>)
    ensures |parts| >= 1
  {
    if s == [] then [[]]
    else
      var rest := Split(s[1..], sep);
      if s[0] == sep then [[]] + rest else [[s[0]] + rest[0]] + rest[1..]
  }

  /** The pieces written with `sep` between neighbours. */
  function Join(parts: seq<string>, sep: char): string
    requires |parts| >= 1
  {
    if |parts| == 1 then parts[0] else parts[0] + [sep] + Join(parts[1..], sep)
  }

  lemma {:induction false} SplitNoSep(p: string, sep: char)
    requires sep !in p
    ensures Split(p, sep) == [p]
  {
    if p != [] {
      SplitNoSep(p[1..], sep);
      assert [p[0]] + p[1..] == p;
    }
  }

  lemma {:induction false} SplitThrough(p: string, t: string, sep: char)
    requires sep !in p
    ensures Split(p + [sep] + t, sep) == [p] + Split(t, sep)
  {
    var s := p + [sep] + t;
    if p == [] {
      assert s[0] == sep && s[1..] == t;
    } else {
      assert s[0] == p[0] && s[1..] == p[1..] + [sep] + t;
      SplitThrough(p[1..], t, sep);
      assert [p[0]] + p[1..] == p;
    }
  }

  /** Splitting undoes joining when no piece holds the separator. */
  lemma {:induction false} SplitJoin(parts: seq<string>, sep: char)
    requires |parts| >= 1
    requires forall i :: 0 <= i < |parts| ==> sep !in parts[i]
    ensures Split(Join(parts, sep), sep) == parts
  {
    if |parts| == 1 {
      SplitNoSep(parts[0], sep);
    } else {
      SplitJoin(parts[1..], sep);
      SplitThrough(parts[0], Join(parts[1..], sep), sep);
      assert [parts[0]] + parts[1..] == parts;
    }
  }

  lemma {:induction false} JoinSnoc(parts: seq<string>, p: string, sep: char)
    requires |parts| >= 1
    ensures Join(parts + [p], sep) == Join(parts, sep) + [sep] + p
  {
    if |parts| == 1 {
      assert (parts + [p])[1..] == [p];
    } else {
      assert (parts + [p])[1..] == parts[1..] + [p];
      JoinSnoc(parts[1..], p, sep);
    }
  }

  // --------------------------------------------------------- the query

  /** One query parameter after `value.ToString()`. */
  datatype Parameter = Parameter(key: string, value: string)

  /** `EscapeDataString(key)`, `=`, `EscapeDataString(value)`. */
  function Pair(p: Parameter): string {
    EscapeDataString(p.key) + "=" + EscapeDataString(p.value)
  }

  lemma PairNoDelimiters(p: Parameter)
    ensures '&' !in Pair(p) && '?' !in Pair(p)
  {
    NoDelimiters(p.key);
    NoDelimiters(p.value);
  }

  function Pairs(ps: seq<Parameter>): (pieces: seq<string>)
    ensures |pieces| == |ps|
    ensures forall i :: 0 <= i < |ps| ==> pieces[i] == Pair(ps[i])
  {
    if ps == [] then [] else Pairs(ps[..|ps| - 1]) + [Pair(ps[|ps| - 1])]
  }

  /** The text after `?`: the pairs in argument order, `&` between neighbours. */
  function QueryString(ps: seq<Parameter>): string
    requires |ps| >= 1
  {
    Join(Pairs(ps), '&')
  }

  /** What `GetQueryUrl` builds on the base URL `url`. */
  function QueryUrl(url: string, action: string, ps: seq<Parameter>): string
  {
    url + "/" + action + (if ps == [] then "" else "?" + QueryString(ps))
  }

  lemma QueryStringOne(p: Parameter)
    ensures QueryString([p]) == Pair(p)
  {
    assert Pairs([p]) == [Pair(p)];
  }

  lemma QueryStringSnoc(ps: seq<Parameter>, i: nat)
    requires 1 <= i < |ps|
    ensures QueryString(ps[..i + 1]) == QueryString(ps[..i]) + "&" + Pair(ps[i])
  {
    assert ps[..i + 1][..i] == ps[..i];
    JoinSnoc(Pairs(ps[..i]), Pair(ps[i]), '&');
  }

  // ------------------------------------------------------- the reader

  /** What a server reads from a query: the pairs, split and decoded to bytes. */
  function DecodePair(piece: string): Option<(seq<byte>, seq<byte>)> {
    var kv := Split(piece, '=');
    if |kv| != 2 then None
    else
      var key := Unescape(kv[0]);
      var value := Unescape(kv[1]);
      if key.Some? && value.Some? then Some((key.value, value.value)) else None
  }

  function DecodePairs(pieces: seq<string>): Option<seq<(seq<byte>, seq<byte>)>> {
    if pieces == [] then Some([])
    else
      var init := DecodePairs(pieces[..|pieces| - 1]);
      var last := DecodePair(pieces[|pieces| - 1]);
      if init.Some? && last.Some? then Some(init.value + [last.value]) else None
  }

  /** The UTF-8 keys and values of the parameters, in order. */
  function Encoded(ps: seq<Parameter>): (r: seq<(seq<byte>, seq<byte>)>)
    ensures |r| == |ps|
  {
    if ps == [] then []
    else Encoded(ps[..|ps| - 1]) + [(Utf8String(ps[|ps| - 1].key), Utf8String(ps[|ps| - 1].value))]
  }

  lemma PairRoundTrip(p: Parameter)
    ensures DecodePair(Pair(p)) == Some((Utf8String(p.key), Utf8String(p.value)))
  {
    var k := EscapeDataString(p.key);
    var v := EscapeDataString(p.value);
    assert Pair(p) == k + ['='] + v;
    NoDelimiters(p.key);
    NoDelimiters(p.value);
    SplitThrough(k, v, '=');
    SplitNoSep(v, '=');
    EscapeRoundTrip(Utf8String(p.key));
    EscapeRoundTrip(Utf8String(p.value));
  }

  lemma {:induction false} PairsRoundTrip(ps: seq<Parameter>)
    ensures DecodePairs(Pairs(ps)) == Some(Encoded(ps))
  {
    if ps != [] {
      var init := ps[..|ps| - 1];
      PairsRoundTrip(init);
      PairRoundTrip(ps[|ps| - 1]);
      assert Pairs(ps)[..|ps| - 1] == Pairs(init);
    }
  }

  /**
   * The query of a non-empty parameter list holds no `?`, splits on `&`
   * into exactly one piece per parameter, and decodes to the UTF-8 keys
   * and values in argument order.
   */
  lemma QueryRoundTrip(ps: seq<Parameter>)
    requires |ps| >= 1
    ensures '?' !in QueryString(ps)
    ensures |Split(QueryString(ps), '&')| == |ps|
    ensures DecodePairs(Split(QueryString(ps), '&')) == Some(Encoded(ps))
  {
    forall i | 0 <= i < |ps| {
      PairNoDelimiters(ps[i]);
    }
    SplitJoin(Pairs(ps), '&');
    PairsRoundTrip(ps);
    NoQuestionMark(Pairs(ps));
  }

  lemma {:induction false} NoQuestionMark(parts: seq<string>)
    requires |parts| >= 1
    requires forall i :: 0 <= i < |parts| ==> '?' !in parts[i]
    ensures '?' !in Join(parts, '&')
  {
    if |parts| > 1 {
      NoQuestionMark(parts[1..]);
    }
  }

  /**
   * The shape of a query URL: with no parameters it is the base, `/` and
   * the action; otherwise the same followed by one `?` and the query.
   */
  lemma QueryUrlShape(url: string, action: string, ps: seq<Parameter>)
    requires '?' !in url && '?' !in action
    ensures ps == [] ==> QueryUrl(url, action, ps) == url + "/" + action
    ensures ps == [] <==> '?' !in QueryUrl(url, action, ps)
  {
    if ps != [] {
      var r := QueryUrl(url, action, ps);
      assert r[|url| + 1 + |action|] == '?';
    } else {
      assert QueryUrl(url, action, ps) == url + "/" + action;
    }
  }

  /** With parameters, the URL is the base, `/`, the action, one `?` and the query. */
  lemma QueryUrlWithParameters(url: string, action: string, ps: seq<Parameter>)
    requires ps != []
    ensures QueryUrl(url, action, ps) == url + "/" + action + "?" + QueryString(ps)
  {
  }

  // ------------------------------------------------------ the base URL

  /** `url.TrimEnd('/')`. */
  function TrimEndSlash(s: string): (r: string)
    ensures |r| <= |s| && r == s[..|r|]
    ensures r == [] || r[|r| - 1] != '/'
    ensures forall i :: |r| <= i < |s| ==> s[i] == '/'
  {
    if s != [] && s[|s| - 1] == '/' then TrimEndSlash(s[..|s| - 1]) else s
  }
}

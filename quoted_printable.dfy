/**
 * `Utils.ToQuotedPrintable` of the export client: a byte-to-ASCII encoder
 * following rules 1 to 3 of the Quoted-Printable encoding (section 6.7 of
 * RFC 2045), without soft line breaks. The input is the UTF-8 encoding of
 * the string the client passes in.
 */
module QuotedPrintable {
  import opened Wrappers
  import opened Text

  /** Bytes written as themselves: tab, and 32..126 except '=' (61). */
  predicate IsLiteral(b: byte) {
    b == 9 || (32 <= b <= 60) || (62 <= b <= 126)
  }

  /** Characters an encoding may contain: tab and printable ASCII. */
  predicate IsQpChar(c: char) {
    c == '\t' || ' ' <= c <= '~'
  }

  predicate AllQpChars(s: string) {
    forall i :: 0 <= i < |s| ==> IsQpChar(s[i])
  }

  /** One byte as the builder loop appends it. */
  function EncodeByte(b: byte): (s: string)
    ensures AllQpChars(s) && 1 <= |s| <= 3
  {
    if IsLiteral(b) then [(b as int) as char] else "=" + HexX2(b)
  }

  /** The builder's contents after the loop over all bytes. */
  function EncodeAll(bs: seq<byte>): (s: string)
    ensures |bs| <= |s| <= 3 * |bs|
  {
    if bs == [] then [] else EncodeByte(bs[0]) + EncodeAll(bs[1..])
  }

  /** The loop writes only tab and printable ASCII. */
  lemma {:induction false} EncodeAllPrintable(bs: seq<byte>)
    ensures AllQpChars(EncodeAll(bs))
  {
    if bs != [] {
      EncodeAllPrintable(bs[1..]);
      AllQpCharsAppend(EncodeByte(bs[0]), EncodeAll(bs[1..]));
    }
  }

  lemma {:induction false} EncodeAllAppend(a: seq<byte>, b: seq<byte>)
    ensures EncodeAll(a + b) == EncodeAll(a) + EncodeAll(b)
  {
    if a != [] {
      var x, t := a[0], a[1..];
      assert a == [x] + t;
      assert a + b == [x] + (t + b);
      EncodeAllAppend(t, b);
      EncodeAllCons(x, t);
      EncodeAllCons(x, t + b);
      var ex, et, eb := EncodeByte(x), EncodeAll(t), EncodeAll(b);
      assert ex + (et + eb) == (ex + et) + eb;
    } else {
      assert a + b == b;
    }
  }

  lemma EncodeAllCons(x: byte, t: seq<byte>)
    ensures EncodeAll([x] + t) == EncodeByte(x) + EncodeAll(t)
  {
    assert ([x] + t)[1..] == t;
  }

  /**
   * The encoder: every byte encoded, then a trailing space or tab
   * (a literal whitespace character at the end) replaced by its `=XX` form.
   * Empty input is returned unchanged.
   */
  function QpEncode(bs: seq<byte>): (s: string)
  {
    if bs == [] then [] else EncodeAllPrintable(bs); Patch(EncodeAll(bs))
  }

  /** The patch after the loop: a whitespace last character is replaced by `=` and its code in hex. */
  function Patch(body: string): string
    requires body != [] && (body[|body| - 1] as int) < 256
  {
    var last := body[|body| - 1];
    if IsWhiteSpace(last) then body[..|body| - 1] + "=" + HexX2((last as int) as byte) else body
  }

  /** The reference decoder: `=XX` gives byte XX, a literal character gives its own code. */
  function QpDecode(s: string): (r: Option<seq<byte>>)
  {
    if s == [] then Some([])
    else if s[0] == '=' then
      if |s| >= 3 && IsUpperHex(s[1]) && IsUpperHex(s[2]) then
        match QpDecode(s[3..])
        case None => None
        case Some(rest) => Some([(HexValue(s[1]) * 16 + HexValue(s[2])) as byte] + rest)
      else None
    else if (s[0] as int) < 256 && IsLiteral((s[0] as int) as byte) then
      match QpDecode(s[1..])
      case None => None
      case Some(rest) => Some([(s[0] as int) as byte] + rest)
    else None
  }

  /** `r` with `a` in front of its value. */
  function PrefixWith(a: seq<byte>, r: Option<seq<byte>>): Option<seq<byte>> {
    match r
    case None => None
    case Some(rest) => Some(a + rest)
  }

  lemma DecodeByteThen(b: byte, t: string)
    ensures QpDecode(EncodeByte(b) + t) == PrefixWith([b], QpDecode(t))
  {
    var e := EncodeByte(b);
    if IsLiteral(b) {
      assert (e + t)[0] == e[0];
      assert (e + t)[1..] == t;
    } else {
      assert (e + t)[0] == '=';
      assert (e + t)[3..] == t;
      assert (e + t)[1] == e[1] && (e + t)[2] == e[2];
    }
  }

  lemma {:induction false} DecodeEncodedThen(a: seq<byte>, t: string)
    ensures QpDecode(EncodeAll(a) + t) == PrefixWith(a, QpDecode(t))
  {
    if a == [] {
      assert EncodeAll(a) + t == t;
      PrefixEmpty(QpDecode(t));
    } else {
      var rest := EncodeAll(a[1..]) + t;
      assert EncodeAll(a) + t == EncodeByte(a[0]) + rest;
      DecodeByteThen(a[0], rest);
      DecodeEncodedThen(a[1..], t);
      PrefixTwice([a[0]], a[1..], QpDecode(t));
      assert [a[0]] + a[1..] == a;
    }
  }

  lemma PrefixEmpty(r: Option<seq<byte>>)
    ensures PrefixWith([], r) == r
  {
    if r.Some? { assert [] + r.value == r.value; }
  }

  lemma PrefixTwice(x: seq<byte>, y: seq<byte>, r: Option<seq<byte>>)
    ensures PrefixWith(x, PrefixWith(y, r)) == PrefixWith(x + y, r)
  {
    if r.Some? { assert x + (y + r.value) == (x + y) + r.value; }
  }

  lemma DecodeEscape(b: byte)
    ensures QpDecode("=" + HexX2(b)) == Some([b])
  {
    var h := HexX2(b);
    var tail := "=" + h;
    assert tail[0] == '=' && tail[1] == h[0] && tail[2] == h[1];
    assert tail[3..] == [];
    assert QpDecode(tail[3..]) == Some([]);
    assert (HexValue(tail[1]) * 16 + HexValue(tail[2])) as byte == b;
    assert QpDecode(tail) == Some([b] + []);
    assert [b] + [] == [b];
  }

  /** How the encoder writes the last byte: a literal space or tab gets its `=XX` form. */
  function EncodeLast(b: byte): string {
    if IsLiteral(b) && IsWhiteSpace((b as int) as char) then "=" + HexX2(b) else EncodeByte(b)
  }

  /** The encoding of a non-empty input: all bytes but the last as the loop writes them, then the last. */
  lemma EncodeSplitLast(bs: seq<byte>)
    requires bs != []
    ensures QpEncode(bs) == EncodeAll(bs[..|bs| - 1]) + EncodeLast(bs[|bs| - 1])
  {
    var init, b := bs[..|bs| - 1], bs[|bs| - 1];
    assert bs == init + [b];
    EncodePush(init, b);
  }

  /** The encoder on `init` and one more byte: `init` as the loop writes it, then the byte's last-position form. */
  lemma EncodePush(init: seq<byte>, b: byte)
    ensures QpEncode(init + [b]) == EncodeAll(init) + EncodeLast(b)
  {
    EncodeAllPush(init, b);
    LastCharPatch(EncodeAll(init), b);
  }

  /** The patch applied to `pre` followed by one encoded byte yields `pre` and the byte's last-position form. */
  lemma LastCharPatch(pre: string, b: byte)
    ensures Patch(pre + EncodeByte(b)) == pre + EncodeLast(b)
  {
    var body := pre + EncodeByte(b);
    if IsLiteral(b) {
      assert body[|body| - 1] == (b as int) as char;
      assert body[..|body| - 1] == pre;
    } else {
      assert body[|body| - 1] == HexX2(b)[1];
    }
  }

  lemma DecodeLast(b: byte)
    ensures QpDecode(EncodeLast(b)) == Some([b])
  {
    if IsLiteral(b) && IsWhiteSpace((b as int) as char) {
      DecodeEscape(b);
    } else {
      DecodeByteThen(b, []);
      assert EncodeByte(b) + [] == EncodeByte(b);
      assert QpDecode([]) == Some([]);
      assert [b] + [] == [b];
    }
  }

  /** Decoding undoes the encoder: no information is lost, the trailing-whitespace patch included. */
  lemma QpRoundTrip(bs: seq<byte>)
    ensures QpDecode(QpEncode(bs)) == Some(bs)
  {
    if bs != [] {
      var init, b := bs[..|bs| - 1], bs[|bs| - 1];
      assert bs == init + [b];
      RoundTripPush(init, b);
    }
  }

  /** The round trip for a non-empty input split at its last byte. */
  lemma RoundTripPush(init: seq<byte>, b: byte)
    ensures QpDecode(QpEncode(init + [b])) == Some(init + [b])
  {
    EncodePush(init, b);
    DecodeLast(b);
    DecodeEncodedThen(init, EncodeLast(b));
  }

  /**
   * What an encoding looks like: tab and printable ASCII only (so no line
   * break is ever inserted), and never a trailing space or tab.
   */
  lemma QpOutputShape(bs: seq<byte>)
    ensures AllQpChars(QpEncode(bs))
    ensures |QpEncode(bs)| >= |bs|
    ensures QpEncode(bs) != [] ==> !IsWhiteSpace(QpEncode(bs)[|QpEncode(bs)| - 1])
  {
    if bs != [] {
      var init, b := bs[..|bs| - 1], bs[|bs| - 1];
      EncodeSplitLast(bs);
      LastShape(b);
      EncodeAllPrintable(init);
      AllQpCharsAppend(EncodeAll(init), EncodeLast(b));
    }
  }

  lemma LastShape(b: byte)
    ensures var t := EncodeLast(b); AllQpChars(t) && |t| >= 1 && !IsWhiteSpace(t[|t| - 1])
  {
    var h := HexX2(b);
    if !IsLiteral(b) || IsWhiteSpace((b as int) as char) {
      var t := "=" + h;
      assert t[1] == h[0] && t[2] == h[1];
    }
  }

  lemma AllQpCharsAppend(x: string, y: string)
    requires AllQpChars(x) && AllQpChars(y)
    ensures AllQpChars(x + y)
  {
    assert forall i :: 0 <= i < |x + y| ==> (x + y)[i] == if i < |x| then x[i] else y[i - |x|];
  }

  /** One more turn of the builder loop appends one encoded byte. */
  lemma EncodeAllSnoc(bs: seq<byte>, i: nat)
    requires i < |bs|
    ensures EncodeAll(bs[..i + 1]) == EncodeAll(bs[..i]) + EncodeByte(bs[i])
  {
    assert bs[..i + 1] == bs[..i] + [bs[i]];
    EncodeAllPush(bs[..i], bs[i]);
  }

  /** Appending `=` and then the hex digits appends the byte's escape. */
  lemma EscapeAppends(pre: string, v: byte)
    requires !IsLiteral(v)
    ensures pre + "=" + HexX2(v) == pre + EncodeByte(v)
  {
  }

  /** Encoding one more byte appends its encoding. */
  lemma EncodeAllPush(init: seq<byte>, b: byte)
    ensures EncodeAll(init + [b]) == EncodeAll(init) + EncodeByte(b)
  {
    EncodeAllAppend(init, [b]);
    assert EncodeAll([b]) == EncodeByte(b) by { assert [b][1..] == []; }
  }

  /**
   * `ToQuotedPrintable` as the source writes it: a builder loop over the
   * bytes (`BuildEncoding`), then a patch of the builder's last character.
   */
  method ToQuotedPrintable(bytes: seq<byte>) returns (s: string)
    ensures s == QpEncode(bytes)
  {
    if |bytes| == 0 {
      return [];
    }
    var builder := BuildEncoding(bytes);
    EncodeAllPrintable(bytes);
    var lastChar := builder[|builder| - 1];
    if IsWhiteSpace(lastChar) {
      builder := builder[..|builder| - 1] + "=" + HexX2((lastChar as int) as byte);
    }
    s := builder;
  }

  /** The builder loop of `ToQuotedPrintable`: each byte literal or as `=XX`. */
  method BuildEncoding(bytes: seq<byte>) returns (builder: string)
    ensures builder == EncodeAll(bytes)
  {
    builder := [];
    var i := 0;
    while i < |bytes|
      invariant 0 <= i <= |bytes|
      invariant builder == EncodeAll(bytes[..i])
    {
      var v := bytes[i];
      EncodeAllSnoc(bytes, i);
      if v == 9 || (32 <= v <= 60) || (62 <= v <= 126) {
        builder := builder + [(v as int) as char];
      } else {
        EscapeAppends(builder, v);
        builder := builder + "=" + HexX2(v);
      }
      i := i + 1;
    }
    assert bytes[..i] == bytes;
  }
}

/** The browser's URI primitives the application calls: `encodeURIComponent`,
    `decodeURIComponent` (strict: a malformed escape throws `URIError`), the
    `application/x-www-form-urlencoded` serializer behind `URLSearchParams.toString()`,
    and `URLSearchParams.get` on a query string or a hash fragment. Escapes are over the
    UTF-8 bytes of each character, as section 2.1 of RFC 3986 describes. */
module Uri {
  import opened Common
  import opened Text

  type byte = b: int | 0 <= b < 256

  // ---------------------------------------------------------------- hex and UTF-8

  predicate IsHex(c: char) {
    ('0' <= c <= '9') || ('a' <= c <= 'f') || ('A' <= c <= 'F')
  }

  function HexValue(c: char): (d: nat)
    requires IsHex(c)
    ensures d < 16
  {
    if '0' <= c <= '9' then c as int - '0' as int
    else if 'a' <= c <= 'f' then c as int - 'a' as int + 10
    else c as int - 'A' as int + 10
  }

  /** Upper-case hex digit, as both encoders print it. */
  function HexDigit(d: nat): (c: char)
    requires d < 16
    ensures IsHex(c) && HexValue(c) == d
  {
    if d < 10 then ('0' as int + d) as char else ('A' as int + d - 10) as char
  }

  /** The UTF-8 encoding of one Unicode scalar value. */
  function Utf8(c: char): (r: seq<byte>)
    ensures 1 <= |r| <= 4
  {
    var v := c as int;
    if v < 0x80 then [v]
    else if v < 0x800 then [0xC0 + v / 64, 0x80 + v % 64]
    else if v < 0x10000 then [0xE0 + v / 4096, 0x80 + (v / 64) % 64, 0x80 + v % 64]
    else [0xF0 + v / 262144, 0x80 + (v / 4096) % 64, 0x80 + (v / 64) % 64, 0x80 + v % 64]
  }

  /** `%XX` for one byte. */
  function Escape(b: byte): string {
    ['%', HexDigit(b / 16), HexDigit(b % 16)]
  }

  function EscapeAll(bs: seq<byte>): (r: string)
    ensures |r| == 3 * |bs|
  {
    if bs == [] then [] else Escape(bs[0]) + EscapeAll(bs[1..])
  }

  // ---------------------------------------------------------------- encodeURIComponent

  /** The characters `encodeURIComponent` leaves alone. */
  predicate IsUnescaped(c: char) {
    ('A' <= c <= 'Z') || ('a' <= c <= 'z') || ('0' <= c <= '9') ||
    c == '-' || c == '_' || c == '.' || c == '!' || c == '~' || c == '*' ||
    c == '\'' || c == '(' || c == ')'
  }

  function EncodeComponent(s: string): string {
    if s == [] then []
    else (if IsUnescaped(s[0]) then [s[0]] else EscapeAll(Utf8(s[0]))) + EncodeComponent(s[1..])
  }

  /** A string made only of unescaped characters is its own encoding. */
  lemma {:induction false} EncodeUnescaped(s: string)
    requires forall i :: 0 <= i < |s| ==> IsUnescaped(s[i])
    ensures EncodeComponent(s) == s
  {
    if s != [] {
      EncodeUnescaped(s[1..]);
      assert s == [s[0]] + s[1..];
    }
  }

  // ---------------------------------------------------------------- decodeURIComponent

  /** One `%XX` escape at the start of `s`. */
  function ReadEscape(s: string): Option<byte> {
    if |s| >= 3 && s[0] == '%' && IsHex(s[1]) && IsHex(s[2])
    then Some(HexValue(s[1]) * 16 + HexValue(s[2]))
    else None
  }

  /** `k` escapes of continuation bytes (`10xxxxxx`), giving their six payload bits each. */
  function ReadContinuations(s: string, k: nat): (r: Option<seq<nat>>)
    ensures r.Some? ==> |s| >= 3 * k && |r.value| == k
    ensures r.Some? ==> forall i :: 0 <= i < k ==> r.value[i] < 64
  {
    if k == 0 then Some([])
    else match ReadEscape(s)
      case Some(b) =>
        if 0x80 <= b < 0xC0 then
          match ReadContinuations(s[3..], k - 1)
          case Some(rest) => Some([b - 0x80] + rest)
          case None => None
        else None
      case None => None
  }

  /** The number of bytes a UTF-8 sequence with this lead byte has; 0 when it cannot lead. */
  function SequenceLength(b: byte): nat {
    if 0xC0 <= b < 0xE0 then 2
    else if 0xE0 <= b < 0xF0 then 3
    else if 0xF0 <= b < 0xF8 then 4
    else 0
  }

  /** The code point of a multi-byte sequence, or None when it is overlong, a surrogate or
      beyond U+10FFFF (each of which makes `decodeURIComponent` throw). */
  function CodePoint(lead: byte, cs: seq<nat>): Option<char>
    requires 1 <= |cs| <= 3 && |cs| + 1 == SequenceLength(lead)
    requires forall i :: 0 <= i < |cs| ==> cs[i] < 64
  {
    if |cs| == 1 then
      var v := (lead - 0xC0) * 64 + cs[0];
      if v >= 0x80 then Some(v as char) else None
    else if |cs| == 2 then
      var v := (lead - 0xE0) * 4096 + cs[0] * 64 + cs[1];
      if v >= 0x800 && !(0xD800 <= v < 0xE000) then Some(v as char) else None
    else
      var v := (lead - 0xF0) * 262144 + cs[0] * 4096 + cs[1] * 64 + cs[2];
      if 0x10000 <= v < 0x110000 then Some(v as char) else None
  }

  /** `decodeURIComponent(s)`; None is the `URIError` it throws. */
  function DecodeComponent(s: string): Option<string>
    decreases |s|
  {
    if s == [] then Some([])
    else if s[0] != '%' then
      match DecodeComponent(s[1..])
      case Some(r) => Some([s[0]] + r)
      case None => None
    else match ReadEscape(s)
      case None => None
      case Some(b) =>
        if b < 0x80 then
          match DecodeComponent(s[3..])
          case Some(r) => Some([b as char] + r)
          case None => None
        else
          var n := SequenceLength(b);
          if n == 0 then None
          else match ReadContinuations(s[3..], n - 1)
            case None => None
            case Some(cs) =>
              match CodePoint(b, cs)
              case None => None
              case Some(c) =>
                match DecodeComponent(s[3 * n..])
                case Some(r) => Some([c] + r)
                case None => None
  }

  /** Without a '%' there is nothing to decode. */
  lemma {:induction false} DecodeWithoutPercent(s: string)
    requires '%' !in s
    ensures DecodeComponent(s) == Some(s)
  {
    if s != [] {
      DecodeWithoutPercent(s[1..]);
      assert s == [s[0]] + s[1..];
    }
  }

  lemma ReadEscapeOf(b: byte, rest: string)
    ensures ReadEscape(Escape(b) + rest) == Some(b)
  {
  }

  /** The payload bits of continuation bytes. */
  function Payloads(bs: seq<byte>): (r: seq<nat>)
    requires forall i :: 0 <= i < |bs| ==> 0x80 <= bs[i]
    ensures |r| == |bs|
  {
    if bs == [] then [] else [bs[0] - 0x80] + Payloads(bs[1..])
  }

  lemma {:induction false} ReadContinuationsOf(bs: seq<byte>, rest: string)
    requires forall i :: 0 <= i < |bs| ==> 0x80 <= bs[i] < 0xC0
    ensures ReadContinuations(EscapeAll(bs) + rest, |bs|) == Some(Payloads(bs))
  {
    if bs != [] {
      var s := EscapeAll(bs) + rest;
      assert s == Escape(bs[0]) + (EscapeAll(bs[1..]) + rest);
      ReadEscapeOf(bs[0], EscapeAll(bs[1..]) + rest);
      assert s[3..] == EscapeAll(bs[1..]) + rest;
      ReadContinuationsOf(bs[1..], rest);
      assert ReadContinuations(s, |bs|) == Some([bs[0] - 0x80] + Payloads(bs[1..]));
    }
  }

  /** One step of `DecodeComponent` over a well-formed multi-byte sequence. */
  lemma DecodeMultiByteStep(s: string, b: byte, cs: seq<nat>, c: char)
    requires ReadEscape(s) == Some(b) && b >= 0x80 && SequenceLength(b) > 0
    requires ReadContinuations(s[3..], SequenceLength(b) - 1) == Some(cs)
    requires CodePoint(b, cs) == Some(c)
    ensures |s| >= 3 * SequenceLength(b)
    ensures DecodeComponent(s) ==
            match DecodeComponent(s[3 * SequenceLength(b)..])
            case Some(r) => Some([c] + r)
            case None => None
  {
  }

  /** The escapes of a multi-byte character followed by `rest`, split at the lead byte. */
  lemma EscapedShape(c: char, rest: string)
    requires c as int >= 0x80
    ensures var bs := Utf8(c); var s := EscapeAll(bs) + rest;
      ReadEscape(s) == Some(bs[0]) && s[3..] == EscapeAll(bs[1..]) + rest &&
      s[3 * |bs|..] == rest
  {
    var bs := Utf8(c);
    var s := EscapeAll(bs) + rest;
    assert s == Escape(bs[0]) + (EscapeAll(bs[1..]) + rest);
    ReadEscapeOf(bs[0], EscapeAll(bs[1..]) + rest);
  }

  lemma DecodeTwoBytes(c: char, rest: string)
    requires 0x80 <= c as int < 0x800
    ensures DecodeComponent(EscapeAll(Utf8(c)) + rest) ==
            match DecodeComponent(rest)
            case Some(r) => Some([c] + r)
            case None => None
  {
    var v := c as int;
    var bs := Utf8(c);
    EscapedShape(c, rest);
    ReadContinuationsOf(bs[1..], rest);
    assert Payloads(bs[1..]) == [v % 64];
    assert v == (v / 64) * 64 + v % 64;
    DecodeMultiByteStep(EscapeAll(bs) + rest, bs[0], [v % 64], c);
  }

  lemma DecodeThreeBytes(c: char, rest: string)
    requires 0x800 <= c as int < 0x10000
    ensures DecodeComponent(EscapeAll(Utf8(c)) + rest) ==
            match DecodeComponent(rest)
            case Some(r) => Some([c] + r)
            case None => None
  {
    var bs := Utf8(c);
    EscapedShape(c, rest);
    ReadContinuationsOf(bs[1..], rest);
    ThreeBytePayloads(c);
    ThreeByteCodePoint(c);
    DecodeMultiByteStep(EscapeAll(bs) + rest, bs[0], Payloads(bs[1..]), c);
  }

  lemma ThreeBytePayloads(c: char)
    requires 0x800 <= c as int < 0x10000
    ensures var v := c as int; Payloads(Utf8(c)[1..]) == [(v / 64) % 64, v % 64]
  {
    var v := c as int;
    var bs := Utf8(c);
    assert Payloads(bs[2..]) == [v % 64];
  }

  lemma ThreeByteCodePoint(c: char)
    requires 0x800 <= c as int < 0x10000
    ensures var v := c as int; CodePoint(0xE0 + v / 4096, [(v / 64) % 64, v % 64]) == Some(c)
  {
    var v := c as int;
    assert v == (v / 64) * 64 + v % 64;
    assert v / 64 == (v / 4096) * 64 + (v / 64) % 64;
  }

  lemma FourBytePayloads(c: char)
    requires 0x10000 <= c as int
    ensures var v := c as int;
      Payloads(Utf8(c)[1..]) == [(v / 4096) % 64, (v / 64) % 64, v % 64]
  {
    var v := c as int;
    var bs := Utf8(c);
    assert Payloads(bs[3..]) == [v % 64];
    assert Payloads(bs[2..]) == [(v / 64) % 64, v % 64];
  }

  lemma FourByteCodePoint(c: char)
    requires 0x10000 <= c as int
    ensures var v := c as int;
      CodePoint(0xF0 + v / 262144, [(v / 4096) % 64, (v / 64) % 64, v % 64]) == Some(c)
  {
    var v := c as int;
    assert v == (v / 64) * 64 + v % 64;
    assert v / 64 == (v / 4096) * 64 + (v / 64) % 64;
    assert v / 4096 == (v / 262144) * 64 + (v / 4096) % 64;
  }

  lemma DecodeFourBytes(c: char, rest: string)
    requires 0x10000 <= c as int
    ensures DecodeComponent(EscapeAll(Utf8(c)) + rest) ==
            match DecodeComponent(rest)
            case Some(r) => Some([c] + r)
            case None => None
  {
    var v := c as int;
    var bs := Utf8(c);
    EscapedShape(c, rest);
    ReadContinuationsOf(bs[1..], rest);
    FourBytePayloads(c);
    FourByteCodePoint(c);
    DecodeMultiByteStep(EscapeAll(bs) + rest, bs[0], Payloads(bs[1..]), c);
  }

  /** Decoding the escapes of one character's UTF-8 bytes gives that character back. */
  lemma DecodeEscapedChar(c: char, rest: string)
    ensures DecodeComponent(EscapeAll(Utf8(c)) + rest) ==
            match DecodeComponent(rest)
            case Some(r) => Some([c] + r)
            case None => None
  {
    var v := c as int;
    if v < 0x80 {
      var s := EscapeAll(Utf8(c)) + rest;
      assert s == Escape(v) + rest;
      ReadEscapeOf(v, rest);
      assert s[3..] == rest;
    } else if v < 0x800 {
      DecodeTwoBytes(c, rest);
    } else if v < 0x10000 {
      DecodeThreeBytes(c, rest);
    } else {
      DecodeFourBytes(c, rest);
    }
  }

  /** `decodeURIComponent(encodeURIComponent(s)) === s` for every string. */
  lemma {:induction false} DecodeEncode(s: string)
    ensures DecodeComponent(EncodeComponent(s)) == Some(s)
  {
    if s != [] {
      DecodeEncode(s[1..]);
      var rest := EncodeComponent(s[1..]);
      if IsUnescaped(s[0]) {
        assert ([s[0]] + rest)[1..] == rest;
      } else {
        DecodeEscapedChar(s[0], rest);
      }
      assert s == [s[0]] + s[1..];
    }
  }

  // ---------------------------------------------------------------- URLSearchParams

  /** The bytes the form-urlencoded serializer leaves alone. */
  predicate IsFormSafe(b: byte) {
    b == 0x2A || b == 0x2D || b == 0x2E || b == 0x5F ||
    (0x30 <= b <= 0x39) || (0x41 <= b <= 0x5A) || (0x61 <= b <= 0x7A)
  }

  function FormEncodeBytes(bs: seq<byte>): string {
    if bs == [] then []
    else
      (if bs[0] == 0x20 then "+" else if IsFormSafe(bs[0]) then [bs[0] as char] else Escape(bs[0]))
      + FormEncodeBytes(bs[1..])
  }

  /** The `application/x-www-form-urlencoded` serialization of one string. */
  function FormEncode(s: string): string {
    if s == [] then [] else FormEncodeBytes(Utf8(s[0])) + FormEncode(s[1..])
  }

  /** A character the serializer copies as it is. */
  predicate IsFormSafeChar(c: char) {
    c as int < 0x80 && IsFormSafe(c as int)
  }

  /** A string of such characters is its own serialization. */
  lemma {:induction false} FormEncodeSafe(s: string)
    requires forall i :: 0 <= i < |s| ==> IsFormSafeChar(s[i])
    ensures FormEncode(s) == s
  {
    if s != [] {
      FormEncodeSafe(s[1..]);
      var b: byte := s[0] as int;
      assert Utf8(s[0]) == [b];
      assert FormEncodeBytes([b]) == [b as char] + FormEncodeBytes([]);
      assert (b as char) == s[0];
      assert s == [s[0]] + s[1..];
    }
  }

  /** Decimal digits are among them. */
  lemma DigitsFormSafe(s: string)
    requires forall i :: 0 <= i < |s| ==> IsDigit(s[i])
    ensures FormEncode(s) == s
  {
    FormEncodeSafe(s);
  }

  /** The parsers' lenient percent-decoding with '+' read as a space; an escape that is
      malformed or above `%7F` stays as written. */
  function FormDecode(s: string): string
    decreases |s|
  {
    if s == [] then []
    else if s[0] == '+' then " " + FormDecode(s[1..])
    else match ReadEscape(s)
      case Some(b) =>
        if b < 0x80 then [b as char] + FormDecode(s[3..]) else [s[0]] + FormDecode(s[1..])
      case None => [s[0]] + FormDecode(s[1..])
  }

  /** The parsers read back what the serializer writes, for ASCII text. */
  lemma {:induction false} FormDecodeEncode(s: string)
    requires IsAscii(s)
    ensures FormDecode(FormEncode(s)) == s
  {
    if s != [] {
      var b: byte := s[0] as int;
      var rest := FormEncode(s[1..]);
      FormDecodeEncode(s[1..]);
      assert Utf8(s[0]) == [b];
      assert FormEncode(s) == FormEncodeBytes([b]) + rest;
      if b == 0x20 {
        assert FormEncodeBytes([b]) == "+";
        assert ("+" + rest)[1..] == rest;
      } else if IsFormSafe(b) {
        assert FormEncodeBytes([b]) == [b as char];
        assert ([b as char] + rest)[1..] == rest;
      } else {
        assert FormEncodeBytes([b]) == Escape(b);
        ReadEscapeOf(b, rest);
        assert (Escape(b) + rest)[3..] == rest;
      }
      assert s == [s[0]] + s[1..];
    }
  }

  /** The serialization of a string holds neither '&' nor '='. */
  lemma {:induction false} FormEncodeSeparators(s: string)
    ensures '&' !in FormEncode(s) && '=' !in FormEncode(s)
  {
    if s != [] {
      FormEncodeSeparators(s[1..]);
      FormEncodeBytesSeparators(Utf8(s[0]));
    }
  }

  lemma {:induction false} FormEncodeBytesSeparators(bs: seq<byte>)
    ensures '&' !in FormEncodeBytes(bs) && '=' !in FormEncodeBytes(bs)
  {
    if bs != [] {
      FormEncodeBytesSeparators(bs[1..]);
      var e := Escape(bs[0]);
      assert e[1] != '&' && e[1] != '=' && e[2] != '&' && e[2] != '=';
    }
  }

  /** The first index of `c` in `s`, or `|s|`. */
  function IndexOf(s: string, c: char): (i: nat)
    ensures i <= |s| && c !in s[..i]
    ensures i < |s| ==> s[i] == c
  {
    if s == [] then 0 else if s[0] == c then 0 else 1 + IndexOf(s[1..], c)
  }

  datatype Param = Param(name: string, value: string)

  /** One `name=value` piece: the name ends at the first '='. */
  function ParseParam(piece: string): Param {
    var i := IndexOf(piece, '=');
    if i < |piece| then Param(FormDecode(piece[..i]), FormDecode(piece[i + 1..]))
    else Param(FormDecode(piece), "")
  }

  function ParsePieces(pieces: seq<string>): seq<Param> {
    if pieces == [] then []
    else (if pieces[0] == "" then [] else [ParseParam(pieces[0])]) + ParsePieces(pieces[1..])
  }

  /** `new URLSearchParams(init)`: one leading '?' is dropped, empty pieces are skipped. */
  function ParseQuery(init: string): seq<Param> {
    var body := if init != [] && init[0] == '?' then init[1..] else init;
    ParsePieces(Split(body, '&'))
  }

  function FirstValue(ps: seq<Param>, name: string): (r: Option<string>)
    ensures r.Some? ==> exists i :: 0 <= i < |ps| && ps[i] == Param(name, r.value)
    ensures r.None? ==> forall i :: 0 <= i < |ps| ==> ps[i].name != name
  {
    if ps == [] then None
    else if ps[0].name == name then Some(ps[0].value)
    else
      var r := FirstValue(ps[1..], name);
      assert r.Some? ==> ps[1..][0..] == ps[1..];
      r
  }

  /** `new URLSearchParams(init).get(name)`; None is `null`. */
  function QueryGet(init: string, name: string): Option<string> {
    FirstValue(ParseQuery(init), name)
  }

  /** `URLSearchParams.toString()` */
  function SerializeParams(ps: seq<Param>): string {
    if ps == [] then ""
    else
      FormEncode(ps[0].name) + "=" + FormEncode(ps[0].value) +
      (if |ps| == 1 then "" else "&" + SerializeParams(ps[1..]))
  }

  /** One parameter serializes as `name=` and its encoded value, for a name of
      characters the serializer keeps. */
  lemma SerializeSingle(name: string, value: string)
    requires forall i :: 0 <= i < |name| ==> IsFormSafeChar(name[i])
    ensures SerializeParams([Param(name, value)]) == name + "=" + FormEncode(value)
  {
    FormEncodeSafe(name);
  }

  /** A parameter written alone is read back by name: for a name of characters the
      serializer keeps and an ASCII value. */
  lemma QueryReadBack(name: string, value: string)
    requires name != [] && forall i :: 0 <= i < |name| ==> IsFormSafeChar(name[i])
    requires IsAscii(value)
    ensures QueryGet(name + "=" + FormEncode(value), name) == Some(value)
  {
    QuerySingle(name, value);
  }

  /** A parameter written alone parses as exactly that parameter, so no other name is
      found in it. */
  lemma QuerySingle(name: string, value: string)
    requires name != [] && forall i :: 0 <= i < |name| ==> IsFormSafeChar(name[i])
    requires IsAscii(value)
    ensures ParseQuery(name + "=" + FormEncode(value)) == [Param(name, value)]
  {
    var body := name + "=" + FormEncode(value);
    assert body[0] == name[0];
    SinglePiece(name, value);
    assert ParsePieces([body]) == [ParseParam(body)];
    FormEncodeSafe(name);
    FormDecodeEncode(name);
    FormDecodeEncode(value);
  }

  /** One leading '?' does not change what is read. */
  lemma QueryQuestionMark(s: string, name: string)
    requires s == [] || s[0] != '?'
    ensures QueryGet("?" + s, name) == QueryGet(s, name)
  {
    assert ("?" + s)[1..] == s;
  }

  /** `name=value` holds no '&', and its first '=' ends the name. */
  lemma SinglePiece(name: string, value: string)
    requires forall i :: 0 <= i < |name| ==> IsFormSafeChar(name[i])
    ensures var body := name + "=" + FormEncode(value);
      Split(body, '&') == [body] &&
      ParseParam(body) == Param(FormDecode(name), FormDecode(FormEncode(value)))
  {
    FormEncodeSafe(name);
    var e := FormEncode(value);
    FormEncodeSeparators(value);
    var body := name + "=" + e;
    forall i | 0 <= i < |body| ensures body[i] != '&' {
      if i < |name| { assert body[i] == name[i]; }
      else if i > |name| { assert body[i] == e[i - |name| - 1]; }
    }
    SplitWithoutSeparator(body, '&');
    assert body[..|name|] == name;
    IndexOfAt(body, '=', |name|);
    assert body[|name| + 1..] == e;
  }

  /** The first index of a character is where it occurs with no earlier occurrence. */
  lemma IndexOfAt(s: string, c: char, k: nat)
    requires k < |s| && s[k] == c && c !in s[..k]
    ensures IndexOf(s, c) == k
  {
  }
}

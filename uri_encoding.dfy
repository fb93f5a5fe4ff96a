/**
 * Percent-encoding as the browser does it: `encodeURIComponent`, and the
 * application/x-www-form-urlencoded serializer behind `URLSearchParams.prototype.toString`.
 * Both encode a character as the UTF-8 bytes of its code point, each written `%HH` with
 * upper-case hexadecimal digits, unless the character is in the encoder's safe set.
 * `Decode` is their inverse.
 */
module UriEncoding {
  import opened Wrappers

  type Byte = b: nat | b < 256

  /** UTF-8 encoding of one Unicode scalar value. */
  function Utf8(c: char): (bs: seq<Byte>)
    ensures 1 <= |bs| <= 4
    ensures SequenceLength(bs[0]) == |bs|
    ensures |bs| == 1 <==> c as int < 0x80
    ensures forall i :: 1 <= i < |bs| ==> 0x80 <= bs[i] < 0xC0
  {
    var cp := c as int;
    if cp < 0x80 then [cp]
    else if cp < 0x800 then [0xC0 + cp / 64, 0x80 + cp % 64]
    else if cp < 0x10000 then [0xE0 + cp / 4096, 0x80 + (cp / 64) % 64, 0x80 + cp % 64]
    else [0xF0 + cp / 262144, 0x80 + (cp / 4096) % 64, 0x80 + (cp / 64) % 64, 0x80 + cp % 64]
  }

  /** Number of bytes of the UTF-8 sequence a lead byte starts; 0 when `b` cannot lead. */
  function SequenceLength(b: nat): nat {
    if b < 0x80 then 1
    else if 0xC0 <= b < 0xE0 then 2
    else if 0xE0 <= b < 0xF0 then 3
    else if 0xF0 <= b < 0xF8 then 4
    else 0
  }

  predicate Continuation(b: nat) {
    0x80 <= b < 0xC0
  }

  predicate IsScalarValue(cp: int) {
    (0 <= cp < 0xD800) || (0xE000 <= cp < 0x110000)
  }

  /** The character that exactly the bytes `bs` encode, refusing overlong forms. */
  function Utf8Decode(bs: seq<Byte>): Option<char> {
    var cp: int :=
      if |bs| == 1 && bs[0] < 0x80 then bs[0]
      else if |bs| == 2 && SequenceLength(bs[0]) == 2 && Continuation(bs[1]) then
        var v := (bs[0] as int - 0xC0) * 64 + (bs[1] as int - 0x80);
        if v >= 0x80 then v else -1
      else if |bs| == 3 && SequenceLength(bs[0]) == 3 && Continuation(bs[1]) && Continuation(bs[2]) then
        var v := ((bs[0] as int - 0xE0) * 64 + (bs[1] as int - 0x80)) * 64 + (bs[2] as int - 0x80);
        if v >= 0x800 then v else -1
      else if |bs| == 4 && SequenceLength(bs[0]) == 4 && Continuation(bs[1]) && Continuation(bs[2])
              && Continuation(bs[3]) then
        var v := (((bs[0] as int - 0xF0) * 64 + (bs[1] as int - 0x80)) * 64 + (bs[2] as int - 0x80)) * 64 + (bs[3] as int - 0x80);
        if v >= 0x10000 then v else -1
      else -1;
    if IsScalarValue(cp) then Some(cp as char) else None
  }

  lemma Utf8RoundTrip(c: char)
    ensures Utf8Decode(Utf8(c)) == Some(c)
  {
    var cp := c as int;
    var bs := Utf8(c);
    if cp < 0x80 {
    } else if cp < 0x800 {
      assert (bs[0] as int - 0xC0) * 64 + (bs[1] as int - 0x80) == cp;
    } else if cp < 0x10000 {
      var q := cp / 64;
      assert q / 64 == cp / 4096;
      assert ((bs[0] as int - 0xE0) * 64 + (bs[1] as int - 0x80)) * 64 + (bs[2] as int - 0x80) == cp;
    } else {
      var q := cp / 64;
      var q2 := q / 64;
      assert q2 == cp / 4096;
      assert q2 / 64 == cp / 262144;
      assert (((bs[0] as int - 0xF0) * 64 + (bs[1] as int - 0x80)) * 64 + (bs[2] as int - 0x80)) * 64 + (bs[3] as int - 0x80) == cp;
    }
  }

  function HexDigit(d: nat): char
    requires d < 16
  {
    "0123456789ABCDEF"[d]
  }

  /** The value of a hexadecimal digit of either case. */
  function HexValue(c: char): Option<nat> {
    if '0' <= c <= '9' then Some(c as int - '0' as int)
    else if 'A' <= c <= 'F' then Some(c as int - 'A' as int + 10)
    else if 'a' <= c <= 'f' then Some(c as int - 'a' as int + 10)
    else None
  }

  lemma HexRoundTrip(d: nat)
    requires d < 16
    ensures HexValue(HexDigit(d)) == Some(d)
  {
  }

  /** `%HH` for one byte. */
  function Escape(b: Byte): string
  {
    ['%', HexDigit(b / 16), HexDigit(b % 16)]
  }

  function EscapeAll(bs: seq<Byte>): (s: string)
    ensures |s| == 3 * |bs|
  {
    if bs == [] then [] else Escape(bs[0]) + EscapeAll(bs[1..])
  }

  /** The byte written by the `%HH` escape at the start of `s`, if there is one. */
  function ReadEscape(s: string): Option<Byte> {
    if |s| >= 3 && s[0] == '%' && HexValue(s[1]).Some? && HexValue(s[2]).Some? then
      Some(HexValue(s[1]).value * 16 + HexValue(s[2]).value)
    else None
  }

  /** The bytes of a string made only of `%HH` escapes. */
  function ReadEscapes(s: string): Option<seq<Byte>>
    decreases |s|
  {
    if s == [] then Some([])
    else if |s| < 3 then None
    else
      match (ReadEscape(s), ReadEscapes(s[3..]))
      case (Some(b), Some(bs)) => Some([b] + bs)
      case _ => None
  }

  lemma {:induction false} ReadEscapesRoundTrip(bs: seq<Byte>)
    ensures ReadEscapes(EscapeAll(bs)) == Some(bs)
  {
    if bs != [] {
      var s := EscapeAll(bs);
      assert s == Escape(bs[0]) + EscapeAll(bs[1..]);
      ReadEscapeOf(bs[0], EscapeAll(bs[1..]));
      assert s[3..] == EscapeAll(bs[1..]);
      ReadEscapesRoundTrip(bs[1..]);
      assert [bs[0]] + bs[1..] == bs;
    }
  }

  /** The escape of a byte reads back as that byte, whatever follows it. */
  lemma ReadEscapeOf(b: Byte, rest: string)
    ensures ReadEscape(Escape(b) + rest) == Some(b)
  {
    var s := Escape(b) + rest;
    HexRoundTrip(b / 16);
    HexRoundTrip(b % 16);
    assert s[0] == '%' && s[1] == HexDigit(b / 16) && s[2] == HexDigit(b % 16);
    assert (b / 16) * 16 + b % 16 == b;
  }

  function Prepend(c: char, r: Option<string>): Option<string> {
    match r
    case Some(t) => Some([c] + t)
    case None => None
  }

  /**
   * Decodes escapes (a lead byte's escape and its continuation escapes together form one
   * character); with `plusAsSpace`, a `+` stands for a space, as in form data. Any malformed
   * escape makes the whole decoding fail.
   */
  function Decode(s: string, plusAsSpace: bool): Option<string>
    decreases |s|
  {
    if s == [] then Some([])
    else if s[0] == '+' && plusAsSpace then Prepend(' ', Decode(s[1..], plusAsSpace))
    else if s[0] != '%' then Prepend(s[0], Decode(s[1..], plusAsSpace))
    else
      match ReadEscape(s)
      case None => None
      case Some(lead) =>
        var n := SequenceLength(lead);
        if n == 0 || |s| < 3 * n then None
        else
          match ReadEscapes(s[..3 * n])
          case None => None
          case Some(bs) =>
            match Utf8Decode(bs)
            case None => None
            case Some(c) => Prepend(c, Decode(s[3 * n..], plusAsSpace))
  }

  /** The escapes of one character's UTF-8 bytes decode back to that character. */
  lemma EscapedCharDecodes(c: char, rest: string, plusAsSpace: bool)
    ensures Decode(EscapeAll(Utf8(c)) + rest, plusAsSpace) == Prepend(c, Decode(rest, plusAsSpace))
  {
    var bs := Utf8(c);
    var e := EscapeAll(bs);
    var s := e + rest;
    var n := |bs|;
    assert s == Escape(bs[0]) + (EscapeAll(bs[1..]) + rest);
    ReadEscapeOf(bs[0], EscapeAll(bs[1..]) + rest);
    assert s[..3 * n] == e;
    ReadEscapesRoundTrip(bs);
    Utf8RoundTrip(c);
    assert s[3 * n..] == rest;
  }

  // ---------------------------------------------------------------- encodeURIComponent

  /** The characters `encodeURIComponent` leaves as they are. */
  predicate UriUnreserved(c: char) {
    ('A' <= c <= 'Z') || ('a' <= c <= 'z') || ('0' <= c <= '9') || c in "-_.!~*'()"
  }

  function EncodeUriChar(c: char): string {
    if UriUnreserved(c) then [c] else EscapeAll(Utf8(c))
  }

  /** `encodeURIComponent(s)`. */
  function EncodeUriComponent(s: string): string {
    if s == [] then [] else EncodeUriChar(s[0]) + EncodeUriComponent(s[1..])
  }

  /** `encodeURIComponent` writes only unreserved characters, `%` and hexadecimal digits. */
  lemma {:induction false} EncodeUriComponentAlphabet(s: string)
    ensures forall ch :: ch in EncodeUriComponent(s) ==> UriUnreserved(ch) || ch == '%'
  {
    if s != [] {
      EscapeAllAlphabet(Utf8(s[0]));
      EncodeUriComponentAlphabet(s[1..]);
    }
  }

  lemma {:induction false} EscapeAllAlphabet(bs: seq<Byte>)
    ensures forall ch :: ch in EscapeAll(bs) ==> ch == '%' || ('0' <= ch <= '9') || ('A' <= ch <= 'F')
  {
    if bs != [] {
      EscapeAllAlphabet(bs[1..]);
    }
  }

  /** Decoding what `encodeURIComponent` produced gives back the original text. */
  lemma {:induction false} EncodeUriComponentRoundTrip(s: string)
    ensures Decode(EncodeUriComponent(s), false) == Some(s)
  {
    if s != [] {
      var c := s[0];
      var tail := EncodeUriComponent(s[1..]);
      EncodeUriComponentRoundTrip(s[1..]);
      if UriUnreserved(c) {
        assert ([c] + tail)[1..] == tail;
      } else {
        EscapedCharDecodes(c, tail, false);
      }
      assert [c] + s[1..] == s;
    }
  }

  // ---------------------------------------------------------------- form data

  /** The bytes the form serializer leaves as they are: `*-._`, digits and ASCII letters. */
  predicate FormSafeByte(b: nat) {
    b == 0x2A || b == 0x2D || b == 0x2E || (0x30 <= b <= 0x39) || (0x41 <= b <= 0x5A) || b == 0x5F
    || (0x61 <= b <= 0x7A)
  }

  function FormEncodeBytes(bs: seq<Byte>): string
  {
    if bs == [] then []
    else
      var b := bs[0];
      (if b == 0x20 then "+" else if FormSafeByte(b) then [b as char] else Escape(b))
      + FormEncodeBytes(bs[1..])
  }

  /** The application/x-www-form-urlencoded form of a name or a value. */
  function FormEncode(s: string): string {
    if s == [] then [] else FormEncodeBytes(Utf8(s[0])) + FormEncode(s[1..])
  }

  /** Per character: a space becomes `+`, a safe ASCII character stays, anything else is escaped. */
  lemma FormEncodeChar(c: char)
    ensures FormEncodeBytes(Utf8(c)) ==
      if c == ' ' then "+"
      else if FormSafeByte(c as int) then [c]
      else EscapeAll(Utf8(c))
  {
    var bs := Utf8(c);
    if c as int >= 0x80 {
      NoSafeBytes(bs);
    }
  }

  lemma {:induction false} NoSafeBytes(bs: seq<Byte>)
    requires forall i :: 0 <= i < |bs| ==> 0x80 <= bs[i]
    ensures FormEncodeBytes(bs) == EscapeAll(bs)
  {
    if bs != [] {
      NoSafeBytes(bs[1..]);
    }
  }

  /** Form encoding never produces the characters that delimit pairs, `&` and `=`. */
  lemma {:induction false} FormEncodeAlphabet(s: string)
    ensures forall ch :: ch in FormEncode(s) ==> ch != '&' && ch != '='
  {
    if s != [] {
      FormEncodeChar(s[0]);
      EscapeAllAlphabet(Utf8(s[0]));
      FormEncodeAlphabet(s[1..]);
    }
  }

  /** Decoding form data gives back the encoded text. */
  lemma {:induction false} FormEncodeRoundTrip(s: string)
    ensures Decode(FormEncode(s), true) == Some(s)
  {
    if s != [] {
      var c := s[0];
      var tail := FormEncode(s[1..]);
      FormEncodeRoundTrip(s[1..]);
      FormEncodeChar(c);
      if c == ' ' {
        assert ("+" + tail)[1..] == tail;
      } else if FormSafeByte(c as int) {
        assert ([c] + tail)[1..] == tail;
      } else {
        EscapedCharDecodes(c, tail, true);
      }
      assert [c] + s[1..] == s;
    }
  }
}

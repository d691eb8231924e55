/**
 Percent escapes (crates/atlas-core/src/keys.rs, in the style of section 2.1 of RFC 3986): control characters
 and the characters a field reserves are written byte by byte as `%XX`.
 */
module Escape {
  import opened Wrappers
  import opened Utf8

  /** `char::is_control`: the C0 and C1 control characters. */
  predicate IsControl(c: char)
  {
    (c as int) < 0x20 || 0x7F <= (c as int) < 0xA0
  }

  predicate NeedsEscape(c: char, reserved: string)
  {
    IsControl(c) || c in reserved
  }

  predicate IsUpperHex(c: char)
  {
    '0' <= c <= '9' || 'A' <= c <= 'F'
  }

  function HexChar(digit: nat): (c: char)
    requires digit < 16
    ensures IsUpperHex(c)
  {
    if digit < 10 then (digit + '0' as int) as char else (digit - 10 + 'A' as int) as char
  }

  /** `%{byte:02X}`. */
  function PercentByte(b: byte): string
  {
    ['%', HexChar(b / 16), HexChar(b % 16)]
  }

  function PercentBytes(bytes: seq<byte>): string
  {
    if bytes == [] then [] else PercentByte(bytes[0]) + PercentBytes(bytes[1..])
  }

  function EscapedChar(c: char, reserved: string): string
  {
    if NeedsEscape(c, reserved) then PercentBytes(EncodeChar(c)) else [c]
  }

  function Escaped(value: string, reserved: string): string
  {
    if value == [] then [] else EscapedChar(value[0], reserved) + Escaped(value[1..], reserved)
  }

  /** `escape`: the loop over the characters, and the shortcut when nothing needs it. */
  method EscapeText(value: string, reserved: string) returns (escaped: string)
    ensures escaped == Escaped(value, reserved)
  {
    if forall i :: 0 <= i < |value| ==> !NeedsEscape(value[i], reserved) {
      NothingToEscape(value, reserved);
      return value;
    }
    escaped := [];
    for i := 0 to |value|
      invariant escaped + Escaped(value[i..], reserved) == Escaped(value, reserved)
    {
      assert value[i..][0] == value[i] && value[i..][1..] == value[i + 1..];
      escaped := escaped + EscapedChar(value[i], reserved);
    }
  }

  lemma {:induction false} NothingToEscape(value: string, reserved: string)
    requires forall i :: 0 <= i < |value| ==> !NeedsEscape(value[i], reserved)
    ensures Escaped(value, reserved) == value
  {
    if value != [] {
      NothingToEscape(value[1..], reserved);
    }
  }

  /** `u8::from_str_radix(_, 16)` of one digit. */
  function HexDigit(b: byte): Option<nat>
  {
    if '0' as int <= b <= '9' as int then Some(b - '0' as int)
    else if 'A' as int <= b <= 'F' as int then Some(b - 'A' as int + 10)
    else if 'a' as int <= b <= 'f' as int then Some(b - 'a' as int + 10)
    else None
  }

  /** `u8::from_str_radix(_, 16)` of two characters: two digits, or a plus sign and a digit. */
  function HexPair(a: byte, b: byte): Option<byte>
  {
    if HexDigit(b).None? then None
    else if a == '+' as int then Some(HexDigit(b).value)
    else if HexDigit(a).Some? then Some(HexDigit(a).value * 16 + HexDigit(b).value)
    else None
  }

  function Prepend(front: seq<byte>, rest: Option<seq<byte>>): Option<seq<byte>>
  {
    if rest.Some? then Some(front + rest.value) else None
  }

  lemma PrependTwice(a: seq<byte>, b: seq<byte>, rest: Option<seq<byte>>)
    ensures Prepend(a, Prepend(b, rest)) == Prepend(a + b, rest)
  {
    if rest.Some? {
      assert a + (b + rest.value) == a + b + rest.value;
    }
  }

  lemma PrependNothing(rest: Option<seq<byte>>)
    ensures Prepend([], rest) == rest
  {
    if rest.Some? {
      assert [] + rest.value == rest.value;
    }
  }

  function UnescapedBytes(bytes: seq<byte>): Option<seq<byte>>
    decreases |bytes|
  {
    if bytes == [] then Some([])
    else if bytes[0] != '%' as int then
      Prepend([bytes[0]], UnescapedBytes(bytes[1..]))
    else if |bytes| < 3 || HexPair(bytes[1], bytes[2]).None? then None
    else
      Prepend([HexPair(bytes[1], bytes[2]).value], UnescapedBytes(bytes[3..]))
  }

  function Unescaped(value: string): Option<string>
  {
    match UnescapedBytes(Encode(value))
    case None => None
    case Some(decoded) => Decode(decoded)
  }

  /** `unescape`: one pass over the bytes. */
  method UnescapeText(value: string) returns (r: Option<string>)
    ensures r == Unescaped(value)
  {
    var bytes := Encode(value);
    var decoded: seq<byte> := [];
    var index := 0;
    assert bytes[0..] == bytes;
    PrependNothing(UnescapedBytes(bytes));
    while index < |bytes|
      invariant 0 <= index <= |bytes|
      invariant UnescapedBytes(bytes) == Prepend(decoded, UnescapedBytes(bytes[index..]))
    {
      var rest := bytes[index..];
      if bytes[index] != '%' as int {
        assert rest[1..] == bytes[index + 1..];
        PrependTwice(decoded, [bytes[index]], UnescapedBytes(rest[1..]));
        decoded := decoded + [bytes[index]];
        index := index + 1;
      } else {
        if index + 3 > |bytes| || HexPair(bytes[index + 1], bytes[index + 2]).None? {
          return None;
        }
        assert rest[3..] == bytes[index + 3..];
        var b := HexPair(bytes[index + 1], bytes[index + 2]).value;
        PrependTwice(decoded, [b], UnescapedBytes(rest[3..]));
        decoded := decoded + [b];
        index := index + 3;
      }
    }
    assert bytes[index..] == [];
    assert decoded + [] == decoded;
    r := Decode(decoded);
  }

  // ----- unescaping undoes escaping

  lemma HexPairOfByte(b: byte)
    ensures HexPair(HexChar(b / 16) as int, HexChar(b % 16) as int) == Some(b)
  {
    HexDigitOfChar(b / 16);
    HexDigitOfChar(b % 16);
  }

  lemma HexDigitOfChar(digit: nat)
    requires digit < 16
    ensures HexDigit(HexChar(digit) as int) == Some(digit)
  {
  }

  lemma EncodeAscii(c: char, rest: string)
    requires c as int < 0x80
    ensures Encode([c] + rest) == [c as int] + Encode(rest)
  {
    assert ([c] + rest)[1..] == rest;
  }

  lemma UnescapePercentByte(b: byte, rest: string)
    ensures UnescapedBytes(Encode(PercentByte(b) + rest)) ==
            Prepend([b], UnescapedBytes(Encode(rest)))
  {
    var high, low := HexChar(b / 16), HexChar(b % 16);
    EncodeAscii(low, rest);
    EncodeAscii(high, [low] + rest);
    EncodeAscii('%', [high] + ([low] + rest));
    assert PercentByte(b) + rest == ['%'] + ([high] + ([low] + rest));
    HexPairOfByte(b);
    var bytes := Encode(PercentByte(b) + rest);
    assert bytes == [0x25, high as int, low as int] + Encode(rest);
    assert bytes[3..] == Encode(rest);
  }

  lemma {:induction false} UnescapePercentBytes(bytes: seq<byte>, rest: string)
    ensures UnescapedBytes(Encode(PercentBytes(bytes) + rest)) ==
            Prepend(bytes, UnescapedBytes(Encode(rest)))
  {
    if bytes == [] {
      assert PercentBytes(bytes) + rest == rest;
      PrependNothing(UnescapedBytes(Encode(rest)));
    } else {
      var tail := PercentBytes(bytes[1..]) + rest;
      UnescapePercentByte(bytes[0], tail);
      UnescapePercentBytes(bytes[1..], rest);
      assert PercentBytes(bytes) + rest == PercentByte(bytes[0]) + tail;
      PrependTwice([bytes[0]], bytes[1..], UnescapedBytes(Encode(rest)));
      assert [bytes[0]] + bytes[1..] == bytes;
    }
  }

  lemma {:induction false} UnescapePlainBytes(plain: seq<byte>, rest: seq<byte>)
    requires forall i :: 0 <= i < |plain| ==> plain[i] != '%' as int
    ensures UnescapedBytes(plain + rest) == Prepend(plain, UnescapedBytes(rest))
  {
    if plain == [] {
      assert plain + rest == rest;
      PrependNothing(UnescapedBytes(rest));
    } else {
      assert (plain + rest)[1..] == plain[1..] + rest;
      UnescapePlainBytes(plain[1..], rest);
      PrependTwice([plain[0]], plain[1..], UnescapedBytes(rest));
      assert [plain[0]] + plain[1..] == plain;
    }
  }

  lemma {:induction false} UnescapeEscapedBytes(value: string, reserved: string)
    requires '%' in reserved
    ensures UnescapedBytes(Encode(Escaped(value, reserved))) == Some(Encode(value))
  {
    if value != [] {
      var c, rest := value[0], Escaped(value[1..], reserved);
      UnescapeEscapedBytes(value[1..], reserved);
      if NeedsEscape(c, reserved) {
        UnescapePercentBytes(EncodeChar(c), rest);
      } else {
        assert ([c] + rest)[1..] == rest;
        UnescapePlainBytes(EncodeChar(c), Encode(rest));
      }
    }
  }

  /** Reading an escaped field gives the field, whatever characters it holds. */
  lemma UnescapeEscaped(value: string, reserved: string)
    requires '%' in reserved
    ensures Unescaped(Escaped(value, reserved)) == Some(value)
  {
    UnescapeEscapedBytes(value, reserved);
    DecodeEncode(value);
  }

  // ----- what an escaped field cannot contain

  lemma {:induction false} PercentBytesChars(bytes: seq<byte>, c: char)
    requires c != '%' && !IsUpperHex(c)
    ensures c !in PercentBytes(bytes)
  {
    if bytes != [] {
      PercentBytesChars(bytes[1..], c);
    }
  }

  /** A reserved separator never survives escaping. */
  lemma {:induction false} NoSeparator(value: string, reserved: string, c: char)
    requires c in reserved && c != '%' && !IsUpperHex(c)
    ensures c !in Escaped(value, reserved)
  {
    if value != [] {
      NoSeparator(value[1..], reserved, c);
      PercentBytesChars(EncodeChar(value[0]), c);
    }
  }

  lemma EscapedNonEmpty(value: string, reserved: string)
    ensures Escaped(value, reserved) == [] <==> value == []
  {
    if value != [] {
      assert |EscapedChar(value[0], reserved)| > 0;
    }
  }
}

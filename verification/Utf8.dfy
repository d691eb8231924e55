/**
 UTF-8 (RFC 3629, section 3): the encoding of Unicode scalar values as one to four bytes, a strict
 decoder, and the facts the edit and key models need: decoding undoes encoding, and valid text may be
 cut and joined at character boundaries.
 */
module Utf8 {
  import opened Wrappers

  type byte = b: int | 0 <= b < 256

  predicate IsContinuation(b: byte) { 0x80 <= b < 0xC0 }

  /** `str::is_char_boundary`: the ends of the text, and every byte that is not a continuation byte. */
  predicate IsCharBoundary(s: seq<byte>, i: nat)
  {
    i == 0 || i == |s| || (i < |s| && !IsContinuation(s[i]))
  }

  function EncodeChar(c: char): (bytes: seq<byte>)
    ensures 1 <= |bytes| <= 4
    ensures c as int < 0x80 <==> bytes[0] < 0x80
    ensures c as int < 0x80 ==> bytes == [c as int]
    ensures c as int >= 0x80 ==> forall i :: 0 <= i < |bytes| ==> bytes[i] >= 0x80
    ensures forall i :: 1 <= i < |bytes| ==> IsContinuation(bytes[i])
  {
    var n := c as int;
    if n < 0x80 then [n]
    else if n < 0x800 then [0xC0 + n / 0x40, 0x80 + n % 0x40]
    else if n < 0x10000 then [0xE0 + n / 0x40 / 0x40, 0x80 + n / 0x40 % 0x40, 0x80 + n % 0x40]
    else [0xF0 + n / 0x40 / 0x40 / 0x40, 0x80 + n / 0x40 / 0x40 % 0x40, 0x80 + n / 0x40 % 0x40, 0x80 + n % 0x40]
  }

  function Encode(text: string): seq<byte>
  {
    if text == [] then [] else EncodeChar(text[0]) + Encode(text[1..])
  }

  predicate IsScalar(n: int) { 0 <= n < 0xD800 || 0xE000 <= n < 0x11_0000 }

  /** The number whose base-64 digits are `high` and then the payloads of the continuation bytes `rest`. */
  function Scalar(high: int, rest: seq<byte>): int
  {
    if rest == [] then high else Scalar(high, rest[..|rest| - 1]) * 0x40 + (rest[|rest| - 1] as int - 0x80)
  }

  /** What the first byte promises: how many bytes follow it, its own payload, and the least value allowed. */
  function Lead(b: byte): Option<(nat, int, int)>
  {
    if b < 0x80 then Some((0, b, 0))
    else if 0xC0 <= b < 0xE0 then Some((1, b as int - 0xC0, 0x80))
    else if 0xE0 <= b < 0xF0 then Some((2, b as int - 0xE0, 0x800))
    else if 0xF0 <= b < 0xF8 then Some((3, b as int - 0xF0, 0x10000))
    else None
  }

  /** The first character and how many bytes it takes; nothing for an ill-formed start. */
  function DecodeChar(s: seq<byte>): (r: Option<(char, nat)>)
    ensures r.Some? ==> 1 <= r.value.1 <= |s|
  {
    if s == [] then None
    else
      match Lead(s[0])
      case None => None
      case Some((more, high, least)) =>
        if |s| <= more || exists i :: 1 <= i <= more && !IsContinuation(s[i]) then None
        else
          var n := Scalar(high, s[1..more + 1]);
          if n >= least && IsScalar(n) then Some((n as char, more + 1)) else None
  }

  function Decode(s: seq<byte>): Option<string>
  {
    if s == [] then Some("")
    else
      match DecodeChar(s)
      case None => None
      case Some((c, width)) =>
        match Decode(s[width..])
        case None => None
        case Some(rest) => Some([c] + rest)
  }

  predicate IsUtf8(s: seq<byte>) { Decode(s).Some? }

  lemma ScalarStep(high: int, rest: seq<byte>, last: byte)
    ensures Scalar(high, rest + [last]) == Scalar(high, rest) * 0x40 + (last as int - 0x80)
  {
    assert (rest + [last])[..|rest|] == rest;
  }

  lemma ScalarOfTwo(high: int, a: byte, b: byte)
    ensures Scalar(high, [a, b]) == (high * 0x40 + (a as int - 0x80)) * 0x40 + (b as int - 0x80)
  {
    ScalarStep(high, [], a);
    ScalarStep(high, [a], b);
    assert [] + [a] == [a] && [a] + [b] == [a, b];
  }

  /** Encoding a character and reading it back, whatever follows. */
  lemma DecodeCharOfEncoding(c: char, rest: seq<byte>)
    ensures DecodeChar(EncodeChar(c) + rest) == Some((c, |EncodeChar(c)|))
  {
    var e, n := EncodeChar(c), c as int;
    var s := e + rest;
    assert s[0] == e[0];
    assert s[1..|e|] == e[1..];
    if n < 0x80 {
    } else if n < 0x800 {
      ScalarStep(n / 0x40, [], e[1]);
      assert e[1..] == [] + [e[1]];
    } else if n < 0x10000 {
      ScalarOfTwo(n / 0x40 / 0x40, e[1], e[2]);
      assert e[1..] == [e[1], e[2]];
    } else {
      ScalarOfTwo(n / 0x40 / 0x40 / 0x40, e[1], e[2]);
      ScalarStep(n / 0x40 / 0x40 / 0x40, [e[1], e[2]], e[3]);
      assert e[1..] == [e[1], e[2]] + [e[3]];
    }
  }

  lemma RestOf(s: seq<byte>)
    ensures |s| > 1 ==> s[1..2] == [] + [s[1]]
    ensures |s| > 2 ==> s[1..3] == [s[1], s[2]]
    ensures |s| > 3 ==> s[1..4] == [s[1], s[2]] + [s[3]]
  {
  }

  lemma Digit(n: int, high: int, b: byte)
    requires IsContinuation(b) && n == high * 0x40 + (b as int - 0x80)
    ensures n / 0x40 == high && n % 0x40 == b as int - 0x80
  {
  }

  /** What a successful reading says about the bytes. */
  lemma ReadBytes(s: seq<byte>, more: nat, high: int, least: int)
    requires DecodeChar(s).Some? && Lead(s[0]) == Some((more, high, least))
    ensures more < |s| && DecodeChar(s).value.1 == more + 1
    ensures forall i :: 1 <= i <= more ==> IsContinuation(s[i])
    ensures Scalar(high, s[1..more + 1]) == DecodeChar(s).value.0 as int >= least
  {
  }

  lemma EncodingOfTwo(s: seq<byte>, high: int)
    requires DecodeChar(s).Some? && Lead(s[0]) == Some((1, high, 0x80))
    ensures EncodeChar(DecodeChar(s).value.0) == s[..2]
  {
    ReadBytes(s, 1, high, 0x80);
    RestOf(s);
    ScalarStep(high, [], s[1]);
    Digit(Scalar(high, s[1..2]), high, s[1]);
  }

  lemma EncodingOfThree(s: seq<byte>, high: int)
    requires DecodeChar(s).Some? && Lead(s[0]) == Some((2, high, 0x800))
    ensures EncodeChar(DecodeChar(s).value.0) == s[..3]
  {
    ReadBytes(s, 2, high, 0x800);
    RestOf(s);
    ScalarOfTwo(high, s[1], s[2]);
    var n := Scalar(high, s[1..3]);
    Digit(n, high * 0x40 + (s[1] as int - 0x80), s[2]);
    Digit(n / 0x40, high, s[1]);
  }

  lemma EncodingOfFour(s: seq<byte>, high: int)
    requires DecodeChar(s).Some? && Lead(s[0]) == Some((3, high, 0x10000))
    ensures EncodeChar(DecodeChar(s).value.0) == s[..4]
  {
    ReadBytes(s, 3, high, 0x10000);
    RestOf(s);
    ScalarOfTwo(high, s[1], s[2]);
    ScalarStep(high, [s[1], s[2]], s[3]);
    var n := Scalar(high, s[1..4]);
    Digit(n, Scalar(high, [s[1], s[2]]), s[3]);
    Digit(n / 0x40, high * 0x40 + (s[1] as int - 0x80), s[2]);
    Digit(n / 0x40 / 0x40, high, s[1]);
  }

  /** Reading a character consumes exactly its encoding. */
  lemma EncodingOfDecodeChar(s: seq<byte>)
    requires DecodeChar(s).Some?
    ensures EncodeChar(DecodeChar(s).value.0) == s[..DecodeChar(s).value.1]
  {
    var (more, high, least) := Lead(s[0]).value;
    ReadBytes(s, more, high, least);
    if more == 0 {
      assert s[1..1] == [];
    } else if more == 1 {
      EncodingOfTwo(s, high);
    } else if more == 2 {
      EncodingOfThree(s, high);
    } else {
      EncodingOfFour(s, high);
    }
  }

  lemma {:induction false} DecodeEncode(text: string)
    ensures Decode(Encode(text)) == Some(text)
  {
    if text != [] {
      var head := EncodeChar(text[0]);
      DecodeCharOfEncoding(text[0], Encode(text[1..]));
      assert Encode(text)[|head|..] == Encode(text[1..]);
      DecodeEncode(text[1..]);
      assert [text[0]] + text[1..] == text;
    }
  }

  lemma {:induction false} EncodeConcat(a: string, b: string)
    ensures Encode(a + b) == Encode(a) + Encode(b)
  {
    if a == [] {
      assert a + b == b;
    } else {
      EncodeConcat(a[1..], b);
      assert (a + b)[1..] == a[1..] + b;
    }
  }

  lemma DecodeStep(s: seq<byte>, text: string)
    requires s != [] && Decode(s) == Some(text)
    ensures DecodeChar(s).Some? && text != [] && DecodeChar(s).value.0 == text[0]
    ensures Decode(s[DecodeChar(s).value.1..]) == Some(text[1..])
  {
  }

  lemma JoinsEncoded(text: string, s: seq<byte>, width: nat)
    requires text != [] && width <= |s| && EncodeChar(text[0]) == s[..width] && Encode(text[1..]) == s[width..]
    ensures Encode(text) == s
  {
    assert s[..width] + s[width..] == s;
  }

  lemma {:induction false} DecodedEncodes(s: seq<byte>, text: string)
    requires Decode(s) == Some(text)
    ensures Encode(text) == s
  {
    if s != [] {
      DecodeStep(s, text);
      var width := DecodeChar(s).value.1;
      DecodedEncodes(s[width..], text[1..]);
      assert EncodeChar(text[0]) == s[..width] by {
        EncodingOfDecodeChar(s);
      }
      JoinsEncoded(text, s, width);
    }
  }

  /** Writing what was read gives the bytes back. */
  lemma EncodeDecode(s: seq<byte>)
    requires IsUtf8(s)
    ensures Encode(Decode(s).value) == s
  {
    DecodedEncodes(s, Decode(s).value);
  }

  lemma ConcatIsUtf8(a: seq<byte>, b: seq<byte>)
    requires IsUtf8(a) && IsUtf8(b)
    ensures IsUtf8(a + b)
  {
    EncodeDecode(a);
    EncodeDecode(b);
    EncodeConcat(Decode(a).value, Decode(b).value);
    DecodeEncode(Decode(a).value + Decode(b).value);
  }

  /** A boundary of an encoded text is at its start or after its first character. */
  lemma BoundaryAfterFirst(text: string, i: nat)
    requires text != [] && 0 < i <= |Encode(text)| && IsCharBoundary(Encode(text), i)
    ensures var width := |EncodeChar(text[0])|;
            width <= i && i - width <= |Encode(text[1..])| && IsCharBoundary(Encode(text[1..]), i - width)
  {
    var head, rest := EncodeChar(text[0]), Encode(text[1..]);
    assert Encode(text) == head + rest;
    assert forall k :: 1 <= k < |head| ==> Encode(text)[k] == head[k] && IsContinuation(head[k]);
  }

  lemma EncodeCons(c: char, text: string)
    ensures Encode([c] + text) == EncodeChar(c) + Encode(text)
  {
    assert ([c] + text)[1..] == text;
  }

  lemma CutOfConcat(a: seq<byte>, b: seq<byte>, i: nat)
    requires |a| <= i <= |a| + |b|
    ensures (a + b)[..i] == a + b[..i - |a|] && (a + b)[i..] == b[i - |a|..]
  {
  }

  /** A character boundary of an encoded text falls between two of its characters. */
  lemma {:induction false} BoundaryBetweenChars(text: string, i: nat) returns (before: string, after: string)
    requires i <= |Encode(text)| && IsCharBoundary(Encode(text), i)
    ensures text == before + after && Encode(before) == Encode(text)[..i] && Encode(after) == Encode(text)[i..]
  {
    if i == 0 {
      before, after := [], text;
    } else {
      var head, tail := EncodeChar(text[0]), text[1..];
      BoundaryAfterFirst(text, i);
      before, after := BoundaryBetweenChars(tail, i - |head|);
      EncodeCons(text[0], before);
      CutOfConcat(head, Encode(tail), i);
      before := [text[0]] + before;
    }
  }

  /** Valid text cut at a character boundary leaves two valid texts, so slicing there cannot panic. */
  lemma CutIsUtf8(s: seq<byte>, i: nat)
    requires IsUtf8(s) && i <= |s| && IsCharBoundary(s, i)
    ensures IsUtf8(s[..i]) && IsUtf8(s[i..])
  {
    var text := Decode(s).value;
    EncodeDecode(s);
    var before, after := BoundaryBetweenChars(text, i);
    DecodeEncode(before);
    DecodeEncode(after);
  }

  /** At a boundary of valid text a whole character begins, and no boundary falls inside it. */
  lemma CharAt(s: seq<byte>, i: nat) returns (width: nat)
    requires IsUtf8(s) && i < |s| && IsCharBoundary(s, i)
    ensures Lead(s[i]).Some? && width == Lead(s[i]).value.0 + 1 && i + width <= |s| && IsCharBoundary(s, i + width)
    ensures forall k :: i < k < i + width ==> IsContinuation(s[k])
  {
    CutIsUtf8(s, i);
    var rest := s[i..];
    width := DecodeChar(rest).value.1;
    forall k | i < k < i + width ensures IsContinuation(s[k]) {
      assert s[k] == rest[k - i];
    }
    if i + width < |s| {
      assert Decode(rest[width..]).Some?;
      assert rest[width..][0] == s[i + width];
    }
  }

  /** In valid text a character ends after every ASCII byte. */
  lemma BoundaryAfterAscii(s: seq<byte>, i: nat)
    requires IsUtf8(s) && 0 < i <= |s| && s[i - 1] < 0x80
    ensures IsCharBoundary(s, i)
  {
    var width := CharAt(s, i - 1);
  }
}

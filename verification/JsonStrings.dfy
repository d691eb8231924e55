/**
 JSON strings (section 7 of RFC 8259) as the edit code meets them: how a key is written, how a key's text is
 read, and that reading undoes writing.
 */
module JsonStrings {
  import opened Wrappers

  /** A text in quotes may hold it: every backslash is followed by a character, and no quote stands alone. */
  predicate IsBody(body: string)
  {
    body == [] ||
    (if body[0] == '\\' then |body| > 1 && IsBody(body[2..]) else body[0] != '"' && IsBody(body[1..]))
  }

  function HexValue(c: char): Option<nat>
  {
    if '0' <= c <= '9' then Some((c - '0') as nat)
    else if 'a' <= c <= 'f' then Some((c - 'a') as nat + 10)
    else if 'A' <= c <= 'F' then Some((c - 'A') as nat + 10)
    else None
  }

  function HexDigit(n: nat): char
    requires n < 16
  {
    if n < 10 then '0' + n as char else 'a' + (n - 10) as char
  }

  /** The number four hexadecimal digits stand for. */
  function Hex4(s: string): (r: Option<nat>)
    ensures r.Some? ==> r.value < 0x1_0000
  {
    if |s| < 4 then None
    else
      match (HexValue(s[0]), HexValue(s[1]), HexValue(s[2]), HexValue(s[3]))
      case (Some(a), Some(b), Some(c), Some(d)) =>
        if a < 16 && b < 16 && c < 16 && d < 16 then Some(((a * 16 + b) * 16 + c) * 16 + d) else None
      case _ => None
  }

  /** The character after a backslash, for the escapes of one letter. */
  function Short(c: char): Option<char>
  {
    if c == '"' || c == '\\' || c == '/' then Some(c)
    else if c == 'b' then Some(8 as char)
    else if c == 'f' then Some(12 as char)
    else if c == 'n' then Some('\n')
    else if c == 'r' then Some('\r')
    else if c == 't' then Some('\t')
    else None
  }

  /** The character that `\u` and what follows it stand for, and how much text it takes; surrogates come in pairs. */
  function ReadUnicode(body: string): (r: Option<(char, nat)>)
    requires |body| >= 2
    ensures r.Some? ==> 2 <= r.value.1 <= |body|
  {
    match Hex4(body[2..])
    case None => None
    case Some(n) =>
      if n < 0xD800 || 0xE000 <= n then Some((n as char, 6))
      else if n >= 0xDC00 || |body| < 8 || body[6] != '\\' || body[7] != 'u' then None
      else
        match Hex4(body[8..])
        case None => None
        case Some(low) =>
          if low < 0xDC00 || 0xE000 <= low then None
          else Some(((0x1_0000 + (n - 0xD800) * 0x400 + (low - 0xDC00)) as char, 12))
  }

  /** The first character a string's text stands for, and how much text it takes. */
  function ReadChar(body: string): (r: Option<(char, nat)>)
    requires body != []
    ensures r.Some? ==> 1 <= r.value.1 <= |body|
  {
    if body[0] != '\\' then (if body[0] == '"' || body[0] < ' ' then None else Some((body[0], 1)))
    else if |body| < 2 then None
    else if body[1] == 'u' then ReadUnicode(body)
    else if Short(body[1]).Some? then Some((Short(body[1]).value, 2))
    else None
  }

  /** What a string's text between the quotes stands for; nothing when it is not valid. */
  function Unescape(body: string): Option<string>
    decreases |body|
  {
    if body == [] then Some([])
    else
      match ReadChar(body)
      case None => None
      case Some((c, width)) =>
        var rest := Unescape(body[width..]);
        if rest.Some? then Some([c] + rest.value) else None
  }

  lemma HexIsPlain(s: string)
    requires Hex4(s).Some?
    ensures forall i :: 0 <= i < 4 ==> s[i] != '\\' && s[i] != '"'
  {
  }

  lemma PlainThenBody(s: string, n: nat)
    requires n <= |s| && (forall i :: 0 <= i < n ==> s[i] != '\\' && s[i] != '"') && IsBody(s[n..])
    ensures IsBody(s)
    decreases n
  {
    if n == 0 {
      assert s[0..] == s;
    } else {
      assert s[1..][n - 1..] == s[n..];
      PlainThenBody(s[1..], n - 1);
    }
  }

  lemma EscapeThenBody(s: string)
    requires |s| >= 6 && s[0] == '\\' && Hex4(s[2..]).Some? && IsBody(s[6..])
    ensures IsBody(s)
  {
    HexIsPlain(s[2..]);
    assert s[2..][4..] == s[6..];
    PlainThenBody(s[2..], 4);
  }

  /** What is read as one character can stand before any text between quotes. */
  lemma CharThenBody(body: string)
    requires body != [] && ReadChar(body).Some? && IsBody(body[ReadChar(body).value.1..])
    ensures IsBody(body)
  {
    if body[0] == '\\' && body[1] == 'u' {
      if ReadChar(body).value.1 == 12 {
        assert body[6..][6..] == body[12..] && body[6..][2..] == body[8..];
        EscapeThenBody(body[6..]);
      }
      EscapeThenBody(body);
    }
  }

  /** Text that can be read can stand between quotes. */
  lemma {:induction false} ReadableIsBody(body: string)
    requires Unescape(body).Some?
    ensures IsBody(body)
    decreases |body|
  {
    if body != [] {
      ReadableIsBody(body[ReadChar(body).value.1..]);
      CharThenBody(body);
    }
  }

  /** How a character of a key is written. */
  function EscapeChar(c: char): string
  {
    if c == '"' then "\\\""
    else if c == '\\' then "\\\\"
    else if c as int == 8 then "\\b"
    else if c as int == 12 then "\\f"
    else if c == '\n' then "\\n"
    else if c == '\r' then "\\r"
    else if c == '\t' then "\\t"
    else if c < ' ' then "\\u00" + [HexDigit(c as nat / 16), HexDigit(c as nat % 16)]
    else [c]
  }

  function Escape(text: string): string
  {
    if text == [] then [] else EscapeChar(text[0]) + Escape(text[1..])
  }

  lemma ReadsEscapedChar(c: char, rest: string)
    ensures ReadChar(EscapeChar(c) + rest) == Some((c, |EscapeChar(c)|))
  {
    var s := EscapeChar(c) + rest;
    if c < ' ' && |EscapeChar(c)| == 6 {
      var high, low := HexDigit(c as nat / 16), HexDigit(c as nat % 16);
      assert s[2..][0] == '0' && s[2..][1] == '0' && s[2..][2] == high && s[2..][3] == low;
      assert HexValue(high) == Some(c as nat / 16) && HexValue(low) == Some(c as nat % 16);
      assert Hex4(s[2..]) == Some(c as nat);
    } else if |EscapeChar(c)| == 2 {
      assert Short(s[1]) == Some(c);
    }
  }

  /** Reading a written key gives the key. */
  lemma {:induction false} UnescapeEscape(text: string)
    ensures Unescape(Escape(text)) == Some(text)
  {
    if text != [] {
      var rest := Escape(text[1..]);
      UnescapeEscape(text[1..]);
      ReadsEscapedChar(text[0], rest);
      assert Escape(text)[|EscapeChar(text[0])|..] == rest;
      assert [text[0]] + text[1..] == text;
    }
  }
}

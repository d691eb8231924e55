/**
 The detectors' lexer (crates/atlas-detect/src/lex.rs) and the view on its tokens (crates/atlas-detect/src/view.rs).
 Every method moves the position forward and leaves the tokens in order and inside the source, so that two binary
 searches find what a filter would.
 */
module Lexer {
  import opened Wrappers
  import opened Utf8
  import opened Spans
  import Slices

  datatype Family = Ts | Rust

  datatype TokenKind = Ident | Str | TemplateChunk | Number | Punct

  datatype Token = Token(kind: TokenKind, text: seq<byte>, start: nat, end: nat)

  datatype Context = Code(braces: nat) | Template

  const NEWLINE: byte := 10
  const BACKSLASH: byte := 92
  const QUOTE: byte := 34
  const TICK: byte := 39
  const BACKTICK: byte := 96
  const SLASH: byte := 47
  const STAR: byte := 42
  const HASH: byte := 35

  predicate IsAlphabetic(b: byte) { 65 <= b <= 90 || 97 <= b <= 122 }

  predicate IsDigit(b: byte) { 48 <= b <= 57 }

  predicate IsIdentStart(b: byte) { IsAlphabetic(b) || b == 95 || b == 36 || b >= 0x80 }

  predicate IsIdentContinue(b: byte) { IsIdentStart(b) || IsDigit(b) }

  function Min(a: nat, b: nat): nat { if a <= b then a else b }

  /** The punctuation of more than one byte that the text begins with; longer signs are tried first. */
  function MultiPunct(rest: seq<byte>): (r: Option<seq<byte>>)
    ensures r.Some? ==> 2 <= |r.value| && r.value <= rest
  {
    FirstPrefix(rest, [[46, 46, 46], [61, 61, 61], [33, 61, 61], [58, 58], [63, 46], [61, 62], [61, 61], [33, 61],
                       [38, 38],
                       [124, 124], [63, 63], [60, 61], [62, 61], [45, 62], [43, 61], [45, 61]])
  }

  function FirstPrefix(rest: seq<byte>, signs: seq<seq<byte>>): (r: Option<seq<byte>>)
    requires forall i :: 0 <= i < |signs| ==> |signs[i]| >= 2
    ensures r.Some? ==> 2 <= |r.value| && r.value <= rest
  {
    if signs == [] then None else if signs[0] <= rest then Some(signs[0]) else FirstPrefix(rest, signs[1..])
  }

  /** One of `return`, `typeof`, `case`, `in`, `of`, `new`, `delete`, `void`, `throw`, `yield`, `await`, `else`. */
  predicate PrecedesRegex(word: seq<byte>)
  {
    word in {Encode("return"), Encode("typeof"), Encode("case"), Encode("in"), Encode("of"), Encode("new"),
             Encode("delete"), Encode("void"), Encode("throw"), Encode("yield"), Encode("await"), Encode("else")}
  }

  // ----- tokens in order

  /** The tokens lie in order below `bound`; their ends are saturated offsets, and below 2^32 bytes none is empty. */
  predicate InOrder(tokens: seq<Token>, bound: nat, size: nat)
  {
    && (forall i :: 0 <= i < |tokens| ==> tokens[i].start <= tokens[i].end <= Saturated(Min(bound, size)))
    && (forall i, j :: 0 <= i < j < |tokens| ==> tokens[i].end <= tokens[j].start)
    && (size <= U32_MAX ==> forall i :: 0 <= i < |tokens| ==> tokens[i].start < tokens[i].end)
  }

  lemma PushInOrder(tokens: seq<Token>, from: nat, size: nat, kind: TokenKind, text: seq<byte>, start: nat, end: nat)
    requires InOrder(tokens, from, size) && from <= start < end <= size
    ensures InOrder(tokens + [Token(kind, text, Saturated(start), Saturated(end))], end, size)
  {
  }

  lemma StillInOrder(tokens: seq<Token>, from: nat, to: nat, size: nat)
    requires InOrder(tokens, from, size) && from <= to
    ensures InOrder(tokens, to, size)
  {
  }

  // ----- what a piece of source stands for

  /** `slice`: nothing where a bound is past the end or inside a character. */
  function Cut(source: seq<byte>, start: nat, end: nat): seq<byte>
  {
    if start <= end <= |source| && IsCharBoundary(source, start) && IsCharBoundary(source, end) then source[start..end]
    else []
  }

  function WidthAt(source: seq<byte>, at: nat): nat
  {
    if at <= |source| && IsCharBoundary(source, at) then
      match DecodeChar(source[at..])
      case Some((_, width)) => width
      case None => 0
    else 0
  }

  /** The sign at a place and its end: the first of the longer signs that fits, or else one character. */
  function SignAt(source: seq<byte>, start: nat): (r: (seq<byte>, nat))
    requires start < |source|
    ensures start < r.1 <= |source|
  {
    var multi := LongSignAt(source, start);
    if multi.Some? then (multi.value, start + |multi.value|)
    else (Cut(source, start, CharEnd(source, start)), CharEnd(source, start))
  }

  function LongSignAt(source: seq<byte>, start: nat): (r: Option<seq<byte>>)
    requires start < |source|
    ensures r.Some? ==> 2 <= |r.value| <= |source| - start
  {
    MultiPunct(if IsCharBoundary(source, start) then source[start..] else [])
  }

  /** The end of the character at a place; a byte by itself where none begins. */
  function CharEnd(source: seq<byte>, start: nat): (end: nat)
    requires start < |source|
    ensures start < end <= |source|
  {
    var width := WidthAt(source, start);
    Min(start + if width == 0 then 1 else width, |source|)
  }

  /** `adjust_braces`. */
  function Recounted(stack: seq<Context>, opens: bool): (r: seq<Context>)
    requires stack != []
    ensures |r| == |stack| && (stack[0].Code? ==> r[0].Code?)
  {
    var top := stack[|stack| - 1];
    if top.Template? then stack
    else
      var braces := if opens then SaturatingSucc(top.braces) else if top.braces > 0 then top.braces - 1 else 0;
      stack[|stack| - 1 := Code(braces)]
  }

  /** What a sign does to the contexts: braces are counted, and one too many ends an interpolation. */
  function AfterSign(stack: seq<Context>, sign: seq<byte>): (r: seq<Context>)
    requires stack != []
    ensures r != [] && (stack[0].Code? ==> r[0].Code?)
  {
    if sign == [123] then Recounted(stack, true)
    else if sign != [125] then stack
    else if |stack| > 1 && stack[|stack| - 1] == Code(0) then stack[..|stack| - 1]
    else Recounted(stack, false)
  }

  function AfterSigns(stack: seq<Context>, signs: seq<seq<byte>>): (r: seq<Context>)
    requires stack != []
    ensures r != []
  {
    if signs == [] then stack else AfterSign(AfterSigns(stack, signs[..|signs| - 1]), signs[|signs| - 1])
  }

  /** Opening braces less closing ones. */
  function Braces(signs: seq<seq<byte>>): int
  {
    if signs == [] then 0
    else
      var last := signs[|signs| - 1];
      Braces(signs[..|signs| - 1]) + if last == [123] then 1 else if last == [125] then -1 else 0
  }

  ghost predicate NeverCloses(signs: seq<seq<byte>>)
  {
    forall n :: 0 <= n <= |signs| ==> Braces(signs[..n]) >= 0
  }

  /** Inside an interpolation the innermost context counts the open braces. */
  lemma {:induction false} CountsBraces(stack: seq<Context>, signs: seq<seq<byte>>)
    requires stack != [] && NeverCloses(signs) && |signs| <= U32_MAX
    ensures 0 <= Braces(signs) <= |signs| && AfterSigns(stack + [Code(0)], signs) == stack + [Code(Braces(signs))]
  {
    assert signs[..|signs|] == signs;
    if signs != [] {
      var init := signs[..|signs| - 1];
      forall n | 0 <= n <= |init| ensures Braces(init[..n]) >= 0 {
        assert init[..n] == signs[..n];
      }
      CountsBraces(stack, init);
    }
  }

  /** An interpolation ends at the brace that balances its own, and the template around it goes on. */
  lemma InterpolationEnds(stack: seq<Context>, signs: seq<seq<byte>>)
    requires stack != [] && NeverCloses(signs) && |signs| <= U32_MAX
    ensures AfterSigns(stack + [Code(0)], signs + [[125]]) == stack <==> Braces(signs) == 0
  {
    CountsBraces(stack, signs);
    assert (signs + [[125]])[..|signs|] == signs;
    assert (stack + [Code(0)])[..|stack|] == stack;
  }

  function NextBoundary(source: seq<byte>, at: nat): (next: nat)
    ensures at <= next
    decreases |source| - at
  {
    if at < |source| && !IsCharBoundary(source, at) then NextBoundary(source, at + 1) else at
  }

  /** `push_escape`: what an escape stands for, and the place after it. */
  function EscapeAt(source: seq<byte>, at: nat): (r: (seq<byte>, nat))
    ensures at + 2 <= r.1
  {
    var escaped := if at + 1 < |source| then source[at + 1] else 0;
    if escaped == 110 then ([NEWLINE], at + 2)
    else if escaped == 116 then ([9], at + 2)
    else if escaped == 114 then ([13], at + 2)
    else if escaped == 48 then ([0], at + 2)
    else if escaped == NEWLINE then ([], at + 2)
    else
      var next := NextBoundary(source, at + 2);
      (Cut(source, at + 1, next), next)
  }

  /** A template's text ends at a backtick, at an interpolation, or with the source. */
  predicate EndsChunk(source: seq<byte>, at: nat)
  {
    || at >= |source| || source[at] == BACKTICK
    || (source[at] == 36 && at + 1 < |source| && source[at + 1] == 123)
  }

  /** The text of a template from `at` on, of which the part from `from` is not yet taken, and where it ends. */
  function ChunkFrom(source: seq<byte>, at: nat, from: nat): (r: (seq<byte>, nat))
    ensures at <= r.1 && EndsChunk(source, r.1)
    decreases |source| - at
  {
    if EndsChunk(source, at) then (Cut(source, from, Min(at, |source|)), at)
    else if source[at] == BACKSLASH then
      var (escape, next) := EscapeAt(source, at);
      var (rest, end) := ChunkFrom(source, next, next);
      (Cut(source, from, at) + escape + rest, end)
    else ChunkFrom(source, at + 1, from)
  }

  /** The tokens of one step inside a template: its text, if there is any, and the sign that ends it. */
  function TemplateTokens(source: seq<byte>, start: nat): seq<Token>
    requires start < |source|
  {
    var (value, at) := ChunkFrom(source, start, start);
    var chunk := if value == [] then []
      else [Token(TemplateChunk, value, Saturated(start), Saturated(Min(at, |source|)))];
    if at >= |source| then chunk
    else if source[at] == BACKTICK then chunk + [Token(Punct, [BACKTICK], Saturated(at), Saturated(at + 1))]
    else chunk + [Token(Punct, [36, 123], Saturated(at), Saturated(at + 2))]
  }

  /** The contexts after the text that ends at `at`: the template is left, or code begins inside it. */
  function AfterChunk(stack: seq<Context>, source: seq<byte>, at: nat): seq<Context>
    requires stack != []
  {
    if at >= |source| then stack
    else if source[at] == BACKTICK then stack[..|stack| - 1]
    else stack + [Code(0)]
  }

  function HashesEnd(source: seq<byte>, at: nat): (end: nat)
    ensures at <= end && (at <= |source| ==> end <= |source|)
    decreases |source| - at
  {
    if at < |source| && source[at] == HASH then HashesEnd(source, at + 1) else at
  }

  predicate HashesAt(source: seq<byte>, at: nat, hashes: nat)
  {
    hashes == 0 || (at + hashes < |source| && source[at + hashes] == HASH && HashesAt(source, at, hashes - 1))
  }

  /** A quote and as many number signs as the raw string began with. */
  predicate ClosesRaw(source: seq<byte>, at: nat, hashes: nat)
  {
    at < |source| && source[at] == QUOTE && HashesAt(source, at, hashes)
  }

  /** Where the content of a raw string ends: at the first such place. */
  function RawEnd(source: seq<byte>, at: nat, hashes: nat): (end: Option<nat>)
    ensures end.Some? ==> at <= end.value && ClosesRaw(source, end.value, hashes)
    ensures forall k :: at <= k && (end.Some? ==> k < end.value) ==> !ClosesRaw(source, k, hashes)
    decreases |source| - at
  {
    if at >= |source| then None else if ClosesRaw(source, at, hashes) then Some(at) else RawEnd(source, at + 1, hashes)
  }

  /** The token of a raw string that begins at `start`, with its quote at `quote`. */
  function RawToken(source: seq<byte>, start: nat, quote: nat, hashes: nat): Token
  {
    var end := RawEnd(source, quote + 1, hashes);
    if end.Some? then
      Token(Str, Cut(source, quote + 1, end.value), Saturated(start), Saturated(end.value + 1 + hashes))
    else Token(Str, Cut(source, quote + 1, |source|), Saturated(start), Saturated(|source|))
  }

  class Lexer {
    const source: seq<byte>
    const family: Family
    var position: nat
    var tokens: seq<Token>
    var stack: seq<Context>

    constructor (source: seq<byte>, family: Family)
      ensures Valid() && this.source == source && this.family == family && tokens == [] && position == 0
    {
      this.source, this.family := source, family;
      position, tokens, stack := 0, [], [Code(0)];
    }

    /** The tokens end at or before the position, and the outermost context is code. */
    ghost predicate Valid()
      reads this
    {
      InOrder(tokens, position, |source|) && stack != [] && stack[0].Code?
    }

    function Peek(offset: nat): byte
      reads this
    {
      if position + offset < |source| then source[position + offset] else 0
    }

    /** A token from an earlier position to a later one, and the position after it. */
    method PushTo(kind: TokenKind, text: seq<byte>, start: nat, end: nat, next: nat)
      requires Valid() && position <= start < end <= |source| && end <= next
      modifies this`tokens, this`position
      ensures Valid() && position == next
              && tokens == old(tokens) + [Token(kind, text, Saturated(start), Saturated(end))]
    {
      PushInOrder(tokens, position, |source|, kind, text, start, end);
      tokens := tokens + [Token(kind, text, Saturated(start), Saturated(end))];
      StillInOrder(tokens, end, next, |source|);
      position := next;
    }

    method MoveTo(next: nat)
      requires Valid() && position <= next
      modifies this`position
      ensures Valid() && position == next
    {
      StillInOrder(tokens, position, next, |source|);
      position := next;
    }

    /** `run`: it ends, whatever the source. */
    method Run()
      requires Valid()
      modifies this
      ensures Valid() && |source| <= position && old(tokens) <= tokens
    {
      while position < |source|
        invariant Valid() && old(tokens) <= tokens
        decreases |source| - position
      {
        var before := position;
        if stack[|stack| - 1].Template? {
          LexTemplate();
        } else {
          LexCode();
        }
        if position == before {
          MoveTo(position + 1);
        }
      }
    }

    /** `code`. */
    method LexCode()
      requires Valid() && position < |source|
      modifies this
      ensures Valid() && old(position) <= position && old(tokens) <= tokens
    {
      var b := Peek(0);
      if b == 32 || b == 9 || b == NEWLINE || b == 13 {
        MoveTo(position + 1);
      } else if b == SLASH && Peek(1) == SLASH {
        SkipLine();
      } else if b == SLASH && Peek(1) == STAR {
        SkipBlockComment();
      } else if b == SLASH && family.Ts? && RegexAllowed() {
        SkipRegex();
      } else if b == QUOTE {
        LexString(QUOTE);
      } else if b == TICK && family.Ts? {
        LexString(TICK);
      } else if b == TICK {
        LexRustQuote();
      } else if b == BACKTICK && family.Ts? {
        PushTo(Punct, [BACKTICK], position, position + 1, position + 1);
        stack := stack + [Template];
      } else if IsDigit(b) {
        LexNumber();
      } else if IsIdentStart(b) {
        LexWord();
      } else {
        LexPunct();
      }
    }

    /** `regex_allowed`: a slash after a value divides. */
    predicate RegexAllowed()
      reads this
    {
      tokens == [] ||
      var previous := tokens[|tokens| - 1];
      match previous.kind
      case Punct =>
        previous.text != [41] && previous.text != [93] && previous.text != [125] && previous.text != [BACKTICK]
      case Ident => PrecedesRegex(previous.text)
      case _ => false
    }

    method SkipLine()
      requires Valid()
      modifies this`position
      ensures Valid() && old(position) <= position
    {
      while position < |source| && Peek(0) != NEWLINE
        invariant Valid() && old(position) <= position
      {
        MoveTo(position + 1);
      }
    }

    method SkipBlockComment()
      requires Valid()
      modifies this`position
      ensures Valid() && old(position) < position
    {
      MoveTo(position + 2);
      var depth: nat := 1;
      while position < |source| && depth > 0
        invariant Valid() && old(position) < position
        decreases |source| - position
      {
        if Peek(0) == STAR && Peek(1) == SLASH {
          depth := depth - 1;
          MoveTo(position + 2);
        } else if family.Rust? && Peek(0) == SLASH && Peek(1) == STAR {
          depth := depth + 1;
          MoveTo(position + 2);
        } else {
          MoveTo(position + 1);
        }
      }
    }

    method SkipIdent()
      requires Valid()
      modifies this`position
      ensures Valid() && old(position) <= position
      ensures position == old(position) || position <= |source|
      ensures old(position) < |source| && IsIdentContinue(source[old(position)]) ==> old(position) < position
    {
      while position < |source| && IsIdentContinue(Peek(0))
        invariant Valid() && old(position) <= position
        invariant position == old(position) || position <= |source|
      {
        MoveTo(position + 1);
      }
    }

    method SkipRegex()
      requires Valid()
      modifies this`position
      ensures Valid() && old(position) < position
    {
      MoveTo(position + 1);
      var inClass := false;
      while position < |source|
        invariant Valid() && old(position) < position
        decreases |source| - position
      {
        var b := Peek(0);
        if b == NEWLINE {
          return;
        } else if b == BACKSLASH {
          MoveTo(position + 2);
        } else if b == 91 {
          inClass := true;
          MoveTo(position + 1);
        } else if b == 93 {
          inClass := false;
          MoveTo(position + 1);
        } else if b == SLASH && !inClass {
          MoveTo(position + 1);
          SkipIdent();
          return;
        } else {
          MoveTo(position + 1);
        }
      }
    }

    /** `push_escape`. */
    method ReadEscape(at: nat) returns (text: seq<byte>, next: nat)
      requires at < |source|
      ensures at + 2 <= next && (text, next) == EscapeAt(source, at)
    {
      var escaped := if at + 1 < |source| then source[at + 1] else 0;
      next := at + 2;
      if escaped == 110 {
        text := [NEWLINE];
      } else if escaped == 116 {
        text := [9];
      } else if escaped == 114 {
        text := [13];
      } else if escaped == 48 {
        text := [0];
      } else if escaped == NEWLINE {
        text := [];
      } else {
        while next < |source| && !IsCharBoundary(source, next)
          invariant at + 2 <= next && NextBoundary(source, next) == NextBoundary(source, at + 2)
        {
          next := next + 1;
        }
        text := Cut(source, at + 1, next);
      }
    }

    /** The text of a quoted string and where it ends; a newline ends it where strings may not span lines. */
    method ReadString(start: nat, quote: byte) returns (value: seq<byte>, end: nat)
      requires start < |source|
      ensures start < end
    {
      var at := start + 1;
      var chunkStart: nat := at;
      value := [];
      while at < |source|
        invariant start < at
        decreases |source| - at
      {
        var b := source[at];
        if b == quote {
          return value + Cut(source, chunkStart, at), at + 1;
        }
        if b == NEWLINE && family.Ts? {
          break;
        }
        if b == BACKSLASH {
          value := value + Cut(source, chunkStart, at);
          var escape, next := ReadEscape(at);
          value, at, chunkStart := value + escape, next, next;
          continue;
        }
        at := at + 1;
      }
      return value + Cut(source, chunkStart, Min(at, |source|)), at;
    }

    /** `string`. */
    method LexString(quote: byte)
      requires Valid() && position < |source|
      modifies this`tokens, this`position
      ensures Valid() && old(position) < position && old(tokens) <= tokens
    {
      var value, end := ReadString(position, quote);
      PushTo(Str, value, position, Min(end, |source|), end);
    }

    /** `trim_matches('\'')`. */
    function TrimTicks(text: seq<byte>): seq<byte>
    {
      if text != [] && text[0] == TICK then TrimTicks(text[1..])
      else if text != [] && text[|text| - 1] == TICK then TrimTicks(text[..|text| - 1])
      else text
    }

    /** `rust_quote`: a character literal, or the sign of a lifetime. */
    method LexRustQuote()
      requires Valid() && position < |source|
      modifies this`tokens, this`position
      ensures Valid() && old(position) < position && old(tokens) <= tokens
    {
      var start := position;
      var width := WidthAt(source, start + 1);
      if !(Peek(1) == BACKSLASH || (width > 0 && Peek(1 + width) == TICK)) {
        PushTo(Punct, [TICK], start, start + 1, start + 1);
        return;
      }
      var at := start + 1;
      while at < |source|
        invariant start < at
        decreases |source| - at
      {
        if source[at] == BACKSLASH {
          at := at + 2;
        } else if source[at] == TICK {
          at := at + 1;
          break;
        } else if source[at] == NEWLINE {
          break;
        } else {
          at := at + 1;
        }
      }
      var end := Min(at, |source|);
      PushTo(Str, TrimTicks(Cut(source, start, end)), start, end, at);
    }

    /** `raw_string`, with its start before the prefix. */
    method LexRawString(start: nat)
      requires Valid() && position < |source| && start < |source|
      requires InOrder(tokens, start, |source|) && start < position
      modifies this`tokens, this`position
      ensures Valid() && old(position) <= position
      ensures var quote := HashesEnd(source, old(position));
              if quote < |source| && source[quote] == QUOTE then
                tokens == old(tokens) + [RawToken(source, start, quote, quote - old(position))]
              else tokens == old(tokens) && position == quote
    {
      var at, hashes := position, 0;
      while at < |source| && source[at] == HASH
        invariant position <= at && hashes == at - position && HashesEnd(source, at) == HashesEnd(source, position)
      {
        hashes, at := hashes + 1, at + 1;
      }
      var quote := at;
      if quote >= |source| || source[quote] != QUOTE {
        MoveTo(quote);
        return;
      }
      at := quote + 1;
      while at < |source|
        invariant quote < at && RawEnd(source, at, hashes) == RawEnd(source, quote + 1, hashes)
      {
        if source[at] == QUOTE && HashesAt(source, at, hashes) {
          PushFrom(Str, Cut(source, quote + 1, at), start, at + 1 + hashes);
          return;
        }
        at := at + 1;
      }
      PushFrom(Str, Cut(source, quote + 1, |source|), start, |source|);
    }

    /** A token that begins before the position, at a place the earlier tokens do not reach. */
    method PushFrom(kind: TokenKind, text: seq<byte>, start: nat, end: nat)
      requires Valid() && InOrder(tokens, start, |source|) && start < end && position <= end
      requires end <= |source|
      modifies this`tokens, this`position
      ensures Valid() && position == end
              && tokens == old(tokens) + [Token(kind, text, Saturated(start), Saturated(end))]
    {
      PushInOrder(tokens, start, |source|, kind, text, start, end);
      tokens := tokens + [Token(kind, text, Saturated(start), Saturated(end))];
      position := end;
    }

    /** The text of a template up to its end or an interpolation, and where that is. */
    method ReadChunk(start: nat) returns (value: seq<byte>, at: nat)
      requires start < |source|
      ensures (value, at) == ChunkFrom(source, start, start) && start <= at && (value != [] ==> start < at)
    {
      at := start;
      var from := start;
      value := [];
      while !EndsChunk(source, at)
        invariant start <= at && (value != [] ==> start < at) && (at == start ==> from == start)
        invariant value + ChunkFrom(source, at, from).0 == ChunkFrom(source, start, start).0
        invariant ChunkFrom(source, at, from).1 == ChunkFrom(source, start, start).1
        decreases |source| - at
      {
        if source[at] == BACKSLASH {
          ghost var taken := value;
          value := value + Cut(source, from, at);
          var escape, next := ReadEscape(at);
          Slices.Associates(taken, Cut(source, from, at), escape);
          Slices.Associates(taken, Cut(source, from, at) + escape, ChunkFrom(source, next, next).0);
          value, at, from := value + escape, next, next;
        } else {
          at := at + 1;
        }
      }
      value := value + Cut(source, from, Min(at, |source|));
    }

    /** `template_chunk`. */
    method LexTemplate()
      requires Valid() && position < |source| && stack[|stack| - 1].Template?
      modifies this
      ensures Valid() && old(position) < position
      ensures tokens == old(tokens) + TemplateTokens(source, old(position))
      ensures stack == AfterChunk(old(stack), source, ChunkFrom(source, old(position), old(position)).1)
    {
      var start := position;
      var value, at := ReadChunk(start);
      var end := Min(at, |source|);
      if value != [] {
        PushTo(TemplateChunk, value, start, end, end);
      }
      if at >= |source| {
        MoveTo(|source|);
      } else if source[at] == BACKTICK {
        PushTo(Punct, [BACKTICK], at, at + 1, at + 1);
        stack := stack[..|stack| - 1];
      } else {
        PushTo(Punct, [36, 123], at, at + 2, at + 2);
        stack := stack + [Code(0)];
      }
    }

    /** `number`. */
    method LexNumber()
      requires Valid() && position < |source| && IsDigit(source[position])
      modifies this`tokens, this`position
      ensures Valid() && old(position) < position && old(tokens) <= tokens
    {
      var at := position;
      while at < |source| && (IsIdentContinue(source[at])
                              || (source[at] == 46 && at + 1 < |source| && IsDigit(source[at + 1])))
        invariant position <= at <= |source| && (at == position ==> IsIdentContinue(source[at]))
      {
        at := at + 1;
      }
      PushTo(Number, Cut(source, position, at), position, at, at);
    }

    /** `ident_or_prefixed_string`. */
    method LexWord()
      requires Valid() && position < |source| && IsIdentStart(source[position])
      modifies this
      ensures Valid() && old(position) < position && old(tokens) <= tokens
    {
      var start := position;
      ghost var before := tokens;
      var end := start;
      while end < |source| && IsIdentContinue(source[end])
        invariant start <= end <= |source| && (end == start ==> IsIdentContinue(source[end]))
      {
        end := end + 1;
      }
      var text := Cut(source, start, end);
      if family.Rust? && end < |source| {
        if text in [[114], [98, 114], [99, 114]] && (source[end] == QUOTE || source[end] == HASH) {
          MoveTo(end);
          LexRawString(start);
          return;
        }
        if text in [[98], [99]] && source[end] == QUOTE {
          var value, stringEnd := ReadString(end, QUOTE);
          PushTo(Str, value, start, Min(stringEnd, |source|), stringEnd);
          return;
        }
      }
      PushTo(Ident, text, start, end, end);
    }

    /** `punct`. */
    method LexPunct()
      requires Valid() && position < |source|
      modifies this
      ensures Valid() && old(position) < position == SignAt(source, old(position)).1
      ensures tokens == old(tokens) + [Token(Punct, SignAt(source, old(position)).0, Saturated(old(position)),
                                             Saturated(position))]
      ensures stack == AfterSign(old(stack), SignAt(source, old(position)).0)
    {
      var start := position;
      var rest := if IsCharBoundary(source, start) then source[start..] else [];
      var multi := MultiPunct(rest);
      if multi.Some? {
        PushTo(Punct, multi.value, start, start + |multi.value|, start + |multi.value|);
        return;
      }
      var width := if rest == [] || WidthAt(source, start) == 0 then 1 else WidthAt(source, start);
      var end := Min(start + width, |source|);
      var text := Cut(source, start, end);
      if text == [123] {
        AdjustBraces(1);
      } else if text == [125] {
        if ClosesInterpolation() {
          stack := stack[..|stack| - 1];
        } else {
          AdjustBraces(-1);
        }
      }
      PushTo(Punct, text, start, end, end);
    }

    predicate ClosesInterpolation()
      reads this
    {
      |stack| > 1 && stack[|stack| - 1] == Code(0)
    }

    method AdjustBraces(delta: int)
      requires Valid() && (delta == 1 || delta == -1)
      modifies this`stack
      ensures Valid() && stack == Recounted(old(stack), delta == 1)
    {
      var top := stack[|stack| - 1];
      if top.Code? {
        var braces := if delta > 0 then SaturatingSucc(top.braces) else if top.braces > 0 then top.braces - 1 else 0;
        stack := stack[|stack| - 1 := Code(braces)];
      }
    }
  }

  /** `lex`: for every source it ends, with the tokens in order inside the source. */
  method Lex(source: seq<byte>, family: Family) returns (tokens: seq<Token>)
    ensures InOrder(tokens, |source|, |source|)
  {
    var lexer := new Lexer(source, family);
    lexer.Run();
    tokens := lexer.tokens;
  }

  // ----- tokens of a byte range

  /** `partition_point`: how many tokens start before the bound. */
  function StartingBefore(tokens: seq<Token>, bound: nat): (n: nat)
    ensures n <= |tokens|
  {
    if tokens == [] || tokens[|tokens| - 1].start < bound then |tokens|
      else StartingBefore(tokens[..|tokens| - 1], bound)
  }

  /** `tokens_in`. */
  function TokensIn(tokens: seq<Token>, start: nat, end: nat): seq<Token>
  {
    var first, last := StartingBefore(tokens, start), StartingBefore(tokens, end);
    tokens[first..if last >= first then last else first]
  }

  /** The tokens that start in the range, one by one. */
  function Filtered(tokens: seq<Token>, start: nat, end: nat): seq<Token>
  {
    if tokens == [] then []
    else
      var last := tokens[|tokens| - 1];
      Filtered(tokens[..|tokens| - 1], start, end) + if start <= last.start < end then [last] else []
  }

  lemma {:induction false} NoneStart(tokens: seq<Token>, start: nat, end: nat)
    requires forall i :: 0 <= i < |tokens| ==> !(start <= tokens[i].start < end)
    ensures Filtered(tokens, start, end) == []
  {
    if tokens != [] {
      NoneStart(tokens[..|tokens| - 1], start, end);
    }
  }

  /** The binary search splits tokens in order. */
  lemma {:induction false} SearchSplits(tokens: seq<Token>, bound: nat)
    requires forall i, j :: 0 <= i < j < |tokens| ==> tokens[i].start <= tokens[j].start
    ensures forall i :: 0 <= i < StartingBefore(tokens, bound) ==> tokens[i].start < bound
    ensures forall i :: StartingBefore(tokens, bound) <= i < |tokens| ==> bound <= tokens[i].start
  {
    if tokens != [] && tokens[|tokens| - 1].start >= bound {
      SearchSplits(tokens[..|tokens| - 1], bound);
    }
  }

  lemma {:induction false} SliceIsFilter(tokens: seq<Token>, start: nat, end: nat, first: nat, last: nat)
    requires first <= last <= |tokens|
    requires forall i :: 0 <= i < first ==> tokens[i].start < start
    requires forall i :: first <= i < last ==> start <= tokens[i].start < end
    requires forall i :: last <= i < |tokens| ==> end <= tokens[i].start
    ensures tokens[first..last] == Filtered(tokens, start, end)
  {
    if tokens != [] {
      var init := tokens[..|tokens| - 1];
      if last == |tokens| {
        if first == last {
          NoneStart(tokens, start, end);
        } else {
          SliceIsFilter(init, start, end, first, last - 1);
          Slices.OfPrefix(tokens, |init|, first, last - 1);
          Slices.Halves(tokens, first, last - 1, last);
          assert tokens[last - 1..last] == [tokens[last - 1]];
        }
      } else {
        SliceIsFilter(init, start, end, first, last);
        Slices.OfPrefix(tokens, |init|, first, last);
      }
    }
  }

  /** On a lexed source, the two searches find exactly the tokens that start in the range. */
  lemma TokensInIsFilter(tokens: seq<Token>, bound: nat, size: nat, start: nat, end: nat)
    requires InOrder(tokens, bound, size)
    ensures TokensIn(tokens, start, end) == Filtered(tokens, start, end)
  {
    forall i, j | 0 <= i < j < |tokens| ensures tokens[i].start <= tokens[j].start {
      assert tokens[i].end <= tokens[j].start;
    }
    SearchSplits(tokens, start);
    SearchSplits(tokens, end);
    var first, last := StartingBefore(tokens, start), StartingBefore(tokens, end);
    if last <= first {
      NoneStart(tokens, start, end);
    } else {
      SliceIsFilter(tokens, start, end, first, last);
    }
  }
}

/**
 The comments and attributes that lead up to a declaration (crates/atlas-edit/src/region.rs). Lines are tried from
 the declaration upwards, and a scan stops at a line whose verdict is known; each verdict is the one a scan without
 that memory gives, so the region starts at the earliest line that reaches the declaration.
 */
module Region {
  import opened Wrappers
  import opened Utf8
  import Plan
  import opened Lines
  import opened Trivia

  const MAX_REGION_LINES: nat := 500

  datatype Stop = Reached | Known(valid: bool) | AtCode | BlankLine | NoEnd | Panic

  datatype Scan = Scan(tokens: seq<Token>, stop: Stop, position: nat)

  /** What is known of the text from an offset on. */
  type Memo = nat -> Option<bool>

  function NoMemo(): Memo { _ => None }

  function SkipBlanks(t: seq<byte>, position: nat): (r: nat)
    requires position <= |t|
    ensures position <= r <= |t| && (r < |t| ==> t[r] != 32 && t[r] != 9 && t[r] != 13)
    ensures forall i :: position <= i < r ==> t[i] == 32 || t[i] == 9 || t[i] == 13
    decreases |t| - position
  {
    if position < |t| && (t[position] == 32 || t[position] == 9 || t[position] == 13) then SkipBlanks(t, position + 1)
    else position
  }

  function Before(token: Token, rest: Scan): Scan { Scan([token] + rest.tokens, rest.stop, rest.position) }

  /** What a scan does at its next place: stop there, or go on. */
  datatype Turn = Stops(stop: Stop, at: nat) | GoesOn(next: nat, lineHasToken: bool) | Takes(token: Token)

  function TurnAt(t: seq<byte>, base: nat, syntax: Syntax, known: Memo, p: nat, lineHasToken: bool): (r: Turn)
    requires base <= p <= |t|
    ensures r.GoesOn? ==> p < r.next <= |t|
    ensures r.Takes? ==> p < r.token.end <= |t|
  {
    if p == |t| then Stops(Reached, p)
    else if t[p] == Trivia.NEWLINE then
      if !lineHasToken then Stops(BlankLine, p)
      else if known(p + 1).Some? then Stops(Known(known(p + 1).value), p + 1)
      else GoesOn(p + 1, false)
    else
      match TokenAt(t, base, syntax, p)
      case Code => Stops(AtCode, p)
      case Unterminated => Stops(NoEnd, p)
      case Panicked => Stops(Panic, p)
      case Found(token) => Takes(token)
  }

  /** The scan from a position on, on a line that has a token already or not. */
  function ScanFrom(t: seq<byte>, base: nat, syntax: Syntax, known: Memo, position: nat, lineHasToken: bool): Scan
    requires base <= position <= |t|
    decreases |t| - position
  {
    match TurnAt(t, base, syntax, known, SkipBlanks(t, position), lineHasToken)
    case Stops(stop, at) => Scan([], stop, at)
    case GoesOn(next, has) => ScanFrom(t, base, syntax, known, next, has)
    case Takes(token) => Before(token, ScanFrom(t, base, syntax, known, token.end, true))
  }

  function AfterTokens(tokens: seq<Token>, rest: Scan): Scan { Scan(tokens + rest.tokens, rest.stop, rest.position) }

  lemma AfterOneMore(tokens: seq<Token>, token: Token, rest: Scan)
    ensures AfterTokens(tokens, Before(token, rest)) == AfterTokens(tokens + [token], rest)
  {
    assert tokens + ([token] + rest.tokens) == tokens + [token] + rest.tokens;
  }

  /** `scan`. */
  method ScanText(t: seq<byte>, base: nat, syntax: Syntax, known: Memo) returns (r: Scan)
    requires base <= |t|
    ensures r == ScanFrom(t, base, syntax, known, base, false)
  {
    ghost var whole := ScanFrom(t, base, syntax, known, base, false);
    assert [] + whole.tokens == whole.tokens;
    var tokens: seq<Token> := [];
    var position, lineHasToken := base, false;
    while true
      invariant base <= position <= |t|
      invariant whole == AfterTokens(tokens, ScanFrom(t, base, syntax, known, position, lineHasToken))
      decreases |t| - position
    {
      match TurnAt(t, base, syntax, known, SkipBlanks(t, position), lineHasToken) {
        case Stops(stop, at) =>
          assert tokens + [] == tokens;
          return Scan(tokens, stop, at);
        case GoesOn(next, has) =>
          position, lineHasToken := next, has;
        case Takes(token) =>
          AfterOneMore(tokens, token, ScanFrom(t, base, syntax, known, token.end, true));
          tokens := tokens + [token];
          position, lineHasToken := token.end, true;
      }
    }
  }

  /** The verdict without memory: the scan from here reaches the end, over at least one token. */
  predicate Reaches(t: seq<byte>, syntax: Syntax, start: nat)
    requires start <= |t|
  {
    var plain := ScanFrom(t, start, syntax, NoMemo(), start, false);
    plain.stop.Reached? && plain.tokens != []
  }

  /** The scan without memory from here panics. */
  predicate ScanPanics(t: seq<byte>, syntax: Syntax, start: nat)
    requires start <= |t|
  {
    ScanFrom(t, start, syntax, NoMemo(), start, false).stop.Panic?
  }

  lemma TurnLocal(t: seq<byte>, base: nat, base': nat, syntax: Syntax, known: Memo, p: nat, lineHasToken: bool)
    requires base <= p && base' <= p <= |t|
    ensures TurnAt(t, base, syntax, known, p, lineHasToken) == TurnAt(t, base', syntax, known, p, lineHasToken)
  {
    if p < |t| && t[p] != Trivia.NEWLINE {
      TokenLocal(t, base, base', syntax, p);
    }
  }

  /** Where the scanned part begins makes no difference to a scan inside it. */
  lemma {:induction false} ScanLocal(t: seq<byte>, base: nat, base': nat, syntax: Syntax, position: nat,
                                     lineHasToken: bool)
    requires base <= position && base' <= position <= |t|
    ensures ScanFrom(t, base, syntax, NoMemo(), position, lineHasToken) ==
            ScanFrom(t, base', syntax, NoMemo(), position, lineHasToken)
    decreases |t| - position
  {
    var p := SkipBlanks(t, position);
    TurnLocal(t, base, base', syntax, NoMemo(), p, lineHasToken);
    match TurnAt(t, base, syntax, NoMemo(), p, lineHasToken)
    case Stops(_, _) =>
    case GoesOn(next, has) => ScanLocal(t, base, base', syntax, next, has);
    case Takes(token) => ScanLocal(t, base, base', syntax, token.end, true);
  }

  /** Before a newline that ends the text, nothing but tokens leads to the end. */
  lemma OnlyTokensReach(t: seq<byte>, base: nat, syntax: Syntax, position: nat)
    requires base <= position < |t| && t[|t| - 1] == Trivia.NEWLINE
    ensures var plain := ScanFrom(t, base, syntax, NoMemo(), position, false); plain.stop.Reached? ==>
              plain.tokens != []
  {
    var p := SkipBlanks(t, position);
    if p == |t| {
      assert t[|t| - 1] == 32 || t[|t| - 1] == 9 || t[|t| - 1] == 13;
    }
  }

  /**
   The memory is right beyond `from`: it knows the verdict of each line start before the end, and nothing at the end;
   and no scan from such a line start panics.
   */
  ghost predicate MemoRight(t: seq<byte>, syntax: Syntax, known: Memo, from: nat)
  {
    forall offset: nat :: from < offset <= |t| && t[offset - 1] == Trivia.NEWLINE ==>
      && known(offset) == (if offset < |t| then Some(Reaches(t, syntax, offset)) else None)
      && (offset < |t| ==> !ScanPanics(t, syntax, offset))
  }

  predicate Accepts(stop: Stop) { stop.Reached? || stop == Known(true) }

  /** Memory changes a turn only where the scan would go on to a line it knows. */
  function Remembered(known: Memo, plain: Turn): Turn
  {
    if plain.GoesOn? && known(plain.next).Some? then Stops(Known(known(plain.next).value), plain.next) else plain
  }

  lemma TurnsAgree(t: seq<byte>, base: nat, syntax: Syntax, known: Memo, p: nat, lineHasToken: bool, plain: Turn)
    requires base <= p <= |t| && plain == TurnAt(t, base, syntax, NoMemo(), p, lineHasToken)
    ensures TurnAt(t, base, syntax, known, p, lineHasToken) == Remembered(known, plain)
    ensures plain.GoesOn? ==> lineHasToken && !plain.lineHasToken && t[plain.next - 1] == Trivia.NEWLINE
    ensures plain.Stops? ==> !plain.stop.Known?
  {
  }

  lemma ScanTurn(t: seq<byte>, base: nat, syntax: Syntax, known: Memo, position: nat, lineHasToken: bool, turn: Turn,
                 scan: Scan)
    requires base <= position <= |t| && turn == TurnAt(t, base, syntax, known, SkipBlanks(t, position), lineHasToken)
    requires scan == ScanFrom(t, base, syntax, known, position, lineHasToken)
    ensures turn.Stops? ==> scan == Scan([], turn.stop, turn.at)
    ensures turn.GoesOn? ==>
              position < turn.next <= |t| && scan == ScanFrom(t, base, syntax, known, turn.next, turn.lineHasToken)
    ensures turn.Takes? ==>
              position < turn.token.end <= |t|
                && scan == Before(turn.token, ScanFrom(t, base, syntax, known, turn.token.end, true))
  {
  }

  /** A turn of the scan with memory, said by the turn of the scan without. */
  lemma MemoTurn(t: seq<byte>, base: nat, syntax: Syntax, known: Memo, position: nat, lineHasToken: bool, turn: Turn,
                 memo: Scan)
    requires base <= position <= |t| && turn == TurnAt(t, base, syntax, NoMemo(), SkipBlanks(t, position), lineHasToken)
    requires memo == ScanFrom(t, base, syntax, known, position, lineHasToken)
    ensures turn.Stops? ==> memo == Scan([], turn.stop, turn.at) && !turn.stop.Known?
    ensures turn.GoesOn? ==>
              && position < turn.next <= |t| && lineHasToken && !turn.lineHasToken && t[turn.next - 1] == Trivia.NEWLINE
              && if known(turn.next).Some? then memo.stop == Known(known(turn.next).value)
                 else memo == ScanFrom(t, base, syntax, known, turn.next, false)
    ensures turn.Takes? ==>
              position < turn.token.end <= |t|
                && memo == Before(turn.token, ScanFrom(t, base, syntax, known, turn.token.end, true))
  {
    TurnsAgree(t, base, syntax, known, SkipBlanks(t, position), lineHasToken, turn);
    ScanTurn(t, base, syntax, NoMemo(), position, lineHasToken, turn,
             ScanFrom(t, base, syntax, NoMemo(), position, lineHasToken));
    ScanTurn(t, base, syntax, known, position, lineHasToken, Remembered(known, turn), memo);
  }

  /** One turn of both scans: they stop alike, or take the same token, or come to a line that memory may know. */
  lemma TurnsOf(t: seq<byte>, base: nat, syntax: Syntax, known: Memo, position: nat, lineHasToken: bool, memo: Scan,
                plain: Scan)
    returns (turn: Turn, at: nat, memo': Scan, plain': Scan)
    requires base <= position <= |t|
    requires memo == ScanFrom(t, base, syntax, known, position, lineHasToken)
    requires plain == ScanFrom(t, base, syntax, NoMemo(), position, lineHasToken)
    ensures turn.Stops? ==> memo == plain && !memo.stop.Known?
    ensures !turn.Stops? ==>
              && position < at <= |t| && plain' == ScanFrom(t, base, syntax, NoMemo(), at, turn.Takes?)
              && memo' == ScanFrom(t, base, syntax, known, at, turn.Takes?)
    ensures turn.Takes? ==> memo == Before(turn.token, memo') && plain == Before(turn.token, plain')
    ensures turn.GoesOn? ==> lineHasToken && t[at - 1] == Trivia.NEWLINE && plain == plain'
    ensures turn.GoesOn? ==> if known(at).Some? then memo.stop == Known(known(at).value) else memo == memo'
  {
    turn := TurnAt(t, base, syntax, NoMemo(), SkipBlanks(t, position), lineHasToken);
    MemoTurn(t, base, syntax, NoMemo(), position, lineHasToken, turn, plain);
    MemoTurn(t, base, syntax, known, position, lineHasToken, turn, memo);
    at, memo', plain' := position, memo, plain;
    if !turn.Stops? {
      at := if turn.GoesOn? then turn.next else turn.token.end;
      memo' := ScanFrom(t, base, syntax, known, at, turn.Takes?);
      plain' := ScanFrom(t, base, syntax, NoMemo(), at, turn.Takes?);
    }
  }

  /** What is known of a line is whether a scan from there reaches the end, and it does not panic. */
  predicate KnowsLine(t: seq<byte>, base: nat, syntax: Syntax, known: Memo, offset: nat)
    requires base <= offset <= |t|
  {
    var stop := ScanFrom(t, base, syntax, NoMemo(), offset, false).stop;
    known(offset).Some? ==> (known(offset).value <==> stop.Reached?) && !stop.Panic?
  }

  ghost predicate KnowsLines(t: seq<byte>, base: nat, syntax: Syntax, known: Memo)
  {
    forall offset: nat :: base < offset <= |t| && t[offset - 1] == Trivia.NEWLINE ==>
      KnowsLine(t, base, syntax, known, offset)
  }

  lemma KnownLine(t: seq<byte>, base: nat, syntax: Syntax, known: Memo, offset: nat)
    requires base < offset <= |t| && t[offset - 1] == Trivia.NEWLINE && t[|t| - 1] == Trivia.NEWLINE
             && MemoRight(t, syntax, known, base)
    ensures KnowsLine(t, base, syntax, known, offset)
  {
    if offset < |t| {
      ScanLocal(t, base, offset, syntax, offset, false);
      OnlyTokensReach(t, offset, syntax, offset);
    }
  }

  lemma RightMemoKnows(t: seq<byte>, base: nat, syntax: Syntax, known: Memo)
    requires t != [] && t[|t| - 1] == Trivia.NEWLINE && MemoRight(t, syntax, known, base)
    ensures KnowsLines(t, base, syntax, known)
  {
    forall offset: nat | base < offset <= |t| && t[offset - 1] == Trivia.NEWLINE
      ensures KnowsLine(t, base, syntax, known, offset)
    {
      KnownLine(t, base, syntax, known, offset);
    }
  }

  /** A scan that may stop at what is known accepts what the full scan does, and panics exactly when it does. */
  lemma {:induction false} MemoAgrees(t: seq<byte>, base: nat, syntax: Syntax, known: Memo, position: nat,
                                      lineHasToken: bool, memo: Scan, plain: Scan)
    requires base <= position <= |t| && KnowsLines(t, base, syntax, known)
    requires memo == ScanFrom(t, base, syntax, known, position, lineHasToken)
    requires plain == ScanFrom(t, base, syntax, NoMemo(), position, lineHasToken)
    ensures Accepts(memo.stop) <==> plain.stop.Reached?
    ensures memo.stop.Panic? <==> plain.stop.Panic?
    ensures !lineHasToken ==> (memo.tokens == [] <==> plain.tokens == [])
    decreases |t| - position
  {
    var turn, at, memo', plain' := TurnsOf(t, base, syntax, known, position, lineHasToken, memo, plain);
    if turn.GoesOn? && known(at).Some? {
      assert KnowsLine(t, base, syntax, known, at);
    } else if !turn.Stops? {
      MemoAgrees(t, base, syntax, known, at, turn.Takes?, memo', plain');
    }
  }

  // ----- lines before the declaration

  lemma {:induction false} AfterNewline(text: seq<byte>, k: nat)
    requires 0 < k < |LineStarts(text)|
    ensures 0 < LineStarts(text)[k] <= |text| && text[LineStarts(text)[k] - 1] == Lines.NEWLINE
  {
    var init := text[..|text| - 1];
    if k < |LineStarts(init)| {
      AfterNewline(init, k);
    }
  }

  lemma {:induction false} StartAfter(text: seq<byte>, p: nat) returns (k: nat)
    requires p < |text| && text[p] == Lines.NEWLINE
    ensures 0 < k < |LineStarts(text)| && LineStarts(text)[k] == p + 1
  {
    if p == |text| - 1 {
      k := |LineStarts(text)| - 1;
    } else {
      k := StartAfter(text[..|text| - 1], p);
    }
  }

  lemma LineOfStart(text: seq<byte>, k: nat)
    requires k < |LineStarts(text)|
    ensures LineBegin(text, k) <= |text| && Index(text).LineOf(LineBegin(text, k)) == k
  {
    StartsOrdered(text, k, k);
    OnItsLine(text, LineBegin(text, k));
    var line := Index(text).LineOf(LineBegin(text, k));
    if line < k {
      StartsOrdered(text, line + 1, k);
    } else if k < line {
      StartsOrdered(text, k, line);
    }
  }

  lemma BomHasNoNewline(content: seq<byte>, i: nat)
    requires i < Plan.BomLen(content)
    ensures i < |content| && content[i] != Lines.NEWLINE
  {
    assert content[..3] == Plan.UTF8_BOM;
  }

  /** Later lines begin after a byte order mark. */
  lemma BeyondBom(content: seq<byte>, k: nat)
    requires 0 < k < |LineStarts(content)|
    ensures Plan.BomLen(content) < LineBegin(content, k)
  {
    AfterNewline(content, k);
    if LineStarts(content)[k] <= Plan.BomLen(content) {
      BomHasNoNewline(content, LineStarts(content)[k] - 1);
      assert false;
    }
  }

  function Max(a: nat, b: nat): nat { if a >= b then a else b }

  /** Where a line's part of the content begins. */
  function StartOf(content: seq<byte>, line: nat): nat { Max(LineBegin(content, line), Plan.BomLen(content)) }

  /** The content before the declaration's line. */
  function Above(content: seq<byte>, declarationLine: nat): seq<byte>
    requires StartOf(content, declarationLine) <= |content|
  {
    content[..StartOf(content, declarationLine)]
  }

  lemma StartsInside(content: seq<byte>, line: nat, declarationLine: nat)
    requires line <= declarationLine < |LineStarts(content)|
    ensures StartOf(content, line) <= StartOf(content, declarationLine) <= |content|
    ensures 0 < line ==> StartOf(content, line) == LineBegin(content, line)
    ensures line < declarationLine ==> StartOf(content, line) < StartOf(content, declarationLine)
  {
    StartsOrdered(content, line, declarationLine);
    if 0 < line {
      BeyondBom(content, line);
    }
    if 0 < declarationLine {
      BeyondBom(content, declarationLine);
    }
  }

  lemma AboveEndsLine(content: seq<byte>, declarationLine: nat)
    requires 0 < declarationLine < |LineStarts(content)|
    ensures StartOf(content, declarationLine) == LineBegin(content, declarationLine) <= |content|
    ensures Above(content, declarationLine) != []
    ensures Above(content, declarationLine)[|Above(content, declarationLine)| - 1] == Trivia.NEWLINE
  {
    StartsInside(content, declarationLine, declarationLine);
    AfterNewline(content, declarationLine);
  }

  /** The verdict of a line is that of a scan without memory, which does not panic. */
  ghost predicate VerdictAt(content: seq<byte>, syntax: Syntax, firstLine: nat, declarationLine: nat,
                            valid: seq<Option<bool>>, line: nat)
    requires firstLine <= line < firstLine + |valid|
  {
    && StartOf(content, line) <= StartOf(content, declarationLine) <= |content|
    && valid[line - firstLine] == Some(Reaches(Above(content, declarationLine), syntax, StartOf(content, line)))
    && !ScanPanics(Above(content, declarationLine), syntax, StartOf(content, line))
  }

  /** The verdicts so far: of the lines from `from` to the declaration, as a scan without memory gives them. */
  ghost predicate VerdictsRight(content: seq<byte>, syntax: Syntax, firstLine: nat, declarationLine: nat,
                                valid: seq<Option<bool>>, from: nat)
    requires declarationLine < |LineStarts(content)| && firstLine <= declarationLine
             && |valid| == declarationLine - firstLine
  {
    forall line :: firstLine <= line < declarationLine && from <= line ==>
      VerdictAt(content, syntax, firstLine, declarationLine, valid, line)
  }

  /** The closure `known` of `leading_region`: the verdict of the line an offset lies on. */
  function KnownBy(content: seq<byte>, firstLine: nat, declarationLine: nat, valid: seq<Option<bool>>, end: nat): Memo
    requires firstLine + |valid| == declarationLine
  {
    (offset: nat) =>
      if offset >= end then None
      else
        var line := Index(content).LineOf(offset);
        if firstLine <= line < declarationLine then valid[line - firstLine] else None
  }

  lemma LineAt(content: seq<byte>, declarationLine: nat, line: nat, offset: nat) returns (k: nat)
    requires line < declarationLine < |LineStarts(content)| && StartOf(content, declarationLine) <= |content|
    requires StartOf(content, line) < offset < StartOf(content, declarationLine) && content[offset - 1] == Lines.NEWLINE
    ensures line < k < declarationLine && Index(content).LineOf(offset) == k && StartOf(content, k) == offset
  {
    k := StartAfter(content, offset - 1);
    LineOfStart(content, k);
    StartsInside(content, declarationLine, declarationLine);
    if k <= line {
      StartsOrdered(content, k, line);
    }
    if declarationLine <= k {
      StartsOrdered(content, declarationLine, k);
    }
    BeyondBom(content, k);
  }

  lemma KnownIsRight(content: seq<byte>, syntax: Syntax, firstLine: nat, declarationLine: nat, valid: seq<Option<bool>>,
                     line: nat)
    requires firstLine <= line < declarationLine < |LineStarts(content)| && |valid| == declarationLine - firstLine
    requires VerdictsRight(content, syntax, firstLine, declarationLine, valid, line + 1)
    ensures StartOf(content, declarationLine) <= |content|
    ensures MemoRight(Above(content, declarationLine), syntax,
                      KnownBy(content, firstLine, declarationLine, valid, StartOf(content, declarationLine)),
                        StartOf(content, line))
  {
    StartsInside(content, line, declarationLine);
    var t := Above(content, declarationLine);
    var known := KnownBy(content, firstLine, declarationLine, valid, |t|);
    forall offset: nat | StartOf(content, line) < offset <= |t| && t[offset - 1] == Trivia.NEWLINE
      ensures known(offset) == (if offset < |t| then Some(Reaches(t, syntax, offset)) else None)
              && (offset < |t| ==> !ScanPanics(t, syntax, offset))
    {
      if offset < |t| {
        KnownAt(content, syntax, firstLine, declarationLine, valid, line, offset);
      }
    }
  }

  lemma KnownAt(content: seq<byte>, syntax: Syntax, firstLine: nat, declarationLine: nat, valid: seq<Option<bool>>,
                line: nat, offset: nat)
    requires firstLine <= line < declarationLine < |LineStarts(content)| && |valid| == declarationLine - firstLine
    requires VerdictsRight(content, syntax, firstLine, declarationLine, valid, line + 1)
    requires StartOf(content, line) < offset < StartOf(content, declarationLine) <= |content|
             && content[offset - 1] == Lines.NEWLINE
    ensures KnownBy(content, firstLine, declarationLine, valid, StartOf(content, declarationLine))(offset) ==
            Some(Reaches(Above(content, declarationLine), syntax, offset))
    ensures !ScanPanics(Above(content, declarationLine), syntax, offset)
  {
    var k := LineAt(content, declarationLine, line, offset);
    assert VerdictAt(content, syntax, firstLine, declarationLine, valid, k);
  }

  /** One turn of the loop: the verdict with memory is the verdict without, and there is none where the scan panics. */
  method JudgeLine(content: seq<byte>, syntax: Syntax, firstLine: nat, declarationLine: nat, valid: seq<Option<bool>>,
                   line: nat)
    returns (verdict: Option<bool>)
    requires firstLine <= line < declarationLine < |LineStarts(content)| && |valid| == declarationLine - firstLine
    requires VerdictsRight(content, syntax, firstLine, declarationLine, valid, line + 1)
    ensures StartOf(content, line) <= StartOf(content, declarationLine) <= |content|
    ensures verdict.None? <==> ScanPanics(Above(content, declarationLine), syntax, StartOf(content, line))
    ensures verdict.Some? ==>
              verdict.value == Reaches(Above(content, declarationLine), syntax, StartOf(content, line))
  {
    StartsInside(content, line, declarationLine);
    AboveEndsLine(content, declarationLine);
    KnownIsRight(content, syntax, firstLine, declarationLine, valid, line);
    var t := Above(content, declarationLine);
    var start := StartOf(content, line);
    var known := KnownBy(content, firstLine, declarationLine, valid, |t|);
    var scanned := ScanText(t, start, syntax, known);
    RightMemoKnows(t, start, syntax, known);
    MemoAgrees(t, start, syntax, known, start, false, scanned, ScanFrom(t, start, syntax, NoMemo(), start, false));
    verdict := if scanned.stop.Panic? then None else Some(Accepts(scanned.stop) && scanned.tokens != []);
  }

  /** The scan from the line panics. */
  ghost predicate LinePanics(content: seq<byte>, syntax: Syntax, declarationLine: nat, line: nat)
  {
    && StartOf(content, line) <= StartOf(content, declarationLine) <= |content|
    && ScanPanics(Above(content, declarationLine), syntax, StartOf(content, line))
  }

  lemma OneMoreVerdict(content: seq<byte>, syntax: Syntax, firstLine: nat, declarationLine: nat,
                       valid: seq<Option<bool>>, line: nat, verdict: Option<bool>)
    requires firstLine <= line < declarationLine < |LineStarts(content)| && |valid| == declarationLine - firstLine
    requires VerdictsRight(content, syntax, firstLine, declarationLine, valid, line + 1)
    requires VerdictAt(content, syntax, firstLine, declarationLine, valid[line - firstLine := verdict], line)
    ensures VerdictsRight(content, syntax, firstLine, declarationLine, valid[line - firstLine := verdict], line)
  {
    var next := valid[line - firstLine := verdict];
    forall k | line < k < declarationLine ensures VerdictAt(content, syntax, firstLine, declarationLine, next, k) {
      assert VerdictAt(content, syntax, firstLine, declarationLine, valid, k);
    }
  }

  lemma NonePanics(content: seq<byte>, syntax: Syntax, firstLine: nat, declarationLine: nat, valid: seq<Option<bool>>)
    requires firstLine <= declarationLine < |LineStarts(content)| && |valid| == declarationLine - firstLine
    requires VerdictsRight(content, syntax, firstLine, declarationLine, valid, firstLine)
    ensures forall line :: firstLine <= line < declarationLine ==> !LinePanics(content, syntax, declarationLine, line)
  {
    forall line | firstLine <= line < declarationLine ensures !LinePanics(content, syntax, declarationLine, line) {
      assert VerdictAt(content, syntax, firstLine, declarationLine, valid, line);
    }
  }

  /** The loop over the lines, from the declaration upwards: all verdicts, or nothing when the scan of a line panics. */
  method JudgeLines(content: seq<byte>, syntax: Syntax, firstLine: nat, declarationLine: nat)
    returns (r: Option<seq<Option<bool>>>)
    requires firstLine <= declarationLine < |LineStarts(content)|
    ensures r.None? <==> exists line :: firstLine <= line < declarationLine
                           && LinePanics(content, syntax, declarationLine, line)
    ensures r.Some? ==> |r.value| == declarationLine - firstLine
                        && VerdictsRight(content, syntax, firstLine, declarationLine, r.value, firstLine)
  {
    var valid: seq<Option<bool>> := seq(declarationLine - firstLine, _ => None);
    var line := declarationLine;
    while line > firstLine
      invariant firstLine <= line <= declarationLine && |valid| == declarationLine - firstLine
      invariant VerdictsRight(content, syntax, firstLine, declarationLine, valid, line)
    {
      line := line - 1;
      var verdict := JudgeLine(content, syntax, firstLine, declarationLine, valid, line);
      if verdict.None? {
        assert LinePanics(content, syntax, declarationLine, line);
        return None;
      }
      OneMoreVerdict(content, syntax, firstLine, declarationLine, valid, line, verdict);
      valid := valid[line - firstLine := verdict];
    }
    NonePanics(content, syntax, firstLine, declarationLine, valid);
    return Some(valid);
  }

  // ----- the region

  datatype TriviaSummary = TriviaSummary(docs: bool, comments: bool, attributes: bool)

  datatype LeadingRegion = LeadingRegion(start: nat, end: nat, attributesStart: Option<nat>, summary: TriviaSummary)

  function Summarize(tokens: seq<Token>): TriviaSummary
  {
    TriviaSummary(exists i :: 0 <= i < |tokens| && tokens[i].kind.DocComment?,
                  exists i :: 0 <= i < |tokens| && !tokens[i].kind.Attribute?,
                  exists i :: 0 <= i < |tokens| && tokens[i].kind.Attribute?)
  }

  function FirstAttribute(tokens: seq<Token>): Option<nat>
  {
    if tokens == [] then None
    else if tokens[0].kind.Attribute? then Some(tokens[0].offset)
    else FirstAttribute(tokens[1..])
  }

  /** The line a declaration is on, and the first line its region may begin on. */
  function DeclarationLine(content: seq<byte>, declarationStart: nat): nat
  {
    Index(content).LineOf(Min(declarationStart, |content|))
  }

  function FirstLine(content: seq<byte>, declarationStart: nat, floor: nat): nat
  {
    var floorLine := Index(content).LineOf(Min(floor, |content|));
    var declarationLine := DeclarationLine(content, declarationStart);
    Max(if declarationLine < MAX_REGION_LINES then 0 else declarationLine - MAX_REGION_LINES,
        if LineBegin(content, floorLine) < floor then floorLine + 1 else floorLine)
  }

  /** A scan without memory from the line reaches the declaration through comments and attributes only. */
  ghost predicate LineReaches(content: seq<byte>, syntax: Syntax, declarationLine: nat, line: nat)
  {
    && StartOf(content, line) <= StartOf(content, declarationLine) <= |content|
    && Reaches(Above(content, declarationLine), syntax, StartOf(content, line))
  }

  /** No line from `first` to before `line` reaches the declaration. */
  ghost predicate NoneReaches(content: seq<byte>, syntax: Syntax, declarationLine: nat, first: nat, line: nat)
  {
    forall earlier :: first <= earlier < line ==> !LineReaches(content, syntax, declarationLine, earlier)
  }

  /** The region from the earliest line in range that reaches the declaration, and the empty region where none does. */
  ghost predicate IsRegion(content: seq<byte>, declarationStart: nat, syntax: Syntax, floor: nat, region: LeadingRegion)
  {
    var declarationLine, first :=
      DeclarationLine(content, declarationStart), FirstLine(content, declarationStart, floor);
    var end := StartOf(content, declarationLine);
    && region.end == end <= |content|
    && ((region == NoRegion(end)
         && NoneReaches(content, syntax, declarationLine, first, declarationLine))
        || exists line :: first <= line < declarationLine && LineReaches(content, syntax, declarationLine, line)
             && NoneReaches(content, syntax, declarationLine, first, line)
             && StartsAt(content, syntax, declarationLine, line, region))
  }

  /** The region that starts at a line: its parts come from a scan without memory. */
  predicate StartsAt(content: seq<byte>, syntax: Syntax, declarationLine: nat, line: nat, region: LeadingRegion)
  {
    && region.start == StartOf(content, line) <= StartOf(content, declarationLine) <= |content|
    && var tokens := ScanFrom(Above(content, declarationLine), region.start, syntax, NoMemo(), region.start,
                              false).tokens;
    && region.summary == Summarize(tokens)
    && region.attributesStart == match FirstAttribute(tokens)
                                 case None => None
                                 case Some(offset) => Some(StartOf(content, Index(content).LineOf(offset)))
  }

  lemma VerdictIs(content: seq<byte>, syntax: Syntax, firstLine: nat, declarationLine: nat, valid: seq<Option<bool>>,
                  line: nat)
    requires firstLine <= line < declarationLine < |LineStarts(content)| && |valid| == declarationLine - firstLine
    requires VerdictsRight(content, syntax, firstLine, declarationLine, valid, firstLine)
    ensures valid[line - firstLine] == Some(true) <==> LineReaches(content, syntax, declarationLine, line)
  {
    assert VerdictAt(content, syntax, firstLine, declarationLine, valid, line);
  }

  /** `position` of the first verdict that is yes, or the number of verdicts. */
  method FirstYes(valid: seq<Option<bool>>) returns (n: nat)
    ensures n <= |valid| && forall k :: 0 <= k < n ==> valid[k] != Some(true)
    ensures n < |valid| ==> valid[n] == Some(true)
  {
    n := 0;
    while n < |valid| && valid[n] != Some(true)
      invariant n <= |valid| && forall k :: 0 <= k < n ==> valid[k] != Some(true)
    {
      n := n + 1;
    }
  }

  /** The first verdict that is yes is that of the earliest line that reaches the declaration. */
  lemma FirstYesIsEarliest(content: seq<byte>, syntax: Syntax, firstLine: nat, declarationLine: nat,
                           valid: seq<Option<bool>>, n: nat)
    requires firstLine <= declarationLine < |LineStarts(content)| && n <= |valid| == declarationLine - firstLine
    requires VerdictsRight(content, syntax, firstLine, declarationLine, valid, firstLine)
    requires forall k :: 0 <= k < n ==> valid[k] != Some(true)
    ensures NoneReaches(content, syntax, declarationLine, firstLine, firstLine + n)
    ensures n < |valid| && valid[n] == Some(true) ==> LineReaches(content, syntax, declarationLine, firstLine + n)
  {
    forall line | firstLine <= line < firstLine + n ensures !LineReaches(content, syntax, declarationLine, line) {
      assert valid[line - firstLine] != Some(true);
      VerdictIs(content, syntax, firstLine, declarationLine, valid, line);
    }
    if n < |valid| {
      VerdictIs(content, syntax, firstLine, declarationLine, valid, firstLine + n);
    }
  }

  function NoRegion(end: nat): LeadingRegion { LeadingRegion(end, end, None, TriviaSummary(false, false, false)) }

  /** The scan of some line in range panics. */
  ghost predicate RegionPanics(content: seq<byte>, declarationStart: nat, syntax: Syntax, floor: nat)
  {
    exists line :: FirstLine(content, declarationStart, floor) <= line < DeclarationLine(content, declarationStart)
      && LinePanics(content, syntax, DeclarationLine(content, declarationStart), line)
  }

  /** `leading_region`: the region, or nothing when it panics. */
  method FindLeadingRegion(content: seq<byte>, declarationStart: nat, syntax: Syntax, floor: nat)
    returns (r: Option<LeadingRegion>)
    ensures r.None? <==> RegionPanics(content, declarationStart, syntax, floor)
    ensures r.Some? ==> IsRegion(content, declarationStart, syntax, floor, r.value)
  {
    var declarationLine := DeclarationLine(content, declarationStart);
    OnItsLine(content, Min(declarationStart, |content|));
    StartsInside(content, declarationLine, declarationLine);
    var firstLine := FirstLine(content, declarationStart, floor);
    if firstLine >= declarationLine {
      return Some(NoRegion(StartOf(content, declarationLine)));
    }
    var valid := JudgeLines(content, syntax, firstLine, declarationLine);
    if valid.None? {
      return None;
    }
    var earliest := FirstYes(valid.value);
    FirstYesIsEarliest(content, syntax, firstLine, declarationLine, valid.value, earliest);
    var line := firstLine + earliest;
    if line == declarationLine {
      return Some(NoRegion(StartOf(content, declarationLine)));
    }
    var region := RegionFrom(content, syntax, declarationLine, line);
    RegionOf(content, declarationStart, syntax, floor, region, line);
    return Some(region);
  }

  lemma RegionOf(content: seq<byte>, declarationStart: nat, syntax: Syntax, floor: nat, region: LeadingRegion,
                 line: nat)
    requires FirstLine(content, declarationStart, floor) <= line < DeclarationLine(content, declarationStart)
    requires LineReaches(content, syntax, DeclarationLine(content, declarationStart), line)
    requires NoneReaches(content, syntax, DeclarationLine(content, declarationStart),
                         FirstLine(content, declarationStart, floor), line)
    requires StartsAt(content, syntax, DeclarationLine(content, declarationStart), line, region)
    requires region.end == StartOf(content, DeclarationLine(content, declarationStart))
    ensures IsRegion(content, declarationStart, syntax, floor, region)
  {
  }

  method RegionFrom(content: seq<byte>, syntax: Syntax, declarationLine: nat, line: nat) returns (region: LeadingRegion)
    requires line < declarationLine < |LineStarts(content)|
    ensures StartsAt(content, syntax, declarationLine, line, region) && region.end == StartOf(content, declarationLine)
  {
    StartsInside(content, line, declarationLine);
    var start := StartOf(content, line);
    var scanned := ScanText(Above(content, declarationLine), start, syntax, NoMemo());
    var attribute := FirstAttribute(scanned.tokens);
    var attributesStart := if attribute.Some? then Some(StartOf(content, Index(content).LineOf(attribute.value)))
      else None;
    region := LeadingRegion(start, StartOf(content, declarationLine), attributesStart, Summarize(scanned.tokens));
  }

  // ----- where the region panics

  lemma BlanksEndAtBoundary(t: seq<byte>, position: nat)
    requires IsUtf8(t) && position <= |t| && IsCharBoundary(t, position)
    ensures IsCharBoundary(t, SkipBlanks(t, position))
  {
    var p := SkipBlanks(t, position);
    if position < p {
      BoundaryAfterAscii(t, p);
    }
  }

  /** In valid text a scan without memory panics exactly when it stops at an attribute with a bare wide character. */
  lemma {:induction false} ScanPanicsExactlyWhen(t: seq<byte>, base: nat, syntax: Syntax, position: nat,
                                                 lineHasToken: bool, scan: Scan)
    requires IsUtf8(t) && base <= position <= |t| && IsCharBoundary(t, position)
    requires scan == ScanFrom(t, base, syntax, NoMemo(), position, lineHasToken)
    ensures scan.stop.Panic? <==> base <= scan.position < |t| && WideAttribute(t, base, syntax, scan.position)
    decreases |t| - position
  {
    var p := SkipBlanks(t, position);
    BlanksEndAtBoundary(t, position);
    var turn := TurnAt(t, base, syntax, NoMemo(), p, lineHasToken);
    ScanTurn(t, base, syntax, NoMemo(), position, lineHasToken, turn, scan);
    TurnPanicsExactlyWhen(t, base, syntax, p, lineHasToken, turn);
    if turn.GoesOn? {
      ScanPanicsExactlyWhen(t, base, syntax, turn.next, turn.lineHasToken, scan);
    } else if turn.Takes? {
      ScanPanicsExactlyWhen(t, base, syntax, turn.token.end, true,
                            ScanFrom(t, base, syntax, NoMemo(), turn.token.end, true));
    }
  }

  lemma TurnPanicsExactlyWhen(t: seq<byte>, base: nat, syntax: Syntax, p: nat, lineHasToken: bool, turn: Turn)
    requires IsUtf8(t) && base <= p <= |t| && IsCharBoundary(t, p)
    requires turn == TurnAt(t, base, syntax, NoMemo(), p, lineHasToken)
    ensures turn.Stops? ==> turn.at == p && (turn.stop.Panic? <==> p < |t| && WideAttribute(t, base, syntax, p))
    ensures turn.GoesOn? ==> IsCharBoundary(t, turn.next)
    ensures turn.Takes? ==> IsCharBoundary(t, turn.token.end)
  {
    if p < |t| && t[p] == Trivia.NEWLINE {
      AtFirst(t, p, [35, 91]);
      BoundaryAfterAscii(t, p + 1);
    } else if p < |t| {
      TokenPanicsExactlyWhen(t, base, syntax, p, TokenAt(t, base, syntax, p));
    }
  }

  /** A line from which comments and attributes lead to an attribute with a bare wide character. */
  ghost predicate LeadsToWide(content: seq<byte>, syntax: Syntax, declarationLine: nat, line: nat)
  {
    && StartOf(content, line) <= StartOf(content, declarationLine) <= |content|
    && var t, start := Above(content, declarationLine), StartOf(content, line);
    var at := ScanFrom(t, start, syntax, NoMemo(), start, false).position;
    start <= at < |t| && WideAttribute(t, start, syntax, at)
  }

  lemma {:induction false} FirstStartsAtZero(text: seq<byte>)
    ensures LineBegin(text, 0) == 0
  {
    if text != [] {
      FirstStartsAtZero(text[..|text| - 1]);
    }
  }

  lemma StartIsBoundary(content: seq<byte>, line: nat)
    requires IsUtf8(content) && line < |LineStarts(content)| && StartOf(content, line) <= |content|
    ensures IsCharBoundary(content, StartOf(content, line))
  {
    if line > 0 {
      AfterNewline(content, line);
      BeyondBom(content, line);
      BoundaryAfterAscii(content, StartOf(content, line));
    } else {
      FirstStartsAtZero(content);
      if Plan.BomLen(content) > 0 {
        assert content[0] == content[..3][0] == 0xEF;
        var width := CharAt(content, 0);
      }
    }
  }

  lemma LinePanicsExactlyWhen(content: seq<byte>, syntax: Syntax, declarationLine: nat, line: nat)
    requires IsUtf8(content) && line < declarationLine < |LineStarts(content)|
    ensures LinePanics(content, syntax, declarationLine, line) <==> LeadsToWide(content, syntax, declarationLine, line)
  {
    StartsInside(content, line, declarationLine);
    StartIsBoundary(content, line);
    StartIsBoundary(content, declarationLine);
    CutIsUtf8(content, StartOf(content, declarationLine));
    var t, start := Above(content, declarationLine), StartOf(content, line);
    assert IsCharBoundary(t, start);
    ScanPanicsExactlyWhen(t, start, syntax, start, false, ScanFrom(t, start, syntax, NoMemo(), start, false));
  }

  /**
   For all valid text, `leading_region` panics exactly when some line in range leads, through comments and
   attributes, to an attribute or decorator whose brackets hold a character that is not ASCII outside what the scan
   skips as a whole.
   */
  lemma RegionPanicsExactlyWhen(content: seq<byte>, declarationStart: nat, syntax: Syntax, floor: nat)
    requires IsUtf8(content)
    ensures RegionPanics(content, declarationStart, syntax, floor) <==>
            exists line :: FirstLine(content, declarationStart, floor) <= line
                             < DeclarationLine(content, declarationStart)
              && LeadsToWide(content, syntax, DeclarationLine(content, declarationStart), line)
  {
    var declarationLine := DeclarationLine(content, declarationStart);
    OnItsLine(content, Min(declarationStart, |content|));
    forall line | FirstLine(content, declarationStart, floor) <= line < declarationLine
      ensures LinePanics(content, syntax, declarationLine, line) <==>
              LeadsToWide(content, syntax, declarationLine, line)
    {
      LinePanicsExactlyWhen(content, syntax, declarationLine, line);
    }
  }

  /** The attribute `#[a(é)]` on a line of its own, and the beginning of a declaration after it. */
  const WIDE_LINE: seq<byte> := [35, 91, 97, 40, 0xC3, 0xA9, 41, 93, 10]
  const WIDE_CONTENT: seq<byte> := WIDE_LINE + [102, 110]

  lemma WideIsUtf8()
    ensures IsUtf8(WIDE_CONTENT)
  {
    var a, b, e := "#[a(", ")]\nfn", [0xE9 as char];
    assert Encode(a) == [35, 91, 97, 40] by {
      assert a[1..] == "[a(" && a[1..][1..] == "a(" && a[1..][1..][1..] == "(";
    }
    assert Encode(b) == [41, 93, 10, 102, 110] by {
      assert b[1..] == "]\nfn" && b[1..][1..] == "\nfn" && b[1..][1..][1..] == "fn" && b[1..][1..][1..][1..] == "n";
    }
    assert Encode(e) == [0xC3, 0xA9];
    EncodeConcat(a, e);
    EncodeConcat(a + e, b);
    assert WIDE_CONTENT == Encode(a + e + b);
    DecodeEncode(a + e + b);
  }

  lemma WideTokenPanics()
    ensures TokenAt(WIDE_LINE, 0, Rust, 0) == Panicked
  {
    var t := WIDE_LINE;
    assert t[0..2] == [35, 91];
    forall k | 0 <= k < 5 && k != 1 ensures !At(t, k, [SLASH, SLASH]) && !At(t, k, [SLASH, STAR]) {
      AtFirst(t, k, [SLASH, SLASH]);
      AtFirst(t, k, [SLASH, STAR]);
    }
    assert Balanced(t, 0, 5, 1, 91, 93, Rust) == Panics;
    assert Balanced(t, 0, 4, 1, 91, 93, Rust) == Panics;
    assert Balanced(t, 0, 3, 1, 91, 93, Rust) == Panics;
    assert Balanced(t, 0, 2, 1, 91, 93, Rust) == Panics;
    assert Balanced(t, 0, 1, 0, 91, 93, Rust) == Panics;
  }

  lemma {:induction false} NoNewlines(t: seq<byte>)
    requires Lines.NEWLINE !in t
    ensures LineStarts(t) == [0]
  {
    if t != [] {
      NoNewlines(t[..|t| - 1]);
    }
  }

  lemma StartsSnoc(text: seq<byte>, b: byte)
    ensures LineStarts(text + [b]) == LineStarts(text) + if b == Lines.NEWLINE then [|text| + 1] else []
  {
    assert (text + [b])[..|text|] == text;
  }

  lemma WideLineStarts()
    ensures LineStarts(WIDE_CONTENT) == [0, 9] && Plan.BomLen(WIDE_CONTENT) == 0
  {
    var attribute := WIDE_LINE[..8];
    NoNewlines(attribute);
    StartsSnoc(attribute, 10);
    assert attribute + [10] == WIDE_LINE;
    StartsSnoc(WIDE_LINE, 102);
    StartsSnoc(WIDE_LINE + [102], 110);
    assert WIDE_LINE + [102] + [110] == WIDE_CONTENT && WIDE_CONTENT[0] == 35;
  }

  /** It can panic: on an attribute with an accented letter above the declaration. */
  lemma RegionCanPanic()
    ensures IsUtf8(WIDE_CONTENT) && RegionPanics(WIDE_CONTENT, 9, Rust, 0)
  {
    WideIsUtf8();
    WideLineStarts();
    WideTokenPanics();
    LineOfStart(WIDE_CONTENT, 0);
    LineOfStart(WIDE_CONTENT, 1);
    assert Above(WIDE_CONTENT, 1) == WIDE_LINE;
    assert LinePanics(WIDE_CONTENT, Rust, 1, 0);
    assert DeclarationLine(WIDE_CONTENT, 9) == 1 && FirstLine(WIDE_CONTENT, 9, 0) == 0;
    assert LinePanics(WIDE_CONTENT, Rust, DeclarationLine(WIDE_CONTENT, 9), 0);
  }
}

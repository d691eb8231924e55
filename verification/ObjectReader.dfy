/**
 The object reader on matched brackets (crates/atlas-detect/src/objects.rs): it cuts an object's inside at its top
 commas and reads each piece as an entry. It fails only where a piece is no entry, and nests no deeper than its limit.
 */
module ObjectReader {
  import opened Wrappers
  import opened ArgStrings
  import opened Objects

  const MAX_DEPTH: nat := 32

  predicate IsSuffixWord(t: Token) { t.kind.Word? && (t.text == "as" || t.text == "satisfies") }

  /** `type_suffix`: the first `as` or `satisfies` outside brackets. */
  function TypeSuffix(tokens: seq<Token>, index: nat, end: nat): (r: Option<nat>)
    requires end <= |tokens|
    ensures r.Some? ==> index <= r.value < end
    decreases |tokens| - index
  {
    if index >= end then None
    else if Opens(tokens[index]) then
      match CloserOf(tokens, index)
      case None => None
      case Some(close) => TypeSuffix(tokens, close + 1, end)
    else if IsSuffixWord(tokens[index]) then Some(index)
    else TypeSuffix(tokens, index + 1, end)
  }

  method FindTypeSuffix(tokens: seq<Token>, closers: seq<Option<nat>>, start: nat, end: nat) returns (r: Option<nat>)
    requires end <= |tokens| && |closers| == |tokens|
    requires forall i :: 0 <= i < |tokens| ==> closers[i] == CloserOf(tokens, i)
    ensures r == TypeSuffix(tokens, start, end)
  {
    var index := start;
    while index < end
      invariant TypeSuffix(tokens, index, end) == TypeSuffix(tokens, start, end)
    {
      if Opens(tokens[index]) {
        index := if closers[index].Some? then closers[index].value + 1 else end;
        continue;
      }
      if IsSuffixWord(tokens[index]) {
        return Some(index);
      }
      index := index + 1;
    }
    r := None;
  }

  /** The word stands outside the brackets opened since `start`: each of those has closed before it. */
  ghost predicate SuffixAt(tokens: seq<Token>, start: nat, k: nat)
    requires k < |tokens|
  {
    && start <= k && IsSuffixWord(tokens[k])
    && forall p :: start <= p < k && Opens(tokens[p]) ==> CloserOf(tokens, p).Some? && CloserOf(tokens, p).value < k
  }

  lemma OutsideBracket(tokens: seq<Token>, index: nat, k: nat)
    requires index < k < |tokens| && Opens(tokens[index]) && CloserOf(tokens, index).Some?
             && CloserOf(tokens, index).value < k
    ensures SuffixAt(tokens, index, k) <==> SuffixAt(tokens, CloserOf(tokens, index).value + 1, k)
  {
    var close := CloserOf(tokens, index).value;
    forall p | index < p < close && Opens(tokens[p]) ensures CloserOf(tokens, p).Some?
      && CloserOf(tokens, p).value < k {
      InsideIsMatchedInside(tokens, index, p);
    }
    assert !Opens(tokens[close]);
  }

  /** Up to where nothing has been found: the found place, or the end. */
  function Searched(found: Option<nat>, end: nat): nat { if found.Some? then found.value else end }

  /** What `type_suffix` finds is the first suffix word outside brackets, and none only when there is none. */
  lemma {:induction false} TypeSuffixIsFirst(tokens: seq<Token>, index: nat, end: nat)
    requires end <= |tokens|
    ensures TypeSuffix(tokens, index, end).Some? ==> SuffixAt(tokens, index, TypeSuffix(tokens, index, end).value)
    ensures forall k :: index <= k < Searched(TypeSuffix(tokens, index, end), end) ==> !SuffixAt(tokens, index, k)
    decreases |tokens| - index
  {
    if index < end && Opens(tokens[index]) && CloserOf(tokens, index).Some? {
      var close := CloserOf(tokens, index).value;
      TypeSuffixIsFirst(tokens, close + 1, end);
      forall k | close < k < end ensures SuffixAt(tokens, index, k) <==> SuffixAt(tokens, close + 1, k) {
        OutsideBracket(tokens, index, k);
      }
    } else if index < end && !Opens(tokens[index]) && !IsSuffixWord(tokens[index]) {
      TypeSuffixIsFirst(tokens, index + 1, end);
      assert forall k :: index < k < end ==> (SuffixAt(tokens, index, k) <==> SuffixAt(tokens, index + 1, k));
    }
  }

  function Joined(tokens: seq<Token>, separator: string): string
  {
    if tokens == [] then ""
    else if |tokens| == 1 then tokens[0].text
    else tokens[0].text + separator + Joined(tokens[1..], separator)
  }

  /** `member_path`: words and dots in turn. */
  function MemberPath(tokens: seq<Token>): Option<seq<string>>
  {
    if tokens == [] || !tokens[0].kind.Word? then None
    else if |tokens| == 1 then Some([tokens[0].text])
    else if !tokens[1].IsPunct(".") then None
    else
      match MemberPath(tokens[2..])
      case None => None
      case Some(rest) => Some([tokens[0].text] + rest)
  }

  /** A value that is neither text nor an object. */
  function PlainValue(tokens: seq<Token>): ArgSummary
  {
    match MemberPath(tokens)
    case Some(path) => Path(path)
    case None => ArgSummary.Other(Joined(tokens, " "))
  }

  /** `value`. */
  function Value(tokens: seq<Token>, start: nat, end: nat, depth: nat): ArgSummary
    requires start <= end <= |tokens|
    decreases |tokens| - start, 1
  {
    var suffix := TypeSuffix(tokens, start, end);
    var stop := if suffix.Some? then suffix.value else end;
    var t := tokens[start..stop];
    if |t| == 1 && t[0].kind.Text? then Str(t[0].text)
    else if |t| == 3 && t[0].IsPunct("`") && t[1].kind.TemplateChunk? && t[2].IsPunct("`") then Str(t[1].text)
    else if |t| == 2 && t[0].IsPunct("`") && t[1].IsPunct("`") then Str("")
    else if |t| > 0 && t[0].IsPunct("{") && depth < MAX_DEPTH && CloserOf(tokens, start) == Some(stop - 1) then
      match ReadObject(tokens, start, depth + 1)
      case Some((entries, _)) => Object(entries)
      case None => PlainValue(t)
    else PlainValue(t)
  }

  /** `entry`. */
  function Entry(tokens: seq<Token>, start: nat, end: nat, depth: nat): Option<ObjectEntry>
    requires start <= end <= |tokens|
    decreases |tokens| - start, 2
  {
    var t := tokens[start..end];
    if t != [] && t[0].IsPunct("...") then Some(ObjectEntry(Spread, Value(tokens, start + 1, end, depth)))
    else if |t| == 1 && t[0].kind.Word? then Some(ObjectEntry(IdentKey(t[0].text), Path([t[0].text])))
    else if |t| >= 3 && t[1].IsPunct(":") then
      (if t[0].kind.Word? then Some(ObjectEntry(IdentKey(t[0].text), Value(tokens, start + 2, end, depth)))
       else if t[0].kind.Text? || t[0].kind.Number?
         then Some(ObjectEntry(StrKey(t[0].text), Value(tokens, start + 2, end, depth)))
       else None)
    else if t != [] && t[0].IsPunct("[") then
      match CloserOf(tokens, start)
      case None => None
      case Some(close) =>
        if close + 1 < end && tokens[close + 1].IsPunct(":") then
          Some(ObjectEntry(Computed(Joined(tokens[start + 1..close], "")), Value(tokens, close + 2, end, depth)))
        else None
    else None
  }

  /** The loop of `object`: the entries from `cursor` on. */
  function Entries(tokens: seq<Token>, cursor: nat, close: nat, depth: nat): Option<seq<ObjectEntry>>
    requires close <= |tokens|
    decreases |tokens| - cursor, 3
  {
    if cursor >= close then Some([])
    else
      match EntryEnd(tokens, cursor, close)
      case None => None
      case Some(end) =>
        match Entry(tokens, cursor, end, depth)
        case None => None
        case Some(entry) =>
          match Entries(tokens, if end < close then end + 1 else end, close, depth)
          case None => None
          case Some(rest) => Some([entry] + rest)
  }

  /** `object`: the entries, and the place after the closing brace. */
  function ReadObject(tokens: seq<Token>, at: nat, depth: nat): (r: Option<(seq<ObjectEntry>, nat)>)
    ensures r.Some? ==> CloserOf(tokens, at).Some? && r.value.1 == CloserOf(tokens, at).value + 1
    decreases |tokens| - at, 0
  {
    if at >= |tokens| || !tokens[at].IsPunct("{") then None
    else
      match CloserOf(tokens, at)
      case None => None
      case Some(close) =>
        match Entries(tokens, at + 1, close, depth)
        case None => None
        case Some(entries) => Some((entries, close + 1))
  }

  function WithRest(entries: seq<ObjectEntry>, rest: Option<seq<ObjectEntry>>): Option<seq<ObjectEntry>>
  {
    if rest.Some? then Some(entries + rest.value) else None
  }

  lemma EntriesTurn(tokens: seq<Token>, cursor: nat, close: nat, depth: nat, end: nat, entry: ObjectEntry, next: nat,
                    entries: seq<ObjectEntry>)
    requires cursor < close <= |tokens| && EntryEnd(tokens, cursor, close) == Some(end)
             && Entry(tokens, cursor, end, depth) == Some(entry)
    requires next == if end < close then end + 1 else end
    ensures WithRest(entries, Entries(tokens, cursor, close, depth)) ==
            WithRest(entries + [entry], Entries(tokens, next, close, depth))
  {
    EntriesStep(tokens, cursor, close, depth, end, entry, next, Entries(tokens, next, close, depth));
    RestSnoc(entries, entry, Entries(tokens, next, close, depth));
  }

  lemma EntriesStep(tokens: seq<Token>, cursor: nat, close: nat, depth: nat, end: nat, entry: ObjectEntry, next: nat,
                    rest: Option<seq<ObjectEntry>>)
    requires cursor < close <= |tokens| && EntryEnd(tokens, cursor, close) == Some(end)
             && Entry(tokens, cursor, end, depth) == Some(entry)
    requires next == (if end < close then end + 1 else end) && rest == Entries(tokens, next, close, depth)
    ensures Entries(tokens, cursor, close, depth) == WithRest([entry], rest)
  {
  }

  lemma RestSnoc(entries: seq<ObjectEntry>, entry: ObjectEntry, rest: Option<seq<ObjectEntry>>)
    ensures WithRest(entries, WithRest([entry], rest)) == WithRest(entries + [entry], rest)
  {
    if rest.Some? {
      assert entries + ([entry] + rest.value) == entries + [entry] + rest.value;
    }
  }

  /** `object`, with its moving cursor. */
  method FindObject(tokens: seq<Token>, closers: seq<Option<nat>>, at: nat, depth: nat)
    returns (r: Option<(seq<ObjectEntry>, nat)>)
    requires |closers| == |tokens| && forall i :: 0 <= i < |tokens| ==> closers[i] == CloserOf(tokens, i)
    ensures r == ReadObject(tokens, at, depth)
  {
    if at >= |tokens| || !tokens[at].IsPunct("{") || closers[at].None? {
      return None;
    }
    var close := closers[at].value;
    var entries: seq<ObjectEntry> := [];
    var cursor := at + 1;
    ghost var whole := Entries(tokens, cursor, close, depth);
    assert whole.Some? ==> [] + whole.value == whole.value;
    while cursor < close
      invariant Entries(tokens, at + 1, close, depth) == WithRest(entries, Entries(tokens, cursor, close, depth))
      decreases close - cursor
    {
      var end := FindEntryEnd(tokens, closers, cursor, close);
      if end.None? {
        return None;
      }
      var entry := Entry(tokens, cursor, end.value, depth);
      if entry.None? {
        return None;
      }
      var next := if end.value < close then end.value + 1 else end.value;
      EntriesTurn(tokens, cursor, close, depth, end.value, entry.value, next, entries);
      entries := entries + [entry.value];
      cursor := next;
    }
    assert entries + [] == entries;
    r := Some((entries, close + 1));
  }

  // ----- the pieces of an object

  datatype Piece = Piece(start: nat, end: nat)

  /** The pieces between top commas; a comma at the end leaves no empty last piece. */
  function Pieces(tokens: seq<Token>, cursor: nat, close: nat): (pieces: seq<Piece>)
    requires close <= |tokens|
    decreases |tokens| - cursor
  {
    if cursor >= close then []
    else
      match EntryEnd(tokens, cursor, close)
      case None => []
      case Some(end) => [Piece(cursor, end)] + if end < close then Pieces(tokens, end + 1, close) else []
  }

  /** The pieces follow each other from `cursor`, each up to the next top comma, and reach the closing bracket. */
  ghost predicate CutAtCommas(tokens: seq<Token>, cursor: nat, close: nat, pieces: seq<Piece>)
    requires cursor <= close <= |tokens|
    decreases |pieces|
  {
    if cursor == close then pieces == []
    else
      && pieces != [] && pieces[0].start == cursor && EndsEntry(tokens, cursor, close, pieces[0].end)
      && Depth(tokens, cursor, pieces[0].end) == 0
      && (if pieces[0].end == close then |pieces| == 1 else CutAtCommas(tokens, pieces[0].end + 1, close, pieces[1..]))
  }

  /** After the comma that ends an entry, the rest of the inside is self-contained again. */
  lemma AfterEntry(tokens: seq<Token>, cursor: nat, close: nat, end: nat)
    requires SelfContained(tokens, cursor, close) && EntryEnd(tokens, cursor, close) == Some(end) && end < close
    ensures SelfContained(tokens, end + 1, close)
  {
    EntryEnds(tokens, cursor, close);
    RestIsSelfContained(tokens, cursor, end, close);
    var next := StepOver(tokens, end, close);
  }

  lemma FirstPiece(tokens: seq<Token>, cursor: nat, close: nat, end: nat)
    requires cursor < close <= |tokens| && EntryEnd(tokens, cursor, close) == Some(end) && end < close
    ensures Pieces(tokens, cursor, close) == [Piece(cursor, end)] + Pieces(tokens, end + 1, close)
    ensures Pieces(tokens, cursor, close)[1..] == Pieces(tokens, end + 1, close)
  {
  }

  lemma {:induction false} PiecesCutAtCommas(tokens: seq<Token>, cursor: nat, close: nat)
    requires SelfContained(tokens, cursor, close)
    ensures CutAtCommas(tokens, cursor, close, Pieces(tokens, cursor, close))
    decreases close - cursor
  {
    if cursor < close {
      EntryEnds(tokens, cursor, close);
      var end := EntryEnd(tokens, cursor, close).value;
      if end < close {
        AfterEntry(tokens, cursor, close, end);
        PiecesCutAtCommas(tokens, end + 1, close);
        FirstPiece(tokens, cursor, close, end);
      }
    }
  }

  /** The entries are the readings of the pieces, and there are some exactly when each piece can be read. */
  ghost predicate ReadsPieces(tokens: seq<Token>, pieces: seq<Piece>, depth: nat, r: Option<seq<ObjectEntry>>)
  {
    && (r.Some? <==>
        forall p :: p in pieces ==> p.start <= p.end <= |tokens| && Entry(tokens, p.start, p.end, depth).Some?)
    && (r.Some? ==> |r.value| == |pieces| && forall i :: 0 <= i < |pieces| ==>
          pieces[i].start <= pieces[i].end <= |tokens|
            && Some(r.value[i]) == Entry(tokens, pieces[i].start, pieces[i].end, depth))
  }

  /** The entry of a piece before the entries of the rest. */
  function FirstRead(tokens: seq<Token>, p: Piece, depth: nat, rest: Option<seq<ObjectEntry>>): Option<seq<ObjectEntry>>
    requires p.start <= p.end <= |tokens|
  {
    var entry := Entry(tokens, p.start, p.end, depth);
    if entry.Some? then WithRest([entry.value], rest) else None
  }

  /** The first piece, and the pieces and entries after it. */
  lemma FirstEntry(tokens: seq<Token>, cursor: nat, close: nat, depth: nat, end: nat, next: nat)
    requires cursor < close <= |tokens| && EntryEnd(tokens, cursor, close) == Some(end)
    requires next == if end < close then end + 1 else close
    ensures Pieces(tokens, cursor, close) == [Piece(cursor, end)] + Pieces(tokens, next, close)
    ensures Entries(tokens, cursor, close, depth) ==
            FirstRead(tokens, Piece(cursor, end), depth, Entries(tokens, next, close, depth))
  {
  }

  lemma {:induction false} EntriesReadPieces(tokens: seq<Token>, cursor: nat, close: nat, depth: nat)
    requires SelfContained(tokens, cursor, close)
    ensures ReadsPieces(tokens, Pieces(tokens, cursor, close), depth, Entries(tokens, cursor, close, depth))
    decreases close - cursor
  {
    if cursor < close {
      EntryEnds(tokens, cursor, close);
      var end := EntryEnd(tokens, cursor, close).value;
      var next := if end < close then end + 1 else close;
      if end < close {
        AfterEntry(tokens, cursor, close, end);
        EntriesReadPieces(tokens, next, close, depth);
      }
      FirstEntry(tokens, cursor, close, depth, end, next);
      PrependPiece(tokens, Piece(cursor, end), Pieces(tokens, next, close), depth, Entries(tokens, next, close, depth));
    }
  }

  lemma PrependPiece(tokens: seq<Token>, p: Piece, pieces: seq<Piece>, depth: nat, rest: Option<seq<ObjectEntry>>)
    requires p.start <= p.end <= |tokens| && ReadsPieces(tokens, pieces, depth, rest)
    ensures ReadsPieces(tokens, [p] + pieces, depth, FirstRead(tokens, p, depth, rest))
  {
    if Entry(tokens, p.start, p.end, depth).None? || rest.None? {
      PrependUnread(tokens, p, pieces, depth, rest);
    } else {
      PrependRead(tokens, p, pieces, depth, rest.value, Entry(tokens, p.start, p.end, depth).value);
    }
  }

  lemma PrependUnread(tokens: seq<Token>, p: Piece, pieces: seq<Piece>, depth: nat, rest: Option<seq<ObjectEntry>>)
    requires p.start <= p.end <= |tokens| && ReadsPieces(tokens, pieces, depth, rest)
    requires Entry(tokens, p.start, p.end, depth).None? || rest.None?
    ensures ReadsPieces(tokens, [p] + pieces, depth, None)
  {
    assert ([p] + pieces)[0] == p;
    assert forall q :: q in pieces ==> q in [p] + pieces;
  }

  lemma PrependRead(tokens: seq<Token>, p: Piece, pieces: seq<Piece>, depth: nat, rest: seq<ObjectEntry>,
                    entry: ObjectEntry)
    requires p.start <= p.end <= |tokens| && ReadsPieces(tokens, pieces, depth, Some(rest))
    requires Entry(tokens, p.start, p.end, depth) == Some(entry)
    ensures ReadsPieces(tokens, [p] + pieces, depth, Some([entry] + rest))
  {
    assert forall q :: q in [p] + pieces <==> q == p || q in pieces;
  }

  /**
   `object` is total: at a brace with its partner it cuts everything between them at the top commas, and it fails
   only because some piece is no entry.
   */
  lemma ObjectIsTotal(tokens: seq<Token>, at: nat, depth: nat)
    requires at < |tokens| && tokens[at].IsPunct("{") && CloserOf(tokens, at).Some?
    ensures var close := CloserOf(tokens, at).value;
            && CutAtCommas(tokens, at + 1, close, Pieces(tokens, at + 1, close))
            && ReadsPieces(tokens, Pieces(tokens, at + 1, close), depth, Entries(tokens, at + 1, close, depth))
            && (ReadObject(tokens, at, depth).Some? <==> Entries(tokens, at + 1, close, depth).Some?)
  {
    InsideIsSelfContained(tokens, at);
    PiecesCutAtCommas(tokens, at + 1, CloserOf(tokens, at).value);
    EntriesReadPieces(tokens, at + 1, CloserOf(tokens, at).value, depth);
  }

  // ----- nesting

  /** How many objects are nested in a value. */
  function Nesting(value: ArgSummary): nat
    decreases value, 1
  {
    if value.Object? then 1 + NestingOf(value.entries) else 0
  }

  function NestingOf(entries: seq<ObjectEntry>): nat
    decreases entries, 0
  {
    if entries == [] then 0 else Larger(NestingIn(entries[0]), NestingOf(entries[1..]))
  }

  function NestingIn(entry: ObjectEntry): nat
    decreases entry, 0
  {
    Nesting(entry.value)
  }

  function Larger(a: nat, b: nat): nat { if a >= b then a else b }

  /** However deep the tokens nest, a value read at some depth nests no deeper than the rest of the limit. */
  lemma {:induction false} ValueNesting(tokens: seq<Token>, start: nat, end: nat, depth: nat)
    requires start <= end <= |tokens| && depth <= MAX_DEPTH
    ensures depth + Nesting(Value(tokens, start, end, depth)) <= MAX_DEPTH
    decreases |tokens| - start, 1
  {
    if depth < MAX_DEPTH && start < |tokens| {
      ObjectNesting(tokens, start, depth + 1);
    }
  }

  lemma EntryNesting(tokens: seq<Token>, start: nat, end: nat, depth: nat)
    requires start <= end <= |tokens| && depth <= MAX_DEPTH && Entry(tokens, start, end, depth).Some?
    ensures depth + Nesting(Entry(tokens, start, end, depth).value.value) <= MAX_DEPTH
    decreases |tokens| - start, 2
  {
    var t := tokens[start..end];
    if t[0].IsPunct("...") {
      ValueNesting(tokens, start + 1, end, depth);
    } else if |t| == 1 && t[0].kind.Word? {
    } else if |t| >= 3 && t[1].IsPunct(":") {
      ValueNesting(tokens, start + 2, end, depth);
    } else {
      ValueNesting(tokens, CloserOf(tokens, start).value + 2, end, depth);
    }
  }

  lemma {:induction false} EntriesNesting(tokens: seq<Token>, cursor: nat, close: nat, depth: nat)
    requires close <= |tokens| && depth <= MAX_DEPTH && Entries(tokens, cursor, close, depth).Some?
    ensures depth + NestingOf(Entries(tokens, cursor, close, depth).value) <= MAX_DEPTH
    decreases |tokens| - cursor, 3
  {
    if cursor < close {
      var end := EntryEnd(tokens, cursor, close).value;
      var next := if end < close then end + 1 else end;
      EntryNesting(tokens, cursor, end, depth);
      EntriesNesting(tokens, next, close, depth);
      var entries, rest := Entries(tokens, cursor, close, depth).value, Entries(tokens, next, close, depth).value;
      assert entries[1..] == rest;
    }
  }

  /** Inside the object read at depth zero, objects nest at most MAX_DEPTH deep. */
  lemma ObjectNesting(tokens: seq<Token>, at: nat, depth: nat)
    requires depth <= MAX_DEPTH
    ensures ReadObject(tokens, at, depth).Some? ==>
              depth + NestingOf(ReadObject(tokens, at, depth).value.0) <= MAX_DEPTH
    decreases |tokens| - at, 0
  {
    if ReadObject(tokens, at, depth).Some? {
      EntriesNesting(tokens, at + 1, CloserOf(tokens, at).value, depth);
    }
  }
}

/**
 The detectors' own string evaluator (crates/atlas-detect/src/strings.rs): it also looks into nested templates and
 at constants of the module. It agrees with the argument's static text wherever there is one, and without
 constants it finds no other.
 */
module StringEval {
  import opened Wrappers
  import opened ArgStrings

  datatype Piece = Fixed(text: string) | Dyn(arg: ArgSummary)

  /** What the view resolves: the string of a module constant that no enclosing scope shadows. */
  type Constants = string -> Option<string>

  function Constant(arg: ArgSummary, known: Constants): Option<string>
  {
    if arg.Path? && |arg.segments| == 1 then known(arg.segments[0]) else None
  }

  /** The evaluator accepts the argument as text. */
  predicate Evaluates(arg: ArgSummary, known: Constants)
    decreases arg
  {
    arg.Str? || arg.Template? || (arg.Concat? && AnyEvaluates(arg.items, known)) || Constant(arg, known).Some?
  }

  predicate AnyEvaluates(items: seq<ArgSummary>, known: Constants)
    decreases items
  {
    items != [] && (AnyEvaluates(items[..|items| - 1], known) || Evaluates(items[|items| - 1], known))
  }

  // ----- pieces

  /** The evaluator's `push_literal`: it keeps empty text, too. */
  function PushText(pieces: seq<Piece>, text: string): seq<Piece>
  {
    if pieces != [] && pieces[|pieces| - 1].Fixed? then
      pieces[..|pieces| - 1] + [Fixed(pieces[|pieces| - 1].text + text)]
    else pieces + [Fixed(text)]
  }

  function PushPiece(pieces: seq<Piece>, piece: Piece): seq<Piece>
  {
    if piece.Fixed? then PushText(pieces, piece.text) else pieces + [piece]
  }

  function PushPieces(pieces: seq<Piece>, more: seq<Piece>): seq<Piece>
  {
    if more == [] then pieces else PushPiece(PushPieces(pieces, more[..|more| - 1]), more[|more| - 1])
  }

  lemma PushPiecesSnoc(pieces: seq<Piece>, more: seq<Piece>, piece: Piece)
    ensures PushPieces(pieces, more + [piece]) == PushPiece(PushPieces(pieces, more), piece)
  {
    assert (more + [piece])[..|more|] == more;
  }

  lemma {:induction false} PushPiecesJoin(pieces: seq<Piece>, a: seq<Piece>, b: seq<Piece>)
    ensures PushPieces(pieces, a + b) == PushPieces(PushPieces(pieces, a), b)
  {
    if b == [] {
      assert a + b == a;
    } else {
      PushPiecesJoin(pieces, a, b[..|b| - 1]);
      assert a + b == (a + b[..|b| - 1]) + [b[|b| - 1]];
      PushPiecesSnoc(pieces, a + b[..|b| - 1], b[|b| - 1]);
    }
  }

  lemma PushTextTwice(pieces: seq<Piece>, a: string, b: string)
    ensures PushText(PushText(pieces, a), b) == PushText(pieces, a + b)
  {
    if pieces != [] && pieces[|pieces| - 1].Fixed? {
      assert (pieces[|pieces| - 1].text + a) + b == pieces[|pieces| - 1].text + (a + b);
    }
  }

  lemma PushMergedPiece(pieces: seq<Piece>, merged: seq<Piece>, piece: Piece)
    ensures PushPieces(pieces, PushPiece(merged, piece)) == PushPiece(PushPieces(pieces, merged), piece)
  {
    if piece.Fixed? && merged != [] && merged[|merged| - 1].Fixed? {
      var init, last := merged[..|merged| - 1], merged[|merged| - 1];
      PushPiecesSnoc(pieces, init, Fixed(last.text + piece.text));
      PushTextTwice(PushPieces(pieces, init), last.text, piece.text);
    } else {
      PushPiecesSnoc(pieces, merged, piece);
    }
  }

  /** Merging first and pushing then is pushing one by one. */
  lemma {:induction false} PushMergedPieces(pieces: seq<Piece>, raw: seq<Piece>)
    ensures PushPieces(pieces, PushPieces([], raw)) == PushPieces(pieces, raw)
  {
    if raw != [] {
      PushMergedPieces(pieces, raw[..|raw| - 1]);
      PushMergedPiece(pieces, PushPieces([], raw[..|raw| - 1]), raw[|raw| - 1]);
    }
  }

  /** The text of pieces none of which is dynamic. */
  function StaticText(pieces: seq<Piece>): Option<string>
  {
    if pieces == [] then Some("")
    else
      match (StaticText(pieces[..|pieces| - 1]), pieces[|pieces| - 1])
      case (Some(before), Fixed(text)) => Some(before + text)
      case _ => None
  }

  lemma StaticTextSnoc(pieces: seq<Piece>, piece: Piece)
    ensures StaticText(pieces + [piece]) ==
            if StaticText(pieces).Some? && piece.Fixed? then Some(StaticText(pieces).value + piece.text) else None
  {
    assert (pieces + [piece])[..|pieces|] == pieces;
  }

  lemma {:induction false} StaticTextJoin(a: seq<Piece>, b: seq<Piece>)
    ensures StaticText(a + b) ==
            if StaticText(a).Some? && StaticText(b).Some? then Some(StaticText(a).value + StaticText(b).value) else None
  {
    if b == [] {
      assert a + b == a;
      if StaticText(a).Some? {
        assert StaticText(a).value + "" == StaticText(a).value;
      }
    } else {
      StaticTextJoin(a, b[..|b| - 1]);
      assert a + b == (a + b[..|b| - 1]) + [b[|b| - 1]];
      StaticTextSnoc(a + b[..|b| - 1], b[|b| - 1]);
      if StaticText(a).Some? && StaticText(b).Some? {
        var x, y, z := StaticText(a).value, StaticText(b[..|b| - 1]).value, b[|b| - 1].text;
        assert (x + y) + z == x + (y + z);
      }
    }
  }

  lemma OneFixed(text: string)
    ensures StaticText([Fixed(text)]) == Some(text)
  {
    StaticTextSnoc([], Fixed(text));
    assert [] + [Fixed(text)] == [Fixed(text)];
    assert "" + text == text;
  }

  lemma StaticTextPush(pieces: seq<Piece>, piece: Piece)
    ensures StaticText(PushPiece(pieces, piece)) == StaticText(pieces + [piece])
  {
    StaticTextSnoc(pieces, piece);
    if piece.Fixed? && pieces != [] && pieces[|pieces| - 1].Fixed? {
      var init, last := pieces[..|pieces| - 1], pieces[|pieces| - 1];
      StaticTextSnoc(init, Fixed(last.text + piece.text));
      assert pieces == init + [last];
      StaticTextSnoc(init, last);
      if StaticText(init).Some? {
        assert StaticText(init).value + (last.text + piece.text) == (StaticText(init).value + last.text) + piece.text;
      }
    }
  }

  /** Merging keeps the text. */
  lemma {:induction false} StaticTextMerged(raw: seq<Piece>)
    ensures StaticText(PushPieces([], raw)) == StaticText(raw)
  {
    if raw != [] {
      var init, last := raw[..|raw| - 1], raw[|raw| - 1];
      StaticTextMerged(init);
      StaticTextPush(PushPieces([], init), last);
      StaticTextSnoc(PushPieces([], init), last);
    }
  }

  // ----- the pieces before merging

  function RawPieces(arg: ArgSummary, known: Constants): seq<Piece>
    decreases arg, 0
  {
    match arg
    case Str(value) => [Fixed(value)]
    case Template(parts) => TemplatePieces(parts, known)
    case Concat(items) => ItemPieces(items, known)
    case Path(_) => if Constant(arg, known).Some? then [Fixed(Constant(arg, known).value)] else []
    case _ => []
  }

  /** A part that is no text stays dynamic. */
  function Inner(arg: ArgSummary, known: Constants): seq<Piece>
    decreases arg, 1
  {
    if Evaluates(arg, known) then RawPieces(arg, known) else [Dyn(arg)]
  }

  function PartPieces(part: TemplatePart, known: Constants): seq<Piece>
    decreases part
  {
    match part
    case Lit(text) => [Fixed(text)]
    case Expr(inner) => Inner(inner, known)
  }

  function TemplatePieces(parts: seq<TemplatePart>, known: Constants): seq<Piece>
    decreases parts, 0
  {
    if parts == [] then [] else TemplatePieces(parts[..|parts| - 1], known) + PartPieces(parts[|parts| - 1], known)
  }

  function ItemPieces(items: seq<ArgSummary>, known: Constants): seq<Piece>
    decreases items, 0
  {
    if items == [] then [] else ItemPieces(items[..|items| - 1], known) + Inner(items[|items| - 1], known)
  }

  // ----- the code

  /** `collect`. */
  method Collect(arg: ArgSummary, known: Constants, pieces: seq<Piece>) returns (ok: bool, more: seq<Piece>)
    ensures ok == Evaluates(arg, known)
    ensures more == if ok then PushPieces(pieces, RawPieces(arg, known)) else pieces
    decreases arg, 0
  {
    match arg {
      case Str(value) =>
        PushPiecesSnoc(pieces, [], Fixed(value));
        assert [] + [Fixed(value)] == [Fixed(value)];
        return true, PushText(pieces, value);
      case Template(parts) =>
        more := CollectParts(parts, known, pieces);
        return true, more;
      case Concat(items) =>
        var sawString, inner := CollectAll(items, known);
        if !sawString {
          return false, pieces;
        }
        more := ExtendPieces(pieces, inner);
        PushMergedPieces(pieces, ItemPieces(items, known));
        return true, more;
      case Path(_) =>
        var value := Constant(arg, known);
        if value.None? {
          return false, pieces;
        }
        PushPiecesSnoc(pieces, [], Fixed(value.value));
        assert [] + [Fixed(value.value)] == [Fixed(value.value)];
        return true, PushText(pieces, value.value);
      case _ =>
        return false, pieces;
    }
  }

  method CollectInner(arg: ArgSummary, known: Constants, pieces: seq<Piece>) returns (text: bool, more: seq<Piece>)
    ensures text == Evaluates(arg, known) && more == PushPieces(pieces, Inner(arg, known))
    decreases arg, 1
  {
    text, more := Collect(arg, known, pieces);
    if !text {
      PushPiecesSnoc(pieces, [], Dyn(arg));
      assert [] + [Dyn(arg)] == [Dyn(arg)];
      more := more + [Dyn(arg)];
    }
  }

  method CollectPart(part: TemplatePart, known: Constants, pieces: seq<Piece>) returns (more: seq<Piece>)
    ensures more == PushPieces(pieces, PartPieces(part, known))
    decreases part
  {
    match part {
      case Lit(text) =>
        PushPiecesSnoc(pieces, [], Fixed(text));
        assert [] + [Fixed(text)] == [Fixed(text)];
        more := PushText(pieces, text);
      case Expr(inner) =>
        var _, pushed := CollectInner(inner, known, pieces);
        more := pushed;
    }
  }

  method CollectParts(parts: seq<TemplatePart>, known: Constants, pieces: seq<Piece>) returns (more: seq<Piece>)
    ensures more == PushPieces(pieces, TemplatePieces(parts, known))
    decreases parts, 1
  {
    more := pieces;
    for i := 0 to |parts|
      invariant more == PushPieces(pieces, TemplatePieces(parts[..i], known))
    {
      assert parts[..i + 1][..i] == parts[..i];
      PushPiecesJoin(pieces, TemplatePieces(parts[..i], known), PartPieces(parts[i], known));
      more := CollectPart(parts[i], known, more);
    }
    assert parts[..|parts|] == parts;
  }

  method CollectAll(items: seq<ArgSummary>, known: Constants) returns (sawString: bool, inner: seq<Piece>)
    ensures sawString == AnyEvaluates(items, known) && inner == PushPieces([], ItemPieces(items, known))
    decreases items, 1
  {
    sawString, inner := false, [];
    for i := 0 to |items|
      invariant sawString == AnyEvaluates(items[..i], known) && inner == PushPieces([], ItemPieces(items[..i], known))
    {
      assert items[..i + 1][..i] == items[..i];
      PushPiecesJoin([], ItemPieces(items[..i], known), Inner(items[i], known));
      var text;
      text, inner := CollectInner(items[i], known, inner);
      sawString := sawString || text;
    }
    assert items[..|items|] == items;
  }

  method ExtendPieces(pieces: seq<Piece>, collected: seq<Piece>) returns (more: seq<Piece>)
    ensures more == PushPieces(pieces, collected)
  {
    more := pieces;
    for i := 0 to |collected|
      invariant more == PushPieces(pieces, collected[..i])
    {
      assert collected[..i + 1][..i] == collected[..i];
      more := PushPiece(more, collected[i]);
    }
    assert collected[..|collected|] == collected;
  }

  /** The static text the evaluator finds: `evaluate`, then `static_value`. */
  function EvaluatedText(arg: ArgSummary, known: Constants): Option<string>
  {
    if Evaluates(arg, known) then StaticText(RawPieces(arg, known)) else None
  }

  /** `evaluate` and `static_value`. */
  method EvaluateStatic(arg: ArgSummary, known: Constants) returns (r: Option<string>)
    ensures r == EvaluatedText(arg, known)
  {
    var ok, pieces := Collect(arg, known, []);
    if !ok {
      return None;
    }
    StaticTextMerged(RawPieces(arg, known));
    r := StaticText(pieces);
  }

  // ----- agreement

  /** Where an argument is static, the evaluator finds its value, whatever constants there are. */
  lemma {:induction false} StaticIsEvaluated(arg: ArgSummary, known: Constants)
    requires IsStatic(arg)
    ensures EvaluatedText(arg, known) == Some(StaticValue(arg))
    decreases arg, 1
  {
    match arg
    case Str(value) =>
      OneFixed(value);
    case Template(parts) =>
      StaticTemplateIsEvaluated(parts, known);
    case Concat(items) =>
      StaticItemsAreEvaluated(items, known);
      StaticIsText(arg);
    case _ =>
  }

  lemma {:induction false} StaticTemplateIsEvaluated(parts: seq<TemplatePart>, known: Constants)
    requires StaticParts(parts)
    ensures StaticText(TemplatePieces(parts, known)) == Some(DenoteTemplate(parts, NoValue()))
    decreases parts, 0
  {
    if parts != [] {
      StaticTemplateIsEvaluated(parts[..|parts| - 1], known);
      StaticPartIsEvaluated(parts[|parts| - 1], known);
      StaticTextJoin(TemplatePieces(parts[..|parts| - 1], known), PartPieces(parts[|parts| - 1], known));
    }
  }

  lemma StaticPartIsEvaluated(part: TemplatePart, known: Constants)
    requires StaticPart(part)
    ensures StaticText(PartPieces(part, known)) == Some(DenotePart(part, NoValue()))
    decreases part, 0
  {
    match part
    case Lit(text) =>
      OneFixed(text);
    case Expr(inner) =>
      StaticIsEvaluated(inner, known);
  }

  lemma {:induction false} StaticItemsAreEvaluated(items: seq<ArgSummary>, known: Constants)
    requires StaticItems(items)
    ensures StaticText(ItemPieces(items, known)) == Some(DenoteItems(items, NoValue()))
    ensures items != [] ==> AnyEvaluates(items, known)
    decreases items, 0
  {
    if items != [] {
      StaticItemsAreEvaluated(items[..|items| - 1], known);
      StaticIsEvaluated(items[|items| - 1], known);
      StaticTextJoin(ItemPieces(items[..|items| - 1], known), Inner(items[|items| - 1], known));
    }
  }

  /** Without constants of the module. */
  function NoConstants(): Constants { _ => None }

  /** Without constants, what the evaluator finds static is static. */
  lemma {:induction false} EvaluatedIsStatic(arg: ArgSummary)
    requires EvaluatedText(arg, NoConstants()).Some?
    ensures IsStatic(arg)
    decreases arg, 1
  {
    match arg
    case Template(parts) =>
      EvaluatedTemplateIsStatic(parts);
    case Concat(items) =>
      EvaluatedItemsAreStatic(items);
    case _ =>
  }

  lemma DynamicHasNoText(arg: ArgSummary)
    ensures StaticText([Dyn(arg)]) == None
  {
    StaticTextSnoc([], Dyn(arg));
    assert [] + [Dyn(arg)] == [Dyn(arg)];
  }

  lemma {:induction false} EvaluatedTemplateIsStatic(parts: seq<TemplatePart>)
    requires StaticText(TemplatePieces(parts, NoConstants())).Some?
    ensures StaticParts(parts)
    decreases parts, 0
  {
    if parts != [] {
      StaticTextJoin(TemplatePieces(parts[..|parts| - 1], NoConstants()),
                     PartPieces(parts[|parts| - 1], NoConstants()));
      EvaluatedTemplateIsStatic(parts[..|parts| - 1]);
      EvaluatedPartIsStatic(parts[|parts| - 1]);
    }
  }

  lemma EvaluatedPartIsStatic(part: TemplatePart)
    requires StaticText(PartPieces(part, NoConstants())).Some?
    ensures StaticPart(part)
    decreases part, 0
  {
    if part.Expr? {
      EvaluatedInnerIsStatic(part.inner);
    }
  }

  lemma EvaluatedInnerIsStatic(arg: ArgSummary)
    requires StaticText(Inner(arg, NoConstants())).Some?
    ensures IsStatic(arg)
    decreases arg, 2
  {
    DynamicHasNoText(arg);
    EvaluatedIsStatic(arg);
  }

  lemma {:induction false} EvaluatedItemsAreStatic(items: seq<ArgSummary>)
    requires StaticText(ItemPieces(items, NoConstants())).Some?
    ensures StaticItems(items)
    decreases items, 0
  {
    if items != [] {
      StaticTextJoin(ItemPieces(items[..|items| - 1], NoConstants()), Inner(items[|items| - 1], NoConstants()));
      EvaluatedItemsAreStatic(items[..|items| - 1]);
      EvaluatedInnerIsStatic(items[|items| - 1]);
    }
  }

  /** The two implementations agree: always where the first finds text, and exactly there when nothing is resolved. */
  lemma EvaluatorsAgree(arg: ArgSummary, known: Constants)
    ensures IsStatic(arg) ==> EvaluatedText(arg, known) == Some(StaticValue(arg))
    ensures EvaluatedText(arg, NoConstants()) == if IsStatic(arg) then Some(StaticValue(arg)) else None
  {
    if IsStatic(arg) {
      StaticIsEvaluated(arg, known);
      StaticIsEvaluated(arg, NoConstants());
    }
    if EvaluatedText(arg, NoConstants()).Some? {
      EvaluatedIsStatic(arg);
    }
  }
}

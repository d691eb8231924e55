/**
 String arguments flattened into literal text and dynamic parts (crates/atlas-core/src/args.rs). Whatever the
 dynamic parts stand for, the flattened parts spell the argument's value, and an argument is static exactly when
 nothing dynamic is in it.
 */
module ArgStrings {
  import opened Wrappers

  /** `Other` stands for every summary that is not modelled by its own constructor. */
  datatype ArgSummary =
    | Str(value: string)
    | Template(parts: seq<TemplatePart>)
    | Concat(items: seq<ArgSummary>)
    | Path(segments: seq<string>)
    | Object(entries: seq<ObjectEntry>)
    | Other(text: string)

  datatype ObjectEntry = ObjectEntry(key: ObjectKey, value: ArgSummary)

  datatype ObjectKey = IdentKey(name: string) | StrKey(name: string) | Computed(name: string) | Spread

  datatype TemplatePart = Lit(text: string) | Expr(inner: ArgSummary)

  // ----- what an argument means

  /** The argument is certainly text: a concatenation is, when one of its items is. */
  predicate IsText(arg: ArgSummary)
    decreases arg
  {
    arg.Str? || arg.Template? || (arg.Concat? && AnyText(arg.items))
  }

  predicate AnyText(items: seq<ArgSummary>)
    decreases items
  {
    items != [] && (AnyText(items[..|items| - 1]) || IsText(items[|items| - 1]))
  }

  /** The value of an argument, when `env` gives the value of what is not text. */
  function Denote(arg: ArgSummary, env: ArgSummary -> string): string
    decreases arg
  {
    match arg
    case Str(value) => value
    case Template(parts) => DenoteTemplate(parts, env)
    case Concat(items) => if AnyText(items) then DenoteItems(items, env) else env(arg)
    case _ => env(arg)
  }

  function DenoteTemplate(parts: seq<TemplatePart>, env: ArgSummary -> string): string
    decreases parts
  {
    if parts == [] then ""
    else DenoteTemplate(parts[..|parts| - 1], env) + DenotePart(parts[|parts| - 1], env)
  }

  function DenotePart(part: TemplatePart, env: ArgSummary -> string): string
    decreases part
  {
    match part
    case Lit(text) => text
    case Expr(inner) => Denote(inner, env)
  }

  function DenoteItems(items: seq<ArgSummary>, env: ArgSummary -> string): string
    decreases items
  {
    if items == [] then "" else DenoteItems(items[..|items| - 1], env) + Denote(items[|items| - 1], env)
  }

  /** Nothing in the argument is dynamic. */
  predicate IsStatic(arg: ArgSummary)
    decreases arg
  {
    match arg
    case Str(_) => true
    case Template(parts) => StaticParts(parts)
    case Concat(items) => items != [] && StaticItems(items)
    case _ => false
  }

  predicate StaticParts(parts: seq<TemplatePart>)
    decreases parts
  {
    parts == [] || (StaticParts(parts[..|parts| - 1]) && StaticPart(parts[|parts| - 1]))
  }

  predicate StaticPart(part: TemplatePart)
    decreases part
  {
    part.Expr? ==> IsStatic(part.inner)
  }

  predicate StaticItems(items: seq<ArgSummary>)
    decreases items
  {
    items == [] || (StaticItems(items[..|items| - 1]) && IsStatic(items[|items| - 1]))
  }

  /** Any valuation will do for an argument with nothing dynamic in it. */
  function NoValue(): ArgSummary -> string { _ => "" }

  function StaticValue(arg: ArgSummary): string { Denote(arg, NoValue()) }

  lemma {:induction false} StaticIsText(arg: ArgSummary)
    requires IsStatic(arg)
    ensures IsText(arg)
    decreases arg
  {
    if arg.Concat? {
      StaticIsText(arg.items[|arg.items| - 1]);
    }
  }

  /** A static argument has one value. */
  lemma {:induction false} StaticHasOneValue(arg: ArgSummary, env: ArgSummary -> string)
    requires IsStatic(arg)
    ensures Denote(arg, env) == StaticValue(arg)
    decreases arg
  {
    match arg
    case Template(parts) => StaticTemplateHasOneValue(parts, env);
    case Concat(items) =>
      StaticIsText(arg);
      StaticItemsHaveOneValue(items, env);
    case _ =>
  }

  lemma {:induction false} StaticTemplateHasOneValue(parts: seq<TemplatePart>, env: ArgSummary -> string)
    requires StaticParts(parts)
    ensures DenoteTemplate(parts, env) == DenoteTemplate(parts, NoValue())
    decreases parts
  {
    if parts != [] {
      StaticTemplateHasOneValue(parts[..|parts| - 1], env);
      StaticPartHasOneValue(parts[|parts| - 1], env);
    }
  }

  lemma StaticPartHasOneValue(part: TemplatePart, env: ArgSummary -> string)
    requires StaticPart(part)
    ensures DenotePart(part, env) == DenotePart(part, NoValue())
    decreases part
  {
    if part.Expr? {
      StaticHasOneValue(part.inner, env);
    }
  }

  lemma {:induction false} StaticItemsHaveOneValue(items: seq<ArgSummary>, env: ArgSummary -> string)
    requires StaticItems(items)
    ensures DenoteItems(items, env) == DenoteItems(items, NoValue())
    decreases items
  {
    if items != [] {
      StaticItemsHaveOneValue(items[..|items| - 1], env);
      StaticHasOneValue(items[|items| - 1], env);
    }
  }

  // ----- merged parts

  /** `push_literal`. */
  function PushLiteral(parts: seq<TemplatePart>, value: string): seq<TemplatePart>
  {
    if value == "" then parts
    else if parts != [] && parts[|parts| - 1].Lit? then
      parts[..|parts| - 1] + [Lit(parts[|parts| - 1].text + value)]
    else parts + [Lit(value)]
  }

  function Push(parts: seq<TemplatePart>, part: TemplatePart): seq<TemplatePart>
  {
    if part.Lit? then PushLiteral(parts, part.text) else parts + [part]
  }

  function PushAll(parts: seq<TemplatePart>, more: seq<TemplatePart>): seq<TemplatePart>
  {
    if more == [] then parts else Push(PushAll(parts, more[..|more| - 1]), more[|more| - 1])
  }

  /** No literal is empty, and no two stand side by side. */
  predicate Normal(parts: seq<TemplatePart>)
  {
    && (forall i :: 0 <= i < |parts| && parts[i].Lit? ==> parts[i].text != "")
    && (forall i, j :: 0 <= i < |parts| - 1 && j == i + 1 ==> !(parts[i].Lit? && parts[j].Lit?))
  }

  lemma PushNormal(parts: seq<TemplatePart>, part: TemplatePart)
    requires Normal(parts)
    ensures Normal(Push(parts, part))
  {
  }

  lemma {:induction false} PushAllNormal(parts: seq<TemplatePart>, more: seq<TemplatePart>)
    requires Normal(parts)
    ensures Normal(PushAll(parts, more))
  {
    if more != [] {
      PushAllNormal(parts, more[..|more| - 1]);
      PushNormal(PushAll(parts, more[..|more| - 1]), more[|more| - 1]);
    }
  }

  lemma PushAllSnoc(parts: seq<TemplatePart>, more: seq<TemplatePart>, part: TemplatePart)
    ensures PushAll(parts, more + [part]) == Push(PushAll(parts, more), part)
  {
    assert (more + [part])[..|more|] == more;
  }

  lemma {:induction false} PushAllJoin(parts: seq<TemplatePart>, a: seq<TemplatePart>, b: seq<TemplatePart>)
    ensures PushAll(parts, a + b) == PushAll(PushAll(parts, a), b)
  {
    if b == [] {
      assert a + b == a;
    } else {
      PushAllJoin(parts, a, b[..|b| - 1]);
      assert a + b == (a + b[..|b| - 1]) + [b[|b| - 1]];
      PushAllSnoc(parts, a + b[..|b| - 1], b[|b| - 1]);
    }
  }

  /** Merging first and pushing then is pushing one by one. */
  lemma PushMerged(parts: seq<TemplatePart>, merged: seq<TemplatePart>, part: TemplatePart)
    requires Normal(merged)
    ensures PushAll(parts, Push(merged, part)) == Push(PushAll(parts, merged), part)
  {
    if part.Expr? || (part.text != "" && (merged == [] || !merged[|merged| - 1].Lit?)) {
      PushAllSnoc(parts, merged, part);
    } else if part.text != "" {
      var init, last := merged[..|merged| - 1], merged[|merged| - 1];
      PushAllSnoc(parts, init, Lit(last.text + part.text));
      PushTwice(PushAll(parts, init), last.text, part.text);
    }
  }

  lemma PushTwice(parts: seq<TemplatePart>, a: string, b: string)
    requires a != "" && b != ""
    ensures PushLiteral(PushLiteral(parts, a), b) == PushLiteral(parts, a + b)
  {
    if parts != [] && parts[|parts| - 1].Lit? {
      assert (parts[|parts| - 1].text + a) + b == parts[|parts| - 1].text + (a + b);
    }
  }

  lemma {:induction false} PushMergedAll(parts: seq<TemplatePart>, raw: seq<TemplatePart>)
    ensures PushAll(parts, PushAll([], raw)) == PushAll(parts, raw)
  {
    if raw != [] {
      var init, last := raw[..|raw| - 1], raw[|raw| - 1];
      PushMergedAll(parts, init);
      PushAllNormal([], init);
      PushMerged(parts, PushAll([], init), last);
    }
  }

  /** The text the parts spell. */
  function Meaning(parts: seq<TemplatePart>, env: ArgSummary -> string): string { DenoteTemplate(parts, env) }

  lemma MeaningSnoc(parts: seq<TemplatePart>, part: TemplatePart, env: ArgSummary -> string)
    ensures Meaning(parts + [part], env) == Meaning(parts, env) + DenotePart(part, env)
  {
    assert (parts + [part])[..|parts|] == parts;
  }

  lemma MeaningOne(part: TemplatePart, env: ArgSummary -> string)
    ensures Meaning([part], env) == DenotePart(part, env)
  {
    MeaningSnoc([], part, env);
    assert [] + [part] == [part];
  }

  lemma PushMeaning(parts: seq<TemplatePart>, part: TemplatePart, env: ArgSummary -> string)
    ensures Meaning(Push(parts, part), env) == Meaning(parts, env) + DenotePart(part, env)
  {
    if part.Lit? && part.text == "" {
      assert Push(parts, part) == parts;
      assert Meaning(parts, env) + "" == Meaning(parts, env);
    } else if part.Lit? && parts != [] && parts[|parts| - 1].Lit? {
      var init, last := parts[..|parts| - 1], parts[|parts| - 1];
      MeaningSnoc(init, Lit(last.text + part.text), env);
      var merged := Lit(last.text + part.text);
      assert Push(parts, part) == init + [merged];
      assert DenotePart(merged, env) == last.text + part.text;
      assert Meaning(parts, env) == Meaning(init, env) + DenotePart(last, env);
      assert Meaning(init, env) + (last.text + part.text) == (Meaning(init, env) + last.text) + part.text;
    } else {
      MeaningSnoc(parts, part, env);
    }
  }

  lemma {:induction false} PushAllMeaning(parts: seq<TemplatePart>, more: seq<TemplatePart>, env: ArgSummary -> string)
    ensures Meaning(PushAll(parts, more), env) == Meaning(parts, env) + Meaning(more, env)
  {
    if more != [] {
      PushAllMeaning(parts, more[..|more| - 1], env);
      PushMeaning(PushAll(parts, more[..|more| - 1]), more[|more| - 1], env);
    }
  }

  // ----- the parts before merging

  /** What is pushed for a text argument, in order. */
  function Raw(arg: ArgSummary): seq<TemplatePart>
    decreases arg, 0
  {
    match arg
    case Str(value) => [Lit(value)]
    case Template(parts) => RawTemplate(parts)
    case Concat(items) => RawItems(items)
    case _ => []
  }

  function RawPart(part: TemplatePart): TemplatePart
  {
    if part.Expr? && IsStatic(part.inner) then Lit(StaticValue(part.inner)) else part
  }

  function RawTemplate(parts: seq<TemplatePart>): seq<TemplatePart>
  {
    if parts == [] then [] else RawTemplate(parts[..|parts| - 1]) + [RawPart(parts[|parts| - 1])]
  }

  function RawItem(item: ArgSummary): seq<TemplatePart>
    decreases item, 1
  {
    if IsText(item) then Raw(item) else [Expr(item)]
  }

  function RawItems(items: seq<ArgSummary>): seq<TemplatePart>
    decreases items, 0
  {
    if items == [] then [] else RawItems(items[..|items| - 1]) + RawItem(items[|items| - 1])
  }

  lemma {:induction false} MeaningJoin(a: seq<TemplatePart>, b: seq<TemplatePart>, env: ArgSummary -> string)
    ensures Meaning(a + b, env) == Meaning(a, env) + Meaning(b, env)
  {
    if b == [] {
      assert a + b == a;
    } else {
      MeaningJoin(a, b[..|b| - 1], env);
      assert a + b == (a + b[..|b| - 1]) + [b[|b| - 1]];
      MeaningSnoc(a + b[..|b| - 1], b[|b| - 1], env);
    }
  }

  lemma {:induction false} RawMeans(arg: ArgSummary, env: ArgSummary -> string)
    requires IsText(arg)
    ensures Meaning(Raw(arg), env) == Denote(arg, env)
    decreases arg
  {
    match arg
    case Str(value) =>
      MeaningOne(Lit(value), env);
    case Template(parts) =>
      RawTemplateMeans(parts, env);
    case Concat(items) =>
      RawItemsMean(items, env);
    case _ =>
  }

  lemma {:induction false} RawTemplateMeans(parts: seq<TemplatePart>, env: ArgSummary -> string)
    ensures Meaning(RawTemplate(parts), env) == DenoteTemplate(parts, env)
  {
    if parts != [] {
      var last := parts[|parts| - 1];
      RawTemplateMeans(parts[..|parts| - 1], env);
      MeaningSnoc(RawTemplate(parts[..|parts| - 1]), RawPart(last), env);
      if last.Expr? && IsStatic(last.inner) {
        StaticHasOneValue(last.inner, env);
      }
    }
  }

  lemma {:induction false} RawItemsMean(items: seq<ArgSummary>, env: ArgSummary -> string)
    ensures Meaning(RawItems(items), env) == DenoteItems(items, env)
    decreases items
  {
    if items != [] {
      var last := items[|items| - 1];
      RawItemsMean(items[..|items| - 1], env);
      MeaningJoin(RawItems(items[..|items| - 1]), RawItem(last), env);
      if IsText(last) {
        RawMeans(last, env);
      } else {
        MeaningOne(Expr(last), env);
      }
    }
  }

  // ----- the code

  /** `string_parts`: nothing for an argument that may not be text. */
  function StringParts(arg: ArgSummary): Option<seq<TemplatePart>>
  {
    if IsText(arg) then Some(PushAll([], Raw(arg))) else None
  }

  /** `collect_string_parts`. */
  method CollectStringParts(arg: ArgSummary, parts: seq<TemplatePart>) returns (ok: bool, more: seq<TemplatePart>)
    ensures ok == IsText(arg)
    ensures more == if ok then PushAll(parts, Raw(arg)) else parts
    decreases arg, 0
  {
    match arg {
      case Str(value) =>
        PushAllSnoc(parts, [], Lit(value));
        assert [] + [Lit(value)] == [Lit(value)];
        return true, PushLiteral(parts, value);
      case Template(template) =>
        more := CollectTemplate(template, parts);
        return true, more;
      case Concat(items) =>
        var sawString, collected := CollectItems(items);
        if !sawString {
          return false, parts;
        }
        more := Extend(parts, collected);
        PushMergedAll(parts, RawItems(items));
        return true, more;
      case _ =>
        return false, parts;
    }
  }

  method CollectTemplate(template: seq<TemplatePart>, parts: seq<TemplatePart>) returns (more: seq<TemplatePart>)
    ensures more == PushAll(parts, RawTemplate(template))
    decreases template, 1
  {
    more := parts;
    for i := 0 to |template|
      invariant more == PushAll(parts, RawTemplate(template[..i]))
    {
      assert template[..i + 1][..i] == template[..i];
      PushAllSnoc(parts, RawTemplate(template[..i]), RawPart(template[i]));
      more := CollectPart(template[i], more);
    }
    assert template[..|template|] == template;
  }

  method CollectPart(part: TemplatePart, parts: seq<TemplatePart>) returns (more: seq<TemplatePart>)
    ensures more == Push(parts, RawPart(part))
    decreases part
  {
    match part {
      case Lit(text) =>
        more := PushLiteral(parts, text);
      case Expr(inner) =>
        var value := AsStaticStr(inner);
        if value.Some? {
          more := PushLiteral(parts, value.value);
        } else {
          more := parts + [part];
        }
    }
  }

  method Extend(parts: seq<TemplatePart>, collected: seq<TemplatePart>) returns (more: seq<TemplatePart>)
    ensures more == PushAll(parts, collected)
  {
    more := parts;
    for i := 0 to |collected|
      invariant more == PushAll(parts, collected[..i])
    {
      assert collected[..i + 1][..i] == collected[..i];
      more := Push(more, collected[i]);
    }
    assert collected[..|collected|] == collected;
  }

  /** The items of a concatenation, each as text or as a dynamic part. */
  method CollectItems(items: seq<ArgSummary>) returns (sawString: bool, collected: seq<TemplatePart>)
    ensures sawString == AnyText(items) && collected == PushAll([], RawItems(items))
    decreases items, 1
  {
    sawString, collected := false, [];
    for i := 0 to |items|
      invariant sawString == AnyText(items[..i]) && collected == PushAll([], RawItems(items[..i]))
    {
      assert items[..i + 1][..i] == items[..i];
      PushAllJoin([], RawItems(items[..i]), RawItem(items[i]));
      PushAllSnoc(collected, [], Expr(items[i]));
      assert [] + [Expr(items[i])] == [Expr(items[i])];
      var text, more := CollectStringParts(items[i], collected);
      if text {
        sawString, collected := true, more;
      } else {
        collected := collected + [Expr(items[i])];
      }
    }
    assert items[..|items|] == items;
  }

  /** `as_static_str`: the value of exactly the static arguments. */
  method AsStaticStr(arg: ArgSummary) returns (r: Option<string>)
    ensures r == if IsStatic(arg) then Some(StaticValue(arg)) else None
    decreases arg, 1
  {
    if arg.Str? {
      return Some(arg.value);
    }
    var ok, parts := CollectStringParts(arg, []);
    StaticWhenLiteral(arg);
    if !ok {
      return None;
    }
    if parts == [] {
      r := Some("");
    } else if |parts| == 1 && parts[0].Lit? {
      r := Some(parts[0].text);
    } else {
      r := None;
    }
  }

  predicate AllLiteral(parts: seq<TemplatePart>) { forall i :: 0 <= i < |parts| ==> parts[i].Lit? }

  lemma PushLiteralOnly(parts: seq<TemplatePart>, part: TemplatePart)
    ensures AllLiteral(Push(parts, part)) <==> AllLiteral(parts) && part.Lit?
  {
    var pushed := Push(parts, part);
    if part.Expr? {
      assert pushed[|parts|] == part;
    } else {
      var n := |parts| - 1;
      assert forall i :: 0 <= i < n ==> pushed[i] == parts[i];
      if n >= 0 && parts[n].Expr? {
        assert pushed[n] == parts[n];
      }
    }
  }

  lemma {:induction false} PushAllLiteral(more: seq<TemplatePart>)
    ensures AllLiteral(PushAll([], more)) <==> AllLiteral(more)
  {
    if more != [] {
      var init := more[..|more| - 1];
      PushAllLiteral(init);
      PushLiteralOnly(PushAll([], init), more[|more| - 1]);
      assert more == init + [more[|more| - 1]];
    }
  }

  lemma {:induction false} RawLiteral(arg: ArgSummary)
    requires IsText(arg)
    ensures AllLiteral(Raw(arg)) <==> IsStatic(arg)
    decreases arg
  {
    match arg
    case Str(value) =>
    case Template(parts) =>
      RawTemplateLiteral(parts);
    case Concat(items) =>
      RawItemsLiteral(items);
    case _ =>
  }

  lemma {:induction false} RawTemplateLiteral(parts: seq<TemplatePart>)
    ensures AllLiteral(RawTemplate(parts)) <==> StaticParts(parts)
  {
    if parts != [] {
      var init := RawTemplate(parts[..|parts| - 1]);
      RawTemplateLiteral(parts[..|parts| - 1]);
      AllLiteralJoin(init, [RawPart(parts[|parts| - 1])]);
      assert [RawPart(parts[|parts| - 1])][0].Lit? <==> StaticPart(parts[|parts| - 1]);
    }
  }

  lemma AllLiteralJoin(a: seq<TemplatePart>, b: seq<TemplatePart>)
    ensures AllLiteral(a + b) <==> AllLiteral(a) && AllLiteral(b)
  {
    if AllLiteral(a + b) {
      forall i | 0 <= i < |a| ensures a[i].Lit? {
        assert (a + b)[i] == a[i];
      }
      forall i | 0 <= i < |b| ensures b[i].Lit? {
        assert (a + b)[|a| + i] == b[i];
      }
    }
  }

  lemma {:induction false} RawItemsLiteral(items: seq<ArgSummary>)
    ensures AllLiteral(RawItems(items)) <==> StaticItems(items)
    decreases items
  {
    if items != [] {
      var last := items[|items| - 1];
      RawItemsLiteral(items[..|items| - 1]);
      AllLiteralJoin(RawItems(items[..|items| - 1]), RawItem(last));
      if IsText(last) {
        RawLiteral(last);
      } else {
        assert [Expr(last)][0].Expr?;
        NotTextNotStatic(last);
      }
    }
  }

  lemma NotTextNotStatic(arg: ArgSummary)
    requires !IsText(arg)
    ensures !IsStatic(arg)
  {
    if IsStatic(arg) {
      StaticIsText(arg);
    }
  }

  /** The merged parts are at most one literal exactly when the argument is static, and then spell its value. */
  lemma StaticWhenLiteral(arg: ArgSummary)
    ensures IsStatic(arg) ==> IsText(arg)
    ensures IsText(arg) ==>
              var parts := PushAll([], Raw(arg));
              && (IsStatic(arg) <==> parts == [] || (|parts| == 1 && parts[0].Lit?))
              && (parts == [] ==> StaticValue(arg) == "")
              && (|parts| == 1 && parts[0].Lit? ==> StaticValue(arg) == parts[0].text)
  {
    if IsText(arg) {
      var parts := PushAll([], Raw(arg));
      PushAllLiteral(Raw(arg));
      RawLiteral(arg);
      PushAllNormal([], Raw(arg));
      if |parts| > 1 && AllLiteral(parts) {
        assert parts[0].Lit? && parts[1].Lit?;
      }
      PushAllMeaning([], Raw(arg), NoValue());
      RawMeans(arg, NoValue());
      if |parts| == 1 {
        MeaningOne(parts[0], NoValue());
        assert parts == [parts[0]];
      }
    } else {
      NotTextNotStatic(arg);
    }
  }

  /** The flattened parts: no empty and no adjacent literals, and under every valuation they spell the argument. */
  lemma PartsSpellTheArgument(arg: ArgSummary, env: ArgSummary -> string)
    requires StringParts(arg).Some?
    ensures Normal(StringParts(arg).value) && Meaning(StringParts(arg).value, env) == Denote(arg, env)
  {
    PushAllNormal([], Raw(arg));
    PushAllMeaning([], Raw(arg), env);
    RawMeans(arg, env);
  }

  /** `static_prefix`. */
  function StaticPrefix(arg: ArgSummary): Option<string>
  {
    match StringParts(arg)
    case None => None
    case Some(parts) => Some(if parts != [] && parts[0].Lit? then parts[0].text else "")
  }

  /** Whatever the dynamic parts stand for, the value begins with the static prefix. */
  lemma PrefixBeginsEveryValue(arg: ArgSummary, env: ArgSummary -> string)
    requires StaticPrefix(arg).Some?
    ensures StaticPrefix(arg).value <= Denote(arg, env)
  {
    PartsSpellTheArgument(arg, env);
    var parts := StringParts(arg).value;
    if parts != [] && parts[0].Lit? {
      assert parts == [parts[0]] + parts[1..];
      MeaningJoin([parts[0]], parts[1..], env);
      MeaningOne(parts[0], env);
    }
  }
}

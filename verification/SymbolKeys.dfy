/** The keys of one file's symbols (crates/atlas-core/src/facts.rs): equal names are told apart by a counter. */
module SymbolKeys {
  import opened Wrappers
  import opened Ids
  import opened Kinds
  import opened Keys

  datatype SymbolFact = SymbolFact(moduleSuffix: seq<string>, itemPath: seq<string>, kind: EntityKind)

  datatype KeyContext = KeyContext(family: LanguageFamily, repo: RepoName, package: string, modulePath: seq<string>)

  /** What two symbols must share to need the counter. */
  datatype Name = Name(modulePath: seq<string>, itemPath: seq<string>, kind: EntityKind)

  function NameOf(symbol: SymbolFact, context: KeyContext): Name
  {
    Name(context.modulePath + symbol.moduleSuffix, symbol.itemPath, symbol.kind)
  }

  function KeyOf(name: Name, context: KeyContext, disambiguator: u32): SymbolKey
  {
    SymbolKey(context.family, context.repo, context.package, name.modulePath, name.itemPath, name.kind, disambiguator)
  }

  /** How many of the symbols have the name. */
  function Occurrences(symbols: seq<SymbolFact>, context: KeyContext, name: Name): nat
  {
    if symbols == [] then 0
    else
      var last := if NameOf(symbols[|symbols| - 1], context) == name then 1 else 0;
      Occurrences(symbols[..|symbols| - 1], context, name) + last
  }

  lemma {:induction false} OccurrencesGrow(symbols: seq<SymbolFact>, context: KeyContext, name: Name, i: nat)
    requires i < |symbols| && NameOf(symbols[i], context) == name
    ensures Occurrences(symbols[..i], context, name) < Occurrences(symbols, context, name) <= |symbols|
    decreases |symbols|
  {
    var init := symbols[..|symbols| - 1];
    OccurrencesBound(init, context, name);
    if i < |symbols| - 1 {
      OccurrencesGrow(init, context, name, i);
      assert init[..i] == symbols[..i];
    }
  }

  lemma {:induction false} OccurrencesBound(symbols: seq<SymbolFact>, context: KeyContext, name: Name)
    ensures Occurrences(symbols, context, name) <= |symbols|
  {
    if symbols != [] {
      OccurrencesBound(symbols[..|symbols| - 1], context, name);
    }
  }

  /** Each symbol gets its own name and, as disambiguator, how many symbols before it have the same name. */
  ghost predicate Keyed(symbols: seq<SymbolFact>, context: KeyContext, keys: seq<SymbolKey>)
  {
    && |keys| == |symbols| <= U32_MAX
    && forall i :: 0 <= i < |symbols| ==>
         var name := NameOf(symbols[i], context);
         var n := Occurrences(symbols[..i], context, name);
         n <= U32_MAX && keys[i] == KeyOf(name, context, n)
  }

  /** The map holds how often each name has been seen. */
  ghost predicate Counted(occurrences: map<Name, u32>, symbols: seq<SymbolFact>, context: KeyContext)
  {
    forall name :: (if name in occurrences then occurrences[name] else 0) == Occurrences(symbols, context, name)
  }

  lemma CountedSnoc(occurrences: map<Name, u32>, symbols: seq<SymbolFact>, context: KeyContext, i: nat, seen: nat)
    requires i < |symbols| && Counted(occurrences, symbols[..i], context)
    requires seen == Occurrences(symbols[..i], context, NameOf(symbols[i], context)) < U32_MAX
    ensures Counted(occurrences[NameOf(symbols[i], context) := seen + 1], symbols[..i + 1], context)
  {
    assert symbols[..i + 1][..i] == symbols[..i];
  }

  /** Every one of the symbols gives a key that can be built. */
  ghost predicate Buildable(symbols: seq<SymbolFact>, context: KeyContext)
  {
    forall i :: 0 <= i < |symbols| ==> Constructible(KeyOf(NameOf(symbols[i], context), context, 0))
  }

  /** `FileFacts::symbol_keys`; the number of symbols fits the `u32` of their local ids. */
  method SymbolKeysOf(symbols: seq<SymbolFact>, context: KeyContext) returns (r: Result<seq<SymbolKey>, CoreError>)
    requires |symbols| <= U32_MAX
    ensures r.Ok? ==> Keyed(symbols, context, r.value)
    ensures r.Ok? <==> Buildable(symbols, context)
  {
    var occurrences: map<Name, u32> := map[];
    var keys: seq<SymbolKey> := [];
    for i := 0 to |symbols|
      invariant Keyed(symbols[..i], context, keys)
      invariant Counted(occurrences, symbols[..i], context)
      invariant Buildable(symbols[..i], context)
    {
      var name := NameOf(symbols[i], context);
      var seen := if name in occurrences then occurrences[name] else 0;
      OccurrencesBound(symbols[..i], context, name);
      CountedSnoc(occurrences, symbols, context, i, seen);
      occurrences := occurrences[name := seen + 1];
      var key := NewSymbolKey(KeyOf(name, context, seen));
      if key.Err? {
        assert !Constructible(KeyOf(NameOf(symbols[i], context), context, 0));
        return Err(key.error);
      }
      KeyedSnoc(symbols, context, keys, i, seen);
      keys := keys + [key.value];
    }
    assert symbols[..|symbols|] == symbols;
    return Ok(keys);
  }

  lemma KeyedSnoc(symbols: seq<SymbolFact>, context: KeyContext, keys: seq<SymbolKey>, i: nat, seen: u32)
    requires i < |symbols| <= U32_MAX && Keyed(symbols[..i], context, keys)
    requires seen == Occurrences(symbols[..i], context, NameOf(symbols[i], context))
    ensures Keyed(symbols[..i + 1], context, keys + [KeyOf(NameOf(symbols[i], context), context, seen)])
  {
    var longer, keys' := symbols[..i + 1], keys + [KeyOf(NameOf(symbols[i], context), context, seen)];
    forall k | 0 <= k < |longer|
      ensures var name := NameOf(longer[k], context);
              var n := Occurrences(longer[..k], context, name);
              n <= U32_MAX && keys'[k] == KeyOf(name, context, n)
    {
      assert longer[..k] == symbols[..i][..k];
      assert symbols[..i][..i] == symbols[..i];
      if k < i {
        assert longer[k] == symbols[..i][k] && keys'[k] == keys[k];
      }
    }
  }

  /** The keys of one file are pairwise distinct. */
  lemma KeysAreDistinct(symbols: seq<SymbolFact>, context: KeyContext, keys: seq<SymbolKey>, i: nat, j: nat)
    requires Keyed(symbols, context, keys) && i < j < |keys|
    ensures keys[i] != keys[j]
  {
    assert symbols[..j][..i] == symbols[..i];
    if keys[i] == keys[j] {
      var name := NameOf(symbols[i], context);
      assert name == NameOf(symbols[j], context);
      OccurrencesGrow(symbols[..j], context, name, i);
    }
  }

  /** Two symbols whose keys only the making of their kinds tells apart: one built in, one custom, of one name. */
  predicate Twins(a: SymbolFact, b: SymbolFact)
  {
    a.moduleSuffix == b.moduleSuffix && a.itemPath == b.itemPath && a.kind.name == b.kind.name && a.kind != b.kind
  }

  ghost predicate PrintApart(keys: seq<SymbolKey>)
  {
    forall i, j :: 0 <= i < j < |keys| ==> PrintSymbol(keys[i]) != PrintSymbol(keys[j])
  }

  ghost predicate AllConstructible(keys: seq<SymbolKey>)
  {
    forall i :: 0 <= i < |keys| ==> Constructible(keys[i])
  }

  lemma {:induction false} FirstOf(symbols: seq<SymbolFact>, context: KeyContext, name: Name, n: nat)
    returns (first: nat)
    requires n <= |symbols| && Occurrences(symbols[..n], context, name) > 0
    ensures first < n && NameOf(symbols[first], context) == name && Occurrences(symbols[..first], context, name) == 0
  {
    assert symbols[..n][..n - 1] == symbols[..n - 1];
    if Occurrences(symbols[..n - 1], context, name) > 0 {
      first := FirstOf(symbols, context, name, n - 1);
    } else {
      first := n - 1;
    }
  }

  /** The first symbol of a name has no disambiguator. */
  lemma FirstKey(symbols: seq<SymbolFact>, context: KeyContext, keys: seq<SymbolKey>, i: nat) returns (first: nat)
    requires Keyed(symbols, context, keys) && i < |symbols|
    ensures first <= i && keys[first] == KeyOf(NameOf(symbols[i], context), context, 0)
  {
    var name := NameOf(symbols[i], context);
    assert symbols[..i + 1][..i] == symbols[..i];
    first := FirstOf(symbols, context, name, i + 1);
  }

  lemma TwinsCollide(symbols: seq<SymbolFact>, context: KeyContext, keys: seq<SymbolKey>, i: nat, j: nat)
    requires Keyed(symbols, context, keys) && AllConstructible(keys) && i < |symbols| && j < |symbols|
             && Twins(symbols[i], symbols[j])
    ensures !PrintApart(keys)
  {
    var a := FirstKey(symbols, context, keys, i);
    var b := FirstKey(symbols, context, keys, j);
    SymbolPrintsApart(keys[a], keys[b]);
    assert a < b || b < a;
    assert PrintSymbol(keys[a]) == PrintSymbol(keys[b]);
  }

  lemma AlikeAreTwins(symbols: seq<SymbolFact>, context: KeyContext, keys: seq<SymbolKey>, i: nat, j: nat)
    requires Keyed(symbols, context, keys) && AllConstructible(keys) && i < j < |keys|
             && PrintSymbol(keys[i]) == PrintSymbol(keys[j])
    ensures Twins(symbols[i], symbols[j])
  {
    KeysAreDistinct(symbols, context, keys, i, j);
    SymbolPrintsApart(keys[i], keys[j]);
    assert NameOf(symbols[i], context).modulePath[|context.modulePath|..] == symbols[i].moduleSuffix;
    assert NameOf(symbols[j], context).modulePath[|context.modulePath|..] == symbols[j].moduleSuffix;
  }

  /** The keys of a file print to pairwise distinct texts exactly when no two of its symbols are twins. */
  lemma KeysPrintApart(symbols: seq<SymbolFact>, context: KeyContext, keys: seq<SymbolKey>)
    requires Keyed(symbols, context, keys) && AllConstructible(keys)
    ensures PrintApart(keys) <==>
              forall i, j :: 0 <= i < |symbols| && 0 <= j < |symbols| ==> !Twins(symbols[i], symbols[j])
  {
    if i, j :| 0 <= i < |symbols| && 0 <= j < |symbols| && Twins(symbols[i], symbols[j]) {
      TwinsCollide(symbols, context, keys, i, j);
    } else if !PrintApart(keys) {
      var i, j :| 0 <= i < j < |keys| && PrintSymbol(keys[i]) == PrintSymbol(keys[j]);
      AlikeAreTwins(symbols, context, keys, i, j);
    }
  }

  lemma TwoKeyed(symbols: seq<SymbolFact>, context: KeyContext) returns (keys: seq<SymbolKey>)
    requires |symbols| == 2 && NameOf(symbols[0], context) != NameOf(symbols[1], context)
    ensures Keyed(symbols, context, keys) && |keys| == 2
    ensures forall i :: 0 <= i < 2 ==> keys[i] == KeyOf(NameOf(symbols[i], context), context, 0)
  {
    assert symbols[..0] == [] && symbols[..1] == [symbols[0]] && symbols[..1][..0] == [] && symbols[..2] == symbols;
    KeyedSnoc(symbols, context, [], 0, 0);
    keys := [KeyOf(NameOf(symbols[0], context), context, 0)];
    assert [] + keys == keys;
    KeyedSnoc(symbols, context, keys, 1, 0);
    keys := keys + [KeyOf(NameOf(symbols[1], context), context, 0)];
  }

  function Run(kind: EntityKind): SymbolFact { SymbolFact([], ["run"], kind) }

  lemma RunIsConstructible(context: KeyContext, kind: EntityKind)
    requires context.package != [] && NonEmptySegments(context.modulePath)
    ensures Constructible(KeyOf(NameOf(Run(kind), context), context, 0))
  {
  }

  lemma TwinPair(context: KeyContext, symbols: seq<SymbolFact>) returns (keys: seq<SymbolKey>)
    requires |symbols| == 2 && Twins(symbols[0], symbols[1])
    requires Constructible(KeyOf(NameOf(symbols[0], context), context, 0))
    ensures Keyed(symbols, context, keys) && AllConstructible(keys) && |keys| == 2
    ensures keys[0] != keys[1] && PrintSymbol(keys[0]) == PrintSymbol(keys[1])
  {
    keys := TwoKeyed(symbols, context);
    assert Constructible(keys[0]) && Constructible(keys[1]);
    SymbolPrintsApart(keys[0], keys[1]);
  }

  /** A file whose keys differ and print alike: a function, and something of a custom kind called `function`. */
  lemma TwinsInOneFile(context: KeyContext) returns (symbols: seq<SymbolFact>, keys: seq<SymbolKey>)
    requires context.package != [] && NonEmptySegments(context.modulePath)
    ensures Keyed(symbols, context, keys) && AllConstructible(keys) && |keys| == 2
    ensures keys[0] != keys[1] && PrintSymbol(keys[0]) == PrintSymbol(keys[1])
  {
    FunctionIsBuiltin();
    symbols := [Run(Builtin("function")), Run(Custom("function"))];
    RunIsConstructible(context, Builtin("function"));
    keys := TwinPair(context, symbols);
  }
}

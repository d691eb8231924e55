/**
 Canonical keys (crates/atlas-core/src/keys.rs, kinds.rs): a printer with nested separators and its parser.
 Every symbol key that can be built prints to a text that parses back to it, exactly when its kind is spelt
 canonically, and two keys print alike exactly when nothing but the making of their kinds tells them apart.
 */
module Keys {
  import opened Wrappers
  import opened Splitting
  import opened Ids
  import opened Escape
  import opened Kinds

  const SEGMENT_RESERVED := "%:/#~"
  const FIELD_RESERVED := "%:#~"
  const TAIL_RESERVED := "%"

  // ----- numbers

  const U32_MAX := 0xFFFF_FFFF

  type u32 = n: nat | n <= U32_MAX

  predicate IsDigit(c: char) { '0' <= c <= '9' }

  function DigitChar(d: nat): char
    requires d < 10
  {
    ('0' as int + d) as char
  }

  function DigitValue(c: char): nat { if IsDigit(c) then c as int - '0' as int else 0 }

  function Digits(n: nat): string
  {
    if n < 10 then [DigitChar(n)] else Digits(n / 10) + [DigitChar(n % 10)]
  }

  function DigitsValue(s: string): nat
  {
    if s == [] then 0 else DigitsValue(s[..|s| - 1]) * 10 + DigitValue(s[|s| - 1])
  }

  /** `str::parse::<u32>`: digits, possibly after a plus sign, that do not overflow. */
  function ParseU32(s: string): Option<u32>
  {
    var digits := if "+" <= s then s[1..] else s;
    if digits != [] && (forall i :: 0 <= i < |digits| ==> IsDigit(digits[i]))
      && DigitsValue(digits) <= U32_MAX then Some(DigitsValue(digits))
    else None
  }

  lemma DigitsSnoc(s: string, d: nat)
    requires d < 10
    ensures DigitsValue(s + [DigitChar(d)]) == DigitsValue(s) * 10 + d && IsDigit(DigitChar(d))
  {
    assert (s + [DigitChar(d)])[..|s|] == s;
  }

  lemma {:induction false} DigitsOf(n: nat)
    ensures Digits(n) != [] && DigitsValue(Digits(n)) == n
    ensures forall i :: 0 <= i < |Digits(n)| ==> IsDigit(Digits(n)[i])
  {
    if n < 10 {
      DigitsSnoc([], n);
      assert [] + [DigitChar(n)] == Digits(n);
    } else {
      DigitsOf(n / 10);
      DigitsSnoc(Digits(n / 10), n % 10);
    }
  }

  lemma U32RoundTrip(n: u32)
    ensures ParseU32(Digits(n)) == Some(n)
  {
    DigitsOf(n);
    assert IsDigit(Digits(n)[0]);
  }

  // ----- symbol keys

  datatype LanguageFamily = Rust | Ts

  function FamilyName(family: LanguageFamily): string { if family.Rust? then "rust" else "ts" }

  function ParseFamily(value: string): Result<LanguageFamily, CoreError>
  {
    if value == "rust" then Ok(Rust) else if value == "ts" then Ok(Ts) else Err(UnknownVariant(value))
  }

  datatype SymbolKey = SymbolKey(
    family: LanguageFamily, repo: RepoName, package: string, modulePath: seq<string>, itemPath: seq<string>,
      kind: EntityKind, disambiguator: u32)

  predicate NonEmptySegments(path: seq<string>)
  {
    forall i :: 0 <= i < |path| ==> path[i] != []
  }

  /** `SymbolKey::new` accepts exactly these. */
  predicate Constructible(key: SymbolKey)
  {
    key.package != [] && NonEmptySegments(key.modulePath) && NonEmptySegments(key.itemPath)
  }

  function NewSymbolKey(key: SymbolKey): Result<SymbolKey, CoreError>
  {
    if key.package == [] then Err(InvalidKey("package must not be empty"))
    else if !NonEmptySegments(key.modulePath)
      || !NonEmptySegments(key.itemPath) then Err(InvalidKey("path segments must not be empty"))
    else Ok(key)
  }

  function EscapedPath(path: seq<string>): seq<string>
  {
    seq(|path|, i requires 0 <= i < |path| => Escaped(path[i], SEGMENT_RESERVED))
  }

  function PrintDisambiguator(n: u32): string { if n > 0 then "~" + Digits(n) else "" }

  function PrintRest(key: SymbolKey): string
  {
    Join(EscapedPath(key.modulePath), "/") + "::" + Join(EscapedPath(key.itemPath), "::")
  }

  function PrintBody(key: SymbolKey): string
  {
    FamilyName(key.family) + ":" + (key.repo + ":" + (Escaped(key.package, FIELD_RESERVED) + ":" + PrintRest(key)))
  }

  function PrintKind(kind: EntityKind): string { Escaped(kind.name, SEGMENT_RESERVED) }

  /** `<SymbolKey as Display>::fmt`. */
  function PrintSymbol(key: SymbolKey): string
  {
    PrintBody(key) + "#" + PrintKind(key.kind) + PrintDisambiguator(key.disambiguator)
  }

  function UnescapeField(value: string): Result<string, CoreError>
  {
    var text := Unescaped(value);
    if text.Some? then Ok(text.value) else Err(InvalidKey("malformed percent escape"))
  }

  function UnescapeAll(segments: seq<string>): Result<seq<string>, CoreError>
  {
    if segments == [] then Ok([])
    else
      match UnescapeField(segments[0])
      case Err(error) => Err(error)
      case Ok(first) =>
        match UnescapeAll(segments[1..])
        case Err(error) => Err(error)
        case Ok(rest) => Ok([first] + rest)
  }

  function UnescapeSegments(joined: string, separator: string): Result<seq<string>, CoreError>
    requires separator != []
  {
    if joined == [] then Ok([]) else UnescapeAll(Split(joined, separator))
  }

  function ParseDisambiguator(key: string): Result<(string, u32), CoreError>
  {
    match RSplitOnce(key, '~')
    case None => Ok((key, 0))
    case Some((body, digits)) =>
      match ParseU32(digits)
      case None => Err(InvalidKey("disambiguator must be a number"))
      case Some(n) => Ok((body, n))
  }

  /** `splitn(4, ':')` into the four fields. */
  function SplitFields(body: string): Option<(string, string, string, string)>
  {
    match SplitOnce(body, ":")
    case None => None
    case Some((family, afterFamily)) =>
      match SplitOnce(afterFamily, ":")
      case None => None
      case Some((repo, afterRepo)) =>
        match SplitOnce(afterRepo, ":")
        case None => None
        case Some((package, rest)) => Some((family, repo, package, rest))
  }

  /** The fields of the body read one after the other, each error as soon as it is met. */
  function ParseFields(family: string, repo: string, package: string, modules: string, items: string, kind: string,
                       n: u32): Result<SymbolKey, CoreError>
  {
    match ParseFamily(family)
    case Err(error) => Err(error)
    case Ok(f) =>
      match ParseRepo(repo)
      case Err(error) => Err(error)
      case Ok(r) =>
        match UnescapeField(package)
        case Err(error) => Err(error)
        case Ok(p) =>
          match UnescapeSegments(modules, "/")
          case Err(error) => Err(error)
          case Ok(ms) =>
            match UnescapeSegments(items, "::")
            case Err(error) => Err(error)
            case Ok(is') =>
              match UnescapeField(kind)
              case Err(error) => Err(error)
              case Ok(name) =>
                match ParseKind(name)
                case Err(error) => Err(error)
                case Ok(k) => NewSymbolKey(SymbolKey(f, r, p, ms, is', k, n))
  }

  function ParseUnchecked(key: string): Result<SymbolKey, CoreError>
  {
    match ParseDisambiguator(key)
    case Err(error) => Err(error)
    case Ok((head, n)) =>
      match RSplitOnce(head, '#')
      case None => Err(InvalidKey("missing #kind"))
      case Some((body, kind)) =>
        match SplitFields(body)
        case None => Err(InvalidKey("expected <lang>:<repo>:<package>:<module>::<items>"))
        case Some((family, repo, package, rest)) =>
          match SplitOnce(rest, "::")
          case None => Err(InvalidKey("missing '::' between module path and item path"))
          case Some((modules, items)) => ParseFields(family, repo, package, modules, items, kind, n)
  }

  /** `<SymbolKey as FromStr>::from_str`: what was read must print to exactly what was given. */
  function ParseSymbol(key: string): Result<SymbolKey, CoreError>
  {
    match ParseUnchecked(key)
    case Err(error) => Err(error)
    case Ok(parsed) => if PrintSymbol(parsed) == key then Ok(parsed) else Err(InvalidKey("not in canonical form"))
  }

  // ----- the round trip of symbol keys

  lemma {:induction false} UnescapeAllEscaped(path: seq<string>)
    ensures UnescapeAll(EscapedPath(path)) == Ok(path)
  {
    if path != [] {
      UnescapeEscaped(path[0], SEGMENT_RESERVED);
      UnescapeAllEscaped(path[1..]);
      assert EscapedPath(path)[1..] == EscapedPath(path[1..]);
      assert [path[0]] + path[1..] == path;
    }
  }

  lemma SegmentsRoundTrip(path: seq<string>, separator: string)
    requires NonEmptySegments(path) && (separator == "/" || separator == "::")
    ensures UnescapeSegments(Join(EscapedPath(path), separator), separator) == Ok(path)
  {
    var parts := EscapedPath(path);
    forall i | 0 <= i < |parts| ensures parts[i] != [] && separator[0] !in parts[i] {
      EscapedNonEmpty(path[i], SEGMENT_RESERVED);
      NoSeparator(path[i], SEGMENT_RESERVED, separator[0]);
    }
    JoinNonEmpty(parts, separator);
    if path != [] {
      SplitJoin(parts, separator);
      UnescapeAllEscaped(path);
    }
  }

  lemma PathChars(path: seq<string>, separator: string, c: char)
    requires (c == '#' || c == '~' || c == ':') && c !in separator
    ensures c !in Join(EscapedPath(path), separator)
  {
    forall i | 0 <= i < |path| ensures c !in EscapedPath(path)[i] {
      NoSeparator(path[i], SEGMENT_RESERVED, c);
    }
    JoinChars(EscapedPath(path), separator, c);
  }

  lemma RestChars(key: SymbolKey, c: char)
    requires c == '#' || c == '~'
    ensures c !in PrintRest(key)
  {
    PathChars(key.modulePath, "/", c);
    PathChars(key.itemPath, "::", c);
  }

  lemma SlugChars(repo: RepoName, c: char)
    requires !IsSlugChar(c)
    ensures c !in repo
  {
  }

  lemma FamilyChars(family: LanguageFamily, c: char)
    requires c == '#' || c == '~' || c == ':'
    ensures c !in FamilyName(family)
  {
  }

  lemma BodyChars(key: SymbolKey, c: char)
    requires c == '#' || c == '~'
    ensures c !in PrintBody(key) && c !in PrintKind(key.kind)
  {
    NoSeparator(key.package, FIELD_RESERVED, c);
    NoSeparator(key.kind.name, SEGMENT_RESERVED, c);
    RestChars(key, c);
    FamilyChars(key.family, c);
    SlugChars(key.repo, c);
    var rest, package, repo := PrintRest(key), Escaped(key.package, FIELD_RESERVED), key.repo;
    assert c !in package + ":" + rest;
    assert c !in repo + ":" + (package + ":" + rest);
  }

  lemma DisambiguatorRoundTrip(key: SymbolKey)
    ensures ParseDisambiguator(PrintSymbol(key)) == Ok((PrintBody(key) + "#" + PrintKind(key.kind), key.disambiguator))
  {
    var head := PrintBody(key) + "#" + PrintKind(key.kind);
    BodyChars(key, '~');
    assert '~' !in head;
    if key.disambiguator > 0 {
      DigitsOf(key.disambiguator);
      assert PrintSymbol(key) == head + ['~'] + Digits(key.disambiguator);
      RSplitOnceLast(head, '~', Digits(key.disambiguator));
      U32RoundTrip(key.disambiguator);
    } else {
      assert PrintSymbol(key) == head;
      RSplitOnceNone(head, '~');
    }
  }

  lemma FieldsRoundTrip(key: SymbolKey)
    ensures SplitFields(PrintBody(key)) ==
            Some((FamilyName(key.family), key.repo, Escaped(key.package, FIELD_RESERVED), PrintRest(key)))
  {
    NoSeparator(key.package, FIELD_RESERVED, ':');
    var package := Escaped(key.package, FIELD_RESERVED);
    SplitOnceFirst(package, ":", PrintRest(key));
    SlugChars(key.repo, ':');
    FamilyChars(key.family, ':');
    SplitOnceFirst(key.repo, ":", package + ":" + PrintRest(key));
    SplitOnceFirst(FamilyName(key.family), ":", key.repo + ":" + (package + ":" + PrintRest(key)));
  }

  /** Up to the reading of the kind, printing is undone. */
  lemma ParsesToFields(key: SymbolKey)
    ensures ParseUnchecked(PrintSymbol(key)) ==
            ParseFields(FamilyName(key.family), key.repo, Escaped(key.package, FIELD_RESERVED),
                        Join(EscapedPath(key.modulePath), "/"),
                        Join(EscapedPath(key.itemPath), "::"), PrintKind(key.kind), key.disambiguator)
  {
    DisambiguatorRoundTrip(key);
    BodyChars(key, '#');
    RSplitOnceLast(PrintBody(key), '#', PrintKind(key.kind));
    FieldsRoundTrip(key);
    PathChars(key.modulePath, "/", ':');
    SplitOnceFirst(Join(EscapedPath(key.modulePath), "/"), "::", Join(EscapedPath(key.itemPath), "::"));
  }

  /** The key with its kind as it was read. */
  function WithKind(key: SymbolKey, read: Result<EntityKind, CoreError>): Result<SymbolKey, CoreError>
  {
    if read.Ok? then Ok(key.(kind := read.value)) else Err(read.error)
  }

  lemma FieldsOf(key: SymbolKey, package: string, modules: string, items: string, kind: string)
    requires Constructible(key) && UnescapeField(package) == Ok(key.package) && UnescapeField(kind) == Ok(key.kind.name)
    requires UnescapeSegments(modules, "/") == Ok(key.modulePath) && UnescapeSegments(items, "::") == Ok(key.itemPath)
    ensures ParseFields(FamilyName(key.family), key.repo, package, modules, items, kind, key.disambiguator) ==
            WithKind(key, ParseKind(key.kind.name))
  {
    assert ParseFamily(FamilyName(key.family)) == Ok(key.family);
    assert ParseRepo(key.repo) == Ok(key.repo);
  }

  lemma FieldsRead(key: SymbolKey)
    requires Constructible(key)
    ensures ParseFields(FamilyName(key.family), key.repo, Escaped(key.package, FIELD_RESERVED),
                        Join(EscapedPath(key.modulePath), "/"),
                        Join(EscapedPath(key.itemPath), "::"), PrintKind(key.kind), key.disambiguator) ==
            WithKind(key, ParseKind(key.kind.name))
  {
    UnescapeEscaped(key.package, FIELD_RESERVED);
    SegmentsRoundTrip(key.modulePath, "/");
    SegmentsRoundTrip(key.itemPath, "::");
    UnescapeEscaped(key.kind.name, SEGMENT_RESERVED);
    FieldsOf(key, Escaped(key.package, FIELD_RESERVED), Join(EscapedPath(key.modulePath), "/"),
             Join(EscapedPath(key.itemPath), "::"), PrintKind(key.kind));
  }

  /** Every key that can be built reads back, exactly when its kind is spelt canonically. */
  lemma SymbolRoundTrip(key: SymbolKey)
    requires Constructible(key)
    ensures ParseSymbol(PrintSymbol(key)) == Ok(key) <==> CanonicalKind(key.kind)
  {
    ParsesToFields(key);
    FieldsRead(key);
    KindRoundTrip(key.kind);
  }

  /** The texts the parser accepts are exactly the prints of constructible keys with canonical kinds. */
  lemma ParsesExactlyThePrints(text: string, key: SymbolKey)
    ensures ParseSymbol(text) == Ok(key) <==> text == PrintSymbol(key) && Constructible(key) && CanonicalKind(key.kind)
  {
    if ParseSymbol(text) == Ok(key) {
      assert ParseUnchecked(text) == Ok(key);
      ParsedIsConstructible(text);
      SymbolRoundTrip(key);
    } else if text == PrintSymbol(key) && Constructible(key) {
      SymbolRoundTrip(key);
    }
  }

  lemma FieldsConstructible(family: string, repo: string, package: string, modules: string, items: string, kind: string,
                            n: u32)
    requires ParseFields(family, repo, package, modules, items, kind, n).Ok?
    ensures Constructible(ParseFields(family, repo, package, modules, items, kind, n).value)
  {
  }

  lemma ParsedIsConstructible(text: string)
    requires ParseUnchecked(text).Ok?
    ensures Constructible(ParseUnchecked(text).value)
  {
    var (head, n) := ParseDisambiguator(text).value;
    var (body, kind) := RSplitOnce(head, '#').value;
    var (family, repo, package, rest) := SplitFields(body).value;
    var (modules, items) := SplitOnce(rest, "::").value;
    FieldsConstructible(family, repo, package, modules, items, kind, n);
  }

  lemma AlikeBeforeFields(a: SymbolKey, b: SymbolKey)
    requires PrintSymbol(a) == PrintSymbol(b)
    ensures a.disambiguator == b.disambiguator && PrintBody(a) == PrintBody(b) && a.kind.name == b.kind.name
  {
    DisambiguatorRoundTrip(a);
    DisambiguatorRoundTrip(b);
    BodyChars(a, '#');
    BodyChars(b, '#');
    RSplitOnceLast(PrintBody(a), '#', PrintKind(a.kind));
    RSplitOnceLast(PrintBody(b), '#', PrintKind(b.kind));
    UnescapeEscaped(a.kind.name, SEGMENT_RESERVED);
    UnescapeEscaped(b.kind.name, SEGMENT_RESERVED);
  }

  lemma RestSplits(key: SymbolKey)
    ensures SplitOnce(PrintRest(key), "::") ==
            Some((Join(EscapedPath(key.modulePath), "/"), Join(EscapedPath(key.itemPath), "::")))
  {
    PathChars(key.modulePath, "/", ':');
    SplitOnceFirst(Join(EscapedPath(key.modulePath), "/"), "::", Join(EscapedPath(key.itemPath), "::"));
  }

  lemma AlikePaths(a: SymbolKey, b: SymbolKey)
    requires Constructible(a) && Constructible(b) && PrintRest(a) == PrintRest(b)
    ensures a.modulePath == b.modulePath && a.itemPath == b.itemPath
  {
    RestSplits(a);
    RestSplits(b);
    SegmentsRoundTrip(a.modulePath, "/");
    SegmentsRoundTrip(b.modulePath, "/");
    SegmentsRoundTrip(a.itemPath, "::");
    SegmentsRoundTrip(b.itemPath, "::");
  }

  lemma AlikeFields(a: SymbolKey, b: SymbolKey)
    requires PrintBody(a) == PrintBody(b)
    ensures a.family == b.family && a.repo == b.repo && a.package == b.package && PrintRest(a) == PrintRest(b)
  {
    FieldsRoundTrip(a);
    FieldsRoundTrip(b);
    UnescapeEscaped(a.package, FIELD_RESERVED);
    UnescapeEscaped(b.package, FIELD_RESERVED);
  }

  /** Two keys print alike exactly when they differ at most in how their kinds, of one name, are made. */
  lemma SymbolPrintsApart(a: SymbolKey, b: SymbolKey)
    requires Constructible(a) && Constructible(b)
    ensures PrintSymbol(a) == PrintSymbol(b) <==> a.kind.name == b.kind.name && a == b.(kind := a.kind)
  {
    if PrintSymbol(a) == PrintSymbol(b) {
      AlikeBeforeFields(a, b);
      AlikeFields(a, b);
      AlikePaths(a, b);
    }
  }

  /** Different keys may print alike: a custom kind named like a built-in one. */
  lemma CustomKindCollides(key: SymbolKey)
    requires Constructible(key) && key.kind == Custom("function")
    ensures IsBuiltin("function")
    ensures var twin := key.(kind := Builtin("function")); twin != key && PrintSymbol(twin) == PrintSymbol(key)
  {
    FunctionIsBuiltin();
  }
}

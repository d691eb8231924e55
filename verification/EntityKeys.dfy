/**
 The keys of everything else (crates/atlas-core/src/keys.rs, `EntityKey`): a prefix, the fields of the variant,
 and a tail that only escapes `%`. Variants that differ in nothing but their prefix are grouped by a tag.
 */
module EntityKeys {
  import opened Wrappers
  import opened Splitting
  import opened Ids
  import opened Escape
  import opened Kinds
  import opened Keys

  datatype HttpMethod = GET | POST | PUT | PATCH | DELETE | HEAD | OPTIONS | TRACE | CONNECT | ANY | UNKNOWN

  function MethodName(m: HttpMethod): string
  {
    match m
    case GET => "GET" case POST => "POST" case PUT => "PUT" case PATCH => "PATCH" case DELETE => "DELETE"
    case HEAD => "HEAD"
    case OPTIONS => "OPTIONS" case TRACE => "TRACE" case CONNECT => "CONNECT" case ANY => "ANY"
    case UNKNOWN => "UNKNOWN"
  }

  function ParseMethod(value: string): Result<HttpMethod, CoreError>
  {
    match value
    case "GET" => Ok(GET) case "POST" => Ok(POST) case "PUT" => Ok(PUT) case "PATCH" => Ok(PATCH)
    case "DELETE" => Ok(DELETE)
    case "HEAD" => Ok(HEAD) case "OPTIONS" => Ok(OPTIONS) case "TRACE" => Ok(TRACE) case "CONNECT" => Ok(CONNECT)
    case "ANY" => Ok(ANY) case "UNKNOWN" => Ok(UNKNOWN)
    case _ => Err(UnknownVariant(value))
  }

  datatype PackageEcosystem = Cargo | Npm

  function EcosystemName(e: PackageEcosystem): string { if e.Cargo? then "cargo" else "npm" }

  function ParseEcosystem(value: string): Result<PackageEcosystem, CoreError>
  {
    if value == "cargo" then Ok(Cargo) else if value == "npm" then Ok(Npm) else Err(UnknownVariant(value))
  }

  /** The variants made of a repository and a name. */
  datatype InRepo = Application | Service | AuthScheme | Permission | ConfigKey | EnvVar | Job

  /** The variants made of a name alone. */
  datatype Global = Event | Queue | DbTable | ExternalService | Capability

  datatype Call = Endpoint | ClientCall

  datatype EntityKey =
    | Symbol(key: SymbolKey)
    | Repository(repo: RepoName)
    | File(repo: RepoName, path: string)
    | Package(ecosystem: PackageEcosystem, name: string)
    | Route(call: Call, repo: RepoName, httpMethod: HttpMethod, target: string)
    | Scoped(scoped: InRepo, repo: RepoName, name: string)
    | Named(global: Global, name: string)
    | Other(kind: EntityKind, owner: Option<RepoName>, name: string)

  function ScopedPrefix(s: InRepo): string
  {
    match s
    case Application => "app" case Service => "service" case AuthScheme => "auth" case Permission => "permission"
    case ConfigKey => "config" case EnvVar => "env" case Job => "job"
  }

  function GlobalPrefix(g: Global): string
  {
    match g
    case Event => "event" case Queue => "queue" case DbTable => "table" case ExternalService => "external"
    case Capability => "capability"
  }

  function CallPrefix(c: Call): string { if c.Endpoint? then "endpoint" else "client" }

  function Tail(value: string): string { Escaped(value, TAIL_RESERVED) }

  function OwnerName(owner: Option<RepoName>): string { if owner.Some? then owner.value else "" }

  function Prefix(key: EntityKey): string
    requires !key.Symbol?
  {
    match key
    case Repository(_) => "repo"
    case File(_, _) => "file"
    case Package(_, _) => "pkg"
    case Route(call, _, _, _) => CallPrefix(call)
    case Scoped(scoped, _, _) => ScopedPrefix(scoped)
    case Named(global, _) => GlobalPrefix(global)
    case Other(_, _, _) => "other"
  }

  function Fields(key: EntityKey): string
    requires !key.Symbol?
  {
    match key
    case Repository(repo) => repo
    case File(repo, path) => repo + ":" + Tail(path)
    case Package(ecosystem, name) => EcosystemName(ecosystem) + ":" + Tail(name)
    case Route(_, repo, m, target) => repo + ":" + (MethodName(m) + " " + Tail(target))
    case Scoped(_, repo, name) => repo + ":" + Tail(name)
    case Named(_, name) => Tail(name)
    case Other(kind, owner, name) => Escaped(kind.name, FIELD_RESERVED) + ":" + (OwnerName(owner) + ":" + Tail(name))
  }

  /** `<EntityKey as Display>::fmt`. */
  function PrintEntity(key: EntityKey): string
  {
    if key.Symbol? then PrintSymbol(key.key) else Prefix(key) + ":" + Fields(key)
  }

  function RepoAndTail(rest: string): Result<(RepoName, string), CoreError>
  {
    match SplitOnce(rest, ":")
    case None => Err(InvalidKey("expected <repo>:<name>"))
    case Some((repo, tail)) =>
      match ParseRepo(repo)
      case Err(error) => Err(error)
      case Ok(r) =>
        match UnescapeField(tail)
        case Err(error) => Err(error)
        case Ok(t) => Ok((r, t))
  }

  function ParseScoped(scoped: InRepo, rest: string): Result<EntityKey, CoreError>
  {
    match RepoAndTail(rest)
    case Err(error) => Err(error)
    case Ok((repo, name)) => Ok(Scoped(scoped, repo, name))
  }

  function ParseRoute(call: Call, rest: string): Result<EntityKey, CoreError>
  {
    match RepoAndTail(rest)
    case Err(error) => Err(error)
    case Ok((repo, tail)) =>
      match SplitOnce(tail, " ")
      case None => Err(InvalidKey("expected <METHOD> <route>"))
      case Some((m, target)) =>
        match ParseMethod(m)
        case Err(error) => Err(error)
        case Ok(parsed) => Ok(Route(call, repo, parsed, target))
  }

  function ParseNamed(global: Global, rest: string): Result<EntityKey, CoreError>
  {
    match UnescapeField(rest)
    case Err(error) => Err(error)
    case Ok(name) => Ok(Named(global, name))
  }

  function ParseFile(rest: string): Result<EntityKey, CoreError>
  {
    match RepoAndTail(rest)
    case Err(error) => Err(error)
    case Ok((repo, tail)) =>
      match RelPathOf(tail)
      case Err(error) => Err(error)
      case Ok(path) => Ok(File(repo, path))
  }

  function ParsePackage(rest: string): Result<EntityKey, CoreError>
  {
    match SplitOnce(rest, ":")
    case None => Err(InvalidKey("expected <ecosystem>:<name>"))
    case Some((ecosystem, name)) =>
      match ParseEcosystem(ecosystem)
      case Err(error) => Err(error)
      case Ok(e) =>
        match UnescapeField(name)
        case Err(error) => Err(error)
        case Ok(n) => Ok(Package(e, n))
  }

  function ParseOwner(repo: string): Result<Option<RepoName>, CoreError>
  {
    if repo == [] then Ok(None)
    else
      match ParseRepo(repo)
      case Err(error) => Err(error)
      case Ok(r) => Ok(Some(r))
  }

  function ParseOther(rest: string): Result<EntityKey, CoreError>
  {
    match SplitOnce(rest, ":")
    case None => Err(InvalidKey("expected other:<kind>:<repo?>:<name>"))
    case Some((kind, afterKind)) =>
      match SplitOnce(afterKind, ":")
      case None => Err(InvalidKey("expected other:<kind>:<repo?>:<name>"))
      case Some((repo, name)) =>
        match ParseOwner(repo)
        case Err(error) => Err(error)
        case Ok(owner) =>
          match UnescapeField(kind)
          case Err(error) => Err(error)
          case Ok(k) =>
            match ParseKind(k)
            case Err(error) => Err(error)
            case Ok(parsed) =>
              match UnescapeField(name)
              case Err(error) => Err(error)
              case Ok(n) => Ok(Other(parsed, owner, n))
  }

  /** The variant a prefix announces. */
  datatype Variant = RepoKey | FileKey | PackageKey | RouteKey(call: Call) | ScopedKey(scoped: InRepo)
    | NamedKey(global: Global) | OtherKey

  function VariantOf(prefix: string): Option<Variant>
  {
    match prefix
    case "repo" => Some(RepoKey)
    case "file" => Some(FileKey)
    case "pkg" => Some(PackageKey)
    case "app" => Some(ScopedKey(Application))
    case "service" => Some(ScopedKey(Service))
    case "endpoint" => Some(RouteKey(Endpoint))
    case "client" => Some(RouteKey(ClientCall))
    case "auth" => Some(ScopedKey(AuthScheme))
    case "permission" => Some(ScopedKey(Permission))
    case "config" => Some(ScopedKey(ConfigKey))
    case "env" => Some(ScopedKey(EnvVar))
    case "event" => Some(NamedKey(Event))
    case "queue" => Some(NamedKey(Queue))
    case "job" => Some(ScopedKey(Job))
    case "table" => Some(NamedKey(DbTable))
    case "external" => Some(NamedKey(ExternalService))
    case "capability" => Some(NamedKey(Capability))
    case "other" => Some(OtherKey)
    case _ => None
  }

  function ParseVariant(variant: Variant, rest: string): Result<EntityKey, CoreError>
  {
    match variant
    case RepoKey =>
      (match ParseRepo(rest)
       case Err(error) => Err(error)
       case Ok(repo) => Ok(Repository(repo)))
    case FileKey => ParseFile(rest)
    case PackageKey => ParsePackage(rest)
    case RouteKey(call) => ParseRoute(call, rest)
    case ScopedKey(scoped) => ParseScoped(scoped, rest)
    case NamedKey(global) => ParseNamed(global, rest)
    case OtherKey => ParseOther(rest)
  }

  /** `parse_domain_key`. */
  function ParseDomain(prefix: string, rest: string): Result<EntityKey, CoreError>
  {
    match VariantOf(prefix)
    case None => Err(InvalidKey("unknown key prefix"))
    case Some(variant) => ParseVariant(variant, rest)
  }

  /** `<EntityKey as FromStr>::from_str`. */
  function ParseEntity(text: string): Result<EntityKey, CoreError>
  {
    match SplitOnce(text, ":")
    case None => Err(InvalidKey("missing key prefix"))
    case Some((prefix, rest)) =>
      var parsed :=
        if ParseFamily(prefix).Ok? then
          match ParseSymbol(text)
          case Err(error) => Err(error)
          case Ok(key) => Ok(Symbol(key))
        else ParseDomain(prefix, rest);
      match parsed
      case Err(error) => Err(error)
      case Ok(key) => if PrintEntity(key) == text then Ok(key) else Err(InvalidKey("not in canonical form"))
  }

  /** What the constructors of the parts guarantee. */
  ghost predicate Buildable(key: EntityKey)
  {
    match key
    case Symbol(symbol) => Constructible(symbol)
    case File(_, path) => IsRelPath(path)
    case _ => true
  }

  /** A kind spelt canonically, and a path that has not come to look like a drive. */
  predicate Canonical(key: EntityKey)
  {
    match key
    case Symbol(symbol) => CanonicalKind(symbol.kind)
    case File(_, path) => !HasDrivePrefix(path)
    case Other(kind, _, _) => CanonicalKind(kind)
    case _ => true
  }

  // ----- the round trip

  lemma TailRoundTrip(value: string)
    ensures UnescapeField(Tail(value)) == Ok(value)
  {
    UnescapeEscaped(value, TAIL_RESERVED);
  }

  lemma RepoAndTailRoundTrip(repo: RepoName, tail: string, value: string)
    requires UnescapeField(tail) == Ok(value)
    ensures RepoAndTail(repo + ":" + tail) == Ok((repo, value))
  {
    SlugChars(repo, ':');
    SplitOnceFirst(repo, ":", tail);
  }

  lemma {:induction false} EscapeConcat(a: string, b: string, reserved: string)
    ensures Escaped(a + b, reserved) == Escaped(a, reserved) + Escaped(b, reserved)
  {
    if a == [] {
      assert a + b == b;
    } else {
      assert (a + b)[1..] == a[1..] + b;
      EscapeConcat(a[1..], b, reserved);
    }
  }

  lemma RouteRoundTrip(call: Call, repo: RepoName, m: HttpMethod, target: string)
    ensures ParseRoute(call, repo + ":" + (MethodName(m) + " " + Tail(target))) == Ok(Route(call, repo, m, target))
  {
    MethodNameFacts(m);
    var head := MethodName(m) + " ";
    NothingToEscape(head, TAIL_RESERVED);
    EscapeConcat(head, target, TAIL_RESERVED);
    TailRoundTrip(head + target);
    RepoAndTailRoundTrip(repo, head + Tail(target), head + target);
    SplitOnceFirst(MethodName(m), " ", target);
  }

  lemma MethodNameFacts(m: HttpMethod)
    ensures ParseMethod(MethodName(m)) == Ok(m) && ' ' !in MethodName(m)
    ensures forall i :: 0 <= i < |MethodName(m)| ==> 'A' <= MethodName(m)[i] <= 'Z'
  {
  }

  lemma PackageRoundTrip(ecosystem: PackageEcosystem, name: string)
    ensures ParsePackage(EcosystemName(ecosystem) + ":" + Tail(name)) == Ok(Package(ecosystem, name))
  {
    TailRoundTrip(name);
    SplitOnceFirst(EcosystemName(ecosystem), ":", Tail(name));
  }

  lemma OwnerRoundTrip(owner: Option<RepoName>, rest: string)
    ensures SplitOnce(OwnerName(owner) + ":" + rest, ":") == Some((OwnerName(owner), rest))
    ensures ParseOwner(OwnerName(owner)) == Ok(owner)
  {
    if owner.Some? {
      SlugChars(owner.value, ':');
    }
    SplitOnceFirst(OwnerName(owner), ":", rest);
  }

  /** The key of a kind as it was read. */
  function OtherWith(read: Result<EntityKind, CoreError>, owner: Option<RepoName>, name: string): Result<EntityKey,
                     CoreError>
  {
    if read.Ok? then Ok(Other(read.value, owner, name)) else Err(read.error)
  }

  lemma OtherOf(kind: EntityKind, owner: Option<RepoName>, name: string, k: string, tail: string)
    requires ':' !in k && UnescapeField(k) == Ok(kind.name) && UnescapeField(tail) == Ok(name)
    ensures ParseOther(k + ":" + (OwnerName(owner) + ":" + tail)) ==
            OtherWith(ParseKind(kind.name), owner, name)
  {
    SplitOnceFirst(k, ":", OwnerName(owner) + ":" + tail);
    OwnerRoundTrip(owner, tail);
  }

  lemma OtherRoundTrip(kind: EntityKind, owner: Option<RepoName>, name: string)
    ensures ParseOther(Escaped(kind.name, FIELD_RESERVED) + ":" + (OwnerName(owner) + ":" + Tail(name))) ==
            Ok(Other(kind, owner, name)) <==>
            CanonicalKind(kind)
  {
    NoSeparator(kind.name, FIELD_RESERVED, ':');
    UnescapeEscaped(kind.name, FIELD_RESERVED);
    TailRoundTrip(name);
    OtherOf(kind, owner, name, Escaped(kind.name, FIELD_RESERVED), Tail(name));
    KindRoundTrip(kind);
  }

  lemma FileRoundTrip(repo: RepoName, path: string)
    requires IsRelPath(path)
    ensures ParseFile(repo + ":" + Tail(path)) == Ok(File(repo, path)) <==> !HasDrivePrefix(path)
  {
    TailRoundTrip(path);
    RepoAndTailRoundTrip(repo, Tail(path), path);
    ReparsesExactlyWhen(path);
  }

  function VariantFor(key: EntityKey): Variant
    requires !key.Symbol?
  {
    match key
    case Repository(_) => RepoKey
    case File(_, _) => FileKey
    case Package(_, _) => PackageKey
    case Route(call, _, _, _) => RouteKey(call)
    case Scoped(scoped, _, _) => ScopedKey(scoped)
    case Named(global, _) => NamedKey(global)
    case Other(_, _, _) => OtherKey
  }

  lemma ScopedRoundTrip(scoped: InRepo, repo: RepoName, name: string)
    ensures ParseScoped(scoped, repo + ":" + Tail(name)) == Ok(Scoped(scoped, repo, name))
  {
    TailRoundTrip(name);
    RepoAndTailRoundTrip(repo, Tail(name), name);
  }

  lemma PlainFieldsRoundTrip(key: EntityKey)
    requires key.Repository? || key.Package? || key.Scoped? || key.Named?
    ensures ParseVariant(VariantFor(key), Fields(key)) == Ok(key)
  {
    match key {
      case Repository(repo) =>
      case Package(ecosystem, name) => PackageRoundTrip(ecosystem, name);
      case Scoped(scoped, repo, name) => ScopedRoundTrip(scoped, repo, name);
      case Named(global, name) => TailRoundTrip(name);
    }
  }

  lemma FileFieldsRoundTrip(key: EntityKey)
    requires key.File? && Buildable(key)
    ensures ParseVariant(VariantFor(key), Fields(key)) == Ok(key) <==> Canonical(key)
  {
    FileRoundTrip(key.repo, key.path);
  }

  lemma RouteFieldsRoundTrip(key: EntityKey)
    requires key.Route?
    ensures ParseVariant(VariantFor(key), Fields(key)) == Ok(key)
  {
    RouteRoundTrip(key.call, key.repo, key.httpMethod, key.target);
  }

  lemma OtherFieldsRoundTrip(key: EntityKey)
    requires key.Other?
    ensures ParseVariant(VariantFor(key), Fields(key)) == Ok(key) <==> Canonical(key)
  {
    OtherRoundTrip(key.kind, key.owner, key.name);
  }

  lemma FieldsRoundTrip(key: EntityKey)
    requires !key.Symbol? && Buildable(key)
    ensures ParseVariant(VariantFor(key), Fields(key)) == Ok(key) <==> Canonical(key)
  {
    if key.File? {
      FileFieldsRoundTrip(key);
    } else if key.Route? {
      RouteFieldsRoundTrip(key);
    } else if key.Other? {
      OtherFieldsRoundTrip(key);
    } else {
      PlainFieldsRoundTrip(key);
    }
  }

  /** Each prefix announces its own variant, and none of them is a language. */
  lemma PrefixRoundTrip(key: EntityKey)
    requires !key.Symbol?
    ensures VariantOf(Prefix(key)) == Some(VariantFor(key))
    ensures ':' !in Prefix(key) && ParseFamily(Prefix(key)).Err?
  {
  }

  lemma DomainRoundTrip(key: EntityKey)
    requires !key.Symbol? && Buildable(key)
    ensures ParseEntity(PrintEntity(key)) == Ok(key) <==> Canonical(key)
  {
    PrefixRoundTrip(key);
    DomainParse(key, Prefix(key), Fields(key));
    FieldsRoundTrip(key);
  }

  /** A text with a prefix that is not a language goes to the parser of its variant. */
  lemma DomainParse(key: EntityKey, prefix: string, rest: string)
    requires ':' !in prefix && ParseFamily(prefix).Err?
    ensures ParseEntity(prefix + ":" + rest) == Ok(key) <==>
              ParseDomain(prefix, rest) == Ok(key) && PrintEntity(key) == prefix + ":" + rest
  {
    SplitOnceFirst(prefix, ":", rest);
  }

  lemma SymbolPrefix(symbol: SymbolKey) returns (tail: string)
    ensures SplitOnce(PrintSymbol(symbol), ":") == Some((FamilyName(symbol.family), tail))
  {
    var body := symbol.repo + ":" + (Escaped(symbol.package, FIELD_RESERVED) + ":" + PrintRest(symbol));
    tail := body + "#" + PrintKind(symbol.kind) + PrintDisambiguator(symbol.disambiguator);
    assert PrintSymbol(symbol) == FamilyName(symbol.family) + ":" + tail;
    FamilyChars(symbol.family, ':');
    SplitOnceFirst(FamilyName(symbol.family), ":", tail);
  }

  lemma SymbolParse(symbol: SymbolKey)
    ensures ParseEntity(PrintSymbol(symbol)) == Ok(Symbol(symbol)) <==> ParseSymbol(PrintSymbol(symbol)) == Ok(symbol)
  {
    var tail := SymbolPrefix(symbol);
  }

  /** Every key that can be built reads back, exactly when it is canonical. */
  lemma EntityRoundTrip(key: EntityKey)
    requires Buildable(key)
    ensures ParseEntity(PrintEntity(key)) == Ok(key) <==> Canonical(key)
  {
    if key.Symbol? {
      SymbolParse(key.key);
      SymbolRoundTrip(key.key);
    } else {
      DomainRoundTrip(key);
    }
  }

  // ----- keys that print alike

  /** The keys are equal, but for how their kinds, of one name, are made. */
  predicate Alike(a: EntityKey, b: EntityKey)
  {
    if a.Symbol? && b.Symbol? then a.key.kind.name == b.key.kind.name && a.key == b.key.(kind := a.key.kind)
    else if a.Other? && b.Other? then a.kind.name == b.kind.name && a == b.(kind := a.kind)
    else a == b
  }

  lemma SplitsAtPrefix(key: EntityKey)
    requires !key.Symbol?
    ensures SplitOnce(PrintEntity(key), ":") == Some((Prefix(key), Fields(key)))
  {
    PrefixRoundTrip(key);
    SplitOnceFirst(Prefix(key), ":", Fields(key));
  }

  /** A symbol's key and any other key print apart: one begins with a language, the other with its prefix. */
  lemma SymbolsPrintApart(symbol: EntityKey, other: EntityKey)
    requires symbol.Symbol? && !other.Symbol?
    ensures PrintEntity(symbol) != PrintEntity(other)
  {
    var tail := SymbolPrefix(symbol.key);
    SplitsAtPrefix(other);
    PrefixRoundTrip(other);
  }

  /** Keys of one variant whose fields are alike. */
  lemma FieldsPrintApart(a: EntityKey, b: EntityKey)
    requires !a.Symbol? && !b.Symbol? && !a.Other? && VariantFor(a) == VariantFor(b) && Fields(a) == Fields(b)
    ensures a == b
  {
    if a.File? {
      TailRoundTrip(a.path);
      TailRoundTrip(b.path);
      RepoAndTailRoundTrip(a.repo, Tail(a.path), a.path);
      RepoAndTailRoundTrip(b.repo, Tail(b.path), b.path);
    } else if a.Route? {
      RouteFieldsRoundTrip(a);
      RouteFieldsRoundTrip(b);
    } else {
      PlainFieldsRoundTrip(a);
      PlainFieldsRoundTrip(b);
    }
  }

  lemma OtherSplits(key: EntityKey)
    requires key.Other?
    ensures SplitOnce(Fields(key), ":") ==
            Some((Escaped(key.kind.name, FIELD_RESERVED), OwnerName(key.owner) + ":" + Tail(key.name)))
  {
    NoSeparator(key.kind.name, FIELD_RESERVED, ':');
    SplitOnceFirst(Escaped(key.kind.name, FIELD_RESERVED), ":", OwnerName(key.owner) + ":" + Tail(key.name));
  }

  lemma OthersPrintApart(a: EntityKey, b: EntityKey)
    requires a.Other? && b.Other? && Fields(a) == Fields(b)
    ensures Alike(a, b)
  {
    OtherSplits(a);
    OtherSplits(b);
    UnescapeEscaped(a.kind.name, FIELD_RESERVED);
    UnescapeEscaped(b.kind.name, FIELD_RESERVED);
    OwnerRoundTrip(a.owner, Tail(a.name));
    OwnerRoundTrip(b.owner, Tail(b.name));
    TailRoundTrip(a.name);
    TailRoundTrip(b.name);
  }

  lemma DomainsPrintApart(a: EntityKey, b: EntityKey)
    requires !a.Symbol? && !b.Symbol? && PrintEntity(a) == PrintEntity(b)
    ensures Alike(a, b)
  {
    SplitsAtPrefix(a);
    SplitsAtPrefix(b);
    PrefixRoundTrip(a);
    PrefixRoundTrip(b);
    if a.Other? {
      OthersPrintApart(a, b);
    } else {
      FieldsPrintApart(a, b);
    }
  }

  /** Two keys print alike exactly when they differ at most in how their kinds, of one name, are made. */
  lemma EntityPrintsApart(a: EntityKey, b: EntityKey)
    requires Buildable(a) && Buildable(b)
    ensures PrintEntity(a) == PrintEntity(b) <==> Alike(a, b)
  {
    if a.Symbol? && b.Symbol? {
      SymbolPrintsApart(a.key, b.key);
    } else if a.Symbol? {
      SymbolsPrintApart(a, b);
    } else if b.Symbol? {
      SymbolsPrintApart(b, a);
    } else if PrintEntity(a) == PrintEntity(b) {
      DomainsPrintApart(a, b);
    }
  }
}

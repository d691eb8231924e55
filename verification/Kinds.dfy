/** Entity kinds (crates/atlas-core/src/kinds.rs): the built-in names, and custom names in snake case. */
module Kinds {
  import opened Wrappers
  import opened Ids

  const BUILTIN_COUNT := 36

  function BuiltinKind(i: nat): string
    requires i < BUILTIN_COUNT
  {
    match i
    case 0 => "repository"
    case 1 => "package"
    case 2 => "application"
    case 3 => "service"
    case 4 => "module"
    case 5 => "file"
    case 6 => "function"
    case 7 => "method"
    case 8 => "class"
    case 9 => "struct"
    case 10 => "enum"
    case 11 => "trait"
    case 12 => "interface"
    case 13 => "type_alias"
    case 14 => "constant"
    case 15 => "field"
    case 16 => "api_endpoint"
    case 17 => "api_client_call"
    case 18 => "auth_scheme"
    case 19 => "permission"
    case 20 => "config_key"
    case 21 => "env_var"
    case 22 => "event"
    case 23 => "queue"
    case 24 => "job"
    case 25 => "db_table"
    case 26 => "db_model"
    case 27 => "external_service"
    case 28 => "test"
    case 29 => "test_suite"
    case 30 => "capability"
    case 31 => "doc"
    case 32 => "macro"
    case 33 => "variant"
    case 34 => "variable"
    case _ => "namespace"
  }

  /** The name is one of the built-in ones from the given place on. */
  predicate IsBuiltinFrom(name: string, i: nat)
    decreases BUILTIN_COUNT - i
  {
    i < BUILTIN_COUNT && (BuiltinKind(i) == name || IsBuiltinFrom(name, i + 1))
  }

  predicate IsBuiltin(name: string) { IsBuiltinFrom(name, 0) }

  datatype Kind = Builtin(name: string) | Custom(name: string)

  type EntityKind = kind: Kind | kind.Builtin? ==> IsBuiltin(kind.name) witness Custom("x")

  predicate IsCustomKindName(value: string)
  {
    && value != [] && 'a' <= value[0] <= 'z'
    && forall i :: 0 <= i < |value| ==> 'a' <= value[i] <= 'z' || '0' <= value[i] <= '9' || value[i] == '_'
  }

  function ParseKind(value: string): Result<EntityKind, CoreError>
  {
    if IsBuiltin(value) then Ok(Builtin(value))
    else if IsCustomKindName(value) then Ok(Custom(value))
    else Err(InvalidName(value))
  }

  /** A built-in kind, or a custom one that is spelt in snake case and not like a built-in one. */
  predicate CanonicalKind(kind: EntityKind)
  {
    kind.Builtin? || (IsCustomKindName(kind.name) && !IsBuiltin(kind.name))
  }

  lemma KindRoundTrip(kind: EntityKind)
    ensures ParseKind(kind.name) == Ok(kind) <==> CanonicalKind(kind)
  {
  }

  lemma FunctionIsBuiltin()
    ensures IsBuiltin("function")
  {
    assert BuiltinKind(6) == "function";
    assert IsBuiltinFrom("function", 6);
    assert IsBuiltinFrom("function", 5);
    assert IsBuiltinFrom("function", 4);
    assert IsBuiltinFrom("function", 3);
    assert IsBuiltinFrom("function", 2);
    assert IsBuiltinFrom("function", 1);
  }
}

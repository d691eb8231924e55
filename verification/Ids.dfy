/** Validated names and paths (crates/atlas-core/src/ids.rs). */
module Ids {
  import opened Wrappers
  import opened Splitting

  datatype CoreError =
    | InvalidKey(reason: string)
    | InvalidName(value: string)
    | InvalidRelPath(reason: string)
    | UnknownVariant(value: string)

  // ----- repository names

  predicate IsSlugChar(c: char)
  {
    'a' <= c <= 'z' || 'A' <= c <= 'Z' || '0' <= c <= '9' || c == '-' || c == '_' || c == '.'
  }

  /** `validate_slug`. */
  predicate IsSlug(value: string)
  {
    && 1 <= |value| <= 128
    && value[0] !in "-_."
    && forall i :: 0 <= i < |value| ==> IsSlugChar(value[i])
  }

  type RepoName = name: string | IsSlug(name) witness "a"

  function ParseRepo(value: string): Result<RepoName, CoreError>
  {
    if IsSlug(value) then Ok(value) else Err(InvalidName(value))
  }

  // ----- relative paths

  predicate HasDrivePrefix(path: string)
  {
    && |path| >= 2 && ('a' <= path[0] <= 'z' || 'A' <= path[0] <= 'Z') && path[1] == ':'
    && (|path| == 2 || path[2] == '/')
  }

  function Unified(input: string): string
  {
    seq(|input|, i requires 0 <= i < |input| => if input[i] == '\\' then '/' else input[i])
  }

  /** The segments that remain once `.` and empty ones are dropped and `..` takes one back. */
  function Resolve(segments: seq<string>, stack: seq<string>): Option<seq<string>>
  {
    if segments == [] then Some(stack)
    else if segments[0] == "" || segments[0] == "." then Resolve(segments[1..], stack)
    else if segments[0] == ".." then
      if stack == [] then None else Resolve(segments[1..], stack[..|stack| - 1])
    else Resolve(segments[1..], stack + [segments[0]])
  }

  function RelPathOf(input: string): Result<string, CoreError>
  {
    if '\0' in input then Err(InvalidRelPath("contains a NUL byte"))
    else
      var unified := Unified(input);
      if "/" <= unified || HasDrivePrefix(unified) then Err(InvalidRelPath("must be relative to the repository root"))
      else
        match Resolve(Split(unified, "/"), [])
        case None => Err(InvalidRelPath("escapes the repository root"))
        case Some(segments) =>
          if segments == [] then Err(InvalidRelPath("must name a path below the repository root"))
          else Ok(Join(segments, "/"))
  }

  /** `RelPath::new`: one pass over the segments with a stack. */
  method NewRelPath(input: string) returns (r: Result<string, CoreError>)
    ensures r == RelPathOf(input)
  {
    if '\0' in input {
      return Err(InvalidRelPath("contains a NUL byte"));
    }
    var unified := Unified(input);
    if "/" <= unified || HasDrivePrefix(unified) {
      return Err(InvalidRelPath("must be relative to the repository root"));
    }
    var segments: seq<string> := [];
    var pieces := Split(unified, "/");
    for i := 0 to |pieces|
      invariant Resolve(pieces[i..], segments) == Resolve(pieces, [])
    {
      assert pieces[i..][0] == pieces[i] && pieces[i..][1..] == pieces[i + 1..];
      if pieces[i] == "" || pieces[i] == "." {
      } else if pieces[i] == ".." {
        if segments == [] {
          return Err(InvalidRelPath("escapes the repository root"));
        }
        segments := segments[..|segments| - 1];
      } else {
        segments := segments + [pieces[i]];
      }
    }
    if segments == [] {
      return Err(InvalidRelPath("must name a path below the repository root"));
    }
    return Ok(Join(segments, "/"));
  }

  predicate IsNormalSegment(segment: string)
  {
    segment != "" && segment != "." && segment != ".." && '/' !in segment && '\\' !in segment && '\0' !in segment
  }

  /** A path that `RelPath::new` may return. */
  ghost predicate IsRelPath(path: string)
  {
    exists segments :: IsNormal(segments) && path == Join(segments, "/")
  }

  predicate IsNormal(segments: seq<string>)
  {
    segments != [] && forall i :: 0 <= i < |segments| ==> IsNormalSegment(segments[i])
  }

  lemma {:induction false} ResolveNormal(segments: seq<string>, stack: seq<string>)
    requires forall i :: 0 <= i < |segments| ==> IsNormalSegment(segments[i])
    ensures Resolve(segments, stack) == Some(stack + segments)
  {
    if segments == [] {
      assert stack + segments == stack;
    } else {
      ResolveNormal(segments[1..], stack + [segments[0]]);
      assert stack + [segments[0]] + segments[1..] == stack + segments;
    }
  }

  predicate IsPlain(segment: string)
  {
    '/' !in segment && '\\' !in segment && '\0' !in segment
  }

  lemma {:induction false} SplitPlain(s: string)
    requires '\\' !in s && '\0' !in s
    ensures forall i :: 0 <= i < |Split(s, "/")| ==> IsPlain(Split(s, "/")[i])
    decreases |s|
  {
    var at := Find(s, "/");
    FindSkips(s, "/");
    if at.Some? {
      SplitPlain(s[at.value + 1..]);
    }
  }

  lemma {:induction false} FindSkips(s: string, sep: string)
    requires |sep| == 1
    ensures Find(s, sep).None? ==> sep[0] !in s
    ensures Find(s, sep).Some? ==> sep[0] !in s[..Find(s, sep).value]
  {
    if !(sep <= s) && s != [] {
      FindSkips(s[1..], sep);
      assert sep == [sep[0]] && s == [s[0]] + s[1..];
    }
  }

  lemma {:induction false} ResolvedIsNormal(segments: seq<string>, stack: seq<string>)
    requires forall i :: 0 <= i < |segments| ==> IsPlain(segments[i])
    requires forall i :: 0 <= i < |stack| ==> IsNormalSegment(stack[i])
    ensures Resolve(segments, stack).Some? ==> forall i :: 0 <= i < |Resolve(segments, stack).value| ==>
              IsNormalSegment(Resolve(segments, stack).value[i])
  {
    if segments != [] {
      if segments[0] == "" || segments[0] == "." {
        ResolvedIsNormal(segments[1..], stack);
      } else if segments[0] == ".." {
        if stack != [] {
          ResolvedIsNormal(segments[1..], stack[..|stack| - 1]);
        }
      } else {
        ResolvedIsNormal(segments[1..], stack + [segments[0]]);
      }
    }
  }

  /** Whatever `RelPath::new` returns is normal: no empty, `.` or `..` segment, no backslash, no NUL. */
  lemma NewPathsAreNormal(input: string)
    requires RelPathOf(input).Ok?
    ensures IsRelPath(RelPathOf(input).value)
  {
    var unified := Unified(input);
    SplitPlain(unified);
    ResolvedIsNormal(Split(unified, "/"), []);
  }

  /** Reading a path back gives the path again, unless it has come to look like a drive. */
  lemma ReparsesExactlyWhen(path: string)
    requires IsRelPath(path)
    ensures RelPathOf(path) == Ok(path) <==> !HasDrivePrefix(path)
  {
    var segments :| IsNormal(segments) && path == Join(segments, "/");
    JoinPlain(segments);
    assert Unified(path) == path;
    SplitJoin(segments, "/");
    ResolveNormal(segments, []);
    assert [] + segments == segments;
  }

  lemma {:induction false} JoinPlain(segments: seq<string>)
    requires IsNormal(segments)
    ensures var path := Join(segments, "/"); '\\' !in path && '\0' !in path && path != [] && path[0] != '/'
  {
    JoinChars(segments, "/", '\\');
    JoinChars(segments, "/", '\0');
  }

  lemma LeadingDot(segments: seq<string>)
    requires IsNormal(segments) && HasDrivePrefix(Join(segments, "/"))
    ensures RelPathOf("./" + Join(segments, "/")) == Ok(Join(segments, "/")) && RelPathOf(Join(segments, "/")).Err?
  {
    var path := Join(segments, "/");
    JoinPlain(segments);
    var dotted := ["."] + segments;
    assert dotted[1..] == segments;
    assert Join(dotted, "/") == "./" + path;
    assert Unified("./" + path) == "./" + path;
    assert Unified(path) == path;
    SplitJoin(dotted, "/");
    ResolveNormal(segments, []);
    assert [] + segments == segments;
  }

  /** It can: a `.` segment hides a drive letter from the first check. */
  lemma DriveCanAppear()
    ensures RelPathOf("./C:/x") == Ok("C:/x") && RelPathOf("C:/x").Err?
  {
    assert ["C:", "x"][1..] == ["x"];
    assert Join(["C:", "x"], "/") == "C:" + "/" + "x" == "C:/x";
    LeadingDot(["C:", "x"]);
    assert "./" + "C:/x" == "./C:/x";
  }
}

/** The string splitting the key grammar uses: `split`, `split_once`, `rsplit_once`, and joining. */
module Splitting {
  import opened Wrappers

  /** The first place where `sep` occurs. */
  function Find(s: string, sep: string): (r: Option<nat>)
    ensures r.Some? ==> r.value + |sep| <= |s|
  {
    if sep <= s then Some(0)
    else if s == [] then None
    else
      var later := Find(s[1..], sep);
      if later.Some? then Some(later.value + 1) else None
  }

  function SplitOnce(s: string, sep: string): Option<(string, string)>
  {
    var at := Find(s, sep);
    if at.Some? then Some((s[..at.value], s[at.value + |sep|..])) else None
  }

  function Split(s: string, sep: string): seq<string>
    requires sep != []
    decreases |s|
  {
    match Find(s, sep)
    case None => [s]
    case Some(at) => [s[..at]] + Split(s[at + |sep|..], sep)
  }

  function RSplitOnce(s: string, c: char): Option<(string, string)>
  {
    if s == [] then None
    else if s[|s| - 1] == c then Some((s[..|s| - 1], []))
    else
      match RSplitOnce(s[..|s| - 1], c)
      case None => None
      case Some((body, tail)) => Some((body, tail + [s[|s| - 1]]))
  }

  function Join(parts: seq<string>, sep: string): string
  {
    if parts == [] then []
    else if |parts| == 1 then parts[0]
    else parts[0] + sep + Join(parts[1..], sep)
  }

  lemma {:induction false} FindFirst(a: string, sep: string, b: string)
    requires sep != [] && sep[0] !in a
    ensures Find(a + sep + b, sep) == Some(|a|)
  {
    var s := a + sep + b;
    if a == [] {
      assert s == sep + b;
    } else {
      assert s[0] == a[0];
      assert s[1..] == a[1..] + sep + b;
      FindFirst(a[1..], sep, b);
    }
  }

  lemma {:induction false} FindNone(s: string, sep: string)
    requires sep != [] && sep[0] !in s
    ensures Find(s, sep) == None
  {
    if s != [] {
      FindNone(s[1..], sep);
    }
  }

  lemma SplitOnceFirst(a: string, sep: string, b: string)
    requires sep != [] && sep[0] !in a
    ensures SplitOnce(a + sep + b, sep) == Some((a, b))
  {
    FindFirst(a, sep, b);
    assert (a + sep + b)[..|a|] == a;
    assert (a + sep + b)[|a| + |sep|..] == b;
  }

  lemma {:induction false} SplitJoin(parts: seq<string>, sep: string)
    requires sep != [] && parts != [] && forall i :: 0 <= i < |parts| ==> sep[0] !in parts[i]
    ensures Split(Join(parts, sep), sep) == parts
  {
    if |parts| == 1 {
      FindNone(parts[0], sep);
    } else {
      var rest := Join(parts[1..], sep);
      var s := parts[0] + sep + rest;
      FindFirst(parts[0], sep, rest);
      assert s[..|parts[0]|] == parts[0];
      assert s[|parts[0]| + |sep|..] == rest;
      SplitJoin(parts[1..], sep);
    }
  }

  lemma {:induction false} RSplitOnceLast(a: string, c: char, b: string)
    requires c !in b
    ensures RSplitOnce(a + [c] + b, c) == Some((a, b))
  {
    var s := a + [c] + b;
    if b == [] {
      assert s[..|s| - 1] == a;
    } else {
      assert s[|s| - 1] == b[|b| - 1];
      assert s[..|s| - 1] == a + [c] + b[..|b| - 1];
      RSplitOnceLast(a, c, b[..|b| - 1]);
      assert b == b[..|b| - 1] + [b[|b| - 1]];
    }
  }

  lemma {:induction false} RSplitOnceNone(s: string, c: char)
    requires c !in s
    ensures RSplitOnce(s, c) == None
  {
    if s != [] {
      RSplitOnceNone(s[..|s| - 1], c);
    }
  }

  /** A character of a joined string is in one of the parts or in the separator. */
  lemma {:induction false} JoinChars(parts: seq<string>, sep: string, c: char)
    requires forall i :: 0 <= i < |parts| ==> c !in parts[i]
    requires c !in sep
    ensures c !in Join(parts, sep)
  {
    if |parts| > 1 {
      JoinChars(parts[1..], sep, c);
    }
  }

  lemma {:induction false} JoinNonEmpty(parts: seq<string>, sep: string)
    requires forall i :: 0 <= i < |parts| ==> parts[i] != []
    ensures Join(parts, sep) == [] <==> parts == []
  {
    if |parts| > 1 {
      JoinNonEmpty(parts[1..], sep);
    }
  }
}

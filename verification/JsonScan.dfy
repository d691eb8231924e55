/**
 Finding the parts of a JSON text (crates/atlas-cli/src/json_edit.rs): hand-written scanners that skip white
 space, strings, brackets and literals by index. A document is modelled as the tree of everything its text
 holds, white space included, so that the tree spells the text exactly; on such a text the scanners find the
 members of an object and the ends of their values.
 */
module JsonScan {
  import opened Wrappers
  import opened WhiteSpace
  import opened JsonStrings

  predicate Blank(s: string) { forall i :: 0 <= i < |s| ==> IsSpace(s[i]) }

  // ----- documents

  /** A value with all of its text. `inner` is what an empty array or object holds. */
  datatype Json =
    | Str(body: string)
    | Atom(token: string)
    | Array(inner: string, items: seq<Item>)
    | Object(inner: string, members: seq<Member>)

  datatype Item = Item(lead: string, value: Json, trail: string)

  datatype Member = Member(lead: string, key: string, beforeColon: string, afterColon: string, value: Json,
                           trail: string)

  function Flat(j: Json): string
    decreases j
  {
    match j
    case Str(body) => Quoted(body)
    case Atom(token) => token
    case Array(inner, items) => "[" + InsideArray(inner, items) + "]"
    case Object(inner, members) => "{" + InsideObject(inner, members) + "}"
  }

  function InsideArray(inner: string, items: seq<Item>): string
    decreases items, 1
  {
    if items == [] then inner else FlatItems(items)
  }

  function InsideObject(inner: string, members: seq<Member>): string
    decreases members, 1
  {
    if members == [] then inner else FlatMembers(members)
  }

  function FlatItem(item: Item): string
    decreases item
  {
    item.lead + Flat(item.value) + item.trail
  }

  function FlatItems(items: seq<Item>): string
    requires items != []
    decreases items, 0
  {
    if |items| == 1 then FlatItem(items[0]) else FlatItem(items[0]) + "," + FlatItems(items[1..])
  }

  /** A member up to its value. */
  function Head(m: Member): string { m.lead + Quoted(m.key) + m.beforeColon + ":" + m.afterColon }

  function FlatMember(m: Member): string
    decreases m
  {
    Head(m) + Flat(m.value) + m.trail
  }

  function FlatMembers(members: seq<Member>): string
    requires members != []
    decreases members, 0
  {
    if |members| == 1 then FlatMember(members[0]) else FlatMember(members[0]) + "," + FlatMembers(members[1..])
  }

  predicate AtomChar(c: char) { !IsSpace(c) && c !in ",[]{}\"" }

  /** The tree spells a document: valid JSON, or more general only inside literals and string values. */
  predicate WellFormed(j: Json)
    decreases j
  {
    match j
    case Str(body) => IsBody(body)
    case Atom(token) => token != [] && forall i :: 0 <= i < |token| ==> AtomChar(token[i])
    case Array(inner, items) => Blank(inner) && WellFormedItems(items)
    case Object(inner, members) => Blank(inner) && WellFormedMembers(members)
  }

  predicate WellFormedItems(items: seq<Item>)
    decreases items
  {
    items == [] || (Blank(items[0].lead) && WellFormed(items[0].value) && Blank(items[0].trail)
                    && WellFormedItems(items[1..]))
  }

  predicate WellFormedMember(m: Member)
    decreases m
  {
    && Blank(m.lead) && Unescape(m.key).Some? && Blank(m.beforeColon) && Blank(m.afterColon)
    && WellFormed(m.value) && Blank(m.trail)
  }

  predicate WellFormedMembers(members: seq<Member>)
    decreases members
  {
    members == [] || (WellFormedMember(members[0]) && WellFormedMembers(members[1..]))
  }

  // ----- parts of a text

  /** `s` stands in `text` at `at`. */
  predicate Holds(text: string, at: nat, s: string)
  {
    at + |s| <= |text| && text[at..at + |s|] == s
  }

  lemma HoldsBoth(text: string, at: nat, a: string, b: string)
    ensures Holds(text, at, a + b) <==> Holds(text, at, a) && Holds(text, at + |a|, b)
  {
    if at + |a| + |b| <= |text| {
      var s := text[at..at + |a| + |b|];
      assert s[..|a|] == text[at..at + |a|] && s[|a|..] == text[at + |a|..at + |a| + |b|];
      assert s == s[..|a|] + s[|a|..];
      assert (a + b)[..|a|] == a && (a + b)[|a|..] == b;
    }
  }

  lemma HoldsChar(text: string, at: nat, s: string, i: nat)
    requires Holds(text, at, s) && i < |s|
    ensures text[at + i] == s[i]
  {
    assert text[at..at + |s|][i] == text[at + i];
  }

  // ----- skipping white space

  /** `skip_ws`, where it does not panic. */
  function SkipSpace(text: string, from: nat): (to: nat)
    requires from <= |text|
    ensures from <= to <= |text|
    decreases |text| - from
  {
    if from < |text| && IsSpace(text[from]) then SkipSpace(text, from + 1) else from
  }

  lemma {:induction false} SkipsBlank(text: string, from: nat, space: string)
    requires Holds(text, from, space) && Blank(space)
    requires from + |space| < |text| && !IsSpace(text[from + |space|])
    ensures SkipSpace(text, from) == from + |space|
    decreases |space|
  {
    if space != [] {
      HoldsChar(text, from, space, 0);
      HoldsBoth(text, from, space[..1], space[1..]);
      assert space == space[..1] + space[1..];
      SkipsBlank(text, from + 1, space[1..]);
    }
  }

  // ----- strings

  /** Where the string whose text after the opening quote starts at `i` ends; past the text when it never does. */
  function StringEnd(text: string, i: nat): (end: nat)
    ensures i <= end
    decreases |text| - i
  {
    if i >= |text| then i
    else if text[i] == '\\' then StringEnd(text, i + 2)
    else if text[i] == '"' then i + 1
    else StringEnd(text, i + 1)
  }

  /** `scan_string`. */
  method ScanString(text: string, start: nat) returns (end: nat)
    ensures end == StringEnd(text, start + 1)
  {
    var index := start + 1;
    while index < |text|
      invariant StringEnd(text, index) == StringEnd(text, start + 1)
    {
      if text[index] == '\\' {
        index := index + 2;
      } else if text[index] == '"' {
        return index + 1;
      } else {
        index := index + 1;
      }
    }
    end := index;
  }

  lemma {:induction false} StringEnds(text: string, i: nat, body: string)
    requires IsBody(body) && Holds(text, i, body + "\"")
    ensures StringEnd(text, i) == i + |body| + 1
    decreases |body|
  {
    var s := body + "\"";
    HoldsChar(text, i, s, 0);
    if body != [] {
      var n := if body[0] == '\\' then 2 else 1;
      assert s == s[..n] + s[n..];
      HoldsBoth(text, i, s[..n], s[n..]);
      assert s[n..] == body[n..] + "\"";
      StringEnds(text, i + n, body[n..]);
    }
  }

  lemma QuotedEnds(text: string, i: nat, body: string)
    requires IsBody(body) && Holds(text, i, Quoted(body))
    ensures i < |text| && text[i] == '"' && StringEnd(text, i + 1) == i + |body| + 2
  {
    HoldsChar(text, i, Quoted(body), 0);
    assert Quoted(body) == "\"" + (body + "\"");
    HoldsBoth(text, i, "\"", body + "\"");
    StringEnds(text, i + 1, body);
  }

  // ----- brackets

  /** From inside `depth` brackets, where the outermost one closes; past the text when it never does. */
  function BracketEnd(text: string, i: nat, depth: nat): (end: nat)
    ensures i <= end
    decreases |text| - i
  {
    if i >= |text| then i
    else if text[i] == '"' then BracketEnd(text, StringEnd(text, i + 1), depth)
    else if text[i] == '{' || text[i] == '[' then BracketEnd(text, i + 1, depth + 1)
    else if text[i] == '}' || text[i] == ']' then (if depth <= 1 then i + 1 else BracketEnd(text, i + 1, depth - 1))
    else BracketEnd(text, i + 1, depth)
  }

  /** The bracket loop of `scan_value`; the depth it counts down is never zero. */
  method ScanBrackets(text: string, start: nat) returns (end: nat)
    requires start < |text| && (text[start] == '{' || text[start] == '[')
    ensures end == BracketEnd(text, start, 0)
  {
    var depth: nat := 0;
    var index := start;
    while index < |text|
      invariant BracketEnd(text, index, depth) == BracketEnd(text, start, 0)
      invariant start <= index && (depth == 0 ==> index == start)
      decreases |text| - index
    {
      var c := text[index];
      if c == '"' {
        index := ScanString(text, index);
        continue;
      } else if c == '{' || c == '[' {
        depth := depth + 1;
      } else if c == '}' || c == ']' {
        depth := depth - 1;
        if depth == 0 {
          return index + 1;
        }
      }
      index := index + 1;
    }
    end := index;
  }

  /** Text without quotes and brackets is passed over. */
  lemma {:induction false} PassesPlain(text: string, i: nat, s: string, depth: nat)
    requires Holds(text, i, s) && forall k :: 0 <= k < |s| ==> s[k] !in "[]{}\""
    ensures BracketEnd(text, i, depth) == BracketEnd(text, i + |s|, depth)
    decreases |s|
  {
    if s != [] {
      HoldsChar(text, i, s, 0);
      assert s == s[..1] + s[1..];
      HoldsBoth(text, i, s[..1], s[1..]);
      PassesPlain(text, i + 1, s[1..], depth);
    }
  }

  lemma PassesBlank(text: string, i: nat, s: string, depth: nat)
    requires Holds(text, i, s) && Blank(s)
    ensures BracketEnd(text, i, depth) == BracketEnd(text, i + |s|, depth)
  {
    forall k | 0 <= k < |s| ensures s[k] !in "[]{}\"" {
      assert IsSpace(s[k]);
    }
    PassesPlain(text, i, s, depth);
  }

  lemma PassesString(text: string, i: nat, body: string, depth: nat)
    requires Holds(text, i, Quoted(body)) && IsBody(body)
    ensures BracketEnd(text, i, depth) == BracketEnd(text, i + |body| + 2, depth)
  {
    QuotedEnds(text, i, body);
  }

  /** Inside brackets, a value is passed over as a whole. */
  lemma {:induction false} PassesValue(text: string, i: nat, j: Json, depth: nat)
    requires Holds(text, i, Flat(j)) && WellFormed(j) && depth > 0
    ensures BracketEnd(text, i, depth) == BracketEnd(text, i + |Flat(j)|, depth)
    decreases j, 0
  {
    match j
    case Str(body) =>
      PassesString(text, i, body, depth);
    case Atom(token) =>
      PassesPlain(text, i, token, depth);
    case Array(inner, items) =>
      OpensAndCloses(text, i, "[", InsideArray(inner, items), "]", depth);
      PassesInsideArray(text, i + 1, inner, items, depth + 1);
    case Object(inner, members) =>
      OpensAndCloses(text, i, "{", InsideObject(inner, members), "}", depth);
      PassesInsideObject(text, i + 1, inner, members, depth + 1);
  }

  lemma PassesInsideArray(text: string, i: nat, inner: string, items: seq<Item>, depth: nat)
    requires Holds(text, i, InsideArray(inner, items)) && Blank(inner) && WellFormedItems(items) && depth > 0
    ensures BracketEnd(text, i, depth) == BracketEnd(text, i + |InsideArray(inner, items)|, depth)
    decreases items, 1
  {
    if items == [] {
      PassesBlank(text, i, inner, depth);
    } else {
      PassesItems(text, i, items, depth);
    }
  }

  lemma PassesInsideObject(text: string, i: nat, inner: string, members: seq<Member>, depth: nat)
    requires Holds(text, i, InsideObject(inner, members)) && Blank(inner) && WellFormedMembers(members) && depth > 0
    ensures BracketEnd(text, i, depth) == BracketEnd(text, i + |InsideObject(inner, members)|, depth)
    decreases members, 1
  {
    if members == [] {
      PassesBlank(text, i, inner, depth);
    } else {
      PassesMembers(text, i, members, depth);
    }
  }

  lemma OpensAndCloses(text: string, i: nat, open: string, content: string, close: string, depth: nat)
    requires (open == "[" || open == "{") && (close == "]" || close == "}") && Holds(text, i, open + content + close)
    ensures Holds(text, i + 1, content) && BracketEnd(text, i, depth) == BracketEnd(text, i + 1, depth + 1)
    ensures i + 1 + |content| < |text|
    ensures BracketEnd(text, i + 1 + |content|, depth + 1) ==
            if depth == 0 then i + |content| + 2 else BracketEnd(text, i + |content| + 2, depth)
  {
    HoldsBoth(text, i, open + content, close);
    HoldsBoth(text, i, open, content);
    HoldsChar(text, i, open, 0);
    HoldsChar(text, i + 1 + |content|, close, 0);
  }

  lemma FirstItem(text: string, i: nat, items: seq<Item>, comma: nat)
    requires |items| > 1 && Holds(text, i, FlatItems(items)) && comma == i + |FlatItem(items[0])|
    ensures Holds(text, i, FlatItem(items[0])) && Holds(text, comma, ",")
    ensures Holds(text, comma + 1, FlatItems(items[1..]))
    ensures i + |FlatItems(items)| == comma + 1 + |FlatItems(items[1..])|
  {
    HoldsBoth(text, i, FlatItem(items[0]) + ",", FlatItems(items[1..]));
    HoldsBoth(text, i, FlatItem(items[0]), ",");
  }

  lemma {:induction false} PassesItems(text: string, i: nat, items: seq<Item>, depth: nat)
    requires items != [] && Holds(text, i, FlatItems(items)) && WellFormedItems(items) && depth > 0
    ensures BracketEnd(text, i, depth) == BracketEnd(text, i + |FlatItems(items)|, depth)
    decreases items, 0
  {
    if |items| == 1 {
      PassesItem(text, i, items[0], depth);
    } else {
      var comma := i + |FlatItem(items[0])|;
      FirstItem(text, i, items, comma);
      PassesItem(text, i, items[0], depth);
      PassesPlain(text, comma, ",", depth);
      PassesItems(text, comma + 1, items[1..], depth);
    }
  }

  lemma PassesItem(text: string, i: nat, item: Item, depth: nat)
    requires Holds(text, i, FlatItem(item)) && depth > 0
    requires Blank(item.lead) && WellFormed(item.value) && Blank(item.trail)
    ensures BracketEnd(text, i, depth) == BracketEnd(text, i + |FlatItem(item)|, depth)
    decreases item, 1
  {
    HoldsBoth(text, i, item.lead + Flat(item.value), item.trail);
    HoldsBoth(text, i, item.lead, Flat(item.value));
    PassesBlank(text, i, item.lead, depth);
    PassesValue(text, i + |item.lead|, item.value, depth);
    PassesBlank(text, i + |item.lead| + |Flat(item.value)|, item.trail, depth);
  }

  lemma {:induction false} PassesMembers(text: string, i: nat, members: seq<Member>, depth: nat)
    requires members != [] && Holds(text, i, FlatMembers(members)) && WellFormedMembers(members) && depth > 0
    ensures BracketEnd(text, i, depth) == BracketEnd(text, i + |FlatMembers(members)|, depth)
    decreases members, 0
  {
    if |members| == 1 {
      PassesMember(text, i, members[0], depth);
    } else {
      HoldsBoth(text, i, FlatMember(members[0]) + ",", FlatMembers(members[1..]));
      HoldsBoth(text, i, FlatMember(members[0]), ",");
      PassesMember(text, i, members[0], depth);
      PassesPlain(text, i + |FlatMember(members[0])|, ",", depth);
      PassesMembers(text, i + |FlatMember(members[0])| + 1, members[1..], depth);
    }
  }

  lemma HoldsFive(text: string, i: nat, a: string, b: string, c: string, d: string, e: string)
    requires Holds(text, i, a + b + c + d + e)
    ensures Holds(text, i, a) && Holds(text, i + |a|, b) && Holds(text, i + |a| + |b|, c)
    ensures Holds(text, i + |a| + |b| + |c|, d) && Holds(text, i + |a| + |b| + |c| + |d|, e)
  {
    HoldsBoth(text, i, a + b + c + d, e);
    HoldsBoth(text, i, a + b + c, d);
    HoldsBoth(text, i, a + b, c);
    HoldsBoth(text, i, a, b);
  }

  function Quoted(key: string): string { "\"" + key + "\"" }

  /** The parts of a head, from its key at `key` to its end. */
  lemma HeadParts(text: string, i: nat, m: Member, key: nat, before: nat, end: nat)
    requires Holds(text, i, Head(m)) && key == i + |m.lead| && before == key + |m.key| + 2 && end == i + |Head(m)|
    ensures Holds(text, i, m.lead) && Holds(text, key, Quoted(m.key))
    ensures Holds(text, before, m.beforeColon) && Holds(text, before + |m.beforeColon|, ":")
    ensures Holds(text, before + |m.beforeColon| + 1, m.afterColon)
    ensures end == before + |m.beforeColon| + 1 + |m.afterColon|
  {
    HoldsFive(text, i, m.lead, Quoted(m.key), m.beforeColon, ":", m.afterColon);
  }

  lemma MemberParts(text: string, i: nat, m: Member)
    requires Holds(text, i, FlatMember(m))
    ensures Holds(text, i, Head(m)) && Holds(text, i + |Head(m)|, Flat(m.value))
    ensures Holds(text, i + |Head(m)| + |Flat(m.value)|, m.trail)
  {
    HoldsBoth(text, i, Head(m) + Flat(m.value), m.trail);
    HoldsBoth(text, i, Head(m), Flat(m.value));
  }

  lemma PassesBlankTo(text: string, i: nat, s: string, end: nat, depth: nat)
    requires Holds(text, i, s) && Blank(s) && end == i + |s|
    ensures BracketEnd(text, i, depth) == BracketEnd(text, end, depth)
  {
    PassesBlank(text, i, s, depth);
  }

  lemma PassesStringTo(text: string, i: nat, body: string, end: nat, depth: nat)
    requires Holds(text, i, Quoted(body)) && IsBody(body) && end == i + |body| + 2
    ensures BracketEnd(text, i, depth) == BracketEnd(text, end, depth)
  {
    PassesString(text, i, body, depth);
  }

  lemma PassesOneColon(text: string, i: nat, depth: nat)
    requires Holds(text, i, ":")
    ensures BracketEnd(text, i, depth) == BracketEnd(text, i + 1, depth)
  {
    HoldsChar(text, i, ":", 0);
  }

  lemma PassesKey(text: string, i: nat, lead: string, key: string, end: nat, depth: nat)
    requires Holds(text, i, lead) && Holds(text, i + |lead|, Quoted(key)) && Blank(lead) && IsBody(key)
    requires end == i + |lead| + |key| + 2
    ensures BracketEnd(text, i, depth) == BracketEnd(text, end, depth)
  {
    var k := i + |lead|;
    PassesBlankTo(text, i, lead, k, depth);
    PassesStringTo(text, k, key, end, depth);
  }

  lemma PassesColon(text: string, i: nat, before: string, after: string, end: nat, depth: nat)
    requires Holds(text, i, before) && Holds(text, i + |before|, ":") && Holds(text, i + |before| + 1, after)
    requires Blank(before) && Blank(after) && end == i + |before| + 1 + |after|
    ensures BracketEnd(text, i, depth) == BracketEnd(text, end, depth)
  {
    var colon := i + |before|;
    PassesBlankTo(text, i, before, colon, depth);
    PassesOneColon(text, colon, depth);
    PassesBlankTo(text, colon + 1, after, end, depth);
  }

  lemma PassesHead(text: string, i: nat, m: Member, end: nat, depth: nat)
    requires Holds(text, i, Head(m)) && Blank(m.lead) && Unescape(m.key).Some? && Blank(m.beforeColon)
             && Blank(m.afterColon)
    requires end == i + |Head(m)|
    ensures BracketEnd(text, i, depth) == BracketEnd(text, end, depth)
  {
    var key, before := i + |m.lead|, i + |m.lead| + |m.key| + 2;
    HeadParts(text, i, m, key, before, end);
    ReadableIsBody(m.key);
    PassesKey(text, i, m.lead, m.key, before, depth);
    PassesColon(text, before, m.beforeColon, m.afterColon, end, depth);
  }

  lemma PassesMember(text: string, i: nat, m: Member, depth: nat)
    requires Holds(text, i, FlatMember(m)) && depth > 0 && WellFormedMember(m)
    ensures BracketEnd(text, i, depth) == BracketEnd(text, i + |FlatMember(m)|, depth)
    decreases m, 1
  {
    MemberParts(text, i, m);
    PassesHead(text, i, m, i + |Head(m)|, depth);
    PassesValue(text, i + |Head(m)|, m.value, depth);
    PassesBlank(text, i + |Head(m)| + |Flat(m.value)|, m.trail, depth);
  }

  // ----- values

  predicate EndsLiteral(c: char) { c == ',' || c == '}' || c == ']' || IsSpace(c) }

  function LiteralEnd(text: string, i: nat): (end: nat)
    requires i <= |text|
    ensures i <= end <= |text|
    decreases |text| - i
  {
    if i < |text| && !EndsLiteral(text[i]) then LiteralEnd(text, i + 1) else i
  }

  function ValueEnd(text: string, start: nat): (end: nat)
    requires start < |text|
    ensures start <= end
  {
    if text[start] == '"' then StringEnd(text, start + 1)
    else if text[start] == '{' || text[start] == '[' then BracketEnd(text, start, 0)
    else LiteralEnd(text, start)
  }

  /** `scan_value`. */
  method ScanValue(text: string, start: nat) returns (end: nat)
    requires start < |text|
    ensures end == ValueEnd(text, start)
  {
    if text[start] == '"' {
      end := ScanString(text, start);
    } else if text[start] == '{' || text[start] == '[' {
      end := ScanBrackets(text, start);
    } else {
      end := LiteralEnd(text, start);
    }
  }

  lemma {:induction false} LiteralEnds(text: string, i: nat, token: string)
    requires Holds(text, i, token) && forall k :: 0 <= k < |token| ==> AtomChar(token[k])
    requires i + |token| < |text| ==> EndsLiteral(text[i + |token|])
    ensures LiteralEnd(text, i) == i + |token|
    decreases |token|
  {
    if token != [] {
      HoldsChar(text, i, token, 0);
      assert AtomChar(token[0]);
      assert token == token[..1] + token[1..];
      HoldsBoth(text, i, token[..1], token[1..]);
      LiteralEnds(text, i + 1, token[1..]);
    }
  }

  /** The first character of a value: the tree's kind decides what the scanner does. */
  lemma FirstOfValue(text: string, i: nat, j: Json)
    requires Holds(text, i, Flat(j)) && WellFormed(j)
    ensures i < |text| && !IsSpace(text[i])
    ensures text[i] == '"' <==> j.Str?
    ensures text[i] == '{' <==> j.Object?
    ensures text[i] == '[' <==> j.Array?
  {
    HoldsChar(text, i, Flat(j), 0);
    if j.Atom? {
      assert AtomChar(j.token[0]);
    }
  }

  /** The scanner finds the end of a value, and only a literal needs what follows it. */
  lemma FindsValueEnd(text: string, i: nat, j: Json)
    requires Holds(text, i, Flat(j)) && WellFormed(j)
    requires j.Atom? && i + |Flat(j)| < |text| ==> EndsLiteral(text[i + |Flat(j)|])
    ensures i < |text| && ValueEnd(text, i) == i + |Flat(j)|
  {
    FirstOfValue(text, i, j);
    match j
    case Str(body) =>
      QuotedEnds(text, i, body);
    case Atom(token) =>
      LiteralEnds(text, i, token);
    case Array(inner, items) =>
      OpensAndCloses(text, i, "[", InsideArray(inner, items), "]", 0);
      PassesInsideArray(text, i + 1, inner, items, 1);
    case Object(inner, members) =>
      OpensAndCloses(text, i, "{", InsideObject(inner, members), "}", 0);
      PassesInsideObject(text, i + 1, inner, members, 1);
  }
}

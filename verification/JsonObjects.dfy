/**
 Reading one object of a JSON text (`scan_object`, crates/atlas-cli/src/json_edit.rs): the members it finds in the
 text of a document are the members of the document's object, at the places where they stand.
 */
module JsonObjects {
  import opened Wrappers
  import opened JsonStrings
  import opened WhiteSpace
  import opened JsonScan

  /** A member as the scanner finds it: `value` runs from `valueStart` to `valueEnd`. */
  datatype Found = Found(start: nat, key: string, indent: Option<string>, valueStart: nat, valueEnd: nat)

  /** `Panics` is an index or a slice past the end of a text that breaks off. */
  datatype Scan = Members(close: nat, found: seq<Found>) | Unsupported(reason: string) | Panics

  predicate IndentChar(c: char) { c == ' ' || c == '\t' }

  predicate Indentation(s: string) { forall i :: 0 <= i < |s| ==> IndentChar(s[i]) }

  /** What stands before `at` on its line, after an earlier newline. */
  function LineStart(text: string, at: nat): Option<nat>
    requires at <= |text|
    ensures LineStart(text, at).Some? ==> LineStart(text, at).value <= at
  {
    if at == 0 then None else if text[at - 1] == '\n' then Some(at) else LineStart(text, at - 1)
  }

  /** `line_indent`. */
  function LineIndent(text: string, at: nat): (r: Option<string>)
    requires at <= |text|
    ensures r.Some? ==> forall i :: 0 <= i < |r.value| ==> IndentChar(r.value[i])
  {
    match LineStart(text, at)
    case None => None
    case Some(start) => if forall i :: start <= i < at ==> IndentChar(text[i]) then Some(text[start..at]) else None
  }

  /** A quoted key as serde_json reads it. */
  function ReadKey(quoted: string): Option<string>
  {
    if |quoted| >= 2 && quoted[0] == '"' && quoted[|quoted| - 1] == '"' then Unescape(quoted[1..|quoted| - 1]) else None
  }

  datatype Read = Got(member: Found, after: nat) | Bad(reason: string) | Broken

  /**
   One turn of the loop of `scan_object`: the member whose key starts at `index`, and the first character after it.
   */
  function ReadMember(text: string, index: nat): (r: Read)
    requires index < |text| && text[index] == '"'
    ensures r.Got? ==> index == r.member.start < r.member.valueStart <= r.member.valueEnd <= r.after <= |text|
  {
    var keyEnd := StringEnd(text, index + 1);
    if keyEnd > |text| then Broken
    else
      var key := ReadKey(text[index..keyEnd]);
      if key.None? then Bad("unreadable key")
      else
        var colon := SkipSpace(text, keyEnd);
        if colon >= |text| then Broken
        else
          var valueStart := SkipSpace(text, colon + 1);
          if valueStart >= |text| then Broken
          else
            var valueEnd := ValueEnd(text, valueStart);
            if valueEnd > |text| then Broken
            else Got(Found(index, key.value, LineIndent(text, index), valueStart, valueEnd), SkipSpace(text, valueEnd))
  }

  /** Past the comma after a member, if there is one. */
  function AfterComma(text: string, after: nat): (next: nat)
    requires after <= |text|
    ensures after <= next <= |text|
  {
    if after < |text| && text[after] == ',' then SkipSpace(text, after + 1) else after
  }

  function Prepend(found: seq<Found>, scan: Scan): Scan
  {
    if scan.Members? then Members(scan.close, found + scan.found) else scan
  }

  /** The members from `index` on. */
  function ScanFrom(text: string, index: nat): (r: Scan)
    requires index <= |text|
    ensures r.Members? ==> index <= r.close < |text|
    ensures r.Members? ==> forall i :: 0 <= i < |r.found| ==>
      index <= r.found[i].start < r.found[i].valueStart <= r.found[i].valueEnd <= r.close
    decreases |text| - index
  {
    if index < |text| && text[index] == '"' then
      match ReadMember(text, index)
      case Bad(reason) => Unsupported(reason)
      case Broken => Panics
      case Got(member, after) => Prepend([member], ScanFrom(text, AfterComma(text, after)))
    else if index < |text| && text[index] == '}' then Members(index, [])
    else Unsupported("unexpected JSON structure")
  }

  function ObjectAt(text: string, open: nat): Scan
  {
    if open < |text| && text[open] == '{' then ScanFrom(text, SkipSpace(text, open + 1))
    else Unsupported("expected a JSON object")
  }

  /** `scan_object`. */
  method ScanObject(text: string, open: nat) returns (r: Scan)
    ensures r == ObjectAt(text, open)
  {
    if open >= |text| || text[open] != '{' {
      return Unsupported("expected a JSON object");
    }
    var found: seq<Found> := [];
    var index := SkipSpace(text, open + 1);
    while index < |text| && text[index] == '"'
      invariant index <= |text| && ObjectAt(text, open) == Prepend(found, ScanFrom(text, index))
      decreases |text| - index
    {
      ghost var before := found;
      match ReadMember(text, index) {
        case Bad(reason) =>
          return Unsupported(reason);
        case Broken =>
          return Panics;
        case Got(member, after) =>
          var next := AfterComma(text, after);
          found := found + [member];
          PrependTwice(before, member, ScanFrom(text, next));
          index := next;
      }
    }
    if index < |text| && text[index] == '}' {
      assert found + [] == found;
      return Members(index, found);
    }
    return Unsupported("unexpected JSON structure");
  }

  lemma PrependTwice(found: seq<Found>, member: Found, scan: Scan)
    ensures Prepend(found, Prepend([member], scan)) == Prepend(found + [member], scan)
  {
    if scan.Members? {
      assert found + ([member] + scan.found) == found + [member] + scan.found;
    }
  }

  // ----- on the text of a document

  function IndentAt(text: string, at: nat): Option<string> { if at <= |text| then LineIndent(text, at) else None }

  /** The key of a member, unescaped. */
  function Name(m: Member): string { if Unescape(m.key).Some? then Unescape(m.key).value else "" }

  /** The member of the document that begins at `at`, as the scanner finds it. */
  function SpanOf(text: string, m: Member, at: nat): Found
  {
    Found(at + |m.lead|, Name(m), IndentAt(text, at + |m.lead|), at + |Head(m)|, at + |Head(m)| + |Flat(m.value)|)
  }

  /** What can follow a member. */
  predicate AfterMember(text: string, at: nat) { at < |text| && (text[at] == ',' || text[at] == '}') }

  lemma BlankThen(text: string, from: nat, space: string)
    requires Holds(text, from, space) && Blank(space) && from + |space| < |text| && !IsSpace(text[from + |space|])
    ensures SkipSpace(text, from) == from + |space|
  {
    SkipsBlank(text, from, space);
  }

  lemma ReadsQuoted(key: string)
    ensures ReadKey(Quoted(key)) == Unescape(key)
  {
    assert Quoted(key)[1..|Quoted(key)| - 1] == key;
  }

  /** A key where it stands. */
  lemma FindsKey(text: string, k: nat, key: string, keyEnd: nat)
    requires Holds(text, k, Quoted(key)) && Unescape(key).Some? && keyEnd == k + |key| + 2
    ensures k < |text| && text[k] == '"' && StringEnd(text, k + 1) == keyEnd <= |text|
    ensures ReadKey(text[k..keyEnd]) == Unescape(key)
  {
    ReadableIsBody(key);
    QuotedEnds(text, k, key);
    assert |Quoted(key)| == |key| + 2;
    assert text[k..keyEnd] == Quoted(key);
    ReadsQuoted(key);
  }

  lemma FindsColon(text: string, at: nat, before: string, colon: nat, after: string, start: nat, value: Json)
    requires Holds(text, at, before) && Blank(before) && colon == at + |before| && Holds(text, colon, ":")
    requires Holds(text, colon + 1, after) && Blank(after) && start == colon + 1 + |after|
    requires Holds(text, start, Flat(value)) && WellFormed(value)
    ensures SkipSpace(text, at) == colon < |text|
    ensures SkipSpace(text, colon + 1) == start < |text|
  {
    HoldsChar(text, colon, ":", 0);
    BlankThen(text, at, before);
    FirstOfValue(text, start, value);
    BlankThen(text, colon + 1, after);
  }

  lemma FindsEnd(text: string, at: nat, value: Json, end: nat, trail: string, after: nat)
    requires Holds(text, at, Flat(value)) && WellFormed(value) && end == at + |Flat(value)|
    requires Holds(text, end, trail) && Blank(trail) && after == end + |trail| && AfterMember(text, after)
    ensures at < |text| && ValueEnd(text, at) == end <= |text| && SkipSpace(text, end) == after
  {
    if trail != [] {
      HoldsChar(text, end, trail, 0);
    }
    FindsValueEnd(text, at, value);
    BlankThen(text, end, trail);
  }

  lemma ReadInSteps(text: string, k: nat, keyEnd: nat, colon: nat, valueStart: nat, valueEnd: nat, after: nat,
                    key: string)
    requires k < |text| && text[k] == '"' && StringEnd(text, k + 1) == keyEnd <= |text|
             && ReadKey(text[k..keyEnd]) == Some(key)
    requires SkipSpace(text, keyEnd) == colon < |text| && SkipSpace(text, colon + 1) == valueStart < |text|
    requires ValueEnd(text, valueStart) == valueEnd <= |text| && SkipSpace(text, valueEnd) == after
    ensures ReadMember(text, k) == Got(Found(k, key, LineIndent(text, k), valueStart, valueEnd), after)
  {
  }

  lemma SpanIs(text: string, m: Member, at: nat, k: nat, valueStart: nat, valueEnd: nat)
    requires k == at + |m.lead| <= |text| && valueStart == at + |Head(m)| && valueEnd == valueStart + |Flat(m.value)|
    ensures SpanOf(text, m, at) == Found(k, Name(m), LineIndent(text, k), valueStart, valueEnd)
  {
  }

  /** The scanner reads a member of the document. */
  lemma ReadsMember(text: string, at: nat, m: Member, k: nat, end: nat)
    requires Holds(text, at, FlatMember(m)) && WellFormedMember(m)
    requires k == at + |m.lead| && end == at + |FlatMember(m)| && AfterMember(text, end)
    ensures k < |text| && text[k] == '"' && SkipSpace(text, at) == k
    ensures ReadMember(text, k) == Got(SpanOf(text, m, at), end)
  {
    var keyEnd := k + |m.key| + 2;
    var colon := keyEnd + |m.beforeColon|;
    var valueStart := at + |Head(m)|;
    var valueEnd := valueStart + |Flat(m.value)|;
    PartsOfMember(text, at, m, k, keyEnd, colon, valueStart, valueEnd);
    FindsKey(text, k, m.key, keyEnd);
    BlankThen(text, at, m.lead);
    FindsColon(text, keyEnd, m.beforeColon, colon, m.afterColon, valueStart, m.value);
    FindsEnd(text, valueStart, m.value, valueEnd, m.trail, end);
    ReadInSteps(text, k, keyEnd, colon, valueStart, valueEnd, end, Name(m));
    SpanIs(text, m, at, k, valueStart, valueEnd);
  }

  lemma PartsOfMember(text: string, at: nat, m: Member, k: nat, keyEnd: nat, colon: nat, valueStart: nat, valueEnd: nat)
    requires Holds(text, at, FlatMember(m))
    requires k == at + |m.lead| && keyEnd == k + |m.key| + 2 && colon == keyEnd + |m.beforeColon|
    requires valueStart == at + |Head(m)| && valueEnd == valueStart + |Flat(m.value)|
    ensures Holds(text, at, m.lead) && Holds(text, k, Quoted(m.key)) && Holds(text, keyEnd, m.beforeColon)
    ensures Holds(text, colon, ":") && Holds(text, colon + 1, m.afterColon) && valueStart == colon + 1 + |m.afterColon|
    ensures Holds(text, valueStart, Flat(m.value)) && Holds(text, valueEnd, m.trail)
    ensures at + |FlatMember(m)| == valueEnd + |m.trail|
  {
    MemberParts(text, at, m);
    HeadParts(text, at, m, k, keyEnd, valueStart);
  }

  function Spans(text: string, members: seq<Member>, at: nat): seq<Found>
  {
    if members == [] then []
    else [SpanOf(text, members[0], at)] + Spans(text, members[1..], at + |FlatMember(members[0])| + 1)
  }

  lemma FirstMember(text: string, at: nat, members: seq<Member>)
    requires |members| > 1 && Holds(text, at, FlatMembers(members))
    ensures Holds(text, at, FlatMember(members[0])) && Holds(text, at + |FlatMember(members[0])|, ",")
    ensures Holds(text, at + |FlatMember(members[0])| + 1, FlatMembers(members[1..]))
    ensures at + |FlatMember(members[0])| < |text| && text[at + |FlatMember(members[0])|] == ','
  {
    HoldsBoth(text, at, FlatMember(members[0]) + ",", FlatMembers(members[1..]));
    HoldsBoth(text, at, FlatMember(members[0]), ",");
    HoldsChar(text, at + |FlatMember(members[0])|, ",", 0);
  }

  lemma ScanStep(text: string, k: nat, member: Found, after: nat)
    requires k < |text| && text[k] == '"' && ReadMember(text, k) == Got(member, after)
    ensures ScanFrom(text, k) == Prepend([member], ScanFrom(text, AfterComma(text, after)))
  {
  }

  lemma ScansLast(text: string, at: nat, m: Member, end: nat)
    requires Holds(text, at, FlatMember(m)) && WellFormedMember(m) && end == at + |FlatMember(m)|
    requires end < |text| && text[end] == '}'
    ensures ScanFrom(text, SkipSpace(text, at)) == Members(end, [SpanOf(text, m, at)])
  {
    var k := at + |m.lead|;
    ReadsMember(text, at, m, k, end);
    ScanStep(text, k, SpanOf(text, m, at), end);
    assert ScanFrom(text, end) == Members(end, []);
  }

  lemma ScansNext(text: string, at: nat, m: Member, end: nat)
    requires Holds(text, at, FlatMember(m)) && WellFormedMember(m) && end == at + |FlatMember(m)|
    requires end < |text| && text[end] == ','
    ensures ScanFrom(text, SkipSpace(text, at)) ==
            Prepend([SpanOf(text, m, at)], ScanFrom(text, SkipSpace(text, end + 1)))
  {
    var k := at + |m.lead|;
    ReadsMember(text, at, m, k, end);
    ScanStep(text, k, SpanOf(text, m, at), end);
  }

  lemma SpansOne(text: string, members: seq<Member>, at: nat)
    requires |members| == 1
    ensures Spans(text, members, at) == [SpanOf(text, members[0], at)]
  {
    assert members[1..] == [];
  }

  lemma SpansCons(text: string, members: seq<Member>, at: nat, next: nat)
    requires members != [] && next == at + |FlatMember(members[0])| + 1
    ensures Spans(text, members, at) == [SpanOf(text, members[0], at)] + Spans(text, members[1..], next)
  {
  }

  /** The scanner reads all members of a document's object. */
  lemma {:induction false} ScansMembers(text: string, at: nat, members: seq<Member>, end: nat)
    requires members != [] && Holds(text, at, FlatMembers(members)) && WellFormedMembers(members)
    requires end == at + |FlatMembers(members)| && end < |text| && text[end] == '}'
    ensures ScanFrom(text, SkipSpace(text, at)) == Members(end, Spans(text, members, at))
    decreases |members|
  {
    var first := at + |FlatMember(members[0])|;
    if |members| == 1 {
      ScansLast(text, at, members[0], end);
      SpansOne(text, members, at);
    } else {
      FirstMember(text, at, members);
      ScansNext(text, at, members[0], first);
      ScansMembers(text, first + 1, members[1..], end);
      SpansCons(text, members, at, first + 1);
    }
  }

  /** The scanner finds exactly the members of a document's object, and its closing brace. */
  lemma ScansObject(text: string, at: nat, inner: string, members: seq<Member>)
    requires Holds(text, at, Flat(Object(inner, members))) && WellFormed(Object(inner, members))
    ensures members != [] ==> at + 1 + |FlatMembers(members)| <= |text|
    ensures ObjectAt(text, at) == Members(at + |Flat(Object(inner, members))| - 1, Spans(text, members, at + 1))
  {
    var end := at + |Flat(Object(inner, members))| - 1;
    ObjectParts(text, at, inner, members, InsideObject(inner, members), end);
    ScansInside(text, at + 1, inner, members, end);
  }

  lemma ObjectParts(text: string, at: nat, inner: string, members: seq<Member>, inside: string, end: int)
    requires Holds(text, at, Flat(Object(inner, members))) && inside == InsideObject(inner, members)
    requires end == at + |Flat(Object(inner, members))| - 1
    ensures Holds(text, at + 1, inside) && end == at + 1 + |inside| < |text| && text[at] == '{' && text[end] == '}'
  {
    HoldsBoth(text, at, "{" + inside, "}");
    HoldsBoth(text, at, "{", inside);
    HoldsChar(text, at, "{", 0);
    HoldsChar(text, at + 1 + |inside|, "}", 0);
  }

  lemma ScansInside(text: string, from: nat, inner: string, members: seq<Member>, end: nat)
    requires Holds(text, from, InsideObject(inner, members)) && WellFormed(Object(inner, members))
    requires end == from + |InsideObject(inner, members)| < |text| && text[end] == '}'
    ensures ScanFrom(text, SkipSpace(text, from)) == Members(end, Spans(text, members, from))
  {
    if members == [] {
      BlankThen(text, from, inner);
    } else {
      ScansMembers(text, from, members, end);
    }
  }
}

/**
 What the JSON edits do to a document: each splice of the text is the edit of the document's tree, so inserting a
 member and removing it again gives back the text byte for byte, unless an empty object held white space.
 */
module JsonRoundTrip {
  import opened Wrappers
  import opened JsonStrings
  import opened JsonScan
  import opened JsonObjects
  import opened JsonEdit

  // ----- text around a member

  /** Members, each followed by a comma. */
  function Commas(members: seq<Member>): string
  {
    if members == [] then "" else FlatMember(members[0]) + "," + Commas(members[1..])
  }

  /** Members, each preceded by a comma. */
  function Tail(members: seq<Member>): string
  {
    if members == [] then "" else "," + FlatMembers(members)
  }

  lemma Associate(a: string, b: string, c: string)
    ensures (a + b) + c == a + (b + c)
  {
  }

  lemma FlatCons(m: Member, rest: seq<Member>)
    ensures FlatMembers([m] + rest) == FlatMember(m) + Tail(rest)
  {
    var all := [m] + rest;
    assert all[1..] == rest;
    if rest != [] {
      Associate(FlatMember(m), ",", FlatMembers(rest));
    }
  }

  lemma {:induction false} FlatAround(a: seq<Member>, m: Member, b: seq<Member>)
    ensures FlatMembers(a + [m] + b) == Commas(a) + (FlatMember(m) + Tail(b))
  {
    if a == [] {
      assert a + [m] + b == [m] + b;
      FlatCons(m, b);
    } else {
      var rest := a[1..] + [m] + b;
      FlatAround(a[1..], m, b);
      assert a + [m] + b == [a[0]] + rest;
      FlatCons(a[0], rest);
      Associate(FlatMember(a[0]), ",", FlatMembers(rest));
      Associate(FlatMember(a[0]) + ",", Commas(a[1..]), FlatMember(m) + Tail(b));
    }
  }

  lemma {:induction false} CommasSnoc(a: seq<Member>, m: Member)
    ensures Commas(a + [m]) == Commas(a) + (FlatMember(m) + ",")
  {
    if a == [] {
      assert a + [m] == [m] && [m][1..] == [];
    } else {
      CommasSnoc(a[1..], m);
      assert (a + [m])[1..] == a[1..] + [m];
      Associate(FlatMember(a[0]) + ",", Commas(a[1..]), FlatMember(m) + ",");
    }
  }

  /** The members as the scanner finds them, one by one. */
  lemma {:induction false} SpansAt(text: string, members: seq<Member>, at: nat, i: nat, from: nat, found: seq<Found>)
    requires i < |members| == |found| && found == Spans(text, members, at) && from == at + |Commas(members[..i])|
    ensures found[i] == SpanOf(text, members[i], from)
    decreases |members|
  {
    var next := at + |FlatMember(members[0])| + 1;
    assert found == [SpanOf(text, members[0], at)] + Spans(text, members[1..], next);
    if i == 0 {
      assert members[..0] == [];
    } else {
      CommasFirst(members, i);
      SpansAt(text, members[1..], next, i - 1, from, found[1..]);
    }
  }

  lemma {:induction false} SpansLength(text: string, members: seq<Member>, at: nat)
    ensures |Spans(text, members, at)| == |members|
    decreases |members|
  {
    if members != [] {
      SpansLength(text, members[1..], at + |FlatMember(members[0])| + 1);
    }
  }

  lemma CommasFirst(members: seq<Member>, i: nat)
    requires 0 < i <= |members|
    ensures |Commas(members[..i])| == |FlatMember(members[0])| + 1 + |Commas(members[1..][..i - 1])|
  {
    assert members[..i][1..] == members[1..][..i - 1];
  }

  lemma {:induction false} KeysFound(text: string, members: seq<Member>, at: nat)
    ensures FoundKeys(Spans(text, members, at)) == KeysOf(members)
    decreases |members|
  {
    if members != [] {
      KeysFound(text, members[1..], at + |FlatMember(members[0])| + 1);
      assert KeysOf(members) == [Name(members[0])] + KeysOf(members[1..]);
    }
  }

  /** The text of an object up to the value of the member after `a`, and from that value on. */
  function Left(a: seq<Member>, m: Member): string { "{" + Commas(a) + Head(m) }

  function Right(m: Member, b: seq<Member>): string { m.trail + Tail(b) + "}" }

  lemma Regroup(open: string, commas: string, head: string, value: string, trail: string, tail: string, close: string)
    ensures open + (commas + ((head + value + trail) + tail)) + close ==
            (open + commas + head) + value + (trail + tail + close)
  {
  }

  lemma ObjectAround(inner: string, a: seq<Member>, m: Member, b: seq<Member>)
    ensures Flat(Object(inner, a + [m] + b)) == Left(a, m) + Flat(m.value) + Right(m, b)
  {
    FlatAround(a, m, b);
    assert InsideObject(inner, a + [m] + b) == FlatMembers(a + [m] + b);
    Regroup("{", Commas(a), Head(m), Flat(m.value), m.trail, Tail(b), "}");
  }

  lemma WithValue(m: Member, value: Json)
    ensures Head(m.(value := value)) == Head(m)
  {
  }

  // ----- splicing inside a part

  /** A splice inside a part of the text is a splice of the part. */
  lemma SpliceInside(text: string, at: nat, a: string, b: string, c: string, s: string, whole: string)
    requires whole == a + b + c && Holds(text, at, whole)
    ensures Splice(text, at + |a|, at + |a| + |b|, s) == Splice(text, at, at + |whole|, a + s + c)
  {
    HoldsBoth(text, at, a + b, c);
    HoldsBoth(text, at, a, b);
    assert text[..at + |a|] == text[..at] + a;
    assert text[at + |a| + |b|..] == c + text[at + |whole|..];
  }

  /** `out` is the text with the document at `at` replaced by another. */
  ghost predicate Puts(out: string, text: string, at: nat, j: Json, doc: Json)
  {
    at + |Flat(j)| <= |text| && out == Splice(text, at, at + |Flat(j)|, Flat(doc))
  }

  /** Replacing the middle of three parts of a document. */
  lemma PutsMiddle(text: string, at: nat, j: Json, doc: Json, a: string, b: string, c: string, s: string, from: nat,
                   to: nat)
    requires Holds(text, at, Flat(j)) && Flat(j) == a + b + c && Flat(doc) == a + s + c
    requires from == at + |a| && to == from + |b|
    ensures from <= to <= |text| && Puts(Splice(text, from, to, s), text, at, j, doc)
  {
    SpliceInside(text, at, a, b, c, s, Flat(j));
  }

  // ----- paths

  /** Each name of the path is the key of exactly one member, down to an object. */
  predicate Leads(j: Json, path: seq<string>)
    decreases |path|
  {
    && j.Object?
    && (path == [] ||
        (PlaceOf(KeysOf(j.members), path[0]).At?
         && Leads(j.members[PlaceOf(KeysOf(j.members), path[0]).index].value, path[1..])))
  }

  function Target(j: Json, path: seq<string>): (r: Json)
    requires Leads(j, path)
    ensures r.Object?
    decreases |path|
  {
    if path == [] then j else Target(j.members[PlaceOf(KeysOf(j.members), path[0]).index].value, path[1..])
  }

  /** The document with another object where the path leads. */
  function Replaced(j: Json, path: seq<string>, new': Json): Json
    requires Leads(j, path)
    decreases |path|
  {
    if path == [] then new'
    else
      var i := PlaceOf(KeysOf(j.members), path[0]).index;
      Object(j.inner, j.members[i := j.members[i].(value := Replaced(j.members[i].value, path[1..], new'))])
  }

  lemma {:induction false} MemberWellFormed(members: seq<Member>, i: nat)
    requires WellFormedMembers(members) && i < |members|
    ensures WellFormedMember(members[i])
  {
    if i > 0 {
      MemberWellFormed(members[1..], i - 1);
    }
  }

  lemma {:induction false} AllWellFormed(members: seq<Member>)
    requires forall i :: 0 <= i < |members| ==> WellFormedMember(members[i])
    ensures WellFormedMembers(members)
  {
    if members != [] {
      AllWellFormed(members[1..]);
    }
  }

  lemma UpdateWellFormed(members: seq<Member>, i: nat, m: Member)
    requires WellFormedMembers(members) && i < |members| && WellFormedMember(m)
    ensures WellFormedMembers(members[i := m])
  {
    var updated := members[i := m];
    forall k | 0 <= k < |updated| ensures WellFormedMember(updated[k]) {
      MemberWellFormed(members, k);
    }
    AllWellFormed(updated);
  }

  /** The new document is led through by the same path, to the new object. */
  lemma {:induction false} ReplacedLeads(j: Json, path: seq<string>, new': Json)
    requires Leads(j, path) && WellFormed(j) && new'.Object? && WellFormed(new')
    ensures Leads(Replaced(j, path, new'), path) && Target(Replaced(j, path, new'), path) == new'
    ensures WellFormed(Replaced(j, path, new'))
    ensures forall other :: Replaced(Replaced(j, path, new'), path, other) == Replaced(j, path, other)
    decreases |path|
  {
    if path != [] {
      var i := PlaceOf(KeysOf(j.members), path[0]).index;
      var m := j.members[i];
      MemberWellFormed(j.members, i);
      ReplacedLeads(m.value, path[1..], new');
      var value := Replaced(m.value, path[1..], new');
      var members := j.members[i := m.(value := value)];
      UpdateWellFormed(j.members, i, m.(value := value));
      assert KeysOf(members) == KeysOf(j.members);
      forall other ensures Replaced(Replaced(j, path, new'), path, other) == Replaced(j, path, other) {
        assert members[i := members[i].(value := Replaced(value, path[1..], other))] ==
               j.members[i := m.(value := Replaced(m.value, path[1..], other))];
      }
    }
  }

  lemma {:induction false} ReplacedBySame(j: Json, path: seq<string>)
    requires Leads(j, path)
    ensures Replaced(j, path, Target(j, path)) == j
    decreases |path|
  {
    if path != [] {
      var i := PlaceOf(KeysOf(j.members), path[0]).index;
      ReplacedBySame(j.members[i].value, path[1..]);
      assert j.members[i := j.members[i]] == j.members;
    }
  }

  // ----- what the scanner gives for an object of the document

  /** Where the value of member `i` begins in the text of an object at `at`. */
  function ValueAt(at: nat, members: seq<Member>, i: nat): nat
    requires i < |members|
  {
    at + |Left(members[..i], members[i])|
  }

  lemma AroundMember(j: Json, i: nat)
    requires j.Object? && i < |j.members|
    ensures Flat(j) == Left(j.members[..i], j.members[i]) + Flat(j.members[i].value) +
            Right(j.members[i], j.members[i + 1..])
  {
    assert j.members == j.members[..i] + [j.members[i]] + j.members[i + 1..];
    ObjectAround(j.inner, j.members[..i], j.members[i], j.members[i + 1..]);
  }

  lemma ValueHeld(text: string, at: nat, j: Json, i: nat, start: nat)
    requires j.Object? && i < |j.members| && Holds(text, at, Flat(j)) && start == ValueAt(at, j.members, i)
    ensures Holds(text, start, Flat(j.members[i].value))
  {
    var l, v, r := Left(j.members[..i], j.members[i]), Flat(j.members[i].value),
      Right(j.members[i], j.members[i + 1..]);
    AroundMember(j, i);
    HoldsBoth(text, at, l + v, r);
    HoldsBoth(text, at, l, v);
  }

  predicate FoundAt(f: Found, at: nat, members: seq<Member>, i: nat)
    requires i < |members|
  {
    && f.valueStart == ValueAt(at, members, i) && f.valueEnd == f.valueStart + |Flat(members[i].value)|
    && f.start == at + 1 + |Commas(members[..i])| + |members[i].lead|
    && (f.indent.Some? ==> Indentation(f.indent.value))
  }

  lemma IndentAtIndents(text: string, at: nat)
    ensures IndentAt(text, at).Some? ==> Indentation(IndentAt(text, at).value)
  {
  }

  lemma LeftLength(a: seq<Member>, m: Member)
    ensures |Left(a, m)| == 1 + |Commas(a)| + |Head(m)|
  {
  }

  lemma SpanIsFoundAt(text: string, at: nat, members: seq<Member>, i: nat, from: nat)
    requires i < |members| && from == at + 1 + |Commas(members[..i])|
    ensures FoundAt(SpanOf(text, members[i], from), at, members, i)
  {
    LeftLength(members[..i], members[i]);
    IndentAtIndents(text, from + |members[i].lead|);
  }

  lemma SpanFoundAt(text: string, at: nat, members: seq<Member>, i: nat)
    requires i < |members|
    ensures |Spans(text, members, at + 1)| == |members| && FoundAt(Spans(text, members, at + 1)[i], at, members, i)
  {
    SpansLength(text, members, at + 1);
    SpansAt(text, members, at + 1, i, at + 1 + |Commas(members[..i])|, Spans(text, members, at + 1));
    SpanIsFoundAt(text, at, members, i, at + 1 + |Commas(members[..i])|);
  }

  /** What the scanner finds of an object: its members in order, each with the place of its value. */
  lemma FindsMembers(text: string, at: nat, j: Json) returns (found: seq<Found>)
    requires j.Object? && WellFormed(j) && Holds(text, at, Flat(j))
    ensures ObjectAt(text, at) == Members(at + |Flat(j)| - 1, found)
    ensures |found| == |j.members| && FoundKeys(found) == KeysOf(j.members)
    ensures forall i :: 0 <= i < |found| ==> FoundAt(found[i], at, j.members, i)
  {
    ScansObject(text, at, j.inner, j.members);
    found := Spans(text, j.members, at + 1);
    KeysFound(text, j.members, at + 1);
    assert |FoundKeys(found)| == |found| && |KeysOf(j.members)| == |j.members|;
    forall i | 0 <= i < |found| ensures FoundAt(found[i], at, j.members, i) {
      SpanFoundAt(text, at, j.members, i);
    }
  }

  lemma UpdatedAround(j: Json, i: nat, value: Json)
    requires j.Object? && i < |j.members|
    ensures Flat(Object(j.inner, j.members[i := j.members[i].(value := value)])) ==
            Left(j.members[..i], j.members[i]) + Flat(value) + Right(j.members[i], j.members[i + 1..])
  {
    var m := j.members[i];
    var a, b := j.members[..i], j.members[i + 1..];
    assert j.members[i := m.(value := value)] == a + [m.(value := value)] + b;
    ObjectAround(j.inner, a, m.(value := value), b);
    WithValue(m, value);
  }

  /** A splice of a member's value is a splice of the object. */
  lemma ValueSpliced(text: string, at: nat, j: Json, i: nat, from: nat, to: nat, value: Json, doc: Json)
    requires j.Object? && i < |j.members| && Holds(text, at, Flat(j))
    requires from == ValueAt(at, j.members, i) && to == from + |Flat(j.members[i].value)|
    requires doc == Object(j.inner, j.members[i := j.members[i].(value := value)])
    ensures from <= to <= |text| && Puts(Splice(text, from, to, Flat(value)), text, at, j, doc)
  {
    var m := j.members[i];
    AroundMember(j, i);
    UpdatedAround(j, i, value);
    PutsMiddle(text, at, j, doc, Left(j.members[..i], m), Flat(m.value), Right(m, j.members[i + 1..]), Flat(value),
               from, to);
  }

  // ----- upsert

  /**
   At any indentation of spaces and tabs, serde_json writes a value as a document that it reads back as that value.
   */
  ghost predicate Faithful<V(!new)>(serde: Serde<V>)
  {
    forall v: V, base: string, layout: Layout :: Indentation(base) && PlainLayout(layout) ==>
      WellFormed(serde.write(v, base, layout)) && serde.parse(Flat(serde.write(v, base, layout))) == Some(v)
  }

  /** The value as serde_json writes it at some indentation. */
  ghost predicate IsWritten<V(!new)>(j: Json, value: V, serde: Serde<V>)
  {
    exists base: string, layout: Layout ::
      Indentation(base) && PlainLayout(layout) && j == serde.write(value, base, layout)
  }

  /** serde_json writes an object of one member as its key and then the value, at some indentation again. */
  ghost predicate WritesWraps<V(!new)>(serde: Serde<V>)
  {
    forall key: string, value: V, j: Json :: IsWritten(j, serde.wrap(key, value), serde) ==>
      && j.Object? && |j.members| == 1 && Name(j.members[0]) == key && IsWritten(j.members[0].value, value, serde)
  }

  lemma ChildBaseIndents(base: string, layout: Layout)
    requires Indentation(base) && PlainLayout(layout)
    ensures Indentation(base + if layout.multiline then layout.unit else "")
  {
  }

  lemma NewLineBlank(indent: string, layout: Layout)
    requires Indentation(indent) && PlainLayout(layout)
    ensures Blank(layout.eol + indent)
  {
  }

  /** A member inserted into an object: the last one, after the others, whose white space the new end takes over. */
  function Inserted(old': Json, lead: string, name: string, afterColon: string, value: Json, end: string): Json
    requires old'.Object?
  {
    if old'.members == [] then Object(old'.inner, [Member(lead, Escape(name), "", afterColon, value, end)])
    else
      var n := |old'.members| - 1;
      Object(old'.inner, old'.members[..n] + [old'.members[n].(trail := "")]
                         + [Member(lead, Escape(name), "", afterColon, value, old'.members[n].trail)])
  }

  lemma RegroupLast(left: string, value: string, trail: string, close: string)
    ensures left + value + (trail + "" + close) == (left + value) + "" + (trail + close)
  {
  }

  lemma RegroupInsert(open: string, c: string, head: string, value: string, lead: string, quoted: string, colon: string,
                      after: string, v: string, trail: string, close: string)
    ensures open + (c + ((head + value + "") + ("," + ((lead + quoted + "" + colon + after) + v + trail)))) + close ==
            (open + c + head + value) + ("," + lead + quoted + (colon + after) + v) + (trail + close)
  {
  }

  /** The text of an object before its last member's end. */
  lemma LastText(inner: string, a: seq<Member>, l: Member)
    ensures Flat(Object(inner, a + [l])) == (Left(a, l) + Flat(l.value)) + "" + (l.trail + "}")
  {
    assert a + [l] == a + [l] + [];
    ObjectAround(inner, a, l, []);
    RegroupLast(Left(a, l), Flat(l.value), l.trail, "}");
  }

  /** And with another member put there. */
  lemma InsertedText(inner: string, a: seq<Member>, l: Member, m: Member)
    requires m.beforeColon == ""
    ensures Flat(Object(inner, a + [l.(trail := "")] + [m])) ==
            (Left(a, l) + Flat(l.value)) + ("," + m.lead + Quoted(m.key) + (":" + m.afterColon) + Flat(m.value)) +
              (m.trail + "}")
  {
    var l' := l.(trail := "");
    FlatAround(a, l', [m]);
    OneMember(m);
    assert FlatMember(l') == Head(l) + Flat(l.value) + "";
    RegroupInsert("{", Commas(a), Head(l), Flat(l.value), m.lead, Quoted(m.key), ":", m.afterColon, Flat(m.value),
                  m.trail, "}");
  }

  lemma OneMember(m: Member)
    ensures Tail([m]) == "," + FlatMember(m)
  {
  }

  /** The text put after a member makes the inserted member. */
  lemma InsertsAfter(text: string, at: nat, j: Json, end: nat, lead: string, name: string, afterColon: string,
                     value: Json)
    requires j.Object? && j.members != [] && Holds(text, at, Flat(j))
    requires end == ValueAt(at, j.members, |j.members| - 1) + |Flat(j.members[|j.members| - 1].value)|
    ensures end <= |text|
    ensures Puts(Splice(text, end, end, "," + lead + Quoted(Escape(name)) + (":" + afterColon) + Flat(value)),
                 text, at, j, Inserted(j, lead, name, afterColon, value, ""))
  {
    var n := |j.members| - 1;
    var a, l := j.members[..n], j.members[n];
    assert j.members == a + [l];
    LastText(j.inner, a, l);
    InsertedText(j.inner, a, l, Member(lead, Escape(name), "", afterColon, value, l.trail));
    PutsMiddle(text, at, j, Inserted(j, lead, name, afterColon, value, ""), Left(a, l) + Flat(l.value), "",
               l.trail + "}",
               "," + lead + Quoted(Escape(name)) + (":" + afterColon) + Flat(value), end, end);
  }

  lemma RegroupOnly(lead: string, quoted: string, colon: string, after: string, v: string, trail: string)
    ensures (lead + quoted + "" + colon + after) + v + trail == lead + quoted + (colon + after) + v + trail
  {
  }

  /** The text put inside an empty object makes the inserted member. */
  lemma InsertsInside(text: string, at: nat, j: Json, lead: string, name: string, afterColon: string, value: Json,
                      end: string)
    requires j.Object? && j.members == [] && Holds(text, at, Flat(j))
    ensures Splice(text, at + 1, at + |Flat(j)| - 1,
                   lead + Quoted(Escape(name)) + (":" + afterColon) + Flat(value) + end) ==
            Splice(text, at, at + |Flat(j)|, Flat(Inserted(j, lead, name, afterColon, value, end)))
  {
    var m := Member(lead, Escape(name), "", afterColon, value, end);
    RegroupOnly(lead, Quoted(m.key), ":", afterColon, Flat(value), end);
    assert FlatMembers([m]) == FlatMember(m);
    assert j == Object(j.inner, []);
    assert Flat(j) == "{" + j.inner + "}";
    SpliceInside(text, at, "{", j.inner, "}", FlatMember(m), Flat(j));
  }

  /** The new object is the old one with one more member, the last, whose text is read as the value. */
  ghost predicate IsInsertion<V(!new)>(old': Json, new': Json, name: string, value: V, serde: Serde<V>)
  {
    && old'.Object? && new'.Object? && new'.inner == old'.inner && |new'.members| == |old'.members| + 1
    && var n := |old'.members|;
    && Name(new'.members[n]) == name && serde.parse(Flat(new'.members[n].value)) == Some(value)
    && IsWritten(new'.members[n].value, value, serde)
    && (n > 0 ==>
          && new'.members[..n - 1] == old'.members[..n - 1] && new'.members[n - 1] == old'.members[n - 1].(trail := "")
          && new'.members[n].trail == old'.members[n - 1].trail)
  }

  lemma InsertedWellFormed(old': Json, lead: string, name: string, afterColon: string, value: Json, end: string)
    requires old'.Object? && WellFormed(old') && Blank(lead) && Blank(afterColon) && WellFormed(value) && Blank(end)
    ensures WellFormed(Inserted(old', lead, name, afterColon, value, end))
  {
    UnescapeEscape(name);
    var members := Inserted(old', lead, name, afterColon, value, end).members;
    forall i | 0 <= i < |members| ensures WellFormedMember(members[i]) {
      if i < |old'.members| {
        MemberWellFormed(old'.members, i);
      } else if i > 0 {
        MemberWellFormed(old'.members, i - 1);
      }
    }
    AllWellFormed(members);
  }

  lemma InsertedIsInsertion<V(!new)>(old': Json, lead: string, name: string, afterColon: string, written: Json,
                                     end: string, value: V, serde: Serde<V>)
    requires old'.Object? && serde.parse(Flat(written)) == Some(value) && IsWritten(written, value, serde)
    ensures IsInsertion(old', Inserted(old', lead, name, afterColon, written, end), name, value, serde)
  {
    UnescapeEscape(name);
  }

  lemma RegroupLine(eol: string, indent: string, quoted: string, v: string)
    ensures "," + eol + indent + quoted + ": " + v == "," + (eol + indent) + quoted + (":" + " ") + v
  {
    assert ":" + " " == ": ";
  }

  lemma RegroupFlat(quoted: string, v: string)
    ensures "," + quoted + ":" + v == "," + "" + quoted + (":" + "") + v
  {
  }

  lemma RegroupInner(quoted: string, colon: string, v: string, eol: string, base: string, lead: string)
    ensures quoted + colon + v == "" + quoted + (colon + "") + v + ""
    ensures lead + quoted + (colon + " ") + v + eol + base == lead + quoted + (colon + " ") + v + (eol + base)
  {
  }

  /** What `insert_member` writes: white space before the key and after the colon, the value, and what follows it. */
  datatype Written = Written(lead: string, afterColon: string, value: Json, end: string)

  function WrittenFor<V>(j: Json, found: seq<Found>, value: V, childBase: string, base: string, layout: Layout,
                         serde: Serde<V>): Written
  {
    if found != [] then
      var indent := Indent(found[|found| - 1], childBase);
      if layout.multiline then Written(layout.eol + indent, " ", serde.write(value, indent, layout), "")
      else Written("", "", serde.write(value, "", layout), "")
    else if layout.multiline then Written(layout.eol + childBase, " ", serde.write(value, childBase, layout),
                                          layout.eol + base)
    else Written("", "", serde.write(value, "", layout), "")
  }

  lemma WrittenIsGood<V(!new)>(at: nat, j: Json, found: seq<Found>, value: V, childBase: string, base: string,
                               layout: Layout, serde: Serde<V>)
    requires j.Object? && |found| == |j.members| && Indentation(childBase) && Indentation(base) && PlainLayout(layout)
    requires forall i :: 0 <= i < |found| ==> FoundAt(found[i], at, j.members, i)
    requires Faithful(serde)
    ensures var w := WrittenFor(j, found, value, childBase, base, layout, serde);
            && Blank(w.lead) && Blank(w.afterColon) && Blank(w.end) && WellFormed(w.value)
            && serde.parse(Flat(w.value)) == Some(value) && IsWritten(w.value, value, serde)
  {
    assert Indentation("");
    if found != [] {
      assert FoundAt(found[|found| - 1], at, j.members, |found| - 1);
      NewLineBlank(Indent(found[|found| - 1], childBase), layout);
    }
    NewLineBlank(childBase, layout);
    NewLineBlank(base, layout);
  }

  lemma InsertsAtEnd<V>(text: string, at: nat, j: Json, found: seq<Found>, name: string, value: V, childBase: string,
                        base: string, layout: Layout, serde: Serde<V>, w: Written)
    requires j.Object? && Holds(text, at, Flat(j)) && found != [] && |found| == |j.members|
    requires FoundAt(found[|found| - 1], at, j.members, |found| - 1)
    requires forall i :: 0 <= i < |found| ==> found[i].valueEnd <= |text|
    requires w == WrittenFor(j, found, value, childBase, base, layout, serde)
    ensures at < at + |Flat(j)| - 1 <= |text|
    ensures InsertMember(text, at, at + |Flat(j)| - 1, found, name, value, childBase, base, layout, serde) ==
            Splice(text, at, at + |Flat(j)|, Flat(Inserted(j, w.lead, name, w.afterColon, w.value, w.end)))
  {
    ObjectLength(j);
    var end, quoted := found[|found| - 1].valueEnd, Quoted(Escape(name));
    InsertsAfter(text, at, j, end, w.lead, name, w.afterColon, w.value);
    if layout.multiline {
      var indent := Indent(found[|found| - 1], childBase);
      RegroupLine(layout.eol, indent, quoted, Flat(w.value));
      assert InsertMember(text, at, at + |Flat(j)| - 1, found, name, value, childBase, base, layout, serde) ==
             Splice(text, end, end, "," + layout.eol + indent + quoted + ": " + Flat(w.value));
    } else {
      RegroupFlat(quoted, Flat(w.value));
      assert InsertMember(text, at, at + |Flat(j)| - 1, found, name, value, childBase, base, layout, serde) ==
             Splice(text, end, end, "," + quoted + ":" + Flat(w.value));
    }
  }

  lemma ObjectLength(j: Json)
    requires j.Object?
    ensures |Flat(j)| >= 2
  {
  }

  lemma InsertsAlone<V>(text: string, at: nat, j: Json, name: string, value: V, childBase: string, base: string,
                        layout: Layout, serde: Serde<V>, w: Written)
    requires j.Object? && Holds(text, at, Flat(j)) && j.members == []
    requires w == WrittenFor(j, [], value, childBase, base, layout, serde)
    ensures at < at + |Flat(j)| - 1 <= |text|
    ensures InsertMember(text, at, at + |Flat(j)| - 1, [], name, value, childBase, base, layout, serde) ==
            Splice(text, at, at + |Flat(j)|, Flat(Inserted(j, w.lead, name, w.afterColon, w.value, w.end)))
  {
    ObjectLength(j);
    RegroupInner(Quoted(Escape(name)), ":", Flat(w.value), layout.eol, base, layout.eol + childBase);
    InsertsInside(text, at, j, w.lead, name, w.afterColon, w.value, w.end);
  }

  /** What `insert_member` does to the document. */
  lemma InsertMemberInserts<V(!new)>(text: string, at: nat, j: Json, found: seq<Found>, close: nat, name: string,
                                     value: V, childBase: string, base: string, layout: Layout, serde: Serde<V>,
                                     out: string) returns (new': Json)
    requires j.Object? && WellFormed(j) && Holds(text, at, Flat(j)) && Indentation(childBase) && Indentation(base)
             && PlainLayout(layout)
    requires |found| == |j.members| && forall i :: 0 <= i < |found| ==> FoundAt(found[i], at, j.members, i)
    requires forall i :: 0 <= i < |found| ==> found[i].valueEnd <= |text|
    requires close == at + |Flat(j)| - 1 && at < close <= |text|
    requires out == InsertMember(text, at, close, found, name, value, childBase, base, layout, serde)
    requires Faithful(serde)
    ensures WellFormed(new') && IsInsertion(j, new', name, value, serde) && Puts(out, text, at, j, new')
  {
    var w := WrittenFor(j, found, value, childBase, base, layout, serde);
    WrittenIsGood(at, j, found, value, childBase, base, layout, serde);
    if found != [] {
      InsertsAtEnd(text, at, j, found, name, value, childBase, base, layout, serde, w);
    } else {
      assert found == [];
      InsertsAlone(text, at, j, name, value, childBase, base, layout, serde, w);
    }
    new' := Inserted(j, w.lead, name, w.afterColon, w.value, w.end);
    InsertedWellFormed(j, w.lead, name, w.afterColon, w.value, w.end);
    InsertedIsInsertion(j, w.lead, name, w.afterColon, w.value, w.end, value, serde);
  }
}

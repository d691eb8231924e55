/**
 The laws of the JSON edits on whole documents: an insertion changes one object of the document and no other byte,
 a second one changes nothing, and a removal undoes it.
 */
module JsonLaws {
  import opened Wrappers
  import opened JsonScan
  import opened JsonObjects
  import opened JsonEdit
  import opened JsonRoundTrip

  /** The place in the path's next object, and its value. */
  function Next(j: Json, path: seq<string>): nat
    requires path != [] && Leads(j, path)
  {
    PlaceOf(KeysOf(j.members), path[0]).index
  }

  lemma NextLeads(j: Json, path: seq<string>)
    requires path != [] && Leads(j, path) && WellFormed(j)
    ensures Next(j, path) < |j.members| && Leads(j.members[Next(j, path)].value, path[1..])
    ensures j.members[Next(j, path)].value.Object? && WellFormed(j.members[Next(j, path)].value)
  {
    MemberWellFormed(j.members, Next(j, path));
  }

  /** The value found for a member is the member's value in the text. */
  lemma FoundValue(text: string, at: nat, j: Json, found: seq<Found>, i: nat)
    requires j.Object? && WellFormed(j) && Holds(text, at, Flat(j)) && i < |found| == |j.members|
    requires FoundAt(found[i], at, j.members, i)
    ensures found[i].valueEnd <= |text| && Holds(text, found[i].valueStart, Flat(j.members[i].value))
    ensures text[found[i].valueStart..found[i].valueEnd] == Flat(j.members[i].value)
  {
    ValueHeld(text, at, j, i, found[i].valueStart);
  }

  lemma ObjectStarts(j: Json)
    requires j.Object?
    ensures Flat(j) != [] && Flat(j)[0] == '{'
  {
  }

  /** Going down one name of the path: the scanner finds the member's value, an object. */
  lemma GoesDown(text: string, at: nat, j: Json, path: seq<string>) returns (found: seq<Found>, i: nat)
    requires path != [] && Leads(j, path) && WellFormed(j) && Holds(text, at, Flat(j))
    ensures i == Next(j, path) < |j.members| == |found| && ObjectAt(text, at) == Members(at + |Flat(j)| - 1, found)
    ensures PlaceOf(FoundKeys(found), path[0]) == At(i)
    ensures FoundAt(found[i], at, j.members, i) && found[i].valueEnd <= |text|
    ensures var value := j.members[i].value;
            && Leads(value, path[1..]) && WellFormed(value) && Holds(text, found[i].valueStart, Flat(value))
            && text[found[i].valueStart..found[i].valueEnd] == Flat(value) && Flat(value) != [] && Flat(value)[0] == '{'
  {
    found := FindsMembers(text, at, j);
    NextLeads(j, path);
    i := Next(j, path);
    FoundValue(text, at, j, found, i);
    ObjectStarts(j.members[i].value);
  }

  lemma PutsBelow(out: string, text: string, at: nat, j: Json, path: seq<string>, i: nat, start: nat, new': Json,
                  below: Json)
    returns (doc: Json)
    requires path != [] && Leads(j, path) && Holds(text, at, Flat(j))
    requires i == Next(j, path) < |j.members| && start == ValueAt(at, j.members, i)
             && Leads(j.members[i].value, path[1..])
    requires below == Replaced(j.members[i].value, path[1..], new') && Puts(out, text, start, j.members[i].value, below)
    ensures doc == Replaced(j, path, new') && Puts(out, text, at, j, doc)
  {
    doc := Object(j.inner, j.members[i := j.members[i].(value := below)]);
    ValueSpliced(text, at, j, i, start, start + |Flat(j.members[i].value)|, below, doc);
  }

  // ----- upsert

  function ChildBase(base: string, layout: Layout): string { base + if layout.multiline then layout.unit else "" }

  lemma UpsertGoesDown<V>(text: string, at: nat, base: string, path: seq<string>, key: string, value: V, layout: Layout,
                          serde: Serde<V>, found: seq<Found>, close: nat, i: nat)
    requires path != [] && ObjectAt(text, at) == Members(close, found) && PlaceOf(FoundKeys(found), path[0]) == At(i)
    requires text[found[i].valueStart..found[i].valueEnd] != []
             && text[found[i].valueStart..found[i].valueEnd][0] == '{'
    ensures Upsert(text, at, base, path, key, value, layout, serde) ==
            Upsert(text, found[i].valueStart, Indent(found[i], ChildBase(base, layout)), path[1..], key, value, layout,
                   serde)
  {
  }

  lemma UpsertDown<V>(text: string, at: nat, j: Json, base: string, path: seq<string>, prefix: seq<string>, key: string,
                      value: V, layout: Layout, serde: Serde<V>) returns (i: nat, start: nat, childBase: string)
    requires prefix != [] && prefix <= path && Leads(j, prefix)
    requires WellFormed(j) && Holds(text, at, Flat(j)) && Indentation(base) && PlainLayout(layout)
    ensures i == Next(j, prefix) < |j.members| && start == ValueAt(at, j.members, i) && Indentation(childBase)
    ensures Leads(j.members[i].value, prefix[1..]) && WellFormed(j.members[i].value)
            && Holds(text, start, Flat(j.members[i].value))
    ensures Target(j, prefix) == Target(j.members[i].value, prefix[1..])
    ensures Upsert(text, at, base, path, key, value, layout, serde) ==
            Upsert(text, start, childBase, path[1..], key, value, layout, serde)
  {
    var found;
    found, i := GoesDown(text, at, j, prefix);
    start := found[i].valueStart;
    ChildBaseIndents(base, layout);
    childBase := Indent(found[i], ChildBase(base, layout));
    UpsertGoesDown(text, at, base, path, key, value, layout, serde, found, at + |Flat(j)| - 1, i);
  }

  /** The key that is inserted where the path ends or breaks off, and the value: nested when names are left. */
  function MissingKey(tail: seq<string>, key: string): string { if tail == [] then key else tail[0] }

  function MissingValue<V>(tail: seq<string>, key: string, value: V, serde: Serde<V>): V
  {
    if tail == [] then value else Nest(tail[1..], key, value, serde)
  }

  lemma UpsertAbsent<V>(text: string, at: nat, base: string, path: seq<string>, key: string, value: V, layout: Layout,
                        serde: Serde<V>, found: seq<Found>, close: nat, r: Edit)
    requires ObjectAt(text, at) == Members(close, found) && MissingKey(path, key) !in FoundKeys(found)
    requires r == Upsert(text, at, base, path, key, value, layout, serde)
    ensures at < close < |text| && forall i :: 0 <= i < |found| ==> found[i].valueEnd <= |text|
    ensures r.Changed? && r.text ==
            InsertMember(text, at, close, found, MissingKey(path, key), MissingValue(path, key, value, serde),
                                                 ChildBase(base, layout), base, layout, serde)
  {
    PlaceAbsent(FoundKeys(found), MissingKey(path, key));
  }

  /** An absent key is inserted into the object at `at`. */
  lemma InsertsHere<V(!new)>(text: string, at: nat, j: Json, base: string, path: seq<string>, key: string, value: V,
                             layout: Layout, serde: Serde<V>, r: Edit, missing: string,
                             inserted: V) returns (new': Json)
    requires j.Object? && WellFormed(j) && Holds(text, at, Flat(j)) && Indentation(base) && PlainLayout(layout)
             && Faithful(serde)
    requires r == Upsert(text, at, base, path, key, value, layout, serde) && missing !in KeysOf(j.members)
    requires missing == MissingKey(path, key) && inserted == MissingValue(path, key, value, serde)
    ensures WellFormed(new') && IsInsertion(j, new', missing, inserted, serde)
    ensures r.Changed? && Puts(r.text, text, at, j, new')
  {
    ChildBaseIndents(base, layout);
    var found := FindsMembers(text, at, j);
    var close := at + |Flat(j)| - 1;
    UpsertAbsent(text, at, base, path, key, value, layout, serde, found, close, r);
    new' := InsertMemberInserts(text, at, j, found, close, missing, inserted, ChildBase(base, layout), base, layout,
                                serde, r.text);
  }

  lemma RestOfPath(path: seq<string>, prefix: seq<string>, tail: seq<string>)
    requires path == prefix + tail
    ensures prefix == [] ==> path == tail
    ensures prefix != [] ==> prefix <= path && path[0] == prefix[0] && path[1..] == prefix[1..] + tail
  {
  }

  /**
   Where the path ends, or breaks off at a name that is absent, one member is inserted into the object reached, and
   nothing else of the text changes.
   */
  lemma {:induction false} UpsertInserts<V(!new)>(text: string, at: nat, j: Json, base: string, path: seq<string>,
                                                  key: string, value: V, layout: Layout, serde: Serde<V>, r: Edit,
                                                  target: Json, prefix: seq<string>, tail: seq<string>)
    returns (new': Json, doc: Json)
    requires WellFormed(j) && Holds(text, at, Flat(j)) && Indentation(base) && PlainLayout(layout) && Faithful(serde)
    requires path == prefix + tail && Leads(j, prefix) && target == Target(j, prefix)
             && MissingKey(tail, key) !in KeysOf(target.members)
    requires r == Upsert(text, at, base, path, key, value, layout, serde)
    ensures WellFormed(new') && IsInsertion(target, new', MissingKey(tail, key), MissingValue(tail, key, value, serde),
                                            serde)
    ensures doc == Replaced(j, prefix, new') && r.Changed? && Puts(r.text, text, at, j, doc)
    decreases |prefix|
  {
    RestOfPath(path, prefix, tail);
    if prefix == [] {
      new' := InsertsHere(text, at, j, base, path, key, value, layout, serde, r, MissingKey(tail, key),
                          MissingValue(tail, key, value, serde));
      doc := new';
    } else {
      var i, start, childBase := UpsertDown(text, at, j, base, path, prefix, key, value, layout, serde);
      new', doc := UpsertInserts(text, start, j.members[i].value, childBase, path[1..], key, value, layout, serde, r,
                                 target, prefix[1..], tail);
      doc := PutsBelow(r.text, text, at, j, prefix, i, start, new', doc);
    }
  }

  /** The member of the key, where the path leads. */
  function MemberOf(j: Json, key: string): Member
    requires j.Object? && PlaceOf(KeysOf(j.members), key).At?
  {
    j.members[PlaceOf(KeysOf(j.members), key).index]
  }

  /** The object with another value for the key. */
  function WithNewValue(j: Json, key: string, value: Json): Json
    requires j.Object? && PlaceOf(KeysOf(j.members), key).At?
  {
    Object(j.inner, j.members[PlaceOf(KeysOf(j.members), key).index := MemberOf(j, key).(value := value)])
  }

  lemma UpsertPresent<V>(text: string, at: nat, base: string, path: seq<string>, key: string, value: V, layout: Layout,
                         serde: Serde<V>, found: seq<Found>, close: nat, i: nat, current: string, written: Json,
                         r: Edit)
    requires path == [] && ObjectAt(text, at) == Members(close, found) && PlaceOf(FoundKeys(found), key) == At(i)
    requires text[found[i].valueStart..found[i].valueEnd] == current && serde.parse(current).Some?
    requires written == serde.write(value, Indent(found[i], ChildBase(base, layout)), layout)
    requires r == Upsert(text, at, base, path, key, value, layout, serde)
    ensures serde.parse(current) == Some(value) ==> r == Unchanged
    ensures serde.parse(current) != Some(value) ==>
              r.Changed? && r.text == Splice(text, found[i].valueStart, found[i].valueEnd, Flat(written))
  {
  }

  lemma ValuePut(text: string, at: nat, j: Json, key: string, i: nat, start: nat, end: nat, written: Json, out: string)
    requires j.Object? && Holds(text, at, Flat(j)) && PlaceOf(KeysOf(j.members), key) == At(i)
    requires start == ValueAt(at, j.members, i) && end == start + |Flat(j.members[i].value)| <= |text|
    requires out == Splice(text, start, end, Flat(written))
    ensures Puts(out, text, at, j, WithNewValue(j, key, written))
  {
    ValueSpliced(text, at, j, i, start, end, written, WithNewValue(j, key, written));
  }

  lemma ReplacesHere<V(!new)>(text: string, at: nat, j: Json, base: string, path: seq<string>, key: string, value: V,
                              layout: Layout, serde: Serde<V>, r: Edit) returns (written: Json)
    requires j.Object? && WellFormed(j) && Holds(text, at, Flat(j)) && Indentation(base) && PlainLayout(layout)
             && Faithful(serde)
    requires PlaceOf(KeysOf(j.members), key).At? && serde.parse(Flat(MemberOf(j, key).value)).Some?
    requires path == [] && r == Upsert(text, at, base, path, key, value, layout, serde)
    ensures WellFormed(written) && serde.parse(Flat(written)) == Some(value)
    ensures serde.parse(Flat(MemberOf(j, key).value)) == Some(value) ==> r == Unchanged
    ensures serde.parse(Flat(MemberOf(j, key).value)) != Some(value) ==>
              r.Changed? && Puts(r.text, text, at, j, WithNewValue(j, key, written))
  {
    ChildBaseIndents(base, layout);
    var found := FindsMembers(text, at, j);
    var i := PlaceOf(KeysOf(j.members), key).index;
    FoundValue(text, at, j, found, i);
    written := serde.write(value, Indent(found[i], ChildBase(base, layout)), layout);
    UpsertPresent(text, at, base, path, key, value, layout, serde, found, at + |Flat(j)| - 1, i,
                  Flat(MemberOf(j, key).value), written, r);
    if serde.parse(Flat(MemberOf(j, key).value)) != Some(value) {
      ValuePut(text, at, j, key, i, found[i].valueStart, found[i].valueEnd, written, r.text);
    }
  }

  /** A present key whose value is read as the given one is left alone; otherwise the value is written in its place. */
  lemma {:induction false} UpsertReplaces<V(!new)>(text: string, at: nat, j: Json, base: string, path: seq<string>,
                                                   key: string, value: V, layout: Layout, serde: Serde<V>, r: Edit,
                                                   target: Json)
    returns (written: Json, new': Json, doc: Json)
    requires WellFormed(j) && Holds(text, at, Flat(j)) && Leads(j, path) && Indentation(base) && PlainLayout(layout)
             && Faithful(serde)
    requires target == Target(j, path) && PlaceOf(KeysOf(target.members), key).At?
             && serde.parse(Flat(MemberOf(target, key).value)).Some?
    requires r == Upsert(text, at, base, path, key, value, layout, serde)
    ensures WellFormed(written) && serde.parse(Flat(written)) == Some(value)
    ensures new' == WithNewValue(target, key, written) && doc == Replaced(j, path, new')
    ensures serde.parse(Flat(MemberOf(target, key).value)) == Some(value) ==> r == Unchanged
    ensures serde.parse(Flat(MemberOf(target, key).value)) != Some(value) ==>
              r.Changed? && Puts(r.text, text, at, j, doc)
    decreases |path|
  {
    if path == [] {
      written := ReplacesHere(text, at, j, base, path, key, value, layout, serde, r);
      new' := WithNewValue(j, key, written);
      doc := new';
    } else {
      var i, start, childBase := UpsertDown(text, at, j, base, path, path, key, value, layout, serde);
      written, new', doc := UpsertReplaces(text, start, j.members[i].value, childBase, path[1..], key, value, layout,
                                           serde, r, target);
      if r.Changed? {
        doc := PutsBelow(r.text, text, at, j, path, i, start, new', doc);
      } else {
        doc := Replaced(j, path, new');
      }
    }
  }

  // ----- removal

  /** The object without member `i`. What follows the member moves up to where it began; the last one leaves its end. */
  function Without(j: Json, i: nat): Json
    requires j.Object? && i < |j.members|
  {
    var ms := j.members;
    if i + 1 < |ms| then Object(j.inner, ms[..i] + [ms[i + 1].(lead := ms[i].lead)] + ms[i + 2..])
    else if i > 0 then Object(j.inner, ms[..i - 1] + [ms[i - 1].(trail := ms[i].trail)])
    else Object("", [])
  }

  /** A member after its leading white space. */
  function Body(m: Member): string
  {
    Quoted(m.key) + m.beforeColon + ":" + m.afterColon + Flat(m.value) + m.trail
  }

  lemma LeadThenBody(m: Member)
    ensures FlatMember(m) == m.lead + Body(m)
  {
    RegroupBody(m.lead, Quoted(m.key), m.beforeColon, ":", m.afterColon, Flat(m.value), m.trail);
  }

  lemma RegroupBody(lead: string, quoted: string, before: string, colon: string, after: string, value: string,
                    trail: string)
    ensures (lead + quoted + before + colon + after) + value + trail ==
            lead + (quoted + before + colon + after + value + trail)
  {
  }

  lemma RegroupNext(open: string, commas: string, lead: string, body: string, lead2: string, body2: string,
                    tail: string, close: string)
    ensures open + (commas + ((lead + body) + ("," + (lead2 + body2 + tail)))) + close ==
            (open + commas + lead) + (body + "," + lead2) + (body2 + tail + close)
    ensures open + (commas + ((lead + body2) + tail)) + close == (open + commas + lead) + "" + (body2 + tail + close)
  {
  }

  /** Removing a member that another follows: the text from its key to the next key goes. */
  lemma TextWithoutNext(inner: string, a: seq<Member>, m: Member, n: Member, b: seq<Member>)
    ensures Flat(Object(inner, a + [m] + ([n] + b))) ==
            ("{" + Commas(a) + m.lead) + (Body(m) + "," + n.lead) + (Body(n) + Tail(b) + "}")
    ensures Flat(Object(inner, a + [n.(lead := m.lead)] + b)) ==
            ("{" + Commas(a) + m.lead) + "" + (Body(n) + Tail(b) + "}")
  {
    FlatAround(a, m, [n] + b);
    FlatAround(a, n.(lead := m.lead), b);
    FlatCons(n, b);
    LeadThenBody(m);
    LeadThenBody(n);
    LeadThenBody(n.(lead := m.lead));
    RegroupNext("{", Commas(a), m.lead, Body(m), n.lead, Body(n), Tail(b), "}");
  }

  lemma RegroupPrevious(open: string, commas: string, head: string, value: string, trail: string, next: string,
                        trail2: string, close: string)
    ensures open + (commas + ((head + value + trail) + ("," + (next + trail2)))) + close ==
            (open + commas + head + value) + (trail + "," + next) + (trail2 + close)
    ensures open + (commas + ((head + value + trail2) + "")) + close ==
            (open + commas + head + value) + "" + (trail2 + close)
  {
  }

  /** Removing the last member: the text from the end of the previous value goes, up to the end of its own. */
  lemma TextWithoutLast(inner: string, a: seq<Member>, p: Member, m: Member)
    ensures Flat(Object(inner, a + [p] + [m])) ==
            (Left(a, p) + Flat(p.value)) + (p.trail + "," + (Head(m) + Flat(m.value))) + (m.trail + "}")
    ensures Flat(Object(inner, a + [p.(trail := m.trail)])) == (Left(a, p) + Flat(p.value)) + "" + (m.trail + "}")
  {
    FlatAround(a, p, [m]);
    OneMember(m);
    var p' := p.(trail := m.trail);
    FlatAround(a, p', []);
    assert a + [p'] + [] == a + [p'];
    RegroupPrevious("{", Commas(a), Head(p), Flat(p.value), p.trail, Head(m) + Flat(m.value), m.trail, "}");
  }

  lemma CommasNext(ms: seq<Member>, i: nat)
    requires i < |ms|
    ensures |Commas(ms[..i + 1])| == |Commas(ms[..i])| + |FlatMember(ms[i])| + 1
  {
    CommasSnoc(ms[..i], ms[i]);
    assert ms[..i + 1] == ms[..i] + [ms[i]];
  }

  lemma BodyLength(m: Member)
    ensures |FlatMember(m)| == |m.lead| + |Body(m)| == |Head(m)| + |Flat(m.value)| + |m.trail|
  {
    LeadThenBody(m);
  }

  lemma NextPlaces(at: nat, ms: seq<Member>, i: nat, from: nat, to: nat)
    requires i + 1 < |ms| && from == at + 1 + |Commas(ms[..i])| + |ms[i].lead|
             && to == at + 1 + |Commas(ms[..i + 1])| + |ms[i + 1].lead|
    ensures from == at + |"{" + Commas(ms[..i]) + ms[i].lead| && to == from + |Body(ms[i]) + "," + ms[i + 1].lead|
  {
    CommasNext(ms, i);
    BodyLength(ms[i]);
  }

  lemma AroundNext(ms: seq<Member>, i: nat)
    requires i + 1 < |ms|
    ensures ms == ms[..i] + [ms[i]] + ([ms[i + 1]] + ms[i + 2..])
  {
  }

  lemma CutsBeforeNext(text: string, at: nat, j: Json, i: nat, from: nat, to: nat)
    requires j.Object? && i + 1 < |j.members| && Holds(text, at, Flat(j))
    requires from == at + 1 + |Commas(j.members[..i])| + |j.members[i].lead|
    requires to == at + 1 + |Commas(j.members[..i + 1])| + |j.members[i + 1].lead|
    ensures from <= to <= |text| && Puts(Splice(text, from, to, ""), text, at, j, Without(j, i))
  {
    var ms := j.members;
    var a, m, n, b := ms[..i], ms[i], ms[i + 1], ms[i + 2..];
    AroundNext(ms, i);
    TextWithoutNext(j.inner, a, m, n, b);
    NextPlaces(at, ms, i, from, to);
    var doc := Object(j.inner, a + [n.(lead := m.lead)] + b);
    PutsMiddle(text, at, j, doc, "{" + Commas(a) + m.lead, Body(m) + "," + n.lead, Body(n) + Tail(b) + "}", "", from,
               to);
  }

  lemma PreviousPlaces(at: nat, ms: seq<Member>, i: nat, from: nat, to: nat)
    requires 0 < i < |ms| && from == ValueAt(at, ms, i - 1) + |Flat(ms[i - 1].value)|
    requires to == ValueAt(at, ms, i) + |Flat(ms[i].value)|
    ensures from == at + |Left(ms[..i - 1], ms[i - 1])| + |Flat(ms[i - 1].value)|
    ensures to == from + |ms[i - 1].trail| + 1 + |Head(ms[i])| + |Flat(ms[i].value)|
  {
    CommasNext(ms, i - 1);
    LeftLength(ms[..i], ms[i]);
    LeftLength(ms[..i - 1], ms[i - 1]);
    BodyLength(ms[i - 1]);
  }

  lemma CutsAfterPrevious(text: string, at: nat, j: Json, i: nat, from: nat, to: nat)
    requires j.Object? && 0 < i == |j.members| - 1 && Holds(text, at, Flat(j))
    requires from == ValueAt(at, j.members, i - 1) + |Flat(j.members[i - 1].value)|
    requires to == ValueAt(at, j.members, i) + |Flat(j.members[i].value)|
    ensures from <= to <= |text| && Puts(Splice(text, from, to, ""), text, at, j, Without(j, i))
  {
    var ms := j.members;
    var a, p, m := ms[..i - 1], ms[i - 1], ms[i];
    PreviousPlaces(at, ms, i, from, to);
    assert ms == a + [p] + [m];
    TextWithoutLast(j.inner, a, p, m);
    var left, mid, right := Left(a, p) + Flat(p.value), p.trail + "," + (Head(m) + Flat(m.value)), m.trail + "}";
    SpliceInside(text, at, left, mid, right, "", Flat(j));
  }

  lemma CutsOnly(text: string, at: nat, j: Json, close: nat)
    requires j.Object? && |j.members| == 1 && Holds(text, at, Flat(j)) && close == at + |Flat(j)| - 1
    ensures at + 1 <= close <= |text| && Puts(Splice(text, at + 1, close, ""), text, at, j, Without(j, 0))
  {
    var inside := InsideObject(j.inner, j.members);
    assert Flat(j) == "{" + inside + "}";
    assert Flat(Object("", [])) == "{" + "" + "}";
    SpliceInside(text, at, "{", inside, "}", "", Flat(j));
  }

  lemma RemovesOne(text: string, at: nat, j: Json, i: nat, found: seq<Found>)
    requires j.Object? && Holds(text, at, Flat(j)) && i < |j.members| == |found|
    requires forall k :: 0 <= k < |found| ==> FoundAt(found[k], at, j.members, k)
    requires FoundWithin(text, found)
    ensures Puts(CutOne(text, at, at + |Flat(j)| - 1, found, i), text, at, j, Without(j, i))
  {
    assert FoundAt(found[i], at, j.members, i);
    if i + 1 < |found| {
      assert FoundAt(found[i + 1], at, j.members, i + 1);
      CutsBeforeNext(text, at, j, i, found[i].start, found[i + 1].start);
    } else if i > 0 {
      assert FoundAt(found[i - 1], at, j.members, i - 1);
      CutsAfterPrevious(text, at, j, i, found[i - 1].valueEnd, found[i].valueEnd);
    } else {
      CutsOnly(text, at, j, at + |Flat(j)| - 1);
    }
  }

  lemma RemoveAtCuts(text: string, at: nat, key: string, close: nat, found: seq<Found>, place: Place, r: Edit)
    requires ObjectAt(text, at) == Members(close, found) && place == PlaceOf(FoundKeys(found), key)
             && r == RemoveAt(text, at, key)
    ensures place.Absent? ==> r == Unchanged
    ensures place.Twice? ==> r == Refused("duplicate key")
    ensures place.At? ==> r == Changed(CutOne(text, at, close, found, place.index))
  {
  }

  /** Removing from the object at `at`. */
  lemma RemovesHere(text: string, at: nat, j: Json, key: string, r: Edit, place: Place)
    requires j.Object? && WellFormed(j) && Holds(text, at, Flat(j)) && r == RemoveAt(text, at, key)
    requires place == PlaceOf(KeysOf(j.members), key)
    ensures place.Absent? ==> r == Unchanged
    ensures place.Twice? ==> r == Refused("duplicate key")
    ensures place.At? ==> r.Changed? && Puts(r.text, text, at, j, Without(j, place.index))
  {
    var found := FindsMembers(text, at, j);
    RemoveAtCuts(text, at, key, at + |Flat(j)| - 1, found, place, r);
    if place.At? {
      RemovesOne(text, at, j, place.index, found);
    }
  }

  lemma RemoveDown(text: string, at: nat, j: Json, path: seq<string>, key: string, r: Edit) returns (i: nat, start: nat)
    requires path != [] && Leads(j, path) && WellFormed(j) && Holds(text, at, Flat(j))
             && r == RemoveFrom(text, at, path, key)
    ensures i == Next(j, path) < |j.members| && start == ValueAt(at, j.members, i)
    ensures Leads(j.members[i].value, path[1..]) && WellFormed(j.members[i].value)
            && Holds(text, start, Flat(j.members[i].value))
    ensures Target(j, path) == Target(j.members[i].value, path[1..])
    ensures r == RemoveFrom(text, start, path[1..], key)
  {
    var found;
    found, i := GoesDown(text, at, j, path);
    start := found[i].valueStart;
  }

  /** Removing the key from the object the path leads to removes that member and changes nothing else. */
  lemma {:induction false} RemoveRemoves(text: string, at: nat, j: Json, path: seq<string>, key: string, r: Edit,
                                         target: Json)
    returns (new': Json, doc: Json)
    requires WellFormed(j) && Holds(text, at, Flat(j)) && Leads(j, path)
    requires target == Target(j, path) && r == RemoveFrom(text, at, path, key)
    ensures PlaceOf(KeysOf(target.members), key).Absent? ==> r == Unchanged
    ensures PlaceOf(KeysOf(target.members), key).Twice? ==> r == Refused("duplicate key")
    ensures PlaceOf(KeysOf(target.members), key).At? ==>
              && new' == Without(target, PlaceOf(KeysOf(target.members), key).index)
              && doc == Replaced(j, path, new') && r.Changed? && Puts(r.text, text, at, j, doc)
    decreases |path|
  {
    if path == [] {
      RemovesHere(text, at, j, key, r, PlaceOf(KeysOf(j.members), key));
      new' := if PlaceOf(KeysOf(target.members), key).At? then Without(j, PlaceOf(KeysOf(target.members), key).index)
        else j;
      doc := new';
    } else {
      var i, start := RemoveDown(text, at, j, path, key, r);
      new', doc := RemoveRemoves(text, start, j.members[i].value, path[1..], key, r, target);
      if PlaceOf(KeysOf(target.members), key).At? {
        doc := PutsBelow(r.text, text, at, j, path, i, start, new', doc);
      }
    }
  }

  // ----- whole texts

  /** A text that is a document, with white space around it. */
  predicate IsDocument(text: string, before: string, j: Json, after: string)
  {
    text == before + Flat(j) + after && Blank(before) && WellFormed(j)
  }

  lemma DocumentStarts(text: string, before: string, j: Json, after: string)
    requires IsDocument(text, before, j, after)
    ensures SkipSpace(text, 0) == |before| && Holds(text, |before|, Flat(j))
  {
    HoldsBoth(text, 0, before + Flat(j), after);
    HoldsBoth(text, 0, before, Flat(j));
    FirstOfValue(text, |before|, j);
    BlankThen(text, 0, before);
  }

  lemma PutsDocument(out: string, text: string, before: string, j: Json, after: string, doc: Json)
    requires IsDocument(text, before, j, after) && Puts(out, text, |before|, j, doc) && WellFormed(doc)
    ensures IsDocument(out, before, doc, after)
  {
    assert text[..|before|] == before;
    assert text[|before| + |Flat(j)|..] == after;
  }

  /** The inserted key is the last of the object's keys. */
  lemma InsertedKey<V(!new)>(target: Json, new': Json, key: string, value: V, serde: Serde<V>)
    requires IsInsertion(target, new', key, value, serde) && key !in KeysOf(target.members)
    ensures PlaceOf(KeysOf(new'.members), key) == At(|target.members|)
  {
    var n := |target.members|;
    var before, after := KeysOf(target.members), KeysOf(new'.members);
    forall i | 0 <= i < n ensures after[i] == before[i] {
      if i < n - 1 {
        assert new'.members[..n - 1][i] == target.members[..n - 1][i];
      }
    }
    assert after == before + [key];
    PlaceOfLast(before, key);
  }

  /** Without the inserted member, the object is what it was; but white space inside an empty object is gone. */
  lemma WithoutInserted<V(!new)>(target: Json, new': Json, key: string, value: V, serde: Serde<V>)
    requires IsInsertion(target, new', key, value, serde)
    ensures Without(new', |target.members|) == if target.members == [] then Object("", []) else target
  {
    var n := |target.members|;
    if n > 0 {
      assert new'.members[..n - 1] + [target.members[n - 1]] == target.members;
      assert new'.members[n - 1].(trail := new'.members[n].trail) == target.members[n - 1];
    }
  }

  /** Replacing the object the path leads to by one with another text changes the document's text. */
  lemma {:induction false} ReplacedLength(j: Json, path: seq<string>, new': Json)
    requires Leads(j, path)
    ensures |Flat(Replaced(j, path, new'))| - |Flat(j)| == |Flat(new')| - |Flat(Target(j, path))|
    decreases |path|
  {
    if path != [] {
      var i := Next(j, path);
      ReplacedLength(j.members[i].value, path[1..], new');
      AroundMember(j, i);
      UpdatedAround(j, i, Replaced(j.members[i].value, path[1..], new'));
    }
  }

  /**
   The round trip. On a document whose path leads by unique keys to an object without the key, `upsert_server` makes
   a document again, a second `upsert_server` reports no change, and `remove_member` gives back the original text
   byte for byte exactly when the object has members or nothing between its braces.
   */
  lemma InsertThenRemove<V(!new)>(text: string, before: string, j: Json, after: string, path: seq<string>, key: string,
                                  value: V, serde: Serde<V>)
    requires IsDocument(text, before, j, after) && Leads(j, path) && key !in KeysOf(Target(j, path).members)
             && Faithful(serde)
    ensures var edited := UpsertServer(text, path, key, value, serde);
            && edited.Changed? && UpsertServer(edited.text, path, key, value, serde) == Unchanged
            && var removed := RemoveFrom(edited.text, SkipSpace(edited.text, 0), path, key);
            && removed.Changed?
            && (removed.text == text <==> Target(j, path).members != [] || Target(j, path).inner == "")
  {
    var target := Target(j, path);
    var edited := UpsertServer(text, path, key, value, serde);
    DocumentStarts(text, before, j, after);
    assert path == path + [];
    var new', doc := UpsertInserts(text, |before|, j, "", path, key, value, LayoutOf(text), serde, edited, target,
                                   path, []);
    ReplacedLeads(j, path, new');
    PutsDocument(edited.text, text, before, j, after, doc);
    SecondUpsert(edited.text, before, doc, after, path, key, value, serde, target, new');
    FirstRemoval(text, edited.text, before, j, doc, after, path, key, value, serde, target, new');
  }

  lemma SecondUpsert<V(!new)>(text: string, before: string, doc: Json, after: string, path: seq<string>, key: string,
                              value: V, serde: Serde<V>, target: Json, new': Json)
    requires IsDocument(text, before, doc, after) && Leads(doc, path) && Target(doc, path) == new' && Faithful(serde)
    requires IsInsertion(target, new', key, value, serde) && key !in KeysOf(target.members)
    ensures UpsertServer(text, path, key, value, serde) == Unchanged
  {
    DocumentStarts(text, before, doc, after);
    InsertedKey(target, new', key, value, serde);
    var r := UpsertServer(text, path, key, value, serde);
    var written, _, _ := UpsertReplaces(text, |before|, doc, "", path, key, value, LayoutOf(text), serde, r, new');
  }

  lemma FirstRemoval<V(!new)>(original: string, text: string, before: string, j: Json, doc: Json, after: string,
                              path: seq<string>, key: string, value: V, serde: Serde<V>, target: Json, new': Json)
    requires IsDocument(original, before, j, after) && Leads(j, path) && target == Target(j, path) && WellFormed(new')
    requires IsDocument(text, before, doc, after) && doc == Replaced(j, path, new')
    requires IsInsertion(target, new', key, value, serde) && key !in KeysOf(target.members)
    ensures var removed := RemoveFrom(text, SkipSpace(text, 0), path, key);
            removed.Changed? && (removed.text == original <==> target.members != [] || target.inner == "")
  {
    DocumentStarts(text, before, doc, after);
    ReplacedLeads(j, path, new');
    InsertedKey(target, new', key, value, serde);
    WithoutInserted(target, new', key, value, serde);
    var r := RemoveFrom(text, SkipSpace(text, 0), path, key);
    var last, doc' := RemoveRemoves(text, |before|, doc, path, key, r, new');
    assert doc' == Replaced(j, path, last);
    PutsText(r.text, text, before, doc, after, doc');
    if target.members != [] || target.inner == "" {
      assert last == target by {
        if target.members == [] {
          assert target == Object(target.inner, target.members);
        }
      }
      ReplacedBySame(j, path);
    } else {
      ReplacedLength(j, path, last);
      EmptyLength(target);
    }
  }

  lemma EmptyLength(target: Json)
    requires target.Object? && target.members == [] && target.inner != ""
    ensures |Flat(Object("", []))| < |Flat(target)|
  {
    assert Flat(Object("", [])) == "{" + "" + "}";
    assert Flat(target) == "{" + target.inner + "}";
  }

  lemma PutsText(out: string, text: string, before: string, j: Json, after: string, doc: Json)
    requires IsDocument(text, before, j, after) && Puts(out, text, |before|, j, doc)
    ensures out == before + Flat(doc) + after
  {
    assert text[..|before|] == before;
    assert text[|before| + |Flat(j)|..] == after;
  }

  // ----- whole texts, where names of the path are missing

  /** A nested value is written as objects of one member each, down to the key and its value. */
  lemma {:induction false} NestLeads<V(!new)>(names: seq<string>, key: string, value: V, serde: Serde<V>, j: Json)
    requires WritesWraps(serde) && IsWritten(j, Nest(names, key, value, serde), serde)
    ensures Leads(j, names) && HoldsOnly(Target(j, names), key, value, serde)
    decreases |names|
  {
    if names == [] {
      assert IsWritten(j, serde.wrap(key, value), serde);
    } else {
      var inner := Nest(names[1..], key, value, serde);
      assert IsWritten(j, serde.wrap(names[0], inner), serde);
      OnlyKey(j, names[0]);
      NestLeads(names[1..], key, value, serde, j.members[0].value);
    }
  }

  /** An object with the key and its value, as serde_json writes it, and nothing else. */
  ghost predicate HoldsOnly<V(!new)>(j: Json, key: string, value: V, serde: Serde<V>)
  {
    j.Object? && |j.members| == 1 && Name(j.members[0]) == key && IsWritten(j.members[0].value, value, serde)
  }

  lemma OnlyKey(j: Json, key: string)
    requires j.Object? && |j.members| == 1 && Name(j.members[0]) == key
    ensures KeysOf(j.members) == [key] && PlaceOf(KeysOf(j.members), key) == At(0)
  {
    PlaceOfLast([], key);
    assert [] + [key] == [key];
  }

  /** The rest of the path leads on through the inserted member. */
  lemma InsertionLeads<V(!new)>(target: Json, new': Json, tail: seq<string>, key: string, value: V, serde: Serde<V>)
    requires target.Object? && tail != [] && tail[0] !in KeysOf(target.members) && WritesWraps(serde)
    requires IsInsertion(target, new', tail[0], Nest(tail[1..], key, value, serde), serde)
    ensures Leads(new', tail) && HoldsOnly(Target(new', tail), key, value, serde)
  {
    InsertedKey(target, new', tail[0], Nest(tail[1..], key, value, serde), serde);
    NestLeads(tail[1..], key, value, serde, new'.members[|target.members|].value);
  }

  lemma {:induction false} LeadsThrough(j: Json, prefix: seq<string>, new': Json, tail: seq<string>)
    requires Leads(j, prefix) && WellFormed(j) && WellFormed(new') && Leads(new', tail)
    ensures Leads(Replaced(j, prefix, new'), prefix + tail)
    ensures Target(Replaced(j, prefix, new'), prefix + tail) == Target(new', tail)
    decreases |prefix|
  {
    RestOfPath(prefix + tail, prefix, tail);
    if prefix != [] {
      var i := Next(j, prefix);
      MemberWellFormed(j.members, i);
      LeadsThrough(j.members[i].value, prefix[1..], new', tail);
      var members := j.members[i := j.members[i].(value := Replaced(j.members[i].value, prefix[1..], new'))];
      assert Replaced(j, prefix, new') == Object(j.inner, members) && KeysOf(members) == KeysOf(j.members);
    }
  }

  lemma {:induction false} LeadsPart(j: Json, prefix: seq<string>, tail: seq<string>)
    requires Leads(j, prefix + tail) && tail != []
    ensures Leads(j, prefix) && PlaceOf(KeysOf(Target(j, prefix).members), tail[0]).At?
    decreases |prefix|
  {
    RestOfPath(prefix + tail, prefix, tail);
    if prefix != [] {
      LeadsPart(j.members[Next(j, prefix + tail)].value, prefix[1..], tail);
    }
  }

  /** Removing the only member of the object reached leaves that object empty. */
  lemma OnlyMemberRemoved<V(!new)>(text: string, before: string, doc: Json, after: string, path: seq<string>,
                                   key: string, value: V, serde: Serde<V>)
    requires IsDocument(text, before, doc, after) && Leads(doc, path)
    requires HoldsOnly(Target(doc, path), key, value, serde)
    ensures var r := RemoveFrom(text, SkipSpace(text, 0), path, key);
            r.Changed? && IsDocument(r.text, before, Replaced(doc, path, Object("", [])), after)
  {
    DocumentStarts(text, before, doc, after);
    OnlyKey(Target(doc, path), key);
    var r := RemoveFrom(text, SkipSpace(text, 0), path, key);
    var empty, doc' := RemoveRemoves(text, |before|, doc, path, key, r, Target(doc, path));
    ReplacedLeads(doc, path, Object("", []));
    PutsDocument(r.text, text, before, doc, after, doc');
  }

  /** A text without a name where the path breaks off is not one with it. */
  lemma DifferentTexts(text: string, before: string, j: Json, after: string, other: string, doc: Json,
                       prefix: seq<string>, name: string)
    requires IsDocument(text, before, j, after) && Leads(j, prefix) && name !in KeysOf(Target(j, prefix).members)
    requires IsDocument(other, before, doc, after) && Leads(doc, prefix)
    requires PlaceOf(KeysOf(Target(doc, prefix).members), name).At?
    ensures text != other
  {
    DocumentStarts(text, before, j, after);
    DocumentStarts(other, before, doc, after);
    PlaceAbsent(KeysOf(Target(j, prefix).members), name);
    var _, _ := RemoveRemoves(text, |before|, j, prefix, name, RemoveFrom(text, |before|, prefix, name),
                              Target(j, prefix));
    var _, _ := RemoveRemoves(other, |before|, doc, prefix, name, RemoveFrom(other, |before|, prefix, name),
                              Target(doc, prefix));
  }

  /**
   The round trip where the path breaks off. A second `upsert_server` reports no change; `remove_member` takes out the
   key alone, so that the objects made on the way to it stay, the last of them empty; and removing the first of these
   gives back the original text exactly when the object it went into has members or nothing between its braces.
   */
  lemma NestThenRemove<V(!new)>(text: string, before: string, j: Json, after: string, prefix: seq<string>,
                                tail: seq<string>, key: string, value: V, serde: Serde<V>, edited: Edit)
    returns (doc: Json)
    requires IsDocument(text, before, j, after) && Leads(j, prefix) && tail != []
    requires tail[0] !in KeysOf(Target(j, prefix).members) && Faithful(serde) && WritesWraps(serde)
    requires edited == UpsertServer(text, prefix + tail, key, value, serde)
    ensures edited.Changed? && UpsertServer(edited.text, prefix + tail, key, value, serde) == Unchanged
    ensures IsDocument(edited.text, before, doc, after) && Leads(doc, prefix + tail)
            && HoldsOnly(Target(doc, prefix + tail), key, value, serde)
    ensures var removed := RemoveFrom(edited.text, SkipSpace(edited.text, 0), prefix + tail, key);
            && removed.Changed? && removed.text != text
            && IsDocument(removed.text, before, Replaced(doc, prefix + tail, Object("", [])), after)
    ensures var removed := RemoveFrom(edited.text, SkipSpace(edited.text, 0), prefix, tail[0]);
            && removed.Changed?
            && (removed.text == text <==> Target(j, prefix).members != [] || Target(j, prefix).inner == "")
  {
    var target, path, nested := Target(j, prefix), prefix + tail, Nest(tail[1..], key, value, serde);
    DocumentStarts(text, before, j, after);
    var new';
    new', doc := UpsertInserts(text, |before|, j, "", path, key, value, LayoutOf(text), serde, edited, target, prefix,
                               tail);
    ReplacedLeads(j, prefix, new');
    PutsDocument(edited.text, text, before, j, after, doc);
    InsertionLeads(target, new', tail, key, value, serde);
    LeadsThrough(j, prefix, new', tail);
    NestedUpsert(edited.text, before, doc, after, path, key, value, serde);
    OnlyMemberRemoved(edited.text, before, doc, after, path, key, value, serde);
    ReplacedLeads(doc, path, Object("", []));
    LeadsPart(Replaced(doc, path, Object("", [])), prefix, tail);
    var removed := RemoveFrom(edited.text, SkipSpace(edited.text, 0), path, key);
    DifferentTexts(text, before, j, after, removed.text, Replaced(doc, path, Object("", [])), prefix, tail[0]);
    FirstRemoval(text, edited.text, before, j, doc, after, prefix, tail[0], nested, serde, target, new');
  }

  lemma NestedUpsert<V(!new)>(text: string, before: string, doc: Json, after: string, path: seq<string>, key: string,
                              value: V, serde: Serde<V>)
    requires IsDocument(text, before, doc, after) && Leads(doc, path) && Faithful(serde)
    requires HoldsOnly(Target(doc, path), key, value, serde)
    ensures UpsertServer(text, path, key, value, serde) == Unchanged
  {
    DocumentStarts(text, before, doc, after);
    OnlyKey(Target(doc, path), key);
    var r := UpsertServer(text, path, key, value, serde);
    var written, _, _ := UpsertReplaces(text, |before|, doc, "", path, key, value, LayoutOf(text), serde, r,
                                        Target(doc, path));
  }
}

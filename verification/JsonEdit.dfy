/**
 Byte-preserving edits of a JSON text (crates/atlas-cli/src/json_edit.rs): a member is inserted, replaced or
 removed by splicing the text. What serde_json does to values is a parameter: it writes a value as some document
 and reads that text back as the value.
 */
module JsonEdit {
  import opened Wrappers
  import opened JsonStrings
  import opened JsonScan
  import opened JsonObjects

  datatype Layout = Layout(eol: string, multiline: bool, unit: string)

  /**
   serde_json's part: `write` renders a value at an indentation, `parse` reads a text, `wrap` is a one-member object.
   */
  datatype Serde<!V> = Serde(parse: string -> Option<V>, write: (V, string, Layout) -> Json, wrap: (string, V) -> V)

  datatype Edit = Unchanged | Changed(text: string) | Refused(reason: string) | Panicked

  function Splice(text: string, from: nat, to: nat, replacement: string): string
    requires from <= |text| && to <= |text|
  {
    text[..from] + replacement + text[to..]
  }

  // ----- one key among many

  datatype Place = Absent | Twice | At(index: nat)

  /** `unique`: the place of the only member of that name. */
  function PlaceOf(keys: seq<string>, name: string): (r: Place)
    ensures r.At? ==> r.index < |keys| && keys[r.index] == name
  {
    if keys == [] then Absent
    else if keys[0] == name then (if name in keys[1..] then Twice else At(0))
    else
      match PlaceOf(keys[1..], name)
      case At(i) => At(i + 1)
      case other => other
  }

  lemma {:induction false} PlaceAbsent(keys: seq<string>, name: string)
    ensures PlaceOf(keys, name).Absent? <==> name !in keys
  {
    if keys != [] && keys[0] != name {
      PlaceAbsent(keys[1..], name);
    }
  }

  lemma {:induction false} PlaceOfLast(keys: seq<string>, name: string)
    requires name !in keys
    ensures PlaceOf(keys + [name], name) == At(|keys|)
  {
    if keys == [] {
      assert ([] + [name])[1..] == [];
    } else {
      assert (keys + [name])[1..] == keys[1..] + [name];
      PlaceOfLast(keys[1..], name);
    }
  }

  function FoundKeys(found: seq<Found>): seq<string> { seq(|found|, i requires 0 <= i < |found| => found[i].key) }

  function KeysOf(members: seq<Member>): seq<string>
  {
    seq(|members|, i requires 0 <= i < |members| => Name(members[i]))
  }

  // ----- inserting

  function Indent(member: Found, otherwise: string): string
  {
    if member.indent.Some? then member.indent.value else otherwise
  }

  /** `insert_member`. */
  function InsertMember<V>(text: string, open: nat, close: nat, found: seq<Found>, name: string, value: V,
                           childBase: string, base: string, layout: Layout, serde: Serde<V>): string
    requires open < close <= |text| && forall i :: 0 <= i < |found| ==> found[i].valueEnd <= |text|
  {
    var nameJson := Quoted(Escape(name));
    if found != [] then
      var last := found[|found| - 1];
      if layout.multiline then
        var indent := Indent(last, childBase);
        Splice(text, last.valueEnd, last.valueEnd,
               "," + layout.eol + indent + nameJson + ": " + Flat(serde.write(value, indent, layout)))
      else Splice(text, last.valueEnd, last.valueEnd, "," + nameJson + ":" + Flat(serde.write(value, "", layout)))
    else if layout.multiline then
      Splice(text, open + 1, close,
             layout.eol + childBase + nameJson + ": " + Flat(serde.write(value, childBase, layout)) + layout.eol + base)
    else Splice(text, open + 1, close, nameJson + ":" + Flat(serde.write(value, "", layout)))
  }

  /** `nest`. */
  function Nest<V>(path: seq<string>, key: string, value: V, serde: Serde<V>): V
  {
    if path == [] then serde.wrap(key, value) else serde.wrap(path[0], Nest(path[1..], key, value, serde))
  }

  /** `upsert`. */
  function Upsert<V(==)>(text: string, open: nat, base: string, path: seq<string>, key: string, value: V,
                         layout: Layout, serde: Serde<V>): Edit
    decreases |path|
  {
    match ObjectAt(text, open)
    case Unsupported(reason) => Refused(reason)
    case Panics => Panicked
    case Members(close, found) =>
      var name := if path == [] then key else path[0];
      var childBase := base + if layout.multiline then layout.unit else "";
      match PlaceOf(FoundKeys(found), name)
      case Twice => Refused("duplicate key")
      case Absent =>
        var inserted := if path == [] then value else Nest(path[1..], key, value, serde);
        Changed(InsertMember(text, open, close, found, name, inserted, childBase, base, layout, serde))
      case At(i) =>
        var member := found[i];
        var current := text[member.valueStart..member.valueEnd];
        var memberBase := Indent(member, childBase);
        if path == [] then
          match serde.parse(current)
          case None => Refused("existing entry is not valid JSON")
          case Some(v) =>
            if v == value then Unchanged
            else Changed(Splice(text, member.valueStart, member.valueEnd, Flat(serde.write(value, memberBase, layout))))
        else if current == [] || current[0] != '{' then Refused("`mcpServers` is not an object")
        else Upsert(text, member.valueStart, memberBase, path[1..], key, value, layout, serde)
  }

  // ----- removing

  predicate FoundWithin(text: string, found: seq<Found>)
  {
    forall k :: 0 <= k < |found| ==> found[k].start <= |text| && found[k].valueEnd <= |text|
  }

  /** The text without the member found at `i`: what is cut takes one comma with it. */
  function CutOne(text: string, open: nat, close: nat, found: seq<Found>, i: nat): string
    requires i < |found| && open < |text| && close <= |text| && FoundWithin(text, found)
  {
    if i + 1 < |found| then Splice(text, found[i].start, found[i + 1].start, "")
    else if i > 0 then Splice(text, found[i - 1].valueEnd, found[i].valueEnd, "")
    else Splice(text, open + 1, close, "")
  }

  /** The last part of `remove_member`. */
  function RemoveAt(text: string, open: nat, key: string): Edit
  {
    match ObjectAt(text, open)
    case Unsupported(reason) => Refused(reason)
    case Panics => Panicked
    case Members(close, found) =>
      match PlaceOf(FoundKeys(found), key)
      case Absent => Unchanged
      case Twice => Refused("duplicate key")
      case At(i) => Changed(CutOne(text, open, close, found, i))
  }

  /** `remove_member` from the object at `open` on. */
  function RemoveFrom(text: string, open: nat, path: seq<string>, key: string): Edit
    decreases |path|
  {
    if path == [] then RemoveAt(text, open, key)
    else
      match ObjectAt(text, open)
      case Unsupported(reason) => Refused(reason)
      case Panics => Panicked
      case Members(close, found) =>
        match PlaceOf(FoundKeys(found), path[0])
        case Absent => Unchanged
        case Twice => Refused("duplicate key")
        case At(i) =>
          var current := text[found[i].valueStart..found[i].valueEnd];
          if current == [] || current[0] != '{' then Unchanged
          else RemoveFrom(text, found[i].valueStart, path[1..], key)
  }

  /** `remove_member`: the loop goes down the path. */
  method RemoveMember(text: string, path: seq<string>, key: string) returns (r: Edit)
    ensures r == RemoveFrom(text, SkipSpace(text, 0), path, key)
  {
    var open := SkipSpace(text, 0);
    for k := 0 to |path|
      invariant RemoveFrom(text, SkipSpace(text, 0), path, key) == RemoveFrom(text, open, path[k..], key)
    {
      assert path[k..][0] == path[k] && path[k..][1..] == path[k + 1..];
      var object' := ScanObject(text, open);
      match object' {
        case Unsupported(reason) =>
          return Refused(reason);
        case Panics =>
          return Panicked;
        case Members(close, found) =>
          match PlaceOf(FoundKeys(found), path[k]) {
            case Absent =>
              return Unchanged;
            case Twice =>
              return Refused("duplicate key");
            case At(i) =>
              var current := text[found[i].valueStart..found[i].valueEnd];
              if current == [] || current[0] != '{' {
                return Unchanged;
              }
              open := found[i].valueStart;
          }
      }
    }
    r := RemoveAt(text, open, key);
  }

  // ----- the layout of a text

  predicate AllBlankFrom(text: string, i: nat)
    requires i <= |text|
  {
    Blank(text[i..])
  }

  /** `trim_end().contains('\n')`. */
  predicate IsMultiline(text: string)
  {
    exists i :: 0 <= i < |text| && text[i] == '\n' && !AllBlankFrom(text, i + 1)
  }

  /** The spaces and tabs a line begins with. */
  function IndentOf(line: string): (indent: string)
    ensures |indent| <= |line| && forall i :: 0 <= i < |indent| ==> IndentChar(indent[i])
  {
    if line != [] && IndentChar(line[0]) then [line[0]] + IndentOf(line[1..]) else []
  }

  /** The indentation of the first line that has one and more than it. */
  function FirstIndent(text: string): (unit: string)
    ensures forall i :: 0 <= i < |unit| ==> IndentChar(unit[i])
    decreases |text|
  {
    if text == [] then "  "
    else
      var end := LineLength(text);
      var line := if end > 0 && text[end - 1] == '\r' && end < |text| then text[..end - 1] else text[..end];
      var indent := IndentOf(line);
      if indent != [] && |indent| < |line| then indent
      else if end < |text| then FirstIndent(text[end + 1..])
      else "  "
  }

  function LineLength(text: string): (n: nat)
    ensures n <= |text|
  {
    if text == [] || text[0] == '\n' then 0 else 1 + LineLength(text[1..])
  }

  predicate Contains(text: string, part: string)
  {
    part <= text || (text != [] && Contains(text[1..], part))
  }

  /** Lines end in one of two ways and are indented by spaces and tabs. */
  predicate PlainLayout(layout: Layout)
  {
    (layout.eol == "\n" || layout.eol == "\r\n") && Indentation(layout.unit)
  }

  /** `layout`. */
  function LayoutOf(text: string): (r: Layout)
    ensures PlainLayout(r)
  {
    Layout(if Contains(text, "\r\n") then "\r\n" else "\n", IsMultiline(text), FirstIndent(text))
  }

  /** `upsert_server`. */
  function UpsertServer<V(==)>(text: string, path: seq<string>, key: string, value: V, serde: Serde<V>): Edit
  {
    Upsert(text, SkipSpace(text, 0), "", path, key, value, LayoutOf(text), serde)
  }
}

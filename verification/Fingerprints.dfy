/** Tool fingerprints and the drift between two of them.  The digest is a parameter: hashing
    itself is not modelled. */
module Fingerprints {
  import opened Options
  import opened Sequences
  import opened JsonValues
  import opened CanonicalText
  import G = JsonGrammar

  datatype Description = Static(text: string) | Dynamic | NoDescription

  datatype Tool = Tool(name: string, description: Description, inputSchema: Value, title: Option<string>)

  /** A sorted map from tool names to digests, in key order. */
  type Fingerprints = seq<(string, string)>

  predicate IsSortedMap(m: Fingerprints) {
    forall i, j :: 0 <= i < j < |m| ==> Precedes(m[i].0, m[j].0)
  }

  function DescriptionJson(d: Description): Value {
    match d
    case Static(text) => Object([("type", String("string")), ("value", String(text))])
    case Dynamic => Object([("type", String("function"))])
    case NoDescription => Object([("type", String("none"))])
  }

  /** The fields of a tool that its fingerprint pins. */
  function Record(tool: Tool): Value {
    var pinned := [("description", DescriptionJson(tool.description)), ("inputSchema", tool.inputSchema)];
    Object(if tool.title.Some? then pinned + [("title", String(tool.title.value))] else pinned)
  }

  function FingerprintTools(tools: seq<Tool>, hash: string -> string): Fingerprints {
    seq(|tools|, i requires 0 <= i < |tools| => (tools[i].name, hash(CanonicalJson(Record(tools[i])))))
  }

  // ----- Drift

  datatype ToolDrift = ToolDrift(added: seq<string>, removed: seq<string>, changed: seq<string>)

  predicate IsIn(name: string, m: Fingerprints) {
    exists i :: 0 <= i < |m| && m[i].0 == name
  }

  /** The digest of a name, when present. */
  function Digest(m: Fingerprints, name: string): (r: Option<string>)
    ensures r.Some? <==> IsIn(name, m)
  {
    if m == [] then None
    else if m[0].0 == name then Some(m[0].1)
    else
      var rest := Digest(m[1..], name);
      assert forall i :: 1 <= i < |m| ==> m[i] == m[1..][i - 1];
      assert IsIn(name, m) ==> IsIn(name, m[1..]);
      rest
  }

  /** The names of `m` that satisfy `p`, in order. */
  function Names(m: Fingerprints, p: ((string, string)) -> bool): seq<string> {
    if m == [] then [] else (if p(m[0]) then [m[0].0] else []) + Names(m[1..], p)
  }

  function Added(baseline: Fingerprints): ((string, string)) -> bool {
    (entry: (string, string)) => Digest(baseline, entry.0).None?
  }

  function Changed(baseline: Fingerprints): ((string, string)) -> bool {
    (entry: (string, string)) => Digest(baseline, entry.0).Some? && Digest(baseline, entry.0) != Some(entry.1)
  }

  function Drift(current: Fingerprints, baseline: Fingerprints): ToolDrift {
    ToolDrift(Names(current, Added(baseline)), Names(baseline, Added(current)), Names(current, Changed(baseline)))
  }

  lemma {:induction false} NamesGrow(m: Fingerprints, p: ((string, string)) -> bool, k: nat)
    requires k < |m|
    ensures Names(m[..k + 1], p) == Names(m[..k], p) + if p(m[k]) then [m[k].0] else []
  {
    if k == 0 {
      assert m[..1][1..] == [] && m[..0] == [];
      assert Names(m[..1], p) == (if p(m[0]) then [m[0].0] else []) + [];
    } else {
      NamesGrow(m[1..], p, k - 1);
      assert m[1..][..k] == m[..k + 1][1..] && m[1..][..k - 1] == m[..k][1..];
    }
  }

  /** Compares two fingerprint maps. */
  method DetectToolDrift(current: Fingerprints, baseline: Fingerprints) returns (drift: ToolDrift)
    ensures drift == Drift(current, baseline)
  {
    var added, removed, changed := [], [], [];
    for i := 0 to |current|
      invariant added == Names(current[..i], Added(baseline))
      invariant changed == Names(current[..i], Changed(baseline))
    {
      NamesGrow(current, Added(baseline), i);
      NamesGrow(current, Changed(baseline), i);
      var (name, digest) := current[i];
      match Digest(baseline, name) {
        case None => added := added + [name];
        case Some(previous) => if previous != digest { changed := changed + [name]; }
      }
    }
    for i := 0 to |baseline|
      invariant removed == Names(baseline[..i], Added(current))
    {
      NamesGrow(baseline, Added(current), i);
      var name := baseline[i].0;
      if Digest(current, name).None? {
        removed := removed + [name];
      }
    }
    assert current[..|current|] == current && baseline[..|baseline|] == baseline;
    drift := ToolDrift(added, removed, changed);
  }

  lemma {:induction false} NoNames(m: Fingerprints, p: ((string, string)) -> bool)
    ensures Names(m, p) == [] <==> forall i :: 0 <= i < |m| ==> !p(m[i])
  {
    if m != [] {
      NoNames(m[1..], p);
      assert forall i :: 1 <= i < |m| ==> m[i] == m[1..][i - 1];
      if Names(m, p) == [] {
        assert !p(m[0]) && Names(m[1..], p) == [];
        forall i | 0 <= i < |m|
          ensures !p(m[i])
        {
          assert i > 0 ==> !p(m[1..][i - 1]);
        }
      }
    }
  }

  lemma {:induction false} NameIn(m: Fingerprints, p: ((string, string)) -> bool, name: string)
    ensures name in Names(m, p) <==> exists i :: 0 <= i < |m| && m[i].0 == name && p(m[i])
  {
    if m != [] {
      NameIn(m[1..], p, name);
      assert forall i :: 1 <= i < |m| ==> m[i] == m[1..][i - 1];
      if i :| 0 <= i < |m| && m[i].0 == name && p(m[i]) {
        assert i > 0 ==> m[1..][i - 1].0 == name && p(m[1..][i - 1]);
      }
    }
  }

  /** What drift lists: names only the current map has, names only the baseline has, and names
      whose digests differ. */
  lemma DriftNames(current: Fingerprints, baseline: Fingerprints, name: string)
    requires IsSortedMap(current) && IsSortedMap(baseline)
    ensures var drift := Drift(current, baseline); var now, before := Digest(current, name), Digest(baseline, name);
      && (name in drift.added <==> now.Some? && before.None?)
      && (name in drift.removed <==> now.None? && before.Some?)
      && (name in drift.changed <==> now.Some? && before.Some? && now != before)
  {
    SortedNames(current);
    NameIn(current, Added(baseline), name);
    NameIn(baseline, Added(current), name);
    NameIn(current, Changed(baseline), name);
    forall i | 0 <= i < |current|
      ensures Digest(current, current[i].0) == Some(current[i].1)
    {
      DigestAt(current, i);
    }
  }

  lemma SortedNames(m: Fingerprints)
    requires IsSortedMap(m)
    ensures forall i, j :: 0 <= i < j < |m| ==> m[i].0 != m[j].0
  {
    forall i, j | 0 <= i < j < |m|
      ensures m[i].0 != m[j].0
    {
      PrecedesOnce(m[i].0, m[j].0);
    }
  }

  lemma {:induction false} DigestAt(m: Fingerprints, i: nat)
    requires i < |m| && forall a, b :: 0 <= a < b < |m| ==> m[a].0 != m[b].0
    ensures Digest(m, m[i].0) == Some(m[i].1)
  {
    if i > 0 {
      DigestAt(m[1..], i - 1);
    }
  }

  lemma AscendingFirst(first: string, rest: seq<string>)
    requires Ascending(rest) && forall name :: name in rest ==> Precedes(first, name)
    ensures Ascending([first] + rest)
  {
    hide Precedes;
    assert forall j :: 0 <= j < |rest| ==> rest[j] in rest;
  }

  lemma InRest(m: Fingerprints, name: string)
    requires IsSortedMap(m) && m != [] && IsIn(name, m[1..])
    ensures IsIn(name, m) && Precedes(m[0].0, name)
  {
    hide Precedes;
    var i :| 0 <= i < |m[1..]| && m[1..][i].0 == name;
    assert m[i + 1].0 == name;
  }

  lemma RestIsSorted(m: Fingerprints)
    requires IsSortedMap(m) && m != []
    ensures IsSortedMap(m[1..]) && IsIn(m[0].0, m)
  {
    hide Precedes;
  }

  lemma {:induction false} NamesAscend(m: Fingerprints, p: ((string, string)) -> bool)
    requires IsSortedMap(m)
    ensures Ascending(Names(m, p)) && forall name :: name in Names(m, p) ==> IsIn(name, m)
  {
    if m != [] {
      hide Precedes, IsSortedMap, IsIn, Ascending;
      RestIsSorted(m);
      NamesAscend(m[1..], p);
      var rest := Names(m[1..], p);
      forall name | name in rest
        ensures IsIn(name, m) && Precedes(m[0].0, name)
      {
        InRest(m, name);
      }
      AscendingFirst(m[0].0, rest);
      assert [] + rest == rest;
    }
  }

  /** Each list of a drift names its tools once, in the order of the maps. */
  lemma DriftAscends(current: Fingerprints, baseline: Fingerprints, names: seq<string>)
    requires IsSortedMap(current) && IsSortedMap(baseline)
    requires var drift := Drift(current, baseline); names in [drift.added, drift.removed, drift.changed]
    ensures forall i, j :: 0 <= i < j < |names| ==> IsBefore(names[i], names[j])
  {
    NamesAscend(current, Added(baseline));
    NamesAscend(baseline, Added(current));
    NamesAscend(current, Changed(baseline));
    hide Names, Precedes;
    forall i, j | 0 <= i < j < |names|
      ensures IsBefore(names[i], names[j])
    {
      PrecedesIs(names[i], names[j]);
    }
  }

  function KeysOf(m: Fingerprints): seq<string> {
    seq(|m|, i requires 0 <= i < |m| => m[i].0)
  }

  /** There is no drift exactly between equal maps. */
  lemma NoDrift(current: Fingerprints, baseline: Fingerprints)
    requires IsSortedMap(current) && IsSortedMap(baseline)
    ensures Drift(current, baseline) == ToolDrift([], [], []) <==> current == baseline
  {
    SortedNames(current);
    SortedNames(baseline);
    NoNames(current, Added(baseline));
    NoNames(baseline, Added(current));
    NoNames(current, Changed(baseline));
    if Drift(current, baseline) == ToolDrift([], [], []) {
      SameMap(current, baseline);
    } else if current == baseline {
      forall i | 0 <= i < |current|
        ensures Digest(baseline, current[i].0) == Some(current[i].1)
      {
        DigestAt(current, i);
      }
    }
  }

  lemma KeyIn(m: Fingerprints, key: string)
    ensures key in KeysOf(m) <==> IsIn(key, m)
  {
    forall i | 0 <= i < |m|
      ensures KeysOf(m)[i] == m[i].0
    {
    }
  }

  lemma KeysAscend(m: Fingerprints)
    requires IsSortedMap(m)
    ensures Ascending(KeysOf(m))
  {
    hide Precedes;
  }

  lemma SameKeyList(current: Fingerprints, baseline: Fingerprints)
    requires IsSortedMap(current) && IsSortedMap(baseline)
    requires forall key :: IsIn(key, current) <==> IsIn(key, baseline)
    ensures KeysOf(current) == KeysOf(baseline)
  {
    hide Precedes, Ascending, IsSortedMap, IsIn, KeysOf;
    forall key
      ensures key in KeysOf(current) <==> key in KeysOf(baseline)
    {
      KeyIn(current, key);
      KeyIn(baseline, key);
    }
    KeysAscend(current);
    KeysAscend(baseline);
    AscendingUnique(KeysOf(current), KeysOf(baseline));
  }

  lemma AllIn(a: Fingerprints, b: Fingerprints)
    requires forall i :: 0 <= i < |a| ==> Digest(b, a[i].0).Some?
    ensures forall key :: IsIn(key, a) ==> IsIn(key, b)
  {
    forall key | IsIn(key, a)
      ensures IsIn(key, b)
    {
      var i :| 0 <= i < |a| && a[i].0 == key;
      assert Digest(b, a[i].0).Some?;
    }
  }

  lemma SameMap(current: Fingerprints, baseline: Fingerprints)
    requires IsSortedMap(current) && IsSortedMap(baseline)
    requires forall i :: 0 <= i < |current| ==> Digest(baseline, current[i].0) == Some(current[i].1)
    requires forall i :: 0 <= i < |baseline| ==> Digest(current, baseline[i].0).Some?
    ensures current == baseline
  {
    SortedNames(baseline);
    AllIn(current, baseline);
    AllIn(baseline, current);
    hide Precedes, IsIn, Digest;
    SameKeyList(current, baseline);
    hide IsSortedMap;
    var a, b := KeysOf(current), KeysOf(baseline);
    assert |current| == |a| == |b| == |baseline|;
    forall i | 0 <= i < |current|
      ensures current[i] == baseline[i]
    {
      assert current[i].0 == a[i] == b[i] == baseline[i].0;
      DigestAt(baseline, i);
    }
  }

  // ----- What a fingerprint pins

  predicate SamePinned(a: Tool, b: Tool) {
    a.name == b.name && a.description == b.description && a.title == b.title && Same(a.inputSchema, b.inputSchema)
  }

  lemma RecordLookup(tool: Tool, key: string)
    ensures Lookup(Record(tool).members, key) ==
      if key == "description" then Some(DescriptionJson(tool.description))
      else if key == "inputSchema" then Some(tool.inputSchema)
      else if key == "title" && tool.title.Some? then Some(String(tool.title.value))
      else None
    ensures Distinct(Record(tool).members)
  {
    var ms := Record(tool).members;
    FindUnique(ms, key, if key == "description" then 0 else if key == "inputSchema" then 1
                        else if key == "title" && tool.title.Some? then 2 else |ms|);
  }

  lemma DescriptionLookup(d: Description, key: string)
    ensures Lookup(DescriptionJson(d).members, key) ==
      if key == "type" then Some(String(if d.Static? then "string" else if d.Dynamic? then "function" else "none"))
      else if key == "value" && d.Static? then Some(String(d.text))
      else None
    ensures Distinct(DescriptionJson(d).members)
  {
    var ms := DescriptionJson(d).members;
    FindUnique(ms, key, if key == "type" then 0 else if key == "value" && d.Static? then 1 else |ms|);
  }

  /** The key leads to values equal up to key order, or to none in either object. */
  predicate SameAt(am: Members, bm: Members, key: string) {
    match (Lookup(am, key), Lookup(bm, key))
    case (Some(x), Some(y)) => Same(x, y)
    case (None, None) => true
    case _ => false
  }

  /** Objects are equal up to key order exactly when every key leads to equal values. */
  lemma SameByKey(am: Members, bm: Members)
    requires Distinct(am) && Distinct(bm)
    ensures Same(Object(am), Object(bm)) <==> forall key :: SameAt(am, bm, key)
  {
    forall i | 0 <= i < |am| ensures Find(am, am[i].0) == i { FindAt(am, i); }
    forall i | 0 <= i < |bm| ensures Find(bm, bm[i].0) == i { FindAt(bm, i); }
    if Same(Object(am), Object(bm)) {
      forall key
        ensures SameAt(am, bm, key)
      {
        assert Has(am, key) ==> am[Find(am, key)].0 == key;
        assert Has(bm, key) ==> bm[Find(bm, key)].0 == key;
      }
    }
    if forall key :: SameAt(am, bm, key) {
      forall i | 0 <= i < |am|
        ensures Has(bm, am[i].0) && Same(am[i].1, Lookup(bm, am[i].0).value)
      {
        assert SameAt(am, bm, am[i].0);
      }
      forall i | 0 <= i < |bm| ensures Has(am, bm[i].0) { assert SameAt(am, bm, bm[i].0); }
    }
  }

  lemma SameDescriptionAt(a: Description, b: Description, key: string)
    ensures SameAt(DescriptionJson(a).members, DescriptionJson(b).members, key) <==>
      match key
      case "type" => a.Static? == b.Static? && a.Dynamic? == b.Dynamic?
      case "value" => a.Static? == b.Static? && (a.Static? ==> a.text == b.text)
      case _ => true
  {
    DescriptionLookup(a, key);
    DescriptionLookup(b, key);
    hide DescriptionJson, Lookup;
    assert "string" != "function" && "string" != "none" && "function" != "none";
  }

  lemma SameDescription(a: Description, b: Description)
    ensures Same(DescriptionJson(a), DescriptionJson(b)) <==> a == b
  {
    DescriptionLookup(a, "type");
    DescriptionLookup(b, "type");
    var am, bm := DescriptionJson(a).members, DescriptionJson(b).members;
    assert DescriptionJson(a) == Object(am) && DescriptionJson(b) == Object(bm);
    hide Same, SameAt, DescriptionJson, Lookup, Distinct;
    SameByKey(am, bm);
    SameDescriptionAt(a, b, "type");
    SameDescriptionAt(a, b, "value");
    forall key | a == b
      ensures SameAt(am, bm, key)
    {
      SameDescriptionAt(a, b, key);
    }
  }

  lemma SameRecordAt(a: Tool, b: Tool, key: string)
    ensures SameAt(Record(a).members, Record(b).members, key) <==>
      match key
      case "description" => a.description == b.description
      case "inputSchema" => Same(a.inputSchema, b.inputSchema)
      case "title" => a.title == b.title
      case _ => true
  {
    RecordLookup(a, key);
    RecordLookup(b, key);
    SameDescription(a.description, b.description);
    hide Record, DescriptionJson, Lookup;
  }

  lemma SameRecord(a: Tool, b: Tool)
    ensures Same(Record(a), Record(b)) && a.name == b.name <==> SamePinned(a, b)
  {
    RecordLookup(a, "title");
    RecordLookup(b, "title");
    var am, bm := Record(a).members, Record(b).members;
    assert Record(a) == Object(am) && Record(b) == Object(bm);
    hide Same, SameAt, Record, Lookup, Distinct;
    SameByKey(am, bm);
    SameRecordAt(a, b, "description");
    SameRecordAt(a, b, "inputSchema");
    SameRecordAt(a, b, "title");
    forall key | SamePinned(a, b)
      ensures SameAt(am, bm, key)
    {
      SameRecordAt(a, b, key);
    }
  }

  // ----- The text of a record

  /** Characters that JSON strings hold as they are. */
  predicate IsWord(s: string) {
    forall i :: 0 <= i < |s| ==> 'A' <= s[i] <= 'z' && s[i] != '\\'
  }

  lemma {:induction false} WordItems(s: string)
    requires IsWord(s)
    ensures G.ItemsText(StringItems(s)) == s
  {
    if s != "" {
      assert StringItems(s)[1..] == StringItems(s[1..]);
      WordItems(s[1..]);
      assert StringItems(s)[0] == G.Plain(s[0]);
    }
  }

  lemma WordJson(s: string)
    requires IsWord(s)
    ensures StringJson(s) == "\"" + (s + "\"")
  {
    WordItems(s);
  }

  lemma KeysInOrder(ms: Members, keys: seq<string>)
    requires Distinct(ms) && Ascending(keys) && forall key :: key in keys <==> Has(ms, key)
    ensures SortedKeys(ms) == keys
  {
    SortedKeysAscend(ms);
    AscendingUnique(SortedKeys(ms), keys);
  }

  function Entry(name: string, text: string): string {
    "\"" + name + "\":" + text
  }

  lemma EntryIs(name: string, text: string, rest: string)
    ensures ("\"" + (name + "\"")) + (":" + (text + rest)) == Entry(name, text) + rest
  {
    assert ("\"" + name) + "\"" == "\"" + (name + "\"");
    assert "\"" + ":" == "\":";
    Cat2("\"" + name, "\"", ":");
    Cat2("\"" + name + "\"", ":", text);
    Cat2("\"" + name + "\"", ":", text + rest);
    Cat2("\"" + name + "\":", text, rest);
  }

  /** The text of a member, and of those after it. */
  lemma MemberText(ms: Members, keys: seq<string>, value: Value)
    requires keys != [] && IsWord(keys[0]) && Lookup(ms, keys[0]) == Some(value)
    ensures MembersJson(Object(ms), keys) ==
      Entry(keys[0], CanonicalJson(value)) + if |keys| > 1 then "," + MembersJson(Object(ms), keys[1..]) else ""
  {
    WordJson(keys[0]);
    ChildIs(Object(ms), keys[0]);
    hide CanonicalJson, StringJson, Entry;
    EntryIs(keys[0], CanonicalJson(value), if |keys| > 1 then "," + MembersJson(Object(ms), keys[1..]) else "");
  }

  lemma OneMember(ms: Members, a: string, x: Value)
    requires SortedKeys(ms) == [a] && IsWord(a) && Lookup(ms, a) == Some(x)
    ensures CanonicalJson(Object(ms)) == "{" + Entry(a, CanonicalJson(x)) + "}"
  {
    MemberText(ms, [a], x);
    ObjectText(ms);
    hide *;
    assert Entry(a, CanonicalJson(x)) + "" == Entry(a, CanonicalJson(x));
    Cat2("{", Entry(a, CanonicalJson(x)), "}");
  }

  lemma ObjectText(ms: Members)
    ensures CanonicalJson(Object(ms)) == "{" + (MembersJson(Object(ms), SortedKeys(ms)) + "}")
  {
    hide MembersJson, SortedKeys;
  }

  lemma TwoMembers(ms: Members, a: string, x: Value, b: string, y: Value)
    requires SortedKeys(ms) == [a, b] && IsWord(a) && IsWord(b) && Lookup(ms, a) == Some(x) && Lookup(ms, b) == Some(y)
    ensures CanonicalJson(Object(ms)) == "{" + Entry(a, CanonicalJson(x)) + "," + Entry(b, CanonicalJson(y)) + "}"
  {
    hide *;
    var s, t := Entry(a, CanonicalJson(x)), Entry(b, CanonicalJson(y));
    MemberText(ms, [a, b], x);
    MemberText(ms, [b], y);
    ObjectText(ms);
    assert [a, b][1..] == [b] && t + "" == t;
    FlatPair("{", s, ",", t, "}");
  }

  lemma FlatPair(o: string, s: string, m: string, t: string, e: string)
    ensures o + ((s + (m + t)) + e) == o + s + m + t + e
  {
    hide *;
    Cat2(o, s + (m + t), e);
    Cat2(o, s, m + t);
    Cat2(o + s, m, t);
  }

  lemma Flat(o: string, s: string, m: string, t: string, n: string, u: string, e: string)
    ensures o + ((s + (m + (t + (n + u)))) + e) == o + s + m + t + n + u + e
  {
    hide *;
    var r := t + (n + u);
    Cat2(o, s + (m + r), e);
    Cat2(o, s, m + r);
    Cat2(o + s, m, r);
    Cat2(o + s + m, t, n + u);
    Cat2(o + s + m + t, n, u);
  }

  lemma ThreeMembers(ms: Members, a: string, x: Value, b: string, y: Value, c: string, z: Value)
    requires SortedKeys(ms) == [a, b, c] && IsWord(a) && IsWord(b) && IsWord(c)
    requires Lookup(ms, a) == Some(x) && Lookup(ms, b) == Some(y) && Lookup(ms, c) == Some(z)
    ensures CanonicalJson(Object(ms)) ==
      "{" + Entry(a, CanonicalJson(x)) + "," + Entry(b, CanonicalJson(y)) + "," + Entry(c, CanonicalJson(z)) + "}"
  {
    hide *;
    var s, t, u := Entry(a, CanonicalJson(x)), Entry(b, CanonicalJson(y)), Entry(c, CanonicalJson(z));
    MemberText(ms, [a, b, c], x);
    MemberText(ms, [b, c], y);
    MemberText(ms, [c], z);
    ObjectText(ms);
    assert [a, b, c][1..] == [b, c] && [b, c][1..] == [c] && u + "" == u;
    Flat("{", s, ",", t, ",", u, "}");
  }

  lemma AscendingPair(a: string, b: string)
    requires a != "" && b != "" && a[0] < b[0]
    ensures Ascending([a, b]) && Ascending([a])
  {
    assert Precedes(a, b);
    hide Precedes;
  }

  lemma DescriptionKeys(d: Description)
    ensures SortedKeys(DescriptionJson(d).members) == if d.Static? then ["type", "value"] else ["type"]
  {
    var ms, keys := DescriptionJson(d).members, if d.Static? then ["type", "value"] else ["type"];
    AscendingPair("type", "value");
    DescriptionLookup(d, "type");
    forall key
      ensures key in keys <==> Has(ms, key)
    {
      DescriptionLookup(d, key);
      hide DescriptionJson;
    }
    hide DescriptionJson;
    KeysInOrder(ms, keys);
  }

  lemma WordsAre()
    ensures IsWord("type") && IsWord("value") && IsWord("description") && IsWord("inputSchema") && IsWord("title")
  {
  }

  lemma TypeOfDescription(d: Description)
    ensures DescriptionJson(d).Object?
    ensures Lookup(DescriptionJson(d).members, "type") ==
      Some(String(if d.Static? then "string" else if d.Dynamic? then "function" else "none"))
    ensures d.Static? ==> Lookup(DescriptionJson(d).members, "value") == Some(String(d.text))
  {
    DescriptionLookup(d, "type");
    DescriptionLookup(d, "value");
    assert "value" != "type";
    hide DescriptionJson, Lookup;
  }

  /** How a description is written. */
  lemma DescriptionText(d: Description)
    ensures CanonicalJson(DescriptionJson(d)) ==
      match d
      case Static(text) => "{" + Entry("type", "\"string\"") + "," + Entry("value", StringJson(text)) + "}"
      case Dynamic => "{" + Entry("type", "\"function\"") + "}"
      case NoDescription => "{" + Entry("type", "\"none\"") + "}"
  {
    hide *;
    TypeOfDescription(d);
    var ms := DescriptionJson(d).members;
    var kind := if d.Static? then "string" else if d.Dynamic? then "function" else "none";
    DescriptionKeys(d);
    KindText(kind);
    WordsAre();
    if d.Static? {
      StringIs(d.text);
      TwoMembers(ms, "type", String(kind), "value", String(d.text));
    } else {
      OneMember(ms, "type", String(kind));
    }
  }

  lemma KindText(kind: string)
    requires kind == "string" || kind == "function" || kind == "none"
    ensures CanonicalJson(String(kind)) ==
      if kind == "string" then "\"string\"" else if kind == "function" then "\"function\"" else "\"none\""
  {
    assert IsWord(kind);
    StringIs(kind);
    WordJson(kind);
    hide StringJson, CanonicalJson;
  }

  lemma RecordKeys(tool: Tool)
    ensures SortedKeys(Record(tool).members) ==
      if tool.title.Some? then ["description", "inputSchema", "title"] else ["description", "inputSchema"]
  {
    var ms := Record(tool).members;
    var keys := if tool.title.Some? then ["description", "inputSchema", "title"] else ["description", "inputSchema"];
    AscendingPair("description", "inputSchema");
    AscendingPair("description", "title");
    AscendingPair("inputSchema", "title");
    assert Precedes(["description", "inputSchema"][0], ["description", "inputSchema"][1]);
    assert Precedes(["description", "title"][0], ["description", "title"][1]);
    assert Precedes(["inputSchema", "title"][0], ["inputSchema", "title"][1]);
    RecordLookup(tool, "title");
    forall key
      ensures key in keys <==> Has(ms, key)
    {
      RecordLookup(tool, key);
      hide Record;
    }
    hide Record, Precedes;
    assert Ascending(keys);
    KeysInOrder(ms, keys);
  }

  lemma RecordMembers(tool: Tool)
    ensures Record(tool).Object?
    ensures Lookup(Record(tool).members, "description") == Some(DescriptionJson(tool.description))
    ensures Lookup(Record(tool).members, "inputSchema") == Some(tool.inputSchema)
    ensures tool.title.Some? ==> Lookup(Record(tool).members, "title") == Some(String(tool.title.value))
  {
    RecordLookup(tool, "description");
    RecordLookup(tool, "inputSchema");
    RecordLookup(tool, "title");
    assert "inputSchema" != "description" && "title" != "description" && "title" != "inputSchema";
    hide Record, DescriptionJson, Lookup;
  }

  /** What is hashed for a tool, to the character. */
  lemma RecordText(tool: Tool)
    ensures CanonicalJson(Record(tool)) ==
      "{" + Entry("description", CanonicalJson(DescriptionJson(tool.description))) + ","
      + Entry("inputSchema", CanonicalJson(tool.inputSchema))
      + (if tool.title.Some? then "," + Entry("title", StringJson(tool.title.value)) else "") + "}"
  {
    hide *;
    RecordMembers(tool);
    var ms := Record(tool).members;
    var x, y := DescriptionJson(tool.description), tool.inputSchema;
    RecordKeys(tool);
    WordsAre();
    var before := "{" + Entry("description", CanonicalJson(x)) + "," + Entry("inputSchema", CanonicalJson(y));
    if tool.title.Some? {
      var z := String(tool.title.value);
      StringIs(tool.title.value);
      ThreeMembers(ms, "description", x, "inputSchema", y, "title", z);
      Cat2(before, ",", Entry("title", CanonicalJson(z)));
    } else {
      TwoMembers(ms, "description", x, "inputSchema", y);
      assert before + "" == before;
    }
  }

  lemma StringIs(s: string)
    ensures CanonicalJson(String(s)) == StringJson(s)
  {
  }

  /** No two canonical records of these tools share a digest. */
  predicate CollisionFree(a: seq<Tool>, b: seq<Tool>, hash: string -> string) {
    forall i, j :: 0 <= i < |a| && 0 <= j < |b| ==>
      var s, t := CanonicalJson(Record(a[i])), CanonicalJson(Record(b[j])); hash(s) == hash(t) ==> s == t
  }

  lemma RecordPrintable(tool: Tool)
    requires Printable(tool.inputSchema)
    ensures Printable(Record(tool))
  {
    RecordLookup(tool, "title");
    DescriptionLookup(tool.description, "type");
  }

  /** Barring digest collisions, drift is reported exactly when the tools differ in a name, a
      description, a title, or in a schema beyond the order of object members. */
  lemma DriftIsExact(current: seq<Tool>, baseline: seq<Tool>, hash: string -> string)
    requires IsSortedMap(FingerprintTools(current, hash)) && IsSortedMap(FingerprintTools(baseline, hash))
    requires forall i :: 0 <= i < |current| ==> Printable(current[i].inputSchema)
    requires forall i :: 0 <= i < |baseline| ==> Printable(baseline[i].inputSchema)
    requires CollisionFree(current, baseline, hash)
    ensures Drift(FingerprintTools(current, hash), FingerprintTools(baseline, hash)) == ToolDrift([], [], []) <==>
      |current| == |baseline| && forall i :: 0 <= i < |current| ==> SamePinned(current[i], baseline[i])
  {
    var a, b := FingerprintTools(current, hash), FingerprintTools(baseline, hash);
    NoDrift(a, b);
    hide Drift, SamePinned, Record, CanonicalJson, Printable, Same;
    forall i | 0 <= i < |current| && i < |baseline|
      ensures a[i] == b[i] <==> SamePinned(current[i], baseline[i])
    {
      RecordPrintable(current[i]);
      RecordPrintable(baseline[i]);
      CanonicalJsonIdentifies(Record(current[i]), Record(baseline[i]));
      SameRecord(current[i], baseline[i]);
    }
    assert a == b <==> |a| == |b| && forall i :: 0 <= i < |a| ==> a[i] == b[i];
  }
}

/** Strict mode keeps the meaning of schemas: a strict schema accepts exactly what the schema
    accepts when its objects are read as closed, up to added null members. */
module StrictMeaning {
  import opened Options
  import opened JsonValues
  import opened StrictSchema
  import opened StrictProofs
  import opened StrictForm
  import opened SchemaMeaning

  // ----- The keywords of the strict schema

  lemma MeaningKeys()
    ensures "type" !in MAP_KEYS && "type" !in CHILD_KEYS && "enum" !in MAP_KEYS && "enum" !in CHILD_KEYS
    ensures "required" !in MAP_KEYS && "required" !in CHILD_KEYS
    ensures "properties" in MAP_KEYS && "items" !in MAP_KEYS && "items" in CHILD_KEYS
    ensures "anyOf" !in MAP_KEYS && "anyOf" in CHILD_KEYS
    ensures "additionalProperties" !in MAP_KEYS && "additionalProperties" in CHILD_KEYS
  {
    PropertiesKey();
    AnyOfIsChildKey();
  }

  lemma OtherKeys(key: string)
    requires key !in STRUCTURE
    ensures key !in SUBSCHEMA_KEYS && key != "required" && key != "additionalProperties"
  {
  }

  function StrictProperties(ms: Members, properties: Members): Members {
    seq(|properties|, i requires 0 <= i < |properties| =>
      (properties[i].0, StrictChild(ms, "properties", properties[i].0, properties[i].1)))
  }

  function AllStrict(items: seq<Value>): seq<Value> {
    seq(|items|, i requires 0 <= i < |items| => Strict(items[i]))
  }

  lemma StrictKept(ms: Members, key: string)
    requires HostCovered(Object(ms)) && key !in STRUCTURE
    ensures Lookup(Strict(Object(ms)).members, key) == Lookup(ms, key)
  {
    MeaningKeys();
    LookupStrict(ms, key);
    OtherKeys(key);
    hide Strict, IsObjectSchema;
    assert "propertyNames" in CHILD_KEYS && "propertyNames" !in SUBSCHEMA_KEYS by { PropertiesKey(); }
    if Has(ms, key) {
      assert key !in MAP_KEYS && key !in CHILD_KEYS;
      assert StrictMember(ms, key, Lookup(ms, key).value) == Lookup(ms, key).value;
    }
  }

  /** What the keywords say depends on their values only. */
  lemma PlainByLookups(d: Dialect, t: Members, ms: Members, x: Value)
    requires forall key :: key !in STRUCTURE ==> Lookup(t, key) == Lookup(ms, key)
    ensures PlainAllows(d, t, x) <==> PlainAllows(d, ms, x)
  {
    ValuesByLookups(d, t, ms, x);
    CountsByLookups(d, t, ms, x);
    ScalarByLookups(d, t, ms, x);
    hide STRUCTURE, Lookup, TypeAllows, EnumAllows, ConstAllows, CountsAllow, ScalarAllows;
  }

  lemma ValuesByLookups(d: Dialect, t: Members, ms: Members, x: Value)
    requires forall key :: key !in STRUCTURE ==> Lookup(t, key) == Lookup(ms, key)
    ensures TypeAllows(d, t, x) <==> TypeAllows(d, ms, x)
    ensures EnumAllows(d, t, x) <==> EnumAllows(d, ms, x)
    ensures ConstAllows(d, t, x) <==> ConstAllows(d, ms, x)
  {
    PlainKeysAre();
    hide STRUCTURE, HasType, Same, Lookup;
    assert Lookup(t, "type") == Lookup(ms, "type") && Lookup(t, "enum") == Lookup(ms, "enum");
    assert Lookup(t, "const") == Lookup(ms, "const");
  }

  lemma ScalarByLookups(d: Dialect, t: Members, ms: Members, x: Value)
    requires forall key :: key !in STRUCTURE ==> Lookup(t, key) == Lookup(ms, key)
    ensures ScalarAllows(d, t, x) <==> ScalarAllows(d, ms, x)
  {
    PlainKeysAre();
    hide STRUCTURE, MODELLED, Lookup;
  }

  lemma CountsByLookups(d: Dialect, t: Members, ms: Members, x: Value)
    requires forall key :: key !in STRUCTURE ==> Lookup(t, key) == Lookup(ms, key)
    ensures CountsAllow(d, t, x) <==> CountsAllow(d, ms, x)
  {
    PlainKeysAre();
    hide Lookup, STRUCTURE, Same, AllDifferent;
    assert Lookup(t, "minItems") == Lookup(ms, "minItems") && Lookup(t, "maxItems") == Lookup(ms, "maxItems");
    assert Lookup(t, "minProperties") == Lookup(ms, "minProperties");
    assert Lookup(t, "maxProperties") == Lookup(ms, "maxProperties");
    assert Lookup(t, "uniqueItems") == Lookup(ms, "uniqueItems");
    assert Lookup(t, "dependentRequired") == Lookup(ms, "dependentRequired");
  }

  lemma NothingPlain(d: Dialect, ms: Members, x: Value)
    requires forall key :: key !in STRUCTURE ==> Lookup(ms, key).None?
    ensures PlainAllows(d, ms, x)
  {
    forall key | key !in STRUCTURE
      ensures Lookup(ms, key) == Lookup([], key)
    {
    }
    PlainByLookups(d, ms, [], x);
  }

  lemma PlainKeysAre()
    ensures "type" !in STRUCTURE && "enum" !in STRUCTURE && "const" !in STRUCTURE && "minItems" !in STRUCTURE
    ensures "maxItems" !in STRUCTURE && "uniqueItems" !in STRUCTURE && "minProperties" !in STRUCTURE
    ensures "maxProperties" !in STRUCTURE && "dependentRequired" !in STRUCTURE
    ensures forall key :: key !in MODELLED ==> key !in STRUCTURE
  {
  }

  lemma StrictPlain(d: Dialect, ms: Members, x: Value)
    requires HostCovered(Object(ms))
    ensures PlainAllows(d, Strict(Object(ms)).members, x) <==> PlainAllows(d, ms, x)
  {
    var t := Strict(Object(ms)).members;
    hide Strict, HostCovered, PlainAllows, Lookup, STRUCTURE;
    forall key | key !in STRUCTURE
      ensures Lookup(t, key) == Lookup(ms, key)
    {
      StrictKept(ms, key);
    }
    PlainByLookups(d, t, ms, x);
  }

  lemma StrictKeyword(ms: Members, key: string)
    requires HostCovered(Object(ms)) && (key == "items" || key == "anyOf" || key == "properties")
    ensures Lookup(Strict(Object(ms)).members, key) ==
      match Lookup(ms, key)
      case None => None
      case Some(x) => Some(if key == "properties" then Object(StrictProperties(ms, Properties(ms)))
                           else if x.Array? then Array(AllStrict(x.items)) else Strict(x))
  {
    MeaningKeys();
    LookupStrict(ms, key);
    hide Strict, IsObjectSchema;
    if Has(ms, key) {
      PropertiesObject(ms);
      var x := Lookup(ms, key).value;
      var r := StrictMember(ms, key, x);
      if key == "properties" {
        assert r.members == StrictProperties(ms, x.members);
      } else if x.Array? {
        assert r.items == AllStrict(x.items);
      }
    }
  }

  /** What a strict schema requires and forbids. */
  lemma StrictDeclares(ms: Members)
    requires HostCovered(Object(ms))
    ensures var t := Strict(Object(ms)).members;
      && (ForbidsOthers(t) <==> IsObjectSchema(ms) || ForbidsOthers(ms))
      && IsObjectSchema(t) == IsObjectSchema(ms)
      && Required(t) ==
        (if IsObjectSchema(ms) && Has(ms, "properties") then StringsOf(Names(Properties(ms))) else Required(ms))
  {
    MeaningKeys();
    SameKind(ms);
    LookupStrict(ms, "additionalProperties");
    LookupStrict(ms, "required");
    hide IsObjectSchema, Strict;
    assert StrictMember(ms, "additionalProperties", Bool(false)) == Bool(false) by { FalseStrict(); }
    if Has(ms, "required") {
      assert StrictMember(ms, "required", Lookup(ms, "required").value) == Lookup(ms, "required").value;
    }
  }

  lemma FalseStrict()
    ensures Strict(Bool(false)) == Bool(false)
  {
  }

  lemma {:induction false} AllNamed(ps: Members)
    ensures |StringsOf(Names(ps))| == |ps|
    ensures forall i :: 0 <= i < |ps| ==> StringsOf(Names(ps))[i] == ps[i].0
  {
    if ps != [] {
      AllNamed(ps[1..]);
      assert Names(ps)[1..] == Names(ps[1..]);
      forall i | 0 <= i < |ps|
        ensures StringsOf(Names(ps))[i] == ps[i].0
      {
        if i > 0 {
          assert StringsOf(Names(ps))[i] == StringsOf(Names(ps[1..]))[i - 1];
        }
      }
    }
  }

  // ----- Nullable schemas accept null besides

  lemma NullSchemaLookup(key: string)
    ensures Lookup(NULL_SCHEMA.members, key) == if key == "type" then Some(String("null")) else None
  {
    assert NULL_SCHEMA.members[1..] == [];
  }

  lemma NullSchemaValid(d: Dialect, x: Value)
    ensures Valid(d, NULL_SCHEMA, x, false) <==> x == Null
  {
    var ms := NULL_SCHEMA.members;
    forall key
      ensures Lookup(ms, key) == (if key == "type" then Some(String("null")) else None)
      ensures Has(ms, key) <==> key == "type"
    {
      NullSchemaLookup(key);
    }
    assert NULL_SCHEMA == Object(ms);
    hide NULL_SCHEMA, Lookup;
    assert "type" in MODELLED;
    assert PlainAllows(d, ms, x) <==> x == Null;
    assert MembersAllow(d, Object(ms), x, false) by { NullNoMembers(d, ms, x); }
  }

  lemma NullNoMembers(d: Dialect, ms: Members, x: Value)
    requires Lookup(ms, "required").None? && Lookup(ms, "additionalProperties").None? && Lookup(ms, "properties").None?
    ensures MembersAllow(d, Object(ms), x, false)
  {
  }

  lemma NullableLookup(v: Value, key: string)
    ensures Lookup(Nullable(v).members, key) == if key == "anyOf" then Some(Array([v, NULL_SCHEMA])) else None
  {
    assert Nullable(v).members[1..] == [];
  }

  lemma NullableValid(d: Dialect, v: Value, x: Value)
    ensures Valid(d, Nullable(v), x, false) <==> Valid(d, v, x, false) || x == Null
  {
    var ms := Nullable(v).members;
    forall key
      ensures Lookup(ms, key) == (if key == "anyOf" then Some(Array([v, NULL_SCHEMA])) else None)
      ensures Has(ms, key) <==> key == "anyOf"
    {
      NullableLookup(v, key);
    }
    NullSchemaValid(d, x);
    assert Nullable(v) == Object(ms);
    hide NULL_SCHEMA, Nullable, Lookup;
    assert "anyOf" in MODELLED;
    NothingPlain(d, ms, x);
    hide PlainAllows;
    NullNoMembers(d, ms, x);
    NullableSome(d, ms, v, x);
    assert HostAllows(d, Object(ms), x, false);
  }

  lemma NullableSome(d: Dialect, ms: Members, v: Value, x: Value)
    requires Lookup(ms, "anyOf") == Some(Array([v, NULL_SCHEMA])) && (Valid(d, NULL_SCHEMA, x, false) <==> x == Null)
    ensures SomeAllows(d, Object(ms), x, false) <==> Valid(d, v, x, false) || x == Null
  {
    hide NULL_SCHEMA, Valid;
    var items := ms[Find(ms, "anyOf")].1.items;
    assert items[0] == v && items[1] == NULL_SCHEMA;
  }

  // ----- From an instance of the strict schema back to one of the schema

  lemma ObjectKind(d: Dialect, ms: Members, x: Value)
    requires x.Object? && TypeAllows(d, ms, x) && Has(ms, "properties")
    ensures IsObjectSchema(ms)
  {
  }

  /** An optional member that holds null only because the strict schema asked for it. */
  predicate Dropped(ms: Members, member: (string, Value)) {
    IsOptional(ms, member.0) && member.1 == Null
  }

  function Kept(ms: Members, x: Members, r: seq<Value>, i: nat): Members
    requires |r| == |x| && i <= |x|
    decreases |x| - i
  {
    if i == |x| then []
    else (if Dropped(ms, x[i]) then [] else [(x[i].0, r[i])]) + Kept(ms, x, r, i + 1)
  }

  lemma FindCons(member: (string, Value), rest: Members, key: string)
    ensures Find([member] + rest, key) == if key == member.0 then 0 else 1 + Find(rest, key)
  {
    assert ([member] + rest)[1..] == rest;
  }

  lemma KeptStep(ms: Members, x: Members, r: seq<Value>, i: nat)
    requires Distinct(x) && |r| == |x| && i < |x|
    ensures Kept(ms, x, r, i) == (if Dropped(ms, x[i]) then [] else [(x[i].0, r[i])]) + Kept(ms, x, r, i + 1)
    ensures Find(x, x[i].0) == i && forall key :: Find(x, key) == i ==> key == x[i].0
  {
    FindAt(x, i);
  }

  lemma {:induction false} LookupKept(ms: Members, x: Members, r: seq<Value>, i: nat, key: string)
    requires Distinct(x) && |r| == |x| && i <= |x|
    ensures var k := Find(x, key);
      Lookup(Kept(ms, x, r, i), key) == if i <= k < |x| && !Dropped(ms, x[k]) then Some(r[k]) else None
    decreases |x| - i
  {
    hide Dropped, Distinct;
    if i < |x| {
      KeptStep(ms, x, r, i);
      LookupKept(ms, x, r, i + 1, key);
      hide Kept, Find;
      var rest := Kept(ms, x, r, i + 1);
      if Dropped(ms, x[i]) {
        assert [] + rest == rest;
      } else {
        LookupCons((x[i].0, r[i]), rest, key);
      }
    }
  }

  lemma LookupCons(member: (string, Value), rest: Members, key: string)
    ensures Lookup([member] + rest, key) == if key == member.0 then Some(member.1) else Lookup(rest, key)
  {
    FindCons(member, rest, key);
  }

  /** A member that is kept, from the `i`th on. */
  predicate IsKept(ms: Members, x: Members, r: seq<Value>, i: nat, member: (string, Value))
    requires |r| == |x|
  {
    var k := Find(x, member.0);
    i <= k < |x| && !Dropped(ms, x[k]) && member.1 == r[k]
  }

  lemma {:induction false} KeptMembers(ms: Members, x: Members, r: seq<Value>, i: nat)
    requires Distinct(x) && |r| == |x| && i <= |x|
    ensures var y := Kept(ms, x, r, i); Distinct(y) && forall j :: 0 <= j < |y| ==> IsKept(ms, x, r, i, y[j])
    decreases |x| - i
  {
    if i < |x| {
      KeptMembers(ms, x, r, i + 1);
      KeptStep(ms, x, r, i);
      hide Dropped, Kept, Distinct, Find;
      var rest := Kept(ms, x, r, i + 1);
      if Dropped(ms, x[i]) {
        assert [] + rest == rest;
      } else {
        DistinctFirst((x[i].0, r[i]), rest);
      }
    }
  }

  /** A member of a strict object instance, seen through the declared property it belongs to. */
  ghost predicate MemberFits(d: Dialect, ms: Members, ps: Members, member: (string, Value)) {
    && Has(ps, member.0)
    && (Dropped(ms, member) || Valid(d, Strict(Lookup(ps, member.0).value), member.1, false))
  }

  /** What a strict object schema declares. */
  lemma StrictDeclared(ms: Members, ps: Members)
    requires HostCovered(Object(ms)) && IsObjectSchema(ms) && Lookup(ms, "properties") == Some(Object(ps))
    ensures Strict(Object(ms)).Object?
    ensures var t := Strict(Object(ms)).members;
      ForbidsOthers(t) && Lookup(t, "properties") == Some(Object(StrictProperties(ms, ps)))
  {
    StrictObject(ms);
    StrictKeyword(ms, "properties");
    StrictDeclares(ms);
    hide HostCovered, Strict, IsObjectSchema;
  }

  lemma StrictMemberFits(d: Dialect, ms: Members, ps: Members, x: Members, k: nat)
    requires HostCovered(Object(ms)) && IsObjectSchema(ms) && Lookup(ms, "properties") == Some(Object(ps))
    requires Distinct(x) && k < |x| && MembersAllow(d, Strict(Object(ms)), Object(x), false)
    ensures MemberFits(d, ms, ps, x[k])
  {
    StrictDeclared(ms, ps);
    var t := Strict(Object(ms)).members;
    var sp := StrictProperties(ms, ps);
    hide Strict, HostCovered, IsObjectSchema, Valid, Nullable;
    assert MembersAllow(d, Object(t), Object(x), false) && Properties(t) == sp;
    LookupMapped(ps, sp, x[k].0);
    var j := Find(ps, x[k].0);
    assert Has(sp, x[k].0);
    FindAt(x, k);
    assert Valid(d, sp[j].1, x[k].1, false);
    assert sp[j].1 == StrictChild(ms, "properties", ps[j].0, ps[j].1);
    NullableValid(d, Strict(ps[j].1), x[k].1);
  }

  lemma StrictObject(ms: Members)
    ensures Strict(Object(ms)).Object?
  {
  }

  /** `y` is an instance from which a member that is not dropped comes. */
  ghost predicate Comes(d: Dialect, ms: Members, ps: Members, member: (string, Value), y: Value)
  {
    && Has(ps, member.0)
    && (!Dropped(ms, member) ==>
          WellFormed(y) && AddsNulls(y, member.1) && Valid(d, Lookup(ps, member.0).value, y, true))
  }

  lemma MemberComesFrom(d: Dialect, ms: Members, ps: Members, member: (string, Value)) returns (y: Value)
    requires HostCovered(Object(ms)) && Lookup(ms, "properties") == Some(Object(ps))
    requires WellFormed(member.1) && MemberFits(d, ms, ps, member)
    ensures Comes(d, ms, ps, member, y)
    decreases Object(ms), 0, 0
  {
    if Dropped(ms, member) {
      y := Null;
    } else {
      PropertyCovered(ms, ps, member.0);
      hide HostCovered, Covered, Strict, Valid, AddsNulls, Dropped;
      y := ComesFrom(d, Lookup(ps, member.0).value, member.1);
    }
  }

  /** The instances from which the members of a strict object instance come. */
  lemma MembersComeFrom(d: Dialect, ms: Members, ps: Members, x: Members) returns (r: seq<Value>)
    requires HostCovered(Object(ms)) && Lookup(ms, "properties") == Some(Object(ps))
    requires forall i :: 0 <= i < |x| ==> WellFormed(x[i].1) && MemberFits(d, ms, ps, x[i])
    ensures |r| == |x| && forall i :: 0 <= i < |x| ==> Comes(d, ms, ps, x[i], r[i])
    decreases Object(ms), 0, 1 + |x|
  {
    hide HostCovered, Comes, WellFormed;
    if x == [] {
      r := [];
    } else {
      var first := MemberComesFrom(d, ms, ps, x[0]);
      var rest := MembersComeFrom(d, ms, ps, x[1..]);
      r := [first] + rest;
      forall i | 0 < i < |x|
        ensures x[i] == x[1..][i - 1] && r[i] == rest[i - 1]
      {
      }
    }
  }

  lemma PropertyCovered(ms: Members, ps: Members, name: string)
    requires HostCovered(Object(ms)) && Lookup(ms, "properties") == Some(Object(ps)) && Has(ps, name)
    ensures Covered(Lookup(ps, name).value) && Lookup(ps, name).value < Object(ms)
    ensures Distinct(ps)
  {
    var i := Find(ms, "properties");
    var j := Find(ps, name);
    assert Covered(ms[i].1.members[j].1);
    assert ps[j].1 < ms[i].1;
  }

  lemma ObjectComesFrom(d: Dialect, ms: Members, ps: Members, x: Members) returns (y: Value)
    requires HostCovered(Object(ms)) && Lookup(ms, "properties") == Some(Object(ps))
    requires WellFormed(Object(x)) && HostAllows(d, Strict(Object(ms)), Object(x), false)
    ensures WellFormed(y) && AddsNulls(y, Object(x)) && HostAllows(d, Object(ms), y, true)
    decreases Object(ms), 1
  {
    StrictPlain(d, ms, Object(x));
    StrictObject(ms);
    ObjectKind(d, ms, Object(x));
    hide Strict, IsObjectSchema, PlainAllows, MembersAllow, ItemsAllow, Valid;
    forall i | 0 <= i < |x|
      ensures WellFormed(x[i].1) && MemberFits(d, ms, ps, x[i])
    {
      StrictMemberFits(d, ms, ps, x, i);
    }
    var r := MembersComeFrom(d, ms, ps, x);
    y := Object(Kept(ms, x, r, 0));
    PropertiesDistinct(ms, ps);
    RequiredKept(d, ms, ps, x, r);
    KeptFits(d, ms, ps, x, r);
    PlainSame(d, ms, y, Object(x));
    KeptAllowed(d, ms, ps, y);
  }

  lemma PropertiesDistinct(ms: Members, ps: Members)
    requires HostCovered(Object(ms)) && Lookup(ms, "properties") == Some(Object(ps))
    ensures Distinct(ps) && PlainCovered(ms)
  {
  }

  lemma KeptFits(d: Dialect, ms: Members, ps: Members, x: Members, r: seq<Value>)
    requires Lookup(ms, "properties") == Some(Object(ps)) && Distinct(ps)
    requires Distinct(x) && |r| == |x| && forall i :: 0 <= i < |x| ==> Has(ps, x[i].0)
    requires forall i :: 0 <= i < |x| ==> Comes(d, ms, ps, x[i], r[i])
    ensures var y := Kept(ms, x, r, 0);
      && WellFormed(Object(y)) && AddsNulls(Object(y), Object(x))
      && (forall j :: 0 <= j < |y| ==> Has(ps, y[j].0))
      && forall j :: 0 <= j < |ps| && Has(y, ps[j].0) ==> Valid(d, ps[j].1, Lookup(y, ps[j].0).value, true)
  {
    hide Valid, AddsNulls, WellFormed, Kept, Lookup, Dropped;
    KeptAddsNulls(ms, x, r);
    KeptWellFormed(ms, x, r);
    KeptValid(d, ms, ps, x, r);
  }

  lemma KeptAllowed(d: Dialect, ms: Members, ps: Members, y: Value)
    requires Lookup(ms, "properties") == Some(Object(ps)) && y.Object?
    requires PlainAllows(d, ms, y) && forall j :: 0 <= j < |Required(ms)| ==> Has(y.members, Required(ms)[j])
    requires forall j :: 0 <= j < |y.members| ==> Has(ps, y.members[j].0)
    requires forall j :: 0 <= j < |ps| && Has(y.members, ps[j].0) ==>
      Valid(d, ps[j].1, Lookup(y.members, ps[j].0).value, true)
    ensures HostAllows(d, Object(ms), y, true)
  {
    hide PlainAllows, IsObjectSchema;
  }

  lemma KeptWellFormed(ms: Members, x: Members, r: seq<Value>)
    requires Distinct(x) && |r| == |x|
    requires forall i :: 0 <= i < |x| && !Dropped(ms, x[i]) ==> WellFormed(r[i])
    ensures WellFormed(Object(Kept(ms, x, r, 0)))
  {
    KeptMembers(ms, x, r, 0);
  }

  lemma KeptAddsNulls(ms: Members, x: Members, r: seq<Value>)
    requires Distinct(x) && |r| == |x|
    requires forall i :: 0 <= i < |x| && !Dropped(ms, x[i]) ==> AddsNulls(r[i], x[i].1)
    ensures AddsNulls(Object(Kept(ms, x, r, 0)), Object(x))
  {
    KeptMembers(ms, x, r, 0);
    var y := Kept(ms, x, r, 0);
    forall i | 0 <= i < |x|
      ensures if Has(y, x[i].0) then AddsNulls(Lookup(y, x[i].0).value, x[i].1) else x[i].1 == Null
    {
      FindAt(x, i);
      LookupKept(ms, x, r, 0, x[i].0);
    }
  }

  /** Required members are not dropped. */
  lemma RequiredKept(d: Dialect, ms: Members, ps: Members, x: Members, r: seq<Value>)
    requires HostCovered(Object(ms)) && IsObjectSchema(ms) && Lookup(ms, "properties") == Some(Object(ps))
    requires Distinct(x) && |r| == |x| && MembersAllow(d, Strict(Object(ms)), Object(x), false)
    ensures forall j :: 0 <= j < |Required(ms)| ==> Has(Kept(ms, x, r, 0), Required(ms)[j])
  {
    hide Kept;
    forall j | 0 <= j < |Required(ms)|
      ensures Has(Kept(ms, x, r, 0), Required(ms)[j])
    {
      var name := Required(ms)[j];
      RequiredHeld(d, ms, ps, x, name);
      LookupKept(ms, x, r, 0, name);
    }
  }

  lemma RequiredHeld(d: Dialect, ms: Members, ps: Members, x: Members, name: string)
    requires HostCovered(Object(ms)) && IsObjectSchema(ms) && Lookup(ms, "properties") == Some(Object(ps))
    requires MembersAllow(d, Strict(Object(ms)), Object(x), false) && name in Required(ms)
    ensures Has(x, name) && !IsOptional(ms, name)
  {
    StrictDeclares(ms);
    StrictObject(ms);
    AllNamed(ps);
    var t := Strict(Object(ms)).members;
    assert Has(ps, name);
    hide HostCovered, Strict, IsObjectSchema, Valid;
    assert MembersAllow(d, Object(t), Object(x), false);
    assert Required(t)[Find(ps, name)] == name;
  }

  lemma KeptValid(d: Dialect, ms: Members, ps: Members, x: Members, r: seq<Value>)
    requires Lookup(ms, "properties") == Some(Object(ps)) && Distinct(ps)
    requires Distinct(x) && |r| == |x| && forall i :: 0 <= i < |x| ==> Has(ps, x[i].0)
    requires forall i :: 0 <= i < |x| && !Dropped(ms, x[i]) ==> Valid(d, Lookup(ps, x[i].0).value, r[i], true)
    ensures var y := Kept(ms, x, r, 0);
      && (forall j :: 0 <= j < |y| ==> Has(ps, y[j].0))
      && forall j :: 0 <= j < |ps| && Has(y, ps[j].0) ==> Valid(d, ps[j].1, Lookup(y, ps[j].0).value, true)
  {
    KeptMembers(ms, x, r, 0);
    var y := Kept(ms, x, r, 0);
    forall j | 0 <= j < |ps| && Has(y, ps[j].0)
      ensures Valid(d, ps[j].1, Lookup(y, ps[j].0).value, true)
    {
      FindAt(ps, j);
      LookupKept(ms, x, r, 0, ps[j].0);
    }
  }

  lemma ItemsComeFrom(d: Dialect, s: Value, xs: seq<Value>) returns (ys: seq<Value>)
    requires Covered(s) && forall i :: 0 <= i < |xs| ==> WellFormed(xs[i]) && Valid(d, Strict(s), xs[i], false)
    ensures |ys| == |xs|
    ensures forall i :: 0 <= i < |xs| ==> WellFormed(ys[i]) && AddsNulls(ys[i], xs[i]) && Valid(d, s, ys[i], true)
    decreases s, 4, |xs|
  {
    hide *;
    if xs == [] {
      ys := [];
    } else {
      var first := ComesFrom(d, s, xs[0]);
      var rest := ItemsComeFrom(d, s, xs[1..]);
      ys := [first] + rest;
      forall i | 0 < i < |xs|
        ensures xs[i] == xs[1..][i - 1] && ys[i] == rest[i - 1]
      {
      }
    }
  }

  /** Every instance of the strict schema comes from an instance of the schema, one with
      declared members only, by adding null members. */
  lemma ComesFrom(d: Dialect, s: Value, x: Value) returns (y: Value)
    requires Covered(s) && WellFormed(x) && Valid(d, Strict(s), x, false)
    ensures WellFormed(y) && AddsNulls(y, x) && Valid(d, s, y, true)
    decreases s, 3
  {
    if s.Bool? {
      AddsNothing(x);
      y := x;
    } else {
      var ms := s.members;
      StrictObject(ms);
      if Has(ms, "anyOf") {
        y := SomeComeFrom(d, ms, x);
      } else {
        y := HostComesFrom(d, ms, x);
        NoAlternatives(d, ms, y, true);
      }
    }
  }

  lemma NoAlternatives(d: Dialect, ms: Members, x: Value, closed: bool)
    requires !Has(ms, "anyOf")
    ensures SomeAllows(d, Object(ms), x, closed)
  {
  }

  /** The same for the keywords beside the alternatives. */
  lemma HostComesFrom(d: Dialect, ms: Members, x: Value) returns (y: Value)
    requires HostCovered(Object(ms)) && WellFormed(x) && HostAllows(d, Strict(Object(ms)), x, false)
    ensures WellFormed(y) && AddsNulls(y, x) && HostAllows(d, Object(ms), y, true)
    decreases Object(ms), 2
  {
    hide HostCovered, HostAllows, Strict;
    if x.Object? && Has(ms, "properties") {
      PropertiesObject(ms);
      y := ObjectComesFrom(d, ms, Properties(ms), x.members);
    } else if x.Array? && Has(ms, "items") {
      y := ArrayComesFrom(d, ms, x);
    } else {
      y := x;
      AddsNothing(x);
      PlainHost(d, ms, x);
    }
  }

  lemma PropertiesObject(ms: Members)
    requires HostCovered(Object(ms))
    ensures Has(ms, "properties") ==> Lookup(ms, "properties") == Some(Object(Properties(ms)))
  {
  }

  /** What a schema without declared properties says about the members of an object. */
  lemma BareMembers(d: Dialect, s: Value, x: Value, closed: bool)
    requires s.Object? && x.Object? && Lookup(s.members, "properties").None? && Required(s.members) == []
    ensures MembersAllow(d, s, x, closed) <==>
      (ForbidsOthers(s.members) || (closed && IsObjectSchema(s.members)) ==> x.members == [])
  {
    hide IsObjectSchema, Required;
    assert Properties(s.members) == [];
    assert forall key :: !Has([], key);
    if x.members != [] {
      assert !Has(Properties(s.members), x.members[0].0);
    }
  }

  lemma RequiredIsDeclared(ms: Members)
    requires HostCovered(Object(ms))
    ensures Required(ms) != [] ==> Properties(ms) != []
  {
    hide Required, IsObjectSchema;
    if Required(ms) != [] {
      assert Has(Properties(ms), Required(ms)[0]);
    }
  }

  lemma NothingRequired(ms: Members)
    requires HostCovered(Object(ms)) && !Has(ms, "properties")
    ensures Required(ms) == []
  {
    RequiredIsDeclared(ms);
    hide Required, HostCovered;
  }

  lemma PlainMembersAgree(d: Dialect, ms: Members, x: Value)
    requires HostCovered(Object(ms)) && (x.Object? ==> !Has(ms, "properties"))
    ensures MembersAllow(d, Strict(Object(ms)), x, false) <==> MembersAllow(d, Object(ms), x, true)
  {
    StrictObject(ms);
    if x.Object? {
      NothingRequired(ms);
      StrictDeclares(ms);
      StrictKeyword(ms, "properties");
      hide Strict, HostCovered, IsObjectSchema, MembersAllow, Required, ForbidsOthers;
      BareMembers(d, Object(ms), x, true);
      BareMembers(d, Strict(Object(ms)), x, false);
    }
  }

  lemma PlainItemsAgree(d: Dialect, ms: Members, x: Value)
    requires HostCovered(Object(ms)) && (x.Array? ==> !Has(ms, "items"))
    ensures Strict(Object(ms)).Object?
    ensures ItemsAllow(d, Strict(Object(ms)), x, false) && ItemsAllow(d, Object(ms), x, true)
  {
    StrictObject(ms);
    StrictKeyword(ms, "items");
    hide Strict, HostCovered;
  }

  lemma PlainHost(d: Dialect, ms: Members, x: Value)
    requires HostCovered(Object(ms))
    requires x.Object? ==> !Has(ms, "properties")
    requires x.Array? ==> !Has(ms, "items")
    ensures Strict(Object(ms)).Object?
    ensures HostAllows(d, Strict(Object(ms)), x, false) <==> HostAllows(d, Object(ms), x, true)
  {
    StrictPlain(d, ms, x);
    PlainMembersAgree(d, ms, x);
    PlainItemsAgree(d, ms, x);
    hide Strict, PlainAllows, MembersAllow, ItemsAllow, HostCovered;
  }

  lemma ArrayComesFrom(d: Dialect, ms: Members, x: Value) returns (y: Value)
    requires HostCovered(Object(ms)) && HostAllows(d, Strict(Object(ms)), x, false)
    requires x.Array? && Has(ms, "items") && WellFormed(x)
    ensures WellFormed(y) && AddsNulls(y, x) && HostAllows(d, Object(ms), y, true)
    decreases Object(ms), 1
  {
    StrictPlain(d, ms, x);
    StrictItems(d, ms, x.items);
    ItemsCovered(ms);
    hide Strict, PlainAllows, HostCovered, Valid, Covered;
    var ys := ItemsComeFrom(d, Lookup(ms, "items").value, x.items);
    y := Array(ys);
    HostPlain(ms);
    PlainSame(d, ms, y, x);
  }

  lemma ItemsCovered(ms: Members)
    requires HostCovered(Object(ms)) && Has(ms, "items")
    ensures var c := Lookup(ms, "items").value; Covered(c) && c < Object(ms) && !c.Array?
  {
    var i := Find(ms, "items");
    assert ms[i].1 < Object(ms);
  }

  lemma HostPlain(ms: Members)
    requires HostCovered(Object(ms))
    ensures PlainCovered(ms) && Distinct(ms)
  {
  }

  lemma StrictItems(d: Dialect, ms: Members, xs: seq<Value>)
    requires HostCovered(Object(ms)) && Has(ms, "items")
    ensures Strict(Object(ms)).Object?
    ensures ItemsAllow(d, Strict(Object(ms)), Array(xs), false) <==>
      forall i :: 0 <= i < |xs| ==> Valid(d, Strict(Lookup(ms, "items").value), xs[i], false)
  {
    StrictObject(ms);
    StrictKeyword(ms, "items");
    ItemsCovered(ms);
    hide Strict, HostCovered, Covered, Valid;
    var t := Strict(Object(ms)).members;
    assert t[Find(t, "items")].1 == Strict(Lookup(ms, "items").value);
  }

  lemma SomeComeFrom(d: Dialect, ms: Members, x: Value) returns (y: Value)
    requires Covered(Object(ms)) && Valid(d, Strict(Object(ms)), x, false) && Has(ms, "anyOf")
    requires WellFormed(x)
    ensures WellFormed(y) && AddsNulls(y, x) && Valid(d, Object(ms), y, true)
    decreases Object(ms), 3, 0
  {
    StrictObject(ms);
    SomeStrict(d, ms, x);
    var branches := Branches(ms);
    var i :| 0 <= i < |branches| && Valid(d, Strict(branches[i]), x, false);
    BranchCovered(ms, i);
    hide Covered, HostAllows, SomeAllows, Strict, AddsNulls;
    hide WellFormed, SkipsMembers, SkipsItems, HostSkipsMembers, HostSkipsItems;
    if HostSkips(ms, x) {
      y := ComesFrom(d, branches[i], x);
      HostAgrees(d, ms, y, x);
    } else {
      y := HostComesFrom(d, ms, x);
      SkipsAgree(d, branches[i], y, x);
    }
    SomeBranch(d, ms, y, i, true);
  }

  lemma BranchCovered(ms: Members, i: nat)
    requires Covered(Object(ms)) && i < |Branches(ms)|
    ensures HostCovered(Object(ms)) && Covered(Branches(ms)[i]) && Branches(ms)[i] < Object(ms)
    ensures HostSkipsMembers(ms) || SkipsMembers(Branches(ms)[i])
    ensures HostSkipsItems(ms) || SkipsItems(Branches(ms)[i])
  {
    hide SkipsMembers, SkipsItems, HostSkipsMembers, HostSkipsItems;
    assert BranchesCovered(Object(ms));
    var k := Find(ms, "anyOf");
    assert Covered(ms[k].1.items[i]) && ms[k].1.items[i] < ms[k].1;
  }

  /** The alternatives of the strict schema are the rewritten alternatives. */
  lemma SomeStrict(d: Dialect, ms: Members, x: Value)
    requires HostCovered(Object(ms)) && Has(ms, "anyOf")
    ensures Strict(Object(ms)).Object?
    ensures SomeAllows(d, Strict(Object(ms)), x, false) <==>
      exists i :: 0 <= i < |Branches(ms)| && Valid(d, Strict(Branches(ms)[i]), x, false)
  {
    StrictObject(ms);
    StrictKeyword(ms, "anyOf");
    var strict := AllStrict(Branches(ms));
    assert Lookup(Strict(Object(ms)).members, "anyOf") == Some(Array(strict));
    hide Strict, HostCovered, Valid;
    forall i | 0 <= i < |Branches(ms)|
      ensures Valid(d, strict[i], x, false) == Valid(d, Strict(Branches(ms)[i]), x, false)
    {
    }
  }

  lemma SomeBranch(d: Dialect, ms: Members, x: Value, i: nat, closed: bool)
    requires i < |Branches(ms)| && Valid(d, Branches(ms)[i], x, closed)
    ensures SomeAllows(d, Object(ms), x, closed)
  {
    hide Valid;
  }

  // ----- Schemas that do not notice null members

  predicate HostSkips(ms: Members, x: Value) {
    (x.Object? ==> HostSkipsMembers(ms)) && (x.Array? ==> HostSkipsItems(ms))
  }

  predicate Skips(s: Value, x: Value) {
    (x.Object? ==> SkipsMembers(s)) && (x.Array? ==> SkipsItems(s))
  }

  /** A schema that does not notice null members agrees with its strict form. */
  lemma {:induction false} SkipsAgree(d: Dialect, s: Value, y: Value, x: Value)
    requires Covered(s) && AddsNulls(y, x) && Skips(s, x)
    ensures Valid(d, s, y, true) <==> Valid(d, Strict(s), x, false)
    decreases s, 3
  {
    if s.Object? {
      var ms := s.members;
      StrictObject(ms);
      HostPlain(ms);
      hide Valid, PlainAllows, Strict, HostCovered, Covered, AddsNulls, Skips;
      PlainSame(d, ms, y, x);
      StrictPlain(d, ms, x);
      RefusedIsNot(d, ms, x);
      ValidIs(d, s, y, true);
      ValidIs(d, Strict(s), x, false);
      if PlainAllows(d, ms, x) {
        SkipsUnrefused(ms, x);
        HostAgrees(d, ms, y, x);
        BranchesAgree(d, ms, y, x);
      } else {
        NotPlain(d, s, y, true);
        NotPlain(d, Strict(s), x, false);
      }
    }
  }

  lemma ValidIs(d: Dialect, s: Value, x: Value, closed: bool)
    requires s.Object?
    ensures Valid(d, s, x, closed) <==> HostAllows(d, s, x, closed) && SomeAllows(d, s, x, closed)
  {
    hide HostAllows, SomeAllows;
  }

  lemma NotPlain(d: Dialect, s: Value, x: Value, closed: bool)
    requires s.Object? && !PlainAllows(d, s.members, x)
    ensures !HostAllows(d, s, x, closed)
  {
  }

  lemma SkipsUnrefused(ms: Members, x: Value)
    requires Skips(Object(ms), x) && (x.Object? ==> !Refuses(ms, "object")) && (x.Array? ==> !Refuses(ms, "array"))
    ensures HostSkips(ms, x) && forall i :: 0 <= i < |Branches(ms)| ==> Skips(Branches(ms)[i], x)
  {
    hide Refuses, IsObjectSchema, HostSkipsMembers, HostSkipsItems;
    forall i | 0 <= i < |Branches(ms)|
      ensures Skips(Branches(ms)[i], x)
    {
      assert Branches(ms)[i] == ms[Find(ms, "anyOf")].1.items[i];
    }
  }

  lemma BranchesAgree(d: Dialect, ms: Members, y: Value, x: Value)
    requires Covered(Object(ms)) && AddsNulls(y, x)
    requires forall i :: 0 <= i < |Branches(ms)| ==> Skips(Branches(ms)[i], x)
    ensures Strict(Object(ms)).Object?
    ensures SomeAllows(d, Object(ms), y, true) <==> SomeAllows(d, Strict(Object(ms)), x, false)
    decreases Object(ms), 2
  {
    StrictObject(ms);
    if Has(ms, "anyOf") {
      SomeStrict(d, ms, x);
      SomeIs(d, ms, y);
      forall i | 0 <= i < |Branches(ms)|
        ensures Valid(d, Branches(ms)[i], y, true) <==> Valid(d, Strict(Branches(ms)[i]), x, false)
      {
        BranchCovered(ms, i);
        SkipsAgree(d, Branches(ms)[i], y, x);
      }
      hide Strict, Covered, HostCovered, Valid, SomeAllows, Skips, AddsNulls;
    } else {
      BareStrict(ms);
      hide Strict, Covered;
      NoAlternatives(d, ms, y, true);
      NoAlternatives(d, Strict(Object(ms)).members, x, false);
    }
  }

  lemma BareStrict(ms: Members)
    requires HostCovered(Object(ms)) && !Has(ms, "anyOf")
    ensures Strict(Object(ms)).Object? && !Has(Strict(Object(ms)).members, "anyOf")
  {
    StrictObject(ms);
    StrictKeyword(ms, "anyOf");
  }

  /** Keywords that do not notice null members agree with their strict form. */
  lemma HostAgrees(d: Dialect, ms: Members, y: Value, x: Value)
    requires HostCovered(Object(ms)) && AddsNulls(y, x) && HostSkips(ms, x)
    ensures Strict(Object(ms)).Object?
    ensures HostAllows(d, Object(ms), y, true) <==> HostAllows(d, Strict(Object(ms)), x, false)
    decreases Object(ms), 1
  {
    StrictObject(ms);
    HostPlain(ms);
    PlainSame(d, ms, y, x);
    StrictPlain(d, ms, x);
    RefusedIsNot(d, ms, x);
    SameShape(y, x);
    if PlainAllows(d, ms, x) {
      MembersAgree(d, ms, y, x);
      if x.Array? {
        if x.items != [] {
          LengthHolds(ms, |x.items|);
        }
        ItemsAgree(d, ms, y, x);
      }
      hide Strict, PlainAllows, HostCovered, MembersAllow;
      assert !x.Array? ==> ItemsAllow(d, Object(ms), y, true) && ItemsAllow(d, Strict(Object(ms)), x, false);
    }
  }

  lemma MembersAgree(d: Dialect, ms: Members, y: Value, x: Value)
    requires HostCovered(Object(ms)) && y.Object? == x.Object? && (x.Object? ==> HostSkipsMembers(ms))
    requires PlainAllows(d, ms, x)
    ensures Strict(Object(ms)).Object?
    ensures MembersAllow(d, Object(ms), y, true) && MembersAllow(d, Strict(Object(ms)), x, false)
  {
    StrictObject(ms);
    if x.Object? {
      HostPlain(ms);
      RefusedIsNot(d, ms, x);
      assert !IsObjectSchema(ms) && !ForbidsOthers(ms);
      if Has(ms, "properties") {
        ObjectKind(d, ms, x);
      }
      PlainMembersAgree(d, ms, x);
      NothingRequired(ms);
      hide Strict, HostCovered, IsObjectSchema, MembersAllow, Required;
      BareMembers(d, Object(ms), y, true);
      BareMembers(d, Object(ms), x, true);
    }
  }

  lemma ItemsAgree(d: Dialect, ms: Members, y: Value, x: Value)
    requires HostCovered(Object(ms)) && AddsNulls(y, x) && x.Array? && HostSkipsItems(ms) && !Refuses(ms, "array")
    requires x.items != [] ==> HoldsItems(ms)
    ensures Strict(Object(ms)).Object?
    ensures ItemsAllow(d, Object(ms), y, true) <==> ItemsAllow(d, Strict(Object(ms)), x, false)
    decreases Object(ms), 0
  {
    StrictObject(ms);
    if Has(ms, "items") {
      ItemsCovered(ms);
      var c := Lookup(ms, "items").value;
      StrictItems(d, ms, x.items);
      forall i | 0 <= i < |x.items|
        ensures Valid(d, c, y.items[i], true) <==> Valid(d, Strict(c), x.items[i], false)
      {
        SkipsAgree(d, c, y.items[i], x.items[i]);
      }
      hide Strict, HostCovered, Covered, Valid, SkipsMembers, SkipsItems;
    } else {
      StrictKeyword(ms, "items");
      hide Strict, HostCovered;
    }
  }

  // ----- From an instance of the schema to one of the strict schema

  function Filled(y: Members, r: seq<Value>): Members
    requires |r| == |y|
  {
    seq(|y|, i requires 0 <= i < |y| => (y[i].0, r[i]))
  }

  /** The declared members that an object lacks, as nulls. */
  function Missing(ps: Members, y: Members, i: nat): Members
    requires i <= |ps|
    decreases |ps| - i
  {
    if i == |ps| then [] else (if Has(y, ps[i].0) then [] else [(ps[i].0, Null)]) + Missing(ps, y, i + 1)
  }

  lemma {:induction false} LookupMissing(ps: Members, y: Members, i: nat, key: string)
    requires Distinct(ps) && i <= |ps|
    ensures Lookup(Missing(ps, y, i), key) == if i <= Find(ps, key) < |ps| && !Has(y, key) then Some(Null) else None
    decreases |ps| - i
  {
    if i < |ps| {
      MissingStep(ps, y, i);
      FindAt(ps, i);
      LookupMissing(ps, y, i + 1, key);
      hide Missing, Distinct, Find, IsMissing;
      var rest := Missing(ps, y, i + 1);
      if Has(y, ps[i].0) {
        assert [] + rest == rest;
      } else {
        LookupCons((ps[i].0, Null), rest, key);
      }
    }
  }

  /** A null for a declared member, from the `i`th on, that the object lacks. */
  predicate IsMissing(ps: Members, y: Members, i: nat, member: (string, Value)) {
    i <= Find(ps, member.0) < |ps| && !Has(y, member.0) && member.1 == Null
  }

  lemma MissingStep(ps: Members, y: Members, i: nat)
    requires Distinct(ps) && i < |ps|
    ensures Missing(ps, y, i) == (if Has(y, ps[i].0) then [] else [(ps[i].0, Null)]) + Missing(ps, y, i + 1)
    ensures !Has(y, ps[i].0) ==> IsMissing(ps, y, i, (ps[i].0, Null))
    ensures forall member :: IsMissing(ps, y, i + 1, member) ==> member.0 != ps[i].0 && IsMissing(ps, y, i, member)
  {
    FindAt(ps, i);
  }

  lemma {:induction false} MissingMembers(ps: Members, y: Members, i: nat)
    requires Distinct(ps) && i <= |ps|
    ensures var m := Missing(ps, y, i); Distinct(m) && forall j :: 0 <= j < |m| ==> IsMissing(ps, y, i, m[j])
    decreases |ps| - i
  {
    if i < |ps| {
      MissingMembers(ps, y, i + 1);
      MissingStep(ps, y, i);
      hide Missing, IsMissing, Has, Distinct;
      var rest := Missing(ps, y, i + 1);
      forall j | 0 <= j < |rest|
        ensures rest[j].0 != ps[i].0 && IsMissing(ps, y, i, rest[j])
      {
      }
      if Has(y, ps[i].0) {
        assert [] + rest == rest;
      } else {
        DistinctFirst((ps[i].0, Null), rest);
      }
    }
  }

  lemma DistinctFirst(member: (string, Value), rest: Members)
    requires Distinct(rest) && forall j :: 0 <= j < |rest| ==> rest[j].0 != member.0
    ensures Distinct([member] + rest)
  {
  }

  lemma FindCat(a: Members, b: Members, key: string)
    ensures Find(a + b, key) == if Has(a, key) then Find(a, key) else |a| + Find(b, key)
  {
    FindUnique(a + b, key, if Has(a, key) then Find(a, key) else |a| + Find(b, key));
  }

  lemma LookupFilled(ps: Members, y: Members, r: seq<Value>, key: string)
    requires Distinct(ps) && |r| == |y|
    ensures Lookup(Filled(y, r) + Missing(ps, y, 0), key) ==
      if Has(y, key) then Some(r[Find(y, key)]) else if Has(ps, key) then Some(Null) else None
  {
    LookupMapped(y, Filled(y, r), key);
    FindCat(Filled(y, r), Missing(ps, y, 0), key);
    LookupMissing(ps, y, 0, key);
  }

  /** `x` is an instance that a member extends to. */
  ghost predicate Extends(d: Dialect, ps: Members, member: (string, Value), x: Value) {
    && Has(ps, member.0)
    && WellFormed(x) && AddsNulls(member.1, x) && Valid(d, Strict(Lookup(ps, member.0).value), x, false)
  }

  /** A closed member of a declared name. */
  ghost predicate ClosedMember(d: Dialect, ps: Members, member: (string, Value)) {
    WellFormed(member.1) && Has(ps, member.0) && Valid(d, Lookup(ps, member.0).value, member.1, true)
  }

  lemma MembersExtendTo(d: Dialect, ms: Members, ps: Members, y: Members) returns (r: seq<Value>)
    requires HostCovered(Object(ms)) && Lookup(ms, "properties") == Some(Object(ps))
    requires forall i :: 0 <= i < |y| ==> ClosedMember(d, ps, y[i])
    ensures |r| == |y| && forall i :: 0 <= i < |y| ==> Extends(d, ps, y[i], r[i])
    decreases Object(ms), 0, 1 + |y|
  {
    hide *;
    if y == [] {
      r := [];
    } else {
      var first := MemberExtendsTo(d, ms, ps, y[0]);
      var rest := MembersExtendTo(d, ms, ps, y[1..]);
      r := [first] + rest;
      forall i | 0 < i < |y|
        ensures y[i] == y[1..][i - 1] && r[i] == rest[i - 1]
      {
      }
    }
  }

  lemma MemberExtendsTo(d: Dialect, ms: Members, ps: Members, member: (string, Value)) returns (x: Value)
    requires HostCovered(Object(ms)) && Lookup(ms, "properties") == Some(Object(ps)) && ClosedMember(d, ps, member)
    ensures Extends(d, ps, member, x)
    decreases Object(ms), 0, 0
  {
    hide HostCovered, Covered, WellFormed, Valid, AddsNulls, Strict;
    PropertyCovered(ms, ps, member.0);
    x := ExtendsTo(d, Lookup(ps, member.0).value, member.1);
  }

  lemma ClosedMembers(d: Dialect, ms: Members, ps: Members, y: Members)
    requires HostCovered(Object(ms)) && Lookup(ms, "properties") == Some(Object(ps)) && IsObjectSchema(ms)
    requires WellFormed(Object(y)) && HostAllows(d, Object(ms), Object(y), true)
    ensures forall i :: 0 <= i < |y| ==> ClosedMember(d, ps, y[i])
    ensures forall j :: 0 <= j < |Required(ms)| ==> Has(y, Required(ms)[j])
    ensures PlainAllows(d, ms, Object(y))
  {
    hide PlainAllows, IsObjectSchema;
    assert MembersAllow(d, Object(ms), Object(y), true);
    forall i | 0 <= i < |y|
      ensures Has(ps, y[i].0) && Valid(d, Lookup(ps, y[i].0).value, y[i].1, true)
    {
      FindAt(y, i);
      var j := Find(ps, y[i].0);
      assert Has(y, ps[j].0);
    }
  }

  /** A member of the filled object: one that was there, extended, or a missing one. */
  lemma FilledMember(d: Dialect, ps: Members, y: Members, r: seq<Value>, i: nat)
    requires Distinct(ps) && Distinct(y) && |r| == |y|
    requires forall j :: 0 <= j < |y| ==> Extends(d, ps, y[j], r[j])
    requires i < |Filled(y, r) + Missing(ps, y, 0)|
    ensures var member := (Filled(y, r) + Missing(ps, y, 0))[i];
      && WellFormed(member.1) && Has(ps, member.0)
      && (if Has(y, member.0) then AddsNulls(Lookup(y, member.0).value, member.1) else member.1 == Null)
      && (if i < |y| then member.0 == y[i].0 else member == Missing(ps, y, 0)[i - |y|] && !Has(y, member.0))
  {
    hide Valid, Strict, AddsNulls, WellFormed;
    MissingMembers(ps, y, 0);
    assert WellFormed(Null) by { NullWellFormed(); }
    if i < |y| {
      FindAt(y, i);
      assert Extends(d, ps, y[i], r[i]);
    } else {
      var missing := Missing(ps, y, 0);
      assert IsMissing(ps, y, 0, missing[i - |y|]);
    }
  }

  lemma NullWellFormed()
    ensures WellFormed(Null)
  {
  }

  lemma FilledDistinct(ps: Members, y: Members, r: seq<Value>)
    requires Distinct(ps) && Distinct(y) && |r| == |y|
    requires forall i :: |y| <= i < |Filled(y, r) + Missing(ps, y, 0)| ==>
      !Has(y, (Filled(y, r) + Missing(ps, y, 0))[i].0)
    ensures Distinct(Filled(y, r) + Missing(ps, y, 0))
  {
    MissingMembers(ps, y, 0);
    var x, missing := Filled(y, r) + Missing(ps, y, 0), Missing(ps, y, 0);
    hide Missing, IsMissing;
    forall i, j | 0 <= i < j < |x|
      ensures x[i].0 != x[j].0
    {
      if i < |y| {
        assert x[i].0 == y[i].0;
        FindAt(y, i);
      }
    }
  }

  lemma FilledAddsNulls(d: Dialect, ps: Members, y: Members, r: seq<Value>)
    requires Distinct(ps) && Distinct(y) && |r| == |y|
    requires forall i :: 0 <= i < |y| ==> Extends(d, ps, y[i], r[i])
    ensures var x := Filled(y, r) + Missing(ps, y, 0);
      WellFormed(Object(x)) && AddsNulls(Object(y), Object(x)) && forall i :: 0 <= i < |x| ==> Has(ps, x[i].0)
  {
    var x := Filled(y, r) + Missing(ps, y, 0);
    hide Valid, Strict, Filled, Missing, Extends, Distinct;
    forall i | 0 <= i < |x|
      ensures WellFormed(x[i].1) && Has(ps, x[i].0)
      ensures if Has(y, x[i].0) then AddsNulls(Lookup(y, x[i].0).value, x[i].1) else x[i].1 == Null
      ensures i >= |y| ==> !Has(y, x[i].0)
    {
      FilledMember(d, ps, y, r, i);
    }
    FilledDistinct(ps, y, r);
    forall i | 0 <= i < |y|
      ensures Has(x, y[i].0)
    {
      LookupFilled(ps, y, r, y[i].0);
      FindAt(y, i);
    }
  }

  lemma FilledValid(d: Dialect, ms: Members, ps: Members, y: Members, r: seq<Value>)
    requires HostCovered(Object(ms)) && Lookup(ms, "properties") == Some(Object(ps)) && IsObjectSchema(ms)
    requires Distinct(ps) && Distinct(y) && |r| == |y|
    requires forall i :: 0 <= i < |y| ==> Extends(d, ps, y[i], r[i])
    requires forall j :: 0 <= j < |Required(ms)| ==> Has(y, Required(ms)[j])
    requires forall i :: 0 <= i < |Filled(y, r) + Missing(ps, y, 0)| ==>
      Has(ps, (Filled(y, r) + Missing(ps, y, 0))[i].0)
    ensures MembersAllow(d, Strict(Object(ms)), Object(Filled(y, r) + Missing(ps, y, 0)), false)
  {
    StrictDeclares(ms);
    StrictObject(ms);
    StrictKeyword(ms, "properties");
    AllNamed(ps);
    hide Strict, HostCovered;
    var x := Filled(y, r) + Missing(ps, y, 0);
    var t := Strict(Object(ms)).members;
    var sp := StrictProperties(ms, ps);
    forall j | 0 <= j < |ps|
      ensures Has(x, ps[j].0) && Valid(d, sp[j].1, Lookup(x, ps[j].0).value, false)
    {
      FindAt(ps, j);
      LookupFilled(ps, y, r, ps[j].0);
      PropertyFits(d, ms, ps, y, r, j);
    }
    forall i | 0 <= i < |x|
      ensures Has(sp, x[i].0)
    {
      LookupMapped(ps, sp, x[i].0);
    }
    hide Filled, Missing, IsObjectSchema, Valid, Required;
    MembersFit(d, ms, ps, t, x);
  }

  lemma MembersFit(d: Dialect, ms: Members, ps: Members, t: Members, x: Members)
    requires var sp := StrictProperties(ms, ps);
      && Lookup(t, "properties") == Some(Object(sp)) && Required(t) == StringsOf(Names(ps))
      && (forall j :: 0 <= j < |ps| ==> Has(x, ps[j].0) && Valid(d, sp[j].1, Lookup(x, ps[j].0).value, false))
      && forall i :: 0 <= i < |x| ==> Has(sp, x[i].0)
    ensures MembersAllow(d, Object(t), Object(x), false)
  {
    AllNamed(ps);
  }

  lemma PropertyFits(d: Dialect, ms: Members, ps: Members, y: Members, r: seq<Value>, j: nat)
    requires IsObjectSchema(ms) && Distinct(ps) && |r| == |y| && j < |ps|
    requires forall i :: 0 <= i < |y| ==> Extends(d, ps, y[i], r[i])
    requires forall k :: 0 <= k < |Required(ms)| ==> Has(y, Required(ms)[k])
    ensures var name := ps[j].0;
      Valid(d, StrictProperties(ms, ps)[j].1, if Has(y, name) then r[Find(y, name)] else Null, false)
  {
    var (name, c) := ps[j];
    var value := if Has(y, name) then r[Find(y, name)] else Null;
    FindAt(ps, j);
    NullableValid(d, Strict(c), value);
    hide Valid, Strict, Nullable, IsObjectSchema;
    if Has(y, name) {
      assert Extends(d, ps, y[Find(y, name)], value);
    } else {
      assert IsOptional(ms, name);
    }
    assert StrictProperties(ms, ps)[j].1 == StrictChild(ms, "properties", name, c);
  }

  lemma ObjectExtendsTo(d: Dialect, ms: Members, ps: Members, y: Members) returns (x: Value)
    requires HostCovered(Object(ms)) && Lookup(ms, "properties") == Some(Object(ps))
    requires WellFormed(Object(y)) && HostAllows(d, Object(ms), Object(y), true)
    ensures WellFormed(x) && AddsNulls(Object(y), x) && HostAllows(d, Strict(Object(ms)), x, false)
    decreases Object(ms), 1
  {
    ObjectKind(d, ms, Object(y));
    ClosedMembers(d, ms, ps, y);
    PropertiesDistinct(ms, ps);
    var r := MembersExtendTo(d, ms, ps, y);
    x := Object(Filled(y, r) + Missing(ps, y, 0));
    FilledAddsNulls(d, ps, y, r);
    FilledValid(d, ms, ps, y, r);
    PlainSame(d, ms, Object(y), x);
    StrictPlain(d, ms, x);
    StrictObject(ms);
    hide Strict, PlainAllows, MembersAllow, Filled, Missing;
    hide HostCovered, AddsNulls, WellFormed, Extends, IsObjectSchema;
    assert ItemsAllow(d, Strict(Object(ms)), x, false);
  }

  lemma ItemsExtendTo(d: Dialect, s: Value, ys: seq<Value>) returns (xs: seq<Value>)
    requires Covered(s) && forall i :: 0 <= i < |ys| ==> WellFormed(ys[i]) && Valid(d, s, ys[i], true)
    ensures |xs| == |ys|
    ensures forall i :: 0 <= i < |xs| ==>
      WellFormed(xs[i]) && AddsNulls(ys[i], xs[i]) && Valid(d, Strict(s), xs[i], false)
    decreases s, 4, |ys|
  {
    hide *;
    if ys == [] {
      xs := [];
    } else {
      var first := ExtendsTo(d, s, ys[0]);
      var rest := ItemsExtendTo(d, s, ys[1..]);
      xs := [first] + rest;
      forall i | 0 < i < |ys|
        ensures ys[i] == ys[1..][i - 1] && xs[i] == rest[i - 1]
      {
      }
    }
  }

  /** Every instance of the schema with declared members only extends, by null members, to an
      instance of the strict schema. */
  lemma ExtendsTo(d: Dialect, s: Value, y: Value) returns (x: Value)
    requires Covered(s) && WellFormed(y) && Valid(d, s, y, true)
    ensures WellFormed(x) && AddsNulls(y, x) && Valid(d, Strict(s), x, false)
    decreases s, 3
  {
    if s.Bool? {
      AddsNothing(y);
      x := y;
    } else {
      var ms := s.members;
      StrictObject(ms);
      if Has(ms, "anyOf") {
        x := SomeExtendTo(d, ms, y);
      } else {
        x := HostExtendsTo(d, ms, y);
        StrictKeyword(ms, "anyOf");
        hide Strict;
        NoAlternatives(d, Strict(s).members, x, false);
      }
    }
  }

  /** The same for the keywords beside the alternatives. */
  lemma HostExtendsTo(d: Dialect, ms: Members, y: Value) returns (x: Value)
    requires HostCovered(Object(ms)) && WellFormed(y) && HostAllows(d, Object(ms), y, true)
    ensures Strict(Object(ms)).Object?
    ensures WellFormed(x) && AddsNulls(y, x) && HostAllows(d, Strict(Object(ms)), x, false)
    decreases Object(ms), 2
  {
    StrictObject(ms);
    hide HostCovered, HostAllows, Strict;
    if y.Object? && Has(ms, "properties") {
      PropertiesObject(ms);
      x := ObjectExtendsTo(d, ms, Properties(ms), y.members);
    } else if y.Array? && Has(ms, "items") {
      x := ArrayExtendsTo(d, ms, y);
    } else {
      x := y;
      AddsNothing(y);
      PlainHost(d, ms, y);
    }
  }

  lemma ArrayExtendsTo(d: Dialect, ms: Members, y: Value) returns (x: Value)
    requires HostCovered(Object(ms)) && HostAllows(d, Object(ms), y, true)
    requires y.Array? && Has(ms, "items") && WellFormed(y)
    ensures Strict(Object(ms)).Object?
    ensures WellFormed(x) && AddsNulls(y, x) && HostAllows(d, Strict(Object(ms)), x, false)
    decreases Object(ms), 1
  {
    StrictObject(ms);
    ItemsCovered(ms);
    HostPlain(ms);
    hide Strict, PlainAllows, HostCovered, Covered, Valid;
    var xs := ItemsExtendTo(d, Lookup(ms, "items").value, y.items);
    x := Array(xs);
    PlainSame(d, ms, y, x);
    StrictPlain(d, ms, x);
    StrictItems(d, ms, xs);
  }

  lemma SomeExtendTo(d: Dialect, ms: Members, y: Value) returns (x: Value)
    requires Covered(Object(ms)) && Valid(d, Object(ms), y, true) && Has(ms, "anyOf")
    requires WellFormed(y)
    ensures WellFormed(x) && AddsNulls(y, x) && Valid(d, Strict(Object(ms)), x, false)
    decreases Object(ms), 3, 0
  {
    var i := SomeAccepts(d, ms, y);
    BranchCovered(ms, i);
    StrictObject(ms);
    hide Covered, HostCovered, Valid, HostAllows, SomeAllows, Strict, AddsNulls, WellFormed;
    hide SkipsMembers, SkipsItems, HostSkipsMembers, HostSkipsItems;
    if HostSkips(ms, y) {
      x := ExtendsTo(d, Branches(ms)[i], y);
      SameShape(y, x);
      HostAgrees(d, ms, y, x);
    } else {
      x := HostExtendsTo(d, ms, y);
      SameShape(y, x);
      SkipsAgree(d, Branches(ms)[i], y, x);
    }
    SomeStrict(d, ms, x);
    ValidIs(d, Strict(Object(ms)), x, false);
  }

  lemma SomeAccepts(d: Dialect, ms: Members, y: Value) returns (i: nat)
    requires Covered(Object(ms)) && Valid(d, Object(ms), y, true) && Has(ms, "anyOf")
    ensures HostCovered(Object(ms)) && HostAllows(d, Object(ms), y, true)
    ensures i < |Branches(ms)| && Valid(d, Branches(ms)[i], y, true)
  {
    ValidIs(d, Object(ms), y, true);
    hide Valid, HostAllows;
    SomeIs(d, ms, y);
    i :| i < |Branches(ms)| && Valid(d, Branches(ms)[i], y, true);
  }

  lemma SameShape(y: Value, x: Value)
    requires AddsNulls(y, x)
    ensures x.Object? == y.Object? && x.Array? == y.Array?
  {
  }

  /** The alternatives are those listed. */
  lemma SomeIs(d: Dialect, ms: Members, y: Value)
    requires HostCovered(Object(ms)) && Has(ms, "anyOf")
    ensures SomeAllows(d, Object(ms), y, true) <==>
      exists i :: 0 <= i < |Branches(ms)| && Valid(d, Branches(ms)[i], y, true)
  {
    var branches := ms[Find(ms, "anyOf")].1.items;
    assert branches == Branches(ms);
    hide Valid;
  }

  // ----- Both directions together

  /** `x` is an instance without undeclared members, with null members added. */
  ghost predicate HasOrigin(d: Dialect, s: Value, x: Value) {
    exists y :: WellFormed(y) && AddsNulls(y, x) && Valid(d, s, y, true)
  }

  /** `y` becomes an instance of the strict schema when null members are added. */
  ghost predicate HasExtension(d: Dialect, s: Value, y: Value) {
    exists x :: WellFormed(x) && AddsNulls(y, x) && Valid(d, Strict(s), x, false)
  }

  /** What the strict schema accepts comes from the schema's closed instances by adding nulls, and
      each of those extends to something it accepts. */
  ghost predicate KeepsMeaning(d: Dialect, s: Value) {
    && (forall x :: WellFormed(x) && Valid(d, Strict(s), x, false) ==> HasOrigin(d, s, x))
    && (forall y :: WellFormed(y) && Valid(d, s, y, true) ==> HasExtension(d, s, y))
  }

  /** Strict mode keeps the meaning of every schema covered. */
  lemma StrictKeepsMeaning(d: Dialect, s: Value)
    requires Covered(s)
    ensures KeepsMeaning(d, s)
  {
    hide Covered, WellFormed, AddsNulls, Valid, Strict;
    forall x | WellFormed(x) && Valid(d, Strict(s), x, false)
      ensures HasOrigin(d, s, x)
    {
      var y := ComesFrom(d, s, x);
    }
    forall y | WellFormed(y) && Valid(d, s, y, true)
      ensures HasExtension(d, s, y)
    {
      var x := ExtendsTo(d, s, y);
    }
  }

  /** Reading objects as closed only narrows what a schema accepts. */
  lemma {:induction false} ClosedIsNarrower(d: Dialect, s: Value, x: Value)
    requires Valid(d, s, x, true)
    ensures Valid(d, s, x, false)
    decreases s
  {
    if s.Object? {
      var ms := s.members;
      hide PlainAllows, IsObjectSchema;
      var p, i, a := Find(ms, "properties"), Find(ms, "items"), Find(ms, "anyOf");
      assert HostAllows(d, s, x, true) && SomeAllows(d, s, x, true);
      assert MembersAllow(d, s, x, true) && ItemsAllow(d, s, x, true);
      if x.Object? && p < |ms| && ms[p].1.Object? {
        forall j | 0 <= j < |ms[p].1.members| && Has(x.members, ms[p].1.members[j].0)
          ensures Valid(d, ms[p].1.members[j].1, Lookup(x.members, ms[p].1.members[j].0).value, false)
        {
          ClosedIsNarrower(d, ms[p].1.members[j].1, Lookup(x.members, ms[p].1.members[j].0).value);
        }
      }
      if x.Array? && i < |ms| {
        forall j | 0 <= j < |x.items|
          ensures Valid(d, ms[i].1, x.items[j], false)
        {
          ClosedIsNarrower(d, ms[i].1, x.items[j]);
        }
      }
      if a < |ms| && ms[a].1.Array? {
        var j :| 0 <= j < |ms[a].1.items| && Valid(d, ms[a].1.items[j], x, true);
        ClosedIsNarrower(d, ms[a].1.items[j], x);
      }
      assert MembersAllow(d, s, x, false) && ItemsAllow(d, s, x, false) && SomeAllows(d, s, x, false);
      assert HostAllows(d, s, x, false);
    }
  }
}

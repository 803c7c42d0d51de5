/** Alternatives beside other keywords in strict mode: where any list of them keeps its meaning, and
    how one loses it. */
module StrictLimits {
  import opened Options
  import opened JsonValues
  import opened StrictSchema
  import opened StrictProofs
  import opened SchemaMeaning
  import opened StrictMeaning

  /** Alternatives beside other keywords. */
  function WithAlternatives(ms: Members, branches: seq<Value>): Value {
    Object(ms + [("anyOf", Array(branches))])
  }

  ghost predicate AllCovered(branches: seq<Value>) {
    forall i :: 0 <= i < |branches| ==> Covered(branches[i])
  }

  // ----- What a keyword says does not depend on the alternatives

  lemma SameHost(d: Dialect, t: Members, u: Members, x: Value, closed: bool)
    requires forall key :: key != "anyOf" ==> Lookup(t, key) == Lookup(u, key)
    ensures HostAllows(d, Object(t), x, closed) <==> HostAllows(d, Object(u), x, closed)
  {
    SamePlain(d, t, u, x);
    SameMembers(d, t, u, x, closed);
    hide PlainAllows, MembersAllow, Valid;
    assert Lookup(t, "items") == Lookup(u, "items");
    assert ItemsAllow(d, Object(t), x, closed) <==> ItemsAllow(d, Object(u), x, closed);
  }

  lemma SamePlain(d: Dialect, t: Members, u: Members, x: Value)
    requires forall key :: key != "anyOf" ==> Lookup(t, key) == Lookup(u, key)
    ensures PlainAllows(d, t, x) <==> PlainAllows(d, u, x)
  {
    assert "anyOf" in STRUCTURE;
    hide PlainAllows, Lookup;
    PlainByLookups(d, t, u, x);
  }

  lemma SameDeclared(t: Members, u: Members)
    requires forall key :: key != "anyOf" ==> Lookup(t, key) == Lookup(u, key)
    ensures IsObjectSchema(t) == IsObjectSchema(u) && Required(t) == Required(u) && Properties(t) == Properties(u)
    ensures ForbidsOthers(t) == ForbidsOthers(u)
  {
    assert Lookup(t, "type") == Lookup(u, "type") && Lookup(t, "properties") == Lookup(u, "properties");
  }

  lemma SameMembers(d: Dialect, t: Members, u: Members, x: Value, closed: bool)
    requires forall key :: key != "anyOf" ==> Lookup(t, key) == Lookup(u, key)
    ensures MembersAllow(d, Object(t), x, closed) <==> MembersAllow(d, Object(u), x, closed)
  {
    SameDeclared(t, u);
    assert Lookup(t, "properties") == Lookup(u, "properties");
    hide IsObjectSchema, Required, Properties, ForbidsOthers, Valid;
  }

  lemma LookupWith(ms: Members, branches: seq<Value>, key: string)
    requires !Has(ms, "anyOf")
    ensures Lookup(WithAlternatives(ms, branches).members, key) ==
      if key == "anyOf" then Some(Array(branches)) else Lookup(ms, key)
  {
    var last := [("anyOf", Array(branches))];
    FindCat(ms, last, key);
    assert last[1..] == [];
  }

  lemma WithLookups(ms: Members, branches: seq<Value>)
    requires !Has(ms, "anyOf")
    ensures var t := WithAlternatives(ms, branches).members;
      && Lookup(t, "anyOf") == Some(Array(branches))
      && (forall key :: key != "anyOf" ==> Lookup(t, key) == Lookup(ms, key))
      && forall key :: Has(t, key) <==> Has(ms, key) || key == "anyOf"
  {
    var t := WithAlternatives(ms, branches).members;
    forall key
      ensures Lookup(t, key) == if key == "anyOf" then Some(Array(branches)) else Lookup(ms, key)
      ensures Has(t, key) <==> Lookup(t, key).Some?
      ensures Has(ms, key) <==> Lookup(ms, key).Some?
    {
      LookupWith(ms, branches, key);
    }
    hide WithAlternatives, Lookup, Has;
  }

  lemma SameKeywords(t: Members, u: Members, branches: seq<Value>)
    requires Lookup(t, "anyOf") == Some(Array(branches))
    requires forall key :: key != "anyOf" ==> Lookup(t, key) == Lookup(u, key)
    requires forall key :: Has(t, key) <==> Has(u, key) || key == "anyOf"
    requires Distinct(t) && KeywordsCovered(u)
    ensures KeywordsCovered(t)
  {
    hide Has, Lookup, IsObjectSchema, Required, Properties, ForbidsOthers, Distinct, PlainCovered;
    SameDeclared(t, u);
    SamePlainCovered(t, u);
    assert "anyOf" in SUBSCHEMA_KEYS;
    assert Lookup(t, "additionalProperties") == Lookup(u, "additionalProperties");
  }

  lemma SamePlainCovered(t: Members, u: Members)
    requires (forall key :: key != "anyOf" ==> Lookup(t, key) == Lookup(u, key)) && PlainCovered(u)
    ensures PlainCovered(t)
  {
    assert forall i :: 0 <= i < |COUNTING| ==> COUNTING[i] != "anyOf";
    hide Lookup, COUNTING;
    assert Lookup(t, "enum") == Lookup(u, "enum") && Lookup(t, "const") == Lookup(u, "const");
    assert Lookup(t, "minItems") == Lookup(u, "minItems") && Lookup(t, "maxItems") == Lookup(u, "maxItems");
  }

  lemma WithCovered(ms: Members, branches: seq<Value>)
    requires HostCovered(Object(ms)) && !Has(ms, "anyOf") && AllCovered(branches)
    ensures HostCovered(WithAlternatives(ms, branches))
    ensures Branches(WithAlternatives(ms, branches).members) == branches
    ensures forall key :: key != "anyOf" ==> Lookup(WithAlternatives(ms, branches).members, key) == Lookup(ms, key)
  {
    var t := WithAlternatives(ms, branches).members;
    assert Object(t) == WithAlternatives(ms, branches) && Distinct(ms);
    hide WithAlternatives, Covered, KeywordsCovered, Distinct, AllCovered;
    hide PropertiesCovered, ItemSchemaCovered, BranchesCovered, Has, Lookup;
    WithLookups(ms, branches);
    WithDistinct(ms, branches);
    SameKeywords(t, ms, branches);
    SameSubschemas(t, ms);
    BranchesAre(t, branches);
  }

  lemma SameSubschemas(t: Members, u: Members)
    requires Lookup(t, "properties") == Lookup(u, "properties") && Lookup(t, "items") == Lookup(u, "items")
    requires PropertiesCovered(Object(u)) && ItemSchemaCovered(Object(u))
    ensures PropertiesCovered(Object(t)) && ItemSchemaCovered(Object(t))
  {
    hide Covered, Distinct;
  }

  lemma BranchesAre(t: Members, branches: seq<Value>)
    requires Lookup(t, "anyOf") == Some(Array(branches)) && AllCovered(branches)
    ensures BranchesCovered(Object(t)) && Branches(t) == branches
  {
    hide Covered;
  }

  lemma WithDistinct(ms: Members, branches: seq<Value>)
    requires Distinct(ms) && !Has(ms, "anyOf")
    ensures Distinct(WithAlternatives(ms, branches).members)
  {
  }

  lemma SameStrictHost(d: Dialect, t: Members, u: Members, x: Value)
    requires HostCovered(Object(t)) && HostCovered(Object(u))
    requires forall key :: key != "anyOf" ==> Lookup(t, key) == Lookup(u, key)
    ensures Strict(Object(t)).Object? && Strict(Object(u)).Object?
    ensures HostAllows(d, Strict(Object(t)), x, false) <==> HostAllows(d, Strict(Object(u)), x, false)
  {
    StrictObject(t);
    StrictObject(u);
    SameDeclared(t, u);
    HostPlain(t);
    HostPlain(u);
    hide HostCovered, Strict, HostAllows, StrictMember, IsObjectSchema, Required;
    forall key | key != "anyOf"
      ensures Lookup(Strict(Object(t)).members, key) == Lookup(Strict(Object(u)).members, key)
    {
      LookupStrict(t, key);
      LookupStrict(u, key);
      assert Has(t, key) <==> Lookup(t, key).Some?;
      assert Has(u, key) <==> Lookup(u, key).Some?;
      assert Lookup(t, key) == Lookup(u, key) && Lookup(t, "properties") == Lookup(u, "properties");
      if Has(t, key) {
        SameStrictMember(t, u, key, Lookup(t, key).value);
      }
    }
    SameHost(d, Strict(Object(t)).members, Strict(Object(u)).members, x, false);
  }

  lemma SameStrictMember(t: Members, u: Members, key: string, x: Value)
    requires IsObjectSchema(t) == IsObjectSchema(u) && Required(t) == Required(u)
    ensures StrictMember(t, key, x) == StrictMember(u, key, x)
  {
    hide IsObjectSchema, Required, Strict;
    if key in MAP_KEYS && x.Object? {
      forall i | 0 <= i < |x.members|
        ensures StrictChild(t, key, x.members[i].0, x.members[i].1) ==
          StrictChild(u, key, x.members[i].0, x.members[i].1)
      {
      }
      assert StrictMember(t, key, x).members == StrictMember(u, key, x).members;
    }
  }

  lemma BareValid(d: Dialect, ms: Members, x: Value, closed: bool)
    requires !Has(ms, "anyOf")
    ensures Valid(d, Object(ms), x, closed) <==> HostAllows(d, Object(ms), x, closed)
  {
    ValidIs(d, Object(ms), x, closed);
    NoAlternatives(d, ms, x, closed);
    hide *;
  }

  /** A schema with alternatives accepts what both its parts accept, and so does its strict form. */
  lemma WithAccepts(d: Dialect, ms: Members, branches: seq<Value>, x: Value)
    requires HostCovered(Object(ms)) && !Has(ms, "anyOf") && AllCovered(branches)
    ensures Valid(d, WithAlternatives(ms, branches), x, true) <==>
      Valid(d, Object(ms), x, true) && exists i :: 0 <= i < |branches| && Valid(d, branches[i], x, true)
    ensures Valid(d, Strict(WithAlternatives(ms, branches)), x, false) <==>
      && Valid(d, Strict(Object(ms)), x, false)
      && exists i :: 0 <= i < |branches| && Valid(d, Strict(branches[i]), x, false)
  {
    var t := WithAlternatives(ms, branches).members;
    assert Object(t) == WithAlternatives(ms, branches);
    WithCovered(ms, branches);
    LookupWith(ms, branches, "anyOf");
    BareStrict(ms);
    hide WithAlternatives, HostCovered, Strict, HostAllows, SomeAllows, Valid, AllCovered;
    SameHost(d, t, ms, x, true);
    SameStrictHost(d, t, ms, x);
    BareValid(d, ms, x, true);
    BareValid(d, Strict(Object(ms)).members, x, false);
    SomeIs(d, t, x);
    SomeStrict(d, t, x);
    ValidIs(d, Object(t), x, true);
    ValidIs(d, Strict(Object(t)), x, false);
  }

  // ----- Where every list of alternatives keeps its meaning

  /** On every instance, with null members added for the strict form, the schema and its strict form
      agree. */
  ghost predicate Agrees(d: Dialect, s: Value) {
    forall y, x :: WellFormed(y) && WellFormed(x) && AddsNulls(y, x) ==>
      (Valid(d, s, y, true) <==> Valid(d, Strict(s), x, false))
  }

  /** Beside keywords that agree with their strict form any alternatives keep their meaning. */
  lemma AgreeingKeeps(d: Dialect, ms: Members, branches: seq<Value>)
    requires HostCovered(Object(ms)) && !Has(ms, "anyOf") && Agrees(d, Object(ms)) && AllCovered(branches)
    ensures KeepsMeaning(d, WithAlternatives(ms, branches))
  {
    var s := WithAlternatives(ms, branches);
    hide HostCovered, Covered, Valid, Strict, AddsNulls, WellFormed, WithAlternatives;
    forall x | WellFormed(x) && Valid(d, Strict(s), x, false)
      ensures HasOrigin(d, s, x)
    {
      WithAccepts(d, ms, branches, x);
      var i :| 0 <= i < |branches| && Valid(d, Strict(branches[i]), x, false);
      var y := ComesFrom(d, branches[i], x);
      WithAccepts(d, ms, branches, y);
    }
    forall y | WellFormed(y) && Valid(d, s, y, true)
      ensures HasExtension(d, s, y)
    {
      WithAccepts(d, ms, branches, y);
      var i :| 0 <= i < |branches| && Valid(d, branches[i], y, true);
      var x := ExtendsTo(d, branches[i], y);
      WithAccepts(d, ms, branches, x);
    }
  }

  /** Beside keywords that rule out objects or leave their members alone, and so for items, any
      alternatives keep their meaning, also where the item schema itself holds alternatives. */
  lemma SkippingKeeps(d: Dialect, ms: Members, branches: seq<Value>)
    requires HostCovered(Object(ms)) && !Has(ms, "anyOf") && SkipsMembers(Object(ms)) && SkipsItems(Object(ms))
    requires AllCovered(branches)
    ensures KeepsMeaning(d, WithAlternatives(ms, branches))
  {
    BareCovered(ms);
    hide HostCovered, Covered, Valid, Strict, AddsNulls, WellFormed, SkipsMembers, SkipsItems;
    forall y, x | WellFormed(y) && WellFormed(x) && AddsNulls(y, x)
      ensures Valid(d, Object(ms), y, true) <==> Valid(d, Strict(Object(ms)), x, false)
    {
      SkipsAgree(d, Object(ms), y, x);
    }
    AgreeingKeeps(d, ms, branches);
  }

  // ----- Where some list of alternatives loses its meaning

  /** A name longer than all these. */
  function Longer(ps: Members): (name: string)
    ensures forall i :: 0 <= i < |ps| ==> |ps[i].0| < |name|
  {
    if ps == [] then "a" else ps[0].0 + Longer(ps[1..])
  }

  /** A schema that declares the members of an object, and one more. */
  function Demand(y: Members, name: string): Value {
    Object([("properties", Object(Demanded(y, name)))])
  }

  function Demanded(y: Members, name: string): Members {
    seq(|y|, i requires 0 <= i < |y| => (y[i].0, Bool(true))) + [(name, Bool(true))]
  }

  lemma LookupDemand(y: Members, name: string, key: string)
    ensures Lookup(Demand(y, name).members, key) ==
      if key == "properties" then Some(Object(Demanded(y, name))) else None
  {
    LookupOne("properties", Object(Demanded(y, name)), key);
  }

  lemma LookupOne(name: string, x: Value, key: string)
    ensures Lookup([(name, x)], key) == if key == name then Some(x) else None
  {
    assert [(name, x)][1..] == [];
  }

  lemma LookupPair(a: string, x: Value, b: string, y: Value, key: string)
    requires a != b
    ensures Lookup([(a, x), (b, y)], key) == if key == a then Some(x) else if key == b then Some(y) else None
    ensures Distinct([(a, x), (b, y)])
  {
    FindUnique([(a, x), (b, y)], key, if key == a then 0 else if key == b then 1 else 2);
  }

  lemma DemandedNames(y: Members, name: string)
    requires Distinct(y) && !Has(y, name)
    ensures var ps := Demanded(y, name);
      && Distinct(ps) && Has(ps, name) && (forall i :: 0 <= i < |y| ==> Has(ps, y[i].0))
      && forall i :: 0 <= i < |ps| ==> ps[i].1 == Bool(true)
  {
    var ps := Demanded(y, name);
    assert ps[|y|].0 == name;
    forall i | 0 <= i < |y|
      ensures ps[i].0 == y[i].0 != name
    {
    }
  }

  /** What a demand is as a schema. */
  lemma DemandIs(y: Members, name: string)
    requires Distinct(y) && !Has(y, name)
    ensures var bs := Demand(y, name).members;
      && HostCovered(Object(bs)) && !Has(bs, "anyOf") && !Has(bs, "items") && IsObjectSchema(bs) && Required(bs) == []
      && Lookup(bs, "properties") == Some(Object(Demanded(y, name))) && !Refuses(bs, "object")
  {
    var bs := Demand(y, name).members;
    forall key
      ensures Lookup(bs, key) == if key == "properties" then Some(Object(Demanded(y, name))) else None
      ensures Has(bs, key) <==> key == "properties"
    {
      LookupDemand(y, name, key);
    }
    DemandedNames(y, name);
    assert Distinct(bs);
    hide Demand, Demanded, Lookup, Has, Distinct;
    OnlyPropertiesIs(bs, Demanded(y, name));
  }

  lemma OnlyPropertiesIs(bs: Members, ps: Members)
    requires forall key :: Lookup(bs, key) == if key == "properties" then Some(Object(ps)) else None
    requires (forall key :: Has(bs, key) <==> key == "properties") && Distinct(bs)
    requires Distinct(ps) && forall i :: 0 <= i < |ps| ==> ps[i].1 == Bool(true)
    ensures HostCovered(Object(bs)) && IsObjectSchema(bs) && Required(bs) == [] && !Refuses(bs, "object")
  {
    assert IsObjectSchema(bs);
    hide Lookup, Has, Refuses, Required, IsObjectSchema, AllowsLength, Distinct;
    OnlyHolding(bs);
    PropertiesOnly(bs, ps);
  }

  lemma PropertiesOnly(bs: Members, ps: Members)
    requires KeywordsCovered(bs) && Lookup(bs, "properties") == Some(Object(ps))
    requires !Has(bs, "items") && !Has(bs, "anyOf")
    requires Distinct(ps) && forall i :: 0 <= i < |ps| ==> ps[i].1 == Bool(true)
    ensures HostCovered(Object(bs))
  {
    assert Covered(Bool(true));
    hide Covered, KeywordsCovered, Distinct;
    assert PropertiesCovered(Object(bs)) by { assert bs[Find(bs, "properties")].1 == Object(ps); }
    assert ItemSchemaCovered(Object(bs)) && BranchesCovered(Object(bs));
  }

  lemma DemandedMember(d: Dialect, bs: Members, name: string, x: Members)
    requires HostCovered(Object(bs)) && IsObjectSchema(bs) && Has(bs, "properties") && Has(Properties(bs), name)
    requires Valid(d, Strict(Object(bs)), Object(x), false)
    ensures Has(x, name)
  {
    StrictDeclares(bs);
    StrictObject(bs);
    AllNamed(Properties(bs));
    var u := Strict(Object(bs)).members;
    hide Strict, HostCovered, IsObjectSchema, PlainAllows, ItemsAllow, SomeAllows;
    assert HostAllows(d, Object(u), Object(x), false);
    assert Required(u)[Find(Properties(bs), name)] == name;
  }

  lemma ForbiddenMember(d: Dialect, ms: Members, name: string, x: Members)
    requires HostCovered(Object(ms)) && (IsObjectSchema(ms) || ForbidsOthers(ms)) && !Has(Properties(ms), name)
    requires Valid(d, Strict(Object(ms)), Object(x), false)
    ensures !Has(x, name)
  {
    StrictDeclares(ms);
    StrictObject(ms);
    StrictNames(ms, name);
    var t := Strict(Object(ms)).members;
    hide Strict, HostCovered, IsObjectSchema, PlainAllows, ItemsAllow, SomeAllows;
    assert HostAllows(d, Object(t), Object(x), false);
    assert MembersAllow(d, Object(t), Object(x), false);
    forall j | 0 <= j < |x|
      ensures x[j].0 != name
    {
    }
  }

  /** No object satisfies the strict forms of a schema that forbids a name and of one that
      declares it. */
  lemma ForbiddenDemand(d: Dialect, ms: Members, bs: Members, name: string, x: Value)
    requires HostCovered(Object(ms)) && (IsObjectSchema(ms) || ForbidsOthers(ms)) && !Has(Properties(ms), name)
    requires HostCovered(Object(bs)) && IsObjectSchema(bs) && Has(bs, "properties") && Has(Properties(bs), name)
    requires x.Object?
    ensures !(Valid(d, Strict(Object(ms)), x, false) && Valid(d, Strict(Object(bs)), x, false))
  {
    hide Valid, Strict, HostCovered, IsObjectSchema, Has;
    if Valid(d, Strict(Object(ms)), x, false) {
      ForbiddenMember(d, ms, name, x.members);
    }
    if Valid(d, Strict(Object(bs)), x, false) {
      DemandedMember(d, bs, name, x.members);
    }
  }

  /** The strict form declares the same names. */
  lemma StrictNames(ms: Members, name: string)
    requires HostCovered(Object(ms))
    ensures Strict(Object(ms)).Object? && Has(Properties(Strict(Object(ms)).members), name) == Has(Properties(ms), name)
  {
    StrictObject(ms);
    StrictKeyword(ms, "properties");
    if Has(ms, "properties") {
      PropertiesObject(ms);
      LookupMapped(Properties(ms), StrictProperties(ms, Properties(ms)), name);
    }
  }

  /** A schema and an instance of both that the strict forms let no null members extend. */
  ghost predicate Conflicts(d: Dialect, s: Value, other: Value, y: Value) {
    && Covered(other) && WellFormed(y) && Valid(d, s, y, true) && Valid(d, other, y, true)
    && forall x :: AddsNulls(y, x) ==> !(Valid(d, Strict(s), x, false) && Valid(d, Strict(other), x, false))
  }

  lemma KeysAreDistinct(y: Value)
    requires WellFormed(y) && y.Object?
    ensures Distinct(y.members)
  {
  }

  /** No object satisfies the strict forms of a schema and of a demand for a name it forbids. */
  lemma DemandFails(d: Dialect, ms: Members, y: Members, name: string, x: Value)
    requires HostCovered(Object(ms)) && (IsObjectSchema(ms) || ForbidsOthers(ms)) && !Has(Properties(ms), name)
    requires Distinct(y) && !Has(y, name) && x.Object?
    ensures !(Valid(d, Strict(Object(ms)), x, false) && Valid(d, Strict(Demand(y, name)), x, false))
  {
    hide HostCovered, Valid, Strict, IsObjectSchema, ForbidsOthers, Demanded, Distinct;
    DemandIs(y, name);
    DemandedNames(y, name);
    ForbiddenDemand(d, ms, Demand(y, name).members, name, x);
  }

  lemma BareCovered(ms: Members)
    requires HostCovered(Object(ms)) && !Has(ms, "anyOf")
    ensures Covered(Object(ms))
  {
  }

  lemma HasIs(ms: Members, key: string)
    ensures Has(ms, key) <==> Lookup(ms, key).Some?
  {
  }

  /** Keywords that only hold declared properties or an item schema restrict nothing else. */
  lemma OnlyHolding(bs: Members)
    requires Distinct(bs) && forall k :: Has(bs, k) ==> k == "properties" || k == "items"
    ensures KeywordsCovered(bs) && Required(bs) == [] && !Refuses(bs, "object") && !Refuses(bs, "array")
    ensures forall n: nat :: AllowsLength(bs, n)
  {
    PlainKeysAre();
    assert "properties" in STRUCTURE && "items" in STRUCTURE;
    assert "properties" in SUBSCHEMA_KEYS && "items" in SUBSCHEMA_KEYS;
    hide STRUCTURE, Distinct, COUNTING, SUBSCHEMA_KEYS;
    forall k | k != "properties" && k != "items"
      ensures Lookup(bs, k).None?
    {
      HasIs(bs, k);
    }
    hide Lookup, Has;
    PlainFree(bs);
    hide PlainCovered, AllowsLength, Refuses;
    assert OnlyModelledSubschemas(bs);
    assert Required(bs) == [] && Lookup(bs, "additionalProperties").None?;
    hide OnlyModelledSubschemas, Required, Properties;
  }

  lemma PlainFree(bs: Members)
    requires forall key :: key !in STRUCTURE ==> Lookup(bs, key).None?
    ensures PlainCovered(bs) && !Refuses(bs, "object") && !Refuses(bs, "array")
    ensures forall n: nat :: AllowsLength(bs, n)
  {
    PlainKeysAre();
    HasIs(bs, "enum");
    HasIs(bs, "const");
    assert forall i :: 0 <= i < |COUNTING| ==> COUNTING[i] !in STRUCTURE;
    hide STRUCTURE, Lookup, Has, COUNTING;
    assert Lookup(bs, "type").None? && Lookup(bs, "enum").None? && Lookup(bs, "const").None?;
    assert Lookup(bs, "minItems").None? && Lookup(bs, "maxItems").None?;
  }

  lemma EmptyAccepted(d: Dialect, ms: Members)
    requires !Has(ms, "anyOf") && Required(ms) == [] && !Refuses(ms, "object") && PlainCovered(ms)
    ensures Valid(d, Object(ms), Object([]), true)
  {
    var empty := Object([]);
    UnrefusedIs(d, ms, empty);
    NoAlternatives(d, ms, empty, true);
    hide PlainAllows, SomeAllows, IsObjectSchema, Refuses;
    assert MembersAllow(d, Object(ms), empty, true) && HostAllows(d, Object(ms), empty, true);
  }

  lemma ConflictLosesMeaning(d: Dialect, ms: Members, other: Value, y: Value)
    requires HostCovered(Object(ms)) && !Has(ms, "anyOf") && Conflicts(d, Object(ms), other, y)
    ensures AllCovered([other]) && !KeepsMeaning(d, WithAlternatives(ms, [other]))
  {
    var branches := [other];
    var s := WithAlternatives(ms, branches);
    hide HostCovered, Covered, Valid, Strict, AddsNulls, WellFormed, WithAlternatives;
    assert branches[0] == other && Covered(other);
    WithAccepts(d, ms, branches, y);
    assert Valid(d, s, y, true) && WellFormed(y);
    if HasExtension(d, s, y) {
      var x :| WellFormed(x) && AddsNulls(y, x) && Valid(d, Strict(s), x, false);
      WithAccepts(d, ms, branches, x);
    }
  }

  // ----- Keywords that require no member

}

/** Schemas that lose their meaning in strict mode: one for each way that null members are noticed
    beside declared properties. */
module LostMeaning {
  import opened Digits
  import opened Options
  import opened JsonValues
  import opened StrictSchema
  import opened StrictProofs
  import opened StrictForm
  import opened LocalReferences
  import opened SchemaMeaning
  import opened StrictMeaning
  import opened StrictLimits

  // ----- Object schemas with one property

  function OfType(kind: string): Value {
    Object([("type", String(kind))])
  }

  /** An object schema with one declared property. */
  function OneProperty(name: string, c: Value, key: string, x: Value): Members {
    [("properties", Object([(name, c)])), (key, x)]
  }

  /** A keyword that may stand beside `properties` here. */
  predicate Extra(key: string) {
    || key == "anyOf" || key == "required"
    || (key !in STRUCTURE && key != "type" && key !in MAP_KEYS && key !in CHILD_KEYS)
  }

  lemma ExtraIs(key: string)
    requires Extra(key)
    ensures key != "properties" && key != "type" && key != "propertyNames" && key != "additionalProperties"
    ensures "anyOf" in STRUCTURE && "required" in STRUCTURE
  {
    PropertiesKey();
    AnyOfIsChildKey();
    assert "properties" in STRUCTURE && "additionalProperties" in STRUCTURE;
    assert "propertyNames" != "anyOf" && "propertyNames" != "required";
  }

  lemma PlainTypeStays(kind: string)
    requires kind != "object"
    ensures Strict(OfType(kind)) == OfType(kind)
  {
    var ms := OfType(kind).members;
    forall key
      ensures Lookup(ms, key) == if key == "type" then Some(String(kind)) else None
    {
      LookupOne("type", String(kind), key);
    }
    AnyOfIsChildKey();
    assert "type" != "properties" && "type" != "propertyNames";
    StrictIs(ms);
    assert StrictMembers(ms) == ms;
  }

  lemma OfTypeValid(d: Dialect, kind: string, x: Value, closed: bool)
    ensures Valid(d, OfType(kind), x, closed) ==> HasType(d, x, kind)
    ensures HasType(d, x, kind) && x == Null ==> Valid(d, OfType(kind), x, false)
  {
    var ms := OfType(kind).members;
    forall key
      ensures Lookup(ms, key) == (if key == "type" then Some(String(kind)) else None)
      ensures Has(ms, key) <==> key == "type"
    {
      LookupOne("type", String(kind), key);
    }
    assert OfType(kind) == Object(ms);
    hide OfType, Lookup;
    assert "type" in MODELLED;
    NullNoMembers(d, ms, x);
    NoAlternatives(d, ms, x, closed);
    NoAlternatives(d, ms, x, false);
    hide SomeAllows, PlainAllows, MembersAllow;
    assert PlainAllows(d, ms, x) ==> TypeAllows(d, ms, x);
    assert Valid(d, Object(ms), x, closed) ==> HostAllows(d, Object(ms), x, closed);
    assert x == Null ==> ItemsAllow(d, Object(ms), x, false);
  }

  lemma OnePropertyKind(name: string, c: Value, key: string, extra: Value)
    requires Extra(key)
    ensures var ms := OneProperty(name, c, key, extra);
      IsObjectSchema(ms) && Distinct(ms) && Properties(ms) == [(name, c)]
      && forall k :: Lookup(ms, k) ==
           if k == "properties" then Some(Object([(name, c)])) else if k == key then Some(extra) else None
  {
    var ms := OneProperty(name, c, key, extra);
    ExtraIs(key);
    hide STRUCTURE;
    forall k
      ensures Lookup(ms, k) ==
        if k == "properties" then Some(Object([(name, c)])) else if k == key then Some(extra) else None
    {
      LookupPair("properties", Object([(name, c)]), key, extra, k);
    }
    LookupPair("properties", Object([(name, c)]), key, extra, "type");
    assert "type" != "properties";
  }

  /** What a keyword of the strict one-property schema holds. */
  lemma LookupStrictOne(name: string, c: Value, key: string, extra: Value, k: string)
    requires Extra(key)
    ensures var ms := OneProperty(name, c, key, extra);
      Lookup(Strict(Object(ms)).members, k) ==
        if k == "propertyNames" then None
        else if k == "additionalProperties" then Some(Bool(false))
        else if k == "required" then Some(Array(Names([(name, c)])))
        else if k == "properties" then Some(StrictMember(ms, k, Object([(name, c)])))
        else if k == key then Some(StrictMember(ms, k, extra))
        else None
  {
    var ms := OneProperty(name, c, key, extra);
    OnePropertyKind(name, c, key, extra);
    ExtraIs(key);
    LookupStrict(ms, k);
    assert Has(ms, k) <==> Lookup(ms, k).Some?;
    assert Lookup(ms, "properties") == Some(Object([(name, c)]));
    hide STRUCTURE, MAP_KEYS, CHILD_KEYS, OneProperty, Strict, IsObjectSchema, StrictMember, Lookup, Has;
  }

  lemma OneExtraStays(name: string, c: Value, key: string, extra: Value, k: string)
    requires Extra(key) && k !in STRUCTURE
    ensures var ms := OneProperty(name, c, key, extra); Lookup(Strict(Object(ms)).members, k) == Lookup(ms, k)
  {
    var ms := OneProperty(name, c, key, extra);
    ExtraIs(key);
    LookupStrictOne(name, c, key, extra, k);
    OnePropertyKind(name, c, key, extra);
    assert "properties" in STRUCTURE && "additionalProperties" in STRUCTURE;
    hide OneProperty, Strict, IsObjectSchema, STRUCTURE, MAP_KEYS, CHILD_KEYS;
  }

  lemma StrictOneMember(name: string, c: Value, key: string, extra: Value)
    requires Extra(key)
    ensures var ms := OneProperty(name, c, key, extra); var t := Strict(Object(ms)).members;
      && Lookup(t, "properties") == Some(Object([(name, StrictChild(ms, "properties", name, c))]))
      && Lookup(t, "required") == Some(Array([String(name)])) && ForbidsOthers(t)
      && (forall k :: k !in STRUCTURE ==> Lookup(t, k) == Lookup(ms, k))
      && Lookup(t, "anyOf") == (if key == "anyOf" then Some(StrictMember(ms, "anyOf", extra)) else None)
  {
    var ms := OneProperty(name, c, key, extra);
    var r := StrictMember(ms, "properties", Object([(name, c)]));
    assert r == Object([(name, StrictChild(ms, "properties", name, c))]) by {
      MeaningKeys();
      hide OneProperty, IsObjectSchema, Strict, IsOptional;
      assert r.members == [(name, StrictChild(ms, "properties", name, c))];
    }
    assert Names([(name, c)]) == [String(name)];
    LookupStrictOne(name, c, key, extra, "properties");
    LookupStrictOne(name, c, key, extra, "required");
    LookupStrictOne(name, c, key, extra, "additionalProperties");
    LookupStrictOne(name, c, key, extra, "anyOf");
    forall k | k !in STRUCTURE
      ensures Lookup(Strict(Object(ms)).members, k) == Lookup(ms, k)
    {
      OneExtraStays(name, c, key, extra, k);
    }
    hide OneProperty, Strict, IsObjectSchema, StrictMember, StrictChild, Lookup, Names;
  }

  lemma OneMemberAllowed(d: Dialect, t: Members, name: string, child: Value, value: Value)
    requires Lookup(t, "properties") == Some(Object([(name, child)])) &&
      Lookup(t, "required") == Some(Array([String(name)]))
    requires Valid(d, child, value, false)
    ensures MembersAllow(d, Object(t), Object([(name, value)]), false)
  {
    hide Valid, IsObjectSchema;
    LookupOne(name, value, name);
    LookupOne(name, child, name);
    OneString(name);
    assert Required(t) == [name];
  }

  lemma OneString(name: string)
    ensures StringsOf([String(name)]) == [name]
  {
    var items := [String(name)];
    assert items[1..] == [];
    assert StringsOf(items) == [name] + StringsOf([]);
  }

  /** The strict form accepts its one member with an instance of the rewritten property. */
  lemma StrictOneProperty(d: Dialect, name: string, c: Value, key: string, extra: Value, value: Value)
    requires Extra(key) && PlainAllows(d, OneProperty(name, c, key, extra), Object([(name, value)]))
    requires Valid(d, StrictChild(OneProperty(name, c, key, extra), "properties", name, c), value, false)
    ensures var s := Strict(Object(OneProperty(name, c, key, extra))); var x := Object([(name, value)]);
      s.Object? && PlainAllows(d, s.members, x) && MembersAllow(d, s, x, false) && ItemsAllow(d, s, x, false)
  {
    var ms := OneProperty(name, c, key, extra);
    var s := Strict(Object(ms));
    StrictObject(ms);
    StrictOneMember(name, c, key, extra);
    hide OneProperty, Strict, StrictChild, Valid, PlainAllows, MembersAllow, Extra, STRUCTURE;
    PlainByLookups(d, s.members, ms, Object([(name, value)]));
    OneMemberAllowed(d, s.members, name, StrictChild(ms, "properties", name, c), value);
  }

  lemma OnlyStructure(d: Dialect, name: string, c: Value, key: string, extra: Value, x: Value)
    requires key == "anyOf" || key == "required"
    ensures PlainAllows(d, OneProperty(name, c, key, extra), x)
  {
    OnePropertyKind(name, c, key, extra);
    assert "properties" in STRUCTURE && "anyOf" in STRUCTURE && "required" in STRUCTURE;
    hide OneProperty, IsObjectSchema, STRUCTURE;
    NothingPlain(d, OneProperty(name, c, key, extra), x);
  }

  lemma AllAllow(d: Dialect, s: Value, x: Value)
    requires s.Object? && PlainAllows(d, s.members, x)
    requires MembersAllow(d, s, x, false) && ItemsAllow(d, s, x, false) && SomeAllows(d, s, x, false)
    ensures Valid(d, s, x, false)
  {
    hide PlainAllows, MembersAllow, ItemsAllow, SomeAllows;
    assert HostAllows(d, s, x, false);
  }

  lemma MixedBranch(d: Dialect)
    ensures Valid(d, Strict(Object(OneProperty("a", OfType("null"), "required", Array([String("a")])))),
      Object([("a", Null)]), false)
  {
    var required := Array([String("a")]);
    var ms := OneProperty("a", OfType("null"), "required", required);
    var x := Object([("a", Null)]);
    hide Strict, OfType, OneProperty, Valid, PlainAllows, MembersAllow, ItemsAllow, SomeAllows, STRUCTURE;
    RequiredNull(d);
    OnlyStructure(d, "a", OfType("null"), "required", required, x);
    StrictOneProperty(d, "a", OfType("null"), "required", required, Null);
    StrictOneMember("a", OfType("null"), "required", required);
    hide StrictMember, StrictChild;
    NoAlternatives(d, Strict(Object(ms)).members, x, false);
    AllAllow(d, Strict(Object(ms)), x);
  }

  lemma RequiredNull(d: Dialect)
    ensures var ms := OneProperty("a", OfType("null"), "required", Array([String("a")]));
      Valid(d, StrictChild(ms, "properties", "a", OfType("null")), Null, false)
  {
    var required := Array([String("a")]);
    var ms := OneProperty("a", OfType("null"), "required", required);
    OnePropertyKind("a", OfType("null"), "required", required);
    PlainTypeStays("null");
    OfTypeValid(d, "null", Null, false);
    OneString("a");
    hide Strict, OfType, OneProperty, IsObjectSchema, Valid;
    assert Required(ms) == ["a"];
    assert !IsOptional(ms, "a");
  }

  lemma MixedAccepted(d: Dialect, branch: Value)
    requires Valid(d, Strict(branch), Object([("a", Null)]), false)
    ensures Valid(d, Strict(Object(OneProperty("a", OfType("string"), "anyOf", Array([branch])))),
      Object([("a", Null)]), false)
  {
    var branches := Array([branch]);
    var ms := OneProperty("a", OfType("string"), "anyOf", branches);
    var x := Object([("a", Null)]);
    hide Strict, OfType, OneProperty, Valid, PlainAllows, MembersAllow, ItemsAllow, SomeAllows, StrictChild, STRUCTURE;
    OptionalString(d, "anyOf", branches);
    OnlyStructure(d, "a", OfType("string"), "anyOf", branches, x);
    StrictOneProperty(d, "a", OfType("string"), "anyOf", branches, Null);
    StrictOneMember("a", OfType("string"), "anyOf", branches);
    MixedSome(ms, branch);
    hide StrictMember;
    SomeBranch(d, Strict(Object(ms)).members, x, 0, false);
    AllAllow(d, Strict(Object(ms)), x);
  }

  lemma MixedSome(ms: Members, branch: Value)
    ensures StrictMember(ms, "anyOf", Array([branch])) == Array([Strict(branch)])
  {
    MeaningKeys();
    hide Strict;
    assert StrictMember(ms, "anyOf", Array([branch])).items == [Strict(branch)];
  }

  lemma AlternativeRefuses(d: Dialect, branch: Value, y: Value)
    requires !Valid(d, branch, y, false)
    ensures !Valid(d, Object(OneProperty("a", OfType("string"), "anyOf", Array([branch]))), y, false)
  {
    var ms := OneProperty("a", OfType("string"), "anyOf", Array([branch]));
    OnePropertyKind("a", OfType("string"), "anyOf", Array([branch]));
    hide OneProperty, OfType, IsObjectSchema, MembersAllow, PlainAllows;
    assert Lookup(ms, "anyOf") == Some(Array([branch]));
    assert ms[Find(ms, "anyOf")].1.items == [branch];
    assert !SomeAllows(d, Object(ms), y, false);
  }

  lemma PropertyRefuses(d: Dialect, key: string, extra: Value, y: Value)
    requires Extra(key) && y.Object? && Lookup(y.members, "a") == Some(Null)
    ensures !Valid(d, Object(OneProperty("a", OfType("string"), key, extra)), y, false)
  {
    var ms := OneProperty("a", OfType("string"), key, extra);
    OnePropertyKind("a", OfType("string"), key, extra);
    OfTypeValid(d, "string", Null, false);
    hide OneProperty, OfType, IsObjectSchema, SomeAllows, PlainAllows, Extra, STRUCTURE;
    var ps := ms[Find(ms, "properties")].1.members;
    assert ps[0] == ("a", OfType("string"));
    assert Has(y.members, ps[0].0) && !Valid(d, ps[0].1, Lookup(y.members, ps[0].0).value, false);
    assert !MembersAllow(d, Object(ms), y, false);
  }

  lemma RequiredRefuses(d: Dialect, y: Value)
    requires y.Object? && !Has(y.members, "a")
    ensures !Valid(d, Object(OneProperty("a", OfType("null"), "required", Array([String("a")]))), y, false)
  {
    var required := Array([String("a")]);
    var ms := OneProperty("a", OfType("null"), "required", required);
    OnePropertyKind("a", OfType("null"), "required", required);
    hide OneProperty, OfType, IsObjectSchema, SomeAllows, PlainAllows;
    OneString("a");
    assert Required(ms)[0] == "a";
    assert !MembersAllow(d, Object(ms), y, false);
  }

  lemma MixedRefused(d: Dialect, y: Value)
    requires AddsNulls(y, Object([("a", Null)]))
    ensures var branch := Object(OneProperty("a", OfType("null"), "required", Array([String("a")])));
      !Valid(d, Object(OneProperty("a", OfType("string"), "anyOf", Array([branch]))), y, false)
  {
    var branch := Object(OneProperty("a", OfType("null"), "required", Array([String("a")])));
    LookupOne("a", Null, "a");
    assert y.Object? && (Has(y.members, "a") ==> Lookup(y.members, "a") == Some(Null));
    hide OfType, OneProperty, Valid, AddsNulls, Lookup, Has;
    if Has(y.members, "a") {
      PropertyRefuses(d, "anyOf", Array([branch]), y);
    } else {
      RequiredRefuses(d, y);
      AlternativeRefuses(d, branch, y);
    }
  }

  /** A schema for objects whose one alternative declares a member. */
  function ObjectOrMember(): Value {
    WithAlternatives([("type", String("object"))], [Demand([], "b")])
  }

  lemma ObjectTypeIs()
    ensures var ms := [("type", String("object"))];
      HostCovered(Object(ms)) && !Has(ms, "anyOf") && IsObjectSchema(ms) && Required(ms) == [] && Properties(ms) == []
      && !Refuses(ms, "object") && Lookup(ms, "type") == Some(String("object"))
  {
    var ms := [("type", String("object"))];
    hide Lookup, Has, Refuses, Required, Properties, IsObjectSchema;
    forall key
      ensures Lookup(ms, key) == if key == "type" then Some(String("object")) else None
      ensures Has(ms, key) <==> key == "type"
    {
      LookupOne("type", String("object"), key);
      HasIs(ms, key);
    }
    assert Distinct(ms);
    TypeIsCovered(ms);
  }

  lemma TypeIsCovered(ms: Members)
    requires forall key :: Lookup(ms, key) == if key == "type" then Some(String("object")) else None
    requires (forall key :: Has(ms, key) <==> key == "type") && Distinct(ms)
    ensures HostCovered(Object(ms)) && IsObjectSchema(ms) && Required(ms) == [] && Properties(ms) == []
    ensures !Refuses(ms, "object")
  {
    hide Distinct, OnlyModelledSubschemas, PlainCovered;
    TypeModelled(ms);
    TypeIsPlain(ms);
    NoSubschemas(ms);
    hide PropertiesCovered, ItemSchemaCovered, BranchesCovered, Lookup, Has;
    assert Required(ms) == [] && Properties(ms) == [];
    hide Required, Properties;
    assert KeywordsCovered(ms);
  }

  lemma TypeIsPlain(ms: Members)
    requires forall key :: Lookup(ms, key) == if key == "type" then Some(String("object")) else None
    requires forall key :: Has(ms, key) <==> key == "type"
    ensures PlainCovered(ms) && !Refuses(ms, "object")
  {
    assert forall i :: 0 <= i < |COUNTING| ==> COUNTING[i] != "type";
    hide Lookup, Has, COUNTING;
  }

  lemma NoSubschemas(ms: Members)
    requires !Has(ms, "properties") && !Has(ms, "items") && !Has(ms, "anyOf")
    ensures PropertiesCovered(Object(ms)) && ItemSchemaCovered(Object(ms)) && BranchesCovered(Object(ms))
  {
    hide Covered;
  }

  lemma TypeModelled(ms: Members)
    requires forall key :: Has(ms, key) <==> key == "type"
    ensures OnlyModelledSubschemas(ms)
  {
    MeaningKeys();
    assert "type" !in REF_KEYS;
    hide Has;
  }

  lemma DemandAccepts(d: Dialect, y: Members, name: string)
    requires Distinct(y) && !Has(y, name)
    ensures Covered(Demand(y, name)) && Valid(d, Demand(y, name), Object(y), true)
  {
    var bs := Demand(y, name).members;
    DemandIs(y, name);
    DemandedNames(y, name);
    UnrefusedIs(d, bs, Object(y));
    NoAlternatives(d, bs, Object(y), true);
    hide Demanded, PlainAllows, IsObjectSchema, SomeAllows;
    assert MembersAllow(d, Object(bs), Object(y), true);
    assert HostAllows(d, Object(bs), Object(y), true);
  }

  /** The type `object` alone beside an alternative: the schema accepts the empty object, its strict
      form accepts nothing. */
  lemma ObjectTypeLosesMeaning(d: Dialect)
    ensures Valid(d, ObjectOrMember(), Object([]), true)
    ensures forall x :: !Valid(d, Strict(ObjectOrMember()), x, false)
  {
    ObjectTypeIs();
    DemandAccepts(d, [], "b");
    EmptyAccepted(d, [("type", String("object"))]);
    hide *;
    BothOrNeither(d, [("type", String("object"))], Demand([], "b"), Object([]));
    forall x
      ensures !Valid(d, Strict(ObjectOrMember()), x, false)
    {
      BothOrNeither(d, [("type", String("object"))], Demand([], "b"), x);
      MemberForbidden(d, x);
    }
  }

  /** One alternative: a schema accepts what both its parts accept, and so does its strict form. */
  lemma BothOrNeither(d: Dialect, ms: Members, branch: Value, x: Value)
    requires HostCovered(Object(ms)) && !Has(ms, "anyOf") && Covered(branch)
    ensures Valid(d, WithAlternatives(ms, [branch]), x, true) <==>
      Valid(d, Object(ms), x, true) && Valid(d, branch, x, true)
    ensures Valid(d, Strict(WithAlternatives(ms, [branch])), x, false) <==>
      Valid(d, Strict(Object(ms)), x, false) && Valid(d, Strict(branch), x, false)
  {
    hide Valid, Strict, WithAlternatives, HostCovered, Covered;
    assert [branch][0] == branch;
    WithAccepts(d, ms, [branch], x);
  }

  lemma MemberForbidden(d: Dialect, x: Value)
    ensures !(Valid(d, Strict(OfType("object")), x, false) && Valid(d, Strict(Demand([], "b")), x, false))
  {
    ObjectTypeIs();
    hide HostCovered, Valid, Strict, IsObjectSchema, Refuses, Required, Demand;
    if x.Object? {
      DemandFails(d, OfType("object").members, [], "b", x);
    } else {
      OnlyObjects(d, OfType("object").members, x);
    }
  }

  lemma OnlyObjects(d: Dialect, ms: Members, x: Value)
    requires HostCovered(Object(ms)) && Lookup(ms, "type") == Some(String("object")) && !x.Object?
    ensures !Valid(d, Strict(Object(ms)), x, false)
  {
    hide *;
    StrictObject(ms);
    StrictPlain(d, ms, x);
    TypedObject(d, ms, x);
    if Valid(d, Strict(Object(ms)), x, false) {
      MembersAccepted(d, Strict(Object(ms)), x);
    }
  }

  lemma TypedObject(d: Dialect, ms: Members, x: Value)
    requires Lookup(ms, "type") == Some(String("object"))
    ensures PlainAllows(d, ms, x) ==> x.Object?
  {
    hide Lookup, EnumAllows, ConstAllows, CountsAllow, ScalarAllows;
  }

  /** Properties beside alternatives: the strict schema accepts an instance that adds nulls to
      no instance of the schema. */
  lemma MixedAlternatives(d: Dialect)
    ensures var branch := Object(OneProperty("a", OfType("null"), "required", Array([String("a")])));
      var s := Object(OneProperty("a", OfType("string"), "anyOf", Array([branch])));
      var x := Object([("a", Null)]);
      && Valid(d, Strict(s), x, false)
      && forall y :: AddsNulls(y, x) ==> !Valid(d, s, y, false)
  {
    hide Strict, OfType, OneProperty, Valid, AddsNulls;
    var branch := Object(OneProperty("a", OfType("null"), "required", Array([String("a")])));
    MixedBranch(d);
    MixedAccepted(d, branch);
    forall y | AddsNulls(y, Object([("a", Null)]))
      ensures !Valid(d, Object(OneProperty("a", OfType("string"), "anyOf", Array([branch]))), y, false)
    {
      MixedRefused(d, y);
    }
  }

  // ----- Keywords that count or compare members

  /** A member more makes the instance one that the keyword refuses. */
  lemma NullIsNoticed(d: Dialect, key: string, extra: Value)
    requires Extra(key) && key !in STRUCTURE
    requires PlainAllows(d, OneProperty("a", Bool(true), key, extra), Object([]))
    requires forall v: Value :: !PlainAllows(d, OneProperty("a", Bool(true), key, extra), Object([("a", v)]))
    ensures var s := Object(OneProperty("a", Bool(true), key, extra));
      Valid(d, s, Object([]), true) && !HasExtension(d, s, Object([]))
  {
    var ms := OneProperty("a", Bool(true), key, extra);
    EmptyOneProperty(d, key, extra);
    hide *;
    forall x | WellFormed(x) && AddsNulls(Object([]), x)
      ensures !Valid(d, Strict(Object(ms)), x, false)
    {
      if Valid(d, Strict(Object(ms)), x, false) {
        var v := OnlyMember(d, key, extra, x);
        StrictStaysPlain(d, key, extra, x);
      }
    }
    NoExtension(d, Object(ms), Object([]));
  }

  lemma NoExtension(d: Dialect, s: Value, y: Value)
    requires forall x :: WellFormed(x) && AddsNulls(y, x) ==> !Valid(d, Strict(s), x, false)
    ensures !HasExtension(d, s, y)
  {
    hide WellFormed, AddsNulls, Valid, Strict;
  }

  lemma EmptyOneProperty(d: Dialect, key: string, extra: Value)
    requires Extra(key) && key !in STRUCTURE && PlainAllows(d, OneProperty("a", Bool(true), key, extra), Object([]))
    ensures Valid(d, Object(OneProperty("a", Bool(true), key, extra)), Object([]), true)
  {
    var ms, empty := OneProperty("a", Bool(true), key, extra), Object([]);
    OnePropertyKind("a", Bool(true), key, extra);
    assert "required" in STRUCTURE && "anyOf" in STRUCTURE;
    hide OneProperty, PlainAllows, IsObjectSchema, STRUCTURE;
    assert Required(ms) == [];
    assert MembersAllow(d, Object(ms), empty, true) && ItemsAllow(d, Object(ms), empty, true);
    assert Lookup(ms, "anyOf").None?;
    NoAlternatives(d, ms, empty, true);
    assert HostAllows(d, Object(ms), empty, true);
  }

  /** An object that the strict form accepts holds the declared member and no other. */
  lemma OnlyMember(d: Dialect, key: string, extra: Value, x: Value) returns (v: Value)
    requires Extra(key) && x.Object? && WellFormed(x)
    requires Valid(d, Strict(Object(OneProperty("a", Bool(true), key, extra))), x, false)
    ensures x == Object([("a", v)])
  {
    var ms := OneProperty("a", Bool(true), key, extra);
    StrictOneMember("a", Bool(true), key, extra);
    StrictObject(ms);
    OneString("a");
    hide OneProperty, Strict, Extra, StrictChild, Valid, IsObjectSchema, STRUCTURE;
    var child := StrictChild(ms, "properties", "a", Bool(true));
    KeysAreDistinct(x);
    MembersAccepted(d, Strict(Object(ms)), x);
    v := SingleMember(d, Strict(Object(ms)).members, child, x.members);
  }

  lemma MembersAccepted(d: Dialect, s: Value, x: Value)
    requires s.Object? && Valid(d, s, x, false)
    ensures PlainAllows(d, s.members, x) && MembersAllow(d, s, x, false)
    ensures ItemsAllow(d, s, x, false) && SomeAllows(d, s, x, false)
  {
    hide PlainAllows, MembersAllow, ItemsAllow, SomeAllows;
    assert HostAllows(d, s, x, false);
  }

  lemma SecondDiffers(x: Members)
    requires Distinct(x)
    ensures |x| >= 2 ==> x[1].0 != x[0].0
  {
  }

  lemma SingleMember(d: Dialect, t: Members, child: Value, x: Members) returns (v: Value)
    requires Lookup(t, "properties") == Some(Object([("a", child)])) && Required(t) == ["a"] && ForbidsOthers(t)
    requires Distinct(x) && MembersAllow(d, Object(t), Object(x), false)
    ensures x == [("a", v)]
  {
    SecondDiffers(x);
    hide Distinct, Required, IsObjectSchema, Valid, ForbidsOthers;
    assert Has(x, Required(t)[0]);
    assert Properties(t) == [("a", child)];
    forall i | 0 <= i < |x|
      ensures x[i].0 == "a"
    {
      LookupOne("a", child, x[i].0);
    }
    v := x[0].1;
  }

  lemma StrictStaysPlain(d: Dialect, key: string, extra: Value, x: Value)
    requires Extra(key) && Valid(d, Strict(Object(OneProperty("a", Bool(true), key, extra))), x, false)
    ensures PlainAllows(d, OneProperty("a", Bool(true), key, extra), x)
  {
    var ms := OneProperty("a", Bool(true), key, extra);
    var t := Strict(Object(ms)).members;
    StrictOneMember("a", Bool(true), key, extra);
    StrictObject(ms);
    hide OneProperty, Strict, Extra, PlainAllows, Valid, STRUCTURE;
    MembersAccepted(d, Strict(Object(ms)), x);
    PlainByLookups(d, t, ms, x);
  }

  lemma ExtraKey(key: string)
    requires key == "maxProperties" || key == "minProperties" || key == "const" || key == "enum" ||
      key == "dependentRequired"
    ensures Extra(key) && key !in STRUCTURE
  {
    PlainKeysAre();
    OtherKeys(key);
    NotVisited(key);
  }

  lemma NotVisited(key: string)
    requires key == "maxProperties" || key == "minProperties" || key == "const" || key == "enum" ||
      key == "dependentRequired"
    ensures key !in MAP_KEYS && key !in CHILD_KEYS && key != "type"
  {
  }

  /** What the plain keywords of such a schema say of an object. */
  lemma OneExtraPlain(d: Dialect, c: Value, key: string, extra: Value, xm: Members)
    requires key == "maxProperties" || key == "minProperties" || key == "const" || key == "enum" ||
      key == "dependentRequired"
    ensures PlainAllows(d, OneProperty("a", c, key, extra), Object(xm)) <==>
      && (key == "maxProperties" && IsBound(extra) ==> |xm| <= DigitsValue(extra.text))
      && (key == "minProperties" && IsBound(extra) ==> DigitsValue(extra.text) <= |xm|)
      && (key == "const" ==> Same(d, extra, Object(xm)))
      && (key == "enum" && extra.Array? ==> exists i :: 0 <= i < |extra.items| && Same(d, extra.items[i], Object(xm)))
      && (key == "dependentRequired" ==> DependentsPresent([(key, extra)], xm))
  {
    var ms := OneProperty("a", c, key, extra);
    ExtraKey(key);
    PlainKeysAre();
    assert "properties" in STRUCTURE;
    OnePropertyKind("a", c, key, extra);
    LookupOne(key, extra, "dependentRequired");
    hide OneProperty, IsObjectSchema, STRUCTURE, Extra, Same, Lookup;
    PlainOfLookups(d, ms, key, extra, xm);
  }

  lemma PlainOfLookups(d: Dialect, ms: Members, key: string, extra: Value, xm: Members)
    requires key == "maxProperties" || key == "minProperties" || key == "const" || key == "enum" ||
      key == "dependentRequired"
    requires forall k :: k !in STRUCTURE ==> Lookup(ms, k) == if k == key then Some(extra) else None
    ensures PlainAllows(d, ms, Object(xm)) <==>
      && (key == "maxProperties" && IsBound(extra) ==> |xm| <= DigitsValue(extra.text))
      && (key == "minProperties" && IsBound(extra) ==> DigitsValue(extra.text) <= |xm|)
      && (key == "const" ==> Same(d, extra, Object(xm)))
      && (key == "enum" && extra.Array? ==> exists i :: 0 <= i < |extra.items| && Same(d, extra.items[i], Object(xm)))
      && (key == "dependentRequired" ==> DependentsPresent([(key, extra)], xm))
  {
    PlainKeysAre();
    LookupOne(key, extra, "dependentRequired");
    hide STRUCTURE, Same, Lookup;
    assert Lookup(ms, "type").None? && (Lookup(ms, "enum").Some? ==> key == "enum");
    assert Lookup(ms, "const").Some? ==> key == "const";
    assert Lookup(ms, "minProperties").Some? ==> key == "minProperties";
    assert Lookup(ms, "maxProperties").Some? ==> key == "maxProperties";
    assert Lookup(ms, "dependentRequired").Some? ==> key == "dependentRequired";
  }

  /** A bound of no members beside a declared one: the empty object is accepted, and has no extension. */
  lemma MaxPropertiesLosesMeaning(d: Dialect)
    ensures var s := Object(OneProperty("a", Bool(true), "maxProperties", Number("0")));
      Valid(d, s, Object([]), true) && !HasExtension(d, s, Object([]))
  {
    var extra := Number("0");
    ExtraKey("maxProperties");
    assert "0"[..0] == "" && DigitsValue("0") == 0;
    hide OneProperty, Extra, STRUCTURE, PlainAllows, Valid, HasExtension;
    OneExtraPlain(d, Bool(true), "maxProperties", extra, []);
    forall v: Value
      ensures !PlainAllows(d, OneProperty("a", Bool(true), "maxProperties", extra), Object([("a", v)]))
    {
      OneExtraPlain(d, Bool(true), "maxProperties", extra, [("a", v)]);
    }
    NullIsNoticed(d, "maxProperties", extra);
  }

  /** The same for an object given as the constant, or as the one value enumerated. */
  lemma ObjectValuesLoseMeaning(d: Dialect, key: string)
    requires key == "const" || key == "enum"
    ensures var extra := if key == "const" then Object([]) else Array([Object([])]);
      var s := Object(OneProperty("a", Bool(true), key, extra));
      Valid(d, s, Object([]), true) && !HasExtension(d, s, Object([]))
  {
    var extra := if key == "const" then Object([]) else Array([Object([])]);
    ExtraKey(key);
    hide OneProperty, Extra, STRUCTURE, PlainAllows, Valid, HasExtension;
    assert Same(d, Object([]), Object([])) && (key == "enum" ==> extra.items[0] == Object([]));
    OneExtraPlain(d, Bool(true), key, extra, []);
    forall v: Value
      ensures !PlainAllows(d, OneProperty("a", Bool(true), key, extra), Object([("a", v)]))
    {
      OneExtraPlain(d, Bool(true), key, extra, [("a", v)]);
      assert !Same(d, Object([]), Object([("a", v)]));
    }
    NullIsNoticed(d, key, extra);
  }

  /** A member that asks for one that is not declared: with the null it asks in vain. */
  lemma DependentRequiredLosesMeaning(d: Dialect)
    ensures var s := Object(OneProperty("a", Bool(true), "dependentRequired", Object([("a", Array([String("b")]))])));
      Valid(d, s, Object([]), true) && !HasExtension(d, s, Object([]))
  {
    var items := [String("b")];
    var ds := [("a", Array(items))];
    ExtraKey("dependentRequired");
    hide OneProperty, Extra, STRUCTURE, PlainAllows, Valid, HasExtension;
    LookupOne("dependentRequired", Object(ds), "dependentRequired");
    OneExtraPlain(d, Bool(true), "dependentRequired", Object(ds), []);
    forall v: Value
      ensures !PlainAllows(d, OneProperty("a", Bool(true), "dependentRequired", Object(ds)), Object([("a", v)]))
    {
      OneExtraPlain(d, Bool(true), "dependentRequired", Object(ds), [("a", v)]);
      LookupOne("a", v, "a");
      LookupOne("a", v, "b");
      assert ds[0] == ("a", Array(items)) && items[0] == String("b");
    }
    NullIsNoticed(d, "dependentRequired", Object(ds));
  }

  /** A bound that a null member meets: the strict form accepts an instance that adds nulls to no
      instance of the schema. */
  lemma MinPropertiesLosesMeaning(d: Dialect)
    ensures var s := Object(OneProperty("a", OfType("string"), "minProperties", Number("1")));
      var x := Object([("a", Null)]);
      && Valid(d, Strict(s), x, false)
      && forall y :: AddsNulls(y, x) ==> !Valid(d, s, y, false)
  {
    var extra, x := Number("1"), Object([("a", Null)]);
    ExtraKey("minProperties");
    assert "1"[..0] == "" && DigitsValue("1") == 1;
    OneExtraPlain(d, OfType("string"), "minProperties", extra, x.members);
    OptionalString(d, "minProperties", extra);
    NullPropertyAccepted(d, "minProperties", extra);
    hide OneProperty, Extra, STRUCTURE, PlainAllows, Valid, AddsNulls, OfType, Strict;
    forall y | AddsNulls(y, x)
      ensures !Valid(d, Object(OneProperty("a", OfType("string"), "minProperties", extra)), y, false)
    {
      NothingButNull(y);
      if y.members != [] {
        PropertyRefuses(d, "minProperties", extra, y);
      } else {
        OneExtraPlain(d, OfType("string"), "minProperties", extra, []);
        NotPlain(d, Object(OneProperty("a", OfType("string"), "minProperties", extra)), y, false);
        ValidIs(d, Object(OneProperty("a", OfType("string"), "minProperties", extra)), y, false);
      }
    }
  }

  /** What a null member is added to holds it already, or nothing. */
  lemma NothingButNull(y: Value)
    requires AddsNulls(y, Object([("a", Null)]))
    ensures y.Object? && (y.members != [] ==> Lookup(y.members, "a") == Some(Null))
  {
    LookupOne("a", Null, "a");
    if y.members != [] {
      LookupOne("a", Null, y.members[0].0);
      assert Has([("a", Null)], y.members[0].0);
      assert Has(y.members, "a") by { FirstHas(y.members); }
    }
  }

  lemma FirstHas(ms: Members)
    requires ms != []
    ensures Has(ms, ms[0].0)
  {
  }

  lemma OptionalString(d: Dialect, key: string, extra: Value)
    requires Extra(key) && key != "required"
    ensures var ms := OneProperty("a", OfType("string"), key, extra);
      Valid(d, StrictChild(ms, "properties", "a", OfType("string")), Null, false)
  {
    var ms := OneProperty("a", OfType("string"), key, extra);
    OnePropertyKind("a", OfType("string"), key, extra);
    NullableValid(d, Strict(OfType("string")), Null);
    assert "required" in STRUCTURE;
    hide Strict, OfType, Nullable, OneProperty, IsObjectSchema, STRUCTURE, Extra;
    assert IsOptional(ms, "a");
  }

  lemma NullPropertyAccepted(d: Dialect, key: string, extra: Value)
    requires Extra(key) && key !in STRUCTURE
    requires PlainAllows(d, OneProperty("a", OfType("string"), key, extra), Object([("a", Null)]))
    ensures Valid(d, Strict(Object(OneProperty("a", OfType("string"), key, extra))), Object([("a", Null)]), false)
  {
    var s := Strict(Object(OneProperty("a", OfType("string"), key, extra)));
    OptionalString(d, key, extra);
    StrictOneProperty(d, "a", OfType("string"), key, extra, Null);
    StrictOneMember("a", OfType("string"), key, extra);
    assert "anyOf" in STRUCTURE;
    hide OneProperty, Strict, OfType, Extra, STRUCTURE;
    hide PlainAllows, MembersAllow, ItemsAllow, Valid, StrictChild, StrictMember;
    NoAlternatives(d, s.members, Object([("a", Null)]), false);
    AllAllow(d, s, Object([("a", Null)]));
  }

  /** Items that differ by a null member only: with the nulls they are the same. */
  lemma UniqueItemsLosesMeaning(d: Dialect)
    ensures Valid(d, UniqueItems(), Array([Object([]), Object([("a", Null)])]), true)
    ensures !HasExtension(d, UniqueItems(), Array([Object([]), Object([("a", Null)])]))
  {
    var y := Array([Object([]), Object([("a", Null)])]);
    UniqueAccepts(d);
    hide *;
    forall x | WellFormed(x) && AddsNulls(y, x)
      ensures !Valid(d, Strict(UniqueItems()), x, false)
    {
      TwoItems(x);
      if Valid(d, Strict(UniqueItems()), x, false) {
        assert x == Array(x.items);
        UniqueStrict(d, x.items);
        BothHoldNull(d, x.items);
      }
    }
    NoExtension(d, UniqueItems(), y);
  }

  lemma UniqueItemsAre()
    ensures var ms := UniqueItems().members;
      && Distinct(ms) && !IsObjectSchema(ms)
      && forall k :: Lookup(ms, k) ==
           if k == "items" then Some(Demand([], "a")) else if k == "uniqueItems" then Some(Bool(true)) else None
  {
    var ms := UniqueItems().members;
    forall k
      ensures Lookup(ms, k) ==
        if k == "items" then Some(Demand([], "a")) else if k == "uniqueItems" then Some(Bool(true)) else None
    {
      LookupPair("items", Demand([], "a"), "uniqueItems", Bool(true), k);
    }
    LookupPair("items", Demand([], "a"), "uniqueItems", Bool(true), "type");
    assert Has(ms, "properties") <==> Lookup(ms, "properties").Some?;
  }

  lemma NoMembers()
    ensures Distinct([]) && forall key :: !Has([], key)
  {
  }

  lemma UniqueAccepts(d: Dialect)
    ensures Valid(d, UniqueItems(), Array([Object([]), Object([("a", Null)])]), true)
  {
    UniqueIsObject();
    hide *;
    UniqueItemsAre();
    NoMembers();
    DemandAccepts(d, [], "a");
    DemandHolds(d);
    UniqueArePlain(d, UniqueItems().members);
    var items := [Object([]), Object([("a", Null)])];
    forall i | 0 <= i < |items|
      ensures Valid(d, Demand([], "a"), items[i], true)
    {
    }
    ItemsAreAccepted(d, UniqueItems().members, Demand([], "a"), items);
  }

  lemma UniqueIsObject()
    ensures UniqueItems().Object? && Object(UniqueItems().members) == UniqueItems()
  {
  }

  lemma UniqueArePlain(d: Dialect, ms: Members)
    requires Lookup(ms, "type").None? && Lookup(ms, "enum").None? && Lookup(ms, "const").None?
    requires Lookup(ms, "minItems").None? && Lookup(ms, "maxItems").None?
    ensures IsArrayPlain(d, ms, [Object([]), Object([("a", Null)])])
  {
    hide Lookup;
  }

  lemma ItemsAreAccepted(d: Dialect, ms: Members, c: Value, items: seq<Value>)
    requires Lookup(ms, "items") == Some(c) && Lookup(ms, "anyOf").None? && IsArrayPlain(d, ms, items)
    requires forall i :: 0 <= i < |items| ==> Valid(d, c, items[i], true)
    ensures Valid(d, Object(ms), Array(items), true)
  {
    var y := Array(items);
    hide Valid, PlainAllows, IsArrayPlain;
    ArrayPlain(d, ms, items);
    NoAlternatives(d, ms, y, true);
    assert ms[Find(ms, "items")].1 == c;
    assert ItemsAllow(d, Object(ms), y, true) && MembersAllow(d, Object(ms), y, true);
    assert HostAllows(d, Object(ms), y, true);
    ValidIs(d, Object(ms), y, true);
  }

  /** No keyword but `uniqueItems` is about arrays, and that one holds. */
  predicate IsArrayPlain(d: Dialect, ms: Members, items: seq<Value>) {
    && Lookup(ms, "type").None? && Lookup(ms, "enum").None? && Lookup(ms, "const").None?
    && Lookup(ms, "minItems").None? && Lookup(ms, "maxItems").None? && AllDifferent(d, items)
  }

  lemma ArrayPlain(d: Dialect, ms: Members, items: seq<Value>)
    requires IsArrayPlain(d, ms, items)
    ensures PlainAllows(d, ms, Array(items))
  {
    hide AllDifferent, Lookup;
  }

  lemma DemandHolds(d: Dialect)
    ensures Valid(d, Demand([], "a"), Object([("a", Null)]), true)
  {
    var bs, x := Demand([], "a").members, Object([("a", Null)]);
    assert Object(bs) == Demand([], "a");
    hide Demanded, PlainAllows, IsObjectSchema, SomeAllows, Demand, HostCovered, Valid, Refuses;
    DemandIs([], "a");
    HostPlain(bs);
    UnrefusedIs(d, bs, x);
    NoAlternatives(d, bs, x, true);
    DemandedAllowed(d, bs, x.members);
    assert ItemsAllow(d, Object(bs), x, true);
    assert HostAllows(d, Object(bs), x, true);
    ValidIs(d, Object(bs), x, true);
  }

  lemma DemandedAllowed(d: Dialect, bs: Members, x: Members)
    requires Lookup(bs, "properties") == Some(Object(Demanded([], "a"))) && Required(bs) == []
    requires forall i :: 0 <= i < |x| ==> x[i].0 == "a"
    ensures MembersAllow(d, Object(bs), Object(x), true)
  {
    DemandedNames([], "a");
    hide Demanded, IsObjectSchema, Required;
    assert forall value :: Valid(d, Bool(true), value, true);
  }

  lemma TwoItems(x: Value)
    requires WellFormed(x) && AddsNulls(Array([Object([]), Object([("a", Null)])]), x)
    ensures x.Array? && |x.items| == 2 && WellFormed(x.items[0]) && WellFormed(x.items[1])
    ensures AddsNulls(Object([]), x.items[0]) && AddsNulls(Object([("a", Null)]), x.items[1])
  {
    var ys := [Object([]), Object([("a", Null)])];
    assert ys[0] == Object([]) && ys[1] == Object([("a", Null)]);
  }

  lemma UniqueStrictIs()
    ensures Strict(UniqueItems()).Object?
    ensures var t := Strict(UniqueItems()).members;
      Lookup(t, "items") == Some(Strict(Demand([], "a"))) && Lookup(t, "uniqueItems") == Some(Bool(true))
  {
    var ms := UniqueItems().members;
    UniqueItemsAre();
    assert UniqueItems() == Object(ms) && !Demand([], "a").Array?;
    hide UniqueItems, Demand;
    ItemsAndUnique(ms, Demand([], "a"));
  }

  lemma ItemsMember(ms: Members, c: Value)
    requires !c.Array?
    ensures StrictMember(ms, "items", c) == Strict(c) && StrictMember(ms, "uniqueItems", Bool(true)) == Bool(true)
  {
    MeaningKeys();
    assert "uniqueItems" !in MAP_KEYS && "uniqueItems" !in CHILD_KEYS;
    hide Strict, MAP_KEYS, CHILD_KEYS, StrictChild;
  }

  lemma ItemsAndUnique(ms: Members, c: Value)
    requires Distinct(ms) && Lookup(ms, "items") == Some(c) && Lookup(ms, "uniqueItems") == Some(Bool(true)) &&
      !c.Array?
    ensures Strict(Object(ms)).Object?
    ensures var t := Strict(Object(ms)).members;
      Lookup(t, "items") == Some(Strict(c)) && Lookup(t, "uniqueItems") == Some(Bool(true))
  {
    StrictObject(ms);
    ItemsMember(ms, c);
    assert Has(ms, "items") && Has(ms, "uniqueItems");
    hide Strict, StrictMember, IsObjectSchema, Has, Lookup, Distinct;
    LookupStrict(ms, "items");
    LookupStrict(ms, "uniqueItems");
  }

  lemma UniqueStrict(d: Dialect, xs: seq<Value>)
    requires Valid(d, Strict(UniqueItems()), Array(xs), false)
    ensures AllDifferent(d, xs)
    ensures forall i :: 0 <= i < |xs| ==> Valid(d, Strict(Demand([], "a")), xs[i], false)
  {
    UniqueStrictIs();
    hide UniqueItems, Demand, Valid, Strict, Same;
    var t := Strict(UniqueItems()).members;
    MembersAccepted(d, Strict(UniqueItems()), Array(xs));
    assert CountsAllow(d, t, Array(xs));
    assert t[Find(t, "items")].1 == Strict(Demand([], "a"));
  }

  /** Whatever two items with nulls added the strict form accepts, they are the same. */
  lemma BothHoldNull(d: Dialect, xs: seq<Value>)
    requires |xs| == 2 && WellFormed(xs[0]) && WellFormed(xs[1])
    requires AddsNulls(Object([]), xs[0]) && AddsNulls(Object([("a", Null)]), xs[1])
    requires forall i :: 0 <= i < |xs| ==> Valid(d, Strict(Demand([], "a")), xs[i], false)
    ensures !AllDifferent(d, xs)
  {
    LookupOne("a", Null, "a");
    hide *;
    HoldsNull(d, [], xs[0]);
    HoldsNull(d, [("a", Null)], xs[1]);
    SameNulls(d, xs);
  }

  lemma DemandStrict()
    ensures Strict(Demand([], "a")).Object?
    ensures var t := Strict(Demand([], "a")).members; ForbidsOthers(t) && Required(t) == ["a"]
    ensures var t := Strict(Demand([], "a")).members;
      var child := StrictChild(Demand([], "a").members, "properties", "a", Bool(true));
      Lookup(t, "properties") == Some(Object([("a", child)]))
  {
    var bs, ps := Demand([], "a").members, [("a", Bool(true))];
    assert Demanded([], "a") == ps && Object(bs) == Demand([], "a");
    hide Demand, Demanded, Strict, HostCovered, Required, IsObjectSchema, StrictChild, Refuses, ForbidsOthers;
    NoMembers();
    DemandIs([], "a");
    StrictDeclared(bs, ps);
    OneDeclared(bs);
  }

  lemma OneDeclared(bs: Members)
    requires HostCovered(Object(bs)) && IsObjectSchema(bs) &&
      Lookup(bs, "properties") == Some(Object([("a", Bool(true))]))
    ensures Strict(Object(bs)).Object? && Required(Strict(Object(bs)).members) == ["a"]
    ensures StrictProperties(bs, [("a", Bool(true))]) == [("a", StrictChild(bs, "properties", "a", Bool(true)))]
  {
    hide Strict, HostCovered, Required, IsObjectSchema, StrictChild;
    StrictObject(bs);
    StrictDeclares(bs);
    OneString("a");
    assert Names([("a", Bool(true))]) == [String("a")];
    HasIs(bs, "properties");
  }

  /** The declared member is the only one, and null. */
  lemma HoldsNull(d: Dialect, y: Members, x: Value)
    requires WellFormed(x) && AddsNulls(Object(y), x) && Valid(d, Strict(Demand([], "a")), x, false)
    requires y == [] || Lookup(y, "a") == Some(Null)
    ensures x == Object([("a", Null)])
  {
    DemandStrict();
    SameShape(Object(y), x);
    hide Demand, Strict, StrictChild, Valid, Required, AddsNulls, WellFormed;
    MembersAccepted(d, Strict(Demand([], "a")), x);
    KeysAreDistinct(x);
    var v := SingleMember(d, Strict(Demand([], "a")).members,
                          StrictChild(Demand([], "a").members, "properties", "a", Bool(true)), x.members);
    NullAdded(y, v);
  }

  lemma NullAdded(y: Members, v: Value)
    requires AddsNulls(Object(y), Object([("a", v)])) && (y == [] || Lookup(y, "a") == Some(Null))
    ensures v == Null
  {
    var xm := [("a", v)];
    assert xm[0] == ("a", v);
    assert Has(y, "a") ==> AddsNulls(Null, v);
  }

  lemma SameNulls(d: Dialect, xs: seq<Value>)
    requires |xs| == 2 && xs[0] == Object([("a", Null)]) == xs[1]
    ensures !AllDifferent(d, xs)
  {
    LookupOne("a", Null, "a");
    assert Same(d, xs[0], xs[1]);
  }

  /** Different objects with one declared member. */
  function UniqueItems(): Value {
    Object([("items", Demand([], "a")), ("uniqueItems", Bool(true))])
  }
}

/** The strict transform keyword by keyword, with the keywords written out. */
module StrictKeywords {
  import opened Options
  import opened JsonValues
  import opened StrictSchema
  import opened StrictProofs
  import opened StrictForm
  import opened LocalReferences

  // ----- The keywords

  /** The keyword holds a reference. */
  predicate IsReferenceKey(key: string) {
    key == "$ref" || key == "$dynamicRef" || key == "$recursiveRef"
  }

  /** The keyword maps names to schemas. */
  predicate HoldsNamed(key: string) {
    || key == "properties" || key == "patternProperties" || key == "definitions" || key == "$defs"
    || key == "dependentSchemas" || key == "dependencies"
  }

  /** The keyword holds a schema or an array of schemas. */
  predicate HoldsSchemas(key: string) {
    || key == "items" || key == "additionalItems" || key == "additionalProperties" || key == "anyOf" || key == "allOf"
    || key == "oneOf" || key == "prefixItems" || key == "not" || key == "if" || key == "then" || key == "else"
    || key == "contains" || key == "propertyNames" || key == "unevaluatedItems" || key == "unevaluatedProperties"
  }

  lemma KeywordsAre(key: string)
    ensures key in REF_KEYS <==> IsReferenceKey(key)
    ensures key in MAP_KEYS <==> HoldsNamed(key)
    ensures key in CHILD_KEYS <==> HoldsSchemas(key)
  {
    ReferenceKeysAre(key);
    NamedKeysAre(key);
    SchemaKeysAre(key);
  }

  lemma ReferenceKeysAre(key: string)
    ensures key in REF_KEYS <==> IsReferenceKey(key)
  {
  }

  lemma NamedKeysAre(key: string)
    ensures key in MAP_KEYS <==> HoldsNamed(key)
  {
  }

  lemma SchemaKeysAre(key: string)
    ensures key in CHILD_KEYS <==> HoldsSchemas(key)
  {
  }

  /** The schema describes objects: its type says so, or without a type, it declares properties. */
  predicate DescribesObjects(ms: Members) {
    match Lookup(ms, "type")
    case Some(String(kind)) => kind == "object"
    case Some(Array(kinds)) => String("object") in kinds
    case _ => Lookup(ms, "properties").Some?
  }

  /** The schema requires the member. */
  predicate RequiresMember(ms: Members, name: string) {
    match Lookup(ms, "required")
    case Some(Array(names)) => String(name) in names
    case _ => false
  }

  lemma {:induction false} StringsAre(items: seq<Value>, name: string)
    ensures name in StringsOf(items) <==> String(name) in items
  {
    if items != [] {
      StringsAre(items[1..], name);
      assert items == [items[0]] + items[1..];
    }
  }

  lemma ReadingIs(ms: Members, name: string)
    ensures IsObjectSchema(ms) <==> DescribesObjects(ms)
    ensures IsOptional(ms, name) <==> DescribesObjects(ms) && !RequiresMember(ms, name)
  {
    match Lookup(ms, "required")
    case Some(Array(names)) => StringsAre(names, name);
    case _ =>
  }

  // ----- What the transform makes of one schema

  /** A schema after the transform that recorded these moves. */
  function Transformed(v: Value, moves: seq<string>): Value {
    RewriteRefs(Strict(v), moves)
  }

  function MemberOf(v: Value, key: string): Option<Value> {
    if v.Object? then Lookup(v.members, key) else None
  }

  lemma Looked(ms: Members, key: string, moves: seq<string>)
    requires Distinct(ms)
    ensures MemberOf(Transformed(Object(ms), moves), key) ==
      if key == "propertyNames" then None
      else if IsObjectSchema(ms) && key == "additionalProperties" then Some(RefMember(key, Bool(false), moves))
      else if IsObjectSchema(ms) && key == "required" && Lookup(ms, "properties").Some?
              && Lookup(ms, "properties").value.Object?
      then Some(RefMember(key, Array(Names(Properties(ms))), moves))
      else if Has(ms, key) then Some(RefMember(key, StrictMember(ms, key, Lookup(ms, key).value), moves))
      else None
  {
    LookupStrict(ms, key);
    StrictKeepsShape(Object(ms));
    hide Strict, RewriteRefs, RefMember, StrictMember, IsObjectSchema;
    LookupRefs(Strict(Object(ms)).members, key, moves);
    RefsKeepShape(Strict(Object(ms)), moves);
    assert Has(Strict(Object(ms)).members, key) <==> Lookup(Strict(Object(ms)).members, key).Some?;
  }

  lemma FalseStays(moves: seq<string>)
    ensures RefMember("additionalProperties", Bool(false), moves) == Bool(false)
  {
  }

  lemma NamesStay(ms: Members, moves: seq<string>)
    ensures RefMember("required", Array(Names(Properties(ms))), moves) == Array(Names(Properties(ms)))
  {
    KeywordsAre("required");
  }

  lemma DeclaredAre(ms: Members)
    ensures Lookup(ms, "properties").Some? && Lookup(ms, "properties").value.Object? ==>
      Properties(ms) == Lookup(ms, "properties").value.members
  {
  }

  lemma NamesAre(ps: Members)
    ensures |Names(ps)| == |ps| && forall i :: 0 <= i < |ps| ==> Names(ps)[i] == String(ps[i].0)
  {
  }

  /** Schemas that describe objects forbid other members and require all that they declare, in order;
      `propertyNames` goes. */
  lemma ObjectsAreClosed(ms: Members, moves: seq<string>)
    requires Distinct(ms)
    ensures var r := Transformed(Object(ms), moves);
      && MemberOf(r, "propertyNames") == None
      && (DescribesObjects(ms) ==> MemberOf(r, "additionalProperties") == Some(Bool(false)))
      && (DescribesObjects(ms) && Lookup(ms, "properties").Some? && Lookup(ms, "properties").value.Object? ==>
            var properties := Lookup(ms, "properties").value.members;
            exists names :: MemberOf(r, "required") == Some(Array(names)) && |names| == |properties|
              && forall i :: 0 <= i < |names| ==> names[i] == String(properties[i].0))
  {
    hide *;
    ReadingIs(ms, "");
    Looked(ms, "propertyNames", moves);
    Looked(ms, "additionalProperties", moves);
    Looked(ms, "required", moves);
    FalseStays(moves);
    NamesStay(ms, moves);
    DeclaredAre(ms);
    NamesAre(Properties(ms));
    assert "additionalProperties" != "propertyNames" && "required" != "propertyNames";
    assert "required" != "additionalProperties";
  }

  lemma InsertKeepsPlaces(ms: Members, key: string, value: Value)
    ensures |ms| <= |Insert(ms, key, value)|
    ensures forall i :: 0 <= i < |ms| ==> Insert(ms, key, value)[i].0 == ms[i].0
  {
  }

  lemma DeclareKeepsPlaces(ms: Members, kept: Members)
    ensures |kept| <= |Declare(ms, kept)|
    ensures forall i :: 0 <= i < |kept| ==> Declare(ms, kept)[i].0 == kept[i].0
  {
    var names := Array(Names(Properties(ms)));
    InsertKeepsPlaces(kept, "required", names);
    InsertKeepsPlaces(kept, "additionalProperties", Bool(false));
    InsertKeepsPlaces(Insert(kept, "required", names), "additionalProperties", Bool(false));
    hide Insert, IsObjectSchema, Names;
  }

  lemma SwapKeepsPlaces(ms: Members, key: string, i: nat)
    requires i < |ms|
    ensures var p, r := Find(ms, key), SwapRemove(ms, key);
      && (i != p && (p == |ms| || i < |ms| - 1) ==> i < |r| && r[i].0 == ms[i].0)
      && (p < |ms| - 1 ==> p < |r| && r[p].0 == ms[|ms| - 1].0)
  {
    hide Find;
  }

  /** Members keep their places, but the last takes that of `propertyNames`; what a schema lacked comes
      after them. */
  lemma MembersKeepPlaces(ms: Members, i: nat)
    requires Distinct(ms) && i < |ms|
    ensures var p, t := Find(ms, "propertyNames"), Strict(Object(ms)).members;
      && (i != p && (p == |ms| || i < |ms| - 1) ==> i < |t| && t[i].0 == ms[i].0)
      && (p < |ms| - 1 ==> p < |t| && t[p].0 == ms[|ms| - 1].0)
  {
    hide *;
    var mapped := StrictMembers(ms);
    StrictIs(ms);
    MappedNames(ms);
    LookupMapped(ms, mapped, "propertyNames");
    SwapKeepsPlaces(mapped, "propertyNames", i);
    DeclareKeepsPlaces(ms, SwapRemove(mapped, "propertyNames"));
  }

  lemma MappedNames(ms: Members)
    ensures |StrictMembers(ms)| == |ms| && forall i :: 0 <= i < |ms| ==> StrictMembers(ms)[i].0 == ms[i].0
  {
    hide StrictMember;
  }

  /** Other keywords that hold no schema stay as they are, references aside; so do strings. */
  lemma OthersStay(ms: Members, key: string, x: Value, moves: seq<string>)
    requires Distinct(ms) && Lookup(ms, key) == Some(x) && !IsReferenceKey(key)
    requires key != "propertyNames" && key != "additionalProperties" && key != "required"
    requires (!HoldsNamed(key) && !HoldsSchemas(key)) || x.String?
    ensures MemberOf(Transformed(Object(ms), moves), key) == Some(x)
  {
    KeywordsAre(key);
    Looked(ms, key, moves);
    hide Transformed, IsObjectSchema;
  }

  /** A schema in a list keeps its place. */
  lemma ListedBecome(ms: Members, key: string, x: Value, moves: seq<string>)
    requires Distinct(ms) && Lookup(ms, key) == Some(x) && HoldsSchemas(key)
    requires key != "propertyNames" && !(key == "additionalProperties" && DescribesObjects(ms))
    ensures var r := MemberOf(Transformed(Object(ms), moves), key);
      && r.Some?
      && match x
         case Array(items) =>
           r.value.Array? && |r.value.items| == |items|
           && forall i :: 0 <= i < |items| ==> r.value.items[i] == Transformed(items[i], moves)
         case _ => r.value == Transformed(x, moves)
  {
    KeywordsAre(key);
    ReadingIs(ms, "");
    assert !HoldsSchemas("required") && Has(ms, key);
    hide *;
    Looked(ms, key, moves);
    SchemasBecome(ms, key, x, moves);
  }

  lemma SchemasBecome(ms: Members, key: string, x: Value, moves: seq<string>)
    requires key in CHILD_KEYS && key !in MAP_KEYS && key !in REF_KEYS
    ensures var r := RefMember(key, StrictMember(ms, key, x), moves);
      match x
      case Array(items) =>
        r.Array? && |r.items| == |items| && forall i :: 0 <= i < |items| ==> r.items[i] == Transformed(items[i], moves)
      case _ => r == Transformed(x, moves)
  {
    StrictKeepsShape(x);
    hide Strict, RewriteRefs;
  }

  /** Schemas under names keep them; a property that objects may lack is wrapped to allow null. */
  lemma NamedBecome(ms: Members, key: string, children: Members, i: nat, moves: seq<string>)
    requires Distinct(ms) && Lookup(ms, key) == Some(Object(children)) && HoldsNamed(key) && i < |children|
    ensures var r := MemberOf(Transformed(Object(ms), moves), key);
      var name, c := children[i].0, Transformed(children[i].1, moves);
      && r.Some? && r.value.Object? && |r.value.members| == |children|
      && r.value.members[i] ==
         (name, if key == "properties" && DescribesObjects(ms) && !RequiresMember(ms, name)
                then Object([("anyOf", Array([c, Object([("type", String("null"))])]))]) else c)
  {
    KeywordsAre(key);
    ReadingIs(ms, children[i].0);
    Looked(ms, key, moves);
    KeywordsAre("required");
    KeywordsAre("additionalProperties");
    KeywordsAre("propertyNames");
    WrapperBecomes(Strict(children[i].1), moves);
    hide IsObjectSchema, REF_KEYS, MAP_KEYS, CHILD_KEYS, Strict, RewriteRefs, Nullable;
    var y := StrictMember(ms, key, Object(children));
    assert y.Object? && y.members[i] == (children[i].0, StrictChild(ms, key, children[i].0, children[i].1));
  }

  /** References below a wrapper are repaired like any others. */
  lemma WrapperBecomes(v: Value, moves: seq<string>)
    ensures RewriteRefs(Nullable(v), moves) ==
      Object([("anyOf", Array([RewriteRefs(v, moves), Object([("type", String("null"))])]))])
  {
    KeywordsAre("anyOf");
    KeywordsAre("type");
    var n := Object([("type", String("null"))]);
    assert RewriteRefs(n, moves) == n;
    assert RefMember("anyOf", Array([v, n]), moves) == Array([RewriteRefs(v, moves), RewriteRefs(n, moves)]);
  }
}

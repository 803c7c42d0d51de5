/** Which schemas strict mode refuses: those with a dictionary of arbitrary values at a checked
    position, which forbidding additional properties would lose. */
module StrictValidation {
  import opened Options
  import opened JsonValues
  import opened StrictSchema
  import opened StrictProofs

  const CHECKED_MAPS: seq<string> := ["properties", "definitions", "$defs", "dependentSchemas", "dependencies"]

  const CHECKED_CHILDREN: seq<string> :=
    ["items", "additionalItems", "anyOf", "allOf", "oneOf", "prefixItems", "not", "if", "then", "else", "contains",
     "unevaluatedItems", "unevaluatedProperties"]

  predicate IsDictionary(x: Option<Value>) {
    x.Some? && (x.value.Object? || x.value == Bool(true))
  }

  /** The keyword that makes this schema, its subschemas aside, one to refuse. */
  function Unsupported(ms: Members): Option<string> {
    if IsDictionary(Lookup(ms, "additionalProperties")) then Some("additionalProperties")
    else if IsDictionary(Lookup(ms, "patternProperties")) then Some("patternProperties")
    else None
  }

  /** The first keyword found that strict mode cannot represent. */
  function FirstUnsupported(v: Value): Option<string>
    decreases v, 3
  {
    match v
    case Object(ms) =>
      var own := Unsupported(ms);
      if own.Some? then own
      else
        var named := FirstInKeys(v, CHECKED_MAPS);
        if named.Some? then named else FirstInKeys(v, CHECKED_CHILDREN)
    case _ => None
  }

  function FirstInKeys(v: Value, keys: seq<string>): Option<string>
    requires v.Object?
    decreases v, 2, keys
  {
    if keys == [] then None
    else
      var first := FirstInKey(v, keys[0]);
      if first.Some? then first else FirstInKeys(v, keys[1..])
  }

  function FirstInKey(v: Value, key: string): Option<string>
    requires v.Object?
    decreases v, 1
  {
    var i := Find(v.members, key);
    if i == |v.members| then None
    else
      var x := v.members[i].1;
      if key in CHECKED_MAPS then (if x.Object? then FirstNamed(x, 0) else None)
      else if x.Array? then FirstIndexed(x, 0)
      else FirstUnsupported(x)
  }

  function FirstNamed(x: Value, i: nat): Option<string>
    requires x.Object? && i <= |x.members|
    decreases x, |x.members| - i
  {
    if i == |x.members| then None
    else
      var first := FirstUnsupported(x.members[i].1);
      if first.Some? then first else FirstNamed(x, i + 1)
  }

  function FirstIndexed(x: Value, i: nat): Option<string>
    requires x.Array? && i <= |x.items|
    decreases x, |x.items| - i
  {
    if i == |x.items| then None
    else
      var first := FirstUnsupported(x.items[i]);
      if first.Some? then first else FirstIndexed(x, i + 1)
  }

  // ----- Validation finds exactly the dictionaries at checked positions

  predicate IsChecked(slot: Slot) {
    match slot
    case Named(key, _) => key in CHECKED_MAPS
    case _ => slot.key in CHECKED_CHILDREN
  }

  predicate AllChecked(slots: seq<Slot>) {
    forall i :: 0 <= i < |slots| ==> IsChecked(slots[i])
  }

  predicate Supported(v: Value) {
    v.Object? ==> Unsupported(v.members).None?
  }

  lemma CheckedKeys()
    ensures forall i :: 0 <= i < |CHECKED_MAPS| ==> CHECKED_MAPS[i] in MAP_KEYS && CHECKED_MAPS[i] !in CHECKED_CHILDREN
    ensures forall i :: 0 <= i < |CHECKED_CHILDREN| ==> CHECKED_CHILDREN[i] in CHILD_KEYS
  {
  }

  lemma {:induction false} NoneNamed(x: Value, i: nat, j: nat)
    requires x.Object? && i <= j < |x.members| && FirstNamed(x, i).None?
    ensures FirstUnsupported(x.members[j].1).None?
    decreases j - i
  {
    if i < j {
      NoneNamed(x, i + 1, j);
    }
  }

  lemma {:induction false} NoneIndexed(x: Value, i: nat, j: nat)
    requires x.Array? && i <= j < |x.items| && FirstIndexed(x, i).None?
    ensures FirstUnsupported(x.items[j]).None?
    decreases j - i
  {
    if i < j {
      NoneIndexed(x, i + 1, j);
    }
  }

  lemma {:induction false} NoneInKeys(v: Value, keys: seq<string>, key: string)
    requires v.Object? && key in keys && FirstInKeys(v, keys).None?
    ensures FirstInKey(v, key).None?
    decreases |keys|
  {
    if keys[0] != key {
      NoneInKeys(v, keys[1..], key);
    }
  }

  lemma NoneInSlot(v: Value, slot: Slot)
    requires v.Object? && FirstUnsupported(v).None? && IsChecked(slot) && ChildAt(v.members, slot).Some?
    ensures FirstUnsupported(ChildAt(v.members, slot).value).None?
  {
    CheckedKeys();
    var x := Lookup(v.members, slot.key).value;
    match slot
    case Named(key, name) =>
      NoneInKeys(v, CHECKED_MAPS, key);
      NoneNamed(x, 0, Find(x.members, name));
    case Indexed(key, index) =>
      NoneInKeys(v, CHECKED_CHILDREN, key);
      NoneIndexed(x, 0, index);
    case Whole(key) =>
      NoneInKeys(v, CHECKED_CHILDREN, key);
  }

  lemma {:induction false} NoneBelow(v: Value, slots: seq<Slot>)
    requires FirstUnsupported(v).None? && AllChecked(slots) && At(v, slots).Some?
    ensures Supported(At(v, slots).value)
    decreases |slots|
  {
    if slots != [] {
      hide ChildAt;
      NoneInSlot(v, slots[0]);
      NoneBelow(ChildAt(v.members, slots[0]).value, slots[1..]);
    }
  }

  lemma {:induction false} SomeNamed(x: Value, i: nat) returns (j: nat)
    requires x.Object? && i <= |x.members| && FirstNamed(x, i).Some?
    ensures j < |x.members| && FirstUnsupported(x.members[j].1) == FirstNamed(x, i)
    decreases |x.members| - i
  {
    if FirstUnsupported(x.members[i].1).Some? {
      j := i;
    } else {
      j := SomeNamed(x, i + 1);
    }
  }

  lemma {:induction false} SomeIndexed(x: Value, i: nat) returns (j: nat)
    requires x.Array? && i <= |x.items| && FirstIndexed(x, i).Some?
    ensures j < |x.items| && FirstUnsupported(x.items[j]) == FirstIndexed(x, i)
    decreases |x.items| - i
  {
    if FirstUnsupported(x.items[i]).Some? {
      j := i;
    } else {
      j := SomeIndexed(x, i + 1);
    }
  }

  lemma {:induction false} SomeInKeys(v: Value, keys: seq<string>) returns (key: string)
    requires v.Object? && FirstInKeys(v, keys).Some?
    ensures key in keys && FirstInKey(v, key) == FirstInKeys(v, keys)
    decreases |keys|
  {
    if FirstInKey(v, keys[0]).Some? {
      key := keys[0];
    } else {
      key := SomeInKeys(v, keys[1..]);
    }
  }

  lemma SomeInKey(v: Value, key: string) returns (slot: Slot)
    requires WellFormed(v) && v.Object? && FirstInKey(v, key).Some?
    requires key in CHECKED_MAPS || key in CHECKED_CHILDREN
    ensures IsChecked(slot) && ChildAt(v.members, slot).Some? && ChildAt(v.members, slot).value < v
    ensures FirstUnsupported(ChildAt(v.members, slot).value) == FirstInKey(v, key)
  {
    CheckedKeys();
    hide FirstUnsupported, CHECKED_MAPS, CHECKED_CHILDREN, MAP_KEYS, CHILD_KEYS;
    var x := v.members[Find(v.members, key)].1;
    if key in CHECKED_MAPS {
      var j := SomeNamed(x, 0);
      FindAt(x.members, j);
      slot := Named(key, x.members[j].0);
    } else if x.Array? {
      var j := SomeIndexed(x, 0);
      slot := Indexed(key, j);
    } else {
      slot := Whole(key);
    }
  }

  lemma {:induction false} SomeBelow(v: Value) returns (slots: seq<Slot>)
    requires WellFormed(v) && FirstUnsupported(v).Some?
    ensures AllChecked(slots) && At(v, slots).Some? && At(v, slots).value.Object?
    ensures Unsupported(At(v, slots).value.members) == FirstUnsupported(v)
    decreases v
  {
    var ms := v.members;
    if Unsupported(ms).Some? {
      slots := [];
    } else {
      var key;
      if FirstInKeys(v, CHECKED_MAPS).Some? {
        key := SomeInKeys(v, CHECKED_MAPS);
      } else {
        key := SomeInKeys(v, CHECKED_CHILDREN);
      }
      var slot := SomeInKey(v, key);
      hide Unsupported, FirstUnsupported, FirstInKeys, FirstInKey, ChildAt, IsChecked;
      ChildWellFormed(ms, slot);
      var rest := SomeBelow(ChildAt(ms, slot).value);
      slots := [slot] + rest;
      assert slots[1..] == rest;
    }
  }

  lemma NoneSupported(v: Value)
    requires WellFormed(v)
    ensures FirstUnsupported(v).None? <==>
      forall slots: seq<Slot> :: AllChecked(slots) && At(v, slots).Some? ==> Supported(At(v, slots).value)
  {
    hide FirstUnsupported, AllChecked, At;
    if FirstUnsupported(v).None? {
      forall slots: seq<Slot> | AllChecked(slots) && At(v, slots).Some?
        ensures Supported(At(v, slots).value)
      {
        NoneBelow(v, slots);
      }
    } else {
      var slots := SomeBelow(v);
      assert AllChecked(slots) && At(v, slots).Some?;
    }
  }

  /** The keywords below which dictionaries are looked for. */
  predicate IsCheckedPosition(slot: Slot) {
    match slot
    case Named(key, _) =>
      || key == "properties" || key == "definitions" || key == "$defs" || key == "dependentSchemas"
      || key == "dependencies"
    case _ =>
      var key := slot.key;
      || key == "items" || key == "additionalItems" || key == "anyOf" || key == "allOf" || key == "oneOf"
      || key == "prefixItems" || key == "not" || key == "if" || key == "then" || key == "else" || key == "contains"
      || key == "unevaluatedItems" || key == "unevaluatedProperties"
  }

  predicate AreCheckedPositions(slots: seq<Slot>) {
    forall i :: 0 <= i < |slots| ==> IsCheckedPosition(slots[i])
  }

  /** Members beyond those declared may hold arbitrary values, or those of a schema. */
  predicate HoldsDictionary(v: Value) {
    v.Object? &&
      (|| Lookup(v.members, "additionalProperties") == Some(Bool(true))
       || Lookup(v.members, "patternProperties") == Some(Bool(true))
       || (Lookup(v.members, "additionalProperties").Some? && Lookup(v.members, "additionalProperties").value.Object?)
       || (Lookup(v.members, "patternProperties").Some? && Lookup(v.members, "patternProperties").value.Object?))
  }

  lemma CheckedIs(slot: Slot)
    ensures IsChecked(slot) <==> IsCheckedPosition(slot)
  {
    if slot.Named? {
      hide CHECKED_CHILDREN;
    } else {
      hide CHECKED_MAPS;
    }
  }

  /** Validation passes exactly the schemas with no dictionary at a checked position. */
  lemma ValidationIsExact(v: Value)
    requires WellFormed(v)
    ensures FirstUnsupported(v).None? <==>
      forall slots: seq<Slot> :: AreCheckedPositions(slots) && At(v, slots).Some? ==>
        !HoldsDictionary(At(v, slots).value)
  {
    NoneSupported(v);
    forall slots: seq<Slot>
      ensures AreCheckedPositions(slots) <==> AllChecked(slots)
    {
      forall i | 0 <= i < |slots|
        ensures IsChecked(slots[i]) <==> IsCheckedPosition(slots[i])
      {
        CheckedIs(slots[i]);
      }
    }
    forall x: Value
      ensures Supported(x) <==> !HoldsDictionary(x)
    {
      SupportedIs(x);
    }
    hide *;
  }

  lemma SupportedIs(x: Value)
    ensures Supported(x) <==> !HoldsDictionary(x)
  {
    hide Lookup;
  }

  /** The keyword reported holds the dictionary: `additionalProperties` if that does. */
  lemma ReportsKeyword(v: Value)
    requires WellFormed(v) && FirstUnsupported(v).Some?
    ensures exists slots: seq<Slot> ::
      && AreCheckedPositions(slots) && At(v, slots).Some? && HoldsDictionary(At(v, slots).value)
      && Reports(At(v, slots).value, FirstUnsupported(v).value)
  {
    var slots := SomeBelow(v);
    var x := At(v, slots).value;
    forall i | 0 <= i < |slots|
      ensures IsCheckedPosition(slots[i])
    {
      CheckedIs(slots[i]);
    }
    hide FirstUnsupported, At, IsCheckedPosition, Lookup;
    assert HoldsDictionary(x) && Reports(x, FirstUnsupported(v).value);
  }

  predicate Reports(x: Value, keyword: string)
    requires x.Object?
  {
    var rest := Lookup(x.members, "additionalProperties");
    keyword == if rest.Some? && (rest.value.Object? || rest.value == Bool(true)) then "additionalProperties"
               else "patternProperties"
  }

  // ----- What validation protects

  predicate BelowArray(slots: seq<Slot>) {
    exists i :: 0 <= i < |slots| && slots[i].Indexed? && slots[i].key == "additionalProperties"
  }

  lemma SlotKinds(key: string)
    ensures key in MAP_KEYS ==> key in CHECKED_MAPS || key == "patternProperties"
    ensures key in CHILD_KEYS ==> key in CHECKED_CHILDREN || key == "propertyNames" || key == "additionalProperties"
    ensures "patternProperties" in MAP_KEYS && "patternProperties" !in CHILD_KEYS
    ensures "additionalProperties" in CHILD_KEYS && "additionalProperties" !in MAP_KEYS
  {
  }

  /** In an accepted schema the rewrite discards no dictionary of arbitrary values, unless
      `additionalProperties` holds an array, which no JSON Schema dialect allows. */
  lemma {:induction false} NothingDiscarded(v: Value, slots: seq<Slot>)
    requires FirstUnsupported(v).None? && Survives(v, slots) && !BelowArray(slots)
    ensures At(v, slots).Some? && Supported(At(v, slots).value) && !HoldsDictionary(At(v, slots).value)
    decreases |slots|
  {
    if slots == [] {
      SupportedIs(v);
    } else {
      var slot, ms := slots[0], v.members;
      SlotKinds(slot.key);
      var x := Lookup(ms, slot.key).value;
      assert Unsupported(ms).None?;
      if IsChecked(slot) {
        NoneInSlot(v, slot);
        hide FirstUnsupported, ChildAt, Keeps;
        assert !BelowArray(slots[1..]);
        NothingDiscarded(ChildAt(ms, slot).value, slots[1..]);
      } else {
        assert slot == Whole("additionalProperties") by {
          hide FirstUnsupported, CHECKED_MAPS, CHECKED_CHILDREN, MAP_KEYS, CHILD_KEYS;
          assert slot.key != "propertyNames";
          assert slot.key == "patternProperties" ==> !x.Object?;
        }
        assert !x.Object?;
      }
    }
  }

  function Listed(nested: Value): Value {
    Object([("additionalProperties", Array([nested]))])
  }

  lemma ListedLookup(nested: Value, key: string)
    ensures Lookup(Listed(nested).members, key) == if key == "additionalProperties" then Some(Array([nested])) else None
  {
    assert Listed(nested).members[1..] == [];
  }

  lemma ListedPlain(nested: Value)
    ensures Unsupported(Listed(nested).members).None? && !IsObjectSchema(Listed(nested).members)
  {
    ListedLookup(nested, "additionalProperties");
    ListedLookup(nested, "patternProperties");
    ListedLookup(nested, "type");
    ListedLookup(nested, "properties");
  }

  lemma ListedPasses(nested: Value)
    ensures FirstUnsupported(Listed(nested)).None?
  {
    var v := Listed(nested);
    ListedPlain(nested);
    UncheckedKey();
    forall k | k != "additionalProperties"
      ensures !Has(v.members, k)
    {
      ListedLookup(nested, k);
    }
    assert v.Object?;
    hide Listed, Unsupported, CHECKED_MAPS, CHECKED_CHILDREN, FirstInKeys;
    NoOtherKey(v, CHECKED_MAPS, "additionalProperties");
    NoOtherKey(v, CHECKED_CHILDREN, "additionalProperties");
  }

  lemma ListedChild(nested: Value)
    ensures var ms := Listed(nested).members; var slot := Indexed("additionalProperties", 0);
      ChildAt(ms, slot) == Some(nested) && Keeps(ms, slot.key)
  {
    ListedLookup(nested, "additionalProperties");
    ListedPlain(nested);
    SlotKinds("additionalProperties");
    UncheckedKey();
    hide Listed, IsObjectSchema, MAP_KEYS, CHILD_KEYS;
  }

  /** The exception is real: below such an array anything passes. */
  lemma ArrayEscapes(nested: Value)
    ensures var slots := [Indexed("additionalProperties", 0)];
      && FirstUnsupported(Listed(nested)).None? && BelowArray(slots)
      && Survives(Listed(nested), slots) && At(Listed(nested), slots) == Some(nested)
  {
    ListedPasses(nested);
    ListedChild(nested);
    hide FirstUnsupported, ChildAt, Keeps;
    var slots := [Indexed("additionalProperties", 0)];
    assert slots[1..] == [] && slots[0].Indexed?;
    assert Survives(nested, []) && At(nested, []) == Some(nested);
  }

  /** A dictionary below such an array passes the validation and is lost. */
  lemma DictionaryDiscarded(ms: Members)
    requires Distinct(ms) && IsObjectSchema(ms) && IsDictionary(Lookup(ms, "additionalProperties"))
    ensures FirstUnsupported(Listed(Object(ms))).None?
    ensures var slots := [Indexed("additionalProperties", 0)];
      && At(Listed(Object(ms)), slots) == Some(Object(ms))
      && At(Strict(Listed(Object(ms))), slots) == Some(Strict(Object(ms)))
      && Lookup(Strict(Object(ms)).members, "additionalProperties") == Some(Bool(false))
  {
    var nested := Object(ms);
    var v, slots := Listed(nested), [Indexed("additionalProperties", 0)];
    ArrayEscapes(nested);
    LookupStrict(ms, "additionalProperties");
    StrictListed(nested);
    ListedChild(Strict(nested));
    hide FirstUnsupported, IsObjectSchema, Strict, Listed, ChildAt;
    assert slots[1..] == [];
    assert At(Strict(nested), []) == Some(Strict(nested));
  }

  lemma StrictListed(nested: Value)
    ensures Strict(Listed(nested)) == Listed(Strict(nested))
  {
    var v, ms := Listed(nested), Listed(nested).members;
    ListedPlain(nested);
    ListedLookup(nested, "propertyNames");
    SlotKinds("additionalProperties");
    UncheckedKey();
    StrictIs(ms);
    hide IsObjectSchema, MAP_KEYS, CHILD_KEYS, Strict;
    assert StrictMember(ms, "additionalProperties", Array([nested])).items == [Strict(nested)];
    assert StrictMembers(ms) == Listed(Strict(nested)).members;
    ListedLookup(Strict(nested), "propertyNames");
  }

  lemma UncheckedKey()
    ensures "additionalProperties" !in CHECKED_MAPS && "additionalProperties" !in CHECKED_CHILDREN
    ensures "additionalProperties" != "propertyNames"
  {
  }

  lemma {:induction false} NoOtherKey(v: Value, keys: seq<string>, key: string)
    requires v.Object? && key !in keys && forall k :: k != key ==> !Has(v.members, k)
    ensures FirstInKeys(v, keys) == None
    decreases |keys|
  {
    if keys != [] {
      NoOtherKey(v, keys[1..], key);
      assert !Has(v.members, keys[0]);
    }
  }

  // ----- The validation itself

  method ValidateNamed(x: Value) returns (r: Option<string>)
    requires x.Object?
    ensures r == FirstNamed(x, 0)
    decreases x, 0
  {
    for i := 0 to |x.members|
      invariant FirstNamed(x, i) == FirstNamed(x, 0)
    {
      r := ValidateStrictMaps(x.members[i].1);
      if r.Some? {
        return;
      }
    }
    r := None;
  }

  method ValidateIndexed(x: Value) returns (r: Option<string>)
    requires x.Array?
    ensures r == FirstIndexed(x, 0)
    decreases x, 0
  {
    for i := 0 to |x.items|
      invariant FirstIndexed(x, i) == FirstIndexed(x, 0)
    {
      r := ValidateStrictMaps(x.items[i]);
      if r.Some? {
        return;
      }
    }
    r := None;
  }

  /** Looks for a keyword strict mode cannot represent. */
  method ValidateStrictMaps(schema: Value) returns (r: Option<string>)
    ensures r == FirstUnsupported(schema)
    decreases schema, 1
  {
    if !schema.Object? {
      return None;
    }
    var ms := schema.members;
    for k := 0 to 2
      invariant k > 0 ==> !IsDictionary(Lookup(ms, "additionalProperties"))
      invariant k > 1 ==> !IsDictionary(Lookup(ms, "patternProperties"))
    {
      var keyword := if k == 0 then "additionalProperties" else "patternProperties";
      if IsDictionary(Lookup(ms, keyword)) {
        return Some(keyword);
      }
    }
    hide Unsupported, IsDictionary, CHECKED_MAPS, CHECKED_CHILDREN;
    for k := 0 to |CHECKED_MAPS|
      invariant FirstInKeys(schema, CHECKED_MAPS[k..]) == FirstInKeys(schema, CHECKED_MAPS)
    {
      var i := Find(ms, CHECKED_MAPS[k]);
      if i < |ms| && ms[i].1.Object? {
        r := ValidateNamed(ms[i].1);
        if r.Some? {
          return;
        }
      }
    }
    for k := 0 to |CHECKED_CHILDREN|
      invariant FirstInKeys(schema, CHECKED_CHILDREN[k..]) == FirstInKeys(schema, CHECKED_CHILDREN)
    {
      var i := Find(ms, CHECKED_CHILDREN[k]);
      if i < |ms| {
        assert CHECKED_CHILDREN[k] !in CHECKED_MAPS by { CheckedKeys(); }
        if ms[i].1.Array? {
          r := ValidateIndexed(ms[i].1);
        } else {
          r := ValidateStrictMaps(ms[i].1);
        }
        if r.Some? {
          return;
        }
      }
    }
    r := None;
  }
}

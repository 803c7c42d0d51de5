/** Which instances a schema accepts, for schemas built from types, properties, required names,
    item schemas, alternatives and enumerations of scalars, and which schemas do not notice
    null members. */
module SchemaMeaning {
  import opened Digits
  import opened Options
  import opened JsonValues
  import opened StrictSchema
  import opened LocalReferences

  /** What the model leaves open: when a number counts as an integer, which texts denote the same
      number, and what the keywords that only constrain scalars (lengths, ranges, formats) say. */
  datatype Dialect = Dialect(isInteger: string -> bool, sameNumber: (string, string) -> bool,
                             asserts: (string, Value, Value) -> bool)

  // ----- Meaning

  predicate IsScalar(x: Value) {
    !x.Array? && !x.Object?
  }

  predicate HasType(d: Dialect, x: Value, kind: string) {
    match x
    case Null => kind == "null"
    case Bool(_) => kind == "boolean"
    case Number(text) => kind == "number" || (kind == "integer" && d.isInteger(text))
    case String(_) => kind == "string"
    case Array(_) => kind == "array"
    case Object(_) => kind == "object"
  }

  ghost predicate TypeAllows(d: Dialect, ms: Members, x: Value) {
    match Lookup(ms, "type")
    case Some(String(kind)) => HasType(d, x, kind)
    case Some(Array(kinds)) => exists i :: 0 <= i < |kinds| && kinds[i].String? && HasType(d, x, kinds[i].s)
    case _ => true
  }

  /** Equal as JSON values, whatever the order of members. */
  predicate Same(d: Dialect, a: Value, b: Value)
    decreases a
  {
    match a
    case Number(text) => b.Number? && (text == b.text || d.sameNumber(text, b.text))
    case Array(items) =>
      b.Array? && |items| == |b.items| && forall i :: 0 <= i < |items| ==> Same(d, items[i], b.items[i])
    case Object(ms) =>
      && b.Object? && |ms| == |b.members|
      && forall i :: 0 <= i < |ms| ==> Has(b.members, ms[i].0) && Same(d, ms[i].1, Lookup(b.members, ms[i].0).value)
    case _ => a == b
  }

  predicate EnumAllows(d: Dialect, ms: Members, x: Value) {
    match Lookup(ms, "enum")
    case Some(Array(values)) => exists i :: 0 <= i < |values| && Same(d, values[i], x)
    case _ => true
  }

  predicate ConstAllows(d: Dialect, ms: Members, x: Value) {
    Lookup(ms, "const").Some? ==> Same(d, Lookup(ms, "const").value, x)
  }

  /** A bound written in digits. */
  predicate IsBound(x: Value) {
    x.Number? && IsDigits(x.text)
  }

  predicate AtLeast(ms: Members, key: string, n: nat) {
    Lookup(ms, key).Some? && IsBound(Lookup(ms, key).value) ==> DigitsValue(Lookup(ms, key).value.text) <= n
  }

  predicate AtMost(ms: Members, key: string, n: nat) {
    Lookup(ms, key).Some? && IsBound(Lookup(ms, key).value) ==> n <= DigitsValue(Lookup(ms, key).value.text)
  }

  predicate AllowsLength(ms: Members, n: nat) {
    AtLeast(ms, "minItems", n) && AtMost(ms, "maxItems", n)
  }

  predicate AllDifferent(d: Dialect, items: seq<Value>) {
    forall i, j :: 0 <= i < j < |items| ==> !Same(d, items[i], items[j])
  }

  /** The members that the presence of others requires. */
  predicate DependentsPresent(ms: Members, x: Members) {
    match Lookup(ms, "dependentRequired")
    case Some(Object(ds)) =>
      forall i :: 0 <= i < |ds| && Has(x, ds[i].0) && ds[i].1.Array? ==>
        forall j :: 0 <= j < |ds[i].1.items| && ds[i].1.items[j].String? ==> Has(x, ds[i].1.items[j].s)
    case _ => true
  }

  /** What the keywords that count or compare items and members say. */
  predicate CountsAllow(d: Dialect, ms: Members, x: Value) {
    match x
    case Array(items) =>
      AllowsLength(ms, |items|) && (Lookup(ms, "uniqueItems") == Some(Bool(true)) ==> AllDifferent(d, items))
    case Object(xm) =>
      AtLeast(ms, "minProperties", |xm|) && AtMost(ms, "maxProperties", |xm|) && DependentsPresent(ms, xm)
    case _ => true
  }

  /** Keywords that count or compare members, and so can notice null members. */
  const COUNTING: seq<string> := ["minProperties", "maxProperties", "dependentRequired", "uniqueItems"]

  const STRUCTURE: seq<string> :=
    ["required", "properties", "items", "anyOf", "additionalProperties", "definitions", "$defs"]

  const MODELLED: seq<string> := ["type", "enum", "const", "minItems", "maxItems"] + COUNTING + STRUCTURE

  /** What the other keywords say of a scalar. */
  ghost predicate ScalarAllows(d: Dialect, ms: Members, x: Value) {
    forall key :: Lookup(ms, key).Some? && key !in MODELLED ==> d.asserts(key, Lookup(ms, key).value, x)
  }

  /** Everything but the keywords that hold subschemas or name members. */
  ghost predicate PlainAllows(d: Dialect, ms: Members, x: Value) {
    && TypeAllows(d, ms, x) && EnumAllows(d, ms, x) && ConstAllows(d, ms, x) && CountsAllow(d, ms, x)
    && (IsScalar(x) ==> ScalarAllows(d, ms, x))
  }

  predicate ForbidsOthers(ms: Members) {
    Lookup(ms, "additionalProperties") == Some(Bool(false))
  }

  /** Whether a schema accepts an instance; with `closed`, object schemas accept declared
      members only. */
  ghost predicate Valid(d: Dialect, s: Value, x: Value, closed: bool)
    decreases s, 2
  {
    match s
    case Bool(b) => b
    case Object(ms) => HostAllows(d, s, x, closed) && SomeAllows(d, s, x, closed)
    case _ => false
  }

  /** What the keywords beside `anyOf` say. */
  ghost predicate HostAllows(d: Dialect, s: Value, x: Value, closed: bool)
    requires s.Object?
    decreases s, 1
  {
    PlainAllows(d, s.members, x) && MembersAllow(d, s, x, closed) && ItemsAllow(d, s, x, closed)
  }

  ghost predicate MembersAllow(d: Dialect, s: Value, x: Value, closed: bool)
    requires s.Object?
    decreases s, 0
  {
    var ms, i := s.members, Find(s.members, "properties");
    x.Object? ==>
      && (forall j :: 0 <= j < |Required(ms)| ==> Has(x.members, Required(ms)[j]))
      && (ForbidsOthers(ms) || (closed && IsObjectSchema(ms)) ==>
            forall j :: 0 <= j < |x.members| ==> Has(Properties(ms), x.members[j].0))
      && (i < |ms| && ms[i].1.Object? ==>
            forall j :: 0 <= j < |ms[i].1.members| && Has(x.members, ms[i].1.members[j].0) ==>
              Valid(d, ms[i].1.members[j].1, Lookup(x.members, ms[i].1.members[j].0).value, closed))
  }

  ghost predicate ItemsAllow(d: Dialect, s: Value, x: Value, closed: bool)
    requires s.Object?
    decreases s, 0
  {
    var ms, i := s.members, Find(s.members, "items");
    x.Array? && i < |ms| ==> forall j :: 0 <= j < |x.items| ==> Valid(d, ms[i].1, x.items[j], closed)
  }

  ghost predicate SomeAllows(d: Dialect, s: Value, x: Value, closed: bool)
    requires s.Object?
    decreases s, 0
  {
    var ms, i := s.members, Find(s.members, "anyOf");
    i < |ms| && ms[i].1.Array? ==>
      exists j :: 0 <= j < |ms[i].1.items| && Valid(d, ms[i].1.items[j], x, closed)
  }

  /** The alternatives that a schema lists. */
  function Branches(ms: Members): seq<Value> {
    match Lookup(ms, "anyOf")
    case Some(Array(items)) => items
    case _ => []
  }

  // ----- Schemas that do not notice null members

  /** The type, or an enumeration or constant of scalars, rules out objects (or arrays). */
  predicate Refuses(ms: Members, kind: string) {
    || Has(ms, "enum") || Has(ms, "const")
    || match Lookup(ms, "type")
       case Some(String(allowed)) => allowed != kind
       case Some(Array(kinds)) => forall i :: 0 <= i < |kinds| ==> kinds[i] != String(kind)
       case _ => false
  }

  /** The keywords beside `anyOf` say nothing about the members of an object. */
  predicate HostSkipsMembers(ms: Members) {
    Refuses(ms, "object") || (!IsObjectSchema(ms) && !ForbidsOthers(ms))
  }

  /** No object is told apart by its members. */
  predicate SkipsMembers(s: Value)
    decreases s
  {
    match s
    case Object(ms) =>
      var i := Find(ms, "anyOf");
      || Refuses(ms, "object")
      || (HostSkipsMembers(ms)
          && (i < |ms| && ms[i].1.Array? ==> forall j :: 0 <= j < |ms[i].1.items| ==> SkipsMembers(ms[i].1.items[j])))
    case _ => true
  }

  /** The shortest length above zero that `minItems` allows. */
  function LeastLength(ms: Members): (n: nat)
    ensures n > 0
  {
    match Lookup(ms, "minItems")
    case Some(Number(text)) => if IsDigits(text) && DigitsValue(text) > 1 then DigitsValue(text) else 1
    case _ => 1
  }

  /** The length bounds allow arrays with items. */
  predicate HoldsItems(ms: Members) {
    AllowsLength(ms, LeastLength(ms))
  }

  /** Beside `anyOf`, items are ruled out or told apart by no members. */
  predicate HostSkipsItems(ms: Members)
    decreases Object(ms), 0
  {
    var i := Find(ms, "items");
    Refuses(ms, "array") || !HoldsItems(ms) || (i < |ms| ==> SkipsMembers(ms[i].1) && SkipsItems(ms[i].1))
  }

  /** No array is told apart by the members of its items, at any depth. */
  predicate SkipsItems(s: Value)
    decreases s, 1
  {
    match s
    case Object(ms) =>
      var i := Find(ms, "anyOf");
      || Refuses(ms, "array")
      || (HostSkipsItems(ms)
          && (i < |ms| && ms[i].1.Array? ==> forall j :: 0 <= j < |ms[i].1.items| ==> SkipsItems(ms[i].1.items[j])))
    case _ => true
  }

  /** On objects, and on arrays, either the alternatives or what stands beside them do not notice
      null members. */
  predicate Apart(ms: Members, branches: seq<Value>) {
    && (HostSkipsMembers(ms) || forall j :: 0 <= j < |branches| ==> SkipsMembers(branches[j]))
    && (HostSkipsItems(ms) || forall j :: 0 <= j < |branches| ==> SkipsItems(branches[j]))
  }

  // ----- The schemas covered

  const SUBSCHEMA_KEYS: seq<string> := ["properties", "items", "anyOf", "additionalProperties", "definitions", "$defs"]

  predicate ScalarEnum(ms: Members) {
    match Lookup(ms, "enum")
    case None => true
    case Some(Array(values)) => forall i :: 0 <= i < |values| ==> IsScalar(values[i])
    case _ => false
  }

  /** Enumerations and constants are scalars, length bounds are written in digits, and nothing counts
      or compares members. */
  predicate PlainCovered(ms: Members) {
    && ScalarEnum(ms) && (Lookup(ms, "const").Some? ==> IsScalar(Lookup(ms, "const").value))
    && (Lookup(ms, "minItems").Some? ==> IsBound(Lookup(ms, "minItems").value))
    && (Lookup(ms, "maxItems").Some? ==> IsBound(Lookup(ms, "maxItems").value))
    && forall i :: 0 <= i < |COUNTING| ==> Lookup(ms, COUNTING[i]).None?
  }

  ghost predicate OnlyModelledSubschemas(ms: Members) {
    forall key :: Has(ms, key) && (key in MAP_KEYS || key in CHILD_KEYS || key in REF_KEYS) ==> key in SUBSCHEMA_KEYS
  }

  /** The keywords are among those modelled, and required members are declared. */
  ghost predicate KeywordsCovered(ms: Members) {
    && Distinct(ms) && OnlyModelledSubschemas(ms) && PlainCovered(ms)
    && (Lookup(ms, "additionalProperties").Some? ==> ForbidsOthers(ms))
    && forall j :: 0 <= j < |Required(ms)| ==> Has(Properties(ms), Required(ms)[j])
  }

  ghost predicate PropertiesCovered(s: Value)
    requires s.Object?
    decreases s, 0
  {
    var ms, i := s.members, Find(s.members, "properties");
    i < |ms| ==> ms[i].1.Object? && Distinct(ms[i].1.members)
                 && forall j :: 0 <= j < |ms[i].1.members| ==> Covered(ms[i].1.members[j].1)
  }

  ghost predicate ItemSchemaCovered(s: Value)
    requires s.Object?
    decreases s, 0
  {
    var ms, i := s.members, Find(s.members, "items");
    i < |ms| ==> !ms[i].1.Array? && Covered(ms[i].1)
  }

  ghost predicate BranchesCovered(s: Value)
    requires s.Object?
    decreases s, 0
  {
    var ms, i := s.members, Find(s.members, "anyOf");
    i < |ms| ==> ms[i].1.Array? && forall j :: 0 <= j < |ms[i].1.items| ==> Covered(ms[i].1.items[j])
  }

  ghost predicate HostCovered(s: Value)
    requires s.Object?
    decreases s, 1
  {
    KeywordsCovered(s.members) && PropertiesCovered(s) && ItemSchemaCovered(s) && BranchesCovered(s)
  }

  /** Schemas of the modelled keywords in which the alternatives and what stands beside them keep
      apart. */
  ghost predicate Covered(s: Value)
    decreases s, 2
  {
    match s
    case Bool(_) => true
    case Object(ms) =>
      HostCovered(s) && Apart(ms, Branches(ms))
    case _ => false
  }

  // ----- Adding null members

  /** `x` is `y` with null members added, at any depth. */
  predicate AddsNulls(y: Value, x: Value)
    decreases x
  {
    match x
    case Array(xs) => y.Array? && |y.items| == |xs| && forall i :: 0 <= i < |xs| ==> AddsNulls(y.items[i], xs[i])
    case Object(xm) =>
      && y.Object?
      && (forall i :: 0 <= i < |y.members| ==> Has(xm, y.members[i].0))
      && forall i :: 0 <= i < |xm| ==>
           if Has(y.members, xm[i].0) then AddsNulls(Lookup(y.members, xm[i].0).value, xm[i].1) else xm[i].1 == Null
    case _ => y == x
  }

  lemma {:induction false} AddsNothing(x: Value)
    requires WellFormed(x)
    ensures AddsNulls(x, x)
  {
    match x
    case Array(xs) =>
      forall i | 0 <= i < |xs| ensures AddsNulls(xs[i], xs[i]) { AddsNothing(xs[i]); }
    case Object(xm) =>
      forall i | 0 <= i < |xm|
        ensures Lookup(xm, xm[i].0) == Some(xm[i].1) && AddsNulls(xm[i].1, xm[i].1)
      {
        FindAt(xm, i);
        AddsNothing(xm[i].1);
      }
    case _ =>
  }

  /** Keywords that the covered schemas lack. */
  lemma NoCounting(ms: Members)
    requires PlainCovered(ms)
    ensures Lookup(ms, "minProperties").None? && Lookup(ms, "maxProperties").None?
    ensures Lookup(ms, "dependentRequired").None? && Lookup(ms, "uniqueItems").None?
  {
    assert COUNTING[0] == "minProperties" && COUNTING[1] == "maxProperties";
    assert COUNTING[2] == "dependentRequired" && COUNTING[3] == "uniqueItems";
    hide Lookup, ScalarEnum;
  }

  /** The same scalars and arrays, with any objects in place of the objects. */
  predicate SameOutline(y: Value, x: Value)
    decreases x
  {
    match x
    case Array(xs) => y.Array? && |y.items| == |xs| && forall i :: 0 <= i < |xs| ==> SameOutline(y.items[i], xs[i])
    case Object(_) => y.Object?
    case _ => y == x
  }

  lemma {:induction false} AddsToOutline(y: Value, x: Value)
    requires AddsNulls(y, x)
    ensures SameOutline(y, x)
    decreases x
  {
    if x.Array? {
      forall i | 0 <= i < |x.items|
        ensures SameOutline(y.items[i], x.items[i])
      {
        AddsToOutline(y.items[i], x.items[i]);
      }
    }
  }

  lemma PlainOutline(d: Dialect, ms: Members, y: Value, x: Value)
    requires SameOutline(y, x) && PlainCovered(ms)
    ensures PlainAllows(d, ms, x) <==> PlainAllows(d, ms, y)
  {
    NoCounting(ms);
    hide Lookup, AllowsLength;
    assert IsScalar(x) || IsScalar(y) ==> y == x;
    if !IsScalar(x) {
      assert TypeAllows(d, ms, x) <==> TypeAllows(d, ms, y);
      assert CountsAllow(d, ms, x) <==> CountsAllow(d, ms, y);
      ScalarsDiffer(d, ms, x);
      ScalarsDiffer(d, ms, y);
    }
  }

  lemma PlainSame(d: Dialect, ms: Members, y: Value, x: Value)
    requires AddsNulls(y, x) && PlainCovered(ms)
    ensures PlainAllows(d, ms, x) <==> PlainAllows(d, ms, y)
  {
    AddsToOutline(y, x);
    PlainOutline(d, ms, y, x);
  }

  lemma ScalarsDiffer(d: Dialect, ms: Members, x: Value)
    requires PlainCovered(ms) && !IsScalar(x)
    ensures EnumAllows(d, ms, x) <==> Lookup(ms, "enum").None?
    ensures ConstAllows(d, ms, x) <==> Lookup(ms, "const").None?
  {
    hide Lookup;
  }

  /** A refused kind is not allowed. */
  lemma RefusedIsNot(d: Dialect, ms: Members, x: Value)
    requires PlainCovered(ms)
    ensures x.Object? && Refuses(ms, "object") ==> !PlainAllows(d, ms, x)
    ensures x.Array? && Refuses(ms, "array") ==> !PlainAllows(d, ms, x)
  {
    if !IsScalar(x) {
      ScalarsDiffer(d, ms, x);
    }
    hide IsObjectSchema, CountsAllow, EnumAllows, ConstAllows;
    assert Has(ms, "enum") <==> Lookup(ms, "enum").Some?;
    assert Has(ms, "const") <==> Lookup(ms, "const").Some?;
  }

  /** A kind that is not refused is allowed, arrays of an allowed length. */
  lemma UnrefusedIs(d: Dialect, ms: Members, x: Value)
    requires PlainCovered(ms)
    ensures x.Object? && !Refuses(ms, "object") ==> PlainAllows(d, ms, x)
    ensures x.Array? && !Refuses(ms, "array") && AllowsLength(ms, |x.items|) ==> PlainAllows(d, ms, x)
  {
    NoCounting(ms);
    if !IsScalar(x) {
      ScalarsDiffer(d, ms, x);
    }
    hide AllowsLength, EnumAllows, ConstAllows;
    assert Has(ms, "enum") <==> Lookup(ms, "enum").Some?;
    assert Has(ms, "const") <==> Lookup(ms, "const").Some?;
  }

  /** Whatever length is allowed, if it is not zero, arrays with items are. */
  lemma LengthHolds(ms: Members, n: nat)
    requires AllowsLength(ms, n) && n > 0
    ensures HoldsItems(ms)
  {
  }
}

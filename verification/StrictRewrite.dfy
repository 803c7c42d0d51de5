/** The strict rewrite step by step: each schema is rewritten, then its subschemas are
    visited in the rewritten schema, and moves are recorded as pointer texts as they happen.
    The result is `Strict` and the moves are `Moves`. */
module StrictRewrite {
  import opened Options
  import opened Sequences
  import opened JsonValues
  import opened JsonPointers
  import opened StrictSchema
  import opened StrictProofs
  import opened StrictForm

  // ----- The schema's own rewriting

  function Wrapped(ms: Members, properties: Members): Members {
    seq(|properties|, i requires 0 <= i < |properties| =>
      (properties[i].0, if IsOptional(ms, properties[i].0) then Nullable(properties[i].1) else properties[i].1))
  }

  /** The schema after its own rewriting, before its subschemas are visited. */
  function Own(ms: Members): Members {
    var kept := SwapRemove(ms, "propertyNames");
    if !IsObjectSchema(ms) then kept
    else
      var listed := match Lookup(ms, "properties")
                    case Some(Object(properties)) =>
                      Insert(Insert(kept, "properties", Object(Wrapped(ms, properties))), "required",
                        Array(Names(properties)))
                    case _ => kept;
      Insert(listed, "additionalProperties", Bool(false))
  }

  // ----- Visiting

  function VisitMember(key: string, x: Value): Value {
    if key in MAP_KEYS then
      match x
      case Object(children) =>
        Object(seq(|children|, i requires 0 <= i < |children| => (children[i].0, Strict(children[i].1))))
      case _ => x
    else if key in CHILD_KEYS then
      match x
      case Array(items) => Array(seq(|items|, i requires 0 <= i < |items| => Strict(items[i])))
      case _ => Strict(x)
    else x
  }

  function Visit(ms: Members, keys: seq<string>): Members {
    seq(|ms|, i requires 0 <= i < |ms| =>
      (ms[i].0, if ms[i].0 in keys then VisitMember(ms[i].0, ms[i].1) else ms[i].1))
  }

  function PlainNamed(children: Members, i: nat): seq<Path>
    requires i <= |children|
    decreases |children| - i
  {
    if i == |children| then []
    else Under([children[i].0], Moves(children[i].1)) + PlainNamed(children, i + 1)
  }

  function PlainIndexed(items: seq<Value>, i: nat): seq<Path>
    requires i <= |items|
    decreases |items| - i
  {
    if i == |items| then [] else Under([Decimal(i)], Moves(items[i])) + PlainIndexed(items, i + 1)
  }

  function VisitMoves(ms: Members, key: string): seq<Path> {
    match Lookup(ms, key)
    case None => []
    case Some(x) =>
      Under([key],
            if key in MAP_KEYS then (if x.Object? then PlainNamed(x.members, 0) else [])
            else if x.Array? then PlainIndexed(x.items, 0)
            else Moves(x))
  }

  function VisitAllMoves(ms: Members, keys: seq<string>): seq<Path> {
    if keys == [] then [] else VisitMoves(ms, keys[0]) + VisitAllMoves(ms, keys[1..])
  }

  // ----- Own rewriting and visiting make the strict schema

  lemma StrictFalse()
    ensures Strict(Bool(false)) == Bool(false)
  {
  }

  lemma VisitWrapped(ms: Members, properties: Members)
    ensures VisitMember("properties", Object(Wrapped(ms, properties))) ==
      StrictMember(ms, "properties", Object(properties))
  {
    PropertiesKey();
    hide IsOptional, Strict;
    var visited := VisitMember("properties", Object(Wrapped(ms, properties))).members;
    var strict := StrictMember(ms, "properties", Object(properties)).members;
    forall i | 0 <= i < |properties|
      ensures visited[i] == strict[i]
    {
      StrictNullable(properties[i].1);
      var wrapped := Wrapped(ms, properties);
      assert visited[i] == (wrapped[i].0, Strict(wrapped[i].1));
      assert strict[i].1 == StrictChild(ms, "properties", properties[i].0, properties[i].1);
    }
    assert visited == strict;
  }

  const ALL_KEYS: seq<string> := MAP_KEYS + CHILD_KEYS

  lemma VisitInsert(ms: Members, key: string, x: Value)
    ensures Visit(Insert(ms, key, x), ALL_KEYS)
         == Insert(Visit(ms, ALL_KEYS), key, if key in ALL_KEYS then VisitMember(key, x) else x)
  {
    hide VisitMember, ALL_KEYS;
    LookupMapped(ms, Visit(ms, ALL_KEYS), key);
  }

  lemma VisitRemove(ms: Members, key: string)
    ensures Visit(SwapRemove(ms, key), ALL_KEYS) == SwapRemove(Visit(ms, ALL_KEYS), key)
  {
    hide VisitMember, ALL_KEYS;
    LookupMapped(ms, Visit(ms, ALL_KEYS), key);
  }

  /** Where a key is once another is removed. */
  lemma FindRemoved(ms: Members, key: string, gone: string)
    requires Distinct(ms) && Has(ms, key) && Has(ms, gone) && key != gone
    ensures var i, n := Find(ms, key), |ms| - 1;
      Find(SwapRemove(ms, gone), key) == if i == n then Find(ms, gone) else i
  {
    var i, j, r := Find(ms, key), Find(ms, gone), SwapRemove(ms, gone);
    LookupSwapRemove(ms, gone, key);
    FindAt(r, if i == |ms| - 1 then j else i);
  }

  lemma InsertAt(ms: Members, key: string, x: Value)
    requires Find(ms, key) < |ms|
    ensures Insert(ms, key, x) == ms[Find(ms, key) := (key, x)]
  {
  }

  lemma InsertRemove(ms: Members, key: string, x: Value, gone: string)
    requires Distinct(ms) && Has(ms, key) && key != gone
    ensures Insert(SwapRemove(ms, gone), key, x) == SwapRemove(Insert(ms, key, x), gone)
  {
    var i, j := Find(ms, key), Find(ms, gone);
    InsertAt(ms, key, x);
    LookupMapped(ms, Insert(ms, key, x), gone);
    hide Find, Distinct, Insert;
    if Has(ms, gone) {
      FindRemoved(ms, key, gone);
      InsertAt(SwapRemove(ms, gone), key, x);
      UpdateRemove(ms, i, j, (key, x));
    }
  }

  lemma UpdateRemove(ms: Members, i: nat, j: nat, member: (string, Value))
    requires i < |ms| && j < |ms| && i != j
    ensures var n := |ms| - 1;
      ms[j := ms[n]][..n][if i == n then j else i := member] == ms[i := member][j := ms[i := member][n]][..n]
  {
  }

  lemma PlainMember(ms: Members, key: string, x: Value)
    requires key != "properties" || !x.Object? || !IsObjectSchema(ms)
    ensures StrictMember(ms, key, x) == if key in ALL_KEYS then VisitMember(key, x) else x
  {
    hide Strict;
    if key in MAP_KEYS && x.Object? {
      assert StrictMember(ms, key, x).members == VisitMember(key, x).members;
    }
  }

  predicate HasProperties(ms: Members) {
    Has(ms, "properties") && Lookup(ms, "properties").value.Object?
  }

  lemma VisitIsStrict(ms: Members)
    requires Distinct(ms)
    ensures if IsObjectSchema(ms) && HasProperties(ms)
            then Insert(Visit(ms, ALL_KEYS), "properties",
              StrictMember(ms, "properties", Lookup(ms, "properties").value))
                 == StrictMembers(ms)
            else Visit(ms, ALL_KEYS) == StrictMembers(ms)
  {
    var visited, strict := Visit(ms, ALL_KEYS), StrictMembers(ms);
    forall i | 0 <= i < |ms|
      ensures visited[i].0 == ms[i].0
      ensures !(IsObjectSchema(ms) && ms[i].0 == "properties" && ms[i].1.Object?) ==> visited[i] == strict[i]
    {
      if !(IsObjectSchema(ms) && ms[i].0 == "properties" && ms[i].1.Object?) {
        PlainMember(ms, ms[i].0, ms[i].1);
      }
    }
    LookupMapped(ms, visited, "properties");
    forall i | 0 <= i < |ms| && ms[i].0 == "properties"
      ensures i == Find(ms, "properties")
    {
      FindAt(ms, i);
    }
    hide IsObjectSchema, StrictMember, VisitMember, ALL_KEYS;
    if IsObjectSchema(ms) && HasProperties(ms) {
      var r := Insert(visited, "properties", StrictMember(ms, "properties", Lookup(ms, "properties").value));
      forall i | 0 <= i < |ms|
        ensures r[i] == strict[i]
      {
        if i != Find(ms, "properties") {
          assert ms[i].0 != "properties";
        }
      }
      assert r == strict;
    } else {
      assert visited == strict;
    }
  }

  /** Rewriting a schema and then visiting its subschemas gives the strict schema. */
  lemma OwnThenVisit(ms: Members)
    requires Distinct(ms)
    ensures Object(Visit(Own(ms), ALL_KEYS)) == Strict(Object(ms))
  {
    var kept := SwapRemove(ms, "propertyNames");
    StrictIs(ms);
    VisitIsStrict(ms);
    VisitRemove(ms, "propertyNames");
    StrictFalse();
    PropertiesKey();
    assert VisitMember("additionalProperties", Bool(false)) == Bool(false);
    hide Visit, IsObjectSchema, SwapRemove, Strict, StrictMember;
    if IsObjectSchema(ms) && HasProperties(ms) {
      var ps := Properties(ms);
      var wrapped := Object(Wrapped(ms, ps));
      var names := Array(Names(ps));
      VisitWrapped(ms, ps);
      VisitInsert(kept, "properties", wrapped);
      VisitInsert(Insert(kept, "properties", wrapped), "required", names);
      VisitInsert(Insert(Insert(kept, "properties", wrapped), "required", names), "additionalProperties", Bool(false));
      VisitKeys(ms);
      LookupMapped(ms, Visit(ms, ALL_KEYS), "properties");
      InsertRemove(Visit(ms, ALL_KEYS), "properties", StrictMember(ms, "properties", Object(ps)), "propertyNames");
      assert "required" !in ALL_KEYS;
    } else if IsObjectSchema(ms) {
      VisitInsert(kept, "additionalProperties", Bool(false));
    }
  }

  lemma VisitKeys(ms: Members)
    ensures |Visit(ms, ALL_KEYS)| == |ms| && forall i :: 0 <= i < |ms| ==> Visit(ms, ALL_KEYS)[i].0 == ms[i].0
  {
  }

  // ----- Visiting records the moves

  lemma UnderCat(prefix: Path, a: seq<Path>, b: seq<Path>)
    ensures Under(prefix, a + b) == Under(prefix, a) + Under(prefix, b)
  {
  }

  lemma UnderUnder(p: Path, q: Path, a: seq<Path>)
    ensures Under(p, Under(q, a)) == Under(p + q, a)
  {
    forall i | 0 <= i < |a|
      ensures Under(p, Under(q, a))[i] == Under(p + q, a)[i]
    {
      Cat2(p, q, a[i]);
    }
  }

  /** When one keyword is the only visited one present, its moves are all. */
  lemma {:induction false} OnlyKey(v: Value, keys: seq<string>, key: string)
    requires v.Object? && forall k :: k in keys && k != key ==> !Has(v.members, k)
    requires forall i, j :: 0 <= i < j < |keys| ==> keys[i] != keys[j]
    requires !IsObjectSchema(v.members)
    ensures KeysMoves(v, keys) == if key in keys then KeyMoves(v, key) else []
    decreases |keys|
  {
    if keys != [] {
      OnlyKey(v, keys[1..], key);
      if keys[0] != key {
        assert KeyMoves(v, keys[0]) == [];
      }
    }
  }

  lemma NullSchemaStill()
    ensures Moves(NULL_SCHEMA) == []
  {
    NullSchemaStays();
    NormalStays(NULL_SCHEMA);
  }

  lemma WrapperMoves(x: Value, v: Value)
    requires x == Array([v, NULL_SCHEMA])
    ensures IndexedMoves("anyOf", x, 0) == Under(WRAPPED, Moves(v))
  {
    NullSchemaStill();
    hide NULL_SCHEMA, Moves;
    assert IndexedMoves("anyOf", x, 2) == [];
    assert IndexedMoves("anyOf", x, 1) == Under(["anyOf", Decimal(1)], Moves(NULL_SCHEMA)) + [];
    assert Under(["anyOf", Decimal(1)], []) == [];
    assert ["anyOf", Decimal(0)] == WRAPPED;
    assert IndexedMoves("anyOf", x, 0) == Under(WRAPPED, Moves(v)) + [];
  }

  lemma NullableKey(v: Value, key: string)
    ensures Has(Nullable(v).members, key) <==> key == "anyOf"
    ensures Find(Nullable(v).members, "anyOf") == 0
  {
    assert Nullable(v).members[1..] == [];
  }

  lemma NullableKeyMoves(v: Value)
    ensures KeyMoves(Nullable(v), "anyOf") == Under(WRAPPED, Moves(v))
  {
    var w := Nullable(v);
    var x := w.members[0].1;
    NullableKey(v, "anyOf");
    AnyOfIsChildKey();
    WrapperMoves(x, v);
  }

  lemma MovesNullable(v: Value)
    ensures Moves(Nullable(v)) == Under(WRAPPED, Moves(v))
  {
    var w := Nullable(v);
    KeysApart();
    AnyOfIsChildKey();
    NullableIsPlain(v);
    NullableKeyMoves(v);
    forall k ensures Has(w.members, k) <==> k == "anyOf" { NullableKey(v, k); }
    hide Nullable, MAP_KEYS, CHILD_KEYS;
    OnlyKey(w, MAP_KEYS, "anyOf");
    OnlyKey(w, CHILD_KEYS, "anyOf");
  }

  lemma LookupOwn(ms: Members, key: string)
    requires Distinct(ms)
    ensures Lookup(Own(ms), key) ==
      if key == "propertyNames" then None
      else if IsObjectSchema(ms) && key == "additionalProperties" then Some(Bool(false))
      else if IsObjectSchema(ms) && key == "required" && HasProperties(ms) then Some(Array(Names(Properties(ms))))
      else if IsObjectSchema(ms) && key == "properties" && HasProperties(ms)
        then Some(Object(Wrapped(ms, Properties(ms))))
      else Lookup(ms, key)
    ensures Distinct(Own(ms))
  {
    var kept := SwapRemove(ms, "propertyNames");
    var wrapped := Object(Wrapped(ms, Properties(ms)));
    var names := Array(Names(Properties(ms)));
    hide IsObjectSchema, Wrapped, SwapRemove;
    LookupSwapRemove(ms, "propertyNames", key);
    LookupInsert(kept, "properties", wrapped, key);
    LookupInsert(Insert(kept, "properties", wrapped), "required", names, key);
    var listed := Insert(Insert(kept, "properties", wrapped), "required", names);
    LookupInsert(listed, "additionalProperties", Bool(false), key);
    LookupInsert(kept, "additionalProperties", Bool(false), key);
  }

  /** A property's moves, below its wrapper when it has one. */
  lemma ChildMovesIsPlain(ms: Members, key: string, name: string, c: Value)
    ensures Under(ChildPrefix(ms, key, name), Moves(c))
         == Under([key], Under([name], Moves(if Wraps(ms, Named(key, name)) then Nullable(c) else c)))
  {
    var child := if Wraps(ms, Named(key, name)) then Nullable(c) else c;
    MovesNullable(c);
    hide Moves, IsOptional, Nullable, Under;
    UnderUnder([key], [name], Moves(child));
    if Wraps(ms, Named(key, name)) {
      UnderUnder([key] + [name], WRAPPED, Moves(c));
      assert [key] + [name] + WRAPPED == ChildPrefix(ms, key, name);
    } else {
      assert [key] + [name] == ChildPrefix(ms, key, name);
    }
  }

  lemma PlainUnfold(children: Members, i: nat)
    requires i < |children|
    ensures PlainNamed(children, i) == Under([children[i].0], Moves(children[i].1)) + PlainNamed(children, i + 1)
  {
  }

  lemma NamedStep(ms: Members, key: string, x: Value, children: Members, i: nat)
    requires x.Object? && i < |x.members| == |children| && children[i].0 == x.members[i].0
    requires children[i].1 == if Wraps(ms, Named(key, x.members[i].0)) then Nullable(x.members[i].1) else x.members[i].1
    requires NamedMoves(ms, key, x, i + 1) == Under([key], PlainNamed(children, i + 1))
    ensures NamedMoves(ms, key, x, i) == Under([key], PlainNamed(children, i))
  {
    hide Moves, NamedMoves, Wraps, Nullable, Under, ChildPrefix, PlainNamed;
    ChildMovesIsPlain(ms, key, x.members[i].0, x.members[i].1);
    NamedUnfold(ms, key, x, i);
    PlainUnfold(children, i);
    UnderCat([key], Under([children[i].0], Moves(children[i].1)), PlainNamed(children, i + 1));
  }

  lemma NamedEnd(ms: Members, key: string, x: Value, children: Members)
    requires x.Object? && |x.members| == |children|
    ensures NamedMoves(ms, key, x, |x.members|) == Under([key], PlainNamed(children, |children|))
  {
  }

  lemma {:induction false} NamedIsPlain(ms: Members, key: string, x: Value, children: Members, i: nat)
    requires x.Object? && i <= |x.members| == |children|
    requires forall j :: 0 <= j < |children| ==>
      children[j] ==
        (x.members[j].0, if Wraps(ms, Named(key, x.members[j].0)) then Nullable(x.members[j].1) else x.members[j].1)
    ensures NamedMoves(ms, key, x, i) == Under([key], PlainNamed(children, i))
    decreases |children| - i
  {
    hide *;
    if i == |children| {
      NamedEnd(ms, key, x, children);
    } else {
      NamedIsPlain(ms, key, x, children, i + 1);
      NamedStep(ms, key, x, children, i);
    }
  }

  lemma NamedUnfold(ms: Members, key: string, x: Value, i: nat)
    requires x.Object? && i < |x.members|
    ensures NamedMoves(ms, key, x, i)
         == Under(ChildPrefix(ms, key, x.members[i].0), Moves(x.members[i].1)) + NamedMoves(ms, key, x, i + 1)
  {
  }

  lemma {:induction false} IndexedIsPlain(key: string, x: Value, i: nat)
    requires x.Array? && i <= |x.items|
    ensures IndexedMoves(key, x, i) == Under([key], PlainIndexed(x.items, i))
    decreases |x.items| - i
  {
    if i < |x.items| {
      IndexedIsPlain(key, x, i + 1);
      UnderCat([key], Under([Decimal(i)], Moves(x.items[i])), PlainIndexed(x.items, i + 1));
      UnderUnder([key], [Decimal(i)], Moves(x.items[i]));
      assert [key] + [Decimal(i)] == [key, Decimal(i)];
    }
  }

  lemma KeptKeyMoves(ms: Members, key: string, x: Value)
    requires (key in MAP_KEYS || key in CHILD_KEYS) && Keeps(ms, key) && Has(ms, key)
    requires x == ms[Find(ms, key)].1
    ensures KeyMoves(Object(ms), key) ==
      if key in MAP_KEYS then (if x.Object? then NamedMoves(ms, key, x, 0) else [])
      else if x.Array? then IndexedMoves(key, x, 0)
      else Under([key], Moves(x))
  {
    hide Moves, NamedMoves, IndexedMoves, IsObjectSchema;
  }

  lemma WrappedMoves(ms: Members, properties: Members)
    ensures NamedMoves(ms, "properties", Object(properties), 0) ==
      Under(["properties"], PlainNamed(Wrapped(ms, properties), 0))
  {
    hide IsOptional;
    NamedIsPlain(ms, "properties", Object(properties), Wrapped(ms, properties), 0);
  }

  lemma PlainMoves(ms: Members, key: string, x: Value)
    requires x.Object? && (key != "properties" || !IsObjectSchema(ms))
    ensures NamedMoves(ms, key, x, 0) == Under([key], PlainNamed(x.members, 0))
  {
    NamedIsPlain(ms, key, x, x.members, 0);
  }

  lemma KeyMovesIsVisit(ms: Members, key: string)
    requires Distinct(ms) && (key in MAP_KEYS || key in CHILD_KEYS)
    ensures KeyMoves(Object(ms), key) == VisitMoves(Own(ms), key)
  {
    LookupOwn(ms, key);
    PropertiesKey();
    KeysApart();
    assert Under([key], []) == [];
    assert Moves(Bool(false)) == [];
    hide Own, IsObjectSchema, PlainNamed, PlainIndexed, Moves, Wrapped, MAP_KEYS, CHILD_KEYS;
    if Keeps(ms, key) && Has(ms, key) {
      var x := ms[Find(ms, key)].1;
      KeptKeyMoves(ms, key, x);
      if key in MAP_KEYS && x.Object? {
        if key == "properties" && IsObjectSchema(ms) {
          WrappedMoves(ms, x.members);
        } else {
          PlainMoves(ms, key, x);
        }
      } else if key in CHILD_KEYS && x.Array? {
        IndexedIsPlain(key, x, 0);
      }
    }
  }

  lemma {:induction false} KeysMovesIsVisit(ms: Members, keys: seq<string>)
    requires Distinct(ms) && forall i :: 0 <= i < |keys| ==> keys[i] in MAP_KEYS || keys[i] in CHILD_KEYS
    ensures KeysMoves(Object(ms), keys) == VisitAllMoves(Own(ms), keys)
    decreases |keys|
  {
    if keys != [] {
      hide KeyMoves, VisitMoves, Own, MAP_KEYS, CHILD_KEYS;
      KeyMovesIsVisit(ms, keys[0]);
      KeysMovesIsVisit(ms, keys[1..]);
    }
  }

  /** Rewriting a schema and then visiting its subschemas records the moves. */
  lemma MovesAsVisited(ms: Members)
    requires Distinct(ms)
    ensures Moves(Object(ms)) == OwnMoves(OptionalNames(ms, Properties(ms)))
                               + VisitAllMoves(Own(ms), MAP_KEYS) + VisitAllMoves(Own(ms), CHILD_KEYS)
  {
    KeysMovesIsVisit(ms, MAP_KEYS);
    KeysMovesIsVisit(ms, CHILD_KEYS);
  }

  // ----- Recorded moves as pointer texts

  function Prefixed(path: string, moves: seq<Path>): seq<string> {
    seq(|moves|, i requires 0 <= i < |moves| => path + PointerText(moves[i]))
  }

  lemma PrefixedCat(path: string, a: seq<Path>, b: seq<Path>)
    ensures Prefixed(path, a + b) == Prefixed(path, a) + Prefixed(path, b)
  {
  }

  lemma PrefixedUnder(path: string, key: string, moves: seq<Path>)
    ensures Prefixed(ChildPath(path, key), moves) == Prefixed(path, Under([key], moves))
  {
    forall i | 0 <= i < |moves|
      ensures ChildPath(path, key) + PointerText(moves[i]) == path + PointerText([key] + moves[i])
    {
      ChildPathText(path, [], key);
      assert path + "" == path && [] + [key] == [key];
      PointerTextCat([key], moves[i]);
      Cat2(path, PointerText([key]), PointerText(moves[i]));
    }
  }

  // ----- A measure that wrapping a property does not raise above its schema

  function Max(a: nat, b: nat): nat {
    if a < b then b else a
  }

  function Weight(v: Value): nat
    decreases v, 1
  {
    match v
    case Object(ms) => 1 + MembersWeight(v, 0)
    case _ => 0
  }

  function MembersWeight(v: Value, i: nat): nat
    requires v.Object? && i <= |v.members|
    decreases v, 0, |v.members| - i
  {
    if i == |v.members| then 0
    else Max(MemberWeight(v.members[i].0, v.members[i].1), MembersWeight(v, i + 1))
  }

  function MemberWeight(key: string, x: Value): nat
    decreases x, 2
  {
    if key in MAP_KEYS && x.Object? then ChildrenWeight(x, 0) + if key == "properties" then 2 else 0
    else if key in CHILD_KEYS && x.Array? then ItemsWeight(x, 0)
    else if key in CHILD_KEYS then Weight(x)
    else 0
  }

  function ChildrenWeight(x: Value, i: nat): nat
    requires x.Object? && i <= |x.members|
    decreases x, 0, |x.members| - i
  {
    if i == |x.members| then 0 else Max(Weight(x.members[i].1), ChildrenWeight(x, i + 1))
  }

  function ItemsWeight(x: Value, i: nat): nat
    requires x.Array? && i <= |x.items|
    decreases x, 0, |x.items| - i
  {
    if i == |x.items| then 0 else Max(Weight(x.items[i]), ItemsWeight(x, i + 1))
  }

  lemma {:induction false} ChildLighter(x: Value, i: nat, j: nat)
    requires x.Object? && i <= j < |x.members|
    ensures Weight(x.members[j].1) <= ChildrenWeight(x, i)
    decreases j - i
  {
    if i < j {
      ChildLighter(x, i + 1, j);
    }
  }

  lemma {:induction false} ItemLighter(x: Value, i: nat, j: nat)
    requires x.Array? && i <= j < |x.items|
    ensures Weight(x.items[j]) <= ItemsWeight(x, i)
    decreases j - i
  {
    if i < j {
      ItemLighter(x, i + 1, j);
    }
  }

  lemma {:induction false} MemberLighter(v: Value, i: nat, j: nat)
    requires v.Object? && i <= j < |v.members|
    ensures MemberWeight(v.members[j].0, v.members[j].1) <= MembersWeight(v, i)
    decreases j - i
  {
    if i < j {
      MemberLighter(v, i + 1, j);
    }
  }

  lemma NullSchemaWeight()
    ensures Weight(NULL_SCHEMA) == 1
  {
    AnyOfIsChildKey();
    var v := NULL_SCHEMA;
    assert v.members[0].0 == "type";
    assert MemberWeight("type", v.members[0].1) == 0;
    assert MembersWeight(v, 1) == 0;
    assert MembersWeight(v, 0) == 0;
  }

  lemma NullableWeight(v: Value)
    ensures Weight(Nullable(v)) <= Weight(v) + 2
  {
    AnyOfIsChildKey();
    NullSchemaWeight();
    var w := Nullable(v);
    var x := w.members[0].1;
    hide NULL_SCHEMA;
    assert ItemsWeight(x, 2) == 0;
    assert ItemsWeight(x, 1) == 1;
    assert ItemsWeight(x, 0) == Max(Weight(v), 1);
    assert MembersWeight(w, 1) == 0;
    assert MembersWeight(w, 0) == MemberWeight("anyOf", x);
  }

  /** The subschemas a keyword holds all weigh less than `bound`. */
  predicate Lighter(key: string, x: Value, bound: nat) {
    if key in MAP_KEYS then
      x.Object? ==> forall i :: 0 <= i < |x.members| ==> Weight(x.members[i].1) < bound
    else if x.Array? then forall i :: 0 <= i < |x.items| ==> Weight(x.items[i]) < bound
    else Weight(x) < bound
  }

  lemma MemberIsLighter(ms: Members, key: string)
    requires Has(ms, key) && (key in MAP_KEYS || key in CHILD_KEYS)
    ensures Lighter(key, Lookup(ms, key).value, Weight(Object(ms)))
    ensures key == "properties" && Lookup(ms, key).value.Object? ==>
      forall i :: 0 <= i < |Lookup(ms, key).value.members| ==>
        Weight(Lookup(ms, key).value.members[i].1) + 2 < Weight(Object(ms))
  {
    var j := Find(ms, key);
    var x := ms[j].1;
    MemberLighter(Object(ms), 0, j);
    if key in MAP_KEYS && x.Object? {
      forall i | 0 <= i < |x.members|
        ensures Weight(x.members[i].1) <= ChildrenWeight(x, 0)
      {
        ChildLighter(x, 0, i);
      }
    } else if key in CHILD_KEYS && x.Array? {
      forall i | 0 <= i < |x.items|
        ensures Weight(x.items[i]) <= ItemsWeight(x, 0)
      {
        ItemLighter(x, 0, i);
      }
    }
  }

  /** After a schema's own rewriting its subschemas, wrappers included, still weigh less than
      the schema did. */
  lemma WrappedIsLighter(ms: Members)
    requires HasProperties(ms)
    ensures forall i :: 0 <= i < |Properties(ms)| ==> Weight(Wrapped(ms, Properties(ms))[i].1) < Weight(Object(ms))
  {
    PropertiesKey();
    MemberIsLighter(ms, "properties");
    hide Weight, Nullable, IsObjectSchema;
    var ps := Properties(ms);
    forall i | 0 <= i < |ps|
      ensures Weight(Wrapped(ms, ps)[i].1) < Weight(Object(ms))
    {
      NullableWeight(ps[i].1);
    }
  }

  lemma OwnIsLighter(ms: Members, key: string)
    requires Distinct(ms) && (key in MAP_KEYS || key in CHILD_KEYS) && Has(Own(ms), key)
    ensures Lighter(key, Lookup(Own(ms), key).value, Weight(Object(ms)))
  {
    LookupOwn(ms, key);
    PropertiesKey();
    assert Weight(Bool(false)) == 0 < Weight(Object(ms));
    assert Has(Own(ms), key) <==> Lookup(Own(ms), key).Some?;
    hide Own, IsObjectSchema, Weight, MAP_KEYS, CHILD_KEYS, Wrapped;
    if key == "properties" && HasProperties(ms) {
      WrappedIsLighter(ms);
    }
    if Has(ms, key) {
      MemberIsLighter(ms, key);
    }
  }
}

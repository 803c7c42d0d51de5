/** The strict transform as the source performs it: moves are pushed to a growing list as the
    tree is rewritten, and references are repaired against that list afterwards. */
module StrictTransform {
  import opened Options
  import opened Sequences
  import opened JsonValues
  import opened JsonPointers
  import opened StrictSchema
  import opened StrictProofs
  import opened StrictForm
  import opened StrictRewrite
  import opened LocalReferences
  import opened UriFragments
  import opened StrictValidation

  // ----- One schema

  lemma KeptKind(ms: Members, kept: Members)
    requires Distinct(ms) && kept == SwapRemove(ms, "propertyNames")
    ensures IsObjectSchema(kept) == IsObjectSchema(ms) && Required(kept) == Required(ms)
    ensures Lookup(kept, "properties") == Lookup(ms, "properties")
  {
    LookupSwapRemove(ms, "propertyNames", "type");
    LookupSwapRemove(ms, "propertyNames", "properties");
    LookupSwapRemove(ms, "propertyNames", "required");
  }

  lemma OwnMovesFirst(name: string, names: seq<string>)
    ensures OwnMoves([name] + names) == [["properties", name]] + OwnMoves(names)
  {
  }

  lemma PropertyPath(path: string, name: string)
    ensures ChildPath(ChildPath(path, "properties"), name) == path + PointerText(["properties", name])
  {
    assert path + "" == path && [] + ["properties"] == ["properties"];
    assert ["properties"] + [name] == ["properties", name];
    ChildPathText(path, [], "properties");
    ChildPathText(path, ["properties"], name);
  }

  /** The moves that the properties from `i` on still record. */
  function OwnRest(ms: Members, properties: Members, i: nat, path: string): seq<string>
    requires i <= |properties|
  {
    Prefixed(path, OwnMoves(OptionalNames(ms, properties[i..])))
  }

  lemma OwnRestStep(ms: Members, properties: Members, i: nat, path: string)
    requires i < |properties|
    ensures OwnRest(ms, properties, i, path) ==
      (if IsOptional(ms, properties[i].0) then [ChildPath(ChildPath(path, "properties"), properties[i].0)] else [])
      + OwnRest(ms, properties, i + 1, path)
  {
    var name := properties[i].0;
    var rest := OptionalNames(ms, properties[i + 1..]);
    assert properties[i..][1..] == properties[i + 1..];
    hide IsOptional, ChildPath, PointerText;
    if IsOptional(ms, name) {
      OwnMovesFirst(name, rest);
      PrefixedCat(path, [["properties", name]], OwnMoves(rest));
      PropertyPath(path, name);
      assert Prefixed(path, [["properties", name]]) == [ChildPath(ChildPath(path, "properties"), name)];
    } else {
      assert OptionalNames(ms, properties[i..]) == [] + rest;
    }
  }

  function WrappedTo(ms: Members, properties: Members, n: nat): Members
    requires n <= |properties|
  {
    seq(|properties|, i requires 0 <= i < |properties| =>
      (properties[i].0,
       if i < n && IsOptional(ms, properties[i].0) then Nullable(properties[i].1) else properties[i].1))
  }

  lemma OptionalIs(ms: Members, name: string)
    ensures IsOptional(ms, name) <==> IsObjectSchema(ms) && name !in Required(ms)
  {
  }

  lemma NothingLeftToWrap(ms: Members, properties: Members, path: string)
    ensures OwnRest(ms, properties, |properties|, path) == []
    ensures WrappedTo(ms, properties, |properties|) == Wrapped(ms, properties)
  {
    assert properties[|properties|..] == [];
  }

  /** Wraps the optional properties, from the first to the last. */
  method WrapOptional(ms: Members, properties: Members, required: seq<string>, path: string, moves: seq<string>)
      returns (wrapped: Members, out: seq<string>)
    requires IsObjectSchema(ms) && required == Required(ms)
    ensures wrapped == Wrapped(ms, properties)
    ensures out == moves + OwnRest(ms, properties, 0, path)
  {
    wrapped, out := properties, moves;
    hide IsOptional, OwnRest, ChildPath, Nullable;
    for i := 0 to |properties|
      invariant wrapped == WrappedTo(ms, properties, i)
      invariant out + OwnRest(ms, properties, i, path) == moves + OwnRest(ms, properties, 0, path)
    {
      var (name, property) := properties[i];
      OwnRestStep(ms, properties, i, path);
      OptionalIs(ms, name);
      if name !in required {
        var pointer := ChildPath(ChildPath(path, "properties"), name);
        Cat2(out, [pointer], OwnRest(ms, properties, i + 1, path));
        out := out + [pointer];
        wrapped := wrapped[i := (name, Nullable(property))];
      } else {
        assert [] + OwnRest(ms, properties, i + 1, path) == OwnRest(ms, properties, i + 1, path);
      }
      assert wrapped == WrappedTo(ms, properties, i + 1);
    }
    NothingLeftToWrap(ms, properties, path);
    assert out + [] == out;
  }

  /** The part of the rewrite that concerns one schema: `propertyNames` goes, optional
      properties become nullable, everything is required and nothing else is allowed. */
  method RewriteOwn(ms: Members, path: string, moves: seq<string>) returns (obj: Members, out: seq<string>)
    requires Distinct(ms)
    ensures obj == Own(ms)
    ensures out == moves + Prefixed(path, OwnMoves(OptionalNames(ms, Properties(ms))))
  {
    obj, out := SwapRemove(ms, "propertyNames"), moves;
    KeptKind(ms, obj);
    hide Wrapped, SwapRemove;
    if IsObjectSchema(obj) {
      var required := Required(obj);
      match Lookup(obj, "properties") {
        case Some(Object(properties)) =>
          var names := Names(properties);
          var wrapped;
          wrapped, out := WrapOptional(ms, properties, required, path, out);
          assert properties[0..] == properties;
          obj := Insert(obj, "properties", Object(wrapped));
          obj := Insert(obj, "required", Array(names));
        case _ =>
      }
      obj := Insert(obj, "additionalProperties", Bool(false));
    } else {
      NothingToWrap(ms, Properties(ms));
    }
    assert moves + [] == moves;
  }

  lemma {:induction false} NothingToWrap(ms: Members, properties: Members)
    requires !IsObjectSchema(ms)
    ensures OptionalNames(ms, properties) == []
  {
    if properties != [] {
      NothingToWrap(ms, properties[1..]);
    }
  }

  // ----- Its subschemas

  function ChildrenStrict(children: Members, n: nat): Members
    requires n <= |children|
  {
    seq(|children|, i requires 0 <= i < |children| =>
      (children[i].0, if i < n then Strict(children[i].1) else children[i].1))
  }

  function ItemsStrict(items: seq<Value>, n: nat): seq<Value>
    requires n <= |items|
  {
    seq(|items|, i requires 0 <= i < |items| => if i < n then Strict(items[i]) else items[i])
  }

  lemma ArrayStays(v: Value)
    requires v.Array?
    ensures Strict(v) == v && Moves(v) == []
  {
  }

  lemma PrefixedNone(path: string, key: string)
    ensures Prefixed(path, Under([key], [])) == []
  {
  }

  lemma PlainNamedFirst(children: Members, i: nat, parent: string)
    requires i < |children|
    ensures Prefixed(parent, PlainNamed(children, i))
         == Prefixed(ChildPath(parent, children[i].0), Moves(children[i].1))
          + Prefixed(parent, PlainNamed(children, i + 1))
  {
    hide ChildPath, PointerText, Moves;
    PrefixedCat(parent, Under([children[i].0], Moves(children[i].1)), PlainNamed(children, i + 1));
    PrefixedUnder(parent, children[i].0, Moves(children[i].1));
  }

  lemma PlainIndexedFirst(items: seq<Value>, i: nat, parent: string)
    requires i < |items|
    ensures Prefixed(parent, PlainIndexed(items, i))
         == Prefixed(ChildPath(parent, Decimal(i)), Moves(items[i])) + Prefixed(parent, PlainIndexed(items, i + 1))
  {
    hide ChildPath, PointerText, Moves, Decimal;
    PrefixedCat(parent, Under([Decimal(i)], Moves(items[i])), PlainIndexed(items, i + 1));
    PrefixedUnder(parent, Decimal(i), Moves(items[i]));
  }

  method VisitNamed(children: Members, parent: string, moves: seq<string>, ghost bound: nat)
      returns (r: Members, out: seq<string>)
    requires forall i :: 0 <= i < |children| ==> WellFormed(children[i].1) && Weight(children[i].1) < bound
    ensures r == ChildrenStrict(children, |children|)
    ensures out == moves + Prefixed(parent, PlainNamed(children, 0))
    decreases bound, 0
  {
    hide Weight, WellFormed, Moves, Strict, PlainNamed, ChildPath;
    r, out := children, moves;
    for i := 0 to |children|
      invariant r == ChildrenStrict(children, i)
      invariant out + Prefixed(parent, PlainNamed(children, i)) == moves + Prefixed(parent, PlainNamed(children, 0))
    {
      var (name, child) := children[i];
      PlainNamedFirst(children, i, parent);
      ghost var before, rest := out, Prefixed(parent, PlainNamed(children, i + 1));
      ghost var now := Prefixed(ChildPath(parent, name), Moves(child));
      if !child.Array? {
        var c;
        c, out := RewriteOpenAiStrict(child, ChildPath(parent, name), out);
        r := r[i := (name, c)];
      } else {
        ArrayStays(child);
        assert out + now == out;
      }
      Cat2(before, now, rest);
      assert r == ChildrenStrict(children, i + 1);
    }
    NoMoreNamed(children, parent);
    assert out + [] == out;
  }

  lemma NoMoreNamed(children: Members, parent: string)
    ensures Prefixed(parent, PlainNamed(children, |children|)) == []
  {
  }

  lemma NoMoreIndexed(items: seq<Value>, parent: string)
    ensures Prefixed(parent, PlainIndexed(items, |items|)) == []
  {
  }

  method VisitIndexed(items: seq<Value>, parent: string, moves: seq<string>, ghost bound: nat)
      returns (r: seq<Value>, out: seq<string>)
    requires forall i :: 0 <= i < |items| ==> WellFormed(items[i]) && Weight(items[i]) < bound
    ensures r == ItemsStrict(items, |items|)
    ensures out == moves + Prefixed(parent, PlainIndexed(items, 0))
    decreases bound, 0
  {
    hide Weight, WellFormed, Moves, Strict, PlainIndexed, ChildPath, Decimal;
    r, out := items, moves;
    for i := 0 to |items|
      invariant r == ItemsStrict(items, i)
      invariant out + Prefixed(parent, PlainIndexed(items, i)) == moves + Prefixed(parent, PlainIndexed(items, 0))
    {
      PlainIndexedFirst(items, i, parent);
      ghost var before, rest := out, Prefixed(parent, PlainIndexed(items, i + 1));
      var c;
      c, out := RewriteOpenAiStrict(items[i], ChildPath(parent, Decimal(i)), out);
      Cat2(before, Prefixed(ChildPath(parent, Decimal(i)), Moves(items[i])), rest);
      r := r[i := c];
      assert r == ItemsStrict(items, i + 1);
    }
    NoMoreIndexed(items, parent);
    assert out + [] == out;
  }

  /** What visiting one keyword needs of its value. */
  ghost predicate Visitable(ms: Members, key: string, bound: nat) {
    Has(ms, key) ==> WellFormed(Lookup(ms, key).value) && Lighter(key, Lookup(ms, key).value, bound)
  }

  lemma VisitStep(ms: Members, keys: seq<string>, key: string)
    requires Distinct(ms) && key !in keys
    ensures Lookup(Visit(ms, keys), key) == Lookup(ms, key)
    ensures Visit(ms, keys + [key]) ==
      if Has(ms, key) then Insert(Visit(ms, keys), key, VisitMember(key, Lookup(ms, key).value)) else Visit(ms, keys)
  {
    hide VisitMember;
    LookupMapped(ms, Visit(ms, keys), key);
    forall i | 0 <= i < |ms| && ms[i].0 == key
      ensures i == Find(ms, key)
    {
      FindAt(ms, i);
    }
  }

  lemma VisitMapMember(key: string, x: Value)
    requires key in MAP_KEYS
    ensures VisitMember(key, x) == if x.Object? then Object(ChildrenStrict(x.members, |x.members|)) else x
  {
    if x.Object? {
      assert VisitMember(key, x).members == ChildrenStrict(x.members, |x.members|);
    }
  }

  lemma VisitChildMember(key: string, x: Value)
    requires key in CHILD_KEYS && key !in MAP_KEYS
    ensures VisitMember(key, x) == if x.Array? then Array(ItemsStrict(x.items, |x.items|)) else Strict(x)
  {
    if x.Array? {
      assert VisitMember(key, x).items == ItemsStrict(x.items, |x.items|);
    }
  }

  lemma MapMoves(ms: Members, key: string, path: string)
    requires key in MAP_KEYS
    ensures Prefixed(path, VisitMoves(ms, key)) ==
      match Lookup(ms, key)
      case Some(Object(children)) => Prefixed(ChildPath(path, key), PlainNamed(children, 0))
      case _ => []
  {
    PrefixedNone(path, key);
    match Lookup(ms, key)
    case Some(Object(children)) => PrefixedUnder(path, key, PlainNamed(children, 0));
    case _ =>
  }

  lemma ChildMoves(ms: Members, key: string, path: string)
    requires key in CHILD_KEYS && key !in MAP_KEYS
    ensures Prefixed(path, VisitMoves(ms, key)) ==
      match Lookup(ms, key)
      case Some(Array(items)) => Prefixed(ChildPath(path, key), PlainIndexed(items, 0))
      case Some(x) => Prefixed(ChildPath(path, key), Moves(x))
      case None => []
  {
    match Lookup(ms, key)
    case Some(Array(items)) => PrefixedUnder(path, key, PlainIndexed(items, 0));
    case Some(x) => PrefixedUnder(path, key, Moves(x));
    case None => PrefixedNone(path, key);
  }

  /** The moves that the keywords from `i` on still record. */
  function KeysRest(ms: Members, keys: seq<string>, i: nat, path: string): seq<string>
    requires i <= |keys|
  {
    Prefixed(path, VisitAllMoves(ms, keys[i..]))
  }

  lemma KeysRestStep(ms: Members, keys: seq<string>, i: nat, path: string)
    requires i < |keys|
    ensures KeysRest(ms, keys, i, path) == Prefixed(path, VisitMoves(ms, keys[i])) + KeysRest(ms, keys, i + 1, path)
  {
    hide VisitMoves, PointerText;
    assert keys[i..][1..] == keys[i + 1..];
    PrefixedCat(path, VisitMoves(ms, keys[i]), VisitAllMoves(ms, keys[i + 1..]));
  }

  lemma KeysRestDone(ms: Members, keys: seq<string>, path: string)
    ensures KeysRest(ms, keys, |keys|, path) == [] && keys[..|keys|] == keys && keys[..0] == []
    ensures KeysRest(ms, keys, 0, path) == Prefixed(path, VisitAllMoves(ms, keys))
  {
    assert keys[0..] == keys;
  }

  method VisitMap(obj: Members, key: string, path: string, moves: seq<string>, ghost bound: nat)
      returns (r: Members, out: seq<string>)
    requires key in MAP_KEYS && Visitable(obj, key, bound)
    ensures r == if Has(obj, key) then Insert(obj, key, VisitMember(key, Lookup(obj, key).value)) else obj
    ensures out == moves + Prefixed(path, VisitMoves(obj, key))
    decreases bound, 1
  {
    MapMoves(obj, key, path);
    hide Weight, Moves, Strict, PlainNamed, ChildPath, VisitMoves, MAP_KEYS, VisitMember, ChildrenStrict;
    r, out := obj, moves;
    match Lookup(obj, key) {
      case Some(Object(children)) =>
        VisitMapMember(key, Object(children));
        var c;
        c, out := VisitNamed(children, ChildPath(path, key), out, bound);
        r := Insert(obj, key, Object(c));
      case Some(x) =>
        VisitMapMember(key, x);
        InsertSame(obj, key, x);
        assert moves + [] == moves;
      case None =>
        assert moves + [] == moves;
    }
  }

  method VisitChild(obj: Members, key: string, path: string, moves: seq<string>, ghost bound: nat)
      returns (r: Members, out: seq<string>)
    requires key in CHILD_KEYS && key !in MAP_KEYS && Visitable(obj, key, bound)
    ensures r == if Has(obj, key) then Insert(obj, key, VisitMember(key, Lookup(obj, key).value)) else obj
    ensures out == moves + Prefixed(path, VisitMoves(obj, key))
    decreases bound, 1
  {
    ChildMoves(obj, key, path);
    hide Weight, Moves, Strict, PlainIndexed, ChildPath, VisitMoves, CHILD_KEYS, MAP_KEYS, VisitMember, ItemsStrict;
    r, out := obj, moves;
    match Lookup(obj, key) {
      case Some(Array(items)) =>
        VisitChildMember(key, Array(items));
        var c;
        c, out := VisitIndexed(items, ChildPath(path, key), out, bound);
        r := Insert(obj, key, Array(c));
      case Some(x) =>
        VisitChildMember(key, x);
        var c;
        c, out := RewriteOpenAiStrict(x, ChildPath(path, key), out);
        r := Insert(obj, key, c);
      case None =>
        assert moves + [] == moves;
    }
  }

  lemma SameVisitMoves(a: Members, b: Members, key: string)
    requires Lookup(a, key) == Lookup(b, key)
    ensures VisitMoves(a, key) == VisitMoves(b, key)
    ensures Has(a, key) <==> Has(b, key)
  {
  }

  lemma FreshKey(keys: seq<string>, i: nat, before: seq<string>)
    requires i < |keys| && forall a, b :: 0 <= a < b < |keys| ==> keys[a] != keys[b]
    requires forall j :: 0 <= j < |keys| ==> keys[j] !in before
    ensures keys[i] !in before + keys[..i]
    ensures before + keys[..i + 1] == before + keys[..i] + [keys[i]]
  {
    assert keys[..i + 1] == keys[..i] + [keys[i]];
    Cat2(before, keys[..i], [keys[i]]);
  }

  /** One keyword more. */
  lemma VisitNext(ms: Members, before: seq<string>, keys: seq<string>, i: nat, path: string, out: seq<string>,
      bound: nat)
    requires Distinct(ms) && i < |keys| && forall a, b :: 0 <= a < b < |keys| ==> keys[a] != keys[b]
    requires forall j :: 0 <= j < |keys| ==> keys[j] !in before
    requires Visitable(ms, keys[i], bound)
    ensures var obj, key := Visit(ms, before + keys[..i]), keys[i];
      && Visitable(obj, key, bound)
      && Visit(ms, before + keys[..i + 1])
         == (if Has(obj, key) then Insert(obj, key, VisitMember(key, Lookup(obj, key).value)) else obj)
      && out + KeysRest(ms, keys, i, path)
         == (out + Prefixed(path, VisitMoves(obj, key))) + KeysRest(ms, keys, i + 1, path)
  {
    var obj, key := Visit(ms, before + keys[..i]), keys[i];
    FreshKey(keys, i, before);
    hide Visit, VisitMoves, VisitMember, KeysRest, Prefixed, Insert;
    VisitStep(ms, before + keys[..i], key);
    SameVisitMoves(ms, obj, key);
    KeysRestStep(ms, keys, i, path);
    Cat2(out, Prefixed(path, VisitMoves(ms, key)), KeysRest(ms, keys, i + 1, path));
    assert Has(obj, key) <==> Lookup(obj, key).Some?;
    assert Has(ms, key) <==> Lookup(ms, key).Some?;
  }

  lemma KeysRestAll(ms: Members, keys: seq<string>, path: string)
    ensures KeysRest(ms, keys, 0, path) == Prefixed(path, VisitAllMoves(ms, keys))
    ensures KeysRest(ms, keys, |keys|, path) == []
  {
    KeysRestDone(ms, keys, path);
    assert keys[0..] == keys;
  }

  lemma NothingMore(out: seq<string>)
    ensures out + [] == out
  {
  }

  /** Visits the subschemas: first those in maps of named schemas, then the others. */
  method VisitChildren(ms: Members, path: string, moves: seq<string>, ghost bound: nat)
      returns (obj: Members, out: seq<string>)
    requires Distinct(ms)
    requires forall i :: 0 <= i < |MAP_KEYS| ==> Visitable(ms, MAP_KEYS[i], bound)
    requires forall i :: 0 <= i < |CHILD_KEYS| ==> Visitable(ms, CHILD_KEYS[i], bound)
    ensures obj == Visit(ms, ALL_KEYS)
    ensures out == moves + Prefixed(path, VisitAllMoves(ms, MAP_KEYS)) + Prefixed(path, VisitAllMoves(ms, CHILD_KEYS))
    decreases bound, 2
  {
    KeysApart();
    AllKeysAre();
    hide *;
    obj, out := ms, moves;
    VisitNothing(ms);
    KeysRestAll(ms, MAP_KEYS, path);
    KeysRestAll(ms, CHILD_KEYS, path);
    TakeEnds([], MAP_KEYS);
    TakeEnds(MAP_KEYS, CHILD_KEYS);
    for i := 0 to |MAP_KEYS|
      invariant obj == Visit(ms, [] + MAP_KEYS[..i])
      invariant out + KeysRest(ms, MAP_KEYS, i, path) == moves + KeysRest(ms, MAP_KEYS, 0, path)
    {
      VisitNext(ms, [], MAP_KEYS, i, path, out, bound);
      obj, out := VisitMap(obj, MAP_KEYS[i], path, out, bound);
    }
    NothingMore(out);
    ghost var middle := out;
    for i := 0 to |CHILD_KEYS|
      invariant obj == Visit(ms, MAP_KEYS + CHILD_KEYS[..i])
      invariant out + KeysRest(ms, CHILD_KEYS, i, path) == middle + KeysRest(ms, CHILD_KEYS, 0, path)
    {
      VisitNext(ms, MAP_KEYS, CHILD_KEYS, i, path, out, bound);
      obj, out := VisitChild(obj, CHILD_KEYS[i], path, out, bound);
    }
    NothingMore(out);
  }

  lemma AllKeysAre()
    ensures ALL_KEYS == MAP_KEYS + CHILD_KEYS && [] + MAP_KEYS == MAP_KEYS
  {
  }

  lemma VisitNothing(ms: Members)
    ensures Visit(ms, []) == ms
  {
  }

  lemma LookupWellFormed(ms: Members, key: string)
    requires WellFormed(Object(ms)) && Has(ms, key)
    ensures WellFormed(Lookup(ms, key).value)
  {
  }

  lemma WrappedWellFormed(ms: Members, properties: Members)
    requires WellFormed(Object(properties))
    ensures WellFormed(Object(Wrapped(ms, properties)))
  {
    hide IsOptional;
    forall i | 0 <= i < |properties|
      ensures WellFormed(Wrapped(ms, properties)[i].1)
    {
      NullableWellFormed(properties[i].1);
    }
  }

  lemma OwnVisitable(ms: Members, key: string)
    requires WellFormed(Object(ms)) && (key in MAP_KEYS || key in CHILD_KEYS)
    ensures Visitable(Own(ms), key, Weight(Object(ms)))
  {
    LookupOwn(ms, key);
    PropertiesKey();
    hide Own, Wrapped, IsObjectSchema, Lighter, MAP_KEYS, CHILD_KEYS;
    if Has(Own(ms), key) {
      OwnIsLighter(ms, key);
      if Has(ms, key) {
        LookupWellFormed(ms, key);
      }
      if HasProperties(ms) {
        LookupWellFormed(ms, "properties");
        WrappedWellFormed(ms, Properties(ms));
      }
    }
  }

  /** Rewrites a schema and its subschemas, recording where subschemas moved. */
  method RewriteOpenAiStrict(schema: Value, path: string, moves: seq<string>) returns (r: Value, out: seq<string>)
    requires WellFormed(schema)
    ensures r == Strict(schema)
    ensures out == moves + Prefixed(path, Moves(schema))
    decreases Weight(schema), 3
  {
    if !schema.Object? {
      assert moves + [] == moves;
      return schema, moves;
    }
    var ms := schema.members;
    hide Own, Weight, Visit, Visitable, Strict, Moves;
    ghost var own := OwnMoves(OptionalNames(ms, Properties(ms)));
    ghost var named, others := VisitAllMoves(Own(ms), MAP_KEYS), VisitAllMoves(Own(ms), CHILD_KEYS);
    forall key | key in MAP_KEYS || key in CHILD_KEYS
      ensures Visitable(Own(ms), key, Weight(schema))
    {
      OwnVisitable(ms, key);
    }
    LookupOwn(ms, "type");
    OwnThenVisit(ms);
    MovesAsVisited(ms);
    PrefixedCat(path, own, named);
    PrefixedCat(path, own + named, others);
    var obj;
    obj, out := RewriteOwn(ms, path, moves);
    Cat2(moves, Prefixed(path, own), Prefixed(path, named));
    Cat2(moves, Prefixed(path, own) + Prefixed(path, named), Prefixed(path, others));
    obj, out := VisitChildren(obj, path, out, Weight(schema));
    r := Object(obj);
  }

  // ----- References

  /** Undoes the moves, the last one first. */
  method RestoreAll(path: string, moves: seq<string>) returns (original: string)
    ensures original == RestoreTexts(path, moves)
  {
    hide RelocateText;
    original := path;
    assert moves[..|moves|] == moves;
    for i := |moves| downto 0
      invariant RestoreTexts(original, moves[..i]) == RestoreTexts(path, moves)
    {
      assert moves[..i + 1][..i] == moves[..i];
      original := RelocateText(original, moves[i] + "/anyOf/0", moves[i]);
    }
  }

  /** Applies the moves in the order they were made. */
  method RelocateEach(path: string, moves: seq<string>) returns (target: string)
    ensures target == RelocateTexts(path, moves)
  {
    hide RelocateText;
    target := path;
    for i := 0 to |moves|
      invariant RelocateTexts(target, moves[i..]) == RelocateTexts(path, moves)
    {
      assert moves[i..][1..] == moves[i + 1..];
      target := RelocateText(target, moves[i], moves[i] + "/anyOf/0");
    }
  }

  /** Moves one reference, given the path of its resource in the rewritten tree. */
  method MoveReference(reference: string, resource: Option<string>, moves: seq<string>) returns (r: string)
    ensures r == RewriteReference(reference, resource, moves)
  {
    r := reference;
    var at := HashIndex(reference);
    if at == |reference| || resource.None? {
      return;
    }
    var decoded := DecodeFragment(reference[at + 1..]);
    if decoded.None? || !AtBoundary(decoded.value) {
      return;
    }
    hide Decode, Encode, RelocateTexts, RestoreTexts;
    var pointer := decoded.value;
    var original := RestoreAll(resource.value, moves);
    var target := RelocateEach(original + pointer, moves);
    if Below(target, resource.value) && target[|resource.value|..] != pointer {
      var encoded := EncodeFragment(target[|resource.value|..]);
      r := reference[..at] + ("#" + encoded);
    }
  }

  function VisitRefs(ms: Members, keys: seq<string>, moves: seq<string>): Members {
    seq(|ms|, i requires 0 <= i < |ms| =>
      (ms[i].0, if ms[i].0 in keys then RefMember(ms[i].0, ms[i].1, moves) else ms[i].1))
  }

  lemma VisitRefsStep(ms: Members, keys: seq<string>, key: string, moves: seq<string>)
    requires Distinct(ms) && key !in keys
    ensures Lookup(VisitRefs(ms, keys, moves), key) == Lookup(ms, key)
    ensures Find(VisitRefs(ms, keys, moves), key) == Find(ms, key)
    ensures VisitRefs(ms, keys + [key], moves) ==
      if Has(ms, key) then Insert(VisitRefs(ms, keys, moves), key, RefMember(key, Lookup(ms, key).value, moves))
      else VisitRefs(ms, keys, moves)
  {
    hide RefMember;
    LookupMapped(ms, VisitRefs(ms, keys, moves), key);
    forall i | 0 <= i < |ms| && ms[i].0 == key
      ensures i == Find(ms, key)
    {
      FindAt(ms, i);
    }
  }

  lemma VisitAllRefs(ms: Members, moves: seq<string>)
    ensures VisitRefs(ms, [], moves) == ms
    ensures VisitRefs(ms, REF_KEYS + MAP_KEYS + CHILD_KEYS, moves) == RewriteRefs(Object(ms), moves).members
  {
    var visited := VisitRefs(ms, REF_KEYS + MAP_KEYS + CHILD_KEYS, moves);
    var rewritten := RewriteRefs(Object(ms), moves).members;
    hide REF_KEYS, MAP_KEYS, CHILD_KEYS;
    forall i | 0 <= i < |ms|
      ensures visited[i] == rewritten[i]
    {
      if ms[i].0 !in REF_KEYS + MAP_KEYS + CHILD_KEYS {
        assert RefMember(ms[i].0, ms[i].1, moves) == ms[i].1;
      }
    }
  }

  function RefsTo(children: Members, n: nat, moves: seq<string>): Members
    requires n <= |children|
  {
    seq(|children|, i requires 0 <= i < |children| =>
      (children[i].0, if i < n then RewriteRefs(children[i].1, moves) else children[i].1))
  }

  function ItemRefsTo(items: seq<Value>, n: nat, moves: seq<string>): seq<Value>
    requires n <= |items|
  {
    seq(|items|, i requires 0 <= i < |items| => if i < n then RewriteRefs(items[i], moves) else items[i])
  }

  method NamedReferences(x: Value, moves: seq<string>) returns (r: Members)
    requires x.Object? && WellFormed(x)
    ensures r == RefsTo(x.members, |x.members|, moves)
    decreases x, 0
  {
    hide RewriteRefs;
    r := x.members;
    for i := 0 to |x.members|
      invariant r == RefsTo(x.members, i, moves)
    {
      var (name, child) := x.members[i];
      if !child.Array? {
        var c := RewriteReferences(child, moves);
        r := r[i := (name, c)];
      } else {
        ArrayRefsStay(child, moves);
      }
      assert r == RefsTo(x.members, i + 1, moves);
    }
  }

  lemma ArrayRefsStay(v: Value, moves: seq<string>)
    requires v.Array?
    ensures RewriteRefs(v, moves) == v
  {
  }

  method IndexedReferences(x: Value, moves: seq<string>) returns (r: seq<Value>)
    requires x.Array? && WellFormed(x)
    ensures r == ItemRefsTo(x.items, |x.items|, moves)
    decreases x, 0
  {
    hide RewriteRefs;
    r := x.items;
    for i := 0 to |x.items|
      invariant r == ItemRefsTo(x.items, i, moves)
    {
      var c := RewriteReferences(x.items[i], moves);
      r := r[i := c];
      assert r == ItemRefsTo(x.items, i + 1, moves);
    }
  }

  lemma NoReference(key: string, x: Value, moves: seq<string>)
    requires key in REF_KEYS && !x.String?
    ensures RefMember(key, x, moves) == x
  {
    RefKeysApart();
  }

  lemma MapRefs(key: string, x: Value, moves: seq<string>)
    requires key in MAP_KEYS && key !in REF_KEYS
    ensures RefMember(key, x, moves) == if x.Object? then Object(RefsTo(x.members, |x.members|, moves)) else x
  {
    hide RewriteReference;
    if x.Object? {
      assert RefMember(key, x, moves).members == RefsTo(x.members, |x.members|, moves);
    }
  }

  lemma ChildRefs(key: string, x: Value, moves: seq<string>)
    requires key in CHILD_KEYS && key !in MAP_KEYS && key !in REF_KEYS
    ensures RefMember(key, x, moves) ==
      if x.Array? then Array(ItemRefsTo(x.items, |x.items|, moves)) else RewriteRefs(x, moves)
  {
    hide RewriteReference;
    if x.Array? {
      assert RefMember(key, x, moves).items == ItemRefsTo(x.items, |x.items|, moves);
    }
  }

  lemma AllKeysApart()
    ensures forall i, j :: 0 <= i < j < |REF_KEYS| ==> REF_KEYS[i] != REF_KEYS[j]
    ensures forall i :: 0 <= i < |MAP_KEYS| ==> MAP_KEYS[i] !in REF_KEYS
    ensures forall i :: 0 <= i < |CHILD_KEYS| ==> CHILD_KEYS[i] !in MAP_KEYS && CHILD_KEYS[i] !in REF_KEYS
    ensures forall i :: 0 <= i < |CHILD_KEYS| ==> CHILD_KEYS[i] !in REF_KEYS + MAP_KEYS
  {
    KeysApart();
    RefKeysApart();
  }

  /** Repairs every reference of a rewritten schema. */
  method RewriteReferences(schema: Value, moves: seq<string>) returns (r: Value)
    requires WellFormed(schema)
    ensures r == RewriteRefs(schema, moves)
    decreases schema, 1
  {
    if !schema.Object? {
      return schema;
    }
    var ms := schema.members;
    var obj := ms;
    hide RewriteRefs, VisitRefs, RefMember, REF_KEYS, MAP_KEYS, CHILD_KEYS, RewriteReference;
    VisitAllRefs(ms, moves);
    AllKeysApart();
    KeysApart();
    for k := 0 to |REF_KEYS|
      invariant obj == VisitRefs(ms, [] + REF_KEYS[..k], moves)
    {
      var key := REF_KEYS[k];
      FreshKey(REF_KEYS, k, []);
      VisitRefsStep(ms, [] + REF_KEYS[..k], key, moves);
      var i := Find(obj, key);
      if i < |obj| {
        var x := obj[i].1;
        if x.String? {
          var moved := MoveReference(x.s, DocumentResource(x.s), moves);
          StringReference(key, x, moves);
          obj := Insert(obj, key, String(moved));
        } else {
          NoReference(key, x, moves);
          InsertSame(obj, key, x);
        }
      }
    }
    assert [] + REF_KEYS[..|REF_KEYS|] == REF_KEYS + MAP_KEYS[..0];
    for k := 0 to |MAP_KEYS|
      invariant obj == VisitRefs(ms, REF_KEYS + MAP_KEYS[..k], moves)
    {
      var key := MAP_KEYS[k];
      FreshKey(MAP_KEYS, k, REF_KEYS);
      VisitRefsStep(ms, REF_KEYS + MAP_KEYS[..k], key, moves);
      var i := Find(obj, key);
      if i < |obj| {
        var x := ms[i].1;
        MapRefs(key, x, moves);
        if x.Object? {
          var children := NamedReferences(x, moves);
          obj := Insert(obj, key, Object(children));
        } else {
          InsertSame(obj, key, x);
        }
      }
    }
    assert REF_KEYS + MAP_KEYS[..|MAP_KEYS|] == (REF_KEYS + MAP_KEYS) + CHILD_KEYS[..0];
    for k := 0 to |CHILD_KEYS|
      invariant obj == VisitRefs(ms, REF_KEYS + MAP_KEYS + CHILD_KEYS[..k], moves)
    {
      var key := CHILD_KEYS[k];
      FreshKey(CHILD_KEYS, k, REF_KEYS + MAP_KEYS);
      VisitRefsStep(ms, REF_KEYS + MAP_KEYS + CHILD_KEYS[..k], key, moves);
      var i := Find(obj, key);
      if i < |obj| {
        var x := ms[i].1;
        ChildRefs(key, x, moves);
        if x.Array? {
          var items := IndexedReferences(x, moves);
          obj := Insert(obj, key, Array(items));
        } else {
          var c := RewriteReferences(x, moves);
          obj := Insert(obj, key, c);
        }
      }
    }
    assert CHILD_KEYS[..|CHILD_KEYS|] == CHILD_KEYS;
    r := Object(obj);
    RefsKeepShape(schema, moves);
  }

  lemma StringReference(key: string, x: Value, moves: seq<string>)
    requires key in REF_KEYS && x.String?
    ensures RefMember(key, x, moves) == String(RewriteReference(x.s, DocumentResource(x.s), moves))
  {
  }

  // ----- The transform

  lemma UnmovedReference(reference: string, resource: Option<string>)
    ensures RewriteReference(reference, resource, []) == reference
  {
    match (PointerOf(reference), resource)
    case (Some(pointer), Some(path)) =>
      assert (path + pointer)[|path|..] == pointer;
    case _ =>
  }

  lemma {:induction false} NothingMoved(v: Value)
    ensures RewriteRefs(v, []) == v
    decreases v, 1
  {
    if v.Object? {
      var ms := v.members;
      hide RewriteReference, MAP_KEYS, CHILD_KEYS, REF_KEYS;
      forall i | 0 <= i < |ms|
        ensures RefMember(ms[i].0, ms[i].1, []) == ms[i].1
      {
        NothingMovedMember(ms[i].0, ms[i].1);
      }
      assert RewriteRefs(v, []).members == ms;
    }
  }

  lemma {:induction false} NothingMovedMember(key: string, x: Value)
    ensures RefMember(key, x, []) == x
    decreases x, 2
  {
    hide RewriteReference, MAP_KEYS, CHILD_KEYS, REF_KEYS;
    var r := RefMember(key, x, []);
    if key in REF_KEYS && x.String? {
      UnmovedReference(x.s, DocumentResource(x.s));
    } else if key in MAP_KEYS && x.Object? {
      forall i | 0 <= i < |x.members|
        ensures RewriteRefs(x.members[i].1, []) == x.members[i].1
      {
        NothingMoved(x.members[i].1);
      }
      assert r.members == x.members;
    } else if key in CHILD_KEYS && x.Array? {
      forall i | 0 <= i < |x.items|
        ensures RewriteRefs(x.items[i], []) == x.items[i]
      {
        NothingMoved(x.items[i]);
      }
      assert key !in MAP_KEYS ==> r.items == x.items;
    } else {
      NothingMoved(x);
    }
  }

  lemma PrefixedTexts(moves: seq<Path>)
    ensures Prefixed("", moves) == Texts(moves)
  {
    forall i | 0 <= i < |moves|
      ensures Prefixed("", moves)[i] == PointerText(moves[i])
    {
      assert "" + PointerText(moves[i]) == PointerText(moves[i]);
    }
  }

  /** The OpenAI strict-mode transform: refuses dictionaries, leaving the schema as it was, and
      otherwise makes the schema strict and its references follow. */
  method ToOpenAiStrict(schema: Value) returns (r: Value, refused: Option<string>)
    requires WellFormed(schema)
    ensures refused == FirstUnsupported(schema)
    ensures r == if refused.Some? then schema else Repaired(schema)
  {
    r := schema;
    refused := ValidateStrictMaps(schema);
    if refused.Some? {
      return;
    }
    hide Strict, RewriteRefs, Moves;
    var moves;
    r, moves := RewriteOpenAiStrict(schema, "", []);
    PrefixedTexts(Moves(schema));
    assert moves == Texts(Moves(schema));
    if moves == [] {
      NothingMoved(r);
    } else {
      StrictWellFormed(schema);
      r := RewriteReferences(r, moves);
    }
  }
}

/** Where the strict rewrite puts every subschema, and that the recorded moves say so. */
module StrictProofs {
  import opened Options
  import opened Sequences
  import opened JsonValues
  import opened JsonPointers
  import opened StrictSchema

  // ----- Positions of subschemas

  /** One step from a schema to a subschema. */
  datatype Slot =
    | Whole(key: string)
    | Named(key: string, name: string)
    | Indexed(key: string, index: nat)

  function SlotPath(slot: Slot): Path {
    match slot
    case Whole(key) => [key]
    case Named(key, name) => [key, name]
    case Indexed(key, index) => [key, Decimal(index)]
  }

  function Tokens(slots: seq<Slot>): Path {
    if slots == [] then [] else SlotPath(slots[0]) + Tokens(slots[1..])
  }

  /** The subschema in a slot, when the schema has one there. */
  function ChildAt(ms: Members, slot: Slot): Option<Value> {
    match (slot, Lookup(ms, slot.key))
    case (Whole(key), Some(x)) => if key in CHILD_KEYS && !x.Array? then Some(x) else None
    case (Named(key, name), Some(Object(children))) => if key in MAP_KEYS then Lookup(children, name) else None
    case (Indexed(key, index), Some(Array(items))) =>
      if key in CHILD_KEYS && index < |items| then Some(items[index]) else None
    case _ => None
  }

  /** The subschema at a position. */
  function At(v: Value, slots: seq<Slot>): Option<Value>
    decreases |slots|
  {
    if slots == [] then Some(v)
    else if !v.Object? || ChildAt(v.members, slots[0]).None? then None
    else At(ChildAt(v.members, slots[0]).value, slots[1..])
  }

  /** The rewrite keeps what this keyword holds: it is not `propertyNames`, nor an
      `additionalProperties` that an object schema replaces. */
  predicate Keeps(ms: Members, key: string) {
    Visited(ms, key) == Lookup(ms, key)
  }

  /** The position holds a subschema that the rewrite keeps. */
  predicate Survives(v: Value, slots: seq<Slot>)
    decreases |slots|
  {
    slots == []
    || (v.Object? && Keeps(v.members, slots[0].key) && ChildAt(v.members, slots[0]).Some?
        && Survives(ChildAt(v.members, slots[0]).value, slots[1..]))
  }

  predicate Wraps(ms: Members, slot: Slot) {
    slot.Named? && slot.key == "properties" && IsOptional(ms, slot.name)
  }

  const WRAPPER_SLOT: Slot := Indexed("anyOf", 0)

  /** Where a position moves to: below the wrapper of every optional property on the way. */
  function NewSlots(v: Value, slots: seq<Slot>): seq<Slot>
    requires Survives(v, slots)
    decreases |slots|
  {
    if slots == [] then []
    else
      var rest := NewSlots(ChildAt(v.members, slots[0]).value, slots[1..]);
      if Wraps(v.members, slots[0]) then [slots[0], WRAPPER_SLOT] + rest else [slots[0]] + rest
  }

  // ----- The rewritten tree

  lemma LookupMapped(ms: Members, r: Members, key: string)
    requires |r| == |ms| && forall i :: 0 <= i < |ms| ==> r[i].0 == ms[i].0
    ensures Find(r, key) == Find(ms, key)
    ensures Distinct(ms) ==> Distinct(r)
  {
    FindUnique(r, key, Find(ms, key));
  }

  function StrictMembers(ms: Members): Members {
    seq(|ms|, i requires 0 <= i < |ms| => (ms[i].0, StrictMember(ms, ms[i].0, ms[i].1)))
  }

  lemma StrictIs(ms: Members)
    ensures Strict(Object(ms)) == Object(Declare(ms, SwapRemove(StrictMembers(ms), "propertyNames")))
  {
    assert Object(ms).members == ms;
  }

  lemma LookupDeclare(ms: Members, kept: Members, key: string)
    ensures Lookup(Declare(ms, kept), key) ==
      if IsObjectSchema(ms) && key == "additionalProperties" then Some(Bool(false))
      else if IsObjectSchema(ms) && key == "required" && Lookup(ms, "properties").Some?
              && Lookup(ms, "properties").value.Object? then Some(Array(Names(Properties(ms))))
      else Lookup(kept, key)
    ensures Distinct(kept) ==> Distinct(Declare(ms, kept))
  {
    LookupInsert(kept, "required", Array(Names(Properties(ms))), key);
    var listed := Insert(kept, "required", Array(Names(Properties(ms))));
    LookupInsert(kept, "additionalProperties", Bool(false), key);
    LookupInsert(listed, "additionalProperties", Bool(false), key);
  }

  /** What a keyword holds after the rewrite. */
  lemma LookupStrict(ms: Members, key: string)
    requires Distinct(ms)
    ensures Lookup(Strict(Object(ms)).members, key) ==
      if key == "propertyNames" then None
      else if IsObjectSchema(ms) && key == "additionalProperties" then Some(Bool(false))
      else if IsObjectSchema(ms) && key == "required" && Lookup(ms, "properties").Some?
              && Lookup(ms, "properties").value.Object? then Some(Array(Names(Properties(ms))))
      else if Has(ms, key) then Some(StrictMember(ms, key, Lookup(ms, key).value))
      else None
    ensures Distinct(Strict(Object(ms)).members)
  {
    hide StrictMember, Declare, SwapRemove, IsObjectSchema;
    var mapped := StrictMembers(ms);
    StrictIs(ms);
    LookupMapped(ms, mapped, key);
    LookupSwapRemove(mapped, "propertyNames", key);
    LookupDeclare(ms, SwapRemove(mapped, "propertyNames"), key);
  }

  lemma KeysApart()
    ensures forall i, j :: 0 <= i < j < |MAP_KEYS| ==> MAP_KEYS[i] != MAP_KEYS[j]
    ensures forall i, j :: 0 <= i < j < |CHILD_KEYS| ==> CHILD_KEYS[i] != CHILD_KEYS[j]
    ensures forall i :: 0 <= i < |MAP_KEYS| ==> MAP_KEYS[i] !in CHILD_KEYS
    ensures "required" !in MAP_KEYS && "required" !in CHILD_KEYS
    ensures "properties" in MAP_KEYS
  {
  }

  /** A kept keyword still holds its rewritten value. */
  lemma KeptMember(ms: Members, key: string)
    requires Distinct(ms) && Keeps(ms, key) && Has(ms, key) && (key in MAP_KEYS || key in CHILD_KEYS)
    ensures Lookup(Strict(Object(ms)).members, key) == Some(StrictMember(ms, key, Lookup(ms, key).value))
  {
    LookupStrict(ms, key);
    KeysApart();
    if IsObjectSchema(ms) && key == "additionalProperties" {
      hide IsObjectSchema;
      assert Lookup(ms, key) == Some(Bool(false));
      assert Strict(Bool(false)) == Bool(false);
    }
  }

  lemma NamedMember(ms: Members, key: string, name: string)
    requires ChildAt(ms, Named(key, name)).Some?
    ensures key in MAP_KEYS && Has(ms, key)
    ensures var r := StrictMember(ms, key, Lookup(ms, key).value);
      r.Object? && Lookup(r.members, name) == Some(StrictChild(ms, key, name, ChildAt(ms, Named(key, name)).value))
  {
    var children := Lookup(ms, key).value.members;
    LookupMapped(children, StrictMember(ms, key, Object(children)).members, name);
  }

  lemma StrictKeepsShape(v: Value)
    ensures v.Object? <==> Strict(v).Object?
    ensures v.Array? <==> Strict(v).Array?
  {
  }

  /** The rewritten subschema sits in the same slot, inside a wrapper when it was optional. */
  lemma StrictChildAt(ms: Members, slot: Slot)
    requires Distinct(ms) && Keeps(ms, slot.key) && ChildAt(ms, slot).Some?
    ensures var c := ChildAt(ms, slot).value;
      ChildAt(Strict(Object(ms)).members, slot) == Some(if Wraps(ms, slot) then Nullable(Strict(c)) else Strict(c))
  {
    hide Strict;
    LookupStrict(ms, slot.key);
    var x := Lookup(ms, slot.key).value;
    KeptMember(ms, slot.key);
    match slot
    case Named(key, name) => NamedMember(ms, key, name);
    case Indexed(key, index) =>
      KeysApart();
      assert StrictMember(ms, key, x).items[index] == Strict(x.items[index]);
    case Whole(key) =>
      KeysApart();
      StrictKeepsShape(x);
  }

  lemma NullableChild(v: Value)
    ensures Nullable(v).Object? && ChildAt(Nullable(v).members, WRAPPER_SLOT) == Some(v)
  {
    var ms := Nullable(v).members;
    assert ms[0].0 == "anyOf";
    KeysApart();
    assert CHILD_KEYS[3] == "anyOf";
  }

  lemma {:induction false} NewSlotsFirst(v: Value, slots: seq<Slot>)
    requires slots != [] && Survives(v, slots)
    ensures v.Object? && ChildAt(v.members, slots[0]).Some? && Survives(ChildAt(v.members, slots[0]).value, slots[1..])
    ensures var rest := NewSlots(ChildAt(v.members, slots[0]).value, slots[1..]);
      NewSlots(v, slots) == [slots[0]] + if Wraps(v.members, slots[0]) then [WRAPPER_SLOT] + rest else rest
    ensures slots == [slots[0]] + slots[1..]
  {
  }

  /** A rewritten subschema found in its slot leads on to what is found below it. */
  lemma StrictStep(ms: Members, slot: Slot, rest: seq<Slot>)
    requires WellFormed(Object(ms)) && Keeps(ms, slot.key) && ChildAt(ms, slot).Some?
    ensures At(Strict(Object(ms)), [slot] + if Wraps(ms, slot) then [WRAPPER_SLOT] + rest else rest)
         == At(Strict(ChildAt(ms, slot).value), rest)
  {
    var c := ChildAt(ms, slot).value;
    StrictChildAt(ms, slot);
    StrictKeepsShape(Object(ms));
    NullableChild(Strict(c));
    hide Strict, ChildAt, At, WellFormed, Keeps, Nullable;
    if Wraps(ms, slot) {
      AtThrough(Strict(Object(ms)), slot, [WRAPPER_SLOT] + rest);
      AtThrough(Nullable(Strict(c)), WRAPPER_SLOT, rest);
    } else {
      AtThrough(Strict(Object(ms)), slot, rest);
    }
  }

  /** Every surviving subschema is found, rewritten, at its new position: inside the wrapper
      that its path may pass through, never the wrapper itself. */
  lemma {:induction false} StrictAt(v: Value, slots: seq<Slot>)
    requires WellFormed(v) && Survives(v, slots)
    ensures At(v, slots).Some?
    ensures At(Strict(v), NewSlots(v, slots)) == Some(Strict(At(v, slots).value))
    decreases |slots|
  {
    if slots != [] {
      NewSlotsFirst(v, slots);
      assert Keeps(v.members, slots[0].key);
      hide Strict, ChildAt, At, Survives, NewSlots, Wraps, Keeps;
      ChildWellFormed(v.members, slots[0]);
      hide WellFormed;
      var c := ChildAt(v.members, slots[0]).value;
      StrictAt(c, slots[1..]);
      StrictStep(v.members, slots[0], NewSlots(c, slots[1..]));
      AtThrough(v, slots[0], slots[1..]);
    }
  }

  lemma AtThrough(v: Value, slot: Slot, rest: seq<Slot>)
    requires v.Object? && ChildAt(v.members, slot).Some?
    ensures At(v, [slot] + rest) == At(ChildAt(v.members, slot).value, rest)
  {
    assert ([slot] + rest)[1..] == rest;
  }

  lemma ChildWellFormed(ms: Members, slot: Slot)
    requires WellFormed(Object(ms)) && ChildAt(ms, slot).Some?
    ensures WellFormed(ChildAt(ms, slot).value)
  {
    var x := ms[Find(ms, slot.key)].1;
    assert WellFormed(x);
  }

  // ----- The moves

  /** No move in the list touches the path. */
  predicate Misses(q: Path, moves: seq<Path>) {
    forall i :: 0 <= i < |moves| ==> !(moves[i] <= q)
  }

  lemma {:induction false} RelocateMissed(q: Path, moves: seq<Path>)
    requires Misses(q, moves)
    ensures RelocateAll(q, moves) == q
    decreases |moves|
  {
    if moves != [] {
      RelocateMissed(q, moves[1..]);
    }
  }

  lemma {:induction false} RelocateAllCat(q: Path, a: seq<Path>, b: seq<Path>)
    ensures RelocateAll(q, a + b) == RelocateAll(RelocateAll(q, a), b)
    decreases |a|
  {
    if a == [] {
      assert a + b == b;
    } else {
      assert (a + b)[1..] == a[1..] + b;
      RelocateAllCat(Relocate(q, a[0]), a[1..], b);
    }
  }

  lemma PrefixBelow(prefix: Path, m: Path, q: Path)
    ensures prefix + m <= prefix + q <==> m <= q
  {
    if m <= q {
      assert prefix + q == prefix + m + q[|m|..];
    }
    if prefix + m <= prefix + q {
      forall i | 0 <= i < |m|
        ensures |m| <= |q| && m[i] == q[i]
      {
        assert (prefix + m)[|prefix| + i] == (prefix + q)[|prefix| + i];
      }
    }
  }

  lemma RelocateBelow(prefix: Path, m: Path, q: Path)
    ensures Relocate(prefix + q, prefix + m) == prefix + Relocate(q, m)
  {
    PrefixBelow(prefix, m, q);
    if m <= q {
      assert (prefix + q)[|prefix + m|..] == q[|m|..];
      Cat3(prefix, m, WRAPPED, q[|m|..]);
      Cat2(m, WRAPPED, q[|m|..]);
      Cat2(prefix, m, WRAPPED);
    }
  }

  /** Relocation works below a common prefix. */
  lemma {:induction false} RelocateUnder(prefix: Path, q: Path, moves: seq<Path>)
    ensures RelocateAll(prefix + q, Under(prefix, moves)) == prefix + RelocateAll(q, moves)
    decreases |moves|
  {
    if moves != [] {
      assert Under(prefix, moves)[1..] == Under(prefix, moves[1..]);
      RelocateBelow(prefix, moves[0], q);
      RelocateUnder(prefix, Relocate(q, moves[0]), moves[1..]);
    }
  }

  /** Every move in the list starts with this keyword. */
  predicate StartWith(key: string, moves: seq<Path>) {
    forall i :: 0 <= i < |moves| ==> moves[i] != [] && moves[i][0] == key
  }

  lemma OtherKeyMisses(q: Path, key: string, moves: seq<Path>)
    requires StartWith(key, moves) && q != [] && q[0] != key
    ensures Misses(q, moves)
  {
  }

  lemma UnderStarts(prefix: Path, moves: seq<Path>)
    requires prefix != []
    ensures StartWith(prefix[0], Under(prefix, moves))
  {
  }

  lemma {:induction false} NamedMovesStart(ms: Members, key: string, x: Value, i: nat)
    requires x.Object? && i <= |x.members|
    ensures StartWith(key, NamedMoves(ms, key, x, i))
    decreases |x.members| - i
  {
    if i < |x.members| {
      hide Moves;
      NamedMovesStart(ms, key, x, i + 1);
      UnderStarts(ChildPrefix(ms, key, x.members[i].0), Moves(x.members[i].1));
    }
  }

  lemma {:induction false} IndexedMovesStart(key: string, x: Value, i: nat)
    requires x.Array? && i <= |x.items|
    ensures StartWith(key, IndexedMoves(key, x, i))
    decreases |x.items| - i
  {
    if i < |x.items| {
      hide Moves;
      IndexedMovesStart(key, x, i + 1);
      UnderStarts([key, Decimal(i)], Moves(x.items[i]));
    }
  }

  lemma KeyMovesStart(v: Value, key: string)
    requires v.Object?
    ensures StartWith(key, KeyMoves(v, key))
  {
    var ms := v.members;
    if Visited(ms, key).Some? && Visited(ms, key) == Lookup(ms, key) {
      hide Moves, IsObjectSchema, NamedMoves, IndexedMoves;
      var x := ms[Find(ms, key)].1;
      if x.Object? {
        NamedMovesStart(ms, key, x, 0);
      }
      if x.Array? {
        IndexedMovesStart(key, x, 0);
      }
      UnderStarts([key], Moves(x));
    }
  }

  /** The moves of other keywords leave the path alone. */
  lemma {:induction false} OtherKeysMiss(v: Value, keys: seq<string>, q: Path)
    requires v.Object? && q != [] && q[0] !in keys
    ensures RelocateAll(q, KeysMoves(v, keys)) == q
    decreases |keys|
  {
    if keys != [] {
      hide KeyMoves;
      KeyMovesStart(v, keys[0]);
      OtherKeyMisses(q, keys[0], KeyMoves(v, keys[0]));
      RelocateMissed(q, KeyMoves(v, keys[0]));
      RelocateAllCat(q, KeyMoves(v, keys[0]), KeysMoves(v, keys[1..]));
      OtherKeysMiss(v, keys[1..], q);
    }
  }

  /** Of all keywords only the path's own one moves it. */
  lemma {:induction false} OwnKeyMoves(v: Value, keys: seq<string>, q: Path)
    requires v.Object? && q != [] && q[0] in keys
    requires forall i, j :: 0 <= i < j < |keys| ==> keys[i] != keys[j]
    requires var r := RelocateAll(q, KeyMoves(v, q[0])); r != [] && r[0] == q[0]
    ensures RelocateAll(q, KeysMoves(v, keys)) == RelocateAll(q, KeyMoves(v, q[0]))
    decreases |keys|
  {
    hide KeyMoves;
    RelocateAllCat(q, KeyMoves(v, keys[0]), KeysMoves(v, keys[1..]));
    if keys[0] == q[0] {
      OtherKeysMiss(v, keys[1..], RelocateAll(q, KeyMoves(v, q[0])));
    } else {
      KeyMovesStart(v, keys[0]);
      OtherKeyMisses(q, keys[0], KeyMoves(v, keys[0]));
      RelocateMissed(q, KeyMoves(v, keys[0]));
      OwnKeyMoves(v, keys[1..], q);
    }
  }

  /** Every move in the list starts with another second token. */
  lemma OtherNameMisses(q: Path, prefix: Path, moves: seq<Path>)
    requires |q| >= 2 && |prefix| >= 2 && q[1] != prefix[1]
    ensures RelocateAll(q, Under(prefix, moves)) == q
  {
    assert Misses(q, Under(prefix, moves));
    RelocateMissed(q, Under(prefix, moves));
  }

  lemma {:induction false} NamedMovesMiss(ms: Members, key: string, x: Value, i: nat, q: Path)
    requires x.Object? && i <= |x.members| && |q| >= 2
    requires forall j :: i <= j < |x.members| ==> x.members[j].0 != q[1]
    ensures RelocateAll(q, NamedMoves(ms, key, x, i)) == q
    decreases |x.members| - i
  {
    if i < |x.members| {
      hide Moves;
      var prefix, moves := ChildPrefix(ms, key, x.members[i].0), Moves(x.members[i].1);
      RelocateAllCat(q, Under(prefix, moves), NamedMoves(ms, key, x, i + 1));
      OtherNameMisses(q, prefix, moves);
      NamedMovesMiss(ms, key, x, i + 1, q);
    }
  }

  /** Among named subschemas only the path's own one moves it. */
  lemma {:induction false} NamedMovesMove(ms: Members, key: string, x: Value, i: nat, at: nat, rest: Path)
    requires x.Object? && i <= at < |x.members| && Distinct(x.members)
    ensures var prefix := ChildPrefix(ms, key, x.members[at].0);
      RelocateAll(prefix + rest, NamedMoves(ms, key, x, i)) == prefix + RelocateAll(rest, Moves(x.members[at].1))
    decreases |x.members| - i
  {
    hide Moves;
    var prefix := ChildPrefix(ms, key, x.members[at].0);
    var other, moves := ChildPrefix(ms, key, x.members[i].0), Moves(x.members[i].1);
    RelocateAllCat(prefix + rest, Under(other, moves), NamedMoves(ms, key, x, i + 1));
    if i == at {
      RelocateUnder(prefix, rest, moves);
      NamedMovesMiss(ms, key, x, i + 1, prefix + RelocateAll(rest, moves));
    } else {
      OtherNameMisses(prefix + rest, other, moves);
      NamedMovesMove(ms, key, x, i + 1, at, rest);
    }
  }

  lemma {:induction false} IndexedMovesMiss(key: string, x: Value, i: nat, at: nat, q: Path)
    requires x.Array? && at < i <= |x.items| && |q| >= 2 && q[1] == Decimal(at)
    ensures RelocateAll(q, IndexedMoves(key, x, i)) == q
    decreases |x.items| - i
  {
    if i < |x.items| {
      hide Moves, Decimal;
      var prefix, moves := [key, Decimal(i)], Moves(x.items[i]);
      RelocateAllCat(q, Under(prefix, moves), IndexedMoves(key, x, i + 1));
      DecimalDiffers(i, at);
      OtherNameMisses(q, prefix, moves);
      IndexedMovesMiss(key, x, i + 1, at, q);
    }
  }

  lemma DecimalDiffers(m: nat, n: nat)
    requires m != n
    ensures Decimal(m) != Decimal(n)
  {
    if Decimal(m) == Decimal(n) {
      DecimalInjective(m, n);
    }
  }

  lemma {:induction false} IndexedMovesMove(key: string, x: Value, i: nat, at: nat, rest: Path)
    requires x.Array? && i <= at < |x.items|
    ensures var prefix := [key, Decimal(at)];
      RelocateAll(prefix + rest, IndexedMoves(key, x, i)) == prefix + RelocateAll(rest, Moves(x.items[at]))
    decreases |x.items| - i
  {
    hide Moves, Decimal;
    var prefix := [key, Decimal(at)];
    var other, moves := [key, Decimal(i)], Moves(x.items[i]);
    RelocateAllCat(prefix + rest, Under(other, moves), IndexedMoves(key, x, i + 1));
    if i == at {
      RelocateUnder(prefix, rest, moves);
      IndexedMovesMiss(key, x, i + 1, at, prefix + RelocateAll(rest, moves));
    } else {
      DecimalDiffers(i, at);
      OtherNameMisses(prefix + rest, other, moves);
      IndexedMovesMove(key, x, i + 1, at, rest);
    }
  }

  /** The tokens of a slot after the schema's own rewriting. */
  function NewPrefix(ms: Members, slot: Slot): Path {
    SlotPath(slot) + if Wraps(ms, slot) then WRAPPED else []
  }

  lemma KeyMovesMove(v: Value, slot: Slot, rest: Path)
    requires v.Object? && WellFormed(v) && Keeps(v.members, slot.key) && ChildAt(v.members, slot).Some?
    ensures var prefix := NewPrefix(v.members, slot);
      RelocateAll(prefix + rest, KeyMoves(v, slot.key))
      == prefix + RelocateAll(rest, Moves(ChildAt(v.members, slot).value))
  {
    var ms := v.members;
    var i := Find(ms, slot.key);
    var x := ms[i].1;
    assert WellFormed(x);
    KeysApart();
    hide Moves, IsObjectSchema, RelocateAll, Required;
    match slot
    case Whole(key) =>
      assert NewPrefix(ms, slot) == [key];
      RelocateUnder([key], rest, Moves(x));
    case Named(key, name) =>
      assert NewPrefix(ms, slot) == ChildPrefix(ms, key, name);
      NamedMovesMove(ms, key, x, 0, Find(x.members, name), rest);
    case Indexed(key, index) =>
      assert NewPrefix(ms, slot) == [key, Decimal(index)];
      IndexedMovesMove(key, x, 0, index, rest);
  }

  /** A schema's own moves wrap the property that the path enters, when it is optional. */
  lemma {:induction false} OwnMovesMove(names: seq<string>, q: Path)
    requires AllDistinct(names)
    ensures RelocateAll(q, OwnMoves(names)) ==
      if |q| >= 2 && q[0] == "properties" && q[1] in names then q[..2] + WRAPPED + q[2..] else q
    decreases |names|
  {
    if names != [] {
      var m := ["properties", names[0]];
      assert OwnMoves(names)[0] == m && OwnMoves(names)[1..] == OwnMoves(names[1..]);
      assert AllDistinct(names[1..]);
      if m <= q {
        assert q[..2] == m;
        OwnMovesMove(names[1..], m + WRAPPED + q[2..]);
      } else {
        assert |q| >= 2 && q[0] == "properties" ==> q[1] != names[0];
        OwnMovesMove(names[1..], q);
      }
    }
  }

  predicate AllDistinct(names: seq<string>) {
    forall i, j :: 0 <= i < j < |names| ==> names[i] != names[j]
  }

  lemma DistinctCons(first: string, rest: seq<string>)
    requires AllDistinct(rest) && first !in rest
    ensures AllDistinct([first] + rest)
  {
  }

  lemma {:induction false} OptionalNamesAre(ms: Members, properties: Members)
    requires Distinct(properties)
    ensures forall name :: name in OptionalNames(ms, properties) <==> Has(properties, name) && IsOptional(ms, name)
    ensures AllDistinct(OptionalNames(ms, properties))
    decreases |properties|
  {
    if properties != [] {
      hide IsOptional;
      var rest := OptionalNames(ms, properties[1..]);
      OptionalNamesAre(ms, properties[1..]);
      forall name
        ensures Has(properties, name) <==> name == properties[0].0 || Has(properties[1..], name)
      {
      }
      var first := properties[0].0;
      FindUnique(properties[1..], first, |properties| - 1);
      var names := OptionalNames(ms, properties);
      assert names == rest || names == [first] + rest;
      DistinctCons(first, rest);
    }
  }

  /** The schema's own moves wrap exactly the slots of optional properties. */
  lemma OptionalSlots(ms: Members, slot: Slot, rest: Path)
    requires WellFormed(Object(ms)) && ChildAt(ms, slot).Some?
    ensures var q := SlotPath(slot) + rest; var names := OptionalNames(ms, Properties(ms));
      && (Wraps(ms, slot) <==> |q| >= 2 && q[0] == "properties" && q[1] in names)
      && AllDistinct(names)
  {
    KeysApart();
    assert Distinct(Properties(ms)) by {
      if Has(ms, "properties") {
        assert WellFormed(ms[Find(ms, "properties")].1);
      }
    }
    OptionalNamesAre(ms, Properties(ms));
    hide IsOptional, OptionalNames;
  }

  lemma OwnMovesStep(ms: Members, slot: Slot, rest: Path)
    requires WellFormed(Object(ms)) && ChildAt(ms, slot).Some?
    ensures RelocateAll(SlotPath(slot) + rest, OwnMoves(OptionalNames(ms, Properties(ms)))) ==
      NewPrefix(ms, slot) + rest
  {
    hide ChildAt, OptionalNames, RelocateAll, WellFormed, Properties;
    var q := SlotPath(slot) + rest;
    OptionalSlots(ms, slot, rest);
    OwnMovesMove(OptionalNames(ms, Properties(ms)), q);
    if Wraps(ms, slot) {
      assert q[..2] == SlotPath(slot) && q[2..] == rest;
    } else {
      assert NewPrefix(ms, slot) == SlotPath(slot);
    }
  }

  /** One step of a path through all the moves of a schema. */
  lemma MovesStep(v: Value, slot: Slot, rest: Path)
    requires v.Object? && WellFormed(v) && Keeps(v.members, slot.key) && ChildAt(v.members, slot).Some?
    ensures RelocateAll(SlotPath(slot) + rest, Moves(v))
         == NewPrefix(v.members, slot) + RelocateAll(rest, Moves(ChildAt(v.members, slot).value))
  {
    var ms := v.members;
    var own := OwnMoves(OptionalNames(ms, Properties(ms)));
    var q := NewPrefix(ms, slot) + rest;
    assert Moves(v) == own + KeysMoves(v, MAP_KEYS) + KeysMoves(v, CHILD_KEYS);
    OwnMovesStep(ms, slot, rest);
    KeyMovesMove(v, slot, rest);
    KeysApart();
    hide Moves, KeysMoves, KeyMoves, IsOptional, OptionalNames, OwnMoves;
    RelocateAllCat(SlotPath(slot) + rest, own + KeysMoves(v, MAP_KEYS), KeysMoves(v, CHILD_KEYS));
    RelocateAllCat(SlotPath(slot) + rest, own, KeysMoves(v, MAP_KEYS));
    if slot.key in MAP_KEYS {
      OwnKeyMoves(v, MAP_KEYS, q);
      OtherKeysMiss(v, CHILD_KEYS, RelocateAll(q, KeyMoves(v, slot.key)));
    } else {
      OtherKeysMiss(v, MAP_KEYS, q);
      OwnKeyMoves(v, CHILD_KEYS, q);
    }
  }

  lemma TokensCons(slot: Slot, rest: seq<Slot>)
    ensures Tokens([slot] + rest) == SlotPath(slot) + Tokens(rest)
  {
    assert ([slot] + rest)[1..] == rest;
  }

  /** Applying the recorded moves, in order, to a position of the original schema gives its
      position in the rewritten one. */
  lemma {:induction false} MovesRelocate(v: Value, slots: seq<Slot>)
    requires WellFormed(v) && Survives(v, slots)
    ensures RelocateAll(Tokens(slots), Moves(v)) == Tokens(NewSlots(v, slots))
    decreases |slots|
  {
    hide Moves, ChildAt, RelocateAll, WellFormed, SlotPath, Keeps, IsOptional;
    if slots == [] {
      EmptyPathStays(v);
    } else {
      var ms, slot := v.members, slots[0];
      var c := ChildAt(ms, slot).value;
      ChildWellFormed(ms, slot);
      MovesRelocate(c, slots[1..]);
      MovesStep(v, slot, Tokens(slots[1..]));
      NewTokens(ms, slot, NewSlots(c, slots[1..]));
    }
  }

  lemma NewTokens(ms: Members, slot: Slot, rest: seq<Slot>)
    ensures Tokens((if Wraps(ms, slot) then [slot, WRAPPER_SLOT] else [slot]) + rest) ==
      NewPrefix(ms, slot) + Tokens(rest)
  {
    hide IsOptional;
    TokensCons(slot, rest);
    if Wraps(ms, slot) {
      TokensCons(slot, [WRAPPER_SLOT] + rest);
      TokensCons(WRAPPER_SLOT, rest);
      assert [slot, WRAPPER_SLOT] + rest == [slot] + ([WRAPPER_SLOT] + rest);
      assert SlotPath(WRAPPER_SLOT) == WRAPPED;
      Cat2(SlotPath(slot), WRAPPED, Tokens(rest));
    } else {
      assert NewPrefix(ms, slot) == SlotPath(slot);
    }
  }

  lemma EmptyPathStays(v: Value)
    ensures RelocateAll([], Moves(v)) == []
  {
    hide Moves;
    forall i | 0 <= i < |Moves(v)|
      ensures Moves(v)[i] != []
    {
      MovesNotEmpty(v);
    }
    RelocateMissed([], Moves(v));
  }

  lemma {:induction false} KeysMovesNotEmpty(v: Value, keys: seq<string>)
    requires v.Object?
    ensures forall i :: 0 <= i < |KeysMoves(v, keys)| ==> KeysMoves(v, keys)[i] != []
    decreases |keys|
  {
    if keys != [] {
      hide KeyMoves;
      KeyMovesStart(v, keys[0]);
      KeysMovesNotEmpty(v, keys[1..]);
    }
  }

  lemma MovesNotEmpty(v: Value)
    ensures forall i :: 0 <= i < |Moves(v)| ==> Moves(v)[i] != []
  {
    if v.Object? {
      KeysMovesNotEmpty(v, MAP_KEYS);
      KeysMovesNotEmpty(v, CHILD_KEYS);
      hide KeysMoves;
    }
  }
}

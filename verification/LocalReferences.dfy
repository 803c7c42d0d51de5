/** Repairing local references after the strict rewrite moved subschemas.

    URL joining is not modelled: a reference is split at its first `#`, and the path of the
    resource that the part before it names, in the rewritten tree, is given.  Within one
    document without identifiers that is the root for an empty part and nothing otherwise. */
module LocalReferences {
  import opened Options
  import opened Sequences
  import opened JsonValues
  import opened JsonPointers
  import opened UriFragments
  import opened StrictSchema
  import opened StrictProofs

  const REF_KEYS: seq<string> := ["$ref", "$dynamicRef", "$recursiveRef"]

  function HashIndex(s: string): (i: nat)
    ensures i <= |s|
    ensures i < |s| ==> s[i] == '#'
    ensures forall j :: 0 <= j < i ==> s[j] != '#'
  {
    if s == "" || s[0] == '#' then 0 else 1 + HashIndex(s[1..])
  }

  /** The pointer a reference carries in its fragment. */
  function PointerOf(reference: string): Option<string> {
    var i := HashIndex(reference);
    if i == |reference| then None
    else
      match Decode(reference[i + 1..])
      case None => None
      case Some(pointer) => if AtBoundary(pointer) then Some(pointer) else None
  }

  /** The pointer, within its resource, after the moves. */
  function MovedPointer(pointer: string, resource: string, moves: seq<string>): string {
    var target := RelocateTexts(RestoreTexts(resource, moves) + pointer, moves);
    if Below(target, resource) then target[|resource|..] else pointer
  }

  function RewriteReference(reference: string, resource: Option<string>, moves: seq<string>): string {
    match (PointerOf(reference), resource)
    case (Some(pointer), Some(path)) =>
      var moved := MovedPointer(pointer, path, moves);
      if moved == pointer then reference else reference[..HashIndex(reference)] + ("#" + Encode(moved))
    case _ => reference
  }

  /** The resource of a reference in a document without identifiers. */
  function DocumentResource(reference: string): Option<string> {
    if HashIndex(reference) == 0 && reference != "" then Some("") else None
  }

  function RewriteRefs(v: Value, moves: seq<string>): Value
    decreases v, 0
  {
    match v
    case Object(ms) =>
      Object(seq(|ms|, i requires 0 <= i < |ms| => (ms[i].0, RefMember(ms[i].0, ms[i].1, moves))))
    case _ => v
  }

  function RefMember(key: string, x: Value, moves: seq<string>): Value
    decreases x, 1
  {
    if key in REF_KEYS && x.String? then String(RewriteReference(x.s, DocumentResource(x.s), moves))
    else if key in MAP_KEYS then
      match x
      case Object(children) =>
        Object(seq(|children|, i requires 0 <= i < |children| => (children[i].0, RewriteRefs(children[i].1, moves))))
      case _ => x
    else if key in CHILD_KEYS then
      match x
      case Array(items) => Array(seq(|items|, i requires 0 <= i < |items| => RewriteRefs(items[i], moves)))
      case _ => RewriteRefs(x, moves)
    else x
  }

  /** The rewritten schema: strict, with its references repaired. */
  function Repaired(v: Value): Value {
    RewriteRefs(Strict(v), Texts(Moves(v)))
  }

  /** Evaluates a JSON pointer (RFC 6901, section 4). */
  ghost function Evaluate(v: Value, path: Path): Option<Value>
    decreases |path|
  {
    if path == [] then Some(v)
    else
      match v
      case Object(ms) => if Has(ms, path[0]) then Evaluate(Lookup(ms, path[0]).value, path[1..]) else None
      case Array(items) =>
        if i: nat :| i < |items| && Decimal(i) == path[0] then Evaluate(items[i], path[1..]) else None
      case _ => None
  }

  // ----- Positions in the rewritten tree

  lemma RefKeysApart()
    ensures forall i :: 0 <= i < |REF_KEYS| ==> REF_KEYS[i] !in MAP_KEYS && REF_KEYS[i] !in CHILD_KEYS
    ensures forall i :: 0 <= i < |REF_KEYS| ==>
      REF_KEYS[i] != "required" && REF_KEYS[i] != "additionalProperties" && REF_KEYS[i] != "propertyNames"
  {
  }

  lemma LookupRefs(ms: Members, key: string, moves: seq<string>)
    ensures Lookup(RewriteRefs(Object(ms), moves).members, key) ==
      if Has(ms, key) then Some(RefMember(key, Lookup(ms, key).value, moves)) else None
  {
    LookupMapped(ms, RewriteRefs(Object(ms), moves).members, key);
  }

  lemma RefsKeepShape(v: Value, moves: seq<string>)
    ensures v.Object? <==> RewriteRefs(v, moves).Object?
    ensures v.Array? <==> RewriteRefs(v, moves).Array?
  {
  }

  lemma RefsChildAt(ms: Members, slot: Slot, moves: seq<string>)
    requires ChildAt(ms, slot).Some?
    ensures ChildAt(RewriteRefs(Object(ms), moves).members, slot) == Some(RewriteRefs(ChildAt(ms, slot).value, moves))
  {
    hide RewriteRefs;
    LookupRefs(ms, slot.key, moves);
    var x := Lookup(ms, slot.key).value;
    KeysApart();
    RefKeysApart();
    match slot
    case Named(key, name) =>
      NamedRefs(key, x, name, moves);
    case Indexed(key, index) =>
      assert RefMember(key, x, moves).items[index] == RewriteRefs(x.items[index], moves);
    case Whole(key) =>
      RefsKeepShape(x, moves);
  }

  lemma NamedRefs(key: string, x: Value, name: string, moves: seq<string>)
    requires x.Object? && Has(x.members, name) && key in MAP_KEYS && key !in REF_KEYS
    ensures var r := RefMember(key, x, moves);
      r.Object? && Lookup(r.members, name) == Some(RewriteRefs(Lookup(x.members, name).value, moves))
  {
    LookupMapped(x.members, RefMember(key, x, moves).members, name);
  }

  /** Repairing references leaves every subschema where it is. */
  lemma {:induction false} RefsAt(v: Value, slots: seq<Slot>, moves: seq<string>)
    requires At(v, slots).Some?
    ensures At(RewriteRefs(v, moves), slots) == Some(RewriteRefs(At(v, slots).value, moves))
    decreases |slots|
  {
    if slots != [] {
      hide RewriteRefs, ChildAt;
      RefsChildAt(v.members, slots[0], moves);
      RefsKeepShape(v, moves);
      RefsAt(ChildAt(v.members, slots[0]).value, slots[1..], moves);
    }
  }

  lemma EvaluateIndex(items: seq<Value>, i: nat, rest: Path)
    requires i < |items|
    ensures Evaluate(Array(items), [Decimal(i)] + rest) == Evaluate(items[i], rest)
  {
    hide Decimal;
    var path := [Decimal(i)] + rest;
    assert path[1..] == rest;
    forall j: nat | j < |items| && Decimal(j) == path[0]
      ensures j == i
    {
      DecimalInjective(j, i);
    }
  }

  lemma EvaluateMember(ms: Members, key: string, rest: Path)
    requires Has(ms, key)
    ensures Evaluate(Object(ms), [key] + rest) == Evaluate(Lookup(ms, key).value, rest)
  {
    assert ([key] + rest)[1..] == rest;
  }

  /** One step down to a subschema. */
  lemma EvaluateSlot(ms: Members, slot: Slot, rest: Path)
    requires ChildAt(ms, slot).Some?
    ensures Evaluate(Object(ms), SlotPath(slot) + rest) == Evaluate(ChildAt(ms, slot).value, rest)
  {
    hide Evaluate, CHILD_KEYS, MAP_KEYS;
    var x := Lookup(ms, slot.key).value;
    match slot
    case Whole(key) =>
      EvaluateMember(ms, key, rest);
    case Named(key, name) =>
      EvaluateMember(ms, key, [name] + rest);
      EvaluateMember(x.members, name, rest);
      assert [key] + ([name] + rest) == SlotPath(slot) + rest;
    case Indexed(key, index) =>
      EvaluateMember(ms, key, [Decimal(index)] + rest);
      EvaluateIndex(x.items, index, rest);
      assert [key] + ([Decimal(index)] + rest) == SlotPath(slot) + rest;
  }

  /** A position's tokens, evaluated as a JSON pointer, lead to the position. */
  lemma {:induction false} EvaluateIsAt(v: Value, slots: seq<Slot>)
    requires At(v, slots).Some?
    ensures Evaluate(v, Tokens(slots)) == At(v, slots)
    decreases |slots|
  {
    if slots != [] {
      hide Evaluate, ChildAt, SlotPath;
      EvaluateIsAt(ChildAt(v.members, slots[0]).value, slots[1..]);
      EvaluateSlot(v.members, slots[0], Tokens(slots[1..]));
    }
  }

  // ----- Paths through a resource

  lemma {:induction false} TokensCat(a: seq<Slot>, b: seq<Slot>)
    ensures Tokens(a + b) == Tokens(a) + Tokens(b)
  {
    if a == [] {
      assert a + b == b;
    } else {
      assert (a + b)[1..] == a[1..] + b;
      TokensCat(a[1..], b);
      Cat2(SlotPath(a[0]), Tokens(a[1..]), Tokens(b));
    }
  }

  lemma {:induction false} SurvivesCat(v: Value, a: seq<Slot>, b: seq<Slot>)
    requires Survives(v, a) && At(v, a).Some? && Survives(At(v, a).value, b)
    ensures Survives(v, a + b)
    ensures NewSlots(v, a + b) == NewSlots(v, a) + NewSlots(At(v, a).value, b)
    decreases |a|
  {
    if a == [] {
      assert a + b == b;
    } else {
      hide ChildAt;
      assert (a + b)[1..] == a[1..] + b;
      var c := ChildAt(v.members, a[0]).value;
      SurvivesCat(c, a[1..], b);
      var x, y := NewSlots(c, a[1..]), NewSlots(At(v, a).value, b);
      Cat2([a[0], WRAPPER_SLOT], x, y);
      Cat2([a[0]], x, y);
    }
  }

  function PositionText(slots: seq<Slot>): string {
    PointerText(Tokens(slots))
  }

  lemma RelocatePosition(v: Value, slots: seq<Slot>)
    requires WellFormed(v) && Survives(v, slots)
    ensures RelocateTexts(PositionText(slots), Texts(Moves(v))) == PositionText(NewSlots(v, slots))
  {
    RelocateAllIsText(Tokens(slots), Moves(v));
    MovesRelocate(v, slots);
  }

  /** A pointer into a resource moves to the target's new position, seen from the resource's. */
  lemma MovedPointerFollows(v: Value, root: seq<Slot>, slots: seq<Slot>)
    requires WellFormed(v) && Survives(v, root) && At(v, root).Some? && Survives(At(v, root).value, slots)
    ensures MovedPointer(PositionText(slots), PositionText(NewSlots(v, root)), Texts(Moves(v)))
         == PositionText(NewSlots(At(v, root).value, slots))
  {
    hide RelocateTexts, RestoreTexts, Moves, Survives, NewSlots, At;
    var c := At(v, root).value;
    var moves, resource := Texts(Moves(v)), PositionText(NewSlots(v, root));
    RelocatePosition(v, root);
    RestoreUndoes(PositionText(root), moves);
    assert RestoreTexts(resource, moves) == PositionText(root);
    TokensCat(root, slots);
    PointerTextCat(Tokens(root), Tokens(slots));
    SurvivesCat(v, root, slots);
    RelocatePosition(v, root + slots);
    var inner := PositionText(NewSlots(c, slots));
    TokensCat(NewSlots(v, root), NewSlots(c, slots));
    PointerTextCat(Tokens(NewSlots(v, root)), Tokens(NewSlots(c, slots)));
    PointerAtBoundary(Tokens(NewSlots(c, slots)));
    assert (resource + inner)[|resource|..] == inner;
  }

  // ----- Moved pointers stay text

  predicate IsText(s: string) {
    IsBytes(s) && IsUtf8(s)
  }

  lemma BytesCat(a: string, b: string)
    ensures IsBytes(a + b) <==> IsBytes(a) && IsBytes(b)
  {
    assert forall i :: 0 <= i < |a| ==> (a + b)[i] == a[i];
    assert forall i :: 0 <= i < |b| ==> (a + b)[|a| + i] == b[i];
  }

  lemma WrapKeepsText(m: string, wrap: string, rest: string)
    requires IsText(m + rest) && AtBoundary(rest) && IsText(wrap)
    ensures IsText(m + wrap + rest)
  {
    hide IsBytes, IsUtf8;
    Utf8Split(m, rest);
    Utf8Cat(m, wrap);
    Utf8Cat(m + wrap, rest);
    BytesCat(m, rest);
    BytesCat(m, wrap);
    BytesCat(m + wrap, rest);
  }

  lemma RelocateKeepsWrapped(path: string, m: string, wrap: string)
    requires IsText(path) && IsText(wrap)
    ensures IsText(RelocateText(path, m, m + wrap))
  {
    hide IsText;
    if m <= path && AtBoundary(path[|m|..]) {
      assert path == m + path[|m|..];
      WrapKeepsText(m, wrap, path[|m|..]);
    }
  }

  lemma RelocateKeepsText(path: string, m: string)
    requires IsText(path)
    ensures IsText(RelocateText(path, m, m + "/anyOf/0"))
  {
    AsciiIsUtf8("/anyOf/0");
    assert IsText("/anyOf/0");
    hide IsText, IsBytes, IsUtf8, RelocateText;
    RelocateKeepsWrapped(path, m, "/anyOf/0");
  }

  lemma {:induction false} RelocateAllKeepsText(path: string, moves: seq<string>)
    requires IsText(path)
    ensures IsText(RelocateTexts(path, moves))
    decreases |moves|
  {
    if moves != [] {
      RelocateKeepsText(path, moves[0]);
      RelocateAllKeepsText(RelocateText(path, moves[0], moves[0] + "/anyOf/0"), moves[1..]);
    }
  }

  lemma {:induction false} DecodedIsBytes(s: string)
    requires DecodeBytes(s).Some? && IsBytes(s)
    ensures IsBytes(DecodeBytes(s).value)
    decreases |s|
  {
    if s != "" && s[0] != '%' {
      DecodedIsBytes(s[1..]);
    } else if s != "" {
      DecodedIsBytes(s[3..]);
    }
  }

  lemma {:induction false} HashIndexAt(prefix: string, tail: string)
    requires '#' !in prefix && tail != "" && tail[0] == '#'
    ensures HashIndex(prefix + tail) == |prefix|
  {
    if prefix == "" {
      assert prefix + tail == tail;
    } else {
      assert (prefix + tail)[1..] == prefix[1..] + tail;
      HashIndexAt(prefix[1..], tail);
    }
  }

  lemma HashAt(prefix: string, rest: string)
    requires '#' !in prefix
    ensures HashIndex(prefix + ("#" + rest)) == |prefix|
    ensures (prefix + ("#" + rest))[|prefix| + 1..] == rest
  {
    HashIndexAt(prefix, "#" + rest);
  }

  lemma PointerOfFragment(prefix: string, pointer: string)
    requires '#' !in prefix && IsText(pointer) && AtBoundary(pointer)
    ensures PointerOf(prefix + ("#" + Encode(pointer))) == Some(pointer)
  {
    HashAt(prefix, Encode(pointer));
    DecodeEncode(pointer);
    hide Encode, Decode, HashIndex, AtBoundary;
  }

  /** A rewritten reference carries the moved pointer. */
  lemma RewrittenPointer(reference: string, resource: string, moves: seq<string>)
    requires PointerOf(reference).Some?
    requires var moved := MovedPointer(PointerOf(reference).value, resource, moves); IsText(moved) && AtBoundary(moved)
    ensures PointerOf(RewriteReference(reference, Some(resource), moves))
         == Some(MovedPointer(PointerOf(reference).value, resource, moves))
  {
    var moved := MovedPointer(PointerOf(reference).value, resource, moves);
    if moved != PointerOf(reference).value {
      var prefix := reference[..HashIndex(reference)];
      PointerOfFragment(prefix, moved);
      hide PointerOf, MovedPointer, Encode, AtBoundary;
    }
  }

  /** What precedes the fragment stays. */
  lemma PrefixStays(reference: string, resource: string, moves: seq<string>)
    ensures var moved := RewriteReference(reference, Some(resource), moves);
      HashIndex(moved) == HashIndex(reference) && moved[..HashIndex(reference)] == reference[..HashIndex(reference)]
  {
    var h := HashIndex(reference);
    if PointerOf(reference).Some? {
      assert h < |reference| && '#' !in reference[..h];
      HashAt(reference[..h], Encode(MovedPointer(PointerOf(reference).value, resource, moves)));
    }
    hide PointerOf, MovedPointer, Encode;
  }

  /** A reference to the subschema at `slots` of the resource at `root` points, rewritten, to
      that subschema's new position in the resource. */
  lemma ReferenceFollows(v: Value, root: seq<Slot>, slots: seq<Slot>, reference: string)
    requires WellFormed(v) && Survives(v, root) && At(v, root).Some? && Survives(At(v, root).value, slots)
    requires IsBytes(reference) && PointerOf(reference) == Some(PositionText(slots))
    ensures PointerOf(RewriteReference(reference, Some(PositionText(NewSlots(v, root))), Texts(Moves(v))))
         == Some(PositionText(NewSlots(At(v, root).value, slots)))
    ensures var moved := RewriteReference(reference, Some(PositionText(NewSlots(v, root))), Texts(Moves(v)));
      HashIndex(moved) == HashIndex(reference) && moved[..HashIndex(reference)] == reference[..HashIndex(reference)]
  {
    PrefixStays(reference, PositionText(NewSlots(v, root)), Texts(Moves(v)));
    hide RewriteReference, MovedPointer, RelocateTexts, Moves, Survives, NewSlots, At, WellFormed;
    var c := At(v, root).value;
    DecodedIsBytes(reference[HashIndex(reference) + 1..]);
    WellFormedAt(v, root);
    RelocatePosition(c, slots);
    RelocateAllKeepsText(PositionText(slots), Texts(Moves(c)));
    MovedPointerFollows(v, root, slots);
    PointerAtBoundary(Tokens(NewSlots(c, slots)));
    RewrittenPointer(reference, PositionText(NewSlots(v, root)), Texts(Moves(v)));
  }

  lemma {:induction false} WellFormedAt(v: Value, slots: seq<Slot>)
    requires WellFormed(v) && At(v, slots).Some?
    ensures WellFormed(At(v, slots).value)
    decreases |slots|
  {
    if slots != [] {
      ChildWellFormed(v.members, slots[0]);
      WellFormedAt(ChildAt(v.members, slots[0]).value, slots[1..]);
    }
  }

  /** No visited subschema names itself, so that references within the document start at its
      root. */
  ghost predicate NoIdentifiers(v: Value) {
    forall slots: seq<Slot> :: At(v, slots).Some? && At(v, slots).value.Object? ==>
      !Has(At(v, slots).value.members, "$id") && !Has(At(v, slots).value.members, "id")
  }

  /** The repaired holder of a reference, and the repaired target. */
  lemma ReferenceResolves(v: Value, from: seq<Slot>, to: seq<Slot>, key: string, reference: string)
    requires WellFormed(v) && Survives(v, from) && Survives(v, to)
    requires At(v, from).Some? && At(v, from).value.Object? && key in REF_KEYS
    requires Lookup(At(v, from).value.members, key) == Some(String(reference))
    requires IsBytes(reference) && DocumentResource(reference).Some?
    requires PointerOf(reference) == Some(PositionText(to))
    ensures At(v, to).Some?
    ensures var moves := Texts(Moves(v));
      var holder := Evaluate(Repaired(v), Tokens(NewSlots(v, from)));
      var target := Evaluate(Repaired(v), Tokens(NewSlots(v, to)));
      var moved := RewriteReference(reference, Some(""), moves);
      && holder.Some? && holder.value.Object? && Lookup(holder.value.members, key) == Some(String(moved))
      && PointerOf(moved) == Some(PositionText(NewSlots(v, to)))
      && target == Some(RewriteRefs(Strict(At(v, to).value), moves))
  {
    hide Survives, NewSlots, Evaluate, RewriteReference, WellFormed, PointerOf;
    var moves := Texts(Moves(v));
    RepairedAt(v, from);
    RepairedAt(v, to);
    WellFormedAt(v, from);
    KeptReference(At(v, from).value.members, key, reference, moves);
    RootSurvives(v);
    ReferenceFollows(v, [], to, reference);
  }

  lemma HashFirst(fragment: string)
    ensures HashIndex("#" + fragment) == 0 && ("#" + fragment)[1..] == fragment
    ensures DocumentResource("#" + fragment) == Some("")
  {
  }

  /** A rewritten fragment reference is one. */
  lemma HashStays(fragment: string, pointer: string, moves: seq<string>)
    requires PointerOf("#" + fragment) == Some(pointer)
    ensures var moved := RewriteReference("#" + fragment, Some(""), moves);
      && moved != "" && moved[0] == '#'
      && (PointerOf(moved).Some? ==> PointerOf(moved) == Decode(moved[1..]))
      && (MovedPointer(pointer, "", moves) == pointer ==> moved == "#" + fragment)
  {
    var moved := MovedPointer(pointer, "", moves);
    HashFirst(fragment);
    HashFirst(Encode(moved));
    assert ("#" + fragment)[..0] == "" && "" + ("#" + Encode(moved)) == "#" + Encode(moved);
    hide HashIndex, Decode, Encode, MovedPointer;
  }

  /** The reference, when its pointer moves, and when it does not. */
  lemma FragmentMoves(v: Value, to: seq<Slot>, fragment: string)
    requires WellFormed(v) && Survives(v, to) && IsBytes(fragment) && Decode(fragment) == Some(PositionText(to))
    ensures IsBytes("#" + fragment) && PointerOf("#" + fragment) == Some(PositionText(to))
    ensures var moved := RewriteReference("#" + fragment, Some(""), Texts(Moves(v)));
      && moved != "" && moved[0] == '#'
      && (PointerOf(moved).Some? ==> PointerOf(moved) == Decode(moved[1..]))
      && (NewSlots(v, to) == to ==> moved == "#" + fragment)
  {
    IsPointer(fragment, PositionText(to));
    PointerAtBoundary(Tokens(to));
    hide *;
    RootSurvives(v);
    MovedPointerFollows(v, [], to);
    HashStays(fragment, PositionText(to), Texts(Moves(v)));
  }

  lemma IsPointer(fragment: string, pointer: string)
    requires Decode(fragment) == Some(pointer)
    ensures AtBoundary(pointer) ==> PointerOf("#" + fragment) == Some(pointer)
    ensures IsBytes(fragment) ==> IsBytes("#" + fragment)
  {
    HashFirst(fragment);
    hide Decode;
  }

  /** Resolving commutes with rewriting: where the schema at `from` referred to the subschema
      at `to`, the repaired schema at `from`'s new position refers to the repaired subschema at
      `to`'s new position; a reference to a subschema that stayed where it was stays as it was. */
  lemma ResolvingCommutes(v: Value, from: seq<Slot>, to: seq<Slot>, key: string, fragment: string)
    requires NoIdentifiers(v) && WellFormed(v) && Survives(v, from) && Survives(v, to)
    requires At(v, from).Some? && At(v, from).value.Object?
    requires key == "$ref" || key == "$dynamicRef" || key == "$recursiveRef"
    requires Lookup(At(v, from).value.members, key) == Some(String("#" + fragment))
    requires IsBytes(fragment) && Decode(fragment) == Some(PositionText(to))
    ensures At(v, to).Some?
    ensures var moves := Texts(Moves(v));
      var holder := Evaluate(Repaired(v), Tokens(NewSlots(v, from)));
      && holder.Some? && holder.value.Object?
      && (match Lookup(holder.value.members, key)
          case Some(String(moved)) =>
            && moved != "" && moved[0] == '#' && Decode(moved[1..]) == Some(PositionText(NewSlots(v, to)))
            && (NewSlots(v, to) == to ==> moved == "#" + fragment)
          case _ => false)
      && Evaluate(Repaired(v), Tokens(NewSlots(v, to))) == Some(RewriteRefs(Strict(At(v, to).value), moves))
  {
    assert key in REF_KEYS;
    hide *;
    HashFirst(fragment);
    FragmentMoves(v, to, fragment);
    ReferenceResolves(v, from, to, key, "#" + fragment);
  }

  /** References that lead out of the document, or hold no pointer, stay as they are. */
  lemma OthersStay(v: Value, from: seq<Slot>, key: string, reference: string)
    requires WellFormed(v) && Survives(v, from) && At(v, from).Some? && At(v, from).value.Object?
    requires key == "$ref" || key == "$dynamicRef" || key == "$recursiveRef"
    requires Lookup(At(v, from).value.members, key) == Some(String(reference))
    requires reference == "" || reference[0] != '#' || Decode(reference[1..]).None?
          || (Decode(reference[1..]).value != "" && Decode(reference[1..]).value[0] != '/')
    ensures var holder := Evaluate(Repaired(v), Tokens(NewSlots(v, from)));
      holder.Some? && holder.value.Object? && Lookup(holder.value.members, key) == Some(String(reference))
  {
    assert key in REF_KEYS;
    var ms, moves := At(v, from).value.members, Texts(Moves(v));
    WellFormedAt(v, from);
    StaysHere(reference, moves);
    RepairedAt(v, from);
    RefKeysApart();
    hide Strict, RewriteRefs, Evaluate, NewSlots, Survives, Moves, At, RewriteReference, DocumentResource, Decode;
    LookupStrict(ms, key);
    LookupRefs(Strict(Object(ms)).members, key, moves);
    StrictKeepsShape(Object(ms));
    RefsKeepShape(Strict(Object(ms)), moves);
  }

  lemma StaysHere(reference: string, moves: seq<string>)
    requires reference == "" || reference[0] != '#' || Decode(reference[1..]).None?
          || (Decode(reference[1..]).value != "" && Decode(reference[1..]).value[0] != '/')
    ensures RewriteReference(reference, DocumentResource(reference), moves) == reference
  {
    hide Decode, MovedPointer, Encode;
    if reference != "" && reference[0] == '#' {
      assert HashIndex(reference) == 0;
    }
  }

  lemma RootSurvives(v: Value)
    ensures Survives(v, []) && At(v, []) == Some(v) && NewSlots(v, []) == [] && PositionText([]) == ""
  {
  }

  /** The repaired subschema at a new position. */
  lemma RepairedAt(v: Value, slots: seq<Slot>)
    requires WellFormed(v) && Survives(v, slots)
    ensures At(v, slots).Some?
    ensures Evaluate(Repaired(v), Tokens(NewSlots(v, slots)))
         == Some(RewriteRefs(Strict(At(v, slots).value), Texts(Moves(v))))
  {
    hide Survives, NewSlots, Evaluate, RewriteRefs, Strict, Moves, At;
    StrictAt(v, slots);
    RefsAt(Strict(v), NewSlots(v, slots), Texts(Moves(v)));
    EvaluateIsAt(Repaired(v), NewSlots(v, slots));
  }

  lemma KeptReference(ms: Members, key: string, reference: string, moves: seq<string>)
    requires WellFormed(Object(ms)) && key in REF_KEYS && Lookup(ms, key) == Some(String(reference))
    requires DocumentResource(reference).Some?
    ensures var r := RewriteRefs(Strict(Object(ms)), moves);
      r.Object? && Lookup(r.members, key) == Some(String(RewriteReference(reference, Some(""), moves)))
  {
    RefKeysApart();
    LookupStrict(ms, key);
    LookupRefs(Strict(Object(ms)).members, key, moves);
    hide Strict, RewriteRefs;
    StrictKeepsShape(Object(ms));
    RefsKeepShape(Strict(Object(ms)), moves);
  }
}

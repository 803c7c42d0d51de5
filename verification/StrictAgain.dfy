/** Applying the strict transform to its own result: the validation passes and nothing changes. */
module StrictAgain {
  import opened Options
  import opened JsonValues
  import opened JsonPointers
  import opened StrictSchema
  import opened StrictProofs
  import opened StrictForm
  import opened LocalReferences
  import opened StrictValidation
  import opened StrictTransform

  // ----- What validation checks, keyword by keyword

  /** The keyword holds only subschemas that pass. */
  predicate Passes(key: string, x: Value) {
    && (key in CHECKED_MAPS && x.Object? ==>
          forall i :: 0 <= i < |x.members| ==> FirstUnsupported(x.members[i].1).None?)
    && (key in CHECKED_CHILDREN ==>
          if x.Array? then forall i :: 0 <= i < |x.items| ==> FirstUnsupported(x.items[i]).None?
          else FirstUnsupported(x).None?)
  }

  lemma {:induction false} NamedPass(x: Value, i: nat)
    requires x.Object? && i <= |x.members|
    requires forall j :: i <= j < |x.members| ==> FirstUnsupported(x.members[j].1).None?
    ensures FirstNamed(x, i).None?
    decreases |x.members| - i
  {
    hide FirstUnsupported;
    if i < |x.members| {
      NamedPass(x, i + 1);
    }
  }

  lemma {:induction false} IndexedPass(x: Value, i: nat)
    requires x.Array? && i <= |x.items|
    requires forall j :: i <= j < |x.items| ==> FirstUnsupported(x.items[j]).None?
    ensures FirstIndexed(x, i).None?
    decreases |x.items| - i
  {
    hide FirstUnsupported;
    if i < |x.items| {
      IndexedPass(x, i + 1);
    }
  }

  lemma KeyPasses(v: Value, key: string)
    requires v.Object? && (key in CHECKED_MAPS || key in CHECKED_CHILDREN)
    requires Has(v.members, key) ==> Passes(key, Lookup(v.members, key).value)
    ensures FirstInKey(v, key).None?
  {
    CheckedKeys();
    hide FirstUnsupported, CHECKED_MAPS, CHECKED_CHILDREN, MAP_KEYS, CHILD_KEYS;
    if Has(v.members, key) {
      var x := Lookup(v.members, key).value;
      if key in CHECKED_MAPS {
        if x.Object? {
          NamedPass(x, 0);
        }
      } else if x.Array? {
        IndexedPass(x, 0);
      }
    }
  }

  lemma {:induction false} KeysPass(v: Value, keys: seq<string>)
    requires v.Object?
    requires forall i :: 0 <= i < |keys| ==> keys[i] in CHECKED_MAPS || keys[i] in CHECKED_CHILDREN
    requires forall i :: 0 <= i < |keys| && Has(v.members, keys[i]) ==>
      Passes(keys[i], Lookup(v.members, keys[i]).value)
    ensures FirstInKeys(v, keys).None?
    decreases |keys|
  {
    hide Passes, FirstInKey, CHECKED_MAPS, CHECKED_CHILDREN;
    if keys != [] {
      KeyPasses(v, keys[0]);
      KeysPass(v, keys[1..]);
    }
  }

  /** A schema passes when it holds no dictionary itself and its keywords pass. */
  lemma SchemaPasses(ms: Members)
    requires Unsupported(ms).None?
    requires forall key :: Has(ms, key) ==> Passes(key, Lookup(ms, key).value)
    ensures FirstUnsupported(Object(ms)).None?
  {
    var v := Object(ms);
    hide Passes, Unsupported, FirstInKeys, CHECKED_MAPS, CHECKED_CHILDREN;
    KeysPass(v, CHECKED_MAPS);
    KeysPass(v, CHECKED_CHILDREN);
  }

  lemma KeywordPasses(ms: Members, key: string)
    requires FirstUnsupported(Object(ms)).None? && Has(ms, key)
    ensures Passes(key, Lookup(ms, key).value)
  {
    var v, x := Object(ms), Lookup(ms, key).value;
    CheckedKeys();
    if key in CHECKED_MAPS {
      NoneInKeys(v, CHECKED_MAPS, key);
      if x.Object? {
        forall i | 0 <= i < |x.members|
          ensures FirstUnsupported(x.members[i].1).None?
        {
          NoneNamed(x, 0, i);
        }
      }
    }
    if key in CHECKED_CHILDREN {
      NoneInKeys(v, CHECKED_CHILDREN, key);
      hide CHECKED_MAPS, CHECKED_CHILDREN, MAP_KEYS, CHILD_KEYS;
      if x.Array? {
        forall i | 0 <= i < |x.items|
          ensures FirstUnsupported(x.items[i]).None?
        {
          NoneIndexed(x, 0, i);
        }
      }
    }
  }

  // ----- The strict schema passes

  lemma OneKeyword(key: string, x: Value)
    requires Passes(key, x) && key != "additionalProperties" && key != "patternProperties"
    ensures FirstUnsupported(Object([(key, x)])).None?
  {
    var ms := [(key, x)];
    forall other
      ensures Lookup(ms, other) == (if other == key then Some(x) else None) && (Has(ms, other) <==> other == key)
    {
      assert ms[1..] == [];
    }
    hide Lookup, Has, Passes, FirstUnsupported;
    SchemaPasses(ms);
  }

  lemma EitherPasses(a: Value, b: Value)
    requires FirstUnsupported(a).None? && FirstUnsupported(b).None?
    ensures FirstUnsupported(Object([("anyOf", Array([a, b]))])).None?
  {
    var items := [a, b];
    assert "anyOf" !in CHECKED_MAPS;
    hide FirstUnsupported, CHECKED_MAPS, CHECKED_CHILDREN;
    assert forall i :: 0 <= i < 2 ==> FirstUnsupported(items[i]).None?;
    OneKeyword("anyOf", Array(items));
  }

  lemma NullablePasses(v: Value)
    requires FirstUnsupported(v).None?
    ensures FirstUnsupported(Nullable(v)).None?
  {
    NullSchemaPasses();
    hide FirstUnsupported, NULL_SCHEMA;
    EitherPasses(v, NULL_SCHEMA);
  }

  lemma NullSchemaPasses()
    ensures FirstUnsupported(NULL_SCHEMA).None?
  {
    assert "type" !in CHECKED_MAPS && "type" !in CHECKED_CHILDREN;
    OneKeyword("type", String("null"));
  }

  lemma {:induction false} StrictMemberPasses(ms: Members, key: string, x: Value)
    requires Passes(key, x) && WellFormed(x)
    ensures Passes(key, StrictMember(ms, key, x))
    decreases x, 1
  {
    CheckedKeys();
    SlotKinds(key);
    hide FirstUnsupported, Strict, CHECKED_MAPS, CHECKED_CHILDREN, MAP_KEYS, CHILD_KEYS;
    if key in CHECKED_MAPS {
      if x.Object? {
        forall i | 0 <= i < |x.members|
          ensures FirstUnsupported(StrictChild(ms, key, x.members[i].0, x.members[i].1)).None?
        {
          StrictPasses(x.members[i].1);
          NullablePasses(Strict(x.members[i].1));
        }
      }
    } else if key in CHECKED_CHILDREN {
      if x.Array? {
        forall i | 0 <= i < |x.items|
          ensures FirstUnsupported(Strict(x.items[i])).None?
        {
          StrictPasses(x.items[i]);
        }
      } else {
        StrictPasses(x);
        StrictKeepsKind(x);
      }
    }
  }

  lemma StrictKeepsKind(x: Value)
    ensures Strict(x).Array? == x.Array? && Strict(x).Object? == x.Object? && (!x.Object? ==> Strict(x) == x)
  {
  }

  lemma StrictOwn(ms: Members)
    requires Distinct(ms) && Unsupported(ms).None?
    ensures Unsupported(Strict(Object(ms)).members).None?
  {
    LookupStrict(ms, "additionalProperties");
    LookupStrict(ms, "patternProperties");
    SlotKinds("additionalProperties");
    hide IsObjectSchema, Strict;
    if Has(ms, "additionalProperties") {
      StrictKeepsKind(Lookup(ms, "additionalProperties").value);
    }
  }

  lemma DeclaredUnchecked()
    ensures "required" !in CHECKED_MAPS && "required" !in CHECKED_CHILDREN
  {
    UncheckedKey();
  }

  /** Strict mode adds no dictionary: what passes the validation passes it when rewritten. */
  lemma {:induction false} StrictPasses(v: Value)
    requires FirstUnsupported(v).None? && WellFormed(v)
    ensures FirstUnsupported(Strict(v)).None?
    decreases v, 0
  {
    if v.Object? {
      var ms := v.members;
      var t := Strict(v).members;
      assert Distinct(ms) && Unsupported(ms).None?;
      StrictOwn(ms);
      UncheckedKey();
      DeclaredUnchecked();
      forall key | Has(t, key)
        ensures Passes(key, Lookup(t, key).value)
      {
        LookupStrict(ms, key);
        hide FirstUnsupported, Strict, StrictMember, IsObjectSchema, Unsupported, CHECKED_MAPS, CHECKED_CHILDREN;
        if Has(ms, key) {
          KeywordPasses(ms, key);
          StrictMemberPasses(ms, key, Lookup(ms, key).value);
        }
      }
      hide FirstUnsupported, Strict, Passes, Unsupported;
      SchemaPasses(t);
    }
  }

  // ----- Repairing references adds no dictionary

  lemma {:induction false} RefMemberPasses(key: string, x: Value, moves: seq<string>)
    requires Passes(key, x) && WellFormed(x)
    ensures Passes(key, RefMember(key, x, moves))
    decreases x, 1
  {
    CheckedKeys();
    SlotKinds(key);
    RefKeysApart();
    hide FirstUnsupported, RewriteRefs, RewriteReference, CHECKED_MAPS;
    hide CHECKED_CHILDREN, MAP_KEYS, CHILD_KEYS, REF_KEYS;
    if key in CHECKED_MAPS {
      if x.Object? {
        forall i | 0 <= i < |x.members|
          ensures FirstUnsupported(RewriteRefs(x.members[i].1, moves)).None?
        {
          RefsPass(x.members[i].1, moves);
        }
      }
    } else if key in CHECKED_CHILDREN {
      if x.Array? {
        forall i | 0 <= i < |x.items|
          ensures FirstUnsupported(RewriteRefs(x.items[i], moves)).None?
        {
          RefsPass(x.items[i], moves);
        }
      } else {
        RefsPass(x, moves);
        RefsKeepKind(x, moves);
      }
    }
  }

  lemma RefsKeepKind(x: Value, moves: seq<string>)
    ensures RewriteRefs(x, moves).Array? == x.Array? && RewriteRefs(x, moves).Object? == x.Object?
    ensures !x.Object? ==> RewriteRefs(x, moves) == x
  {
  }

  lemma RefsOwn(ms: Members, moves: seq<string>)
    requires Unsupported(ms).None?
    ensures Unsupported(RewriteRefs(Object(ms), moves).members).None?
  {
    LookupRefs(ms, "additionalProperties", moves);
    LookupRefs(ms, "patternProperties", moves);
    SlotKinds("additionalProperties");
    RefKeysApart();
    assert "patternProperties" !in REF_KEYS && "additionalProperties" !in REF_KEYS;
    hide RewriteRefs, RewriteReference, MAP_KEYS, CHILD_KEYS, REF_KEYS;
    if Has(ms, "additionalProperties") {
      RefsKeepKind(Lookup(ms, "additionalProperties").value, moves);
    }
  }

  lemma {:induction false} RefsPass(v: Value, moves: seq<string>)
    requires FirstUnsupported(v).None? && WellFormed(v)
    ensures FirstUnsupported(RewriteRefs(v, moves)).None?
    decreases v, 0
  {
    if v.Object? {
      var ms := v.members;
      var t := RewriteRefs(v, moves).members;
      RefsOwn(ms, moves);
      forall key | Has(t, key)
        ensures Passes(key, Lookup(t, key).value)
      {
        LookupRefs(ms, key, moves);
        hide FirstUnsupported, RewriteRefs, RefMember, Unsupported, CHECKED_MAPS, CHECKED_CHILDREN;
        KeywordPasses(ms, key);
        RefMemberPasses(key, Lookup(ms, key).value, moves);
      }
      hide FirstUnsupported, RewriteRefs, Passes, Unsupported;
      SchemaPasses(t);
    }
  }

  /** Applied to its own result, the transform passes the validation, changes nothing and records
      no moves. */
  lemma TransformedStays(v: Value)
    requires WellFormed(v) && FirstUnsupported(v).None?
    ensures FirstUnsupported(Repaired(v)).None?
    ensures Repaired(Repaired(v)) == Repaired(v) && Moves(Repaired(v)) == []
  {
    hide Strict, RewriteRefs, Moves, Normal, FirstUnsupported;
    StrictPasses(v);
    StrictWellFormed(v);
    RefsPass(Strict(v), Texts(Moves(v)));
    RepairedIsFixed(v);
    NothingMoved(Repaired(v));
    assert Texts([]) == [];
  }
}

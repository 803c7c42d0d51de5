/** The normal form of strict schemas, and that applying the rewrite again changes nothing. */
module StrictForm {
  import opened Options
  import opened JsonValues
  import opened JsonPointers
  import opened StrictSchema
  import opened StrictProofs
  import opened LocalReferences

  /** What OpenAI strict mode asks of one schema. */
  predicate NormalHere(ms: Members) {
    && !Has(ms, "propertyNames")
    && (IsObjectSchema(ms) ==>
          && Lookup(ms, "additionalProperties") == Some(Bool(false))
          && (Lookup(ms, "properties").Some? && Lookup(ms, "properties").value.Object? ==>
                Lookup(ms, "required") == Some(Array(Names(Properties(ms))))))
  }

  /** Every visited subschema is as strict mode asks. */
  predicate Normal(v: Value)
    decreases v, 0
  {
    match v
    case Object(ms) => NormalHere(ms) && forall i :: 0 <= i < |ms| ==> NormalMember(ms[i].0, ms[i].1)
    case _ => true
  }

  predicate NormalMember(key: string, x: Value)
    decreases x, 1
  {
    if key in MAP_KEYS then
      match x
      case Object(children) => forall i :: 0 <= i < |children| ==> Normal(children[i].1)
      case _ => true
    else if key in CHILD_KEYS then
      match x
      case Array(items) => forall i :: 0 <= i < |items| ==> Normal(items[i])
      case _ => Normal(x)
    else true
  }

  // ----- Visiting a wrapper visits what it wraps

  lemma AnyOfIsChildKey()
    ensures "anyOf" in CHILD_KEYS && "anyOf" !in MAP_KEYS
    ensures "type" !in CHILD_KEYS && "type" !in MAP_KEYS
  {
    assert CHILD_KEYS[3] == "anyOf";
  }

  lemma NullSchemaStays()
    ensures Strict(NULL_SCHEMA) == NULL_SCHEMA && Normal(NULL_SCHEMA)
  {
    AnyOfIsChildKey();
    var ms := NULL_SCHEMA.members;
    assert StrictMembers(ms) == ms;
    StrictIs(ms);
    assert Find(ms, "type") == 0;
  }

  lemma StrictNullable(v: Value)
    ensures Strict(Nullable(v)) == Nullable(Strict(v))
  {
    AnyOfIsChildKey();
    NullSchemaStays();
    var ms := Nullable(v).members;
    hide NULL_SCHEMA;
    assert StrictMember(ms, "anyOf", Array([v, NULL_SCHEMA])) == Array([Strict(v), Strict(NULL_SCHEMA)]);
    assert StrictMembers(ms) == [("anyOf", Array([Strict(v), NULL_SCHEMA]))];
    StrictIs(ms);
    NullableIsPlain(v);
  }

  lemma NullableIsPlain(v: Value)
    ensures var ms := Nullable(v).members;
      !Has(ms, "type") && !Has(ms, "properties") && !Has(ms, "propertyNames") && !IsObjectSchema(ms)
  {
    var ms := Nullable(v).members;
    assert ms[1..] == [];
  }

  lemma NormalNullable(v: Value)
    requires Normal(v)
    ensures Normal(Nullable(v))
  {
    AnyOfIsChildKey();
    NullSchemaStays();
    NullableIsPlain(v);
  }

  // ----- The rewrite produces the normal form

  lemma SameKind(ms: Members)
    requires Distinct(ms)
    ensures IsObjectSchema(Strict(Object(ms)).members) == IsObjectSchema(ms)
  {
    AnyOfIsChildKey();
    PropertiesKey();
    LookupStrict(ms, "type");
    LookupStrict(ms, "properties");
    hide Strict;
  }

  lemma PropertiesKey()
    ensures "properties" in MAP_KEYS && "properties" !in CHILD_KEYS
    ensures "required" !in MAP_KEYS && "required" !in CHILD_KEYS
    ensures "additionalProperties" in CHILD_KEYS && "additionalProperties" !in MAP_KEYS
    ensures "propertyNames" in CHILD_KEYS && "propertyNames" !in MAP_KEYS
  {
    KeysApart();
    assert CHILD_KEYS[2] == "additionalProperties" && CHILD_KEYS[12] == "propertyNames";
  }

  lemma StrictNormalHere(ms: Members)
    requires Distinct(ms)
    ensures NormalHere(Strict(Object(ms)).members)
  {
    PropertiesKey();
    SameKind(ms);
    LookupStrict(ms, "propertyNames");
    LookupStrict(ms, "additionalProperties");
    LookupStrict(ms, "required");
    LookupStrict(ms, "properties");
    hide Strict, IsObjectSchema;
    if Has(ms, "properties") && Lookup(ms, "properties").value.Object? {
      var children := Properties(ms);
      assert Names(StrictMember(ms, "properties", Object(children)).members) == Names(children);
    }
  }

  /** After the rewrite every visited subschema is as strict mode asks. */
  lemma {:induction false} StrictIsNormal(v: Value)
    requires WellFormed(v)
    ensures Normal(Strict(v))
    decreases v, 0
  {
    if v.Object? {
      var ms := v.members;
      var r := Strict(v).members;
      StrictNormalHere(ms);
      forall i | 0 <= i < |r|
        ensures NormalMember(r[i].0, r[i].1)
      {
        var key := r[i].0;
        LookupStrict(ms, key);
        FindAt(r, i);
        PropertiesKey();
        if Has(ms, key) {
          StrictMemberNormal(ms, key, ms[Find(ms, key)].1);
        }
      }
    }
  }

  lemma {:induction false} StrictMemberNormal(ms: Members, key: string, x: Value)
    requires WellFormed(x)
    ensures NormalMember(key, StrictMember(ms, key, x))
    decreases x, 1
  {
    KeysApart();
    if key in MAP_KEYS && x.Object? {
      forall i | 0 <= i < |x.members|
        ensures Normal(StrictChild(ms, key, x.members[i].0, x.members[i].1))
      {
        StrictIsNormal(x.members[i].1);
        NormalNullable(Strict(x.members[i].1));
      }
    } else if key in CHILD_KEYS && x.Array? {
      forall i | 0 <= i < |x.items|
        ensures Normal(Strict(x.items[i]))
      {
        StrictIsNormal(x.items[i]);
      }
    } else if key in CHILD_KEYS {
      StrictIsNormal(x);
      StrictKeepsShape(x);
    }
  }

  // ----- The rewrite fixes normal forms

  lemma {:induction false} NameListed(ps: Members, i: nat)
    requires i < |ps|
    ensures ps[i].0 in StringsOf(Names(ps))
  {
    assert Names(ps)[0] == String(ps[0].0);
    assert Names(ps)[1..] == Names(ps[1..]);
    if i > 0 {
      NameListed(ps[1..], i - 1);
    }
  }

  lemma NothingOptional(ms: Members, i: nat)
    requires NormalHere(ms) && i < |Properties(ms)|
    ensures !IsOptional(ms, Properties(ms)[i].0)
  {
    NameListed(Properties(ms), i);
    hide IsObjectSchema;
  }

  lemma {:induction false} NoOptionalNames(ms: Members, ps: Members)
    requires forall i :: 0 <= i < |ps| ==> !IsOptional(ms, ps[i].0)
    ensures OptionalNames(ms, ps) == []
  {
    if ps != [] {
      NoOptionalNames(ms, ps[1..]);
    }
  }

  lemma {:induction false} NormalMemberFixed(ms: Members, key: string, x: Value)
    requires WellFormed(x) && NormalMember(key, x)
    requires key == "properties" && x.Object? ==> forall i :: 0 <= i < |x.members| ==> !IsOptional(ms, x.members[i].0)
    ensures StrictMember(ms, key, x) == x
    decreases x, 1
  {
    if key in MAP_KEYS && x.Object? {
      forall i | 0 <= i < |x.members|
        ensures StrictChild(ms, key, x.members[i].0, x.members[i].1) == x.members[i].1
      {
        NormalFixed(x.members[i].1);
      }
      assert StrictMember(ms, key, x).members == x.members;
    } else if key in CHILD_KEYS && key !in MAP_KEYS && x.Array? {
      forall i | 0 <= i < |x.items|
        ensures Strict(x.items[i]) == x.items[i]
      {
        NormalFixed(x.items[i]);
      }
      assert StrictMember(ms, key, x).items == x.items;
    } else if key in CHILD_KEYS && key !in MAP_KEYS {
      NormalFixed(x);
    }
  }

  lemma DeclareFixed(ms: Members)
    requires NormalHere(ms)
    ensures Declare(ms, ms) == ms
  {
    hide IsObjectSchema;
    if IsObjectSchema(ms) {
      InsertSame(ms, "additionalProperties", Bool(false));
      if Has(ms, "properties") && Lookup(ms, "properties").value.Object? {
        InsertSame(ms, "required", Array(Names(Properties(ms))));
      }
    }
  }

  /** The rewrite changes nothing in a normal form. */
  lemma {:induction false} NormalFixed(v: Value)
    requires WellFormed(v) && Normal(v)
    ensures Strict(v) == v
    decreases v, 0
  {
    if v.Object? {
      var ms := v.members;
      forall i | 0 <= i < |ms|
        ensures StrictMember(ms, ms[i].0, ms[i].1) == ms[i].1
      {
        if ms[i].0 == "properties" {
          FindAt(ms, i);
          forall j | 0 <= j < |Properties(ms)|
            ensures !IsOptional(ms, Properties(ms)[j].0)
          {
            NothingOptional(ms, j);
          }
        }
        NormalMemberFixed(ms, ms[i].0, ms[i].1);
      }
      assert StrictMembers(ms) == ms;
      StrictIs(ms);
      DeclareFixed(ms);
    }
  }

  lemma {:induction false} NormalNamedStays(ms: Members, key: string, x: Value, i: nat)
    requires x.Object? && i <= |x.members| && WellFormed(x)
    requires forall j :: 0 <= j < |x.members| ==> Normal(x.members[j].1)
    ensures NamedMoves(ms, key, x, i) == []
    decreases x, 0, |x.members| - i
  {
    if i < |x.members| {
      NormalStays(x.members[i].1);
      NormalNamedStays(ms, key, x, i + 1);
    }
  }

  lemma {:induction false} NormalIndexedStays(key: string, x: Value, i: nat)
    requires x.Array? && i <= |x.items| && WellFormed(x)
    requires forall j :: 0 <= j < |x.items| ==> Normal(x.items[j])
    ensures IndexedMoves(key, x, i) == []
    decreases x, 0, |x.items| - i
  {
    if i < |x.items| {
      NormalStays(x.items[i]);
      NormalIndexedStays(key, x, i + 1);
    }
  }

  lemma {:induction false} NormalKeysStay(v: Value, keys: seq<string>)
    requires v.Object? && WellFormed(v) && Normal(v)
    requires forall i :: 0 <= i < |keys| ==> keys[i] in MAP_KEYS || keys[i] in CHILD_KEYS
    ensures KeysMoves(v, keys) == []
    decreases v, 1, |keys|
  {
    if keys != [] {
      var ms, key := v.members, keys[0];
      if Has(ms, key) {
        var x := ms[Find(ms, key)].1;
        assert NormalMember(key, x) && WellFormed(x);
        NormalKeyStays(key, x, v);
      }
      assert KeyMoves(v, key) == [];
      NormalKeysStay(v, keys[1..]);
    }
  }

  lemma {:induction false} NormalKeyStays(key: string, x: Value, v: Value)
    requires v.Object? && Has(v.members, key) && x == v.members[Find(v.members, key)].1
    requires WellFormed(x) && NormalMember(key, x) && (key in MAP_KEYS || key in CHILD_KEYS)
    ensures KeyMoves(v, key) == []
    decreases x, 3
  {
    if key in MAP_KEYS {
      if x.Object? {
        NormalNamedStays(v.members, key, x, 0);
      }
    } else if x.Array? {
      NormalIndexedStays(key, x, 0);
    } else {
      NormalStays(x);
    }
  }

  /** The rewrite records no moves in a normal form. */
  lemma {:induction false} NormalStays(v: Value)
    requires WellFormed(v) && Normal(v)
    ensures Moves(v) == []
    decreases v, 2
  {
    if v.Object? {
      var ms := v.members;
      forall j | 0 <= j < |Properties(ms)|
        ensures !IsOptional(ms, Properties(ms)[j].0)
      {
        NothingOptional(ms, j);
      }
      NoOptionalNames(ms, Properties(ms));
      NormalKeysStay(v, MAP_KEYS);
      NormalKeysStay(v, CHILD_KEYS);
    }
  }

  // ----- Repairing references keeps the normal form

  lemma RefsKeepKind(ms: Members, moves: seq<string>)
    ensures IsObjectSchema(RewriteRefs(Object(ms), moves).members) == IsObjectSchema(ms)
  {
    AnyOfIsChildKey();
    PropertiesKey();
    LookupRefs(ms, "type", moves);
    LookupRefs(ms, "properties", moves);
    hide RewriteRefs;
  }

  lemma RefsKeepNormalHere(ms: Members, moves: seq<string>)
    requires NormalHere(ms)
    ensures NormalHere(RewriteRefs(Object(ms), moves).members)
  {
    PropertiesKey();
    RefsKeepKind(ms, moves);
    LookupRefs(ms, "propertyNames", moves);
    LookupRefs(ms, "additionalProperties", moves);
    LookupRefs(ms, "required", moves);
    LookupRefs(ms, "properties", moves);
    hide RewriteRefs, IsObjectSchema;
    assert RewriteRefs(Bool(false), moves) == Bool(false) by { FalseStays(moves); }
    if Has(ms, "properties") && Lookup(ms, "properties").value.Object? {
      assert Names(RefMember("properties", Object(Properties(ms)), moves).members) == Names(Properties(ms));
    }
  }

  lemma FalseStays(moves: seq<string>)
    ensures RewriteRefs(Bool(false), moves) == Bool(false)
  {
  }

  lemma {:induction false} RefsKeepNormal(v: Value, moves: seq<string>)
    requires Normal(v)
    ensures Normal(RewriteRefs(v, moves))
    decreases v, 0
  {
    if v.Object? {
      var ms := v.members;
      RefsKeepNormalHere(ms, moves);
      forall i | 0 <= i < |ms|
        ensures NormalMember(ms[i].0, RefMember(ms[i].0, ms[i].1, moves))
      {
        RefsKeepNormalMember(ms[i].0, ms[i].1, moves);
      }
    }
  }

  lemma {:induction false} RefsKeepNormalMember(key: string, x: Value, moves: seq<string>)
    requires NormalMember(key, x)
    ensures NormalMember(key, RefMember(key, x, moves))
    decreases x, 1
  {
    if key in MAP_KEYS && x.Object? {
      forall i | 0 <= i < |x.members|
        ensures Normal(RewriteRefs(x.members[i].1, moves))
      {
        RefsKeepNormal(x.members[i].1, moves);
      }
    } else if key in CHILD_KEYS && x.Array? {
      forall i | 0 <= i < |x.items|
        ensures Normal(RewriteRefs(x.items[i], moves))
      {
        RefsKeepNormal(x.items[i], moves);
      }
    } else if key in CHILD_KEYS {
      RefsKeepNormal(x, moves);
      RefsKeepShape(x, moves);
    }
  }

  // ----- Keys stay distinct

  lemma {:induction false} RefsKeepWellFormed(v: Value, moves: seq<string>)
    requires WellFormed(v)
    ensures WellFormed(RewriteRefs(v, moves))
    decreases v, 0
  {
    if v.Object? {
      var ms := v.members;
      LookupMapped(ms, RewriteRefs(v, moves).members, "");
      forall i | 0 <= i < |ms|
        ensures WellFormed(RefMember(ms[i].0, ms[i].1, moves))
      {
        var key, x := ms[i].0, ms[i].1;
        if key in REF_KEYS && x.String? {
        } else if key in MAP_KEYS && x.Object? {
          LookupMapped(x.members, RefMember(key, x, moves).members, "");
          forall j | 0 <= j < |x.members|
            ensures WellFormed(RewriteRefs(x.members[j].1, moves))
          {
            RefsKeepWellFormed(x.members[j].1, moves);
          }
        } else if key in CHILD_KEYS && x.Array? {
          forall j | 0 <= j < |x.items|
            ensures WellFormed(RewriteRefs(x.items[j], moves))
          {
            RefsKeepWellFormed(x.items[j], moves);
          }
        } else if key in CHILD_KEYS {
          RefsKeepWellFormed(x, moves);
        }
      }
    }
  }

  lemma NullableWellFormed(v: Value)
    requires WellFormed(v)
    ensures WellFormed(Nullable(v))
  {
  }

  lemma {:induction false} StrictMemberWellFormed(ms: Members, key: string, x: Value)
    requires WellFormed(x)
    ensures WellFormed(StrictMember(ms, key, x))
    decreases x, 1
  {
    if key in MAP_KEYS && x.Object? {
      LookupMapped(x.members, StrictMember(ms, key, x).members, "");
      forall j | 0 <= j < |x.members|
        ensures WellFormed(StrictChild(ms, key, x.members[j].0, x.members[j].1))
      {
        StrictWellFormed(x.members[j].1);
        NullableWellFormed(Strict(x.members[j].1));
      }
    } else if key in CHILD_KEYS && key !in MAP_KEYS && x.Array? {
      forall j | 0 <= j < |x.items|
        ensures WellFormed(Strict(x.items[j]))
      {
        StrictWellFormed(x.items[j]);
      }
    } else if key in CHILD_KEYS {
      StrictWellFormed(x);
    }
  }

  lemma {:induction false} StrictWellFormed(v: Value)
    requires WellFormed(v)
    ensures WellFormed(Strict(v))
    decreases v, 0
  {
    if v.Object? {
      var ms := v.members;
      var r := Strict(v).members;
      LookupStrict(ms, "");
      forall i | 0 <= i < |r|
        ensures WellFormed(r[i].1)
      {
        LookupStrict(ms, r[i].0);
        FindAt(r, i);
        if Has(ms, r[i].0) {
          StrictMemberWellFormed(ms, r[i].0, ms[Find(ms, r[i].0)].1);
        }
      }
    }
  }

  /** The rewritten schema is in normal form; applying the transform to it again changes
      nothing and records no moves. */
  lemma RepairedIsFixed(v: Value)
    requires WellFormed(v)
    ensures Normal(Repaired(v)) && WellFormed(Repaired(v))
    ensures Strict(Repaired(v)) == Repaired(v) && Moves(Repaired(v)) == []
  {
    hide Strict, RewriteRefs, Moves, Normal;
    StrictIsNormal(v);
    StrictWellFormed(v);
    RefsKeepNormal(Strict(v), Texts(Moves(v)));
    RefsKeepWellFormed(Strict(v), Texts(Moves(v)));
    NormalFixed(Repaired(v));
    NormalStays(Repaired(v));
  }
}

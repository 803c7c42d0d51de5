/** Which keywords strict mode can keep beside alternatives, whatever these are: exactly those
    that tell no two instances apart by the members of objects. */
module TellingApart {
  import opened Options
  import opened JsonValues
  import opened StrictSchema
  import opened SchemaMeaning
  import opened StrictMeaning
  import opened StrictLimits

  /** The schema accepts only one of two instances that differ in the members of objects. */
  ghost predicate TellsApart(d: Dialect, s: Value) {
    exists y, x :: WellFormed(y) && WellFormed(x) && SameOutline(y, x) && Valid(d, s, y, true) && !Valid(d, s, x, true)
  }

  // ----- Accepting without looking at members

  /** The schema accepts an instance, whatever the members of its objects. */
  ghost predicate Overlooks(d: Dialect, s: Value, x: Value)
    decreases s
  {
    match s
    case Bool(b) => b
    case Object(ms) =>
      var i, k := Find(ms, "items"), Find(ms, "anyOf");
      && PlainAllows(d, ms, x) && (x.Object? ==> HostSkipsMembers(ms))
      && (x.Array? && i < |ms| ==> forall j :: 0 <= j < |x.items| ==> Overlooks(d, ms[i].1, x.items[j]))
      && (k < |ms| && ms[k].1.Array? ==>
            exists j :: 0 <= j < |ms[k].1.items| && Overlooks(d, ms[k].1.items[j], x))
    case _ => false
  }

  /** Where the item schema and the alternatives stand. */
  lemma PartsAre(ms: Members)
    requires HostCovered(Object(ms))
    ensures var i, k := Find(ms, "items"), Find(ms, "anyOf");
      && (i < |ms| <==> Has(ms, "items")) && (i < |ms| ==> Lookup(ms, "items") == Some(ms[i].1))
      && (k < |ms| <==> Has(ms, "anyOf")) && (k < |ms| ==> ms[k].1.Array? && Branches(ms) == ms[k].1.items)
  {
    hide *;
    BranchesListed(ms);
    FoundAt(ms, "items");
    FoundAt(ms, "anyOf");
    if Has(ms, "anyOf") {
      BranchesFound(ms);
    }
  }

  lemma FoundAt(ms: Members, key: string)
    ensures Find(ms, key) < |ms| <==> Has(ms, key)
    ensures Find(ms, key) < |ms| ==> Lookup(ms, key) == Some(ms[Find(ms, key)].1)
  {
    hide Find;
  }

  lemma BranchesFound(ms: Members)
    requires Find(ms, "anyOf") < |ms| && ms[Find(ms, "anyOf")].1.Array?
    ensures Branches(ms) == ms[Find(ms, "anyOf")].1.items
  {
    hide Find;
  }

  lemma BranchesListed(ms: Members)
    requires HostCovered(Object(ms))
    ensures var k := Find(ms, "anyOf"); k < |ms| ==> ms[k].1.Array?
  {
    hide Covered, KeywordsCovered, PropertiesCovered, ItemSchemaCovered;
  }

  /** The same with keywords looked up. */
  lemma OverlooksIs(d: Dialect, ms: Members, x: Value)
    requires HostCovered(Object(ms))
    ensures Overlooks(d, Object(ms), x) <==>
      && PlainAllows(d, ms, x) && (x.Object? ==> HostSkipsMembers(ms))
      && (x.Array? && Has(ms, "items") ==>
            forall j :: 0 <= j < |x.items| ==> Overlooks(d, Lookup(ms, "items").value, x.items[j]))
      && (Has(ms, "anyOf") ==> exists j :: 0 <= j < |Branches(ms)| && Overlooks(d, Branches(ms)[j], x))
  {
    hide PlainAllows, HostSkipsMembers, HostCovered, Lookup, Branches, Find, Has, Covered, Refuses;
    PartsAre(ms);
  }

  /** What is overlooked depends on the outline only. */
  lemma {:induction false} OverlooksOutline(d: Dialect, s: Value, y: Value, x: Value)
    requires Covered(s) && SameOutline(y, x)
    ensures Overlooks(d, s, y) <==> Overlooks(d, s, x)
    decreases s
  {
    if s.Object? {
      var ms := s.members;
      HostPlain(ms);
      PlainOutline(d, ms, y, x);
      OverlooksIs(d, ms, y);
      OverlooksIs(d, ms, x);
      if x.Array? && Has(ms, "items") {
        ItemsCovered(ms);
        forall j | 0 <= j < |x.items|
          ensures Overlooks(d, Lookup(ms, "items").value, y.items[j]) <==>
            Overlooks(d, Lookup(ms, "items").value, x.items[j])
        {
          OverlooksOutline(d, Lookup(ms, "items").value, y.items[j], x.items[j]);
        }
      }
      forall j | 0 <= j < |Branches(ms)|
        ensures Overlooks(d, Branches(ms)[j], y) <==> Overlooks(d, Branches(ms)[j], x)
      {
        BranchCovered(ms, j);
        OverlooksOutline(d, Branches(ms)[j], y, x);
      }
      hide Overlooks, PlainAllows, Covered, HostCovered, HostSkipsMembers, Lookup, Has, Branches;
    } else {
      hide SameOutline;
    }
  }

  /** What a schema accepts of closed instances, or its strict form of any. */
  ghost predicate Accepts(d: Dialect, s: Value, x: Value, strict: bool) {
    if strict then Valid(d, Strict(s), x, false) else Valid(d, s, x, true)
  }

  ghost predicate MembersFitForm(d: Dialect, ms: Members, x: Value, strict: bool) {
    if strict then Strict(Object(ms)).Object? && MembersAllow(d, Strict(Object(ms)), x, false)
    else MembersAllow(d, Object(ms), x, true)
  }

  lemma AcceptsIs(d: Dialect, ms: Members, x: Value, strict: bool)
    requires HostCovered(Object(ms))
    ensures Accepts(d, Object(ms), x, strict) <==>
      && PlainAllows(d, ms, x) && MembersFitForm(d, ms, x, strict)
      && (x.Array? && Has(ms, "items") ==>
            forall j :: 0 <= j < |x.items| ==> Accepts(d, Lookup(ms, "items").value, x.items[j], strict))
      && (Has(ms, "anyOf") ==> exists j :: 0 <= j < |Branches(ms)| && Accepts(d, Branches(ms)[j], x, strict))
  {
    hide *;
    StrictObject(ms);
    var s := if strict then Strict(Object(ms)) else Object(ms);
    ValidIs(d, s, x, !strict);
    StrictPlain(d, ms, x);
    ItemsAccepted(d, ms, x, strict);
    SomeAccepted(d, ms, x, strict);
    HostIs(d, s, x, !strict);
    FormIs(d, ms, x, strict);
  }

  lemma HostIs(d: Dialect, s: Value, x: Value, closed: bool)
    requires s.Object?
    ensures HostAllows(d, s, x, closed) <==>
      PlainAllows(d, s.members, x) && MembersAllow(d, s, x, closed) && ItemsAllow(d, s, x, closed)
  {
    hide PlainAllows, MembersAllow, ItemsAllow;
  }

  lemma FormIs(d: Dialect, ms: Members, x: Value, strict: bool)
    requires Strict(Object(ms)).Object?
    ensures var s := if strict then Strict(Object(ms)) else Object(ms);
      && Accepts(d, Object(ms), x, strict) == Valid(d, s, x, !strict)
      && MembersFitForm(d, ms, x, strict) == MembersAllow(d, s, x, !strict)
  {
    hide Valid, MembersAllow, Strict;
  }

  lemma ItemsAccepted(d: Dialect, ms: Members, x: Value, strict: bool)
    requires HostCovered(Object(ms))
    ensures Strict(Object(ms)).Object?
    ensures ItemsAllow(d, if strict then Strict(Object(ms)) else Object(ms), x, !strict) <==>
      (x.Array? && Has(ms, "items") ==>
         forall j :: 0 <= j < |x.items| ==> Accepts(d, Lookup(ms, "items").value, x.items[j], strict))
  {
    StrictObject(ms);
    if x.Array? && Has(ms, "items") {
      StrictItems(d, ms, x.items);
      assert Lookup(ms, "items") == Some(ms[Find(ms, "items")].1);
    } else {
      PlainItemsAgree(d, ms, x);
    }
    hide Strict, HostCovered, Valid;
  }

  lemma SomeAccepted(d: Dialect, ms: Members, x: Value, strict: bool)
    requires HostCovered(Object(ms))
    ensures Strict(Object(ms)).Object?
    ensures SomeAllows(d, if strict then Strict(Object(ms)) else Object(ms), x, !strict) <==>
      (Has(ms, "anyOf") ==> exists j :: 0 <= j < |Branches(ms)| && Accepts(d, Branches(ms)[j], x, strict))
  {
    StrictObject(ms);
    hide HostCovered, Strict, Valid, SomeAllows, Branches;
    if Has(ms, "anyOf") {
      SomeIs(d, ms, x);
      SomeStrict(d, ms, x);
    } else {
      BareStrict(ms);
      NoAlternatives(d, ms, x, true);
      NoAlternatives(d, Strict(Object(ms)).members, x, false);
    }
  }

  /** Keywords that say nothing about members allow any. */
  lemma SkippedFit(d: Dialect, ms: Members, x: Value, strict: bool)
    requires HostCovered(Object(ms)) && PlainAllows(d, ms, x) && (x.Object? ==> HostSkipsMembers(ms))
    ensures MembersFitForm(d, ms, x, strict)
  {
    MembersAgree(d, ms, x, x);
    hide HostCovered, PlainAllows, HostSkipsMembers, MembersAllow, Strict;
  }

  /** What a schema overlooks it accepts, and so does its strict form. */
  lemma {:induction false} OverlookedIsAccepted(d: Dialect, s: Value, x: Value, strict: bool)
    requires Covered(s) && Overlooks(d, s, x)
    ensures Accepts(d, s, x, strict)
    decreases s
  {
    if s.Object? {
      var ms := s.members;
      OverlooksIs(d, ms, x);
      if x.Array? && Has(ms, "items") {
        ItemsCovered(ms);
        forall j | 0 <= j < |x.items|
          ensures Accepts(d, Lookup(ms, "items").value, x.items[j], strict)
        {
          OverlookedIsAccepted(d, Lookup(ms, "items").value, x.items[j], strict);
        }
      }
      if Has(ms, "anyOf") {
        var j :| 0 <= j < |Branches(ms)| && Overlooks(d, Branches(ms)[j], x);
        BranchCovered(ms, j);
        OverlookedIsAccepted(d, Branches(ms)[j], x, strict);
      }
      hide Overlooks, PlainAllows, HostCovered, HostSkipsMembers, Accepts, MembersFitForm, Branches, Lookup, Has;
      SkippedFit(d, ms, x, strict);
      AcceptsIs(d, ms, x, strict);
    }
  }

  // ----- Instances in which every object holds an undeclared member

  /** Every object, down to those in arrays, holds a member of this name. */
  predicate Marked(x: Value, name: string)
    decreases x
  {
    match x
    case Array(xs) => forall i :: 0 <= i < |xs| ==> Marked(xs[i], name)
    case Object(ms) => Has(ms, name)
    case _ => true
  }

  /** The same outline, with one member in every object. */
  function Mark(x: Value, name: string): Value
    decreases x
  {
    match x
    case Array(xs) => Array(seq(|xs|, i requires 0 <= i < |xs| => Mark(xs[i], name)))
    case Object(_) => Object([(name, Null)])
    case _ => x
  }

  lemma {:induction false} MarkMarks(x: Value, name: string)
    ensures Marked(Mark(x, name), name) && SameOutline(x, Mark(x, name)) && WellFormed(Mark(x, name))
    decreases x
  {
    match x
    case Array(xs) =>
      forall i | 0 <= i < |xs|
        ensures Marked(Mark(xs[i], name), name) && SameOutline(xs[i], Mark(xs[i], name)) &&
          WellFormed(Mark(xs[i], name))
      {
        MarkMarks(xs[i], name);
      }
    case Object(_) =>
      assert [(name, Null)][0].0 == name;
    case _ =>
  }

  /** Declared names that members of instances are held against are shorter than `n`. */
  predicate NamesWithin(s: Value, n: nat)
    decreases s
  {
    match s
    case Object(ms) =>
      var i, k := Find(ms, "items"), Find(ms, "anyOf");
      && (forall j :: 0 <= j < |Properties(ms)| ==> |Properties(ms)[j].0| < n)
      && (i < |ms| ==> NamesWithin(ms[i].1, n))
      && (k < |ms| && ms[k].1.Array? ==> forall j :: 0 <= j < |ms[k].1.items| ==> NamesWithin(ms[k].1.items[j], n))
    case _ => true
  }

  lemma {:induction false} NamesWithinMore(s: Value, n: nat, m: nat)
    requires NamesWithin(s, n) && n <= m
    ensures NamesWithin(s, m)
    decreases s
  {
    if s.Object? {
      var ms := s.members;
      var i, k := Find(ms, "items"), Find(ms, "anyOf");
      hide Properties;
      if i < |ms| {
        NamesWithinMore(ms[i].1, n, m);
      }
      if k < |ms| && ms[k].1.Array? {
        forall j | 0 <= j < |ms[k].1.items|
          ensures NamesWithin(ms[k].1.items[j], m)
        {
          NamesWithinMore(ms[k].1.items[j], n, m);
        }
      }
    }
  }

  lemma SomeBound(s: Value) returns (n: nat)
    ensures NamesWithin(s, n)
    decreases s, 1
  {
    n := 0;
    if s.Object? {
      var ms := s.members;
      var i, k := Find(ms, "items"), Find(ms, "anyOf");
      var c, b := 0, 0;
      if i < |ms| {
        c := SomeBound(ms[i].1);
      }
      if k < |ms| && ms[k].1.Array? {
        b := SomeBoundOfAll(ms[k].1.items);
      }
      n := |Longer(Properties(ms))| + c + b;
      hide Properties, Longer;
      if i < |ms| {
        NamesWithinMore(ms[i].1, c, n);
      }
      if k < |ms| && ms[k].1.Array? {
        forall j | 0 <= j < |ms[k].1.items|
          ensures NamesWithin(ms[k].1.items[j], n)
        {
          NamesWithinMore(ms[k].1.items[j], b, n);
        }
      }
    }
  }

  lemma SomeBoundOfAll(items: seq<Value>) returns (n: nat)
    ensures forall j :: 0 <= j < |items| ==> NamesWithin(items[j], n)
    decreases items, 0
  {
    n := 0;
    if items != [] {
      var first := SomeBound(items[0]);
      var rest := SomeBoundOfAll(items[1..]);
      n := first + rest;
      hide NamesWithin;
      forall j | 0 <= j < |items|
        ensures NamesWithin(items[j], n)
      {
        if j == 0 {
          NamesWithinMore(items[0], first, n);
        } else {
          assert items[j] == items[1..][j - 1];
          NamesWithinMore(items[j], rest, n);
        }
      }
    }
  }

  /** A name that the schema declares for no object it is held against. */
  lemma UndeclaredName(s: Value) returns (name: string)
    ensures NamesWithin(s, |name|)
  {
    var n := SomeBound(s);
    name := seq(n, _ => 'a');
  }

  lemma NamesWithinParts(ms: Members, n: nat)
    requires NamesWithin(Object(ms), n) && HostCovered(Object(ms))
    ensures Has(ms, "items") ==> NamesWithin(Lookup(ms, "items").value, n)
    ensures forall j :: 0 <= j < |Branches(ms)| ==> NamesWithin(Branches(ms)[j], n)
    ensures forall name :: |name| >= n ==> !Has(Properties(ms), name)
  {
    PartsAre(ms);
    hide HostCovered, Properties, Branches, Lookup;
  }

  /** Object schemas that look at members refuse an undeclared one. */
  lemma MarkedFit(d: Dialect, ms: Members, x: Value, name: string, strict: bool)
    requires HostCovered(Object(ms)) && Accepts(d, Object(ms), x, strict) && x.Object? && Has(x.members, name)
    requires !Has(Properties(ms), name)
    ensures HostSkipsMembers(ms)
  {
    AcceptsIs(d, ms, x, strict);
    hide HostCovered, IsObjectSchema, ForbidsOthers, PlainAllows, Refuses, Valid, Strict, Properties, MembersAllow, Has;
    if IsObjectSchema(ms) || ForbidsOthers(ms) {
      if strict {
        ForbiddenMember(d, ms, name, x.members);
      } else {
        UndeclaredMember(d, ms, name, x.members);
      }
    }
  }

  lemma UndeclaredMember(d: Dialect, ms: Members, name: string, x: Members)
    requires (IsObjectSchema(ms) || ForbidsOthers(ms)) && !Has(Properties(ms), name)
    requires MembersAllow(d, Object(ms), Object(x), true)
    ensures !Has(x, name)
  {
    hide Properties, IsObjectSchema, ForbidsOthers, Valid;
    forall j | 0 <= j < |x|
      ensures x[j].0 != name
    {
    }
  }

  /** What a schema or its strict form accepts although each object holds an undeclared member, it
      overlooks. */
  lemma {:induction false} MarkedIsOverlooked(d: Dialect, s: Value, x: Value, name: string, strict: bool)
    requires Covered(s) && NamesWithin(s, |name|) && Marked(x, name) && Accepts(d, s, x, strict)
    ensures Overlooks(d, s, x)
    decreases s
  {
    if s.Object? {
      var ms := s.members;
      AcceptsIs(d, ms, x, strict);
      NamesWithinParts(ms, |name|);
      if x.Array? && Has(ms, "items") {
        ItemsCovered(ms);
        forall j | 0 <= j < |x.items|
          ensures Overlooks(d, Lookup(ms, "items").value, x.items[j])
        {
          MarkedIsOverlooked(d, Lookup(ms, "items").value, x.items[j], name, strict);
        }
      }
      if Has(ms, "anyOf") {
        var j :| 0 <= j < |Branches(ms)| && Accepts(d, Branches(ms)[j], x, strict);
        BranchCovered(ms, j);
        MarkedIsOverlooked(d, Branches(ms)[j], x, name, strict);
      }
      hide Overlooks, PlainAllows, HostCovered, HostSkipsMembers, Accepts, MembersFitForm, Branches, Lookup, Properties;
      if x.Object? {
        MarkedFit(d, ms, x, name, strict);
      }
      OverlooksIs(d, ms, x);
    }
  }

  // ----- Where every list of alternatives keeps its meaning

  /** A schema that tells nothing apart overlooks all it accepts. */
  lemma AcceptedIsOverlooked(d: Dialect, s: Value, y: Value)
    requires Covered(s) && !TellsApart(d, s) && WellFormed(y) && Valid(d, s, y, true)
    ensures Overlooks(d, s, y)
  {
    var name := UndeclaredName(s);
    var z := Mark(y, name);
    MarkMarks(y, name);
    hide Mark, Marked, Valid, WellFormed, SameOutline, Covered, NamesWithin;
    assert Valid(d, s, z, true);
    MarkedIsOverlooked(d, s, z, name, false);
    OverlooksOutline(d, s, y, z);
  }

  /** Such a schema agrees with its strict form. */
  lemma AlikeAgrees(d: Dialect, s: Value)
    requires Covered(s) && !TellsApart(d, s)
    ensures Agrees(d, s)
  {
    hide Covered, Valid, Strict, Overlooks, WellFormed, AddsNulls, SameOutline, TellsApart;
    forall y, x | WellFormed(y) && WellFormed(x) && AddsNulls(y, x)
      ensures Valid(d, s, y, true) <==> Valid(d, Strict(s), x, false)
    {
      AddsToOutline(y, x);
      OverlooksOutline(d, s, y, x);
      if Valid(d, s, y, true) {
        AcceptedIsOverlooked(d, s, y);
        OverlookedIsAccepted(d, s, x, true);
      }
      if Valid(d, Strict(s), x, false) {
        var z := ComesFrom(d, s, x);
        AcceptedIsOverlooked(d, s, z);
        AddsToOutline(z, x);
        OverlooksOutline(d, s, z, x);
        OverlookedIsAccepted(d, s, y, false);
      }
    }
  }

  // ----- Where some alternative loses its meaning

  /** Properties that hold any value. */
  predicate AllTrue(ps: Members) {
    Distinct(ps) && forall i :: 0 <= i < |ps| ==> ps[i].1 == Bool(true)
  }

  /** Arrays nest less than `n` deep, and objects down there hold these members only. */
  predicate Declares(ps: Members, x: Value, n: nat)
    decreases x
  {
    n > 0 &&
    match x
    case Array(xs) => forall i :: 0 <= i < |xs| ==> Declares(ps, xs[i], n - 1)
    case Object(ms) => forall i :: 0 <= i < |ms| ==> Has(ps, ms[i].0)
    case _ => true
  }

  ghost predicate Includes(ps: Members, qs: Members) {
    forall key :: Has(qs, key) ==> Has(ps, key)
  }

  lemma {:induction false} DeclaresMore(ps: Members, qs: Members, x: Value, n: nat, m: nat)
    requires Declares(qs, x, n) && Includes(ps, qs) && n <= m
    ensures Declares(ps, x, m)
    decreases x
  {
    hide Has;
    if x.Array? {
      forall i | 0 <= i < |x.items|
        ensures Declares(ps, x.items[i], m - 1)
      {
        DeclaresMore(ps, qs, x.items[i], n - 1, m - 1);
      }
    }
  }

  /** Declares one name more. */
  lemma AddName(qs: Members, name: string) returns (ps: Members)
    requires AllTrue(qs)
    ensures AllTrue(ps) && Includes(ps, qs) && Has(ps, name)
  {
    ps := qs;
    if !Has(qs, name) {
      ps := qs + [(name, Bool(true))];
      assert ps[|qs|].0 == name;
      assert AllTrue(ps);
      forall key
        ensures Has(qs, key) ==> Has(ps, key)
      {
        FindCat(qs, [(name, Bool(true))], key);
      }
    }
  }

  lemma AddNames(qs: Members, ms: Members) returns (ps: Members)
    requires AllTrue(qs)
    ensures AllTrue(ps) && Includes(ps, qs) && forall i :: 0 <= i < |ms| ==> Has(ps, ms[i].0)
  {
    hide Has, AllTrue;
    ps := qs;
    if ms != [] {
      var rest := AddNames(qs, ms[1..]);
      ps := AddName(rest, ms[0].0);
      assert forall i :: 0 < i < |ms| ==> ms[i] == ms[1..][i - 1];
    }
  }

  /** Declares the members of an instance. */
  lemma Collect(qs: Members, x: Value) returns (ps: Members, n: nat)
    requires AllTrue(qs)
    ensures AllTrue(ps) && Includes(ps, qs) && Declares(ps, x, n)
    decreases x, 1
  {
    ps, n := qs, 1;
    match x
    case Array(xs) =>
      ps, n := CollectAll(qs, xs);
      n := n + 1;
    case Object(ms) =>
      ps := AddNames(qs, ms);
    case _ =>
  }

  lemma CollectAll(qs: Members, xs: seq<Value>) returns (ps: Members, n: nat)
    requires AllTrue(qs)
    ensures AllTrue(ps) && Includes(ps, qs) && forall i :: 0 <= i < |xs| ==> Declares(ps, xs[i], n)
    decreases xs, 0
  {
    ps, n := qs, 0;
    if xs != [] {
      var rs, m := CollectAll(qs, xs[1..]);
      var k: nat;
      ps, k := Collect(rs, xs[0]);
      n := k + m;
      hide Has, AllTrue, Declares;
      DeclaresMore(ps, ps, xs[0], k, n);
      forall i | 0 < i < |xs|
        ensures Declares(ps, xs[i], n)
      {
        assert xs[i] == xs[1..][i - 1];
        DeclaresMore(ps, rs, xs[i], m, n);
      }
    }
  }

  /** A schema that declares these properties for objects and for those in arrays. */
  function Demands(ps: Members, n: nat): Value {
    if n == 0 then Bool(true)
    else Object([("properties", Object(ps)), ("items", Demands(ps, n - 1))])
  }

  lemma DemandsAre(ps: Members, n: nat)
    requires n > 0
    ensures Demands(ps, n).Object?
    ensures var bs := Demands(ps, n).members;
      && Lookup(bs, "properties") == Some(Object(ps)) && Lookup(bs, "items") == Some(Demands(ps, n - 1))
      && Distinct(bs) && IsObjectSchema(bs) && Properties(bs) == ps
      && forall key :: Has(bs, key) <==> key == "properties" || key == "items"
  {
    var bs := Demands(ps, n).members;
    var c := Demands(ps, n - 1);
    assert bs == [("properties", Object(ps)), ("items", c)];
    hide Lookup, Has, Distinct, Demands;
    forall key
      ensures Lookup(bs, key) == if key == "properties" then Some(Object(ps)) else if key ==
        "items" then Some(c) else None
      ensures Has(bs, key) <==> key == "properties" || key == "items"
    {
      LookupPair("properties", Object(ps), "items", c, key);
      HasIs(bs, key);
    }
    LookupPair("properties", Object(ps), "items", c, "type");
    assert Lookup(bs, "type").None?;
  }

  lemma {:induction false} DemandsCovered(ps: Members, n: nat)
    requires AllTrue(ps)
    ensures Covered(Demands(ps, n)) && (n > 0 ==> HostCovered(Demands(ps, n)))
  {
    if n > 0 {
      var bs := Demands(ps, n).members;
      DemandsCovered(ps, n - 1);
      DemandsAre(ps, n);
      OnlyHolding(bs);
      assert !Demands(ps, n - 1).Array?;
      hide Demands, Covered, KeywordsCovered, IsObjectSchema, Lookup, Properties, Refuses, AllowsLength;
      DemandedCovered(bs, ps, Demands(ps, n - 1));
      BareCovered(bs);
    }
  }

  lemma DemandedCovered(bs: Members, ps: Members, c: Value)
    requires KeywordsCovered(bs) && Lookup(bs, "properties") == Some(Object(ps)) && Lookup(bs, "items") == Some(c)
    requires !Has(bs, "anyOf") && AllTrue(ps) && Covered(c) && !c.Array?
    ensures HostCovered(Object(bs))
  {
    assert Covered(Bool(true));
    hide Covered, KeywordsCovered, Distinct;
    assert PropertiesCovered(Object(bs)) by { assert bs[Find(bs, "properties")].1 == Object(ps); }
    assert ItemSchemaCovered(Object(bs)) by { assert bs[Find(bs, "items")].1 == c; }
    assert BranchesCovered(Object(bs));
  }

  /** The demands accept what they declare. */
  lemma {:induction false} DemandsAccept(d: Dialect, ps: Members, n: nat, y: Value)
    requires AllTrue(ps) && Declares(ps, y, n)
    ensures Valid(d, Demands(ps, n), y, true)
    decreases n
  {
    var bs := Demands(ps, n).members;
    DemandsAre(ps, n);
    DemandsCovered(ps, n);
    OnlyHolding(bs);
    if y.Array? {
      forall i | 0 <= i < |y.items|
        ensures Valid(d, Demands(ps, n - 1), y.items[i], true)
      {
        DemandsAccept(d, ps, n - 1, y.items[i]);
      }
    }
    hide Demands, Valid, Covered, HostCovered, IsObjectSchema, KeywordsCovered, AllowsLength, Refuses, Lookup;
    DemandedPlain(d, bs, y);
    DemandedFit(d, bs, ps, y);
    AcceptsIs(d, bs, y, false);
  }

  lemma DemandedPlain(d: Dialect, bs: Members, y: Value)
    requires forall key :: Has(bs, key) <==> key == "properties" || key == "items"
    ensures PlainAllows(d, bs, y)
  {
    assert "properties" in STRUCTURE && "items" in STRUCTURE;
    hide PlainAllows, STRUCTURE;
    forall key | key !in STRUCTURE
      ensures Lookup(bs, key).None?
    {
      HasIs(bs, key);
    }
    NothingPlain(d, bs, y);
  }

  lemma DemandedFit(d: Dialect, bs: Members, ps: Members, y: Value)
    requires Lookup(bs, "properties") == Some(Object(ps)) && Required(bs) == [] && AllTrue(ps)
    requires y.Object? ==> forall i :: 0 <= i < |y.members| ==> Has(ps, y.members[i].0)
    ensures MembersFitForm(d, bs, y, false)
  {
    assert forall value :: Valid(d, Bool(true), value, true);
    assert Properties(bs) == ps;
    assert Lookup(bs, "properties") == Some(bs[Find(bs, "properties")].1);
    hide IsObjectSchema, Required, Valid, Properties, Distinct, ForbidsOthers, Lookup;
    assert MembersAllow(d, Object(bs), y, true);
  }

  /** What the strict form of the demands accepts holds what they declare. */
  lemma {:induction false} DemandsMark(d: Dialect, ps: Members, n: nat, name: string, y: Value, x: Value)
    requires AllTrue(ps) && Has(ps, name) && Declares(ps, y, n) && SameOutline(y, x)
    requires Valid(d, Strict(Demands(ps, n)), x, false)
    ensures Marked(x, name)
    decreases n
  {
    var bs := Demands(ps, n).members;
    DemandsAre(ps, n);
    DemandsCovered(ps, n);
    AcceptsIs(d, bs, x, true);
    if x.Array? {
      forall i | 0 <= i < |x.items|
        ensures Marked(x.items[i], name)
      {
        assert Accepts(d, Demands(ps, n - 1), x.items[i], true);
        DemandsMark(d, ps, n - 1, name, y.items[i], x.items[i]);
      }
    } else if x.Object? {
      hide Demands, Valid, Strict, HostCovered, IsObjectSchema;
      DemandedMember(d, bs, name, x.members);
    }
  }

  /** A schema that tells instances apart is in conflict with another. */
  lemma TellingConflicts(d: Dialect, s: Value) returns (other: Value, y: Value)
    requires Covered(s) && TellsApart(d, s)
    ensures Conflicts(d, s, other, y)
  {
    var z: Value;
    hide Valid, Covered, Strict, WellFormed, SameOutline, AddsNulls, Overlooks;
    y, z :| WellFormed(y) && WellFormed(z) && SameOutline(y, z) && Valid(d, s, y, true) && !Valid(d, s, z, true);
    var name := UndeclaredName(s);
    var qs := AddName([], name);
    var ps, n := Collect(qs, y);
    other := Demands(ps, n);
    hide Demands, Declares, Marked, Has, AllTrue, NamesWithin;
    DemandsCovered(ps, n);
    DemandsAccept(d, ps, n, y);
    forall x | AddsNulls(y, x)
      ensures !(Valid(d, Strict(s), x, false) && Valid(d, Strict(other), x, false))
    {
      AddsToOutline(y, x);
      if Valid(d, Strict(s), x, false) && Valid(d, Strict(other), x, false) {
        DemandsMark(d, ps, n, name, y, x);
        MarkedIsOverlooked(d, s, x, name, true);
        OverlooksOutline(d, s, y, x);
        OverlooksOutline(d, s, y, z);
        OverlookedIsAccepted(d, s, z, false);
      }
    }
  }

  /** Every list of alternatives keeps its meaning beside these keywords if and only if they tell no
      two instances apart by the members of objects, whatever alternatives their item schemas hold. */
  lemma AlternativesKeepMeaning(d: Dialect, ms: Members)
    requires HostCovered(Object(ms)) && !Has(ms, "anyOf")
    ensures (forall branches :: AllCovered(branches) ==> KeepsMeaning(d, WithAlternatives(ms, branches)))
      <==> !TellsApart(d, Object(ms))
  {
    BareCovered(ms);
    hide HostCovered, Covered, Has, TellsApart, Agrees, WithAlternatives, KeepsMeaning, Conflicts;
    if TellsApart(d, Object(ms)) {
      var other, y := TellingConflicts(d, Object(ms));
      ConflictLosesMeaning(d, ms, other, y);
    } else {
      AlikeAgrees(d, Object(ms));
      forall branches | AllCovered(branches)
        ensures KeepsMeaning(d, WithAlternatives(ms, branches))
      {
        AgreeingKeeps(d, ms, branches);
      }
    }
  }

  // ----- Keywords whose item schemas hold no alternatives

  /** Neither the schema nor its item schemas, at any depth, hold alternatives. */
  predicate WithoutAlternatives(s: Value)
    decreases s
  {
    s.Object? ==>
      var i := Find(s.members, "items");
      !Has(s.members, "anyOf") && (i < |s.members| ==> WithoutAlternatives(s.members[i].1))
  }

  /** The schema restricts the members of objects and accepts one. */
  ghost predicate JudgesObjects(d: Dialect, s: Value)
    requires s.Object?
  {
    !HostSkipsMembers(s.members) && exists y :: WellFormed(y) && y.Object? && Valid(d, s, y, true)
  }

  /** The schema, or that of the items of arrays it accepts, does. */
  ghost predicate Judges(d: Dialect, s: Value)
    decreases s
  {
    s.Object? &&
    (|| JudgesObjects(d, s)
     || (var i := Find(s.members, "items");
         i < |s.members| && !Refuses(s.members, "array") && HoldsItems(s.members) && Judges(d, s.members[i].1)))
  }

  /** An array of one value, so many times. */
  function Copies(z: Value, n: nat): Value {
    Array(seq(n, _ => z))
  }

  lemma CopiesAre(y: Value, x: Value, n: nat)
    requires WellFormed(y) && WellFormed(x) && SameOutline(y, x)
    ensures WellFormed(Copies(y, n)) && WellFormed(Copies(x, n)) && SameOutline(Copies(y, n), Copies(x, n))
  {
  }

  /** An array of copies is accepted if and only if the item is. */
  lemma CopiesAccepted(d: Dialect, ms: Members, z: Value, n: nat)
    requires HostCovered(Object(ms)) && !Has(ms, "anyOf") && Has(ms, "items") && !Refuses(ms, "array")
    requires n > 0 && AllowsLength(ms, n)
    ensures Valid(d, Object(ms), Copies(z, n), true) <==> Valid(d, Lookup(ms, "items").value, z, true)
  {
    var y := Copies(z, n);
    HostPlain(ms);
    UnrefusedIs(d, ms, y);
    AcceptsIs(d, ms, y, false);
    hide PlainAllows, HostCovered, Refuses, AllowsLength, Valid;
    assert MembersFitForm(d, ms, y, false);
    assert y.items[0] == z;
  }

  lemma {:induction false} JudgingTells(d: Dialect, s: Value)
    requires Covered(s) && WithoutAlternatives(s) && Judges(d, s)
    ensures TellsApart(d, s)
    decreases s
  {
    var ms := s.members;
    if JudgesObjects(d, s) {
      ObjectsToldApart(d, ms);
    } else {
      var c, n := Lookup(ms, "items").value, LeastLength(ms);
      ItemsCovered(ms);
      JudgingTells(d, c);
      hide Valid, Covered, HostCovered, WellFormed, SameOutline, Copies, Refuses, LeastLength;
      var y, x :| WellFormed(y) && WellFormed(x) && SameOutline(y, x) && Valid(d, c, y, true) && !Valid(d, c, x, true);
      CopiesAre(y, x, n);
      CopiesAccepted(d, ms, y, n);
      CopiesAccepted(d, ms, x, n);
      assert SameOutline(Copies(y, n), Copies(x, n));
    }
  }

  lemma ObjectsToldApart(d: Dialect, ms: Members)
    requires Covered(Object(ms)) && JudgesObjects(d, Object(ms))
    ensures TellsApart(d, Object(ms))
  {
    var s := Object(ms);
    assert HostCovered(s);
    hide Valid, Covered, WellFormed, SameOutline, HostSkipsMembers, NamesWithin, Overlooks;
    var y :| WellFormed(y) && y.Object? && Valid(d, s, y, true);
    var name := UndeclaredName(s);
    var z := Mark(y, name);
    MarkMarks(y, name);
    if Valid(d, s, z, true) {
      MarkedIsOverlooked(d, s, z, name, false);
      OverlooksIs(d, ms, z);
    }
  }

  /** Without alternatives, a schema that does not judge objects overlooks all it accepts. */
  lemma {:induction false} UnjudgedIsOverlooked(d: Dialect, s: Value, y: Value)
    requires Covered(s) && WithoutAlternatives(s) && !Judges(d, s) && WellFormed(y) && Valid(d, s, y, true)
    ensures Overlooks(d, s, y)
    decreases s
  {
    if s.Object? {
      var ms := s.members;
      AcceptsIs(d, ms, y, false);
      HostPlain(ms);
      RefusedIsNot(d, ms, y);
      if y.Array? && Has(ms, "items") && y.items != [] {
        ItemsCovered(ms);
        LengthHolds(ms, |y.items|);
        forall j | 0 <= j < |y.items|
          ensures Overlooks(d, Lookup(ms, "items").value, y.items[j])
        {
          UnjudgedIsOverlooked(d, Lookup(ms, "items").value, y.items[j]);
        }
      }
      hide Valid, Covered, HostCovered, PlainAllows, Overlooks, HostSkipsMembers;
      OverlooksIs(d, ms, y);
    }
  }

  /** There, telling instances apart is judging objects. */
  lemma JudgingIsTellingApart(d: Dialect, s: Value)
    requires Covered(s) && WithoutAlternatives(s)
    ensures TellsApart(d, s) <==> Judges(d, s)
  {
    hide Valid, Covered, WithoutAlternatives, Judges, WellFormed, SameOutline, Overlooks;
    if Judges(d, s) {
      JudgingTells(d, s);
    } else {
      forall y, x | WellFormed(y) && SameOutline(y, x) && Valid(d, s, y, true)
        ensures Valid(d, s, x, true)
      {
        UnjudgedIsOverlooked(d, s, y);
        OverlooksOutline(d, s, y, x);
        OverlookedIsAccepted(d, s, x, false);
      }
    }
  }

  // ----- Keywords that require no member

  /** Neither the schema nor its item schemas, at any depth, require a member. */
  predicate RequiresNothing(s: Value)
    decreases s
  {
    s.Object? ==>
      var i := Find(s.members, "items");
      Required(s.members) == [] && (i < |s.members| ==> RequiresNothing(s.members[i].1))
  }

  /** Where no member is required, what the keywords and their types say decides it. */
  lemma {:induction false} JudgesByKeywords(d: Dialect, s: Value)
    requires Covered(s) && WithoutAlternatives(s) && RequiresNothing(s)
    ensures Judges(d, s) <==> !(SkipsMembers(s) && SkipsItems(s))
    decreases s
  {
    if s.Object? {
      var ms := s.members;
      ObjectsByKeywords(d, ms);
      if Has(ms, "items") {
        ItemsCovered(ms);
        JudgesByKeywords(d, Lookup(ms, "items").value);
      }
      hide Covered, HostCovered, Refuses, IsObjectSchema, JudgesObjects;
    }
  }

  lemma ObjectsByKeywords(d: Dialect, ms: Members)
    requires HostCovered(Object(ms)) && !Has(ms, "anyOf") && Required(ms) == []
    ensures JudgesObjects(d, Object(ms)) <==> !HostSkipsMembers(ms)
  {
    if !HostSkipsMembers(ms) {
      EmptyAccepted(d, ms);
      hide Valid, HostCovered;
      assert WellFormed(Object([]));
    }
  }

  /** Beside keywords that require no member, every list of alternatives keeps its meaning if and
      only if the keywords rule out objects or leave their members alone, and so for items. */
  lemma KeywordsDecide(d: Dialect, ms: Members)
    requires HostCovered(Object(ms)) && WithoutAlternatives(Object(ms)) && RequiresNothing(Object(ms))
    ensures (forall branches :: AllCovered(branches) ==> KeepsMeaning(d, WithAlternatives(ms, branches)))
      <==> SkipsMembers(Object(ms)) && SkipsItems(Object(ms))
  {
    assert Covered(Object(ms));
    hide HostCovered, Covered, WithoutAlternatives, RequiresNothing, KeepsMeaning, SkipsMembers, SkipsItems;
    JudgesByKeywords(d, Object(ms));
    JudgingIsTellingApart(d, Object(ms));
    AlternativesKeepMeaning(d, ms);
  }
}

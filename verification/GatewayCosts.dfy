/** Merging the gateway metadata of several image calls: costs are summed exactly. */
module GatewayCosts {
  import opened Digits
  import opened DecimalCosts
  import opened JsonValues
  import opened Options
  import opened Sequences

  // ----- Sums of several decimal texts

  predicate AllDecimal(xs: seq<string>, p: nat) {
    forall i :: 0 <= i < |xs| ==> IsDecimal(xs[i]) && Precision(xs[i]) <= p
  }

  function SumAt(xs: seq<string>, p: nat): nat
    requires AllDecimal(xs, p)
  {
    if xs == [] then 0 else Scaled(xs[0], p) + SumAt(xs[1..], p)
  }

  /** `s` is what adding the texts one after the other, from the first on, comes to. */
  ghost predicate IsTotal(xs: seq<string>, s: string)
    decreases |xs|
  {
    if |xs| <= 1 then xs == [s]
    else
      var init, last := xs[..|xs| - 1], xs[|xs| - 1];
      exists t :: IsTotal(init, t) && IsDecimal(t) && IsDecimal(last) && IsSum(t, last, s)
  }

  lemma Reassociate(a: nat, b: nat, c: nat)
    ensures (a * b) * c == a * (b * c)
  {
  }

  lemma ScaledUp(s: string, p: nat, q: nat)
    requires IsDecimal(s) && Precision(s) <= p <= q
    ensures Scaled(s, q) == Scaled(s, p) * Pow10(q - p)
  {
    Pow10Add(p - Precision(s), q - p);
    hide Pow10, DigitsValue, IsDecimal;
    Reassociate(DigitsValue(IntegerPart(s) + FractionPart(s)), Pow10(p - Precision(s)), Pow10(q - p));
  }

  lemma SumUp(left: string, right: string, s: string, q: nat)
    requires IsDecimal(left) && IsDecimal(right) && IsSum(left, right, s) && Precision(left) <= q &&
      Precision(right) <= q
    ensures IsCanonical(s) && Precision(s) <= q && Scaled(s, q) == Scaled(left, q) + Scaled(right, q)
  {
    var p := if Precision(left) < Precision(right) then Precision(right) else Precision(left);
    assert IsDecimal(s);
    hide Scaled, Pow10, IsDecimal, Precision;
    ScaledUp(left, p, q);
    ScaledUp(right, p, q);
    ScaledUp(s, p, q);
    DistributeSum(Scaled(left, p), Scaled(right, p), Pow10(q - p));
  }

  lemma DistributeSum(a: nat, b: nat, m: nat)
    ensures (a + b) * m == a * m + b * m
  {
  }

  lemma {:induction false} SumLast(xs: seq<string>, x: string, p: nat)
    requires AllDecimal(xs, p) && IsDecimal(x) && Precision(x) <= p
    ensures AllDecimal(xs + [x], p) && SumAt(xs + [x], p) == SumAt(xs, p) + Scaled(x, p)
  {
    hide Scaled, IsDecimal;
    if xs == [] {
      assert [x][1..] == [];
    } else {
      assert (xs + [x])[1..] == xs[1..] + [x];
      SumLast(xs[1..], x, p);
    }
  }

  lemma TotalStep(init: seq<string>, last: string, t: string, s: string, p: nat)
    requires AllDecimal(init + [last], p) && AllDecimal(init, p)
    requires IsDecimal(t) && Precision(t) <= p && Scaled(t, p) == SumAt(init, p)
    requires IsDecimal(last) && IsSum(t, last, s)
    ensures IsCanonical(s) && IsDecimal(s) && Precision(s) <= p && Scaled(s, p) == SumAt(init + [last], p)
  {
    assert (init + [last])[|init|] == last;
    SumUp(t, last, s, p);
    hide Scaled, SumAt, IsSum;
    SumLast(init, last, p);
  }

  lemma TotalSplit(xs: seq<string>, s: string) returns (t: string)
    requires |xs| >= 2 && IsTotal(xs, s)
    ensures IsTotal(xs[..|xs| - 1], t) && IsDecimal(t) && IsDecimal(xs[|xs| - 1]) && IsSum(t, xs[|xs| - 1], s)
  {
    hide IsSum, IsDecimal;
    var init, last := xs[..|xs| - 1], xs[|xs| - 1];
    t :| IsTotal(init, t) && IsDecimal(t) && IsDecimal(last) && IsSum(t, last, s);
  }

  lemma TotalOfOne(s: string, p: nat)
    requires AllDecimal([s], p)
    ensures IsDecimal(s) && Precision(s) <= p && Scaled(s, p) == SumAt([s], p)
  {
    hide Scaled, IsDecimal;
    assert [s][0] == s && [s][1..] == [];
  }

  /** A total denotes the sum, and is canonical once something was added. */
  lemma {:induction false} TotalIsSum(xs: seq<string>, s: string, p: nat)
    requires AllDecimal(xs, p) && xs != [] && IsTotal(xs, s)
    ensures IsDecimal(s) && Precision(s) <= p && Scaled(s, p) == SumAt(xs, p)
    ensures |xs| >= 2 ==> IsCanonical(s)
    decreases |xs|
  {
    if |xs| == 1 {
      TotalSingle(xs, s);
      TotalOfOne(s, p);
    } else {
      var init, last := xs[..|xs| - 1], xs[|xs| - 1];
      InitDecimal(xs, p);
      hide *;
      var t := TotalSplit(xs, s);
      SplitLast(xs);
      TotalIsSum(init, t, p);
      TotalStep(init, last, t, s, p);
    }
  }

  lemma TotalSingle(xs: seq<string>, s: string)
    requires |xs| == 1 && IsTotal(xs, s)
    ensures xs == [s]
  {
  }

  lemma InitDecimal(xs: seq<string>, p: nat)
    requires AllDecimal(xs, p) && xs != []
    ensures AllDecimal(xs[..|xs| - 1], p)
  {
    hide IsDecimal, Precision;
  }

  lemma {:induction false} SumWithout(xs: seq<string>, j: nat, p: nat)
    requires AllDecimal(xs, p) && j < |xs|
    ensures AllDecimal(xs[..j] + xs[j + 1..], p)
    ensures SumAt(xs, p) == Scaled(xs[j], p) + SumAt(xs[..j] + xs[j + 1..], p)
  {
    hide Scaled, IsDecimal, Precision;
    if j == 0 {
      assert xs[..0] + xs[1..] == xs[1..];
    } else {
      SumWithout(xs[1..], j - 1, p);
      assert (xs[..j] + xs[j + 1..])[1..] == xs[1..][..j - 1] + xs[1..][j..];
      assert (xs[..j] + xs[j + 1..])[0] == xs[0];
    }
  }

  lemma {:induction false} SumPermuted(xs: seq<string>, ys: seq<string>, p: nat)
    requires AllDecimal(xs, p) && AllDecimal(ys, p) && multiset(xs) == multiset(ys)
    ensures SumAt(xs, p) == SumAt(ys, p)
    decreases |xs|
  {
    hide Scaled, IsDecimal;
    PermutedLength(xs, ys);
    if xs != [] {
      var j := RemoveFirst(xs, ys);
      SumWithout(ys, j, p);
      SumPermuted(xs[1..], ys[..j] + ys[j + 1..], p);
    }
  }

  function MaxPrecision(xs: seq<string>): (p: nat)
    ensures forall i :: 0 <= i < |xs| ==> Precision(xs[i]) <= p
  {
    if xs == [] then 0
    else
      var rest := MaxPrecision(xs[1..]);
      assert forall i :: 0 < i < |xs| ==> xs[i] == xs[1..][i - 1];
      if rest < Precision(xs[0]) then Precision(xs[0]) else rest
  }

  /** Decimal texts have one total, in whatever order they are added. */
  lemma TotalInAnyOrder(xs: seq<string>, ys: seq<string>, s: string, t: string)
    requires xs != [] && multiset(xs) == multiset(ys)
    requires forall i :: 0 <= i < |xs| ==> IsDecimal(xs[i])
    requires IsTotal(xs, s) && IsTotal(ys, t)
    ensures s == t
  {
    PermutedLength(xs, ys);
    if |xs| == 1 {
      assert xs == [s] && ys == [t] && ys[0] in multiset(xs);
    } else {
      SumInAnyOrder(xs, ys, s, t);
    }
  }

  lemma SumInAnyOrder(xs: seq<string>, ys: seq<string>, s: string, t: string)
    requires |xs| >= 2 && |ys| >= 2 && multiset(xs) == multiset(ys)
    requires forall i :: 0 <= i < |xs| ==> IsDecimal(xs[i])
    requires IsTotal(xs, s) && IsTotal(ys, t)
    ensures s == t
  {
    hide Scaled, IsCanonical, IsTotal, Precision, IsDecimal;
    var p := MaxPrecision(xs);
    forall j | 0 <= j < |ys|
      ensures IsDecimal(ys[j]) && Precision(ys[j]) <= p
    {
      assert ys[j] in multiset(xs);
    }
    SumPermuted(xs, ys, p);
    TotalIsSum(xs, s, p);
    TotalIsSum(ys, t, p);
    CanonicalUnique(s, t, p);
  }

  // ----- Merging metadata

  type Metadata = map<string, Value>

  const COST_KEYS: seq<string> :=
    ["cost", "gatewayCost", "inferenceCost", "inputInferenceCost", "marketCost", "outputInferenceCost", "surchargeCost"]

  function TextAt(m: Metadata, key: string): Option<string> {
    if key in m && m[key].String? then Some(m[key].s) else None
  }

  predicate HasCost(m: Metadata, key: string) {
    TextAt(m, key).Some? && IsDecimal(TextAt(m, key).value)
  }

  predicate Summed(entry: Metadata, metadata: Metadata, key: string) {
    key in COST_KEYS && HasCost(entry, key) && HasCost(metadata, key)
  }

  /** The cost is the exact sum of the costs in both records. */
  predicate IsCostSum(entry: Metadata, metadata: Metadata, merged: Metadata, key: string) {
    && Summed(entry, metadata, key) && TextAt(merged, key).Some?
    && IsSum(entry[key].s, metadata[key].s, merged[key].s)
  }

  /** A member that the merge does not sum: the later record's, unless it is an empty image list. */
  function Latest(entry: Metadata, metadata: Metadata, key: string): Option<Value> {
    var both := entry + metadata;
    if key in both && !(key == "images" && both[key] == Array([])) then Some(both[key]) else None
  }

  function At(m: Metadata, key: string): Option<Value> {
    if key in m then Some(m[key]) else None
  }

  /** The merge of two gateway records: costs that both have are summed, otherwise the later
      record wins, and an empty image list is dropped. */
  ghost predicate IsMerged(entry: Metadata, metadata: Metadata, merged: Metadata) {
    forall key ::
      if Summed(entry, metadata, key) then IsCostSum(entry, metadata, merged, key)
      else At(merged, key) == Latest(entry, metadata, key)
  }

  method SumCosts(entry: Metadata, metadata: Metadata) returns (sums: Metadata)
    ensures forall key :: key in sums <==> Summed(entry, metadata, key)
    ensures forall key :: key in sums ==> IsCostSum(entry, metadata, sums, key)
  {
    sums := map[];
    hide COST_KEYS, IsSum, IsDecimal;
    for i := 0 to |COST_KEYS|
      invariant forall key :: key in sums <==> key in COST_KEYS[..i] && Summed(entry, metadata, key)
      invariant forall key :: key in sums ==> IsCostSum(entry, metadata, sums, key)
    {
      var key := COST_KEYS[i];
      assert COST_KEYS[..i + 1] == COST_KEYS[..i] + [key];
      var before, now := TextAt(entry, key), TextAt(metadata, key);
      if before.Some? && now.Some? {
        var sum := AddDecimalStrings(before.value, now.value);
        if sum.Some? {
          sums := sums[key := String(sum.value)];
        }
      }
    }
    assert COST_KEYS[..|COST_KEYS|] == COST_KEYS;
  }

  method MergeGateway(entry: Metadata, metadata: Metadata) returns (merged: Metadata)
    ensures IsMerged(entry, metadata, merged)
  {
    var sums := SumCosts(entry, metadata);
    merged := entry + metadata;
    merged := merged + sums;
    if "images" in merged && merged["images"] == Array([]) {
      merged := merged - {"images"};
    }
    MergeIs(entry, metadata, sums, merged);
  }

  lemma AtUnion(a: Metadata, b: Metadata, key: string)
    ensures At(a + b, key) == if key in b then At(b, key) else At(a, key)
  {
  }

  lemma AtRemoved(a: Metadata, gone: string, key: string)
    ensures At(a - {gone}, key) == if key == gone then None else At(a, key)
  {
  }

  lemma MergeIs(entry: Metadata, metadata: Metadata, sums: Metadata, merged: Metadata)
    requires forall key :: key in sums <==> Summed(entry, metadata, key)
    requires forall key :: key in sums ==> IsCostSum(entry, metadata, sums, key)
    requires var all := entry + metadata + sums;
      merged == if "images" in all && all["images"] == Array([]) then all - {"images"} else all
    ensures IsMerged(entry, metadata, merged)
  {
    ImagesIsNoCost();
    assert "images" !in sums;
    forall key
      ensures if Summed(entry, metadata, key) then IsCostSum(entry, metadata, merged, key)
              else At(merged, key) == Latest(entry, metadata, key)
    {
      MergeAt(entry, metadata, sums, merged, key);
    }
  }

  lemma MergeAt(entry: Metadata, metadata: Metadata, sums: Metadata, merged: Metadata, key: string)
    requires "images" !in sums && (key in sums <==> Summed(entry, metadata, key))
    requires key in sums ==> IsCostSum(entry, metadata, sums, key)
    requires var all := entry + metadata + sums;
      merged == if "images" in all && all["images"] == Array([]) then all - {"images"} else all
    ensures if Summed(entry, metadata, key) then IsCostSum(entry, metadata, merged, key)
            else At(merged, key) == Latest(entry, metadata, key)
  {
    hide IsSum, IsDecimal, COST_KEYS, Summed;
    var both := entry + metadata;
    AtUnion(both, sums, key);
    AtUnion(both, sums, "images");
    AtRemoved(both + sums, "images", key);
    if key in sums {
      assert At(merged, key) == At(sums, key);
      SameCost(entry, metadata, sums, merged, key);
    } else {
      assert Latest(entry, metadata, key) ==
        if key == "images" && At(both, key) == Some(Array([])) then None else At(both, key);
    }
  }

  lemma SameCost(entry: Metadata, metadata: Metadata, a: Metadata, b: Metadata, key: string)
    requires IsCostSum(entry, metadata, a, key) && At(a, key) == At(b, key)
    ensures IsCostSum(entry, metadata, b, key)
  {
    hide IsSum, IsDecimal, Summed;
    assert TextAt(a, key) == TextAt(b, key);
  }

  lemma ImagesIsNoCost()
    ensures "images" !in COST_KEYS
  {
  }

  /** The members that hold costs. */
  predicate IsCostKey(key: string) {
    || key == "cost" || key == "gatewayCost" || key == "inferenceCost" || key == "inputInferenceCost"
    || key == "marketCost" || key == "outputInferenceCost" || key == "surchargeCost"
  }

  lemma CostKeysAre(key: string)
    ensures key in COST_KEYS <==> IsCostKey(key)
  {
  }

  /** The member is a text that denotes a decimal number. */
  predicate HoldsDecimal(m: Metadata, key: string) {
    key in m && m[key].String? && IsDecimal(m[key].s)
  }

  /** What a record holds under a key, but an empty image list counts as nothing. */
  function Held(m: Metadata, key: string): Option<Value>
    requires key in m
  {
    if key == "images" && m[key] == Array([]) then None else Some(m[key])
  }

  /** Both records hold a decimal cost under the key. */
  predicate BothHoldCost(entry: Metadata, metadata: Metadata, key: string) {
    IsCostKey(key) && HoldsDecimal(entry, key) && HoldsDecimal(metadata, key)
  }

  /** Member by member: costs that both records have are added exactly; otherwise the later record's
      member stands, or the earlier one's when the later has none. */
  lemma MergedMember(entry: Metadata, metadata: Metadata, merged: Metadata, key: string)
    requires IsMerged(entry, metadata, merged)
    ensures BothHoldCost(entry, metadata, key) ==>
      key in merged && merged[key].String? && IsSum(entry[key].s, metadata[key].s, merged[key].s)
    ensures !BothHoldCost(entry, metadata, key) ==>
      At(merged, key) ==
        if key in metadata then Held(metadata, key) else if key in entry then Held(entry, key) else None
  {
    CostKeysAre(key);
    hide IsDecimal, IsSum, COST_KEYS, IsCostKey;
    assert HoldsDecimal(entry, key) <==> HasCost(entry, key);
    assert HoldsDecimal(metadata, key) <==> HasCost(metadata, key);
    assert Summed(entry, metadata, key) <==> BothHoldCost(entry, metadata, key);
    if Summed(entry, metadata, key) {
      assert IsCostSum(entry, metadata, merged, key);
    } else {
      assert At(merged, key) == Latest(entry, metadata, key);
    }
  }

  /** The records merged one after the other, from nothing. */
  ghost predicate IsMergedAll(records: seq<Metadata>, merged: Metadata)
    decreases |records|
  {
    if records == [] then merged == map[]
    else
      var init, last := records[..|records| - 1], records[|records| - 1];
      exists before :: IsMergedAll(init, before) && IsMerged(before, last, merged)
  }

  method MergeAll(records: seq<Metadata>) returns (merged: Metadata)
    ensures IsMergedAll(records, merged)
  {
    merged := map[];
    for i := 0 to |records|
      invariant IsMergedAll(records[..i], merged)
    {
      hide IsMerged;
      assert records[..i + 1][..i] == records[..i];
      merged := MergeGateway(merged, records[i]);
    }
    assert records[..|records|] == records;
  }

  /** Of members that hold no costs the last record's stands. */
  lemma {:induction false} LastStands(records: seq<Metadata>, merged: Metadata, key: string, k: nat)
    requires IsMergedAll(records, merged) && !IsCostKey(key)
    requires k <= |records| && forall i :: k <= i < |records| ==> key !in records[i]
    requires k > 0 ==> key in records[k - 1]
    ensures At(merged, key) == if k == 0 then None else Held(records[k - 1], key)
    decreases |records|
  {
    if records != [] {
      var init, last := records[..|records| - 1], records[|records| - 1];
      hide IsMerged, Held, IsCostKey;
      var before :| IsMergedAll(init, before) && IsMerged(before, last, merged);
      MergedMember(before, last, merged, key);
      if k < |records| {
        LastStands(init, before, key, k);
        HeldStays(before, key);
        if k > 0 {
          HeldIsHeld(records[k - 1], before, key);
        }
      }
    }
  }

  lemma HeldStays(m: Metadata, key: string)
    ensures key in m ==> Held(m, key) == None || Held(m, key) == At(m, key)
  {
  }

  lemma HeldIsHeld(record: Metadata, m: Metadata, key: string)
    requires key in record && At(m, key) == Held(record, key)
    ensures key in m ==> Held(m, key) == Held(record, key)
  {
  }
}

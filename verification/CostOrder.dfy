/** When the costs that several gateway records come to do not depend on the order of the records,
    and when they do. */
module CostOrder {
  import opened Digits
  import opened Options
  import opened Sequences
  import opened JsonValues
  import opened DecimalCosts
  import opened GatewayCosts

  function CostAt(m: Metadata, key: string): string
    requires HasCost(m, key)
  {
    TextAt(m, key).value
  }

  /** The costs that the records hold under a key. */
  function Costs(records: seq<Metadata>, key: string): seq<string> {
    if records == [] then []
    else (if HasCost(records[0], key) then [CostAt(records[0], key)] else []) + Costs(records[1..], key)
  }

  /** No record holds anything but a decimal text under the key. */
  predicate OnlyCosts(records: seq<Metadata>, key: string) {
    forall i :: 0 <= i < |records| && key in records[i] ==> HasCost(records[i], key)
  }

  /** No record holds a decimal text under the key, and all that hold something hold the same. */
  predicate OneOther(records: seq<Metadata>, key: string) {
    && (forall i :: 0 <= i < |records| ==> !HasCost(records[i], key))
    && forall i, j :: 0 <= i < |records| && 0 <= j < |records| && key in records[i] && key in records[j] ==>
         records[i][key] == records[j][key]
  }

  /** Every way to order the records gives the same member under the key, or none. */
  ghost predicate OrderFree(records: seq<Metadata>, key: string) {
    forall a, b, x, y :: multiset(a) == multiset(records) == multiset(b) && IsMergedAll(a, x) && IsMergedAll(b, y) ==>
      At(x, key) == At(y, key)
  }

  // ----- One record more

  lemma CostNext(before: Metadata, last: Metadata, merged: Metadata, key: string)
    requires IsMerged(before, last, merged) && key in COST_KEYS
    ensures !(HasCost(before, key) && HasCost(last, key)) ==>
      At(merged, key) == if key in last then At(last, key) else At(before, key)
  {
    ImagesIsNoCost();
    hide COST_KEYS, IsSum, IsDecimal, HasCost;
    assert Summed(before, last, key) <==> HasCost(before, key) && HasCost(last, key);
    AtUnion(before, last, key);
  }

  lemma NextCost(before: Metadata, last: Metadata, merged: Metadata, key: string)
    requires IsMerged(before, last, merged) && key in COST_KEYS && HasCost(before, key) && HasCost(last, key)
    ensures HasCost(merged, key) && IsDecimal(CostAt(before, key)) && IsDecimal(CostAt(last, key))
    ensures IsSum(CostAt(before, key), CostAt(last, key), CostAt(merged, key))
  {
    assert Summed(before, last, key);
    hide COST_KEYS, Summed;
    assert IsCostSum(before, last, merged, key);
    SumIsDecimal(before[key].s, last[key].s, merged[key].s);
    hide IsSum, IsDecimal;
  }

  lemma SumIsDecimal(left: string, right: string, s: string)
    requires IsDecimal(left) && IsDecimal(right) && IsSum(left, right, s)
    ensures IsDecimal(s)
  {
  }

  lemma TotalGrows(xs: seq<string>, t: string, x: string, s: string)
    requires xs != [] && IsTotal(xs, t) && IsDecimal(t) && IsDecimal(x) && IsSum(t, x, s)
    ensures IsTotal(xs + [x], s)
  {
    hide IsSum, IsDecimal;
    assert (xs + [x])[..|xs|] == xs;
  }

  lemma MergedLast(records: seq<Metadata>, merged: Metadata) returns (before: Metadata)
    requires records != [] && IsMergedAll(records, merged)
    ensures IsMergedAll(records[..|records| - 1], before) && IsMerged(before, records[|records| - 1], merged)
  {
    hide IsMerged;
    var init, last := records[..|records| - 1], records[|records| - 1];
    before :| IsMergedAll(init, before) && IsMerged(before, last, merged);
  }

  lemma NothingMerged(merged: Metadata)
    requires IsMergedAll([], merged)
    ensures merged == map[]
  {
  }

  // ----- Records that hold costs only

  lemma CostsFirst(records: seq<Metadata>, rest: seq<Metadata>, key: string)
    requires records != [] && records[1..] == rest
    ensures Costs(records, key) == Costs([records[0]], key) + Costs(rest, key)
  {
    CostsOne(records[0], key);
    hide HasCost, CostAt;
  }

  lemma {:induction false} CostsCat(a: seq<Metadata>, b: seq<Metadata>, key: string)
    ensures Costs(a + b, key) == Costs(a, key) + Costs(b, key)
  {
    if a == [] {
      assert a + b == b && [] + Costs(b, key) == Costs(b, key);
    } else {
      hide *;
      assert (a + b)[1..] == a[1..] + b && (a + b)[0] == a[0];
      CostsFirst(a + b, a[1..] + b, key);
      CostsFirst(a, a[1..], key);
      CostsCat(a[1..], b, key);
      Cat2(Costs([a[0]], key), Costs(a[1..], key), Costs(b, key));
    }
  }

  lemma CostsOne(m: Metadata, key: string)
    ensures Costs([m], key) == if HasCost(m, key) then [CostAt(m, key)] else []
  {
    hide HasCost, CostAt;
    assert [m][1..] == [];
  }

  lemma {:induction false} CostsAreDecimal(records: seq<Metadata>, key: string)
    ensures forall i :: 0 <= i < |Costs(records, key)| ==> IsDecimal(Costs(records, key)[i])
  {
    hide IsDecimal;
    if records != [] {
      CostsAreDecimal(records[1..], key);
    }
  }

  /** One record's cost beside those of the others. */
  lemma CostsWithout(b: seq<Metadata>, j: nat, key: string)
    requires j < |b|
    ensures multiset(Costs(b, key)) == multiset(Costs([b[j]], key)) + multiset(Costs(b[..j] + b[j + 1..], key))
  {
    var before, after := b[..j], b[j + 1..];
    assert b == before + [b[j]] + after;
    hide Costs;
    CostsCat(before + [b[j]], after, key);
    CostsCat(before, [b[j]], key);
    CostsCat(before, after, key);
  }

  lemma {:induction false} CostsPermuted(a: seq<Metadata>, b: seq<Metadata>, key: string)
    requires multiset(a) == multiset(b)
    ensures multiset(Costs(a, key)) == multiset(Costs(b, key))
    decreases |a|
  {
    PermutedLength(a, b);
    if a != [] {
      hide Costs;
      var j := RemoveFirst(a, b);
      CostsWithout(a, 0, key);
      CostsWithout(b, j, key);
      assert a[..0] + a[1..] == a[1..];
      CostsPermuted(a[1..], b[..j] + b[j + 1..], key);
    }
  }

  lemma OnlyCostsPermuted(a: seq<Metadata>, b: seq<Metadata>, key: string)
    requires multiset(a) == multiset(b) && OnlyCosts(a, key)
    ensures OnlyCosts(b, key)
  {
    hide HasCost;
    forall j | 0 <= j < |b| && key in b[j]
      ensures HasCost(b[j], key)
    {
      assert b[j] in multiset(a);
    }
  }

  /** What the merge holds under the key is the total of the costs, or nothing. */
  ghost predicate HoldsTotal(costs: seq<string>, merged: Metadata, key: string) {
    if costs == [] then key !in merged else HasCost(merged, key) && IsTotal(costs, CostAt(merged, key))
  }

  lemma TotalNext(costs: seq<string>, before: Metadata, last: Metadata, merged: Metadata, key: string)
    requires HoldsTotal(costs, before, key) && IsMerged(before, last, merged) && key in COST_KEYS
    requires key in last ==> HasCost(last, key)
    ensures HoldsTotal(costs + (if HasCost(last, key) then [CostAt(last, key)] else []), merged, key)
  {
    CostNext(before, last, merged, key);
    hide COST_KEYS, IsSum, IsDecimal, IsMerged;
    if HasCost(last, key) {
      if costs == [] {
        assert TextAt(merged, key) == TextAt(last, key);
        assert [] + [CostAt(last, key)] == [CostAt(last, key)];
      } else {
        NextCost(before, last, merged, key);
        TotalGrows(costs, CostAt(before, key), CostAt(last, key), CostAt(merged, key));
      }
    } else {
      assert costs + [] == costs && TextAt(merged, key) == TextAt(before, key);
    }
  }

  lemma {:induction false} MergeHoldsTotal(records: seq<Metadata>, merged: Metadata, key: string)
    requires IsMergedAll(records, merged) && OnlyCosts(records, key) && key in COST_KEYS
    ensures HoldsTotal(Costs(records, key), merged, key)
    decreases |records|
  {
    if records == [] {
      NothingMerged(merged);
    } else {
      hide COST_KEYS, HasCost, CostAt, IsMerged, IsMergedAll, HoldsTotal;
      var init, last := records[..|records| - 1], records[|records| - 1];
      var before := MergedLast(records, merged);
      SplitLast(records);
      MergeHoldsTotal(init, before, key);
      TotalNext(Costs(init, key), before, last, merged, key);
      CostsCat(init, [last], key);
      CostsOne(last, key);
    }
  }

  lemma OnlyCostsOrderFree(records: seq<Metadata>, key: string)
    requires key in COST_KEYS && OnlyCosts(records, key)
    ensures OrderFree(records, key)
  {
    hide COST_KEYS, IsMergedAll, IsTotal, IsDecimal, OnlyCosts, Costs;
    forall a, b, x, y | multiset(a) == multiset(records) == multiset(b) && IsMergedAll(a, x) && IsMergedAll(b, y)
      ensures At(x, key) == At(y, key)
    {
      OnlyCostsPermuted(records, a, key);
      OnlyCostsPermuted(records, b, key);
      MergeHoldsTotal(a, x, key);
      MergeHoldsTotal(b, y, key);
      CostsPermuted(a, b, key);
      PermutedLength(Costs(a, key), Costs(b, key));
      if Costs(a, key) != [] {
        CostsAreDecimal(a, key);
        TotalInAnyOrder(Costs(a, key), Costs(b, key), CostAt(x, key), CostAt(y, key));
      }
    }
  }

  // ----- Records that hold one other value

  /** What the merge holds under the key is what each record that holds something holds. */
  ghost predicate HoldsOther(records: seq<Metadata>, merged: Metadata, key: string) {
    && (forall i :: 0 <= i < |records| && key in records[i] ==> At(merged, key) == At(records[i], key))
    && (key in merged ==> exists i :: 0 <= i < |records| && key in records[i])
  }

  lemma {:induction false} OtherStays(records: seq<Metadata>, merged: Metadata, key: string)
    requires IsMergedAll(records, merged) && OneOther(records, key) && key in COST_KEYS
    ensures HoldsOther(records, merged, key)
    decreases |records|
  {
    if records == [] {
      NothingMerged(merged);
    } else {
      hide *;
      var init, last := records[..|records| - 1], records[|records| - 1];
      var before := MergedLast(records, merged);
      SplitLast(records);
      OneOtherBefore(init, last, key);
      OtherStays(init, before, key);
      CostNext(before, last, merged, key);
      OtherNext(init, before, last, merged, key);
    }
  }

  lemma OneOtherBefore(init: seq<Metadata>, last: Metadata, key: string)
    requires OneOther(init + [last], key)
    ensures OneOther(init, key) && !HasCost(last, key)
    ensures forall i :: 0 <= i < |init| && key in init[i] && key in last ==> init[i][key] == last[key]
  {
    hide HasCost;
    var all := init + [last];
    assert all[|init|] == last && forall i :: 0 <= i < |init| ==> all[i] == init[i];
  }

  lemma OtherNext(init: seq<Metadata>, before: Metadata, last: Metadata, merged: Metadata, key: string)
    requires HoldsOther(init, before, key) && At(merged, key) == if key in last then At(last, key) else At(before, key)
    requires forall i :: 0 <= i < |init| && key in init[i] && key in last ==> init[i][key] == last[key]
    ensures HoldsOther(init + [last], merged, key)
  {
    var all := init + [last];
    assert all[|init|] == last && forall i :: 0 <= i < |init| ==> all[i] == init[i];
    if key in merged && key !in last {
      var i :| 0 <= i < |init| && key in init[i];
      assert key in all[i];
    }
  }

  lemma HoldsSame(a: seq<Metadata>, b: seq<Metadata>, x: Metadata, y: Metadata, key: string)
    requires multiset(a) == multiset(b) && HoldsOther(a, x, key) && HoldsOther(b, y, key)
    ensures key in x ==> At(x, key) == At(y, key)
  {
    if key in x {
      var i :| 0 <= i < |a| && key in a[i];
      assert a[i] in multiset(b);
      var j :| 0 <= j < |b| && b[j] == a[i];
    }
  }

  lemma OtherOrderFree(records: seq<Metadata>, key: string)
    requires key in COST_KEYS && OneOther(records, key)
    ensures OrderFree(records, key)
  {
    hide COST_KEYS, IsMergedAll, OneOther, HoldsOther;
    forall a, b, x, y | multiset(a) == multiset(records) == multiset(b) && IsMergedAll(a, x) && IsMergedAll(b, y)
      ensures At(x, key) == At(y, key)
    {
      OneOtherPermuted(records, a, key);
      OneOtherPermuted(records, b, key);
      OtherStays(a, x, key);
      OtherStays(b, y, key);
      HoldsSame(a, b, x, y, key);
      HoldsSame(b, a, y, x, key);
    }
  }

  lemma OneOtherPermuted(a: seq<Metadata>, b: seq<Metadata>, key: string)
    requires multiset(a) == multiset(b) && OneOther(a, key)
    ensures OneOther(b, key)
  {
    hide HasCost;
    forall j | 0 <= j < |b|
      ensures b[j] in multiset(a)
    {
    }
  }

  // ----- Records always merge

  lemma {:induction false} NoLeadingZero(n: nat)
    ensures Decimal(n)[0] == '0' ==> |Decimal(n)| == 1
    ensures n > 0 ==> Decimal(n)[0] != '0'
  {
    if n >= 10 {
      NoLeadingZero(n / 10);
    }
  }

  /** A number as an integer part and `p` more digits. */
  lemma {:induction false} Split(n: nat, p: nat) returns (integer: string, fraction: string)
    ensures integer != "" && IsDigits(integer) && (integer[0] == '0' ==> |integer| == 1)
    ensures |fraction| == p && IsDigits(fraction) && IsDigits(integer + fraction) &&
      DigitsValue(integer + fraction) == n
    ensures p > 0 ==> fraction[p - 1] == DigitChar(n % 10)
  {
    if p == 0 {
      integer, fraction := Decimal(n), "";
      NoLeadingZero(n);
      DecimalDenotes(n);
      assert integer + "" == integer;
    } else {
      var shorter;
      integer, shorter := Split(n / 10, p - 1);
      fraction := shorter + [DigitChar(n % 10)];
      assert (integer + fraction)[..|integer + fraction| - 1] == integer + shorter;
    }
  }

  /** Every number has a canonical text. */
  lemma {:induction false} CanonicalExists(n: nat, p: nat) returns (text: string)
    ensures IsCanonical(text) && Precision(text) <= p && Scaled(text, p) == n
  {
    hide DigitsValue, Scaled;
    if p > 0 && n % 10 == 0 {
      text := CanonicalExists(n / 10, p - 1);
      ScaledUp(text, p - 1, p);
      assert Pow10(1) == 10;
    } else {
      var integer, fraction := Split(n, p);
      text := if fraction == "" then integer else integer + "." + fraction;
      assert p > 0 ==> DigitValue(fraction[p - 1]) != 0;
      PartsAreCanonical(integer, fraction);
    }
  }

  lemma PartsAreCanonical(integer: string, fraction: string)
    requires IsDigits(integer) && integer != "" && (integer[0] == '0' ==> |integer| == 1)
    requires IsDigits(fraction) && IsDigits(integer + fraction) && (fraction != "" ==> fraction[|fraction| - 1] != '0')
    ensures var text := if fraction == "" then integer else integer + "." + fraction;
      IsCanonical(text) && Precision(text) == |fraction| && Scaled(text, |fraction|) == DigitsValue(integer + fraction)
  {
    TextParts(integer, fraction);
    hide IntegerPart, FractionPart, DigitsValue;
  }

  lemma SumExists(left: string, right: string) returns (s: string)
    requires IsDecimal(left) && IsDecimal(right)
    ensures IsSum(left, right, s)
  {
    var p := if Precision(left) < Precision(right) then Precision(right) else Precision(left);
    s := CanonicalExists(Scaled(left, p) + Scaled(right, p), p);
    SumIs(left, right, s, p);
  }

  ghost function SumText(left: string, right: string): (s: string)
    requires IsDecimal(left) && IsDecimal(right)
    ensures IsSum(left, right, s)
  {
    assert exists s :: IsSum(left, right, s) by {
      var s := SumExists(left, right);
    }
    var s :| IsSum(left, right, s);
    s
  }

  lemma MergeStepExists(entry: Metadata, metadata: Metadata) returns (merged: Metadata)
    ensures IsMerged(entry, metadata, merged)
  {
    hide IsSum, IsDecimal, COST_KEYS;
    var sums: Metadata :=
      map key | key in COST_KEYS && Summed(entry, metadata, key) :: String(SumText(entry[key].s, metadata[key].s));
    var all := entry + metadata + sums;
    merged := if "images" in all && all["images"] == Array([]) then all - {"images"} else all;
    MergeIs(entry, metadata, sums, merged);
  }

  lemma {:induction false} MergeExists(records: seq<Metadata>) returns (merged: Metadata)
    ensures IsMergedAll(records, merged)
    decreases |records|
  {
    if records == [] {
      merged := map[];
    } else {
      hide IsMerged;
      var before := MergeExists(records[..|records| - 1]);
      merged := MergeStepExists(before, records[|records| - 1]);
    }
  }

  // ----- Records that hold both, or several others

  lemma LastWins(rest: seq<Metadata>, p: Metadata, q: Metadata, merged: Metadata, key: string)
    requires IsMergedAll(rest + [p, q], merged) && key in COST_KEYS && key in p && key in q
    requires !(HasCost(p, key) && HasCost(q, key))
    ensures At(merged, key) == At(q, key)
  {
    hide COST_KEYS, IsMerged, IsMergedAll, IsDecimal;
    var all := rest + [p, q];
    assert all[..|all| - 1] == rest + [p] && (rest + [p])[..|rest|] == rest;
    var before := MergedLast(all, merged);
    var earlier := MergedLast(rest + [p], before);
    CostNext(earlier, p, before, key);
    CostNext(before, q, merged, key);
    assert !HasCost(p, key) ==> TextAt(before, key) == TextAt(p, key);
  }

  lemma TwoLast(records: seq<Metadata>, i: nat, j: nat) returns (rest: seq<Metadata>)
    requires i < j < |records|
    ensures multiset(rest + [records[i], records[j]]) == multiset(records)
    ensures multiset(rest + [records[j], records[i]]) == multiset(records)
  {
    var a, b, c := records[..i], records[i + 1..j], records[j + 1..];
    rest := a + b + c;
    assert records == a + [records[i]] + b + [records[j]] + c;
  }

  /** Two values that do not add up make the order matter. */
  lemma OrderMatters(records: seq<Metadata>, i: nat, j: nat, key: string)
    requires key in COST_KEYS && i < j < |records| && key in records[i] && key in records[j]
    requires records[i][key] != records[j][key] && !(HasCost(records[i], key) && HasCost(records[j], key))
    ensures !OrderFree(records, key)
  {
    hide COST_KEYS, IsMergedAll, HasCost;
    var p, q := records[i], records[j];
    var rest := TwoLast(records, i, j);
    var x := MergeExists(rest + [p, q]);
    var y := MergeExists(rest + [q, p]);
    LastWins(rest, p, q, x, key);
    LastWins(rest, q, p, y, key);
    assert At(x, key) != At(y, key);
  }

  /** Every order of the records gives the same member under a cost key if and only if no record holds
      anything but a decimal text under it, or none holds a decimal text and no two differ. */
  lemma CostsInAnyOrder(records: seq<Metadata>, key: string)
    requires key in COST_KEYS
    ensures OrderFree(records, key) <==> OnlyCosts(records, key) || OneOther(records, key)
  {
    hide COST_KEYS, OrderFree;
    if OnlyCosts(records, key) {
      OnlyCostsOrderFree(records, key);
    } else if OneOther(records, key) {
      OtherOrderFree(records, key);
    } else {
      var i, j := Disagreeing(records, key);
      OrderMatters(records, i, j, key);
    }
  }

  lemma Disagreeing(records: seq<Metadata>, key: string) returns (i: nat, j: nat)
    requires !OnlyCosts(records, key) && !OneOther(records, key)
    ensures i < j < |records| && key in records[i] && key in records[j]
    ensures records[i][key] != records[j][key] && !(HasCost(records[i], key) && HasCost(records[j], key))
  {
    hide HasCost, OneOther;
    var other := NoCostAt(records, key);
    hide OnlyCosts;
    var k := DiffersFrom(records, key, other);
    i, j := if k < other then k else other, if k < other then other else k;
  }

  lemma NoCostAt(records: seq<Metadata>, key: string) returns (i: nat)
    requires !OnlyCosts(records, key)
    ensures i < |records| && key in records[i] && !HasCost(records[i], key)
  {
    hide HasCost;
    i :| i < |records| && key in records[i] && !HasCost(records[i], key);
  }

  lemma DiffersFrom(records: seq<Metadata>, key: string, other: nat) returns (k: nat)
    requires other < |records| && key in records[other] && !HasCost(records[other], key) && !OneOther(records, key)
    ensures k < |records| && key in records[k] && records[k][key] != records[other][key]
  {
    if cost: nat :| cost < |records| && HasCost(records[cost], key) {
      k := cost;
      assert TextAt(records[k], key) != TextAt(records[other], key);
    } else {
      hide HasCost;
      var m: nat, n: nat :| m < |records| && n < |records| && key in records[m] && key in records[n]
                            && records[m][key] != records[n][key];
      k := if records[m][key] != records[other][key] then m else n;
    }
  }

  /** A record without a number, beside one with: the last one wins. */
  lemma NullCostsDependOnOrder()
    ensures var a := map["cost" := String("1")]; var b := map["cost" := Null];
      && (forall x :: IsMergedAll([a, b], x) ==> At(x, "cost") == Some(Null))
      && forall y :: IsMergedAll([b, a], y) ==> At(y, "cost") == Some(String("1"))
  {
    var a: Metadata, b: Metadata := map["cost" := String("1")], map["cost" := Null];
    assert COST_KEYS[0] == "cost";
    assert [] + [a, b] == [a, b] && [] + [b, a] == [b, a];
    hide IsMergedAll, COST_KEYS;
    forall x | IsMergedAll([a, b], x)
      ensures At(x, "cost") == Some(Null)
    {
      LastWins([], a, b, x, "cost");
    }
    forall y | IsMergedAll([b, a], y)
      ensures At(y, "cost") == Some(String("1"))
    {
      LastWins([], b, a, y, "cost");
    }
  }
}

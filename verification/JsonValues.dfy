/** JSON values as the schema and tool code holds them: objects are ordered member lists. */
module JsonValues {
  import opened Digits
  import opened Options

  /** A number is its printed text. */
  datatype Value =
    | Null
    | Bool(b: bool)
    | Number(text: string)
    | String(s: string)
    | Array(items: seq<Value>)
    | Object(members: Members)

  type Members = seq<(string, Value)>

  /** The index of `key`, or the number of members. */
  function Find(ms: Members, key: string): (i: nat)
    ensures i <= |ms|
    ensures i < |ms| ==> ms[i].0 == key
    ensures forall j :: 0 <= j < i ==> ms[j].0 != key
  {
    if ms == [] then 0
    else if ms[0].0 == key then 0
    else
      var i := Find(ms[1..], key);
      assert forall j :: 1 <= j < i + 1 ==> ms[j] == ms[1..][j - 1];
      i + 1
  }

  predicate Has(ms: Members, key: string) {
    Find(ms, key) < |ms|
  }

  function Lookup(ms: Members, key: string): Option<Value> {
    if Has(ms, key) then Some(ms[Find(ms, key)].1) else None
  }

  /** Replaces the value of `key` in place, or appends a member. */
  function Insert(ms: Members, key: string, value: Value): Members {
    if Has(ms, key) then ms[Find(ms, key) := (key, value)] else ms + [(key, value)]
  }

  /** Removes `key`; the last member takes its place. */
  function SwapRemove(ms: Members, key: string): Members {
    var i := Find(ms, key);
    if i == |ms| then ms else ms[i := ms[|ms| - 1]][..|ms| - 1]
  }

  predicate Distinct(ms: Members) {
    forall i, j :: 0 <= i < j < |ms| ==> ms[i].0 != ms[j].0
  }

  /** Every object, at every depth, has distinct keys. */
  predicate WellFormed(v: Value) {
    match v
    case Array(items) => forall i :: 0 <= i < |items| ==> WellFormed(items[i])
    case Object(ms) => Distinct(ms) && forall i :: 0 <= i < |ms| ==> WellFormed(ms[i].1)
    case _ => true
  }

  lemma FindAt(ms: Members, i: nat)
    requires Distinct(ms) && i < |ms|
    ensures Find(ms, ms[i].0) == i
  {
  }

  lemma FindUnique(ms: Members, key: string, i: nat)
    requires i <= |ms| && (i < |ms| ==> ms[i].0 == key)
    requires forall j :: 0 <= j < i ==> ms[j].0 != key
    ensures Find(ms, key) == i
  {
  }

  lemma LookupInsert(ms: Members, key: string, value: Value, other: string)
    ensures Lookup(Insert(ms, key, value), other) == if other == key then Some(value) else Lookup(ms, other)
    ensures Distinct(ms) ==> Distinct(Insert(ms, key, value))
  {
    var r := Insert(ms, key, value);
    if other == key {
      FindUnique(r, key, Find(ms, key));
    } else if Has(ms, other) {
      FindUnique(r, other, Find(ms, other));
    } else {
      FindUnique(r, other, |r|);
    }
  }

  lemma InsertSame(ms: Members, key: string, value: Value)
    requires Lookup(ms, key) == Some(value)
    ensures Insert(ms, key, value) == ms
  {
    assert ms[Find(ms, key)] == (key, value);
  }

  lemma LookupSwapRemove(ms: Members, key: string, other: string)
    requires Distinct(ms)
    ensures Lookup(SwapRemove(ms, key), other) == if other == key then None else Lookup(ms, other)
    ensures Distinct(SwapRemove(ms, key))
  {
    if Has(ms, key) {
      var r := SwapRemove(ms, key);
      var i, k := Find(ms, key), Find(ms, other);
      if other == key || k == |ms| {
        FindUnique(r, other, |r|);
      } else {
        FindAt(r, if k == |ms| - 1 then i else k);
      }
    }
  }

  // ----- Decimal text of an index

  function Decimal(n: nat): (s: string)
    ensures s != "" && IsDigits(s)
  {
    if n < 10 then [DigitChar(n)] else Decimal(n / 10) + [DigitChar(n % 10)]
  }

  lemma {:induction false} DecimalDenotes(n: nat)
    ensures DigitsValue(Decimal(n)) == n
  {
    var s := Decimal(n);
    if n < 10 {
      assert s[..|s| - 1] == "";
    } else {
      assert s[..|s| - 1] == Decimal(n / 10);
      DecimalDenotes(n / 10);
    }
  }

  lemma DecimalInjective(m: nat, n: nat)
    requires Decimal(m) == Decimal(n)
    ensures m == n
  {
    DecimalDenotes(m);
    DecimalDenotes(n);
  }
}

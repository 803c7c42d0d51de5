/** What is left of a JSON tree when only the first `k` characters of its text are known.

    This is the reference definition the repair machine is proved against: it cuts the
    tree, not the text.  A cut keeps complete elements, completes a started literal, keeps
    a number up to its last digit and a string up to its last complete item, and drops
    whatever has no value yet. */
module Truncation {
  import opened Options
  import opened Sequences
  import opened Digits
  import opened JsonGrammar

  // ----- Numbers

  /** One past the last digit of `s`; 0 when there is none. */
  function LastDigit(s: string): (n: nat)
    ensures n <= |s|
  {
    if s == "" then 0
    else if IsDigit(s[|s| - 1]) then |s|
    else LastDigit(s[..|s| - 1])
  }

  function CutExponent(x: Exponent, k: nat): Exponent
    requires k <= |ExponentText(x)|
  {
    if x.NoExponent? || k <= 1 + |x.sign| then NoExponent
    else x.(digits := x.digits[..k - 1 - |x.sign|])
  }

  /** The first `j` characters after the integer part: fraction, then exponent. */
  function CutTail(n: Number, j: nat): Number
    requires 0 < j <= |FractionText(n.fraction)| + |ExponentText(n.exponent)|
  {
    if j <= |FractionText(n.fraction)| then n.(fraction := n.fraction[..j - 1], exponent := NoExponent)
    else n.(exponent := CutExponent(n.exponent, j - |FractionText(n.fraction)|))
  }

  function CutNumber(n: Number, k: nat): Option<Number>
    requires 0 < k <= |NumberText(n)|
  {
    var m := |MinusText(n.minus)|;
    if k <= m then None
    else if k <= m + |n.integer| then Some(Number(n.minus, n.integer[..k - m], "", NoExponent))
    else Some(CutTail(n, k - m - |n.integer|))
  }

  lemma {:induction false} LastDigitCat(a: string, b: string)
    ensures LastDigit(a + b) == if LastDigit(b) > 0 then |a| + LastDigit(b) else LastDigit(a)
    decreases |b|
  {
    if b == "" {
      assert a + b == a;
    } else {
      assert (a + b)[..|a + b| - 1] == a + b[..|b| - 1];
      LastDigitCat(a, b[..|b| - 1]);
    }
  }

  lemma LastDigitOfDigits(s: string)
    requires IsDigits(s)
    ensures LastDigit(s) == |s|
  {
  }

  lemma CutExponentText(x: Exponent, k: nat)
    requires GoodExponent(x) && k <= |ExponentText(x)|
    ensures var y := CutExponent(x, k);
      && GoodExponent(y)
      && ExponentText(y) == ExponentText(x)[..LastDigit(ExponentText(x)[..k])]
  {
    if x.Exponent? {
      var head := [x.e] + x.sign;
      var text := head + x.digits;
      Cat2([x.e], x.sign, x.digits);
      TakeCat(head, x.digits, k);
      assert LastDigit([x.e]) == 0 && LastDigit(x.sign) == 0;
      if k <= |head| {
        assert head[..k] == (if k == 0 then "" else if k == 1 then [x.e] else [x.e] + x.sign);
        LastDigitCat([x.e], x.sign);
      } else {
        var ds := x.digits[..k - |head|];
        LastDigitOfDigits(ds);
        LastDigitCat(head, ds);
        assert text[..k] == head + ds;
        Cat2([x.e], x.sign, ds);
      }
    }
  }

  lemma HeadDigits(minus: bool, integer: string)
    requires IsDigits(integer)
    ensures LastDigit(MinusText(minus) + integer) == if integer == "" then 0 else |MinusText(minus) + integer|
  {
    LastDigitOfDigits(integer);
    LastDigitCat(MinusText(minus), integer);
    assert LastDigit(MinusText(minus)) == 0;
  }

  lemma FractionDigits(fraction: string, j: nat)
    requires IsDigits(fraction) && j <= |FractionText(fraction)|
    ensures LastDigit(FractionText(fraction)[..j]) == if j <= 1 then 0 else j
  {
    var text := FractionText(fraction)[..j];
    if j > 0 {
      assert text == "." + fraction[..j - 1];
      LastDigitOfDigits(fraction[..j - 1]);
      LastDigitCat(".", fraction[..j - 1]);
      assert LastDigit(".") == 0;
    }
  }

  lemma CutFraction(n: Number, j: nat)
    requires GoodNumber(n) && 0 < j <= |FractionText(n.fraction)|
    ensures TailText(CutTail(n, j)) == TailText(n)[..LastDigit(TailText(n)[..j])]
  {
    var fraction, exponent := FractionText(n.fraction), ExponentText(n.exponent);
    TakeCat(fraction, exponent, j);
    FractionDigits(n.fraction, j);
    var cut := FractionText(n.fraction[..j - 1]);
    assert cut + "" == cut;
    if j > 1 {
      assert cut == fraction[..j];
    }
  }

  lemma FractionEnds(fraction: string)
    requires IsDigits(fraction)
    ensures LastDigit(FractionText(fraction)) == |FractionText(fraction)|
  {
    var text := FractionText(fraction);
    FractionDigits(fraction, |text|);
    assert text[..|text|] == text;
  }

  lemma CutTailExponent(n: Number, j: nat)
    requires GoodNumber(n) && |FractionText(n.fraction)| < j <= |TailText(n)|
    ensures TailText(CutTail(n, j)) == TailText(n)[..LastDigit(TailText(n)[..j])]
  {
    NumberParts(n);
    hide LastDigit, FractionText, ExponentText, CutExponent, GoodNumber, GoodExponent, IsDigits;
    var fraction, exponent, i := FractionText(n.fraction), ExponentText(n.exponent), j - |FractionText(n.fraction)|;
    FractionEnds(n.fraction);
    LastDigitTake(fraction, exponent, j);
    CutExponentText(n.exponent, i);
    TakeGrown(fraction, exponent, LastDigit(exponent[..i]));
  }

  lemma NumberParts(n: Number)
    requires GoodNumber(n)
    ensures IsDigits(n.fraction) && GoodExponent(n.exponent)
  {
  }

  lemma CutTailText(n: Number, j: nat)
    requires GoodNumber(n) && 0 < j <= |TailText(n)|
    ensures GoodNumber(CutTail(n, j)) && IntegerText(CutTail(n, j)) == IntegerText(n)
    ensures TailText(CutTail(n, j)) == TailText(n)[..LastDigit(TailText(n)[..j])]
  {
    if j <= |FractionText(n.fraction)| {
      CutFraction(n, j);
    } else {
      CutTailExponent(n, j);
      CutExponentText(n.exponent, j - |FractionText(n.fraction)|);
    }
  }

  lemma CutInteger(n: Number, k: nat)
    requires GoodNumber(n) && |MinusText(n.minus)| < k <= |IntegerText(n)|
    ensures var r := CutNumber(n, k);
      r.Some? && GoodNumber(r.value) && NumberText(r.value) == IntegerText(n)[..k] &&
        LastDigit(IntegerText(n)[..k]) == k
  {
    hide LastDigit;
    TakeCat(MinusText(n.minus), n.integer, k);
    var m := Number(n.minus, n.integer[..k - |MinusText(n.minus)|], "", NoExponent);
    HeadDigits(m.minus, m.integer);
    assert NumberText(m) == IntegerText(m);
  }

  lemma LastDigitTake(a: string, b: string, k: nat)
    requires LastDigit(a) == |a| <= k <= |a| + |b|
    ensures LastDigit((a + b)[..k]) == |a| + LastDigit(b[..k - |a|])
  {
    LastDigitCat(a, b[..k - |a|]);
    hide LastDigit;
    assert (a + b)[..k] == a + b[..k - |a|];
  }

  lemma BeyondInteger(n: Number, k: nat)
    requires GoodNumber(n) && |IntegerText(n)| < k <= |NumberText(n)|
    ensures LastDigit(IntegerText(n)) == |IntegerText(n)| > 0 && NumberText(n) == IntegerText(n) + TailText(n)
    ensures |TailText(n)| == |FractionText(n.fraction)| + |ExponentText(n.exponent)|
    ensures CutNumber(n, k) == Some(CutTail(n, k - |IntegerText(n)|))
  {
    hide LastDigit, FractionText, ExponentText, CutTail;
    HeadDigits(n.minus, n.integer);
  }

  lemma CutBeyondInteger(n: Number, k: nat)
    requires GoodNumber(n) && |IntegerText(n)| < k <= |NumberText(n)|
    ensures var r := CutNumber(n, k); var last := LastDigit(NumberText(n)[..k]);
      last > 0 && r.Some? && GoodNumber(r.value) && NumberText(r.value) == NumberText(n)[..last]
  {
    var j := k - |IntegerText(n)|;
    BeyondInteger(n, k);
    CutTailText(n, j);
    assert NumberText(CutTail(n, j)) == IntegerText(CutTail(n, j)) + TailText(CutTail(n, j));
    hide LastDigit, TailText, IntegerText, NumberText, CutNumber, CutTail, GoodNumber;
    LastDigitTake(IntegerText(n), TailText(n), k);
    TakeGrown(IntegerText(n), TailText(n), LastDigit(TailText(n)[..j]));
  }

  /** A cut number is a number, and its text stops after the last digit known. */
  lemma CutNumberText(n: Number, k: nat)
    requires GoodNumber(n) && 0 < k <= |NumberText(n)|
    ensures var r := CutNumber(n, k); var last := LastDigit(NumberText(n)[..k]);
      && (r.None? <==> last == 0)
      && (r.None? ==> NumberText(n)[..k] == "-")
      && (r.Some? ==> GoodNumber(r.value) && NumberText(r.value) == NumberText(n)[..last])
  {
    if k <= |IntegerText(n)| {
      TakeCat(IntegerText(n), TailText(n), k);
      if k > |MinusText(n.minus)| {
        CutInteger(n, k);
      } else {
        assert IntegerText(n)[..k] == "-";
        assert LastDigit("-") == 0;
      }
    } else {
      CutBeyondInteger(n, k);
    }
  }

  // ----- Lengths, computed on the tree

  function ItemLength(item: StringItem): (n: nat)
    ensures n > 0 && n == |ItemText(item)|
  {
    match item
    case Plain(_) => 1
    case Escape(_) => 2
    case Unicode(_, _, _, _) => 6
  }

  function ItemsLength(items: seq<StringItem>): nat {
    if items == [] then 0 else ItemLength(items[0]) + ItemsLength(items[1..])
  }

  function KeyLength(key: Key): nat {
    match key
    case NoKey => 0
    case Key(items, gap, lead) => ItemsLength(items) + 3 + |gap| + |lead|
  }

  function NumberLength(n: Number): (r: nat)
    ensures r == |NumberText(n)|
  {
    |IntegerText(n)| + |TailText(n)|
  }

  function Length(v: Json): nat {
    match v
    case Literal(name) => |name|
    case Numeric(n) => NumberLength(n)
    case Str(items) => ItemsLength(items) + 2
    case Empty(_, pad) => |pad| + 2
    case Full(_, pad, entries) => |pad| + EntriesLength(entries) + 2
  }

  function EntriesLength(es: Entries): nat
    decreases es
  {
    match es
    case Last(key, value, after) => KeyLength(key) + Length(value) + |after|
    case More(key, value, after, before, rest) =>
      KeyLength(key) + Length(value) + |after| + 1 + |before| + EntriesLength(rest)
  }

  lemma {:induction false} ItemsLengthIsLength(items: seq<StringItem>)
    ensures ItemsLength(items) == |ItemsText(items)|
  {
    if items != [] {
      ItemsLengthIsLength(items[1..]);
    }
  }

  lemma KeyLengthIsLength(key: Key)
    ensures KeyLength(key) == |KeyText(key)|
  {
    if key.Key? {
      ItemsLengthIsLength(key.items);
    }
  }

  lemma {:induction false} LengthIsLength(v: Json)
    ensures Length(v) == |Text(v)|
    decreases v
  {
    match v
    case Str(items) => ItemsLengthIsLength(items);
    case Full(_, _, entries) => EntriesLengthIsLength(entries);
    case _ =>
  }

  lemma {:induction false} EntriesLengthIsLength(es: Entries)
    ensures EntriesLength(es) == |EntriesText(es)|
    decreases es
  {
    KeyLengthIsLength(es.key);
    LengthIsLength(es.value);
    if es.More? {
      EntriesLengthIsLength(es.rest);
    }
  }

  // ----- Strings

  function CodeUnit(item: StringItem): nat
    requires item.Unicode? && GoodItem(item)
  {
    ((HexDigitValue(item.h0) * 16 + HexDigitValue(item.h1)) * 16 + HexDigitValue(item.h2)) * 16 + HexDigitValue(item.h3)
  }

  predicate IsHigh(item: StringItem) {
    item.Unicode? && GoodItem(item) && 0xD800 <= CodeUnit(item) <= 0xDBFF
  }

  predicate IsLow(item: StringItem) {
    item.Unicode? && GoodItem(item) && 0xDC00 <= CodeUnit(item) <= 0xDFFF
  }

  /** Whether a high surrogate is still waiting for its low half after `item`. */
  function PendingItem(item: StringItem, pending: bool): bool {
    if !item.Unicode? then pending
    else if IsHigh(item) then true
    else pending && !IsLow(item)
  }

  /** Whether the string may end right after `item`. */
  predicate Completes(item: StringItem, pending: bool) {
    item.Unicode? ==> !PendingItem(item, pending)
  }

  function PendingItems(items: seq<StringItem>, pending: bool): bool {
    if items == [] then pending else PendingItems(items[1..], PendingItem(items[0], pending))
  }

  /** How many of `items` are kept when the first `k` characters of their text are known. */
  function Committed(items: seq<StringItem>, k: nat, pending: bool): (n: nat)
    ensures n <= |items|
  {
    if items == [] || k < ItemLength(items[0]) then 0
    else
      var rest := Committed(items[1..], k - ItemLength(items[0]), PendingItem(items[0], pending));
      if rest > 0 || Completes(items[0], pending) then rest + 1 else 0
  }

  // ----- Values

  predicate Scalar(v: Json) {
    v.Literal? || v.Numeric?
  }

  /** Whitespace after an element survives only in arrays; the single character that ends a
      number or literal is dropped. */
  function Kept(kind: Kind, v: Json, after: string): string {
    if kind == Object || (Scalar(v) && |after| == 1) then "" else after
  }

  function KeptPad(kind: Kind, pad: string): string {
    if kind == Object then "" else pad
  }

  function PendingValue(v: Json, pending: bool): bool {
    match v
    case Str(items) => PendingItems(items, pending)
    case Full(_, _, entries) => PendingEntries(entries, pending)
    case _ => pending
  }

  function PendingEntries(es: Entries, pending: bool): bool {
    match es
    case Last(_, value, _) => PendingValue(value, pending)
    case More(_, value, _, _, rest) => PendingEntries(rest, PendingValue(value, pending))
  }

  lemma LengthPositive(v: Json)
    requires Good(v)
    ensures Length(v) > 0
  {
  }

  /** The tree left of `v` when the first `k` characters of its text are known; `pending`
      tells whether an earlier high surrogate still waits for its low half. */
  function Cut(v: Json, k: nat, pending: bool): Option<Json>
    requires 0 < k <= Length(v)
    decreases v
  {
    match v
    case Literal(_) => Some(v)
    case Numeric(n) =>
      (match CutNumber(n, k)
       case None => None
       case Some(m) => Some(Numeric(m)))
    case Str(items) => if k == Length(v) then Some(v) else Some(Str(items[..Committed(items, k - 1, pending)]))
    case Empty(kind, pad) => if k == Length(v) then Some(v) else Some(Empty(kind, KeptPad(kind, pad[..k - 1])))
    case Full(kind, pad, entries) =>
      if k == Length(v) then Some(v)
      else if k <= 1 + |pad| then Some(Empty(kind, KeptPad(kind, pad[..k - 1])))
      else match CutEntries(kind, entries, k - 1 - |pad|, pending)
        case None => Some(Empty(kind, KeptPad(kind, pad)))
        case Some(es) => Some(Full(kind, pad, es))
  }

  function CutEntries(kind: Kind, es: Entries, k: nat, pending: bool): Option<Entries>
    requires 0 < k <= EntriesLength(es)
    decreases es, 1
  {
    var start := KeyLength(es.key);
    var end := start + Length(es.value);
    if k <= start then None
    else if k > end then Some(CutAfterValue(kind, es, k - end, pending))
    else match Cut(es.value, k - start, pending)
      case None => None
      case Some(v) => Some(Last(es.key, v, ""))
  }

  /** What is left when the first value is complete and `k` characters after it are known. */
  function CutAfterValue(kind: Kind, es: Entries, k: nat, pending: bool): Entries
    requires 0 < k <= EntriesLength(es) - KeyLength(es.key) - Length(es.value)
    decreases es, 0
  {
    if k <= |es.after| then Last(es.key, es.value, Kept(kind, es.value, es.after[..k]))
    else
      var done := Last(es.key, es.value, Kept(kind, es.value, es.after));
      var next := |es.after| + 1 + |es.before|;
      if k <= next then done
      else match CutEntries(kind, es.rest, k - next, PendingValue(es.value, pending))
        case None => done
        case Some(rest) => More(es.key, es.value, es.after, es.before, rest)
  }

  function DocumentLength(d: Document): nat {
    |d.lead| + Length(d.value) + |d.trail|
  }

  /** The document left of `d` when the first `k` characters of its text are known. */
  function CutDocument(d: Document, k: nat): Option<Document>
    requires GoodDocument(d) && k <= DocumentLength(d)
  {
    LengthPositive(d.value);
    if k <= |d.lead| then None
    else
      var end := |d.lead| + Length(d.value);
      match Cut(d.value, (if k <= end then k else end) - |d.lead|, false)
      case None => None
      case Some(v) => Some(Document(d.lead, v, ""))
  }

  // ----- Cuts are well-formed and vanish only before the first digit of a number

  /** The cases of a cut in entries. */
  lemma CutEntriesCases(kind: Kind, es: Entries, k: nat, pending: bool)
    requires 0 < k <= EntriesLength(es)
    ensures var start := KeyLength(es.key); var end := start + Length(es.value);
      && (k <= start ==> CutEntries(kind, es, k, pending) == None)
      && (end < k ==>
            && k - end <= EntriesLength(es) - KeyLength(es.key) - Length(es.value)
            && CutEntries(kind, es, k, pending) == Some(CutAfterValue(kind, es, k - end, pending)))
      && (start < k <= end ==>
            CutEntries(kind, es, k, pending) ==
              var cut := Cut(es.value, k - start, pending);
              if cut.Some? then Some(Last(es.key, cut.value, "")) else None)
  {
    hide Cut, CutAfterValue, KeyLength, Length;
  }

  /** The cases of a cut after a value. */
  lemma CutAfterCases(kind: Kind, es: Entries, k: nat, pending: bool)
    requires 0 < k <= EntriesLength(es) - KeyLength(es.key) - Length(es.value)
    ensures k <= |es.after| ==>
      CutAfterValue(kind, es, k, pending) == Last(es.key, es.value, Kept(kind, es.value, es.after[..k]))
    ensures |es.after| < k ==> es.More?
    ensures |es.after| < k ==>
      var done := Last(es.key, es.value, Kept(kind, es.value, es.after)); var next := |es.after| + 1 + |es.before|;
      && (k <= next ==> CutAfterValue(kind, es, k, pending) == done)
      && (next < k ==>
            && k - next <= EntriesLength(es.rest)
            && CutAfterValue(kind, es, k, pending) ==
                 var rest := CutEntries(kind, es.rest, k - next, PendingValue(es.value, pending));
                 if rest.Some? then More(es.key, es.value, es.after, es.before, rest.value) else done)
  {
    hide CutEntries, KeyLength, Length, Kept, PendingValue;
  }

  lemma GoodFirst(kind: Kind, es: Entries)
    requires GoodEntries(kind, es)
    ensures GoodKey(kind, es.key) && Good(es.value) && IsWs(es.after)
    ensures es.More? ==> IsWs(es.before) && GoodEntries(kind, es.rest)
  {
  }

  lemma KeptIsWs(kind: Kind, v: Json, after: string, k: nat)
    requires IsWs(after) && k <= |after|
    ensures IsWs(Kept(kind, v, after[..k])) && IsWs(Kept(kind, v, after))
  {
  }

  lemma LastIsGood(kind: Kind, key: Key, v: Json, after: string)
    requires GoodKey(kind, key) && Good(v) && IsWs(after)
    ensures GoodEntries(kind, Last(key, v, after))
  {
  }

  lemma MoreIsGood(kind: Kind, key: Key, v: Json, after: string, before: string, rest: Entries)
    requires GoodKey(kind, key) && Good(v) && IsWs(after) && IsWs(before) && GoodEntries(kind, rest)
    ensures GoodEntries(kind, More(key, v, after, before, rest))
  {
  }

  lemma {:induction false} CutGood(v: Json, k: nat, pending: bool)
    requires Good(v) && 0 < k <= Length(v)
    ensures var r := Cut(v, k, pending);
      && (r.Some? ==> Good(r.value))
      && (r.None? <==> v.Numeric? && NumberText(v.number)[..k] == "-")
    decreases v
  {
    match v
    case Numeric(n) => CutNumberText(n, k);
    case Full(kind, pad, entries) =>
      if 1 + |pad| < k < Length(v) {
        CutEntriesGood(kind, entries, k - 1 - |pad|, pending);
      }
    case _ =>
  }

  lemma {:induction false} CutEntriesGood(kind: Kind, es: Entries, k: nat, pending: bool)
    requires GoodEntries(kind, es) && 0 < k <= EntriesLength(es)
    ensures var r := CutEntries(kind, es, k, pending); r.Some? ==> GoodEntries(kind, r.value)
    decreases es, 1
  {
    hide *;
    CutEntriesCases(kind, es, k, pending);
    GoodFirst(kind, es);
    NoWsIsWs();
    var start := KeyLength(es.key);
    var end := start + Length(es.value);
    if end < k {
      CutAfterValueGood(kind, es, k - end, pending);
    } else if start < k {
      CutGood(es.value, k - start, pending);
      if Cut(es.value, k - start, pending).Some? {
        LastIsGood(kind, es.key, Cut(es.value, k - start, pending).value, "");
      }
    }
  }

  lemma NoWsIsWs()
    ensures IsWs("")
  {
  }

  lemma {:induction false} CutAfterValueGood(kind: Kind, es: Entries, k: nat, pending: bool)
    requires GoodEntries(kind, es) && 0 < k <= EntriesLength(es) - KeyLength(es.key) - Length(es.value)
    ensures GoodEntries(kind, CutAfterValue(kind, es, k, pending))
    decreases es, 0
  {
    hide *;
    CutAfterCases(kind, es, k, pending);
    GoodFirst(kind, es);
    KeptIsWs(kind, es.value, es.after, if k <= |es.after| then k else 0);
    var cut := CutAfterValue(kind, es, k, pending);
    if cut.More? {
      var next := |es.after| + 1 + |es.before|;
      CutEntriesGood(kind, es.rest, k - next, PendingValue(es.value, pending));
      MoreIsGood(kind, es.key, es.value, es.after, es.before, cut.rest);
    } else {
      LastIsGood(kind, es.key, es.value, cut.after);
    }
  }

  // ----- Approximation

  /** The tree read so far may still grow into `w`: strings and numbers are prefixes, lists
      are prefixes whose last element may itself still grow. */
  predicate Approximates(v: Json, w: Json) {
    match v
    case Literal(_) => v == w
    case Numeric(n) => w.Numeric? && NumberText(n) <= NumberText(w.number)
    case Str(items) => w.Str? && items <= w.items
    case Empty(kind, _) => (w.Empty? || w.Full?) && w.kind == kind
    case Full(kind, _, entries) => w.Full? && w.kind == kind && EntriesApproximate(entries, w.entries)
  }

  predicate EntriesApproximate(es: Entries, fs: Entries) {
    match es
    case Last(key, value, _) => key == fs.key && Approximates(value, fs.value)
    case More(key, value, _, _, rest) =>
      fs.More? && key == fs.key && value == fs.value && EntriesApproximate(rest, fs.rest)
  }

  lemma {:induction false} ApproximatesReflexive(v: Json)
    ensures Approximates(v, v)
  {
    if v.Full? {
      EntriesReflexive(v.entries);
    }
  }

  lemma {:induction false} EntriesReflexive(es: Entries)
    ensures EntriesApproximate(es, es)
  {
    if es.More? {
      EntriesReflexive(es.rest);
    } else {
      ApproximatesReflexive(es.value);
    }
  }

  lemma {:induction false} LastDigitMonotone(s: string, j: nat, k: nat)
    requires j <= k <= |s|
    ensures LastDigit(s[..j]) <= LastDigit(s[..k])
  {
    assert s[..k] == s[..j] + s[j..k];
    LastDigitCat(s[..j], s[j..k]);
  }

  lemma CommittedFirst(items: seq<StringItem>, k: nat, pending: bool)
    ensures items == [] || k < ItemLength(items[0]) ==> Committed(items, k, pending) == 0
    ensures items != [] && ItemLength(items[0]) <= k ==>
      var rest := Committed(items[1..], k - ItemLength(items[0]), PendingItem(items[0], pending));
      Committed(items, k, pending) == if rest > 0 || Completes(items[0], pending) then rest + 1 else 0
  {
    hide ItemLength, PendingItem, Completes;
  }

  lemma {:induction false} CommittedMonotone(items: seq<StringItem>, j: nat, k: nat, pending: bool)
    requires j <= k
    ensures Committed(items, j, pending) <= Committed(items, k, pending)
  {
    hide *;
    CommittedFirst(items, j, pending);
    CommittedFirst(items, k, pending);
    if items != [] && ItemLength(items[0]) <= j {
      var t := ItemLength(items[0]);
      CommittedMonotone(items[1..], j - t, k - t, PendingItem(items[0], pending));
    }
  }

  lemma CutWhole(v: Json, pending: bool)
    requires Good(v)
    ensures Length(v) > 0 && Cut(v, Length(v), pending) == Some(v)
  {
    if v.Numeric? {
      var n := v.number;
      var t := |TailText(n)|;
      if n.fraction != "" { assert n.fraction[..|n.fraction|] == n.fraction; }
      if n.exponent.Exponent? { assert n.exponent.digits[..|n.exponent.digits|] == n.exponent.digits; }
      assert n.integer[..|n.integer|] == n.integer;
    }
  }

  lemma CutNumberMonotone(n: Number, j: nat, k: nat)
    requires GoodNumber(n) && 0 < j <= k <= NumberLength(n) && CutNumber(n, j).Some?
    ensures CutNumber(n, k).Some?
    ensures NumberText(CutNumber(n, j).value) <= NumberText(CutNumber(n, k).value)
  {
    CutNumberText(n, j);
    CutNumberText(n, k);
    var text := NumberText(n);
    hide CutNumber, NumberText, GoodNumber;
    LastDigitMonotone(text, j, k);
    hide LastDigit;
    assert text[..LastDigit(text[..j])] <= text[..LastDigit(text[..k])];
  }

  lemma {:induction false} CutMonotone(v: Json, j: nat, k: nat, pending: bool)
    requires Good(v) && 0 < j <= k <= Length(v) && Cut(v, j, pending).Some?
    ensures Cut(v, k, pending).Some?
    ensures Approximates(Cut(v, j, pending).value, Cut(v, k, pending).value)
    decreases v, 1
  {
    hide CutNumber, Committed, CutEntries;
    match v
    case Literal(_) =>
    case Numeric(n) => CutNumberMonotone(n, j, k);
    case Str(items) => CommittedMonotone(items, j - 1, k - 1, pending);
    case Empty(_, _) =>
    case Full(_, _, _) => CutFullMonotone(v, j, k, pending);
  }

  lemma CutFullCases(v: Json, k: nat, pending: bool)
    requires v.Full? && 0 < k <= Length(v)
    ensures Length(v) == 2 + |v.pad| + EntriesLength(v.entries)
    ensures k == Length(v) ==> Cut(v, k, pending) == Some(v)
    ensures k < Length(v) && k <= 1 + |v.pad| ==>
      Cut(v, k, pending) == Some(Empty(v.kind, KeptPad(v.kind, v.pad[..k - 1])))
    ensures k < Length(v) && k > 1 + |v.pad| ==>
      Cut(v, k, pending) ==
        match CutEntries(v.kind, v.entries, k - 1 - |v.pad|, pending)
        case None => Some(Empty(v.kind, KeptPad(v.kind, v.pad)))
        case Some(es) => Some(Full(v.kind, v.pad, es))
  {
    hide CutEntries, KeptPad;
  }

  lemma FullApproximates(v: Json, w: Json)
    requires w.Full?
    ensures v.Empty? && v.kind == w.kind ==> Approximates(v, w)
    ensures v.Empty? && v.kind == w.kind ==> forall pad :: Approximates(v, Empty(w.kind, pad))
    ensures v.Full? && v.kind == w.kind && EntriesApproximate(v.entries, w.entries) ==> Approximates(v, w)
  {
    hide EntriesApproximate;
  }

  lemma FullIsGood(v: Json)
    requires Good(v) && v.Full?
    ensures GoodEntries(v.kind, v.entries)
  {
  }

  lemma {:induction false} CutFullMonotone(v: Json, j: nat, k: nat, pending: bool)
    requires Good(v) && v.Full? && 0 < j <= k <= Length(v)
    ensures Cut(v, j, pending).Some? && Cut(v, k, pending).Some?
    ensures Approximates(Cut(v, j, pending).value, Cut(v, k, pending).value)
    decreases v, 0
  {
    hide *;
    FullIsGood(v);
    CutFullCases(v, j, pending);
    CutFullCases(v, k, pending);
    var n := 1 + |v.pad|;
    FullApproximates(Cut(v, j, pending).value, v);
    if j == Length(v) {
      EntriesReflexive(v.entries);
    } else if n < j && CutEntries(v.kind, v.entries, j - n, pending).Some? {
      if k < Length(v) {
        CutEntriesMonotone(v.kind, v.entries, j - n, k - n, pending);
        FullApproximates(Cut(v, j, pending).value, Cut(v, k, pending).value);
      } else {
        CutEntriesBelow(v.kind, v.entries, j - n, pending);
      }
    } else if k < Length(v) && n < k && CutEntries(v.kind, v.entries, k - n, pending).Some? {
      FullApproximates(Cut(v, j, pending).value, Cut(v, k, pending).value);
    }
  }

  lemma {:induction false} CutEntriesMonotone(kind: Kind, es: Entries, j: nat, k: nat, pending: bool)
    requires GoodEntries(kind, es) && 0 < j <= k <= EntriesLength(es)
    requires CutEntries(kind, es, j, pending).Some?
    ensures CutEntries(kind, es, k, pending).Some?
    ensures EntriesApproximate(CutEntries(kind, es, j, pending).value, CutEntries(kind, es, k, pending).value)
    decreases es, 1
  {
    hide *;
    CutEntriesCases(kind, es, j, pending);
    CutEntriesCases(kind, es, k, pending);
    var end := KeyLength(es.key) + Length(es.value);
    if j <= end {
      CutFirstMonotone(kind, es, j, k, pending);
    } else {
      CutAfterValueMonotone(kind, es, j - end, k - end, pending);
    }
  }

  lemma FirstApproximates(key: Key, v: Json, fs: Entries)
    requires fs.key == key && Approximates(v, fs.value)
    ensures EntriesApproximate(Last(key, v, ""), fs)
  {
  }

  /** The growth of an entry whose value is still being read. */
  lemma {:induction false} CutFirstMonotone(kind: Kind, es: Entries, j: nat, k: nat, pending: bool)
    requires GoodEntries(kind, es) && 0 < j <= k <= EntriesLength(es) && j <= KeyLength(es.key) + Length(es.value)
    requires CutEntries(kind, es, j, pending).Some?
    ensures CutEntries(kind, es, k, pending).Some?
    ensures EntriesApproximate(CutEntries(kind, es, j, pending).value, CutEntries(kind, es, k, pending).value)
    decreases es, 0
  {
    hide *;
    GoodFirst(kind, es);
    CutEntriesCases(kind, es, j, pending);
    CutEntriesCases(kind, es, k, pending);
    var start := KeyLength(es.key);
    var end := start + Length(es.value);
    CutWhole(es.value, pending);
    CutMonotone(es.value, j - start, (if k <= end then k else end) - start, pending);
    if k > end {
      AfterValueStart(kind, es, k - end, pending);
    }
    FirstApproximates(es.key, Cut(es.value, j - start, pending).value, CutEntries(kind, es, k, pending).value);
  }

  lemma AfterValueStart(kind: Kind, es: Entries, k: nat, pending: bool)
    requires 0 < k <= EntriesLength(es) - KeyLength(es.key) - Length(es.value)
    ensures var r := CutAfterValue(kind, es, k, pending); r.key == es.key && r.value == es.value
  {
  }

  lemma MoreApproximates(key: Key, v: Json, after: string, before: string, es: Entries, fs: Entries)
    requires EntriesApproximate(es, fs)
    ensures EntriesApproximate(More(key, v, after, before, es), More(key, v, after, before, fs))
  {
  }

  lemma DoneApproximates(key: Key, v: Json, after: string, fs: Entries)
    requires fs.key == key && fs.value == v
    ensures EntriesApproximate(Last(key, v, after), fs)
  {
    ApproximatesReflexive(v);
  }

  lemma {:induction false} CutAfterValueMonotone(kind: Kind, es: Entries, j: nat, k: nat, pending: bool)
    requires GoodEntries(kind, es) && 0 < j <= k <= EntriesLength(es) - KeyLength(es.key) - Length(es.value)
    ensures EntriesApproximate(CutAfterValue(kind, es, j, pending), CutAfterValue(kind, es, k, pending))
    decreases es, 0
  {
    hide *;
    GoodFirst(kind, es);
    AfterValueStart(kind, es, k, pending);
    CutAfterCases(kind, es, j, pending);
    CutAfterCases(kind, es, k, pending);
    var cut := CutAfterValue(kind, es, j, pending);
    if cut.More? {
      var next, late := |es.after| + 1 + |es.before|, PendingValue(es.value, pending);
      CutEntriesMonotone(kind, es.rest, j - next, k - next, late);
      MoreApproximates(es.key, es.value, es.after, es.before, CutEntries(kind, es.rest, j - next, late).value,
                       CutEntries(kind, es.rest, k - next, late).value);
    } else {
      DoneApproximates(es.key, es.value, cut.after, CutAfterValue(kind, es, k, pending));
    }
  }

  lemma {:induction false} CutEntriesBelow(kind: Kind, es: Entries, j: nat, pending: bool)
    requires GoodEntries(kind, es) && 0 < j <= EntriesLength(es) && CutEntries(kind, es, j, pending).Some?
    ensures EntriesApproximate(CutEntries(kind, es, j, pending).value, es)
    decreases es, 1
  {
    var start := KeyLength(es.key);
    var end := start + Length(es.value);
    if j <= end {
      CutWhole(es.value, pending);
      CutMonotone(es.value, j - start, Length(es.value), pending);
    } else {
      CutAfterValueBelow(kind, es, j - end, pending);
    }
  }

  lemma {:induction false} CutAfterValueBelow(kind: Kind, es: Entries, j: nat, pending: bool)
    requires GoodEntries(kind, es) && 0 < j <= EntriesLength(es) - KeyLength(es.key) - Length(es.value)
    ensures EntriesApproximate(CutAfterValue(kind, es, j, pending), es)
    decreases es, 0
  {
    AfterValueStart(kind, es, j, pending);
    ApproximatesReflexive(es.value);
    if CutAfterValue(kind, es, j, pending).More? {
      var next := |es.after| + 1 + |es.before|;
      CutEntriesBelow(kind, es.rest, j - next, PendingValue(es.value, pending));
    }
  }

  // ----- Surrogate pairs

  /** Every high surrogate escape is followed by a low one, and every low one follows a high one. */
  predicate Paired(items: seq<StringItem>) {
    if items == [] then true
    else if IsHigh(items[0]) then |items| > 1 && IsLow(items[1]) && Paired(items[2..])
    else !IsLow(items[0]) && Paired(items[1..])
  }

  predicate PairedKey(key: Key) {
    key.Key? ==> Paired(key.items)
  }

  predicate PairedValue(v: Json) {
    match v
    case Str(items) => Paired(items)
    case Full(_, _, entries) => PairedEntries(entries)
    case _ => true
  }

  predicate PairedEntries(es: Entries)
    decreases es
  {
    match es
    case Last(key, value, _) => PairedKey(key) && PairedValue(value)
    case More(key, value, _, _, rest) => PairedKey(key) && PairedValue(value) && PairedEntries(rest)
  }

  lemma {:induction false} CommittedPaired(items: seq<StringItem>, k: nat)
    requires Paired(items)
    ensures Paired(items[..Committed(items, k, false)]) && !PendingItems(items, false)
  {
    if items != [] {
      var t := ItemLength(items[0]);
      var n := Committed(items, k, false);
      if IsHigh(items[0]) {
        var u := ItemLength(items[1]);
        CommittedPaired(items[2..], if k < t + u then 0 else k - t - u);
        assert items[1..][1..] == items[2..];
        if n > 0 {
          assert n >= 2;
          assert items[..n][2..] == items[2..][..n - 2];
        }
      } else {
        CommittedPaired(items[1..], if k < t then 0 else k - t);
        if n > 0 {
          assert items[..n][1..] == items[1..][..n - 1];
        }
      }
    }
  }

  lemma {:induction false} PairedLeavesNothingPending(v: Json)
    requires PairedValue(v)
    ensures !PendingValue(v, false)
    decreases v
  {
    if v.Str? {
      CommittedPaired(v.items, 0);
    } else if v.Full? {
      PairedEntriesLeaveNothingPending(v.entries);
    }
  }

  lemma {:induction false} PairedEntriesLeaveNothingPending(es: Entries)
    requires PairedEntries(es)
    ensures !PendingEntries(es, false)
    decreases es
  {
    PairedLeavesNothingPending(es.value);
    if es.More? {
      PairedEntriesLeaveNothingPending(es.rest);
    }
  }

  lemma {:induction false} CutPaired(v: Json, k: nat)
    requires PairedValue(v) && 0 < k <= Length(v) && Cut(v, k, false).Some?
    ensures PairedValue(Cut(v, k, false).value)
    decreases v
  {
    match v
    case Str(items) => CommittedPaired(items, k - 1);
    case Full(kind, pad, entries) =>
      if 1 + |pad| < k < Length(v) {
        CutEntriesPaired(kind, entries, k - 1 - |pad|);
      }
    case _ =>
  }

  lemma {:induction false} CutAfterPaired(kind: Kind, es: Entries, k: nat)
    requires PairedEntries(es) && 0 < k <= EntriesLength(es) - KeyLength(es.key) - Length(es.value)
    ensures PairedEntries(CutAfterValue(kind, es, k, false))
    decreases es, 0
  {
    hide *;
    CutAfterCases(kind, es, k, false);
    PairedFirst(es);
    PairedLeavesNothingPending(es.value);
    var cut := CutAfterValue(kind, es, k, false);
    if cut.More? {
      CutEntriesPaired(kind, es.rest, k - (|es.after| + 1 + |es.before|));
    }
    EntriesArePaired(cut);
  }

  lemma EntriesArePaired(es: Entries)
    requires PairedKey(es.key) && PairedValue(es.value) && (es.More? ==> PairedEntries(es.rest))
    ensures PairedEntries(es)
  {
  }

  lemma PairedFirst(es: Entries)
    requires PairedEntries(es)
    ensures PairedKey(es.key) && PairedValue(es.value) && (es.More? ==> PairedEntries(es.rest))
  {
  }

  lemma {:induction false} CutEntriesPaired(kind: Kind, es: Entries, k: nat)
    requires PairedEntries(es) && 0 < k <= EntriesLength(es)
    ensures var r := CutEntries(kind, es, k, false); r.Some? ==> PairedEntries(r.value)
    decreases es
  {
    hide *;
    CutEntriesCases(kind, es, k, false);
    PairedFirst(es);
    var start := KeyLength(es.key);
    var end := start + Length(es.value);
    if end < k {
      CutAfterPaired(kind, es, k - end);
    } else if start < k && Cut(es.value, k - start, false).Some? {
      CutPaired(es.value, k - start);
      EntriesArePaired(CutEntries(kind, es, k, false).value);
    }
  }
}
/** Exact addition of decimal strings, and the sums of gateway costs built on it. */
module DecimalCosts {
  import opened Digits
  import opened Options
  import opened Sequences

  // ----- Decimal texts

  function PointIndex(s: string): (n: nat)
    ensures n <= |s|
    ensures n < |s| ==> s[n] == '.'
    ensures forall i :: 0 <= i < n ==> s[i] != '.'
  {
    if s == "" || s[0] == '.' then 0 else 1 + PointIndex(s[1..])
  }

  function IntegerPart(s: string): string {
    s[..PointIndex(s)]
  }

  function FractionPart(s: string): string {
    if PointIndex(s) < |s| then s[PointIndex(s) + 1..] else ""
  }

  /** Digits, with a point and more digits or without. */
  predicate IsDecimal(s: string) {
    && IntegerPart(s) != "" && IsDigits(IntegerPart(s)) && IsDigits(FractionPart(s))
    && (PointIndex(s) < |s| ==> FractionPart(s) != "")
  }

  function DecimalParts(value: string): Option<(string, string)> {
    if IsDecimal(value) then Some((IntegerPart(value), FractionPart(value))) else None
  }

  function Pow10(n: nat): (p: nat)
    ensures p > 0
  {
    if n == 0 then 1 else 10 * Pow10(n - 1)
  }

  function Precision(s: string): nat {
    |FractionPart(s)|
  }

  /** The number that a decimal text denotes, as a multiple of 1 / 10^p. */
  function Scaled(s: string, p: nat): nat
    requires IsDecimal(s) && Precision(s) <= p
  {
    DigitsValue(IntegerPart(s) + FractionPart(s)) * Pow10(p - Precision(s))
  }

  /** The shortest text of its number: no leading and no trailing zero. */
  predicate IsCanonical(s: string) {
    && IsDecimal(s)
    && (IntegerPart(s)[0] == '0' ==> |IntegerPart(s)| == 1)
    && (FractionPart(s) != "" ==> FractionPart(s)[|FractionPart(s)| - 1] != '0')
  }

  /** A decimal text is one or more digits, possibly followed by a point and one or more digits. */
  lemma DecimalForms(s: string)
    ensures IsDecimal(s) <==>
      || (s != "" && forall i :: 0 <= i < |s| ==> '0' <= s[i] <= '9')
      || exists n :: 0 < n < |s| - 1 && s[n] == '.' && forall i :: 0 <= i < |s| && i != n ==> '0' <= s[i] <= '9'
  {
    var n := PointIndex(s);
    if n < |s| {
      assert forall i :: 0 <= i < n ==> IntegerPart(s)[i] == s[i];
      assert forall i :: n < i < |s| ==> FractionPart(s)[i - n - 1] == s[i];
    } else {
      assert s[..n] == s;
    }
  }

  // ----- Values of digit strings

  lemma {:induction false} DigitsCat(a: string, b: string)
    requires IsDigits(a) && IsDigits(b)
    ensures IsDigits(a + b) && DigitsValue(a + b) == DigitsValue(a) * Pow10(|b|) + DigitsValue(b)
  {
    if b == "" {
      assert a + b == a;
    } else {
      var init := b[..|b| - 1];
      DigitsCat(a, init);
      assert (a + b)[..|a + b| - 1] == a + init;
      assert (DigitsValue(a) * Pow10(|init|)) * 10 == DigitsValue(a) * (10 * Pow10(|init|));
    }
  }

  lemma {:induction false} DigitsBound(s: string)
    requires IsDigits(s)
    ensures DigitsValue(s) < Pow10(|s|)
  {
    if s != "" {
      DigitsBound(s[..|s| - 1]);
    }
  }

  lemma {:induction false} Pow10Add(a: nat, b: nat)
    ensures Pow10(a + b) == Pow10(a) * Pow10(b)
  {
    if a > 0 {
      Pow10Add(a - 1, b);
      assert 10 * (Pow10(a - 1) * Pow10(b)) == (10 * Pow10(a - 1)) * Pow10(b);
    }
  }

  lemma {:induction false} Zeros(s: string)
    requires forall i :: 0 <= i < |s| ==> s[i] == '0'
    ensures IsDigits(s) && DigitsValue(s) == 0
  {
    if s != "" {
      Zeros(s[..|s| - 1]);
    }
  }

  /** Equally long digit strings of one value are equal. */
  lemma {:induction false} SameDigits(a: string, b: string)
    requires IsDigits(a) && IsDigits(b) && |a| == |b| && DigitsValue(a) == DigitsValue(b)
    ensures a == b
  {
    if a != "" {
      SameDigits(a[..|a| - 1], b[..|b| - 1]);
      assert a == a[..|a| - 1] + [a[|a| - 1]] && b == b[..|b| - 1] + [b[|b| - 1]];
    }
  }

  lemma OneDigit(c: char)
    requires IsDigit(c)
    ensures IsDigits([c]) && DigitsValue([c]) == DigitValue(c)
  {
    assert [c][..0] == "";
  }

  lemma Product(a: nat, b: nat)
    requires a >= 1
    ensures a * b >= b
  {
  }

  /** A number without a leading zero needs all its digits. */
  lemma LeadingDigit(s: string)
    requires IsDigits(s) && s != "" && s[0] != '0'
    ensures Pow10(|s| - 1) <= DigitsValue(s)
  {
    assert s == [s[0]] + s[1..];
    DigitsCat([s[0]], s[1..]);
    OneDigit(s[0]);
    hide DigitsValue;
    Product(DigitValue(s[0]), Pow10(|s| - 1));
  }

  lemma {:induction false} Pow10Grows(a: nat, b: nat)
    requires a <= b
    ensures Pow10(a) <= Pow10(b)
  {
    if a < b {
      Pow10Grows(a, b - 1);
    }
  }

  /** Numbers without leading zeros have one text. */
  lemma SameInteger(a: string, b: string)
    requires IsDigits(a) && IsDigits(b) && a != "" && b != ""
    requires (a[0] == '0' ==> |a| == 1) && (b[0] == '0' ==> |b| == 1) && DigitsValue(a) == DigitsValue(b)
    ensures a == b
  {
    if |a| < |b| {
      LeadingDigit(b);
      DigitsBound(a);
      Pow10Grows(|a|, |b| - 1);
    } else if |b| < |a| {
      LeadingDigit(a);
      DigitsBound(b);
      Pow10Grows(|b|, |a| - 1);
    } else {
      SameDigits(a, b);
    }
  }

  // ----- Canonical texts are determined by their number

  /** The number's fraction, padded to the precision, and its integer part. */
  lemma ScaledSplit(s: string, p: nat, zeros: string)
    requires IsDecimal(s) && Precision(s) + |zeros| == p && forall i :: 0 <= i < |zeros| ==> zeros[i] == '0'
    ensures IsDigits(FractionPart(s) + zeros)
    ensures Scaled(s, p) == DigitsValue(IntegerPart(s)) * Pow10(p) + DigitsValue(FractionPart(s) + zeros)
  {
    var i, f := IntegerPart(s), FractionPart(s);
    Zeros(zeros);
    DigitsCat(i, f);
    DigitsCat(f, zeros);
    Pow10Add(|f|, |zeros|);
    hide DigitsValue, Pow10, IntegerPart, FractionPart;
    Distribute(DigitsValue(i), Pow10(|f|), DigitsValue(f), Pow10(|zeros|));
  }

  lemma Distribute(x: nat, a: nat, y: nat, b: nat)
    ensures (x * a + y) * b == x * (a * b) + y * b
  {
  }

  lemma NextMultiple(q: nat, m: nat, r: nat, q2: nat)
    requires q < q2 && r < m
    ensures q * m + r < q2 * m
  {
    assert (q + 1) * m <= q2 * m;
  }

  lemma DivideBy(q: nat, m: nat, r: nat, q2: nat, r2: nat)
    requires q * m + r == q2 * m + r2 && r < m && r2 < m
    ensures q == q2 && r == r2
  {
    if q < q2 {
      NextMultiple(q, m, r, q2);
    } else if q2 < q {
      NextMultiple(q2, m, r2, q);
    }
  }

  function Padding(n: nat): (z: string)
    ensures |z| == n && forall i :: 0 <= i < n ==> z[i] == '0'
  {
    seq(n, _ => '0')
  }

  lemma PaddedDiffer(f: string, g: string, p: nat)
    requires |f| < |g| <= p && g[|g| - 1] != '0'
    ensures f + Padding(p - |f|) != g + Padding(p - |g|)
  {
    assert (f + Padding(p - |f|))[|g| - 1] == '0' && (g + Padding(p - |g|))[|g| - 1] != '0';
  }

  lemma SamePadded(f: string, g: string, p: nat)
    requires |f| <= p && |g| <= p && f + Padding(p - |f|) == g + Padding(p - |g|)
    requires (f != "" ==> f[|f| - 1] != '0') && (g != "" ==> g[|g| - 1] != '0')
    ensures f == g
  {
    if |f| < |g| {
      PaddedDiffer(f, g, p);
    } else if |g| < |f| {
      PaddedDiffer(g, f, p);
    } else {
      SameLength(f, g, Padding(p - |f|), Padding(p - |g|));
    }
  }

  lemma PartsDetermine(a: string, b: string)
    requires IsDecimal(a) && IsDecimal(b) && IntegerPart(a) == IntegerPart(b) && FractionPart(a) == FractionPart(b)
    ensures a == b
  {
    var n := PointIndex(a);
    assert PointIndex(b) == n;
    if n < |a| {
      assert a == a[..n] + ["."[0]] + a[n + 1..];
      assert b == b[..n] + ["."[0]] + b[n + 1..];
    }
  }

  /** One number has one canonical text. */
  lemma CanonicalUnique(a: string, b: string, p: nat)
    requires IsCanonical(a) && IsCanonical(b) && Precision(a) <= p && Precision(b) <= p
    requires Scaled(a, p) == Scaled(b, p)
    ensures a == b
  {
    var f, g := FractionPart(a), FractionPart(b);
    var y, z := Padding(p - |f|), Padding(p - |g|);
    ScaledSplit(a, p, y);
    ScaledSplit(b, p, z);
    DigitsBound(f + y);
    DigitsBound(g + z);
    hide Scaled;
    DivideBy(DigitsValue(IntegerPart(a)), Pow10(p), DigitsValue(f + y),
             DigitsValue(IntegerPart(b)), DigitsValue(g + z));
    SameInteger(IntegerPart(a), IntegerPart(b));
    SameDigits(f + y, g + z);
    SamePadded(f, g, p);
    PartsDetermine(a, b);
  }

  // ----- Addition

  /** `s` is the canonical text of the sum. */
  predicate IsSum(left: string, right: string, s: string)
    requires IsDecimal(left) && IsDecimal(right)
  {
    var p := if Precision(left) < Precision(right) then Precision(right) else Precision(left);
    IsCanonical(s) && Precision(s) <= p && Scaled(s, p) == Scaled(left, p) + Scaled(right, p)
  }

  function Reversed(s: string): string {
    seq(|s|, i requires 0 <= i < |s| => s[|s| - 1 - i])
  }

  /** The number that the last `i` digits denote. */
  function Low(s: string, i: nat): nat
    requires IsDigits(s)
  {
    DigitsValue(if i < |s| then s[|s| - i..] else s)
  }

  /** The digit at a place, counted from the end; zero before the start. */
  function DigitAt(s: string, i: nat): (d: nat)
    requires IsDigits(s)
    ensures d < 10
  {
    if i < |s| then DigitValue(s[|s| - 1 - i]) else 0
  }

  lemma FirstDigit(c: char, s: string)
    requires IsDigit(c) && IsDigits(s)
    ensures IsDigits([c] + s) && DigitsValue([c] + s) == DigitValue(c) * Pow10(|s|) + DigitsValue(s)
  {
    OneDigit(c);
    DigitsCat([c], s);
  }

  lemma LowNext(s: string, i: nat)
    requires IsDigits(s)
    ensures Low(s, i + 1) == Low(s, i) + DigitAt(s, i) * Pow10(i)
  {
    if i < |s| {
      var c, rest := s[|s| - 1 - i], s[|s| - i..];
      FirstDigit(c, rest);
      assert s[|s| - (i + 1)..] == [c] + rest;
      assert i + 1 == |s| ==> s[0..] == s;
    }
  }

  lemma ReversedCons(result: string, c: char)
    ensures Reversed(result + [c]) == [c] + Reversed(result)
  {
  }

  lemma ReversedDigits(result: string)
    requires IsDigits(result)
    ensures IsDigits(Reversed(result))
  {
    hide IsDigit;
  }

  lemma ReversedNext(result: string, c: char)
    requires IsDigits(result) && IsDigit(c)
    ensures IsDigits(Reversed(result)) && IsDigits(Reversed(result + [c])) && IsDigits(result + [c])
    ensures DigitsValue(Reversed(result + [c])) == DigitValue(c) * Pow10(|result|) + DigitsValue(Reversed(result))
  {
    ReversedCons(result, c);
    ReversedDigits(result);
    FirstDigit(c, Reversed(result));
    assert |Reversed(result)| == |result|;
    hide DigitsValue, Reversed, Pow10, IsDigit;
  }

  /** One column of the addition keeps the digits so far and the carry equal to the sum. */
  lemma Column(low: nat, carry: nat, power: nat, x: nat, y: nat, a: nat, b: nat)
    requires low + carry * power == a + b
    ensures ((x + y + carry) % 10) * power + low + ((x + y + carry) / 10) * (10 * power) ==
      (a + x * power) + (b + y * power)
  {
    var sum := x + y + carry;
    var d, c := sum % 10, sum / 10;
    assert sum == d + 10 * c;
    assert d * power + c * (10 * power) == sum * power;
    assert sum * power == x * power + y * power + carry * power;
  }

  /** The digits so far, last first, and the carry make up the last `i` digits of both. */
  predicate IsSumSoFar(result: string, carry: nat, left: string, right: string, i: nat)
    requires IsDigits(left) && IsDigits(right)
  {
    && IsDigits(result) && |result| == i && carry <= 1 && IsDigits(Reversed(result))
    && DigitsValue(Reversed(result)) + carry * Pow10(i) == Low(left, i) + Low(right, i)
  }

  lemma NextColumn(result: string, carry: nat, left: string, right: string, i: nat)
    requires IsDigits(left) && IsDigits(right) && IsSumSoFar(result, carry, left, right, i)
    ensures var sum := DigitAt(left, i) + DigitAt(right, i) + carry;
      IsSumSoFar(result + [DigitChar(sum % 10)], sum / 10, left, right, i + 1)
  {
    LowNext(left, i);
    LowNext(right, i);
    hide DigitsValue, Low, DigitAt, Reversed, IsDigits;
    var sum := DigitAt(left, i) + DigitAt(right, i) + carry;
    Column(DigitsValue(Reversed(result)), carry, Pow10(i), DigitAt(left, i), DigitAt(right, i), Low(left, i),
      Low(right, i));
    ReversedNext(result, DigitChar(sum % 10));
  }

  lemma LastCarry(result: string, carry: nat, left: string, right: string, n: nat)
    requires IsDigits(left) && IsDigits(right) && |left| <= n && |right| <= n
    requires IsSumSoFar(result, carry, left, right, n)
    ensures var all := if carry != 0 then result + [DigitChar(carry)] else result;
      && IsDigits(all) && IsDigits(Reversed(all))
      && DigitsValue(Reversed(all)) == DigitsValue(left) + DigitsValue(right)
  {
    LowAll(left, n);
    LowAll(right, n);
    if carry != 0 {
      ReversedNext(result, DigitChar(carry));
    }
    hide DigitsValue, Low, Reversed, IsDigits;
  }

  /** Adds digit strings, from the last digit on; the sum comes last digit first. */
  method AddDigits(left: string, right: string) returns (result: string)
    requires IsDigits(left) && IsDigits(right)
    ensures IsDigits(result) && |result| >= |left| && |result| >= |right| && IsDigits(Reversed(result))
    ensures DigitsValue(Reversed(result)) == DigitsValue(left) + DigitsValue(right)
  {
    result := "";
    var carry: nat := 0;
    var n := if |left| < |right| then |right| else |left|;
    assert Reversed("") == "" && left[|left|..] == "" && right[|right|..] == "";
    assert IsSumSoFar(result, carry, left, right, 0);
    hide IsSumSoFar;
    for i := 0 to n
      invariant |result| == i && IsSumSoFar(result, carry, left, right, i)
    {
      NextColumn(result, carry, left, right, i);
      var sum := DigitAt(left, i) + DigitAt(right, i) + carry;
      result := result + [DigitChar(sum % 10)];
      carry := sum / 10;
    }
    LastCarry(result, carry, left, right, n);
    if carry != 0 {
      result := result + [DigitChar(carry)];
    }
  }

  lemma LowAll(s: string, n: nat)
    requires IsDigits(s) && |s| <= n
    ensures Low(s, n) == DigitsValue(s)
  {
  }

  /** Drops leading zeros that precede at least `kept` digits. */
  method DropZeros(digits: string, kept: nat) returns (result: string)
    requires IsDigits(digits) && |digits| >= kept && IsDigits(Reversed(digits))
    ensures IsDigits(result) && |result| >= kept && IsDigits(Reversed(result))
    ensures |result| > kept ==> result[|result| - 1] != '0'
    ensures DigitsValue(Reversed(result)) == DigitsValue(Reversed(digits))
  {
    result := digits;
    while |result| > kept && result[|result| - 1] == '0'
      invariant IsDigits(result) && |result| >= kept && IsDigits(Reversed(result))
      invariant DigitsValue(Reversed(result)) == DigitsValue(Reversed(digits))
    {
      ghost var shorter := result[..|result| - 1];
      assert result == shorter + ['0'];
      ReversedNext(shorter, '0');
      result := result[..|result| - 1];
    }
  }

  lemma PointAt(s: string, n: nat)
    requires n <= |s| && (n < |s| ==> s[n] == '.') && forall i :: 0 <= i < n ==> s[i] != '.'
    ensures PointIndex(s) == n
  {
  }

  /** What a text with these parts denotes. */
  lemma TextParts(integer: string, fraction: string)
    requires IsDigits(integer) && integer != "" && IsDigits(fraction)
    ensures var s := if fraction == "" then integer else integer + "." + fraction;
      IsDecimal(s) && IntegerPart(s) == integer && FractionPart(s) == fraction
  {
    var s := if fraction == "" then integer else integer + "." + fraction;
    assert forall i :: 0 <= i < |integer| ==> s[i] == integer[i] && IsDigit(integer[i]);
    assert s[..|integer|] == integer;
    PointAt(s, |integer|);
  }

  /** Removes the zeros that end the fraction, and the point when nothing is left of it. */
  method StripZeros(integer: string, fraction: string) returns (text: string, ghost kept: string)
    requires IsDigits(integer) && integer != "" && IsDigits(fraction) && fraction != ""
    ensures IsDecimal(text) && IntegerPart(text) == integer && FractionPart(text) == kept
    ensures |kept| <= |fraction| && fraction == kept + Padding(|fraction| - |kept|)
    ensures kept != "" ==> kept[|kept| - 1] != '0'
  {
    text := integer + "." + fraction;
    kept := fraction;
    while text != "" && text[|text| - 1] == '0'
      invariant |kept| <= |fraction| && kept == fraction[..|kept|] && fraction == kept + Padding(|fraction| - |kept|)
      invariant text == integer + "." + kept
      decreases |text|
    {
      assert kept != "";
      assert text[..|text| - 1] == integer + "." + kept[..|kept| - 1];
      text := text[..|text| - 1];
      kept := kept[..|kept| - 1];
    }
    TextParts(integer, kept);
    if text != "" && text[|text| - 1] == '.' {
      assert kept == "";
      text := text[..|text| - 1];
      assert text == integer;
    }
  }

  lemma PaddedValue(s: string, p: nat)
    requires IsDecimal(s) && Precision(s) <= p
    ensures var digits := IntegerPart(s) + FractionPart(s) + Padding(p - Precision(s));
      IsDigits(digits) && DigitsValue(digits) == Scaled(s, p) && |digits| > p
  {
    var zeros := Padding(p - Precision(s));
    Zeros(zeros);
    DigitsCat(IntegerPart(s), FractionPart(s));
    DigitsCat(IntegerPart(s) + FractionPart(s), zeros);
  }

  /** Writes digits, given last digit first, as a canonical text of this precision. */
  method PlacePoint(digits: string, p: nat) returns (text: string)
    requires IsDigits(digits) && |digits| > p && IsDigits(Reversed(digits))
    requires |digits| > p + 1 ==> digits[|digits| - 1] != '0'
    ensures IsCanonical(text) && Precision(text) <= p && Scaled(text, p) == DigitsValue(Reversed(digits))
  {
    var all := Reversed(digits);
    ReversedLength(digits);
    var integer, fraction := all[..|all| - p], all[|all| - p..];
    assert all == integer + fraction;
    assert IsDigits(integer) && IsDigits(fraction) && (integer[0] == '0' ==> |integer| == 1);
    hide DigitsValue, Reversed, Scaled, IsDecimal, IntegerPart, FractionPart;
    if p == 0 {
      text := all;
      assert integer == all;
      TextParts(all, "");
      assert all + "" + Padding(0) == all;
      CanonicalIs(text, p);
    } else {
      ghost var kept;
      text, kept := StripZeros(integer, fraction);
      Cat2(integer, kept, Padding(p - |kept|));
      CanonicalIs(text, p);
    }
  }

  lemma CanonicalIs(text: string, p: nat)
    requires IsDecimal(text) && Precision(text) <= p
    requires IntegerPart(text)[0] == '0' ==> |IntegerPart(text)| == 1
    requires FractionPart(text) != "" ==> FractionPart(text)[Precision(text) - 1] != '0'
    ensures IsCanonical(text)
    ensures var digits := IntegerPart(text) + FractionPart(text) + Padding(p - Precision(text));
      IsDigits(digits) && Scaled(text, p) == DigitsValue(digits)
  {
    PaddedValue(text, p);
    hide DigitsValue, Scaled;
  }

  lemma ReversedLength(s: string)
    ensures |Reversed(s)| == |s| && (s != "" ==> Reversed(s)[0] == s[|s| - 1])
  {
  }

  lemma SumIs(left: string, right: string, text: string, p: nat)
    requires IsDecimal(left) && IsDecimal(right) && IsCanonical(text) && Precision(text) <= p
    requires p == if Precision(left) < Precision(right) then Precision(right) else Precision(left)
    requires Scaled(text, p) == Scaled(left, p) + Scaled(right, p)
    ensures IsSum(left, right, text)
  {
    hide Scaled, IsCanonical;
  }

  /** The digits of a decimal text, with zeros up to the precision. */
  function AlignedDigits(parts: (string, string), p: nat): string
    requires |parts.1| <= p
  {
    parts.0 + parts.1 + Padding(p - |parts.1|)
  }

  lemma AlignedValue(s: string, p: nat)
    requires IsDecimal(s) && Precision(s) <= p
    ensures DecimalParts(s).Some? && |DecimalParts(s).value.1| == Precision(s)
    ensures var digits := AlignedDigits(DecimalParts(s).value, p);
      IsDigits(digits) && DigitsValue(digits) == Scaled(s, p) && |digits| > p
  {
    PaddedValue(s, p);
    hide Scaled, DigitsValue, IsDigits;
  }

  /** Adds two decimal texts exactly, when both are decimal texts. */
  method AddDecimalStrings(left: string, right: string) returns (sum: Option<string>)
    ensures sum.Some? <==> IsDecimal(left) && IsDecimal(right)
    ensures sum.Some? ==> IsSum(left, right, sum.value)
  {
    var l, r := DecimalParts(left), DecimalParts(right);
    if l.None? || r.None? {
      return None;
    }
    var p := if |l.value.1| < |r.value.1| then |r.value.1| else |l.value.1|;
    AlignedValue(left, p);
    AlignedValue(right, p);
    hide *;
    var digits := AddDigits(AlignedDigits(l.value, p), AlignedDigits(r.value, p));
    digits := DropZeros(digits, p + 1);
    var text := PlacePoint(digits, p);
    SumIs(left, right, text, p);
    sum := Some(text);
  }
}

/** Percent-coding of URI fragments (RFC 3986, sections 2.1 and 3.5) over byte strings. */
module UriFragments {
  import opened Options
  import opened Sequences

  predicate IsByte(c: char) {
    c as int < 256
  }

  predicate IsBytes(s: string) {
    forall i :: 0 <= i < |s| ==> IsByte(s[i])
  }

  predicate Within(s: string, i: nat, lo: int, hi: int) {
    i < |s| && lo <= s[i] as int <= hi
  }

  /** The length of the UTF-8 sequence at the start of `s`; 0 when there is none. */
  function SequenceLength(s: string): (n: nat)
    requires s != ""
    ensures n <= |s|
  {
    if Within(s, 0, 0, 0x7F) then 1
    else if Within(s, 0, 0xC2, 0xDF) && Within(s, 1, 0x80, 0xBF) then 2
    else if Within(s, 0, 0xE0, 0xEF) && Within(s, 2, 0x80, 0xBF)
         && Within(s, 1, if s[0] as int == 0xE0 then 0xA0 else 0x80, if s[0] as int == 0xED then 0x9F else 0xBF) then 3
    else if Within(s, 0, 0xF0, 0xF4) && Within(s, 2, 0x80, 0xBF) && Within(s, 3, 0x80, 0xBF)
         && Within(s, 1, if s[0] as int == 0xF0 then 0x90 else 0x80, if s[0] as int == 0xF4 then 0x8F else 0xBF) then 4
    else 0
  }

  predicate IsUtf8(s: string) {
    s != "" ==> SequenceLength(s) > 0 && IsUtf8(s[SequenceLength(s)..])
  }

  function HexValue(c: char): Option<nat> {
    if '0' <= c <= '9' then Some(c as int - '0' as int)
    else if 'a' <= c <= 'f' then Some(c as int - 'a' as int + 10)
    else if 'A' <= c <= 'F' then Some(c as int - 'A' as int + 10)
    else None
  }

  const HEX: string := "0123456789ABCDEF"

  /** The characters RFC 3986 lets stand for themselves in a fragment. */
  predicate Plain(c: char) {
    '0' <= c <= '9' || 'a' <= c <= 'z' || 'A' <= c <= 'Z' || c in "-._~!$&'()*+,;=:@/?"
  }

  /** The bytes a fragment stands for, before they are read as text. */
  function DecodeBytes(s: string): Option<string> {
    if s == "" then Some("")
    else if s[0] != '%' then Prepend([s[0]], DecodeBytes(s[1..]))
    else if |s| < 3 || HexValue(s[1]).None? || HexValue(s[2]).None? then None
    else Prepend([(HexValue(s[1]).value * 16 + HexValue(s[2]).value) as char], DecodeBytes(s[3..]))
  }

  function Prepend(s: string, o: Option<string>): Option<string> {
    match o
    case None => None
    case Some(rest) => Some(s + rest)
  }

  lemma PrependCat(s: string, c: char, o: Option<string>)
    ensures Prepend(s, Prepend([c], o)) == Prepend(s + [c], o)
  {
    if o.Some? {
      Cat2(s, [c], o.value);
    }
  }

  function Decode(fragment: string): Option<string> {
    match DecodeBytes(fragment)
    case None => None
    case Some(bytes) => if IsUtf8(bytes) then Some(bytes) else None
  }

  function HighNibble(c: char): (n: nat)
    ensures n < 16
    ensures IsByte(c) ==> n * 16 + LowNibble(c) == c as int
  {
    c as int / 16 % 16
  }

  function LowNibble(c: char): (n: nat)
    ensures n < 16
  {
    c as int % 16
  }

  function EncodeByte(c: char): string {
    if Plain(c) then [c] else ['%', HEX[HighNibble(c)], HEX[LowNibble(c)]]
  }

  function Encode(s: string): string {
    if s == "" then "" else EncodeByte(s[0]) + Encode(s[1..])
  }

  lemma HexDigits(n: nat)
    requires n < 16
    ensures HexValue(HEX[n]) == Some(n)
  {
  }

  lemma DecodeOne(c: char, rest: string)
    requires IsByte(c)
    ensures DecodeBytes(EncodeByte(c) + rest) == Prepend([c], DecodeBytes(rest))
  {
    var code := EncodeByte(c);
    assert (code + rest)[|code|..] == rest;
    if !Plain(c) {
      hide HEX, HighNibble, LowNibble;
      HexDigits(HighNibble(c));
      HexDigits(LowNibble(c));
    }
  }

  lemma {:induction false} DecodeEncodeBytes(s: string)
    requires IsBytes(s)
    ensures DecodeBytes(Encode(s)) == Some(s)
  {
    if s != "" {
      DecodeOne(s[0], Encode(s[1..]));
      DecodeEncodeBytes(s[1..]);
      assert s == [s[0]] + s[1..];
    }
  }

  /** Encoding text and decoding it gives the text back. */
  lemma DecodeEncode(s: string)
    requires IsBytes(s) && IsUtf8(s)
    ensures Decode(Encode(s)) == Some(s)
  {
    DecodeEncodeBytes(s);
  }

  /** The characters that RFC 3986 (section 3.5) lets stand for themselves in a fragment: unreserved
      characters, sub-delimiters, colon, at sign, slash and question mark. */
  predicate StandsForItself(c: char) {
    'A' <= c <= 'Z' || 'a' <= c <= 'z' || '0' <= c <= '9' || c in "-._~" || c in "!$&'()*+,;=" || c in ":@/?"
  }

  lemma PlainIs(c: char)
    ensures Plain(c) <==> StandsForItself(c)
  {
    PunctuationIs(c);
  }

  lemma PunctuationIs(c: char)
    ensures c in "-._~!$&'()*+,;=:@/?" <==> c in "-._~" || c in "!$&'()*+,;=" || c in ":@/?"
  {
  }

  lemma {:induction false} EncodeCat(a: string, b: string)
    ensures Encode(a + b) == Encode(a) + Encode(b)
  {
    hide EncodeByte;
    if a == "" {
      assert a + b == b;
    } else {
      assert (a + b)[1..] == a[1..] + b;
      EncodeCat(a[1..], b);
      Cat2(EncodeByte(a[0]), Encode(a[1..]), Encode(b));
    }
  }

  lemma EncodeOne(c: char)
    requires IsByte(c)
    ensures Encode([c]) == if StandsForItself(c) then [c]
      else ['%', "0123456789ABCDEF"[c as int / 16], "0123456789ABCDEF"[c as int % 16]]
  {
    PlainIs(c);
    hide StandsForItself, Plain;
    assert [c][1..] == "" && EncodeByte(c) + "" == EncodeByte(c);
  }

  /** A byte is encoded as itself when it may stand for itself, and otherwise as a percent sign and two
      upper-case digits; bytes one after the other. */
  lemma EncodeSpells(a: string, c: char, b: string)
    requires IsByte(c)
    ensures Encode("") == ""
    ensures Encode(a + [c] + b) == Encode(a) + (if StandsForItself(c) then [c]
      else ['%', "0123456789ABCDEF"[c as int / 16], "0123456789ABCDEF"[c as int % 16]]) + Encode(b)
  {
    EncodeOne(c);
    EncodeCat(a + [c], b);
    EncodeCat(a, [c]);
    hide StandsForItself, EncodeByte;
  }

  /** The value of a hexadecimal digit in either case. */
  predicate IsHex(c: char, n: nat) {
    n < 16 && (c == "0123456789ABCDEF"[n] || c == "0123456789abcdef"[n])
  }

  lemma HexValueIs(c: char, n: nat)
    requires IsHex(c, n)
    ensures HexValue(c) == Some(n)
  {
  }

  predicate IsHexDigit(c: char) {
    '0' <= c <= '9' || 'a' <= c <= 'f' || 'A' <= c <= 'F'
  }

  /** A percent sign and two hexadecimal digits of either case stand for a byte. */
  lemma EscapeDecodes(a: char, h: nat, b: char, l: nat, rest: string)
    requires IsHex(a, h) && IsHex(b, l)
    ensures DecodeBytes(['%', a, b] + rest) == Prepend([(h * 16 + l) as char], DecodeBytes(rest))
  {
    HexValueIs(a, h);
    HexValueIs(b, l);
    var s := ['%', a, b] + rest;
    assert s[0] == '%' && s[1] == a && s[2] == b && s[3..] == rest;
    hide HexValue, IsHex;
  }

  /** Anything else after a percent sign stands for nothing, and every other character for itself. */
  lemma OthersDecode(s: string)
    requires s != ""
    ensures s[0] != '%' ==> DecodeBytes(s) == Prepend([s[0]], DecodeBytes(s[1..]))
    ensures s[0] == '%' && (|s| < 3 || !IsHexDigit(s[1]) || !IsHexDigit(s[2])) ==> DecodeBytes(s) == None
  {
  }

  lemma ByteIsFragment(c: char)
    ensures forall i :: 0 <= i < |EncodeByte(c)| ==> StandsForItself(EncodeByte(c)[i]) || EncodeByte(c)[i] == '%'
  {
    PlainIs(c);
    if !Plain(c) {
      UpperIsFragment(HighNibble(c));
      UpperIsFragment(LowNibble(c));
    }
    hide Plain, StandsForItself, HEX;
  }

  lemma UpperIsFragment(n: nat)
    requires n < 16
    ensures StandsForItself(HEX[n])
  {
  }

  /** An encoded fragment uses only the characters a fragment may hold. */
  lemma {:induction false} EncodeIsFragment(s: string)
    ensures forall i :: 0 <= i < |Encode(s)| ==> StandsForItself(Encode(s)[i]) || Encode(s)[i] == '%'
  {
    hide StandsForItself, EncodeByte;
    if s != "" {
      EncodeIsFragment(s[1..]);
      ByteIsFragment(s[0]);
    }
  }

  method DecodeFragment(fragment: string) returns (r: Option<string>)
    ensures r == Decode(fragment)
  {
    var decoded, i := "", 0;
    assert fragment[0..] == fragment;
    assert DecodeBytes(fragment).Some? ==> "" + DecodeBytes(fragment).value == DecodeBytes(fragment).value;
    while i < |fragment|
      invariant 0 <= i <= |fragment|
      invariant DecodeBytes(fragment) == Prepend(decoded, DecodeBytes(fragment[i..]))
    {
      var byte := fragment[i];
      if byte == '%' {
        if |fragment| < i + 3 {
          return None;
        }
        var high, low := HexValue(fragment[i + 1]), HexValue(fragment[i + 2]);
        if high.None? || low.None? {
          return None;
        }
        assert fragment[i..][3..] == fragment[i + 3..];
        PrependCat(decoded, (high.value * 16 + low.value) as char, DecodeBytes(fragment[i + 3..]));
        decoded := decoded + [(high.value * 16 + low.value) as char];
        i := i + 3;
      } else {
        assert fragment[i..][1..] == fragment[i + 1..];
        PrependCat(decoded, byte, DecodeBytes(fragment[i + 1..]));
        decoded := decoded + [byte];
        i := i + 1;
      }
    }
    assert fragment[i..] == "" && decoded + "" == decoded;
    r := if IsUtf8(decoded) then Some(decoded) else None;
  }

  method EncodeFragment(fragment: string) returns (encoded: string)
    ensures encoded == Encode(fragment)
  {
    encoded := "";
    for i := 0 to |fragment|
      invariant encoded + Encode(fragment[i..]) == Encode(fragment)
    {
      var byte := fragment[i];
      ghost var before := encoded;
      assert fragment[i..][1..] == fragment[i + 1..];
      if Plain(byte) {
        encoded := encoded + [byte];
      } else {
        encoded := encoded + ['%'];
        encoded := encoded + [HEX[HighNibble(byte)]];
        encoded := encoded + [HEX[LowNibble(byte)]];
      }
      assert encoded == before + EncodeByte(byte);
      Cat2(before, EncodeByte(byte), Encode(fragment[i + 1..]));
    }
  }

  // ----- UTF-8 text and its parts

  lemma SequenceOfPart(a: string, b: string)
    requires a != "" && SequenceLength(a) > 0
    ensures SequenceLength(a + b) == SequenceLength(a)
  {
    forall i | 0 <= i < |a|
      ensures (a + b)[i] == a[i]
    {
    }
  }

  lemma {:induction false} Utf8Cat(a: string, b: string)
    requires IsUtf8(a) && IsUtf8(b)
    ensures IsUtf8(a + b)
    decreases |a|
  {
    if a == "" {
      assert a + b == b;
    } else {
      var n := SequenceLength(a);
      SequenceOfPart(a, b);
      assert (a + b)[n..] == a[n..] + b;
      Utf8Cat(a[n..], b);
    }
  }

  /** Text may be cut in front of any ASCII character. */
  lemma {:induction false} Utf8Split(a: string, b: string)
    requires IsUtf8(a + b) && (b == "" || b[0] as int < 0x80)
    ensures IsUtf8(a) && IsUtf8(b)
    decreases |a|
  {
    if a == "" {
      assert a + b == b;
    } else {
      var n := SequenceLength(a + b);
      assert forall i :: 0 <= i < |a| ==> (a + b)[i] == a[i];
      assert b != "" ==> (a + b)[|a|] == b[0];
      assert SequenceLength(a) == n;
      assert (a + b)[n..] == a[n..] + b;
      Utf8Split(a[n..], b);
    }
  }

  lemma {:induction false} AsciiIsUtf8(s: string)
    requires forall i :: 0 <= i < |s| ==> s[i] as int < 0x80
    ensures IsUtf8(s) && IsBytes(s)
    decreases |s|
  {
    if s != "" {
      AsciiIsUtf8(s[1..]);
    }
  }

  // ----- UTF-8 text is what encodes Unicode scalar values

  predicate IsScalar(n: int) {
    0 <= n < 0xD800 || 0xE000 <= n < 0x11_0000
  }

  predicate AreScalars(ns: seq<int>) {
    forall i :: 0 <= i < |ns| ==> IsScalar(ns[i])
  }

  /** The bytes of a scalar value (RFC 3629, section 3). */
  function Utf8Of(n: int): (s: string)
    requires IsScalar(n)
    ensures s != ""
  {
    if n < 0x80 then [n as char]
    else if n < 0x800 then [(0xC0 + n / 64) as char, (0x80 + n % 64) as char]
    else if n < 0x1_0000 then [(0xE0 + n / 4096) as char, (0x80 + n / 64 % 64) as char, (0x80 + n % 64) as char]
    else [(0xF0 + n / 262144) as char, (0x80 + n / 4096 % 64) as char, (0x80 + n / 64 % 64) as char,
          (0x80 + n % 64) as char]
  }

  function Utf8Text(ns: seq<int>): string
    requires AreScalars(ns)
  {
    if ns == [] then "" else Utf8Of(ns[0]) + Utf8Text(ns[1..])
  }

  lemma ScalarIsSequence(n: int)
    requires IsScalar(n)
    ensures SequenceLength(Utf8Of(n)) == |Utf8Of(n)|
  {
    var s := Utf8Of(n);
    if n < 0x80 {
    } else if n < 0x800 {
      assert 2 <= n / 64 < 32;
    } else if n < 0x1_0000 {
      assert n / 64 / 64 == n / 4096;
      assert n / 4096 == 0 ==> n / 64 % 64 >= 32;
      assert n / 4096 == 13 ==> n / 64 % 64 < 32;
    } else {
      assert n / 4096 / 64 == n / 262144;
      assert n / 262144 == 0 ==> n / 4096 % 64 >= 16;
      assert n / 262144 == 4 ==> n / 4096 % 64 < 16;
    }
  }

  /** The value of the sequence at the start of `s`. */
  lemma SequenceIsScalar(s: string) returns (n: int)
    requires s != "" && SequenceLength(s) > 0
    ensures IsScalar(n) && s[..SequenceLength(s)] == Utf8Of(n)
  {
    var k := SequenceLength(s);
    var a := s[0] as int;
    if k == 1 {
      n := a;
      assert s[..1] == [s[0]];
    } else if k == 2 {
      n := TwoBytes(a - 0xC0, s[1] as int - 0x80);
      assert s[..2] == [s[0], s[1]];
    } else if k == 3 {
      n := ThreeBytes(a - 0xE0, s[1] as int - 0x80, s[2] as int - 0x80);
      assert s[..3] == [s[0], s[1], s[2]];
    } else {
      n := FourBytes(a - 0xF0, s[1] as int - 0x80, s[2] as int - 0x80, s[3] as int - 0x80);
      assert s[..4] == [s[0], s[1], s[2], s[3]];
    }
  }

  lemma TwoBytes(a: int, b: int) returns (n: int)
    requires 2 <= a < 32 && 0 <= b < 64
    ensures IsScalar(n) && 0x80 <= n < 0x800 && n / 64 == a && n % 64 == b
  {
    n := a * 64 + b;
  }

  lemma ThreeBytes(a: int, b: int, c: int) returns (n: int)
    requires 0 <= a < 16 && 0 <= b < 64 && 0 <= c < 64 && (a == 0 ==> b >= 32) && (a == 13 ==> b < 32)
    ensures IsScalar(n) && 0x800 <= n < 0x1_0000 && n / 4096 == a && n / 64 % 64 == b && n % 64 == c
  {
    n := (a * 64 + b) * 64 + c;
    assert n / 64 == a * 64 + b;
  }

  lemma FourBytes(a: int, b: int, c: int, d: int) returns (n: int)
    requires 0 <= a < 5 && 0 <= b < 64 && 0 <= c < 64 && 0 <= d < 64 && (a == 0 ==> b >= 16) && (a == 4 ==> b < 16)
    ensures IsScalar(n) && 0x1_0000 <= n && n / 262144 == a && n / 4096 % 64 == b && n / 64 % 64 == c && n % 64 == d
  {
    n := ((a * 64 + b) * 64 + c) * 64 + d;
    assert n / 64 == (a * 64 + b) * 64 + c;
    assert n / 4096 == a * 64 + b;
  }

  lemma {:induction false} ScalarsAreUtf8(ns: seq<int>)
    requires AreScalars(ns)
    ensures IsUtf8(Utf8Text(ns))
  {
    if ns != [] {
      var first, rest := Utf8Of(ns[0]), Utf8Text(ns[1..]);
      ScalarIsSequence(ns[0]);
      SequenceOfPart(first, rest);
      ScalarsAreUtf8(ns[1..]);
      hide SequenceLength, Utf8Of;
      assert (first + rest)[|first|..] == rest;
    }
  }

  lemma TextFirst(n: int, rest: seq<int>)
    requires IsScalar(n) && AreScalars(rest)
    ensures AreScalars([n] + rest) && Utf8Text([n] + rest) == Utf8Of(n) + Utf8Text(rest)
  {
    hide IsScalar, Utf8Of;
    assert ([n] + rest)[1..] == rest;
  }

  lemma {:induction false} Utf8IsScalars(s: string) returns (ns: seq<int>)
    requires IsUtf8(s)
    ensures AreScalars(ns) && Utf8Text(ns) == s
    decreases |s|
  {
    ns := [];
    if s != "" {
      var k := SequenceLength(s);
      var n := SequenceIsScalar(s);
      hide SequenceLength, Utf8Of, IsScalar, Utf8Text, AreScalars;
      var rest := Utf8IsScalars(s[k..]);
      ns := [n] + rest;
      TextFirst(n, rest);
      assert s == s[..k] + s[k..];
    }
  }

  /** A string is UTF-8 text if and only if it encodes a sequence of Unicode scalar values. */
  lemma Utf8IsEncoding(s: string)
    ensures IsUtf8(s) <==> exists ns :: AreScalars(ns) && Utf8Text(ns) == s
  {
    hide Utf8Text, AreScalars, IsUtf8;
    if IsUtf8(s) {
      var ns := Utf8IsScalars(s);
    }
    if ns :| AreScalars(ns) && Utf8Text(ns) == s {
      ScalarsAreUtf8(ns);
    }
  }
}

/** The JSON texts of RFC 8259 (sections 2 to 7) as concrete syntax trees.

    A tree keeps every character of its text, insignificant whitespace included, so
    `Text` is the grammar read as a printer: a string is a JSON text exactly when it is
    `DocumentText(d)` for some well-formed document `d`.  Arrays and objects share one
    shape: a bracketed list of entries, where an object's entries carry a key. */
module JsonGrammar {
  import opened Digits
  import opened Sequences

  predicate IsWsChar(c: char) {
    c == ' ' || c == '\t' || c == '\n' || c == '\r'
  }

  predicate IsWs(s: string) {
    forall i :: 0 <= i < |s| ==> IsWsChar(s[i])
  }

  predicate IsHexDigit(c: char) {
    IsDigit(c) || 'a' <= c <= 'f' || 'A' <= c <= 'F'
  }

  function HexDigitValue(c: char): (v: nat)
    requires IsHexDigit(c)
    ensures v < 16
  {
    if IsDigit(c) then c as int - '0' as int
    else if 'a' <= c then c as int - 'a' as int + 10
    else c as int - 'A' as int + 10
  }

  /** The characters that may appear in a number: a number ends before any other. */
  predicate IsNumberChar(c: char) {
    IsDigit(c) || c == '-' || c == '+' || c == '.' || c == 'e' || c == 'E'
  }

  /** The terminal characters of RFC 8259 (sections 2, 6 and 7). */
  lemma TerminalsAre(c: char, n: nat)
    requires n < 16
    ensures IsWsChar(c) <==> c in " \t\n\r"
    ensures IsHexDigit(c) && HexDigitValue(c) == n <==> c == "0123456789abcdef"[n] || c == "0123456789ABCDEF"[n]
    ensures IsNumberChar(c) <==> c in "0123456789+-.eE"
  {
    WhitespaceIs(c);
    HexDigitIs(c, n);
    NumberCharIs(c);
  }

  lemma WhitespaceIs(c: char)
    ensures IsWsChar(c) <==> c in " \t\n\r"
  {
  }

  lemma HexDigitIs(c: char, n: nat)
    requires n < 16
    ensures IsHexDigit(c) && HexDigitValue(c) == n <==> c == "0123456789abcdef"[n] || c == "0123456789ABCDEF"[n]
  {
  }

  lemma NumberCharIs(c: char)
    ensures IsNumberChar(c) <==> c in "0123456789+-.eE"
  {
    if IsDigit(c) {
      assert "0123456789+-.eE"[c as int - '0' as int] == c;
    }
  }

  // ----- Syntax trees

  /** One character of a string: itself, a two-character escape, or `\u` and four hex digits. */
  datatype StringItem =
    | Plain(ch: char)
    | Escape(ch: char)
    | Unicode(h0: char, h1: char, h2: char, h3: char)

  datatype Exponent = NoExponent | Exponent(e: char, sign: string, digits: string)

  /** `fraction` holds the digits after the point; empty when there is no point. */
  datatype Number = Number(minus: bool, integer: string, fraction: string, exponent: Exponent)

  datatype Kind = Array | Object

  datatype Json =
    | Literal(name: string)
    | Numeric(number: Number)
    | Str(items: seq<StringItem>)
    | Empty(kind: Kind, pad: string)
    | Full(kind: Kind, pad: string, entries: Entries)

  /** `gap` is the whitespace before the colon, `lead` the whitespace after it. */
  datatype Key = NoKey | Key(items: seq<StringItem>, gap: string, lead: string)

  /** `after` is the whitespace after the value, `before` the whitespace after the comma. */
  datatype Entries =
    | Last(key: Key, value: Json, after: string)
    | More(key: Key, value: Json, after: string, before: string, rest: Entries)

  datatype Document = Document(lead: string, value: Json, trail: string)

  // ----- Well-formedness

  predicate IsLiteral(s: string) {
    s == "true" || s == "false" || s == "null"
  }

  predicate GoodItem(item: StringItem) {
    match item
    case Plain(ch) => ch as int >= 0x20 && ch != '\"' && ch != '\\'
    case Escape(ch) => ch in "\"\\/bfnrt"
    case Unicode(a, b, c, d) => IsHexDigit(a) && IsHexDigit(b) && IsHexDigit(c) && IsHexDigit(d)
  }

  predicate GoodItems(items: seq<StringItem>) {
    forall i :: 0 <= i < |items| ==> GoodItem(items[i])
  }

  predicate GoodExponent(x: Exponent) {
    match x
    case NoExponent => true
    case Exponent(e, sign, digits) =>
      (e == 'e' || e == 'E') && (sign == "" || sign == "+" || sign == "-") && digits != "" && IsDigits(digits)
  }

  predicate GoodNumber(n: Number) {
    && n.integer != "" && IsDigits(n.integer) && (n.integer[0] == '0' ==> |n.integer| == 1)
    && IsDigits(n.fraction)
    && GoodExponent(n.exponent)
  }

  predicate GoodKey(kind: Kind, key: Key) {
    match key
    case NoKey => kind == Array
    case Key(items, gap, lead) => kind == Object && GoodItems(items) && IsWs(gap) && IsWs(lead)
  }

  predicate Good(v: Json) {
    match v
    case Literal(name) => IsLiteral(name)
    case Numeric(n) => GoodNumber(n)
    case Str(items) => GoodItems(items)
    case Empty(_, pad) => IsWs(pad)
    case Full(kind, pad, entries) => IsWs(pad) && GoodEntries(kind, entries)
  }

  predicate GoodEntries(kind: Kind, es: Entries)
    decreases es
  {
    match es
    case Last(key, value, after) => GoodKey(kind, key) && Good(value) && IsWs(after)
    case More(key, value, after, before, rest) =>
      GoodKey(kind, key) && Good(value) && IsWs(after) && IsWs(before) && GoodEntries(kind, rest)
  }

  predicate GoodDocument(d: Document) {
    IsWs(d.lead) && Good(d.value) && IsWs(d.trail)
  }

  // ----- Printing

  function ItemText(item: StringItem): (s: string)
    ensures s != ""
  {
    match item
    case Plain(ch) => [ch]
    case Escape(ch) => ['\\', ch]
    case Unicode(a, b, c, d) => ['\\', 'u', a, b, c, d]
  }

  function ItemsText(items: seq<StringItem>): string {
    if items == [] then "" else ItemText(items[0]) + ItemsText(items[1..])
  }

  function Quoted(items: seq<StringItem>): string {
    "\"" + (ItemsText(items) + "\"")
  }

  function MinusText(minus: bool): string {
    if minus then "-" else ""
  }

  function FractionText(fraction: string): string {
    if fraction == "" then "" else "." + fraction
  }

  function ExponentText(x: Exponent): string {
    match x
    case NoExponent => ""
    case Exponent(e, sign, digits) => [e] + (sign + digits)
  }

  function IntegerText(n: Number): string {
    MinusText(n.minus) + n.integer
  }

  function TailText(n: Number): string {
    FractionText(n.fraction) + ExponentText(n.exponent)
  }

  function NumberText(n: Number): string {
    IntegerText(n) + TailText(n)
  }

  function OpenText(kind: Kind): string {
    if kind == Array then "[" else "{"
  }

  function CloseText(kind: Kind): string {
    if kind == Array then "]" else "}"
  }

  function KeyText(key: Key): string {
    match key
    case NoKey => ""
    case Key(items, gap, lead) => Quoted(items) + (gap + (":" + lead))
  }

  function Text(v: Json): string {
    match v
    case Literal(name) => name
    case Numeric(n) => NumberText(n)
    case Str(items) => Quoted(items)
    case Empty(kind, pad) => OpenText(kind) + (pad + CloseText(kind))
    case Full(kind, pad, entries) => OpenText(kind) + (pad + (EntriesText(entries) + CloseText(kind)))
  }

  function EntriesText(es: Entries): string {
    match es
    case Last(key, value, after) => KeyText(key) + (Text(value) + after)
    case More(key, value, after, before, rest) =>
      KeyText(key) + (Text(value) + (after + ("," + (before + EntriesText(rest)))))
  }

  function DocumentText(d: Document): string {
    d.lead + (Text(d.value) + d.trail)
  }

  /** RFC 8259: the string is a JSON text. */
  ghost predicate IsJsonText(s: string) {
    exists d: Document :: GoodDocument(d) && DocumentText(d) == s
  }

  // ----- First characters

  /** `s` is at its end or continues with a character no number holds. */
  predicate Stops(s: string) {
    s != "" ==> !IsNumberChar(s[0])
  }

  predicate NoWsAhead(s: string) {
    s != "" ==> !IsWsChar(s[0])
  }

  lemma TextStart(v: Json)
    requires Good(v)
    ensures Text(v) != "" && !IsWsChar(Text(v)[0])
    ensures Text(v)[0] !in {',', ']', '}', ':'}
    ensures Text(v)[0] == (match v
                           case Literal(name) => name[0]
                           case Numeric(n) => if n.minus then '-' else n.integer[0]
                           case Str(_) => '\"'
                           case Empty(kind, _) => OpenText(kind)[0]
                           case Full(kind, _, _) => OpenText(kind)[0])
  {
  }

  lemma EntriesStart(kind: Kind, es: Entries)
    requires GoodEntries(kind, es)
    ensures EntriesText(es) != "" && !IsWsChar(EntriesText(es)[0]) && EntriesText(es)[0] != CloseText(kind)[0]
  {
    TextStart(es.value);
  }

  // ----- Unique readability: a text is the print of at most one tree

  lemma UniqueWs(a: string, b: string, s: string, t: string)
    requires a + s == b + t && IsWs(a) && IsWs(b) && NoWsAhead(s) && NoWsAhead(t)
    ensures a == b && s == t
  {
    UniqueRun(IsWsChar, a, b, s, t);
  }

  lemma UniqueDigits(a: string, b: string, s: string, t: string)
    requires a + s == b + t && IsDigits(a) && IsDigits(b)
    requires (s != "" ==> !IsDigit(s[0])) && (t != "" ==> !IsDigit(t[0]))
    ensures a == b && s == t
  {
    UniqueRun(IsDigit, a, b, s, t);
  }

  lemma UniqueItem(a: StringItem, b: StringItem, s: string, t: string)
    requires GoodItem(a) && GoodItem(b) && ItemText(a) + s == ItemText(b) + t
    ensures a == b && s == t
  {
    var x, y := ItemText(a), ItemText(b);
    assert x[0] == (x + s)[0] == (y + t)[0] == y[0];
    if x[0] == '\\' {
      assert x[1] == (x + s)[1] == (y + t)[1] == y[1];
    }
    SameLength(x, y, s, t);
    if a.Unicode? {
      assert x[2] == y[2] && x[3] == y[3] && x[4] == y[4] && x[5] == y[5];
    }
  }

  lemma ItemsTextStart(a: seq<StringItem>, s: string)
    requires GoodItems(a)
    ensures var text := ItemsText(a) + ("\"" + s); text != "" && (text[0] == '\"' <==> a == [])
  {
    if a != [] {
      Cat2(ItemText(a[0]), ItemsText(a[1..]), "\"" + s);
    }
  }

  lemma {:induction false} UniqueItems(a: seq<StringItem>, b: seq<StringItem>, s: string, t: string)
    requires GoodItems(a) && GoodItems(b)
    requires ItemsText(a) + ("\"" + s) == ItemsText(b) + ("\"" + t)
    ensures a == b && s == t
  {
    ItemsTextStart(a, s);
    ItemsTextStart(b, t);
    if a == [] {
      assert "" + ("\"" + s) == "\"" + s && "" + ("\"" + t) == "\"" + t;
      SamePrefix("\"", s, t);
    } else {
      Cat2(ItemText(a[0]), ItemsText(a[1..]), "\"" + s);
      Cat2(ItemText(b[0]), ItemsText(b[1..]), "\"" + t);
      UniqueItem(a[0], b[0], ItemsText(a[1..]) + ("\"" + s), ItemsText(b[1..]) + ("\"" + t));
      UniqueItems(a[1..], b[1..], s, t);
      assert a == [a[0]] + a[1..] && b == [b[0]] + b[1..];
    }
  }

  lemma UniqueQuoted(a: seq<StringItem>, b: seq<StringItem>, s: string, t: string)
    requires GoodItems(a) && GoodItems(b) && Quoted(a) + s == Quoted(b) + t
    ensures a == b && s == t
  {
    Cat3("\"", ItemsText(a), "\"", s);
    Cat3("\"", ItemsText(b), "\"", t);
    SamePrefix("\"", ItemsText(a) + ("\"" + s), ItemsText(b) + ("\"" + t));
    UniqueItems(a, b, s, t);
  }

  lemma UniqueExponent(x: Exponent, y: Exponent, s: string, t: string)
    requires GoodExponent(x) && GoodExponent(y) && Stops(s) && Stops(t)
    requires ExponentText(x) + s == ExponentText(y) + t
    ensures x == y && s == t
  {
    ExponentStart(x, s);
    ExponentStart(y, t);
    if x.Exponent? {
      Cat3([x.e], x.sign, x.digits, s);
      Cat3([y.e], y.sign, y.digits, t);
      var u, w := x.digits + s, y.digits + t;
      SameLength([x.e], [y.e], x.sign + u, y.sign + w);
      assert (x.sign + u)[0] == (if x.sign == "" then x.digits[0] else x.sign[0]);
      assert (y.sign + w)[0] == (if y.sign == "" then y.digits[0] else y.sign[0]);
      SamePrefix(x.sign, u, w);
      UniqueDigits(x.digits, y.digits, s, t);
    } else {
      assert "" + s == s && "" + t == t;
    }
  }

  lemma ExponentStart(x: Exponent, s: string)
    requires GoodExponent(x) && Stops(s)
    ensures var text := ExponentText(x) + s;
      && (text != "" ==> !IsDigit(text[0]) && text[0] != '.')
      && (x.Exponent? <==> text != "" && (text[0] == 'e' || text[0] == 'E'))
  {
  }

  lemma FractionStart(f: string, s: string)
    requires s != "" ==> !IsDigit(s[0]) && s[0] != '.'
    ensures var text := FractionText(f) + s;
      && (text != "" ==> !IsDigit(text[0]))
      && (f != "" <==> text != "" && text[0] == '.')
  {
  }

  lemma UniqueFraction(f: string, g: string, s: string, t: string)
    requires IsDigits(f) && IsDigits(g)
    requires (s != "" ==> !IsDigit(s[0]) && s[0] != '.') && (t != "" ==> !IsDigit(t[0]) && t[0] != '.')
    requires FractionText(f) + s == FractionText(g) + t
    ensures f == g && s == t
  {
    FractionStart(f, s);
    FractionStart(g, t);
    if f != "" {
      Cat2(".", f, s);
      Cat2(".", g, t);
      SamePrefix(".", f + s, g + t);
      UniqueDigits(f, g, s, t);
    } else {
      assert "" + s == s && "" + t == t;
    }
  }

  lemma NumberSplit(n: Number, s: string)
    ensures NumberText(n) + s
         == MinusText(n.minus) + (n.integer + (FractionText(n.fraction) + (ExponentText(n.exponent) + s)))
  {
    Cat2(IntegerText(n), TailText(n), s);
    Cat2(FractionText(n.fraction), ExponentText(n.exponent), s);
    Cat2(MinusText(n.minus), n.integer, TailText(n) + s);
  }

  lemma UniqueNumber(m: Number, n: Number, s: string, t: string)
    requires GoodNumber(m) && GoodNumber(n) && Stops(s) && Stops(t)
    requires NumberText(m) + s == NumberText(n) + t
    ensures m == n && s == t
  {
    NumberSplit(m, s);
    NumberSplit(n, t);
    var x, y := ExponentText(m.exponent) + s, ExponentText(n.exponent) + t;
    var u, w := FractionText(m.fraction) + x, FractionText(n.fraction) + y;
    ExponentStart(m.exponent, s);
    ExponentStart(n.exponent, t);
    FractionStart(m.fraction, x);
    FractionStart(n.fraction, y);
    UniqueMinus(m.minus, n.minus, m.integer + u, n.integer + w);
    UniqueDigits(m.integer, n.integer, u, w);
    UniqueFraction(m.fraction, n.fraction, x, y);
    UniqueExponent(m.exponent, n.exponent, s, t);
  }

  lemma UniqueMinus(a: bool, b: bool, s: string, t: string)
    requires s != "" && t != "" && IsDigit(s[0]) && IsDigit(t[0])
    requires MinusText(a) + s == MinusText(b) + t
    ensures a == b && s == t
  {
    assert (MinusText(a) + s)[0] == (MinusText(b) + t)[0];
    SamePrefix(MinusText(a), s, t);
  }

  lemma KeySplit(key: Key, s: string)
    ensures KeyText(key) + s == (match key
                                 case NoKey => s
                                 case Key(items, gap, lead) => Quoted(items) + (gap + (":" + (lead + s))))
  {
    if key.Key? {
      Cat4(Quoted(key.items), key.gap, ":", key.lead, s);
    } else {
      assert "" + s == s;
    }
  }

  lemma UniqueKey(kind: Kind, a: Key, b: Key, s: string, t: string)
    requires GoodKey(kind, a) && GoodKey(kind, b) && NoWsAhead(s) && NoWsAhead(t)
    requires KeyText(a) + s == KeyText(b) + t
    ensures a == b && s == t
  {
    KeySplit(a, s);
    KeySplit(b, t);
    if kind == Object {
      UniqueQuoted(a.items, b.items, a.gap + (":" + (a.lead + s)), b.gap + (":" + (b.lead + t)));
      UniqueWs(a.gap, b.gap, ":" + (a.lead + s), ":" + (b.lead + t));
      SamePrefix(":", a.lead + s, b.lead + t);
      UniqueWs(a.lead, b.lead, s, t);
    }
  }

  /** A value's text determines the value, and where it ends, whatever follows it. */
  lemma {:induction false} UniqueText(v: Json, w: Json, s: string, t: string)
    requires Good(v) && Good(w) && Stops(s) && Stops(t)
    requires Text(v) + s == Text(w) + t
    ensures v == w && s == t
    decreases v
  {
    TextStart(v);
    TextStart(w);
    assert Text(v)[0] == (Text(v) + s)[0] == (Text(w) + t)[0] == Text(w)[0];
    match v
    case Literal(name) =>
      assert w.Literal? && name == w.name;
      SamePrefix(name, s, t);
    case Numeric(n) =>
      UniqueNumber(n, w.number, s, t);
    case Str(items) =>
      UniqueQuoted(items, w.items, s, t);
    case Empty(kind, pad) =>
      assert w.kind == kind;
      UniqueBracket(v, w, s, t);
    case Full(kind, pad, entries) =>
      assert w.kind == kind;
      UniqueBracket(v, w, s, t);
  }

  /** The text of a bracketed value from its first entry on, followed by `s`. */
  function Inner(v: Json, s: string): string
    requires v.Empty? || v.Full?
  {
    if v.Empty? then CloseText(v.kind) + s else EntriesText(v.entries) + (CloseText(v.kind) + s)
  }

  lemma BracketSplit(v: Json, s: string)
    requires Good(v) && (v.Empty? || v.Full?)
    ensures Text(v) + s == OpenText(v.kind) + (v.pad + Inner(v, s))
    ensures Inner(v, s) != "" && !IsWsChar(Inner(v, s)[0])
    ensures v.Empty? <==> Inner(v, s)[0] == CloseText(v.kind)[0]
  {
    if v.Full? {
      EntriesStart(v.kind, v.entries);
      Cat4(OpenText(v.kind), v.pad, EntriesText(v.entries), CloseText(v.kind), s);
    } else {
      Cat3(OpenText(v.kind), v.pad, CloseText(v.kind), s);
    }
  }

  lemma {:induction false} UniqueBracket(v: Json, w: Json, s: string, t: string)
    requires Good(v) && Good(w) && Stops(s) && Stops(t)
    requires (v.Empty? || v.Full?) && (w.Empty? || w.Full?) && v.kind == w.kind
    requires Text(v) + s == Text(w) + t
    ensures v == w && s == t
    decreases v, 0
  {
    BracketSplit(v, s);
    BracketSplit(w, t);
    var x, y := Inner(v, s), Inner(w, t);
    var close := CloseText(v.kind);
    SamePrefix(OpenText(v.kind), v.pad + x, w.pad + y);
    UniqueWs(v.pad, w.pad, x, y);
    if v.Full? {
      UniqueEntries(v.kind, v.entries, w.entries, close + s, close + t);
    }
    SamePrefix(close, s, t);
  }

  /** What follows the value of an entry, up to the end of the bracketed list. */
  function Following(es: Entries, s: string): string {
    match es
    case Last(_, _, _) => s
    case More(_, _, _, before, rest) => "," + (before + (EntriesText(rest) + s))
  }

  lemma EntriesSplit(es: Entries, s: string)
    ensures EntriesText(es) + s == KeyText(es.key) + (Text(es.value) + (es.after + Following(es, s)))
  {
    if es.More? {
      Cat3(",", es.before, EntriesText(es.rest), s);
      Cat4(KeyText(es.key), Text(es.value), es.after, "," + (es.before + EntriesText(es.rest)), s);
    } else {
      Cat3(KeyText(es.key), Text(es.value), es.after, s);
    }
  }

  /** The parts of an entry and what follows its value. */
  lemma EntryParts(kind: Kind, es: Entries, s: string)
    requires GoodEntries(kind, es) && s != "" && s[0] == CloseText(kind)[0]
    ensures GoodKey(kind, es.key) && Good(es.value) && IsWs(es.after)
    ensures NoWsAhead(Following(es, s)) && Stops(es.after + Following(es, s)) &&
      NoWsAhead(Text(es.value) + (es.after + Following(es, s)))
  {
    TextStart(es.value);
    hide Text, EntriesText;
  }

  /** The first entry and what follows it are determined. */
  lemma {:induction false} UniqueEntry(kind: Kind, es: Entries, fs: Entries, s: string, t: string)
    requires GoodEntries(kind, es) && GoodEntries(kind, fs)
    requires s != "" && t != "" && s[0] == t[0] == CloseText(kind)[0]
    requires EntriesText(es) + s == EntriesText(fs) + t
    ensures es.key == fs.key && es.value == fs.value && es.after == fs.after && Following(es, s) == Following(fs, t)
    decreases es, 0
  {
    EntriesSplit(es, s);
    EntriesSplit(fs, t);
    var p, q := Following(es, s), Following(fs, t);
    var x, y := es.after + p, fs.after + q;
    TextStart(es.value);
    TextStart(fs.value);
    EntryParts(kind, es, s);
    EntryParts(kind, fs, t);
    hide Text, KeyText, EntriesText, Good, GoodKey, GoodEntries, Following, IsWs;
    UniqueKey(kind, es.key, fs.key, Text(es.value) + x, Text(fs.value) + y);
    UniqueText(es.value, fs.value, x, y);
    UniqueWs(es.after, fs.after, p, q);
  }

  lemma {:induction false} UniqueEntries(kind: Kind, es: Entries, fs: Entries, s: string, t: string)
    requires GoodEntries(kind, es) && GoodEntries(kind, fs)
    requires s != "" && t != "" && s[0] == t[0] == CloseText(kind)[0]
    requires EntriesText(es) + s == EntriesText(fs) + t
    ensures es == fs && s == t
    decreases es
  {
    UniqueEntry(kind, es, fs, s, t);
    hide Text, KeyText, EntriesText, Good, GoodKey;
    if es.More? {
      assert fs.More?;
      var u, w := EntriesText(es.rest) + s, EntriesText(fs.rest) + t;
      SamePrefix(",", es.before + u, fs.before + w);
      EntriesStart(kind, es.rest);
      EntriesStart(kind, fs.rest);
      UniqueWs(es.before, fs.before, u, w);
      UniqueEntries(kind, es.rest, fs.rest, s, t);
    }
  }

  /** A JSON text has exactly one syntax tree. */
  lemma UniqueDocument(d: Document, e: Document)
    requires GoodDocument(d) && GoodDocument(e) && DocumentText(d) == DocumentText(e)
    ensures d == e
  {
    TextStart(d.value);
    TextStart(e.value);
    UniqueWs(d.lead, e.lead, Text(d.value) + d.trail, Text(e.value) + e.trail);
    UniqueText(d.value, e.value, d.trail, e.trail);
  }
}

/** What a reader of canonical JSON texts gets back, and how these texts are spelled. */
module CanonicalReading {
  import opened Options
  import opened JsonValues
  import opened CanonicalText
  import G = JsonGrammar

  // ----- Reading a syntax tree

  /** The character of a code, and the replacement character for codes that are none. */
  function CharOf(code: int): char {
    if 0 <= code < 0xD800 || 0xE000 <= code < 0x11_0000 then code as char else '\U{FFFD}'
  }

  /** Escapes as RFC 8259 (section 7) defines them; halves of surrogate pairs are not joined. */
  function ReadItem(item: G.StringItem): char {
    match item
    case Plain(ch) => ch
    case Escape(ch) =>
      (match ch
       case 'b' => '\U{08}'
       case 'f' => '\U{0C}'
       case 'n' => '\n'
       case 'r' => '\r'
       case 't' => '\t'
       case _ => ch)
    case Unicode(a, b, c, d) => if G.GoodItem(item) then CharOf(Denoted(item)) else '\U{FFFD}'
  }

  function ReadString(items: seq<G.StringItem>): string {
    seq(|items|, i requires 0 <= i < |items| => ReadItem(items[i]))
  }

  /** The value of a syntax tree, members in the order of the text. */
  function Read(t: G.Json): Value {
    match t
    case Literal(name) => if name == "true" then Bool(true) else if name == "false" then Bool(false) else Null
    case Numeric(n) => Number(G.NumberText(n))
    case Str(items) => String(ReadString(items))
    case Empty(kind, _) => if kind == G.Array then Array([]) else Object([])
    case Full(kind, _, entries) => if kind == G.Array then Array(ReadItems(entries)) else Object(ReadMembers(entries))
  }

  function ReadItems(es: G.Entries): seq<Value>
    decreases es
  {
    match es
    case Last(_, value, _) => [Read(value)]
    case More(_, value, _, _, rest) => [Read(value)] + ReadItems(rest)
  }

  function ReadKey(key: G.Key): string {
    match key
    case NoKey => ""
    case Key(items, _, _) => ReadString(items)
  }

  function ReadMembers(es: G.Entries): Members
    decreases es
  {
    match es
    case Last(key, value, _) => [(ReadKey(key), Read(value))]
    case More(key, value, _, _, rest) => [(ReadKey(key), Read(value))] + ReadMembers(rest)
  }

  // ----- How canonical texts are spelled

  /** A character is escaped only if it must be, as shortly as possible and in lower case. */
  predicate IsShortest(item: G.StringItem) {
    match item
    case Plain(_) => true
    case Escape(ch) => ch in {'\"', '\\', 'b', 'f', 'n', 'r', 't'}
    case Unicode(a, b, c, d) =>
      && a == '0' && b == '0' && (c == '0' || c == '1') && ('0' <= d <= '9' || 'a' <= d <= 'f')
      && !(c == '0' && d in {'8', '9', 'a', 'c', 'd'})
  }

  predicate AreShortest(items: seq<G.StringItem>) {
    forall i :: 0 <= i < |items| ==> IsShortest(items[i])
  }

  /** No whitespace anywhere, and no longer escapes than needed. */
  predicate IsCompact(t: G.Json)
    decreases t
  {
    match t
    case Literal(_) => true
    case Numeric(_) => true
    case Str(items) => AreShortest(items)
    case Empty(_, pad) => pad == ""
    case Full(_, pad, entries) => pad == "" && AreCompact(entries)
  }

  predicate IsCompactKey(key: G.Key) {
    match key
    case NoKey => true
    case Key(items, gap, lead) => AreShortest(items) && gap == "" && lead == ""
  }

  predicate AreCompact(es: G.Entries)
    decreases es
  {
    match es
    case Last(key, value, after) => IsCompactKey(key) && IsCompact(value) && after == ""
    case More(key, value, after, before, rest) =>
      IsCompactKey(key) && IsCompact(value) && after == "" && before == "" && AreCompact(rest)
  }

  /** Members stand in the order of their keys, at every depth. */
  ghost predicate IsSorted(v: Value)
    decreases v
  {
    match v
    case Array(items) => forall i :: 0 <= i < |items| ==> IsSorted(items[i])
    case Object(ms) =>
      && (forall i, j :: 0 <= i < j < |ms| ==> IsBefore(ms[i].0, ms[j].0))
      && forall i :: 0 <= i < |ms| ==> IsSorted(ms[i].1)
    case _ => true
  }

  // ----- The canonical text reads back as the value

  lemma CharRead(c: char)
    ensures ReadItem(CharItem(c)) == c && IsShortest(CharItem(c))
  {
    CharItemDenotes(c);
    if c as int < 0x20 {
      HexLower(c as int / 16);
      HexLower(c as int % 16);
    }
    hide Denoted, HexChar;
  }

  lemma HexLower(n: nat)
    requires n < 16
    ensures n < 2 ==> HexChar(n) == if n == 0 then '0' else '1'
    ensures if n < 10 then HexChar(n) == (n + 48) as char else HexChar(n) == (n + 87) as char
    ensures HexChar(n) == 'a' <==> n == 10
    ensures HexChar(n) == 'c' <==> n == 12
    ensures HexChar(n) == 'd' <==> n == 13
    ensures HexChar(n) == '8' <==> n == 8
    ensures HexChar(n) == '9' <==> n == 9
  {
  }

  lemma StringRead(s: string)
    ensures ReadString(StringItems(s)) == s && AreShortest(StringItems(s))
  {
    hide CharItem, ReadItem, IsShortest;
    forall i | 0 <= i < |s|
      ensures ReadItem(StringItems(s)[i]) == s[i] && IsShortest(StringItems(s)[i])
    {
      CharRead(s[i]);
    }
  }

  /** Reading a value's tree gives the value with its members sorted. */
  lemma {:induction false} TreeRead(v: Value)
    requires Printable(v)
    ensures Same(Read(Tree(v)), v) && IsSorted(Read(Tree(v))) && IsCompact(Tree(v))
    decreases v, 1
  {
    match v
    case String(s) =>
      StringRead(s);
    case Array(items) =>
      if items != [] {
        ItemsRead(v, 0);
      }
    case Object(ms) =>
      SortedKeysAscend(ms);
      if SortedKeys(ms) != [] {
        MembersRead(v, SortedKeys(ms));
        ObjectRead(ms, ReadMembers(MembersTree(v, SortedKeys(ms))));
      } else {
        NoKeys(ms);
      }
    case _ =>
  }

  lemma FirstKey(ms: Members)
    requires Distinct(ms) && ms != []
    ensures ms[0].0 in SortedKeys(ms)
  {
    SortedKeysAscend(ms);
    FindAt(ms, 0);
  }

  lemma NoKeys(ms: Members)
    requires Distinct(ms) && SortedKeys(ms) == []
    ensures ms == []
  {
    if ms != [] {
      FirstKey(ms);
    }
  }

  /** The values read are those of an array from `i` on. */
  ghost predicate ReadsFrom(v: Value, i: nat, r: seq<Value>)
    requires v.Array? && i <= |v.items|
  {
    |r| == |v.items| - i && forall j :: 0 <= j < |r| ==> Same(r[j], v.items[i + j]) && IsSorted(r[j])
  }

  lemma ReadsFirst(v: Value, i: nat, first: Value, rest: seq<Value>)
    requires v.Array? && i < |v.items| && Same(first, v.items[i]) && IsSorted(first) && ReadsFrom(v, i + 1, rest)
    ensures ReadsFrom(v, i, [first] + rest)
  {
    hide Same, IsSorted;
  }

  lemma {:induction false} ItemsRead(v: Value, i: nat)
    requires Printable(v) && v.Array? && i < |v.items|
    ensures ReadsFrom(v, i, ReadItems(ItemsTree(v, i))) && AreCompact(ItemsTree(v, i))
    decreases v, 0, |v.items| - i
  {
    TreeRead(v.items[i]);
    hide Tree, Same, IsSorted, Read, IsCompact;
    var first := Read(Tree(v.items[i]));
    if i + 1 < |v.items| {
      ItemsRead(v, i + 1);
      ReadsFirst(v, i, first, ReadItems(ItemsTree(v, i + 1)));
    } else {
      ReadsFirst(v, i, first, []);
    }
    hide ReadsFrom;
  }

  /** The members read are those of the keys, in order. */
  ghost predicate ReadsAs(v: Value, keys: seq<string>, r: Members)
    requires v.Object?
  {
    |r| == |keys| && forall i :: 0 <= i < |r| ==>
      && r[i].0 == keys[i] && IsSorted(r[i].1)
      && (Has(v.members, keys[i]) ==> Same(r[i].1, Lookup(v.members, keys[i]).value))
  }

  lemma {:induction false} MembersRead(v: Value, keys: seq<string>)
    requires Printable(v) && v.Object? && keys != [] && forall i :: 0 <= i < |keys| ==> Has(v.members, keys[i])
    ensures ReadsAs(v, keys, ReadMembers(MembersTree(v, keys))) && AreCompact(MembersTree(v, keys))
    decreases v, 0, |keys|
  {
    var i := Find(v.members, keys[0]);
    assert Has(v.members, keys[0]);
    TreeRead(v.members[i].1);
    StringRead(keys[0]);
    assert Lookup(v.members, keys[0]) == Some(v.members[i].1);
    hide Tree, Same, IsSorted, Printable, StringItems, ReadString, Lookup, Has, Find, AreShortest;
    if |keys| > 1 {
      MembersRead(v, keys[1..]);
      var rest := ReadMembers(MembersTree(v, keys[1..]));
      assert forall j :: 0 < j < |keys| ==> keys[j] == keys[1..][j - 1];
    }
  }

  lemma ObjectRead(ms: Members, r: Members)
    requires Distinct(ms) && ReadsAs(Object(ms), SortedKeys(ms), r)
    ensures Same(Object(r), Object(ms)) && IsSorted(Object(r))
  {
    var keys := SortedKeys(ms);
    SortedKeysAscend(ms);
    forall i | 0 <= i < |r|
      ensures Has(ms, r[i].0) && Same(r[i].1, Lookup(ms, r[i].0).value)
    {
      assert keys[i] in keys;
    }
    forall i | 0 <= i < |ms|
      ensures Has(r, ms[i].0)
    {
      FindAt(ms, i);
      assert ms[i].0 in keys;
      var j :| 0 <= j < |keys| && keys[j] == ms[i].0;
      assert r[j].0 == ms[i].0;
    }
    assert forall i, j :: 0 <= i < j < |r| ==> IsBefore(r[i].0, r[j].0);
  }

  /** A reader that takes the canonical text for a JSON text gets the value back, up to the order of
      members, which is that of the keys; and the text holds no whitespace and no needless escape. */
  lemma CanonicalJsonReads(v: Value, d: G.Document)
    requires Printable(v) && G.GoodDocument(d) && G.DocumentText(d) == CanonicalJson(v)
    ensures d.lead == "" && d.trail == ""
    ensures Same(Read(d.value), v) && IsSorted(Read(d.value)) && IsCompact(d.value)
  {
    TextOfTree(v);
    TreeRead(v);
    var e := G.Document("", Tree(v), "");
    hide Tree, CanonicalJson, Read, Same, IsSorted, IsCompact, G.Text, G.Good;
    assert G.Text(Tree(v)) + "" == G.Text(Tree(v)) && "" + G.Text(Tree(v)) == G.Text(Tree(v));
    assert G.GoodDocument(e) && G.DocumentText(e) == CanonicalJson(v);
    G.UniqueDocument(d, e);
  }
}

/** The canonical JSON text of a value, the basis of tool fingerprints: compact, with object
    keys sorted.  Two values have one text exactly when they differ in key order only. */
module CanonicalText {
  import opened Sequences
  import opened JsonValues
  import G = JsonGrammar

  // ----- Key order

  /** The order of strings by their characters. */
  predicate Precedes(a: string, b: string) {
    b != "" && (a == "" || (if a[0] == b[0] then Precedes(a[1..], b[1..]) else a[0] < b[0]))
  }

  lemma {:induction false} PrecedesOnce(a: string, b: string)
    ensures !(Precedes(a, b) && Precedes(b, a))
    ensures a == b || Precedes(a, b) || Precedes(b, a)
    ensures !Precedes(a, a)
  {
    if a != "" && b != "" {
      PrecedesOnce(a[1..], b[1..]);
      PrecedesOnce(a[1..], a[1..]);
      assert a == [a[0]] + a[1..] && b == [b[0]] + b[1..];
    } else if a != "" {
      PrecedesOnce(a[1..], "");
    }
  }

  lemma {:induction false} PrecedesChain(a: string, b: string, c: string)
    requires Precedes(a, b) && Precedes(b, c)
    ensures Precedes(a, c)
  {
    if a != "" && a[0] == b[0] == c[0] {
      PrecedesChain(a[1..], b[1..], c[1..]);
    }
  }

  /** The strings agree up to a place where the first ends or holds the smaller character. */
  ghost predicate IsBefore(a: string, b: string) {
    exists k: nat :: DiffersAt(a, b, k)
  }

  predicate DiffersAt(a: string, b: string, k: nat) {
    k <= |a| && k < |b| && a[..k] == b[..k] && (k < |a| ==> a[k] < b[k])
  }

  lemma DiffersLater(a: string, b: string, k: nat)
    requires DiffersAt(a, b, k)
    ensures k == 0 || (a != "" && b != "" && a[0] == b[0])
  {
    if k > 0 {
      assert a[..k][0] == a[0] && b[..k][0] == b[0];
    }
  }

  /** The order of keys compares the first characters that differ; a prefix comes first. */
  lemma {:induction false} PrecedesIs(a: string, b: string)
    ensures Precedes(a, b) <==> IsBefore(a, b)
  {
    if a == "" || b == "" || a[0] != b[0] {
      if b != "" && (a == "" || a[0] < b[0]) {
        assert DiffersAt(a, b, 0);
      }
      if IsBefore(a, b) {
        var k: nat :| DiffersAt(a, b, k);
        DiffersLater(a, b, k);
      }
    } else {
      PrecedesIs(a[1..], b[1..]);
      assert a == [a[0]] + a[1..] && b == [b[0]] + b[1..];
      if IsBefore(a[1..], b[1..]) {
        var k: nat :| DiffersAt(a[1..], b[1..], k);
        assert a[..k + 1] == [a[0]] + a[1..][..k] && b[..k + 1] == [b[0]] + b[1..][..k];
        assert DiffersAt(a, b, k + 1);
      }
      if IsBefore(a, b) {
        var k: nat :| DiffersAt(a, b, k);
        assert k > 0;
        assert a[1..][..k - 1] == a[..k][1..] && b[1..][..k - 1] == b[..k][1..];
        assert DiffersAt(a[1..], b[1..], k - 1);
      }
    }
  }

  predicate Ascending(keys: seq<string>) {
    forall i, j :: 0 <= i < j < |keys| ==> Precedes(keys[i], keys[j])
  }

  function InsertKey(key: string, keys: seq<string>): seq<string> {
    if keys == [] || Precedes(key, keys[0]) then [key] + keys else [keys[0]] + InsertKey(key, keys[1..])
  }

  function SortedKeys(ms: Members): seq<string> {
    if ms == [] then [] else InsertKey(ms[0].0, SortedKeys(ms[1..]))
  }

  lemma {:induction false} InsertKeyAscends(key: string, keys: seq<string>)
    requires Ascending(keys) && key !in keys
    ensures var r := InsertKey(key, keys);
      Ascending(r) && (forall k :: k in r <==> k == key || k in keys)
  {
    if keys == [] {
    } else if Precedes(key, keys[0]) {
      forall j | 0 < j < |keys|
        ensures Precedes(key, keys[j])
      {
        PrecedesChain(key, keys[0], keys[j]);
      }
    } else {
      InsertKeyAscends(key, keys[1..]);
      PrecedesOnce(key, keys[0]);
      var rest := InsertKey(key, keys[1..]);
      var r := InsertKey(key, keys);
      assert r == [keys[0]] + rest && keys == [keys[0]] + keys[1..];
      forall j | 0 <= j < |rest|
        ensures Precedes(keys[0], rest[j])
      {
        assert rest[j] in rest;
      }
    }
  }

  /** The keys come once each, each before the later ones by the first character that differs. */
  lemma SortedKeysAscend(ms: Members)
    requires Distinct(ms)
    ensures Ascending(SortedKeys(ms))
    ensures forall i, j :: 0 <= i < j < |SortedKeys(ms)| ==> IsBefore(SortedKeys(ms)[i], SortedKeys(ms)[j])
    ensures forall key :: key in SortedKeys(ms) <==> Has(ms, key)
  {
    SortedKeysAre(ms);
    var keys := SortedKeys(ms);
    hide Precedes, SortedKeys;
    forall i, j | 0 <= i < j < |keys|
      ensures IsBefore(keys[i], keys[j])
    {
      PrecedesIs(keys[i], keys[j]);
    }
  }

  lemma {:induction false} SortedKeysAre(ms: Members)
    requires Distinct(ms)
    ensures Ascending(SortedKeys(ms))
    ensures forall key :: key in SortedKeys(ms) <==> Has(ms, key)
  {
    if ms != [] {
      SortedKeysAre(ms[1..]);
      assert !Has(ms[1..], ms[0].0);
      InsertKeyAscends(ms[0].0, SortedKeys(ms[1..]));
    }
  }

  /** Ascending key lists with the same keys are the same list. */
  lemma {:induction false} AscendingUnique(a: seq<string>, b: seq<string>)
    requires Ascending(a) && Ascending(b) && forall key :: key in a <==> key in b
    ensures a == b
  {
    if a == [] {
      assert forall i :: 0 <= i < |b| ==> b[i] in b;
    } else {
      assert a[0] in b && b[0] in a;
      if a[0] != b[0] {
        PrecedesOnce(a[0], b[0]);
      }
      assert a == [a[0]] + a[1..] && b == [b[0]] + b[1..];
      PrecedesOnce(a[0], a[0]);
      forall key
        ensures key in a[1..] <==> key in b[1..]
      {
        assert key in a <==> key == a[0] || key in a[1..];
        assert key in b <==> key == b[0] || key in b[1..];
      }
      AscendingUnique(a[1..], b[1..]);
    }
  }

  // ----- Strings

  function HexChar(n: nat): char
    requires n < 16
  {
    "0123456789abcdef"[n]
  }

  function CharItem(c: char): G.StringItem {
    if c == '\"' || c == '\\' then G.Escape(c)
    else if c as int == 8 then G.Escape('b')
    else if c as int == 12 then G.Escape('f')
    else if c == '\n' then G.Escape('n')
    else if c == '\r' then G.Escape('r')
    else if c == '\t' then G.Escape('t')
    else if c as int < 0x20 then G.Unicode('0', '0', HexChar(c as int / 16), HexChar(c as int % 16))
    else G.Plain(c)
  }

  function StringItems(s: string): seq<G.StringItem> {
    seq(|s|, i requires 0 <= i < |s| => CharItem(s[i]))
  }

  lemma HexCharGood(n: nat)
    requires n < 16
    ensures G.IsHexDigit(HexChar(n))
  {
  }

  lemma CharItemGood(c: char)
    ensures G.GoodItem(CharItem(c))
  {
    if c as int < 0x20 {
      HexCharGood(c as int / 16);
      HexCharGood(c as int % 16);
    }
    hide HexChar, G.IsHexDigit;
  }

  /** The code of the character that a string item stands for (RFC 8259, section 7). */
  function Denoted(item: G.StringItem): int
    requires G.GoodItem(item)
  {
    match item
    case Plain(ch) => ch as int
    case Escape(ch) =>
      if ch == 'b' then 8 else if ch == 'f' then 12 else if ch == 'n' then 10
      else if ch == 'r' then 13 else if ch == 't' then 9 else ch as int
    case Unicode(a, b, c, d) =>
      ((G.HexDigitValue(a) * 16 + G.HexDigitValue(b)) * 16 + G.HexDigitValue(c)) * 16 + G.HexDigitValue(d)
  }

  lemma HexCharDenotes(n: nat)
    requires n < 16
    ensures G.IsHexDigit(HexChar(n)) && G.HexDigitValue(HexChar(n)) == n
  {
  }

  /** Every character is written as an item that stands for it. */
  lemma CharItemDenotes(c: char)
    ensures G.GoodItem(CharItem(c)) && Denoted(CharItem(c)) == c as int
  {
    CharItemGood(c);
    if c as int < 0x20 {
      HexCharDenotes(0);
      HexCharDenotes(c as int / 16);
      HexCharDenotes(c as int % 16);
      assert HexChar(0) == '0';
    }
    hide HexChar, G.HexDigitValue, G.IsHexDigit;
  }

  lemma StringItemsInjective(s: string, t: string)
    requires StringItems(s) == StringItems(t)
    ensures s == t
  {
    hide CharItem;
    forall i | 0 <= i < |s|
      ensures s[i] == t[i]
    {
      assert StringItems(s)[i] == StringItems(t)[i];
      CharItemDenotes(s[i]);
      CharItemDenotes(t[i]);
    }
  }

  lemma StringItemsGood(s: string)
    ensures G.GoodItems(StringItems(s))
  {
    hide CharItem, G.GoodItem;
    forall i | 0 <= i < |s|
      ensures G.GoodItem(StringItems(s)[i])
    {
      CharItemGood(s[i]);
    }
  }

  // ----- Canonical text

  function StringJson(s: string): string {
    G.Quoted(StringItems(s))
  }

  function CanonicalJson(v: Value): string
    decreases v, 1
  {
    match v
    case Null => "null"
    case Bool(b) => if b then "true" else "false"
    case Number(text) => text
    case String(s) => StringJson(s)
    case Array(items) => "[" + (ItemsJson(v, 0) + "]")
    case Object(ms) => "{" + (MembersJson(v, SortedKeys(ms)) + "}")
  }

  function ItemsJson(v: Value, i: nat): string
    requires v.Array? && i <= |v.items|
    decreases v, 0, |v.items| - i
  {
    if i == |v.items| then ""
    else CanonicalJson(v.items[i]) + if i + 1 < |v.items| then "," + ItemsJson(v, i + 1) else ""
  }

  /** The text of the value of a key. */
  function ChildJson(v: Value, key: string): string
    requires v.Object?
    decreases v, 0, 0
  {
    var i := Find(v.members, key);
    if i < |v.members| then CanonicalJson(v.members[i].1) else ""
  }

  function MembersJson(v: Value, keys: seq<string>): string
    requires v.Object?
    decreases v, 0, 1 + |keys|
  {
    if keys == [] then ""
    else
      var rest := if |keys| > 1 then "," + MembersJson(v, keys[1..]) else "";
      StringJson(keys[0]) + (":" + (ChildJson(v, keys[0]) + rest))
  }

  // ----- The text as a syntax tree

  ghost predicate IsNumberText(text: string) {
    exists n :: G.GoodNumber(n) && G.NumberText(n) == text
  }

  /** Numbers have number texts, and objects distinct keys, at every depth. */
  ghost predicate Printable(v: Value) {
    match v
    case Number(text) => IsNumberText(text)
    case Array(items) => forall i :: 0 <= i < |items| ==> Printable(items[i])
    case Object(ms) => Distinct(ms) && forall i :: 0 <= i < |ms| ==> Printable(ms[i].1)
    case _ => true
  }

  ghost function NumberOf(text: string): (n: G.Number)
    requires IsNumberText(text)
    ensures G.GoodNumber(n) && G.NumberText(n) == text
  {
    var n :| G.GoodNumber(n) && G.NumberText(n) == text;
    n
  }

  ghost function Tree(v: Value): G.Json
    requires Printable(v)
    decreases v, 1
  {
    match v
    case Null => G.Literal("null")
    case Bool(b) => G.Literal(if b then "true" else "false")
    case Number(text) => G.Numeric(NumberOf(text))
    case String(s) => G.Str(StringItems(s))
    case Array(items) => if items == [] then G.Empty(G.Array, "") else G.Full(G.Array, "", ItemsTree(v, 0))
    case Object(ms) =>
      if SortedKeys(ms) == [] then G.Empty(G.Object, "") else G.Full(G.Object, "", MembersTree(v, SortedKeys(ms)))
  }

  ghost function ItemsTree(v: Value, i: nat): G.Entries
    requires Printable(v) && v.Array? && i < |v.items|
    decreases v, 0, |v.items| - i
  {
    if i + 1 == |v.items| then G.Last(G.NoKey, Tree(v.items[i]), "")
    else G.More(G.NoKey, Tree(v.items[i]), "", "", ItemsTree(v, i + 1))
  }

  ghost function ChildTree(v: Value, key: string): G.Json
    requires Printable(v) && v.Object?
    decreases v, 0, 0
  {
    var i := Find(v.members, key);
    if i < |v.members| then Tree(v.members[i].1) else G.Literal("null")
  }

  ghost function MembersTree(v: Value, keys: seq<string>): G.Entries
    requires Printable(v) && v.Object? && keys != []
    decreases v, 0, 1 + |keys|
  {
    var key := G.Key(StringItems(keys[0]), "", "");
    if |keys| == 1 then G.Last(key, ChildTree(v, keys[0]), "")
    else G.More(key, ChildTree(v, keys[0]), "", "", MembersTree(v, keys[1..]))
  }

  /** The canonical text is the text of a well-formed syntax tree. */
  lemma {:induction false} TextOfTree(v: Value)
    requires Printable(v)
    ensures G.Good(Tree(v)) && G.Text(Tree(v)) == CanonicalJson(v)
    decreases v, 1
  {
    match v
    case String(s) =>
      StringItemsGood(s);
    case Array(items) =>
      if items == [] {
        assert ItemsJson(v, 0) == "" && "" + "]" == "]";
      } else {
        ItemsTextOfTree(v, 0);
        NoPad(G.Array, ItemsTree(v, 0));
      }
    case Object(ms) =>
      SortedKeysAscend(ms);
      if SortedKeys(ms) == [] {
        assert MembersJson(v, []) == "" && "" + "}" == "}";
      } else {
        MembersTextOfTree(v, SortedKeys(ms));
        NoPad(G.Object, MembersTree(v, SortedKeys(ms)));
      }
    case _ =>
  }

  lemma NoPad(kind: G.Kind, entries: G.Entries)
    requires G.GoodEntries(kind, entries)
    ensures G.Good(G.Full(kind, "", entries))
    ensures G.Text(G.Full(kind, "", entries)) == G.OpenText(kind) + (G.EntriesText(entries) + G.CloseText(kind))
  {
    var inner := G.EntriesText(entries) + G.CloseText(kind);
    assert "" + inner == inner;
  }

  lemma NoGaps(key: G.Key, value: G.Json, rest: G.Entries)
    ensures G.EntriesText(G.Last(key, value, "")) == G.KeyText(key) + G.Text(value)
    ensures G.EntriesText(G.More(key, value, "", "", rest))
         == G.KeyText(key) + (G.Text(value) + ("," + G.EntriesText(rest)))
  {
    assert G.Text(value) + "" == G.Text(value);
    assert "" + G.EntriesText(rest) == G.EntriesText(rest);
    assert "" + ("," + G.EntriesText(rest)) == "," + G.EntriesText(rest);
  }

  lemma {:induction false} ItemsTextOfTree(v: Value, i: nat)
    requires Printable(v) && v.Array? && i < |v.items|
    ensures G.GoodEntries(G.Array, ItemsTree(v, i)) && G.EntriesText(ItemsTree(v, i)) == ItemsJson(v, i)
    decreases v, 0, |v.items| - i
  {
    TextOfTree(v.items[i]);
    var tree := Tree(v.items[i]);
    hide G.EntriesText, G.Text, Tree, CanonicalJson;
    if i + 1 < |v.items| {
      ItemsTextOfTree(v, i + 1);
      NoGaps(G.NoKey, tree, ItemsTree(v, i + 1));
    } else {
      NoGaps(G.NoKey, tree, ItemsTree(v, i));
    }
  }

  lemma CompactKey(s: string)
    ensures G.GoodKey(G.Object, G.Key(StringItems(s), "", ""))
    ensures G.KeyText(G.Key(StringItems(s), "", "")) == StringJson(s) + ":"
  {
    StringItemsGood(s);
    assert "" + (":" + "") == ":";
  }

  lemma {:induction false} MembersTextOfTree(v: Value, keys: seq<string>)
    requires Printable(v) && v.Object? && keys != [] && forall i :: 0 <= i < |keys| ==> Has(v.members, keys[i])
    ensures G.GoodEntries(G.Object, MembersTree(v, keys)) && G.EntriesText(MembersTree(v, keys)) == MembersJson(v, keys)
    decreases v, 0, |keys|
  {
    var i := Find(v.members, keys[0]);
    assert Has(v.members, keys[0]);
    TextOfTree(v.members[i].1);
    CompactKey(keys[0]);
    var key, tree := G.Key(StringItems(keys[0]), "", ""), ChildTree(v, keys[0]);
    hide G.EntriesText, G.Text, Tree, CanonicalJson, StringJson, G.KeyText;
    if |keys| > 1 {
      MembersTextOfTree(v, keys[1..]);
      var rest := MembersTree(v, keys[1..]);
      NoGaps(key, tree, rest);
      Cat2(StringJson(keys[0]), ":", G.Text(tree) + ("," + G.EntriesText(rest)));
    } else {
      NoGaps(key, tree, MembersTree(v, keys));
      Cat2(StringJson(keys[0]), ":", G.Text(tree));
      assert G.Text(tree) + "" == G.Text(tree);
    }
  }

  // ----- Equality up to key order

  /** The values are equal up to the order of object members, at every depth. */
  predicate Same(a: Value, b: Value) {
    match (a, b)
    case (Array(xs), Array(ys)) => |xs| == |ys| && forall i :: 0 <= i < |xs| ==> Same(xs[i], ys[i])
    case (Object(am), Object(bm)) =>
      && (forall i :: 0 <= i < |am| ==> Has(bm, am[i].0) && Same(am[i].1, Lookup(bm, am[i].0).value))
      && (forall i :: 0 <= i < |bm| ==> Has(am, bm[i].0))
    case _ => a == b
  }

  lemma {:induction false} SameTree(a: Value, b: Value)
    requires Printable(a) && Printable(b) && Tree(a) == Tree(b)
    ensures Same(a, b)
    decreases a, 1
  {
    match (a, b)
    case (Number(s), Number(t)) =>
      assert G.NumberText(NumberOf(s)) == G.NumberText(NumberOf(t));
    case (String(s), String(t)) =>
      StringItemsInjective(s, t);
    case (Array(xs), Array(ys)) =>
      if xs != [] {
        SameItems(a, b, 0);
      }
    case (Object(am), Object(bm)) =>
      SortedKeysAscend(am);
      SortedKeysAscend(bm);
      if SortedKeys(am) != [] {
        SameMembers(a, b, SortedKeys(am), SortedKeys(bm));
      }
      SameObjects(a, b);
    case _ =>
  }

  lemma {:induction false} SameItems(a: Value, b: Value, i: nat)
    requires Printable(a) && Printable(b) && a.Array? && b.Array? && i < |a.items| && i < |b.items|
    requires ItemsTree(a, i) == ItemsTree(b, i)
    ensures |a.items| == |b.items| && forall j :: i <= j < |a.items| ==> Same(a.items[j], b.items[j])
    decreases a, 0, |a.items| - i
  {
    hide Tree, Same;
    SameTree(a.items[i], b.items[i]);
    if i + 1 < |a.items| {
      SameItems(a, b, i + 1);
    }
  }

  /** Every key in the list leads to values equal up to key order. */
  ghost predicate SameUnder(a: Value, b: Value, keys: seq<string>)
    requires a.Object? && b.Object?
  {
    forall i :: 0 <= i < |keys| && Has(a.members, keys[i]) && Has(b.members, keys[i]) ==>
      Same(Lookup(a.members, keys[i]).value, Lookup(b.members, keys[i]).value)
  }

  lemma {:induction false} SameMembers(a: Value, b: Value, ka: seq<string>, kb: seq<string>)
    requires Printable(a) && Printable(b) && a.Object? && b.Object? && ka != [] && kb != []
    requires MembersTree(a, ka) == MembersTree(b, kb)
    ensures ka == kb && SameUnder(a, b, ka)
    decreases a, 0, |ka|
  {
    hide Tree, Same, StringItems;
    StringItemsInjective(ka[0], kb[0]);
    var key := ka[0];
    if Has(a.members, key) && Has(b.members, key) {
      SameTree(a.members[Find(a.members, key)].1, b.members[Find(b.members, key)].1);
    }
    if |ka| > 1 {
      SameMembers(a, b, ka[1..], kb[1..]);
      assert ka == [ka[0]] + ka[1..] && kb == [kb[0]] + kb[1..];
      forall i | 0 < i < |ka|
        ensures ka[i] == ka[1..][i - 1]
      {
      }
    } else {
      assert ka == [key] && kb == [key];
    }
  }

  lemma SameObjects(a: Value, b: Value)
    requires a.Object? && b.Object? && Distinct(a.members) && Distinct(b.members)
    requires SortedKeys(a.members) == SortedKeys(b.members) && SameUnder(a, b, SortedKeys(a.members))
    ensures Same(a, b)
  {
    var am, bm, keys := a.members, b.members, SortedKeys(a.members);
    SortedKeysAscend(am);
    SortedKeysAscend(bm);
    forall i | 0 <= i < |am|
      ensures Has(bm, am[i].0) && Same(am[i].1, Lookup(bm, am[i].0).value)
    {
      FindAt(am, i);
      assert am[i].0 in keys;
    }
    forall i | 0 <= i < |bm|
      ensures Has(am, bm[i].0)
    {
      FindAt(bm, i);
      assert bm[i].0 in keys;
    }
  }

  lemma SameKeys(a: Value, b: Value)
    requires a.Object? && b.Object? && Distinct(a.members) && Distinct(b.members) && Same(a, b)
    ensures SortedKeys(a.members) == SortedKeys(b.members)
  {
    var am, bm := a.members, b.members;
    SortedKeysAscend(am);
    SortedKeysAscend(bm);
    forall key
      ensures Has(am, key) <==> Has(bm, key)
    {
      if Has(am, key) {
        assert am[Find(am, key)].0 == key;
      }
      if Has(bm, key) {
        assert bm[Find(bm, key)].0 == key;
      }
    }
    AscendingUnique(SortedKeys(am), SortedKeys(bm));
  }

  lemma {:induction false} SameText(a: Value, b: Value)
    requires WellFormed(a) && WellFormed(b) && Same(a, b)
    ensures CanonicalJson(a) == CanonicalJson(b)
    decreases a, 1
  {
    match (a, b)
    case (Array(xs), Array(ys)) =>
      SameItemsText(a, b, 0);
    case (Object(am), Object(bm)) =>
      SameKeys(a, b);
      SameMembersText(a, b, SortedKeys(am));
    case _ =>
  }

  lemma {:induction false} SameItemsText(a: Value, b: Value, i: nat)
    requires WellFormed(a) && WellFormed(b) && Same(a, b) && a.Array? && b.Array? && i <= |a.items|
    ensures ItemsJson(a, i) == ItemsJson(b, i)
    decreases a, 0, |a.items| - i
  {
    if i < |a.items| {
      SameText(a.items[i], b.items[i]);
      SameItemsText(a, b, i + 1);
    }
  }

  lemma {:induction false} SameMembersText(a: Value, b: Value, keys: seq<string>)
    requires WellFormed(a) && WellFormed(b) && Same(a, b) && a.Object? && b.Object?
    ensures MembersJson(a, keys) == MembersJson(b, keys)
    decreases a, 0, |keys|
  {
    if keys != [] {
      hide StringJson;
      var i, j := Find(a.members, keys[0]), Find(b.members, keys[0]);
      assert i < |a.members| <==> j < |b.members|;
      if i < |a.members| {
        assert Has(b.members, a.members[i].0);
        SameText(a.members[i].1, b.members[j].1);
      }
      SameMembersText(a, b, keys[1..]);
    }
  }

  lemma {:induction false} PrintableIsWellFormed(v: Value)
    requires Printable(v)
    ensures WellFormed(v)
  {
    match v
    case Array(items) =>
      forall i | 0 <= i < |items| ensures WellFormed(items[i]) { PrintableIsWellFormed(items[i]); }
    case Object(ms) =>
      forall i | 0 <= i < |ms| ensures WellFormed(ms[i].1) { PrintableIsWellFormed(ms[i].1); }
    case _ =>
  }

  /** Canonical texts are equal exactly when the values are equal up to key order. */
  lemma CanonicalJsonIdentifies(a: Value, b: Value)
    requires Printable(a) && Printable(b)
    ensures CanonicalJson(a) == CanonicalJson(b) <==> Same(a, b)
  {
    PrintableIsWellFormed(a);
    PrintableIsWellFormed(b);
    TextOfTree(a);
    TextOfTree(b);
    hide Same, Tree, CanonicalJson;
    if CanonicalJson(a) == CanonicalJson(b) {
      assert G.Text(Tree(a)) + "" == G.Text(Tree(b)) + "";
      G.UniqueText(Tree(a), Tree(b), "", "");
      SameTree(a, b);
    }
    if Same(a, b) {
      SameText(a, b);
    }
  }

  /** The canonical text is itself a JSON text. */
  lemma CanonicalJsonIsJson(v: Value)
    requires Printable(v)
    ensures G.IsJsonText(CanonicalJson(v))
  {
    TextOfTree(v);
    hide Tree, CanonicalJson, G.Text, G.Good;
    var d := G.Document("", Tree(v), "");
    assert G.Text(Tree(v)) + "" == G.Text(Tree(v)) && "" + G.Text(Tree(v)) == G.Text(Tree(v));
    assert G.GoodDocument(d) && G.DocumentText(d) == CanonicalJson(v);
  }

  // ----- Writing

  lemma MembersJsonStep(v: Value, keys: seq<string>, i: nat)
    requires v.Object? && i < |keys|
    ensures MembersJson(v, keys[i..])
         == StringJson(keys[i])
          + (":" + (ChildJson(v, keys[i]) + Continued(MembersJson(v, keys[i + 1..]), i + 1 < |keys|)))
  {
    assert keys[i..][1..] == keys[i + 1..];
  }

  /** What a list still has to write after an entry. */
  function Continued(rest: string, more: bool): string {
    if more then "," + rest else ""
  }

  lemma AppendedMember(before: string, name: string, child: string, later: string)
    ensures ((((before + name) + ":") + child) + later) == before + (name + (":" + (child + later)))
  {
    Cat2(before, name, ":" + (child + later));
    Cat2(before + name, ":", child + later);
    Cat2((before + name) + ":", child, later);
  }

  lemma ChildIs(v: Value, key: string)
    requires v.Object?
    ensures var i := Find(v.members, key);
      ChildJson(v, key) == if i < |v.members| then CanonicalJson(v.members[i].1) else ""
  {
    hide CanonicalJson;
  }

  method WriteMembers(v: Value, keys: seq<string>, buffer: string) returns (out: string)
    requires v.Object?
    ensures out == buffer + MembersJson(v, keys)
    decreases v, 0
  {
    out := buffer;
    assert keys[0..] == keys;
    for i := 0 to |keys|
      invariant i == 0 ==> out + MembersJson(v, keys[i..]) == buffer + MembersJson(v, keys)
      invariant i > 0 ==> out + Continued(MembersJson(v, keys[i..]), i < |keys|) == buffer + MembersJson(v, keys)
    {
      MembersJsonStep(v, keys, i);
      ChildIs(v, keys[i]);
      hide MembersJson, StringJson, CanonicalJson, ChildJson, Find;
      ghost var before, child, later :=
        out + (if i > 0 then "," else ""), ChildJson(v, keys[i]),
        Continued(MembersJson(v, keys[i + 1..]), i + 1 < |keys|);
      Cat2(out, ",", MembersJson(v, keys[i..]));
      if i > 0 {
        out := out + ",";
      } else {
        assert out + "" == out;
      }
      out := out + StringJson(keys[i]);
      out := out + ":";
      var at := Find(v.members, keys[i]);
      if at < |v.members| {
        out := WriteCanonical(v.members[at].1, out);
      } else {
        assert out + "" == out;
      }
      assert out == ((before + StringJson(keys[i])) + ":") + child;
      AppendedMember(before, StringJson(keys[i]), child, later);
    }
    NothingWritten(v, keys);
    assert out + "" == out;
  }

  lemma NothingWritten(v: Value, keys: seq<string>)
    requires v.Object?
    ensures MembersJson(v, keys[|keys|..]) == ""
  {
  }

  method WriteItems(v: Value, buffer: string) returns (out: string)
    requires v.Array?
    ensures out == buffer + ItemsJson(v, 0)
    decreases v, 0
  {
    out := buffer;
    for i := 0 to |v.items|
      invariant i == 0 ==> out + ItemsJson(v, i) == buffer + ItemsJson(v, 0)
      invariant i > 0 ==> out + Continued(ItemsJson(v, i), i < |v.items|) == buffer + ItemsJson(v, 0)
    {
      ghost var before, item, later :=
        out + (if i > 0 then "," else ""), CanonicalJson(v.items[i]), Continued(ItemsJson(v, i + 1), i + 1 < |v.items|);
      assert ItemsJson(v, i) == item + later;
      hide ItemsJson, CanonicalJson;
      Cat2(out, ",", ItemsJson(v, i));
      if i > 0 {
        out := out + ",";
      } else {
        assert out + "" == out;
      }
      out := WriteCanonical(v.items[i], out);
      Cat2(before, item, later);
    }
    assert ItemsJson(v, |v.items|) == "";
    assert out + "" == out;
  }

  /** Appends the canonical text of a value to a buffer. */
  method WriteCanonical(v: Value, buffer: string) returns (out: string)
    ensures out == buffer + CanonicalJson(v)
    decreases v, 1
  {
    out := buffer;
    match v {
      case Object(ms) =>
        var keys := SortedKeys(ms);
        out := out + "{";
        out := WriteMembers(v, keys, out);
        out := out + "}";
        Cat2(buffer, "{", MembersJson(v, keys));
        Cat2(buffer, "{" + MembersJson(v, keys), "}");
        Cat2("{", MembersJson(v, keys), "}");
      case Array(items) =>
        out := out + "[";
        out := WriteItems(v, out);
        out := out + "]";
        Cat2(buffer, "[", ItemsJson(v, 0));
        Cat2(buffer, "[" + ItemsJson(v, 0), "]");
        Cat2("[", ItemsJson(v, 0), "]");
      case String(s) =>
        out := out + StringJson(s);
      case Number(text) =>
        out := out + text;
      case Bool(b) =>
        out := out + if b then "true" else "false";
      case Null =>
        out := out + "null";
    }
  }
}

/** The repair machine on prefixes of JSON documents: it computes the cuts of `Truncation`.

    Every lemma follows one part of a syntax tree: what the machine does while it reads that
    part completely, and what closing it after the first `k` characters gives. */
module RepairProofs {
  import opened Options
  import opened Sequences
  import opened Digits
  import opened JsonGrammar
  import opened Truncation
  import opened PartialJson

  // ----- Runs

  lemma {:induction false} RunCat(c: Config, a: string, b: string)
    ensures Run(c, a + b) == Run(Run(c, a), b)
    decreases |a|
  {
    if a == "" {
      assert a + b == b;
    } else {
      assert (a + b)[1..] == a[1..] + b;
      RunCat(Step(c, a[0]), a[1..], b);
    }
  }

  lemma RunOne(c: Config, s: string)
    requires |s| == 1
    ensures Run(c, s) == Step(c, s[0])
  {
    assert s[1..] == "";
    assert Run(Step(c, s[0]), "") == Step(c, s[0]);
  }

  function Fed(c: Config, s: string): Config {
    c.(seen := c.seen + s)
  }

  // ----- Closing

  /** The states that stay on the stack while a nested value is read. */
  predicate Below(stack: seq<State>) {
    forall i :: 0 <= i < |stack| ==>
      stack[i] == Finished || stack[i] == InsideObjectAfterValue || stack[i] == InsideArrayAfterValue
  }

  lemma ClosersPush(stack: seq<State>, state: State, partial: string)
    ensures Closers(stack + [state], partial) == Closer(state, partial) + Closers(stack, partial)
  {
    assert (stack + [state])[..|stack|] == stack;
  }

  lemma {:induction false} ClosersBelow(stack: seq<State>, partial: string)
    requires Below(stack)
    ensures Closers(stack, partial) == Closers(stack, "")
  {
    if stack != [] {
      ClosersBelow(stack[..|stack| - 1], partial);
    }
  }

  /** Whatever waits in an unfinished entry, the stack closes as if the entry were done. */
  lemma FinishPending(c: Config, stack: seq<State>, state: State, done: State)
    requires c.stack == stack + [state] && Below(stack)
    requires Closer(state, c.seen[c.literalStart..]) == Closer(done, "")
    ensures Finish(c) == c.seen[..c.lastValidEnd] + Closers(stack + [done], "")
  {
    var partial := c.seen[c.literalStart..];
    ClosersPush(stack, state, partial);
    ClosersPush(stack, done, "");
    ClosersBelow(stack, partial);
  }

  /** A state on top that closes with nothing leaves the rest of the stack to close. */
  lemma FinishSilent(c: Config, stack: seq<State>, state: State)
    requires c.stack == stack + [state] && Closer(state, c.seen[c.literalStart..]) == ""
    ensures Finish(c) == c.seen[..c.lastValidEnd] + Closers(stack, c.seen[c.literalStart..])
  {
    ClosersPush(stack, state, c.seen[c.literalStart..]);
  }

  // ----- Whitespace

  predicate SkipsWs(state: State) {
    state in {Root, Finished, InsideObjectStart, InsideObjectAfterKey, InsideObjectBeforeValue,
              InsideObjectAfterValue, InsideObjectAfterComma, InsideArrayAfterComma}
  }

  predicate KeepsWs(state: State) {
    state == InsideArrayStart || state == InsideArrayAfterValue
  }

  lemma {:induction false} RunSkippedWs(c: Config, ws: string)
    requires IsWs(ws) && SkipsWs(Top(c.stack))
    ensures Run(c, ws) == Fed(c, ws)
    decreases |ws|
  {
    if ws == "" {
      assert c.seen + ws == c.seen;
    } else {
      assert Step(c, ws[0]) == Fed(c, [ws[0]]);
      RunSkippedWs(Step(c, ws[0]), ws[1..]);
      assert c.seen + ws == c.seen + [ws[0]] + ws[1..];
    }
  }

  lemma {:induction false} RunKeptWs(c: Config, ws: string)
    requires IsWs(ws) && ws != "" && KeepsWs(Top(c.stack))
    ensures Run(c, ws) == Fed(c, ws).(lastValidEnd := |c.seen| + |ws|)
    decreases |ws|
  {
    var d := Step(c, ws[0]);
    assert d == Fed(c, [ws[0]]).(lastValidEnd := |c.seen| + 1);
    if |ws| > 1 {
      RunKeptWs(d, ws[1..]);
      assert c.seen + ws == c.seen + [ws[0]] + ws[1..];
    } else {
      assert ws == [ws[0]];
      RunOne(c, ws);
    }
  }

  // ----- Where a value may start

  predicate ExpectsValue(state: State) {
    state == Root || state == InsideObjectBeforeValue || state == InsideArrayStart || state == InsideArrayAfterComma
  }

  /** The state a value leaves behind. */
  function Swap(state: State): State {
    if state == Root then Finished
    else if state == InsideObjectBeforeValue then InsideObjectAfterValue
    else InsideArrayAfterValue
  }

  function FirstState(v: Json): State {
    match v
    case Literal(_) => InsideLiteral
    case Numeric(_) => InsideNumber
    case Str(_) => InsideString
    case Empty(kind, _) => if kind == Array then InsideArrayStart else InsideObjectStart
    case Full(kind, _, _) => if kind == Array then InsideArrayStart else InsideObjectStart
  }

  lemma BeginStack(c: Config, stack: seq<State>, swap: State, state: State)
    requires c.stack != [] && c.stack[..|c.stack| - 1] == stack
    ensures Begin(c, swap, state) == c.(stack := stack + [swap, state])
  {
    assert stack + [swap] + [state] == stack + [swap, state];
  }

  lemma StartValue(c: Config, stack: seq<State>, v: Json)
    requires Good(v) && c.stack == stack + [Top(c.stack)] && ExpectsValue(Top(c.stack))
    ensures var ch := Text(v)[0]; var d := Step(c, ch);
      && d.seen == c.seen + [ch]
      && d.stack == stack + [Swap(Top(c.stack)), FirstState(v)]
      && d.lastValidEnd == (if ch == '-' then c.lastValidEnd else |c.seen| + 1)
      && d.pendingHigh == c.pendingHigh
      && (v.Literal? ==> d.literalStart == |c.seen|)
  {
    TextStart(v);
    StartIs(v);
    hide ValueStart, Text, Good, FirstState, Begin;
    var d := Read(c, Text(v)[0]);
    StartValueAt(d, stack, v, Swap(Top(c.stack)));
    StartValueAt(Valid(d), stack, v, Swap(Top(c.stack)));
  }

  /** Which character a value starts with. */
  lemma StartIs(v: Json)
    requires Good(v)
    ensures Text(v) != ""
    ensures var ch := Text(v)[0];
      match v
      case Literal(_) => ch in {'t', 'f', 'n'}
      case Numeric(_) => ch == '-' || '0' <= ch <= '9'
      case Str(_) => ch == '\"'
      case Empty(kind, _) => ch == if kind == Array then '[' else '{'
      case Full(kind, _, _) => ch == if kind == Array then '[' else '{'
  {
    TextStart(v);
    hide Text;
  }

  lemma StartValueAt(c: Config, stack: seq<State>, v: Json, swap: State)
    requires Good(v) && c.seen != "" && c.stack != [] && c.stack[..|c.stack| - 1] == stack
    ensures Text(v) != ""
    ensures var ch := Text(v)[0]; var d := ValueStart(c, ch, swap);
      d == c.(stack := stack + [swap, FirstState(v)],
              lastValidEnd := if ch == '-' then c.lastValidEnd else |c.seen|,
              literalStart := if v.Literal? then |c.seen| - 1 else c.literalStart)
  {
    StartIs(v);
    hide Begin, Text, Good, Valid, GoodNumber, IsLiteral, NumberText;
    BeginStack(c, stack, swap, FirstState(v));
    BeginStack(Valid(c), stack, swap, FirstState(v));
    BeginStack(Valid(c).(literalStart := |c.seen| - 1), stack, swap, FirstState(v));
  }

  lemma RunTake(c: Config, s: string, k: nat)
    requires k < |s|
    ensures Run(c, s[..k + 1]) == Step(Run(c, s[..k]), s[k])
  {
    assert s[..k + 1] == s[..k] + [s[k]];
    RunSnoc(c, s[..k], s[k]);
  }

  // ----- Strings

  predicate IsEscapeState(state: State) {
    state == InsideStringEscape || state == InsideStringUnicodeEscape
  }

  /** Inside a string opened above `below`, possibly inside one of its escapes. */
  predicate InString(stack: seq<State>, below: seq<State>) {
    stack == below + [InsideString]
    || (|stack| > 0 && stack == below + [InsideString] + [Top(stack)] && IsEscapeState(Top(stack)))
  }

  /** The value of the first `n` digits of a unicode escape. */
  function HexPrefix(item: StringItem, n: nat): (v: nat)
    requires item.Unicode? && GoodItem(item) && n <= 4
    ensures n == 0 ==> v < 1
    ensures n == 1 ==> v < 16
    ensures n == 2 ==> v < 256
    ensures n == 3 ==> v < 4096
    ensures n == 4 ==> v < 65536 && v == CodeUnit(item)
  {
    if n == 0 then 0
    else if n == 1 then HexDigitValue(item.h0)
    else if n == 2 then HexDigitValue(item.h0) * 16 + HexDigitValue(item.h1)
    else if n == 3 then (HexDigitValue(item.h0) * 16 + HexDigitValue(item.h1)) * 16 + HexDigitValue(item.h2)
    else CodeUnit(item)
  }

  lemma EscapeOpens(c: Config, below: seq<State>)
    requires c.stack == below + [InsideString]
    ensures Step(c, '\\') == Fed(c, "\\").(stack := below + [InsideString] + [InsideStringEscape])
  {
  }

  lemma EscapeIsUnicode(c: Config, below: seq<State>)
    requires c.stack == below + [InsideString] + [InsideStringEscape]
    ensures Step(c, 'u') == Fed(c, "u").(
      stack := below + [InsideString] + [InsideStringUnicodeEscape], escapeDigits := 0, escapeValue := 0)
  {
    assert Pop(c.stack) == below + [InsideString];
  }

  lemma HexStep(c: Config, ch: char)
    requires Top(c.stack) == InsideStringUnicodeEscape && IsHexDigit(ch) && c.escapeDigits < 3 && c.escapeValue < 4096
    ensures Step(c, ch) == Fed(c, [ch]).(
      escapeDigits := c.escapeDigits + 1, escapeValue := c.escapeValue * 16 + HexDigitValue(ch))
  {
  }

  lemma LastHexStep(c: Config, below: seq<State>, ch: char)
    requires c.stack == below + [InsideStringUnicodeEscape]
    requires IsHexDigit(ch) && c.escapeDigits == 3 && c.escapeValue < 4096
    ensures var d := Step(c, ch); var value := c.escapeValue * 16 + HexDigitValue(ch);
      var pending := IsHighSurrogate(value) || (c.pendingHigh && !IsLowSurrogate(value));
      && d.seen == c.seen + [ch] && d.stack == below && d.pendingHigh == pending
      && d.lastValidEnd == (if pending then c.lastValidEnd else |c.seen| + 1)
  {
    assert Pop(c.stack) == below;
  }

  lemma {:induction false} UnicodePart(c: Config, below: seq<State>, item: StringItem, k: nat)
    requires c.stack == below + [InsideString] && item.Unicode? && GoodItem(item) && 2 <= k < 6
    ensures Run(c, ItemText(item)[..k]) == Fed(c, ItemText(item)[..k]).(
      stack := below + [InsideString] + [InsideStringUnicodeEscape],
      escapeDigits := k - 2,
      escapeValue := HexPrefix(item, k - 2))
  {
    hide Step;
    var t := ItemText(item);
    RunTake(c, t, k - 1);
    assert c.seen + t[..k] == c.seen + t[..k - 1] + [t[k - 1]];
    if k == 2 {
      assert t[..1] == "\\";
      RunOne(c, t[..1]);
      EscapeOpens(c, below);
      EscapeIsUnicode(Step(c, '\\'), below);
    } else {
      UnicodePart(c, below, item, k - 1);
      HexStep(Run(c, t[..k - 1]), t[k - 1]);
    }
  }

  lemma RunUnicode(c: Config, below: seq<State>, item: StringItem)
    requires c.stack == below + [InsideString] && item.Unicode? && GoodItem(item)
    ensures var d := Run(c, ItemText(item));
      && d.seen == c.seen + ItemText(item)
      && d.stack == below + [InsideString]
      && d.pendingHigh == PendingItem(item, c.pendingHigh)
      && d.lastValidEnd == (if Completes(item, c.pendingHigh) then |d.seen| else c.lastValidEnd)
  {
    var t := ItemText(item);
    UnicodePart(c, below, item, 5);
    RunTake(c, t, 5);
    assert t[..6] == t;
    assert c.seen + t == c.seen + t[..5] + [item.h3];
    LastHexStep(Run(c, t[..5]), below + [InsideString], item.h3);
  }

  /** A complete item of a string value. */
  lemma RunItem(c: Config, below: seq<State>, item: StringItem)
    requires c.stack == below + [InsideString] && GoodItem(item)
    ensures var d := Run(c, ItemText(item));
      && d.seen == c.seen + ItemText(item)
      && d.stack == below + [InsideString]
      && d.pendingHigh == PendingItem(item, c.pendingHigh)
      && d.lastValidEnd == (if Completes(item, c.pendingHigh) then |d.seen| else c.lastValidEnd)
  {
    match item
    case Plain(ch) => RunOne(c, [ch]);
    case Escape(ch) =>
      var t := ItemText(item);
      assert t[..1] == "\\" && t[..2] == t;
      RunOne(c, t[..1]);
      EscapeOpens(c, below);
      RunTake(c, t, 1);
    case Unicode(_, _, _, _) => RunUnicode(c, below, item);
  }

  /** An item of a string value of which only `k` characters are known. */
  lemma RunItemPart(c: Config, below: seq<State>, item: StringItem, k: nat)
    requires c.stack == below + [InsideString] && GoodItem(item) && k < |ItemText(item)|
    ensures var d := Run(c, ItemText(item)[..k]);
      d.seen == c.seen + ItemText(item)[..k] && InString(d.stack, below) && d.lastValidEnd == c.lastValidEnd
  {
    var t := ItemText(item);
    if k == 0 {
      assert t[..0] == "" && c.seen + "" == c.seen;
    } else if k == 1 {
      assert t[..1] == "\\";
      RunOne(c, t[..1]);
      EscapeOpens(c, below);
    } else {
      UnicodePart(c, below, item, k);
    }
  }

  lemma ItemsLengthTake(items: seq<StringItem>, n: nat)
    requires 0 < n <= |items|
    ensures ItemsLength(items[..n]) == ItemLength(items[0]) + ItemsLength(items[1..][..n - 1])
  {
    assert items[..n][1..] == items[1..][..n - 1];
  }

  /** One past the last character that the first `k` characters of `items` make valid. */
  function CommitEnd(items: seq<StringItem>, k: nat, pending: bool, start: nat, before: nat): nat {
    var n := Committed(items, k, pending);
    if n == 0 then before else start + ItemsLength(items[..n])
  }

  lemma CommitEndNext(items: seq<StringItem>, k: nat, pending: bool, start: nat, before: nat)
    requires items != [] && ItemLength(items[0]) <= k
    ensures var t := ItemLength(items[0]);
      CommitEnd(items, k, pending, start, before)
      == CommitEnd(items[1..], k - t, PendingItem(items[0], pending), start + t,
                   if Completes(items[0], pending) then start + t else before)
  {
    var n := Committed(items, k, pending);
    if n > 0 {
      ItemsLengthTake(items, n);
    }
  }

  lemma {:induction false} RunItems(c: Config, below: seq<State>, items: seq<StringItem>, k: nat)
    requires c.stack == below + [InsideString] && GoodItems(items) && k <= |ItemsText(items)|
    ensures var d := Run(c, ItemsText(items)[..k]);
      && d.seen == c.seen + ItemsText(items)[..k]
      && InString(d.stack, below)
      && d.lastValidEnd == CommitEnd(items, k, c.pendingHigh, |c.seen|, c.lastValidEnd)
    decreases |items|
  {
    hide Step;
    if items == [] {
      assert ItemsText(items)[..k] == "" && c.seen + "" == c.seen;
    } else {
      var t, rest := ItemText(items[0]), ItemsText(items[1..]);
      TakeCat(t, rest, k);
      if k < |t| {
        RunItemPart(c, below, items[0], k);
      } else {
        RunItem(c, below, items[0]);
        RunCat(c, t, rest[..k - |t|]);
        RunItems(Run(c, t), below, items[1..], k - |t|);
        CommitEndNext(items, k, c.pendingHigh, |c.seen|, c.lastValidEnd);
        Cat2(c.seen, t, rest[..k - |t|]);
      }
    }
  }

  lemma {:induction false} RunAllItems(c: Config, below: seq<State>, items: seq<StringItem>)
    requires c.stack == below + [InsideString] && GoodItems(items)
    ensures var d := Run(c, ItemsText(items));
      && d.seen == c.seen + ItemsText(items)
      && d.stack == below + [InsideString]
      && d.pendingHigh == PendingItems(items, c.pendingHigh)
    decreases |items|
  {
    if items == [] {
      assert c.seen + "" == c.seen;
    } else {
      var t, rest := ItemText(items[0]), ItemsText(items[1..]);
      RunItem(c, below, items[0]);
      RunCat(c, t, rest);
      RunAllItems(Run(c, t), below, items[1..]);
      Cat2(c.seen, t, rest);
    }
  }

  // ----- Numbers

  predicate IsNumberText(s: string) {
    forall i :: 0 <= i < |s| ==> IsNumberChar(s[i])
  }

  lemma NumberTextChars(n: Number)
    requires GoodNumber(n)
    ensures IsNumberText(NumberText(n))
  {
    assert IsNumberText(IntegerText(n));
    assert IsNumberText(FractionText(n.fraction));
    assert IsNumberText(ExponentText(n.exponent));
  }

  lemma NumberStep(c: Config, ch: char)
    requires Top(c.stack) == InsideNumber && IsNumberChar(ch)
    ensures Step(c, ch) == Fed(c, [ch]).(lastValidEnd := if IsDigit(ch) then |c.seen| + 1 else c.lastValidEnd)
  {
  }

  lemma LastDigitSnoc(s: string, ch: char)
    ensures LastDigit(s + [ch]) == if IsDigit(ch) then |s| + 1 else LastDigit(s)
  {
    assert (s + [ch])[..|s|] == s;
  }

  function LastDigitEnd(s: string, start: nat, before: nat): nat {
    if LastDigit(s) == 0 then before else start + LastDigit(s)
  }

  /** A nonempty part of a number, read where a value may start. */
  lemma {:induction false} RunNumber(c: Config, stack: seq<State>, s: string)
    requires c.stack == stack + [Top(c.stack)] && ExpectsValue(Top(c.stack))
    requires IsNumberText(s) && s != "" && (s[0] == '-' || IsDigit(s[0]))
    ensures var d := Run(c, s);
      && d.seen == c.seen + s
      && d.stack == stack + [Swap(Top(c.stack)), InsideNumber]
      && d.pendingHigh == c.pendingHigh
      && d.lastValidEnd == LastDigitEnd(s, |c.seen|, c.lastValidEnd)
    decreases |s|
  {
    hide Step;
    if |s| == 1 {
      StartNumber(c, stack, s[0]);
      RunOne(c, s);
      assert s == [s[0]];
    } else {
      var r, ch := s[..|s| - 1], s[|s| - 1];
      assert s == r + [ch];
      RunNumber(c, stack, r);
      RunSnoc(c, r, ch);
      LastDigitSnoc(r, ch);
      NumberStep(Run(c, r), ch);
    }
  }

  lemma StartNumber(c: Config, stack: seq<State>, ch: char)
    requires c.stack == stack + [Top(c.stack)] && ExpectsValue(Top(c.stack)) && (ch == '-' || IsDigit(ch))
    ensures var d := Step(c, ch);
      && d.seen == c.seen + [ch]
      && d.stack == stack + [Swap(Top(c.stack)), InsideNumber]
      && d.lastValidEnd == (if ch == '-' then c.lastValidEnd else |c.seen| + 1)
      && d.pendingHigh == c.pendingHigh
  {
    var top := Top(c.stack);
    assert c.stack[..|c.stack| - 1] == stack;
    assert stack + [Swap(top)] + [InsideNumber] == stack + [Swap(top), InsideNumber];
  }

  // ----- Literals

  lemma LiteralStart(name: string, k: nat)
    requires IsLiteral(name) && k <= |name|
    ensures StartsLiteral(name[..k])
    ensures k > 0 ==> name[..k] + LiteralRest(name[..k]) == name
  {
    if k > 0 {
      assert name[..k][0] == name[0];
      assert LiteralRest(name[..k]) == name[k..];
    }
  }

  lemma LiteralStep(c: Config, ch: char)
    requires Top(c.stack) == InsideLiteral && StartsLiteral(c.seen[c.literalStart..] + [ch])
    ensures Step(c, ch) == Fed(c, [ch]).(lastValidEnd := |c.seen| + 1)
  {
    assert (c.seen + [ch])[c.literalStart..] == c.seen[c.literalStart..] + [ch];
  }

  lemma StartsLiteralPrefix(s: string)
    requires StartsLiteral(s) && |s| > 1
    ensures StartsLiteral(s[..|s| - 1])
  {
  }

  /** A nonempty part of a literal, read where a value may start. */
  lemma {:induction false} RunLiteral(c: Config, stack: seq<State>, s: string)
    requires c.stack == stack + [Top(c.stack)] && ExpectsValue(Top(c.stack))
    requires StartsLiteral(s) && s != ""
    ensures var d := Run(c, s);
      && d.seen == c.seen + s
      && d.stack == stack + [Swap(Top(c.stack)), InsideLiteral]
      && d.pendingHigh == c.pendingHigh
      && d.lastValidEnd == |d.seen|
      && d.literalStart == |c.seen|
    decreases |s|
  {
    hide Step;
    if |s| == 1 {
      var name := if s <= "true" then "true" else if s <= "false" then "false" else "null";
      StartValue(c, stack, Literal(name));
      RunOne(c, s);
      assert s == [s[0]];
    } else {
      var r, ch := s[..|s| - 1], s[|s| - 1];
      StartsLiteralPrefix(s);
      hide StartsLiteral, Run;
      assert s == r + [ch];
      RunLiteral(c, stack, r);
      RunSnoc(c, r, ch);
      assert Run(c, r).seen[|c.seen|..] == r;
      LiteralStep(Run(c, r), ch);
    }
  }

  // ----- After a value: a number or literal stays on the stack until the next character

  predicate IsAfter(state: State) {
    state == Finished || state == InsideObjectAfterValue || state == InsideArrayAfterValue
  }

  /** The machine has read a value whose place on the stack is the top of `base`. */
  predicate Settled(c: Config, base: seq<State>, scalar: bool) {
    if !scalar then c.stack == base
    else
      || c.stack == base + [InsideNumber]
      || (c.stack == base + [InsideLiteral] && IsLiteral(c.seen[c.literalStart..]))
  }

  function AfterStep(base: seq<State>, ch: char): seq<State> {
    if ch == ',' && Top(base) == InsideArrayAfterValue then ReplaceTop(base, InsideArrayAfterComma)
    else if ch == ',' && Top(base) == InsideObjectAfterValue then ReplaceTop(base, InsideObjectAfterComma)
    else if ch == ']' && Top(base) == InsideArrayAfterValue then Pop(base)
    else if ch == '}' && Top(base) == InsideObjectAfterValue then Pop(base)
    else base
  }

  /** What the character after a value does to what is valid. */
  function AfterEnd(c: Config, base: seq<State>, scalar: bool, ch: char): nat {
    if |AfterStep(base, ch)| < |base| then |c.seen| + 1
    else if !scalar && IsWsChar(ch) && Top(base) == InsideArrayAfterValue then |c.seen| + 1
    else c.lastValidEnd
  }

  predicate MayFollow(base: seq<State>, ch: char) {
    ch == ',' || IsWsChar(ch) || ch == (if Top(base) == InsideArrayAfterValue then ']' else '}')
  }

  lemma PlainDelimiter(c: Config, ch: char)
    requires c.stack != [] && IsAfter(Top(c.stack)) && MayFollow(c.stack, ch)
    ensures Step(c, ch) ==
      Fed(c, [ch]).(stack := AfterStep(c.stack, ch), lastValidEnd := AfterEnd(c, c.stack, false, ch))
  {
    hide ValueStart, NumberChar, LiteralChar, UnicodeDigit;
  }

  lemma NumberDelimiter(c: Config, base: seq<State>, ch: char)
    requires base != [] && IsAfter(Top(base)) && c.stack == base + [InsideNumber] && MayFollow(base, ch)
    ensures Step(c, ch) == Fed(c, [ch]).(stack := AfterStep(base, ch), lastValidEnd := AfterEnd(c, base, true, ch))
  {
    hide ValueStart, LiteralChar, UnicodeDigit;
    assert Pop(c.stack) == base;
  }

  lemma LiteralDelimiter(c: Config, base: seq<State>, ch: char)
    requires base != [] && IsAfter(Top(base)) && c.stack == base + [InsideLiteral] && MayFollow(base, ch)
    requires IsLiteral(c.seen[c.literalStart..])
    ensures Step(c, ch) == Fed(c, [ch]).(stack := AfterStep(base, ch), lastValidEnd := AfterEnd(c, base, true, ch))
  {
    LiteralEnds(c.seen[c.literalStart..], ch);
    assert (c.seen + [ch])[c.literalStart..] == c.seen[c.literalStart..] + [ch];
    hide ValueStart, NumberChar, UnicodeDigit, StartsLiteral, IsLiteral;
    assert Pop(c.stack) == base;
  }

  /** The character after a value does the same whether or not the value still waits on the
      stack, except that whitespace ending a number or literal is not kept. */
  lemma DelimiterStep(c: Config, base: seq<State>, scalar: bool, ch: char)
    requires base != [] && IsAfter(Top(base)) && Settled(c, base, scalar) && MayFollow(base, ch)
    ensures Step(c, ch) == Fed(c, [ch]).(stack := AfterStep(base, ch), lastValidEnd := AfterEnd(c, base, scalar, ch))
  {
    hide Step, AfterStep;
    if !scalar {
      PlainDelimiter(c, ch);
    } else if c.stack == base + [InsideNumber] {
      NumberDelimiter(c, base, ch);
    } else {
      LiteralDelimiter(c, base, ch);
    }
  }

  lemma LiteralEnds(name: string, ch: char)
    requires IsLiteral(name) && (IsWsChar(ch) || ch == ',' || ch == ']' || ch == '}')
    ensures !StartsLiteral(name + [ch])
  {
    var s := name + [ch];
    assert s[0] == name[0] && s[|name|] == ch;
  }

  function KindAfter(kind: Kind): State {
    if kind == Array then InsideArrayAfterValue else InsideObjectAfterValue
  }

  function KindAfterComma(kind: Kind): State {
    if kind == Array then InsideArrayAfterComma else InsideObjectAfterComma
  }

  function KindStart(kind: Kind): State {
    if kind == Array then InsideArrayStart else InsideObjectStart
  }

  lemma RunMoreWs(c: Config, kind: Kind, ws: string)
    requires Top(c.stack) == KindAfter(kind) && IsWs(ws)
    ensures Run(c, ws) == Fed(c, ws).(
      lastValidEnd := if kind == Array && ws != "" then |c.seen| + |ws| else c.lastValidEnd)
  {
    if kind == Array && ws != "" {
      RunKeptWs(c, ws);
    } else if kind == Object {
      RunSkippedWs(c, ws);
    } else {
      assert c.seen + "" == c.seen;
    }
  }

  /** Whitespace after an entry's value. */
  lemma RunAfter(c: Config, stack: seq<State>, kind: Kind, v: Json, after: string)
    requires Settled(c, stack + [KindAfter(kind)], Scalar(v)) && c.lastValidEnd == |c.seen| && IsWs(after)
    ensures var d := Run(c, after);
      && d.seen == c.seen + after
      && Settled(d, stack + [KindAfter(kind)], Scalar(v) && after == "")
      && d.pendingHigh == c.pendingHigh
      && d.lastValidEnd == |c.seen| + |Kept(kind, v, after)|
  {
    if after == "" {
      assert c.seen + "" == c.seen;
    } else {
      var base := stack + [KindAfter(kind)];
      var ch, rest := after[0], after[1..];
      DelimiterStep(c, base, Scalar(v), ch);
      assert AfterStep(base, ch) == base;
      RunMoreWs(Step(c, ch), kind, rest);
      assert after == [ch] + rest;
      Cat2(c.seen, [ch], rest);
    }
  }

  // ----- Keys

  /** The characters of an item, but for the first of an escape, are not special in a key. */
  lemma ItemChars(item: StringItem, k: nat)
    requires GoodItem(item) && k < |ItemText(item)|
    ensures var ch := ItemText(item)[k];
      if item.Plain? || k > 1 then ch != '\\' && ch != '\"' else k == 0 ==> ch == '\\'
  {
  }

  lemma {:induction false} RunKeyItem(c: Config, below: seq<State>, item: StringItem, k: nat)
    requires c.stack == below + [InsideObjectKey] && GoodItem(item) && k <= |ItemText(item)|
    ensures Run(c, ItemText(item)[..k]) == Fed(c, ItemText(item)[..k]).(
      stack := if item.Plain? || k != 1 then below + [InsideObjectKey]
               else below + [InsideObjectKey] + [InsideObjectKeyEscape])
    decreases k
  {
    var t := ItemText(item);
    if k == 0 {
      assert t[..0] == "" && c.seen + "" == c.seen;
    } else {
      RunKeyItem(c, below, item, k - 1);
      ItemChars(item, k - 1);
      PlainIsOne(item);
      hide Step, Run, GoodItem, ItemText;
      var d := Run(c, t[..k - 1]);
      RunTake(c, t, k - 1);
      assert (c.seen + t[..k - 1]) + [t[k - 1]] == c.seen + t[..k] by {
        hide *;
        assert t[..k] == t[..k - 1] + [t[k - 1]];
      }
      KeyStep(d, below, t[k - 1]);
    }
  }

  lemma PlainIsOne(item: StringItem)
    ensures item.Plain? ==> |ItemText(item)| == 1
  {
  }

  lemma KeyStep(c: Config, below: seq<State>, ch: char)
    requires c.stack == below + [InsideObjectKey] || c.stack == below + [InsideObjectKey] + [InsideObjectKeyEscape]
    ensures Top(c.stack) == InsideObjectKeyEscape ==>
      Step(c, ch) == Fed(c, [ch]).(stack := below + [InsideObjectKey])
    ensures Top(c.stack) == InsideObjectKey && ch == '\\' ==>
      Step(c, ch) == Fed(c, [ch]).(stack := below + [InsideObjectKey] + [InsideObjectKeyEscape])
    ensures Top(c.stack) == InsideObjectKey && ch == '\"' ==>
      Step(c, ch) == Fed(c, [ch]).(stack := below + [InsideObjectAfterKey])
    ensures Top(c.stack) == InsideObjectKey && ch != '\\' && ch != '\"' ==> Step(c, ch) == Fed(c, [ch])
  {
    assert Top(c.stack) == InsideObjectKeyEscape ==> Pop(c.stack) == below + [InsideObjectKey];
    assert Top(c.stack) == InsideObjectKey ==> Pop(c.stack) == below;
  }

  predicate InKey(stack: seq<State>, below: seq<State>) {
    stack == below + [InsideObjectKey] || stack == below + [InsideObjectKey] + [InsideObjectKeyEscape]
  }

  lemma {:induction false} RunKeyItems(c: Config, below: seq<State>, items: seq<StringItem>, k: nat)
    requires c.stack == below + [InsideObjectKey] && GoodItems(items) && k <= |ItemsText(items)|
    ensures var d := Run(c, ItemsText(items)[..k]);
      && InKey(d.stack, below)
      && (k == |ItemsText(items)| ==> d.stack == below + [InsideObjectKey])
      && d == Fed(c, ItemsText(items)[..k]).(stack := d.stack)
    decreases |items|
  {
    hide Step;
    if items == [] {
      assert ItemsText(items)[..k] == "" && c.seen + "" == c.seen;
    } else {
      var t, rest := ItemText(items[0]), ItemsText(items[1..]);
      TakeCat(t, rest, k);
      if k < |t| {
        RunKeyItem(c, below, items[0], k);
      } else {
        RunKeyItem(c, below, items[0], |t|);
        assert t[..|t|] == t;
        RunCat(c, t, rest[..k - |t|]);
        RunKeyItems(Run(c, t), below, items[1..], k - |t|);
        Cat2(c.seen, t, rest[..k - |t|]);
      }
    }
  }

  predicate HeadState(state: State) {
    state in {InsideObjectStart, InsideObjectAfterComma, InsideObjectKey, InsideObjectAfterKey, InsideObjectBeforeValue}
  }

  /** Inside an object member whose value has not started. */
  predicate InHead(stack: seq<State>, below: seq<State>) {
    |stack| > 0 && (InKey(stack, below) || (stack == below + [Top(stack)] && HeadState(Top(stack))))
  }

  /** The end of a key: its closing quote, the colon and the whitespace around it. */
  lemma RunKeyEnd(c: Config, below: seq<State>, gap: string, lead: string, k: nat)
    requires c.stack == below + [InsideObjectKey] && IsWs(gap) && IsWs(lead)
    requires k <= |"\"" + (gap + (":" + lead))|
    ensures var t := "\"" + (gap + (":" + lead)); var d := Run(c, t[..k]);
      && InHead(d.stack, below)
      && (k == |t| ==> d.stack == below + [InsideObjectBeforeValue])
      && d == Fed(c, t[..k]).(stack := d.stack)
  {
    var t := "\"" + (gap + (":" + lead));
    if k == 0 {
      assert t[..k] == "" && c.seen + "" == c.seen;
    } else {
      var e := Step(c, '\"');
      KeyStep(c, below, '\"');
      TakeCat("\"", gap + (":" + lead), k);
      RunOne(c, "\"");
      var u := (gap + (":" + lead))[..k - 1];
      RunCat(c, "\"", u);
      RunColon(e, below, gap, lead, k - 1);
      Cat2(c.seen, "\"", u);
    }
  }

  lemma RunColon(c: Config, below: seq<State>, gap: string, lead: string, k: nat)
    requires c.stack == below + [InsideObjectAfterKey] && IsWs(gap) && IsWs(lead)
    requires k <= |gap + (":" + lead)|
    ensures var t := gap + (":" + lead); var d := Run(c, t[..k]);
      && InHead(d.stack, below)
      && (k == |t| ==> d.stack == below + [InsideObjectBeforeValue])
      && d == Fed(c, t[..k]).(stack := d.stack)
  {
    TakeCat(gap, ":" + lead, k);
    if k <= |gap| {
      RunSkippedWs(c, gap[..k]);
    } else {
      var u := (":" + lead)[..k - |gap|];
      var ws := u[1..];
      assert u == ":" + ws && ws == lead[..k - |gap| - 1];
      RunSkippedWs(c, gap);
      RunCat(c, gap, u);
      var e := Run(c, gap);
      assert Pop(e.stack) == below;
      var f := Step(e, ':');
      assert Run(e, u) == Run(f, ws);
      RunSkippedWs(f, ws);
      Cat2(c.seen, gap, u);
      Cat2(c.seen + gap, ":", ws);
    }
  }

  /** A key's text after its opening quote. */
  function KeyBody(key: Key): string
    requires key.Key?
  {
    ItemsText(key.items) + KeyTail(key)
  }

  /** A key's text from its closing quote on. */
  function KeyTail(key: Key): string
    requires key.Key?
  {
    "\"" + (key.gap + (":" + key.lead))
  }

  lemma KeyTextSplit(key: Key)
    requires key.Key?
    ensures KeyText(key) == "\"" + KeyBody(key)
  {
    Cat3("\"", ItemsText(key.items), "\"", key.gap + (":" + key.lead));
  }

  lemma KeyOpens(c: Config, below: seq<State>)
    requires c.stack == below + [InsideObjectStart] || c.stack == below + [InsideObjectAfterComma]
    ensures Run(c, "\"") == Fed(c, "\"").(stack := below + [InsideObjectKey])
  {
    RunOne(c, "\"");
    assert Pop(c.stack) == below;
  }

  lemma RunKeyBody(c: Config, below: seq<State>, key: Key, k: nat)
    requires GoodKey(Object, key) && c.stack == below + [InsideObjectKey] && k <= |KeyBody(key)|
    ensures var d := Run(c, KeyBody(key)[..k]);
      && InHead(d.stack, below)
      && (k == |KeyBody(key)| ==> d.stack == below + [InsideObjectBeforeValue])
      && d == Fed(c, KeyBody(key)[..k]).(stack := d.stack)
  {
    hide Step, Run, ItemsText, GoodItems;
    var items := ItemsText(key.items);
    var tail := KeyTail(key);
    TakeCat(items, tail, k);
    hide KeyTail;
    if k <= |items| {
      RunKeyItems(c, below, key.items, k);
    } else {
      RunKeyItems(c, below, key.items, |items|);
      assert items[..|items|] == items;
      RunCat(c, items, tail[..k - |items|]);
      RunKeyEnd(Run(c, items), below, key.gap, key.lead, k - |items|);
      Cat2(c.seen, items, tail[..k - |items|]);
    }
  }

  /** A key, or its first `k` characters, changes nothing but the stack. */
  lemma RunKey(c: Config, below: seq<State>, key: Key, k: nat)
    requires GoodKey(Object, key) && k <= |KeyText(key)|
    requires c.stack == below + [InsideObjectStart] || c.stack == below + [InsideObjectAfterComma]
    ensures var d := Run(c, KeyText(key)[..k]);
      && InHead(d.stack, below)
      && (k == |KeyText(key)| ==> d.stack == below + [InsideObjectBeforeValue])
      && d == Fed(c, KeyText(key)[..k]).(stack := d.stack)
  {
    hide Step, KeyText, KeyBody;
    KeyTextSplit(key);
    TakeCat("\"", KeyBody(key), k);
    if k == 0 {
      assert c.seen + "" == c.seen;
    } else {
      var u := KeyBody(key)[..k - 1];
      KeyOpens(c, below);
      RunCat(c, "\"", u);
      RunKeyBody(Run(c, "\""), below, key, k - 1);
      Cat2(c.seen, "\"", u);
    }
  }

  lemma FinishHead(c: Config, below: seq<State>)
    requires InHead(c.stack, below) && Below(below)
    ensures Finish(c) == c.seen[..c.lastValidEnd] + Closers(below + [InsideObjectAfterValue], "")
  {
    hide Closers, Finish;
    var partial := c.seen[c.literalStart..];
    if Top(c.stack) == InsideObjectKeyEscape {
      FinishSilent(c, below + [InsideObjectKey], InsideObjectKeyEscape);
      ClosersPush(below, InsideObjectKey, partial);
      ClosersPush(below, InsideObjectAfterValue, "");
      ClosersBelow(below, partial);
    } else {
      FinishPending(c, below, Top(c.stack), InsideObjectAfterValue);
    }
  }

  // ----- Complete values

  lemma RunCat3(c: Config, x: string, y: string, z: string)
    ensures Run(c, x + (y + z)) == Run(Run(Run(c, x), y), z)
  {
    RunCat(c, x, y + z);
    RunCat(Run(c, x), y, z);
  }

  lemma AfterKeepsSeen(c: Config, ch: char)
    ensures AfterObjectValue(c, ch).seen == AfterArrayValue(c, ch).seen == c.seen
    ensures ThenObject(c, ch).seen == ThenArray(c, ch).seen == c.seen
  {
    hide ReplaceTop, Pop, Top;
  }

  lemma NumberKeepsSeen(c: Config, ch: char)
    ensures NumberChar(c, ch).seen == c.seen
  {
    hide AfterObjectValue, AfterArrayValue, ThenObject, ThenArray, Pop;
    AfterKeepsSeen(Leave(c), ch);
    AfterKeepsSeen(ThenArray(Leave(c), ch), ch);
  }

  lemma LiteralKeepsSeen(c: Config, ch: char)
    ensures LiteralChar(c, ch).seen == c.seen
  {
    hide AfterObjectValue, AfterArrayValue, Pop, StartsLiteral;
    AfterKeepsSeen(Leave(c), ch);
  }

  lemma StartKeepsSeen(c: Config, ch: char, swap: State)
    requires c.seen != ""
    ensures ValueStart(c, ch, swap).seen == c.seen
  {
    hide ReplaceTop, Pop, Top;
  }

  lemma DigitKeepsSeen(c: Config, ch: char)
    ensures UnicodeDigit(c, ch).seen == c.seen
  {
    hide ReplaceTop, Pop, Top;
  }

  lemma PartsKeepSeen(c: Config, ch: char, swap: State)
    requires c.seen != ""
    ensures ValueStart(c, ch, swap).seen == c.seen
    ensures AfterObjectValue(c, ch).seen == AfterArrayValue(c, ch).seen == c.seen
    ensures UnicodeDigit(c, ch).seen == c.seen
    ensures NumberChar(c, ch).seen == c.seen
    ensures LiteralChar(c, ch).seen == c.seen
  {
    hide ReplaceTop, Pop, Top, AfterObjectValue, AfterArrayValue, NumberChar, LiteralChar, ValueStart, UnicodeDigit;
    AfterKeepsSeen(c, ch);
    NumberKeepsSeen(c, ch);
    LiteralKeepsSeen(c, ch);
    StartKeepsSeen(c, ch, swap);
    DigitKeepsSeen(c, ch);
  }

  lemma StepSeen(c: Config, ch: char)
    ensures Step(c, ch).seen == c.seen + [ch]
  {
    hide ReplaceTop, Pop, ValueStart, AfterObjectValue, AfterArrayValue, UnicodeDigit, NumberChar, LiteralChar;
    var d := Read(c, ch);
    PartsKeepSeen(d, ch, Finished);
    PartsKeepSeen(d, ch, InsideObjectAfterValue);
    PartsKeepSeen(d, ch, InsideArrayAfterValue);
    PartsKeepSeen(Valid(d), ch, InsideArrayAfterValue);
  }

  lemma {:induction false} RunSeen(c: Config, s: string)
    ensures Run(c, s).seen == c.seen + s
    decreases |s|
  {
    if s == "" {
      assert c.seen + "" == c.seen;
    } else {
      StepSeen(c, s[0]);
      RunSeen(Step(c, s[0]), s[1..]);
      Cat2(c.seen, [s[0]], s[1..]);
      assert [s[0]] + s[1..] == s;
    }
  }

  lemma NumberEndsInDigit(n: Number)
    requires GoodNumber(n)
    ensures LastDigit(NumberText(n)) == |NumberText(n)|
  {
    CutWhole(Numeric(n), false);
    CutNumberText(n, NumberLength(n));
    assert NumberText(n)[..NumberLength(n)] == NumberText(n);
  }

  lemma StringCloses(c: Config, below: seq<State>)
    requires c.stack == below + [InsideString]
    ensures Run(c, "\"") == Fed(c, "\"").(stack := below, lastValidEnd := |c.seen| + 1)
  {
    RunOne(c, "\"");
    assert Pop(c.stack) == below;
  }

  lemma ReadString(c: Config, stack: seq<State>, items: seq<StringItem>)
    requires GoodItems(items) && c.stack == stack + [Top(c.stack)] && ExpectsValue(Top(c.stack))
    ensures var d := Run(c, Quoted(items));
      && d.stack == stack + [Swap(Top(c.stack))]
      && d.lastValidEnd == |d.seen|
      && d.pendingHigh == PendingItems(items, c.pendingHigh)
  {
    hide Step;
    var below := stack + [Swap(Top(c.stack))];
    RunCat3(c, "\"", ItemsText(items), "\"");
    StartValue(c, stack, Str(items));
    RunOne(c, "\"");
    var d := Run(c, "\"");
    assert d.stack == below + [InsideString];
    RunAllItems(d, below, items);
    StringCloses(Run(d, ItemsText(items)), below);
  }

  /** A value read completely where one may start. */
  lemma {:induction false} ReadValue(c: Config, stack: seq<State>, v: Json)
    requires Good(v) && c.stack == stack + [Top(c.stack)] && ExpectsValue(Top(c.stack))
    ensures var d := Run(c, Text(v));
      && d.seen == c.seen + Text(v)
      && Settled(d, stack + [Swap(Top(c.stack))], Scalar(v))
      && d.lastValidEnd == |d.seen|
      && d.pendingHigh == PendingValue(v, c.pendingHigh)
    decreases v, 1
  {
    hide Step;
    RunSeen(c, Text(v));
    var base := stack + [Swap(Top(c.stack))];
    match v
    case Literal(name) =>
      RunLiteral(c, stack, name);
      assert (c.seen + name)[|c.seen|..] == name;
      assert base + [InsideLiteral] == stack + [Swap(Top(c.stack)), InsideLiteral];
    case Numeric(n) =>
      NumberTextChars(n);
      RunNumber(c, stack, NumberText(n));
      NumberEndsInDigit(n);
      assert base + [InsideNumber] == stack + [Swap(Top(c.stack)), InsideNumber];
    case Str(items) => ReadString(c, stack, items);
    case Empty(kind, pad) => ReadBracket(c, stack, v);
    case Full(kind, pad, entries) => ReadBracket(c, stack, v);
  }

  lemma OpeningIs(v: Json)
    requires Good(v) && (v.Empty? || v.Full?)
    ensures Text(v) != "" && OpenText(v.kind) == [Text(v)[0]] && Text(v)[0] != '-' && IsWs(v.pad)
    ensures FirstState(v) == KindStart(v.kind)
  {
    TextStart(v);
  }

  /** The opening bracket and the whitespace after it. */
  lemma ReadOpening(c: Config, stack: seq<State>, v: Json, j: nat)
    requires Good(v) && (v.Empty? || v.Full?) && j <= |v.pad|
    requires c.stack == stack + [Top(c.stack)] && ExpectsValue(Top(c.stack))
    ensures var d := Run(Run(c, OpenText(v.kind)), v.pad[..j]);
      && d.seen == c.seen + (OpenText(v.kind) + v.pad[..j])
      && d.stack == stack + [Swap(Top(c.stack))] + [KindStart(v.kind)]
      && d.lastValidEnd == |c.seen| + 1 + |KeptPad(v.kind, v.pad[..j])|
      && d.pendingHigh == c.pendingHigh
  {
    OpeningIs(v);
    hide Run, Step, Text, Good, Swap, ExpectsValue;
    StartValue(c, stack, v);
    RunOne(c, OpenText(v.kind));
    var d := Run(c, OpenText(v.kind));
    assert d.stack == stack + [Swap(Top(c.stack))] + [KindStart(v.kind)];
    var pad := v.pad[..j];
    Cat2(c.seen, OpenText(v.kind), pad);
    if v.kind == Object {
      RunSkippedWs(d, pad);
    } else if j > 0 {
      RunKeptWs(d, pad);
    } else {
      assert d.seen + pad == d.seen;
    }
  }

  lemma OpeningCloses(c: Config, base: seq<State>, kind: Kind)
    requires c.stack == base + [KindStart(kind)]
    ensures Step(c, CloseText(kind)[0]) == Fed(c, CloseText(kind)).(stack := base, lastValidEnd := |c.seen| + 1)
  {
    assert Pop(c.stack) == base;
  }

  lemma ClosingStep(c: Config, base: seq<State>, kind: Kind, scalar: bool)
    requires Settled(c, base + [KindAfter(kind)], scalar) || c.stack == base + [KindStart(kind)]
    ensures var d := Run(c, CloseText(kind));
      d.stack == base && d.lastValidEnd == |c.seen| + 1 && d.pendingHigh == c.pendingHigh
  {
    hide Step;
    RunOne(c, CloseText(kind));
    if Settled(c, base + [KindAfter(kind)], scalar) {
      DelimiterStep(c, base + [KindAfter(kind)], scalar, CloseText(kind)[0]);
      assert Pop(base + [KindAfter(kind)]) == base;
    } else {
      OpeningCloses(c, base, kind);
    }
  }

  lemma {:induction false} ReadBracket(c: Config, stack: seq<State>, v: Json)
    requires Good(v) && (v.Empty? || v.Full?)
    requires c.stack == stack + [Top(c.stack)] && ExpectsValue(Top(c.stack))
    ensures var d := Run(c, Text(v));
      && d.stack == stack + [Swap(Top(c.stack))]
      && d.lastValidEnd == |d.seen|
      && d.pendingHigh == PendingValue(v, c.pendingHigh)
    decreases v, 0
  {
    var base := stack + [Swap(Top(c.stack))];
    ReadOpening(c, stack, v, |v.pad|);
    assert v.pad[..|v.pad|] == v.pad;
    var d := Run(Run(c, OpenText(v.kind)), v.pad);
    RunSeen(c, Text(v));
    if v.Empty? {
      RunCat3(c, OpenText(v.kind), v.pad, CloseText(v.kind));
      ClosingStep(d, base, v.kind, false);
    } else {
      RunCat3(c, OpenText(v.kind), v.pad, EntriesText(v.entries) + CloseText(v.kind));
      RunCat(d, EntriesText(v.entries), CloseText(v.kind));
      var scalar := ReadEntries(d, base, v.kind, v.entries);
      RunSeen(d, EntriesText(v.entries));
      ClosingStep(Run(d, EntriesText(v.entries)), base, v.kind, scalar);
    }
  }

  lemma ReadKey(c: Config, stack: seq<State>, kind: Kind, key: Key)
    requires GoodKey(kind, key)
    requires c.stack == stack + [KindStart(kind)] || c.stack == stack + [KindAfterComma(kind)]
    ensures var d := Run(c, KeyText(key));
      && d == Fed(c, KeyText(key)).(stack := d.stack)
      && d.stack == stack + [Top(d.stack)]
      && ExpectsValue(Top(d.stack)) && Swap(Top(d.stack)) == KindAfter(kind)
  {
    if kind == Object {
      RunKey(c, stack, key, |KeyText(key)|);
      assert KeyText(key)[..|KeyText(key)|] == KeyText(key);
    } else {
      assert c.seen + "" == c.seen;
    }
  }

  /** The first entry, with the whitespace after its value. */
  lemma {:induction false} ReadFirst(c: Config, stack: seq<State>, kind: Kind, es: Entries)
    requires GoodEntries(kind, es)
    requires c.stack == stack + [KindStart(kind)] || c.stack == stack + [KindAfterComma(kind)]
    ensures var d := Run(Run(Run(c, KeyText(es.key)), Text(es.value)), es.after);
      && d.seen == c.seen + (KeyText(es.key) + (Text(es.value) + es.after))
      && Settled(d, stack + [KindAfter(kind)], Scalar(es.value) && es.after == "")
      && d.pendingHigh == PendingValue(es.value, c.pendingHigh)
      && d.lastValidEnd == |c.seen| + |KeyText(es.key)| + |Text(es.value)| + |Kept(kind, es.value, es.after)|
    decreases es, 0
  {
    ReadKey(c, stack, kind, es.key);
    var d := Run(c, KeyText(es.key));
    ReadValue(d, stack, es.value);
    RunAfter(Run(d, Text(es.value)), stack, kind, es.value, es.after);
    Cat2(c.seen, KeyText(es.key), Text(es.value));
    Cat2(c.seen, KeyText(es.key) + Text(es.value), es.after);
    Cat2(KeyText(es.key), Text(es.value), es.after);
  }

  lemma ReadComma(c: Config, stack: seq<State>, kind: Kind, scalar: bool, before: string)
    requires Settled(c, stack + [KindAfter(kind)], scalar) && IsWs(before)
    ensures Run(Run(c, ","), before) == Fed(c, "," + before).(
      stack := stack + [KindAfterComma(kind)], literalStart := Run(Run(c, ","), before).literalStart,
      escapeDigits := Run(Run(c, ","), before).escapeDigits, escapeValue := Run(Run(c, ","), before).escapeValue)
  {
    var base := stack + [KindAfter(kind)];
    RunOne(c, ",");
    DelimiterStep(c, base, scalar, ',');
    assert Pop(base) == stack;
    RunSkippedWs(Step(c, ','), before);
    Cat2(c.seen, ",", before);
  }

  lemma {:induction false} ReadEntries(c: Config, stack: seq<State>, kind: Kind, es: Entries) returns (scalar: bool)
    requires GoodEntries(kind, es)
    requires c.stack == stack + [KindStart(kind)] || c.stack == stack + [KindAfterComma(kind)]
    ensures var d := Run(c, EntriesText(es));
      && Settled(d, stack + [KindAfter(kind)], scalar)
      && d.pendingHigh == PendingEntries(es, c.pendingHigh)
    decreases es, 1
  {
    ReadFirst(c, stack, kind, es);
    scalar := Scalar(es.value) && es.after == "";
    match es
    case Last(key, value, after) => RunCat3(c, KeyText(key), Text(value), after);
    case More(key, value, after, before, rest) =>
      var tail := before + EntriesText(rest);
      RunCat3(c, KeyText(key), Text(value), after + ("," + tail));
      var d := Run(Run(Run(c, KeyText(key)), Text(value)), after);
      RunCat(Run(Run(c, KeyText(key)), Text(value)), after, "," + tail);
      RunCat3(d, ",", before, EntriesText(rest));
      ReadComma(d, stack, kind, scalar, before);
      scalar := ReadEntries(Run(Run(d, ","), before), stack, kind, rest);
  }

  // ----- Values known in part

  /** What is kept of a value that started after `seen`. */
  function Known(seen: string, valid: nat, cut: Option<Json>): string
    requires valid <= |seen|
  {
    match cut
    case None => seen[..valid]
    case Some(v) => seen + Text(v)
  }

  function KnownEntries(seen: string, valid: nat, cut: Option<Entries>): string
    requires valid <= |seen|
  {
    match cut
    case None => seen[..valid]
    case Some(es) => seen + EntriesText(es)
  }

  lemma FinishSettled(c: Config, base: seq<State>, scalar: bool)
    requires Settled(c, base, scalar) && Below(base)
    ensures Finish(c) == c.seen[..c.lastValidEnd] + Closers(base, "")
  {
    var partial := c.seen[c.literalStart..];
    ClosersBelow(base, partial);
    if scalar {
      if Top(c.stack) == InsideLiteral {
        LiteralStart(partial, |partial|);
        assert partial[..|partial|] == partial;
      }
      FinishSilent(c, base, Top(c.stack));
    }
  }

  lemma FinishNumber(c: Config, stack: seq<State>, n: Number, k: nat)
    requires GoodNumber(n) && 0 < k <= |NumberText(n)|
    requires c.stack == stack + [Top(c.stack)] && ExpectsValue(Top(c.stack)) && Below(stack)
    ensures Finish(Run(c, NumberText(n)[..k]))
         == Known(c.seen, c.lastValidEnd, Cut(Numeric(n), k, c.pendingHigh)) + Closers(stack + [Swap(Top(c.stack))], "")
  {
    hide Run, Finish, Closers, Swap, ExpectsValue, Below;
    var s := NumberText(n)[..k];
    NumberTextChars(n);
    assert s[0] == NumberText(n)[0];
    FinishNumberText(c, stack, s);
    CutNumberText(n, k);
    var last := LastDigit(s);
    assert s[..last] == NumberText(n)[..last];
  }

  lemma KnownDigits(seen: string, s: string, before: nat)
    requires before <= |seen|
    ensures (seen + s)[..LastDigitEnd(s, |seen|, before)]
         == if LastDigit(s) == 0 then seen[..before] else seen + s[..LastDigit(s)]
  {
    TakeGrown(seen, s, LastDigit(s));
    TakeOld(seen, s, before);
  }

  lemma FinishNumberText(c: Config, stack: seq<State>, s: string)
    requires c.stack == stack + [Top(c.stack)] && ExpectsValue(Top(c.stack)) && Below(stack)
    requires IsNumberText(s) && s != "" && (s[0] == '-' || IsDigit(s[0]))
    ensures var last := LastDigit(s);
      Finish(Run(c, s)) == (if last == 0 then c.seen[..c.lastValidEnd] else c.seen + s[..last])
                         + Closers(stack + [Swap(Top(c.stack))], "")
  {
    hide Step, Run, Closers, Finish, LastDigit, LastDigitEnd;
    var base := stack + [Swap(Top(c.stack))];
    RunNumber(c, stack, s);
    var d := Run(c, s);
    assert d.stack == base + [InsideNumber];
    FinishSettled(d, base, true);
    KnownDigits(c.seen, s, c.lastValidEnd);
  }

  lemma FinishLiteral(c: Config, stack: seq<State>, name: string, k: nat)
    requires IsLiteral(name) && 0 < k <= |name|
    requires c.stack == stack + [Top(c.stack)] && ExpectsValue(Top(c.stack)) && Below(stack)
    ensures Finish(Run(c, name[..k])) == c.seen + name + Closers(stack + [Swap(Top(c.stack))], "")
  {
    hide Step;
    var base := stack + [Swap(Top(c.stack))];
    var s := name[..k];
    LiteralStart(name, k);
    RunLiteral(c, stack, s);
    var d := Run(c, s);
    assert d.stack == base + [InsideLiteral];
    assert d.seen[d.literalStart..] == s;
    FinishLiteralText(d, c.seen, base, s);
  }

  lemma FinishLiteralText(d: Config, seen: string, base: seq<State>, s: string)
    requires d.stack == base + [InsideLiteral] && d.seen[d.literalStart..] == s && Below(base)
    requires d.seen == seen + s && d.lastValidEnd == |d.seen|
    ensures Finish(d) == seen + (s + LiteralRest(s)) + Closers(base, "")
  {
    ClosersPush(base, InsideLiteral, s);
    ClosersBelow(base, s);
    assert d.seen[..d.lastValidEnd] == seen + s;
    Cat2(seen + s, LiteralRest(s), Closers(base, ""));
    Cat2(seen, s, LiteralRest(s));
  }

  lemma FinishInString(c: Config, below: seq<State>)
    requires InString(c.stack, below) && Below(below)
    ensures Finish(c) == c.seen[..c.lastValidEnd] + ("\"" + Closers(below, ""))
  {
    var partial := c.seen[c.literalStart..];
    ClosersPush(below, InsideString, partial);
    ClosersBelow(below, partial);
    if c.stack != below + [InsideString] {
      FinishSilent(c, below + [InsideString], Top(c.stack));
    }
  }

  lemma {:induction false} ItemsTextCat(a: seq<StringItem>, b: seq<StringItem>)
    ensures ItemsText(a + b) == ItemsText(a) + ItemsText(b)
  {
    if a == [] {
      assert a + b == b;
    } else {
      assert (a + b)[1..] == a[1..] + b;
      ItemsTextCat(a[1..], b);
      Cat2(ItemText(a[0]), ItemsText(a[1..]), ItemsText(b));
    }
  }

  lemma {:induction false} CommittedFits(items: seq<StringItem>, k: nat, pending: bool)
    ensures ItemsLength(items[..Committed(items, k, pending)]) <= k
  {
    var n := Committed(items, k, pending);
    if n > 0 {
      ItemsLengthTake(items, n);
      CommittedFits(items[1..], k - ItemLength(items[0]), PendingItem(items[0], pending));
    }
  }

  /** What the items leave of a string. */
  lemma FinishItems(c: Config, base: seq<State>, items: seq<StringItem>, k: nat)
    requires GoodItems(items) && k <= |ItemsText(items)| && Below(base)
    requires c.stack == base + [InsideString] && c.lastValidEnd == |c.seen|
    ensures Finish(Run(c, ItemsText(items)[..k]))
         == c.seen + ItemsText(items[..Committed(items, k, c.pendingHigh)]) + ("\"" + Closers(base, ""))
  {
    hide Step, Run, Finish, Closers;
    var text := ItemsText(items);
    var n := Committed(items, k, c.pendingHigh);
    var kept := ItemsText(items[..n]);
    RunItems(c, base, items, k);
    var e := Run(c, text[..k]);
    FinishInString(e, base);
    ItemsLengthIsLength(items[..n]);
    CommittedFits(items, k, c.pendingHigh);
    KeptItems(items, n, k);
    hide ItemsText, Committed, GoodItems;
    TakeGrown(c.seen, text[..k], |kept|);
  }

  lemma KeptItems(items: seq<StringItem>, n: nat, k: nat)
    requires n <= |items| && |ItemsText(items[..n])| <= k <= |ItemsText(items)|
    ensures ItemsText(items)[..k][..|ItemsText(items[..n])|] == ItemsText(items[..n])
  {
    assert items[..n] + items[n..] == items;
    ItemsTextCat(items[..n], items[n..]);
  }

  lemma QuoteCat(seen: string, kept: string, closers: string)
    ensures (seen + "\"" + kept) + ("\"" + closers) == seen + ("\"" + (kept + "\"")) + closers
  {
  }

  lemma FinishString(c: Config, stack: seq<State>, items: seq<StringItem>, k: nat)
    requires GoodItems(items) && 0 < k < |Quoted(items)|
    requires c.stack == stack + [Top(c.stack)] && ExpectsValue(Top(c.stack)) && Below(stack)
    ensures Finish(Run(c, Quoted(items)[..k]))
         == c.seen + Quoted(items[..Committed(items, k - 1, c.pendingHigh)]) + Closers(stack + [Swap(Top(c.stack))], "")
  {
    hide Step;
    var base := stack + [Swap(Top(c.stack))];
    var text := ItemsText(items);
    TakeCat("\"", text + "\"", k);
    TakeCat(text, "\"", k - 1);
    RunCat(c, "\"", text[..k - 1]);
    StartValue(c, stack, Str(items));
    RunOne(c, "\"");
    var d := Run(c, "\"");
    assert d.stack == base + [InsideString];
    FinishItems(d, base, items, k - 1);
    QuoteCat(c.seen, ItemsText(items[..Committed(items, k - 1, c.pendingHigh)]), Closers(base, ""));
  }

  lemma SettledBelow(stack: seq<State>, state: State)
    requires Below(stack) && IsAfter(state)
    ensures Below(stack + [state])
  {
  }

  /** Closing after the first `k` characters of a value. */
  lemma {:induction false} FinishValue(c: Config, stack: seq<State>, v: Json, k: nat)
    requires Good(v) && 0 < k <= Length(v)
    requires c.stack == stack + [Top(c.stack)] && ExpectsValue(Top(c.stack)) && Below(stack)
    ensures k <= |Text(v)|
    ensures Finish(Run(c, Text(v)[..k]))
         == Known(c.seen, c.lastValidEnd, Cut(v, k, c.pendingHigh)) + Closers(stack + [Swap(Top(c.stack))], "")
    decreases v, 1
  {
    hide Step, Run, Closers, Finish;
    LengthIsLength(v);
    match v
    case Literal(name) => FinishLiteral(c, stack, name, k);
    case Numeric(n) => FinishNumber(c, stack, n, k);
    case Str(items) =>
      if k < Length(v) {
        FinishString(c, stack, items, k);
      } else {
        FinishWhole(c, stack, v);
      }
    case Empty(_, _) =>
      if k < Length(v) {
        FinishBracket(c, stack, v, k);
      } else {
        FinishWhole(c, stack, v);
      }
    case Full(_, _, _) =>
      if k < Length(v) {
        FinishBracket(c, stack, v, k);
      } else {
        FinishWhole(c, stack, v);
      }
  }

  lemma FinishWhole(c: Config, stack: seq<State>, v: Json)
    requires Good(v) && c.stack == stack + [Top(c.stack)] && ExpectsValue(Top(c.stack)) && Below(stack)
    ensures |Text(v)| == Length(v) && Text(v)[..Length(v)] == Text(v)
    ensures Finish(Run(c, Text(v))) == c.seen + Text(v) + Closers(stack + [Swap(Top(c.stack))], "")
  {
    hide Step, Run, Closers, Finish;
    LengthIsLength(v);
    ReadValue(c, stack, v);
    var d := Run(c, Text(v));
    SettledBelow(stack, Swap(Top(c.stack)));
    FinishSettled(d, stack + [Swap(Top(c.stack))], Scalar(v));
    assert d.seen[..d.lastValidEnd] == d.seen;
  }

  lemma BracketCat(seen: string, open: string, inner: string, close: string, closers: string)
    ensures (seen + (open + inner)) + (close + closers) == (seen + (open + (inner + close))) + closers
  {
  }

  lemma FinishStart(c: Config, base: seq<State>, seen: string, kind: Kind, pad: string)
    requires c.stack == base + [KindStart(kind)] && Below(base) && c.lastValidEnd <= |c.seen|
    requires c.seen[..c.lastValidEnd] == seen + (OpenText(kind) + KeptPad(kind, pad))
    ensures Finish(c) == seen + Text(Empty(kind, KeptPad(kind, pad))) + Closers(base, "")
  {
    ClosersPush(base, KindStart(kind), c.seen[c.literalStart..]);
    ClosersBelow(base, c.seen[c.literalStart..]);
    BracketCat(seen, OpenText(kind), KeptPad(kind, pad), CloseText(kind), Closers(base, ""));
  }

  lemma FinishOpening(c: Config, stack: seq<State>, v: Json, k: nat)
    requires Good(v) && (v.Empty? || v.Full?) && 0 < k <= 1 + |v.pad| && k < Length(v) == |Text(v)|
    requires c.stack == stack + [Top(c.stack)] && ExpectsValue(Top(c.stack)) && Below(stack)
    ensures Finish(Run(c, Text(v)[..k]))
         == c.seen + Text(Empty(v.kind, KeptPad(v.kind, v.pad[..k - 1]))) + Closers(stack + [Swap(Top(c.stack))], "")
  {
    hide Step, Run, Closers, Finish;
    var base := stack + [Swap(Top(c.stack))];
    var pad := v.pad[..k - 1];
    assert Text(v)[..k] == OpenText(v.kind) + pad;
    RunCat(c, OpenText(v.kind), pad);
    ReadOpening(c, stack, v, k - 1);
    var d := Run(c, Text(v)[..k]);
    SettledBelow(stack, Swap(Top(c.stack)));
    assert d.seen[..d.lastValidEnd] == c.seen + (OpenText(v.kind) + KeptPad(v.kind, pad));
    FinishStart(d, base, c.seen, v.kind, pad);
  }

  /** Closing inside brackets, before the closing one. */
  lemma {:induction false} FinishBracket(c: Config, stack: seq<State>, v: Json, k: nat)
    requires Good(v) && (v.Empty? || v.Full?) && 0 < k < Length(v) == |Text(v)|
    requires c.stack == stack + [Top(c.stack)] && ExpectsValue(Top(c.stack)) && Below(stack)
    ensures Finish(Run(c, Text(v)[..k]))
         == Known(c.seen, c.lastValidEnd, Cut(v, k, c.pendingHigh)) + Closers(stack + [Swap(Top(c.stack))], "")
    decreases v, 0
  {
    hide Step, Run, Closers, Finish;
    if k <= 1 + |v.pad| {
      FinishOpening(c, stack, v, k);
    } else {
      FinishInside(c, stack, v, k);
    }
  }

  lemma {:induction false} FinishInside(c: Config, stack: seq<State>, v: Json, k: nat)
    requires Good(v) && v.Full? && 1 + |v.pad| < k < Length(v) == |Text(v)|
    requires c.stack == stack + [Top(c.stack)] && ExpectsValue(Top(c.stack)) && Below(stack)
    ensures Finish(Run(c, Text(v)[..k]))
         == Known(c.seen, c.lastValidEnd, Cut(v, k, c.pendingHigh)) + Closers(stack + [Swap(Top(c.stack))], "")
    decreases v.entries, 3
  {
    hide Step, Run, Closers, Finish, EntriesText, KeptPad;
    var base := stack + [Swap(Top(c.stack))];
    var open, text, j := OpenText(v.kind), EntriesText(v.entries), k - 1 - |v.pad|;
    EntriesLengthIsLength(v.entries);
    TakeBracket(open, v.pad, text, CloseText(v.kind), k);
    RunCat3(c, open, v.pad, text[..j]);
    ReadOpening(c, stack, v, |v.pad|);
    assert v.pad[..|v.pad|] == v.pad;
    var d := Run(Run(c, open), v.pad);
    SettledBelow(stack, Swap(Top(c.stack)));
    FinishEntries(d, base, v.kind, v.entries, j);
    CloseAfterEntries(c.seen, d, base, v, CutEntries(v.kind, v.entries, j, c.pendingHigh));
  }

  lemma TakeBracket(open: string, pad: string, text: string, close: string, k: nat)
    requires |open| == 1 && 1 + |pad| < k <= 1 + |pad| + |text|
    ensures (open + (pad + (text + close)))[..k] == open + (pad + text[..k - 1 - |pad|])
  {
    TakeCat(open, pad + (text + close), k);
    TakeCat(pad, text + close, k - 1);
    TakeCat(text, close, k - 1 - |pad|);
  }

  lemma EmptyKept(seen: string, kind: Kind, pad: string, valid: nat)
    requires valid == |seen| + 1 + |KeptPad(kind, pad)|
    ensures valid <= |seen + (OpenText(kind) + pad)|
    ensures (seen + (OpenText(kind) + pad))[..valid] == seen + (OpenText(kind) + KeptPad(kind, pad))
  {
    var kept := KeptPad(kind, pad);
    TakeGrown(seen, OpenText(kind) + pad, 1 + |kept|);
    TakeCat(OpenText(kind), pad, 1 + |kept|);
    assert pad[..|kept|] == kept;
  }

  lemma CloseAfterEntries(seen: string, d: Config, base: seq<State>, v: Json, cut: Option<Entries>)
    requires v.Full? && d.seen == seen + (OpenText(v.kind) + v.pad)
    requires d.lastValidEnd == |seen| + 1 + |KeptPad(v.kind, v.pad)|
    ensures KnownEntries(d.seen, d.lastValidEnd, cut) + Closers(base + [KindAfter(v.kind)], "")
         == (match cut
             case None => seen + Text(Empty(v.kind, KeptPad(v.kind, v.pad)))
             case Some(es) => seen + Text(Full(v.kind, v.pad, es)))
          + Closers(base, "")
  {
    ClosersPush(base, KindAfter(v.kind), "");
    hide Closers, EntriesText;
    var closers := Closers(base, "");
    match cut
    case None =>
      EmptyKept(seen, v.kind, v.pad, d.lastValidEnd);
      BracketCat(seen, OpenText(v.kind), KeptPad(v.kind, v.pad), CloseText(v.kind), closers);
    case Some(es) => FullCat(seen, OpenText(v.kind), v.pad, EntriesText(es), CloseText(v.kind), closers);
  }

  lemma FullCat(seen: string, open: string, pad: string, text: string, close: string, closers: string)
    ensures (seen + (open + pad) + text) + (close + closers) == (seen + (open + (pad + (text + close)))) + closers
  {
    Cat2(open, pad, text + close);
    Cat2(seen + (open + pad), text, close + closers);
    Cat2(text, close, closers);
    Cat2(seen, open + pad, (text + close) + closers);
    Cat2(open + pad, text + close, closers);
    Cat2(seen, open + (pad + (text + close)), closers);
  }

  // ----- Entries known in part

  /** Closing after the first `k` characters of a list of entries. */
  lemma {:induction false} FinishEntries(c: Config, stack: seq<State>, kind: Kind, es: Entries, k: nat)
    requires GoodEntries(kind, es) && 0 < k <= EntriesLength(es) && Below(stack)
    requires c.stack == stack + [KindStart(kind)] || c.stack == stack + [KindAfterComma(kind)]
    ensures k <= |EntriesText(es)|
    ensures Finish(Run(c, EntriesText(es)[..k]))
         == KnownEntries(c.seen, c.lastValidEnd, CutEntries(kind, es, k, c.pendingHigh))
          + Closers(stack + [KindAfter(kind)], "")
    decreases es, 2
  {
    hide Step, Run, Closers, Finish, EntriesText, KeyText, Text, Top;
    EntriesLengthIsLength(es);
    KeyLengthIsLength(es.key);
    LengthIsLength(es.value);
    var start := |KeyText(es.key)|;
    var end := start + |Text(es.value)|;
    if k <= start {
      FinishKey(c, stack, kind, es, k);
    } else if k <= end {
      FinishFirst(c, stack, kind, es, k);
    } else {
      FinishAfterValue(c, stack, kind, es, k - end);
    }
  }

  lemma FinishKey(c: Config, stack: seq<State>, kind: Kind, es: Entries, k: nat)
    requires GoodEntries(kind, es) && 0 < k <= |KeyText(es.key)| && k <= |EntriesText(es)| && Below(stack)
    requires c.stack == stack + [KindStart(kind)] || c.stack == stack + [KindAfterComma(kind)]
    ensures Finish(Run(c, EntriesText(es)[..k])) == c.seen[..c.lastValidEnd] + Closers(stack + [KindAfter(kind)], "")
  {
    hide Step, Run, Closers, Finish;
    EntriesSplit(es, "");
    assert EntriesText(es) + "" == EntriesText(es);
    TakeCat(KeyText(es.key), Text(es.value) + (es.after + Following(es, "")), k);
    RunKey(c, stack, es.key, k);
    var d := Run(c, KeyText(es.key)[..k]);
    FinishHead(d, stack);
    TakeOld(c.seen, KeyText(es.key)[..k], c.lastValidEnd);
  }

  lemma FirstKey(kind: Kind, es: Entries)
    requires GoodEntries(kind, es)
    ensures GoodKey(kind, es.key) && Good(es.value)
  {
  }

  lemma FedIs(c: Config, s: string)
    ensures Fed(c, s).seen == c.seen + s && Fed(c, s).lastValidEnd == c.lastValidEnd
    ensures Fed(c, s).pendingHigh == c.pendingHigh
  {
  }

  lemma {:induction false} FinishFirst(c: Config, stack: seq<State>, kind: Kind, es: Entries, k: nat)
    requires GoodEntries(kind, es) && Below(stack)
    requires KeyLength(es.key) == |KeyText(es.key)| && Length(es.value) == |Text(es.value)|
    requires |KeyText(es.key)| < k <= |KeyText(es.key)| + |Text(es.value)| &&
      k <= EntriesLength(es) == |EntriesText(es)|
    requires c.stack == stack + [KindStart(kind)] || c.stack == stack + [KindAfterComma(kind)]
    ensures Finish(Run(c, EntriesText(es)[..k]))
         == KnownEntries(c.seen, c.lastValidEnd, CutEntries(kind, es, k, c.pendingHigh))
          + Closers(stack + [KindAfter(kind)], "")
    decreases es, 1
  {
    hide *;
    FirstKey(kind, es);
    CutEntriesCases(kind, es, k, c.pendingHigh);
    var key, v, j := KeyText(es.key), Text(es.value), k - |KeyText(es.key)|;
    TakeValue(es, k);
    RunCat(c, key, v[..j]);
    ReadKey(c, stack, kind, es.key);
    var d := Run(c, key);
    FedIs(c, key);
    FinishValue(d, stack, es.value, j);
    TakeOld(c.seen, key, c.lastValidEnd);
    KnownFirst(c.seen, c.lastValidEnd, es.key, Cut(es.value, j, c.pendingHigh));
  }

  lemma TakeValue(es: Entries, k: nat)
    requires |KeyText(es.key)| < k <= |KeyText(es.key)| + |Text(es.value)| && k <= |EntriesText(es)|
    ensures EntriesText(es)[..k] == KeyText(es.key) + Text(es.value)[..k - |KeyText(es.key)|]
  {
    var key, v := KeyText(es.key), Text(es.value);
    EntriesSplit(es, "");
    assert EntriesText(es) + "" == EntriesText(es);
    TakeCat(key, v + (es.after + Following(es, "")), k);
    TakeCat(v, es.after + Following(es, ""), k - |key|);
  }

  /** The first entry's key and what is known of its value. */
  lemma KnownFirst(seen: string, valid: nat, key: Key, cut: Option<Json>)
    requires valid <= |seen|
    ensures Known(seen + KeyText(key), valid, cut)
         == KnownEntries(seen, valid, match cut case None => None case Some(w) => Some(Last(key, w, "")))
  {
    TakeOld(seen, KeyText(key), valid);
    if cut.Some? {
      Cat2(seen, KeyText(key), Text(cut.value));
      assert Text(cut.value) + "" == Text(cut.value);
    }
  }

  lemma FinishAfterComma(c: Config, stack: seq<State>, kind: Kind)
    requires c.stack == stack + [KindAfterComma(kind)] && Below(stack)
    ensures Finish(c) == c.seen[..c.lastValidEnd] + Closers(stack + [KindAfter(kind)], "")
  {
    FinishPending(c, stack, KindAfterComma(kind), KindAfter(kind));
  }

  /** The first entry together with the whitespace kept after its value. */
  function FirstText(kind: Kind, es: Entries, after: string): string {
    EntriesText(Last(es.key, es.value, Kept(kind, es.value, after)))
  }

  lemma FirstKept(seen: string, kind: Kind, es: Entries, after: string, more: string)
    ensures var key, v := KeyText(es.key), Text(es.value); var text := key + (v + after);
      (seen + text + more)[..|seen| + |key| + |v| + |Kept(kind, es.value, after)|] == seen + FirstText(kind, es, after)
  {
    var key, v, kept := KeyText(es.key), Text(es.value), Kept(kind, es.value, after);
    Cat2(seen, key + (v + after), more);
    Cat3(key, v, after, more);
    TakeGrown(seen, key + (v + (after + more)), |key| + |v| + |kept|);
    TakeCat(key, v + (after + more), |key| + |v| + |kept|);
    TakeCat(v, after + more, |v| + |kept|);
    TakeCat(after, more, |kept|);
    assert after[..|kept|] == kept;
  }

  lemma {:induction false} FinishAfterValue(c: Config, stack: seq<State>, kind: Kind, es: Entries, k: nat)
    requires GoodEntries(kind, es) && Below(stack)
    requires KeyLength(es.key) == |KeyText(es.key)| && Length(es.value) == |Text(es.value)|
    requires EntriesLength(es) == |EntriesText(es)|
    requires 0 < k <= EntriesLength(es) - KeyLength(es.key) - Length(es.value)
    requires c.stack == stack + [KindStart(kind)] || c.stack == stack + [KindAfterComma(kind)]
    ensures Finish(Run(c, EntriesText(es)[..|KeyText(es.key)| + |Text(es.value)| + k]))
         == c.seen + EntriesText(CutAfterValue(kind, es, k, c.pendingHigh)) + Closers(stack + [KindAfter(kind)], "")
    decreases es, 1
  {
    hide Step, Run, Closers, Finish;
    if k <= |es.after| {
      FinishWithin(c, stack, kind, es, k);
    } else {
      FinishMore(c, stack, kind, es, k);
    }
  }

  lemma TakeFirst(es: Entries, k: nat)
    requires k <= |EntriesText(es)| - |KeyText(es.key)| - |Text(es.value)|
    ensures k <= |es.after + Following(es, "")|
    ensures EntriesText(es)[..|KeyText(es.key)| + |Text(es.value)| + k]
         == KeyText(es.key) + (Text(es.value) + (es.after + Following(es, ""))[..k])
  {
    var key, v, tail := KeyText(es.key), Text(es.value), es.after + Following(es, "");
    EntriesSplit(es, "");
    assert EntriesText(es) + "" == EntriesText(es);
    TakeCat(key, v + tail, |key| + |v| + k);
    TakeCat(v, tail, |v| + k);
  }

  lemma LastGood(kind: Kind, es: Entries, k: nat)
    requires GoodEntries(kind, es) && k <= |es.after|
    ensures GoodEntries(kind, Last(es.key, es.value, es.after[..k]))
  {
    hide Good, GoodKey;
  }

  lemma AfterIs(kind: Kind)
    ensures IsAfter(KindAfter(kind))
  {
  }

  lemma NoMore(s: string)
    ensures s + "" == s
  {
  }

  lemma FinishWithin(c: Config, stack: seq<State>, kind: Kind, es: Entries, k: nat)
    requires GoodEntries(kind, es) && Below(stack) && k <= |es.after|
    requires k <= |EntriesText(es)| - |KeyText(es.key)| - |Text(es.value)|
    requires c.stack == stack + [KindStart(kind)] || c.stack == stack + [KindAfterComma(kind)]
    ensures Finish(Run(c, EntriesText(es)[..|KeyText(es.key)| + |Text(es.value)| + k]))
         == c.seen + FirstText(kind, es, es.after[..k]) + Closers(stack + [KindAfter(kind)], "")
  {
    hide *;
    LastGood(kind, es, k);
    AfterIs(kind);
    var after := es.after[..k];
    TakeFirst(es, k);
    TakeCat(es.after, Following(es, ""), k);
    RunCat3(c, KeyText(es.key), Text(es.value), after);
    ReadFirst(c, stack, kind, Last(es.key, es.value, after));
    var d := Run(Run(Run(c, KeyText(es.key)), Text(es.value)), after);
    SettledBelow(stack, KindAfter(kind));
    FinishSettled(d, stack + [KindAfter(kind)], Scalar(es.value) && after == "");
    FirstKept(c.seen, kind, es, after, "");
    NoMore(d.seen);
  }

  lemma FinishComma(c: Config, stack: seq<State>, kind: Kind, es: Entries, before: string)
    requires GoodEntries(kind, es) && Below(stack) && IsWs(before)
    requires c.stack == stack + [KindStart(kind)] || c.stack == stack + [KindAfterComma(kind)]
    ensures var d := Run(Run(Run(Run(Run(c, KeyText(es.key)), Text(es.value)), es.after), ","), before);
      && d.stack == stack + [KindAfterComma(kind)]
      && d.pendingHigh == PendingValue(es.value, c.pendingHigh)
      && d.seen == c.seen + (KeyText(es.key) + (Text(es.value) + es.after)) + ("," + before)
      && d.seen[..d.lastValidEnd] == c.seen + FirstText(kind, es, es.after)
  {
    hide Step, Run, Closers, Finish, EntriesText;
    ReadFirst(c, stack, kind, es);
    var d := Run(Run(Run(c, KeyText(es.key)), Text(es.value)), es.after);
    ReadComma(d, stack, kind, Scalar(es.value) && es.after == "", before);
    FirstKept(c.seen, kind, es, es.after, "," + before);
  }

  /** Beyond the comma that follows the first entry. */
  lemma {:induction false} FinishMore(c: Config, stack: seq<State>, kind: Kind, es: Entries, k: nat)
    requires GoodEntries(kind, es) && Below(stack)
    requires EntriesLength(es) == |EntriesText(es)|
    requires KeyLength(es.key) == |KeyText(es.key)| && Length(es.value) == |Text(es.value)|
    requires |es.after| < k <= EntriesLength(es) - KeyLength(es.key) - Length(es.value)
    requires c.stack == stack + [KindStart(kind)] || c.stack == stack + [KindAfterComma(kind)]
    ensures Finish(Run(c, EntriesText(es)[..|KeyText(es.key)| + |Text(es.value)| + k]))
         == c.seen + EntriesText(CutAfterValue(kind, es, k, c.pendingHigh)) + Closers(stack + [KindAfter(kind)], "")
    decreases es, 0
  {
    hide Step, Run, Closers, Finish, Text, KeyText, PendingValue, Length, KeyLength, Below;
    var key, v, after, before := KeyText(es.key), Text(es.value), es.after, es.before;
    var j := k - |after| - 1;
    EntriesLengthIsLength(es.rest);
    TakeFirst(es, k);
    TakeComma(es, k);
    if j <= |before| {
      RunComma(c, key, v, after, before[..j], "");
      FinishComma(c, stack, kind, es, before[..j]);
      FinishAfterComma(Run(Run(Run(Run(Run(c, key), v), after), ","), before[..j]), stack, kind);
    } else {
      FinishRest(c, stack, kind, es, j - |before|);
    }
  }

  lemma {:induction false} FinishRest(c: Config, stack: seq<State>, kind: Kind, es: Entries, j: nat)
    requires GoodEntries(kind, es) && Below(stack) && es.More?
    requires 0 < j <= EntriesLength(es.rest) == |EntriesText(es.rest)|
    requires c.stack == stack + [KindStart(kind)] || c.stack == stack + [KindAfterComma(kind)]
    ensures
      Finish(Run(c, KeyText(es.key) + (Text(es.value) + (es.after + ("," + (es.before + EntriesText(es.rest)[..j]))))))
         == c.seen + EntriesText(CutAfterValue(kind, es, |es.after| + 1 + |es.before| + j, c.pendingHigh))
          + Closers(stack + [KindAfter(kind)], "")
    decreases es.rest, 3
  {
    hide Step, Run, Closers, Finish, Text, KeyText;
    var key, v, after, before := KeyText(es.key), Text(es.value), es.after, es.before;
    RunComma(c, key, v, after, before, EntriesText(es.rest)[..j]);
    FinishComma(c, stack, kind, es, before);
    var e := Run(Run(Run(Run(Run(c, key), v), after), ","), before);
    FinishEntries(e, stack, kind, es.rest, j);
    match CutEntries(kind, es.rest, j, PendingValue(es.value, c.pendingHigh))
    case None =>
    case Some(r) => MoreCat(c.seen, key, v, after, before, EntriesText(r));
  }

  lemma MoreCat(seen: string, key: string, v: string, after: string, before: string, rest: string)
    ensures seen + (key + (v + after)) + ("," + before) + rest
         == seen + (key + (v + (after + ("," + (before + rest)))))
  {
    Cat2(",", before, rest);
    Cat2(seen + (key + (v + after)), "," + before, rest);
    Cat2(seen, key + (v + after), "," + (before + rest));
    Cat3(key, v, after, "," + (before + rest));
  }

  lemma TakeComma(es: Entries, k: nat)
    requires es.More? && |es.after| < k <= |es.after + Following(es, "")|
    ensures var j := k - |es.after| - 1;
      (es.after + Following(es, ""))[..k]
      == es.after + ("," + (if j <= |es.before| then es.before[..j]
                            else es.before + EntriesText(es.rest)[..j - |es.before|]))
  {
    var rest := EntriesText(es.rest);
    assert rest + "" == rest;
    TakeCat(es.after, Following(es, ""), k);
    TakeCat(",", es.before + rest, k - |es.after|);
    TakeCat(es.before, rest, k - |es.after| - 1);
  }

  lemma RunComma(c: Config, key: string, v: string, after: string, before: string, rest: string)
    ensures Run(c, key + (v + (after + ("," + (before + rest)))))
         == Run(Run(Run(Run(Run(Run(c, key), v), after), ","), before), rest)
    ensures Run(c, key + (v + (after + ("," + before))))
         == Run(Run(Run(Run(Run(c, key), v), after), ","), before)
  {
    hide Step;
    var d := Run(Run(c, key), v);
    RunCat3(c, key, v, after + ("," + (before + rest)));
    RunCat3(c, key, v, after + ("," + before));
    RunCat(d, after, "," + (before + rest));
    RunCat3(d, after, ",", before);
    RunCat3(Run(d, after), ",", before, rest);
  }
}

/** What the repair machine promises: on prefixes of JSON documents it returns the text of
    the cut document, and on any input it returns a prefix of the input plus closers. */
module RepairTheorems {
  import opened Options
  import opened Sequences
  import opened JsonGrammar
  import opened Truncation
  import opened PartialJson
  import opened RepairProofs

  function CutText(d: Document, k: nat): string
    requires GoodDocument(d) && k <= DocumentLength(d)
  {
    match CutDocument(d, k)
    case None => ""
    case Some(e) => DocumentText(e)
  }

  lemma DocumentLengthIsLength(d: Document)
    ensures DocumentLength(d) == |DocumentText(d)|
  {
    LengthIsLength(d.value);
  }

  lemma RunFinished(c: Config, s: string)
    requires c.stack == [Finished]
    ensures Run(c, s) == Fed(c, s)
    decreases |s|
  {
    if s == "" {
      assert c.seen + "" == c.seen;
    } else {
      RunFinished(Step(c, s[0]), s[1..]);
      assert c.seen + s == c.seen + [s[0]] + s[1..];
    }
  }

  lemma RepairedLead(lead: string)
    requires IsWs(lead)
    ensures Run(INITIAL, lead) == Fed(INITIAL, lead)
    ensures Finish(Run(INITIAL, lead)) == ""
  {
    RunSkippedWs(INITIAL, lead);
    var d := Fed(INITIAL, lead);
    ClosersPush([], Root, d.seen[d.literalStart..]);
    assert [] + [Root] == [Root];
  }

  lemma RepairValue(d: Document, j: nat)
    requires GoodDocument(d) && 0 < j <= Length(d.value) == |Text(d.value)|
    ensures Repaired(d.lead + Text(d.value)[..j]) == CutText(d, |d.lead| + j)
  {
    hide Step, Run, Closers, Finish;
    RunCat(INITIAL, d.lead, Text(d.value)[..j]);
    RepairedLead(d.lead);
    var c := Run(INITIAL, d.lead);
    assert c.seen == d.lead;
    assert c.stack == [] + [Root] && [] + [Finished] == [Finished];
    FinishValue(c, [], d.value, j);
    ClosersFinished();
    match Cut(d.value, j, false)
    case None => assert d.lead[..0] == "";
    case Some(v) => assert Text(v) + "" == Text(v);
  }

  lemma ClosersFinished()
    ensures Closers([Finished], "") == ""
  {
    ClosersPush([], Finished, "");
    assert [] + [Finished] == [Finished];
  }

  lemma CutAtEnd(d: Document, k: nat)
    requires GoodDocument(d) && |d.lead| + Length(d.value) <= k <= DocumentLength(d)
    ensures CutText(d, k) == d.lead + Text(d.value)
  {
    hide Text;
    CutWhole(d.value, false);
    assert Text(d.value) + "" == Text(d.value);
  }

  lemma RepairTrail(d: Document, trail: string)
    requires GoodDocument(d) && IsWs(trail)
    ensures Repaired(d.lead + (Text(d.value) + trail)) == d.lead + Text(d.value)
  {
    hide Step, Run, Closers, Finish;
    RunCat3(INITIAL, d.lead, Text(d.value), trail);
    RepairedLead(d.lead);
    var c := Run(INITIAL, d.lead);
    assert c.seen == d.lead;
    assert c.stack == [] + [Root] && [] + [Finished] == [Finished];
    ReadValue(c, [], d.value);
    RunTrail(Run(c, Text(d.value)), Scalar(d.value), trail);
  }

  lemma RunTrail(c: Config, scalar: bool, trail: string)
    requires Settled(c, [Finished], scalar) && c.lastValidEnd == |c.seen| && IsWs(trail)
    ensures Finish(Run(c, trail)) == c.seen
  {
    ClosersFinished();
    if trail == "" {
      FinishSettled(c, [Finished], scalar);
    } else {
      DelimiterStep(c, [Finished], scalar, trail[0]);
      var d := Step(c, trail[0]);
      RunFinished(d, trail[1..]);
      FinishSettled(Fed(d, trail[1..]), [Finished], false);
    }
  }

  /** On the first `k` characters of a document the machine returns the cut document. */
  lemma RepairCuts(d: Document, k: nat)
    requires GoodDocument(d) && k <= |DocumentText(d)|
    ensures DocumentLength(d) == |DocumentText(d)|
    ensures Repaired(DocumentText(d)[..k]) == CutText(d, k)
  {
    hide Step, Run, Closers, Finish, Text, Repaired;
    DocumentLengthIsLength(d);
    LengthIsLength(d.value);
    TakeCat(d.lead, Text(d.value) + d.trail, k);
    if k <= |d.lead| {
      RepairedLead(d.lead[..k]);
      assert Repaired(d.lead[..k]) == "" by { RepairedIsFinish(d.lead[..k]); }
    } else {
      var j := k - |d.lead|;
      TakeCat(Text(d.value), d.trail, j);
      if j <= Length(d.value) {
        RepairValue(d, j);
      } else {
        CutAtEnd(d, k);
        RepairTrail(d, d.trail[..j - Length(d.value)]);
      }
    }
  }

  lemma RepairedIsFinish(s: string)
    ensures Repaired(s) == Finish(Run(INITIAL, s))
  {
  }

  // ----- Every prefix of a document repairs to a JSON text, once it has a value

  /** Nothing but whitespace so far, or whitespace and a lone minus sign. */
  predicate NothingYet(p: string) {
    IsWs(p) || (p != "" && IsWs(p[..|p| - 1]) && p[|p| - 1] == '-')
  }

  lemma CutVanishes(d: Document, k: nat)
    requires GoodDocument(d) && k <= DocumentLength(d) == |DocumentText(d)|
    ensures CutDocument(d, k).None? <==> NothingYet(DocumentText(d)[..k])
    ensures CutDocument(d, k).Some? ==> GoodDocument(CutDocument(d, k).value)
  {
    hide Text, Cut, Good, NothingYet;
    if k <= |d.lead| {
      LeadIsNothing(d, k);
    } else {
      LengthIsLength(d.value);
      LengthPositive(d.value);
      var end := if k <= |d.lead| + Length(d.value) then k - |d.lead| else Length(d.value);
      CutGood(d.value, end, false);
      VanishesOnMinus(d, k, end);
      if d.value.Numeric? {
        NumericText(d.value);
      }
    }
  }

  lemma NumericText(v: Json)
    requires v.Numeric?
    ensures Text(v) == NumberText(v.number)
  {
  }

  lemma LeadIsNothing(d: Document, k: nat)
    requires GoodDocument(d) && k <= |d.lead|
    ensures k <= |DocumentText(d)| && NothingYet(DocumentText(d)[..k])
  {
    TakeCat(d.lead, Text(d.value) + d.trail, k);
  }

  lemma NothingBefore(lead: string, rest: string)
    requires IsWs(lead) && rest != "" && !IsWsChar(rest[0])
    ensures NothingYet(lead + rest) <==> rest == "-"
  {
    var p := lead + rest;
    assert p[|lead|] == rest[0];
    if rest == "-" {
      assert p[..|p| - 1] == lead;
    }
  }

  lemma VanishesOnMinus(d: Document, k: nat, end: nat)
    requires GoodDocument(d) && |d.lead| < k <= |DocumentText(d)| && Length(d.value) == |Text(d.value)|
    requires end == if k <= |d.lead| + Length(d.value) then k - |d.lead| else Length(d.value)
    requires end <= |Text(d.value)|
    ensures NothingYet(DocumentText(d)[..k]) <==> d.value.Numeric? && Text(d.value)[..end] == "-"
  {
    hide Text, NothingYet, IsWs, GoodNumber;
    var text, n := Text(d.value), k - |d.lead|;
    TakeCat(d.lead, text + d.trail, k);
    TakeCat(text, d.trail, n);
    TextStart(d.value);
    var rest := (text + d.trail)[..n];
    assert rest[0] == text[0];
    NothingBefore(d.lead, rest);
    if d.value.Numeric? {
      NumberIsNoMinus(d.value.number);
      NumericText(d.value);
    }
  }

  lemma NumberIsNoMinus(n: Number)
    requires GoodNumber(n)
    ensures NumberText(n) != "-"
  {
    assert NumberText(n)[|MinusText(n.minus)|] == n.integer[0];
  }

  /** Every prefix of a JSON document repairs to a JSON text, except a prefix that holds no
      value yet, which repairs to nothing. */
  lemma RepairIsJson(d: Document, k: nat)
    requires GoodDocument(d) && k <= |DocumentText(d)|
    ensures IsJsonText(Repaired(DocumentText(d)[..k])) <==> !NothingYet(DocumentText(d)[..k])
    ensures NothingYet(DocumentText(d)[..k]) ==> Repaired(DocumentText(d)[..k]) == ""
  {
    hide Repaired;
    RepairCuts(d, k);
    CutVanishes(d, k);
    EmptyIsNoText();
  }

  lemma EmptyIsNoText()
    ensures !IsJsonText("")
  {
    if e: Document :| GoodDocument(e) && DocumentText(e) == "" {
      TextStart(e.value);
    }
  }

  /** Repair never splits a surrogate pair. */
  lemma RepairKeepsPairs(d: Document, k: nat, e: Document)
    requires GoodDocument(d) && k <= |DocumentText(d)| && PairedValue(d.value)
    requires GoodDocument(e) && DocumentText(e) == Repaired(DocumentText(d)[..k])
    ensures PairedValue(e.value)
  {
    hide Repaired;
    CutOf(d, k, e);
    var end := |d.lead| + Length(d.value);
    CutPaired(d.value, (if k <= end then k else end) - |d.lead|);
  }

  /** The tree of a repaired prefix is the cut tree. */
  lemma CutOf(d: Document, k: nat, e: Document)
    requires GoodDocument(d) && k <= |DocumentText(d)|
    requires GoodDocument(e) && DocumentText(e) == Repaired(DocumentText(d)[..k])
    ensures DocumentLength(d) == |DocumentText(d)| && CutDocument(d, k) == Some(e)
  {
    hide Repaired;
    RepairCuts(d, k);
    CutVanishes(d, k);
    TextStart(e.value);
    UniqueDocument(e, CutDocument(d, k).value);
  }

  /** Repairing ever longer prefixes of a document refines one value, towards the document's. */
  lemma RepairMonotone(d: Document, j: nat, k: nat, a: Document, b: Document)
    requires GoodDocument(d) && j <= k <= |DocumentText(d)|
    requires GoodDocument(a) && DocumentText(a) == Repaired(DocumentText(d)[..j])
    requires GoodDocument(b) && DocumentText(b) == Repaired(DocumentText(d)[..k])
    ensures Approximates(a.value, b.value) && Approximates(b.value, d.value)
  {
    hide Repaired, Cut, Approximates, DocumentText;
    CutOf(d, j, a);
    CutOf(d, k, b);
    CutWhole(d.value, false);
    var n := Length(d.value);
    var x, y := j - |d.lead|, k - |d.lead|;
    CutMonotone(d.value, if x <= n then x else n, if y <= n then y else n, false);
    CutMonotone(d.value, if y <= n then y else n, n, false);
  }

  /** A complete document loses its trailing whitespace and nothing else. */
  lemma RepairComplete(d: Document)
    requires GoodDocument(d)
    ensures Repaired(DocumentText(d)) == d.lead + Text(d.value)
  {
    hide Repaired;
    DocumentLengthIsLength(d);
    RepairCuts(d, DocumentLength(d));
    assert DocumentText(d)[..DocumentLength(d)] == DocumentText(d);
    CutAtEnd(d, DocumentLength(d));
  }

  lemma RepairIdempotent(d: Document, k: nat)
    requires GoodDocument(d) && k <= |DocumentText(d)|
    ensures var once := Repaired(DocumentText(d)[..k]); Repaired(once) == once
  {
    RepairCuts(d, k);
    CutVanishes(d, k);
    match CutDocument(d, k)
    case None =>
      RepairedLead("");
    case Some(e) =>
      hide Repaired;
      RepairComplete(e);
      assert Text(e.value) + "" == Text(e.value);
  }

  // ----- Any input, malformed ones included

  /** The finished root and the open containers above it. */
  predicate Nested(stack: seq<State>) {
    && stack != [] && stack[0] == Finished
    && forall i :: 1 <= i < |stack| ==> stack[i] == InsideObjectAfterValue || stack[i] == InsideArrayAfterValue
  }

  predicate Innermost(state: State) {
    state != Root && state != Finished && !IsEscapeState(state) && state != InsideObjectKeyEscape
  }

  /** The stack is the root, or nested containers below at most one part being read, which
      may be inside an escape. */
  predicate Shaped(stack: seq<State>) {
    || stack == [Root]
    || Nested(stack)
    || (|stack| >= 2 && Nested(Pop(stack)) && Innermost(Top(stack)))
    || (|stack| >= 3 && Nested(Pop(Pop(stack)))
        && ((Top(Pop(stack)) == InsideString && IsEscapeState(Top(stack)))
            || (Top(Pop(stack)) == InsideObjectKey && Top(stack) == InsideObjectKeyEscape)))
  }

  function HexBound(digits: nat): nat {
    if digits == 0 then 1 else 16 * HexBound(digits - 1)
  }

  /** The machine's invariant: the stack keeps its shape, and an escape in progress has read
      fewer than four digits, so its 16-bit value never loses a bit. */
  predicate Sound(c: Config) {
    && Shaped(c.stack)
    && (Top(c.stack) == InsideStringUnicodeEscape ==>
          c.escapeDigits < 4 && c.escapeValue < HexBound(c.escapeDigits))
  }

  // ----- Characters that continue no JSON text

  /** A character that may stand next where a value, a key, a colon, a comma, a bracket or a hexadecimal
      digit is due. */
  predicate IsDue(state: State, ch: char) {
    match state
    case InsideObjectStart => ch == '\"' || ch == '}'
    case InsideObjectAfterComma => ch == '\"'
    case InsideObjectAfterKey => ch == ':'
    case InsideObjectAfterValue => ch == ',' || ch == '}'
    case InsideArrayAfterValue => ch == ',' || ch == ']'
    case InsideArrayStart => ch == ']' || ch in "\"tfn-{[" || '0' <= ch <= '9'
    case InsideStringUnicodeEscape => '0' <= ch <= '9' || 'a' <= ch <= 'f' || 'A' <= ch <= 'F'
    case Finished => false
    case _ => ch in "\"tfn-{[" || '0' <= ch <= '9'
  }

  predicate IsDueState(state: State) {
    state in {Root, Finished, InsideObjectStart, InsideObjectAfterComma, InsideObjectAfterKey, InsideObjectBeforeValue,
              InsideObjectAfterValue, InsideArrayStart, InsideArrayAfterValue, InsideArrayAfterComma,
              InsideStringUnicodeEscape}
  }

  /** Whatever else stands there is skipped; only in arrays, next to a bracket or a value, does it count as
      read. */
  lemma StraysAreSkipped(c: Config, ch: char)
    requires IsDueState(Top(c.stack)) && !IsDue(Top(c.stack), ch)
    ensures Step(c, ch) == c.(seen := c.seen + [ch],
      lastValidEnd := if Top(c.stack) == InsideArrayStart || Top(c.stack) == InsideArrayAfterValue
                      then |c.seen| + 1 else c.lastValidEnd)
  {
  }

  lemma NestedPush(base: seq<State>, state: State)
    requires Nested(base) && (state == InsideObjectAfterValue || state == InsideArrayAfterValue)
    ensures Nested(base + [state])
  {
  }

  lemma ShapedPush(base: seq<State>, state: State)
    requires Nested(base) && Innermost(state)
    ensures Shaped(base + [state]) && Top(base + [state]) == state
  {
    assert Pop(base + [state]) == base;
  }

  lemma ShapedPushEscape(base: seq<State>, inner: State, state: State)
    requires Nested(base)
    requires
      || (inner == InsideString && IsEscapeState(state))
      || (inner == InsideObjectKey && state == InsideObjectKeyEscape)
    ensures Shaped(base + [inner] + [state]) && Top(base + [inner] + [state]) == state
  {
    assert Pop(base + [inner] + [state]) == base + [inner];
    assert Pop(base + [inner]) == base;
  }

  /** The containers below the part being read. */
  lemma ShapedBelow(stack: seq<State>)
    requires Shaped(stack) && stack != [Root] && Top(stack) != Finished
    ensures Innermost(Top(stack)) ==> Nested(Pop(stack)) && stack == Pop(stack) + [Top(stack)]
    ensures IsAfter(Top(stack)) ==> Nested(stack)
    ensures !Innermost(Top(stack)) ==>
      && Nested(Pop(Pop(stack))) && stack == Pop(Pop(stack)) + [Top(Pop(stack))] + [Top(stack)]
      && Top(Pop(stack)) == if IsEscapeState(Top(stack)) then InsideString else InsideObjectKey
  {
    assert stack == Pop(stack) + [Top(stack)];
    if Nested(Pop(stack)) && IsAfter(Top(stack)) {
      NestedPush(Pop(stack), Top(stack));
    }
  }

  lemma NestedIsShaped(stack: seq<State>)
    requires Nested(stack)
    ensures Shaped(stack) && Top(stack) != InsideStringUnicodeEscape
  {
  }

  lemma ValueStartStack(c: Config, ch: char, swap: State)
    requires c.seen != "" && c.stack != []
    ensures var d := ValueStart(c, ch, swap);
      d.stack == c.stack || (Innermost(Top(d.stack)) && d.stack == Pop(c.stack) + [swap] + [Top(d.stack)])
  {
    hide Begin, Top, Pop;
    BeganStack(Valid(c), swap, InsideString);
    BeganStack(Valid(c).(literalStart := |c.seen| - 1), swap, InsideLiteral);
    BeganStack(c, swap, InsideNumber);
    BeganStack(Valid(c), swap, InsideNumber);
    BeganStack(Valid(c), swap, InsideObjectStart);
    BeganStack(Valid(c), swap, InsideArrayStart);
  }

  lemma BeganStack(c: Config, swap: State, state: State)
    requires c.stack != []
    ensures var d := Begin(c, swap, state); d.stack == Pop(c.stack) + [swap] + [state] && Top(d.stack) == state
  {
  }

  lemma ShapedValueStart(c: Config, ch: char, swap: State)
    requires Shaped(c.stack) && c.seen != "" && ExpectsValue(Top(c.stack)) && swap == Swap(Top(c.stack))
    ensures Sound(ValueStart(c, ch, swap))
  {
    ValueStartStack(c, ch, swap);
    var d := ValueStart(c, ch, swap);
    hide ValueStart;
    if d.stack != c.stack {
      var base := Pop(c.stack) + [swap];
      if c.stack == [Root] {
        assert base == [Finished];
      } else {
        ShapedBelow(c.stack);
        NestedPush(Pop(c.stack), swap);
      }
      ShapedPush(base, Top(d.stack));
    }
  }

  lemma ShapedAfter(c: Config, ch: char)
    requires Nested(c.stack)
    ensures Top(c.stack) == InsideObjectAfterValue ==> Sound(AfterObjectValue(c, ch))
    ensures Top(c.stack) == InsideArrayAfterValue ==> Sound(AfterArrayValue(c, ch))
    ensures Top(AfterArrayValue(c, ',').stack) == InsideArrayAfterComma
  {
    if Top(c.stack) != Finished {
      NestedBelow(c.stack);
      ShapedPush(Pop(c.stack), InsideObjectAfterComma);
      ShapedPush(Pop(c.stack), InsideArrayAfterComma);
      NestedIsShaped(Pop(c.stack));
    }
    NestedIsShaped(c.stack);
    hide Nested, Shaped;
  }

  lemma NestedBelow(stack: seq<State>)
    requires Nested(stack) && Top(stack) != Finished
    ensures Nested(Pop(stack))
  {
  }

  lemma ShapedNumber(c: Config, ch: char)
    requires Sound(c) && Top(c.stack) == InsideNumber
    ensures Sound(NumberChar(c, ch))
  {
    hide AfterObjectValue, AfterArrayValue;
    ShapedBelow(c.stack);
    ShapedAfter(Leave(c), ch);
  }

  lemma ShapedLiteral(c: Config, ch: char)
    requires Sound(c) && Top(c.stack) == InsideLiteral
    ensures Sound(LiteralChar(c, ch))
  {
    hide AfterObjectValue, AfterArrayValue, StartsLiteral;
    ShapedBelow(c.stack);
    ShapedAfter(Leave(c), ch);
  }

  lemma HexFits(c: Config, ch: char)
    requires c.escapeDigits < 4 && c.escapeValue < HexBound(c.escapeDigits) && IsHexDigit(ch)
    ensures c.escapeValue * 16 + HexDigitValue(ch) < HexBound(c.escapeDigits + 1)
    ensures c.escapeValue * 16 + HexDigitValue(ch) < 0x1_0000
  {
    hide HexDigitValue, IsHexDigit;
    assert HexBound(4) == 0x1_0000 && HexBound(3) == 0x1000 && HexBound(2) == 0x100 && HexBound(1) == 0x10;
  }

  lemma ShapedUnicode(c: Config, ch: char)
    requires Sound(c) && Top(c.stack) == InsideStringUnicodeEscape
    ensures Sound(UnicodeDigit(c, ch))
  {
    hide Shaped, HexBound, HexDigitValue, Nested;
    ShapedBelow(c.stack);
    var base := Pop(Pop(c.stack));
    ShapedPush(base, InsideString);
    assert Pop(c.stack) == base + [InsideString];
    if IsHexDigit(ch) {
      HexFits(c, ch);
    }
  }

  lemma ShapedString(c: Config, ch: char)
    requires Sound(c) && c.seen != "" && Top(c.stack) == InsideString
    ensures Sound(React(c, ch))
  {
    hide ValueStart, AfterObjectValue, AfterArrayValue, NumberChar, LiteralChar, UnicodeDigit, Shaped, Nested;
    ShapedBelow(c.stack);
    NestedIsShaped(Pop(c.stack));
    ShapedPushEscape(Pop(c.stack), InsideString, InsideStringEscape);
  }

  lemma ShapedEscape(c: Config, ch: char)
    requires Sound(c) && c.seen != "" && (Top(c.stack) == InsideStringEscape || Top(c.stack) == InsideObjectKeyEscape)
    ensures Sound(React(c, ch))
  {
    hide ValueStart, AfterObjectValue, AfterArrayValue, NumberChar, LiteralChar, UnicodeDigit, Shaped, Nested;
    ShapedBelow(c.stack);
    var base := Pop(Pop(c.stack));
    assert Pop(c.stack) == base + [Top(Pop(c.stack))];
    ShapedPush(base, Top(Pop(c.stack)));
    ShapedPushEscape(base, InsideString, InsideStringUnicodeEscape);
  }

  lemma ShapedKey(c: Config, ch: char)
    requires Sound(c) && c.seen != "" && Top(c.stack) == InsideObjectKey
    ensures Sound(React(c, ch))
  {
    hide ValueStart, AfterObjectValue, AfterArrayValue, NumberChar, LiteralChar, UnicodeDigit, Shaped, Nested;
    ShapedBelow(c.stack);
    ShapedPush(Pop(c.stack), InsideObjectAfterKey);
    ShapedPushEscape(Pop(c.stack), InsideObjectKey, InsideObjectKeyEscape);
  }

  lemma ShapedHead(c: Config, ch: char)
    requires Sound(c) && c.seen != ""
    requires Top(c.stack) in {InsideObjectStart, InsideObjectAfterComma, InsideObjectAfterKey}
    ensures Sound(React(c, ch))
  {
    hide ValueStart, AfterObjectValue, AfterArrayValue, NumberChar, LiteralChar, UnicodeDigit, Shaped, Nested;
    ShapedBelow(c.stack);
    NestedIsShaped(Pop(c.stack));
    ShapedPush(Pop(c.stack), InsideObjectKey);
    ShapedPush(Pop(c.stack), InsideObjectBeforeValue);
  }

  lemma ShapedArray(c: Config, ch: char)
    requires Sound(c) && c.seen != "" && KeepsWs(Top(c.stack))
    ensures Sound(React(c, ch))
  {
    hide ValueStart, AfterObjectValue, Shaped, Nested;
    ShapedBelow(c.stack);
    NestedIsShaped(Pop(c.stack));
    if Top(c.stack) == InsideArrayStart {
      ShapedValueStart(c, ch, InsideArrayAfterValue);
      ShapedValueStart(Valid(c), ch, InsideArrayAfterValue);
    } else {
      ShapedAfter(c, ch);
      NestedIsShaped(c.stack);
    }
  }

  lemma StepSound(c: Config, ch: char)
    requires Sound(c)
    ensures Sound(Step(c, ch))
  {
    hide ValueStart, AfterObjectValue, AfterArrayValue, NumberChar, LiteralChar, UnicodeDigit, Shaped;
    var d := Read(c, ch);
    match Top(c.stack) {
      case Root => ShapedValueStart(d, ch, Finished);
      case InsideObjectBeforeValue => ShapedValueStart(d, ch, InsideObjectAfterValue);
      case InsideArrayAfterComma => ShapedValueStart(d, ch, InsideArrayAfterValue);
      case Finished =>
      case InsideNumber => ShapedNumber(d, ch);
      case InsideLiteral => ShapedLiteral(d, ch);
      case InsideObjectAfterValue => ShapedBelow(d.stack); ShapedAfter(d, ch);
      case InsideString => ShapedString(d, ch);
      case InsideStringEscape => ShapedEscape(d, ch);
      case InsideObjectKeyEscape => ShapedEscape(d, ch);
      case InsideObjectKey => ShapedKey(d, ch);
      case InsideStringUnicodeEscape => ShapedUnicode(d, ch);
      case InsideArrayStart => ShapedArray(d, ch);
      case InsideArrayAfterValue => ShapedArray(d, ch);
      case _ => ShapedHead(d, ch);
    }
  }

  predicate EndKept(c: Config, d: Config) {
    d.lastValidEnd == c.lastValidEnd || d.lastValidEnd == |c.seen|
  }

  lemma AfterKeepsEnd(c: Config, ch: char)
    ensures EndKept(c, AfterObjectValue(c, ch)) && EndKept(c, AfterArrayValue(c, ch))
    ensures EndKept(c, ThenArray(c, ch)) && EndKept(c, ThenObject(c, ch))
  {
    hide ReplaceTop, Pop, Top;
  }

  lemma NumberKeepsEnd(c: Config, ch: char)
    ensures EndKept(c, NumberChar(c, ch))
  {
    hide AfterObjectValue, AfterArrayValue, ThenArray, ThenObject, Pop;
    AfterKeepsSeen(Leave(c), ch);
    AfterKeepsEnd(Leave(c), ch);
    AfterKeepsEnd(ThenArray(Leave(c), ch), ch);
  }

  lemma StartKeepsEnd(c: Config, ch: char, swap: State)
    requires c.seen != ""
    ensures EndKept(c, ValueStart(c, ch, swap))
  {
    hide ReplaceTop, Pop, Top, StartsLiteral;
  }

  lemma PartsKeepEnd(c: Config, ch: char, swap: State)
    requires c.seen != ""
    ensures EndKept(c, ValueStart(c, ch, swap)) && EndKept(c, UnicodeDigit(c, ch)) && EndKept(c, LiteralChar(c, ch))
  {
    hide ReplaceTop, Pop, Top, AfterObjectValue, AfterArrayValue, StartsLiteral, HexDigitValue;
    AfterKeepsEnd(Leave(c), ch);
    StartKeepsEnd(c, ch, swap);
    hide ValueStart;
  }

  lemma ValidEndGrows(c: Config, ch: char)
    ensures Step(c, ch).lastValidEnd == c.lastValidEnd || Step(c, ch).lastValidEnd == |c.seen| + 1
  {
    hide ReplaceTop, Pop, ValueStart, AfterObjectValue, AfterArrayValue, UnicodeDigit, NumberChar, LiteralChar;
    var d := Read(c, ch);
    AfterKeepsEnd(d, ch);
    NumberKeepsEnd(d, ch);
    PartsKeepEnd(d, ch, Finished);
    PartsKeepEnd(d, ch, InsideObjectAfterValue);
    PartsKeepEnd(d, ch, InsideArrayAfterValue);
    PartsKeepEnd(Valid(d), ch, InsideArrayAfterValue);
  }

  /** Over any input: the machine stays sound, and what it holds valid only ever grows. */
  lemma {:induction false} RunSound(c: Config, s: string)
    requires Sound(c)
    ensures Sound(Run(c, s)) && c.lastValidEnd <= Run(c, s).lastValidEnd
    decreases |s|
  {
    if s != "" {
      hide Step;
      StepSound(c, s[0]);
      ValidEndGrows(c, s[0]);
      RunSound(Step(c, s[0]), s[1..]);
    }
  }

  predicate IsCloser(c: char) {
    c == '\"' || c == '}' || c == ']'
  }

  lemma {:induction false} ClosersClose(stack: seq<State>, partial: string)
    requires InsideLiteral !in stack
    ensures forall i :: 0 <= i < |Closers(stack, partial)| ==> IsCloser(Closers(stack, partial)[i])
  {
    if stack != [] {
      ClosersClose(stack[..|stack| - 1], partial);
    }
  }

  lemma LiteralOnTopOnly(stack: seq<State>)
    requires Shaped(stack)
    ensures InsideLiteral !in Pop(stack)
  {
  }

  /** The output is a prefix of the input, the rest of a literal (perhaps none of it), and
      closing quotes and brackets. */
  lemma RepairExtendsPrefix(s: string) returns (valid: nat, literal: string, closers: string)
    ensures valid <= |s| && Repaired(s) == s[..valid] + literal + closers
    ensures forall i :: 0 <= i < |closers| ==> IsCloser(closers[i])
    ensures exists name: string, k: nat :: IsLiteral(name) && k <= |name| && literal == name[k..]
  {
    var c := Run(INITIAL, s);
    RunSound(INITIAL, s);
    RunSeen(INITIAL, s);
    assert c.seen == s;
    hide Step, Run, Closers, Shaped, IsCloser, IsLiteral;
    valid := c.lastValidEnd;
    literal, closers := ClosersParts(c.stack, c.seen[c.literalStart..]);
    Cat2(s[..valid], literal, closers);
  }

  /** What closes a stack: the rest of a literal, if one is being read, and closing characters. */
  lemma ClosersParts(stack: seq<State>, partial: string) returns (literal: string, closers: string)
    requires Shaped(stack)
    ensures Closers(stack, partial) == literal + closers
    ensures forall i :: 0 <= i < |closers| ==> IsCloser(closers[i])
    ensures exists name: string, k: nat :: IsLiteral(name) && k <= |name| && literal == name[k..]
  {
    LiteralOnTopOnly(stack);
    if Top(stack) == InsideLiteral {
      literal, closers := LiteralRest(partial), Closers(Pop(stack), partial);
      hide Shaped, IsCloser, IsLiteral, LiteralRest;
      ClosersClose(Pop(stack), partial);
      LiteralRestIsRest(partial);
    } else {
      literal, closers := "", Closers(stack, partial);
      assert IsLiteral("true") && literal == "true"[4..];
      NoLiteral(stack);
      hide Shaped, IsCloser, IsLiteral, Closers;
      ClosersClose(stack, partial);
      assert "" + closers == closers;
    }
  }

  lemma NoLiteral(stack: seq<State>)
    requires stack != [] && InsideLiteral !in Pop(stack) && Top(stack) != InsideLiteral
    ensures InsideLiteral !in stack
  {
    assert stack == Pop(stack) + [Top(stack)];
  }

  lemma LiteralRestIsRest(partial: string)
    ensures exists name: string, k: nat :: IsLiteral(name) && k <= |name| && LiteralRest(partial) == name[k..]
  {
    var name := if partial <= "true" then "true" else if partial <= "false" then "false" else "null";
    if partial <= name {
      assert LiteralRest(partial) == name[|partial|..];
    } else {
      assert LiteralRest(partial) == name[|name|..];
    }
  }
}

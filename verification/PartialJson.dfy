/** The repair of truncated JSON: the state machine itself.

    A configuration is the machine's fields together with the input it has read; offsets
    count characters.  `Step`, `Run` and `Finish` say what one character, a whole input and
    the closing phase do; class `Repairer` is the machine that updates its fields. */
module PartialJson {
  import opened Digits
  import opened JsonGrammar

  datatype State =
    | Root
    | Finished
    | InsideString
    | InsideStringEscape
    | InsideStringUnicodeEscape
    | InsideLiteral
    | InsideNumber
    | InsideObjectStart
    | InsideObjectKey
    | InsideObjectKeyEscape
    | InsideObjectAfterKey
    | InsideObjectBeforeValue
    | InsideObjectAfterValue
    | InsideObjectAfterComma
    | InsideArrayStart
    | InsideArrayAfterValue
    | InsideArrayAfterComma

  /** `seen` is the input read so far; `lastValidEnd` is one past the last character of it
      that belongs to valid output. */
  datatype ConfigFields = ConfigFields(
    seen: string,
    stack: seq<State>,
    lastValidEnd: nat,
    literalStart: nat,
    escapeDigits: nat,
    escapeValue: nat,
    pendingHigh: bool)

  type Config = c: ConfigFields | c.lastValidEnd <= |c.seen| && c.literalStart <= |c.seen|
    witness ConfigFields("", [Root], 0, 0, 0, 0, false)

  const INITIAL: Config := ConfigFields("", [Root], 0, 0, 0, 0, false)

  function Top(stack: seq<State>): State {
    if stack == [] then Finished else stack[|stack| - 1]
  }

  function Pop(stack: seq<State>): seq<State> {
    if stack == [] then [] else stack[..|stack| - 1]
  }

  function ReplaceTop(stack: seq<State>, state: State): seq<State> {
    Pop(stack) + [state]
  }

  predicate IsHighSurrogate(value: nat) {
    0xD800 <= value <= 0xDBFF
  }

  predicate IsLowSurrogate(value: nat) {
    0xDC00 <= value <= 0xDFFF
  }

  // ----- One character.  In these functions `c` has already read the character, so the
  // offset one past it is `|c.seen|`.

  function Valid(c: Config): Config {
    c.(lastValidEnd := |c.seen|)
  }

  function Goto(c: Config, state: State): Config {
    c.(stack := ReplaceTop(c.stack, state))
  }

  function Push(c: Config, state: State): Config {
    c.(stack := c.stack + [state])
  }

  function Leave(c: Config): Config {
    c.(stack := Pop(c.stack))
  }

  function Begin(c: Config, swap: State, state: State): Config {
    Push(Goto(c, swap), state)
  }

  function ValueStart(c: Config, ch: char, swap: State): Config
    requires c.seen != ""
  {
    match ch
    case '\"' => Begin(Valid(c), swap, InsideString)
    case 'f' => Begin(Valid(c).(literalStart := |c.seen| - 1), swap, InsideLiteral)
    case 't' => Begin(Valid(c).(literalStart := |c.seen| - 1), swap, InsideLiteral)
    case 'n' => Begin(Valid(c).(literalStart := |c.seen| - 1), swap, InsideLiteral)
    case '-' => Begin(c, swap, InsideNumber)
    case '{' => Begin(Valid(c), swap, InsideObjectStart)
    case '[' => Begin(Valid(c), swap, InsideArrayStart)
    case _ => if IsDigit(ch) then Begin(Valid(c), swap, InsideNumber) else c
  }

  function AfterObjectValue(c: Config, ch: char): Config {
    match ch
    case ',' => Goto(c, InsideObjectAfterComma)
    case '}' => Leave(Valid(c))
    case _ => c
  }

  function AfterArrayValue(c: Config, ch: char): Config {
    match ch
    case ',' => Goto(c, InsideArrayAfterComma)
    case ']' => Leave(Valid(c))
    case _ => c
  }

  function ThenArray(c: Config, ch: char): Config {
    if Top(c.stack) == InsideArrayAfterValue then AfterArrayValue(c, ch) else c
  }

  function ThenObject(c: Config, ch: char): Config {
    if Top(c.stack) == InsideObjectAfterValue then AfterObjectValue(c, ch) else c
  }

  function UnicodeDigit(c: Config, ch: char): Config {
    if !IsHexDigit(ch) then c
    else
      // 16-bit arithmetic: bits shifted past the top are lost.
      var value := (c.escapeValue * 16 + HexDigitValue(ch)) % 0x1_0000;
      var d := c.(escapeValue := value, escapeDigits := c.escapeDigits + 1);
      if d.escapeDigits != 4 then d
      else if IsHighSurrogate(value) then Leave(d).(pendingHigh := true)
      else if !d.pendingHigh || IsLowSurrogate(value) then Valid(Leave(d)).(pendingHigh := false)
      else Leave(d)
  }

  function NumberChar(c: Config, ch: char): Config {
    if IsDigit(ch) then Valid(c)
    else match ch
      case 'e' => c
      case 'E' => c
      case '-' => c
      case '+' => c
      case '.' => c
      case ',' => ThenObject(ThenArray(Leave(c), ch), ch)
      case '}' => ThenObject(Leave(c), ch)
      case ']' => ThenArray(Leave(c), ch)
      case _ => Leave(c)
  }

  predicate StartsLiteral(partial: string) {
    partial <= "false" || partial <= "true" || partial <= "null"
  }

  function LiteralChar(c: Config, ch: char): Config {
    if StartsLiteral(c.seen[c.literalStart..]) then Valid(c)
    else if Top(Pop(c.stack)) == InsideObjectAfterValue then AfterObjectValue(Leave(c), ch)
    else if Top(Pop(c.stack)) == InsideArrayAfterValue then AfterArrayValue(Leave(c), ch)
    else Leave(c)
  }

  function React(c: Config, ch: char): Config
    requires c.seen != ""
  {
    match Top(c.stack)
    case Root => ValueStart(c, ch, Finished)
    case Finished => c
    case InsideObjectStart =>
      if ch == '\"' then Goto(c, InsideObjectKey) else if ch == '}' then Leave(Valid(c)) else c
    case InsideObjectAfterComma => if ch == '\"' then Goto(c, InsideObjectKey) else c
    case InsideObjectKey =>
      if ch == '\"' then Goto(c, InsideObjectAfterKey)
      else if ch == '\\' then Push(c, InsideObjectKeyEscape)
      else c
    case InsideObjectKeyEscape => Leave(c)
    case InsideObjectAfterKey => if ch == ':' then Goto(c, InsideObjectBeforeValue) else c
    case InsideObjectBeforeValue => ValueStart(c, ch, InsideObjectAfterValue)
    case InsideObjectAfterValue => AfterObjectValue(c, ch)
    case InsideString =>
      if ch == '\"' then Leave(Valid(c))
      else if ch == '\\' then Push(c, InsideStringEscape)
      else Valid(c)
    case InsideArrayStart =>
      if ch == ']' then Leave(Valid(c))
      else ValueStart(if ch != '-' then Valid(c) else c, ch, InsideArrayAfterValue)
    case InsideArrayAfterValue =>
      if ch == ',' then Goto(c, InsideArrayAfterComma)
      else if ch == ']' then Leave(Valid(c))
      else Valid(c)
    case InsideArrayAfterComma => ValueStart(c, ch, InsideArrayAfterValue)
    case InsideStringEscape =>
      if ch == 'u' then Push(Leave(c).(escapeDigits := 0, escapeValue := 0), InsideStringUnicodeEscape)
      else Valid(Leave(c))
    case InsideStringUnicodeEscape => UnicodeDigit(c, ch)
    case InsideNumber => NumberChar(c, ch)
    case InsideLiteral => LiteralChar(c, ch)
  }

  function Read(c: Config, ch: char): Config {
    c.(seen := c.seen + [ch])
  }

  function Step(c: Config, ch: char): Config {
    React(Read(c, ch), ch)
  }

  function Run(c: Config, s: string): Config
    decreases |s|
  {
    if s == "" then c else Run(Step(c, s[0]), s[1..])
  }

  // ----- Closing

  /** The missing rest of a partial literal; empty when it starts none. */
  function LiteralRest(partial: string): string {
    if partial <= "true" then "true"[|partial|..]
    else if partial <= "false" then "false"[|partial|..]
    else if partial <= "null" then "null"[|partial|..]
    else ""
  }

  function Closer(state: State, partial: string): string {
    match state
    case InsideString => "\""
    case InsideObjectKey => "}"
    case InsideObjectAfterKey => "}"
    case InsideObjectAfterComma => "}"
    case InsideObjectStart => "}"
    case InsideObjectBeforeValue => "}"
    case InsideObjectAfterValue => "}"
    case InsideArrayStart => "]"
    case InsideArrayAfterComma => "]"
    case InsideArrayAfterValue => "]"
    case InsideLiteral => LiteralRest(partial)
    case _ => ""
  }

  /** The closers of a stack, innermost first. */
  function Closers(stack: seq<State>, partial: string): string {
    if stack == [] then ""
    else Closer(stack[|stack| - 1], partial) + Closers(stack[..|stack| - 1], partial)
  }

  function Finish(c: Config): string {
    c.seen[..c.lastValidEnd] + Closers(c.stack, c.seen[c.literalStart..])
  }

  function Repaired(input: string): string {
    Finish(Run(INITIAL, input))
  }

  // ----- The machine

  class Repairer {
    const input: string
    var stack: seq<State>
    var lastValidEnd: nat
    var literalStart: nat
    var escapeDigits: nat
    var escapeValue: nat
    var pendingHigh: bool

    constructor (input: string)
      ensures this.input == input && InBounds(0) && At(0) == INITIAL
    {
      this.input := input;
      stack := [Root];
      lastValidEnd, literalStart, escapeDigits, escapeValue, pendingHigh := 0, 0, 0, 0, false;
    }

    ghost predicate InBounds(position: nat)
      reads this
    {
      lastValidEnd <= position <= |input| && literalStart <= position
    }

    /** The configuration after reading the first `position` characters. */
    ghost function At(position: nat): Config
      requires InBounds(position)
      reads this
    {
      ConfigFields(input[..position], stack, lastValidEnd, literalStart, escapeDigits, escapeValue, pendingHigh)
    }

    method ReplaceTopWith(state: State)
      modifies this`stack
      ensures stack == ReplaceTop(old(stack), state)
    {
      stack := Pop(stack);
      stack := stack + [state];
    }

    method BeginWith(swap: State, state: State)
      modifies this`stack
      ensures stack == ReplaceTop(old(stack), swap) + [state]
    {
      ReplaceTopWith(swap);
      stack := stack + [state];
    }

    method ProcessValueStart(ch: char, start: nat, end: nat, swap: State)
      requires start + 1 == end && InBounds(end)
      modifies this
      ensures InBounds(end) && At(end) == ValueStart(old(At(end)), ch, swap)
    {
      hide ReplaceTop, Top, Pop;
      if ch == '\"' {
        lastValidEnd := end;
        BeginWith(swap, InsideString);
      } else if ch == 'f' || ch == 't' || ch == 'n' {
        lastValidEnd := end;
        literalStart := start;
        BeginWith(swap, InsideLiteral);
      } else if ch == '-' {
        BeginWith(swap, InsideNumber);
      } else if IsDigit(ch) {
        lastValidEnd := end;
        BeginWith(swap, InsideNumber);
      } else if ch == '{' {
        lastValidEnd := end;
        BeginWith(swap, InsideObjectStart);
      } else if ch == '[' {
        lastValidEnd := end;
        BeginWith(swap, InsideArrayStart);
      }
    }

    method ProcessAfterObjectValue(ch: char, end: nat)
      requires InBounds(end)
      modifies this
      ensures InBounds(end) && At(end) == AfterObjectValue(old(At(end)), ch)
    {
      if ch == ',' {
        ReplaceTopWith(InsideObjectAfterComma);
      } else if ch == '}' {
        lastValidEnd := end;
        stack := Pop(stack);
      }
    }

    method ProcessAfterArrayValue(ch: char, end: nat)
      requires InBounds(end)
      modifies this
      ensures InBounds(end) && At(end) == AfterArrayValue(old(At(end)), ch)
    {
      if ch == ',' {
        ReplaceTopWith(InsideArrayAfterComma);
      } else if ch == ']' {
        lastValidEnd := end;
        stack := Pop(stack);
      }
    }

    method ProcessUnicodeDigit(ch: char, end: nat)
      requires InBounds(end)
      modifies this
      ensures InBounds(end) && At(end) == UnicodeDigit(old(At(end)), ch)
    {
      if IsHexDigit(ch) {
        escapeValue := (escapeValue * 16 + HexDigitValue(ch)) % 0x1_0000;
        escapeDigits := escapeDigits + 1;
        if escapeDigits == 4 {
          stack := Pop(stack);
          if IsHighSurrogate(escapeValue) {
            pendingHigh := true;
          } else if !pendingHigh || IsLowSurrogate(escapeValue) {
            pendingHigh := false;
            lastValidEnd := end;
          }
        }
      }
    }

    method ProcessNumberChar(ch: char, end: nat)
      requires InBounds(end)
      modifies this
      ensures InBounds(end) && At(end) == NumberChar(old(At(end)), ch)
    {
      if IsDigit(ch) {
        lastValidEnd := end;
      } else if ch !in "eE-+." {
        stack := Pop(stack);
        if (ch == ',' || ch == ']') && Top(stack) == InsideArrayAfterValue {
          ProcessAfterArrayValue(ch, end);
        }
        if (ch == ',' || ch == '}') && Top(stack) == InsideObjectAfterValue {
          ProcessAfterObjectValue(ch, end);
        }
      }
    }

    method ProcessLiteralChar(ch: char, end: nat)
      requires InBounds(end)
      modifies this
      ensures InBounds(end) && At(end) == LiteralChar(old(At(end)), ch)
    {
      var partial := input[literalStart..end];
      assert input[..end][literalStart..] == partial;
      if !(partial <= "false") && !(partial <= "true") && !(partial <= "null") {
        stack := Pop(stack);
        if Top(stack) == InsideObjectAfterValue {
          ProcessAfterObjectValue(ch, end);
        } else if Top(stack) == InsideArrayAfterValue {
          ProcessAfterArrayValue(ch, end);
        }
      } else {
        lastValidEnd := end;
      }
    }

    /** Reads the character at `start`. */
    method ReadChar(ch: char, start: nat, end: nat)
      requires end == start + 1 <= |input| && ch == input[start] && InBounds(start)
      modifies this
      ensures InBounds(end) && At(end) == Step(old(At(start)), ch)
    {
      assert input[..end] == input[..start] + [ch];
      match Top(stack) {
        case Root => ProcessValueStart(ch, start, end, Finished);
        case Finished =>
        case InsideObjectStart =>
          if ch == '\"' {
            ReplaceTopWith(InsideObjectKey);
          } else if ch == '}' {
            lastValidEnd := end;
            stack := Pop(stack);
          }
        case InsideObjectAfterComma =>
          if ch == '\"' {
            ReplaceTopWith(InsideObjectKey);
          }
        case InsideObjectKey =>
          if ch == '\"' {
            ReplaceTopWith(InsideObjectAfterKey);
          } else if ch == '\\' {
            stack := stack + [InsideObjectKeyEscape];
          }
        case InsideObjectKeyEscape => stack := Pop(stack);
        case InsideObjectAfterKey =>
          if ch == ':' {
            ReplaceTopWith(InsideObjectBeforeValue);
          }
        case InsideObjectBeforeValue => ProcessValueStart(ch, start, end, InsideObjectAfterValue);
        case InsideObjectAfterValue => ProcessAfterObjectValue(ch, end);
        case InsideString =>
          if ch == '\"' {
            stack := Pop(stack);
            lastValidEnd := end;
          } else if ch == '\\' {
            stack := stack + [InsideStringEscape];
          } else {
            lastValidEnd := end;
          }
        case InsideArrayStart =>
          if ch == ']' {
            lastValidEnd := end;
            stack := Pop(stack);
          } else {
            // An array may keep the blanks that its first value would follow, but no bare minus.
            if ch != '-' {
              lastValidEnd := end;
            }
            ProcessValueStart(ch, start, end, InsideArrayAfterValue);
          }
        case InsideArrayAfterValue =>
          if ch == ',' {
            ReplaceTopWith(InsideArrayAfterComma);
          } else if ch == ']' {
            lastValidEnd := end;
            stack := Pop(stack);
          } else {
            lastValidEnd := end;
          }
        case InsideArrayAfterComma => ProcessValueStart(ch, start, end, InsideArrayAfterValue);
        case InsideStringEscape =>
          stack := Pop(stack);
          if ch == 'u' {
            escapeDigits := 0;
            escapeValue := 0;
            stack := stack + [InsideStringUnicodeEscape];
          } else {
            lastValidEnd := end;
          }
        case InsideStringUnicodeEscape => ProcessUnicodeDigit(ch, end);
        case InsideNumber => ProcessNumberChar(ch, end);
        case InsideLiteral => ProcessLiteralChar(ch, end);
      }
    }

    /** The valid part of the input, closed. */
    method Close() returns (result: string)
      requires InBounds(|input|)
      ensures result == Finish(At(|input|))
    {
      result := input[..lastValidEnd];
      var partial := input[literalStart..];
      assert input[..|input|] == input;
      assert stack[..|stack|] == stack;
      var i := |stack|;
      while i > 0
        invariant 0 <= i <= |stack|
        invariant result + Closers(stack[..i], partial) == input[..lastValidEnd] + Closers(stack, partial)
      {
        i := i - 1;
        assert stack[..i + 1][..i] == stack[..i];
        result := result + Closer(stack[i], partial);
      }
    }
  }

  lemma {:induction false} RunSnoc(c: Config, s: string, ch: char)
    ensures Run(c, s + [ch]) == Step(Run(c, s), ch)
    decreases |s|
  {
    if s == "" {
      assert ([] + [ch])[1..] == [];
      assert s + [ch] == [ch];
    } else {
      assert (s + [ch])[1..] == s[1..] + [ch];
      RunSnoc(Step(c, s[0]), s[1..], ch);
    }
  }

  /** Reads the input once, character by character, and closes what it left open. */
  method Repair(input: string) returns (result: string)
    ensures result == Repaired(input)
  {
    var repairer := new Repairer(input);
    for i := 0 to |input|
      invariant repairer.InBounds(i) && repairer.At(i) == Run(INITIAL, input[..i])
      invariant repairer.input == input
    {
      assert input[..i + 1] == input[..i] + [input[i]];
      RunSnoc(INITIAL, input[..i], input[i]);
      repairer.ReadChar(input[i], i, i + 1);
    }
    assert input[..|input|] == input;
    result := repairer.Close();
  }
}

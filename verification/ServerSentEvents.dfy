/** Server-sent events: the event stream format of the WHATWG HTML standard (sections 9.2.5 and
    9.2.6) read line by line, and the incremental decoder that refines it byte by byte.

    A byte is a `char` below 256; text decodes unchanged. */
module ServerSentEvents {
  import opened Digits
  import opened Options
  import opened Sequences

  const BOM: string := "\U{EF}\U{BB}\U{BF}"

  /** `retry` is in milliseconds. */
  datatype Event = Event(event: Option<string>, data: string, id: Option<string>, retry: Option<nat>)

  // ----- Lines

  predicate IsEnd(c: char) {
    c == '\n' || c == '\r'
  }

  /** The length of the first line. */
  function LineLength(s: string): (n: nat)
    ensures n <= |s|
    ensures forall i :: 0 <= i < n ==> !IsEnd(s[i])
    ensures n < |s| ==> IsEnd(s[n])
  {
    if s == "" || IsEnd(s[0]) then 0 else 1 + LineLength(s[1..])
  }

  /** Where the second line starts: a carriage return and a following line feed end one line. */
  function NextLine(s: string): (n: nat)
    requires LineLength(s) < |s|
    ensures LineLength(s) < n <= |s|
  {
    var n := LineLength(s);
    if s[n] == '\r' && n + 1 < |s| && s[n + 1] == '\n' then n + 2 else n + 1
  }

  /** The lines that are terminated. */
  function Lines(s: string): seq<string>
    decreases |s|
  {
    if LineLength(s) == |s| then [] else [s[..LineLength(s)]] + Lines(s[NextLine(s)..])
  }

  /** What follows the last terminated line. */
  function Unterminated(s: string): string
    decreases |s|
  {
    if LineLength(s) == |s| then s else Unterminated(s[NextLine(s)..])
  }

  /** The text without one leading byte order mark. */
  function StripBom(s: string): string {
    if BOM <= s then s[3..] else s
  }

  // ----- Fields

  datatype Fields = Fields(data: string, event: string, lastEventId: string, retry: Option<nat>)

  function ColonIndex(s: string): (n: nat)
    ensures n <= |s|
    ensures n < |s| ==> s[n] == ':'
    ensures forall i :: 0 <= i < n ==> s[i] != ':'
  {
    if s == "" || s[0] == ':' then 0 else 1 + ColonIndex(s[1..])
  }

  function FieldName(line: string): string {
    line[..ColonIndex(line)]
  }

  /** The value after the colon and one optional space. */
  function FieldValue(line: string): string {
    var n := ColonIndex(line);
    if n == |line| then ""
    else if n + 1 < |line| && line[n + 1] == ' ' then line[n + 2..]
    else line[n + 1..]
  }

  const U64_LIMIT: nat := 0x1_0000_0000_0000_0000

  function ParseRetry(value: string): Option<nat>
    requires IsDigits(value)
  {
    if DigitsValue(value) < U64_LIMIT then Some(DigitsValue(value)) else None
  }

  function NonEmpty(s: string): Option<string> {
    if s == "" then None else Some(s)
  }

  /** The fields after a line, and the event it completes. */
  function ProcessLine(f: Fields, line: string): (Fields, Option<Event>) {
    if line == "" then
      if f.data == "" then (f.(event := ""), None)
      else
        var event := Event(NonEmpty(f.event), f.data[..|f.data| - 1], NonEmpty(f.lastEventId), f.retry);
        (f.(data := "", event := ""), Some(event))
    else if line[0] == ':' then (f, None)
    else
      var name, value := FieldName(line), FieldValue(line);
      if name == "event" then (f.(event := value), None)
      else if name == "data" then (f.(data := f.data + value + "\n"), None)
      else if name == "id" && '\0' !in value then (f.(lastEventId := value), None)
      else if name == "retry" && value != "" && IsDigits(value) then (f.(retry := ParseRetry(value)), None)
      else (f, None)
  }

  function EventOf(event: Option<Event>): seq<Event> {
    match event
    case Some(e) => [e]
    case None => []
  }

  const NO_FIELDS: Fields := Fields("", "", "", None)

  function FieldsAfter(lines: seq<string>): Fields {
    if lines == [] then NO_FIELDS else ProcessLine(FieldsAfter(lines[..|lines| - 1]), lines[|lines| - 1]).0
  }

  function EventsOf(lines: seq<string>): seq<Event> {
    if lines == [] then []
    else
      var before, last := lines[..|lines| - 1], lines[|lines| - 1];
      EventsOf(before) + EventOf(ProcessLine(FieldsAfter(before), last).1)
  }

  // ----- The incremental decoder's steps

  datatype Decoder = Decoder(buffer: string, fields: Fields, bomChecked: bool, pendingCr: bool)

  datatype Step = Moved(decoder: Decoder, events: seq<Event>) | TooLarge

  const START: Decoder := Decoder("", NO_FIELDS, false, false)

  predicate Wf(d: Decoder) {
    !d.bomChecked ==> |d.buffer| < 3
  }

  /** One byte, once the byte order mark is out of the way. */
  function ReadPlain(limit: nat, d: Decoder, byte: char): Step {
    var d := d.(bomChecked := true);
    if d.pendingCr && byte == '\n' then Moved(d.(pendingCr := false), [])
    else if IsEnd(byte) then
      var (fields, event) := ProcessLine(d.fields, d.buffer);
      Moved(Decoder("", fields, true, byte == '\r'), EventOf(event))
    else
      var grown := d.(buffer := d.buffer + [byte], pendingCr := false);
      if |grown.buffer| + |d.fields.data| > limit then TooLarge else Moved(grown, [])
  }

  function ReadByte(limit: nat, d: Decoder, byte: char): (r: Step)
    requires Wf(d)
    ensures r.Moved? ==> Wf(r.decoder)
  {
    if !d.bomChecked && byte == BOM[|d.buffer|] then
      if |d.buffer| == 2 then Moved(d.(buffer := "", bomChecked := true), [])
      else Moved(d.(buffer := d.buffer + [byte]), [])
    else ReadPlain(limit, d, byte)
  }

  /** Reading bytes ends in a state, or fails at a byte. */
  datatype Outcome = Done(decoder: Decoder, events: seq<Event>) | FailedAt(index: nat)

  function Run(limit: nat, d: Decoder, bytes: string): (r: Outcome)
    requires Wf(d)
    ensures r.Done? ==> Wf(r.decoder)
    ensures r.FailedAt? ==> r.index < |bytes|
    decreases |bytes|
  {
    if bytes == "" then Done(d, [])
    else
      match ReadByte(limit, d, bytes[0])
      case TooLarge => FailedAt(0)
      case Moved(next, events) =>
        match Run(limit, next, bytes[1..])
        case Done(last, more) => Done(last, events + more)
        case FailedAt(index) => FailedAt(index + 1)
  }

  /** Reading a text in two parts is reading it at once. */
  lemma {:induction false} RunCat(limit: nat, d: Decoder, a: string, b: string)
    requires Wf(d)
    ensures Run(limit, d, a + b) ==
      match Run(limit, d, a)
      case FailedAt(index) => FailedAt(index)
      case Done(middle, events) =>
        match Run(limit, middle, b)
        case FailedAt(index) => FailedAt(|a| + index)
        case Done(last, more) => Done(last, events + more)
    decreases |a|
  {
    hide ReadByte;
    if a == "" {
      assert a + b == b;
      assert Run(limit, d, b).Done? ==> [] + Run(limit, d, b).events == Run(limit, d, b).events;
    } else {
      assert (a + b)[1..] == a[1..] + b;
      var step := ReadByte(limit, d, a[0]);
      if step.Moved? {
        RunCat(limit, step.decoder, a[1..], b);
      }
    }
  }

  // ----- Chunks

  function Joined(chunks: seq<string>): string {
    if chunks == [] then "" else chunks[0] + Joined(chunks[1..])
  }

  /** Feeding chunk after chunk; a failure is at a byte of the whole text. */
  function FeedAll(limit: nat, d: Decoder, chunks: seq<string>): Outcome
    requires Wf(d)
    decreases |chunks|
  {
    if chunks == [] then Done(d, [])
    else
      match Run(limit, d, chunks[0])
      case FailedAt(index) => FailedAt(index)
      case Done(middle, events) =>
        match FeedAll(limit, middle, chunks[1..])
        case FailedAt(index) => FailedAt(|chunks[0]| + index)
        case Done(last, more) => Done(last, events + more)
  }

  /** However a text is cut into chunks, the events and the final state are those of the whole
      text, or reading fails at the same byte. */
  lemma {:induction false} ChunksDoNotMatter(limit: nat, d: Decoder, chunks: seq<string>)
    requires Wf(d)
    ensures FeedAll(limit, d, chunks) == Run(limit, d, Joined(chunks))
    decreases |chunks|
  {
    if chunks != [] {
      RunCat(limit, d, chunks[0], Joined(chunks[1..]));
      hide Run, Joined;
      var first := Run(limit, d, chunks[0]);
      if first.Done? {
        ChunksDoNotMatter(limit, first.decoder, chunks[1..]);
      }
    }
  }

  // ----- Lines of a growing text

  lemma {:induction false} LineLengthGrows(s: string, c: char)
    ensures LineLength(s + [c]) == if LineLength(s) < |s| then LineLength(s) else if IsEnd(c) then |s| else |s| + 1
  {
    if s == "" {
      assert [c][1..] == "";
    } else if !IsEnd(s[0]) {
      assert (s + [c])[1..] == s[1..] + [c];
      LineLengthGrows(s[1..], c);
    }
  }

  predicate EndsWithCr(s: string) {
    s != "" && s[|s| - 1] == '\r'
  }

  lemma FirstLine(s: string)
    requires LineLength(s) < |s|
    ensures Lines(s) == [s[..LineLength(s)]] + Lines(s[NextLine(s)..])
    ensures Unterminated(s) == Unterminated(s[NextLine(s)..])
  {
  }

  lemma NothingAfter()
    ensures Lines("") == [] && Unterminated("") == ""
  {
  }

  lemma NextLineGrows(s: string, c: char)
    requires LineLength(s) < |s|
    ensures var t := s + [c];
      && LineLength(t) == LineLength(s)
      && NextLine(t) == if NextLine(s) == |s| && EndsWithCr(s) && c == '\n' then |t| else NextLine(s)
  {
    LineLengthGrows(s, c);
    hide LineLength, IsEnd;
    var t, n := s + [c], LineLength(s);
    assert t[n] == s[n] && (n + 1 < |s| ==> t[n + 1] == s[n + 1]);
  }

  /** The first line stays the first line unless a line feed joins its final carriage return. */
  lemma FirstLineGrows(s: string, c: char)
    requires LineLength(s) < |s|
    ensures var t := s + [c]; var joins := NextLine(s) == |s| && EndsWithCr(s) && c == '\n';
      && LineLength(t) == LineLength(s) && t[..LineLength(s)] == s[..LineLength(s)]
      && NextLine(t) == (if joins then |t| else NextLine(s))
      && (!joins ==> t[NextLine(s)..] == s[NextLine(s)..] + [c])
  {
    hide LineLength, NextLine, EndsWithCr;
    NextLineGrows(s, c);
    TakeOld(s, [c], LineLength(s));
    DropOld(s, [c], NextLine(s));
  }

  /** One more character adds the current line to the lines, or itself to the current line. */
  predicate Grow(s: string, c: char) {
    && Lines(s + [c]) == (if IsEnd(c) && !(EndsWithCr(s) && c == '\n') then Lines(s) + [Unterminated(s)] else Lines(s))
    && Unterminated(s + [c]) == (if IsEnd(c) then "" else Unterminated(s) + [c])
    && (EndsWithCr(s) ==> Unterminated(s) == "")
  }

  lemma JoinedGrow(s: string, c: char)
    requires LineLength(s) < |s| && NextLine(s) == |s| && EndsWithCr(s) && c == '\n'
    ensures Grow(s, c)
  {
    var t := s + [c];
    FirstLineGrows(s, c);
    FirstLine(s);
    FirstLine(t);
    NothingAfter();
    hide Lines, Unterminated, LineLength, NextLine;
    assert s[|s|..] == "" && t[|t|..] == "";
  }

  lemma EndsAlike(s: string, m: nat)
    requires m <= |s|
    ensures s[m..] != "" ==> EndsWithCr(s[m..]) == EndsWithCr(s)
    ensures s[m..] == "" <==> m == |s|
  {
  }

  lemma LaterGrow(s: string, c: char)
    requires LineLength(s) < |s| && !(NextLine(s) == |s| && EndsWithCr(s) && c == '\n')
    requires Grow(s[NextLine(s)..], c)
    ensures Grow(s, c)
  {
    hide Grow, EndsWithCr, LineLength, NextLine, Lines, Unterminated;
    FirstLineGrows(s, c);
    FirstLine(s);
    FirstLine(s + [c]);
    EndsAlike(s, NextLine(s));
    NothingAfter();
    GrowBefore(s, c, [s[..LineLength(s)]], s[NextLine(s)..]);
  }

  /** A line before the lines that grow changes nothing. */
  lemma GrowBefore(s: string, c: char, first: seq<string>, rest: string)
    requires Lines(s) == first + Lines(rest) && Unterminated(s) == Unterminated(rest)
    requires Lines(s + [c]) == first + Lines(rest + [c]) && Unterminated(s + [c]) == Unterminated(rest + [c])
    requires rest != "" ==> EndsWithCr(rest) == EndsWithCr(s)
    requires rest == "" ==> Unterminated(rest) == "" && !(EndsWithCr(s) && c == '\n')
    requires Grow(rest, c)
    ensures Grow(s, c)
  {
    hide Lines, Unterminated, IsEnd;
    Cat2(first, Lines(rest), [Unterminated(rest)]);
  }

  /** How one more character changes the lines. */
  lemma {:induction false} LinesGrow(s: string, c: char)
    ensures Grow(s, c)
    decreases |s|
  {
    if LineLength(s) == |s| {
      LastLineGrows(s, c);
    } else {
      hide Grow;
      if NextLine(s) == |s| && EndsWithCr(s) && c == '\n' {
        JoinedGrow(s, c);
      } else {
        LinesGrow(s[NextLine(s)..], c);
        LaterGrow(s, c);
      }
    }
  }

  lemma LastLineGrows(s: string, c: char)
    requires LineLength(s) == |s|
    ensures Lines(s) == [] && Unterminated(s) == s && !EndsWithCr(s)
    ensures Lines(s + [c]) == if IsEnd(c) then [s] else []
    ensures Unterminated(s + [c]) == if IsEnd(c) then "" else s + [c]
  {
    var t := s + [c];
    LineLengthGrows(s, c);
    if IsEnd(c) {
      assert t[|s| + 1..] == "" && t[..|s|] == s;
      assert NextLine(t) == |s| + 1;
      assert Lines(t) == [s] + Lines("");
      assert Unterminated(t) == Unterminated("");
    }
  }

  // ----- The decoder refines the line-by-line reading

  /** The decoder's state after a text, by the lines of the text. */
  function Reached(s: string): Decoder {
    var t := StripBom(s);
    Decoder(Unterminated(t), FieldsAfter(Lines(t)), !(s < BOM), EndsWithCr(t))
  }

  /** What is buffered and accumulated after a text. */
  function Size(s: string): nat {
    |Reached(s).buffer| + |Reached(s).fields.data|
  }

  function Events(s: string): seq<Event> {
    EventsOf(Lines(StripBom(s)))
  }

  lemma FieldsGrow(lines: seq<string>, line: string)
    ensures FieldsAfter(lines + [line]) == ProcessLine(FieldsAfter(lines), line).0
    ensures EventsOf(lines + [line]) == EventsOf(lines) + EventOf(ProcessLine(FieldsAfter(lines), line).1)
  {
    assert (lines + [line])[..|lines|] == lines;
  }

  /** A line adds no more data than it is long. */
  lemma DataGrowsLess(f: Fields, line: string)
    ensures |ProcessLine(f, line).0.data| <= |line| + |f.data|
  {
    if line != "" && line[0] != ':' && FieldName(line) == "data" {
      assert |FieldName(line)| == 4;
    }
  }

  /** Reading a byte of plain text moves on to the next line-by-line state. */
  lemma ReadPlainReaches(limit: nat, t: string, c: char, checked: bool)
    requires |Unterminated(t)| + |FieldsAfter(Lines(t)).data| <= limit
    ensures var fields, grown := FieldsAfter(Lines(t)), FieldsAfter(Lines(t + [c]));
      var r := ReadPlain(limit, Decoder(Unterminated(t), fields, checked, EndsWithCr(t)), c);
      if |Unterminated(t + [c])| + |grown.data| > limit then r == TooLarge
      else r.Moved? && r.decoder == Decoder(Unterminated(t + [c]), grown, true, EndsWithCr(t + [c]))
           && EventsOf(Lines(t + [c])) == EventsOf(Lines(t)) + r.events
  {
    LinesGrow(t, c);
    FieldsGrow(Lines(t), Unterminated(t));
    DataGrowsLess(FieldsAfter(Lines(t)), Unterminated(t));
    hide Lines, Unterminated, FieldsAfter, EventsOf, ProcessLine;
    assert EventsOf(Lines(t)) + [] == EventsOf(Lines(t));
  }

  lemma {:induction false} OneLine(s: string)
    requires forall i :: 0 <= i < |s| ==> !IsEnd(s[i])
    ensures LineLength(s) == |s| && Lines(s) == [] && Unterminated(s) == s && !EndsWithCr(s)
  {
    if s != "" {
      OneLine(s[1..]);
    }
  }

  lemma BeforeBom(s: string)
    requires s < BOM
    ensures StripBom(s) == s && Lines(s) == [] && Unterminated(s) == s && !EndsWithCr(s) && |s| < 3
    ensures Reached(s) == Decoder(s, NO_FIELDS, false, false)
  {
    OneLine(s);
  }

  lemma AfterBom()
    ensures Reached(BOM) == Decoder("", NO_FIELDS, true, false) && Events(BOM) == []
  {
    assert BOM[3..] == "";
    NothingAfter();
  }

  lemma BomGrows(s: string, c: char)
    ensures s < BOM && c == BOM[|s|] ==> s + [c] <= BOM && (|s| == 2 ==> s + [c] == BOM) && (|s| < 2 ==> s + [c] < BOM)
    ensures s < BOM && c != BOM[|s|] ==> StripBom(s + [c]) == s + [c] && !(s + [c] < BOM)
    ensures !(s < BOM) ==> StripBom(s + [c]) == StripBom(s) + [c] && !(s + [c] < BOM)
  {
    var t := s + [c];
    if s < BOM {
      assert BOM[..|s|] == s;
      assert BOM[..|s| + 1] == s + [BOM[|s|]];
      assert t <= BOM ==> t == BOM[..|t|];
      assert |s| == 2 ==> BOM[..3] == BOM;
      assert BOM <= t ==> t[..3] == BOM && |t| <= 3;
    } else {
      PrefixShrinks(s, c, BOM);
      if BOM <= s {
        assert t[..3] == s[..3];
        assert t[3..] == s[3..] + [c];
      }
    }
  }

  lemma PrefixShrinks(s: string, c: char, p: string)
    ensures s + [c] < p ==> s < p
    ensures p <= s + [c] ==> p <= s || p == s + [c]
    ensures p == s + [c] ==> s < p
  {
  }

  lemma ReadByteReaches(limit: nat, s: string, c: char)
    requires limit >= 2 && Size(s) <= limit && Wf(Reached(s))
    ensures var r := ReadByte(limit, Reached(s), c);
      if Size(s + [c]) > limit then r == TooLarge
      else r.Moved? && r.decoder == Reached(s + [c]) && Events(s + [c]) == Events(s) + r.events
  {
    BomGrows(s, c);
    if s < BOM {
      BeforeBom(s);
      if c == BOM[|s|] {
        if |s| == 2 {
          AfterBom();
        } else {
          BeforeBom(s + [c]);
        }
      } else {
        ReadPlainReaches(limit, s, c, false);
      }
    } else {
      ReadPlainReaches(limit, StripBom(s), c, true);
    }
  }

  lemma ReachedIsWf(s: string)
    ensures Wf(Reached(s))
  {
    if s < BOM {
      BeforeBom(s);
    }
  }

  /** No prefix of up to `n` bytes exceeds the limit. */
  ghost predicate Within(limit: nat, bytes: string, n: nat)
    requires n <= |bytes|
  {
    forall k :: 0 <= k <= n ==> Size(bytes[..k]) <= limit
  }

  lemma WithinGrows(limit: nat, s: string, c: char, n: nat)
    requires n <= |s|
    ensures Within(limit, s + [c], n) <==> Within(limit, s, n)
    ensures Within(limit, s + [c], |s| + 1) <==> Within(limit, s, |s|) && Size(s + [c]) <= limit
  {
    hide Size;
    var t := s + [c];
    forall k | 0 <= k <= |s|
      ensures t[..k] == s[..k]
    {
    }
    assert t[..|t|] == t;
    if Within(limit, s, |s|) && Size(t) <= limit {
      forall k | 0 <= k <= |t|
        ensures Size(t[..k]) <= limit
      {
        assert k < |t| ==> t[..k] == s[..k];
      }
    }
    if Within(limit, t, |s| + 1) {
      forall k | 0 <= k <= |s|
        ensures Size(s[..k]) <= limit
      {
        assert t[..k] == s[..k];
      }
    }
  }

  /** What reading a text must come to, by its lines. */
  ghost predicate Refines(limit: nat, bytes: string, r: Outcome) {
    match r
    case Done(d, events) => d == Reached(bytes) && events == Events(bytes) && Within(limit, bytes, |bytes|)
    case FailedAt(index) => index < |bytes| && Size(bytes[..index + 1]) > limit && Within(limit, bytes, index)
  }

  lemma FailureStays(limit: nat, s: string, c: char, index: nat)
    requires Refines(limit, s, FailedAt(index))
    ensures Refines(limit, s + [c], FailedAt(index))
  {
    hide Size;
    WithinGrows(limit, s, c, index);
    assert (s + [c])[..index + 1] == s[..index + 1];
  }

  lemma WithinAll(limit: nat, t: string)
    requires t != "" && Within(limit, t, |t| - 1) && Size(t) <= limit
    ensures Within(limit, t, |t|)
  {
    hide Size;
    forall k | 0 <= k <= |t|
      ensures Size(t[..k]) <= limit
    {
      if k == |t| {
        assert t[..k] == t;
      }
    }
  }

  lemma RefinesGrows(limit: nat, s: string, c: char, d: Decoder, events: seq<Event>)
    requires limit >= 2 && Refines(limit, s, Done(d, events))
    ensures Wf(d)
    ensures match ReadByte(limit, d, c)
      case TooLarge => Refines(limit, s + [c], FailedAt(|s|))
      case Moved(next, more) => Refines(limit, s + [c], Done(next, events + more))
  {
    var t := s + [c];
    assert t[..|s| + 1] == t && s[..|s|] == s;
    ReachedIsWf(s);
    WithinGrows(limit, s, c, |s|);
    assert Size(s[..|s|]) <= limit;
    assert Within(limit, t, |s|);
    if Size(t) <= limit {
      WithinAll(limit, t);
    }
    hide Within, Reached, Events, Size, ReadByte;
    ReadByteReaches(limit, s, c);
  }

  /** The outcome after one more byte, the `at`th. */
  function Continued(limit: nat, before: Outcome, at: nat, c: char): Outcome
    requires before.Done? ==> Wf(before.decoder)
  {
    if before.FailedAt? then before
    else
      match ReadByte(limit, before.decoder, c)
      case TooLarge => FailedAt(at)
      case Moved(next, more) => Done(next, before.events + more)
  }

  lemma RunOneMore(limit: nat, s: string, c: char)
    ensures Run(limit, START, s + [c]) == Continued(limit, Run(limit, START, s), |s|, c)
  {
    RunCat(limit, START, s, [c]);
    hide Run, ReadByte;
    var before := Run(limit, START, s);
    if before.Done? {
      OneByte(limit, before.decoder, c);
    }
  }

  /** With a limit of at least two the decoder refines the line-by-line reading: it ends in the state
      and with the events that the lines give, or fails at the first byte at which the limit is
      exceeded. */
  lemma {:induction false} DecoderRefinesLines(limit: nat, bytes: string)
    requires limit >= 2
    ensures Refines(limit, bytes, Run(limit, START, bytes))
    decreases |bytes|
  {
    if bytes == "" {
      BeforeBom("");
    } else {
      hide Refines, ReadByte, Run, Wf;
      var s, c := bytes[..|bytes| - 1], bytes[|bytes| - 1];
      SplitLast(bytes);
      DecoderRefinesLines(limit, s);
      RunOneMore(limit, s, c);
      var before := Run(limit, START, s);
      if before.Done? {
        RefinesGrows(limit, s, c, before.decoder, before.events);
      } else {
        FailureStays(limit, s, c, before.index);
      }
    }
  }

  /** What a limit lets pass, a higher one lets pass too. */
  lemma {:induction false} HigherLimit(low: nat, high: nat, d: Decoder, bytes: string)
    requires low <= high && Wf(d) && Run(low, d, bytes).Done?
    ensures Run(high, d, bytes) == Run(low, d, bytes)
    decreases |bytes|
  {
    if bytes != "" {
      HigherStep(low, high, d, bytes[0]);
      hide ReadByte;
      HigherLimit(low, high, ReadByte(low, d, bytes[0]).decoder, bytes[1..]);
    }
  }

  lemma HigherStep(low: nat, high: nat, d: Decoder, byte: char)
    requires low <= high && Wf(d) && ReadByte(low, d, byte).Moved?
    ensures ReadByte(high, d, byte) == ReadByte(low, d, byte)
  {
    hide ProcessLine;
  }

  /** The decoder refines the line-by-line reading.  Under every limit, when it does not fail, it ends
      in the state and with the events that the lines give; with a limit of at least two it fails
      exactly when the limit is exceeded, at the first byte at which it is. */
  lemma DecoderRefines(limit: nat, bytes: string)
    ensures var r := Run(limit, START, bytes);
      r.Done? ==> r.decoder == Reached(bytes) && r.events == Events(bytes)
    ensures limit >= 2 ==> Refines(limit, bytes, Run(limit, START, bytes))
  {
    var high := if limit < 2 then 2 else limit;
    DecoderRefinesLines(high, bytes);
    hide Run, Reached, Events, Within;
    if Run(limit, START, bytes).Done? {
      HigherLimit(limit, high, START, bytes);
    }
  }

  lemma OneByte(limit: nat, d: Decoder, c: char)
    requires Wf(d)
    ensures Run(limit, d, [c]) ==
      match ReadByte(limit, d, c)
      case TooLarge => FailedAt(0)
      case Moved(next, events) => Done(next, events)
  {
    hide ReadByte;
    assert [c][1..] == "";
    var step := ReadByte(limit, d, c);
    assert step.Moved? ==> Run(limit, step.decoder, "") == Done(step.decoder, []) && step.events + [] == step.events;
  }

  // ----- The limit bounds the memory

  predicate Bounded(limit: nat, d: Decoder) {
    |d.buffer| + |d.fields.data| <= limit && (!d.bomChecked ==> |d.buffer| < 3 && d.fields.data == "")
  }

  /** Whatever the decoder has read, what it holds stays within the limit. */
  lemma {:induction false} RunStaysBounded(limit: nat, d: Decoder, bytes: string)
    requires limit >= 2 && Bounded(limit, d)
    ensures Run(limit, d, bytes).Done? ==> Bounded(limit, Run(limit, d, bytes).decoder)
    decreases |bytes|
  {
    if bytes != "" {
      DataGrowsLess(d.fields, d.buffer);
      hide ProcessLine;
      var step := ReadByte(limit, d, bytes[0]);
      if step.Moved? {
        RunStaysBounded(limit, step.decoder, bytes[1..]);
      }
    }
  }

  /** With a limit below two, part of a byte order mark is held though it is over the limit. */
  lemma SmallLimit(limit: nat)
    requires limit < 2
    ensures var r := Run(limit, START, BOM[..limit + 1]); r.Done? && |r.decoder.buffer| == limit + 1
  {
    var first := Decoder([BOM[0]], NO_FIELDS, false, false);
    assert ReadByte(limit, START, BOM[0]) == Moved(first, []) by { assert [] + [BOM[0]] == [BOM[0]]; }
    OneByte(limit, START, BOM[0]);
    assert BOM[..1] == [BOM[0]] && BOM[..2] == [BOM[0]] + [BOM[1]];
    if limit == 1 {
      RunCat(limit, START, [BOM[0]], [BOM[1]]);
      OneByte(limit, first, BOM[1]);
    }
  }

  /** What a fresh decoder holds never exceeds the limit. */
  ghost predicate StaysWithin(limit: nat) {
    forall bytes :: Run(limit, START, bytes).Done? ==>
      |Run(limit, START, bytes).decoder.buffer| + |Run(limit, START, bytes).decoder.fields.data| <= limit
  }

  /** What a fresh decoder holds never exceeds the limit if and only if the limit is at least two. */
  lemma LimitHolds(limit: nat)
    ensures StaysWithin(limit) <==> limit >= 2
  {
    hide Run;
    if limit < 2 {
      SmallLimit(limit);
    } else {
      forall bytes | Run(limit, START, bytes).Done?
        ensures Bounded(limit, Run(limit, START, bytes).decoder)
      {
        RunStaysBounded(limit, START, bytes);
      }
    }
  }
}

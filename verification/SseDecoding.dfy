/** The incremental decoder of server-sent events as an object, and the framing it undoes. */
module SseDecoding {
  import opened Digits
  import opened Options
  import opened Sequences
  import opened ServerSentEvents

  /** An outcome after `read` bytes that gave `events`. */
  function After(read: nat, events: seq<Event>, rest: Outcome): Outcome {
    match rest
    case Done(d, more) => Done(d, events + more)
    case FailedAt(index) => FailedAt(read + index)
  }

  lemma AfterStep(limit: nat, d: Decoder, bytes: string, i: nat, events: seq<Event>)
    requires Wf(d) && i < |bytes|
    ensures After(i, events, Run(limit, d, bytes[i..])) ==
      match ReadByte(limit, d, bytes[i])
      case TooLarge => FailedAt(i)
      case Moved(next, more) => After(i + 1, events + more, Run(limit, next, bytes[i + 1..]))
  {
    hide ReadByte;
    assert bytes[i..][1..] == bytes[i + 1..];
    var step := ReadByte(limit, d, bytes[i]);
    if step.Moved? && Run(limit, step.decoder, bytes[i + 1..]).Done? {
      Cat2(events, step.events, Run(limit, step.decoder, bytes[i + 1..]).events);
    }
  }

  lemma AfterAll(limit: nat, d: Decoder, bytes: string, events: seq<Event>)
    requires Wf(d)
    ensures After(|bytes|, events, Run(limit, d, bytes[|bytes|..])) == Done(d, events)
  {
  }

  class SseDecoder {
    var buffer: string
    var data: string
    var event: string
    var lastEventId: string
    var retry: Option<nat>
    var bomChecked: bool
    var pendingCr: bool
    var maxEventBytes: nat

    function State(): Decoder
      reads this
    {
      Decoder(buffer, Fields(data, event, lastEventId, retry), bomChecked, pendingCr)
    }

    constructor (maxEventBytes: nat)
      ensures State() == START && this.maxEventBytes == maxEventBytes
    {
      buffer, data, event, lastEventId, retry := "", "", "", "", None;
      bomChecked, pendingCr := false, false;
      this.maxEventBytes := maxEventBytes;
    }

    /** Completes the event under way, if it has data. */
    method Dispatch() returns (completed: Option<Event>)
      modifies this`data, this`event
      ensures var (fields, expected) := ProcessLine(old(State().fields), "");
        State() == old(State()).(fields := fields) && completed == expected
    {
      if data == "" {
        event := "";
        return None;
      }
      var text := data[..|data| - 1];
      data := "";
      completed := Some(Event(NonEmpty(event), text, NonEmpty(lastEventId), retry));
      event := "";
    }

    /** Interprets one line. */
    method InterpretLine(line: string) returns (completed: Option<Event>)
      modifies this`data, this`event, this`lastEventId, this`retry
      ensures var (fields, expected) := ProcessLine(old(State().fields), line);
        State() == old(State()).(fields := fields) && completed == expected
    {
      completed := None;
      if line == "" {
        completed := Dispatch();
        return;
      }
      if line[0] == ':' {
        return;
      }
      var name, value := FieldName(line), FieldValue(line);
      if name == "event" {
        event := value;
      } else if name == "data" {
        data := data + value;
        data := data + "\n";
      } else if name == "id" {
        if '\0' !in value {
          lastEventId := value;
        }
      } else if name == "retry" && value != "" && IsDigits(value) {
        retry := ParseRetry(value);
      }
    }

    /** Takes one byte of a line, or ends the line; tells whether the limit still holds. */
    method FeedPlain(byte: char) returns (ok: bool, completed: Option<Event>)
      modifies this
      ensures maxEventBytes == old(maxEventBytes)
      ensures match ReadPlain(maxEventBytes, old(State()), byte)
        case Moved(d, events) => ok && State() == d && EventOf(completed) == events
        case TooLarge => !ok
    {
      hide ProcessLine;
      ok, completed := true, None;
      bomChecked := true;
      if pendingCr {
        pendingCr := false;
        if byte == '\n' {
          return;
        }
      }
      if byte == '\n' || byte == '\r' {
        pendingCr := byte == '\r';
        var line := buffer;
        buffer := "";
        completed := InterpretLine(line);
      } else {
        buffer := buffer + [byte];
        ok := |buffer| + |data| <= maxEventBytes;
      }
    }

    /** Feeds bytes: the events they complete, or nothing when an event grew too large. */
    method Feed(bytes: string) returns (completed: Option<seq<Event>>)
      requires Wf(State())
      modifies this
      ensures maxEventBytes == old(maxEventBytes)
      ensures match Run(maxEventBytes, old(State()), bytes)
        case Done(d, events) => State() == d && completed == Some(events)
        case FailedAt(_) => completed == None
    {
      var events := [];
      ghost var whole := Run(maxEventBytes, State(), bytes);
      assert bytes[0..] == bytes && (whole.Done? ==> [] + whole.events == whole.events);
      var i := 0;
      hide Run, ReadPlain;
      while i < |bytes|
        invariant 0 <= i <= |bytes| && Wf(State()) && maxEventBytes == old(maxEventBytes)
        invariant whole == After(i, events, Run(maxEventBytes, State(), bytes[i..]))
      {
        var byte := bytes[i];
        AfterStep(maxEventBytes, State(), bytes, i, events);
        i := i + 1;
        assert events + [] == events;
        if !bomChecked && byte == BOM[|buffer|] {
          buffer := buffer + [byte];
          if |buffer| == 3 {
            buffer := "";
            bomChecked := true;
          }
          continue;
        }
        var ok, done := FeedPlain(byte);
        if !ok {
          return None;
        }
        events := events + EventOf(done);
      }
      AfterAll(maxEventBytes, State(), bytes, events);
      completed := Some(events);
    }

    /** The end of the stream: an incomplete event is discarded. */
    method Finish()
      modifies this
      ensures State() == old(State()).(buffer := "", pendingCr := false,
                                       fields := old(State()).fields.(data := "", event := ""))
      ensures maxEventBytes == old(maxEventBytes) && Wf(State())
      ensures Bounded(maxEventBytes, State())
    {
      buffer, data, event := "", "", "";
      pendingCr := false;
    }
  }

  // ----- Framing

  /** One event as a server writes it. */
  function Frame(payload: string): string {
    "data: " + payload + "\n\n"
  }

  function Frames(payloads: seq<string>): string {
    if payloads == [] then "" else Frame(payloads[0]) + Frames(payloads[1..])
  }

  function PlainEvents(payloads: seq<string>): seq<Event> {
    seq(|payloads|, i requires 0 <= i < |payloads| => Event(None, payloads[i], None, None))
  }

  const CLEAN: Decoder := Decoder("", NO_FIELDS, true, false)

  predicate IsOneLine(s: string) {
    forall i :: 0 <= i < |s| ==> !IsEnd(s[i])
  }

  lemma {:induction false} RunLineText(limit: nat, d: Decoder, s: string)
    requires d.bomChecked && !d.pendingCr && IsOneLine(s)
    ensures var r := Run(limit, d, s);
      if s == "" || |d.buffer| + |s| + |d.fields.data| <= limit then r == Done(d.(buffer := d.buffer + s), [])
      else r.FailedAt?
    decreases |s|
  {
    if s == "" {
      assert d.buffer + s == d.buffer;
    } else {
      var next := d.(buffer := d.buffer + [s[0]]);
      if |next.buffer| + |d.fields.data| <= limit {
        RunLineText(limit, next, s[1..]);
        assert next.buffer + s[1..] == d.buffer + s;
      }
    }
  }

  lemma DataLine(payload: string)
    ensures ProcessLine(NO_FIELDS, "data: " + payload) == (NO_FIELDS.(data := payload + "\n"), None)
  {
    var line := "data: " + payload;
    assert line[4] == ':' && line[..4] == "data";
    assert ColonIndex(line) == 4;
    assert line[6..] == payload;
    assert "" + payload == payload;
  }

  lemma FrameLines(payload: string)
    requires IsOneLine(payload)
    ensures IsOneLine("data: " + payload) && Frame(payload) == ("data: " + payload) + ("\n" + "\n")
  {
  }

  /** A frame decodes to its payload when it fits the limit, and fails otherwise. */
  lemma FrameDecodes(limit: nat, payload: string)
    requires IsOneLine(payload)
    ensures var r := Run(limit, CLEAN, Frame(payload));
      if |payload| + 6 <= limit then r == Done(CLEAN, [Event(None, payload, None, None)]) else r.FailedAt?
  {
    var line := "data: " + payload;
    FrameLines(payload);
    RunLineText(limit, CLEAN, line);
    RunCat(limit, CLEAN, line, "\n" + "\n");
    if |payload| + 6 <= limit {
      DataLine(payload);
      assert "" + line == line;
      var full := CLEAN.(buffer := line);
      var read := CLEAN.(fields := NO_FIELDS.(data := payload + "\n"));
      OneByte(limit, full, '\n');
      OneByte(limit, read, '\n');
      RunCat(limit, full, "\n", "\n");
      assert (payload + "\n")[..|payload|] == payload;
    }
  }

  lemma {:induction false} FramesDecodeClean(limit: nat, payloads: seq<string>)
    requires forall i :: 0 <= i < |payloads| ==> IsOneLine(payloads[i])
    ensures var r := Run(limit, CLEAN, Frames(payloads));
      if forall i :: 0 <= i < |payloads| ==> |payloads[i]| + 6 <= limit then r == Done(CLEAN, PlainEvents(payloads))
      else r.FailedAt?
    decreases |payloads|
  {
    if payloads != [] {
      var first, rest := payloads[0], payloads[1..];
      FrameDecodes(limit, first);
      FramesDecodeClean(limit, rest);
      RunCat(limit, CLEAN, Frame(first), Frames(rest));
      hide Run, Frame;
      assert PlainEvents(payloads) == [Event(None, first, None, None)] + PlainEvents(rest);
      assert forall i :: 0 < i < |payloads| ==> payloads[i] == rest[i - 1];
      assert forall i :: 0 <= i < |rest| ==> rest[i] == payloads[i + 1];
    }
  }

  /** Framed payloads decode back to exactly those payloads, provided each frame's line fits the
      limit; otherwise decoding fails. */
  lemma FramesDecode(limit: nat, payloads: seq<string>)
    requires forall i :: 0 <= i < |payloads| ==> IsOneLine(payloads[i])
    ensures var r := Run(limit, START, Frames(payloads));
      if forall i :: 0 <= i < |payloads| ==> |payloads[i]| + 6 <= limit
      then r.Done? && r.events == PlainEvents(payloads)
      else r.FailedAt?
  {
    FramesDecodeClean(limit, payloads);
    if payloads != [] {
      assert Frames(payloads)[0] == 'd';
      assert ReadByte(limit, START, 'd') == ReadByte(limit, CLEAN, 'd');
    }
  }
}

/** Driving a provider's stream machine.  An error part is terminal: what is open is closed, the
    error is forwarded and the rest is dropped. */
module StreamDriver {
  import opened Options
  import opened Sequences
  import opened StreamContract

  // ----- Open parts

  /** What is open, in opening order. */
  datatype Opens = Opens(text: seq<string>, reasoning: seq<string>, toolInputs: seq<string>)

  const NOTHING: Opens := Opens([], [], [])

  function Without(ids: seq<string>, id: string): seq<string> {
    if ids == [] then [] else (if ids[0] == id then [] else [ids[0]]) + Without(ids[1..], id)
  }

  function Listed(o: Opens, kind: Kind): seq<string> {
    match kind
    case Text => o.text
    case Reasoning => o.reasoning
    case ToolInput => o.toolInputs
  }

  function WithListed(o: Opens, kind: Kind, ids: seq<string>): Opens {
    match kind
    case Text => o.(text := ids)
    case Reasoning => o.(reasoning := ids)
    case ToolInput => o.(toolInputs := ids)
  }

  function Track(o: Opens, part: Part): Opens {
    match part
    case Start(kind, id, _) => WithListed(o, kind, Listed(o, kind) + [id])
    case End(kind, id, _) => WithListed(o, kind, Without(Listed(o, kind), id))
    case _ => o
  }

  function Ends(kind: Kind, ids: seq<string>): seq<Part> {
    seq(|ids|, i requires 0 <= i < |ids| => End(kind, ids[i], ""))
  }

  function Closing(o: Opens): seq<Part> {
    Ends(ToolInput, o.toolInputs) + (Ends(Reasoning, o.reasoning) + Ends(Text, o.text))
  }

  class OpenParts {
    var text: seq<string>
    var reasoning: seq<string>
    var toolInputs: seq<string>

    function State(): Opens
      reads this
    {
      Opens(text, reasoning, toolInputs)
    }

    constructor ()
      ensures State() == NOTHING
    {
      text, reasoning, toolInputs := [], [], [];
    }

    method ObservePart(part: Part)
      modifies this
      ensures State() == Track(old(State()), part)
    {
      match part {
        case Start(Text, id, _) => text := text + [id];
        case End(Text, id, _) => text := Without(text, id);
        case Start(Reasoning, id, _) => reasoning := reasoning + [id];
        case End(Reasoning, id, _) => reasoning := Without(reasoning, id);
        case Start(ToolInput, id, _) => toolInputs := toolInputs + [id];
        case End(ToolInput, id, _) => toolInputs := Without(toolInputs, id);
        case _ =>
      }
    }

    /** The parts that close everything still open. */
    method Close() returns (parts: seq<Part>)
      modifies this
      ensures parts == Closing(old(State())) && State() == NOTHING
    {
      parts := Ends(ToolInput, toolInputs);
      toolInputs := [];
      parts := parts + Ends(Reasoning, reasoning);
      reasoning := [];
      parts := parts + Ends(Text, text);
      text := [];
      Cat2(Ends(ToolInput, old(toolInputs)), Ends(Reasoning, old(reasoning)), Ends(Text, old(text)));
    }
  }

  // ----- What the driver yields

  /** What remains of the produced parts when the first error ends the stream. */
  function CutAtError(o: Opens, parts: seq<Part>): seq<Part>
    decreases |parts|
  {
    if parts == [] then []
    else if parts[0].Error? then Closing(o) + [parts[0]]
    else [parts[0]] + CutAtError(Track(o, parts[0]), parts[1..])
  }

  function TrackAll(o: Opens, parts: seq<Part>): Opens
    decreases |parts|
  {
    if parts == [] then o else TrackAll(Track(o, parts[0]), parts[1..])
  }

  /** Where the first error is, or the number of parts. */
  function ErrorIndex(parts: seq<Part>): (i: nat)
    ensures i <= |parts|
    ensures i < |parts| ==> parts[i].Error?
    ensures forall j :: 0 <= j < i ==> !parts[j].Error?
  {
    if parts == [] || parts[0].Error? then 0 else 1 + ErrorIndex(parts[1..])
  }

  /** A provider's machine: parts for a chunk, and the closing parts. */
  datatype Machine<!M, !C> = Machine(handle: (M, C) -> (M, seq<Part>), finish: M -> seq<Part>)

  /** All the parts that a machine makes of the chunks. */
  function Produced<M, C>(machine: Machine<M, C>, m: M, chunks: seq<C>): seq<Part>
    decreases |chunks|
  {
    if chunks == [] then machine.finish(m)
    else
      var (next, parts) := machine.handle(m, chunks[0]);
      parts + Produced(machine, next, chunks[1..])
  }

  /** The machine's state after chunks, and the parts it made of them. */
  function After<M, C>(machine: Machine<M, C>, m: M, chunks: seq<C>): (M, seq<Part>)
    decreases |chunks|
  {
    if chunks == [] then (m, [])
    else
      var (before, parts) := After(machine, m, chunks[..|chunks| - 1]);
      var (next, more) := machine.handle(before, chunks[|chunks| - 1]);
      (next, parts + more)
  }

  lemma {:induction false} AfterFirst<M, C>(machine: Machine<M, C>, m: M, chunks: seq<C>)
    requires chunks != []
    ensures After(machine, m, chunks) ==
      var (next, parts) := machine.handle(m, chunks[0]);
      var (last, more) := After(machine, next, chunks[1..]);
      (last, parts + more)
    decreases |chunks|
  {
    var init := chunks[..|chunks| - 1];
    if init == [] {
      assert chunks[1..] == [];
      assert After(machine, m, init) == (m, []);
      var (next, parts) := machine.handle(m, chunks[0]);
      assert [] + parts == parts && parts + [] == parts;
    } else {
      AfterFirst(machine, m, init);
      assert init[1..] == chunks[1..][..|chunks| - 2] && init[0] == chunks[0];
      var (next, parts) := machine.handle(m, chunks[0]);
      var (before, more) := After(machine, next, init[1..]);
      Cat2(parts, more, machine.handle(before, chunks[|chunks| - 1]).1);
    }
  }

  /** All chunks are handled, one after the other, and then the machine finishes. */
  lemma {:induction false} ProducedIs<M, C>(machine: Machine<M, C>, m: M, chunks: seq<C>)
    ensures var (last, parts) := After(machine, m, chunks);
      Produced(machine, m, chunks) == parts + machine.finish(last)
    decreases |chunks|
  {
    if chunks == [] {
      assert [] + machine.finish(m) == machine.finish(m);
    } else {
      var (next, parts) := machine.handle(m, chunks[0]);
      AfterFirst(machine, m, chunks);
      ProducedIs(machine, next, chunks[1..]);
      var (last, more) := After(machine, next, chunks[1..]);
      Cat2(parts, more, machine.finish(last));
    }
  }

  lemma {:induction false} CutCat(o: Opens, a: seq<Part>, b: seq<Part>)
    ensures CutAtError(o, a + b) == if ErrorIndex(a) < |a| then CutAtError(o, a) else a + CutAtError(TrackAll(o, a), b)
    decreases |a|
  {
    hide Track, Closing;
    if a == [] {
      assert a + b == b && [] + CutAtError(o, b) == CutAtError(o, b);
    } else {
      assert (a + b)[1..] == a[1..] + b;
      if !a[0].Error? {
        CutCat(Track(o, a[0]), a[1..], b);
        assert a == [a[0]] + a[1..];
        Cat2([a[0]], a[1..], CutAtError(TrackAll(Track(o, a[0]), a[1..]), b));
      }
    }
  }

  lemma {:induction false} CutIs(o: Opens, parts: seq<Part>)
    ensures var e := ErrorIndex(parts);
      CutAtError(o, parts) ==
        if e == |parts| then parts else parts[..e] + (Closing(TrackAll(o, parts[..e])) + [parts[e]])
    decreases |parts|
  {
    hide Track, Closing;
    if parts != [] {
      var e, rest := ErrorIndex(parts), parts[1..];
      assert parts == [parts[0]] + rest;
      if parts[0].Error? {
        assert parts[..0] == [];
        NothingBefore(Closing(o) + [parts[0]]);
      } else {
        CutIs(Track(o, parts[0]), rest);
        assert e == 1 + ErrorIndex(rest);
        if e < |parts| {
          TakeFirst(parts, e);
          Cat2([parts[0]], rest[..e - 1], Closing(TrackAll(o, parts[..e])) + [parts[e]]);
        }
      }
    }
  }

  lemma NothingBefore(parts: seq<Part>)
    ensures [] + parts == parts
  {
  }

  lemma TakeFirst(parts: seq<Part>, e: nat)
    requires 0 < e <= |parts|
    ensures parts[..e] == [parts[0]] + parts[1..][..e - 1] && parts[..e][1..] == parts[1..][..e - 1]
  {
  }

  // ----- What closing yields

  /** The part ends this one. */
  predicate EndsPart(part: Part, kind: Kind, id: string) {
    part.End? && part.kind == kind && part.id == id
  }

  predicate NothingEnds(parts: seq<Part>, kind: Kind, id: string) {
    forall j :: 0 <= j < |parts| ==> !EndsPart(parts[j], kind, id)
  }

  /** The parts of a kind that nothing ends later, in opening order. */
  function LeftOpen(parts: seq<Part>, kind: Kind): seq<string> {
    if parts == [] then []
    else if parts[0].Start? && parts[0].kind == kind && NothingEnds(parts[1..], kind, parts[0].id)
    then [parts[0].id] + LeftOpen(parts[1..], kind)
    else LeftOpen(parts[1..], kind)
  }

  lemma NothingEndsNext(parts: seq<Part>, last: Part, kind: Kind, id: string)
    ensures NothingEnds(parts + [last], kind, id) <==> NothingEnds(parts, kind, id) && !EndsPart(last, kind, id)
  {
    hide EndsPart;
    assert forall j :: 0 <= j < |parts| ==> (parts + [last])[j] == parts[j];
    assert (parts + [last])[|parts|] == last;
  }

  lemma WithoutFirst(first: string, rest: seq<string>, id: string)
    ensures Without([first] + rest, id) == (if first == id then [] else [first]) + Without(rest, id)
  {
    assert ([first] + rest)[1..] == rest;
  }

  /** What is left open after one more part. */
  function Reopened(open: seq<string>, last: Part, kind: Kind): seq<string> {
    if last.Start? && last.kind == kind then open + [last.id]
    else if last.End? && last.kind == kind then Without(open, last.id)
    else open
  }

  lemma ReopenedFirst(first: string, rest: seq<string>, last: Part, kind: Kind)
    ensures Reopened([first] + rest, last, kind) ==
      if EndsPart(last, kind, first) then Reopened(rest, last, kind) else [first] + Reopened(rest, last, kind)
  {
    if last.Start? {
      Cat2([first], rest, [last.id]);
    }
    if last.End? {
      WithoutFirst(first, rest, last.id);
      assert [] + Without(rest, last.id) == Without(rest, last.id);
    }
    hide Without;
  }

  lemma {:induction false} LeftOpenNext(parts: seq<Part>, last: Part, kind: Kind)
    ensures LeftOpen(parts + [last], kind) == Reopened(LeftOpen(parts, kind), last, kind)
    decreases |parts|
  {
    var all := parts + [last];
    if parts == [] {
      assert all == [last] && [last][1..] == [];
      assert LeftOpen([], kind) == [] && NothingEnds([], kind, "");
    } else {
      hide Reopened, EndsPart, NothingEnds;
      var rest := parts[1..];
      assert all[1..] == rest + [last] && all[0] == parts[0];
      LeftOpenNext(rest, last, kind);
      if parts[0].Start? {
        NothingEndsNext(rest, last, kind, parts[0].id);
        ReopenedFirst(parts[0].id, LeftOpen(rest, kind), last, kind);
      }
    }
  }

  /** What is listed after any parts is what they leave open. */
  lemma {:induction false} ListedIs(parts: seq<Part>, kind: Kind)
    ensures Listed(TrackAll(NOTHING, parts), kind) == LeftOpen(parts, kind)
    decreases |parts|
  {
    if parts != [] {
      var init, last := parts[..|parts| - 1], parts[|parts| - 1];
      SplitLast(parts);
      ListedIs(init, kind);
      TrackLast(NOTHING, init, last);
      LeftOpenNext(init, last, kind);
    }
  }

  lemma {:induction false} TrackLast(o: Opens, parts: seq<Part>, last: Part)
    ensures TrackAll(o, parts + [last]) == Track(TrackAll(o, parts), last)
    decreases |parts|
  {
    hide Track;
    if parts == [] {
      assert [] + [last] == [last] && [last][1..] == [];
    } else {
      assert (parts + [last])[1..] == parts[1..] + [last];
      TrackLast(Track(o, parts[0]), parts[1..], last);
    }
  }

  /** Closing after any parts ends the tool inputs left open, then the reasoning, then the texts, each in
      opening order, and nothing else. */
  lemma ClosingEnds(parts: seq<Part>, i: nat)
    ensures var c := Closing(TrackAll(NOTHING, parts));
      var tools, reasoning, texts := LeftOpen(parts, ToolInput), LeftOpen(parts, Reasoning), LeftOpen(parts, Text);
      && |c| == |tools| + |reasoning| + |texts|
      && (i < |tools| ==> c[i] == End(ToolInput, tools[i], ""))
      && (i < |reasoning| ==> c[|tools| + i] == End(Reasoning, reasoning[i], ""))
      && (i < |texts| ==> c[|tools| + |reasoning| + i] == End(Text, texts[i], ""))
  {
    ListedIs(parts, ToolInput);
    ListedIs(parts, Reasoning);
    ListedIs(parts, Text);
    hide LeftOpen, TrackAll;
  }

  // ----- The driver

  class Driver<M, C> {
    const logic: Machine<M, C>
    var chunks: seq<C>
    var machine: Option<M>
    var pending: seq<Part>
    var open: OpenParts

    /** Everything that the driver has still to yield. */
    ghost function Remaining(): seq<Part>
      reads this, open
    {
      match machine
      case None => pending
      case Some(m) => pending + CutAtError(open.State(), Produced(logic, m, chunks))
    }

    constructor (logic: Machine<M, C>, start: Part, chunks: seq<C>, m: M)
      ensures fresh(open) && Remaining() == [start] + CutAtError(NOTHING, Produced(logic, m, chunks))
    {
      this.logic := logic;
      this.chunks, machine, pending := chunks, Some(m), [start];
      open := new OpenParts();
    }

    /** Queues parts up to the first error, which ends the machine. */
    method Enqueue(parts: seq<Part>)
      modifies this`pending, this`machine, open
      ensures ErrorIndex(parts) < |parts| ==>
        pending == old(pending) + CutAtError(old(open.State()), parts) && machine == None
      ensures ErrorIndex(parts) == |parts| ==>
        pending == old(pending) + parts && machine == old(machine) && open.State() == TrackAll(old(open.State()), parts)
    {
      ghost var before := open.State();
      assert parts[0..] == parts;
      for i := 0 to |parts|
        invariant i <= ErrorIndex(parts) && machine == old(machine)
        invariant pending == old(pending) + parts[..i]
        invariant TrackAll(open.State(), parts[i..]) == TrackAll(before, parts)
        invariant CutAtError(before, parts) == parts[..i] + CutAtError(open.State(), parts[i..])
      {
        hide Track, Closing;
        var part := parts[i];
        assert parts[i..][0] == part && parts[i..][1..] == parts[i + 1..];
        assert parts[..i + 1] == parts[..i] + [part];
        Cat2(parts[..i], [part], CutAtError(Track(open.State(), part), parts[i + 1..]));
        Cat2(old(pending), parts[..i], [part]);
        if part.Error? {
          ghost var closing := Closing(open.State());
          Cat2(old(pending), parts[..i], closing + [part]);
          var closed := open.Close();
          pending := pending + closed;
          pending := pending + [part];
          Cat2(old(pending) + parts[..i], closing, [part]);
          machine := None;
          return;
        }
        open.ObservePart(part);
        pending := pending + [part];
      }
      assert parts[..|parts|] == parts;
    }

    /** How much the machine can still do. */
    function Left(): nat
      reads this
    {
      2 * |chunks| + if machine.Some? then 1 else 0
    }

    /** Lets the machine handle the next chunk, or finish. */
    method Advance()
      requires machine.Some?
      modifies this, open
      ensures open == old(open) && Remaining() == old(Remaining()) && Left() < old(Left())
    {
      var m := machine.value;
      ghost var o := open.State();
      hide Produced, CutAtError;
      if chunks != [] {
        var (next, parts) := logic.handle(m, chunks[0]);
        ProducedNext(logic, m, chunks);
        CutCat(o, parts, Produced(logic, next, chunks[1..]));
        Cat2(pending, parts, CutAtError(TrackAll(o, parts), Produced(logic, next, chunks[1..])));
        chunks := chunks[1..];
        machine := Some(next);
        Enqueue(parts);
      } else {
        ProducedLast(logic, m);
        machine := None;
        var parts := logic.finish(m);
        CutIs(o, parts);
        Enqueue(parts);
      }
    }

    /** The next part of the stream, if any. */
    method Next() returns (part: Option<Part>)
      modifies this, open
      ensures open == old(open)
      ensures old(Remaining()) == match part case Some(p) => [p] + Remaining() case None => []
    {
      while pending == []
        invariant open == old(open) && Remaining() == old(Remaining())
        decreases Left()
      {
        if machine.None? {
          return None;
        }
        Advance();
      }
      part := Some(pending[0]);
      ghost var rest := pending[1..];
      assert pending == [pending[0]] + rest;
      pending := pending[1..];
    }
  }

  lemma ProducedNext<M, C>(machine: Machine<M, C>, m: M, chunks: seq<C>)
    requires chunks != []
    ensures var (next, parts) := machine.handle(m, chunks[0]);
      Produced(machine, m, chunks) == parts + Produced(machine, next, chunks[1..])
  {
  }

  lemma ProducedLast<M, C>(machine: Machine<M, C>, m: M)
    ensures Produced(machine, m, []) == machine.finish(m)
  {
  }

  /** Drives a machine over all chunks. */
  method DriveStream<M, C>(start: Part, chunks: seq<C>, logic: Machine<M, C>, m: M) returns (parts: seq<Part>)
    ensures parts == [start] + CutAtError(NOTHING, Produced(logic, m, chunks))
  {
    var driver := new Driver(logic, start, chunks, m);
    parts := [];
    ghost var all := driver.Remaining();
    assert [] + all == all;
    while true
      invariant fresh(driver) && fresh(driver.open)
      invariant parts + driver.Remaining() == all
      decreases |driver.Remaining()|
    {
      ghost var before := driver.Remaining();
      var part := driver.Next();
      if part.None? {
        assert parts + [] == parts;
        return;
      }
      Cat2(parts, [part.value], driver.Remaining());
      parts := parts + [part.value];
    }
  }
}

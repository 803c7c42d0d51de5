/** The parts of tool calls that a provider delivers whole. */
module ToolCallStreaming {
  import opened Options
  import opened Sequences
  import opened StreamContract

  datatype Call = Call(id: string, name: string, input: string, providerExecuted: bool)

  function OpeningParts(call: Call): seq<Part> {
    [Start(ToolInput, call.id, call.name)] + if call.input == "" then [] else [Delta(ToolInput, call.id, call.input)]
  }

  function CallParts(call: Call, isFirst: bool): seq<Part> {
    (if isFirst then OpeningParts(call) else [])
    + [End(ToolInput, call.id, ""), ToolCall(call.id, call.name, call.input, call.providerExecuted)]
  }

  /** The parts of the calls, in order, given the calls that started before. */
  function AllParts(started: set<string>, calls: seq<Call>): seq<Part>
    decreases |calls|
  {
    if calls == [] then []
    else CallParts(calls[0], calls[0].id !in started) + AllParts(started + {calls[0].id}, calls[1..])
  }

  class StreamingToolCallTracker {
    var started: set<string>

    constructor ()
      ensures started == {}
    {
      started := {};
    }

    /** Marks a call as started and tells whether that is new. */
    method Begin(id: string) returns (isFirst: bool)
      modifies this
      ensures isFirst <==> id !in old(started)
      ensures started == old(started) + {id}
    {
      isFirst := id !in started;
      started := started + {id};
    }

    /** The parts a whole call needs. */
    method PartsForCompleteCall(call: Call) returns (parts: seq<Part>)
      modifies this
      ensures parts == CallParts(call, call.id !in old(started))
      ensures started == old(started) + {call.id}
    {
      parts := [];
      var isFirst := Begin(call.id);
      if isFirst {
        parts := parts + [Start(ToolInput, call.id, call.name)];
        if call.input != "" {
          parts := parts + [Delta(ToolInput, call.id, call.input)];
        }
      }
      parts := parts + [End(ToolInput, call.id, "")];
      parts := parts + [ToolCall(call.id, call.name, call.input, call.providerExecuted)];
    }
  }

  predicate DistinctIds(calls: seq<Call>) {
    forall i, j :: 0 <= i < j < |calls| ==> calls[i].id != calls[j].id
  }

  /** Ready for another call: running, with no tool input open and the seen ones known. */
  predicate Ready(c: Checker, started: set<string>) {
    c.violations == [] && c.index > 0 && !c.terminated && c.openToolInputs == {} && c.seenToolInputs == started
  }

  lemma ObserveCons(c: Checker, part: Part, rest: seq<Part>)
    ensures ObserveAll(c, [part] + rest) == ObserveAll(Observe(c, part), rest)
  {
    assert ([part] + rest)[1..] == rest;
  }

  lemma OpeningObserved(c: Checker, started: set<string>, call: Call)
    requires Ready(c, started) && call.id !in started
    ensures var next := ObserveAll(c, OpeningParts(call));
      && next.violations == [] && next.index > 0 && !next.terminated
      && next.openToolInputs == {call.id} && next.seenToolInputs == started + {call.id}
      && next.openText == c.openText && next.openReasoning == c.openReasoning
  {
    var start, delta := Start(ToolInput, call.id, call.name), Delta(ToolInput, call.id, call.input);
    var begun := Observe(c, start);
    ObserveAdds(c, start);
    ObserveAdds(begun, delta);
    ObserveOne(c, start);
    ObserveCons(c, start, [delta]);
    ObserveOne(begun, delta);
    hide ObserveAll;
    assert call.input == "" ==> OpeningParts(call) == [start];
  }

  lemma FirstCall(c: Checker, started: set<string>, call: Call)
    requires Ready(c, started) && call.id !in started
    ensures var next := ObserveAll(c, CallParts(call, true));
      Ready(next, started + {call.id}) && next.openText == c.openText && next.openReasoning == c.openReasoning
  {
    var end, tool := End(ToolInput, call.id, ""), ToolCall(call.id, call.name, call.input, call.providerExecuted);
    OpeningObserved(c, started, call);
    ObserveCat(c, OpeningParts(call), [end, tool]);
    var fed := ObserveAll(c, OpeningParts(call));
    assert [end, tool] == [end] + [tool];
    ObserveCons(fed, end, [tool]);
    ObserveOne(Observe(fed, end), tool);
    ObserveAdds(fed, end);
    ObserveAdds(Observe(fed, end), tool);
    hide ObserveAll, OpeningParts;
  }

  lemma RepeatedCall(c: Checker, started: set<string>, call: Call)
    requires Ready(c, started)
    ensures ObserveAll(c, CallParts(call, false)).violations != []
  {
    var end, tool := End(ToolInput, call.id, ""), ToolCall(call.id, call.name, call.input, call.providerExecuted);
    assert CallParts(call, false) == [end] + [tool];
    ObserveCons(c, end, [tool]);
    ViolationsGrow(Observe(c, end), [tool]);
    ObserveAdds(c, end);
  }

  lemma {:induction false} CallsObserved(c: Checker, started: set<string>, calls: seq<Call>)
    requires Ready(c, started)
    ensures var next := ObserveAll(c, AllParts(started, calls));
      if DistinctIds(calls) && forall i :: 0 <= i < |calls| ==> calls[i].id !in started
      then Ready(next, next.seenToolInputs) && next.openText == c.openText && next.openReasoning == c.openReasoning
      else next.violations != []
    decreases |calls|
  {
    if calls != [] {
      var call, rest := calls[0], calls[1..];
      var parts, later := CallParts(call, call.id !in started), AllParts(started + {call.id}, rest);
      ObserveCat(c, parts, later);
      ViolationsGrow(ObserveAll(c, parts), later);
      hide ObserveAll, CallParts;
      if call.id !in started {
        FirstCall(c, started, call);
        CallsObserved(ObserveAll(c, parts), started + {call.id}, rest);
        DistinctFirst(calls, started);
      } else {
        RepeatedCall(c, started, call);
      }
    }
  }

  lemma DistinctFirst(calls: seq<Call>, started: set<string>)
    requires calls != [] && calls[0].id !in started
    ensures (DistinctIds(calls) && forall i :: 0 <= i < |calls| ==> calls[i].id !in started) <==>
      DistinctIds(calls[1..]) && forall i :: 0 <= i < |calls| - 1 ==> calls[1..][i].id !in started + {calls[0].id}
  {
    var rest := calls[1..];
    assert forall i :: 0 < i < |calls| ==> calls[i] == rest[i - 1];
    if DistinctIds(rest) && forall i :: 0 <= i < |rest| ==> rest[i].id !in started + {calls[0].id} {
      forall i, j | 0 <= i < j < |calls|
        ensures calls[i].id != calls[j].id
      {
        assert calls[j] == rest[j - 1];
      }
      forall i | 0 <= i < |calls|
        ensures calls[i].id !in started
      {
        assert i > 0 ==> calls[i] == rest[i - 1];
      }
    }
    if DistinctIds(calls) && forall i :: 0 <= i < |calls| ==> calls[i].id !in started {
      forall i | 0 <= i < |rest|
        ensures rest[i].id !in started + {calls[0].id}
      {
        assert rest[i] == calls[i + 1];
      }
    }
  }

  /** Whole calls between a start and a finish meet the contract exactly when no two of them
      share an identifier. */
  lemma WholeCallsConform(calls: seq<Call>, start: Part, finish: Part)
    requires start.StreamStart? && finish.Finish?
    ensures Conforming([start] + AllParts({}, calls) + [finish]) <==> DistinctIds(calls)
  {
    var parts := AllParts({}, calls);
    var first := Observe(FRESH, start);
    CheckerDecides([start] + parts + [finish]);
    ObserveCat(FRESH, [start] + parts, [finish]);
    ObserveCat(FRESH, [start], parts);
    ObserveOne(FRESH, start);
    assert Ready(first, {}) && first.openText == {} && first.openReasoning == {};
    CallsObserved(first, {}, calls);
    var last := ObserveAll(first, parts);
    ObserveOne(last, finish);
    ViolationsGrow(last, [finish]);
    hide ObserveAll;
    ObserveAdds(last, finish);
  }

  /** Asks a fresh tracker for the parts of one call after the other. */
  method StreamCalls(calls: seq<Call>) returns (parts: seq<Part>)
    ensures parts == AllParts({}, calls)
  {
    var tracker := new StreamingToolCallTracker();
    parts := [];
    assert calls[0..] == calls && [] + AllParts({}, calls) == AllParts({}, calls);
    for i := 0 to |calls|
      invariant parts + AllParts(tracker.started, calls[i..]) == AllParts({}, calls)
    {
      assert calls[i..][1..] == calls[i + 1..];
      ghost var before := tracker.started;
      var more := tracker.PartsForCompleteCall(calls[i]);
      Cat2(parts, more, AllParts(tracker.started, calls[i + 1..]));
      parts := parts + more;
    }
    assert parts + [] == parts;
  }

  // ----- The parts hold the calls

  /** The calls that parts report. */
  function CallsOf(parts: seq<Part>): seq<Call> {
    if parts == [] then []
    else
      match parts[0]
      case ToolCall(id, name, input,
        providerExecuted) => [Call(id, name, input, providerExecuted)] + CallsOf(parts[1..])
      case _ => CallsOf(parts[1..])
  }

  /** The input that the deltas of a tool input add up to. */
  function StreamedInput(parts: seq<Part>, id: string): string {
    if parts == [] then ""
    else
      match parts[0]
      case Delta(ToolInput, other, text) => (if other == id then text else "") + StreamedInput(parts[1..], id)
      case _ => StreamedInput(parts[1..], id)
  }

  /** The names under which a tool input starts. */
  function StartedAs(parts: seq<Part>, id: string): seq<string> {
    if parts == [] then []
    else
      match parts[0]
      case Start(ToolInput, other, name) => (if other == id then [name] else []) + StartedAs(parts[1..], id)
      case _ => StartedAs(parts[1..], id)
  }

  lemma PartsFirst(first: Part, rest: seq<Part>, id: string)
    ensures CallsOf([first] + rest) == CallsOf([first]) + CallsOf(rest)
    ensures StreamedInput([first] + rest, id) == StreamedInput([first], id) + StreamedInput(rest, id)
    ensures StartedAs([first] + rest, id) == StartedAs([first], id) + StartedAs(rest, id)
  {
    assert ([first] + rest)[1..] == rest && [first][1..] == [];
  }

  lemma {:induction false} PartsCat(a: seq<Part>, b: seq<Part>, id: string)
    ensures CallsOf(a + b) == CallsOf(a) + CallsOf(b)
    ensures StreamedInput(a + b, id) == StreamedInput(a, id) + StreamedInput(b, id)
    ensures StartedAs(a + b, id) == StartedAs(a, id) + StartedAs(b, id)
  {
    if a == [] {
      assert a + b == b;
    } else {
      hide *;
      var rest := a[1..];
      assert a == [a[0]] + rest && a + b == [a[0]] + (rest + b);
      PartsFirst(a[0], rest, id);
      PartsFirst(a[0], rest + b, id);
      PartsCat(rest, b, id);
      Cat2(CallsOf([a[0]]), CallsOf(rest), CallsOf(b));
      Cat2(StreamedInput([a[0]], id), StreamedInput(rest, id), StreamedInput(b, id));
      Cat2(StartedAs([a[0]], id), StartedAs(rest, id), StartedAs(b, id));
    }
  }

  lemma OneCall(call: Call, isFirst: bool, id: string)
    ensures var parts := CallParts(call, isFirst);
      && CallsOf(parts) == [call]
      && StreamedInput(parts, id) == (if isFirst && call.id == id then call.input else "")
      && StartedAs(parts, id) == (if isFirst && call.id == id then [call.name] else [])
  {
    var opening := if isFirst then OpeningParts(call) else [];
    var end := [End(ToolInput, call.id, "")];
    var report := [ToolCall(call.id, call.name, call.input, call.providerExecuted)];
    assert CallParts(call, isFirst) == opening + (end + report);
    PartsCat(opening, end + report, id);
    PartsCat(end, report, id);
    assert end[1..] == [] && report[1..] == [];
    if isFirst {
      var start, rest := [Start(ToolInput, call.id, call.name)], opening[1..];
      assert opening == start + rest && start[1..] == [];
      PartsCat(start, rest, id);
      assert rest == if call.input == "" then [] else [Delta(ToolInput, call.id, call.input)];
    }
  }

  /** The first of the calls with an identifier. */
  function FirstOf(calls: seq<Call>, id: string): Option<Call> {
    if calls == [] then None else if calls[0].id == id then Some(calls[0]) else FirstOf(calls[1..], id)
  }

  lemma {:induction false} PartsHold(started: set<string>, calls: seq<Call>, id: string)
    ensures var parts := AllParts(started, calls);
      var first := if id in started then None else FirstOf(calls, id);
      && CallsOf(parts) == calls
      && StreamedInput(parts, id) == (if first.Some? then first.value.input else "")
      && StartedAs(parts, id) == (if first.Some? then [first.value.name] else [])
    decreases |calls|
  {
    if calls != [] {
      var isFirst := calls[0].id !in started;
      OneCall(calls[0], isFirst, id);
      PartsHold(started + {calls[0].id}, calls[1..], id);
      PartsCat(CallParts(calls[0], isFirst), AllParts(started + {calls[0].id}, calls[1..]), id);
      hide CallParts;
    }
  }

  /** The parts of calls report exactly these calls, in order, and stream the name and the input of the
      first call with each identifier, once. */
  lemma PartsHoldCalls(calls: seq<Call>, id: string)
    ensures var parts := AllParts({}, calls); var first := FirstOf(calls, id);
      && CallsOf(parts) == calls
      && StreamedInput(parts, id) == (if first.Some? then first.value.input else "")
      && StartedAs(parts, id) == (if first.Some? then [first.value.name] else [])
  {
    PartsHold({}, calls, id);
  }
}

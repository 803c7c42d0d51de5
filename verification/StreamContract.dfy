/** The contract of a language-model stream, stated over its parts by position, and the
    incremental checker that decides it. */
module StreamContract {

  datatype Kind = Text | Reasoning | ToolInput

  /** `payload` stands for everything about a part that the contract does not look at. */
  datatype Part =
    | StreamStart(payload: string)
    | Start(kind: Kind, id: string, payload: string)
    | Delta(kind: Kind, id: string, payload: string)
    | End(kind: Kind, id: string, payload: string)
    | ToolCall(id: string, name: string, input: string, providerExecuted: bool)
    | Other(payload: string)
    | Finish(payload: string)
    | Error(payload: string)

  predicate IsTerminal(part: Part) {
    part.Finish? || part.Error?
  }

  predicate IsStart(part: Part, kind: Kind, id: string) {
    part.Start? && part.kind == kind && part.id == id
  }

  predicate IsEnd(part: Part, kind: Kind, id: string) {
    part.End? && part.kind == kind && part.id == id
  }

  /** Text and reasoning parts share their identifiers; tool inputs have their own. */
  predicate SharesIds(a: Kind, b: Kind) {
    a == b || (a != ToolInput && b != ToolInput)
  }

  // ----- The contract

  /** The part was started before `i` and has not ended since. */
  ghost predicate OpenAt(parts: seq<Part>, i: nat, kind: Kind, id: string)
    requires i <= |parts|
  {
    exists j :: 0 <= j < i && IsStart(parts[j], kind, id) && forall k :: j < k < i ==> !IsEnd(parts[k], kind, id)
  }

  ghost predicate StartedBefore(parts: seq<Part>, i: nat, kind: Kind, id: string)
    requires i <= |parts|
  {
    exists j :: 0 <= j < i && parts[j].Start? && SharesIds(parts[j].kind, kind) && parts[j].id == id
  }

  /** Part `i` respects what came before it. */
  ghost predicate Respects(parts: seq<Part>, i: nat)
    requires i < |parts|
  {
    && (parts[i].StreamStart? <==> i == 0)
    && (forall j :: 0 <= j < i ==> !IsTerminal(parts[j]))
    && (parts[i].Start? ==> !StartedBefore(parts, i, parts[i].kind, parts[i].id))
    && (parts[i].Delta? || parts[i].End? ==> OpenAt(parts, i, parts[i].kind, parts[i].id))
  }

  /** A stream that respects the contract so far. */
  ghost predicate Respectful(parts: seq<Part>) {
    forall i :: 0 <= i < |parts| ==> Respects(parts, i)
  }

  ghost predicate Terminated(parts: seq<Part>) {
    exists i :: 0 <= i < |parts| && IsTerminal(parts[i])
  }

  ghost predicate NothingOpen(parts: seq<Part>) {
    forall kind, id :: !OpenAt(parts, |parts|, kind, id)
  }

  /** A whole stream that meets the contract. */
  ghost predicate Conforming(parts: seq<Part>) {
    Respectful(parts) && Terminated(parts) && NothingOpen(parts)
  }

  // ----- The checker's state

  datatype Rule =
    | MustStart
    | AfterTerminal
    | DuplicateStreamStart
    | StartedTwice(kind: Kind, id: string)
    | DeltaForClosed(kind: Kind, id: string)
    | EndForClosed(kind: Kind, id: string)
    | EmptyStream
    | NotTerminated
    | NeverEnded(kind: Kind, id: string)

  datatype Violation = Violation(index: nat, rule: Rule)

  datatype Checker = Checker(
    index: nat, started: bool, terminated: bool, seenParts: set<string>, seenToolInputs: set<string>,
    openText: set<string>, openReasoning: set<string>, openToolInputs: set<string>, violations: seq<Violation>)

  const FRESH: Checker := Checker(0, false, false, {}, {}, {}, {}, {}, [])

  function Seen(c: Checker, kind: Kind): set<string> {
    if kind == ToolInput then c.seenToolInputs else c.seenParts
  }

  function Open(c: Checker, kind: Kind): set<string> {
    match kind
    case Text => c.openText
    case Reasoning => c.openReasoning
    case ToolInput => c.openToolInputs
  }

  function WithSeen(c: Checker, kind: Kind, id: string): Checker {
    if kind == ToolInput then c.(seenToolInputs := c.seenToolInputs + {id}) else c.(seenParts := c.seenParts + {id})
  }

  function WithOpen(c: Checker, kind: Kind, open: set<string>): Checker {
    match kind
    case Text => c.(openText := open)
    case Reasoning => c.(openReasoning := open)
    case ToolInput => c.(openToolInputs := open)
  }

  function When(condition: bool, index: nat, rule: Rule): seq<Violation> {
    if condition then [Violation(index, rule)] else []
  }

  /** The state after reporting a part that may not stand where it does. */
  function Placed(c: Checker, part: Part): Checker {
    c.(violations := c.violations + When(c.index == 0 && !part.StreamStart?, c.index, MustStart)
                     + When(c.terminated, c.index, AfterTerminal))
  }

  function Begun(c: Checker, kind: Kind, id: string): Checker {
    WithSeen(WithOpen(c, kind, Open(c, kind) + {id}), kind, id)
    .(violations := c.violations + When(id in Seen(c, kind), c.index, StartedTwice(kind, id)))
  }

  function Closed(c: Checker, kind: Kind, id: string): Checker {
    WithOpen(c, kind, Open(c, kind) - {id})
    .(violations := c.violations + When(id !in Open(c, kind), c.index, EndForClosed(kind, id)))
  }

  /** The state after the bookkeeping of one part. */
  function Tracked(c: Checker, part: Part): Checker {
    match part
    case StreamStart(_) =>
      c.(started := true, violations := c.violations + When(c.started, c.index, DuplicateStreamStart))
    case Start(kind, id, _) => Begun(c, kind, id)
    case Delta(kind, id, _) =>
      c.(violations := c.violations + When(id !in Open(c, kind), c.index, DeltaForClosed(kind, id)))
    case End(kind, id, _) => Closed(c, kind, id)
    case Finish(_) => c.(terminated := true)
    case Error(_) => c.(terminated := true)
    case _ => c
  }

  function Observe(c: Checker, part: Part): Checker {
    Tracked(Placed(c, part), part).(index := c.index + 1)
  }

  /** Whether a part adds no violation. */
  predicate AddsNone(c: Checker, part: Part) {
    && (c.index == 0 ==> part.StreamStart?) && !c.terminated
    && match part
       case StreamStart(_) => !c.started
       case Start(kind, id, _) => id !in Seen(c, kind)
       case Delta(kind, id, _) => id in Open(c, kind)
       case End(kind, id, _) => id in Open(c, kind)
       case _ => true
  }

  lemma ObserveAdds(c: Checker, part: Part)
    ensures c.violations <= Observe(c, part).violations
    ensures Observe(c, part).violations == c.violations <==> AddsNone(c, part)
  {
  }

  function ObserveAll(c: Checker, parts: seq<Part>): Checker
    decreases |parts|
  {
    if parts == [] then c else ObserveAll(Observe(c, parts[0]), parts[1..])
  }

  /** The checker accepts the whole stream. */
  predicate Passes(parts: seq<Part>) {
    var c := ObserveAll(FRESH, parts);
    && c.violations == [] && c.index > 0 && c.terminated
    && c.openText == {} && c.openReasoning == {} && c.openToolInputs == {}
  }

  lemma {:induction false} ObserveCat(c: Checker, a: seq<Part>, b: seq<Part>)
    ensures ObserveAll(c, a + b) == ObserveAll(ObserveAll(c, a), b)
    decreases |a|
  {
    hide Observe;
    if a == [] {
      assert a + b == b;
    } else {
      assert (a + b)[1..] == a[1..] + b;
      ObserveCat(Observe(c, a[0]), a[1..], b);
    }
  }

  lemma ObserveOne(c: Checker, part: Part)
    ensures ObserveAll(c, [part]) == Observe(c, part)
  {
    assert [part][1..] == [];
  }

  /** Violations are only ever added. */
  lemma {:induction false} ViolationsGrow(c: Checker, parts: seq<Part>)
    ensures c.violations <= ObserveAll(c, parts).violations
    ensures c.terminated && parts != [] ==> ObserveAll(c, parts).violations != []
    decreases |parts|
  {
    if parts != [] {
      var next := Observe(c, parts[0]);
      ObserveAdds(c, parts[0]);
      ViolationsGrow(next, parts[1..]);
    }
  }

  // ----- The checker decides the contract

  lemma OpenGrows(parts: seq<Part>, part: Part, kind: Kind, id: string)
    ensures OpenAt(parts + [part], |parts| + 1, kind, id) <==>
      IsStart(part, kind, id) || (OpenAt(parts, |parts|, kind, id) && !IsEnd(part, kind, id))
  {
    var all, n := parts + [part], |parts|;
    if IsStart(part, kind, id) {
      assert IsStart(all[n], kind, id);
    } else if OpenAt(parts, n, kind, id) && !IsEnd(part, kind, id) {
      var j :| 0 <= j < n && IsStart(parts[j], kind, id) && forall k :: j < k < n ==> !IsEnd(parts[k], kind, id);
      assert IsStart(all[j], kind, id);
    }
    if OpenAt(all, n + 1, kind, id) && !IsStart(part, kind, id) {
      var j :| 0 <= j < n + 1 && IsStart(all[j], kind, id) && forall k :: j < k < n + 1 ==> !IsEnd(all[k], kind, id);
      assert j < n && !IsEnd(all[n], kind, id);
      assert IsStart(parts[j], kind, id) && forall k :: j < k < n ==> parts[k] == all[k];
    }
  }

  lemma OpenBefore(parts: seq<Part>, part: Part, i: nat, kind: Kind, id: string)
    requires i <= |parts|
    ensures OpenAt(parts + [part], i, kind, id) <==> OpenAt(parts, i, kind, id)
  {
    var all := parts + [part];
    assert forall k :: 0 <= k < |parts| ==> all[k] == parts[k];
  }

  lemma StartedGrows(parts: seq<Part>, part: Part, kind: Kind, id: string)
    ensures StartedBefore(parts + [part], |parts| + 1, kind, id) <==>
      StartedBefore(parts, |parts|, kind, id) || (part.Start? && SharesIds(part.kind, kind) && part.id == id)
  {
    var all, n := parts + [part], |parts|;
    assert forall k :: 0 <= k < n ==> all[k] == parts[k];
    assert all[n] == part;
  }

  lemma RespectsBefore(parts: seq<Part>, part: Part, i: nat)
    requires i < |parts|
    ensures Respects(parts + [part], i) <==> Respects(parts, i)
  {
    var all := parts + [part];
    assert forall k :: 0 <= k < |parts| ==> all[k] == parts[k];
    if parts[i].Delta? || parts[i].End? {
      OpenBefore(parts, part, i, parts[i].kind, parts[i].id);
    }
  }

  lemma RespectfulGrows(parts: seq<Part>, part: Part)
    ensures Respectful(parts + [part]) <==> Respectful(parts) && Respects(parts + [part], |parts|)
  {
    var all := parts + [part];
    hide Respects;
    forall i | 0 <= i < |parts|
      ensures Respects(all, i) <==> Respects(parts, i)
    {
      RespectsBefore(parts, part, i);
    }
  }

  /** What the checker's state says about the parts observed. */
  ghost predicate Tracks(c: Checker, parts: seq<Part>) {
    && c.index == |parts|
    && (c.started <==> exists i :: 0 <= i < |parts| && parts[i].StreamStart?)
    && (c.terminated <==> Terminated(parts))
    && (forall kind, id :: id in Seen(c, kind) <==> StartedBefore(parts, |parts|, kind, id))
    && (forall kind, id :: id in Open(c, kind) <==> OpenAt(parts, |parts|, kind, id))
    && (c.violations == [] <==> Respectful(parts))
  }

  lemma {:induction false} CheckerTracks(parts: seq<Part>)
    ensures Tracks(ObserveAll(FRESH, parts), parts)
    decreases |parts|
  {
    if parts != [] {
      var init, last := parts[..|parts| - 1], parts[|parts| - 1];
      assert parts == init + [last];
      CheckerTracks(init);
      ObserveCat(FRESH, init, [last]);
      ObserveOne(ObserveAll(FRESH, init), last);
      TracksGrow(ObserveAll(FRESH, init), init, last);
    }
  }

  lemma SeenGrows(c: Checker, parts: seq<Part>, part: Part, kind: Kind, id: string)
    requires id in Seen(c, kind) <==> StartedBefore(parts, |parts|, kind, id)
    ensures id in Seen(Observe(c, part), kind) <==> StartedBefore(parts + [part], |parts| + 1, kind, id)
  {
    StartedGrows(parts, part, kind, id);
    hide StartedBefore, When;
  }

  lemma OpenSetGrows(c: Checker, parts: seq<Part>, part: Part, kind: Kind, id: string)
    requires id in Open(c, kind) <==> OpenAt(parts, |parts|, kind, id)
    ensures id in Open(Observe(c, part), kind) <==> OpenAt(parts + [part], |parts| + 1, kind, id)
  {
    OpenGrows(parts, part, kind, id);
    hide OpenAt, When;
  }

  lemma FlagsGrow(c: Checker, parts: seq<Part>, part: Part)
    requires c.index == |parts| && (c.terminated <==> Terminated(parts))
    requires c.started <==> exists i :: 0 <= i < |parts| && parts[i].StreamStart?
    ensures var next, all := Observe(c, part), parts + [part];
      && next.index == |all| && (next.terminated <==> Terminated(all))
      && (next.started <==> exists i :: 0 <= i < |all| && all[i].StreamStart?)
  {
    var all := parts + [part];
    assert forall k :: 0 <= k < |parts| ==> all[k] == parts[k];
    assert all[|parts|] == part;
    hide When;
  }

  lemma TracksGrow(c: Checker, parts: seq<Part>, part: Part)
    requires Tracks(c, parts)
    ensures Tracks(Observe(c, part), parts + [part])
  {
    var next, all := Observe(c, part), parts + [part];
    FlagsGrow(c, parts, part);
    NoViolation(c, parts, part);
    hide Respectful, Observe, StartedBefore, OpenAt, Terminated, Seen, Open;
    forall kind, id
      ensures id in Seen(next, kind) <==> StartedBefore(all, |all|, kind, id)
    {
      SeenGrows(c, parts, part, kind, id);
    }
    forall kind, id
      ensures id in Open(next, kind) <==> OpenAt(all, |all|, kind, id)
    {
      OpenSetGrows(c, parts, part, kind, id);
    }
  }

  lemma NoViolation(c: Checker, parts: seq<Part>, part: Part)
    requires Tracks(c, parts)
    ensures Observe(c, part).violations == [] <==> Respectful(parts + [part])
  {
    RespectfulGrows(parts, part);
    ObserveAdds(c, part);
    hide Observe;
    if Respectful(parts) {
      assert |parts| > 0 ==> Respects(parts, 0);
      hide Respectful;
      PartRespects(c, parts, part);
    }
  }

  lemma PartRespects(c: Checker, parts: seq<Part>, part: Part)
    requires Tracks(c, parts) && (c.started <==> |parts| > 0)
    ensures AddsNone(c, part) <==> Respects(parts + [part], |parts|)
  {
    var all, n := parts + [part], |parts|;
    assert forall k :: 0 <= k < |parts| ==> all[k] == parts[k];
    assert all[n] == part;
    hide Respectful, OpenAt;
    assert Terminated(parts) <==> !(forall j :: 0 <= j < n ==> !IsTerminal(all[j]));
    if part.Delta? || part.End? {
      OpenBefore(parts, part, n, part.kind, part.id);
    }
    assert part.Start? ==> (StartedBefore(all, n, part.kind, part.id) <==> StartedBefore(parts, n, part.kind, part.id));
  }

  /** The checker accepts exactly the streams that meet the contract. */
  lemma CheckerDecides(parts: seq<Part>)
    ensures Passes(parts) <==> Conforming(parts)
  {
    CheckerTracks(parts);
    var c := ObserveAll(FRESH, parts);
    hide ObserveAll, Respectful, OpenAt, StartedBefore;
    if Passes(parts) {
      forall kind, id
        ensures !OpenAt(parts, |parts|, kind, id)
      {
        assert id !in Open(c, kind);
      }
    }
    if Conforming(parts) {
      forall kind
        ensures Open(c, kind) == {}
      {
        forall id
          ensures id !in Open(c, kind)
        {
        }
      }
      assert Open(c, Text) == {} && Open(c, Reasoning) == {} && Open(c, ToolInput) == {};
    }
  }

  // ----- What the checker reports

  /** The rule that part `i` breaks, given what came before it. */
  ghost predicate Breaks(parts: seq<Part>, i: nat, rule: Rule)
    requires i < |parts|
  {
    match rule
    case MustStart => i == 0 && !parts[i].StreamStart?
    case AfterTerminal => exists j :: 0 <= j < i && (parts[j].Finish? || parts[j].Error?)
    case DuplicateStreamStart => parts[i].StreamStart? && exists j :: 0 <= j < i && parts[j].StreamStart?
    case StartedTwice(kind, id) => IsStart(parts[i], kind, id) && StartedBefore(parts, i, kind, id)
    case DeltaForClosed(kind, id) =>
      parts[i].Delta? && parts[i].kind == kind && parts[i].id == id && !OpenAt(parts, i, kind, id)
    case EndForClosed(kind, id) => IsEnd(parts[i], kind, id) && !OpenAt(parts, i, kind, id)
    case _ => false
  }

  /** The checker finds that the part breaks the rule. */
  predicate Finds(c: Checker, part: Part, rule: Rule) {
    match rule
    case MustStart => c.index == 0 && !part.StreamStart?
    case AfterTerminal => c.terminated
    case DuplicateStreamStart => part.StreamStart? && c.started
    case StartedTwice(kind, id) => IsStart(part, kind, id) && id in Seen(c, kind)
    case DeltaForClosed(kind, id) => part.Delta? && part.kind == kind && part.id == id && id !in Open(c, kind)
    case EndForClosed(kind, id) => IsEnd(part, kind, id) && id !in Open(c, kind)
    case _ => false
  }

  lemma WhenIs(condition: bool, index: nat, rule: Rule, v: Violation)
    ensures v in When(condition, index, rule) <==> condition && v == Violation(index, rule)
  {
  }

  lemma PlacedReports(c: Checker, part: Part, v: Violation)
    ensures v in Placed(c, part).violations <==>
      || v in c.violations
      || (v.index == c.index && Finds(c, part, v.rule) && (v.rule == MustStart || v.rule == AfterTerminal))
  {
    WhenIs(c.index == 0 && !part.StreamStart?, c.index, MustStart, v);
    WhenIs(c.terminated, c.index, AfterTerminal, v);
    hide When;
  }

  lemma ObserveReports(c: Checker, part: Part, v: Violation)
    ensures v in Observe(c, part).violations <==>
      v in c.violations || (v.index == c.index && Finds(c, part, v.rule))
  {
    PlacedReports(c, part, v);
    match part
    case StreamStart(_) => WhenIs(c.started, c.index, DuplicateStreamStart, v);
    case Start(kind, id, _) => WhenIs(id in Seen(c, kind), c.index, StartedTwice(kind, id), v);
    case Delta(kind, id, _) => WhenIs(id !in Open(c, kind), c.index, DeltaForClosed(kind, id), v);
    case End(kind, id, _) => WhenIs(id !in Open(c, kind), c.index, EndForClosed(kind, id), v);
    case _ =>
  }

  lemma FindsBreaks(c: Checker, parts: seq<Part>, part: Part, rule: Rule)
    requires Tracks(c, parts)
    ensures Finds(c, part, rule) <==> Breaks(parts + [part], |parts|, rule)
  {
    var all, n := parts + [part], |parts|;
    assert all[n] == part && forall k :: 0 <= k < n ==> all[k] == parts[k];
    match rule
    case StartedTwice(kind, id) =>
      assert StartedBefore(all, n, kind, id) <==> StartedBefore(parts, n, kind, id);
    case DeltaForClosed(kind, id) => OpenBefore(parts, part, n, kind, id);
    case EndForClosed(kind, id) => OpenBefore(parts, part, n, kind, id);
    case _ =>
      hide Respectful, OpenAt, StartedBefore, Seen, Open;
  }

  lemma BreaksBefore(parts: seq<Part>, part: Part, i: nat, rule: Rule)
    requires i < |parts|
    ensures Breaks(parts + [part], i, rule) <==> Breaks(parts, i, rule)
  {
    var all := parts + [part];
    assert forall k :: 0 <= k < |parts| ==> all[k] == parts[k];
    match rule
    case StartedTwice(kind, id) =>
      assert StartedBefore(all, i, kind, id) <==> StartedBefore(parts, i, kind, id);
    case DeltaForClosed(kind, id) => OpenBefore(parts, part, i, kind, id);
    case EndForClosed(kind, id) => OpenBefore(parts, part, i, kind, id);
    case _ =>
  }

  /** While observing, the checker reports exactly the rules that parts break, each with the position of
      the part. */
  lemma {:induction false} ViolationsAre(parts: seq<Part>, v: Violation)
    ensures v in ObserveAll(FRESH, parts).violations <==> v.index < |parts| && Breaks(parts, v.index, v.rule)
    decreases |parts|
  {
    if parts != [] {
      var init, last := parts[..|parts| - 1], parts[|parts| - 1];
      assert parts == init + [last];
      hide *;
      ViolationsAre(init, v);
      CheckerTracks(init);
      ObserveCat(FRESH, init, [last]);
      ObserveOne(ObserveAll(FRESH, init), last);
      ObserveReports(ObserveAll(FRESH, init), last, v);
      FindsBreaks(ObserveAll(FRESH, init), init, last, v.rule);
      if v.index < |init| {
        BreaksBefore(init, last, v.index, v.rule);
      }
      TracksIndex(ObserveAll(FRESH, init), init);
    }
  }

  lemma TracksIndex(c: Checker, parts: seq<Part>)
    requires Tracks(c, parts)
    ensures c.index == |parts|
  {
  }

  /** What finishing adds to the violations. */
  predicate FinishFinds(c: Checker, rule: Rule) {
    match rule
    case EmptyStream => c.index == 0
    case NotTerminated => c.index > 0 && !c.terminated
    case NeverEnded(kind, id) => id in Open(c, kind)
    case _ => false
  }

  /** What a whole stream breaks when it ends. */
  ghost predicate BreaksAtEnd(parts: seq<Part>, rule: Rule) {
    match rule
    case EmptyStream => parts == []
    case NotTerminated => parts != [] && forall i :: 0 <= i < |parts| ==> !parts[i].Finish? && !parts[i].Error?
    case NeverEnded(kind, id) => OpenAt(parts, |parts|, kind, id)
    case _ => false
  }

  /** The part at its position, or the end of the stream, breaks the rule. */
  ghost predicate IsViolation(parts: seq<Part>, v: Violation) {
    if v.index < |parts| then Breaks(parts, v.index, v.rule) else v.index == |parts| && BreaksAtEnd(parts, v.rule)
  }

  lemma FinishBreaks(parts: seq<Part>, rule: Rule)
    ensures FinishFinds(ObserveAll(FRESH, parts), rule) <==> BreaksAtEnd(parts, rule)
  {
    CheckerTracks(parts);
    hide ObserveAll, OpenAt, Open, Seen, StartedBefore, Respectful;
  }

  /** The reports of the parts of a kind left open follow those before. */
  ghost predicate ReportsOpen(c: Checker, kind: Kind, before: seq<Violation>, after: seq<Violation>) {
    && before <= after
    && forall v :: v in after[|before|..] <==>
      exists id :: id in Open(c, kind) && v == Violation(c.index, NeverEnded(kind, id))
  }

  lemma OneReported(c: Checker, kind: Kind, before: seq<Violation>, after: seq<Violation>, v: Violation)
    requires ReportsOpen(c, kind, before, after)
    ensures v in after <==>
      v in before || (v.index == c.index && v.rule.NeverEnded? && v.rule.kind == kind && FinishFinds(c, v.rule))
  {
    assert after == before + after[|before|..];
    assert v.rule.NeverEnded? && v.rule.kind == kind ==> v.rule == NeverEnded(kind, v.rule.id);
    hide Open;
  }

  lemma AllReported(c: Checker, v0: seq<Violation>, v1: seq<Violation>, v2: seq<Violation>, v3: seq<Violation>)
    requires v0 == c.violations + if c.index == 0 then [Violation(c.index, EmptyStream)]
                                  else if !c.terminated then [Violation(c.index, NotTerminated)] else []
    requires ReportsOpen(c, Text, v0, v1) && ReportsOpen(c, Reasoning, v1, v2) && ReportsOpen(c, ToolInput, v2, v3)
    ensures forall v :: v in v3 <==> v in c.violations || (v.index == c.index && FinishFinds(c, v.rule))
  {
    forall v: Violation
      ensures v in v3 <==> v in c.violations || (v.index == c.index && FinishFinds(c, v.rule))
    {
      OneReported(c, Text, v0, v1, v);
      OneReported(c, Reasoning, v1, v2, v);
      OneReported(c, ToolInput, v2, v3, v);
      hide ReportsOpen, Open;
    }
  }

  // ----- The checker

  class StreamContractChecker {
    var index: nat
    var started: bool
    var terminated: bool
    var seenParts: set<string>
    var seenToolInputs: set<string>
    var openText: set<string>
    var openReasoning: set<string>
    var openToolInputs: set<string>
    var violations: seq<Violation>

    function State(): Checker
      reads this
    {
      Checker(index, started, terminated, seenParts, seenToolInputs, openText, openReasoning, openToolInputs,
        violations)
    }

    constructor ()
      ensures State() == FRESH
    {
      index, started, terminated := 0, false, false;
      seenParts, seenToolInputs := {}, {};
      openText, openReasoning, openToolInputs := {}, {}, {};
      violations := [];
    }

    method Report(rule: Rule)
      modifies this`violations
      ensures violations == old(violations) + [Violation(index, rule)]
    {
      violations := violations + [Violation(index, rule)];
    }

    /** Opens a part and reports it when its identifier was used before. */
    method Begin(kind: Kind, id: string)
      modifies this
      ensures State() == Begun(old(State()), kind, id)
    {
      match kind {
        case Text => openText := openText + {id};
        case Reasoning => openReasoning := openReasoning + {id};
        case ToolInput => openToolInputs := openToolInputs + {id};
      }
      var isNew;
      if kind == ToolInput {
        isNew := id !in seenToolInputs;
        seenToolInputs := seenToolInputs + {id};
      } else {
        isNew := id !in seenParts;
        seenParts := seenParts + {id};
      }
      if !isNew {
        Report(StartedTwice(kind, id));
      }
    }

    /** Closes a part and reports it when it was not open. */
    method Close(kind: Kind, id: string)
      modifies this
      ensures State() == Closed(old(State()), kind, id)
    {
      var open := id in Open(State(), kind);
      match kind {
        case Text => openText := openText - {id};
        case Reasoning => openReasoning := openReasoning - {id};
        case ToolInput => openToolInputs := openToolInputs - {id};
      }
      if !open {
        Report(EndForClosed(kind, id));
      }
    }

    /** Reports a part that may not stand where it does. */
    method CheckPlace(part: Part)
      modifies this`violations
      ensures State() == Placed(old(State()), part)
    {
      if index == 0 && !part.StreamStart? {
        Report(MustStart);
      }
      if terminated {
        Report(AfterTerminal);
      }
    }

    /** Observes one part. */
    method ObservePart(part: Part)
      modifies this
      ensures State() == Observe(old(State()), part)
    {
      CheckPlace(part);
      hide Placed, Begun, Closed;
      match part {
        case StreamStart(_) =>
          if started {
            Report(DuplicateStreamStart);
          }
          started := true;
        case Start(kind, id, _) =>
          Begin(kind, id);
        case Delta(kind, id, _) =>
          if id !in Open(State(), kind) {
            Report(DeltaForClosed(kind, id));
          }
        case End(kind, id, _) =>
          Close(kind, id);
        case Finish(_) =>
          terminated := true;
        case Error(_) =>
          terminated := true;
        case _ =>
      }
      index := index + 1;
    }

    /** Reports every part of a kind that never ended, in any order. */
    method ReportOpen(kind: Kind, open: set<string>)
      modifies this`violations
      ensures old(violations) <= violations
      ensures violations == old(violations) <==> open == {}
      ensures forall v :: v in violations[|old(violations)|..] <==>
        exists id :: id in open && v == Violation(index, NeverEnded(kind, id))
    {
      ghost var before := violations;
      var left := open;
      while left != {}
        invariant left <= open && before <= violations
        invariant violations == before <==> left == open
        invariant forall v :: v in violations[|before|..] <==>
          exists id :: id in open - left && v == Violation(index, NeverEnded(kind, id))
        decreases left
      {
        var id :| id in left;
        ghost var was := violations[|before|..];
        left := left - {id};
        Report(NeverEnded(kind, id));
        assert violations[|before|..] == was + [Violation(index, NeverEnded(kind, id))];
      }
    }

    /** Finishes the check and returns every violation. */
    method Complete() returns (result: seq<Violation>)
      modifies this
      ensures old(violations) <= result
      ensures result == [] <==>
        var c := old(State());
        c.violations == [] && c.index > 0 && c.terminated
        && c.openText == {} && c.openReasoning == {} && c.openToolInputs == {}
      ensures forall v :: v in result <==>
                v in old(violations) || (v.index == old(index) && FinishFinds(old(State()), v.rule))
    {
      ghost var c := State();
      if index == 0 {
        Report(EmptyStream);
      } else if !terminated {
        Report(NotTerminated);
      }
      ghost var v0 := violations;
      ReportOpen(Text, openText);
      ghost var v1 := violations;
      openText := {};
      ReportOpen(Reasoning, openReasoning);
      ghost var v2 := violations;
      openReasoning := {};
      ReportOpen(ToolInput, openToolInputs);
      openToolInputs := {};
      result := violations;
      AllReported(c, v0, v1, v2, result);
    }
  }

  /** Checks a list of parts: there are no violations exactly when the contract is met, and otherwise
      those of the rules that the parts and the end of the stream break. */
  method Check(parts: seq<Part>) returns (result: seq<Violation>)
    ensures result == [] <==> Conforming(parts)
    ensures forall v :: v in result <==> IsViolation(parts, v)
  {
    var checker := new StreamContractChecker();
    for i := 0 to |parts|
      invariant checker.State() == ObserveAll(FRESH, parts[..i])
    {
      assert parts[..i + 1] == parts[..i] + [parts[i]];
      ObserveCat(FRESH, parts[..i], [parts[i]]);
      ObserveOne(checker.State(), parts[i]);
      checker.ObservePart(parts[i]);
    }
    assert parts[..|parts|] == parts;
    CheckerDecides(parts);
    CheckerTracks(parts);
    TracksIndex(checker.State(), parts);
    ghost var c := checker.State();
    result := checker.Complete();
    hide ObserveAll, Breaks, BreaksAtEnd, FinishFinds, Conforming, Tracks;
    forall v
      ensures v in result <==> IsViolation(parts, v)
    {
      ViolationsAre(parts, v);
      FinishBreaks(parts, v.rule);
    }
  }
}

/** What the driver yields meets the stream contract exactly when what the machine produced does
    so up to its first error. */
module DrivenStreams {
  import opened Sequences
  import opened StreamContract
  import opened StreamDriver

  predicate AllDistinct(ids: seq<string>) {
    forall i, j :: 0 <= i < j < |ids| ==> ids[i] != ids[j]
  }

  ghost predicate SameIds(ids: seq<string>, open: set<string>) {
    forall id :: id in ids <==> id in open
  }

  /** The driver lists exactly what the checker holds open, once each while nothing was started
      twice. */
  ghost predicate Agree(o: Opens, c: Checker) {
    && (forall kind :: SameIds(Listed(o, kind), Open(c, kind)))
    && (forall kind :: Open(c, kind) <= Seen(c, kind))
    && (c.violations == [] ==> forall kind :: AllDistinct(Listed(o, kind)))
  }

  lemma {:induction false} WithoutIs(ids: seq<string>, id: string)
    ensures forall other :: other in Without(ids, id) <==> other in ids && other != id
    ensures AllDistinct(ids) ==> AllDistinct(Without(ids, id))
  {
    if ids != [] {
      WithoutIs(ids[1..], id);
      var rest := Without(ids[1..], id);
      forall other
        ensures other in ids <==> other == ids[0] || other in ids[1..]
      {
        assert ids == [ids[0]] + ids[1..];
      }
      if ids[0] != id {
        assert Without(ids, id) == [ids[0]] + rest;
        if AllDistinct(ids) {
          assert ids[0] !in ids[1..];
        }
      } else {
        assert Without(ids, id) == rest;
      }
    }
  }

  /** How a part changes what is open and seen. */
  lemma OpenAfter(c: Checker, part: Part, kind: Kind)
    ensures Open(Observe(c, part), kind) ==
      if part.Start? && part.kind == kind then Open(c, kind) + {part.id}
      else if part.End? && part.kind == kind then Open(c, kind) - {part.id}
      else Open(c, kind)
    ensures Seen(c, kind) <= Seen(Observe(c, part), kind)
    ensures part.Start? && part.kind == kind ==> part.id in Seen(Observe(c, part), kind)
  {
    hide When;
  }

  lemma ListedAfter(o: Opens, part: Part, kind: Kind)
    ensures Listed(Track(o, part), kind) ==
      if part.Start? && part.kind == kind then Listed(o, kind) + [part.id]
      else if part.End? && part.kind == kind then Without(Listed(o, kind), part.id)
      else Listed(o, kind)
  {
    hide Without;
  }

  lemma AgreeGrows(o: Opens, c: Checker, part: Part)
    requires Agree(o, c)
    ensures Agree(Track(o, part), Observe(c, part))
  {
    var p, next := Track(o, part), Observe(c, part);
    ObserveAdds(c, part);
    forall kind
      ensures SameIds(Listed(p, kind), Open(next, kind)) && Open(next, kind) <= Seen(next, kind)
      ensures next.violations == [] ==> AllDistinct(Listed(p, kind))
    {
      AgreeOn(o, c, part, kind);
    }
    hide Track, Observe, SameIds, AllDistinct;
  }

  lemma AgreeOn(o: Opens, c: Checker, part: Part, kind: Kind)
    requires Agree(o, c)
    ensures var p, next := Track(o, part), Observe(c, part);
      && SameIds(Listed(p, kind), Open(next, kind)) && Open(next, kind) <= Seen(next, kind)
      && (next.violations == [] ==> AllDistinct(Listed(p, kind)))
  {
    OpenAfter(c, part, kind);
    ListedAfter(o, part, kind);
    ObserveAdds(c, part);
    hide Track, Observe;
    var ids := Listed(o, kind);
    assert SameIds(ids, Open(c, kind)) && Open(c, kind) <= Seen(c, kind);
    if part.End? {
      WithoutIs(ids, part.id);
    }
    if part.Start? && part.kind == kind && Observe(c, part).violations == [] {
      assert part.id !in ids;
    }
  }

  lemma {:induction false} AgreeAll(o: Opens, c: Checker, parts: seq<Part>)
    requires Agree(o, c)
    ensures Agree(TrackAll(o, parts), ObserveAll(c, parts))
    decreases |parts|
  {
    hide Agree, Track, Observe;
    if parts != [] {
      AgreeGrows(o, c, parts[0]);
      AgreeAll(Track(o, parts[0]), Observe(c, parts[0]), parts[1..]);
    }
  }

  // ----- Closing

  /** Running without violations, and not yet terminated. */
  predicate Running(c: Checker) {
    c.violations == [] && c.index > 0 && !c.terminated
  }

  lemma CloseOne(c: Checker, kind: Kind, id: string)
    requires Running(c) && id in Open(c, kind)
    ensures var next := Observe(c, End(kind, id, ""));
      && Running(next)
      && forall other :: Open(next, other) == if other == kind then Open(c, kind) - {id} else Open(c, other)
  {
    var part := End(kind, id, "");
    ObserveAdds(c, part);
    forall other
      ensures Open(Observe(c, part), other) == if other == kind then Open(c, kind) - {id} else Open(c, other)
    {
      OpenAfter(c, part, other);
    }
  }

  lemma {:induction false} CloseAll(c: Checker, kind: Kind, ids: seq<string>)
    requires Running(c) && AllDistinct(ids) && SameIds(ids, Open(c, kind))
    ensures var next := ObserveAll(c, Ends(kind, ids));
      Running(next) && forall other :: Open(next, other) == if other == kind then {} else Open(c, other)
    decreases |ids|
  {
    if ids == [] {
      assert forall id :: id !in ids;
      assert Open(c, kind) == {};
    } else {
      var next := Observe(c, End(kind, ids[0], ""));
      assert ids[0] in ids;
      CloseOne(c, kind, ids[0]);
      assert ids == [ids[0]] + ids[1..];
      assert ids[0] !in ids[1..];
      assert Ends(kind, ids)[1..] == Ends(kind, ids[1..]);
      hide Observe, Running;
      CloseAll(next, kind, ids[1..]);
    }
  }

  lemma CloseEverything(o: Opens, c: Checker)
    requires Running(c) && Agree(o, c)
    ensures var next := ObserveAll(c, Closing(o)); Running(next) && forall kind :: Open(next, kind) == {}
  {
    var tools, reasoning, text := Ends(ToolInput, o.toolInputs), Ends(Reasoning, o.reasoning), Ends(Text, o.text);
    assert Listed(o, ToolInput) == o.toolInputs && Listed(o, Reasoning) == o.reasoning && Listed(o, Text) == o.text;
    assert AllDistinct(Listed(o, ToolInput)) && AllDistinct(Listed(o, Reasoning)) && AllDistinct(Listed(o, Text));
    hide ObserveAll, Ends, Open, AllDistinct, SameIds;
    CloseAll(c, ToolInput, o.toolInputs);
    var c1 := ObserveAll(c, tools);
    CloseAll(c1, Reasoning, o.reasoning);
    var c2 := ObserveAll(c1, reasoning);
    CloseAll(c2, Text, o.text);
    ObserveCat(c, tools, reasoning + text);
    ObserveCat(c1, reasoning, text);
    var c3 := ObserveAll(c2, text);
    forall kind
      ensures Open(c3, kind) == {}
    {
    }
  }

  lemma EndsWithError(c: Checker, part: Part)
    requires Running(c) && part.Error? && forall kind :: Open(c, kind) == {}
    ensures var next := Observe(c, part);
      && next.violations == [] && next.index > 0 && next.terminated
      && next.openText == {} && next.openReasoning == {} && next.openToolInputs == {}
  {
    ObserveAdds(c, part);
    OpenAfter(c, part, Text);
    OpenAfter(c, part, Reasoning);
    OpenAfter(c, part, ToolInput);
  }

  // ----- Driven streams

  /** The parts before the first error, after the start part. */
  function BeforeError(start: Part, produced: seq<Part>): seq<Part> {
    [start] + produced[..ErrorIndex(produced)]
  }

  lemma StartAgrees(start: Part)
    requires start.StreamStart?
    ensures Agree(NOTHING, Observe(FRESH, start))
  {
    var c := Observe(FRESH, start);
    forall kind
      ensures Open(c, kind) == {} && Listed(NOTHING, kind) == []
    {
    }
  }

  lemma ErrorStream(start: Part, produced: seq<Part>)
    requires start.StreamStart? && ErrorIndex(produced) < |produced|
    ensures var e := ErrorIndex(produced); var c := ObserveAll(FRESH, BeforeError(start, produced));
      var o := TrackAll(NOTHING, produced[..e]);
      && Agree(o, c) && c.index > 0
      && [start] + CutAtError(NOTHING, produced) == BeforeError(start, produced) + (Closing(o) + [produced[e]])
  {
    var e := ErrorIndex(produced);
    CutIs(NOTHING, produced);
    Cat2([start], produced[..e], Closing(TrackAll(NOTHING, produced[..e])) + [produced[e]]);
    StartAgrees(start);
    hide Agree, Observe, Track;
    ObserveCat(FRESH, [start], produced[..e]);
    ObserveOne(FRESH, start);
    AgreeAll(NOTHING, Observe(FRESH, start), produced[..e]);
    CheckerTracks(BeforeError(start, produced));
  }

  lemma ErrorStreamPasses(start: Part, produced: seq<Part>)
    requires start.StreamStart? && ErrorIndex(produced) < |produced|
    ensures Passes([start] + CutAtError(NOTHING, produced)) <==>
      Running(ObserveAll(FRESH, BeforeError(start, produced)))
  {
    ErrorStream(start, produced);
    var e := ErrorIndex(produced);
    var before := BeforeError(start, produced);
    var c, o := ObserveAll(FRESH, before), TrackAll(NOTHING, produced[..e]);
    var tail := Closing(o) + [produced[e]];
    ObserveCat(FRESH, before, tail);
    ViolationsGrow(c, tail);
    assert tail != [];
    hide BeforeError, ErrorIndex, TrackAll, CutAtError, Agree, Closing;
    if Running(c) {
      CloseEverything(o, c);
      ObserveCat(c, Closing(o), [produced[e]]);
      ObserveOne(ObserveAll(c, Closing(o)), produced[e]);
      hide ObserveAll;
      EndsWithError(ObserveAll(c, Closing(o)), produced[e]);
    }
  }

  /** The driver's output meets the contract exactly when what precedes the machine's first
      error is a respectful stream without a terminal part or, without an error, when
      everything the machine produced meets it. */
  lemma DrivenStreamConforms(start: Part, produced: seq<Part>)
    requires start.StreamStart?
    ensures Conforming([start] + CutAtError(NOTHING, produced)) <==>
      if ErrorIndex(produced) < |produced|
      then Respectful(BeforeError(start, produced)) && !Terminated(BeforeError(start, produced))
      else Conforming([start] + produced)
  {
    var out := [start] + CutAtError(NOTHING, produced);
    if ErrorIndex(produced) < |produced| {
      CheckerDecides(out);
      CheckerTracks(BeforeError(start, produced));
      ErrorStreamPasses(start, produced);
    } else {
      CutIs(NOTHING, produced);
    }
  }
}

/** The order in which workspace crates are published: rounds of crates whose dependencies are
    all published, each round by name. */
module PublishOrder {
  import opened CanonicalText

  datatype Kind = Normal | Build | Development

  datatype Dependency = Dependency(name: string, kind: Kind)

  type Graph = map<string, set<string>>

  /** The dependencies that matter for publishing: not for development, and on members. */
  function DependencyGraph(members: map<string, seq<Dependency>>): Graph {
    map name | name in members ::
      set d | d in members[name] && d.kind != Development && d.name in members :: d.name
  }

  predicate IsGraph(graph: Graph) {
    forall name :: name in graph ==> graph[name] <= graph.Keys
  }

  predicate AllDistinct(names: seq<string>) {
    forall i, j :: 0 <= i < j < |names| ==> names[i] != names[j]
  }

  /** The names in ascending order that also satisfy `keep`. */
  function Select(names: seq<string>, keep: set<string>): seq<string> {
    if names == [] then [] else (if names[0] in keep then [names[0]] else []) + Select(names[1..], keep)
  }

  lemma {:induction false} SelectIs(names: seq<string>, keep: set<string>)
    requires Ascending(names)
    ensures Ascending(Select(names, keep))
    ensures forall name :: name in Select(names, keep) <==> name in names && name in keep
  {
    if names != [] {
      SelectIs(names[1..], keep);
      var rest := Select(names[1..], keep);
      forall name
        ensures name in names <==> name == names[0] || name in names[1..]
      {
        assert names == [names[0]] + names[1..];
      }
      forall i | 0 <= i < |rest|
        ensures Precedes(names[0], rest[i])
      {
        assert rest[i] in names[1..];
      }
      hide Precedes;
      if names[0] in keep {
        assert Select(names, keep) == [names[0]] + rest;
      } else {
        assert Select(names, keep) == rest;
      }
    }
  }

  lemma AscendingDistinct(names: seq<string>)
    requires Ascending(names)
    ensures AllDistinct(names)
  {
    forall i, j | 0 <= i < j < |names|
      ensures names[i] != names[j]
    {
      PrecedesOnce(names[i], names[j]);
    }
  }

  // ----- Levels

  /** The name is one level above its highest dependency, or at level zero without any. */
  ghost predicate IsLevelOf(graph: Graph, done: set<string>, levels: map<string, nat>, name: string)
    requires name in graph && name in levels && levels.Keys == done
  {
    && (forall d :: d in graph[name] ==> d in done && levels[d] < levels[name])
    && (levels[name] > 0 ==> exists d :: d in graph[name] && d in done && levels[d] == levels[name] - 1)
  }

  ghost predicate IsLevels(graph: Graph, done: set<string>, levels: map<string, nat>) {
    levels.Keys == done && done <= graph.Keys && forall name :: name in done ==> IsLevelOf(graph, done, levels, name)
  }

  /** By level, and by name within a level. */
  predicate Sorted(ordered: seq<string>, levels: map<string, nat>)
    requires forall i :: 0 <= i < |ordered| ==> ordered[i] in levels
  {
    forall i, j :: 0 <= i < j < |ordered| ==>
      levels[ordered[i]] < levels[ordered[j]]
      || (levels[ordered[i]] == levels[ordered[j]] && Precedes(ordered[i], ordered[j]))
  }

  lemma NoHigher(graph: Graph, done: set<string>, a: map<string, nat>, b: map<string, nat>, name: string)
    requires IsLevels(graph, done, a) && IsLevels(graph, done, b) && name in done
    requires forall d :: d in graph[name] ==> d in done && a[d] == b[d]
    ensures a[name] <= b[name]
  {
    assert IsLevelOf(graph, done, a, name) && IsLevelOf(graph, done, b, name);
    if a[name] > 0 {
      var d :| d in graph[name] && d in done && a[d] == a[name] - 1;
      assert b[d] < b[name];
    }
  }

  /** Levels are determined by the graph. */
  lemma {:induction false} LevelsUnique(graph: Graph, done: set<string>, a: map<string, nat>, b: map<string, nat>,
      name: string)
    requires IsLevels(graph, done, a) && IsLevels(graph, done, b) && name in done
    ensures a[name] == b[name]
    decreases a[name]
  {
    assert IsLevelOf(graph, done, a, name);
    forall d | d in graph[name]
      ensures d in done && a[d] == b[d]
    {
      hide IsLevels;
      LevelsUnique(graph, done, a, b, d);
    }
    hide IsLevels, IsLevelOf;
    NoHigher(graph, done, a, b, name);
    NoHigher(graph, done, b, a, name);
  }

  // ----- Cycles

  /** Each name of the cycle depends on the next, and the last on the first. */
  predicate IsCycle(graph: Graph, cycle: seq<string>) {
    && cycle != []
    && (forall i :: 0 <= i < |cycle| ==> cycle[i] in graph)
    && (forall i :: 0 <= i < |cycle| - 1 ==> cycle[i + 1] in graph[cycle[i]])
    && cycle[0] in graph[cycle[|cycle| - 1]]
  }

  ghost predicate HasCycle(graph: Graph) {
    exists cycle :: IsCycle(graph, cycle)
  }

  lemma {:induction false} LevelsFall(graph: Graph, done: set<string>, levels: map<string, nat>, cycle: seq<string>,
      i: nat)
    requires IsLevels(graph, done, levels) && IsCycle(graph, cycle) && i < |cycle|
    requires forall k :: 0 <= k < |cycle| ==> cycle[k] in done
    ensures levels[cycle[i]] + i <= levels[cycle[0]]
  {
    if i > 0 {
      LevelsFall(graph, done, levels, cycle, i - 1);
      assert IsLevelOf(graph, done, levels, cycle[i - 1]) && cycle[i] in graph[cycle[i - 1]];
    }
  }

  lemma LevelsMeanNoCycle(graph: Graph, levels: map<string, nat>)
    requires IsLevels(graph, graph.Keys, levels)
    ensures !HasCycle(graph)
  {
    hide IsLevels;
    forall cycle
      ensures !IsCycle(graph, cycle)
    {
      if cycle != [] && cycle[0] in graph.Keys {
        NoCycleInDone(graph, graph.Keys, levels, cycle);
      }
    }
  }

  /** A walk along dependencies. */
  predicate IsWalk(graph: Graph, walk: seq<string>) {
    && (forall i :: 0 <= i < |walk| ==> walk[i] in graph)
    && forall i :: 0 <= i < |walk| - 1 ==> walk[i + 1] in graph[walk[i]]
  }

  ghost predicate DependsOnOne(graph: Graph, left: set<string>, name: string)
    requires name in graph
  {
    exists d :: d in graph[name] && d in left
  }

  lemma WalkOn(graph: Graph, start: string, rest: seq<string>)
    requires rest != [] && IsWalk(graph, rest) && start in graph && rest[0] in graph[start]
    ensures IsWalk(graph, [start] + rest)
  {
    var walk := [start] + rest;
    assert forall i :: 0 < i < |walk| ==> walk[i] == rest[i - 1];
  }

  /** Where every name left has a dependency left, walks can be as long as one likes. */
  lemma {:induction false} LongWalk(graph: Graph, left: set<string>, start: string, n: nat) returns (walk: seq<string>)
    requires left <= graph.Keys && start in left
    requires forall name :: name in left ==> DependsOnOne(graph, left, name)
    ensures |walk| == n + 1 && walk[0] == start && IsWalk(graph, walk)
    ensures forall i :: 0 <= i < |walk| ==> walk[i] in left
    decreases n
  {
    if n == 0 {
      walk := [start];
    } else {
      assert DependsOnOne(graph, left, start);
      var d :| d in graph[start] && d in left;
      hide DependsOnOne, IsWalk;
      var rest := LongWalk(graph, left, d, n - 1);
      walk := [start] + rest;
      WalkOn(graph, start, rest);
      assert forall i :: 0 < i < |walk| ==> walk[i] == rest[i - 1];
    }
  }

  /** Distinct names taken from a set are no more than the set has. */
  lemma {:induction false} Pigeonhole(names: seq<string>, holes: set<string>)
    requires AllDistinct(names) && forall i :: 0 <= i < |names| ==> names[i] in holes
    ensures |names| <= |holes|
    decreases |names|
  {
    if names != [] {
      var rest := names[1..];
      assert forall i :: 0 <= i < |rest| ==> rest[i] == names[i + 1];
      Pigeonhole(rest, holes - {names[0]});
    }
  }

  /** A walk that returns to a name contains a cycle. */
  lemma ReturnIsCycle(graph: Graph, walk: seq<string>, i: nat, j: nat)
    requires IsWalk(graph, walk) && i < j < |walk| && walk[i] == walk[j]
    ensures IsCycle(graph, walk[i..j])
  {
    var cycle := walk[i..j];
    assert forall k :: 0 <= k < |cycle| ==> cycle[k] == walk[i + k];
    assert walk[j - 1 + 1] in graph[walk[j - 1]];
  }

  /** A walk along dependencies leads from the name into a cycle. */
  ghost predicate LeadsTo(graph: Graph, name: string, walk: seq<string>, cycle: seq<string>) {
    IsWalk(graph, walk) && walk != [] && walk[0] == name && IsCycle(graph, cycle) && walk[|walk| - 1] == cycle[0]
  }

  ghost predicate ReachesCycle(graph: Graph, name: string) {
    exists walk, cycle :: LeadsTo(graph, name, walk, cycle)
  }

  lemma WalkStops(graph: Graph, walk: seq<string>, i: nat)
    requires IsWalk(graph, walk) && i < |walk|
    ensures IsWalk(graph, walk[..i + 1])
  {
  }

  /** Where each name depends on another, a cycle can be reached from every one. */
  lemma StuckReachesCycle(graph: Graph, left: set<string>, name: string)
    requires left <= graph.Keys && name in left
    requires forall other :: other in left ==> DependsOnOne(graph, left, other)
    ensures ReachesCycle(graph, name) && HasCycle(graph)
  {
    var walk := LongWalk(graph, left, name, |left|);
    hide DependsOnOne, IsWalk, IsCycle;
    if AllDistinct(walk) {
      Pigeonhole(walk, left);
    } else {
      var i: nat, j: nat :| i < j < |walk| && walk[i] == walk[j];
      ReturnIsCycle(graph, walk, i, j);
      WalkStops(graph, walk, i);
      assert LeadsTo(graph, name, walk[..i + 1], walk[i..j]);
    }
  }

  /** What a name with a level depends on has levels too. */
  lemma {:induction false} WalkStaysDone(graph: Graph, done: set<string>, levels: map<string, nat>, walk: seq<string>,
      i: nat)
    requires IsLevels(graph, done, levels) && IsWalk(graph, walk) && i < |walk| && walk[0] in done
    ensures walk[i] in done
  {
    if i > 0 {
      WalkStaysDone(graph, done, levels, walk, i - 1);
      assert IsLevelOf(graph, done, levels, walk[i - 1]) && walk[i - 1 + 1] in graph[walk[i - 1]];
    }
  }

  lemma CycleIsWalk(graph: Graph, cycle: seq<string>)
    requires IsCycle(graph, cycle)
    ensures IsWalk(graph, cycle)
  {
  }

  lemma NoCycleInDone(graph: Graph, done: set<string>, levels: map<string, nat>, cycle: seq<string>)
    requires IsLevels(graph, done, levels) && cycle != [] && cycle[0] in done
    ensures !IsCycle(graph, cycle)
  {
    if IsCycle(graph, cycle) {
      CycleIsWalk(graph, cycle);
      forall k | 0 <= k < |cycle|
        ensures cycle[k] in done
      {
        WalkStaysDone(graph, done, levels, cycle, k);
      }
      LevelsFall(graph, done, levels, cycle, |cycle| - 1);
    }
  }

  /** From a name with a level no cycle can be reached. */
  lemma LevelsReachNoCycle(graph: Graph, done: set<string>, levels: map<string, nat>, name: string)
    requires IsLevels(graph, done, levels) && name in done
    ensures !ReachesCycle(graph, name)
  {
    forall walk, cycle
      ensures !LeadsTo(graph, name, walk, cycle)
    {
      if IsWalk(graph, walk) && walk != [] && walk[0] == name && cycle != [] && walk[|walk| - 1] == cycle[0] {
        hide IsLevels, IsWalk, IsCycle;
        WalkStaysDone(graph, done, levels, walk, |walk| - 1);
        NoCycleInDone(graph, done, levels, cycle);
      }
    }
  }

  // ----- The order

  datatype Result = Ordered(names: seq<string>) | DependencyCycle(names: seq<string>)

  function SetOf(names: seq<string>): set<string> {
    set name | name in names
  }

  /** A name left had, before this round, a dependency that the round before published, or one
      that is not published yet. */
  ghost predicate WasHeldBack(graph: Graph, levels: map<string, nat>, round: nat, name: string)
    requires name in graph
  {
    exists d :: d in graph[name] && (d in levels ==> levels[d] + 1 == round)
  }

  /** What is left is what is not published, with the dependencies that are not. */
  ghost predicate Leaves(graph: Graph, left: seq<string>, remaining: Graph, done: set<string>) {
    && IsGraph(graph) && Ascending(left) && remaining.Keys == SetOf(left)
    && done !! SetOf(left) && done + SetOf(left) == graph.Keys
    && forall name :: name in remaining ==> remaining[name] == graph[name] - done
  }

  /** What is published is in order. */
  ghost predicate Publishes(graph: Graph, ordered: seq<string>, round: nat, levels: map<string, nat>) {
    && IsLevels(graph, SetOf(ordered), levels) && AllDistinct(ordered) && Sorted(ordered, levels)
    && forall name :: name in levels ==> levels[name] < round
  }

  ghost predicate HoldsBack(graph: Graph, remaining: Graph, round: nat, levels: map<string, nat>) {
    remaining.Keys <= graph.Keys
    && (round > 0 ==> forall name :: name in remaining ==> WasHeldBack(graph, levels, round, name))
  }

  /** What holds between two rounds. */
  ghost predicate Between(graph: Graph, left: seq<string>, remaining: Graph, ordered: seq<string>, round: nat,
                          levels: map<string, nat>) {
    && Leaves(graph, left, remaining, SetOf(ordered)) && Publishes(graph, ordered, round, levels)
    && HoldsBack(graph, remaining, round, levels)
  }

  /** The names whose dependencies are all published. */
  function ReadySet(remaining: Graph): set<string> {
    set name | name in remaining && remaining[name] == {}
  }

  function NextLevels(levels: map<string, nat>, ready: set<string>, round: nat): map<string, nat> {
    map name | name in levels.Keys + ready :: if name in ready then round else levels[name]
  }

  function Unpublished(remaining: Graph, ready: set<string>): Graph {
    map name | name in remaining && name !in ready :: remaining[name] - ready
  }

  lemma LevelsGrow(graph: Graph, left: seq<string>, remaining: Graph, ordered: seq<string>, round: nat,
      levels: map<string, nat>)
    requires Between(graph, left, remaining, ordered, round, levels)
    ensures var ready := ReadySet(remaining);
      IsLevels(graph, SetOf(ordered) + ready, NextLevels(levels, ready, round))
  {
    var ready, done := ReadySet(remaining), SetOf(ordered);
    var next := NextLevels(levels, ready, round);
    forall name | name in done + ready
      ensures IsLevelOf(graph, done + ready, next, name)
    {
      if name in ready {
        forall d | d in graph[name]
          ensures d in done
        {
          assert d !in remaining[name];
        }
        if round > 0 {
          assert WasHeldBack(graph, levels, round, name);
          var d :| d in graph[name] && (d in levels ==> levels[d] + 1 == round);
          assert d in done && next[d] == round - 1;
        }
      } else {
        assert IsLevelOf(graph, done, levels, name);
        if levels[name] > 0 {
          var d :| d in graph[name] && d in done && levels[d] == levels[name] - 1;
          assert next[d] == levels[d];
        }
      }
    }
  }

  lemma OrderGrows(ordered: seq<string>, ready: seq<string>, levels: map<string, nat>, round: nat)
    requires AllDistinct(ordered) && levels.Keys == SetOf(ordered) && Sorted(ordered, levels)
    requires Ascending(ready) && SetOf(ready) !! SetOf(ordered)
    requires forall name :: name in levels ==> levels[name] < round
    ensures AllDistinct(ordered + ready) && SetOf(ordered + ready) == SetOf(ordered) + SetOf(ready)
    ensures var next := NextLevels(levels, SetOf(ready), round);
      next.Keys == SetOf(ordered + ready) && Sorted(ordered + ready, next)
      && forall name :: name in next ==> next[name] < round + 1
  {
    AscendingDistinct(ready);
    var all, next := ordered + ready, NextLevels(levels, SetOf(ready), round);
    hide Precedes;
    forall i | 0 <= i < |all|
      ensures all[i] in next
      ensures if i < |ordered| then all[i] == ordered[i] && all[i] in SetOf(ordered) &&
        next[all[i]] == levels[ordered[i]]
              else all[i] == ready[i - |ordered|] && all[i] in SetOf(ready) && next[all[i]] == round
    {
    }
  }

  lemma LeavesLess(graph: Graph, left: seq<string>, remaining: Graph, done: set<string>)
    requires Leaves(graph, left, remaining, done)
    ensures var ready := ReadySet(remaining); var next := Unpublished(remaining, ready);
      Leaves(graph, Select(left, next.Keys), next, done + ready) && SetOf(Select(left, ready)) == ready
  {
    var ready := ReadySet(remaining);
    var next := Unpublished(remaining, ready);
    SelectSet(left, ready);
    SelectSet(left, next.Keys);
    hide Ascending, Select, IsGraph, SetOf;
    assert ready + next.Keys == remaining.Keys && ready !! next.Keys;
  }

  lemma SelectSet(names: seq<string>, keep: set<string>)
    requires Ascending(names) && keep <= SetOf(names)
    ensures Ascending(Select(names, keep)) && SetOf(Select(names, keep)) == keep
  {
    SelectIs(names, keep);
    hide Ascending, Select;
  }

  lemma HoldsBackNext(graph: Graph, left: seq<string>, remaining: Graph, done: set<string>, round: nat,
      levels: map<string, nat>)
    requires Leaves(graph, left, remaining, done) && levels.Keys == done
    ensures var ready := ReadySet(remaining);
      HoldsBack(graph, Unpublished(remaining, ready), round + 1, NextLevels(levels, ready, round))
  {
    var ready := ReadySet(remaining);
    var next := Unpublished(remaining, ready);
    forall name | name in next
      ensures WasHeldBack(graph, NextLevels(levels, ready, round), round + 1, name)
    {
      assert name !in ready;
      var d :| d in remaining[name];
      assert d in graph[name] && d !in levels;
    }
  }

  lemma PublishesMore(graph: Graph, left: seq<string>, remaining: Graph, ordered: seq<string>, round: nat,
      levels: map<string, nat>)
    requires Between(graph, left, remaining, ordered, round, levels)
    ensures var ready := ReadySet(remaining);
      Publishes(graph, ordered + Select(left, ready), round + 1, NextLevels(levels, ready, round))
  {
    var ready := ReadySet(remaining);
    SelectIs(left, ready);
    LeavesLess(graph, left, remaining, SetOf(ordered));
    LevelsGrow(graph, left, remaining, ordered, round, levels);
    assert Ascending(left) && IsLevels(graph, SetOf(ordered), levels);
    assert levels.Keys == SetOf(ordered) && ready <= SetOf(left);
    hide Ascending, Select, IsGraph, IsLevels, ReadySet, NextLevels, WasHeldBack, HoldsBack;
    OrderGrows(ordered, Select(left, ready), levels, round);
  }

  /** A round keeps what holds between rounds. */
  lemma RoundKeeps(graph: Graph, left: seq<string>, remaining: Graph, ordered: seq<string>, round: nat,
      levels: map<string, nat>)
    requires Between(graph, left, remaining, ordered, round, levels)
    ensures var ready := ReadySet(remaining); var next := Unpublished(remaining, ready);
      Between(graph, Select(left, next.Keys), next, ordered + Select(left, ready), round + 1,
        NextLevels(levels, ready, round))
  {
    LevelsOfDone(graph, left, remaining, ordered, round, levels);
    hide Publishes, Leaves, HoldsBack, Select, ReadySet, Unpublished, NextLevels;
    LeavesLess(graph, left, remaining, SetOf(ordered));
    PublishesMore(graph, left, remaining, ordered, round, levels);
    HoldsBackNext(graph, left, remaining, SetOf(ordered), round, levels);
    SetOfCat(ordered, Select(left, ReadySet(remaining)));
  }

  lemma LevelsOfDone(graph: Graph, left: seq<string>, remaining: Graph, ordered: seq<string>, round: nat,
      levels: map<string, nat>)
    requires Between(graph, left, remaining, ordered, round, levels)
    ensures levels.Keys == SetOf(ordered)
  {
  }

  lemma SetOfCat(a: seq<string>, b: seq<string>)
    ensures SetOf(a + b) == SetOf(a) + SetOf(b)
  {
  }

  lemma StuckName(graph: Graph, left: seq<string>, remaining: Graph, done: set<string>, name: string)
    requires Leaves(graph, left, remaining, done) && name in remaining && remaining[name] != {}
    ensures DependsOnOne(graph, remaining.Keys, name)
  {
    var d :| d in remaining[name];
    assert d in graph[name] && d in graph.Keys;
  }

  lemma StuckNames(graph: Graph, left: seq<string>, remaining: Graph, done: set<string>)
    requires Leaves(graph, left, remaining, done) && ReadySet(remaining) == {}
    ensures remaining.Keys <= graph.Keys && remaining.Keys == SetOf(left)
    ensures forall name :: name in remaining.Keys ==> DependsOnOne(graph, remaining.Keys, name)
  {
    assert remaining.Keys <= graph.Keys && remaining.Keys == SetOf(left);
    forall name | name in remaining.Keys
      ensures remaining[name] != {}
    {
      assert name !in ReadySet(remaining);
    }
    hide ReadySet, DependsOnOne, Leaves, SetOf;
    forall name | name in remaining.Keys
      ensures DependsOnOne(graph, remaining.Keys, name)
    {
      StuckName(graph, left, remaining, done, name);
    }
  }

  /** When no name is ready, those left are exactly the names from which a cycle can be reached. */
  lemma StuckRound(graph: Graph, left: seq<string>, remaining: Graph, ordered: seq<string>, round: nat,
      levels: map<string, nat>)
    requires Between(graph, left, remaining, ordered, round, levels) && left != [] && ReadySet(remaining) == {}
    ensures HasCycle(graph) && Ascending(left)
    ensures forall name :: name in left <==> name in graph && ReachesCycle(graph, name)
  {
    var done := SetOf(ordered);
    assert Leaves(graph, left, remaining, done) && IsLevels(graph, done, levels);
    assert Ascending(left) && done + SetOf(left) == graph.Keys;
    hide Leaves, ReadySet, DependsOnOne, HasCycle, Ascending, IsLevels, Between, ReachesCycle;
    StuckNames(graph, left, remaining, done);
    forall name | name in left
      ensures ReachesCycle(graph, name) && HasCycle(graph)
    {
      StuckReachesCycle(graph, remaining.Keys, name);
    }
    assert left[0] in left;
    forall name | name in done
      ensures !ReachesCycle(graph, name)
    {
      LevelsReachNoCycle(graph, done, levels, name);
    }
  }

  lemma NonEmptySet(names: seq<string>)
    ensures names != [] ==> SetOf(names) != {}
  {
    if names != [] {
      assert names[0] in SetOf(names);
    }
  }

  lemma FirstRound(names: seq<string>, members: map<string, seq<Dependency>>)
    requires Ascending(names) && members.Keys == SetOf(names)
    ensures Between(DependencyGraph(members), names, DependencyGraph(members), [], 0, map[])
  {
  }

  lemma NothingReady(graph: Graph, left: seq<string>, remaining: Graph, ordered: seq<string>, round: nat,
      levels: map<string, nat>)
    requires Between(graph, left, remaining, ordered, round, levels) && Select(left, ReadySet(remaining)) == []
    ensures ReadySet(remaining) == {} && Leaves(graph, left, remaining, SetOf(ordered))
  {
    LeavesLess(graph, left, remaining, SetOf(ordered));
    hide Leaves, Publishes, HoldsBack, ReadySet, Select;
  }

  lemma ReadyNames(graph: Graph, left: seq<string>, remaining: Graph, done: set<string>, ready: seq<string>)
    requires Leaves(graph, left, remaining, done) && ready == Select(left, ReadySet(remaining)) && ready != []
    ensures SetOf(ready) == ReadySet(remaining)
    ensures ready[0] in left && ready[0] !in Unpublished(remaining, SetOf(ready))
  {
    assert Ascending(left);
    SelectIs(left, ReadySet(remaining));
    hide Leaves, Select, Ascending;
    assert SetOf(ready) == ReadySet(remaining);
    assert ready[0] in ready;
  }

  /** Takes the ready names out of what remains, everywhere, and appends them to the order. */
  method Publish(ready: seq<string>, remaining: Graph, ordered: seq<string>)
      returns (rest: Graph, published: seq<string>)
    ensures rest == Unpublished(remaining, SetOf(ready)) && published == ordered + ready
  {
    rest, published := remaining, ordered;
    for i := 0 to |ready|
      invariant published == ordered + ready[..i]
      invariant rest == remaining - SetOf(ready[..i])
    {
      assert ready[..i + 1] == ready[..i] + [ready[i]];
      published := published + [ready[i]];
      rest := rest - {ready[i]};
    }
    assert ready[..|ready|] == ready;
    rest := map name | name in rest :: rest[name] - SetOf(ready);
  }

  lemma {:induction false} SelectShrinks(names: seq<string>, keep: set<string>, gone: string)
    ensures |Select(names, keep)| <= |names|
    ensures gone in names && gone !in keep ==> |Select(names, keep)| < |names|
  {
    if names != [] {
      SelectShrinks(names[1..], keep, gone);
    }
  }

  lemma NothingLeft(graph: Graph, left: seq<string>, remaining: Graph, ordered: seq<string>, round: nat,
      levels: map<string, nat>)
    requires Between(graph, left, remaining, ordered, round, levels) && left == []
    ensures SetOf(ordered) == graph.Keys && IsLevels(graph, SetOf(ordered), levels) && IsGraph(graph)
    ensures AllDistinct(ordered) && Sorted(ordered, levels)
  {
    assert SetOf(left) == {};
    hide IsLevels, Sorted, AllDistinct, HoldsBack, IsGraph, Ascending, IsLevelOf;
  }

  lemma AllPublished(graph: Graph, left: seq<string>, remaining: Graph, ordered: seq<string>, round: nat,
      levels: map<string, nat>)
    requires Between(graph, left, remaining, ordered, round, levels) && left == []
    ensures SetOf(ordered) == graph.Keys && IsLevels(graph, graph.Keys, levels) && AllDistinct(ordered) &&
      Sorted(ordered, levels)
    ensures !HasCycle(graph)
  {
    hide *;
    NothingLeft(graph, left, remaining, ordered, round, levels);
    LevelsMeanNoCycle(graph, levels);
  }

  /** In a sorted order every dependency comes before what depends on it. */
  lemma DependenciesFirst(graph: Graph, ordered: seq<string>, levels: map<string, nat>, i: nat, d: string)
    requires IsLevels(graph, graph.Keys, levels) && SetOf(ordered) == graph.Keys
    requires Sorted(ordered, levels) && i < |ordered| && d in graph[ordered[i]]
    ensures exists j :: 0 <= j < i && ordered[j] == d
  {
    assert IsLevelOf(graph, graph.Keys, levels, ordered[i]);
    assert d in SetOf(ordered);
    var j :| 0 <= j < |ordered| && ordered[j] == d;
    hide Precedes;
  }

  /** A member depends on another by a normal or a build dependency. */
  predicate DependsOn(members: map<string, seq<Dependency>>, name: string, d: string) {
    name in members && d in members &&
    exists k :: 0 <= k < |members[name]| && members[name][k].name == d
                && (members[name][k].kind == Normal || members[name][k].kind == Build)
  }

  /** Those dependencies, and no others, are the graph's. */
  lemma GraphIs(members: map<string, seq<Dependency>>, name: string, d: string)
    requires name in members
    ensures d in DependencyGraph(members)[name] <==> DependsOn(members, name, d)
  {
    if d in DependencyGraph(members)[name] {
      var dependency :| dependency in members[name] && dependency.kind != Development && dependency.name in members
                        && dependency.name == d;
      var k :| 0 <= k < |members[name]| && members[name][k] == dependency;
    }
  }

  /** In the order of the members each stands after those it depends on, and of two on one level the one
      whose name comes first. */
  lemma MembersInOrder(members: map<string, seq<Dependency>>, ordered: seq<string>, levels: map<string, nat>, i: nat)
    requires IsLevels(DependencyGraph(members), members.Keys, levels)
    requires SetOf(ordered) == members.Keys && Sorted(ordered, levels) && i < |ordered|
    ensures forall d :: DependsOn(members, ordered[i], d) ==> exists j :: 0 <= j < i && ordered[j] == d
    ensures forall j :: i < j < |ordered| && levels[ordered[i]] == levels[ordered[j]] ==>
      IsBefore(ordered[i], ordered[j])
  {
    GraphKeys(members);
    assert ordered[i] in SetOf(ordered);
    hide DependencyGraph, IsLevels, Precedes, DependsOn, SetOf;
    forall d | DependsOn(members, ordered[i], d)
      ensures exists j :: 0 <= j < i && ordered[j] == d
    {
      GraphIs(members, ordered[i], d);
      DependenciesFirst(DependencyGraph(members), ordered, levels, i, d);
    }
    forall j | i < j < |ordered| && levels[ordered[i]] == levels[ordered[j]]
      ensures IsBefore(ordered[i], ordered[j])
    {
      PrecedesIs(ordered[i], ordered[j]);
    }
  }

  lemma LevelsSame(graph: Graph, la: map<string, nat>, lb: map<string, nat>)
    requires IsLevels(graph, graph.Keys, la) && IsLevels(graph, graph.Keys, lb)
    ensures la == lb && la.Keys == graph.Keys
  {
    hide IsLevelOf;
    forall name | name in graph.Keys
      ensures la[name] == lb[name]
    {
      LevelsUnique(graph, graph.Keys, la, lb, name);
    }
  }

  /** A sorted order is determined by the graph. */
  lemma OrderUnique(graph: Graph, a: seq<string>, b: seq<string>, la: map<string, nat>, lb: map<string, nat>)
    requires IsLevels(graph, graph.Keys, la) && IsLevels(graph, graph.Keys, lb)
    requires SetOf(a) == graph.Keys == SetOf(b) && AllDistinct(a) && AllDistinct(b)
    requires Sorted(a, la) && Sorted(b, lb)
    ensures la == lb && a == b
  {
    hide *;
    LevelsSame(graph, la, lb);
    SortedUnique(a, b, la);
  }

  lemma {:induction false} SortedUnique(a: seq<string>, b: seq<string>, levels: map<string, nat>)
    requires SetOf(a) == SetOf(b) <= levels.Keys
    requires AllDistinct(a) && AllDistinct(b) && Sorted(a, levels) && Sorted(b, levels)
    ensures a == b
  {
    if a == [] {
      NonEmptySet(b);
    } else {
      assert a[0] in SetOf(b) && b != [] && b[0] in SetOf(a);
      assert a[0] == b[0] by { FirstUnique(a, b, levels); }
      TailSet(a);
      TailSet(b);
      hide Precedes;
      SortedUnique(a[1..], b[1..], levels);
      assert a == [a[0]] + a[1..] && b == [b[0]] + b[1..];
    }
  }

  lemma TailSet(names: seq<string>)
    requires names != [] && AllDistinct(names)
    ensures SetOf(names[1..]) == SetOf(names) - {names[0]} && AllDistinct(names[1..])
  {
    assert names == [names[0]] + names[1..];
    assert names[0] !in names[1..];
  }

  lemma FirstUnique(a: seq<string>, b: seq<string>, levels: map<string, nat>)
    requires SetOf(a) == SetOf(b) <= levels.Keys && a != [] && b != []
    requires Sorted(a, levels) && Sorted(b, levels)
    ensures a[0] == b[0]
  {
    assert a[0] in SetOf(b) && b[0] in SetOf(a);
    var i :| 0 <= i < |b| && b[i] == a[0];
    var j :| 0 <= j < |a| && a[j] == b[0];
    PrecedesOnce(a[0], b[0]);
    hide Precedes;
  }

  /** Orders the members, given with their names in ascending order, or reports those from which a
      cycle can be reached. */
  method Order(names: seq<string>, members: map<string, seq<Dependency>>)
      returns (result: Result, ghost levels: map<string, nat>)
    requires Ascending(names) && members.Keys == SetOf(names)
    ensures result.DependencyCycle? <==> HasCycle(DependencyGraph(members))
    ensures result.DependencyCycle? ==>
      && Ascending(result.names)
      && forall name :: name in result.names <==> name in members && ReachesCycle(DependencyGraph(members), name)
    ensures result.Ordered? ==>
      && IsLevels(DependencyGraph(members), members.Keys, levels)
      && AllDistinct(result.names) && SetOf(result.names) == members.Keys && Sorted(result.names, levels)
  {
    ghost var graph := DependencyGraph(members);
    var remaining, left, ordered := DependencyGraph(members), names, [];
    ghost var round := 0;
    levels := map[];
    FirstRound(names, members);
    hide DependencyGraph, Leaves, Publishes, HoldsBack, Select;
    hide ReadySet, Unpublished, NextLevels, Ascending, HasCycle, ReachesCycle;
    while left != []
      invariant Between(graph, left, remaining, ordered, round, levels)
      decreases |left|
    {
      RoundKeeps(graph, left, remaining, ordered, round, levels);
      var ready := Select(left, ReadySet(remaining));
      if ready == [] {
        NothingReady(graph, left, remaining, ordered, round, levels);
        StuckRound(graph, left, remaining, ordered, round, levels);
        GraphKeys(members);
        return DependencyCycle(left), levels;
      }
      ReadyNames(graph, left, remaining, SetOf(ordered), ready);
      levels := NextLevels(levels, ReadySet(remaining), round);
      remaining, ordered := Publish(ready, remaining, ordered);
      SelectShrinks(left, remaining.Keys, ready[0]);
      left := Select(left, remaining.Keys);
      round := round + 1;
    }
    AllPublished(graph, left, remaining, ordered, round, levels);
    assert graph.Keys == members.Keys by { GraphKeys(members); }
    result := Ordered(ordered);
  }

  lemma GraphKeys(members: map<string, seq<Dependency>>)
    ensures DependencyGraph(members).Keys == members.Keys
  {
  }
}

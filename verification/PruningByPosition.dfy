/** What pruning leaves, said by the positions of messages and parts. */
module PruningByPosition {
  import opened Options
  import opened Sequences
  import opened MessagePruning

  /** The rule spares the message at `i` of `n`: it is one of the last ones, or the rule is for the
      messages before the last zero, which spares all. */
  predicate Spares(rule: Rule, n: nat, i: nat) {
    rule.scope.BeforeLastMessages? && (rule.scope.n == 0 || i + rule.scope.n >= n)
  }

  predicate AboutCall(part: Part, id: string) {
    (part.Call? || part.Result?) && part.id == id
  }

  predicate AboutApproval(part: Part, id: string) {
    (part.Request? || part.Response?) && part.approvalId == id
  }

  /** A spared message holds a part about the call. */
  ghost predicate SparedCall(ms: seq<Message>, rule: Rule, id: string) {
    exists j, part :: 0 <= j < |ms| && Spares(rule, |ms|, j) && part in PartsOf(ms[j]) && AboutCall(part, id)
  }

  ghost predicate SparedApproval(ms: seq<Message>, rule: Rule, id: string) {
    exists j, part :: 0 <= j < |ms| && Spares(rule, |ms|, j) && part in PartsOf(ms[j]) && AboutApproval(part, id)
  }

  /** The last part about the call names its tool. */
  ghost predicate ToolOfCall(parts: seq<Part>, id: string, name: string) {
    exists i :: 0 <= i < |parts| && AboutCall(parts[i], id) && parts[i].name == name
                && forall j :: i < j < |parts| ==> !AboutCall(parts[j], id)
  }

  /** The part requests the approval of a call whose tool is known. */
  ghost predicate Requests(parts: seq<Part>, part: Part, id: string) {
    part.Request? && part.approvalId == id && exists name :: ToolOfCall(parts, part.callId, name)
  }

  /** The tool that the last such request is about. */
  ghost predicate ToolOfApproval(all: seq<Part>, parts: seq<Part>, id: string, name: string) {
    exists i :: 0 <= i < |parts| && Requests(all, parts[i], id) && ToolOfCall(all, parts[i].callId, name)
                && forall j :: i < j < |parts| ==> !Requests(all, parts[j], id)
  }

  /** Which parts of messages that it does not spare a rule leaves. */
  ghost predicate Leaves(ms: seq<Message>, rule: Rule, part: Part) {
    match part
    case Call(id, name, _) => SparedCall(ms, rule, id) || (rule.tools.Some? && name !in rule.tools.value)
    case Result(id, name, _) => SparedCall(ms, rule, id) || (rule.tools.Some? && name !in rule.tools.value)
    case Request(id, _, _) => SparedApproval(ms, rule, id) || OtherTool(ms, rule, id)
    case Response(id, _) => SparedApproval(ms, rule, id) || OtherTool(ms, rule, id)
    case _ => true
  }

  /** The approval is known to be about a tool that the rule is not for. */
  ghost predicate OtherTool(ms: seq<Message>, rule: Rule, id: string) {
    rule.tools.Some? && exists name :: ToolOfApproval(AllParts(ms), AllParts(ms), id, name) && name !in rule.tools.value
  }

  /** The kept parts of a list, in order and as often as they occur. */
  ghost predicate Picks(parts: seq<Part>, kept: seq<Part>, p: Part -> bool)
    decreases |parts|
  {
    if parts == [] then kept == []
    else if p(parts[0]) then kept != [] && kept[0] == parts[0] && Picks(parts[1..], kept[1..], p)
    else Picks(parts[1..], kept, p)
  }

  lemma {:induction false} FilterPicks(parts: seq<Part>, p: Part -> bool, q: Part -> bool)
    requires forall part :: part in parts ==> p(part) == q(part)
    ensures Picks(parts, Filter(parts, p), q)
  {
    if parts != [] {
      assert parts == [parts[0]] + parts[1..];
      FilterPicks(parts[1..], p, q);
      var rest := Filter(parts[1..], p);
      assert ([parts[0]] + rest)[1..] == rest && [] + rest == rest;
    }
  }

  lemma {:induction false} InAllParts(ms: seq<Message>, part: Part)
    ensures part in AllParts(ms) <==> exists j :: 0 <= j < |ms| && part in PartsOf(ms[j])
  {
    if ms != [] {
      InAllParts(ms[1..], part);
      hide PartsOf;
      assert forall j :: 0 < j < |ms| ==> ms[j] == ms[1..][j - 1];
      if j :| 0 <= j < |ms| && part in PartsOf(ms[j]) {
        assert j > 0 ==> part in PartsOf(ms[1..][j - 1]);
      }
    }
  }

  lemma InTail(ms: seq<Message>, rule: Rule, part: Part)
    ensures part in Tail(ms, rule) <==> exists j :: 0 <= j < |ms| && Spares(rule, |ms|, j) && part in PartsOf(ms[j])
  {
    var from := ProtectedFrom(rule, |ms|);
    var rest := ms[from..];
    InAllParts(rest, part);
    assert forall j :: 0 <= j < |ms| ==> (Spares(rule, |ms|, j) <==> from <= j);
    hide PartsOf, Spares, AllParts;
    if j :| 0 <= j < |ms| && Spares(rule, |ms|, j) && part in PartsOf(ms[j]) {
      assert rest[j - from] == ms[j];
    }
    if k :| 0 <= k < |rest| && part in PartsOf(rest[k]) {
      assert ms[from + k] == rest[k];
    }
  }

  lemma {:induction false} CallNameIs(parts: seq<Part>, id: string)
    ensures forall name :: CallName(parts, id) == Some(name) <==> ToolOfCall(parts, id, name)
    decreases |parts|
  {
    if parts != [] {
      var init, last := parts[..|parts| - 1], parts[|parts| - 1];
      CallNameIs(init, id);
      forall name
        ensures CallName(parts, id) == Some(name) <==> ToolOfCall(parts, id, name)
      {
        if AboutCall(last, id) {
          assert AboutCall(parts[|parts| - 1], id);
        } else {
          if ToolOfCall(parts, id, name) {
            var i :| 0 <= i < |parts| && AboutCall(parts[i], id) && parts[i].name == name &&
              forall j :: i < j < |parts| ==> !AboutCall(parts[j], id);
            assert init[i] == parts[i];
          }
          if ToolOfCall(init, id, name) {
            var i :| 0 <= i < |init| && AboutCall(init[i], id) && init[i].name == name &&
              forall j :: i < j < |init| ==> !AboutCall(init[j], id);
            assert parts[i] == init[i];
          }
        }
      }
    }
  }

  lemma RequestsIs(all: seq<Part>, part: Part, id: string)
    ensures Requests(all, part, id) <==> part.Request? && part.approvalId == id && CallName(all, part.callId).Some?
    ensures forall name :: Requests(all, part, id) ==>
      (ToolOfCall(all, part.callId, name) <==> CallName(all, part.callId) == Some(name))
  {
    if part.Request? {
      CallNameIs(all, part.callId);
      if CallName(all, part.callId).Some? {
        assert ToolOfCall(all, part.callId, CallName(all, part.callId).value);
      }
    }
  }

  /** The last part decides, or those before it. */
  lemma ApprovalNext(all: seq<Part>, parts: seq<Part>, id: string, name: string)
    requires parts != []
    ensures var init, last := parts[..|parts| - 1], parts[|parts| - 1];
      ToolOfApproval(all, parts, id, name) <==>
        if Requests(all, last, id) then ToolOfCall(all, last.callId, name) else ToolOfApproval(all, init, id, name)
  {
    var init, last := parts[..|parts| - 1], parts[|parts| - 1];
    hide Requests, ToolOfCall;
    if Requests(all, last, id) {
      assert Requests(all, parts[|parts| - 1], id);
    } else {
      if ToolOfApproval(all, parts, id, name) {
        var i :| 0 <= i < |parts| && Requests(all, parts[i], id) && ToolOfCall(all, parts[i].callId, name) &&
          forall j :: i < j < |parts| ==> !Requests(all, parts[j], id);
        assert init[i] == parts[i];
      }
      if ToolOfApproval(all, init, id, name) {
        var i :| 0 <= i < |init| && Requests(all, init[i], id) && ToolOfCall(all, init[i].callId, name) &&
          forall j :: i < j < |init| ==> !Requests(all, init[j], id);
        assert parts[i] == init[i];
      }
    }
  }

  lemma {:induction false} ApprovalNameIs(all: seq<Part>, parts: seq<Part>, id: string)
    ensures forall name :: ApprovalName(all, parts, id) == Some(name) <==> ToolOfApproval(all, parts, id, name)
    decreases |parts|
  {
    if parts != [] {
      var init, last := parts[..|parts| - 1], parts[|parts| - 1];
      ApprovalNameIs(all, init, id);
      RequestsIs(all, last, id);
      hide CallName, Requests, ToolOfCall, ToolOfApproval;
      forall name
        ensures ApprovalName(all, parts, id) == Some(name) <==> ToolOfApproval(all, parts, id, name)
      {
        ApprovalNext(all, parts, id, name);
      }
    }
  }

  lemma SparedCallIs(ms: seq<Message>, rule: Rule, id: string)
    ensures SparedCall(ms, rule, id) <==> id in CallIds(Tail(ms, rule))
  {
    hide Tail, Spares, PartsOf;
    if SparedCall(ms, rule, id) {
      var j, part :| 0 <= j < |ms| && Spares(rule, |ms|, j) && part in PartsOf(ms[j]) && AboutCall(part, id);
      InTail(ms, rule, part);
    }
    if id in CallIds(Tail(ms, rule)) {
      var part :| part in Tail(ms, rule) && IsCall(part) && part.id == id;
      InTail(ms, rule, part);
      var j :| 0 <= j < |ms| && Spares(rule, |ms|, j) && part in PartsOf(ms[j]);
      assert AboutCall(part, id);
    }
  }

  lemma SparedApprovalIs(ms: seq<Message>, rule: Rule, id: string)
    ensures SparedApproval(ms, rule, id) <==> id in ApprovalIds(Tail(ms, rule))
  {
    hide Tail, Spares, PartsOf;
    if SparedApproval(ms, rule, id) {
      var j, part :| 0 <= j < |ms| && Spares(rule, |ms|, j) && part in PartsOf(ms[j]) && AboutApproval(part, id);
      InTail(ms, rule, part);
    }
    if id in ApprovalIds(Tail(ms, rule)) {
      var part :| part in Tail(ms, rule) && IsApproval(part) && part.approvalId == id;
      InTail(ms, rule, part);
      var j :| 0 <= j < |ms| && Spares(rule, |ms|, j) && part in PartsOf(ms[j]);
      assert AboutApproval(part, id);
    }
  }

  lemma OtherToolIs(ms: seq<Message>, rule: Rule, id: string)
    ensures OtherTool(ms, rule, id) <==> RuleKeeps(rule, ApprovalName(AllParts(ms), AllParts(ms), id))
  {
    var all := AllParts(ms);
    ApprovalNameIs(all, all, id);
    hide ApprovalName, ToolOfApproval, AllParts;
    var name := ApprovalName(all, all, id);
    assert name.Some? ==> ToolOfApproval(all, all, id, name.value);
  }

  lemma LeavesIs(ms: seq<Message>, rule: Rule, part: Part)
    ensures Leaves(ms, rule, part) <==> Keeping(rule, ms)(part)
  {
    hide Tail, AllParts, CallIds, ApprovalIds, ApprovalName, SparedCall, SparedApproval, OtherTool;
    match part
    case Call(id, _, _) => SparedCallIs(ms, rule, id);
    case Result(id, _, _) => SparedCallIs(ms, rule, id);
    case Request(id, _, _) =>
      SparedApprovalIs(ms, rule, id);
      OtherToolIs(ms, rule, id);
    case Response(id, _) =>
      SparedApprovalIs(ms, rule, id);
      OtherToolIs(ms, rule, id);
    case _ =>
  }

  /** A rule leaves spared messages, and messages that hold no parts, as they are.  Elsewhere it leaves,
      in order, the parts that concern no tool, those about calls and approvals that a spared message
      holds a part about, and when it is for certain tools, those known to be about others. */
  lemma RulePrunes(ms: seq<Message>, rule: Rule, i: nat, p: Part -> bool)
    requires i < |ms| && forall part :: p(part) <==> Leaves(ms, rule, part)
    ensures var rs := PruneRule(ms, rule);
      && |rs| == |ms|
      && (Spares(rule, |ms|, i) ==> rs[i] == ms[i])
      && (!Spares(rule, |ms|, i) ==>
            match ms[i]
            case Assistant(parts) => rs[i].Assistant? && Picks(parts, rs[i].parts, p)
            case Tool(parts) => rs[i].Tool? && Picks(parts, rs[i].parts, p)
            case _ => rs[i] == ms[i])
  {
    var rs, keeps := PruneRule(ms, rule), Keeping(rule, ms);
    var from := ProtectedFrom(rule, |ms|);
    assert from <= i <==> Spares(rule, |ms|, i);
    hide Leaves, Keeping, ProtectedFrom, Spares;
    assert rs[i] == if i < from then Retained(ms[i], keeps) else ms[i];
    forall part
      ensures keeps(part) == p(part)
    {
      LeavesIs(ms, rule, part);
    }
    FilterPicks(PartsOf(ms[i]), keeps, p);
  }

  /** One rule after the other, each for what the one before left. */
  lemma {:induction false} RulesInTurn(ms: seq<Message>, rules: seq<Rule>, last: Rule)
    ensures PruneRules(ms, []) == ms
    ensures PruneRules(ms, rules + [last]) == PruneRule(PruneRules(ms, rules), last)
    decreases |rules|
  {
    hide PruneRule;
    if rules == [] {
      assert [] + [last] == [last] && [last][1..] == [];
      assert PruneRules(PruneRule(ms, last), []) == PruneRule(ms, last);
    } else {
      assert (rules + [last])[1..] == rules[1..] + [last];
      RulesInTurn(PruneRule(ms, rules[0]), rules[1..], last);
    }
  }

  // ----- Reasoning and empty messages

  lemma {:induction false} FilterTwice(parts: seq<Part>, p: Part -> bool, q: Part -> bool)
    ensures Filter(Filter(parts, p), q) == Filter(Filter(parts, q), p)
  {
    if parts != [] {
      var first, rest := parts[0], parts[1..];
      FilterTwice(rest, p, q);
      FilterFirst(first, rest, p);
      FilterFirst(first, rest, q);
      FilterFirst(first, Filter(rest, p), q);
      FilterFirst(first, Filter(rest, q), p);
      assert parts == [first] + rest;
      hide Filter;
    }
  }

  lemma FilterFirst(first: Part, rest: seq<Part>, p: Part -> bool)
    ensures Filter([first] + rest, p) == if p(first) then [first] + Filter(rest, p) else Filter(rest, p)
  {
    assert ([first] + rest)[1..] == rest && [] + Filter(rest, p) == Filter(rest, p);
  }

  lemma {:induction false} CallNameWithout(parts: seq<Part>, id: string)
    ensures CallName(Filter(parts, IsNoReasoning), id) == CallName(parts, id)
    decreases |parts|
  {
    if parts != [] {
      var init, last := parts[..|parts| - 1], parts[|parts| - 1];
      CallNameWithout(init, id);
      FilterLast(parts, IsNoReasoning);
      CallNameLast(Filter(init, IsNoReasoning), last, id);
      assert Filter(init, IsNoReasoning) + [] == Filter(init, IsNoReasoning);
    }
  }

  lemma {:induction false} ApprovalNameWithout(all: seq<Part>, parts: seq<Part>, id: string)
    ensures ApprovalName(Filter(all, IsNoReasoning), Filter(parts, IsNoReasoning), id) == ApprovalName(all, parts, id)
    decreases |parts|
  {
    if parts != [] {
      var init, last := parts[..|parts| - 1], parts[|parts| - 1];
      ApprovalNameWithout(all, init, id);
      FilterLast(parts, IsNoReasoning);
      ApprovalNameLast(Filter(all, IsNoReasoning), Filter(init, IsNoReasoning), last, id);
      if last.Request? {
        CallNameWithout(all, last.callId);
      }
      assert Filter(init, IsNoReasoning) + [] == Filter(init, IsNoReasoning);
    }
  }

  /** Lists that agree beside reasoning name the same tools. */
  lemma SameNames(a: seq<Part>, b: seq<Part>, id: string)
    requires Filter(a, IsNoReasoning) == Filter(b, IsNoReasoning)
    ensures CallName(a, id) == CallName(b, id) && ApprovalName(a, a, id) == ApprovalName(b, b, id)
  {
    CallNameWithout(a, id);
    CallNameWithout(b, id);
    ApprovalNameWithout(a, a, id);
    ApprovalNameWithout(b, b, id);
  }

  lemma SameIds(a: seq<Part>, b: seq<Part>)
    requires Filter(a, IsNoReasoning) == Filter(b, IsNoReasoning)
    ensures CallIds(a) == CallIds(b) && ApprovalIds(a) == ApprovalIds(b)
  {
    FilterIn(a, IsNoReasoning);
    FilterIn(b, IsNoReasoning);
    assert forall part: Part :: !part.Reasoning? ==> (part in a <==> part in b);
    assert forall part: Part :: IsCall(part) || IsApproval(part) ==> !part.Reasoning?;
    hide Filter;
  }

  lemma SameKeeping(ms: seq<Message>, reasoning: ReasoningPrune, rule: Rule, part: Part)
    ensures Keeping(rule, PruneReasoning(ms, reasoning))(part) == Keeping(rule, ms)(part)
  {
    var rs, from := PruneReasoning(ms, reasoning), ProtectedFrom(rule, |ms|);
    ReasoningParts(ms, rs, IsNoReasoning);
    ReasoningParts(ms[from..], rs[from..], IsNoReasoning);
    SameIds(Tail(ms, rule), Tail(rs, rule));
    hide Filter, AllParts, CallIds, ApprovalIds, CallName, ApprovalName, PruneReasoning;
    if IsApproval(part) {
      SameNames(AllParts(ms), AllParts(rs), part.approvalId);
    }
  }

  lemma RetainedTwice(m: Message, p: Part -> bool, q: Part -> bool)
    ensures Retained(Retained(m, p), q) == Retained(Retained(m, q), p)
  {
    FilterTwice(PartsOf(m), p, q);
  }

  lemma RetainedSame(m: Message, p: Part -> bool, q: Part -> bool)
    requires forall part :: p(part) == q(part)
    ensures Retained(m, p) == Retained(m, q)
  {
    FilterSame(PartsOf(m), p, q);
  }

  lemma {:induction false} FilterSame(parts: seq<Part>, p: Part -> bool, q: Part -> bool)
    requires forall part :: p(part) == q(part)
    ensures Filter(parts, p) == Filter(parts, q)
  {
    if parts != [] {
      FilterSame(parts[1..], p, q);
    }
  }

  lemma RuleAndReasoning(ms: seq<Message>, reasoning: ReasoningPrune, rule: Rule)
    ensures PruneRule(PruneReasoning(ms, reasoning), rule) == PruneReasoning(PruneRule(ms, rule), reasoning)
  {
    var rs := PruneReasoning(ms, reasoning);
    var a, b := PruneRule(rs, rule), PruneReasoning(PruneRule(ms, rule), reasoning);
    var p, q := Keeping(rule, rs), Keeping(rule, ms);
    forall part
      ensures p(part) == q(part)
    {
      SameKeeping(ms, reasoning, rule, part);
    }
    forall i | 0 <= i < |ms|
      ensures a[i] == b[i]
    {
      RetainedTwice(ms[i], q, IsNoReasoning);
      RetainedSame(rs[i], p, q);
      hide Keeping, Filter, PartsOf;
    }
  }

  /** Whether reasoning is pruned before the rules or after them makes no difference. */
  lemma {:induction false} ReasoningCommutes(ms: seq<Message>, reasoning: ReasoningPrune, rules: seq<Rule>)
    ensures PruneRules(PruneReasoning(ms, reasoning), rules) == PruneReasoning(PruneRules(ms, rules), reasoning)
    decreases |rules|
  {
    hide PruneRule, PruneReasoning;
    if rules != [] {
      RuleAndReasoning(ms, reasoning, rules[0]);
      ReasoningCommutes(PruneRule(ms, rules[0]), reasoning, rules[1..]);
    }
  }

  /** Empty messages go last, and only those: the others stay in order. */
  lemma {:induction false} EmptyGoLast(ms: seq<Message>, m: Message, options: PruneOptions)
    ensures WithoutEmpty([]) == []
    ensures WithoutEmpty(ms + [m]) == WithoutEmpty(ms) +
      if m == Assistant([]) || m == Tool([]) || m in {System(""), User(""), AssistantText("")} then [] else [m]
    ensures var kept := Pruned(ms, options.(removeEmpty := false));
      Pruned(ms, options) == if options.removeEmpty then WithoutEmpty(kept) else kept
    ensures Pruned(ms, options.(removeEmpty := false))
         == PruneReasoning(PruneRules(ms, options.toolCalls), options.reasoning)
    decreases |ms|
  {
    ReasoningCommutes(ms, options.reasoning, options.toolCalls);
    if ms == [] {
      assert [] + [m] == [m] && [m][1..] == [];
    } else {
      assert (ms + [m])[1..] == ms[1..] + [m];
      EmptyGoLast(ms[1..], m, options);
      hide Pruned, PruneRules, PruneReasoning;
      var last := WithoutEmpty([m]);
      Cat2(if IsEmpty(ms[0]) then [] else [ms[0]], WithoutEmpty(ms[1..]), WithoutEmpty([m]));
    }
  }
}

/** Pruning messages of reasoning and tool parts without separating what belongs together.

    An assistant message holds no approval responses, and a tool message only results and
    responses; nothing below depends on it, so both hold parts of one type. */
module MessagePruning {
  import opened Options
  import opened Sequences

  datatype Part =
    | Content(payload: string)
    | Reasoning(payload: string)
    | Call(id: string, name: string, payload: string)
    | Result(id: string, name: string, payload: string)
    | Request(approvalId: string, callId: string, payload: string)
    | Response(approvalId: string, payload: string)

  datatype Message =
    | System(text: string)
    | User(text: string)
    | AssistantText(text: string)
    | Assistant(parts: seq<Part>)
    | Tool(parts: seq<Part>)

  datatype ReasoningPrune = KeepReasoning | AllReasoning | BeforeLastMessage

  datatype Scope = Everywhere | BeforeLastMessages(n: nat)

  /** Without `tools` the rule prunes every tool. */
  datatype Rule = Rule(scope: Scope, tools: Option<seq<string>>)

  datatype PruneOptions = PruneOptions(reasoning: ReasoningPrune, toolCalls: seq<Rule>, removeEmpty: bool)

  // ----- Parts of messages

  function PartsOf(m: Message): seq<Part> {
    match m
    case Assistant(parts) => parts
    case Tool(parts) => parts
    case _ => []
  }

  function WithParts(m: Message, parts: seq<Part>): Message {
    match m
    case Assistant(_) => Assistant(parts)
    case Tool(_) => Tool(parts)
    case _ => m
  }

  function AllParts(ms: seq<Message>): seq<Part> {
    if ms == [] then [] else PartsOf(ms[0]) + AllParts(ms[1..])
  }

  function Filter(parts: seq<Part>, p: Part -> bool): seq<Part> {
    if parts == [] then [] else (if p(parts[0]) then [parts[0]] else []) + Filter(parts[1..], p)
  }

  predicate IsCall(part: Part) {
    part.Call? || part.Result?
  }

  predicate IsApproval(part: Part) {
    part.Request? || part.Response?
  }

  predicate IsEmpty(m: Message) {
    match m
    case Assistant(parts) => parts == []
    case Tool(parts) => parts == []
    case _ => m.text == ""
  }

  // ----- What a rule keeps

  function ProtectedFrom(rule: Rule, n: nat): (from: nat)
    ensures from <= n
  {
    match rule.scope
    case Everywhere => n
    case BeforeLastMessages(last) => if last == 0 then 0 else if last < n then n - last else 0
  }

  /** A rule for certain tools keeps a part whose tool is known and not among them. */
  predicate RuleKeeps(rule: Rule, name: Option<string>) {
    rule.tools.Some? && name.Some? && name.value !in rule.tools.value
  }

  function CallIds(parts: seq<Part>): set<string> {
    set part | part in parts && IsCall(part) :: part.id
  }

  function ApprovalIds(parts: seq<Part>): set<string> {
    set part | part in parts && IsApproval(part) :: part.approvalId
  }

  /** The tool of a call: the one the last part about it names. */
  function CallName(parts: seq<Part>, id: string): Option<string> {
    if parts == [] then None
    else
      var last := parts[|parts| - 1];
      if IsCall(last) && last.id == id then Some(last.name) else CallName(parts[..|parts| - 1], id)
  }

  /** The tool of an approval: that of the last requested call whose tool is known. */
  function ApprovalName(all: seq<Part>, parts: seq<Part>, id: string): Option<string> {
    if parts == [] then None
    else
      var last := parts[|parts| - 1];
      if last.Request? && last.approvalId == id && CallName(all, last.callId).Some? then CallName(all, last.callId)
      else ApprovalName(all, parts[..|parts| - 1], id)
  }

  /** Whether a rule keeps a part, given the parts of the protected tail and all parts. */
  predicate Keeps(rule: Rule, tail: seq<Part>, all: seq<Part>, part: Part) {
    if IsCall(part) then part.id in CallIds(tail) || RuleKeeps(rule, Some(part.name))
    else if IsApproval(part) then
      part.approvalId in ApprovalIds(tail) || RuleKeeps(rule, ApprovalName(all, all, part.approvalId))
    else true
  }

  function Tail(ms: seq<Message>, rule: Rule): seq<Part> {
    AllParts(ms[ProtectedFrom(rule, |ms|)..])
  }

  function Keeping(rule: Rule, ms: seq<Message>): Part -> bool {
    var tail, all := Tail(ms, rule), AllParts(ms);
    part => Keeps(rule, tail, all, part)
  }

  function Retained(m: Message, p: Part -> bool): Message {
    WithParts(m, Filter(PartsOf(m), p))
  }

  /** The messages after one rule. */
  function PruneRule(ms: seq<Message>, rule: Rule): seq<Message> {
    var from, keeps := ProtectedFrom(rule, |ms|), Keeping(rule, ms);
    seq(|ms|, i requires 0 <= i < |ms| => if i < from then Retained(ms[i], keeps) else ms[i])
  }

  predicate IsNoReasoning(part: Part) {
    !part.Reasoning?
  }

  function PruneReasoning(ms: seq<Message>, reasoning: ReasoningPrune): seq<Message> {
    seq(|ms|, i requires 0 <= i < |ms| =>
      if reasoning.KeepReasoning? || (reasoning.BeforeLastMessage? && i == |ms| - 1) || !ms[i].Assistant? then ms[i]
      else Retained(ms[i], IsNoReasoning))
  }

  function PruneRules(ms: seq<Message>, rules: seq<Rule>): seq<Message>
    decreases |rules|
  {
    if rules == [] then ms else PruneRules(PruneRule(ms, rules[0]), rules[1..])
  }

  function WithoutEmpty(ms: seq<Message>): seq<Message> {
    if ms == [] then [] else (if IsEmpty(ms[0]) then [] else [ms[0]]) + WithoutEmpty(ms[1..])
  }

  function Pruned(ms: seq<Message>, options: PruneOptions): seq<Message> {
    var rest := PruneRules(PruneReasoning(ms, options.reasoning), options.toolCalls);
    if options.removeEmpty then WithoutEmpty(rest) else rest
  }

  // ----- Filtering

  lemma {:induction false} FilterCat(a: seq<Part>, b: seq<Part>, p: Part -> bool)
    ensures Filter(a + b, p) == Filter(a, p) + Filter(b, p)
  {
    if a == [] {
      assert a + b == b;
    } else {
      assert (a + b)[1..] == a[1..] + b;
      FilterCat(a[1..], b, p);
      Cat2(if p(a[0]) then [a[0]] else [], Filter(a[1..], p), Filter(b, p));
    }
  }

  lemma {:induction false} FilterAll(a: seq<Part>, p: Part -> bool)
    requires forall i :: 0 <= i < |a| ==> p(a[i])
    ensures Filter(a, p) == a
  {
    if a != [] {
      FilterAll(a[1..], p);
    }
  }

  lemma {:induction false} FilterIn(a: seq<Part>, p: Part -> bool)
    ensures forall part :: part in Filter(a, p) <==> part in a && p(part)
  {
    if a != [] {
      FilterIn(a[1..], p);
      assert a == [a[0]] + a[1..];
    }
  }

  /** Filtering by `p` keeps the order and number of the parts that `q` picks when `p` keeps
      them all, and leaves none of them when it keeps none. */
  lemma {:induction false} FilterFilter(a: seq<Part>, p: Part -> bool, q: Part -> bool)
    ensures (forall part :: part in a && q(part) ==> p(part)) ==> Filter(Filter(a, p), q) == Filter(a, q)
    ensures (forall part :: part in a && q(part) ==> !p(part)) ==> Filter(Filter(a, p), q) == []
  {
    if a != [] {
      var rest := a[1..];
      FilterFilter(rest, p, q);
      assert a == [a[0]] + rest;
      assert forall part :: part in rest ==> part in a;
      if p(a[0]) {
        FilterCat([a[0]], Filter(rest, p), q);
        assert Filter([a[0]], q) == if q(a[0]) then [a[0]] else [] by { assert [a[0]][1..] == []; }
      } else {
        assert Filter(a, p) == Filter(rest, p);
      }
    }
  }

  // ----- One rule keeps or drops parts by what they belong to

  lemma {:induction false} AllPartsCat(a: seq<Message>, b: seq<Message>)
    ensures AllParts(a + b) == AllParts(a) + AllParts(b)
  {
    if a == [] {
      assert a + b == b;
    } else {
      assert (a + b)[1..] == a[1..] + b;
      AllPartsCat(a[1..], b);
      Cat2(PartsOf(a[0]), AllParts(a[1..]), AllParts(b));
    }
  }

  lemma {:induction false} RetainedParts(ms: seq<Message>, rs: seq<Message>, p: Part -> bool)
    requires |rs| == |ms| && forall i :: 0 <= i < |ms| ==> rs[i] == Retained(ms[i], p)
    ensures AllParts(rs) == Filter(AllParts(ms), p)
  {
    if ms != [] {
      RetainedParts(ms[1..], rs[1..], p);
      FilterCat(PartsOf(ms[0]), AllParts(ms[1..]), p);
      assert PartsOf(Retained(ms[0], p)) == Filter(PartsOf(ms[0]), p);
    }
  }

  lemma TailIsKept(rule: Rule, ms: seq<Message>)
    ensures forall part :: part in Tail(ms, rule) ==> Keeping(rule, ms)(part)
  {
  }

  /** A rule filters the parts, message by message, and leaves the protected tail as it is. */
  lemma RuleFilters(ms: seq<Message>, rule: Rule)
    ensures AllParts(PruneRule(ms, rule)) == Filter(AllParts(ms), Keeping(rule, ms))
    ensures Tail(PruneRule(ms, rule), rule) == Tail(ms, rule)
  {
    var from, keeps, rs := ProtectedFrom(rule, |ms|), Keeping(rule, ms), PruneRule(ms, rule);
    TailIsKept(rule, ms);
    assert ms == ms[..from] + ms[from..] && rs == rs[..from] + rs[from..] && rs[from..] == ms[from..];
    hide Keeping;
    AllPartsCat(ms[..from], ms[from..]);
    AllPartsCat(rs[..from], rs[from..]);
    RetainedParts(ms[..from], rs[..from], keeps);
    FilterCat(AllParts(ms[..from]), Tail(ms, rule), keeps);
    FilterAll(Tail(ms, rule), keeps);
  }

  /** All parts that `q` picks are still there, in order, or none is. */
  predicate AllOrNone(before: seq<Part>, after: seq<Part>, q: Part -> bool) {
    Filter(after, q) == Filter(before, q) || Filter(after, q) == []
  }

  function OfCall(id: string): Part -> bool {
    part => IsCall(part) && part.id == id
  }

  function OfApproval(id: string): Part -> bool {
    part => IsApproval(part) && part.approvalId == id
  }

  /** All parts about a call name one tool. */
  predicate OneName(parts: seq<Part>, id: string) {
    forall a, b :: a in parts && b in parts && OfCall(id)(a) && OfCall(id)(b) ==> a.name == b.name
  }

  lemma AgreeingFilter(parts: seq<Part>, p: Part -> bool, q: Part -> bool)
    requires forall a, b :: a in parts && b in parts && q(a) && q(b) ==> p(a) == p(b)
    ensures AllOrNone(parts, Filter(parts, p), q)
  {
    FilterFilter(parts, p, q);
    if a :| a in parts && q(a) && p(a) {
      assert forall part :: part in parts && q(part) ==> p(part);
    }
  }

  lemma RuleKeepsPartners(ms: seq<Message>, rule: Rule, id: string)
    ensures OneName(AllParts(ms), id) ==> AllOrNone(AllParts(ms), AllParts(PruneRule(ms, rule)), OfCall(id))
    ensures AllOrNone(AllParts(ms), AllParts(PruneRule(ms, rule)), OfApproval(id))
  {
    RuleFilters(ms, rule);
    var parts, keeps := AllParts(ms), Keeping(rule, ms);
    if OneName(parts, id) {
      forall a, b | a in parts && b in parts && OfCall(id)(a) && OfCall(id)(b)
        ensures keeps(a) == keeps(b)
      {
        assert a.name == b.name;
      }
      AgreeingFilter(parts, keeps, OfCall(id));
    }
    AgreeingFilter(parts, keeps, OfApproval(id));
  }

  lemma FilterOneName(parts: seq<Part>, p: Part -> bool, id: string)
    requires OneName(parts, id)
    ensures OneName(Filter(parts, p), id)
  {
    FilterIn(parts, p);
  }

  lemma {:induction false} RulesKeepPartners(ms: seq<Message>, rules: seq<Rule>, id: string)
    ensures OneName(AllParts(ms), id) ==> AllOrNone(AllParts(ms), AllParts(PruneRules(ms, rules)), OfCall(id))
    ensures AllOrNone(AllParts(ms), AllParts(PruneRules(ms, rules)), OfApproval(id))
    decreases |rules|
  {
    if rules != [] {
      RuleKeepsPartners(ms, rules[0], id);
      RuleFilters(ms, rules[0]);
      if OneName(AllParts(ms), id) {
        FilterOneName(AllParts(ms), Keeping(rules[0], ms), id);
      }
      RulesKeepPartners(PruneRule(ms, rules[0]), rules[1..], id);
      hide PruneRule, OneName, Keeping;
    }
  }

  // ----- Reasoning and empty messages

  lemma {:induction false} ReasoningParts(ms: seq<Message>, rs: seq<Message>, q: Part -> bool)
    requires |rs| == |ms| && forall i :: 0 <= i < |ms| ==> rs[i] == ms[i] || rs[i] == Retained(ms[i], IsNoReasoning)
    requires forall part: Part :: q(part) ==> IsNoReasoning(part)
    ensures Filter(AllParts(rs), q) == Filter(AllParts(ms), q)
  {
    if ms != [] {
      ReasoningParts(ms[1..], rs[1..], q);
      FilterCat(PartsOf(ms[0]), AllParts(ms[1..]), q);
      FilterCat(PartsOf(rs[0]), AllParts(rs[1..]), q);
      FilterFilter(PartsOf(ms[0]), IsNoReasoning, q);
    }
  }

  lemma ReasoningOnly(ms: seq<Message>, reasoning: ReasoningPrune, q: Part -> bool)
    requires forall part: Part :: q(part) ==> IsNoReasoning(part)
    ensures Filter(AllParts(PruneReasoning(ms, reasoning)), q) == Filter(AllParts(ms), q)
  {
    ReasoningParts(ms, PruneReasoning(ms, reasoning), q);
  }

  lemma {:induction false} EmptyHasNoParts(ms: seq<Message>)
    ensures AllParts(WithoutEmpty(ms)) == AllParts(ms)
  {
    if ms != [] {
      EmptyHasNoParts(ms[1..]);
      AllPartsCat(if IsEmpty(ms[0]) then [] else [ms[0]], WithoutEmpty(ms[1..]));
      assert AllParts([ms[0]]) == PartsOf(ms[0]) + AllParts([]);
      assert PartsOf(ms[0]) + [] == PartsOf(ms[0]);
      assert [] + AllParts(ms[1..]) == AllParts(ms[1..]);
    }
  }

  lemma CallsOfFilter(parts: seq<Part>, rest: seq<Part>, id: string)
    requires OneName(parts, id) && Filter(rest, OfCall(id)) == Filter(parts, OfCall(id))
    ensures OneName(rest, id)
  {
    FilterIn(parts, OfCall(id));
    FilterIn(rest, OfCall(id));
    forall a | a in rest && OfCall(id)(a)
      ensures a in parts
    {
      assert a in Filter(rest, OfCall(id));
    }
  }

  /** Pruning keeps the parts of an approval together, and those of a call with one tool name. */
  lemma OptionsKeepPartners(ms: seq<Message>, options: PruneOptions, id: string)
    ensures OneName(AllParts(ms), id) ==> AllOrNone(AllParts(ms), AllParts(Pruned(ms, options)), OfCall(id))
    ensures AllOrNone(AllParts(ms), AllParts(Pruned(ms, options)), OfApproval(id))
  {
    var plain := PruneReasoning(ms, options.reasoning);
    var rest := PruneRules(plain, options.toolCalls);
    ReasoningOnly(ms, options.reasoning, OfCall(id));
    ReasoningOnly(ms, options.reasoning, OfApproval(id));
    if OneName(AllParts(ms), id) {
      CallsOfFilter(AllParts(ms), AllParts(plain), id);
    }
    RulesKeepPartners(plain, options.toolCalls, id);
    EmptyHasNoParts(rest);
    hide PruneReasoning, PruneRules, OneName;
  }

  /** The parts that `q` picks all survive or all go, whatever is pruned. */
  ghost predicate KeptTogether(ms: seq<Message>, q: Part -> bool) {
    forall options: PruneOptions :: AllOrNone(AllParts(ms), AllParts(Pruned(ms, options)), q)
  }

  /** Pruning never separates the parts of a call if and only if they all name one tool; it never
      separates those of an approval. */
  lemma PruningKeepsPartners(ms: seq<Message>, id: string)
    ensures KeptTogether(ms, OfCall(id)) <==> OneName(AllParts(ms), id)
    ensures KeptTogether(ms, OfApproval(id))
  {
    hide AllOrNone, Pruned;
    forall options: PruneOptions
      ensures OneName(AllParts(ms), id) ==> AllOrNone(AllParts(ms), AllParts(Pruned(ms, options)), OfCall(id))
      ensures AllOrNone(AllParts(ms), AllParts(Pruned(ms, options)), OfApproval(id))
    {
      OptionsKeepPartners(ms, options, id);
    }
    if !OneName(AllParts(ms), id) {
      var a, b :| a in AllParts(ms) && b in AllParts(ms) && OfCall(id)(a) && OfCall(id)(b) && a.name != b.name;
      TwoNamesSeparate(ms, id, a, b);
    }
  }

  /** A rule for one of two names of a call separates its parts. */
  lemma TwoNamesSeparate(ms: seq<Message>, id: string, a: Part, b: Part)
    requires a in AllParts(ms) && b in AllParts(ms) && OfCall(id)(a) && OfCall(id)(b) && a.name != b.name
    ensures var options := PruneOptions(KeepReasoning, [Rule(Everywhere, Some([a.name]))], false);
      !AllOrNone(AllParts(ms), AllParts(Pruned(ms, options)), OfCall(id))
  {
    var rule := Rule(Everywhere, Some([a.name]));
    OneRule(ms, rule);
    RuleFilters(ms, rule);
    var keeps := Keeping(rule, ms);
    assert Tail(ms, rule) == [];
    assert keeps(b) && !keeps(a);
    var after := AllParts(PruneRule(ms, rule));
    hide PruneRule, Keeping, Pruned;
    FilterIn(AllParts(ms), keeps);
    FilterIn(AllParts(ms), OfCall(id));
    FilterIn(after, OfCall(id));
    assert b in Filter(after, OfCall(id)) && a !in Filter(after, OfCall(id)) && a in Filter(AllParts(ms), OfCall(id));
  }

  lemma OneRule(ms: seq<Message>, rule: Rule)
    ensures Pruned(ms, PruneOptions(KeepReasoning, [rule], false)) == PruneRule(ms, rule)
  {
    assert PruneReasoning(ms, KeepReasoning) == ms;
    assert [rule][1..] == [];
    hide PruneRule, PruneReasoning;
    assert PruneRules(PruneRule(ms, rule), []) == PruneRule(ms, rule);
  }

  predicate IsNoToolPart(part: Part) {
    !IsCall(part) && !IsApproval(part)
  }

  /** A rule leaves the messages of the protected tail, and in every message the parts that do
      not concern tools, as they are and in order. */
  lemma RuleLeavesTheRest(ms: seq<Message>, rule: Rule, i: nat)
    requires i < |ms|
    ensures |PruneRule(ms, rule)| == |ms|
    ensures rule.scope.BeforeLastMessages? && (rule.scope.n == 0 || i + rule.scope.n >= |ms|) ==>
      PruneRule(ms, rule)[i] == ms[i]
    ensures Filter(PartsOf(PruneRule(ms, rule)[i]), IsNoToolPart) == Filter(PartsOf(ms[i]), IsNoToolPart)
    ensures !ms[i].Assistant? && !ms[i].Tool? ==> PruneRule(ms, rule)[i] == ms[i]
  {
    FilterFilter(PartsOf(ms[i]), Keeping(rule, ms), IsNoToolPart);
  }

  /** What the protected tail refers to is kept everywhere. */
  lemma TailProtects(ms: seq<Message>, rule: Rule, part: Part)
    requires part in Tail(ms, rule)
    ensures IsCall(part) ==>
      Filter(AllParts(PruneRule(ms, rule)), OfCall(part.id)) == Filter(AllParts(ms), OfCall(part.id))
    ensures IsApproval(part) ==>
      Filter(AllParts(PruneRule(ms, rule)), OfApproval(part.approvalId)) ==
        Filter(AllParts(ms), OfApproval(part.approvalId))
  {
    RuleFilters(ms, rule);
    if IsCall(part) {
      FilterFilter(AllParts(ms), Keeping(rule, ms), OfCall(part.id));
    }
    if IsApproval(part) {
      FilterFilter(AllParts(ms), Keeping(rule, ms), OfApproval(part.approvalId));
    }
  }

  /** Which calls and results a rule leaves: those the protected tail refers to and, when it is
      for certain tools, those of other tools. */
  lemma CallsLeft(ms: seq<Message>, rule: Rule, part: Part)
    requires part in AllParts(ms) && IsCall(part)
    ensures part in AllParts(PruneRule(ms, rule)) <==>
      (exists other :: other in Tail(ms, rule) && IsCall(other) && other.id == part.id)
      || (rule.tools.Some? && part.name !in rule.tools.value)
  {
    RuleFilters(ms, rule);
    FilterIn(AllParts(ms), Keeping(rule, ms));
  }

  /** Which approvals a rule leaves: those the protected tail refers to and, when it is for
      certain tools, those about a call whose tool is known and another. */
  lemma ApprovalsLeft(ms: seq<Message>, rule: Rule, part: Part)
    requires part in AllParts(ms) && IsApproval(part)
    ensures part in AllParts(PruneRule(ms, rule)) <==>
      (exists other :: other in Tail(ms, rule) && IsApproval(other) && other.approvalId == part.approvalId)
      || (rule.tools.Some? && ApprovalName(AllParts(ms), AllParts(ms), part.approvalId).Some?
          && ApprovalName(AllParts(ms), AllParts(ms), part.approvalId).value !in rule.tools.value)
  {
    RuleFilters(ms, rule);
    FilterIn(AllParts(ms), Keeping(rule, ms));
  }

  /** Without reasoning kept, no assistant message holds any, except the last one when it is
      spared; everything else stays. */
  lemma ReasoningGone(ms: seq<Message>, reasoning: ReasoningPrune, i: nat)
    requires i < |ms|
    ensures var rs := PruneReasoning(ms, reasoning);
      && |rs| == |ms|
      && (reasoning.KeepReasoning? || (reasoning.BeforeLastMessage? && i == |ms| - 1) ==> rs[i] == ms[i])
      && (ms[i].Assistant? && (reasoning.AllReasoning? || (reasoning.BeforeLastMessage? && i < |ms| - 1)) ==>
            rs[i].Assistant? && forall part :: part in rs[i].parts <==> part in ms[i].parts && !part.Reasoning?)
      && (!ms[i].Assistant? ==> rs[i] == ms[i])
  {
    FilterIn(PartsOf(ms[i]), IsNoReasoning);
  }

  /** Removing empty messages leaves exactly the others. */
  lemma {:induction false} EmptyGone(ms: seq<Message>)
    ensures forall m :: m in WithoutEmpty(ms) <==> m in ms && !IsEmpty(m)
    ensures (forall m :: m in ms ==> !IsEmpty(m)) ==> WithoutEmpty(ms) == ms
  {
    if ms != [] {
      EmptyGone(ms[1..]);
      assert ms == [ms[0]] + ms[1..];
    }
  }

  // ----- A rule applied again changes nothing

  lemma FilterLast(parts: seq<Part>, p: Part -> bool)
    requires parts != []
    ensures var init, last := parts[..|parts| - 1], parts[|parts| - 1];
      Filter(parts, p) == Filter(init, p) + if p(last) then [last] else []
  {
    var init, last := parts[..|parts| - 1], parts[|parts| - 1];
    assert parts == init + [last];
    FilterCat(init, [last], p);
    assert [last][1..] == [];
  }

  lemma CallNameLast(init: seq<Part>, last: Part, id: string)
    ensures CallName(init + [last], id) == if IsCall(last) && last.id == id then Some(last.name) else CallName(init, id)
  {
    assert (init + [last])[..|init|] == init;
  }

  lemma ApprovalNameLast(all: seq<Part>, init: seq<Part>, last: Part, id: string)
    ensures ApprovalName(all, init + [last], id) ==
      if last.Request? && last.approvalId == id && CallName(all, last.callId).Some? then CallName(all, last.callId)
      else ApprovalName(all, init, id)
  {
    assert (init + [last])[..|init|] == init;
  }

  /** Parts kept for their tool still name it. */
  lemma {:induction false} NameStays(parts: seq<Part>, p: Part -> bool, rule: Rule, id: string)
    requires forall part :: part in parts && IsCall(part) && RuleKeeps(rule, Some(part.name)) ==> p(part)
    ensures RuleKeeps(rule, CallName(parts, id)) ==> CallName(Filter(parts, p), id) == CallName(parts, id)
    ensures CallName(parts, id).None? ==> CallName(Filter(parts, p), id).None?
    decreases |parts|
  {
    if parts != [] {
      var init, last := parts[..|parts| - 1], parts[|parts| - 1];
      NameStays(init, p, rule, id);
      FilterLast(parts, p);
      if p(last) {
        CallNameLast(Filter(init, p), last, id);
      } else {
        assert Filter(init, p) + [] == Filter(init, p);
      }
    }
  }

  lemma {:induction false} ApprovalNameStays(all: seq<Part>, parts: seq<Part>, p: Part -> bool, rule: Rule, id: string)
    requires forall part :: part in all && IsCall(part) && RuleKeeps(rule, Some(part.name)) ==> p(part)
    requires forall part :: part in parts && part.Request? && part.approvalId == id ==> p(part)
    ensures RuleKeeps(rule, ApprovalName(all, parts, id)) ==>
      ApprovalName(Filter(all, p), Filter(parts, p), id) == ApprovalName(all, parts, id)
    decreases |parts|
  {
    if parts != [] {
      var init, last := parts[..|parts| - 1], parts[|parts| - 1];
      ApprovalNameStays(all, init, p, rule, id);
      FilterLast(parts, p);
      if last.Request? {
        NameStays(all, p, rule, last.callId);
      }
      if p(last) {
        ApprovalNameLast(Filter(all, p), Filter(init, p), last, id);
      } else {
        assert Filter(init, p) + [] == Filter(init, p);
      }
    }
  }

  lemma KeptAgain(ms: seq<Message>, rule: Rule, part: Part)
    requires Keeping(rule, ms)(part)
    ensures Keeping(rule, PruneRule(ms, rule))(part)
  {
    RuleFilters(ms, rule);
    var all, keeps := AllParts(ms), Keeping(rule, ms);
    if IsApproval(part) && part.approvalId !in ApprovalIds(Tail(ms, rule)) {
      ApprovalNameStays(all, all, keeps, rule, part.approvalId);
    }
  }

  /** Applying a rule again changes nothing. */
  lemma RuleIsIdempotent(ms: seq<Message>, rule: Rule)
    ensures PruneRule(PruneRule(ms, rule), rule) == PruneRule(ms, rule)
  {
    var rs := PruneRule(ms, rule);
    var again, keeps := Keeping(rule, rs), Keeping(rule, ms);
    forall part | keeps(part)
      ensures again(part)
    {
      KeptAgain(ms, rule, part);
    }
    hide Keeping;
    forall i | 0 <= i < ProtectedFrom(rule, |ms|)
      ensures Retained(rs[i], again) == rs[i]
    {
      FilterIn(PartsOf(ms[i]), keeps);
      assert forall j :: 0 <= j < |PartsOf(rs[i])| ==> PartsOf(rs[i])[j] in PartsOf(rs[i]);
      FilterAll(PartsOf(rs[i]), again);
    }
  }
}

/** Pruning as the source performs it: the sets of what to keep are filled in passes over the
    messages, and parts are then retained in place. */
module MessagePruner {
  import opened Options
  import opened Sequences
  import opened MessagePruning

  /** What a rule keeps, collected before anything is removed. */
  class Kept {
    var toolCallIds: set<string>
    var approvalIds: set<string>
    var approvalToolNames: map<string, string>
    var protectedFrom: nat

    constructor (protectedFrom: nat)
      ensures toolCallIds == {} && approvalIds == {} && approvalToolNames == map[]
      ensures this.protectedFrom == protectedFrom
    {
      toolCallIds, approvalIds, approvalToolNames := {}, {}, map[];
      this.protectedFrom := protectedFrom;
    }

    /** Keeps what these parts refer to. */
    method Protect(parts: seq<Part>)
      modifies this`toolCallIds, this`approvalIds
      ensures toolCallIds == old(toolCallIds) + CallIds(parts)
      ensures approvalIds == old(approvalIds) + ApprovalIds(parts)
    {
      for i := 0 to |parts|
        invariant toolCallIds == old(toolCallIds) + CallIds(parts[..i])
        invariant approvalIds == old(approvalIds) + ApprovalIds(parts[..i])
      {
        assert parts[..i + 1] == parts[..i] + [parts[i]];
        match parts[i] {
          case Call(id, _, _) => toolCallIds := toolCallIds + {id};
          case Result(id, _, _) => toolCallIds := toolCallIds + {id};
          case Request(id, _, _) => approvalIds := approvalIds + {id};
          case Response(id, _) => approvalIds := approvalIds + {id};
          case _ =>
        }
      }
      assert parts[..|parts|] == parts;
    }

    /** Learns the tools of approvals from the calls they are about. */
    method NameApprovals(parts: seq<Part>)
      modifies this`approvalToolNames
      requires approvalToolNames == map[]
      ensures forall id :: Found(approvalToolNames, id) == ApprovalName(parts, parts, id)
    {
      var names := CallNames(parts);
      for i := 0 to |parts|
        invariant forall id :: Found(approvalToolNames, id) == ApprovalName(parts, parts[..i], id)
      {
        assert parts[..i + 1] == parts[..i] + [parts[i]];
        forall id
          ensures ApprovalName(parts, parts[..i + 1], id) ==
            if parts[i].Request? && parts[i].approvalId == id && CallName(parts, parts[i].callId).Some?
            then CallName(parts, parts[i].callId) else ApprovalName(parts, parts[..i], id)
        {
          ApprovalNameLast(parts, parts[..i], parts[i], id);
        }
        hide ApprovalName, CallName;
        if parts[i].Request? {
          assert Found(names, parts[i].callId) == CallName(parts, parts[i].callId);
          if parts[i].callId in names {
            approvalToolNames := approvalToolNames[parts[i].approvalId := names[parts[i].callId]];
          }
        }
      }
      assert parts[..|parts|] == parts;
    }

    /** Everything collected, in terms of the messages. */
    ghost predicate Knows(rule: Rule, ms: seq<Message>)
      reads this
    {
      && protectedFrom == ProtectedFrom(rule, |ms|)
      && toolCallIds == CallIds(Tail(ms, rule)) && approvalIds == ApprovalIds(Tail(ms, rule))
      && forall id :: Found(approvalToolNames, id) == ApprovalName(AllParts(ms), AllParts(ms), id)
    }

    predicate KeepsCall(id: string, name: string, rule: Rule)
      reads this
    {
      id in toolCallIds || RuleKeeps(rule, Some(name))
    }

    predicate KeepsApproval(id: string, rule: Rule)
      reads this
    {
      id in approvalIds || RuleKeeps(rule, Found(approvalToolNames, id))
    }

    /** Retains the parts that the rule keeps. */
    method Retain(parts: seq<Part>, rule: Rule, ghost ms: seq<Message>) returns (kept: seq<Part>)
      requires Knows(rule, ms)
      ensures kept == Filter(parts, Keeping(rule, ms))
    {
      kept := [];
      for i := 0 to |parts|
        invariant kept == Filter(parts[..i], Keeping(rule, ms))
      {
        FilterLast(parts[..i + 1], Keeping(rule, ms));
        assert parts[..i + 1][..i] == parts[..i];
        hide Filter, RuleKeeps;
        var keeps := match parts[i]
          case Call(id, name, _) => KeepsCall(id, name, rule)
          case Result(id, name, _) => KeepsCall(id, name, rule)
          case Request(id, _, _) => KeepsApproval(id, rule)
          case Response(id, _) => KeepsApproval(id, rule)
          case _ => true;
        if keeps {
          kept := kept + [parts[i]];
        }
      }
      assert parts[..|parts|] == parts;
    }

    /** Retains them in a message that holds parts. */
    method RetainIn(m: Message, rule: Rule, ghost ms: seq<Message>) returns (r: Message)
      requires Knows(rule, ms)
      ensures r == Retained(m, Keeping(rule, ms))
    {
      hide Knows, Keeping, Filter;
      r := m;
      match m {
        case Assistant(parts) =>
          var retained := Retain(parts, rule, ms);
          r := Assistant(retained);
        case Tool(parts) =>
          var retained := Retain(parts, rule, ms);
          r := Tool(retained);
        case _ =>
      }
    }
  }

  function Found(names: map<string, string>, id: string): Option<string> {
    if id in names then Some(names[id]) else None
  }

  /** The tool of every call, the last part about it deciding. */
  method CallNames(parts: seq<Part>) returns (names: map<string, string>)
    ensures forall id :: Found(names, id) == CallName(parts, id)
  {
    names := map[];
    for i := 0 to |parts|
      invariant forall id :: Found(names, id) == CallName(parts[..i], id)
    {
      assert parts[..i + 1] == parts[..i] + [parts[i]];
      forall id
        ensures CallName(parts[..i + 1], id) ==
          if IsCall(parts[i]) && parts[i].id == id then Some(parts[i].name) else CallName(parts[..i], id)
      {
        CallNameLast(parts[..i], parts[i], id);
      }
      hide CallName;
      match parts[i] {
        case Call(id, name, _) => names := names[id := name];
        case Result(id, name, _) => names := names[id := name];
        case _ =>
      }
    }
    assert parts[..|parts|] == parts;
  }

  /** The parts of messages, one message after the other. */
  method References(ms: seq<Message>) returns (parts: seq<Part>)
    ensures parts == AllParts(ms)
  {
    parts := [];
    for i := 0 to |ms|
      invariant parts == AllParts(ms[..i])
    {
      assert ms[..i + 1] == ms[..i] + [ms[i]];
      AllPartsCat(ms[..i], [ms[i]]);
      assert AllParts([ms[i]]) == PartsOf(ms[i]) + AllParts([]);
      parts := parts + PartsOf(ms[i]);
    }
    assert ms[..|ms|] == ms;
  }

  /** Removes the tool parts that a rule does not keep. */
  method PruneToolCalls(ms: seq<Message>, rule: Rule) returns (rs: seq<Message>)
    ensures rs == PruneRule(ms, rule)
  {
    var kept := new Kept(ProtectedFrom(rule, |ms|));
    var tail := References(ms[kept.protectedFrom..]);
    kept.Protect(tail);
    var all := References(ms);
    kept.NameApprovals(all);
    rs := ms;
    hide Keeping, ProtectedFrom;
    for i := 0 to kept.protectedFrom
      invariant kept.Knows(rule, ms)
      invariant |rs| == |ms|
      invariant forall j :: 0 <= j < |ms| ==> rs[j] == if j < i then Retained(ms[j], Keeping(rule, ms)) else ms[j]
    {
      var m := kept.RetainIn(ms[i], rule, ms);
      rs := rs[i := m];
    }
  }

  method RemoveReasoning(ms: seq<Message>, reasoning: ReasoningPrune) returns (rs: seq<Message>)
    ensures rs == PruneReasoning(ms, reasoning)
  {
    rs := ms;
    var last := if |ms| == 0 then 0 else |ms| - 1;
    for i := 0 to |ms|
      invariant |rs| == |ms|
      invariant forall j :: 0 <= j < |ms| ==> rs[j] == if j < i then PruneReasoning(ms, reasoning)[j] else ms[j]
    {
      var keep := match reasoning
        case KeepReasoning => true
        case AllReasoning => false
        case BeforeLastMessage => i == last;
      if !keep && ms[i].Assistant? {
        rs := rs[i := Assistant(Filter(ms[i].parts, IsNoReasoning))];
      }
    }
  }

  method RemoveEmpty(ms: seq<Message>) returns (rs: seq<Message>)
    ensures rs == WithoutEmpty(ms)
  {
    rs := [];
    assert ms[0..] == ms;
    for i := 0 to |ms|
      invariant rs + WithoutEmpty(ms[i..]) == WithoutEmpty(ms)
    {
      assert ms[i..][1..] == ms[i + 1..];
      if !IsEmpty(ms[i]) {
        Cat2(rs, [ms[i]], WithoutEmpty(ms[i + 1..]));
        rs := rs + [ms[i]];
      } else {
        assert [] + WithoutEmpty(ms[i + 1..]) == WithoutEmpty(ms[i + 1..]);
      }
    }
    assert rs + [] == rs;
  }

  /** Prunes messages: reasoning first, then rule by rule, then what is left empty. */
  method Prune(ms: seq<Message>, options: PruneOptions) returns (rs: seq<Message>)
    ensures rs == Pruned(ms, options)
  {
    rs := RemoveReasoning(ms, options.reasoning);
    assert options.toolCalls[0..] == options.toolCalls;
    for i := 0 to |options.toolCalls|
      invariant PruneRules(rs, options.toolCalls[i..]) ==
        PruneRules(PruneReasoning(ms, options.reasoning), options.toolCalls)
    {
      hide PruneRule;
      assert options.toolCalls[i..][1..] == options.toolCalls[i + 1..];
      rs := PruneToolCalls(rs, options.toolCalls[i]);
    }
    if options.removeEmpty {
      rs := RemoveEmpty(rs);
    }
  }
}

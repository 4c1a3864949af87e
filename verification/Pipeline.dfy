/** The input pipeline's use of the policy engine (app/pipeline.py): one evaluation per declared tool. */
module Pipeline {
  import opened Common
  import opened Decision
  import opened DecisionAlgebra
  import opened Text

  datatype Candidate = Candidate(name: string, arguments: map<string, Json>)

  function Field(tool: Json, key: string): Json {
    if tool.JObj? && key in tool.fields then tool.fields[key] else JNull
  }

  /** A declared tool is a candidate when it is a function with a non-empty name. */
  function CandidateOf(tool: Json): Option<Candidate> {
    var f := Field(tool, "function");
    var name := Field(f, "name");
    if Field(tool, "type") != JStr("function") || !name.JStr? || name.s == "" then None
    else Some(Candidate(name.s, if Field(f, "parameters").JObj? then Field(f, "parameters").fields else map[]))
  }

  function Candidates(tools: seq<Json>): seq<Candidate> {
    if tools == [] then []
    else
      var c := CandidateOf(tools[|tools| - 1]);
      Candidates(tools[..|tools| - 1]) + if c.Some? then [c.value] else []
  }

  /** The declared tool is a function object with this non-empty name; its arguments are its own `parameters` object,
      and none when it has no such object. */
  predicate Declares(tool: Json, name: string, arguments: map<string, Json>) {
    && tool.JObj? && "type" in tool.fields && tool.fields["type"] == JStr("function")
    && "function" in tool.fields && tool.fields["function"].JObj?
    && var f := tool.fields["function"].fields;
    && "name" in f && f["name"] == JStr(name) && name != ""
    && arguments == if "parameters" in f && f["parameters"].JObj? then f["parameters"].fields else map[]
  }

  lemma CandidateIsDeclared(tool: Json)
    ensures CandidateOf(tool).Some? ==> Declares(tool, CandidateOf(tool).value.name, CandidateOf(tool).value.arguments)
    ensures forall name, arguments :: Declares(tool, name, arguments) ==> CandidateOf(tool) == Some(Candidate(name, arguments))
  {
  }

  /** The candidates are exactly the declared functions, each with its own name and arguments. */
  lemma {:induction false} CandidatesAreDeclared(tools: seq<Json>, c: Candidate)
    ensures c in Candidates(tools) <==> exists tool :: tool in tools && Declares(tool, c.name, c.arguments)
  {
    hide CandidateOf, Declares;
    if tools != [] {
      var before, last := tools[..|tools| - 1], tools[|tools| - 1];
      assert tools == before + [last];
      CandidatesAreDeclared(before, c);
      CandidateIsDeclared(last);
    }
  }

  /** And they come in the order of declaration. */
  lemma {:induction false} CandidatesInOrder(a: seq<Json>, b: seq<Json>)
    ensures Candidates(a + b) == Candidates(a) + Candidates(b)
  {
    hide CandidateOf;
    if b == [] {
      assert a + b == a;
    } else {
      assert (a + b)[..|a + b| - 1] == a + b[..|b| - 1];
      CandidatesInOrder(a, b[..|b| - 1]);
    }
  }

  method ToolCandidatesFromDeclaredTools(tools: Option<seq<Json>>) returns (candidates: seq<Candidate>)
    ensures candidates == Candidates(if tools.Some? then tools.value else [])
    ensures forall c :: c in candidates <==>
              tools.Some? && exists tool :: tool in tools.value && Declares(tool, c.name, c.arguments)
  {
    var declared := if tools.Some? then tools.value else [];
    candidates := [];
    for i := 0 to |declared|
      invariant candidates == Candidates(declared[..i])
    {
      assert declared[..i + 1][..i] == declared[..i];
      var tool := declared[i];
      if !tool.JObj? || "type" !in tool.fields || tool.fields["type"] != JStr("function") {
        continue;
      }
      if "function" !in tool.fields || !tool.fields["function"].JObj? {
        continue;
      }
      var f := tool.fields["function"].fields;
      if "name" !in f || !f["name"].JStr? || f["name"].s == "" {
        continue;
      }
      var arguments := if "parameters" in f && f["parameters"].JObj? then f["parameters"].fields else map[];
      candidates := candidates + [Candidate(f["name"].s, arguments)];
    }
    assert declared[..|declared|] == declared;
    forall c ensures c in candidates <==> exists tool :: tool in declared && Declares(tool, c.name, c.arguments) {
      CandidatesAreDeclared(declared, c);
    }
  }

  function WithTool(facts: Facts, c: Candidate): Facts {
    facts.(toolName := Some(c.name), toolArguments := c.arguments)
  }

  function PerCandidate(policy: Policy, facts: Facts, degraded: bool, cs: seq<Candidate>): (ds: seq<Decision>)
    ensures |ds| == |cs|
    ensures forall i :: 0 <= i < |cs| ==> ds[i] == Evaluate(policy, WithTool(facts, cs[i]), degraded)
  {
    seq(|cs|, i requires 0 <= i < |cs| => Evaluate(policy, WithTool(facts, cs[i]), degraded))
  }

  /** The facts without a tool. */
  function Untooled(facts: Facts): Facts {
    facts.(toolName := None, toolArguments := map[])
  }

  function PipelineDecision(policy: Policy, facts: Facts, degraded: bool, cs: seq<Candidate>): Decision {
    if cs == [] then Evaluate(policy, Untooled(facts), degraded)
    else Combined(PerCandidate(policy, facts, degraded, cs))
  }

  method DecideInput(policy: Policy, facts: Facts, degraded: bool, tools: Option<seq<Json>>) returns (d: Decision)
    ensures d == PipelineDecision(policy, facts, degraded, Candidates(if tools.Some? then tools.value else []))
  {
    hide Evaluate, Combined, Candidates;
    var cs := ToolCandidatesFromDeclaredTools(tools);
    if cs == [] {
      d := EvaluatePolicy(policy, Untooled(facts), degraded);
    } else {
      var ds := [];
      for i := 0 to |cs|
        invariant ds == PerCandidate(policy, facts, degraded, cs)[..i]
      {
        var one := EvaluatePolicy(policy, WithTool(facts, cs[i]), degraded);
        ds := ds + [one];
      }
      assert ds == PerCandidate(policy, facts, degraded, cs);
      var r := CombineDecisions(ds);
      d := r.value;
    }
  }

  // ----- the flat specification -----

  /** With no tool declared a rule must fire on its own; otherwise under some candidate. */
  ghost predicate FiresForSome(r: Rule, facts: Facts, cs: seq<Candidate>) {
    if cs == [] then Fires(r, Untooled(facts))
    else exists i :: 0 <= i < |cs| && Fires(r, WithTool(facts, cs[i]))
  }

  lemma {:induction false} AllHitsSpec(ds: seq<Decision>, id: string)
    ensures Known(AllHits(ds), id) <==> exists i :: 0 <= i < |ds| && HasHit(ds[i].hits, id)
  {
    if ds != [] {
      var before, last := ds[..|ds| - 1], ds[|ds| - 1];
      AllHitsSpec(before, id);
      KnownConcat(AllHits(before), last.hits, id);
      if i :| 0 <= i < |ds| && HasHit(ds[i].hits, id) {
        assert i < |before| ==> before[i] == ds[i];
        assert i == |before| ==> HasHit(last.hits, id);
      }
      if i :| 0 <= i < |before| && HasHit(before[i].hits, id) { assert HasHit(ds[i].hits, id); }
      if HasHit(last.hits, id) { assert HasHit(ds[|before|].hits, id); }
    }
  }

  lemma KnownConcat(a: seq<PolicyHit>, b: seq<PolicyHit>, id: string)
    ensures Known(a + b, id) <==> Known(a, id) || HasHit(b, id)
  {
    if i :| 0 <= i < |a| && a[i].ruleId == id { assert (a + b)[i].ruleId == id; }
    if h :| h in b && h.ruleId == id {
      var i :| 0 <= i < |b| && b[i] == h;
      assert (a + b)[|a| + i].ruleId == id;
    }
    if i :| 0 <= i < |a + b| && (a + b)[i].ruleId == id {
      if i < |a| { assert a[i].ruleId == id; } else { assert b[i - |a|] in b; }
    }
  }

  lemma KnownIsHasHit(hits: seq<PolicyHit>, id: string)
    ensures Known(hits, id) <==> HasHit(hits, id)
  {
    KnownConcat([], hits, id);
    assert [] + hits == hits;
  }

  /** The i-th decision is the outcome for the rules that fire for the i-th candidate. */
  ghost predicate EachIsOutcome(ds: seq<Decision>, rules: seq<Rule>, facts: Facts, cs: seq<Candidate>) {
    && cs != [] && |ds| == |cs|
    && forall i :: 0 <= i < |cs| ==> ds[i] in ds && IsOutcome(ds[i], rules, r => Fires(r, WithTool(facts, cs[i])))
  }

  lemma MergedVerdict(m: Decision, ds: seq<Decision>, rules: seq<Rule>, facts: Facts, cs: seq<Candidate>)
    requires EachIsOutcome(ds, rules, facts, cs) && IsMerge(m, ds)
    ensures forall r :: r in rules && FiresForSome(r, facts, cs) ==> Rank(r.verdict) <= Rank(m.verdict)
    ensures m.verdict == ALLOW || exists r :: r in rules && FiresForSome(r, facts, cs) && r.verdict == m.verdict
  {
    hide Ascending, Fires, HasHit, CodeFrom, CodeIn;
    if m.verdict != ALLOW {
      var d :| d in ds && d.verdict == m.verdict;
      var k :| 0 <= k < |ds| && ds[k] == d;
      var r :| r in rules && Fires(r, WithTool(facts, cs[k])) && r.verdict == m.verdict;
      assert FiresForSome(r, facts, cs);
    }
  }

  lemma CodesForward(m: Decision, ds: seq<Decision>, rules: seq<Rule>, facts: Facts, cs: seq<Candidate>, c: string)
    requires EachIsOutcome(ds, rules, facts, cs) && CodeIn(ds, m.verdict, c)
    ensures CodeFrom(rules, r => FiresForSome(r, facts, cs), m.verdict, c)
  {
    hide Fires, IsOutcome;
    var d :| d in ds && d.verdict == m.verdict && c in d.reasonCodes;
    var i :| 0 <= i < |ds| && ds[i] == d;
    OutcomeCodes(d, rules, r => Fires(r, WithTool(facts, cs[i])), c);
    var r :| r in rules && Fires(r, WithTool(facts, cs[i])) && r.verdict == d.verdict && r.reasonCode == c;
    assert FiresForSome(r, facts, cs);
  }

  lemma CodesBackward(m: Decision, ds: seq<Decision>, rules: seq<Rule>, facts: Facts, cs: seq<Candidate>, c: string)
    requires EachIsOutcome(ds, rules, facts, cs) && forall d :: d in ds ==> Rank(d.verdict) <= Rank(m.verdict)
    requires CodeFrom(rules, r => FiresForSome(r, facts, cs), m.verdict, c)
    ensures CodeIn(ds, m.verdict, c)
  {
    hide Fires, IsOutcome;
    var r :| r in rules && FiresForSome(r, facts, cs) && r.verdict == m.verdict && r.reasonCode == c;
    var i :| 0 <= i < |cs| && Fires(r, WithTool(facts, cs[i]));
    OutcomeCodes(ds[i], rules, r => Fires(r, WithTool(facts, cs[i])), c);
    assert Rank(r.verdict) <= Rank(ds[i].verdict) <= Rank(m.verdict);
    assert CodeFrom(rules, r => Fires(r, WithTool(facts, cs[i])), ds[i].verdict, c);
  }

  lemma TransformationBound(m: Decision, ds: seq<Decision>, rules: seq<Rule>, facts: Facts, cs: seq<Candidate>, r: Rule)
    requires EachIsOutcome(ds, rules, facts, cs) && IsMerge(m, ds) && m.verdict != DENY
    requires r in rules && FiresForSome(r, facts, cs) && r.verdict == m.verdict
    ensures Order(r.transformation) <= Order(m.transformation)
  {
    hide Ascending, Fires, HasHit, CodeFrom, CodeIn;
    var i :| 0 <= i < |cs| && Fires(r, WithTool(facts, cs[i]));
    assert Rank(r.verdict) <= Rank(ds[i].verdict) <= Rank(m.verdict);
    assert ds[i].verdict == m.verdict;
  }

  lemma TransformationSource(m: Decision, ds: seq<Decision>, rules: seq<Rule>, facts: Facts, cs: seq<Candidate>)
    requires EachIsOutcome(ds, rules, facts, cs) && IsMerge(m, ds) && m.verdict != DENY && m.transformation != NONE
    ensures exists r :: r in rules && FiresForSome(r, facts, cs) && r.verdict == m.verdict && r.transformation == m.transformation
  {
    hide Ascending, Fires, HasHit, CodeFrom, CodeIn;
    var d :| d in ds && d.verdict == m.verdict && d.transformation == m.transformation;
    var i :| 0 <= i < |ds| && ds[i] == d;
    var r :| r in rules && Fires(r, WithTool(facts, cs[i])) && r.verdict == d.verdict && r.transformation == d.transformation;
    assert FiresForSome(r, facts, cs);
  }

  lemma MergedHits(ds: seq<Decision>, rules: seq<Rule>, facts: Facts, cs: seq<Candidate>, id: string)
    requires EachIsOutcome(ds, rules, facts, cs)
    ensures (exists i :: 0 <= i < |ds| && HasHit(ds[i].hits, id))
         <==> exists r :: r in rules && FiresForSome(r, facts, cs) && r.id == id
  {
    hide Ascending, Fires, HasHit, CodeFrom, CodeIn;
    if i :| 0 <= i < |ds| && HasHit(ds[i].hits, id) {
      var r :| r in rules && Fires(r, WithTool(facts, cs[i])) && r.id == id;
      assert FiresForSome(r, facts, cs);
    }
    if r :| r in rules && FiresForSome(r, facts, cs) && r.id == id {
      var i :| 0 <= i < |cs| && Fires(r, WithTool(facts, cs[i]));
      assert HasHit(ds[i].hits, id);
    }
  }

  /** Merging outcomes under several facts is the outcome for the rules that fire under some of them. */
  lemma MergedOutcomes(m: Decision, ds: seq<Decision>, rules: seq<Rule>, facts: Facts, cs: seq<Candidate>)
    requires EachIsOutcome(ds, rules, facts, cs) && IsMerge(m, ds)
    requires forall id :: HasHit(m.hits, id) <==> exists i :: 0 <= i < |ds| && HasHit(ds[i].hits, id)
    ensures IsOutcome(m, rules, r => FiresForSome(r, facts, cs))
  {
    hide EachIsOutcome, FiresForSome, HasHit, CodeFrom, Ascending;
    MergedVerdict(m, ds, rules, facts, cs);
    forall c ensures c in m.reasonCodes <==> CodeFrom(rules, r => FiresForSome(r, facts, cs), m.verdict, c) {
      assert c in m.reasonCodes <==> CodeIn(ds, m.verdict, c);
      if CodeIn(ds, m.verdict, c) { CodesForward(m, ds, rules, facts, cs, c); }
      if CodeFrom(rules, r => FiresForSome(r, facts, cs), m.verdict, c) { CodesBackward(m, ds, rules, facts, cs, c); }
    }
    if m.verdict != DENY {
      forall r | r in rules && FiresForSome(r, facts, cs) && r.verdict == m.verdict
        ensures Order(r.transformation) <= Order(m.transformation)
      {
        TransformationBound(m, ds, rules, facts, cs, r);
      }
      if m.transformation != NONE { TransformationSource(m, ds, rules, facts, cs); }
    }
    forall id ensures HasHit(m.hits, id) <==> exists r :: r in rules && FiresForSome(r, facts, cs) && r.id == id {
      MergedHits(ds, rules, facts, cs, id);
    }
  }

  /** The pipeline's decision is the outcome of the flat reading of the policy: a rule hits if and only if
      it fires for some candidate, and verdict, codes and transformation follow from those rules alone. */
  lemma PipelineIsFlat(policy: Policy, facts: Facts, degraded: bool, cs: seq<Candidate>)
    requires UniqueIds(policy.rules)
    ensures IsOutcome(PipelineDecision(policy, facts, degraded, cs), policy.rules, r => FiresForSome(r, facts, cs))
    ensures PipelineDecision(policy, facts, degraded, cs).degraded == degraded
    ensures PipelineDecision(policy, facts, degraded, cs).version == policy.version
  {
    hide IsMerge, Fires, UniqueIds, WellFormed, HasHit, Known, BestOf, Winners, AllCodes, Latest, SortedDistinct;
    if cs == [] {
      EvaluateIsOutcome(policy, Untooled(facts), degraded);
      OutcomeUnderEqualFirings(PipelineDecision(policy, facts, degraded, cs), policy.rules,
                               r => Fires(r, Untooled(facts)), r => FiresForSome(r, facts, cs));
    } else {
      var ds := PerCandidate(policy, facts, degraded, cs);
      forall d | d in ds ensures WellFormed(d) && d.degraded == degraded {
        var i :| 0 <= i < |ds| && ds[i] == d;
        EvaluateIsWellFormed(policy, WithTool(facts, cs[i]), degraded);
      }
      assert ds[0] in ds;
      CombinedIsMerged(ds);
      MergedIsMerge(ds);
      var m := Combined(ds);
      assert m.degraded == degraded;
      forall id ensures HasHit(m.hits, id) <==> exists i :: 0 <= i < |ds| && HasHit(ds[i].hits, id) {
        KnownIsHasHit(m.hits, id);
        IntoKeepsDistinct([], AllHits(ds));
        AllHitsSpec(ds, id);
        assert !Known([], id) by { KnownIsHasHit([], id); NoHit(id); }
      }
      forall i | 0 <= i < |cs|
        ensures ds[i] in ds && IsOutcome(ds[i], policy.rules, r => Fires(r, WithTool(facts, cs[i])))
      {
        EvaluateIsOutcome(policy, WithTool(facts, cs[i]), degraded);
      }
      MergedOutcomes(m, ds, policy.rules, facts, cs);
    }
  }

  lemma NoHit(id: string)
    ensures !HasHit([], id)
  {
  }

  lemma OutcomeUnderEqualFirings(d: Decision, rules: seq<Rule>, fires: Rule -> bool, fires': Rule -> bool)
    requires IsOutcome(d, rules, fires) && forall r :: fires(r) == fires'(r)
    ensures IsOutcome(d, rules, fires')
  {
    hide HasHit;
    forall c ensures CodeFrom(rules, fires, d.verdict, c) <==> CodeFrom(rules, fires', d.verdict, c) {}
  }
}

/** What the policy language means, in terms of the request and the verdict only: each test, the nesting, the
    precedence, and what a hit records. */
module PolicyLaws {
  import opened Common
  import opened Text
  import opened Decision
  import opened DecisionAlgebra
  import opened ToolEnforcement
  import ToolRules
  import Pipeline

  // ----- a policy of one rule -----

  /** The rule tests `c` on one plane and does more than allow. */
  predicate On(rule: Rule, p: Plane, c: Condition) {
    rule.planes == [p] && !rule.rateLimit && rule.condition == Some(c) && rule.verdict != ALLOW
  }

  /** The verdict of the policy that has only this rule. */
  function Alone(rule: Rule, facts: Facts): Verdict {
    Evaluate(Policy([rule], "v"), facts, false).verdict
  }

  lemma AloneHolds(rule: Rule, p: Plane, c: Condition, facts: Facts)
    requires On(rule, p, c)
    ensures Alone(rule, facts) == if Holds(c, FindingsAt(facts, p), facts) then rule.verdict else ALLOW
  {
    hide Evaluate, Holds, FindingsAt;
    OneRule(rule, "v", facts, false);
    assert p in rule.planes;
    assert Fires(rule, facts) <==> HoldsAt(rule, facts, p);
  }

  /** A byte limit: the verdict is the rule's exactly above it, so it never falls as the request grows. */
  lemma ByteLimit(rule: Rule, p: Plane, limit: int, facts: Facts, more: nat)
    requires On(rule, p, Blank().(bytesGt := Some(limit)))
    ensures Alone(rule, facts) == if limit < facts.byteCount then rule.verdict else ALLOW
    ensures var larger := facts.(byteCount := facts.byteCount + more);
            Alone(rule, facts) == rule.verdict ==> Alone(rule, larger) == rule.verdict
  {
    hide Alone;
    AloneHolds(rule, p, Blank().(bytesGt := Some(limit)), facts);
    AloneHolds(rule, p, Blank().(bytesGt := Some(limit)), facts.(byteCount := facts.byteCount + more));
  }

  /** A list of tools: the verdict is the rule's exactly for a call of a listed tool. */
  lemma ListedTools(rule: Rule, p: Plane, tools: seq<string>, facts: Facts)
    requires On(rule, p, Blank().(toolNameIn := tools)) && tools != []
    ensures Alone(rule, facts) == match facts.toolName
                                  case None => ALLOW
                                  case Some(tool) => if tool in tools then rule.verdict else ALLOW
  {
    hide Alone;
    AloneHolds(rule, p, Blank().(toolNameIn := tools), facts);
  }

  /** An allowlist: exactly for a call of a tool that is not listed, and never without a call. */
  lemma UnlistedTools(rule: Rule, p: Plane, tools: seq<string>, facts: Facts)
    requires On(rule, p, Blank().(toolNotIn := tools)) && tools != []
    ensures Alone(rule, facts) == match facts.toolName
                                  case None => ALLOW
                                  case Some(tool) => if tool in tools then ALLOW else rule.verdict
  {
    hide Alone;
    AloneHolds(rule, p, Blank().(toolNotIn := tools), facts);
  }

  /** The argument is a number of at least, or of less than, the bound; a boolean counts as one or zero. */
  predicate AtLeast(value: Json, bound: real) {
    match value
    case JNum(n) => bound <= n
    case JBool(b) => bound <= if b then 1.0 else 0.0
    case _ => false
  }

  predicate Below(value: Json, bound: real) {
    match value
    case JNum(n) => n < bound
    case JBool(b) => (if b then 1.0 else 0.0) < bound
    case _ => false
  }

  /** Bounds on an argument: of the two, the lower bound is the one tested. */
  lemma NumberBounds(rule: Rule, p: Plane, key: string, gte: Option<real>, lt: Option<real>, facts: Facts)
    requires On(rule, p, Blank().(argumentPath := Some("$." + key), numericGte := gte, numericLt := lt))
    requires (gte.Some? || lt.Some?) && forall i :: 0 <= i < |key| ==> key[i] != '.'
    ensures var value := if key in facts.toolArguments then facts.toolArguments[key] else JNull;
            Alone(rule, facts) == if (if gte.Some? then AtLeast(value, gte.value) else Below(value, lt.value))
                                  then rule.verdict else ALLOW
  {
    hide Alone, Resolve;
    AloneHolds(rule, p, Blank().(argumentPath := Some("$." + key), numericGte := gte, numericLt := lt), facts);
    ResolvesToField(facts.toolArguments, key);
  }

  /** Some finding of the category scores at least `gte`, and none of them reaches `lt`. */
  ghost predicate InBand(findings: seq<Finding>, category: string, gte: Option<real>, lt: Option<real>) {
    && (exists x :: x in findings && x.category == category)
    && (gte.Some? ==> exists x :: x in findings && x.category == category && gte.value <= x.score)
    && (lt.Some? ==> forall x :: x in findings && x.category == category ==> x.score < lt.value)
  }

  /** A category test, on the findings of the rule's plane; timeouts are never found. */
  lemma CategoryBand(rule: Rule, p: Plane, category: string, gte: Option<real>, lt: Option<real>, facts: Facts)
    requires On(rule, p, CategoryCondition(category, gte, lt)) && Scored(FindingsAt(facts, p))
    ensures Alone(rule, facts) == if category != "DETECTOR_TIMEOUT" && InBand(FindingsAt(facts, p), category, gte, lt)
                                  then rule.verdict else ALLOW
  {
    hide Alone, Score, FindingsAt;
    AloneHolds(rule, p, CategoryCondition(category, gte, lt), facts);
    ScoreIsMaximum(FindingsAt(facts, p), category);
  }

  /** The same rule with another condition. */
  function With(rule: Rule, c: Condition): Rule {
    rule.(condition := Some(c))
  }

  /** Nesting: on one plane, a rule of `all` decides as each of its parts would alone, a rule of `any` as one would. */
  lemma NestedConditions(rule: Rule, p: Plane, cs: seq<Condition>, facts: Facts)
    requires rule.planes == [p] && !rule.rateLimit && rule.verdict != ALLOW && cs != []
    ensures Alone(With(rule, Blank().(all := cs)), facts) == rule.verdict <==>
              forall c :: c in cs ==> Alone(With(rule, c), facts) == rule.verdict
    ensures Alone(With(rule, Blank().(any := cs)), facts) == rule.verdict <==>
              exists c :: c in cs && Alone(With(rule, c), facts) == rule.verdict
  {
    hide Alone, FindingsAt;
    var findings := FindingsAt(facts, p);
    AloneHolds(With(rule, Blank().(all := cs)), p, Blank().(all := cs), facts);
    AloneHolds(With(rule, Blank().(any := cs)), p, Blank().(any := cs), facts);
    forall c | c in cs ensures Alone(With(rule, c), facts) == rule.verdict <==> Holds(c, findings, facts) {
      AloneHolds(With(rule, c), p, c, facts);
    }
  }

  /** Of several keys in one condition only the first counts: `all`, `any`, `category`, `bytes_gt`, `tool_name_in`,
      `tool_not_in`, `argument_path`. */
  lemma FirstKeyDecides(c: Condition, findings: seq<Finding>, facts: Facts)
    ensures c.all != [] ==> Holds(c, findings, facts) == Holds(Blank().(all := c.all), findings, facts)
    ensures c.all == [] && c.any != [] ==> Holds(c, findings, facts) == Holds(Blank().(any := c.any), findings, facts)
    ensures c.all == [] && c.any == [] && c.category.Some? ==>
              Holds(c, findings, facts) == Holds(CategoryCondition(c.category.value, c.scoreGte, c.scoreLt), findings, facts)
    ensures c.all == [] && c.any == [] && c.category.None? && c.bytesGt.Some? ==>
              Holds(c, findings, facts) == Holds(Blank().(bytesGt := c.bytesGt), findings, facts)
    ensures c.all == [] && c.any == [] && c.category.None? && c.bytesGt.None? && c.toolNameIn != [] ==>
              Holds(c, findings, facts) == Holds(Blank().(toolNameIn := c.toolNameIn), findings, facts)
    ensures c.all == [] && c.any == [] && c.category.None? && c.bytesGt.None? && c.toolNameIn == [] && c.toolNotIn != [] ==>
              Holds(c, findings, facts) == Holds(Blank().(toolNotIn := c.toolNotIn), findings, facts)
    ensures c == Blank() ==> !Holds(c, findings, facts)
  {
  }

  /** Of several tests of one text argument only the first counts: the verbs, the mutation, the shell patterns. */
  lemma FirstTextTestDecides(c: Condition, text: string)
    requires c.numericGte.None? && c.numericLt.None?
    ensures c.sqlVerbIn != [] ==>
              (ArgumentHolds(c, JStr(text)) <==> exists v :: v in c.sqlVerbIn && SqlVerb(text) == Upper(v))
    ensures c.sqlVerbIn == [] && c.sqlUnboundedMutation.Some? ==>
              (ArgumentHolds(c, JStr(text)) <==> IsUnboundedMutation(text))
    ensures c.sqlVerbIn == [] && c.sqlUnboundedMutation.None? && c.shellPatternIn != [] ==>
              (ArgumentHolds(c, JStr(text)) <==> MatchesShellPattern(text, c.shellPatternIn))
    ensures forall value :: ArgumentHolds(c, value) ==> value.JStr?
  {
    hide SqlVerb, IsUnboundedMutation, MatchesShellPattern, Upper;
  }

  // ----- argument paths -----

  lemma {:induction false} PartsStep(key: string, rest: string)
    requires forall i :: 0 <= i < |key| ==> key[i] != '.'
    ensures Parts(key + "." + rest) == [key] + Parts(rest)
  {
    var s := key + "." + rest;
    if key == [] {
      assert s[1..] == rest;
    } else {
      assert s[1..] == key[1..] + "." + rest && s[0] == key[0];
      PartsStep(key[1..], rest);
      assert key == [key[0]] + key[1..];
    }
  }

  /** A path goes down one object at a time, and leads nowhere through anything else; a path that does not begin
      with the root leads nowhere. */
  lemma PathStep(arguments: map<string, Json>, key: string, rest: string)
    requires forall i :: 0 <= i < |key| ==> key[i] != '.'
    ensures Resolve(arguments, "$." + key + "." + rest)
         == if key in arguments && arguments[key].JObj? then Resolve(arguments[key].fields, "$." + rest) else JNull
  {
    var path := "$." + key + "." + rest;
    assert path[2..] == key + "." + rest && "$." <= path;
    assert ("$." + rest)[2..] == rest && "$." <= "$." + rest;
    PartsStep(key, rest);
    var parts := Parts(rest);
    assert ([key] + parts)[1..] == parts;
    assert Walk(JObj(arguments), [key] + parts) == if key in arguments then Walk(arguments[key], parts) else JNull;
  }

  lemma RootlessPath(arguments: map<string, Json>, path: string)
    requires |path| < 2 || path[0] != '$' || path[1] != '.'
    ensures Resolve(arguments, path) == JNull
  {
    assert StartsWith(path, "$.") <==> |path| >= 2 && path[0] == '$' && path[1] == '.';
  }

  // ----- precedence -----

  /** The strongest of some verdicts, in words: deny, else ask for approval, else allow. */
  function Strongest(denied: bool, held: bool): Verdict {
    if denied then DENY else if held then NEED_APPROVAL else ALLOW
  }

  lemma OutcomeVerdict(d: Decision, rules: seq<Rule>, fires: Rule -> bool)
    requires IsOutcome(d, rules, fires)
    ensures d.verdict == Strongest(exists r :: r in rules && fires(r) && r.verdict == DENY,
                                   exists r :: r in rules && fires(r) && r.verdict == NEED_APPROVAL)
  {
    hide Ascending, CodeFrom, HasHit, Order;
  }

  /** Deny beats approval, and approval beats allow, whatever else fires, for one evaluation and for a whole request. */
  lemma DenyWins(policy: Policy, facts: Facts, degraded: bool, cs: seq<Pipeline.Candidate>)
    requires UniqueIds(policy.rules)
    ensures Evaluate(policy, facts, degraded).verdict
         == Strongest(exists r :: r in policy.rules && Fires(r, facts) && r.verdict == DENY,
                      exists r :: r in policy.rules && Fires(r, facts) && r.verdict == NEED_APPROVAL)
    ensures Pipeline.PipelineDecision(policy, facts, degraded, cs).verdict
         == Strongest(exists r :: r in policy.rules && Pipeline.FiresForSome(r, facts, cs) && r.verdict == DENY,
                      exists r :: r in policy.rules && Pipeline.FiresForSome(r, facts, cs) && r.verdict == NEED_APPROVAL)
  {
    hide Evaluate, UniqueIds, IsOutcome, Fires;
    hide Pipeline.PipelineDecision, Pipeline.FiresForSome;
    EvaluateIsOutcome(policy, facts, degraded);
    OutcomeVerdict(Evaluate(policy, facts, degraded), policy.rules, r => Fires(r, facts));
    Pipeline.PipelineIsFlat(policy, facts, degraded, cs);
    OutcomeVerdict(Pipeline.PipelineDecision(policy, facts, degraded, cs), policy.rules,
                   r => Pipeline.FiresForSome(r, facts, cs));
  }

  /** And for any decisions combined. */
  lemma DenyWinsCombined(ds: seq<Decision>)
    requires ds != [] && forall d :: d in ds ==> WellFormed(d)
    ensures Combined(ds).verdict == Strongest(exists d :: d in ds && d.verdict == DENY,
                                              exists d :: d in ds && d.verdict == NEED_APPROVAL)
    ensures Combined(ds).version == ds[0].version
  {
    hide Merged, WellFormed, Ascending, CodeIn, Order;
    CombinedIsMerged(ds);
    MergedIsMerge(ds);
    MergedVersion(ds);
  }

  lemma MergedVersion(ds: seq<Decision>)
    requires ds != []
    ensures Merged(ds).version == ds[0].version
  {
    hide BestOf, Winners, AllCodes, AllHits, Latest, SortedDistinct, Into;
  }

  /** The order in which transformations would be applied; the last one asked for is the one reported. */
  const APPLIED: seq<Transformation> := [NONE, TRUNCATE, SANITIZE, REWRITE, REDACT, MASK]

  lemma LastAppliedWins(policy: Policy, facts: Facts, degraded: bool, i: nat, r: Rule)
    requires UniqueIds(policy.rules) && i < |APPLIED| && Evaluate(policy, facts, degraded).verdict != DENY
    requires Evaluate(policy, facts, degraded).transformation == APPLIED[i]
    requires r in policy.rules && Fires(r, facts) && r.verdict == Evaluate(policy, facts, degraded).verdict
    ensures r.transformation in APPLIED[..i + 1]
    ensures i > 0 ==> exists q :: q in policy.rules && Fires(q, facts) && q.transformation == APPLIED[i]
                                  && q.verdict == Evaluate(policy, facts, degraded).verdict
  {
    hide Evaluate, UniqueIds, Fires, Ascending, CodeFrom, HasHit;
    EvaluateIsOutcome(policy, facts, degraded);
    OrderIsPosition(r.transformation);
    OrderIsPosition(APPLIED[i]);
    var k :| 0 <= k < |APPLIED| && APPLIED[k] == r.transformation && Order(r.transformation) == k;
    assert APPLIED[..i + 1][k] == r.transformation;
  }

  lemma OrderIsPosition(t: Transformation)
    ensures Order(t) < |APPLIED| && APPLIED[Order(t)] == t
    ensures forall i :: 0 <= i < |APPLIED| && APPLIED[i] == t ==> Order(t) == i
  {
  }

  // ----- what a hit records -----

  lemma {:induction false} CategoryIsPart(c: Condition, category: string)
    ensures Mentions(c, category) <==> exists part :: part in ToolRules.Flatten(c) && part.category == Some(category)
    decreases c, 1
  {
    CategoryIsPartOfSome(c.all, category);
    CategoryIsPartOfSome(c.any, category);
    var parts := ToolRules.Flatten(c);
    assert parts == [c] + ToolRules.FlattenAll(c.all) + ToolRules.FlattenAll(c.any);
    assert forall part :: part in parts <==>
             part == c || part in ToolRules.FlattenAll(c.all) || part in ToolRules.FlattenAll(c.any);
  }

  lemma {:induction false} CategoryIsPartOfSome(cs: seq<Condition>, category: string)
    ensures (exists x :: x in cs && Mentions(x, category)) <==>
              exists part :: part in ToolRules.FlattenAll(cs) && part.category == Some(category)
    decreases cs, 0
  {
    hide ToolRules.Flatten, Mentions;
    if cs != [] {
      CategoryIsPart(cs[0], category);
      CategoryIsPartOfSome(cs[1..], category);
      assert cs == [cs[0]] + cs[1..];
      assert forall part :: part in ToolRules.FlattenAll(cs) <==>
               part in ToolRules.Flatten(cs[0]) || part in ToolRules.FlattenAll(cs[1..]);
    }
  }

  lemma {:induction false} MentionedMember(c: Condition, findings: seq<Finding>, category: string)
    ensures category in MentionedIn(c, findings) <==>
              Mentions(c, category) && exists x :: x in findings && x.category == category
  {
    hide Mentions;
    if findings != [] {
      MentionedMember(c, findings[1..], category);
      assert findings == [findings[0]] + findings[1..];
    }
  }

  /** The category is named anywhere in the rule's condition, and found on a plane where the rule holds. */
  ghost predicate Matches(r: Rule, facts: Facts, p: Plane, category: string) {
    && HoldsAt(r, facts, p)
    && (exists part :: part in ToolRules.Flatten(r.condition.value) && part.category == Some(category))
    && exists x :: x in FindingsAt(facts, p) && x.category == category
  }

  lemma {:induction false} MatchedMember(r: Rule, facts: Facts, planes: seq<Plane>, category: string)
    ensures category in Matched(r, facts, planes) <==> exists p :: p in planes && Matches(r, facts, p, category)
  {
    hide HoldsAt, MentionedIn, Mentions, FindingsAt, ToolRules.Flatten;
    if planes != [] {
      var before, last := planes[..|planes| - 1], planes[|planes| - 1];
      assert planes == before + [last];
      MatchedMember(r, facts, before, category);
      MatchedHere(r, facts, last, category);
    }
  }

  lemma MatchedHere(r: Rule, facts: Facts, p: Plane, category: string)
    ensures Matches(r, facts, p, category) <==>
              HoldsAt(r, facts, p) && category in MentionedIn(r.condition.value, FindingsAt(facts, p))
  {
    hide Holds, MentionedIn, Mentions, FindingsAt, ToolRules.Flatten;
    if HoldsAt(r, facts, p) {
      MentionedMember(r.condition.value, FindingsAt(facts, p), category);
      CategoryIsPart(r.condition.value, category);
    }
  }

  /** A hit names its rule, with the rule's verdict and transformation and the policy's version, and exactly the
      categories that the condition names anywhere and that were found on a plane where it holds. */
  lemma HitRecordsItsRule(policy: Policy, facts: Facts, degraded: bool, h: PolicyHit)
    requires h in Evaluate(policy, facts, degraded).hits
    ensures exists r :: r in policy.rules && Fires(r, facts) && Records(h, r, policy.version, facts)
    ensures Ascending(h.matchedCategories)
  {
    hide Fires, Hits, Best, Winning, Codes, Latest, SortedDistinct, Matched, Matches, Ascending;
    HitsAreFired(policy.rules, facts, policy.version);
    var r :| r in policy.rules && Fires(r, facts) && h == HitOf(r, facts, policy.version);
    SortedDistinctAscends(Matched(r, facts, r.planes));
    forall c ensures c in h.matchedCategories <==> exists p :: p in r.planes && Matches(r, facts, p, c) {
      MatchedMember(r, facts, r.planes, c);
    }
  }

  ghost predicate Records(h: PolicyHit, r: Rule, version: string, facts: Facts) {
    && h.ruleId == r.id && h.verdict == r.verdict && h.transformation == r.transformation && h.ruleVersion == version
    && forall c :: c in h.matchedCategories <==> exists p :: p in r.planes && Matches(r, facts, p, c)
  }

  /** A rate-limit rule, or a rule without a condition, never fires. */
  lemma LimitsAreNotConditions(r: Rule, facts: Facts)
    requires r.rateLimit || r.condition.None?
    ensures !Fires(r, facts)
  {
  }

  // ----- requests without tools -----

  /** Without a declared function no test of a tool or its arguments ever counts, whatever the facts carried. */
  lemma NoToolNoVerdict(rule: Rule, p: Plane, c: Condition, facts: Facts, degraded: bool)
    requires On(rule, p, c) && c.all == [] && c.any == [] && c.category.None? && c.bytesGt.None?
    ensures Pipeline.PipelineDecision(Policy([rule], "v"), facts, degraded, []).verdict == ALLOW
    ensures Pipeline.PipelineDecision(Policy([rule], "v"), facts, degraded, []).degraded == degraded
  {
    hide Evaluate, FindingsAt, Resolve;
    var without := facts.(toolName := None, toolArguments := map[]);
    OneRule(rule, "v", without, degraded);
    assert p in rule.planes;
    NothingResolves(c);
    Pipeline.PipelineIsFlat(Policy([rule], "v"), facts, degraded, []);
    assert !Holds(c, FindingsAt(without, p), without);
    assert Fires(rule, without) <==> HoldsAt(rule, without, p);
  }

  lemma NothingResolves(c: Condition)
    ensures c.argumentPath.Some? ==> Resolve(map[], c.argumentPath.value) == JNull
  {
    if c.argumentPath.Some? && StartsWith(c.argumentPath.value, "$.") {
      var parts := Parts(c.argumentPath.value[2..]);
      assert parts != [];
    }
  }

  /** A query of white space is never reported, whatever the verbs. */
  lemma BlankIsNotReported(k: ToolRules.Knowledge, query: string)
    requires forall i :: 0 <= i < |query| ==> IsSpace(query[i])
    ensures !ToolRules.DestructiveQuery(k, JStr(query))
  {
    hide IsSpace;
    AllSpacesStrip(query);
  }

  lemma {:induction false} AllSpacesStrip(s: string)
    requires forall i :: 0 <= i < |s| ==> IsSpace(s[i])
    ensures DropSpaces(s) == ""
  {
    hide IsSpace;
    if s != [] {
      AllSpacesStrip(s[1..]);
    }
  }
}

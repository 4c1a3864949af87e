/** Laws of policy evaluation and of combining decisions. */
module DecisionAlgebra {
  import opened Common
  import opened Text
  import opened Decision

  // ----- what an evaluation means, rule by rule -----

  ghost predicate UniqueIds(rules: seq<Rule>) {
    forall i, j :: 0 <= i < j < |rules| ==> rules[i].id != rules[j].id
  }

  /** Some rule that satisfies `fires` has this verdict and this reason code. */
  ghost predicate CodeFrom(rules: seq<Rule>, fires: Rule -> bool, v: Verdict, code: string) {
    exists r :: r in rules && fires(r) && r.verdict == v && r.reasonCode == code
  }

  /** `d` is the outcome of a policy in which exactly the rules satisfying `fires` fire: it takes the
      highest verdict, the codes of the rules with that verdict, their latest transformation unless it
      denies, and it reports every rule that fires. */
  ghost predicate IsOutcome(d: Decision, rules: seq<Rule>, fires: Rule -> bool) {
    && (forall r :: r in rules && fires(r) ==> Rank(r.verdict) <= Rank(d.verdict))
    && (d.verdict == ALLOW || exists r :: r in rules && fires(r) && r.verdict == d.verdict)
    && Ascending(d.reasonCodes)
    && (forall c :: c in d.reasonCodes <==> CodeFrom(rules, fires, d.verdict, c))
    && (d.verdict == DENY ==> d.transformation == NONE)
    && (d.verdict != DENY ==>
        && (forall r :: r in rules && fires(r) && r.verdict == d.verdict ==> Order(r.transformation) <= Order(d.transformation))
        && (d.transformation == NONE
            || exists r :: r in rules && fires(r) && r.verdict == d.verdict && r.transformation == d.transformation))
    && (forall id :: HasHit(d.hits, id) <==> exists r :: r in rules && fires(r) && r.id == id)
  }

  ghost predicate HasHit(hits: seq<PolicyHit>, id: string) {
    exists h :: h in hits && h.ruleId == id
  }

  lemma {:induction false} HitsAreFired(rules: seq<Rule>, facts: Facts, version: string)
    ensures forall r :: r in rules && Fires(r, facts) ==> HitOf(r, facts, version) in Hits(rules, facts, version)
    ensures forall h :: h in Hits(rules, facts, version) ==>
              exists r :: r in rules && Fires(r, facts) && h == HitOf(r, facts, version)
  {
    hide Fires, HitOf;
    if rules != [] {
      var before, last := rules[..|rules| - 1], rules[|rules| - 1];
      HitsAreFired(before, facts, version);
      assert rules == before + [last];
      forall h | h in Hits(rules, facts, version)
        ensures exists r :: r in rules && Fires(r, facts) && h == HitOf(r, facts, version)
      {
        if h in Hits(before, facts, version) {
          var r :| r in before && Fires(r, facts) && h == HitOf(r, facts, version);
          assert r in rules;
        } else {
          assert last in rules;
        }
      }
    }
  }

  lemma {:induction false} BestIsHighest(hits: seq<PolicyHit>)
    ensures forall h :: h in hits ==> Rank(h.verdict) <= Rank(Best(hits))
    ensures Best(hits) == ALLOW || exists h :: h in hits && h.verdict == Best(hits)
  {
    if hits != [] {
      BestIsHighest(hits[..|hits| - 1]);
      assert hits == hits[..|hits| - 1] + [hits[|hits| - 1]];
    }
  }

  lemma {:induction false} WinningIsFilter(hits: seq<PolicyHit>, v: Verdict)
    ensures forall h :: h in Winning(hits, v) <==> h in hits && h.verdict == v
  {
    if hits != [] {
      WinningIsFilter(hits[..|hits| - 1], v);
      assert hits == hits[..|hits| - 1] + [hits[|hits| - 1]];
    }
  }

  lemma {:induction false} CodesOfHits(rules: seq<Rule>, hits: seq<PolicyHit>)
    ensures forall c :: c in Codes(rules, hits) <==> exists h :: h in hits && c == ReasonCode(rules, h.ruleId)
  {
    if hits != [] {
      var before, last := hits[..|hits| - 1], hits[|hits| - 1];
      CodesOfHits(rules, before);
      assert hits == before + [last];
      assert last in hits;
      forall c | c in Codes(rules, hits) ensures exists h :: h in hits && c == ReasonCode(rules, h.ruleId) {
        if c in Codes(rules, before) {
          var h :| h in before && c == ReasonCode(rules, h.ruleId);
          assert h in hits;
        }
      }
    }
  }

  lemma {:induction false} ReasonCodeOfRule(rules: seq<Rule>, r: Rule)
    requires UniqueIds(rules) && r in rules
    ensures ReasonCode(rules, r.id) == r.reasonCode
  {
    if rules[0] != r {
      assert r in rules[1..];
      ReasonCodeOfRule(rules[1..], r);
    }
  }

  /** What an outcome says of one code. */
  lemma OutcomeCodes(d: Decision, rules: seq<Rule>, fires: Rule -> bool, c: string)
    requires IsOutcome(d, rules, fires)
    ensures c in d.reasonCodes <==> CodeFrom(rules, fires, d.verdict, c)
    ensures forall r :: r in rules && fires(r) ==> Rank(r.verdict) <= Rank(d.verdict)
  {
  }

  lemma FiredHits(policy: Policy, facts: Facts)
    requires UniqueIds(policy.rules)
    ensures forall r :: r in policy.rules && Fires(r, facts) ==>
              HitOf(r, facts, policy.version) in Hits(policy.rules, facts, policy.version)
              && ReasonCode(policy.rules, r.id) == r.reasonCode
  {
    hide Fires, Hits, HitOf, ReasonCode, UniqueIds;
    HitsAreFired(policy.rules, facts, policy.version);
    forall r | r in policy.rules && Fires(r, facts) ensures ReasonCode(policy.rules, r.id) == r.reasonCode {
      ReasonCodeOfRule(policy.rules, r);
    }
  }

  lemma EvaluatedCodes(policy: Policy, facts: Facts, degraded: bool, c: string)
    requires UniqueIds(policy.rules)
    ensures var d := Evaluate(policy, facts, degraded);
            c in d.reasonCodes <==> CodeFrom(policy.rules, r => Fires(r, facts), d.verdict, c)
  {
    hide Fires, Hits, Best, Winning, Codes, ReasonCode, Latest, SortedDistinct, UniqueIds;
    var rules, hits := policy.rules, Hits(policy.rules, facts, policy.version);
    var v := Best(hits);
    var winning := Winning(hits, v);
    HitsAreFired(rules, facts, policy.version);
    FiredHits(policy, facts);
    WinningIsFilter(hits, v);
    CodesOfHits(rules, winning);
    if c in SortedDistinct(Codes(rules, winning)) {
      var h :| h in winning && c == ReasonCode(rules, h.ruleId);
      var r :| r in rules && Fires(r, facts) && h == HitOf(r, facts, policy.version);
    }
    if CodeFrom(rules, r => Fires(r, facts), v, c) {
      var r :| r in rules && Fires(r, facts) && r.verdict == v && r.reasonCode == c;
      assert HitOf(r, facts, policy.version) in winning;
    }
  }

  lemma EvaluatedTransformation(policy: Policy, facts: Facts, degraded: bool)
    requires UniqueIds(policy.rules)
    ensures var d := Evaluate(policy, facts, degraded);
            d.verdict != DENY ==>
              && (forall r :: r in policy.rules && Fires(r, facts) && r.verdict == d.verdict ==>
                    Order(r.transformation) <= Order(d.transformation))
              && (d.transformation == NONE
                  || exists r :: r in policy.rules && Fires(r, facts) && r.verdict == d.verdict && r.transformation == d.transformation)
  {
    hide Fires, Hits, Best, Winning, Codes, ReasonCode, Latest, SortedDistinct, UniqueIds;
    var rules, hits := policy.rules, Hits(policy.rules, facts, policy.version);
    var d := Evaluate(policy, facts, degraded);
    var v := d.verdict;
    var winning := Winning(hits, v);
    HitsAreFired(rules, facts, policy.version);
    WinningIsFilter(hits, v);
    if v != DENY {
      var ts := HitTransformations(winning);
      forall r | r in rules && Fires(r, facts) && r.verdict == v ensures Order(r.transformation) <= Order(d.transformation) {
        var h := HitOf(r, facts, policy.version);
        var i :| 0 <= i < |winning| && winning[i] == h;
        assert ts[i] in ts;
      }
      if d.transformation != NONE {
        var i :| 0 <= i < |ts| && ts[i] == d.transformation;
        assert winning[i] in winning;
      }
    }
  }

  /** The evaluation of a policy is its outcome for the rules that fire. */
  lemma EvaluateIsOutcome(policy: Policy, facts: Facts, degraded: bool)
    requires UniqueIds(policy.rules)
    ensures IsOutcome(Evaluate(policy, facts, degraded), policy.rules, r => Fires(r, facts))
  {
    hide Fires, Hits, Best, Winning, Codes, ReasonCode, Latest, SortedDistinct, Ascending, UniqueIds, CodeFrom, Order;
    var rules, hits := policy.rules, Hits(policy.rules, facts, policy.version);
    var d := Evaluate(policy, facts, degraded);
    HitsAreFired(rules, facts, policy.version);
    BestIsHighest(hits);
    SortedDistinctAscends(Codes(rules, Winning(hits, d.verdict)));
    forall c ensures c in d.reasonCodes <==> CodeFrom(rules, r => Fires(r, facts), d.verdict, c) {
      EvaluatedCodes(policy, facts, degraded, c);
    }
    EvaluatedTransformation(policy, facts, degraded);
    forall id ensures HasHit(hits, id) <==> exists r :: r in rules && Fires(r, facts) && r.id == id {
      if r :| r in rules && Fires(r, facts) && r.id == id {
        assert HitOf(r, facts, policy.version) in hits;
      }
    }
  }

  /** Two outcomes for the same firing rules agree on everything but the order and content of the hits. */
  lemma OutcomeIsUnique(d: Decision, e: Decision, rules: seq<Rule>, rules': seq<Rule>, fires: Rule -> bool, fires': Rule -> bool)
    requires IsOutcome(d, rules, fires) && IsOutcome(e, rules', fires')
    requires forall r :: (r in rules && fires(r)) <==> (r in rules' && fires'(r))
    ensures d.verdict == e.verdict && d.transformation == e.transformation && d.reasonCodes == e.reasonCodes
    ensures forall id :: HasHit(d.hits, id) <==> HasHit(e.hits, id)
  {
    hide Ascending, HasHit;
    assert d.verdict == e.verdict;
    forall c ensures c in d.reasonCodes <==> c in e.reasonCodes {
      assert CodeFrom(rules, fires, d.verdict, c) <==> CodeFrom(rules', fires', d.verdict, c);
    }
    AscendingIsUnique(d.reasonCodes, e.reasonCodes);
  }

  // ----- rule order does not matter -----

  /** Reordering the rules keeps the verdict, the codes and the transformation, and the hits as a multiset. */
  lemma RuleOrderIsIrrelevant(policy: Policy, rules': seq<Rule>, facts: Facts, degraded: bool)
    requires UniqueIds(policy.rules) && multiset(policy.rules) == multiset(rules')
    ensures var d, e := Evaluate(policy, facts, degraded), Evaluate(policy.(rules := rules'), facts, degraded);
            && d.verdict == e.verdict && d.transformation == e.transformation && d.reasonCodes == e.reasonCodes
            && multiset(d.hits) == multiset(e.hits)
  {
    hide IsOutcome, Fires;
    var rules := policy.rules;
    PermutedIds(rules, rules');
    EvaluateIsOutcome(policy, facts, degraded);
    EvaluateIsOutcome(policy.(rules := rules'), facts, degraded);
    forall r ensures r in rules <==> r in rules' {
      assert r in rules <==> r in multiset(rules);
      assert r in rules' <==> r in multiset(rules');
    }
    OutcomeIsUnique(Evaluate(policy, facts, degraded), Evaluate(policy.(rules := rules'), facts, degraded),
                    rules, rules', r => Fires(r, facts), r => Fires(r, facts));
    PermutedHits(rules, rules', facts, policy.version);
  }

  lemma PermutedIds(a: seq<Rule>, b: seq<Rule>)
    requires UniqueIds(a) && multiset(a) == multiset(b)
    ensures UniqueIds(b)
  {
    forall i, j | 0 <= i < j < |b| ensures b[i].id != b[j].id {
      if b[i].id == b[j].id {
        assert b[i] in multiset(b) && b[j] in multiset(b);
        assert b[i] in a && b[j] in a;
        assert b[i] == b[j];
        assert b == b[..j] + [b[j]] + b[j + 1..];
        assert b[..j][i] in multiset(b[..j]);
        assert multiset(a)[b[j]] >= 2;
        OnceOnly(a, b[j]);
      }
    }
  }

  lemma OnceOnly(a: seq<Rule>, r: Rule)
    requires UniqueIds(a)
    ensures multiset(a)[r] <= 1
  {
    if r in a {
      var k :| 0 <= k < |a| && a[k] == r;
      assert a == a[..k] + [r] + a[k + 1..];
      assert r !in a[..k] && r !in a[k + 1..];
      assert r !in multiset(a[..k]) && r !in multiset(a[k + 1..]);
    }
  }

  lemma {:induction false} HitsConcat(a: seq<Rule>, b: seq<Rule>, facts: Facts, version: string)
    ensures Hits(a + b, facts, version) == Hits(a, facts, version) + Hits(b, facts, version)
  {
    hide Fires, HitOf;
    if b == [] {
      assert a + b == a;
    } else {
      assert (a + b)[..|a + b| - 1] == a + b[..|b| - 1];
      HitsConcat(a, b[..|b| - 1], facts, version);
    }
  }

  lemma SameRest(a: seq<Rule>, r: Rule, left: seq<Rule>, right: seq<Rule>)
    requires multiset(a + [r]) == multiset(left + ([r] + right))
    ensures multiset(a) == multiset(left + right)
  {
    assert multiset(a + [r]) == multiset(a) + multiset{r};
    assert multiset(left + ([r] + right)) == multiset(left) + multiset{r} + multiset(right);
    assert multiset(left + right) == multiset(left) + multiset(right);
    forall x ensures multiset(a)[x] == multiset(left + right)[x] {
      assert multiset(a + [r])[x] == multiset(left + ([r] + right))[x];
    }
  }

  lemma {:induction false} PermutedHits(a: seq<Rule>, b: seq<Rule>, facts: Facts, version: string)
    requires multiset(a) == multiset(b)
    ensures multiset(Hits(a, facts, version)) == multiset(Hits(b, facts, version))
    decreases |a|
  {
    hide Fires, HitOf;
    if a == [] {
      assert |b| == |multiset(b)| == 0;
    } else {
      var r, a' := a[|a| - 1], a[..|a| - 1];
      assert a == a' + [r];
      assert r in multiset(b);
      var k :| 0 <= k < |b| && b[k] == r;
      var left, right := b[..k], b[k + 1..];
      assert b == left + ([r] + right);
      SameRest(a', r, left, right);
      PermutedHits(a', left + right, facts, version);
      HitsConcat(a', [r], facts, version);
      HitsConcat(left, [r] + right, facts, version);
      HitsConcat([r], right, facts, version);
      HitsConcat(left, right, facts, version);
    }
  }

  // ----- more evidence never lowers the verdict -----

  predicate NoUpperBounds(c: Condition)
    decreases c
  {
    && c.scoreLt.None?
    && (forall x :: x in c.all ==> NoUpperBounds(x))
    && (forall x :: x in c.any ==> NoUpperBounds(x))
  }

  ghost predicate MoreFindings(f: seq<Finding>, g: seq<Finding>) {
    forall x :: x in f ==> x in g
  }

  /** A score is an upper bound of the scores of its category, and one of them or zero. */
  lemma {:induction false} ScoreIsMaximum(f: seq<Finding>, category: string)
    ensures Score(f, category).Some? <==> category != "DETECTOR_TIMEOUT" && exists x :: x in f && x.category == category
    ensures Score(f, category).Some? ==>
              && Score(f, category).value >= 0.0
              && (forall x :: x in f && x.category == category ==> x.score <= Score(f, category).value)
              && (Score(f, category).value == 0.0
                  || exists x :: x in f && x.category == category && x.score == Score(f, category).value)
  {
    if f != [] {
      ScoreIsMaximum(f[..|f| - 1], category);
      assert f == f[..|f| - 1] + [f[|f| - 1]];
      assert f[|f| - 1] in f;
    }
  }

  lemma ScoreGrows(f: seq<Finding>, g: seq<Finding>, category: string)
    requires MoreFindings(f, g) && Score(f, category).Some?
    ensures Score(g, category).Some? && Score(f, category).value <= Score(g, category).value
  {
    ScoreIsMaximum(f, category);
    ScoreIsMaximum(g, category);
  }

  lemma {:induction false} HoldsGrows(c: Condition, f: seq<Finding>, g: seq<Finding>, facts: Facts, facts': Facts)
    requires NoUpperBounds(c) && MoreFindings(f, g) && Holds(c, f, facts)
    requires facts' == facts.(findings := facts'.findings)
    ensures Holds(c, g, facts')
    decreases c
  {
    hide ArgumentHolds, Resolve, Score, MoreFindings;
    if c.all != [] {
      forall x | x in c.all ensures Holds(x, g, facts') { HoldsGrows(x, f, g, facts, facts'); }
    } else if c.any != [] {
      var x :| x in c.any && Holds(x, f, facts);
      HoldsGrows(x, f, g, facts, facts');
    } else if c.category.Some? {
      ScoreGrows(f, g, c.category.value);
    }
  }

  /** Without `score_lt`, adding findings on any plane and rules anywhere never lowers the verdict. */
  lemma EvidenceNeverLowers(policy: Policy, policy': Policy, facts: Facts, facts': Facts, degraded: bool)
    requires UniqueIds(policy.rules) && UniqueIds(policy'.rules)
    requires forall r :: r in policy.rules ==> r in policy'.rules
    requires forall r :: r in policy.rules && r.condition.Some? ==> NoUpperBounds(r.condition.value)
    requires facts' == facts.(findings := facts'.findings)
    requires forall p :: MoreFindings(FindingsAt(facts, p), FindingsAt(facts', p))
    ensures Rank(Evaluate(policy, facts, degraded).verdict) <= Rank(Evaluate(policy', facts', degraded).verdict)
  {
    hide Evaluate, Holds, NoUpperBounds, FindingsAt, MoreFindings, UniqueIds, CodeFrom, HasHit, Ascending;
    EvaluateIsOutcome(policy, facts, degraded);
    EvaluateIsOutcome(policy', facts', degraded);
    var d := Evaluate(policy, facts, degraded);
    if d.verdict != ALLOW {
      var r :| r in policy.rules && Fires(r, facts) && r.verdict == d.verdict;
      var p :| p in r.planes && HoldsAt(r, facts, p);
      HoldsGrows(r.condition.value, FindingsAt(facts, p), FindingsAt(facts', p), facts, facts');
      assert HoldsAt(r, facts', p);
      assert Fires(r, facts');
    }
  }

  function CategoryCondition(category: string, gte: Option<real>, lt: Option<real>): Condition {
    Condition([], [], Some(category), gte, lt, None, [], [], None, None, None, [], None, [])
  }

  /** What every finding is constructed with. */
  ghost predicate Scored(findings: seq<Finding>) {
    forall x :: x in findings ==> 0.0 <= x.score <= 1.0
  }

  /** A category test that holds keeps holding when findings are added. */
  ghost predicate MonotoneTest(category: string, gte: Option<real>, lt: Option<real>) {
    forall f, g :: MoreFindings(f, g) && Scored(g) && Passes(category, gte, lt, f) ==> Passes(category, gte, lt, g)
  }

  predicate Passes(category: string, gte: Option<real>, lt: Option<real>, f: seq<Finding>) {
    CategoryHolds(CategoryCondition(category, gte, lt), Score(f, category))
  }

  /** No upper bound, or one that no score can reach, or that none in the band can be under: scores lie between zero
      and one, and timeouts have none. */
  predicate NeverCrosses(category: string, gte: Option<real>, lt: Option<real>) {
    || lt.None?
    || lt.value <= 0.0 || lt.value > 1.0
    || (gte.Some? && gte.value >= lt.value)
    || category == "DETECTOR_TIMEOUT"
  }

  /** A score inside the band, and one at its upper end. */
  function Inside(gte: Option<real>): real {
    if gte.Some? && gte.value > 0.0 then gte.value else 0.0
  }

  function Weak(category: string, gte: Option<real>): seq<Finding> {
    [Finding(category, Inside(gte))]
  }

  function Strong(category: string, gte: Option<real>, lt: real): seq<Finding> {
    [Finding(category, Inside(gte)), Finding(category, lt)]
  }

  lemma CrossesUpperBound(category: string, gte: Option<real>, lt: real)
    requires !NeverCrosses(category, gte, Some(lt))
    ensures MoreFindings(Weak(category, gte), Strong(category, gte, lt)) && Scored(Strong(category, gte, lt))
    ensures Passes(category, gte, Some(lt), Weak(category, gte))
    ensures !Passes(category, gte, Some(lt), Strong(category, gte, lt))
  {
    TwoScores(category, Inside(gte), lt);
  }

  lemma TwoScores(category: string, a: real, b: real)
    requires category != "DETECTOR_TIMEOUT" && 0.0 <= a <= b
    ensures Score([Finding(category, a)], category) == Some(a)
    ensures Score([Finding(category, a), Finding(category, b)], category) == Some(b)
  {
    assert [Finding(category, a)][..0] == [];
    assert [Finding(category, a), Finding(category, b)][..1] == [Finding(category, a)];
  }

  lemma UncrossedPasses(category: string, gte: Option<real>, lt: Option<real>, f: seq<Finding>, g: seq<Finding>)
    requires NeverCrosses(category, gte, lt) && MoreFindings(f, g) && Scored(g) && Passes(category, gte, lt, f)
    ensures Passes(category, gte, lt, g)
  {
    hide Score;
    ScoreIsMaximum(f, category);
    ScoreIsMaximum(g, category);
    ScoreGrows(f, g, category);
  }

  /** Exactly when a category test is monotone in the findings, for all bounds. */
  lemma CategoryTestIsMonotoneExactlyWhen(category: string, gte: Option<real>, lt: Option<real>)
    ensures MonotoneTest(category, gte, lt) <==> NeverCrosses(category, gte, lt)
  {
    hide Passes, NeverCrosses, MoreFindings, Scored, Weak, Strong;
    if NeverCrosses(category, gte, lt) {
      forall f, g | MoreFindings(f, g) && Scored(g) && Passes(category, gte, lt, f) ensures Passes(category, gte, lt, g) {
        UncrossedPasses(category, gte, lt, f, g);
      }
    } else {
      assert lt.Some? by { NoBound(category, gte); }
      CrossesUpperBound(category, gte, lt.value);
      assert !MonotoneTest(category, gte, lt);
    }
  }

  lemma NoBound(category: string, gte: Option<real>)
    ensures NeverCrosses(category, gte, None)
  {
  }

  /** A policy of one rule decides by whether the rule fires. */
  lemma OneRule(rule: Rule, version: string, facts: Facts, degraded: bool)
    ensures Evaluate(Policy([rule], version), facts, degraded).verdict == if Fires(rule, facts) then rule.verdict else ALLOW
  {
    hide Evaluate, CodeFrom, HasHit, Order, Ascending, Fires;
    assert rule in [rule];
    EvaluateIsOutcome(Policy([rule], version), facts, degraded);
  }

  /** More findings on some planes, and everything else the same. */
  ghost predicate MoreEvidence(facts: Facts, facts': Facts) {
    && facts' == facts.(findings := facts'.findings)
    && forall p :: MoreFindings(FindingsAt(facts, p), FindingsAt(facts', p)) && Scored(FindingsAt(facts', p))
  }

  ghost predicate EvidenceRaises(policy: Policy) {
    forall facts, facts', degraded :: MoreEvidence(facts, facts') ==>
      Rank(Evaluate(policy, facts, degraded).verdict) <= Rank(Evaluate(policy, facts', degraded).verdict)
  }

  /** So a policy of one category rule that does more than allow is monotone in the evidence for exactly the same
      bounds; with any others, more evidence can lower its verdict. */
  lemma EvidenceRaisesExactlyWhen(rule: Rule, version: string, category: string, gte: Option<real>, lt: Option<real>)
    requires Tested(rule) && rule.condition.value == CategoryCondition(category, gte, lt)
    requires rule.planes != [] && rule.verdict != ALLOW
    ensures EvidenceRaises(Policy([rule], version)) <==> NeverCrosses(category, gte, lt)
  {
    hide Evaluate, Passes, NeverCrosses, MoreFindings, Scored, Fires, FindingsAt;
    var policy := Policy([rule], version);
    if NeverCrosses(category, gte, lt) {
      forall facts, facts', degraded: bool | MoreEvidence(facts, facts')
        ensures Rank(Evaluate(policy, facts, degraded).verdict) <= Rank(Evaluate(policy, facts', degraded).verdict)
      {
        OneRule(rule, version, facts, degraded);
        OneRule(rule, version, facts', degraded);
        if Fires(rule, facts) { KeepsFiring(rule, category, gte, lt, facts, facts'); }
      }
    } else {
      assert lt.Some? by { NoBound(category, gte); }
      var facts, facts' := WeakerFacts(rule, category, gte, lt.value);
      OneRule(rule, version, facts, false);
      OneRule(rule, version, facts', false);
      assert !EvidenceRaises(policy);
    }
  }

  lemma HoldsByScore(rule: Rule, category: string, gte: Option<real>, lt: Option<real>, facts: Facts)
    requires Tested(rule) && rule.condition.value == CategoryCondition(category, gte, lt)
    ensures Fires(rule, facts) <==> exists p :: p in rule.planes && Passes(category, gte, lt, FindingsAt(facts, p))
  {
    hide Score, FindingsAt, CategoryHolds;
    forall p ensures HoldsAt(rule, facts, p) <==> Passes(category, gte, lt, FindingsAt(facts, p)) {}
  }

  lemma KeepsFiring(rule: Rule, category: string, gte: Option<real>, lt: Option<real>, facts: Facts, facts': Facts)
    requires Tested(rule) && rule.condition.value == CategoryCondition(category, gte, lt)
    requires NeverCrosses(category, gte, lt) && MoreEvidence(facts, facts') && Fires(rule, facts)
    ensures Fires(rule, facts')
  {
    hide Passes, NeverCrosses, MoreFindings, Scored, Fires, FindingsAt;
    HoldsByScore(rule, category, gte, lt, facts);
    HoldsByScore(rule, category, gte, lt, facts');
    var p :| p in rule.planes && Passes(category, gte, lt, FindingsAt(facts, p));
    UncrossedPasses(category, gte, lt, FindingsAt(facts, p), FindingsAt(facts', p));
  }

  lemma WeakerFacts(rule: Rule, category: string, gte: Option<real>, lt: real) returns (facts: Facts, facts': Facts)
    requires Tested(rule) && rule.condition.value == CategoryCondition(category, gte, Some(lt))
    requires rule.planes != [] && !NeverCrosses(category, gte, Some(lt))
    ensures MoreEvidence(facts, facts') && Fires(rule, facts) && !Fires(rule, facts')
  {
    hide Passes, NeverCrosses, MoreFindings, Scored, Fires, Weak, Strong;
    var p := rule.planes[0];
    facts := Facts(map[p := Weak(category, gte)], 0, None, map[]);
    facts' := facts.(findings := map[p := Strong(category, gte, lt)]);
    CrossesUpperBound(category, gte, lt);
    HoldsByScore(rule, category, gte, Some(lt), facts);
    HoldsByScore(rule, category, gte, Some(lt), facts');
    assert p in rule.planes && Passes(category, gte, Some(lt), FindingsAt(facts, p));
    NothingFound(category, gte, Some(lt));
    forall q ensures q != p ==> !Passes(category, gte, Some(lt), FindingsAt(facts', q)) {
      assert q != p ==> FindingsAt(facts', q) == [];
    }
    NoFindings();
  }

  lemma NoFindings()
    ensures MoreFindings([], []) && Scored([])
  {
  }

  lemma NothingFound(category: string, gte: Option<real>, lt: Option<real>)
    ensures !Passes(category, gte, lt, [])
  {
  }

  // ----- combining decisions -----

  ghost predicate DistinctHits(hits: seq<PolicyHit>) {
    forall i, j :: 0 <= i < j < |hits| ==> hits[i].ruleId != hits[j].ruleId
  }

  /** What every decision the engine produces satisfies. */
  ghost predicate WellFormed(d: Decision) {
    (d.verdict == DENY ==> d.transformation == NONE) && Ascending(d.reasonCodes) && DistinctHits(d.hits)
  }

  lemma {:induction false} HitIdsAreRuleIds(rules: seq<Rule>, facts: Facts, version: string)
    requires UniqueIds(rules)
    ensures DistinctHits(Hits(rules, facts, version))
  {
    hide Fires;
    if rules != [] {
      var before, last := rules[..|rules| - 1], rules[|rules| - 1];
      HitIdsAreRuleIds(before, facts, version);
      HitsAreFired(before, facts, version);
      var hits := Hits(before, facts, version);
      forall i | 0 <= i < |hits| ensures hits[i].ruleId != last.id {
        assert hits[i] in hits;
        var r :| r in before && Fires(r, facts) && hits[i] == HitOf(r, facts, version);
        var k :| 0 <= k < |before| && before[k] == r;
        assert rules[k] == r;
      }
    }
  }

  lemma EvaluateIsWellFormed(policy: Policy, facts: Facts, degraded: bool)
    requires UniqueIds(policy.rules)
    ensures WellFormed(Evaluate(policy, facts, degraded))
  {
    hide CodeFrom, HasHit, Hits, Fires;
    EvaluateIsOutcome(policy, facts, degraded);
    HitIdsAreRuleIds(policy.rules, facts, policy.version);
  }

  // The dictionary of hits.

  ghost predicate Known(hits: seq<PolicyHit>, id: string) {
    exists i :: 0 <= i < |hits| && hits[i].ruleId == id
  }

  lemma UpsertSpec(hits: seq<PolicyHit>, h: PolicyHit, k: nat)
    ensures !Known(hits, h.ruleId) ==> Upsert(hits, h) == hits + [h]
    ensures k < |hits| && DistinctHits(hits) && hits[k].ruleId == h.ruleId ==> Upsert(hits, h) == hits[k := h]
  {
    UpsertUnknown(hits, h);
    if k < |hits| && DistinctHits(hits) && hits[k].ruleId == h.ruleId {
      UpsertKnown(hits, h, k);
    }
  }

  lemma {:induction false} UpsertUnknown(hits: seq<PolicyHit>, h: PolicyHit)
    ensures !Known(hits, h.ruleId) ==> Upsert(hits, h) == hits + [h]
  {
    if hits != [] {
      UpsertUnknown(hits[1..], h);
      assert hits == [hits[0]] + hits[1..];
    }
  }

  lemma {:induction false} UpsertKnown(hits: seq<PolicyHit>, h: PolicyHit, k: nat)
    requires k < |hits| && DistinctHits(hits) && hits[k].ruleId == h.ruleId
    ensures Upsert(hits, h) == hits[k := h]
  {
    if k == 0 {
      assert [h] + hits[1..] == hits[0 := h];
    } else {
      assert hits[0].ruleId != hits[k].ruleId;
      UpsertKnown(hits[1..], h, k - 1);
      assert [hits[0]] + hits[1..][k - 1 := h] == hits[k := h];
    }
  }

  lemma UpsertKeepsDistinct(hits: seq<PolicyHit>, h: PolicyHit)
    requires DistinctHits(hits)
    ensures DistinctHits(Upsert(hits, h))
    ensures forall id :: Known(Upsert(hits, h), id) <==> Known(hits, id) || id == h.ruleId
  {
    UpsertSpec(hits, h, 0);
    if Known(hits, h.ruleId) {
      var k :| 0 <= k < |hits| && hits[k].ruleId == h.ruleId;
      UpsertSpec(hits, h, k);
      forall id ensures Known(hits[k := h], id) <==> Known(hits, id) {
        if i :| 0 <= i < |hits| && hits[i].ruleId == id { assert hits[k := h][i].ruleId == id; }
      }
    } else {
      forall id ensures Known(hits + [h], id) <==> Known(hits, id) || id == h.ruleId {
        if i :| 0 <= i < |hits| && hits[i].ruleId == id { assert (hits + [h])[i].ruleId == id; }
        if id == h.ruleId { assert (hits + [h])[|hits|].ruleId == id; }
      }
    }
  }

  lemma {:induction false} IntoKeepsDistinct(start: seq<PolicyHit>, hits: seq<PolicyHit>)
    requires DistinctHits(start)
    ensures DistinctHits(Into(start, hits))
    ensures forall id :: Known(Into(start, hits), id) <==> Known(start, id) || Known(hits, id)
  {
    hide DistinctHits;
    if hits != [] {
      var before, h := hits[..|hits| - 1], hits[|hits| - 1];
      IntoKeepsDistinct(start, before);
      UpsertKeepsDistinct(Into(start, before), h);
      forall id ensures Known(hits, id) <==> Known(before, id) || id == h.ruleId {
        if i :| 0 <= i < |hits| && hits[i].ruleId == id { assert i < |before| ==> before[i].ruleId == id; }
        if i :| 0 <= i < |before| && before[i].ruleId == id { assert hits[i].ruleId == id; }
      }
    }
  }

  lemma {:induction false} IntoConcat(start: seq<PolicyHit>, a: seq<PolicyHit>, b: seq<PolicyHit>)
    ensures Into(start, a + b) == Into(Into(start, a), b)
  {
    if b == [] {
      assert a + b == a;
    } else {
      assert (a + b)[..|a + b| - 1] == a + b[..|b| - 1];
      IntoConcat(start, a, b[..|b| - 1]);
    }
  }

  /** Assigning distinct hits to an empty dictionary lists them. */
  lemma {:induction false} IntoEmpty(hits: seq<PolicyHit>)
    requires DistinctHits(hits)
    ensures Into([], hits) == hits
  {
    if hits != [] {
      var before, h := hits[..|hits| - 1], hits[|hits| - 1];
      IntoEmpty(before);
      UpsertSpec(before, h, 0);
      assert hits == before + [h];
    }
  }

  /** Assignments to different known keys commute. */
  lemma UpsertsCommute(hits: seq<PolicyHit>, g: PolicyHit, h: PolicyHit)
    requires DistinctHits(hits) && Known(hits, g.ruleId) && g.ruleId != h.ruleId
    ensures Upsert(Upsert(hits, h), g) == Upsert(Upsert(hits, g), h)
  {
    hide Upsert, DistinctHits;
    var k :| 0 <= k < |hits| && hits[k].ruleId == g.ruleId;
    UpsertSpec(hits, g, k);
    UpsertKeepsDistinct(hits, h);
    UpsertKeepsDistinct(hits, g);
    UpsertSpec(hits, h, 0);
    if Known(hits, h.ruleId) {
      var j :| 0 <= j < |hits| && hits[j].ruleId == h.ruleId;
      UpsertSpec(hits, h, j);
      UpsertSpec(hits[j := h], g, k);
      UpsertSpec(hits[k := g], h, j);
      assert hits[j := h][k := g] == hits[k := g][j := h];
    } else {
      UpsertSpec(hits + [h], g, k);
      UpsertSpec(hits[k := g], h, 0);
      assert (hits + [h])[k := g] == hits[k := g] + [h];
    }
  }

  lemma UpsertTwice(hits: seq<PolicyHit>, g: PolicyHit, h: PolicyHit)
    requires DistinctHits(hits) && g.ruleId == h.ruleId
    ensures Upsert(Upsert(hits, g), h) == Upsert(hits, h)
  {
    hide Upsert, DistinctHits;
    UpsertKeepsDistinct(hits, g);
    UpsertSpec(hits, g, 0);
    UpsertSpec(hits, h, 0);
    if Known(hits, g.ruleId) {
      var k :| 0 <= k < |hits| && hits[k].ruleId == g.ruleId;
      UpsertSpec(hits, g, k);
      UpsertSpec(hits, h, k);
      UpsertSpec(hits[k := g], h, k);
    } else {
      UpsertSpec(hits + [g], h, |hits|);
      assert (hits + [g])[|hits| := h] == hits + [h];
    }
  }

  /** Overwriting one entry of the list assigned is the same as assigning it again at the end. */
  lemma {:induction false} IntoOverwritten(start: seq<PolicyHit>, hits: seq<PolicyHit>, k: nat, h: PolicyHit)
    requires DistinctHits(start) && DistinctHits(hits) && k < |hits| && hits[k].ruleId == h.ruleId
    ensures Into(start, hits[k := h]) == Upsert(Into(start, hits), h)
  {
    var before, last := hits[..|hits| - 1], hits[|hits| - 1];
    IntoKeepsDistinct(start, before);
    if k == |before| {
      assert hits[k := h][..|before|] == before;
      UpsertTwice(Into(start, before), last, h);
    } else {
      assert hits[k := h][..|before|] == before[k := h];
      IntoOverwritten(start, before, k, h);
      assert before[k].ruleId == h.ruleId;
      UpsertsCommute(Into(start, before), h, last);
    }
  }

  /** Deduplicating first changes nothing: the dictionary sees the same first positions and last values. */
  lemma {:induction false} IntoDeduplicated(start: seq<PolicyHit>, hits: seq<PolicyHit>)
    requires DistinctHits(start)
    ensures Into(start, Into([], hits)) == Into(start, hits)
  {
    if hits != [] {
      var before, h := hits[..|hits| - 1], hits[|hits| - 1];
      var seen := Into([], before);
      IntoDeduplicated(start, before);
      IntoKeepsDistinct([], before);
      UpsertSpec(seen, h, 0);
      if Known(seen, h.ruleId) {
        var k :| 0 <= k < |seen| && seen[k].ruleId == h.ruleId;
        UpsertSpec(seen, h, k);
        IntoOverwritten(start, seen, k, h);
      } else {
        IntoConcat(start, seen, [h]);
        assert [h][..0] == [];
      }
    }
  }

  // The other fields.

  /** Field by field, what `Merged` takes from its decisions. */
  lemma {:induction false} BestOfSpec(ds: seq<Decision>)
    ensures forall d :: d in ds ==> Rank(d.verdict) <= Rank(BestOf(ds))
    ensures ds != [] ==> exists d :: d in ds && d.verdict == BestOf(ds)
  {
    if ds != [] {
      var before, last := ds[..|ds| - 1], ds[|ds| - 1];
      BestOfSpec(before);
      assert ds == before + [last];
      assert last in ds;
      assert before != [] ==> forall d :: d in before ==> d in ds;
    }
  }

  lemma {:induction false} WinnersSpec(ds: seq<Decision>, v: Verdict)
    ensures forall d :: d in Winners(ds, v) <==> d in ds && d.verdict == v
  {
    if ds != [] {
      WinnersSpec(ds[..|ds| - 1], v);
      assert ds == ds[..|ds| - 1] + [ds[|ds| - 1]];
    }
  }

  lemma {:induction false} AllCodesSpec(ds: seq<Decision>)
    ensures forall c :: c in AllCodes(ds) <==> exists d :: d in ds && c in d.reasonCodes
  {
    if ds != [] {
      var before, last := ds[..|ds| - 1], ds[|ds| - 1];
      AllCodesSpec(before);
      assert ds == before + [last];
      assert last in ds;
      forall c | c in AllCodes(ds) ensures exists d :: d in ds && c in d.reasonCodes {
        if c in AllCodes(before) {
          var d :| d in before && c in d.reasonCodes;
          assert d in ds;
        }
      }
    }
  }

  lemma {:induction false} AllHitsConcat(xs: seq<Decision>, ys: seq<Decision>)
    ensures AllHits(xs + ys) == AllHits(xs) + AllHits(ys)
  {
    if ys == [] {
      assert xs + ys == xs;
    } else {
      assert (xs + ys)[..|xs + ys| - 1] == xs + ys[..|ys| - 1];
      AllHitsConcat(xs, ys[..|ys| - 1]);
    }
  }

  /** `m` merges `ds`: the highest verdict, the union of the winners' codes, their latest transformation. */
  ghost predicate IsMerge(m: Decision, ds: seq<Decision>) {
    && (forall d :: d in ds ==> Rank(d.verdict) <= Rank(m.verdict))
    && (exists d :: d in ds && d.verdict == m.verdict)
    && Ascending(m.reasonCodes)
    && (forall c :: c in m.reasonCodes <==> CodeIn(ds, m.verdict, c))
    && (m.verdict == DENY ==> m.transformation == NONE)
    && (m.verdict != DENY ==>
        && (forall d :: d in ds && d.verdict == m.verdict ==> Order(d.transformation) <= Order(m.transformation))
        && (m.transformation == NONE
            || exists d :: d in ds && d.verdict == m.verdict && d.transformation == m.transformation))
    && (m.degraded <==> exists d :: d in ds && d.degraded)
  }

  ghost predicate CodeIn(ds: seq<Decision>, v: Verdict, c: string) {
    exists d :: d in ds && d.verdict == v && c in d.reasonCodes
  }

  lemma MergedIsMerge(ds: seq<Decision>)
    requires ds != []
    ensures IsMerge(Merged(ds), ds)
    ensures DistinctHits(Merged(ds).hits)
  {
    hide BestOf, Winners, AllCodes, AllHits, Latest, SortedDistinct, Ascending, Into;
    var m := Merged(ds);
    var winners := Winners(ds, m.verdict);
    BestOfSpec(ds);
    WinnersSpec(ds, m.verdict);
    AllCodesSpec(winners);
    SortedDistinctAscends(AllCodes(winners));
    IntoKeepsDistinct([], AllHits(ds));
    if m.verdict != DENY {
      var ts := DecisionTransformations(winners);
      forall d | d in ds && d.verdict == m.verdict ensures Order(d.transformation) <= Order(m.transformation) {
        assert d in winners;
        var i :| 0 <= i < |winners| && winners[i] == d;
        assert ts[i] in ts;
      }
      if m.transformation != NONE {
        var i :| 0 <= i < |ts| && ts[i] == m.transformation;
        assert winners[i] in winners;
      }
    }
  }

  lemma MergeIsUnique(m: Decision, n: Decision, ds: seq<Decision>)
    requires IsMerge(m, ds) && IsMerge(n, ds)
    ensures m.verdict == n.verdict && m.transformation == n.transformation && m.reasonCodes == n.reasonCodes
         && m.degraded == n.degraded
  {
    hide Ascending;
    assert m.verdict == n.verdict;
    AscendingIsUnique(m.reasonCodes, n.reasonCodes);
  }

  /** A merge of merges merges the whole. */
  lemma MergeOfMerges(m: Decision, a: Decision, b: Decision, xs: seq<Decision>, ys: seq<Decision>)
    requires IsMerge(a, xs) && IsMerge(b, ys) && IsMerge(m, [a, b])
    ensures IsMerge(m, xs + ys)
  {
    hide Ascending;
    assert a in [a, b] && b in [a, b];
    forall c ensures c in m.reasonCodes <==> CodeIn(xs + ys, m.verdict, c) {
      if CodeIn([a, b], m.verdict, c) {
        var d :| d in [a, b] && d.verdict == m.verdict && c in d.reasonCodes;
        assert d == a ==> CodeIn(xs, m.verdict, c);
        assert d == b ==> CodeIn(ys, m.verdict, c);
      }
      if CodeIn(xs + ys, m.verdict, c) {
        var d :| d in xs + ys && d.verdict == m.verdict && c in d.reasonCodes;
        assert d in xs ==> a.verdict == m.verdict && CodeIn(xs, a.verdict, c);
        assert d in ys ==> b.verdict == m.verdict && CodeIn(ys, b.verdict, c);
      }
    }
  }

  /** The shortcut for a single decision agrees with the general formula. */
  lemma CombinedIsMerged(ds: seq<Decision>)
    requires ds != [] && forall d :: d in ds ==> WellFormed(d)
    ensures Combined(ds) == Merged(ds) && WellFormed(Combined(ds))
  {
    hide BestOf, Winners, AllCodes, Latest, SortedDistinct, Ascending, Into;
    MergedIsMerge(ds);
    if |ds| == 1 {
      var d := ds[0];
      assert ds == [d] && d in ds;
      assert IsMerge(d, ds);
      MergeIsUnique(Merged(ds), d, ds);
      assert ds[..0] == [];
      assert AllHits(ds) == d.hits;
      IntoEmpty(d.hits);
    }
  }

  /** The chunk law: combining a concatenation is combining the two combinations, on every field. */
  lemma ChunkLaw(xs: seq<Decision>, ys: seq<Decision>)
    requires xs != [] && ys != [] && forall d :: d in xs + ys ==> WellFormed(d)
    ensures Combined(xs + ys) == Combined([Combined(xs), Combined(ys)])
  {
    hide Merged, IsMerge, WellFormed;
    var a, b := Combined(xs), Combined(ys);
    CombinedIsMerged(xs);
    CombinedIsMerged(ys);
    CombinedIsMerged(xs + ys);
    CombinedIsMerged([a, b]);
    MergedIsMerge(xs);
    MergedIsMerge(ys);
    MergedIsMerge(xs + ys);
    MergedIsMerge([a, b]);
    MergeOfMerges(Merged([a, b]), a, b, xs, ys);
    MergeIsUnique(Merged([a, b]), Merged(xs + ys), xs + ys);
    ChunkLawForHits(xs, ys, a, b);
  }

  lemma ChunkLawForHits(xs: seq<Decision>, ys: seq<Decision>, a: Decision, b: Decision)
    requires xs != [] && ys != [] && a == Merged(xs) && b == Merged(ys)
    ensures Merged(xs + ys).hits == Merged([a, b]).hits && Merged(xs + ys).version == Merged([a, b]).version
  {
    hide BestOf, Winners, AllCodes, Latest, SortedDistinct, Into;
    var hx, hy := AllHits(xs), AllHits(ys);
    AllHitsConcat(xs, ys);
    assert [a, b][..1] == [a] && [a][..0] == [];
    assert AllHits([a]) == a.hits;
    assert AllHits([a, b]) == a.hits + b.hits;
    IntoKeepsDistinct([], hx);
    IntoKeepsDistinct([], hy);
    IntoConcat([], hx, hy);
    IntoConcat([], a.hits, b.hits);
    IntoEmpty(a.hits);
    IntoDeduplicated(a.hits, hy);
  }
}

/** The policy engine (app/decision.py): conditions, evaluation of one context, combination of several. */
module Decision {
  import opened Common
  import opened Text

  // ----- data -----

  datatype Json =
    | JNull
    | JBool(b: bool)
    | JNum(n: real)
    | JStr(s: string)
    | JArr(items: seq<Json>)
    | JObj(fields: map<string, Json>)

  datatype Plane = INPUT | CONTEXT | RESPONSE | ACTION

  datatype Finding = Finding(category: string, score: real)

  datatype Verdict = ALLOW | NEED_APPROVAL | DENY

  /** In the fixed order of application. */
  datatype Transformation = NONE | TRUNCATE | SANITIZE | REWRITE | REDACT | MASK

  /** One `when` object: a key that the document leaves out is `None`, or empty where the schema
      requires at least one item. */
  datatype Condition = Condition(
    all: seq<Condition>,
    any: seq<Condition>,
    category: Option<string>,
    scoreGte: Option<real>,
    scoreLt: Option<real>,
    bytesGt: Option<int>,
    toolNameIn: seq<string>,
    toolNotIn: seq<string>,
    argumentPath: Option<string>,
    numericGte: Option<real>,
    numericLt: Option<real>,
    sqlVerbIn: seq<string>,
    sqlUnboundedMutation: Option<bool>,
    shellPatternIn: seq<string>)

  datatype Rule = Rule(
    id: string,
    planes: seq<Plane>,
    condition: Option<Condition>,
    rateLimit: bool,
    verdict: Verdict,
    transformation: Transformation,
    reasonCode: string)

  datatype Policy = Policy(rules: seq<Rule>, version: string)

  datatype Facts = Facts(
    findings: map<Plane, seq<Finding>>,
    byteCount: int,
    toolName: Option<string>,
    toolArguments: map<string, Json>)

  datatype PolicyHit = PolicyHit(
    ruleId: string,
    verdict: Verdict,
    transformation: Transformation,
    matchedCategories: seq<string>,
    ruleVersion: string)

  datatype Decision = Decision(
    verdict: Verdict,
    transformation: Transformation,
    reasonCodes: seq<string>,
    hits: seq<PolicyHit>,
    version: string,
    degraded: bool)

  // ----- conditions -----

  function FindingsAt(facts: Facts, plane: Plane): seq<Finding> {
    if plane in facts.findings then facts.findings[plane] else []
  }

  /** The highest score of a category, over the findings that are not timeouts. */
  function Score(findings: seq<Finding>, category: string): Option<real> {
    if findings == [] then None
    else
      var before := Score(findings[..|findings| - 1], category);
      var f := findings[|findings| - 1];
      if f.category != category || f.category == "DETECTOR_TIMEOUT" then before
      else Some(Max(if before.Some? then before.value else 0.0, f.score))
  }

  function Max(a: real, b: real): real {
    if a >= b then a else b
  }

  function Parts(path: string): (r: seq<string>)
    ensures r != []
  {
    if path == [] then [[]]
    else if path[0] == '.' then [[]] + Parts(path[1..])
    else var rest := Parts(path[1..]); [[path[0]] + rest[0]] + rest[1..]
  }

  /** A missing field and a null are the same to the caller. */
  function Walk(node: Json, parts: seq<string>): Json {
    if parts == [] then node
    else if !node.JObj? || parts[0] !in node.fields then JNull
    else Walk(node.fields[parts[0]], parts[1..])
  }

  function Resolve(arguments: map<string, Json>, path: string): Json {
    if StartsWith(path, "$.") then Walk(JObj(arguments), Parts(path[2..])) else JNull
  }

  /** A Python bool is also a number. */
  function AsNumber(value: Json): Option<real> {
    match value
    case JNum(n) => Some(n)
    case JBool(b) => Some(if b then 1.0 else 0.0)
    case _ => None
  }

  /** The word tested against the verbs, after comments are taken out. */
  function SqlVerb(sql: string): string {
    Upper(FirstWord(Strip(StripSqlComments(sql))))
  }

  predicate IsUnboundedMutation(sql: string) {
    var upper := Upper(Strip(StripSqlComments(sql)));
    (StartsWith(upper, "DELETE") || StartsWith(upper, "UPDATE")) && !Contains(upper, "WHERE")
  }

  predicate MatchesShellPattern(command: string, names: seq<string>) {
    NeedleIn(Collapse(Lower(command)), names)
  }

  predicate ArgumentHolds(c: Condition, value: Json) {
    if value.JNull? then false
    else if c.numericGte.Some? then AsNumber(value).Some? && AsNumber(value).value >= c.numericGte.value
    else if c.numericLt.Some? then AsNumber(value).Some? && AsNumber(value).value < c.numericLt.value
    else if c.sqlVerbIn != [] && value.JStr? then exists v :: v in c.sqlVerbIn && SqlVerb(value.s) == Upper(v)
    else if c.sqlUnboundedMutation.Some? && value.JStr? then IsUnboundedMutation(value.s)
    else if c.shellPatternIn != [] && value.JStr? then MatchesShellPattern(value.s, c.shellPatternIn)
    else false
  }

  predicate CategoryHolds(c: Condition, score: Option<real>) {
    && score.Some?
    && (c.scoreGte.Some? ==> score.value >= c.scoreGte.value)
    && (c.scoreLt.Some? ==> score.value < c.scoreLt.value)
  }

  /** The keys are tried in this order; the first one present decides. */
  predicate Holds(c: Condition, findings: seq<Finding>, facts: Facts)
    decreases c
  {
    if c.all != [] then forall x :: x in c.all ==> Holds(x, findings, facts)
    else if c.any != [] then exists x :: x in c.any && Holds(x, findings, facts)
    else if c.category.Some? then CategoryHolds(c, Score(findings, c.category.value))
    else if c.bytesGt.Some? then facts.byteCount > c.bytesGt.value
    else if c.toolNameIn != [] then facts.toolName.Some? && facts.toolName.value in c.toolNameIn
    else if c.toolNotIn != [] then facts.toolName.Some? && facts.toolName.value !in c.toolNotIn
    else if c.argumentPath.Some? then ArgumentHolds(c, Resolve(facts.toolArguments, c.argumentPath.value))
    else false
  }

  predicate Mentions(c: Condition, category: string)
    decreases c
  {
    || c.category == Some(category)
    || (exists x :: x in c.all && Mentions(x, category))
    || (exists x :: x in c.any && Mentions(x, category))
  }

  // ----- evaluation -----

  /** The rule is a condition rule, not a rate limit. */
  predicate Tested(r: Rule) {
    !r.rateLimit && r.condition.Some?
  }

  predicate HoldsAt(r: Rule, facts: Facts, plane: Plane) {
    Tested(r) && Holds(r.condition.value, FindingsAt(facts, plane), facts)
  }

  predicate Fires(r: Rule, facts: Facts) {
    exists plane :: plane in r.planes && HoldsAt(r, facts, plane)
  }

  function MentionedIn(c: Condition, findings: seq<Finding>): seq<string> {
    if findings == [] then []
    else (if Mentions(c, findings[0].category) then [findings[0].category] else []) + MentionedIn(c, findings[1..])
  }

  /** The mentioned categories found on the planes where the rule holds. */
  function Matched(r: Rule, facts: Facts, planes: seq<Plane>): seq<string> {
    if planes == [] then []
    else
      Matched(r, facts, planes[..|planes| - 1])
      + if HoldsAt(r, facts, planes[|planes| - 1])
        then MentionedIn(r.condition.value, FindingsAt(facts, planes[|planes| - 1])) else []
  }

  function HitOf(r: Rule, facts: Facts, version: string): PolicyHit {
    PolicyHit(r.id, r.verdict, r.transformation, SortedDistinct(Matched(r, facts, r.planes)), version)
  }

  /** One hit for every rule that fires, in rule order. */
  function Hits(rules: seq<Rule>, facts: Facts, version: string): seq<PolicyHit> {
    if rules == [] then []
    else
      var r := rules[|rules| - 1];
      Hits(rules[..|rules| - 1], facts, version) + if Fires(r, facts) then [HitOf(r, facts, version)] else []
  }

  function Rank(v: Verdict): nat {
    match v case ALLOW => 0 case NEED_APPROVAL => 1 case DENY => 2
  }

  function Order(t: Transformation): nat {
    match t case NONE => 0 case TRUNCATE => 1 case SANITIZE => 2 case REWRITE => 3 case REDACT => 4 case MASK => 5
  }

  function Best(hits: seq<PolicyHit>): Verdict {
    if hits == [] then ALLOW
    else
      var before, v := Best(hits[..|hits| - 1]), hits[|hits| - 1].verdict;
      if Rank(v) > Rank(before) then v else before
  }

  function Winning(hits: seq<PolicyHit>, v: Verdict): seq<PolicyHit> {
    if hits == [] then []
    else Winning(hits[..|hits| - 1], v) + if hits[|hits| - 1].verdict == v then [hits[|hits| - 1]] else []
  }

  /** The code of the first rule with this id. */
  function ReasonCode(rules: seq<Rule>, id: string): string {
    if rules == [] then "SCHEMA_VIOLATION"
    else if rules[0].id == id then rules[0].reasonCode
    else ReasonCode(rules[1..], id)
  }

  function Codes(rules: seq<Rule>, hits: seq<PolicyHit>): seq<string> {
    if hits == [] then [] else Codes(rules, hits[..|hits| - 1]) + [ReasonCode(rules, hits[|hits| - 1].ruleId)]
  }

  /** The latest transformation in the fixed order. */
  function Latest(ts: seq<Transformation>): (r: Transformation)
    ensures r == NONE || r in ts
    ensures forall t :: t in ts ==> Order(t) <= Order(r)
  {
    if ts == [] then NONE
    else
      var before, t := Latest(ts[..|ts| - 1]), ts[|ts| - 1];
      if Order(t) > Order(before) then t else before
  }

  function HitTransformations(hits: seq<PolicyHit>): (r: seq<Transformation>)
    ensures |r| == |hits| && forall i :: 0 <= i < |r| ==> r[i] == hits[i].transformation
  {
    seq(|hits|, i requires 0 <= i < |hits| => hits[i].transformation)
  }

  function Evaluate(policy: Policy, facts: Facts, degraded: bool): Decision {
    var hits := Hits(policy.rules, facts, policy.version);
    var verdict := Best(hits);
    var winning := Winning(hits, verdict);
    Decision(verdict,
             if verdict == DENY then NONE else Latest(HitTransformations(winning)),
             SortedDistinct(Codes(policy.rules, winning)),
             hits, policy.version, degraded)
  }

  // ----- combination -----

  function BestOf(ds: seq<Decision>): Verdict {
    if ds == [] then ALLOW
    else
      var before, v := BestOf(ds[..|ds| - 1]), ds[|ds| - 1].verdict;
      if Rank(v) > Rank(before) then v else before
  }

  function Winners(ds: seq<Decision>, v: Verdict): seq<Decision> {
    if ds == [] then []
    else Winners(ds[..|ds| - 1], v) + if ds[|ds| - 1].verdict == v then [ds[|ds| - 1]] else []
  }

  function AllCodes(ds: seq<Decision>): seq<string> {
    if ds == [] then [] else AllCodes(ds[..|ds| - 1]) + ds[|ds| - 1].reasonCodes
  }

  function AllHits(ds: seq<Decision>): seq<PolicyHit> {
    if ds == [] then [] else AllHits(ds[..|ds| - 1]) + ds[|ds| - 1].hits
  }

  function DecisionTransformations(ds: seq<Decision>): (r: seq<Transformation>)
    ensures |r| == |ds| && forall i :: 0 <= i < |r| ==> r[i] == ds[i].transformation
  {
    seq(|ds|, i requires 0 <= i < |ds| => ds[i].transformation)
  }

  /** Assigning to a dictionary: a known id keeps its position and takes the new hit. */
  function Upsert(hits: seq<PolicyHit>, h: PolicyHit): seq<PolicyHit> {
    if hits == [] then [h]
    else if hits[0].ruleId == h.ruleId then [h] + hits[1..]
    else [hits[0]] + Upsert(hits[1..], h)
  }

  /** The dictionary `start`, after assigning every hit in turn. */
  function Into(start: seq<PolicyHit>, hits: seq<PolicyHit>): seq<PolicyHit> {
    if hits == [] then start else Upsert(Into(start, hits[..|hits| - 1]), hits[|hits| - 1])
  }

  /** The general formula, also for a single decision. */
  function Merged(ds: seq<Decision>): Decision
    requires ds != []
  {
    var verdict := BestOf(ds);
    var winners := Winners(ds, verdict);
    Decision(verdict,
             if verdict == DENY then NONE else Latest(DecisionTransformations(winners)),
             SortedDistinct(AllCodes(winners)),
             Into([], AllHits(ds)),
             ds[0].version,
             exists d :: d in ds && d.degraded)
  }

  /** A single decision is handed back untouched. */
  function Combined(ds: seq<Decision>): Decision
    requires ds != []
  {
    if |ds| == 1 then ds[0] else Merged(ds)
  }

  // ----- the code, step by step -----

  method CategoryScores(findings: seq<Finding>) returns (scores: map<string, real>)
    ensures forall c :: c in scores <==> Score(findings, c).Some?
    ensures forall c :: c in scores ==> scores[c] == Score(findings, c).value
  {
    scores := map[];
    for i := 0 to |findings|
      invariant forall c :: c in scores <==> Score(findings[..i], c).Some?
      invariant forall c :: c in scores ==> scores[c] == Score(findings[..i], c).value
    {
      assert findings[..i + 1][..i] == findings[..i];
      var f := findings[i];
      if f.category != "DETECTOR_TIMEOUT" {
        scores := scores[f.category := Max(if f.category in scores then scores[f.category] else 0.0, f.score)];
      }
    }
    assert findings[..|findings|] == findings;
  }

  const TRANSFORMATION_ORDER: seq<Transformation> := [TRUNCATE, SANITIZE, REWRITE, REDACT, MASK]

  /** The loop that ends on the last applicable transformation of the fixed order. */
  method PickTransformation(applicable: seq<Transformation>) returns (t: Transformation)
    ensures t == Latest(applicable)
  {
    t := NONE;
    for i := 0 to 5
      invariant t == NONE || t in applicable
      invariant Order(t) <= i
      invariant forall u :: u in applicable && Order(u) <= i ==> Order(u) <= Order(t)
    {
      if TRANSFORMATION_ORDER[i] in applicable {
        t := TRANSFORMATION_ORDER[i];
      }
    }
  }

  lemma SkippedRule(r: Rule, facts: Facts)
    requires !Tested(r)
    ensures !Fires(r, facts)
  {
  }

  /** The inner loop over the rule's planes. */
  method MatchPlanes(r: Rule, facts: Facts) returns (matched: bool, categories: seq<string>)
    requires Tested(r)
    ensures matched <==> Fires(r, facts)
    ensures categories == Matched(r, facts, r.planes)
  {
    hide Holds, MentionedIn, FindingsAt, SortedDistinct;
    matched, categories := false, [];
    for k := 0 to |r.planes|
      invariant matched <==> exists plane :: plane in r.planes[..k] && HoldsAt(r, facts, plane)
      invariant categories == Matched(r, facts, r.planes[..k])
    {
      assert r.planes[..k + 1][..k] == r.planes[..k];
      assert forall p :: p in r.planes[..k + 1] <==> p in r.planes[..k] || p == r.planes[k] by {
        assert r.planes[..k + 1] == r.planes[..k] + [r.planes[k]];
      }
      assert HoldsAt(r, facts, r.planes[k]) <==> Holds(r.condition.value, FindingsAt(facts, r.planes[k]), facts);
      if Holds(r.condition.value, FindingsAt(facts, r.planes[k]), facts) {
        matched := true;
        categories := categories + MentionedIn(r.condition.value, FindingsAt(facts, r.planes[k]));
      }
    }
    assert r.planes[..|r.planes|] == r.planes;
  }

  method EvaluatePolicy(policy: Policy, facts: Facts, degraded: bool) returns (d: Decision)
    ensures d == Evaluate(policy, facts, degraded)
  {
    hide Fires, Matched, SortedDistinct;
    var rules := policy.rules;
    var hits := [];
    for i := 0 to |rules|
      invariant hits == Hits(rules[..i], facts, policy.version)
    {
      assert rules[..i + 1][..i] == rules[..i];
      var r := rules[i];
      if r.rateLimit || r.condition.None? {
        SkippedRule(r, facts);
        continue;
      }
      var matched, categories := MatchPlanes(r, facts);
      if matched {
        hits := hits + [PolicyHit(r.id, r.verdict, r.transformation, SortedDistinct(categories), policy.version)];
      }
    }
    assert rules[..|rules|] == rules;
    var verdict := ALLOW;
    for i := 0 to |hits|
      invariant verdict == Best(hits[..i])
    {
      assert hits[..i + 1][..i] == hits[..i];
      if Rank(hits[i].verdict) > Rank(verdict) {
        verdict := hits[i].verdict;
      }
    }
    assert hits[..|hits|] == hits;
    var winning := Winning(hits, verdict);
    var transformation := NONE;
    if verdict != DENY {
      transformation := PickTransformation(HitTransformations(winning));
    }
    d := Decision(verdict, transformation, SortedDistinct(Codes(rules, winning)), hits, policy.version, degraded);
  }

  lemma HitsOfPrefix(ds: seq<Decision>, i: nat)
    requires i < |ds|
    ensures AllHits(ds[..i + 1]) == AllHits(ds[..i]) + ds[i].hits
  {
    assert ds[..i + 1][..i] == ds[..i];
  }

  lemma IntoOneMore(start: seq<PolicyHit>, hits: seq<PolicyHit>, k: nat)
    requires k < |hits|
    ensures Into([], start + hits[..k + 1]) == Upsert(Into([], start + hits[..k]), hits[k])
  {
    hide Upsert;
    var all := start + hits[..k + 1];
    assert all[..|all| - 1] == start + hits[..k];
  }

  /** The dictionary of hits, filled decision by decision. */
  method MergeHits(ds: seq<Decision>) returns (seen: seq<PolicyHit>)
    ensures seen == Into([], AllHits(ds))
  {
    hide Into, AllHits, Upsert;
    seen := [];
    NoHits();
    for i := 0 to |ds|
      invariant seen == Into([], AllHits(ds[..i]))
    {
      ghost var start := AllHits(ds[..i]);
      assert start + ds[i].hits[..0] == start;
      for k := 0 to |ds[i].hits|
        invariant seen == Into([], start + ds[i].hits[..k])
      {
        IntoOneMore(start, ds[i].hits, k);
        seen := Upsert(seen, ds[i].hits[k]);
      }
      assert ds[i].hits[..|ds[i].hits|] == ds[i].hits;
      HitsOfPrefix(ds, i);
    }
    assert ds[..|ds|] == ds;
  }

  lemma NoHits()
    ensures Into([], AllHits([])) == []
  {
  }

  /** `None` is the ValueError raised for no decisions. */
  method CombineDecisions(ds: seq<Decision>) returns (r: Option<Decision>)
    ensures r == if ds == [] then None else Some(Combined(ds))
  {
    hide BestOf, Winners, AllCodes, AllHits, Into, Latest, SortedDistinct;
    if ds == [] {
      return None;
    }
    if |ds| == 1 {
      return Some(ds[0]);
    }
    var verdict := BestOf(ds);
    var winners := Winners(ds, verdict);
    var seen := MergeHits(ds);
    var transformation := NONE;
    if verdict != DENY {
      transformation := PickTransformation(DecisionTransformations(winners));
    }
    r := Some(Decision(verdict, transformation, SortedDistinct(AllCodes(winners)), seen, ds[0].version,
                       exists d :: d in ds && d.degraded));
  }
}

/** The tool-call detector (app/detectors/tool_calls.py) and its relation to the rules the policy engine enforces. */
module ToolRules {
  import opened Common
  import opened Text
  import opened Decision

  // ----- what the detector reads out of the policy -----

  /** The first rule with this id. */
  function RuleById(rules: seq<Rule>, id: string): (r: Option<Rule>)
    ensures r.Some? ==> r.value in rules && r.value.id == id
  {
    if rules == [] then None else if rules[0].id == id then Some(rules[0]) else RuleById(rules[1..], id)
  }

  /** A condition with all its parts, in document order. */
  function Flatten(c: Condition): seq<Condition>
    decreases c
  {
    [c] + FlattenAll(c.all) + FlattenAll(c.any)
  }

  function FlattenAll(cs: seq<Condition>): seq<Condition>
    decreases cs
  {
    if cs == [] then [] else Flatten(cs[0]) + FlattenAll(cs[1..])
  }

  function PartsOf(rules: seq<Rule>, id: string): seq<Condition> {
    var r := RuleById(rules, id);
    if r.Some? && r.value.condition.Some? then Flatten(r.value.condition.value) else []
  }

  function FirstAllowlist(cs: seq<Condition>): Option<set<string>> {
    if cs == [] then None
    else if cs[0].toolNotIn != [] then Some(set t | t in cs[0].toolNotIn)
    else FirstAllowlist(cs[1..])
  }

  function LastTools(cs: seq<Condition>): set<string> {
    if cs == [] then {}
    else
      var c := cs[|cs| - 1];
      if c.toolNameIn != [] then (set t | t in c.toolNameIn) else LastTools(cs[..|cs| - 1])
  }

  function LastThreshold(cs: seq<Condition>): Option<real> {
    if cs == [] then None
    else if cs[|cs| - 1].numericGte.Some? then cs[|cs| - 1].numericGte
    else LastThreshold(cs[..|cs| - 1])
  }

  function VerbsOf(c: Condition): (verbs: set<string>)
    ensures forall w :: w in verbs <==> exists v :: v in c.sqlVerbIn && w == Upper(v)
  {
    set v | v in c.sqlVerbIn :: Upper(v)
  }

  function NamesOf(c: Condition): set<string> {
    set n | n in c.shellPatternIn
  }

  function Verbs(cs: seq<Condition>): (verbs: set<string>)
    ensures forall w :: w in verbs <==> exists c :: c in cs && w in VerbsOf(c)
  {
    if cs == [] then {} else Verbs(cs[..|cs| - 1]) + VerbsOf(cs[|cs| - 1])
  }

  function Names(cs: seq<Condition>): (names: set<string>)
    ensures forall n :: n in names <==> exists c :: c in cs && n in NamesOf(c)
  {
    if cs == [] then {} else Names(cs[..|cs| - 1]) + NamesOf(cs[|cs| - 1])
  }

  datatype Knowledge = Knowledge(
    allowlist: Option<set<string>>,
    highValueTools: set<string>,
    highValueThreshold: Option<real>,
    sqlVerbs: set<string>,
    shellPatterns: set<string>)

  function KnowledgeOf(rules: seq<Rule>): Knowledge {
    var high := PartsOf(rules, "high_value_transfer");
    Knowledge(FirstAllowlist(PartsOf(rules, "agent_tool_allowlist")),
              LastTools(high), LastThreshold(high),
              Verbs(PartsOf(rules, "deny_destructive_sql")),
              Names(PartsOf(rules, "deny_shell_deletion")))
  }

  // ----- what the detector reports -----

  /** The arguments of a call: already structured, or an unparsed text with the value it parses to, if any. */
  datatype Arguments = Structured(fields: map<string, Json>) | Raw(parsed: Option<Json>)

  predicate Unparseable(a: Arguments) {
    a.Raw? && a.parsed.None?
  }

  function FieldsOf(a: Arguments): map<string, Json> {
    match a
    case Structured(fields) => fields
    case Raw(Some(JObj(fields))) => fields
    case _ => map[]
  }

  function Field(fields: map<string, Json>, key: string): Json {
    if key in fields then fields[key] else JNull
  }

  predicate NotAllowed(k: Knowledge, tool: string) {
    k.allowlist.Some? && tool !in k.allowlist.value
  }

  predicate HighValue(k: Knowledge, tool: string, amount: Json) {
    k.highValueThreshold.Some? && tool in k.highValueTools && amount.JNum? && amount.n >= k.highValueThreshold.value
  }

  predicate DetectsUnbounded(query: string) {
    var upper := Upper(query);
    (StartsWith(Strip(upper), "DELETE") || StartsWith(Strip(upper), "UPDATE")) && !Contains(upper, "WHERE")
  }

  predicate DestructiveQuery(k: Knowledge, query: Json) {
    query.JStr? && Strip(query.s) != "" && (Upper(FirstWord(query.s)) in k.sqlVerbs || DetectsUnbounded(query.s))
  }

  predicate DetectsShell(command: string, names: set<string>) {
    exists name, needle :: name in names && needle in Needles(name) && Contains(Lower(command), Lower(needle))
  }

  predicate DestructiveCommand(k: Knowledge, command: Json) {
    command.JStr? && DetectsShell(command.s, k.shellPatterns)
  }

  function When(b: bool, f: Finding): seq<Finding> {
    if b then [f] else []
  }

  function Scanned(k: Knowledge, tool: string, a: Arguments): seq<Finding> {
    if Unparseable(a) then [Finding("SCHEMA_VIOLATION", 0.6)]
    else
      var fields := FieldsOf(a);
      When(NotAllowed(k, tool), Finding("TOOL_NOT_ALLOWLISTED", 0.9))
      + When(HighValue(k, tool, Field(fields, "amount")), Finding("SENSITIVE_ACTION", 0.85))
      + When(DestructiveQuery(k, Field(fields, "query")), Finding("DESTRUCTIVE_ACTION", 0.95))
      + When(DestructiveCommand(k, Field(fields, "command")), Finding("DESTRUCTIVE_ACTION", 0.95))
  }

  /** What a call is reported for, with which score, and that it is reported for nothing else. */
  lemma ReportedFor(k: Knowledge, tool: string, a: Arguments)
    ensures a == Raw(None) ==> Scanned(k, tool, a) == [Finding("SCHEMA_VIOLATION", 0.6)]
    ensures a != Raw(None) ==> forall f :: f in Scanned(k, tool, a) <==>
        || (f == Finding("TOOL_NOT_ALLOWLISTED", 0.9) && NotAllowed(k, tool))
        || (f == Finding("SENSITIVE_ACTION", 0.85) && HighValue(k, tool, Field(FieldsOf(a), "amount")))
        || (f == Finding("DESTRUCTIVE_ACTION", 0.95) &&
            (DestructiveQuery(k, Field(FieldsOf(a), "query")) || DestructiveCommand(k, Field(FieldsOf(a), "command"))))
  {
    hide NotAllowed, HighValue, DestructiveQuery, DestructiveCommand, FieldsOf, Field;
  }

  // ----- the detector -----

  class ToolCallsDetector {
    const known: Knowledge

    constructor (policy: Policy)
      ensures known == KnowledgeOf(policy.rules)
    {
      var allowlist := ExtractAllowlist(policy.rules);
      var tools, threshold := ExtractHighValue(policy.rules);
      var verbs := ExtractSqlVerbs(policy.rules);
      var names := ExtractShellPatterns(policy.rules);
      known := Knowledge(allowlist, tools, threshold, verbs, names);
    }

    method ScanToolCall(tool: string, a: Arguments) returns (findings: seq<Finding>)
      ensures findings == Scanned(known, tool, a)
    {
      hide NotAllowed, HighValue, DestructiveQuery, DestructiveCommand, FieldsOf, Field, DetectsShell, When;
      findings := [];
      if Unparseable(a) {
        findings := findings + [Finding("SCHEMA_VIOLATION", 0.6)];
        return;
      }
      var fields := FieldsOf(a);
      ghost var none: seq<Finding> := [];
      AppendWhen(none, NotAllowed(known, tool), Finding("TOOL_NOT_ALLOWLISTED", 0.9));
      if NotAllowed(known, tool) {
        findings := findings + [Finding("TOOL_NOT_ALLOWLISTED", 0.9)];
      }
      AppendWhen(findings, HighValue(known, tool, Field(fields, "amount")), Finding("SENSITIVE_ACTION", 0.85));
      if HighValue(known, tool, Field(fields, "amount")) {
        findings := findings + [Finding("SENSITIVE_ACTION", 0.85)];
      }
      AppendWhen(findings, DestructiveQuery(known, Field(fields, "query")), Finding("DESTRUCTIVE_ACTION", 0.95));
      if DestructiveQuery(known, Field(fields, "query")) {
        findings := findings + [Finding("DESTRUCTIVE_ACTION", 0.95)];
      }
      var hit := false;
      var command := Field(fields, "command");
      if command.JStr? {
        hit := MatchesPattern(command.s, known.shellPatterns);
      }
      CommandHit(known, command, hit);
      AppendWhen(findings, hit, Finding("DESTRUCTIVE_ACTION", 0.95));
      if hit {
        findings := findings + [Finding("DESTRUCTIVE_ACTION", 0.95)];
      }
    }
  }

  lemma AppendWhen(findings: seq<Finding>, b: bool, f: Finding)
    ensures findings + When(b, f) == if b then findings + [f] else findings
    ensures [] + When(b, f) == When(b, f)
  {
  }

  lemma CommandHit(k: Knowledge, command: Json, hit: bool)
    requires hit == (command.JStr? && DetectsShell(command.s, k.shellPatterns))
    ensures hit == DestructiveCommand(k, command)
  {
    hide DetectsShell;
  }

  method MatchesPattern(command: string, names: set<string>) returns (hit: bool)
    ensures hit == DetectsShell(command, names)
  {
    hide Contains, Lower, Needles;
    var lowered := Lower(command);
    var left := names;
    while left != {}
      invariant left <= names
      invariant forall name, n :: name in names - left && n in Needles(name) ==> !Contains(lowered, Lower(n))
    {
      var name :| name in left;
      var needles := Needles(name);
      for i := 0 to |needles|
        invariant forall n :: n in needles[..i] ==> !Contains(lowered, Lower(n))
      {
        if Contains(lowered, Lower(needles[i])) {
          assert needles[i] in Needles(name);
          return true;
        }
      }
      assert needles[..|needles|] == needles;
      left := left - {name};
    }
    hit := false;
  }

  method ExtractAllowlist(rules: seq<Rule>) returns (allowlist: Option<set<string>>)
    ensures allowlist == FirstAllowlist(PartsOf(rules, "agent_tool_allowlist"))
  {
    hide PartsOf;
    var parts := PartsOf(rules, "agent_tool_allowlist");
    for i := 0 to |parts|
      invariant FirstAllowlist(parts) == FirstAllowlist(parts[i..])
    {
      if parts[i].toolNotIn != [] {
        return Some(set t | t in parts[i].toolNotIn);
      }
      assert parts[i..][1..] == parts[i + 1..];
    }
    allowlist := None;
  }

  method ExtractHighValue(rules: seq<Rule>) returns (tools: set<string>, threshold: Option<real>)
    ensures tools == LastTools(PartsOf(rules, "high_value_transfer"))
    ensures threshold == LastThreshold(PartsOf(rules, "high_value_transfer"))
  {
    hide PartsOf;
    var parts := PartsOf(rules, "high_value_transfer");
    tools, threshold := {}, None;
    for i := 0 to |parts|
      invariant tools == LastTools(parts[..i]) && threshold == LastThreshold(parts[..i])
    {
      assert parts[..i + 1][..i] == parts[..i];
      if parts[i].toolNameIn != [] {
        tools := set t | t in parts[i].toolNameIn;
      }
      if parts[i].numericGte.Some? {
        threshold := parts[i].numericGte;
      }
    }
    assert parts[..|parts|] == parts;
  }

  method ExtractSqlVerbs(rules: seq<Rule>) returns (verbs: set<string>)
    ensures verbs == Verbs(PartsOf(rules, "deny_destructive_sql"))
  {
    hide PartsOf, VerbsOf;
    var parts := PartsOf(rules, "deny_destructive_sql");
    verbs := {};
    for i := 0 to |parts|
      invariant verbs == Verbs(parts[..i])
    {
      assert parts[..i + 1][..i] == parts[..i];
      verbs := verbs + VerbsOf(parts[i]);
    }
    assert parts[..|parts|] == parts;
  }

  method ExtractShellPatterns(rules: seq<Rule>) returns (names: set<string>)
    ensures names == Names(PartsOf(rules, "deny_shell_deletion"))
  {
    hide PartsOf, NamesOf;
    var parts := PartsOf(rules, "deny_shell_deletion");
    names := {};
    for i := 0 to |parts|
      invariant names == Names(parts[..i])
    {
      assert parts[..i + 1][..i] == parts[..i];
      names := names + NamesOf(parts[i]);
    }
    assert parts[..|parts|] == parts;
  }

  // ----- what the extraction takes -----

  /** The allowlist is that of the first part that has one. */
  lemma {:induction false} AllowlistIsFirst(cs: seq<Condition>, i: nat)
    requires i < |cs| && cs[i].toolNotIn != [] && forall k :: 0 <= k < i ==> cs[k].toolNotIn == []
    ensures FirstAllowlist(cs).Some? && forall t :: t in FirstAllowlist(cs).value <==> t in cs[i].toolNotIn
  {
    if i > 0 {
      AllowlistIsFirst(cs[1..], i - 1);
    }
  }

  lemma {:induction false} NoAllowlist(cs: seq<Condition>)
    requires forall k :: 0 <= k < |cs| ==> cs[k].toolNotIn == []
    ensures FirstAllowlist(cs) == None
  {
    if cs != [] {
      NoAllowlist(cs[1..]);
    }
  }

  /** The tools and the threshold are those of the last part that has some. */
  lemma {:induction false} ToolsAreLast(cs: seq<Condition>, i: nat)
    requires i < |cs| && cs[i].toolNameIn != [] && forall k :: i < k < |cs| ==> cs[k].toolNameIn == []
    ensures forall t :: t in LastTools(cs) <==> t in cs[i].toolNameIn
  {
    if i < |cs| - 1 {
      ToolsAreLast(cs[..|cs| - 1], i);
    }
  }

  lemma {:induction false} ThresholdIsLast(cs: seq<Condition>, i: nat)
    requires i < |cs| && cs[i].numericGte.Some? && forall k :: i < k < |cs| ==> cs[k].numericGte.None?
    ensures LastThreshold(cs) == cs[i].numericGte
  {
    if i < |cs| - 1 {
      ThresholdIsLast(cs[..|cs| - 1], i);
    }
  }

  /** Arguments given as text are the fields of the object it parses to, and none for any other value. */
  lemma ParsedFields(value: Json)
    ensures FieldsOf(Raw(Some(value))) == if value.JObj? then value.fields else map[]
    ensures forall k, tool :: Scanned(k, tool, Raw(None)) == [Finding("SCHEMA_VIOLATION", 0.6)]
  {
  }
}

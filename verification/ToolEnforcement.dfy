/** The detector and the policy engine test the same rules with different text cleaning: every finding of the
    detector is enforced by the engine, the engine is the detector on cleaned text, and the converse fails. */
module ToolEnforcement {
  import opened Common
  import opened Text
  import opened CleaningLaws
  import opened Decision
  import opened ToolRules
  import Algebra = DecisionAlgebra
  import Pipeline

  // ----- SQL verbs -----

  lemma MarkFree(a: string, b: string)
    requires Upper(a) == Upper(b)
    ensures HasMark(a) <==> HasMark(b)
  {
    hide Contains, Upper;
    UpperContainsMark(a, "--");
    UpperContainsMark(b, "--");
    UpperContainsMark(a, "/*");
    UpperContainsMark(b, "/*");
  }

  lemma VerbSurvives(v: string, query: string)
    requires !HasMark(v) && Upper(FirstWord(query)) == Upper(v)
    ensures SqlVerb(query) == Upper(v)
  {
    hide HasMark, FirstWord, Strip, StripSqlComments, Upper;
    MarkFree(FirstWord(query), v);
    CommentsKeepWord(query);
  }

  /** The query on which the engine no longer sees a verb that contains a comment mark. */
  function Hiding(v: string): string {
    if Contains(v, "--") then v else v + " */"
  }

  lemma FirstWordIsShort(s: string)
    ensures |FirstWord(s)| <= |s|
  {
    hide IsSpace;
  }

  lemma HidingStartsWithVerb(v: string)
    requires NoSpace(v) && v != []
    ensures FirstWord(Hiding(v)) == v
  {
    hide IsSpace, FirstWord, Contains;
    var rest := if Contains(v, "--") then "" else " */";
    assert Hiding(v) == [] + v + rest;
    BlankIsSpace();
    SplitFirst(Hiding(v), [], v, rest);
  }

  lemma HidingLosesVerb(v: string)
    requires NoSpace(v) && HasMark(v)
    ensures |SqlVerb(Hiding(v))| < |v|
  {
    hide IsSpace, FirstWord, Contains, StripLineComments, StripBlockComments, Strip;
    var q := Hiding(v);
    var line := StripLineComments(q);
    StripKeepsWord(StripSqlComments(q));
    if Contains(v, "--") {
      LineShrinks(v);
      BlockShrinks(line);
      FirstWordIsShort(StripBlockComments(line));
    } else {
      LineKeeps(v, " */");
      LineCopies(" */", "");
      EmptyStays();
      assert " */" + "" == " */";
      assert line == q;
      BlockCutsFirstWord(v);
    }
  }

  /** A verb that the detector reports is seen by the engine, on every query, exactly when the verb contains
      no comment mark. */
  lemma VerbIsAlwaysSeen(v: string)
    requires NoSpace(v) && v != []
    ensures (forall query :: Upper(FirstWord(query)) == Upper(v) ==> SqlVerb(query) == Upper(v)) <==> !HasMark(v)
  {
    hide HasMark, FirstWord, SqlVerb, Hiding;
    if HasMark(v) {
      var q := Hiding(v);
      HidingStartsWithVerb(v);
      HidingLosesVerb(v);
      assert Upper(FirstWord(q)) == Upper(v);
    } else {
      forall query | Upper(FirstWord(query)) == Upper(v) ensures SqlVerb(query) == Upper(v) {
        VerbSurvives(v, query);
      }
    }
  }

  // ----- unbounded mutations -----

  lemma Keywords()
    ensures IsLetters("DELETE") && IsLetters("UPDATE") && NoSpace("WHERE")
  {
  }

  /** Taking comments out neither moves the keyword nor puts a WHERE together. */
  lemma UnboundedSurvives(query: string)
    requires DetectsUnbounded(query)
    ensures IsUnboundedMutation(query)
  {
    hide Contains, Strip, StripSqlComments, Upper, IsLetters, NoSpace;
    var u := Upper(query);
    UpperCommutes(query);
    UpperCommutes(StripSqlComments(query));
    Keywords();
    if StartsWith(Strip(u), "DELETE") {
      CleaningKeepsKeyword(u, "DELETE");
    } else {
      CleaningKeepsKeyword(u, "UPDATE");
    }
    if Contains(Strip(StripSqlComments(u)), "WHERE") {
      CleaningAddsNoWord(u, "WHERE");
    }
  }

  /** The engine's test is the detector's test on the text without comments. */
  lemma UnboundedOnCleanedText(query: string)
    ensures IsUnboundedMutation(query) <==> DetectsUnbounded(StripSqlComments(query))
  {
    hide Contains, Strip, StripSqlComments, Upper, IsLetters, NoSpace;
    var t := StripSqlComments(query);
    UpperCommutes(t);
    Keywords();
    if Contains(Strip(Upper(t)), "WHERE") {
      StripIsInside(Upper(t), "WHERE");
    }
    if Contains(Upper(t), "WHERE") {
      StripKeepsOccurrence(Upper(t), "WHERE");
    }
  }

  lemma VerbOnCleanedText(query: string)
    ensures SqlVerb(query) == Upper(FirstWord(StripSqlComments(query)))
  {
    hide FirstWord, Strip, StripSqlComments, Upper;
    StripKeepsWord(StripSqlComments(query));
  }

  // ----- shell patterns -----

  lemma ShellSurvives(command: string, names: seq<string>, seen: set<string>)
    requires DetectsShell(command, seen) && forall n :: n in seen ==> n in names
    ensures MatchesShellPattern(command, names)
  {
    hide Contains, Needles, Lower, Collapse, SingleSpaced;
    var name, needle :| name in seen && needle in Needles(name) && Contains(Lower(command), Lower(needle));
    NeedlesAreSingleSpaced(name);
    LowerKeepsSpacing(needle);
    LowerNotEmpty(needle);
    CollapseKeepsPattern(Lower(command), Lower(needle));
  }

  lemma LowerNotEmpty(s: string)
    ensures Lower(s) == [] <==> s == []
  {
  }

  /** The engine's test is the detector's test on the text with single spaces. */
  lemma ShellOnCleanedText(command: string, names: seq<string>)
    ensures MatchesShellPattern(command, names) <==> DetectsShell(Collapse(command), set n | n in names)
  {
    hide Contains, Needles, Lower, Collapse;
    LowerCollapse(command);
    assert Collapse(Lower(command)) == Lower(Collapse(command));
  }

  // ----- the converse fails -----

  lemma {:induction false} StripIgnoresLeading(a: string, t: string)
    requires forall i :: 0 <= i < |a| ==> IsSpace(a[i])
    ensures DropSpaces(a + t) == DropSpaces(t)
  {
    hide IsSpace;
    if a == [] {
      assert a + t == t;
    } else {
      assert (a + t)[1..] == a[1..] + t;
      StripIgnoresLeading(a[1..], t);
    }
  }

  /** A query behind a comment line. */
  function Behind(comment: string, query: string): string {
    "--" + (comment + "\n" + query)
  }

  lemma CommentIsCut(comment: string, query: string)
    requires forall i :: 0 <= i < |comment| ==> comment[i] != '\n'
    ensures StripSqlComments(Behind(comment, query)) == " \n" + StripSqlComments(query)
  {
    hide DropLine, StripBlockComments;
    var tail := comment + "\n" + query;
    var s := Behind(comment, query);
    assert s[2..] == tail && StartsWith(s, "--");
    assert tail == comment + ("\n" + query);
    DropLineStops(comment, "\n" + query);
    LineCopies("\n", query);
    assert StripLineComments(s) == [' '] + ("\n" + StripLineComments(query));
    assert " \n" == [' '] + "\n";
    assert [' '] + ("\n" + StripLineComments(query)) == " \n" + StripLineComments(query);
    BlockCopies(" \n", StripLineComments(query));
  }

  /** The engine sees through a leading comment line and the detector does not: behind one, the detector reports
      no query at all, for verbs without comment marks. */
  lemma CommentLineHidesFromDetectorOnly(k: Knowledge, comment: string, query: string)
    requires forall i :: 0 <= i < |comment| ==> comment[i] != '\n'
    requires forall v :: v in k.sqlVerbs ==> !HasMark(v)
    ensures SqlVerb(Behind(comment, query)) == SqlVerb(query)
    ensures IsUnboundedMutation(Behind(comment, query)) <==> IsUnboundedMutation(query)
    ensures !DestructiveQuery(k, JStr(Behind(comment, query)))
  {
    CommentIsCut(comment, query);
    SameBehind(comment, query);
    BehindIsNotReported(k, comment, query);
  }

  lemma SameBehind(comment: string, query: string)
    requires StripSqlComments(Behind(comment, query)) == " \n" + StripSqlComments(query)
    ensures SqlVerb(Behind(comment, query)) == SqlVerb(query)
    ensures IsUnboundedMutation(Behind(comment, query)) <==> IsUnboundedMutation(query)
  {
    hide StripSqlComments, Behind, Upper, FirstWord, TrimRight, Contains, DropSpaces;
    StripIgnoresLeading(" \n", StripSqlComments(query));
    assert Strip(StripSqlComments(Behind(comment, query))) == Strip(StripSqlComments(query));
  }

  lemma BehindIsNotReported(k: Knowledge, comment: string, query: string)
    requires forall v :: v in k.sqlVerbs ==> !HasMark(v)
    ensures !DestructiveQuery(k, JStr(Behind(comment, query)))
  {
    hide FirstWord, Strip, HasMark, Contains, Upper;
    var s := Behind(comment, query);
    assert s[0] == '-' && s[1] == '-';
    DashedWord(s);
    DashedStart(s);
  }

  lemma DashedWord(s: string)
    requires |s| >= 2 && s[0] == '-' && s[1] == '-'
    ensures HasMark(Upper(FirstWord(s)))
  {
    hide IsSpace, DropSpaces, HasMark, UpperChar;
    DashIsNotSpace();
    DropFirst(s);
    var w := FirstWord(s);
    assert s[1..][0] == '-';
    assert |w| >= 2 && w[0] == '-' && w[1] == '-';
    DashedHasMark(Upper(w));
  }

  lemma DashedStart(s: string)
    requires s != [] && s[0] == '-'
    ensures !DetectsUnbounded(s)
  {
    hide IsSpace, TrimRight, DropSpaces, Contains, UpperChar;
    var u := Upper(s);
    DashIsNotSpace();
    DropFirst(u);
    assert u[0] == '-';
    assert "DELETE"[0] == 'D' && "UPDATE"[0] == 'U';
    assert Strip(u) <= u;
  }

  lemma DashIsNotSpace()
    ensures !IsSpace('-') && UpperChar('-') == '-'
  {
  }

  lemma DashedHasMark(w: string)
    requires |w| >= 2 && w[0] == '-' && w[1] == '-'
    ensures HasMark(w)
  {
    assert StartsWith(w, "--");
  }

  // ----- every finding is enforced -----

  /** The condition without any key. */
  function Blank(): Condition {
    Condition([], [], None, None, None, None, [], [], None, None, None, [], None, [])
  }

  /** A test of one argument: exactly one of the three text tests is present. */
  predicate IsTextTest(c: Condition, path: string) {
    var b := Blank().(argumentPath := Some(path));
    || (c == b.(sqlVerbIn := c.sqlVerbIn) && c.sqlVerbIn != [])
    || (c == b.(sqlUnboundedMutation := c.sqlUnboundedMutation) && c.sqlUnboundedMutation.Some?)
    || (c == b.(shellPatternIn := c.shellPatternIn) && c.shellPatternIn != [])
  }

  /** Text tests of one argument, combined by nested `any`. */
  predicate AnyOf(c: Condition, path: string)
    decreases c
  {
    if c.any != [] then c == Blank().(any := c.any) && forall x :: x in c.any ==> AnyOf(x, path)
    else IsTextTest(c, path)
  }

  predicate IsAllowlist(c: Condition) {
    c == Blank().(toolNotIn := c.toolNotIn) && c.toolNotIn != []
  }

  predicate IsHighValue(c: Condition) {
    && |c.all| == 2 && c == Blank().(all := c.all)
    && c.all[0] == Blank().(toolNameIn := c.all[0].toolNameIn) && c.all[0].toolNameIn != []
    && c.all[1] == Blank().(argumentPath := Some("$.amount"), numericGte := c.all[1].numericGte)
    && c.all[1].numericGte.Some?
  }

  /** A rule the detector knows by its id is a condition rule of the action plane. */
  predicate ActionRule(rules: seq<Rule>, id: string, shape: Condition -> bool) {
    var r := RuleById(rules, id);
    r.Some? ==> Tested(r.value) && ACTION in r.value.planes && shape(r.value.condition.value)
  }

  predicate HasUnboundedTest(rules: seq<Rule>) {
    exists c :: c in PartsOf(rules, "deny_destructive_sql") && c.sqlUnboundedMutation.Some?
  }

  /** Policies whose tool rules have the form of the shipped default policy, with any tools, verbs, pattern
      names, threshold and nesting of `any`. */
  ghost predicate DefaultShaped(rules: seq<Rule>) {
    && ActionRule(rules, "agent_tool_allowlist", IsAllowlist)
    && ActionRule(rules, "high_value_transfer", IsHighValue)
    && ActionRule(rules, "deny_destructive_sql", c => AnyOf(c, "$.query"))
    && ActionRule(rules, "deny_shell_deletion", c => AnyOf(c, "$.command"))
    && HasUnboundedTest(rules)
    && forall v :: v in KnowledgeOf(rules).sqlVerbs ==> !HasMark(v)
  }

  lemma {:induction false} PlainPath(key: string)
    requires forall i :: 0 <= i < |key| ==> key[i] != '.'
    ensures Parts(key) == [key]
  {
    if key != [] {
      PlainPath(key[1..]);
      assert key == [key[0]] + key[1..];
    }
  }

  lemma ResolvesToField(fields: map<string, Json>, key: string)
    requires forall i :: 0 <= i < |key| ==> key[i] != '.'
    ensures Resolve(fields, "$." + key) == Field(fields, key)
  {
    PlainPath(key);
    assert ("$." + key)[2..] == key && "$." <= "$." + key;
    assert [key][1..] == [];
    assert Walk(JObj(fields), [key]) == if key in fields then Walk(fields[key], []) else JNull;
  }

  /** A part that holds makes a nested `any` hold. */
  lemma {:induction false} PartCarries(c: Condition, path: string, part: Condition, findings: seq<Finding>, facts: Facts)
    requires AnyOf(c, path) && part in Flatten(c) && part.any == [] && Holds(part, findings, facts)
    ensures Holds(c, findings, facts)
    decreases c, 1
  {
    if c.any != [] {
      assert FlattenAll(c.all) == [];
      AnyCarries(c.any, path, part, findings, facts);
    } else {
      assert FlattenAll(c.all) == [] && FlattenAll(c.any) == [];
    }
  }

  lemma {:induction false} AnyCarries(cs: seq<Condition>, path: string, part: Condition, findings: seq<Finding>, facts: Facts)
    requires (forall x :: x in cs ==> AnyOf(x, path)) && part in FlattenAll(cs) && part.any == []
    requires Holds(part, findings, facts)
    ensures exists x :: x in cs && Holds(x, findings, facts)
    decreases cs, 0
  {
    if part in Flatten(cs[0]) {
      PartCarries(cs[0], path, part, findings, facts);
      assert cs[0] in cs;
    } else {
      AnyCarries(cs[1..], path, part, findings, facts);
      var x :| x in cs[1..] && Holds(x, findings, facts);
      assert x in cs;
    }
  }

  /** Every part is a nested `any` or a test itself. */
  lemma {:induction false} PartsAreTests(c: Condition, path: string, part: Condition)
    requires AnyOf(c, path) && part in Flatten(c)
    ensures AnyOf(part, path)
    decreases c, 1
  {
    if part != c {
      assert FlattenAll(c.all) == [];
      PartsOfAny(c.any, path, part);
    }
  }

  lemma {:induction false} PartsOfAny(cs: seq<Condition>, path: string, part: Condition)
    requires (forall x :: x in cs ==> AnyOf(x, path)) && part in FlattenAll(cs)
    ensures AnyOf(part, path)
    decreases cs, 0
  {
    if part in Flatten(cs[0]) {
      PartsAreTests(cs[0], path, part);
    } else {
      PartsOfAny(cs[1..], path, part);
    }
  }

  lemma DefaultPaths(fields: map<string, Json>)
    ensures Resolve(fields, "$.query") == Field(fields, "query")
    ensures Resolve(fields, "$.command") == Field(fields, "command")
    ensures Resolve(fields, "$.amount") == Field(fields, "amount")
  {
    hide Resolve, Field;
    ResolvesToField(fields, "query");
    ResolvesToField(fields, "command");
    ResolvesToField(fields, "amount");
    assert "$." + "query" == "$.query" && "$." + "command" == "$.command" && "$." + "amount" == "$.amount";
  }

  /** What a text test decides on a string. */
  lemma TestHolds(c: Condition, path: string, findings: seq<Finding>, facts: Facts)
    requires IsTextTest(c, path) && Resolve(facts.toolArguments, path).JStr?
    ensures var s := Resolve(facts.toolArguments, path).s;
            Holds(c, findings, facts) <==>
              || (exists v :: v in c.sqlVerbIn && SqlVerb(s) == Upper(v))
              || (c.sqlUnboundedMutation.Some? && IsUnboundedMutation(s))
              || (c.shellPatternIn != [] && MatchesShellPattern(s, c.shellPatternIn))
  {
    hide Resolve, SqlVerb, IsUnboundedMutation, MatchesShellPattern, Upper;
  }

  lemma PartWithTest(c: Condition, path: string)
    requires AnyOf(c, path) && (c.sqlVerbIn != [] || c.sqlUnboundedMutation.Some? || c.shellPatternIn != [])
    ensures c.any == [] && IsTextTest(c, path)
  {
  }

  lemma RuleParts(rules: seq<Rule>, id: string, path: string, part: Condition) returns (c: Condition)
    requires ActionRule(rules, id, c => AnyOf(c, path)) && part in PartsOf(rules, id)
    ensures RuleById(rules, id).Some? && RuleById(rules, id).value.condition == Some(c)
    ensures AnyOf(c, path) && part in Flatten(c) && AnyOf(part, path)
  {
    hide AnyOf, Flatten, RuleById;
    c := RuleById(rules, id).value.condition.value;
    PartsAreTests(c, path, part);
  }

  /** The rule with this id is there, and its condition holds. */
  ghost predicate RuleHolds(rules: seq<Rule>, id: string, findings: seq<Finding>, facts: Facts) {
    var r := RuleById(rules, id);
    r.Some? && Tested(r.value) && Holds(r.value.condition.value, findings, facts)
  }

  lemma TestIsEnforced(rules: seq<Rule>, id: string, path: string, part: Condition, findings: seq<Finding>, facts: Facts)
    requires ActionRule(rules, id, c => AnyOf(c, path)) && part in PartsOf(rules, id)
    requires IsTextTest(part, path) && Holds(part, findings, facts)
    ensures RuleHolds(rules, id, findings, facts)
  {
    hide AnyOf, Flatten, Holds, RuleById, PartsOf;
    var c := RuleParts(rules, id, path, part);
    PartCarries(c, path, part, findings, facts);
  }

  lemma VerbIsEnforced(rules: seq<Rule>, findings: seq<Finding>, facts: Facts, query: string)
    requires DefaultShaped(rules) && Field(facts.toolArguments, "query") == JStr(query)
    requires Upper(FirstWord(query)) in KnowledgeOf(rules).sqlVerbs
    ensures RuleHolds(rules, "deny_destructive_sql", findings, facts)
  {
    hide AnyOf, Holds, Flatten, RuleById, HasMark, Upper, FirstWord, SqlVerb, PartsOf, RuleHolds, IsTextTest, Resolve, Field;
    var word := Upper(FirstWord(query));
    var part :| part in PartsOf(rules, "deny_destructive_sql") && word in VerbsOf(part);
    var v :| v in part.sqlVerbIn && word == Upper(v);
    var c := RuleParts(rules, "deny_destructive_sql", "$.query", part);
    PartWithTest(part, "$.query");
    DefaultPaths(facts.toolArguments);
    MarkFree(v, word) by { UpperTwice(v); }
    VerbSurvives(v, query);
    TestHolds(part, "$.query", findings, facts);
    TestIsEnforced(rules, "deny_destructive_sql", "$.query", part, findings, facts);
  }

  lemma UpperTwice(s: string)
    ensures Upper(Upper(s)) == Upper(s)
  {
  }

  lemma UnboundedIsEnforced(rules: seq<Rule>, findings: seq<Finding>, facts: Facts, query: string)
    requires DefaultShaped(rules) && Field(facts.toolArguments, "query") == JStr(query) && DetectsUnbounded(query)
    ensures RuleHolds(rules, "deny_destructive_sql", findings, facts)
  {
    hide AnyOf, Holds, Flatten, RuleById, IsUnboundedMutation, DetectsUnbounded, PartsOf, RuleHolds, IsTextTest, Resolve, Field;
    var part :| part in PartsOf(rules, "deny_destructive_sql") && part.sqlUnboundedMutation.Some?;
    var c := RuleParts(rules, "deny_destructive_sql", "$.query", part);
    PartWithTest(part, "$.query");
    DefaultPaths(facts.toolArguments);
    UnboundedSurvives(query);
    TestHolds(part, "$.query", findings, facts);
    TestIsEnforced(rules, "deny_destructive_sql", "$.query", part, findings, facts);
  }

  lemma CommandIsEnforced(rules: seq<Rule>, findings: seq<Finding>, facts: Facts)
    requires DefaultShaped(rules) && DestructiveCommand(KnowledgeOf(rules), Field(facts.toolArguments, "command"))
    ensures RuleHolds(rules, "deny_shell_deletion", findings, facts)
  {
    hide AnyOf, Holds, Flatten, RuleById, MatchesShellPattern, PartsOf, RuleHolds, IsTextTest, Resolve, Field, Contains, Needles;
    var command := Field(facts.toolArguments, "command").s;
    var names := KnowledgeOf(rules).shellPatterns;
    var name, needle :| name in names && needle in Needles(name) && Contains(Lower(command), Lower(needle));
    var part :| part in PartsOf(rules, "deny_shell_deletion") && name in NamesOf(part);
    var c := RuleParts(rules, "deny_shell_deletion", "$.command", part);
    PartWithTest(part, "$.command");
    DefaultPaths(facts.toolArguments);
    assert DetectsShell(command, {name});
    ShellSurvives(command, part.shellPatternIn, {name});
    TestHolds(part, "$.command", findings, facts);
    TestIsEnforced(rules, "deny_shell_deletion", "$.command", part, findings, facts);
  }

  lemma AllowlistIsEnforced(rules: seq<Rule>, findings: seq<Finding>, facts: Facts, tool: string)
    requires DefaultShaped(rules) && facts.toolName == Some(tool)
    ensures NotAllowed(KnowledgeOf(rules), tool) <==> RuleHolds(rules, "agent_tool_allowlist", findings, facts)
  {
    hide RuleById, Verbs, Names, LastTools, LastThreshold, AnyOf, HasMark;
    var r := RuleById(rules, "agent_tool_allowlist");
    if r.Some? {
      var c := r.value.condition.value;
      assert FlattenAll([]) == [];
      assert Flatten(c) == [c];
    }
  }

  lemma HighValueParts(c: Condition)
    requires IsHighValue(c)
    ensures LastTools(Flatten(c)) == (set t | t in c.all[0].toolNameIn) && LastThreshold(Flatten(c)) == c.all[1].numericGte
  {
    var a, b := c.all[0], c.all[1];
    assert FlattenAll([]) == [];
    assert Flatten(a) == [a] && Flatten(b) == [b];
    assert c.all == [a, b] && c.all[1..] == [b] && [b][1..] == [];
    assert FlattenAll([b]) == [b];
    assert FlattenAll([a, b]) == [a, b];
    assert Flatten(c) == [c, a, b];
    assert [c, a, b][..2] == [c, a] && [c, a][..1] == [c];
  }

  lemma HighValueHolds(c: Condition, findings: seq<Finding>, facts: Facts, tool: string)
    requires IsHighValue(c) && facts.toolName == Some(tool)
    ensures Holds(c, findings, facts) <==>
      && tool in c.all[0].toolNameIn
      && AsNumber(Field(facts.toolArguments, "amount")).Some?
      && AsNumber(Field(facts.toolArguments, "amount")).value >= c.all[1].numericGte.value
  {
    hide Resolve, Field;
    DefaultPaths(facts.toolArguments);
    var a, b := c.all[0], c.all[1];
    assert forall x :: x in c.all <==> x == a || x == b;
    assert Holds(a, findings, facts) <==> tool in a.toolNameIn;
    assert Holds(b, findings, facts) <==> ArgumentHolds(b, Resolve(facts.toolArguments, "$.amount"));
    assert Holds(c, findings, facts) <==> Holds(a, findings, facts) && Holds(b, findings, facts);
  }

  /** The engine also takes a JSON boolean for a number, and the detector does not: the only difference. */
  lemma HighValueIsEnforced(rules: seq<Rule>, findings: seq<Finding>, facts: Facts, tool: string)
    requires DefaultShaped(rules) && facts.toolName == Some(tool)
    ensures var amount := Field(facts.toolArguments, "amount");
            && (HighValue(KnowledgeOf(rules), tool, amount) ==> RuleHolds(rules, "high_value_transfer", findings, facts))
            && (RuleHolds(rules, "high_value_transfer", findings, facts) ==>
                  HighValue(KnowledgeOf(rules), tool, amount) || amount.JBool?)
  {
    hide RuleById, Verbs, Names, LastTools, LastThreshold, AnyOf, HasMark, Flatten, Holds, Field;
    var r := RuleById(rules, "high_value_transfer");
    if r.Some? {
      var c := r.value.condition.value;
      HighValueParts(c);
      HighValueHolds(c, findings, facts, tool);
    } else {
      assert LastThreshold([]) == None by { NoThreshold(); }
    }
  }

  lemma NoThreshold()
    ensures LastThreshold([]) == None
  {
  }

  // ----- the whole call -----

  /** The rules behind a category of findings. */
  function Enforcing(category: string): set<string> {
    if category == "TOOL_NOT_ALLOWLISTED" then {"agent_tool_allowlist"}
    else if category == "SENSITIVE_ACTION" then {"high_value_transfer"}
    else {"deny_destructive_sql", "deny_shell_deletion"}
  }

  lemma FindingHasRule(rules: seq<Rule>, tool: string, a: Arguments, f: Finding, findings: seq<Finding>, facts: Facts)
      returns (id: string)
    requires DefaultShaped(rules) && !Unparseable(a) && f in Scanned(KnowledgeOf(rules), tool, a)
    requires facts.toolName == Some(tool) && facts.toolArguments == FieldsOf(a)
    ensures id in Enforcing(f.category) && RuleHolds(rules, id, findings, facts)
  {
    hide RuleHolds, KnowledgeOf, Field, FieldsOf, DetectsUnbounded, NotAllowed, HighValue, DestructiveCommand, FirstWord, Strip;
    hide DefaultShaped;
    var k := KnowledgeOf(rules);
    var query := Field(facts.toolArguments, "query");
    if NotAllowed(k, tool) && f.category == "TOOL_NOT_ALLOWLISTED" {
      id := "agent_tool_allowlist";
      AllowlistIsEnforced(rules, findings, facts, tool);
    } else if HighValue(k, tool, Field(facts.toolArguments, "amount")) && f.category == "SENSITIVE_ACTION" {
      id := "high_value_transfer";
      HighValueIsEnforced(rules, findings, facts, tool);
    } else if DestructiveQuery(k, query) {
      id := "deny_destructive_sql";
      if DetectsUnbounded(query.s) {
        UnboundedIsEnforced(rules, findings, facts, query.s);
      } else {
        VerbIsEnforced(rules, findings, facts, query.s);
      }
    } else {
      id := "deny_shell_deletion";
      CommandIsEnforced(rules, findings, facts);
    }
  }

  /** Whatever the detector reports about a parsed call, a rule behind that category fires on the same call, and
      the engine's verdict is at least that rule's. */
  lemma EveryFindingIsEnforced(policy: Policy, tool: string, a: Arguments, f: Finding, facts: Facts, degraded: bool)
    requires DefaultShaped(policy.rules) && Algebra.UniqueIds(policy.rules)
    requires !Unparseable(a) && f in Scanned(KnowledgeOf(policy.rules), tool, a)
    requires facts.toolName == Some(tool) && facts.toolArguments == FieldsOf(a)
    ensures exists r :: r in policy.rules && r.id in Enforcing(f.category) && Fires(r, facts)
                     && Rank(r.verdict) <= Rank(Evaluate(policy, facts, degraded).verdict)
  {
    hide KnowledgeOf, Scanned, Evaluate, Holds, FieldsOf, RuleById;
    hide Algebra.UniqueIds;
    var id := FindingHasRule(policy.rules, tool, a, f, FindingsAt(facts, ACTION), facts);
    var r := RuleById(policy.rules, id).value;
    assert ACTION in r.planes by { ActionPlane(policy.rules, f.category, id); }
    assert HoldsAt(r, facts, ACTION);
    assert Fires(r, facts);
    Algebra.EvaluateIsOutcome(policy, facts, degraded);
  }

  lemma ActionPlane(rules: seq<Rule>, category: string, id: string)
    requires DefaultShaped(rules) && id in Enforcing(category) && RuleById(rules, id).Some?
    ensures ACTION in RuleById(rules, id).value.planes
  {
    hide RuleById, AnyOf, KnowledgeOf, PartsOf, HasMark;
  }

  lemma WithToolFacts(facts: Facts, c: Pipeline.Candidate)
    ensures Pipeline.WithTool(facts, c).toolName == Some(c.name)
    ensures Pipeline.WithTool(facts, c).toolArguments == FieldsOf(Structured(c.arguments))
    ensures Pipeline.WithTool(facts, c) == facts.(toolName := Some(c.name), toolArguments := c.arguments)
  {
  }

  /** A finding on any one candidate makes a rule behind its category hit in the decision on the whole request. */
  lemma CandidateFindingIsEnforced(policy: Policy, facts: Facts, degraded: bool, cs: seq<Pipeline.Candidate>, i: nat,
                                       f: Finding)
    requires DefaultShaped(policy.rules) && Algebra.UniqueIds(policy.rules) && i < |cs|
    requires f in Scanned(KnowledgeOf(policy.rules), cs[i].name, Structured(cs[i].arguments))
    ensures var d := Pipeline.PipelineDecision(policy, facts, degraded, cs);
            exists r :: r in policy.rules && r.id in Enforcing(f.category)
                        && Fires(r, facts.(toolName := Some(cs[i].name), toolArguments := cs[i].arguments))
                        && Algebra.HasHit(d.hits, r.id) && Rank(r.verdict) <= Rank(d.verdict)
  {
    hide KnowledgeOf, Scanned, Evaluate, Fires, FieldsOf, DefaultShaped;
    hide Algebra.UniqueIds;
    hide Pipeline.PipelineDecision, Pipeline.WithTool;
    var one := Pipeline.WithTool(facts, cs[i]);
    WithToolFacts(facts, cs[i]);
    EveryFindingIsEnforced(policy, cs[i].name, Structured(cs[i].arguments), f, one, degraded);
    var r :| r in policy.rules && r.id in Enforcing(f.category) && Fires(r, one)
             && Rank(r.verdict) <= Rank(Evaluate(policy, one, degraded).verdict);
    Pipeline.PipelineIsFlat(policy, facts, degraded, cs);
    assert Pipeline.FiresForSome(r, facts, cs);
  }

  /** In the pipeline: for every declared function, a finding of the detector on its name and the fields of its own
      parameters makes a rule behind the finding's category hit in the decision on the whole request, and the
      verdict is at least that rule's, whatever else is declared. */
  lemma EveryDeclaredFindingIsEnforced(policy: Policy, facts: Facts, degraded: bool, tools: seq<Json>, tool: Json,
                                       name: string, arguments: map<string, Json>, f: Finding)
    requires DefaultShaped(policy.rules) && Algebra.UniqueIds(policy.rules)
    requires tool in tools && Pipeline.Declares(tool, name, arguments)
    requires f in Scanned(KnowledgeOf(policy.rules), name, Structured(arguments))
    ensures var d := Pipeline.PipelineDecision(policy, facts, degraded, Pipeline.Candidates(tools));
            exists r :: r in policy.rules && r.id in Enforcing(f.category)
                        && Fires(r, facts.(toolName := Some(name), toolArguments := arguments))
                        && Algebra.HasHit(d.hits, r.id) && Rank(r.verdict) <= Rank(d.verdict)
  {
    hide KnowledgeOf, Scanned, Fires, DefaultShaped;
    hide Algebra.UniqueIds;
    hide Pipeline.PipelineDecision, Pipeline.Candidates, Pipeline.Declares;
    var c := Pipeline.Candidate(name, arguments);
    Pipeline.CandidatesAreDeclared(tools, c);
    var cs := Pipeline.Candidates(tools);
    var i :| 0 <= i < |cs| && cs[i] == c;
    CandidateFindingIsEnforced(policy, facts, degraded, cs, i, f);
  }

  // ----- the shipped policy -----

  const HIGH_VALUE := Blank().(all := [
    Blank().(toolNameIn := ["wire_transfer", "create_payment", "initiate_transfer"]),
    Blank().(argumentPath := Some("$.amount"), numericGte := Some(1000.0))])

  const SQL_VERBS := Blank().(argumentPath := Some("$.query"), sqlVerbIn := ["DROP", "TRUNCATE", "ALTER"])

  const SQL_MUTATION := Blank().(argumentPath := Some("$.query"), sqlUnboundedMutation := Some(true))

  const SHELL := Blank().(argumentPath := Some("$.command"),
                          shellPatternIn := ["recursive_force_remove", "device_write", "fork_bomb"])

  const ALLOWLIST := Blank().(toolNotIn := ["search_docs", "get_weather", "lookup_order", "wire_transfer", "run_sql", "send_email"])

  /** The tool rules of policies/default_policy.yaml. */
  const SHIPPED: seq<Rule> := [
    Rule("high_value_transfer", [ACTION], Some(HIGH_VALUE), false, NEED_APPROVAL, REDACT, "SENSITIVE_ACTION"),
    Rule("deny_destructive_sql", [ACTION], Some(Blank().(any := [SQL_VERBS, SQL_MUTATION])), false, DENY, NONE, "DESTRUCTIVE_ACTION"),
    Rule("deny_shell_deletion", [ACTION], Some(SHELL), false, DENY, NONE, "DESTRUCTIVE_ACTION"),
    Rule("agent_tool_allowlist", [ACTION], Some(ALLOWLIST), false, DENY, NONE, "TOOL_NOT_ALLOWLISTED")]

  lemma {:induction false} LettersHaveNoMark(w: string)
    requires IsLetters(w)
    ensures !HasMark(w)
  {
    assert "--"[0] == '-' && "/*"[0] == '/';
    if w != [] {
      LettersHaveNoMark(w[1..]);
    }
  }

  lemma DistinctNames()
    ensures "high_value_transfer" != "deny_destructive_sql" && "high_value_transfer" != "deny_shell_deletion"
    ensures "high_value_transfer" != "agent_tool_allowlist" && "deny_destructive_sql" != "deny_shell_deletion"
    ensures "deny_destructive_sql" != "agent_tool_allowlist" && "deny_shell_deletion" != "agent_tool_allowlist"
  {
    assert "high_value_transfer"[0] == 'h' && "deny_destructive_sql"[0] == 'd' && "agent_tool_allowlist"[0] == 'a';
    assert "deny_destructive_sql"[5] == 'd' && "deny_shell_deletion"[5] == 's';
  }

  lemma ShippedIds()
    ensures RuleById(SHIPPED, "high_value_transfer") == Some(SHIPPED[0])
    ensures RuleById(SHIPPED, "deny_destructive_sql") == Some(SHIPPED[1])
    ensures RuleById(SHIPPED, "deny_shell_deletion") == Some(SHIPPED[2])
    ensures RuleById(SHIPPED, "agent_tool_allowlist") == Some(SHIPPED[3])
  {
    hide RuleById;
    DistinctNames();
    FirstWithId(SHIPPED, 0, "high_value_transfer");
    FirstWithId(SHIPPED, 1, "deny_destructive_sql");
    FirstWithId(SHIPPED, 2, "deny_shell_deletion");
    FirstWithId(SHIPPED, 3, "agent_tool_allowlist");
  }

  lemma {:induction false} FirstWithId(rules: seq<Rule>, k: nat, id: string)
    requires k < |rules| && rules[k].id == id && forall i :: 0 <= i < k ==> rules[i].id != id
    ensures RuleById(rules, id) == Some(rules[k])
  {
    if k > 0 {
      FirstWithId(rules[1..], k - 1, id);
    }
  }

  lemma ShippedSqlParts()
    ensures Flatten(Blank().(any := [SQL_VERBS, SQL_MUTATION]))
         == [Blank().(any := [SQL_VERBS, SQL_MUTATION]), SQL_VERBS, SQL_MUTATION]
  {
    assert FlattenAll([]) == [];
    assert Flatten(SQL_VERBS) == [SQL_VERBS] && Flatten(SQL_MUTATION) == [SQL_MUTATION];
    assert [SQL_VERBS, SQL_MUTATION][1..] == [SQL_MUTATION] && [SQL_MUTATION][1..] == [];
    assert FlattenAll([SQL_MUTATION]) == [SQL_MUTATION];
  }

  lemma UpperLetters(v: string)
    requires v == "DROP" || v == "TRUNCATE" || v == "ALTER"
    ensures IsLetters(Upper(v))
  {
  }

  lemma VerbIsListed(c: Condition, v: string)
    requires c in [Blank().(any := [SQL_VERBS, SQL_MUTATION]), SQL_VERBS, SQL_MUTATION] && v in c.sqlVerbIn
    ensures v == "DROP" || v == "TRUNCATE" || v == "ALTER"
  {
  }

  lemma ShippedVerbs(word: string)
    requires word in Verbs(Flatten(Blank().(any := [SQL_VERBS, SQL_MUTATION])))
    ensures !HasMark(word)
  {
    hide HasMark, Flatten, Upper;
    ShippedSqlParts();
    var c :| c in Flatten(Blank().(any := [SQL_VERBS, SQL_MUTATION])) && word in VerbsOf(c);
    var v :| v in c.sqlVerbIn && word == Upper(v);
    VerbIsListed(c, v);
    UpperLetters(v);
    LettersHaveNoMark(word);
  }

  /** The shipped policy meets what `EveryFindingIsEnforced` asks of a policy. */
  lemma ShippedPolicyIsDefaultShaped()
    ensures DefaultShaped(SHIPPED)
  {
    hide RuleById, HasMark, Verbs, Flatten, AnyOf, IsAllowlist, IsHighValue, PartsOf;
    ShippedIds();
    ShippedShapes();
    assert SQL_MUTATION in PartsOf(SHIPPED, "deny_destructive_sql") by { ShippedSql(); }
    forall v | v in KnowledgeOf(SHIPPED).sqlVerbs ensures !HasMark(v) {
      ShippedSql();
      ShippedVerbs(v);
    }
  }

  lemma ShippedShapes()
    ensures IsAllowlist(ALLOWLIST) && IsHighValue(HIGH_VALUE)
    ensures AnyOf(Blank().(any := [SQL_VERBS, SQL_MUTATION]), "$.query") && AnyOf(SHELL, "$.command")
  {
    assert AnyOf(SQL_VERBS, "$.query") && AnyOf(SQL_MUTATION, "$.query");
  }

  lemma ShippedSql()
    ensures PartsOf(SHIPPED, "deny_destructive_sql") == Flatten(Blank().(any := [SQL_VERBS, SQL_MUTATION]))
    ensures SQL_MUTATION in PartsOf(SHIPPED, "deny_destructive_sql")
  {
    hide RuleById, Flatten;
    ShippedIds();
    ShippedSqlParts();
  }

  // ----- the converse, for the shipped rules -----

  /** A call on which the two do not differ: no comments in the query, single plain spaces in the command, and an
      amount that is not a boolean. */
  predicate PlainCall(fields: map<string, Json>) {
    && (Field(fields, "query").JStr? ==> StripSqlComments(Field(fields, "query").s) == Field(fields, "query").s)
    && (Field(fields, "command").JStr? ==> Collapse(Field(fields, "command").s) == Field(fields, "command").s)
    && !Field(fields, "amount").JBool?
  }

  lemma FirstWordNeedsText(s: string)
    ensures Strip(s) == "" ==> FirstWord(s) == ""
  {
    hide IsSpace;
    StripKeepsWord(s);
  }

  lemma EmptyIsNoCommand(query: string)
    requires DetectsUnbounded(query)
    ensures Strip(query) != ""
  {
    hide Contains, TrimRight, DropSpaces, Upper;
    UpperCommutes(query);
    assert Upper("") == "";
  }

  lemma ShippedVerbIsDetected(word: string)
    requires word == Upper("DROP") || word == Upper("TRUNCATE") || word == Upper("ALTER")
    ensures word in KnowledgeOf(SHIPPED).sqlVerbs && word != ""
  {
    hide RuleById, Flatten, Upper;
    ShippedIds();
    ShippedSqlParts();
    assert SQL_VERBS in PartsOf(SHIPPED, "deny_destructive_sql");
    assert "DROP" in SQL_VERBS.sqlVerbIn && "TRUNCATE" in SQL_VERBS.sqlVerbIn && "ALTER" in SQL_VERBS.sqlVerbIn;
    assert word in VerbsOf(SQL_VERBS);
  }

  /** On comment-free text the shipped SQL rule holds only for what the detector reports. */
  lemma SqlRuleIsDetected(findings: seq<Finding>, facts: Facts)
    requires RuleHolds(SHIPPED, "deny_destructive_sql", findings, facts) && PlainCall(facts.toolArguments)
    ensures DestructiveQuery(KnowledgeOf(SHIPPED), Field(facts.toolArguments, "query"))
  {
    hide RuleById, Resolve, Field, SqlVerb, IsUnboundedMutation, DetectsUnbounded, KnowledgeOf, FirstWord, Strip, Upper;
    ShippedIds();
    DefaultPaths(facts.toolArguments);
    var query := Field(facts.toolArguments, "query");
    SqlRuleMeans(findings, facts);
    VerbOnCleanedText(query.s);
    UnboundedOnCleanedText(query.s);
    FirstWordNeedsText(query.s);
    if DetectsUnbounded(query.s) {
      EmptyIsNoCommand(query.s);
    } else {
      ShippedVerbIsDetected(SqlVerb(query.s));
      assert Upper("") == "" by { UpperOfNothing(); }
    }
  }

  lemma UpperOfNothing()
    ensures Upper("") == ""
  {
  }

  lemma SqlRuleMeans(findings: seq<Finding>, facts: Facts)
    requires RuleHolds(SHIPPED, "deny_destructive_sql", findings, facts)
    ensures var query := Resolve(facts.toolArguments, "$.query");
            query.JStr?
            && (SqlVerb(query.s) == Upper("DROP") || SqlVerb(query.s) == Upper("TRUNCATE") || SqlVerb(query.s) == Upper("ALTER")
                || IsUnboundedMutation(query.s))
  {
    hide RuleById, Resolve, SqlVerb, IsUnboundedMutation, Upper;
    ShippedIds();
    var c := Blank().(any := [SQL_VERBS, SQL_MUTATION]);
    assert Holds(c, findings, facts);
    assert Holds(SQL_VERBS, findings, facts) || Holds(SQL_MUTATION, findings, facts);
  }

  lemma ShellRuleIsDetected(findings: seq<Finding>, facts: Facts)
    requires RuleHolds(SHIPPED, "deny_shell_deletion", findings, facts) && PlainCall(facts.toolArguments)
    ensures DestructiveCommand(KnowledgeOf(SHIPPED), Field(facts.toolArguments, "command"))
  {
    hide RuleById, Resolve, Field, MatchesShellPattern, Needles, Contains;
    ShippedIds();
    DefaultPaths(facts.toolArguments);
    var command := Field(facts.toolArguments, "command");
    assert Holds(SHELL, findings, facts);
    ShellOnCleanedText(command.s, SHELL.shellPatternIn);
    ShippedNames();
  }

  lemma ShippedNames()
    ensures KnowledgeOf(SHIPPED).shellPatterns == set n | n in SHELL.shellPatternIn
  {
    hide RuleById;
    ShippedIds();
    assert FlattenAll([]) == [];
    assert Flatten(SHELL) == [SHELL];
    assert [SHELL][..0] == [];
    assert Names([SHELL]) == Names([]) + NamesOf(SHELL);
  }

  /** The shipped tool rules. */
  function ToolRuleIds(): set<string> {
    {"high_value_transfer", "deny_destructive_sql", "deny_shell_deletion", "agent_tool_allowlist"}
  }

  lemma HeldRuleIsDetected(tool: string, a: Arguments, findings: seq<Finding>, facts: Facts, id: string)
    requires id in ToolRuleIds() && RuleHolds(SHIPPED, id, findings, facts)
    requires !Unparseable(a) && facts.toolName == Some(tool) && facts.toolArguments == FieldsOf(a)
    requires PlainCall(facts.toolArguments)
    ensures Scanned(KnowledgeOf(SHIPPED), tool, a) != []
  {
    hide RuleHolds, KnowledgeOf, FieldsOf, DefaultShaped, DestructiveQuery, DestructiveCommand, NotAllowed, HighValue, Field;
    ShippedPolicyIsDefaultShaped();
    if id == "agent_tool_allowlist" {
      AllowlistIsEnforced(SHIPPED, findings, facts, tool);
    } else if id == "high_value_transfer" {
      HighValueIsEnforced(SHIPPED, findings, facts, tool);
    } else if id == "deny_destructive_sql" {
      SqlRuleIsDetected(findings, facts);
    } else {
      ShellRuleIsDetected(findings, facts);
    }
  }

  /** On such a call the shipped tool rules fire if and only if the detector reports. */
  lemma ShippedRulesFireExactlyWhenDetected(tool: string, a: Arguments, facts: Facts)
    requires !Unparseable(a) && facts.toolName == Some(tool) && facts.toolArguments == FieldsOf(a)
    requires PlainCall(facts.toolArguments)
    ensures (exists r :: r in SHIPPED && Fires(r, facts)) <==> Scanned(KnowledgeOf(SHIPPED), tool, a) != []
  {
    hide RuleHolds, KnowledgeOf, FieldsOf, DefaultShaped, Scanned, Holds, PlainCall;
    var findings := FindingsAt(facts, ACTION);
    ShippedPolicyIsDefaultShaped();
    if r :| r in SHIPPED && Fires(r, facts) {
      FiringHolds(r, facts);
      HeldRuleIsDetected(tool, a, findings, facts, r.id);
    }
    if Scanned(KnowledgeOf(SHIPPED), tool, a) != [] {
      var id := FindingHasRule(SHIPPED, tool, a, Scanned(KnowledgeOf(SHIPPED), tool, a)[0], findings, facts);
      HoldingFires(id, facts);
    }
  }

  lemma FiringHolds(r: Rule, facts: Facts)
    requires r in SHIPPED && Fires(r, facts)
    ensures r.id in ToolRuleIds() && RuleHolds(SHIPPED, r.id, FindingsAt(facts, ACTION), facts)
  {
    hide RuleById, Holds;
    ShippedIds();
    assert r.planes == [ACTION];
  }

  lemma HoldingFires(id: string, facts: Facts)
    requires RuleHolds(SHIPPED, id, FindingsAt(facts, ACTION), facts)
    ensures exists r :: r in SHIPPED && Fires(r, facts)
  {
    hide RuleById, Holds;
    var r := RuleById(SHIPPED, id).value;
    assert r.planes == [ACTION];
    assert ACTION in r.planes && HoldsAt(r, facts, ACTION);
    assert Fires(r, facts);
  }
}

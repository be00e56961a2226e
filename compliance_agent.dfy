/** The compliance agent: the GDPR rule table, the whole-word keyword
    pre-check, the per-rule verdicts with the model as a fallible oracle, and
    the node that stores them. */
module ComplianceAgent {
  import opened Outcomes
  import opened AgentState
  import opened Text

  /** One compliance rule: the requirement it names, the keywords that hint
      the document addresses it, and the severity of a breach. */
  datatype Rule = Rule(requirement: string, keywords: seq<string>, severity: string, description: string)

  const GdprRules: seq<Rule> := [
    Rule("Data Processing Agreement (DPA)",
         ["personal data", "data subject", "processor", "controller", "data processing"],
         "critical",
         "Checks if the contract contains language that constitutes a DPA, governing the processing of personal data."),
    Rule("Right to Erasure (Right to be Forgotten)",
         ["delete", "erasure", "right to be forgotten", "remove data"],
         "high",
         "Checks if the contract acknowledges the data subject's right to have their personal data erased.")
  ]

  const KeywordsMissing: string :=
    "The requirement is likely not met as none of the relevant keywords were found in the document."
  const AnalysisError: string := "An error occurred during analysis: "
  const ComplianceComplete: string := "Compliance Check Complete"

  // ---------------------------------------------------------------------
  // Whole-word, case-insensitive keyword search
  // ---------------------------------------------------------------------

  /** The regex `\b` at position p: a word character on exactly one side. */
  predicate Boundary(text: string, p: nat)
    requires p <= |text|
  {
    (p > 0 && IsWordChar(text[p - 1])) != (p < |text| && IsWordChar(text[p]))
  }

  /** `\bword\b` matches at position p, ignoring case. */
  predicate WordAt(text: string, word: string, p: nat) {
    && p + |word| <= |text|
    && Boundary(text, p) && Boundary(text, p + |word|)
    && LowerAll(text[p..p + |word|]) == LowerAll(word)
  }

  /** The search from position p on. */
  function SearchFrom(text: string, word: string, p: nat): (b: bool)
    ensures b <==> exists q: nat :: p <= q && WordAt(text, word, q)
    decreases |text| - p
  {
    if p + |word| > |text| then false
    else WordAt(text, word, p) || SearchFrom(text, word, p + 1)
  }

  /** `re.search(r'\b' + word + r'\b', text, re.IGNORECASE)` succeeds. */
  function ContainsWord(text: string, word: string): (b: bool)
    ensures b <==> exists q: nat :: WordAt(text, word, q)
  {
    SearchFrom(text, word, 0)
  }

  /** A match of a word that starts and ends with word characters is a
      whole word of the text: the characters around it are not word
      characters. */
  lemma WholeWord(text: string, word: string, p: nat)
    requires WordAt(text, word, p) && word != []
    requires IsWordChar(word[0]) && IsWordChar(word[|word| - 1])
    ensures p == 0 || !IsWordChar(text[p - 1])
    ensures p + |word| == |text| || !IsWordChar(text[p + |word|])
  {
    var m := text[p..p + |word|];
    assert LowerAll(m)[0] == LowerAll(word)[0];
    assert m[0] == text[p];
    assert LowerAll(m)[|word| - 1] == LowerAll(word)[|word| - 1];
    assert m[|word| - 1] == text[p + |word| - 1];
  }

  /** Case does not matter, in the keyword as in the text. */
  lemma CaseBlind(text: string, word: string)
    ensures ContainsWord(text, UpperAll(word)) == ContainsWord(text, word)
  {
    var u := UpperAll(word);
    assert LowerAll(u) == LowerAll(word);
    forall q: nat ensures WordAt(text, u, q) == WordAt(text, word, q) {
    }
  }

  /** Some keyword of the list occurs as a whole word. */
  predicate AnyKeyword(text: string, keywords: seq<string>) {
    exists i :: 0 <= i < |keywords| && ContainsWord(text, keywords[i])
  }

  // ---------------------------------------------------------------------
  // _keyword_check
  // ---------------------------------------------------------------------

  /** The pre-check table: each requirement to whether some keyword of its
      rule occurs; a later rule with the same requirement overwrites. */
  function KeywordTable(text: string, rules: seq<Rule>): map<string, bool> {
    if rules == [] then map[]
    else
      var last := rules[|rules| - 1];
      KeywordTable(text, rules[..|rules| - 1])[last.requirement := AnyKeyword(text, last.keywords)]
  }

  /** No later rule has the same requirement as rule k. */
  predicate LastOf(rules: seq<Rule>, k: nat)
    requires k < |rules|
  {
    forall t :: k < t < |rules| ==> rules[t].requirement != rules[k].requirement
  }

  /** The table has exactly one entry per requirement of the rules. */
  lemma {:induction false} KeywordTableKeys(text: string, rules: seq<Rule>)
    ensures forall k :: 0 <= k < |rules| ==> rules[k].requirement in KeywordTable(text, rules)
    ensures forall r :: r in KeywordTable(text, rules) ==> exists k :: 0 <= k < |rules| && rules[k].requirement == r
  {
    if rules != [] {
      var p := rules[..|rules| - 1];
      KeywordTableKeys(text, p);
      assert forall k :: 0 <= k < |p| ==> p[k] == rules[k];
    }
  }

  /** The entry of a requirement is the keyword verdict of the last rule
      that names it. */
  lemma {:induction false} KeywordTableLast(text: string, rules: seq<Rule>, k: nat)
    requires k < |rules| && LastOf(rules, k)
    ensures rules[k].requirement in KeywordTable(text, rules)
    ensures KeywordTable(text, rules)[rules[k].requirement] == AnyKeyword(text, rules[k].keywords)
  {
    var p := rules[..|rules| - 1];
    if k < |rules| - 1 {
      assert p[k] == rules[k];
      assert LastOf(p, k) by {
        forall t | k < t < |p| ensures p[t].requirement != p[k].requirement {
          assert p[t] == rules[t];
        }
      }
      KeywordTableLast(text, p, k);
    }
  }

  /** `ComplianceAgent._keyword_check`. */
  method KeywordCheck(text: string, rules: seq<Rule>) returns (results: map<string, bool>)
    ensures results == KeywordTable(text, rules)
  {
    results := map[];
    for i := 0 to |rules|
      invariant results == KeywordTable(text, rules[..i])
    {
      PrefixStep(rules, i);
      var rule := rules[i];
      var found := AnyKeyword(text, rule.keywords);
      results := results[rule.requirement := found];
    }
    assert rules[..|rules|] == rules;
  }

  // ---------------------------------------------------------------------
  // run
  // ---------------------------------------------------------------------

  /** The verdict on one rule from its keyword flag and the model's answer
      `x`, which is only consulted when the keywords were found. */
  function Verdict(rule: Rule, found: bool, x: Outcome<ComplianceResult>): ComplianceResult {
    if !found then ComplianceResult(rule.requirement, false, None, KeywordsMissing, rule.severity)
    else match x
      case Ok(v) => v.(severity := rule.severity)
      case Fault(e) => ComplianceResult(rule.requirement, false, None, AnalysisError + e, rule.severity)
  }

  /** The oracle asked about a rule: the requirement, its description and
      the whole text. */
  function Ask(rule: Rule, text: string, check: (string, string, string) -> Outcome<ComplianceResult>): Outcome<ComplianceResult> {
    check(rule.requirement, rule.description, text)
  }

  /** `ComplianceAgent.run` on a rule table: one verdict per rule, in order. */
  function Checked(text: string, rules: seq<Rule>, check: (string, string, string) -> Outcome<ComplianceResult>): seq<ComplianceResult> {
    KeywordTableKeys(text, rules);
    var table := KeywordTable(text, rules);
    seq(|rules|, k requires 0 <= k < |rules| => Verdict(rules[k], table[rules[k].requirement], Ask(rules[k], text, check)))
  }

  /** A verdict always carries its rule's severity. Without keywords it is
      the fixed non-compliance and does not depend on the model at all;
      with keywords it is the model's result with the rule's severity, or,
      when the model raises, a non-compliance that quotes the exception. */
  lemma VerdictCases(rule: Rule, found: bool, x: Outcome<ComplianceResult>, y: Outcome<ComplianceResult>)
    ensures Verdict(rule, found, x).severity == rule.severity
    ensures !found ==> Verdict(rule, found, x) == Verdict(rule, found, y)
                       == ComplianceResult(rule.requirement, false, None, KeywordsMissing, rule.severity)
    ensures found && x.Ok? ==> Verdict(rule, found, x) == x.value.(severity := rule.severity)
    ensures found && x.Fault? ==>
              var v := Verdict(rule, found, x);
              && !v.isCompliant && v.clauseText.None? && v.requirement == rule.requirement
              && v.assessment == AnalysisError + x.message
  {
  }

  /** One result per rule, in table order; for a rule whose requirement no
      later rule repeats, the verdict uses that rule's own keyword check. */
  lemma CheckedIs(text: string, rules: seq<Rule>, check: (string, string, string) -> Outcome<ComplianceResult>)
    ensures var r := Checked(text, rules, check);
            && |r| == |rules|
            && forall k :: 0 <= k < |rules| ==>
                 && r[k].severity == rules[k].severity
                 && (LastOf(rules, k) ==> r[k] == Verdict(rules[k], AnyKeyword(text, rules[k].keywords), Ask(rules[k], text, check)))
  {
    KeywordTableKeys(text, rules);
    var r := Checked(text, rules, check);
    forall k | 0 <= k < |rules|
      ensures r[k].severity == rules[k].severity
      ensures LastOf(rules, k) ==> r[k] == Verdict(rules[k], AnyKeyword(text, rules[k].keywords), Ask(rules[k], text, check))
    {
      VerdictCases(rules[k], KeywordTable(text, rules)[rules[k].requirement], Ask(rules[k], text, check), Ask(rules[k], text, check));
      if LastOf(rules, k) {
        KeywordTableLast(text, rules, k);
      }
    }
  }

  /** On the GDPR table: two results, DPA with severity critical, then
      erasure with severity high, each decided by its own keywords. */
  lemma GdprChecked(text: string, check: (string, string, string) -> Outcome<ComplianceResult>)
    ensures var r := Checked(text, GdprRules, check);
            && |r| == 2
            && r[0].severity == "critical" && r[1].severity == "high"
            && r[0] == Verdict(GdprRules[0], AnyKeyword(text, GdprRules[0].keywords), Ask(GdprRules[0], text, check))
            && r[1] == Verdict(GdprRules[1], AnyKeyword(text, GdprRules[1].keywords), Ask(GdprRules[1], text, check))
  {
    CheckedIs(text, GdprRules, check);
    assert LastOf(GdprRules, 0) by {
      assert GdprRules[1].requirement[0] != GdprRules[0].requirement[0];
    }
    assert LastOf(GdprRules, 1);
  }

  /** The loop of `ComplianceAgent.run` over a rule table, after the
      keyword check. */
  method CheckRules(text: string, rules: seq<Rule>, check: (string, string, string) -> Outcome<ComplianceResult>)
    returns (results: seq<ComplianceResult>)
    ensures results == Checked(text, rules, check)
  {
    var keywordResults := KeywordCheck(text, rules);
    KeywordTableKeys(text, rules);
    results := [];
    for i := 0 to |rules|
      invariant |results| == i
      invariant forall k :: 0 <= k < i ==>
                  results[k] == Verdict(rules[k], keywordResults[rules[k].requirement], Ask(rules[k], text, check))
    {
      var rule := rules[i];
      var result;
      if !keywordResults[rule.requirement] {
        result := ComplianceResult(rule.requirement, false, None, KeywordsMissing, rule.severity);
      } else {
        var x := check(rule.requirement, rule.description, text);
        if x.Ok? {
          result := x.value;
          result := result.(severity := rule.severity);
        } else {
          result := ComplianceResult(rule.requirement, false, None, AnalysisError + x.message, rule.severity);
        }
      }
      results := results + [result];
    }
  }

  /** `ComplianceAgent.run`: the GDPR table checked against the text. */
  method Run(text: string, check: (string, string, string) -> Outcome<ComplianceResult>)
    returns (results: seq<ComplianceResult>)
    ensures results == Checked(text, GdprRules, check)
  {
    results := CheckRules(text, GdprRules, check);
  }

  // ---------------------------------------------------------------------
  // compliance_node
  // ---------------------------------------------------------------------

  /** `compliance_node`: the verdicts of the GDPR table on the document
      text, and the step label. It never raises. */
  function ComplianceStep(s: State, check: (string, string, string) -> Outcome<ComplianceResult>): State {
    s.(complianceResults := Checked(s.documentText, GdprRules, check), currentStep := ComplianceComplete)
  }

  /** The node writes two verdicts and the step label, and nothing else. */
  lemma ComplianceStepWrites(s: State, check: (string, string, string) -> Outcome<ComplianceResult>)
    ensures var r := ComplianceStep(s, check);
            && r == s.(complianceResults := r.complianceResults, currentStep := ComplianceComplete)
            && |r.complianceResults| == 2
            && r.complianceResults[0].severity == "critical" && r.complianceResults[1].severity == "high"
  {
    GdprChecked(s.documentText, check);
  }

  method ComplianceNode(item: WorkItem, check: (string, string, string) -> Outcome<ComplianceResult>)
    modifies item
    ensures item.Value() == ComplianceStep(old(item.Value()), check)
  {
    var results := Run(item.documentText, check);
    item.complianceResults := results;
    item.currentStep := ComplianceComplete;
  }
}

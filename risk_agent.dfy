/** The risk-assessment agent: the prompt text built from the parsed
    clauses, the model's analysis with its fallback, and the node that stores
    the risks. */
module RiskAgent {
  import opened Outcomes
  import opened AgentState
  import opened Text

  const RiskComplete: string := "Risk Assessment Complete"

  /** What `run` returns when the model raises. */
  const Fallback: RiskAnalysis := RiskAnalysis([], "unknown")

  /** The prompt line of one clause. */
  function ClauseLine(c: ParsedClause): string {
    "Clause " + c.clauseNumber + ": " + c.text
  }

  /** The prompt text: the clause lines, in order, separated by a blank line. */
  function ClausesText(clauses: seq<ParsedClause>): string {
    Join("\n\n", seq(|clauses|, k requires 0 <= k < |clauses| => ClauseLine(clauses[k])))
  }

  /** The text of no clauses is empty, that of one clause is its line, and
      each further clause adds a blank line and its own line at the end. */
  lemma ClausesTextSnoc(clauses: seq<ParsedClause>, c: ParsedClause)
    ensures ClausesText([]) == ""
    ensures ClausesText(clauses + [c]) == if clauses == [] then ClauseLine(c) else ClausesText(clauses) + "\n\n" + ClauseLine(c)
  {
    var lines := seq(|clauses|, k requires 0 <= k < |clauses| => ClauseLine(clauses[k]));
    var all := clauses + [c];
    assert seq(|all|, k requires 0 <= k < |all| => ClauseLine(all[k])) == lines + [ClauseLine(c)];
    if clauses != [] {
      JoinConcat("\n\n", lines, [ClauseLine(c)]);
    }
  }

  /** Every clause's line starts with the label "Clause " and its number. */
  lemma ClausesTextStart(clauses: seq<ParsedClause>)
    requires clauses != []
    ensures StartsWith(ClausesText(clauses), "Clause " + clauses[0].clauseNumber + ": ")
  {
    var lines := seq(|clauses|, k requires 0 <= k < |clauses| => ClauseLine(clauses[k]));
    var head := "Clause " + clauses[0].clauseNumber + ": ";
    if |clauses| == 1 {
      assert ClausesText(clauses) == ClauseLine(clauses[0]);
    } else {
      assert lines == [lines[0]] + lines[1..];
      JoinConcat("\n\n", [lines[0]], lines[1..]);
      assert ClausesText(clauses) == ClauseLine(clauses[0]) + ("\n\n" + Join("\n\n", lines[1..]));
    }
    assert ClauseLine(clauses[0]) == head + clauses[0].text;
  }

  /** `RiskAssessmentAgent.run`: the model is asked once, about the prompt
      text of the clauses; its analysis is returned as it is, and when it
      raises the result is no risks with the overall score "unknown". */
  function Assessment(clauses: seq<ParsedClause>, assess: string -> Outcome<RiskAnalysis>): (r: RiskAnalysis)
    ensures assess(ClausesText(clauses)).Ok? ==> r == assess(ClausesText(clauses)).value
    ensures assess(ClausesText(clauses)).Fault? ==> r == RiskAnalysis([], "unknown")
  {
    var x := assess(ClausesText(clauses));
    if x.Ok? then x.value else Fallback
  }

  /** `risk_assessment_node`: no clauses leaves the state untouched;
      otherwise the risks of the analysis are stored. It never raises. */
  function RiskStep(s: State, assess: string -> Outcome<RiskAnalysis>): State {
    if s.parsedClauses == [] then s
    else s.(identifiedRisks := Assessment(s.parsedClauses, assess).risks, currentStep := RiskComplete)
  }

  /** Without clauses the node changes nothing, not even the step label.
      With clauses it changes only the risks and the step label: the
      risks are those of the model's analysis, or none when it raised, and
      the overall score is never stored. */
  lemma RiskStepCases(s: State, assess: string -> Outcome<RiskAnalysis>)
    ensures var r, x := RiskStep(s, assess), assess(ClausesText(s.parsedClauses));
            && (s.parsedClauses == [] ==> r == s)
            && (s.parsedClauses != [] ==>
                  && r == s.(identifiedRisks := r.identifiedRisks, currentStep := RiskComplete)
                  && (x.Ok? ==> r.identifiedRisks == x.value.risks)
                  && (x.Fault? ==> r.identifiedRisks == []))
  {
  }

  method RiskNode(item: WorkItem, assess: string -> Outcome<RiskAnalysis>)
    modifies item
    ensures item.Value() == RiskStep(old(item.Value()), assess)
  {
    if item.parsedClauses == [] {
      return;
    }
    var analysis := Assessment(item.parsedClauses, assess);
    item.identifiedRisks := analysis.risks;
    item.currentStep := RiskComplete;
  }
}

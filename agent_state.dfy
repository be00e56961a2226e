/** The shared state of the agent workflow: the record every node reads and
    writes, its parts, and the mutable work item the nodes update in place. */
module AgentState {
  import opened Outcomes

  /** A clause after classification by the parser node. */
  datatype ParsedClause = ParsedClause(clauseNumber: string, text: string, category: string)

  /** One risk found by the risk-assessment model. */
  datatype Risk = Risk(clauseText: string, riskLevel: string, description: string, mitigation: string)

  /** What the risk-assessment model returns. */
  datatype RiskAnalysis = RiskAnalysis(risks: seq<Risk>, overallRiskScore: string)

  /** The verdict on one compliance requirement. */
  datatype ComplianceResult = ComplianceResult(requirement: string, isCompliant: bool, clauseText: Option<string>,
                                               assessment: string, severity: string)

  datatype ChangeKind = Added | Removed | Modified

  /** One difference between two documents, with empty strings on the side
      a change does not have. */
  datatype Change = Change(kind: ChangeKind, clauseNumberA: string, textA: string,
                           clauseNumberB: string, textB: string, explanation: string)

  /** One turn of the question-and-answer conversation. */
  datatype Message = Message(role: string, content: string, citations: seq<string>)

  /** The value of the state record: every key the API handlers put in the
      initial state. */
  datatype State = State(
    taskType: string,
    documentId: string,
    documentText: string,
    documentText2: string,
    parsedClauses: seq<ParsedClause>,
    clauseCategories: map<string, string>,
    identifiedRisks: seq<Risk>,
    missingClauses: seq<string>,
    comparisonResult: seq<Change>,
    complianceResults: seq<ComplianceResult>,
    qaMessages: seq<Message>,
    finalReport: string,
    currentStep: string,
    error: string)

  /** The state record of one request, which the nodes update in place. */
  class WorkItem {
    var taskType: string
    var documentId: string
    var documentText: string
    var documentText2: string
    var parsedClauses: seq<ParsedClause>
    var clauseCategories: map<string, string>
    var identifiedRisks: seq<Risk>
    var missingClauses: seq<string>
    var comparisonResult: seq<Change>
    var complianceResults: seq<ComplianceResult>
    var qaMessages: seq<Message>
    var finalReport: string
    var currentStep: string
    var error: string

    /** The record's current contents. */
    function Value(): State
      reads this
    {
      State(taskType, documentId, documentText, documentText2, parsedClauses, clauseCategories,
            identifiedRisks, missingClauses, comparisonResult, complianceResults, qaMessages,
            finalReport, currentStep, error)
    }

    constructor (s: State)
      ensures Value() == s
    {
      taskType, documentId, documentText, documentText2 := s.taskType, s.documentId, s.documentText, s.documentText2;
      parsedClauses, clauseCategories, identifiedRisks := s.parsedClauses, s.clauseCategories, s.identifiedRisks;
      missingClauses, comparisonResult, complianceResults := s.missingClauses, s.comparisonResult, s.complianceResults;
      qaMessages, finalReport, currentStep, error := s.qaMessages, s.finalReport, s.currentStep, s.error;
    }
  }

  /** The state after a node whose step is `step`: a node that raises
      leaves the record as it was. */
  function After(s: State, step: Outcome<State>): State {
    if step.Ok? then step.value else s
  }

  /** `None` when the step completed, the exception's message when it raised. */
  function RaisedBy(step: Outcome<State>): Option<string> {
    if step.Ok? then None else Some(step.message)
  }
}

/** The document-parser agent: the clauses of the document text, each
    classified by the language model, and the node that stores them. */
module ParserAgent {
  import opened Outcomes
  import opened AgentState
  import opened Text
  import DocumentParser

  type Clause = DocumentParser.Clause

  const NoDocumentText: string := "No document text found in state."
  const ParsingComplete: string := "Parsing Complete"

  /** The classified clauses, or the first exception of the classifier, and
      the clause contents the classifier was asked about, in order. */
  datatype Classification = Classification(result: Outcome<seq<ParsedClause>>, asked: seq<string>)

  /** A clause with the classifier's answer, without its outer whitespace. */
  function Classify(c: Clause, category: string): ParsedClause {
    ParsedClause(c.number, c.content, Strip(category, IsPySpace))
  }

  /** The classification of the clauses in order; an exception of the
      classifier ends it. */
  function Classified(clauses: seq<Clause>, classify: string -> Outcome<string>): Classification {
    if clauses == [] then Classification(Ok([]), [])
    else
      var c := Classified(clauses[..|clauses| - 1], classify);
      var last := clauses[|clauses| - 1];
      if c.result.Fault? then c
      else
        var x := classify(last.content);
        if x.Fault? then Classification(Fault(x.message), c.asked + [last.content])
        else Classification(Ok(c.result.value + [Classify(last, x.value)]), c.asked + [last.content])
  }

  /** The classifier is asked about the first `k` clauses, in order. */
  predicate AskedFirst(asked: seq<string>, clauses: seq<Clause>, k: nat) {
    k <= |clauses| && |asked| == k && forall t :: 0 <= t < k ==> asked[t] == clauses[t].content
  }

  /** The classification succeeds exactly when the classifier answers for
      every clause. */
  lemma {:induction false} ClassifiedSucceeds(clauses: seq<Clause>, classify: string -> Outcome<string>)
    ensures Classified(clauses, classify).result.Ok? <==> forall k :: 0 <= k < |clauses| ==> classify(clauses[k].content).Ok?
  {
    if clauses != [] {
      var p := clauses[..|clauses| - 1];
      ClassifiedSucceeds(p, classify);
      assert forall t :: 0 <= t < |p| ==> p[t] == clauses[t];
    }
  }

  /** A successful classification holds one entry per clause, in order,
      with the clause's number and content and the stripped category, and
      the classifier was asked once per clause. */
  lemma {:induction false} ClassifiedOk(clauses: seq<Clause>, classify: string -> Outcome<string>)
    ensures var c := Classified(clauses, classify);
            c.result.Ok? ==>
              && AskedFirst(c.asked, clauses, |clauses|)
              && |c.result.value| == |clauses|
              && forall k :: 0 <= k < |clauses| ==>
                   classify(clauses[k].content).Ok? && c.result.value[k] == Classify(clauses[k], classify(clauses[k].content).value)
  {
    if clauses != [] {
      var p := clauses[..|clauses| - 1];
      ClassifiedOk(p, classify);
      assert forall t :: 0 <= t < |p| ==> p[t] == clauses[t];
    }
  }

  /** A failed classification carries the exception of the first clause the
      classifier fails on, and no clause after that one was asked about. */
  lemma {:induction false} ClassifiedFault(clauses: seq<Clause>, classify: string -> Outcome<string>)
    ensures var c := Classified(clauses, classify);
            c.result.Fault? ==>
              exists k :: 0 <= k < |clauses| && AskedFirst(c.asked, clauses, k + 1)
                          && (forall t :: 0 <= t < k ==> classify(clauses[t].content).Ok?)
                          && classify(clauses[k].content) == Fault(c.result.message)
  {
    if clauses != [] {
      var p := clauses[..|clauses| - 1];
      var last := clauses[|clauses| - 1];
      var c := Classified(p, classify);
      assert forall t :: 0 <= t < |p| ==> p[t] == clauses[t];
      if c.result.Fault? {
        ClassifiedFault(p, classify);
        var k :| 0 <= k < |p| && AskedFirst(c.asked, p, k + 1)
                 && (forall t :: 0 <= t < k ==> classify(p[t].content).Ok?)
                 && classify(p[k].content) == Fault(c.result.message);
        assert AskedFirst(c.asked, clauses, k + 1);
      } else if classify(last.content).Fault? {
        ClassifiedOk(p, classify);
        ClassifiedSucceeds(p, classify);
        assert AskedFirst(c.asked + [last.content], clauses, |p| + 1);
      }
    }
  }

  /** Every category is the classifier's answer without outer whitespace. */
  lemma CategoriesStripped(clauses: seq<Clause>, classify: string -> Outcome<string>)
    ensures var c := Classified(clauses, classify);
            c.result.Ok? ==> forall k :: 0 <= k < |c.result.value| ==> Unpadded(c.result.value[k].category, IsPySpace)
  {
    ClassifiedOk(clauses, classify);
  }

  /** The loop of `DocumentParserAgent.run`: classify each clause in order. */
  method ClassifyAll(clauses: seq<Clause>, classify: string -> Outcome<string>) returns (r: Classification)
    ensures r == Classified(clauses, classify)
  {
    var classified: seq<ParsedClause> := [];
    var asked: seq<string> := [];
    for i := 0 to |clauses|
      invariant Classified(clauses[..i], classify) == Classification(Ok(classified), asked)
    {
      PrefixStep(clauses, i);
      var clause := clauses[i];
      var category := classify(clause.content);
      asked := asked + [clause.content];
      if category.Fault? {
        r := Classification(Fault(category.message), asked);
        ClassifiedFaultStays(clauses, i + 1, classify);
        return;
      }
      classified := classified + [ParsedClause(clause.number, clause.content, Strip(category.value, IsPySpace))];
    }
    assert clauses[..|clauses|] == clauses;
    r := Classification(Ok(classified), asked);
  }

  /** `DocumentParserAgent.run`: extract the clauses and classify each. */
  method Run(documentText: string, classify: string -> Outcome<string>) returns (r: Classification)
    ensures r == Classified(DocumentParser.ClausesOf(SplitLines(documentText)), classify)
  {
    var clauses := DocumentParser.ExtractClauses(documentText);
    r := ClassifyAll(clauses, classify);
  }

  /** Once the classifier has failed, the later clauses change nothing. */
  lemma {:induction false} ClassifiedFaultStays(clauses: seq<Clause>, i: nat, classify: string -> Outcome<string>)
    requires i <= |clauses| && Classified(clauses[..i], classify).result.Fault?
    ensures Classified(clauses, classify) == Classified(clauses[..i], classify)
    decreases |clauses| - i
  {
    if i < |clauses| {
      var q := clauses[..i + 1];
      assert q[..|q| - 1] == clauses[..i];
      ClassifiedFaultStays(clauses, i + 1, classify);
    } else {
      assert clauses[..i] == clauses;
    }
  }

  /** `document_parser_node`: an empty text sets the error and nothing else;
      otherwise the classified clauses are stored, and an exception of the
      classifier propagates. */
  function ParserStep(s: State, classify: string -> Outcome<string>): Outcome<State> {
    if s.documentText == "" then Ok(s.(error := NoDocumentText))
    else
      var c := Classified(DocumentParser.ClausesOf(SplitLines(s.documentText)), classify);
      if c.result.Fault? then Fault(c.result.message)
      else Ok(s.(parsedClauses := c.result.value, currentStep := ParsingComplete))
  }

  /** The node's three outcomes: without a text only the error changes and
      the classifier is not consulted; with one it raises exactly when the
      classifier fails on some clause, and otherwise it writes one parsed
      clause per extracted clause and the step label, and nothing else. */
  lemma ParserStepCases(s: State, classify: string -> Outcome<string>)
    ensures var r := ParserStep(s, classify);
            var clauses := DocumentParser.ClausesOf(SplitLines(s.documentText));
            && (s.documentText == "" ==> r == Ok(s.(error := NoDocumentText)))
            && (s.documentText != "" ==>
                  && (r.Fault? <==> exists k :: 0 <= k < |clauses| && classify(clauses[k].content).Fault?)
                  && (r.Ok? ==>
                        && r.value == s.(parsedClauses := r.value.parsedClauses, currentStep := ParsingComplete)
                        && |r.value.parsedClauses| == |clauses|
                        && forall k :: 0 <= k < |clauses| ==>
                             && r.value.parsedClauses[k].clauseNumber == clauses[k].number
                             && r.value.parsedClauses[k].text == clauses[k].content))
  {
    if s.documentText != "" {
      var clauses := DocumentParser.ClausesOf(SplitLines(s.documentText));
      ClassifiedSucceeds(clauses, classify);
      ClassifiedOk(clauses, classify);
    }
  }

  method ParserNode(item: WorkItem, classify: string -> Outcome<string>) returns (raised: Option<string>)
    modifies item
    ensures item.Value() == After(old(item.Value()), ParserStep(old(item.Value()), classify))
    ensures raised == RaisedBy(ParserStep(old(item.Value()), classify))
  {
    if item.documentText == "" {
      item.error := NoDocumentText;
      return None;
    }
    var r := Run(item.documentText, classify);
    if r.result.Fault? {
      return Some(r.result.message);
    }
    item.parsedClauses := r.result.value;
    item.currentStep := ParsingComplete;
    raised := None;
  }
}

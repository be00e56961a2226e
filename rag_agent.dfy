/** The question-answering node: the question is the last user message,
    the model answers from the head of the document text, and the answer or
    the failure is appended to the conversation. */
module RagAgent {
  import opened Outcomes
  import opened AgentState

  const NoQuestionProvided: string := "No question provided"
  const NoQuestionFound: string := "No question found"
  const NoDocumentText: string := "No document text available"
  const QaFailed: string := "Q&A failed: "
  const ErrorReply: string := "I encountered an error processing your question: "
  const QaComplete: string := "qa_complete"

  /** How many characters of the document text the model sees. */
  const ContextLimit: nat := 4000

  /** The index of the last message whose role is "user". */
  function LastUser(ms: seq<Message>): (r: Option<nat>)
    ensures r.Some? ==> r.value < |ms|
  {
    if ms == [] then None
    else if ms[|ms| - 1].role == "user" then Some(|ms| - 1)
    else LastUser(ms[..|ms| - 1])
  }

  /** `LastUser` finds a user message after which no message is a user
      message, and finds none exactly when no message is one. */
  lemma {:induction false} LastUserIs(ms: seq<Message>)
    ensures LastUser(ms).None? <==> forall t :: 0 <= t < |ms| ==> ms[t].role != "user"
    ensures LastUser(ms).Some? ==>
              var k := LastUser(ms).value;
              && k < |ms| && ms[k].role == "user"
              && forall t :: k < t < |ms| ==> ms[t].role != "user"
  {
    if ms != [] && ms[|ms| - 1].role != "user" {
      var p := ms[..|ms| - 1];
      LastUserIs(p);
      assert forall t :: 0 <= t < |p| ==> p[t] == ms[t];
    }
  }

  /** The question: the content of the last user message, if any. */
  function Question(ms: seq<Message>): Option<string> {
    match LastUser(ms)
    case None => None
    case Some(k) => Some(ms[k].content)
  }

  /** The reversed search for the last user message. */
  method FindQuestion(ms: seq<Message>) returns (question: Option<string>)
    ensures question == Question(ms)
  {
    var i := |ms|;
    assert ms[..i] == ms;
    while i > 0
      invariant i <= |ms|
      invariant LastUser(ms) == LastUser(ms[..i])
      decreases i
    {
      if ms[i - 1].role == "user" {
        assert ms[..i][|ms[..i]| - 1] == ms[i - 1];
        return Some(ms[i - 1].content);
      }
      assert ms[..i][..i - 1] == ms[..i - 1];
      i := i - 1;
    }
    assert ms[..i] == [];
    return None;
  }

  /** `document_text[:4000]`. */
  function Context(text: string): (c: string)
    ensures |c| <= ContextLimit && c <= text
    ensures |text| <= ContextLimit ==> c == text
    ensures |text| > ContextLimit ==> |c| == ContextLimit
  {
    if |text| <= ContextLimit then text else text[..ContextLimit]
  }

  /** `rag_node`, with the model as `answer(context, question)`. It never
      raises: a failure of the model is recorded in the state. */
  function RagStep(s: State, answer: (string, string) -> Outcome<string>): State {
    if s.qaMessages == [] then s.(error := NoQuestionProvided)
    else
      var q := Question(s.qaMessages);
      if q.None? || q.value == "" then s.(error := NoQuestionFound)
      else if s.documentText == "" then s.(error := NoDocumentText)
      else match answer(Context(s.documentText), q.value)
        case Ok(a) => s.(qaMessages := s.qaMessages + [Message("assistant", a, [])], currentStep := QaComplete)
        case Fault(e) => s.(error := QaFailed + e, qaMessages := s.qaMessages + [Message("assistant", ErrorReply + e, [])])
  }

  /** The conversation only grows, by at most one assistant message, and
      nothing but the messages, the error and the step label changes. */
  lemma RagAppendOnly(s: State, answer: (string, string) -> Outcome<string>)
    ensures var r := RagStep(s, answer);
            && s.qaMessages <= r.qaMessages && |r.qaMessages| <= |s.qaMessages| + 1
            && (|r.qaMessages| > |s.qaMessages| ==> r.qaMessages[|s.qaMessages|].role == "assistant")
            && r == s.(qaMessages := r.qaMessages, error := r.error, currentStep := r.currentStep)
  {
  }

  /** The guards in order: no messages, then no user message or an empty
      last user message, then no document text; each sets its error and appends nothing, and
      the model is asked only after all three pass, about the last user
      message's content and, of the document, its first 4000 characters.
      Its answer is appended and completes the step; its failure is
      appended as an apology and recorded as the error. */
  lemma RagStepCases(s: State, answer: (string, string) -> Outcome<string>)
    ensures var r, ms := RagStep(s, answer), s.qaMessages;
            && (ms == [] ==> r == s.(error := NoQuestionProvided))
            && (ms != [] && (Question(ms).None? || Question(ms).value == "") ==> r == s.(error := NoQuestionFound))
            && (Question(ms).None? <==> forall t :: 0 <= t < |ms| ==> ms[t].role != "user")
            && (ms != [] && Question(ms).Some? && Question(ms).value != "" && s.documentText == "" ==>
                  r == s.(error := NoDocumentText))
            && (ms != [] && Question(ms).Some? && Question(ms).value != "" && s.documentText != "" ==>
                  var x := answer(Context(s.documentText), Question(ms).value);
                  && (x.Ok? ==> r == s.(qaMessages := ms + [Message("assistant", x.value, [])], currentStep := QaComplete))
                  && (x.Fault? ==> r == s.(error := QaFailed + x.message,
                                           qaMessages := ms + [Message("assistant", ErrorReply + x.message, [])])))
  {
    LastUserIs(s.qaMessages);
  }

  /** The question is that of the last user message. */
  lemma QuestionIsLast(ms: seq<Message>)
    ensures Question(ms).Some? <==> exists k :: 0 <= k < |ms| && ms[k].role == "user"
    ensures Question(ms).Some? ==>
              exists k :: 0 <= k < |ms| && ms[k].role == "user" && Question(ms).value == ms[k].content
                          && forall t :: k < t < |ms| ==> ms[t].role != "user"
  {
    LastUserIs(ms);
  }

  method RagNode(item: WorkItem, answer: (string, string) -> Outcome<string>)
    modifies item
    ensures item.Value() == RagStep(old(item.Value()), answer)
  {
    if item.qaMessages == [] {
      item.error := NoQuestionProvided;
      return;
    }
    var question := FindQuestion(item.qaMessages);
    if question.None? || question.value == "" {
      item.error := NoQuestionFound;
      return;
    }
    if item.documentText == "" {
      item.error := NoDocumentText;
      return;
    }
    var x := answer(Context(item.documentText), question.value);
    if x.Ok? {
      item.qaMessages := item.qaMessages + [Message("assistant", x.value, [])];
      item.currentStep := QaComplete;
    } else {
      item.error := QaFailed + x.message;
      item.qaMessages := item.qaMessages + [Message("assistant", ErrorReply + x.message, [])];
    }
  }
}

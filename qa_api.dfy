/** The question-and-answer endpoint: the in-memory store of document texts,
    the initial state of a question, the run of the workflow and the answer
    read back from the conversation. HTTP errors are values with their
    status code. */
module QaApi {
  import opened Outcomes
  import opened AgentState
  import Supervisor
  import RagAgent

  const TextNotFound: string := "Document text not found. Please analyze the document first."
  const ProcessingFailed: string := "Q&A processing failed"
  const NoAnswer: string := "No answer generated"

  /** The body of a request; an absent document text is the empty string. */
  datatype QuestionRequest = QuestionRequest(documentId: string, question: string, documentText: string)

  /** The answer body, or the HTTP error raised instead. */
  datatype Response =
    | Answered(answer: string, citations: seq<string>, documentId: string)
    | HttpError(status: int, detail: string)

  /** The module-level `document_store`. */
  class DocumentStore {
    var texts: map<string, string>

    constructor ()
      ensures texts == map[]
    {
      texts := map[];
    }

    /** `document_store[id] = text`. */
    method Put(id: string, text: string)
      modifies this
      ensures texts == old(texts)[id := text]
    {
      texts := texts[id := text];
    }

    /** `document_store.get(id, fallback)`. */
    function Get(id: string, fallback: string): string
      reads this
    {
      if id in texts then texts[id] else fallback
    }
  }

  /** The store after a request: a non-empty request text is stored under
      the request's document id. */
  function Stored(texts: map<string, string>, r: QuestionRequest): map<string, string> {
    if r.documentText != "" then texts[r.documentId := r.documentText] else texts
  }

  /** The text the question is asked about: the stored entry, else the
      request's own text. */
  function Resolved(texts: map<string, string>, r: QuestionRequest): string {
    var t := Stored(texts, r);
    if r.documentId in t then t[r.documentId] else r.documentText
  }

  /** Only the request's own entry can change, and only to a non-empty
      text; a text in the request wins over the stored one, and without one
      the stored entry is used, if there is one. */
  lemma StoreAndResolve(texts: map<string, string>, r: QuestionRequest)
    ensures forall id :: id != r.documentId ==> (id in Stored(texts, r) <==> id in texts)
    ensures forall id :: id != r.documentId && id in texts ==> Stored(texts, r)[id] == texts[id]
    ensures r.documentText != "" ==> Stored(texts, r)[r.documentId] == r.documentText
    ensures r.documentText == "" ==> Stored(texts, r) == texts
    ensures r.documentText != "" ==> Resolved(texts, r) == r.documentText
    ensures r.documentText == "" ==> Resolved(texts, r) == if r.documentId in texts then texts[r.documentId] else ""
  {
  }

  /** The initial state of a question: one user message, nothing else
      collected yet. */
  function InitialQaState(r: QuestionRequest, text: string): State {
    State("qa", r.documentId, text, "", [], map[], [], [], [], [], [Message("user", r.question, [])], "", "start", "")
  }

  /** The last message whose role is "assistant". */
  function LastAssistant(ms: seq<Message>): Option<Message> {
    if ms == [] then None
    else if ms[|ms| - 1].role == "assistant" then Some(ms[|ms| - 1])
    else LastAssistant(ms[..|ms| - 1])
  }

  /** `LastAssistant` finds an assistant message after which no message is
      one, and finds none exactly when there is none. */
  lemma {:induction false} LastAssistantIs(ms: seq<Message>)
    ensures LastAssistant(ms).None? <==> forall t :: 0 <= t < |ms| ==> ms[t].role != "assistant"
    ensures LastAssistant(ms).Some? ==>
              exists k :: 0 <= k < |ms| && ms[k] == LastAssistant(ms).value && ms[k].role == "assistant"
                          && forall t :: k < t < |ms| ==> ms[t].role != "assistant"
  {
    if ms != [] {
      var p := ms[..|ms| - 1];
      if ms[|ms| - 1].role == "assistant" {
        assert ms[|ms| - 1] == LastAssistant(ms).value;
      } else {
        assert LastAssistant(ms) == LastAssistant(p);
        LastAssistantIs(p);
        assert forall t :: 0 <= t < |p| ==> p[t] == ms[t];
        if LastAssistant(p).Some? {
          var k :| 0 <= k < |p| && p[k] == LastAssistant(p).value && p[k].role == "assistant"
                   && forall t :: k < t < |p| ==> p[t].role != "assistant";
          assert ms[k] == LastAssistant(ms).value;
        }
      }
    }
  }

  /** The reversed search of the final messages for the assistant's reply. */
  method FindAnswer(ms: seq<Message>) returns (reply: Option<Message>)
    ensures reply == LastAssistant(ms)
  {
    var i := |ms|;
    assert ms[..i] == ms;
    while i > 0
      invariant i <= |ms|
      invariant LastAssistant(ms) == LastAssistant(ms[..i])
      decreases i
    {
      if ms[i - 1].role == "assistant" {
        assert ms[..i][|ms[..i]| - 1] == ms[i - 1];
        return Some(ms[i - 1]);
      }
      assert ms[..i][..i - 1] == ms[..i - 1];
      i := i - 1;
    }
    assert ms[..i] == [];
    return None;
  }

  /** The response built from a run of the workflow: an exception is a 500
      with its message, an empty stream a 500, and otherwise the last
      assistant message of the final state is the answer unless it is
      missing or empty. */
  function Reply(t: Supervisor.Trace, id: string): Response {
    if t.raised.Some? then HttpError(500, t.raised.value)
    else if t.visited == [] then HttpError(500, ProcessingFailed)
    else match LastAssistant(t.state.qaMessages)
      case None => HttpError(500, NoAnswer)
      case Some(m) => if m.content == "" then HttpError(500, NoAnswer) else Answered(m.content, m.citations, id)
  }

  /** `ask_question` on the store's contents before the request. */
  function Ask(texts: map<string, string>, r: QuestionRequest, o: Supervisor.Oracles): Response {
    var text := Resolved(texts, r);
    if text == "" then HttpError(400, TextNotFound)
    else Reply(Supervisor.RunGraph(InitialQaState(r, text), o), r.documentId)
  }

  /** The run of a question: the router sends it to the question node,
      which runs alone, never raises, and appends exactly one message to the
      conversation when the question is non-empty and none otherwise. */
  lemma QaRun(r: QuestionRequest, text: string, o: Supervisor.Oracles)
    requires text != ""
    ensures var s := InitialQaState(r, text);
            var q := [Message("user", r.question, [])];
            var t := Supervisor.RunGraph(s, o);
            && t == Supervisor.Trace(["rag"], RagAgent.RagStep(s, o.answer), None)
            && (r.question == "" ==> t.state.qaMessages == q)
            && (r.question != "" ==> |t.state.qaMessages| == 2 && t.state.qaMessages[..1] == q
                                     && t.state.qaMessages[1].role == "assistant")
  {
    var s := InitialQaState(r, text);
    Supervisor.RunGraphRoutes(s, o);
    RagAgent.RagStepCases(s, o.answer);
    assert RagAgent.Question(s.qaMessages) == Some(r.question);
  }

  /** The responses of `ask_question`, end to end: no text is a 400 before
      the workflow runs; an empty question gets no answer; otherwise the
      model's non-empty answer is returned with no citations, an empty one
      is "No answer generated", and a failure of the model comes back as
      the apology, not as an HTTP error. */
  lemma AskOutcomes(texts: map<string, string>, r: QuestionRequest, o: Supervisor.Oracles)
    ensures var text, resp := Resolved(texts, r), Ask(texts, r, o);
            && (text == "" ==> resp == HttpError(400, TextNotFound))
            && (text != "" && r.question == "" ==> resp == HttpError(500, NoAnswer))
            && (text != "" && r.question != "" ==>
                  var x := o.answer(RagAgent.Context(text), r.question);
                  && (x.Ok? && x.value != "" ==> resp == Answered(x.value, [], r.documentId))
                  && (x.Ok? && x.value == "" ==> resp == HttpError(500, NoAnswer))
                  && (x.Fault? ==> resp == Answered(RagAgent.ErrorReply + x.message, [], r.documentId)))
  {
    var text := Resolved(texts, r);
    if text != "" {
      var s := InitialQaState(r, text);
      QaRun(r, text, o);
      var ms := Supervisor.RunGraph(s, o).state.qaMessages;
      assert LastAssistant([Message("user", r.question, [])]) == None;
      if r.question != "" {
        RagAgent.RagStepCases(s, o.answer);
        assert ms[..1] == ms[..|ms| - 1];
      }
    }
  }

  /** `ask_question`: the store is updated in place, the workflow is
      streamed on a fresh work item, and the reply is read back. */
  method AskQuestion(store: DocumentStore, g: Supervisor.StateGraph, r: QuestionRequest, o: Supervisor.Oracles)
    returns (resp: Response)
    requires g.nodes == Supervisor.WorkflowNodes && g.edges == Supervisor.WorkflowEdges && g.entry == Supervisor.EntryMap
    modifies store
    ensures store.texts == Stored(old(store.texts), r)
    ensures resp == Ask(old(store.texts), r, o)
  {
    if r.documentText != "" {
      store.Put(r.documentId, r.documentText);
    }
    var text := store.Get(r.documentId, r.documentText);
    if text == "" {
      return HttpError(400, TextNotFound);
    }
    var item := new WorkItem(InitialQaState(r, text));
    var visited, raised := Supervisor.Run(g, item, o);
    if raised.Some? {
      return HttpError(500, raised.value);
    }
    if visited == [] {
      return HttpError(500, ProcessingFailed);
    }
    var reply := FindAnswer(item.qaMessages);
    if reply.None? || reply.value.content == "" {
      return HttpError(500, NoAnswer);
    }
    resp := Answered(reply.value.content, reply.value.citations, r.documentId);
  }
}

/** The supervisor: the router at the entry of the workflow graph, the
    aggregator and error nodes, the graph built by registering nodes and
    edges, and a run of a work item through that graph. */
module Supervisor {
  import opened Outcomes
  import opened AgentState
  import ParserAgent
  import RiskAgent
  import ComplianceAgent
  import ComparisonAgent
  import RagAgent

  /** The graph framework's name of the terminal pseudo-node. */
  const End: string := "__end__"

  const ReportGenerated: string := "Report Generated"

  /** The code each registered node runs. */
  datatype Node = Parser | RiskAssessor | ComplianceChecker | Aggregator | ErrorHandler | Comparison | Rag

  /** The language-model chains and numerical services behind the nodes. */
  datatype Oracles = Oracles(
    classify: string -> Outcome<string>,
    assess: string -> Outcome<RiskAnalysis>,
    check: (string, string, string) -> Outcome<ComplianceResult>,
    aggregate: (seq<Risk>, seq<ComplianceResult>, seq<ParsedClause>) -> Outcome<string>,
    similarity: (string, string) -> real,
    explain: (string, string) -> Outcome<string>,
    answer: (string, string) -> Outcome<string>)

  // ---------------------------------------------------------------------
  // The graph as registered
  // ---------------------------------------------------------------------

  /** The nodes by name, as `add_node` registers them. */
  const WorkflowNodes: map<string, Node> := map[
    "parser" := Parser, "risk_assessor" := RiskAssessor, "compliance_checker" := ComplianceChecker,
    "aggregator" := Aggregator, "error" := ErrorHandler, "comparison" := Comparison, "rag" := Rag]

  /** The unconditional edges, as `add_edge` registers them. */
  const WorkflowEdges: set<(string, string)> := {
    ("parser", "risk_assessor"), ("risk_assessor", "compliance_checker"),
    ("compliance_checker", "aggregator"), ("aggregator", End),
    ("comparison", End), ("rag", End), ("error", End)}

  /** The path map of the conditional entry point: router key to target. */
  const EntryMap: map<string, string> := map[
    "parser" := "parser", "comparison" := "comparison", "rag" := "rag", "error" := "error", End := End]

  /** A registered node or the terminal. */
  predicate Known(name: string) {
    name in WorkflowNodes || name == End
  }

  /** `route_task`: an error wins over the task type, an unknown task type
      ends the run. */
  function RouteTask(s: State): (key: string)
    ensures key in EntryMap
  {
    if s.error != "" then "error"
    else if s.taskType == "analyze" then "parser"
    else if s.taskType == "compare" then "comparison"
    else if s.taskType == "qa" then "rag"
    else End
  }

  /** The successor of a node along its unconditional edge. */
  function Next(name: string): string {
    if name == "parser" then "risk_assessor"
    else if name == "risk_assessor" then "compliance_checker"
    else if name == "compliance_checker" then "aggregator"
    else End
  }

  /** The number of nodes left before the terminal. */
  function Rank(name: string): nat {
    if name == "parser" then 4
    else if name == "risk_assessor" then 3
    else if name == "compliance_checker" then 2
    else if name == End then 0
    else 1
  }

  /** Every node has exactly one outgoing edge, to `Next`, and no edge leaves
      anything else: the successor is fixed by the table, whatever the state. */
  lemma EdgesAreNext(a: string, b: string)
    ensures (a, b) in WorkflowEdges <==> a in WorkflowNodes && b == Next(a)
  {
  }

  /** Each edge leads to a known node nearer the terminal, so the graph is
      acyclic and every run reaches the terminal. */
  lemma Acyclic(a: string)
    requires a in WorkflowNodes
    ensures Known(Next(a)) && Rank(Next(a)) < Rank(a)
  {
  }

  /** Every target of the entry map is a known node: the key itself. */
  lemma EntryTargets(key: string)
    requires key in EntryMap
    ensures EntryMap[key] == key && Known(key)
  {
  }

  /** The nodes from `name` to the terminal, along the edges. */
  function Path(name: string): seq<string>
    requires Known(name)
    decreases Rank(name)
  {
    if name == End then [] else [name] + Path(Next(name))
  }

  const AnalyzePath: seq<string> := ["parser", "risk_assessor", "compliance_checker", "aggregator"]

  /** An analysis runs the parser, the risk assessor, the compliance checker
      and the aggregator; a comparison, a question and an error each run one
      node. */
  lemma Paths()
    ensures Path("parser") == AnalyzePath
    ensures Path("comparison") == ["comparison"] && Path("rag") == ["rag"] && Path("error") == ["error"]
  {
    assert Path("aggregator") == ["aggregator"];
    assert Path("compliance_checker") == ["compliance_checker", "aggregator"];
    assert Path("risk_assessor") == ["risk_assessor", "compliance_checker", "aggregator"];
  }

  // ---------------------------------------------------------------------
  // Building the graph
  // ---------------------------------------------------------------------

  /** The graph under construction: `StateGraph(AgentState)`. */
  class StateGraph {
    var nodes: map<string, Node>
    var edges: set<(string, string)>
    var entry: map<string, string>

    constructor ()
      ensures nodes == map[] && edges == {} && entry == map[]
    {
      nodes, edges, entry := map[], {}, map[];
    }

    /** `add_node`: a name already present, or the terminal's name, is
        refused and changes nothing. */
    method AddNode(name: string, action: Node) returns (added: bool)
      modifies this
      ensures added == (name !in old(nodes) && name != End)
      ensures nodes == if added then old(nodes)[name := action] else old(nodes)
      ensures edges == old(edges) && entry == old(entry)
    {
      added := name !in nodes && name != End;
      if added {
        nodes := nodes[name := action];
      }
    }

    /** `add_edge`. */
    method AddEdge(source: string, target: string)
      modifies this
      ensures edges == old(edges) + {(source, target)}
      ensures nodes == old(nodes) && entry == old(entry)
    {
      edges := edges + {(source, target)};
    }

    /** `set_conditional_entry_point` with `route_task` and its path map. */
    method SetConditionalEntryPoint(pathMap: map<string, string>)
      modifies this
      ensures entry == pathMap
      ensures nodes == old(nodes) && edges == old(edges)
    {
      entry := pathMap;
    }
  }

  /** The `add_node` calls of the module-level construction. */
  method AddWorkflowNodes(g: StateGraph)
    requires g.nodes == map[]
    modifies g
    ensures g.nodes == WorkflowNodes && g.edges == old(g.edges) && g.entry == old(g.entry)
  {
    var added;
    added := g.AddNode("parser", Parser);
    assert g.nodes == map["parser" := Parser];
    added := g.AddNode("risk_assessor", RiskAssessor);
    assert g.nodes == map["parser" := Parser, "risk_assessor" := RiskAssessor];
    added := g.AddNode("compliance_checker", ComplianceChecker);
    assert g.nodes == map["parser" := Parser, "risk_assessor" := RiskAssessor, "compliance_checker" := ComplianceChecker];
    added := g.AddNode("aggregator", Aggregator);
    assert g.nodes == map["parser" := Parser, "risk_assessor" := RiskAssessor, "compliance_checker" := ComplianceChecker, "aggregator" := Aggregator];
    added := g.AddNode("error", ErrorHandler);
    assert g.nodes == map["parser" := Parser, "risk_assessor" := RiskAssessor, "compliance_checker" := ComplianceChecker, "aggregator" := Aggregator, "error" := ErrorHandler];
    added := g.AddNode("comparison", Comparison);
    assert g.nodes == map["parser" := Parser, "risk_assessor" := RiskAssessor, "compliance_checker" := ComplianceChecker, "aggregator" := Aggregator, "error" := ErrorHandler, "comparison" := Comparison];
    added := g.AddNode("rag", Rag);
    assert g.nodes == map["parser" := Parser, "risk_assessor" := RiskAssessor, "compliance_checker" := ComplianceChecker, "aggregator" := Aggregator, "error" := ErrorHandler, "comparison" := Comparison, "rag" := Rag];
  }

  /** The `add_edge` calls of the module-level construction. */
  method AddWorkflowEdges(g: StateGraph)
    requires g.edges == {}
    modifies g
    ensures g.edges == WorkflowEdges && g.nodes == old(g.nodes) && g.entry == old(g.entry)
  {
    g.AddEdge("parser", "risk_assessor");
    g.AddEdge("risk_assessor", "compliance_checker");
    assert g.edges == {("parser", "risk_assessor"), ("risk_assessor", "compliance_checker")};
    g.AddEdge("compliance_checker", "aggregator");
    assert g.edges == {("parser", "risk_assessor"), ("risk_assessor", "compliance_checker"), ("compliance_checker", "aggregator")};
    g.AddEdge("aggregator", End);
    assert g.edges == {("parser", "risk_assessor"), ("risk_assessor", "compliance_checker"), ("compliance_checker", "aggregator"), ("aggregator", End)};
    g.AddEdge("comparison", End);
    assert g.edges == {("parser", "risk_assessor"), ("risk_assessor", "compliance_checker"), ("compliance_checker", "aggregator"), ("aggregator", End), ("comparison", End)};
    g.AddEdge("rag", End);
    assert g.edges == {("parser", "risk_assessor"), ("risk_assessor", "compliance_checker"), ("compliance_checker", "aggregator"), ("aggregator", End), ("comparison", End), ("rag", End)};
    g.AddEdge("error", End);
    assert g.edges == {("parser", "risk_assessor"), ("risk_assessor", "compliance_checker"), ("compliance_checker", "aggregator"), ("aggregator", End), ("comparison", End), ("rag", End), ("error", End)};
  }

  /** The module-level construction of `workflow`. */
  method BuildWorkflow() returns (g: StateGraph)
    ensures fresh(g)
    ensures g.nodes == WorkflowNodes && g.edges == WorkflowEdges && g.entry == EntryMap
  {
    g := new StateGraph();
    AddWorkflowNodes(g);
    g.SetConditionalEntryPoint(EntryMap);
    AddWorkflowEdges(g);
  }

  // ---------------------------------------------------------------------
  // The aggregator and error nodes
  // ---------------------------------------------------------------------

  /** `aggregator_node`: the report of the aggregation chain and the step
      label; an exception of the chain propagates. */
  function AggregatorStep(s: State, aggregate: (seq<Risk>, seq<ComplianceResult>, seq<ParsedClause>) -> Outcome<string>)
    : Outcome<State>
  {
    match aggregate(s.identifiedRisks, s.complianceResults, s.parsedClauses)
    case Ok(report) => Ok(s.(finalReport := report, currentStep := ReportGenerated))
    case Fault(e) => Fault(e)
  }

  /** The aggregator writes only the report, which is the chain's answer
      on the risks, the compliance results and the clauses, and the step
      label. */
  lemma AggregatorWrites(s: State, aggregate: (seq<Risk>, seq<ComplianceResult>, seq<ParsedClause>) -> Outcome<string>)
    ensures var r, x := AggregatorStep(s, aggregate), aggregate(s.identifiedRisks, s.complianceResults, s.parsedClauses);
            && (r.Ok? <==> x.Ok?)
            && (r.Ok? ==> r.value == s.(finalReport := x.value, currentStep := ReportGenerated))
            && (r.Fault? ==> r.message == x.message)
  {
  }

  method AggregatorNode(item: WorkItem, aggregate: (seq<Risk>, seq<ComplianceResult>, seq<ParsedClause>) -> Outcome<string>)
    returns (raised: Option<string>)
    modifies item
    ensures item.Value() == After(old(item.Value()), AggregatorStep(old(item.Value()), aggregate))
    ensures raised == RaisedBy(AggregatorStep(old(item.Value()), aggregate))
  {
    var report := aggregate(item.identifiedRisks, item.complianceResults, item.parsedClauses);
    if report.Fault? {
      return Some(report.message);
    }
    item.finalReport := report.value;
    item.currentStep := ReportGenerated;
    raised := None;
  }

  // ---------------------------------------------------------------------
  // Running the graph
  // ---------------------------------------------------------------------

  /** What one node does to the state. */
  function Step(n: Node, s: State, o: Oracles): Outcome<State> {
    match n
    case Parser => ParserAgent.ParserStep(s, o.classify)
    case RiskAssessor => Ok(RiskAgent.RiskStep(s, o.assess))
    case ComplianceChecker => Ok(ComplianceAgent.ComplianceStep(s, o.check))
    case Aggregator => AggregatorStep(s, o.aggregate)
    case ErrorHandler => Ok(s)
    case Comparison => ComparisonAgent.ComparisonStep(s, o.similarity, o.explain)
    case Rag => Ok(RagAgent.RagStep(s, o.answer))
  }

  /** The nodes a run executed, its last state and the exception that
      ended it, if one did. */
  datatype Trace = Trace(visited: seq<string>, state: State, raised: Option<string>)

  /** The run from node `name` on: each node's step, then its edge; an
      exception ends the run with the state before the failing node. */
  function RunFrom(name: string, s: State, o: Oracles): Trace
    requires Known(name)
    decreases Rank(name)
  {
    if name == End then Trace([], s, None)
    else match Step(WorkflowNodes[name], s, o)
      case Fault(e) => Trace([name], s, Some(e))
      case Ok(s') =>
        var t := RunFrom(Next(name), s', o);
        Trace([name] + t.visited, t.state, t.raised)
  }

  /** The run of `graph_app` on an initial state. */
  function RunGraph(s: State, o: Oracles): Trace {
    EntryTargets(RouteTask(s));
    RunFrom(EntryMap[RouteTask(s)], s, o)
  }

  /** A run from a node executes a prefix of the node's path, all of it
      when nothing raised, and an exception comes from the last node run. */
  lemma {:induction false} RunFromPath(name: string, s: State, o: Oracles)
    requires Known(name)
    ensures var t := RunFrom(name, s, o);
            && t.visited <= Path(name)
            && (t.raised.None? ==> t.visited == Path(name))
            && (t.raised.Some? ==> t.visited != [])
    decreases Rank(name)
  {
    if name != End {
      match Step(WorkflowNodes[name], s, o)
      case Fault(e) =>
      case Ok(s') =>
        RunFromPath(Next(name), s', o);
    }
  }

  /** The routes of a run, by the initial state: an error goes to the
      error node, which changes nothing; an analysis runs a prefix of the
      four analysis nodes and all four unless one raised; a comparison runs
      one node; a question runs one node that never raises; any other task
      type runs nothing and leaves the state as it was. */
  lemma RunGraphRoutes(s: State, o: Oracles)
    ensures var t := RunGraph(s, o);
            && (s.error != "" ==> t == Trace(["error"], s, None))
            && (s.error == "" && s.taskType == "analyze" ==>
                  t.visited <= AnalyzePath && (t.raised.None? ==> t.visited == AnalyzePath))
            && (s.error == "" && s.taskType == "compare" ==> t.visited == ["comparison"])
            && (s.error == "" && s.taskType == "qa" ==> t == Trace(["rag"], RagAgent.RagStep(s, o.answer), None))
            && (s.error == "" && s.taskType !in {"analyze", "compare", "qa"} ==> t == Trace([], s, None))
  {
    Paths();
    RunFromPath(EntryMap[RouteTask(s)], s, o);
    if s.error != "" {
      assert RunFrom(End, s, o) == Trace([], s, None);
    } else if s.taskType == "qa" {
      assert RunFrom(End, RagAgent.RagStep(s, o.answer), o) == Trace([], RagAgent.RagStep(s, o.answer), None);
    }
  }

  /** The agent step behind each node. */
  lemma StepOf(n: Node, s: State, o: Oracles)
    ensures n.Parser? ==> Step(n, s, o) == ParserAgent.ParserStep(s, o.classify)
    ensures n.RiskAssessor? ==> Step(n, s, o) == Ok(RiskAgent.RiskStep(s, o.assess))
    ensures n.ComplianceChecker? ==> Step(n, s, o) == Ok(ComplianceAgent.ComplianceStep(s, o.check))
    ensures n.Aggregator? ==> Step(n, s, o) == AggregatorStep(s, o.aggregate)
    ensures n.Comparison? ==> Step(n, s, o) == ComparisonAgent.ComparisonStep(s, o.similarity, o.explain)
  {
  }

  /** A node followed by a run: an exception ends it at the node with the
      state it had; otherwise the run goes on from the node's successor on
      the node's state. */
  lemma RunThrough(name: string, n: Node, s: State, o: Oracles)
    requires name in WorkflowNodes && WorkflowNodes[name] == n
    ensures Known(Next(name))
    ensures var r := Step(n, s, o);
            && (r.Fault? ==> RunFrom(name, s, o) == Trace([name], s, Some(r.message)))
            && (r.Ok? ==> var t := RunFrom(Next(name), r.value, o);
                          RunFrom(name, s, o) == Trace([name] + t.visited, t.state, t.raised))
  {
    Acyclic(name);
  }

  /** A node whose edge goes to the end, run alone. */
  lemma RunLast(name: string, n: Node, s: State, o: Oracles)
    requires name in WorkflowNodes && WorkflowNodes[name] == n && Next(name) == End
    ensures var r := Step(n, s, o);
            && (r.Fault? ==> RunFrom(name, s, o) == Trace([name], s, Some(r.message)))
            && (r.Ok? ==> RunFrom(name, s, o) == Trace([name], r.value, None))
  {
    RunThrough(name, n, s, o);
    var r := Step(n, s, o);
    if r.Ok? {
      assert RunFrom(End, r.value, o) == Trace([], r.value, None);
    }
  }

  /** The analysis nodes after the parser: the risk assessor and the
      compliance checker never raise, and the aggregator's report completes
      the run or its exception ends it with the compliance checker's state. */
  lemma AnalysisTail(q: State, o: Oracles)
    ensures var c := ComplianceAgent.ComplianceStep(RiskAgent.RiskStep(q, o.assess), o.check);
            var a, t := AggregatorStep(c, o.aggregate), RunFrom("risk_assessor", q, o);
            && (a.Ok? ==> t == Trace(["risk_assessor", "compliance_checker", "aggregator"], a.value, None))
            && (a.Fault? ==> t == Trace(["risk_assessor", "compliance_checker", "aggregator"], c, Some(a.message)))
  {
    AnalysisNodes();
    var r := RiskAgent.RiskStep(q, o.assess);
    StepOf(RiskAssessor, q, o);
    StepOf(ComplianceChecker, r, o);
    StepOf(Aggregator, ComplianceAgent.ComplianceStep(r, o.check), o);
    RunThrough("risk_assessor", RiskAssessor, q, o);
    RunThrough("compliance_checker", ComplianceChecker, r, o);
    RunLast("aggregator", Aggregator, ComplianceAgent.ComplianceStep(r, o.check), o);
  }

  /** The trace of the analysis route from the parser's trace and that of
      the nodes after it. */
  lemma AnalyzeAssemble(t: Trace, tr: Trace, c: State, a: Outcome<State>)
    requires t == Trace(["parser"] + tr.visited, tr.state, tr.raised)
    requires a.Ok? ==> tr == Trace(["risk_assessor", "compliance_checker", "aggregator"], a.value, None)
    requires a.Fault? ==> tr == Trace(["risk_assessor", "compliance_checker", "aggregator"], c, Some(a.message))
    ensures a.Ok? ==> t == Trace(AnalyzePath, a.value, None)
    ensures a.Fault? ==> t == Trace(AnalyzePath, c, Some(a.message))
  {
    assert ["parser"] + ["risk_assessor", "compliance_checker", "aggregator"] == AnalyzePath;
  }

  /** The run from the parser: a parser exception ends it there with the
      state as it was; otherwise the nodes after it run on the parser's
      state, and only the aggregator can still raise. */
  lemma ParserRun(s: State, o: Oracles)
    ensures var t, p := RunFrom("parser", s, o), ParserAgent.ParserStep(s, o.classify);
            && (p.Fault? ==> t == Trace(["parser"], s, Some(p.message)))
            && (p.Ok? ==>
                  var c := ComplianceAgent.ComplianceStep(RiskAgent.RiskStep(p.value, o.assess), o.check);
                  var a := AggregatorStep(c, o.aggregate);
                  && (a.Ok? ==> t == Trace(AnalyzePath, a.value, None))
                  && (a.Fault? ==> t == Trace(AnalyzePath, c, Some(a.message))))
  {
    AnalysisNodes();
    StepOf(Parser, s, o);
    RunThrough("parser", Parser, s, o);
    var p := ParserAgent.ParserStep(s, o.classify);
    if p.Ok? {
      var c := ComplianceAgent.ComplianceStep(RiskAgent.RiskStep(p.value, o.assess), o.check);
      AnalysisTail(p.value, o);
      AnalyzeAssemble(RunFrom("parser", s, o), RunFrom("risk_assessor", p.value, o), c, AggregatorStep(c, o.aggregate));
    }
  }

  /** The router sends an analysis without an error to the parser. */
  lemma AnalyzeEntry(s: State, o: Oracles)
    requires s.error == "" && s.taskType == "analyze"
    ensures RunGraph(s, o) == RunFrom("parser", s, o)
  {
    EntryTargets("parser");
  }

  /** The analysis route in full: only the parser and the aggregator can
      raise. A parser exception ends the run there with the state as it
      was; otherwise the risk assessor and the compliance checker run on
      the parser's state, and the aggregator's report completes the run or
      its exception ends it with the compliance checker's state. */
  lemma AnalyzeRun(s: State, o: Oracles)
    ensures s.error == "" && s.taskType == "analyze" ==>
              var t, p := RunGraph(s, o), ParserAgent.ParserStep(s, o.classify);
              && (p.Fault? ==> t == Trace(["parser"], s, Some(p.message)))
              && (p.Ok? ==>
                    var c := ComplianceAgent.ComplianceStep(RiskAgent.RiskStep(p.value, o.assess), o.check);
                    var a := AggregatorStep(c, o.aggregate);
                    && (a.Ok? ==> t == Trace(AnalyzePath, a.value, None))
                    && (a.Fault? ==> t == Trace(AnalyzePath, c, Some(a.message))))
  {
    if s.error == "" && s.taskType == "analyze" {
      AnalyzeEntry(s, o);
      ParserRun(s, o);
    }
  }

  /** The comparison node runs alone: its state ends the run, or its
      exception does with the state as it was. */
  lemma ComparisonTail(s: State, o: Oracles)
    ensures var t, c := RunFrom("comparison", s, o), ComparisonAgent.ComparisonStep(s, o.similarity, o.explain);
            && (c.Ok? ==> t == Trace(["comparison"], c.value, None))
            && (c.Fault? ==> t == Trace(["comparison"], s, Some(c.message)))
  {
    StepOf(Comparison, s, o);
    RunLast("comparison", Comparison, s, o);
  }

  /** The comparison route in full: the comparison node runs alone; its
      state completes the run, or its exception ends the run with the state
      as it was. */
  lemma CompareRun(s: State, o: Oracles)
    ensures s.error == "" && s.taskType == "compare" ==>
              var t, c := RunGraph(s, o), ComparisonAgent.ComparisonStep(s, o.similarity, o.explain);
              && (c.Ok? ==> t == Trace(["comparison"], c.value, None))
              && (c.Fault? ==> t == Trace(["comparison"], s, Some(c.message)))
  {
    if s.error == "" && s.taskType == "compare" {
      EntryTargets("comparison");
      assert RunGraph(s, o) == RunFrom("comparison", s, o);
      ComparisonTail(s, o);
    }
  }

  /** The code registered under each name of the analysis path. */
  lemma AnalysisNodes()
    ensures WorkflowNodes["parser"] == Parser && WorkflowNodes["risk_assessor"] == RiskAssessor
    ensures WorkflowNodes["compliance_checker"] == ComplianceChecker && WorkflowNodes["aggregator"] == Aggregator
    ensures Next("risk_assessor") == "compliance_checker" && Next("compliance_checker") == "aggregator" && Next("aggregator") == End
  {
  }

  /** The nodes after the parser run to the end whatever the state holds,
      and none of them touches the error. */
  lemma AggregatorTail(s: State, o: Oracles)
    ensures RunFrom("aggregator", s, o).visited == ["aggregator"]
    ensures RunFrom("aggregator", s, o).state.error == s.error
  {
    AnalysisNodes();
    var r := AggregatorStep(s, o.aggregate);
    if r.Ok? {
      assert RunFrom(End, r.value, o) == Trace([], r.value, None);
    }
  }

  lemma ComplianceTail(s: State, o: Oracles)
    ensures RunFrom("compliance_checker", s, o).visited == ["compliance_checker", "aggregator"]
    ensures RunFrom("compliance_checker", s, o).state.error == s.error
  {
    AnalysisNodes();
    AggregatorTail(ComplianceAgent.ComplianceStep(s, o.check), o);
  }

  lemma RiskTail(s: State, o: Oracles)
    ensures RunFrom("risk_assessor", s, o).visited == ["risk_assessor", "compliance_checker", "aggregator"]
    ensures RunFrom("risk_assessor", s, o).state.error == s.error
  {
    AnalysisNodes();
    ComplianceTail(RiskAgent.RiskStep(s, o.assess), o);
  }

  /** An error set by a node after the entry does not divert the run: an
      analysis of an empty text records the parser's error and still runs
      all four analysis nodes. */
  lemma ErrorDoesNotDivert(s: State, o: Oracles)
    requires s.error == "" && s.taskType == "analyze" && s.documentText == ""
    ensures RunGraph(s, o).visited == AnalyzePath
    ensures RunGraph(s, o).state.error == ParserAgent.NoDocumentText
  {
    AnalysisNodes();
    EntryTargets("parser");
    var s1 := s.(error := ParserAgent.NoDocumentText);
    assert RouteTask(s) == "parser";
    assert Step(Parser, s, o) == Ok(s1);
    RiskTail(s1, o);
  }

  /** The node methods, by the node registered under a name. */
  method ExecuteNode(n: Node, item: WorkItem, o: Oracles) returns (raised: Option<string>)
    modifies item
    ensures item.Value() == After(old(item.Value()), Step(n, old(item.Value()), o))
    ensures raised == RaisedBy(Step(n, old(item.Value()), o))
  {
    match n
    case Parser => raised := ParserAgent.ParserNode(item, o.classify);
    case RiskAssessor => RiskAgent.RiskNode(item, o.assess); raised := None;
    case ComplianceChecker => ComplianceAgent.ComplianceNode(item, o.check); raised := None;
    case Aggregator => raised := AggregatorNode(item, o.aggregate);
    case ErrorHandler => raised := None;
    case Comparison => raised := ComparisonAgent.ComparisonNode(item, o.similarity, o.explain);
    case Rag => RagAgent.RagNode(item, o.answer); raised := None;
  }

  /** One node of a run: an exception ends the run at that node with the
      state it had; otherwise the run goes on from the node's successor. */
  lemma RunStep(name: string, before: State, after: State, raised: Option<string>, o: Oracles)
    requires name in WorkflowNodes
    requires after == After(before, Step(WorkflowNodes[name], before, o))
    requires raised == RaisedBy(Step(WorkflowNodes[name], before, o))
    ensures Known(Next(name)) && Rank(Next(name)) < Rank(name)
    ensures raised.Some? ==> RunFrom(name, before, o) == Trace([name], after, raised)
    ensures raised.None? ==>
              var t := RunFrom(Next(name), after, o);
              RunFrom(name, before, o) == Trace([name] + t.visited, t.state, t.raised)
  {
    Acyclic(name);
  }

  /** Streaming the compiled graph on a work item: the router picks the
      entry, then each node runs and its single edge gives the next one,
      until the terminal or an exception. */
  method Run(g: StateGraph, item: WorkItem, o: Oracles) returns (visited: seq<string>, raised: Option<string>)
    requires g.nodes == WorkflowNodes && g.edges == WorkflowEdges && g.entry == EntryMap
    modifies item
    ensures RunGraph(old(item.Value()), o) == Trace(visited, item.Value(), raised)
  {
    var key := RouteTask(item.Value());
    EntryTargets(key);
    var current := g.entry[key];
    visited := [];
    raised := None;
    while current != End
      invariant Known(current) && raised.None?
      invariant RunGraph(old(item.Value()), o) ==
                  var t := RunFrom(current, item.Value(), o);
                  Trace(visited + t.visited, t.state, t.raised)
      decreases Rank(current)
    {
      ghost var before := item.Value();
      ghost var done := visited;
      raised := ExecuteNode(g.nodes[current], item, o);
      RunStep(current, before, item.Value(), raised, o);
      visited := visited + [current];
      if raised.Some? {
        return;
      }
      EdgesAreNext(current, Next(current));
      var target :| (current, target) in g.edges;
      EdgesAreNext(current, target);
      assert visited + RunFrom(target, item.Value(), o).visited == done + ([current] + RunFrom(target, item.Value(), o).visited);
      current := target;
    }
  }
}

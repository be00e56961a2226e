# Legal contract analysis pipeline: the deterministic core

This project models the deterministic logic of a contract-analysis
service. The backend runs a LangGraph workflow. A supervisor routes each
request to one of three pipelines:

- an analysis pipeline: clause parser, risk assessor, compliance checker
  and report aggregator;
- a document comparison;
- a question-and-answer node.

An HTTP endpoint serves the questions. A Word add-in renders the results.
Every call to a language model is an *oracle*: a function value given to
the model. It returns `Ok(value)`, or `Fault(message)` when the call
raises. The similarity of two clause texts, computed in the source by the
embedding model and the cosine similarity, is an oracle that always
answers with a real number.

One module per source file:

| module | file | what it holds |
|---|---|---|
| `Outcomes` | outcomes.dfy | `Option` and `Outcome` (`Ok`/`Fault`) |
| `Text` | text.dfy | ASCII character classes, Python `strip` and JS `trim`, split and join on one character, `splitlines` on `'\n'` |
| `AgentState` | agent_state.dfy | the state record as a value (`State`) and as the object the nodes update in place (`WorkItem`) |
| `DocumentParser` | document_parser.dfy | the clause pattern, `extract_clauses` as a loop, `clean_text`, `parse_document` |
| `ParserAgent` | parser_agent.dfy | per-clause classification and the parser node |
| `RiskAgent` | risk_agent.dfy | the prompt text, the fallback and the risk node |
| `ComplianceAgent` | compliance_agent.dfy | the GDPR rule table, the whole-word keyword check, the per-rule verdicts and the node |
| `ComparisonAgent` | comparison_agent.dfy | the greedy clause aligner over a similarity matrix and the comparison node |
| `RagAgent` | rag_agent.dfy | the question lookup, the guards and the message append |
| `Supervisor` | supervisor.dfy | `route_task`, the graph built by `add_node`/`add_edge`, the aggregator and error nodes, and a run of the graph |
| `QaApi` | qa_api.dfy | the document store, the initial state and the answer lookup of `ask_question` |
| `JsObject` | js_object.dfy | `table[key] \|\| fallback` on an object literal, with the names inherited from `Object.prototype` |
| `Taskpane` | taskpane.dfy | `determineOverallScore`, `formatReport` and the highlight colours |
| `Components` | components.dfy | `truncateText` and the risk summary, risk cards, clause breakdown and analysis summary builders |

Routines that loop and mutate in the source are methods with loop
invariants:

- `extract_clauses`
- the comparison loops
- `_keyword_check` and the compliance loop
- the classification loop
- the reversed message searches
- the graph construction and the graph run
- the clause grouping of the breakdown

Each method is proved equal to a specification function. The lemmas state
what the source promises about those functions.

The comparison method handles one A clause per call to `AlignRow`. The
source has this code inline in its loop.

The comparison is specified in two layers:

- `Plan` lists the records to emit, by clause index: pairs, removals and
  additions.
- `Render` turns the plan into `Change` records, asking the explanation
  oracle once for each pair. A failure of the oracle ends the comparison
  with that failure.

The model follows the code in these edge cases:

- A similarity of exactly 0.98 is a modification candidate, not identical.
- An A clause whose best B clause was already taken by a modification gets
  no record at all: neither modified nor removed.
- A comparison with no clauses on either side fails, as the similarity
  computation does on an empty matrix.
- The router runs only at the entry. An `error` set by a node after the
  entry does not divert the run to the error node.
- An exception of the parser's classifier, of the explanation oracle or of
  the aggregation chain propagates out of the run. An exception of the risk,
  compliance or question model is caught.
- An unknown task type ends the run at once and leaves the state
  unchanged, including `current_step`.
- Classification asks the model once per clause.
- A failed model call in the question node is answered with status 200 and
  the apology text as the answer, not as an HTTP error.

## Model

| member | source | states |
|---|---|---|
| ComparisonAgent.ArgMax | backend/app/agents/comparison_agent.py:69 | the index chosen in a non-empty row is inside the row |
| ComparisonAgent.ArgMaxIs | backend/app/agents/comparison_agent.py:69 | the chosen index holds the row's maximum and every earlier index holds less: it is the first index of the maximum |
| ComparisonAgent.Best | backend/app/agents/comparison_agent.py:69 | the best match of an A clause is a valid B index |
| ComparisonAgent.ClaimedIs | backend/app/agents/comparison_agent.py:72-77 | a B index is matched after the first i A clauses exactly when one of them has it as best match with a score above 0.75 |
| ComparisonAgent.RowVerdict | backend/app/agents/comparison_agent.py:69-87 | for each A clause: above 0.98 there is no record and its best index is matched; from above 0.75 to 0.98 with an unmatched best index there is exactly one modified pair with it; with a matched best index there is no record; at 0.75 or below there is exactly one removal |
| ComparisonAgent.RowEntriesShape | backend/app/agents/comparison_agent.py:72-87 | a clause emits at most one entry, about itself; a pair is with its best match, above 0.75, and with an index not yet matched |
| ComparisonAgent.RowsPlanPart | backend/app/agents/comparison_agent.py:67-87 | the entries about A clause k in the whole plan of the A loop are exactly the ones it emits |
| ComparisonAgent.RowsPlanPartAbove | backend/app/agents/comparison_agent.py:67-87 | the first i clauses emit nothing about a later clause |
| ComparisonAgent.RowsPlanPartStays | backend/app/agents/comparison_agent.py:67-87 | later clauses add nothing to the entries about clause k |
| ComparisonAgent.AddedPlanStep | backend/app/agents/comparison_agent.py:90-92 | one step of the B pass adds the index's addition exactly when it is unmatched |
| ComparisonAgent.AddedPlanPart | backend/app/agents/comparison_agent.py:90-92 | the B pass emits nothing about A clauses |
| ComparisonAgent.AddedPlanColumn | backend/app/agents/comparison_agent.py:90-92 | the B pass emits one addition for each unmatched index below its bound and nothing else about any B index |
| ComparisonAgent.RowsPlanColumn | backend/app/agents/comparison_agent.py:67-87 | the A loop emits at most one entry about a B index, a modified pair, and only for a matched index |
| ComparisonAgent.ColumnOnce | backend/app/agents/comparison_agent.py:62-92 | no B index is in two records; it is added exactly when it is unmatched after the A loop; when it is in a pair it is matched |
| ComparisonAgent.RowsPlanOrdered | backend/app/agents/comparison_agent.py:67-87 | the A loop's entries are in A order and are about the clauses seen so far |
| ComparisonAgent.AddedPlanOrdered | backend/app/agents/comparison_agent.py:90-92 | the additions are in B order and below their bound |
| ComparisonAgent.PlanOrdered | backend/app/agents/comparison_agent.py:62-92 | records are in A order, then every addition after every A record, in B order |
| ComparisonAgent.RowsPlanLength | backend/app/agents/comparison_agent.py:67-87 | the A loop emits at most one entry per clause |
| ComparisonAgent.AddedPlanLength | backend/app/agents/comparison_agent.py:90-92 | the B pass emits at most one entry per clause |
| ComparisonAgent.PlanLength | backend/app/agents/comparison_agent.py:62-92 | there are at most m + n records |
| ComparisonAgent.PlanInRange | backend/app/agents/comparison_agent.py:62-92 | every record names clauses that exist |
| ComparisonAgent.RowsPlanIn | backend/app/agents/comparison_agent.py:67-87 | every entry of the A loop names clauses that exist |
| ComparisonAgent.RowsPlanColumnRange | backend/app/agents/comparison_agent.py:78 | every pair names an existing B clause |
| ComparisonAgent.RowsPlanPrefix | backend/app/agents/comparison_agent.py:67-87 | the entries emitted after i clauses are a prefix of those emitted after any later count |
| ComparisonAgent.RenderSnoc | backend/app/agents/comparison_agent.py:80-92 | rendering one more entry is rendering the plan, then emitting that entry |
| ComparisonAgent.RenderFaultStays | backend/app/agents/comparison_agent.py:79 | once the explanation oracle has failed, later entries change nothing: the exception ends the run |
| ComparisonAgent.EmitOk | backend/app/agents/comparison_agent.py:78-92 | an entry's emission succeeds exactly when it is not a pair or the oracle explains the pair; it then appends the entry's record and asks the oracle only for a pair |
| ComparisonAgent.RenderExplained | backend/app/agents/comparison_agent.py:79 | a rendering succeeds exactly when the oracle explains every pair of the plan |
| ComparisonAgent.RenderRecords | backend/app/agents/comparison_agent.py:80-92 | a successful rendering has one record per entry, in order, each with its clause numbers and texts and its explanation, and asks the oracle exactly the two texts of each pair, in order |
| ComparisonAgent.RowKept | backend/app/agents/comparison_agent.py:73-76 | an identical clause, or a modified one whose best match is taken, emits nothing and leaves its best index matched |
| ComparisonAgent.RowPaired | backend/app/agents/comparison_agent.py:75-85 | a modified clause with an untaken best match emits its pair and matches the index |
| ComparisonAgent.RowRemoved | backend/app/agents/comparison_agent.py:86-87 | a clause with no good match emits its removal and matches nothing |
| ComparisonAgent.RowFault | backend/app/agents/comparison_agent.py:79 | after a failure of the oracle the rendering of any longer prefix of the A loop is the failed one |
| ComparisonAgent.PairStep | backend/app/agents/comparison_agent.py:76-85 | the pair step asks the oracle about the two texts; its failure is the outcome of the whole A loop, and its answer appends the modified record with both numbers and texts |
| ComparisonAgent.RemoveStep | backend/app/agents/comparison_agent.py:86-87 | the removal step appends the record with empty B number and text and the fixed explanation, without asking the oracle |
| ComparisonAgent.AlignRow | backend/app/agents/comparison_agent.py:68-87 | one pass of the A loop keeps the matched set equal to the specification's and the records and requests equal to the rendering of the plan so far, or returns the oracle's failure as the outcome of the loop |
| ComparisonAgent.AlignRows | backend/app/agents/comparison_agent.py:62-87 | the A loop's result is the rendering of the A part of the plan, and its matched set is the specification's |
| ComparisonAgent.ColumnStep | backend/app/agents/comparison_agent.py:90-92 | one B index emits its addition exactly when it is not matched |
| ComparisonAgent.AddColumns | backend/app/agents/comparison_agent.py:89-92 | the B loop's result is the rendering of the whole plan |
| ComparisonAgent.Compare | backend/app/agents/comparison_agent.py:44-94 | `run` on the clauses and their matrix computes `Comparison`: a failure for an empty side, else the rendering of the plan |
| ComparisonAgent.Comparison | backend/app/agents/comparison_agent.py:60-94 | `run` after the similarity matrix: a failure for an empty side, else the rendering of the plan; its properties are in RowVerdict, ColumnOnce, PlanOrdered, RenderExplained and RenderRecords |
| ComparisonAgent.Plan | backend/app/agents/comparison_agent.py:62-92 | the records of both passes, by clause index; stated by RowVerdict, ColumnOnce, PlanOrdered, PlanLength and PlanInRange |
| ComparisonAgent.RowEntries | backend/app/agents/comparison_agent.py:69-87 | the records of one A clause; stated by RowEntriesShape and RowVerdict |
| ComparisonAgent.Render | backend/app/agents/comparison_agent.py:78-92 | the change records of a plan and the explanation requests; stated by RenderExplained, RenderRecords and RenderFaultStays |
| ComparisonAgent.ComparisonStep | backend/app/agents/comparison_agent.py:97-105 | `comparison_node` on the state; stated by ComparisonStepWrites |
| ComparisonAgent.SimilarityMatrix | backend/app/agents/comparison_agent.py:60 | the matrix is m by n and entry (i, j) is the similarity of A clause i's text and B clause j's text |
| ComparisonAgent.ComparisonStepWrites | backend/app/agents/comparison_agent.py:101-103 | the node writes only the comparison result and the step "Comparison Complete" |
| ComparisonAgent.ComparisonNode | backend/app/agents/comparison_agent.py:97-105 | the node updates the work item in place to the step's state and reports the exception the step raises |
| Supervisor.RouteTask | backend/app/agents/supervisor.py:82-99 | the router's answer is always a key of the entry path map |
| Supervisor.RunGraphRoutes | backend/app/agents/supervisor.py:82-133 | an error runs only the error node, which changes nothing; without an error an analysis runs a prefix of parser, risk assessor, compliance checker and aggregator, all of it unless a node raises; a comparison and a question each run one node, the question's state being the question node's; any other task type runs nothing and changes nothing (the final state of the other routes is in AnalyzeRun and CompareRun) |
| Supervisor.AnalyzeRun | backend/app/agents/supervisor.py:103-133 | an analysis without an error: a parser exception ends the run at the parser with the state as it was; otherwise the risk and compliance steps run on the parser's state, and the aggregator's report gives the final state or its exception ends the run after all four nodes with the compliance state; no other node raises |
| Supervisor.ParserRun | backend/app/agents/supervisor.py:106-133 | a run from the parser: its exception ends the run there with the state as it was; otherwise the aggregator's outcome on the risk and compliance steps of the parser's state ends the run after all four nodes |
| Supervisor.AnalyzeEntry | backend/app/agents/supervisor.py:82-93 | the router sends an analysis without an error to the parser |
| Supervisor.AnalyzeAssemble | backend/app/agents/supervisor.py:127-130 | the parser's node followed by the three later nodes is the whole analysis path |
| Supervisor.StepOf | backend/app/agents/supervisor.py:106-112 | each registered node runs its agent's step; the risk and compliance steps never raise |
| Supervisor.ComparisonTail | backend/app/agents/supervisor.py:111-133 | the comparison node's state ends the run, or its exception does with the state as it was |
| Supervisor.AnalysisTail | backend/app/agents/supervisor.py:128-130 | after the parser, the risk and compliance nodes never raise and the aggregator's outcome decides the end of the run |
| Supervisor.CompareRun | backend/app/agents/supervisor.py:115-133 | a comparison without an error runs only the comparison node; its state is the final state, or its exception ends the run with the state as it was |
| Supervisor.RunThrough | backend/app/agents/supervisor.py:127-133 | a node's exception ends the run there with the state it had; otherwise the run goes on from its successor on the node's state |
| Supervisor.RunLast | backend/app/agents/supervisor.py:130-133 | a node whose edge goes to the end gives the final state, or its exception |
| Supervisor.EdgesAreNext | backend/app/agents/supervisor.py:127-133 | every node has exactly one outgoing edge, to its successor in the table, and no edge leaves anything else |
| Supervisor.Acyclic | backend/app/agents/supervisor.py:127-133 | each edge leads to a known node with a smaller rank, so the graph is acyclic and every path reaches the end |
| Supervisor.EntryTargets | backend/app/agents/supervisor.py:115-124 | the entry path map sends each key to the node of the same name, which exists |
| Supervisor.Paths | backend/app/agents/supervisor.py:127-133 | the path from the parser is parser, risk assessor, compliance checker, aggregator; the comparison, question and error paths are one node each |
| Supervisor.StateGraph.constructor | backend/app/agents/supervisor.py:103 | a new graph has no nodes, edges or entry map |
| Supervisor.StateGraph.AddNode | backend/app/agents/supervisor.py:106-112 | adding a node refuses a name already there or the end's name; otherwise it maps the name to the action, and nothing else changes |
| Supervisor.StateGraph.AddEdge | backend/app/agents/supervisor.py:127-133 | adding an edge adds exactly that pair |
| Supervisor.StateGraph.SetConditionalEntryPoint | backend/app/agents/supervisor.py:115-124 | the entry map becomes the given path map and nothing else changes |
| Supervisor.AddWorkflowNodes | backend/app/agents/supervisor.py:106-112 | the seven `add_node` calls give exactly the node table |
| Supervisor.AddWorkflowEdges | backend/app/agents/supervisor.py:127-133 | the seven `add_edge` calls give exactly the edge table |
| Supervisor.BuildWorkflow | backend/app/agents/supervisor.py:103-133 | the module-level construction gives a fresh graph with exactly the node table, the edge table and the entry map |
| Supervisor.AggregatorStep | backend/app/agents/supervisor.py:59-73 | `aggregator_node`: the chain's report and the step, or its exception; stated by AggregatorWrites |
| Supervisor.AggregatorWrites | backend/app/agents/supervisor.py:59-73 | the aggregator succeeds exactly when the chain does, then writes only the report and the step "Report Generated"; a failure of the chain propagates |
| Supervisor.AggregatorNode | backend/app/agents/supervisor.py:59-73 | the node updates the work item in place to the step's state and reports the exception the step raises |
| Supervisor.RunFromPath | backend/app/agents/supervisor.py:127-133 | a run from a node executes a prefix of its path, all of it when nothing raises; an exception comes after at least one node |
| Supervisor.AnalysisNodes | backend/app/agents/supervisor.py:106-130 | the analysis nodes carry their own actions and follow each other to the end |
| Supervisor.AggregatorTail | backend/app/agents/supervisor.py:59-73 | a run from the aggregator runs only it and keeps the error field |
| Supervisor.ComplianceTail | backend/app/agents/supervisor.py:129-130 | a run from the compliance checker runs it and the aggregator and keeps the error field |
| Supervisor.RiskTail | backend/app/agents/supervisor.py:128-130 | a run from the risk assessor runs the last three analysis nodes and keeps the error field |
| Supervisor.ErrorDoesNotDivert | backend/app/agents/supervisor.py:115-133 | an analysis without document text runs all four analysis nodes and ends with the parser's error set: the error does not divert the run |
| Supervisor.ExecuteNode | backend/app/agents/supervisor.py:106-112 | executing a node updates the work item to the node's step and reports its exception |
| Supervisor.Step | backend/app/agents/supervisor.py:106-112 | the step of the node registered under each name; stated by ExecuteNode and the agents' step lemmas |
| Supervisor.RunFrom | backend/app/agents/supervisor.py:127-133 | a run from a node along the edges; stated by RunFromPath, RunThrough and RunLast |
| Supervisor.RunGraph | backend/app/agents/supervisor.py:115-133 | a run from the router's entry; stated by RunGraphRoutes, AnalyzeRun and CompareRun |
| Supervisor.RunStep | backend/app/agents/supervisor.py:127-133 | a step of a run leads to the node's single successor; an exception ends the run at that node |
| Supervisor.Run | backend/app/agents/supervisor.py:115-133 | running the built graph on a work item updates it in place to the final state of the run and returns the nodes visited and the exception raised |
| DocumentParser.SkipSpace | backend/app/utils/document_parser.py:94 | the index after a maximal whitespace run |
| DocumentParser.NumberEnd | backend/app/utils/document_parser.py:94 | the index after a maximal run of digits and dots |
| DocumentParser.AlnumEnd | backend/app/utils/document_parser.py:94 | the index after a maximal alphanumeric run |
| DocumentParser.LabelEnd | backend/app/utils/document_parser.py:94 | the end of the label is not before its start |
| DocumentParser.MatchNumbered | backend/app/utils/document_parser.py:102 | a match ends inside the line |
| DocumentParser.ScannedNumber | backend/app/utils/document_parser.py:94 | a scanned digit run is a number label |
| DocumentParser.ScannedParen | backend/app/utils/document_parser.py:94 | a scanned parenthesised run is a parenthesised label |
| DocumentParser.MatchSound | backend/app/utils/document_parser.py:94-102 | a match is some whitespace, a label of one of the two forms, and a non-empty whitespace run that ends where the match ends |
| DocumentParser.MatchComplete | backend/app/utils/document_parser.py:94-102 | every way the line fits the pattern is the match found: the matcher finds it with that label and end |
| DocumentParser.MatchAt | backend/app/utils/document_parser.py:94-102 | a line laid out as whitespace, label and whitespace is matched with that label and end |
| DocumentParser.NumberedAt | backend/app/utils/document_parser.py:94 | such a layout is a fit of the pattern |
| DocumentParser.SkipSpaceStops | backend/app/utils/document_parser.py:94 | the whitespace skip stops at the first other character |
| DocumentParser.NumberEndStops | backend/app/utils/document_parser.py:94 | the number scan stops at the first character that is neither digit nor dot |
| DocumentParser.AlnumEndStops | backend/app/utils/document_parser.py:94 | the alphanumeric scan stops at the first other character |
| DocumentParser.LabelEndOf | backend/app/utils/document_parser.py:94 | a label followed by whitespace is scanned whole |
| DocumentParser.ParenEndOf | backend/app/utils/document_parser.py:94 | the alphanumeric run of a parenthesised label ends at its closing parenthesis |
| DocumentParser.LeadOf | backend/app/utils/document_parser.py:94 | the leading whitespace skip ends at the label |
| DocumentParser.TrailOf | backend/app/utils/document_parser.py:94 | the trailing whitespace skip ends where the match ends |
| DocumentParser.LabelUnpadded | backend/app/utils/document_parser.py:112 | the label has no outer whitespace, so stripping it changes nothing |
| DocumentParser.Classify | backend/app/utils/document_parser.py:102-118 | a line is numbered exactly when it matches; an unnumbered line keeps its text |
| DocumentParser.Scan | backend/app/utils/document_parser.py:101 | one classified line per line |
| DocumentParser.ScanAt | backend/app/utils/document_parser.py:101-102 | the scan classifies each line on its own |
| DocumentParser.ScanDrop | backend/app/utils/document_parser.py:101 | the scan of a suffix is the suffix of the scan |
| DocumentParser.FirstLabelled | backend/app/utils/document_parser.py:103-118 | the position of the first numbered line, every line before it unnumbered |
| DocumentParser.Render | backend/app/utils/document_parser.py:106-125 | one clause per segment |
| DocumentParser.RenderAt | backend/app/utils/document_parser.py:106-125 | each clause has its segment's number and its stripped joined content |
| DocumentParser.PendingSkip | backend/app/utils/document_parser.py:116 | an unnumbered line before any clause is dropped |
| DocumentParser.PendingExtend | backend/app/utils/document_parser.py:116-118 | an unnumbered line joins the open clause |
| DocumentParser.PendingNumbered | backend/app/utils/document_parser.py:103-115 | a numbered line closes the open clause, if any, and opens its own with the rest of the line |
| DocumentParser.FeedFinishNumbered | backend/app/utils/document_parser.py:103-115 | a numbered line's turn of the loop keeps the clauses still to come |
| DocumentParser.FeedFinishPlain | backend/app/utils/document_parser.py:116-118 | an unnumbered line's turn of the loop keeps the clauses still to come |
| DocumentParser.FeedFinish | backend/app/utils/document_parser.py:101-118 | every turn of the loop keeps the closed clauses plus those still to come |
| DocumentParser.FeedAllFinish | backend/app/utils/document_parser.py:101-118 | after any number of lines the loop's state and the lines left give the clauses of the text |
| DocumentParser.FeedAllClauses | backend/app/utils/document_parser.py:101-125 | the loop's state after all lines, closed at the end, is the clauses of the text |
| DocumentParser.ExtractClauses | backend/app/utils/document_parser.py:88-127 | `extract_clauses` computes `ClausesOf` on the lines of the text |
| DocumentParser.ClausesOf | backend/app/utils/document_parser.py:88-127 | the clauses of a text's lines; stated by ClauseNumbersAreLabels, ClauseOfLine and LeadingLinesDiscarded |
| DocumentParser.SegmentNumbers | backend/app/utils/document_parser.py:106-125 | one number per segment |
| DocumentParser.SegmentNumbersAt | backend/app/utils/document_parser.py:106-125 | each segment number is its segment's |
| DocumentParser.LabelsPlain | backend/app/utils/document_parser.py:116 | unnumbered lines contribute no label |
| DocumentParser.LabelsAtFirst | backend/app/utils/document_parser.py:103-112 | the labels start with the first numbered line's |
| DocumentParser.OpenSegmentTail | backend/app/utils/document_parser.py:116-118 | an open clause takes the unnumbered lines up to the next numbered one |
| DocumentParser.SegmentNumbersAreLabels | backend/app/utils/document_parser.py:103-125 | the segment numbers are the labels of the numbered lines, in order |
| DocumentParser.ClauseNumbersAreLabels | backend/app/utils/document_parser.py:94-127 | exactly one clause per numbered line, in line order, numbered with its label; no numbered line gives no clause |
| DocumentParser.SegmentsSuffix | backend/app/utils/document_parser.py:101-125 | the segments from a numbered line on come after one segment per earlier numbered line |
| DocumentParser.SegmentAt | backend/app/utils/document_parser.py:103-118 | the segment of a numbered line holds its label, its opening and the unnumbered lines after it |
| DocumentParser.FirstLabelledAt | backend/app/utils/document_parser.py:103-118 | the first numbered line of a suffix is the first one after its start |
| DocumentParser.ScanPlain | backend/app/utils/document_parser.py:116-118 | unmatched lines scan as plain lines with their text |
| DocumentParser.ClauseOfLine | backend/app/utils/document_parser.py:103-125 | the clause of a numbered line has its label and, as content, the stripped rest of the line followed by the unnumbered lines up to the next numbered one, joined and stripped |
| DocumentParser.LeadingLinesDiscarded | backend/app/utils/document_parser.py:116 | lines before the first numbered line change nothing |
| DocumentParser.CollapseSpace | backend/app/utils/document_parser.py:83 | the substitution keeps a first non-space character and turns a first whitespace character into a space |
| DocumentParser.VisibleConcat | backend/app/utils/document_parser.py:83 | the visible characters of a concatenation are those of its parts |
| DocumentParser.VisibleOfSpace | backend/app/utils/document_parser.py:83 | whitespace has no visible characters |
| DocumentParser.CollapseSpaceNormal | backend/app/utils/document_parser.py:83 | after the substitution every whitespace is a single space, and the visible characters are kept |
| DocumentParser.CollapseSingleSpaced | backend/app/utils/document_parser.py:83 | the substitution changes nothing on single-spaced text |
| DocumentParser.CleanTextIsStripCollapse | backend/app/utils/document_parser.py:83-86 | `clean_text` is the substitution followed by one strip: the split into lines does nothing more |
| DocumentParser.SliceSingleSpaced | backend/app/utils/document_parser.py:85 | a slice of single-spaced text is single-spaced |
| DocumentParser.VisibleStrip | backend/app/utils/document_parser.py:86 | stripping removes only whitespace |
| DocumentParser.StripSingleSpaced | backend/app/utils/document_parser.py:86 | stripping keeps a text single-spaced |
| DocumentParser.SingleSpacedNoNewline | backend/app/utils/document_parser.py:83 | single-spaced text has no newline |
| DocumentParser.CleanTextNormal | backend/app/utils/document_parser.py:78-86 | the result has no outer whitespace and no newline, every whitespace run is one space, and the visible characters are kept |
| DocumentParser.CleanText | backend/app/utils/document_parser.py:78-86 | `clean_text`; stated by CleanTextIsStripCollapse, CleanTextNormal and CleanTextIdempotent |
| DocumentParser.CleanTextIdempotent | backend/app/utils/document_parser.py:78-86 | cleaning twice is cleaning once |
| DocumentParser.ParseDocument | backend/app/utils/document_parser.py:59-75 | ".docx" selects the Word reader, ".pdf" the PDF reader, anything else is the unsupported-type error |
| ParserAgent.ClassifiedSucceeds | backend/app/agents/parser_agent.py:56-66 | classification succeeds exactly when the classifier answers for every clause |
| ParserAgent.Classified | backend/app/agents/parser_agent.py:56-66 | the classification of the clauses; stated by ClassifiedSucceeds, ClassifiedOk and ClassifiedFault |
| ParserAgent.ParserStep | backend/app/agents/parser_agent.py:74-94 | `parser_node` on the state; stated by ParserStepCases |
| ParserAgent.ClassifiedOk | backend/app/agents/parser_agent.py:56-68 | success asks the classifier once per clause, in order, and gives one entry per clause with its number, its content as text and the stripped category |
| ParserAgent.ClassifiedFault | backend/app/agents/parser_agent.py:57-59 | a failure is the first failing clause's: the classifier was asked about that clause and every earlier one, once each, and answered the earlier ones |
| ParserAgent.ClassifiedFaultStays | backend/app/agents/parser_agent.py:57-59 | after a failure no further clause is classified |
| ParserAgent.CategoriesStripped | backend/app/agents/parser_agent.py:64 | every category has no outer whitespace |
| ParserAgent.ClassifyAll | backend/app/agents/parser_agent.py:56-68 | the classification loop computes `Classified` |
| ParserAgent.Run | backend/app/agents/parser_agent.py:46-68 | `run` classifies the clauses extracted from the text |
| ParserAgent.ParserStepCases | backend/app/agents/parser_agent.py:74-94 | without a text only the error is set; with one the node raises exactly when the classifier fails on some clause, and otherwise writes one parsed clause per extracted clause, with its number and text, and the step "Parsing Complete", and nothing else |
| ParserAgent.ParserNode | backend/app/agents/parser_agent.py:74-94 | the node updates the work item to the step's state and reports the exception the step raises |
| RiskAgent.ClausesTextSnoc | backend/app/agents/risk_agent.py:79-81 | the prompt text is the clause lines in order, separated by a blank line |
| RiskAgent.ClausesText | backend/app/agents/risk_agent.py:79-81 | the prompt text; stated by ClausesTextSnoc and ClausesTextStart |
| RiskAgent.Assessment | backend/app/agents/risk_agent.py:72-91 | the model is asked once, about the prompt text; its analysis is returned as it is, and when it raises the result is no risks with the overall score "unknown" |
| RiskAgent.RiskStep | backend/app/agents/risk_agent.py:95-117 | `risk_assessment_node` on the state; stated by RiskStepCases |
| RiskAgent.ClausesTextStart | backend/app/agents/risk_agent.py:80 | the prompt text starts with the first clause's "Clause number: " |
| RiskAgent.RiskStepCases | backend/app/agents/risk_agent.py:72-117 | without clauses nothing changes, not even the step; otherwise only the risks and the step "Risk Assessment Complete" change, the risks being the model's or none when it raised |
| RiskAgent.RiskNode | backend/app/agents/risk_agent.py:95-117 | the node updates the work item in place to the step's state |
| ComplianceAgent.SearchFrom | backend/app/agents/compliance_agent.py:88 | the search from a position finds the keyword exactly when it occurs there or later as a whole word, ignoring case |
| ComplianceAgent.ContainsWord | backend/app/agents/compliance_agent.py:88 | the search finds the keyword exactly when it occurs somewhere as a whole word, ignoring case |
| ComplianceAgent.WholeWord | backend/app/agents/compliance_agent.py:88 | an occurrence of a keyword that starts and ends with word characters has no word character on either side |
| ComplianceAgent.CaseBlind | backend/app/agents/compliance_agent.py:88 | the search ignores the case of the keyword |
| ComplianceAgent.KeywordTableKeys | backend/app/agents/compliance_agent.py:86-91 | the table has one entry per rule requirement and no other |
| ComplianceAgent.KeywordTable | backend/app/agents/compliance_agent.py:83-91 | the keyword table; stated by KeywordTableKeys and KeywordTableLast |
| ComplianceAgent.Verdict | backend/app/agents/compliance_agent.py:102-129 | the verdict of one rule; stated by VerdictCases |
| ComplianceAgent.Checked | backend/app/agents/compliance_agent.py:97-133 | the verdicts of the rules; stated by CheckedIs and GdprChecked |
| ComplianceAgent.KeywordTableLast | backend/app/agents/compliance_agent.py:87-89 | a requirement's entry is true exactly when some keyword of its last rule occurs |
| ComplianceAgent.KeywordCheck | backend/app/agents/compliance_agent.py:83-91 | `_keyword_check` computes the table |
| ComplianceAgent.VerdictCases | backend/app/agents/compliance_agent.py:102-129 | a verdict always has its rule's severity; without keywords it is the fixed non-compliance and does not depend on the model; with them it is the model's result with the rule's severity, or a non-compliance quoting the exception |
| ComplianceAgent.CheckedIs | backend/app/agents/compliance_agent.py:97-133 | one verdict per rule, in table order, each with its rule's severity |
| ComplianceAgent.GdprChecked | backend/app/agents/compliance_agent.py:12-25 | the GDPR table gives two verdicts, critical then high |
| ComplianceAgent.CheckRules | backend/app/agents/compliance_agent.py:97-133 | the rule loop computes `Checked` |
| ComplianceAgent.Run | backend/app/agents/compliance_agent.py:93-133 | `run` checks the text against the GDPR table |
| ComplianceAgent.ComplianceStep | backend/app/agents/compliance_agent.py:137-150 | `compliance_node`: the GDPR verdicts on the document text and the step; stated by ComplianceStepWrites and GdprChecked |
| ComplianceAgent.ComplianceStepWrites | backend/app/agents/compliance_agent.py:137-150 | the node writes its two verdicts and the step "Compliance Check Complete", and nothing else |
| ComplianceAgent.ComplianceNode | backend/app/agents/compliance_agent.py:137-150 | the node updates the work item in place to the step's state |
| RagAgent.LastUser | backend/app/agents/rag_agent.py:28-32 | the index found is inside the conversation |
| RagAgent.LastUserIs | backend/app/agents/rag_agent.py:28-32 | the index found is a user message after which no message is a user's; none is found exactly when no message is a user's |
| RagAgent.FindQuestion | backend/app/agents/rag_agent.py:28-32 | the reversed search returns the question of the last user message |
| RagAgent.Context | backend/app/agents/rag_agent.py:71 | the context is the text's first 4000 characters, all of a shorter text |
| RagAgent.RagAppendOnly | backend/app/agents/rag_agent.py:13-96 | the conversation only grows, by at most one assistant message; only the messages, the error and the step change |
| RagAgent.Question | backend/app/agents/rag_agent.py:28-32 | the question of the conversation; stated by QuestionIsLast |
| RagAgent.RagStep | backend/app/agents/rag_agent.py:13-96 | `rag_node` on the state; stated by RagAppendOnly and RagStepCases |
| RagAgent.RagStepCases | backend/app/agents/rag_agent.py:21-94 | no messages, no user message or an empty last user question, and no text each set their error and append nothing; otherwise the model sees the last user question and the first 4000 characters; its answer is appended with the step "qa_complete", its failure is appended as an apology and recorded as the error |
| RagAgent.QuestionIsLast | backend/app/agents/rag_agent.py:28-37 | there is a question exactly when some message is a user's, and it is the content of the last one |
| RagAgent.RagNode | backend/app/agents/rag_agent.py:13-96 | the node updates the work item in place to the step's state |
| QaApi.DocumentStore.constructor | backend/app/api/qa.py:34-37 | the store starts empty |
| QaApi.DocumentStore.Put | backend/app/api/qa.py:35 | storing sets the entry of the id and no other |
| QaApi.DocumentStore.Get | backend/app/api/qa.py:37 | `document_store.get(id, fallback)`: the stored entry of the id, else the fallback |
| QaApi.Stored | backend/app/api/qa.py:34-35 | the store after the request's own text is kept; stated by StoreAndResolve |
| QaApi.Resolved | backend/app/api/qa.py:37 | the text the question is asked about; stated by StoreAndResolve |
| QaApi.InitialQaState | backend/app/api/qa.py:46-63 | the initial state: task "qa", the request's document id, the resolved text, one user message holding the question, error "", step "start", and every other text and collection empty |
| QaApi.StoreAndResolve | backend/app/api/qa.py:34-37 | only the request's own entry can change, and only to a non-empty text; a text in the request wins, else the stored entry is used, else the empty text |
| QaApi.LastAssistant | backend/app/api/qa.py:80-85 | the last assistant message of the conversation; stated by LastAssistantIs |
| QaApi.LastAssistantIs | backend/app/api/qa.py:80-85 | the message found is an assistant message after which no message is one; none is found exactly when no message is one |
| QaApi.FindAnswer | backend/app/api/qa.py:80-85 | the reversed search returns the last assistant message |
| QaApi.QaRun | backend/app/api/qa.py:46-71 | a question runs only the question node, never raises, and appends one assistant message when the question is non-empty and none otherwise |
| QaApi.AskOutcomes | backend/app/api/qa.py:34-102 | no text is a 400; an empty question gets "No answer generated"; otherwise a non-empty model answer is returned with no citations, an empty one is "No answer generated", and a model failure is returned as the apology |
| QaApi.Reply | backend/app/api/qa.py:66-102 | the response read from a run; stated by AskOutcomes |
| QaApi.Ask | backend/app/api/qa.py:25-102 | `ask_question` on the store's contents; stated by StoreAndResolve, QaRun and AskOutcomes |
| QaApi.AskQuestion | backend/app/api/qa.py:26-102 | the endpoint updates the store in place and returns `Ask` on the store's contents before the request |
| Taskpane.DetermineOverallScore | frontend/word-addin/src/taskpane/taskpane.js:239-250 | the score is one of the four levels |
| Taskpane.MaxSeverity | frontend/word-addin/src/taskpane/taskpane.js:242-249 | the highest severity is one of the four ranks 0 to 3 |
| Taskpane.MaxSeverityReached | frontend/word-addin/src/taskpane/taskpane.js:242-249 | the highest severity is at least n exactly when some risk has severity at least n |
| Taskpane.ScoreIsMaxSeverity | frontend/word-addin/src/taskpane/taskpane.js:239-250 | the score names the highest severity among the risks, low when none is recognised or there are none |
| Taskpane.HasReordered | frontend/word-addin/src/taskpane/taskpane.js:242-244 | reordering keeps whether some risk has a level |
| Taskpane.ScoreOrderFree | frontend/word-addin/src/taskpane/taskpane.js:242-249 | the score does not depend on the order of the risks |
| Taskpane.ScoreColorShown | frontend/word-addin/src/taskpane/taskpane.js:239-250 | the overall score always gets one of the literal's own colours, never neutral, and danger exactly for critical and high |
| Taskpane.HashRunFacts | frontend/word-addin/src/taskpane/taskpane.js:260 | the removed part is the maximal '#' run at column 0 followed by its maximal whitespace run |
| Taskpane.HashRunShape | frontend/word-addin/src/taskpane/taskpane.js:260 | what is left after both runs starts with no whitespace, and with '#' only if whitespace separated it from the run |
| Taskpane.StripHashesShape | frontend/word-addin/src/taskpane/taskpane.js:260 | a line not starting with '#' is kept; otherwise only '#' and whitespace are removed from its start, and the rest starts with no whitespace |
| Taskpane.StripHashes | frontend/word-addin/src/taskpane/taskpane.js:260 | the heading marker removal; stated by HashRunFacts, HashRunShape and StripHashesShape |
| Taskpane.RemovePairsMeaning | frontend/word-addin/src/taskpane/taskpane.js:262 | after the removal no "**" is left and the text other than stars is unchanged |
| Taskpane.RemovePairs | frontend/word-addin/src/taskpane/taskpane.js:262 | the "**" removal; stated by RemovePairsMeaning, RemovePairsFixed and RemovePairsIdempotent |
| Taskpane.RemovePairsFixed | frontend/word-addin/src/taskpane/taskpane.js:262 | a line with no "**" is kept |
| Taskpane.RemovePairsIdempotent | frontend/word-addin/src/taskpane/taskpane.js:262 | removing twice is removing once |
| Taskpane.Map | frontend/word-addin/src/taskpane/taskpane.js:258-267 | one output per line, each the function of its line |
| Taskpane.MapConcat | frontend/word-addin/src/taskpane/taskpane.js:258-267 | the map of a concatenation is the concatenation of the maps |
| Taskpane.FormatLineBlank | frontend/word-addin/src/taskpane/taskpane.js:258-267 | a line gives nothing exactly when it is blank |
| Taskpane.FormatLine | frontend/word-addin/src/taskpane/taskpane.js:258-267 | the output of one line; stated by FormatLineBlank, FormatLineTags and FormatLineText |
| Taskpane.FormatReport | frontend/word-addin/src/taskpane/taskpane.js:255-269 | `formatReport`; stated by FormatReportConcat and FormatReportLine |
| Taskpane.OpeningTags | frontend/word-addin/src/taskpane/taskpane.js:260-264 | the three kinds of output are told apart by their opening tag |
| Taskpane.FormatLineTags | frontend/word-addin/src/taskpane/taskpane.js:259-266 | a heading exactly for a trimmed "##" start, bold exactly for a trimmed "**" start that is not one, a paragraph exactly for any other non-blank line |
| Taskpane.FormatLineText | frontend/word-addin/src/taskpane/taskpane.js:261-264 | a paragraph holds the untrimmed line; bold text has no "**" left and keeps the text other than stars |
| Taskpane.FormatReportConcat | frontend/word-addin/src/taskpane/taskpane.js:255-269 | the report of two parts joined by a newline is the two reports concatenated, with no separator |
| Taskpane.FormatReportLine | frontend/word-addin/src/taskpane/taskpane.js:255-269 | a report of one line is that line's output |
| Taskpane.HighlightCases | frontend/word-addin/src/taskpane/taskpane.js:320-327 | critical is red, high orange, low light green; a level naming an `Object.prototype` property (such as "constructor" or "toString") gets that inherited member; medium and every other level is yellow; two levels share a colour exactly when they are equal or both yellow |
| Taskpane.HighlightColor | frontend/word-addin/src/taskpane/taskpane.js:320-327 | the highlight colour of a level, an own string or an inherited member; stated by HighlightCases |
| Components.TruncateText | frontend/word-addin/src/taskpane/components.js:217-220 | a text up to the limit is kept; a longer one is its first maxLength characters and "...", maxLength + 3 long |
| Components.TruncateIdempotent | frontend/word-addin/src/taskpane/components.js:217-220 | truncating twice to the same length is truncating once |
| Components.WithLevel | frontend/word-addin/src/taskpane/components.js:26-31 | the filter keeps only risks of that level |
| Components.WithLevelCount | frontend/word-addin/src/taskpane/components.js:26-31 | a level's count is the number of risks with exactly that level string |
| Components.LevelsCover | frontend/word-addin/src/taskpane/components.js:26-31 | the four counts and the unrated risks add up to all risks |
| Components.StatIfFacts | frontend/word-addin/src/taskpane/components.js:37-60 | a level's block is there exactly when its count is positive, and carries the count |
| Components.StatsOrdered | frontend/word-addin/src/taskpane/components.js:37-60 | the blocks come in the order critical, high, medium, low |
| Components.StatsTotal | frontend/word-addin/src/taskpane/components.js:26-60 | the blocks' counts and the unrated risks add up to all risks |
| Components.StatsPositive | frontend/word-addin/src/taskpane/components.js:37-60 | every block shown has a positive count |
| Components.RiskSummaryCounts | frontend/word-addin/src/taskpane/components.js:21-64 | the info message exactly for a missing or empty list; otherwise the blocks are ordered, count every rated risk, and are absent exactly when no risk is rated |
| Components.CreateRiskSummary | frontend/word-addin/src/taskpane/components.js:21-64 | `createRiskSummary`; stated by RiskSummaryCounts and RiskSummaryBlocks |
| Components.RiskSummaryBlocks | frontend/word-addin/src/taskpane/components.js:26-60 | each block is a level with the number of its risks, and a level has a block exactly when some risk has it |
| Components.RiskCardsShape | frontend/word-addin/src/taskpane/components.js:69-103 | nothing for a missing or empty list; otherwise one card per risk, in order, carrying its position, its level, the level in capitals, its type or "Legal Risk", its description, the clause cut to 150 characters and the mitigation only when present |
| Components.CreateRiskCards | frontend/word-addin/src/taskpane/components.js:69-103 | `createRiskCards`; stated by RiskCardsShape |
| Components.Grouped | frontend/word-addin/src/taskpane/components.js:114-121 | every type is listed once and every listed type has a group |
| Components.TypesOfSnoc | frontend/word-addin/src/taskpane/components.js:115-121 | one more clause adds its type to the types seen |
| Components.GroupedKeys | frontend/word-addin/src/taskpane/components.js:114-121 | the groups are exactly the types that occur |
| Components.GroupedMembers | frontend/word-addin/src/taskpane/components.js:114-121 | each group holds the clauses of its type, in input order |
| Components.NoneOfType | frontend/word-addin/src/taskpane/components.js:114-121 | a type that does not occur has no clauses |
| Components.TotalFrame | frontend/word-addin/src/taskpane/components.js:137-141 | changing an unlisted type's group changes no total |
| Components.TotalBump | frontend/word-addin/src/taskpane/components.js:120 | growing one listed group grows the total by as much |
| Components.GroupedTotal | frontend/word-addin/src/taskpane/components.js:114-132 | the group sizes add up to the number of clauses |
| Components.GroupByType | frontend/word-addin/src/taskpane/components.js:114-121 | the `forEach` grouping computes `Grouped` |
| Components.CreateClauseBreakdown | frontend/word-addin/src/taskpane/components.js:108-158 | the builder computes `ClauseBreakdown` |
| Components.ClauseBreakdown | frontend/word-addin/src/taskpane/components.js:108-158 | `createClauseBreakdown`; stated by BreakdownEmpty, BreakdownCounts and BreakdownGroups |
| Components.SumGroupsTotal | frontend/word-addin/src/taskpane/components.js:137-141 | the counts of the first n groups add up to the sizes of their types' groups |
| Components.SumGroupsAll | frontend/word-addin/src/taskpane/components.js:137-141 | the counts of all groups add up to the sizes of all groups |
| Components.BreakdownCounts | frontend/word-addin/src/taskpane/components.js:123-141 | the total is the number of clauses, the category count the number of distinct types and of groups, and the group counts add up to the total |
| Components.BreakdownGroups | frontend/word-addin/src/taskpane/components.js:137-151 | each group's count is the number of clauses of its type; it lists at most three and shows "+ k-3 more" exactly when k > 3 |
| Components.BreakdownEmpty | frontend/word-addin/src/taskpane/components.js:109-111 | the info message exactly for a missing or empty list |
| Components.KeysCount | frontend/word-addin/src/taskpane/components.js:132 | the number of listed types is the number of groups |
| Components.DistinctCard | frontend/word-addin/src/taskpane/components.js:132 | distinct listed types are as many as the list |
| Components.ScoreColorCases | frontend/word-addin/src/taskpane/components.js:190-197 | ignoring case: low is success, medium warning, high and critical danger, a missing score neutral; a score reading "constructor" or "__proto__" in any case gets the inherited member, the only `Object.prototype` names that survive `toLowerCase()`; any other score is neutral |
| Components.ScoreColor | frontend/word-addin/src/taskpane/components.js:190-197 | the colour class of a score, an own string or an inherited member; stated by ScoreColorCases and ScoreColorCaseBlind |
| JsObject.LookupOr | frontend/word-addin/src/taskpane/components.js:191-197 | `table[key] \|\| fallback` on an object literal: an own non-empty string is kept, an own empty string falls back, a name the literal lacks is an inherited member exactly when `Object.prototype` has it, else the fallback |
| JsObject.LowerInPrototype | frontend/word-addin/src/taskpane/components.js:197 | a key without capital letters names an `Object.prototype` property exactly when it is "constructor" or "__proto__" |
| Components.CreateAnalysisSummary | frontend/word-addin/src/taskpane/components.js:189-212 | `createAnalysisSummary`; stated by AnalysisSummaryShape |
| Components.AnalysisSummaryShape | frontend/word-addin/src/taskpane/components.js:189-212 | a missing score shows "UNKNOWN" in the own colour neutral; any other score is shown in capitals, letter for letter; the colour is that of the badge text, whatever the case of the score; the summary paragraph is there exactly when the summary is not empty, and holds it |
| Components.ScoreColorCaseBlind | frontend/word-addin/src/taskpane/components.js:197 | scores that differ only in case get the same colour |
| Text.ToLower | backend/app/agents/compliance_agent.py:88 | only 'A'..'Z' change, no upper-case letter is left, and word characters stay word characters |
| Text.ToUpper | frontend/word-addin/src/taskpane/components.js:78 | only 'a'..'z' change, no lower-case letter is left, and the lower-case form is kept |
| Text.LowerAllChanges | backend/app/agents/compliance_agent.py:88 | lower-casing a text keeps its length, changes exactly its upper-case letters and leaves none; it changes nothing exactly when there are none |
| Text.UpperAllChanges | frontend/word-addin/src/taskpane/components.js:78 | upper-casing a text keeps its length, changes exactly its lower-case letters and leaves none |
| Text.LowerAllIdempotent | backend/app/agents/compliance_agent.py:88 | lower-casing twice is lower-casing once |
| Text.UpperAllIdempotent | frontend/word-addin/src/taskpane/components.js:78 | upper-casing twice is upper-casing once |
| Text.LowerOfUpper | frontend/word-addin/src/taskpane/components.js:190-205 | upper-casing first does not change the lower-cased form |
| Text.LeadingCount | backend/app/utils/document_parser.py:86 | the length of the maximal run at the start |
| Text.TrailingStart | backend/app/utils/document_parser.py:86 | the start of the maximal run at the end |
| Text.Strip | backend/app/utils/document_parser.py:86 | the result is no longer and has no outer whitespace |
| Text.StripShape | backend/app/utils/document_parser.py:86 | stripping removes only outer whitespace, and leaves nothing exactly for a blank text |
| Text.StripUnpadded | backend/app/utils/document_parser.py:86 | a text without outer whitespace is kept |
| Text.Split | frontend/word-addin/src/taskpane/taskpane.js:257 | at least one piece, none containing the separator |
| Text.JoinConcat | frontend/word-addin/src/taskpane/taskpane.js:268 | joining a concatenation puts the separator between the two joins |
| Text.JoinSplit | frontend/word-addin/src/taskpane/taskpane.js:257 | joining the pieces with the separator rebuilds the text |
| Text.SplitJoin | frontend/word-addin/src/taskpane/taskpane.js:257 | splitting a join of separator-free pieces gives the pieces back |
| Text.SplitConcat | frontend/word-addin/src/taskpane/taskpane.js:257 | a separator splits the text into the pieces of either side |
| Text.SplitLines | backend/app/utils/document_parser.py:96 | no line contains a newline |
| Text.SplitLinesRoundTrip | backend/app/utils/document_parser.py:96 | the lines joined by newlines, plus a final newline if there was one, are the text; only the empty text has no lines |
| AgentState.WorkItem.constructor | backend/app/api/qa.py:46-63 | a new work item holds the given state |

## Left out

- The language models, the embedding model and the cosine similarity are oracles given as function values. Floating-point similarity is an arbitrary `real` matrix.
- An exception of `embed_documents` (backend/app/agents/comparison_agent.py:53-54) is not modelled: the similarity oracle always answers, so the only comparison failures are an empty side and the explanation oracle.
- File readers (`parse_docx`, `parse_pdf`) and entity extraction are not part of this model. `ParseDocument` returns which reader would run.
- LangGraph's compilation and streaming are not modelled. A run is the explicit table walk `RunFrom`, and the stream's final step is the run's final state.
- The workflow graph is built by `BuildWorkflow` and is not module-level state. `State` holds every key both handlers write, including `task_type`, `document_text_2`, `compliance_results` and `final_report`, which the `AgentState` declaration (backend/app/agents/state.py:4-26) lacks. If LangGraph kept only declared keys, `route_task` (backend/app/agents/supervisor.py:89) would read no task type and end every run at once; LangGraph's channel handling is not part of this model.
- Components.TruncateText: lengths and the cut position are counted in characters (Unicode scalar values), not in the UTF-16 code units of JavaScript's `length` and `substring` (frontend/word-addin/src/taskpane/components.js:217-220). A text with characters outside the Basic Multilingual Plane is cut at another place, or not at all, and a cut through a surrogate pair cannot be represented; the card (150) and breakdown (80) limits inherit this.
- Character classes are ASCII: `\s`, `\d`, `\w`, `strip`, `trim`, lower and upper case. Python's Unicode classes and `splitlines` boundaries other than `'\n'` are wider.
- Compliance keywords are matched as literal text. The source splices them into a regular expression; none of the table's keywords contains a special character.
- The classifier's category is stripped as the model returns it. The sklearn error message on an empty side is the fixed `EmptySimilarity` text.
- Every key of the state record is present, as both handlers build it. The `.get` defaults ('N/A', '', []) for missing keys are not modelled.
- The message of a LangGraph error is not modelled.
- The parser node's early return builds a new dict (`{**state, ...}`) and the other nodes update the dict in place. In the model every node writes the work item in place; no caller holds the old dict.
- `maxLength` of `truncateText` is a natural number.
- A JavaScript value that is absent, null or falsy is the empty string, or `None` for a missing list.
- JavaScript object key order: the model lists clause types in insertion order. `Object.keys` and `Object.entries` list integer-like keys such as "1" or "2" first, in numeric order; that difference is not modelled. Prototype keys such as "constructor" used as a clause type in the breakdown's grouping are not modelled either.
- HighlightColor, ScoreColor and CreateAnalysisSummary: a level or score naming an `Object.prototype` property gives `Inherited(name)`; which function or object that is, how `range.font.highlightColor` takes it and the text the template literal makes of it are not modelled.
- HTML whitespace and the literal markup of the builders are not modelled; the builders return the structure they render.
- `toUpperCase` on a risk with no level, which throws in the browser, is not modelled.
- The API client, the question component, the DOM and `Word.run` are not part of this model.
- `backend/app/api/analysis.py` is used only for the fields of the initial state.
- Components.RiskCardsShape: states the badge's lower-cased form, not the exact JavaScript upper-casing of non-ASCII letters.
- Taskpane.StripHashesShape: states which characters are removed and what the rest starts with, not the exact lengths of the two runs, which `HashRunFacts` gives.

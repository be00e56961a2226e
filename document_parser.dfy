/** The text utilities of the backend: the clause segmenter `extract_clauses`,
    the whitespace normaliser `clean_text` and the file-type dispatch of
    `parse_document` (backend/app/utils/document_parser.py). */
module DocumentParser {
  import opened Outcomes
  import opened Text

  /** A clause as `extract_clauses` returns it: `{clause_number, content}`. */
  datatype Clause = Clause(number: string, content: string)

  // ---------------------------------------------------------------------
  // The clause pattern  ^\s*(\d+(?:\.\d+)*\.?|\([a-zA-Z0-9]+\))\s+
  // ---------------------------------------------------------------------

  /** `\d+(?:\.\d+)*\.?`: digits and dots, starting with a digit, never two
      dots in a row. */
  predicate IsNumberLabel(s: string) {
    && |s| > 0 && IsDigit(s[0])
    && (forall i :: 0 <= i < |s| ==> IsDigit(s[i]) || s[i] == '.')
    && (forall i :: 0 <= i < |s| - 1 ==> !DoubleDot(s, i))
  }

  predicate DoubleDot(s: string, i: nat)
    requires i + 1 < |s|
  {
    s[i] == '.' && s[i + 1] == '.'
  }

  /** `\([a-zA-Z0-9]+\)`. */
  predicate IsParenLabel(s: string) {
    && |s| >= 3 && s[0] == '(' && s[|s| - 1] == ')'
    && forall i :: 0 < i < |s| - 1 ==> IsAsciiAlnum(s[i])
  }

  /** The first group of the clause pattern. */
  predicate IsClauseLabel(s: string) {
    IsNumberLabel(s) || IsParenLabel(s)
  }

  /** `line` matches the clause pattern with first group `group`, and the
      match ends at `stop`: `line` is some whitespace, then `group`, then a
      non-empty run of whitespace that ends at `stop`. */
  predicate Numbered(line: string, group: string, stop: nat) {
    exists p: nat :: && p + |group| < stop <= |line|
                     && All(line[..p], IsPySpace)
                     && line[p..p + |group|] == group
                     && IsClauseLabel(group)
                     && All(line[p + |group|..stop], IsPySpace)
                     && (stop == |line| || !IsPySpace(line[stop]))
  }

  /** The first index at or after `k` whose character is not whitespace. */
  function SkipSpace(line: string, k: nat): (e: nat)
    requires k <= |line|
    ensures k <= e <= |line|
    ensures forall i :: k <= i < e ==> IsPySpace(line[i])
    ensures e < |line| ==> !IsPySpace(line[e])
    decreases |line| - k
  {
    if k < |line| && IsPySpace(line[k]) then SkipSpace(line, k + 1) else k
  }

  /** The greedy match of `\d+(?:\.\d+)*\.?` continues at `i`: a digit, or
      a dot right after a digit. */
  predicate Continues(line: string, i: nat)
    requires 0 < i < |line|
  {
    IsDigit(line[i]) || (line[i] == '.' && IsDigit(line[i - 1]))
  }

  /** The end of the greedy match of `\d+(?:\.\d+)*\.?` that started
      before `k`. */
  function NumberEnd(line: string, k: nat): (e: nat)
    requires 0 < k <= |line|
    ensures k <= e <= |line|
    ensures forall i :: k <= i < e ==> Continues(line, i)
    ensures e < |line| ==> !Continues(line, e)
    decreases |line| - k
  {
    if k < |line| && Continues(line, k) then NumberEnd(line, k + 1) else k
  }

  /** The end of the run of `[a-zA-Z0-9]` that starts at `k`. */
  function AlnumEnd(line: string, k: nat): (e: nat)
    requires k <= |line|
    ensures k <= e <= |line|
    ensures forall i :: k <= i < e ==> IsAsciiAlnum(line[i])
    ensures e < |line| ==> !IsAsciiAlnum(line[e])
    decreases |line| - k
  {
    if k < |line| && IsAsciiAlnum(line[k]) then AlnumEnd(line, k + 1) else k
  }

  /** The end of the group that starts at `p`, or `p` if none does. */
  function LabelEnd(line: string, p: nat): (q: nat)
    requires p <= |line|
    ensures p <= q <= |line|
  {
    if p < |line| && IsDigit(line[p]) then NumberEnd(line, p + 1)
    else if p < |line| && line[p] == '(' then
      var r := AlnumEnd(line, p + 1);
      if r > p + 1 && r < |line| && line[r] == ')' then r + 1 else p
    else p
  }

  /** `clause_pattern.match(line)`: group 1 and `match.end()`. */
  datatype LabelMatch = LabelMatch(group: string, stop: nat)

  function MatchNumbered(line: string): (m: Option<LabelMatch>)
    ensures m.Some? ==> m.value.stop <= |line|
  {
    var p := SkipSpace(line, 0);
    var q := LabelEnd(line, p);
    if q > p && q < |line| && IsPySpace(line[q])
    then Some(LabelMatch(line[p..q], SkipSpace(line, q)))
    else None
  }

  /** What the scanner takes for a numbered group is one. */
  lemma ScannedNumber(line: string, p: nat)
    requires p < |line| && IsDigit(line[p])
    ensures IsNumberLabel(line[p..NumberEnd(line, p + 1)])
  {
    var group := line[p..NumberEnd(line, p + 1)];
    forall i | 0 <= i < |group| ensures IsDigit(group[i]) || group[i] == '.' {
      if i > 0 { assert Continues(line, p + i); }
    }
    forall i | 0 <= i < |group| - 1 ensures !DoubleDot(group, i) {
      assert Continues(line, p + i + 1);
    }
  }

  /** What the scanner takes for a parenthesised group is one. */
  lemma ScannedParen(line: string, p: nat)
    requires p < |line| && line[p] == '('
    requires var r := AlnumEnd(line, p + 1); r > p + 1 && r < |line| && line[r] == ')'
    ensures IsParenLabel(line[p..AlnumEnd(line, p + 1) + 1])
  {
    var group := line[p..AlnumEnd(line, p + 1) + 1];
    forall i | 0 < i < |group| - 1 ensures IsAsciiAlnum(group[i]) {
      assert group[i] == line[p + i];
    }
  }

  /** A leading-whitespace, group, whitespace decomposition at `p` makes
      the line numbered. */
  lemma NumberedAt(line: string, p: nat, group: string, stop: nat)
    requires p + |group| < stop <= |line|
    requires All(line[..p], IsPySpace) && line[p..p + |group|] == group && IsClauseLabel(group)
    requires All(line[p + |group|..stop], IsPySpace) && (stop == |line| || !IsPySpace(line[stop]))
    ensures Numbered(line, group, stop)
  {
  }

  lemma MatchSound(line: string)
    ensures MatchNumbered(line).Some? ==>
              Numbered(line, MatchNumbered(line).value.group, MatchNumbered(line).value.stop)
  {
    var p := SkipSpace(line, 0);
    var q := LabelEnd(line, p);
    if q > p && q < |line| && IsPySpace(line[q]) {
      var group, e := line[p..q], SkipSpace(line, q);
      assert MatchNumbered(line) == Some(LabelMatch(group, e));
      AllSlice(line, 0, p, IsPySpace);
      assert line[0..p] == line[..p];
      if IsDigit(line[p]) {
        ScannedNumber(line, p);
      } else {
        ScannedParen(line, p);
      }
      AllSlice(line, q, e, IsPySpace);
      assert line[p..p + |group|] == group;
      NumberedAt(line, p, group, e);
    }
  }

  lemma {:induction false} SkipSpaceStops(line: string, k: nat, e: nat)
    requires k <= e <= |line|
    requires forall i :: k <= i < e ==> IsPySpace(line[i])
    requires e == |line| || !IsPySpace(line[e])
    ensures SkipSpace(line, k) == e
    decreases e - k
  {
    if k < e {
      SkipSpaceStops(line, k + 1, e);
    }
  }

  lemma {:induction false} NumberEndStops(line: string, k: nat, e: nat)
    requires 0 < k <= e <= |line|
    requires forall i :: k <= i < e ==> Continues(line, i)
    requires e == |line| || (!IsDigit(line[e]) && line[e] != '.')
    ensures NumberEnd(line, k) == e
    decreases e - k
  {
    if k < e {
      NumberEndStops(line, k + 1, e);
    }
  }

  lemma {:induction false} AlnumEndStops(line: string, k: nat, e: nat)
    requires k <= e <= |line|
    requires forall i :: k <= i < e ==> IsAsciiAlnum(line[i])
    requires e == |line| || !IsAsciiAlnum(line[e])
    ensures AlnumEnd(line, k) == e
    decreases e - k
  {
    if k < e {
      AlnumEndStops(line, k + 1, e);
    }
  }

  /** A group followed by whitespace is what the label scanner finds. */
  lemma LabelEndOf(line: string, p: nat, group: string)
    requires p + |group| < |line| && line[p..p + |group|] == group
    requires IsClauseLabel(group) && IsPySpace(line[p + |group|])
    ensures LabelEnd(line, p) == p + |group|
  {
    var q := p + |group|;
    assert line[p] == group[0];
    if IsNumberLabel(group) {
      forall i | p + 1 <= i < q ensures Continues(line, i) {
        assert line[i] == group[i - p] && line[i - 1] == group[i - p - 1];
        assert !DoubleDot(group, i - p - 1);
      }
      NumberEndStops(line, p + 1, q);
    } else {
      ParenEndOf(line, p, group);
    }
  }

  lemma ParenEndOf(line: string, p: nat, group: string)
    requires p + |group| <= |line| && line[p..p + |group|] == group
    requires IsParenLabel(group)
    ensures AlnumEnd(line, p + 1) == p + |group| - 1
  {
    var r := p + |group| - 1;
    forall i | p + 1 <= i < r ensures IsAsciiAlnum(line[i]) {
      assert line[i] == group[i - p];
    }
    assert line[r] == group[|group| - 1];
    AlnumEndStops(line, p + 1, r);
  }

  /** Leading whitespace up to a non-space character is what the scanner skips. */
  lemma LeadOf(line: string, p: nat)
    requires p < |line| && All(line[..p], IsPySpace) && !IsPySpace(line[p])
    ensures SkipSpace(line, 0) == p
  {
    AllSlice(line, 0, p, IsPySpace);
    assert line[0..p] == line[..p];
    SkipSpaceStops(line, 0, p);
  }

  /** A whitespace run after the group is what the scanner skips. */
  lemma TrailOf(line: string, q: nat, stop: nat)
    requires q < stop <= |line| && All(line[q..stop], IsPySpace)
    requires stop == |line| || !IsPySpace(line[stop])
    ensures IsPySpace(line[q]) && SkipSpace(line, q) == stop
  {
    AllSlice(line, q, stop, IsPySpace);
    SkipSpaceStops(line, q, stop);
  }

  /** The scanners' positions on a numbered line decomposed at `p`. */
  lemma MatchAt(line: string, p: nat, group: string, stop: nat)
    requires p + |group| < stop <= |line|
    requires All(line[..p], IsPySpace) && line[p..p + |group|] == group && IsClauseLabel(group)
    requires All(line[p + |group|..stop], IsPySpace) && (stop == |line| || !IsPySpace(line[stop]))
    ensures MatchNumbered(line) == Some(LabelMatch(group, stop))
  {
    var q := p + |group|;
    assert line[p] == group[0];
    LeadOf(line, p);
    TrailOf(line, q, stop);
    LabelEndOf(line, p, group);
    assert SkipSpace(line, 0) == p && LabelEnd(line, p) == q && SkipSpace(line, q) == stop;
  }

  /** Every such decomposition is the match: the pattern accepts exactly
      the numbered lines. */
  lemma MatchComplete(line: string, group: string, stop: nat)
    requires Numbered(line, group, stop)
    ensures MatchNumbered(line) == Some(LabelMatch(group, stop))
  {
    var p: nat :| && p + |group| < stop <= |line|
                  && All(line[..p], IsPySpace)
                  && line[p..p + |group|] == group
                  && IsClauseLabel(group)
                  && All(line[p + |group|..stop], IsPySpace)
                  && (stop == |line| || !IsPySpace(line[stop]));
    MatchAt(line, p, group, stop);
  }

  // ---------------------------------------------------------------------
  // extract_clauses
  // ---------------------------------------------------------------------

  /** What a numbered line contributes to its own clause: the rest of the
      line after the match, stripped, unless that is empty. */
  function Opening(line: string, m: LabelMatch): seq<string>
    requires m.stop <= |line|
  {
    var rest := Strip(line[m.stop..], IsPySpace);
    if rest == "" then [] else [rest]
  }

  /** A line as `extract_clauses` sees it: a numbered line, which opens a
      clause with its group and its opening, or a plain line. */
  datatype Line = Plain(text: string) | Labelled(group: string, opening: seq<string>)

  function Classify(line: string): (l: Line)
    ensures l.Labelled? <==> MatchNumbered(line).Some?
    ensures l.Plain? ==> l.text == line
  {
    match MatchNumbered(line)
    case None => Plain(line)
    case Some(m) => Labelled(m.group, Opening(line, m))
  }

  /** Every line classified, in order. */
  function Scan(lines: seq<string>): (ls: seq<Line>)
    ensures |ls| == |lines|
  {
    if lines == [] then [] else [Classify(lines[0])] + Scan(lines[1..])
  }

  lemma {:induction false} ScanAt(lines: seq<string>, k: nat)
    requires k < |lines|
    ensures Scan(lines)[k] == Classify(lines[k])
  {
    if k > 0 {
      ScanAt(lines[1..], k - 1);
    }
  }

  lemma {:induction false} ScanDrop(lines: seq<string>, i: nat)
    requires i <= |lines|
    ensures Scan(lines)[i..] == Scan(lines[i..])
  {
    if i > 0 {
      ScanDrop(lines[1..], i - 1);
      assert lines[1..][i - 1..] == lines[i..];
    }
  }

  /** The index of the first numbered line, or |ls| if there is none. */
  function FirstLabelled(ls: seq<Line>): (f: nat)
    ensures f <= |ls|
    ensures forall k :: 0 <= k < f ==> ls[k].Plain?
    ensures f < |ls| ==> ls[f].Labelled?
  {
    if |ls| == 0 then 0
    else if ls[0].Labelled? then 0
    else 1 + FirstLabelled(ls[1..])
  }

  /** The texts of the plain lines (used on runs of plain lines only). */
  function Texts(ls: seq<Line>): seq<string> {
    if ls == [] then [] else (if ls[0].Plain? then [ls[0].text] else []) + Texts(ls[1..])
  }

  /** The content of a clause made of `body`: the lines joined by '\n', stripped. */
  function Content(body: seq<string>): string {
    Strip(Join("\n", body), IsPySpace)
  }

  /** A clause before its content is rendered: its number and its lines. */
  datatype Segment = Segment(number: string, body: seq<string>)

  /** The segments of `rest` when clause `number` is open with content
      lines `body`: the open clause takes every line up to the next numbered
      one, which opens the next clause. */
  function OpenSegment(number: string, body: seq<string>, rest: seq<Line>): seq<Segment>
    decreases |rest|
  {
    var nxt := FirstLabelled(rest);
    var closed := Segment(number, body + Texts(rest[..nxt]));
    if nxt == |rest| then [closed]
    else [closed] + OpenSegment(rest[nxt].group, rest[nxt].opening, rest[nxt + 1..])
  }

  /** The segments of a text: the lines before the first numbered line are
      dropped, and each numbered line opens a clause. */
  function Segments(ls: seq<Line>): seq<Segment> {
    var f := FirstLabelled(ls);
    if f == |ls| then [] else OpenSegment(ls[f].group, ls[f].opening, ls[f + 1..])
  }

  /** Each segment rendered as a clause. */
  function Render(segs: seq<Segment>): (cs: seq<Clause>)
    ensures |cs| == |segs|
  {
    if segs == [] then [] else [Clause(segs[0].number, Content(segs[0].body))] + Render(segs[1..])
  }

  lemma {:induction false} RenderConcat(a: seq<Segment>, b: seq<Segment>)
    ensures Render(a + b) == Render(a) + Render(b)
  {
    if a == [] {
      assert a + b == b;
    } else {
      assert (a + b)[0] == a[0] && (a + b)[1..] == a[1..] + b;
      RenderConcat(a[1..], b);
    }
  }

  lemma {:induction false} RenderAt(segs: seq<Segment>, t: nat)
    requires t < |segs|
    ensures Render(segs)[t] == Clause(segs[t].number, Content(segs[t].body))
  {
    if t > 0 {
      RenderAt(segs[1..], t - 1);
    }
  }

  /** What `extract_clauses` returns for the lines of a text. */
  function ClausesOf(lines: seq<string>): seq<Clause> {
    Render(Segments(Scan(lines)))
  }

  /** The segments still to come when the loop of `extract_clauses` has
      `number` open (or none) with content lines `body`, and `rest` left. */
  function Pending(number: Option<string>, body: seq<string>, rest: seq<Line>): seq<Segment> {
    if number.None? then Segments(rest) else OpenSegment(number.value, body, rest)
  }

  /** An unnumbered line before any clause is dropped. */
  lemma PendingSkip(rest: seq<Line>)
    requires |rest| > 0 && rest[0].Plain?
    ensures Segments(rest) == Segments(rest[1..])
  {
    var f := FirstLabelled(rest);
    if f < |rest| {
      assert rest[f] == rest[1..][f - 1];
      assert rest[f + 1..] == rest[1..][f..];
    }
  }

  /** An unnumbered line inside a clause joins its content. */
  lemma PendingExtend(number: string, body: seq<string>, rest: seq<Line>)
    requires |rest| > 0 && rest[0].Plain?
    ensures OpenSegment(number, body, rest) == OpenSegment(number, body + [rest[0].text], rest[1..])
  {
    var nxt := FirstLabelled(rest);
    assert rest[..nxt][1..] == rest[1..][..nxt - 1];
    assert body + Texts(rest[..nxt]) == body + [rest[0].text] + Texts(rest[1..][..nxt - 1]);
    if nxt < |rest| {
      assert rest[nxt] == rest[1..][nxt - 1];
      assert rest[nxt + 1..] == rest[1..][nxt..];
    }
  }

  /** A numbered line closes the open clause, if any, and opens its own. */
  lemma PendingNumbered(number: Option<string>, body: seq<string>, line: string, tail: seq<Line>)
    requires MatchNumbered(line).Some?
    ensures var m := MatchNumbered(line).value;
            Pending(number, body, [Classify(line)] + tail)
              == (if number.Some? then [Segment(number.value, body)] else [])
                 + OpenSegment(m.group, Opening(line, m), tail)
  {
    var rest := [Classify(line)] + tail;
    assert rest[1..] == tail;
    if number.Some? {
      assert body + Texts(rest[..0]) == body;
    }
  }

  /** A matched group has no surrounding whitespace, so the loop's
      `strip()` of it changes nothing. */
  lemma LabelUnpadded(line: string)
    requires MatchNumbered(line).Some?
    ensures Strip(MatchNumbered(line).value.group, IsPySpace) == MatchNumbered(line).value.group
  {
    MatchSound(line);
    StripUnpadded(MatchNumbered(line).value.group, IsPySpace);
  }

  /** The state of the loop of `extract_clauses`: the clauses closed so
      far, and the number (if any) and content lines of the open clause. */
  datatype Cursor = Cursor(closed: seq<Clause>, number: Option<string>, content: seq<string>)

  /** The closed clauses, followed by the open one if there is one. */
  ghost function Close(c: Cursor): seq<Clause> {
    if c.number.Some? then c.closed + [Clause(c.number.value, Content(c.content))] else c.closed
  }

  /** One pass of the loop: a numbered line closes the open clause and opens
      its own, any other line joins the open clause or, before the first
      clause, is dropped. */
  ghost function Feed(c: Cursor, line: string): Cursor {
    match MatchNumbered(line)
    case Some(m) => Cursor(Close(c), Some(m.group), Opening(line, m))
    case None => if c.number.Some? then c.(content := c.content + [line]) else c
  }

  /** The loop's state after the lines. */
  ghost function FeedAll(lines: seq<string>): Cursor {
    if lines == [] then Cursor([], None, [])
    else Feed(FeedAll(lines[..|lines| - 1]), lines[|lines| - 1])
  }

  /** The clauses still to come from a state of the loop and the lines left. */
  ghost function Finish(c: Cursor, rest: seq<string>): seq<Clause> {
    c.closed + Render(Pending(c.number, c.content, Scan(rest)))
  }

  lemma RenderOne(s: Segment)
    ensures Render([s]) == [Clause(s.number, Content(s.body))]
  {
    assert [s][1..] == [];
  }

  lemma ScanCons(line: string, rest: seq<string>)
    ensures Scan([line] + rest) == [Classify(line)] + Scan(rest)
  {
    var all := [line] + rest;
    assert all[0] == line && all[1..] == rest;
  }

  /** A numbered line closes the open clause: the clauses still to come
      are kept. */
  lemma FeedFinishNumbered(c: Cursor, line: string, rest: seq<string>)
    requires MatchNumbered(line).Some?
    ensures Finish(Feed(c, line), rest) == Finish(c, [line] + rest)
  {
    var m := MatchNumbered(line).value;
    ScanCons(line, rest);
    PendingNumbered(c.number, c.content, line, Scan(rest));
    FinishShift(c, Pending(c.number, c.content, Scan([line] + rest)), OpenSegment(m.group, Opening(line, m), Scan(rest)));
  }

  /** Closing the open clause moves it from the pending segments to the
      closed clauses. */
  lemma FinishShift(c: Cursor, pending: seq<Segment>, following: seq<Segment>)
    requires pending == (if c.number.Some? then [Segment(c.number.value, c.content)] else []) + following
    ensures c.closed + Render(pending) == Close(c) + Render(following)
  {
    var pre: seq<Segment> := if c.number.Some? then [Segment(c.number.value, c.content)] else [];
    RenderConcat(pre, following);
    if c.number.Some? {
      RenderOne(pre[0]);
    } else {
      assert pre == [];
    }
  }

  /** Any other line joins the open clause or is dropped: the clauses
      still to come are kept. */
  lemma FeedFinishPlain(c: Cursor, line: string, rest: seq<string>)
    requires MatchNumbered(line).None?
    ensures Finish(Feed(c, line), rest) == Finish(c, [line] + rest)
  {
    var all := [line] + rest;
    ScanCons(line, rest);
    assert Scan(all)[1..] == Scan(rest);
    if c.number.Some? {
      PendingExtend(c.number.value, c.content, Scan(all));
    } else {
      PendingSkip(Scan(all));
    }
  }

  /** One pass of the loop keeps the clauses still to come. */
  lemma FeedFinish(c: Cursor, line: string, rest: seq<string>)
    ensures Finish(Feed(c, line), rest) == Finish(c, [line] + rest)
  {
    if MatchNumbered(line).Some? {
      FeedFinishNumbered(c, line, rest);
    } else {
      FeedFinishPlain(c, line, rest);
    }
  }

  lemma {:induction false} FeedAllFinish(lines: seq<string>, i: nat)
    requires i <= |lines|
    ensures Finish(FeedAll(lines[..i]), lines[i..]) == ClausesOf(lines)
  {
    if i == 0 {
      assert lines[..0] == [] && lines[0..] == lines;
      assert [] + ClausesOf(lines) == ClausesOf(lines);
    } else {
      FeedAllFinish(lines, i - 1);
      PrefixStep(lines, i - 1);
      SuffixStep(lines, i - 1);
      var prev := FeedAll(lines[..i - 1]);
      assert FeedAll(lines[..i]) == Feed(prev, lines[i - 1]);
      FeedFinish(prev, lines[i - 1], lines[i..]);
    }
  }

  /** The loop of `extract_clauses` computes the clauses of the lines. */
  lemma FeedAllClauses(lines: seq<string>)
    ensures Close(FeedAll(lines)) == ClausesOf(lines)
  {
    FeedAllFinish(lines, |lines|);
    assert lines[..|lines|] == lines && lines[|lines|..] == [];
    var c := FeedAll(lines);
    assert Scan([]) == [];
    if c.number.Some? {
      assert c.content + Texts([]) == c.content;
      RenderOne(Segment(c.number.value, c.content));
    } else {
      assert c.closed + [] == c.closed;
    }
  }

  /** `extract_clauses`: a loop over the lines that keeps the open clause's
      number and content lines and appends each clause when the next
      numbered line, or the end of the text, closes it. */
  method ExtractClauses(fullText: string) returns (clauses: seq<Clause>)
    ensures clauses == ClausesOf(SplitLines(fullText))
  {
    var lines := SplitLines(fullText);
    clauses := [];
    var content: seq<string> := [];
    var number: Option<string> := None;
    for i := 0 to |lines|
      invariant Cursor(clauses, number, content) == FeedAll(lines[..i])
    {
      var line := lines[i];
      PrefixStep(lines, i);
      var m := MatchNumbered(line);
      if m.Some? {
        if number.Some? {
          clauses := clauses + [Clause(number.value, Content(content))];
        }
        LabelUnpadded(line);
        number := Some(Strip(m.value.group, IsPySpace));
        var contentAfterMatch := Strip(line[m.value.stop..], IsPySpace);
        content := if contentAfterMatch != "" then [contentAfterMatch] else [];
      } else if number.Some? {
        content := content + [line];
      }
    }
    assert lines[..|lines|] == lines;
    FeedAllClauses(lines);
    if number.Some? {
      clauses := clauses + [Clause(number.value, Content(content))];
    }
  }

  /** The groups of the numbered lines, in line order. */
  function Labels(ls: seq<Line>): seq<string> {
    if ls == [] then []
    else (if ls[0].Labelled? then [ls[0].group] else []) + Labels(ls[1..])
  }

  function SegmentNumbers(segs: seq<Segment>): (r: seq<string>)
    ensures |r| == |segs|
  {
    if segs == [] then [] else [segs[0].number] + SegmentNumbers(segs[1..])
  }

  lemma {:induction false} SegmentNumbersAt(segs: seq<Segment>, t: nat)
    requires t < |segs|
    ensures SegmentNumbers(segs)[t] == segs[t].number
  {
    if t > 0 {
      SegmentNumbersAt(segs[1..], t - 1);
    }
  }

  lemma {:induction false} LabelsPlain(a: seq<Line>)
    requires forall k :: 0 <= k < |a| ==> a[k].Plain?
    ensures Labels(a) == []
  {
    if a != [] {
      LabelsPlain(a[1..]);
    }
  }

  /** `rest` split at its first numbered line, with that line's group. */
  lemma {:induction false} LabelsAtFirst(rest: seq<Line>)
    requires FirstLabelled(rest) < |rest|
    ensures var f := FirstLabelled(rest);
            Labels(rest) == [rest[f].group] + Labels(rest[f + 1..])
  {
    if rest[0].Plain? {
      var f := FirstLabelled(rest);
      LabelsAtFirst(rest[1..]);
      assert rest[1..][f - 1] == rest[f] && rest[1..][f..] == rest[f + 1..];
    }
  }

  /** The open segment is followed by the segments of the lines after it. */
  lemma OpenSegmentTail(number: string, body: seq<string>, rest: seq<Line>)
    ensures OpenSegment(number, body, rest)
              == [Segment(number, body + Texts(rest[..FirstLabelled(rest)]))] + Segments(rest)
  {
  }

  lemma {:induction false} SegmentNumbersAreLabels(ls: seq<Line>)
    ensures SegmentNumbers(Segments(ls)) == Labels(ls)
    decreases |ls|
  {
    var f := FirstLabelled(ls);
    if f < |ls| {
      var tail := ls[f + 1..];
      OpenSegmentTail(ls[f].group, ls[f].opening, tail);
      LabelsAtFirst(ls);
      SegmentNumbersAreLabels(tail);
    } else {
      assert ls == ls[..f];
      LabelsPlain(ls);
    }
  }

  /** One clause per numbered line, in line order, numbered by its group;
      no numbered line, no clause. */
  lemma ClauseNumbersAreLabels(lines: seq<string>)
    ensures |ClausesOf(lines)| == |Labels(Scan(lines))|
    ensures forall t :: 0 <= t < |ClausesOf(lines)| ==> ClausesOf(lines)[t].number == Labels(Scan(lines))[t]
    ensures Labels(Scan(lines)) == [] <==> ClausesOf(lines) == []
  {
    var segs := Segments(Scan(lines));
    SegmentNumbersAreLabels(Scan(lines));
    forall t | 0 <= t < |segs| ensures ClausesOf(lines)[t].number == Labels(Scan(lines))[t] {
      RenderAt(segs, t);
      SegmentNumbersAt(segs, t);
    }
  }

  lemma DropPrefix<T>(a: seq<T>, b: seq<T>, n: nat)
    requires |a| <= n <= |a| + |b|
    ensures (a + b)[n..] == b[n - |a|..]
  {
  }

  lemma LabelsTake(ls: seq<Line>, h: nat)
    requires 0 < h <= |ls|
    ensures Labels(ls[..h]) == (if ls[0].Labelled? then [ls[0].group] else []) + Labels(ls[1..][..h - 1])
  {
    assert ls[..h][0] == ls[0] && ls[..h][1..] == ls[1..][..h - 1];
  }

  /** From a numbered line on, the segments are those of the text that
      starts at that line. */
  lemma {:induction false} SegmentsSuffix(ls: seq<Line>, h: nat)
    requires h < |ls| && ls[h].Labelled?
    ensures |Labels(ls[..h])| <= |Segments(ls)|
    ensures Segments(ls)[|Labels(ls[..h])|..] == Segments(ls[h..])
  {
    if h == 0 {
      assert ls[..0] == [] && ls[0..] == ls;
    } else {
      LabelsTake(ls, h);
      SegmentsSuffix(ls[1..], h - 1);
      assert ls[1..][h - 1..] == ls[h..];
      var n := |Labels(ls[1..][..h - 1])|;
      if ls[0].Plain? {
        PendingSkip(ls);
      } else {
        var c := Segment(ls[0].group, ls[0].opening + Texts(ls[1..][..FirstLabelled(ls[1..])]));
        OpenSegmentTail(ls[0].group, ls[0].opening, ls[1..]);
        assert Segments(ls) == [c] + Segments(ls[1..]);
        DropPrefix([c], Segments(ls[1..]), 1 + n);
      }
    }
  }

  /** The segment a numbered line opens. */
  lemma SegmentAt(ls: seq<Line>, h: nat)
    requires h < |ls| && ls[h].Labelled?
    ensures var tail := ls[h + 1..];
            && |Labels(ls[..h])| < |Segments(ls)|
            && Segments(ls)[|Labels(ls[..h])|]
                 == Segment(ls[h].group, ls[h].opening + Texts(tail[..FirstLabelled(tail)]))
  {
    SegmentsSuffix(ls, h);
    assert ls[h..][0] == ls[h] && ls[h..][1..] == ls[h + 1..];
    OpenSegmentTail(ls[h].group, ls[h].opening, ls[h + 1..]);
  }

  lemma TakeOfDrop<T>(s: seq<T>, i: nat, j: nat)
    requires i <= j <= |s|
    ensures s[i..][..j - i] == s[i..j]
  {
  }

  /** A run of plain lines from `i` up to a numbered line `j` (or the end)
      puts the first numbered line of `ls[i..]` at `j - i`. */
  lemma {:induction false} FirstLabelledAt(ls: seq<Line>, i: nat, j: nat)
    requires i <= j <= |ls|
    requires forall k :: i <= k < j ==> ls[k].Plain?
    requires j == |ls| || ls[j].Labelled?
    ensures FirstLabelled(ls[i..]) == j - i
    decreases j - i
  {
    if i < |ls| {
      assert ls[i..][0] == ls[i] && ls[i..][1..] == ls[i + 1..];
      if i < j {
        FirstLabelledAt(ls, i + 1, j);
      }
    }
  }

  /** The texts of plain lines are the lines. */
  lemma {:induction false} TextsPlain(ls: seq<Line>, lines: seq<string>)
    requires |ls| == |lines| && forall k :: 0 <= k < |ls| ==> ls[k] == Plain(lines[k])
    ensures Texts(ls) == lines
  {
    if ls != [] {
      TextsPlain(ls[1..], lines[1..]);
      assert lines == [lines[0]] + lines[1..];
    }
  }

  /** Lines that do not start a clause scan as plain lines. */
  lemma ScanPlain(lines: seq<string>, i: nat, j: nat)
    requires i <= j <= |lines|
    requires forall k :: i <= k < j ==> MatchNumbered(lines[k]).None?
    ensures forall k :: i <= k < j ==> Scan(lines)[k] == Plain(lines[k])
  {
    forall k | i <= k < j ensures Scan(lines)[k] == Plain(lines[k]) {
      ScanAt(lines, k);
    }
  }

  lemma TextsRun(ls: seq<Line>, lines: seq<string>, i: nat, j: nat)
    requires i <= j <= |lines| == |ls|
    requires forall k :: i <= k < j ==> ls[k] == Plain(lines[k])
    ensures Texts(ls[i..j]) == lines[i..j]
  {
    var run, text := ls[i..j], lines[i..j];
    assert forall k :: 0 <= k < |run| ==> run[k] == ls[i + k] && text[k] == lines[i + k];
    TextsPlain(run, text);
  }

  /** The numbered line `lines[h]` opens clause number t, the count of
      numbered lines before it: its number is the line's group, and its
      content is the stripped rest of that line (if not empty) followed by
      the lines up to the next numbered line `g` (or the end), joined by
      '\n' and stripped. */
  lemma ClauseOfLine(lines: seq<string>, h: nat, g: nat)
    requires h < g <= |lines| && MatchNumbered(lines[h]).Some?
    requires forall k :: h < k < g ==> MatchNumbered(lines[k]).None?
    requires g == |lines| || MatchNumbered(lines[g]).Some?
    ensures var t := |Labels(Scan(lines)[..h])|;
            var m := MatchNumbered(lines[h]).value;
            && t < |ClausesOf(lines)|
            && ClausesOf(lines)[t] == Clause(m.group, Content(Opening(lines[h], m) + lines[h + 1..g]))
  {
    var ls := Scan(lines);
    ScanAt(lines, h);
    forall k | h < k < g ensures ls[k].Plain? {
      ScanAt(lines, k);
    }
    if g < |lines| {
      ScanAt(lines, g);
    }
    SegmentAt(ls, h);
    FirstLabelledAt(ls, h + 1, g);
    TakeOfDrop(ls, h + 1, g);
    ScanPlain(lines, h + 1, g);
    TextsRun(ls, lines, h + 1, g);
    RenderAt(Segments(ls), |Labels(ls[..h])|);
  }

  /** Unnumbered lines before the first numbered line do not matter. */
  lemma {:induction false} LeadingLinesDiscarded(pre: seq<string>, lines: seq<string>)
    requires forall k :: 0 <= k < |pre| ==> MatchNumbered(pre[k]).None?
    ensures ClausesOf(pre + lines) == ClausesOf(lines)
    decreases |pre|
  {
    if pre != [] {
      var all := pre + lines;
      assert all[0] == pre[0] && all[1..] == pre[1..] + lines;
      assert Scan(all) == [Classify(pre[0])] + Scan(all[1..]);
      PendingSkip(Scan(all));
      LeadingLinesDiscarded(pre[1..], lines);
    } else {
      assert pre + lines == lines;
    }
  }

  // ---------------------------------------------------------------------
  // clean_text
  // ---------------------------------------------------------------------

  /** `re.sub(r'\s+', ' ', text)`: each maximal run of whitespace becomes
      one space. */
  function CollapseSpace(s: string): (r: string)
    ensures s != [] ==> r != [] && (IsPySpace(s[0]) ==> r[0] == ' ') && (!IsPySpace(s[0]) ==> r[0] == s[0])
    decreases |s|
  {
    if s == [] then []
    else if IsPySpace(s[0]) then [' '] + CollapseSpace(s[LeadingCount(s, IsPySpace)..])
    else [s[0]] + CollapseSpace(s[1..])
  }

  /** `clean_text`: collapse whitespace runs, strip every line, join the
      lines with '\n', strip the whole. */
  function CleanText(text: string): string {
    var lines := SplitLines(CollapseSpace(text));
    Strip(Join("\n", seq(|lines|, k requires 0 <= k < |lines| => Strip(lines[k], IsPySpace))), IsPySpace)
  }

  /** The only whitespace is single spaces. */
  predicate SingleSpaced(s: string) {
    && (forall k :: 0 <= k < |s| && IsPySpace(s[k]) ==> s[k] == ' ')
    && (forall k :: 0 < k < |s| && s[k] == ' ' ==> s[k - 1] != ' ')
  }

  /** The characters of `s` that are not whitespace. */
  function Visible(s: string): string {
    if s == [] then [] else (if IsPySpace(s[0]) then [] else [s[0]]) + Visible(s[1..])
  }

  lemma {:induction false} VisibleConcat(a: string, b: string)
    ensures Visible(a + b) == Visible(a) + Visible(b)
  {
    if a != [] {
      assert (a + b)[1..] == a[1..] + b;
      VisibleConcat(a[1..], b);
    } else {
      assert a + b == b;
    }
  }

  lemma {:induction false} VisibleOfSpace(a: string)
    requires All(a, IsPySpace)
    ensures Visible(a) == []
  {
    if a != [] {
      VisibleOfSpace(a[1..]);
    }
  }

  lemma {:induction false} CollapseSpaceNormal(s: string)
    ensures SingleSpaced(CollapseSpace(s))
    ensures Visible(CollapseSpace(s)) == Visible(s)
    decreases |s|
  {
    if s != [] {
      var n := if IsPySpace(s[0]) then LeadingCount(s, IsPySpace) else 1;
      var tail := s[n..];
      CollapseSpaceNormal(tail);
      assert s == s[..n] + tail;
      VisibleConcat(s[..n], tail);
      if IsPySpace(s[0]) {
        VisibleOfSpace(s[..n]);
        assert tail != [] ==> !IsPySpace(tail[0]);
      }
    }
  }

  /** Collapsing already single-spaced text changes nothing. */
  lemma {:induction false} CollapseSingleSpaced(s: string)
    requires SingleSpaced(s)
    ensures CollapseSpace(s) == s
    decreases |s|
  {
    if s != [] {
      if IsPySpace(s[0]) {
        assert |s| > 1 ==> !IsPySpace(s[1]);
        assert LeadingCount(s, IsPySpace) == 1;
      }
      assert SingleSpaced(s[1..]);
      CollapseSingleSpaced(s[1..]);
    }
  }

  /** `clean_text` is `strip` after collapsing: the collapsed text has no
      newline left, so it is a single line. */
  lemma CleanTextIsStripCollapse(text: string)
    ensures CleanText(text) == Strip(CollapseSpace(text), IsPySpace)
  {
    var c := CollapseSpace(text);
    CollapseSpaceNormal(text);
    if c != "" {
      assert '\n' !in c;
      SplitFree(c, '\n');
      assert SplitLines(c) == [c];
      StripUnpadded(Strip(c, IsPySpace), IsPySpace);
    }
  }

  lemma {:induction false} SliceSingleSpaced(s: string, i: nat, j: nat)
    requires SingleSpaced(s) && i <= j <= |s|
    ensures SingleSpaced(s[i..j])
  {
    assert forall k :: 0 <= k < j - i ==> s[i..j][k] == s[i + k];
  }

  /** Stripping removes whitespace only. */
  lemma VisibleStrip(s: string)
    ensures Visible(Strip(s, IsPySpace)) == Visible(s)
  {
    StripShape(s, IsPySpace);
    var i, r := LeadingCount(s, IsPySpace), Strip(s, IsPySpace);
    var a, b := s[..i], s[i + |r|..];
    assert s == a + r + b;
    VisibleConcat(a + r, b);
    VisibleConcat(a, r);
    VisibleOfSpace(a);
    VisibleOfSpace(b);
  }

  /** Stripping single-spaced text keeps it single-spaced. */
  lemma StripSingleSpaced(s: string)
    requires SingleSpaced(s)
    ensures SingleSpaced(Strip(s, IsPySpace))
  {
    StripShape(s, IsPySpace);
    var i := LeadingCount(s, IsPySpace);
    SliceSingleSpaced(s, i, i + |Strip(s, IsPySpace)|);
  }

  /** Single-spaced text has no newline. */
  lemma SingleSpacedNoNewline(s: string)
    requires SingleSpaced(s)
    ensures '\n' !in s
  {
    if '\n' in s {
      var k :| 0 <= k < |s| && s[k] == '\n';
      assert IsPySpace(s[k]);
    }
  }

  /** `clean_text` output: no whitespace at either end, no newline, only
      single spaces inside, and the same non-whitespace characters. */
  lemma CleanTextNormal(text: string)
    ensures Unpadded(CleanText(text), IsPySpace)
    ensures SingleSpaced(CleanText(text))
    ensures '\n' !in CleanText(text)
    ensures Visible(CleanText(text)) == Visible(text)
  {
    var c := CollapseSpace(text);
    CleanTextIsStripCollapse(text);
    CollapseSpaceNormal(text);
    StripSingleSpaced(c);
    SingleSpacedNoNewline(Strip(c, IsPySpace));
    VisibleStrip(c);
  }

  /** `clean_text` is idempotent. */
  lemma CleanTextIdempotent(text: string)
    ensures CleanText(CleanText(text)) == CleanText(text)
  {
    var r := CleanText(text);
    CleanTextNormal(text);
    CleanTextIsStripCollapse(r);
    CollapseSingleSpaced(r);
    StripUnpadded(r, IsPySpace);
  }

  // ---------------------------------------------------------------------
  // parse_document
  // ---------------------------------------------------------------------

  /** The file reader `parse_document` hands the path to. */
  datatype Reader = DocxReader | PdfReader

  const UnsupportedFileType: string := "Unsupported file type. Please use .docx or .pdf"

  /** `parse_document`: ".docx" is looked for first, then ".pdf"; anything else
      raises ValueError. */
  function ParseDocument(path: string): (r: Outcome<Reader>)
    ensures r == Ok(DocxReader) <==> EndsWith(path, ".docx")
    ensures r == Ok(PdfReader) <==> EndsWith(path, ".pdf")
    ensures r == Fault(UnsupportedFileType) <==> !EndsWith(path, ".docx") && !EndsWith(path, ".pdf")
  {
    if EndsWith(path, ".docx") then
      assert path[|path| - 4..][3] == path[|path| - 5..][4];
      Ok(DocxReader)
    else if EndsWith(path, ".pdf") then Ok(PdfReader)
    else Fault(UnsupportedFileType)
  }
}

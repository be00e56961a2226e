/** The pure helpers of the task pane: the overall score of a list of
    risks, the report text turned into markup line by line, and the colour a
    risk's clause is highlighted with. */
module Taskpane {
  import opened Outcomes
  import opened Text
  import Components
  import JsObject

  type RiskItem = Components.RiskItem

  // ---------------------------------------------------------------------
  // determineOverallScore
  // ---------------------------------------------------------------------

  /** `risks.some(r => r.risk_level === level)`. */
  predicate Has(risks: seq<RiskItem>, level: string) {
    exists k :: 0 <= k < |risks| && risks[k].riskLevel == level
  }

  /** `determineOverallScore(risks)`; a missing list is `None`. */
  function DetermineOverallScore(risks: Option<seq<RiskItem>>): (score: string)
    ensures score in Components.Levels
  {
    if risks.None? || risks.value == [] then "low"
    else if Has(risks.value, "critical") then "critical"
    else if Has(risks.value, "high") then "high"
    else if Has(risks.value, "medium") then "medium"
    else "low"
  }

  /** The severity order of the levels; an unrecognised level ranks with low. */
  function Severity(level: string): nat {
    if level == "critical" then 3 else if level == "high" then 2 else if level == "medium" then 1 else 0
  }

  function SeverityName(n: nat): string {
    if n >= 3 then "critical" else if n == 2 then "high" else if n == 1 then "medium" else "low"
  }

  /** The highest severity among the risks, 0 for none. */
  function MaxSeverity(risks: seq<RiskItem>): (m: nat)
    ensures m <= 3
  {
    if risks == [] then 0
    else
      var m := MaxSeverity(risks[..|risks| - 1]);
      var v := Severity(risks[|risks| - 1].riskLevel);
      if v > m then v else m
  }

  /** The maximum is reached: it is at least `n` exactly when some risk's
      severity is. */
  lemma {:induction false} MaxSeverityReached(risks: seq<RiskItem>, n: nat)
    ensures MaxSeverity(risks) >= n > 0 <==> exists k :: 0 <= k < |risks| && Severity(risks[k].riskLevel) >= n > 0
  {
    if risks != [] {
      var p := risks[..|risks| - 1];
      MaxSeverityReached(p, n);
      assert forall k :: 0 <= k < |p| ==> p[k] == risks[k];
    }
  }

  /** The score is the name of the highest severity among the risks: the
      fold of `some` tests agrees with a maximum, and unrecognised levels
      count for nothing. */
  lemma ScoreIsMaxSeverity(risks: seq<RiskItem>)
    ensures DetermineOverallScore(Some(risks)) == SeverityName(MaxSeverity(risks))
  {
    MaxSeverityReached(risks, 3);
    MaxSeverityReached(risks, 2);
    MaxSeverityReached(risks, 1);
    if Has(risks, "critical") {
      var k :| 0 <= k < |risks| && risks[k].riskLevel == "critical";
      assert Severity(risks[k].riskLevel) >= 3;
    } else if Has(risks, "high") {
      var k :| 0 <= k < |risks| && risks[k].riskLevel == "high";
      assert Severity(risks[k].riskLevel) >= 2;
    } else if Has(risks, "medium") {
      var k :| 0 <= k < |risks| && risks[k].riskLevel == "medium";
      assert Severity(risks[k].riskLevel) >= 1;
    }
  }

  /** A level occurs in a list exactly when it occurs in any reordering. */
  lemma HasReordered(a: seq<RiskItem>, b: seq<RiskItem>, level: string)
    requires multiset(a) == multiset(b)
    ensures Has(a, level) ==> Has(b, level)
  {
    if Has(a, level) {
      var k :| 0 <= k < |a| && a[k].riskLevel == level;
      assert a[k] in multiset(b);
      var j :| 0 <= j < |b| && b[j] == a[k];
    }
  }

  /** The score does not depend on the order of the risks. */
  lemma ScoreOrderFree(a: seq<RiskItem>, b: seq<RiskItem>)
    requires multiset(a) == multiset(b)
    ensures DetermineOverallScore(Some(a)) == DetermineOverallScore(Some(b))
  {
    HasReordered(a, b, "critical");
    HasReordered(b, a, "critical");
    HasReordered(a, b, "high");
    HasReordered(b, a, "high");
    HasReordered(a, b, "medium");
    HasReordered(b, a, "medium");
    if a == [] {
      assert |b| == |multiset(b)| == 0;
    }
  }

  /** The summary shows the computed score with a colour of its own: never
      the neutral one, danger exactly for critical and high. */
  lemma ScoreColorShown(risks: Option<seq<RiskItem>>)
    ensures var score, color := DetermineOverallScore(risks), Components.ScoreColor(DetermineOverallScore(risks));
            && color.Own? && color != JsObject.Own("neutral")
            && (color == JsObject.Own("danger") <==> score == "critical" || score == "high")
  {
    var score := DetermineOverallScore(risks);
    assert LowerAll("critical") == "critical";
    assert LowerAll("high") == "high";
    assert LowerAll("medium") == "medium";
    assert LowerAll("low") == "low";
    assert Components.ScoreOrUnknown(score) == score;
  }

  // ---------------------------------------------------------------------
  // formatReport
  // ---------------------------------------------------------------------

  predicate IsHash(c: char) { c == '#' }

  /** The line with the regular expression `^#+\s*` replaced by nothing: a
      run of '#' at the very start of the line, and the whitespace after it,
      removed. */
  function StripHashes(line: string): string {
    var h := LeadingCount(line, IsHash);
    if h == 0 then line
    else
      var rest := line[h..];
      rest[LeadingCount(rest, IsJsSpace)..]
  }

  /** What is left after a run of `h` '#' and a run of `w` whitespace
      characters, each as long as it goes. */
  lemma HashRunShape(line: string, h: nat, w: nat, r: string)
    requires 0 < h && h + w <= |line| && r == line[h + w..]
    requires forall k :: 0 <= k < h ==> line[k] == '#'
    requires forall k :: h <= k < h + w ==> IsJsSpace(line[k])
    requires h + w < |line| ==> !IsJsSpace(line[h + w])
    requires w == 0 && h < |line| ==> line[h] != '#'
    ensures var n := |line| - |r|;
            && 0 < n <= |line| && r == line[n..]
            && (forall k :: 0 <= k < n ==> line[k] == '#' || IsJsSpace(line[k]))
            && (r != [] ==> !IsJsSpace(r[0]))
            && (r != [] && r[0] == '#' ==> exists k :: 0 < k < n && IsJsSpace(line[k]))
  {
    assert |line| - |r| == h + w;
    if r != [] && r[0] == '#' {
      assert r[0] == line[h + w];
      assert IsJsSpace(line[h]);
    }
  }

  /** The runs that `StripHashes` measures, in terms of the line. */
  lemma HashRunFacts(line: string, h: nat, w: nat)
    requires line != [] && line[0] == '#'
    requires h == LeadingCount(line, IsHash) && w == LeadingCount(line[h..], IsJsSpace)
    ensures 0 < h && h + w <= |line|
    ensures forall k :: 0 <= k < h ==> line[k] == '#'
    ensures forall k :: h <= k < h + w ==> IsJsSpace(line[k])
    ensures h + w < |line| ==> !IsJsSpace(line[h + w])
    ensures w == 0 && h < |line| ==> line[h] != '#'
  {
    var rest := line[h..];
    assert forall k :: h <= k < h + w ==> line[k] == rest[k - h];
    assert h + w < |line| ==> line[h + w] == rest[w];
  }

  /** A line not starting with '#' is kept; otherwise what is removed is
      the whole leading run of '#' followed by whitespace, and what is left
      starts with neither. */
  lemma StripHashesShape(line: string)
    ensures line == [] || line[0] != '#' ==> StripHashes(line) == line
    ensures line != [] && line[0] == '#' ==>
              var r := StripHashes(line);
              var n := |line| - |r|;
              && 0 < n <= |line| && r == line[n..]
              && (forall k :: 0 <= k < n ==> line[k] == '#' || IsJsSpace(line[k]))
              && (r != [] ==> !IsJsSpace(r[0]))
              && (r != [] && r[0] == '#' ==> exists k :: 0 < k < n && IsJsSpace(line[k]))
  {
    if line != [] && line[0] == '#' {
      var h := LeadingCount(line, IsHash);
      var rest := line[h..];
      var w := LeadingCount(rest, IsJsSpace);
      HashRunFacts(line, h, w);
      assert StripHashes(line) == line[h + w..];
      HashRunShape(line, h, w, StripHashes(line));
    }
  }

  /** The line with every match of the global regular expression for two
      stars replaced by nothing, scanning from the left. */
  function RemovePairs(s: string): string
    decreases |s|
  {
    if |s| >= 2 && s[0] == '*' && s[1] == '*' then RemovePairs(s[2..])
    else if s == [] then []
    else [s[0]] + RemovePairs(s[1..])
  }

  /** No two stars side by side. */
  predicate NoPair(s: string) {
    forall k :: 0 <= k < |s| - 1 ==> !(s[k] == '*' && s[k + 1] == '*')
  }

  /** The characters other than '*', in order. */
  function Unstarred(s: string): string {
    if s == [] then [] else (if s[0] == '*' then [] else [s[0]]) + Unstarred(s[1..])
  }

  /** After the removal no "**" is left, the text other than stars is
      unchanged, and removing again changes nothing. */
  lemma {:induction false} RemovePairsMeaning(s: string)
    ensures NoPair(RemovePairs(s))
    ensures Unstarred(RemovePairs(s)) == Unstarred(s)
    ensures |s| > 0 && s[0] != '*' ==> RemovePairs(s) != [] && RemovePairs(s)[0] == s[0]
    decreases |s|
  {
    if |s| >= 2 && s[0] == '*' && s[1] == '*' {
      RemovePairsMeaning(s[2..]);
      assert Unstarred(s) == Unstarred(s[1..]) == Unstarred(s[2..]);
    } else if s != [] {
      var t := s[1..];
      RemovePairsMeaning(t);
      var r := [s[0]] + RemovePairs(t);
      assert r[1..] == RemovePairs(t);
      assert Unstarred(r) == (if s[0] == '*' then [] else [s[0]]) + Unstarred(RemovePairs(t));
      forall k | 0 <= k < |r| - 1
        ensures !(r[k] == '*' && r[k + 1] == '*')
      {
        if k > 0 {
          assert r[k] == RemovePairs(t)[k - 1] && r[k + 1] == RemovePairs(t)[k];
        } else if s[0] == '*' {
          assert t != [] && t[0] != '*';
        }
      }
    }
  }

  /** A text without "**" is left as it is. */
  lemma {:induction false} RemovePairsFixed(s: string)
    requires NoPair(s)
    ensures RemovePairs(s) == s
    decreases |s|
  {
    if s != [] {
      assert NoPair(s[1..]) by {
        forall k | 0 <= k < |s[1..]| - 1 ensures !(s[1..][k] == '*' && s[1..][k + 1] == '*') {
          assert s[1..][k] == s[k + 1] && s[1..][k + 1] == s[k + 2];
        }
      }
      RemovePairsFixed(s[1..]);
    }
  }

  lemma RemovePairsIdempotent(s: string)
    ensures RemovePairs(RemovePairs(s)) == RemovePairs(s)
  {
    RemovePairsMeaning(s);
    RemovePairsFixed(RemovePairs(s));
  }

  /** The markup of one report line. */
  function FormatLine(line: string): string {
    var t := Strip(line, IsJsSpace);
    if StartsWith(t, "##") then "<h4>" + StripHashes(line) + "</h4>"
    else if StartsWith(t, "**") then "<strong>" + RemovePairs(line) + "</strong>"
    else if t != "" then "<p>" + line + "</p>"
    else ""
  }

  /** `lines.map(f)`. */
  function Map(f: string -> string, lines: seq<string>): (r: seq<string>)
    ensures |r| == |lines|
    ensures forall k :: 0 <= k < |lines| ==> r[k] == f(lines[k])
  {
    if lines == [] then [] else [f(lines[0])] + Map(f, lines[1..])
  }

  /** `formatReport(report)`. */
  function FormatReport(report: string): string {
    Join("", Map(FormatLine, Split(report, '\n')))
  }

  /** A line is dropped exactly when it is blank. */
  lemma FormatLineBlank(line: string)
    ensures FormatLine(line) == "" <==> All(line, IsJsSpace)
  {
    StripShape(line, IsJsSpace);
  }

  /** Which of the three opening tags a tagged text starts with. */
  lemma OpeningTags(r: string, x: string)
    ensures r == "<h4>" + x + "</h4>" ==>
              StartsWith(r, "<h4>") && !StartsWith(r, "<strong>") && !StartsWith(r, "<p>")
    ensures r == "<strong>" + x + "</strong>" ==>
              !StartsWith(r, "<h4>") && StartsWith(r, "<strong>") && !StartsWith(r, "<p>")
    ensures r == "<p>" + x + "</p>" ==>
              !StartsWith(r, "<h4>") && !StartsWith(r, "<strong>") && StartsWith(r, "<p>")
  {
    if r == "<h4>" + x + "</h4>" {
      assert r[..4] == "<h4>" && r[1] == 'h';
    } else if r == "<strong>" + x + "</strong>" {
      assert r[..8] == "<strong>" && r[1] == 's';
    } else if r == "<p>" + x + "</p>" {
      assert r[..3] == "<p>" && r[1] == 'p';
    }
  }

  /** The tag of a line that is not blank: a heading exactly when it starts
      with "##" after trimming, bold exactly when it starts with "**"
      instead, and a paragraph in every other case. */
  lemma FormatLineTags(line: string)
    ensures var r, t := FormatLine(line), Strip(line, IsJsSpace);
            && (StartsWith(r, "<h4>") <==> StartsWith(t, "##"))
            && (StartsWith(r, "<strong>") <==> !StartsWith(t, "##") && StartsWith(t, "**"))
            && (StartsWith(r, "<p>") <==> !StartsWith(t, "##") && !StartsWith(t, "**") && t != "")
  {
    var r := FormatLine(line);
    var t := Strip(line, IsJsSpace);
    if StartsWith(t, "##") {
      OpeningTags(r, StripHashes(line));
    } else if StartsWith(t, "**") {
      OpeningTags(r, RemovePairs(line));
    } else {
      OpeningTags(r, line);
    }
  }

  /** A paragraph holds the line as it was; a bold line keeps its text
      other than stars and has no "**" left. */
  lemma FormatLineText(line: string)
    ensures var r, t := FormatLine(line), Strip(line, IsJsSpace);
            && (!StartsWith(t, "##") && !StartsWith(t, "**") && t != "" ==> r == "<p>" + line + "</p>")
            && (!StartsWith(t, "##") && StartsWith(t, "**") ==>
                  exists x :: r == "<strong>" + x + "</strong>" && NoPair(x) && Unstarred(x) == Unstarred(line))
  {
    RemovePairsMeaning(line);
  }

  /** The report is formatted line by line: the markup of two texts joined
      by a line break is the markup of each, one after the other. */
  lemma FormatReportConcat(a: string, b: string)
    ensures FormatReport(a + "\n" + b) == FormatReport(a) + FormatReport(b)
  {
    var p, q := Split(a, '\n'), Split(b, '\n');
    SplitConcat(a, b, '\n');
    MapConcat(FormatLine, p, q);
    JoinConcat("", Map(FormatLine, p), Map(FormatLine, q));
  }

  lemma MapConcat(f: string -> string, p: seq<string>, q: seq<string>)
    ensures Map(f, p + q) == Map(f, p) + Map(f, q)
  {
    var l, r := Map(f, p + q), Map(f, p) + Map(f, q);
    forall k | 0 <= k < |l| ensures l[k] == r[k] {
      if k < |p| {
        assert (p + q)[k] == p[k];
      } else {
        assert (p + q)[k] == q[k - |p|];
      }
    }
  }

  /** Text without a line break is formatted as one line. */
  lemma FormatReportLine(s: string)
    requires '\n' !in s
    ensures FormatReport(s) == FormatLine(s)
  {
    SplitFree(s, '\n');
  }

  // ---------------------------------------------------------------------
  // The highlight colour
  // ---------------------------------------------------------------------

  const HighlightColors: map<string, string> := map[
    "critical" := "#ff0000", "high" := "#ffa500", "medium" := "#ffff00", "low" := "#90ee90"]

  const DefaultHighlight: string := "#ffff00"

  /** `highlightColors[riskLevel] || '#ffff00'`. */
  function HighlightColor(level: string): JsObject.Property {
    JsObject.LookupOr(HighlightColors, level, DefaultHighlight)
  }

  /** Critical is red, high orange, low light green, and medium and every
      unrecognised level yellow, except that a level naming an inherited
      property of the literal (such as "constructor" or "toString") gets
      that member: two levels share a colour exactly when they are the same
      or both are yellow. */
  lemma HighlightCases(a: string, b: string)
    ensures HighlightColor("critical") == JsObject.Own("#ff0000")
    ensures HighlightColor("high") == JsObject.Own("#ffa500")
    ensures HighlightColor("low") == JsObject.Own("#90ee90")
    ensures a !in {"critical", "high", "low"} && a !in JsObject.PrototypeNames ==> HighlightColor(a) == JsObject.Own("#ffff00")
    ensures a in JsObject.PrototypeNames <==> HighlightColor(a) == JsObject.Inherited(a)
    ensures HighlightColor(a) == HighlightColor(b) <==>
              a == b || (HighlightColor(a) == JsObject.Own("#ffff00") && HighlightColor(b) == JsObject.Own("#ffff00"))
    ensures HighlightColor(a) == JsObject.Own("#ffff00") <==> a !in {"critical", "high", "low"} && a !in JsObject.PrototypeNames
  {
  }
}

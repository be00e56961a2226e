/** The markup builders of the add-in's task pane, as the structure they
    render: which blocks appear, in which order, with which counts and
    texts. Whitespace and the literal tags are not modelled. A field that is
    absent or falsy in the JSON is the empty string here. */
module Components {
  import opened Outcomes
  import opened Text
  import opened JsObject

  /** A risk as the add-in receives it. */
  datatype RiskItem = RiskItem(riskLevel: string, riskType: string, description: string, clauseText: string, mitigation: string)

  /** A clause as the add-in receives it: its `type`, `clause_type`, `text`
      and `content` fields. */
  datatype ClauseItem = ClauseItem(kind: string, clauseType: string, text: string, content: string)

  const Ellipsis: string := "..."

  /** `truncateText(text, maxLength)`. */
  function TruncateText(text: string, maxLength: nat): (r: string)
    ensures |r| <= maxLength + |Ellipsis|
    ensures |text| <= maxLength ==> r == text
    ensures |text| > maxLength ==> |r| == maxLength + |Ellipsis| && r[..maxLength] == text[..maxLength]
                                   && r[maxLength..] == Ellipsis
  {
    if text == "" || |text| <= maxLength then text else text[..maxLength] + Ellipsis
  }

  /** Truncating twice to the same length is truncating once. */
  lemma TruncateIdempotent(text: string, maxLength: nat)
    ensures TruncateText(TruncateText(text, maxLength), maxLength) == TruncateText(text, maxLength)
  {
    if |text| > maxLength {
      var r := TruncateText(text, maxLength);
      assert r[..maxLength] + Ellipsis == r;
    }
  }

  // ---------------------------------------------------------------------
  // createRiskSummary
  // ---------------------------------------------------------------------

  /** The levels the summary counts, in the order it shows them. */
  const Levels: seq<string> := ["critical", "high", "medium", "low"]

  /** `risks.filter(r => r.risk_level === level)`. */
  function WithLevel(risks: seq<RiskItem>, level: string): (r: seq<RiskItem>)
    ensures |r| <= |risks|
    ensures forall k :: 0 <= k < |r| ==> r[k].riskLevel == level
  {
    if risks == [] then []
    else (if risks[0].riskLevel == level then [risks[0]] else []) + WithLevel(risks[1..], level)
  }

  /** The levels of the risks, in order. */
  function LevelsOf(risks: seq<RiskItem>): seq<string> {
    seq(|risks|, k requires 0 <= k < |risks| => risks[k].riskLevel)
  }

  /** A level's count is the number of risks with exactly that level string. */
  lemma {:induction false} WithLevelCount(risks: seq<RiskItem>, level: string)
    ensures |WithLevel(risks, level)| == multiset(LevelsOf(risks))[level]
  {
    if risks != [] {
      WithLevelCount(risks[1..], level);
      assert LevelsOf(risks) == [risks[0].riskLevel] + LevelsOf(risks[1..]);
    }
  }

  /** How many risks have a level the summary does not count. */
  function Unrated(risks: seq<RiskItem>): nat {
    if risks == [] then 0
    else (if risks[0].riskLevel in Levels then 0 else 1) + Unrated(risks[1..])
  }

  /** One stat block: a level, its caption and its count. */
  datatype Stat = Stat(level: string, caption: string, count: nat)

  datatype RiskSummary = NoRisksDetected | Summary(stats: seq<Stat>)

  /** The block of one level, shown only when its count is positive. */
  function StatIf(risks: seq<RiskItem>, level: string, caption: string): seq<Stat> {
    var n := |WithLevel(risks, level)|;
    if n > 0 then [Stat(level, caption, n)] else []
  }

  function Stats(risks: seq<RiskItem>): seq<Stat> {
    StatIf(risks, "critical", "Critical") + StatIf(risks, "high", "High")
    + StatIf(risks, "medium", "Medium") + StatIf(risks, "low", "Low")
  }

  /** `createRiskSummary(risks)`; a missing list is `None`. */
  function CreateRiskSummary(risks: Option<seq<RiskItem>>): RiskSummary {
    if risks.None? || risks.value == [] then NoRisksDetected
    else Summary(Stats(risks.value))
  }

  function SumCounts(stats: seq<Stat>): nat {
    if stats == [] then 0 else stats[0].count + SumCounts(stats[1..])
  }

  lemma {:induction false} SumCountsConcat(a: seq<Stat>, b: seq<Stat>)
    ensures SumCounts(a + b) == SumCounts(a) + SumCounts(b)
  {
    if a != [] {
      assert (a + b)[1..] == a[1..] + b;
      SumCountsConcat(a[1..], b);
    } else {
      assert a + b == b;
    }
  }

  /** Every risk has one of the four levels or none of them. */
  lemma {:induction false} LevelsCover(risks: seq<RiskItem>)
    ensures |WithLevel(risks, "critical")| + |WithLevel(risks, "high")| + |WithLevel(risks, "medium")|
            + |WithLevel(risks, "low")| + Unrated(risks) == |risks|
  {
    if risks != [] {
      LevelsCover(risks[1..]);
    }
  }

  /** The position of a level in the summary's order. */
  function LevelRank(level: string): nat {
    if level == "critical" then 0 else if level == "high" then 1 else if level == "medium" then 2 else 3
  }

  /** The block of one level: there is one exactly when some risk has the
      level, and it carries their number. */
  lemma StatIfFacts(risks: seq<RiskItem>, level: string, caption: string)
    ensures var s := StatIf(risks, level, caption);
            && |s| <= 1 && (s != [] <==> |WithLevel(risks, level)| > 0)
            && (forall st :: st in s ==> st == Stat(level, caption, |WithLevel(risks, level)|))
            && SumCounts(s) == |WithLevel(risks, level)|
  {
  }

  /** The levels of the blocks rise strictly along the summary. */
  predicate Ordered(stats: seq<Stat>) {
    forall i, j :: 0 <= i < j < |stats| ==> LevelRank(stats[i].level) < LevelRank(stats[j].level)
  }

  lemma OrderedConcat(a: seq<Stat>, b: seq<Stat>, n: nat)
    requires Ordered(a) && Ordered(b)
    requires forall st :: st in a ==> LevelRank(st.level) < n
    requires forall st :: st in b ==> LevelRank(st.level) >= n
    ensures Ordered(a + b)
  {
    forall i, j | 0 <= i < j < |a + b|
      ensures LevelRank((a + b)[i].level) < LevelRank((a + b)[j].level)
    {
      if j < |a| {
        assert (a + b)[i] == a[i] && (a + b)[j] == a[j];
      } else if i >= |a| {
        assert (a + b)[i] == b[i - |a|] && (a + b)[j] == b[j - |a|];
      } else {
        assert (a + b)[i] == a[i] && (a + b)[j] == b[j - |a|];
      }
    }
  }

  lemma StatsOrdered(r: seq<RiskItem>)
    ensures Ordered(Stats(r))
  {
    var c, h, m, l := StatIf(r, "critical", "Critical"), StatIf(r, "high", "High"),
                      StatIf(r, "medium", "Medium"), StatIf(r, "low", "Low");
    StatIfFacts(r, "critical", "Critical");
    StatIfFacts(r, "high", "High");
    StatIfFacts(r, "medium", "Medium");
    StatIfFacts(r, "low", "Low");
    OrderedConcat(c, h, 1);
    OrderedConcat(c + h, m, 2);
    OrderedConcat(c + h + m, l, 3);
  }

  lemma StatsTotal(r: seq<RiskItem>)
    ensures SumCounts(Stats(r)) + Unrated(r) == |r|
  {
    var c, h, m, l := StatIf(r, "critical", "Critical"), StatIf(r, "high", "High"),
                      StatIf(r, "medium", "Medium"), StatIf(r, "low", "Low");
    StatIfFacts(r, "critical", "Critical");
    StatIfFacts(r, "high", "High");
    StatIfFacts(r, "medium", "Medium");
    StatIfFacts(r, "low", "Low");
    SumCountsConcat(c, h);
    SumCountsConcat(c + h, m);
    SumCountsConcat(c + h + m, l);
    LevelsCover(r);
  }

  /** Only a positive count makes a block. */
  lemma StatsPositive(r: seq<RiskItem>)
    ensures forall k :: 0 <= k < |Stats(r)| ==> Stats(r)[k].count > 0
  {
  }

  /** The summary of a non-empty list shows its blocks in the order
      critical, high, medium, low: the shown counts and the risks with any
      other level add up to the whole list, so a list whose levels are all
      unrecognised shows no block at all. */
  lemma RiskSummaryCounts(risks: Option<seq<RiskItem>>)
    ensures CreateRiskSummary(risks).NoRisksDetected? <==> risks.None? || risks.value == []
    ensures var s := CreateRiskSummary(risks);
            s.Summary? ==>
              && Ordered(s.stats)
              && SumCounts(s.stats) + Unrated(risks.value) == |risks.value|
              && (s.stats == [] <==> Unrated(risks.value) == |risks.value|)
  {
    if risks.Some? && risks.value != [] {
      var r := risks.value;
      StatsOrdered(r);
      StatsTotal(r);
      StatsPositive(r);
      if Stats(r) != [] {
        assert SumCounts(Stats(r)) >= Stats(r)[0].count > 0;
      }
    }
  }

  /** Each block of the summary is one of the four levels with the number
      of risks that have exactly that level, and a level has a block
      exactly when some risk has it. */
  lemma RiskSummaryBlocks(risks: seq<RiskItem>)
    requires risks != []
    ensures var s := CreateRiskSummary(Some(risks));
            && (forall st :: st in s.stats ==> st.level in Levels && st.count == |WithLevel(risks, st.level)| > 0)
            && (forall l :: l in Levels ==> (|WithLevel(risks, l)| > 0 <==> exists st :: st in s.stats && st.level == l))
  {
    var c, h, m, l := StatIf(risks, "critical", "Critical"), StatIf(risks, "high", "High"),
                      StatIf(risks, "medium", "Medium"), StatIf(risks, "low", "Low");
    StatIfFacts(risks, "critical", "Critical");
    StatIfFacts(risks, "high", "High");
    StatIfFacts(risks, "medium", "Medium");
    StatIfFacts(risks, "low", "Low");
    assert CreateRiskSummary(Some(risks)).stats == c + h + m + l;
  }

  // ---------------------------------------------------------------------
  // createRiskCards
  // ---------------------------------------------------------------------

  const ClauseTextLimit: nat := 150

  /** One risk card: its level class, the upper-cased badge, the type, the
      description, the truncated clause and the mitigation when present,
      and the index its highlight button carries. */
  datatype Card = Card(level: string, badge: string, riskType: string, description: string,
                       clause: Option<string>, mitigation: Option<string>, index: nat)

  datatype RiskDetails = NoDetails | Details(cards: seq<Card>)

  function CardOf(r: RiskItem, index: nat): Card {
    Card(r.riskLevel, UpperAll(r.riskLevel),
         if r.riskType == "" then "Legal Risk" else r.riskType,
         r.description,
         if r.clauseText == "" then None else Some(TruncateText(r.clauseText, ClauseTextLimit)),
         if r.mitigation == "" then None else Some(r.mitigation),
         index)
  }

  /** `createRiskCards(risks)`. */
  function CreateRiskCards(risks: Option<seq<RiskItem>>): RiskDetails {
    if risks.None? || risks.value == [] then NoDetails
    else Details(seq(|risks.value|, k requires 0 <= k < |risks.value| => CardOf(risks.value[k], k)))
  }

  /** One card per risk, in input order, whose button carries the risk's
      position; the badge is the level in capitals, a missing type reads
      "Legal Risk", and a clause or a mitigation is shown only when the risk
      has one, the clause cut to 150 characters. */
  lemma RiskCardsShape(risks: Option<seq<RiskItem>>)
    ensures CreateRiskCards(risks).NoDetails? <==> risks.None? || risks.value == []
    ensures var d := CreateRiskCards(risks);
            d.Details? ==>
              && |d.cards| == |risks.value|
              && forall k :: 0 <= k < |d.cards| ==>
                   var c, r := d.cards[k], risks.value[k];
                   && c.index == k && c.level == r.riskLevel
                   && LowerAll(c.badge) == LowerAll(r.riskLevel)
                   && (r.riskType != "" ==> c.riskType == r.riskType)
                   && (r.riskType == "" ==> c.riskType == "Legal Risk")
                   && c.description == r.description
                   && (c.mitigation.Some? <==> r.mitigation != "")
                   && (c.clause.Some? <==> r.clauseText != "")
                   && (c.clause.Some? ==> |c.clause.value| <= ClauseTextLimit + |Ellipsis|)
                   && (c.clause.Some? && |r.clauseText| <= ClauseTextLimit ==> c.clause.value == r.clauseText)
  {
  }

  // ---------------------------------------------------------------------
  // createClauseBreakdown
  // ---------------------------------------------------------------------

  const ItemTextLimit: nat := 80
  const ShownPerGroup: nat := 3

  /** `clause.type || clause.clause_type || 'Other'`. */
  function TypeOf(c: ClauseItem): string {
    if c.kind != "" then c.kind else if c.clauseType != "" then c.clauseType else "Other"
  }

  /** `clause.text || clause.content || ''`. */
  function TextOf(c: ClauseItem): string {
    if c.text != "" then c.text else c.content
  }

  /** `clausesByType`: the types in the order they were first seen, and the
      clauses of each type. */
  datatype Groups = Groups(keys: seq<string>, members: map<string, seq<ClauseItem>>)

  /** Every key is listed once and every listed key has a group. */
  predicate Keyed(g: Groups) {
    && (forall k :: 0 <= k < |g.keys| ==> g.keys[k] in g.members)
    && (forall t :: t in g.members ==> t in g.keys)
    && (forall i, j :: 0 <= i < j < |g.keys| ==> g.keys[i] != g.keys[j])
  }

  /** One turn of the `forEach`: start the type's group if it has none, then
      push the clause onto it. */
  function AddClause(g: Groups, c: ClauseItem): Groups {
    var t := TypeOf(c);
    if t in g.members then Groups(g.keys, g.members[t := g.members[t] + [c]])
    else Groups(g.keys + [t], g.members[t := [c]])
  }

  /** The grouping of the clauses, one `forEach` turn per clause. */
  function Grouped(clauses: seq<ClauseItem>): (g: Groups)
    ensures Keyed(g)
  {
    if clauses == [] then Groups([], map[])
    else AddClause(Grouped(clauses[..|clauses| - 1]), clauses[|clauses| - 1])
  }

  /** The clauses of one type, in input order. */
  function OfType(clauses: seq<ClauseItem>, t: string): seq<ClauseItem> {
    if clauses == [] then []
    else OfType(clauses[..|clauses| - 1], t) + (if TypeOf(clauses[|clauses| - 1]) == t then [clauses[|clauses| - 1]] else [])
  }

  /** The set of types that occur. */
  function TypesOf(clauses: seq<ClauseItem>): set<string> {
    set k | 0 <= k < |clauses| :: TypeOf(clauses[k])
  }

  lemma TypesOfSnoc(clauses: seq<ClauseItem>)
    requires clauses != []
    ensures TypesOf(clauses) == TypesOf(clauses[..|clauses| - 1]) + {TypeOf(clauses[|clauses| - 1])}
  {
    var p := clauses[..|clauses| - 1];
    assert forall k :: 0 <= k < |p| ==> p[k] == clauses[k];
  }

  /** The groups are exactly the types that occur. */
  lemma {:induction false} GroupedKeys(clauses: seq<ClauseItem>)
    ensures Grouped(clauses).members.Keys == TypesOf(clauses)
  {
    if clauses != [] {
      GroupedKeys(clauses[..|clauses| - 1]);
      TypesOfSnoc(clauses);
    }
  }

  /** Each group holds the clauses of its type in input order. */
  lemma {:induction false} GroupedMembers(clauses: seq<ClauseItem>)
    ensures var g := Grouped(clauses);
            forall t :: t in g.members ==> g.members[t] == OfType(clauses, t)
  {
    if clauses != [] {
      var p := clauses[..|clauses| - 1];
      var c := clauses[|clauses| - 1];
      var g, t := Grouped(p), TypeOf(c);
      GroupedMembers(p);
      forall u | u in Grouped(clauses).members
        ensures Grouped(clauses).members[u] == OfType(clauses, u)
      {
        if u == t && t !in g.members {
          GroupedKeys(p);
          NoneOfType(p, t);
        }
      }
    }
  }

  /** A type that no clause has has no clauses. */
  lemma {:induction false} NoneOfType(clauses: seq<ClauseItem>, t: string)
    requires t !in TypesOf(clauses)
    ensures OfType(clauses, t) == []
  {
    if clauses != [] {
      var p := clauses[..|clauses| - 1];
      assert forall k :: 0 <= k < |p| ==> p[k] == clauses[k];
      assert TypeOf(clauses[|clauses| - 1]) in set k | 0 <= k < |clauses| :: TypeOf(clauses[k]);
      NoneOfType(p, t);
    }
  }

  /** The sizes of the groups, in key order. */
  function Total(keys: seq<string>, m: map<string, seq<ClauseItem>>): nat {
    if keys == [] then 0
    else Total(keys[..|keys| - 1], m) + (if keys[|keys| - 1] in m then |m[keys[|keys| - 1]]| else 0)
  }

  /** Changing the group of a type that is not listed changes no total. */
  lemma {:induction false} TotalFrame(keys: seq<string>, m: map<string, seq<ClauseItem>>, t: string, v: seq<ClauseItem>)
    requires t !in keys
    ensures Total(keys, m[t := v]) == Total(keys, m)
  {
    if keys != [] {
      TotalFrame(keys[..|keys| - 1], m, t, v);
    }
  }

  /** Changing the group of a type listed once changes the total by the
      difference in its size. */
  lemma {:induction false} TotalBump(keys: seq<string>, m: map<string, seq<ClauseItem>>, t: string, v: seq<ClauseItem>)
    requires t in m && t in keys
    requires forall i, j :: 0 <= i < j < |keys| ==> keys[i] != keys[j]
    ensures Total(keys, m[t := v]) + |m[t]| == Total(keys, m) + |v|
  {
    var p, last := keys[..|keys| - 1], keys[|keys| - 1];
    if last == t {
      assert forall k :: 0 <= k < |p| ==> p[k] == keys[k] && p[k] != t;
      TotalFrame(p, m, t, v);
    } else {
      assert t in p by {
        var i :| 0 <= i < |keys| && keys[i] == t;
        assert p[i] == t;
      }
      TotalBump(p, m, t, v);
    }
  }

  /** The groups hold every clause once: their sizes add up to the number
      of clauses. */
  lemma {:induction false} GroupedTotal(clauses: seq<ClauseItem>)
    ensures Total(Grouped(clauses).keys, Grouped(clauses).members) == |clauses|
  {
    if clauses != [] {
      var p := clauses[..|clauses| - 1];
      var c := clauses[|clauses| - 1];
      var g := Grouped(p);
      var t := TypeOf(c);
      GroupedTotal(p);
      if t in g.members {
        TotalBump(g.keys, g.members, t, g.members[t] + [c]);
      } else {
        TotalFrame(g.keys, g.members, t, [c]);
        assert (g.keys + [t])[..|g.keys|] == g.keys;
      }
    }
  }

  /** Starting an empty group and pushing onto it is a one-clause group. */
  lemma PushNew(members: map<string, seq<ClauseItem>>, t: string, c: ClauseItem)
    ensures members[t := []][t := members[t := []][t] + [c]] == members[t := [c]]
  {
    assert [] + [c] == [c];
  }

  /** The `forEach` that builds `clausesByType`, pushing onto the groups
      in place. */
  method GroupByType(clauses: seq<ClauseItem>) returns (g: Groups)
    ensures g == Grouped(clauses)
  {
    var keys: seq<string> := [];
    var members: map<string, seq<ClauseItem>> := map[];
    for i := 0 to |clauses|
      invariant Grouped(clauses[..i]) == Groups(keys, members)
    {
      PrefixStep(clauses, i);
      ghost var before := Groups(keys, members);
      var clause := clauses[i];
      var t := TypeOf(clause);
      if t !in members {
        PushNew(members, t, clause);
        members := members[t := []];
        keys := keys + [t];
      }
      members := members[t := members[t] + [clause]];
      assert Groups(keys, members) == AddClause(before, clause);
    }
    assert clauses[..|clauses|] == clauses;
    g := Groups(keys, members);
  }

  /** One category of the breakdown: its type, its size, the texts of its
      first three clauses cut to 80 characters, and how many more it has. */
  datatype Group = Group(kind: string, count: nat, shown: seq<string>, more: Option<nat>)

  datatype Breakdown = NoClauses | Breakdown(total: nat, categories: nat, groups: seq<Group>)

  function GroupOf(t: string, members: seq<ClauseItem>): Group {
    var n := if |members| < ShownPerGroup then |members| else ShownPerGroup;
    Group(t, |members|,
          seq(n, j requires 0 <= j < n => TruncateText(TextOf(members[j]), ItemTextLimit)),
          if |members| > ShownPerGroup then Some(|members| - ShownPerGroup) else None)
  }

  function GroupsOf(g: Groups): seq<Group>
    requires Keyed(g)
  {
    seq(|g.keys|, k requires 0 <= k < |g.keys| => GroupOf(g.keys[k], g.members[g.keys[k]]))
  }

  /** `createClauseBreakdown(clauses)`. */
  function ClauseBreakdown(clauses: Option<seq<ClauseItem>>): Breakdown {
    if clauses.None? || clauses.value == [] then NoClauses
    else
      var g := Grouped(clauses.value);
      Breakdown(|clauses.value|, |g.keys|, GroupsOf(g))
  }

  method CreateClauseBreakdown(clauses: Option<seq<ClauseItem>>) returns (b: Breakdown)
    ensures b == ClauseBreakdown(clauses)
  {
    if clauses.None? || clauses.value == [] {
      return NoClauses;
    }
    var g := GroupByType(clauses.value);
    b := Breakdown(|clauses.value|, |g.keys|, GroupsOf(g));
  }

  /** The displayed sizes of the categories, in order. */
  function SumGroups(groups: seq<Group>): nat {
    if groups == [] then 0 else SumGroups(groups[..|groups| - 1]) + groups[|groups| - 1].count
  }

  lemma {:induction false} SumGroupsTotal(g: Groups, n: nat)
    requires Keyed(g) && n <= |g.keys|
    ensures SumGroups(GroupsOf(g)[..n]) == Total(g.keys[..n], g.members)
  {
    if n > 0 {
      SumGroupsTotal(g, n - 1);
      assert GroupsOf(g)[..n][..n - 1] == GroupsOf(g)[..n - 1];
      assert g.keys[..n][..n - 1] == g.keys[..n - 1];
    }
  }

  lemma SumGroupsAll(g: Groups)
    requires Keyed(g)
    ensures SumGroups(GroupsOf(g)) == Total(g.keys, g.members)
  {
    SumGroupsTotal(g, |g.keys|);
    assert GroupsOf(g)[..|g.keys|] == GroupsOf(g);
    assert g.keys[..|g.keys|] == g.keys;
  }

  /** The breakdown counts every clause, one category per distinct type,
      and the category sizes add up to the total. */
  lemma BreakdownCounts(cs: seq<ClauseItem>)
    requires cs != []
    ensures var b := ClauseBreakdown(Some(cs));
            && b.total == |cs| && b.categories == |TypesOf(cs)| == |b.groups|
            && SumGroups(b.groups) == b.total
  {
    var g := Grouped(cs);
    assert ClauseBreakdown(Some(cs)) == Breakdown(|cs|, |g.keys|, GroupsOf(g));
    GroupedKeys(cs);
    GroupedTotal(cs);
    SumGroupsAll(g);
    KeysCount(g);
  }

  /** Each category holds the clauses of its type, shows its first three
      at most, and a "more" line with the rest exactly when it has more
      than three. */
  lemma BreakdownGroups(cs: seq<ClauseItem>)
    requires cs != []
    ensures var b := ClauseBreakdown(Some(cs));
            forall k :: 0 <= k < |b.groups| ==>
              var gr := b.groups[k];
              && gr.count == |OfType(cs, gr.kind)|
              && |gr.shown| == (if gr.count < ShownPerGroup then gr.count else ShownPerGroup)
              && (gr.more.Some? <==> gr.count > ShownPerGroup)
              && (gr.more.Some? ==> gr.more.value == gr.count - ShownPerGroup)
  {
    GroupedMembers(cs);
  }

  /** A missing or empty list shows the message and nothing else. */
  lemma BreakdownEmpty(clauses: Option<seq<ClauseItem>>)
    ensures ClauseBreakdown(clauses).NoClauses? <==> clauses.None? || clauses.value == []
  {
  }

  /** The keys of a keyed grouping are as many as its groups. */
  lemma KeysCount(g: Groups)
    requires Keyed(g)
    ensures |g.keys| == |g.members.Keys|
  {
    DistinctCard(g.keys);
    assert g.members.Keys == set k | 0 <= k < |g.keys| :: g.keys[k];
  }

  lemma {:induction false} DistinctCard(keys: seq<string>)
    requires forall i, j :: 0 <= i < j < |keys| ==> keys[i] != keys[j]
    ensures |set k | 0 <= k < |keys| :: keys[k]| == |keys|
  {
    if keys != [] {
      var p := keys[..|keys| - 1];
      DistinctCard(p);
      assert (set k | 0 <= k < |keys| :: keys[k]) == (set k | 0 <= k < |p| :: p[k]) + {keys[|keys| - 1]};
    }
  }

  // ---------------------------------------------------------------------
  // createAnalysisSummary
  // ---------------------------------------------------------------------

  /** The colour classes of the overall score. */
  const ScoreColors: map<string, string> := map[
    "low" := "success", "medium" := "warning", "high" := "danger", "critical" := "danger", "unknown" := "neutral"]

  /** `analysis.overall_risk_score || 'unknown'`. */
  function ScoreOrUnknown(score: string): string {
    if score == "" then "unknown" else score
  }

  /** The colour class of a score: its lower-cased form looked up in the
      literal, neutral when the literal has no such property. */
  function ScoreColor(score: string): Property {
    LookupOr(ScoreColors, LowerAll(ScoreOrUnknown(score)), "neutral")
  }

  datatype AnalysisSummary = AnalysisSummary(color: Property, badge: string, summary: Option<string>)

  /** `createAnalysisSummary({overall_risk_score, summary})`. */
  function CreateAnalysisSummary(overallRiskScore: string, summary: string): AnalysisSummary {
    AnalysisSummary(ScoreColor(overallRiskScore), UpperAll(ScoreOrUnknown(overallRiskScore)),
                    if summary == "" then None else Some(summary))
  }

  /** The summary block: a missing score shows the badge "UNKNOWN" in the
      neutral colour; any other score is shown in capitals, otherwise
      letter for letter; the colour is that of the badge's own text, so it
      does not depend on the case of the score; the summary paragraph is
      there exactly when the summary is not empty, and holds it. */
  lemma AnalysisSummaryShape(score: string, summary: string)
    ensures var r := CreateAnalysisSummary(score, summary);
            && (score == "" ==> r.badge == "UNKNOWN" && r.color == Own("neutral"))
            && (score != "" ==> |r.badge| == |score| && LowerAll(r.badge) == LowerAll(score)
                                && forall k :: 0 <= k < |r.badge| ==> !IsLowerAscii(r.badge[k]))
            && r.color == ScoreColor(r.badge)
            && (r.summary.Some? <==> summary != "")
            && (r.summary.Some? ==> r.summary.value == summary)
  {
    var r := CreateAnalysisSummary(score, summary);
    var shown := ScoreOrUnknown(score);
    assert LowerAll("unknown") == "unknown";
    assert UpperAll("unknown") == "UNKNOWN";
    assert LowerAll("UNKNOWN") == "unknown";
    UpperAllChanges(shown);
    LowerOfUpper(shown);
    assert UpperAll(shown) != "";
    ScoreColorCaseBlind(r.badge, shown);
  }

  /** The colour of a score regardless of its case: low is success, medium
      is warning, high and critical are danger, a missing score is neutral.
      Of the inherited names only those without a capital letter survive
      `toLowerCase()`: a score reading "constructor" or "__proto__" in any
      case gets the inherited member; any other score is neutral. */
  lemma ScoreColorCases(score: string)
    ensures var l, c := LowerAll(score), ScoreColor(score);
            && (l == "low" ==> c == Own("success"))
            && (l == "medium" ==> c == Own("warning"))
            && (l == "high" || l == "critical" ==> c == Own("danger"))
            && (score == "" ==> c == Own("neutral"))
            && (c.Inherited? <==> l == "constructor" || l == "__proto__")
            && (c.Inherited? ==> c.name == l)
            && (l !in {"low", "medium", "high", "critical", "constructor", "__proto__"} ==> c == Own("neutral"))
  {
    var l := LowerAll(score);
    LowerAllChanges(score);
    if score == "" {
      assert LowerAll("unknown") == "unknown";
    } else {
      LowerInPrototype(l);
    }
  }

  /** Scores that differ only in case get the same colour. */
  lemma ScoreColorCaseBlind(a: string, b: string)
    requires LowerAll(a) == LowerAll(b)
    ensures ScoreColor(a) == ScoreColor(b)
  {
    assert |a| == |b|;
  }
}

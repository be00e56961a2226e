/** The comparison agent: the greedy alignment of the clauses of document A
    with those of document B over their similarity matrix, and the node that
    stores the changes in the state. */
module ComparisonAgent {
  import opened Outcomes
  import opened AgentState
  import DocumentParser
  import Text

  type Clause = DocumentParser.Clause

  /** A similarity strictly above this is an identical clause. */
  const Identical: real := 0.98
  /** A similarity strictly above this (and not above `Identical`) is a
      modified clause. */
  const Related: real := 0.75

  const RemovedNote: string := "This clause from Document A was not found in Document B."
  const AddedNote: string := "This clause was newly added in Document B."
  /** The exception of the similarity computation on an empty clause list;
      its text belongs to the numerical library. */
  const EmptySimilarity: string := "cosine_similarity: empty input"

  const ComparisonComplete: string := "Comparison Complete"

  /** Row i, column j: the similarity of clause i of A and clause j of B. */
  type Matrix = seq<seq<real>>

  predicate Rows(sim: Matrix, n: nat) {
    forall i :: 0 <= i < |sim| ==> |sim[i]| == n
  }

  /** `np.argmax`: the first index holding the row's maximum. */
  function ArgMax(row: seq<real>): (j: nat)
    requires |row| > 0
    ensures j < |row|
  {
    if |row| == 1 then 0
    else
      var j := ArgMax(row[..|row| - 1]);
      if row[|row| - 1] > row[j] then |row| - 1 else j
  }

  /** `ArgMax` holds a maximum of the row, and no earlier index does. */
  lemma {:induction false} ArgMaxIs(row: seq<real>)
    requires |row| > 0
    ensures forall k :: 0 <= k < |row| ==> row[k] <= row[ArgMax(row)]
    ensures forall k :: 0 <= k < ArgMax(row) ==> row[k] < row[ArgMax(row)]
  {
    if |row| > 1 {
      var p := row[..|row| - 1];
      ArgMaxIs(p);
      assert forall k :: 0 <= k < |p| ==> p[k] == row[k];
    }
  }

  /** The B clause that A clause i is compared with. */
  function Best(sim: Matrix, n: nat, i: nat): (j: nat)
    requires Rows(sim, n) && n > 0 && i < |sim|
    ensures j < n
  {
    ArgMax(sim[i])
  }

  function Score(sim: Matrix, n: nat, i: nat): real
    requires Rows(sim, n) && n > 0 && i < |sim|
  {
    sim[i][Best(sim, n, i)]
  }

  /** The matched B indices after the first `i` A clauses: an identical
      match always adds its index, and a modified match adds it unless it
      is there already. */
  function Claimed(sim: Matrix, n: nat, i: nat): set<nat>
    requires Rows(sim, n) && n > 0 && i <= |sim|
  {
    if i == 0 then {}
    else Claimed(sim, n, i - 1) + (if Score(sim, n, i - 1) > Related then {Best(sim, n, i - 1)} else {})
  }

  /** A record to emit, by clause indices. */
  datatype Entry = ModifiedPair(a: nat, b: nat) | RemovedRow(a: nat) | AddedColumn(b: nat)

  /** What A clause i emits when `claimed` is matched before it. */
  function RowEntries(sim: Matrix, n: nat, i: nat, claimed: set<nat>): seq<Entry>
    requires Rows(sim, n) && n > 0 && i < |sim|
  {
    var j, s := Best(sim, n, i), Score(sim, n, i);
    if s > Identical then []
    else if s > Related then (if j in claimed then [] else [ModifiedPair(i, j)])
    else [RemovedRow(i)]
  }

  /** The entries of the first `i` A clauses. */
  function RowsPlan(sim: Matrix, n: nat, i: nat): seq<Entry>
    requires Rows(sim, n) && n > 0 && i <= |sim|
  {
    if i == 0 then [] else RowsPlan(sim, n, i - 1) + RowEntries(sim, n, i - 1, Claimed(sim, n, i - 1))
  }

  /** The entries of the first `j` B clauses not in `claimed`. */
  function AddedPlan(claimed: set<nat>, j: nat): seq<Entry> {
    if j == 0 then [] else AddedPlan(claimed, j - 1) + (if j - 1 in claimed then [] else [AddedColumn(j - 1)])
  }

  /** Every record of the comparison, by clause indices, in emission order. */
  function Plan(sim: Matrix, n: nat): seq<Entry>
    requires Rows(sim, n) && n > 0
  {
    RowsPlan(sim, n, |sim|) + AddedPlan(Claimed(sim, n, |sim|), n)
  }

  // ---------------------------------------------------------------------
  // What the plan is
  // ---------------------------------------------------------------------

  /** An index is matched exactly when some earlier A clause had it as its
      best column with a similarity above 0.75. */
  lemma {:induction false} ClaimedIs(sim: Matrix, n: nat, i: nat, j: nat)
    requires Rows(sim, n) && n > 0 && i <= |sim|
    ensures j in Claimed(sim, n, i) <==> exists k :: 0 <= k < i && Score(sim, n, k) > Related && Best(sim, n, k) == j
  {
    if i > 0 {
      ClaimedIs(sim, n, i - 1, j);
      if Score(sim, n, i - 1) > Related && Best(sim, n, i - 1) == j {
        assert j in Claimed(sim, n, i);
      }
    }
  }

  lemma {:induction false} RowsPlanLength(sim: Matrix, n: nat, i: nat)
    requires Rows(sim, n) && n > 0 && i <= |sim|
    ensures |RowsPlan(sim, n, i)| <= i
  {
    if i > 0 {
      RowsPlanLength(sim, n, i - 1);
    }
  }

  lemma {:induction false} AddedPlanLength(claimed: set<nat>, j: nat)
    ensures |AddedPlan(claimed, j)| <= j
  {
    if j > 0 {
      AddedPlanLength(claimed, j - 1);
    }
  }

  /** At most one record per clause of either document. */
  lemma PlanLength(sim: Matrix, n: nat)
    requires Rows(sim, n) && n > 0
    ensures |Plan(sim, n)| <= |sim| + n
  {
    RowsPlanLength(sim, n, |sim|);
    AddedPlanLength(Claimed(sim, n, |sim|), n);
  }

  /** The entries about A clause i. */
  function RowPart(plan: seq<Entry>, i: nat): seq<Entry> {
    if plan == [] then []
    else RowPart(plan[..|plan| - 1], i) + (if !plan[|plan| - 1].AddedColumn? && plan[|plan| - 1].a == i then [plan[|plan| - 1]] else [])
  }

  lemma {:induction false} RowPartConcat(p: seq<Entry>, q: seq<Entry>, i: nat)
    ensures RowPart(p + q, i) == RowPart(p, i) + RowPart(q, i)
    decreases |q|
  {
    if q == [] {
      assert p + q == p;
    } else {
      var r := q[..|q| - 1];
      assert (p + q)[..|p + q| - 1] == p + r;
      RowPartConcat(p, r, i);
    }
  }

  lemma RowPartOne(e: Entry, k: nat)
    ensures RowPart([e], k) == if !e.AddedColumn? && e.a == k then [e] else []
  {
    assert [e][..0] == [];
  }

  /** A clause emits at most one entry, and it is about that clause. */
  lemma RowEntriesShape(sim: Matrix, n: nat, i: nat, claimed: set<nat>)
    requires Rows(sim, n) && n > 0 && i < |sim|
    ensures var e := RowEntries(sim, n, i, claimed);
            e == [] || (e == [e[0]] && !e[0].AddedColumn? && e[0].a == i
                        && (e[0].ModifiedPair? ==> e[0].b == Best(sim, n, i) && Related < Score(sim, n, i) && e[0].b !in claimed))
  {
  }

  /** Appending the entries of clause i leaves the part of any other
      clause as it was, and adds them to the part of clause i. */
  lemma RowPartStep(p: seq<Entry>, e: seq<Entry>, i: nat, k: nat)
    requires e == [] || (e == [e[0]] && !e[0].AddedColumn? && e[0].a == i)
    ensures k != i ==> RowPart(p + e, k) == RowPart(p, k)
    ensures k == i ==> RowPart(p + e, k) == RowPart(p, k) + e
  {
    RowPartConcat(p, e, k);
    if e != [] {
      RowPartOne(e[0], k);
    } else {
      assert RowPart(p, k) + [] == RowPart(p, k);
    }
  }

  /** The entries of clause i are about clause i only. */
  lemma RowEntriesAbout(sim: Matrix, n: nat, i: nat, claimed: set<nat>)
    requires Rows(sim, n) && n > 0 && i < |sim|
    ensures var e := RowEntries(sim, n, i, claimed);
            e == [] || (e == [e[0]] && !e[0].AddedColumn? && e[0].a == i)
  {
    RowEntriesShape(sim, n, i, claimed);
  }

  /** No entry of the first i clauses is about a later clause. */
  lemma {:induction false} RowsPlanPartAbove(sim: Matrix, n: nat, i: nat, k: nat)
    requires Rows(sim, n) && n > 0 && i <= |sim| && i <= k
    ensures RowPart(RowsPlan(sim, n, i), k) == []
  {
    if i > 0 {
      var p, e := RowsPlan(sim, n, i - 1), RowEntries(sim, n, i - 1, Claimed(sim, n, i - 1));
      assert RowsPlan(sim, n, i) == p + e;
      RowsPlanPartAbove(sim, n, i - 1, k);
      RowEntriesAbout(sim, n, i - 1, Claimed(sim, n, i - 1));
      RowPartStep(p, e, i - 1, k);
    }
  }

  /** Later clauses add nothing to the part of clause k. */
  lemma {:induction false} RowsPlanPartStays(sim: Matrix, n: nat, i: nat, k: nat)
    requires Rows(sim, n) && n > 0 && k < i <= |sim|
    ensures RowPart(RowsPlan(sim, n, i), k) == RowPart(RowsPlan(sim, n, k + 1), k)
  {
    if i > k + 1 {
      var p, e := RowsPlan(sim, n, i - 1), RowEntries(sim, n, i - 1, Claimed(sim, n, i - 1));
      assert RowsPlan(sim, n, i) == p + e;
      RowEntriesAbout(sim, n, i - 1, Claimed(sim, n, i - 1));
      RowPartStep(p, e, i - 1, k);
      assert RowPart(RowsPlan(sim, n, i), k) == RowPart(p, k);
      RowsPlanPartStays(sim, n, i - 1, k);
    }
  }

  /** The entries about clause k are those it emits. */
  lemma RowsPlanPart(sim: Matrix, n: nat, i: nat, k: nat)
    requires Rows(sim, n) && n > 0 && k < i <= |sim|
    ensures RowPart(RowsPlan(sim, n, i), k) == RowEntries(sim, n, k, Claimed(sim, n, k))
  {
    var p, e := RowsPlan(sim, n, k), RowEntries(sim, n, k, Claimed(sim, n, k));
    assert RowsPlan(sim, n, k + 1) == p + e;
    RowsPlanPartAbove(sim, n, k, k);
    RowEntriesAbout(sim, n, k, Claimed(sim, n, k));
    RowPartStep(p, e, k, k);
    assert [] + e == e;
    RowsPlanPartStays(sim, n, i, k);
  }

  /** One step of the B pass: an unmatched index emits its addition. */
  lemma AddedPlanStep(claimed: set<nat>, j: nat)
    requires j > 0
    ensures j - 1 in claimed ==> AddedPlan(claimed, j) == AddedPlan(claimed, j - 1)
    ensures j - 1 !in claimed ==> AddedPlan(claimed, j) == AddedPlan(claimed, j - 1) + [AddedColumn(j - 1)]
  {
    assert AddedPlan(claimed, j - 1) + [] == AddedPlan(claimed, j - 1);
  }

  lemma {:induction false} AddedPlanPart(claimed: set<nat>, j: nat, k: nat)
    ensures RowPart(AddedPlan(claimed, j), k) == []
  {
    if j > 0 {
      AddedPlanPart(claimed, j - 1, k);
      AddedPlanStep(claimed, j);
      if j - 1 !in claimed {
        var p, e := AddedPlan(claimed, j - 1), AddedColumn(j - 1);
        RowPartConcat(p, [e], k);
        RowPartOne(e, k);
        assert RowPart(p, k) + RowPart([e], k) == [];
      }
    }
  }

  /** The records of A clause i, by its best similarity s and the matches
      of the clauses before it: none when s > 0.98 (its index becomes
      matched); one modified pair with its best B clause when
      0.75 < s <= 0.98 and that clause is unmatched (it becomes matched);
      none when that clause is already matched; one removal when s <= 0.75. */
  lemma RowVerdict(sim: Matrix, n: nat, i: nat)
    requires Rows(sim, n) && n > 0 && i < |sim|
    ensures var s, j, before := Score(sim, n, i), Best(sim, n, i), Claimed(sim, n, i);
            && (s > Identical ==> RowPart(Plan(sim, n), i) == [] && j in Claimed(sim, n, i + 1))
            && (Related < s <= Identical && j !in before ==>
                  RowPart(Plan(sim, n), i) == [ModifiedPair(i, j)] && j in Claimed(sim, n, i + 1))
            && (Related < s <= Identical && j in before ==> RowPart(Plan(sim, n), i) == [])
            && (s <= Related ==> RowPart(Plan(sim, n), i) == [RemovedRow(i)])
  {
    RowsPlanPart(sim, n, |sim|, i);
    AddedPlanPart(Claimed(sim, n, |sim|), n, i);
    RowPartConcat(RowsPlan(sim, n, |sim|), AddedPlan(Claimed(sim, n, |sim|), n), i);
  }

  /** The entries that use B clause j. */
  function ColumnPart(plan: seq<Entry>, j: nat): seq<Entry> {
    if plan == [] then []
    else ColumnPart(plan[..|plan| - 1], j) + (if !plan[|plan| - 1].RemovedRow? && plan[|plan| - 1].b == j then [plan[|plan| - 1]] else [])
  }

  lemma {:induction false} ColumnPartConcat(p: seq<Entry>, q: seq<Entry>, j: nat)
    ensures ColumnPart(p + q, j) == ColumnPart(p, j) + ColumnPart(q, j)
    decreases |q|
  {
    if q == [] {
      assert p + q == p;
    } else {
      var r := q[..|q| - 1];
      assert (p + q)[..|p + q| - 1] == p + r;
      ColumnPartConcat(p, r, j);
    }
  }

  lemma ColumnPartOne(e: Entry, j: nat)
    ensures ColumnPart([e], j) == if !e.RemovedRow? && e.b == j then [e] else []
  {
    assert [e][..0] == [];
  }

  /** Appending the entries of one clause of A adds to the part of B
      clause j only a modified pair with that clause. */
  lemma ColumnPartStep(p: seq<Entry>, e: seq<Entry>, i: nat, j: nat)
    requires e == [] || (e == [e[0]] && !e[0].AddedColumn? && e[0].a == i)
    ensures e == [] || !e[0].ModifiedPair? || e[0].b != j ==> ColumnPart(p + e, j) == ColumnPart(p, j)
    ensures e != [] && e[0].ModifiedPair? && e[0].b == j ==> ColumnPart(p + e, j) == ColumnPart(p, j) + e
  {
    ColumnPartConcat(p, e, j);
    if e != [] {
      ColumnPartOne(e[0], j);
    } else {
      assert ColumnPart(p, j) + [] == ColumnPart(p, j);
    }
  }

  /** Before the B pass, B clause j is used at most once, by a modified
      pair, and only if it is matched. */
  lemma {:induction false} RowsPlanColumn(sim: Matrix, n: nat, i: nat, j: nat)
    requires Rows(sim, n) && n > 0 && i <= |sim|
    ensures var c := ColumnPart(RowsPlan(sim, n, i), j);
            c == [] || (c == [c[0]] && c[0].ModifiedPair? && j in Claimed(sim, n, i))
  {
    if i > 0 {
      var before := Claimed(sim, n, i - 1);
      var p, e := RowsPlan(sim, n, i - 1), RowEntries(sim, n, i - 1, before);
      assert RowsPlan(sim, n, i) == p + e;
      assert before <= Claimed(sim, n, i);
      RowsPlanColumn(sim, n, i - 1, j);
      RowEntriesShape(sim, n, i - 1, before);
      ColumnPartStep(p, e, i - 1, j);
      if e != [] && e[0].ModifiedPair? && e[0].b == j {
        assert j in Claimed(sim, n, i);
        assert j !in before;
        assert ColumnPart(p, j) == [];
        assert [] + e == e;
      }
    }
  }

  /** The B pass emits one addition for each unmatched index below `k`. */
  lemma {:induction false} AddedPlanColumn(claimed: set<nat>, k: nat, j: nat)
    ensures ColumnPart(AddedPlan(claimed, k), j) == if j < k && j !in claimed then [AddedColumn(j)] else []
  {
    if k > 0 {
      AddedPlanColumn(claimed, k - 1, j);
      AddedPlanStep(claimed, k);
      if k - 1 !in claimed {
        var p, e := AddedPlan(claimed, k - 1), AddedColumn(k - 1);
        ColumnPartConcat(p, [e], j);
        ColumnPartOne(e, j);
        if j == k - 1 {
          assert ColumnPart(p, j) + ColumnPart([e], j) == [e];
        } else {
          assert ColumnPart(p, j) + ColumnPart([e], j) == ColumnPart(p, j);
        }
      }
    }
  }

  /** Every B clause is used by at most one record: by a modified pair when
      it was matched after a modified verdict, by an addition exactly when
      no A clause matched it, never by both. */
  lemma ColumnOnce(sim: Matrix, n: nat, j: nat)
    requires Rows(sim, n) && n > 0
    ensures |ColumnPart(Plan(sim, n), j)| <= 1
    ensures AddedColumn(j) in ColumnPart(Plan(sim, n), j) <==> j < n && j !in Claimed(sim, n, |sim|)
    ensures forall e :: e in ColumnPart(Plan(sim, n), j) && e.ModifiedPair? ==> j in Claimed(sim, n, |sim|)
  {
    var claimed := Claimed(sim, n, |sim|);
    RowsPlanColumn(sim, n, |sim|, j);
    AddedPlanColumn(claimed, n, j);
    ColumnPartConcat(RowsPlan(sim, n, |sim|), AddedPlan(claimed, n), j);
  }

  /** `x` may come before `y`: A entries in A order, then additions in B order. */
  predicate Precedes(x: Entry, y: Entry) {
    match x
    case AddedColumn(bx) => y.AddedColumn? && bx < y.b
    case _ => y.AddedColumn? || x.a < y.a
  }

  predicate Ordered(plan: seq<Entry>) {
    forall k1, k2 :: 0 <= k1 < k2 < |plan| ==> Precedes(plan[k1], plan[k2])
  }

  lemma OrderedSnoc(p: seq<Entry>, e: Entry)
    requires Ordered(p)
    requires forall k :: 0 <= k < |p| ==> Precedes(p[k], e)
    ensures Ordered(p + [e])
  {
    var q := p + [e];
    forall k1, k2 | 0 <= k1 < k2 < |q| ensures Precedes(q[k1], q[k2]) {
      if k2 == |p| {
        assert q[k1] == p[k1];
      } else {
        assert q[k1] == p[k1] && q[k2] == p[k2];
      }
    }
  }

  lemma {:induction false} RowsPlanOrdered(sim: Matrix, n: nat, i: nat)
    requires Rows(sim, n) && n > 0 && i <= |sim|
    ensures Ordered(RowsPlan(sim, n, i))
    ensures forall k :: 0 <= k < |RowsPlan(sim, n, i)| ==> !RowsPlan(sim, n, i)[k].AddedColumn? && RowsPlan(sim, n, i)[k].a < i
  {
    if i > 0 {
      var p := RowsPlan(sim, n, i - 1);
      var e := RowEntries(sim, n, i - 1, Claimed(sim, n, i - 1));
      RowsPlanOrdered(sim, n, i - 1);
      if e != [] {
        OrderedSnoc(p, e[0]);
        assert e == [e[0]];
      } else {
        assert p + e == p;
      }
    }
  }

  lemma {:induction false} AddedPlanOrdered(claimed: set<nat>, j: nat)
    ensures Ordered(AddedPlan(claimed, j))
    ensures forall k :: 0 <= k < |AddedPlan(claimed, j)| ==> AddedPlan(claimed, j)[k].AddedColumn? && AddedPlan(claimed, j)[k].b < j
  {
    if j > 0 {
      var p := AddedPlan(claimed, j - 1);
      AddedPlanOrdered(claimed, j - 1);
      if j - 1 !in claimed {
        OrderedSnoc(p, AddedColumn(j - 1));
      } else {
        assert p + [] == p;
      }
    }
  }

  /** The records of A come in A order, and after them the additions in B order. */
  lemma PlanOrdered(sim: Matrix, n: nat)
    requires Rows(sim, n) && n > 0
    ensures Ordered(Plan(sim, n))
  {
    var p, q := RowsPlan(sim, n, |sim|), AddedPlan(Claimed(sim, n, |sim|), n);
    RowsPlanOrdered(sim, n, |sim|);
    AddedPlanOrdered(Claimed(sim, n, |sim|), n);
    var r := p + q;
    forall k1, k2 | 0 <= k1 < k2 < |r| ensures Precedes(r[k1], r[k2]) {
      if k2 < |p| {
        assert r[k1] == p[k1] && r[k2] == p[k2];
      } else if k1 < |p| {
        assert r[k1] == p[k1] && r[k2] == q[k2 - |p|];
      } else {
        assert r[k1] == q[k1 - |p|] && r[k2] == q[k2 - |p|];
      }
    }
  }

  // ---------------------------------------------------------------------
  // Records
  // ---------------------------------------------------------------------

  /** The clause indices of an entry are those of an m by n matrix. */
  predicate EntryIn(e: Entry, m: nat, n: nat) {
    match e
    case ModifiedPair(i, j) => i < m && j < n
    case RemovedRow(i) => i < m
    case AddedColumn(j) => j < n
  }

  predicate InRange(plan: seq<Entry>, m: nat, n: nat) {
    forall k :: 0 <= k < |plan| ==> EntryIn(plan[k], m, n)
  }

  lemma PlanInRange(sim: Matrix, n: nat)
    requires Rows(sim, n) && n > 0
    ensures InRange(Plan(sim, n), |sim|, n)
  {
    var p := Plan(sim, n);
    RowsPlanOrdered(sim, n, |sim|);
    AddedPlanOrdered(Claimed(sim, n, |sim|), n);
    RowsPlanColumnRange(sim, n, |sim|);
    forall k | 0 <= k < |p| && p[k].ModifiedPair? ensures p[k].b < n {
      assert p[k] in RowsPlan(sim, n, |sim|);
    }
  }

  lemma {:induction false} RowsPlanColumnRange(sim: Matrix, n: nat, i: nat)
    requires Rows(sim, n) && n > 0 && i <= |sim|
    ensures forall e :: e in RowsPlan(sim, n, i) && e.ModifiedPair? ==> e.b < n
  {
    if i > 0 {
      RowsPlanColumnRange(sim, n, i - 1);
    }
  }

  lemma RowsPlanIn(sim: Matrix, n: nat, i: nat)
    requires Rows(sim, n) && n > 0 && i <= |sim|
    ensures InRange(RowsPlan(sim, n, i), |sim|, n)
  {
    var p := RowsPlan(sim, n, i);
    RowsPlanOrdered(sim, n, i);
    RowsPlanColumnRange(sim, n, i);
    forall k | 0 <= k < |p| ensures EntryIn(p[k], |sim|, n) {
      assert p[k] in p;
    }
  }

  /** The oracle request of a modified pair: the contents of both clauses. */
  function Query(a: seq<Clause>, b: seq<Clause>, i: nat, j: nat): (string, string)
    requires i < |a| && j < |b|
  {
    (a[i].content, b[j].content)
  }

  /** The record of an entry, given the explanation of a modified pair. */
  function Record(a: seq<Clause>, b: seq<Clause>, e: Entry, explanation: string): Change
    requires EntryIn(e, |a|, |b|)
  {
    match e
    case ModifiedPair(i, j) => Change(Modified, a[i].number, a[i].content, b[j].number, b[j].content, explanation)
    case RemovedRow(i) => Change(Removed, a[i].number, a[i].content, "", "", RemovedNote)
    case AddedColumn(j) => Change(Added, "", "", b[j].number, b[j].content, AddedNote)
  }

  /** The changes, or the first exception of the explanation oracle, and
      the requests made to that oracle, in order. */
  datatype Report = Report(changes: Outcome<seq<Change>>, asked: seq<(string, string)>)

  /** The report after one more entry. */
  function Emit(a: seq<Clause>, b: seq<Clause>, r: Report, e: Entry,
                explain: (string, string) -> Outcome<string>): Report
    requires EntryIn(e, |a|, |b|)
  {
    if r.changes.Fault? then r
    else match e
      case ModifiedPair(i, j) =>
        var q := Query(a, b, i, j);
        var x := explain(q.0, q.1);
        if x.Fault? then Report(Fault(x.message), r.asked + [q])
        else Report(Ok(r.changes.value + [Record(a, b, e, x.value)]), r.asked + [q])
      case _ => Report(Ok(r.changes.value + [Record(a, b, e, "")]), r.asked)
  }

  lemma InRangePrefix(plan: seq<Entry>, m: nat, n: nat, k: nat)
    requires InRange(plan, m, n) && k <= |plan|
    ensures InRange(plan[..k], m, n)
  {
    assert forall t :: 0 <= t < k ==> plan[..k][t] == plan[t];
  }

  /** The report of a plan: its entries emitted in order. */
  function Render(a: seq<Clause>, b: seq<Clause>, plan: seq<Entry>,
                  explain: (string, string) -> Outcome<string>): Report
    requires InRange(plan, |a|, |b|)
  {
    if plan == [] then Report(Ok([]), [])
    else
      InRangePrefix(plan, |a|, |b|, |plan| - 1);
      Emit(a, b, Render(a, b, plan[..|plan| - 1], explain), plan[|plan| - 1], explain)
  }

  lemma RenderSnoc(a: seq<Clause>, b: seq<Clause>, p: seq<Entry>, e: Entry,
                   explain: (string, string) -> Outcome<string>)
    requires InRange(p + [e], |a|, |b|)
    ensures InRange(p, |a|, |b|) && EntryIn(e, |a|, |b|)
    ensures Render(a, b, p + [e], explain) == Emit(a, b, Render(a, b, p, explain), e, explain)
  {
    var q := p + [e];
    assert q[..|q| - 1] == p && q[|q| - 1] == e;
    InRangePrefix(q, |a|, |b|, |p|);
  }

  /** Once the oracle has failed, later entries change nothing. */
  lemma {:induction false} RenderFaultStays(a: seq<Clause>, b: seq<Clause>, p: seq<Entry>, q: seq<Entry>,
                                            explain: (string, string) -> Outcome<string>)
    requires InRange(p + q, |a|, |b|)
    requires InRange(p, |a|, |b|) && Render(a, b, p, explain).changes.Fault?
    ensures Render(a, b, p + q, explain) == Render(a, b, p, explain)
    decreases |q|
  {
    if q == [] {
      assert p + q == p;
    } else {
      var r := q[..|q| - 1];
      assert (p + q)[..|p + q| - 1] == p + r;
      InRangePrefix(p + q, |a|, |b|, |p + r|);
      RenderFaultStays(a, b, p, r, explain);
    }
  }

  /** The requests of the modified pairs of a plan, in order. */
  function Queries(a: seq<Clause>, b: seq<Clause>, plan: seq<Entry>): seq<(string, string)>
    requires InRange(plan, |a|, |b|)
  {
    if plan == [] then []
    else
      InRangePrefix(plan, |a|, |b|, |plan| - 1);
      var e := plan[|plan| - 1];
      Queries(a, b, plan[..|plan| - 1]) + (if e.ModifiedPair? then [Query(a, b, e.a, e.b)] else [])
  }

  /** The oracle succeeds on every modified pair of the plan. */
  predicate Explained(a: seq<Clause>, b: seq<Clause>, plan: seq<Entry>, explain: (string, string) -> Outcome<string>)
    requires InRange(plan, |a|, |b|)
  {
    forall k :: 0 <= k < |plan| && plan[k].ModifiedPair? ==>
      plan[k].a < |a| && plan[k].b < |b| && explain(a[plan[k].a].content, b[plan[k].b].content).Ok?
  }

  /** The explanation of an entry: the oracle's answer for a modified pair. */
  function ExplanationOf(a: seq<Clause>, b: seq<Clause>, e: Entry, explain: (string, string) -> Outcome<string>): string
    requires EntryIn(e, |a|, |b|)
  {
    if e.ModifiedPair? && explain(a[e.a].content, b[e.b].content).Ok? then explain(a[e.a].content, b[e.b].content).value else ""
  }

  /** One entry emitted after a report without failure: it fails exactly
      when it is a modified pair the oracle cannot explain, and otherwise
      adds its record and, for a modified pair, its oracle request. */
  lemma EmitOk(a: seq<Clause>, b: seq<Clause>, r: Report, e: Entry, explain: (string, string) -> Outcome<string>)
    requires EntryIn(e, |a|, |b|) && r.changes.Ok?
    ensures Emit(a, b, r, e, explain).changes.Ok? <==> !e.ModifiedPair? || explain(a[e.a].content, b[e.b].content).Ok?
    ensures Emit(a, b, r, e, explain).changes.Ok? ==>
              && Emit(a, b, r, e, explain).changes.value == r.changes.value + [Record(a, b, e, ExplanationOf(a, b, e, explain))]
              && Emit(a, b, r, e, explain).asked == r.asked + (if e.ModifiedPair? then [Query(a, b, e.a, e.b)] else [])
  {
  }

  /** Rendering yields changes exactly when the oracle explains every
      modified pair. */
  lemma {:induction false} RenderExplained(a: seq<Clause>, b: seq<Clause>, plan: seq<Entry>,
                                           explain: (string, string) -> Outcome<string>)
    requires InRange(plan, |a|, |b|)
    ensures Render(a, b, plan, explain).changes.Ok? <==> Explained(a, b, plan, explain)
  {
    if plan != [] {
      var p, e := plan[..|plan| - 1], plan[|plan| - 1];
      InRangePrefix(plan, |a|, |b|, |plan| - 1);
      RenderExplained(a, b, p, explain);
      var r := Render(a, b, p, explain);
      assert Render(a, b, plan, explain) == Emit(a, b, r, e, explain);
      assert forall k :: 0 <= k < |p| ==> p[k] == plan[k];
      if r.changes.Fault? {
        assert !Explained(a, b, p, explain);
      } else {
        EmitOk(a, b, r, e, explain);
      }
    }
  }

  /** A report with changes has one record per entry, in order, and one
      oracle request per modified pair and none for removals or additions. */
  lemma {:induction false} RenderRecords(a: seq<Clause>, b: seq<Clause>, plan: seq<Entry>,
                                         explain: (string, string) -> Outcome<string>)
    requires InRange(plan, |a|, |b|) && Render(a, b, plan, explain).changes.Ok?
    ensures var cs := Render(a, b, plan, explain).changes.value;
            && |cs| == |plan|
            && Render(a, b, plan, explain).asked == Queries(a, b, plan)
            && forall k :: 0 <= k < |plan| ==>
                 EntryIn(plan[k], |a|, |b|) && cs[k] == Record(a, b, plan[k], ExplanationOf(a, b, plan[k], explain))
  {
    if plan != [] {
      var p, e := plan[..|plan| - 1], plan[|plan| - 1];
      InRangePrefix(plan, |a|, |b|, |plan| - 1);
      var r := Render(a, b, p, explain);
      assert Render(a, b, plan, explain) == Emit(a, b, r, e, explain);
      assert r.changes.Ok?;
      RenderRecords(a, b, p, explain);
      EmitOk(a, b, r, e, explain);
      var cs := Render(a, b, plan, explain).changes.value;
      assert cs == r.changes.value + [Record(a, b, e, ExplanationOf(a, b, e, explain))];
      forall k | 0 <= k < |plan|
        ensures EntryIn(plan[k], |a|, |b|) && cs[k] == Record(a, b, plan[k], ExplanationOf(a, b, plan[k], explain))
      {
        if k < |p| {
          assert p[k] == plan[k];
        }
      }
    }
  }

  // ---------------------------------------------------------------------
  // run
  // ---------------------------------------------------------------------

  /** What `ComparisonAgent.run` does with the clauses and their similarity
      matrix: the similarity computation raises on an empty side. */
  function Comparison(a: seq<Clause>, b: seq<Clause>, sim: Matrix, explain: (string, string) -> Outcome<string>): Report
    requires |sim| == |a| && Rows(sim, |b|)
  {
    if |a| == 0 || |b| == 0 then Report(Fault(EmptySimilarity), [])
    else
      PlanInRange(sim, |b|);
      Render(a, b, Plan(sim, |b|), explain)
  }

  lemma {:induction false} RowsPlanPrefix(sim: Matrix, n: nat, i: nat, k: nat)
    requires Rows(sim, n) && n > 0 && i <= k <= |sim|
    ensures RowsPlan(sim, n, i) <= RowsPlan(sim, n, k)
    decreases k - i
  {
    if i < k {
      RowsPlanPrefix(sim, n, i, k - 1);
      var p, e := RowsPlan(sim, n, k - 1), RowEntries(sim, n, k - 1, Claimed(sim, n, k - 1));
      assert RowsPlan(sim, n, k) == p + e;
      PrefixGrows(RowsPlan(sim, n, i), p, e);
    }
  }

  lemma PrefixGrows<T>(q: seq<T>, p: seq<T>, e: seq<T>)
    requires q <= p
    ensures q <= p + e
  {
    assert forall t :: 0 <= t < |p| ==> (p + e)[t] == p[t];
  }

  lemma PrefixRest<T>(p: seq<T>, s: seq<T>)
    requires p <= s
    ensures s == p + s[|p|..]
  {
  }

  /** One row that emits nothing: an identical clause, or a modified one
      whose best B clause is matched already. Its best clause is matched
      after it. */
  lemma RowKept(sim: Matrix, n: nat, i: nat)
    requires Rows(sim, n) && n > 0 && i < |sim|
    requires Score(sim, n, i) > Identical || (Score(sim, n, i) > Related && Best(sim, n, i) in Claimed(sim, n, i))
    ensures Claimed(sim, n, i + 1) == Claimed(sim, n, i) + {Best(sim, n, i)}
    ensures RowsPlan(sim, n, i + 1) == RowsPlan(sim, n, i)
  {
    assert RowsPlan(sim, n, i) + [] == RowsPlan(sim, n, i);
  }

  /** One modified row whose best B clause is unmatched: it emits the pair
      and matches the clause. */
  lemma RowPaired(sim: Matrix, n: nat, i: nat)
    requires Rows(sim, n) && n > 0 && i < |sim|
    requires Related < Score(sim, n, i) <= Identical && Best(sim, n, i) !in Claimed(sim, n, i)
    ensures Claimed(sim, n, i + 1) == Claimed(sim, n, i) + {Best(sim, n, i)}
    ensures RowsPlan(sim, n, i + 1) == RowsPlan(sim, n, i) + [ModifiedPair(i, Best(sim, n, i))]
  {
  }

  /** One row below the modification threshold: it emits its removal and
      matches nothing. */
  lemma RowRemoved(sim: Matrix, n: nat, i: nat)
    requires Rows(sim, n) && n > 0 && i < |sim|
    requires Score(sim, n, i) <= Related
    ensures Claimed(sim, n, i + 1) == Claimed(sim, n, i)
    ensures RowsPlan(sim, n, i + 1) == RowsPlan(sim, n, i) + [RemovedRow(i)]
  {
    assert Claimed(sim, n, i) + {} == Claimed(sim, n, i);
  }

  /** An oracle failure on the first rows is the report of the rows from
      `i` on, and of the whole plan. */
  lemma RowFault(a: seq<Clause>, b: seq<Clause>, sim: Matrix, i: nat, k: nat, explain: (string, string) -> Outcome<string>)
    requires |sim| == |a| && Rows(sim, |b|) && |b| > 0 && i <= k <= |a|
    requires InRange(RowsPlan(sim, |b|, k), |a|, |b|)
    requires InRange(RowsPlan(sim, |b|, i), |a|, |b|)
    requires Render(a, b, RowsPlan(sim, |b|, i), explain).changes.Fault?
    ensures Render(a, b, RowsPlan(sim, |b|, k), explain) == Render(a, b, RowsPlan(sim, |b|, i), explain)
  {
    var p, full := RowsPlan(sim, |b|, i), RowsPlan(sim, |b|, k);
    RowsPlanPrefix(sim, |b|, i, k);
    var rest := full[|p|..];
    PrefixRest(p, full);
    RenderFaultStays(a, b, p, rest, explain);
  }

  /** A modified row with an unmatched best clause, in the loop over A: the
      oracle is asked about the two contents; its explanation extends the
      records, and its failure is the report of the whole row pass. */
  lemma PairStep(a: seq<Clause>, b: seq<Clause>, sim: Matrix, i: nat, explain: (string, string) -> Outcome<string>,
                 changes: seq<Change>, asked: seq<(string, string)>)
    requires |sim| == |a| && Rows(sim, |b|) && |b| > 0 && i < |a|
    requires Related < Score(sim, |b|, i) <= Identical && Best(sim, |b|, i) !in Claimed(sim, |b|, i)
    requires InRange(RowsPlan(sim, |b|, i), |a|, |b|)
    requires Render(a, b, RowsPlan(sim, |b|, i), explain) == Report(Ok(changes), asked)
    ensures Claimed(sim, |b|, i + 1) == Claimed(sim, |b|, i) + {Best(sim, |b|, i)}
    ensures InRange(RowsPlan(sim, |b|, i + 1), |a|, |b|) && InRange(RowsPlan(sim, |b|, |a|), |a|, |b|)
    ensures var j := Best(sim, |b|, i);
            var q := (a[i].content, b[j].content);
            var x := explain(q.0, q.1);
            && (x.Fault? ==> Render(a, b, RowsPlan(sim, |b|, |a|), explain) == Report(Fault(x.message), asked + [q]))
            && (x.Ok? ==> Render(a, b, RowsPlan(sim, |b|, i + 1), explain)
                          == Report(Ok(changes + [Change(Modified, a[i].number, a[i].content, b[j].number, b[j].content, x.value)]), asked + [q]))
  {
    var p, j := RowsPlan(sim, |b|, i), Best(sim, |b|, i);
    RowPaired(sim, |b|, i);
    RowsPlanIn(sim, |b|, i + 1);
    RowsPlanIn(sim, |b|, |a|);
    RenderSnoc(a, b, p, ModifiedPair(i, j), explain);
    var q := (a[i].content, b[j].content);
    if explain(q.0, q.1).Fault? {
      RowFault(a, b, sim, i + 1, |a|, explain);
    }
  }

  /** A row below the modification threshold, in the loop over A: its
      removal record extends the records. */
  lemma RemoveStep(a: seq<Clause>, b: seq<Clause>, sim: Matrix, i: nat, explain: (string, string) -> Outcome<string>,
                   changes: seq<Change>, asked: seq<(string, string)>)
    requires |sim| == |a| && Rows(sim, |b|) && |b| > 0 && i < |a|
    requires Score(sim, |b|, i) <= Related
    requires InRange(RowsPlan(sim, |b|, i), |a|, |b|)
    requires Render(a, b, RowsPlan(sim, |b|, i), explain) == Report(Ok(changes), asked)
    ensures Claimed(sim, |b|, i + 1) == Claimed(sim, |b|, i)
    ensures InRange(RowsPlan(sim, |b|, i + 1), |a|, |b|)
    ensures Render(a, b, RowsPlan(sim, |b|, i + 1), explain)
              == Report(Ok(changes + [Change(Removed, a[i].number, a[i].content, "", "", RemovedNote)]), asked)
  {
    RowRemoved(sim, |b|, i);
    RowsPlanIn(sim, |b|, i + 1);
    RenderSnoc(a, b, RowsPlan(sim, |b|, i), RemovedRow(i), explain);
  }

  /** One pass of the loop over the clauses of A, for clause i: the
      matched set, the records and the oracle requests after it, or the
      oracle's failure, which ends the comparison. */
  method AlignRow(a: seq<Clause>, b: seq<Clause>, sim: Matrix, explain: (string, string) -> Outcome<string>, i: nat,
                  matched: set<nat>, changes: seq<Change>, asked: seq<(string, string)>)
    returns (matched': set<nat>, changes': seq<Change>, asked': seq<(string, string)>, fault: Option<string>)
    requires |sim| == |a| && Rows(sim, |b|) && |b| > 0 && i < |a|
    requires matched == Claimed(sim, |b|, i)
    requires InRange(RowsPlan(sim, |b|, i), |a|, |b|)
    requires Render(a, b, RowsPlan(sim, |b|, i), explain) == Report(Ok(changes), asked)
    ensures InRange(RowsPlan(sim, |b|, i + 1), |a|, |b|) && InRange(RowsPlan(sim, |b|, |a|), |a|, |b|)
    ensures fault.None? ==> matched' == Claimed(sim, |b|, i + 1)
                            && Render(a, b, RowsPlan(sim, |b|, i + 1), explain) == Report(Ok(changes'), asked')
    ensures fault.Some? ==> Render(a, b, RowsPlan(sim, |b|, |a|), explain) == Report(Fault(fault.value), asked')
  {
    RowsPlanIn(sim, |b|, i + 1);
    RowsPlanIn(sim, |b|, |a|);
    matched', changes', asked', fault := matched, changes, asked, None;
    var best := ArgMax(sim[i]);
    var score := sim[i][best];
    if score > Identical {
      RowKept(sim, |b|, i);
      matched' := matched + {best};
    } else if score > Related {
      if best !in matched {
        PairStep(a, b, sim, i, explain, changes, asked);
        matched' := matched + {best};
        var q := (a[i].content, b[best].content);
        var x := explain(q.0, q.1);
        asked' := asked + [q];
        if x.Fault? {
          fault := Some(x.message);
          return;
        }
        changes' := changes + [Change(Modified, a[i].number, a[i].content, b[best].number, b[best].content, x.value)];
      } else {
        RowKept(sim, |b|, i);
      }
    } else {
      RemoveStep(a, b, sim, i, explain, changes, asked);
      changes' := changes + [Change(Removed, a[i].number, a[i].content, "", "", RemovedNote)];
    }
  }

  /** The loop over the clauses of A: the report of the row entries, and
      the matched set once every row is aligned. */
  method AlignRows(a: seq<Clause>, b: seq<Clause>, sim: Matrix, explain: (string, string) -> Outcome<string>)
    returns (r: Report, matched: set<nat>)
    requires |sim| == |a| && Rows(sim, |b|) && |b| > 0
    ensures InRange(RowsPlan(sim, |b|, |a|), |a|, |b|)
    ensures r == Render(a, b, RowsPlan(sim, |b|, |a|), explain)
    ensures r.changes.Ok? ==> matched == Claimed(sim, |b|, |a|)
  {
    RowsPlanIn(sim, |b|, |a|);
    var changes: seq<Change> := [];
    var asked: seq<(string, string)> := [];
    matched := {};
    for i := 0 to |a|
      invariant matched == Claimed(sim, |b|, i)
      invariant InRange(RowsPlan(sim, |b|, i), |a|, |b|)
      invariant Render(a, b, RowsPlan(sim, |b|, i), explain) == Report(Ok(changes), asked)
    {
      var fault;
      matched, changes, asked, fault := AlignRow(a, b, sim, explain, i, matched, changes, asked);
      if fault.Some? {
        r := Report(Fault(fault.value), asked);
        return;
      }
    }
    r := Report(Ok(changes), asked);
  }

  /** One step of the loop over B: an unmatched clause emits its addition. */
  lemma ColumnStep(a: seq<Clause>, b: seq<Clause>, rows: seq<Entry>, matched: set<nat>, j: nat,
                   explain: (string, string) -> Outcome<string>)
    requires j < |b| && InRange(rows + AddedPlan(matched, j), |a|, |b|)
    ensures InRange(rows + AddedPlan(matched, j + 1), |a|, |b|)
    ensures var p := rows + AddedPlan(matched, j);
            Render(a, b, rows + AddedPlan(matched, j + 1), explain)
              == if j in matched then Render(a, b, p, explain) else Emit(a, b, Render(a, b, p, explain), AddedColumn(j), explain)
  {
    var p := rows + AddedPlan(matched, j);
    if j !in matched {
      assert rows + AddedPlan(matched, j + 1) == p + [AddedColumn(j)];
      assert InRange(p + [AddedColumn(j)], |a|, |b|) by {
        forall k | 0 <= k < |p| + 1 ensures EntryIn((p + [AddedColumn(j)])[k], |a|, |b|) {
          if k < |p| {
            assert (p + [AddedColumn(j)])[k] == p[k];
          }
        }
      }
      RenderSnoc(a, b, p, AddedColumn(j), explain);
    } else {
      assert rows + AddedPlan(matched, j + 1) == p;
    }
  }

  /** The loop over B: the additions of the unmatched clauses after the
      records `r` of the row entries. */
  method AddColumns(a: seq<Clause>, b: seq<Clause>, rows: seq<Entry>, matched: set<nat>, r: Report,
                    explain: (string, string) -> Outcome<string>)
    returns (r': Report)
    requires InRange(rows + AddedPlan(matched, |b|), |a|, |b|)
    requires InRange(rows, |a|, |b|) && r == Render(a, b, rows, explain) && r.changes.Ok?
    ensures r' == Render(a, b, rows + AddedPlan(matched, |b|), explain)
  {
    var changes, asked := r.changes.value, r.asked;
    assert rows + AddedPlan(matched, 0) == rows;
    for j := 0 to |b|
      invariant InRange(rows + AddedPlan(matched, j), |a|, |b|)
      invariant Render(a, b, rows + AddedPlan(matched, j), explain) == Report(Ok(changes), asked)
    {
      ColumnStep(a, b, rows, matched, j, explain);
      if j !in matched {
        changes := changes + [Change(Added, "", "", b[j].number, b[j].content, AddedNote)];
      }
    }
    r' := Report(Ok(changes), asked);
  }

  /** `ComparisonAgent.run` after the similarity matrix: the loop over A,
      then the loop over the unmatched clauses of B. */
  method Compare(a: seq<Clause>, b: seq<Clause>, sim: Matrix, explain: (string, string) -> Outcome<string>)
    returns (r: Report)
    requires |sim| == |a| && Rows(sim, |b|)
    ensures r == Comparison(a, b, sim, explain)
  {
    if |a| == 0 || |b| == 0 {
      return Report(Fault(EmptySimilarity), []);
    }
    PlanInRange(sim, |b|);
    var matched;
    r, matched := AlignRows(a, b, sim, explain);
    if r.changes.Fault? {
      RenderFaultStays(a, b, RowsPlan(sim, |b|, |a|), AddedPlan(Claimed(sim, |b|, |a|), |b|), explain);
      return;
    }
    r := AddColumns(a, b, RowsPlan(sim, |b|, |a|), matched, r, explain);
  }

  // ---------------------------------------------------------------------
  // comparison_node
  // ---------------------------------------------------------------------

  /** The similarity matrix of two clause lists, from the similarity of
      their contents. */
  function SimilarityMatrix(a: seq<Clause>, b: seq<Clause>, similarity: (string, string) -> real): (sim: Matrix)
    ensures |sim| == |a| && Rows(sim, |b|)
    ensures forall i, j :: 0 <= i < |a| && 0 <= j < |b| ==> sim[i][j] == similarity(a[i].content, b[j].content)
  {
    seq(|a|, i requires 0 <= i < |a| => seq(|b|, j requires 0 <= j < |b| => similarity(a[i].content, b[j].content)))
  }

  /** `comparison_node`: compare the clauses of both texts and store the
      changes; an exception leaves the state as it was. */
  function ComparisonStep(s: State, similarity: (string, string) -> real,
                          explain: (string, string) -> Outcome<string>): Outcome<State>
  {
    var a := DocumentParser.ClausesOf(Text.SplitLines(s.documentText));
    var b := DocumentParser.ClausesOf(Text.SplitLines(s.documentText2));
    var r := Comparison(a, b, SimilarityMatrix(a, b, similarity), explain);
    if r.changes.Fault? then Fault(r.changes.message)
    else Ok(s.(comparisonResult := r.changes.value, currentStep := ComparisonComplete))
  }

  /** The node writes only the changes and the step label. */
  lemma ComparisonStepWrites(s: State, similarity: (string, string) -> real,
                             explain: (string, string) -> Outcome<string>)
    ensures var r := ComparisonStep(s, similarity, explain);
            r.Ok? ==> r.value == s.(comparisonResult := r.value.comparisonResult, currentStep := ComparisonComplete)
  {
  }

  method ComparisonNode(item: WorkItem, similarity: (string, string) -> real,
                        explain: (string, string) -> Outcome<string>) returns (raised: Option<string>)
    modifies item
    ensures item.Value() == After(old(item.Value()), ComparisonStep(old(item.Value()), similarity, explain))
    ensures raised == RaisedBy(ComparisonStep(old(item.Value()), similarity, explain))
  {
    var a := DocumentParser.ExtractClauses(item.documentText);
    var b := DocumentParser.ExtractClauses(item.documentText2);
    var r := Compare(a, b, SimilarityMatrix(a, b, similarity), explain);
    if r.changes.Fault? {
      return Some(r.changes.message);
    }
    item.comparisonResult := r.changes.value;
    item.currentStep := ComparisonComplete;
    raised := None;
  }
}

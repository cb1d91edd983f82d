/**
  Budget-constrained action picker of the decision dashboard
  (`knapsack_select` in decision-intelligence-live/app.py): a 0/1 knapsack with
  a cap on the number of items, solved by a sparse dynamic program over
  (number of items, cost in thousands of CLP) cells with parent links.
*/
module Knapsack {
  import opened Basics
  import opened Sorting
  import opened Eligibility

  /** Costs are discretised to thousands of CLP. */
  const Unit: nat := 1000

  /** The discretised instance the DP works on: per-candidate cost units and scaled values, and the unit budget. */
  datatype Instance = Instance(costs: seq<nat>, values: seq<int>, cap: int)

  predicate Wf(inst: Instance) {
    |inst.costs| == |inst.values|
  }

  // ---------------------------------------------------------------------------
  // Subsets of the first n candidates, as masks

  /** Number of chosen positions. */
  function Count(m: seq<bool>): nat {
    if m == [] then 0 else Count(m[..|m| - 1]) + (if m[|m| - 1] then 1 else 0)
  }

  /** Total cost units of the chosen positions. */
  function MaskCost(costs: seq<nat>, m: seq<bool>): nat
    requires |m| <= |costs|
  {
    if m == [] then 0 else MaskCost(costs, m[..|m| - 1]) + (if m[|m| - 1] then costs[|m| - 1] else 0)
  }

  /** Total scaled value of the chosen positions. */
  function MaskValue(values: seq<int>, m: seq<bool>): int
    requires |m| <= |values|
  {
    if m == [] then 0 else MaskValue(values, m[..|m| - 1]) + (if m[|m| - 1] then values[|m| - 1] else 0)
  }

  /**
    A subset belongs to cell (k, b) when it has exactly k items and costs exactly
    b units; every cell with at least one item must lie within the unit budget.
  */
  ghost predicate InCell(inst: Instance, m: seq<bool>, k: nat, b: int)
    requires Wf(inst) && |m| <= |inst.costs|
  {
    Count(m) == k && MaskCost(inst.costs, m) == b && (k == 0 || b <= inst.cap)
  }

  // ---------------------------------------------------------------------------
  // The value the DP table should hold

  /** Keeps the incumbent unless the challenger is strictly better (the `nv > dp[k+1][nb]` test). */
  function Better(incumbent: Option<int>, challenger: Option<int>): Option<int> {
    if challenger.None? then incumbent
    else if incumbent.None? || challenger.value > incumbent.value then challenger
    else incumbent
  }

  function Plus(o: Option<int>, v: int): Option<int> {
    if o.None? then None else Some(o.value + v)
  }

  /**
    Best scaled value of a subset of the first n candidates in cell (k, b), or
    None when the cell is unreachable. Candidate n-1 is either skipped or added
    to a subset in cell (k-1, b-cost); adding is only allowed inside the budget.
  */
  ghost function Opt(inst: Instance, n: nat, k: nat, b: int): Option<int>
    requires Wf(inst) && n <= |inst.costs|
  {
    if n == 0 then (if k == 0 && b == 0 then Some(0) else None)
    else
      Better(Opt(inst, n - 1, k, b),
             if k > 0 && b <= inst.cap then Plus(Opt(inst, n - 1, k - 1, b - inst.costs[n - 1]), inst.values[n - 1]) else None)
  }

  /** A subset that attains `Opt`: every reachable cell is reached by a real subset with that value. */
  ghost function Witness(inst: Instance, n: nat, k: nat, b: int): (m: seq<bool>)
    requires Wf(inst) && n <= |inst.costs| && Opt(inst, n, k, b).Some?
    ensures |m| == n && InCell(inst, m, k, b)
    ensures MaskValue(inst.values, m) == Opt(inst, n, k, b).value
  {
    if n == 0 then []
    else
      var skip := Opt(inst, n - 1, k, b);
      var take := if k > 0 && b <= inst.cap then Plus(Opt(inst, n - 1, k - 1, b - inst.costs[n - 1]), inst.values[n - 1]) else None;
      if take.Some? && (skip.None? || take.value > skip.value) then
        var w := Witness(inst, n - 1, k - 1, b - inst.costs[n - 1]);
        assert (w + [true])[..n - 1] == w;
        w + [true]
      else
        var w := Witness(inst, n - 1, k, b);
        assert (w + [false])[..n - 1] == w;
        w + [false]
  }

  /** No subset in cell (k, b) beats `Opt`: the DP value is the maximum over all subsets of that cell. */
  lemma {:induction false} OptDominates(inst: Instance, m: seq<bool>, k: nat, b: int)
    requires Wf(inst) && |m| <= |inst.costs| && InCell(inst, m, k, b)
    ensures Opt(inst, |m|, k, b).Some?
    ensures MaskValue(inst.values, m) <= Opt(inst, |m|, k, b).value
  {
    if m != [] {
      var n := |m|;
      var front := m[..n - 1];
      if m[n - 1] {
        OptDominates(inst, front, k - 1, b - inst.costs[n - 1]);
      } else {
        OptDominates(inst, front, k, b);
      }
    }
  }

  // ---------------------------------------------------------------------------
  // The DP table and its parent links

  /** A sparse cell holds exactly the optional value `o`. */
  ghost predicate CellIs(row: map<int, int>, b: int, o: Option<int>) {
    (b in row <==> o.Some?) && (b in row ==> row[b] == o.value)
  }

  /** Row k of the table after n candidates: `dp[k][b]` is `Opt(n, k, b)` for every b. */
  ghost predicate RowIs(row: map<int, int>, inst: Instance, n: nat, k: nat)
    requires Wf(inst) && n <= |inst.costs|
  {
    forall b: int :: CellIs(row, b, Opt(inst, n, k, b))
  }

  /** `parent[k][b] = (k - 1, pb, idx)`. */
  datatype Back = Back(k: nat, b: int, idx: nat)

  /**
    Every cell of row k has a parent link to a cell of row k - 1 (`below`) that
    is one item smaller and exactly `costs[idx]` cheaper, with idx < n. The cell
    is worth at most that cell plus candidate idx: it was set to exactly that
    sum, and cells only ever grow afterwards.
  */
  ghost predicate ParentRowOk(inst: Instance, row: map<int, int>, prow: map<int, Back>, below: map<int, int>, k: nat, n: nat)
    requires Wf(inst) && n <= |inst.costs|
  {
    forall b: int {:trigger b in row} :: b in row ==>
      && b in prow
      && prow[b].k + 1 == k
      && prow[b].idx < n
      && prow[b].b == b - inst.costs[prow[b].idx]
      && prow[b].b in below
      && row[b] <= below[prow[b].b] + inst.values[prow[b].idx]
  }

  ghost predicate ParentsOk(inst: Instance, dp: seq<map<int, int>>, parent: seq<map<int, Back>>, n: nat)
    requires Wf(inst) && n <= |inst.costs|
  {
    |parent| == |dp| && forall k :: 1 <= k < |dp| ==> ParentRowOk(inst, dp[k], parent[k], dp[k - 1], k, n)
  }

  /** Row `row` has every cell of `old_row`, each worth at least as much. */
  ghost predicate Grows(old_row: map<int, int>, row: map<int, int>) {
    forall b {:trigger b in old_row} :: b in old_row ==> b in row && old_row[b] <= row[b]
  }

  /** Replacing one row (and its links) keeps the parent links of the whole table valid. */
  lemma ParentsSet(inst: Instance, dp: seq<map<int, int>>, parent: seq<map<int, Back>>, n: nat, k: nat, row: map<int, int>, prow: map<int, Back>)
    requires Wf(inst) && n <= |inst.costs| && ParentsOk(inst, dp, parent, n) && 1 <= k < |dp|
    requires ParentRowOk(inst, row, prow, dp[k - 1], k, n)
    requires k + 1 < |dp| ==> ParentRowOk(inst, dp[k + 1], parent[k + 1], row, k + 1, n)
    ensures ParentsOk(inst, dp[k := row], parent[k := prow], n)
  {
  }

  /** Reachable cells have a non-negative cost; row 0 is the single cell 0; other rows stay within the budget. */
  lemma {:induction false} OptSupport(inst: Instance, n: nat, k: nat, b: int)
    requires Wf(inst) && n <= |inst.costs| && Opt(inst, n, k, b).Some?
    ensures 0 <= b
    ensures k == 0 ==> b == 0
    ensures k > 0 ==> b <= inst.cap
  {
    if n > 0 {
      if Opt(inst, n - 1, k, b).Some? {
        OptSupport(inst, n - 1, k, b);
      }
      if k > 0 && b <= inst.cap && Opt(inst, n - 1, k - 1, b - inst.costs[n - 1]).Some? {
        OptSupport(inst, n - 1, k - 1, b - inst.costs[n - 1]);
      }
    }
  }

  /** Row 0 is the seed cell alone: the empty subset, worth 0 at cost 0. */
  lemma {:induction false} OptSeed(inst: Instance, n: nat, b: int)
    requires Wf(inst) && n <= |inst.costs|
    ensures Opt(inst, n, 0, b) == if b == 0 then Some(0) else None
  {
    if n > 0 {
      OptSeed(inst, n - 1, b);
    }
  }

  /** Largest cost index a row can use: the unit budget, or 0 for the seed cell when the budget is negative. */
  function Span(inst: Instance): nat {
    if inst.cap >= 0 then inst.cap else 0
  }

  /** Row k + 1 while the cells of row k below `cursor` have already been relaxed by candidate idx. */
  ghost function Partial(inst: Instance, idx: nat, k: nat, src: map<int, int>, cursor: int, nb: int): Option<int>
    requires Wf(inst) && idx < |inst.costs|
  {
    var b := nb - inst.costs[idx];
    if b in src && b < cursor then Opt(inst, idx + 1, k + 1, nb) else Opt(inst, idx, k + 1, nb)
  }

  // ---------------------------------------------------------------------------
  // The table the loops build, as folds

  /** One step of the innermost loop: candidate idx extends cell b of row k (`src`) into row k + 1 (`row`, `prow`). */
  function RelaxStep(inst: Instance, idx: nat, k: nat, src: map<int, int>, row: map<int, int>, prow: map<int, Back>, b: int)
    : (map<int, int>, map<int, Back>)
    requires Wf(inst) && idx < |inst.costs|
  {
    var nb := b + inst.costs[idx];
    if b in src && nb <= inst.cap && (nb !in row || src[b] + inst.values[idx] > row[nb]) then
      (row[nb := src[b] + inst.values[idx]], prow[nb := Back(k, b, idx)])
    else
      (row, prow)
  }

  /** Row k + 1 and its links after the innermost loop has visited costs 0 .. b - 1 of row k. */
  function RelaxUpTo(inst: Instance, idx: nat, k: nat, src: map<int, int>, dst: map<int, int>, pdst: map<int, Back>, b: nat)
    : (map<int, int>, map<int, Back>)
    requires Wf(inst) && idx < |inst.costs|
  {
    if b == 0 then (dst, pdst)
    else
      var (row, prow) := RelaxUpTo(inst, idx, k, src, dst, pdst, b - 1);
      RelaxStep(inst, idx, k, src, row, prow, b - 1)
  }

  /**
    The table after candidate idx has been added to rows |dp| - 1 down to j + 1,
    each row from the one below it.
  */
  function AddDown(inst: Instance, idx: nat, dp: seq<map<int, int>>, parent: seq<map<int, Back>>, j: nat)
    : (t: (seq<map<int, int>>, seq<map<int, Back>>))
    requires Wf(inst) && idx < |inst.costs| && |parent| == |dp| && j < |dp|
    ensures |t.0| == |dp| && |t.1| == |dp|
    decreases |dp| - j
  {
    if j == |dp| - 1 then (dp, parent)
    else
      var (d, p) := AddDown(inst, idx, dp, parent, j + 1);
      var (row, prow) := RelaxUpTo(inst, idx, j, d[j], d[j + 1], p[j + 1], Span(inst) + 1);
      (d[j + 1 := row], p[j + 1 := prow])
  }

  /** The table and its links before any candidate: the seed cell (0 items, cost 0, value 0) alone. */
  function SeedTable(maxItems: nat): (seq<map<int, int>>, seq<map<int, Back>>) {
    ([map[0 := 0]] + seq(maxItems, _ => map[]), seq(maxItems + 1, _ => map[]))
  }

  /** The table and its links after the first n candidates. */
  function TableUpTo(inst: Instance, maxItems: nat, n: nat): (t: (seq<map<int, int>>, seq<map<int, Back>>))
    requires Wf(inst) && n <= |inst.costs|
    ensures |t.0| == maxItems + 1 && |t.1| == maxItems + 1
  {
    if n == 0 then SeedTable(maxItems)
    else
      var (d, p) := TableUpTo(inst, maxItems, n - 1);
      AddDown(inst, n - 1, d, p, 0)
  }

  /** The indices the parent links list from cell (k, b) down to row 0, lowest row first. */
  function LinkWalk(parent: seq<map<int, Back>>, k: nat, b: int): (r: seq<nat>)
    ensures |r| <= k
  {
    if k == 0 || k >= |parent| || b !in parent[k] then []
    else LinkWalk(parent, k - 1, parent[k][b].b) + [parent[k][b].idx]
  }

  /**
    One pass of the innermost loop: relax row k + 1 (`dst`, with parent links
    `pdst`) from row k (`src`) with candidate idx. Different cells of row k reach
    different cells of row k + 1, so the order of the visit does not matter; the
    model visits costs 0 .. Span in increasing order.
  */
  method RelaxRow(inst: Instance, idx: nat, k: nat, src: map<int, int>, dst: map<int, int>, pdst: map<int, Back>)
    returns (row: map<int, int>, prow: map<int, Back>)
    requires Wf(inst) && idx < |inst.costs|
    requires RowIs(src, inst, idx, k) && RowIs(dst, inst, idx, k + 1)
    requires ParentRowOk(inst, dst, pdst, src, k + 1, idx + 1)
    ensures (row, prow) == RelaxUpTo(inst, idx, k, src, dst, pdst, Span(inst) + 1)
    ensures RowIs(row, inst, idx + 1, k + 1)
    ensures ParentRowOk(inst, row, prow, src, k + 1, idx + 1)
    ensures Grows(dst, row)
  {
    row, prow := dst, pdst;
    PartialStart(inst, idx, k, src, dst);
    for b := 0 to Span(inst) + 1
      invariant (row, prow) == RelaxUpTo(inst, idx, k, src, dst, pdst, b)
      invariant Grows(dst, row)
      invariant PartialIs(row, inst, idx, k, src, b)
      invariant ParentRowOk(inst, row, prow, src, k + 1, idx + 1)
    {
      ghost var before := row;
      row, prow := RelaxCell(inst, idx, k, src, row, prow, b);
      GrowsTrans(dst, before, row);
    }
    PartialEnd(inst, idx, k, src, row);
  }

  /** Row k + 1 while the candidates before idx have all been added and candidate idx has been tried from the cells of row k below `cursor`. */
  ghost predicate PartialIs(row: map<int, int>, inst: Instance, idx: nat, k: nat, src: map<int, int>, cursor: int)
    requires Wf(inst) && idx < |inst.costs|
  {
    forall nb: int :: CellIs(row, nb, Partial(inst, idx, k, src, cursor, nb))
  }

  /** Before the pass, row k + 1 is the row of the first idx candidates. */
  lemma PartialStart(inst: Instance, idx: nat, k: nat, src: map<int, int>, dst: map<int, int>)
    requires Wf(inst) && idx < |inst.costs|
    requires RowIs(src, inst, idx, k) && RowIs(dst, inst, idx, k + 1)
    ensures PartialIs(dst, inst, idx, k, src, 0)
  {
    forall nb: int ensures CellIs(dst, nb, Partial(inst, idx, k, src, 0, nb)) {
      var b := nb - inst.costs[idx];
      assert CellIs(src, b, Opt(inst, idx, k, b));
      if b in src {
        OptSupport(inst, idx, k, b);
      }
    }
  }

  /** After the pass over every reachable cost of row k, row k + 1 is the row of the first idx + 1 candidates. */
  lemma PartialEnd(inst: Instance, idx: nat, k: nat, src: map<int, int>, row: map<int, int>)
    requires Wf(inst) && idx < |inst.costs|
    requires RowIs(src, inst, idx, k) && PartialIs(row, inst, idx, k, src, Span(inst) + 1)
    ensures RowIs(row, inst, idx + 1, k + 1)
  {
    ghost var n1, k1 := idx + 1, k + 1;
    forall nb: int ensures CellIs(row, nb, Opt(inst, n1, k1, nb)) {
      assert CellIs(row, nb, Partial(inst, idx, k, src, Span(inst) + 1, nb));
      var b := nb - inst.costs[idx];
      assert CellIs(src, b, Opt(inst, idx, k, b));
      if b in src {
        OptSupport(inst, idx, k, b);
      }
    }
  }

  /**
    The body of the innermost loop for one cost b of row k: candidate idx
    extends cell b to cell b + costs[idx] of row k + 1 when that stays within
    the budget and beats (or creates) the cell there.
  */
  method RelaxCell(inst: Instance, idx: nat, k: nat, src: map<int, int>, row: map<int, int>, prow: map<int, Back>, b: int)
    returns (row': map<int, int>, prow': map<int, Back>)
    requires Wf(inst) && idx < |inst.costs| && 0 <= b
    requires RowIs(src, inst, idx, k)
    requires PartialIs(row, inst, idx, k, src, b)
    requires ParentRowOk(inst, row, prow, src, k + 1, idx + 1)
    ensures (row', prow') == RelaxStep(inst, idx, k, src, row, prow, b)
    ensures PartialIs(row', inst, idx, k, src, b + 1)
    ensures ParentRowOk(inst, row', prow', src, k + 1, idx + 1)
    ensures Grows(row, row')
  {
    var c, v := inst.costs[idx], inst.values[idx];
    var nb := b + c;
    row', prow' := row, prow;
    assert CellIs(row, nb, Partial(inst, idx, k, src, b, nb));
    if b in src {
      assert CellIs(src, b, Opt(inst, idx, k, b));
      if nb <= inst.cap {
        var nv := src[b] + v;
        if nb !in row || nv > row[nb] {
          ParentRowSet(inst, row, prow, src, k, idx, b);
          row' := row[nb := nv];
          prow' := prow[nb := Back(k, b, idx)];
        }
      }
    }
    ghost var next := b + 1;
    assert CellIs(row', nb, Partial(inst, idx, k, src, next, nb));
    forall nb': int | nb' != nb
      ensures CellIs(row', nb', Partial(inst, idx, k, src, next, nb'))
    {
      assert CellIs(row, nb', Partial(inst, idx, k, src, b, nb'));
    }
  }

  lemma GrowsTrans(a: map<int, int>, b: map<int, int>, c: map<int, int>)
    requires Grows(a, b) && Grows(b, c)
    ensures Grows(a, c)
  {
  }

  /** Setting a cell from cell b of row k with candidate idx, and linking it there, keeps the links valid. */
  lemma ParentRowSet(inst: Instance, row: map<int, int>, prow: map<int, Back>, src: map<int, int>, k: nat, idx: nat, b: int)
    requires Wf(inst) && idx < |inst.costs| && b in src
    requires ParentRowOk(inst, row, prow, src, k + 1, idx + 1)
    ensures ParentRowOk(inst, row[b + inst.costs[idx] := src[b] + inst.values[idx]], prow[b + inst.costs[idx] := Back(k, b, idx)], src, k + 1, idx + 1)
  {
  }

  /** Parent links stay valid when the row they point into gains cells and its cells grow. */
  lemma ParentRowWiden(inst: Instance, row: map<int, int>, prow: map<int, Back>, below: map<int, int>, below': map<int, int>, k: nat, n: nat)
    requires Wf(inst) && n <= |inst.costs|
    requires ParentRowOk(inst, row, prow, below, k, n)
    requires Grows(below, below')
    ensures ParentRowOk(inst, row, prow, below', k, n)
  {
  }

  /**
    The two nested loops of `knapsack_select` that fill `dp` and `parent`:
    candidates outermost, item count descending inside, so that each candidate
    is added at most once. On exit row k holds, for every cost b, the best value
    of a subset of all candidates with exactly k items and cost b (`Opt`), and
    every reachable cell with k >= 1 has a parent link one item down.
  */
  method FillTable(inst: Instance, maxItems: nat) returns (dp: seq<map<int, int>>, parent: seq<map<int, Back>>)
    requires Wf(inst)
    ensures |dp| == maxItems + 1
    ensures (dp, parent) == TableUpTo(inst, maxItems, |inst.costs|)
    ensures forall k :: 0 <= k < |dp| ==> RowIs(dp[k], inst, |inst.costs|, k)
    ensures ParentsOk(inst, dp, parent, |inst.costs|)
  {
    dp := [map[0 := 0]] + seq(maxItems, _ => map[]);
    parent := seq(maxItems + 1, _ => map[]);
    for idx := 0 to |inst.costs|
      invariant (dp, parent) == TableUpTo(inst, maxItems, idx)
      invariant |dp| == maxItems + 1
      invariant forall k :: 0 <= k < |dp| ==> RowIs(dp[k], inst, idx, k)
      invariant ParentsOk(inst, dp, parent, idx)
    {
      dp, parent := AddCandidate(inst, idx, dp, parent);
    }
  }

  /**
    One round of the outer loop: add candidate idx to every row, item count
    descending, so that row k + 1 is relaxed from row k before row k itself
    changes.
  */
  method AddCandidate(inst: Instance, idx: nat, dp: seq<map<int, int>>, parent: seq<map<int, Back>>)
    returns (dp': seq<map<int, int>>, parent': seq<map<int, Back>>)
    requires Wf(inst) && idx < |inst.costs| && |dp| >= 1
    requires forall k :: 0 <= k < |dp| ==> RowIs(dp[k], inst, idx, k)
    requires ParentsOk(inst, dp, parent, idx)
    ensures (dp', parent') == AddDown(inst, idx, dp, parent, 0)
    ensures |dp'| == |dp|
    ensures forall k :: 0 <= k < |dp'| ==> RowIs(dp'[k], inst, idx + 1, k)
    ensures ParentsOk(inst, dp', parent', idx + 1)
  {
    dp', parent' := dp, parent;
    ParentsMore(inst, dp, parent, idx);
    var j := |dp| - 1;
    while j > 0
      invariant 0 <= j < |dp| && |dp'| == |dp|
      invariant (dp', parent') == AddDown(inst, idx, dp, parent, j)
      invariant RowsAt(inst, dp', idx, 0, j + 1) && RowsAt(inst, dp', idx + 1, j + 1, |dp'|)
      invariant ParentsOk(inst, dp', parent', idx + 1)
    {
      var k := j - 1;
      assert RowIs(dp'[k], inst, idx, k) && RowIs(dp'[k + 1], inst, idx, k + 1);
      var row, prow := RelaxRow(inst, idx, k, dp'[k], dp'[k + 1], parent'[k + 1]);
      if k + 2 < |dp'| {
        ParentRowWiden(inst, dp'[k + 2], parent'[k + 2], dp'[k + 1], row, k + 2, idx + 1);
      }
      ParentsSet(inst, dp', parent', idx + 1, k + 1, row, prow);
      RowsStep(inst, idx, dp', k + 1, row);
      dp' := dp'[k + 1 := row];
      parent' := parent'[k + 1 := prow];
      j := k;
    }
    RowZeroStays(inst, idx, dp'[0]);
    RowsJoin(inst, dp', idx + 1);
  }

  /** Rows lo .. hi - 1 of the table are the rows of the first n candidates. */
  ghost predicate RowsAt(inst: Instance, dp: seq<map<int, int>>, n: nat, lo: nat, hi: nat)
    requires Wf(inst) && n <= |inst.costs| && hi <= |dp|
  {
    forall k :: lo <= k < hi ==> RowIs(dp[k], inst, n, k)
  }

  /** Replacing row j by its row for one more candidate moves the boundary between the two ranges down by one. */
  lemma RowsStep(inst: Instance, idx: nat, dp: seq<map<int, int>>, j: nat, row: map<int, int>)
    requires Wf(inst) && idx < |inst.costs| && 1 <= j < |dp|
    requires RowsAt(inst, dp, idx, 0, j + 1) && RowsAt(inst, dp, idx + 1, j + 1, |dp|)
    requires RowIs(row, inst, idx + 1, j)
    ensures RowsAt(inst, dp[j := row], idx, 0, j) && RowsAt(inst, dp[j := row], idx + 1, j, |dp|)
  {
  }

  /** Row 0 does not depend on the candidates. */
  lemma RowZeroStays(inst: Instance, idx: nat, row: map<int, int>)
    requires Wf(inst) && idx < |inst.costs| && RowIs(row, inst, idx, 0)
    ensures RowIs(row, inst, idx + 1, 0)
  {
    ghost var n1 := idx + 1;
    forall b: int ensures CellIs(row, b, Opt(inst, n1, 0, b)) {
      assert CellIs(row, b, Opt(inst, idx, 0, b));
    }
  }

  lemma RowsJoin(inst: Instance, dp: seq<map<int, int>>, n: nat)
    requires Wf(inst) && n <= |inst.costs| && |dp| >= 1
    requires RowIs(dp[0], inst, n, 0) && RowsAt(inst, dp, n, 1, |dp|)
    ensures forall k :: 0 <= k < |dp| ==> RowIs(dp[k], inst, n, k)
  {
  }

  /** Links valid for the first n candidates are valid for the first n + 1. */
  lemma ParentsMore(inst: Instance, dp: seq<map<int, int>>, parent: seq<map<int, Back>>, n: nat)
    requires Wf(inst) && n < |inst.costs| && ParentsOk(inst, dp, parent, n)
    ensures ParentsOk(inst, dp, parent, n + 1)
  {
  }

  /**
    The scan for the best cell: rows 1 .. maxItems in increasing order, strict
    `>` against a running best that starts at -1. Only a value >= 0 can win, and
    the winning row is the first row holding the maximum. Within a row the
    model visits costs in increasing order; the contract does not depend on it.
  */
  method PickBest(dp: seq<map<int, int>>, span: nat) returns (bestK: nat, bestB: int, bestV: int)
    requires |dp| >= 1
    requires forall k, b :: 1 <= k < |dp| && b in dp[k] ==> 0 <= b <= span
    ensures bestV >= -1
    ensures forall k, b :: 1 <= k < |dp| && b in dp[k] ==> dp[k][b] <= bestV
    ensures bestV >= 0 ==> 1 <= bestK < |dp| && bestB in dp[bestK] && dp[bestK][bestB] == bestV
    ensures bestV >= 0 ==> forall k, b :: 1 <= k < bestK && b in dp[k] ==> dp[k][b] < bestV
    ensures bestV < 0 ==> bestV == -1 && bestK == 0 && bestB == 0
  {
    bestK, bestB, bestV := 0, 0, -1;
    for k := 1 to |dp|
      invariant bestV >= -1
      invariant forall k', b :: 1 <= k' < k && b in dp[k'] ==> dp[k'][b] <= bestV
      invariant bestV >= 0 ==> 1 <= bestK < k && bestB in dp[bestK] && dp[bestK][bestB] == bestV
      invariant bestV >= 0 ==> forall k', b :: 1 <= k' < bestK && b in dp[k'] ==> dp[k'][b] < bestV
      invariant bestV < 0 ==> bestV == -1 && bestK == 0 && bestB == 0
    {
      for b := 0 to span + 1
        invariant bestV >= -1
        invariant forall k', b' :: 1 <= k' < k && b' in dp[k'] ==> dp[k'][b'] <= bestV
        invariant forall b' :: 0 <= b' < b && b' in dp[k] ==> dp[k][b'] <= bestV
        invariant bestV >= 0 ==> 1 <= bestK <= k && bestB in dp[bestK] && dp[bestK][bestB] == bestV
        invariant bestV >= 0 ==> forall k', b' :: 1 <= k' < bestK && b' in dp[k'] ==> dp[k'][b'] < bestV
        invariant bestV < 0 ==> bestV == -1 && bestK == 0 && bestB == 0
      {
        if b in dp[k] && dp[k][b] > bestV {
          bestK, bestB, bestV := k, b, dp[k][b];
        }
      }
    }
  }

  /** Sum of the costs of a list of candidate indices, repetitions included. */
  function SumCosts(costs: seq<nat>, chosen: seq<nat>): nat
    requires forall i :: 0 <= i < |chosen| ==> chosen[i] < |costs|
  {
    if chosen == [] then 0 else costs[chosen[0]] + SumCosts(costs, chosen[1..])
  }

  /** The values of the candidates at the listed indices, added up. */
  function SumValues(values: seq<int>, chosen: seq<nat>): int
    requires forall i :: 0 <= i < |chosen| ==> chosen[i] < |values|
  {
    if chosen == [] then 0 else values[chosen[0]] + SumValues(values, chosen[1..])
  }

  /**
    The walk `while k > 0` along the parent links, from the best cell to the seed cell.
    It takes exactly bestK steps, the costs of the indices it lists add up to
    bestB, and their values add up to at least the best cell's value (each cell
    was set from its parent plus one candidate, and cells only grew after
    that). It does not promise distinct indices: a later cell of the same pass
    can overwrite the parent link an earlier cell was given.
    The source appends and then reverses; the model prepends.
  */
  method WalkBack(inst: Instance, dp: seq<map<int, int>>, parent: seq<map<int, Back>>, bestK: nat, bestB: int)
    returns (chosen: seq<nat>)
    requires Wf(inst) && ParentsOk(inst, dp, parent, |inst.costs|)
    requires 1 <= |dp| && forall b :: b in dp[0] ==> b == 0 && dp[0][b] == 0
    requires bestK < |dp| && bestB in dp[bestK]
    ensures |chosen| == bestK
    ensures forall i :: 0 <= i < |chosen| ==> chosen[i] < |inst.costs|
    ensures SumCosts(inst.costs, chosen) == bestB
    ensures SumValues(inst.values, chosen) >= dp[bestK][bestB]
    ensures chosen == LinkWalk(parent, bestK, bestB)
  {
    chosen := [];
    var k, b := bestK, bestB;
    while k > 0
      invariant 0 <= k < |dp| && b in dp[k]
      invariant |chosen| + k == bestK
      invariant forall i :: 0 <= i < |chosen| ==> chosen[i] < |inst.costs|
      invariant SumCosts(inst.costs, chosen) + b == bestB
      invariant SumValues(inst.values, chosen) + dp[k][b] >= dp[bestK][bestB]
      invariant LinkWalk(parent, bestK, bestB) == LinkWalk(parent, k, b) + chosen
      decreases k
    {
      assert ParentRowOk(inst, dp[k], parent[k], dp[k - 1], k, |inst.costs|);
      var back := parent[k][b];
      chosen := [back.idx] + chosen;
      k, b := back.k, back.b;
    }
  }

  // ---------------------------------------------------------------------------
  // From indices back to rows

  /** Rows with `eligible` set, in order: `df[df["eligible"]]`. */
  function Candidates(rows: seq<Scored>): (r: seq<Action>)
    ensures forall j :: 0 <= j < |r| ==> Scored(r[j], true) in rows
    ensures forall i :: 0 <= i < |rows| && rows[i].eligible ==> rows[i].action in r
  {
    if rows == [] then []
    else
      var front := rows[..|rows| - 1];
      var last := rows[|rows| - 1];
      assert forall x :: x in front ==> x in rows;
      assert forall i :: 0 <= i < |rows| - 1 ==> rows[i] == front[i];
      Candidates(front) + (if last.eligible then [last.action] else [])
  }

  /** Each action is a candidate exactly as often as eligible rows carry it. */
  lemma {:induction false} CandidatesCount(rows: seq<Scored>)
    ensures forall x :: multiset(Candidates(rows))[x] == multiset(rows)[Scored(x, true)]
  {
    if rows != [] {
      var front := rows[..|rows| - 1];
      CandidatesCount(front);
      assert rows == front + [rows[|rows| - 1]];
    }
  }

  function CostOf(a: Action): int { a.cost }
  function UnitsOf(a: Action): int { a.cost / Unit }
  function ValueOf(a: Action): int { a.value }
  function ValueKey(a: Action): real { a.value as real }

  /** `(cost_clp // 1000)` per candidate. */
  function Units(cands: seq<Action>): (r: seq<nat>)
    ensures |r| == |cands| && forall i :: 0 <= i < |cands| ==> r[i] == cands[i].cost / Unit
  {
    seq(|cands|, i requires 0 <= i < |cands| => cands[i].cost / Unit)
  }

  /** The scaled scores per candidate. */
  function Values(cands: seq<Action>): (r: seq<int>)
    ensures |r| == |cands| && forall i :: 0 <= i < |cands| ==> r[i] == cands[i].value
  {
    seq(|cands|, i requires 0 <= i < |cands| => cands[i].value)
  }

  function SumBy<T>(s: seq<T>, f: T -> int): int {
    if s == [] then 0 else f(s[0]) + SumBy(s[1..], f)
  }

  lemma {:induction false} SumByConcat<T>(a: seq<T>, b: seq<T>, f: T -> int)
    ensures SumBy(a + b, f) == SumBy(a, f) + SumBy(b, f)
  {
    if a == [] {
      assert a + b == b;
    } else {
      assert (a + b)[1..] == a[1..] + b;
      SumByConcat(a[1..], b, f);
    }
  }

  /** A sum does not depend on the order of its terms. */
  lemma {:induction false} SumByPermutation<T>(a: seq<T>, b: seq<T>, f: T -> int)
    requires multiset(a) == multiset(b)
    ensures SumBy(a, f) == SumBy(b, f)
  {
    if a != [] {
      var x := a[0];
      assert x in multiset(b);
      var j :| 0 <= j < |b| && b[j] == x;
      var rest := b[..j] + b[j + 1..];
      assert b == b[..j] + [x] + b[j + 1..];
      assert a == [x] + a[1..];
      assert multiset(rest) == multiset(b) - multiset{x};
      SumByPermutation(a[1..], rest, f);
      SumByConcat(b[..j] + [x], b[j + 1..], f);
      SumByConcat(b[..j], [x], f);
      SumByConcat(b[..j], b[j + 1..], f);
    }
  }

  /** The rows at the chosen positions of a mask, in order. */
  function Pick<T>(xs: seq<T>, m: seq<bool>): seq<T>
    requires |m| <= |xs|
  {
    if m == [] then [] else Pick(xs, m[..|m| - 1]) + (if m[|m| - 1] then [xs[|m| - 1]] else [])
  }

  /** Picking by a mask carries the mask's count, cost and value. */
  lemma {:induction false} PickSums(cands: seq<Action>, m: seq<bool>)
    requires |m| <= |cands|
    ensures |Pick(cands, m)| == Count(m)
    ensures SumBy(Pick(cands, m), UnitsOf) == MaskCost(Units(cands), m)
    ensures SumBy(Pick(cands, m), ValueOf) == MaskValue(Values(cands), m)
  {
    if m != [] {
      var n := |m|;
      var front := m[..n - 1];
      PickSums(cands, front);
      var tail: seq<Action> := if m[n - 1] then [cands[n - 1]] else [];
      SumByConcat(Pick(cands, front), tail, UnitsOf);
      SumByConcat(Pick(cands, front), tail, ValueOf);
    }
  }

  /** Picking by a mask keeps each row at most once. */
  lemma {:induction false} PickWithin(cands: seq<Action>, m: seq<bool>)
    requires |m| <= |cands|
    ensures multiset(Pick(cands, m)) <= multiset(cands[..|m|])
  {
    if m != [] {
      var n := |m|;
      PickWithin(cands, m[..n - 1]);
      assert cands[..n] == cands[..n - 1] + [cands[n - 1]];
    }
  }

  /** A row is picked exactly when a position the mask keeps holds it. */
  lemma {:induction false} PickMembers<T>(xs: seq<T>, m: seq<bool>)
    requires |m| <= |xs|
    ensures forall x :: x in Pick(xs, m) <==> exists i :: 0 <= i < |m| && m[i] && xs[i] == x
  {
    if m != [] {
      var n := |m|;
      var init := m[..n - 1];
      PickMembers(xs, init);
      forall x ensures x in Pick(xs, m) <==> exists i :: 0 <= i < n && m[i] && xs[i] == x {
        if x in Pick(xs, m) && x !in Pick(xs, init) {
          assert m[n - 1] && xs[n - 1] == x;
        }
        if exists i :: 0 <= i < n && m[i] && xs[i] == x {
          var i :| 0 <= i < n && m[i] && xs[i] == x;
          if i < n - 1 {
            assert init[i];
          }
        }
      }
    }
  }

  /** Picking by a mask keeps each row at most once and carries the mask's count, cost and value. */
  lemma PickFacts(cands: seq<Action>, m: seq<bool>)
    requires |m| <= |cands|
    ensures |Pick(cands, m)| == Count(m)
    ensures SumBy(Pick(cands, m), UnitsOf) == MaskCost(Units(cands), m)
    ensures SumBy(Pick(cands, m), ValueOf) == MaskValue(Values(cands), m)
    ensures multiset(Pick(cands, m)) <= multiset(cands[..|m|])
  {
    PickSums(cands, m);
    PickWithin(cands, m);
  }

  /** Clearing one position of a mask removes exactly that position's count and cost. */
  lemma {:induction false} MaskClear(costs: seq<nat>, m: seq<bool>, x: nat)
    requires |m| <= |costs| && x < |m|
    ensures Count(m) == Count(m[x := false]) + (if m[x] then 1 else 0)
    ensures MaskCost(costs, m) == MaskCost(costs, m[x := false]) + (if m[x] then costs[x] else 0)
  {
    var n := |m|;
    if x < n - 1 {
      assert m[x := false][..n - 1] == m[..n - 1][x := false];
      MaskClear(costs, m[..n - 1], x);
    } else {
      assert m[x := false][..n - 1] == m[..n - 1];
    }
  }

  /**
    A mask whose positions all occur in a list of indices counts no more items
    and costs no more than the list itself, repetitions included.
  */
  lemma {:induction false} MaskBelowList(costs: seq<nat>, m: seq<bool>, chosen: seq<nat>)
    requires |m| <= |costs|
    requires forall i :: 0 <= i < |chosen| ==> chosen[i] < |costs|
    requires forall i :: 0 <= i < |m| && m[i] ==> i in chosen
    ensures Count(m) <= |chosen|
    ensures MaskCost(costs, m) <= SumCosts(costs, chosen)
    decreases |chosen|
  {
    if chosen == [] {
      MaskEmpty(costs, m);
    } else {
      var x := chosen[0];
      var rest := chosen[1..];
      var m' := if x < |m| then m[x := false] else m;
      forall i | 0 <= i < |m'| && m'[i] ensures i in rest {
        assert i != x && i in chosen;
        var j :| 0 <= j < |chosen| && chosen[j] == i;
        assert rest[j - 1] == i;
      }
      MaskBelowList(costs, m', rest);
      if x < |m| {
        MaskClear(costs, m, x);
      }
    }
  }

  lemma {:induction false} MaskEmpty(costs: seq<nat>, m: seq<bool>)
    requires |m| <= |costs| && forall i :: 0 <= i < |m| ==> !m[i]
    ensures Count(m) == 0 && MaskCost(costs, m) == 0
  {
    if m != [] {
      MaskEmpty(costs, m[..|m| - 1]);
    }
  }

  lemma {:induction false} MaskNonEmpty(m: seq<bool>, x: nat)
    requires x < |m| && m[x]
    ensures Count(m) >= 1
  {
    if x < |m| - 1 {
      MaskNonEmpty(m[..|m| - 1], x);
    }
  }

  /** Clearing one position of a mask removes exactly that position's value. */
  lemma {:induction false} MaskValueClear(values: seq<int>, m: seq<bool>, x: nat)
    requires |m| <= |values| && x < |m|
    ensures MaskValue(values, m) == MaskValue(values, m[x := false]) + (if m[x] then values[x] else 0)
  {
    var n := |m|;
    if x < n - 1 {
      assert m[x := false][..n - 1] == m[..n - 1][x := false];
      MaskValueClear(values, m[..n - 1], x);
    } else {
      assert m[x := false][..n - 1] == m[..n - 1];
    }
  }

  lemma {:induction false} MaskValueEmpty(values: seq<int>, m: seq<bool>)
    requires |m| <= |values| && forall i :: 0 <= i < |m| ==> !m[i]
    ensures MaskValue(values, m) == 0
  {
    if m != [] {
      MaskValueEmpty(values, m[..|m| - 1]);
    }
  }

  /** No index is listed twice. */
  predicate Distinct(xs: seq<nat>) {
    forall i, j :: 0 <= i < j < |xs| ==> xs[i] != xs[j]
  }

  /** The mask of a list of indices without repetitions is worth exactly the values the list adds up. */
  lemma {:induction false} MaskValueOfList(values: seq<int>, m: seq<bool>, chosen: seq<nat>)
    requires |m| <= |values|
    requires forall i :: 0 <= i < |chosen| ==> chosen[i] < |m|
    requires Distinct(chosen)
    requires forall i :: 0 <= i < |m| ==> (m[i] <==> i in chosen)
    ensures MaskValue(values, m) == SumValues(values, chosen)
    decreases |chosen|
  {
    if chosen == [] {
      MaskValueEmpty(values, m);
    } else {
      var x := chosen[0];
      var rest := chosen[1..];
      var m' := m[x := false];
      forall i | 0 <= i < |m'| ensures m'[i] <==> i in rest {
        if i in rest {
          var j :| 0 <= j < |rest| && rest[j] == i;
          assert chosen[j + 1] == i;
        }
        if i != x && i in chosen {
          var j :| 0 <= j < |chosen| && chosen[j] == i;
          assert rest[j - 1] == i;
        }
      }
      MaskValueOfList(values, m', rest);
      MaskValueClear(values, m, x);
    }
  }

  /** With costs that are whole thousands, the CLP total is exactly 1000 times the unit total. */
  lemma {:induction false} WholeThousands(s: seq<Action>)
    requires forall a :: a in s ==> a.cost % Unit == 0
    ensures SumBy(s, CostOf) == Unit * SumBy(s, UnitsOf)
  {
    if s != [] {
      assert forall a :: a in s[1..] ==> a in s;
      WholeThousands(s[1..]);
    }
  }

  // ---------------------------------------------------------------------------
  // knapsack_select

  /** The info record: the two notes, or the totals of the selected rows. */
  datatype Info =
    | NoEligibleActions
    | NoSolution
    | Summary(budgetClp: int, maxItems: nat, selectedCount: nat, selectedCostClp: int, selectedValueSum: int)

  /** The discretised instance of a candidate list under a CLP budget. */
  function Discretise(cands: seq<Action>, budget: int): (inst: Instance)
    ensures Wf(inst) && |inst.costs| == |cands|
  {
    Instance(Units(cands), Values(cands), budget / Unit)
  }

  /** Action ids are distinct (the dashboard numbers them A01, A02, ...). */
  ghost predicate UniqueIds(cands: seq<Action>) {
    forall i, j :: 0 <= i < j < |cands| ==> cands[i].id != cands[j].id
  }

  /** Every non-empty subset within the item cap and the unit budget has a negative total. */
  ghost predicate NoGoodSubset(inst: Instance, maxItems: nat)
    requires Wf(inst)
  {
    forall m: seq<bool> :: Feasible(inst, maxItems, m) ==> MaskValue(inst.values, m) < 0
  }

  /** A non-empty subset of all candidates within the item cap and the unit budget. */
  ghost predicate Feasible(inst: Instance, maxItems: nat, m: seq<bool>)
    requires Wf(inst)
  {
    |m| == |inst.costs| && 1 <= Count(m) <= maxItems && MaskCost(inst.costs, m) <= inst.cap
  }

  /**
    v is the best total of a non-empty subset within the item cap and the unit
    budget: no such subset is worth more, and one is worth exactly v.
  */
  ghost predicate IsBestValue(inst: Instance, maxItems: nat, v: int)
    requires Wf(inst)
  {
    (forall m: seq<bool> :: Feasible(inst, maxItems, m) ==> MaskValue(inst.values, m) <= v)
    && exists m: seq<bool> :: Feasible(inst, maxItems, m) && MaskValue(inst.values, m) == v
  }

  /** A subset that fits a smaller cap and budget fits a larger one. */
  lemma FeasibleWiden(cands: seq<Action>, n1: nat, n2: nat, b1: int, b2: int, m: seq<bool>)
    requires n1 <= n2 && b1 <= b2
    requires Feasible(Discretise(cands, b1), n1, m)
    ensures Feasible(Discretise(cands, b2), n2, m)
  {
    assert b1 / Unit <= b2 / Unit;
  }

  /**
    More budget (or a larger item cap) never lowers the best total: every subset
    the smaller limits admit is still admitted.
  */
  lemma BudgetNeverLowersBest(cands: seq<Action>, n1: nat, n2: nat, b1: int, b2: int, v1: int, v2: int)
    requires n1 <= n2 && b1 <= b2
    requires IsBestValue(Discretise(cands, b1), n1, v1)
    requires IsBestValue(Discretise(cands, b2), n2, v2)
    ensures v1 <= v2
  {
    var m :| Feasible(Discretise(cands, b1), n1, m) && MaskValue(Values(cands), m) == v1;
    FeasibleWiden(cands, n1, n2, b1, b2, m);
  }

  /** More budget (or a larger item cap) never turns a solution into "no solution". */
  lemma BudgetKeepsSolutions(cands: seq<Action>, n1: nat, n2: nat, b1: int, b2: int)
    requires n1 <= n2 && b1 <= b2
    requires NoGoodSubset(Discretise(cands, b2), n2)
    ensures NoGoodSubset(Discretise(cands, b1), n1)
  {
    forall m: seq<bool> | Feasible(Discretise(cands, b1), n1, m)
      ensures MaskValue(Discretise(cands, b1).values, m) < 0
    {
      FeasibleWiden(cands, n1, n2, b1, b2, m);
    }
  }

  /** The largest cell of rows 1 .. maxItems holds the best total of a non-empty subset. */
  lemma BestIsOptimal(inst: Instance, dp: seq<map<int, int>>, maxItems: nat, bestK: nat, bestB: int, bestV: int)
    requires Wf(inst) && |dp| == maxItems + 1
    requires forall k :: 0 <= k < |dp| ==> RowIs(dp[k], inst, |inst.costs|, k)
    requires forall k, b :: 1 <= k < |dp| && b in dp[k] ==> dp[k][b] <= bestV
    requires 1 <= bestK < |dp| && bestB in dp[bestK] && dp[bestK][bestB] == bestV
    ensures IsBestValue(inst, maxItems, bestV)
  {
    var n := |inst.costs|;
    forall m: seq<bool> | Feasible(inst, maxItems, m)
      ensures MaskValue(inst.values, m) <= bestV
    {
      var k, b := Count(m), MaskCost(inst.costs, m);
      OptDominates(inst, m, k, b);
      assert CellIs(dp[k], b, Opt(inst, n, k, b));
    }
    assert CellIs(dp[bestK], bestB, Opt(inst, n, bestK, bestB));
    var w := Witness(inst, n, bestK, bestB);
    assert Feasible(inst, maxItems, w) && MaskValue(inst.values, w) == bestV;
  }

  /** `candidates["id"].isin(ids)`: which rows carry a listed id. */
  function IdMask(cands: seq<Action>, ids: set<string>): (m: seq<bool>)
    ensures |m| == |cands| && forall i :: 0 <= i < |cands| ==> (m[i] <==> cands[i].id in ids)
  {
    seq(|cands|, i requires 0 <= i < |cands| => cands[i].id in ids)
  }

  /** When no cell with at least one item has a value >= 0, no good subset exists at all. */
  lemma NoGoodWhenBestNegative(inst: Instance, dp: seq<map<int, int>>, maxItems: nat)
    requires Wf(inst) && |dp| == maxItems + 1
    requires forall k :: 0 <= k < |dp| ==> RowIs(dp[k], inst, |inst.costs|, k)
    requires forall k, b :: 1 <= k < |dp| && b in dp[k] ==> dp[k][b] < 0
    ensures NoGoodSubset(inst, maxItems)
  {
    var n := |inst.costs|;
    forall m: seq<bool> | Feasible(inst, maxItems, m)
      ensures MaskValue(inst.values, m) < 0
    {
      var k, b := Count(m), MaskCost(inst.costs, m);
      OptDominates(inst, m, k, b);
      assert CellIs(dp[k], b, Opt(inst, n, k, b));
    }
  }

  /** A cell with at least one item and a value >= 0 is reached by a good subset. */
  lemma GoodWhenBestNonNegative(inst: Instance, dp: seq<map<int, int>>, maxItems: nat, bestK: nat, bestB: int)
    requires Wf(inst) && |dp| == maxItems + 1
    requires forall k :: 0 <= k < |dp| ==> RowIs(dp[k], inst, |inst.costs|, k)
    requires 1 <= bestK < |dp| && bestB in dp[bestK] && dp[bestK][bestB] >= 0
    ensures !NoGoodSubset(inst, maxItems)
  {
    var n := |inst.costs|;
    assert CellIs(dp[bestK], bestB, Opt(inst, n, bestK, bestB));
    var w := Witness(inst, n, bestK, bestB);
    assert MaskValue(inst.values, w) >= 0;
  }

  /** Every filled cell lies in the budget range; row 0 holds only the empty cell. */
  lemma TableSupport(inst: Instance, dp: seq<map<int, int>>, maxItems: nat)
    requires Wf(inst) && |dp| == maxItems + 1
    requires forall k :: 0 <= k < |dp| ==> RowIs(dp[k], inst, |inst.costs|, k)
    ensures forall k, b :: 0 <= k < |dp| && b in dp[k] ==>
      0 <= b <= Span(inst) && (k == 0 ==> b == 0 && dp[k][b] == 0) && (k > 0 ==> b <= inst.cap)
  {
    var n := |inst.costs|;
    forall k, b | 0 <= k < |dp| && b in dp[k]
      ensures 0 <= b <= Span(inst) && (k == 0 ==> b == 0 && dp[k][b] == 0) && (k > 0 ==> b <= inst.cap)
    {
      assert CellIs(dp[k], b, Opt(inst, n, k, b));
      OptSupport(inst, n, k, b);
      if k == 0 {
        OptSeed(inst, n, b);
      }
    }
  }

  /** Whole-thousand costs within the unit budget stay within the CLP budget. */
  lemma WithinBudget(selected: seq<Action>, cands: seq<Action>, budget: int)
    requires multiset(selected) <= multiset(cands)
    requires forall a :: a in cands ==> a.cost % Unit == 0
    requires SumBy(selected, UnitsOf) <= budget / Unit
    ensures SumBy(selected, CostOf) <= budget
  {
    forall a | a in selected ensures a.cost % Unit == 0 {
      assert a in multiset(selected);
    }
    WholeThousands(selected);
  }

  /** The ids of the walked indices. */
  function ChosenIds(cands: seq<Action>, chosen: seq<nat>): set<string>
    requires forall i :: 0 <= i < |chosen| ==> chosen[i] < |cands|
  {
    set j | 0 <= j < |chosen| :: cands[chosen[j]].id
  }

  /** Rows whose id appears among the walked indices (`isin`), in candidate order. */
  function PickChosen(cands: seq<Action>, chosen: seq<nat>): (r: seq<Action>)
    requires forall i :: 0 <= i < |chosen| ==> chosen[i] < |cands|
    ensures forall x :: x in r <==> x in cands && x.id in ChosenIds(cands, chosen)
    ensures multiset(r) <= multiset(cands)
  {
    var mask := IdMask(cands, ChosenIds(cands, chosen));
    PickMembers(cands, mask);
    PickWithin(cands, mask);
    assert cands[..|mask|] == cands;
    Pick(cands, mask)
  }

  /** The selection: the picked rows sorted by descending scaled value. */
  function SelectChosen(cands: seq<Action>, chosen: seq<nat>): (r: seq<Action>)
    requires forall i :: 0 <= i < |chosen| ==> chosen[i] < |cands|
    ensures multiset(r) == multiset(PickChosen(cands, chosen))
    ensures SortedDesc(r, ValueKey)
  {
    SortDesc(PickChosen(cands, chosen), ValueKey)
  }

  /** With distinct ids, a row is picked only if its own index was walked. */
  lemma IdMaskWithinChosen(cands: seq<Action>, chosen: seq<nat>)
    requires forall i :: 0 <= i < |chosen| ==> chosen[i] < |cands|
    requires UniqueIds(cands)
    ensures forall i :: 0 <= i < |cands| && IdMask(cands, ChosenIds(cands, chosen))[i] ==> i in chosen
  {
    var mask := IdMask(cands, ChosenIds(cands, chosen));
    forall i | 0 <= i < |cands| && mask[i] ensures i in chosen {
      var j :| 0 <= j < |chosen| && cands[chosen[j]].id == cands[i].id;
      assert chosen[j] == i;
    }
  }

  /** The picked rows: distinct candidates, non-empty when the walk is, bounded by the walk under distinct ids. */
  lemma PickChosenFacts(cands: seq<Action>, chosen: seq<nat>)
    requires forall i :: 0 <= i < |chosen| ==> chosen[i] < |cands|
    ensures chosen != [] ==> 1 <= |PickChosen(cands, chosen)|
    ensures multiset(PickChosen(cands, chosen)) <= multiset(cands)
    ensures UniqueIds(cands) ==> |PickChosen(cands, chosen)| <= |chosen|
    ensures UniqueIds(cands) ==> SumBy(PickChosen(cands, chosen), UnitsOf) <= SumCosts(Units(cands), chosen)
  {
    var mask := IdMask(cands, ChosenIds(cands, chosen));
    PickFacts(cands, mask);
    assert cands[..|cands|] == cands;
    if chosen != [] {
      assert cands[chosen[0]].id in ChosenIds(cands, chosen);
      MaskNonEmpty(mask, chosen[0]);
    }
    if UniqueIds(cands) {
      IdMaskWithinChosen(cands, chosen);
      MaskBelowList(Units(cands), mask, chosen);
    }
  }

  /**
    The selection never repeats a candidate, is sorted by descending scaled value and
    is non-empty when the walk is; with distinct ids the walk's item count and
    unit cost bound it even though the walk may list an index twice.
  */
  lemma SelectChosenFacts(cands: seq<Action>, chosen: seq<nat>)
    requires forall i :: 0 <= i < |chosen| ==> chosen[i] < |cands|
    ensures chosen != [] ==> 1 <= |SelectChosen(cands, chosen)|
    ensures multiset(SelectChosen(cands, chosen)) <= multiset(cands)
    ensures SortedDesc(SelectChosen(cands, chosen), ValueKey)
    ensures UniqueIds(cands) ==> |SelectChosen(cands, chosen)| <= |chosen|
    ensures UniqueIds(cands) ==> SumBy(SelectChosen(cands, chosen), UnitsOf) <= SumCosts(Units(cands), chosen)
  {
    var picked := PickChosen(cands, chosen);
    var r := SelectChosen(cands, chosen);
    PickChosenFacts(cands, chosen);
    assert |r| == |multiset(r)| == |multiset(picked)| == |picked|;
    SumByPermutation(r, picked, UnitsOf);
  }

  /** The table and links `knapsack_select` builds for a candidate list. */
  function SelectTable(cands: seq<Action>, budget: int, maxItems: nat): (seq<map<int, int>>, seq<map<int, Back>>) {
    TableUpTo(Discretise(cands, budget), maxItems, |cands|)
  }

  /**
    Cell (k, b) of rows 1 .. |dp| - 1 holds the largest value v, and k is the
    first row where v occurs.
  */
  ghost predicate BestCell(dp: seq<map<int, int>>, k: nat, b: int, v: int) {
    && 1 <= k < |dp| && b in dp[k] && dp[k][b] == v
    && (forall k', b' :: 1 <= k' < |dp| && b' in dp[k'] ==> dp[k'][b'] <= v)
    && (forall k', b' :: 1 <= k' < k && b' in dp[k'] ==> dp[k'][b'] < v)
  }

  /**
    With distinct ids and a walk that lists no index twice, the selection is
    worth exactly the best total: its mask is a non-empty subset within the cap
    and the budget, so it is worth at most the best, and it is worth what the
    walk adds up, which is at least the best.
  */
  lemma SelectReachesBest(cands: seq<Action>, budget: int, maxItems: nat, chosen: seq<nat>, best: int)
    requires forall i :: 0 <= i < |chosen| ==> chosen[i] < |cands|
    requires UniqueIds(cands) && Distinct(chosen)
    requires 1 <= |chosen| <= maxItems && SumCosts(Units(cands), chosen) <= budget / Unit
    requires SumValues(Values(cands), chosen) >= best
    requires IsBestValue(Discretise(cands, budget), maxItems, best)
    ensures SumBy(SelectChosen(cands, chosen), ValueOf) == best
  {
    var mask := IdMask(cands, ChosenIds(cands, chosen));
    IdMaskWithinChosen(cands, chosen);
    forall i | 0 <= i < |cands| ensures mask[i] <==> i in chosen {
      if i in chosen {
        var j :| 0 <= j < |chosen| && chosen[j] == i;
        assert cands[i].id in ChosenIds(cands, chosen);
      }
    }
    MaskValueOfList(Values(cands), mask, chosen);
    MaskBelowList(Units(cands), mask, chosen);
    MaskNonEmpty(mask, chosen[0]);
    assert Feasible(Discretise(cands, budget), maxItems, mask);
    PickSums(cands, mask);
    var picked := PickChosen(cands, chosen);
    SumByPermutation(SelectChosen(cands, chosen), picked, ValueOf);
  }

  /**
    `knapsack_select(df, budget, max_items)`. Without eligible rows, and only
    then, the result is empty with the "no eligible actions" note. Otherwise
    the DP runs, and the result is empty with the "no solution" note exactly
    when every non-empty
    subset that fits the cap and the unit budget has a negative total.
    Otherwise (bestCount, bestCost) is the best cell of the table the loops
    build (`SelectTable`), worth `bestValue`, the best total of a non-empty
    subset within the cap and the unit budget; `walk` is the list of indices its
    parent links give (`LinkWalk`): between 1 and maxItems of them, within the
    unit budget, adding up to at least the best total. The rows whose id the
    walk lists are returned, sorted by descending scaled value (`ValueKey`),
    with their totals. The result never repeats a candidate and, with distinct
    ids, respects the cap and the unit budget (and the CLP budget when costs
    are whole thousands); with distinct ids and a walk without repetitions it
    is worth exactly the best total. The walk can repeat an index, and then the
    selection can be worth less.
  */
  method KnapsackSelect(rows: seq<Scored>, budget: int, maxItems: nat)
    returns (selected: seq<Action>, info: Info, ghost bestCount: nat, ghost bestCost: int, ghost bestValue: int, ghost walk: seq<nat>)
    ensures info == NoEligibleActions ==> Candidates(rows) == []
    ensures Candidates(rows) == [] ==> selected == [] && info == NoEligibleActions
    ensures info == NoSolution <==> Candidates(rows) != [] && NoGoodSubset(Discretise(Candidates(rows), budget), maxItems)
    ensures !info.Summary? ==> selected == []
    ensures info.Summary? ==> 1 <= |selected|
    ensures info.Summary? ==> info == Summary(budget, maxItems, |selected|, SumBy(selected, CostOf), SumBy(selected, ValueOf))
    ensures multiset(selected) <= multiset(Candidates(rows))
    ensures SortedDesc(selected, ValueKey)
    ensures info.Summary? && UniqueIds(Candidates(rows)) ==> |selected| <= maxItems && SumBy(selected, UnitsOf) <= budget / Unit
    ensures info.Summary? && UniqueIds(Candidates(rows)) && (forall a :: a in Candidates(rows) ==> a.cost % Unit == 0)
      ==> SumBy(selected, CostOf) <= budget
    ensures !info.Summary? ==> walk == []
    ensures info.Summary? ==> BestCell(SelectTable(Candidates(rows), budget, maxItems).0, bestCount, bestCost, bestValue)
    ensures info.Summary? ==> walk == LinkWalk(SelectTable(Candidates(rows), budget, maxItems).1, bestCount, bestCost)
    ensures info.Summary? ==> bestValue >= 0 && IsBestValue(Discretise(Candidates(rows), budget), maxItems, bestValue)
    ensures info.Summary? ==> 1 <= |walk| <= maxItems && forall i :: 0 <= i < |walk| ==> walk[i] < |Candidates(rows)|
    ensures info.Summary? ==> SumCosts(Units(Candidates(rows)), walk) <= budget / Unit
    ensures info.Summary? ==> SumValues(Values(Candidates(rows)), walk) >= bestValue
    ensures info.Summary? ==> selected == SelectChosen(Candidates(rows), walk)
    ensures info.Summary? && UniqueIds(Candidates(rows)) && Distinct(walk) ==> SumBy(selected, ValueOf) == bestValue
  {
    bestCount, bestCost, bestValue, walk := 0, 0, -1, [];
    var cands := Candidates(rows);
    if cands == [] {
      selected, info := [], NoEligibleActions;
      return;
    }
    var inst := Discretise(cands, budget);
    var n := |cands|;
    var dp, parent := FillTable(inst, maxItems);
    TableSupport(inst, dp, maxItems);
    var bestK, bestB, bestV := PickBest(dp, Span(inst));
    if bestV < 0 {
      NoGoodWhenBestNegative(inst, dp, maxItems);
      selected, info := [], NoSolution;
      return;
    }
    GoodWhenBestNonNegative(inst, dp, maxItems, bestK, bestB);
    BestIsOptimal(inst, dp, maxItems, bestK, bestB, bestV);
    var chosen := WalkBack(inst, dp, parent, bestK, bestB);
    bestCount, bestCost, bestValue, walk := bestK, bestB, bestV, chosen;
    selected := SelectChosen(cands, chosen);
    SelectChosenFacts(cands, chosen);
    info := Summary(budget, maxItems, |selected|, SumBy(selected, CostOf), SumBy(selected, ValueOf));
    if UniqueIds(cands) && forall a :: a in cands ==> a.cost % Unit == 0 {
      WithinBudget(selected, cands, budget);
    }
    if UniqueIds(cands) && Distinct(chosen) {
      SelectReachesBest(cands, budget, maxItems, chosen, bestV);
    }
  }

  // ---------------------------------------------------------------------------
  // A worked instance

  /** `AddDown` on a table with rows 0, 1 and 2, unfolded. */
  lemma AddDownThree(inst: Instance, idx: nat, dp: seq<map<int, int>>, parent: seq<map<int, Back>>)
    requires Wf(inst) && idx < |inst.costs| && |dp| == 3 && |parent| == 3
    ensures var r1 := RelaxUpTo(inst, idx, 1, dp[1], dp[2], parent[2], Span(inst) + 1);
      var d1, p1 := dp[2 := r1.0], parent[2 := r1.1];
      var r0 := RelaxUpTo(inst, idx, 0, d1[0], d1[1], p1[1], Span(inst) + 1);
      AddDown(inst, idx, dp, parent, 0) == (d1[1 := r0.0], p1[1 := r0.1])
  {
    assert AddDown(inst, idx, dp, parent, 2) == (dp, parent);
  }

  /** `RelaxUpTo` over costs 0, 1 and 2, unfolded. */
  lemma RelaxThree(inst: Instance, idx: nat, k: nat, src: map<int, int>, dst: map<int, int>, pdst: map<int, Back>)
    requires Wf(inst) && idx < |inst.costs|
    ensures RelaxUpTo(inst, idx, k, src, dst, pdst, 3) ==
      var s1 := RelaxStep(inst, idx, k, src, dst, pdst, 0);
      var s2 := RelaxStep(inst, idx, k, src, s1.0, s1.1, 1);
      RelaxStep(inst, idx, k, src, s2.0, s2.1, 2)
  {
    assert RelaxUpTo(inst, idx, k, src, dst, pdst, 1) == RelaxStep(inst, idx, k, src, dst, pdst, 0);
  }

  /** Two candidates of 1000 CLP each, worth 7 and 5. */
  function TwoCandidates(): seq<Action> {
    [Action("A01", 1000, 7, 0.1, 1.0), Action("A02", 1000, 5, 0.1, 1.0)]
  }

  /** Their instance under 2000 CLP: one unit each, values 7 and 5, two units of budget. */
  lemma TwoCandidatesInstance()
    ensures Discretise(TwoCandidates(), 2000) == Instance([1, 1], [7, 5], 2)
  {
  }

  /** After the first candidate: the seed, and (1, 1) worth 7 linked to the seed. */
  lemma TwoCandidatesFirst(inst: Instance)
    requires inst == Instance([1, 1], [7, 5], 2)
    ensures TableUpTo(inst, 2, 1) == ([map[0 := 0], map[1 := 7], map[]], [map[], map[1 := Back(0, 0, 0)], map[]])
  {
    var empty: map<int, int> := map[];
    var noLinks: map<int, Back> := map[];
    var t0 := TableUpTo(inst, 2, 0);
    assert t0.0 == [map[0 := 0], empty, empty] by {
      assert seq(2, _ => empty) == [empty, empty];
    }
    assert t0.1 == [noLinks, noLinks, noLinks] by {
      assert seq(3, _ => noLinks) == [noLinks, noLinks, noLinks];
    }
    AddDownThree(inst, 0, t0.0, t0.1);
    RelaxThree(inst, 0, 1, empty, empty, noLinks);
    assert RelaxUpTo(inst, 0, 1, empty, empty, noLinks, 3) == (empty, noLinks);
    RelaxThree(inst, 0, 0, map[0 := 0], empty, noLinks);
    assert RelaxUpTo(inst, 0, 0, map[0 := 0], empty, noLinks, 3) == (map[1 := 7], map[1 := Back(0, 0, 0)]);
    assert TableUpTo(inst, 2, 1) == AddDown(inst, 0, t0.0, t0.1, 0);
    assert t0.0[2 := empty][1 := map[1 := 7]] == [map[0 := 0], map[1 := 7], empty];
    assert t0.1[2 := noLinks][1 := map[1 := Back(0, 0, 0)]] == [noLinks, map[1 := Back(0, 0, 0)], noLinks];
  }

  /** After the second candidate: (1, 1) stays worth 7, and (2, 2) is worth 12, linked to (1, 1). */
  lemma TwoCandidatesSecond(inst: Instance)
    requires inst == Instance([1, 1], [7, 5], 2)
    ensures TableUpTo(inst, 2, 2) ==
      ([map[0 := 0], map[1 := 7], map[2 := 12]], [map[], map[1 := Back(0, 0, 0)], map[2 := Back(1, 1, 1)]])
  {
    TwoCandidatesFirst(inst);
    var t1 := TableUpTo(inst, 2, 1);
    AddDownThree(inst, 1, t1.0, t1.1);
    RelaxThree(inst, 1, 1, map[1 := 7], map[], map[]);
    assert RelaxUpTo(inst, 1, 1, map[1 := 7], map[], map[], 3) == (map[2 := 12], map[2 := Back(1, 1, 1)]);
    RelaxThree(inst, 1, 0, map[0 := 0], map[1 := 7], map[1 := Back(0, 0, 0)]);
    assert RelaxUpTo(inst, 1, 0, map[0 := 0], map[1 := 7], map[1 := Back(0, 0, 0)], 3) == (map[1 := 7], map[1 := Back(0, 0, 0)]);
    assert TableUpTo(inst, 2, 2) == AddDown(inst, 1, t1.0, t1.1, 0);
    assert t1.0[2 := map[2 := 12]][1 := map[1 := 7]] == [map[0 := 0], map[1 := 7], map[2 := 12]];
    assert t1.1[2 := map[2 := Back(1, 1, 1)]][1 := map[1 := Back(0, 0, 0)]] == [map[], map[1 := Back(0, 0, 0)], map[2 := Back(1, 1, 1)]];
  }

  /**
    The table for those two candidates, a budget of 2000 CLP and at most two
    items: one item is worth at most 7, two items 12; cell (2, 2) links to
    (1, 1) through the second candidate, and (1, 1) to the seed through the first.
  */
  lemma TwoCandidatesTable()
    ensures SelectTable(TwoCandidates(), 2000, 2) ==
      ([map[0 := 0], map[1 := 7], map[2 := 12]], [map[], map[1 := Back(0, 0, 0)], map[2 := Back(1, 1, 1)]])
  {
    TwoCandidatesInstance();
    TwoCandidatesSecond(Discretise(TwoCandidates(), 2000));
  }

  /**
    For the two candidates, a budget of 2000 CLP and at most two items, the
    best cell is (2, 2), worth 12, and its walk lists both candidates, first
    to last: `knapsack_select` returns both rows.
  */
  lemma TwoCandidatesWalk()
    ensures forall k, b, v :: BestCell(SelectTable(TwoCandidates(), 2000, 2).0, k, b, v) ==> k == 2 && b == 2 && v == 12
    ensures LinkWalk(SelectTable(TwoCandidates(), 2000, 2).1, 2, 2) == [0, 1]
  {
    TwoCandidatesTable();
    var t := SelectTable(TwoCandidates(), 2000, 2);
    forall k, b, v | BestCell(t.0, k, b, v) ensures k == 2 && b == 2 && v == 12 {
      assert 2 in t.0[2] && t.0[2][2] == 12;
    }
    assert LinkWalk(t.1, 1, 1) == LinkWalk(t.1, 0, 0) + [0];
  }

  /** Both ids are among those a walk over indices 0 and 1 lists. */
  lemma TwoCandidatesIds()
    ensures "A01" in ChosenIds(TwoCandidates(), [0, 1]) && "A02" in ChosenIds(TwoCandidates(), [0, 1])
  {
    var chosen: seq<nat> := [0, 1];
    assert TwoCandidates()[chosen[0]].id == "A01" && TwoCandidates()[chosen[1]].id == "A02";
  }

  /** A walk listing both of the two candidates picks both rows, in candidate order. */
  lemma TwoCandidatesPicked()
    ensures PickChosen(TwoCandidates(), [0, 1]) == TwoCandidates()
  {
    var cands := TwoCandidates();
    TwoCandidatesIds();
    var mask := IdMask(cands, ChosenIds(cands, [0, 1]));
    assert mask == [true, true];
    assert mask[..1] == [true] && [true][..0] == [];
    assert Pick(cands, [true]) == [cands[0]];
  }

  /** The two candidates are already in descending order of value, so sorting keeps them as they are. */
  lemma TwoCandidatesSorted()
    ensures SortDesc(TwoCandidates(), ValueKey) == TwoCandidates()
  {
    var cands := TwoCandidates();
    assert cands[1..] == [cands[1]] && [cands[1]][1..] == [];
    assert SortDesc([cands[1]], ValueKey) == Insert(cands[1], [], ValueKey) == [cands[1]];
    assert ValueKey(cands[1]) <= ValueKey(cands[0]);
    assert Insert(cands[0], [cands[1]], ValueKey) == [cands[0], cands[1]];
  }

  /** A walk listing both of the two candidates selects both rows, the one worth more first. */
  lemma TwoCandidatesSelection()
    ensures SelectChosen(TwoCandidates(), [0, 1]) == TwoCandidates()
  {
    TwoCandidatesPicked();
    TwoCandidatesSorted();
  }

  /**
    Whatever best cell and walk satisfy the clauses of `KnapsackSelect` for the
    two candidates, the selection is both of them, the one worth 7 first.
  */
  lemma TwoCandidatesPinned(k: nat, b: int, v: int, walk: seq<nat>)
    requires BestCell(SelectTable(TwoCandidates(), 2000, 2).0, k, b, v)
    requires walk == LinkWalk(SelectTable(TwoCandidates(), 2000, 2).1, k, b)
    ensures v == 12 && walk == [0, 1]
    ensures SelectChosen(TwoCandidates(), walk) == TwoCandidates()
  {
    TwoCandidatesWalk();
    TwoCandidatesSelection();
  }
}

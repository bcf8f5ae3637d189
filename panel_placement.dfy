/** Placing panels from the provider's precomputed configurations (script.js):
    choosing a configuration for the slider value, sharing the panel budget
    among the chosen configuration's roof segments best orientation first, and the
    grid each segment's panels are drawn in. */
module PanelPlacement {
  import opened Options
  import opened SolarData
  import opened Efficiency
  import opened Ranking
  import opened GridIndex

  // ---------------------------------------------------------------- configuration, as written

  /** `config.panelsCount || 0` */
  function ConfigCount(c: PanelConfig): (n: nat) {
    c.panelsCount.GetOr(0)
  }

  /** `count < bestConfig.panelsCount`: the comparison reads the raw field, so it
      is false when the field is missing. */
  predicate FewerThan(count: nat, best: PanelConfig) {
    best.panelsCount.Some? && count < best.panelsCount.value
  }

  /** The loop variables `bestConfig` (as a position) and `closestCount`. */
  datatype ScanState = ScanState(best: Option<nat>, closestCount: nat)

  /** One iteration of the selection loop of `drawPanelsFromApiConfigs`. */
  function ScanStep(configs: seq<PanelConfig>, selected: nat, st: ScanState, k: nat): (r: ScanState)
    requires k < |configs|
    requires st.best.Some? ==> st.best.value < |configs|
    ensures r.best == st.best || r.best == Some(k)
  {
    var count := ConfigCount(configs[k]);
    if count >= selected then
      if st.best.None? || FewerThan(count, configs[st.best.value]) then ScanState(Some(k), st.closestCount)
      else st
    else if count > st.closestCount then
      ScanState(if st.best.None? then Some(k) else st.best, count)
    else st
  }

  /** The loop variables after the first `n` iterations. */
  function Scan(configs: seq<PanelConfig>, selected: nat, n: nat): (st: ScanState)
    requires n <= |configs|
    ensures st.best.Some? ==> st.best.value < n
  {
    if n == 0 then ScanState(None, 0)
    else ScanStep(configs, selected, Scan(configs, selected, n - 1), n - 1)
  }

  /** The configuration the source picks, as written. */
  function BestConfigAsWritten(configs: seq<PanelConfig>, selected: nat): (r: Option<nat>)
    ensures r.Some? ==> r.value < |configs|
  {
    Scan(configs, selected, |configs|).best
  }

  /** The selection loop of `drawPanelsFromApiConfigs`, as written. */
  method ChooseConfigAsWritten(configs: seq<PanelConfig>, selected: nat) returns (best: Option<nat>)
    ensures best == BestConfigAsWritten(configs, selected)
    ensures best.Some? ==> best.value < |configs|
  {
    best := None;
    var closestCount := 0;
    var k := 0;
    while k < |configs|
      invariant 0 <= k <= |configs|
      invariant ScanState(best, closestCount) == Scan(configs, selected, k)
    {
      var count := ConfigCount(configs[k]);
      if count >= selected {
        if best.None? || FewerThan(count, configs[best.value]) {
          best := Some(k);
        }
      } else if count > closestCount {
        closestCount := count;
        if best.None? {
          best := Some(k);
        }
      }
      k := k + 1;
    }
  }

  /** The as-written choice is `null` exactly when no configuration reaches the
      slider value and none has a positive count. */
  lemma {:induction false} AsWrittenNone(configs: seq<PanelConfig>, selected: nat, n: nat)
    requires n <= |configs|
    ensures Scan(configs, selected, n).best.None?
        <==> forall k :: 0 <= k < n ==> ConfigCount(configs[k]) < selected && ConfigCount(configs[k]) == 0
    ensures Scan(configs, selected, n).best.None? ==> Scan(configs, selected, n).closestCount == 0
  {
    if n > 0 {
      AsWrittenNone(configs, selected, n - 1);
    }
  }

  /** When every configuration reaches the slider value, the as-written choice is
      the one with the fewest panels, the first of them on a tie. */
  lemma {:induction false} AsWrittenAllFit(configs: seq<PanelConfig>, selected: nat, n: nat)
    requires 1 <= n <= |configs|
    requires forall k :: 0 <= k < n ==> ConfigCount(configs[k]) >= selected
    ensures Scan(configs, selected, n).best.Some?
    ensures var i := Scan(configs, selected, n).best.value;
      && (forall k :: 0 <= k < n ==> ConfigCount(configs[i]) <= ConfigCount(configs[k]))
      && (forall k :: 0 <= k < i ==> ConfigCount(configs[i]) < ConfigCount(configs[k]))
  {
    if n > 1 {
      AsWrittenAllFit(configs, selected, n - 1);
    }
  }

  // ---------------------------------------------------------------- configuration, corrected

  /** A configuration the loop can choose at all. */
  predicate Candidate(count: nat, selected: nat) {
    count >= selected || count > 0
  }

  /** A configuration with `a` panels is a strictly better choice than one with
      `b`: reaching the slider value beats falling short, fewer panels is better
      among those that reach it, more is better among those that fall short. */
  predicate Preferable(a: nat, b: nat, selected: nat) {
    if a >= selected then b < selected || a < b
    else b < selected && a > b
  }

  /** The evidently intended choice among the first `n` configurations. */
  function BestConfigAmong(configs: seq<PanelConfig>, selected: nat, n: nat): (r: Option<nat>)
    requires n <= |configs|
    ensures r.Some? ==> r.value < n && Candidate(ConfigCount(configs[r.value]), selected)
  {
    if n == 0 then None
    else
      var prev := BestConfigAmong(configs, selected, n - 1);
      var count := ConfigCount(configs[n - 1]);
      if Candidate(count, selected)
         && (prev.None? || Preferable(count, ConfigCount(configs[prev.value]), selected))
      then Some(n - 1)
      else prev
  }

  /** The evidently intended choice: the smallest configuration that reaches the
      slider value, otherwise the largest one below it. */
  function BestConfig(configs: seq<PanelConfig>, selected: nat): (r: Option<nat>)
    ensures r.Some? ==> r.value < |configs| && Candidate(ConfigCount(configs[r.value]), selected)
  {
    BestConfigAmong(configs, selected, |configs|)
  }

  /** No candidate is better than the choice, and every earlier candidate is
      worse (the first wins a tie); there is no choice only when there is no
      candidate. */
  lemma {:induction false} BestConfigAmongSpec(configs: seq<PanelConfig>, selected: nat, n: nat)
    requires n <= |configs|
    ensures BestConfigAmong(configs, selected, n).None?
        <==> forall k :: 0 <= k < n ==> !Candidate(ConfigCount(configs[k]), selected)
    ensures var r := BestConfigAmong(configs, selected, n);
      r.Some? ==> forall k :: 0 <= k < n && Candidate(ConfigCount(configs[k]), selected) ==>
        && !Preferable(ConfigCount(configs[k]), ConfigCount(configs[r.value]), selected)
        && (k < r.value ==> Preferable(ConfigCount(configs[r.value]), ConfigCount(configs[k]), selected))
  {
    if n > 0 {
      BestConfigAmongSpec(configs, selected, n - 1);
    }
  }

  /** The intended choice in plain terms: if some configuration reaches the
      slider value, the choice reaches it with the fewest panels; otherwise it is
      one with the most panels, and it has some. */
  lemma BestConfigClosest(configs: seq<PanelConfig>, selected: nat)
    ensures var r := BestConfig(configs, selected);
      && (r.None? <==> forall k :: 0 <= k < |configs| ==> ConfigCount(configs[k]) < selected && ConfigCount(configs[k]) == 0)
      && (r.Some? && (exists k :: 0 <= k < |configs| && ConfigCount(configs[k]) >= selected) ==>
            && ConfigCount(configs[r.value]) >= selected
            && forall k :: 0 <= k < |configs| && ConfigCount(configs[k]) >= selected ==>
                 ConfigCount(configs[r.value]) <= ConfigCount(configs[k]))
      && (r.Some? && (forall k :: 0 <= k < |configs| ==> ConfigCount(configs[k]) < selected) ==>
            && 0 < ConfigCount(configs[r.value])
            && forall k :: 0 <= k < |configs| ==> ConfigCount(configs[k]) <= ConfigCount(configs[r.value]))
  {
    BestConfigAmongSpec(configs, selected, |configs|);
  }

  /** The loop as written passes over a configuration that fits once it has
      taken a smaller one: with 10 panels selected and configurations of 5 and 12
      panels, it picks the 5-panel one, where the intended choice is 12. */
  lemma AsWrittenMissesFittingConfig()
    ensures var configs := [PanelConfig(Some(5), None), PanelConfig(Some(12), None)];
      && BestConfigAsWritten(configs, 10) == Some(0)
      && ConfigCount(configs[0]) < 10 <= ConfigCount(configs[1])
      && BestConfig(configs, 10) == Some(1)
  {
    var configs := [PanelConfig(Some(5), None), PanelConfig(Some(12), None)];
    assert Scan(configs, 10, 1) == ScanState(Some(0), 5);
    assert Scan(configs, 10, 2) == ScanState(Some(0), 5);
  }

  /** When no configuration reaches the slider value, the loop as written keeps
      the first one with a positive count: `closestCount` grows, but `bestConfig`
      is only set while it is still `null`. With counts 3 and 7 and 10 selected it
      keeps 3 panels where 7 are available. */
  lemma AsWrittenKeepsFirstShort()
    ensures var configs := [PanelConfig(Some(3), None), PanelConfig(Some(7), None)];
      && BestConfigAsWritten(configs, 10) == Some(0)
      && ConfigCount(configs[0]) < ConfigCount(configs[1]) < 10
      && BestConfig(configs, 10) == Some(1)
  {
    var configs := [PanelConfig(Some(3), None), PanelConfig(Some(7), None)];
    assert Scan(configs, 10, 1) == ScanState(Some(0), 3);
    assert Scan(configs, 10, 2) == ScanState(Some(0), 7);
  }

  // ---------------------------------------------------------------- sharing the budget among segments

  /** `calculatePanelEfficiency` of each segment. */
  function SegmentEfficiencies(segments: seq<RoofSegment>): (r: seq<real>)
    ensures |r| == |segments|
  {
    seq(|segments|, k requires 0 <= k < |segments| =>
      PanelEfficiency(segments[k].azimuthDegrees, segments[k].pitchDegrees))
  }

  /** The segments, best orientation first (a stable sort). */
  function SegmentOrder(segments: seq<RoofSegment>): (r: seq<nat>)
    ensures |r| == |segments| && forall k :: 0 <= k < |r| ==> r[k] < |segments|
  {
    StableOrder(SegmentEfficiencies(segments))
  }

  /** Every segment appears in the order exactly once, and a segment comes
      before another only if its orientation score is higher, or equal with the
      segment first in the input. */
  lemma SegmentOrderSpec(segments: seq<RoofSegment>)
    ensures var r := SegmentOrder(segments);
      && (forall i :: 0 <= i < |segments| ==> i in r)
      && (forall p, q :: 0 <= p < q < |r| ==>
            r[p] != r[q] && Precedes(SegmentEfficiencies(segments), r[p], r[q]))
  {
    StableOrderSpec(SegmentEfficiencies(segments));
  }

  /** The `panelsCount` of the segments in ranked order. */
  function RankedCounts(segments: seq<RoofSegment>): (r: seq<int>)
    ensures |r| == |segments|
  {
    var order := SegmentOrder(segments);
    seq(|segments|, k requires 0 <= k < |segments| => segments[order[k]].panelsCount)
  }

  /** `Math.min(panelsCount, selected - panelsPlaced)`, kept only when positive. */
  function Take(count: int, remaining: int): (t: nat)
    ensures t <= (if remaining > 0 then remaining else 0)
    ensures (count > 0 ==> t <= count) && (count <= 0 ==> t == 0)
  {
    var m := if count < remaining then count else remaining;
    if m > 0 then m else 0
  }

  /** `panelsPlaced` after the first `n` ranked segments of the budget `budget`. */
  function Placed(counts: seq<int>, budget: nat, n: nat): (p: nat)
    requires n <= |counts|
    ensures p <= budget
  {
    if n == 0 then 0
    else
      var q := Placed(counts, budget, n - 1);
      q + Take(counts[n - 1], budget - q)
  }

  /** The panels ranked segment `j` draws: its count, cut to the budget left
      after the segments ranked above it. */
  function Share(counts: seq<int>, budget: nat, j: nat): (s: nat)
    requires j < |counts|
    ensures Placed(counts, budget, j) + s <= budget
    ensures (counts[j] > 0 ==> s <= counts[j]) && (counts[j] <= 0 ==> s == 0)
  {
    Take(counts[j], budget - Placed(counts, budget, j))
  }

  /** One `drawPanelsOnSegment(segment, count, …, offset)` call. */
  datatype SegmentDraw = SegmentDraw(segment: nat, count: nat, offset: nat)

  /** The draw calls for the first `n` ranked segments `order`: one per segment
      with a positive share, offset by the panels placed before it. */
  function Draws(order: seq<nat>, counts: seq<int>, budget: nat, n: nat): (d: seq<SegmentDraw>)
    requires n <= |counts| <= |order|
    ensures |d| <= n
  {
    if n == 0 then []
    else
      var s := Share(counts, budget, n - 1);
      Draws(order, counts, budget, n - 1)
        + (if s > 0 then [SegmentDraw(order[n - 1], s, Placed(counts, budget, n - 1))] else [])
  }

  /** The draw calls `drawPanelsFromRoofSegments` makes. */
  function Allocation(selected: nat, segments: seq<RoofSegment>): (d: seq<SegmentDraw>)
    ensures |d| <= |segments|
  {
    Draws(SegmentOrder(segments), RankedCounts(segments), selected, |segments|)
  }

  /** Once the budget is spent, further segments receive nothing and add no draw. */
  lemma {:induction false} AfterBudgetSpent(counts: seq<int>, budget: nat, order: seq<nat>, i: nat, m: nat)
    requires i <= m <= |counts| <= |order|
    requires Placed(counts, budget, i) == budget
    ensures Placed(counts, budget, m) == budget
    ensures Draws(order, counts, budget, m) == Draws(order, counts, budget, i)
  {
    if m > i {
      AfterBudgetSpent(counts, budget, order, i, m - 1);
      assert Share(counts, budget, m - 1) == 0;
    }
  }

  /** `drawPanelsFromRoofSegments`: segments in ranked order, each drawing as
      many panels as it has and the budget still allows, until the budget is
      spent. */
  method AllocateSegments(selected: nat, segments: seq<RoofSegment>) returns (draws: seq<SegmentDraw>, placed: nat)
    ensures draws == Allocation(selected, segments)
    ensures placed == Placed(RankedCounts(segments), selected, |segments|)
  {
    var order := SegmentOrder(segments);
    ghost var counts := RankedCounts(segments);
    draws, placed := [], 0;
    var i := 0;
    while i < |order|
      invariant 0 <= i <= |order|
      invariant placed == Placed(counts, selected, i)
      invariant draws == Draws(order, counts, selected, i)
    {
      if placed >= selected {
        break;
      }
      var segment := segments[order[i]];
      var panelsForThisSegment := if segment.panelsCount < selected - placed then segment.panelsCount else selected - placed;
      if panelsForThisSegment > 0 {
        draws := draws + [SegmentDraw(order[i], panelsForThisSegment, placed)];
        placed := placed + panelsForThisSegment;
      }
      i := i + 1;
    }
    if i < |order| {
      AfterBudgetSpent(counts, selected, order, i, |order|);
    }
  }

  /** The sum of the positive counts of the first `n` ranked segments. */
  function SumPositive(counts: seq<int>, n: nat): (t: nat)
    requires n <= |counts|
  {
    if n == 0 then 0 else SumPositive(counts, n - 1) + (if counts[n - 1] > 0 then counts[n - 1] else 0)
  }

  /** All panels are placed that the budget and the segments allow:
      min(selected, sum of the positive counts). */
  lemma {:induction false} PlacedTotal(counts: seq<int>, budget: nat, n: nat)
    requires n <= |counts|
    ensures var total := SumPositive(counts, n);
      Placed(counts, budget, n) == Min(budget, total)
  {
    if n > 0 {
      PlacedTotal(counts, budget, n - 1);
    }
  }

  /** While the budget is not spent, every segment so far received its full
      (positive) count. */
  lemma {:induction false} UnderBudgetAllFull(counts: seq<int>, budget: nat, n: nat)
    requires n <= |counts|
    requires Placed(counts, budget, n) < budget
    ensures forall i {:trigger Share(counts, budget, i)} :: 0 <= i < n ==>
      Share(counts, budget, i) == if counts[i] > 0 then counts[i] else 0
  {
    if n > 0 {
      UnderBudgetAllFull(counts, budget, n - 1);
    }
  }

  /** Greedy filling: a segment receives panels only if every segment ranked
      above it received its full count. */
  lemma SharesGreedy(counts: seq<int>, budget: nat)
    ensures forall j, i {:trigger Share(counts, budget, j), Share(counts, budget, i)} ::
      0 <= i < j < |counts| && Share(counts, budget, j) > 0 ==>
      Share(counts, budget, i) == if counts[i] > 0 then counts[i] else 0
  {
    forall j, i | 0 <= i < j < |counts| && Share(counts, budget, j) > 0
      ensures Share(counts, budget, i) == if counts[i] > 0 then counts[i] else 0
    {
      UnderBudgetAllFull(counts, budget, j);
    }
  }

  /** The panels drawn by a list of draw calls. */
  function DrawnTotal(draws: seq<SegmentDraw>): (t: nat) {
    if draws == [] then 0 else DrawnTotal(draws[..|draws| - 1]) + draws[|draws| - 1].count
  }

  /** There is exactly one draw call per ranked segment with a positive share,
      carrying that share and, as offset, the panels placed before it. */
  lemma {:induction false} DrawsSpec(order: seq<nat>, counts: seq<int>, budget: nat, n: nat)
    requires n <= |counts| <= |order|
    ensures forall d :: d in Draws(order, counts, budget, n) ==>
      (exists j {:trigger Share(counts, budget, j)} :: 0 <= j < n && Share(counts, budget, j) > 0 &&
         d == SegmentDraw(order[j], Share(counts, budget, j), Placed(counts, budget, j)))
    ensures forall j {:trigger Share(counts, budget, j)} :: 0 <= j < n && Share(counts, budget, j) > 0 ==>
      SegmentDraw(order[j], Share(counts, budget, j), Placed(counts, budget, j)) in Draws(order, counts, budget, n)
  {
    if n > 0 {
      DrawsSpec(order, counts, budget, n - 1);
      var prev := Draws(order, counts, budget, n - 1);
      var s := Share(counts, budget, n - 1);
      var last := SegmentDraw(order[n - 1], s, Placed(counts, budget, n - 1));
      var here := if s > 0 then [last] else [];
      assert Draws(order, counts, budget, n) == prev + here;
      forall d | d in prev + here
        ensures (exists j {:trigger Share(counts, budget, j)} :: 0 <= j < n && Share(counts, budget, j) > 0 &&
                   d == SegmentDraw(order[j], Share(counts, budget, j), Placed(counts, budget, j)))
      {
        if d !in prev {
          assert d == last && s > 0;
        }
      }
    }
  }

  /** Together the draw calls draw every panel placed. */
  lemma {:induction false} DrawsTotal(order: seq<nat>, counts: seq<int>, budget: nat, n: nat)
    requires n <= |counts| <= |order|
    ensures DrawnTotal(Draws(order, counts, budget, n)) == Placed(counts, budget, n)
  {
    if n > 0 {
      DrawsTotal(order, counts, budget, n - 1);
      var prev := Draws(order, counts, budget, n - 1);
      var s := Share(counts, budget, n - 1);
      if s > 0 {
        var last := SegmentDraw(order[n - 1], s, Placed(counts, budget, n - 1));
        assert (prev + [last])[..|prev|] == prev;
      } else {
        assert prev + [] == prev;
      }
    }
  }

  /** The draw calls cover consecutive panel numbers: the first starts at 0,
      each starts where the previous one ended, and the last ends at the number
      of panels placed. */
  lemma {:induction false} DrawsContiguous(order: seq<nat>, counts: seq<int>, budget: nat, n: nat)
    requires n <= |counts| <= |order|
    ensures var ds := Draws(order, counts, budget, n);
      && (ds == [] ==> Placed(counts, budget, n) == 0)
      && (ds != [] ==> ds[0].offset == 0 && ds[|ds| - 1].offset + ds[|ds| - 1].count == Placed(counts, budget, n))
      && forall k :: 0 < k < |ds| ==> ds[k].offset == ds[k - 1].offset + ds[k - 1].count
  {
    if n > 0 {
      DrawsContiguous(order, counts, budget, n - 1);
      var prev := Draws(order, counts, budget, n - 1);
      if Share(counts, budget, n - 1) == 0 {
        assert prev + [] == prev;
      }
    }
  }

  // ---------------------------------------------------------------- the ranked total is the input total

  /** The `panelsCount` of the segments in input order. */
  function InputCounts(segments: seq<RoofSegment>): (r: seq<int>)
    ensures |r| == |segments|
  {
    seq(|segments|, k requires 0 <= k < |segments| => segments[k].panelsCount)
  }

  /** The count at position `i` when it is positive, and 0 otherwise (also for
      a position past the end). */
  function PositiveAt(counts: seq<int>, i: nat): (c: nat) {
    if i < |counts| && counts[i] > 0 then counts[i] else 0
  }

  /** The sum of the positive counts at the listed positions. */
  function SumPositiveAt(counts: seq<int>, idx: seq<nat>): (t: nat) {
    if idx == [] then 0
    else SumPositiveAt(counts, idx[..|idx| - 1]) + PositiveAt(counts, idx[|idx| - 1])
  }

  lemma {:induction false} SumPositiveAtConcat(counts: seq<int>, a: seq<nat>, b: seq<nat>)
    ensures SumPositiveAt(counts, a + b) == SumPositiveAt(counts, a) + SumPositiveAt(counts, b)
  {
    if b == [] {
      assert a + b == a;
    } else {
      var b' := b[..|b| - 1];
      assert (a + b)[..|a + b| - 1] == a + b';
      SumPositiveAtConcat(counts, a, b');
    }
  }

  /** Taking position `k` out of a list removes its count from the sum. */
  lemma SumPositiveAtRemove(counts: seq<int>, b: seq<nat>, k: nat)
    requires k < |b|
    ensures SumPositiveAt(counts, b) == SumPositiveAt(counts, b[..k] + b[k + 1..]) + PositiveAt(counts, b[k])
  {
    var left, right := b[..k], b[k + 1..];
    assert b == left + [b[k]] + right;
    SumPositiveAtConcat(counts, left + [b[k]], right);
    SumPositiveAtConcat(counts, left, [b[k]]);
    SumPositiveAtConcat(counts, left, right);
    assert [b[k]][..0] == [];
  }

  /** Taking position `k` out of a list takes one `b[k]` out of its multiset. */
  lemma MultisetRemove(b: seq<nat>, k: nat)
    requires k < |b|
    ensures multiset(b[..k] + b[k + 1..]) == multiset(b) - multiset{b[k]}
  {
    var left, right := b[..k], b[k + 1..];
    assert b == left + [b[k]] + right;
    assert multiset(b) == multiset(left) + multiset{b[k]} + multiset(right);
  }

  /** Listing the same positions in another order gives the same sum. */
  lemma {:induction false} SumPositiveAtPermutation(counts: seq<int>, a: seq<nat>, b: seq<nat>)
    requires multiset(a) == multiset(b)
    ensures SumPositiveAt(counts, a) == SumPositiveAt(counts, b)
    decreases |a|
  {
    if a == [] {
      assert |b| == |multiset(b)| == 0;
    } else {
      var a' := a[..|a| - 1];
      var x := a[|a| - 1];
      assert a == a' + [x];
      assert multiset(a') == multiset(a) - multiset{x};
      assert x in multiset(b);
      var k :| 0 <= k < |b| && b[k] == x;
      MultisetRemove(b, k);
      SumPositiveAtPermutation(counts, a', b[..k] + b[k + 1..]);
      SumPositiveAtRemove(counts, b, k);
    }
  }

  /** A prefix sum of `counts` is the sum at the positions of `f` that `idx`
      lists, when `counts` reads `f` through `idx`. */
  lemma {:induction false} SumPositiveByPositions(counts: seq<int>, f: seq<int>, idx: seq<nat>, n: nat)
    requires n <= |idx| && n <= |counts|
    requires forall k :: 0 <= k < n ==> idx[k] < |f| && counts[k] == f[idx[k]]
    ensures SumPositive(counts, n) == SumPositiveAt(f, idx[..n])
  {
    if n > 0 {
      SumPositiveByPositions(counts, f, idx, n - 1);
      assert idx[..n][..n - 1] == idx[..n - 1];
    }
  }

  /** The segment ranking lists the input positions, each once. */
  lemma SegmentOrderPermutes(segments: seq<RoofSegment>)
    ensures multiset(SegmentOrder(segments)) == multiset(Positions(|segments|))
  {
    var keys := SegmentEfficiencies(segments);
    assert StableOrder(keys) == SortPositions(keys, Positions(|keys|));
  }

  /** Ranking the segments does not change the sum of their positive counts. */
  lemma RankedTotal(segments: seq<RoofSegment>)
    ensures SumPositive(RankedCounts(segments), |segments|) == SumPositive(InputCounts(segments), |segments|)
  {
    var n := |segments|;
    var f := InputCounts(segments);
    var order := SegmentOrder(segments);
    var all := Positions(n);
    SegmentOrderPermutes(segments);
    SumPositiveByPositions(RankedCounts(segments), f, order, n);
    SumPositiveByPositions(f, f, all, n);
    assert order[..n] == order && all[..n] == all;
    SumPositiveAtPermutation(f, order, all);
  }

  /** What `drawPanelsFromApiConfigs` draws: the basic layout when no
      configuration qualifies, otherwise the chosen configuration's segment draw
      calls (none when it has no segment summaries). */
  datatype ConfigPlan = BasicLayout | FromConfig(config: nat, draws: seq<SegmentDraw>)

  /** `drawPanelsFromApiConfigs`, with the corrected configuration choice.  It
      never draws more panels than selected, nor more than the chosen
      configuration's segments hold. */
  function PlanFromConfigs(selected: nat, configs: seq<PanelConfig>): (p: ConfigPlan)
    ensures p.BasicLayout? <==> BestConfig(configs, selected).None?
    ensures p.FromConfig? ==> p.config < |configs| && Some(p.config) == BestConfig(configs, selected)
  {
    match BestConfig(configs, selected)
    case None => BasicLayout
    case Some(i) =>
      match configs[i].roofSegmentSummaries
      case None => FromConfig(i, [])
      case Some(segments) => FromConfig(i, Allocation(selected, segments))
  }

  /** The segment draw calls of a plan place min(selected, the sum of the
      positive panel counts of the chosen configuration's segments). */
  lemma PlanTotal(selected: nat, configs: seq<PanelConfig>)
    requires BestConfig(configs, selected).Some?
    ensures var i := BestConfig(configs, selected).value;
      var p := PlanFromConfigs(selected, configs);
      match configs[i].roofSegmentSummaries
      case None => p.draws == []
      case Some(segments) =>
        var total := SumPositive(InputCounts(segments), |segments|);
        DrawnTotal(p.draws) == Min(selected, total)
  {
    var i := BestConfig(configs, selected).value;
    match configs[i].roofSegmentSummaries
    case None =>
    case Some(segments) =>
      var counts := RankedCounts(segments);
      DrawsTotal(SegmentOrder(segments), counts, selected, |segments|);
      PlacedTotal(counts, selected, |segments|);
      RankedTotal(segments);
  }

  // ---------------------------------------------------------------- grid on one segment

  /** `Math.ceil(Math.sqrt(n))`, searching upwards from `c`. */
  function CeilSqrtFrom(n: nat, c: nat): (r: nat)
    requires c == 0 || (c - 1) * (c - 1) < n
    ensures r * r >= n && (r == 0 || (r - 1) * (r - 1) < n)
    decreases n - c
  {
    if c * c >= n then c
    else
      assert c <= c * c;
      CeilSqrtFrom(n, c + 1)
  }

  /** `Math.ceil(Math.sqrt(n))`: the least `c` with `c * c >= n`. */
  function CeilSqrt(n: nat): (c: nat)
    ensures c * c >= n && (c == 0 || (c - 1) * (c - 1) < n)
  {
    CeilSqrtFrom(n, 0)
  }

  datatype GridShape = GridShape(cols: nat, rows: nat)

  /** `Math.ceil(n / cols)` for whole numbers: the fewest rows of `cols` cells
      that hold `n` cells. */
  function CeilDiv(n: nat, cols: nat): (rows: nat)
    requires cols > 0
    ensures rows * cols >= n && (rows - 1) * cols < n
  {
    var m := n + cols - 1;
    var q := m / cols;
    assert m == q * cols + m % cols;
    assert (q - 1) * cols == q * cols - cols;
    q
  }

  /** `cols = Math.min(Math.ceil(Math.sqrt(n)), 6)` and `rows = Math.ceil(n / cols)`:
      a square grid of at most six columns that holds `n` cells with no empty row.
      For `n = 0` the source divides 0 by 0 and its loop never runs; that is
      modelled as no rows. */
  function SegmentGrid(n: nat): (g: GridShape)
    ensures n > 0 ==> 1 <= g.cols <= 6 && (g.cols == 6 || g.cols * g.cols >= n)
    ensures n > 0 ==> (g.cols - 1) * (g.cols - 1) < n
    ensures g.cols < 6 ==> g.cols * g.cols >= n
    ensures n > 0 ==> g.rows * g.cols >= n && (g.rows - 1) * g.cols < n
    ensures n == 0 ==> g.cols == 0 && g.rows == 0
  {
    var c := CeilSqrt(n);
    var cols := Min(c, 6);
    if n == 0 then GridShape(0, 0)
    else
      CappedColumns(n, c);
      GridShape(cols, CeilDiv(n, cols))
  }

  /** Capping the ceiling square root at six keeps the column count minimal:
      one column fewer holds fewer than `n` cells in a square. */
  lemma CappedColumns(n: nat, c: nat)
    requires n > 0 && c * c >= n && (c == 0 || (c - 1) * (c - 1) < n)
    ensures var cols := Min(c, 6);
      && 1 <= cols <= 6
      && (cols - 1) * (cols - 1) < n
      && (cols == 6 || cols * cols >= n)
  {
    if c > 6 {
      assert (c - 1) * (c - 1) >= 6 * (c - 1);
    }
  }

  /** One grid cell, counted from the top-left of the segment. */
  datatype Cell = Cell(row: nat, col: nat)

  /** The first `n` cells of a grid `cols` wide, row by row. */
  function RowMajorCells(n: nat, cols: nat): (r: seq<Cell>)
    requires n == 0 || cols > 0
    ensures |r| == n
  {
    if n == 0 then [] else RowMajorCells(n - 1, cols) + [Cell((n - 1) / cols, (n - 1) % cols)]
  }

  /** Cell `k` of the row-major order is in row `k / cols`, column `k % cols`. */
  lemma {:induction false} RowMajorCellsAt(n: nat, cols: nat)
    requires n == 0 || cols > 0
    ensures forall k :: 0 <= k < n ==> RowMajorCells(n, cols)[k] == Cell(k / cols, k % cols)
  {
    if n > 0 {
      RowMajorCellsAt(n - 1, cols);
    }
  }

  /** The first `n` row-major cells all lie within the grid `SegmentGrid(n)`. */
  lemma CellsInGrid(n: nat)
    ensures var g := SegmentGrid(n);
      forall k :: 0 <= k < n ==> RowMajorCells(n, g.cols)[k].row < g.rows && RowMajorCells(n, g.cols)[k].col < g.cols
  {
    var g := SegmentGrid(n);
    RowMajorCellsAt(n, g.cols);
    forall k | 0 <= k < n
      ensures k / g.cols < g.rows && k % g.cols < g.cols
    {
      InsideGrid(k, g.rows, g.cols);
    }
  }

  /** No cell is drawn twice. */
  lemma CellsDistinct(n: nat, cols: nat)
    requires cols > 0
    ensures forall k, m :: 0 <= k < m < n ==> RowMajorCells(n, cols)[k] != RowMajorCells(n, cols)[m]
  {
    RowMajorCellsAt(n, cols);
    forall k, m | 0 <= k < m < n
      ensures Cell(k / cols, k % cols) != Cell(m / cols, m % cols)
    {
      RowMajorInjective(k, m, cols);
    }
  }

  /** The nested loop of `drawPanelsOnSegment` over `rows` rows of `cols`
      cells, row by row and stopping after `n` cells.  When the grid has room
      for `n` cells it draws exactly the first `n` cells in row-major order. */
  method FillCells(n: nat, cols: nat, rows: nat) returns (cells: seq<Cell>)
    requires n == 0 || cols > 0
    requires n <= rows * cols
    ensures cells == RowMajorCells(n, cols)
  {
    cells := [];
    var row := 0;
    ghost var start := 0;
    while row < rows && |cells| < n
      invariant 0 <= row <= rows && start == row * cols
      invariant |cells| == Min(n, start)
      invariant cells == RowMajorCells(|cells|, cols)
    {
      var col := 0;
      while col < cols && |cells| < n
        invariant 0 <= col <= cols
        invariant |cells| == Min(n, start + col)
        invariant cells == RowMajorCells(|cells|, cols)
      {
        RowMajor(row, col, cols);
        cells := cells + [Cell(row, col)];
        col := col + 1;
      }
      NextRow(row, cols);
      start := start + cols;
      row := row + 1;
    }
  }

  /** The cells `drawPanelsOnSegment` draws for `n` panels: the first `n`
      cells, in row-major order, of its `SegmentGrid(n)`. */
  method SegmentCells(n: nat) returns (cells: seq<Cell>)
    ensures cells == RowMajorCells(n, SegmentGrid(n).cols)
  {
    var g := SegmentGrid(n);
    cells := FillCells(n, g.cols, g.rows);
  }

  /** Where a segment's grid sits on the canvas and how large its cells are. */
  datatype SegmentLayout = SegmentLayout(slot: nat, originX: real, originY: real,
                                         panelWidth: real, panelHeight: real, shape: GridShape,
                                         color: PanelColor)

  /** The layout `drawPanelsOnSegment` computes for `n > 0` panels: the segment
      takes quadrant `segmentIndex || offset % 4` of the canvas, each cell is
      at least 8 by 6 pixels, and the panels take the colour of the segment's
      orientation. */
  function LayoutOnSegment(segment: RoofSegment, n: nat, canvasWidth: real, canvasHeight: real, offset: nat)
    : (l: SegmentLayout)
    requires n > 0
    ensures l.shape == SegmentGrid(n)
    ensures l.panelWidth >= 8.0 && l.panelHeight >= 6.0
    ensures segment.segmentIndex.GetOr(0) == 0 ==> l.slot == offset % 4 && l.slot < 4
    ensures segment.segmentIndex.GetOr(0) != 0 ==> l.slot == segment.segmentIndex.value
    ensures (l.originX, l.originY) == SlotOrigin(l.slot, canvasWidth, canvasHeight)
    ensures l.color != Gray
      && (l.color.Rank() > 1 <==> PanelEfficiency(segment.azimuthDegrees, segment.pitchDegrees) > 0.7)
  {
    var shape := SegmentGrid(n);
    var slot := if segment.segmentIndex.GetOr(0) != 0 then segment.segmentIndex.value else offset % 4;
    var segmentWidth := canvasWidth / 2.0 - 20.0;
    var segmentHeight := canvasHeight / 2.0 - 20.0;
    var origin := SlotOrigin(slot, canvasWidth, canvasHeight);
    var w := (segmentWidth - 10.0) / shape.cols as real;
    var h := (segmentHeight - 10.0) / shape.rows as real;
    var color := SegmentColor(PanelEfficiency(segment.azimuthDegrees, segment.pitchDegrees));
    SegmentLayout(slot, origin.0, origin.1, if w > 8.0 then w else 8.0, if h > 6.0 then h else 6.0, shape, color)
  }

  /** `segmentX` and `segmentY`: the slot's column is `slot % 2`, its row
      `slot / 2`, each half the canvas, plus a 15-pixel margin. */
  function SlotOrigin(slot: nat, canvasWidth: real, canvasHeight: real): (o: (real, real)) {
    ((slot % 2) as real * (canvasWidth / 2.0) + 15.0, (slot / 2) as real * (canvasHeight / 2.0) + 15.0)
  }

  /** Slots 0 to 3 are the quadrants of the canvas (left or right by `slot % 2`,
      top or bottom by `slot / 2`): their origins lie on the canvas. */
  lemma SlotInQuadrant(slot: nat, canvasWidth: real, canvasHeight: real)
    requires slot < 4 && canvasWidth > 30.0 && canvasHeight > 30.0
    ensures var o := SlotOrigin(slot, canvasWidth, canvasHeight);
      && 0.0 < o.0 < canvasWidth && 0.0 < o.1 < canvasHeight
      && (o.0 < canvasWidth / 2.0 <==> slot % 2 == 0)
      && (o.1 < canvasHeight / 2.0 <==> slot < 2)
  {
    var o := SlotOrigin(slot, canvasWidth, canvasHeight);
    if slot % 2 == 0 {
      assert o.0 == 15.0;
    } else {
      assert slot % 2 == 1 && (slot % 2) as real == 1.0;
      assert o.0 == canvasWidth / 2.0 + 15.0;
    }
    if slot < 2 {
      assert slot / 2 == 0;
      assert o.1 == 15.0;
    } else {
      assert slot / 2 == 1 && (slot / 2) as real == 1.0;
      assert o.1 == canvasHeight / 2.0 + 15.0;
    }
  }

  /** A slot of 4 or more is not a quadrant: its origin lies below the canvas,
      at least a canvas height plus the margin down. */
  lemma SlotBelowCanvas(slot: nat, canvasWidth: real, canvasHeight: real)
    requires slot >= 4 && canvasHeight >= 0.0
    ensures SlotOrigin(slot, canvasWidth, canvasHeight).1 >= canvasHeight + 15.0
  {
    var row := (slot / 2) as real;
    assert row >= 2.0;
    assert row * (canvasHeight / 2.0) >= 2.0 * (canvasHeight / 2.0);
  }

  /** The top-left corner of a cell: cells are `panelWidth + 2` apart across and
      `panelHeight + 2` apart down. */
  function CellCorner(l: SegmentLayout, c: Cell): (corner: (real, real)) {
    (Along(l.originX, c.col, l.panelWidth + 2.0), Along(l.originY, c.row, l.panelHeight + 2.0))
  }

  /** The position `index` steps along from `origin`. */
  function Along(origin: real, index: nat, step: real): (p: real) {
    origin + index as real * step
  }

  /** Two different cells of one layout do not overlap: a 2-pixel gap separates
      neighbouring columns and rows. */
  lemma CellsApart(l: SegmentLayout, c1: Cell, c2: Cell)
    requires l.panelWidth >= 0.0 && l.panelHeight >= 0.0
    requires c1 != c2
    ensures var p1, p2 := CellCorner(l, c1), CellCorner(l, c2);
      || p1.0 + l.panelWidth < p2.0 || p2.0 + l.panelWidth < p1.0
      || p1.1 + l.panelHeight < p2.1 || p2.1 + l.panelHeight < p1.1
  {
    var w, h := l.panelWidth + 2.0, l.panelHeight + 2.0;
    if c1.col < c2.col {
      CellStep(l.originX, c1.col, c2.col, w);
    } else if c2.col < c1.col {
      CellStep(l.originX, c2.col, c1.col, w);
    } else if c1.row < c2.row {
      CellStep(l.originY, c1.row, c2.row, h);
    } else {
      assert c1 == Cell(c1.row, c1.col) && c2 == Cell(c2.row, c2.col);
      CellStep(l.originY, c2.row, c1.row, h);
    }
  }

  /** Index `a` before index `b` is at least one step earlier. */
  lemma CellStep(origin: real, a: nat, b: nat, step: real)
    requires a < b && step > 0.0
    ensures Along(origin, a, step) + step <= Along(origin, b, step)
  {
    assert (a + 1) as real * step == a as real * step + step;
    assert (a + 1) as real <= b as real;
  }
}

/** `[...xs].sort((a, b) => key(b) - key(a))` as script.js uses it twice: a copy
    of the list sorted by a numeric key, largest first.  The sort is stable, so
    entries with equal keys keep their input order; the result is therefore the
    unique arrangement of the input positions by (key descending, position
    ascending), which is what `StableOrder` computes. */
module Ranking {
  import opened SolarData

  /** Position `i` is placed before position `j`. */
  predicate Precedes(keys: seq<real>, i: nat, j: nat)
    requires i < |keys| && j < |keys|
  {
    keys[i] > keys[j] || (keys[i] == keys[j] && i < j)
  }

  predicate InRange(keys: seq<real>, t: seq<nat>) {
    forall k :: 0 <= k < |t| ==> t[k] < |keys|
  }

  /** Every position is placed before every later one. */
  predicate SortedBy(keys: seq<real>, t: seq<nat>)
    requires InRange(keys, t)
  {
    forall p, q :: 0 <= p < q < |t| ==> Precedes(keys, t[p], t[q])
  }

  /** Insertion of one position into an arranged list. */
  function Insert(keys: seq<real>, i: nat, t: seq<nat>): (r: seq<nat>)
    requires i < |keys| && InRange(keys, t)
    ensures multiset(r) == multiset(t) + multiset{i}
    ensures |r| == |t| + 1
    ensures InRange(keys, r)
  {
    if t == [] || Precedes(keys, i, t[0]) then [i] + t
    else
      assert t == [t[0]] + t[1..];
      [t[0]] + Insert(keys, i, t[1..])
  }

  /** Insertion sort of a list of positions. */
  function SortPositions(keys: seq<real>, idx: seq<nat>): (r: seq<nat>)
    requires InRange(keys, idx)
    ensures multiset(r) == multiset(idx)
    ensures |r| == |idx|
    ensures InRange(keys, r)
  {
    if idx == [] then []
    else
      assert idx == [idx[0]] + idx[1..];
      Insert(keys, idx[0], SortPositions(keys, idx[1..]))
  }

  /** The positions `0 .. n-1` in order. */
  function Positions(n: nat): (r: seq<nat>)
    ensures |r| == n
    ensures forall k :: 0 <= k < n ==> r[k] == k
  {
    seq(n, k requires 0 <= k < n => k)
  }

  /** The input positions in the order a stable descending sort by `keys` puts
      them. */
  function StableOrder(keys: seq<real>): (r: seq<nat>)
    ensures |r| == |keys| && InRange(keys, r)
  {
    SortPositions(keys, Positions(|keys|))
  }

  /** Inserting a new position into an arranged list keeps it arranged. */
  lemma {:induction false} InsertSorted(keys: seq<real>, i: nat, t: seq<nat>)
    requires i < |keys| && InRange(keys, t) && SortedBy(keys, t)
    requires i !in t
    ensures SortedBy(keys, Insert(keys, i, t))
  {
    var r := Insert(keys, i, t);
    if t == [] || Precedes(keys, i, t[0]) {
      forall q | 0 < q < |r| ensures Precedes(keys, i, r[q]) {
        assert r[q] == t[q - 1];
      }
    } else {
      assert Precedes(keys, t[0], i);
      InsertSorted(keys, i, t[1..]);
      var r' := Insert(keys, i, t[1..]);
      assert r == [t[0]] + r';
      forall q | 0 <= q < |r'| ensures Precedes(keys, t[0], r'[q]) {
        assert r'[q] in multiset(r');
        if r'[q] != i {
          assert r'[q] in multiset(t[1..]);
          var p :| 0 <= p < |t[1..]| && t[1..][p] == r'[q];
          assert t[p + 1] == r'[q];
        }
      }
    }
  }

  /** Sorting a list of distinct positions arranges it. */
  lemma {:induction false} SortSorted(keys: seq<real>, idx: seq<nat>)
    requires InRange(keys, idx)
    requires forall p, q :: 0 <= p < q < |idx| ==> idx[p] != idx[q]
    ensures SortedBy(keys, SortPositions(keys, idx))
  {
    if idx != [] {
      var tail := idx[1..];
      SortSorted(keys, tail);
      forall p | 0 <= p < |tail| ensures tail[p] != idx[0] {
        assert tail[p] == idx[p + 1];
      }
      assert idx[0] !in multiset(tail);
      InsertSorted(keys, idx[0], SortPositions(keys, tail));
    }
  }

  /** `StableOrder` lists every input position exactly once, by key descending
      and, among equal keys, by position ascending. */
  lemma StableOrderSpec(keys: seq<real>)
    ensures var r := StableOrder(keys);
      && SortedBy(keys, r)
      && (forall i :: 0 <= i < |keys| ==> i in r)
      && (forall p, q :: 0 <= p < q < |r| ==> r[p] != r[q] && keys[r[p]] >= keys[r[q]])
  {
    var all := Positions(|keys|);
    SortSorted(keys, all);
    var r := StableOrder(keys);
    forall i | 0 <= i < |keys| ensures i in r {
      assert all[i] == i;
      assert i in multiset(all);
    }
  }

  /** Two arranged lists of the same positions are equal: any stable descending
      sort produces `StableOrder`. */
  lemma {:induction false} ArrangementUnique(keys: seq<real>, a: seq<nat>, b: seq<nat>)
    requires InRange(keys, a) && InRange(keys, b)
    requires SortedBy(keys, a) && SortedBy(keys, b)
    requires forall x :: x in a <==> x in b
    ensures a == b
  {
    assert |b| > 0 ==> b[0] in a;
    assert |a| > 0 ==> a[0] in b;
    if a != [] && b != [] {
      var p :| 0 <= p < |a| && a[p] == b[0];
      var q :| 0 <= q < |b| && b[q] == a[0];
      assert a[0] == b[0];
      forall x ensures x in a[1..] <==> x in b[1..] {
        if x in a[1..] {
          var p :| 0 <= p < |a[1..]| && a[1..][p] == x;
          assert a[p + 1] == x && x != a[0];
          assert x in b;
          var q :| 0 <= q < |b| && b[q] == x;
          assert q != 0;
          assert b[1..][q - 1] == x;
        }
        if x in b[1..] {
          var p :| 0 <= p < |b[1..]| && b[1..][p] == x;
          assert b[p + 1] == x && x != b[0];
          assert x in a;
          var q :| 0 <= q < |a| && a[q] == x;
          assert q != 0;
          assert a[1..][q - 1] == x;
        }
      }
      ArrangementUnique(keys, a[1..], b[1..]);
      assert a == [a[0]] + a[1..] && b == [b[0]] + b[1..];
    }
  }

  /** Any list holding exactly the input positions, arranged by key descending
      and then position ascending, is `StableOrder`. */
  lemma StableOrderUnique(keys: seq<real>, r: seq<nat>)
    requires InRange(keys, r) && SortedBy(keys, r)
    requires forall i :: 0 <= i < |keys| ==> i in r
    ensures r == StableOrder(keys)
  {
    StableOrderSpec(keys);
    ArrangementUnique(keys, r, StableOrder(keys));
  }

  // ---------------------------------------------------------------- top-N panels

  function Energies(panels: seq<SolarPanel>): (r: seq<real>)
    ensures |r| == |panels|
  {
    seq(|panels|, k requires 0 <= k < |panels| => Energy(panels[k]))
  }

  /** The panels `drawSolarPanelsOnRealRoof` shows for a slider value of `n`:
      the first `n` panels of a copy sorted by yearly energy, largest first. */
  function TopPanels(panels: seq<SolarPanel>, n: nat): (r: seq<SolarPanel>)
    ensures |r| == if n < |panels| then n else |panels|
  {
    var order := StableOrder(Energies(panels));
    var m := if n < |panels| then n else |panels|;
    seq(m, k requires 0 <= k < m => panels[order[k]])
  }

  /** The shown panels are distinct input panels, in order of energy (ties in
      input order), and none of the panels left out produces more energy than
      any panel shown. */
  lemma TopPanelsSpec(panels: seq<SolarPanel>, n: nat)
    ensures var order := StableOrder(Energies(panels));
      var shown := TopPanels(panels, n);
      && (forall k :: 0 <= k < |shown| ==> shown[k] == panels[order[k]])
      && (forall k, k' :: 0 <= k < k' < |shown| ==> Precedes(Energies(panels), order[k], order[k']))
      && (forall k, i :: 0 <= k < |shown| && 0 <= i < |panels| && i !in order[..|shown|] ==>
            Energy(shown[k]) >= Energy(panels[i]))
  {
    var keys := Energies(panels);
    var order := StableOrder(keys);
    var shown := TopPanels(panels, n);
    StableOrderSpec(keys);
    forall k, i | 0 <= k < |shown| && 0 <= i < |panels| && i !in order[..|shown|]
      ensures Energy(shown[k]) >= Energy(panels[i])
    {
      assert i in order;
      var j :| 0 <= j < |order| && order[j] == i;
      assert j >= |shown|;
      assert keys[order[k]] >= keys[order[j]];
    }
  }
}

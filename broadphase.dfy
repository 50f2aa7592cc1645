/** The two candidate-pair generators of PhysicsSystem, on entity
    positions 0 .. n-1 of the entity collection in iteration order.

    `getCollisionPairsBruteForce` emits (i, j) for every i < j.
    `getCollisionPairsQuadTree` walks the entities, asks the quadtree for
    the candidates of each, and keeps a candidate pair unless it is a
    self-pair or its key (the two ids sorted and joined with "_") was
    kept before. The quadtree itself is not modelled: the candidate lists
    of `retrieve` are an input. */
module Broadphase {

  type Pair = (nat, nat)

  // ---- brute force ----

  /** The pairs (i, lo), (i, lo + 1), ..., (i, hi - 1), as the inner loop
      emits them. */
  function RowSpan(i: nat, lo: nat, hi: nat): (r: seq<Pair>)
    ensures |r| == if lo <= hi then hi - lo else 0
    ensures forall k :: 0 <= k < |r| ==> r[k] == (i, lo + k)
    decreases hi
  {
    if hi <= lo then [] else RowSpan(i, lo, hi - 1) + [(i, hi - 1)]
  }

  /** Strictly increasing in the lexicographic order on pairs. */
  predicate PairLess(p: Pair, q: Pair)
  {
    p.0 < q.0 || (p.0 == q.0 && p.1 < q.1)
  }

  predicate StrictlyIncreasing(ps: seq<Pair>)
  {
    forall k, l :: 0 <= k < l < |ps| ==> PairLess(ps[k], ps[l])
  }

  /** The rows 0 .. i-1 of the outer loop over n entities. */
  function BruteRows(i: nat, n: nat): (r: seq<Pair>)
    requires i <= n
    ensures forall k :: 0 <= k < |r| ==> r[k].0 < i && r[k].0 < r[k].1 < n
  {
    if i == 0 then []
    else
      var prev := BruteRows(i - 1, n);
      var row := RowSpan(i - 1, i, n);
      assert forall k :: |prev| <= k < |prev + row| ==> (prev + row)[k] == row[k - |prev|];
      prev + row
  }

  lemma {:induction false} BruteRowsIncreasing(i: nat, n: nat)
    requires i <= n
    ensures StrictlyIncreasing(BruteRows(i, n))
  {
    if i > 0 {
      BruteRowsIncreasing(i - 1, n);
      var prev := BruteRows(i - 1, n);
      var row := RowSpan(i - 1, i, n);
      var r := BruteRows(i, n);
      assert r == prev + row;
      forall k, l | 0 <= k < l < |r|
        ensures PairLess(r[k], r[l])
      {
        if l < |prev| {
          assert r[k] == prev[k] && r[l] == prev[l];
          assert PairLess(prev[k], prev[l]);
        } else if k < |prev| {
          assert r[k] == prev[k] && r[l] == row[l - |prev|];
        } else {
          assert r[k] == row[k - |prev|] && r[l] == row[l - |prev|];
        }
      }
    }
  }

  lemma {:induction false} BruteRowsLength(i: nat, n: nat)
    requires i <= n
    ensures 2 * |BruteRows(i, n)| == i * (2 * n - i - 1)
  {
    if i > 0 {
      BruteRowsLength(i - 1, n);
      var before, after := |BruteRows(i - 1, n)|, |BruteRows(i, n)|;
      assert after == before + (n - i);
      RowCountStep(i, n, before, after);
    }
  }

  lemma RowCountStep(i: int, n: int, before: int, after: int)
    requires 2 * before == (i - 1) * (2 * n - (i - 1) - 1) && after == before + (n - i)
    ensures 2 * after == i * (2 * n - i - 1)
  {
    var m := i - 1;
    assert m * (2 * n - m - 1) == m * (2 * n - i);
    assert m * (2 * n - i) == i * (2 * n - i) - (2 * n - i);
    assert i * (2 * n - i - 1) == i * (2 * n - i) - i;
  }

  lemma {:induction false} BruteRowsComplete(i: nat, n: nat, a: nat, b: nat)
    requires i <= n && a < i && a < b < n
    ensures (a, b) in BruteRows(i, n)
  {
    var prev := BruteRows(i - 1, n);
    var row := RowSpan(i - 1, i, n);
    var r := BruteRows(i, n);
    assert r == prev + row;
    if a < i - 1 {
      BruteRowsComplete(i - 1, n, a, b);
      var k :| 0 <= k < |prev| && prev[k] == (a, b);
      assert r[k] == (a, b);
    } else {
      assert row[b - i] == (a, b);
      assert r[|prev| + (b - i)] == (a, b);
    }
  }

  /** Everything `getCollisionPairsBruteForce` emits for n entities. */
  function BrutePairs(n: nat): (r: seq<Pair>)
  {
    BruteRows(n, n)
  }

  /** Its pairs are exactly those (i, j) with i < j < n: no self-pair, no
      pair twice, and n(n-1)/2 of them. */
  lemma BrutePairsAreAllOrderedPairs(n: nat)
    ensures forall i: nat, j: nat :: (i, j) in BrutePairs(n) <==> i < j < n
    ensures forall k, l :: 0 <= k < l < |BrutePairs(n)| ==> BrutePairs(n)[k] != BrutePairs(n)[l]
    ensures |BrutePairs(n)| == n * (n - 1) / 2
  {
    var r := BrutePairs(n);
    forall i: nat, j: nat | i < j < n ensures (i, j) in r {
      BruteRowsComplete(n, n, i, j);
    }
    BruteRowsIncreasing(n, n);
    forall k, l | 0 <= k < l < |r| ensures r[k] != r[l] {
      assert PairLess(r[k], r[l]);
    }
    BruteRowsLength(n, n);
  }

  // ---- the quadtree key ----

  /** The default order of `Array.prototype.sort` on two strings: the
      lexicographic order on their code points (equal to JavaScript's
      code-unit order for ids within the Basic Multilingual Plane). */
  predicate LexLe(a: string, b: string)
    decreases |a|
  {
    |a| == 0 || (|b| > 0 && (a[0] < b[0] || (a[0] == b[0] && LexLe(a[1..], b[1..]))))
  }

  lemma {:induction false} LexTotal(a: string, b: string)
    ensures LexLe(a, b) || LexLe(b, a)
    decreases |a|
  {
    if |a| > 0 && |b| > 0 && a[0] == b[0] {
      LexTotal(a[1..], b[1..]);
    }
  }

  lemma {:induction false} LexAntisymmetric(a: string, b: string)
    requires LexLe(a, b) && LexLe(b, a)
    ensures a == b
    decreases |a|
  {
    if |a| > 0 {
      LexAntisymmetric(a[1..], b[1..]);
      assert a == [a[0]] + a[1..] && b == [b[0]] + b[1..];
    }
  }

  /** `[id1, id2].sort().join('_')`. */
  function PairKey(id1: string, id2: string): (k: string)
  {
    if LexLe(id1, id2) then id1 + "_" + id2 else id2 + "_" + id1
  }

  /** The key does not depend on the order of the two ids, so (a, b) and
      (b, a) share it. */
  lemma PairKeySymmetric(id1: string, id2: string)
    ensures PairKey(id1, id2) == PairKey(id2, id1)
  {
    LexTotal(id1, id2);
    if LexLe(id1, id2) && LexLe(id2, id1) {
      LexAntisymmetric(id1, id2);
    }
  }

  /** Joining with "_" does not keep the ids apart: the pairs of ids
      ("a", "b_c") and ("a_b", "c") get the same key, so whichever the scan
      meets second is never emitted. */
  lemma PairKeyConflates()
    ensures PairKey("a", "b_c") == PairKey("a_b", "c") == "a_b_c"
  {
    assert LexLe("a", "b_c") by { assert "a"[0] < "b_c"[0]; }
    assert LexLe("a_b", "c") by { assert "a_b"[0] < "c"[0]; }
  }

  // ---- quadtree pairs ----

  /** The candidate pairs (i, c) of entity i, in `retrieve` order. */
  function Row(i: nat, cs: seq<nat>): (r: seq<Pair>)
    ensures |r| == |cs| && forall k :: 0 <= k < |r| ==> r[k] == (i, cs[k])
  {
    seq(|cs|, k requires 0 <= k < |cs| => (i, cs[k]))
  }

  /** All candidate pairs of the scan, entity by entity. */
  function Candidates(cands: seq<seq<nat>>): (r: seq<Pair>)
  {
    if |cands| == 0 then []
    else Candidates(cands[..|cands| - 1]) + Row(|cands| - 1, cands[|cands| - 1])
  }

  /** The scan meets (i, j) exactly when j is among the candidates of i. */
  lemma {:induction false} CandidatesMembership(cands: seq<seq<nat>>)
    ensures forall i, j :: (i, j) in Candidates(cands) <==> 0 <= i < |cands| && j in cands[i]
  {
    if |cands| > 0 {
      var init := cands[..|cands| - 1];
      CandidatesMembership(init);
      var prev := Candidates(init);
      var row := Row(|cands| - 1, cands[|cands| - 1]);
      assert Candidates(cands) == prev + row;
      assert forall i :: 0 <= i < |cands| - 1 ==> init[i] == cands[i];
      assert forall i, j :: (i, j) in row <==> i == |cands| - 1 && j in cands[|cands| - 1] by {
        forall i, j | (i, j) in row ensures i == |cands| - 1 && j in cands[|cands| - 1] {
          var k :| 0 <= k < |row| && row[k] == (i, j);
        }
        forall i, j | i == |cands| - 1 && j in cands[|cands| - 1] ensures (i, j) in row {
          var k :| 0 <= k < |cands[|cands| - 1]| && cands[|cands| - 1][k] == j;
          assert row[k] == (i, j);
        }
      }
    }
  }

  /** Candidate lists of at most n entities naming entities below n give
      pairs of entities below n. */
  lemma {:induction false} CandidatesBelow(cands: seq<seq<nat>>, n: nat)
    requires |cands| <= n
    requires forall i, k :: 0 <= i < |cands| && 0 <= k < |cands[i]| ==> cands[i][k] < n
    ensures PairsWithin(Candidates(cands), n)
  {
    if |cands| > 0 {
      var init := cands[..|cands| - 1];
      assert forall i :: 0 <= i < |init| ==> init[i] == cands[i];
      CandidatesBelow(init, n);
      var prev := Candidates(init);
      var r := prev + Row(|cands| - 1, cands[|cands| - 1]);
      assert Candidates(cands) == r;
      forall l | 0 <= l < |r| ensures r[l].0 < n && r[l].1 < n {
        if l >= |prev| {
          assert r[l] == (|cands| - 1, cands[|cands| - 1][l - |prev|]);
        } else {
          assert r[l] == prev[l];
        }
      }
    }
  }

  /** Every pair and every candidate index names an entity. */
  predicate PairsWithin(ps: seq<Pair>, n: nat)
  {
    forall k :: 0 <= k < |ps| ==> ps[k].0 < n && ps[k].1 < n
  }

  /** One candidate list per entity, each naming entities. */
  predicate CandidatesWithin(cands: seq<seq<nat>>, n: nat)
  {
    |cands| == n && forall i, k :: 0 <= i < |cands| && 0 <= k < |cands[i]| ==> cands[i][k] < n
  }

  function KeyOf(ids: seq<string>, p: Pair): string
    requires p.0 < |ids| && p.1 < |ids|
  {
    PairKey(ids[p.0], ids[p.1])
  }

  /** The `checked` set: the keys of the pairs kept so far. */
  function Keys(ids: seq<string>, ps: seq<Pair>): (r: set<string>)
    requires PairsWithin(ps, |ids|)
    ensures forall k :: 0 <= k < |ps| ==> KeyOf(ids, ps[k]) in r
  {
    set k | 0 <= k < |ps| :: KeyOf(ids, ps[k])
  }

  /** The scan's decision for one candidate pair: a self-pair or an
      already checked key is skipped, anything else is kept and its key
      checked. */
  function Keep(ids: seq<string>, kept: seq<Pair>, p: Pair): (r: seq<Pair>)
    requires PairsWithin(kept, |ids|) && p.0 < |ids| && p.1 < |ids|
    ensures PairsWithin(r, |ids|)
    ensures r == kept || (r == kept + [p] && p.0 != p.1 && KeyOf(ids, p) !in Keys(ids, kept))
    ensures p.0 != p.1 ==> KeyOf(ids, p) in Keys(ids, r)
    ensures Keys(ids, kept) <= Keys(ids, r)
  {
    if p.0 == p.1 || KeyOf(ids, p) in Keys(ids, kept) then kept
    else
      var r := kept + [p];
      assert r[|kept|] == p;
      assert forall k :: 0 <= k < |kept| ==> r[k] == kept[k];
      r
  }

  /** What `getCollisionPairsQuadTree` emits for a sequence of candidate
      pairs, scanning them in order. */
  function Dedup(ids: seq<string>, ps: seq<Pair>): (r: seq<Pair>)
    requires PairsWithin(ps, |ids|)
    ensures PairsWithin(r, |ids|)
  {
    if |ps| == 0 then []
    else
      var init := ps[..|ps| - 1];
      assert PairsWithin(init, |ids|) by {
        assert forall k :: 0 <= k < |init| ==> init[k] == ps[k];
      }
      Keep(ids, Dedup(ids, init), ps[|ps| - 1])
  }

  /** One step of the scan, unfolded. */
  lemma DedupStep(ids: seq<string>, ps: seq<Pair>)
    requires PairsWithin(ps, |ids|) && |ps| > 0
    ensures PairsWithin(ps[..|ps| - 1], |ids|)
    ensures Dedup(ids, ps) == Keep(ids, Dedup(ids, ps[..|ps| - 1]), ps[|ps| - 1])
  {
    assert forall k :: 0 <= k < |ps| - 1 ==> ps[..|ps| - 1][k] == ps[k];
  }

  /** Never a self-pair. */
  lemma {:induction false} DedupHasNoSelfPairs(ids: seq<string>, ps: seq<Pair>)
    requires PairsWithin(ps, |ids|)
    ensures var r := Dedup(ids, ps); forall k :: 0 <= k < |r| ==> r[k].0 != r[k].1
  {
    if |ps| > 0 {
      DedupStep(ids, ps);
      DedupHasNoSelfPairs(ids, ps[..|ps| - 1]);
    }
  }

  /** Never two pairs with one key. */
  lemma {:induction false} DedupKeysAreUnique(ids: seq<string>, ps: seq<Pair>)
    requires PairsWithin(ps, |ids|)
    ensures var r := Dedup(ids, ps);
      forall k, l :: 0 <= k < l < |r| ==> KeyOf(ids, r[k]) != KeyOf(ids, r[l])
  {
    if |ps| > 0 {
      DedupStep(ids, ps);
      var prev := Dedup(ids, ps[..|ps| - 1]);
      DedupKeysAreUnique(ids, ps[..|ps| - 1]);
      var r := Dedup(ids, ps);
      forall k, l | 0 <= k < l < |r| ensures KeyOf(ids, r[k]) != KeyOf(ids, r[l]) {
        if r != prev && l == |prev| {
          assert r[k] == prev[k];
          assert KeyOf(ids, prev[k]) in Keys(ids, prev);
        } else {
          assert r[k] == prev[k] && r[l] == prev[l];
        }
      }
    }
  }

  /** Only candidates are emitted. */
  lemma {:induction false} DedupKeepsCandidates(ids: seq<string>, ps: seq<Pair>)
    requires PairsWithin(ps, |ids|)
    ensures var r := Dedup(ids, ps); forall k :: 0 <= k < |r| ==> r[k] in ps
  {
    if |ps| > 0 {
      DedupStep(ids, ps);
      DedupKeepsCandidates(ids, ps[..|ps| - 1]);
      assert forall q :: q in ps[..|ps| - 1] ==> q in ps;
    }
  }

  /** The key of every candidate that is not a self-pair is checked, so a
      candidate is either emitted or shares its key with an emitted pair. */
  lemma {:induction false} DedupCoversCandidates(ids: seq<string>, ps: seq<Pair>)
    requires PairsWithin(ps, |ids|)
    ensures forall k :: 0 <= k < |ps| && ps[k].0 != ps[k].1 ==> KeyOf(ids, ps[k]) in Keys(ids, Dedup(ids, ps))
  {
    if |ps| > 0 {
      DedupStep(ids, ps);
      var init := ps[..|ps| - 1];
      DedupCoversCandidates(ids, init);
      assert forall k :: 0 <= k < |init| ==> init[k] == ps[k];
    }
  }

  /** The pairs of the whole scan. */
  function QuadTreePairs(ids: seq<string>, cands: seq<seq<nat>>): (r: seq<Pair>)
    requires CandidatesWithin(cands, |ids|)
  {
    CandidatesAreWithin(cands, |ids|);
    Dedup(ids, Candidates(cands))
  }

  lemma CandidatesAreWithin(cands: seq<seq<nat>>, n: nat)
    requires CandidatesWithin(cands, n)
    ensures PairsWithin(Candidates(cands), n)
  {
    CandidatesBelow(cands, n);
  }

  /** The scan emits each unordered pair at most once: (a, b) and (b, a)
      are never both emitted. */
  lemma QuadTreePairsUnordered(ids: seq<string>, cands: seq<seq<nat>>)
    requires CandidatesWithin(cands, |ids|)
    ensures var r := QuadTreePairs(ids, cands);
      forall k, l :: 0 <= k < l < |r| ==> r[k] != r[l] && r[k] != (r[l].1, r[l].0)
  {
    CandidatesAreWithin(cands, |ids|);
    var r := QuadTreePairs(ids, cands);
    assert r == Dedup(ids, Candidates(cands));
    DedupKeysAreUnique(ids, Candidates(cands));
    forall k, l | 0 <= k < l < |r|
      ensures r[k] != r[l] && r[k] != (r[l].1, r[l].0)
    {
      PairKeySymmetric(ids[r[l].0], ids[r[l].1]);
      assert KeyOf(ids, r[k]) != KeyOf(ids, r[l]);
      assert KeyOf(ids, (r[l].1, r[l].0)) == KeyOf(ids, r[l]);
    }
  }

  /** The key conflation loses a pair: with entities "a", "b_c", "a_b",
      "c" whose quadtree candidates are each other in turn, the pair
      (a_b, c) is never emitted although it is a candidate. */
  const ConflatedIds: seq<string> := ["a", "b_c", "a_b", "c"]
  const ConflatedCandidates: seq<seq<nat>> := [[1], [], [3], []]

  lemma ConflatedCandidatePairs()
    ensures Candidates(ConflatedCandidates) == [(0, 1), (2, 3)]
  {
    var cands := ConflatedCandidates;
    var c0, c1, c2, c3 := cands[..0], cands[..1], cands[..2], cands[..3];
    assert Candidates(c0) == [];
    assert c1[..0] == c0 && c1[0] == [1];
    assert Row(0, [1]) == [(0, 1)];
    assert Candidates(c1) == [(0, 1)];
    assert c2[..1] == c1 && c2[1] == [];
    assert Candidates(c2) == [(0, 1)];
    assert c3[..2] == c2 && c3[2] == [3];
    assert Row(2, [3]) == [(2, 3)];
    assert Candidates(c3) == [(0, 1), (2, 3)];
    assert cands[..3] == c3 && cands[3] == [];
  }

  lemma ConflatedPairIsDropped()
    ensures var r := QuadTreePairs(ConflatedIds, ConflatedCandidates);
      (2, 3) in Candidates(ConflatedCandidates) && (2, 3) !in r && (3, 2) !in r
  {
    var ids := ConflatedIds;
    ConflatedCandidatePairs();
    CandidatesAreWithin(ConflatedCandidates, |ids|);
    var ps: seq<Pair> := [(0, 1), (2, 3)];
    assert KeyOf(ids, (0, 1)) == KeyOf(ids, (2, 3)) by { PairKeyConflates(); }
    DedupStep(ids, ps);
    assert ps[..1] == [(0, 1)];
    DedupStep(ids, ps[..1]);
    assert ps[..1][..0] == [];
    assert Dedup(ids, ps[..1]) == [(0, 1)];
    assert Dedup(ids, ps) == [(0, 1)];
  }
}

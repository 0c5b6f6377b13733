/** Which free chunk malloc chooses. */
module HeapChoice {
  import opened HeapSizes
  import opened HeapTiling
  import opened HeapTags
  import opened HeapBins
  import opened HeapSteps

  ghost predicate NoFitIn(s: seq<nat>, c: Chunks, nb: nat) {
    forall p :: p in s && p in c ==> c[p].size < nb
  }

  /** No bin from lo up to hi holds a chunk of at least nb bytes. */
  ghost predicate NoFit(bins: Bins, c: Chunks, nb: nat, lo: nat, hi: nat) {
    forall i :: lo <= i < hi && i < |bins| ==> NoFitIn(bins[i], c, nb)
  }

  /** The chunk at bins[b][k] fits, and everything behind it in its bin and
      everything in the bins below is too small. */
  ghost predicate BestFit(bins: Bins, c: Chunks, nb: nat, b: nat, k: nat) {
    && 2 <= b < |bins| && k < |bins[b]| && bins[b][k] in c && nb <= c[bins[b][k]].size
    && (forall j :: k < j < |bins[b]| && bins[b][j] in c ==> c[bins[b][j]].size < nb)
    && NoFit(bins, c, nb, 2, b)
  }

  lemma BestFitIs(bins: Bins, c: Chunks, nb: nat, b: nat, k: nat)
    requires 2 <= b < |bins| && k < |bins[b]| && bins[b][k] in c && nb <= c[bins[b][k]].size
    requires forall j :: k < j < |bins[b]| && bins[b][j] in c ==> c[bins[b][j]].size < nb
    requires NoFit(bins, c, nb, 2, b)
    ensures BestFit(bins, c, nb, b, k)
  {
  }

  /** Such a chunk is the smallest of all binned chunks that fit. */
  lemma BestFitIsSmallest(bins: Bins, c: Chunks, x: set<nat>, nb: nat, b: nat, k: nat, i: nat, q: nat)
    requires BinnedBut(bins, c, x) && BestFit(bins, c, nb, b, k)
    requires 2 <= i < NAV && q in bins[i] && q in c && nb <= c[q].size
    ensures c[bins[b][k]].size <= c[q].size
  {
    assert Listed(bins, c, x, b) && Listed(bins, c, x, i);
    assert bins[b][k] in bins[b];
    if i == b {
      var j :| 0 <= j < |bins[b]| && bins[b][j] == q;
    } else if b < i && c[q].size < c[bins[b][k]].size {
      BinIndexMonotone(c[q].size, c[bins[b][k]].size);
    }
  }

  /** A chunk from a higher bin than the request's own always fits. */
  lemma HigherBinsFit(bins: Bins, c: Chunks, x: set<nat>, nb: nat, i: nat)
    requires BinnedBut(bins, c, x) && BinIndex(nb) < i < NAV && 2 <= i && NoFitIn(bins[i], c, nb)
    ensures bins[i] == []
  {
    assert Listed(bins, c, x, i);
    if bins[i] != [] {
      var q := bins[i][0];
      assert q in bins[i];
      BinIndexMonotone(c[q].size, nb);
    }
  }

  /** The small bins of odd index are empty, since all sizes are aligned. */
  lemma OddBinsEmpty(bins: Bins, c: Chunks, x: set<nat>, base: nat, top: nat, i: nat)
    requires BinnedBut(bins, c, x) && Shaped(c, base, top) && 2 <= i < 64 && i % 2 == 1
    ensures bins[i] == []
  {
    assert Listed(bins, c, x, i);
    if bins[i] != [] {
      var q := bins[i][0];
      assert q in bins[i];
      BinIndexBounds(c[q].size);
      SmallBinExact(c[q].size, c[q].size);
    }
  }

  lemma SmallBinUniform(bins: Bins, c: Chunks, x: set<nat>, base: nat, top: nat, i: nat, size: nat)
    requires BinnedBut(bins, c, x) && Shaped(c, base, top) && 2 <= i < NAV && size < 512 && i == size / 8 && Aligned(size)
    ensures forall q :: q in bins[i] ==> q in c && c[q].size == size
  {
    assert Listed(bins, c, x, i);
    BinIndexBounds(size);
    forall q | q in bins[i] ensures q in c && c[q].size == size {
      SmallBinExact(c[q].size, size);
    }
  }

  /** The choice malloc makes for nb bytes among the free chunks. */
  ghost predicate Served(a: Arena, started: bool, nb: nat, p: nat)
    requires |a.bins| == NAV
  {
    if !NoExact(a.bins, a.c, nb) then FromBins(a, nb, p)
    else if !NoFitIn(a.bins[LAST_REMAINDER], a.c, nb) then a.bins[LAST_REMAINDER] == [p]
    else if !NoFit(a.bins, a.c, nb, 2, NAV) then FromBins(a, nb, p)
    else p == if started then a.top else a.end
  }

  lemma ExactServed(a: Arena, started: bool, nb: nat, p: nat)
    requires |a.bins| == NAV && !NoExact(a.bins, a.c, nb) && FromBins(a, nb, p)
    ensures Served(a, started, nb, p)
  {
  }

  lemma RemainderServed(a: Arena, a': Arena, started: bool, nb: nat, p: nat)
    requires |a.bins| == NAV && NoExact(a.bins, a.c, nb) && a.bins[LAST_REMAINDER] == [p] && p in a.c && nb <= a.c[p].size
    ensures Served(a, started, nb, p)
  {
    assert p in a.bins[LAST_REMAINDER];
  }

  lemma TopServed(a: Arena, started: bool, nb: nat, p: nat)
    requires |a.bins| == NAV && NoExact(a.bins, a.c, nb) && NoFitIn(a.bins[LAST_REMAINDER], a.c, nb)
    requires NoFit(a.bins, a.c, nb, 2, NAV) && p == if started then a.top else a.end
    ensures Served(a, started, nb, p)
  {
  }

  lemma NoFitFrom1(bins: Bins, c: Chunks, nb: nat)
    requires |bins| == NAV && NoFitIn(bins[LAST_REMAINDER], c, nb) && NoFit(bins, c, nb, 2, NAV)
    ensures NoFit(bins, c, nb, 1, NAV)
  {
  }

  lemma GrantedFrom(a: Arena, a1: Arena, b: Arena, nb: nat, p: nat)
    requires Granted(a1, b, nb, p) && a1.m == a.m && a1.c == a.c
    ensures Granted(a, b, nb, p)
  {
  }

  /** Binning the last remainder changes nothing for the scan. */
  lemma RebinnedScan(a: Bins, b: Bins, c: Chunks, nb: nat, idx: nat)
    requires Rebinned(a, b, c, nb) && 2 <= idx <= NAV
    ensures NoFit(a, c, nb, 2, idx) <==> NoFit(b, c, nb, 2, idx)
    ensures idx < NAV ==> (NoFitIn(a[idx], c, nb) <==> NoFitIn(b[idx], c, nb))
  {
    forall i | 2 <= i < NAV ensures NoFitIn(a[i], c, nb) <==> NoFitIn(b[i], c, nb) {
      RebinnedNoFit(a, b, c, nb, i);
    }
  }

  lemma BinsServed(a: Arena, a1: Arena, bins: Bins, started: bool, nb: nat, p: nat)
    requires |a.bins| == NAV && NoExact(a.bins, a.c, nb) && NoFitIn(a.bins[LAST_REMAINDER], a.c, nb)
    requires Rebinned(a.bins, bins, a.c, nb) && a1.c == a.c && a1.bins == bins && FromBins(a1, nb, p)
    ensures Served(a, started, nb, p)
  {
    var b: nat, k: nat :| BestFit(bins, a.c, nb, b, k) && bins[b][k] == p;
    RebinnedBestFit(a.bins, bins, a.c, nb, b, k);
    assert a.bins[b][k] in a.bins[b];
    assert !NoFitIn(a.bins[b], a.c, nb);
  }

  /** The bins b from 2 on are the bins a, except that chunks below nb bytes
      may have been added behind all that fit. */
  ghost predicate Rebinned(a: Bins, b: Bins, c: Chunks, nb: nat) {
    && |a| == |b| == NAV
    && forall i :: 2 <= i < NAV ==> RebinnedAt(a[i], b[i], c, nb)
  }

  ghost predicate RebinnedAt(s: seq<nat>, t: seq<nat>, c: Chunks, nb: nat) {
    || s == t
    || exists k: nat, p: nat :: k <= |s| && t == PutAt(s, k, p) && p in c && c[p].size < nb && NoFitIn(s[k..], c, nb)
  }

  lemma RebinnedSame(a: Bins, c: Chunks, nb: nat)
    requires |a| == NAV
    ensures Rebinned(a, a, c, nb)
  {
  }

  lemma RebinnedBy(bins: Bins, c: Chunks, nb: nat, p: nat, b: nat, k: nat)
    requires |bins| == NAV && 2 <= b < NAV && k <= |bins[b]| && p in c && c[p].size < nb
    requires forall j :: k <= j < |bins[b]| ==> bins[b][j] in c && c[bins[b][j]].size <= c[p].size
    ensures Rebinned(bins, bins[LAST_REMAINDER := []][b := PutAt(bins[b], k, p)], c, nb)
  {
    var t := bins[LAST_REMAINDER := []][b := PutAt(bins[b], k, p)];
    forall i | 2 <= i < NAV ensures RebinnedAt(bins[i], t[i], c, nb) {
      if i == b {
        assert NoFitIn(bins[b][k..], c, nb);
      }
    }
  }

  lemma RebinnedNoFit(a: Bins, b: Bins, c: Chunks, nb: nat, i: nat)
    requires Rebinned(a, b, c, nb) && 2 <= i < NAV
    ensures NoFitIn(a[i], c, nb) <==> NoFitIn(b[i], c, nb)
  {
    assert RebinnedAt(a[i], b[i], c, nb);
    if a[i] != b[i] {
      var k: nat, p: nat :| k <= |a[i]| && b[i] == PutAt(a[i], k, p) && p in c && c[p].size < nb && NoFitIn(a[i][k..], c, nb);
      if NoFitIn(b[i], c, nb) {
        forall q | q in a[i] && q in c ensures c[q].size < nb {
          var j :| 0 <= j < |a[i]| && a[i][j] == q;
          assert b[i][if j < k then j else j + 1] == q;
        }
      }
    }
  }

  /** A best fit after the last remainder was binned was one before, too. */
  lemma RebinnedBestFit(a: Bins, b: Bins, c: Chunks, nb: nat, i: nat, j: nat)
    requires Rebinned(a, b, c, nb) && BestFit(b, c, nb, i, j)
    ensures BestFit(a, c, nb, i, j) && a[i][j] == b[i][j]
  {
    forall h | 2 <= h < i ensures NoFitIn(a[h], c, nb) {
      RebinnedNoFit(a, b, c, nb, h);
    }
    assert RebinnedAt(a[i], b[i], c, nb);
    if a[i] != b[i] {
      var k: nat, p: nat :| k <= |a[i]| && b[i] == PutAt(a[i], k, p) && p in c && c[p].size < nb && NoFitIn(a[i][k..], c, nb);
      assert j < k;
      forall h | j < h < |a[i]| && a[i][h] in c ensures c[a[i][h]].size < nb {
        if h < k {
          assert b[i][h] == a[i][h];
        } else {
          assert a[i][k..][h - k] == a[i][h];
          assert a[i][h] in a[i][k..];
        }
      }
    }
  }

  lemma HasMember(s: seq<nat>)
    requires s != []
    ensures exists p: nat :: p in s
  {
    assert s[0] in s;
  }

  /** No chunk in the request's own bin fits it with less than MINSIZE to spare. */
  ghost predicate NoExact(bins: Bins, c: Chunks, nb: nat) {
    forall q :: BinIndex(nb) < |bins| && q in bins[BinIndex(nb)] && q in c ==> c[q].size < nb || nb + MINSIZE <= c[q].size
  }

  lemma LowerBinsTooSmall(bins: Bins, c: Chunks, x: set<nat>, nb: nat)
    requires BinnedBut(bins, c, x)
    ensures NoFit(bins, c, nb, 2, BinIndex(nb))
  {
    forall i | 2 <= i < BinIndex(nb) && i < |bins| ensures NoFitIn(bins[i], c, nb) {
      assert Listed(bins, c, x, i);
      forall q | q in bins[i] && q in c ensures c[q].size < nb {
        if nb <= c[q].size { BinIndexMonotone(nb, c[q].size); }
      }
    }
  }

  /** p is the best fitting binned chunk for nb bytes. */
  ghost predicate FromBins(a: Arena, nb: nat, p: nat) {
    exists b: nat, k: nat :: BestFit(a.bins, a.c, nb, b, k) && a.bins[b][k] == p
  }

  /** From a to b, chunk p of about nb bytes was handed out and nothing else
      in use was touched. */
  ghost predicate Granted(a: Arena, b: Arena, nb: nat, p: nat) {
    && p in b.c && b.c[p].used && nb <= b.c[p].size < nb + MINSIZE
    && (p in a.c ==> !a.c[p].used)
    && Live(b.c) == Live(a.c) + {p}
    && Keeps(a, b, {})
  }
}

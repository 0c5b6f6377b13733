/** What the arena as a whole amounts to: its size is the sum of its chunks, and
    the chunks in use alone determine where all others lie. */
module HeapTotals {
  import opened HeapTiling
  import opened HeapTags
  import opened HeapBins
  import opened HeapSteps

  ghost function Sum(c: Chunks, s: set<nat>): nat
    requires s <= c.Keys
  {
    if s == {} then 0 else var x :| x in s; c[x].size + Sum(c, s - {x})
  }

  lemma {:induction false} SumTake(c: Chunks, s: set<nat>, x: nat)
    requires s <= c.Keys && x in s
    ensures Sum(c, s) == c[x].size + Sum(c, s - {x})
  {
    var y :| y in s && Sum(c, s) == c[y].size + Sum(c, s - {y});
    if y != x {
      SumTake(c, s - {y}, x);
      SumTake(c, s - {x}, y);
      assert s - {y} - {x} == s - {x} - {y};
    }
  }

  lemma SumAdd(c: Chunks, s: set<nat>, x: nat)
    requires s <= c.Keys && x in c && x !in s
    ensures Sum(c, s + {x}) == Sum(c, s) + c[x].size
  {
    SumTake(c, s + {x}, x);
    assert s + {x} - {x} == s;
  }

  lemma {:induction false} SumUnion(c: Chunks, s: set<nat>, t: set<nat>)
    requires s <= c.Keys && t <= c.Keys && s !! t
    ensures Sum(c, s + t) == Sum(c, s) + Sum(c, t)
    decreases t
  {
    if t == {} {
      assert s + t == s;
    } else {
      var x :| x in t;
      SumUnion(c, s, t - {x});
      SumTake(c, t, x);
      SumAdd(c, s + (t - {x}), x);
      assert s + (t - {x}) + {x} == s + t;
    }
  }

  ghost function From(c: Chunks, p: nat): set<nat> {
    set x | x in c && p <= x
  }

  lemma {:induction false} SumFrom(c: Chunks, base: nat, top: nat, end: nat, p: nat)
    requires Tiled(c, base, top, end) && p in c
    ensures p <= end && Sum(c, From(c, p)) == end - p
    decreases top - p
  {
    InBounds(c, base, top, end, p);
    MinSize(c, base, top, end, p);
    if p == top {
      assert From(c, p) == {p};
      SumTake(c, {p}, p);
      assert {p} - {p} == {};
    } else {
      var n := Next(c, p);
      assert n in c;
      InBounds(c, base, top, end, n);
      SumFrom(c, base, top, end, n);
      FromNext(c, p);
      SumAdd(c, From(c, n), p);
    }
  }

  lemma FromNext(c: Chunks, p: nat)
    requires Disjoint(c) && p in c && Next(c, p) in c && 0 < c[p].size
    ensures From(c, p) == From(c, Next(c, p)) + {p} && p !in From(c, Next(c, p))
  {
  }

  /** The sizes of all chunks add up to the size of the arena. */
  lemma SumAll(c: Chunks, base: nat, top: nat, end: nat)
    requires Tiled(c, base, top, end)
    ensures Sum(c, c.Keys) == end - base
  {
    SumFrom(c, base, top, end, base);
    assert From(c, base) == c.Keys;
  }

  /** The chunks on the lists. */
  ghost function OnLists(bins: Bins, lo: nat, hi: nat): set<nat>
    requires lo <= hi <= |bins|
  {
    set i, p | lo <= i < hi && p in bins[i] :: p
  }

  /** The free chunks are top and the chunks on the lists, each once. */
  lemma FreeIsBinned(a: Arena)
    requires Ok(a)
    ensures a.top in a.c && a.top !in OnLists(a.bins, 1, NAV)
    ensures a.c.Keys == Live(a.c) + {a.top} + OnLists(a.bins, 1, NAV)
    ensures Live(a.c) !! {a.top} + OnLists(a.bins, 1, NAV)
  {
    var s := OnLists(a.bins, 1, NAV);
    forall p | p in s ensures p in a.c && !a.c[p].used && p != a.top {
      var i :| 1 <= i < NAV && p in a.bins[i];
      assert Listed(a.bins, a.c, {a.top}, i);
    }
    forall p | p in a.c && !a.c[p].used && p != a.top ensures p in s {
      assert Placed(a.bins, a.c, p);
      BinIndexBounds(a.c[p].size);
    }
  }

  /** The sizes of the chunks in use, on the lists, and of top add up to all the
      memory the system has handed out. */
  lemma Conservation(a: Arena)
    requires Ok(a)
    ensures a.top in a.c && Live(a.c) <= a.c.Keys && OnLists(a.bins, 1, NAV) <= a.c.Keys
    ensures Sum(a.c, Live(a.c)) + Sum(a.c, OnLists(a.bins, 1, NAV)) + a.c[a.top].size == a.end - a.base
  {
    FreeIsBinned(a);
    SumAll(a.c, a.base, a.top, a.end);
    var s := OnLists(a.bins, 1, NAV);
    hide Ok, OnLists, Live;
    SumAdd(a.c, s, a.top);
    assert s + {a.top} == {a.top} + s;
    SumUnion(a.c, Live(a.c), {a.top} + s);
    assert Live(a.c) + ({a.top} + s) == Live(a.c) + {a.top} + s;
  }

  /** The free chunks make up the rest. */
  lemma FreeTotal(a: Arena)
    requires Ok(a)
    ensures a.top in a.c && OnLists(a.bins, 1, NAV) <= a.c.Keys && Live(a.c) <= a.c.Keys
    ensures var s := OnLists(a.bins, 1, NAV); var free := a.c.Keys - Live(a.c);
      Sum(a.c, free) == a.c[a.top].size + Sum(a.c, s) && |free| == 1 + |s|
      && Sum(a.c, Live(a.c)) + Sum(a.c, free) == a.end - a.base
  {
    FreeIsBinned(a);
    Conservation(a);
    var s := OnLists(a.bins, 1, NAV);
    hide Ok, OnLists, Live;
    SumAdd(a.c, s, a.top);
    assert a.c.Keys - Live(a.c) == s + {a.top};
  }

  /** The part of the lists that a walk over bins 1 to i, each from its back,
      has passed once it stands at place k of bin i. */
  ghost function Passed(bins: Bins, i: nat, k: nat): set<nat>
    requires 1 <= i < |bins| && k <= |bins[i]|
  {
    OnLists(bins, 1, i) + set j | k <= j < |bins[i]| :: bins[i][j]
  }

  lemma PassStart(bins: Bins, i: nat)
    requires 1 <= i < |bins|
    ensures Passed(bins, i, |bins[i]|) == OnLists(bins, 1, i)
  {
  }

  lemma PassOne(bins: Bins, c: Chunks, x: set<nat>, i: nat, k: nat)
    requires BinnedBut(bins, c, x) && 1 <= i < NAV && 0 < k <= |bins[i]|
    ensures bins[i][k - 1] in c && Passed(bins, i, k) <= c.Keys
    ensures bins[i][k - 1] !in Passed(bins, i, k) && Passed(bins, i, k - 1) == Passed(bins, i, k) + {bins[i][k - 1]}
  {
    var p := bins[i][k - 1];
    assert Listed(bins, c, x, i);
    assert p in bins[i];
    OnlyHere(bins, c, x, i, p);
    forall q | q in Passed(bins, i, k) ensures q in c && q != p {
      if q in OnLists(bins, 1, i) {
        var j :| 1 <= j < i && q in bins[j];
        assert Listed(bins, c, x, j);
      }
    }
  }

  lemma PassBin(bins: Bins, i: nat)
    requires 1 <= i < |bins|
    ensures Passed(bins, i, 0) == OnLists(bins, 1, i + 1)
  {
    forall q ensures q in Passed(bins, i, 0) <==> q in OnLists(bins, 1, i + 1) {
      if q in bins[i] {
        var j :| 0 <= j < |bins[i]| && bins[i][j] == q;
      }
    }
  }

  // ----- the layout follows from the chunks in use -----

  ghost predicate SameLive(c: Chunks, d: Chunks) {
    Live(c) == Live(d) && forall p :: p in c && c[p].used ==> p in d && d[p] == c[p]
  }

  lemma SameDomain(c: Chunks, d: Chunks, base: nat, tc: nat, td: nat, end: nat, p: nat)
    requires Tiled(c, base, tc, end) && Tiled(d, base, td, end) && Coalesced(c, tc) && Coalesced(d, td)
    requires SameLive(c, d) && p in c
    ensures p in d
  {
    if p != base && !c[p].used {
      PrevOfFree(c, base, tc, end, p);
      var q :| q in c && Next(c, q) == p && c[q].used;
      assert Next(d, q) == p;
    }
  }

  /** Two arenas with the same bounds and the same chunks in use are laid out
      alike, whatever calls led there: free memory is never left in pieces. */
  lemma LayoutUnique(c: Chunks, d: Chunks, base: nat, tc: nat, td: nat, end: nat)
    requires Tiled(c, base, tc, end) && Tiled(d, base, td, end) && Coalesced(c, tc) && Coalesced(d, td)
    requires SameLive(c, d)
    ensures c == d && tc == td
  {
    LiveSymmetric(c, d);
    forall p ensures p in c <==> p in d {
      if p in c { SameDomain(c, d, base, tc, td, end, p); }
      if p in d { SameDomain(d, c, base, td, tc, end, p); }
    }
    InBounds(c, base, tc, end, td);
    InBounds(d, base, td, end, tc);
    forall p | p in c ensures c[p] == d[p] {
      if !c[p].used {
        assert p !in Live(d);
        SameSize(c, d, base, tc, end, p);
      }
    }
  }

  lemma LiveSymmetric(c: Chunks, d: Chunks)
    requires SameLive(c, d)
    ensures SameLive(d, c)
  {
    forall p | p in d && d[p].used ensures p in c && c[p] == d[p] {
      assert p in Live(d);
    }
  }

  lemma SameSize(c: Chunks, d: Chunks, base: nat, top: nat, end: nat, p: nat)
    requires Tiled(c, base, top, end) && Tiled(d, base, top, end) && c.Keys == d.Keys && p in c
    ensures c[p].size == d[p].size
  {
    MinSize(c, base, top, end, p);
    MinSize(d, base, top, end, p);
    if p != top {
      assert Next(c, p) in d.Keys && Next(d, p) in c.Keys;
    }
  }
}

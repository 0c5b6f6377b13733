/** Growing a chunk in use over its neighbours, as realloc does. */
module HeapGrow {
  import opened Common
  import opened HeapTiling
  import opened HeapTags
  import opened HeapBins
  import opened HeapSteps
  import opened HeapFree

  /** Chunk p, in use, can be merged with the chunk q right below it, which is
      free, or stays where it is (q is p); up tells whether the chunk above
      joins in. */
  ghost predicate Mergeable(c: Chunks, base: nat, top: nat, p: nat, q: nat) {
    && p in c && c[p].used && p != top && Next(c, p) in c && 0 < c[p].size
    && (q != p ==> q in c && !c[q].used && q != top && Next(c, q) == p && q < p)
  }

  function Merged(c: Chunks, p: nat, q: nat, up: bool): Chunks
    requires p in c && Next(c, p) in c && 0 < c[p].size
    requires q == p || (q in c && q < p && Next(c, q) == p)
  {
    var u := if up then JoinNext(c, p, true) else c;
    if q == p then u else JoinNext(u, q, true)
  }

  function MergedTop(c: Chunks, top: nat, p: nat, q: nat, up: bool): nat
    requires p in c
  {
    if up && Next(c, p) == top then q else top
  }

  function MergedSize(c: Chunks, p: nat, q: nat, up: bool): nat
    requires p in c && Next(c, p) in c && (q != p ==> q in c)
  {
    (if q == p then 0 else c[q].size) + c[p].size + (if up then c[Next(c, p)].size else 0)
  }

  lemma MergedWork(a: Arena, p: nat, q: nat, up: bool)
    requires Ok(a) && Mergeable(a.c, a.base, a.top, p, q)
    ensures Work(a.(c := Merged(a.c, p, q, up), top := MergedTop(a.c, a.top, p, q, up)), q)
  {
    var t := MergedTop(a.c, a.top, p, p, up);
    WorkBegin(a, p, true);
    assert SetUsed(a.c, p, true) == a.c;
    hide Work, Ok;
    if up {
      WorkForward(a, p, true);
    }
    var u := if up then JoinNext(a.c, p, true) else a.c;
    assert a.(c := a.c) == a && a.(top := a.top) == a;
    assert Work(a.(c := u, top := t), p);
    if q != p {
      assert u[q] == a.c[q] && Next(u, q) == p && q != t;
      WorkBackward(a.(c := u, top := t), p, q, true);
    }
  }

  lemma MergedShape(c: Chunks, base: nat, top: nat, p: nat, q: nat, up: bool)
    requires Mergeable(c, base, top, p, q)
    ensures var f := Merged(c, p, q, up); var n := Next(c, p);
      && q in f && f[q] == Chunk(MergedSize(c, p, q, up), true)
      && (forall x :: x != p && x != q && x != n ==> (x in f <==> x in c) && (x in f ==> f[x] == c[x]))
      && (q != p ==> p !in f)
      && (if up then n !in f else n in f && f[n] == c[n])
  {
    var u := if up then JoinNext(c, p, true) else c;
    UpMerged(c, p, up);
    if q != p {
      assert u[q] == c[q] && Next(u, q) == p;
      assert Merged(c, p, q, up) == JoinNext(u, q, true);
    }
  }

  lemma UpMerged(c: Chunks, p: nat, up: bool)
    requires p in c && Next(c, p) in c && 0 < c[p].size && c[p].used
    ensures var u := if up then JoinNext(c, p, true) else c; var n := Next(c, p);
      && p in u && u[p] == Chunk(c[p].size + (if up then c[n].size else 0), true)
      && (forall x :: x != p && x != n ==> (x in u <==> x in c) && (x in u ==> u[x] == c[x]))
      && (if up then n !in u else n in u && u[n] == c[n])
  {
  }

  lemma MergedBins(bins': Bins, c: Chunks, base: nat, top: nat, p: nat, q: nat, up: bool)
    requires Mergeable(c, base, top, p, q)
    requires BinnedBut(bins', c, if up then {top, q, p, Next(c, p)} else {top, q, p})
    ensures BinnedBut(bins', Merged(c, p, q, up), {MergedTop(c, top, p, q, up), q})
  {
    MergedShape(c, base, top, p, q, up);
    var f, n, t := Merged(c, p, q, up), Next(c, p), MergedTop(c, top, p, q, up);
    var x := if up then {top, q, p, n} else {top, q, p};
    hide Merged;
    BinnedTransfer(bins', c, f, x);
    var y := if q == p then x else x - {p};
    if q != p { BinnedShrink(bins', f, x, p); }
    var z := if up then y - {n} else y;
    if up { BinnedShrink(bins', f, y, n); }
    assert n != q && n != p;
    assert z == {t, q};
  }

  lemma MergedLive(c: Chunks, base: nat, top: nat, p: nat, q: nat, up: bool)
    requires Mergeable(c, base, top, p, q)
    ensures Live(Merged(c, p, q, up)) == Live(c) - {p} - (if up then {Next(c, p)} else {}) + {q}
  {
    MergedShape(c, base, top, p, q, up);
    var f, n := Merged(c, p, q, up), Next(c, p);
    hide Merged;
    forall x ensures x in Live(f) <==> x in Live(c) - {p} - (if up then {n} else {}) + {q} {
    }
  }

  lemma MergedPrev(c: Chunks, base: nat, top: nat, end: nat, p: nat, q: nat, up: bool)
    requires Tiled(c, base, top, end) && Mergeable(c, base, top, p, q)
    ensures q in Merged(c, p, q, up)
    ensures PrevUsed(Merged(c, p, q, up), base, q) <==> PrevUsed(c, base, q)
  {
    MergedShape(c, base, top, p, q, up);
    var f, n := Merged(c, p, q, up), Next(c, p);
    hide Merged;
    if q != base {
      assert HasPrev(c, q);
      var r :| r in c && Next(c, r) == q;
      assert r != p && r != q && r != n;
      assert Next(f, r) == q;
      UniquePrevUsed(c, base, top, end, r, q);
      OnlyPrev(c, f, base, top, end, p, q, n, r);
    }
  }

  lemma OnlyPrev(c: Chunks, f: Chunks, base: nat, top: nat, end: nat, p: nat, q: nat, n: nat, r: nat)
    requires Tiled(c, base, top, end) && p in c && q in c && q <= p < n && r in c && Next(c, r) == q
    requires r != p && r != q && r != n && r in f && f[r] == c[r] && q != base
    requires forall x :: x in f && x in {p, q, n} ==> 0 < f[x].size
    requires forall x :: x != p && x != q && x != n ==> (x in f <==> x in c) && (x in f ==> f[x] == c[x])
    ensures PrevUsed(f, base, q) <==> c[r].used
  {
    assert Next(f, r) == q;
    forall s | s in f && Next(f, s) == q && s != p && s != q && s != n ensures s == r {
      assert Next(c, s) == q;
      PrevUnique(c, base, top, end, s, r);
    }
  }

  /** The merged chunk, ending at top, is cut: its front is kept in use and the
      rest becomes top. */
  lemma WorkEndTop(a: Arena, x: nat, n: nat, m': Mem)
    requires Work(a, x) && x == a.top && SameOutside(a.m, m', x + 8, Next(a.c, x) + 16)
    requires 32 <= n && Aligned(n) && 32 + n <= a.c[x].size
    requires x + 8 in m' && m'[x + 8] == n + Bit(PrevUsed(a.c, a.base, x))
    requires x + n in m' && x + n + 8 in m' && m'[x + n + 8] == a.c[x].size - n + 1
    requires Words(m', a.base, a.end)
    ensures x + n !in a.c
    ensures Layout(a.(m := m', c := SplitAt(a.c, x, n, true, false), top := x + n))
    ensures Tagged(m', SplitAt(a.c, x, n, true, false), a.base, x + n)
  {
    var d := SplitAt(a.c, x, n, true, false);
    SplitNexts(a.c, a.base, a.top, a.end, x, n, true, false);
    assert Boundary(m', d, x, x + n);
    SealSplit(a.m, m', a.c, a.base, a.top, a.end, x, n, true, false);
    assert Coalesced(d, x + n) by {
      forall p {:trigger Next(d, p)} | p in d && p != x + n && !d[p].used ensures d[Next(d, p)].used {
        assert p in a.c && Next(d, p) == Next(a.c, p);
      }
    }
  }

  lemma MergedKeeps(a: Arena, p: nat, q: nat, up: bool, f: Chunks, t: nat, m': Mem)
    requires Tiled(a.c, a.base, a.top, a.end) && Mergeable(a.c, a.base, a.top, p, q)
    requires Tiled(f, a.base, t, a.end) && q in f
    requires forall x :: x in a.c && a.c[x].used && x != p && (up ==> x != Next(a.c, p)) ==> x in f && f[x] == a.c[x] && x != q
    requires SameOutside(a.m, m', q + 8, Next(f, q) + 16)
    ensures Keeps(a, a.(m := m', c := f), if up then {p, Next(a.c, p)} else {p})
  {
    forall x | x in a.c && a.c[x].used && x !in (if up then {p, Next(a.c, p)} else {p})
      ensures x in f && f[x] == a.c[x] && SamePayload(a.m, m', x, a.c[x].size)
    {
      assert if x < q then x + f[x].size <= q else Next(f, q) <= x;
    }
  }

  /** The first len bytes of user data at p are found at p' afterwards. */
  ghost predicate Carried(m: Mem, p: nat, m': Mem, p': nat, len: nat) {
    forall w: nat :: p + 16 <= w < p + 16 + len && OnWord(w) && w in m ==> w - p + p' in m' && m'[w - p + p'] == m[w]
  }

  lemma CarriedOn(m: Mem, p: nat, m1: Mem, q: nat, m2: Mem, len: nat, len': nat)
    requires Carried(m, p, m1, q, len) && len' <= len
    requires forall w: nat :: q + 16 <= w < q + 16 + len' && w in m1 ==> w in m2 && m2[w] == m1[w]
    ensures Carried(m, p, m2, q, len')
  {
  }

  /** The words above a chunk in use of size sz at q are written. */
  ghost predicate EndTags(a: Arena, m': Mem, q: nat, sz: nat) {
    && SameOutside(a.m, m', q + 8, q + sz + 16) && Words(m', a.base, a.end)
    && q + sz in a.c && q + sz in m' && q + sz + 8 in m' && m'[q + sz + 8] == a.c[q + sz].size + 1
  }

  /** All tags written for the merged chunk q, which stays whole. */
  lemma ResizeWhole(a: Arena, p: nat, q: nat, up: bool, bins': Bins, m': Mem)
    requires Mergeable(a.c, a.base, a.top, p, q) && (up ==> Next(a.c, p) != a.top)
    requires BinnedBut(bins', a.c, if up then {a.top, q, p, Next(a.c, p)} else {a.top, q, p})
    requires EndTags(a, m', q, MergedSize(a.c, p, q, up))
    requires q + 8 in m' && m'[q + 8] == MergedSize(a.c, p, q, up) + Bit(PrevUsed(a.c, a.base, q))
    requires Ok(a)
    ensures Ok(Arena(m', Merged(a.c, p, q, up), bins', a.base, a.top, a.end))
    ensures Keeps(a, a.(m := m', c := Merged(a.c, p, q, up)), if up then {p, Next(a.c, p)} else {p})
  {
    hide Ok, Work, BinnedBut, Tagged, Tiled, Keeps, Merged, Words, Layout;
    MergedWork(a, p, q, up);
    MergedShape(a.c, a.base, a.top, p, q, up);
    ResizeFacts(a, p, q, up);
    MergedPrev(a.c, a.base, a.top, a.end, p, q, up);
    var f, sz := Merged(a.c, p, q, up), MergedSize(a.c, p, q, up);
    assert Next(f, q) == q + sz && f[q + sz] == a.c[q + sz];
    assert Boundary(m', f, q, q + sz);
    WorkEnd(a.(c := f), q, m');
    MergedKeeps(a, p, q, up, f, a.top, m');
    MergedBins(bins', a.c, a.base, a.top, p, q, up);
    BinnedShrink(bins', f, {a.top, q}, q);
    assert {a.top, q} - {q} == {a.top};
    WholeDone(a.(m := m', c := f), bins');
  }

  lemma WholeDone(a: Arena, bins': Bins)
    requires Layout(a) && Tagged(a.m, a.c, a.base, a.top) && BinnedBut(bins', a.c, {a.top})
    ensures Ok(a.(bins := bins'))
  {
  }

  lemma ResizeFacts(a: Arena, p: nat, q: nat, up: bool)
    requires Ok(a) && Mergeable(a.c, a.base, a.top, p, q) && (up ==> Next(a.c, p) != a.top)
    requires Work(a.(c := Merged(a.c, p, q, up)), q)
    ensures Tiled(a.c, a.base, a.top, a.end) && Tiled(Merged(a.c, p, q, up), a.base, a.top, a.end)
    ensures q != a.top && q + MergedSize(a.c, p, q, up) in a.c && q + MergedSize(a.c, p, q, up) in Merged(a.c, p, q, up)
    ensures q + MergedSize(a.c, p, q, up) !in (if up then {p, q, Next(a.c, p)} else {p, q})
    ensures Words(a.m, a.base, a.end)
  {
    hide *;
    MergeDomain(a, p, q);
    WorkTiled(a.(c := Merged(a.c, p, q, up)), q);
    OkTiled(a);
    WordsOf(a);
    MergedAbove(a.c, a.base, a.top, a.end, p, q, up);
  }

  lemma WordsOf(a: Arena)
    requires Ok(a)
    ensures Words(a.m, a.base, a.end)
  {
  }

  lemma MergedAbove(c: Chunks, base: nat, top: nat, end: nat, p: nat, q: nat, up: bool)
    requires Tiled(c, base, top, end) && Mergeable(c, base, top, p, q) && (up ==> Next(c, p) != top)
    ensures p in c && Next(c, p) in c && 0 < c[p].size && (q == p || (q in c && q < p && Next(c, q) == p))
    ensures q != top && q + MergedSize(c, p, q, up) in c && q + MergedSize(c, p, q, up) in Merged(c, p, q, up)
    ensures q + MergedSize(c, p, q, up) !in (if up then {p, q, Next(c, p)} else {p, q})
  {
    MergedShape(c, base, top, p, q, up);
    hide Merged;
    var n := Next(c, p);
    if up {
      assert Next(c, n) in c && n < Next(c, n);
    }
  }

  /** All tags written for the merged chunk q cut into two chunks in use. */
  lemma ResizeSplit(a: Arena, p: nat, q: nat, up: bool, nb: nat, bins': Bins, m': Mem)
    requires Mergeable(a.c, a.base, a.top, p, q) && (up ==> Next(a.c, p) != a.top)
    requires BinnedBut(bins', a.c, if up then {a.top, q, p, Next(a.c, p)} else {a.top, q, p})
    requires Aligned(nb) && 32 <= nb && nb + 32 <= MergedSize(a.c, p, q, up)
    requires EndTags(a, m', q, MergedSize(a.c, p, q, up))
    requires q + 8 in m' && m'[q + 8] == nb + Bit(PrevUsed(a.c, a.base, q))
    requires q + nb in m' && q + nb + 8 in m' && m'[q + nb + 8] == MergedSize(a.c, p, q, up) - nb + 1
    requires Ok(a)
    ensures q in Merged(a.c, p, q, up) && Merged(a.c, p, q, up)[q].size == MergedSize(a.c, p, q, up)
    ensures Ok(Arena(m', SplitAt(Merged(a.c, p, q, up), q, nb, true, true), bins', a.base, a.top, a.end))
    ensures Keeps(a, a.(m := m', c := SplitAt(Merged(a.c, p, q, up), q, nb, true, true)), if up then {p, Next(a.c, p)} else {p})
    ensures q + nb !in Merged(a.c, p, q, up)
  {
    hide *;
    MergeDomain(a, p, q);
    MergedWork(a, p, q, up);
    OkTiled(a);
    MergedRest(a.c, a.base, a.top, a.end, p, q, up);
    ResizeFacts(a, p, q, up);
    MergedPrev(a.c, a.base, a.top, a.end, p, q, up);
    var f := Merged(a.c, p, q, up);
    SplitTags(a, f, q, MergedSize(a.c, p, q, up), nb, m');
    var d := SplitAt(f, q, nb, true, true);
    WorkEndSplit(a.(c := f), q, nb, m');
    MergedKeeps(a, p, q, up, f, a.top, m');
    KeepsSplit(a, m', f, q, nb, if up then {p, Next(a.c, p)} else {p});
    MergedBins(bins', a.c, a.base, a.top, p, q, up);
    SplitUsedBins(bins', f, {a.top, q}, q, nb);
    assert {a.top, q} - {q} == {a.top};
    WholeDone(a.(m := m', c := d), bins');
  }

  /** The tags that EndTags and the size fields of both parts amount to. */
  lemma SplitTags(a: Arena, f: Chunks, q: nat, sz: nat, nb: nat, m': Mem)
    requires Tiled(f, a.base, a.top, a.end) && q in f && f[q] == Chunk(sz, true) && 32 <= nb && nb + 32 <= sz
    requires q + sz in a.c && q + sz in f && f[q + sz] == a.c[q + sz] && EndTags(a, m', q, sz)
    requires q + nb in m' && q + nb + 8 in m' && m'[q + nb + 8] == sz - nb + 1
    ensures q + nb !in f && Next(f, q) == q + sz
    ensures Boundary(m', SplitAt(f, q, nb, true, true), q, q + nb) && Boundary(m', SplitAt(f, q, nb, true, true), q + nb, q + sz)
    ensures SameOutside(a.m, m', q + 8, Next(f, q) + 16) && Words(m', a.base, a.end)
  {
    hide Aligned, Words, SameOutside;
  }

  /** What merging leaves as it was. */
  lemma MergedRest(c: Chunks, base: nat, top: nat, end: nat, p: nat, q: nat, up: bool)
    requires Tiled(c, base, top, end) && Mergeable(c, base, top, p, q) && (up ==> Next(c, p) != top)
    ensures p in c && Next(c, p) in c && 0 < c[p].size && (q == p || (q in c && q < p && Next(c, q) == p))
    ensures var f, sz := Merged(c, p, q, up), MergedSize(c, p, q, up);
      && MergedTop(c, top, p, q, up) == top && q in f && f[q] == Chunk(sz, true)
      && q + sz in c && q + sz in f && f[q + sz] == c[q + sz]
      && (q in c && c[q].used ==> q == p)
      && (forall x :: x in c && c[x].used && x != p && (up ==> x != Next(c, p)) ==> x in f && f[x] == c[x] && x != q)
  {
    MergedShape(c, base, top, p, q, up);
    MergedAbove(c, base, top, end, p, q, up);
    hide Merged, Tiled, MergedSize;
  }

  lemma KeepsSplit(a: Arena, m': Mem, f: Chunks, q: nat, nb: nat, x: set<nat>)
    requires Keeps(a, a.(m := m', c := f), x) && q in f && nb <= f[q].size && q + nb !in f
    requires q in a.c && a.c[q].used ==> q in x
    ensures Keeps(a, a.(m := m', c := SplitAt(f, q, nb, true, true)), x)
  {
  }

  // ----- growing into top -----

  function TopCut(c: Chunks, top: nat, p: nat, q: nat, nb: nat): Chunks
    requires p in c && Next(c, p) in c && 0 < c[p].size
    requires q == p || (q in c && q < p && Next(c, q) == p)
    requires q in Merged(c, p, q, true) && nb <= Merged(c, p, q, true)[q].size
  {
    SplitAt(Merged(c, p, q, true), q, nb, true, false)
  }

  lemma IntoTop(a: Arena, p: nat, q: nat, nb: nat, bins': Bins, m': Mem)
    requires Mergeable(a.c, a.base, a.top, p, q) && Next(a.c, p) == a.top
    requires BinnedBut(bins', a.c, {a.top, q, p})
    requires Aligned(nb) && 32 <= nb && nb + 32 <= MergedSize(a.c, p, q, true)
    requires SameOutside(a.m, m', q + 8, a.end + 16) && Words(m', a.base, a.end)
    requires q + 8 in m' && m'[q + 8] == nb + Bit(PrevUsed(a.c, a.base, q))
    requires q + nb in m' && q + nb + 8 in m' && m'[q + nb + 8] == MergedSize(a.c, p, q, true) - nb + 1
    requires Ok(a)
    ensures q in Merged(a.c, p, q, true) && Merged(a.c, p, q, true)[q].size == MergedSize(a.c, p, q, true)
    ensures Ok(Arena(m', TopCut(a.c, a.top, p, q, nb), bins', a.base, q + nb, a.end))
    ensures Keeps(a, a.(m := m', c := TopCut(a.c, a.top, p, q, nb)), {p})
    ensures Live(TopCut(a.c, a.top, p, q, nb)) == Live(a.c) - {p} + {q}
  {
    hide Ok, Work, BinnedBut, Tagged, Tiled, Keeps, Merged, Words, Layout;
    MergedWork(a, p, q, true);
    MergedShape(a.c, a.base, a.top, p, q, true);
    TopFacts(a, p, q);
    MergedPrev(a.c, a.base, a.top, a.end, p, q, true);
    var f := Merged(a.c, p, q, true);
    WorkEndTop(a.(c := f, top := q), q, nb, m');
    MergedKeeps(a, p, q, true, f, q, m');
    KeepsCut(a, m', f, q, nb, p);
    assert {a.top, q, p, a.top} == {a.top, q, p} && {q, q} == {q};
    MergedBins(bins', a.c, a.base, a.top, p, q, true);
    CutBins(bins', f, q, nb);
    MergedLive(a.c, a.base, a.top, p, q, true);
    CutLive(f, q, nb);
    assert Live(a.c) - {p} - {a.top} + {q} == Live(a.c) - {p} + {q};
    OkCut(Arena(m', SplitAt(f, q, nb, true, false), bins', a.base, q + nb, a.end), a.bins);
  }

  lemma OkCut(a: Arena, bins: Bins)
    requires Layout(a.(bins := bins)) && Tagged(a.m, a.c, a.base, a.top) && BinnedBut(a.bins, a.c, {a.top})
    ensures Ok(a)
  {
  }

  lemma TopFacts(a: Arena, p: nat, q: nat)
    requires Ok(a) && Mergeable(a.c, a.base, a.top, p, q) && Next(a.c, p) == a.top
    requires Work(a.(c := Merged(a.c, p, q, true), top := q), q)
    ensures Tiled(a.c, a.base, a.top, a.end) && Tiled(Merged(a.c, p, q, true), a.base, q, a.end)
    ensures q + MergedSize(a.c, p, q, true) == a.end && !a.c[a.top].used
  {
  }

  lemma CutBins(bins: Bins, f: Chunks, q: nat, nb: nat)
    requires BinnedBut(bins, f, {q}) && q in f && nb <= f[q].size && q + nb !in f
    ensures BinnedBut(bins, SplitAt(f, q, nb, true, false), {q + nb})
  {
    var d := SplitAt(f, q, nb, true, false);
    BinnedGrow(bins, f, {q}, q + nb);
    BinnedTransfer(bins, f, d, {q} + {q + nb});
    BinnedShrink(bins, d, {q} + {q + nb}, q);
    assert {q} + {q + nb} - {q} == {q + nb};
  }

  lemma CutLive(f: Chunks, q: nat, nb: nat)
    requires q in f && f[q].used && nb <= f[q].size && q + nb !in f
    ensures Live(SplitAt(f, q, nb, true, false)) == Live(f)
  {
  }

  lemma KeepsCut(a: Arena, m': Mem, f: Chunks, q: nat, nb: nat, p: nat)
    requires q in f && nb <= f[q].size && q + nb !in f
    requires p in a.c && Next(a.c, p) in a.c && Keeps(a, a.(m := m', c := f), {p, Next(a.c, p)})
    requires p in a.c && Next(a.c, p) in a.c && !a.c[Next(a.c, p)].used
    requires q in a.c && a.c[q].used ==> q == p
    ensures Keeps(a, a.(m := m', c := SplitAt(f, q, nb, true, false)), {p})
  {
  }

  // ----- the words that realloc writes -----

  /** Memory m1 differs from a's only in the user data area that starts at q. */
  ghost predicate Moved(a: Arena, m1: Mem, q: nat, hi: nat) {
    SameOutside(a.m, m1, q + 16, hi + 8) && Words(m1, a.base, a.end)
  }

  /** Reading the size field of q and the one above the merged chunk. */
  lemma ReadEnds(a: Arena, m1: Mem, p: nat, q: nat, up: bool)
    requires Mergeable(a.c, a.base, a.top, p, q) && (up ==> Next(a.c, p) != a.top)
    requires Moved(a, m1, q, q + MergedSize(a.c, p, q, up))
    requires Ok(a)
    ensures q + 8 in m1 && Bit(PrevInUse(m1[q + 8])) == Bit(PrevUsed(a.c, a.base, q))
    ensures q + MergedSize(a.c, p, q, up) in a.c && q + MergedSize(a.c, p, q, up) in m1
    ensures q + MergedSize(a.c, p, q, up) + 8 in m1
    ensures WithBit(m1[q + MergedSize(a.c, p, q, up) + 8]) == a.c[q + MergedSize(a.c, p, q, up)].size + 1
    ensures 32 <= MergedSize(a.c, p, q, up) && a.c[p].size <= MergedSize(a.c, p, q, up)
  {
    hide *;
    OkParts(a);
    MergeDomain(a, p, q);
    MergedEnd(a, p, q, up);
    var e := q + MergedSize(a.c, p, q, up);
    ReadHead(a.m, a.c, a.base, a.top, a.end, q);
    ReadHead(a.m, a.c, a.base, a.top, a.end, e);
    InBounds(a.c, a.base, a.top, a.end, e);
    HeadSize(a, e);
    MovedWords(a, m1, q, e);
  }

  lemma MergeDomain(a: Arena, p: nat, q: nat)
    requires Mergeable(a.c, a.base, a.top, p, q)
    ensures p in a.c && Next(a.c, p) in a.c && q in a.c && 0 < a.c[p].size && (q == p || (q < p && Next(a.c, q) == p))
  {
  }

  lemma MovedWords(a: Arena, m1: Mem, q: nat, e: nat)
    requires Moved(a, m1, q, e) && q + 8 in a.m && e + 8 in a.m && e in a.m && q + 32 <= e
    requires OnWord(e) && a.base <= e < a.end
    ensures q + 8 in m1 && m1[q + 8] == a.m[q + 8] && e + 8 in m1 && m1[e + 8] == a.m[e + 8] && e in m1
  {
  }

  lemma OkParts(a: Arena)
    requires Ok(a)
    ensures Tiled(a.c, a.base, a.top, a.end) && Tagged(a.m, a.c, a.base, a.top) && Layout(a)
  {
  }

  lemma HeadSize(a: Arena, e: nat)
    requires Tiled(a.c, a.base, a.top, a.end) && Tagged(a.m, a.c, a.base, a.top) && e in a.c
    ensures e + 8 in a.m && WithBit(a.m[e + 8]) == a.c[e].size + 1
  {
    ReadHead(a.m, a.c, a.base, a.top, a.end, e);
    SizeAligned(a.c, a.base, a.top, a.end, e);
    hide Tagged, Tiled, Aligned, SizeOf, WithBit, PrevInUse;
    BitSet(a.c[e].size, PrevInUse(a.m[e + 8]));
  }

  lemma MergedEnd(a: Arena, p: nat, q: nat, up: bool)
    requires Mergeable(a.c, a.base, a.top, p, q) && (up ==> Next(a.c, p) != a.top)
    requires Ok(a)
    ensures q + MergedSize(a.c, p, q, up) in a.c && q + MergedSize(a.c, p, q, up) in a.m
    ensures OnWord(q + MergedSize(a.c, p, q, up)) && a.base <= q + MergedSize(a.c, p, q, up) < a.end
    ensures 32 <= a.c[p].size <= MergedSize(a.c, p, q, up)
  {
    var n := Next(a.c, p);
    var e := q + MergedSize(a.c, p, q, up);
    if up {
      assert e == Next(a.c, n) && e in a.c;
    } else {
      assert e == n;
    }
    assert Aligned(e);
    AlignedWord(e);
    assert e in a.m;
  }

  lemma SplitWords(a: Arena, m1: Mem, p: nat, q: nat, up: bool, nb: nat, m': Mem, old_len: nat)
    requires Mergeable(a.c, a.base, a.top, p, q) && (up ==> Next(a.c, p) != a.top)
    requires Moved(a, m1, q, q + MergedSize(a.c, p, q, up)) && 8 <= old_len && Carried(a.m, p, m1, q, old_len - 8)
    requires Aligned(nb) && 32 <= nb && nb + 32 <= MergedSize(a.c, p, q, up)
    requires var sz := MergedSize(a.c, p, q, up);
      q + sz in a.c && q + sz in m1
      && m' == m1[q + 8 := nb + Bit(PrevUsed(a.c, a.base, q))][q + nb + 8 := sz - nb + 1][q + sz + 8 := a.c[q + sz].size + 1]
    requires Tiled(a.c, a.base, a.top, a.end)
    ensures EndTags(a, m', q, MergedSize(a.c, p, q, up))
    ensures q + 8 in m' && m'[q + 8] == nb + Bit(PrevUsed(a.c, a.base, q))
    ensures q + nb in m' && q + nb + 8 in m' && m'[q + nb + 8] == MergedSize(a.c, p, q, up) - nb + 1
    ensures Carried(a.m, p, m', q, Min(old_len, nb) - 8)
  {
    hide Tiled, Aligned, PrevUsed, MergedSize, OnWord, Words;
    var sz := MergedSize(a.c, p, q, up);
    InBounds(a.c, a.base, a.top, a.end, q);
    InBounds(a.c, a.base, a.top, a.end, q + sz);
    AlignedSum(q, nb);
    AlignedWord(q + nb);
    WordIn(m1, a.base, a.end, q + nb);
    WordsSet(m1, a.base, a.end, q + 8, nb + Bit(PrevUsed(a.c, a.base, q)));
    WordsSet(m1[q + 8 := nb + Bit(PrevUsed(a.c, a.base, q))], a.base, a.end, q + nb + 8, sz - nb + 1);
    WordsSet(m1[q + 8 := nb + Bit(PrevUsed(a.c, a.base, q))][q + nb + 8 := sz - nb + 1], a.base, a.end, q + sz + 8, a.c[q + sz].size + 1);
    CarriedOn(a.m, p, m1, q, m', old_len - 8, Min(old_len, nb) - 8);
  }

  lemma WordIn(m: Mem, base: nat, end: nat, w: nat)
    requires Words(m, base, end) && base <= w < end && OnWord(w)
    ensures w in m
  {
  }

  lemma WholeWords(a: Arena, m1: Mem, p: nat, q: nat, up: bool, m': Mem, old_len: nat)
    requires Mergeable(a.c, a.base, a.top, p, q)
    requires Moved(a, m1, q, q + MergedSize(a.c, p, q, up)) && 8 <= old_len && Carried(a.m, p, m1, q, old_len - 8)
    requires 32 <= MergedSize(a.c, p, q, up)
    requires var sz := MergedSize(a.c, p, q, up);
      q + sz in a.c && q + sz in m1
      && m' == m1[q + 8 := sz + Bit(PrevUsed(a.c, a.base, q))][q + sz + 8 := a.c[q + sz].size + 1]
    ensures EndTags(a, m', q, MergedSize(a.c, p, q, up))
    ensures q + 8 in m' && m'[q + 8] == MergedSize(a.c, p, q, up) + Bit(PrevUsed(a.c, a.base, q))
    ensures Carried(a.m, p, m', q, Min(old_len, MergedSize(a.c, p, q, up)) - 8)
  {
    var sz := MergedSize(a.c, p, q, up);
    hide PrevUsed, MergedSize, OnWord;
    CarriedOn(a.m, p, m1, q, m', old_len - 8, Min(old_len, sz) - 8);
  }

  /** The neighbours named by q and up are off their lists and the user data of
      p are at q; memory is m1 and the lists are bins'. */
  ghost predicate Joined(a: Arena, m1: Mem, bins': Bins, p: nat, q: nat, up: bool, newsize: nat, prev_inuse: nat) {
    && Mergeable(a.c, a.base, a.top, p, q) && (up ==> Next(a.c, p) != a.top)
    && newsize == MergedSize(a.c, p, q, up) && 32 <= newsize && a.c[p].size <= newsize
    && BinnedBut(bins', a.c, if up then {a.top, q, p, Next(a.c, p)} else {a.top, q, p})
    && Moved(a, m1, q, q + newsize) && 8 <= a.c[p].size && Carried(a.m, p, m1, q, a.c[p].size - 8)
    && prev_inuse == Bit(PrevUsed(a.c, a.base, q)) && q + newsize in a.c && q + newsize in m1 && q + newsize + 8 in m1
    && WithBit(m1[q + newsize + 8]) == a.c[q + newsize].size + 1
    && Ok(a)
  }

  lemma JoinedIs(a: Arena, m1: Mem, bins': Bins, p: nat, q: nat, up: bool, newsize: nat, prev_inuse: nat)
    requires Mergeable(a.c, a.base, a.top, p, q) && (up ==> Next(a.c, p) != a.top)
    requires newsize == MergedSize(a.c, p, q, up) && 32 <= newsize && a.c[p].size <= newsize
    requires BinnedBut(bins', a.c, if up then {a.top, q, p, Next(a.c, p)} else {a.top, q, p})
    requires Moved(a, m1, q, q + newsize) && 8 <= a.c[p].size && Carried(a.m, p, m1, q, a.c[p].size - 8)
    requires prev_inuse == Bit(PrevUsed(a.c, a.base, q)) && q + newsize in a.c && q + newsize in m1 && q + newsize + 8 in m1
    requires WithBit(m1[q + newsize + 8]) == a.c[q + newsize].size + 1
    requires Ok(a)
    ensures Joined(a, m1, bins', p, q, up, newsize, prev_inuse)
  {
    hide BinnedBut, Ok, Moved, Carried, WithBit, PrevUsed, Mergeable, MergedSize;
  }

  lemma JoinedParts(a: Arena, m1: Mem, bins': Bins, p: nat, q: nat, up: bool, newsize: nat, prev_inuse: nat)
    requires Joined(a, m1, bins', p, q, up, newsize, prev_inuse)
    ensures Mergeable(a.c, a.base, a.top, p, q) && (up ==> Next(a.c, p) != a.top) && p in a.c && Next(a.c, p) in a.c
    ensures 32 <= a.c[p].size && (q == p || (q in a.c && q < p && Next(a.c, q) == p))
    ensures newsize == MergedSize(a.c, p, q, up) && 32 <= newsize && a.c[p].size <= newsize
    ensures BinnedBut(bins', a.c, if up then {a.top, q, p, Next(a.c, p)} else {a.top, q, p})
    ensures Moved(a, m1, q, q + newsize) && 8 <= a.c[p].size && Carried(a.m, p, m1, q, a.c[p].size - 8)
    ensures prev_inuse == Bit(PrevUsed(a.c, a.base, q)) && q + newsize in a.c && q + newsize in m1 && q + newsize + 8 in m1
    ensures WithBit(m1[q + newsize + 8]) == a.c[q + newsize].size + 1
    ensures q in Merged(a.c, p, q, up) && Merged(a.c, p, q, up)[q] == Chunk(newsize, true)
    ensures Ok(a) && Tiled(a.c, a.base, a.top, a.end)
  {
    hide BinnedBut, Moved, Carried, WithBit, PrevUsed, MergedSize, Merged, Ok, Tiled;
    OkTiled(a);
    MinSize(a.c, a.base, a.top, a.end, p);
    MergedRest(a.c, a.base, a.top, a.end, p, q, up);
  }

  /** From a to b, the chunk at q was made from p and the neighbours named by q
      and up; it holds nb bytes or a little more, and p's data at its front. */
  ghost predicate Resized(a: Arena, b: Arena, p: nat, q: nat, up: bool, nb: nat) {
    && Mergeable(a.c, a.base, a.top, p, q) && q in b.c && b.c[q].used && nb <= b.c[q].size < nb + 32
    && Live(b.c) == Live(a.c) - {p} - (if up then {Next(a.c, p)} else {}) + {q}
    && Keeps(a, b, if up then {p, Next(a.c, p)} else {p})
    && 8 <= a.c[p].size && 8 <= b.c[q].size && Carried(a.m, p, b.m, q, Min(a.c[p].size, b.c[q].size) - 8)
  }

  lemma ResizedIs(a: Arena, b: Arena, p: nat, q: nat, up: bool, nb: nat, size: nat)
    requires Mergeable(a.c, a.base, a.top, p, q) && p in a.c && Next(a.c, p) in a.c
    requires 0 < a.c[p].size && (q == p || (q in a.c && q < p && Next(a.c, q) == p))
    requires q in b.c && b.c[q] == Chunk(size, true) && nb <= size < nb + 32 && 32 <= size
    requires Live(b.c) == Live(Merged(a.c, p, q, up))
    requires Keeps(a, b, if up then {p, Next(a.c, p)} else {p})
    requires 8 <= a.c[p].size && Carried(a.m, p, b.m, q, Min(a.c[p].size, size) - 8)
    ensures Resized(a, b, p, q, up, nb)
  {
    MergedLive(a.c, a.base, a.top, p, q, up);
    hide Merged, Mergeable, Keeps, Carried, Live;
  }

  lemma ResizedMeans(a: Arena, b: Arena, p: nat, q: nat, up: bool, nb: nat)
    requires Resized(a, b, p, q, up, nb)
    ensures p in a.c && q in b.c && b.c[q].used && nb <= b.c[q].size < nb + 32 && 8 <= a.c[p].size && 8 <= b.c[q].size
    ensures Live(b.c) == Live(a.c) - {p} - (if up then {Next(a.c, p)} else {}) + {q}
    ensures Keeps(a, b, if up then {p, Next(a.c, p)} else {p})
    ensures Carried(a.m, p, b.m, q, Min(a.c[p].size, b.c[q].size) - 8)
  {
    hide Keeps, Carried, Live;
  }

  /** From b, where the merged chunk was cut, to c, where its rest is free. */
  lemma CutDone(a: Arena, b: Arena, c: Arena, p: nat, q: nat, up: bool, nb: nat, newsize: nat)
    requires Mergeable(a.c, a.base, a.top, p, q) && p in a.c && Next(a.c, p) in a.c
    requires 32 <= a.c[p].size && (q == p || (q in a.c && q < p && Next(a.c, q) == p))
    requires q in Merged(a.c, p, q, up) && Merged(a.c, p, q, up)[q] == Chunk(newsize, true) && 32 <= nb < newsize
    requires q + nb !in Merged(a.c, p, q, up) && b.c == SplitAt(Merged(a.c, p, q, up), q, nb, true, true)
    requires Keeps(a, b, if up then {p, Next(a.c, p)} else {p})
    requires Carried(a.m, p, b.m, q, Min(a.c[p].size, nb) - 8)
    requires Live(c.c) == Live(b.c) - {q + nb} && Keeps(b, c, {q + nb})
    ensures Resized(a, c, p, q, up, nb)
  {
    hide *;
    var f, x := Merged(a.c, p, q, up), if up then {p, Next(a.c, p)} else {p};
    MinIs(a.c[p].size, nb);
    SplitLive(f, q, nb);
    SplitParts(f, q, nb);
    CarriedKept(a.m, p, b, c, q, Min(a.c[p].size, nb), {q + nb});
    MergedStays(a, p, q, up);
    KeepsAfterCut(a, b, c, f, x, q + nb);
    ResizedIs(a, c, p, q, up, nb, nb);
  }

  lemma MinIs(a: nat, b: nat)
    ensures Min(a, b) == if a < b then a else b
  {
  }

  lemma MergedStays(a: Arena, p: nat, q: nat, up: bool)
    requires Mergeable(a.c, a.base, a.top, p, q) && p in a.c && Next(a.c, p) in a.c
    requires 0 < a.c[p].size && (q == p || (q in a.c && q < p && Next(a.c, q) == p))
    ensures forall x :: x in a.c && a.c[x].used && x !in (if up then {p, Next(a.c, p)} else {p}) ==> x in Merged(a.c, p, q, up)
  {
    MergedShape(a.c, a.base, a.top, p, q, up);
    hide Merged;
  }

  /** The data also survive whatever else is done to other chunks. */
  lemma CarriedKept(m: Mem, p: nat, a: Arena, b: Arena, q: nat, len: nat, x: set<nat>)
    requires q in a.c && a.c[q].used && q !in x && Keeps(a, b, x) && 8 <= len <= a.c[q].size && Carried(m, p, a.m, q, len - 8)
    ensures q in b.c && b.c[q] == a.c[q] && Carried(m, p, b.m, q, len - 8)
  {
    assert SamePayload(a.m, b.m, q, a.c[q].size);
    forall w: nat | q + 16 <= w < q + 16 + (len - 8) && w in a.m ensures w in b.m && b.m[w] == a.m[w] {
      assert InPayload(w, q, a.c[q].size);
    }
    CarriedOn(m, p, a.m, q, b.m, len - 8, len - 8);
  }

  lemma MovedBy(a: Arena, m1: Mem, p: nat, q: nat, oldsize: nat, newsize: nat)
    requires SameOutside(a.m, m1, q + 16, q + oldsize + 8) && Words(m1, a.base, a.end) && oldsize <= newsize
    ensures Moved(a, m1, q, q + newsize)
  {
  }

  lemma MovedNot(a: Arena, p: nat, newsize: nat)
    requires Words(a.m, a.base, a.end) && p in a.c && 8 <= a.c[p].size
    ensures Moved(a, a.m, p, p + newsize) && Carried(a.m, p, a.m, p, a.c[p].size - 8)
  {
  }

  lemma SplitLive(f: Chunks, q: nat, nb: nat)
    requires q in f && f[q].used && nb <= f[q].size && q + nb !in f && 0 < nb
    ensures Live(SplitAt(f, q, nb, true, true)) == Live(f) + {q + nb} && q + nb !in Live(f)
  {
  }

  lemma SplitParts(c: Chunks, p: nat, n: nat)
    requires p in c && c[p].used && 0 < n < c[p].size && p + n !in c
    ensures var d := SplitAt(c, p, n, true, true);
      p in d && d[p] == Chunk(n, true) && p + n in d && d[p + n] == Chunk(c[p].size - n, true)
      && p in Live(d) && p + n in Live(d)
  {
  }

  lemma KeepsAfterCut(a: Arena, b: Arena, c: Arena, f: Chunks, x: set<nat>, r: nat)
    requires Keeps(a, b, x) && Keeps(b, c, {r}) && r !in f
    requires forall p :: p in a.c && a.c[p].used && p !in x ==> p in f
    ensures Keeps(a, c, x)
  {
    forall p | p in a.c && a.c[p].used && p !in x
      ensures p in c.c && c.c[p] == a.c[p] && SamePayload(a.m, c.m, p, a.c[p].size)
    {
      assert p != r && SamePayload(b.m, c.m, p, b.c[p].size);
    }
  }

  lemma TopWords(a: Arena, m1: Mem, p: nat, q: nat, nb: nat, m': Mem, old_len: nat)
    requires Mergeable(a.c, a.base, a.top, p, q) && Next(a.c, p) == a.top
    requires SameOutside(a.m, m1, q + 16, q + old_len + 8) && Words(m1, a.base, a.end)
    requires 8 <= old_len && Carried(a.m, p, m1, q, old_len - 8) && old_len < nb
    requires Aligned(nb) && 32 <= nb && nb + 32 <= MergedSize(a.c, p, q, true)
    requires m' == m1[q + nb + 8 := MergedSize(a.c, p, q, true) - nb + 1][q + 8 := nb + Bit(PrevUsed(a.c, a.base, q))]
    requires Tiled(a.c, a.base, a.top, a.end)
    ensures SameOutside(a.m, m', q + 8, a.end + 16) && Words(m', a.base, a.end)
    ensures q + 8 in m' && m'[q + 8] == nb + Bit(PrevUsed(a.c, a.base, q))
    ensures q + nb in m' && q + nb + 8 in m' && m'[q + nb + 8] == MergedSize(a.c, p, q, true) - nb + 1
    ensures Carried(a.m, p, m', q, old_len - 8)
  {
    hide Tiled, Aligned, PrevUsed, MergedSize, OnWord, Words;
    var sz := MergedSize(a.c, p, q, true);
    EndIsTop(a, p, q);
    InBounds(a.c, a.base, a.top, a.end, q);
    AlignedSum(q, nb);
    AlignedWord(q + nb);
    WordIn(m1, a.base, a.end, q + nb);
    WordsSet(m1, a.base, a.end, q + nb + 8, sz - nb + 1);
    WordsSet(m1[q + nb + 8 := sz - nb + 1], a.base, a.end, q + 8, nb + Bit(PrevUsed(a.c, a.base, q)));
    CarriedOn(a.m, p, m1, q, m', old_len - 8, old_len - 8);
  }

  lemma EndIsTop(a: Arena, p: nat, q: nat)
    requires Mergeable(a.c, a.base, a.top, p, q) && Next(a.c, p) == a.top && Tiled(a.c, a.base, a.top, a.end)
    ensures q in a.c && q + MergedSize(a.c, p, q, true) == a.end
  {
  }

  /** Reading the size field of q while data are moved above it. */
  lemma ReadLow(a: Arena, m1: Mem, q: nat, hi: nat)
    requires q in a.c && SameOutside(a.m, m1, q + 16, hi) && Ok(a)
    ensures q + 8 in m1 && Bit(PrevInUse(m1[q + 8])) == Bit(PrevUsed(a.c, a.base, q))
  {
    ReadHead(a.m, a.c, a.base, a.top, a.end, q);
  }

  lemma NotMoved(m: Mem, p: nat, size: nat)
    requires 8 <= size
    ensures SameOutside(m, m, p + 16, p + size + 8) && Carried(m, p, m, p, size - 8)
  {
  }

  // ----- a chunk in use cut in two -----

  /** The tags around a chunk in use. */
  lemma UsedTags(a: Arena, p: nat)
    requires Ok(a) && p in a.c && a.c[p].used
    ensures var e := p + a.c[p].size;
      p != a.top && e in a.c && p + 8 in a.m && e + 8 in a.m && 32 <= a.c[p].size
      && a.m[e + 8] == a.c[e].size + 1 == WithBit(a.m[e + 8]) && Moved(a, a.m, p, e)
    ensures Bit(PrevInUse(a.m[p + 8])) == Bit(PrevUsed(a.c, a.base, p))
    ensures Mergeable(a.c, a.base, a.top, p, p) && MergedSize(a.c, p, p, false) == a.c[p].size && Merged(a.c, p, p, false) == a.c
    ensures Carried(a.m, p, a.m, p, a.c[p].size - 8)
  {
    ReadHead(a.m, a.c, a.base, a.top, a.end, p);
    assert Boundary(a.m, a.c, p, Next(a.c, p));
    HeadSize(a, Next(a.c, p));
  }

  /** Two of the three words, or all three: the third has its value already. */
  lemma CutMem(a: Arena, p: nat, n: nat, size: nat, m': Mem)
    requires p in a.c && size == a.c[p].size && p + size in a.c && p + size + 8 in a.m && 0 < n < size
    requires a.m[p + size + 8] == a.c[p + size].size + 1
    requires var m1 := a.m[p + 8 := n + Bit(PrevUsed(a.c, a.base, p))][p + n + 8 := size - n + 1];
      m' == m1 || m' == m1[p + size + 8 := a.c[p + size].size + 1]
    ensures m' == a.m[p + 8 := n + Bit(PrevUsed(a.c, a.base, p))][p + n + 8 := size - n + 1][p + size + 8 := a.c[p + size].size + 1]
  {
    hide PrevUsed;
  }

  lemma CutUsed(a: Arena, p: nat, n: nat, size: nat, m': Mem)
    requires p in a.c && a.c[p].used && size == a.c[p].size && p + size in a.c
    requires Aligned(n) && 32 <= n && n + 32 <= size
    requires m' == a.m[p + 8 := n + Bit(PrevUsed(a.c, a.base, p))][p + n + 8 := size - n + 1][p + size + 8 := a.c[p + size].size + 1]
    requires Ok(a)
    ensures Ok(Arena(m', SplitAt(a.c, p, n, true, true), a.bins, a.base, a.top, a.end)) && p + n !in a.c
    ensures Keeps(a, a.(m := m', c := SplitAt(a.c, p, n, true, true)), {p})
  {
    hide *;
    UsedTags(a, p);
    OkParts(a);
    OkBinned(a, p);
    ReadEnds(a, a.m, p, p, false);
    SplitWords(a, a.m, p, p, false, n, m', size);
    ResizeSplit(a, p, p, false, n, a.bins, m');
  }

  lemma OkBinned(a: Arena, p: nat)
    requires Ok(a) && p in a.c && a.c[p].used
    ensures BinnedBut(a.bins, a.c, {a.top, p, p})
  {
    BinnedGrow(a.bins, a.c, {a.top}, p);
    assert {a.top} + {p} == {a.top, p, p};
  }

  // ----- realloc as a whole -----

  /** Chunk p became chunk q of at least nb bytes with the same data, as far as
      they fit, and no other chunk in use was touched. */
  ghost predicate Reallocated(a: Arena, b: Arena, p: nat, q: nat, nb: nat) {
    && p in a.c && q in b.c && b.c[q].used && nb <= b.c[q].size && 8 <= Min(a.c[p].size, b.c[q].size)
    && (q == p || q !in Live(a.c))
    && Live(b.c) == Live(a.c) - {p} + {q}
    && Keeps(a, b, {p})
    && Carried(a.m, p, b.m, q, Min(a.c[p].size, b.c[q].size) - 8)
  }

  /** The room right above chunk p: all of a free chunk, or what top can spare. */
  function RoomUp(c: Chunks, top: nat, p: nat): int
    requires p in c && Next(c, p) in c
  {
    var n := Next(c, p);
    if n == top then c[n].size - 32 else if c[n].used then 0 else c[n].size
  }

  function RoomDown(c: Chunks, p: nat, q: nat): nat
    requires q in c
  {
    if q == p then 0 else c[q].size
  }

  lemma ReallocatedBy(a: Arena, b: Arena, p: nat, q: nat, nb: nat, x: set<nat>)
    requires p in a.c && q in b.c && b.c[q].used && 32 <= nb <= b.c[q].size && 8 <= a.c[p].size
    requires Live(b.c) == Live(a.c) - {p} - x + {q} && x !! Live(a.c) && (q == p || q !in Live(a.c))
    requires Keeps(a, b, {p} + x) && Carried(a.m, p, b.m, q, Min(a.c[p].size, b.c[q].size) - 8)
    ensures Reallocated(a, b, p, q, nb)
  {
    assert Live(a.c) - {p} - x == Live(a.c) - {p};
    forall y | y in a.c && a.c[y].used && y != p
      ensures y in b.c && b.c[y] == a.c[y] && SamePayload(a.m, b.m, y, a.c[y].size)
    {
      assert y in Live(a.c);
    }
  }

  lemma FrontMergeable(a: Arena, p: nat, q: nat)
    requires Ok(a) && p in a.c && a.c[p].used && Front(a.c, a.base, p, q)
    ensures Mergeable(a.c, a.base, a.top, p, q) && Mergeable(a.c, a.base, a.top, p, p) && q in a.c
    ensures 32 <= a.c[p].size && (q != p ==> 32 <= a.c[q].size) && 32 <= a.c[Next(a.c, p)].size
    ensures a.top in a.c && !a.c[a.top].used
  {
    Around(a, p, q);
  }
}

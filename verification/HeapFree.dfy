/** Giving a chunk back: it merges with the free chunks on either side. */
module HeapFree {
  import opened HeapTiling
  import opened HeapTags
  import opened HeapBins
  import opened HeapSteps

  /** The chunk that the merged chunk starts with: p itself, or the free chunk
      q right below it. */
  ghost predicate Front(c: Chunks, base: nat, p: nat, q: nat) {
    if q == p then PrevUsed(c, base, p) else q in c && !c[q].used && Next(c, q) == p
  }

  function ReleaseUp(c: Chunks, p: nat): Chunks
    requires p in c && Next(c, p) in c && 0 < c[p].size
  {
    var c1 := SetUsed(c, p, false);
    if c[Next(c, p)].used then c1 else JoinNext(c1, p, false)
  }

  /** The layout after chunk p is freed and merged with its neighbours. */
  function Released(c: Chunks, p: nat, q: nat): Chunks
    requires p in c && Next(c, p) in c && 0 < c[p].size
    requires q == p || (q in c && q < p && Next(c, q) == p)
  {
    if q == p then ReleaseUp(c, p) else JoinNext(ReleaseUp(c, p), q, false)
  }

  function ReleasedTop(c: Chunks, top: nat, p: nat, q: nat): nat
    requires p in c
  {
    if Next(c, p) == top then q else top
  }

  lemma ReleaseUpOk(a: Arena, p: nat)
    requires Ok(a) && p in a.c && a.c[p].used
    ensures p != a.top && Next(a.c, p) in a.c
    ensures Work(a.(c := ReleaseUp(a.c, p), top := ReleasedTop(a.c, a.top, p, p)), p)
  {
    var n := Next(a.c, p);
    WorkBegin(a, p, false);
    var a1 := a.(c := SetUsed(a.c, p, false));
    assert Next(a1.c, p) == n;
    if !a.c[n].used {
      WorkForward(a1, p, false);
    }
  }

  lemma ReleaseOk(a: Arena, p: nat, q: nat)
    requires Ok(a) && p in a.c && a.c[p].used && Front(a.c, a.base, p, q)
    ensures p != a.top && Next(a.c, p) in a.c && (q != p ==> q < p && q != a.top)
    ensures Work(a.(c := Released(a.c, p, q), top := ReleasedTop(a.c, a.top, p, q)), q)
  {
    ReleaseUpOk(a, p);
    if q != p {
      assert q != a.top;
      var a2 := a.(c := ReleaseUp(a.c, p), top := ReleasedTop(a.c, a.top, p, p));
      assert q in a2.c && Next(a2.c, q) == p;
      hide Work, Ok;
      WorkBackward(a2, p, q, false);
    }
  }

  lemma UpShape(c: Chunks, p: nat)
    requires p in c && Next(c, p) in c && 0 < c[p].size
    ensures var u := ReleaseUp(c, p); var n := Next(c, p);
      && p in u && u[p] == Chunk(c[p].size + (if c[n].used then 0 else c[n].size), false)
      && (forall x :: x != p && x != n ==> (x in u <==> x in c) && (x in u ==> u[x] == c[x]))
      && (if c[n].used then n in u && u[n] == c[n] else n !in u)
  {
  }

  /** What the merged chunk looks like, and that nothing else changed. */
  lemma ReleasedShape(a: Arena, p: nat, q: nat)
    requires Ok(a) && p in a.c && a.c[p].used && Front(a.c, a.base, p, q)
    ensures Next(a.c, p) in a.c && (q != p ==> q < p)
    ensures var f := Released(a.c, p, q); var n := Next(a.c, p);
      && q in f && !f[q].used
      && f[q].size == (if q == p then 0 else a.c[q].size) + a.c[p].size + (if a.c[n].used then 0 else a.c[n].size)
      && (forall x :: x != p && x != q && x != n ==> (x in f <==> x in a.c) && (x in f ==> f[x] == a.c[x]))
      && (q != p ==> p !in f)
      && (if a.c[n].used then n in f && f[n] == a.c[n] else n !in f)
  {
    Around(a, p, q);
    UpShape(a.c, p);
    var u := ReleaseUp(a.c, p);
    hide Ok, ReleaseUp;
    if q != p {
      assert u[q] == a.c[q] && Next(u, q) == p;
      assert Released(a.c, p, q) == JoinNext(u, q, false);
    }
  }

  lemma Around(a: Arena, p: nat, q: nat)
    requires Ok(a) && p in a.c && a.c[p].used && Front(a.c, a.base, p, q)
    ensures p != a.top && Next(a.c, p) in a.c && p < Next(a.c, p) && (q != p ==> q < p && q != a.top)
    ensures !a.c[Next(a.c, p)].used && Next(a.c, p) != a.top ==>
      var nn := Next(a.c, Next(a.c, p)); nn in a.c && Next(a.c, p) < nn && a.c[nn].used
  {
  }

  lemma ReleasedLive(a: Arena, p: nat, q: nat)
    requires Ok(a) && p in a.c && a.c[p].used && Front(a.c, a.base, p, q)
    ensures Next(a.c, p) in a.c && (q != p ==> q < p)
    ensures Live(Released(a.c, p, q)) == Live(a.c) - {p}
  {
    ReleasedShape(a, p, q);
    var f, n := Released(a.c, p, q), Next(a.c, p);
    hide Released, Ok;
    forall x ensures x in Live(f) <==> x in Live(a.c) - {p} {
    }
  }

  /** Below the merged chunk lies a chunk in use, and above it too. */
  lemma ReleasedBorders(a: Arena, p: nat, q: nat)
    requires Ok(a) && p in a.c && a.c[p].used && Front(a.c, a.base, p, q)
    ensures Next(a.c, p) in a.c && (q != p ==> q < p)
    ensures q in Released(a.c, p, q) && PrevUsed(Released(a.c, p, q), a.base, q)
    ensures Next(a.c, p) != a.top ==> var f := Released(a.c, p, q);
      Next(f, q) in f && f[Next(f, q)].used && Next(f, q) in a.c && f[Next(f, q)] == a.c[Next(f, q)]
  {
    ReleasedShape(a, p, q);
    Around(a, p, q);
    if q != p { PrevOfFree(a.c, a.base, a.top, a.end, q); }
    hide Ok, Released;
    var f, n := Released(a.c, p, q), Next(a.c, p);
    StillPrevUsed(a.c, f, a.base, p, q, n);
    if n != a.top && !a.c[n].used {
      assert Next(f, q) == Next(a.c, n);
    } else {
      assert Next(f, q) == n || n == a.top;
    }
  }

  lemma StillPrevUsed(c: Chunks, f: Chunks, base: nat, p: nat, q: nat, n: nat)
    requires PrevUsed(c, base, q) && p in c && n in c && q <= p < n && 0 < c[n].size && q in f
    requires forall x :: x != p && x != q && x != n && x in c ==> x in f && f[x] == c[x]
    requires 0 < c[p].size
    requires q in c && 0 < c[q].size
    ensures PrevUsed(f, base, q)
  {
    if q != base {
      var r :| r in c && Next(c, r) == q && c[r].used;
      assert Next(f, r) == q && f[r].used;
    }
  }

  /** The chunks that are merged are off their lists; the merged chunk is on
      none yet. */
  lemma ReleasedBins(a: Arena, p: nat, q: nat, bins': Bins)
    requires Ok(a) && p in a.c && a.c[p].used && Front(a.c, a.base, p, q)
    requires Next(a.c, p) in a.c && (q != p ==> q < p)
    requires BinnedBut(bins', a.c, if a.c[Next(a.c, p)].used then {a.top, q, p} else {a.top, q, p, Next(a.c, p)})
    ensures BinnedBut(bins', Released(a.c, p, q), {ReleasedTop(a.c, a.top, p, q), q})
  {
    hide *;
    ReleasedSets(a, p, q);
    var x := if a.c[Next(a.c, p)].used then {a.top, q, p} else {a.top, q, p, Next(a.c, p)};
    BinnedTransfer(bins', a.c, Released(a.c, p, q), x);
    BinnedLess(bins', Released(a.c, p, q), x, {ReleasedTop(a.c, a.top, p, q), q});
  }

  /** The chunks that leave the lists, and those of them that remain. */
  lemma ReleasedSets(a: Arena, p: nat, q: nat)
    requires Ok(a) && p in a.c && a.c[p].used && Front(a.c, a.base, p, q)
    ensures Next(a.c, p) in a.c && 0 < a.c[p].size && (q == p || (q in a.c && q < p && Next(a.c, q) == p))
    ensures var f := Released(a.c, p, q);
      var x := if a.c[Next(a.c, p)].used then {a.top, q, p} else {a.top, q, p, Next(a.c, p)};
      var y := {ReleasedTop(a.c, a.top, p, q), q};
      && (forall z :: z !in x ==> (z in a.c <==> z in f) && (z in a.c ==> a.c[z] == f[z]))
      && y <= x && (forall z :: z in x && z !in y && z in f ==> f[z].used)
  {
    ReleasedShape(a, p, q);
    Around(a, p, q);
    hide Released, Ok;
  }

  /** Freeing a chunk below top: the merged chunk becomes top. */
  lemma FreeTopOk(a: Arena, p: nat, q: nat, bins': Bins, m': Mem)
    requires Ok(a) && p in a.c && a.c[p].used && Front(a.c, a.base, p, q)
    requires Next(a.c, p) == a.top && q <= p
    requires BinnedBut(bins', a.c, {a.top, q, p})
    requires m' == a.m[q + 8 := p - q + a.c[p].size + a.c[a.top].size + 1]
    ensures (q != p ==> q < p) && Ok(Arena(m', Released(a.c, p, q), bins', a.base, q, a.end))
    ensures Keeps(a, a.(m := m', c := Released(a.c, p, q)), {p})
    ensures Live(Released(a.c, p, q)) == Live(a.c) - {p}
  {
    hide *;
    ReleasedTopFacts(a, p, q);
    ReleaseOk(a, p, q);
    ReleasedBorders(a, p, q);
    ReleasedLive(a, p, q);
    ReleasedBins(a, p, q, bins');
    FreeTopTags(a, p, q, Released(a.c, p, q), m');
    LayoutSame(Arena(m', Released(a.c, p, q), a.bins, a.base, q, a.end), Arena(m', Released(a.c, p, q), bins', a.base, q, a.end));
    OkFrom(Arena(m', Released(a.c, p, q), bins', a.base, q, a.end));
  }

  lemma ReleasedTopFacts(a: Arena, p: nat, q: nat)
    requires Ok(a) && p in a.c && a.c[p].used && Front(a.c, a.base, p, q)
    requires Next(a.c, p) == a.top && q <= p
    ensures a.top in a.c && !a.c[a.top].used && a.base <= a.top && ReleasedTop(a.c, a.top, p, q) == q && (q != p ==> q in a.c && q < p && Next(a.c, q) == p)
    ensures Next(a.c, p) in a.c && q in Released(a.c, p, q) && !Released(a.c, p, q)[q].used
    ensures Released(a.c, p, q)[q].size == p - q + a.c[p].size + a.c[a.top].size
    ensures 0 < a.c[p].size
    ensures forall x :: x in a.c && a.c[x].used && x != p ==> x in Released(a.c, p, q) && Released(a.c, p, q)[x] == a.c[x] && x != q
    ensures {a.top, q, p, Next(a.c, p)} == {a.top, q, p} && {ReleasedTop(a.c, a.top, p, q), q} == {q}
    ensures p + a.c[p].size == a.top
  {
    ReleasedShape(a, p, q);
    TopUnused(a);
    hide Ok, Released;
  }

  lemma FreeTopTags(a: Arena, p: nat, q: nat, f: Chunks, m': Mem)
    requires Ok(a) && Work(a.(c := f, top := q), q) && p in a.c && q <= p
    requires Next(a.c, p) == a.top && a.top in a.c
    requires q in f && !f[q].used && PrevUsed(f, a.base, q)
    requires forall x :: x in a.c && a.c[x].used && x != p ==> x in f && f[x] == a.c[x] && x != q
    requires m' == a.m[q + 8 := f[q].size + 1]
    ensures Layout(Arena(m', f, a.bins, a.base, q, a.end)) && Tagged(m', f, a.base, q)
    ensures Keeps(a, a.(m := m', c := f), {p})
  {
    hide BinnedBut, Tagged, TaggedExcept, Tiled, Ok, Work, Keeps, Words, Coalesced, CoalescedBut, Layout;
    WorkTiled(a.(c := f, top := q), q);
    OkTiled(a);
    OkWords(a, q + 8, f[q].size + 1);
    WorkEnd(a.(c := f, top := q), q, m');
    ReleaseKeeps(a, p, q, f, m');
  }

  lemma OkWords(a: Arena, w: nat, v: nat)
    requires Ok(a)
    ensures Words(a.m[w := v], a.base, a.end)
  {
  }

  lemma TopUnused(a: Arena)
    requires Ok(a)
    ensures a.top in a.c && !a.c[a.top].used && a.base <= a.top
  {
  }

  lemma OkFrom(a: Arena)
    requires Layout(a) && Tagged(a.m, a.c, a.base, a.top) && BinnedBut(a.bins, a.c, {a.top})
    ensures Ok(a)
  {
  }

  lemma ReleaseKeeps(a: Arena, p: nat, q: nat, f: Chunks, m': Mem)
    requires Tiled(a.c, a.base, a.top, a.end) && p in a.c && Next(a.c, p) in a.c && q in f && q <= p
    requires Tiled(f, a.base, if Next(a.c, p) == a.top then q else a.top, a.end)
    requires forall x :: x in a.c && a.c[x].used && x != p ==> x in f && f[x] == a.c[x] && x != q
    requires SameOutside(a.m, m', q + 8, Next(f, q) + 16)
    ensures Keeps(a, a.(m := m', c := f), {p})
  {
    var t := if Next(a.c, p) == a.top then q else a.top;
    forall x | x in a.c && a.c[x].used && x != p
      ensures x in f && f[x] == a.c[x] && SamePayload(a.m, m', x, a.c[x].size)
    {
      assert if x < q then x + f[x].size <= q else Next(f, q) <= x;
    }
  }

  /** Freeing any other chunk: the merged chunk gets its tags and is ready to
      be put on a list. */
  lemma FreeBinOk(a: Arena, p: nat, q: nat, sz: nat, bins': Bins, m': Mem)
    requires Ok(a) && p in a.c && a.c[p].used && Front(a.c, a.base, p, q)
    requires Next(a.c, p) in a.c && Next(a.c, p) != a.top && (q != p ==> q < p)
    requires BinnedBut(bins', a.c, if a.c[Next(a.c, p)].used then {a.top, q, p} else {a.top, q, p, Next(a.c, p)})
    requires sz == p - q + a.c[p].size + (if a.c[Next(a.c, p)].used then 0 else a.c[Next(a.c, p)].size)
    requires q + sz in a.c && SameOutside(a.m, m', q + 8, q + sz + 16)
    requires q + 8 in m' && m'[q + 8] == sz + 1
    requires q + sz in m' && m'[q + sz] == sz && q + sz + 8 in m' && m'[q + sz + 8] == a.c[q + sz].size
    requires Words(m', a.base, a.end)
    ensures Layout(a.(m := m', c := Released(a.c, p, q))) && Tagged(m', Released(a.c, p, q), a.base, a.top)
    ensures BinnedBut(bins', Released(a.c, p, q), {a.top, q})
    ensures q in Released(a.c, p, q) && Released(a.c, p, q)[q] == Chunk(sz, false) && q != a.top
    ensures Keeps(a, a.(m := m', c := Released(a.c, p, q)), {p})
    ensures Live(Released(a.c, p, q)) == Live(a.c) - {p}
  {
    hide Released, BinnedBut, Tagged, Layout, Ok, Work, Keeps, Live;
    ReleaseOk(a, p, q);
    ReleasedShape(a, p, q);
    ReleasedBorders(a, p, q);
    ReleasedLive(a, p, q);
    ReleasedBins(a, p, q, bins');
    FreeBinTags(a, p, q, sz, Released(a.c, p, q), m');
  }

  lemma FreeBinTags(a: Arena, p: nat, q: nat, sz: nat, f: Chunks, m': Mem)
    requires Ok(a) && Work(a.(c := f), q) && p in a.c && q <= p
    requires Next(a.c, p) in a.c && Next(a.c, p) != a.top
    requires q in f && f[q] == Chunk(sz, false) && PrevUsed(f, a.base, q)
    requires q + sz in f && f[q + sz].used && q + sz in a.c && f[q + sz] == a.c[q + sz]
    requires forall x :: x in a.c && a.c[x].used && x != p ==> x in f && f[x] == a.c[x] && x != q
    requires SameOutside(a.m, m', q + 8, q + sz + 16)
    requires q + 8 in m' && m'[q + 8] == sz + 1
    requires q + sz in m' && m'[q + sz] == sz && q + sz + 8 in m' && m'[q + sz + 8] == a.c[q + sz].size
    requires Words(m', a.base, a.end)
    ensures Layout(a.(m := m', c := f)) && Tagged(m', f, a.base, a.top) && q != a.top
    ensures Keeps(a, a.(m := m', c := f), {p})
  {
    hide BinnedBut, Tagged, TaggedExcept, Tiled, Ok, Work, Keeps, Words, Coalesced, CoalescedBut, Layout;
    WorkTiled(a.(c := f), q);
    OkTiled(a);
    BelowTop(f, a.base, a.top, a.end, q);
    assert Boundary(m', f, q, q + sz);
    WorkEnd(a.(c := f), q, m');
    ReleaseKeeps(a, p, q, f, m');
  }

  lemma WorkTiled(a: Arena, x: nat)
    requires Work(a, x)
    ensures Tiled(a.c, a.base, a.top, a.end) && x in a.c
  {
  }

  lemma OkTiled(a: Arena)
    requires Ok(a)
    ensures Tiled(a.c, a.base, a.top, a.end)
  {
  }

  lemma BelowTop(c: Chunks, base: nat, top: nat, end: nat, q: nat)
    requires Tiled(c, base, top, end) && q in c && Next(c, q) in c
    ensures q != top
  {
  }

  // ----- lists and words -----

  lemma DropRemainder(bins: Bins, c: Chunks, x: set<nat>, p: nat)
    requires BinnedBut(bins, c, x) && p in bins[LAST_REMAINDER]
    ensures bins[LAST_REMAINDER] == [p] && BinnedBut(bins[LAST_REMAINDER := []], c, x + {p})
  {
    UnlinkBinned(bins, c, x, LAST_REMAINDER, 0);
    assert CutAt(bins[LAST_REMAINDER], 0) == [];
  }

  lemma MarkedRemainder(bins: Bins, blocks: Blocks, s: seq<nat>)
    requires Marked(bins, blocks)
    ensures Marked(bins[LAST_REMAINDER := s], blocks)
  {
  }

  /** The words that freeing chunk p writes. */
  lemma FreeMem(a: Arena, p: nat, q: nat, sz: nat, m: Mem)
    requires Ok(a) && p in a.c && a.c[p].used && Front(a.c, a.base, p, q) && q <= p
    requires Next(a.c, p) in a.c && Next(a.c, p) != a.top
    requires var n := Next(a.c, p); Next(a.c, n) in a.c && sz == p - q + a.c[p].size + (if a.c[n].used then 0 else a.c[n].size)
    requires m == a.m[Next(a.c, p) + 8 := a.c[Next(a.c, p)].size][q + 8 := sz + 1][q + sz := sz]
    ensures q + sz in a.c && SameOutside(a.m, m, q + 8, q + sz + 16) && Words(m, a.base, a.end)
    ensures q + 8 in m && m[q + 8] == sz + 1
    ensures q + sz in m && m[q + sz] == sz && q + sz + 8 in m && m[q + sz + 8] == a.c[q + sz].size
  {
    hide Ok, Aligned, Front;
    var n, e := Next(a.c, p), q + sz;
    EndWord(a, p, n, e);
    assert q + 32 <= n;
    WordsSet(a.m, a.base, a.end, n + 8, a.c[n].size);
    WordsSet(a.m[n + 8 := a.c[n].size], a.base, a.end, q + 8, sz + 1);
    WordsSet(a.m[n + 8 := a.c[n].size][q + 8 := sz + 1], a.base, a.end, e, sz);
  }

  lemma EndWord(a: Arena, p: nat, n: nat, e: nat)
    requires Ok(a) && p in a.c && a.c[p].used && n in a.c && n == Next(a.c, p) && n != a.top && Next(a.c, n) in a.c
    requires e == if a.c[n].used then n else Next(a.c, n)
    ensures e in a.c && p + 32 <= n && (e == n || n + 32 <= e)
    ensures e != n ==> e + 8 in a.m && a.m[e + 8] == a.c[e].size
    ensures Words(a.m, a.base, a.end)
  {
    if e != n { FreeWords(a, n); }
  }

  lemma LayoutSame(a: Arena, b: Arena)
    requires Layout(a) && a.m == b.m && a.c == b.c && a.base == b.base && a.top == b.top && a.end == b.end
    ensures Layout(b)
  {
  }

  lemma GrowUsed(bins: Bins, c: Chunks, x: set<nat>, p: nat, y: set<nat>)
    requires BinnedBut(bins, c, x) && p in c && c[p].used && y == x + {p}
    ensures BinnedBut(bins, c, y)
  {
    BinnedGrow(bins, c, x, p);
  }
}

/** What each elementary step of the allocator does to the arena, and that the
    arena stays well formed. */
module HeapSteps {
  import opened HeapTiling
  import opened HeapTags
  import opened HeapBins

  datatype Arena = Arena(m: Mem, c: Chunks, bins: Bins, base: nat, top: nat, end: nat)

  ghost predicate Words(m: Mem, base: nat, end: nat) {
    forall a :: base <= a < end && OnWord(a) ==> a in m
  }

  ghost predicate Layout(a: Arena) {
    && Tiled(a.c, a.base, a.top, a.end)
    && Coalesced(a.c, a.top)
    && Words(a.m, a.base, a.end)
  }

  ghost predicate Ok(a: Arena) {
    && Layout(a)
    && Tagged(a.m, a.c, a.base, a.top)
    && BinnedBut(a.bins, a.c, {a.top})
  }

  /** The chunks in use outside x are still there, with the same user data. */
  ghost predicate Keeps(a: Arena, b: Arena, x: set<nat>) {
    forall p :: p in a.c && a.c[p].used && p !in x ==>
      p in b.c && b.c[p] == a.c[p] && SamePayload(a.m, b.m, p, a.c[p].size)
  }

  lemma KeepsSelf(a: Arena)
    ensures Keeps(a, a, {})
  {
  }

  lemma KeepsSame(a: Arena, b: Arena, b': Arena, x: set<nat>)
    requires Keeps(a, b, x) && b.m == b'.m && b.c == b'.c
    ensures Keeps(a, b', x)
  {
  }

  lemma KeepsBoth(a: Arena, b: Arena, c: Arena, x: set<nat>)
    requires Keeps(a, b, x) && Keeps(b, c, {})
    ensures Keeps(a, c, x)
  {
    forall p | p in a.c && a.c[p].used && p !in x
      ensures p in c.c && c.c[p] == a.c[p] && SamePayload(a.m, c.m, p, a.c[p].size)
    {
      assert SamePayload(b.m, c.m, p, b.c[p].size);
    }
  }

  /** The chunks in use, that is, the live allocations. */
  ghost function Live(c: Chunks): set<nat> {
    set p | p in c && c[p].used
  }

  /** head |= PREV_INUSE */
  function WithBit(head: nat): nat { if PrevInUse(head) then head else head + 1 }

  lemma BitSet(size: nat, used: bool)
    requires Aligned(size)
    ensures WithBit(size + Bit(used)) == size + 1
  {
    HeadParts(size, used);
  }

  lemma ExceptUse(m: Mem, c: Chunks, base: nat, top: nat, end: nat, x: nat, used: bool)
    requires Tiled(c, base, top, end) && x in c && TaggedExcept(m, c, base, top, x)
    ensures Tiled(SetUsed(c, x, used), base, top, end)
    ensures TaggedExcept(m, SetUsed(c, x, used), base, top, x)
  {
    UseTiled(c, base, top, end, x, used);
    var d := SetUsed(c, x, used);
    forall p {:trigger Next(d, p)} | p in d && p != top && p != x
      ensures if Next(d, p) == x then Footed(m, d, p, x) else Boundary(m, d, p, Next(d, p))
    {
      assert Next(d, p) == Next(c, p);
    }
  }

  lemma PrevUsedSame(c: Chunks, base: nat, top: nat, end: nat, x: nat, used: bool)
    requires Tiled(c, base, top, end) && x in c
    ensures PrevUsed(SetUsed(c, x, used), base, x) <==> PrevUsed(c, base, x)
  {
    var d := SetUsed(c, x, used);
    if PrevUsed(c, base, x) && x != base {
      var q :| q in c && Next(c, q) == x && c[q].used;
      assert Next(d, q) == x && d[q].used;
    }
    if PrevUsed(d, base, x) && x != base {
      var q :| q in d && Next(d, q) == x && d[q].used;
      assert Next(c, q) == x && c[q].used;
    }
  }

  /** Below a free chunk lies a chunk in use, or nothing. */
  lemma PrevOfFree(c: Chunks, base: nat, top: nat, end: nat, x: nat)
    requires Tiled(c, base, top, end) && Coalesced(c, top) && x in c && !c[x].used
    ensures PrevUsed(c, base, x)
  {
    if x != base {
      assert HasPrev(c, x);
      var q :| q in c && Next(c, q) == x;
      assert q != top;
    }
  }

  /** Nothing outside chunk x's own words and the words at its upper end was
      written, so all other user data are as before. */
  lemma KeepsOthers(a: Arena, b: Arena, x: nat)
    requires Tiled(a.c, a.base, a.top, a.end) && x in a.c
    requires SameOutside(a.m, b.m, x + 8, Next(a.c, x) + 16)
    requires forall p :: p in a.c && p != x && a.c[p].used ==> p in b.c && b.c[p] == a.c[p]
    ensures Keeps(a, b, {x})
  {
    forall p | p in a.c && a.c[p].used && p != x
      ensures p in b.c && b.c[p] == a.c[p] && SamePayload(a.m, b.m, p, a.c[p].size)
    {
      forall w: nat | InPayload(w, p, a.c[p].size) && w in a.m ensures w in b.m && b.m[w] == a.m[w] {
        if x + 8 <= w < Next(a.c, x) + 16 {
          TagsOffPayload(a.c, a.base, a.top, a.end, x, p, w);
        }
      }
    }
  }

  // ----- taking a binned chunk whole -----

  function Take(a: Arena, b: nat, k: nat): Arena
    requires b < |a.bins| && k < |a.bins[b]| && a.bins[b][k] in a.c
    requires Next(a.c, a.bins[b][k]) + 8 in a.m
  {
    var v := a.bins[b][k];
    var n := Next(a.c, v);
    a.(m := a.m[n + 8 := WithBit(a.m[n + 8])], c := SetUsed(a.c, v, true), bins := a.bins[b := CutAt(a.bins[b], k)])
  }

  lemma Binned(a: Arena, b: nat, k: nat)
    requires Ok(a) && b < NAV && k < |a.bins[b]|
    ensures a.bins[b][k] in a.c && !a.c[a.bins[b][k]].used && a.bins[b][k] != a.top
    ensures Next(a.c, a.bins[b][k]) in a.c && Next(a.c, a.bins[b][k]) + 8 in a.m
    ensures a.c[Next(a.c, a.bins[b][k])].used
  {
    assert Listed(a.bins, a.c, {a.top}, b);
    assert a.bins[b][k] in a.bins[b];
  }

  lemma TakeOk(a: Arena, b: nat, k: nat)
    requires Ok(a) && b < NAV && k < |a.bins[b]|
    ensures a.bins[b][k] in a.c && Next(a.c, a.bins[b][k]) + 8 in a.m
    ensures Ok(Take(a, b, k)) && Keeps(a, Take(a, b, k), {})
    ensures Live(Take(a, b, k).c) == Live(a.c) + {a.bins[b][k]}
  {
    Binned(a, b, k);
    hide Aligned, BinnedBut, Tagged;
    var v := a.bins[b][k];
    var a' := Take(a, b, k);
    TakeTags(a, v, a'.m);
    TakeBins(a, b, k);
    TakeCoalesced(a, v);
    KeepsOthers(a, a', v);
  }

  lemma TakeTags(a: Arena, v: nat, m': Mem)
    requires Ok(a) && v in a.c && !a.c[v].used && v != a.top && Next(a.c, v) in a.c && Next(a.c, v) + 8 in a.m
    requires m' == a.m[Next(a.c, v) + 8 := WithBit(a.m[Next(a.c, v) + 8])]
    ensures Tiled(SetUsed(a.c, v, true), a.base, a.top, a.end)
    ensures Tagged(m', SetUsed(a.c, v, true), a.base, a.top)
  {
    hide *;
    LayoutParts(a);
    ExceptTagged(a.m, a.c, a.base, a.top, v);
    ExceptUse(a.m, a.c, a.base, a.top, a.end, v, true);
    PrevUsedSame(a.c, a.base, a.top, a.end, v, true);
    FreeWords(a, v);
    TakeWord(a, v, m');
    Seal(a.m, m', SetUsed(a.c, v, true), a.base, a.top, a.end, v);
  }

  lemma LayoutParts(a: Arena)
    requires Ok(a)
    ensures Layout(a) && Tiled(a.c, a.base, a.top, a.end) && Tagged(a.m, a.c, a.base, a.top) && Linked(a.c, a.top) && a.base in a.c
    ensures forall p :: p in a.c ==> 32 <= a.c[p].size
  {
  }

  lemma TakeWord(a: Arena, v: nat, m': Mem)
    requires v in a.c && v != a.top && Next(a.c, v) in a.c && v + 8 in a.m && Next(a.c, v) in a.m && 0 < a.c[v].size
    requires Next(a.c, v) + 8 in a.m && a.m[v + 8] == a.c[v].size + 1
    requires WithBit(a.m[Next(a.c, v) + 8]) == a.c[Next(a.c, v)].size + 1
    requires PrevUsed(a.c, a.base, v) && PrevUsed(SetUsed(a.c, v, true), a.base, v)
    requires m' == a.m[Next(a.c, v) + 8 := WithBit(a.m[Next(a.c, v) + 8])]
    ensures var d := SetUsed(a.c, v, true);
      SameOutside(a.m, m', v + 8, Next(d, v) + 16) && v in d && v + 8 in m' && m'[v + 8] == d[v].size + Bit(PrevUsed(d, a.base, v))
      && Next(d, v) in d && Boundary(m', d, v, Next(d, v))
  {
    hide PrevUsed, WithBit;
  }

  /** The tags around a free chunk: the chunk below is in use, and so is the
      one above unless it is top. */
  lemma FreeWords(a: Arena, v: nat)
    requires Layout(a) && Tagged(a.m, a.c, a.base, a.top) && v in a.c && !a.c[v].used
    ensures PrevUsed(a.c, a.base, v) && v + 8 in a.m && a.m[v + 8] == a.c[v].size + 1
    ensures v != a.top ==> var n := Next(a.c, v);
      && n in a.c && n in a.m && n + 8 in a.m && a.m[n + 8] == a.c[n].size && WithBit(a.m[n + 8]) == a.c[n].size + 1
      && a.m[n] == a.c[v].size && a.c[n].used
  {
    ReadHead(a.m, a.c, a.base, a.top, a.end, v);
    PrevOfFree(a.c, a.base, a.top, a.end, v);
    if v != a.top {
      assert Boundary(a.m, a.c, v, Next(a.c, v));
      BitSet(a.c[Next(a.c, v)].size, false);
    }
  }

  lemma TakeBins(a: Arena, b: nat, k: nat)
    requires Ok(a) && b < NAV && k < |a.bins[b]| && a.bins[b][k] in a.c
    ensures BinnedBut(a.bins[b := CutAt(a.bins[b], k)], SetUsed(a.c, a.bins[b][k], true), {a.top})
  {
    Binned(a, b, k);
    var v, bins' := a.bins[b][k], a.bins[b := CutAt(a.bins[b], k)];
    UnlinkBinned(a.bins, a.c, {a.top}, b, k);
    BinnedTransfer(bins', a.c, SetUsed(a.c, v, true), {a.top} + {v});
    BinnedShrink(bins', SetUsed(a.c, v, true), {a.top} + {v}, v);
    assert {a.top} + {v} - {v} == {a.top};
  }

  lemma TakeCoalesced(a: Arena, v: nat)
    requires Layout(a) && v in a.c && v != a.top
    ensures Linked(SetUsed(a.c, v, true), a.top) && Coalesced(SetUsed(a.c, v, true), a.top)
  {
    var d := SetUsed(a.c, v, true);
    UseTiled(a.c, a.base, a.top, a.end, v, true);
    forall p {:trigger Next(d, p)} | p in d && p != a.top && !d[p].used ensures d[Next(d, p)].used {
      assert Next(d, p) == Next(a.c, p);
    }
  }

  // ----- cutting the front off a free chunk -----

  lemma CarveTags(a: Arena, x: nat, n: nat, m': Mem)
    requires Layout(a) && Tagged(a.m, a.c, a.base, a.top) && x in a.c && !a.c[x].used
    requires 32 <= n && Aligned(n) && 32 + n <= a.c[x].size
    requires SameOutside(a.m, m', x + 8, Next(a.c, x) + 8)
    requires x + 8 in m' && m'[x + 8] == n + 1
    requires x + n in m' && x + n + 8 in m' && m'[x + n + 8] == a.c[x].size - n + 1
    requires x != a.top ==> Next(a.c, x) in m' && m'[Next(a.c, x)] == a.c[x].size - n
    ensures Tiled(SplitAt(a.c, x, n, true, false), a.base, if x == a.top then x + n else a.top, a.end)
    ensures Tagged(m', SplitAt(a.c, x, n, true, false), a.base, if x == a.top then x + n else a.top)
  {
    ExceptTagged(a.m, a.c, a.base, a.top, x);
    FreeWords(a, x);
    SealSplit(a.m, m', a.c, a.base, a.top, a.end, x, n, true, false);
  }

  lemma CarveCoalesced(a: Arena, x: nat, n: nat)
    requires Layout(a) && x in a.c && !a.c[x].used && 32 <= n && Aligned(n) && 32 + n <= a.c[x].size
    ensures Tiled(SplitAt(a.c, x, n, true, false), a.base, if x == a.top then x + n else a.top, a.end)
    ensures Coalesced(SplitAt(a.c, x, n, true, false), if x == a.top then x + n else a.top)
  {
    var d, t := SplitAt(a.c, x, n, true, false), if x == a.top then x + n else a.top;
    SplitTiled(a.c, a.base, a.top, a.end, x, n, true, false);
    SplitNexts(a.c, a.base, a.top, a.end, x, n, true, false);
    forall p {:trigger Next(d, p)} | p in d && p != t && !d[p].used ensures d[Next(d, p)].used {
      if p == x + n {
        assert a.c[Next(a.c, x)].used;
      } else {
        assert p in a.c && Next(d, p) == Next(a.c, p) != x + n;
      }
    }
  }

  lemma CarveLive(c: Chunks, x: nat, n: nat)
    requires x in c && !c[x].used && x + n !in c && 0 < n <= c[x].size
    ensures Live(SplitAt(c, x, n, true, false)) == Live(c) + {x}
  {
  }

  /** The remainder of a binned chunk becomes last_remainder. */
  lemma CarveBins(bins: Bins, c: Chunks, top: nat, b: nat, k: nat, n: nat)
    requires BinnedBut(bins, c, {top}) && b < NAV && k < |bins[b]| && bins[b][k] in c
    requires b == LAST_REMAINDER || bins[LAST_REMAINDER] == []
    requires 32 <= n && 32 + n <= c[bins[b][k]].size && bins[b][k] + n !in c && top in c
    ensures BinnedBut(bins[b := CutAt(bins[b], k)][LAST_REMAINDER := [bins[b][k] + n]],
                      SplitAt(c, bins[b][k], n, true, false), {top})
  {
    assert Listed(bins, c, {top}, b);
    assert bins[b][k] in bins[b];
    var x, d, cut := bins[b][k], SplitAt(c, bins[b][k], n, true, false), bins[b := CutAt(bins[b], k)];
    UnlinkBinned(bins, c, {top}, b, k);
    BinnedGrow(cut, c, {top} + {x}, x + n);
    BinnedTransfer(cut, c, d, {top} + {x} + {x + n});
    BinnedShrink(cut, d, {top} + {x} + {x + n}, x);
    LinkRemainder(cut, d, {top} + {x} + {x + n} - {x}, x + n);
    assert {top} + {x} + {x + n} - {x} - {x + n} == {top};
  }

  lemma CarveTopBins(bins: Bins, c: Chunks, top: nat, n: nat)
    requires BinnedBut(bins, c, {top}) && top in c && top + n !in c && 0 < n <= c[top].size
    ensures BinnedBut(bins, SplitAt(c, top, n, true, false), {top + n})
  {
    var d := SplitAt(c, top, n, true, false);
    BinnedGrow(bins, c, {top}, top + n);
    BinnedTransfer(bins, c, d, {top} + {top + n});
    BinnedShrink(bins, d, {top} + {top + n}, top);
    assert {top} + {top + n} - {top} == {top + n};
  }

  lemma CarveLayout(a: Arena, x: nat, n: nat)
    requires Ok(a) && x in a.c && !a.c[x].used
    requires 32 <= n && Aligned(n) && 32 + n <= a.c[x].size
    ensures x + n !in a.c && a.top in a.c && a.base <= x && Next(a.c, x) <= a.end
  {
    SplitTiled(a.c, a.base, a.top, a.end, x, n, true, false);
    FreeWords(a, x);
    assert x != a.top ==> Next(a.c, x) in a.c;
  }

  lemma CarveDone(a: Arena, x: nat, n: nat, m': Mem)
    requires Ok(a) && x in a.c && !a.c[x].used
    requires 32 <= n && Aligned(n) && 32 + n <= a.c[x].size && x + n !in a.c
    requires m' == if x == a.top then a.m[x + 8 := n + 1][x + n + 8 := a.c[x].size - n + 1]
                   else a.m[x + 8 := n + 1][x + n + 8 := a.c[x].size - n + 1][Next(a.c, x) := a.c[x].size - n]
    ensures Layout(a.(m := m', c := SplitAt(a.c, x, n, true, false), top := if x == a.top then x + n else a.top))
    ensures Tagged(m', SplitAt(a.c, x, n, true, false), a.base, if x == a.top then x + n else a.top)
    ensures Live(SplitAt(a.c, x, n, true, false)) == Live(a.c) + {x}
    ensures Keeps(a, a.(m := m', c := SplitAt(a.c, x, n, true, false)), {})
  {
    hide *;
    CarveWritten(a, x, n, m');
    CarveTags(a, x, n, m');
    CarveCoalesced(a, x, n);
    CarveLive(a.c, x, n);
    KeepsOthers(a, a.(m := m', c := SplitAt(a.c, x, n, true, false)), x);
    KeepsSplitFree(a, x, n, m');
    LayoutFrom(a.(m := m', c := SplitAt(a.c, x, n, true, false), top := if x == a.top then x + n else a.top));
  }

  /** What the words written say, and that nothing else was written. */
  lemma CarveWritten(a: Arena, x: nat, n: nat, m': Mem)
    requires Ok(a) && x in a.c && !a.c[x].used
    requires 32 <= n && Aligned(n) && 32 + n <= a.c[x].size && x + n !in a.c
    requires m' == if x == a.top then a.m[x + 8 := n + 1][x + n + 8 := a.c[x].size - n + 1]
                   else a.m[x + 8 := n + 1][x + n + 8 := a.c[x].size - n + 1][Next(a.c, x) := a.c[x].size - n]
    ensures Layout(a) && Tiled(a.c, a.base, a.top, a.end) && Tagged(a.m, a.c, a.base, a.top) && Words(m', a.base, a.end)
    ensures SameOutside(a.m, m', x + 8, Next(a.c, x) + 8) && SameOutside(a.m, m', x + 8, Next(a.c, x) + 16)
    ensures x + 8 in m' && m'[x + 8] == n + 1
    ensures x + n in m' && x + n + 8 in m' && m'[x + n + 8] == a.c[x].size - n + 1
    ensures x != a.top ==> Next(a.c, x) in m' && m'[Next(a.c, x)] == a.c[x].size - n
    ensures forall p :: p in a.c && p != x && a.c[p].used ==>
      p in SplitAt(a.c, x, n, true, false) && SplitAt(a.c, x, n, true, false)[p] == a.c[p]
  {
    CarveWord(a, x, n);
    hide Tagged, BinnedBut, Aligned, OnWord;
  }

  lemma KeepsSplitFree(a: Arena, x: nat, n: nat, m': Mem)
    requires x in a.c && !a.c[x].used && n <= a.c[x].size && Keeps(a, a.(m := m', c := SplitAt(a.c, x, n, true, false)), {x})
    ensures Keeps(a, a.(m := m', c := SplitAt(a.c, x, n, true, false)), {})
  {
    hide SplitAt, SamePayload;
  }

  lemma LayoutFrom(a: Arena)
    requires Tiled(a.c, a.base, a.top, a.end) && Coalesced(a.c, a.top) && Words(a.m, a.base, a.end)
    ensures Layout(a)
  {
  }

  lemma CarveWord(a: Arena, x: nat, n: nat)
    requires Layout(a) && x in a.c && Aligned(n) && n < a.c[x].size
    ensures x + n in a.m
  {
    AlignedSum(x, n);
    AlignedWord(x + n);
    hide Aligned, OnWord;
    assert x != a.top ==> Next(a.c, x) in a.c;
  }

  // ----- reworking one chunk: growing it over its neighbours, then sealing it -----

  ghost predicate CoalescedBut(c: Chunks, top: nat, x: nat)
    requires top in c && Linked(c, top)
  {
    && (x != top ==> !c[top].used)
    && forall p {:trigger Next(c, p)} :: p in c && p != top && p != x && !c[p].used && Next(c, p) != x ==> c[Next(c, p)].used
  }

  /** Chunk x is being reworked: only its own tags may be wrong. */
  ghost predicate Work(a: Arena, x: nat) {
    && Tiled(a.c, a.base, a.top, a.end) && x in a.c
    && CoalescedBut(a.c, a.top, x)
    && TaggedExcept(a.m, a.c, a.base, a.top, x)
    && Words(a.m, a.base, a.end)
  }

  lemma WorkBegin(a: Arena, x: nat, used: bool)
    requires Layout(a) && Tagged(a.m, a.c, a.base, a.top) && x in a.c
    ensures Work(a.(c := SetUsed(a.c, x, used)), x)
  {
    var d := SetUsed(a.c, x, used);
    ExceptTagged(a.m, a.c, a.base, a.top, x);
    ExceptUse(a.m, a.c, a.base, a.top, a.end, x, used);
    forall p {:trigger Next(d, p)} | p in d && p != a.top && p != x && !d[p].used && Next(d, p) != x
      ensures d[Next(d, p)].used
    {
      assert Next(d, p) == Next(a.c, p);
    }
  }

  lemma WorkForward(a: Arena, x: nat, used: bool)
    requires Work(a, x) && x != a.top
    ensures Next(a.c, x) in a.c
    ensures Work(a.(c := JoinNext(a.c, x, used), top := if Next(a.c, x) == a.top then x else a.top), x)
  {
    var d, n := JoinNext(a.c, x, used), Next(a.c, x);
    var t := if n == a.top then x else a.top;
    ExceptJoinForward(a.m, a.c, a.base, a.top, a.end, x, used);
    forall p {:trigger Next(d, p)} | p in d && p != t && p != x && !d[p].used && Next(d, p) != x
      ensures d[Next(d, p)].used
    {
      assert Next(d, p) == Next(a.c, p);
    }
  }

  lemma WorkBackward(a: Arena, x: nat, q: nat, used: bool)
    requires Work(a, x) && q in a.c && q != a.top && Next(a.c, q) == x
    ensures Work(a.(c := JoinNext(a.c, q, used), top := if x == a.top then q else a.top), q)
  {
    var d := JoinNext(a.c, q, used);
    var t := if x == a.top then q else a.top;
    ExceptJoinBackward(a.m, a.c, a.base, a.top, a.end, x, q, used);
    forall p {:trigger Next(d, p)} | p in d && p != t && p != q && !d[p].used && Next(d, p) != q
      ensures d[Next(d, p)].used
    {
      assert Next(d, p) == Next(a.c, p);
    }
  }

  /** Writing the size field of x and the words at its upper end ends the work. */
  lemma WorkEnd(a: Arena, x: nat, m': Mem)
    requires Work(a, x) && SameOutside(a.m, m', x + 8, Next(a.c, x) + 16)
    requires x + 8 in m' && m'[x + 8] == a.c[x].size + Bit(PrevUsed(a.c, a.base, x))
    requires x != a.top ==> Boundary(m', a.c, x, Next(a.c, x))
    requires !a.c[x].used ==> PrevUsed(a.c, a.base, x) && (x != a.top ==> a.c[Next(a.c, x)].used)
    requires x == a.top ==> !a.c[x].used
    requires Words(m', a.base, a.end)
    ensures Layout(a.(m := m')) && Tagged(m', a.c, a.base, a.top)
  {
    Seal(a.m, m', a.c, a.base, a.top, a.end, x);
    assert Coalesced(a.c, a.top) by {
      forall p {:trigger Next(a.c, p)} | p in a.c && p != a.top && !a.c[p].used ensures a.c[Next(a.c, p)].used {
        if p != x && Next(a.c, p) == x && !a.c[x].used {
          UniquePrevUsed(a.c, a.base, a.top, a.end, p, x);
        }
      }
    }
  }

  lemma UniquePrevUsed(c: Chunks, base: nat, top: nat, end: nat, p: nat, x: nat)
    requires Tiled(c, base, top, end) && p in c && x in c && Next(c, p) == x
    ensures PrevUsed(c, base, x) <==> c[p].used
  {
    assert x != base;
    forall q | q in c && Next(c, q) == x ensures q == p { PrevUnique(c, base, top, end, p, q); }
  }

  /** The same when the chunk, in use, is cut in two chunks in use. */
  lemma WorkEndSplit(a: Arena, x: nat, n: nat, m': Mem)
    requires Work(a, x) && x != a.top && SameOutside(a.m, m', x + 8, Next(a.c, x) + 16)
    requires 32 <= n && Aligned(n) && 32 + n <= a.c[x].size
    requires x + 8 in m' && m'[x + 8] == n + Bit(PrevUsed(a.c, a.base, x))
    requires Boundary(m', SplitAt(a.c, x, n, true, true), x, x + n)
    requires Next(a.c, x) in a.c && Boundary(m', SplitAt(a.c, x, n, true, true), x + n, Next(a.c, x))
    requires Words(m', a.base, a.end)
    ensures x + n !in a.c
    ensures Layout(a.(m := m', c := SplitAt(a.c, x, n, true, true)))
    ensures Tagged(m', SplitAt(a.c, x, n, true, true), a.base, a.top)
  {
    var d := SplitAt(a.c, x, n, true, true);
    SealSplit(a.m, m', a.c, a.base, a.top, a.end, x, n, true, true);
    SplitNexts(a.c, a.base, a.top, a.end, x, n, true, true);
    assert Coalesced(d, a.top) by {
      forall p {:trigger Next(d, p)} | p in d && p != a.top && !d[p].used ensures d[Next(d, p)].used {
        assert p in a.c && Next(d, p) == Next(a.c, p) != x + n;
      }
    }
  }

  lemma SplitUsedBins(bins: Bins, c: Chunks, x: set<nat>, p: nat, n: nat)
    requires BinnedBut(bins, c, x) && p in c && p in x && p + n !in c && 0 < n <= c[p].size
    ensures BinnedBut(bins, SplitAt(c, p, n, true, true), x - {p})
  {
    var d := SplitAt(c, p, n, true, true);
    BinnedGrow(bins, c, x, p + n);
    BinnedTransfer(bins, c, d, x + {p + n});
    BinnedShrink(bins, d, x + {p + n}, p + n);
    BinnedShrink(bins, d, x + {p + n} - {p + n}, p);
    if p + n in x { BinnedWeaker(bins, d, x + {p + n} - {p + n} - {p}, p + n); }
    assert (if p + n in x then x + {p + n} - {p + n} - {p} + {p + n} else x + {p + n} - {p + n} - {p}) == x - {p};
  }

  lemma BinnedWeaker(bins: Bins, c: Chunks, x: set<nat>, p: nat)
    requires BinnedBut(bins, c, x) && (p !in c || c[p].used)
    ensures BinnedBut(bins, c, x + {p})
  {
    BinnedGrow(bins, c, x, p);
  }

  // ----- more memory from the system -----

  lemma FirstTop(m: Mem, bins: Bins, start: nat, n: nat)
    requires Aligned(start) && Aligned(n) && 32 <= n && Words(m, start, start + n)
    requires BinnedBut(bins, map[], {}) && start + 8 in m && m[start + 8] == n + 1
    ensures Ok(Arena(m, map[start := Chunk(n, false)], bins, start, start, start + n))
  {
    var c := map[start := Chunk(n, false)];
    BinnedGrow(bins, map[], {}, start);
    assert {} + {start} == {start};
    BinnedTransfer(bins, map[], c, {start});
  }

  function Grown(c: Chunks, top: nat, n: nat): Chunks
    requires top in c
  {
    c[top := Chunk(c[top].size + n, c[top].used)]
  }

  lemma WordsGrow(m: Mem, m': Mem, base: nat, end: nat, n: nat)
    requires Words(m, base, end)
    requires forall a :: a in m && !(end <= a < end + n) ==> a in m'
    requires forall a :: end <= a < end + n && OnWord(a) ==> a in m'
    ensures Words(m', base, end + n)
  {
  }

  lemma WordsMore(m: Mem, m': Mem, base: nat, end: nat)
    requires Words(m, base, end) && forall w :: w in m ==> w in m'
    ensures Words(m', base, end)
  {
  }

  lemma WordsSet(m: Mem, base: nat, end: nat, a: nat, v: nat)
    requires Words(m, base, end)
    ensures Words(m[a := v], base, end)
  {
  }

  lemma GrowOk(a: Arena, n: nat, m': Mem)
    requires Ok(a) && Aligned(n) && Words(m', a.base, a.end + n)
    requires forall w :: w in a.m && w < a.top + 8 ==> w in m' && m'[w] == a.m[w]
    requires a.top + 8 in m' && m'[a.top + 8] == a.c[a.top].size + n + 1
    ensures Ok(Arena(m', Grown(a.c, a.top, n), a.bins, a.base, a.top, a.end + n))
    ensures Keeps(a, a.(m := m', c := Grown(a.c, a.top, n)), {})
  {
    var d := Grown(a.c, a.top, n);
    GrowTiled(a.c, a.base, a.top, a.end, n);
    GrowTags(a, n, m');
    BinnedTransfer(a.bins, a.c, d, {a.top});
    forall p | p in a.c && a.c[p].used ensures p in d && d[p] == a.c[p] && SamePayload(a.m, m', p, a.c[p].size) {
      assert p != a.top && p + a.c[p].size <= a.top;
    }
  }

  lemma GrowTags(a: Arena, n: nat, m': Mem)
    requires Layout(a) && Tagged(a.m, a.c, a.base, a.top)
    requires Tiled(Grown(a.c, a.top, n), a.base, a.top, a.end + n)
    requires forall w :: w in a.m && w < a.top + 8 ==> w in m' && m'[w] == a.m[w]
    requires a.top + 8 in m' && m'[a.top + 8] == a.c[a.top].size + n + 1
    ensures Coalesced(Grown(a.c, a.top, n), a.top) && Tagged(m', Grown(a.c, a.top, n), a.base, a.top)
  {
    var d := Grown(a.c, a.top, n);
    forall p {:trigger Next(d, p)} | p in d && p != a.top
      ensures Boundary(m', d, p, Next(d, p)) && (!d[p].used ==> d[Next(d, p)].used)
    {
      assert Next(d, p) == Next(a.c, p);
      assert Boundary(a.m, a.c, p, Next(a.c, p));
      assert Next(a.c, p) <= a.top;
      if Next(a.c, p) != a.top {
        OffRange(a.c, a.base, a.top, a.end, a.top, Next(a.c, p));
      }
    }
  }

  /** Writing the user data of a chunk in use disturbs nothing else. */
  lemma WritePayload(a: Arena, q: nat, m': Mem)
    requires Ok(a) && q in a.c && a.c[q].used
    requires SameOutside(a.m, m', q + 16, q + a.c[q].size + 8) && forall w :: w in a.m ==> w in m'
    ensures Ok(a.(m := m')) && Keeps(a, a.(m := m'), {q})
  {
    WriteTags(a, q, m');
    WriteKeeps(a, q, m');
  }

  lemma WriteTags(a: Arena, q: nat, m': Mem)
    requires Layout(a) && Tagged(a.m, a.c, a.base, a.top) && q in a.c && a.c[q].used
    requires SameOutside(a.m, m', q + 16, q + a.c[q].size + 8) && forall w :: w in a.m ==> w in m'
    ensures Tagged(m', a.c, a.base, a.top)
  {
    forall p {:trigger Next(a.c, p)} | p in a.c && p != a.top ensures Boundary(m', a.c, p, Next(a.c, p)) {
      var n := Next(a.c, p);
      assert Boundary(a.m, a.c, p, n);
      if n == Next(a.c, q) {
        PrevUnique(a.c, a.base, a.top, a.end, p, q);
      } else {
        OffRange(a.c, a.base, a.top, a.end, q, n);
      }
    }
  }

  lemma WriteKeeps(a: Arena, q: nat, m': Mem)
    requires Tiled(a.c, a.base, a.top, a.end) && q in a.c
    requires SameOutside(a.m, m', q + 16, q + a.c[q].size + 8)
    ensures Keeps(a, a.(m := m'), {q})
  {
    forall p | p in a.c && a.c[p].used && p != q
      ensures SamePayload(a.m, m', p, a.c[p].size)
    {
      assert if p < q then p + a.c[p].size <= q else q + a.c[q].size <= p;
    }
  }
}

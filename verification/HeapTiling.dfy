/** The arena as a run of chunks laid end to end.

    A chunk is known by its start address.  `Chunks` records, for every chunk,
    its size in bytes and whether it is in use; `top` is the last chunk, which
    is always free.  The operations below are the only ways in which the
    allocator ever changes the layout. */
module HeapTiling {

  datatype Chunk = Chunk(size: nat, used: bool)

  type Chunks = map<nat, Chunk>

  predicate Aligned(x: int) { x % 16 == 0 }

  /** The address right after chunk p, where the next chunk starts. */
  function Next(c: Chunks, p: nat): nat
    requires p in c
  {
    p + c[p].size
  }

  ghost predicate HasPrev(c: Chunks, p: nat) {
    exists q :: q in c && Next(c, q) == p
  }

  ghost predicate Shaped(c: Chunks, base: nat, top: nat) {
    forall p :: p in c ==> base <= p <= top && Aligned(p) && 32 <= c[p].size && Aligned(c[p].size)
  }

  ghost predicate Linked(c: Chunks, top: nat) {
    forall p {:trigger Next(c, p)} :: p in c && p != top ==> Next(c, p) in c
  }

  ghost predicate Disjoint(c: Chunks) {
    forall p, q :: p in c && q in c && p < q ==> p + c[p].size <= q
  }

  ghost predicate Backed(c: Chunks, base: nat) {
    forall p {:trigger HasPrev(c, p)} :: p in c && p != base ==> HasPrev(c, p)
  }

  /** The chunks are aligned, at least 32 bytes long, and cover base..end with
      neither gap nor overlap. */
  ghost predicate Tiled(c: Chunks, base: nat, top: nat, end: nat) {
    && base in c && top in c && Next(c, top) == end
    && Shaped(c, base, top) && Linked(c, top) && Disjoint(c) && Backed(c, base)
  }

  /** No free chunk borders another free chunk; top counts as free. */
  ghost predicate Coalesced(c: Chunks, top: nat)
    requires top in c && Linked(c, top)
  {
    && !c[top].used
    && forall p {:trigger Next(c, p)} :: p in c && p != top && !c[p].used ==> c[Next(c, p)].used
  }

  function SplitAt(c: Chunks, p: nat, n: nat, front: bool, back: bool): Chunks
    requires p in c && n <= c[p].size
  {
    c[p := Chunk(n, front)][p + n := Chunk(c[p].size - n, back)]
  }

  function JoinNext(c: Chunks, p: nat, used: bool): Chunks
    requires p in c && Next(c, p) in c
  {
    (c - {Next(c, p)})[p := Chunk(c[p].size + c[Next(c, p)].size, used)]
  }

  function SetUsed(c: Chunks, p: nat, used: bool): Chunks
    requires p in c
  {
    c[p := Chunk(c[p].size, used)]
  }

  lemma AlignedSum(a: int, b: int)
    requires Aligned(a) && Aligned(b)
    ensures Aligned(a + b) && Aligned(a - b)
  {
  }

  lemma InBounds(c: Chunks, base: nat, top: nat, end: nat, x: nat)
    requires Tiled(c, base, top, end) && x in c
    ensures Aligned(x) && base <= x <= top && x + 32 <= end
  {
  }

  lemma MinSize(c: Chunks, base: nat, top: nat, end: nat, x: nat)
    requires Tiled(c, base, top, end) && x in c
    ensures 32 <= c[x].size
  {
  }

  lemma PrevUnique(c: Chunks, base: nat, top: nat, end: nat, p: nat, q: nat)
    requires Tiled(c, base, top, end) && p in c && q in c && Next(c, p) == Next(c, q)
    ensures p == q
  {
  }

  lemma SplitTiled(c: Chunks, base: nat, top: nat, end: nat, p: nat, n: nat, front: bool, back: bool)
    requires Tiled(c, base, top, end) && p in c
    requires 32 <= n && Aligned(n) && 32 + n <= c[p].size
    ensures p + n !in c
    ensures Tiled(SplitAt(c, p, n, front, back), base, if p == top then p + n else top, end)
  {
    SplitShape(c, base, top, p, n, front, back);
    SplitDisjoint(c, p, n, front, back);
    SplitLinked(c, base, top, end, p, n, front, back);
    SplitBacked(c, base, p, n, front, back);
  }

  lemma SplitShape(c: Chunks, base: nat, top: nat, p: nat, n: nat, front: bool, back: bool)
    requires Shaped(c, base, top) && p in c && top in c && (p != top ==> Next(c, p) <= top)
    requires 32 <= n && Aligned(n) && 32 + n <= c[p].size
    ensures Shaped(SplitAt(c, p, n, front, back), base, if p == top then p + n else top)
  {
    AlignedSum(p, n);
    AlignedSum(c[p].size, n);
    hide Aligned;
  }

  lemma SplitDisjoint(c: Chunks, p: nat, n: nat, front: bool, back: bool)
    requires Disjoint(c) && p in c && 0 < n < c[p].size
    ensures p + n !in c && Disjoint(SplitAt(c, p, n, front, back))
  {
    assert p + n !in c;
    var d := SplitAt(c, p, n, front, back);
    forall x, y | x in d && y in d && x < y ensures x + d[x].size <= y {
      if x != p && x != p + n && y == p + n {
        assert x < p ==> x + c[x].size <= p;
      }
    }
  }

  lemma SplitLinked(c: Chunks, base: nat, top: nat, end: nat, p: nat, n: nat, front: bool, back: bool)
    requires Tiled(c, base, top, end) && p in c && p + n !in c && 0 < n < c[p].size
    ensures Linked(SplitAt(c, p, n, front, back), if p == top then p + n else top)
  {
    var d := SplitAt(c, p, n, front, back);
    var t := if p == top then p + n else top;
    assert Next(d, p) == p + n && Next(d, p + n) == Next(c, p);
    forall x {:trigger Next(d, x)} | x in d && x != t ensures Next(d, x) in d {
      if x != p && x != p + n {
        assert Next(d, x) == Next(c, x);
      }
    }
  }

  lemma SplitBacked(c: Chunks, base: nat, p: nat, n: nat, front: bool, back: bool)
    requires Backed(c, base) && p in c && p + n !in c && 0 < n < c[p].size
    ensures Backed(SplitAt(c, p, n, front, back), base)
  {
    var d := SplitAt(c, p, n, front, back);
    assert Next(d, p) == p + n && Next(d, p + n) == Next(c, p);
    forall x {:trigger HasPrev(d, x)} | x in d && x != base ensures HasPrev(d, x) {
      if x != p + n {
        assert HasPrev(c, x);
        var q :| q in c && Next(c, q) == x;
        assert Next(d, if q == p then p + n else q) == x;
      }
    }
  }

  lemma JoinTiled(c: Chunks, base: nat, top: nat, end: nat, p: nat, used: bool)
    requires Tiled(c, base, top, end) && p in c && p != top
    ensures Tiled(JoinNext(c, p, used), base, if Next(c, p) == top then p else top, end)
  {
    JoinShape(c, base, top, p, used);
    JoinDisjoint(c, p, used);
    JoinLinked(c, base, top, end, p, used);
    JoinBacked(c, base, p, used);
  }

  lemma JoinShape(c: Chunks, base: nat, top: nat, p: nat, used: bool)
    requires Shaped(c, base, top) && Disjoint(c) && p in c && p != top && Next(c, p) in c
    ensures Shaped(JoinNext(c, p, used), base, if Next(c, p) == top then p else top)
  {
    var n := Next(c, p);
    AlignedSum(c[p].size, c[n].size);
    hide Aligned;
    assert n == top ==> forall x :: x in c && x != top ==> x <= p;
  }

  lemma JoinDisjoint(c: Chunks, p: nat, used: bool)
    requires Disjoint(c) && p in c && Next(c, p) in c
    ensures Disjoint(JoinNext(c, p, used))
  {
    var d, n := JoinNext(c, p, used), Next(c, p);
    forall x, y | x in d && y in d && x < y ensures x + d[x].size <= y {
      if x == p {
        assert p + c[p].size <= y && n < y;
      }
    }
  }

  lemma JoinLinked(c: Chunks, base: nat, top: nat, end: nat, p: nat, used: bool)
    requires Tiled(c, base, top, end) && p in c && p != top
    ensures Linked(JoinNext(c, p, used), if Next(c, p) == top then p else top)
  {
    var d, n := JoinNext(c, p, used), Next(c, p);
    var t := if n == top then p else top;
    assert Next(d, p) == Next(c, n);
    forall x {:trigger Next(d, x)} | x in d && x != t ensures Next(d, x) in d {
      if x != p {
        assert Next(d, x) == Next(c, x);
        if Next(c, x) == n { PrevUnique(c, base, top, end, x, p); }
      }
    }
  }

  lemma JoinBacked(c: Chunks, base: nat, p: nat, used: bool)
    requires Backed(c, base) && p in c && Next(c, p) in c && c[p].size > 0
    ensures Backed(JoinNext(c, p, used), base)
  {
    var d, n := JoinNext(c, p, used), Next(c, p);
    assert Next(d, p) == Next(c, n);
    forall x {:trigger HasPrev(d, x)} | x in d && x != base ensures HasPrev(d, x) {
      assert HasPrev(c, x);
      var q :| q in c && Next(c, q) == x;
      assert Next(d, if q == n then p else q) == x;
    }
  }

  lemma UseTiled(c: Chunks, base: nat, top: nat, end: nat, p: nat, used: bool)
    requires Tiled(c, base, top, end) && p in c
    ensures Tiled(SetUsed(c, p, used), base, top, end)
  {
    var d := SetUsed(c, p, used);
    assert forall x {:trigger Next(d, x)} :: x in c ==> Next(d, x) == Next(c, x);
    forall x {:trigger HasPrev(d, x)} | x in d && x != base ensures HasPrev(d, x) {
      assert HasPrev(c, x);
      var q :| q in c && Next(c, q) == x;
      assert Next(d, q) == x;
    }
  }

  /** Extending the arena lengthens top. */
  lemma GrowTiled(c: Chunks, base: nat, top: nat, end: nat, n: nat)
    requires Tiled(c, base, top, end) && Aligned(n)
    ensures Tiled(c[top := Chunk(c[top].size + n, c[top].used)], base, top, end + n)
  {
    var d := c[top := Chunk(c[top].size + n, c[top].used)];
    assert forall x {:trigger Next(d, x)} :: x in c && x != top ==> Next(d, x) == Next(c, x);
    forall x {:trigger HasPrev(d, x)} | x in d && x != base ensures HasPrev(d, x) {
      assert HasPrev(c, x);
      var q :| q in c && Next(c, q) == x;
      assert Next(d, q) == x;
    }
  }
}

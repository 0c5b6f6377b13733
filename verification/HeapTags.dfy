/** Boundary tags: the words that describe the chunks inside the arena itself.

    Memory is a map from byte addresses to 8-byte words.  The word at p is the
    prev_size field of chunk p and the word at p + 8 its size field, whose
    lowest bit is PREV_INUSE.  The user data of chunk p are the words from
    p + 16 up to and including the prev_size field of the next chunk. */
module HeapTags {
  import opened HeapTiling

  type Mem = map<nat, nat>

  const SIZE_SZ: nat := 8
  const PREV_INUSE: nat := 1

  function Bit(used: bool): nat { if used then 1 else 0 }

  /** Memory is read and written in words of 8 bytes. */
  predicate OnWord(a: int) { a % 8 == 0 }

  lemma SameWord(a: int, b: int)
    requires OnWord(a) && OnWord(b) && a <= b < a + 8
    ensures a == b
  {
  }

  lemma WordSum(a: int, b: int)
    requires OnWord(a) && OnWord(b)
    ensures OnWord(a + b)
  {
  }

  lemma AlignedWord(a: int)
    requires Aligned(a)
    ensures OnWord(a) && OnWord(a + 8)
  {
    assert a == 16 * (a / 16);
    assert a / 8 == 2 * (a / 16);
  }

  /** size & ~SIZE_BITS */
  function SizeOf(head: nat): nat { head - head % 4 }

  /** size & PREV_INUSE */
  predicate PrevInUse(head: nat) { head % 2 == 1 }

  lemma HeadParts(size: nat, used: bool)
    requires Aligned(size)
    ensures SizeOf(size + Bit(used)) == size && (PrevInUse(size + Bit(used)) <==> used)
  {
    var q := Quotient(size);
    Remainder4(size + Bit(used), 4 * q, Bit(used));
    Remainder2(size + Bit(used), 8 * q, Bit(used));
  }

  lemma Quotient(size: nat) returns (q: nat)
    requires Aligned(size)
    ensures size == 16 * q
  {
    q := size / 16;
  }

  lemma Remainder4(h: nat, q: nat, r: nat)
    requires h == 4 * q + r && r < 4
    ensures h % 4 == r
  {
  }

  lemma Remainder2(h: nat, q: nat, r: nat)
    requires h == 2 * q + r && r < 2
    ensures h % 2 == r
  {
  }

  /** The words at n, the upper end of chunk p: the size field of the chunk
      there carries p's in-use bit, and a free p repeats its size as a footer. */
  ghost predicate Boundary(m: Mem, c: Chunks, p: nat, n: nat)
    requires p in c && n in c
  {
    && Footed(m, c, p, n)
    && n + 8 in m && m[n + 8] == c[n].size + Bit(c[p].used)
  }

  ghost predicate Footed(m: Mem, c: Chunks, p: nat, n: nat)
    requires p in c
  {
    n in m && (!c[p].used ==> m[n] == c[p].size)
  }

  ghost predicate Tagged(m: Mem, c: Chunks, base: nat, top: nat)
    requires base in c && Linked(c, top)
  {
    && base + 8 in m && m[base + 8] == c[base].size + 1
    && forall p {:trigger Next(c, p)} :: p in c && p != top ==> Boundary(m, c, p, Next(c, p))
  }

  /** Every tag is right except the size field of chunk x and the words at the
      upper end of x. */
  ghost predicate TaggedExcept(m: Mem, c: Chunks, base: nat, top: nat, x: nat)
    requires base in c && Linked(c, top)
  {
    && (x != base ==> base + 8 in m && m[base + 8] == c[base].size + 1)
    && (forall p {:trigger Next(c, p)} :: p in c && p != top && p != x ==>
         if Next(c, p) == x then Footed(m, c, p, x) else Boundary(m, c, p, Next(c, p)))
  }

  /** The in-use bit that the size field of chunk p has to carry. */
  ghost predicate PrevUsed(c: Chunks, base: nat, p: nat) {
    p == base || exists q :: q in c && Next(c, q) == p && c[q].used
  }

  lemma ExceptTagged(m: Mem, c: Chunks, base: nat, top: nat, x: nat)
    requires base in c && Linked(c, top) && Tagged(m, c, base, top)
    ensures TaggedExcept(m, c, base, top, x)
  {
  }

  /** Reading a size field: it gives the size, and the bit tells whether the
      chunk below is in use; if not, prev_size leads to its start. */
  lemma ReadHead(m: Mem, c: Chunks, base: nat, top: nat, end: nat, p: nat)
    requires Tiled(c, base, top, end) && Tagged(m, c, base, top) && p in c
    ensures p in m || p == base
    ensures p + 8 in m && SizeOf(m[p + 8]) == c[p].size
    ensures m[p + 8] == c[p].size + Bit(PrevInUse(m[p + 8]))
    ensures PrevInUse(m[p + 8]) <==> PrevUsed(c, base, p)
    ensures !PrevInUse(m[p + 8]) ==>
      p in m && m[p] <= p && p - m[p] in c && Next(c, p - m[p]) == p && !c[p - m[p]].used && p - m[p] != top
  {
    hide *;
    HeadWord(m, c, base, top, end, p);
    SizeAligned(c, base, top, end, p);
    HeadParts(c[p].size, PrevUsed(c, base, p));
  }

  lemma SizeAligned(c: Chunks, base: nat, top: nat, end: nat, x: nat)
    requires Tiled(c, base, top, end) && x in c
    ensures Aligned(c[x].size)
  {
  }

  lemma HeadWord(m: Mem, c: Chunks, base: nat, top: nat, end: nat, p: nat)
    requires Tiled(c, base, top, end) && Tagged(m, c, base, top) && p in c
    ensures p in m || p == base
    ensures p + 8 in m && m[p + 8] == c[p].size + Bit(PrevUsed(c, base, p))
    ensures !PrevUsed(c, base, p) ==>
      p in m && m[p] <= p && p - m[p] in c && Next(c, p - m[p]) == p && !c[p - m[p]].used && p - m[p] != top
  {
    hide Aligned;
    if p != base {
      assert HasPrev(c, p);
      var q :| q in c && Next(c, q) == p;
      assert q != top;
      assert Boundary(m, c, q, p);
      forall r | r in c && Next(c, r) == p ensures r == q {
        PrevUnique(c, base, top, end, q, r);
      }
    }
  }

  ghost predicate SameOutside(m: Mem, m': Mem, lo: nat, hi: nat) {
    forall a :: a in m && !(lo <= a < hi) ==> a in m' && m'[a] == m[a]
  }

  /** Once the size field of x and the words at its upper end are written, all
      tags are right again. */
  lemma Seal(m: Mem, m': Mem, c: Chunks, base: nat, top: nat, end: nat, x: nat)
    requires Tiled(c, base, top, end) && x in c && TaggedExcept(m, c, base, top, x)
    requires SameOutside(m, m', x + 8, Next(c, x) + 16)
    requires x + 8 in m' && m'[x + 8] == c[x].size + Bit(PrevUsed(c, base, x))
    requires x != top ==> Boundary(m', c, x, Next(c, x))
    ensures Tagged(m', c, base, top)
  {
    forall p {:trigger Next(c, p)} | p in c && p != top ensures Boundary(m', c, p, Next(c, p)) {
      if p != x {
        SealOne(m, m', c, base, top, end, x, p);
      }
    }
  }

  lemma OffRange(c: Chunks, base: nat, top: nat, end: nat, x: nat, n: nat)
    requires Tiled(c, base, top, end) && x in c && n in c && n != Next(c, x)
    ensures if n < x then n + 32 <= x else n == x || Next(c, x) + 32 <= n
  {
    if x < n {
      assert x != top;
      assert Next(c, x) in c;
    }
  }

  lemma SealOne(m: Mem, m': Mem, c: Chunks, base: nat, top: nat, end: nat, x: nat, p: nat)
    requires Tiled(c, base, top, end) && x in c && TaggedExcept(m, c, base, top, x)
    requires SameOutside(m, m', x + 8, Next(c, x) + 16)
    requires x + 8 in m' && m'[x + 8] == c[x].size + Bit(PrevUsed(c, base, x))
    requires p in c && p != top && p != x
    ensures Boundary(m', c, p, Next(c, p))
  {
    var n := Next(c, p);
    assert Footed(m, c, p, Next(c, p));
    assert n != Next(c, x) by {
      if n == Next(c, x) { PrevUnique(c, base, top, end, p, x); }
    }
    assert n in c && (n <= x || Next(c, x) + 16 <= n) by { OffRange(c, base, top, end, x, n); }
    if n == x {
      assert c[p].used <==> PrevUsed(c, base, x) by {
        forall q | q in c && Next(c, q) == x ensures q == p { PrevUnique(c, base, top, end, p, q); }
      }
    } else {
      assert Boundary(m, c, p, n);
    }
  }

  lemma ExceptJoinForward(m: Mem, c: Chunks, base: nat, top: nat, end: nat, x: nat, used: bool)
    requires Tiled(c, base, top, end) && x in c && x != top && TaggedExcept(m, c, base, top, x)
    ensures Tiled(JoinNext(c, x, used), base, if Next(c, x) == top then x else top, end)
    ensures TaggedExcept(m, JoinNext(c, x, used), base, if Next(c, x) == top then x else top, x)
  {
    JoinTiled(c, base, top, end, x, used);
    var d, n := JoinNext(c, x, used), Next(c, x);
    var t := if n == top then x else top;
    forall p {:trigger Next(d, p)} | p in d && p != t && p != x
      ensures if Next(d, p) == x then Footed(m, d, p, x) else Boundary(m, d, p, Next(d, p))
    {
      assert Next(d, p) == Next(c, p);
      assert Footed(m, c, p, Next(c, p));
    }
  }

  lemma ExceptJoinBackward(m: Mem, c: Chunks, base: nat, top: nat, end: nat, x: nat, q: nat, used: bool)
    requires Tiled(c, base, top, end) && q in c && q != top && Next(c, q) == x && TaggedExcept(m, c, base, top, x)
    ensures Tiled(JoinNext(c, q, used), base, if x == top then q else top, end)
    ensures TaggedExcept(m, JoinNext(c, q, used), base, if x == top then q else top, q)
  {
    JoinTiled(c, base, top, end, q, used);
    var d := JoinNext(c, q, used);
    var t := if x == top then q else top;
    forall p {:trigger Next(d, p)} | p in d && p != t && p != q
      ensures if Next(d, p) == q then Footed(m, d, p, q) else Boundary(m, d, p, Next(d, p))
    {
      assert Next(d, p) == Next(c, p);
      assert Footed(m, c, p, Next(c, p));
      if Next(c, p) == x { PrevUnique(c, base, top, end, p, q); }
    }
  }

  /** The same for a chunk that is cut in two: the size fields of both parts
      and the words at their upper ends are written. */
  lemma SealSplit(m: Mem, m': Mem, c: Chunks, base: nat, top: nat, end: nat, x: nat, n: nat, front: bool, back: bool)
    requires Tiled(c, base, top, end) && x in c && TaggedExcept(m, c, base, top, x)
    requires 32 <= n && Aligned(n) && 32 + n <= c[x].size
    requires SameOutside(m, m', x + 8, Next(c, x) + 16)
    requires x + 8 in m' && m'[x + 8] == n + Bit(PrevUsed(c, base, x))
    requires Boundary(m', SplitAt(c, x, n, front, back), x, x + n)
    requires x != top ==> Boundary(m', SplitAt(c, x, n, front, back), x + n, Next(c, x))
    ensures Tiled(SplitAt(c, x, n, front, back), base, if x == top then x + n else top, end)
    ensures Tagged(m', SplitAt(c, x, n, front, back), base, if x == top then x + n else top)
  {
    SplitTiled(c, base, top, end, x, n, front, back);
    var d, t := SplitAt(c, x, n, front, back), if x == top then x + n else top;
    SplitNexts(c, base, top, end, x, n, front, back);
    forall p {:trigger Next(d, p)} | p in d && p != t ensures Boundary(m', d, p, Next(d, p)) {
      if p != x && p != x + n {
        SealSplitOne(m, m', c, base, top, end, x, n, front, back, p);
      }
    }
    if x != base {
      assert d[base] == c[base];
    }
  }

  lemma SplitNexts(c: Chunks, base: nat, top: nat, end: nat, x: nat, n: nat, front: bool, back: bool)
    requires Tiled(c, base, top, end) && x in c && 0 < n < c[x].size
    ensures x + n !in c
    ensures forall p {:trigger Next(SplitAt(c, x, n, front, back), p)} :: p in SplitAt(c, x, n, front, back) ==>
      Next(SplitAt(c, x, n, front, back), p) == if p == x then x + n else if p == x + n then Next(c, x) else Next(c, p)
  {
    assert x + n !in c;
  }

  lemma SealSplitOne(m: Mem, m': Mem, c: Chunks, base: nat, top: nat, end: nat, x: nat, n: nat, front: bool, back: bool, p: nat)
    requires Tiled(c, base, top, end) && x in c && TaggedExcept(m, c, base, top, x)
    requires Aligned(n) && 0 < n < c[x].size
    requires SameOutside(m, m', x + 8, Next(c, x) + 16)
    requires x + 8 in m' && m'[x + 8] == n + Bit(PrevUsed(c, base, x))
    requires p in c && p != top && p != x
    ensures p != x + n && Next(c, p) in c && Boundary(m', SplitAt(c, x, n, front, back), p, Next(c, p))
  {
    var q := Next(c, p);
    assert Footed(m, c, p, q);
    assert q != Next(c, x) by {
      if q == Next(c, x) { PrevUnique(c, base, top, end, p, x); }
    }
    assert q in c && (q <= x || Next(c, x) + 16 <= q) by { OffRange(c, base, top, end, x, q); }
    assert x + n !in c;
    if q == x {
      assert c[p].used <==> PrevUsed(c, base, x) by {
        forall r | r in c && Next(c, r) == x ensures r == p { PrevUnique(c, base, top, end, p, r); }
      }
    } else {
      assert Boundary(m, c, p, q);
    }
  }

  /** The words that hold the user data of a chunk of the given size at p. */
  predicate InPayload(a: nat, p: nat, size: nat) { p + 16 <= a < p + size + 8 }

  ghost predicate SamePayload(m: Mem, m': Mem, p: nat, size: nat) {
    forall a :: InPayload(a, p, size) && a in m ==> a in m' && m'[a] == m[a]
  }

  /** The words that a change of the tags of chunk x may write lie outside the
      user data of every other chunk. */
  lemma TagsOffPayload(c: Chunks, base: nat, top: nat, end: nat, x: nat, p: nat, a: nat)
    requires Tiled(c, base, top, end) && x in c && p in c && p != x
    requires x + 8 <= a < Next(c, x) + 16
    ensures !InPayload(a, p, c[p].size)
  {
    if p < x {
      assert p + c[p].size <= x;
    } else {
      assert x + c[x].size <= p;
    }
  }
}

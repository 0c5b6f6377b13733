/** The heap as its callers see it: a set of blocks, each with a size and with
    the words last stored in it.  Every call behaves as this simple picture
    says, whatever the allocator does underneath. */
module HeapClient {
  import opened HeapSizes
  import opened HeapTiling
  import opened HeapTags
  import opened HeapBins
  import opened HeapSteps
  import opened HeapChoice
  import opened HeapGrow
  import opened HeapAllocator

  /** A block of size bytes; data holds the words known to be stored in it, by
      their offset. */
  datatype Block = Block(size: nat, data: map<nat, nat>)

  type Blocks = map<nat, Block>

  ghost predicate Backs(b: Block, a: Arena, r: nat) {
    && 16 <= r && Aligned(r) && r - 16 in a.c && a.c[r - 16].used && b.size + 8 <= a.c[r - 16].size
    && forall o :: o in b.data ==> o < b.size && OnWord(o) && r + o in a.m && a.m[r + o] == b.data[o]
  }

  /** The arena's chunks in use are the blocks, and hold the blocks' data. */
  ghost predicate Agrees(v: Blocks, a: Arena) {
    && (forall r :: r in v ==> Backs(v[r], a, r))
    && (forall p :: p in Live(a.c) ==> p + 16 in v)
  }

  /** Blocks lie inside the arena and share no byte. */
  lemma BlocksApart(v: Blocks, a: Arena, r: nat, s: nat)
    requires Ok(a) && Agrees(v, a) && r in v && s in v
    ensures a.base < r && r + v[r].size <= a.end
    ensures r != s ==> r + v[r].size <= s || s + v[s].size <= r
  {
    assert Backs(v[r], a, r) && Backs(v[s], a, s);
    assert r - 16 != a.top && Next(a.c, r - 16) in a.c;
    hide Coalesced, Words, Tagged, BinnedBut, Linked, Backed, Aligned;
  }

  function Kept(data: map<nat, nat>, bytes: nat): map<nat, nat> {
    map o | o in data && o < bytes :: data[o]
  }

  function Zeros(bytes: nat): map<nat, nat> {
    map o | 0 <= o < bytes && OnWord(o) :: 0
  }

  lemma BlockKept(b: Block, a: Arena, a': Arena, r: nat, x: set<nat>)
    requires Backs(b, a, r) && Keeps(a, a', x) && r - 16 !in x
    ensures Backs(b, a', r)
  {
    assert SamePayload(a.m, a'.m, r - 16, a.c[r - 16].size);
    forall o | o in b.data ensures r + o in a'.m && a'.m[r + o] == b.data[o] {
      assert InPayload(r + o, r - 16, a.c[r - 16].size);
    }
  }

  lemma AgreesGranted(v: Blocks, a: Arena, a': Arena, nb: nat, p: nat, b: Block)
    requires Agrees(v, a) && Granted(a, a', nb, p) && Backs(b, a', p + 16)
    ensures p + 16 !in v && Agrees(v[p + 16 := b], a')
  {
    forall r | r in v ensures r != p + 16 { assert Backs(v[r], a, r); }
    forall r | r in v ensures Backs(v[r], a', r) {
      BlockKept(v[r], a, a', r, {});
    }
  }

  lemma AgreesSame(v: Blocks, a: Arena, a': Arena)
    requires Agrees(v, a) && a'.m == a.m && a'.c == a.c
    ensures Agrees(v, a')
  {
    assert forall r :: r in v ==> Backs(v[r], a, r);
  }

  lemma AgreesFreed(v: Blocks, a: Arena, a': Arena, r: nat)
    requires Agrees(v, a) && r in v && 16 <= r && Live(a'.c) == Live(a.c) - {r - 16} && Keeps(a, a', {r - 16})
    ensures Agrees(v - {r}, a')
  {
    forall s | s in v - {r} ensures Backs(v[s], a', s) {
      BlockKept(v[s], a, a', s, {r - 16});
    }
  }

  lemma BlockCarried(b: Block, a: Arena, a': Arena, r: nat, n: nat, nb: nat, bytes: nat)
    requires Backs(b, a, r) && 16 <= n && Aligned(n) && Reallocated(a, a', r - 16, n - 16, nb) && bytes + 8 <= nb
    ensures Backs(Block(bytes, Kept(b.data, bytes)), a', n)
  {
    hide OnWord, Aligned, Keeps, Live;
    var p, q := r - 16, n - 16;
    forall o | o in Kept(b.data, bytes) ensures n + o in a'.m && a'.m[n + o] == b.data[o] {
      var w := r + o;
      RoundedOffset(p, o);
      assert w - p + q == n + o;
    }
  }

  lemma RoundedOffset(p: nat, o: nat)
    requires Aligned(p + 16) && OnWord(o)
    ensures OnWord(p + 16 + o)
  {
    AlignedWord(p + 16);
    WordSum(p + 16, o);
  }

  lemma AgreesReallocated(v: Blocks, a: Arena, a': Arena, r: nat, n: nat, nb: nat, bytes: nat)
    requires Agrees(v, a) && r in v && 16 <= n && Aligned(n) && bytes + 8 <= nb && Backs(v[r], a, r)
    requires Reallocated(a, a', r - 16, n - 16, nb)
    ensures n == r || n !in v
    ensures Agrees((v - {r})[n := Block(bytes, Kept(v[r].data, bytes))], a')
  {
    BlockCarried(v[r], a, a', r, n, nb, bytes);
    assert n in v ==> Backs(v[n], a, n);
    forall s | s in v && s != r ensures Backs(v[s], a', s) {
      BlockKept(v[s], a, a', s, {r - 16});
    }
  }

  lemma AgreesWrite(v: Blocks, a: Arena, a': Arena, r: nat, o: nat, x: nat)
    requires Agrees(v, a) && r in v && Backs(v[r], a, r) && o < v[r].size && OnWord(o)
    requires a' == a.(m := a.m[r + o := x]) && Keeps(a, a', {r - 16})
    ensures Agrees(v[r := Block(v[r].size, v[r].data[o := x])], a')
  {
    forall s | s in v && s != r ensures Backs(v[s], a', s) {
      BlockKept(v[s], a, a', s, {r - 16});
    }
  }

  lemma ZeroBlock(a: Arena, a': Arena, r: nat, bytes: nat)
    requires Cleared(a, a', bytes, r)
    ensures 16 <= r && bytes < WORD && Granted(a, a', Request2Size(bytes), r - 16) && Backs(Block(bytes, Zeros(bytes)), a', r)
  {
    forall o | o in Zeros(bytes) ensures r + o in a'.m && a'.m[r + o] == 0 {
      RoundedOffset(r - 16, o);
    }
  }

  /** The allocator and, beside it, the picture its callers have. */
  class Client {
    const heap: Heap
    ghost var blocks: Blocks

    ghost predicate Inv()
      reads this, heap
    {
      heap.Valid() && Agrees(blocks, heap.A())
    }

    constructor (start: nat, limit: nat)
      requires Aligned(start) && start <= limit && OnPage(limit)
      ensures Inv() && blocks == map[] && fresh(heap)
    {
      heap := new Heap(start, limit);
      blocks := map[];
    }

    lemma Parts()
      requires Inv()
      ensures heap.Valid() && Agrees(blocks, heap.A()) && heap.A().c == heap.chunks && heap.A().m == heap.mem
    {
    }

    lemma Whole()
      requires heap.Valid() && Agrees(blocks, heap.A())
      ensures Inv()
    {
    }

    lemma Owned(r: nat)
      requires Inv() && r in blocks
      ensures 16 <= r && Aligned(r) && r - 16 in Live(heap.chunks) && heap.Started() && Ok(heap.A())
      ensures r - 16 in heap.chunks && heap.chunks[r - 16].used && blocks[r].size + 8 <= heap.chunks[r - 16].size
      ensures Backs(blocks[r], heap.A(), r)
      ensures forall o :: o in blocks[r].data ==> r + o in heap.mem && heap.mem[r + o] == blocks[r].data[o]
    {
    }

    method Malloc(bytes: nat) returns (r: nat)
      requires Inv() && bytes < WORD
      modifies this, heap
      ensures Inv()
      ensures r == 0 ==> blocks == old(blocks)
      ensures r != 0 ==> r !in old(blocks) && blocks == old(blocks)[r := Block(bytes, map[])]
    {
      hide *;
      Parts();
      ghost var a := heap.A();
      r := heap.Malloc(bytes);
      heap.Fields();
      if r == 0 {
        AgreesSame(blocks, a, heap.A());
      } else {
        GrantedBlock(a, heap.A(), r, bytes);
        AgreesGranted(blocks, a, heap.A(), Request2Size(bytes), r - 16, Block(bytes, map[]));
        blocks := blocks[r := Block(bytes, map[])];
      }
      Whole();
    }

    method Calloc(n: nat, size: nat) returns (r: nat)
      requires Inv() && n < WORD && size < WORD
      modifies this, heap
      ensures Inv()
      ensures r == 0 ==> blocks == old(blocks)
      ensures r != 0 ==> r !in old(blocks) && blocks == old(blocks)[r := Block(n * size, Zeros(n * size))]
    {
      hide *;
      Parts();
      ghost var a := heap.A();
      r := heap.Calloc(n, size);
      heap.Fields();
      if r == 0 {
        AgreesSame(blocks, a, heap.A());
      } else {
        ZeroBlock(a, heap.A(), r, n * size);
        AgreesGranted(blocks, a, heap.A(), Request2Size(n * size), r - 16, Block(n * size, Zeros(n * size)));
        blocks := blocks[r := Block(n * size, Zeros(n * size))];
      }
      Whole();
    }

    method Free(r: nat)
      requires Inv() && (r != 0 ==> r in blocks)
      modifies this, heap
      ensures Inv() && blocks == old(blocks) - {r}
    {
      hide *;
      Parts();
      ghost var a := heap.A();
      if r != 0 { Owned(r); }
      heap.Free(r);
      heap.Fields();
      if r == 0 {
        ZeroNotOwned(blocks, a);
        AgreesSame(blocks, a, heap.A());
      } else {
        AgreesFreed(blocks, a, heap.A(), r);
      }
      blocks := blocks - {r};
      Whole();
    }

    /** A block keeps what it holds up to the smaller of the two sizes. */
    method Realloc(r: nat, bytes: nat) returns (n: nat)
      requires Inv() && r in blocks && bytes < WORD
      modifies this, heap
      ensures Inv()
      ensures bytes == 0 ==> n == 0 && blocks == old(blocks) - {r}
      ensures bytes != 0 && n == 0 ==> blocks == old(blocks)
      ensures n != 0 ==> n == r || n !in old(blocks)
      ensures n != 0 ==> blocks == (old(blocks) - {r})[n := Block(bytes, Kept(old(blocks)[r].data, bytes))]
    {
      hide *;
      Parts();
      Owned(r);
      ghost var a := heap.A();
      n := heap.Realloc(r, bytes);
      heap.Fields();
      if bytes == 0 {
        AgreesFreed(blocks, a, heap.A(), r);
        blocks := blocks - {r};
      } else if n == 0 {
        AgreesSame(blocks, a, heap.A());
      } else {
        AgreesReallocated(blocks, a, heap.A(), r, n, Request2Size(bytes), bytes);
        blocks := (blocks - {r})[n := Block(bytes, Kept(blocks[r].data, bytes))];
      }
      Whole();
    }

    /** The caller stores a word in one of its blocks. */
    method Store(r: nat, o: nat, x: nat)
      requires Inv() && r in blocks && o < blocks[r].size && OnWord(o)
      modifies this, heap
      ensures Inv() && blocks == old(blocks)[r := Block(old(blocks)[r].size, old(blocks)[r].data[o := x])]
    {
      hide *;
      Parts();
      Owned(r);
      ghost var a := heap.A();
      heap.StillValid();
      heap.Standing();
      WordInBlock(a, r, o, x, blocks[r].size);
      WritePayload(a, r - 16, a.m[r + o := x]);
      heap.mem := heap.mem[r + o := x];
      heap.WriteValid(a);
      AgreesWrite(blocks, a, heap.A(), r, o, x);
      blocks := blocks[r := Block(blocks[r].size, blocks[r].data[o := x])];
      Whole();
    }

    /** Whatever was stored last is what is found. */
    method Load(r: nat, o: nat) returns (x: nat)
      requires Inv() && r in blocks && o in blocks[r].data
      ensures x == blocks[r].data[o]
    {
      Owned(r);
      x := heap.mem[r + o];
    }
  }

  lemma GrantedBlock(a: Arena, a': Arena, r: nat, bytes: nat)
    requires 16 <= r && Aligned(r) && bytes < WORD && bytes + 8 <= Request2Size(bytes) && Granted(a, a', Request2Size(bytes), r - 16)
    ensures Backs(Block(bytes, map[]), a', r)
  {
  }

  lemma ZeroNotOwned(v: Blocks, a: Arena)
    requires Agrees(v, a)
    ensures v - {0} == v
  {
    forall r | r in v ensures r != 0 { assert Backs(v[r], a, r); }
  }

  lemma WordInBlock(a: Arena, r: nat, o: nat, x: nat, size: nat)
    requires 16 <= r && r - 16 in a.c && o < size && size + 8 <= a.c[r - 16].size
    ensures SameOutside(a.m, a.m[r + o := x], r - 16 + 16, r - 16 + a.c[r - 16].size + 8)
    ensures forall w :: w in a.m ==> w in a.m[r + o := x]
  {
  }
}

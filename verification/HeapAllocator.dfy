/** The allocator: malloc, free, realloc and calloc over boundary tags and bins. */
module HeapAllocator {
  import opened Common
  import opened HeapSizes
  import opened HeapTiling
  import opened HeapTags
  import opened HeapBins
  import opened HeapSteps
  import opened HeapChoice
  import opened HeapFree
  import opened HeapGrow
  import opened HeapTotals

  class Heap {
    /** The highest address the system can hand out; a page boundary. */
    const limit: nat
    /** The end of the memory handed out so far. */
    var brk: nat
    var sbrk_base: int
    var sbrked_mem: nat
    var mem: Mem
    var top: nat
    var bins: Bins
    var binblocks: Blocks
    ghost var chunks: Chunks

    ghost predicate Started() reads this`sbrk_base { sbrk_base >= 0 }

    ghost function A(): Arena
      reads this
    {
      Arena(mem, chunks, bins, if sbrk_base >= 0 then sbrk_base else 0, top, brk)
    }

    ghost predicate Valid()
      reads this
    {
      && brk <= limit && OnPage(limit) && Aligned(brk) && -1 <= sbrk_base
      && Marked(bins, binblocks)
      && (Started() ==> Ok(A()) && OnPage(brk) && sbrked_mem == brk - sbrk_base)
      && (!Started() ==> chunks == map[] && sbrked_mem == 0 && BinnedBut(bins, chunks, {}))
    }

    /** The bounds of a started heap. */
    ghost predicate Grounded()
      reads this`sbrk_base, this`brk, this`sbrked_mem
    {
      && sbrk_base >= 0 && brk <= limit && OnPage(limit) && Aligned(brk) && OnPage(brk) && sbrked_mem == brk - sbrk_base
    }

    constructor (start: nat, limit: nat)
      requires Aligned(start) && start <= limit && OnPage(limit)
      ensures Valid() && chunks == map[] && brk == start && this.limit == limit
    {
      this.limit := limit;
      brk := start;
      sbrk_base := -1;
      sbrked_mem := 0;
      mem := map[];
      top := 0;
      bins := seq(NAV, i => []);
      binblocks := seq(WORD_BITS, i => false);
      chunks := map[];
    }

    /** chunksize(top): top first denotes its own, empty, bin. */
    function TopSize(): nat
      requires Valid()
      reads this
      ensures Started() ==> TopSize() == chunks[top].size
      ensures !Started() ==> TopSize() == 0
    {
      if sbrk_base == -1 then 0
      else
        ReadHead(mem, chunks, sbrk_base, top, brk, top);
        SizeOf(mem[top + 8])
    }

    /** The chunks that no bin may hold. */
    ghost function Apart(): set<nat>
      reads this
    {
      if sbrk_base >= 0 then {top} else {}
    }

    lemma BinsOk()
      requires Valid()
      ensures BinnedBut(bins, chunks, Apart()) && Shaped(chunks, A().base, top)
      ensures !Started() ==> forall i :: 0 <= i < NAV ==> bins[i] == []
    {
      if !Started() {
        forall i | 0 <= i < NAV ensures bins[i] == [] {
          assert Listed(bins, chunks, {}, i);
          if bins[i] != [] { HasMember(bins[i]); }
        }
      }
    }

    /** Looks through one bin from its back, that is, from its smallest chunk. */
    method ScanBin(b: nat, nb: nat) returns (k: int)
      requires Valid() && 1 <= b < NAV
      ensures -1 <= k < |bins[b]|
      ensures forall j :: k < j < |bins[b]| && bins[b][j] in chunks ==> chunks[bins[b][j]].size < nb
      ensures 0 <= k ==> bins[b][k] in chunks && nb <= chunks[bins[b][k]].size
    {
      k := |bins[b]| - 1;
      while 0 <= k
        invariant -1 <= k < |bins[b]|
        invariant forall j :: k < j < |bins[b]| && bins[b][j] in chunks ==> chunks[bins[b][j]].size < nb
      {
        var size := ChunkSize(b, k);
        if nb <= size { return; }
        k := k - 1;
      }
    }

    /** chunksize of the chunk at a place in a bin. */
    method ChunkSize(b: nat, k: nat) returns (size: nat)
      requires Valid() && 1 <= b < NAV && k < |bins[b]|
      ensures Started() && bins[b][k] in chunks && size == chunks[bins[b][k]].size
      ensures !chunks[bins[b][k]].used && bins[b][k] != top
    {
      BinsOk();
      Binned(A(), b, k);
      ReadHead(mem, chunks, sbrk_base, top, brk, bins[b][k]);
      size := SizeOf(mem[bins[b][k] + 8]);
    }

    // ----- the search over the bins, a block of bins at a time -----

    /** Bins whose block bit is clear are empty, so nothing in them fits. */
    lemma UnmarkedNoFit(nb: nat, lo: nat, hi: nat)
      requires Valid() && 2 <= lo
      requires forall k :: lo / 4 <= k < WORD_BITS && 4 * k < hi ==> !binblocks[k]
      ensures NoFit(bins, chunks, nb, lo, hi)
    {
      forall i | lo <= i < hi && i < |bins| ensures NoFitIn(bins[i], chunks, nb) {
        assert !binblocks[i / 4];
      }
    }

    /** The first comparison of a block bit with binblocks, and those after
        each block: whether any block from this one on is marked. */
    method AnyMarked(block: nat) returns (any: bool)
      requires Valid()
      ensures any <==> exists j :: block <= j < WORD_BITS && binblocks[j]
    {
      SomeBitAbove(binblocks, block);
      any := Power2(block) <= Value(binblocks);
    }

    /** Steps from block to block until a marked one is reached. */
    method NextMarked(nb: nat, idx0: nat, block0: nat) returns (idx: nat, block: nat)
      requires Valid() && idx0 == 4 * block0 && 2 <= idx0
      requires NoFit(bins, chunks, nb, 2, idx0)
      requires exists j :: block0 <= j < WORD_BITS && binblocks[j]
      ensures idx == 4 * block && idx0 <= idx < NAV && binblocks[block]
      ensures NoFit(bins, chunks, nb, 2, idx)
    {
      idx, block := idx0, block0;
      ghost var j :| block0 <= j < WORD_BITS && binblocks[j];
      while !binblocks[block]
        invariant block0 <= block <= j && idx == 4 * block
        invariant NoFit(bins, chunks, nb, 2, idx)
        decreases j - block
      {
        UnmarkedNoFit(nb, idx, idx + 4);
        idx := idx + BINBLOCKWIDTH;
        block := block + 1;
      }
    }

    lemma BinsPassed(nb: nat, b: nat)
      requires Valid() && 2 <= b < NAV && NoFitIn(bins[b], chunks, nb) && NoFit(bins, chunks, nb, 2, b)
      requires BinIndex(nb) <= b || bins[b] == []
      ensures BinIndex(nb) < b ==> bins[b] == []
      ensures b < 63 && b % 2 == 0 ==> bins[b + 1] == [] && NoFit(bins, chunks, nb, 2, b + 2)
      ensures NoFit(bins, chunks, nb, 2, b + 1)
    {
      BinsOk();
      if BinIndex(nb) < b {
        HigherBinsFit(bins, chunks, Apart(), nb, b);
      }
      if b < 63 && b % 2 == 0 {
        OddBinsEmpty(bins, chunks, Apart(), A().base, top, b + 1);
      }
    }

    /** Looks through the bins from start to the end of start's block; below
        64 it visits every second bin only. */
    method SearchBlock(nb: nat, block: nat, start: nat) returns (b: nat, k: int, idx: nat)
      requires Valid() && 2 <= start < NAV && 4 * block <= start < 4 * block + 4 && (start < 64 ==> start % 2 == 0)
      requires NoFit(bins, chunks, nb, 2, start)
      requires BinIndex(nb) < start || !NoFitIn(bins[start], chunks, nb)
      ensures 0 <= k ==> b < NAV && k < |bins[b]| && BestFit(bins, chunks, nb, b, k)
      ensures k < 0 ==> idx == 4 * block + 4 && NoFit(bins, chunks, nb, 2, idx) && BinIndex(nb) < idx
      ensures k < 0 ==> forall i :: start <= i < idx ==> bins[i] == []
    {
      hide *;
      idx := start;
      b := start;
      BinCount();
      while true
        invariant b == idx && start <= idx < 4 * block + 4 && (idx < 64 ==> idx % 2 == 0)
        invariant NoFit(bins, chunks, nb, 2, idx)
        invariant start < idx ==> BinIndex(nb) < idx
        invariant forall i :: start <= i < idx ==> bins[i] == []
        decreases 128 - idx
      {
        k := ScanBin(b, nb);
        if 0 <= k {
          BestFitIs(bins, chunks, nb, b, k);
          return;
        }
        ScannedAll(b, nb);
        BinsPassed(nb, b);
        b := b + 1;
        if idx < MAX_SMALLBIN {
          b := b + 1;
          idx := idx + 1;
        }
        idx := idx + 1;
        if idx % 4 == 0 { break; }
      }
    }

    lemma BinCount()
      requires Valid()
      ensures |bins| == NAV == 128 && MAX_SMALLBIN == 63
    {
    }

    lemma ScannedAll(b: nat, nb: nat)
      requires Valid() && 1 <= b < NAV
      requires forall j :: -1 < j < |bins[b]| && bins[b][j] in chunks ==> chunks[bins[b][j]].size < nb
      ensures NoFitIn(bins[b], chunks, nb)
    {
    }

    /** Clears a block's bit once the bins from startidx on are known to be
        empty, provided the bins before them are empty too. */
    method ClearBlock(block: nat, startidx: nat)
      requires Valid() && 4 * block <= startidx < 4 * block + 4 && startidx < NAV
      requires forall i :: startidx <= i < 4 * block + 4 ==> bins[i] == []
      modifies this`binblocks
      ensures Valid() && (binblocks == old(binblocks) || binblocks == old(binblocks)[block := false])
    {
      var s, q := startidx, startidx;
      while true
        invariant 4 * block <= s <= startidx && q == s
        invariant forall i :: s <= i < 4 * block + 4 ==> bins[i] == []
        invariant binblocks == old(binblocks)
        decreases s
      {
        if s % 4 == 0 {
          binblocks := binblocks[block := false];
          break;
        }
        s := s - 1;
        q := q - 1;
        if bins[q] != [] { break; }
      }
    }

    /** The scan over the blocks: finds the best fitting chunk from bin start
        on, clearing the bits of the blocks it sees to be empty. */
    method SearchBlocks(nb: nat, start: nat) returns (b: nat, k: int)
      requires Valid() && 2 <= start < NAV && (start < 64 ==> start % 2 == 0)
      requires NoFit(bins, chunks, nb, 2, start)
      requires BinIndex(nb) < start || !NoFitIn(bins[start], chunks, nb)
      modifies this`binblocks
      ensures Valid()
      ensures 0 <= k ==> b < NAV && k < |bins[b]| && BestFit(bins, chunks, nb, b, k)
      ensures k < 0 ==> NoFit(bins, chunks, nb, 2, NAV)
    {
      hide Ok, BinIndex;
      b, k := 0, -1;
      var idx, block := start, start / BINBLOCKWIDTH;
      var any := AnyMarked(block);
      if !any {
        UnmarkedNoFit(nb, start, NAV);
        return;
      }
      if !binblocks[block] {
        UnmarkedNoFit(nb, start, 4 * block + 4);
        idx := idx - idx % BINBLOCKWIDTH + BINBLOCKWIDTH;
        block := block + 1;
        idx, block := NextMarked(nb, idx, block);
      }
      while true
        invariant Valid() && 2 <= idx < NAV && (idx < 64 ==> idx % 2 == 0) && idx / 4 == block
        invariant NoFit(bins, chunks, nb, 2, idx)
        invariant BinIndex(nb) < idx || !NoFitIn(bins[idx], chunks, nb)
        decreases NAV - idx
      {
        var startidx := idx;
        b, k, idx := SearchBlock(nb, block, startidx);
        if 0 <= k { return; }
        ClearBlock(block, startidx);
        block := block + 1;
        any := AnyMarked(block);
        if !any {
          UnmarkedNoFit(nb, idx, NAV);
          return;
        }
        idx, block := NextMarked(nb, idx, block);
      }
    }

    // ----- the ways of taking a chunk -----

    /** Takes a binned chunk whole. */
    method TakeWhole(b: nat, k: nat) returns (victim: nat)
      requires Valid() && Started() && 1 <= b < NAV && k < |bins[b]|
      modifies this
      ensures Valid() && Started() && old(bins)[b][k] in old(chunks)
      ensures victim == old(bins)[b][k] && chunks == SetUsed(old(chunks), victim, true)
      ensures top == old(top) && sbrk_base == old(sbrk_base) && brk == old(brk)
      ensures bins == old(bins)[b := CutAt(old(bins)[b], k)]
      ensures Live(chunks) == Live(old(chunks)) + {victim}
      ensures Keeps(old(A()), A(), {})
    {
      hide Layout, BinnedBut, Tagged;
      ghost var a := A();
      victim := bins[b][k];
      var size := ChunkSize(b, k);
      TakeOk(a, b, k);
      // unlink(victim); set_inuse_bit_at_offset(victim, victim_size)
      bins := bins[b := CutAt(bins[b], k)];
      mem := mem[victim + size + 8 := WithBit(mem[victim + size + 8])];
      chunks := SetUsed(chunks, victim, true);
      assert A() == Take(a, b, k);
    }

    /** Splits a binned chunk; the rest becomes last_remainder. */
    method TakeFront(b: nat, k: nat, nb: nat) returns (victim: nat)
      requires Valid() && Started() && 1 <= b < NAV && k < |bins[b]| && bins[b][k] in chunks
      requires 32 <= nb && Aligned(nb) && nb + MINSIZE <= chunks[bins[b][k]].size
      requires b == LAST_REMAINDER || bins[LAST_REMAINDER] == []
      modifies this
      ensures Valid() && Started() && victim == old(bins)[b][k]
      ensures chunks == SplitAt(old(chunks), victim, nb, true, false) && victim + nb !in old(chunks)
      ensures top == old(top) && sbrk_base == old(sbrk_base) && brk == old(brk)
      ensures bins == old(bins)[b := CutAt(old(bins)[b], k)][LAST_REMAINDER := [victim + nb]]
      ensures Live(chunks) == Live(old(chunks)) + {victim}
      ensures Keeps(old(A()), A(), {})
    {
      hide Tiled, Coalesced, Words, BinnedBut, Tagged;
      ghost var a := A();
      victim := bins[b][k];
      var size := ChunkSize(b, k);
      var remainder := victim + nb;
      CarveLayout(a, victim, nb);
      CarveBins(bins, chunks, top, b, k, nb);
      // set_head(victim); unlink(victim); link_last_remainder(remainder); set_head, set_foot(remainder)
      bins := bins[b := CutAt(bins[b], k)][LAST_REMAINDER := [remainder]];
      mem := mem[victim + 8 := nb + PREV_INUSE];
      mem := mem[remainder + 8 := size - nb + PREV_INUSE];
      mem := mem[remainder + (size - nb) := size - nb];
      CarveDone(a, victim, nb, mem);
      chunks := SplitAt(chunks, victim, nb, true, false);
    }

    /** Splits the front off top. */
    method TakeTop(nb: nat) returns (victim: nat)
      requires Valid() && Started() && top in chunks && 32 <= nb && Aligned(nb) && nb + MINSIZE <= chunks[top].size
      modifies this
      ensures Valid() && Started() && victim == old(top) && top == victim + nb
      ensures chunks == SplitAt(old(chunks), victim, nb, true, false) && victim + nb !in old(chunks)
      ensures bins == old(bins) && sbrk_base == old(sbrk_base) && brk == old(brk)
      ensures Live(chunks) == Live(old(chunks)) + {victim}
      ensures Keeps(old(A()), A(), {}) && SameBut(old(mem), mem, victim + 8, victim + nb + 8)
    {
      hide Tiled, Words, Tagged, BinnedBut;
      ghost var a := A();
      victim := top;
      var remainder_size := TopSize() - nb;
      CarveLayout(a, victim, nb);
      CarveTopBins(bins, chunks, top, nb);
      mem := mem[victim + 8 := nb + PREV_INUSE];
      top := victim + nb;
      mem := mem[top + 8 := remainder_size + PREV_INUSE];
      CarveDone(a, victim, nb, mem);
      chunks := SplitAt(chunks, victim, nb, true, false);
    }

    // ----- linking -----

    method SizeAt(q: nat) returns (size: nat)
      requires 0 <= sbrk_base && Tiled(chunks, sbrk_base, top, brk) && Tagged(mem, chunks, sbrk_base, top) && q in chunks
      ensures size == chunks[q].size
    {
      ReadHead(mem, chunks, sbrk_base, top, brk, q);
      size := SizeOf(mem[q + 8]);
    }

    /** Walks a large bin from its front past all chunks larger than size. */
    method FindPlace(idx: nat, size: nat, ghost x: set<nat>) returns (fd: nat)
      requires 0 <= sbrk_base && Tiled(chunks, sbrk_base, top, brk) && Tagged(mem, chunks, sbrk_base, top)
      requires 2 <= idx < NAV && BinnedBut(bins, chunks, x)
      ensures fd <= |bins[idx]| && forall j :: 0 <= j < |bins[idx]| ==> bins[idx][j] in chunks
      ensures forall j :: 0 <= j < fd ==> size < chunks[bins[idx][j]].size
      ensures forall j :: fd <= j < |bins[idx]| ==> chunks[bins[idx][j]].size <= size
    {
      hide Tiled, Tagged;
      var bin := bins[idx];
      assert Listed(bins, chunks, x, idx);
      assert forall j :: 0 <= j < |bin| ==> bin[j] in bin && bin[j] in chunks;
      fd := 0;
      while fd < |bin|
        invariant fd <= |bin|
        invariant forall j :: 0 <= j < fd ==> size < chunks[bin[j]].size
      {
        var s := SizeAt(bin[fd]);
        if s <= size { return; }
        fd := fd + 1;
      }
    }

    /** frontlink: places a free chunk in its size's bin, ahead of the chunks
        of the same size, and marks the block. */
    method Frontlink(p: nat, size: nat, ghost x: set<nat>) returns (ghost k: nat)
      requires 0 <= sbrk_base && Tiled(chunks, sbrk_base, top, brk) && Tagged(mem, chunks, sbrk_base, top)
      requires BinnedBut(bins, chunks, x) && Marked(bins, binblocks)
      requires p in x && p in chunks && !chunks[p].used && size == chunks[p].size
      modifies this`bins, this`binblocks
      ensures 2 <= BinIndex(size) < NAV && k <= |old(bins)[BinIndex(size)]|
      ensures bins == old(bins)[BinIndex(size) := PutAt(old(bins)[BinIndex(size)], k, p)]
      ensures forall j :: k <= j < |old(bins)[BinIndex(size)]| ==>
        old(bins)[BinIndex(size)][j] in chunks && chunks[old(bins)[BinIndex(size)][j]].size <= size
      ensures BinnedBut(bins, chunks, x - {p}) && Marked(bins, binblocks)
    {
      BinIndexBounds(size);
      hide BinIndex, Tagged;
      if size < MAX_SMALLBIN_SIZE {
        var idx := size / 8;
        SmallBinUniform(bins, chunks, x, sbrk_base, top, idx, size);
        LinkBinned(bins, chunks, x, p, 0);
        k := 0;
        assert PutAt(bins[idx], 0, p) == [p] + bins[idx];
        binblocks := binblocks[idx / BINBLOCKWIDTH := true];
        bins := bins[idx := [p] + bins[idx]];
      } else {
        var idx := BinIndex(size);
        var fd := FindPlace(idx, size, x);
        if bins[idx] == [] {
          binblocks := binblocks[idx / BINBLOCKWIDTH := true];
        }
        LinkBinned(bins, chunks, x, p, fd);
        k := fd;
        bins := bins[idx := PutAt(bins[idx], fd, p)];
      }
    }

    // ----- more memory -----

    /** sbrk as assumed here: it fails, or hands out the next n bytes, zeroed. */
    method Morecore(n: nat) returns (r: int)
      requires Aligned(n) && Aligned(brk) && brk <= limit
      modifies this`brk, this`mem
      ensures old(brk) + n <= limit ==> r == old(brk) && brk == old(brk) + n
      ensures limit < old(brk) + n ==> r == -1 && brk == old(brk) && mem == old(mem)
      ensures brk <= limit && Aligned(brk)
      ensures forall a :: a in old(mem) && !(old(brk) <= a < brk) ==> a in mem && mem[a] == old(mem)[a]
      ensures forall a :: old(brk) <= a < brk && OnWord(a) ==> a in mem && mem[a] == 0
    {
      if limit < brk + n { return -1; }
      r := brk;
      mem := mem + map a | brk <= a < brk + n && OnWord(a) :: 0;
      AlignedSum(brk, n);
      brk := brk + n;
    }

    /** The first call of malloc_extend_top sets the arena up. */
    method FirstExtend(nb: nat) returns (ghost grown: nat)
      requires Valid() && !Started() && Aligned(nb)
      modifies this
      ensures Valid()
      ensures grown == 0 ==> unchanged(this) && limit < brk + nb + MINSIZE
      ensures grown > 0 ==> Started() && brk == old(brk) + grown && bins == old(bins)
      ensures grown > 0 ==> top == old(brk) == sbrk_base && chunks == map[top := Chunk(grown, false)] && nb + MINSIZE <= grown
      ensures Live(chunks) == Live(old(chunks))
      ensures grown > 0 ==> FreshBut(mem, old(brk), brk, top + 8)
    {
      hide *;
      Unstarted();
      grown := 0;
      var old_end := brk;
      var sbrk_size := nb + 32;
      ExtendSizes(nb);
      var r := Morecore(sbrk_size);
      if r == -1 { return; }
      sbrked_mem := sbrked_mem + sbrk_size;
      sbrk_base := old_end;
      // the start is aligned, so that nothing is lost in front
      var correction := (4096 - (old_end + sbrk_size) % 4096) % 4096;
      ToPage(old_end + sbrk_size, limit, correction);
      AlignedSum(sbrk_size, correction);
      var m1 := mem;
      var new_brk := Morecore(correction);
      // limit is a page boundary, so the second request cannot fail
      assert new_brk == old_end + sbrk_size;
      sbrked_mem := sbrked_mem + correction;
      var top_size := new_brk - old_end + correction;
      grown := top_size;
      top := old_end;
      FreshTwice(m1, mem, old_end, new_brk, brk);
      FreshSet(mem, old_end, brk, top + 8, top_size + 1);
      mem := mem[top + 8 := top_size + 1];
      FirstTop(mem, bins, top, grown);
      chunks := map[top := Chunk(grown, false)];
      FreshLive(top, grown);
      BecomesValid();
    }

    lemma Unstarted()
      requires Valid() && !Started()
      ensures brk <= limit && OnPage(limit) && Aligned(brk) && sbrked_mem == 0 && Marked(bins, binblocks)
      ensures chunks == map[] && BinnedBut(bins, map[], {}) && sbrk_base == -1
    {
    }

    /** The bounds, bits and tags are in order: so is the heap. */
    lemma BecomesValid()
      requires sbrk_base >= 0 && brk <= limit && OnPage(limit) && Aligned(brk) && OnPage(brk) && sbrked_mem == brk - sbrk_base
      requires Marked(bins, binblocks) && Ok(Arena(mem, chunks, bins, sbrk_base, top, brk))
      ensures Valid() && Started() && A() == Arena(mem, chunks, bins, sbrk_base, top, brk)
    {
    }

    lemma StaysValid()
      requires Grounded() && Marked(bins, binblocks) && Ok(Arena(mem, chunks, bins, sbrk_base, top, brk))
      ensures Valid() && Started() && A() == Arena(mem, chunks, bins, sbrk_base, top, brk)
    {
    }

    lemma TopEnd()
      requires Valid() && Started()
      ensures top in chunks && !chunks[top].used && top + chunks[top].size == brk && 32 <= chunks[top].size
      ensures sbrk_base <= top && brk <= limit && OnPage(limit) && Aligned(brk) && OnPage(brk) && sbrked_mem == brk - sbrk_base
      ensures Words(mem, sbrk_base, brk) && Marked(bins, binblocks)
    {
    }

    /** Later calls: the new memory continues a top that ends on a page boundary. */
    method NextExtend(nb: nat) returns (ghost grown: nat)
      requires Valid() && Started() && Aligned(nb)
      modifies this
      ensures Valid()
      ensures grown == 0 ==> unchanged(this) && limit < brk + nb + MINSIZE + PAGE
      ensures grown > 0 ==> Started() && brk == old(brk) + grown && bins == old(bins)
      ensures grown > 0 ==>
        top == old(top) && sbrk_base == old(sbrk_base) && top in old(chunks) && chunks == Grown(old(chunks), top, grown)
      ensures grown > 0 ==> top in chunks && nb + MINSIZE <= chunks[top].size
      ensures Keeps(old(A()), A(), {})
      ensures Live(chunks) == Live(old(chunks))
      ensures grown > 0 ==> FreshBut(mem, old(brk), brk, top + 8)
    {
      hide *;
      ghost var a := A();
      KeepsSelf(a);
      grown := 0;
      StillValid();
      TopEnd();
      var old_top_size := SizeOfChunk(top);
      ExtendSizes(nb);
      var sbrk_size := PageUp(nb + 32);
      PageSum(brk, sbrk_size);
      var r := Morecore(sbrk_size);
      if r == -1 { return; }
      sbrked_mem := sbrked_mem + sbrk_size;
      grown := sbrk_size;
      WordsGrow(a.m, mem, a.base, a.end, sbrk_size);
      var top_size := sbrk_size + old_top_size;
      WordsSet(mem, a.base, brk, top + 8, top_size + 1);
      FreshSame(mem, a.end, brk);
      FreshSet(mem, a.end, brk, top + 8, top_size + 1);
      mem := mem[top + 8 := top_size + 1];
      GrowOk(a, sbrk_size, mem);
      GrownFacts(chunks, top, sbrk_size);
      chunks := Grown(chunks, top, sbrk_size);
      BecomesValid();
      KeepsSame(a, a.(m := mem, c := chunks), A(), {});
    }

    /** malloc_extend_top: asks the system for room for nb more bytes.  Nobody
        else calls sbrk, so its answer always continues the arena. */
    method ExtendTop(nb: nat) returns (ghost grown: nat)
      requires Valid() && Aligned(nb)
      modifies this
      ensures Valid()
      ensures grown == 0 ==> unchanged(this) && limit < brk + nb + MINSIZE + PAGE
      ensures grown > 0 ==> Started() && brk == old(brk) + grown && bins == old(bins)
      ensures grown > 0 && old(Started()) ==>
        top == old(top) && sbrk_base == old(sbrk_base) && top in old(chunks) && chunks == Grown(old(chunks), top, grown)
      ensures grown > 0 && !old(Started()) ==> top == old(brk) == sbrk_base && chunks == map[top := Chunk(grown, false)]
      ensures grown > 0 ==> top in chunks && nb + MINSIZE <= chunks[top].size
      ensures Keeps(old(A()), A(), {})
      ensures Live(chunks) == Live(old(chunks))
      ensures grown > 0 ==> FreshBut(mem, old(brk), brk, top + 8)
    {
      if sbrk_base == -1 {
        grown := FirstExtend(nb);
      } else {
        grown := NextExtend(nb);
      }
    }

    // ----- malloc -----

    /** Step 1: an exact fit from the request's own bin. */
    method TryExact(nb: nat) returns (victim: int, idx: nat)
      requires Valid() && 32 <= nb && Aligned(nb)
      modifies this
      ensures Valid()
      ensures 0 <= victim ==> Started() && FromBins(old(A()), nb, victim) && Granted(old(A()), A(), nb, victim)
      ensures 0 <= victim ==> !NoExact(old(bins), old(chunks), nb)
      ensures victim < 0 ==> unchanged(this)
      ensures victim < 0 ==> 2 <= idx < NAV && (idx < 64 ==> idx % 2 == 0) && NoFit(bins, chunks, nb, 2, idx)
      ensures victim < 0 ==> BinIndex(nb) < idx || !NoFitIn(bins[idx], chunks, nb)
      ensures victim < 0 ==> NoExact(bins, chunks, nb)
    {
      if nb < MAX_SMALLBIN_SIZE - 8 {
        victim, idx := TrySmall(nb);
      } else {
        victim, idx := TryLarge(nb);
      }
    }

    method TrySmall(nb: nat) returns (victim: int, idx: nat)
      requires Valid() && 32 <= nb < MAX_SMALLBIN_SIZE - 8 && Aligned(nb)
      modifies this
      ensures Valid()
      ensures 0 <= victim ==> Started() && FromBins(old(A()), nb, victim) && Granted(old(A()), A(), nb, victim)
      ensures 0 <= victim ==> !NoExact(old(bins), old(chunks), nb)
      ensures victim < 0 ==> unchanged(this)
      ensures victim < 0 ==> 2 <= idx < NAV && (idx < 64 ==> idx % 2 == 0) && NoFit(bins, chunks, nb, 2, idx)
      ensures victim < 0 ==> BinIndex(nb) < idx && NoExact(bins, chunks, nb)
    {
      victim := -1;
      idx := nb / 8;
      SmallBinFacts(nb);
      hide Ok, BinnedBut, Marked, BinIndex, Keeps, Aligned, Live;
      if bins[idx] != [] {
        ghost var a := A();
        var k := |bins[idx]| - 1;
        var size := ChunkSize(idx, k);
        assert BestFit(a.bins, a.c, nb, idx, k);
        var v := TakeWhole(idx, k);
        victim := v;
        return;
      }
      idx := idx + 2;
    }

    lemma SmallBinFacts(nb: nat)
      requires Valid() && 32 <= nb < MAX_SMALLBIN_SIZE - 8 && Aligned(nb)
      ensures BinIndex(nb) == nb / 8 && 4 <= nb / 8 < 63 && (nb / 8) % 2 == 0
      ensures |bins| == NAV && bins[nb / 8 + 1] == [] && NoFit(bins, chunks, nb, 2, nb / 8)
      ensures bins[nb / 8] != [] ==>
        var q := bins[nb / 8][|bins[nb / 8]| - 1]; q in chunks && chunks[q].size == nb
      ensures bins[nb / 8] == [] ==> NoFit(bins, chunks, nb, 2, nb / 8 + 2) && NoExact(bins, chunks, nb)
    {
      BinIndexBounds(nb);
      BinsOk();
      SmallBinExact(nb, nb);
      LowerBinsTooSmall(bins, chunks, Apart(), nb);
      SmallBinUniform(bins, chunks, Apart(), A().base, top, nb / 8, nb);
      OddBinsEmpty(bins, chunks, Apart(), A().base, top, nb / 8 + 1);
      if bins[nb / 8] != [] {
        assert bins[nb / 8][|bins[nb / 8]| - 1] in bins[nb / 8];
      }
    }

    method TryLarge(nb: nat) returns (victim: int, idx: nat)
      requires Valid() && MAX_SMALLBIN_SIZE <= nb + 8 && Aligned(nb)
      modifies this
      ensures Valid()
      ensures 0 <= victim ==> Started() && FromBins(old(A()), nb, victim) && Granted(old(A()), A(), nb, victim)
      ensures 0 <= victim ==> !NoExact(old(bins), old(chunks), nb)
      ensures victim < 0 ==> unchanged(this)
      ensures victim < 0 ==> 64 <= idx < NAV && NoFit(bins, chunks, nb, 2, idx)
      ensures victim < 0 ==> BinIndex(nb) < idx || !NoFitIn(bins[idx], chunks, nb)
      ensures victim < 0 ==> NoExact(bins, chunks, nb)
    {
      victim := -1;
      idx := BinIndex(nb);
      LargeBinFacts(nb);
      hide Ok, BinnedBut, Marked, BinIndex, Keeps, Aligned, Live;
      var k := ScanBin(idx, nb);
      if 0 <= k {
        assert bins[idx][k] in bins[idx];
        var size := ChunkSize(idx, k);
        if size - nb < MINSIZE {
          ghost var a := A();
          assert BestFit(a.bins, a.c, nb, idx, k);
          var v := TakeWhole(idx, k);
          victim := v;
          return;
        }
        // too big: this bin is scanned again after the last remainder
        OthersTooBig(idx, k);
      } else {
        assert NoFitIn(bins[idx], chunks, nb);
        idx := idx + 1;
      }
    }

    lemma LargeBinFacts(nb: nat)
      requires Valid() && MAX_SMALLBIN_SIZE <= nb + 8 && Aligned(nb)
      ensures |bins| == NAV && 64 <= BinIndex(nb) < NAV - 1 && NoFit(bins, chunks, nb, 2, BinIndex(nb))
    {
      BinIndexBounds(nb);
      BinsOk();
      LowerBinsTooSmall(bins, chunks, Apart(), nb);
    }

    lemma OthersTooBig(b: nat, k: nat)
      requires Valid() && 2 <= b < NAV && k < |bins[b]|
      ensures bins[b][k] in chunks
      ensures forall j :: 0 <= j <= k ==> bins[b][j] in chunks && chunks[bins[b][k]].size <= chunks[bins[b][j]].size
    {
      BinsOk();
      assert Listed(bins, chunks, Apart(), b);
      assert forall j :: 0 <= j <= k ==> bins[b][j] in bins[b];
    }

    /** Step 2: the last remainder is split, used up, or put into its bin. */
    method TryRemainder(nb: nat) returns (victim: int)
      requires Valid() && 32 <= nb && Aligned(nb)
      modifies this
      ensures Valid() && sbrk_base == old(sbrk_base) && top == old(top) && brk == old(brk)
      ensures 0 <= victim ==> victim in old(chunks) && nb <= old(chunks)[victim].size
      ensures 0 <= victim ==> Started() && old(bins)[LAST_REMAINDER] == [victim] && Granted(old(A()), A(), nb, victim)
      ensures victim < 0 ==> mem == old(mem) && chunks == old(chunks)
      ensures victim < 0 ==> bins[LAST_REMAINDER] == [] && NoFitIn(old(bins)[LAST_REMAINDER], chunks, nb)
      ensures victim < 0 ==> Rebinned(old(bins), bins, chunks, nb)
    {
      victim := -1;
      BinsOk();
      RebinnedSame(bins, chunks, nb);
      hide Ok, BinnedBut, BinIndex, Marked, Keeps, Live, Aligned, Rebinned;
      if bins[LAST_REMAINDER] == [] { return; }
      assert |bins[LAST_REMAINDER]| == 1 && bins[LAST_REMAINDER] == [bins[LAST_REMAINDER][0]];
      var size := ChunkSize(LAST_REMAINDER, 0);
      if nb + MINSIZE <= size {
        var v := TakeFront(LAST_REMAINDER, 0, nb);
        victim := v;
      } else if nb <= size {
        var v := TakeWhole(LAST_REMAINDER, 0);
        victim := v;
      } else {
        BinRemainder(nb, size);
      }
    }

    /** The last remainder, too small for the request, moves to its size's bin. */
    method BinRemainder(nb: nat, size: nat)
      requires Valid() && Started() && |bins[LAST_REMAINDER]| == 1 && size < nb
      requires bins[LAST_REMAINDER][0] in chunks && size == chunks[bins[LAST_REMAINDER][0]].size
      modifies this`bins, this`binblocks
      ensures Valid() && bins[LAST_REMAINDER] == []
      ensures Rebinned(old(bins), bins, chunks, nb)
    {
      ghost var bins0 := bins;
      var p := bins[LAST_REMAINDER][0];
      Binned(A(), LAST_REMAINDER, 0);
      UnlinkBinned(bins, chunks, {top}, LAST_REMAINDER, 0);
      assert CutAt(bins[LAST_REMAINDER], 0) == [];
      hide BinnedBut, Tagged, Coalesced, Words, BinIndex;
      bins := bins[LAST_REMAINDER := []];
      ghost var cleared := bins;
      ghost var k := Frontlink(p, size, {top} + {p});
      assert {top} + {p} - {p} == {top};
      RebinnedBy(bins0, chunks, nb, p, BinIndex(size), k);
    }

    /** Step 3: the best fitting chunk of all bins, split or whole. */
    method TryBins(nb: nat, idx: nat) returns (victim: int)
      requires Valid() && 32 <= nb && Aligned(nb) && bins[LAST_REMAINDER] == []
      requires 2 <= idx < NAV && (idx < 64 ==> idx % 2 == 0) && NoFit(bins, chunks, nb, 2, idx)
      requires BinIndex(nb) < idx || !NoFitIn(bins[idx], chunks, nb)
      modifies this
      ensures Valid() && sbrk_base == old(sbrk_base) && top == old(top) && brk == old(brk)
      ensures 0 <= victim ==> Started() && FromBins(old(A()), nb, victim) && Granted(old(A()), A(), nb, victim)
      ensures victim < 0 ==> mem == old(mem) && chunks == old(chunks) && bins == old(bins) && NoFit(bins, chunks, nb, 2, NAV)
    {
      victim := -1;
      ghost var a := A();
      hide Ok, BinnedBut, Marked, BinIndex, Keeps, Live, Aligned;
      var b, k := SearchBlocks(nb, idx);
      if k < 0 { return; }
      var size := ChunkSize(b, k);
      assert FromBins(a, nb, bins[b][k]);
      hide BestFit, NoFit;
      if nb + MINSIZE <= size {
        var v := TakeFront(b, k, nb);
        victim := v;
      } else {
        var v := TakeWhole(b, k);
        victim := v;
      }
    }

    /** Steps 4 and 6: the front of top, extended if need be. */
    method TryTop(nb: nat) returns (victim: int)
      requires Valid() && 32 <= nb && Aligned(nb)
      modifies this
      ensures Valid()
      ensures 0 <= victim ==> Started() && Granted(old(A()), A(), nb, victim) && victim == (if old(Started()) then old(top) else old(brk))
      ensures 0 <= victim && old(Started()) ==> Fresh(mem, old(brk), victim + chunks[victim].size + 8)
      ensures victim < 0 ==> unchanged(this)
      ensures victim < 0 ==> limit < brk + nb + MINSIZE + PAGE && (Started() ==> top in chunks && chunks[top].size < nb + MINSIZE)
    {
      victim := -1;
      hide *;
      ghost var a, started := A(), Started();
      Fields();
      TopFree();
      if started { TopEnd(); }
      MinSizeIs();
      FreshNone(mem, brk, top + 8);
      KeepsSelf(a);
      if TopSize() < nb + 32 {
        ghost var grown := ExtendTop(nb);
        TopFree();
        if TopSize() < nb + 32 { return; }
      }
      ghost var b := A();
      Fields();
      TopEnd();
      var v := TakeTop(nb);
      Fields();
      KeepsBoth(a, b, A(), {});
      TopGranted(a, b, A(), nb, v);
      if started { FreshTaken(b.m, mem, a.end, b.end, b.top, nb); }
      victim := v;
    }

    lemma MinSizeIs()
      ensures MINSIZE == 32 && PREV_INUSE == 1
    {
    }

    lemma ExtendSizes(nb: nat)
      requires Aligned(nb)
      ensures Aligned(nb + 32) && MINSIZE == 32 && PAGE == 4096
    {
      AlignedSum(nb, 32);
    }

    lemma FreshLive(t: nat, n: nat)
      ensures Live(map[t := Chunk(n, false)]) == Live(map[])
    {
    }

    lemma GrownFacts(c: Chunks, t: nat, n: nat)
      requires t in c && !c[t].used
      ensures t in Grown(c, t, n) && Grown(c, t, n)[t].size == c[t].size + n && Live(Grown(c, t, n)) == Live(c)
    {
    }

    lemma TopFree()
      requires Valid()
      ensures Started() ==> top in chunks && !chunks[top].used && TopSize() == chunks[top].size
      ensures !Started() ==> TopSize() == 0 && chunks == map[]
    {
    }

    /** Hands out a chunk for a request of the given number of bytes: an exact
        fit from the request's own bin, else the last remainder if it is large
        enough, else the best fit from all bins, else the front of top. */
    method Malloc(bytes: nat) returns (r: nat)
      requires Valid() && bytes < WORD
      modifies this
      ensures Valid()
      ensures r != 0 ==> 16 <= r && Aligned(r) && bytes + 8 <= Request2Size(bytes)
      ensures r != 0 ==> Started() && Served(old(A()), old(Started()), Request2Size(bytes), r - 16)
      ensures r != 0 ==> Granted(old(A()), A(), Request2Size(bytes), r - 16)
      ensures r != 0 && old(Started()) && r - 16 == old(top) ==> Fresh(mem, old(brk), r - 8 + chunks[r - 16].size)
      ensures r == 0 ==> mem == old(mem) && chunks == old(chunks)
      ensures r == 0 && bytes <= Request2Size(bytes) <= INT_MAX ==>
        limit < brk + Request2Size(bytes) + MINSIZE + PAGE && NoFit(old(bins), old(chunks), Request2Size(bytes), 1, NAV)
    {
      RequestFits(bytes);
      hide Request2Size, Aligned;
      var nb := Request2Size(bytes);
      if INT_MAX < nb || nb < bytes { return 0; }
      var victim := Allocate(nb);
      hide NoFit, Served, Valid;
      if victim < 0 { return 0; }
      ChunkAligned(victim);
      r := victim + 16;
    }

    /** The search for a chunk of nb bytes. */
    method Allocate(nb: nat) returns (victim: int)
      requires Valid() && 32 <= nb && Aligned(nb)
      modifies this
      ensures Valid()
      ensures 0 <= victim ==> Started() && Served(old(A()), old(Started()), nb, victim) && Granted(old(A()), A(), nb, victim)
      ensures 0 <= victim && old(Started()) && victim == old(top) ==> Fresh(mem, old(brk), victim + chunks[victim].size + 8)
      ensures victim < 0 ==> mem == old(mem) && chunks == old(chunks)
      ensures victim < 0 ==> limit < brk + nb + MINSIZE + PAGE && NoFit(old(bins), old(chunks), nb, 1, NAV)
    {
      hide *;
      ghost var a, started := A(), Started();
      Fields();
      BinnedNotTop(nb);
      var idx;
      victim, idx := TryExact(nb);
      if 0 <= victim {
        ExactServed(a, started, nb, victim);
        return;
      }
      victim := TryRemainder(nb);
      if 0 <= victim {
        RemainderServed(a, A(), started, nb, victim);
        InSingleton(victim);
        return;
      }
      ghost var a1 := A();
      Fields();
      BinnedNotTop(nb);
      RebinnedScan(a.bins, bins, chunks, nb, idx);
      victim := TryBins(nb, idx);
      if 0 <= victim {
        BinsServed(a, a1, a1.bins, started, nb, victim);
        GrantedFrom(a, a1, A(), nb, victim);
        return;
      }
      RebinnedScan(a.bins, bins, chunks, nb, 128);
      a1 := A();
      Fields();
      victim := TryTop(nb);
      if 0 <= victim {
        TopServed(a, started, nb, victim);
        GrantedFrom(a, a1, A(), nb, victim);
      } else {
        NoFitFrom1(a.bins, a.c, nb);
      }
    }

    lemma InSingleton(v: nat)
      ensures v in [v]
    {
    }

    lemma BinnedNotTop(nb: nat)
      requires Valid()
      ensures Started() ==> forall p {:trigger FromBins(A(), nb, p)} :: FromBins(A(), nb, p) ==> p != top
      ensures |bins| == NAV == 128
      ensures Started() ==> forall p :: p in bins[LAST_REMAINDER] ==> p != top
    {
      if Started() {
        forall p | FromBins(A(), nb, p) ensures p != top {
          var b: nat, k: nat :| BestFit(bins, chunks, nb, b, k) && bins[b][k] == p;
          Binned(A(), b, k);
        }
        assert Listed(bins, chunks, {top}, LAST_REMAINDER);
      }
    }

    lemma ChunkAligned(p: nat)
      requires Valid() && p in chunks
      ensures Aligned(p + 16)
    {
      AlignedSum(p, 16);
    }

    // ----- free -----

    /** unlink: takes a chunk off whatever list it is on. */
    method Unlink(p: nat, ghost x: set<nat>)
      requires BinnedBut(bins, chunks, x) && Marked(bins, binblocks) && p in chunks && !chunks[p].used && p !in x
      modifies this`bins
      ensures BinnedBut(bins, chunks, x + {p}) && Marked(bins, binblocks)
      ensures p in old(bins)[LAST_REMAINDER] ==> bins == old(bins)[LAST_REMAINDER := []]
      ensures p !in old(bins)[LAST_REMAINDER] ==> bins[LAST_REMAINDER] == old(bins)[LAST_REMAINDER]
    {
      assert Placed(bins, chunks, p);
      var b, k :| 0 <= b < NAV && 0 <= k < |bins[b]| && bins[b][k] == p;
      assert p in bins[b];
      OnlyHere(bins, chunks, x, b, p);
      UnlinkBinned(bins, chunks, x, b, k);
      bins := bins[b := CutAt(bins[b], k)];
    }

    /** head & ~PREV_INUSE, and what it means for a chunk in use. */
    method ReadUsed(p: nat) returns (hd: nat, sz: nat, prev: nat, nextsz: nat)
      requires Valid() && Started() && p in chunks && chunks[p].used
      ensures sz == chunks[p].size && Next(chunks, p) in chunks && nextsz == chunks[Next(chunks, p)].size
      ensures Front(chunks, sbrk_base, p, prev) && (prev == p <==> PrevInUse(hd)) && prev <= p
      ensures prev != p ==> p in mem && prev == p - mem[p]
    {
      hide *;
      UsedHead(p);
      hd := mem[p + 8];
      sz := if PrevInUse(hd) then hd - 1 else hd;
      nextsz := SizeOfChunk(p + sz);
      prev := if PrevInUse(hd) then p else p - mem[p];
    }

    lemma UsedHead(p: nat)
      requires Valid() && Started() && p in chunks && chunks[p].used
      ensures Next(chunks, p) == p + chunks[p].size && Next(chunks, p) in chunks && p + 8 in mem
      ensures mem[p + 8] == chunks[p].size + (if PrevInUse(mem[p + 8]) then 1 else 0)
      ensures if PrevInUse(mem[p + 8]) then Front(chunks, sbrk_base, p, p)
        else p in mem && 0 < mem[p] <= p && Front(chunks, sbrk_base, p, p - mem[p])
    {
      ReadHead(mem, chunks, sbrk_base, top, brk, p);
      hide PrevInUse, SizeOf;
    }

    /** Freeing the chunk below top. */
    method FreeIntoTop(p: nat)
      requires Valid() && Started() && p in chunks && chunks[p].used && Next(chunks, p) == top
      modifies this
      ensures Valid() && Started() && sbrk_base == old(sbrk_base) && brk == old(brk)
      ensures Live(chunks) == Live(old(chunks)) - {p} && Keeps(old(A()), A(), {p})
    {
      hide *;
      ghost var a := A();
      StillValid();
      Standing();
      MinSizeIs();
      UsedHead(p);
      var hd, sz, prev, nextsz := ReadUsed(p);
      BelowTopFacts(p, prev);
      sz := sz + nextsz;
      var q := p;
      if !PrevInUse(hd) {
        // consolidate backward
        q := p - mem[p];
        sz := sz + mem[p];
        PrevIsFree(p, q);
        Unlink(q, {top});
        GrowUsed(bins, chunks, {top} + {q}, p, {top, q, p});
      } else {
        GrowUsed(bins, chunks, {top}, p, {top, q, p});
      }
      FreeTopOk(a, p, q, bins, mem[q + 8 := sz + 1]);
      mem := mem[q + 8 := sz + PREV_INUSE];
      chunks := Released(chunks, p, q);
      top := q;
      StaysValid();
      KeepsSame(a, a.(m := mem, c := chunks), A(), {p});
      // a trim would follow here if top has grown beyond the threshold
    }

    lemma BelowTopFacts(p: nat, q: nat)
      requires Valid() && Started() && p in chunks && chunks[p].used
      ensures BinnedBut(bins, chunks, {top}) && p != top && 0 < chunks[p].size
    {
    }

    /** Freeing any other chunk.  A neighbour that is the last remainder makes
        the merged chunk the last remainder; otherwise it goes to its bin. */
    method FreeIntoBin(p: nat)
      requires Valid() && Started() && p in chunks && chunks[p].used && Next(chunks, p) in chunks && Next(chunks, p) != top
      modifies this
      ensures Valid() && Started() && sbrk_base == old(sbrk_base) && brk == old(brk) && top == old(top)
      ensures Live(chunks) == Live(old(chunks)) - {p} && Keeps(old(A()), A(), {p})
    {
      hide *;
      ghost var a := A();
      StillValid();
      Standing();
      MinSizeIs();
      UsedHead(p);
      var hd, sz, prev, nextsz := ReadUsed(p);
      var next := p + sz;
      var next_used := InUse(next);
      FreeFacts(p, prev);
      // set_head(next, nextsz)
      mem := mem[next + 8 := nextsz];
      var q := p;
      if !PrevInUse(hd) {
        // consolidate backward
        q := p - mem[p];
        sz := sz + mem[p];
      }
      if !next_used {
        // consolidate forward
        sz := sz + nextsz;
      }
      ghost var off;
      var islr;
      islr, off := Detach(p, q, next, next_used);
      mem := mem[q + 8 := sz + PREV_INUSE];
      mem := mem[q + sz := sz];
      FreeMem(a, p, q, sz, mem);
      FreeBinOk(a, p, q, sz, off, mem);
      chunks := Released(chunks, p, q);
      FreeEnd(a, p, q, sz, off, islr);
      if !islr {
        ghost var k := Frontlink(q, sz, {top, q});
      }
      assert {top, q} - {q} == {top};
      LayoutSame(a.(m := mem, c := chunks), Arena(mem, chunks, bins, sbrk_base, top, brk));
      OkFrom(Arena(mem, chunks, bins, sbrk_base, top, brk));
      StaysValid();
      KeepsSame(a, a.(m := mem, c := chunks), A(), {p});
    }

    /** The list work of merging: the free neighbours leave their lists, except
        that a last remainder below stays and one above is replaced by the
        merged chunk.  Off is the state of the lists without the merged chunk. */
    method Detach(p: nat, q: nat, next: nat, next_used: bool) returns (islr: bool, ghost off: Bins)
      requires BinnedBut(bins, chunks, {top}) && Marked(bins, binblocks) && p in chunks && chunks[p].used
      requires q != p ==> q in chunks && !chunks[q].used && q != top
      requires next in chunks && next_used == chunks[next].used && next != top && next != q
      modifies this`bins
      ensures Marked(bins, binblocks)
      ensures BinnedBut(off, chunks, if next_used then {top, q, p} else {top, q, p, next})
      ensures if islr then off[LAST_REMAINDER] == [] && |bins| == NAV && bins == off[LAST_REMAINDER := [q]] else bins == off
    {
      hide BinnedBut;
      islr, off := false, bins;
      ghost var x := {top};
      if q != p {
        if q in bins[LAST_REMAINDER] {
          // keep as last_remainder
          islr := true;
          DropRemainder(bins, chunks, x, q);
          off := bins[LAST_REMAINDER := []];
        } else {
          Unlink(q, x);
          off := bins;
        }
        x := x + {q};
      }
      if !next_used {
        if !islr && next in bins[LAST_REMAINDER] {
          // re-insert last_remainder
          islr := true;
          DropRemainder(bins, chunks, x, next);
          off := bins[LAST_REMAINDER := []];
          MarkedRemainder(bins, binblocks, [q]);
          bins := bins[LAST_REMAINDER := [q]];
        } else if islr {
          Unlink(next, {top});
          DropRemainder(bins, chunks, {top} + {next}, q);
          assert {top} + {next} + {q} == x + {next};
          off := bins[LAST_REMAINDER := []];
        } else {
          Unlink(next, x);
          off := bins;
        }
        x := x + {next};
      }
      GrowUsed(off, chunks, x, p, x + {p});
      assert x + {p} == if next_used then {top, q, p} else {top, q, p, next};
    }

    lemma FreeEnd(a: Arena, p: nat, q: nat, sz: nat, off: Bins, islr: bool)
      requires BinnedBut(off, chunks, {top, q}) && q in chunks && chunks[q] == Chunk(sz, false) && q != top
      requires Layout(a.(m := mem, c := chunks)) && a.top == top && a.base == sbrk_base && a.end == brk
      requires if islr then off[LAST_REMAINDER] == [] && |bins| == NAV && bins == off[LAST_REMAINDER := [q]] else bins == off
      ensures Tiled(chunks, sbrk_base, top, brk)
      ensures islr ==> BinnedBut(bins, chunks, {top})
    {
      if islr {
        LinkRemainder(off, chunks, {top, q}, q);
        assert {top, q} - {q} == {top};
      }
    }

    /** inuse_bit_at_offset(next, nextsz) */
    method InUse(p: nat) returns (r: bool)
      requires Valid() && Started() && p in chunks && p != top
      ensures Next(chunks, p) in chunks && r == chunks[p].used
    {
      ReadHead(mem, chunks, sbrk_base, top, brk, p);
      assert Boundary(mem, chunks, p, Next(chunks, p));
      HeadParts(chunks[Next(chunks, p)].size, chunks[p].used);
      r := PrevInUse(mem[p + SizeOf(mem[p + 8]) + 8]);
    }

    /** Gives the chunk behind r back; a null pointer has no effect. */
    method Free(r: nat)
      requires Valid() && (r != 0 ==> 16 <= r && r - 16 in Live(chunks))
      modifies this
      ensures Valid() && sbrk_base == old(sbrk_base) && brk == old(brk)
      ensures r == 0 ==> mem == old(mem) && chunks == old(chunks) && bins == old(bins)
      ensures r != 0 ==> Live(chunks) == Live(old(chunks)) - {r - 16} && Keeps(old(A()), A(), {r - 16})
    {
      if r == 0 { return; }
      var p := r - 16;
      var next := NextOf(p);
      if next == top {
        FreeIntoTop(p);
      } else {
        FreeIntoBin(p);
      }
    }

    method NextOf(p: nat) returns (next: nat)
      requires Valid() && p in chunks && chunks[p].used
      ensures Started() && next == Next(chunks, p) && next in chunks
    {
      ReadHead(mem, chunks, sbrk_base, top, brk, p);
      next := p + SizeOf(mem[p + 8]);
    }

    /** What the tags around a chunk in use say about its neighbours. */
    lemma FreeFacts(p: nat, q: nat)
      requires Valid() && Started() && p in chunks && chunks[p].used && Next(chunks, p) in chunks && Next(chunks, p) != top
      requires Front(chunks, sbrk_base, p, q)
      ensures BinnedBut(bins, chunks, {top}) && p != top && q <= p && p < Next(chunks, p) && Next(chunks, p) != q
      ensures q != p ==> q < p && q in chunks && !chunks[q].used && q != top && p in mem && mem[p] == chunks[q].size && q + mem[p] == p == Next(chunks, q)
      ensures var n := Next(chunks, p);
        Next(chunks, n) in chunks && n < Next(chunks, n) && Next(chunks, n) in mem && Next(chunks, n) + 8 in mem
        && mem[Next(chunks, n) + 8] == chunks[Next(chunks, n)].size + Bit(chunks[n].used)
    {
      Around(A(), p, q);
      FreeAbove(Next(chunks, p));
      if q != p {
        assert Boundary(mem, chunks, q, p);
      }
    }

    lemma FreeAbove(n: nat)
      requires Valid() && Started() && n in chunks && n != top
      ensures var e := Next(chunks, n);
        e in chunks && n < e && e in mem && e + 8 in mem && mem[e + 8] == chunks[e].size + Bit(chunks[n].used)
    {
      assert Boundary(mem, chunks, n, Next(chunks, n));
    }

    lemma PrevIsFree(p: nat, q: nat)
      requires Valid() && Started() && p in chunks && Front(chunks, sbrk_base, p, q) && q != p
      ensures q in chunks && !chunks[q].used && q != top && Next(chunks, q) == p && 0 < chunks[p].size
    {
    }

    // ----- realloc -----

    /** MALLOC_COPY: copies n bytes word by word, upwards; the destination may
        overlap the source from below. */
    method CopyWords(dst: nat, src: nat, n: nat)
      requires OnWord(n) && OnWord(dst) && OnWord(src) && (dst <= src || src + n <= dst)
      requires forall w :: src <= w < src + n && OnWord(w) ==> w in mem
      modifies this`mem
      ensures SameOutside(old(mem), mem, dst, dst + n) && (forall w :: w in old(mem) ==> w in mem)
      ensures forall w :: src <= w < src + n && OnWord(w) ==> w - src + dst in mem && mem[w - src + dst] == old(mem)[w]
    {
      hide OnWord;
      var i := 0;
      assert OnWord(i) by { ZeroWord(); }
      while i < n
        invariant i <= n && OnWord(i)
        invariant SameOutside(old(mem), mem, dst, dst + i) && (forall w :: w in old(mem) ==> w in mem)
        invariant forall w :: src <= w < src + i && OnWord(w) ==> w - src + dst in mem && mem[w - src + dst] == old(mem)[w]
      {
        WordStep(i, n, src);
        assert src + i in mem && mem[src + i] == old(mem)[src + i];
        mem := mem[dst + i := mem[src + i]];
        forall w | src <= w < src + i + 8 && OnWord(w) ensures w < src + i || w == src + i {
          if src + i <= w { SameWord(src + i, w); }
        }
        i := i + 8;
      }
    }

    /** The user data of a chunk moves down to the chunk q below it. */
    method MoveDown(p: nat, q: nat, oldsize: nat)
      requires 0 <= sbrk_base && Tiled(chunks, sbrk_base, top, brk) && Words(mem, sbrk_base, brk)
      requires p in chunks && q in chunks && q <= p && p != top && oldsize == chunks[p].size
      modifies this`mem
      ensures SameOutside(old(mem), mem, q + 16, q + oldsize + 8) && Words(mem, sbrk_base, brk)
      ensures Carried(old(mem), p, mem, q, oldsize - 8)
    {
      hide Words, OnWord, Tiled;
      CopyRange(p, q);
      CopyWords(q + 16, p + 16, oldsize - SIZE_SZ);
      WordsMore(old(mem), mem, sbrk_base, brk);
    }

    lemma CopyRange(p: nat, q: nat)
      requires 0 <= sbrk_base && Tiled(chunks, sbrk_base, top, brk) && Words(mem, sbrk_base, brk)
      requires p in chunks && q in chunks && p != top
      ensures 32 <= chunks[p].size && OnWord(chunks[p].size - 8) && OnWord(q + 16) && OnWord(p + 16)
      ensures forall w :: p + 16 <= w < p + 16 + (chunks[p].size - 8) && OnWord(w) ==> w in mem
    {
      MinSize(chunks, sbrk_base, top, brk, p);
      InBounds(chunks, sbrk_base, top, brk, p);
      InBounds(chunks, sbrk_base, top, brk, q);
      InBounds(chunks, sbrk_base, top, brk, Next(chunks, p));
      SizeAligned(chunks, sbrk_base, top, brk, p);
      AlignedSum(chunks[p].size, 16);
      AlignedSum(p, 16);
      AlignedSum(q, 16);
      AlignedWord(chunks[p].size - 16);
      AlignedWord(q + 16);
      AlignedWord(p + 16);
      hide Tiled, Aligned, OnWord;
    }

    /** Takes the free neighbours of chunk p off their lists and, if p moves
        down to q, moves its user data along. */
    method Join(p: nat, q: nat, up: bool) returns (newsize: nat)
      requires Valid() && Started() && Mergeable(chunks, sbrk_base, top, p, q) && (up ==> Next(chunks, p) != top)
      modifies this`bins, this`mem
      ensures newsize == MergedSize(chunks, p, q, up) && Marked(bins, binblocks)
      ensures BinnedBut(bins, chunks, if up then {top, q, p, Next(chunks, p)} else {top, q, p})
      ensures Grounded() && Moved(old(A()), mem, q, q + newsize) && Carried(old(mem), p, mem, q, chunks[p].size - 8)
    {
      hide *;
      JoinFacts(p, q, up);
      ghost var a, n := A(), Next(chunks, p);
      var oldsize := SizeOfChunk(p);
      newsize := oldsize;
      ghost var x := {top};
      if up {
        var next := p + oldsize;
        var nextsize := SizeOfChunk(next);
        newsize := newsize + nextsize;
        var next_used := InUse(next);
        if next_used {
          GrowUsed(bins, chunks, x, next, x + {next});
        } else {
          Unlink(next, x);
        }
        x := x + {next};
      }
      if q != p {
        var prevsize := SizeAt(q);
        newsize := newsize + prevsize;
        Unlink(q, x);
        x := x + {q};
        MoveDown(p, q, oldsize);
        MovedBy(a, mem, p, q, oldsize, newsize);
      } else {
        MovedNot(a, p, newsize);
      }
      GrowUsed(bins, chunks, x, p, x + {p});
      assert x + {p} == if up then {top, q, p, n} else {top, q, p};
    }

    lemma JoinFacts(p: nat, q: nat, up: bool)
      requires Valid() && Started() && Mergeable(chunks, sbrk_base, top, p, q)
      ensures BinnedBut(bins, chunks, {top}) && Tiled(chunks, sbrk_base, top, brk) && Tagged(mem, chunks, sbrk_base, top)
      ensures Words(mem, sbrk_base, brk) && q <= p && p != top && 32 <= chunks[p].size && Marked(bins, binblocks) && Grounded()
      ensures p in chunks && chunks[p].used && Next(chunks, p) == p + chunks[p].size && Next(chunks, p) in chunks && p < Next(chunks, p)
      ensures q in chunks && (q != p ==> !chunks[q].used && q != top)
      ensures A() == Arena(mem, chunks, bins, sbrk_base, top, brk) && 0 <= sbrk_base
      ensures MergedSize(chunks, p, q, up) ==
        (if q == p then 0 else chunks[q].size) + chunks[p].size + (if up then chunks[Next(chunks, p)].size else 0)
    {
    }

    /** The end of realloc: chunk p, merged with the neighbours named by q and
        up, keeps nb bytes; what is left over becomes a chunk that is freed. */
    method Resize(p: nat, q: nat, up: bool, nb: nat)
      requires Valid() && Started() && Mergeable(chunks, sbrk_base, top, p, q) && (up ==> Next(chunks, p) != top)
      requires Aligned(nb) && 32 <= nb <= MergedSize(chunks, p, q, up)
      modifies this
      ensures Valid() && Started() && Resized(old(A()), A(), p, q, up, nb)
    {
      hide *;
      ResizeStart(p, q, up);
      ghost var a := A();
      var newsize := Join(p, q, up);
      ReadEnds(a, mem, p, q, up);
      var prev_inuse := Bit(PrevInUse(mem[q + 8]));
      ghost var m1 := mem;
      JoinedIs(a, mem, bins, p, q, up, newsize, prev_inuse);
      if nb + 32 <= newsize {
        ResizeCut(a, m1, p, q, up, nb, newsize, prev_inuse);
      } else {
        ResizeKeep(a, m1, p, q, up, nb, newsize, prev_inuse);
      }
    }

    lemma ResizeStart(p: nat, q: nat, up: bool)
      requires Valid() && Started() && Mergeable(chunks, sbrk_base, top, p, q)
      ensures p in chunks && 8 <= chunks[p].size && Next(chunks, p) in chunks && (q != p ==> q in chunks && q < p)
      ensures Ok(A()) && Grounded() && A() == Arena(mem, chunks, bins, sbrk_base, top, brk) && (q == p || q !in Live(chunks))
    {
    }

    /** The merged chunk has no room to spare: it stays whole. */
    method ResizeKeep(ghost a: Arena, ghost m1: Mem, p: nat, q: nat, up: bool, nb: nat, newsize: nat, prev_inuse: nat)
      requires Grounded() && Marked(bins, binblocks) && Joined(a, m1, bins, p, q, up, newsize, prev_inuse)
      requires mem == m1 && a.c == chunks && a.base == sbrk_base && a.top == top && a.end == brk
      requires nb <= newsize < nb + 32
      modifies this
      ensures Valid() && Started() && Resized(a, A(), p, q, up, nb)
    {
      hide *;
      JoinedParts(a, m1, bins, p, q, up, newsize, prev_inuse);
      mem := mem[q + 8 := newsize + prev_inuse];
      mem := mem[q + newsize + 8 := WithBit(mem[q + newsize + 8])];
      WholeWords(a, m1, p, q, up, mem, a.c[p].size);
      ResizeWhole(a, p, q, up, bins, mem);
      chunks := Merged(chunks, p, q, up);
      StaysValid();
      KeepsSame(a, a.(m := mem, c := chunks), A(), if up then {p, Next(a.c, p)} else {p});
      ResizedIs(a, A(), p, q, up, nb, newsize);
    }

    /** Cuts what is left over off the merged chunk and frees it. */
    method ResizeCut(ghost a: Arena, ghost m1: Mem, p: nat, q: nat, up: bool, nb: nat, newsize: nat, prev_inuse: nat)
      requires Grounded() && Marked(bins, binblocks) && Joined(a, m1, bins, p, q, up, newsize, prev_inuse)
      requires mem == m1 && a.c == chunks && a.base == sbrk_base && a.top == top && a.end == brk
      requires Aligned(nb) && 32 <= nb && nb + 32 <= newsize
      modifies this
      ensures Valid() && Started() && Resized(a, A(), p, q, up, nb)
    {
      hide *;
      JoinedParts(a, m1, bins, p, q, up, newsize, prev_inuse);
      var remainder, remainder_size := q + nb, newsize - nb;
      mem := mem[q + 8 := nb + prev_inuse];
      mem := mem[remainder + 8 := remainder_size + 1];
      mem := mem[remainder + remainder_size + 8 := WithBit(mem[remainder + remainder_size + 8])];
      SplitWords(a, m1, p, q, up, nb, mem, a.c[p].size);
      ResizeSplit(a, p, q, up, nb, bins, mem);
      ghost var f, x := Merged(a.c, p, q, up), if up then {p, Next(a.c, p)} else {p};
      chunks := SplitAt(Merged(chunks, p, q, up), q, nb, true, true);
      StaysValid();
      ghost var b := A();
      KeepsSame(a, a.(m := mem, c := chunks), b, x);
      SplitLive(f, q, nb);
      SplitParts(f, q, nb);
      Free(remainder + 16);
      Fields();
      CutDone(a, b, A(), p, q, up, nb, newsize);
    }

    /** Chunk p, right below top and possibly merged with the free chunk q below
        it, grows to nb bytes into top. */
    method GrowIntoTop(p: nat, q: nat, nb: nat)
      requires Valid() && Started() && Mergeable(chunks, sbrk_base, top, p, q) && Next(chunks, p) == top
      requires Aligned(nb) && 32 <= nb && nb + 32 <= MergedSize(chunks, p, q, true) && chunks[p].size < nb
      modifies this
      ensures Valid() && Started() && q in chunks && chunks[q].used && chunks[q].size == nb
      ensures Live(chunks) == Live(old(chunks)) - {p} + {q}
      ensures Keeps(old(A()), A(), {p}) && Carried(old(mem), p, mem, q, old(chunks)[p].size - 8)
    {
      hide *;
      ghost var a := A();
      GrowStart(p, q);
      ghost var f := TopCut(chunks, top, p, q, nb);
      var newsize, prev_inuse := GatherTop(p, q);
      ghost var m1 := mem;
      mem := mem[q + nb + 8 := newsize - nb + 1];
      mem := mem[q + 8 := nb + prev_inuse];
      TopWords(a, m1, p, q, nb, mem, a.c[p].size);
      IntoTop(a, p, q, nb, bins, mem);
      chunks := f;
      top := q + nb;
      GrowDone(a, p, q, nb);
    }

    /** Gathers the room from q up to the end of top, with p's data at its front. */
    method GatherTop(p: nat, q: nat) returns (newsize: nat, prev_inuse: nat)
      requires Valid() && Started() && Mergeable(chunks, sbrk_base, top, p, q) && Next(chunks, p) == top
      modifies this`bins, this`mem
      ensures newsize == MergedSize(chunks, p, q, true) && Marked(bins, binblocks) && Grounded()
      ensures BinnedBut(bins, chunks, {top, q, p}) && prev_inuse == Bit(PrevUsed(chunks, sbrk_base, q))
      ensures SameOutside(old(mem), mem, q + 16, q + chunks[p].size + 8) && Words(mem, sbrk_base, brk)
      ensures Carried(old(mem), p, mem, q, chunks[p].size - 8)
    {
      hide Valid, Ok, A, BinnedBut, Tagged, Tiled, Words, Coalesced, Mergeable, Marked, Aligned, OnPage, PrevUsed, OnWord,
        PrevInUse, SameOutside, Carried, Bit;
      ghost var a := A();
      JoinFacts(p, q, true);
      TopFacts(p, q);
      var oldsize := SizeAt(p);
      var nextsize := SizeAt(top);
      newsize := oldsize + nextsize;
      if q != p {
        var prevsize := SizeAt(q);
        newsize := newsize + prevsize;
        Unlink(q, {top});
        MoveDown(p, q, oldsize);
        GrowUsed(bins, chunks, {top} + {q}, p, {top, q, p});
      } else {
        NotMoved(mem, p, oldsize);
        GrowUsed(bins, chunks, {top}, p, {top, q, p});
      }
      ReadLow(a, mem, q, q + oldsize + 8);
      prev_inuse := Bit(PrevInUse(mem[q + 8]));
    }

    lemma TopFacts(p: nat, q: nat)
      requires Valid() && Started() && Mergeable(chunks, sbrk_base, top, p, q)
      ensures top in chunks && q in chunks && Marked(bins, binblocks) && Grounded()
      ensures A() == Arena(mem, chunks, bins, sbrk_base, top, brk) && Ok(A())
    {
    }

    lemma GrowStart(p: nat, q: nat)
      requires Valid() && Started() && Mergeable(chunks, sbrk_base, top, p, q)
      ensures p in chunks && 8 <= chunks[p].size && Next(chunks, p) in chunks && (q != p ==> q in chunks && q < p && Next(chunks, q) == p)
      ensures Ok(A()) && Tiled(chunks, sbrk_base, top, brk) && A() == Arena(mem, chunks, bins, sbrk_base, top, brk)
      ensures q == p || q !in Live(chunks)
      ensures q in Merged(chunks, p, q, true) && Merged(chunks, p, q, true)[q].size == MergedSize(chunks, p, q, true)
    {
      MergedShape(chunks, sbrk_base, top, p, q, true);
    }

    lemma GrowDone(a: Arena, p: nat, q: nat, nb: nat)
      requires Grounded() && Marked(bins, binblocks) && a.base == sbrk_base && a.end == brk && top == q + nb
      requires p in a.c && Next(a.c, p) in a.c && 0 < a.c[p].size && (q == p || (q in a.c && q < p && Next(a.c, q) == p))
      requires q in Merged(a.c, p, q, true) && nb < Merged(a.c, p, q, true)[q].size && chunks == TopCut(a.c, a.top, p, q, nb)
      requires Ok(Arena(mem, chunks, bins, sbrk_base, top, brk)) && Keeps(a, a.(m := mem, c := chunks), {p}) && 0 < nb
      ensures Valid() && Started() && q in chunks && chunks[q] == Chunk(nb, true) && Keeps(a, A(), {p})
    {
    }

    lemma StillValid()
      requires Valid() && Started()
      ensures A() == Arena(mem, chunks, bins, sbrk_base, top, brk) && Ok(A())
    {
    }

    /** Resize in place: into the free chunk above, down into the one below. */
    method ResizeTo(p: nat, q: nat, up: bool, nb: nat)
      requires Valid() && Started() && Mergeable(chunks, sbrk_base, top, p, q)
      requires up ==> Next(chunks, p) != top && !chunks[Next(chunks, p)].used
      requires Aligned(nb) && 32 <= nb <= MergedSize(chunks, p, q, up)
      modifies this
      ensures Valid() && Started() && Reallocated(old(A()), A(), p, q, nb)
    {
      hide *;
      ResizeStart(p, q, up);
      ghost var x := if up then {Next(chunks, p)} else {};
      NotLive(chunks, x);
      ghost var a := A();
      Resize(p, q, up, nb);
      StillValid();
      ResizedMeans(a, A(), p, q, up, nb);
      assert {p} + x == if up then {p, Next(a.c, p)} else {p};
      ReallocatedBy(a, A(), p, q, nb, x);
    }

    method GrowTo(p: nat, q: nat, nb: nat)
      requires Valid() && Started() && Mergeable(chunks, sbrk_base, top, p, q) && Next(chunks, p) == top
      requires Aligned(nb) && 32 <= nb && nb + 32 <= MergedSize(chunks, p, q, true) && chunks[p].size < nb
      modifies this
      ensures Valid() && Started() && Reallocated(old(A()), A(), p, q, nb)
    {
      hide *;
      GrowStart(p, q);
      ghost var a := A();
      GrowIntoTop(p, q, nb);
      StillValid();
      GrownTo(a, A(), p, q, nb);
    }

    /** Tries to enlarge chunk p without moving it up: into the chunk above,
        into both neighbours, into the chunk below. */
    method TryGrow(p: nat, nb: nat) returns (q: int, ghost below: nat)
      requires Valid() && Started() && p in chunks && chunks[p].used && Aligned(nb) && chunks[p].size < nb && 32 <= nb
      modifies this
      ensures Valid() && Started() && Next(old(chunks), p) in old(chunks)
      ensures Front(old(chunks), old(sbrk_base), p, below) && below in old(chunks)
      ensures 0 <= q <==> nb <= old(chunks)[p].size + RoomUp(old(chunks), old(top), p) + RoomDown(old(chunks), p, below)
      ensures 0 <= q ==> (q == p || q == below) && Reallocated(old(A()), A(), p, q, nb)
      ensures q < 0 ==> unchanged(this)
    {
      hide Valid, Ok, A, Mergeable, Front, Aligned, Reallocated, PrevInUse;
      q := -1;
      StillValid();
      var hd, oldsize, prev, nextsize := ReadUsed(p);
      below := prev;
      FrontMergeable(A(), p, prev);
      var next := p + oldsize;
      var next_free := next == top;
      if !next_free {
        var used := InUse(next);
        next_free := !used;
      }
      if next_free {
        if next == top {
          if nb + MINSIZE <= nextsize + oldsize {
            GrowTo(p, p, nb);
            return p, prev;
          }
        } else if nb <= nextsize + oldsize {
          ResizeTo(p, p, true, nb);
          return p, prev;
        }
      }
      if !PrevInUse(hd) {
        var prevsize := SizeOfChunk(prev);
        if next_free {
          if next == top {
            if nb + MINSIZE <= nextsize + prevsize + oldsize {
              GrowTo(p, prev, nb);
              return prev, prev;
            }
          } else if nb <= nextsize + prevsize + oldsize {
            ResizeTo(p, prev, true, nb);
            return prev, prev;
          }
        }
        if nb <= prevsize + oldsize {
          ResizeTo(p, prev, false, nb);
          return prev, prev;
        }
      }
    }

    method SizeOfChunk(q: nat) returns (size: nat)
      requires Valid() && Started() && q in chunks
      ensures size == chunks[q].size
    {
      size := SizeAt(q);
    }

    // ----- realloc as a whole -----

    /** Resizes the chunk behind r.  It stays, grows over its neighbours, or
        moves; in every case its data move along, and nothing else changes.
        Zero bytes free the chunk. */
    method Realloc(r: nat, bytes: nat) returns (n: nat)
      requires Valid() && bytes < WORD && (r != 0 ==> 16 <= r && r - 16 in Live(chunks))
      modifies this
      ensures Valid()
      ensures bytes == 0 ==> n == 0
      ensures bytes == 0 && r != 0 ==> Live(chunks) == Live(old(chunks)) - {r - 16} && Keeps(old(A()), A(), {r - 16})
      ensures n == 0 && (bytes != 0 || r == 0) ==> mem == old(mem) && chunks == old(chunks)
      ensures n != 0 ==> 16 <= n && Aligned(n) && bytes + 8 <= Request2Size(bytes)
      ensures n != 0 && r == 0 ==> Granted(old(A()), A(), Request2Size(bytes), n - 16)
      ensures n != 0 && r != 0 ==> Reallocated(old(A()), A(), r - 16, n - 16, Request2Size(bytes))
      ensures n == 0 && 0 < bytes <= Request2Size(bytes) <= INT_MAX ==>
        limit < brk + Request2Size(bytes) + MINSIZE + PAGE && NoFit(old(bins), old(chunks), Request2Size(bytes), 1, NAV)
      ensures r != 0 && 0 < bytes <= Request2Size(bytes) <= INT_MAX && Request2Size(bytes) <= old(chunks)[r - 16].size ==> n == r
    {
      hide *;
      ghost var a := A();
      if bytes == 0 {
        Free(r);
        return 0;
      }
      if r == 0 {
        n := Malloc(bytes);
        return;
      }
      var p := r - 16;
      var oldsize := SizeOfLive(p);
      RequestFits(bytes);
      IntMax();
      var nb := Request2Size(bytes);
      if 0x7fff_ffff < nb || nb < bytes { return 0; }
      if oldsize < nb {
        ghost var below;
        var q;
        q, below := TryGrow(p, nb);
        if 0 <= q {
          ResultAligned(a, p, q, nb);
          return q + 16;
        }
        n := MoveOut(p, bytes, nb, oldsize);
      } else {
        StayMergeable(p);
        ResizeTo(p, p, false, nb);
        ResultAligned(a, p, p, nb);
        return r;
      }
    }

    method SizeOfLive(p: nat) returns (size: nat)
      requires Valid() && p in Live(chunks)
      ensures Started() && p in chunks && chunks[p].used && size == chunks[p].size
    {
      size := SizeAt(p);
    }

    lemma ResultAligned(a: Arena, p: nat, q: nat, nb: nat)
      requires Valid() && Started() && Reallocated(a, A(), p, q, nb)
      ensures 16 <= q + 16 && Aligned(q + 16)
    {
      ChunkAligned(q);
    }

    lemma MovedAligned(q: nat)
      requires Valid() && Started() && q in chunks
      ensures 16 <= q + 16 && Aligned(q + 16)
    {
      ChunkAligned(q);
    }

    lemma StayMergeable(p: nat)
      requires Valid() && Started() && p in chunks && chunks[p].used
      ensures Mergeable(chunks, sbrk_base, top, p, p) && MergedSize(chunks, p, p, false) == chunks[p].size
    {
    }

    /** The data have to move to another chunk, unless the new chunk happens to
        be the next one. */
    method MoveOut(p: nat, bytes: nat, nb: nat, oldsize: nat) returns (n: nat)
      requires Valid() && bytes < WORD && nb == Request2Size(bytes) && Started()
      requires p in chunks && chunks[p].used && oldsize == chunks[p].size < nb
      modifies this
      ensures Valid()
      ensures n == 0 ==> mem == old(mem) && chunks == old(chunks)
      ensures n != 0 ==> 16 <= n && Aligned(n) && bytes + 8 <= nb && Reallocated(old(A()), A(), p, n - 16, nb)
      ensures n == 0 && bytes <= nb <= INT_MAX ==>
        limit < brk + nb + MINSIZE + PAGE && NoFit(old(bins), old(chunks), nb, 1, NAV)
    {
      hide *;
      ghost var a := A();
      UsedStays(p);
      MovedAligned(p);
      RequestFits(bytes);
      n := Malloc(bytes);
      if n == 0 { return; }
      ghost var a1 := A();
      var v := n - 16;
      MoveFacts(a, p, v, nb);
      var next := NextOf(p);
      if v == next {
        NextGranted(p, v);
        Resize(p, p, true, nb);
        StillValid();
        ResizedMeans(a1, A(), p, p, true, nb);
        Absorbed(a, a1, A(), p, v, nb);
        return p + 16;
      }
      CopyData(p, v, oldsize);
      ghost var a2 := A();
      StillValid();
      Free(p + 16);
      Fields();
      MovedOut(a, a1, a2, A(), p, v, nb);
    }

    lemma Fields()
      ensures A().c == chunks && A().m == mem && A().bins == bins && A().top == top && A().end == brk
    {
    }

    lemma UsedStays(p: nat)
      requires Valid() && Started() && p in chunks && chunks[p].used
      ensures Ok(A()) && p in A().c && A().c[p].used && A().c == chunks && A().m == mem && 8 <= chunks[p].size
    {
    }

    lemma MoveFacts(a: Arena, p: nat, v: nat, nb: nat)
      requires Valid() && Started() && p in a.c && a.c[p].used && Granted(a, A(), nb, v)
      ensures p in chunks && chunks[p] == a.c[p] && v in chunks && chunks[v].used && v != p && nb <= chunks[v].size
      ensures A().c == chunks && A().m == mem && v in Live(chunks) && p in Live(chunks)
    {
    }

    lemma NextGranted(p: nat, v: nat)
      requires Valid() && Started() && p in chunks && chunks[p].used && v in chunks && chunks[v].used && v == Next(chunks, p)
      ensures Mergeable(chunks, sbrk_base, top, p, p) && v != top
      ensures MergedSize(chunks, p, p, true) == chunks[p].size + chunks[v].size
    {
    }

    /** The user data of p are copied to the larger chunk v. */
    method CopyData(p: nat, v: nat, oldsize: nat)
      requires Valid() && Started() && p in chunks && chunks[p].used && v in chunks && chunks[v].used && v != p
      requires oldsize == chunks[p].size < chunks[v].size
      modifies this`mem
      ensures Valid() && Started() && Keeps(old(A()), A(), {v}) && A() == old(A()).(m := mem)
      ensures Carried(old(mem), p, mem, v, oldsize - 8)
    {
      hide *;
      ghost var a := A();
      StillValid();
      Standing();
      CopyApart(p, v);
      CopyRange(p, v);
      CopyWords(v + 16, p + 16, oldsize - 8);
      CopyCarried(a.m, p, v, mem, oldsize);
      WidenOutside(a.m, mem, v + 16, v + 16 + (oldsize - 8), v + a.c[v].size + 8);
      WritePayload(a, v, mem);
      WriteValid(a);
    }

    lemma CopyApart(p: nat, v: nat)
      requires Valid() && Started() && p in chunks && chunks[p].used && v in chunks && v != p
      ensures Tiled(chunks, sbrk_base, top, brk) && Words(mem, sbrk_base, brk) && p != top && 32 <= chunks[p].size
      ensures v <= p || p + chunks[p].size <= v
    {
    }

    lemma Standing()
      requires Valid() && Started()
      ensures Grounded() && Marked(bins, binblocks)
    {
    }

    lemma WriteValid(a: Arena)
      requires Grounded() && Marked(bins, binblocks) && Ok(a.(m := mem)) && a.(m := mem) == Arena(mem, chunks, bins, sbrk_base, top, brk)
      ensures Valid() && Started() && A() == a.(m := mem)
    {
    }

    // ----- calloc -----

    /** Hands out n * size zeroed bytes.  Memory fresh from the system is zero
        already and is not cleared again. */
    method Calloc(n: nat, size: nat) returns (r: nat)
      requires Valid() && n < WORD && size < WORD
      modifies this
      ensures Valid()
      ensures r != 0 ==> Cleared(old(A()), A(), n * size, r)
      ensures r == 0 ==> mem == old(mem) && chunks == old(chunks)
    {
      hide *;
      WordIs();
      var sz := n * size;
      if 0x1_0000_0000_0000_0000 <= sz { return 0; }
      ghost var a := A();
      Fields();
      var started := sbrk_base != -1;
      OnceStarted();
      var oldtop, oldtopsize := top, TopSize();
      ghost var oldend := brk;
      r := Malloc(sz);
      if r == 0 { return; }
      ghost var a1 := A();
      var p := r - 16;
      GrantedHere(a, p, Request2Size(sz));
      var csz := SizeOfChunk(p);
      if started && p == oldtop && oldtopsize < csz {
        csz := oldtopsize;
      }
      ClearPayload(p, csz);
      if started && p == oldtop && oldtopsize < a1.c[p].size {
        FreshJoined(a1.m, mem, r, r + oldtopsize - 8, r - 8 + chunks[p].size);
      }
      StillValid();
      ClearedGranted(a, a1, A(), p, Request2Size(sz));
      ClearedAll(a, A(), sz, r);
    }

    lemma WordIs()
      ensures WORD == 0x1_0000_0000_0000_0000
    {
    }

    lemma OnceStarted()
      requires Valid()
      ensures Started() <==> sbrk_base != -1
      ensures Started() ==> top in chunks && TopSize() == chunks[top].size && 32 <= chunks[top].size && top + chunks[top].size == brk
      ensures Started() ==> Aligned(chunks[top].size)
    {
      if Started() {
        SizeAligned(chunks, sbrk_base, top, brk, top);
        TopEnd();
      }
    }

    lemma GrantedHere(a: Arena, p: nat, nb: nat)
      requires Valid() && Started() && Granted(a, A(), nb, p)
      ensures p in chunks && chunks[p].used && 32 <= chunks[p].size && Aligned(chunks[p].size)
      ensures A().c == chunks && A().m == mem
    {
      SizeAligned(chunks, sbrk_base, top, brk, p);
    }

    /** Clears the first csz - 8 bytes of a chunk's user data. */
    method ClearPayload(p: nat, csz: nat)
      requires Valid() && Started() && p in chunks && chunks[p].used && 32 <= csz <= chunks[p].size && Aligned(csz)
      modifies this`mem
      ensures Valid() && Started() && A() == old(A()).(m := mem) && Keeps(old(A()), A(), {p})
      ensures Fresh(mem, p + 16, p + 8 + csz) && SameOutside(old(mem), mem, p + 16, p + 8 + csz)
    {
      hide *;
      ghost var a := A();
      StillValid();
      Standing();
      ClearRange(p, csz);
      ZeroWords(p + 16, csz - 8);
      WidenOutside(a.m, mem, p + 16, p + 16 + (csz - 8), p + a.c[p].size + 8);
      WritePayload(a, p, mem);
      WriteValid(a);
    }

    lemma ClearRange(p: nat, csz: nat)
      requires Valid() && Started() && p in chunks && 32 <= csz && Aligned(csz)
      ensures OnWord(p + 16) && OnWord(csz - 8)
    {
      InBounds(chunks, sbrk_base, top, brk, p);
      AlignedSum(p, 16);
      AlignedSum(csz, 16);
      AlignedWord(p + 16);
      AlignedWord(csz - 16);
    }

    /** MALLOC_ZERO */
    method ZeroWords(dst: nat, n: nat)
      requires OnWord(n) && OnWord(dst)
      modifies this`mem
      ensures SameOutside(old(mem), mem, dst, dst + n) && (forall w :: w in old(mem) ==> w in mem)
      ensures Fresh(mem, dst, dst + n)
    {
      hide OnWord;
      var i := 0;
      assert OnWord(i) by { ZeroWord(); }
      while i < n
        invariant i <= n && OnWord(i)
        invariant SameOutside(old(mem), mem, dst, dst + i) && (forall w :: w in old(mem) ==> w in mem)
        invariant Fresh(mem, dst, dst + i)
      {
        WordStep(i, n, dst);
        mem := mem[dst + i := 0];
        forall w | dst <= w < dst + i + 8 && OnWord(w) ensures w < dst + i || w == dst + i {
          if dst + i <= w { SameWord(dst + i, w); }
        }
        i := i + 8;
      }
    }

    // ----- memalign -----

    /** Cuts a chunk in use in two chunks in use.  Mark tells whether the in-use
        bit above is written again. */
    method SplitUsed(p: nat, n: nat, mark: bool)
      requires Valid() && Started() && p in chunks && chunks[p].used
      requires Aligned(n) && 32 <= n && n + 32 <= chunks[p].size
      modifies this`mem, this`chunks
      ensures Valid() && Started() && chunks == SplitAt(old(chunks), p, n, true, true) && p + n !in old(chunks)
      ensures Live(chunks) == Live(old(chunks)) + {p + n} && Keeps(old(A()), A(), {p})
    {
      hide *;
      ghost var a := A();
      StillValid();
      Standing();
      var size := SizeOfChunk(p);
      UsedTags(a, p);
      mem := mem[p + 8 := n + Bit(PrevInUse(mem[p + 8]))];
      mem := mem[p + n + 8 := size - n + 1];
      if mark {
        mem := mem[p + size + 8 := WithBit(mem[p + size + 8])];
      }
      CutMem(a, p, n, size, mem);
      CutUsed(a, p, n, size, mem);
      SplitLive(a.c, p, n);
      chunks := SplitAt(chunks, p, n, true, true);
      StaysValid();
      KeepsSame(a, a.(m := mem, c := chunks), A(), {p});
    }

    /** The front of a reserved chunk is given back. */
    method GiveLeader(p: nat, leadsize: nat, ghost a: Arena, ghost n: nat)
      requires Valid() && Started() && p in chunks && 32 <= leadsize && Aligned(leadsize) && leadsize + 32 <= chunks[p].size
      requires Reserved(a, A(), p, n) && leadsize <= n
      modifies this
      ensures Valid() && Started() && Reserved(a, A(), p + leadsize, n - leadsize)
    {
      hide *;
      ghost var a1 := A();
      Fields();
      ReservedHere(a, a1, p, n);
      SplitUsed(p, leadsize, true);
      ghost var a2 := A();
      Fields();
      SplitParts(a1.c, p, leadsize);
      Free(p + 16);
      Fields();
      LeaderGone(a, a1, a2, A(), p, leadsize, n);
    }

    /** Spare room at the end of a reserved chunk is given back. */
    method GiveTail(p: nat, nb: nat, ghost a: Arena, ghost n: nat)
      requires Valid() && Started() && p in chunks && 32 <= nb && Aligned(nb) && nb + 32 <= chunks[p].size
      requires Reserved(a, A(), p, n)
      modifies this
      ensures Valid() && Started() && Reserved(a, A(), p, nb) && p in chunks && chunks[p].size == nb
    {
      hide *;
      ghost var a1 := A();
      Fields();
      ReservedHere(a, a1, p, n);
      SplitUsed(p, nb, false);
      ghost var a2 := A();
      Fields();
      SplitParts(a1.c, p, nb);
      Free(p + nb + 16);
      Fields();
      TailGone(a, a1, a2, A(), p, nb, n);
    }

    /** Finds an aligned spot inside the chunk behind m, such that the leader is
        large enough to be freed, and frees it. */
    method AlignFront(m: nat, al: nat, nb: nat, ghost a: Arena, ghost n: nat) returns (p: nat, ghost rest: nat)
      requires Valid() && Started() && 16 <= m && Aligned(m) && 32 <= al && Aligned(al) && !OnAlignment(m, al)
      requires Reserved(a, A(), m - 16, n) && nb + al + 40 <= n && 32 <= nb
      modifies this
      ensures Valid() && Started() && Reserved(a, A(), p, rest) && nb <= rest && OnAlignment(p + 16, al)
    {
      hide *;
      p := m - 16;
      SpotAligned(m, al);
      var spot := RoundUp(m, al) - 16;
      AlignedSum(al, spot - p);
      if spot - p < 32 { spot := spot + al; }
      var leadsize := spot - p;
      ReservedSize(a, p, n);
      GiveLeader(p, leadsize, a, n);
      rest := n - leadsize;
      p := spot;
    }

    /** Hands out a chunk whose user data start at a multiple of alignment, a
        power of two. */
    method Memalign(alignment: nat, bytes: nat) returns (r: nat)
      requires Valid() && bytes < WORD && PowerOfTwo(alignment) && alignment < WORD
      modifies this
      ensures Valid()
      ensures r != 0 ==> 16 <= r && Aligned(r) && OnAlignment(r, alignment) && bytes + 8 <= Request2Size(bytes)
      ensures r != 0 ==> Granted(old(A()), A(), Request2Size(bytes), r - 16)
      ensures r == 0 ==> mem == old(mem) && chunks == old(chunks)
    {
      hide *;
      WordIs();
      RequestFits(bytes);
      if alignment <= 16 {
        r := Malloc(bytes);
        if r != 0 { SmallAlignment(alignment, r); }
        return;
      }
      LargeAlignment(alignment);
      var al := if alignment < 32 then 32 else alignment;
      var nb := Request2Size(bytes);
      if 0xffff_ffff_ffff_ffff - (al + 32) < nb || nb < bytes { return 0; }
      ghost var a := A();
      RequestFits(nb + al + 32);
      var m := Malloc(nb + al + 32);
      if m == 0 { return 0; }
      ghost var n := Request2Size(nb + al + 32);
      var p := m - 16;
      GrantedReserved(a, A(), p, n);
      var fits := OnAlignment(m, al);
      if !fits {
        p, n := AlignFront(m, al, nb, a, n);
      }
      ReservedSize(a, p, n);
      var size := SizeOfChunk(p);
      if nb + 32 <= size {
        GiveTail(p, nb, a, n);
      } else {
        ReservedLess(a, A(), p, n, nb);
      }
      MovedAligned(p);
      ReservedNow(a, p, nb);
      r := p + 16;
    }

    lemma ReservedNow(a: Arena, p: nat, nb: nat)
      requires Valid() && Started() && Reserved(a, A(), p, nb) && p in chunks && chunks[p].size < nb + 32
      ensures Granted(a, A(), nb, p)
    {
      ReservedGranted(a, A(), p, nb);
    }

    lemma ReservedSize(a: Arena, p: nat, n: nat)
      requires Valid() && Started() && Reserved(a, A(), p, n)
      ensures p in chunks && chunks[p].used && n <= chunks[p].size && Aligned(p)
    {
    }

    // ----- statistics -----

    /** malloc_update_mallinfo: adds up all free chunks.  What remains of the
        memory handed out by the system is exactly what is in use. */
    method Mallinfo() returns (ordblks: nat, uordblks: int, fordblks: nat, keepcost: nat)
      requires Valid()
      ensures uordblks == Sum(chunks, Live(chunks)) && uordblks + fordblks == sbrked_mem
      ensures fordblks == Sum(chunks, chunks.Keys - Live(chunks)) && ordblks == |chunks.Keys - Live(chunks)|
      ensures keepcost == if Started() then chunks[top].size else 0
    {
      hide *;
      keepcost := TopSize();
      var avail, navail := keepcost, if 32 <= keepcost then 1 else 0;
      OnceStarted();
      ghost var x, s := Apart(), {};
      InfoStart();
      var i := 1;
      while i < 128
        invariant 1 <= i <= 128 == |bins| && BinnedBut(bins, chunks, x) && s == OnLists(bins, 1, i) && s <= chunks.Keys
        invariant avail == keepcost + Sum(chunks, s) && navail == |x| + |s|
      {
        PassStart(bins, i);
        var k := |bins[i]|;
        while 0 < k
          invariant 0 <= k <= |bins[i]| && s == Passed(bins, i, k) && s <= chunks.Keys
          invariant avail == keepcost + Sum(chunks, s) && navail == |x| + |s|
        {
          PassOne(bins, chunks, x, i, k);
          k := k - 1;
          SumAdd(chunks, s, bins[i][k]);
          s := s + {bins[i][k]};
          var size := ChunkSize(i, k);
          avail := avail + size;
          navail := navail + 1;
        }
        PassBin(bins, i);
        i := i + 1;
      }
      ordblks := navail;
      uordblks := sbrked_mem - avail;
      fordblks := avail;
      InfoDone(s, avail, navail);
    }

    lemma InfoStart()
      requires Valid()
      ensures BinnedBut(bins, chunks, Apart()) && |bins| == NAV == 128 && OnLists(bins, 1, 1) == {} && Sum(chunks, {}) == 0
      ensures |Apart()| == if 32 <= TopSize() then 1 else 0
    {
      BinsOk();
      if Started() { TopEnd(); }
    }

    lemma InfoDone(s: set<nat>, avail: nat, navail: nat)
      requires Valid() && |bins| == 128 && s == OnLists(bins, 1, 128) && s <= chunks.Keys
      requires avail == TopSize() + Sum(chunks, s) && navail == |Apart()| + |s|
      ensures Live(chunks) <= chunks.Keys
      ensures sbrked_mem - avail == Sum(chunks, Live(chunks)) && avail == Sum(chunks, chunks.Keys - Live(chunks))
      ensures navail == |chunks.Keys - Live(chunks)|
    {
      if Started() {
        TopFree();
        FreeTotal(A());
      } else {
        NoChunks(s);
      }
    }

    lemma NoChunks(s: set<nat>)
      requires Valid() && !Started() && s <= chunks.Keys
      ensures s == {} && Live(chunks) == {} == chunks.Keys - Live(chunks) && TopSize() == 0 && sbrked_mem == 0 && Apart() == {}
    {
    }
  }

  /** All words from lo up to hi are zero. */
  ghost predicate Fresh(m: Mem, lo: nat, hi: nat) {
    forall w :: lo <= w < hi && OnWord(w) ==> w in m && m[w] == 0
  }

  ghost predicate FreshBut(m: Mem, lo: nat, hi: nat, x: nat) {
    forall w :: lo <= w < hi && OnWord(w) && w != x ==> w in m && m[w] == 0
  }

  ghost predicate SameBut(m: Mem, m': Mem, x: nat, y: nat) {
    forall w :: w in m && w != x && w != y ==> w in m' && m'[w] == m[w]
  }

  lemma FreshNone(m: Mem, at: nat, x: nat)
    ensures FreshBut(m, at, at, x)
  {
  }

  lemma FreshSame(m: Mem, lo: nat, hi: nat)
    requires forall w :: lo <= w < hi && OnWord(w) ==> w in m && m[w] == 0
    ensures Fresh(m, lo, hi)
  {
  }

  lemma FreshTwice(m1: Mem, m2: Mem, lo: nat, mid: nat, hi: nat)
    requires forall w :: lo <= w < mid && OnWord(w) ==> w in m1 && m1[w] == 0
    requires forall w :: w in m1 && !(mid <= w < hi) ==> w in m2 && m2[w] == m1[w]
    requires forall w :: mid <= w < hi && OnWord(w) ==> w in m2 && m2[w] == 0
    ensures Fresh(m2, lo, hi)
  {
    hide OnWord;
  }

  lemma FreshSet(m: Mem, lo: nat, hi: nat, x: nat, v: nat)
    requires Fresh(m, lo, hi)
    ensures FreshBut(m[x := v], lo, hi, x) && Words(m[x := v], lo, hi)
  {
  }

  lemma FreshJoined(m: Mem, m': Mem, lo: nat, mid: nat, hi: nat)
    requires Fresh(m', lo, mid) && SameOutside(m, m', lo, mid) && 8 <= lo <= mid && Fresh(m, mid - 8, hi)
    ensures Fresh(m', lo, hi)
  {
  }

  /** A chunk with room for sz bytes was handed out behind r, all zero. */
  ghost predicate Cleared(a: Arena, b: Arena, sz: nat, r: nat) {
    && sz < WORD && 16 <= r && Aligned(r) && sz + 8 <= Request2Size(sz)
    && Granted(a, b, Request2Size(sz), r - 16)
    && Fresh(b.m, r, r - 8 + b.c[r - 16].size)
  }

  lemma ClearedAll(a: Arena, b: Arena, sz: nat, r: nat)
    requires sz < WORD && 16 <= r && Aligned(r) && sz + 8 <= Request2Size(sz)
    requires Granted(a, b, Request2Size(sz), r - 16) && r - 16 in b.c && 8 <= b.c[r - 16].size && Fresh(b.m, r, r - 8 + b.c[r - 16].size)
    ensures Cleared(a, b, sz, r)
  {
  }

  /** A chunk of at least n bytes at p has been set aside for the caller. */
  ghost predicate Reserved(a: Arena, b: Arena, p: nat, n: nat) {
    p in b.c && b.c[p].used && n <= b.c[p].size && p !in Live(a.c) && Live(b.c) == Live(a.c) + {p} && Keeps(a, b, {})
  }

  lemma ReservedHere(a: Arena, b: Arena, p: nat, n: nat)
    requires Reserved(a, b, p, n)
    ensures p in b.c && b.c[p].used
  {
  }

  lemma ReservedLess(a: Arena, b: Arena, p: nat, n: nat, n': nat)
    requires Reserved(a, b, p, n) && n' <= n
    ensures Reserved(a, b, p, n')
  {
  }

  lemma GrantedReserved(a: Arena, b: Arena, p: nat, nb: nat)
    requires Granted(a, b, nb, p)
    ensures Reserved(a, b, p, nb)
  {
  }

  lemma ReservedGranted(a: Arena, b: Arena, p: nat, nb: nat)
    requires Reserved(a, b, p, nb) && p in b.c && b.c[p].size < nb + 32
    ensures Granted(a, b, nb, p)
  {
    assert p in a.c && a.c[p].used ==> p in Live(a.c);
  }

  lemma LeaderGone(a: Arena, a1: Arena, a2: Arena, a3: Arena, p: nat, l: nat, n: nat)
    requires Reserved(a, a1, p, n) && 0 < l <= n && l < a1.c[p].size && p + l !in a1.c
    requires a2.c == SplitAt(a1.c, p, l, true, true) && Live(a2.c) == Live(a1.c) + {p + l} && Keeps(a1, a2, {p})
    requires Live(a3.c) == Live(a2.c) - {p} && Keeps(a2, a3, {p})
    ensures Reserved(a, a3, p + l, n - l)
  {
    assert p + l in a2.c && a2.c[p + l] == Chunk(a1.c[p].size - l, true);
    assert p + l !in Live(a1.c);
    assert Keeps(a, a3, {}) by {
      hide *;
      KeepsChain(a, a1, a2, a3, p, {p});
    }
  }

  /** What was in use before p was set aside survives all that is done to p and r. */
  lemma KeepsChain(a: Arena, a1: Arena, a2: Arena, a3: Arena, p: nat, x: set<nat>)
    requires Keeps(a, a1, {}) && Keeps(a1, a2, {p}) && Keeps(a2, a3, x)
    requires p !in Live(a.c) && x !! Live(a.c)
    ensures Keeps(a, a3, {})
  {
    forall y | y in a.c && a.c[y].used
      ensures y in a3.c && a3.c[y] == a.c[y] && SamePayload(a.m, a3.m, y, a.c[y].size)
    {
      assert y in Live(a.c);
      assert SamePayload(a.m, a1.m, y, a.c[y].size);
      assert SamePayload(a1.m, a2.m, y, a.c[y].size);
      assert SamePayload(a2.m, a3.m, y, a.c[y].size);
    }
  }

  lemma TailGone(a: Arena, a1: Arena, a2: Arena, a3: Arena, p: nat, l: nat, n: nat)
    requires Reserved(a, a1, p, n) && 0 < l < a1.c[p].size && p + l !in a1.c
    requires a2.c == SplitAt(a1.c, p, l, true, true) && Live(a2.c) == Live(a1.c) + {p + l} && Keeps(a1, a2, {p})
    requires Live(a3.c) == Live(a2.c) - {p + l} && Keeps(a2, a3, {p + l})
    ensures Reserved(a, a3, p, l) && p in a3.c && a3.c[p].size == l
  {
    assert p in a2.c && a2.c[p] == Chunk(l, true);
    assert p + l !in Live(a1.c);
    KeepsChain(a, a1, a2, a3, p, {p + l});
  }

  lemma ClearedGranted(a: Arena, a1: Arena, b: Arena, p: nat, nb: nat)
    requires Granted(a, a1, nb, p) && b == a1.(m := b.m) && Keeps(a1, b, {p})
    ensures Granted(a, b, nb, p)
  {
  }

  lemma TopGranted(a: Arena, b: Arena, c: Arena, nb: nat, v: nat)
    requires v == b.top && v in b.c && 32 <= nb <= b.c[v].size && v + nb !in b.c
    requires a.c == map[] || (v == a.top && v in a.c && !a.c[v].used)
    requires c.c == SplitAt(b.c, v, nb, true, false)
    requires Live(b.c) == Live(a.c) && Live(c.c) == Live(b.c) + {v} && Keeps(a, c, {})
    ensures Granted(a, c, nb, v) && c.c[v].size == nb
  {
  }

  /** Of the fresh words only the tags of the chunk cut off top are written. */
  lemma FreshTaken(m: Mem, m': Mem, lo: nat, hi: nat, top: nat, nb: nat)
    requires FreshBut(m, lo, hi, top + 8) && SameBut(m, m', top + 8, top + nb + 8)
    requires top + 16 <= lo && top + nb + 32 <= hi
    ensures Fresh(m', lo, top + nb + 8)
  {
  }

  lemma NotLive(c: Chunks, x: set<nat>)
    requires forall p :: p in x && p in c ==> !c[p].used
    ensures x !! Live(c)
  {
  }

  lemma GrownTo(a: Arena, b: Arena, p: nat, q: nat, nb: nat)
    requires p in a.c && 8 <= a.c[p].size < nb && q in b.c && b.c[q].used && b.c[q].size == nb && (q == p || q !in Live(a.c))
    requires Live(b.c) == Live(a.c) - {p} + {q} && Keeps(a, b, {p}) && Carried(a.m, p, b.m, q, a.c[p].size - 8)
    ensures Reallocated(a, b, p, q, nb)
  {
  }

  lemma ZeroWord()
    ensures OnWord(0)
  {
  }

  lemma WordStep(i: nat, n: nat, src: nat)
    requires OnWord(i) && OnWord(n) && OnWord(src) && i < n
    ensures i + 8 <= n && OnWord(i + 8) && OnWord(src + i)
  {
  }

  lemma IntMax()
    ensures INT_MAX == 0x7fff_ffff
  {
  }

  lemma CopyCarried(m: Mem, p: nat, v: nat, m': Mem, oldsize: nat)
    requires 8 <= oldsize
    requires forall w :: p + 16 <= w < p + 16 + (oldsize - 8) && OnWord(w) ==>
      w in m && w - (p + 16) + (v + 16) in m' && m'[w - (p + 16) + (v + 16)] == m[w]
    ensures Carried(m, p, m', v, oldsize - 8)
  {
    hide OnWord;
    forall w: nat | p + 16 <= w < p + 16 + (oldsize - 8) && OnWord(w) && w in m ensures w - p + v in m' && m'[w - p + v] == m[w] {
      assert w - (p + 16) + (v + 16) == w - p + v;
    }
  }

  lemma WidenOutside(m: Mem, m': Mem, lo: nat, hi: nat, hi': nat)
    requires SameOutside(m, m', lo, hi) && hi <= hi'
    ensures SameOutside(m, m', lo, hi')
  {
  }

  lemma Absorbed(a: Arena, a1: Arena, b: Arena, p: nat, v: nat, nb: nat)
    requires p in a.c && a.c[p].used && 8 <= a.c[p].size && 8 <= nb && Granted(a, a1, nb, v) && p in a1.c && v != p
    requires p in b.c && b.c[p].used && nb <= b.c[p].size
    requires Live(b.c) == Live(a1.c) - {p} - {v} + {p} && Keeps(a1, b, {p, v})
    requires Carried(a1.m, p, b.m, p, Min(a1.c[p].size, b.c[p].size) - 8)
    ensures Reallocated(a, b, p, p, nb)
  {
  }

  lemma MovedOut(a: Arena, a1: Arena, a2: Arena, b: Arena, p: nat, v: nat, nb: nat)
    requires p in a.c && a.c[p].used && 8 <= a.c[p].size < nb && Granted(a, a1, nb, v) && p in a1.c && v != p
    requires a2 == a1.(m := a2.m) && Keeps(a1, a2, {v}) && Carried(a1.m, p, a2.m, v, a.c[p].size - 8)
    requires Live(b.c) == Live(a2.c) - {p} && Keeps(a2, b, {p})
    ensures Reallocated(a, b, p, v, nb)
  {
  }
}

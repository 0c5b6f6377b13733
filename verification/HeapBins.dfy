/** The bins: lists of free chunks, indexed by size, kept in decreasing order of
    size from the front to the back.  Bin 1 is last_remainder; bin 0, whose
    cells hold top and binblocks, never has a list. */
module HeapBins {
  import opened Common
  import opened HeapTiling
  import opened HeapSizes

  const NAV: nat := 128
  const LAST_REMAINDER: nat := 1

  type Bins = seq<seq<nat>>

  /** bin_index: exact below 512, then ever coarser. */
  function BinIndex(sz: nat): nat {
    var h := sz / 512;
    if h == 0 then sz / 8
    else if h <= 4 then 56 + sz / 64
    else if h <= 20 then 91 + sz / 512
    else if h <= 84 then 110 + sz / 4096
    else if h <= 340 then 119 + sz / 32768
    else if h <= 1364 then 124 + sz / 262144
    else 126
  }

  lemma BinIndexBounds(sz: nat)
    ensures sz < 512 ==> BinIndex(sz) == sz / 8 <= 63
    ensures 512 <= sz < 2560 ==> 64 <= BinIndex(sz) <= 95
    ensures 2560 <= sz < 10752 ==> 96 <= BinIndex(sz) <= 111
    ensures 10752 <= sz < 43520 ==> 112 <= BinIndex(sz) <= 120
    ensures 43520 <= sz < 174592 ==> 120 <= BinIndex(sz) <= 124
    ensures 174592 <= sz < 698880 ==> 124 <= BinIndex(sz) <= 126
    ensures 698880 <= sz ==> BinIndex(sz) == 126
  {
  }

  /** A smaller chunk never has a higher bin, despite the uneven bin widths. */
  lemma BinIndexMonotone(a: nat, b: nat)
    requires a <= b
    ensures BinIndex(a) <= BinIndex(b)
  {
    BinIndexBounds(a);
    BinIndexBounds(b);
  }

  /** Small bins hold chunks of one size only, and odd ones stay empty. */
  lemma SmallBinExact(a: nat, b: nat)
    requires Aligned(a) && Aligned(b) && b < 512 && BinIndex(a) == BinIndex(b)
    ensures a == b && BinIndex(a) % 2 == 0
  {
    BinIndexBounds(a);
    BinIndexBounds(b);
  }

  /** Decreasing order of size, from the front of the bin to its back. */
  ghost predicate Sorted(s: seq<nat>, c: Chunks)
    requires forall p :: p in s ==> p in c
  {
    forall j, k :: 0 <= j < k < |s| ==> c[s[j]].size >= c[s[k]].size
  }

  /** The place where the bins may hold chunk p. */
  ghost predicate Placed(bins: Bins, c: Chunks, p: nat)
    requires |bins| == NAV && p in c
  {
    (p in bins[LAST_REMAINDER]) != (BinIndex(c[p].size) < NAV && p in bins[BinIndex(c[p].size)])
  }

  ghost predicate Listed(bins: Bins, c: Chunks, x: set<nat>, i: nat)
    requires |bins| == NAV && i < NAV
  {
    && NoDup(bins[i])
    && (forall p :: p in bins[i] ==> p in c && !c[p].used && p !in x && (i >= 2 ==> BinIndex(c[p].size) == i))
    && (i >= 2 ==> Sorted(bins[i], c))
  }

  /** Every free chunk outside x sits in exactly one place, its size's bin or
      last_remainder; the bins hold nothing else and are in order. */
  ghost predicate BinnedBut(bins: Bins, c: Chunks, x: set<nat>) {
    && |bins| == NAV && bins[0] == [] && |bins[LAST_REMAINDER]| <= 1
    && (forall i :: 0 <= i < NAV ==> Listed(bins, c, x, i))
    && (forall p :: p in c && !c[p].used && p !in x ==> Placed(bins, c, p))
  }

  lemma BinnedTransfer(bins: Bins, c: Chunks, d: Chunks, x: set<nat>)
    requires BinnedBut(bins, c, x)
    requires forall p :: p !in x ==> (p in c <==> p in d) && (p in c ==> c[p] == d[p])
    ensures BinnedBut(bins, d, x)
  {
    forall i | 0 <= i < NAV ensures Listed(bins, d, x, i) {
      assert Listed(bins, c, x, i);
    }
    forall p | p in d && !d[p].used && p !in x ensures Placed(bins, d, p) {
      assert Placed(bins, c, p);
    }
  }

  lemma BinnedGrow(bins: Bins, c: Chunks, x: set<nat>, p: nat)
    requires BinnedBut(bins, c, x) && (p !in c || c[p].used)
    ensures BinnedBut(bins, c, x + {p})
  {
    forall i | 0 <= i < NAV ensures Listed(bins, c, x + {p}, i) {
      assert Listed(bins, c, x, i);
    }
  }

  lemma BinnedShrink(bins: Bins, c: Chunks, x: set<nat>, p: nat)
    requires BinnedBut(bins, c, x) && (p !in c || c[p].used)
    ensures BinnedBut(bins, c, x - {p})
  {
    forall i | 0 <= i < NAV ensures Listed(bins, c, x - {p}, i) {
      assert Listed(bins, c, x, i);
    }
  }

  lemma BinnedLess(bins: Bins, c: Chunks, x: set<nat>, y: set<nat>)
    requires BinnedBut(bins, c, x) && y <= x && forall p :: p in x && p !in y && p in c ==> c[p].used
    ensures BinnedBut(bins, c, y)
  {
    forall i | 0 <= i < NAV ensures Listed(bins, c, y, i) {
      assert Listed(bins, c, x, i);
    }
  }

  /** s without its element at k. */
  function CutAt(s: seq<nat>, k: nat): seq<nat>
    requires k < |s|
  {
    s[..k] + s[k + 1..]
  }

  function PutAt(s: seq<nat>, k: nat, p: nat): seq<nat>
    requires k <= |s|
  {
    s[..k] + [p] + s[k..]
  }

  /** Taking a chunk off its list. */
  lemma UnlinkBinned(bins: Bins, c: Chunks, x: set<nat>, b: nat, k: nat)
    requires BinnedBut(bins, c, x) && b < NAV && k < |bins[b]|
    ensures BinnedBut(bins[b := CutAt(bins[b], k)], c, x + {bins[b][k]})
  {
    var p, bins' := bins[b][k], bins[b := CutAt(bins[b], k)];
    assert Listed(bins, c, x, b);
    assert p in bins[b];
    OnlyHere(bins, c, x, b, p);
    CutMembers(bins[b], k);
    forall i | 0 <= i < NAV ensures Listed(bins', c, x + {p}, i) {
      assert Listed(bins, c, x, i);
    }
    forall q | q in c && !c[q].used && q !in x + {p} ensures Placed(bins', c, q) {
      assert Placed(bins, c, q);
    }
  }

  lemma OnlyHere(bins: Bins, c: Chunks, x: set<nat>, b: nat, p: nat)
    requires BinnedBut(bins, c, x) && b < NAV && p in bins[b]
    ensures forall i :: 0 <= i < NAV && i != b ==> p !in bins[i]
  {
    assert Listed(bins, c, x, b);
    assert Placed(bins, c, p);
    forall i | 0 <= i < NAV && i != b ensures p !in bins[i] {
      assert Listed(bins, c, x, i);
    }
  }

  lemma CutMembers(s: seq<nat>, k: nat)
    requires k < |s| && NoDup(s)
    ensures NoDup(CutAt(s, k))
    ensures forall q :: q in CutAt(s, k) <==> q in s && q != s[k]
  {
    var t := CutAt(s, k);
    forall q | q in s && q != s[k] ensures q in t {
      var j :| 0 <= j < |s| && s[j] == q;
      assert t[if j < k then j else j - 1] == q;
    }
  }

  /** Putting a free chunk into its bin, behind all larger chunks and ahead of
      all smaller ones. */
  lemma LinkBinned(bins: Bins, c: Chunks, x: set<nat>, p: nat, k: nat)
    requires BinnedBut(bins, c, x) && p in x && p in c && !c[p].used && 16 <= c[p].size
    requires BinIndex(c[p].size) < NAV && k <= |bins[BinIndex(c[p].size)]|
    requires forall j :: 0 <= j < k ==> bins[BinIndex(c[p].size)][j] in c && c[p].size <= c[bins[BinIndex(c[p].size)][j]].size
    requires forall j :: k <= j < |bins[BinIndex(c[p].size)]| ==>
      bins[BinIndex(c[p].size)][j] in c && c[bins[BinIndex(c[p].size)][j]].size <= c[p].size
    ensures BinnedBut(bins[BinIndex(c[p].size) := PutAt(bins[BinIndex(c[p].size)], k, p)], c, x - {p})
  {
    var b := BinIndex(c[p].size);
    BinIndexBounds(c[p].size);
    var s, t := bins[b], PutAt(bins[b], k, p);
    var bins' := bins[b := t];
    assert Listed(bins, c, x, b);
    assert p !in s;
    PutMembers(s, k, p);
    PutSorted(s, c, k, p);
    forall i | 0 <= i < NAV ensures Listed(bins', c, x - {p}, i) {
      assert Listed(bins, c, x, i);
    }
    assert p !in bins[LAST_REMAINDER] by { assert Listed(bins, c, x, LAST_REMAINDER); }
    forall q | q in c && !c[q].used && q !in x - {p} ensures Placed(bins', c, q) {
      if q != p { assert Placed(bins, c, q); }
    }
  }

  lemma PutMembers(s: seq<nat>, k: nat, p: nat)
    requires k <= |s| && NoDup(s) && p !in s
    ensures NoDup(PutAt(s, k, p))
    ensures forall q :: q in PutAt(s, k, p) <==> q in s || q == p
  {
    var t := PutAt(s, k, p);
    assert t[k] == p;
    forall q | q in s ensures q in t {
      var j :| 0 <= j < |s| && s[j] == q;
      assert t[if j < k then j else j + 1] == q;
    }
  }

  lemma PutSorted(s: seq<nat>, c: Chunks, k: nat, p: nat)
    requires k <= |s| && p in c && (forall q :: q in s ==> q in c) && Sorted(s, c)
    requires forall j :: 0 <= j < k ==> c[p].size <= c[s[j]].size
    requires forall j :: k <= j < |s| ==> c[s[j]].size <= c[p].size
    ensures (forall q :: q in PutAt(s, k, p) ==> q in c) && Sorted(PutAt(s, k, p), c)
  {
  }

  /** Placing a free chunk as the last remainder. */
  lemma LinkRemainder(bins: Bins, c: Chunks, x: set<nat>, p: nat)
    requires BinnedBut(bins, c, x) && bins[LAST_REMAINDER] == [] && p in x && p in c && !c[p].used && 16 <= c[p].size
    ensures BinnedBut(bins[LAST_REMAINDER := [p]], c, x - {p})
  {
    var bins' := bins[LAST_REMAINDER := [p]];
    BinIndexBounds(c[p].size);
    forall i | 0 <= i < NAV ensures Listed(bins', c, x - {p}, i) {
      assert Listed(bins, c, x, i);
    }
    forall q | q in c && !c[q].used && q !in x - {p} ensures Placed(bins', c, q) {
      BinIndexBounds(c[q].size);
      if q != p {
        assert Placed(bins, c, q);
      } else if BinIndex(c[p].size) < NAV {
        assert Listed(bins, c, x, BinIndex(c[p].size));
      }
    }
  }

  // ----- binblocks -----

  /** binblocks as its bits, lowest first.  Bit k stands for bins 4k to 4k+3. */
  type Blocks = seq<bool>

  const BINBLOCKWIDTH: nat := 4
  const WORD_BITS: nat := 64

  /** Every non-empty bin has the bit of its block set. */
  ghost predicate Marked(bins: Bins, blocks: Blocks) {
    && |bins| == NAV && |blocks| == WORD_BITS
    && (forall i :: 2 <= i < NAV && bins[i] != [] ==> blocks[i / 4])
    && (forall k :: NAV / BINBLOCKWIDTH <= k < WORD_BITS ==> !blocks[k])
  }

  /** The number that the bits stand for. */
  function Value(bits: seq<bool>): nat {
    if bits == [] then 0 else (if bits[0] then 1 else 0) + 2 * Value(bits[1..])
  }

  /** Comparing the word with a single bit, as numbers, tells whether any bit
      at or above that one is set. */
  lemma {:induction false} SomeBitAbove(bits: seq<bool>, k: nat)
    ensures Power2(k) <= Value(bits) <==> exists j :: k <= j < |bits| && bits[j]
  {
    if bits == [] {
      assert Value(bits) == 0 && Power2(k) > 0 by { PowerPositive(k); }
    } else if k == 0 {
      SomeBitAbove(bits[1..], 0);
      if bits[0] {
      } else if exists j :: 0 <= j < |bits| && bits[j] {
        var j :| 0 <= j < |bits| && bits[j];
        assert bits[1..][j - 1];
      } else {
        assert forall j :: 0 <= j < |bits[1..]| ==> bits[1..][j] == bits[j + 1];
      }
    } else {
      SomeBitAbove(bits[1..], k - 1);
      if exists j :: k <= j < |bits| && bits[j] {
        var j :| k <= j < |bits| && bits[j];
        assert bits[1..][j - 1];
      } else {
        assert forall j :: 0 <= j < |bits[1..]| ==> bits[1..][j] == bits[j + 1];
      }
    }
  }

  lemma PowerPositive(k: nat)
    ensures Power2(k) > 0
  {
  }
}

/** Sizes: request padding and page rounding. */
module HeapSizes {
  import opened Common
  import opened HeapTiling

  const MINSIZE: nat := 32
  const PAGE: nat := 4096
  const WORD: nat := 0x1_0000_0000_0000_0000
  const MAX_SMALLBIN_SIZE: nat := 512
  const MAX_SMALLBIN: nat := 63

  /** request2size, in 64-bit unsigned arithmetic. */
  function Request2Size(req: nat): (nb: nat)
    requires req < WORD
  {
    var padded := (req + 23) % WORD;
    if padded < 47 then 32 else padded - padded % 16
  }

  /** Unless the padding wraps around, which leaves nb < req, the padded size
      is aligned and has room for the request and one header word. */
  lemma RequestFits(req: nat)
    requires req < WORD
    ensures Aligned(Request2Size(req)) && 32 <= Request2Size(req)
    ensures req + 23 < WORD ==> req + 8 <= Request2Size(req) && (Request2Size(req) < req + 24 || Request2Size(req) == 32)
    ensures WORD <= req + 23 ==> Request2Size(req) < req
  {
    var padded := (req + 23) % WORD;
    assert Aligned(padded - padded % 16) by { FloorAligned(padded); }
  }

  lemma FloorAligned(x: nat)
    ensures Aligned(x - x % 16)
  {
  }

  predicate OnPage(x: nat) { x % 4096 == 0 }

  /** (n + (pagesz - 1)) & ~(pagesz - 1) */
  function PageUp(n: nat): (r: nat)
    requires Aligned(n)
    ensures n <= r < n + PAGE && OnPage(r) && Aligned(r)
  {
    var r := n + 4095 - (n + 4095) % 4096;
    PageAligned(r);
    r
  }

  lemma PageAligned(r: nat)
    requires OnPage(r)
    ensures Aligned(r)
  {
    var q := PageNumber(r);
    MultipleOf16(r, 256 * q);
  }

  lemma PageNumber(r: nat) returns (q: nat)
    requires OnPage(r)
    ensures r == 4096 * q
  {
    q := r / 4096;
  }

  lemma MultipleOf16(x: nat, q: nat)
    requires x == 16 * q
    ensures Aligned(x)
  {
  }

  lemma PageSum(x: nat, y: nat)
    requires OnPage(x) && OnPage(y)
    ensures OnPage(x + y)
  {
  }

  /** The correction brings x to the next page boundary. */
  lemma ToPage(x: nat, limit: nat, correction: nat)
    requires Aligned(x) && x <= limit && OnPage(limit) && correction == (4096 - x % 4096) % 4096
    ensures x + correction <= limit && OnPage(x + correction) && Aligned(correction)
  {
    var q := x / 4096;
    var p := PageNumber(limit);
    if x % 4096 == 0 {
      assert correction == 0;
    } else {
      assert correction == 4096 - x % 4096 && x + correction == 4096 * (q + 1);
      OnPageIntro(x + correction, q + 1);
    }
    PageAligned(x + correction);
    AlignedSum(x + correction, x);
  }

  lemma OnPageIntro(x: nat, q: nat)
    requires x == 4096 * q
    ensures OnPage(x)
  {
  }

  // ----- alignment -----

  function Power2(k: nat): nat { if k == 0 then 1 else 2 * Power2(k - 1) }

  ghost predicate PowerOfTwo(x: nat) { exists k: nat :: x == Power2(k) }

  /** Powers of two above 16 are multiples of 32. */
  lemma LargeAlignment(x: nat)
    requires PowerOfTwo(x) && 16 < x
    ensures 32 <= x && Aligned(x)
  {
    var k: nat :| x == Power2(k);
    SmallPowers(k);
    var q := LargePower(k);
    MultipleOf16(x, 2 * q);
  }

  lemma SmallPowers(k: nat)
    ensures k < 5 ==> Power2(k) in {1, 2, 4, 8, 16}
  {
    assert Power2(0) == 1 && Power2(1) == 2 && Power2(2) == 4 && Power2(3) == 8 && Power2(4) == 16;
  }

  lemma {:induction false} LargePower(k: nat) returns (q: nat)
    requires 5 <= k
    ensures Power2(k) == 32 * q && 1 <= q
  {
    if k == 5 {
      SmallPowers(4);
      assert Power2(5) == 2 * Power2(4) && Power2(4) == 2 * Power2(3) && Power2(3) == 2 * Power2(2) && Power2(2) == 2 * Power2(1);
      q := 1;
    } else {
      var r := LargePower(k - 1);
      q := 2 * r;
    }
  }

  predicate OnAlignment(x: nat, al: nat) { 0 < al && x % al == 0 }

  /** (x + al - 1) & -al, for a power of two al */
  function RoundUp(x: nat, al: nat): nat
    requires 0 < al
  {
    x + al - 1 - (x + al - 1) % al
  }

  lemma SmallAlignment(x: nat, r: nat)
    requires PowerOfTwo(x) && x <= 16 && Aligned(r)
    ensures OnAlignment(r, x)
  {
    var k: nat :| x == Power2(k);
    SmallPowers(k);
    if 5 <= k { var q := LargePower(k); }
    SixteenParts(x);
    var t := r / 16;
    assert r == (x * (16 / x)) * t == x * ((16 / x) * t);
    RemainderIs(r, x, (16 / x) * t, 0);
  }

  lemma SixteenParts(x: nat)
    requires x in {1, 2, 4, 8, 16}
    ensures x * (16 / x) == 16
  {
  }

  lemma RemainderIs(x: nat, al: nat, q: nat, r: nat)
    requires 0 < al && x == al * q + r && r < al
    ensures x % al == r
  {
    var q' := x / al;
    assert x == al * q' + x % al;
    assert al * (q - q') == al * q - al * q';
    if q' < q { TimesAtLeast(al, q - q'); }
    if q < q' {
      assert al * (q' - q) == al * q' - al * q;
      TimesAtLeast(al, q' - q);
    }
  }

  lemma TimesAtLeast(al: nat, d: nat)
    requires 1 <= d
    ensures al <= al * d
  {
    assert al * d == al * (d - 1) + al;
  }

  /** The next multiple of al above m, and the one after it. */
  lemma SpotAligned(m: nat, al: nat)
    requires 32 <= al && Aligned(al) && Aligned(m) && !OnAlignment(m, al)
    ensures m + 16 <= RoundUp(m, al) <= m + al - 16 && Aligned(RoundUp(m, al) - m)
    ensures OnAlignment(RoundUp(m, al), al) && OnAlignment(RoundUp(m, al) + al, al)
  {
    var q, r := RoundUpIs(m, al);
    hide *;
    RemainderIs(r, al, q + 1, 0);
    NextMultiple(r, al, q);
    OnAlignmentIs(r, al);
    OnAlignmentIs(r + al, al);
    MultipleAligned(al, q + 1);
    AlignedSum(r, m);
    GapAtLeast16(r - m);
    AlignedSum(al, r - m);
    GapAtLeast16(al - (r - m));
  }

  lemma OnAlignmentIs(x: nat, al: nat)
    requires 0 < al && x % al == 0
    ensures OnAlignment(x, al)
  {
  }

  lemma NextMultiple(r: nat, al: nat, q: nat)
    requires 0 < al && r == al * (q + 1)
    ensures (r + al) % al == 0
  {
    assert al * (q + 2) == al * (q + 1) + al;
    RemainderIs(r + al, al, q + 2, 0);
  }

  lemma RoundUpIs(m: nat, al: nat) returns (q: nat, r: nat)
    requires 0 < al && !OnAlignment(m, al)
    ensures r == RoundUp(m, al) == al * (q + 1) && m < r < m + al
  {
    q, r := m / al, RoundUp(m, al);
    var t := m % al;
    assert m == al * q + t;
    assert al * (q + 1) == al * q + al;
    RemainderIs(m + al - 1, al, q + 1, t - 1);
  }

  lemma MultipleAligned(al: nat, q: nat)
    requires Aligned(al)
    ensures Aligned(al * q)
  {
    var t := al / 16;
    assert al == 16 * t;
    assert al * q == 16 * (t * q);
    MultipleOf16(al * q, t * q);
  }

  lemma GapAtLeast16(x: int)
    requires Aligned(x) && 0 < x
    ensures 16 <= x
  {
  }
}

/** Bytes, big-endian words, and zero-terminated strings. */
module FdtBytes {
  import opened Common

  type byte = x: int | 0 <= x < 256
  type Bytes = seq<byte>

  const WORD: nat := 0x1_0000_0000

  /** A 32-bit word as it is stored: most significant byte first. */
  function Word(v: nat): (b: Bytes)
    requires v < WORD
    ensures |b| == 4
  {
    [v / 0x100_0000, v / 0x1_0000 % 0x100, v / 0x100 % 0x100, v % 0x100]
  }

  function Get32(b: Bytes): (v: nat)
    requires |b| == 4
    ensures v < WORD
  {
    var w: int, x: int, y: int, z: int := b[0], b[1], b[2], b[3];
    ((w * 0x100 + x) * 0x100 + y) * 0x100 + z
  }

  lemma WordBack(v: nat)
    requires v < WORD
    ensures Get32(Word(v)) == v
  {
    var a, b, c := v / 0x100, v / 0x1_0000, v / 0x100_0000;
    assert v == a * 0x100 + v % 0x100;
    assert b == a / 0x100 && a == b * 0x100 + a % 0x100;
    assert c == b / 0x100 && b == c * 0x100 + b % 0x100;
  }

  /** Rounding up to the size of a tag. */
  function Up4(n: nat): (r: nat)
    ensures n <= r < n + 4 && r % 4 == 0
  {
    (n + 3) / 4 * 4
  }

  lemma Up4Sum(a: nat, n: nat)
    requires a % 4 == 0
    ensures Up4(a + n) == a + Up4(n)
  {
  }

  predicate NoNul(s: Bytes) {
    forall i :: 0 <= i < |s| ==> s[i] != 0
  }

  /** A string of this content stands at offset o of b. */
  predicate IsStr(b: Bytes, o: int, s: Bytes) {
    NoNul(s) && 0 <= o && o + |s| < |b| && b[o..o + |s|] == s && b[o + |s|] == 0
  }

  lemma StrBytes(b: Bytes, o: int, s: Bytes)
    requires IsStr(b, o, s)
    ensures b[o + |s|] == 0 && forall i :: 0 <= i < |s| ==> b[o + i] == s[i] && b[o + i] != 0
  {
    assert forall i :: 0 <= i < |s| ==> b[o..o + |s|][i] == s[i];
  }

  /** Strings are found again when other bytes are put in front or behind. */
  lemma StrWithin(a: Bytes, b: Bytes, c: Bytes, o: int, s: Bytes)
    requires IsStr(b, o, s)
    ensures IsStr(a + b + c, |a| + o, s)
  {
    assert (a + b + c)[|a| + o..|a| + o + |s|] == b[o..o + |s|];
  }

  /** memcmp(p, s, len) == 0 */
  lemma StrHere(tab: Bytes, p: nat, s: Bytes)
    requires p + |s| + 1 <= |tab| && NoNul(s)
    ensures tab[p..p + (|s| + 1)] == s + [0] <==> IsStr(tab, p, s)
  {
    var here := tab[p..p + (|s| + 1)];
    assert here == tab[p..p + |s|] + [tab[p + |s|]];
    assert here[..|s|] == tab[p..p + |s|] && here[|s|] == tab[p + |s|];
    assert (s + [0])[..|s|] == s && (s + [0])[|s|] == 0;
  }

  /** fdt_find_string_: the first place in the table where s and its terminator
      stand; it may be the end of a longer string. */
  method FindString(tab: Bytes, s: Bytes) returns (p: int)
    requires NoNul(s)
    ensures 0 <= p ==> IsStr(tab, p, s)
    ensures p < 0 ==> forall q: int :: !IsStr(tab, q, s)
  {
    var len := |s| + 1;
    p := 0;
    while p <= |tab| - len
      invariant 0 <= p
      invariant forall q: int :: q < p ==> !IsStr(tab, q, s)
    {
      StrHere(tab, p, s);
      if tab[p..p + len] == s + [0] { return; }
      p := p + 1;
    }
    p := -1;
  }

  lemma NulIs(s: Bytes, o: nat, name: Bytes)
    requires IsStr(s, o, name)
    ensures NextOf(s, 0, o) == o + |name|
  {
    StrBytes(s, o, name);
  }

  /** fdt32_to_cpu as an int */
  function AsInt(v: nat): int { if v <= INT_MAX then v else v - WORD }

  /** a with w written over it at o. */
  function Patched(a: Bytes, o: nat, w: Bytes): (b: Bytes)
    requires o + |w| <= |a|
    ensures |b| == |a|
  {
    a[..o] + w + a[o + |w|..]
  }

  lemma PrefixPart(b: Bytes, w: Bytes, i: nat, j: nat)
    requires |w| <= |b| && b[..|w|] == w && i <= j <= |w|
    ensures b[i..j] == w[i..j]
  {
    forall k | i <= k < j ensures b[k] == w[k] {
      assert b[..|w|][k] == b[k];
    }
  }

  datatype StringResult = Found(s: Bytes) | Failed(err: int)

  const ERR_NOSPACE: int := 3
  const ERR_BADOFFSET: int := 4
  const ERR_TRUNCATED: int := 8

  /** fdt_get_string on the strings block of a complete tree */
  function GetString(strs: Bytes, off: int): StringResult {
    if off < 0 || |strs| <= off then Failed(-ERR_BADOFFSET)
    else if NextOf(strs, 0, off) == |strs| then Failed(-ERR_TRUNCATED)
    else Found(strs[off..NextOf(strs, 0, off)])
  }

  /** It finds exactly the strings that stand there. */
  lemma GetStringIs(strs: Bytes, off: int, s: Bytes)
    ensures GetString(strs, off) == Found(s) <==> IsStr(strs, off, s)
  {
    if IsStr(strs, off, s) {
      NulIs(strs, off, s);
    }
  }
}

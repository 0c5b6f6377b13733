/** Editing a complete tree in place, by splicing the buffer. */
module FdtEdit {
  import opened Common
  import opened FdtBytes
  import opened FdtTokens
  import opened FdtTree
  import opened FdtView
  import opened FdtChange

  const ERR_EXISTS: int := 2

  const HEADER: nat := 40

  /** Up to the token at offset o nothing has changed. */
  ghost predicate SameUpto(ts: seq<Token>, us: seq<Token>, o: nat) {
    exists i: nat :: i < |ts| && i < |us| && ts[..i + 1] == us[..i + 1] && o == Total(ts[..i])
  }

  lemma SameUptoAt(ts: seq<Token>, us: seq<Token>, i: nat)
    requires i < |ts| && i < |us| && us[..i] == ts[..i] && us[i] == ts[i]
    ensures SameUpto(ts, us, Total(ts[..i]))
  {
    assert ts[..i + 1] == ts[..i] + [ts[i]] && us[..i + 1] == us[..i] + [us[i]];
  }

  /** The structure s after n bytes at o gave way to m bytes. */
  ghost predicate Spliced(s: Bytes, s': Bytes, o: nat, n: nat, m: nat) {
    && o + n <= |s| && |s'| == |s| - n + m
    && s'[..o] == s[..o] && s'[o + m..] == s[o + n..]
    && s'[o..o + Min(n, m)] == s[o..o + Min(n, m)]
  }

  lemma SplicedBlocks(a: Bytes, b: Bytes, off: nat, size: nat, o: nat, n: nat, m: nat, stroff: nat, strn: nat)
    requires off + size <= stroff && stroff + strn <= |a| && o + n <= size && stroff + strn - n + m <= |a|
    requires b == Patched(a, off + o + m, a[off + o + n..stroff + strn])
    ensures Spliced(a[off..off + size], b[off..off + (size - n + m)], o, n, m)
    ensures b[stroff - n + m..stroff - n + m + strn] == a[stroff..stroff + strn]
  {
    hide *;
    MinIs(n, m);
    var src, dst, end := off + o + n, off + o + m, stroff + strn;
    SplicedFront(a, b, off, size, 0, o, dst, size - n + m, a[src..end]);
    SplicedFront(a, b, off, size, o, Min(n, m), dst, size - n + m, a[src..end]);
    SplicedTail(a, b, off, size, o + n, o + m, src, dst, end, size - n + m);
    SplicedRest(a, b, src, dst, end, stroff, stroff - n + m, strn);
    SplicedFrom(a[off..off + size], b[off..off + (size - n + m)], o, n, m);
  }

  /** Nothing in front of the moved bytes changes. */
  lemma SplicedFront(a: Bytes, b: Bytes, off: nat, size: nat, i: nat, n: nat, dst: nat, size': nat, w: Bytes)
    requires dst + |w| <= |a| && b == Patched(a, dst, w)
    requires off + size <= |a| && off + size' <= |a| && i + n <= size && i + n <= size' && off + i + n <= dst
    ensures |b| == |a| && b[off..off + size'][i..i + n] == a[off..off + size][i..i + n]
  {
    hide *;
    Front(a, b, dst, w);
    PartEqual(a, b, off, size, size', i, i, n);
  }

  lemma SplicedTail(a: Bytes, b: Bytes, off: nat, size: nat, i: nat, j: nat, src: nat, dst: nat, end: nat, size': nat)
    requires src <= end <= |a| && dst + (end - src) <= |a| && b == Patched(a, dst, a[src..end])
    requires src == off + i && dst == off + j && off + size <= end && i <= size && size' == j + (size - i) && off + size' <= |a|
    ensures |b| == |a| && b[off..off + size'][j..size'] == a[off..off + size][i..size]
  {
    hide *;
    Front(a, b, dst, a[src..end]);
    ShiftedBytes(a, b, src, dst, end);
    PartEqual(a, b, off, size, size', i, j, size - i);
  }

  lemma SplicedRest(a: Bytes, b: Bytes, src: nat, dst: nat, end: nat, i: nat, j: nat, n: nat)
    requires src <= end <= |a| && dst + (end - src) <= |a| && b == Patched(a, dst, a[src..end])
    requires src <= i && i + n <= end && j - dst == i - src
    ensures |b| == |a| && j + n <= |b| && b[j..j + n] == a[i..i + n]
  {
    hide *;
    Front(a, b, dst, a[src..end]);
    ShiftedBytes(a, b, src, dst, end);
    Equal(a, b, i, j, n);
  }

  lemma MinIs(a: nat, b: nat)
    ensures Min(a, b) == if a < b then a else b
  {
  }

  lemma SplicedFrom(s: Bytes, s': Bytes, o: nat, n: nat, m: nat)
    requires o + n <= |s| && |s'| == |s| - n + m && s'[0..o] == s[0..o]
    requires s'[o + m..|s'|] == s[o + n..|s|] && s'[o..o + Min(n, m)] == s[o..o + Min(n, m)]
    ensures Spliced(s, s', o, n, m)
  {
    assert s'[..o] == s'[0..o] && s[..o] == s[0..o];
  }

  lemma ShiftedBytes(a: Bytes, b: Bytes, src: nat, dst: nat, end: nat)
    requires src <= end <= |a| && dst + (end - src) <= |a| && |b| == |a|
    requires forall k :: dst <= k < dst + (end - src) ==> b[k] == a[src..end][k - dst]
    ensures forall k :: dst <= k < dst + (end - src) ==> b[k] == a[k - dst + src]
  {
  }

  lemma Front(a: Bytes, b: Bytes, o: nat, w: Bytes)
    requires o + |w| <= |a| && b == Patched(a, o, w)
    ensures |b| == |a| && (forall k :: 0 <= k < o ==> b[k] == a[k]) && forall k :: o <= k < o + |w| ==> b[k] == w[k - o]
  {
  }

  lemma PartEqual(a: Bytes, b: Bytes, off: nat, size: nat, size': nat, i: nat, j: nat, n: nat)
    requires off + size <= |a| && off + size' <= |b| && i + n <= size && j + n <= size'
    requires forall k :: off + j <= k < off + j + n ==> b[k] == a[k - j + i]
    ensures a[off..off + size][i..i + n] == b[off..off + size'][j..j + n]
  {
    Inside(a, off, size, i, i + n);
    Inside(b, off, size', j, j + n);
    Equal(a, b, off + i, off + j, n);
  }

  lemma Equal(a: Bytes, b: Bytes, i: nat, j: nat, n: nat)
    requires i + n <= |a| && j + n <= |b| && forall k :: j <= k < j + n ==> b[k] == a[k - j + i]
    ensures a[i..i + n] == b[j..j + n]
  {
    var s, t := a[i..i + n], b[j..j + n];
    forall k | 0 <= k < n ensures s[k] == t[k] {
      assert b[j + k] == a[i + k];
    }
  }

  lemma PatchedBlocks(a: Bytes, b: Bytes, off: nat, size: nat, o: nat, w: Bytes, stroff: nat, strn: nat)
    requires off + size <= stroff && stroff + strn <= |a| && o + |w| <= size && b == Patched(a, off + o, w)
    ensures b[off..off + size] == Patched(a[off..off + size], o, w)
    ensures b[stroff..stroff + strn] == a[stroff..stroff + strn]
  {
  }

  /** From s to s', only n bytes at o gave way to m bytes. */
  ghost predicate Replaced(s: Bytes, s': Bytes, o: nat, n: nat, m: nat) {
    o + n <= |s| && |s'| == |s| - n + m && s'[..o] == s[..o] && s'[o + m..] == s[o + n..]
  }

  lemma SplicedReplaced(s: Bytes, s': Bytes, o: nat, h: nat, n: nat, m: nat)
    requires Spliced(s, s', o + h, n, m)
    ensures Replaced(s, s', o, h + n, h + m) && s'[o..o + h + Min(n, m)] == s[o..o + h + Min(n, m)]
  {
    var mn := Min(n, m);
    assert s'[..o] == s'[..o + h][..o] && s[..o] == s[..o + h][..o];
    assert s'[o..o + h + mn] == s'[..o + h][o..] + s'[o + h..o + h + mn];
    assert s[o..o + h + mn] == s[..o + h][o..] + s[o + h..o + h + mn];
    hide Min;
  }

  lemma PatchedReplaced(s: Bytes, s': Bytes, o: nat, n: nat, m: nat, k: nat, w: Bytes)
    requires Replaced(s, s', o, n, m) && k + |w| <= m
    ensures Replaced(s, Patched(s', o + k, w), o, n, m)
    ensures Patched(s', o + k, w)[o..o + m] == Patched(s'[o..o + m], k, w)
  {
    var t := Patched(s', o + k, w);
    assert t[..o] == s'[..o] && t[o + m..] == s'[o + m..];
  }

  lemma TokensReplaced(s: Bytes, s': Bytes, ts: seq<Token>, i: nat, j: nat, us: seq<Token>, m: nat)
    requires WritesAll(s, ts) && i <= j <= |ts|
    requires Total(ts[..i]) <= Total(ts[..j]) && Replaced(s, s', Total(ts[..i]), Total(ts[..j]) - Total(ts[..i]), m)
    requires WritesAll(s'[Total(ts[..i])..Total(ts[..i]) + m], us)
    ensures WritesAll(s', ts[..i] + us + ts[j..])
  {
    hide WritesAll, Total;
    var o, e := Total(ts[..i]), Total(ts[..j]);
    var c := s'[o..o + m];
    assert s' == s'[..o] + c + s'[o + m..];
    WritesSplice(s, ts, i, j, c, us);
  }

  /** The bytes of a property whose length and data were rewritten. */
  lemma PropRewritten(b: Bytes, c: Bytes, nameoff: nat, oldv: Bytes, keep: nat, val: Bytes)
    requires Writes(b, Prop(nameoff, oldv)) && keep <= |oldv| && keep + |val| <= INT_MAX
    requires |c| == 12 + Up4(keep + |val|) && 12 + keep <= |b| && c[..12 + keep] == b[..12 + keep]
    ensures var d := Patched(Patched(c, 4, Word(keep + |val|)), 12 + keep, val);
      Writes(d, Prop(nameoff, oldv[..keep] + val))
  {
    hide Up4, Word;
    var c1 := Patched(c, 4, Word(keep + |val|));
    var d := Patched(c1, 12 + keep, val);
    assert c1[..4] == c[..4] == c[..12 + keep][..4] && c1[4..8] == Word(keep + |val|);
    assert c1[8..12] == c[8..12] == c[..12 + keep][8..12];
    assert c1[12..12 + keep] == c[12..12 + keep] == c[..12 + keep][12..];
    assert b[..12 + keep][..4] == b[..4] && b[..12 + keep][8..12] == b[8..12] && b[..12 + keep][12..] == b[12..12 + |oldv|][..keep];
    assert d[..4] == c1[..4] && d[4..8] == c1[4..8] && d[8..12] == c1[8..12];
    assert d[12..12 + (keep + |val|)] == c1[12..12 + keep] + val;
  }

  class Blob {
    const buf: array<byte>
    var totalsize: nat
    var off_struct: nat
    var size_struct: nat
    var off_strings: nat
    var size_strings: nat
    ghost var toks: seq<Token>
    ghost var root: Node

    /** A tree as its header describes it. */
    constructor (buf: array<byte>, totalsize: nat, off_struct: nat, size_struct: nat, off_strings: nat, size_strings: nat,
                 ghost toks: seq<Token>, ghost root: Node)
      ensures this.buf == buf && this.totalsize == totalsize && this.off_struct == off_struct && this.size_struct == size_struct
      ensures this.off_strings == off_strings && this.size_strings == size_strings && this.toks == toks && this.root == root
    {
      this.buf, this.totalsize := buf, totalsize;
      this.off_struct, this.size_struct, this.off_strings, this.size_strings := off_struct, size_struct, off_strings, size_strings;
      this.toks, this.root := toks, root;
    }

    function Block(o: nat, n: nat): (b: Bytes)
      requires o + n <= buf.Length
      reads buf
      ensures |b| == n
    {
      buf[o..o + n]
    }

    lemma BlockIs(o: nat, n: nat)
      requires o + n <= buf.Length
      ensures Block(o, n) == buf[..][o..o + n]
    {
    }

    /** The blocks lie in order within the buffer. */
    ghost predicate Laid()
      reads this`totalsize, this`off_struct, this`size_struct, this`off_strings, this`size_strings
    {
      && totalsize <= buf.Length <= INT_MAX && HEADER <= off_struct
      && off_struct + size_struct <= off_strings && off_strings + size_strings <= totalsize
    }

    ghost function Struct(): Bytes
      requires Laid()
      reads this`totalsize, this`off_struct, this`size_struct, this`off_strings, this`size_strings, buf
    {
      Block(off_struct, size_struct)
    }

    ghost function Strings(): Bytes
      requires Laid()
      reads this`totalsize, this`off_struct, this`size_struct, this`off_strings, this`size_strings, buf
    {
      Block(off_strings, size_strings)
    }

    ghost predicate Valid()
      reads this, buf
    {
      Laid() && WritesAll(Struct(), toks) && Represents(toks, Strings(), root)
    }

    /** The node at path p begins at this offset. */
    ghost predicate IsNode(offset: int, p: Path)
      requires Laid()
      reads this, buf
    {
      exists i: nat :: NodeAt(toks, Strings(), root, p, i) && offset == Total(toks[..i])
    }

    // ----- bytes -----

    /** memcpy */
    method Copy(o: nat, b: Bytes)
      requires o + |b| <= buf.Length
      modifies buf
      ensures buf[..] == Patched(old(buf[..]), o, b)
    {
      forall i | 0 <= i < |b| {
        buf[o + i] := b[i];
      }
    }

    /** memmove */
    method Move(dst: nat, src: nat, n: nat)
      requires dst + n <= buf.Length && src + n <= buf.Length
      modifies buf
      ensures buf[..] == Patched(old(buf[..]), dst, old(buf[..])[src..src + n])
    {
      ghost var was := buf[..];
      forall i | 0 <= i < n {
        buf[dst + i] := buf[src + i];
      }
      assert buf[dst..dst + n] == was[src..src + n];
    }

    /** fdt_splice_: makes room for newlen bytes where oldlen bytes are, by moving
        everything behind them. */
    method Splice(p: nat, oldlen: nat, newlen: nat) returns (err: int)
      requires Laid() && p + oldlen <= off_strings + size_strings
      modifies buf
      ensures err == if totalsize < off_strings + size_strings - oldlen + newlen then -ERR_NOSPACE else 0
      ensures err != 0 ==> buf[..] == old(buf[..])
      ensures err == 0 ==> p + newlen + (off_strings + size_strings - (p + oldlen)) <= buf.Length
      ensures err == 0 ==>
        buf[..] == Patched(old(buf[..]), p + newlen, old(buf[..])[p + oldlen..off_strings + size_strings])
    {
      var dsize := off_strings + size_strings;
      if dsize - oldlen + newlen > totalsize { return -ERR_NOSPACE; }
      Move(p + newlen, p + oldlen, dsize - (p + oldlen));
      err := 0;
    }

    /** fdt_splice_struct_, at an offset within the structure */
    method SpliceStruct(o: nat, oldlen: nat, newlen: nat) returns (err: int)
      requires Laid() && o + oldlen <= size_struct
      modifies this`size_struct, this`off_strings, buf
      ensures Laid() && Strings() == old(Strings())
      ensures err == if totalsize < old(off_strings) + size_strings - oldlen + newlen then -ERR_NOSPACE else 0
      ensures err != 0 ==> Struct() == old(Struct()) && size_struct == old(size_struct) && off_strings == old(off_strings)
      ensures err == 0 ==> Spliced(old(Struct()), Struct(), o, oldlen, newlen)
    {
      hide *;
      ghost var before := buf[..];
      ghost var s, strs := Struct(), Strings();
      var off, size, stroff, strn := off_struct, size_struct, off_strings, size_strings;
      StructIs();
      LaidIs();
      BlockIs(off, size);
      BlockIs(stroff, strn);
      err := Splice(off + o, oldlen, newlen);
      if err != 0 {
        BlockIs(off, size);
        BlockIs(stroff, strn);
        StructIs();
        assert Strings() == strs;
        return;
      }
      SplicedBlocks(before, buf[..], off, size, o, oldlen, newlen, stroff, strn);
      BlockIs(off, size - oldlen + newlen);
      BlockIs(stroff - oldlen + newlen, strn);
      size_struct := size - oldlen + newlen;
      off_strings := stroff - oldlen + newlen;
      LaidNow();
      StructIs();
      assert Strings() == strs && Spliced(s, Struct(), o, oldlen, newlen);
    }

    /** memcpy into the structure */
    method PutStruct(o: nat, w: Bytes)
      requires Laid() && o + |w| <= size_struct
      modifies buf
      ensures Laid() && Strings() == old(Strings())
      ensures |old(Struct())| == size_struct && Struct() == Patched(old(Struct()), o, w)
    {
      hide Block, Patched;
      ghost var before := buf[..];
      BlockIs(off_struct, size_struct);
      BlockIs(off_strings, size_strings);
      Copy(off_struct + o, w);
      PatchedBlocks(before, buf[..], off_struct, size_struct, o, w, off_strings, size_strings);
      BlockIs(off_struct, size_struct);
      BlockIs(off_strings, size_strings);
    }

    // ----- properties as bytes -----

    /** Resizes the property at o and rewrites its data behind the first keep
        bytes. */
    method ResizeProp(o: nat, oldlen: nat, keep: nat, val: Bytes, ghost j: nat) returns (err: int)
      requires Laid() && WritesAll(Struct(), toks) && j < |toks| && toks[j].Prop? && o == Total(toks[..j])
      requires oldlen == |toks[j].value| && keep <= oldlen && keep + |val| <= INT_MAX
      modifies this`size_struct, this`off_strings, buf
      ensures Laid() && Strings() == old(Strings())
      ensures err == if totalsize < old(off_strings) + size_strings - Up4(oldlen) + Up4(keep + |val|) then -ERR_NOSPACE else 0
      ensures err != 0 ==> Struct() == old(Struct()) && WritesAll(Struct(), toks) && off_strings == old(off_strings)
      ensures err == 0 ==>
        WritesAll(Struct(), toks[..j] + [Prop(toks[j].nameoff, toks[j].value[..keep] + val)] + toks[j + 1..])
    {
      hide *;
      ghost var s, t := Struct(), toks[j];
      PropPlace(s, toks, j);
      StructSize();
      err := SpliceStruct(o + 12, Up4(oldlen), Up4(keep + |val|));
      StructSize();
      MinIs(Up4(oldlen), Up4(keep + |val|));
      if err != 0 { return; }
      ghost var m := 12 + Up4(keep + |val|);
      ghost var s1 := Struct();
      SplicedReplaced(s, s1, o, 12, Up4(oldlen), Up4(keep + |val|));
      ReplacedSize(s, s1, o, 12 + Up4(oldlen), m);
      PutStruct(o + 4, Word(keep + |val|));
      PatchedReplaced(s, s1, o, 12 + Up4(oldlen), m, 4, Word(keep + |val|));
      ghost var s2 := Struct();
      PutStruct(o + (12 + keep), val);
      PatchedReplaced(s, s2, o, 12 + Up4(oldlen), m, 12 + keep, val);
      KeptHead(s, s1, o, 12 + Up4(oldlen), m, 12 + Min(Up4(oldlen), Up4(keep + |val|)), 12 + keep);
      PropRewritten(s[o..o + Len(t)], s1[o..o + m], t.nameoff, t.value, keep, val);
      WritesOne(Struct()[o..o + m], Prop(t.nameoff, t.value[..keep] + val));
      TokensReplaced(s, Struct(), toks, j, j + 1, [Prop(t.nameoff, t.value[..keep] + val)], m);
    }

    /** Claims room for new tokens between two others. */
    method InsertSpace(o: nat, len: nat, ghost i: nat) returns (err: int)
      requires Laid() && WritesAll(Struct(), toks) && i <= |toks| && o == Total(toks[..i])
      modifies this`size_struct, this`off_strings, buf
      ensures Laid() && Strings() == old(Strings())
      ensures err == if totalsize < old(off_strings) + size_strings + len then -ERR_NOSPACE else 0
      ensures err != 0 ==> Struct() == old(Struct()) && size_struct == old(size_struct) && off_strings == old(off_strings)
      ensures err == 0 ==> Replaced(old(Struct()), Struct(), o, 0, len) && o + len <= size_struct
    {
      hide *;
      ghost var s := Struct();
      StructSize();
      WritesPart(s, toks, 0, i);
      err := SpliceStruct(o, 0, len);
      if err != 0 { return; }
      StructSize();
      SplicedReplaced(s, Struct(), o, 0, 0, len);
      ReplacedSize(s, Struct(), o, 0, len);
    }

    /** Takes the tokens from i to j out. */
    method RemoveSpace(o: nat, len: nat, ghost i: nat, ghost j: nat) returns (err: int)
      requires Laid() && WritesAll(Struct(), toks) && i <= j <= |toks|
      requires o == Total(toks[..i]) && Total(toks[..j]) == o + len
      modifies this`size_struct, this`off_strings, buf
      ensures Laid() && Strings() == old(Strings()) && err == 0 && WritesAll(Struct(), toks[..i] + toks[j..])
    {
      hide *;
      ghost var s := Struct();
      StructSize();
      WritesPart(s, toks, i, j);
      LaidIs();
      err := SpliceStruct(o, len, 0);
      SplicedReplaced(s, Struct(), o, 0, len, 0);
      ReplacedSize(s, Struct(), o, len, 0);
      NoTokens(Struct(), o);
      TokensReplaced(s, Struct(), toks, i, j, [], 0);
      assert toks[..i] + [] + toks[j..] == toks[..i] + toks[j..];
    }

    // ----- reading -----

    method TagAt(offset: nat, ghost j: nat) returns (tag: nat, next: int)
      requires Valid() && j < |toks| && offset == Total(toks[..j])
      ensures tag == Code(toks[j]) && next == Total(toks[..j + 1])
    {
      hide *;
      ValidParts();
      NextTagWalks(Struct(), toks, j);
      StructIs();
      tag, next := ReadTag(Block(off_struct, size_struct), offset);
    }

    lemma ValidParts()
      requires Valid()
      ensures Laid() && WritesAll(Struct(), toks) && Represents(toks, Strings(), root) && Named(toks, Strings())
      ensures |Struct()| == size_struct && |Strings()| == size_strings
    {
    }

    lemma StructIs()
      requires Laid()
      ensures off_struct + size_struct <= buf.Length && off_strings + size_strings <= buf.Length
      ensures Struct() == Block(off_struct, size_struct) && Strings() == Block(off_strings, size_strings)
      ensures totalsize <= INT_MAX == 0x7fff_ffff && ERR_NOSPACE == 3
    {
    }

    /** nextprop_: the next property from here on, NOPs skipped. */
    method NextProp(start: nat, ghost p: Path, ghost j0: nat, ghost k: nat) returns (r: int, ghost j: nat)
      requires Valid() && Has(root, p) && PropsAhead(toks, Strings(), j0, At(root, p).props, k, Behind(root, p))
      requires start == Total(toks[..j0])
      ensures r >= 0 ==> k < |At(root, p).props| && j0 <= j < |toks| && toks[j].Prop? && r == Total(toks[..j])
      ensures r >= 0 ==> PropsAhead(toks, Strings(), j, At(root, p).props, k, Behind(root, p))
      ensures r < 0 ==> r == -ERR_NOTFOUND && k == |At(root, p).props|
    {
      hide *;
      ValidParts();
      Codes();
      AheadBounds(toks, Strings(), j0, At(root, p).props, k, Behind(root, p));
      j := j0;
      var offset := start;
      while true
        invariant j0 <= j <= |toks| && PropsAhead(toks, Strings(), j, At(root, p).props, k, Behind(root, p)) && offset == Total(toks[..j])
        decreases |toks| - j
      {
        PropsStep(toks, Strings(), root, j, At(root, p).props, k, Behind(root, p));
        CodeOf(toks[j]);
        var tag, next := TagAt(offset, j);
        if tag == 3 { return offset, j; }
        if tag != 4 { return -1, j; }
        offset := next;
        j := j + 1;
      }
    }

    /** The name and data of the property at an offset. */
    method ReadProp(o: nat, ghost j: nat) returns (name: StringResult, value: Bytes)
      requires Valid() && j < |toks| && toks[j].Prop? && o == Total(toks[..j])
      ensures name == NameOf(toks[j], Strings()) && value == toks[j].value
    {
      hide *;
      ValidParts();
      StructIs();
      PropFields(Struct(), toks, j);
      var s := Block(off_struct, size_struct);
      name := GetString(Block(off_strings, size_strings), AsInt(Get32(s[o + 8..o + 12])));
      value := s[o + 12..o + 12 + Get32(s[o + 4..o + 8])];
      NameIs(toks[j], Strings());
    }

    /** fdt_get_property_namelen_ */
    method FindProperty(nodeoffset: nat, name: Bytes, ghost p: Path) returns (r: int, ghost j: nat, ghost i: nat, value: Bytes)
      requires Valid() && IsNode(nodeoffset, p)
      ensures Has(root, p) && NodeAt(toks, Strings(), root, p, i) && nodeoffset == Total(toks[..i])
      ensures r >= 0 ==> var ps := At(root, p).props; var k := FindProp(ps, name);
        k < |ps| && i < j < |toks| && toks[j].Prop? && r == Total(toks[..j]) && value == ps[k].value == toks[j].value
        && PropsAhead(toks, Strings(), j, ps, k, Behind(root, p))
      ensures r < 0 ==> r == -ERR_NOTFOUND && FindProp(At(root, p).props, name) == |At(root, p).props|
    {
      hide *;
      ValidParts();
      Codes();
      i := NodeToken(nodeoffset, p);
      NodeParts(toks, Strings(), root, p, i);
      PropsStart(toks, Strings(), root, p, i);
      var tag, next := TagAt(nodeoffset, i);
      ghost var k := 0;
      ghost var ps := At(root, p).props;
      r, j := NextProp(next, p, i + 1, 0);
      value := [];
      while r >= 0
        invariant 0 <= k <= |ps|
        invariant r >= 0 ==> k < |ps| && i < j < |toks| && toks[j].Prop? && r == Total(toks[..j])
        invariant r >= 0 ==> PropsAhead(toks, Strings(), j, ps, k, Behind(root, p))
        invariant r < 0 ==> r == -ERR_NOTFOUND && k == |ps|
        invariant forall h :: 0 <= h < k ==> ps[h].name != name
        decreases |ps| - k, r >= 0
      {
        PropsStep(toks, Strings(), root, j, ps, k, Behind(root, p));
        var found;
        found, value := ReadProp(r, j);
        if found == Found(name) {
          FindPropIs(ps, name, k);
          return;
        }
        tag, next := TagAt(r, j);
        k := k + 1;
        r, j := NextProp(next, p, j + 1, k);
      }
      NoProp(ps, name);
    }

    ghost method NodeToken(nodeoffset: nat, p: Path) returns (i: nat)
      requires Valid() && IsNode(nodeoffset, p)
      ensures NodeAt(toks, Strings(), root, p, i) && nodeoffset == Total(toks[..i])
    {
      i :| NodeAt(toks, Strings(), root, p, i) && nodeoffset == Total(toks[..i]);
    }

    /** fdt_getprop */
    method GetProp(nodeoffset: nat, name: Bytes, ghost p: Path) returns (r: StringResult)
      requires Valid() && IsNode(nodeoffset, p)
      ensures Has(root, p) && r == Lookup(At(root, p), name)
    {
      ghost var j, i;
      var o, value;
      o, j, i, value := FindProperty(nodeoffset, name, p);
      r := if o >= 0 then Found(value) else Failed(o);
    }

    // ----- editing properties -----

    /** The properties of a node have changed; the node is still where it was. */
    lemma Edited(old_toks: seq<Token>, old_root: Node, p: Path, i: nat, n: Node, offset: nat)
      requires Laid() && NodeAt(old_toks, Strings(), old_root, p, i) && offset == Total(old_toks[..i])
      requires i < |toks| && toks[..i] == old_toks[..i] && toks[i] == old_toks[i]
      requires WritesAll(Struct(), toks) && Represents(toks, Strings(), Put(old_root, p, n)) && root == Put(old_root, p, n)
      ensures Valid() && IsNode(offset, p)
    {
      NodeKept(old_toks, toks, Strings(), old_root, p, i, n);
    }

    /** A property found is given data anew, from its keep-th byte on. */
    method Rewrite(nodeoffset: nat, o: nat, oldlen: nat, keep: nat, val: Bytes, ghost p: Path, ghost i: nat, ghost j: nat, ghost k: nat)
      returns (err: int)
      requires Valid() && NodeAt(toks, Strings(), root, p, i) && nodeoffset == Total(toks[..i])
      requires k < |At(root, p).props| && i < j < |toks| && toks[j].Prop? && o == Total(toks[..j])
      requires PropsAhead(toks, Strings(), j, At(root, p).props, k, Behind(root, p))
      requires oldlen == |toks[j].value| && keep <= oldlen && keep + |val| <= INT_MAX
      modifies this, buf
      ensures Valid() && IsNode(nodeoffset, p) && Has(old(root), p) && totalsize == old(totalsize)
      ensures SameUpto(old(toks), toks, nodeoffset)
      ensures err == if totalsize < old(off_strings) + size_strings - Up4(oldlen) + Up4(keep + |val|) then -ERR_NOSPACE else 0
      ensures Strings() == old(Strings()) && size_strings == old(size_strings)
      ensures err != 0 ==> root == old(root) && off_strings == old(off_strings)
      ensures err == 0 ==> var n := At(old(root), p);
        k < |n.props| && keep <= |n.props[k].value| && root == Put(old(root), p, NewProp(n, k, keep, val))
    {
      hide *;
      ValidParts();
      ghost var ts, r, strs := toks, root, Strings();
      NodeParts(ts, strs, r, p, i);
      PropsStep(ts, strs, r, j, At(r, p).props, k, Behind(r, p));
      err := ResizeProp(o, oldlen, keep, val, j);
      if err != 0 {
        StillValid();
        SameUptoAt(ts, toks, i);
        IsNodeNow(nodeoffset, p, i);
        return;
      }
      ghost var t := Prop(ts[j].nameoff, ts[j].value[..keep] + val);
      toks := ts[..j] + [t] + ts[j + 1..];
      PropReplaced(ts, strs, r, p, j, k, t, keep, val);
      root := Put(r, p, NewProp(At(r, p), k, keep, val));
      Edited(ts, r, p, i, NewProp(At(r, p), k, keep, val), nodeoffset);
      SameUptoAt(ts, toks, i);
    }

    lemma StillValid()
      requires Laid() && WritesAll(Struct(), toks) && Represents(toks, Strings(), root)
      ensures Valid()
    {
    }

    lemma IsNodeNow(offset: nat, p: Path, i: nat)
      requires Laid() && NodeAt(toks, Strings(), root, p, i) && offset == Total(toks[..i])
      ensures IsNode(offset, p)
    {
    }

    /** fdt_splice_string_ and the copying behind it */
    method AppendString(w: Bytes) returns (err: int)
      requires Laid()
      modifies this`size_strings, buf
      ensures Laid() && Struct() == old(Struct())
      ensures err == if totalsize < off_strings + old(size_strings) + |w| then -ERR_NOSPACE else 0
      ensures err != 0 ==> Strings() == old(Strings()) && size_strings == old(size_strings)
      ensures err == 0 ==> Strings() == old(Strings()) + w && size_strings == old(size_strings) + |w|
    {
      hide *;
      StructIs();
      StructSize();
      LaidIs();
      ghost var before := buf[..];
      BlockIs(off_struct, size_struct);
      BlockIs(off_strings, size_strings);
      var new_at := off_strings + size_strings;
      err := Splice(new_at, 0, |w|);
      if err != 0 {
        BlockIs(off_struct, size_struct);
        BlockIs(off_strings, size_strings);
        StructIs();
        return;
      }
      NothingMoved(before, new_at + |w|, new_at);
      Copy(new_at, w);
      StringAdded(before, buf[..], off_struct, size_struct, off_strings, size_strings, w);
      size_strings := size_strings + |w|;
      BlockIs(off_struct, size_struct);
      BlockIs(off_strings, size_strings);
      LaidNow();
      StructIs();
    }

    /** fdt_find_add_string_ */
    method FindAddString(name: Bytes) returns (off: int, added: bool)
      requires Valid() && NoNul(name)
      modifies this`size_strings, buf
      ensures Valid() && Struct() == old(Struct())
      ensures off == -ERR_NOSPACE || (0 <= off && GetString(Strings(), off) == Found(name) && off < size_strings)
      ensures off < 0 ==> totalsize < off_strings + size_strings + |name| + 1 && !added
      ensures added ==> Strings() == old(Strings()) + (name + [0]) && size_strings == old(size_strings) + |name| + 1
      ensures !added ==> Strings() == old(Strings()) && size_strings == old(size_strings)
    {
      hide *;
      ValidParts();
      StructIs();
      StructSize();
      ghost var strs := Strings();
      var p := FindString(Block(off_strings, size_strings), name);
      if 0 <= p {
        GetStringIs(strs, p, name);
        StrBounds(strs, p, name);
        return p, false;
      }
      var new_off := size_strings;
      var err := AppendString(name + [0]);
      if err != 0 {
        StillValid();
        return -ERR_NOSPACE, false;
      }
      AddedAtEnd(strs, name);
      RepresentsStays(toks, strs, name + [0], root);
      StillValid();
      off, added := new_off, true;
    }

    /** New tokens, spelled w, come between two others. */
    method InsertTokens(o: nat, len: nat, w: Bytes, ghost i: nat, ghost us: seq<Token>) returns (err: int)
      requires Laid() && WritesAll(Struct(), toks) && i <= |toks| && o == Total(toks[..i])
      requires |w| <= len && Spells(w, len, us)
      modifies this`size_struct, this`off_strings, buf
      ensures Laid() && Strings() == old(Strings())
      ensures err == if totalsize < old(off_strings) + size_strings + len then -ERR_NOSPACE else 0
      ensures err != 0 ==> Struct() == old(Struct()) && size_struct == old(size_struct) && off_strings == old(off_strings)
      ensures err == 0 ==> WritesAll(Struct(), toks[..i] + us + toks[i..])
    {
      hide *;
      ghost var s := Struct();
      err := InsertSpace(o, len, i);
      if err != 0 { return; }
      StructSize();
      ghost var s1 := Struct();
      ReplacedSize(s, s1, o, 0, len);
      PutStruct(o + 0, w);
      PatchedReplaced(s, s1, o, 0, len, 0, w);
      PatchedFront(s1[o..o + len], w);
      SpelledOut(w, len, us, Patched(s1[o..o + len], 0, w));
      TokensReplaced(s, Struct(), toks, i, i, us, len);
    }

    /** fdt_add_property_ with the data written behind it: the property comes
        first in its node.  Without room for it a new name is taken back. */
    method AddProperty(nodeoffset: nat, name: Bytes, value: Bytes, ghost p: Path) returns (err: int)
      requires Valid() && IsNode(nodeoffset, p) && NoNul(name) && |value| <= INT_MAX
      modifies this, buf
      ensures Valid() && IsNode(nodeoffset, p) && Has(old(root), p) && totalsize == old(totalsize)
      ensures SameUpto(old(toks), toks, nodeoffset)
      ensures err == 0 || err == -ERR_NOSPACE
      ensures err != 0 ==> root == old(root) && Strings() == old(Strings())
      ensures err != 0 ==> totalsize < off_strings + size_strings + 12 + Up4(|value|) + |name| + 1
      ensures err == 0 ==> root == Put(old(root), p, FirstProp(At(old(root), p), name, value))
    {
      hide *;
      ghost var i := NodeToken(nodeoffset, p);
      ValidParts();
      StructSize();
      ghost var strs, ts, r := Strings(), toks, root;
      NodeParts(ts, strs, r, p, i);
      SameUptoAt(ts, ts, i);
      var off, added := FindAddString(name);
      if off < 0 {
        IsNodeNow(nodeoffset, p, i);
        return -ERR_NOSPACE;
      }
      if added { NodeStays(ts, strs, name + [0], r, p, i); }
      err := InsertProperty(nodeoffset, off, name, value, p, i);
      if err != 0 {
        if added { DropLastString(name, strs); }
        NothingAdded(nodeoffset, ts, strs, r, p, i);
      }
    }

    method InsertProperty(nodeoffset: nat, off: nat, name: Bytes, value: Bytes, ghost p: Path, ghost i: nat) returns (err: int)
      requires Valid() && NodeAt(toks, Strings(), root, p, i) && nodeoffset == Total(toks[..i])
      requires GetString(Strings(), off) == Found(name) && off < size_strings && |value| <= INT_MAX
      modifies this`toks, this`root, this`size_struct, this`off_strings, buf
      ensures Laid() && Has(old(root), p) && WritesAll(Struct(), toks) && Strings() == old(Strings())
      ensures err == 0 || err == -ERR_NOSPACE
      ensures SameUpto(old(toks), toks, nodeoffset)
      ensures err != 0 ==> toks == old(toks) && root == old(root)
      ensures err != 0 ==> totalsize < off_strings + size_strings + 12 + Up4(|value|)
      ensures err == 0 ==> root == Put(old(root), p, FirstProp(At(old(root), p), name, value)) && Valid() && IsNode(nodeoffset, p)
    {
      hide *;
      ghost var ts, r := toks, root;
      ValidParts();
      StructSize();
      LaidIs();
      NodeParts(ts, Strings(), r, p, i);
      SameUptoAt(ts, ts, i);
      var tag, next := TagAt(nodeoffset, i);
      PropSpells(off, value);
      err := InsertTokens(next, 12 + Up4(|value|), Word(3) + Word(|value|) + Word(off) + value, i + 1, [Prop(off, value)]);
      if err != 0 { return; }
      toks := ts[..i + 1] + [Prop(off, value)] + ts[i + 1..];
      FirstAdded(ts, Strings(), r, p, i, off, name, value);
      root := Put(r, p, FirstProp(At(r, p), name, value));
      Edited(ts, r, p, i, FirstProp(At(r, p), name, value), nodeoffset);
      SameUptoAt(ts, toks, i);
      err := 0;
    }

    lemma NothingAdded(nodeoffset: nat, ts: seq<Token>, strs: Bytes, r: Node, p: Path, i: nat)
      requires Laid() && WritesAll(Struct(), toks) && toks == ts && root == r && Strings() == strs
      requires NodeAt(ts, strs, r, p, i) && nodeoffset == Total(ts[..i])
      ensures Valid() && IsNode(nodeoffset, p)
    {
    }

    /** fdt_del_last_string_ */
    method DropLastString(name: Bytes, ghost strs: Bytes)
      requires Laid() && Strings() == strs + (name + [0])
      modifies this`size_strings
      ensures Laid() && Strings() == strs && Struct() == old(Struct()) && size_strings == old(size_strings) - (|name| + 1)
    {
      assert |Strings()| == |strs| + |name| + 1;
      ghost var b := Strings();
      assert b[..|strs|] == strs;
      size_strings := size_strings - (|name| + 1);
      assert Strings() == b[..|strs|];
    }

    /** fdt_setprop */
    method SetProp(nodeoffset: nat, name: Bytes, value: Bytes, ghost p: Path) returns (err: int)
      requires Valid() && IsNode(nodeoffset, p) && NoNul(name) && |value| <= INT_MAX
      modifies this, buf
      ensures Valid() && IsNode(nodeoffset, p) && Has(old(root), p) && totalsize == old(totalsize)
      ensures SameUpto(old(toks), toks, nodeoffset)
      ensures err == 0 || err == -ERR_NOSPACE
      ensures root == if err == 0 then Put(old(root), p, FdtTree.SetProp(At(old(root), p), name, value)) else old(root)
      ensures err != 0 ==> Strings() == old(Strings())
      ensures err != 0 ==> totalsize < off_strings + size_strings + 12 + Up4(|value|) + |name| + 1
    {
      hide *;
      ghost var i, j;
      var o, old_value;
      o, j, i, old_value := FindProperty(nodeoffset, name, p);
      ghost var n := At(root, p);
      ghost var k := FindProp(n.props, name);
      SetPropIs(n, name, value);
      ErrorsDiffer();
      if o >= 0 {
        err := Rewrite(nodeoffset, o, |old_value|, 0, value, p, i, j, k);
      } else {
        err := AddProperty(nodeoffset, name, value, p);
      }
    }

    /** fdt_appendprop */
    method AppendProp(nodeoffset: nat, name: Bytes, value: Bytes, ghost p: Path) returns (err: int)
      requires Valid() && IsNode(nodeoffset, p) && NoNul(name) && size_struct + |value| <= INT_MAX
      modifies this, buf
      ensures Valid() && IsNode(nodeoffset, p) && Has(old(root), p) && totalsize == old(totalsize)
      ensures err == 0 || err == -ERR_NOSPACE
      ensures root == if err == 0 then Put(old(root), p, FdtTree.AppendProp(At(old(root), p), name, value)) else old(root)
      ensures err != 0 ==> Strings() == old(Strings())
    {
      hide *;
      ghost var i, j;
      var o, old_value;
      o, j, i, old_value := FindProperty(nodeoffset, name, p);
      ghost var n := At(root, p);
      ghost var k := FindProp(n.props, name);
      AppendPropIs(n, name, value);
      ErrorsDiffer();
      ValidParts();
      if o >= 0 {
        ValueFits(Struct(), toks, j);
        err := Rewrite(nodeoffset, o, |old_value|, |old_value|, value, p, i, j, k);
      } else {
        err := AddProperty(nodeoffset, name, value, p);
      }
    }

    /** fdt_delprop */
    method DelProp(nodeoffset: nat, name: Bytes, ghost p: Path) returns (err: int)
      requires Valid() && IsNode(nodeoffset, p)
      modifies this, buf
      ensures Valid() && IsNode(nodeoffset, p) && Has(old(root), p) && totalsize == old(totalsize)
      ensures err == if FindProp(At(old(root), p).props, name) < |At(old(root), p).props| then 0 else -ERR_NOTFOUND
      ensures root == Put(old(root), p, FdtTree.DelProp(At(old(root), p), name)) && Strings() == old(Strings())
    {
      hide *;
      ghost var i, j;
      var o, old_value;
      o, j, i, old_value := FindProperty(nodeoffset, name, p);
      ghost var n, ts, r := At(root, p), toks, root;
      DelPropIs(n, name);
      PutSame(root, p);
      if o < 0 { return o; }
      ValidParts();
      PropPlace(Struct(), ts, j);
      NodeParts(ts, Strings(), r, p, i);
      err := RemoveSpace(o, 12 + Up4(|old_value|), j, j + 1);
      toks := ts[..j] + ts[j + 1..];
      PropRemoved(ts, Strings(), r, p, j, FindProp(n.props, name), []);
      assert ts[..j] + [] + ts[j + 1..] == toks;
      root := Put(r, p, FdtTree.DelProp(n, name));
      Edited(ts, r, p, i, FdtTree.DelProp(n, name), nodeoffset);
    }

    // ----- subnodes -----

    /** fdt_next_node, counting the depth below the node at p: the next node, or
        the end of that node once its own depth is left. */
    method NextNode(start: nat, depth: nat, ghost p: Path, ghost x0: nat, ghost c0: nat)
      returns (offset: nat, d: int, ghost x: nat, ghost c: nat)
      requires Valid() && x0 < |toks| && toks[x0].BeginNode? && start == Total(toks[..x0])
      requires Ahead(toks, Strings(), root, p, x0 + 1, depth, c0)
      ensures -1 <= d && d != 0 && Has(root, p) && x0 < x <= |toks| && offset == Total(toks[..x])
      ensures d > 0 ==> x < |toks| && toks[x].BeginNode? && Ahead(toks, Strings(), root, p, x + 1, d, c)
      ensures d == 1 ==> NodeAt(toks, Strings(), root, p + [c], x) && c == if depth == 0 then c0 else c0 + 1
      ensures d == 1 ==> toks[x].name == At(root, p).kids[c].name
      ensures d > 1 ==> c == c0 && depth > 0
      ensures d < 0 ==> View(toks[x..], Strings()) == After(root, p) && |At(root, p).kids| == if depth == 0 then c0 else c0 + 1
    {
      hide *;
      ValidParts();
      Codes();
      AheadHas(toks, Strings(), root, p, x0 + 1, depth, c0);
      var tag, next := TagAt(start, x0);
      d, x, c := depth, x0 + 1, c0;
      while true
        invariant x0 < x <= |toks| && 0 <= d && next == Total(toks[..x]) && Ahead(toks, Strings(), root, p, x, d, c)
        invariant c == if depth > 0 && d == 0 then c0 + 1 else c0
        invariant d > 0 ==> depth > 0
        decreases |toks| - x
      {
        AheadStep(toks, Strings(), root, p, x, d, c);
        CodeOf(toks[x]);
        offset := next;
        tag, next := TagAt(offset, x);
        if tag == 1 {
          d := d + 1;
          return;
        }
        x := x + 1;
        if tag == 2 {
          d := d - 1;
          if d < 0 {
            offset := next;
            return;
          }
          if d == 0 { c := c + 1; }
        }
      }
    }

    /** fdt_nodename_eq_ on the name behind a tag */
    method NameMatches(offset: nat, s: Bytes, ghost x: nat) returns (r: bool)
      requires Valid() && x < |toks| && toks[x].BeginNode? && offset == Total(toks[..x])
      ensures r <==> NameEq(toks[x].name, s)
    {
      hide *;
      ValidParts();
      StructIs();
      BeginFields(Struct(), toks, x);
      var b := Block(off_struct, size_struct);
      var full := b[offset + 4..NextOf(b, 0, offset + 4)];
      NameEqIs(full, s);
      if |full| < |s| { return false; }
      if full[..|s|] != s { return false; }
      if |full| == |s| { return true; }
      r := 64 !in s && full[|s|] == 64;
    }

    /** fdt_subnode_offset_namelen */
    method SubnodeOffset(parentoffset: nat, name: Bytes, ghost p: Path) returns (r: int, ghost x: nat)
      requires Valid() && IsNode(parentoffset, p)
      ensures Has(root, p)
      ensures r >= 0 ==> var c := FindKid(At(root, p).kids, name);
        c < |At(root, p).kids| && NodeAt(toks, Strings(), root, p + [c], x) && r == Total(toks[..x])
      ensures r < 0 ==> r == -ERR_NOTFOUND && FindKid(At(root, p).kids, name) == |At(root, p).kids|
    {
      hide *;
      ValidParts();
      ErrorsDiffer();
      ghost var i := NodeToken(parentoffset, p);
      NodeParts(toks, Strings(), root, p, i);
      AheadStart(toks, Strings(), root, p, i);
      ghost var kids, c := At(root, p).kids, 0;
      x := i;
      var offset, depth := parentoffset, 0;
      while depth >= 0
        invariant -1 <= depth && x <= |toks| && 0 <= c <= |kids|
        invariant depth >= 0 ==> x < |toks| && toks[x].BeginNode? && offset == Total(toks[..x])
        invariant depth >= 0 ==> Ahead(toks, Strings(), root, p, x + 1, depth, c)
        invariant depth > 0 ==> c < |kids|
        invariant depth == 1 ==> NodeAt(toks, Strings(), root, p + [c], x) && toks[x].name == kids[c].name
        invariant depth == 0 ==> c == 0
        invariant forall h :: 0 <= h < c ==> !NameEq(kids[h].name, name)
        invariant depth > 1 ==> !NameEq(kids[c].name, name)
        invariant depth < 0 ==> c == |kids|
        decreases |toks| - x
      {
        if depth == 1 {
          var eq := NameMatches(offset, name, x);
          if eq {
            FindKidIs(kids, name, c);
            return offset, x;
          }
        }
        ghost var was, c0 := depth, c;
        offset, depth, x, c := NextNode(offset, depth, p, x, c);
        if depth > 0 { AheadHas(toks, Strings(), root, p, x + 1, depth, c); }
        if depth < 0 { c := |kids|; }
      }
      NoKid(kids, name);
      r := -1;
    }

    /** fdt_node_end_offset_ */
    method NodeEnd(nodeoffset: nat, ghost p: Path) returns (offset: nat, ghost i: nat, ghost e: nat)
      requires Valid() && IsNode(nodeoffset, p)
      ensures NodeAt(toks, Strings(), root, p, i) && nodeoffset == Total(toks[..i])
      ensures i < e <= |toks| && offset == Total(toks[..e]) && View(toks[e..], Strings()) == After(root, p)
    {
      hide *;
      ValidParts();
      i := NodeToken(nodeoffset, p);
      NodeParts(toks, Strings(), root, p, i);
      AheadStart(toks, Strings(), root, p, i);
      ghost var c := 0;
      e := i;
      var depth := 0;
      offset := nodeoffset;
      while depth >= 0
        invariant -1 <= depth && i <= e <= |toks| && offset == Total(toks[..e])
        invariant depth >= 0 ==> e < |toks| && toks[e].BeginNode? && Ahead(toks, Strings(), root, p, e + 1, depth, c)
        invariant depth < 0 ==> i < e && View(toks[e..], Strings()) == After(root, p)
        decreases |toks| - e
      {
        offset, depth, e, c := NextNode(offset, depth, p, e, c);
      }
    }

    /** fdt_add_subnode_namelen: the new node comes in front of its siblings. */
    method AddSubnode(parentoffset: nat, name: Bytes, ghost p: Path) returns (r: int)
      requires Valid() && IsNode(parentoffset, p) && NoNul(name)
      modifies this, buf
      ensures Valid() && IsNode(parentoffset, p) && Has(old(root), p) && totalsize == old(totalsize)
      ensures SameUpto(old(toks), toks, parentoffset)
      ensures r >= 0 ==> root == Put(old(root), p, FdtTree.AddSubnode(At(old(root), p), name)) && IsNode(r, p + [0])
      ensures r < 0 ==> root == old(root)
      ensures r == -ERR_EXISTS <==> FindKid(At(old(root), p).kids, name) < |At(old(root), p).kids|
      ensures r >= 0 || r == -ERR_EXISTS || r == -ERR_NOSPACE
      ensures r == -ERR_NOSPACE ==> totalsize < off_strings + size_strings + 8 + Up4(|name| + 1)
    {
      hide *;
      ErrorsDiffer();
      ghost var i := NodeToken(parentoffset, p);
      ghost var ts, rt := toks, root;
      ValidParts();
      NodeParts(ts, Strings(), rt, p, i);
      SameUptoAt(ts, ts, i);
      ghost var x;
      r, x := SubnodeOffset(parentoffset, name, p);
      if r >= 0 { return -2; }
      // behind the parent's properties
      PropsStart(ts, Strings(), rt, p, i);
      var offset;
      ghost var j;
      offset, j := BehindProps(parentoffset, p, i);
      EmptyNodeSpells(name);
      var err := InsertTokens(offset, 8 + Up4(|name| + 1), Word(1) + name + Zeros(Up4(|name| + 1) - |name|) + Word(2), j, EmptyNode(name));
      if err != 0 {
        NothingAdded(parentoffset, ts, Strings(), rt, p, i);
        return err;
      }
      toks := ts[..j] + EmptyNode(name) + ts[j..];
      NodeAdded(ts, Strings(), rt, p, j, name);
      root := Put(rt, p, FdtTree.AddSubnode(At(rt, p), name));
      Edited(ts, rt, p, i, FdtTree.AddSubnode(At(rt, p), name), parentoffset);
      SameUptoAt(ts, toks, i);
      NewNodeAt(ts, Strings(), rt, p, j, name);
      assert toks[..j] == ts[..j];
      IsNodeNow(offset, p + [0], j);
      r := offset;
    }

    /** The offset behind the properties of a node, and the NOPs among them. */
    method BehindProps(nodeoffset: nat, ghost p: Path, ghost i: nat) returns (offset: nat, ghost j: nat)
      requires Valid() && NodeAt(toks, Strings(), root, p, i) && nodeoffset == Total(toks[..i])
      ensures Has(root, p) && i < j <= |toks| && offset == Total(toks[..j])
      ensures PropsAhead(toks, Strings(), j, At(root, p).props, |At(root, p).props|, Behind(root, p))
    {
      hide *;
      ValidParts();
      Codes();
      NodeParts(toks, Strings(), root, p, i);
      PropsStart(toks, Strings(), root, p, i);
      ghost var ps, k := At(root, p).props, 0;
      var tag, next := TagAt(nodeoffset, i);
      j := i + 1;
      while true
        invariant i < j <= |toks| && k <= |ps| && next == Total(toks[..j])
        invariant PropsAhead(toks, Strings(), j, ps, k, Behind(root, p))
        decreases |toks| - j
      {
        offset := next;
        PropsStep(toks, Strings(), root, j, ps, k, Behind(root, p));
        CodeOf(toks[j]);
        tag, next := TagAt(offset, j);
        if tag != 3 && tag != 4 { return; }
        if tag == 3 { k := k + 1; }
        j := j + 1;
      }
    }

    /** fdt_del_node, of the c-th child of the node at p */
    method DelNode(nodeoffset: nat, ghost p: Path, ghost c: nat) returns (err: int)
      requires Valid() && Has(root, p) && c < |At(root, p).kids| && IsNode(nodeoffset, p + [c])
      modifies this, buf
      ensures err == 0 && Valid() && totalsize == old(totalsize) && Strings() == old(Strings())
      ensures root == Put(old(root), p, DelChild(At(old(root), p), c))
    {
      hide *;
      ghost var i, e;
      var endoffset;
      endoffset, i, e := NodeEnd(nodeoffset, p + [c]);
      ValidParts();
      ghost var ts, r := toks, root;
      AfterChild(r, p, c);
      WritesPart(Struct(), ts, i, e);
      err := RemoveSpace(nodeoffset, endoffset - nodeoffset, i, e);
      NodeRemoved(ts, Strings(), r, p, c, i, e, []);
      assert ts[..i] + [] + ts[e..] == ts[..i] + ts[e..];
      toks := ts[..i] + ts[e..];
      root := Put(r, p, DelChild(At(r, p), c));
      StillValid();
    }

    // ----- NOPs -----

    /** fdt_nop_region_ */
    method NopRegion(start: nat, len: nat)
      requires Laid() && start + Up4(len) <= size_struct
      modifies buf
      ensures Laid() && Strings() == old(Strings()) && |old(Struct())| == size_struct
      ensures |NopBytes(Up4(len))| == Up4(len) && Struct() == Patched(old(Struct()), start, NopBytes(Up4(len)))
    {
      hide *;
      StructSize();
      ghost var s := Struct();
      var n := 0;
      NopStart(s, start);
      UpIs(len);
      while n < len
        invariant Laid() && n <= Up4(len) && n % 4 == 0 && Strings() == old(Strings()) && |Struct()| == size_struct == |s|
        invariant |NopBytes(n)| == n && start + n <= |s| && Struct() == Patched(s, start, NopBytes(n))
        decreases Up4(len) - n
      {
        NextWord(n, len);
        NopStep(s, start, n);
        PutStruct(start + n, Word(4));
        StructSize();
        n := n + 4;
      }
      LastWord(n, len);
    }

    /** The tokens from i to e are overwritten. */
    method NopTokens(start: nat, len: nat, ghost i: nat, ghost e: nat) returns (ghost us: seq<Token>)
      requires Laid() && WritesAll(Struct(), toks) && i < e <= |toks|
      requires start == Total(toks[..i]) && start + Up4(len) == Total(toks[..e])
      modifies buf
      ensures Laid() && Strings() == old(Strings()) && (forall t :: t in us ==> t.Nop?)
      ensures WritesAll(Struct(), toks[..i] + us + toks[e..]) && OffsetsKept(toks, toks[..i] + us + toks[e..], start, start + Up4(len))
    {
      hide *;
      ghost var s := Struct();
      StructSize();
      WritesPart(s, toks, i, e);
      NopRegion(start, len);
      ghost var m := Up4(len);
      UpIs(len);
      us := Nops(m / 4);
      NopsWrite(m);
      WritesLength(NopBytes(m), us);
      WholeReplaced(s, Struct(), start, NopBytes(m));
      TokensReplaced(s, Struct(), toks, i, e, us, m);
      NopsKeepOffsets(toks, i, e, us);
    }

    /** fdt_nop_property: read back, the property is gone; nothing moves. */
    method NopProperty(nodeoffset: nat, name: Bytes, ghost p: Path) returns (err: int)
      requires Valid() && IsNode(nodeoffset, p)
      modifies this, buf
      ensures Valid() && IsNode(nodeoffset, p) && Has(old(root), p) && Strings() == old(Strings())
      ensures err == if FindProp(At(old(root), p).props, name) < |At(old(root), p).props| then 0 else -ERR_NOTFOUND
      ensures root == Put(old(root), p, FdtTree.DelProp(At(old(root), p), name))
      ensures exists lo: nat, hi: nat :: OffsetsKept(old(toks), toks, lo, hi) && PropSpan(old(toks), lo, hi)
    {
      hide *;
      ghost var i, j;
      var o, old_value;
      o, j, i, old_value := FindProperty(nodeoffset, name, p);
      ghost var n, ts, r := At(root, p), toks, root;
      DelPropIs(n, name);
      PutSame(root, p);
      if o < 0 {
        NothingMoves(ts);
        return o;
      }
      ValidParts();
      PropPlace(Struct(), ts, j);
      UpProp(|old_value|);
      NodeParts(ts, Strings(), r, p, i);
      ghost var us := NopTokens(o, |old_value| + 12, j, j + 1);
      toks := ts[..j] + us + ts[j + 1..];
      PropRemoved(ts, Strings(), r, p, j, FindProp(n.props, name), us);
      root := Put(r, p, FdtTree.DelProp(n, name));
      Edited(ts, r, p, i, FdtTree.DelProp(n, name), nodeoffset);
      PropSpanIs(ts, j);
      err := 0;
    }

    /** fdt_nop_node, of the c-th child of the node at p */
    method NopNode(nodeoffset: nat, ghost p: Path, ghost c: nat) returns (err: int)
      requires Valid() && Has(root, p) && c < |At(root, p).kids| && IsNode(nodeoffset, p + [c])
      modifies this, buf
      ensures err == 0 && Valid() && Strings() == old(Strings())
      ensures root == Put(old(root), p, DelChild(At(old(root), p), c))
      ensures exists hi: nat :: OffsetsKept(old(toks), toks, nodeoffset, hi) && NodeSpan(old(toks), Strings(), old(root), p + [c], nodeoffset, hi)
    {
      hide *;
      ghost var i, e;
      var endoffset;
      endoffset, i, e := NodeEnd(nodeoffset, p + [c]);
      ValidParts();
      ghost var ts, r := toks, root;
      AfterChild(r, p, c);
      WritesPart(Struct(), ts, i, e);
      TotalAligned(ts[..i]);
      TotalAligned(ts[..e]);
      UpExact(endoffset, nodeoffset);
      ghost var us := NopTokens(nodeoffset, endoffset - nodeoffset, i, e);
      NodeRemoved(ts, Strings(), r, p, c, i, e, us);
      toks := ts[..i] + us + ts[e..];
      root := Put(r, p, DelChild(At(r, p), c));
      StillValid();
      NodeSpanIs(ts, Strings(), r, p + [c], i, e);
      err := 0;
    }

    lemma LaidNow()
      requires totalsize <= buf.Length <= INT_MAX && HEADER <= off_struct
      requires off_struct + size_struct <= off_strings && off_strings + size_strings <= totalsize
      ensures Laid()
    {
    }

    lemma LaidIs()
      requires Laid()
      ensures off_strings + size_strings <= totalsize <= buf.Length <= INT_MAX && off_struct + size_struct <= off_strings
      ensures HEADER <= off_struct
    {
    }

    lemma StructSize()
      requires Laid()
      ensures |Struct()| == size_struct && |Strings()| == size_strings && ERR_NOSPACE == 3 && INT_MAX < WORD
    {
    }
  }

  lemma Codes()
    ensures BEGIN_NODE == 1 && END_NODE == 2 && PROP == 3 && NOP == 4 && END == 9 && ERR_NOTFOUND == 1
  {
  }

  lemma CodeOf(t: Token)
    ensures Code(t) == match t
      case BeginNode(_) => 1
      case EndNode => 2
      case Prop(_, _) => 3
      case Nop => 4
      case End => 9
  {
  }

  lemma NameIs(t: Token, strs: Bytes)
    requires t.Prop?
    ensures NameOf(t, strs) == GetString(strs, AsInt(t.nameoff))
  {
  }

  lemma PropFields(s: Bytes, ts: seq<Token>, j: nat)
    requires WritesAll(s, ts) && j < |ts| && ts[j].Prop?
    ensures var o, t := Total(ts[..j]), ts[j];
      o + 12 + |t.value| <= |s| && Get32(s[o + 4..o + 8]) == |t.value| && Get32(s[o + 8..o + 12]) == t.nameoff
      && s[o + 12..o + 12 + |t.value|] == t.value
  {
    hide *;
    PropPlace(s, ts, j);
    TotalAligned(ts[..j]);
    PropReads(s, Total(ts[..j]), ts[j].nameoff, ts[j].value);
  }

  function NewProp(n: Node, k: nat, keep: nat, val: Bytes): Node
    requires k < |n.props| && keep <= |n.props[k].value|
  {
    n.(props := n.props[k := P(n.props[k].name, n.props[k].value[..keep] + val)])
  }

  lemma PropReplaced(ts: seq<Token>, strs: Bytes, root: Node, p: Path, j: nat, k: nat, t: Token, keep: nat, val: Bytes)
    requires Represents(ts, strs, root) && Has(root, p) && k < |At(root, p).props| && j < |ts|
    requires PropsAhead(ts, strs, j, At(root, p).props, k, Behind(root, p))
    requires ts[j].Prop? && keep <= |ts[j].value| && t == Prop(ts[j].nameoff, ts[j].value[..keep] + val)
    ensures keep <= |At(root, p).props[k].value|
    ensures Represents(ts[..j] + [t] + ts[j + 1..], strs, Put(root, p, NewProp(At(root, p), k, keep, val)))
  {
    hide View, Items, Represents, PropsAhead;
    var n := At(root, p);
    PropsStep(ts, strs, root, j, n.props, k, Behind(root, p));
    var q := P(n.props[k].name, n.props[k].value[..keep] + val);
    ViewOne(t, strs);
    PropItemsOne(q);
    PropChanged(ts, strs, root, p, j, k, j + 1, k + 1, [t], [q]);
    assert n.props[..k] + [q] + n.props[k + 1..] == n.props[k := q];
  }

  lemma PropItemsOne(q: NodeProp)
    ensures PropItems([q]) == [Item(q)]
  {
    assert [q][1..] == [];
  }

  lemma StrBounds(b: Bytes, o: int, s: Bytes)
    requires IsStr(b, o, s)
    ensures 0 <= o < |b|
  {
  }

  lemma NothingMoved(a: Bytes, dst: nat, src: nat)
    requires src <= |a| && dst <= |a|
    ensures Patched(a, dst, a[src..src]) == a
  {
  }

  /** memcpy behind the strings */
  lemma StringAdded(a: Bytes, b: Bytes, off: nat, size: nat, stroff: nat, strn: nat, w: Bytes)
    requires off + size <= stroff && stroff + strn + |w| <= |a| && b == Patched(a, stroff + strn, w)
    ensures b[off..off + size] == a[off..off + size]
    ensures b[stroff..stroff + (strn + |w|)] == a[stroff..stroff + strn] + w
  {
    assert b[stroff..stroff + strn] == a[stroff..stroff + strn];
    assert b[stroff + strn..stroff + strn + |w|] == w;
    assert b[stroff..stroff + (strn + |w|)] == b[stroff..stroff + strn] + b[stroff + strn..stroff + strn + |w|];
  }

  lemma AddedAtEnd(strs: Bytes, name: Bytes)
    requires NoNul(name)
    ensures GetString(strs + (name + [0]), |strs|) == Found(name)
  {
    var b := strs + (name + [0]);
    assert b[|strs|..|strs| + |name|] == name && b[|strs| + |name|] == 0;
    GetStringIs(b, |strs|, name);
  }

  lemma RepresentsStays(ts: seq<Token>, strs: Bytes, more: Bytes, root: Node)
    requires Represents(ts, strs, root)
    ensures Represents(ts, strs + more, root)
  {
    ViewStays(ts, strs, more);
  }

  lemma PatchedFront(c: Bytes, w: Bytes)
    requires |w| <= |c|
    ensures Patched(c, 0, w)[..|w|] == w
  {
  }

  lemma PropSpells(off: nat, value: Bytes)
    requires off <= INT_MAX && |value| <= INT_MAX
    ensures 3 < WORD && |value| < WORD && off < WORD
    ensures |Word(3) + Word(|value|) + Word(off) + value| <= 12 + Up4(|value|)
    ensures Spells(Word(3) + Word(|value|) + Word(off) + value, 12 + Up4(|value|), [Prop(off, value)])
  {
    var w := Word(3) + Word(|value|) + Word(off) + value;
    forall b: Bytes | |b| == 12 + Up4(|value|) && b[..|w|] == w ensures WritesAll(b, [Prop(off, value)]) {
      PropWritten(b, off, value);
      WritesOne(b, Prop(off, value));
    }
  }

  function FirstProp(n: Node, name: Bytes, value: Bytes): Node {
    n.(props := [P(name, value)] + n.props)
  }

  lemma FirstAdded(ts: seq<Token>, strs: Bytes, root: Node, p: Path, i: nat, off: nat, name: Bytes, value: Bytes)
    requires NodeAt(ts, strs, root, p, i) && off <= INT_MAX && GetString(strs, off) == Found(name)
    ensures Has(root, p)
    ensures Represents(ts[..i + 1] + [Prop(off, value)] + ts[i + 1..], strs, Put(root, p, FirstProp(At(root, p), name, value)))
  {
    hide View, Items, Represents, PropsAhead, GetString;
    var n := At(root, p);
    var t, q := Prop(off, value), P(name, value);
    PropsStart(ts, strs, root, p, i);
    NodeParts(ts, strs, root, p, i);
    ViewOne(t, strs);
    PropItemsOne(q);
    PropChanged(ts, strs, root, p, i + 1, 0, i + 1, 0, [t], [q]);
    assert n.props[..0] + [q] + n.props[0..] == [q] + n.props;
  }

  lemma PropRemoved(ts: seq<Token>, strs: Bytes, root: Node, p: Path, j: nat, k: nat, us: seq<Token>)
    requires Represents(ts, strs, root) && Has(root, p) && k < |At(root, p).props| && j < |ts| && ts[j].Prop?
    requires PropsAhead(ts, strs, j, At(root, p).props, k, Behind(root, p)) && forall t :: t in us ==> t.Nop?
    ensures Represents(ts[..j] + us + ts[j + 1..], strs,
                       Put(root, p, At(root, p).(props := At(root, p).props[..k] + At(root, p).props[k + 1..])))
  {
    hide View, Items, Represents, PropsAhead;
    var n := At(root, p);
    PropsStep(ts, strs, root, j, n.props, k, Behind(root, p));
    NopsView(us, strs);
    PropChanged(ts, strs, root, p, j, k, j + 1, k + 1, us, []);
    assert n.props[..k] + [] + n.props[k + 1..] == n.props[..k] + n.props[k + 1..];
  }

  lemma SetPropIs(n: Node, name: Bytes, value: Bytes)
    ensures var k := FindProp(n.props, name);
      FdtTree.SetProp(n, name, value) == if k < |n.props| then NewProp(n, k, 0, value) else FirstProp(n, name, value)
  {
    var k := FindProp(n.props, name);
    if k < |n.props| { assert n.props[k].value[..0] + value == value; }
  }

  lemma AppendPropIs(n: Node, name: Bytes, value: Bytes)
    ensures var k := FindProp(n.props, name);
      FdtTree.AppendProp(n, name, value) ==
        if k < |n.props| then NewProp(n, k, |n.props[k].value|, value) else FirstProp(n, name, value)
  {
    var k := FindProp(n.props, name);
    if k < |n.props| { assert n.props[k].value[..|n.props[k].value|] == n.props[k].value; }
  }

  lemma DelPropIs(n: Node, name: Bytes)
    ensures var k := FindProp(n.props, name);
      FdtTree.DelProp(n, name) == if k < |n.props| then n.(props := n.props[..k] + n.props[k + 1..]) else n
  {
  }

  lemma {:induction false} PutSame(n: Node, p: Path)
    requires Has(n, p)
    ensures Put(n, p, At(n, p)) == n
    decreases p
  {
    if p != [] { PutSame(n.kids[p[0]], p[1..]); }
  }

  lemma ErrorsDiffer()
    ensures ERR_NOSPACE == 3 && ERR_NOTFOUND == 1 && ERR_EXISTS == 2
  {
  }

  lemma ValueFits(s: Bytes, ts: seq<Token>, j: nat)
    requires WritesAll(s, ts) && j < |ts| && ts[j].Prop?
    ensures |ts[j].value| <= |s|
  {
    PropPlace(s, ts, j);
  }

  lemma AheadHas(ts: seq<Token>, strs: Bytes, root: Node, p: Path, x: nat, d: nat, c: nat)
    requires Ahead(ts, strs, root, p, x, d, c)
    ensures Has(root, p) && c <= |At(root, p).kids| && (d > 0 ==> c < |At(root, p).kids|)
  {
  }

  lemma BeginFields(s: Bytes, ts: seq<Token>, x: nat)
    requires WritesAll(s, ts) && x < |ts| && ts[x].BeginNode?
    ensures var o := Total(ts[..x]);
      o + 4 <= |s| && NextOf(s, 0, o + 4) == o + 4 + |ts[x].name| && s[o + 4..o + 4 + |ts[x].name|] == ts[x].name
  {
    hide *;
    var o, name := Total(ts[..x]), ts[x].name;
    assert ts[x] == BeginNode(name);
    BeginLength(name);
    WritesAt(s, ts, x);
    TotalAligned(ts[..x]);
    BeginReads(s, o, name);
    BeginInside(s[o..o + Len(ts[x])], name);
    Inside(s, o, Len(ts[x]), 4, 4 + |name|);
  }

  lemma BeginLength(name: Bytes)
    ensures 4 + |name| + 1 <= Len(BeginNode(name))
  {
  }

  lemma BeginInside(b: Bytes, name: Bytes)
    requires Writes(b, BeginNode(name))
    ensures 4 + |name| < |b| && b[4..4 + |name|] == name
  {
  }

  lemma NameEqIs(full: Bytes, s: Bytes)
    ensures NameEq(full, s) <==>
      |s| <= |full| && full[..|s|] == s && (|full| == |s| || (64 !in s && full[|s|] == 64))
  {
  }

  lemma FindKidIs(kids: seq<Node>, name: Bytes, c: nat)
    requires c < |kids| && NameEq(kids[c].name, name) && forall h :: 0 <= h < c ==> !NameEq(kids[h].name, name)
    ensures FindKid(kids, name) == c
  {
  }

  lemma NoKid(kids: seq<Node>, name: Bytes)
    requires forall h :: 0 <= h < |kids| ==> !NameEq(kids[h].name, name)
    ensures FindKid(kids, name) == |kids|
  {
  }

  function Zeros(n: nat): (b: Bytes)
    ensures |b| == n
  {
    seq(n, i => 0)
  }

  /** The bytes of a new node: tag, name, padding, closing tag. */
  lemma EmptyNodeSpells(name: Bytes)
    requires NoNul(name)
    ensures 1 < WORD && 2 < WORD && |name| <= Up4(|name| + 1)
    ensures var w := Word(1) + name + Zeros(Up4(|name| + 1) - |name|) + Word(2);
      |w| == 8 + Up4(|name| + 1) && Spells(w, 8 + Up4(|name| + 1), EmptyNode(name))
  {
    var n := Up4(|name| + 1);
    var z := Zeros(n - |name|);
    var w := Word(1) + name + z + Word(2);
    var a, b := Word(1) + name + z, Word(2);
    assert a[..4] == Word(1) && a[4..4 + |name|] == name && a[4 + |name|] == z[0] == 0;
    assert Writes(a, BeginNode(name));
    assert Writes(b, EndNode);
    hide Word, Up4, Writes;
    WritesOne(a, BeginNode(name));
    WritesOne(b, EndNode);
    WritesAppend(a, [BeginNode(name)], b, [EndNode]);
    assert [BeginNode(name)] + [EndNode] == EmptyNode(name) && a + b == w;
    forall d: Bytes | |d| == 8 + n && d[..|w|] == w ensures WritesAll(d, EmptyNode(name)) {
      assert d[..|d|] == d;
    }
  }

  lemma NewNodeAt(ts: seq<Token>, strs: Bytes, root: Node, p: Path, j: nat, name: Bytes)
    requires Represents(ts, strs, root) && Has(root, p)
    requires PropsAhead(ts, strs, j, At(root, p).props, |At(root, p).props|, Behind(root, p))
    ensures j <= |ts|
    ensures NodeAt(ts[..j] + EmptyNode(name) + ts[j..], strs, Put(root, p, FdtTree.AddSubnode(At(root, p), name)), p + [0], j)
  {
    hide View, Items, PropItems, Represents, KidItems;
    var n := At(root, p);
    var m := FdtTree.AddSubnode(n, name);
    var us, r := ts[..j] + EmptyNode(name) + ts[j..], Put(root, p, m);
    NodeAdded(ts, strs, root, p, j, name);
    PropsBefore(ts, strs, root, p, j, |n.props|);
    assert n.props[..|n.props|] == n.props;
    assert us[..j] == ts[..j] && us[j] == BeginNode(name);
    BeforeStays(root, p, m);
    BeforeChild(r, p);
  }

  lemma {:induction false} BeforeChild(root: Node, p: Path)
    requires Has(root, p) && 0 < |At(root, p).kids|
    ensures Has(root, p + [0]) && Before(root, p + [0]) == Before(root, p) + ([Open(At(root, p).name)] + PropItems(At(root, p).props))
    decreases p
  {
    if p == [] {
      assert p + [0] == [0] && [0][1..] == [];
      assert root.kids[..0] == [] && Before(root.kids[0], []) == [];
    } else {
      var kid := root.kids[p[0]];
      assert (p + [0])[0] == p[0] && (p + [0])[1..] == p[1..] + [0];
      BeforeChild(kid, p[1..]);
      hide PropItems, Head;
      assert Head(root, p[0]) + (Before(kid, p[1..]) + ([Open(At(root, p).name)] + PropItems(At(root, p).props))) ==
        (Head(root, p[0]) + Before(kid, p[1..])) + ([Open(At(root, p).name)] + PropItems(At(root, p).props));
    }
  }

  // ----- NOPs -----

  function NopBytes(n: nat): Bytes {
    if n < 4 then [] else NopBytes(n - 4) + Word(4)
  }

  function Nops(k: nat): seq<Token> { seq(k, i => Nop) }

  lemma UpIs(n: nat)
    ensures n <= Up4(n) < n + 4 && Up4(n) % 4 == 0
  {
  }

  lemma NopStart(s: Bytes, start: nat)
    requires start <= |s|
    ensures NopBytes(0) == [] && Patched(s, start, []) == s
  {
  }

  lemma NextWord(n: nat, len: nat)
    requires n < len && n % 4 == 0
    ensures n + 4 <= Up4(len) && (n + 4) % 4 == 0
  {
  }

  lemma LastWord(n: nat, len: nat)
    requires len <= n <= Up4(len) && n % 4 == 0
    ensures n == Up4(len)
  {
  }

  lemma NopStep(s: Bytes, start: nat, n: nat)
    requires |NopBytes(n)| == n && n % 4 == 0 && start + n + 4 <= |s|
    ensures 4 < WORD && |NopBytes(n + 4)| == n + 4
    ensures Patched(Patched(s, start, NopBytes(n)), start + n, Word(4)) == Patched(s, start, NopBytes(n + 4))
  {
    assert NopBytes(n + 4) == NopBytes(n) + Word(4);
  }

  lemma {:induction false} NopsWrite(n: nat)
    requires n % 4 == 0
    ensures WritesAll(NopBytes(n), Nops(n / 4)) && forall t :: t in Nops(n / 4) ==> t.Nop?
  {
    if n == 0 {
    } else {
      NopsWrite(n - 4);
      assert (n - 4) / 4 + 1 == n / 4;
      assert Writes(Word(4), Nop);
      WritesOne(Word(4), Nop);
      WritesAppend(NopBytes(n - 4), Nops((n - 4) / 4), Word(4), [Nop]);
      assert Nops(n / 4) == Nops((n - 4) / 4) + [Nop];
    }
  }

  lemma WholeReplaced(s: Bytes, s': Bytes, o: nat, w: Bytes)
    requires o + |w| <= |s| && s' == Patched(s, o, w)
    ensures Replaced(s, s', o, |w|, |w|) && s'[o..o + |w|] == w
  {
  }

  /** The token t stands at offset o. */
  ghost predicate TokenAt(ts: seq<Token>, o: nat, t: Token) {
    exists y: nat :: y < |ts| && ts[y] == t && Total(ts[..y]) == o
  }

  /** Outside lo to hi every token keeps its offset. */
  ghost predicate OffsetsKept(ts: seq<Token>, us: seq<Token>, lo: nat, hi: nat) {
    forall o: nat, t :: TokenAt(ts, o, t) && !(lo <= o < hi) ==> TokenAt(us, o, t)
  }

  lemma NothingMoves(ts: seq<Token>)
    ensures OffsetsKept(ts, ts, 0, 0) && PropSpan(ts, 0, 0)
  {
  }

  /** From lo to hi lies one property, or nothing. */
  ghost predicate PropSpan(ts: seq<Token>, lo: nat, hi: nat) {
    lo == hi || exists y: nat :: y < |ts| && ts[y].Prop? && Total(ts[..y]) == lo && Total(ts[..y + 1]) == hi
  }

  lemma PropSpanIs(ts: seq<Token>, j: nat)
    requires j < |ts| && ts[j].Prop?
    ensures PropSpan(ts, Total(ts[..j]), Total(ts[..j + 1]))
  {
  }

  /** From lo to hi lies the node at p. */
  ghost predicate NodeSpan(ts: seq<Token>, strs: Bytes, root: Node, p: Path, lo: nat, hi: nat) {
    exists i: nat, e: nat ::
      i < e <= |ts| && NodeAt(ts, strs, root, p, i) && View(ts[e..], strs) == After(root, p)
      && lo == Total(ts[..i]) && hi == Total(ts[..e])
  }

  lemma NodeSpanIs(ts: seq<Token>, strs: Bytes, root: Node, p: Path, i: nat, e: nat)
    requires i < e <= |ts| && NodeAt(ts, strs, root, p, i) && View(ts[e..], strs) == After(root, p)
    ensures NodeSpan(ts, strs, root, p, Total(ts[..i]), Total(ts[..e]))
  {
  }

  lemma UpProp(n: nat)
    ensures Up4(n + 12) == 12 + Up4(n)
  {
  }

  lemma UpExact(a: nat, b: nat)
    requires b <= a && a % 4 == 0 && b % 4 == 0
    ensures Up4(a - b) == a - b
  {
  }

  lemma NopsKeepOffsets(ts: seq<Token>, i: nat, e: nat, us: seq<Token>)
    requires i <= e <= |ts| && Total(us) == Total(ts[..e]) - Total(ts[..i])
    ensures OffsetsKept(ts, ts[..i] + us + ts[e..], Total(ts[..i]), Total(ts[..e]))
  {
    var vs, lo, hi := ts[..i] + us + ts[e..], Total(ts[..i]), Total(ts[..e]);
    forall o: nat, t | TokenAt(ts, o, t) && !(lo <= o < hi) ensures TokenAt(vs, o, t) {
      var y: nat :| y < |ts| && ts[y] == t && Total(ts[..y]) == o;
      hide *;
      if y < i {
        assert vs[..y] == ts[..y] && vs[y] == t;
        TokenAtIs(vs, y);
      } else if y < e {
        TotalGrows(ts, i, y);
        TotalGrows(ts, y + 1, e);
        TotalNext(ts, y);
        assert false;
      } else {
        BehindKept(ts, i, e, us, y);
      }
    }
  }

  lemma TokenAtIs(ts: seq<Token>, y: nat)
    requires y < |ts|
    ensures TokenAt(ts, Total(ts[..y]), ts[y])
  {
  }

  lemma BehindKept(ts: seq<Token>, i: nat, e: nat, us: seq<Token>, y: nat)
    requires i <= e <= y < |ts| && Total(us) == Total(ts[..e]) - Total(ts[..i])
    ensures TokenAt(ts[..i] + us + ts[e..], Total(ts[..y]), ts[y])
  {
    hide *;
    var vs, z := ts[..i] + us + ts[e..], y - e + i + |us|;
    assert vs[z] == ts[y] && vs[..z] == ts[..i] + us + ts[e..y];
    assert ts[..y] == ts[..e] + ts[e..y];
    TotalAppend(ts[..i] + us, ts[e..y]);
    TotalAppend(ts[..i], us);
    TotalAppend(ts[..e], ts[e..y]);
    TokenAtIs(vs, z);
  }

  lemma TotalGrows(ts: seq<Token>, i: nat, j: nat)
    requires i <= j <= |ts|
    ensures Total(ts[..i]) <= Total(ts[..j])
  {
    assert ts[..j] == ts[..i] + ts[i..j];
    TotalAppend(ts[..i], ts[i..j]);
  }

  lemma TotalNext(ts: seq<Token>, y: nat)
    requires y < |ts|
    ensures Total(ts[..y]) < Total(ts[..y + 1])
  {
    assert ts[..y + 1] == ts[..y] + [ts[y]];
    TotalAppend(ts[..y], [ts[y]]);
  }

  lemma NoTokens(s: Bytes, o: nat)
    requires o <= |s|
    ensures s[o..o + 0] == [] && WritesAll(s[o..o + 0], [])
  {
  }

  lemma KeptHead(s: Bytes, s': Bytes, o: nat, n: nat, m: nat, x: nat, y: nat)
    requires o + n <= |s| && o + m <= |s'| && y <= x <= n && x <= m && s'[o..o + x] == s[o..o + x]
    ensures s'[o..o + m][..y] == s[o..o + n][..y]
  {
    assert s'[o..o + m][..y] == s'[o..o + x][..y];
    assert s[o..o + n][..y] == s[o..o + x][..y];
  }

  lemma ReplacedSize(s: Bytes, s': Bytes, o: nat, n: nat, m: nat)
    requires Replaced(s, s', o, n, m)
    ensures |s'| == |s| - n + m && o + m <= |s'| && o + n <= |s|
  {
  }

  /** Where the bytes of a property lie. */
  lemma PropPlace(s: Bytes, ts: seq<Token>, j: nat)
    requires WritesAll(s, ts) && j < |ts| && ts[j].Prop?
    ensures var o, t := Total(ts[..j]), ts[j];
      Len(t) == 12 + Up4(|t.value|) && o + Len(t) <= |s| && Total(ts[..j + 1]) == o + Len(t) && Writes(s[o..o + Len(t)], t)
  {
    WritesAt(s, ts, j);
  }
}

/** The structure block: a run of tokens, each padded to a multiple of four
    bytes, as section 5.4 of the Devicetree Specification describes it. */
module FdtTokens {
  import opened Common
  import opened FdtBytes

  const BEGIN_NODE: nat := 1
  const END_NODE: nat := 2
  const PROP: nat := 3
  const NOP: nat := 4
  const END: nat := 9

  const ERR_BADSTRUCTURE: int := 11

  datatype Token = BeginNode(name: Bytes) | EndNode | Prop(nameoff: nat, value: Bytes) | Nop | End

  function Code(t: Token): nat {
    match t
    case BeginNode(_) => BEGIN_NODE
    case EndNode => END_NODE
    case Prop(_, _) => PROP
    case Nop => NOP
    case End => END
  }

  /** The number of bytes that a token takes. */
  function Len(t: Token): (n: nat)
    ensures 4 <= n
  {
    match t
    case BeginNode(name) => 4 + Up4(|name| + 1)
    case Prop(_, value) => 12 + Up4(|value|)
    case _ => 4
  }

  /** b is a way of writing t; what the padding holds is left open. */
  predicate Writes(b: Bytes, t: Token) {
    && |b| == Len(t) && b[..4] == Word(Code(t))
    && match t
       case BeginNode(name) => IsStr(b, 4, name)
       case Prop(nameoff, value) =>
         && nameoff < WORD && |value| < WORD
         && b[4..8] == Word(|value|) && b[8..12] == Word(nameoff) && b[12..12 + |value|] == value
       case _ => true
  }

  function Total(ts: seq<Token>): nat {
    if ts == [] then 0 else Len(ts[0]) + Total(ts[1..])
  }

  predicate WritesAll(b: Bytes, ts: seq<Token>) {
    if ts == [] then b == []
    else Len(ts[0]) <= |b| && Writes(b[..Len(ts[0])], ts[0]) && WritesAll(b[Len(ts[0])..], ts[1..])
  }

  lemma {:induction false} TotalAppend(ts: seq<Token>, us: seq<Token>)
    ensures Total(ts + us) == Total(ts) + Total(us)
  {
    if ts == [] {
      assert ts + us == us;
    } else {
      assert (ts + us)[0] == ts[0] && (ts + us)[1..] == ts[1..] + us;
      TotalAppend(ts[1..], us);
    }
  }

  lemma {:induction false} WritesLength(b: Bytes, ts: seq<Token>)
    requires WritesAll(b, ts)
    ensures |b| == Total(ts)
  {
    if ts != [] { WritesLength(b[Len(ts[0])..], ts[1..]); }
  }

  lemma {:induction false} WritesAppend(a: Bytes, ts: seq<Token>, b: Bytes, us: seq<Token>)
    requires WritesAll(a, ts) && WritesAll(b, us)
    ensures WritesAll(a + b, ts + us)
  {
    if ts == [] {
      assert ts + us == us && a + b == b;
    } else {
      var n := Len(ts[0]);
      assert (ts + us)[0] == ts[0] && (ts + us)[1..] == ts[1..] + us;
      assert (a + b)[..n] == a[..n] && (a + b)[n..] == a[n..] + b;
      WritesAppend(a[n..], ts[1..], b, us);
    }
  }

  lemma {:induction false} WritesSplit(b: Bytes, ts: seq<Token>, us: seq<Token>)
    requires WritesAll(b, ts + us)
    ensures Total(ts) <= |b| && WritesAll(b[..Total(ts)], ts) && WritesAll(b[Total(ts)..], us)
  {
    if ts == [] {
      assert ts + us == us && b[0..] == b;
    } else {
      var n := Len(ts[0]);
      assert (ts + us)[0] == ts[0] && (ts + us)[1..] == ts[1..] + us;
      WritesSplit(b[n..], ts[1..], us);
      var m := Total(ts);
      assert b[..m][..n] == b[..n] && b[..m][n..] == b[n..][..m - n] && b[m..] == b[n..][m - n..];
    }
  }

  lemma WritesOne(b: Bytes, t: Token)
    requires Writes(b, t)
    ensures WritesAll(b, [t]) && Total([t]) == Len(t)
  {
    assert b[..|b|] == b && b[|b|..] == [];
  }

  /** The bytes of the tokens from i to j. */
  lemma WritesPart(b: Bytes, ts: seq<Token>, i: nat, j: nat)
    requires WritesAll(b, ts) && i <= j <= |ts|
    ensures Total(ts[..i]) <= Total(ts[..j]) <= |b| && Total(ts[i..j]) == Total(ts[..j]) - Total(ts[..i])
    ensures WritesAll(b[Total(ts[..i])..Total(ts[..j])], ts[i..j])
  {
    assert ts == ts[..j] + ts[j..] && ts[..j] == ts[..i] + ts[i..j];
    WritesSplit(b, ts[..j], ts[j..]);
    TotalAppend(ts[..i], ts[i..j]);
    WritesLength(b[..Total(ts[..j])], ts[..j]);
    WritesSplit(b[..Total(ts[..j])], ts[..i], ts[i..j]);
    assert b[..Total(ts[..j])][Total(ts[..i])..] == b[Total(ts[..i])..Total(ts[..j])];
  }

  lemma WritesAt(b: Bytes, ts: seq<Token>, i: nat)
    requires WritesAll(b, ts) && i < |ts|
    ensures var o := Total(ts[..i]); Total(ts[..i + 1]) == o + Len(ts[i]) <= |b| && Writes(b[o..o + Len(ts[i])], ts[i])
  {
    hide *;
    WritesPart(b, ts, i, i + 1);
    assert ts[i..i + 1] == [ts[i]];
    WritesOneBack(b[Total(ts[..i])..Total(ts[..i + 1])], ts[i]);
  }

  lemma WritesOneBack(b: Bytes, t: Token)
    requires WritesAll(b, [t])
    ensures Writes(b, t) && |b| == Len(t) == Total([t])
  {
    WritesLength(b, [t]);
    hide Writes;
    assert b[..|b|] == b;
  }

  /** Replacing the bytes of the tokens from i to j replaces those tokens. */
  lemma WritesSplice(b: Bytes, ts: seq<Token>, i: nat, j: nat, c: Bytes, us: seq<Token>)
    requires WritesAll(b, ts) && i <= j <= |ts| && WritesAll(c, us)
    ensures Total(ts[..i]) <= Total(ts[..j]) <= |b|
    ensures WritesAll(b[..Total(ts[..i])] + c + b[Total(ts[..j])..], ts[..i] + us + ts[j..])
  {
    hide *;
    WritesPart(b, ts, i, j);
    assert ts[..i] + ts[i..] == ts && ts[..j] + ts[j..] == ts;
    WritesSplit(b, ts[..i], ts[i..]);
    WritesSplit(b, ts[..j], ts[j..]);
    WritesAppend(b[..Total(ts[..i])], ts[..i], c, us);
    WritesAppend(b[..Total(ts[..i])] + c, ts[..i] + us, b[Total(ts[..j])..], ts[j..]);
  }

  lemma TotalAligned(ts: seq<Token>)
    ensures Total(ts) % 4 == 0
  {
  }

  // ----- reading -----

  /** fdt_next_tag on the structure block s: the tag at the offset and the
      offset of the next one, or END and an error. */
  function NextTag(s: Bytes, start: int): (r: (nat, int))
    ensures r.1 >= 0 ==> start + 4 <= r.1 < |s| + 4
  {
    if start < 0 || |s| < start + 4 then (END, -ERR_TRUNCATED)
    else
      var tag := Get32(s[start..start + 4]);
      if tag == BEGIN_NODE then
        var e := NextOf(s, 0, start + 4);
        if e == |s| then (END, -ERR_BADSTRUCTURE) else (tag, Up4(e + 1))
      else if tag == PROP then
        if |s| < start + 8 then (END, -ERR_BADSTRUCTURE)
        else
          var e := start + 12 + Get32(s[start + 4..start + 8]);
          if |s| < e then (END, -ERR_BADSTRUCTURE) else (tag, Up4(e))
      else if tag == END_NODE || tag == NOP || tag == END then (tag, Up4(start + 4))
      else (END, -ERR_BADSTRUCTURE)
  }

  lemma NextTagReads(s: Bytes, o: nat, t: Token)
    requires o % 4 == 0 && o + Len(t) <= |s| && Writes(s[o..o + Len(t)], t)
    ensures NextTag(s, o) == (Code(t), o + Len(t))
  {
    var b := s[o..o + Len(t)];
    Inside(s, o, Len(t), 0, 4);
    WordBack(Code(t));
    if t.BeginNode? {
      BeginReads(s, o, t.name);
    } else if t.Prop? {
      PropReads(s, o, t.nameoff, t.value);
    } else {
      Up4Sum(o, 4);
      hide Word, Get32, Up4;
    }
  }

  lemma Inside(s: Bytes, o: nat, n: nat, i: nat, j: nat)
    requires o + n <= |s| && i <= j <= n
    ensures s[o..o + n][i..j] == s[o + i..o + j]
  {
    var a, b := s[o..o + n][i..j], s[o + i..o + j];
    assert |a| == |b|;
    forall k | 0 <= k < |a| ensures a[k] == b[k] {
    }
  }

  lemma BeginReads(s: Bytes, o: nat, name: Bytes)
    requires o % 4 == 0 && o + Len(BeginNode(name)) <= |s| && Writes(s[o..o + Len(BeginNode(name))], BeginNode(name))
    ensures NextOf(s, 0, o + 4) == o + 4 + |name| < |s| && Up4(o + 4 + |name| + 1) == o + Len(BeginNode(name))
  {
    var n := Len(BeginNode(name));
    StrWithin(s[..o], s[o..o + n], s[o + n..], 4, name);
    assert s == s[..o] + s[o..o + n] + s[o + n..];
    NulIs(s, o + 4, name);
    Up4Sum(o + 4, |name| + 1);
  }

  lemma PropReads(s: Bytes, o: nat, nameoff: nat, value: Bytes)
    requires o % 4 == 0 && o + Len(Prop(nameoff, value)) <= |s| && Writes(s[o..o + Len(Prop(nameoff, value))], Prop(nameoff, value))
    ensures |value| < WORD && nameoff < WORD && Get32(s[o + 4..o + 8]) == |value| && Get32(s[o + 8..o + 12]) == nameoff
    ensures s[o + 12..o + 12 + |value|] == value && Up4(o + 12 + |value|) == o + Len(Prop(nameoff, value))
  {
    var n := Len(Prop(nameoff, value));
    Inside(s, o, n, 4, 8);
    Inside(s, o, n, 8, 12);
    Inside(s, o, n, 12, 12 + |value|);
    WordBack(|value|);
    WordBack(nameoff);
    Up4Sum(o + 12, |value|);
    hide Get32, Word, Up4;
  }

  /** Walking a well-formed block from tag to tag visits exactly its tokens. */
  lemma NextTagWalks(s: Bytes, ts: seq<Token>, i: nat)
    requires WritesAll(s, ts) && i < |ts|
    ensures NextTag(s, Total(ts[..i])) == (Code(ts[i]), Total(ts[..i + 1]))
  {
    WritesAt(s, ts, i);
    TotalAligned(ts[..i]);
    NextTagReads(s, Total(ts[..i]), ts[i]);
  }

  /** fdt_next_tag, step by step */
  method ReadTag(s: Bytes, start: int) returns (tag: nat, next: int)
    ensures (tag, next) == NextTag(s, start)
  {
    var offset := start;
    next := -ERR_TRUNCATED;
    if offset < 0 || |s| < offset + 4 { return END, next; }
    tag := Get32(s[offset..offset + 4]);
    offset := offset + 4;
    next := -ERR_BADSTRUCTURE;
    if tag == BEGIN_NODE {
      // skip name
      var more := true;
      while more
        invariant start + 4 <= offset <= |s| + 1
        invariant more ==> offset <= |s| && NextOf(s, 0, start + 4) == NextOf(s, 0, offset)
        invariant !more ==> offset == NextOf(s, 0, start + 4) + 1
        decreases |s| + 1 - offset, more
      {
        offset := offset + 1;
        more := offset <= |s| && s[offset - 1] != 0;
      }
      if |s| < offset { return END, next; }
    } else if tag == PROP {
      if |s| < offset + 4 { return END, next; }
      offset := offset + 8 + Get32(s[offset..offset + 4]);
    } else if tag != END && tag != END_NODE && tag != NOP {
      return END, next;
    }
    if |s| < offset { return END, next; }
    next := Up4(offset);
  }

  /** Room of len bytes that begins with w reads as these tokens. */
  ghost predicate Spells(w: Bytes, len: nat, us: seq<Token>) {
    |w| <= len && forall b: Bytes :: |b| == len && b[..|w|] == w ==> WritesAll(b, us)
  }

  lemma SpelledOut(w: Bytes, len: nat, us: seq<Token>, b: Bytes)
    requires Spells(w, len, us) && |w| <= len == |b| && b[..|w|] == w
    ensures WritesAll(b, us)
  {
  }

  lemma PropWritten(b: Bytes, nameoff: nat, value: Bytes)
    requires nameoff < WORD && |value| < WORD && |b| == 12 + Up4(|value|)
    requires b[..12 + |value|] == Word(PROP) + Word(|value|) + Word(nameoff) + value
    ensures Writes(b, Prop(nameoff, value))
  {
    hide Up4, Word;
    var w := Word(PROP) + Word(|value|) + Word(nameoff) + value;
    PrefixPart(b, w, 0, 4);
    PrefixPart(b, w, 4, 8);
    PrefixPart(b, w, 8, 12);
    PrefixPart(b, w, 12, 12 + |value|);
    assert w[..4] == Word(PROP) && w[4..8] == Word(|value|) && w[8..12] == Word(nameoff) && w[12..12 + |value|] == value;
  }
}

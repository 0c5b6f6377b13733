/** Writing a tree sequentially.

    The structure block grows from the front of the buffer and the strings from
    its back; property names are given by their distance from the back, which
    does not change when strings are added in front.  Finishing moves the strings
    behind the structure and turns the distances into offsets. */
module FdtWriter {
  import opened Common
  import opened FdtBytes
  import opened FdtTokens

  /** The header's 40 bytes, rounded up to the size of a reservation entry */
  const RESERVE_MAP: nat := 48
  const MAGIC: nat := 0xd00dfeed
  const SW_MAGIC: nat := 0x2ff20112

  /** What a caller writes, and what a reader of the finished tree gets back. */
  datatype Event = Begin(name: Bytes) | Property(name: Bytes, value: Bytes) | Finish

  /** The token was written for the event; names are found in strs, from its
      back while building and from its front afterwards. */
  ghost predicate Stands(t: Token, e: Event, strs: Bytes, done: bool) {
    match e
    case Begin(name) => t == BeginNode(name)
    case Finish => t == EndNode
    case Property(name, value) =>
      && t.Prop? && t.value == value && t.nameoff < WORD
      && var o := AsInt(t.nameoff);
         if done then IsStr(strs, o, name) else o < 0 && IsStr(strs, |strs| + o, name)
  }

  ghost predicate StandsAll(ts: seq<Token>, es: seq<Event>, strs: Bytes, done: bool) {
    |ts| == |es| && forall i :: 0 <= i < |ts| ==> Stands(ts[i], es[i], strs, done)
  }

  /** Strings added in front change nothing for the names already there. */
  lemma StandsMore(ts: seq<Token>, es: seq<Event>, strs: Bytes, more: Bytes)
    requires StandsAll(ts, es, strs, false)
    ensures StandsAll(ts, es, more + strs, false)
  {
    forall i | 0 <= i < |ts| ensures Stands(ts[i], es[i], more + strs, false) {
      if es[i].Property? {
        var o := AsInt(ts[i].nameoff);
        StrWithin(more, strs, [], |strs| + o, es[i].name);
        assert more + strs + [] == more + strs;
      }
    }
  }

  /** totalsize - offset < struct_top, in unsigned 32-bit arithmetic */
  predicate NoRoom(totalsize: nat, offset: nat, struct_top: nat) {
    (totalsize - offset) % WORD < struct_top
  }

  /** The test for room is right exactly when the strings, old and new, are not
      longer than the whole buffer; beyond that the subtraction wraps around. */
  lemma NoRoomExact(totalsize: nat, old_size: nat, len: nat, struct_top: nat)
    requires old_size <= totalsize <= INT_MAX && len <= INT_MAX && struct_top <= totalsize
    ensures (NoRoom(totalsize, old_size + len, struct_top) <==> totalsize < struct_top + old_size + len)
       <==> old_size + len <= totalsize
  {
    var d := totalsize - (old_size + len);
    if d >= 0 {
      assert d % WORD == d;
    } else {
      assert d % WORD == d + WORD;
    }
  }

  /** A node's name as it is stored behind its tag. */
  lemma BeginWritten(b: Bytes, name: Bytes)
    requires NoNul(name) && |b| == 4 + Up4(|name| + 1) && b[..4 + (|name| + 1)] == Word(BEGIN_NODE) + (name + [0])
    ensures Writes(b, BeginNode(name))
  {
    hide Up4, Word;
    var w := Word(BEGIN_NODE) + (name + [0]);
    PrefixPart(b, w, 0, 4);
    PrefixPart(b, w, 4, 4 + |name|);
    PrefixPart(b, w, 4 + |name|, 4 + |name| + 1);
    assert w[4..4 + |name|] == name && w[4 + |name|..4 + |name| + 1] == [0];
    assert b[4 + |name|..4 + |name| + 1][0] == b[4 + |name|];
  }

  /** Bytes copied into the space claimed for structure, as seen from outside. */
  lemma CopiedStruct(a: Bytes, b: Bytes, off: nat, size: nat, len: nat, w: Bytes, total: nat, strs: nat)
    requires off + size + len + strs <= total <= |a| && |w| <= len
    requires b == Patched(a, off + size, w)
    ensures |b| == |a| && b[off..off + (size + len)] == a[off..off + size] + b[off + size..off + size + len]
    ensures b[total - strs..total] == a[total - strs..total]
    ensures |b[off + size..off + size + len]| == len && b[off + size..off + size + len][..|w|] == w
  {
    assert b[off..off + size] == a[off..off + size];
  }

  lemma CopiedString(a: Bytes, b: Bytes, off: nat, size: nat, w: Bytes, total: nat, strs: nat)
    requires off + size + strs + |w| <= total <= |a|
    requires b == Patched(a, total - (strs + |w|), w)
    ensures |b| == |a| && b[off..off + size] == a[off..off + size]
    ensures b[total - (strs + |w|)..total] == w + a[total - strs..total]
  {
  }

  lemma StandsGrown(ts: seq<Token>, es: seq<Event>, t: Token, e: Event, strs: Bytes)
    requires StandsAll(ts, es, strs, false) && Stands(t, e, strs, false)
    ensures StandsAll(ts + [t], es + [e], strs, false)
  {
  }

  lemma WritesGrown(s: Bytes, ts: seq<Token>, b: Bytes, t: Token)
    requires WritesAll(s, ts) && WritesAll(b, [t])
    ensures WritesAll(s + b, ts + [t])
  {
    hide *;
    WritesAppend(s, ts, b, [t]);
  }

  class Writer {
    const buf: array<byte>
    /** FDT_CREATE_FLAG_NO_NAME_DEDUP is not set */
    const dedup: bool
    var magic: nat
    var totalsize: nat
    var off_struct: nat
    var size_struct: nat
    var off_strings: nat
    var size_strings: nat
    ghost var toks: seq<Token>
    ghost var log: seq<Event>

    ghost function Struct(): Bytes
      requires off_struct + size_struct <= buf.Length
      reads this, buf
    {
      Block(off_struct, size_struct)
    }

    ghost function Strings(): Bytes
      requires size_strings <= totalsize <= buf.Length
      reads this, buf
    {
      Block(totalsize - size_strings, size_strings)
    }

    function Block(o: nat, n: nat): (b: Bytes)
      requires o + n <= buf.Length
      reads buf
      ensures |b| == n
    {
      buf[o..o + n]
    }

    lemma BlockIs(o: nat, n: nat)
      requires o + n <= buf.Length
      ensures Block(o, n) == buf[..][o..o + n] == buf[o..o + n]
    {
    }

    /** The sizes fit, and the structure block holds the tokens written so far. */
    ghost predicate Laid()
      reads this, buf
    {
      && totalsize <= buf.Length <= INT_MAX && RESERVE_MAP <= off_struct
      && off_struct + size_struct + size_strings <= totalsize
      && WritesAll(Struct(), toks)
    }

    ghost predicate Reserving()
      reads this, buf
    {
      Laid() && magic == SW_MAGIC && off_strings == 0 && size_struct == size_strings == 0 && toks == [] && log == []
    }

    ghost predicate Building()
      reads this, buf
    {
      Laid() && magic == SW_MAGIC && off_strings == totalsize && StandsAll(toks, log, Strings(), false)
    }

    /** The finished tree: an END token is last, the strings follow directly, and
        all names are found from the front of the strings. */
    ghost predicate Complete()
      reads this, buf
    {
      && Laid() && magic == MAGIC && off_strings == off_struct + size_struct == totalsize - size_strings
      && 0 < |toks| && toks[|toks| - 1] == End && StandsAll(toks[..|toks| - 1], log, Strings(), true)
    }

    /** fdt_create */
    constructor (buf: array<byte>, bufsize: nat, dedup: bool)
      requires RESERVE_MAP <= bufsize <= buf.Length <= INT_MAX
      modifies buf
      ensures Reserving() && this.buf == buf && totalsize == bufsize && this.dedup == dedup
      ensures buf[..] == seq(bufsize, i => 0) + old(buf[bufsize..])
    {
      this.buf, this.dedup := buf, dedup;
      magic := SW_MAGIC;
      totalsize := bufsize;
      off_struct, size_struct, off_strings, size_strings := RESERVE_MAP, 0, 0, 0;
      toks, log := [], [];
      new;
      forall i | 0 <= i < bufsize {
        buf[i] := 0;
      }
    }

    /** memcpy to offset o */
    method Copy(o: nat, b: Bytes)
      requires o + |b| <= buf.Length
      modifies buf
      ensures buf[..] == Patched(old(buf[..]), o, b)
    {
      forall i | 0 <= i < |b| {
        buf[o + i] := b[i];
      }
    }

    /** fdt_grab_space_: claims len more bytes of structure. */
    method GrabSpace(len: nat) returns (o: int)
      requires off_struct + size_struct + size_strings <= totalsize
      modifies this`size_struct
      ensures o == -1 || o == off_struct + old(size_struct)
      ensures o == -1 <==> totalsize < off_struct + old(size_struct) + len + size_strings
      ensures size_struct == if o == -1 then old(size_struct) else old(size_struct) + len
    {
      var offset := size_struct;
      var spaceleft := totalsize - off_struct - size_strings;
      if offset + len > spaceleft { return -1; }
      size_struct := offset + len;
      o := off_struct + offset;
    }

    /** fdt_add_reservemap_entry, with address and size as their 16 bytes */
    method AddReserveEntry(entry: Bytes) returns (err: int)
      requires |entry| == 16 && Reserving()
      modifies this, buf
      ensures Reserving() && totalsize == old(totalsize)
      ensures err == if totalsize < old(off_struct) + 16 then -ERR_NOSPACE else 0
      ensures err == 0 ==> off_struct == old(off_struct) + 16 && buf[..] == Patched(old(buf[..]), old(off_struct), entry)
    {
      var offset := off_struct;
      if offset + 16 > totalsize { return -ERR_NOSPACE; }
      Copy(offset, entry);
      off_struct := offset + 16;
      err := 0;
    }

    /** fdt_finish_reservemap */
    method FinishReservemap() returns (err: int)
      requires Reserving()
      modifies this, buf
      ensures err == if totalsize < old(off_struct) + 16 then -ERR_NOSPACE else 0
      ensures err == 0 ==> Building() && log == [] && totalsize == old(totalsize)
      ensures err != 0 ==> Reserving()
    {
      err := AddReserveEntry(seq(16, i => 0));
      if err != 0 { return; }
      off_strings := totalsize;
    }

    lemma Parts()
      requires Building()
      ensures totalsize <= buf.Length <= INT_MAX == 0x7fff_ffff && RESERVE_MAP <= off_struct
      ensures off_struct + size_struct + size_strings <= totalsize
      ensures WritesAll(Struct(), toks) && StandsAll(toks, log, Strings(), false)
      ensures magic == SW_MAGIC && off_strings == totalsize && ERR_NOSPACE == 3
      ensures Struct() == Block(off_struct, size_struct)
      ensures Strings() == Block(totalsize - size_strings, size_strings)
    {
    }

    lemma Whole()
      requires totalsize <= buf.Length <= INT_MAX && RESERVE_MAP <= off_struct
      requires off_struct + size_struct + size_strings <= totalsize
      requires WritesAll(Block(off_struct, size_struct), toks)
      requires StandsAll(toks, log, Block(totalsize - size_strings, size_strings), false)
      requires magic == SW_MAGIC && off_strings == totalsize
      ensures Building()
      ensures Struct() == Block(off_struct, size_struct)
      ensures Strings() == Block(totalsize - size_strings, size_strings)
    {
      assert Struct() == Block(off_struct, size_struct);
      assert Strings() == Block(totalsize - size_strings, size_strings);
    }

    /** Puts the bytes of a token at the end of the structure. */
    method PutBytes(len: nat, w: Bytes, ghost t: Token) returns (ok: bool)
      requires Building() && |w| <= len && Spells(w, len, [t])
      modifies this`size_struct, buf
      ensures off_struct + size_struct + size_strings <= totalsize <= buf.Length
      ensures ok <==> off_struct + old(size_struct) + len + size_strings <= totalsize
      ensures Strings() == old(Strings())
      ensures !ok ==> Building() && size_struct == old(size_struct) && buf[..] == old(buf[..])
      ensures ok ==> WritesAll(Struct(), toks + [t]) && size_struct == old(size_struct) + len
      ensures Struct() == Block(off_struct, size_struct)
      ensures Strings() == Block(totalsize - size_strings, size_strings)
    {
      hide *;
      Parts();
      ghost var s, strs, size := Struct(), Strings(), size_struct;
      var o := GrabSpace(len);
      if o == -1 {
        Whole();
        return false;
      }
      BlockIs(off_struct, size);
      BlockIs(totalsize - size_strings, size_strings);
      ghost var before := buf[..];
      Copy(o, w);
      CopiedStruct(before, buf[..], off_struct, size, len, w, totalsize, size_strings);
      BlockIs(off_struct, size_struct);
      BlockIs(totalsize - size_strings, size_strings);
      SpelledOut(w, len, [t], buf[..][o..o + len]);
      WritesGrown(s, toks, buf[..][o..o + len], t);
      Slices();
      ok := true;
    }

    lemma Slices()
      requires off_struct + size_struct + size_strings <= totalsize <= buf.Length
      ensures Struct() == Block(off_struct, size_struct)
      ensures Strings() == Block(totalsize - size_strings, size_strings)
    {
      assert Struct() == Block(off_struct, size_struct);
      assert Strings() == Block(totalsize - size_strings, size_strings);
    }

    /** The same for a token that stands for an event. */
    method PutToken(len: nat, w: Bytes, ghost t: Token, ghost e: Event) returns (ok: bool)
      requires Building() && |w| <= len && Spells(w, len, [t]) && Stands(t, e, Strings(), false)
      modifies this, buf
      ensures Building() && totalsize == old(totalsize) && size_strings == old(size_strings) && off_struct == old(off_struct)
      ensures Strings() == old(Strings())
      ensures ok <==> off_struct + old(size_struct) + len + size_strings <= totalsize
      ensures !ok ==> size_struct == old(size_struct) && buf[..] == old(buf[..]) && toks == old(toks)
      ensures log == if ok then old(log) + [e] else old(log)
    {
      hide *;
      Parts();
      ok := PutBytes(len, w, t);
      if ok {
        StandsGrown(toks, log, t, e, Strings());
        toks := toks + [t];
        log := log + [e];
        Whole();
      }
    }

    /** fdt_begin_node */
    method BeginNode(name: Bytes) returns (err: int)
      requires Building() && NoNul(name)
      modifies this, buf
      ensures Building() && totalsize == old(totalsize)
      ensures err == if totalsize < off_struct + old(size_struct) + 4 + Up4(|name| + 1) + size_strings then -ERR_NOSPACE else 0
      ensures log == if err == 0 then old(log) + [Begin(name)] else old(log)
    {
      hide *;
      BeginSpells(name);
      var ok := PutToken(4 + Up4(|name| + 1), Word(BEGIN_NODE) + (name + [0]), FdtTokens.BeginNode(name), Begin(name));
      err := if ok then 0 else -ERR_NOSPACE;
    }

    /** fdt_end_node */
    method EndNode() returns (err: int)
      requires Building()
      modifies this, buf
      ensures Building() && totalsize == old(totalsize)
      ensures err == if totalsize < off_struct + old(size_struct) + 4 + size_strings then -ERR_NOSPACE else 0
      ensures log == if err == 0 then old(log) + [Event.Finish] else old(log)
    {
      hide *;
      EndSpells(END_NODE, FdtTokens.EndNode);
      var ok := PutToken(4, Word(END_NODE), FdtTokens.EndNode, Event.Finish);
      err := if ok then 0 else -ERR_NOSPACE;
    }

    /** fdt_add_string_.  A string that is too long for the whole buffer passes the
        test for room, and the copy goes astray: it begins in front of the buffer.
        What is left then is not part of this model. */
    method AddString(s: Bytes) returns (nameoff: int, astray: bool)
      requires Building() && NoNul(s) && |s| < INT_MAX
      modifies this`size_strings, buf
      ensures astray <==> totalsize < old(size_strings) + |s| + 1
      ensures !astray ==> Building() && Struct() == old(Struct())
      ensures !astray ==> (nameoff == 0 <==> totalsize < off_struct + size_struct + old(size_strings) + |s| + 1)
      ensures !astray && nameoff == 0 ==> Strings() == old(Strings()) && size_strings == old(size_strings)
      ensures !astray && nameoff != 0 ==>
        nameoff + size_strings == 0 && Strings() == s + [0] + old(Strings()) && size_strings == old(size_strings) + |s| + 1
    {
      hide *;
      Parts();
      var len := |s| + 1;
      var offset := size_strings + len;
      NoRoomExact(totalsize, size_strings, len, off_struct + size_struct);
      if NoRoom(totalsize, offset, off_struct + size_struct) { return 0, false; }
      if totalsize < offset { return -offset, true; }
      ghost var strs, size, before := Strings(), size_strings, buf[..];
      BlockIs(off_struct, size_struct);
      BlockIs(totalsize - size, size);
      Copy(totalsize - offset, s + [0]);
      CopiedString(before, buf[..], off_struct, size_struct, s + [0], totalsize, size);
      size_strings := size_strings + len;
      BlockIs(off_struct, size_struct);
      BlockIs(totalsize - size_strings, size_strings);
      StandsMore(toks, log, strs, s + [0]);
      Whole();
      nameoff, astray := -offset, false;
    }

    /** A string is there already, or there is room for it in the buffer. */
    ghost predicate Holds(s: Bytes)
      requires size_strings <= totalsize <= buf.Length
      reads this, buf
    {
      size_strings + |s| + 1 <= totalsize || (dedup && exists o: int :: IsStr(Strings(), o, s))
    }

    /** fdt_find_add_string_ */
    method FindAddString(s: Bytes) returns (nameoff: int, added: bool, astray: bool)
      requires Building() && NoNul(s) && |s| < INT_MAX && dedup
      modifies this`size_strings, buf
      ensures astray <==> !old(Holds(s))
      ensures !astray ==> Building() && Struct() == old(Struct()) && nameoff <= 0 <= size_strings + nameoff
      ensures !astray && nameoff != 0 ==> IsStr(Strings(), size_strings + nameoff, s)
      ensures !astray && added && nameoff != 0 ==> size_strings == old(size_strings) + |s| + 1 && Strings() == s + [0] + old(Strings())
      ensures !astray && (!added || nameoff == 0) ==> Strings() == old(Strings()) && size_strings == old(size_strings)
      ensures !astray && nameoff == 0 ==> totalsize < off_struct + size_struct + size_strings + |s| + 1
      ensures !added ==> nameoff != 0
    {
      hide *;
      Parts();
      var p := FindString(Block(totalsize - size_strings, size_strings), s);
      HoldsIs(s);
      if 0 <= p {
        FoundInside(Strings(), p, s);
        HoldsIs(s);
        return p - size_strings, false, false;
      }
      nameoff, astray := AddString(s);
      added := true;
      if nameoff != 0 && !astray { AddedString(s, old(Strings())); }
    }

    lemma HoldsIs(s: Bytes)
      requires size_strings <= totalsize <= buf.Length
      ensures Holds(s) <==> size_strings + |s| + 1 <= totalsize || (dedup && exists o: int :: IsStr(Strings(), o, s))
    {
    }

    /** fdt_property */
    method Property(name: Bytes, value: Bytes) returns (err: int, astray: bool)
      requires Building() && NoNul(name) && |name| < INT_MAX && |value| <= INT_MAX
      modifies this, buf
      ensures astray <==> !old(Holds(name))
      ensures !astray ==> Building() && totalsize == old(totalsize) && (err == 0 || err == -ERR_NOSPACE)
      ensures !astray ==> log == if err == 0 then old(log) + [Event.Property(name, value)] else old(log)
      ensures !astray && err != 0 ==> size_struct == old(size_struct) && Strings() == old(Strings())
      ensures !astray && err != 0 ==> totalsize < off_struct + size_struct + 12 + Up4(|value|) + size_strings + |name| + 1
      ensures !astray && err == 0 ==> off_struct + old(size_struct) + 12 + Up4(|value|) + size_strings <= totalsize
    {
      hide *;
      Parts();
      ghost var strs, ts, es, size := Strings(), toks, log, size_strings;
      var nameoff, added;
      nameoff, added, astray := NameOffset(name);
      err := 0;
      if astray { return; }
      Parts();
      if nameoff == 0 { return -ERR_NOSPACE, false; }
      PropSpells(nameoff, name, value, Strings());
      var ok := PutToken(12 + Up4(|value|), Word(PROP) + Word(|value|) + Word(WORD + nameoff) + value,
                         Prop(WORD + nameoff, value), Event.Property(name, value));
      if !ok {
        if added { RollBack(name, strs); }
        Parts();
        return -ERR_NOSPACE, false;
      }
    }

    method NameOffset(name: Bytes) returns (nameoff: int, added: bool, astray: bool)
      requires Building() && NoNul(name) && |name| < INT_MAX
      modifies this`size_strings, buf
      ensures astray <==> !old(Holds(name))
      ensures !astray ==> Building() && Struct() == old(Struct()) && nameoff <= 0 <= size_strings + nameoff
      ensures !astray && nameoff != 0 ==> IsStr(Strings(), size_strings + nameoff, name) && |Strings()| == size_strings
      ensures !astray && added && nameoff != 0 ==> size_strings == old(size_strings) + |name| + 1 && Strings() == name + [0] + old(Strings())
      ensures !astray && (!added || nameoff == 0) ==> size_strings == old(size_strings) && Strings() == old(Strings())
      ensures !astray && nameoff == 0 ==> totalsize < off_struct + size_struct + size_strings + |name| + 1
    {
      hide *;
      Parts();
      HoldsIs(name);
      ghost var strs := Strings();
      if dedup {
        nameoff, added, astray := FindAddString(name);
      } else {
        added := true;
        nameoff, astray := AddString(name);
        if nameoff != 0 && !astray { AddedString(name, strs); }
      }
      if !astray { Parts(); }
    }

    /** fdt_del_last_string_ */
    method RollBack(name: Bytes, ghost strs: Bytes)
      requires Building() && Strings() == name + [0] + strs && size_strings == |strs| + |name| + 1
      requires StandsAll(toks, log, strs, false)
      modifies this`size_strings
      ensures Building() && Strings() == strs && size_strings == |strs|
    {
      hide *;
      Parts();
      DropString(name, strs);
      size_strings := size_strings - (|name| + 1);
      Whole();
    }

    lemma DropString(name: Bytes, strs: Bytes)
      requires Building() && Strings() == name + [0] + strs && size_strings == |strs| + |name| + 1
      ensures strs == Block(totalsize - |strs|, |strs|)
    {
      var n := |name| + 1;
      assert (name + [0] + strs)[n..] == strs;
      assert Block(totalsize - size_strings, size_strings)[n..] == Block(totalsize - |strs|, |strs|);
    }

    // ----- finishing -----

    /** memmove within the buffer */
    method Move(dst: nat, src: nat, n: nat)
      requires dst + n <= buf.Length && src + n <= buf.Length
      modifies buf
      ensures buf[..] == Patched(old(buf[..]), dst, old(buf[..])[src..src + n])
    {
      ghost var was := buf[..];
      forall i | 0 <= i < n {
        buf[dst + i] := buf[src + i];
      }
      assert buf[dst..dst + n] == was[src..src + n];
    }

    /** fdt_finish */
    method Finish() returns (err: int)
      requires Building()
      modifies this, buf
      ensures err == if old(totalsize) < off_struct + old(size_struct) + 4 + old(size_strings) then -ERR_NOSPACE else 0
      ensures err != 0 ==> Building() && log == old(log)
      ensures err == 0 ==> Complete() && log == old(log)
    {
      hide *;
      Parts();
      EndSpells(END, End);
      ghost var strs, ts := Strings(), toks;
      var ok := PutBytes(4, Word(END), End);
      if !ok { return -ERR_NOSPACE; }
      toks := ts + [End];
      Relocate(strs);
      BlockIs(off_struct, size_struct);
      BlockIs(off_strings, size_strings);
      CorrectOffsets(ts, strs);
      BlockIs(off_struct, size_struct);
      BlockIs(off_strings, size_strings);
      totalsize := off_strings + size_strings;
      magic := MAGIC;
      CompleteNow(ts, strs);
      err := 0;
    }

    /** Moves the strings behind the structure. */
    method Relocate(ghost strs: Bytes)
      requires off_struct + size_struct + size_strings <= totalsize <= buf.Length <= INT_MAX
      requires Block(totalsize - size_strings, size_strings) == strs
      modifies this`off_strings, buf
      ensures off_strings == off_struct + size_struct && off_strings + size_strings <= totalsize
      ensures Block(off_struct, size_struct) == old(Block(off_struct, size_struct))
      ensures Block(off_strings, size_strings) == strs
    {
      hide *;
      var oldstroffset, newstroffset := totalsize - size_strings, off_struct + size_struct;
      ghost var before := buf[..];
      BlockIs(off_struct, size_struct);
      BlockIs(oldstroffset, size_strings);
      Move(newstroffset, oldstroffset, size_strings);
      Relocated(before, buf[..], off_struct, size_struct, size_strings, totalsize);
      BlockIs(off_struct, size_struct);
      BlockIs(newstroffset, size_strings);
      off_strings := newstroffset;
    }

    lemma CompleteNow(ts: seq<Token>, strs: Bytes)
      requires totalsize <= buf.Length <= INT_MAX && RESERVE_MAP <= off_struct && magic == MAGIC
      requires off_strings == off_struct + size_struct && totalsize == off_strings + size_strings
      requires WritesAll(Block(off_struct, size_struct), toks)
      requires Block(off_strings, size_strings) == strs
      requires toks == Shifted(ts + [End], |strs|) && StandsAll(ts, log, strs, false) && |strs| <= INT_MAX
      ensures Complete()
    {
      assert Struct() == Block(off_struct, size_struct);
      assert Strings() == strs;
      ShiftedStands(ts, log, strs);
    }

    /** The walk over the structure that turns distances into offsets. */
    method CorrectOffsets(ghost ts: seq<Token>, ghost strs: Bytes)
      requires off_struct + size_struct <= off_strings && off_strings + size_strings <= buf.Length <= INT_MAX
      requires WritesAll(Block(off_struct, size_struct), toks) && toks == ts + [End]
      requires Block(off_strings, size_strings) == strs
      requires StandsAll(ts, log, strs, false)
      modifies this`toks, buf
      ensures WritesAll(Block(off_struct, size_struct), toks) && toks == Shifted(ts + [End], size_strings)
      ensures Block(off_strings, size_strings) == strs
    {
      hide *;
      ghost var i: nat := 0;
      ShiftStart(ts, size_strings);
      var offset := 0;
      var tag, next := TagAt(ts, strs, 0, 0);
      while tag != 9
        invariant i <= |ts| && 0 <= offset == Total((ts + [End])[..i]) && toks == PartShifted(ts, i, size_strings)
        invariant WritesAll(Block(off_struct, size_struct), toks)
        invariant Block(off_strings, size_strings) == strs
        invariant Standing(Block(off_struct, size_struct), ts, i, size_strings, tag, next)
        decreases |ts| - i
      {
        StandingIs(Block(off_struct, size_struct), ts, i, size_strings, tag, next);
        if tag == 3 { CorrectOne(ts, strs, i, offset); }
        toks := PartShifted(ts, i + 1, size_strings);
        i := i + 1;
        offset := next;
        tag, next := TagAt(ts, strs, i, offset);
      }
      StandingIs(Block(off_struct, size_struct), ts, i, size_strings, tag, next);
      ShiftEnd(ts, i, size_strings, log, strs);
    }

    method TagAt(ghost ts: seq<Token>, ghost strs: Bytes, ghost i: nat, offset: nat) returns (tag: nat, next: int)
      requires off_struct + size_struct <= buf.Length <= INT_MAX && i <= |ts| && offset == Total((ts + [End])[..i])
      requires WritesAll(Block(off_struct, size_struct), PartShifted(ts, i, size_strings))
      requires StandsAll(ts, log, strs, false) && |strs| == size_strings <= INT_MAX
      ensures Standing(Block(off_struct, size_struct), ts, i, size_strings, tag, next)
    {
      hide *;
      BlockIs(off_struct, size_struct);
      WalkStep(Block(off_struct, size_struct), ts, i, size_strings, log, strs);
      tag, next := ReadTag(buf[off_struct..off_struct + size_struct], offset);
    }

    /** nameoff += size_dt_strings */
    method CorrectOne(ghost ts: seq<Token>, ghost strs: Bytes, ghost i: nat, offset: nat)
      requires off_struct + size_struct <= off_strings && off_strings + size_strings <= buf.Length <= INT_MAX
      requires i <= |ts| && WritesAll(Block(off_struct, size_struct), PartShifted(ts, i, size_strings))
      requires PropAt(Block(off_struct, size_struct), ts, i, size_strings) && offset == Total((ts + [End])[..i])
      requires StandsAll(ts, log, strs, false) && |strs| == size_strings
      requires Block(off_strings, size_strings) == strs
      modifies buf
      ensures i < |ts| && WritesAll(Block(off_struct, size_struct), PartShifted(ts, i + 1, size_strings))
      ensures Block(off_strings, size_strings) == strs
    {
      hide *;
      BlockIs(off_struct, size_struct);
      BlockIs(off_strings, size_strings);
      ghost var s, before := Block(off_struct, size_struct), buf[..];
      PropAtIs(s, ts, i, size_strings);
      var at := off_struct + offset + 8;
      SubBuffer(buf[..], at, 4);
      Inner(buf[..], off_struct, size_struct, offset + 8);
      var nameoff := AsInt(Get32(buf[at..at + 4])) + size_strings;
      Copy(at, Word(nameoff));
      PatchedStruct(before, buf[..], off_struct, size_struct, offset + 8, Word(nameoff), off_strings, size_strings);
      WalkPatch(s, ts, i, size_strings, log, strs);
      BlockIs(off_struct, size_struct);
      BlockIs(off_strings, size_strings);
    }

    lemma SubBuffer(a: Bytes, o: nat, n: nat)
      requires a == buf[..] && o + n <= buf.Length
      ensures buf[o..o + n] == a[o..o + n]
    {
    }

    // ----- reading the finished tree back -----

    /** Walks the finished tree with fdt_next_tag and reads every name and every
        property as fdt_get_name and fdt_getprop_by_offset do. */
    method ReadEvents() returns (es: seq<Event>)
      requires Complete()
      ensures es == log
    {
      hide *;
      CompleteParts();
      var s, strs := Block(off_struct, size_struct), Block(off_strings, size_strings);
      var i, offset := 0, 0;
      es := [];
      EventAt(s, toks, log, strs, 0);
      var tag, next := ReadTag(s, offset);
      while tag != 9
        invariant 0 <= i <= |log| && 0 <= offset == Total(toks[..i]) && (tag, next) == NextTag(s, offset) && es == log[..i]
        decreases |log| - i
      {
        EventAt(s, toks, log, strs, i);
        var e := ReadEvent(s, strs, offset, tag);
        es := es + [e];
        i := i + 1;
        offset := next;
        EventAt(s, toks, log, strs, i);
        tag, next := ReadTag(s, offset);
      }
      EventAt(s, toks, log, strs, i);
    }

    lemma CompleteParts()
      requires Complete()
      ensures off_struct + size_struct <= buf.Length && off_strings + size_strings <= buf.Length
      ensures WritesAll(Block(off_struct, size_struct), toks) && 0 < |toks| && toks[|toks| - 1] == End
      ensures StandsAll(toks[..|toks| - 1], log, Block(off_strings, size_strings), true) && |toks| == |log| + 1
    {
    }
  }

  /** One event, read at an offset. */
  function ReadEvent(s: Bytes, strs: Bytes, o: nat, tag: nat): Event
    requires o + 4 <= |s|
  {
    if tag == BEGIN_NODE then Begin(s[o + 4..NextOf(s, 0, o + 4)])
    else if tag == PROP && o + 12 <= |s| && o + 12 + Get32(s[o + 4..o + 8]) <= |s| then
      var name := GetString(strs, AsInt(Get32(s[o + 8..o + 12])));
      if name.Found? then Property(name.s, s[o + 12..o + 12 + Get32(s[o + 4..o + 8])]) else Finish
    else Finish
  }

  lemma EventAt(s: Bytes, ts: seq<Token>, es: seq<Event>, strs: Bytes, i: nat)
    requires WritesAll(s, ts) && |ts| == |es| + 1 && ts[|es|] == End && i <= |es| && StandsAll(ts[..|es|], es, strs, true)
    ensures NextTag(s, Total(ts[..i])) == (Code(ts[i]), Total(ts[..i + 1])) && Total(ts[..i]) + 4 <= |s|
    ensures Code(ts[i]) == 9 <==> i == |es|
    ensures i < |es| ==> ReadEvent(s, strs, Total(ts[..i]), Code(ts[i])) == es[i]
    ensures Total(ts[..0]) == 0
  {
    hide *;
    EventTag(ts, es, strs, i);
    NextTagWalks(s, ts, i);
    WritesAt(s, ts, i);
    TotalAligned(ts[..i]);
    if i < |es| {
      ReadEventIs(s, strs, Total(ts[..i]), ts[i], es[i]);
    }
  }

  lemma EventTag(ts: seq<Token>, es: seq<Event>, strs: Bytes, i: nat)
    requires |ts| == |es| + 1 && ts[|es|] == End && i <= |es| && StandsAll(ts[..|es|], es, strs, true)
    ensures (Code(ts[i]) == 9 <==> i == |es|) && Total(ts[..0]) == 0
    ensures i < |es| ==> Stands(ts[i], es[i], strs, true)
  {
    if i < |es| { assert Stands(ts[..|es|][i], es[i], strs, true); }
  }

  lemma ReadEventIs(s: Bytes, strs: Bytes, o: nat, t: Token, e: Event)
    requires o % 4 == 0 && o + Len(t) <= |s| && Writes(s[o..o + Len(t)], t) && Stands(t, e, strs, true)
    ensures ReadEvent(s, strs, o, Code(t)) == e
  {
    hide WritesAll, Writes, Len, Word, Get32, GetString;
    match e
    case Begin(name) =>
      BeginReads(s, o, name);
      BeginName(s, o, name);
    case Property(name, value) =>
      PropReads(s, o, t.nameoff, value);
      GetStringIs(strs, AsInt(t.nameoff), name);
      PropLength(t);
      PropEnd(s, o, t);
    case Finish =>
  }

  lemma BeginName(s: Bytes, o: nat, name: Bytes)
    requires o + Len(BeginNode(name)) <= |s| && Writes(s[o..o + Len(BeginNode(name))], BeginNode(name))
    ensures o + 4 + |name| <= |s| && s[o + 4..o + 4 + |name|] == name
  {
    Inside(s, o, Len(BeginNode(name)), 4, 4 + |name|);
  }

  lemma PropEnd(s: Bytes, o: nat, t: Token)
    requires t.Prop? && o + Len(t) <= |s|
    ensures o + 12 + |t.value| <= |s|
  {
  }

  // ----- turning distances into offsets -----

  function Shift(t: Token, n: nat): Token {
    if t.Prop? && t.nameoff < WORD && 0 <= AsInt(t.nameoff) + n then Prop(AsInt(t.nameoff) + n, t.value) else t
  }

  function Shifted(ts: seq<Token>, n: nat): seq<Token> {
    seq(|ts|, i requires 0 <= i < |ts| => Shift(ts[i], n))
  }

  /** The tokens when the walk stands at the i-th one. */
  ghost function PartShifted(ts: seq<Token>, i: nat, n: nat): seq<Token>
    requires i <= |ts| + 1
  {
    Shifted((ts + [End])[..i], n) + (ts + [End])[i..]
  }

  lemma ShiftStart(ts: seq<Token>, n: nat)
    ensures PartShifted(ts, 0, n) == ts + [End] && Total((ts + [End])[..0]) == 0
  {
  }

  /** None of the tokens written for events is END. */
  lemma ShiftEnd(ts: seq<Token>, i: nat, n: nat, es: seq<Event>, strs: Bytes)
    requires i <= |ts| && Code((ts + [End])[i]) == 9 && StandsAll(ts, es, strs, false)
    ensures PartShifted(ts, i, n) == Shifted(ts + [End], n)
  {
    CodeIs(ts, es, i, strs);
    assert (ts + [End])[..i] == ts && (ts + [End])[i..] == [End];
    assert Shift(End, n) == End;
  }

  lemma {:induction false} ShiftTotal(ts: seq<Token>, n: nat)
    ensures Total(Shifted(ts, n)) == Total(ts)
  {
    if ts != [] {
      assert Shifted(ts, n)[0] == Shift(ts[0], n) && Shifted(ts, n)[1..] == Shifted(ts[1..], n);
      ShiftTotal(ts[1..], n);
    }
  }

  /** The walk stands at the i-th token and has read its tag. */
  ghost predicate Standing(s: Bytes, ts: seq<Token>, i: nat, n: nat, tag: nat, next: int) {
    && i <= |ts| && tag == Code((ts + [End])[i]) && next == Total((ts + [End])[..i + 1])
    && (tag != 9 ==> i < |ts|) && (tag == 3 ==> PropAt(s, ts, i, n))
    && (tag != 3 ==> PartShifted(ts, i + 1, n) == PartShifted(ts, i, n))
  }

  lemma StandingIs(s: Bytes, ts: seq<Token>, i: nat, n: nat, tag: nat, next: int)
    requires Standing(s, ts, i, n, tag, next)
    ensures i <= |ts| && tag == Code((ts + [End])[i]) && 0 <= next == Total((ts + [End])[..i + 1])
    ensures (tag != 9 ==> i < |ts|) && (tag == 3 ==> PropAt(s, ts, i, n))
    ensures tag != 3 ==> PartShifted(ts, i + 1, n) == PartShifted(ts, i, n)
  {
  }

  lemma StandingFrom(s: Bytes, ts: seq<Token>, i: nat, n: nat, tag: nat, next: int)
    requires i <= |ts| && tag == Code((ts + [End])[i]) && next == Total((ts + [End])[..i + 1])
    requires (tag != 9 ==> i < |ts|) && (tag == 3 ==> PropAt(s, ts, i, n))
    requires tag != 3 ==> PartShifted(ts, i + 1, n) == PartShifted(ts, i, n)
    ensures Standing(s, ts, i, n, tag, next)
  {
  }

  /** What the walk reads at the i-th token. */
  lemma WalkStep(s: Bytes, ts: seq<Token>, i: nat, n: nat, es: seq<Event>, strs: Bytes)
    requires i <= |ts| && WritesAll(s, PartShifted(ts, i, n)) && StandsAll(ts, es, strs, false) && |strs| == n <= INT_MAX
    ensures var r := NextTag(s, Total((ts + [End])[..i])); Standing(s, ts, i, n, r.0, r.1)
  {
    hide *;
    PartAt(ts, i, n);
    NextTagWalks(s, PartShifted(ts, i, n), i);
    CodeIs(ts, es, i, strs);
    if Code((ts + [End])[i]) == 3 {
      WalkProp(s, ts, i, n, es, strs);
    } else {
      PartNext(ts, i, n);
    }
    StandingFrom(s, ts, i, n, Code((ts + [End])[i]), Total((ts + [End])[..i + 1]));
  }

  lemma CodeIs(ts: seq<Token>, es: seq<Event>, i: nat, strs: Bytes)
    requires i <= |ts| && StandsAll(ts, es, strs, false)
    ensures Code((ts + [End])[i]) != 9 <==> i < |ts|
    ensures Code((ts + [End])[i]) == 3 <==> i < |ts| && ts[i].Prop?
    ensures Code((ts + [End])[i]) != 3 ==> forall n :: Shift((ts + [End])[i], n) == (ts + [End])[i]
  {
    if i < |ts| { StandsOne(ts, es, i, strs); }
  }

  ghost predicate PropAt(s: Bytes, ts: seq<Token>, i: nat, n: nat) {
    && i < |ts| && ts[i].Prop?
    && var o := Total((ts + [End])[..i]);
       o + 12 <= |s| && Get32(s[o + 8..o + 12]) == ts[i].nameoff && 0 <= AsInt(ts[i].nameoff) + n < WORD
  }

  lemma WalkProp(s: Bytes, ts: seq<Token>, i: nat, n: nat, es: seq<Event>, strs: Bytes)
    requires i < |ts| && ts[i].Prop? && WritesAll(s, PartShifted(ts, i, n)) && StandsAll(ts, es, strs, false) && |strs| == n <= INT_MAX
    ensures PropAt(s, ts, i, n)
  {
    hide *;
    var part := PartShifted(ts, i, n);
    StandsProp(ts, es, i, strs);
    PartAt(ts, i, n);
    WritesAt(s, part, i);
    TotalAligned(part[..i]);
    PropLength(ts[i]);
    PropReads(s, Total(part[..i]), ts[i].nameoff, ts[i].value);
    PropAtFrom(s, ts, i, n);
  }

  lemma StandsProp(ts: seq<Token>, es: seq<Event>, i: nat, strs: Bytes)
    requires StandsAll(ts, es, strs, false) && i < |ts| && ts[i].Prop? && |strs| <= INT_MAX
    ensures ts[i].nameoff < WORD && 0 <= AsInt(ts[i].nameoff) + |strs| < WORD && (ts + [End])[i] == ts[i]
  {
    StandsOne(ts, es, i, strs);
  }

  lemma PropAtFrom(s: Bytes, ts: seq<Token>, i: nat, n: nat)
    requires i < |ts| && ts[i].Prop? && Total((ts + [End])[..i]) + 12 <= |s| && ts[i].nameoff < WORD
    requires Get32(s[Total((ts + [End])[..i]) + 8..Total((ts + [End])[..i]) + 12]) == ts[i].nameoff && 0 <= AsInt(ts[i].nameoff) + n < WORD
    ensures PropAt(s, ts, i, n)
  {
    hide Total, Get32;
  }

  lemma PropAtIs(s: Bytes, ts: seq<Token>, i: nat, n: nat)
    requires PropAt(s, ts, i, n)
    ensures i < |ts| && ts[i].Prop? && WORD == 0x1_0000_0000
    ensures var o := Total((ts + [End])[..i]);
      o + 12 <= |s| && Get32(s[o + 8..o + 12]) == ts[i].nameoff && 0 <= AsInt(ts[i].nameoff) + n < WORD
  {
  }

  lemma PropLength(t: Token)
    requires t.Prop?
    ensures 12 <= Len(t)
  {
  }

  lemma PartAt(ts: seq<Token>, i: nat, n: nat)
    requires i <= |ts|
    ensures var all, part := ts + [End], PartShifted(ts, i, n);
      |part| == |all| && part[i] == all[i] && Total(part[..i]) == Total(all[..i]) && Total(part[..i + 1]) == Total(all[..i + 1])
  {
    var all, part := ts + [End], PartShifted(ts, i, n);
    assert part[..i] == Shifted(all[..i], n);
    ShiftTotal(all[..i], n);
    assert part[..i + 1] == part[..i] + [all[i]] && all[..i + 1] == all[..i] + [all[i]];
    TotalAppend(part[..i], [all[i]]);
    TotalAppend(all[..i], [all[i]]);
  }

  lemma PartNext(ts: seq<Token>, i: nat, n: nat)
    requires i <= |ts|
    ensures var part := PartShifted(ts, i, n);
      |part| == |ts| + 1 && PartShifted(ts, i + 1, n) == part[..i] + [Shift((ts + [End])[i], n)] + part[i + 1..]
  {
    var all := ts + [End];
    assert Shifted(all[..i + 1], n) == Shifted(all[..i], n) + [Shift(all[i], n)];
  }

  /** Writing the offset over the distance shifts the token. */
  lemma WalkPatch(s: Bytes, ts: seq<Token>, i: nat, n: nat, es: seq<Event>, strs: Bytes)
    requires i < |ts| && ts[i].Prop? && WritesAll(s, PartShifted(ts, i, n))
    requires StandsAll(ts, es, strs, false) && |strs| == n <= INT_MAX
    requires 0 <= AsInt(ts[i].nameoff) + n < WORD && Total((ts + [End])[..i]) + 12 <= |s|
    ensures WritesAll(Patched(s, Total((ts + [End])[..i]) + 8, Word(AsInt(ts[i].nameoff) + n)), PartShifted(ts, i + 1, n))
  {
    hide *;
    var t, part := ts[i], PartShifted(ts, i, n);
    var all, o := ts + [End], Total((ts + [End])[..i]);
    var w := Word(AsInt(t.nameoff) + n);
    assert all[i] == t;
    PartAt(ts, i, n);
    PartNext(ts, i, n);
    WritesAt(s, part, i);
    ShiftWritten(s[o..o + Len(t)], t, n);
    var c := Patched(s[o..o + Len(t)], 8, w);
    WritesOne(c, Shift(t, n));
    WritesSplice(s, part, i, i + 1, c, [Shift(t, n)]);
    PatchedPart(s, o, Len(t), 8, w);
  }

  lemma StandsOne(ts: seq<Token>, es: seq<Event>, i: nat, strs: Bytes)
    requires StandsAll(ts, es, strs, false) && i < |ts|
    ensures i < |es| && Stands(ts[i], es[i], strs, false)
  {
  }

  lemma ShiftWritten(b: Bytes, t: Token, n: nat)
    requires t.Prop? && Writes(b, t) && 0 <= AsInt(t.nameoff) + n < WORD
    ensures 12 <= |b| && Writes(Patched(b, 8, Word(AsInt(t.nameoff) + n)), Shift(t, n))
  {
    var w := Word(AsInt(t.nameoff) + n);
    var c := Patched(b, 8, w);
    assert c[..4] == b[..4] && c[4..8] == b[4..8] && c[8..12] == w && c[12..12 + |t.value|] == b[12..12 + |t.value|];
    hide Word, Up4, IsStr;
  }

  lemma PatchedPart(s: Bytes, o: nat, n: nat, k: nat, w: Bytes)
    requires o + n <= |s| && k + |w| <= n
    ensures s[..o] + Patched(s[o..o + n], k, w) + s[o + n..] == Patched(s, o + k, w)
  {
  }

  lemma PatchedStruct(a: Bytes, b: Bytes, off: nat, size: nat, o: nat, w: Bytes, stroff: nat, strn: nat)
    requires off + size <= stroff && stroff + strn <= |a| && o + |w| <= size && b == Patched(a, off + o, w)
    ensures |b| == |a| && b[off..off + size] == Patched(a[off..off + size], o, w)
    ensures b[stroff..stroff + strn] == a[stroff..stroff + strn]
  {
  }

  lemma Inner(a: Bytes, off: nat, size: nat, o: nat)
    requires off + size <= |a| && o + 4 <= size
    ensures a[off + o..off + o + 4] == a[off..off + size][o..o + 4]
  {
    Inside(a, off, size, o, o + 4);
    assert off + (o + 4) == off + o + 4;
  }

  lemma Relocated(a: Bytes, b: Bytes, off: nat, size: nat, n: nat, total: nat)
    requires off + size + n <= total <= |a| && b == Patched(a, off + size, a[total - n..total - n + n])
    ensures |b| == |a| && b[off..off + size] == a[off..off + size]
    ensures b[off + size..off + size + n] == a[total - n..total]
  {
  }

  lemma ShiftedStands(ts: seq<Token>, es: seq<Event>, strs: Bytes)
    requires StandsAll(ts, es, strs, false) && |strs| <= INT_MAX
    ensures var all := Shifted(ts + [End], |strs|);
      |all| == |ts| + 1 && all[|ts|] == End && StandsAll(all[..|ts|], es, strs, true)
  {
    var all := Shifted(ts + [End], |strs|);
    forall i | 0 <= i < |ts| ensures Stands(all[i], es[i], strs, true) {
      assert Stands(ts[i], es[i], strs, false);
    }
  }

  lemma FoundInside(tab: Bytes, p: int, s: Bytes)
    requires IsStr(tab, p, s)
    ensures 0 <= p < |tab|
  {
  }

  lemma AddedString(s: Bytes, strs: Bytes)
    requires NoNul(s)
    ensures IsStr(s + [0] + strs, 0, s)
  {
    assert (s + [0] + strs)[..|s|] == s;
  }

  lemma BeginSpells(name: Bytes)
    requires NoNul(name)
    ensures BEGIN_NODE < WORD && ERR_NOSPACE != 0 && |Word(BEGIN_NODE) + (name + [0])| <= 4 + Up4(|name| + 1)
    ensures Spells(Word(BEGIN_NODE) + (name + [0]), 4 + Up4(|name| + 1), [BeginNode(name)])
    ensures forall strs: Bytes :: Stands(BeginNode(name), Begin(name), strs, false)
  {
    forall b: Bytes | |b| == 4 + Up4(|name| + 1) && b[..4 + (|name| + 1)] == Word(BEGIN_NODE) + (name + [0])
      ensures WritesAll(b, [BeginNode(name)])
    {
      BeginWritten(b, name);
      WritesOne(b, BeginNode(name));
    }
  }

  lemma EndSpells(tag: nat, t: Token)
    requires (tag == END_NODE && t == EndNode) || (tag == END && t == End)
    ensures tag < WORD && ERR_NOSPACE != 0 && Spells(Word(tag), 4, [t])
    ensures forall strs: Bytes :: Stands(EndNode, Event.Finish, strs, false)
  {
    forall b: Bytes | |b| == 4 && b[..4] == Word(tag) ensures WritesAll(b, [t]) {
      WritesOne(b, t);
    }
  }

  lemma PropSpells(nameoff: int, name: Bytes, value: Bytes, strs: Bytes)
    requires nameoff < 0 <= |strs| + nameoff && |strs| <= INT_MAX && |value| <= INT_MAX && IsStr(strs, |strs| + nameoff, name)
    ensures PROP < WORD && 0 <= WORD + nameoff < WORD && |value| < WORD && ERR_NOSPACE != 0
    ensures var w := Word(PROP) + Word(|value|) + Word(WORD + nameoff) + value;
      |w| <= 12 + Up4(|value|) && Spells(w, 12 + Up4(|value|), [Prop(WORD + nameoff, value)])
    ensures Stands(Prop(WORD + nameoff, value), Property(name, value), strs, false)
  {
    var w := Word(PROP) + Word(|value|) + Word(WORD + nameoff) + value;
    forall b: Bytes | |b| == 12 + Up4(|value|) && b[..12 + |value|] == w ensures WritesAll(b, [Prop(WORD + nameoff, value)]) {
      PropWritten(b, WORD + nameoff, value);
      WritesOne(b, Prop(WORD + nameoff, value));
    }
  }
}

/** A device tree blob in its buffer, and the tag walker (fdt.c). */
module FdtBlob {
  import opened Options
  import opened FdtTokens
  import opened FdtTree

  const FDT_MAGIC := 0xd00d_feed
  const FDT_SW_MAGIC := 0x2ff2_0112

  /** The header, decoded. */
  datatype Header = Header(
    magic: nat, totalsize: nat, offStruct: nat, offStrings: nat, offRsv: nat,
    version: nat, lastComp: nat, sizeStrings: nat, sizeStruct: nat) {

    /** fdt_header_size_(), from version 16 on. */
    function HeaderSize(): nat {
      if version <= 16 then 36 else 40
    }

    /** How far the structure block reaches: before version 17 the header does not say, and it may
        reach to the end of the blob. */
    function StructSize(): nat {
      if version >= 17 then sizeStruct else if offStruct <= totalsize then totalsize - offStruct else 0
    }

    /** How far the strings block reaches: before version 17 the readers do not look at its size. */
    function StringsSize(): nat {
      if version >= 17 then sizeStrings else if offStrings <= totalsize then totalsize - offStrings else 0
    }
  }

  /** 32-bit unsigned sum of two 32-bit values. */
  function Wrap32(n: nat): nat
    requires n < 2 * TWO32
  {
    if n < TWO32 then n else n - TWO32
  }

  predicate IsInt(n: int) {
    -INT_MAX - 1 <= n <= INT_MAX
  }

  /** A blob as a reader sees it: the header and the buffer's bytes. */
  datatype Blob = Blob(h: Header, mem: seq<byte>) {

    /** The structure block lies inside the blob and the blob inside its buffer. */
    predicate StructFits() {
      h.totalsize <= |mem| && h.totalsize <= INT_MAX && h.version >= 16
      && h.HeaderSize() <= h.offStruct && h.offStruct + h.StructSize() <= h.totalsize
    }

    /** A finished blob of version 16 or later that fdt_ro_probe_() accepts, with both blocks inside it. */
    predicate Readable() {
      StructFits() && h.magic == FDT_MAGIC && h.lastComp <= 17 && h.totalsize < INT_MAX
      && h.offStrings + h.StringsSize() <= h.totalsize
    }

    /** One of version 17, which the editors ask for. */
    predicate Fits() {
      Readable() && h.version == 17
    }

    function Struct(): seq<byte>
      requires StructFits()
    {
      mem[h.offStruct..h.offStruct + h.StructSize()]
    }

    function Strings(): Strs
      requires Readable()
    {
      Strs(mem[h.offStrings..h.offStrings + h.StringsSize()], 0)
    }

    function Toks(): Option<seq<Tok>>
      requires Readable()
    {
      Scan(Struct(), Strings())
    }

    function Tree(): Option<Tree>
      requires Readable()
    {
      BlobTree(Struct(), Strings())
    }

    /** A node starts at this offset. */
    predicate IsNode(off: int)
      requires Readable()
    {
      Tree().Some? && At(Tree().value, off).Some? && At(Tree().value, off).value.NodeT?
    }

    /** The node at an offset, with what follows it on its level. */
    function Node(off: int): (t: Tree)
      requires Readable() && IsNode(off)
      ensures t.NodeT?
    {
      At(Tree().value, off).value
    }

    /** A big-endian cell of the structure block. */
    function Ld32(pos: nat): (v: nat)
      requires StructFits() && h.offStruct <= pos && pos + 4 <= h.offStruct + h.StructSize()
      ensures v == Load32(Struct(), pos - h.offStruct)
    {
      Load32(mem, pos)
    }
  }

  /** fdt_offset_ptr(): where `len` bytes at a structure offset are, if they are inside. */
  function OffsetPtr(h: Header, offset: int, len: nat): (p: Option<nat>)
    requires IsInt(offset) && len < TWO32
    requires h.totalsize <= INT_MAX && h.offStruct + h.StructSize() <= h.totalsize
    ensures p.Some? <==> 0 <= offset && offset + len <= h.StructSize()
    ensures p.Some? ==> p.value == h.offStruct + offset
  {
    if offset < 0 then None
    else
      var abs := Wrap32(offset + h.offStruct);
      if abs < offset || Wrap32(abs + len) < abs || Wrap32(abs + len) > h.totalsize then None
      else if h.version >= 17 && (Wrap32(offset + len) < offset || Wrap32(offset + len) > h.sizeStruct) then None
      else Some(h.offStruct + offset)
  }

  /** What the walker reads at an offset of a structure block: the tag and the next offset,
      or FDT_END and an error. */
  function TagAt(s: seq<byte>, off: int): (int, int) {
    if off < 0 || off + 4 > |s| then (FDT_END, ERR_TRUNCATED)
    else
      var tag := Load32(s, off);
      if tag == FDT_BEGIN_NODE then
        var n := NulFrom(s, off + 4);
        if n == |s| then (FDT_END, ERR_BADSTRUCTURE) else (tag, Align4(n + 1))
      else if tag == FDT_PROP then
        if off + 8 > |s| || off + 12 + Load32(s, off + 4) > |s| then (FDT_END, ERR_BADSTRUCTURE)
        else (tag, Align4(off + 12 + Load32(s, off + 4)))
      else if tag == FDT_END_NODE || tag == FDT_NOP || tag == FDT_END then (tag, Align4(off + 4))
      else (FDT_END, ERR_BADSTRUCTURE)
  }

  /** At an aligned offset the walker reads the token that starts there. */
  lemma TagAtHead(s: seq<byte>, st: Strs, off: nat)
    requires off % 4 == 0 && off <= |s| && Head(s[off..], st).Some?
    ensures var t := Head(s[off..], st).value; TagAt(s, off) == (TagOf(t), off + Len(t))
  {
    hide Name;
    var v := s[off..];
    var t := Head(v, st).value;
    assert Load32(v, 0) == Load32(s, off);
    match t
    case Begin(_) =>
      var n := NulFrom(v, 4);
      assert s[off + n] == v[n];
      assert forall k :: off + 4 <= k < off + n ==> s[k] == v[k - off];
      assert NulFrom(s, off + 4) == off + n;
      Align4Sum(off, n + 1);
      Align4Sum(4, n - 4 + 1);
    case Prop(_, val) =>
      assert Load32(v, 4) == Load32(s, off + 4);
      Align4Sum(off, 12 + |val|);
      Align4Sum(12, |val|);
    case _ =>
      Align4Sum(off, 4);
  }

  /** The same, for a boundary of a well-formed stream. */
  lemma TagAtSuffix(s: seq<byte>, st: Strs, ts: seq<Tok>, off: int)
    requires Scan(s, st) == Some(ts) && Suffix(ts, off).Some? && Suffix(ts, off).value != []
    ensures var w := Suffix(ts, off).value;
            0 <= off <= |s| && off % 4 == 0
            && TagAt(s, off) == (TagOf(w[0]), off + Len(w[0])) && Suffix(ts, off + Len(w[0])) == Some(w[1..])
            && (!w[0].Fin? ==> w[1..] != [])
  {
    hide Head, Len, TagAt;
    ScanDec(s, st);
    SuffixEndsFin(ts, off);
    SuffixStep(ts, off);
    SuffixAligned(ts, off);
    SuffixScan(s, st, ts, off);
    ScanStep(s[off..], st, Suffix(ts, off).value);
    TagAtHead(s, st, off);
  }

  /** The name-skipping loop of fdt_next_tag(): stops behind the NUL. */
  method SkipName(b: Blob, start: nat) returns (off: nat, found: bool)
    requires b.StructFits() && start <= b.h.StructSize()
    ensures found <==> NulFrom(b.Struct(), start) < b.h.StructSize()
    ensures found ==> off == NulFrom(b.Struct(), start) + 1
  {
    hide OffsetPtr;
    ghost var s := b.Struct();
    var p := OffsetPtr(b.h, start, 1);
    off := start + 1;
    while p.Some? && b.mem[p.value] != 0
      invariant start < off <= |s| + 1
      invariant p.Some? <==> off <= |s|
      invariant p.Some? ==> p.value == b.h.offStruct + off - 1
      invariant NulFrom(s, start) == NulFrom(s, off - 1)
      decreases |s| - off
    {
      p := OffsetPtr(b.h, off, 1);
      off := off + 1;
    }
    found := p.Some?;
  }

  /** fdt_next_tag() */
  method NextTag(b: Blob, start: int) returns (tag: int, next: int)
    requires b.StructFits() && IsInt(start)
    ensures (tag, next) == TagAt(b.Struct(), start)
    ensures next >= 0 ==> start < next <= b.h.StructSize() + 3
    ensures next < 0 ==> tag == FDT_END && next >= -19
  {
    hide OffsetPtr, NulFrom, Load32;
    ghost var s := b.Struct();
    var p := OffsetPtr(b.h, start, 4);
    if p.None? {
      return FDT_END, ERR_TRUNCATED;
    }
    tag := b.Ld32(p.value);
    var off := start + 4;
    if tag == FDT_BEGIN_NODE {
      var found;
      off, found := SkipName(b, off);
      if !found {
        return FDT_END, ERR_BADSTRUCTURE;
      }
    } else if tag == FDT_PROP {
      p := OffsetPtr(b.h, off, 4);
      if p.None? {
        return FDT_END, ERR_BADSTRUCTURE;
      }
      var len := b.Ld32(p.value);
      var sum := Wrap32(len + off);
      if INT_MAX <= sum || sum < off {
        return FDT_END, ERR_BADSTRUCTURE;
      }
      off := off + 8 + len;
    } else if tag != FDT_END && tag != FDT_END_NODE && tag != FDT_NOP {
      return FDT_END, ERR_BADSTRUCTURE;
    }
    if OffsetPtr(b.h, start, off - start).None? {
      return FDT_END, ERR_BADSTRUCTURE;
    }
    next := Align4(off);
  }
}

/** The full check (fdt_check.c) and the header check (fdt.c). */
module FdtCheck {
  import opened Options
  import opened FdtTokens
  import opened FdtTree
  import opened FdtBlob
  import opened FdtEdit
  import opened FdtRo
  import opened FdtProps

  // ----- header and reservation map -----

  /** check_off_() */
  predicate CheckOff(hdrsize: nat, totalsize: nat, off: nat) {
    hdrsize <= off <= totalsize
  }

  /** check_block_() */
  predicate CheckBlock(hdrsize: nat, totalsize: nat, base: nat, size: nat)
    requires base < TWO32 && size < TWO32
  {
    CheckOff(hdrsize, totalsize, base) && Wrap32(base + size) >= base
      && CheckOff(hdrsize, totalsize, Wrap32(base + size))
  }

  /** The fields are 32-bit values and this is version 16 or later. */
  predicate Header16(h: Header) {
    h.version >= 16 && h.totalsize < TWO32 && h.offStruct < TWO32 && h.offStrings < TWO32 && h.offRsv < TWO32
    && h.sizeStrings < TWO32 && h.sizeStruct < TWO32
  }

  /** fdt_check_header(), from version 16 on */
  function CheckHeader(h: Header): int
    requires Header16(h)
  {
    var hdrsize := h.HeaderSize();
    if h.magic != FDT_MAGIC then ERR_BADMAGIC
    else if h.lastComp > 17 || h.version < h.lastComp then ERR_BADVERSION
    else if h.totalsize < hdrsize || h.totalsize > INT_MAX then ERR_TRUNCATED
    else if !CheckOff(hdrsize, h.totalsize, h.offRsv) then ERR_TRUNCATED
    else if h.version < 17 && !CheckOff(hdrsize, h.totalsize, h.offStruct) then ERR_TRUNCATED
    else if h.version >= 17 && !CheckBlock(hdrsize, h.totalsize, h.offStruct, h.sizeStruct) then ERR_TRUNCATED
    else if !CheckBlock(hdrsize, h.totalsize, h.offStrings, h.sizeStrings) then ERR_TRUNCATED
    else 0
  }

  /** The header names a version the library reads and puts every block between itself and the end. */
  predicate Sane(h: Header) {
    var n := if h.version < 17 then 36 else 40;
    h.magic == FDT_MAGIC && h.lastComp <= 17 && h.lastComp <= h.version && h.totalsize <= INT_MAX
    && n <= h.offRsv <= h.totalsize
    && n <= h.offStruct && h.offStruct + h.StructSize() <= h.totalsize
    && n <= h.offStrings && h.offStrings + h.sizeStrings <= h.totalsize
  }

  /** The header check passes exactly the sane headers: no 32-bit sum in it wraps unseen. What passes
      can be walked, and read when fdt_ro_probe_() accepts its size as well. */
  lemma HeaderExactly(b: Blob)
    requires Header16(b.h)
    ensures CheckHeader(b.h) == 0 <==> Sane(b.h)
    ensures Sane(b.h) && b.h.totalsize <= |b.mem| ==>
              b.StructFits() && b.h.offRsv <= b.h.totalsize && (b.Readable() <==> b.h.totalsize < INT_MAX)
  {
  }

  /** Entry `i` of the reservation map is the terminator. */
  predicate RsvEnd(b: Blob, i: nat)
    requires b.StructFits()
  {
    var p := b.h.offRsv + 16 * i;
    p + 16 <= b.h.totalsize && Load32(b.mem, p + 8) == 0 && Load32(b.mem, p + 12) == 0
  }

  /** fdt_num_mem_rsv() */
  method NumMemRsv(b: Blob) returns (n: int)
    requires b.StructFits() && b.h.offRsv <= b.h.totalsize
    ensures n >= 0 ==> RsvEnd(b, n) && forall i: nat :: i < n ==> !RsvEnd(b, i)
    ensures n < 0 ==> n == ERR_TRUNCATED && forall i: nat :: !RsvEnd(b, i)
  {
    hide Load32;
    n := 0;
    while b.h.offRsv + 16 * n <= b.h.totalsize - 16
      invariant n >= 0 && forall i: nat :: i < n ==> !RsvEnd(b, i)
      decreases b.h.totalsize - 16 * n
    {
      var p := b.h.offRsv + 16 * n;
      if Load32(b.mem, p + 8) == 0 && Load32(b.mem, p + 12) == 0 {
        return;
      }
      n := n + 1;
    }
    n := ERR_TRUNCATED;
  }

  // ----- the structure block -----

  /** Properties and NOPs, then at most one node, with an empty name and nothing behind it. */
  predicate TopLevel(t: Tree) {
    match t
    case Leaf => true
    case NopT(r) => TopLevel(r)
    case PropT(_, _, r) => TopLevel(r)
    case NodeT(n, _, r) => n == [] && r == Leaf
  }

  /** Said from outside: every node of the top level is nameless and the last thing there. */
  lemma {:induction false} TopLevelMeans(t: Tree, o: int, z: Tree)
    requires TopLevel(t) && At(t, o) == Some(z) && z.NodeT? && o + TSize(z) == TSize(t)
    ensures z.name == [] && z.rest == Leaf
    decreases t
  {
    hide Len, HLen, TSize, ItemLen;
    if o != 0 {
      AtBound(t, o);
      hide At;
      LevelStep(t, o, z);
      if t.NodeT? {
        LeafPlace(o - ItemLen(t), z);
      } else {
        TopLevelMeans(t.rest, o - ItemLen(t), z);
      }
    }
  }

  lemma LeafPlace(o: int, z: Tree)
    ensures At(Leaf, o) == Some(z) ==> z == Leaf
  {
  }

  lemma {:induction false} TopLevelElse(t: Tree) returns (o: int, z: Tree)
    requires !TopLevel(t)
    ensures At(t, o) == Some(z) && z.NodeT? && o + TSize(z) == TSize(t) && !(z.name == [] && z.rest == Leaf)
    decreases t
  {
    SmallTokens();
    SizeStep(t);
    hide Len, HLen, TSize;
    match t
    case NopT(r) =>
      o, z := TopLevelElse(r);
      AtBound(r, o);
      o := o + 4;
    case PropT(n, v, r) =>
      o, z := TopLevelElse(r);
      AtBound(r, o);
      o := o + Len(Prop(n, v));
    case NodeT(_, _, _) =>
      o, z := 0, t;
  }

  /** What the checker's loop accepts from a depth on. */
  predicate Passes(ts: seq<Tok>, depth: nat, expectEnd: bool)
    decreases |ts|
  {
    ts != [] && (expectEnd ==> ts[0].Fin?)
    && match ts[0]
       case Nop => Passes(ts[1..], depth, expectEnd)
       case Fin => depth == 0 && |ts| == 1
       case Begin(n) => (depth == 0 ==> n == []) && Passes(ts[1..], depth + 1, expectEnd)
       case End => depth > 0 && Passes(ts[1..], depth - 1, depth == 1)
       case Prop(_, _) => Passes(ts[1..], depth, expectEnd)
  }

  lemma {:induction false} PassesFlat(t: Tree, post: seq<Tok>, depth: nat)
    requires depth > 0
    ensures Passes(Flat(t) + post, depth, false) == Passes(post, depth, false)
  {
    var w := Flat(t) + post;
    match t
    case Leaf =>
      assert w == post;
    case NopT(r) =>
      assert w[1..] == Flat(r) + post;
      PassesFlat(r, post, depth);
    case PropT(_, _, r) =>
      assert w[1..] == Flat(r) + post;
      PassesFlat(r, post, depth);
    case NodeT(n, k, r) =>
      FlatNode(n, k, r, post);
      var v := [End] + (Flat(r) + post);
      assert w[1..] == Flat(k) + v && v[1..] == Flat(r) + post;
      PassesFlat(k, v, depth + 1);
      PassesFlat(r, post, depth);
  }

  lemma {:induction false} PassesTop(t: Tree)
    ensures Passes(Flat(t) + [Fin], 0, false) == TopLevel(t)
  {
    var w := Flat(t) + [Fin];
    match t
    case Leaf =>
      assert w == [Fin];
    case NopT(r) =>
      assert w[1..] == Flat(r) + [Fin];
      PassesTop(r);
    case PropT(_, _, r) =>
      assert w[1..] == Flat(r) + [Fin];
      PassesTop(r);
    case NodeT(n, k, r) =>
      FlatNode(n, k, r, [Fin]);
      var v := [End] + (Flat(r) + [Fin]);
      assert w[1..] == Flat(k) + v && v[1..] == Flat(r) + [Fin];
      PassesFlat(k, v, 1);
      FlatEmpty(r);
  }

  lemma FlatEmpty(t: Tree)
    ensures (Flat(t) + [Fin])[0].Fin? <==> t.Leaf?
  {
    SizeFlat(t);
  }

  /** What passes inside a node is the node's content and its end. */
  lemma {:induction false} PassesParse(ts: seq<Tok>, depth: nat)
    requires Passes(ts, depth, false)
    ensures Parse(ts).Some?
    ensures var (t, w) := Parse(ts).value; depth > 0 ==> w != [] && w[0].End? && Passes(w, depth, false)
    ensures depth == 0 ==> Parse(ts).value.1 == [Fin]
    decreases |ts|
  {
    match ts[0]
    case Fin =>
    case End =>
    case Nop => PassesParse(ts[1..], depth);
    case Prop(_, _) => PassesParse(ts[1..], depth);
    case Begin(n) =>
      PassesParse(ts[1..], depth + 1);
      var w := Parse(ts[1..]).value.1;
      if depth == 0 {
        assert Passes(w[1..], 0, true);
      } else {
        PassesParse(w[1..], depth);
      }
  }

  /** The checker's loop accepts exactly the streams of such trees. */
  lemma PassesIff(ts: seq<Tok>)
    ensures Passes(ts, 0, false) <==> TreeOf(ts).Some? && TopLevel(TreeOf(ts).value)
  {
    hide Passes, Parse, TopLevel, Flat;
    if Passes(ts, 0, false) {
      PassesParse(ts, 0);
    }
    if TreeOf(ts).Some? {
      var t := TreeOf(ts).value;
      TreeOfFlat(ts, t);
      PassesTop(t);
    }
  }

  // ----- the loop over the bytes -----

  /** The tokens from an offset on, which may lie in the padding behind the block. */
  ghost function Rest(s: seq<byte>, st: Strs, off: nat): Option<seq<Tok>> {
    if off <= |s| then Scan(s[off..], st) else None
  }

  ghost predicate PassesFrom(s: seq<byte>, st: Strs, off: nat, depth: nat, expectEnd: bool) {
    Rest(s, st, off).Some? && Passes(Rest(s, st, off).value, depth, expectEnd)
  }

  /** Where the walker reads a tag and no token starts, the tag is a property with a bad name. */
  lemma NoHead(s: seq<byte>, st: Strs, off: nat)
    requires off <= |s| && Head(s[off..], st).None? && TagAt(s, off).1 >= 0
    ensures TagAt(s, off).0 == FDT_PROP && off + 12 <= |s| && Name(st, Load32(s, off + 8)).None?
  {
    hide Name;
    var v := s[off..];
    assert Load32(v, 0) == Load32(s, off);
    if Load32(s, off) == FDT_PROP {
      assert Load32(v, 4) == Load32(s, off + 4);
      assert Load32(v, 8) == Load32(s, off + 8);
    }
  }

  /** One tag of the loop. */
  lemma PassesStep(s: seq<byte>, st: Strs, off: nat, depth: nat, e: bool)
    requires off % 4 == 0 && TagAt(s, off).1 >= 0
    ensures off + 4 <= |s|
    ensures var (tag, next) := TagAt(s, off);
            var h := Head(s[off..], st);
            next % 4 == 0
            && (tag == FDT_PROP && h.None? ==> !PassesFrom(s, st, off, depth, e))
            && (tag != FDT_PROP ==> h.Some?)
            && (h.Some? ==> tag == TagOf(h.value)
                            && PassesFrom(s, st, off, depth, e) ==
                               ((e ==> tag == FDT_END)
                                && match h.value
                                   case Nop => PassesFrom(s, st, next, depth, e)
                                   case Fin => depth == 0
                                   case Begin(n) => (depth == 0 ==> n == []) && PassesFrom(s, st, next, depth + 1, e)
                                   case End => depth > 0 && PassesFrom(s, st, next, depth - 1, depth == 1)
                                   case Prop(_, _) => PassesFrom(s, st, next, depth, e)))
  {
    TagBound(s, off);
    hide TagAt, Head, Len, Name, Load32;
    var h := Head(s[off..], st);
    if h.None? {
      NoHead(s, st, off);
    } else {
      TagAtHead(s, st, off);
      var n := Len(h.value);
      if off + n <= |s| {
        assert s[off..][n..] == s[off + n..];
      }
      TailTokens(s, st, off);
    }
  }

  lemma TagBound(s: seq<byte>, off: int)
    ensures TagAt(s, off).1 >= 0 ==> 0 <= off && off + 4 <= |s| && TagAt(s, off).1 % 4 == 0
  {
  }

  lemma TailTokens(s: seq<byte>, st: Strs, off: nat)
    requires off <= |s| && Head(s[off..], st).Some?
    ensures var t := Head(s[off..], st).value;
            Rest(s, st, off) == (if t.Fin? then Some([Fin])
                                 else var r := Rest(s, st, off + Len(t));
                                      if r.None? then None else Some([t] + r.value))
  {
    hide Head, Len;
    var n := Len(Head(s[off..], st).value);
    if off + n <= |s| {
      assert s[off..][n..] == s[off + n..];
    }
  }

  /** Nothing but NOPs before the end, which is all that can be read of a blob fdt_ro_probe_() finds too long. */
  ghost predicate OnlyNops(s: seq<byte>, off: nat)
    decreases |s| - off
  {
    off + 4 <= |s| && (Load32(s, off) == FDT_END || (Load32(s, off) == FDT_NOP && OnlyNops(s, off + 4)))
  }

  lemma OnlyNopsStep(s: seq<byte>, off: nat)
    requires off % 4 == 0
    ensures var (tag, next) := TagAt(s, off);
            OnlyNops(s, off) <==> next >= 0 && (tag == FDT_END || (tag == FDT_NOP && OnlyNops(s, next)))
  {
    hide Load32, NulFrom;
    Align4Sum(off, 4);
  }

  /** What the loop accepts of a blob, by what fdt_ro_probe_() says of its size. */
  ghost predicate Accepts(b: Blob)
    requires b.StructFits() && (b.h.totalsize < INT_MAX ==> b.Readable())
  {
    if b.h.totalsize < INT_MAX then b.Tree().Some? && TopLevel(b.Tree().value) else OnlyNops(b.Struct(), 0)
  }

  /** The same from an offset on. */
  ghost predicate AcceptsFrom(b: Blob, off: nat, depth: nat, expectEnd: bool)
    requires b.StructFits() && (b.h.totalsize < INT_MAX ==> b.Readable())
  {
    if b.h.totalsize < INT_MAX then PassesFrom(b.Struct(), b.Strings(), off, depth, expectEnd)
    else depth == 0 && !expectEnd && OnlyNops(b.Struct(), off)
  }

  lemma AcceptsStart(b: Blob)
    requires b.StructFits() && (b.h.totalsize < INT_MAX ==> b.Readable())
    ensures AcceptsFrom(b, 0, 0, false) <==> Accepts(b)
  {
    hide Scan, TreeOf, TopLevel, Passes;
    if b.h.totalsize < INT_MAX {
      assert b.Struct()[0..] == b.Struct();
      if b.Toks().Some? {
        PassesIff(b.Toks().value);
      }
    }
  }

  /** The loop of fdt_check_full(). */
  method CheckStructure(b: Blob) returns (r: int)
    requires b.StructFits() && (b.h.totalsize < INT_MAX ==> b.Readable())
    ensures r == 0 <==> Accepts(b)
  {
    hide TagAt, Head, PassesFrom, OnlyNops, Accepts, Name, Load32, NulFrom, BlobTree, Len;
    ghost var s := b.Struct();
    var next, depth, expectEnd := 0, 0, false;
    AcceptsStart(b);
    while true
      invariant 0 <= next <= |s| + 3 && next % 4 == 0 && 0 <= depth <= next
      invariant b.h.totalsize == INT_MAX ==> depth == 0 && !expectEnd
      invariant Accepts(b) == AcceptsFrom(b, next, depth, expectEnd)
      decreases |s| + 3 - next
    {
      var offset := next;
      var tag;
      tag, next := NextTag(b, offset);
      if b.h.totalsize == INT_MAX {
        OnlyNopsStep(s, offset);
        TagBound(s, offset);
      } else if next < 0 {
        CutShort(s, b.Strings(), offset, depth, expectEnd);
      } else {
        PassesStep(s, b.Strings(), offset, depth, expectEnd);
      }
      if next < 0 {
        return next;
      }
      if expectEnd && tag != FDT_END {
        return ERR_BADSTRUCTURE;
      }
      if tag == FDT_END {
        return if depth != 0 then ERR_BADSTRUCTURE else 0;
      } else if tag == FDT_BEGIN_NODE {
        depth := depth + 1;
        if depth > INT_MAX {
          return ERR_BADSTRUCTURE;
        }
        if depth == 1 {
          if b.h.totalsize == INT_MAX { // fdt_ro_probe_()
            return ERR_TRUNCATED;
          }
          var err, name := GetName(b, offset);
          HeadName(s, b.Strings(), offset);
          if err < 0 {
            return err;
          }
          if name != [] {
            return ERR_BADSTRUCTURE;
          }
        }
      } else if tag == FDT_END_NODE {
        if depth == 0 {
          return ERR_BADSTRUCTURE;
        }
        depth := depth - 1;
        if depth == 0 {
          expectEnd := true;
        }
      } else if tag == FDT_PROP {
        if b.h.totalsize == INT_MAX { // fdt_ro_probe_()
          return ERR_TRUNCATED;
        }
        HeadOfProp(s, b.Strings(), offset);
        var err, name, val := GetpropByOffset(b, offset);
        if err != 0 {
          return err;
        }
      } else if tag != FDT_NOP {
        return ERR_INTERNAL;
      }
    }
  }

  /** Where the walker finds no tag the stream does not go on. */
  lemma CutShort(s: seq<byte>, st: Strs, off: nat, depth: nat, e: bool)
    requires off % 4 == 0 && TagAt(s, off).1 < 0
    ensures !PassesFrom(s, st, off, depth, e)
  {
    hide TagAt, Head, Len;
    if off <= |s| && Head(s[off..], st).Some? {
      TagAtHead(s, st, off);
    }
  }

  /** A property tag is a property token exactly when its name resolves. */
  lemma HeadOfProp(s: seq<byte>, st: Strs, off: nat)
    requires TagAt(s, off).0 == FDT_PROP
    ensures off + 12 <= |s| && (Head(s[off..], st).Some? <==> Name(st, Load32(s, off + 8)).Some?)
  {
    hide Name;
    var v := s[off..];
    assert Load32(v, 0) == Load32(s, off) && Load32(v, 4) == Load32(s, off + 4) && Load32(v, 8) == Load32(s, off + 8);
  }

  /** fdt_check_full(), from version 16 on: acceptance says exactly that the header is sane, the reservation
      map ends, the structure block is a tree with at most one, nameless, top-level node, and every
      property name resolves. */
  method CheckFull(b: Blob, bufsize: nat) returns (r: int)
    requires Header16(b.h) && bufsize <= |b.mem|
    ensures r == 0 <==> b.h.HeaderSize() <= bufsize && Sane(b.h) && b.h.totalsize <= bufsize
                        && (exists i: nat :: RsvEnd(b, i)) && Accepts(b)
  {
    hide Accepts, CheckHeader, Sane, RsvEnd, Header16;
    HeaderExactly(b);
    if bufsize < 28 || bufsize < b.h.HeaderSize() {
      return ERR_TRUNCATED;
    }
    r := CheckHeader(b.h);
    if r != 0 {
      return;
    }
    if bufsize < b.h.totalsize {
      return ERR_TRUNCATED;
    }
    var n := NumMemRsv(b);
    if n < 0 {
      return n;
    }
    r := CheckStructure(b);
  }
}

/** NOP-based deletion (fdt_wip.c) and how it relates to cutting bytes out (fdt_rw.c). */
module FdtWip {
  import opened Options
  import opened FdtTokens
  import opened FdtTree
  import opened FdtBlob
  import opened FdtWalk
  import opened FdtRo
  import opened FdtProps
  import opened FdtEdit
  import opened FdtRw

  function NopBytes(m: nat): (x: seq<byte>)
    ensures |x| == 4 * m
  {
    if m == 0 then [] else NopBytes(m - 1) + Enc32(FDT_NOP)
  }

  lemma {:induction false} NopCells(m: nat)
    ensures forall i :: 0 <= i < m ==> Load32(NopBytes(m), 4 * i) == FDT_NOP
  {
    if m > 0 {
      NopCells(m - 1);
      var x := NopBytes(m - 1);
      forall i | 0 <= i < m ensures Load32(x + Enc32(FDT_NOP), 4 * i) == FDT_NOP {
        if i < m - 1 {
          assert Load32(x + Enc32(FDT_NOP), 4 * i) == Load32(x, 4 * i);
        } else {
          assert Load32(x + Enc32(FDT_NOP), 4 * i) == Load32(Enc32(FDT_NOP), 0);
        }
      }
    }
  }

  /** fdt_nop_region_() */
  method NopRegion(a: array<byte>, start: nat, len: nat)
    requires start + Align4(len) <= a.Length
    modifies a
    ensures a[..] == Over(old(a[..]), start, NopBytes(Align4(len) / 4))
  {
    hide Over, Enc32;
    var p, m := start, 0;
    OverEmpty(a[..], start);
    while p < start + len
      invariant p == start + 4 * m && p <= start + Align4(len)
      invariant a[..] == Over(old(a[..]), start, NopBytes(m))
    {
      Memcpy(a, p, Enc32(FDT_NOP));
      OverThen(old(a[..]), start, NopBytes(m), Enc32(FDT_NOP));
      p, m := p + 4, m + 1;
    }
  }

  lemma OverEmpty(s: seq<byte>, o: nat)
    requires o <= |s|
    ensures Over(s, o, []) == s
  {
  }

  /** NOPs over a node's bytes. */
  lemma NodeNopped(v: Blob, v': Blob, node: int, m: nat)
    requires v.Fits() && v'.Fits() && v.IsNode(node) && v'.Strings() == v.Strings()
    requires 0 <= node && 4 * m == NodeLen(v.Node(node)) && node + 4 * m <= v.h.sizeStruct
    requires v'.Struct() == Over(v.Struct(), node, NopBytes(m))
    ensures v'.Tree() == Some(Put(v.Tree().value, node, Nops(m, v.Node(node).rest)))
  {
    hide Scan, TreeOf, At, Dec, Flat, Extends, Put, TSize, HLen, NopBytes;
    var x := v.Node(node);
    ExtendsSelf(v.Strings());
    FrontSize(x.name, x.kids);
    NodeFront(x);
    NopCells(m);
    DecNops(NopBytes(m), v.Strings(), m);
    FlatNops(m, x.rest);
    SpliceBlob(v, v', node, Nops(m, x.rest), FlatFront(x.name, x.kids), Flat(Nops(m, Leaf)), Flat(x.rest), NopBytes(m));
  }

  lemma {:induction false} AlignedSize(t: Tree)
    ensures TSize(t) % 4 == 0
  {
    match t
    case Leaf =>
    case NopT(r) => AlignedSize(r);
    case PropT(_, v, r) =>
      AlignedSize(r);
      Aligned(12, Align4(|v|));
      Aligned(12 + Align4(|v|), TSize(r));
    case NodeT(n, k, r) =>
      AlignedSize(k);
      AlignedSize(r);
      Aligned(4, Align4(|n| + 1));
      Aligned(4 + Align4(|n| + 1), TSize(k));
      Aligned(4 + Align4(|n| + 1) + TSize(k), 4);
      Aligned(4 + Align4(|n| + 1) + TSize(k) + 4, TSize(r));
  }

  lemma NodeLenAligned(x: Tree)
    requires x.NodeT?
    ensures Align4(NodeLen(x)) == NodeLen(x) && NodeLen(x) == 4 * (NodeLen(x) / 4)
  {
    AlignedSize(x.kids);
    Aligned(4, Align4(|x.name| + 1));
    Aligned(4 + Align4(|x.name| + 1), TSize(x.kids));
    Aligned(4 + Align4(|x.name| + 1) + TSize(x.kids), 4);
  }

  /** fdt_nop_node() */
  method NopNode(f: Fdt, node: int) returns (err: int)
    requires f.View().Fits() && Disjoint(f.h) && NodeArg(f.View(), node)
    modifies f.buf
    ensures f.View().Fits()
    ensures err != 0 ==> err < 0 && f.View() == old(f.View())
    ensures err == 0 <==> old(f.View()).IsNode(node)
    ensures err == 0 ==>
              var v := old(f.View());
              f.View().Strings() == v.Strings()
              && f.View().Tree() == Some(Put(v.Tree().value, node, Nops(NodeLen(v.Node(node)) / 4, v.Node(node).rest)))
  {
    hide Scan, TreeOf, At, Dec, Flat, Extends, Put, TSize, HLen, TagAt, Over, NopBytes, Align4;
    ghost var v := f.View();
    var end := NodeEndOffset(f.View(), node);
    if v.IsNode(node) {
      NodeInside(v, node);
      InPropsStart(v, node);
      NodeLenAligned(v.Node(node));
    }
    if end < 0 {
      return end;
    }
    NopRegion(f.buf, f.h.offStruct + node, end - node);
    StoreBlocks(v, f.View(), node, NopBytes((end - node) / 4));
    NodeNopped(v, f.View(), node, (end - node) / 4);
    err := 0;
  }

  // ----- NOPs against bytes cut out -----

  /** The two ways to delete a node leave blobs that mean the same. */
  lemma {:induction false} NopMeansDeleted(t: Tree, off: int, m: nat)
    requires At(t, off).Some? && At(t, off).value.NodeT?
    ensures Strip(Put(t, off, Nops(m, At(t, off).value.rest))) == Strip(Put(t, off, At(t, off).value.rest))
  {
    var r := At(t, off).value.rest;
    StripNops(m, r);
    StripPut(t, off, Nops(m, r), r);
  }

  /** The same tag with the same content. */
  predicate SameHead(a: Tree, b: Tree) {
    match a
    case Leaf => b.Leaf?
    case NopT(_) => b.NopT?
    case PropT(n, v, _) => b.PropT? && b.name == n && b.val == v
    case NodeT(n, _, _) => b.NodeT? && b.name == n
  }

  lemma {:induction false} PutSize(t: Tree, off: int, u: Tree)
    requires At(t, off).Some?
    ensures TSize(Put(t, off, u)) == TSize(t) - TSize(At(t, off).value) + TSize(u)
    decreases t
  {
    hide Len, HLen;
    if off != 0 {
      match t
      case NopT(r) => PutSize(r, off - 4, u);
      case PropT(n, v, r) => PutSize(r, off - Len(Prop(n, v)), u);
      case NodeT(n, k, r) =>
        if off <= HLen(n) + TSize(k) {
          PutSize(k, off - HLen(n), u);
        } else {
          PutSize(r, off - (HLen(n) + TSize(k) + 4), u);
        }
    }
  }

  /** What was put at an offset is there. */
  lemma {:induction false} AtPut(t: Tree, off: int, u: Tree, q: nat)
    requires At(t, off).Some? && At(u, q).Some?
    ensures At(Put(t, off, u), off + q) == At(u, q)
    decreases t
  {
    hide Len, HLen, TSize, At, Put, ItemLen;
    AtBound(t, off);
    if off == 0 {
      PutStart(t, u);
    } else {
      AtSplit(t, off, u);
      var w := Put(t, off, u);
      if t.NodeT? && off <= HLen(t.name) + TSize(t.kids) {
        AtPut(t.kids, off - HLen(t.name), u, q);
        InKids(w, off - HLen(t.name) + q);
      } else {
        AtPut(t.rest, off - ItemLen(t), u, q);
        SameItem(t, w);
        AtBehind(w, off - ItemLen(t) + q);
      }
    }
  }

  lemma PutStart(t: Tree, u: Tree)
    ensures Put(t, 0, u) == u
  {
  }

  lemma SameItem(t: Tree, w: Tree)
    requires match t
             case NopT(_) => w.NopT?
             case PropT(n, v, _) => w.PropT? && w.name == n && w.val == v
             case NodeT(n, k, _) => w.NodeT? && w.name == n && w.kids == k
             case Leaf => w.Leaf?
    ensures ItemLen(w) == ItemLen(t)
  {
  }

  /** An edit that keeps the size moves nothing before or behind its level. */
  lemma {:induction false} PutKeeps(t: Tree, off: int, u: Tree, o: int)
    requires At(t, off).Some? && TSize(u) == TSize(At(t, off).value)
    requires At(t, o).Some? && (o < off || o > off + TSize(u))
    ensures At(Put(t, off, u), o).Some? && SameHead(At(t, o).value, At(Put(t, off, u), o).value)
    decreases t
  {
    hide Len, HLen, TSize;
    AtBound(t, off);
    AtBound(t, o);
    if o == 0 {
      PutHead(t, off, u);
    } else if off != 0 {
      match t
      case NopT(r) => PutKeeps(r, off - 4, u, o - 4);
      case PropT(n, v, r) => PutKeeps(r, off - Len(Prop(n, v)), u, o - Len(Prop(n, v)));
      case NodeT(n, k, r) => PutKeepsNode(t, off, u, o);
    }
  }

  lemma PutHead(t: Tree, off: int, u: Tree)
    requires off > 0 && At(t, off).Some?
    ensures SameHead(t, Put(t, off, u)) && At(Put(t, off, u), 0) == Some(Put(t, off, u))
  {
  }

  lemma {:induction false} PutKeepsNode(t: Tree, off: int, u: Tree, o: int)
    requires t.NodeT? && off > 0 && o > 0
    requires At(t, off).Some? && TSize(u) == TSize(At(t, off).value)
    requires At(t, o).Some? && (o < off || o > off + TSize(u))
    ensures At(Put(t, off, u), o).Some? && SameHead(At(t, o).value, At(Put(t, off, u), o).value)
    decreases t, 0
  {
    hide Len, HLen, TSize, SameHead;
    var NodeT(n, k, r) := t;
    var h, e := HLen(n), HLen(n) + TSize(k) + 4;
    if off <= h + TSize(k) {
      PutSize(k, off - h, u);
      if o <= h + TSize(k) {
        PutKeeps(k, off - h, u, o - h);
      } else {
        SameHeadSelf(At(r, o - e).value);
      }
    } else if o <= h + TSize(k) {
      SameHeadSelf(At(k, o - h).value);
    } else {
      PutKeeps(r, off - e, u, o - e);
    }
  }

  lemma SameHeadSelf(t: Tree)
    ensures SameHead(t, t)
  {
  }

  lemma {:induction false} NopsAt(m: nat, t: Tree, q: nat)
    requires At(t, q).Some?
    ensures TSize(Nops(m, t)) == 4 * m + TSize(t) && At(Nops(m, t), 4 * m + q) == At(t, q)
  {
    if m > 0 {
      NopsAt(m - 1, t, q);
    }
  }

  /** fdt_nop_node() moves no other node or property: every offset outside the node still has
      what it had. */
  lemma NopKeepsOffsets(t: Tree, off: int, o: int)
    requires At(t, off).Some? && At(t, off).value.NodeT?
    requires At(t, o).Some?
    requires var n := NodeLen(At(t, off).value); o < off || off + n <= o
    ensures var x := At(t, off).value;
            var t' := Put(t, off, Nops(NodeLen(x) / 4, x.rest));
            TSize(t') == TSize(t) && At(t', o).Some? && SameHead(At(t, o).value, At(t', o).value)
  {
    hide TSize, HLen, At, Put, SameHead, Align4;
    var x := At(t, off).value;
    var m := NodeLen(x) / 4;
    NodeLenAligned(x);
    SizeStep(x);
    assert At(x.rest, 0) == Some(x.rest) by { AtStart(x.rest); }
    NopsAt(m, x.rest, 0);
    var u := Nops(m, x.rest);
    PutSize(t, off, u);
    if off + 4 * m <= o <= off + TSize(u) {
      BehindNode(t, off, o);
      NopsAt(m, x.rest, o - off - 4 * m);
      AtPut(t, off, u, o - off);
      SameHeadSelf(At(t, o).value);
    } else {
      PutKeeps(t, off, u, o);
    }
  }

  /** Locations behind a node on its own level are locations of what follows it. */
  lemma BehindNode(t: Tree, off: int, o: int)
    requires At(t, off).Some? && At(t, off).value.NodeT? && At(t, o).Some?
    requires off + NodeLen(At(t, off).value) <= o <= off + TSize(At(t, off).value)
    ensures At(At(t, off).value.rest, o - off - NodeLen(At(t, off).value)) == At(t, o)
  {
    hide HLen;
    AtWithin(t, off, At(t, off).value, o - off);
  }

  // ----- adding and deleting -----

  lemma {:induction false} AddKidNew(t: Tree, name: seq<byte>)
    ensures At(AddKid(t, name), LeadLen(t)).Some?
    ensures At(AddKid(t, name), LeadLen(t)).value.NodeT? && At(AddKid(t, name), LeadLen(t)).value.name == name
            && At(AddKid(t, name), LeadLen(t)).value.kids == Leaf
  {
    hide Len;
    match t
    case NopT(r) => AddKidNew(r, name);
    case PropT(n, v, r) => AddKidNew(r, name);
    case _ =>
  }

  lemma EmptySize()
    ensures TSize(Leaf) == 0
  {
  }

  /** The node just added is at the offset returned. */
  lemma NewKidAt(t: Tree, parent: int, name: seq<byte>)
    requires At(t, parent).Some? && At(t, parent).value.NodeT?
    ensures var x := At(t, parent).value;
            var y := At(Put(t, parent, NodeT(x.name, AddKid(x.kids, name), x.rest)), NewKidOff(x, parent));
            y.Some? && y.value.NodeT? && NodeLen(y.value) == 8 + Align4(|name| + 1)
  {
    hide At, Put, AddKid, LeadLen, Align4, TSize;
    EmptySize();
    var x := At(t, parent).value;
    var u := NodeT(x.name, AddKid(x.kids, name), x.rest);
    AddKidNew(x.kids, name);
    InKids(u, LeadLen(x.kids));
    AtPut(t, parent, u, HLen(x.name) + LeadLen(x.kids));
  }

  /** fdt_add_subnode() and fdt_del_node() at the offset it returned: every byte of the blocks
      and the header are back. */
  method AddThenDelete(f: Fdt, parent: int, name: seq<byte>) returns (r: int, err: int)
    requires f.View().Fits() && NodeArg(f.View(), parent)
    requires 0 !in name && |name| + 64 <= INT_MAX
    modifies f, f.buf
    ensures f.View().Fits()
    ensures r >= 0 ==> err == 0
    ensures f.h == old(f.h) && f.View().Struct() == old(f.View()).Struct()
            && f.View().Strings() == old(f.View()).Strings()
  {
    hide Scan, TreeOf, At, Dec, Flat, Extends, Put, TSize, TagAt, FindKid, NodeBytes, AddKid, Over, LeadLen, Align4;
    ghost var v := f.View();
    err := 0;
    r := AddSubnode(f, parent, name);
    if r >= 0 {
      ghost var v1 := f.View();
      NewKidAt(v.Tree().value, parent, name);
      assert v1.IsNode(r);
      assert IsInt(r) && NodeArg(v1, r);
      err := DelNode(f, r);
      CutInserted(v.Struct(), r, NodeBytes(name));
    }
  }

  lemma CutInserted(s: seq<byte>, r: nat, x: seq<byte>)
    requires r <= |s|
    ensures var t := s[..r] + x + s[r..]; t[..r] + t[r + |x|..] == s
  {
  }
}

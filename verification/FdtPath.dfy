/** Ancestors and paths (fdt_ro.c): the flat walk finds the way down the tree. */
module FdtPath {
  import opened Options
  import opened FdtTokens
  import opened FdtTree
  import opened FdtBlob
  import opened FdtWalk
  import opened FdtRo

  /** A node on the way down: its offset and its name. */
  datatype Step = Step(off: int, name: seq<byte>)

  // ----- the way down, in the tree and in the stream -----

  /** The nodes from this level down to the one at offset `x`, which is last. */
  function Chain(off: int, t: Tree, x: int): (r: Option<seq<Step>>)
    ensures r.Some? ==> r.value != [] && off <= x < off + TSize(t) && r.value[|r.value| - 1].off == x
    decreases t
  {
    match t
    case Leaf => None
    case NopT(r) => Chain(off + 4, r, x)
    case PropT(n, v, r) => Chain(off + Len(Prop(n, v)), r, x)
    case NodeT(n, k, r) =>
      if x == off then Some([Step(off, n)])
      else
        var c := Chain(off + HLen(n), k, x);
        if c.Some? then Some([Step(off, n)] + c.value) else Chain(off + HLen(n) + TSize(k) + 4, r, x)
  }

  /** The same from the tokens, with the nodes still open in `c`; closing the first of them ends it. */
  function ChainT(off: int, w: seq<Tok>, c: seq<Step>, x: int): (r: Option<seq<Step>>)
    ensures r.Some? ==> off <= x
    decreases |w|
  {
    if w == [] then None
    else
      match w[0]
      case Begin(n) =>
        if off == x then Some(c + [Step(off, n)]) else ChainT(off + Len(w[0]), w[1..], c + [Step(off, n)], x)
      case End => if |c| <= 1 then None else ChainT(off + 4, w[1..], c[..|c| - 1], x)
      case Fin => None
      case _ => ChainT(off + Len(w[0]), w[1..], c, x)
  }

  /** fdt_next_node() keeps as many open nodes as its depth says. */
  lemma {:induction false} ChainNext(off: int, w: seq<Tok>, c: seq<Step>, x: int)
    requires c != []
    ensures match NextNodeT(off, w, |c| - 1)
            case ToNode(o, e, v) =>
              v != [] && v[0].Begin? && 1 <= e <= |c|
              && ChainT(off, w, c, x) == (if o == x then Some(c[..e] + [Step(o, v[0].name)])
                                          else ChainT(o + Len(v[0]), v[1..], c[..e] + [Step(o, v[0].name)], x))
            case Closed(_, e) => e == -1 && ChainT(off, w, c, x) == None
            case Ended => ChainT(off, w, c, x) == None
    decreases |w|
  {
    hide Len;
    SmallTokens();
    assert c[..|c|] == c;
    if w != [] && !w[0].Begin? && !w[0].Fin? && !(w[0].End? && |c| == 1) {
      var c' := if w[0].End? then c[..|c| - 1] else c;
      ChainNext(off + Len(w[0]), w[1..], c', x);
      assert forall e :: 0 <= e <= |c'| ==> c'[..e] == c[..e];
    }
  }

  /** The stream of a level leads down as the level does, or is passed over. */
  lemma {:induction false} ChainFlat(off: int, t: Tree, post: seq<Tok>, c: seq<Step>, x: int)
    requires c != []
    ensures ChainT(off, Flat(t) + post, c, x) ==
            if Chain(off, t, x).Some? then Some(c + Chain(off, t, x).value) else ChainT(off + TSize(t), post, c, x)
    decreases t
  {
    SmallTokens();
    SizeStep(t);
    hide Len, TSize;
    var w := Flat(t) + post;
    match t
    case Leaf =>
      assert w == post;
    case NopT(r) =>
      assert w[1..] == Flat(r) + post;
      ChainFlat(off + 4, r, post, c, x);
    case PropT(n, v, r) =>
      assert w[1..] == Flat(r) + post;
      ChainFlat(off + Len(Prop(n, v)), r, post, c, x);
    case NodeT(n, k, r) =>
      FlatNode(n, k, r, post);
      ChainNodeFlat(off, n, k, r, post, c, x);
  }

  lemma {:induction false} ChainNodeFlat(off: int, n: seq<byte>, k: Tree, r: Tree, post: seq<Tok>, c: seq<Step>, x: int)
    requires c != []
    ensures ChainT(off, [Begin(n)] + (Flat(k) + ([End] + (Flat(r) + post))), c, x) ==
            if Chain(off, NodeT(n, k, r), x).Some? then Some(c + Chain(off, NodeT(n, k, r), x).value)
            else ChainT(off + HLen(n) + TSize(k) + 4 + TSize(r), post, c, x)
    decreases NodeT(n, k, r), 0
  {
    hide Len, TSize, Flat;
    var v := [End] + (Flat(r) + post);
    var w := [Begin(n)] + (Flat(k) + v);
    var c' := c + [Step(off, n)];
    assert w[1..] == Flat(k) + v;
    if x != off {
      ChainFlat(off + HLen(n), k, v, c', x);
      ChainFlat(off + HLen(n) + TSize(k) + 4, r, post, c, x);
      CloseStep(off + HLen(n) + TSize(k), Flat(r) + post, c, Step(off, n), x);
      var d := Chain(off + HLen(n), k, x);
      if d.Some? {
        assert c' + d.value == c + ([Step(off, n)] + d.value);
      }
    }
  }

  /** Closing a node goes back to the nodes around it. */
  lemma CloseStep(off: int, w: seq<Tok>, c: seq<Step>, s: Step, x: int)
    requires c != []
    ensures ChainT(off, [End] + w, c + [s], x) == ChainT(off + 4, w, c, x)
  {
    assert ([End] + w)[1..] == w && (c + [s])[..|c + [s]| - 1] == c;
  }

  // ----- blobs with one root at offset 0 -----

  /** A checked blob whose root is its first token. */
  predicate Rooted(b: Blob)
    requires b.Readable()
  {
    b.Tree().Some? && b.Tree().value.NodeT? && b.Tree().value.name == [] && b.Tree().value.rest == Leaf
  }

  /** Where the root ends. */
  ghost function RootEnd(b: Blob): int
    requires b.Readable() && Rooted(b)
  {
    HLen([]) + TSize(b.Tree().value.kids) + 4
  }

  lemma BehindRoot(b: Blob)
    requires b.Readable() && Rooted(b)
    ensures Rejected(b, RootEnd(b))
  {
    hide Scan, TreeOf, TagAt, Len, Suffix, TSize;
    var t, o := b.Tree().value, RootEnd(b);
    assert At(t, o) == Some(Leaf);
    hide At;
    TreeOfFlat(b.Toks().value, t);
    var post := AtSuffix(t, o);
    assert Flat(Leaf) + post == post;
    TagAtSuffix(b.Struct(), b.Strings(), b.Toks().value, o);
  }

  /** The walk starts inside the root. */
  lemma WalkStart(b: Blob, x: int)
    requires b.Readable() && Rooted(b)
    ensures var (ts, c) := (b.Toks(), [Step(0, [])]);
            Inner(ts, 0).Some? && CloseT(InnerOff(ts, 0), Inner(ts, 0).value, 0) == Some(RootEnd(b))
            && Chain(0, b.Tree().value, x) == if x == 0 then Some(c)
              else ChainT(InnerOff(ts, 0), Inner(ts, 0).value, c, x)
  {
    hide Scan, TreeOf, CloseT, Inner, InnerOff, FindSubT, FindKid, TSize, HLen;
    var t := b.Tree().value;
    assert b.Node(0) == t;
    WalksAt(b, 0, None);
    var post := InnerNode(b.Struct(), b.Strings(), t, 0, [], t.kids, Leaf);
    var c := [Step(0, [])];
    ChainFlat(HLen([]), t.kids, [End] + (Flat(Leaf) + post), c, x);
  }

  /** What is known at each node of the walk. */
  ghost predicate Walking(b: Blob, x: int, offset: int, depth: int, c: seq<Step>)
    requires b.Readable() && Rooted(b)
  {
    var ts := b.Toks();
    0 <= offset && 0 <= depth && |c| == depth + 1 && c[depth].off == offset && Inner(ts, offset).Some?
    && c[depth].name == NameAt(ts, offset)
    && CloseT(InnerOff(ts, offset), Inner(ts, offset).value, depth) == Some(RootEnd(b))
    && Chain(0, b.Tree().value, x) ==
       if offset == x then Some(c) else ChainT(InnerOff(ts, offset), Inner(ts, offset).value, c, x)
  }

  /** One fdt_next_node() of the walk: down one level, or up some and on, or out. */
  lemma WalkOn(b: Blob, x: int, offset: int, depth: int, c: seq<Step>, r: int, d: int) returns (c': seq<Step>)
    requires b.Readable() && Rooted(b) && Walking(b, x, offset, depth, c) && offset != x
    requires Returns(NextNodeT(InnerOff(b.Toks(), offset), Inner(b.Toks(), offset).value, depth), r, d)
    ensures r >= 0 && d >= 0 ==>
              1 <= d <= depth + 1 && Inner(b.Toks(), r).Some?
              && c' == c[..d] + [Step(r, NameAt(b.Toks(), r))] && Walking(b, x, r, d, c')
    ensures r >= 0 && d < 0 ==> d == -1 && r == RootEnd(b) && Rejected(b, r) && Chain(0, b.Tree().value, x).None?
    ensures r >= 0
  {
    hide Scan, TreeOf, CloseT, ChainT, Chain, NextNodeT, Suffix, HLen, TSize, Len, TagAt;
    var ts := b.Toks();
    var o, w := InnerOff(ts, offset), Inner(ts, offset).value;
    InnerNext(ts.value, offset, depth);
    CloseNext(o, w, depth);
    ChainNext(o, w, c, x);
    BehindRoot(b);
    c' := [];
    hide Inner, InnerOff, NameAt;
    match NextNodeT(o, w, depth)
    case ToNode(o', e, v) => c' := c[..e] + [Step(o', v[0].name)];
    case _ =>
  }

  // ----- supernodes -----

  /** fdt_supernode_atdepth_offset() */
  method SupernodeAtdepthOffset(b: Blob, nodeoffset: int, supernodedepth: int) returns (r: int, nodedepth: int)
    requires b.Readable() && IsInt(nodeoffset)
    ensures supernodedepth < 0 ==> r == ERR_NOTFOUND
    ensures Rooted(b) && supernodedepth >= 0 ==>
              var c := Chain(0, b.Tree().value, nodeoffset);
              if c.None? then r < 0
              else nodedepth == |c.value| - 1
                   && r == if supernodedepth < |c.value| then c.value[supernodedepth].off else ERR_NOTFOUND
  {
    hide Walking, Chain, Scan, TreeOf, NextNodeT, Inner, InnerOff, TagAt;
    nodedepth := 0;
    if supernodedepth < 0 {
      return ERR_NOTFOUND, nodedepth;
    }
    ghost var ok, c := Rooted(b), [Step(0, [])];
    if ok {
      WalkFirst(b, nodeoffset);
    }
    var offset, depth, super := 0, 0, ERR_INTERNAL;
    while offset >= 0 && offset <= nodeoffset
      invariant offset <= b.h.StructSize() + 3
      invariant ok && offset >= 0 && depth >= 0 ==> Walking(b, nodeoffset, offset, depth, c) && |c| == depth + 1
                                                    && (supernodedepth < depth ==> super == c[supernodedepth].off)
      invariant ok && offset >= 0 && depth < 0 ==> Rejected(b, offset) && Chain(0, b.Tree().value, nodeoffset).None?
      invariant ok && offset < 0 ==> offset >= -19 && Chain(0, b.Tree().value, nodeoffset).None?
      decreases offset >= 0, b.h.StructSize() + 3 - offset
    {
      if depth == supernodedepth {
        super := offset;
      }
      if ok && depth >= 0 {
        WalkAt(b, nodeoffset, offset, depth, c);
      }
      if offset == nodeoffset {
        return if supernodedepth > depth then ERR_NOTFOUND else super, depth;
      }
      var o, d := NextNode(b, offset, depth);
      if ok && depth >= 0 {
        c := WalkOn(b, nodeoffset, offset, depth, c, o, d);
      }
      offset, depth := o, d;
    }
    if ok && offset >= 0 && depth >= 0 {
      WalkPast(b, nodeoffset, offset, depth, c);
    }
    if offset == ERR_NOTFOUND || offset >= 0 {
      r := ERR_BADOFFSET;
    } else if offset == ERR_BADOFFSET {
      r := ERR_BADSTRUCTURE;
    } else {
      r := offset;
    }
  }

  lemma WalkFirst(b: Blob, x: int)
    requires b.Readable() && Rooted(b)
    ensures Walking(b, x, 0, 0, [Step(0, [])])
  {
    hide Scan, TreeOf, CloseT, ChainT, Chain, Inner, InnerOff, NameAt, HLen, TSize;
    WalkStart(b, x);
    assert b.Node(0) == b.Tree().value;
    NodeName(b, 0);
  }

  lemma WalkAt(b: Blob, x: int, offset: int, depth: int, c: seq<Step>)
    requires b.Readable() && Rooted(b) && Walking(b, x, offset, depth, c)
    ensures 0 <= offset < RootEnd(b) && c[depth].off == offset
            && (offset == x ==> Chain(0, b.Tree().value, x) == Some(c))
    ensures Inner(b.Toks(), offset).Some? && c[depth].name == NameAt(b.Toks(), offset)
  {
    hide Scan, TreeOf, CloseT, ChainT, Chain, NameAt, RootEnd, Suffix;
    CloseBehind(InnerOff(b.Toks(), offset), Inner(b.Toks(), offset).value, depth);
  }

  lemma {:induction false} CloseBehind(off: int, w: seq<Tok>, d: nat)
    ensures CloseT(off, w, d).Some? ==> off < CloseT(off, w, d).value
    decreases |w|
  {
    SmallTokens();
    hide Len;
    if w != [] && !w[0].Fin? && !(w[0].End? && d == 0) {
      CloseBehind(off + Len(w[0]), w[1..], if w[0].Begin? then d + 1 else if w[0].End? then d - 1 else d);
    }
  }

  lemma WalkPast(b: Blob, x: int, offset: int, depth: int, c: seq<Step>)
    requires b.Readable() && Rooted(b) && Walking(b, x, offset, depth, c) && offset > x
    ensures Chain(0, b.Tree().value, x).None?
  {
    hide Scan, TreeOf, CloseT, Chain, Suffix, Len;
  }

  /** fdt_node_depth() */
  method NodeDepth(b: Blob, nodeoffset: int) returns (r: int)
    requires b.Readable() && IsInt(nodeoffset)
    ensures Rooted(b) ==>
              var c := Chain(0, b.Tree().value, nodeoffset);
              if c.None? then r < 0 else r == |c.value| - 1
  {
    hide Scan, TreeOf;
    var err, nodedepth := SupernodeAtdepthOffset(b, nodeoffset, 0);
    if Rooted(b) && Chain(0, b.Tree().value, nodeoffset).Some? {
      ChainRoot(b.Tree().value, nodeoffset);
    }
    if err != 0 {
      return if err < 0 then err else ERR_INTERNAL;
    }
    return nodedepth;
  }

  lemma ChainRoot(t: Tree, x: int)
    requires t.NodeT? && t.rest == Leaf && Chain(0, t, x).Some?
    ensures Chain(0, t, x).value[0] == Step(0, t.name)
  {
  }

  /** fdt_parent_offset(): the node above, or NOTFOUND for the root. */
  method ParentOffset(b: Blob, nodeoffset: int) returns (r: int)
    requires b.Readable() && IsInt(nodeoffset)
    ensures Rooted(b) ==>
              var c := Chain(0, b.Tree().value, nodeoffset);
              if c.None? then r < 0
              else if |c.value| == 1 then r == ERR_NOTFOUND
              else r == c.value[|c.value| - 2].off && UnderParent(0, b.Tree().value, c.value)
  {
    hide Scan, TreeOf, Chain, UnderParent;
    if Rooted(b) && Chain(0, b.Tree().value, nodeoffset).Some? {
      ChainParent(0, b.Tree().value, nodeoffset);
    }
    var nodedepth := NodeDepth(b, nodeoffset);
    if nodedepth < 0 {
      return nodedepth;
    }
    var depth;
    r, depth := SupernodeAtdepthOffset(b, nodeoffset, nodedepth - 1);
  }

  // ----- the chain in the tree -----

  /** The nodes on a level. */
  function Kids(off: int, t: Tree): seq<Step>
    decreases t
  {
    match t
    case Leaf => []
    case NopT(r) => Kids(off + 4, r)
    case PropT(n, v, r) => Kids(off + Len(Prop(n, v)), r)
    case NodeT(n, k, r) => [Step(off, n)] + Kids(off + HLen(n) + TSize(k) + 4, r)
  }

  /** Every node of a level has a chain, and nothing else has. */
  lemma {:induction false} ChainNode(off: int, t: Tree, x: int)
    ensures Chain(off, t, x).Some? <==> At(t, x - off).Some? && At(t, x - off).value.NodeT?
    decreases t
  {
    SizeStep(t);
    hide TSize, Len, HLen;
    match t
    case Leaf =>
    case NopT(r) => ChainNode(off + 4, r, x);
    case PropT(n, v, r) => ChainNode(off + Len(Prop(n, v)), r, x);
    case NodeT(n, k, r) =>
      ChainNode(off + HLen(n), k, x);
      ChainNode(off + HLen(n) + TSize(k) + 4, r, x);
      if At(k, x - off - HLen(n)).Some? {
        AtBound(k, x - off - HLen(n));
      }
  }

  /** The last node of `c` is on this level, or among the kids of the node before it. */
  ghost predicate UnderParent(off: int, t: Tree, c: seq<Step>)
    requires c != []
  {
    if |c| == 1 then c[0] in Kids(off, t)
    else
      var p := c[|c| - 2];
      At(t, p.off - off).Some? && At(t, p.off - off).value.NodeT? && At(t, p.off - off).value.name == p.name
      && c[|c| - 1] in Kids(p.off + HLen(p.name), At(t, p.off - off).value.kids)
  }

  /** The last two nodes of a chain are parent and child. */
  lemma {:induction false} ChainParent(off: int, t: Tree, x: int)
    requires Chain(off, t, x).Some?
    ensures UnderParent(off, t, Chain(off, t, x).value)
    decreases t
  {
    hide UnderParent, Kids, At, Len, HLen, TSize;
    match t
    case NopT(r) =>
      ChainParent(off + 4, r, x);
      ParentLater(off, t, r, 4, Chain(off, t, x).value);
    case PropT(n, v, r) =>
      ChainParent(off + Len(Prop(n, v)), r, x);
      ParentLater(off, t, r, Len(Prop(n, v)), Chain(off, t, x).value);
    case NodeT(n, k, r) =>
      if x == off {
        ParentHere(off, t);
      } else if Chain(off + HLen(n), k, x).Some? {
        ChainParent(off + HLen(n), k, x);
        ParentInside(off, t, Chain(off + HLen(n), k, x).value);
      } else {
        ChainParent(off + HLen(n) + TSize(k) + 4, r, x);
        ParentLater(off, t, r, HLen(n) + TSize(k) + 4, Chain(off, t, x).value);
      }
  }

  lemma ParentHere(off: int, t: Tree)
    requires t.NodeT?
    ensures UnderParent(off, t, [Step(off, t.name)])
  {
  }

  lemma ParentLater(off: int, t: Tree, r: Tree, n: nat, c: seq<Step>)
    requires !t.Leaf? && r == t.rest && c != [] && UnderParent(off + n, r, c)
    requires n == match t
                  case NodeT(m, k, _) => HLen(m) + TSize(k) + 4
                  case PropT(m, v, _) => Len(Prop(m, v))
                  case _ => 4
    ensures UnderParent(off, t, c)
  {
    hide Len, HLen, TSize;
    if |c| > 1 {
      AtBound(r, c[|c| - 2].off - off - n);
      LaterAt(t, r, n, c[|c| - 2].off - off);
    }
  }

  lemma LaterAt(t: Tree, r: Tree, n: nat, o: int)
    requires !t.Leaf? && r == t.rest && n <= o
    requires n == match t
                  case NodeT(m, k, _) => HLen(m) + TSize(k) + 4
                  case PropT(m, v, _) => Len(Prop(m, v))
                  case _ => 4
    ensures At(t, o) == At(r, o - n)
  {
    hide HLen, TSize;
  }

  lemma ParentInside(off: int, t: Tree, c: seq<Step>)
    requires t.NodeT? && c != [] && UnderParent(off + HLen(t.name), t.kids, c)
    ensures UnderParent(off, t, [Step(off, t.name)] + c)
  {
    hide Len, HLen, TSize, Kids;
    var c' := [Step(off, t.name)] + c;
    assert c'[|c'| - 1] == c[|c| - 1];
    if |c| > 1 {
      assert c'[|c'| - 2] == c[|c| - 2];
      AtBound(t.kids, c[|c| - 2].off - off - HLen(t.name));
    }
  }
}

/** Merging an overlay node into a base tree (fdt_overlay.c). */
module FdtOverlay {
  import opened Options
  import opened FdtTokens
  import opened FdtTree
  import opened FdtBlob
  import opened FdtWalk
  import opened FdtRo
  import opened FdtProps
  import opened FdtEdit
  import opened FdtRw
  import opened FdtSetprop
  import opened FdtWip

  // ----- what merging means for the tree -----

  /** Every property of the overlay node is set in the base node. */
  function MergeProps(base: Tree, ov: Tree): Tree
    decreases ov
  {
    match ov
    case NopT(r) => MergeProps(base, r)
    case PropT(n, v, r) => MergeProps(SetProp(base, n, v), r)
    case _ => base
  }

  /** The base node's content with a child of that name for certain. */
  function WithKid(base: Tree, name: seq<byte>): Tree {
    if FindKid(0, base, Some(name)).Some? then base else AddKid(base, name)
  }

  /** Every subnode of the overlay node is merged into the first child of its name, a new one
      if there is none. */
  function MergeKids(base: Tree, ov: Tree): Tree
    decreases ov, 0
  {
    match ov
    case Leaf => base
    case NopT(r) => MergeKids(base, r)
    case PropT(_, _, r) => MergeKids(base, r)
    case NodeT(n, k, r) => MergeKids(MergeKid(WithKid(base, n), n, k), r)
  }

  function MergeKid(base: Tree, name: seq<byte>, ov: Tree): Tree
    decreases ov, 2, base
  {
    match base
    case Leaf => base
    case NopT(r) => NopT(MergeKid(r, name, ov))
    case PropT(n, v, r) => PropT(n, v, MergeKid(r, name, ov))
    case NodeT(n, k, r) => if NameEq(n, name) then NodeT(n, MergeNode(k, ov), r) else NodeT(n, k, MergeKid(r, name, ov))
  }

  /** overlay_apply_node() on the contents of the two nodes. */
  function MergeNode(base: Tree, ov: Tree): Tree
    decreases ov, 1
  {
    MergeKids(MergeProps(base, ov), ov)
  }

  // ----- locations -----

  lemma {:induction false} PutPut(t: Tree, off: int, u: Tree, v: Tree)
    requires At(t, off).Some?
    ensures Put(Put(t, off, u), off, v) == Put(t, off, v)
    decreases t
  {
    hide Len, HLen, TSize;
    if off != 0 {
      match t
      case NopT(r) => PutPut(r, off - 4, u, v);
      case PropT(n, w, r) => PutPut(r, off - Len(Prop(n, w)), u, v);
      case NodeT(n, k, r) =>
        if off <= HLen(n) + TSize(k) {
          PutPut(k, off - HLen(n), u, v);
          PutSize(k, off - HLen(n), u);
          AtBound(k, off - HLen(n));
        } else {
          PutPut(r, off - (HLen(n) + TSize(k) + 4), u, v);
        }
    }
  }

  /** The child a search finds, and merging into it. */
  lemma {:induction false} FindKidEdit(off: int, t: Tree, pat: Option<seq<byte>>)
    requires FindKid(off, t, pat).Some?
    ensures var q := FindKid(off, t, pat).value - off;
            At(t, q).Some? && At(t, q).value.NodeT? && Matches(At(t, q).value.name, pat)
    decreases t
  {
    hide Len, HLen, TSize, Matches;
    match t
    case NopT(r) =>
      FindKidEdit(off + 4, r, pat);
      AtBound(r, FindKid(off + 4, r, pat).value - off - 4);
    case PropT(n, v, r) =>
      var l := Len(Prop(n, v));
      FindKidEdit(off + l, r, pat);
      AtBound(r, FindKid(off + l, r, pat).value - off - l);
    case NodeT(n, k, r) =>
      if !Matches(n, pat) {
        var l := HLen(n) + TSize(k) + 4;
        FindKidEdit(off + l, r, pat);
        AtBound(r, FindKid(off + l, r, pat).value - off - l);
      }
  }

  lemma {:induction false} MergeKidEdit(off: int, t: Tree, name: seq<byte>, ov: Tree)
    requires FindKid(off, t, Some(name)).Some?
    ensures var q := FindKid(off, t, Some(name)).value - off;
            At(t, q).Some? && At(t, q).value.NodeT?
            && var x := At(t, q).value;
               Put(t, q, NodeT(x.name, MergeNode(x.kids, ov), x.rest)) == MergeKid(t, name, ov)
    decreases t
  {
    hide Len, HLen, TSize, NameEq, MergeNode;
    FindKidEdit(off, t, Some(name));
    match t
    case NopT(r) =>
      MergeKidEdit(off + 4, r, name, ov);
      AtBound(r, FindKid(off + 4, r, Some(name)).value - off - 4);
    case PropT(n, v, r) =>
      var l := Len(Prop(n, v));
      MergeKidEdit(off + l, r, name, ov);
      AtBound(r, FindKid(off + l, r, Some(name)).value - off - l);
    case NodeT(n, k, r) =>
      if !Matches(n, Some(name)) {
        var l := HLen(n) + TSize(k) + 4;
        MergeKidEdit(off + l, r, name, ov);
        AtBound(r, FindKid(off + l, r, Some(name)).value - off - l);
      }
  }

  /** The result of a search does not depend on where it starts, apart from the start. */
  lemma {:induction false} FindKidShift(off: int, t: Tree, pat: Option<seq<byte>>, d: int)
    ensures FindKid(off, t, pat).Some? <==> FindKid(off + d, t, pat).Some?
    ensures FindKid(off, t, pat).Some? ==> FindKid(off + d, t, pat).value == FindKid(off, t, pat).value + d
    decreases t
  {
    hide Len, HLen, TSize, Matches;
    match t
    case Leaf =>
    case NopT(r) => FindKidShift(off + 4, r, pat, d);
    case PropT(n, v, r) => FindKidShift(off + Len(Prop(n, v)), r, pat, d);
    case NodeT(n, k, r) => FindKidShift(off + HLen(n) + TSize(k) + 4, r, pat, d);
  }

  /** A node just added is the first match for its name. */
  lemma {:induction false} FindNewKid(off: int, t: Tree, name: seq<byte>)
    requires FindKid(off, t, Some(name)).None?
    ensures FindKid(off, AddKid(t, name), Some(name)) == Some(off + LeadLen(t))
    decreases t
  {
    hide Len, HLen, TSize, NameEq;
    match t
    case NopT(r) => FindNewKid(off + 4, r, name);
    case PropT(n, v, r) => FindNewKid(off + Len(Prop(n, v)), r, name);
    case _ => NameEqSelf(name);
  }

  // ----- the merge on the blobs -----

  /** `v` is the tree `t` with the content of the node `x` at `target` replaced by `c`. */
  ghost predicate Within(v: Blob, t: Tree, target: int, x: Tree, c: Tree) {
    v.Fits() && x.NodeT? && At(t, target) == Some(x) && v.Tree() == Some(Put(t, target, NodeT(x.name, c, x.rest)))
  }

  lemma WithinNode(v: Blob, t: Tree, target: int, x: Tree, c: Tree, c': Tree)
    requires Within(v, t, target, x, c)
    ensures v.IsNode(target) && v.Node(target) == NodeT(x.name, c, x.rest)
    ensures Put(v.Tree().value, target, NodeT(x.name, c', x.rest)) == Put(t, target, NodeT(x.name, c', x.rest))
  {
    hide At, Put, BlobTree;
    var y := NodeT(x.name, c, x.rest);
    AtStart(y);
    AtPut(t, target, y, 0);
    PutPut(t, target, y, NodeT(x.name, c', x.rest));
  }

  lemma WithinStart(v: Blob, target: int)
    requires v.Fits() && v.IsNode(target)
    ensures Within(v, v.Tree().value, target, v.Node(target), v.Node(target).kids)
  {
    hide BlobTree;
    PutSame(v.Tree().value, target);
  }

  lemma {:induction false} PutSame(t: Tree, off: int)
    requires At(t, off).Some?
    ensures Put(t, off, At(t, off).value) == t
    decreases t
  {
    hide Len, HLen, TSize;
    if off != 0 {
      match t
      case NopT(r) => PutSame(r, off - 4);
      case PropT(n, w, r) => PutSame(r, off - Len(Prop(n, w)));
      case NodeT(n, k, r) =>
        if off <= HLen(n) + TSize(k) {
          PutSame(k, off - HLen(n));
        } else {
          PutSame(r, off - (HLen(n) + TSize(k) + 4));
        }
    }
  }

  // ----- room -----

  /** Bytes that setting a property may take. */
  function PropNeed(name: seq<byte>, val: seq<byte>): nat {
    12 + Align4(|val|) + |name| + 1
  }

  /** Bytes that the properties in front of a level may take. */
  function PropsNeed(t: Tree): nat {
    match t
    case NopT(r) => PropsNeed(r)
    case PropT(n, v, r) => PropNeed(n, v) + PropsNeed(r)
    case _ => 0
  }

  /** Bytes that merging a node with this content may take: its own and those of its subnodes. */
  function Need(t: Tree): nat
    decreases t, 1
  {
    PropsNeed(t) + KidsNeed(t)
  }

  function KidsNeed(t: Tree): nat
    decreases t, 0
  {
    match t
    case Leaf => 0
    case NopT(r) => KidsNeed(r)
    case PropT(_, _, r) => KidsNeed(r)
    case NodeT(n, k, r) => 8 + Align4(|n| + 1) + Need(k) + KidsNeed(r)
  }

  function KidNeed(name: seq<byte>, kids: Tree): nat {
    8 + Align4(|name| + 1) + Need(kids)
  }

  predicate Roomy(h: Header, n: nat) {
    Ordered(h) && DataSize(h) + n <= h.totalsize
  }

  predicate Grew(h: Header, h': Header, n: nat) {
    Ordered(h') && h'.totalsize == h.totalsize && DataSize(h') <= DataSize(h) + n
  }

  lemma RoomLeft(h: Header, h': Header, a: nat, b: nat)
    requires Roomy(h, a + b) && Grew(h, h', a)
    ensures Roomy(h', b)
  {
  }

  lemma GrewThen(h: Header, h1: Header, h2: Header, a: nat, b: nat)
    requires Grew(h, h1, a) && Grew(h1, h2, b)
    ensures Grew(h, h2, a + b)
  {
  }

  /** Names and values of the overlay fit the 32-bit sums of the editor. */
  ghost predicate SmallOverlay(o: Blob) {
    o.Fits() && o.h.sizeStruct + o.h.sizeStrings + 64 <= INT_MAX
  }

  lemma SkipToProp(base: Tree, o: Blob, node: int, off: int, w: Tree)
    requires o.Fits() && InProps(o, node, off, w)
    ensures PropFrom(off, w).None? ==> MergeProps(base, w) == base && PropsNeed(w) == 0
    ensures PropFrom(off, w).Some? ==>
              var p := PropFrom(off, w).value;
              IsProp(o, p)
              && var y := PropAt(o, p);
                 InProps(o, node, p + Len(Prop(y.name, y.val)), y.rest)
                 && MergeProps(base, w) == MergeProps(SetProp(base, y.name, y.val), y.rest)
                 && PropsNeed(w) == PropNeed(y.name, y.val) + PropsNeed(y.rest)
  {
    hide At, BlobTree, TSize, HLen, SetProp, InProps;
    SkipNops(base, off, w);
    if PropFrom(off, w).Some? {
      GetPropertyStep(o, node, off, w, []);
      PropFromIs(o, node, off, w, base);
    }
  }

  lemma {:induction false} SkipNops(base: Tree, off: int, w: Tree)
    ensures PropFrom(off, w).None? ==> MergeProps(base, w) == base && PropsNeed(w) == 0
    decreases w
  {
    if w.NopT? {
      SkipNops(base, off + 4, w.rest);
    }
  }

  lemma {:induction false} PropFromIs(o: Blob, node: int, off: int, w: Tree, base: Tree)
    requires o.Fits() && InProps(o, node, off, w) && PropFrom(off, w).Some?
    ensures var y := At(o.Tree().value, PropFrom(off, w).value);
            y.Some? && MergeProps(base, w) == MergeProps(base, y.value) && PropsNeed(w) == PropsNeed(y.value)
    decreases w
  {
    hide At, BlobTree, TSize, HLen, SetProp;
    if w.NopT? {
      AtNext(o.Tree().value, off, w);
      SizeStep(w);
      PropFromIs(o, node, off + 4, w.rest, base);
    }
  }

  /** The property loop of overlay_apply_node(). */
  method ApplyProps(f: Fdt, target: int, o: Blob, node: int) returns (ret: int, ghost c: Tree)
    requires f.View().Fits() && f.View().IsNode(target) && IsInt(target)
    requires SmallOverlay(o) && o.IsNode(node) && IsInt(node)
    modifies f, f.buf
    ensures Within(f.View(), old(f.View()).Tree().value, target, old(f.View()).Node(target), c)
    ensures ret == 0 ==> c == MergeProps(old(f.View()).Node(target).kids, o.Node(node).kids)
    ensures ret <= 0
    ensures Roomy(old(f.h), PropsNeed(o.Node(node).kids)) ==>
              ret == 0 && Grew(old(f.h), f.h, PropsNeed(o.Node(node).kids))
  {
    hide At, BlobTree, TSize, HLen, Put, PropFrom, SetProp, MergeProps, InProps, Within, TagAt, Len, Same, SetNeed,
         PropsNeed, PropNeed, Roomy, Grew;
    ghost var t, x := f.View().Tree().value, f.View().Node(target);
    ghost var goal := MergeProps(x.kids, o.Node(node).kids);
    ghost var off, w := node + HLen(o.Node(node).name), o.Node(node).kids;
    c := x.kids;
    ghost var used: nat := 0;
    ghost var h0, need := f.h, PropsNeed(o.Node(node).kids);
    GrewNothing(h0, need);
    WithinStart(f.View(), target);
    InPropsStart(o, node);
    var property := FirstPropertyOffset(o, node);
    while property >= 0
      invariant Within(f.View(), t, target, x, c)
      invariant InProps(o, node, off, w) && IsAnswer(property, PropFrom(off, w)) && 0 <= off
                && property < o.h.sizeStruct
      invariant MergeProps(c, w) == goal && used + PropsNeed(w) == need && (Roomy(h0, need) ==> Grew(h0, f.h, used))
      decreases property >= 0, o.h.sizeStruct - property
    {
      SkipToProp(c, o, node, off, w);
      WithinNode(f.View(), t, target, x, c, c);
      var err, name, val := GetpropByOffset(o, property);
      if err < 0 {
        return err, c;
      }
      ghost var y, h1 := PropAt(o, property), f.h;
      if Roomy(h0, need) {
        RoomLeft(h0, h1, used, PropNeed(name, val) + PropsNeed(y.rest));
        RoomLess(h1, PropNeed(name, val), PropsNeed(y.rest));
      }
      ret := SetpropIn(f, target, name, val, t, x, c);
      if ret != 0 {
        return;
      }
      if Roomy(h0, need) {
        GrewThen(h0, h1, f.h, used, PropNeed(name, val));
      }
      used := used + PropNeed(name, val);
      c, off, w := SetProp(c, name, val), property + Len(Prop(y.name, y.val)), y.rest;
      property := NextPropertyOffset(o, property);
    }
    SkipToProp(c, o, node, off, w);
    ret := 0;
  }

  /** fdt_setprop() seen from the tree at the start of the merge. */
  method SetpropIn(f: Fdt, target: int, name: seq<byte>, val: seq<byte>, ghost t: Tree, ghost x: Tree, ghost c: Tree)
    returns (ret: int)
    requires Within(f.View(), t, target, x, c) && IsInt(target)
    requires 0 !in name && |name| + |val| + 64 <= INT_MAX
    modifies f, f.buf
    ensures ret <= 0 && Within(f.View(), t, target, x, if ret == 0 then SetProp(c, name, val) else c)
    ensures Roomy(old(f.h), PropNeed(name, val)) ==> ret == 0 && Grew(old(f.h), f.h, PropNeed(name, val))
  {
    hide At, BlobTree, TSize, HLen, Put, SetProp, TagAt, SetNeed;
    WithinNode(f.View(), t, target, x, c, SetProp(c, name, val));
    NeedBound(f.View(), target, name, |val|);
    ret := Setprop(f, target, name, val);
  }

  lemma NeedBound(v: Blob, node: int, name: seq<byte>, len: nat)
    requires v.Fits() && v.IsNode(node)
    ensures SetNeed(v, node, name, len) <= 12 + Align4(len) + |name| + 1
  {
    hide BlobTree, At, Align4;
  }

  lemma NodeNat(v: Blob, node: int)
    requires v.Fits() && v.IsNode(node)
    ensures 0 <= node
  {
    hide BlobTree;
    AtBound(v.Tree().value, node);
  }

  lemma GrewNothing(h: Header, n: nat)
    ensures Roomy(h, n) ==> Grew(h, h, 0)
  {
  }

  lemma RoomLess(h: Header, a: nat, b: nat)
    requires Roomy(h, a + b)
    ensures Roomy(h, a)
  {
  }

  /** The subnode a walk over the overlay's level reaches next, and what it merges. */
  lemma SkipToKid(base: Tree, o: Blob, node: int, off: int, w: Tree)
    requires o.Fits() && InProps(o, node, off, w) && node + HLen(o.Node(node).name) <= off
    ensures FindKid(off, w, None).None? ==> MergeKids(base, w) == base && KidsNeed(w) == 0
    ensures FindKid(off, w, None).Some? ==>
              var p := FindKid(off, w, None).value;
              o.IsNode(p)
              && var y := o.Node(p);
                 InProps(o, node, p + NodeLen(y), y.rest) && TSize(y.kids) < TSize(o.Node(node).kids)
                 && p + NodeLen(y) >= off && TSize(y.rest) < TSize(w)
                 && MergeKids(base, w) == MergeKids(MergeKid(WithKid(base, y.name), y.name, y.kids), y.rest)
                 && KidsNeed(w) == KidNeed(y.name, y.kids) + KidsNeed(y.rest)
    decreases w
  {
    hide At, BlobTree, TSize, HLen, WithKid, MergeKid, Len, Need, Align4;
    SizeStep(w);
    if !w.Leaf? {
      AtNext(o.Tree().value, off, w);
      match w
      case NopT(r) => SkipToKid(base, o, node, off + 4, r);
      case PropT(n, v, r) => SkipToKid(base, o, node, off + Len(Prop(n, v)), r);
      case NodeT(_, _, _) =>
    }
  }

  /** An edit inside a child, seen from the node above it. */
  lemma NestWithin(v1: Blob, v2: Blob, t: Tree, target: int, x: Tree, c: Tree, q: int, d: Tree)
    requires Within(v1, t, target, x, c) && At(c, q).Some? && At(c, q).value.NodeT?
    requires var nn := target + HLen(x.name) + q;
             v1.IsNode(nn) && Within(v2, v1.Tree().value, nn, v1.Node(nn), d)
    ensures v1.Node(target + HLen(x.name) + q) == At(c, q).value
    ensures var y := At(c, q).value; Within(v2, t, target, x, Put(c, q, NodeT(y.name, d, y.rest)))
  {
    hide At, Put, BlobTree, HLen;
    var y := At(c, q).value;
    var u := NodeT(y.name, d, y.rest);
    WithinNode(v1, t, target, x, c, Put(c, q, u));
    PutKids(v1.Tree().value, target, NodeT(x.name, c, x.rest), q, u);
  }

  lemma ChildNode(v: Blob, t: Tree, target: int, x: Tree, c: Tree, q: int)
    requires Within(v, t, target, x, c) && At(c, q).Some? && At(c, q).value.NodeT?
    ensures v.Fits() && v.IsNode(target + HLen(x.name) + q)
  {
    hide At, Put, BlobTree, HLen;
    WithinNode(v, t, target, x, c, c);
    PutKids(v.Tree().value, target, NodeT(x.name, c, x.rest), q, Leaf);
  }

  /** fdt_add_subnode(), or the subnode that is already there. */
  method EnsureKid(f: Fdt, target: int, name: seq<byte>, ghost t: Tree, ghost x: Tree, ghost c: Tree)
    returns (nnode: int, ghost c1: Tree)
    requires Within(f.View(), t, target, x, c) && IsInt(target)
    requires 0 !in name && |name| + 64 <= INT_MAX
    modifies f, f.buf
    ensures Within(f.View(), t, target, x, c1) && IsInt(nnode)
    ensures nnode >= 0 ==> c1 == WithKid(c, name)
                           && FindKid(target + HLen(x.name), c1, Some(name)) == Some(nnode)
    ensures Roomy(old(f.h), 8 + Align4(|name| + 1)) ==> nnode >= 0 && Grew(old(f.h), f.h, 8 + Align4(|name| + 1))
  {
    hide At, BlobTree, TSize, HLen, Put, TagAt, AddKid, FindKid, Align4, NodeBytes, LeadLen;
    c1 := c;
    var h := target + HLen(x.name);
    WithinNode(f.View(), t, target, x, c, AddKid(c, name));
    FindKidShift(0, c, Some(name), h);
    NodeNat(f.View(), target);
    nnode := AddSubnode(f, target, name);
    if nnode == ERR_EXISTS {
      nnode := SubnodeOffset(f.View(), target, name);
      if nnode == ERR_NOTFOUND {
        return ERR_INTERNAL, c1;
      }
    } else if nnode >= 0 {
      FindNewKid(h, c, name);
      c1 := AddKid(c, name);
    }
  }

  /** One subnode of overlay_apply_node(). */
  method ApplyKid(f: Fdt, target: int, o: Blob, subnode: int, ghost t: Tree, ghost x: Tree, ghost c: Tree)
    returns (ret: int, ghost c': Tree)
    requires x.NodeT? && Within(f.View(), t, target, x, c) && IsInt(target)
    requires SmallOverlay(o) && o.IsNode(subnode) && IsInt(subnode)
    modifies f, f.buf
    ensures ret <= 0 && Within(f.View(), t, target, x, c')
    ensures var y := o.Node(subnode); ret == 0 ==> c' == MergeKid(WithKid(c, y.name), y.name, y.kids)
    ensures var n := KidNeed(o.Node(subnode).name, o.Node(subnode).kids); Roomy(old(f.h), n) ==>
              ret == 0 && Grew(old(f.h), f.h, n)
    decreases TSize(o.Node(subnode).kids), 1
  {
    hide At, BlobTree, TSize, HLen, Put, FindKid, MergeKid, WithKid, Within, TagAt, MergeNode, Roomy, Grew, Need,
         Align4;
    var err, name := GetName(o, subnode);
    var nnode;
    ghost var h0, a, b := f.h, 8 + Align4(|name| + 1), Need(o.Node(subnode).kids);
    if Roomy(h0, a + b) {
      RoomLess(h0, a, b);
    }
    nnode, c' := EnsureKid(f, target, name, t, x, c);
    if nnode < 0 {
      return nnode, c';
    }
    ghost var h1 := f.h;
    if Roomy(h0, a + b) {
      RoomLeft(h0, h1, a, b);
    }
    ghost var q, v1, c1 := nnode - target - HLen(x.name), f.View(), c';
    MergeKidAt(target + HLen(x.name), c1, name, o.Node(subnode).kids);
    ChildNode(v1, t, target, x, c1, q);
    ghost var d;
    ret, d := ApplyNode(f, nnode, o, subnode);
    NestWithin(v1, f.View(), t, target, x, c1, q, d);
    if Roomy(h0, a + b) {
      GrewThen(h0, h1, f.h, a, b);
    }
    c' := Put(c1, q, NodeT(At(c1, q).value.name, d, At(c1, q).value.rest));
  }

  /** overlay_apply_node(): the base node becomes the merge of the two, whatever moved. */
  method ApplyNode(f: Fdt, target: int, o: Blob, node: int) returns (ret: int, ghost c: Tree)
    requires f.View().Fits() && f.View().IsNode(target) && IsInt(target)
    requires SmallOverlay(o) && o.IsNode(node) && IsInt(node)
    modifies f, f.buf
    ensures Within(f.View(), old(f.View()).Tree().value, target, old(f.View()).Node(target), c)
    ensures ret == 0 ==> c == MergeNode(old(f.View()).Node(target).kids, o.Node(node).kids)
    ensures ret <= 0
    ensures Roomy(old(f.h), Need(o.Node(node).kids)) ==> ret == 0 && Grew(old(f.h), f.h, Need(o.Node(node).kids))
    decreases TSize(o.Node(node).kids), 0
  {
    hide At, BlobTree, TSize, HLen, Put, FindKid, MergeProps, MergeKids, MergeKid, WithKid, InProps, Within, TagAt,
         Len, PropsNeed, KidsNeed, KidNeed, Roomy, Grew;
    ghost var t, x := f.View().Tree().value, f.View().Node(target);
    ghost var used: nat := PropsNeed(o.Node(node).kids);
    ghost var h0, need := f.h, Need(o.Node(node).kids);
    if Roomy(h0, need) {
      RoomLess(h0, used, KidsNeed(o.Node(node).kids));
    }
    ret, c := ApplyProps(f, target, o, node);
    if ret != 0 {
      return;
    }
    ghost var goal := MergeKids(c, o.Node(node).kids);
    ghost var off, w := node + HLen(o.Node(node).name), o.Node(node).kids;
    InPropsStart(o, node);
    var subnode := FirstSubnode(o, node);
    while subnode >= 0
      invariant Within(f.View(), t, target, x, c)
      invariant InProps(o, node, off, w) && node + HLen(o.Node(node).name) <= off
      invariant IsAnswer(subnode, FindKid(off, w, None)) && IsInt(subnode)
      invariant MergeKids(c, w) == goal && used + KidsNeed(w) == need && (Roomy(h0, need) ==> Grew(h0, f.h, used))
      decreases TSize(w)
    {
      SkipToKid(c, o, node, off, w);
      ghost var y, h1 := o.Node(subnode), f.h;
      ghost var n := KidNeed(y.name, y.kids);
      if Roomy(h0, need) {
        RoomLeft(h0, h1, used, n + KidsNeed(y.rest));
        RoomLess(h1, n, KidsNeed(y.rest));
      }
      ret, c := ApplyKid(f, target, o, subnode, t, x, c);
      if ret != 0 {
        return;
      }
      if Roomy(h0, need) {
        GrewThen(h0, h1, f.h, used, n);
      }
      used := used + n;
      off, w := subnode + NodeLen(o.Node(subnode)), o.Node(subnode).rest;
      subnode := NextSubnode(o, subnode);
    }
    SkipToKid(c, o, node, off, w);
    ret := 0;
  }

  lemma MergeKidAt(h: int, t: Tree, name: seq<byte>, ov: Tree)
    requires FindKid(h, t, Some(name)).Some?
    ensures var q := FindKid(h, t, Some(name)).value - h;
            At(t, q).Some? && At(t, q).value.NodeT?
            && var x := At(t, q).value;
               Put(t, q, NodeT(x.name, MergeNode(x.kids, ov), x.rest)) == MergeKid(t, name, ov)
  {
    hide MergeNode, MergeKid, FindKid;
    MergeKidEdit(h, t, name, ov);
  }
}

/** Stores into property values: the tree keeps its shape, and every offset its meaning. */
module FdtShape {
  import opened Options
  import opened FdtTokens
  import opened FdtTree
  import opened FdtBlob
  import opened FdtWalk
  import opened FdtProps
  import opened FdtEdit
  import opened FdtRw
  import opened FdtSetprop

  // ----- a store into a value -----

  /** The property token with a cell of its value overwritten. */
  lemma CellBytes(s: seq<byte>, st: Strs, po: nat, name: seq<byte>, val: seq<byte>, k: nat, cell: seq<byte>)
    requires PropBytes(s, st, po, name, val) && po + 12 + Align4(|val|) <= |s| && k + |cell| <= |val|
    ensures Dec(Over(s, po + 12 + k, cell)[po..po + 12 + Align4(|val|)], st, [Prop(name, Over(val, k, cell))])
  {
    hide Name, Align4, Dec, Load32, Over;
    var s', n := Over(s, po + 12 + k, cell), 12 + Align4(|val|);
    var y := s'[po..po + n];
    OverLoad(s, po + 12 + k, cell, po);
    OverLoad(s, po + 12 + k, cell, po + 4);
    OverLoad(s, po + 12 + k, cell, po + 8);
    SliceLoad(s', po, po + n, 0);
    SliceLoad(s', po, po + n, 4);
    SliceLoad(s', po, po + n, 8);
    OverSlice(s, po + 12, |val|, k, cell);
    SubSlice(s', po, po + n, 12, 12 + |val|);
    DecProp(y, st, Load32(s, po + 8), name, Over(val, k, cell));
  }

  /** A store into a value is an edit of that property alone. */
  lemma CellStored(v: Blob, v': Blob, po: nat, w: Tree, k: nat, cell: seq<byte>)
    requires v.Fits() && v'.Fits() && v.Tree().Some? && At(v.Tree().value, po) == Some(w) && w.PropT?
             && k + |cell| <= |w.val|
    requires v'.Strings() == v.Strings() && po + 12 + k + |cell| <= v.h.sizeStruct
    requires v'.Struct() == Over(v.Struct(), po + 12 + k, cell)
    ensures v'.Tree() == Some(Put(v.Tree().value, po, PropT(w.name, Over(w.val, k, cell), w.rest)))
  {
    hide Scan, TreeOf, At, Put, Dec, Extends, Flat, Name, Load32, Over;
    var s, s', st := v.Struct(), v'.Struct(), v.Strings();
    PropBytesAt(v, po, w);
    PropInside(v, po, w);
    CellBytes(s, st, po, w.name, w.val, k, cell);
    ExtendsSelf(st);
    var n := 12 + Align4(|w.val|);
    var u := PropT(w.name, Over(w.val, k, cell), w.rest);
    FlatProp(w);
    FlatProp(u);
    SizeOne(Prop(w.name, w.val));
    SpliceBlob(v, v', po, u, [Prop(w.name, w.val)], [Prop(u.name, u.val)], Flat(w.rest), s'[po..po + n]);
    OverBefore(s, po + 12 + k, cell, 0, po);
    OverAfter(s, po + 12 + k, cell, po + n, |s|);
    CutAt(s, s', po, n);
  }

  lemma FlatProp(w: Tree)
    requires w.PropT?
    ensures Flat(w) == [Prop(w.name, w.val)] + Flat(w.rest)
  {
  }

  lemma CutAt(s: seq<byte>, s': seq<byte>, po: nat, n: nat)
    requires |s| == |s'| && po + n <= |s| && s'[0..po] == s[0..po] && s'[po + n..|s|] == s[po + n..|s|]
    ensures s' == s[..po] + s'[po..po + n] + s[po + n..]
  {
    assert s'[0..po] == s'[..po] && s[0..po] == s[..po];
    assert s'[po + n..|s|] == s'[po + n..] && s[po + n..|s|] == s[po + n..];
  }

  // ----- shape -----

  /** The same tags and names with values of the same lengths. */
  predicate SameShape(t: Tree, u: Tree) {
    match t
    case Leaf => u.Leaf?
    case NopT(r) => u.NopT? && SameShape(r, u.rest)
    case PropT(n, v, r) => u.PropT? && u.name == n && |u.val| == |v| && SameShape(r, u.rest)
    case NodeT(n, k, r) => u.NodeT? && u.name == n && SameShape(k, u.kids) && SameShape(r, u.rest)
  }

  lemma {:induction false} ShapeSelf(t: Tree)
    ensures SameShape(t, t)
  {
    match t
    case Leaf =>
    case NopT(r) => ShapeSelf(r);
    case PropT(n, v, r) => ShapeSelf(r);
    case NodeT(n, k, r) =>
      ShapeSelf(k);
      ShapeSelf(r);
  }

  lemma {:induction false} ShapeThen(t: Tree, u: Tree, w: Tree)
    requires SameShape(t, u) && SameShape(u, w)
    ensures SameShape(t, w)
  {
    match t
    case Leaf =>
    case NopT(r) => ShapeThen(r, u.rest, w.rest);
    case PropT(n, v, r) => ShapeThen(r, u.rest, w.rest);
    case NodeT(n, k, r) =>
      ShapeThen(k, u.kids, w.kids);
      ShapeThen(r, u.rest, w.rest);
  }

  lemma {:induction false} ShapeSize(t: Tree, u: Tree)
    requires SameShape(t, u)
    ensures TSize(t) == TSize(u)
  {
    hide HLen;
    match t
    case Leaf =>
    case NopT(r) => ShapeSize(r, u.rest);
    case PropT(n, v, r) => ShapeSize(r, u.rest);
    case NodeT(n, k, r) =>
      ShapeSize(k, u.kids);
      ShapeSize(r, u.rest);
  }

  /** The same offsets lead to the same places. */
  lemma {:induction false} ShapeAt(t: Tree, u: Tree, off: int)
    requires SameShape(t, u)
    ensures At(t, off).Some? <==> At(u, off).Some?
    ensures At(t, off).Some? ==> SameShape(At(t, off).value, At(u, off).value)
    decreases t
  {
    hide HLen, TSize;
    if off > 0 {
      match t
      case Leaf =>
      case NopT(r) => ShapeAt(r, u.rest, off - 4);
      case PropT(n, v, r) => ShapeAt(r, u.rest, off - Len(Prop(n, v)));
      case NodeT(n, k, r) =>
        ShapeSize(k, u.kids);
        ShapeAt(k, u.kids, off - HLen(n));
        ShapeAt(r, u.rest, off - (HLen(n) + TSize(k) + 4));
    }
  }

  lemma ShapeItem(t: Tree, u: Tree)
    requires SameShape(t, u)
    ensures t.NodeT? ==> u.NodeT? && u.name == t.name && SameShape(t.kids, u.kids)
    ensures t.PropT? ==> u.PropT? && u.name == t.name && |u.val| == |t.val|
  {
  }

  lemma {:induction false} ShapeFindProp(off: int, t: Tree, u: Tree, name: seq<byte>)
    requires SameShape(t, u)
    ensures FindProp(off, t, name) == FindProp(off, u, name)
    decreases t
  {
    match t
    case NopT(r) => ShapeFindProp(off + 4, r, u.rest, name);
    case PropT(n, v, r) => ShapeFindProp(off + Len(Prop(n, v)), r, u.rest, name);
    case _ =>
  }

  lemma {:induction false} ShapeFindKid(off: int, t: Tree, u: Tree, pat: Option<seq<byte>>)
    requires SameShape(t, u)
    ensures FindKid(off, t, pat) == FindKid(off, u, pat)
    decreases t
  {
    hide Matches, HLen, TSize;
    match t
    case Leaf =>
    case NopT(r) => ShapeFindKid(off + 4, r, u.rest, pat);
    case PropT(n, v, r) => ShapeFindKid(off + Len(Prop(n, v)), r, u.rest, pat);
    case NodeT(n, k, r) =>
      ShapeSize(k, u.kids);
      ShapeFindKid(off + HLen(n) + TSize(k) + 4, r, u.rest, pat);
  }

  /** A property with another value of the same length. */
  lemma {:induction false} PutShape(t: Tree, po: int, val: seq<byte>)
    requires At(t, po).Some? && At(t, po).value.PropT? && |val| == |At(t, po).value.val|
    ensures SameShape(t, Put(t, po, PropT(At(t, po).value.name, val, At(t, po).value.rest)))
    decreases t
  {
    hide Len, HLen, TSize;
    if po == 0 {
      ShapeSelf(t.rest);
    } else {
      match t
      case NopT(r) => PutShape(r, po - 4, val);
      case PropT(n, v, r) => PutShape(r, po - Len(Prop(n, v)), val);
      case NodeT(n, k, r) =>
        ShapeSelf(k);
        ShapeSelf(r);
        if po <= HLen(n) + TSize(k) {
          PutShape(k, po - HLen(n), val);
        } else {
          PutShape(r, po - (HLen(n) + TSize(k) + 4), val);
        }
    }
  }
}

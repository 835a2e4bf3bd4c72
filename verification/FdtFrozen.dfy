/** A node that stores elsewhere leave alone. */
module FdtFrozen {
  import opened Options
  import opened FdtTokens
  import opened FdtTree
  import opened FdtBlob
  import opened FdtRw
  import opened FdtWip
  import opened FdtShape

  /** A store into a property outside a node leaves the node's content alone. */
  lemma {:induction false} KeepNode(t: Tree, po: int, u: Tree, q: int)
    requires At(t, po).Some? && At(t, po).value.PropT? && u.PropT? && |u.val| == |At(t, po).value.val|
             && u.rest == At(t, po).value.rest
    requires At(t, q).Some? && At(t, q).value.NodeT? && (po < q || q + NodeLen(At(t, q).value) <= po)
    ensures var y := At(Put(t, po, u), q);
            y.Some? && y.value.NodeT? && y.value.name == At(t, q).value.name && y.value.kids == At(t, q).value.kids
    decreases t
  {
    hide HLen, TSize;
    AtBound(t, po);
    AtBound(t, q);
    if q != 0 && po != 0 {
      match t
      case NopT(r) => KeepNode(r, po - 4, u, q - 4);
      case PropT(n, v, r) => KeepNode(r, po - Len(Prop(n, v)), u, q - Len(Prop(n, v)));
      case NodeT(n, k, r) => KeepInside(n, k, r, po, u, q);
    }
  }

  lemma {:induction false} KeepInside(n: seq<byte>, k: Tree, r: Tree, po: int, u: Tree, q: int)
    requires var t := NodeT(n, k, r);
             At(t, po).Some? && At(t, po).value.PropT? && u.PropT? && |u.val| == |At(t, po).value.val|
               && u.rest == At(t, po).value.rest
             && At(t, q).Some? && At(t, q).value.NodeT? && (po < q || q + NodeLen(At(t, q).value) <= po)
    requires po > 0 && q > 0
    ensures var t := NodeT(n, k, r);
            var y := At(Put(t, po, u), q);
            y.Some? && y.value.NodeT? && y.value.name == At(t, q).value.name && y.value.kids == At(t, q).value.kids
    decreases NodeT(n, k, r), 0
  {
    hide HLen, TSize;
    var e := HLen(n) + TSize(k) + 4;
    if po <= HLen(n) + TSize(k) {
      PutShape(k, po - HLen(n), u.val);
      SamePut(k, po - HLen(n), u);
      if q <= HLen(n) + TSize(k) {
        KeepNode(k, po - HLen(n), u, q - HLen(n));
      }
    } else if q > HLen(n) + TSize(k) {
      KeepNode(r, po - e, u, q - e);
    }
  }

  lemma SamePut(k: Tree, o: int, u: Tree)
    requires At(k, o).Some? && At(k, o).value.PropT? && u.PropT? && |u.val| == |At(k, o).value.val|
             && u.rest == At(k, o).value.rest
    ensures TSize(Put(k, o, u)) == TSize(k)
  {
    hide TSize;
    PutSize(k, o, u);
    SizeStep(u);
    SizeStep(At(k, o).value);
  }

  /** A property with a cell outside a node lies outside the node. */
  lemma PropOutside(t: Tree, po: int, k: nat, q: int)
    requires At(t, po).Some? && At(t, po).value.PropT? && k + 4 <= |At(t, po).value.val|
    requires At(t, q).Some? && At(t, q).value.NodeT?
    requires var l := po + 12 + k; l + 4 <= q || q + NodeLen(At(t, q).value) <= l
    ensures po < q || q + NodeLen(At(t, q).value) <= po
  {
    hide HLen, TSize;
    var x, w := At(t, q).value, At(t, po).value;
    SizeStep(x);
    if q <= po < q + NodeLen(x) {
      AtWithin(t, q, x, po - q);
      AtBound(x.kids, po - q - HLen(x.name));
      SizeStep(w);
    }
  }

  /** The fixups node: where it is, its name and its content. */
  datatype Fixups = Fixups(off: int, name: seq<byte>, kids: Tree)

  ghost predicate Frozen(v: Blob, fx: Fixups)
    requires v.Fits()
  {
    v.IsNode(fx.off) && v.Node(fx.off).name == fx.name && v.Node(fx.off).kids == fx.kids
  }

  /** Cells outside the fixups node. */
  ghost predicate Outside(ls: seq<int>, fx: Fixups) {
    forall i :: 0 <= i < |ls| ==> ls[i] + 4 <= fx.off || fx.off + HLen(fx.name) + TSize(fx.kids) + 4 <= ls[i]
  }

  lemma OutsideBoth(a: seq<int>, b: seq<int>, fx: Fixups)
    ensures Outside(a + b, fx) <==> Outside(a, fx) && Outside(b, fx)
  {
    assert forall i :: 0 <= i < |a| ==> (a + b)[i] == a[i];
    assert forall i :: 0 <= i < |b| ==> (a + b)[|a| + i] == b[i];
  }

  lemma OutsideOne(ls: seq<int>, i: nat, fx: Fixups)
    requires Outside(ls, fx) && i < |ls|
    ensures Outside([ls[i]], fx)
  {
  }

  lemma StoreFrozen(v: Blob, v': Blob, po: nat, w: Tree, k: nat, cell: seq<byte>, fx: Fixups)
    requires v.Fits() && v.Tree().Some? && At(v.Tree().value, po) == Some(w) && w.PropT? && k + 4 <= |w.val|
             && |cell| == 4
    requires v'.Fits() && v'.Strings() == v.Strings() && po + 12 + k + 4 <= v.h.sizeStruct
    requires v'.Struct() == Over(v.Struct(), po + 12 + k, cell) && Frozen(v, fx) && Outside([po + 12 + k], fx)
    ensures Frozen(v', fx)
  {
    hide At, Put, BlobTree, Over, HLen, TSize;
    assert [po + 12 + k][0] == po + 12 + k;
    CellStored(v, v', po, w, k, cell);
    PropOutside(v.Tree().value, po, k, fx.off);
    KeepNode(v.Tree().value, po, PropT(w.name, Over(w.val, k, cell), w.rest), fx.off);
  }
}

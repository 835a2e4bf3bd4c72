/** Renumbering an overlay's phandles (fdt_overlay.c): each is moved up by the same amount, in place. */
module FdtPhandle {
  import opened Options
  import opened FdtTokens
  import opened FdtTree
  import opened FdtBlob
  import opened FdtWalk
  import opened FdtRo
  import opened FdtProps
  import opened FdtEdit
  import opened FdtRw
  import opened FdtSetprop
  import opened FdtShape
  import opened FdtFrozen

  /** "phandle" and "linux,phandle" */
  const PHANDLE: seq<byte> := [112, 104, 97, 110, 100, 108, 101]
  const LINUX_PHANDLE: seq<byte> := [108, 105, 110, 117, 120, 44, 112, 104, 97, 110, 100, 108, 101]

  // ----- adding to cells -----

  /** The block with `d` added to the cell at `o`, as 32-bit addition. */
  function AddCell(s: seq<byte>, o: nat, d: nat): (r: seq<byte>)
    requires o + 4 <= |s| && d < TWO32
    ensures |r| == |s|
  {
    Over(s, o, Enc32(Wrap32(Load32(s, o) + d)))
  }

  predicate CellsIn(ls: seq<int>, n: nat) {
    forall i :: 0 <= i < |ls| ==> 0 <= ls[i] && ls[i] + 4 <= n
  }

  function AddCells(s: seq<byte>, ls: seq<int>, d: nat): (r: seq<byte>)
    requires CellsIn(ls, |s|) && d < TWO32
    ensures |r| == |s|
    decreases |ls|
  {
    if ls == [] then s else AddCells(AddCell(s, ls[0], d), ls[1..], d)
  }

  /** What overlay_phandle_add_offset() refuses: overflow, and the highest number. */
  predicate NoRoom(v: nat, d: nat) {
    v + d >= TWO32 - 1
  }

  /** Each cell has room for the addition when its turn comes. */
  predicate Roomy(s: seq<byte>, ls: seq<int>, d: nat)
    requires CellsIn(ls, |s|) && d < TWO32
    decreases |ls|
  {
    ls == [] || (!NoRoom(Load32(s, ls[0]), d) && Roomy(AddCell(s, ls[0], d), ls[1..], d))
  }

  lemma {:induction false} AddCellsThen(s: seq<byte>, a: seq<int>, b: seq<int>, d: nat)
    requires CellsIn(a, |s|) && CellsIn(b, |s|) && d < TWO32
    ensures CellsIn(a + b, |s|) && AddCells(s, a + b, d) == AddCells(AddCells(s, a, d), b, d)
    ensures Roomy(s, a + b, d) <==> Roomy(s, a, d) && Roomy(AddCells(s, a, d), b, d)
    decreases |a|
  {
    hide AddCell;
    if a == [] {
      assert a + b == b;
    } else {
      assert (a + b)[1..] == a[1..] + b && (a + b)[0] == a[0];
      AddCellsThen(AddCell(s, a[0], d), a[1..], b, d);
    }
  }

  /** Cells that do not overlap. */
  ghost predicate Apart(ls: seq<int>) {
    forall i, j :: 0 <= i < j < |ls| ==> ls[i] + 4 <= ls[j] || ls[j] + 4 <= ls[i]
  }

  lemma CellAfter(s: seq<byte>, o: nat, d: nat, p: nat)
    requires o + 4 <= |s| && p + 4 <= |s| && d < TWO32
    ensures Load32(AddCell(s, o, d), o) == Wrap32(Load32(s, o) + d)
    ensures p + 4 <= o || o + 4 <= p ==> Load32(AddCell(s, o, d), p) == Load32(s, p)
  {
    hide Load32, Over, Enc32;
    var x := Enc32(Wrap32(Load32(s, o) + d));
    OverLoad(s, o, x, o);
    OverLoad(s, o, x, p);
  }

  /** How often a location is listed. */
  function Times(ls: seq<int>, p: int): nat {
    if ls == [] then 0 else (if ls[0] == p then 1 else 0) + Times(ls[1..], p)
  }

  /** No listed cell overlaps the cell at `p` in part. */
  predicate Whole(ls: seq<int>, p: int) {
    forall i :: 0 <= i < |ls| ==> ls[i] == p || p + 4 <= ls[i] || ls[i] + 4 <= p
  }

  /** `k` 32-bit additions of `d`. */
  function Raised(v: nat, k: nat, d: nat): (r: nat)
    requires v < TWO32 && d < TWO32
    ensures r < TWO32
    decreases k
  {
    if k == 0 then v else Raised(Wrap32(v + d), k - 1, d)
  }

  /** A cell has been moved up as often as it is listed: not at all, once, or more. */
  lemma {:induction false} CellsAfter(s: seq<byte>, ls: seq<int>, d: nat, p: nat)
    requires CellsIn(ls, |s|) && Whole(ls, p) && d < TWO32 && p + 4 <= |s|
    ensures Load32(AddCells(s, ls, d), p) == Raised(Load32(s, p), Times(ls, p), d)
    decreases |ls|
  {
    hide AddCell, Load32, Wrap32;
    if ls != [] {
      var o, r := ls[0], ls[1..];
      CellAfter(s, o, d, p);
      assert forall i :: 0 <= i < |r| ==> r[i] == ls[i + 1];
      CellsAfter(AddCell(s, o, d), r, d, p);
    }
  }

  lemma {:induction false} TimesBoth(a: seq<int>, b: seq<int>, p: int)
    ensures Times(a + b, p) == Times(a, p) + Times(b, p)
    decreases |a|
  {
    if a == [] {
      assert a + b == b;
    } else {
      assert (a + b)[1..] == a[1..] + b;
      TimesBoth(a[1..], b, p);
    }
  }

  lemma {:induction false} TimesIn(ls: seq<int>, p: int)
    ensures Times(ls, p) > 0 <==> p in ls
  {
    if ls != [] {
      TimesIn(ls[1..], p);
    }
  }

  lemma {:induction false} OnceApart(ls: seq<int>, p: int)
    requires Apart(ls) && p in ls
    ensures Times(ls, p) == 1 && Whole(ls, p)
    decreases |ls|
  {
    var r := ls[1..];
    assert forall i :: 0 <= i < |r| ==> r[i] == ls[i + 1];
    TimesIn(r, p);
    if ls[0] != p {
      OnceApart(r, p);
    }
  }

  /** Cells that do not overlap have room one after another exactly when all of them have it at first. */
  predicate Room(s: seq<byte>, ls: seq<int>, d: nat) {
    forall i :: 0 <= i < |ls| ==> 0 <= ls[i] && ls[i] + 4 <= |s| && !NoRoom(Load32(s, ls[i]), d)
  }

  lemma {:induction false} RoomyExactly(s: seq<byte>, ls: seq<int>, d: nat)
    requires CellsIn(ls, |s|) && Apart(ls) && d < TWO32
    ensures Roomy(s, ls, d) <==> Room(s, ls, d)
    decreases |ls|
  {
    hide AddCell, Load32, NoRoom;
    if ls != [] {
      var o, r := ls[0], ls[1..];
      var s1 := AddCell(s, o, d);
      assert forall i :: 0 <= i < |r| ==> r[i] == ls[i + 1];
      forall i | 0 <= i < |r| ensures Load32(s1, r[i]) == Load32(s, r[i]) {
        CellAfter(s, o, d, r[i]);
      }
      RoomyExactly(s1, r, d);
      assert Room(s, r, d) <==> Room(s1, r, d);
      assert ls == [o] + r;
      assert Room(s, ls, d) <==> !NoRoom(Load32(s, o), d) && Room(s, r, d);
    }
  }

  lemma CanExactly(s: seq<byte>, ls: seq<int>, d: nat)
    requires Apart(ls) && d < TWO32
    ensures Can(s, ls, d) <==> Room(s, ls, d)
  {
    hide Roomy, Load32, Apart;
    if CellsIn(ls, |s|) {
      RoomyExactly(s, ls, d);
    }
  }

  /** All cells are inside and have room. */
  predicate Can(s: seq<byte>, ls: seq<int>, d: nat)
    requires d < TWO32
  {
    CellsIn(ls, |s|) && Roomy(s, ls, d)
  }

  ghost predicate Did(s: seq<byte>, ls: seq<int>, d: nat, s': seq<byte>)
    requires d < TWO32
  {
    Can(s, ls, d) && s' == AddCells(s, ls, d)
  }

  lemma DidThen(s: seq<byte>, a: seq<int>, s1: seq<byte>, b: seq<int>, d: nat)
    requires d < TWO32 && Did(s, a, d, s1)
    ensures Can(s, a + b, d) <==> Can(s1, b, d)
    ensures forall s2 :: Did(s1, b, d, s2) ==> Did(s, a + b, d, s2)
  {
    hide AddCells, Roomy;
    if CellsIn(b, |s|) {
      AddCellsThen(s, a, b, d);
    } else {
      LaterOut(a, b, |s|);
    }
  }

  lemma LaterOut(a: seq<int>, b: seq<int>, n: nat)
    requires !CellsIn(b, n)
    ensures !CellsIn(a + b, n)
  {
    var i :| 0 <= i < |b| && !(0 <= b[i] && b[i] + 4 <= n);
    assert (a + b)[|a| + i] == b[i];
  }

  /** What cannot be done first cannot be done at all. */
  lemma CannotFirst(s: seq<byte>, a: seq<int>, b: seq<int>, d: nat)
    requires d < TWO32
    ensures !Can(s, a, d) ==> !Can(s, a + b, d)
  {
    hide AddCells, Roomy;
    if CellsIn(a + b, |s|) {
      CellsSplit(a, b, |s|);
      AddCellsThen(s, a, b, d);
    }
  }

  lemma CellsSplit(a: seq<int>, b: seq<int>, n: nat)
    requires CellsIn(a + b, n)
    ensures CellsIn(a, n) && CellsIn(b, n)
  {
    assert forall i :: 0 <= i < |a| ==> (a + b)[i] == a[i];
    assert forall i :: 0 <= i < |b| ==> (a + b)[|a| + i] == b[i];
  }

  // ----- the phandles of a tree -----

  predicate OwnOk(t: Tree, name: seq<byte>) {
    FirstVal(t, name).None? || |FirstVal(t, name).value| == 4
  }

  /** Where the value of a node's first property of that name is. */
  function Own(off: int, t: Tree, name: seq<byte>): seq<int> {
    if FindProp(off, t, name).Some? then [FindProp(off, t, name).value + 12] else []
  }

  /** All phandle cells from a node's content on, in the order the nodes are visited. */
  function PhandleCells(off: int, t: Tree): seq<int>
    decreases t, 1
  {
    Own(off, t, PHANDLE) + (Own(off, t, LINUX_PHANDLE) + KidCells(off, t))
  }

  function KidCells(off: int, t: Tree): seq<int>
    decreases t, 0
  {
    match t
    case Leaf => []
    case NopT(r) => KidCells(off + 4, r)
    case PropT(n, v, r) => KidCells(off + Len(Prop(n, v)), r)
    case NodeT(n, k, r) => PhandleCells(off + HLen(n), k) + KidCells(off + HLen(n) + TSize(k) + 4, r)
  }

  /** Every phandle property has four bytes. */
  predicate PhandlesOk(t: Tree)
    decreases t, 1
  {
    OwnOk(t, PHANDLE) && OwnOk(t, LINUX_PHANDLE) && KidsOk(t)
  }

  predicate KidsOk(t: Tree)
    decreases t, 0
  {
    match t
    case Leaf => true
    case NopT(r) => KidsOk(r)
    case PropT(n, v, r) => KidsOk(r)
    case NodeT(n, k, r) => PhandlesOk(k) && KidsOk(r)
  }

  /** The first child and the rest of the level. */
  lemma {:induction false} KidsFrom(off: int, t: Tree)
    ensures FindKid(off, t, None).None? ==> KidCells(off, t) == [] && KidsOk(t)
    ensures FindKid(off, t, None).Some? ==>
              var p := FindKid(off, t, None).value;
              At(t, p - off).Some? && At(t, p - off).value.NodeT?
              && var y := At(t, p - off).value;
                 KidCells(off, t) == PhandleCells(p + HLen(y.name), y.kids) + KidCells(p + NodeLen(y), y.rest)
                 && (KidsOk(t) <==> PhandlesOk(y.kids) && KidsOk(y.rest)) && TSize(y.kids) < TSize(t)
                   && TSize(y.rest) < TSize(t)
    decreases t
  {
    SmallTokens();
    SizeStep(t);
    hide Len, TSize, HLen, PhandleCells, PhandlesOk;
    match t
    case Leaf =>
    case NopT(r) => KidsFrom(off + 4, r);
    case PropT(n, v, r) => KidsFrom(off + Len(Prop(n, v)), r);
    case NodeT(n, k, r) =>
  }

  // ----- one property -----

  /** A blob being renumbered: laid out so that stores keep it readable, and in the shape of `t`. */
  ghost predicate Live(v: Blob, t: Tree) {
    v.Fits() && Disjoint(v.h) && v.Tree().Some? && SameShape(t, v.Tree().value)
  }

  /** The fixups node, if there is one, is as it was. */
  ghost predicate Kept(v: Blob, fx: Option<Fixups>)
    requires v.Fits()
  {
    fx.Some? ==> Frozen(v, fx.value)
  }

  ghost predicate Away(ls: seq<int>, fx: Option<Fixups>) {
    fx.Some? ==> Outside(ls, fx.value)
  }

  lemma AwayBoth(a: seq<int>, b: seq<int>, fx: Option<Fixups>)
    ensures Away(a + b, fx) <==> Away(a, fx) && Away(b, fx)
  {
    hide Outside;
    if fx.Some? {
      OutsideBoth(a, b, fx.value);
    }
  }

  /** What a property search in the blob finds, in terms of the tree it has the shape of. */
  lemma NodeLive(v: Blob, t: Tree, node: int, x: Tree, name: seq<byte>)
    requires Live(v, t) && At(t, node) == Some(x) && x.NodeT?
    ensures 0 <= node && v.IsNode(node) && v.Node(node).name == x.name && SameShape(x.kids, v.Node(node).kids)
    ensures var o := FindProp(node + HLen(x.name), x.kids, name);
            o == FindProp(node + HLen(x.name), v.Node(node).kids, name)
            && (o.None? <==> FirstVal(x.kids, name).None?)
            && (o.Some? ==> At(v.Tree().value, o.value).Some? && At(v.Tree().value, o.value).value.PropT?
                            && |At(v.Tree().value, o.value).value.val| == |FirstVal(x.kids, name).value|)
  {
    hide FirstVal, BlobTree, HLen, At, FindProp, SameShape, Put, TSize;
    var t', h := v.Tree().value, node + HLen(x.name);
    AtBound(t, node);
    ShapeAt(t, t', node);
    ShapeItem(x, At(t', node).value);
    var y := v.Node(node);
    ShapeFindProp(h, x.kids, y.kids, name);
    FirstValAt(h, x.kids, name);
    FirstValAt(h, y.kids, name);
    var o := FindProp(h, x.kids, name);
    if o.Some? {
      ShapeAt(x.kids, y.kids, o.value - h);
      ShapeItem(At(x.kids, o.value - h).value, At(y.kids, o.value - h).value);
      PutKids(t', node, y, o.value - h, Leaf);
    }
  }

  lemma DidNothing(s: seq<byte>, d: nat)
    requires d < TWO32
    ensures Did(s, [], d, s)
  {
  }

  lemma DidOne(s: seq<byte>, o: nat, d: nat)
    requires d < TWO32 && o + 4 <= |s|
    ensures Can(s, [o], d) <==> !NoRoom(Load32(s, o), d)
    ensures Can(s, [o], d) ==> Did(s, [o], d, AddCell(s, o, d))
  {
    hide AddCell, Load32, NoRoom;
    var s1 := AddCell(s, o, d);
    assert [o][0] == o && [o][1..] == [] && CellsIn([o], |s|);
    assert Roomy(s1, [], d) && AddCells(s1, [], d) == s1;
    assert Roomy(s, [o], d) <==> !NoRoom(Load32(s, o), d);
  }

  /** A store of the same length into a value leaves the blob live. */
  lemma StoreLive(v: Blob, v': Blob, t: Tree, po: nat, w: Tree, k: nat, cell: seq<byte>)
    requires Live(v, t) && At(v.Tree().value, po) == Some(w) && w.PropT? && k + |cell| <= |w.val|
    requires v'.Fits() && v'.h == v.h && v'.Strings() == v.Strings() && po + 12 + k + |cell| <= v.h.sizeStruct
    requires v'.Struct() == Over(v.Struct(), po + 12 + k, cell)
    ensures Live(v', t)
  {
    hide SameShape, At, Put, BlobTree, Over;
    CellStored(v, v', po, w, k, cell);
    PutShape(v.Tree().value, po, Over(w.val, k, cell));
    ShapeThen(t, v.Tree().value, v'.Tree().value);
  }

  /** overlay_phandle_add_offset() */
  method PhandleAddOffset(f: Fdt, node: int, name: seq<byte>, delta: nat, ghost t: Tree, ghost x: Tree,
                          ghost fx: Option<Fixups>) returns (r: int)
    requires Live(f.View(), t) && At(t, node) == Some(x) && x.NodeT? && IsInt(node) && delta < TWO32
    requires Kept(f.View(), fx) && Away(Own(node + HLen(x.name), x.kids, name), fx)
    modifies f.buf
    ensures Live(f.View(), t) && Kept(f.View(), fx) && f.View().Strings() == old(f.View()).Strings()
    ensures var ls := Own(node + HLen(x.name), x.kids, name);
            if r == 0 || r == ERR_NOTFOUND then OwnOk(x.kids, name)
              && Did(old(f.View()).Struct(), ls, delta, f.View().Struct())
            else r < 0 && f.View() == old(f.View()) && !(OwnOk(x.kids, name) && Can(f.View().Struct(), ls, delta))
  {
    hide SameShape, At, HLen, FindProp, AddCell, Over, BlobTree, Load32, FirstVal, Can, Did, AddCells, Roomy, Frozen,
         Outside;
    ghost var v := f.View();
    NodeLive(v, t, node, x, name);
    var po := GetProperty(f.View(), node, name);
    if po < 0 {
      DidNothing(v.Struct(), delta);
      return po;
    }
    r := AddToCell(f, po, delta, t, At(v.Tree().value, po).value, fx);
  }

  /** The rest of overlay_phandle_add_offset(), once the property has been found. */
  method AddToCell(f: Fdt, po: nat, delta: nat, ghost t: Tree, ghost w: Tree, ghost fx: Option<Fixups>) returns (r: int)
    requires Live(f.View(), t) && At(f.View().Tree().value, po) == Some(w) && w.PropT? && delta < TWO32
    requires Kept(f.View(), fx) && Away([po + 12], fx)
    modifies f.buf
    ensures Live(f.View(), t) && Kept(f.View(), fx) && f.View().Strings() == old(f.View()).Strings()
    ensures if r == 0 then |w.val| == 4 && Did(old(f.View()).Struct(), [po + 12], delta, f.View().Struct())
            else r < 0 && r != ERR_NOTFOUND && f.View() == old(f.View())
                 && !(|w.val| == 4 && Can(f.View().Struct(), [po + 12], delta))
  {
    hide SameShape, At, AddCell, Over, BlobTree, Enc32, Load32, Name, Can, Did, AddCells, Roomy, Frozen, Outside;
    ghost var v := f.View();
    PropBytesAt(v, po, w);
    PropInside(v, po, w);
    var len := f.View().Ld32(f.h.offStruct + po + 4);
    if len != 4 {
      return ERR_BADPHANDLE;
    }
    var val := f.View().Ld32(f.h.offStruct + po + 12);
    DidOne(v.Struct(), po + 12, delta);
    if Wrap32(val + delta) < val || Wrap32(val + delta) == TWO32 - 1 {
      return ERR_NOPHANDLES;
    }
    Memcpy(f.buf, f.h.offStruct + po + 12, Enc32(Wrap32(val + delta)));
    StoreBlocks(v, f.View(), po + 12, Enc32(Wrap32(val + delta)));
    StoreLive(v, f.View(), t, po, w, 0, Enc32(Wrap32(val + delta)));
    if fx.Some? {
      assert [po + 12 + 0] == [po + 12];
      StoreFrozen(v, f.View(), po, w, 0, Enc32(Wrap32(val + delta)), fx.value);
    }
    AddCellIs(v.Struct(), po + 12, delta);
    r := 0;
  }

  lemma AddCellIs(s: seq<byte>, o: nat, d: nat)
    requires o + 4 <= |s| && d < TWO32
    ensures AddCell(s, o, d) == Over(s, o, Enc32(Wrap32(Load32(s, o) + d)))
  {
  }

  // ----- all nodes -----

  /** What a walk over the children finds, in terms of the tree the blob has the shape of. */
  lemma KidLive(v: Blob, t: Tree, off: int, w: Tree)
    requires Live(v, t) && At(t, off) == Some(w)
    ensures At(v.Tree().value, off).Some? && FindKid(off, w, None) == FindKid(off, At(v.Tree().value, off).value, None)
    ensures FindKid(off, w, None).Some? ==>
              var p := FindKid(off, w, None).value;
              At(t, p).Some? && At(t, p).value.NodeT? && p >= off >= 0
              && var y := At(t, p).value;
                 KidCells(off, w) == PhandleCells(p + HLen(y.name), y.kids) + KidCells(p + NodeLen(y), y.rest)
                 && (KidsOk(w) <==> PhandlesOk(y.kids) && KidsOk(y.rest)) && TSize(y.kids) < TSize(w)
                   && TSize(y.rest) < TSize(w)
    ensures FindKid(off, w, None).None? ==> KidCells(off, w) == [] && KidsOk(w)
  {
    hide BlobTree, KidCells, PhandleCells, PhandlesOk, KidsOk, HLen, TSize, FindKid;
    AtBound(t, off);
    ShapeAt(t, v.Tree().value, off);
    ShapeFindKid(off, w, At(v.Tree().value, off).value, None);
    KidsFrom(off, w);
    hide At;
    var p := FindKid(off, w, None);
    if p.Some? {
      AtCompose(t, off, w, p.value - off);
    }
  }

  lemma NodeParts(v: Blob, t: Tree, node: int, x: Tree)
    requires Live(v, t) && At(t, node) == Some(x) && x.NodeT?
    ensures 0 <= node && v.IsNode(node) && v.Node(node).name == x.name && TSize(v.Node(node).kids) == TSize(x.kids)
    ensures At(t, node + HLen(x.name)) == Some(x.kids) && At(t, node + NodeLen(x)) == Some(x.rest)
    ensures At(v.Tree().value, node + HLen(x.name)) == Some(v.Node(node).kids)
    ensures At(v.Tree().value, node + NodeLen(x)) == Some(v.Node(node).rest)
  {
    hide BlobTree, HLen, TSize;
    AtBound(t, node);
    ShapeAt(t, v.Tree().value, node);
    ShapeSize(x.kids, v.Node(node).kids);
    hide At;
    AtNext(t, node, x);
    AtNext(v.Tree().value, node, v.Node(node));
  }

  /** overlay_adjust_node_phandles(): every phandle cell below the node is moved up by `delta`, if all
      of them have four bytes and room; otherwise it fails. */
  method AdjustNodePhandles(f: Fdt, node: int, delta: nat, ghost t: Tree, ghost x: Tree, ghost fx: Option<Fixups>)
    returns (ret: int)
    requires Live(f.View(), t) && At(t, node) == Some(x) && x.NodeT? && IsInt(node) && delta < TWO32
    requires Kept(f.View(), fx) && Away(PhandleCells(node + HLen(x.name), x.kids), fx)
    modifies f.buf
    ensures Live(f.View(), t) && Kept(f.View(), fx) && ret <= 0 && f.View().Strings() == old(f.View()).Strings()
    ensures var ls := PhandleCells(node + HLen(x.name), x.kids);
            if ret == 0 then PhandlesOk(x.kids) && Did(old(f.View()).Struct(), ls, delta, f.View().Struct())
            else !(PhandlesOk(x.kids) && Can(old(f.View()).Struct(), ls, delta))
    decreases TSize(x.kids), 1
  {
    hide SameShape, Disjoint, BlobTree, At, HLen, TSize, KidCells, KidsOk, Can, Did, Own, OwnOk, Kept, Away;
    ghost var s, h := f.View().Struct(), node + HLen(x.name);
    ghost var a, b, c := Own(h, x.kids, PHANDLE), Own(h, x.kids, LINUX_PHANDLE), KidCells(h, x.kids);
    AwayBoth(a, b + c, fx);
    AwayBoth(b, c, fx);
    ret := PhandleAddOffset(f, node, PHANDLE, delta, t, x, fx);
    if ret != 0 && ret != ERR_NOTFOUND {
      CannotFirst(s, a, b + c, delta);
      return;
    }
    ghost var s1 := f.View().Struct();
    DidThen(s, a, s1, b + c, delta);
    ret := PhandleAddOffset(f, node, LINUX_PHANDLE, delta, t, x, fx);
    if ret != 0 && ret != ERR_NOTFOUND {
      CannotFirst(s1, b, c, delta);
      return;
    }
    DidThen(s1, b, f.View().Struct(), c, delta);
    ret := AdjustChildren(f, node, delta, t, x, fx);
  }

  /** The loop of overlay_adjust_node_phandles(). */
  method AdjustChildren(f: Fdt, node: int, delta: nat, ghost t: Tree, ghost x: Tree, ghost fx: Option<Fixups>)
    returns (ret: int)
    requires Live(f.View(), t) && At(t, node) == Some(x) && x.NodeT? && IsInt(node) && delta < TWO32
    requires Kept(f.View(), fx) && Away(KidCells(node + HLen(x.name), x.kids), fx)
    modifies f.buf
    ensures Live(f.View(), t) && Kept(f.View(), fx) && ret <= 0 && f.View().Strings() == old(f.View()).Strings()
    ensures var ls := KidCells(node + HLen(x.name), x.kids);
            if ret == 0 then KidsOk(x.kids) && Did(old(f.View()).Struct(), ls, delta, f.View().Struct())
            else !(KidsOk(x.kids) && Can(old(f.View()).Struct(), ls, delta))
    decreases TSize(x.kids), 0
  {
    hide SameShape, Disjoint, At, HLen, TSize, KidCells, PhandleCells, KidsOk, PhandlesOk, Can, Did, FindKid, BlobTree,
         Doing, Level, Kept, Away;
    ghost var s, off, w, done := f.View().Struct(), node + HLen(x.name), x.kids, [];
    ghost var goal := (KidCells(off, w), KidsOk(w));
    LevelStart(t, node, x, s, delta);
    var child := FirstKid(f, node, t, x);
    while child >= 0
      invariant Live(f.View(), t) && IsInt(child) && Level(t, off, w, TSize(x.kids))
                && IsAnswer(child, FindKid(off, w, None))
      invariant Doing(goal, off, w, s, done, delta, f.View().Struct()) && Kept(f.View(), fx)
                && Away(KidCells(off, w), fx)
      invariant f.View().Strings() == old(f.View()).Strings()
      decreases TSize(w)
    {
      ghost var s1 := f.View().Struct();
      ghost var y := LevelKid(f.View(), t, off, w, child, TSize(x.kids));
      KidAway(f.View(), t, off, w, child, y, TSize(x.kids), fx);
      ret := AdjustNodePhandles(f, child, delta, t, y, fx);
      KidDone(f.View(), t, goal, off, w, s, done, delta, s1, child, y, ret, TSize(x.kids));
      if ret != 0 {
        return;
      }
      ghost var a := PhandleCells(child + HLen(y.name), y.kids);
      done, off, w := done + a, child + NodeLen(y), y.rest;
      child := NextKid(f, child, t, y);
    }
    LevelEnd(f.View(), t, goal, off, w, s, done, delta, TSize(x.kids), child);
    ret := 0;
  }

  method FirstKid(f: Fdt, node: int, ghost t: Tree, ghost x: Tree) returns (child: int)
    requires Live(f.View(), t) && At(t, node) == Some(x) && x.NodeT? && IsInt(node)
    ensures IsInt(child) && IsAnswer(child, FindKid(node + HLen(x.name), x.kids, None))
  {
    hide At, HLen, TSize, KidCells, PhandleCells, KidsOk, PhandlesOk, FindKid, BlobTree, SameShape;
    NodeParts(f.View(), t, node, x);
    KidLive(f.View(), t, node + HLen(x.name), x.kids);
    child := FirstSubnode(f.View(), node);
  }

  method NextKid(f: Fdt, node: int, ghost t: Tree, ghost x: Tree) returns (child: int)
    requires Live(f.View(), t) && At(t, node) == Some(x) && x.NodeT? && IsInt(node)
    ensures IsInt(child) && IsAnswer(child, FindKid(node + NodeLen(x), x.rest, None))
  {
    hide At, HLen, TSize, KidCells, PhandleCells, KidsOk, PhandlesOk, FindKid, BlobTree, SameShape;
    NodeParts(f.View(), t, node, x);
    KidLive(f.View(), t, node + NodeLen(x), x.rest);
    child := NextSubnode(f.View(), node);
  }

  /** What is left of the level. */
  ghost predicate Level(t: Tree, off: int, w: Tree, size: nat) {
    0 <= off && At(t, off) == Some(w) && TSize(w) <= size
  }

  /** The cells of the level so far, towards all of them. */
  ghost predicate Doing(goal: (seq<int>, bool), off: int, w: Tree, s: seq<byte>, done: seq<int>, d: nat, s': seq<byte>)
    requires d < TWO32
  {
    goal.0 == done + KidCells(off, w) && (goal.1 <==> KidsOk(w)) && Did(s, done, d, s')
  }

  lemma LevelStart(t: Tree, node: int, x: Tree, s: seq<byte>, d: nat)
    requires At(t, node) == Some(x) && x.NodeT? && d < TWO32
    ensures var (off, w) := (node + HLen(x.name), x.kids);
            Level(t, off, w, TSize(w)) && Doing((KidCells(off, w), KidsOk(w)), off, w, s, [], d, s)
  {
    hide HLen, TSize, KidCells, KidsOk, Did;
    AtBound(t, node);
    AtNext(t, node, x);
    DidNothing(s, d);
    assert [] + KidCells(node + HLen(x.name), x.kids) == KidCells(node + HLen(x.name), x.kids);
  }

  lemma LevelKid(v: Blob, t: Tree, off: int, w: Tree, child: int, size: nat) returns (y: Tree)
    requires Live(v, t) && Level(t, off, w, size) && child >= 0 && IsAnswer(child, FindKid(off, w, None))
    ensures At(t, child) == Some(y) && y.NodeT? && TSize(y.kids) < size && TSize(y.rest) < TSize(w)
  {
    hide KidCells, PhandleCells, KidsOk, PhandlesOk, At, HLen, TSize, SameShape, FindKid, BlobTree;
    KidLive(v, t, off, w);
    y := At(t, child).value;
  }

  lemma KidAway(v: Blob, t: Tree, off: int, w: Tree, child: int, y: Tree, size: nat, fx: Option<Fixups>)
    requires Live(v, t) && Level(t, off, w, size) && child >= 0 && IsAnswer(child, FindKid(off, w, None))
             && At(t, child) == Some(y) && y.NodeT?
    requires Away(KidCells(off, w), fx)
    ensures Away(PhandleCells(child + HLen(y.name), y.kids), fx) && Away(KidCells(child + NodeLen(y), y.rest), fx)
  {
    hide KidCells, PhandleCells, KidsOk, PhandlesOk, At, HLen, TSize, SameShape, FindKid, BlobTree, Away;
    KidLive(v, t, off, w);
    AwayBoth(PhandleCells(child + HLen(y.name), y.kids), KidCells(child + NodeLen(y), y.rest), fx);
  }

  /** After a child: on to the next, or the whole level cannot be done. */
  lemma KidDone(v: Blob, t: Tree, goal: (seq<int>, bool), off: int, w: Tree, s: seq<byte>, done: seq<int>, d: nat,
                s1: seq<byte>, child: int, y: Tree, ret: int, size: nat)
    requires Live(v, t) && d < TWO32 && Doing(goal, off, w, s, done, d, s1) && Level(t, off, w, size) && child >= 0
    requires IsAnswer(child, FindKid(off, w, None)) && At(t, child) == Some(y) && y.NodeT?
    requires var a := PhandleCells(child + HLen(y.name), y.kids);
             if ret == 0 then PhandlesOk(y.kids)
               && Did(s1, a, d, v.Struct()) else !(PhandlesOk(y.kids) && Can(s1, a, d))
    ensures var a := PhandleCells(child + HLen(y.name), y.kids);
            if ret == 0 then Doing(goal, child + NodeLen(y), y.rest, s, done + a, d, v.Struct())
            else !(goal.1 && Can(s, goal.0, d))
    ensures Level(t, child + NodeLen(y), y.rest, size)
  {
    hide KidCells, PhandleCells, KidsOk, PhandlesOk, At, HLen, TSize, SameShape, FindKid, BlobTree, Can, Did;
    KidLive(v, t, off, w);
    NodeParts(v, t, child, y);
    var a, b := PhandleCells(child + HLen(y.name), y.kids), KidCells(child + NodeLen(y), y.rest);
    CannotNext(s, done, s1, a, b, d);
    DidThen(s, done, s1, a, d);
    assert done + (a + b) == (done + a) + b;
  }

  lemma LevelEnd(v: Blob, t: Tree, goal: (seq<int>, bool), off: int, w: Tree, s: seq<byte>, done: seq<int>, d: nat,
                 size: nat, r: int)
    requires Live(v, t) && Level(t, off, w, size) && d < TWO32 && Doing(goal, off, w, s, done, d, v.Struct())
    requires r < 0 && IsAnswer(r, FindKid(off, w, None))
    ensures goal.1 && Did(s, goal.0, d, v.Struct())
  {
    hide KidCells, PhandleCells, KidsOk, PhandlesOk, At, HLen, TSize, SameShape, FindKid, BlobTree, Did;
    KidLive(v, t, off, w);
    assert done + [] == done;
  }

  lemma CannotNext(s: seq<byte>, done: seq<int>, s1: seq<byte>, a: seq<int>, b: seq<int>, d: nat)
    requires d < TWO32 && Did(s, done, d, s1)
    ensures !Can(s1, a, d) ==> !Can(s, done + (a + b), d)
  {
    if !Can(s1, a, d) {
      CannotFirst(s1, a, b, d);
      DidThen(s, done, s1, a + b, d);
    }
  }

  // ----- the cells do not overlap -----

  predicate InRange(ls: seq<int>, lo: int, hi: int) {
    forall i :: 0 <= i < |ls| ==> lo <= ls[i] <= hi
  }

  lemma RangeBoth(a: seq<int>, b: seq<int>, lo: int, hi: int)
    requires InRange(a, lo, hi) && InRange(b, lo, hi)
    ensures InRange(a + b, lo, hi)
  {
  }

  lemma ApartBoth(a: seq<int>, b: seq<int>, lo: int, mid: int, hi: int)
    requires Apart(a) && Apart(b) && InRange(a, lo, mid) && InRange(b, mid + 4, hi)
    ensures Apart(a + b)
  {
    var s := a + b;
    forall i, j | 0 <= i < j < |s|
      ensures s[i] + 4 <= s[j] || s[j] + 4 <= s[i]
    {
      if j < |a| {
        assert s[i] == a[i] && s[j] == a[j];
      } else if i >= |a| {
        assert s[i] == b[i - |a|] && s[j] == b[j - |a|];
      } else {
        assert s[i] == a[i] && s[j] == b[j - |a|];
      }
    }
  }

  lemma {:induction false} FindPropRange(off: int, t: Tree, name: seq<byte>)
    ensures FindProp(off, t, name).Some? ==>
              off <= FindProp(off, t, name).value && FindProp(off, t, name).value + 12 <= off + LeadLen(t)
    ensures LeadLen(t) <= TSize(t)
    decreases t
  {
    hide HLen;
    match t
    case NopT(r) => FindPropRange(off + 4, r, name);
    case PropT(n, v, r) => FindPropRange(off + Len(Prop(n, v)), r, name);
    case _ =>
  }

  lemma {:induction false} FindPropApart(off: int, t: Tree, a: seq<byte>, b: seq<byte>)
    requires a != b && FindProp(off, t, a).Some? && FindProp(off, t, b).Some?
    ensures var (p, q) := (FindProp(off, t, a).value, FindProp(off, t, b).value); p + 12 <= q || q + 12 <= p
    decreases t
  {
    match t
    case NopT(r) => FindPropApart(off + 4, r, a, b);
    case PropT(n, v, r) =>
      if n != a && n != b {
        FindPropApart(off + Len(Prop(n, v)), r, a, b);
      }
  }

  lemma OwnApart(off: int, t: Tree)
    ensures var ls := Own(off, t, PHANDLE) + Own(off, t, LINUX_PHANDLE);
            Apart(ls) && InRange(ls, off + 12, off + LeadLen(t))
  {
    hide FindProp, LeadLen;
    FindPropRange(off, t, PHANDLE);
    FindPropRange(off, t, LINUX_PHANDLE);
    if FindProp(off, t, PHANDLE).Some? && FindProp(off, t, LINUX_PHANDLE).Some? {
      FindPropApart(off, t, PHANDLE, LINUX_PHANDLE);
    }
  }

  lemma {:induction false} PhandlesApart(off: int, t: Tree)
    ensures Apart(PhandleCells(off, t)) && InRange(PhandleCells(off, t), off + 12, off + TSize(t))
    decreases t, 1
  {
    hide KidCells, Own, LeadLen, TSize;
    KidsApart(off, t);
    OwnApart(off, t);
    FindPropRange(off, t, PHANDLE);
    var a, b, c := Own(off, t, PHANDLE), Own(off, t, LINUX_PHANDLE), KidCells(off, t);
    ApartBoth(a + b, c, off + 12, off + LeadLen(t), off + TSize(t));
    RangeBoth(a + b, c, off + 12, off + TSize(t));
    assert a + (b + c) == (a + b) + c;
  }

  lemma {:induction false} KidsApart(off: int, t: Tree)
    ensures Apart(KidCells(off, t)) && InRange(KidCells(off, t), off + LeadLen(t) + 16, off + TSize(t))
    decreases t, 0
  {
    SizeStep(t);
    hide TSize, PhandleCells, HLen, Apart, FindProp;
    match t
    case Leaf => NoneApart();
    case NopT(r) => KidsApart(off + 4, r);
    case PropT(n, v, r) => KidsApart(off + Len(Prop(n, v)), r);
    case NodeT(n, k, r) =>
      PhandlesApart(off + HLen(n), k);
      KidsApart(off + HLen(n) + TSize(k) + 4, r);
      KidsApartNode(off, n, k, r);
  }

  lemma KidsApartNode(off: int, n: seq<byte>, k: Tree, r: Tree)
    requires Apart(PhandleCells(off + HLen(n), k))
             && InRange(PhandleCells(off + HLen(n), k), off + HLen(n) + 12, off + HLen(n) + TSize(k))
    requires var h := off + HLen(n) + TSize(k) + 4;
             Apart(KidCells(h, r)) && InRange(KidCells(h, r), h + LeadLen(r) + 16, h + TSize(r))
    ensures var c := PhandleCells(off + HLen(n), k) + KidCells(off + HLen(n) + TSize(k) + 4, r);
            Apart(c) && InRange(c, off + 16, off + HLen(n) + TSize(k) + 4 + TSize(r))
  {
    FindPropRange(off, r, PHANDLE);
    hide TSize, PhandleCells, KidCells, HLen, Apart, FindProp, InRange, LeadLen;
    var h := off + HLen(n) + TSize(k);
    JoinKids(PhandleCells(off + HLen(n), k), KidCells(h + 4, r), off, off + HLen(n), h, h + 4 + LeadLen(r),
             h + 4 + TSize(r));
  }

  lemma NoneApart()
    ensures Apart([])
  {
  }

  lemma JoinKids(a: seq<int>, b: seq<int>, off: int, lo: int, mid: int, next: int, hi: int)
    requires Apart(a) && Apart(b) && InRange(a, lo + 12, mid) && InRange(b, next + 16, hi)
             && off + 4 <= lo <= mid < next <= hi
    ensures Apart(a + b) && InRange(a + b, off + 16, hi)
  {
    ApartBoth(a, b, off + 16, mid, hi);
    RangeBoth(a, b, off + 16, hi);
  }

  // ----- what renumbering keeps -----

  /** A phandle cell is moved up without wrapping; any other cell is as it was. */
  lemma Renumbered(s: seq<byte>, off: int, t: Tree, d: nat, s': seq<byte>, p: nat)
    requires d < TWO32 && Did(s, PhandleCells(off, t), d, s') && p + 4 <= |s|
    ensures p in PhandleCells(off, t) ==> Load32(s', p) == Load32(s, p) + d < TWO32 - 1
    ensures Whole(PhandleCells(off, t), p) && p !in PhandleCells(off, t) ==> Load32(s', p) == Load32(s, p)
  {
    hide AddCells, Load32, PhandleCells, Roomy, Apart;
    var ls := PhandleCells(off, t);
    PhandlesApart(off, t);
    CanExactly(s, ls, d);
    TimesIn(ls, p);
    if p in ls {
      OnceApart(ls, p);
      var i :| 0 <= i < |ls| && ls[i] == p;
    }
    if Whole(ls, p) {
      CellsAfter(s, ls, d, p);
      RaisedFew(Load32(s, p), d);
    }
  }

  lemma RaisedFew(v: nat, d: nat)
    requires v < TWO32 && d < TWO32
    ensures Raised(v, 0, d) == v && Raised(v, 1, d) == Wrap32(v + d)
  {
    assert Raised(Wrap32(v + d), 0, d) == Wrap32(v + d);
  }

  /** With `d` the highest phandle of the base: what was not 0 is above every base phandle, and what
      was different is different. */
  lemma RenumberedApart(s: seq<byte>, off: int, t: Tree, d: nat, s': seq<byte>, p: nat, q: nat)
    requires d < TWO32 && Did(s, PhandleCells(off, t), d, s') && p + 4 <= |s| && q + 4 <= |s|
    requires p in PhandleCells(off, t) && q in PhandleCells(off, t)
    ensures Load32(s, p) != 0 ==> d < Load32(s', p)
    ensures Load32(s, p) == Load32(s, q) <==> Load32(s', p) == Load32(s', q)
  {
    hide AddCells, Roomy, Load32, Did, PhandleCells;
    Renumbered(s, off, t, d, s', p);
    Renumbered(s, off, t, d, s', q);
  }
}

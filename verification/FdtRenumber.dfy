/** The two renumbering passes of an overlay: phandles, then the local references to them. */
module FdtRenumber {
  import opened Options
  import opened FdtTokens
  import opened FdtTree
  import opened FdtBlob
  import opened FdtWalk
  import opened FdtProps
  import opened FdtEdit
  import opened FdtRw
  import opened FdtSetprop
  import opened FdtShape
  import opened FdtFrozen
  import opened FdtPhandle
  import opened FdtFixups
  import opened FdtListed
  import opened FdtGetPath
  import opened FdtMaxPhandle

  /** "/__local_fixups__" */
  const LOCAL_FIXUPS: seq<byte> := [47, 95, 95, 108, 111, 99, 97, 108, 95, 102, 105, 120, 117, 112, 115, 95, 95]

  lemma {:induction false} LookIsNode(off: int, t: Tree, names: seq<seq<byte>>)
    requires names != []
    ensures var o := Look(off, t, names); o.Some? ==> At(t, o.value - off).Some? && At(t, o.value - off).value.NodeT?
    decreases t
  {
    hide Len, HLen, TSize, NameEq, At;
    AtStart(t);
    var o := Look(off, t, names);
    match t
    case Leaf =>
    case NopT(r) =>
      LookIsNode(off + 4, r, names);
      if o.Some? {
        AtBehind(t, o.value - off - 4);
      }
    case PropT(n, v, r) =>
      LookIsNode(off + Len(Prop(n, v)), r, names);
      if o.Some? {
        AtBehind(t, o.value - off - Len(Prop(n, v)));
      }
    case NodeT(n, k, r) =>
      if !NameEq(n, names[0]) {
        LookIsNode(off + HLen(n) + TSize(k) + 4, r, names);
        if o.Some? {
          AtBehind(t, o.value - off - (HLen(n) + TSize(k) + 4));
        }
      } else if |names| > 1 {
        LookIsNode(off + HLen(n), k, names[1..]);
        if o.Some? {
          InKids(t, o.value - off - HLen(n));
        }
      }
  }

  lemma {:induction false} LookShape(off: int, t: Tree, u: Tree, names: seq<seq<byte>>)
    requires names != [] && SameShape(t, u)
    ensures Look(off, t, names) == Look(off, u, names)
    decreases t
  {
    hide HLen, TSize, NameEq;
    match t
    case Leaf =>
    case NopT(r) => LookShape(off + 4, r, u.rest, names);
    case PropT(n, v, r) => LookShape(off + Len(Prop(n, v)), r, u.rest, names);
    case NodeT(n, k, r) =>
      ShapeSize(k, u.kids);
      if !NameEq(n, names[0]) {
        LookShape(off + HLen(n) + TSize(k) + 4, r, u.rest, names);
      } else if |names| > 1 {
        LookShape(off + HLen(n), k, u.kids, names[1..]);
      }
  }

  /** The names in the path. */
  ghost function FixupsNames(): seq<seq<byte>> {
    Comps(LOCAL_FIXUPS)
  }

  lemma FixupsPath()
    ensures FixupsNames() != []
  {
    assert LOCAL_FIXUPS[1..][0] == 95;
    CompsName(LOCAL_FIXUPS[1..]);
  }

  /** The fixups node of an overlay. */
  ghost function FixupsOf(t: Tree): Option<Fixups>
    requires t.NodeT?
  {
    if FixupsNames() == [] then None
    else
      var o := Look(HLen(t.name), t.kids, FixupsNames());
      if o.Some? && At(t, o.value).Some? && At(t, o.value).value.NodeT?
      then Some(Fixups(o.value, At(t, o.value).value.name, At(t, o.value).value.kids))
      else None
  }

  lemma FixupsFound(v: Blob)
    requires v.Fits() && v.Tree().Some? && v.Tree().value.NodeT?
    ensures var fx := FixupsOf(v.Tree().value);
            v.IsNode(0) && Kept(v, fx)
            && LookFrom(v, 0, Comps(LOCAL_FIXUPS)) == if fx.None? then None else Some(fx.value.off)
  {
    hide Look, HLen, Comps, BlobTree;
    FixupsPath();
    var t := v.Tree().value;
    var o := Look(HLen(t.name), t.kids, FixupsNames());
    LookIsNode(HLen(t.name), t.kids, FixupsNames());
    if o.Some? {
      InKids(t, o.value - HLen(t.name));
    }
  }

  /** What is kept of the fixups is what a search for them finds. */
  lemma FixupsKept(v: Blob, t: Tree)
    requires Live(v, t) && t.NodeT? && Kept(v, FixupsOf(t))
    ensures v.Tree().value.NodeT? && FixupsOf(v.Tree().value) == FixupsOf(t)
  {
    hide Look, HLen, SameShape, Comps, BlobTree;
    FixupsPath();
    var names, u := FixupsNames(), v.Tree().value;
    ShapeItem(t, u);
    LookShape(HLen(t.name), t.kids, u.kids, names);
    LookIsNode(HLen(t.name), t.kids, names);
    var o := Look(HLen(t.name), t.kids, names);
    if o.Some? {
      InKids(t, o.value - HLen(t.name));
    }
  }

  /** The cells the local fixups list. */
  ghost function LocalRefs(t: Tree, fx: Option<Fixups>): seq<int>
    requires t.NodeT?
  {
    if fx.None? then [] else Refs(HLen(t.name), t.kids, fx.value.kids)
  }

  ghost predicate LocalOk(t: Tree, fx: Option<Fixups>)
    requires t.NodeT?
  {
    fx.Some? ==> RefsOk(HLen(t.name), t.kids, fx.value.kids)
  }

  /** The lists stay inside the values, and nothing listed is in the fixups node. */
  ghost predicate LocalIn(t: Tree, fx: Option<Fixups>)
    requires t.NodeT?
  {
    fx.Some? ==> RefsIn(HLen(t.name), t.kids, fx.value.kids) && Outside(LocalRefs(t, fx), fx.value)
  }

  /** overlay_update_local_references() */
  method UpdateLocalReferences(f: Fdt, delta: nat, ghost t: Tree, ghost fx: Option<Fixups>) returns (ret: int)
    requires Live(f.View(), t) && t.NodeT? && f.View().Tree().value.NodeT? && delta < TWO32
    requires fx == FixupsOf(f.View().Tree().value) && LocalIn(t, fx)
    modifies f.buf
    ensures Live(f.View(), t) && ret <= 0 && (ret == 0 <==> LocalOk(t, fx))
    ensures ret == 0 ==> Added(old(f.View()).Struct(), LocalRefs(t, fx), delta, f.View().Struct())
  {
    hide SameShape, Disjoint, BlobTree, At, HLen, Comps, LookFrom, Added, Refs, RefsIn, RefsOk, Outside, FixupsOf,
         Frozen, FixAt;
    FixupsFound(f.View());
    AtStart(t);
    var fixups := PathOffset(f.View(), LOCAL_FIXUPS);
    if fx.Some? {
      FixupsAt(f.View(), fx.value);
    }
    if fixups < 0 {
      AddedNone(f.View().Struct(), delta);
      return if fixups == ERR_NOTFOUND then 0 else fixups;
    }
    ghost var y := NodeT(fx.value.name, fx.value.kids, Leaf);
    ret := UpdateLocalNodeReferences(f, 0, fixups, delta, t, t, y, fx.value);
  }

  lemma FixupsAt(v: Blob, fx: Fixups)
    requires v.Fits() && Frozen(v, fx)
    ensures 0 <= fx.off <= v.h.sizeStruct && FixAt(fx, fx.off, NodeT(fx.name, fx.kids, Leaf))
  {
    hide BlobTree;
    TagAtTree(v, fx.off, v.Node(fx.off));
  }

  // ----- both passes -----

  ghost predicate Overlay(v: Blob) {
    v.Fits() && v.Tree().Some? && v.Tree().value.NodeT?
  }

  ghost function Phandles(v: Blob): seq<int>
    requires Overlay(v)
  {
    PhandleCells(HLen(v.Tree().value.name), v.Tree().value.kids)
  }

  /** The first pass can be done: every phandle of the overlay has four bytes and room. */
  ghost predicate PhandlesFit(v: Blob, d: nat)
    requires Overlay(v)
  {
    PhandlesOk(v.Tree().value.kids) && Room(v.Struct(), Phandles(v), d)
  }

  /** The fixups node as the second pass reads it; the first changes it only if it holds a phandle. */
  ghost function FixupsRead(v: Blob, d: nat): Option<Fixups>
    requires Overlay(v) && d < TWO32
  {
    var t, ls := v.Tree().value, Phandles(v);
    if Away(ls, FixupsOf(t)) || !Can(v.Struct(), ls, d) then FixupsOf(t)
    else
      var u := BlobTree(AddCells(v.Struct(), ls, d), v.Strings());
      if u.Some? && u.value.NodeT? then FixupsOf(u.value) else None
  }

  /** The references as the second pass finds them listed. */
  ghost function RefsRead(v: Blob, d: nat): seq<int>
    requires Overlay(v) && d < TWO32
  {
    LocalRefs(v.Tree().value, FixupsRead(v, d))
  }

  /** A cell that is listed so and so often, as a phandle or a reference, is that often `d` higher; for
      phandles that does not wrap the first time. */
  ghost predicate RenumberedBlock(s: seq<byte>, ph: seq<int>, refs: seq<int>, d: nat, s': seq<byte>) {
    d < TWO32 && |s'| == |s| && Room(s, ph, d) && CellsIn(refs, |s|) && Apart(ph)
    && (forall p: nat :: p + 4 <= |s| && Whole(ph + refs, p)
                        ==> Load32(s', p) == Raised(Load32(s, p), Times(ph + refs, p), d))
    && (forall k: nat :: k < |s| && Unlisted(ph + refs, k) ==> s'[k] == s[k])
  }

  /** No listed cell has the byte at `k`. */
  ghost predicate Unlisted(ls: seq<int>, k: int) {
    forall j :: 0 <= j < |ls| ==> !(ls[j] <= k < ls[j] + 4)
  }

  /** overlay_adjust_local_phandles() */
  method AdjustLocalPhandles(f: Fdt, delta: nat) returns (ret: int)
    requires Overlay(f.View()) && Disjoint(f.h) && delta < TWO32
    modifies f.buf
    ensures var v := old(f.View());
            Live(f.View(), v.Tree().value) && ret <= 0 && (ret == 0 <==> PhandlesFit(v, delta))
            && (ret == 0 ==> Did(v.Struct(), Phandles(v), delta, f.View().Struct())
                             && f.View().Tree().value.NodeT? && FixupsRead(v, delta) == FixupsOf(f.View().Tree().value))
  {
    hide BlobTree, At, HLen, PhandleCells, PhandlesOk, Can, Did, FixupsRead, Phandles, PhandlesFit, Kept, Away,
         Untouched, SameShape, FixupsOf, Disjoint;
    ghost var v, t := f.View(), f.View().Tree().value;
    FirstPass(v, delta);
    ret := AdjustNodePhandles(f, 0, delta, t, t, Untouched(v));
    if ret == 0 {
      DidCan(v.Struct(), Phandles(v), delta, f.View().Struct());
      ReadNow(v, f.View(), delta);
    }
  }

  /** The fixups node, if the first pass leaves it alone. */
  ghost function Untouched(v: Blob): Option<Fixups>
    requires Overlay(v)
  {
    var fx := FixupsOf(v.Tree().value);
    if Away(Phandles(v), fx) then fx else None
  }

  lemma FirstPass(v: Blob, d: nat)
    requires Overlay(v) && Disjoint(v.h) && d < TWO32
    ensures var t := v.Tree().value;
            Live(v, t) && At(t, 0) == Some(t) && Kept(v, Untouched(v))
              && Phandles(v) == PhandleCells(0 + HLen(t.name), t.kids)
            && Away(Phandles(v), Untouched(v))
              && (PhandlesFit(v, d) <==> PhandlesOk(t.kids) && Can(v.Struct(), Phandles(v), d))
  {
    hide SameShape, BlobTree, HLen, FixupsOf, PhandleCells, PhandlesOk, Can, Room, Apart;
    var t := v.Tree().value;
    ShapeSelf(t);
    FixupsFound(v);
    AllApart(v);
    CanExactly(v.Struct(), Phandles(v), d);
  }

  /** overlay_adjust_local_phandles() and overlay_update_local_references() */
  method Renumber(f: Fdt, delta: nat) returns (ret: int)
    requires Overlay(f.View()) && Disjoint(f.h) && delta < TWO32
    requires var v := f.View(); PhandlesFit(v, delta) ==> LocalIn(v.Tree().value, FixupsRead(v, delta))
    modifies f.buf
    ensures f.View().Fits() && ret <= 0
    ensures var v := old(f.View());
            (ret == 0 <==> PhandlesFit(v, delta) && LocalOk(v.Tree().value, FixupsRead(v, delta)))
            && (ret == 0 ==> RenumberedBlock(v.Struct(), Phandles(v), RefsRead(v, delta), delta, f.View().Struct())
                             && AllRaised(v, FixupsRead(v, delta), delta, f.View().Struct()))
  {
    hide SameShape, BlobTree, FixupsOf, Phandles, PhandlesFit, FixupsRead, Did, LocalRefs, LocalOk, RenumberedBlock,
         Added, LocalIn, Apart, AllRaised;
    ghost var v := f.View();
    ret := AdjustLocalPhandles(f, delta);
    if ret != 0 {
      return;
    }
    ghost var s1 := f.View().Struct();
    ret := UpdateLocalReferences(f, delta, v.Tree().value, FixupsRead(v, delta));
    if ret == 0 {
      AllApart(v);
      BlockRenumbered(v.Struct(), Phandles(v), RefsRead(v, delta), delta, s1, f.View().Struct());
      BlockRaised(v, delta, f.View().Struct());
    }
  }

  lemma AllApart(v: Blob)
    requires Overlay(v)
    ensures Apart(Phandles(v))
  {
    PhandlesApart(HLen(v.Tree().value.name), v.Tree().value.kids);
  }

  lemma DidCan(s: seq<byte>, ls: seq<int>, d: nat, s': seq<byte>)
    requires d < TWO32 && Did(s, ls, d, s')
    ensures Can(s, ls, d) && s' == AddCells(s, ls, d)
  {
  }

  lemma ReadNow(v: Blob, v1: Blob, d: nat)
    requires Overlay(v) && d < TWO32 && Live(v1, v.Tree().value) && Did(v.Struct(), Phandles(v), d, v1.Struct())
    requires v1.Strings() == v.Strings() && Kept(v1, Untouched(v))
    ensures v1.Tree().value.NodeT? && FixupsRead(v, d) == FixupsOf(v1.Tree().value)
  {
    hide SameShape, BlobTree, FixupsOf, Phandles, Roomy, AddCells, Away, Kept;
    ShapeItem(v.Tree().value, v1.Tree().value);
    if Away(Phandles(v), FixupsOf(v.Tree().value)) {
      FixupsKept(v1, v.Tree().value);
    }
  }

  lemma BlockRenumbered(s: seq<byte>, ph: seq<int>, refs: seq<int>, d: nat, s1: seq<byte>, s2: seq<byte>)
    requires d < TWO32 && Apart(ph) && Did(s, ph, d, s1) && Added(s1, refs, d, s2)
    ensures RenumberedBlock(s, ph, refs, d, s2)
  {
    hide AddCells, Load32, Apart, Roomy, Room;
    CanExactly(s, ph, d);
    AddCellsThen(s, ph, refs, d);
    forall p: nat | p + 4 <= |s| && Whole(ph + refs, p)
      ensures Load32(s2, p) == Raised(Load32(s, p), Times(ph + refs, p), d)
    {
      CellsAfter(s, ph + refs, d, p);
    }
    forall k: nat | k < |s| && Unlisted(ph + refs, k)
      ensures s2[k] == s[k]
    {
      ByteStays(s, ph + refs, d, k);
    }
  }

  // ----- the same, from the nodes and the lists of the overlay -----

  /** The value of a phandle property of the root or of a node inside it begins 12 bytes behind `po`. */
  ghost predicate PhandleAt(v: Blob, node: int, name: seq<byte>, po: int)
    requires Overlay(v)
  {
    v.IsNode(node) && node < NodeLen(v.Tree().value) && (name == PHANDLE || name == LINUX_PHANDLE)
    && FindProp(node + HLen(v.Node(node).name), v.Node(node).kids, name) == Some(po)
  }

  /** The cell that word `i` of the list at offset `o` of the fixups node names. */
  ghost function WordCell(t: Tree, fx: Option<Fixups>, o: int, i: nat): Option<int>
    requires t.NodeT?
  {
    if fx.None? then None else Named(HLen(t.name), t.kids, fx.value.kids, true, o, i)
  }

  /** No word but, it may be, one names a cell that touches the one at `c`. */
  ghost predicate ClearOfWords(t: Tree, fx: Option<Fixups>, c: int, but: Option<(int, nat)>)
    requires t.NodeT?
  {
    forall o: int, i: nat ::
      WordCell(t, fx, o, i).Some? && Some((o, i)) != but ==> NoTouch(WordCell(t, fx, o, i).value, c)
  }

  lemma PhandleListed(v: Blob, node: int, name: seq<byte>, po: int)
    requires Overlay(v) && PhandleAt(v, node, name, po)
    ensures po + 12 in Phandles(v)
  {
    hide BlobTree, FindProp, HLen, TSize, PHANDLE, LINUX_PHANDLE;
    var t := v.Tree().value;
    if node != 0 {
      AtBound(t, node);
      CellOfNode(HLen(t.name), t.kids, node - HLen(t.name), name);
    }
  }

  lemma PhandleFrom(v: Blob, p: int) returns (node: int, name: seq<byte>)
    requires Overlay(v) && p in Phandles(v)
    ensures PhandleAt(v, node, name, p - 12)
  {
    hide BlobTree, FindProp, HLen, TSize, PHANDLE, LINUX_PHANDLE;
    var t := v.Tree().value;
    AtStart(t);
    var h := HLen(t.name);
    if p in Own(h, t.kids, PHANDLE) {
      node, name := 0, PHANDLE;
    } else if p in Own(h, t.kids, LINUX_PHANDLE) {
      node, name := 0, LINUX_PHANDLE;
    } else {
      node, name := NodeOfCell(h, t.kids, p);
      AtBound(t.kids, node);
      InKids(t, node);
      node := node + h;
    }
  }

  lemma ClearRefs(t: Tree, fx: Option<Fixups>, c: int)
    requires t.NodeT? && LocalOk(t, fx) && ClearOfWords(t, fx, c, None)
    ensures forall j :: 0 <= j < |LocalRefs(t, fx)| ==> NoTouch(LocalRefs(t, fx)[j], c)
  {
    hide Refs, RefsOk, Named, HLen, NoTouch;
    var ls := LocalRefs(t, fx);
    forall j | 0 <= j < |ls|
      ensures NoTouch(ls[j], c)
    {
      var o, i := WordOf(HLen(t.name), t.kids, fx.value.kids, j);
      assert WordCell(t, fx, o, i) == Some(ls[j]);
    }
  }

  /** A phandle that no listed word touches is `d` higher, without overflow. */
  lemma PhandleRaised(v: Blob, d: nat, s': seq<byte>, node: int, name: seq<byte>, po: int)
    requires Overlay(v) && d < TWO32 && RenumberedBlock(v.Struct(), Phandles(v), RefsRead(v, d), d, s')
    requires PhandleAt(v, node, name, po) && LocalOk(v.Tree().value, FixupsRead(v, d))
    requires ClearOfWords(v.Tree().value, FixupsRead(v, d), po + 12, None)
    ensures 0 <= po + 12 && po + 16 <= |v.Struct()| == |s'|
    ensures Load32(s', po + 12) == Load32(v.Struct(), po + 12) + d < TWO32 - 1
  {
    hide BlobTree, PhandleAt, Phandles, FixupsRead, LocalRefs, LocalOk, ClearOfWords, Load32, Apart;
    var ph, refs, p := Phandles(v), RefsRead(v, d), po + 12;
    PhandleListed(v, node, name, po);
    ClearRefs(v.Tree().value, FixupsRead(v, d), p);
    OnceApart(ph, p);
    WholeBoth(ph, refs, p);
    var k :| 0 <= k < |ph| && ph[k] == p;
    PhandleMoved(v.Struct(), ph, refs, d, s', p);
  }

  lemma WholeBoth(ph: seq<int>, refs: seq<int>, p: int)
    requires Whole(ph, p) && forall j :: 0 <= j < |refs| ==> NoTouch(refs[j], p)
    ensures Whole(ph + refs, p) && p !in refs
  {
  }

  /** A cell that a word names and nothing else that is listed touches is `d` higher, as 32-bit addition. */
  lemma WordRaised(v: Blob, d: nat, s': seq<byte>, o: int, i: nat)
    requires Overlay(v) && d < TWO32 && RenumberedBlock(v.Struct(), Phandles(v), RefsRead(v, d), d, s')
    requires LocalOk(v.Tree().value, FixupsRead(v, d)) && WordCell(v.Tree().value, FixupsRead(v, d), o, i).Some?
    requires var c := WordCell(v.Tree().value, FixupsRead(v, d), o, i).value;
             ClearOfWords(v.Tree().value, FixupsRead(v, d), c, Some((o, i)))
             && forall node, name, po :: PhandleAt(v, node, name, po) ==> NoTouch(po + 12, c)
    ensures var c := WordCell(v.Tree().value, FixupsRead(v, d), o, i).value;
            0 <= c && c + 4 <= |v.Struct()| == |s'| && Load32(s', c) == (Load32(v.Struct(), c) + d) % TWO32
  {
    hide BlobTree, PhandleAt, Phandles, FixupsRead, LocalOk, Load32, Apart, Refs, RefsOk, Named, HLen, NoTouch, Room,
         NamedElsewhere;
    var ph, refs, t, fx := Phandles(v), RefsRead(v, d), v.Tree().value, FixupsRead(v, d);
    var c := WordCell(t, fx, o, i).value;
    var j := WordPlace(t, fx, o, i);
    var all := ph + refs;
    assert all[|ph| + j] == c;
    forall k | 0 <= k < |all| && k != |ph| + j
      ensures NoTouch(all[k], c)
    {
      if k < |ph| {
        var node, name := PhandleFrom(v, ph[k]);
      } else {
        OtherWord(t, fx, o, i, c, refs[k - |ph|]);
      }
    }
    ListedOnce(all, |ph| + j);
    RaisedOnce(Load32(v.Struct(), c), d);
  }

  lemma WordPlace(t: Tree, fx: Option<Fixups>, o: int, i: nat) returns (j: nat)
    requires t.NodeT? && LocalOk(t, fx) && WordCell(t, fx, o, i).Some?
    ensures var ls := LocalRefs(t, fx);
            j < |ls| && ls[j] == WordCell(t, fx, o, i).value && fx.Some?
            && forall k :: 0 <= k < |ls| && k != j ==>
                 NamedElsewhere(HLen(t.name), t.kids, fx.value.kids, o, i, ls[k])
  {
    hide Refs, RefsOk, Named, HLen, NamedElsewhere;
    j := PlaceOf(HLen(t.name), t.kids, fx.value.kids, o, i);
  }

  lemma OtherWord(t: Tree, fx: Option<Fixups>, o: int, i: nat, c: int, x: int)
    requires t.NodeT? && fx.Some? && ClearOfWords(t, fx, c, Some((o, i)))
    requires NamedElsewhere(HLen(t.name), t.kids, fx.value.kids, o, i, x)
    ensures NoTouch(x, c)
  {
    hide Named, HLen, NoTouch;
    var o': int, i': nat :| (o' != o || i' != i) && Named(HLen(t.name), t.kids, fx.value.kids, true, o', i') == Some(x);
    assert WordCell(t, fx, o', i') == Some(x);
  }

  /** A byte of no phandle and of no cell that a word names is as it was. */
  lemma RestStays(v: Blob, d: nat, s': seq<byte>, k: nat)
    requires Overlay(v) && d < TWO32 && RenumberedBlock(v.Struct(), Phandles(v), RefsRead(v, d), d, s')
    requires LocalOk(v.Tree().value, FixupsRead(v, d)) && k < |v.Struct()|
    requires forall node, name, po :: PhandleAt(v, node, name, po) ==> !(po + 12 <= k < po + 16)
    requires forall o: int, i: nat ::
               var c := WordCell(v.Tree().value, FixupsRead(v, d), o, i); c.Some? ==> !(c.value <= k < c.value + 4)
    ensures |s'| == |v.Struct()| && s'[k] == v.Struct()[k]
  {
    hide BlobTree, PhandleAt, Phandles, FixupsRead, LocalOk, Load32, Apart, Refs, RefsOk, Named, HLen, Room;
    var ph, refs, t, fx := Phandles(v), RefsRead(v, d), v.Tree().value, FixupsRead(v, d);
    var all := ph + refs;
    forall j | 0 <= j < |all|
      ensures !(all[j] <= k < all[j] + 4)
    {
      if j < |ph| {
        var node, name := PhandleFrom(v, ph[j]);
      } else {
        var o, i := WordAt(t, fx, j - |ph|);
      }
    }
  }

  /** Every phandle that no word touches is `d` higher without overflow, */
  ghost predicate PhandlesUp(v: Blob, fx: Option<Fixups>, d: nat, s': seq<byte>)
    requires Overlay(v)
  {
    forall node, name, po :: PhandleAt(v, node, name, po) && ClearOfWords(v.Tree().value, fx, po + 12, None) ==>
      0 <= po + 12 && po + 16 <= |v.Struct()| == |s'|
        && Load32(s', po + 12) == Load32(v.Struct(), po + 12) + d < TWO32 - 1
  }

  /** so, as 32-bit addition, is every cell that a word names and nothing else touches, */
  ghost predicate WordsUp(v: Blob, fx: Option<Fixups>, d: nat, s': seq<byte>)
    requires Overlay(v)
  {
    forall o: int, i: nat :: Lone(v, fx, o, i) ==>
      var c := WordCell(v.Tree().value, fx, o, i).value;
      0 <= c && c + 4 <= |v.Struct()| == |s'| && Load32(s', c) == (Load32(v.Struct(), c) + d) % TWO32
  }

  /** and every byte of neither is as it was. */
  ghost predicate AllRaised(v: Blob, fx: Option<Fixups>, d: nat, s': seq<byte>)
    requires Overlay(v)
  {
    PhandlesUp(v, fx, d, s') && WordsUp(v, fx, d, s')
    && forall k: nat :: k < |v.Struct()| && Untold(v, fx, k) ==> |s'| == |v.Struct()| && s'[k] == v.Struct()[k]
  }

  /** The word names a cell, and no phandle and no cell that another word names touches it. */
  ghost predicate Lone(v: Blob, fx: Option<Fixups>, o: int, i: nat)
    requires Overlay(v)
  {
    var x := WordCell(v.Tree().value, fx, o, i);
    x.Some? && ClearOfWords(v.Tree().value, fx, x.value, Some((o, i)))
    && forall node, name, po :: PhandleAt(v, node, name, po) ==> NoTouch(po + 12, x.value)
  }

  /** The byte at `k` is neither of a phandle nor of a cell that a word names. */
  ghost predicate Untold(v: Blob, fx: Option<Fixups>, k: nat)
    requires Overlay(v)
  {
    (forall node, name, po :: PhandleAt(v, node, name, po) ==> !(po + 12 <= k < po + 16))
    && forall o: int, i: nat ::
         var c := WordCell(v.Tree().value, fx, o, i); c.Some? ==> !(c.value <= k < c.value + 4)
  }

  lemma BlockPhandles(v: Blob, d: nat, s': seq<byte>)
    requires Overlay(v) && d < TWO32 && RenumberedBlock(v.Struct(), Phandles(v), RefsRead(v, d), d, s')
    requires LocalOk(v.Tree().value, FixupsRead(v, d))
    ensures PhandlesUp(v, FixupsRead(v, d), d, s')
  {
    hide BlobTree, PhandleAt, Phandles, RefsRead, FixupsRead, LocalOk, Load32, ClearOfWords, RenumberedBlock,
         Blob.Strings;
    forall node, name, po | PhandleAt(v, node, name, po)
      && ClearOfWords(v.Tree().value, FixupsRead(v, d), po + 12, None)
      ensures 0 <= po + 12 && po + 16 <= |v.Struct()| == |s'|
              && Load32(s', po + 12) == Load32(v.Struct(), po + 12) + d < TWO32 - 1
    {
      PhandleRaised(v, d, s', node, name, po);
    }
  }

  lemma BlockWords(v: Blob, d: nat, s': seq<byte>)
    requires Overlay(v) && d < TWO32 && RenumberedBlock(v.Struct(), Phandles(v), RefsRead(v, d), d, s')
    requires LocalOk(v.Tree().value, FixupsRead(v, d))
    ensures WordsUp(v, FixupsRead(v, d), d, s')
  {
    hide BlobTree, PhandleAt, Phandles, RefsRead, FixupsRead, LocalOk, Load32, ClearOfWords, RenumberedBlock, WordCell,
         NoTouch, Blob.Strings;
    forall o: int, i: nat | Lone(v, FixupsRead(v, d), o, i)
      ensures var c := WordCell(v.Tree().value, FixupsRead(v, d), o, i).value;
              0 <= c && c + 4 <= |v.Struct()| == |s'| && Load32(s', c) == (Load32(v.Struct(), c) + d) % TWO32
    {
      WordRaised(v, d, s', o, i);
    }
  }

  lemma BlockRaised(v: Blob, d: nat, s': seq<byte>)
    requires Overlay(v) && d < TWO32 && RenumberedBlock(v.Struct(), Phandles(v), RefsRead(v, d), d, s')
    requires LocalOk(v.Tree().value, FixupsRead(v, d))
    ensures AllRaised(v, FixupsRead(v, d), d, s')
  {
    var fx := FixupsRead(v, d);
    hide BlobTree, PhandleAt, Phandles, RefsRead, FixupsRead, LocalOk, Load32, WordCell, RenumberedBlock, PhandlesUp,
         WordsUp, Untold, Overlay, Blob.Struct, Blob.Strings;
    BlockPhandles(v, d, s');
    BlockWords(v, d, s');
    forall k: nat | k < |v.Struct()| && Untold(v, fx, k)
      ensures |s'| == |v.Struct()| && s'[k] == v.Struct()[k]
    {
      RestStays(v, d, s', k);
    }
  }

  lemma WordAt(t: Tree, fx: Option<Fixups>, j: nat) returns (o: int, i: nat)
    requires t.NodeT? && LocalOk(t, fx) && j < |LocalRefs(t, fx)|
    ensures WordCell(t, fx, o, i) == Some(LocalRefs(t, fx)[j])
  {
    hide Refs, RefsOk, Named, HLen;
    o, i := WordOf(HLen(t.name), t.kids, fx.value.kids, j);
  }

  // ----- what that means for one location -----

  /** A phandle that no reference touches is `d` higher, and no cell that is not listed changes. */
  lemma PhandleMoved(s: seq<byte>, ph: seq<int>, refs: seq<int>, d: nat, s': seq<byte>, p: nat)
    requires RenumberedBlock(s, ph, refs, d, s') && p + 4 <= |s| && Whole(ph + refs, p)
    ensures p in ph && p !in refs ==> Times(ph + refs, p) == 1 && Load32(s', p) == Load32(s, p) + d < TWO32 - 1
    ensures p !in ph && p !in refs ==> Load32(s', p) == Load32(s, p)
  {
    hide Load32, Apart, Whole;
    TimesBoth(ph, refs, p);
    TimesIn(ph, p);
    TimesIn(refs, p);
    if p in ph {
      OnceApart(ph, p);
      var i :| 0 <= i < |ph| && ph[i] == p;
    }
    RaisedFew(Load32(s, p), d);
  }

  /** All additions together. */
  lemma {:induction false} RaisedSum(v: nat, k: nat, d: nat)
    requires v < TWO32 && d < TWO32
    ensures Raised(v, k, d) == (v + k * d) % TWO32
    decreases k
  {
    if k > 0 {
      var w, e := Wrap32(v + d), (k - 1) * d;
      RaisedSum(w, k - 1, d);
      assert v + k * d == v + d + e;
      OneTurn(w, v + d, e);
    }
  }

  lemma OneTurn(w: nat, x: nat, e: nat)
    requires w == x || w + TWO32 == x
    ensures (w + e) % TWO32 == (x + e) % TWO32
  {
  }

  /** A number moved up once and the same number moved up more often. */
  lemma TurnsEqual(v: nat, k: nat, d: nat)
    requires v + d < TWO32 && k >= 1
    ensures Raised(v, k, d) == v + d <==> ((k - 1) * d) % TWO32 == 0
  {
    var e := (k - 1) * d;
    RaisedSum(v, k, d);
    assert v + k * d == v + d + e;
    FullTurn(v + d, e);
  }

  lemma FullTurn(x: nat, e: nat)
    requires x < TWO32
    ensures (x + e) % TWO32 == x <==> e % TWO32 == 0
  {
  }

  /** A reference that is listed once names the node it named, and no other; one that is listed more
      often names it still exactly when the surplus wraps to nothing. */
  lemma ReferenceKept(s: seq<byte>, ph: seq<int>, refs: seq<int>, d: nat, s': seq<byte>, p: nat, q: nat)
    requires d < TWO32 && RenumberedBlock(s, ph, refs, d, s') && p + 4 <= |s| && q + 4 <= |s|
    requires p in ph && p !in refs && Whole(ph + refs, p) && q in refs && Whole(ph + refs, q)
    ensures Times(ph + refs, q) == 1 ==> (Load32(s', q) == Load32(s', p) <==> Load32(s, q) == Load32(s, p))
    ensures Load32(s, q) == Load32(s, p) ==>
              (Load32(s', q) == Load32(s', p) <==> ((Times(ph + refs, q) - 1) * d) % TWO32 == 0)
  {
    hide Load32, Apart, Whole, Room, CellsIn;
    PhandleMoved(s, ph, refs, d, s', p);
    TimesBoth(ph, refs, q);
    TimesIn(refs, q);
    var k := Times(ph + refs, q);
    assert Load32(s', q) == Raised(Load32(s, q), k, d);
    RaisedFew(Load32(s, q), d);
    if Load32(s, q) == Load32(s, p) {
      TurnsEqual(Load32(s, q), k, d);
    }
  }

  // ----- overlays with one reference -----

  function FixupsName(): seq<byte> {
    LOCAL_FIXUPS[1..]
  }

  /** A root with the phandle 1, a property `r` with the value `rv`, and a list of offsets for it. */
  function Sample(rv: seq<byte>, list: seq<byte>): Tree {
    var one: seq<byte> := [0, 0, 0, 1];
    NodeT([], PropT(PHANDLE, one, PropT([114], rv, NodeT(FixupsName(), PropT([114], list, Leaf), Leaf))), Leaf)
  }

  lemma SamplePath()
    ensures FixupsNames() == [FixupsName()]
  {
    CompsOne(FixupsName());
  }

  lemma SampleFixups(rv: seq<byte>, list: seq<byte>)
    requires |rv| % 4 == 0
    ensures FixupsOf(Sample(rv, list)) == Some(Fixups(36 + |rv|, FixupsName(), PropT([114], list, Leaf)))
  {
    SamplePath();
    var one: seq<byte> := [0, 0, 0, 1];
    ThirdChild(PHANDLE, one, [114], rv, FixupsName(), PropT([114], list, Leaf));
  }

  lemma ThirdChild(x: seq<byte>, v: seq<byte>, y: seq<byte>, w: seq<byte>, n: seq<byte>, k: Tree)
    requires |v| == 4 && |w| % 4 == 0 && FixupsNames() == [n]
    ensures FixupsOf(NodeT([], PropT(x, v, PropT(y, w, NodeT(n, k, Leaf))), Leaf)) == Some(Fixups(36 + |w|, n, k))
  {
    hide NameEq, Comps, FixupsNames;
    NameEqSelf(n);
    var z := NodeT(n, k, Leaf);
    var r := PropT(y, w, z);
    var t := NodeT([], PropT(x, v, r), Leaf);
    var l := 12 + |w|;
    assert HLen([]) == 8 && Len(Prop(x, v)) == 16 && Len(Prop(y, w)) == l;
    assert Look(24, r, [n]) == Look(24 + l, z, [n]) == Some(24 + l);
    assert At(r, l) == Some(z) && At(t.kids, 16 + l) == Some(z);
    InKids(t, 16 + l);
  }

  lemma SampleCells(rv: seq<byte>, list: seq<byte>)
    requires |rv| % 4 == 0
    ensures PhandleCells(8, Sample(rv, list).kids) == [20]
    ensures LocalRefs(Sample(rv, list), FixupsOf(Sample(rv, list))) == Shift(36, Words(list))
  {
    SampleFixups(rv, list);
    hide FixupsOf, Words, Shift;
    var t := Sample(rv, list);
    var r := t.kids.rest;
    assert HLen([]) == 8 && Len(Prop(PHANDLE, t.kids.val)) == 16;
    assert FindProp(24, r, [114]) == Some(24) && FindProp(8, t.kids, [114]) == Some(24);
    var fk := PropT([114], list, Leaf);
    assert RefProps(8, t.kids, Leaf) == [] && RefProps(8, t.kids, fk) == Shift(36, Words(list))
           && RefKids(8, t.kids, fk) == [];
    assert FindProp(8, t.kids, PHANDLE) == Some(8);
    assert LINUX_PHANDLE != PHANDLE && LINUX_PHANDLE != [114];
    assert FindProp(24, r, LINUX_PHANDLE) == None && FindProp(8, t.kids, LINUX_PHANDLE) == None;
    assert KidCells(8, t.kids) == [] by {
      SampleKids(rv, list);
    }
  }

  lemma SampleKids(rv: seq<byte>, list: seq<byte>)
    ensures KidCells(8, Sample(rv, list).kids) == []
  {
    var t := Sample(rv, list);
    var x := t.kids.rest.rest;
    assert [114] != PHANDLE && [114] != LINUX_PHANDLE;
    forall o ensures PhandleCells(o, x.kids) == [] {
      var e := o + Len(Prop([114], list));
      assert FindProp(e, Leaf, PHANDLE) == None && FindProp(e, Leaf, LINUX_PHANDLE) == None && KidCells(e, Leaf) == [];
      assert FindProp(o, x.kids, PHANDLE) == None && FindProp(o, x.kids, LINUX_PHANDLE) == None;
    }
    assert forall o :: KidCells(o, x) == [];
    assert forall o :: KidCells(o, t.kids.rest) == [];
  }

  /** The cell of the phandle, and the value of `r`. */
  lemma SampleBytes(v: Blob, rv: seq<byte>, list: seq<byte>)
    requires v.Fits() && v.Tree() == Some(Sample(rv, list))
    ensures |v.Struct()| >= 36 + |rv| && Load32(v.Struct(), 20) == 1 && v.Struct()[36..36 + |rv|] == rv
  {
    hide BlobTree, Name, Load32, LOCAL_FIXUPS, FixupsName;
    var t, one: seq<byte> := Sample(rv, list), [0, 0, 0, 1];
    assert HLen([]) == 8 && Len(Prop(PHANDLE, one)) == 16;
    assert At(t.kids, 0) == Some(t.kids) && At(t.kids, 16) == Some(t.kids.rest);
    InKids(t, 0);
    AtBound(t.kids, 16);
    InKids(t, 16);
    hide At;
    PropBytesAt(v, 8, t.kids);
    PropBytesAt(v, 24, t.kids.rest);
    SliceLoad(v.Struct(), 20, 24, 0);
    OneIs();
  }

  lemma OneIs()
    ensures Load32([0, 0, 0, 1], 0) == 1
  {
  }

  /** Nothing else is wrong with it when the list stays inside the value. */
  lemma SampleGood(v: Blob, rv: seq<byte>, list: seq<byte>, d: nat)
    requires v.Fits() && v.Tree() == Some(Sample(rv, list)) && d < TWO32 - 2 && |rv| % 4 == 0 && |list| % 4 == 0
    requires forall i :: 0 <= i < |Words(list)| ==> Words(list)[i] + 4 <= |rv|
    ensures Overlay(v) && Phandles(v) == [20] && PhandlesFit(v, d) && RefsRead(v, d) == Shift(36, Words(list))
    ensures var t := Sample(rv, list); LocalIn(t, FixupsRead(v, d)) && LocalOk(t, FixupsRead(v, d))
  {
    hide BlobTree, PhandleCells, LocalRefs, Load32, FixupsOf, Sample, PhandlesOk, LocalOk, LocalIn, HLen, Words, Shift;
    SampleBytes(v, rv, list);
    SampleShape(rv, list);
    SampleCells(rv, list);
    SampleFixups(rv, list);
    SampleLists(rv, list);
  }

  lemma SampleShape(rv: seq<byte>, list: seq<byte>)
    ensures var t := Sample(rv, list); t.NodeT? && t.name == [] && HLen([]) == 8 && PhandlesOk(t.kids)
  {
    hide LOCAL_FIXUPS, FixupsName;
    var t := Sample(rv, list);
    var x := t.kids.rest.rest;
    assert [114] != PHANDLE && [114] != LINUX_PHANDLE && LINUX_PHANDLE != PHANDLE;
    assert FirstVal(Leaf, PHANDLE) == None && FirstVal(Leaf, LINUX_PHANDLE) == None && KidsOk(Leaf) && KidsOk(x.kids);
    assert FirstVal(x.kids, PHANDLE) == None && FirstVal(x.kids, LINUX_PHANDLE) == None && PhandlesOk(x.kids);
    assert KidsOk(x) && KidsOk(t.kids.rest) && KidsOk(t.kids);
    assert FirstVal(x, LINUX_PHANDLE) == None;
    assert FirstVal(t.kids.rest, LINUX_PHANDLE) == FirstVal(x, LINUX_PHANDLE);
    assert FirstVal(t.kids, LINUX_PHANDLE) == FirstVal(t.kids.rest, LINUX_PHANDLE);
  }

  lemma SampleLists(rv: seq<byte>, list: seq<byte>)
    requires |rv| % 4 == 0 && |list| % 4 == 0 && forall i :: 0 <= i < |Words(list)| ==> Words(list)[i] + 4 <= |rv|
    ensures var t := Sample(rv, list); LocalIn(t, FixupsOf(t)) && LocalOk(t, FixupsOf(t)) && Away([20], FixupsOf(t))
  {
    SampleFixups(rv, list);
    SampleCells(rv, list);
    SampleProp(rv, list);
    ShiftBefore(list, |rv|);
    hide FixupsOf, LocalRefs, LOCAL_FIXUPS, FixupsName, RefsIn, RefsOk, Words, Shift, FindProp, FirstVal, HLen, PHANDLE;
    OneList(8, Sample(rv, list).kids, [114], list);
  }

  lemma SampleProp(rv: seq<byte>, list: seq<byte>)
    ensures var t := Sample(rv, list);
            HLen(t.name) == 8 && FirstVal(t.kids, [114]) == Some(rv) && FindProp(8, t.kids, [114]) == Some(24)
  {
    hide LOCAL_FIXUPS, FixupsName;
    var t, r: seq<byte> := Sample(rv, list), [114];
    assert HLen([]) == 8 && PHANDLE != r && Len(Prop(PHANDLE, t.kids.val)) == 16;
    assert FirstVal(t.kids.rest, r) == Some(rv) && FindProp(24, t.kids.rest, r) == Some(24);
  }

  lemma ShiftBefore(list: seq<byte>, n: nat)
    requires forall i :: 0 <= i < |Words(list)| ==> Words(list)[i] + 4 <= n
    ensures var ls := Shift(36, Words(list)); forall i :: 0 <= i < |ls| ==> ls[i] + 4 <= 36 + n
  {
    hide Words;
  }

  /** One list that stays inside the value it is for. */
  lemma OneList(off: int, tk: Tree, n: seq<byte>, list: seq<byte>)
    requires FindProp(off, tk, n).Some? && FirstVal(tk, n).Some? && |list| % 4 == 0
    requires forall i :: 0 <= i < |Words(list)| ==> Words(list)[i] + 4 <= |FirstVal(tk, n).value|
    ensures var fk := PropT(n, list, Leaf); RefsIn(off, tk, fk) && RefsOk(off, tk, fk)
  {
    hide FindProp, FirstVal, Words;
    var fk := PropT(n, list, Leaf);
    assert PropsIn(off, tk, Leaf) && PropsOk(off, tk, Leaf) && RefKidsIn(off, tk, fk) && RefKidsOk(off, tk, fk);
  }

  const ONE: seq<byte> := [0, 0, 0, 1]
  const ZEROS: seq<byte> := [0, 0, 0, 0, 0, 0, 0, 0]

  lemma ZeroWords()
    ensures Words(ZEROS) == [0, 0] && Shift(36, [0, 0]) == [36, 36]
  {
    assert ZEROS[4..] == [0, 0, 0, 0] && ZEROS[4..][4..] == [];
  }

  lemma TwiceAstray(s: seq<byte>, d: nat, s': seq<byte>)
    requires 0 < d < TWO32 && |s| >= 40 && Load32(s, 36) == Load32(s, 20) && RenumberedBlock(s, [20], [36, 36], d, s')
    ensures |s'| == |s| && Load32(s', 36) != Load32(s', 20)
  {
    hide Load32, Raised, Room;
    var ph, refs: seq<int> := [20], [36, 36];
    var all := ph + refs;
    assert all == [20, 36, 36] && all[1..] == [36, 36] && all[1..][1..] == [36] && all[1..][1..][1..] == [];
    assert Times(all, 36) == 2;
    ReferenceKept(s, ph, refs, d, s', 20, 36);
  }

  /** A blob that lists a location twice is renumbered without complaint, and its reference no longer names the
      node it named, for any distance but 0. */
  method ListedTwice(f: Fdt, delta: nat) returns (ret: int)
    requires f.View().Fits() && Disjoint(f.h) && f.View().Tree() == Some(Sample(ONE, ZEROS)) && 0 < delta < TWO32 - 2
    modifies f.buf
    ensures ret == 0 && f.View().Fits()
    ensures var (s, s') := (old(f.View()).Struct(), f.View().Struct());
            |s'| == |s| >= 40 && Load32(s, 36) == Load32(s, 20) && Load32(s', 36) != Load32(s', 20)
  {
    hide BlobTree, Sample, Phandles, PhandlesFit, RefsRead, FixupsRead, LocalIn, LocalOk, RenumberedBlock, Load32,
         Words,
         Shift;
    ZeroWords();
    SampleGood(f.View(), ONE, ZEROS, delta);
    SampleBytes(f.View(), ONE, ZEROS);
    ghost var s := f.View().Struct();
    SliceLoad(s, 36, 40, 0);
    OneIs();
    ret := Renumber(f, delta);
    TwiceAstray(s, delta, f.View().Struct());
  }

  const SEVEN_ONE: seq<byte> := [0, 0, 0, 7, 0, 0, 0, 1]
  const FOUR: seq<byte> := [0, 0, 0, 4]

  lemma FourWords()
    ensures Words(FOUR) == [4] && Shift(36, [4]) == [40]
    ensures Load32(SEVEN_ONE, 0) == 7 && Load32(SEVEN_ONE, 4) == 1
  {
    assert FOUR[4..] == [];
  }

  lemma FourMoved(s: seq<byte>, d: nat, s': seq<byte>)
    requires d < TWO32 && |s| >= 44 && RenumberedBlock(s, [20], [40], d, s') && Load32(s, 20) == 1 && Load32(s, 40) == 1
    ensures |s'| == |s| && Load32(s', 36) == Load32(s, 36) && Load32(s', 20) == Load32(s', 40) == 1 + d
  {
    hide Load32, Raised, Room;
    var ph, refs: seq<int> := [20], [40];
    var all := ph + refs;
    assert all == [20, 40] && all[1..] == [40] && all[1..][1..] == [];
    assert Times(all, 40) == 1;
    PhandleMoved(s, ph, refs, d, s', 20);
    PhandleMoved(s, ph, refs, d, s', 36);
    ReferenceKept(s, ph, refs, d, s', 20, 40);
  }

  /** A value `<7 1>` with the list `<4>`: the reference behind the literal moves with the phandle, and the
      literal stays. */
  method ListedBehind(f: Fdt, delta: nat) returns (ret: int)
    requires f.View().Fits() && Disjoint(f.h) && f.View().Tree() == Some(Sample(SEVEN_ONE, FOUR)) && delta < TWO32 - 2
    modifies f.buf
    ensures ret == 0 && f.View().Fits() && |f.View().Struct()| >= 44
    ensures var s' := f.View().Struct(); Load32(s', 36) == 7 && Load32(s', 40) == Load32(s', 20) == 1 + delta
  {
    hide BlobTree, Sample, Phandles, PhandlesFit, RefsRead, FixupsRead, LocalIn, LocalOk, RenumberedBlock, Load32,
         Words,
         Shift;
    FourWords();
    SampleGood(f.View(), SEVEN_ONE, FOUR, delta);
    SampleBytes(f.View(), SEVEN_ONE, FOUR);
    ghost var s := f.View().Struct();
    SliceLoad(s, 36, 44, 0);
    SliceLoad(s, 36, 44, 4);
    ret := Renumber(f, delta);
    FourMoved(s, delta, f.View().Struct());
  }

  /** The start of fdt_overlay_apply(): with the highest phandle of the base as the distance, every
      phandle of the overlay that is not 0 ends up above every phandle of the base. */
  method RenumberAbove(base: Blob, f: Fdt) returns (ret: int)
    requires base.Fits() && base.Tree().Some? && Overlay(f.View()) && Disjoint(f.h)
    requires var (v, d) := (f.View(), MaxPhandle(base.Tree().value));
             d < TWO32 && PhandlesFit(v, d) ==> LocalIn(v.Tree().value, FixupsRead(v, d))
    modifies f.buf
    ensures ret <= 0 && f.View().Fits()
    ensures ret == 0 ==>
              var (v, s', d) := (old(f.View()), f.View().Struct(), MaxPhandle(base.Tree().value));
              d < TWO32 && AllRaised(v, FixupsRead(v, d), d, s')
              && forall node', name, po, node ::
                   PhandleAt(v, node', name, po) && ClearOfWords(v.Tree().value, FixupsRead(v, d), po + 12, None)
                   && base.IsNode(node) ==>
                     0 <= po + 12 && po + 16 <= |v.Struct()| == |s'|
                     && (Load32(v.Struct(), po + 12) != 0 ==> AllBelow(base.Node(node).kids, Load32(s', po + 12)))
  {
    hide SameShape, BlobTree, At, Phandles, RefsRead, FixupsRead, LocalIn, LocalOk, RenumberedBlock, MaxPhandle,
         Load32, PhandlesFit, ClearOfWords, PhandleAt, AllBelow;
    ghost var v := f.View();
    var err, delta := FindMaxPhandle(base);
    ret := Renumber(f, delta);
    if ret == 0 {
      ghost var s, s', t, fx := v.Struct(), f.View().Struct(), v.Tree().value, FixupsRead(v, delta);
      forall node', name, po, node | PhandleAt(v, node', name, po) && ClearOfWords(t, fx, po + 12, None)
        && base.IsNode(node)
        ensures 0 <= po + 12 && po + 16 <= |s| == |s'|
                && (Load32(s, po + 12) != 0 ==> AllBelow(base.Node(node).kids, Load32(s', po + 12)))
      {
        PhandlesBelow(base, node, Load32(s', po + 12));
      }
    }
  }

  /** The phandle of a node with this content is below `x`: a "phandle" of four bytes, else a "linux,phandle" of
      four bytes. */
  ghost predicate AllBelow(t: Tree, x: int) {
    var (a, b) := (FirstVal(t, PHANDLE), FirstVal(t, LINUX_PHANDLE));
    (a.Some? && |a.value| == 4 ==> Load32(a.value, 0) < x)
    && (!(a.Some? && |a.value| == 4) && b.Some? && |b.value| == 4 ==> Load32(b.value, 0) < x)
  }

  lemma PhandlesBelow(b: Blob, node: int, x: int)
    requires b.Readable() && b.IsNode(node)
    ensures MaxPhandle(b.Tree().value) < x ==> AllBelow(b.Node(node).kids, x)
  {
    hide BlobTree, At, MaxPhandle, FirstVal, Phandle, Load32;
    MaxIsMax(b.Tree().value, node);
    PhandleMeans(b.Node(node).kids);
  }
}

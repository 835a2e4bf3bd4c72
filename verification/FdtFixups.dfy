/** Local references of an overlay (fdt_overlay.c): the cells listed under /__local_fixups__ move up
    with the phandles they name. */
module FdtFixups {
  import opened Options
  import opened FdtTokens
  import opened FdtTree
  import opened FdtBlob
  import opened FdtWalk
  import opened FdtRo
  import opened FdtProps
  import opened FdtEdit
  import opened FdtRw
  import opened FdtSetprop
  import opened FdtGetprop
  import opened FdtShape
  import opened FdtFrozen
  import opened FdtPhandle

  // ----- the cells a fixups node lists -----

  /** The big-endian words of a value. */
  function Words(val: seq<byte>): seq<nat> {
    if |val| < 4 then [] else [Load32(val, 0)] + Words(val[4..])
  }

  /** Cells at offsets into a value that starts at `base`. */
  function Shift(base: int, ls: seq<nat>): (r: seq<int>)
    ensures |r| == |ls|
  {
    seq(|ls|, i requires 0 <= i < |ls| => base + ls[i])
  }

  /** The cells in the properties of a node with content `tk` at `off`, from the properties in `fk`. */
  function RefProps(off: int, tk: Tree, fk: Tree): seq<int> {
    match fk
    case NopT(r) => RefProps(off, tk, r)
    case PropT(n, v, r) =>
      var p := FindProp(off, tk, n);
      (if p.Some? then Shift(p.value + 12, Words(v)) else []) + RefProps(off, tk, r)
    case _ => []
  }

  /** The child that a search by name finds, and its offset. */
  function KidOf(off: int, tk: Tree, name: seq<byte>): Option<(int, Tree)> {
    var p := FindKid(off, tk, Some(name));
    if p.Some? && At(tk, p.value - off).Some? then Some((p.value, At(tk, p.value - off).value)) else None
  }

  function Refs(off: int, tk: Tree, fk: Tree): seq<int>
    decreases fk, 1
  {
    RefProps(off, tk, fk) + RefKids(off, tk, fk)
  }

  function RefKids(off: int, tk: Tree, fk: Tree): seq<int>
    decreases fk, 0
  {
    match fk
    case Leaf => []
    case NopT(r) => RefKids(off, tk, r)
    case PropT(_, _, r) => RefKids(off, tk, r)
    case NodeT(n, k, r) =>
      var c := KidOf(off, tk, n);
      (if c.Some? && c.value.1.NodeT? then Refs(c.value.0 + HLen(c.value.1.name), c.value.1.kids, k) else [])
      + RefKids(off, tk, r)
  }

  /** Every listed property and node exists, and every list is of whole words. */
  predicate PropsOk(off: int, tk: Tree, fk: Tree) {
    match fk
    case NopT(r) => PropsOk(off, tk, r)
    case PropT(n, v, r) => |v| % 4 == 0 && FindProp(off, tk, n).Some? && PropsOk(off, tk, r)
    case _ => true
  }

  predicate RefsOk(off: int, tk: Tree, fk: Tree)
    decreases fk, 1
  {
    PropsOk(off, tk, fk) && RefKidsOk(off, tk, fk)
  }

  predicate RefKidsOk(off: int, tk: Tree, fk: Tree)
    decreases fk, 0
  {
    match fk
    case Leaf => true
    case NopT(r) => RefKidsOk(off, tk, r)
    case PropT(_, _, r) => RefKidsOk(off, tk, r)
    case NodeT(n, k, r) =>
      var c := KidOf(off, tk, n);
      c.Some? && c.value.1.NodeT? && RefsOk(c.value.0 + HLen(c.value.1.name), c.value.1.kids, k)
        && RefKidsOk(off, tk, r)
  }

  /** The code trusts the lists to stay inside the values they point into. */
  predicate PropsIn(off: int, tk: Tree, fk: Tree) {
    match fk
    case NopT(r) => PropsIn(off, tk, r)
    case PropT(n, v, r) =>
      (FirstVal(tk, n).Some? ==> forall i :: 0 <= i < |Words(v)| ==> Words(v)[i] + 4 <= |FirstVal(tk, n).value|)
      && PropsIn(off, tk, r)
    case _ => true
  }

  predicate RefsIn(off: int, tk: Tree, fk: Tree)
    decreases fk, 1
  {
    PropsIn(off, tk, fk) && RefKidsIn(off, tk, fk)
  }

  predicate RefKidsIn(off: int, tk: Tree, fk: Tree)
    decreases fk, 0
  {
    match fk
    case Leaf => true
    case NopT(r) => RefKidsIn(off, tk, r)
    case PropT(_, _, r) => RefKidsIn(off, tk, r)
    case NodeT(n, k, r) =>
      var c := KidOf(off, tk, n);
      (c.Some? && c.value.1.NodeT? ==> RefsIn(c.value.0 + HLen(c.value.1.name), c.value.1.kids, k))
        && RefKidsIn(off, tk, r)
  }

  ghost predicate Added(s: seq<byte>, ls: seq<int>, d: nat, s': seq<byte>)
    requires d < TWO32
  {
    CellsIn(ls, |s|) && s' == AddCells(s, ls, d)
  }

  lemma AddedNone(s: seq<byte>, d: nat)
    requires d < TWO32
    ensures Added(s, [], d, s)
  {
  }

  lemma AddedThen(s: seq<byte>, a: seq<int>, s1: seq<byte>, b: seq<int>, s2: seq<byte>, d: nat)
    requires d < TWO32 && Added(s, a, d, s1) && Added(s1, b, d, s2)
    ensures Added(s, a + b, d, s2)
  {
    hide AddCells;
    AddCellsThen(s, a, b, d);
  }

  lemma AddedOne(s: seq<byte>, o: nat, d: nat)
    requires d < TWO32 && o + 4 <= |s|
    ensures Added(s, [o], d, AddCell(s, o, d))
  {
    hide AddCell;
    assert [o][0] == o && [o][1..] == [];
    assert AddCells(AddCell(s, o, d), [], d) == AddCell(s, o, d);
  }

  /** Cells that have no byte in common. */
  predicate NoTouch(a: int, b: int) {
    a + 4 <= b || b + 4 <= a
  }

  lemma {:induction false} NotListed(ls: seq<int>, p: int)
    requires forall i :: 0 <= i < |ls| ==> ls[i] != p
    ensures Times(ls, p) == 0
  {
    if ls != [] {
      assert forall i :: 0 <= i < |ls[1..]| ==> ls[1..][i] == ls[i + 1];
      NotListed(ls[1..], p);
    }
  }

  /** A cell that no other listed cell touches is listed once. */
  lemma {:induction false} ListedOnce(ls: seq<int>, j: nat)
    requires j < |ls| && forall k :: 0 <= k < |ls| && k != j ==> NoTouch(ls[k], ls[j])
    ensures Times(ls, ls[j]) == 1 && Whole(ls, ls[j])
  {
    var r := ls[1..];
    assert forall i :: 0 <= i < |r| ==> r[i] == ls[i + 1];
    if j == 0 {
      NotListed(r, ls[0]);
    } else {
      ListedOnce(r, j - 1);
    }
  }

  /** And is moved up once. */
  lemma AddedAt(s: seq<byte>, ls: seq<int>, d: nat, s': seq<byte>, j: nat)
    requires d < TWO32 && Added(s, ls, d, s') && j < |ls|
    ensures |s'| == |s| && 0 <= ls[j] && ls[j] + 4 <= |s|
    ensures (forall k :: 0 <= k < |ls| && k != j ==> NoTouch(ls[k], ls[j])) ==>
              Load32(s', ls[j]) == (Load32(s, ls[j]) + d) % TWO32
  {
    hide Load32, AddCells;
    if forall k :: 0 <= k < |ls| && k != j ==> NoTouch(ls[k], ls[j]) {
      ListedOnce(ls, j);
      CellsAfter(s, ls, d, ls[j]);
      RaisedOnce(Load32(s, ls[j]), d);
    }
  }

  lemma RaisedOnce(v: nat, d: nat)
    requires v < TWO32 && d < TWO32
    ensures Raised(v, 1, d) == (v + d) % TWO32
  {
  }

  /** A byte in no listed cell stays. */
  lemma {:induction false} ByteStays(s: seq<byte>, ls: seq<int>, d: nat, k: nat)
    requires d < TWO32 && CellsIn(ls, |s|) && k < |s|
    requires forall j :: 0 <= j < |ls| ==> !(ls[j] <= k < ls[j] + 4)
    ensures AddCells(s, ls, d)[k] == s[k]
    decreases |ls|
  {
    if ls != [] {
      var o, r := ls[0], ls[1..];
      assert forall i :: 0 <= i < |r| ==> r[i] == ls[i + 1];
      assert AddCell(s, o, d)[k] == s[k];
      hide AddCell;
      ByteStays(AddCell(s, o, d), r, d, k);
    }
  }

  /** fdt32_st(refp, fdt32_ld(refp) + delta) */
  method AddRef(f: Fdt, o: nat, delta: nat)
    requires f.View().Fits() && Disjoint(f.h) && o + 4 <= f.h.sizeStruct && delta < TWO32
    modifies f.buf
    ensures f.View().Fits() && f.View().Strings() == old(f.View()).Strings()
            && f.View().Struct() == AddCell(old(f.View()).Struct(), o, delta)
  {
    hide Over, Enc32, Load32;
    var val := f.View().Ld32(f.h.offStruct + o);
    Memcpy(f.buf, f.h.offStruct + o, Enc32(Wrap32(val + delta)));
    StoreBlocks(old(f.View()), f.View(), o, Enc32(Wrap32(val + delta)));
  }

  /** One reference inside the value it is listed for. */
  method StoreRef(f: Fdt, po: nat, k: nat, delta: nat, ghost t: Tree, ghost w: Tree, ghost fx: Fixups)
    requires Live(f.View(), t) && Frozen(f.View(), fx) && delta < TWO32
    requires At(f.View().Tree().value, po) == Some(w) && w.PropT? && k + 4 <= |w.val| && Outside([po + 12 + k], fx)
    modifies f.buf
    ensures Live(f.View(), t) && Frozen(f.View(), fx)
            && Added(old(f.View()).Struct(), [po + 12 + k], delta, f.View().Struct())
  {
    hide SameShape, At, AddCell, Over, BlobTree, Enc32, Load32, Added, Outside;
    ghost var v := f.View();
    PropInside(v, po, w);
    AddRef(f, po + 12 + k, delta);
    AddCellIs(v.Struct(), po + 12 + k, delta);
    ghost var cell := Enc32(Wrap32(Load32(v.Struct(), po + 12 + k) + delta));
    StoreLive(v, f.View(), t, po, w, k, cell);
    StoreFrozen(v, f.View(), po, w, k, cell, fx);
    AddedOne(v.Struct(), po + 12 + k, delta);
  }

  // ----- a listed offset behind the value -----

  predicate IsTag(n: int) {
    n == FDT_BEGIN_NODE || n == FDT_END_NODE || n == FDT_PROP || n == FDT_NOP || n == FDT_END
  }

  /** A stream does not survive the loss of the tag of one of its tokens. */
  lemma {:induction false} TagLost(s: seq<byte>, s': seq<byte>, st: Strs, ts: seq<Tok>, off: nat)
    requires Scan(s, st) == Some(ts) && Suffix(ts, off).Some? && Suffix(ts, off).value != []
    requires off + 4 <= |s| == |s'| && s'[..off] == s[..off] && !IsTag(Load32(s', off))
    ensures Scan(s', st) == None
    decreases off
  {
    hide Head, Len, Load32;
    if off == 0 {
      NoTag(s', st);
    } else {
      var n := Len(ts[0]);
      ScanStep(s, st, ts);
      HeadTrim(s, st, n);
      HeadLocal(s[..n], s'[n..], st);
      SameFront(s, s', n, off);
      TagLost(s[n..], s'[n..], st, ts[1..], off - n);
    }
  }

  lemma NoTag(s: seq<byte>, st: Strs)
    requires |s| >= 4 && !IsTag(Load32(s, 0))
    ensures Head(s, st) == None
  {
  }

  lemma SameFront(s: seq<byte>, s': seq<byte>, n: nat, off: nat)
    requires n <= off && off + 4 <= |s| == |s'| && s'[..off] == s[..off]
    ensures s' == s[..n] + s'[n..] && s'[n..][..off - n] == s[n..][..off - n]
    ensures Load32(s'[n..], off - n) == Load32(s', off)
  {
    hide Load32;
    assert s[..n] == s[..off][..n] && s'[..n] == s'[..off][..n];
    assert s'[n..][..off - n] == s'[..off][n..] && s[n..][..off - n] == s[..off][n..];
    SliceLoad(s', n, |s'|, off - n);
    assert s'[n..] == s'[n..|s'|];
  }

  /** The token behind a property. */
  lemma NextToken(v: Blob, po: int, w: Tree)
    requires v.Fits() && v.Tree().Some? && At(v.Tree().value, po) == Some(w) && w.PropT?
    ensures var x := Suffix(v.Toks().value, po + Len(Prop(w.name, w.val))); x.Some? && x.value != []
  {
    hide Scan, TreeOf, At, Suffix, Len, Flat;
    var t, ts := v.Tree().value, v.Toks().value;
    var post := AtSuffix(t, po);
    TreeOfFlat(ts, t);
    FirstOf(w, post);
    TagAtSuffix(v.Struct(), v.Strings(), ts, po);
  }

  /** Raising a cell behind a property: where the next token starts, the cell is its tag. */
  lemma TreeLost(v: Blob, v': Blob, po: nat, w: Tree, o: nat, d: nat)
    requires v.Fits() && v'.Fits() && v'.Strings() == v.Strings() && d < TWO32
    requires v.Tree().Some? && At(v.Tree().value, po) == Some(w) && w.PropT?
    requires o + 4 <= |v.Struct()| && v'.Struct() == AddCell(v.Struct(), o, d)
    ensures o == po + 12 + Align4(|w.val|) && !IsTag(Wrap32(Load32(v.Struct(), o) + d)) ==> v'.Tree() == None
  {
    hide Scan, TreeOf, At, Align4, Load32, Over, Enc32, Suffix, IsTag;
    if o == po + 12 + Align4(|w.val|) && !IsTag(Wrap32(Load32(v.Struct(), o) + d)) {
      var s := v.Struct();
      var x := Wrap32(Load32(s, o) + d);
      NextToken(v, po, w);
      HideOver(s, o, Enc32(x), 0, o);
      OverLoad(s, o, Enc32(x), o);
      TagLost(s, v'.Struct(), v.Strings(), v.Toks().value, o);
    }
  }

  /** The body of the property loop of overlay_update_local_node_references() for a list of one offset, which
      lies behind the value: the store raises the cell there and leaves the value alone. On the tag of the
      next token it leaves no tree, unless the sum is a tag. */
  method StrayReference(f: Fdt, node: int, name: seq<byte>, k: nat, delta: nat) returns (po: int)
    requires f.View().Fits() && Disjoint(f.h) && f.View().IsNode(node) && IsInt(node) && delta < TWO32
    requires OldProp(f.View(), node, name).Some?
    requires var p := OldProp(f.View(), node, name).value;
             p >= 0 && IsProp(f.View(), p) && |PropAt(f.View(), p).val| <= k && p + 12 + k + 4 <= f.h.sizeStruct
    modifies f.buf
    ensures po == OldProp(old(f.View()), node, name).value && f.View().Fits()
    ensures var (v, v') := (old(f.View()), f.View());
            var w := PropAt(v, po);
            0 <= po && po + 12 + k + 4 <= |v.Struct()| && v'.Strings() == v.Strings()
            && v'.Struct() == AddCell(v.Struct(), po + 12 + k, delta)
            && PropBytes(v'.Struct(), v'.Strings(), po, name, w.val)
            && (k == Align4(|w.val|) && !IsTag(Wrap32(Load32(v.Struct(), po + 12 + k) + delta)) ==> v'.Tree() == None)
  {
    hide At, BlobTree, Load32, AddCell, HLen, FindProp, Align4, PropBytes, IsTag, Blob.Strings, TSize;
    ghost var v := f.View();
    po := GetProperty(f.View(), node, name);
    OldPropAt(v, node, name, []);
    AddRef(f, po + 12 + k, delta);
    ValueKept(v.Struct(), v.Strings(), po, name, PropAt(v, po).val, po + 12 + k, delta);
    TreeLost(v, f.View(), po, PropAt(v, po), po + 12 + k, delta);
  }

  lemma ValueKept(s: seq<byte>, st: Strs, po: nat, name: seq<byte>, val: seq<byte>, o: nat, d: nat)
    requires PropBytes(s, st, po, name, val) && po + 12 + |val| <= o && o + 4 <= |s| && d < TWO32
    ensures PropBytes(AddCell(s, o, d), st, po, name, val)
  {
    hide Name, Load32, Over, Enc32;
    var x := Enc32(Wrap32(Load32(s, o) + d));
    OverLoad(s, o, x, po);
    OverLoad(s, o, x, po + 4);
    OverLoad(s, o, x, po + 8);
    HideOver(s, o, x, po + 12, po + 12 + |val|);
  }

  // ----- one listed property -----

  lemma {:induction false} WordsAt(val: seq<byte>, i: nat)
    requires |val| % 4 == 0
    ensures |Words(val)| == |val| / 4
    ensures i < |val| / 4 ==> Words(val)[i] == Load32(val, 4 * i)
    decreases |val|
  {
    hide Load32;
    if |val| >= 4 {
      WordsAt(val[4..], if i == 0 then 0 else i - 1);
      if 0 < i < |val| / 4 {
        SliceLoad(val, 4, |val|, 4 * (i - 1));
        assert val[4..] == val[4..|val|];
      }
    }
  }

  /** The property of a node of the tree, in the blob as it is now. */
  lemma PropLive(v: Blob, t: Tree, node: int, x: Tree, name: seq<byte>)
    requires Live(v, t) && At(t, node) == Some(x) && x.NodeT? && FindProp(node + HLen(x.name), x.kids, name).Some?
    ensures var p := FindProp(node + HLen(x.name), x.kids, name).value;
            p >= 0 && At(v.Tree().value, p).Some? && At(v.Tree().value, p).value.PropT?
            && FirstVal(x.kids, name).Some? && |At(v.Tree().value, p).value.val| == |FirstVal(x.kids, name).value|
  {
    hide FirstVal, BlobTree, HLen, FindProp, SameShape, At;
    NodeLive(v, t, node, x, name);
  }

  /** The body of the property loop of overlay_update_local_node_references(). */
  method FixProperty(f: Fdt, node: int, name: seq<byte>, val: seq<byte>, delta: nat, ghost t: Tree, ghost x: Tree,
                     ghost fx: Fixups)
    returns (ret: int)
    requires Live(f.View(), t) && Frozen(f.View(), fx) && At(t, node) == Some(x) && x.NodeT? && IsInt(node)
             && delta < TWO32
    requires FirstVal(x.kids, name).Some? ==>
               forall i :: 0 <= i < |Words(val)| ==> Words(val)[i] + 4 <= |FirstVal(x.kids, name).value|
    requires var p := FindProp(node + HLen(x.name), x.kids, name); p.Some? ==>
               Outside(Shift(p.value + 12, Words(val)), fx)
    modifies f.buf
    ensures Live(f.View(), t) && Frozen(f.View(), fx) && ret <= 0
    ensures var p := FindProp(node + HLen(x.name), x.kids, name);
            (ret == 0 <==> |val| % 4 == 0 && p.Some?)
            && (ret == 0 ==> Added(old(f.View()).Struct(), Shift(p.value + 12, Words(val)), delta, f.View().Struct()))
    ensures ret == 0 ==>
              Fixed(old(f.View()).Struct(), FindProp(node + HLen(x.name), x.kids, name).value + 12, val, delta,
                    f.View().Struct())
  {
    hide SameShape, At, HLen, FindProp, BlobTree, FirstVal, Added, Words, Outside, Shift, Fixed;
    if |val| % 4 != 0 {
      return ERR_BADOVERLAY;
    }
    NodeLive(f.View(), t, node, x, name);
    var po := GetProperty(f.View(), node, name);
    if po < 0 {
      return if po == ERR_NOTFOUND then ERR_BADOVERLAY else po;
    }
    ghost var s := f.View().Struct();
    FixWords(f, node, name, val, po, delta, t, x, fx);
    ret := 0;
    AddedFixed(s, po + 12, val, delta, f.View().Struct());
  }

  lemma ShiftAt(base: int, val: seq<byte>, i: nat)
    requires |val| % 4 == 0 && 4 * i + 4 <= |val|
    ensures |Shift(base, Words(val))| == |val| / 4 && i < |val| / 4
            && Shift(base, Words(val))[i] == base + Load32(val, 4 * i)
  {
    WordsAt(val, i);
  }

  /** A list of offsets into the value at `base` has been worked off: each cell it names, unless another that
      it names touches it, is `d` higher, and every byte outside of them is as it was. */
  ghost predicate Fixed(s: seq<byte>, base: int, val: seq<byte>, d: nat, s': seq<byte>) {
    |s'| == |s|
    && (forall i: nat :: 4 * i + 4 <= |val| ==>
          var c := base + Load32(val, 4 * i);
          0 <= c && c + 4 <= |s|
          && ((forall j: nat :: 4 * j + 4 <= |val| && j != i ==> NoTouch(base + Load32(val, 4 * j), c)) ==>
                Load32(s', c) == (Load32(s, c) + d) % TWO32))
    && forall k: nat ::
         k < |s| && (forall j: nat :: 4 * j + 4 <= |val| ==> !(0 <= k - (base + Load32(val, 4 * j)) < 4)) ==>
           s'[k] == s[k]
  }

  lemma FixedMeans(s: seq<byte>, base: int, val: seq<byte>, d: nat, s': seq<byte>, i: nat, k: nat)
    requires Fixed(s, base, val, d, s') && 4 * i + 4 <= |val| && k < |s|
    ensures var c := base + Load32(val, 4 * i);
            |s'| == |s| && 0 <= c && c + 4 <= |s|
            && ((forall j: nat :: 4 * j + 4 <= |val| && j != i ==>
                   var e := base + Load32(val, 4 * j); e + 4 <= c || c + 4 <= e) ==>
                  Load32(s', c) == (Load32(s, c) + d) % TWO32)
    ensures (forall j: nat :: 4 * j + 4 <= |val| ==>
               var e := base + Load32(val, 4 * j); k < e || e + 4 <= k) ==> s'[k] == s[k]
  {
    hide Load32;
  }

  lemma AddedFixed(s: seq<byte>, base: int, val: seq<byte>, d: nat, s': seq<byte>)
    requires d < TWO32 && |val| % 4 == 0 && Added(s, Shift(base, Words(val)), d, s')
    ensures Fixed(s, base, val, d, s')
  {
    hide Load32, Words, Shift, NoTouch, Added;
    forall i: nat | 4 * i + 4 <= |val|
      ensures var c := base + Load32(val, 4 * i);
              |s'| == |s| && 0 <= c && c + 4 <= |s|
              && ((forall j: nat :: 4 * j + 4 <= |val| && j != i ==> NoTouch(base + Load32(val, 4 * j), c)) ==>
                    Load32(s', c) == (Load32(s, c) + d) % TWO32)
    {
      CellFixed(s, base, val, d, s', i);
    }
    forall k: nat | k < |s| && (forall j: nat :: 4 * j + 4 <= |val| ==> !(0 <= k - (base + Load32(val, 4 * j)) < 4))
      ensures |s'| == |s| && s'[k] == s[k]
    {
      ByteKept(s, base, val, d, s', k);
    }
    AddedSize(s, Shift(base, Words(val)), d, s');
  }

  lemma AddedSize(s: seq<byte>, ls: seq<int>, d: nat, s': seq<byte>)
    requires d < TWO32 && Added(s, ls, d, s')
    ensures |s'| == |s| && CellsIn(ls, |s|) && s' == AddCells(s, ls, d)
  {
  }

  lemma CellFixed(s: seq<byte>, base: int, val: seq<byte>, d: nat, s': seq<byte>, i: nat)
    requires d < TWO32 && |val| % 4 == 0 && Added(s, Shift(base, Words(val)), d, s') && 4 * i + 4 <= |val|
    ensures var c := base + Load32(val, 4 * i);
            |s'| == |s| && 0 <= c && c + 4 <= |s|
            && ((forall j: nat :: 4 * j + 4 <= |val| && j != i ==> NoTouch(base + Load32(val, 4 * j), c)) ==>
                  Load32(s', c) == (Load32(s, c) + d) % TWO32)
  {
    hide Load32, Words, Shift, NoTouch, Added;
    var ls, c := Shift(base, Words(val)), base + Load32(val, 4 * i);
    ShiftAt(base, val, i);
    AddedAt(s, ls, d, s', i);
    if forall j: nat :: 4 * j + 4 <= |val| && j != i ==> NoTouch(base + Load32(val, 4 * j), c) {
      forall k | 0 <= k < |ls| && k != i
        ensures NoTouch(ls[k], c)
      {
        ShiftAt(base, val, k);
      }
    }
  }

  lemma ByteKept(s: seq<byte>, base: int, val: seq<byte>, d: nat, s': seq<byte>, k: nat)
    requires d < TWO32 && |val| % 4 == 0 && Added(s, Shift(base, Words(val)), d, s') && k < |s|
    requires forall j: nat :: 4 * j + 4 <= |val| ==> !(0 <= k - (base + Load32(val, 4 * j)) < 4)
    ensures |s'| == |s| && s'[k] == s[k]
  {
    hide Load32, Words, Shift, AddCells, Added;
    var ls := Shift(base, Words(val));
    AddedSize(s, ls, d, s');
    WordsAt(val, 0);
    forall j | 0 <= j < |ls|
      ensures !(ls[j] <= k < ls[j] + 4)
    {
      ShiftAt(base, val, j);
    }
    ByteStays(s, ls, d, k);
  }

  /** The loop over the words of a list. */
  method FixWords(f: Fdt, node: int, name: seq<byte>, val: seq<byte>, po: nat, delta: nat, ghost t: Tree,
                  ghost x: Tree, ghost fx: Fixups)
    requires Live(f.View(), t) && Frozen(f.View(), fx) && At(t, node) == Some(x) && x.NodeT? && delta < TWO32
             && |val| % 4 == 0
    requires FindProp(node + HLen(x.name), x.kids, name) == Some(po) && Outside(Shift(po + 12, Words(val)), fx)
    requires FirstVal(x.kids, name).Some? ==>
               forall i :: 0 <= i < |Words(val)| ==> Words(val)[i] + 4 <= |FirstVal(x.kids, name).value|
    modifies f.buf
    ensures Live(f.View(), t) && Frozen(f.View(), fx)
    ensures Added(old(f.View()).Struct(), Shift(po + 12, Words(val)), delta, f.View().Struct())
  {
    hide SameShape, Disjoint, At, HLen, FindProp, BlobTree, FirstVal, Added, Words, Outside, Frozen, Load32;
    ghost var s, ls := f.View().Struct(), Shift(po + 12, Words(val));
    var i := 0;
    WordsAt(val, 0);
    AddedNone(s, delta);
    assert ls[..0] == [];
    while i < |val| / 4
      invariant 0 <= i <= |val| / 4 && Live(f.View(), t) && Frozen(f.View(), fx)
      invariant Added(s, ls[..i], delta, f.View().Struct())
    {
      WordsAt(val, i);
      PropLive(f.View(), t, node, x, name);
      OutsideOne(ls, i, fx);
      ghost var s1 := f.View().Struct();
      StoreRef(f, po, Load32(val, 4 * i), delta, t, At(f.View().Tree().value, po).value, fx);
      AddedThen(s, ls[..i], s1, [ls[i]], f.View().Struct(), delta);
      assert ls[..i] + [ls[i]] == ls[..i + 1];
      i := i + 1;
    }
    assert ls[..i] == ls;
  }

  // ----- fixups nodes -----

  /** `y` is the fixups node, or a node inside it, at offset `q`. */
  ghost predicate FixAt(fx: Fixups, q: int, y: Tree) {
    y.NodeT?
    && ((q == fx.off && y.name == fx.name && y.kids == fx.kids) || At(fx.kids, q - fx.off - HLen(fx.name)) == Some(y))
  }

  lemma FixLive(v: Blob, fx: Fixups, q: int, y: Tree)
    requires v.Fits() && Frozen(v, fx) && FixAt(fx, q, y)
    ensures 0 <= q && v.IsNode(q) && v.Node(q).name == y.name && v.Node(q).kids == y.kids
  {
    hide BlobTree, HLen;
    if !(q == fx.off && y.name == fx.name && y.kids == fx.kids) {
      KidAt(v.Tree().value, fx.off, v.Node(fx.off), q - fx.off - HLen(fx.name));
    }
    AtBound(v.Tree().value, q);
  }

  /** A place on the level of a node. */
  ghost predicate OnLevel(y: Tree, o: int, w: Tree)
    requires y.NodeT?
  {
    0 <= o && At(y.kids, o) == Some(w) && o + TSize(w) == TSize(y.kids)
  }

  lemma FixChild(fx: Fixups, q: int, y: Tree, o: int, z: Tree)
    requires FixAt(fx, q, y) && At(y.kids, o) == Some(z) && z.NodeT?
    ensures FixAt(fx, q + HLen(y.name) + o, z) && At(fx.kids, q + HLen(y.name) + o - fx.off - HLen(fx.name)) == Some(z)
  {
    hide HLen;
    if !(q == fx.off && y.name == fx.name && y.kids == fx.kids) {
      KidAt(fx.kids, q - fx.off - HLen(fx.name), y, o);
    }
  }

  lemma FixProp(v: Blob, fx: Fixups, q: int, y: Tree, o: int, u: Tree)
    requires v.Fits() && Frozen(v, fx) && FixAt(fx, q, y) && OnLevel(y, o, u) && u.PropT?
    ensures IsProp(v, q + HLen(y.name) + o) && PropAt(v, q + HLen(y.name) + o) == u
  {
    hide BlobTree, HLen, TSize, At;
    FixLive(v, fx, q, y);
    KidAt(v.Tree().value, q, v.Node(q), o);
    InPropsEnd(v, q, q + HLen(y.name) + o, u);
  }

  // ----- the property loop -----

  /** What the properties from here on say. */
  ghost predicate PropsLeft(h: int, tk: Tree, w: Tree, fx: Fixups) {
    PropsIn(h, tk, w) && Outside(RefProps(h, tk, w), fx)
  }

  /** The next property, behind any NOPs. */
  lemma {:induction false} SkipProps(h: int, tk: Tree, y: Tree, base: int, o: int, w: Tree)
    requires y.NodeT? && OnLevel(y, o, w)
    ensures PropFrom(base + o, w).None? ==> RefProps(h, tk, w) == [] && PropsOk(h, tk, w)
    ensures PropFrom(base + o, w).Some? ==>
              var p := PropFrom(base + o, w).value - base;
              At(y.kids, p).Some? && At(y.kids, p).value.PropT? && OnLevel(y, p, At(y.kids, p).value)
              && var u := At(y.kids, p).value;
                 RefProps(h, tk, w) == RefProps(h, tk, u) && (PropsOk(h, tk, w) <==> PropsOk(h, tk, u))
                 && (PropsIn(h, tk, w) <==> PropsIn(h, tk, u)) && TSize(u) <= TSize(w)
    decreases w
  {
    hide TSize, At, FindProp, FirstVal, Words, Shift;
    if w.NopT? {
      SizeStep(w);
      AtNext(y.kids, o, w);
      SkipProps(h, tk, y, base, o + 4, w.rest);
    }
  }

  /** One property and the rest. */
  lemma PropsStep(h: int, tk: Tree, y: Tree, o: int, u: Tree, fx: Fixups)
    requires y.NodeT? && OnLevel(y, o, u) && u.PropT? && PropsLeft(h, tk, u, fx)
    ensures OnLevel(y, o + Len(Prop(u.name, u.val)), u.rest) && PropsLeft(h, tk, u.rest, fx) && TSize(u.rest) < TSize(u)
    ensures FirstVal(tk, u.name).Some? ==>
              forall i :: 0 <= i < |Words(u.val)| ==> Words(u.val)[i] + 4 <= |FirstVal(tk, u.name).value|
    ensures var p := FindProp(h, tk, u.name);
            RefProps(h, tk, u) == (if p.Some? then Shift(p.value + 12, Words(u.val)) else []) + RefProps(h, tk, u.rest)
            && (PropsOk(h, tk, u) <==> |u.val| % 4 == 0 && p.Some? && PropsOk(h, tk, u.rest))
            && (p.Some? ==> Outside(Shift(p.value + 12, Words(u.val)), fx))
  {
    hide TSize, At, FindProp, FirstVal, Words, Shift, HLen;
    SizeStep(u);
    AtNext(y.kids, o, u);
    var p := FindProp(h, tk, u.name);
    if p.Some? {
      OutsideBoth(Shift(p.value + 12, Words(u.val)), RefProps(h, tk, u.rest), fx);
    } else {
      assert [] + RefProps(h, tk, u.rest) == RefProps(h, tk, u.rest);
    }
  }

  /** The lists so far, towards all of them. */
  ghost predicate Listing(h: int, tk: Tree, y: Tree, o: int, w: Tree, fx: Fixups, goal: (seq<int>, bool), s: seq<byte>,
                          done: seq<int>, d: nat, s': seq<byte>)
    requires d < TWO32
  {
    y.NodeT? && OnLevel(y, o, w) && PropsLeft(h, tk, w, fx) && Added(s, done, d, s')
    && goal.0 == done + RefProps(h, tk, w) && (goal.1 <==> PropsOk(h, tk, w))
  }

  lemma ListingStart(h: int, tk: Tree, y: Tree, fx: Fixups, s: seq<byte>, d: nat)
    requires y.NodeT? && PropsLeft(h, tk, y.kids, fx) && d < TWO32
    ensures Listing(h, tk, y, 0, y.kids, fx, (RefProps(h, tk, y.kids), PropsOk(h, tk, y.kids)), s, [], d, s)
  {
    hide PropsLeft, Added, RefProps, PropsOk;
    AddedNone(s, d);
    assert [] + RefProps(h, tk, y.kids) == RefProps(h, tk, y.kids);
  }

  lemma ListingNext(h: int, tk: Tree, y: Tree, base: int, o: int, w: Tree, fx: Fixups, goal: (seq<int>, bool),
                    s: seq<byte>, done: seq<int>, d: nat, s': seq<byte>, prop: int)
    returns (p: int, u: Tree)
    requires d < TWO32 && Listing(h, tk, y, o, w, fx, goal, s, done, d, s') && prop >= 0
             && IsAnswer(prop, PropFrom(base + o, w))
    ensures prop == base + p && u.PropT? && TSize(u) <= TSize(w) && Listing(h, tk, y, p, u, fx, goal, s, done, d, s')
            && OnLevel(y, p, u)
    ensures FirstVal(tk, u.name).Some? ==>
              forall i :: 0 <= i < |Words(u.val)| ==> Words(u.val)[i] + 4 <= |FirstVal(tk, u.name).value|
    ensures var q := FindProp(h, tk, u.name); q.Some? ==> Outside(Shift(q.value + 12, Words(u.val)), fx)
  {
    hide TSize, At, OnLevel, PropFrom, PropsIn, PropsOk, RefProps, FirstVal, Words, Shift, FindProp, Outside, Added;
    SkipProps(h, tk, y, base, o, w);
    p := prop - base;
    u := At(y.kids, p).value;
    PropsStep(h, tk, y, p, u, fx);
  }

  lemma ListingFixed(h: int, tk: Tree, y: Tree, p: int, u: Tree, fx: Fixups, goal: (seq<int>, bool), s: seq<byte>,
                     done: seq<int>, d: nat, s1: seq<byte>, s2: seq<byte>, ret: int)
    requires d < TWO32 && u.PropT? && Listing(h, tk, y, p, u, fx, goal, s, done, d, s1)
    requires var q := FindProp(h, tk, u.name);
             (ret == 0 <==> |u.val| % 4 == 0 && q.Some?)
               && (ret == 0 ==> Added(s1, Shift(q.value + 12, Words(u.val)), d, s2))
    ensures ret != 0 ==> !goal.1
    ensures ret == 0 ==>
              var a := Shift(FindProp(h, tk, u.name).value + 12, Words(u.val));
              Listing(h, tk, y, p + Len(Prop(u.name, u.val)), u.rest, fx, goal, s, done + a, d, s2)
                && TSize(u.rest) < TSize(u)
  {
    hide TSize, At, OnLevel, PropsLeft, PropsOk, RefProps, FirstVal, Words, Shift, FindProp, Outside, Added, Len;
    PropsStep(h, tk, y, p, u, fx);
    if ret == 0 {
      var a := Shift(FindProp(h, tk, u.name).value + 12, Words(u.val));
      AddedThen(s, done, s1, a, s2, d);
      assert done + (a + RefProps(h, tk, u.rest)) == (done + a) + RefProps(h, tk, u.rest);
    }
  }

  lemma ListingEnd(h: int, tk: Tree, y: Tree, base: int, o: int, w: Tree, fx: Fixups, goal: (seq<int>, bool),
                   s: seq<byte>, done: seq<int>, d: nat, s': seq<byte>, prop: int)
    requires d < TWO32 && Listing(h, tk, y, o, w, fx, goal, s, done, d, s') && prop < 0
             && IsAnswer(prop, PropFrom(base + o, w)) && base >= 0
    ensures goal.1 && Added(s, goal.0, d, s')
  {
    hide TSize, At, PropFrom, PropsLeft, PropsOk, RefProps, Added;
    SkipProps(h, tk, y, base, o, w);
    assert done + [] == done;
  }

  lemma FixBase(v: Blob, fx: Fixups, q: int, y: Tree)
    requires v.Fits() && Frozen(v, fx) && FixAt(fx, q, y)
    ensures q >= 0
  {
    FixLive(v, fx, q, y);
  }

  method ListedFirst(f: Fdt, q: int, ghost y: Tree, ghost fx: Fixups) returns (prop: int)
    requires f.View().Fits() && Frozen(f.View(), fx) && FixAt(fx, q, y) && y.NodeT? && IsInt(q)
    ensures IsAnswer(prop, PropFrom(q + HLen(y.name) + 0, y.kids)) && IsInt(prop)
  {
    hide At, HLen, BlobTree, Frozen, FixAt, PropFrom, TagAt;
    FixLive(f.View(), fx, q, y);
    prop := FirstPropertyOffset(f.View(), q);
  }

  method ListedAt(f: Fdt, q: int, prop: int, ghost y: Tree, ghost p: int, ghost u: Tree, ghost fx: Fixups)
    returns (err: int, name: seq<byte>, val: seq<byte>)
    requires f.View().Fits() && Frozen(f.View(), fx) && FixAt(fx, q, y) && y.NodeT? && IsInt(prop)
    requires OnLevel(y, p, u) && u.PropT? && prop == q + HLen(y.name) + p
    ensures err == 0 && name == u.name && val == u.val
  {
    hide At, HLen, BlobTree, Frozen, FixAt, OnLevel, TagAt, Name;
    FixProp(f.View(), fx, q, y, p, u);
    err, name, val := GetpropByOffset(f.View(), prop);
  }

  method ListedAfter(f: Fdt, q: int, prop: int, ghost y: Tree, ghost p: int, ghost u: Tree, ghost fx: Fixups)
    returns (r: int)
    requires f.View().Fits() && Frozen(f.View(), fx) && FixAt(fx, q, y) && y.NodeT? && IsInt(prop)
    requires OnLevel(y, p, u) && u.PropT? && prop == q + HLen(y.name) + p
    ensures IsAnswer(r, PropFrom(q + HLen(y.name) + (p + Len(Prop(u.name, u.val))), u.rest)) && IsInt(r)
  {
    hide At, HLen, BlobTree, Frozen, FixAt, OnLevel, TagAt, PropFrom, Len;
    FixProp(f.View(), fx, q, y, p, u);
    r := NextPropertyOffset(f.View(), prop);
  }

  /** The property loop of overlay_update_local_node_references(). */
  method FixProperties(f: Fdt, node: int, q: int, delta: nat, ghost t: Tree, ghost x: Tree, ghost y: Tree,
                       ghost fx: Fixups)
    returns (ret: int)
    requires Live(f.View(), t) && Frozen(f.View(), fx) && At(t, node) == Some(x) && x.NodeT? && FixAt(fx, q, y)
             && y.NodeT?
    requires IsInt(node) && IsInt(q) && delta < TWO32 && PropsLeft(node + HLen(x.name), x.kids, y.kids, fx)
    modifies f.buf
    ensures Live(f.View(), t) && Frozen(f.View(), fx) && ret <= 0
    ensures ret == 0 <==> PropsOk(node + HLen(x.name), x.kids, y.kids)
    ensures ret == 0 ==>
              Added(old(f.View()).Struct(), RefProps(node + HLen(x.name), x.kids, y.kids), delta, f.View().Struct())
  {
    hide SameShape, Disjoint, At, HLen, TSize, FindProp, FirstVal, BlobTree, Frozen, FixAt, OnLevel, PropsLeft,
         PropsOk, RefProps, Added, Words, Shift, Outside, PropFrom, Len, Listing;
    FixBase(f.View(), fx, q, y);
    ghost var h, base, s, o, w, done := node + HLen(x.name), q + HLen(y.name), f.View().Struct(), 0, y.kids, [];
    ghost var goal := (RefProps(h, x.kids, y.kids), PropsOk(h, x.kids, y.kids));
    ListingStart(h, x.kids, y, fx, s, delta);
    var prop := ListedFirst(f, q, y, fx);
    while prop >= 0
      invariant Live(f.View(), t) && Frozen(f.View(), fx)
                && Listing(h, x.kids, y, o, w, fx, goal, s, done, delta, f.View().Struct())
      invariant IsAnswer(prop, PropFrom(base + o, w)) && IsInt(prop)
      decreases TSize(w)
    {
      ghost var s1 := f.View().Struct();
      ghost var p, u := ListingNext(h, x.kids, y, base, o, w, fx, goal, s, done, delta, s1, prop);
      var err, name, val := ListedAt(f, q, prop, y, p, u, fx);
      if err != 0 {
        return err;
      }
      ret := FixProperty(f, node, name, val, delta, t, x, fx);
      ListingFixed(h, x.kids, y, p, u, fx, goal, s, done, delta, s1, f.View().Struct(), ret);
      if ret != 0 {
        return;
      }
      done := done + Shift(FindProp(h, x.kids, name).value + 12, Words(val));
      o, w := p + Len(Prop(u.name, u.val)), u.rest;
      prop := ListedAfter(f, q, prop, y, p, u, fx);
    }
    ListingEnd(h, x.kids, y, base, o, w, fx, goal, s, done, delta, f.View().Struct(), prop);
    ret := 0;
  }

  // ----- the subnode loop -----

  ghost predicate KidsLeft(h: int, tk: Tree, w: Tree, fx: Fixups) {
    RefKidsIn(h, tk, w) && Outside(RefKids(h, tk, w), fx)
  }

  /** The next subnode, behind properties and NOPs. */
  lemma {:induction false} SkipKids(h: int, tk: Tree, y: Tree, base: int, o: int, w: Tree)
    requires y.NodeT? && OnLevel(y, o, w)
    ensures FindKid(base + o, w, None).None? ==> RefKids(h, tk, w) == [] && RefKidsOk(h, tk, w)
    ensures FindKid(base + o, w, None).Some? ==>
              var p := FindKid(base + o, w, None).value - base;
              At(y.kids, p).Some? && At(y.kids, p).value.NodeT? && OnLevel(y, p, At(y.kids, p).value)
              && var z := At(y.kids, p).value;
                 RefKids(h, tk, w) == RefKids(h, tk, z) && (RefKidsOk(h, tk, w) <==> RefKidsOk(h, tk, z))
                 && (RefKidsIn(h, tk, w) <==> RefKidsIn(h, tk, z)) && TSize(z) <= TSize(w)
    decreases w
  {
    SmallTokens();
    SizeStep(w);
    hide TSize, At, Refs, RefsOk, RefsIn, HLen, Len;
    match w
    case Leaf =>
    case NopT(r) =>
      AtNext(y.kids, o, w);
      SkipKids(h, tk, y, base, o + 4, r);
    case PropT(n, v, r) =>
      AtNext(y.kids, o, w);
      SkipKids(h, tk, y, base, o + Len(Prop(n, v)), r);
    case NodeT(_, _, _) =>
  }

  /** A child that a search by name finds is a node. */
  lemma {:induction false} FoundKid(off: int, t: Tree, pat: Option<seq<byte>>)
    ensures var p := FindKid(off, t, pat); p.Some? ==> At(t, p.value - off).Some? && At(t, p.value - off).value.NodeT?
    decreases t
  {
    SmallTokens();
    hide Len, HLen, TSize, Matches;
    match t
    case Leaf =>
    case NopT(r) => FoundKid(off + 4, r, pat);
    case PropT(n, v, r) => FoundKid(off + Len(Prop(n, v)), r, pat);
    case NodeT(n, k, r) => FoundKid(off + HLen(n) + TSize(k) + 4, r, pat);
  }

  lemma KidsUnfold(h: int, tk: Tree, z: Tree)
    requires z.NodeT?
    ensures var p := FindKid(h, tk, Some(z.name));
            if p.None? then !RefKidsOk(h, tk, z) && RefKids(h, tk, z) == RefKids(h, tk, z.rest)
              && (RefKidsIn(h, tk, z) ==> RefKidsIn(h, tk, z.rest))
            else
              At(tk, p.value - h).Some? && At(tk, p.value - h).value.NodeT?
              && var c := At(tk, p.value - h).value;
                 var k := p.value + HLen(c.name);
                 RefKids(h, tk, z) == Refs(k, c.kids, z.kids) + RefKids(h, tk, z.rest)
                 && (RefKidsIn(h, tk, z) <==> RefsIn(k, c.kids, z.kids) && RefKidsIn(h, tk, z.rest))
                 && (RefKidsOk(h, tk, z) <==> RefsOk(k, c.kids, z.kids) && RefKidsOk(h, tk, z.rest))
  {
    hide TSize, HLen, Refs, RefsOk, RefsIn, FindKid, At, RefKids, RefKidsOk, RefKidsIn;
    FoundKid(h, tk, Some(z.name));
    KidsOnce(h, tk, z);
    assert [] + RefKids(h, tk, z.rest) == RefKids(h, tk, z.rest);
  }

  lemma KidsOnce(h: int, tk: Tree, z: Tree)
    requires z.NodeT?
    ensures var c := KidOf(h, tk, z.name);
            var there := c.Some? && c.value.1.NodeT?;
            var k := if there then c.value.0 + HLen(c.value.1.name) else 0;
            RefKids(h, tk, z) == (if there then Refs(k, c.value.1.kids, z.kids) else []) + RefKids(h, tk, z.rest)
            && (RefKidsIn(h, tk, z) <==>
                  (there ==> RefsIn(k, c.value.1.kids, z.kids)) && RefKidsIn(h, tk, z.rest))
            && (RefKidsOk(h, tk, z) <==> there && RefsOk(k, c.value.1.kids, z.kids) && RefKidsOk(h, tk, z.rest))
  {
    hide HLen, Refs, RefsOk, RefsIn, KidOf;
  }

  /** One subnode of the fixups and the rest. */
  lemma KidsStep(h: int, tk: Tree, y: Tree, o: int, z: Tree, fx: Fixups)
    requires y.NodeT? && OnLevel(y, o, z) && z.NodeT? && KidsLeft(h, tk, z, fx)
    ensures OnLevel(y, o + NodeLen(z), z.rest) && KidsLeft(h, tk, z.rest, fx) && TSize(z.rest) < TSize(z)
            && TSize(z.kids) < TSize(y.kids)
    ensures var p := FindKid(h, tk, Some(z.name));
            if p.None? then !RefKidsOk(h, tk, z)
            else
              At(tk, p.value - h).Some? && At(tk, p.value - h).value.NodeT?
              && var c := At(tk, p.value - h).value;
                 var a := Refs(p.value + HLen(c.name), c.kids, z.kids);
                 RefKids(h, tk, z) == a + RefKids(h, tk, z.rest) && Outside(a, fx)
                   && RefsIn(p.value + HLen(c.name), c.kids, z.kids)
                 && (RefKidsOk(h, tk, z)
                     <==> RefsOk(p.value + HLen(c.name), c.kids, z.kids) && RefKidsOk(h, tk, z.rest))
  {
    hide TSize, HLen, At, Refs, RefsOk, RefsIn, FindKid, RefKids, RefKidsOk, RefKidsIn;
    SizeStep(z);
    KidsUnfold(h, tk, z);
    AtNext(y.kids, o, z);
    var p := FindKid(h, tk, Some(z.name));
    if p.Some? {
      var c := At(tk, p.value - h).value;
      OutsideBoth(Refs(p.value + HLen(c.name), c.kids, z.kids), RefKids(h, tk, z.rest), fx);
    }
  }

  /** The subnodes so far, towards all of them. */
  ghost predicate Visiting(h: int, tk: Tree, y: Tree, o: int, w: Tree, fx: Fixups, goal: (seq<int>, bool),
                           s: seq<byte>, done: seq<int>, d: nat, s': seq<byte>)
    requires d < TWO32
  {
    y.NodeT? && OnLevel(y, o, w) && KidsLeft(h, tk, w, fx) && Added(s, done, d, s')
    && goal.0 == done + RefKids(h, tk, w) && (goal.1 <==> RefKidsOk(h, tk, w))
  }

  lemma VisitingStart(h: int, tk: Tree, y: Tree, fx: Fixups, s: seq<byte>, d: nat)
    requires y.NodeT? && KidsLeft(h, tk, y.kids, fx) && d < TWO32
    ensures Visiting(h, tk, y, 0, y.kids, fx, (RefKids(h, tk, y.kids), RefKidsOk(h, tk, y.kids)), s, [], d, s)
  {
    hide KidsLeft, Added, RefKids, RefKidsOk;
    AddedNone(s, d);
    assert [] + RefKids(h, tk, y.kids) == RefKids(h, tk, y.kids);
  }

  lemma VisitingNext(h: int, tk: Tree, y: Tree, base: int, o: int, w: Tree, fx: Fixups, goal: (seq<int>, bool),
                     s: seq<byte>, done: seq<int>, d: nat, s': seq<byte>, child: int)
    returns (p: int, z: Tree)
    requires d < TWO32 && Visiting(h, tk, y, o, w, fx, goal, s, done, d, s') && child >= 0
             && IsAnswer(child, FindKid(base + o, w, None))
    ensures child == base + p && z.NodeT? && TSize(z) <= TSize(w) && OnLevel(y, p, z) && TSize(z.kids) < TSize(y.kids)
    ensures Visiting(h, tk, y, p, z, fx, goal, s, done, d, s')
    ensures var c := FindKid(h, tk, Some(z.name));
            c.Some? ==> At(tk, c.value - h).Some? && At(tk, c.value - h).value.NodeT?
                        && var x := At(tk, c.value - h).value;
                           RefsIn(c.value + HLen(x.name), x.kids, z.kids)
                             && Outside(Refs(c.value + HLen(x.name), x.kids, z.kids), fx)
  {
    hide TSize, At, OnLevel, FindKid, RefKidsIn, RefKidsOk, RefKids, Refs, RefsIn, Outside, Added, HLen;
    SkipKids(h, tk, y, base, o, w);
    p := child - base;
    z := At(y.kids, p).value;
    KidsStep(h, tk, y, p, z, fx);
  }

  lemma VisitingDone(h: int, tk: Tree, y: Tree, p: int, z: Tree, fx: Fixups, goal: (seq<int>, bool), s: seq<byte>,
                     done: seq<int>, d: nat, s1: seq<byte>, s2: seq<byte>, ret: int, c: int, x: Tree)
    requires d < TWO32 && z.NodeT? && Visiting(h, tk, y, p, z, fx, goal, s, done, d, s1)
    requires FindKid(h, tk, Some(z.name)) == Some(c) && At(tk, c - h) == Some(x) && x.NodeT?
    requires var k := c + HLen(x.name);
             (ret == 0 <==> RefsOk(k, x.kids, z.kids)) && (ret == 0 ==> Added(s1, Refs(k, x.kids, z.kids), d, s2))
    ensures ret != 0 ==> !goal.1
    ensures ret == 0 ==>
              Visiting(h, tk, y, p + NodeLen(z), z.rest, fx, goal, s, done + Refs(c + HLen(x.name), x.kids, z.kids), d,
                       s2)
                         && TSize(z.rest) < TSize(z)
  {
    hide TSize, At, OnLevel, KidsLeft, RefKidsOk, RefKids, Refs, RefsOk, Outside, Added, HLen, FindKid;
    KidsStep(h, tk, y, p, z, fx);
    if ret == 0 {
      var a := Refs(c + HLen(x.name), x.kids, z.kids);
      AddedThen(s, done, s1, a, s2, d);
      assert done + (a + RefKids(h, tk, z.rest)) == (done + a) + RefKids(h, tk, z.rest);
    }
  }

  lemma VisitingEnd(h: int, tk: Tree, y: Tree, base: int, o: int, w: Tree, fx: Fixups, goal: (seq<int>, bool),
                    s: seq<byte>, done: seq<int>, d: nat, s': seq<byte>, child: int)
    requires d < TWO32 && Visiting(h, tk, y, o, w, fx, goal, s, done, d, s') && child < 0
             && IsAnswer(child, FindKid(base + o, w, None)) && base >= 0
    ensures goal.1 && Added(s, goal.0, d, s')
  {
    hide TSize, At, FindKid, KidsLeft, RefKidsOk, RefKids, Added;
    SkipKids(h, tk, y, base, o, w);
    assert done + [] == done;
  }

  /** overlay_update_local_node_references(): every cell listed for the node and below is moved up by
      `delta`, if everything listed exists; otherwise it fails. */
  method UpdateLocalNodeReferences(f: Fdt, node: int, q: int, delta: nat, ghost t: Tree, ghost x: Tree, ghost y: Tree,
                                   ghost fx: Fixups)
    returns (ret: int)
    requires Live(f.View(), t) && Frozen(f.View(), fx) && At(t, node) == Some(x) && x.NodeT? && FixAt(fx, q, y)
             && y.NodeT?
    requires IsInt(node) && IsInt(q) && delta < TWO32
    requires RefsIn(node + HLen(x.name), x.kids, y.kids) && Outside(Refs(node + HLen(x.name), x.kids, y.kids), fx)
    modifies f.buf
    ensures Live(f.View(), t) && Frozen(f.View(), fx) && ret <= 0
    ensures ret == 0 <==> RefsOk(node + HLen(x.name), x.kids, y.kids)
    ensures ret == 0 ==>
              Added(old(f.View()).Struct(), Refs(node + HLen(x.name), x.kids, y.kids), delta, f.View().Struct())
    decreases TSize(y.kids), 1
  {
    hide SameShape, Disjoint, At, HLen, TSize, BlobTree, Frozen, FixAt, PropsIn, PropsOk, RefProps, RefKids, RefKidsIn,
         RefKidsOk, Added, Outside;
    ghost var h, s := node + HLen(x.name), f.View().Struct();
    ghost var a, b := RefProps(h, x.kids, y.kids), RefKids(h, x.kids, y.kids);
    OutsideBoth(a, b, fx);
    ret := FixProperties(f, node, q, delta, t, x, y, fx);
    if ret != 0 {
      return;
    }
    ghost var s1 := f.View().Struct();
    ret := FixSubnodes(f, node, q, delta, t, x, y, fx);
    if ret == 0 {
      AddedThen(s, a, s1, b, f.View().Struct(), delta);
    }
  }

  /** The subnode loop of overlay_update_local_node_references(). */
  method FixSubnodes(f: Fdt, node: int, q: int, delta: nat, ghost t: Tree, ghost x: Tree, ghost y: Tree,
                     ghost fx: Fixups)
    returns (ret: int)
    requires Live(f.View(), t) && Frozen(f.View(), fx) && At(t, node) == Some(x) && x.NodeT? && FixAt(fx, q, y)
             && y.NodeT?
    requires IsInt(node) && IsInt(q) && delta < TWO32 && KidsLeft(node + HLen(x.name), x.kids, y.kids, fx)
    modifies f.buf
    ensures Live(f.View(), t) && Frozen(f.View(), fx) && ret <= 0
    ensures ret == 0 <==> RefKidsOk(node + HLen(x.name), x.kids, y.kids)
    ensures ret == 0 ==>
              Added(old(f.View()).Struct(), RefKids(node + HLen(x.name), x.kids, y.kids), delta, f.View().Struct())
    decreases TSize(y.kids), 0
  {
    hide SameShape, Disjoint, At, HLen, TSize, BlobTree, Frozen, FixAt, OnLevel, KidsLeft, RefKidsOk, RefKids, Refs,
         RefsOk, RefsIn, Added, Outside, FindKid, Visiting;
    FixBase(f.View(), fx, q, y);
    ghost var h, base, s, o, w, done := node + HLen(x.name), q + HLen(y.name), f.View().Struct(), 0, y.kids, [];
    ghost var goal := (RefKids(h, x.kids, y.kids), RefKidsOk(h, x.kids, y.kids));
    VisitingStart(h, x.kids, y, fx, s, delta);
    var child := FixupFirst(f, q, y, fx);
    while child >= 0
      invariant Live(f.View(), t) && Frozen(f.View(), fx)
                && Visiting(h, x.kids, y, o, w, fx, goal, s, done, delta, f.View().Struct())
      invariant IsAnswer(child, FindKid(base + o, w, None)) && IsInt(child)
      decreases TSize(w)
    {
      ghost var s1 := f.View().Struct();
      ghost var p, z := VisitingNext(h, x.kids, y, base, o, w, fx, goal, s, done, delta, s1, child);
      FixChildAt(fx, q, y, p, z);
      var treeChild := TreeChild(f, node, child, t, x, z, fx);
      if treeChild < 0 {
        NoTreeChild(h, x.kids, y, p, z, fx, goal, s, done, delta, s1);
        return if treeChild == ERR_NOTFOUND then ERR_BADOVERLAY else treeChild;
      }
      ghost var c := At(t, treeChild).value;
      ret := UpdateLocalNodeReferences(f, treeChild, child, delta, t, c, z, fx);
      VisitingDone(h, x.kids, y, p, z, fx, goal, s, done, delta, s1, f.View().Struct(), ret, treeChild, c);
      if ret != 0 {
        return;
      }
      done := done + Refs(treeChild + HLen(c.name), c.kids, z.kids);
      o, w := p + NodeLen(z), z.rest;
      child := FixupNext(f, child, base, y, p, z, fx);
    }
    VisitingEnd(h, x.kids, y, base, o, w, fx, goal, s, done, delta, f.View().Struct(), child);
    ret := 0;
  }

  lemma FixChildAt(fx: Fixups, q: int, y: Tree, o: int, z: Tree)
    requires y.NodeT? && FixAt(fx, q, y) && OnLevel(y, o, z) && z.NodeT?
    ensures FixAt(fx, q + HLen(y.name) + o, z) && At(fx.kids, q + HLen(y.name) + o - fx.off - HLen(fx.name)) == Some(z)
  {
    FixChild(fx, q, y, o, z);
  }

  lemma NoTreeChild(h: int, tk: Tree, y: Tree, p: int, z: Tree, fx: Fixups, goal: (seq<int>, bool), s: seq<byte>,
                    done: seq<int>, d: nat, s1: seq<byte>)
    requires d < TWO32 && z.NodeT? && Visiting(h, tk, y, p, z, fx, goal, s, done, d, s1)
    ensures FindKid(h, tk, Some(z.name)).None? ==> !goal.1
  {
    hide TSize, At, OnLevel, KidsLeft, RefKidsOk, RefKids, Refs, RefsOk, Outside, Added, HLen, FindKid;
    KidsStep(h, tk, y, p, z, fx);
  }

  method FixupFirst(f: Fdt, q: int, ghost y: Tree, ghost fx: Fixups) returns (child: int)
    requires f.View().Fits() && Frozen(f.View(), fx) && FixAt(fx, q, y) && y.NodeT? && IsInt(q)
    ensures IsAnswer(child, FindKid(q + HLen(y.name) + 0, y.kids, None)) && IsInt(child)
  {
    hide At, HLen, BlobTree, Frozen, FixAt, FindKid;
    FixLive(f.View(), fx, q, y);
    child := FirstSubnode(f.View(), q);
  }

  /** The next fixups node on the level; its siblings are inside the fixups too. */
  method FixupNext(f: Fdt, q: int, ghost base: int, ghost y: Tree, ghost p: int, ghost z: Tree, ghost fx: Fixups)
    returns (child: int)
    requires f.View().Fits() && Frozen(f.View(), fx) && IsInt(q) && z.NodeT?
             && At(fx.kids, q - fx.off - HLen(fx.name)) == Some(z)
    ensures IsAnswer(child, FindKid(q + NodeLen(z), z.rest, None)) && IsInt(child)
  {
    hide At, HLen, TSize, BlobTree, FindKid;
    FixSibling(f.View(), fx, q, z);
    child := NextSubnode(f.View(), q);
  }

  lemma FixSibling(v: Blob, fx: Fixups, q: int, z: Tree)
    requires v.Fits() && Frozen(v, fx) && z.NodeT? && At(fx.kids, q - fx.off - HLen(fx.name)) == Some(z)
    ensures v.IsNode(q) && v.Node(q) == z
  {
    hide BlobTree, HLen;
    KidAt(v.Tree().value, fx.off, v.Node(fx.off), q - fx.off - HLen(fx.name));
  }

  /** The node of the tree that a fixups node is about. */
  method TreeChild(f: Fdt, node: int, child: int, ghost t: Tree, ghost x: Tree, ghost z: Tree, ghost fx: Fixups)
    returns (r: int)
    requires Live(f.View(), t) && Frozen(f.View(), fx) && At(t, node) == Some(x) && x.NodeT? && FixAt(fx, child, z)
             && z.NodeT?
    requires IsInt(node) && IsInt(child)
    ensures IsAnswer(r, FindKid(node + HLen(x.name), x.kids, Some(z.name))) && IsInt(r)
    ensures r < 0 ==> r == ERR_NOTFOUND && FindKid(node + HLen(x.name), x.kids, Some(z.name)).None?
    ensures r >= 0 ==>
              FindKid(node + HLen(x.name), x.kids, Some(z.name)) == Some(r) && At(t, r).Some? && At(t, r).value.NodeT?
                       && At(x.kids, r - node - HLen(x.name)) == At(t, r)
  {
    hide At, HLen, TSize, BlobTree, Frozen, FixAt, FindKid, SameShape, TagAt, FirstVal, FindProp;
    FixLive(f.View(), fx, child, z);
    NodeLive(f.View(), t, node, x, []);
    ShapeFindKid(node + HLen(x.name), x.kids, f.View().Node(node).kids, Some(z.name));
    FoundKid(node + HLen(x.name), x.kids, Some(z.name));
    var err, name := GetName(f.View(), child);
    r := SubnodeOffset(f.View(), node, name);
    if r >= 0 {
      KidAt(t, node, x, r - node - HLen(x.name));
    }
  }
}

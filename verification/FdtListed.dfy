/** Which cell each word of the local fixups names, and what becomes of it. */
module FdtListed {
  import opened Options
  import opened FdtTokens
  import opened FdtTree
  import opened FdtWalk
  import opened FdtEdit
  import opened FdtPhandle
  import opened FdtFixups

  // ----- the cell a word names -----

  /** The cell that word `i` of the list at offset `o` of a fixups node's content `fk` names, when the node is
      about one with content `tk` at `off`. Properties behind a subnode are never read (`props` is false there). */
  function Named(off: int, tk: Tree, fk: Tree, props: bool, o: int, i: nat): Option<int>
    decreases fk
  {
    match fk
    case Leaf => None
    case NopT(r) => Named(off, tk, r, props, o - 4, i)
    case PropT(n, v, r) =>
      if o != 0 then Named(off, tk, r, props, o - Len(Prop(n, v)), i)
      else
        var p := FindProp(off, tk, n);
        if props && p.Some? && 4 * i + 4 <= |v| then Some(p.value + 12 + Load32(v, 4 * i)) else None
    case NodeT(n, k, r) =>
      if o >= HLen(n) + TSize(k) + 4 then Named(off, tk, r, false, o - (HLen(n) + TSize(k) + 4), i)
      else
        var c := KidOf(off, tk, n);
        if c.None? || !c.value.1.NodeT? then None
        else Named(c.value.0 + HLen(c.value.1.name), c.value.1.kids, k, true, o - HLen(n), i)
  }

  /** A list of the node itself: the property of that name in the node it is about has the cell, that many bytes
      into its value. */
  lemma {:induction false} OwnList(off: int, tk: Tree, fk: Tree, o: int, i: nat, n: seq<byte>)
    requires FindProp(o, fk, n).Some? && FirstVal(fk, n).Some? && 4 * i + 4 <= |FirstVal(fk, n).value|
    ensures Named(off, tk, fk, true, FindProp(o, fk, n).value - o, i)
            == var p := FindProp(off, tk, n);
              if p.Some? then Some(p.value + 12 + Load32(FirstVal(fk, n).value, 4 * i)) else None
    decreases fk
  {
    hide Len, Load32;
    match fk
    case NopT(r) => OwnList(off, tk, r, o + 4, i, n);
    case PropT(m, v, r) =>
      if m != n {
        FindBehind(o + Len(Prop(m, v)), r, n);
        OwnList(off, tk, r, o + Len(Prop(m, v)), i, n);
      }
    case _ =>
  }

  lemma {:induction false} FindBehind(o: int, t: Tree, n: seq<byte>)
    ensures FindProp(o, t, n).Some? ==> FindProp(o, t, n).value >= o
    decreases t
  {
    hide Len;
    match t
    case NopT(r) => FindBehind(o + 4, r, n);
    case PropT(m, v, r) => FindBehind(o + Len(Prop(m, v)), r, n);
    case _ =>
  }

  /** The lists of a subnode are about the child that a search for its name finds. */
  lemma KidList(off: int, tk: Tree, fk: Tree, q: int, o: int, i: nat)
    requires At(fk, q).Some? && At(fk, q).value.NodeT? && q + TSize(At(fk, q).value) == TSize(fk)
    requires 0 <= o < TSize(At(fk, q).value.kids)
    ensures var (z, c) := (At(fk, q).value, FindKid(off, tk, Some(At(fk, q).value.name)));
            if c.None? then Named(off, tk, fk, true, q + HLen(z.name) + o, i) == None
            else At(tk, c.value - off).Some? && At(tk, c.value - off).value.NodeT?
                 && var x := At(tk, c.value - off).value;
                    Named(off, tk, fk, true, q + HLen(z.name) + o, i)
                    == Named(c.value + HLen(x.name), x.kids, z.kids, true, o, i)
  {
    hide At, HLen, FindKid, TSize, Named;
    var z := At(fk, q).value;
    FoundKid(off, tk, Some(z.name));
    NamedFrom(off, tk, fk, true, q, z, HLen(z.name) + o, i);
    NamedThere(off, tk, z, o, i);
  }

  lemma NamedThere(off: int, tk: Tree, z: Tree, o: int, i: nat)
    requires z.NodeT? && 0 <= o < TSize(z.kids)
    ensures var c := KidOf(off, tk, z.name);
            Named(off, tk, z, true, HLen(z.name) + o, i)
            == if c.None? || !c.value.1.NodeT? then None
               else Named(c.value.0 + HLen(c.value.1.name), c.value.1.kids, z.kids, true, o, i)
  {
    hide HLen, TSize, KidOf;
  }

  lemma NamedBehind(off: int, tk: Tree, fk: Tree, props: bool, o: int, i: nat)
    requires !fk.Leaf? && ItemLen(fk) <= o
    ensures Named(off, tk, fk, props, o, i) == Named(off, tk, fk.rest, props && !fk.NodeT?, o - ItemLen(fk), i)
  {
    hide HLen, TSize, KidOf, FindProp;
  }

  lemma {:induction false} NamedFrom(off: int, tk: Tree, fk: Tree, props: bool, q: int, z: Tree, o: int, i: nat)
    requires At(fk, q) == Some(z) && z.NodeT? && q + TSize(z) == TSize(fk) && 0 < o < HLen(z.name) + TSize(z.kids) + 4
    ensures Named(off, tk, fk, props, q + o, i) == Named(off, tk, z, true, o, i)
    decreases fk
  {
    hide Len, HLen, TSize, KidOf, FindProp, ItemLen;
    if q == 0 {
      NamedInside(off, tk, z, props, o, i);
    } else {
      AtBound(fk, q);
      hide At, Named;
      LevelStep(fk, q, z);
      NamedBehind(off, tk, fk, props, q + o, i);
      NamedFrom(off, tk, fk.rest, props && !fk.NodeT?, q - ItemLen(fk), z, o, i);
    }
  }

  lemma NamedInside(off: int, tk: Tree, z: Tree, props: bool, o: int, i: nat)
    requires z.NodeT? && 0 < o < HLen(z.name) + TSize(z.kids) + 4
    ensures Named(off, tk, z, props, o, i) == Named(off, tk, z, true, o, i)
  {
    hide HLen, TSize, KidOf;
  }

  // ----- the cells of phandles -----

  /** Both phandle properties of every node have their cells among those of the tree. */
  lemma {:induction false} CellOfNode(off: int, t: Tree, o: int, name: seq<byte>)
    requires At(t, o).Some? && At(t, o).value.NodeT? && (name == PHANDLE || name == LINUX_PHANDLE)
    requires FindProp(off + o + HLen(At(t, o).value.name), At(t, o).value.kids, name).Some?
    ensures FindProp(off + o + HLen(At(t, o).value.name), At(t, o).value.kids, name).value + 12 in KidCells(off, t)
    decreases t
  {
    hide Len, HLen, TSize, FindProp, PHANDLE, LINUX_PHANDLE;
    if o != 0 {
      match t
      case NopT(r) => CellOfNode(off + 4, r, o - 4, name);
      case PropT(n, v, r) => CellOfNode(off + Len(Prop(n, v)), r, o - Len(Prop(n, v)), name);
      case NodeT(n, k, r) =>
        if o <= HLen(n) + TSize(k) {
          CellOfNode(off + HLen(n), k, o - HLen(n), name);
        } else {
          var l := HLen(n) + TSize(k) + 4;
          CellOfNode(off + l, r, o - l, name);
        }
    }
  }

  /** And every cell among those is of such a property. */
  lemma {:induction false} NodeOfCell(off: int, t: Tree, p: int) returns (o: int, name: seq<byte>)
    requires p in KidCells(off, t)
    ensures At(t, o).Some? && At(t, o).value.NodeT? && (name == PHANDLE || name == LINUX_PHANDLE)
    ensures FindProp(off + o + HLen(At(t, o).value.name), At(t, o).value.kids, name) == Some(p - 12)
    decreases t
  {
    hide Len, HLen, TSize, FindProp, PHANDLE, LINUX_PHANDLE, At;
    AtStart(t);
    match t
    case NopT(r) =>
      o, name := NodeOfCell(off + 4, r, p);
      AtBehind(t, o);
      o := o + 4;
    case PropT(n, v, r) =>
      o, name := NodeOfCell(off + Len(Prop(n, v)), r, p);
      AtBehind(t, o);
      o := o + Len(Prop(n, v));
    case NodeT(n, k, r) =>
      var l := HLen(n) + TSize(k) + 4;
      if p in Own(off + HLen(n), k, PHANDLE) {
        o, name := 0, PHANDLE;
      } else if p in Own(off + HLen(n), k, LINUX_PHANDLE) {
        o, name := 0, LINUX_PHANDLE;
      } else if p in KidCells(off + HLen(n), k) {
        o, name := NodeOfCell(off + HLen(n), k, p);
        InKids(t, o);
        o := o + HLen(n);
      } else {
        o, name := NodeOfCell(off + l, r, p);
        AtBehind(t, o);
        o := o + l;
      }
  }

  /** When the first pass does not refuse, both phandle properties have four bytes wherever they are, */
  lemma {:induction false} OkAt(t: Tree, o: int)
    requires KidsOk(t) && At(t, o).Some? && At(t, o).value.NodeT?
    ensures var x := At(t, o).value.kids;
            (FirstVal(x, PHANDLE).Some? ==> |FirstVal(x, PHANDLE).value| == 4)
            && (FirstVal(x, LINUX_PHANDLE).Some? ==> |FirstVal(x, LINUX_PHANDLE).value| == 4)
    decreases t
  {
    hide Len, HLen, TSize, FirstVal, PHANDLE, LINUX_PHANDLE;
    if o != 0 {
      match t
      case NopT(r) => OkAt(r, o - 4);
      case PropT(n, v, r) => OkAt(r, o - Len(Prop(n, v)));
      case NodeT(n, k, r) =>
        if o <= HLen(n) + TSize(k) {
          OkAt(k, o - HLen(n));
        } else {
          OkAt(r, o - (HLen(n) + TSize(k) + 4));
        }
    }
  }

  /** and when it does, there is one where they have not. */
  lemma {:induction false} NotOkAt(t: Tree) returns (o: int)
    requires !KidsOk(t)
    ensures At(t, o).Some? && At(t, o).value.NodeT?
            && exists name :: (name == PHANDLE || name == LINUX_PHANDLE) && FirstVal(At(t, o).value.kids, name).Some?
                              && |FirstVal(At(t, o).value.kids, name).value| != 4
    decreases t
  {
    SmallTokens();
    hide Len, HLen, TSize, FirstVal, PHANDLE, LINUX_PHANDLE;
    match t
    case NopT(r) =>
      o := NotOkAt(r);
      AtBound(r, o);
      o := o + 4;
    case PropT(n, v, r) =>
      o := NotOkAt(r);
      AtBound(r, o);
      o := o + Len(Prop(n, v));
    case NodeT(n, k, r) =>
      if !(OwnOk(k, PHANDLE) && OwnOk(k, LINUX_PHANDLE)) {
        o := 0;
      } else if !KidsOk(k) {
        o := NotOkAt(k);
        AtBound(k, o);
        o := o + HLen(n);
      } else {
        o := NotOkAt(r);
        AtBound(r, o);
        o := o + HLen(n) + TSize(k) + 4;
      }
  }

  // ----- what the second pass refuses -----

  /** A property before the first subnode. */
  predicate IsOwn(fk: Tree, o: int) {
    At(fk, o).Some? && At(fk, o).value.PropT? && o < LeadLen(fk)
  }

  /** It succeeds on the lists of a node exactly when each is of whole words and for a property that is there. */
  lemma {:induction false} GoodLists(off: int, tk: Tree, fk: Tree, o: int)
    requires PropsOk(off, tk, fk) && IsOwn(fk, o)
    ensures |At(fk, o).value.val| % 4 == 0 && HasProp(tk, At(fk, o).value.name)
    decreases fk
  {
    hide Len, HLen, TSize, FindProp, HasProp;
    if o != 0 {
      match fk
      case NopT(r) => GoodLists(off, tk, r, o - 4);
      case PropT(n, v, r) => GoodLists(off, tk, r, o - Len(Prop(n, v)));
      case _ =>
    } else {
      FindPropEdit(off, tk, fk.name, []);
    }
  }

  lemma {:induction false} BadList(off: int, tk: Tree, fk: Tree) returns (o: int)
    requires !PropsOk(off, tk, fk)
    ensures IsOwn(fk, o) && !(|At(fk, o).value.val| % 4 == 0 && HasProp(tk, At(fk, o).value.name))
    decreases fk
  {
    SmallTokens();
    hide Len, HLen, TSize, FindProp, HasProp;
    match fk
    case NopT(r) =>
      o := BadList(off, tk, r);
      AtBound(r, o);
      o := o + 4;
    case PropT(n, v, r) =>
      FindPropEdit(off, tk, n, []);
      LeadIs(r);
      if |v| % 4 != 0 || !HasProp(tk, n) {
        o := 0;
      } else {
        o := BadList(off, tk, r);
        AtBound(r, o);
        o := o + Len(Prop(n, v));
      }
  }

  /** It succeeds on a subnode exactly when a child of its name is found and it succeeds there. */
  lemma {:induction false} GoodKids(off: int, tk: Tree, fk: Tree, o: int, z: Tree)
    requires RefKidsOk(off, tk, fk) && At(fk, o) == Some(z) && z.NodeT? && o + TSize(z) == TSize(fk)
    ensures FindKid(off, tk, Some(z.name)).Some?
    ensures var c := FindKid(off, tk, Some(z.name)).value;
            At(tk, c - off).Some? && At(tk, c - off).value.NodeT?
            && var x := At(tk, c - off).value; RefsOk(c + HLen(x.name), x.kids, z.kids)
    decreases fk
  {
    hide Len, HLen, TSize, RefsOk, FindKid, ItemLen;
    if o == 0 {
      hide At;
    } else {
      AtBound(fk, o);
      hide At;
      LevelStep(fk, o, z);
      GoodKids(off, tk, fk.rest, o - ItemLen(fk), z);
    }
  }

  lemma {:induction false} BadKid(off: int, tk: Tree, fk: Tree) returns (o: int, z: Tree)
    requires !RefKidsOk(off, tk, fk)
    ensures At(fk, o) == Some(z) && z.NodeT? && o + TSize(z) == TSize(fk)
    ensures var c := KidOf(off, tk, z.name);
            c.None? || !c.value.1.NodeT? || !RefsOk(c.value.0 + HLen(c.value.1.name), c.value.1.kids, z.kids)
    decreases fk
  {
    SmallTokens();
    SizeStep(fk);
    hide Len, HLen, TSize, RefsOk, KidOf;
    match fk
    case NopT(r) =>
      o, z := BadKid(off, tk, r);
      AtBound(r, o);
      o := o + 4;
    case PropT(n, v, r) =>
      o, z := BadKid(off, tk, r);
      AtBound(r, o);
      o := o + Len(Prop(n, v));
    case NodeT(n, k, r) =>
      if RefKidsOk(off, tk, r) {
        o, z := 0, fk;
      } else {
        o, z := BadKid(off, tk, r);
        AtBound(r, o);
        o := o + HLen(n) + TSize(k) + 4;
      }
  }

  // ----- the words in the order they are worked off -----

  /** The words of a list at `o`. */
  function Row(o: int, n: nat): (r: seq<(int, nat)>)
    ensures |r| == n && forall i :: 0 <= i < n ==> r[i] == (o, i)
  {
    seq(n, i requires 0 <= i < n => (o, i))
  }

  function OwnMarks(fk: Tree, b: int): seq<(int, nat)> {
    match fk
    case NopT(r) => OwnMarks(r, b + 4)
    case PropT(n, v, r) => Row(b, |v| / 4) + OwnMarks(r, b + Len(Prop(n, v)))
    case _ => []
  }

  /** Every word of the lists in a fixups node whose content is at `b`: where its list is, and its number there. */
  function Marks(fk: Tree, b: int): seq<(int, nat)>
    decreases fk, 1
  {
    OwnMarks(fk, b) + KidMarks(fk, b)
  }

  function KidMarks(fk: Tree, b: int): seq<(int, nat)>
    decreases fk, 0
  {
    match fk
    case Leaf => []
    case NopT(r) => KidMarks(r, b + 4)
    case PropT(n, v, r) => KidMarks(r, b + Len(Prop(n, v)))
    case NodeT(n, k, r) => Marks(k, b + HLen(n)) + KidMarks(r, b + (HLen(n) + TSize(k) + 4))
  }

  ghost predicate Between(ms: seq<(int, nat)>, a: int, e: int) {
    forall j :: 0 <= j < |ms| ==> a <= ms[j].0 < e
  }

  lemma BetweenBoth(x: seq<(int, nat)>, y: seq<(int, nat)>, a: int, e: int)
    requires Between(x, a, e) && Between(y, a, e)
    ensures Between(x + y, a, e)
  {
  }

  lemma {:induction false} OwnBetween(fk: Tree, b: int)
    ensures LeadLen(fk) <= TSize(fk) && Between(OwnMarks(fk, b), b, b + LeadLen(fk))
    decreases fk
  {
    SmallTokens();
    SizeStep(fk);
    hide Len, HLen, TSize;
    match fk
    case NopT(r) => OwnBetween(r, b + 4);
    case PropT(n, v, r) =>
      OwnBetween(r, b + Len(Prop(n, v)));
      BetweenBoth(Row(b, |v| / 4), OwnMarks(r, b + Len(Prop(n, v))), b, b + LeadLen(fk));
    case _ =>
  }

  lemma {:induction false} MarksBetween(fk: Tree, b: int)
    ensures Between(Marks(fk, b), b, b + TSize(fk))
    decreases fk, 1
  {
    hide OwnMarks, KidMarks, LeadLen, TSize;
    OwnBetween(fk, b);
    KidsBetween(fk, b);
    LeadIs(fk);
    BetweenBoth(OwnMarks(fk, b), KidMarks(fk, b), b, b + TSize(fk));
  }

  lemma LeadIs(fk: Tree)
    ensures 0 <= LeadLen(fk)
  {
  }

  lemma {:induction false} KidsBetween(fk: Tree, b: int)
    ensures Between(KidMarks(fk, b), b + LeadLen(fk), b + TSize(fk))
    decreases fk, 0
  {
    SmallTokens();
    SizeStep(fk);
    hide Len, HLen, TSize, Marks;
    match fk
    case Leaf =>
    case NopT(r) => KidsBetween(r, b + 4);
    case PropT(n, v, r) => KidsBetween(r, b + Len(Prop(n, v)));
    case NodeT(n, k, r) =>
      var e := b + (HLen(n) + TSize(k) + 4);
      MarksBetween(k, b + HLen(n));
      KidsBetween(r, e);
      LeadIs(r);
      BetweenBoth(Marks(k, b + HLen(n)), KidMarks(r, e), b, b + TSize(fk));
  }

  // ----- the words and the cells -----

  /** Each of the words names the cell at the same place of `ls`. */
  ghost predicate Lists(off: int, tk: Tree, fk: Tree, props: bool, b: int, ls: seq<int>, ms: seq<(int, nat)>) {
    |ls| == |ms| && forall j :: 0 <= j < |ls| ==> Named(off, tk, fk, props, ms[j].0 - b, ms[j].1) == Some(ls[j])
  }

  lemma ListsBoth(off: int, tk: Tree, fk: Tree, props: bool, b: int, ls: seq<int>, ms: seq<(int, nat)>, ls': seq<int>,
                  ms': seq<(int, nat)>)
    requires Lists(off, tk, fk, props, b, ls, ms) && Lists(off, tk, fk, props, b, ls', ms')
    ensures Lists(off, tk, fk, props, b, ls + ls', ms + ms')
  {
    hide Named;
  }

  /** Lists behind the first item. */
  lemma ListsBehind(off: int, tk: Tree, fk: Tree, props: bool, b: int, ls: seq<int>, ms: seq<(int, nat)>)
    requires !fk.Leaf? && Lists(off, tk, fk.rest, props && !fk.NodeT?, b + ItemLen(fk), ls, ms)
    requires Between(ms, b + ItemLen(fk), b + TSize(fk))
    ensures Lists(off, tk, fk, props, b, ls, ms)
  {
    hide Named, ItemLen, TSize;
    forall j | 0 <= j < |ls|
      ensures Named(off, tk, fk, props, ms[j].0 - b, ms[j].1) == Some(ls[j])
    {
      NamedBehind(off, tk, fk, props, ms[j].0 - b, ms[j].1);
    }
  }

  lemma {:induction false} OwnNamed(off: int, tk: Tree, fk: Tree, b: int)
    requires PropsOk(off, tk, fk)
    ensures Lists(off, tk, fk, true, b, RefProps(off, tk, fk), OwnMarks(fk, b))
    decreases fk
  {
    SizeStep(fk);
    hide Named, Len, HLen, TSize, FindProp, Words, Shift;
    match fk
    case NopT(r) =>
      OwnNamed(off, tk, r, b + 4);
      OwnBehind(r, b + 4);
      ListsBehind(off, tk, fk, true, b, RefProps(off, tk, fk), OwnMarks(fk, b));
    case PropT(n, v, r) =>
      var e, p := b + Len(Prop(n, v)), FindProp(off, tk, n);
      OwnNamed(off, tk, r, e);
      OwnBehind(r, e);
      ListsBehind(off, tk, fk, true, b, RefProps(off, tk, r), OwnMarks(r, e));
      RowNamed(off, tk, fk, b);
      ListsBoth(off, tk, fk, true, b, Shift(p.value + 12, Words(v)), Row(b, |v| / 4), RefProps(off, tk, r),
                OwnMarks(r, e));
    case _ =>
  }

  lemma OwnBehind(r: Tree, b: int)
    ensures Between(OwnMarks(r, b), b, b + TSize(r))
  {
    hide OwnMarks, LeadLen, TSize;
    OwnBetween(r, b);
  }

  lemma KidsBehind(r: Tree, b: int)
    ensures Between(KidMarks(r, b), b, b + TSize(r))
  {
    hide KidMarks, LeadLen, TSize;
    KidsBetween(r, b);
    LeadIs(r);
  }

  lemma RowNamed(off: int, tk: Tree, fk: Tree, b: int)
    requires fk.PropT? && |fk.val| % 4 == 0 && FindProp(off, tk, fk.name).Some?
    ensures Lists(off, tk, fk, true, b, Shift(FindProp(off, tk, fk.name).value + 12, Words(fk.val)),
                  Row(b, |fk.val| / 4))
  {
    hide FindProp, Words, Shift, Load32, Row;
    var base := FindProp(off, tk, fk.name).value + 12;
    WordsAt(fk.val, 0);
    forall j | 0 <= j < |fk.val| / 4
      ensures Shift(base, Words(fk.val))[j] == base + Load32(fk.val, 4 * j)
    {
      ShiftAt(base, fk.val, j);
    }
  }

  lemma {:induction false} AllNamed(off: int, tk: Tree, fk: Tree, b: int)
    requires RefsOk(off, tk, fk)
    ensures Lists(off, tk, fk, true, b, Refs(off, tk, fk), Marks(fk, b))
    decreases fk, 1
  {
    hide Named, RefProps, RefKids, OwnMarks, KidMarks, PropsOk, RefKidsOk, Lists;
    OwnNamed(off, tk, fk, b);
    KidsNamed(off, tk, fk, true, b);
    ListsBoth(off, tk, fk, true, b, RefProps(off, tk, fk), OwnMarks(fk, b), RefKids(off, tk, fk), KidMarks(fk, b));
  }

  lemma {:induction false} KidsNamed(off: int, tk: Tree, fk: Tree, props: bool, b: int)
    requires RefKidsOk(off, tk, fk)
    ensures Lists(off, tk, fk, props, b, RefKids(off, tk, fk), KidMarks(fk, b))
    decreases fk, 0
  {
    SizeStep(fk);
    hide Named, Len, HLen, TSize, KidOf, Refs, RefsOk, Marks, Lists;
    match fk
    case Leaf => NothingListed(off, tk, fk, props, b);
    case NopT(r) =>
      KidsNamed(off, tk, r, props, b + 4);
      KidsBehind(r, b + 4);
      ListsBehind(off, tk, fk, props, b, RefKids(off, tk, fk), KidMarks(fk, b));
    case PropT(n, v, r) =>
      KidsNamed(off, tk, r, props, b + Len(Prop(n, v)));
      KidsBehind(r, b + Len(Prop(n, v)));
      ListsBehind(off, tk, fk, props, b, RefKids(off, tk, fk), KidMarks(fk, b));
    case NodeT(n, k, r) =>
      var c, e := KidOf(off, tk, n).value, b + (HLen(n) + TSize(k) + 4);
      AllNamed(c.0 + HLen(c.1.name), c.1.kids, k, b + HLen(n));
      MarksBetween(k, b + HLen(n));
      InKid(off, tk, fk, props, b, Refs(c.0 + HLen(c.1.name), c.1.kids, k), Marks(k, b + HLen(n)));
      KidsNamed(off, tk, r, false, e);
      KidsBehind(r, e);
      ListsBehind(off, tk, fk, props, b, RefKids(off, tk, r), KidMarks(r, e));
      ListsBoth(off, tk, fk, props, b, Refs(c.0 + HLen(c.1.name), c.1.kids, k), Marks(k, b + HLen(n)),
                RefKids(off, tk, r), KidMarks(r, e));
  }

  lemma NothingListed(off: int, tk: Tree, fk: Tree, props: bool, b: int)
    ensures Lists(off, tk, fk, props, b, [], [])
  {
  }

  /** Lists in the first subnode. */
  lemma InKid(off: int, tk: Tree, fk: Tree, props: bool, b: int, ls: seq<int>, ms: seq<(int, nat)>)
    requires fk.NodeT? && KidOf(off, tk, fk.name).Some? && KidOf(off, tk, fk.name).value.1.NodeT?
    requires var c := KidOf(off, tk, fk.name).value;
             Lists(c.0 + HLen(c.1.name), c.1.kids, fk.kids, true, b + HLen(fk.name), ls, ms)
    requires Between(ms, b + HLen(fk.name), b + HLen(fk.name) + TSize(fk.kids))
    ensures Lists(off, tk, fk, props, b, ls, ms)
  {
    hide KidOf, HLen, TSize;
  }

  // ----- each word once, and none left out -----

  ghost predicate Once(ms: seq<(int, nat)>) {
    forall i, j :: 0 <= i < j < |ms| ==> ms[i] != ms[j]
  }

  lemma OnceBoth(x: seq<(int, nat)>, y: seq<(int, nat)>, a: int, m: int, e: int)
    requires Once(x) && Once(y) && Between(x, a, m) && Between(y, m, e)
    ensures Once(x + y)
  {
  }

  lemma {:induction false} OwnOnce(fk: Tree, b: int)
    ensures Once(OwnMarks(fk, b))
    decreases fk
  {
    SmallTokens();
    hide Len, Once, Between;
    match fk
    case NopT(r) => OwnOnce(r, b + 4);
    case PropT(n, v, r) =>
      var e := b + Len(Prop(n, v));
      OwnOnce(r, e);
      OwnBetween(r, e);
      RowOnce(b, |v| / 4, e);
      OnceBoth(Row(b, |v| / 4), OwnMarks(r, e), b, e, e + LeadLen(r));
    case _ => NoneOnce();
  }

  lemma RowOnce(b: int, n: nat, e: int)
    requires b < e
    ensures Once(Row(b, n)) && Between(Row(b, n), b, e)
  {
  }

  lemma NoneOnce()
    ensures Once([])
  {
  }

  lemma {:induction false} MarksOnce(fk: Tree, b: int)
    ensures Once(Marks(fk, b))
    decreases fk, 1
  {
    hide OwnMarks, KidMarks, Once, Between, LeadLen, TSize;
    OwnOnce(fk, b);
    OwnBetween(fk, b);
    KidsOnce(fk, b);
    KidsBetween(fk, b);
    OnceBoth(OwnMarks(fk, b), KidMarks(fk, b), b, b + LeadLen(fk), b + TSize(fk));
  }

  lemma {:induction false} KidsOnce(fk: Tree, b: int)
    ensures Once(KidMarks(fk, b))
    decreases fk, 0
  {
    hide Len, HLen, TSize, Marks, Once;
    match fk
    case Leaf => NoneOnce();
    case NopT(r) => KidsOnce(r, b + 4);
    case PropT(n, v, r) => KidsOnce(r, b + Len(Prop(n, v)));
    case NodeT(n, k, r) =>
      var e := b + (HLen(n) + TSize(k) + 4);
      MarksOnce(k, b + HLen(n));
      MarksBetween(k, b + HLen(n));
      KidsOnce(r, e);
      KidsBehind(r, e);
      OnceBoth(Marks(k, b + HLen(n)), KidMarks(r, e), b + HLen(n), e, e + TSize(r));
  }

  /** Words behind the first item, or in it when it is a node. */
  lemma MarkedBehind(fk: Tree, b: int, m: (int, nat))
    requires !fk.Leaf?
    ensures m in KidMarks(fk.rest, b + ItemLen(fk)) ==> m in KidMarks(fk, b)
    ensures m in Marks(fk.rest, b + ItemLen(fk)) && !fk.NodeT? ==> m in Marks(fk, b)
    ensures fk.NodeT? && m in Marks(fk.kids, b + HLen(fk.name)) ==> m in KidMarks(fk, b)
  {
    hide HLen, TSize, Row;
  }

  lemma MarkedHere(fk: Tree, b: int, i: nat)
    requires fk.PropT? && 4 * i + 4 <= |fk.val|
    ensures (b, i) in Marks(fk, b)
  {
    assert Row(b, |fk.val| / 4)[i] == (b, i);
  }

  lemma KidMarksIn(fk: Tree, b: int, m: (int, nat))
    ensures m in KidMarks(fk, b) ==> m in Marks(fk, b)
  {
    hide KidMarks, OwnMarks;
  }

  /** Every word that names a cell is among them. */
  lemma {:induction false} AllMarked(off: int, tk: Tree, fk: Tree, props: bool, b: int, o: int, i: nat)
    requires Named(off, tk, fk, props, o, i).Some?
    ensures (b + o, i) in if props then Marks(fk, b) else KidMarks(fk, b)
    decreases fk
  {
    hide Len, HLen, TSize, KidOf, FindProp, Load32, Marks, KidMarks;
    if !fk.Leaf? {
      MarkedBehind(fk, b, (b + o, i));
      KidMarksIn(fk, b, (b + o, i));
    }
    match fk
    case NopT(r) =>
      AllMarked(off, tk, r, props, b + 4, o - 4, i);
    case PropT(n, v, r) =>
      if o != 0 {
        AllMarked(off, tk, r, props, b + Len(Prop(n, v)), o - Len(Prop(n, v)), i);
      } else {
        MarkedHere(fk, b, i);
      }
    case NodeT(n, k, r) =>
      var l := HLen(n) + TSize(k) + 4;
      if o >= l {
        AllMarked(off, tk, r, false, b + l, o - l, i);
      } else {
        var c := KidOf(off, tk, n).value;
        AllMarked(c.0 + HLen(c.1.name), c.1.kids, k, true, b + HLen(n), o - HLen(n), i);
      }
  }

  // ----- what working them off does -----

  /** Another word names the cell at `c`. */
  ghost predicate NamedElsewhere(off: int, tk: Tree, fk: Tree, o: int, i: nat, c: int) {
    exists o': int, i': nat :: (o' != o || i' != i) && Named(off, tk, fk, true, o', i') == Some(c)
  }

  /** Where the cell that a word names is among all that are listed; every other one is named elsewhere. */
  lemma PlaceOf(off: int, tk: Tree, fk: Tree, o: int, i: nat) returns (j: nat)
    requires RefsOk(off, tk, fk) && Named(off, tk, fk, true, o, i).Some?
    ensures var ls := Refs(off, tk, fk);
            j < |ls| && ls[j] == Named(off, tk, fk, true, o, i).value
            && forall k :: 0 <= k < |ls| && k != j ==> NamedElsewhere(off, tk, fk, o, i, ls[k])
  {
    hide Named, Marks, Refs, RefsOk;
    var ls, ms := Refs(off, tk, fk), Marks(fk, 0);
    AllNamed(off, tk, fk, 0);
    MarksOnce(fk, 0);
    AllMarked(off, tk, fk, true, 0, o, i);
    var x :| 0 <= x < |ms| && ms[x] == (o, i);
    j := x;
    forall k | 0 <= k < |ls| && k != j
      ensures NamedElsewhere(off, tk, fk, o, i, ls[k])
    {
      assert ms[k] != ms[x] && ms[k] == (ms[k].0, ms[k].1);
      var o', i' := ms[k].0, ms[k].1;
      assert Named(off, tk, fk, true, o' - 0, i') == Some(ls[k]);
      assert o' - 0 == o' && (o' != o || i' != i);
    }
  }

  /** Every listed cell is named by a word. */
  lemma WordOf(off: int, tk: Tree, fk: Tree, k: nat) returns (o: int, i: nat)
    requires RefsOk(off, tk, fk) && k < |Refs(off, tk, fk)|
    ensures Named(off, tk, fk, true, o, i) == Some(Refs(off, tk, fk)[k])
  {
    hide Named, Marks, Refs, RefsOk;
    AllNamed(off, tk, fk, 0);
    o, i := Marks(fk, 0)[k].0, Marks(fk, 0)[k].1;
  }

  /** When the listed cells have been worked off, a cell that a word names and no other word's cell touches is `d`
      higher, */
  lemma NamedRaised(off: int, tk: Tree, fk: Tree, s: seq<byte>, d: nat, s': seq<byte>, o: int, i: nat)
    requires d < TWO32 && RefsOk(off, tk, fk) && Added(s, Refs(off, tk, fk), d, s')
             && Named(off, tk, fk, true, o, i).Some?
    requires forall c :: NamedElsewhere(off, tk, fk, o, i, c) ==> NoTouch(c, Named(off, tk, fk, true, o, i).value)
    ensures var c := Named(off, tk, fk, true, o, i).value;
            0 <= c && c + 4 <= |s| == |s'| && Load32(s', c) == (Load32(s, c) + d) % TWO32
  {
    hide Named, Refs, RefsOk, NamedElsewhere, Added, Load32, NoTouch;
    var j := PlaceOf(off, tk, fk, o, i);
    AddedAt(s, Refs(off, tk, fk), d, s', j);
  }

  /** and a byte of no such cell is as it was. */
  lemma UnnamedStays(off: int, tk: Tree, fk: Tree, s: seq<byte>, d: nat, s': seq<byte>, k: nat)
    requires d < TWO32 && RefsOk(off, tk, fk) && Added(s, Refs(off, tk, fk), d, s') && k < |s|
    requires forall o: int, i: nat ::
               var c := Named(off, tk, fk, true, o, i); c.Some? ==> !(c.value <= k < c.value + 4)
    ensures |s'| == |s| && s'[k] == s[k]
  {
    hide Named, Refs, RefsOk, AddCells;
    var ls := Refs(off, tk, fk);
    forall j | 0 <= j < |ls|
      ensures !(ls[j] <= k < ls[j] + 4)
    {
      var o, i := WordOf(off, tk, fk, j);
    }
    ByteStays(s, ls, d, k);
  }
}

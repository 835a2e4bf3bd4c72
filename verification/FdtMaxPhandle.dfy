/** fdt_find_max_phandle(): the walk over all nodes finds the highest phandle of the tree. */
module FdtMaxPhandle {
  import opened Options
  import opened FdtTokens
  import opened FdtTree
  import opened FdtBlob
  import opened FdtWalk
  import opened FdtRo
  import opened FdtEdit
  import opened FdtRw
  import opened FdtSetprop
  import opened FdtGetprop
  import opened FdtPhandle

  // ----- the phandle of a node -----

  /** A value of four bytes as a number. */
  function CellOf(v: Option<seq<byte>>): Option<nat> {
    if v.Some? && |v.value| == 4 then Some(Load32(v.value, 0)) else None
  }

  /** fdt_get_phandle() of a node with this content: 0 when it has none. */
  function Phandle(t: Tree): (p: nat)
    ensures p < TWO32
  {
    var a := CellOf(FirstVal(t, PHANDLE));
    if a.Some? then a.value
    else
      var b := CellOf(FirstVal(t, LINUX_PHANDLE));
      if b.Some? then b.value else 0
  }

  function Max(a: nat, b: nat): nat {
    if a < b then b else a
  }

  /** The highest phandle of the nodes on a level and below. */
  function MaxPhandle(t: Tree): (p: nat)
    ensures p < TWO32
  {
    match t
    case Leaf => 0
    case NopT(r) => MaxPhandle(r)
    case PropT(_, _, r) => MaxPhandle(r)
    case NodeT(_, k, r) => Max(Max(Phandle(k), MaxPhandle(k)), MaxPhandle(r))
  }

  /** What a node's phandle is, from its properties. */
  lemma PhandleMeans(t: Tree)
    ensures var (x, y) := (FirstVal(t, PHANDLE), FirstVal(t, LINUX_PHANDLE));
            Phandle(t) == if x.Some? && |x.value| == 4 then Load32(x.value, 0)
                          else if y.Some? && |y.value| == 4 then Load32(y.value, 0)
                          else 0
  {
  }

  /** No node has a higher one, and unless it is 0 some node has it. */
  lemma {:induction false} MaxIsMax(t: Tree, off: int)
    ensures At(t, off).Some? && At(t, off).value.NodeT? ==> Phandle(At(t, off).value.kids) <= MaxPhandle(t)
    decreases t
  {
    hide Len, HLen, TSize, Phandle;
    if off > 0 {
      match t
      case Leaf =>
      case NopT(r) => MaxIsMax(r, off - 4);
      case PropT(n, v, r) => MaxIsMax(r, off - Len(Prop(n, v)));
      case NodeT(n, k, r) =>
        MaxIsMax(k, off - HLen(n));
        MaxIsMax(r, off - (HLen(n) + TSize(k) + 4));
    }
  }

  lemma {:induction false} MaxIsThere(t: Tree) returns (off: int)
    requires MaxPhandle(t) > 0
    ensures At(t, off).Some? && At(t, off).value.NodeT? && Phandle(At(t, off).value.kids) == MaxPhandle(t)
    decreases t
  {
    hide Len, HLen, TSize, Phandle;
    match t
    case NopT(r) =>
      off := MaxIsThere(r);
      AtBound(r, off);
      off := off + 4;
    case PropT(n, v, r) =>
      off := MaxIsThere(r);
      AtBound(r, off);
      off := off + Len(Prop(n, v));
    case NodeT(n, k, r) =>
      if MaxPhandle(t) == Phandle(k) {
        off := 0;
      } else if MaxPhandle(t) == MaxPhandle(k) {
        off := MaxIsThere(k);
        AtBound(k, off);
        off := off + HLen(n);
      } else {
        off := MaxIsThere(r);
        AtBound(r, off);
        off := off + HLen(n) + TSize(k) + 4;
      }
  }

  /** fdt_get_phandle() */
  method GetPhandle(b: Blob, node: int) returns (r: nat)
    requires b.Readable() && IsInt(node)
    ensures b.IsNode(node) ==> r == Phandle(b.Node(node).kids)
    ensures b.IsNode(node) ==>
              var (x, y) := (FirstVal(b.Node(node).kids, PHANDLE), FirstVal(b.Node(node).kids, LINUX_PHANDLE));
              r == if x.Some? && |x.value| == 4 then Load32(x.value, 0)
                   else if y.Some? && |y.value| == 4 then Load32(y.value, 0)
                   else 0
  {
    hide BlobTree, At, HLen, FindProp, FirstVal, Load32;
    var a := GetCell(b, node, PHANDLE);
    if a.Some? {
      return a.value;
    }
    var c := GetCell(b, node, LINUX_PHANDLE);
    return if c.Some? then c.value else 0;
  }

  /** fdt_getprop() of a value that should be one cell. */
  method GetCell(b: Blob, node: int, name: seq<byte>) returns (r: Option<nat>)
    requires b.Readable() && IsInt(node)
    ensures b.IsNode(node) ==> r == CellOf(FirstVal(b.Node(node).kids, name))
  {
    hide BlobTree, At, FirstVal, Load32;
    var val := Getprop(b, node, name);
    if val.None? || |val.value| != 4 {
      return None;
    }
    return Some(Load32(val.value, 0));
  }

  /** fdt_setprop() of a phandle and then fdt_get_phandle(): a "phandle" is what is read, a "linux,phandle" if
      there is no "phandle" of four bytes. */
  method SetPhandle(f: Fdt, node: int, linux: bool, p: nat) returns (err: int, r: nat)
    requires f.View().Fits() && NodeArg(f.View(), node) && p < TWO32
    modifies f, f.buf
    ensures f.View().Fits() && err <= 0
    ensures err == 0 ==> old(f.View()).IsNode(node)
                         && var x := FirstVal(old(f.View()).Node(node).kids, PHANDLE);
                            r == if linux && x.Some? && |x.value| == 4 then Load32(x.value, 0) else p
  {
    hide BlobTree, At, Put, FirstVal, SetProp, Ordered, Enc32, Load32;
    ghost var v := f.View();
    r := 0;
    var name := if linux then LINUX_PHANDLE else PHANDLE;
    err := Setprop(f, node, name, Enc32(p));
    if err == 0 {
      ghost var t := v.Node(node).kids;
      NodePut(v, f.View(), node, SetProp(t, name, Enc32(p)));
      SetPropVals(t, name, Enc32(p), PHANDLE);
      SetPropVals(t, name, Enc32(p), LINUX_PHANDLE);
      r := GetPhandle(f.View(), node);
    }
  }

  // ----- the walk over all nodes -----

  /** The next node of the stream, on whatever level. */
  function NextBegin(off: int, w: seq<Tok>): Option<(int, seq<Tok>)>
    decreases |w|
  {
    if w == [] || w[0].Fin? then None
    else if w[0].Begin? then Some((off, w))
    else NextBegin(off + Len(w[0]), w[1..])
  }

  function FirstValT(w: seq<Tok>, name: seq<byte>): Option<seq<byte>> {
    if w == [] then None
    else
      match w[0]
      case Nop => FirstValT(w[1..], name)
      case Prop(n, v) => if n == name then Some(v) else FirstValT(w[1..], name)
      case _ => None
  }

  /** The phandle of the node whose content these tokens are. */
  function PhandleT(w: seq<Tok>): nat {
    var a := CellOf(FirstValT(w, PHANDLE));
    if a.Some? then a.value
    else
      var b := CellOf(FirstValT(w, LINUX_PHANDLE));
      if b.Some? then b.value else 0
  }

  function MaxT(w: seq<Tok>): nat {
    if w == [] || w[0].Fin? then 0
    else if w[0].Begin? then Max(PhandleT(w[1..]), MaxT(w[1..]))
    else MaxT(w[1..])
  }

  lemma {:induction false} MaxNext(off: int, w: seq<Tok>)
    ensures match NextBegin(off, w)
            case None => MaxT(w) == 0
            case Some(x) => x.1 != [] && x.1[0].Begin? && MaxT(w) == Max(PhandleT(x.1[1..]), MaxT(x.1[1..]))
    decreases |w|
  {
    hide Len, PhandleT;
    if w != [] && !w[0].Fin? && !w[0].Begin? {
      MaxNext(off + Len(w[0]), w[1..]);
    }
  }

  lemma {:induction false} FirstValFlat(t: Tree, post: seq<Tok>, name: seq<byte>)
    requires post != [] && (post[0].End? || post[0].Fin?)
    ensures FirstValT(Flat(t) + post, name) == FirstVal(t, name)
  {
    var w := Flat(t) + post;
    match t
    case Leaf => assert w == post;
    case NopT(r) =>
      assert w[1..] == Flat(r) + post;
      FirstValFlat(r, post, name);
    case PropT(n, v, r) =>
      assert w[1..] == Flat(r) + post;
      FirstValFlat(r, post, name);
    case NodeT(n, k, r) => assert w[0] == Begin(n);
  }

  /** The walk sees the phandles of the tree. */
  lemma {:induction false} MaxFlat(t: Tree, post: seq<Tok>)
    requires post != [] && (post[0].End? || post[0].Fin?)
    ensures MaxT(Flat(t) + post) == Max(MaxPhandle(t), MaxT(post))
    decreases t
  {
    hide CellOf, PHANDLE, LINUX_PHANDLE;
    var w := Flat(t) + post;
    match t
    case Leaf => assert w == post;
    case NopT(r) =>
      assert w[1..] == Flat(r) + post;
      MaxFlat(r, post);
    case PropT(n, v, r) =>
      assert w[1..] == Flat(r) + post;
      MaxFlat(r, post);
    case NodeT(n, k, r) =>
      FlatNode(n, k, r, post);
      var v := [End] + (Flat(r) + post);
      assert w[1..] == Flat(k) + v && v[1..] == Flat(r) + post;
      FirstValFlat(k, v, PHANDLE);
      FirstValFlat(k, v, LINUX_PHANDLE);
      MaxFlat(k, v);
      MaxFlat(r, post);
  }

  /** Every FDT_BEGIN_NODE of the stream is a node of the tree, and what follows it is its content. */
  lemma {:induction false} BeginIsNode(t: Tree, post: seq<Tok>, o: int)
    requires Suffix(Flat(t) + post, o).Some? && 0 <= o < TSize(t)
    requires Suffix(Flat(t) + post, o).value != [] && Suffix(Flat(t) + post, o).value[0].Begin?
    ensures At(t, o).Some? && At(t, o).value.NodeT?
    decreases t
  {
    SizeStep(t);
    var w := Flat(t) + post;
    match t
    case NopT(r) =>
      assert w[1..] == Flat(r) + post && w[0] == Nop;
      BeginIsNode(r, post, o - 4);
    case PropT(n, v, r) =>
      assert w[1..] == Flat(r) + post && w[0] == Prop(n, v);
      BeginIsNode(r, post, o - Len(Prop(n, v)));
    case NodeT(n, k, r) =>
      if o > 0 {
        BeginInside(n, k, r, post, o);
      }
  }

  lemma {:induction false} BeginInside(n: seq<byte>, k: Tree, r: Tree, post: seq<Tok>, o: int)
    requires var w := Suffix(Flat(NodeT(n, k, r)) + post, o); w.Some? && w.value != [] && w.value[0].Begin?
    requires 0 < o < TSize(NodeT(n, k, r))
    ensures At(NodeT(n, k, r), o).Some? && At(NodeT(n, k, r), o).value.NodeT?
    decreases NodeT(n, k, r), 0
  {
    hide Len, TSize;
    SizeStep(NodeT(n, k, r));
    SmallTokens();
    FlatNode(n, k, r, post);
    var v := [End] + (Flat(r) + post);
    var w := [Begin(n)] + (Flat(k) + v);
    assert w[1..] == Flat(k) + v && v[1..] == Flat(r) + post;
    SizeFlat(k);
    SuffixBeyond(Flat(k), v, o - HLen(n));
    if o - HLen(n) < TSize(k) {
      BeginIsNode(k, v, o - HLen(n));
    } else {
      BeginIsNode(r, post, o - HLen(n) - TSize(k) - 4);
    }
  }

  lemma {:induction false} SuffixBeyond(a: seq<Tok>, b: seq<Tok>, q: int)
    ensures q >= Size(a) ==> Suffix(a + b, q) == Suffix(b, q - Size(a))
    decreases |a|
  {
    hide Len;
    if a == [] {
      assert a + b == b;
    } else {
      assert (a + b)[1..] == a[1..] + b && (a + b)[0] == a[0];
      SuffixBeyond(a[1..], b, q - Len(a[0]));
    }
  }

  /** One tag of the walk. */
  lemma BeginStep(s: seq<byte>, st: Strs, ts: seq<Tok>, off: int, w: seq<Tok>)
    requires Scan(s, st) == Some(ts) && Suffix(ts, off) == Some(w) && w != []
    ensures var (tag, next) := TagAt(s, off);
            next > off
            && (tag == FDT_BEGIN_NODE ==> NextBegin(off, w) == Some((off, w)))
            && (tag == FDT_END ==> NextBegin(off, w) == None)
            && (tag != FDT_BEGIN_NODE && tag != FDT_END ==> NextBegin(off, w) == NextBegin(next, w[1..]))
            && (tag != FDT_END ==> Suffix(ts, next) == Some(w[1..]) && w[1..] != [])
  {
    hide Len, Suffix, TagAt;
    SmallTokens();
    TagAtSuffix(s, st, ts, off);
  }

  ghost predicate Found(r: int, x: Option<(int, seq<Tok>)>) {
    r == if x.Some? then x.value.0 else ERR_NOTFOUND
  }

  /** fdt_next_node() without a depth. */
  method NextNodeAny(b: Blob, offset: int) returns (r: int)
    requires b.Readable() && IsInt(offset)
    ensures r >= 0 ==> offset < r <= b.h.StructSize() + 3
    ensures r >= -19
    ensures Inner(b.Toks(), offset).Some? ==>
              Found(r, NextBegin(InnerOff(b.Toks(), offset), Inner(b.Toks(), offset).value))
  {
    hide Len, TagAt, NextBegin, Scan, Suffix;
    ghost var ts := b.Toks();
    if ts.Some? {
      StreamStart(b.Struct(), b.Strings());
    }
    if Inner(ts, offset).Some? && offset >= 0 {
      TagAtSuffix(b.Struct(), b.Strings(), ts.value, offset);
    }
    var next := 0;
    if offset >= 0 {
      next := CheckNodeOffset(b, offset);
      if next < 0 {
        return next;
      }
    }
    r := ScanToBegin(b, next);
  }

  method ScanToBegin(b: Blob, from: nat) returns (r: int)
    requires b.Readable() && from <= b.h.StructSize() + 3
    ensures r >= 0 ==> from <= r <= b.h.StructSize() + 3
    ensures r >= -19
    ensures var ts := b.Toks();
            ts.Some? && Suffix(ts.value, from).Some? && Suffix(ts.value, from).value != []
            ==> Found(r, NextBegin(from, Suffix(ts.value, from).value))
  {
    ghost var ts, s, st := b.Toks(), b.Struct(), b.Strings();
    ghost var ok := ts.Some? && Suffix(ts.value, from).Some? && Suffix(ts.value, from).value != [];
    ghost var w := if ok then Suffix(ts.value, from).value else [];
    ghost var x := NextBegin(from, w);
    hide Suffix, TagAt, NextBegin;
    var next: int := from;
    while true
      invariant from <= next <= b.h.StructSize() + 3
      invariant ok ==> w != [] && Suffix(ts.value, next) == Some(w) && NextBegin(next, w) == x
      decreases b.h.StructSize() + 3 - next
    {
      r := next;
      var tag;
      tag, next := NextTag(b, r);
      if ok {
        BeginStep(s, st, ts.value, r, w);
        w := w[1..];
      }
      if tag == FDT_BEGIN_NODE {
        return;
      } else if tag == FDT_END {
        r := if next >= 0 then ERR_NOTFOUND else next;
        return;
      }
    }
  }

  /** What the walk knows after `offset`. */
  ghost predicate Walked(b: Blob, offset: int, max: nat)
    requires b.Readable() && b.Tree().Some?
  {
    -1 <= offset && Inner(b.Toks(), offset).Some?
      && MaxPhandle(b.Tree().value) == Max(max, MaxT(Inner(b.Toks(), offset).value))
  }

  /** fdt_find_max_phandle(): the highest phandle of all nodes. */
  method FindMaxPhandle(b: Blob) returns (err: int, max: nat)
    requires b.Readable()
    ensures b.Tree().Some? ==> err == 0 && max == MaxPhandle(b.Tree().value)
  {
    hide BlobTree, Inner, InnerOff, NextBegin, MaxT, Max, Scan;
    max := 0;
    var offset := -1;
    if b.Tree().Some? {
      WalkStart(b);
    }
    while true
      invariant -1 <= offset <= b.h.StructSize() + 3
      invariant b.Tree().Some? ==> Walked(b, offset, max)
      decreases b.h.StructSize() + 3 - offset
    {
      ghost var was, high := offset, max;
      offset := NextNodeAny(b, offset);
      if b.Tree().Some? {
        WalkNext(b, was, high, offset);
      }
      if offset < 0 {
        if offset == ERR_NOTFOUND {
          return 0, max;
        }
        return offset, 0;
      }
      var value := GetPhandle(b, offset);
      if value > max {
        max := value;
      }
      MaxOf(high, value);
    }
  }

  lemma MaxOf(a: nat, b: nat)
    ensures Max(a, b) == if b > a then b else a
  {
  }

  lemma WalkStart(b: Blob)
    requires b.Readable() && b.Tree().Some?
    ensures Walked(b, -1, 0)
  {
    hide Flat, MaxPhandle, Scan, TreeOf;
    var t := b.Tree().value;
    TreeOfFlat(b.Toks().value, t);
    MaxFlat(t, [Fin]);
  }

  lemma WalkNext(b: Blob, offset: int, max: nat, r: int)
    requires b.Readable() && b.Tree().Some? && Walked(b, offset, max)
    requires Found(r, NextBegin(InnerOff(b.Toks(), offset), Inner(b.Toks(), offset).value))
    ensures r < 0 ==> r == ERR_NOTFOUND && max == MaxPhandle(b.Tree().value)
    ensures r >= 0 ==> b.IsNode(r) && Walked(b, r, Max(max, Phandle(b.Node(r).kids)))
  {
    hide MaxT, MaxPhandle, Phandle, PhandleT, NextBegin, Suffix, Scan, TreeOf, Len, At, Flat, TSize;
    var ts := b.Toks().value;
    var o, w := InnerOff(b.Toks(), offset), Inner(b.Toks(), offset).value;
    MaxNext(o, w);
    AfterStart(ts, offset);
    NextBeginSuffix(ts, o, w);
    var x := NextBegin(o, w);
    if x.Some? {
      NodeHere(b, x.value.0, x.value.1);
    }
  }

  lemma AfterStart(ts: seq<Tok>, offset: int)
    requires Inner(Some(ts), offset).Some?
    ensures Suffix(ts, InnerOff(Some(ts), offset)) == Inner(Some(ts), offset) && 0 <= InnerOff(Some(ts), offset)
  {
    assert Suffix(ts, 0) == Some(ts);
    hide Suffix, Len;
    if offset >= 0 {
      SuffixStep(ts, offset);
    }
  }

  lemma {:induction false} NextBeginSuffix(ts: seq<Tok>, off: int, w: seq<Tok>)
    requires Suffix(ts, off) == Some(w) && 0 <= off
    ensures var x := NextBegin(off, w);
            x.Some? ==> x.value.0 >= off && Suffix(ts, x.value.0) == Some(x.value.1)
                        && x.value.1 != [] && x.value.1[0].Begin?
    decreases |w|
  {
    hide Len, Suffix;
    if w != [] && !w[0].Begin? && !w[0].Fin? {
      SuffixStep(ts, off);
      NextBeginSuffix(ts, off + Len(w[0]), w[1..]);
    }
  }

  /** A node of the stream: its phandle, and where the walk goes on. */
  lemma NodeHere(b: Blob, off: int, w: seq<Tok>)
    requires b.Readable() && b.Tree().Some? && off >= 0 && Suffix(b.Toks().value, off) == Some(w) && w != []
             && w[0].Begin?
    ensures b.IsNode(off) && Inner(b.Toks(), off) == Some(w[1..]) && PhandleT(w[1..]) == Phandle(b.Node(off).kids)
  {
    hide Scan, TreeOf, CellOf, Len, TSize, PHANDLE, LINUX_PHANDLE;
    var ts, t := b.Toks().value, b.Tree().value;
    TreeOfFlat(ts, t);
    InTree(t, off);
    BeginIsNode(t, [Fin], off);
    var x := b.Node(off);
    hide At, Suffix;
    var post := InnerNode(b.Struct(), b.Strings(), t, off, x.name, x.kids, x.rest);
    var v := [End] + (Flat(x.rest) + post);
    FirstValFlat(x.kids, v, PHANDLE);
    FirstValFlat(x.kids, v, LINUX_PHANDLE);
  }

  lemma InTree(t: Tree, off: int)
    requires off >= 0 && Suffix(Flat(t) + [Fin], off).Some? && Suffix(Flat(t) + [Fin], off).value != []
    requires Suffix(Flat(t) + [Fin], off).value[0].Begin?
    ensures off < TSize(t)
  {
    hide Len, TSize;
    SizeFlat(t);
    SuffixBeyond(Flat(t), [Fin], off);
    assert [Fin][1..] == [];
  }
}

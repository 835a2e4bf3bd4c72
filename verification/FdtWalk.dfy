/** What the offset-and-depth walkers of libfdt find, over the token stream, and what
    that means in the tree. Every function is told the offset of what it reads. */
module FdtWalk {
  import opened Options
  import opened FdtTokens
  import opened FdtTree

  /** Outcome of a walk: a node, the end of the level it started on, or of the stream. */
  datatype Walk = ToNode(off: int, depth: int, at: seq<Tok>) | Closed(off: int, depth: int) | Ended

  /** The next node, counting depth as fdt_next_node() does. */
  function NextNodeT(off: int, w: seq<Tok>, d: int): Walk
    decreases |w|
  {
    if w == [] then Ended
    else
      match w[0]
      case Begin(_) => ToNode(off, d + 1, w)
      case End => if d - 1 < 0 then Closed(off + 4, d - 1) else NextNodeT(off + 4, w[1..], d - 1)
      case Fin => Ended
      case _ => NextNodeT(off + Len(w[0]), w[1..], d)
  }

  /** Offset behind the FDT_END_NODE that closes the level `d` levels up. */
  function CloseT(off: int, w: seq<Tok>, d: nat): Option<int>
    decreases |w|
  {
    if w == [] then None
    else
      match w[0]
      case Begin(_) => CloseT(off + Len(w[0]), w[1..], d + 1)
      case End => if d == 0 then Some(off + 4) else CloseT(off + 4, w[1..], d - 1)
      case Fin => None
      case _ => CloseT(off + Len(w[0]), w[1..], d)
  }

  /** fdt_nodename_eq_(): the name, or the name without its unit address. */
  predicate NameEq(node: seq<byte>, s: seq<byte>) {
    |node| >= |s| && node[..|s|] == s && (|node| == |s| || (64 !in s && node[|s|] == 64))
  }

  lemma NameEqSelf(n: seq<byte>)
    ensures NameEq(n, n)
  {
    assert n[..|n|] == n;
  }

  /** None matches every node. */
  predicate Matches(node: seq<byte>, pat: Option<seq<byte>>) {
    pat.None? || NameEq(node, pat.value)
  }

  /** The first node one level down that matches. */
  function FindSubT(off: int, w: seq<Tok>, d: nat, pat: Option<seq<byte>>): Option<int>
    decreases |w|
  {
    if w == [] then None
    else
      match w[0]
      case Begin(n) => if d == 0 && Matches(n, pat) then Some(off) else FindSubT(off + Len(w[0]), w[1..], d + 1, pat)
      case End => if d == 0 then None else FindSubT(off + 4, w[1..], d - 1, pat)
      case Fin => None
      case _ => FindSubT(off + Len(w[0]), w[1..], d, pat)
  }

  // ----- one fdt_next_node() against each walk -----

  lemma {:induction false} NextNodeSuffix(ts: seq<Tok>, off: int, w: seq<Tok>, d: int)
    requires Suffix(ts, off) == Some(w)
    ensures var x := NextNodeT(off, w, d);
            (x.Closed? ==> x.off >= off)
            && (x.ToNode? ==> x.off >= off && Suffix(ts, x.off) == Some(x.at) && x.at != [] && x.at[0].Begin?)
    decreases |w|
  {
    hide Len, Suffix;
    SmallTokens();
    if w != [] && !w[0].Begin? && !w[0].Fin? && !(w[0].End? && d <= 0) {
      SuffixStep(ts, off);
      NextNodeSuffix(ts, off + Len(w[0]), w[1..], if w[0].End? then d - 1 else d);
    }
  }

  lemma {:induction false} CloseNext(off: int, w: seq<Tok>, d: nat)
    ensures match NextNodeT(off, w, d)
            case ToNode(o, e, v) => v != [] && e >= 0 && CloseT(off, w, d) == CloseT(o + Len(v[0]), v[1..], e)
            case Closed(o, e) => e < 0 && CloseT(off, w, d) == Some(o)
            case Ended => CloseT(off, w, d) == None
    decreases |w|
  {
    hide Len;
    SmallTokens();
    if w != [] && !w[0].Begin? && !w[0].Fin? && !(w[0].End? && d == 0) {
      CloseNext(off + Len(w[0]), w[1..], if w[0].End? then d - 1 else d);
    }
  }

  lemma {:induction false} FindSubNext(off: int, w: seq<Tok>, d: nat, pat: Option<seq<byte>>)
    ensures match NextNodeT(off, w, d)
            case ToNode(o, e, v) =>
              v != [] && v[0].Begin? && 1 <= e <= d + 1
              && FindSubT(off, w, d, pat) == (if e == 1 && Matches(v[0].name, pat) then Some(o)
                                              else FindSubT(o + Len(v[0]), v[1..], e, pat))
            case Closed(_, e) => e < 0 && FindSubT(off, w, d, pat) == None
            case Ended => FindSubT(off, w, d, pat) == None
    decreases |w|
  {
    hide Len, Matches;
    SmallTokens();
    if w != [] && !w[0].Begin? && !w[0].Fin? && !(w[0].End? && d == 0) {
      FindSubNext(off + Len(w[0]), w[1..], if w[0].End? then d - 1 else d, pat);
    }
  }

  // ----- the walks in the tree -----

  /** Leaving a level costs its size, whatever is in it. */
  lemma {:induction false} CloseFlat(off: int, t: Tree, post: seq<Tok>, d: nat)
    ensures CloseT(off, Flat(t) + post, d) == CloseT(off + TSize(t), post, d)
    decreases t
  {
    SmallTokens();
    SizeStep(t);
    hide Len, TSize;
    var w := Flat(t) + post;
    match t
    case Leaf =>
      assert w == post;
    case NopT(r) =>
      assert w[1..] == Flat(r) + post;
      CloseFlat(off + 4, r, post, d);
    case PropT(n, v, r) =>
      assert w[1..] == Flat(r) + post;
      CloseFlat(off + Len(Prop(n, v)), r, post, d);
    case NodeT(n, k, r) =>
      FlatNode(n, k, r, post);
      var v := [End] + (Flat(r) + post);
      assert w[1..] == Flat(k) + v && v[1..] == Flat(r) + post;
      CloseFlat(off + HLen(n), k, v, d + 1);
      CloseFlat(off + HLen(n) + TSize(k) + 4, r, post, d);
  }

  /** Offset of the first child node that matches. */
  function FindKid(off: int, t: Tree, pat: Option<seq<byte>>): (r: Option<int>)
    ensures r.Some? ==> r.value >= off
    decreases t
  {
    match t
    case Leaf => None
    case NopT(r) => FindKid(off + 4, r, pat)
    case PropT(n, v, r) => FindKid(off + Len(Prop(n, v)), r, pat)
    case NodeT(n, k, r) => if Matches(n, pat) then Some(off) else FindKid(off + HLen(n) + TSize(k) + 4, r, pat)
  }

  lemma {:induction false} FindSubDeeper(off: int, t: Tree, post: seq<Tok>, d: nat, pat: Option<seq<byte>>)
    requires d > 0
    ensures FindSubT(off, Flat(t) + post, d, pat) == FindSubT(off + TSize(t), post, d, pat)
    decreases t
  {
    SmallTokens();
    SizeStep(t);
    hide Len, Matches, TSize;
    var w := Flat(t) + post;
    match t
    case Leaf =>
      assert w == post;
    case NopT(r) =>
      assert w[1..] == Flat(r) + post;
      FindSubDeeper(off + 4, r, post, d, pat);
    case PropT(n, v, r) =>
      assert w[1..] == Flat(r) + post;
      FindSubDeeper(off + Len(Prop(n, v)), r, post, d, pat);
    case NodeT(n, k, r) =>
      FlatNode(n, k, r, post);
      var v := [End] + (Flat(r) + post);
      assert w[1..] == Flat(k) + v && v[1..] == Flat(r) + post;
      FindSubDeeper(off + HLen(n), k, v, d + 1, pat);
      FindSubDeeper(off + HLen(n) + TSize(k) + 4, r, post, d, pat);
  }

  /** On its own level the walk finds exactly the first matching child. */
  lemma {:induction false} FindSubFlat(off: int, t: Tree, post: seq<Tok>, pat: Option<seq<byte>>)
    requires post != [] && (post[0].End? || post[0].Fin?)
    ensures FindSubT(off, Flat(t) + post, 0, pat) == FindKid(off, t, pat)
    decreases t
  {
    SmallTokens();
    hide Len, Matches, TSize;
    var w := Flat(t) + post;
    match t
    case Leaf =>
      assert w == post;
    case NopT(r) =>
      assert w[1..] == Flat(r) + post;
      FindSubFlat(off + 4, r, post, pat);
    case PropT(n, v, r) =>
      assert w[1..] == Flat(r) + post;
      FindSubFlat(off + Len(Prop(n, v)), r, post, pat);
    case NodeT(n, k, r) =>
      FlatNode(n, k, r, post);
      var v := [End] + (Flat(r) + post);
      assert w[1..] == Flat(k) + v && v[1..] == Flat(r) + post;
      FindSubDeeper(off + HLen(n), k, v, 1, pat);
      FindSubFlat(off + HLen(n) + TSize(k) + 4, r, post, pat);
  }

  /** Offset of the first property of that name; properties end at the first subnode. */
  function FindProp(off: int, t: Tree, name: seq<byte>): (r: Option<int>)
    ensures r.Some? ==> r.value >= off
    decreases t
  {
    match t
    case NopT(r) => FindProp(off + 4, r, name)
    case PropT(n, v, r) => if n == name then Some(off) else FindProp(off + Len(Prop(n, v)), r, name)
    case _ => None
  }
}

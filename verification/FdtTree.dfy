/** Device trees, their token form, and edits located by structure-block offset. */
module FdtTree {
  import opened Options
  import opened FdtTokens

  /** The content of a node (or of the whole blob) in first-child/next-sibling form:
      what is left of the level, in stream order, NOPs included. */
  datatype Tree =
    | Leaf
    | NopT(rest: Tree)
    | PropT(name: seq<byte>, val: seq<byte>, rest: Tree)
    | NodeT(name: seq<byte>, kids: Tree, rest: Tree)

  function Flat(t: Tree): seq<Tok> {
    match t
    case Leaf => []
    case NopT(r) => [Nop] + Flat(r)
    case PropT(n, v, r) => [Prop(n, v)] + Flat(r)
    case NodeT(n, k, r) => [Begin(n)] + Flat(k) + [End] + Flat(r)
  }

  /** Bytes before a node's content. */
  function HLen(name: seq<byte>): (n: nat)
    ensures n >= 4
  {
    Len(Begin(name))
  }

  function TSize(t: Tree): nat {
    match t
    case Leaf => 0
    case NopT(r) => 4 + TSize(r)
    case PropT(n, v, r) => Len(Prop(n, v)) + TSize(r)
    case NodeT(n, k, r) => HLen(n) + TSize(k) + 4 + TSize(r)
  }

  lemma SizeStep(t: Tree)
    ensures t.Leaf? ==> TSize(t) == 0
    ensures t.NopT? ==> TSize(t) == 4 + TSize(t.rest)
    ensures t.PropT? ==> TSize(t) == Len(Prop(t.name, t.val)) + TSize(t.rest)
    ensures t.NodeT? ==> TSize(t) == HLen(t.name) + TSize(t.kids) + 4 + TSize(t.rest)
  {
  }

  /** Reads one level of the stream, up to the FDT_END_NODE or FDT_END that closes it. */
  function Parse(ts: seq<Tok>): (r: Option<(Tree, seq<Tok>)>)
    ensures r.Some? ==> |r.value.1| <= |ts|
    decreases |ts|
  {
    if ts == [] then None
    else
      match ts[0]
      case End => Some((Leaf, ts))
      case Fin => Some((Leaf, ts))
      case Nop =>
        var r := Parse(ts[1..]);
        if r.None? then None else Some((NopT(r.value.0), r.value.1))
      case Prop(n, v) =>
        var r := Parse(ts[1..]);
        if r.None? then None else Some((PropT(n, v, r.value.0), r.value.1))
      case Begin(n) =>
        var k := Parse(ts[1..]);
        if k.None? || k.value.1 == [] || !k.value.1[0].End? then None
        else
          var r := Parse(k.value.1[1..]);
          if r.None? then None else Some((NodeT(n, k.value.0, r.value.0), r.value.1))
  }

  function TreeOf(ts: seq<Tok>): Option<Tree> {
    var r := Parse(ts);
    if r.Some? && r.value.1 == [Fin] then Some(r.value.0) else None
  }

  /** The tree a structure block and a string table stand for, if well formed. */
  function BlobTree(s: seq<byte>, st: Strs): Option<Tree> {
    var ts := Scan(s, st);
    if ts.None? then None else TreeOf(ts.value)
  }

  /** A node's tokens, read left to right. */
  lemma FlatNode(n: seq<byte>, k: Tree, r: Tree, w: seq<Tok>)
    ensures Flat(NodeT(n, k, r)) + w == [Begin(n)] + (Flat(k) + ([End] + (Flat(r) + w)))
  {
  }

  lemma {:induction false} ParseFlat(t: Tree, w: seq<Tok>)
    requires w != [] && (w[0].End? || w[0].Fin?)
    ensures Parse(Flat(t) + w) == Some((t, w))
  {
    var ts := Flat(t) + w;
    match t
    case Leaf =>
      assert ts == w;
    case NopT(r) =>
      assert ts[1..] == Flat(r) + w;
      ParseFlat(r, w);
    case PropT(_, _, r) =>
      assert ts[1..] == Flat(r) + w;
      ParseFlat(r, w);
    case NodeT(_, k, r) =>
      var v := [End] + (Flat(r) + w);
      assert ts[1..] == Flat(k) + v;
      ParseFlat(k, v);
      assert v[1..] == Flat(r) + w;
      ParseFlat(r, w);
  }

  lemma {:induction false} FlatParse(ts: seq<Tok>)
    requires Parse(ts).Some?
    ensures var (t, w) := Parse(ts).value; ts == Flat(t) + w && w != [] && (w[0].End? || w[0].Fin?)
    decreases |ts|
  {
    match ts[0]
    case End =>
    case Fin =>
    case Nop =>
      FlatParse(ts[1..]);
    case Prop(_, _) =>
      FlatParse(ts[1..]);
    case Begin(n) =>
      FlatParse(ts[1..]);
      var (k, v) := Parse(ts[1..]).value;
      FlatParse(v[1..]);
      var (r, w) := Parse(v[1..]).value;
      JoinNode(ts, n, k, v, r, w);
  }

  lemma JoinNode(ts: seq<Tok>, n: seq<byte>, k: Tree, v: seq<Tok>, r: Tree, w: seq<Tok>)
    requires ts != [] && ts[0] == Begin(n) && ts[1..] == Flat(k) + v && v != [] && v[0] == End && v[1..] == Flat(r) + w
    ensures ts == Flat(NodeT(n, k, r)) + w
  {
    FlatNode(n, k, r, w);
    hide Flat;
    assert v == [End] + v[1..];
    assert ts == [Begin(n)] + ts[1..];
  }

  /** Parsing is exactly the inverse of flattening. */
  lemma TreeOfFlat(ts: seq<Tok>, t: Tree)
    ensures TreeOf(ts) == Some(t) <==> ts == Flat(t) + [Fin]
  {
    if TreeOf(ts) == Some(t) {
      FlatParse(ts);
    }
    ParseFlat(t, [Fin]);
  }

  lemma {:induction false} SizeFlat(t: Tree)
    ensures Size(Flat(t)) == TSize(t) && Fin !in Flat(t)
  {
    hide Len;
    match t
    case Leaf =>
    case NopT(r) =>
      SizeFlat(r);
      SmallTokens();
    case PropT(_, _, r) =>
      SizeFlat(r);
    case NodeT(n, k, r) =>
      SizeFlat(k);
      SizeFlat(r);
      SizeAppend([Begin(n)] + Flat(k) + [End], Flat(r));
      SizeAppend([Begin(n)] + Flat(k), [End]);
      SizeAppend([Begin(n)], Flat(k));
      SizeOne(Begin(n));
      SizeOne(End);
      SmallTokens();
  }

  lemma SmallTokens()
    ensures Len(Nop) == 4 && Len(End) == 4 && Len(Fin) == 4
  {
  }

  lemma SizeOne(t: Tok)
    ensures Size([t]) == Len(t)
  {
    assert Size([t][1..]) == 0;
  }

  // ----- locating and replacing by offset -----

  /** What is left of the level at byte offset `off` of the block. */
  function At(t: Tree, off: int): Option<Tree> {
    if off == 0 then Some(t)
    else if off < 0 then None
    else
      match t
      case Leaf => None
      case NopT(r) => At(r, off - 4)
      case PropT(n, v, r) => At(r, off - Len(Prop(n, v)))
      case NodeT(n, k, r) =>
        if off <= HLen(n) + TSize(k) then At(k, off - HLen(n))
        else At(r, off - (HLen(n) + TSize(k) + 4))
  }

  /** The tree with what is left of the level at `off` replaced by `u`. */
  function Put(t: Tree, off: int, u: Tree): Tree {
    if off == 0 then u
    else if off < 0 then t
    else
      match t
      case Leaf => t
      case NopT(r) => NopT(Put(r, off - 4, u))
      case PropT(n, v, r) => PropT(n, v, Put(r, off - Len(Prop(n, v)), u))
      case NodeT(n, k, r) =>
        if off <= HLen(n) + TSize(k) then NodeT(n, Put(k, off - HLen(n), u), r)
        else NodeT(n, k, Put(r, off - (HLen(n) + TSize(k) + 4), u))
  }

  /** The tokens around a location do not depend on what is put there. */
  ghost predicate Around(ts: seq<Tok>, us: seq<Tok>, off: int, w: seq<Tok>, u: seq<Tok>, pre: seq<Tok>,
                         post: seq<Tok>) {
    Size(pre) == off && ts == pre + w + post && us == pre + u + post
  }

  lemma AroundWiden(ts: seq<Tok>, us: seq<Tok>, off: int, w: seq<Tok>, u: seq<Tok>,
                    pre: seq<Tok>, post: seq<Tok>, a: seq<Tok>, b: seq<Tok>)
    requires Around(ts, us, off, w, u, pre, post)
    ensures Around(a + ts + b, a + us + b, Size(a) + off, w, u, a + pre, post + b)
  {
    hide Size;
    SizeAppend(a, pre);
  }

  /** One step down towards `off`: into the item after the tokens `a`. */
  lemma Descend(t: Tree, off: int, u: Tree) returns (a: seq<Tok>, c: Tree, b: seq<Tok>)
    requires off != 0 && At(t, off).Some?
    ensures c < t && Flat(t) == a + Flat(c) + b && (b == [] || b[0].End?)
    ensures At(t, off) == At(c, off - Size(a))
    ensures Flat(Put(t, off, u)) == a + Flat(Put(c, off - Size(a), u)) + b
  {
    hide Len;
    SmallTokens();
    match t
    case NopT(r) =>
      a, c, b := [Nop], r, [];
      SizeOne(Nop);
    case PropT(n, v, r) =>
      a, c, b := [Prop(n, v)], r, [];
      SizeOne(Prop(n, v));
    case NodeT(n, k, r) =>
      a, c, b := DescendNode(n, k, r, off, u);
  }

  lemma DescendNode(n: seq<byte>, k: Tree, r: Tree, off: int, u: Tree) returns (a: seq<Tok>, c: Tree, b: seq<Tok>)
    requires off != 0 && At(NodeT(n, k, r), off).Some?
    ensures var t := NodeT(n, k, r);
            c < t && Flat(t) == a + Flat(c) + b && (b == [] || b[0].End?)
            && At(t, off) == At(c, off - Size(a)) && Flat(Put(t, off, u)) == a + Flat(Put(c, off - Size(a), u)) + b
  {
    hide Len, TSize, Size;
    if off <= HLen(n) + TSize(k) {
      a, c, b := [Begin(n)], k, [End] + Flat(r);
      SizeOne(Begin(n));
    } else {
      a, c, b := FlatFront(n, k), r, [];
      FrontSize(n, k);
    }
  }

  lemma {:induction false} Focus(t: Tree, off: int, u: Tree) returns (pre: seq<Tok>, post: seq<Tok>)
    requires At(t, off).Some?
    ensures Around(Flat(t), Flat(Put(t, off, u)), off, Flat(At(t, off).value), Flat(u), pre, post)
    ensures post == [] || post[0].End?
  {
    if off == 0 {
      pre, post := [], [];
    } else {
      var a, c, b := Descend(t, off, u);
      hide Flat, At, Put, Size;
      var x, y := Focus(c, off - Size(a), u);
      AroundWiden(Flat(c), Flat(Put(c, off - Size(a), u)), off - Size(a), Flat(At(t, off).value), Flat(u), x, y, a, b);
      pre, post := a + x, y + b;
    }
  }

  function FlatFront(n: seq<byte>, k: Tree): seq<Tok> {
    [Begin(n)] + Flat(k) + [End]
  }

  lemma FrontSize(n: seq<byte>, k: Tree)
    ensures Size(FlatFront(n, k)) == HLen(n) + TSize(k) + 4
  {
    SizeFlat(k);
    SizeAppend([Begin(n)] + Flat(k), [End]);
    SizeAppend([Begin(n)], Flat(k));
    SizeOne(Begin(n));
    SizeOne(End);
  }

  /** Locations compose: inside a level, offsets count on. */
  lemma {:induction false} AtWithin(t: Tree, off: int, w: Tree, o: int)
    requires At(t, off) == Some(w) && 0 <= o <= TSize(w)
    ensures At(t, off + o) == At(w, o)
    decreases t
  {
    hide Len, HLen, TSize;
    AtBound(t, off);
    if off != 0 {
      match t
      case NopT(s) => AtWithin(s, off - 4, w, o);
      case PropT(m, v, s) => AtWithin(s, off - Len(Prop(m, v)), w, o);
      case NodeT(m, c, s) =>
        if off <= HLen(m) + TSize(c) {
          AtBound(c, off - HLen(m));
          AtWithin(c, off - HLen(m), w, o);
        } else {
          AtWithin(s, off - (HLen(m) + TSize(c) + 4), w, o);
        }
    }
  }

  lemma AtCompose(t: Tree, off: int, w: Tree, o: int)
    requires At(t, off) == Some(w) && At(w, o).Some?
    ensures At(t, off + o) == At(w, o)
  {
    AtBound(w, o);
    AtWithin(t, off, w, o);
  }

  lemma {:induction false} PutCompose(t: Tree, off: int, w: Tree, o: int, u: Tree)
    requires At(t, off) == Some(w) && At(w, o).Some?
    ensures Put(t, off + o, u) == Put(t, off, Put(w, o, u))
    decreases t
  {
    hide Len, HLen, TSize;
    AtBound(w, o);
    AtBound(t, off);
    if off != 0 {
      match t
      case NopT(s) => PutCompose(s, off - 4, w, o, u);
      case PropT(m, v, s) => PutCompose(s, off - Len(Prop(m, v)), w, o, u);
      case NodeT(m, c, s) =>
        if off <= HLen(m) + TSize(c) {
          AtBound(c, off - HLen(m));
          PutCompose(c, off - HLen(m), w, o, u);
        } else {
          PutCompose(s, off - (HLen(m) + TSize(c) + 4), w, o, u);
        }
    }
  }

  lemma {:induction false} AtBound(t: Tree, off: int)
    requires At(t, off).Some?
    ensures 0 <= off && off + TSize(At(t, off).value) <= TSize(t)
  {
    hide Len;
    if off != 0 {
      match t
      case NopT(r) => AtBound(r, off - 4);
      case PropT(n, v, r) => AtBound(r, off - Len(Prop(n, v)));
      case NodeT(n, k, r) =>
        if off <= HLen(n) + TSize(k) {
          AtBound(k, off - HLen(n));
        } else {
          AtBound(r, off - (HLen(n) + TSize(k) + 4));
        }
    }
  }

  // ----- edits of the bytes are edits of the tree -----

  /** What follows a location in the token stream: the rest of its level, then the tag
      that closes the level. */
  lemma AtSuffix(t: Tree, off: int) returns (post: seq<Tok>)
    requires At(t, off).Some?
    ensures post != [] && (post[0].End? || (post == [Fin] && off + TSize(At(t, off).value) == TSize(t)))
    ensures Suffix(Flat(t) + [Fin], off) == Some(Flat(At(t, off).value) + post)
  {
    hide Suffix, Flat, At, Put, TSize, Size;
    var pre, p := Focus(t, off, Leaf);
    var w := Flat(At(t, off).value);
    assert Flat(t) + [Fin] == pre + (w + (p + [Fin]));
    SuffixAppend(pre, w + (p + [Fin]));
    post := p + [Fin];
    if p == [] {
      SizeFlat(t);
      SizeFlat(At(t, off).value);
      SizeAppend(pre, w);
      assert Flat(t) == pre + w;
    }
  }

  /** Replacing whole tokens `a` at a location by bytes `x` of tokens `b`, and possibly
      growing the string table, is the tree edit Put. */
  lemma SpliceTree(s: seq<byte>, st: Strs, st': Strs, t: Tree, off: nat, u: Tree,
                   a: seq<Tok>, b: seq<Tok>, c: seq<Tok>, x: seq<byte>)
    requires BlobTree(s, st) == Some(t) && Extends(st, st')
    requires At(t, off).Some? && Flat(At(t, off).value) == a + c && Flat(u) == b + c
    requires Dec(x, st', b)
    ensures off + Size(a) <= |s|
    ensures BlobTree(s[..off] + x + s[off + Size(a)..], st') == Some(Put(t, off, u))
  {
    hide Dec, Scan, Parse, Flat, At, Put, Size, TreeOf;
    var ts := Scan(s, st).value;
    TreeOfFlat(ts, t);
    var pre, post := Focus(t, off, u);
    var us := Flat(Put(t, off, u));
    assert ts == pre + (a + (c + post + [Fin]));
    assert us + [Fin] == pre + b + (c + post + [Fin]);
    SizeFlat(Put(t, off, u));
    SpliceStream(s, st, st', pre, a, b, c + post + [Fin], x, us);
    TreeOfFlat(us + [Fin], Put(t, off, u));
  }
}

/** Read-only access (fdt.c, fdt_ro.c, fdt_wip.c): each walker against the tree. */
module FdtRo {
  import opened Options
  import opened FdtTokens
  import opened FdtTree
  import opened FdtBlob
  import opened FdtWalk

  /** An offset the node-offset check refuses. */
  predicate Rejected(b: Blob, offset: int)
    requires b.StructFits()
  {
    offset < 0 || offset % 4 != 0 || TagAt(b.Struct(), offset).0 != FDT_BEGIN_NODE
  }

  /** fdt_check_node_offset_() */
  method CheckNodeOffset(b: Blob, offset: int) returns (next: int)
    requires b.StructFits() && IsInt(offset)
    ensures next == if Rejected(b, offset) then ERR_BADOFFSET else TagAt(b.Struct(), offset).1
    ensures next < 0 <==> Rejected(b, offset)
    ensures next >= 0 ==> offset < next <= b.h.StructSize() + 3
  {
    if offset < 0 || offset % 4 != 0 {
      return ERR_BADOFFSET;
    }
    var tag;
    tag, next := NextTag(b, offset);
    if tag != FDT_BEGIN_NODE {
      next := ERR_BADOFFSET;
    }
  }

  /** The tokens a walk from `offset` reads: those behind the node's FDT_BEGIN_NODE, or all
      of them for a negative offset. */
  ghost function Inner(ts: Option<seq<Tok>>, offset: int): Option<seq<Tok>> {
    if ts.None? || offset < 0 then ts
    else
      var v := Suffix(ts.value, offset);
      if v.Some? && v.value != [] && v.value[0].Begin? then Some(v.value[1..]) else None
  }

  ghost function InnerOff(ts: Option<seq<Tok>>, offset: int): int
    requires Inner(ts, offset).Some?
  {
    if offset < 0 then 0 else offset + Len(Suffix(ts.value, offset).value[0])
  }

  /** What fdt_next_node() returns for a walk. */
  ghost predicate Returns(x: Walk, r: int, d: int) {
    match x
    case ToNode(o, e, _) => r == o && d == e
    case Closed(o, e) => r == o && d == e
    case Ended => r == ERR_NOTFOUND
  }

  /** One tag of the walk. */
  lemma NextNodeStep(s: seq<byte>, st: Strs, ts: seq<Tok>, off: int, w: seq<Tok>, d: int)
    requires Scan(s, st) == Some(ts) && Suffix(ts, off) == Some(w) && w != []
    ensures var (tag, next) := TagAt(s, off);
            next > off
            && NextNodeT(off, w, d) == (if tag == FDT_BEGIN_NODE then ToNode(off, d + 1, w)
                                        else if tag == FDT_END then Ended
                                        else if tag == FDT_END_NODE && d - 1 < 0 then Closed(next, d - 1)
                                        else NextNodeT(next, w[1..], if tag == FDT_END_NODE then d - 1 else d))
            && (tag != FDT_END ==> Suffix(ts, next) == Some(w[1..]) && w[1..] != [])
  {
    hide Len, Suffix, TagAt;
    SmallTokens();
    TagAtSuffix(s, st, ts, off);
  }

  /** Where a tag leaves the loop, and what it leaves for the next turn. */
  lemma NextNodeTurn(s: seq<byte>, st: Strs, ts: seq<Tok>, off: int, w: seq<Tok>, d: int)
    requires Scan(s, st) == Some(ts) && Suffix(ts, off) == Some(w) && w != []
    ensures var ((tag, next), x) := (TagAt(s, off), NextNodeT(off, w, d));
            next > off
            && (tag == FDT_BEGIN_NODE ==> Returns(x, off, d + 1))
            && (tag == FDT_END ==> Returns(x, ERR_NOTFOUND, d))
            && (tag == FDT_END_NODE && d - 1 < 0 ==> Returns(x, next, d - 1))
            && (tag == FDT_END_NODE && d - 1 >= 0 ==> x == NextNodeT(next, w[1..], d - 1))
            && (tag != FDT_BEGIN_NODE && tag != FDT_END && tag != FDT_END_NODE ==> x == NextNodeT(next, w[1..], d))
            && (tag != FDT_END ==> Suffix(ts, next) == Some(w[1..]) && w[1..] != [])
  {
    hide Suffix, TagAt, NextNodeT, Scan;
    NextNodeStep(s, st, ts, off, w, d);
  }

  /** The loop of fdt_next_node(). */
  method ScanToNode(b: Blob, from: nat, depth: int) returns (r: int, d: int)
    requires b.Readable() && from <= b.h.StructSize() + 3
    ensures r >= 0 ==> from <= r <= b.h.StructSize() + 3
    ensures r >= -19
    ensures var ts := b.Toks();
            ts.Some? && Suffix(ts.value, from).Some? && Suffix(ts.value, from).value != []
            ==> Returns(NextNodeT(from, Suffix(ts.value, from).value, depth), r, d)
  {
    ghost var ts, s, st := b.Toks(), b.Struct(), b.Strings();
    ghost var ok := ts.Some? && Suffix(ts.value, from).Some? && Suffix(ts.value, from).value != [];
    ghost var w := if ok then Suffix(ts.value, from).value else [];
    ghost var x := NextNodeT(from, w, depth);
    hide Suffix, TagAt, NextNodeT, Scan, Returns;
    var next: int := from;
    d := depth;
    while true
      invariant from <= next <= b.h.StructSize() + 3
      invariant ok ==> w != [] && Suffix(ts.value, next) == Some(w) && NextNodeT(next, w, d) == x
      decreases b.h.StructSize() + 3 - next
    {
      r := next;
      var tag;
      tag, next := NextTag(b, r);
      if ok {
        NextNodeTurn(s, st, ts.value, r, w, d);
        w := w[1..];
      }
      if tag == FDT_BEGIN_NODE {
        d := d + 1;
        return;
      } else if tag == FDT_END_NODE {
        d := d - 1;
        if d < 0 {
          r := next;
          return;
        }
      } else if tag == FDT_END {
        r := if next >= 0 then ERR_NOTFOUND else next;
        return;
      }
    }
  }

  lemma StreamStart(s: seq<byte>, st: Strs)
    requires Scan(s, st).Some?
    ensures Scan(s, st).value != [] && Suffix(Scan(s, st).value, 0) == Scan(s, st)
  {
    ScanDec(s, st);
  }

  /** fdt_next_node() with a depth pointer. */
  method NextNode(b: Blob, offset: int, depth: int) returns (r: int, d: int)
    requires b.Readable() && IsInt(offset)
    ensures r >= 0 ==> offset < r <= b.h.StructSize() + 3
    ensures r >= -19
    ensures var x := Inner(b.Toks(), offset);
            x.Some? ==> Returns(NextNodeT(InnerOff(b.Toks(), offset), x.value, depth), r, d)
    ensures offset >= 0 && Rejected(b, offset) ==> r == ERR_BADOFFSET && d == depth
  {
    hide Len, TagAt, NextNodeT, Scan, Suffix;
    ghost var ts := b.Toks();
    if ts.Some? {
      StreamStart(b.Struct(), b.Strings());
    }
    if Inner(ts, offset).Some? && offset >= 0 {
      TagAtSuffix(b.Struct(), b.Strings(), ts.value, offset);
    }
    var next := 0;
    if offset >= 0 {
      next := CheckNodeOffset(b, offset);
      if next < 0 {
        return next, depth;
      }
    }
    r, d := ScanToNode(b, next, depth);
  }

  // ----- walks from a node of the tree -----

  /** The stream behind a node's FDT_BEGIN_NODE: its content, its end, what follows it. */
  lemma InnerNode(s: seq<byte>, st: Strs, t: Tree, off: int, n: seq<byte>, k: Tree, r: Tree) returns (post: seq<Tok>)
    requires BlobTree(s, st) == Some(t) && At(t, off) == Some(NodeT(n, k, r))
    ensures post != [] && (post[0].End? || post == [Fin])
    ensures var ts := Scan(s, st);
            Inner(ts, off) == Some(Flat(k) + ([End] + (Flat(r) + post))) && InnerOff(ts, off) == off + HLen(n)
  {
    hide Scan, Suffix, TreeOf, At, Len;
    TreeOfFlat(Scan(s, st).value, t);
    post := AtSuffix(t, off);
    AtBound(t, off);
    FlatNode(n, k, r, post);
    hide Flat;
    var w := Suffix(Scan(s, st).value, off).value;
    assert w[0] == Begin(n) && w[1..] == Flat(k) + ([End] + (Flat(r) + post));
  }

  lemma EndOfLevel(off: int, w: seq<Tok>, pat: Option<seq<byte>>)
    ensures CloseT(off, [End] + w, 0) == Some(off + 4)
    ensures FindSubT(off, [End] + w, 1, pat) == FindSubT(off + 4, w, 0, pat)
  {
    assert ([End] + w)[1..] == w;
  }

  /** What the walks from a node find. */
  lemma WalksOf(s: seq<byte>, st: Strs, t: Tree, off: int, n: seq<byte>, k: Tree, r: Tree, pat: Option<seq<byte>>)
    requires BlobTree(s, st) == Some(t) && At(t, off) == Some(NodeT(n, k, r))
    ensures var ts := Scan(s, st);
            Inner(ts, off).Some? && InnerOff(ts, off) == off + HLen(n)
            && CloseT(off + HLen(n), Inner(ts, off).value, 0) == Some(off + HLen(n) + TSize(k) + 4)
            && FindSubT(off + HLen(n), Inner(ts, off).value, 0, pat) == FindKid(off + HLen(n), k, pat)
            && FindSubT(off + HLen(n), Inner(ts, off).value, 1, pat) == FindKid(off + HLen(n) + TSize(k) + 4, r, pat)
  {
    hide Scan, Inner, InnerOff, BlobTree, At, Flat, TSize, HLen, FindKid, CloseT, FindSubT;
    var post := InnerNode(s, st, t, off, n, k, r);
    EndOfLevel(off + HLen(n) + TSize(k), Flat(r) + post, pat);
    var h, v := off + HLen(n), [End] + (Flat(r) + post);
    CloseFlat(h, k, v, 0);
    FindSubFlat(h, k, v, pat);
    FindSubDeeper(h, k, v, 1, pat);
    FindSubFlat(h + TSize(k) + 4, r, post, pat);
  }

  /** WalksOf for a node of a blob. */
  lemma WalksAt(b: Blob, off: int, pat: Option<seq<byte>>)
    requires b.Readable() && b.IsNode(off)
    ensures var (ts, x) := (b.Toks(), b.Node(off));
            var h := off + HLen(x.name);
            0 <= off && Inner(ts, off).Some? && InnerOff(ts, off) == h
            && CloseT(h, Inner(ts, off).value, 0) == Some(h + TSize(x.kids) + 4)
            && FindSubT(h, Inner(ts, off).value, 0, pat) == FindKid(h, x.kids, pat)
            && FindSubT(h, Inner(ts, off).value, 1, pat) == FindKid(h + TSize(x.kids) + 4, x.rest, pat)
  {
    hide Inner, InnerOff, CloseT, FindSubT, FindKid, TSize, HLen, Scan, At, TreeOf;
    var x := b.Node(off);
    AtBound(b.Tree().value, off);
    WalksOf(b.Struct(), b.Strings(), b.Tree().value, off, x.name, x.kids, x.rest, pat);
  }

  /** A node reached by fdt_next_node() is a place to walk on from. */
  lemma InnerNext(ts: seq<Tok>, off: int, d: int)
    requires Inner(Some(ts), off).Some?
    ensures var x := NextNodeT(InnerOff(Some(ts), off), Inner(Some(ts), off).value, d);
            x.ToNode? ==>
              x.at != [] && 0 <= x.off && Inner(Some(ts), x.off) == Some(x.at[1..])
              && InnerOff(Some(ts), x.off) == x.off + Len(x.at[0])
              && x.at[0].Begin? && NameAt(Some(ts), x.off) == x.at[0].name
    ensures var x := NextNodeT(InnerOff(Some(ts), off), Inner(Some(ts), off).value, d);
            x.Closed? ==> 0 <= x.off
  {
    assert Suffix(ts, 0) == Some(ts);
    hide Len, NextNodeT, Suffix;
    var o, w := InnerOff(Some(ts), off), Inner(Some(ts), off).value;
    if off >= 0 {
      SuffixStep(ts, off);
    }
    NextNodeSuffix(ts, o, w, d);
  }

  /** fdt_node_end_offset_(): the offset behind a node. */
  method NodeEndOffset(b: Blob, offset: int) returns (r: int)
    requires b.Readable() && IsInt(offset)
    ensures b.IsNode(offset) ==> r == offset + HLen(b.Node(offset).name) + TSize(b.Node(offset).kids) + 4
    ensures Rejected(b, offset) ==> r == if offset < 0 then offset else ERR_BADOFFSET
  {
    hide CloseT, NextNodeT, Inner, InnerOff, HLen, TSize, Len, Scan, TreeOf, TagAt;
    ghost var ok, ts := b.IsNode(offset), b.Toks();
    ghost var goal := 0;
    if ok {
      WalksAt(b, offset, None);
      goal := offset + HLen(b.Node(offset).name) + TSize(b.Node(offset).kids) + 4;
    }
    var depth := 0;
    r := offset;
    while r >= 0 && depth >= 0
      invariant r <= b.h.StructSize() + 3 || r == offset
      invariant Rejected(b, offset) ==> (r == offset && depth == 0) || (r == ERR_BADOFFSET && offset >= 0)
      invariant ok && depth < 0 ==> r == goal
      invariant ok && depth >= 0 ==> r >= 0 && Inner(ts, r).Some?
                                     && CloseT(InnerOff(ts, r), Inner(ts, r).value, depth) == Some(goal)
      decreases r >= 0, b.h.StructSize() + 3 - r
    {
      if ok {
        InnerNext(ts.value, r, depth);
        CloseNext(InnerOff(ts, r), Inner(ts, r).value, depth);
      }
      r, depth := NextNode(b, r, depth);
    }
  }

  // ----- names and subnodes -----

  ghost function NameAt(ts: Option<seq<Tok>>, off: int): seq<byte>
    requires off >= 0 && Inner(ts, off).Some?
  {
    Suffix(ts.value, off).value[0].name
  }

  lemma HeadName(s: seq<byte>, st: Strs, off: nat)
    requires off <= |s| && Head(s[off..], st).Some? && Head(s[off..], st).value.Begin?
    ensures off + 4 <= |s| && NulFrom(s, off + 4) < |s|
    ensures Head(s[off..], st).value.name == s[off + 4..NulFrom(s, off + 4)]
  {
    hide Name;
    var v := s[off..];
    var n := NulFrom(v, 4);
    assert s[off + n] == v[n];
    assert forall i :: off + 4 <= i < off + n ==> s[i] == v[i - off];
    assert NulFrom(s, off + 4) == off + n;
    assert v[4..n] == s[off + 4..off + n];
  }

  lemma NameBytes(s: seq<byte>, st: Strs, off: int)
    requires off >= 0 && Inner(Scan(s, st), off).Some?
    ensures off % 4 == 0 && off + 4 <= |s| && TagAt(s, off).0 == FDT_BEGIN_NODE && TagAt(s, off).1 >= 0
    ensures NulFrom(s, off + 4) < |s| && NameAt(Scan(s, st), off) == s[off + 4..NulFrom(s, off + 4)]
  {
    hide Head, Suffix, TagAt, Scan, NulFrom, Len;
    var ts := Scan(s, st).value;
    TagAtSuffix(s, st, ts, off);
    SuffixScan(s, st, ts, off);
    ScanStep(s[off..], st, Suffix(ts, off).value);
    HeadName(s, st, off);
  }

  lemma NodeName(b: Blob, off: int)
    requires b.Readable() && b.IsNode(off)
    ensures 0 <= off && Inner(b.Toks(), off).Some? && NameAt(b.Toks(), off) == b.Node(off).name
  {
    hide Scan, Suffix, TreeOf, At, Len;
    var t, x := b.Tree().value, b.Node(off);
    TreeOfFlat(Scan(b.Struct(), b.Strings()).value, t);
    var post := AtSuffix(t, off);
    AtBound(t, off);
    FlatNode(x.name, x.kids, x.rest, post);
  }

  /** fdt_get_name() */
  method GetName(b: Blob, offset: int) returns (err: int, name: seq<byte>)
    requires b.Readable() && IsInt(offset)
    ensures offset >= 0 && Inner(b.Toks(), offset).Some? ==> err == 0 && name == NameAt(b.Toks(), offset)
    ensures b.IsNode(offset) ==> err == 0 && name == b.Node(offset).name
    ensures !Rejected(b, offset) ==>
              offset + 4 <= b.h.StructSize() && NulFrom(b.Struct(), offset + 4) < b.h.StructSize()
              && err == 0 && name == b.Struct()[offset + 4..NulFrom(b.Struct(), offset + 4)]
    ensures err == 0 ==> 0 !in name && |name| <= b.h.StructSize()
    ensures err <= 0 && (Rejected(b, offset) ==> err < 0)
  {
    hide Inner, NameAt, TagAt, Scan, NulFrom, TreeOf, At;
    if b.IsNode(offset) {
      NodeName(b, offset);
    }
    if offset >= 0 && Inner(b.Toks(), offset).Some? {
      NameBytes(b.Struct(), b.Strings(), offset);
    }
    err := CheckNodeOffset(b, offset);
    if err < 0 {
      return err, [];
    }
    BeginName(b.Struct(), offset);
    var end, found := SkipName(b, offset + 4);
    err, name := 0, b.mem[b.h.offStruct + offset + 4..b.h.offStruct + end - 1];
    SubSlice(b.mem, b.h.offStruct, b.h.offStruct + b.h.StructSize(), offset + 4, end - 1);
  }

  lemma BeginName(s: seq<byte>, off: int)
    requires TagAt(s, off).0 == FDT_BEGIN_NODE
    ensures 0 <= off && off + 4 <= |s| && NulFrom(s, off + 4) < |s|
  {
  }

  /** fdt_nodename_eq_() */
  method NodenameEq(b: Blob, offset: int, s: seq<byte>) returns (eq: bool)
    requires b.Readable() && IsInt(offset)
    ensures offset >= 0 && Inner(b.Toks(), offset).Some? ==> eq == NameEq(NameAt(b.Toks(), offset), s)
    ensures b.IsNode(offset) ==> eq == NameEq(b.Node(offset).name, s)
    ensures b.IsNode(offset) ==>
              var n := b.Node(offset).name; eq <==> n == s || (64 !in s && |n| > |s| && n[..|s|] == s && n[|s|] == 64)
    ensures Rejected(b, offset) ==> !eq
  {
    hide Inner, NameAt, Scan, TagAt;
    var err, p := GetName(b, offset);
    if err < 0 || |p| < |s| || p[..|s|] != s {
      return false;
    }
    eq := |p| == |s| || (64 !in s && p[|s|] == 64);
  }

  ghost predicate IsAnswer(r: int, x: Option<int>) {
    r == if x.Some? then x.value else ERR_NOTFOUND
  }

  /** fdt_subnode_offset_namelen(): the first child whose name matches. */
  method SubnodeOffset(b: Blob, parent: int, name: seq<byte>) returns (r: int)
    requires b.Readable() && IsInt(parent)
    ensures b.IsNode(parent) ==>
              IsAnswer(r, FindKid(parent + HLen(b.Node(parent).name), b.Node(parent).kids, Some(name)))
    ensures Rejected(b, parent) ==> r == if parent < 0 then parent else ERR_BADOFFSET
    ensures IsInt(r)
  {
    hide FindSubT, FindKid, NextNodeT, Inner, InnerOff, NameAt, HLen, TSize, Len, Scan, TreeOf, NameEq, TagAt;
    ghost var ok, ts, goal := b.IsNode(parent), b.Toks(), None;
    if ok {
      WalksAt(b, parent, Some(name));
      goal := FindKid(parent + HLen(b.Node(parent).name), b.Node(parent).kids, Some(name));
    }
    var depth := 0;
    r := parent;
    while r >= 0 && depth >= 0
      invariant -19 <= r <= b.h.StructSize() + 3 || r == parent
      invariant Rejected(b, parent) ==> (r == parent && depth == 0) || (r == ERR_BADOFFSET && depth == 0 && parent >= 0)
      invariant ok && r < 0 ==> r == ERR_NOTFOUND && goal.None?
      invariant ok && r >= 0 && depth < 0 ==> goal.None?
      invariant ok && r >= 0 && depth >= 0 ==>
                  Inner(ts, r).Some?
                  && goal == (if depth == 1 && NameEq(NameAt(ts, r), name) then Some(r)
                              else FindSubT(InnerOff(ts, r), Inner(ts, r).value, depth, Some(name)))
      decreases r >= 0, b.h.StructSize() + 3 - r
    {
      if depth == 1 {
        var eq := NodenameEq(b, r, name);
        if eq {
          return r;
        }
      }
      if ok {
        InnerNext(ts.value, r, depth);
        FindSubNext(InnerOff(ts, r), Inner(ts, r).value, depth, Some(name));
      }
      r, depth := NextNode(b, r, depth);
    }
    if depth < 0 {
      r := ERR_NOTFOUND;
    }
  }

  /** fdt_first_subnode() */
  method FirstSubnode(b: Blob, offset: int) returns (r: int)
    requires b.Readable() && IsInt(offset)
    ensures b.IsNode(offset) ==>
              IsAnswer(r, FindKid(offset + HLen(b.Node(offset).name), b.Node(offset).kids, None))
    ensures IsInt(r) && (r >= 0 ==> offset < r <= b.h.StructSize() + 3)
  {
    hide FindSubT, FindKid, NextNodeT, Inner, InnerOff, HLen, TSize, Len, Scan, TreeOf;
    ghost var ts := b.Toks();
    if b.IsNode(offset) {
      WalksAt(b, offset, None);
      FindSubNext(InnerOff(ts, offset), Inner(ts, offset).value, 0, None);
      InnerNext(ts.value, offset, 0);
    }
    var depth;
    r, depth := NextNode(b, offset, 0);
    if r < 0 || depth != 1 {
      r := ERR_NOTFOUND;
    }
  }

  /** fdt_next_subnode(): the next node on the same level. */
  method NextSubnode(b: Blob, offset: int) returns (r: int)
    requires b.Readable() && IsInt(offset)
    ensures b.IsNode(offset) ==>
              var x := b.Node(offset);
              IsAnswer(r, FindKid(offset + HLen(x.name) + TSize(x.kids) + 4, x.rest, None))
    ensures IsInt(r) && (r >= 0 ==> offset < r <= b.h.StructSize() + 3)
  {
    hide FindSubT, FindKid, NextNodeT, Inner, InnerOff, HLen, TSize, Len, Scan, TreeOf;
    ghost var ok, ts, goal := b.IsNode(offset), b.Toks(), None;
    if ok {
      WalksAt(b, offset, None);
      goal := FindKid(offset + HLen(b.Node(offset).name) + TSize(b.Node(offset).kids) + 4, b.Node(offset).rest, None);
    }
    var depth := 1;
    r := offset;
    while true
      invariant r <= b.h.StructSize() + 3 || r == offset
      invariant IsInt(r)
      invariant depth >= 1
      invariant ok ==>
                  r >= 0 && Inner(ts, r).Some? && goal == FindSubT(InnerOff(ts, r), Inner(ts, r).value, depth, None)
      decreases b.h.StructSize() + 3 - r
    {
      if ok {
        InnerNext(ts.value, r, depth);
        FindSubNext(InnerOff(ts, r), Inner(ts, r).value, depth, None);
      }
      r, depth := NextNode(b, r, depth);
      if r < 0 || depth < 1 {
        return ERR_NOTFOUND;
      }
      if depth <= 1 {
        return;
      }
    }
  }
}

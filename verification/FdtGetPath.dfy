/** Path strings (fdt_ro.c): fdt_get_path(), fdt_path_offset() and their round trip. */
module FdtGetPath {
  import opened Options
  import opened FdtTokens
  import opened FdtTree
  import opened FdtBlob
  import opened FdtWalk
  import opened FdtRo
  import opened FdtEdit
  import opened FdtGetprop
  import opened FdtPath
  import opened FdtPen

  // ----- writing a path -----

  /** A text without its last slash, except for the root's. */
  function Trimmed(p: seq<byte>): seq<byte> {
    if |p| > 1 then p[..|p| - 1] else p
  }

  /** The path of a node. */
  function PathStr(c: seq<Step>): seq<byte> {
    Trimmed(PathBytes(c))
  }

  lemma {:induction false} PathTake(c: seq<Step>, i: nat)
    requires i < |c|
    ensures PathBytes(c[..i + 1]) == PathBytes(c[..i]) + c[i].name + [SLASH]
  {
    hide PathBytes;
    var d := c[..i + 1];
    assert d[..|d| - 1] == c[..i] && d[|d| - 1] == c[i];
    PathLast(d);
  }

  lemma {:induction false} PathShorter(c: seq<Step>, i: nat)
    requires i <= |c|
    ensures |PathBytes(c[..i])| <= |PathBytes(c)|
    decreases |c| - i
  {
    hide PathBytes;
    if i < |c| {
      PathTake(c, i);
      PathShorter(c, i + 1);
    } else {
      assert c[..i] == c;
    }
  }

  /** Back to behind the slash before the last one; `under` when there is none in the buffer. */
  method DropName(buf: array<byte>, p: int) returns (q: int, under: bool)
    requires 0 < p <= buf.Length && Ends(buf[..p])
    ensures under <==> Slashes(buf[..p]) < 2
    ensures !under ==> 0 < q < p && buf[..q] == Drop(buf[..p])
  {
    hide Slashes;
    q := p - 1;
    ghost var s := buf[..p];
    TwoSlashes(s);
    assert s[..|s| - 1] == buf[..q];
    while q > 0 && buf[q - 1] != SLASH
      invariant 0 <= q < p && Slashes(buf[..q]) == Slashes(s) - 1
      invariant Drop(s) == if q == 0 || buf[q - 1] == SLASH then buf[..q] else Drop(buf[..q])
      decreases q
    {
      LastByte(buf[..q]);
      assert buf[..q][..q - 1] == buf[..q - 1];
      q := q - 1;
    }
    under := q == 0;
    if q == 0 {
      NoSlashes(buf[..q]);
    } else {
      LastByte(buf[..q]);
    }
  }

  lemma TwoSlashes(s: seq<byte>)
    requires Ends(s)
    ensures Slashes(s) == Slashes(s[..|s| - 1]) + 1
  {
  }

  lemma LastByte(s: seq<byte>)
    requires s != []
    ensures Slashes(s) == Slashes(s[..|s| - 1]) + if s[|s| - 1] == SLASH then 1 else 0
  {
  }

  lemma NoSlashes(s: seq<byte>)
    requires s == []
    ensures Slashes(s) == 0
  {
  }

  /** The inner loop of fdt_get_path(): names below `depth` are taken off. */
  method Unwind(buf: array<byte>, p0: int, pdepth0: int, depth: int) returns (p: int, pdepth: int)
    requires depth >= 1 && 0 <= p0 <= buf.Length && Inked(Pen(buf[..p0], pdepth0))
    ensures 0 <= p <= buf.Length && Pen(buf[..p], pdepth) == Unwound(Pen(buf[..p0], pdepth0), depth)
  {
    hide Slashes, Drop;
    p, pdepth := p0, pdepth0;
    ghost var goal := Unwound(Pen(buf[..p0], pdepth0), depth);
    while pdepth > depth
      invariant 0 <= p <= buf.Length && Inked(Pen(buf[..p], pdepth)) && Unwound(Pen(buf[..p], pdepth), depth) == goal
    {
      DropSlashes(buf[..p]);
      var under;
      p, under := DropName(buf, p);
      pdepth := pdepth - 1;
    }
  }

  /** The inner loop at depth -1, behind the root: it ends there only if there are slashes to spare. */
  method BackUp(buf: array<byte>, p0: int, pdepth0: int) returns (under: bool)
    requires 0 <= p0 <= buf.Length && Inked(Pen(buf[..p0], pdepth0))
    ensures under <==> Spare(Pen(buf[..p0], pdepth0)) <= 1
  {
    hide Slashes, Drop;
    var p, pdepth := p0, pdepth0;
    ghost var spare := Spare(Pen(buf[..p0], pdepth0));
    while pdepth > -1
      invariant 0 <= p <= buf.Length && Ends(buf[..p]) && -1 <= pdepth && Slashes(buf[..p]) == pdepth + spare
      invariant pdepth == -1 ==> spare >= 2
    {
      if Slashes(buf[..p]) >= 2 {
        DropSlashes(buf[..p]);
      }
      p, under := DropName(buf, p);
      if under {
        return;
      }
      pdepth := pdepth - 1;
    }
    under := false;
  }

  /** The name of the node just reached goes behind its ancestors', if they are all there and it fits. */
  method AddName(buf: array<byte>, p0: int, pdepth0: int, depth: int, name: seq<byte>) returns (p: int, pdepth: int)
    requires 0 <= p0 <= buf.Length
    modifies buf
    ensures 0 <= p <= buf.Length
            && Pen(buf[..p], pdepth) == Added(Pen(old(buf[..p0]), pdepth0), depth, name, buf.Length)
  {
    p, pdepth := p0, pdepth0;
    if pdepth >= depth && p + |name| + 1 <= buf.Length {
      CopyName(buf, p, name);
      p := p + |name| + 1;
      pdepth := pdepth + 1;
    }
  }

  method CopyName(buf: array<byte>, p: nat, name: seq<byte>)
    requires p + |name| + 1 <= buf.Length
    modifies buf
    ensures buf[..p + |name| + 1] == old(buf[..p]) + name + [SLASH]
  {
    var i := 0;
    while i < |name|
      invariant 0 <= i <= |name| && buf[..p] == old(buf[..p])
      invariant forall j :: 0 <= j < i ==> buf[p + j] == name[j]
    {
      buf[p + i] := name[i];
      i := i + 1;
    }
    buf[p + |name|] := SLASH;
  }

  // ----- where the pen is -----

  /** The pen with the root's slash. */
  function RootPen(): Pen {
    Pen([SLASH], 1)
  }

  lemma RootInked()
    ensures Inked(RootPen()) && Slashes([SLASH]) == 1
  {
    assert [SLASH][..0] == [];
  }

  /** What fdt_get_path() has written when it comes to `x`, or has left the root without finding it. */
  ghost function PenAt(b: Blob, x: int, len: nat): Pen
    requires b.Readable() && Rooted(b)
  {
    if x == 0 then RootPen() else PenTo(HLen([]), b.Tree().value.kids, 1, RootPen(), len, x)
  }

  /** Some node that is closed in front of `x` holds a slash in its name and has a path that fits. */
  ghost predicate Stained(b: Blob, x: int, len: nat)
    requires b.Readable() && Rooted(b)
  {
    x != 0 && StainTo(HLen([]), b.Tree().value.kids, 1, len, x)
  }

  /** What is left to walk from a node, with its own name written. */
  ghost function After(b: Blob, offset: int, depth: int, pen: Pen, len: nat, x: int): Track
    requires b.Readable() && Inner(b.Toks(), offset).Some?
  {
    if offset == x then Found(pen)
    else PenT(InnerOff(b.Toks(), offset), Inner(b.Toks(), offset).value, depth + 1, pen, len, x)
  }

  lemma TrackIs(b: Blob, x: int, len: nat)
    requires b.Readable() && Rooted(b)
    ensures Inner(b.Toks(), 0).Some?
    ensures var p := PenAt(b, x, len);
            After(b, 0, 0, RootPen(), len, x) == if Chain(0, b.Tree().value, x).Some? then Found(p) else Out(p)
  {
    hide Scan, TreeOf, PenT, PenTo, TSize, HLen, Inner, InnerOff;
    var t := b.Tree().value;
    assert b.Node(0) == t;
    WalkStart(b, x);
    WalksRoot(b, t);
    var post := InnerNode(b.Struct(), b.Strings(), t, 0, [], t.kids, Leaf);
    var w := [End] + (Flat(Leaf) + post);
    PenFlat(HLen([]), t.kids, w, 1, RootPen(), len, x);
    PenEnd(HLen([]) + TSize(t.kids), w, PenTo(HLen([]), t.kids, 1, RootPen(), len, x), len, x);
  }

  lemma WalksRoot(b: Blob, t: Tree)
    requires b.Readable() && Rooted(b) && b.Tree() == Some(t)
    ensures b.IsNode(0) && b.Node(0) == t
  {
  }

  lemma PenEnd(off: int, w: seq<Tok>, pen: Pen, len: nat, x: int)
    requires w != [] && w[0].End?
    ensures PenT(off, w, 1, pen, len, x) == Out(pen)
  {
  }

  /** One fdt_next_node() of the walk. */
  lemma TrackOn(b: Blob, x: int, offset: int, depth: int, pen: Pen, len: nat, r: int, d: int)
    requires b.Readable() && 0 <= offset != x && depth >= 0 && Inner(b.Toks(), offset).Some?
    requires Returns(NextNodeT(InnerOff(b.Toks(), offset), Inner(b.Toks(), offset).value, depth), r, d)
    requires r >= 0 && d >= 0 ==> Inner(b.Toks(), r).Some?
    ensures r >= 0 && d >= 0 ==>
              After(b, offset, depth, pen, len, x) == After(b, r, d, Visit(pen, d, NameAt(b.Toks(), r), len), len, x)
    ensures r >= 0 && d < 0 ==> After(b, offset, depth, pen, len, x) == Out(pen)
  {
    hide Scan, PenT, Visit, NextNodeT, Suffix, Len;
    var ts := b.Toks();
    var o, w := InnerOff(ts, offset), Inner(ts, offset).value;
    InnerNext(ts.value, offset, depth);
    PenNext(o, w, depth + 1, pen, len, x);
    assert depth + 1 - 1 == depth;
    match NextNodeT(o, w, depth)
    case ToNode(_, _, _) =>
    case Closed(_, _) =>
    case Ended =>
  }

  lemma AfterHere(b: Blob, x: int, depth: int, pen: Pen, len: nat)
    requires b.Readable() && Inner(b.Toks(), x).Some?
    ensures After(b, x, depth, pen, len, x) == Found(pen)
  {
  }

  // ----- what has been written -----

  /** At the node the text is its path exactly when the path fits and no node closed before has left a part of
      its name behind. */
  lemma PathWritten(b: Blob, x: int, len: nat)
    requires b.Readable() && Rooted(b) && Chain(0, b.Tree().value, x).Some? && len >= 2
    ensures var (c, pen) := (Chain(0, b.Tree().value, x).value, PenAt(b, x, len));
            Inked(pen) && |pen.text| <= len && pen.pdepth <= |c|
            && (pen.pdepth == |c| && Trimmed(pen.text) == PathStr(c)
                <==> |PathBytes(c)| <= len && !Stained(b, x, len))
            && (|PathBytes(c)| > len ==> pen.pdepth < |c|)
  {
    hide Scan, TreeOf, PenTo, PathBytes, Slashes, StainTo, Arrived, SlashSum;
    var t := b.Tree().value;
    var c, s := Chain(0, t, x).value, Step(0, []);
    RootInked();
    ChainRoot(t, x);
    if x == 0 {
      PathFirst(s, []);
      PathNone();
      assert c == [s] + [] && [] + [SLASH] + [] == [SLASH];
    } else {
      var d := Chain(HLen([]), t.kids, x).value;
      assert c == [s] + d;
      var pen := PenAt(b, x, len);
      UnwoundStays(RootPen(), 1);
      Arrives(HLen([]), t.kids, 1, RootPen(), len, x);
      PenFits(HLen([]), t.kids, 1, RootPen(), len, x);
      PathFirst(s, d);
      assert s.name + [SLASH] + PathBytes(d) == [SLASH] + PathBytes(d);
      TextIs(pen, d, len, Stained(b, x, len));
    }
  }

  lemma TextIs(pen: Pen, d: seq<Step>, len: nat, stain: bool)
    requires d != [] && Arrived(RootPen(), pen, 1, d, len, stain) && |pen.text| <= len
    ensures Inked(pen) && pen.pdepth <= |d| + 1
    ensures pen.pdepth == |d| + 1 && Trimmed(pen.text) == Trimmed([SLASH] + PathBytes(d))
            <==> 1 + |PathBytes(d)| <= len && !stain
    ensures 1 + |PathBytes(d)| > len ==> pen.pdepth < |d| + 1
  {
    hide PathBytes, Slashes, SlashSum;
    RootInked();
    var j, path := pen.pdepth - 1, [SLASH] + PathBytes(d);
    SlashesAppend([SLASH], PathBytes(d));
    SlashesPath(d);
    if j == |d| {
      assert d[..j] == d;
      SlashesShort(pen.text);
      if Trimmed(pen.text) == Trimmed(path) {
        TrimmedSame(pen.text, path);
      }
    } else if 1 + |PathBytes(d)| <= len {
      PathShorter(d, j + 1);
    }
  }

  lemma SlashesShort(s: seq<byte>)
    ensures Slashes(s) <= |s|
  {
  }

  lemma TrimmedSame(p: seq<byte>, q: seq<byte>)
    requires Ends(p) && Ends(q) && |p| > 1 && |q| > 1 && Trimmed(p) == Trimmed(q)
    ensures p == q
  {
    assert p == p[..|p| - 1] + [SLASH] && q == q[..|q| - 1] + [SLASH];
  }

  /** Without a node that leaves a part of its name behind there are no slashes to spare. */
  lemma NoneToSpare(b: Blob, x: int, len: nat)
    requires b.Readable() && Rooted(b) && x >= RootEnd(b) && !Stain(b.Tree().value.kids, 1, len)
    ensures Spare(PenAt(b, x, len)) == 0
  {
    hide Scan, TreeOf, PenTo, Slashes, TSize;
    var t := b.Tree().value;
    RootInked();
    ChainInside(HLen([]), t.kids, x);
    UnwoundStays(RootPen(), 1);
    LevelLeft(HLen([]), t.kids, 1, RootPen(), len, x);
    UnwoundKeeps(PenAt(b, x, len), 1);
  }

  /** Where the path is wrong: of a node `a/q` the part `a/` stays, and goes in front of the name of the next
      node. */
  lemma SlashLeft(b: Blob, a: seq<byte>, q: seq<byte>, c: seq<byte>, len: nat)
    requires b.Readable() && SLASH !in q && |a| + |q| + 3 <= len && |a| + |c| + 3 <= len
    requires b.Tree() == Some(NodeT([], NodeT(a + [SLASH] + q, Leaf, NodeT(c, Leaf, Leaf)), Leaf))
    ensures var (x, t) := (HLen([]) + HLen(a + [SLASH] + q) + 4, b.Tree().value);
            Chain(0, t, x) == Some([Step(0, []), Step(x, c)]) && PathStr([Step(0, []), Step(x, c)]) == [SLASH] + c
            && PenAt(b, x, len) == Pen([SLASH] + a + [SLASH] + c + [SLASH], 2)
  {
    hide Scan, TreeOf, PathBytes, PenTo, Visit, HLen;
    var n := a + [SLASH] + q;
    var x := HLen([]) + HLen(n) + 4;
    var s, d := Step(0, []), Step(x, c);
    SecondNode(HLen([]), n, c, RootPen(), len);
    assert [s] + [d] == [s, d] && [d] + [] == [d];
    PathFirst(s, [d]);
    PathFirst(d, []);
    PathNone();
    assert PathBytes([s, d]) == [SLASH] + c + [SLASH];
    assert ([SLASH] + c + [SLASH])[..|c| + 1] == [SLASH] + c;
    SlashWalk(a, q, c, len);
  }

  lemma SecondNode(off: int, n: seq<byte>, c: seq<byte>, pen: Pen, len: nat)
    ensures var (t, x) := (NodeT(n, Leaf, NodeT(c, Leaf, Leaf)), off + HLen(n) + 4);
            Chain(off, t, x) == Some([Step(x, c)])
              && PenTo(off, t, 1, pen, len, x) == Visit(Visit(pen, 1, n, len), 1, c, len)
  {
    hide Visit, HLen;
    var x, z := off + HLen(n) + 4, NodeT(c, Leaf, Leaf);
    assert Chain(off + HLen(n), Leaf, x) == None && Chain(x, z, x) == Some([Step(x, c)]);
    var p := Visit(pen, 1, n, len);
    assert PenTo(off + HLen(n), Leaf, 2, p, len, x) == p;
    assert PenTo(x, z, 1, p, len, x) == Visit(p, 1, c, len);
  }

  lemma SlashWalk(a: seq<byte>, q: seq<byte>, c: seq<byte>, len: nat)
    requires SLASH !in q && |a| + |q| + 3 <= len && |a| + |c| + 3 <= len
    ensures Visit(Visit(RootPen(), 1, a + [SLASH] + q, len), 1, c, len) == Pen([SLASH] + a + [SLASH] + c + [SLASH], 2)
  {
    hide Drop;
    var u := [SLASH] + a + [SLASH];
    UnwoundStays(RootPen(), 1);
    var p := Visit(RootPen(), 1, a + [SLASH] + q, len);
    assert p.text == u + q + [SLASH] && p.pdepth == 2;
    UnwoundOnce(p, 1);
    DropWritten(u, q);
  }

  /** fdt_get_path(). It returns the path of the node, if that fits with a slash behind it, exactly when no node
      closed in front of it has left a part of its name behind. For an offset behind the root the source
      backs up past its own slashes and reads in front of the buffer: `under` says so, and then there is no
      result. */
  method GetPath(b: Blob, nodeoffset: int, buf: array<byte>) returns (r: int, under: bool)
    requires b.Readable() && Rooted(b) && IsInt(nodeoffset)
    modifies buf
    ensures under <==> buf.Length >= 2 && nodeoffset >= RootEnd(b) && Spare(PenAt(b, nodeoffset, buf.Length)) <= 1
    ensures buf.Length < 2 ==> r == ERR_NOSPACE
    ensures buf.Length >= 2 && !under && Chain(0, b.Tree().value, nodeoffset).None? ==> r == ERR_BADOFFSET
    ensures buf.Length >= 2 && Chain(0, b.Tree().value, nodeoffset).Some? ==>
              var (c, w) :=
                (Chain(0, b.Tree().value, nodeoffset).value, Trimmed(PenAt(b, nodeoffset, buf.Length).text));
              (r == 0 || r == ERR_NOSPACE)
              && (r == 0 ==> |w| < buf.Length && buf[..|w|] == w && buf[|w|] == 0)
              && (r == 0 && w == PathStr(c) <==> |PathBytes(c)| <= buf.Length && !Stained(b, nodeoffset, buf.Length))
              && (|PathBytes(c)| > buf.Length ==> r == ERR_NOSPACE)
  {
    hide Walking, Chain, Scan, TreeOf, NextNodeT, Inner, InnerOff, NameAt, TagAt, PathBytes, Inked, RootEnd, After,
         Visit, PenAt, Stained, Spare, RootPen;
    under := false;
    if buf.Length < 2 {
      return ERR_NOSPACE, false;
    }
    ghost var len, x := buf.Length, nodeoffset;
    ghost var c := [Step(0, [])];
    WalkFirst(b, x);
    TrackIs(b, x, len);
    RootVisit(len);
    ghost var goal := After(b, 0, 0, RootPen(), len, x);
    var pdepth, p, offset, depth := 0, 0, 0, 0;
    WalkAt(b, x, 0, 0, c);
    assert buf[..0] == [];
    while offset >= 0 && offset <= nodeoffset
      invariant 0 <= offset <= b.h.StructSize() + 3 && 0 <= p <= buf.Length
      invariant depth >= 0 ==> Walking(b, x, offset, depth, c) && Inner(b.Toks(), offset).Some? && |c| == depth + 1
      invariant depth >= 0 ==>
                  goal == After(b, offset, depth, Visit(Pen(buf[..p], pdepth), depth, c[depth].name, len), len, x)
      invariant depth == 0 ==> p == 0 && pdepth == 0 && c[0].name == []
      invariant depth != 0 ==> Inked(Pen(buf[..p], pdepth))
      invariant depth < 0 ==>
                  offset == RootEnd(b) && Chain(0, b.Tree().value, x).None? && goal == Out(Pen(buf[..p], pdepth))
      decreases b.h.StructSize() + 3 - offset
    {
      if depth < 0 {
        under := BackUp(buf, p, pdepth);
        return ERR_BADOFFSET, under;
      }
      p, pdepth := VisitName(b, buf, p, pdepth, offset, depth, x, c);
      WalkAt(b, x, offset, depth, c);
      if offset == nodeoffset {
        AfterHere(b, x, depth, Pen(buf[..p], pdepth), len);
        r := LastName(b, buf, p, pdepth, depth, x, c);
        return;
      }
      var o, d := NextNode(b, offset, depth);
      c := WalkOn(b, x, offset, depth, c, o, d);
      TrackOn(b, x, offset, depth, Pen(buf[..p], pdepth), len, o, d);
      offset, depth := o, d;
    }
    if depth >= 0 {
      WalkAt(b, x, offset, depth, c);
      WalkPast(b, x, offset, depth, c);
    }
    if offset == ERR_NOTFOUND || offset >= 0 {
      r := ERR_BADOFFSET;
    } else if offset == ERR_BADOFFSET {
      r := ERR_BADSTRUCTURE;
    } else {
      r := offset;
    }
  }

  lemma RootVisit(len: nat)
    requires len >= 2
    ensures Visit(Pen([], 0), 0, [], len) == RootPen()
  {
    assert [] + [] + [SLASH] == [SLASH];
  }

  /** The body of the loop: names that are done with come off, the name of the node goes on. */
  method VisitName(b: Blob, buf: array<byte>, p0: int, pdepth0: int, offset: int, depth: int, ghost x: int,
                   ghost c: seq<Step>)
    returns (p: int, pdepth: int)
    requires b.Readable() && Rooted(b) && Walking(b, x, offset, depth, c) && IsInt(offset) && |c| == depth + 1
    requires 0 <= depth && 0 <= p0 <= buf.Length && buf.Length >= 2
    requires if depth == 0 then p0 == 0 && pdepth0 == 0 && c[0].name == [] else Inked(Pen(buf[..p0], pdepth0))
    modifies buf
    ensures 0 <= p <= buf.Length && Inked(Pen(buf[..p], pdepth))
    ensures Pen(buf[..p], pdepth) == Visit(Pen(old(buf[..p0]), pdepth0), depth, c[depth].name, buf.Length)
  {
    hide Walking, Scan, TreeOf, Inner, InnerOff, NameAt, Inked, Slashes, Unwound, Added;
    WalkAt(b, x, offset, depth, c);
    p, pdepth := p0, pdepth0;
    if depth > 0 {
      UnwoundKeeps(Pen(buf[..p0], pdepth0), depth);
      p, pdepth := Unwind(buf, p, pdepth, depth);
      AddedKeeps(Pen(buf[..p], pdepth), depth, c[depth].name, buf.Length);
    } else {
      UnwoundStays(Pen(buf[..p0], 0), 0);
      RootVisit(buf.Length);
      RootInked();
      assert buf[..0] == [];
    }
    var err, name := GetName(b, offset);
    p, pdepth := AddName(buf, p, pdepth, depth, name);
  }

  method LastName(b: Blob, buf: array<byte>, p0: int, pdepth: int, depth: int, ghost x: int, ghost c: seq<Step>)
    returns (r: int)
    requires b.Readable() && Rooted(b) && buf.Length >= 2 && depth >= 0 && |c| == depth + 1 && 0 <= p0 <= buf.Length
    requires Chain(0, b.Tree().value, x) == Some(c) && Pen(buf[..p0], pdepth) == PenAt(b, x, buf.Length)
    modifies buf
    ensures var w := Trimmed(PenAt(b, x, buf.Length).text);
            (r == 0 || r == ERR_NOSPACE)
            && (r == 0 ==> |w| < buf.Length && buf[..|w|] == w && buf[|w|] == 0)
            && (r == 0 && w == PathStr(c) <==> |PathBytes(c)| <= buf.Length && !Stained(b, x, buf.Length))
            && (|PathBytes(c)| > buf.Length ==> r == ERR_NOSPACE)
  {
    hide Chain, Scan, TreeOf, PathBytes, PenAt, Stained, Slashes;
    PathWritten(b, x, buf.Length);
    if pdepth < depth + 1 {
      return ERR_NOSPACE;
    }
    var p := if p0 > 1 then p0 - 1 else p0;
    assert buf[..p] == Trimmed(buf[..p0]);
    buf[p] := 0;
    r := 0;
  }

  // ----- following a path -----

  function SlashFrom(s: seq<byte>): (q: nat)
    ensures q <= |s| && SLASH !in s[..q] && (q < |s| ==> s[q] == SLASH)
  {
    if s == [] || s[0] == SLASH then 0
    else
      var q := SlashFrom(s[1..]);
      assert s[..q + 1] == [s[0]] + s[1..][..q];
      q + 1
  }

  /** The names between the slashes of a path. */
  function Comps(path: seq<byte>): seq<seq<byte>>
    decreases |path|
  {
    if path == [] then []
    else if path[0] == SLASH then Comps(path[1..])
    else
      var q := SlashFrom(path);
      [path[..q]] + Comps(path[q..])
  }

  /** Where the names lead from a level: each time the first node that matches. */
  function Look(off: int, t: Tree, names: seq<seq<byte>>): (r: Option<int>)
    requires names != []
    ensures r.Some? ==> off <= r.value < off + TSize(t)
    decreases t
  {
    match t
    case Leaf => None
    case NopT(r) => Look(off + 4, r, names)
    case PropT(n, v, r) => Look(off + Len(Prop(n, v)), r, names)
    case NodeT(n, k, r) =>
      if !NameEq(n, names[0]) then Look(off + HLen(n) + TSize(k) + 4, r, names)
      else if |names| == 1 then Some(off)
      else Look(off + HLen(n), k, names[1..])
  }

  /** Where the names lead from a node. */
  ghost function LookFrom(b: Blob, off: int, names: seq<seq<byte>>): Option<int>
    requires b.Readable() && b.IsNode(off)
  {
    if names == [] then Some(off) else Look(off + HLen(b.Node(off).name), b.Node(off).kids, names)
  }

  /** The first matching kid, and what the rest of the names find below it. */
  lemma {:induction false} LookKid(off: int, t: Tree, names: seq<seq<byte>>)
    requires names != []
    ensures var o := FindKid(off, t, Some(names[0]));
            if o.None? then Look(off, t, names).None?
            else
              At(t, o.value - off).Some? && At(t, o.value - off).value.NodeT?
              && Look(off, t, names) ==
                 if |names| == 1 then o
                 else Look(o.value + HLen(At(t, o.value - off).value.name), At(t, o.value - off).value.kids, names[1..])
    decreases t
  {
    hide Len, TSize, HLen, NameEq, At;
    AtStart(t);
    var o := FindKid(off, t, Some(names[0]));
    match t
    case Leaf =>
    case NopT(r) =>
      LookKid(off + 4, r, names);
      if o.Some? {
        AtBehind(t, o.value - off - 4);
      }
    case PropT(n, v, r) =>
      LookKid(off + Len(Prop(n, v)), r, names);
      if o.Some? {
        AtBehind(t, o.value - off - Len(Prop(n, v)));
      }
    case NodeT(n, k, r) =>
      if !NameEq(n, names[0]) {
        LookKid(off + HLen(n) + TSize(k) + 4, r, names);
        if o.Some? {
          AtBehind(t, o.value - off - (HLen(n) + TSize(k) + 4));
        }
      }
  }

  lemma LookStep(b: Blob, off: int, names: seq<seq<byte>>)
    requires b.Readable() && b.IsNode(off) && names != []
    ensures var o := FindKid(off + HLen(b.Node(off).name), b.Node(off).kids, Some(names[0]));
            if o.None? then LookFrom(b, off, names).None?
            else b.IsNode(o.value) && LookFrom(b, off, names) == LookFrom(b, o.value, names[1..])
  {
    hide Look, FindKid, Scan, TreeOf, HLen, TSize;
    var x := b.Node(off);
    var h := off + HLen(x.name);
    LookKid(h, x.kids, names);
    var o := FindKid(h, x.kids, Some(names[0]));
    if o.Some? {
      InKids(x, o.value - h);
      hide At;
      AtCompose(b.Tree().value, off, x, o.value - off);
    }
  }

  function Answer(x: Option<int>): int {
    if x.Some? then x.value else ERR_NOTFOUND
  }

  /** The loop of fdt_path_offset_namelen(): from a node along the rest of the path; an error stays. */
  method FollowFrom(b: Blob, start: int, path: seq<byte>, from: nat) returns (r: int)
    requires b.Readable() && IsInt(start) && from <= |path|
    ensures IsInt(r) && (start < 0 ==> r == start)
    ensures b.IsNode(start) ==>
              var o := LookFrom(b, start, Comps(path[from..]));
              r == Answer(o) && (if o.Some? then r >= 0 && b.IsNode(r) else r < 0)
  {
    hide LookFrom, FindKid, Scan, TreeOf, HLen, TSize, Comps, At, TagAt;
    ghost var ok := b.IsNode(start);
    ghost var goal := if ok then LookFrom(b, start, Comps(path[from..])) else None;
    var p, offset := from, start;
    while p < |path|
      invariant from <= p <= |path| && IsInt(offset) && (start < 0 ==> offset == start)
      invariant ok ==> b.IsNode(offset) && LookFrom(b, offset, Comps(path[p..])) == goal
    {
      p := SkipSlashes(path, p);
      if p == |path| {
        CompsEnd(b, ok, offset);
        assert path[p..] == [];
        NodeUp(b, offset);
        return offset;
      }
      var q := p + SlashFrom(path[p..]);
      var name := path[p..q];
      CompsFirst(path, p, q);
      NodeUp(b, offset);
      if ok {
        LookStep(b, offset, Comps(path[p..]));
      }
      offset := SubnodeOffset(b, offset, name);
      if offset < 0 {
        return offset;
      }
      p := q;
    }
    assert path[p..] == [];
    CompsEnd(b, ok, offset);
    NodeUp(b, offset);
    r := offset;
  }

  lemma NodeUp(b: Blob, off: int)
    requires b.Readable()
    ensures b.IsNode(off) ==> off >= 0
  {
    if b.IsNode(off) {
      AtBound(b.Tree().value, off);
    }
  }

  /** Names lead to nodes. */
  lemma {:induction false} LookNode(b: Blob, off: int, names: seq<seq<byte>>)
    requires b.Readable() && b.IsNode(off)
    ensures var o := LookFrom(b, off, names); o.Some? ==> b.IsNode(o.value)
    decreases |names|
  {
    hide Look, Scan, TreeOf, At, FindKid, HLen;
    if names != [] {
      hide LookFrom;
      LookStep(b, off, names);
      var x := b.Node(off);
      var o := FindKid(off + HLen(x.name), x.kids, Some(names[0]));
      if o.Some? {
        LookNode(b, o.value, names[1..]);
      }
    }
  }

  /** "/aliases" */
  const ALIASES: seq<byte> := [47, 97, 108, 105, 97, 115, 101, 115]

  /** The path an alias stands for: a terminated string that starts with a slash. */
  function AliasPath(val: Option<seq<byte>>): Option<seq<byte>> {
    if val.None? || val.value == [] || val.value[|val.value| - 1] != 0 || val.value[0] != SLASH then None
    else Some(val.value[..NulFrom(val.value, 0)])
  }

  ghost function Alias(b: Blob, name: seq<byte>): Option<seq<byte>>
    requires b.Readable() && b.IsNode(0)
  {
    var o := LookFrom(b, 0, Comps(ALIASES));
    if o.None? then None
    else
      LookNode(b, 0, Comps(ALIASES));
      AliasPath(FirstVal(b.Node(o.value).kids, name))
  }

  /** fdt_get_alias_namelen() */
  method GetAlias(b: Blob, name: seq<byte>) returns (alias: Option<seq<byte>>)
    requires b.Readable()
    ensures b.IsNode(0) ==> alias == Alias(b, name)
    ensures alias.Some? ==> alias.value != [] && alias.value[0] == SLASH
  {
    hide LookFrom, Scan, TreeOf, Comps, At, FirstVal, TagAt;
    assert ALIASES[0..] == ALIASES;
    var offset := FollowFrom(b, 0, ALIASES, 0);
    if offset < 0 {
      return None;
    }
    var val := Getprop(b, offset, name);
    if val.None? || val.value == [] || val.value[|val.value| - 1] != 0 || val.value[0] != SLASH {
      return None;
    }
    alias := Some(val.value[..NulFrom(val.value, 0)]);
  }

  /** An alias stands for what is in front of the first NUL of a value that starts with a slash and ends in a NUL. */
  lemma AliasMeans(val: seq<byte>, path: seq<byte>, z: seq<byte>)
    requires 0 !in path && val == path + [0] + z
    ensures AliasPath(Some(val)) == if path != [] && path[0] == SLASH && val[|val| - 1] == 0 then Some(path) else None
    ensures AliasPath(None) == None
  {
    assert val[|path|] == 0 && forall k :: 0 <= k < |path| ==> val[k] == path[k];
    assert NulFrom(val, 0) == |path|;
    assert val[..|path|] == path;
  }

  /** Where a path leads: from the root, or from the node that the alias in front stands for. */
  ghost function PathTarget(b: Blob, path: seq<byte>): (r: int)
    requires b.Readable() && b.IsNode(0)
  {
    if path == [] then ERR_BADPATH
    else if path[0] == SLASH then Answer(LookFrom(b, 0, Comps(path)))
    else
      var a := Alias(b, path[..SlashFrom(path)]);
      if a.None? then ERR_BADPATH
      else
        var o := LookFrom(b, 0, Comps(a.value));
        if o.None? then ERR_NOTFOUND
        else
          LookNode(b, 0, Comps(a.value));
          Answer(LookFrom(b, o.value, Comps(path[SlashFrom(path)..])))
  }

  /** fdt_path_offset_namelen() */
  method PathOffset(b: Blob, path: seq<byte>) returns (r: int)
    requires b.Readable()
    ensures path == [] ==> r == ERR_BADPATH
    ensures b.IsNode(0) ==> r == PathTarget(b, path)
  {
    hide LookFrom, Scan, TreeOf, Comps, At, Alias, SlashFrom;
    if path == [] {
      return ERR_BADPATH;
    }
    assert path[0..] == path;
    if path[0] == SLASH {
      r := FollowFrom(b, 0, path, 0);
      return;
    }
    var q := SlashFrom(path);
    var alias := GetAlias(b, path[..q]);
    if alias.None? {
      return ERR_BADPATH;
    }
    assert alias.value[0..] == alias.value;
    var offset := FollowFrom(b, 0, alias.value, 0);
    r := FollowFrom(b, offset, path, q);
  }

  lemma CompsEnd(b: Blob, ok: bool, offset: int)
    requires b.Readable() && (ok ==> b.IsNode(offset))
    ensures ok ==> LookFrom(b, offset, Comps([])) == Some(offset)
  {
  }

  lemma CompsFirst(path: seq<byte>, p: nat, q: nat)
    requires p < |path| && path[p] != SLASH && q == p + SlashFrom(path[p..])
    ensures p < q <= |path| && Comps(path[p..]) == [path[p..q]] + Comps(path[q..])
  {
    hide Comps;
    var s := path[p..];
    assert s[..q - p] == path[p..q] && s[q - p..] == path[q..];
    CompsName(s);
  }

  lemma CompsName(s: seq<byte>)
    requires s != [] && s[0] != SLASH
    ensures SlashFrom(s) > 0 && Comps(s) == [s[..SlashFrom(s)]] + Comps(s[SlashFrom(s)..])
  {
  }

  method SkipSlashes(path: seq<byte>, from: nat) returns (p: nat)
    requires from < |path|
    ensures from <= p <= |path| && Comps(path[p..]) == Comps(path[from..]) && (p < |path| ==> path[p] != SLASH)
  {
    p := from;
    while path[p] == SLASH
      invariant from <= p < |path| && Comps(path[p..]) == Comps(path[from..])
      decreases |path| - p
    {
      assert path[p..][1..] == path[p + 1..];
      p := p + 1;
      if p == |path| {
        return;
      }
    }
  }

  // ----- the round trip -----

  function Names(c: seq<Step>): (r: seq<seq<byte>>)
    ensures |r| == |c|
  {
    seq(|c|, i requires 0 <= i < |c| => c[i].name)
  }

  lemma {:induction false} CompsSplit(s: seq<byte>, u: seq<byte>)
    ensures Comps(s + [SLASH] + u) == Comps(s) + Comps(u)
    decreases |s|
  {
    if s == [] {
      assert (s + [SLASH] + u)[1..] == u;
    } else if s[0] == SLASH {
      assert (s + [SLASH] + u)[1..] == s[1..] + [SLASH] + u;
      CompsSplit(s[1..], u);
    } else {
      CompsName(s);
      CompsSplit(s[SlashFrom(s)..], u);
      CompsSplitName(s, u, SlashFrom(s));
    }
  }

  lemma CompsSplitName(s: seq<byte>, u: seq<byte>, q: nat)
    requires s != [] && s[0] != SLASH && q == SlashFrom(s) && Comps(s[q..] + [SLASH] + u) == Comps(s[q..]) + Comps(u)
    ensures Comps(s + [SLASH] + u) == Comps(s) + Comps(u)
  {
    hide Comps, SlashFrom;
    var x := [SLASH] + u;
    SlashInside(s, x);
    CutFront(s, x, q);
    assert s + [SLASH] + u == s + x && s[q..] + [SLASH] + u == s[q..] + x;
    CompsName(s);
    CompsName(s + x);
    Regroup(s[..q], Comps(s[q..]), Comps(u));
  }

  lemma Regroup(a: seq<byte>, b: seq<seq<byte>>, c: seq<seq<byte>>)
    ensures [a] + (b + c) == ([a] + b) + c
  {
  }

  lemma CutFront(s: seq<byte>, x: seq<byte>, q: nat)
    requires q <= |s|
    ensures (s + x)[..q] == s[..q] && (s + x)[q..] == s[q..] + x
  {
  }

  lemma {:induction false} SlashInside(s: seq<byte>, u: seq<byte>)
    requires u != [] && u[0] == SLASH
    ensures SlashFrom(s + u) == SlashFrom(s)
  {
    if s == [] {
      assert s + u == u;
    } else if s[0] != SLASH {
      assert (s + u)[1..] == s[1..] + u;
      SlashInside(s[1..], u);
    }
  }

  lemma CompsOne(n: seq<byte>)
    requires n != [] && SLASH !in n
    ensures Comps(n) == [n]
  {
    assert n[..|n|] == n && n[|n|..] == [];
    assert SlashFrom(n) == |n|;
  }

  lemma CompsTrailing(s: seq<byte>)
    ensures Comps(s + [SLASH]) == Comps(s)
  {
    CompsSplit(s, []);
    assert s + [SLASH] + [] == s + [SLASH];
  }

  lemma CompsNone()
    ensures Comps([]) == []
  {
  }

  lemma {:induction false} CompsClean(p: seq<byte>)
    ensures forall n :: n in Comps(p) ==> n != [] && SLASH !in n
    decreases |p|
  {
    hide SlashFrom;
    if p != [] {
      if p[0] == SLASH {
        CompsClean(p[1..]);
      } else {
        CompsName(p);
        CompsClean(p[SlashFrom(p)..]);
      }
    }
  }

  /** The names are those of the nodes below a nameless root. */
  ghost predicate FromRoot(c: seq<Step>) {
    c != [] && c[0].name == []
  }

  /** Every name leaves exactly itself between two slashes. */
  ghost predicate Plain(d: seq<Step>) {
    forall i :: 0 <= i < |d| ==> d[i].name != [] && SLASH !in d[i].name
  }

  lemma CompsFront(s: Step, d: seq<Step>)
    ensures Comps(PathBytes([s] + d)) == Comps(s.name) + Comps(PathBytes(d))
  {
    PathFirst(s, d);
    CompsSplit(s.name, PathBytes(d));
  }

  lemma {:induction false} CompsChain(d: seq<Step>)
    requires Plain(d)
    ensures Comps(PathBytes(d)) == Names(d)
    decreases |d|
  {
    hide Comps, PathBytes;
    if d == [] {
      PathNone();
      CompsNone();
    } else {
      assert d == [d[0]] + d[1..];
      CompsFront(d[0], d[1..]);
      CompsOne(d[0].name);
      CompsChain(d[1..]);
      assert Names(d) == [d[0].name] + Names(d[1..]);
    }
  }

  lemma CompsStr(c: seq<Step>)
    requires FromRoot(c)
    ensures PathStr(c) != [] && PathStr(c)[0] == SLASH && Comps(PathStr(c)) == Comps(PathBytes(c[1..]))
  {
    hide PathBytes;
    var d := c[1..];
    assert c == [c[0]] + d;
    PathFirst(c[0], d);
    var p := PathBytes(d);
    assert [] + [SLASH] + p == [SLASH] + p && PathBytes(c) == [SLASH] + p;
    assert ([SLASH] + p)[1..] == p;
    if d == [] {
      PathNone();
    } else {
      assert PathBytes(c) == PathStr(c) + [SLASH];
      CompsTrailing(PathStr(c));
    }
  }

  /** Splitting a path gives the names it was written from exactly when each is filled and holds no slash. */
  lemma CompsPath(c: seq<Step>)
    requires FromRoot(c)
    ensures Comps(PathStr(c)) == Names(c[1..]) <==> Plain(c[1..])
  {
    hide Comps, PathBytes, PathStr;
    var d := c[1..];
    CompsStr(c);
    if Plain(d) {
      CompsChain(d);
    }
    if Comps(PathStr(c)) == Names(d) {
      CompsClean(PathStr(c));
      forall i | 0 <= i < |d| ensures d[i].name != [] && SLASH !in d[i].name {
        assert Names(d)[i] in Names(d);
      }
    }
  }

  /** A first name that matches the first part of what it begins is that part. */
  lemma FirstPart(n: seq<byte>, rest: seq<seq<byte>>)
    requires Comps(n) + rest != [] && NameEq(n, (Comps(n) + rest)[0])
    requires forall m :: m in Comps(n) + rest ==> m != [] && SLASH !in m
    ensures n != [] && SLASH !in n && Comps(n) == [n]
  {
    var all := Comps(n) + rest;
    var m := all[0];
    assert m in all && n[..|m|] == m && m[0] in m;
    assert n[0] == m[0];
    CompsName(n);
    assert m == n[..SlashFrom(n)];
    assert n[..|n|] == n;
    CompsOne(n);
  }

  /** Names that match the parts of the path they make, one by one, are filled and hold no slash. */
  lemma {:induction false} MatchPlain(d: seq<Step>)
    requires var p := Comps(PathBytes(d)); |p| == |d| && forall i :: 0 <= i < |d| ==> NameEq(d[i].name, p[i])
    ensures Plain(d)
    decreases |d|
  {
    hide Comps, PathBytes, NameEq;
    if d != [] {
      var n, e := d[0].name, d[1..];
      assert d == [d[0]] + e;
      CompsClean(PathBytes(d));
      CompsFront(d[0], e);
      var p, q := Comps(PathBytes(d)), Comps(PathBytes(e));
      FirstPart(n, q);
      assert p == [n] + q;
      forall i | 0 <= i < |e| ensures NameEq(e[i].name, q[i]) {
        assert e[i] == d[i + 1] && q[i] == p[i + 1];
      }
      MatchPlain(e);
    }
  }

  /** No earlier node on any level of the way to `x` matches the name of the right one. */
  predicate Clear(off: int, t: Tree, x: int)
    requires Chain(off, t, x).Some?
    decreases t
  {
    match t
    case NopT(r) => Clear(off + 4, r, x)
    case PropT(n, v, r) => Clear(off + Len(Prop(n, v)), r, x)
    case NodeT(n, k, r) =>
      var h := off + HLen(n) + TSize(k) + 4;
      if x == off then true
      else if Chain(off + HLen(n), k, x).Some? then Clear(off + HLen(n), k, x)
      else !NameEq(n, Chain(h, r, x).value[0].name) && Clear(h, r, x)
  }

  /** The names of a chain lead to its node exactly when none is taken by an earlier sibling. */
  lemma {:induction false} LookChain(off: int, t: Tree, x: int)
    requires Chain(off, t, x).Some?
    ensures Look(off, t, Names(Chain(off, t, x).value)) == Some(x) <==> Clear(off, t, x)
    decreases t
  {
    SizeStep(t);
    hide Len, TSize, NameEq;
    var c := Chain(off, t, x).value;
    match t
    case NopT(r) => LookChain(off + 4, r, x);
    case PropT(n, v, r) => LookChain(off + Len(Prop(n, v)), r, x);
    case NodeT(n, k, r) =>
      NameEqSelf(n);
      if x != off {
        if Chain(off + HLen(n), k, x).Some? {
          var d := Chain(off + HLen(n), k, x).value;
          assert Names([Step(off, n)] + d)[1..] == Names(d);
          LookChain(off + HLen(n), k, x);
        } else {
          LookChain(off + HLen(n) + TSize(k) + 4, r, x);
        }
      }
  }

  /** Names lead to a node exactly that many levels down, and match the names on the way. */
  lemma {:induction false} LookMatch(off: int, t: Tree, names: seq<seq<byte>>)
    requires names != [] && Look(off, t, names).Some?
    ensures var c := Chain(off, t, Look(off, t, names).value);
            c.Some? && |c.value| == |names| && forall i :: 0 <= i < |names| ==> NameEq(c.value[i].name, names[i])
    decreases t
  {
    SizeStep(t);
    hide Len, TSize, NameEq, HLen;
    match t
    case NopT(r) => LookMatch(off + 4, r, names);
    case PropT(n, v, r) => LookMatch(off + Len(Prop(n, v)), r, names);
    case NodeT(n, k, r) =>
      if !NameEq(n, names[0]) {
        LookMatch(off + HLen(n) + TSize(k) + 4, r, names);
        ChainInside(off + HLen(n), k, Look(off, t, names).value);
      } else if |names| > 1 {
        LookMatch(off + HLen(n), k, names[1..]);
        assert forall i :: 1 <= i < |names| ==> names[i] == names[1..][i - 1];
      }
  }

  lemma {:induction false} ChainInside(off: int, t: Tree, x: int)
    ensures Chain(off, t, x).Some? ==> off <= x < off + TSize(t)
    decreases t
  {
    hide Len, HLen;
    match t
    case Leaf =>
    case NopT(r) => ChainInside(off + 4, r, x);
    case PropT(n, v, r) => ChainInside(off + Len(Prop(n, v)), r, x);
    case NodeT(n, k, r) =>
      ChainInside(off + HLen(n), k, x);
      ChainInside(off + HLen(n) + TSize(k) + 4, r, x);
  }

  /** fdt_path_offset() of the path of a node is the node, exactly when every name on the way below the root is
      filled and holds no slash, and no earlier sibling matches it under the unit-address rule. */
  lemma PathRoundTrip(b: Blob, x: int)
    requires b.Readable() && Rooted(b) && Chain(0, b.Tree().value, x).Some?
    ensures b.IsNode(0)
    ensures var c := Chain(0, b.Tree().value, x).value;
            PathTarget(b, PathStr(c)) == x <==> Plain(c[1..]) && Clear(0, b.Tree().value, x)
  {
    var t := b.Tree().value;
    var c := Chain(0, t, x).value;
    assert b.Node(0) == t;
    ChainRoot(t, x);
    ChainInside(0, t, x);
    hide Scan, TreeOf, Look, Comps, PathStr, NameEq, PathBytes;
    CompsStr(c);
    CompsPath(c);
    var names := Comps(PathStr(c));
    if x != 0 {
      var d := Chain(HLen([]), t.kids, x).value;
      assert c == [Step(0, [])] + d && c[1..] == d;
      LookChain(HLen([]), t.kids, x);
      if names != [] && Look(HLen([]), t.kids, names) == Some(x) {
        LookMatch(HLen([]), t.kids, names);
        MatchPlain(d);
      }
    } else {
      assert c[1..] == [];
    }
  }

  // ----- enumerating children -----

  /** The first node of a level heads the list of all of them. */
  lemma {:induction false} KidsFirst(off: int, t: Tree)
    ensures var o := FindKid(off, t, None);
            if o.None? then Kids(off, t) == []
            else
              At(t, o.value - off).Some? && At(t, o.value - off).value.NodeT?
              && var x := At(t, o.value - off).value;
                 Kids(off, t) == [Step(o.value, x.name)] + Kids(o.value + HLen(x.name) + TSize(x.kids) + 4, x.rest)
    decreases t
  {
    SmallTokens();
    hide Len, HLen, TSize;
    match t
    case Leaf =>
    case NopT(r) => KidsFirst(off + 4, r);
    case PropT(n, v, r) => KidsFirst(off + Len(Prop(n, v)), r);
    case NodeT(n, k, r) =>
  }

  function Offs(c: seq<Step>): (r: seq<int>)
    ensures |r| == |c|
  {
    seq(|c|, i requires 0 <= i < |c| => c[i].off)
  }

  /** What is left of a level is found by its first node and what is behind that. */
  lemma LevelFirst(b: Blob, off: int, t: Tree)
    requires b.Readable() && b.Tree().Some? && At(b.Tree().value, off) == Some(t)
    ensures var o := FindKid(off, t, None);
            if o.None? then Offs(Kids(off, t)) == []
            else b.IsNode(o.value)
                 && Offs(Kids(off, t)) == [o.value] + Offs(Kids(Behind(b, o.value), b.Node(o.value).rest))
                 && At(b.Tree().value, Behind(b, o.value)) == Some(b.Node(o.value).rest)
  {
    hide Kids, FindKid, Scan, TreeOf, HLen, TSize;
    KidsFirst(off, t);
    var o := FindKid(off, t, None);
    if o.Some? {
      BehindRest(At(t, o.value - off).value);
      hide At;
      AtCompose(b.Tree().value, off, t, o.value - off);
      var x := b.Node(o.value);
      AtCompose(b.Tree().value, o.value, x, HLen(x.name) + TSize(x.kids) + 4);
      var k := Kids(Behind(b, o.value), x.rest);
      assert Offs([Step(o.value, x.name)] + k) == [o.value] + Offs(k);
    }
  }

  lemma BehindRest(x: Tree)
    requires x.NodeT?
    ensures At(x, HLen(x.name) + TSize(x.kids) + 4) == Some(x.rest)
  {
  }

  /** The offset behind a node. */
  ghost function Behind(b: Blob, off: int): int
    requires b.Readable() && b.IsNode(off)
  {
    off + HLen(b.Node(off).name) + TSize(b.Node(off).kids) + 4
  }

  /** fdt_for_each_subnode(): exactly the children, in order. */
  method Subnodes(b: Blob, parent: int) returns (offs: seq<int>)
    requires b.Readable() && IsInt(parent)
    ensures b.IsNode(parent) ==> offs == Offs(Kids(parent + HLen(b.Node(parent).name), b.Node(parent).kids))
  {
    hide Kids, FindKid, Scan, TreeOf, HLen, TSize, At, Offs;
    ghost var ok, goal := b.IsNode(parent), [];
    if ok {
      var x := b.Node(parent);
      goal := Offs(Kids(parent + HLen(x.name), x.kids));
      KidsLevel(b, parent);
      LevelFirst(b, parent + HLen(x.name), x.kids);
    }
    offs := [];
    var node := FirstSubnode(b, parent);
    assert offs + goal == goal;
    while node >= 0
      invariant IsInt(node) && (ok && node < 0 ==> goal == offs)
      invariant ok && node >= 0 ==>
                  b.IsNode(node) && goal == offs + ([node] + Offs(Kids(Behind(b, node), b.Node(node).rest)))
                                    && At(b.Tree().value, Behind(b, node)) == Some(b.Node(node).rest)
      invariant node <= b.h.StructSize() + 3
      decreases node >= 0, b.h.StructSize() + 3 - node
    {
      offs := offs + [node];
      if ok {
        LevelFirst(b, Behind(b, node), b.Node(node).rest);
      }
      node := NextSubnode(b, node);
    }
  }

  lemma KidsLevel(b: Blob, off: int)
    requires b.Readable() && b.IsNode(off)
    ensures 0 <= off && At(b.Tree().value, off + HLen(b.Node(off).name)) == Some(b.Node(off).kids)
  {
    AtBound(b.Tree().value, off);
    hide HLen, TSize, Scan, TreeOf;
    InKids(b.Node(off), 0);
    AtCompose(b.Tree().value, off, b.Node(off), HLen(b.Node(off).name));
  }
}

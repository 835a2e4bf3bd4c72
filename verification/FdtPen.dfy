/** What fdt_get_path() writes (fdt_ro.c): names go behind one another, and a name that is done with is
    taken off by going back to the slash before it. */
module FdtPen {
  import opened FdtTokens
  import opened FdtTree
  import opened FdtWalk
  import opened FdtPath

  const SLASH: byte := 47

  // ----- paths -----

  /** The names of a chain, each with a slash behind it. */
  function PathBytes(c: seq<Step>): (r: seq<byte>)
    ensures c != [] ==> r != [] && r[|r| - 1] == SLASH
    decreases |c|
  {
    if c == [] then [] else PathBytes(c[..|c| - 1]) + c[|c| - 1].name + [SLASH]
  }

  lemma PathLast(c: seq<Step>)
    requires c != []
    ensures PathBytes(c) == PathBytes(c[..|c| - 1]) + c[|c| - 1].name + [SLASH]
  {
  }

  lemma PathNone()
    ensures PathBytes([]) == []
  {
  }

  lemma {:induction false} PathFirst(s: Step, d: seq<Step>)
    ensures PathBytes([s] + d) == s.name + [SLASH] + PathBytes(d)
    decreases |d|
  {
    hide PathBytes;
    var c := [s] + d;
    PathLast(c);
    if d == [] {
      assert c[..|c| - 1] == [];
      PathNone();
    } else {
      PathLast(d);
      PathFirst(s, d[..|d| - 1]);
      assert c[..|c| - 1] == [s] + d[..|d| - 1];
    }
  }

  function Slashes(s: seq<byte>): nat {
    if s == [] then 0 else Slashes(s[..|s| - 1]) + if s[|s| - 1] == SLASH then 1 else 0
  }

  lemma {:induction false} SlashesAppend(s: seq<byte>, u: seq<byte>)
    ensures Slashes(s + u) == Slashes(s) + Slashes(u)
    decreases |u|
  {
    if u == [] {
      assert s + u == s;
    } else {
      assert (s + u)[..|s + u| - 1] == s + u[..|u| - 1];
      SlashesAppend(s, u[..|u| - 1]);
    }
  }

  lemma {:induction false} SlashIn(s: seq<byte>)
    ensures Slashes(s) == 0 <==> SLASH !in s
  {
    if s != [] {
      SlashIn(s[..|s| - 1]);
      assert s == s[..|s| - 1] + [s[|s| - 1]];
    }
  }

  /** Slashes inside the names of a chain. */
  function SlashSum(c: seq<Step>): nat {
    if c == [] then 0 else Slashes(c[0].name) + SlashSum(c[1..])
  }

  lemma {:induction false} SlashesPath(c: seq<Step>)
    ensures Slashes(PathBytes(c)) == |c| + SlashSum(c)
    decreases |c|
  {
    hide PathBytes;
    if c == [] {
      PathNone();
    } else {
      assert c == [c[0]] + c[1..];
      PathFirst(c[0], c[1..]);
      SlashesPath(c[1..]);
      SlashesWritten(c[0].name, PathBytes(c[1..]));
    }
  }

  lemma SlashesWritten(n: seq<byte>, u: seq<byte>)
    ensures Slashes(n + [SLASH] + u) == Slashes(n) + 1 + Slashes(u)
  {
    SlashesAppend(n + [SLASH], u);
    SlashesAppend(n, [SLASH]);
    assert [SLASH][..0] == [];
  }

  // ----- the pen -----

  /** The text so far and the number of names it stands for. */
  datatype Pen = Pen(text: seq<byte>, pdepth: int)

  predicate Ends(s: seq<byte>) {
    s != [] && s[|s| - 1] == SLASH
  }

  ghost predicate Inked(pen: Pen) {
    Ends(pen.text) && 0 <= pen.pdepth <= Slashes(pen.text)
  }

  /** Slashes in the text that no name is counted for. */
  ghost function Spare(pen: Pen): int {
    Slashes(pen.text) - pen.pdepth
  }

  /** Back to behind the slash before the last one. */
  function Drop(s: seq<byte>): (r: seq<byte>)
    requires s != []
    ensures r < s
    decreases |s|
  {
    var r := s[..|s| - 1];
    if r == [] || Ends(r) then r else Drop(r)
  }

  function Unwound(pen: Pen, d: int): Pen
    decreases pen.pdepth - d
  {
    if pen.pdepth <= d || pen.text == [] then pen else Unwound(Pen(Drop(pen.text), pen.pdepth - 1), d)
  }

  function Added(pen: Pen, d: int, n: seq<byte>, len: nat): Pen {
    if pen.pdepth >= d && |pen.text| + |n| + 1 <= len then Pen(pen.text + n + [SLASH], pen.pdepth + 1) else pen
  }

  /** A node at depth `d`: deeper names are taken off, its own is written if it fits behind its parent's. */
  function Visit(pen: Pen, d: int, n: seq<byte>, len: nat): Pen {
    Added(Unwound(pen, d), d, n, len)
  }

  lemma {:induction false} DropSlashes(s: seq<byte>)
    requires Ends(s) && Slashes(s) >= 2
    ensures Ends(Drop(s)) && Slashes(Drop(s)) == Slashes(s) - 1
  {
    DropTo(s[..|s| - 1]);
  }

  lemma {:induction false} DropTo(r: seq<byte>)
    requires Slashes(r) >= 1
    ensures var q := if Ends(r) then r else Drop(r); Ends(q) && Slashes(q) == Slashes(r)
    decreases |r|
  {
    if !Ends(r) {
      DropTo(r[..|r| - 1]);
    }
  }

  /** What ends before the last name stays. */
  lemma {:induction false} DropKeeps(u: seq<byte>, s: seq<byte>)
    requires Ends(u) && u < s
    ensures u <= Drop(s)
    decreases |s|
  {
    var r := s[..|s| - 1];
    if |u| < |r| && !Ends(r) {
      DropKeeps(u, r);
    } else if |u| == |r| {
      assert u == r;
    }
  }

  lemma {:induction false} DropWritten(u: seq<byte>, n: seq<byte>)
    requires Ends(u) && SLASH !in n
    ensures Drop(u + n + [SLASH]) == u
  {
    assert (u + n + [SLASH])[..|u + n|] == u + n;
    DropBack(u, n);
  }

  lemma {:induction false} DropBack(u: seq<byte>, n: seq<byte>)
    requires Ends(u) && SLASH !in n
    ensures (if Ends(u + n) then u + n else Drop(u + n)) == u
    decreases |n|
  {
    if n == [] {
      assert u + n == u;
    } else {
      var m := n[..|n| - 1];
      assert (u + n)[..|u + n| - 1] == u + m && (u + n)[|u + n| - 1] == n[|n| - 1];
      DropBack(u, m);
    }
  }

  lemma {:induction false} UnwoundKeeps(pen: Pen, d: int)
    requires Inked(pen) && d >= 1
    ensures var u := Unwound(pen, d);
            Inked(u) && u.pdepth == (if pen.pdepth > d then d else pen.pdepth) && Spare(u) == Spare(pen)
    decreases pen.pdepth - d
  {
    hide Drop, Slashes;
    if pen.pdepth > d {
      DropSlashes(pen.text);
      UnwoundKeeps(Pen(Drop(pen.text), pen.pdepth - 1), d);
    }
  }

  lemma {:induction false} UnwoundTwice(pen: Pen, e: int, d: int)
    requires d <= e
    ensures Unwound(Unwound(pen, e), d) == Unwound(pen, d)
    decreases pen.pdepth - e
  {
    hide Drop;
    if pen.pdepth > e && pen.text != [] {
      UnwoundTwice(Pen(Drop(pen.text), pen.pdepth - 1), e, d);
    }
  }

  lemma AddedKeeps(u: Pen, d: int, n: seq<byte>, len: nat)
    requires Inked(u)
    ensures var p := Added(u, d, n, len);
            Inked(p) && u.text <= p.text && Spare(p) == Spare(u) + if p == u then 0 else Slashes(n)
  {
    SlashesWritten(n, []);
    SlashesAppend(u.text, n + [SLASH]);
    assert n + [SLASH] + [] == n + [SLASH] && u.text + n + [SLASH] == u.text + (n + [SLASH]);
  }

  // ----- the walk over a level -----

  /** The pen when the walk has come to the node at `x`, or behind the level if it is not there. */
  function PenTo(off: int, t: Tree, d: int, pen: Pen, len: nat, x: int): Pen
    decreases t
  {
    match t
    case Leaf => pen
    case NopT(r) => PenTo(off + 4, r, d, pen, len, x)
    case PropT(n, v, r) => PenTo(off + Len(Prop(n, v)), r, d, pen, len, x)
    case NodeT(n, k, r) =>
      var p := Visit(pen, d, n, len);
      if x == off then p
      else
        var q := PenTo(off + HLen(n), k, d + 1, p, len, x);
        if Chain(off + HLen(n), k, x).Some? then q else PenTo(off + HLen(n) + TSize(k) + 4, r, d, q, len, x)
  }

  /** Some node of the level or below holds a slash in its name and has a path that fits, with `base` bytes
      in front of the level. */
  predicate Stain(t: Tree, base: nat, len: nat) {
    match t
    case Leaf => false
    case NopT(r) => Stain(r, base, len)
    case PropT(_, _, r) => Stain(r, base, len)
    case NodeT(n, k, r) =>
      (base + |n| + 1 <= len && (SLASH in n || Stain(k, base + |n| + 1, len))) || Stain(r, base, len)
  }

  /** So it is among the nodes that are closed in front of `x`. */
  predicate StainTo(off: int, t: Tree, base: nat, len: nat, x: int)
    decreases t
  {
    match t
    case Leaf => false
    case NopT(r) => StainTo(off + 4, r, base, len, x)
    case PropT(n, v, r) => StainTo(off + Len(Prop(n, v)), r, base, len, x)
    case NodeT(n, k, r) =>
      if x == off then false
      else if Chain(off + HLen(n), k, x).Some? then
        base + |n| + 1 <= len && StainTo(off + HLen(n), k, base + |n| + 1, len, x)
      else
        (base + |n| + 1 <= len && (SLASH in n || Stain(k, base + |n| + 1, len)))
        || StainTo(off + HLen(n) + TSize(k) + 4, r, base, len, x)
  }

  /** What a level, or a node of it, does to the pen: nothing, or it leaves slashes behind. */
  ghost predicate Left(u: Pen, u': Pen, d: int, stain: bool) {
    Inked(u') && u'.pdepth == u.pdepth && u.text <= u'.text && Spare(u') >= Spare(u)
    && (u.pdepth < d || !stain ==> u' == u)
    && (u.pdepth == d && stain ==> Spare(u') > Spare(u))
  }

  lemma LeftThen(u: Pen, u1: Pen, u2: Pen, d: int, a: bool, b: bool, b1: bool)
    requires u.pdepth <= d && Left(u, u1, d, a) && Left(u1, u2, d, b1) && (u1 == u ==> b1 == b)
    ensures Left(u, u2, d, a || b)
  {
    hide Slashes;
  }

  /** A node that the walk has passed. */
  lemma NodeLeft(n: seq<byte>, d: int, pen: Pen, q: Pen, len: nat, stain: bool)
    requires d >= 1 && Inked(pen)
    requires var (u, p) := (Unwound(pen, d), Visit(pen, d, n, len));
             Inked(q) && Left(Unwound(p, d + 1), Unwound(q, d + 1), d + 1, stain)
    ensures var u := Unwound(pen, d);
            Left(u, Unwound(q, d), d, |u.text| + |n| + 1 <= len && (SLASH in n || stain))
  {
    hide Drop, Slashes, Unwound;
    var u, p := Unwound(pen, d), Visit(pen, d, n, len);
    UnwoundKeeps(pen, d);
    AddedKeeps(u, d, n, len);
    UnwoundStays(p, d + 1);
    UnwoundTwice(q, d + 1, d);
    UnwoundKeeps(q, d + 1);
    var v := Unwound(q, d + 1);
    if p != u {
      UnwoundOnce(v, d);
      DropKeeps(u.text, v.text);
      DropSlashes(v.text);
      SlashIn(n);
      if SLASH !in n && !stain {
        DropWritten(u.text, n);
      }
    } else {
      UnwoundStays(u, d);
    }
  }

  lemma UnwoundStays(pen: Pen, d: int)
    requires pen.pdepth <= d
    ensures Unwound(pen, d) == pen
  {
  }

  lemma UnwoundOnce(pen: Pen, d: int)
    requires pen.pdepth == d + 1 && pen.text != []
    ensures Unwound(pen, d) == Pen(Drop(pen.text), d)
  {
    UnwoundStays(Pen(Drop(pen.text), d), d);
  }

  /** A level that the walk has passed. */
  lemma {:induction false} LevelLeft(off: int, t: Tree, d: int, pen: Pen, len: nat, x: int)
    requires d >= 1 && Inked(pen) && Chain(off, t, x).None?
    ensures var (u, q) := (Unwound(pen, d), PenTo(off, t, d, pen, len, x));
            Inked(q) && Left(u, Unwound(q, d), d, Stain(t, |u.text|, len))
    decreases t
  {
    hide Slashes, Unwound, Added, TSize, HLen, Len, Left;
    var u := Unwound(pen, d);
    UnwoundKeeps(pen, d);
    match t
    case Leaf => LeftSelf(u, d);
    case NopT(r) => LevelLeft(off + 4, r, d, pen, len, x);
    case PropT(n, v, r) => LevelLeft(off + Len(Prop(n, v)), r, d, pen, len, x);
    case NodeT(n, k, r) =>
      var h := off + HLen(n) + TSize(k) + 4;
      var p := Visit(pen, d, n, len);
      AddedKeeps(u, d, n, len);
      AddedText(u, d, n, len);
      LevelLeft(off + HLen(n), k, d + 1, p, len, x);
      var q := PenTo(off + HLen(n), k, d + 1, p, len, x);
      LevelLeft(h, r, d, q, len, x);
      UnwoundStays(p, d + 1);
      NodeStain(u, p, d, n, k, len);
      NodeLeft(n, d, pen, q, len, Stain(k, |p.text|, len));
      var u1 := Unwound(q, d);
      LeftThen(u, u1, Unwound(PenTo(h, r, d, q, len, x), d), d,
               |u.text| + |n| + 1 <= len && (SLASH in n || Stain(k, |p.text|, len)),
               Stain(r, |u.text|, len), Stain(r, |u1.text|, len));
      LeftAny(u, Unwound(PenTo(h, r, d, q, len, x), d), d,
              (|u.text| + |n| + 1 <= len && (SLASH in n || Stain(k, |p.text|, len))) || Stain(r, |u.text|, len),
              Stain(t, |u.text|, len));
  }

  lemma LeftAny(u: Pen, u': Pen, d: int, a: bool, b: bool)
    requires Left(u, u', d, a) && (u.pdepth < d || a == b)
    ensures Left(u, u', d, b)
  {
  }

  lemma LeftSelf(u: Pen, d: int)
    requires Inked(u)
    ensures Left(u, u, d, false)
  {
  }

  lemma AddedText(u: Pen, d: int, n: seq<byte>, len: nat)
    requires u.pdepth <= d
    ensures var p := Added(u, d, n, len);
            p.pdepth <= d + 1 && (if u.pdepth == d && |u.text| + |n| + 1 <= len
                                  then p == Pen(u.text + n + [SLASH], d + 1) && |p.text| == |u.text| + |n| + 1
                                  else p == u)
  {
  }

  lemma NodeStain(u: Pen, p: Pen, d: int, n: seq<byte>, k: Tree, len: nat)
    requires u.pdepth <= d && p == Added(u, d, n, len)
    ensures u.pdepth == d ==>
              (|u.text| + |n| + 1 <= len && (SLASH in n || Stain(k, |p.text|, len))
               <==> |u.text| + |n| + 1 <= len && (SLASH in n || Stain(k, |u.text| + |n| + 1, len)))
  {
  }

  // ----- the walk to a node -----

  /** What the pen has when the walk comes to the end of the chain `c` below a level: as many names of the chain
      as fit, and exactly those unless it is stained; then it has slashes that no name accounts for. */
  ghost predicate Arrived(u: Pen, p: Pen, d: int, c: seq<Step>, len: nat, stain: bool) {
    if u.pdepth < d then p == u
    else
      var j := p.pdepth - d;
      Inked(p) && 0 <= j <= |c|
      && |p.text| >= |u.text| + |PathBytes(c[..j])| && Spare(p) >= Spare(u) + SlashSum(c[..j])
      && (!stain ==> p.text == u.text + PathBytes(c[..j]) && (j < |c| ==> |u.text| + |PathBytes(c[..j + 1])| > len))
      && (stain && j == |c| ==> Spare(p) > Spare(u) + SlashSum(c))
  }

  lemma ArrivedHere(u: Pen, d: int, s: Step, len: nat)
    requires Inked(u) && u.pdepth <= d
    ensures Arrived(u, Added(u, d, s.name, len), d, [s], len, false)
  {
    AddedKeeps(u, d, s.name, len);
    AddedText(u, d, s.name, len);
    hide Slashes, PathBytes, Added;
    var c := [s];
    PathFirst(s, []);
    PathNone();
    NoSum();
    assert c + [] == c && c[..1] == c && c[..0] == [] && c[1..] == [];
    var n := s.name;
    assert n + [SLASH] + [] == n + [SLASH] && u.text + (n + [SLASH]) == u.text + n + [SLASH];
  }

  lemma ArrivedBelow(u: Pen, q: Pen, d: int, s: Step, c: seq<Step>, len: nat, stain: bool)
    requires Inked(u) && u.pdepth <= d && Arrived(Added(u, d, s.name, len), q, d + 1, c, len, stain)
    ensures Arrived(u, q, d, [s] + c, len, |u.text| + |s.name| + 1 <= len && stain)
  {
    AddedKeeps(u, d, s.name, len);
    AddedText(u, d, s.name, len);
    hide Slashes, PathBytes, Added, SlashSum, Arrived;
    if u.pdepth < d {
      ArrivedNowhere(u, q, d, d + 1, s, c, len, stain);
    } else if |u.text| + |s.name| + 1 <= len {
      ArrivedDeeper(u, Added(u, d, s.name, len), q, d, s, c, len, stain);
    } else {
      ArrivedNot(u, q, d, s, c, len, stain);
    }
  }

  lemma ArrivedNowhere(u: Pen, q: Pen, d: int, e: int, s: Step, c: seq<Step>, len: nat, stain: bool)
    requires u.pdepth < d < e && Arrived(u, q, e, c, len, stain)
    ensures Arrived(u, q, d, [s] + c, len, |u.text| + |s.name| + 1 <= len && stain)
  {
    hide Slashes, PathBytes, SlashSum;
  }

  lemma ArrivedNot(u: Pen, q: Pen, d: int, s: Step, c: seq<Step>, len: nat, stain: bool)
    requires Inked(u) && u.pdepth == d && |u.text| + |s.name| + 1 > len && Arrived(u, q, d + 1, c, len, stain)
    ensures Arrived(u, q, d, [s] + c, len, false)
  {
    hide Slashes, PathBytes, SlashSum;
    var all := [s] + c;
    NoSum();
    PathNone();
    PathFirst(s, []);
    assert all[..0] == [] && all[..1] == [s] + [];
    assert |s.name + [SLASH] + []| == |s.name| + 1;
  }

  lemma ArrivedDeeper(u: Pen, p: Pen, q: Pen, d: int, s: Step, c: seq<Step>, len: nat, stain: bool)
    requires u.pdepth == d && p == Pen(u.text + s.name + [SLASH], d + 1) && Spare(p) == Spare(u) + Slashes(s.name)
    requires Arrived(p, q, d + 1, c, len, stain)
    ensures Arrived(u, q, d, [s] + c, len, stain)
  {
    hide Slashes, PathBytes, SlashSum;
    var all, n, j := [s] + c, s.name, q.pdepth - (d + 1);
    ChainFront(s, c, j);
    assert |n + [SLASH] + PathBytes(c[..j])| == |n| + 1 + |PathBytes(c[..j])|;
    assert u.text + (n + [SLASH] + PathBytes(c[..j])) == u.text + n + [SLASH] + PathBytes(c[..j]);
    if j < |c| {
      ChainFront(s, c, j + 1);
      assert |n + [SLASH] + PathBytes(c[..j + 1])| == |n| + 1 + |PathBytes(c[..j + 1])|;
    } else {
      assert c[..j] == c && all[..j + 1] == all;
    }
  }

  lemma NoSum()
    ensures SlashSum([]) == 0
  {
  }

  lemma ChainFront(s: Step, c: seq<Step>, j: nat)
    requires j <= |c|
    ensures ([s] + c)[..j + 1] == [s] + c[..j]
    ensures PathBytes(([s] + c)[..j + 1]) == s.name + [SLASH] + PathBytes(c[..j])
    ensures SlashSum(([s] + c)[..j + 1]) == Slashes(s.name) + SlashSum(c[..j])
  {
    hide PathBytes, Slashes;
    PathFirst(s, c[..j]);
    assert ([s] + c)[..j + 1] == [s] + c[..j] && ([s] + c[..j])[1..] == c[..j];
  }

  lemma ArrivedLater(u: Pen, u1: Pen, q: Pen, d: int, c: seq<Step>, len: nat, a: bool, b1: bool, b: bool)
    requires u.pdepth <= d && Left(u, u1, d, a) && Arrived(u1, q, d, c, len, b1) && (u1 == u ==> b1 == b)
    ensures Arrived(u, q, d, c, len, a || b)
  {
    hide Slashes, PathBytes, SlashSum;
    if u.pdepth == d && a {
      var j := q.pdepth - d;
      if j == |c| {
        assert c[..j] == c;
      }
    }
  }

  lemma {:induction false} Arrives(off: int, t: Tree, d: int, pen: Pen, len: nat, x: int)
    requires d >= 1 && Inked(pen) && Chain(off, t, x).Some?
    ensures var u := Unwound(pen, d);
            Arrived(u, PenTo(off, t, d, pen, len, x), d, Chain(off, t, x).value, len, StainTo(off, t, |u.text|, len, x))
    decreases t
  {
    hide Slashes, Unwound, Added, TSize, HLen, Len, Left, Arrived;
    var u := Unwound(pen, d);
    UnwoundKeeps(pen, d);
    match t
    case NopT(r) => Arrives(off + 4, r, d, pen, len, x);
    case PropT(n, v, r) => Arrives(off + Len(Prop(n, v)), r, d, pen, len, x);
    case NodeT(n, k, r) =>
      var p := Visit(pen, d, n, len);
      AddedKeeps(u, d, n, len);
      AddedText(u, d, n, len);
      UnwoundStays(p, d + 1);
      if x == off {
        ArrivedHere(u, d, Step(off, n), len);
      } else if Chain(off + HLen(n), k, x).Some? {
        Arrives(off + HLen(n), k, d + 1, p, len, x);
        var q, c := PenTo(off + HLen(n), k, d + 1, p, len, x), Chain(off + HLen(n), k, x).value;
        var stain := StainTo(off + HLen(n), k, |p.text|, len, x);
        ArrivedBelow(u, q, d, Step(off, n), c, len, stain);
        ArrivedAny(u, q, d, [Step(off, n)] + c, len, |u.text| + |n| + 1 <= len
                   && stain, StainTo(off, t, |u.text|, len, x));
      } else {
        var h := off + HLen(n) + TSize(k) + 4;
        LevelLeft(off + HLen(n), k, d + 1, p, len, x);
        var q := PenTo(off + HLen(n), k, d + 1, p, len, x);
        var a := |u.text| + |n| + 1 <= len && (SLASH in n || Stain(k, |p.text|, len));
        NodeLeft(n, d, pen, q, len, Stain(k, |p.text|, len));
        NodeStain(u, p, d, n, k, len);
        Arrives(h, r, d, q, len, x);
        var u1, c := Unwound(q, d), Chain(h, r, x).value;
        var e := PenTo(h, r, d, q, len, x);
        ArrivedLater(u, u1, e, d, c, len, a, StainTo(h, r, |u1.text|, len, x), StainTo(h, r, |u.text|, len, x));
        ArrivedAny(u, e, d, c, len, a || StainTo(h, r, |u.text|, len, x), StainTo(off, t, |u.text|, len, x));
      }
  }

  lemma ArrivedAny(u: Pen, p: Pen, d: int, c: seq<Step>, len: nat, a: bool, b: bool)
    requires Arrived(u, p, d, c, len, a) && (u.pdepth < d || a == b)
    ensures Arrived(u, p, d, c, len, b)
  {
  }

  /** The text stays inside the buffer. */
  lemma {:induction false} PenFits(off: int, t: Tree, d: int, pen: Pen, len: nat, x: int)
    requires |pen.text| <= len
    ensures |PenTo(off, t, d, pen, len, x).text| <= len
    decreases t
  {
    hide Unwound, HLen, TSize, Len;
    match t
    case Leaf =>
    case NopT(r) => PenFits(off + 4, r, d, pen, len, x);
    case PropT(n, v, r) => PenFits(off + Len(Prop(n, v)), r, d, pen, len, x);
    case NodeT(n, k, r) =>
      UnwoundShorter(pen, d);
      var p := Visit(pen, d, n, len);
      PenFits(off + HLen(n), k, d + 1, p, len, x);
      PenFits(off + HLen(n) + TSize(k) + 4, r, d, PenTo(off + HLen(n), k, d + 1, p, len, x), len, x);
  }

  lemma {:induction false} UnwoundShorter(pen: Pen, d: int)
    ensures |Unwound(pen, d).text| <= |pen.text|
    decreases pen.pdepth - d
  {
    if pen.pdepth > d && pen.text != [] {
      UnwoundShorter(Pen(Drop(pen.text), pen.pdepth - 1), d);
    }
  }

  // ----- the same from the tokens -----

  /** The walk has come to its node, or has left the root. */
  datatype Track = Found(pen: Pen) | Out(pen: Pen)

  function PenT(off: int, w: seq<Tok>, d: int, pen: Pen, len: nat, x: int): Track
    decreases |w|
  {
    if w == [] then Out(pen)
    else
      match w[0]
      case Begin(n) =>
        var p := Visit(pen, d, n, len);
        if off == x then Found(p) else PenT(off + Len(w[0]), w[1..], d + 1, p, len, x)
      case End => if d <= 1 then Out(pen) else PenT(off + 4, w[1..], d - 1, pen, len, x)
      case Fin => Out(pen)
      case _ => PenT(off + Len(w[0]), w[1..], d, pen, len, x)
  }

  lemma {:induction false} PenFlat(off: int, t: Tree, post: seq<Tok>, d: int, pen: Pen, len: nat, x: int)
    requires d >= 1
    ensures PenT(off, Flat(t) + post, d, pen, len, x) ==
            var p := PenTo(off, t, d, pen, len, x);
            if Chain(off, t, x).Some? then Found(p) else PenT(off + TSize(t), post, d, p, len, x)
    decreases t
  {
    SmallTokens();
    SizeStep(t);
    hide Len, TSize, Visit, PenT;
    match t
    case Leaf =>
      assert Flat(t) + post == post;
    case NopT(r) =>
      assert Flat(t) + post == [Nop] + (Flat(r) + post);
      PenOver(off, Nop, Flat(r) + post, d, pen, len, x);
      PenFlat(off + 4, r, post, d, pen, len, x);
    case PropT(n, v, r) =>
      assert Flat(t) + post == [Prop(n, v)] + (Flat(r) + post);
      PenOver(off, Prop(n, v), Flat(r) + post, d, pen, len, x);
      PenFlat(off + Len(Prop(n, v)), r, post, d, pen, len, x);
    case NodeT(n, k, r) =>
      FlatNode(n, k, r, post);
      hide Flat, PenTo, Chain;
      PenNodeFlat(off, n, k, r, post, d, pen, len, x);
  }

  lemma PenOver(off: int, tok: Tok, w: seq<Tok>, d: int, pen: Pen, len: nat, x: int)
    requires tok.Nop? || tok.Prop?
    ensures PenT(off, [tok] + w, d, pen, len, x) == PenT(off + Len(tok), w, d, pen, len, x)
  {
    assert ([tok] + w)[1..] == w;
  }

  lemma {:induction false} PenNodeFlat(off: int, n: seq<byte>, k: Tree, r: Tree, post: seq<Tok>, d: int, pen: Pen,
                                       len: nat, x: int)
    requires d >= 1
    ensures PenT(off, [Begin(n)] + (Flat(k) + ([End] + (Flat(r) + post))), d, pen, len, x) ==
            var t := NodeT(n, k, r);
            var p := PenTo(off, t, d, pen, len, x);
            if Chain(off, t, x).Some? then Found(p)
              else PenT(off + HLen(n) + TSize(k) + 4 + TSize(r), post, d, p, len, x)
    decreases NodeT(n, k, r), 0
  {
    hide Len, TSize, Flat, Visit;
    var v := [End] + (Flat(r) + post);
    var w := [Begin(n)] + (Flat(k) + v);
    var p := Visit(pen, d, n, len);
    assert w[1..] == Flat(k) + v;
    if x != off {
      PenFlat(off + HLen(n), k, v, d + 1, p, len, x);
      var q := PenTo(off + HLen(n), k, d + 1, p, len, x);
      PenFlat(off + HLen(n) + TSize(k) + 4, r, post, d, q, len, x);
      PenClose(off + HLen(n) + TSize(k), Flat(r) + post, d, q, len, x);
    }
  }

  lemma PenClose(off: int, w: seq<Tok>, d: int, pen: Pen, len: nat, x: int)
    requires d >= 1
    ensures PenT(off, [End] + w, d + 1, pen, len, x) == PenT(off + 4, w, d, pen, len, x)
  {
    assert ([End] + w)[1..] == w;
  }

  /** One fdt_next_node() of the walk. */
  lemma {:induction false} PenNext(off: int, w: seq<Tok>, d: int, pen: Pen, len: nat, x: int)
    requires d >= 1
    ensures match NextNodeT(off, w, d - 1)
            case ToNode(o, e, v) =>
              v != [] && v[0].Begin? && 1 <= e
              && PenT(off, w, d, pen, len, x) ==
                 var p := Visit(pen, e, v[0].name, len);
                 if o == x then Found(p) else PenT(o + Len(v[0]), v[1..], e + 1, p, len, x)
            case Closed(_, e) => e < 0 && PenT(off, w, d, pen, len, x) == Out(pen)
            case Ended => PenT(off, w, d, pen, len, x) == Out(pen)
    decreases |w|
  {
    hide Len, Visit;
    SmallTokens();
    if w != [] && !w[0].Begin? && !w[0].Fin? && !(w[0].End? && d == 1) {
      PenNext(off + Len(w[0]), w[1..], if w[0].End? then d - 1 else d, pen, len, x);
    }
  }
}

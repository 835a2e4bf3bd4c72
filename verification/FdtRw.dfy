/** In-place editing (fdt_rw.c, fdt_wip.c): byte splices that are tree edits. */
module FdtRw {
  import opened Options
  import opened FdtTokens
  import opened FdtTree
  import opened FdtBlob
  import opened FdtWalk
  import opened FdtRo
  import opened FdtProps
  import opened FdtEdit

  // ----- raw memory -----

  /** `s` with `x` written over it at `o`. */
  function Over(s: seq<byte>, o: nat, x: seq<byte>): (r: seq<byte>)
    requires o + |x| <= |s|
    ensures |r| == |s|
  {
    s[..o] + x + s[o + |x|..]
  }

  lemma OverBefore(s: seq<byte>, o: nat, x: seq<byte>, i: nat, j: nat)
    requires o + |x| <= |s| && i <= j <= o
    ensures Over(s, o, x)[i..j] == s[i..j]
  {
  }

  lemma OverInside(s: seq<byte>, o: nat, x: seq<byte>, i: nat, j: nat)
    requires o + |x| <= |s| && o <= i <= j <= o + |x|
    ensures Over(s, o, x)[i..j] == x[i - o..j - o]
  {
  }

  lemma OverAfter(s: seq<byte>, o: nat, x: seq<byte>, i: nat, j: nat)
    requires o + |x| <= i <= j <= |s|
    ensures Over(s, o, x)[i..j] == s[i..j]
  {
  }

  /** memmove() */
  method Memmove(a: array<byte>, dst: nat, src: nat, n: nat)
    requires dst + n <= a.Length && src + n <= a.Length
    modifies a
    ensures a[..] == Over(old(a[..]), dst, old(a[..])[src..src + n])
  {
    hide Over;
    ghost var m := a[..];
    if dst <= src {
      MoveForward(a, dst, src, n);
    } else {
      MoveBackward(a, dst, src, n);
    }
    OverIs(m, a[..], dst, m[src..src + n]);
  }

  /** Low bytes first, for a move down. */
  method MoveForward(a: array<byte>, dst: nat, src: nat, n: nat)
    requires dst + n <= a.Length && src + n <= a.Length && dst <= src
    modifies a
    ensures forall k :: 0 <= k < a.Length ==> a[k] == if dst <= k < dst + n then old(a[src + k - dst]) else old(a[k])
  {
    var i := 0;
    while i < n
      invariant 0 <= i <= n
      invariant forall k :: 0 <= k < a.Length ==> a[k] == if dst <= k < dst + i then old(a[src + k - dst])
                else old(a[k])
    {
      a[dst + i] := a[src + i];
      i := i + 1;
    }
  }

  /** High bytes first, for a move up. */
  method MoveBackward(a: array<byte>, dst: nat, src: nat, n: nat)
    requires dst + n <= a.Length && src + n <= a.Length && src < dst
    modifies a
    ensures forall k :: 0 <= k < a.Length ==> a[k] == if dst <= k < dst + n then old(a[src + k - dst]) else old(a[k])
  {
    var i := n;
    while i > 0
      invariant 0 <= i <= n
      invariant forall k :: 0 <= k < a.Length ==> a[k] == if dst + i <= k < dst + n then old(a[src + k - dst])
                else old(a[k])
    {
      i := i - 1;
      a[dst + i] := a[src + i];
    }
  }

  lemma OverIs(m: seq<byte>, m': seq<byte>, o: nat, x: seq<byte>)
    requires |m'| == |m| && o + |x| <= |m|
    requires forall k :: 0 <= k < |m| ==> m'[k] == if o <= k < o + |x| then x[k - o] else m[k]
    ensures m' == Over(m, o, x)
  {
  }

  /** memcpy() from outside the buffer */
  method Memcpy(a: array<byte>, pos: nat, x: seq<byte>)
    requires pos + |x| <= a.Length
    modifies a
    ensures a[..] == Over(old(a[..]), pos, x)
  {
    var i := 0;
    while i < |x|
      invariant 0 <= i <= |x|
      invariant forall k :: 0 <= k < a.Length ==> a[k] == if pos <= k < pos + i then x[k - pos] else old(a[k])
    {
      a[pos + i] := x[i];
      i := i + 1;
    }
  }

  // ----- the blob being edited -----

  /** fdt_blocks_misordered_(), with its 32-bit sums */
  predicate BlocksMisordered(h: Header, memRsvSize: nat, structSize: nat) {
    h.offRsv < 40 || h.offStruct < (h.offRsv + memRsvSize) % TWO32
    || h.offStrings < (h.offStruct + structSize) % TWO32 || h.totalsize < (h.offStrings + h.sizeStrings) % TWO32
  }

  /** The structure block, the strings block and the end follow one another; the reservation map before them is
      only tested with a sum that may wrap. */
  predicate Ordered(h: Header) {
    40 <= h.offRsv && (h.offRsv + 16) % TWO32 <= h.offStruct
    && h.offStruct + h.sizeStruct <= h.offStrings && h.offStrings + h.sizeStrings <= h.totalsize
  }

  function DataSize(h: Header): nat {
    h.offStrings + h.sizeStrings
  }

  lemma OrderedSize(h: Header)
    requires Ordered(h)
    ensures h.offStruct + h.sizeStruct <= h.offStrings <= DataSize(h) <= h.totalsize
  {
  }

  lemma OrderedExactly(v: Blob)
    requires v.Fits()
    ensures BlocksMisordered(v.h, 16, v.h.sizeStruct) <==> !Ordered(v.h)
  {
  }

  class Fdt {
    var h: Header
    const buf: array<byte>

    constructor (h: Header, buf: array<byte>)
      ensures this.h == h && this.buf == buf
    {
      this.h, this.buf := h, buf;
    }

    function View(): Blob
      reads this, buf
    {
      Blob(h, buf[..])
    }

    ghost predicate Ready()
      reads this, buf
    {
      View().Fits() && Ordered(h)
    }
  }

  /** fdt_splice_(): room for `newlen` bytes instead of `oldlen`, by moving everything behind. */
  method Splice(f: Fdt, p: nat, oldlen: int, newlen: nat) returns (err: int)
    requires f.Ready() && DataSize(f.h) + newlen < TWO32
    modifies f.buf
    ensures err == 0 || err == ERR_BADOFFSET || err == ERR_NOSPACE
    ensures err == 0 <==> 0 <= oldlen && p + oldlen <= DataSize(f.h) && DataSize(f.h) - oldlen + newlen <= f.h.totalsize
    ensures 0 <= oldlen && p + oldlen <= DataSize(f.h) ==> err != ERR_BADOFFSET
    ensures err != 0 ==> f.buf[..] == old(f.buf[..])
    ensures err == 0 ==> f.buf[..] == Over(old(f.buf[..]), p + newlen, old(f.buf[..])[p + oldlen..DataSize(f.h)])
  {
    hide Over;
    var dsize := DataSize(f.h);
    if oldlen < 0 || p + oldlen < p || p + oldlen > dsize {
      return ERR_BADOFFSET;
    }
    if dsize + newlen < oldlen {
      return ERR_BADOFFSET;
    }
    if dsize - oldlen + newlen > f.h.totalsize {
      return ERR_NOSPACE;
    }
    Memmove(f.buf, p + newlen, p + oldlen, dsize - (p + oldlen));
    err := 0;
  }

  /** Memory after moving [p + oldlen, end) to p + newlen. */
  lemma MoveTail(m: seq<byte>, p: nat, oldlen: nat, newlen: nat, end: nat, lo: nat, hi: nat)
    requires p + oldlen <= end <= |m| && end - oldlen + newlen <= |m|
    ensures var m' := Over(m, p + newlen, m[p + oldlen..end]);
            (lo <= hi <= p ==> m'[lo..hi] == m[lo..hi])
            && (p + oldlen <= lo <= hi <= end ==> m'[lo + newlen - oldlen..hi + newlen - oldlen] == m[lo..hi])
  {
    if lo <= hi <= p {
      OverBefore(m, p + newlen, m[p + oldlen..end], lo, hi);
    }
    if p + oldlen <= lo <= hi <= end {
      MovedInside(m, p + oldlen, end, p + newlen, lo - p - oldlen, hi - p - oldlen);
    }
  }

  lemma MovedInside(m: seq<byte>, a: nat, b: nat, o: nat, i: nat, j: nat)
    requires a <= b <= |m| && o + b - a <= |m| && i <= j <= b - a
    ensures Over(m, o, m[a..b])[o + i..o + j] == m[a + i..a + j]
  {
    hide Over;
    OverInside(m, o, m[a..b], o + i, o + j);
    SubSlice(m, a, b, i, j);
  }

  /** The header after a splice in the structure block. */
  function Grown(h: Header, oldlen: nat, newlen: nat): Header
    requires Ordered(h) && oldlen <= h.sizeStruct
  {
    h.(sizeStruct := h.sizeStruct + newlen - oldlen, offStrings := h.offStrings + newlen - oldlen)
  }

  lemma GrownFits(v: Blob, v': Blob, oldlen: nat, newlen: nat)
    requires v.Fits() && Ordered(v.h) && oldlen <= v.h.sizeStruct
    requires DataSize(v.h) - oldlen + newlen <= v.h.totalsize
    requires v'.h == Grown(v.h, oldlen, newlen) && |v'.mem| == |v.mem|
    ensures v'.Fits() && Ordered(v'.h)
  {
  }

  ghost predicate Moved(v: Blob, v': Blob, off: nat, oldlen: nat, newlen: nat) {
    v.Fits() && Ordered(v.h) && off + oldlen <= v.h.sizeStruct && v'.Fits()
    && DataSize(v.h) - oldlen + newlen <= v.h.totalsize
    && v'.mem == Over(v.mem, v.h.offStruct + off + newlen, v.mem[v.h.offStruct + off + oldlen..DataSize(v.h)])
    && v'.h == Grown(v.h, oldlen, newlen)
  }

  /** Moving the tail of the blob moves the strings ... */
  lemma MovedStrings(v: Blob, v': Blob, off: nat, oldlen: nat, newlen: nat)
    requires Moved(v, v', off, oldlen, newlen)
    ensures v'.Strings() == v.Strings()
  {
    hide Over, Ordered;
    OrderedSize(v.h);
    MoveTail(v.mem, v.h.offStruct + off, oldlen, newlen, DataSize(v.h), v.h.offStrings, DataSize(v.h));
  }

  /** ... and the tail of the structure block, */
  lemma MovedTail(v: Blob, v': Blob, off: nat, oldlen: nat, newlen: nat)
    requires Moved(v, v', off, oldlen, newlen)
    ensures v'.Struct()[off + newlen..] == v.Struct()[off + oldlen..]
  {
    hide Over, Ordered;
    OrderedSize(v.h);
    var a, n, n' := v.h.offStruct, v.h.sizeStruct, v'.h.sizeStruct;
    MovedInside(v.mem, a + off + oldlen, DataSize(v.h), a + off + newlen, 0, n - off - oldlen);
    TailSlice(v.mem, a, n, off + oldlen);
    TailSlice(v'.mem, a, n', off + newlen);
  }

  lemma TailSlice(m: seq<byte>, a: nat, n: nat, i: nat)
    requires a + n <= |m| && i <= n
    ensures m[a..a + n][i..] == m[a + i..a + n]
  {
    SubSlice(m, a, a + n, i, n);
    assert m[a..a + n][i..] == m[a..a + n][i..n];
  }

  /** and leaves what is before the splice. */
  lemma MovedHead(v: Blob, v': Blob, off: nat, oldlen: nat, newlen: nat)
    requires Moved(v, v', off, oldlen, newlen)
    ensures v'.Struct()[..off] == v.Struct()[..off]
  {
    hide Over, Ordered;
    OrderedSize(v.h);
    var a, n, n' := v.h.offStruct, v.h.sizeStruct, v'.h.sizeStruct;
    MoveTail(v.mem, a + off, oldlen, newlen, DataSize(v.h), a, a + off);
    SubSlice(v.mem, a, a + n, 0, off);
    SubSlice(v'.mem, a, a + n', 0, off);
  }

  /** fdt_splice_struct_() */
  method SpliceStruct(f: Fdt, off: nat, oldlen: nat, newlen: nat) returns (err: int)
    requires f.Ready() && off + oldlen <= f.h.sizeStruct && newlen <= INT_MAX
    modifies f, f.buf
    ensures f.Ready()
    ensures err == if DataSize(old(f.h)) - oldlen + newlen <= old(f.h).totalsize then 0 else ERR_NOSPACE
    ensures err != 0 ==> f.View() == old(f.View())
    ensures err == 0 ==>
              f.h == Grown(old(f.h), oldlen, newlen)
              && f.View().Strings() == old(f.View()).Strings()
              && f.View().Struct()[..off] == old(f.View()).Struct()[..off]
              && f.View().Struct()[off + newlen..] == old(f.View()).Struct()[off + oldlen..]
  {
    hide Over, Ordered;
    OrderedSize(f.h);
    err := Splice(f, f.h.offStruct + off, oldlen, newlen);
    if err != 0 {
      return;
    }
    f.h := f.h.(sizeStruct := f.h.sizeStruct + newlen - oldlen, offStrings := f.h.offStrings + newlen - oldlen);
    GrownFits(old(f.View()), f.View(), oldlen, newlen);
    MovedStrings(old(f.View()), f.View(), off, oldlen, newlen);
    MovedTail(old(f.View()), f.View(), off, oldlen, newlen);
    MovedHead(old(f.View()), f.View(), off, oldlen, newlen);
  }

  // ----- stores into the structure block -----

  /** A store inside a block, seen from the block. */
  lemma OverSlice(m: seq<byte>, a: nat, n: nat, off: nat, x: seq<byte>)
    requires a + n <= |m| && off + |x| <= n
    ensures Over(m, a + off, x)[a..a + n] == Over(m[a..a + n], off, x)
  {
    var l, r := Over(m, a + off, x)[a..a + n], Over(m[a..a + n], off, x);
    assert |l| == |r|;
    assert forall i :: 0 <= i < n ==> l[i] == r[i];
  }

  /** The structure block and the strings do not overlap. */
  predicate Disjoint(h: Header) {
    h.offStruct + h.sizeStruct <= h.offStrings || h.offStrings + h.sizeStrings <= h.offStruct
  }

  lemma StoreBlocks(v: Blob, v': Blob, off: nat, x: seq<byte>)
    requires v.Fits() && Disjoint(v.h) && off + |x| <= v.h.sizeStruct
    requires v'.h == v.h && v'.mem == Over(v.mem, v.h.offStruct + off, x)
    ensures v'.Fits() && v'.Strings() == v.Strings() && v'.Struct() == Over(v.Struct(), off, x)
  {
    hide Over;
    var a, n := v.h.offStruct, v.h.sizeStruct;
    if a + n <= v.h.offStrings {
      OverAfter(v.mem, a + off, x, v.h.offStrings, DataSize(v.h));
    } else {
      OverBefore(v.mem, a + off, x, v.h.offStrings, DataSize(v.h));
    }
    OverSlice(v.mem, a, n, off, x);
  }

  method StoreStruct(f: Fdt, off: nat, x: seq<byte>)
    requires f.Ready() && off + |x| <= f.h.sizeStruct
    modifies f.buf
    ensures f.Ready() && f.View().Strings() == old(f.View()).Strings()
    ensures f.View().Struct() == Over(old(f.View()).Struct(), off, x)
  {
    hide Over;
    Memcpy(f.buf, f.h.offStruct + off, x);
    StoreBlocks(old(f.View()), f.View(), off, x);
  }

  /** Two adjacent stores are one. */
  lemma OverThen(s: seq<byte>, o: nat, x: seq<byte>, y: seq<byte>)
    requires o + |x| + |y| <= |s|
    ensures Over(Over(s, o, x), o + |x|, y) == Over(s, o, x + y)
  {
    var l, r := Over(Over(s, o, x), o + |x|, y), Over(s, o, x + y);
    assert |l| == |r|;
    assert forall i :: 0 <= i < |l| ==> l[i] == r[i];
  }

  /** A store over the start of an earlier one. */
  lemma OverTwice(s: seq<byte>, o: nat, x: seq<byte>, y: seq<byte>)
    requires o + |x| <= |s| && |y| <= |x|
    ensures Over(Over(s, o, x), o, y) == Over(s, o, y + x[|y|..])
  {
    var l, r := Over(Over(s, o, x), o, y), Over(s, o, y + x[|y|..]);
    assert |l| == |r|;
    assert forall i :: 0 <= i < |l| ==> l[i] == r[i];
  }

  /** Filling a gap from its start. */
  lemma OverGap(s: seq<byte>, t: seq<byte>, o: nat, oldlen: nat, newlen: nat, x: seq<byte>)
    requires o + oldlen <= |s| && o + newlen <= |t| && |x| <= newlen
    requires t[..o] == s[..o] && t[o + newlen..] == s[o + oldlen..]
    ensures Over(t, o, x) == s[..o] + (x + t[o + |x|..o + newlen]) + s[o + oldlen..]
  {
    var r := Over(t, o, x);
    assert t == t[..o] + t[o..o + |x|] + t[o + |x|..o + newlen] + t[o + newlen..];
  }

  function PropHeader(nameoff: nat, len: nat): seq<byte>
    requires nameoff < TWO32 && len < TWO32
  {
    Enc32(FDT_PROP) + Enc32(len) + Enc32(nameoff)
  }

  /** The stores to tag, nameoff and len of a struct fdt_property. */
  method StorePropHeader(f: Fdt, off: nat, nameoff: nat, len: nat)
    requires f.Ready() && off + 12 <= f.h.sizeStruct && nameoff < TWO32 && len < TWO32
    modifies f.buf
    ensures f.Ready() && f.View().Strings() == old(f.View()).Strings()
    ensures f.View().Struct() == Over(old(f.View()).Struct(), off, PropHeader(nameoff, len))
  {
    hide Over, Enc32, Ordered;
    ghost var s := f.View().Struct();
    StoreStruct(f, off, Enc32(FDT_PROP));
    StoreStruct(f, off + 4, Enc32(len));
    OverThen(s, off, Enc32(FDT_PROP), Enc32(len));
    StoreStruct(f, off + 8, Enc32(nameoff));
    OverThen(s, off, Enc32(FDT_PROP) + Enc32(len), Enc32(nameoff));
  }

  function Zeros(n: nat): (z: seq<byte>)
    ensures |z| == n && forall i :: 0 <= i < n ==> z[i] == 0
  {
    seq(n, i => 0)
  }

  /** An empty node of that name. */
  function NodeBytes(name: seq<byte>): (x: seq<byte>)
    ensures |x| == 8 + Align4(|name| + 1)
  {
    Enc32(FDT_BEGIN_NODE) + (name + Zeros(Align4(|name| + 1) - |name|)) + Enc32(FDT_END_NODE)
  }

  method StoreNode(f: Fdt, off: nat, name: seq<byte>)
    requires f.Ready() && off + 8 + Align4(|name| + 1) <= f.h.sizeStruct
    modifies f.buf
    ensures f.Ready() && f.View().Strings() == old(f.View()).Strings()
    ensures f.View().Struct() == Over(old(f.View()).Struct(), off, NodeBytes(name))
  {
    hide Over, Enc32, Ordered, Align4;
    ghost var s := f.View().Struct();
    var n := Align4(|name| + 1);
    var z := Zeros(n);
    StoreStruct(f, off, Enc32(FDT_BEGIN_NODE));
    StoreStruct(f, off + 4, z);
    StoreStruct(f, off + 4, name);
    OverTwice(Over(s, off, Enc32(FDT_BEGIN_NODE)), off + 4, z, name);
    assert z[|name|..] == Zeros(n - |name|);
    OverThen(s, off, Enc32(FDT_BEGIN_NODE), name + z[|name|..]);
    StoreStruct(f, off + 4 + n, Enc32(FDT_END_NODE));
    OverThen(s, off, Enc32(FDT_BEGIN_NODE) + (name + z[|name|..]), Enc32(FDT_END_NODE));
  }

  // ----- deleting and adding nodes -----

  /** SpliceTree for two states of a blob. */
  lemma SpliceBlob(v: Blob, v': Blob, off: nat, u: Tree, a: seq<Tok>, b: seq<Tok>, c: seq<Tok>, x: seq<byte>)
    requires v.Readable() && v'.Readable() && v.Tree().Some? && Extends(v.Strings(), v'.Strings())
    requires At(v.Tree().value, off).Some? && Flat(At(v.Tree().value, off).value) == a + c && Flat(u) == b + c
    requires Dec(x, v'.Strings(), b)
    ensures off + Size(a) <= v.h.StructSize()
    ensures v'.Struct() == v.Struct()[..off] + x + v.Struct()[off + Size(a)..] ==>
              v'.Tree() == Some(Put(v.Tree().value, off, u))
  {
    hide BlobTree, At, Flat, Dec, Size, Put, Extends;
    SpliceTree(v.Struct(), v.Strings(), v'.Strings(), v.Tree().value, off, u, a, b, c, x);
  }

  lemma ExtendsSelf(st: Strs)
    ensures Extends(st, st)
  {
  }

  /** Bytes of a node, without what follows it. */
  function NodeLen(x: Tree): nat
    requires x.NodeT?
  {
    HLen(x.name) + TSize(x.kids) + 4
  }

  lemma NodeInside(v: Blob, node: int)
    requires v.Fits() && v.IsNode(node)
    ensures 0 <= node && node + NodeLen(v.Node(node)) <= v.h.sizeStruct
  {
    hide Scan, TreeOf, At, Dec, Flat, Extends;
    var x := v.Node(node);
    AtBound(v.Tree().value, node);
    ExtendsSelf(v.Strings());
    FrontSize(x.name, x.kids);
    NodeFront(x);
    DecEmpty(v.Strings());
    SpliceBlob(v, v, node, x.rest, FlatFront(x.name, x.kids), [], Flat(x.rest), []);
  }

  lemma NodeFront(x: Tree)
    requires x.NodeT?
    ensures Flat(x) == FlatFront(x.name, x.kids) + Flat(x.rest) && Flat(x.rest) == [] + Flat(x.rest)
  {
  }

  lemma DecEmpty(st: Strs)
    ensures Dec([], st, [])
  {
  }

  /** Cutting a node's bytes out deletes it. */
  lemma NodeDeleted(v: Blob, v': Blob, node: int)
    requires v.Fits() && v'.Fits() && v.IsNode(node) && v'.Strings() == v.Strings()
    requires 0 <= node && node + NodeLen(v.Node(node)) <= v.h.sizeStruct
    requires v'.Struct() == v.Struct()[..node] + v.Struct()[node + NodeLen(v.Node(node))..]
    ensures v'.Tree() == Some(Put(v.Tree().value, node, v.Node(node).rest))
  {
    hide Scan, TreeOf, At, Dec, Flat, Extends, Put, TSize, HLen;
    var x := v.Node(node);
    ExtendsSelf(v.Strings());
    FrontSize(x.name, x.kids);
    NodeFront(x);
    DecEmpty(v.Strings());
    assert v.Struct()[..node] + [] + v.Struct()[node + NodeLen(x)..] == v'.Struct();
    SpliceBlob(v, v', node, x.rest, FlatFront(x.name, x.kids), [], Flat(x.rest), []);
  }

  /** A node's offset, or one the offset check refuses. */
  ghost predicate NodeArg(v: Blob, node: int)
    requires v.Fits()
  {
    v.Tree().Some? && IsInt(node) && (v.IsNode(node) || Rejected(v, node))
  }

  /** fdt_del_node() */
  method DelNode(f: Fdt, node: int) returns (err: int)
    requires f.View().Fits() && NodeArg(f.View(), node)
    modifies f, f.buf
    ensures f.View().Fits()
    ensures err != 0 ==> err < 0 && f.View() == old(f.View())
    ensures err == 0 <==> Ordered(old(f.h)) && old(f.View()).IsNode(node)
    ensures err == 0 ==>
              var v := old(f.View());
              0 <= node && node + NodeLen(v.Node(node)) <= v.h.sizeStruct
              && f.View().Tree() == Some(Put(v.Tree().value, node, v.Node(node).rest))
              && f.View().Strings() == v.Strings() && f.h == Grown(v.h, NodeLen(v.Node(node)), 0)
              && f.View().Struct() == v.Struct()[..node] + v.Struct()[node + NodeLen(v.Node(node))..]
  {
    hide Scan, TreeOf, At, Dec, Flat, Extends, Put, TSize, HLen, TagAt;
    OrderedExactly(f.View());
    if BlocksMisordered(f.h, 16, f.h.sizeStruct) {
      return ERR_BADLAYOUT;
    }
    ghost var v := f.View();
    var end := NodeEndOffset(f.View(), node);
    if v.IsNode(node) {
      NodeInside(v, node);
      InPropsStart(v, node);
    }
    if end < 0 {
      return end;
    }
    err := CutStruct(f, node, end - node);
    NodeDeleted(v, f.View(), node);
  }

  /** Bytes taken out of the structure block. */
  method CutStruct(f: Fdt, off: nat, n: nat) returns (err: int)
    requires f.Ready() && off + n <= f.h.sizeStruct
    modifies f, f.buf
    ensures err == 0 && f.Ready() && f.h == Grown(old(f.h), n, 0) && f.View().Strings() == old(f.View()).Strings()
    ensures f.View().Struct() == old(f.View()).Struct()[..off] + old(f.View()).Struct()[off + n..]
  {
    ghost var s := f.View().Struct();
    OrderedSize(f.h);
    err := SpliceStruct(f, off, n, 0);
    SpliceCut(s, f.View().Struct(), off, n);
  }

  lemma SpliceCut(s: seq<byte>, s': seq<byte>, off: nat, n: nat)
    requires off + n <= |s| && off <= |s'|
    requires s'[..off] == s[..off] && s'[off..] == s[off + n..]
    ensures s' == s[..off] + s[off + n..]
  {
    assert s' == s'[..off] + s'[off..];
  }

  /** The loop of fdt_add_subnode_namelen() over properties and NOPs. */
  method SkipLead(b: Blob, start: nat) returns (r: int)
    requires b.Fits() && IsInt(start)
    ensures b.Tree().Some? && At(b.Tree().value, start).Some? ==> r == start + LeadLen(At(b.Tree().value, start).value)
  {
    hide Scan, TreeOf, At, TagAt, TSize, Len, LeadLen;
    ghost var ok := b.Tree().Some? && At(b.Tree().value, start).Some?;
    ghost var w0 := if ok then At(b.Tree().value, start).value else Leaf;
    ghost var w := w0;
    var next: int := start;
    while true
      invariant IsInt(next) && start <= next
      invariant ok ==> At(b.Tree().value, next) == Some(w) && next + LeadLen(w) == start + LeadLen(w0)
      decreases b.h.sizeStruct + 3 - next
    {
      r := next;
      var tag;
      tag, next := NextTag(b, r);
      if ok {
        TagAtTree(b, r, w);
        LeadStep(w);
      }
      if tag != FDT_PROP && tag != FDT_NOP {
        return;
      }
      if ok {
        w := w.rest;
      }
    }
  }

  lemma LeadStep(t: Tree)
    ensures LeadLen(t) == match t
                          case NopT(r) => 4 + LeadLen(r)
                          case PropT(n, v, r) => Len(Prop(n, v)) + LeadLen(r)
                          case _ => 0
  {
  }

  lemma DecNodeBytes(st: Strs, name: seq<byte>)
    requires 0 !in name
    ensures Dec(NodeBytes(name), st, [Begin(name), End])
  {
    var n := Align4(|name| + 1);
    var y := Enc32(FDT_BEGIN_NODE) + (name + Zeros(n - |name|));
    assert y[4..4 + |name|] == name;
    assert Load32(y, 0) == Load32(Enc32(FDT_BEGIN_NODE), 0);
    DecBegin(y, st, name);
    DecOne(Enc32(FDT_END_NODE), st, End);
    DecAppend(y, Enc32(FDT_END_NODE), st, [Begin(name)], [End]);
    assert [Begin(name)] + [End] == [Begin(name), End];
  }

  /** Where a new subnode goes. */
  function NewKidOff(x: Tree, parent: int): int
    requires x.NodeT?
  {
    parent + HLen(x.name) + LeadLen(x.kids)
  }

  /** The new node's bytes behind the properties add it to the tree. */
  lemma NodeAdded(v: Blob, v': Blob, parent: int, name: seq<byte>)
    requires v.Fits() && v'.Fits() && v.IsNode(parent) && v'.Strings() == v.Strings() && 0 !in name
    ensures 0 <= NewKidOff(v.Node(parent), parent) <= v.h.sizeStruct
    ensures var (x, o) := (v.Node(parent), NewKidOff(v.Node(parent), parent));
            v'.Struct() == v.Struct()[..o] + NodeBytes(name) + v.Struct()[o..] ==>
              v'.Tree() == Some(Put(v.Tree().value, parent, NodeT(x.name, AddKid(x.kids, name), x.rest)))
  {
    hide Scan, TreeOf, At, Dec, Extends, Put, TSize, HLen, NodeBytes, AddKid;
    var x, o := v.Node(parent), NewKidOff(v.Node(parent), parent);
    AddKidAt(x.kids, name);
    var w := At(x.kids, LeadLen(x.kids)).value;
    PutKids(v.Tree().value, parent, x, LeadLen(x.kids), NodeT(name, Leaf, w));
    AtBound(v.Tree().value, parent);
    ExtendsSelf(v.Strings());
    DecNodeBytes(v.Strings(), name);
    assert Flat(NodeT(name, Leaf, w)) == [Begin(name), End] + Flat(w);
    assert Size([]) == 0 && Flat(w) == [] + Flat(w);
    SpliceBlob(v, v', o, NodeT(name, Leaf, w), [], [Begin(name), End], Flat(w), NodeBytes(name));
  }

  /** The splice and the stores of fdt_add_subnode_namelen(). */
  method InsertNode(f: Fdt, off: nat, name: seq<byte>) returns (err: int)
    requires f.Ready() && off <= f.h.sizeStruct && |name| + 64 <= INT_MAX
    modifies f, f.buf
    ensures f.Ready()
    ensures err == if DataSize(old(f.h)) + 8 + Align4(|name| + 1) <= old(f.h).totalsize then 0 else ERR_NOSPACE
    ensures err != 0 ==> f.View() == old(f.View())
    ensures err == 0 ==>
              f.h == Grown(old(f.h), 0, 8 + Align4(|name| + 1)) && f.View().Strings() == old(f.View()).Strings()
              && f.View().Struct() == old(f.View()).Struct()[..off] + NodeBytes(name) + old(f.View()).Struct()[off..]
  {
    hide Over, Align4, NodeBytes, Ordered;
    err := SpliceStruct(f, off, 0, 8 + Align4(|name| + 1));
    if err == 0 {
      ghost var s, s' := old(f.View()).Struct(), f.View().Struct();
      StoreNode(f, off, name);
      OverGap(s, s', off, 0, |NodeBytes(name)|, NodeBytes(name));
      assert NodeBytes(name) + [] == NodeBytes(name);
    }
  }

  /** fdt_add_subnode() */
  method AddSubnode(f: Fdt, parent: int, name: seq<byte>) returns (r: int)
    requires f.View().Fits() && NodeArg(f.View(), parent)
    requires 0 !in name && |name| + 64 <= INT_MAX
    modifies f, f.buf
    ensures f.View().Fits()
    ensures IsInt(r) && (r < 0 ==> f.View() == old(f.View()))
    ensures r >= 0 ==> old(f.View()).IsNode(parent) && Ordered(old(f.h)) && Ordered(f.h)
    ensures Ordered(old(f.h)) && old(f.View()).IsNode(parent) ==>
              var v := old(f.View());
              var x := v.Node(parent);
              r == (if FindKid(parent + HLen(x.name), x.kids, Some(name)).Some? then ERR_EXISTS
                    else if DataSize(v.h) + 8 + Align4(|name| + 1) > v.h.totalsize then ERR_NOSPACE
                    else NewKidOff(x, parent))
    ensures r >= 0 ==>
              var v := old(f.View());
              var x := v.Node(parent);
              0 <= r <= v.h.sizeStruct
              && f.View().Tree() == Some(Put(v.Tree().value, parent, NodeT(x.name, AddKid(x.kids, name), x.rest)))
              && f.View().Strings() == v.Strings() && f.h == Grown(v.h, 0, 8 + Align4(|name| + 1))
              && f.View().Struct() == v.Struct()[..r] + NodeBytes(name) + v.Struct()[r..]
  {
    hide Scan, TreeOf, At, Dec, Flat, Extends, Put, TSize, HLen, TagAt, FindKid, NodeBytes, AddKid, Over, LeadLen;
    OrderedExactly(f.View());
    if BlocksMisordered(f.h, 16, f.h.sizeStruct) {
      return ERR_BADLAYOUT;
    }
    ghost var v := f.View();
    if v.IsNode(parent) {
      InPropsStart(v, parent);
    }
    r := SubnodeOffset(f.View(), parent, name);
    if r >= 0 {
      return ERR_EXISTS;
    } else if r != ERR_NOTFOUND {
      return;
    }
    var tag, next := NextTag(f.View(), parent);
    TagLt(v.Struct(), parent);
    if tag != FDT_BEGIN_NODE {
      return ERR_INTERNAL;
    }
    NodeAdded(v, v, parent, name);
    AtNext(v.Tree().value, parent, v.Node(parent));
    r := SkipLead(f.View(), next);
    var err := InsertNode(f, r, name);
    if err != 0 {
      return err;
    }
    NodeAdded(v, f.View(), parent, name);
  }
}

/** Setting a property (fdt_rw.c): fdt_setprop_namelen() with the whole name. */
module FdtSetprop {
  import opened Options
  import opened FdtTokens
  import opened FdtTree
  import opened FdtBlob
  import opened FdtWalk
  import opened FdtRo
  import opened FdtProps
  import opened FdtEdit
  import opened FdtRw

  // ----- property names in the string table -----

  predicate StrHere(tab: seq<byte>, p: nat, s: seq<byte>) {
    p + |s| < |tab| && tab[p..p + |s|] == s && tab[p + |s|] == 0
  }

  /** fdt_find_string_len_() */
  method FindString(tab: seq<byte>, s: seq<byte>) returns (p: Option<nat>)
    ensures p.Some? ==> StrHere(tab, p.value, s)
    ensures p.None? ==> forall q: nat :: !StrHere(tab, q, s)
  {
    var q := 0;
    while q <= |tab| - (|s| + 1)
      invariant forall i: nat :: i < q ==> !StrHere(tab, i, s)
    {
      if tab[q..q + |s|] == s && tab[q + |s|] == 0 {
        return Some(q);
      }
      q := q + 1;
    }
    p := None;
  }

  lemma StrHereAt(tab: seq<byte>, p: nat, s: seq<byte>)
    requires StrHere(tab, p, s) && 0 !in s && |tab| <= INT_MAX
    ensures Name(Strs(tab, 0), p) == Some(s)
  {
    assert forall i :: p <= i < p + |s| ==> tab[i] == s[i - p];
    assert NulFrom(tab, p) == p + |s|;
  }

  /** The string is in the table, whatever was there before it. */
  ghost predicate HasString(v: Blob, name: seq<byte>)
    requires v.Fits()
  {
    exists q: nat :: StrHere(v.Strings().tab, q, name)
  }

  /** Bytes the name needs in the string table. */
  ghost function StrNeed(v: Blob, name: seq<byte>): nat
    requires v.Fits()
  {
    if HasString(v, name) then 0 else |name| + 1
  }

  /** A name that is in the table as a terminated string, were it the end of a longer one, is not added again. */
  lemma NameReused(v: Blob, name: seq<byte>, a: seq<byte>, z: seq<byte>)
    requires v.Fits() && v.Strings().tab == a + (name + [0]) + z
    ensures StrNeed(v, name) == 0
  {
    var tab := v.Strings().tab;
    assert tab[|a|..|a| + |name|] == name && tab[|a| + |name|] == 0;
    assert StrHere(tab, |a|, name);
  }

  lemma AppendStr(v: Blob, v': Blob, name: seq<byte>)
    requires v.Fits() && Ordered(v.h) && DataSize(v.h) + |name| + 1 <= v.h.totalsize
    requires v'.h == v.h.(sizeStrings := v.h.sizeStrings + |name| + 1)
    requires v'.mem == Over(v.mem, DataSize(v.h), name + [0])
    ensures v'.Fits() && Ordered(v'.h) && v'.Struct() == v.Struct()
    ensures v'.Strings() == Strs(v.Strings().tab + (name + [0]), 0)
  {
    var e, h := DataSize(v.h), v.h;
    hide Over;
    OverBefore(v.mem, e, name + [0], h.offStruct, h.offStruct + h.sizeStruct);
    OverBefore(v.mem, e, name + [0], h.offStrings, e);
    OverInside(v.mem, e, name + [0], e, e + |name| + 1);
    assert v'.mem[h.offStrings..e + |name| + 1] == v'.mem[h.offStrings..e] + v'.mem[e..e + |name| + 1];
  }

  lemma NewStrHere(tab: seq<byte>, name: seq<byte>)
    ensures StrHere(tab + (name + [0]), |tab|, name)
  {
    var t := tab + (name + [0]);
    assert t[|tab|..|tab| + |name|] == name;
  }

  /** fdt_find_add_string_() */
  method FindAddString(f: Fdt, name: seq<byte>) returns (r: int, added: bool)
    requires f.Ready() && 0 !in name && |name| + 64 <= INT_MAX
    modifies f, f.buf
    ensures f.Ready() && f.View().Struct() == old(f.View()).Struct()
    ensures r >= 0 || r == ERR_NOSPACE
    ensures r >= 0 <==> DataSize(old(f.h)) + StrNeed(old(f.View()), name) <= f.h.totalsize
    ensures r < 0 || !added ==> f.View() == old(f.View())
    ensures r >= 0 ==> r < TWO32 && Name(f.View().Strings(), r) == Some(name)
                       && Extends(old(f.View()).Strings(), f.View().Strings())
    ensures r >= 0 && added ==>
              !HasString(old(f.View()), name)
              && f.h == old(f.h).(sizeStrings := old(f.h).sizeStrings + |name| + 1)
              && f.View().Strings().tab == old(f.View()).Strings().tab + (name + [0])
    ensures r >= 0 && !added ==> HasString(old(f.View()), name)
    ensures f.h.totalsize == old(f.h).totalsize
  {
    hide Over, Extends, Name;
    ghost var v := f.View();
    OrderedSize(f.h);
    added := false;
    var p := FindString(f.View().Strings().tab, name);
    if p.Some? {
      StrHereAt(v.Strings().tab, p.value, name);
      ExtendsSelf(v.Strings());
      return p.value, false;
    }
    var end := DataSize(f.h);
    r := f.h.sizeStrings;
    var err := Splice(f, end, 0, |name| + 1);
    if err != 0 {
      return err, false;
    }
    MoveNothing(v.mem, end, |name| + 1);
    f.h := f.h.(sizeStrings := f.h.sizeStrings + |name| + 1);
    added := true;
    Memcpy(f.buf, end, name + [0]);
    AppendStr(v, f.View(), name);
    AppendExtends(v.Strings().tab, name + [0]);
    NewStrHere(v.Strings().tab, name);
    StrHereAt(f.View().Strings().tab, r, name);
  }

  lemma MoveNothing(m: seq<byte>, end: nat, n: nat)
    requires end + n <= |m|
    ensures m[end..end] == [] && Over(m, end + n, m[end..end]) == m
  {
  }

  // ----- the property without its value yet -----

  /** Between `v` and `v'`, `oldsz` bytes at `po` were replaced by a property of that name and
      length whose value is still to be written. */
  ghost predicate Hole(v: Blob, v': Blob, po: int, oldsz: nat, name: seq<byte>, len: nat) {
    v.Fits() && v'.Fits() && Ordered(v'.h)
    && var (s, s', n) := (v.Struct(), v'.Struct(), 12 + Align4(len));
       0 <= po && po + oldsz <= |s| && po + n <= |s'|
       && s'[..po] == s[..po] && s'[po + n..] == s[po + oldsz..]
       && Load32(s', po) == FDT_PROP && Load32(s', po + 4) == len
       && Name(v'.Strings(), Load32(s', po + 8)) == Some(name) && Extends(v.Strings(), v'.Strings())
  }

  /** A cell inside a stored string. */
  lemma OverLoad(s: seq<byte>, o: nat, x: seq<byte>, i: nat)
    requires o + |x| <= |s| && i + 4 <= |s|
    ensures i + 4 <= o || o + |x| <= i ==> Load32(Over(s, o, x), i) == Load32(s, i)
    ensures o <= i && i + 4 <= o + |x| ==> Load32(Over(s, o, x), i) == Load32(x, i - o)
  {
  }

  lemma SliceLoad(s: seq<byte>, a: nat, b: nat, i: nat)
    requires a <= b <= |s| && i + 4 <= b - a
    ensures Load32(s[a..b], i) == Load32(s, a + i)
  {
  }

  /** The bytes of the finished property. */
  lemma HoleFilled(v: Blob, v1: Blob, v2: Blob, po: int, oldsz: nat, name: seq<byte>, val: seq<byte>)
    returns (x: seq<byte>)
    requires Hole(v, v1, po, oldsz, name, |val|) && v2.Fits() && v2.Strings() == v1.Strings()
    requires v2.Struct() == Over(v1.Struct(), po + 12, val)
    ensures v2.Struct() == v.Struct()[..po] + x + v.Struct()[po + oldsz..]
    ensures Dec(x, v2.Strings(), [Prop(name, val)])
  {
    hide Name, Extends, Load32, Align4, Dec, Over, Blob.Strings, Ordered;
    var s, t, n := v1.Struct(), v2.Struct(), 12 + Align4(|val|);
    x := t[po..po + n];
    OverWithin(s, po + 12, val, po, n);
    assert x[12..12 + |val|]
           == val by { SubSlice(t, po, po + n, 12, 12 + |val|); HideOver(s, po + 12, val, po + 12, po + 12 + |val|); }
    OverLoad(s, po + 12, val, po);
    OverLoad(s, po + 12, val, po + 4);
    OverLoad(s, po + 12, val, po + 8);
    SliceLoad(t, po, po + n, 0);
    SliceLoad(t, po, po + n, 4);
    SliceLoad(t, po, po + n, 8);
    DecProp(x, v2.Strings(), Load32(x, 8), name, val);
  }

  /** A store leaves everything outside a stretch that holds it. */
  lemma OverWithin(s: seq<byte>, o: nat, x: seq<byte>, a: nat, n: nat)
    requires a <= o && o + |x| <= a + n <= |s|
    ensures var t := Over(s, o, x); |t| == |s| && t == s[..a] + t[a..a + n] + s[a + n..]
  {
  }

  /** The three slice facts of a store. */
  lemma HideOver(s: seq<byte>, o: nat, x: seq<byte>, i: nat, j: nat)
    requires o + |x| <= |s| && i <= j <= |s|
    ensures j <= o || o + |x| <= i ==> Over(s, o, x)[i..j] == s[i..j]
    ensures i == o && j == o + |x| ==> Over(s, o, x)[i..j] == x
  {
    if j <= o {
      OverBefore(s, o, x, i, j);
    } else if o + |x| <= i {
      OverAfter(s, o, x, i, j);
    } else if i == o && j == o + |x| {
      OverInside(s, o, x, i, j);
    }
  }

  /** Offset of the property a node already has under that name. */
  ghost function OldProp(v: Blob, node: int, name: seq<byte>): Option<int>
    requires v.Readable() && v.IsNode(node)
  {
    FindProp(node + HLen(v.Node(node).name), v.Node(node).kids, name)
  }

  /** That property in the tree and in the bytes. */
  lemma OldPropAt(v: Blob, node: int, name: seq<byte>, val: seq<byte>)
    requires v.Readable() && v.IsNode(node) && OldProp(v, node, name).Some?
    ensures var po := OldProp(v, node, name).value;
            var x := v.Node(node);
            IsProp(v, po) && PropAt(v, po).name == name && HasProp(x.kids, name)
            && Put(v.Tree().value, po, PropT(name, val, PropAt(v, po).rest))
               == Put(v.Tree().value, node, NodeT(x.name, SetFirst(x.kids, name, val), x.rest))
            && PropBytes(v.Struct(), v.Strings(), po, name, PropAt(v, po).val)
            && po + 12 + Align4(|PropAt(v, po).val|) <= v.h.StructSize()
  {
    hide Scan, TreeOf, At, Put, TSize, HLen, Len, Name, Load32, HasProp, SetFirst, FindProp;
    var x, t := v.Node(node), v.Tree().value;
    var h := node + HLen(x.name);
    FindPropEdit(h, x.kids, name, val);
    var o := OldProp(v, node, name).value - h;
    var w := At(x.kids, o).value;
    PutKids(t, node, x, o, PropT(name, val, w.rest));
    AtBound(t, node);
    AtBound(x.kids, o);
    SizeStep(x);
    PropBytesAt(v, h + o, w);
    PropInside(v, h + o, w);
  }

  lemma PropInside(v: Blob, po: int, w: Tree)
    requires v.Readable() && v.Tree().Some? && At(v.Tree().value, po) == Some(w) && w.PropT?
    ensures po + 12 + Align4(|w.val|) <= v.h.StructSize()
  {
    hide Scan, TreeOf, At, TSize, Size, Dec, Extends, Put;
    AtBound(v.Tree().value, po);
    ExtendsSelf(v.Strings());
    DecEmpty(v.Strings());
    SizeOne(Prop(w.name, w.val));
    assert Flat(w.rest) == [] + Flat(w.rest);
    SpliceBlob(v, v, po, w.rest, [Prop(w.name, w.val)], [], Flat(w.rest), []);
  }

  /** fdt_resize_property_() */
  method ResizeProperty(f: Fdt, node: int, name: seq<byte>, len: nat) returns (err: int, po: int)
    requires f.Ready() && NodeArg(f.View(), node) && len + 64 <= INT_MAX
    modifies f, f.buf
    ensures f.Ready()
    ensures err != 0 ==> f.View() == old(f.View())
    ensures Rejected(old(f.View()), node) ==> err == ERR_BADOFFSET
    ensures old(f.View()).IsNode(node) ==>
              var v := old(f.View());
              var p := OldProp(v, node, name);
              if p.None? then err == ERR_NOTFOUND
              else
                IsProp(v, p.value)
                && var n := Align4(|PropAt(v, p.value).val|);
                   err == (if DataSize(v.h) - n + Align4(len) <= v.h.totalsize then 0 else ERR_NOSPACE)
                   && (err == 0 ==> po == p.value && n <= v.h.sizeStruct && f.h == Grown(v.h, n, Align4(len))
                                    && Hole(v, f.View(), po, 12 + n, name, len))
    ensures err == 0 ==> old(f.View()).IsNode(node)
    ensures f.h.totalsize == old(f.h).totalsize
  {
    hide Scan, TreeOf, At, Put, TSize, HLen, Len, Name, Load32, FindProp, TagAt, Extends, Over, Align4, Hole, PropBytes;
    ghost var v := f.View();
    po := GetProperty(f.View(), node, name);
    if v.IsNode(node) {
      InPropsStart(v, node);
    }
    if po < 0 {
      return po, po;
    }
    OldPropAt(v, node, name, []);
    err := ResizeAt(f, po, len, name, PropAt(v, po).val);
  }

  /** The splice and the store of fdt_resize_property_(). */
  method ResizeAt(f: Fdt, po: nat, len: nat, ghost name: seq<byte>, ghost val: seq<byte>) returns (err: int)
    requires f.Ready() && len + 64 <= INT_MAX
    requires PropBytes(f.View().Struct(), f.View().Strings(), po, name, val)
    requires po + 12 + Align4(|val|) <= f.h.sizeStruct
    modifies f, f.buf
    ensures f.Ready()
    ensures err != 0 ==> f.View() == old(f.View())
    ensures err == if DataSize(old(f.h)) - Align4(|val|) + Align4(len) <= old(f.h).totalsize then 0 else ERR_NOSPACE
    ensures err == 0 ==> f.h == Grown(old(f.h), Align4(|val|), Align4(len))
    ensures err == 0 ==> Hole(old(f.View()), f.View(), po, 12 + Align4(|val|), name, len)
    ensures f.h.totalsize == old(f.h).totalsize
  {
    hide Name, Load32, Extends, Over, Align4, Hole, Enc32;
    ghost var v := f.View();
    var oldlen := f.View().Ld32(f.h.offStruct + po + 4);
    ghost var s;
    err, s := OpenValue(f, po, oldlen, len);
    if err != 0 {
      return;
    }
    ResizeHole(v, f.View(), s, po, name, val, len);
  }

  /** Room for a value of another length, and the length in the header; `s1` is the block in between. */
  method OpenValue(f: Fdt, po: nat, oldlen: nat, len: nat) returns (err: int, ghost s1: seq<byte>)
    requires f.Ready() && po + 12 + Align4(oldlen) <= f.h.sizeStruct && len + 64 <= INT_MAX
    modifies f, f.buf
    ensures f.Ready() && (err != 0 ==> f.View() == old(f.View()))
    ensures err == if DataSize(old(f.h)) - Align4(oldlen) + Align4(len) <= old(f.h).totalsize then 0 else ERR_NOSPACE
    ensures err == 0 ==> f.h == Grown(old(f.h), Align4(oldlen), Align4(len))
    ensures err == 0 ==>
              var (s, p, n, m) := (old(f.View()).Struct(), po + 12, Align4(oldlen), Align4(len));
              p + m <= |s1| && s1[..p] == s[..p] && s1[p + m..] == s[p + n..]
              && f.View().Struct() == Over(s1, po + 4, Enc32(len)) && f.View().Strings() == old(f.View()).Strings()
    ensures f.h.totalsize == old(f.h).totalsize
  {
    hide Over, Align4, Enc32, Ordered, Blob.Strings;
    OrderedSize(f.h);
    s1 := [];
    err := SpliceStruct(f, po + 12, Align4(oldlen), Align4(len));
    if err != 0 {
      return;
    }
    s1 := f.View().Struct();
    StoreStruct(f, po + 4, Enc32(len));
  }

  lemma ResizeHole(v: Blob, v': Blob, s1: seq<byte>, po: nat, name: seq<byte>, val: seq<byte>, len: nat)
    requires v.Fits() && v'.Fits() && Ordered(v'.h) && len < TWO32 && v'.Strings() == v.Strings()
    requires PropBytes(v.Struct(), v.Strings(), po, name, val)
    requires var n := 12 + Align4(|val|);
             po + n <= |v.Struct()| && po + 12 + Align4(len) <= |s1|
             && s1[..po + 12] == v.Struct()[..po + 12] && s1[po + 12 + Align4(len)..] == v.Struct()[po + n..]
             && v'.Struct() == Over(s1, po + 4, Enc32(len))
    ensures Hole(v, v', po, 12 + Align4(|val|), name, len)
  {
    hide Name, Extends, Load32, Over, Align4, Enc32;
    var s := v.Struct();
    ExtendsSelf(v.Strings());
    OverLoad(s1, po + 4, Enc32(len), po);
    OverLoad(s1, po + 4, Enc32(len), po + 4);
    OverLoad(s1, po + 4, Enc32(len), po + 8);
    SliceLoad(s, 0, po + 12, po);
    SliceLoad(s, 0, po + 12, po + 8);
    SliceLoad(s1, 0, po + 12, po);
    SliceLoad(s1, 0, po + 12, po + 8);
    HideOver(s1, po + 4, Enc32(len), 0, po);
    assert s1[..po] == s1[..po + 12][..po] == s[..po];
    var e, t := po + 12 + Align4(len), v'.Struct();
    HideOver(s1, po + 4, Enc32(len), e, |s1|);
    assert t[e..] == t[e..|s1|] && s1[e..] == s1[e..|s1|];
  }

  /** The same blob, except perhaps for bytes behind its data. */
  ghost predicate Same(v: Blob, v': Blob) {
    v.Fits() && v'.Fits() && v'.h == v.h && v'.Struct() == v.Struct() && v'.Strings() == v.Strings()
  }

  lemma AddHole(v: Blob, v1: Blob, v': Blob, s1: seq<byte>, po: nat, name: seq<byte>, nameoff: nat, len: nat)
    requires v.Fits() && v1.Fits() && v'.Fits() && Ordered(v'.h) && len < TWO32 && nameoff < TWO32
    requires v1.Struct() == v.Struct() && v'.Strings() == v1.Strings() && Extends(v.Strings(), v1.Strings())
    requires Name(v1.Strings(), nameoff) == Some(name)
    requires var n := 12 + Align4(len);
             po <= |v.Struct()| && po + n <= |s1|
             && s1[..po] == v.Struct()[..po] && s1[po + n..] == v.Struct()[po..]
             && v'.Struct() == Over(s1, po, PropHeader(nameoff, len))
    ensures Hole(v, v', po, 0, name, len)
  {
    hide Name, Extends, Load32, Over, Align4, Enc32;
    var x, n, t := PropHeader(nameoff, len), 12 + Align4(len), v'.Struct();
    OverLoad(s1, po, x, po);
    OverLoad(s1, po, x, po + 4);
    OverLoad(s1, po, x, po + 8);
    HeaderCells(nameoff, len);
    HideOver(s1, po, x, 0, po);
    HideOver(s1, po, x, po + n, |s1|);
    assert t[po + n..] == t[po + n..|s1|] && s1[po + n..] == s1[po + n..|s1|];
  }

  lemma HeaderCells(nameoff: nat, len: nat)
    requires nameoff < TWO32 && len < TWO32
    ensures var x := PropHeader(nameoff, len);
            Load32(x, 0) == FDT_PROP && Load32(x, 4) == len && Load32(x, 8) == nameoff
  {
    hide Enc32;
    var a, b, c := Enc32(FDT_PROP), Enc32(len), Enc32(nameoff);
    var x := a + b + c;
    assert Load32(x, 0) == Load32(a, 0) && Load32(x, 4) == Load32(b, 0) && Load32(x, 8) == Load32(c, 0);
  }

  /** Dropping the string just added. */
  lemma Rollback(v: Blob, v1: Blob, v': Blob, name: seq<byte>)
    requires v.Fits() && v1.Fits() && v1.Struct() == v.Struct()
    requires v1.h == v.h.(sizeStrings := v.h.sizeStrings + |name| + 1)
    requires v1.Strings().tab == v.Strings().tab + (name + [0])
    requires v'.h == v.h && v'.mem == v1.mem
    ensures Same(v, v')
  {
    var a, e := v.h.offStrings, DataSize(v.h);
    SubSlice(v1.mem, a, e + |name| + 1, 0, e - a);
    assert v'.Strings().tab == v1.Strings().tab[..e - a] == v.Strings().tab;
  }

  /** fdt_del_last_string_() */
  method UndoString(f: Fdt, name: seq<byte>, ghost v: Blob, ghost v1: Blob)
    requires v.Fits() && v1.Fits() && v1.Struct() == v.Struct() && f.View() == v1
    requires v1.h == v.h.(sizeStrings := v.h.sizeStrings + |name| + 1)
             && v1.Strings().tab == v.Strings().tab + (name + [0])
    modifies f
    ensures Same(v, f.View())
  {
    f.h := f.h.(sizeStrings := f.h.sizeStrings - (|name| + 1));
    Rollback(v, v1, f.View(), name);
  }

  /** fdt_add_property_() behind its offset check: name, room, header, or everything undone. */
  method AddPropertyAt(f: Fdt, po: nat, name: seq<byte>, len: nat) returns (err: int)
    requires f.Ready() && po <= f.h.sizeStruct
    requires 0 !in name && |name| + len + 64 <= INT_MAX
    modifies f, f.buf
    ensures f.Ready()
    ensures err != 0 ==> Same(old(f.View()), f.View())
    ensures var v := old(f.View());
            err == (if DataSize(v.h) + StrNeed(v, name) + 12 + Align4(len) <= v.h.totalsize then 0 else ERR_NOSPACE)
    ensures err == 0 ==> Hole(old(f.View()), f.View(), po, 0, name, len)
    ensures err == 0 ==> DataSize(f.h) == DataSize(old(f.h)) + StrNeed(old(f.View()), name) + 12 + Align4(len)
    ensures f.h.totalsize == old(f.h).totalsize
  {
    hide Name, Extends, Over, Align4, Hole, HasString, Enc32;
    ghost var v := f.View();
    var nameoff, added := FindAddString(f, name);
    if nameoff < 0 {
      return nameoff;
    }
    err := InsertProperty(f, po, nameoff, added, name, len, v);
  }

  /** Room and header of a property whose name is in the strings block; its name goes if there is no room. */
  method InsertProperty(f: Fdt, po: nat, nameoff: nat, added: bool, name: seq<byte>, len: nat, ghost v: Blob)
    returns (err: int)
    requires f.Ready() && po <= f.h.sizeStruct && |name| + len + 64 <= INT_MAX && v.Fits() && Ordered(v.h)
    requires f.View().Struct() == v.Struct() && nameoff < TWO32 && Name(f.View().Strings(), nameoff) == Some(name)
    requires Extends(v.Strings(), f.View().Strings())
    requires if added then f.h == v.h.(sizeStrings := v.h.sizeStrings + |name| + 1)
             && f.View().Strings().tab == v.Strings().tab + (name + [0])
             else f.View() == v
    modifies f, f.buf
    ensures f.Ready() && (err != 0 ==> Same(v, f.View()))
    ensures err == if DataSize(old(f.h)) + 12 + Align4(len) <= old(f.h).totalsize then 0 else ERR_NOSPACE
    ensures err == 0 ==> Hole(v, f.View(), po, 0, name, len) && DataSize(f.h) == DataSize(old(f.h)) + 12 + Align4(len)
    ensures f.h.totalsize == old(f.h).totalsize
  {
    hide Name, Extends, Over, Align4, Hole, Enc32, Blob.Strings, PropHeader, Ordered;
    ghost var v1, s1 := f.View(), [];
    err, s1 := OpenProperty(f, po, nameoff, len);
    if err != 0 {
      if added {
        UndoString(f, name, v, v1);
      }
      return;
    }
    AddHole(v, v1, f.View(), s1, po, name, nameoff, len);
  }

  /** Room for a property, and its header in it; `s1` is the block before the header is written. */
  method OpenProperty(f: Fdt, po: nat, nameoff: nat, len: nat) returns (err: int, ghost s1: seq<byte>)
    requires f.Ready() && po <= f.h.sizeStruct && len + 64 <= INT_MAX && nameoff < TWO32
    modifies f, f.buf
    ensures f.Ready() && (err != 0 ==> f.View() == old(f.View()))
    ensures err == if DataSize(old(f.h)) + 12 + Align4(len) <= old(f.h).totalsize then 0 else ERR_NOSPACE
    ensures err == 0 ==>
              var (s, n) := (old(f.View()).Struct(), 12 + Align4(len));
              po + n <= |s1| && s1[..po] == s[..po] && s1[po + n..] == s[po..]
                && f.View().Struct() == Over(s1, po, PropHeader(nameoff, len))
              && f.View().Strings() == old(f.View()).Strings() && DataSize(f.h) == DataSize(old(f.h)) + n
    ensures f.h.totalsize == old(f.h).totalsize
  {
    hide Over, Align4, Enc32, Ordered, Blob.Strings;
    OrderedSize(f.h);
    s1 := [];
    err := SpliceStruct(f, po, 0, 12 + Align4(len));
    if err != 0 {
      return;
    }
    s1 := f.View().Struct();
    StorePropHeader(f, po, nameoff, len);
  }

  /** fdt_add_property_() */
  method AddProperty(f: Fdt, node: int, name: seq<byte>, len: nat) returns (err: int, po: int)
    requires f.Ready() && NodeArg(f.View(), node)
    requires 0 !in name && |name| + len + 64 <= INT_MAX
    modifies f, f.buf
    ensures f.Ready()
    ensures err != 0 ==> Same(old(f.View()), f.View())
    ensures Rejected(old(f.View()), node) ==> err == ERR_BADOFFSET
    ensures old(f.View()).IsNode(node) ==>
              var v := old(f.View());
              err == (if DataSize(v.h) + StrNeed(v, name) + 12 + Align4(len) <= v.h.totalsize then 0 else ERR_NOSPACE)
    ensures err == 0 ==>
              var v := old(f.View());
              v.IsNode(node) && po == node + HLen(v.Node(node).name) && Hole(v, f.View(), po, 0, name, len)
              && DataSize(f.h) == DataSize(v.h) + StrNeed(v, name) + 12 + Align4(len)
    ensures f.h.totalsize == old(f.h).totalsize
  {
    hide Scan, TreeOf, At, TSize, HLen, Name, TagAt, Extends, Over, Align4, Hole, HasString, Ordered;
    ghost var v := f.View();
    if v.IsNode(node) {
      InPropsStart(v, node);
      NodeInside(v, node);
    }
    po := CheckNodeOffset(f.View(), node);
    if po < 0 {
      return po, po;
    }
    err := AddPropertyAt(f, po, name, len);
  }

  /** Where the property is or will be, and how many bytes it has there already. */
  ghost function PropPos(v: Blob, node: int, name: seq<byte>): int
    requires v.Fits() && v.IsNode(node)
  {
    var p := OldProp(v, node, name);
    if p.None? then node + HLen(v.Node(node).name) else p.value
  }

  ghost function OldSize(v: Blob, node: int, name: seq<byte>): nat
    requires v.Fits() && v.IsNode(node)
  {
    var p := OldProp(v, node, name);
    if p.None? || !IsProp(v, p.value) then 0 else 12 + Align4(|PropAt(v, p.value).val|)
  }

  /** Bytes the blob grows by when the property is set. */
  ghost function SetNeed(v: Blob, node: int, name: seq<byte>, len: nat): int
    requires v.Fits() && v.IsNode(node)
  {
    12 + Align4(len) - OldSize(v, node, name) + (if OldProp(v, node, name).None? then StrNeed(v, name) else 0)
  }

  lemma HoleRoom(v: Blob, v': Blob, po: int, oldsz: nat, name: seq<byte>, len: nat)
    requires Hole(v, v', po, oldsz, name, len)
    ensures 0 <= po && po + 12 + len <= v'.h.sizeStruct && v'.Fits()
    ensures Over(v'.Struct(), po + 12, []) == v'.Struct()
    ensures Extends(v.Strings(), v'.Strings())
  {
    hide Name, Load32;
  }

  lemma AtZero(t: Tree, u: Tree)
    ensures At(t, 0) == Some(t) && Put(t, 0, u) == u
  {
  }

  /** The bytes of a new property put it first in the node, ... */
  lemma NewPropSet(v: Blob, v2: Blob, node: int, name: seq<byte>, val: seq<byte>, bytes: seq<byte>)
    requires v.Fits() && v.IsNode(node) && v2.Fits() && Extends(v.Strings(), v2.Strings())
    requires Dec(bytes, v2.Strings(), [Prop(name, val)])
    ensures var (x, po) := (v.Node(node), node + HLen(v.Node(node).name));
            0 <= po <= v.h.sizeStruct
            && (v2.Struct() == v.Struct()[..po] + bytes + v.Struct()[po..] ==>
                  v2.Tree() == Some(Put(v.Tree().value, node, NodeT(x.name, PropT(name, val, x.kids), x.rest))))
  {
    hide Scan, TreeOf, At, Put, TSize, HLen, Over, Extends, Dec;
    var x, t := v.Node(node), v.Tree().value;
    AtZero(x.kids, PropT(name, val, x.kids));
    PutKids(t, node, x, 0, PropT(name, val, x.kids));
    AtBound(t, node);
    assert Size([]) == 0 && Flat(x.kids) == [] + Flat(x.kids);
    SpliceBlob(v, v2, node + HLen(x.name), PropT(name, val, x.kids), [], [Prop(name, val)], Flat(x.kids), bytes);
  }

  /** ... those of a resized one change its value. */
  lemma OldPropSet(v: Blob, v2: Blob, node: int, name: seq<byte>, val: seq<byte>, bytes: seq<byte>)
    requires v.Fits() && v.IsNode(node) && v2.Fits() && Extends(v.Strings(), v2.Strings())
    requires OldProp(v, node, name).Some? && Dec(bytes, v2.Strings(), [Prop(name, val)])
    ensures var (x, po, n) := (v.Node(node), PropPos(v, node, name), OldSize(v, node, name));
            0 <= po && po + n <= v.h.sizeStruct
            && (v2.Struct() == v.Struct()[..po] + bytes + v.Struct()[po + n..] ==>
                  v2.Tree() == Some(Put(v.Tree().value, node, NodeT(x.name, SetFirst(x.kids, name, val), x.rest))))
  {
    hide Scan, TreeOf, At, Put, TSize, HLen, Over, Extends, Dec, SetFirst, HasProp, FindProp, Align4, Name, Load32;
    OldPropAt(v, node, name, val);
    var po := OldProp(v, node, name).value;
    var w := PropAt(v, po);
    SizeOne(Prop(name, w.val));
    SpliceBlob(v, v2, po, PropT(name, val, w.rest), [Prop(name, w.val)], [Prop(name, val)], Flat(w.rest), bytes);
  }

  /** The finished property is the tree edit SetProp. */
  lemma PropSet(v: Blob, v1: Blob, v2: Blob, node: int, name: seq<byte>, val: seq<byte>)
    requires v.Fits() && v.IsNode(node) && Hole(v, v1, PropPos(v, node, name), OldSize(v, node, name), name, |val|)
    requires v2.Fits() && v2.Strings() == v1.Strings()
    requires v2.Struct() == Over(v1.Struct(), PropPos(v, node, name) + 12, val)
    ensures var x := v.Node(node);
            v2.Tree() == Some(Put(v.Tree().value, node, NodeT(x.name, SetProp(x.kids, name, val), x.rest)))
  {
    hide Scan, TreeOf, At, Put, TSize, HLen, Hole, Over, Extends, Dec, SetFirst, HasProp, FindProp, Align4;
    var x := v.Node(node);
    HoleRoom(v, v1, PropPos(v, node, name), OldSize(v, node, name), name, |val|);
    var bytes := HoleFilled(v, v1, v2, PropPos(v, node, name), OldSize(v, node, name), name, val);
    FindPropEdit(node + HLen(x.name), x.kids, name, val);
    if OldProp(v, node, name).None? {
      NewPropSet(v, v2, node, name, val, bytes);
    } else {
      OldPropSet(v, v2, node, name, val, bytes);
    }
  }

  /** fdt_setprop_placeholder_namelen() */
  method SetpropPlaceholder(f: Fdt, node: int, name: seq<byte>, len: nat) returns (err: int, po: int)
    requires f.View().Fits() && NodeArg(f.View(), node)
    requires 0 !in name && |name| + len + 64 <= INT_MAX
    modifies f, f.buf
    ensures f.View().Fits()
    ensures err != 0 ==> err < 0 && Same(old(f.View()), f.View())
    ensures !Ordered(old(f.h)) ==> err == ERR_BADLAYOUT
    ensures Ordered(old(f.h)) && Rejected(old(f.View()), node) ==> err == ERR_BADOFFSET
    ensures Ordered(old(f.h)) && old(f.View()).IsNode(node) ==>
              var v := old(f.View());
              err == if DataSize(v.h) + SetNeed(v, node, name, len) <= v.h.totalsize then 0 else ERR_NOSPACE
    ensures err == 0 ==>
              var v := old(f.View());
              v.IsNode(node) && Ordered(f.h) && DataSize(f.h) == DataSize(v.h) + SetNeed(v, node, name, len)
              && po == PropPos(v, node, name) && Hole(v, f.View(), po, OldSize(v, node, name), name, len)
    ensures f.h.totalsize == old(f.h).totalsize
  {
    hide Scan, TreeOf, At, TSize, HLen, Name, TagAt, Extends, Over, Align4, Hole, HasString, FindProp;
    OrderedExactly(f.View());
    if BlocksMisordered(f.h, 16, f.h.sizeStruct) {
      return ERR_BADLAYOUT, -1;
    }
    ghost var v := f.View();
    if v.IsNode(node) {
      InPropsStart(v, node);
    }
    err, po := ResizeProperty(f, node, name, len);
    if err == ERR_NOTFOUND {
      err, po := AddProperty(f, node, name, len);
    }
  }

  /** fdt_setprop() */
  method Setprop(f: Fdt, node: int, name: seq<byte>, val: seq<byte>) returns (err: int)
    requires f.View().Fits() && NodeArg(f.View(), node)
    requires 0 !in name && |name| + |val| + 64 <= INT_MAX
    modifies f, f.buf
    ensures f.View().Fits()
    ensures err != 0 ==> err < 0 && Same(old(f.View()), f.View())
    ensures !Ordered(old(f.h)) ==> err == ERR_BADLAYOUT
    ensures Ordered(old(f.h)) && Rejected(old(f.View()), node) ==> err == ERR_BADOFFSET
    ensures Ordered(old(f.h)) && old(f.View()).IsNode(node) ==>
              var v := old(f.View());
              err == if DataSize(v.h) + SetNeed(v, node, name, |val|) <= v.h.totalsize then 0 else ERR_NOSPACE
    ensures err == 0 ==>
              var v := old(f.View());
              v.IsNode(node) && Ordered(f.h) && DataSize(f.h) == DataSize(v.h) + SetNeed(v, node, name, |val|)
              && var x := v.Node(node);
                 f.View().Tree() == Some(Put(v.Tree().value, node, NodeT(x.name, SetProp(x.kids, name, val), x.rest)))
    ensures f.h.totalsize == old(f.h).totalsize
  {
    hide Scan, TreeOf, At, TSize, HLen, Name, TagAt, Extends, Over, Align4, Hole, HasString, Put, SetProp, FindProp;
    hide SetNeed, PropPos, OldSize, Blob.Strings, Ordered;
    var po;
    err, po := SetpropPlaceholder(f, node, name, |val|);
    if err != 0 {
      return;
    }
    ghost var v, v1 := old(f.View()), f.View();
    HoleRoom(v, v1, po, OldSize(v, node, name), name, |val|);
    if |val| > 0 {
      StoreStruct(f, po + 12, val);
    }
    PropSet(v, v1, f.View(), node, name, val);
  }
}

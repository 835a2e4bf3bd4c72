/** Property access (fdt_ro.c). */
module FdtProps {
  import opened Options
  import opened FdtTokens
  import opened FdtTree
  import opened FdtBlob
  import opened FdtWalk
  import opened FdtRo

  /** The tag at a location of the tree, and the location it leads to. */
  lemma TagAtTree(b: Blob, off: int, w: Tree)
    requires b.Readable() && b.Tree().Some? && At(b.Tree().value, off) == Some(w)
    ensures 0 <= off < b.h.StructSize() && off % 4 == 0
    ensures var t := b.Tree().value;
            var (tag, next) := TagAt(b.Struct(), off);
            match w
            case NopT(r) => tag == FDT_NOP && next == off + 4 && At(t, next) == Some(r)
            case PropT(n, v, r) => tag == FDT_PROP && next == off + Len(Prop(n, v)) && At(t, next) == Some(r)
            case NodeT(n, k, r) => tag == FDT_BEGIN_NODE && next == off + HLen(n) && At(t, next) == Some(k)
            case Leaf => next == off + 4
                         && (if off == TSize(t) then tag == FDT_END || tag == FDT_END_NODE else tag == FDT_END_NODE)
  {
    hide TagAt, Suffix, Scan, TreeOf, Len, At, Flat, TSize;
    SmallTokens();
    var s, st, t := b.Struct(), b.Strings(), b.Tree().value;
    var ts := Scan(s, st).value;
    var post := AtSuffix(t, off);
    TreeOfFlat(ts, t);
    FirstOf(w, post);
    TagAtSuffix(s, st, ts, off);
    TagLt(s, off);
    AtNext(t, off, w);
    SizeStep(w);
  }

  lemma TagLt(s: seq<byte>, off: int)
    ensures TagAt(s, off).1 >= 0 ==> 0 <= off < |s|
  {
  }

  /** The first token of a level. */
  lemma FirstOf(w: Tree, post: seq<Tok>)
    requires post != []
    ensures var v := Flat(w) + post;
            v != [] && v[0] == match w
                               case Leaf => post[0]
                               case NopT(_) => Nop
                               case PropT(n, v, _) => Prop(n, v)
                               case NodeT(n, _, _) => Begin(n)
  {
  }

  lemma AtNext(t: Tree, off: int, w: Tree)
    requires At(t, off) == Some(w)
    ensures w.NopT? ==> At(t, off + 4) == Some(w.rest)
    ensures w.PropT? ==> At(t, off + Len(Prop(w.name, w.val))) == Some(w.rest)
    ensures w.NodeT? ==> At(t, off + HLen(w.name)) == Some(w.kids)
    ensures w.NodeT? ==> At(t, off + HLen(w.name) + TSize(w.kids) + 4) == Some(w.rest)
  {
    hide Len;
    match w
    case Leaf =>
    case NopT(r) => AtCompose(t, off, w, 4);
    case PropT(n, v, r) => AtCompose(t, off, w, Len(Prop(n, v)));
    case NodeT(n, k, r) =>
      AtCompose(t, off, w, HLen(n));
      AtCompose(t, off, w, HLen(n) + TSize(k) + 4);
  }

  lemma HeadProp(s: seq<byte>, st: Strs, off: nat)
    requires off <= |s| && Head(s[off..], st).Some? && Head(s[off..], st).value.Prop?
    ensures var p := Head(s[off..], st).value;
            off + 12 + |p.val| <= |s| && Load32(s, off) == FDT_PROP && Load32(s, off + 4) == |p.val|
            && Name(st, Load32(s, off + 8)) == Some(p.name) && s[off + 12..off + 12 + |p.val|] == p.val
  {
    hide Name;
    var v := s[off..];
    assert Load32(v, 0) == Load32(s, off) && Load32(v, 4) == Load32(s, off + 4) && Load32(v, 8) == Load32(s, off + 8);
    var n := Load32(v, 4);
    assert v[12..12 + n] == s[off + 12..off + 12 + n];
  }

  /** The bytes of a property: tag, length, name offset, value. */
  ghost predicate PropBytes(s: seq<byte>, st: Strs, off: int, name: seq<byte>, val: seq<byte>) {
    0 <= off && off + 12 + |val| <= |s| && Load32(s, off) == FDT_PROP && Load32(s, off + 4) == |val|
    && Name(st, Load32(s, off + 8)) == Some(name) && s[off + 12..off + 12 + |val|] == val
  }

  lemma PropBytesAt(b: Blob, off: int, w: Tree)
    requires b.Readable() && b.Tree().Some? && At(b.Tree().value, off) == Some(w) && w.PropT?
    ensures PropBytes(b.Struct(), b.Strings(), off, w.name, w.val)
  {
    hide TagAt, Suffix, Scan, TreeOf, Len, At, Flat, TSize, Head, Name, Load32;
    var s, st, t := b.Struct(), b.Strings(), b.Tree().value;
    var ts := Scan(s, st).value;
    var post := AtSuffix(t, off);
    TreeOfFlat(ts, t);
    FirstOf(w, post);
    TagAtSuffix(s, st, ts, off);
    SuffixScan(s, st, ts, off);
    ScanStep(s[off..], st, Flat(w) + post);
    HeadProp(s, st, off);
  }

  // ----- strings -----

  /** A 32-bit cell read into an int. */
  function ToInt(u: nat): int {
    if u > INT_MAX then u - TWO32 else u
  }

  /** memchr(s, '\0', len) */
  method FindNul(mem: seq<byte>, start: nat, len: nat) returns (n: nat)
    requires start + len <= |mem|
    ensures n == NulFrom(mem[..start + len], start)
  {
    n := start;
    ghost var m := mem[..start + len];
    while n < start + len && mem[n] != 0
      invariant start <= n <= start + len
      invariant NulFrom(m, start) == NulFrom(m, n)
    {
      n := n + 1;
    }
  }

  /** A table inside a longer string has the strings of the table. */
  lemma NulInside(mem: seq<byte>, base: nat, end: nat, o: nat)
    requires base + o <= end <= |mem|
    ensures NulFrom(mem[..end], base + o) == base + NulFrom(mem[base..end], o)
    decreases end - base - o
  {
    if base + o < end && mem[base + o] != 0 {
      NulInside(mem, base, end, o + 1);
    }
  }

  /** fdt_get_string() on a finished blob. */
  method GetString(b: Blob, stroffset: int) returns (err: int, str: seq<byte>)
    requires b.Readable() && IsInt(stroffset)
    ensures err == 0 || err == ERR_BADOFFSET || err == ERR_TRUNCATED
    ensures err == 0 <==> StrAt(b.Strings().tab, stroffset).Some?
    ensures err == 0 ==> Some(str) == StrAt(b.Strings().tab, stroffset)
  {
    hide NulFrom;
    str := [];
    var abs := Wrap32(if stroffset < 0 then stroffset + TWO32 + b.h.offStrings else stroffset + b.h.offStrings);
    if abs >= b.h.totalsize {
      return ERR_BADOFFSET, str;
    }
    var len := b.h.totalsize - abs;
    if stroffset < 0 {
      return ERR_BADOFFSET, str;
    }
    if b.h.version >= 17 {
      if stroffset >= b.h.sizeStrings {
        return ERR_BADOFFSET, str;
      }
      if b.h.sizeStrings - stroffset < len {
        len := b.h.sizeStrings - stroffset;
      }
    }
    var n := FindNul(b.mem, abs, len);
    NulInside(b.mem, b.h.offStrings, b.h.offStrings + b.h.StringsSize(), stroffset);
    if n == abs + len {
      return ERR_TRUNCATED, str;
    }
    err, str := 0, b.mem[abs..n];
    SubSlice(b.mem, b.h.offStrings, b.h.offStrings + b.h.StringsSize(), stroffset, n - b.h.offStrings);
  }

  /** fdt_string_eq_() */
  method StringEq(b: Blob, nameoff: nat, s: seq<byte>) returns (eq: bool)
    requires b.Readable() && nameoff < TWO32
    ensures eq <==> Name(b.Strings(), nameoff) == Some(s)
  {
    hide StrAt;
    var err, p := GetString(b, ToInt(nameoff));
    StrAtRange(b.Strings().tab, nameoff);
    eq := err == 0 && |p| == |s| && p == s;
  }

  lemma StrAtRange(tab: seq<byte>, off: nat)
    requires |tab| <= INT_MAX
    ensures off < TWO32 ==> StrAt(tab, ToInt(off)) == StrAt(tab, off)
  {
  }

  // ----- properties -----

  /** The first property from here on, over NOPs. */
  function PropFrom(off: int, t: Tree): (r: Option<int>)
    ensures r.Some? ==> r.value >= off
    decreases t
  {
    match t
    case NopT(r) => PropFrom(off + 4, r)
    case PropT(_, _, _) => Some(off)
    case _ => None
  }

  /** nextprop_() */
  method NextProp(b: Blob, offset: int) returns (r: int)
    requires b.Readable() && IsInt(offset)
    ensures r >= 0 ==> offset <= r < b.h.StructSize() && TagAt(b.Struct(), r).0 == FDT_PROP
    ensures b.Tree().Some? && At(b.Tree().value, offset).Some? ==>
              var w := At(b.Tree().value, offset).value;
              (PropFrom(offset, w).Some? ==> r == PropFrom(offset, w).value)
              && (PropFrom(offset, w).None? && offset + TSize(w) < TSize(b.Tree().value) ==> r == ERR_NOTFOUND)
  {
    hide Scan, TreeOf, At, TagAt, TSize, Len;
    ghost var ok := b.Tree().Some? && At(b.Tree().value, offset).Some?;
    ghost var w0 := if ok then At(b.Tree().value, offset).value else Leaf;
    ghost var w := w0;
    r := offset;
    while true
      invariant offset <= r && IsInt(r)
      invariant ok ==> At(b.Tree().value, r) == Some(w) && PropFrom(r, w) == PropFrom(offset, w0)
                       && r + TSize(w) == offset + TSize(w0)
      decreases b.h.StructSize() + 3 - r
    {
      var tag, next := NextTag(b, r);
      if ok {
        TagAtTree(b, r, w);
        SizeStep(w);
      }
      if tag == FDT_END {
        return if next >= 0 then ERR_BADSTRUCTURE else next;
      } else if tag == FDT_PROP {
        TagLt(b.Struct(), r);
        return;
      } else if tag != FDT_NOP {
        return ERR_NOTFOUND;
      }
      r := next;
      if ok {
        w := w.rest;
      }
    }
  }

  /** fdt_check_prop_offset_() */
  method CheckPropOffset(b: Blob, offset: int) returns (next: int)
    requires b.StructFits() && IsInt(offset)
    ensures next == if offset < 0 || offset % 4 != 0 || TagAt(b.Struct(), offset).0 != FDT_PROP
                    then ERR_BADOFFSET else TagAt(b.Struct(), offset).1
    ensures next >= 0 ==> offset < next <= b.h.StructSize() + 3
    ensures next < 0 ==> offset < 0 || offset % 4 != 0 || TagAt(b.Struct(), offset).0 != FDT_PROP
  {
    if offset < 0 || offset % 4 != 0 {
      return ERR_BADOFFSET;
    }
    var tag;
    tag, next := NextTag(b, offset);
    if tag != FDT_PROP {
      next := ERR_BADOFFSET;
    }
  }

  /** A place in a node's content, properties and NOPs only before it. */
  ghost predicate InProps(b: Blob, node: int, off: int, w: Tree)
    requires b.Readable()
  {
    b.IsNode(node) && At(b.Tree().value, off) == Some(w)
    && off + TSize(w) == node + HLen(b.Node(node).name) + TSize(b.Node(node).kids)
  }

  lemma InPropsEnd(b: Blob, node: int, off: int, w: Tree)
    requires b.Readable() && InProps(b, node, off, w)
    ensures off + TSize(w) < TSize(b.Tree().value)
  {
    hide At, Scan, TreeOf;
    AtBound(b.Tree().value, node);
    SizeStep(b.Node(node));
  }

  lemma InPropsStart(b: Blob, node: int)
    requires b.Readable() && b.IsNode(node)
    ensures InProps(b, node, node + HLen(b.Node(node).name), b.Node(node).kids)
    ensures 0 <= node && node % 4 == 0 && TagAt(b.Struct(), node) == (FDT_BEGIN_NODE, node + HLen(b.Node(node).name))
  {
    hide At, Scan, TreeOf, TSize, TagAt;
    TagAtTree(b, node, b.Node(node));
  }

  /** fdt_first_property_offset() */
  method FirstPropertyOffset(b: Blob, node: int) returns (r: int)
    requires b.Readable() && IsInt(node)
    ensures r >= 0 ==> node < r < b.h.StructSize() && TagAt(b.Struct(), r).0 == FDT_PROP
    ensures b.IsNode(node) ==>
              IsAnswer(r, PropFrom(node + HLen(b.Node(node).name), b.Node(node).kids))
    ensures Rejected(b, node) ==> r == ERR_BADOFFSET
  {
    hide At, Scan, TreeOf, TSize, TagAt, HLen, PropFrom;
    if b.IsNode(node) {
      InPropsStart(b, node);
      InPropsEnd(b, node, node + HLen(b.Node(node).name), b.Node(node).kids);
    }
    r := CheckNodeOffset(b, node);
    if r >= 0 {
      r := NextProp(b, r);
    }
  }

  /** A property inside some node starts at this offset. */
  ghost predicate IsProp(b: Blob, off: int)
    requires b.Readable()
  {
    b.Tree().Some? && At(b.Tree().value, off).Some? && At(b.Tree().value, off).value.PropT?
    && off + TSize(At(b.Tree().value, off).value) < TSize(b.Tree().value)
  }

  ghost function PropAt(b: Blob, off: int): (w: Tree)
    requires b.Readable() && IsProp(b, off)
    ensures w.PropT?
  {
    At(b.Tree().value, off).value
  }

  /** fdt_next_property_offset() */
  method NextPropertyOffset(b: Blob, offset: int) returns (r: int)
    requires b.Readable() && IsInt(offset)
    ensures r >= 0 ==> offset < r < b.h.StructSize() && TagAt(b.Struct(), r).0 == FDT_PROP
    ensures IsProp(b, offset) ==>
              var w := PropAt(b, offset);
              IsAnswer(r, PropFrom(offset + Len(Prop(w.name, w.val)), w.rest))
  {
    hide At, Scan, TreeOf, TSize, TagAt, HLen, PropFrom, Len;
    if IsProp(b, offset) {
      TagAtTree(b, offset, PropAt(b, offset));
      SizeStep(PropAt(b, offset));
    }
    r := CheckPropOffset(b, offset);
    if r >= 0 {
      r := NextProp(b, r);
    }
  }

  /** The location PropFrom finds. */
  lemma {:induction false} PropFromAt(b: Blob, node: int, off: int, w: Tree)
    requires b.Readable() && InProps(b, node, off, w) && PropFrom(off, w).Some?
    ensures off <= PropFrom(off, w).value < b.h.StructSize()
    ensures var o := PropFrom(off, w).value;
            At(b.Tree().value, o).Some? && At(b.Tree().value, o).value.PropT?
            && InProps(b, node, o, At(b.Tree().value, o).value)
            && forall name :: FindProp(off, w, name) == FindProp(o, At(b.Tree().value, o).value, name)
    decreases w
  {
    hide At, Scan, TreeOf, TSize, HLen;
    TagAtTree(b, off, w);
    SizeStep(w);
    if w.NopT? {
      PropFromAt(b, node, off + 4, w.rest);
    }
  }

  lemma {:induction false} NoPropFrom(off: int, w: Tree, name: seq<byte>)
    requires PropFrom(off, w).None?
    ensures FindProp(off, w, name) == None
    decreases w
  {
    if w.NopT? {
      NoPropFrom(off + 4, w.rest, name);
    }
  }

  lemma TagProp(s: seq<byte>, off: int)
    requires TagAt(s, off).0 == FDT_PROP
    ensures 0 <= off && off + 12 <= |s|
  {
  }

  /** One property of the search. */
  lemma GetPropertyStep(b: Blob, node: int, o: int, w: Tree, name: seq<byte>)
    requires b.Readable() && InProps(b, node, o, w) && PropFrom(o, w).Some?
    ensures var r := PropFrom(o, w).value;
            0 <= r && r + 12 <= b.h.StructSize() && IsProp(b, r)
            && var x := PropAt(b, r);
               Name(b.Strings(), Load32(b.Struct(), r + 8)) == Some(x.name)
               && FindProp(o, w, name) == (if x.name == name then Some(r)
                                           else FindProp(r + Len(Prop(x.name, x.val)), x.rest, name))
               && InProps(b, node, r + Len(Prop(x.name, x.val)), x.rest)
  {
    hide At, Scan, TreeOf, TSize, TagAt, Len, Name, Load32, HLen;
    PropFromAt(b, node, o, w);
    var r := PropFrom(o, w).value;
    var x := At(b.Tree().value, r).value;
    InPropsEnd(b, node, r, x);
    PropBytesAt(b, r, x);
    AtNext(b.Tree().value, r, x);
    SizeStep(x);
  }

  /** fdt_get_property_namelen_(): offset of the first property of that name. */
  method GetProperty(b: Blob, node: int, name: seq<byte>) returns (r: int)
    requires b.Readable() && IsInt(node)
    ensures b.IsNode(node) ==>
              IsAnswer(r, FindProp(node + HLen(b.Node(node).name), b.Node(node).kids, name))
    ensures Rejected(b, node) ==> r == ERR_BADOFFSET
    ensures r < b.h.StructSize() || r < 0
  {
    hide At, Scan, TreeOf, TSize, TagAt, HLen, PropFrom, FindProp, Len, InProps, Name, Load32;
    ghost var ok, goal, w := b.IsNode(node), None, Leaf;
    ghost var o := 0;
    r := FirstPropertyOffset(b, node);
    if ok {
      o, w := node + HLen(b.Node(node).name), b.Node(node).kids;
      goal := FindProp(o, w, name);
      InPropsStart(b, node);
    }
    while r >= 0
      invariant r < b.h.StructSize()
      invariant ok ==> 0 <= o && InProps(b, node, o, w) && goal == FindProp(o, w, name) && IsAnswer(r, PropFrom(o, w))
      invariant r >= 0 ==> TagAt(b.Struct(), r).0 == FDT_PROP
      invariant Rejected(b, node) ==> r == ERR_BADOFFSET
      decreases r >= 0, b.h.StructSize() - r
    {
      TagProp(b.Struct(), r);
      var chk := CheckPropOffset(b, r);
      if ok {
        GetPropertyStep(b, node, o, w, name);
        TagAtTree(b, r, PropAt(b, r));
      }
      if chk < 0 {
        return ERR_INTERNAL;
      }
      var eq := StringEq(b, b.Ld32(b.h.offStruct + r + 8), name);
      if eq {
        return;
      }
      if ok {
        o, w := r + Len(Prop(PropAt(b, r).name, PropAt(b, r).val)), PropAt(b, r).rest;
      }
      r := NextPropertyOffset(b, r);
    }
    if ok {
      NoPropFrom(o, w, name);
    }
  }

  /** fdt_getprop_by_offset() */
  method GetpropByOffset(b: Blob, offset: int) returns (err: int, name: seq<byte>, val: seq<byte>)
    requires b.Readable() && IsInt(offset)
    ensures IsProp(b, offset) ==> err == 0 && name == PropAt(b, offset).name && val == PropAt(b, offset).val
    ensures err == 0 <==> offset >= 0 && offset % 4 == 0 && TagAt(b.Struct(), offset).0 == FDT_PROP
                          && Name(b.Strings(), Load32(b.Struct(), offset + 8)).Some?
    ensures err == 0 || err == ERR_BADOFFSET || err == ERR_TRUNCATED
    ensures err == 0 ==> 0 !in name && |name| <= b.h.StringsSize() && |val| <= b.h.StructSize()
  {
    hide At, Scan, TreeOf, TSize, TagAt, Len, Name, Load32, StrAt;
    name, val := [], [];
    if IsProp(b, offset) {
      TagAtTree(b, offset, PropAt(b, offset));
      PropBytesAt(b, offset, PropAt(b, offset));
    }
    err := CheckPropOffset(b, offset);
    if err < 0 {
      return;
    }
    PropFits(b.Struct(), offset);
    var p := b.h.offStruct + offset;
    var nameoff := b.Ld32(p + 8);
    StrAtRange(b.Strings().tab, nameoff);
    NameIs(b.Strings(), nameoff);
    err, name := GetString(b, ToInt(nameoff));
    if err != 0 {
      return;
    }
    StrNoNul(b.Strings().tab, ToInt(nameoff));
    val := b.mem[p + 12..p + 12 + b.Ld32(p + 4)];
    SubSlice(b.mem, b.h.offStruct, b.h.offStruct + b.h.StructSize(), offset + 12, offset + 12 + b.Ld32(p + 4));
  }

  lemma PropFits(s: seq<byte>, off: int)
    requires TagAt(s, off).0 == FDT_PROP
    ensures 0 <= off && off + 12 <= |s| && off + 12 + Load32(s, off + 4) <= |s|
  {
    hide Load32;
  }

  lemma NameIs(st: Strs, off: nat)
    requires st.base == 0 && off < TWO32
    ensures Name(st, off) == StrAt(st.tab, off)
  {
  }

  lemma StrNoNul(tab: seq<byte>, o: int)
    requires StrAt(tab, o).Some?
    ensures 0 !in StrAt(tab, o).value && |StrAt(tab, o).value| <= |tab|
  {
  }
}

/** The sequential writer (fdt_sw.c): what is written is what a reader walks. */
module FdtSw {
  import opened Options
  import opened FdtTokens
  import opened FdtBlob
  import opened FdtProps
  import opened FdtEdit
  import opened FdtRw
  import opened FdtSetprop

  // ----- what has been written -----

  /** All tokens of a byte string. */
  function Whole(s: seq<byte>, st: Strs): Option<seq<Tok>>
    decreases |s|
  {
    if s == [] then Some([])
    else
      var h := Head(s, st);
      if h.None? || Len(h.value) > |s| then None
      else
        var r := Whole(s[Len(h.value)..], st);
        if r.None? then None else Some([h.value] + r.value)
  }

  lemma {:induction false} WholeDec(s: seq<byte>, st: Strs, ts: seq<Tok>)
    ensures Whole(s, st) == Some(ts) <==> Dec(s, st, ts)
    decreases |s|
  {
    hide Head, Len;
    if s == [] {
      EmptyHead(st);
    } else if Head(s, st).Some? && Len(Head(s, st).value) <= |s| {
      var n := Len(Head(s, st).value);
      if ts != [] {
        WholeDec(s[n..], st, ts[1..]);
        assert ts == [ts[0]] + ts[1..];
      }
    }
  }

  lemma EmptyHead(st: Strs)
    ensures Head([], st) == None
  {
  }

  /** A blob being written: in the reservation state the strings offset is 0, in the structure
      state it is the total size. */
  predicate SwHeader(h: Header) {
    h.magic == FDT_SW_MAGIC && h.version == 17 && h.lastComp <= 1 && h.totalsize < INT_MAX && h.offRsv == 48
    && 48 <= h.offStruct && h.offStruct + h.sizeStruct + h.sizeStrings <= h.totalsize
    && (h.offStrings == 0 || h.offStrings == h.totalsize)
    && (h.offStrings == 0 ==> h.sizeStruct == 0 && h.sizeStrings == 0)
  }

  /** The strings grow down from the end of the blob. */
  function SwStrs(v: Blob): Strs
    requires SwHeader(v.h) && v.h.totalsize <= |v.mem|
  {
    Strs(v.mem[v.h.totalsize - v.h.sizeStrings..v.h.totalsize], v.h.sizeStrings)
  }

  predicate SwFits(v: Blob) {
    SwHeader(v.h) && v.h.totalsize <= |v.mem|
  }

  /** The nodes and properties written so far. */
  function Events(v: Blob): Option<seq<Tok>>
    requires SwFits(v)
  {
    Whole(v.Struct(), SwStrs(v))
  }

  ghost predicate Writing(v: Blob) {
    SwFits(v) && v.h.offStrings == v.h.totalsize && Events(v).Some? && Fin !in Events(v).value
  }

  /** fdt_sw_probe_struct_() */
  function ProbeStruct(h: Header): int {
    if h.magic == FDT_MAGIC then ERR_BADSTATE
    else if h.magic != FDT_SW_MAGIC then ERR_BADMAGIC
    else if h.offStrings != h.totalsize then ERR_BADSTATE
    else 0
  }

  // ----- appending to the structure block -----

  /** fdt_grab_space_() */
  method GrabSpace(f: Fdt, len: nat) returns (off: Option<nat>)
    requires SwFits(f.View()) && len <= INT_MAX
    modifies f
    ensures off.Some? <==> old(f.h).offStruct + old(f.h).sizeStruct + old(f.h).sizeStrings + len <= old(f.h).totalsize
    ensures off.None? ==> f.h == old(f.h)
    ensures off.Some? ==> off.value == old(f.h).sizeStruct && f.h == old(f.h).(sizeStruct := old(f.h).sizeStruct + len)
  {
    var offset := f.h.sizeStruct;
    var spaceleft := f.h.totalsize - f.h.offStruct - f.h.sizeStrings;
    if Wrap32(offset + len) < offset || Wrap32(offset + len) > spaceleft {
      return None;
    }
    f.h := f.h.(sizeStruct := offset + len);
    off := Some(offset);
  }

  /** `v'` is `v` with the bytes `x`, padded to `n`, behind its structure block. */
  ghost predicate Appended(v: Blob, v': Blob, x: seq<byte>, n: nat) {
    SwFits(v) && |x| <= n && v'.h == v.h.(sizeStruct := v.h.sizeStruct + n) && |v'.mem| == |v.mem|
    && v.h.offStruct + v.h.sizeStruct + n + v.h.sizeStrings <= v.h.totalsize
    && v'.mem == Over(v.mem, v.h.offStruct + v.h.sizeStruct, x)
  }

  /** Nothing in front of the structure block has changed. */
  ghost predicate Front(v: Blob, v': Blob) {
    v.h.offStruct <= |v.mem| == |v'.mem| && v'.mem[..v.h.offStruct] == v.mem[..v.h.offStruct]
    && v'.h == v.h.(sizeStruct := v'.h.sizeStruct, sizeStrings := v'.h.sizeStrings)
  }

  lemma OverFront(v: Blob, v': Blob, o: nat, x: seq<byte>)
    requires v.h.offStruct <= o && o + |x| <= |v.mem| && v'.mem == Over(v.mem, o, x)
    requires v'.h == v.h.(sizeStruct := v'.h.sizeStruct, sizeStrings := v'.h.sizeStrings)
    ensures Front(v, v')
  {
    hide Over;
    OverBefore(v.mem, o, x, 0, v.h.offStruct);
    assert v'.mem[0..v.h.offStruct] == v'.mem[..v.h.offStruct];
    assert v.mem[0..v.h.offStruct] == v.mem[..v.h.offStruct];
  }

  lemma AppendedBlocks(v: Blob, v': Blob, x: seq<byte>, n: nat)
    requires Appended(v, v', x, n) && v.h.offStrings == v.h.totalsize
    ensures SwFits(v') && SwStrs(v') == SwStrs(v) && Front(v, v')
    ensures var m := v.h.sizeStruct;
            |v'.Struct()| == m + n && v'.Struct()[..m] == v.Struct() && v'.Struct()[m..m + |x|] == x
  {
    hide Over, Front;
    var a, m, t := v.h.offStruct, v.h.sizeStruct, v.h.totalsize;
    OverFront(v, v', a + m, x);
    OverAfter(v.mem, a + m, x, t - v.h.sizeStrings, t);
    OverBefore(v.mem, a + m, x, a, a + m);
    OverInside(v.mem, a + m, x, a + m, a + m + |x|);
    SubSlice(v'.mem, a, a + m + n, 0, m);
    SubSlice(v'.mem, a, a + m + n, m, m + |x|);
  }

  /** Appending the bytes of one token appends the token. */
  lemma AppendedToken(v: Blob, v': Blob, m: nat, tok: Tok)
    requires SwFits(v) && Events(v).Some? && SwFits(v') && m == v.h.sizeStruct && m <= |v'.Struct()|
    requires v'.Struct()[..m] == v.Struct() && Extends(SwStrs(v), SwStrs(v'))
    requires Dec(v'.Struct()[m..], SwStrs(v'), [tok])
    ensures Events(v') == Some(Events(v).value + [tok])
  {
    hide Whole, Dec, Extends;
    var ts := Events(v).value;
    WholeDec(v.Struct(), SwStrs(v), ts);
    DecExtends(v.Struct(), SwStrs(v), SwStrs(v'), ts);
    DecAppend(v.Struct(), v'.Struct()[m..], SwStrs(v'), ts, [tok]);
    assert v.Struct() + v'.Struct()[m..] == v'.Struct();
    WholeDec(v'.Struct(), SwStrs(v'), ts + [tok]);
  }

  /** fdt_begin_node() */
  method BeginNode(f: Fdt, name: seq<byte>) returns (err: int)
    requires ProbeStruct(f.h) == 0 ==> Writing(f.View())
    requires 0 !in name && |name| + 64 <= INT_MAX
    modifies f, f.buf
    ensures ProbeStruct(old(f.h)) != 0 ==> err == ProbeStruct(old(f.h))
    ensures err != 0 ==> f.View() == old(f.View())
    ensures ProbeStruct(old(f.h)) == 0 ==>
              var h := old(f.h);
              err == if h.offStruct + h.sizeStruct + h.sizeStrings + 4 + Align4(|name| + 1) <= h.totalsize then 0
                else ERR_NOSPACE
    ensures err == 0 ==> Writing(f.View()) && Events(f.View()).value == Events(old(f.View())).value + [Begin(name)]
    ensures err == 0 ==>
              Front(old(f.View()), f.View())
                && f.h == old(f.h).(sizeStruct := old(f.h).sizeStruct + 4 + Align4(|name| + 1))
  {
    hide Over, Enc32, Align4, Whole, Dec, Extends;
    err := ProbeStruct(f.h);
    if err != 0 {
      return;
    }
    ghost var v := f.View();
    var n := Align4(|name| + 1);
    var nh := GrabSpace(f, 4 + n);
    if nh.None? {
      return ERR_NOSPACE;
    }
    var p := f.h.offStruct + nh.value;
    Memcpy(f.buf, p, Enc32(FDT_BEGIN_NODE));
    Memcpy(f.buf, p + 4, name + [0]);
    OverThen(v.mem, p, Enc32(FDT_BEGIN_NODE), name + [0]);
    ghost var x := Enc32(FDT_BEGIN_NODE) + (name + [0]);
    AppendedBlocks(v, f.View(), x, 4 + n);
    BeginBytes(f.View().Struct()[v.h.sizeStruct..], SwStrs(v), name, x);
    ExtendsSelf(SwStrs(v));
    AppendedToken(v, f.View(), v.h.sizeStruct, Begin(name));
  }

  lemma BeginBytes(y: seq<byte>, st: Strs, name: seq<byte>, x: seq<byte>)
    requires 0 !in name && x == Enc32(FDT_BEGIN_NODE) + (name + [0])
    requires |y| == 4 + Align4(|name| + 1) && y[..|x|] == x
    ensures Dec(y, st, [Begin(name)])
  {
    hide Enc32, Dec, Align4;
    var e, z, n := Enc32(FDT_BEGIN_NODE), name + [0], |name|;
    assert Load32(y, 0) == Load32(x, 0) == Load32(e, 0);
    assert y[0..|x|] == y[..|x|];
    SubSlice(y, 0, |x|, 4, 4 + n);
    assert x[4..4 + n] == z[..n] == name;
    assert y[4 + n] == x[4 + n] == z[n] == 0;
    DecBegin(y, st, name);
  }

  /** fdt_end_node() */
  method EndNode(f: Fdt) returns (err: int)
    requires ProbeStruct(f.h) == 0 ==> Writing(f.View())
    modifies f, f.buf
    ensures ProbeStruct(old(f.h)) != 0 ==> err == ProbeStruct(old(f.h))
    ensures err != 0 ==> f.View() == old(f.View())
    ensures ProbeStruct(old(f.h)) == 0 ==>
              var h := old(f.h);
              err == if h.offStruct + h.sizeStruct + h.sizeStrings + 4 <= h.totalsize then 0 else ERR_NOSPACE
    ensures err == 0 ==> Writing(f.View()) && Events(f.View()).value == Events(old(f.View())).value + [End]
    ensures err == 0 ==> Front(old(f.View()), f.View()) && f.h == old(f.h).(sizeStruct := old(f.h).sizeStruct + 4)
  {
    hide Over, Enc32, Whole, Dec, Extends;
    err := ProbeStruct(f.h);
    if err != 0 {
      return;
    }
    ghost var v := f.View();
    var en := GrabSpace(f, 4);
    if en.None? {
      return ERR_NOSPACE;
    }
    Memcpy(f.buf, f.h.offStruct + en.value, Enc32(FDT_END_NODE));
    AppendedBlocks(v, f.View(), Enc32(FDT_END_NODE), 4);
    ExtendsSelf(SwStrs(v));
    EndBytes(f.View().Struct()[v.h.sizeStruct..], SwStrs(v));
    AppendedToken(v, f.View(), v.h.sizeStruct, End);
  }

  lemma EndBytes(y: seq<byte>, st: Strs)
    requires |y| == 4 && y[..4] == Enc32(FDT_END_NODE)
    ensures Dec(y, st, [End])
  {
    assert Load32(y, 0) == Load32(Enc32(FDT_END_NODE), 0);
    DecOne(y, st, End);
  }

  // ----- property names -----

  /** The negative name offset of the string `o` bytes before the end of the table. */
  function NegOff(o: nat): nat
    requires 0 < o < TWO32
  {
    TWO32 - o
  }

  lemma NegName(tab: seq<byte>, p: nat, name: seq<byte>)
    requires StrHere(tab, p, name) && 0 !in name && |tab| <= INT_MAX
    ensures Name(Strs(tab, |tab|), NegOff(|tab| - p)) == Some(name)
  {
    StrHereAt(tab, p, name);
  }

  /** `v'` has the string in front of the table of `v`. */
  lemma PrependedStr(v: Blob, v': Blob, name: seq<byte>)
    requires SwFits(v) && v.h.offStrings == v.h.totalsize
    requires v.h.offStruct + v.h.sizeStruct + v.h.sizeStrings + |name| + 1 <= v.h.totalsize
    requires v'.h == v.h.(sizeStrings := v.h.sizeStrings + |name| + 1)
    requires v'.mem == Over(v.mem, v.h.totalsize - v.h.sizeStrings - |name| - 1, name + [0])
    ensures SwFits(v') && v'.Struct() == v.Struct() && SwStrs(v').tab == (name + [0]) + SwStrs(v).tab
    ensures Extends(SwStrs(v), SwStrs(v')) && StrHere(SwStrs(v').tab, 0, name) && Front(v, v')
  {
    hide Over, Extends, Front;
    var t, q, x := v.h.totalsize, v.h.totalsize - v.h.sizeStrings - |name| - 1, name + [0];
    OverFront(v, v', q, x);
    OverBefore(v.mem, q, x, v.h.offStruct, v.h.offStruct + v.h.sizeStruct);
    OverInside(v.mem, q, x, q, q + |x|);
    OverAfter(v.mem, q, x, q + |x|, t);
    assert v'.mem[q..t] == v'.mem[q..q + |x|] + v'.mem[q + |x|..t];
    PrependExtends(SwStrs(v).tab, x);
    assert (x + SwStrs(v).tab)[0..|name|] == name;
  }

  /** The test of fdt_add_string_() for a string whose front would be `offset` bytes below the end of the
      buffer: an unsigned difference, which wraps when there are no such bytes. */
  predicate RoomTest(h: Header, offset: nat)
    requires h.totalsize < TWO32 && offset < TWO32
  {
    Wrap32(h.totalsize + TWO32 - offset) >= h.offStruct + h.sizeStruct
  }

  /** The test passes where the string fits, and also where it begins in front of the buffer. */
  lemma RoomTestExactly(h: Header, offset: nat)
    requires SwHeader(h) && 0 < offset && offset <= h.sizeStrings + INT_MAX
    ensures RoomTest(h, offset) <==> h.offStruct + h.sizeStruct + offset <= h.totalsize || offset > h.totalsize
  {
  }

  /** fdt_add_string_(): 0 when there is no room. When `under` is set the source writes the string in front
      of the buffer and over its header, and there is no result. */
  method AddString(f: Fdt, name: seq<byte>) returns (off: nat, under: bool)
    requires SwFits(f.View()) && f.h.offStrings == f.h.totalsize && 0 !in name && |name| < INT_MAX
    modifies f, f.buf
    ensures under <==> old(f.h).sizeStrings + |name| + 1 > old(f.h).totalsize
    ensures off < TWO32 && (off != 0 ==> !under)
    ensures var h := old(f.h);
            !under ==> (off == 0 <==> h.offStruct + h.sizeStruct + h.sizeStrings + |name| + 1 > h.totalsize)
    ensures off == 0 ==> f.View() == old(f.View())
    ensures off != 0 ==>
              var v := old(f.View());
              SwFits(f.View()) && f.h == v.h.(sizeStrings := v.h.sizeStrings + |name| + 1)
              && f.View().Struct() == v.Struct() && SwStrs(f.View()).tab == (name + [0]) + SwStrs(v).tab
              && Extends(SwStrs(v), SwStrs(f.View())) && Name(SwStrs(f.View()), off) == Some(name) && Front(v, f.View())
  {
    hide Over, Extends, Name, StrHere;
    ghost var v := f.View();
    var offset := f.h.sizeStrings + |name| + 1;
    RoomTestExactly(f.h, offset);
    if !RoomTest(f.h, offset) {
      return 0, false;
    }
    if f.h.totalsize - offset < 0 {
      return 0, true;
    }
    Memcpy(f.buf, f.h.totalsize - offset, name + [0]);
    f.h := f.h.(sizeStrings := offset);
    off, under := NegOff(offset), false;
    PrependedStr(v, f.View(), name);
    NegName(SwStrs(f.View()).tab, 0, name);
  }

  /** Names that are reused when de-duplication is on. */
  ghost function SwStrNeed(v: Blob, name: seq<byte>): nat
    requires SwFits(v)
  {
    if v.h.lastComp == 0 && exists q: nat :: StrHere(SwStrs(v).tab, q, name) then 0 else |name| + 1
  }

  /** A name that is in the table as a terminated string is not written again, unless the blob was created without
      de-duplication. */
  lemma SwNameReused(v: Blob, name: seq<byte>, a: seq<byte>, z: seq<byte>)
    requires SwFits(v) && SwStrs(v).tab == a + (name + [0]) + z
    ensures SwStrNeed(v, name) == if v.h.lastComp == 0 then 0 else |name| + 1
  {
    var tab := SwStrs(v).tab;
    assert tab[|a|..|a| + |name|] == name && tab[|a| + |name|] == 0;
    assert StrHere(tab, |a|, name);
  }

  /** The strings with this name would begin in front of the buffer. */
  ghost predicate Overruns(v: Blob, name: seq<byte>)
    requires SwFits(v)
  {
    v.h.sizeStrings + SwStrNeed(v, name) > v.h.totalsize
  }

  /** The name of a property: found, or added unless there is no room (0). */
  method NameOffset(f: Fdt, name: seq<byte>) returns (off: nat, added: bool, under: bool)
    requires SwFits(f.View()) && f.h.offStrings == f.h.totalsize && 0 !in name && |name| < INT_MAX
    modifies f, f.buf
    ensures under <==> Overruns(old(f.View()), name)
    ensures off < TWO32 && (off != 0 ==> !under)
    ensures var (v, h) := (old(f.View()), old(f.h));
            !under ==> (off == 0 <==> h.offStruct + h.sizeStruct + h.sizeStrings + SwStrNeed(v, name) > h.totalsize)
    ensures off == 0 || !added ==> f.View() == old(f.View())
    ensures off != 0 ==>
              var v := old(f.View());
              SwFits(f.View()) && f.h == v.h.(sizeStrings := v.h.sizeStrings + SwStrNeed(v, name))
              && f.View().Struct() == v.Struct()
              && (added ==> SwStrNeed(v, name) == |name| + 1 && SwStrs(f.View()).tab == (name + [0]) + SwStrs(v).tab)
              && Extends(SwStrs(v), SwStrs(f.View())) && Name(SwStrs(f.View()), off) == Some(name) && Front(v, f.View())
  {
    hide Over, Extends, Name;
    ghost var v := f.View();
    if f.h.lastComp == 0 {
      var p := FindString(SwStrs(f.View()).tab, name);
      if p.Some? {
        NegName(SwStrs(v).tab, p.value, name);
        ExtendsSelf(SwStrs(v));
        return NegOff(f.h.sizeStrings - p.value), false, false;
      }
    }
    added := true;
    off, under := AddString(f, name);
  }

  /** The same blob being written, except perhaps for bytes in its free space. */
  ghost predicate SwSame(v: Blob, v': Blob) {
    SwFits(v) && SwFits(v') && v'.h == v.h && v'.Struct() == v.Struct() && SwStrs(v') == SwStrs(v)
  }

  lemma SwRollback(v: Blob, v1: Blob, v': Blob, name: seq<byte>)
    requires SwFits(v) && SwFits(v1) && v1.Struct() == v.Struct()
    requires v1.h == v.h.(sizeStrings := v.h.sizeStrings + |name| + 1)
    requires SwStrs(v1).tab == (name + [0]) + SwStrs(v).tab
    requires v'.h == v.h && v'.mem == v1.mem
    ensures SwSame(v, v')
  {
    var t, n := v.h.totalsize, v.h.sizeStrings;
    SubSlice(v1.mem, t - n - |name| - 1, t, |name| + 1, n + |name| + 1);
    assert ((name + [0]) + SwStrs(v).tab)[|name| + 1..n + |name| + 1] == SwStrs(v).tab;
  }

  lemma PropTokBytes(y: seq<byte>, st: Strs, nameoff: nat, name: seq<byte>, val: seq<byte>, x: seq<byte>)
    requires nameoff < TWO32 && |val| < TWO32 && x == PropHeader(nameoff, |val|) + val
    requires |y| == 12 + Align4(|val|) && y[..|x|] == x && Name(st, nameoff) == Some(name)
    ensures Dec(y, st, [Prop(name, val)])
  {
    hide Enc32, Dec, Align4, Name;
    var h := PropHeader(nameoff, |val|);
    HeaderCells(nameoff, |val|);
    assert Load32(y, 0) == Load32(x, 0) == Load32(h, 0);
    assert Load32(y, 4) == Load32(x, 4) == Load32(h, 4);
    assert Load32(y, 8) == Load32(x, 8) == Load32(h, 8);
    assert y[12..12 + |val|] == x[12..12 + |val|] == val;
    DecProp(y, st, nameoff, name, val);
  }

  /** Writing a property's header and value into space just grabbed. */
  method StoreProperty(f: Fdt, nameoff: nat, name: seq<byte>, val: seq<byte>, ghost v: Blob, ghost v1: Blob)
    requires SwFits(v) && Events(v).Some? && SwFits(v1) && v1.h.offStrings == v1.h.totalsize
    requires v1.Struct() == v.Struct() && v1.h.sizeStruct == v.h.sizeStruct && Extends(SwStrs(v), SwStrs(v1))
    requires f.View() == v1.(h := v1.h.(sizeStruct := v1.h.sizeStruct + 12 + Align4(|val|)))
    requires v1.h.offStruct + v1.h.sizeStruct + 12 + Align4(|val|) + v1.h.sizeStrings <= v1.h.totalsize
    requires nameoff < TWO32 && |val| < TWO32 && Name(SwStrs(v1), nameoff) == Some(name)
    modifies f.buf
    ensures SwFits(f.View()) && Events(f.View()) == Some(Events(v).value + [Prop(name, val)]) && Front(v1, f.View())
  {
    hide Over, Enc32, Align4, Whole, Dec, Extends, Name;
    var p := f.h.offStruct + f.h.sizeStruct - 12 - Align4(|val|);
    Memcpy(f.buf, p, Enc32(FDT_PROP));
    Memcpy(f.buf, p + 4, Enc32(|val|));
    OverThen(v1.mem, p, Enc32(FDT_PROP), Enc32(|val|));
    Memcpy(f.buf, p + 8, Enc32(nameoff));
    OverThen(v1.mem, p, Enc32(FDT_PROP) + Enc32(|val|), Enc32(nameoff));
    Memcpy(f.buf, p + 12, val);
    OverThen(v1.mem, p, PropHeader(nameoff, |val|), val);
    ghost var x := PropHeader(nameoff, |val|) + val;
    AppendedBlocks(v1, f.View(), x, 12 + Align4(|val|));
    PropTokBytes(f.View().Struct()[v.h.sizeStruct..], SwStrs(v1), nameoff, name, val, x);
    AppendedToken(v, f.View(), v.h.sizeStruct, Prop(name, val));
  }

  /** fdt_property(): it stays inside the buffer exactly when the strings with this name do. */
  method Property(f: Fdt, name: seq<byte>, val: seq<byte>) returns (err: int, under: bool)
    requires ProbeStruct(f.h) == 0 ==> Writing(f.View())
    requires 0 !in name && |name| + 64 <= INT_MAX && |val| + 64 <= INT_MAX
    modifies f, f.buf
    ensures ProbeStruct(old(f.h)) != 0 ==> err == ProbeStruct(old(f.h)) && !under && f.View() == old(f.View())
    ensures ProbeStruct(old(f.h)) == 0 ==>
              var v := old(f.View());
              var need := SwStrNeed(v, name) + 12 + Align4(|val|);
              (under <==> Overruns(v, name)) && (under ==> err != 0)
              && (!under ==> err == if v.h.offStruct + v.h.sizeStruct + v.h.sizeStrings + need <= v.h.totalsize then 0
                                    else ERR_NOSPACE)
              && (err != 0 ==> SwSame(v, f.View())) && Front(v, f.View())
    ensures err == 0 ==> Writing(f.View()) && Events(f.View()).value == Events(old(f.View())).value + [Prop(name, val)]
    ensures err == 0 ==> f.h == old(f.h).(sizeStruct := old(f.h).sizeStruct + 12 + Align4(|val|),
                                          sizeStrings := old(f.h).sizeStrings + SwStrNeed(old(f.View()), name))
  {
    hide Over, Enc32, Align4, Whole, Dec, Extends, Name, SwStrNeed;
    err, under := ProbeStruct(f.h), false;
    if err != 0 {
      return;
    }
    ghost var v := f.View();
    var nameoff, added;
    nameoff, added, under := NameOffset(f, name);
    if nameoff == 0 {
      return ERR_NOSPACE, under;
    }
    ghost var v1 := f.View();
    var prop := GrabSpace(f, 12 + Align4(|val|));
    if prop.None? {
      if added {
        f.h := f.h.(sizeStrings := f.h.sizeStrings - (|name| + 1));
        SwRollback(v, v1, f.View(), name);
      }
      return ERR_NOSPACE, under;
    }
    StoreProperty(f, nameoff, name, val, v, v1);
  }

  /** fdt_get_string() on a blob whose structure block is being written: names are found by negative offsets
      from the end of the buffer. */
  method GetSwString(v: Blob, stroffset: int) returns (err: int, str: seq<byte>)
    requires SwFits(v) && v.h.offStrings == v.h.totalsize && IsInt(stroffset)
    ensures v.h.sizeStruct == 0 <==> err == ERR_BADSTATE
    ensures err == 0 || err == ERR_BADOFFSET || err == ERR_TRUNCATED || err == ERR_BADSTATE
    ensures v.h.sizeStruct != 0 ==> (err == 0 <==> stroffset < 0 && Name(SwStrs(v), stroffset + TWO32).Some?)
    ensures err == 0 ==> Some(str) == Name(SwStrs(v), stroffset + TWO32)
  {
    hide NulFrom;
    str := [];
    if v.h.sizeStruct == 0 {
      return ERR_BADSTATE, str;
    }
    var abs := Wrap32(if stroffset < 0 then stroffset + TWO32 + v.h.offStrings else stroffset + v.h.offStrings);
    if abs >= v.h.totalsize {
      return ERR_BADOFFSET, str;
    }
    var len := v.h.totalsize - abs;
    if stroffset >= 0 || -stroffset > v.h.sizeStrings {
      return ERR_BADOFFSET, str;
    }
    if -stroffset < len {
      len := -stroffset;
    }
    var base := v.h.totalsize - v.h.sizeStrings;
    var n := FindNul(v.mem, abs, len);
    NulInside(v.mem, base, v.h.totalsize, abs - base);
    if n == abs + len {
      return ERR_TRUNCATED, str;
    }
    err, str := 0, v.mem[abs..n];
    SubSlice(v.mem, base, v.h.totalsize, abs - base, n - base);
  }

  // ----- finishing -----

  lemma Relocated(tab: seq<byte>, nameoff: nat)
    requires |tab| <= INT_MAX && nameoff < TWO32 && Name(Strs(tab, |tab|), nameoff).Some?
    ensures Name(Strs(tab, 0), Wrap32(nameoff + |tab|)) == Name(Strs(tab, |tab|), nameoff)
  {
    hide StrAt;
  }

  /** The cells and the value of a property token. */
  lemma PropCells(y: seq<byte>, st: Strs, t: Tok)
    requires Head(y, st) == Some(t) && t.Prop?
    ensures |y| >= 12 + |t.val| && Load32(y, 0) == FDT_PROP && Load32(y, 4) == |t.val|
            && Name(st, Load32(y, 8)) == Some(t.name) && y[12..12 + |t.val|] == t.val
  {
    hide Name;
  }

  /** Adding the table's size to the name offset turns the negative offset into a real one. */
  lemma RelocProp(y: seq<byte>, y': seq<byte>, tab: seq<byte>, t: Tok)
    requires t.Prop? && |tab| <= INT_MAX && |y| == Len(t) && Head(y, Strs(tab, |tab|)) == Some(t) && |y| >= 12
    requires y' == Over(y, 8, Enc32(Wrap32(Load32(y, 8) + |tab|)))
    ensures Dec(y', Strs(tab, 0), [t])
  {
    var n, m := Load32(y, 8), Wrap32(Load32(y, 8) + |tab|);
    PropCells(y, Strs(tab, |tab|), t);
    Relocated(tab, n);
    hide Head, Name, Dec, Over, Load32, Enc32;
    OverLoad(y, 8, Enc32(m), 0);
    OverLoad(y, 8, Enc32(m), 4);
    OverLoad(y, 8, Enc32(m), 8);
    HideOver(y, 8, Enc32(m), 12, 12 + |t.val|);
    DecProp(y', Strs(tab, 0), m, t.name, t.val);
  }

  lemma HeadOther(y: seq<byte>, st: Strs, st': Strs)
    requires Head(y, st).Some? && !Head(y, st).value.Prop?
    ensures Head(y, st') == Head(y, st)
  {
  }

  /** A stream whose first tokens have their final name offsets. */
  ghost predicate Half(s: seq<byte>, tab: seq<byte>, off: nat, done: seq<Tok>, todo: seq<Tok>) {
    off <= |s| && |tab| <= INT_MAX && Dec(s[..off], Strs(tab, 0), done) && Dec(s[off..], Strs(tab, |tab|), todo)
  }

  lemma HalfHead(s: seq<byte>, tab: seq<byte>, off: nat, done: seq<Tok>, todo: seq<Tok>)
    requires Half(s, tab, off, done, todo) && todo != []
    ensures off % 4 == 0 && off + Len(todo[0]) <= |s| && Head(s[off..], Strs(tab, |tab|)) == Some(todo[0])
    ensures TagAt(s, off) == (TagOf(todo[0]), off + Len(todo[0]))
    ensures todo[0].Prop? ==> off + 12 <= |s|
  {
    hide Len, TagAt;
    DecSize(s[..off], Strs(tab, 0), done);
    AlignedToks(done);
    TagAtHead(s, Strs(tab, |tab|), off);
    hide Head;
    if todo[0].Prop? {
      PropLen(todo[0]);
    }
  }

  lemma PropLen(t: Tok)
    requires t.Prop?
    ensures Len(t) >= 12
  {
  }

  lemma {:induction false} AlignedToks(ts: seq<Tok>)
    ensures Size(ts) % 4 == 0
  {
    if ts != [] {
      AlignedToks(ts[1..]);
      AlignedLen(ts[0]);
      Aligned(Len(ts[0]), Size(ts[1..]));
    }
  }

  lemma AlignedLen(t: Tok)
    ensures Len(t) % 4 == 0
  {
  }

  /** What the loop does to the bytes of one token. */
  ghost predicate Fixed(s: seq<byte>, s': seq<byte>, tab: seq<byte>, off: nat, t: Tok) {
    off + Len(t) <= |s|
    && (t.Prop? ==>
        off + 12 <= |s| && |tab| <= INT_MAX && s' == Over(s, off + 8, Enc32(Wrap32(Load32(s, off + 8) + |tab|))))
    && (!t.Prop? ==> s' == s)
  }

  lemma FixedAround(s: seq<byte>, s': seq<byte>, tab: seq<byte>, off: nat, t: Tok)
    requires Fixed(s, s', tab, off, t)
    ensures |s'| == |s| && s'[..off] == s[..off] && s'[off + Len(t)..] == s[off + Len(t)..]
  {
    hide Len, Load32, Over, Enc32;
    if t.Prop? {
      var n, x := Len(t), Enc32(Wrap32(Load32(s, off + 8) + |tab|));
      PropLen(t);
      HideOver(s, off + 8, x, 0, off);
      HideOver(s, off + 8, x, off + n, |s|);
      assert s'[off + n..] == s'[off + n..|s|] && s[off + n..] == s[off + n..|s|];
    }
  }

  lemma FixedToken(s: seq<byte>, s': seq<byte>, tab: seq<byte>, off: nat, t: Tok)
    requires Fixed(s, s', tab, off, t) && Head(s[off..], Strs(tab, |tab|)) == Some(t)
    ensures |s'| == |s| && Dec(s'[off..off + Len(t)], Strs(tab, 0), [t])
  {
    hide Len, Load32, Over, Enc32, Head, Dec;
    var n := Len(t);
    var y := s[off..off + n];
    assert s[off..][..n] == y;
    HeadTrim(s[off..], Strs(tab, |tab|), n);
    if t.Prop? {
      PropLen(t);
      SliceLoad(s, off, off + n, 8);
      OverSlice(s, off, n, 8, Enc32(Wrap32(Load32(s, off + 8) + |tab|)));
      RelocProp(y, s'[off..off + n], tab, t);
    } else {
      HeadOther(y, Strs(tab, |tab|), Strs(tab, 0));
      DecOne(y, Strs(tab, 0), t);
    }
  }

  /** One tag of the relocation loop. */
  lemma HalfStep(s: seq<byte>, s': seq<byte>, tab: seq<byte>, off: nat, done: seq<Tok>, todo: seq<Tok>)
    requires Half(s, tab, off, done, todo) && todo != [] && Fixed(s, s', tab, off, todo[0])
    ensures |s'| == |s| && off + Len(todo[0]) <= |s| && Half(s', tab, off + Len(todo[0]), done + [todo[0]], todo[1..])
  {
    hide Head, Len, Dec, Fixed, TagAt;
    HalfHead(s, tab, off, done, todo);
    var t, n := todo[0], Len(todo[0]);
    FixedAround(s, s', tab, off, t);
    FixedToken(s, s', tab, off, t);
    DecAppend(s[..off], s'[off..off + n], Strs(tab, 0), done, [t]);
    assert s'[..off + n] == s'[..off] + s'[off..off + n];
    DecTail(s[off..], Strs(tab, |tab|), todo);
    assert s[off..][n..] == s[off + n..];
  }

  lemma DecTail(s: seq<byte>, st: Strs, ts: seq<Tok>)
    requires Dec(s, st, ts) && ts != []
    ensures Len(ts[0]) <= |s| && Dec(s[Len(ts[0])..], st, ts[1..])
  {
    hide Head, Len;
  }

  /** After the string table has been moved down behind the structure block. */
  predicate Moving(v: Blob) {
    v.StructFits() && v.h.version == 17 && v.h.totalsize < INT_MAX && v.h.offStrings == v.h.offStruct + v.h.sizeStruct
      && v.h.offStrings + v.h.sizeStrings <= v.h.totalsize
  }

  function MovedTab(v: Blob): seq<byte>
    requires Moving(v)
  {
    v.mem[v.h.offStrings..v.h.offStrings + v.h.sizeStrings]
  }

  lemma FixStore(v: Blob, v': Blob, off: nat, x: seq<byte>)
    requires Moving(v) && off + |x| <= v.h.sizeStruct
    requires v'.h == v.h && v'.mem == Over(v.mem, v.h.offStruct + off, x)
    ensures Moving(v') && MovedTab(v') == MovedTab(v) && v'.Struct() == Over(v.Struct(), off, x)
  {
    hide Over;
    OverAfter(v.mem, v.h.offStruct + off, x, v.h.offStrings, v.h.offStrings + v.h.sizeStrings);
    OverSlice(v.mem, v.h.offStruct, v.h.sizeStruct, off, x);
  }

  /** The store of one corrected name offset. */
  method FixName(f: Fdt, offset: nat, ghost t: Tok)
    requires Moving(f.View()) && t.Prop? && offset + Len(t) <= f.h.sizeStruct
    modifies f.buf
    ensures Moving(f.View()) && MovedTab(f.View()) == old(MovedTab(f.View()))
    ensures Fixed(old(f.View()).Struct(), f.View().Struct(), MovedTab(f.View()), offset, t)
    ensures f.buf[..f.h.offStruct] == old(f.buf[..f.h.offStruct])
  {
    hide Over, Enc32, Load32, Len;
    PropLen(t);
    ghost var v := f.View();
    var p := f.h.offStruct + offset + 8;
    var nameoff := f.View().Ld32(p);
    Memcpy(f.buf, p, Enc32(Wrap32(nameoff + f.h.sizeStrings)));
    FixStore(v, f.View(), offset + 8, Enc32(Wrap32(nameoff + f.h.sizeStrings)));
    OverBefore(v.mem, p, Enc32(Wrap32(nameoff + f.h.sizeStrings)), 0, f.h.offStruct);
    assert f.buf[..f.h.offStruct] == f.View().mem[0..f.h.offStruct];
  }

  lemma NotFixed(s: seq<byte>, tab: seq<byte>, off: nat, t: Tok)
    requires !t.Prop? && off + Len(t) <= |s|
    ensures Fixed(s, s, tab, off, t)
  {
  }

  /** The loop of fdt_finish() that corrects the name offsets. */
  method Relocate(f: Fdt, ghost ts: seq<Tok>) returns (next: int)
    requires Moving(f.View()) && EndsFin(ts) && Fin !in ts[..|ts| - 1]
    requires Dec(f.View().Struct(), Strs(MovedTab(f.View()), f.h.sizeStrings), ts)
    modifies f.buf
    ensures next >= 0 && Moving(f.View()) && MovedTab(f.View()) == old(MovedTab(f.View()))
    ensures Dec(f.View().Struct(), Strs(MovedTab(f.View()), 0), ts)
    ensures f.buf[..f.h.offStruct] == old(f.buf[..f.h.offStruct])
  {
    hide Dec, TagAt, Half, Fixed, Len, MovedTab;
    ghost var tab := MovedTab(f.View());
    ghost var done, todo := [], ts;
    var offset := 0;
    HalfStart(f.View(), ts);
    while true
      invariant Moving(f.View()) && MovedTab(f.View()) == tab
      invariant 0 <= offset && Half(f.View().Struct(), tab, offset, done, todo)
      invariant done + todo == ts && todo != []
      invariant f.buf[..f.h.offStruct] == old(f.buf[..f.h.offStruct])
      decreases |todo|
    {
      var tag;
      tag, next := RelocateOne(f, offset, tab, done, todo);
      if tag == FDT_END {
        break;
      }
      MoreTokens(ts, done, todo);
      done, todo := done + [todo[0]], todo[1..];
      offset := next;
    }
    HalfEnd(f.View(), tab, offset, done, todo, ts);
  }

  lemma MoreTokens(ts: seq<Tok>, done: seq<Tok>, todo: seq<Tok>)
    requires EndsFin(ts) && done + todo == ts && todo != [] && !todo[0].Fin?
    ensures todo[1..] != [] && (done + [todo[0]]) + todo[1..] == ts
  {
    assert todo == [todo[0]] + todo[1..];
  }

  /** One tag of the loop. */
  method RelocateOne(f: Fdt, offset: nat, ghost tab: seq<byte>, ghost done: seq<Tok>, ghost todo: seq<Tok>)
    returns (tag: nat, next: int)
    requires Moving(f.View()) && MovedTab(f.View()) == tab && todo != []
    requires Half(f.View().Struct(), tab, offset, done, todo)
    modifies f.buf
    ensures Moving(f.View()) && MovedTab(f.View()) == tab && next >= 0 && (tag == FDT_END <==> todo[0].Fin?)
    ensures f.buf[..f.h.offStruct] == old(f.buf[..f.h.offStruct])
    ensures if tag == FDT_END then Half(f.View().Struct(), tab, offset, done, todo)
            else Half(f.View().Struct(), tab, next, done + [todo[0]], todo[1..])
  {
    hide Dec, TagAt, Half, Fixed, Len, MovedTab;
    ghost var s := f.View().Struct();
    HalfHead(s, tab, offset, done, todo);
    tag, next := NextTag(f.View(), offset);
    if tag == FDT_END {
      return;
    }
    if tag == FDT_PROP {
      FixName(f, offset, todo[0]);
    } else {
      NotFixed(s, tab, offset, todo[0]);
    }
    HalfStep(s, f.View().Struct(), tab, offset, done, todo);
  }

  lemma HalfStart(v: Blob, ts: seq<Tok>)
    requires Moving(v) && Dec(v.Struct(), Strs(MovedTab(v), v.h.sizeStrings), ts)
    ensures Half(v.Struct(), MovedTab(v), 0, [], ts)
  {
    var s := v.Struct();
    assert s[..0] == [] && s[0..] == s;
  }

  /** At FDT_END, the last token, every offset has been corrected. */
  lemma HalfEnd(v: Blob, tab: seq<byte>, off: nat, done: seq<Tok>, todo: seq<Tok>, ts: seq<Tok>)
    requires Moving(v) && MovedTab(v) == tab && Half(v.Struct(), tab, off, done, todo) && done + todo == ts
    requires todo != [] && todo[0].Fin? && Fin !in ts[..|ts| - 1]
    ensures Dec(v.Struct(), Strs(tab, 0), ts)
  {
    hide Dec, Half;
    LastFin(done, todo, ts);
    HalfAll(v.Struct(), tab, off, done);
  }

  lemma LastFin(done: seq<Tok>, todo: seq<Tok>, ts: seq<Tok>)
    requires done + todo == ts && todo != [] && todo[0].Fin? && Fin !in ts[..|ts| - 1]
    ensures todo == [Fin]
  {
    assert ts[|done|] == Fin;
  }

  lemma HalfAll(s: seq<byte>, tab: seq<byte>, off: nat, done: seq<Tok>)
    requires Half(s, tab, off, done, [Fin])
    ensures Dec(s, Strs(tab, 0), done + [Fin])
  {
    hide Dec, TagAt, Fixed, Len, Head, Half;
    HalfHead(s, tab, off, done, [Fin]);
    NotFixed(s, tab, off, Fin);
    HalfStep(s, s, tab, off, done, [Fin]);
    assert [Fin][1..] == [];
    var n := off + Len(Fin);
    HalfNothing(s, tab, n, done + [Fin]);
  }

  lemma HalfNothing(s: seq<byte>, tab: seq<byte>, off: nat, done: seq<Tok>)
    requires Half(s, tab, off, done, [])
    ensures Dec(s, Strs(tab, 0), done)
  {
    assert s[off..] == [];
    assert s[..off] == s;
  }

  /** The string table moved down to the end of the structure block. */
  lemma MovedDown(v: Blob, v': Blob)
    requires SwFits(v) && v.h.offStrings == v.h.totalsize
    requires var (n, m) := (v.h.offStruct + v.h.sizeStruct, v.h.totalsize - v.h.sizeStrings);
             v'.h == v.h.(offStrings := n) && v'.mem == Over(v.mem, n, v.mem[m..m + v.h.sizeStrings])
    ensures Moving(v') && v'.Struct() == v.Struct() && MovedTab(v') == SwStrs(v).tab
  {
    hide Over;
    var n, x := v.h.offStruct + v.h.sizeStruct, SwStrs(v).tab;
    OverBefore(v.mem, n, x, v.h.offStruct, n);
    OverInside(v.mem, n, x, n, n + |x|);
  }

  lemma FinBytes(y: seq<byte>, st: Strs)
    requires |y| == 4 && y[..4] == Enc32(FDT_END)
    ensures Dec(y, st, [Fin])
  {
    assert Load32(y, 0) == Load32(Enc32(FDT_END), 0);
    DecOne(y, st, Fin);
  }

  /** The terminator. */
  method AddEnd(f: Fdt) returns (err: int)
    requires Writing(f.View())
    modifies f, f.buf
    ensures var h := old(f.h);
            err == if h.offStruct + h.sizeStruct + h.sizeStrings + 4 <= h.totalsize then 0 else ERR_NOSPACE
    ensures err != 0 ==> f.View() == old(f.View())
    ensures err == 0 ==>
              var v := old(f.View());
              SwFits(f.View()) && f.h == v.h.(sizeStruct := v.h.sizeStruct + 4)
              && Events(f.View()) == Some(Events(v).value + [Fin]) && SwStrs(f.View()) == SwStrs(v)
              && f.View().mem[..v.h.offStruct] == v.mem[..v.h.offStruct]
  {
    hide Over, Enc32, Whole, Dec, Extends;
    ghost var v := f.View();
    var end := GrabSpace(f, 4);
    if end.None? {
      return ERR_NOSPACE;
    }
    err := 0;
    Memcpy(f.buf, f.h.offStruct + end.value, Enc32(FDT_END));
    AppendedBlocks(v, f.View(), Enc32(FDT_END), 4);
    OverBefore(v.mem, v.h.offStruct + v.h.sizeStruct, Enc32(FDT_END), 0, v.h.offStruct);
    ExtendsSelf(SwStrs(v));
    FinBytes(f.View().Struct()[v.h.sizeStruct..], SwStrs(v));
    AppendedToken(v, f.View(), v.h.sizeStruct, Fin);
  }

  /** The header of the finished blob. */
  lemma FinishedBlob(v: Blob, v': Blob, ts: seq<Tok>)
    requires Moving(v) && v.h.offRsv == 48 && 64 <= v.h.offStruct && Fin !in ts
    requires v'.mem == v.mem
    requires v'.h == v.h.(totalsize := v.h.offStrings + v.h.sizeStrings, lastComp := 16, magic := FDT_MAGIC)
    requires Dec(v.Struct(), Strs(MovedTab(v), 0), ts + [Fin])
    ensures v'.Fits() && Ordered(v'.h) && v'.Strings() == Strs(MovedTab(v), 0) && v'.Struct() == v.Struct()
    ensures v'.Toks() == Some(ts + [Fin])
  {
    hide Dec, Scan;
    DecScan(v.Struct(), [], Strs(MovedTab(v), 0), ts);
    assert v.Struct() + [] == v.Struct();
  }

  /** fdt_finish(): the strings go down to the end of the structure block. */
  method MoveStrings(f: Fdt, newoff: nat)
    requires SwFits(f.View()) && f.h.offStrings == f.h.totalsize && newoff == f.h.offStruct + f.h.sizeStruct
    modifies f, f.buf
    ensures f.h == old(f.h).(offStrings := newoff) && Moving(f.View())
            && MovedTab(f.View()) == SwStrs(old(f.View())).tab
    ensures f.View().Struct() == old(f.View()).Struct() && f.buf[..f.h.offStruct] == old(f.buf[..f.h.offStruct])
  {
    hide Over;
    ghost var v := f.View();
    Memmove(f.buf, newoff, f.h.totalsize - f.h.sizeStrings, f.h.sizeStrings);
    f.h := f.h.(offStrings := newoff);
    MovedDown(v, f.View());
    OverBefore(v.mem, newoff, SwStrs(v).tab, 0, f.h.offStruct);
    assert f.buf[..f.h.offStruct] == f.View().mem[0..f.h.offStruct];
  }

  /** fdt_finish() behind the terminator: move the strings, correct the offsets, set the header. */
  method FinishTail(f: Fdt, ghost ts: seq<Tok>)
    requires SwFits(f.View()) && f.h.offStrings == f.h.totalsize && 64 <= f.h.offStruct
    requires Events(f.View()) == Some(ts + [Fin]) && Fin !in ts
    modifies f, f.buf
    ensures f.View().Fits() && Ordered(f.h) && f.View().Toks() == Some(ts + [Fin])
    ensures Dec(f.View().Struct(), f.View().Strings(), ts + [Fin])
    ensures f.View().Strings().tab == SwStrs(old(f.View())).tab && f.h.totalsize == DataSize(f.h)
    ensures f.h.offStruct == old(f.h).offStruct && f.buf[..f.h.offStruct] == old(f.buf[..f.h.offStruct])
    ensures f.h.magic == FDT_MAGIC && f.h.version == 17 && f.h.lastComp == 16 && f.h.offRsv == 48
    ensures f.h.totalsize == f.h.offStruct + f.h.sizeStruct + f.h.sizeStrings <= old(f.h).totalsize
  {
    hide Over, Whole, Dec, Scan, Ordered, MovedTab;
    ghost var v := f.View();
    var newoff := f.h.offStruct + f.h.sizeStruct;
    MoveStrings(f, newoff);
    WholeDec(v.Struct(), SwStrs(v), ts + [Fin]);
    assert (ts + [Fin])[..|ts|] == ts;
    var next := Relocate(f, ts + [Fin]);
    ghost var v2 := f.View();
    f.h := f.h.(totalsize := newoff + f.h.sizeStrings, lastComp := 16, magic := FDT_MAGIC);
    FinishedBlob(v2, f.View(), ts);
  }

  /** fdt_finish(): the finished blob's stream is what was written, every name resolved, then
      FDT_END, and nothing behind it. */
  method Finish(f: Fdt) returns (err: int)
    requires ProbeStruct(f.h) == 0 ==> Writing(f.View()) && 64 <= f.h.offStruct
    modifies f, f.buf
    ensures ProbeStruct(old(f.h)) != 0 ==> err == ProbeStruct(old(f.h))
    ensures err != 0 ==> f.View() == old(f.View())
    ensures ProbeStruct(old(f.h)) == 0 ==>
              var h := old(f.h);
              err == if h.offStruct + h.sizeStruct + h.sizeStrings + 4 <= h.totalsize then 0 else ERR_NOSPACE
    ensures err == 0 ==>
              var v := old(f.View());
              f.View().Fits() && Ordered(f.h) && f.View().Toks() == Some(Events(v).value + [Fin])
              && Dec(f.View().Struct(), f.View().Strings(), Events(v).value + [Fin])
              && f.View().Strings().tab == SwStrs(v).tab && f.h.totalsize == DataSize(f.h)
              && f.h.offStruct == v.h.offStruct && f.View().mem[..v.h.offStruct] == v.mem[..v.h.offStruct]
              && f.h.version == 17 && f.h.lastComp == 16 && f.h.offRsv == 48 && f.h.totalsize <= v.h.totalsize
  {
    hide Over, Whole, Dec, Scan;
    err := ProbeStruct(f.h);
    if err != 0 {
      return;
    }
    ghost var v := f.View();
    err := AddEnd(f);
    if err != 0 {
      return;
    }
    FinishTail(f, Events(v).value);
  }
}

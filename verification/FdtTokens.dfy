/** The structure block of a flattened device tree as bytes and as tokens
    (sections 5.4 and 5.5 of the Devicetree Specification). */
module FdtTokens {
  import opened Options

  type byte = x: int | 0 <= x < 256

  const TWO32 := 0x1_0000_0000
  const INT_MAX := 0x7fff_ffff

  const FDT_BEGIN_NODE := 1
  const FDT_END_NODE := 2
  const FDT_PROP := 3
  const FDT_NOP := 4
  const FDT_END := 9

  const ERR_NOTFOUND := -1
  const ERR_EXISTS := -2
  const ERR_NOSPACE := -3
  const ERR_BADOFFSET := -4
  const ERR_BADPATH := -5
  const ERR_BADPHANDLE := -6
  const ERR_BADSTATE := -7
  const ERR_TRUNCATED := -8
  const ERR_BADMAGIC := -9
  const ERR_BADVERSION := -10
  const ERR_BADSTRUCTURE := -11
  const ERR_BADLAYOUT := -12
  const ERR_INTERNAL := -13
  const ERR_BADOVERLAY := -16
  const ERR_NOPHANDLES := -17
  const ERR_BADFLAGS := -18

  // ----- bytes and 32-bit big-endian cells -----

  /** FDT_TAGALIGN */
  function Align4(n: nat): (r: nat)
    ensures n <= r < n + 4
  {
    (n + 3) / 4 * 4
  }

  lemma Align4Sum(a: nat, n: nat)
    requires a % 4 == 0
    ensures Align4(a + n) == a + Align4(n)
  {
  }

  lemma Aligned(a: int, b: int)
    requires a % 4 == 0 && b % 4 == 0
    ensures (a + b) % 4 == 0
  {
  }

  function Load32(s: seq<byte>, o: nat): (v: nat)
    requires o + 4 <= |s|
    ensures v < TWO32
  {
    ((s[o] as int * 256 + s[o + 1]) * 256 + s[o + 2]) * 256 + s[o + 3]
  }

  function Enc32(v: nat): (s: seq<byte>)
    requires v < TWO32
    ensures |s| == 4 && Load32(s, 0) == v
  {
    var a := v / 256;
    var b := a / 256;
    [b / 256, b % 256, a % 256, v % 256]
  }

  /** The order of byte strings of the same length: the first difference decides. */
  predicate Less(a: seq<byte>, b: seq<byte>)
    requires |a| == |b|
  {
    a != [] && (a[0] < b[0] || (a[0] == b[0] && Less(a[1..], b[1..])))
  }

  lemma {:induction false} LessAppend(a: seq<byte>, b: seq<byte>, c: seq<byte>, d: seq<byte>)
    requires |a| == |b| && |c| == |d|
    ensures Less(a + c, b + d) <==> Less(a, b) || (a == b && Less(c, d))
    decreases |a|
  {
    if a == [] {
      assert a + c == c && b + d == d;
    } else {
      assert (a + c)[1..] == a[1..] + c && (b + d)[1..] == b[1..] + d;
      assert a == [a[0]] + a[1..] && b == [b[0]] + b[1..];
      LessAppend(a[1..], b[1..], c, d);
    }
  }

  /** Cells are big-endian: numbers are ordered as their bytes are, and no two cells hold the same. */
  lemma BigEndian32(a: seq<byte>, b: seq<byte>)
    requires |a| == 4 && |b| == 4
    ensures Load32(a, 0) < Load32(b, 0) <==> Less(a, b)
    ensures Load32(a, 0) == Load32(b, 0) <==> a == b
  {
    assert !Less(a[4..], b[4..]);
    assert Less(a[3..], b[3..]) <==> a[3] < b[3];
    assert Less(a[2..], b[2..]) <==> a[2] < b[2] || (a[2] == b[2] && Less(a[3..], b[3..])) by {
      assert a[2..][1..] == a[3..] && b[2..][1..] == b[3..];
    }
    assert Less(a[1..], b[1..]) <==> a[1] < b[1] || (a[1] == b[1] && Less(a[2..], b[2..])) by {
      assert a[1..][1..] == a[2..] && b[1..][1..] == b[2..];
    }
  }

  lemma SubSlice(m: seq<byte>, a: nat, b: nat, i: nat, j: nat)
    requires a <= b <= |m| && i <= j <= b - a
    ensures m[a..b][i..j] == m[a + i..a + j]
  {
    var x, y := m[a..b][i..j], m[a + i..a + j];
    assert |x| == |y|;
    assert forall k :: 0 <= k < |x| ==> x[k] == y[k];
  }

  /** Index of the first NUL from `i` on, or the length when there is none. */
  function NulFrom(s: seq<byte>, i: nat): (n: nat)
    requires i <= |s|
    ensures i <= n <= |s|
    ensures forall k :: i <= k < n ==> s[k] != 0
    ensures n < |s| ==> s[n] == 0
    decreases |s| - i
  {
    if i == |s| || s[i] == 0 then i else NulFrom(s, i + 1)
  }

  // ----- property names -----

  /** The string table. `base` is 0 in a finished blob; while a blob is written
      sequentially names are negative offsets from the table's end, so it is the
      table's size. */
  datatype Strs = Strs(tab: seq<byte>, base: nat)

  /** The NUL-terminated string at an offset of the table. */
  function StrAt(tab: seq<byte>, o: int): Option<seq<byte>> {
    if o < 0 || o >= |tab| || NulFrom(tab, o) == |tab| then None
    else Some(tab[o..NulFrom(tab, o)])
  }

  /** The string a 32-bit name offset stands for. */
  function Name(st: Strs, off: nat): Option<seq<byte>> {
    StrAt(st.tab, if off + st.base < TWO32 then off + st.base else off + st.base - TWO32)
  }

  ghost predicate Extends(st: Strs, st': Strs) {
    forall off: nat {:trigger Name(st', off)} :: Name(st, off).Some? ==> Name(st', off) == Name(st, off)
  }

  lemma StrAtWithin(l: seq<byte>, tab: seq<byte>, r: seq<byte>, o: int)
    requires StrAt(tab, o).Some?
    ensures StrAt(l + tab + r, |l| + o) == StrAt(tab, o)
  {
    var n, big := NulFrom(tab, o), l + tab + r;
    assert forall k :: o <= k <= n ==> big[|l| + k] == tab[k];
    assert big[|l| + n] == 0;
    assert NulFrom(big, |l| + o) == |l| + n;
    assert big[|l| + o..|l| + n] == tab[o..n];
  }

  lemma AppendExtends(tab: seq<byte>, x: seq<byte>)
    requires |tab| < TWO32
    ensures Extends(Strs(tab, 0), Strs(tab + x, 0))
  {
    forall off: nat | Name(Strs(tab, 0), off).Some?
      ensures Name(Strs(tab + x, 0), off) == Name(Strs(tab, 0), off)
    {
      StrAtWithin([], tab, x, if off < TWO32 then off else off - TWO32);
      assert [] + tab + x == tab + x;
    }
  }

  lemma PrependExtends(tab: seq<byte>, x: seq<byte>)
    requires |tab| + |x| < TWO32
    ensures Extends(Strs(tab, |tab|), Strs(x + tab, |x| + |tab|))
  {
    forall off: nat | Name(Strs(tab, |tab|), off).Some?
      ensures Name(Strs(x + tab, |x| + |tab|), off) == Name(Strs(tab, |tab|), off)
    {
      StrAtWithin(x, tab, [], off + |tab| - TWO32);
      assert x + tab + [] == x + tab;
    }
  }

  // ----- tokens -----

  datatype Tok = Begin(name: seq<byte>) | End | Prop(name: seq<byte>, val: seq<byte>) | Nop | Fin

  function TagOf(t: Tok): int {
    match t
    case Begin(_) => FDT_BEGIN_NODE
    case End => FDT_END_NODE
    case Prop(_, _) => FDT_PROP
    case Nop => FDT_NOP
    case Fin => FDT_END
  }

  /** Size of a token in the structure block, padding included. */
  function Len(t: Tok): (n: nat)
    ensures n >= 4
  {
    match t
    case Begin(name) => 4 + Align4(|name| + 1)
    case Prop(_, val) => 12 + Align4(|val|)
    case _ => 4
  }

  function Size(ts: seq<Tok>): nat
  {
    if ts == [] then 0 else Len(ts[0]) + Size(ts[1..])
  }

  /** The first token of a byte string, if it is whole and its name resolves. */
  function Head(s: seq<byte>, st: Strs): (r: Option<Tok>)
    ensures r.Some? ==> |s| >= 4 && Len(r.value) < |s| + 4
  {
    if |s| < 4 then None
    else
      var tag := Load32(s, 0);
      if tag == FDT_BEGIN_NODE then
        var n := NulFrom(s, 4);
        if n < |s| then Some(Begin(s[4..n])) else None
      else if tag == FDT_PROP then
        if |s| < 12 || 12 + Load32(s, 4) > |s| then None
        else
          var name := Name(st, Load32(s, 8));
          if name.None? then None else Some(Prop(name.value, s[12..12 + Load32(s, 4)]))
      else if tag == FDT_END_NODE then Some(End)
      else if tag == FDT_NOP then Some(Nop)
      else if tag == FDT_END then Some(Fin)
      else None
  }

  /** `s` is exactly the tokens `ts`, one after the other. */
  ghost predicate Dec(s: seq<byte>, st: Strs, ts: seq<Tok>)
    decreases |ts|
  {
    if ts == [] then s == []
    else Head(s, st) == Some(ts[0]) && Len(ts[0]) <= |s| && Dec(s[Len(ts[0])..], st, ts[1..])
  }

  /** The token stream up to and including FDT_END; None if it is cut short, has an
      unknown tag or an unresolvable property name. */
  function Scan(s: seq<byte>, st: Strs): Option<seq<Tok>>
    decreases |s|
  {
    var h := Head(s, st);
    if h.None? then None
    else if h.value.Fin? then Some([Fin])
    else if Len(h.value) > |s| then None
    else
      var r := Scan(s[Len(h.value)..], st);
      if r.None? then None else Some([h.value] + r.value)
  }

  /** The tokens from byte offset `off` on, when a token starts there. */
  function Suffix(ts: seq<Tok>, off: int): Option<seq<Tok>>
    decreases |ts|
  {
    if off == 0 then Some(ts)
    else if ts == [] || off < Len(ts[0]) then None
    else Suffix(ts[1..], off - Len(ts[0]))
  }

  // ----- locality: tokens depend on their own bytes only -----

  lemma HeadLocal(s: seq<byte>, x: seq<byte>, st: Strs)
    requires Head(s, st).Some?
    ensures Head(s + x, st) == Head(s, st)
  {
    hide Name;
    if Load32(s, 0) == FDT_BEGIN_NODE {
      var n := NulFrom(s, 4);
      assert (s + x)[n] == 0;
      assert NulFrom(s + x, 4) == n;
      assert (s + x)[4..n] == s[4..n];
    } else if Load32(s, 0) == FDT_PROP {
      var n := Load32(s, 4);
      assert (s + x)[12..12 + n] == s[12..12 + n];
    }
  }

  lemma HeadTrim(s: seq<byte>, st: Strs, n: nat)
    requires Head(s, st).Some? && Len(Head(s, st).value) <= n <= |s|
    ensures Head(s[..n], st) == Head(s, st)
  {
    hide Name;
    if Load32(s, 0) == FDT_BEGIN_NODE {
      var k := NulFrom(s, 4);
      assert s[..n][k] == 0;
      assert NulFrom(s[..n], 4) == k;
      assert s[..n][4..k] == s[4..k];
    } else if Load32(s, 0) == FDT_PROP {
      var k := Load32(s, 4);
      assert s[..n][12..12 + k] == s[12..12 + k];
    }
  }

  lemma HeadExtends(s: seq<byte>, st: Strs, st': Strs)
    requires Head(s, st).Some? && Extends(st, st')
    ensures Head(s, st') == Head(s, st)
  {
  }

  lemma {:induction false} DecSize(s: seq<byte>, st: Strs, ts: seq<Tok>)
    requires Dec(s, st, ts)
    ensures |s| == Size(ts)
    decreases |ts|
  {
    hide Head, Len;
    if ts != [] {
      DecSize(s[Len(ts[0])..], st, ts[1..]);
    }
  }

  lemma {:induction false} SizeAppend(a: seq<Tok>, b: seq<Tok>)
    ensures Size(a + b) == Size(a) + Size(b)
  {
    if a == [] {
      assert a + b == b;
    } else {
      assert (a + b)[1..] == a[1..] + b;
      SizeAppend(a[1..], b);
    }
  }

  lemma {:induction false} DecAppend(s: seq<byte>, x: seq<byte>, st: Strs, a: seq<Tok>, b: seq<Tok>)
    requires Dec(s, st, a) && Dec(x, st, b)
    ensures Dec(s + x, st, a + b)
    decreases |a|
  {
    hide Head, Len;
    if a == [] {
      assert s + x == x && a + b == b;
    } else {
      var n := Len(a[0]);
      HeadLocal(s, x, st);
      assert (s + x)[n..] == s[n..] + x;
      assert (a + b)[1..] == a[1..] + b;
      DecAppend(s[n..], x, st, a[1..], b);
    }
  }

  lemma {:induction false} DecSplit(s: seq<byte>, st: Strs, a: seq<Tok>, b: seq<Tok>)
    requires Dec(s, st, a + b)
    ensures Size(a) <= |s|
    ensures Dec(s[..Size(a)], st, a) && Dec(s[Size(a)..], st, b)
    decreases |a|
  {
    hide Head, Len;
    if a == [] {
      assert a + b == b && s[0..] == s;
    } else {
      var n, m := Len(a[0]), Size(a);
      assert (a + b)[1..] == a[1..] + b;
      DecSplit(s[n..], st, a[1..], b);
      HeadTrim(s, st, m);
      assert s[..m][n..] == s[n..][..Size(a[1..])];
      assert s[n..][Size(a[1..])..] == s[m..];
    }
  }

  lemma {:induction false} DecExtends(s: seq<byte>, st: Strs, st': Strs, ts: seq<Tok>)
    requires Dec(s, st, ts) && Extends(st, st')
    ensures Dec(s, st', ts)
    decreases |ts|
  {
    hide Head, Len;
    if ts != [] {
      HeadExtends(s, st, st');
      DecExtends(s[Len(ts[0])..], st, st', ts[1..]);
    }
  }

  /** A scanned stream is its tokens followed by whatever lies behind FDT_END. */
  lemma {:induction false} ScanDec(s: seq<byte>, st: Strs)
    requires Scan(s, st).Some?
    ensures var ts := Scan(s, st).value;
            ts != [] && ts[|ts| - 1].Fin? && Fin !in ts[..|ts| - 1]
            && Size(ts) <= |s| && Dec(s[..Size(ts)], st, ts)
    decreases |s|
  {
    hide Head;
    var h, ts := Head(s, st).value, Scan(s, st).value;
    var n := Len(h);
    if h.Fin? {
      assert s[..4][4..] == [];
      assert ts[..0] == [];
      assert Size(ts) == 4 + Size([]);
      HeadTrim(s, st, 4);
    } else {
      var r := Scan(s[n..], st).value;
      ScanDec(s[n..], st);
      assert ts == [h] + r && ts[1..] == r;
      assert ts[..|ts| - 1] == [h] + r[..|r| - 1];
      HeadTrim(s, st, Size(ts));
      assert s[..Size(ts)][n..] == s[n..][..Size(r)];
    }
  }

  /** The converse: tokens up to an FDT_END are what a scan finds. */
  lemma {:induction false} DecScan(s: seq<byte>, x: seq<byte>, st: Strs, ts: seq<Tok>)
    requires Dec(s, st, ts + [Fin]) && Fin !in ts
    ensures Scan(s + x, st) == Some(ts + [Fin])
    decreases |ts|
  {
    hide Head, Len;
    HeadLocal(s, x, st);
    if ts == [] {
      assert ts + [Fin] == [Fin];
    } else {
      var n := Len(ts[0]);
      assert (ts + [Fin])[1..] == ts[1..] + [Fin];
      assert (s + x)[n..] == s[n..] + x;
      DecScan(s[n..], x, st, ts[1..]);
      assert ts + [Fin] == [ts[0]] + (ts[1..] + [Fin]);
    }
  }

  lemma {:induction false} SuffixAligned(ts: seq<Tok>, off: int)
    requires Suffix(ts, off).Some?
    ensures off % 4 == 0
    decreases |ts|
  {
    if off != 0 {
      SuffixAligned(ts[1..], off - Len(ts[0]));
      Aligned(Len(ts[0]), off - Len(ts[0]));
    }
  }

  lemma ScanStep(s: seq<byte>, st: Strs, ts: seq<Tok>)
    requires Scan(s, st) == Some(ts)
    ensures ts != [] && Head(s, st) == Some(ts[0])
    ensures ts[0].Fin? ==> ts == [Fin]
    ensures !ts[0].Fin? ==> Len(ts[0]) <= |s| && Scan(s[Len(ts[0])..], st) == Some(ts[1..])
  {
    hide Head, Len;
  }

  /** What a scan from a token boundary finds. */
  lemma {:induction false} SuffixScan(s: seq<byte>, st: Strs, ts: seq<Tok>, off: nat)
    requires Scan(s, st) == Some(ts)
    requires Suffix(ts, off).Some? && Suffix(ts, off).value != []
    ensures off <= |s| && Scan(s[off..], st) == Suffix(ts, off)
    decreases off
  {
    hide Head, Len;
    if off == 0 {
      assert s[0..] == s;
    } else {
      var n := Len(ts[0]);
      ScanStep(s, st, ts);
      SuffixScan(s[n..], st, ts[1..], off - n);
      assert s[n..][off - n..] == s[off..];
    }
  }

  lemma {:induction false} SuffixStep(ts: seq<Tok>, off: int)
    requires Suffix(ts, off).Some? && Suffix(ts, off).value != []
    ensures var w := Suffix(ts, off).value;
            0 <= off && Suffix(ts, off + Len(w[0])) == Some(w[1..])
    decreases |ts|
  {
    if off != 0 {
      SuffixStep(ts[1..], off - Len(ts[0]));
    }
  }

  ghost predicate EndsFin(w: seq<Tok>) {
    w != [] && w[|w| - 1].Fin?
  }

  lemma {:induction false} SuffixEndsFin(ts: seq<Tok>, off: int)
    requires Suffix(ts, off).Some? && Suffix(ts, off).value != [] && EndsFin(ts)
    ensures EndsFin(Suffix(ts, off).value)
    decreases |ts|
  {
    if off != 0 {
      SuffixEndsFin(ts[1..], off - Len(ts[0]));
    }
  }

  lemma {:induction false} SuffixAppend(a: seq<Tok>, b: seq<Tok>)
    ensures Suffix(a + b, Size(a)) == Some(b)
  {
    if a == [] {
      assert a + b == b;
    } else {
      assert (a + b)[1..] == a[1..] + b;
      SuffixAppend(a[1..], b);
    }
  }

  // ----- replacing tokens -----

  lemma SpliceDec(s: seq<byte>, st: Strs, st': Strs, pre: seq<Tok>, a: seq<Tok>, b: seq<Tok>, z: seq<Tok>, x: seq<byte>)
    requires Dec(s, st, pre + (a + z)) && Extends(st, st') && Dec(x, st', b)
    ensures var p := Size(pre);
            p + Size(a) <= |s| && Dec(s[..p] + x + s[p + Size(a)..], st', pre + b + z)
  {
    hide Dec, Size, Extends;
    var p, n := Size(pre), Size(a);
    DecSplit(s, st, pre, a + z);
    DecSplit(s[p..], st, a, z);
    var l, r := s[..p], s[p..][n..];
    DecExtends(l, st, st', pre);
    DecExtends(r, st, st', z);
    DecAppend(l, x, st', pre, b);
    DecAppend(l + x, r, st', pre + b, z);
    assert r == s[p + n..];
  }

  lemma SpliceStream(s: seq<byte>, st: Strs, st': Strs, pre: seq<Tok>, a: seq<Tok>, b: seq<Tok>, z: seq<Tok>,
                     x: seq<byte>, us: seq<Tok>)
    requires Scan(s, st) == Some(pre + (a + z)) && Extends(st, st') && Dec(x, st', b)
    requires pre + b + z == us + [Fin] && Fin !in us
    ensures Size(pre) + Size(a) <= |s|
    ensures Scan(s[..Size(pre)] + x + s[Size(pre) + Size(a)..], st') == Some(us + [Fin])
  {
    hide Dec, Size, Scan;
    ScanDec(s, st);
    var n, p, q := Size(pre + (a + z)), Size(pre), Size(pre) + Size(a);
    SpliceDec(s[..n], st, st', pre, a, b, z, x);
    TakeFirst(s, n, p, q, x);
    DecScan(s[..p] + x + s[q..n], s[n..], st', us);
  }

  lemma TakeFirst(s: seq<byte>, n: nat, p: nat, q: nat, x: seq<byte>)
    requires p <= q <= n <= |s|
    ensures s[..n][..p] == s[..p] && s[..n][q..] == s[q..n]
    ensures s[..p] + x + s[q..n] + s[n..] == s[..p] + x + s[q..]
  {
    assert s[q..] == s[q..n] + s[n..];
  }
}

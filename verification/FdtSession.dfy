/** Whole runs of the sequential writer: create, reserve, write, finish, and read back. */
module FdtSession {
  import opened Options
  import opened FdtTokens
  import opened FdtTree
  import opened FdtBlob
  import opened FdtRw
  import opened FdtSetprop
  import opened FdtSw
  import opened FdtCheck

  const TWO64: nat := TWO32 * TWO32

  // ----- the reservation map -----

  /** One reserved range of memory. */
  datatype Rsv = Rsv(addr: nat, size: nat)

  function Enc64(v: nat): (s: seq<byte>)
    requires v < TWO64
    ensures |s| == 8
  {
    Enc32(v / TWO32) + Enc32(v % TWO32)
  }

  function Load64(s: seq<byte>, o: nat): nat
    requires o + 8 <= |s|
  {
    Load32(s, o) * TWO32 + Load32(s, o + 4)
  }

  lemma LoadEnc64(v: nat)
    requires v < TWO64
    ensures Load64(Enc64(v), 0) == v
  {
    hide Enc32;
    var a, b := Enc32(v / TWO32), Enc32(v % TWO32);
    assert Load32(a + b, 0) == Load32(a, 0);
    assert Load32(a + b, 4) == Load32(b, 0);
  }

  /** And so are the addresses and sizes of the map. */
  lemma BigEndian64(a: seq<byte>, b: seq<byte>)
    requires |a| == 8 && |b| == 8
    ensures Load64(a, 0) < Load64(b, 0) <==> Less(a, b)
    ensures Load64(a, 0) < TWO64
  {
    hide Load32, Less;
    LessAppend(a[..4], b[..4], a[4..], b[4..]);
    assert a == a[..4] + a[4..] && b == b[..4] + b[4..];
    BigEndian32(a[..4], b[..4]);
    BigEndian32(a[4..], b[4..]);
    SliceLoad(a, 0, 4, 0);
    SliceLoad(b, 0, 4, 0);
    SliceLoad(a, 4, 8, 0);
    SliceLoad(b, 4, 8, 0);
    assert a[0..4] == a[..4] && b[0..4] == b[..4] && a[4..8] == a[4..] && b[4..8] == b[4..];
  }

  /** fdt_get_mem_rsv() */
  function GetMemRsv(m: seq<byte>, off: nat): Rsv
    requires off + 16 <= |m|
  {
    Rsv(Load64(m, off), Load64(m, off + 8))
  }

  /** The map in front of the structure block holds `es`. */
  ghost predicate Reserved(v: Blob, es: seq<Rsv>) {
    v.h.offRsv == 48 && v.h.offStruct == 48 + 16 * |es| && v.h.offStruct <= |v.mem|
    && forall i :: 0 <= i < |es| ==> GetMemRsv(v.mem, 48 + 16 * i) == es[i]
  }

  predicate RsvFits(e: Rsv) {
    e.addr < TWO64 && e.size < TWO64
  }

  function RsvBytes(e: Rsv): (x: seq<byte>)
    requires RsvFits(e)
    ensures |x| == 16
  {
    Enc64(e.addr) + Enc64(e.size)
  }

  lemma LoadRsv(e: Rsv)
    requires RsvFits(e)
    ensures GetMemRsv(RsvBytes(e), 0) == e
  {
    hide Enc64, Load32;
    var a, b := Enc64(e.addr), Enc64(e.size);
    LoadEnc64(e.addr);
    LoadEnc64(e.size);
    SameLoad64(a + b, 0, a, 0);
    SameLoad64(a + b, 8, b, 0);
  }

  lemma SameLoad64(s: seq<byte>, i: nat, t: seq<byte>, j: nat)
    requires i + 8 <= |s| && j + 8 <= |t| && s[i..i + 8] == t[j..j + 8]
    ensures Load64(s, i) == Load64(t, j)
  {
    var x, y := s[i..i + 8], t[j..j + 8];
    SliceLoad(s, i, i + 8, 0);
    SliceLoad(s, i, i + 8, 4);
    SliceLoad(t, j, j + 8, 0);
    SliceLoad(t, j, j + 8, 4);
  }

  lemma SameRsv(s: seq<byte>, i: nat, t: seq<byte>, j: nat)
    requires i + 16 <= |s| && j + 16 <= |t| && s[i..i + 16] == t[j..j + 16]
    ensures GetMemRsv(s, i) == GetMemRsv(t, j)
  {
    hide Load64;
    SubSlice(s, i, i + 16, 0, 8);
    SubSlice(s, i, i + 16, 8, 16);
    SubSlice(t, j, j + 16, 0, 8);
    SubSlice(t, j, j + 16, 8, 16);
    SameLoad64(s, i, t, j);
    SameLoad64(s, i + 8, t, j + 8);
  }

  /** An unchanged front keeps the map. */
  lemma ReservedFront(v: Blob, v': Blob, es: seq<Rsv>)
    requires Reserved(v, es) && v'.h.offRsv == 48 && v'.h.offStruct == v.h.offStruct
    requires v.h.offStruct <= |v'.mem| && v'.mem[..v.h.offStruct] == v.mem[..v.h.offStruct]
    ensures Reserved(v', es)
  {
    hide GetMemRsv;
    var n := v.h.offStruct;
    forall i | 0 <= i < |es|
      ensures GetMemRsv(v'.mem, 48 + 16 * i) == es[i]
    {
      var p := 48 + 16 * i;
      SubSlice(v.mem, 0, n, p, p + 16);
      SubSlice(v'.mem, 0, n, p, p + 16);
      assert v.mem[0..n] == v.mem[..n] && v'.mem[0..n] == v'.mem[..n];
      SameRsv(v'.mem, p, v.mem, p);
    }
  }

  lemma ReservedMore(v: Blob, v': Blob, es: seq<Rsv>, e: Rsv)
    requires Reserved(v, es) && RsvFits(e) && v.h.offStruct + 16 <= |v.mem|
    requires v'.mem == Over(v.mem, v.h.offStruct, RsvBytes(e)) && v'.h.offRsv == 48
             && v'.h.offStruct == v.h.offStruct + 16
    ensures Reserved(v', es + [e])
  {
    hide GetMemRsv, Over, RsvBytes;
    var n := v.h.offStruct;
    OverBefore(v.mem, n, RsvBytes(e), 0, n);
    assert v.mem[0..n] == v.mem[..n] && v'.mem[0..n] == v'.mem[..n];
    var v1 := v'.(h := v.h);
    ReservedFront(v, v1, es);
    OverInside(v.mem, n, RsvBytes(e), n, n + 16);
    SameRsv(v'.mem, n, RsvBytes(e), 0);
    LoadRsv(e);
    forall i | 0 <= i < |es| + 1
      ensures GetMemRsv(v'.mem, 48 + 16 * i) == (es + [e])[i]
    {
    }
  }

  // ----- the reservation state -----

  /** fdt_create_with_flags() */
  method Create(f: Fdt, bufsize: int, flags: nat) returns (err: int)
    requires bufsize <= f.buf.Length && bufsize < INT_MAX && flags < TWO32
    modifies f, f.buf
    ensures err == (if bufsize < 48 then ERR_NOSPACE else if flags >= 2 then ERR_BADFLAGS else 0)
    ensures err != 0 ==> f.View() == old(f.View())
    ensures err == 0 ==> SwFits(f.View()) && f.h.offStrings == 0 && f.h.totalsize == bufsize && f.h.lastComp == flags
                         && Reserved(f.View(), [])
  {
    if bufsize < 48 {
      return ERR_NOSPACE;
    }
    if flags >= 2 {
      return ERR_BADFLAGS;
    }
    var i := 0;
    while i < bufsize
      invariant 0 <= i <= bufsize
    {
      f.buf[i] := 0;
      i := i + 1;
    }
    f.h := Header(FDT_SW_MAGIC, bufsize, 48, 0, 48, 17, flags, 0, 0);
    err := 0;
  }

  /** fdt_sw_probe_memrsv_() */
  function ProbeMemrsv(h: Header): int {
    if h.magic == FDT_MAGIC then ERR_BADSTATE
    else if h.magic != FDT_SW_MAGIC then ERR_BADMAGIC
    else if h.offStrings != 0 then ERR_BADSTATE
    else 0
  }

  /** fdt_add_reservemap_entry() */
  method AddReservemapEntry(f: Fdt, e: Rsv, ghost es: seq<Rsv>) returns (err: int)
    requires ProbeMemrsv(f.h) == 0 ==> SwFits(f.View()) && Reserved(f.View(), es)
    requires RsvFits(e)
    modifies f, f.buf
    ensures ProbeMemrsv(old(f.h)) != 0 ==> err == ProbeMemrsv(old(f.h))
    ensures ProbeMemrsv(old(f.h)) == 0 ==>
              err == if old(f.h).offStruct + 16 <= old(f.h).totalsize then 0 else ERR_NOSPACE
    ensures err != 0 ==> f.View() == old(f.View())
    ensures err == 0 ==> SwFits(f.View()) && f.h == old(f.h).(offStruct := old(f.h).offStruct + 16)
                         && Reserved(f.View(), es + [e])
  {
    hide Over, RsvBytes, GetMemRsv, Enc64;
    err := ProbeMemrsv(f.h);
    if err != 0 {
      return;
    }
    ghost var v := f.View();
    var offset := f.h.offStruct;
    if offset + 16 > f.h.totalsize {
      return ERR_NOSPACE;
    }
    StoreRsv(f, offset, e);
    f.h := f.h.(offStruct := offset + 16);
    ReservedMore(v, f.View(), es, e);
  }

  method StoreRsv(f: Fdt, p: nat, e: Rsv)
    requires p + 16 <= f.buf.Length && RsvFits(e)
    modifies f.buf
    ensures f.buf[..] == Over(old(f.buf[..]), p, RsvBytes(e))
  {
    hide Over, Enc64;
    ghost var m := f.buf[..];
    Memcpy(f.buf, p, Enc64(e.addr));
    Memcpy(f.buf, p + 8, Enc64(e.size));
    OverThen(m, p, Enc64(e.addr), Enc64(e.size));
  }

  /** fdt_finish_reservemap(): the terminator, and the structure block may begin. */
  method FinishReservemap(f: Fdt, ghost es: seq<Rsv>) returns (err: int)
    requires ProbeMemrsv(f.h) == 0 ==> SwFits(f.View()) && Reserved(f.View(), es)
    modifies f, f.buf
    ensures ProbeMemrsv(old(f.h)) != 0 ==> err == ProbeMemrsv(old(f.h))
    ensures ProbeMemrsv(old(f.h)) == 0 ==>
              err == if old(f.h).offStruct + 16 <= old(f.h).totalsize then 0 else ERR_NOSPACE
    ensures err != 0 ==> f.View() == old(f.View())
    ensures err == 0 ==> Writing(f.View()) && Events(f.View()).value == [] && Reserved(f.View(), es + [Rsv(0, 0)])
                         && f.h.totalsize == old(f.h).totalsize && f.h.sizeStruct == 0 && f.h.sizeStrings == 0
  {
    hide GetMemRsv, Head;
    err := AddReservemapEntry(f, Rsv(0, 0), es);
    if err != 0 {
      return;
    }
    f.h := f.h.(offStrings := f.h.totalsize);
  }

  // ----- moving a blob that is being written -----

  /** Bytes in use while writing. */
  function Used(h: Header): nat {
    h.offStruct + h.sizeStruct + h.sizeStrings
  }

  /** The blob at `p`. */
  ghost function BlobAt(m: seq<byte>, p: nat, h: Header): Blob
    requires p + h.totalsize <= |m|
  {
    Blob(h, m[p..p + h.totalsize])
  }

  function HeadSize(h: Header): nat {
    h.offStruct + h.sizeStruct
  }

  /** The same head and tail; the free space between them may hold anything. */
  ghost predicate SameEnds(v: Blob, v': Blob) {
    HeadSize(v.h) <= |v.mem| && HeadSize(v.h) <= |v'.mem| && v.h.sizeStrings <= |v.mem| && v.h.sizeStrings <= |v'.mem|
    && v'.mem[..HeadSize(v.h)] == v.mem[..HeadSize(v.h)]
    && v'.mem[|v'.mem| - v.h.sizeStrings..] == v.mem[|v.mem| - v.h.sizeStrings..]
  }

  /** fdt_sw_probe_() */
  function ProbeSw(h: Header): int {
    if h.magic == FDT_MAGIC then ERR_BADSTATE
    else if h.magic != FDT_SW_MAGIC then ERR_BADMAGIC
    else 0
  }

  /** Which calls the state of a blob lets through, and what the others answer: a finished blob refuses all, an
      unfinished one takes ranges until the map is closed and tokens from then on. */
  lemma ProbesMean(h: Header)
    ensures h.magic == FDT_MAGIC ==>
              ProbeSw(h) == ProbeMemrsv(h) == ProbeStruct(h) == ERR_BADSTATE
    ensures h.magic != FDT_MAGIC && h.magic != FDT_SW_MAGIC ==>
              ProbeSw(h) == ProbeMemrsv(h) == ProbeStruct(h) == ERR_BADMAGIC
    ensures SwHeader(h) ==>
              ProbeSw(h) == 0 && ProbeMemrsv(h) == (if h.offStrings == 0 then 0 else ERR_BADSTATE)
              && ProbeStruct(h) == (if h.offStrings == h.totalsize then 0 else ERR_BADSTATE)
  {
  }

  /** Head first when moving down, tail first when moving up: neither move runs over bytes still
      to be moved. */
  method MoveEnds(a: array<byte>, p: nat, q: nat, head: nat, tail: nat, size: nat, newsize: nat)
    requires p + size <= a.Length && q + newsize <= a.Length && head + tail <= size && head + tail <= newsize
    modifies a
    ensures a[q..q + head] == old(a[p..p + head])
    ensures a[q + newsize - tail..q + newsize] == old(a[p + size - tail..p + size])
  {
    hide Over;
    ghost var m := a[..];
    var oldtail, newtail := p + size - tail, q + newsize - tail;
    if q <= p {
      Memmove(a, q, p, head);
      Memmove(a, newtail, oldtail, tail);
      TwoMoves(m, q, p, head, newtail, oldtail, tail);
    } else {
      Memmove(a, newtail, oldtail, tail);
      Memmove(a, q, p, head);
      TwoMoves(m, newtail, oldtail, tail, q, p, head);
    }
    assert a[q..q + head] == a[..][q..q + head];
    assert a[newtail..newtail + tail] == a[..][newtail..newtail + tail];
  }

  predicate Apart(i: nat, n: nat, j: nat, k: nat) {
    i + n <= j || j + k <= i
  }

  /** Two moves both arrive when the first lands clear of the second's source and target. */
  lemma TwoMoves(m: seq<byte>, d: nat, s: nat, n: nat, d': nat, s': nat, n': nat)
    requires d + n <= |m| && s + n <= |m| && d' + n' <= |m| && s' + n' <= |m|
    requires Apart(d, n, s', n') && Apart(d, n, d', n')
    ensures var m1 := Over(m, d, m[s..s + n]);
            var m2 := Over(m1, d', m1[s'..s' + n']);
            m2[d..d + n] == m[s..s + n] && m2[d'..d' + n'] == m[s'..s' + n']
  {
    var x := m[s..s + n];
    var m1 := Over(m, d, x);
    var y := m1[s'..s' + n'];
    hide Over;
    if d + n <= s' {
      OverAfter(m, d, x, s', s' + n');
    } else {
      OverBefore(m, d, x, s', s' + n');
    }
    OverInside(m, d, x, d, d + n);
    if d + n <= d' {
      OverBefore(m1, d', y, d, d + n);
    } else {
      OverAfter(m1, d', y, d, d + n);
    }
    OverInside(m1, d', y, d', d' + n');
  }

  /** fdt_resize() from the buffer at `p` to the buffer at `q` of the same memory. */
  method Resize(a: array<byte>, p: nat, h: Header, q: nat, bufsize: int) returns (err: int, h': Header)
    requires p + h.totalsize <= a.Length && q + bufsize <= a.Length
    modifies a
    ensures ProbeSw(h) != 0 ==> err == ProbeSw(h)
    ensures ProbeSw(h) == 0 ==>
              err == if bufsize < 0 then ERR_NOSPACE
                     else if HeadSize(h) + h.sizeStrings > h.totalsize then ERR_INTERNAL
                     else if HeadSize(h) + h.sizeStrings > bufsize then ERR_NOSPACE
                     else 0
    ensures err != 0 ==> a[..] == old(a[..]) && h' == h
    ensures err == 0 ==> h' == h.(totalsize := bufsize, offStrings := if h.offStrings != 0 then bufsize else 0)
                         && SameEnds(BlobAt(old(a[..]), p, h), BlobAt(a[..], q, h'))
  {
    hide SameEnds, BlobAt, ProbeSw;
    h' := h;
    err := ProbeSw(h);
    if err != 0 {
      return;
    }
    if bufsize < 0 {
      return ERR_NOSPACE, h;
    }
    var headsize, tailsize := HeadSize(h), h.sizeStrings;
    if headsize + tailsize > h.totalsize {
      return ERR_INTERNAL, h;
    }
    if headsize + tailsize > bufsize {
      return ERR_NOSPACE, h;
    }
    ghost var m := a[..];
    MoveEnds(a, p, q, headsize, tailsize, h.totalsize, bufsize);
    h' := h.(totalsize := bufsize, offStrings := if h.offStrings != 0 then bufsize else 0);
    ghost var m', n, t := a[..], headsize, tailsize;
    assert m'[q..q + n] == a[q..q + n] && m[p..p + n] == old(a[p..p + n]);
    assert m'[q + bufsize - t..q + bufsize] == a[q + bufsize - t..q + bufsize];
    assert m[p + h.totalsize - t..p + h.totalsize] == old(a[p + h.totalsize - t..p + h.totalsize]);
    EndsOf(m, p, m', q, h, h');
  }

  lemma EndsOf(m: seq<byte>, p: nat, m': seq<byte>, q: nat, h: Header, h': Header)
    requires p + h.totalsize <= |m| && q + h'.totalsize <= |m'|
    requires HeadSize(h) + h.sizeStrings <= h.totalsize && HeadSize(h) + h.sizeStrings <= h'.totalsize
    requires m'[q..q + HeadSize(h)] == m[p..p + HeadSize(h)]
    requires m'[q + h'.totalsize - h.sizeStrings..q + h'.totalsize]
             == m[p + h.totalsize - h.sizeStrings..p + h.totalsize]
    ensures SameEnds(BlobAt(m, p, h), BlobAt(m', q, h'))
  {
    hide HeadSize;
    EndsIn(m, p, h.totalsize, HeadSize(h), h.sizeStrings);
    EndsIn(m', q, h'.totalsize, HeadSize(h), h.sizeStrings);
  }

  lemma EndsIn(m: seq<byte>, p: nat, t: nat, n: nat, k: nat)
    requires p + t <= |m| && n <= t && k <= t
    ensures m[p..p + t][..n] == m[p..p + n] && m[p..p + t][t - k..] == m[p + t - k..p + t]
  {
  }

  /** A resized blob holds the same reserved ranges and has had the same written to it. */
  lemma ResizeKeeps(v: Blob, v': Blob, es: seq<Rsv>)
    requires SwFits(v) && |v.mem| == v.h.totalsize && |v'.mem| == v'.h.totalsize < INT_MAX && SameEnds(v, v')
    requires v'.h == v.h.(totalsize := v'.h.totalsize, offStrings := if v.h.offStrings != 0 then v'.h.totalsize else 0)
    requires HeadSize(v.h) + v.h.sizeStrings <= v'.h.totalsize
    ensures SwFits(v') && Events(v') == Events(v) && ProbeStruct(v'.h) == ProbeStruct(v.h)
    ensures Reserved(v, es) ==> Reserved(v', es)
  {
    hide Whole, Reserved;
    var a, n := v.h.offStruct, HeadSize(v.h);
    SubSlice(v.mem, 0, n, a, n);
    SubSlice(v'.mem, 0, n, a, n);
    SubSlice(v.mem, 0, n, 0, a);
    SubSlice(v'.mem, 0, n, 0, a);
    assert v.mem[0..n] == v.mem[..n] && v'.mem[0..n] == v'.mem[..n];
    assert v.mem[0..a] == v.mem[..a] && v'.mem[0..a] == v'.mem[..a];
    var t, t', k := v.h.totalsize, v'.h.totalsize, v.h.sizeStrings;
    assert v.mem[t - k..t] == v.mem[t - k..] && v'.mem[t' - k..t'] == v'.mem[t' - k..];
    if Reserved(v, es) {
      ReservedFront(v, v', es);
    }
  }

  /** Only the bytes of the blob matter, not those behind it in its buffer. */
  lemma Trimmed(v: Blob, es: seq<Rsv>)
    requires SwFits(v)
    ensures var v' := BlobAt(v.mem, 0, v.h);
            SwFits(v') && Events(v') == Events(v) && (Reserved(v', es) <==> Reserved(v, es))
  {
    hide Whole, Reserved;
    var v', a, n := BlobAt(v.mem, 0, v.h), v.h.offStruct, v.h.totalsize;
    SubSlice(v.mem, 0, n, a, HeadSize(v.h));
    SubSlice(v.mem, 0, n, n - v.h.sizeStrings, n);
    assert v'.mem[..a] == v.mem[..a];
    if Reserved(v, es) {
      ReservedFront(v, v', es);
    }
    if Reserved(v', es) {
      ReservedFront(v', v, es);
    }
  }

  /** fdt_resize() of a blob where it is. */
  method ResizeHere(f: Fdt, bufsize: int, ghost es: seq<Rsv>) returns (err: int)
    requires SwFits(f.View()) && bufsize <= f.buf.Length && bufsize < INT_MAX && Reserved(f.View(), es)
    modifies f, f.buf
    ensures err == if Used(old(f.h)) <= bufsize then 0 else ERR_NOSPACE
    ensures err != 0 ==> f.View() == old(f.View())
    ensures SwFits(f.View()) && Events(f.View()) == Events(old(f.View())) && Reserved(f.View(), es)
    ensures err == 0 ==>
              f.h == old(f.h).(totalsize := bufsize, offStrings := if old(f.h).offStrings != 0 then bufsize else 0)
  {
    hide Whole, Reserved, SameEnds;
    ghost var v := f.View();
    Trimmed(v, es);
    var h;
    err, h := Resize(f.buf, 0, f.h, 0, bufsize);
    if err != 0 {
      return;
    }
    f.h := h;
    ResizeKeeps(BlobAt(v.mem, 0, v.h), BlobAt(f.buf[..], 0, h), es);
    Trimmed(f.View(), es);
  }

  // ----- a whole run -----

  /** A call of a run: one that adds a range or a token, or fdt_resize() of the blob where it is. */
  datatype Step<T> = Do(arg: T) | Resized(bufsize: int)

  /** What the calls ask for. */
  function Args<T>(cs: seq<Step<T>>): seq<T> {
    if cs == [] then [] else (if cs[0].Do? then [cs[0].arg] else []) + Args(cs[1..])
  }

  /** What the calls that were not refused ask for. */
  function Accepted<T>(cs: seq<Step<T>>, errs: seq<int>): (r: seq<T>)
    requires |errs| == |cs|
    ensures (forall i :: 0 <= i < |cs| ==> errs[i] == 0) ==> r == Args(cs)
  {
    if cs == [] then []
    else (if cs[0].Do? && errs[0] == 0 then [cs[0].arg] else []) + Accepted(cs[1..], errs[1..])
  }

  /** Every resize leaves at least, or at most, so many bytes. */
  ghost predicate AtLeast<T>(cs: seq<Step<T>>, n: int) {
    forall c :: c in cs && c.Resized? ==> n <= c.bufsize
  }

  ghost predicate AtMost<T>(cs: seq<Step<T>>, n: int) {
    forall c :: c in cs && c.Resized? ==> c.bufsize <= n
  }

  /** The size is the one at the start or one the blob was resized to. */
  ghost predicate OneOf<T>(t: nat, cs: seq<Step<T>>, n: nat) {
    n == t || exists c :: c in cs && c.Resized? && n == c.bufsize
  }

  lemma OneOfBounds<T>(t: nat, cs: seq<Step<T>>, n: nat, k: int)
    requires OneOf(t, cs, n)
    ensures k <= t && AtLeast(cs, k) ==> k <= n
    ensures t <= k && AtMost(cs, k) ==> n <= k
  {
  }

  lemma NothingAccepted<T>()
    ensures Accepted<T>([], []) == [] && Args<T>([]) == []
  {
  }

  lemma AllAccepted<T>(cs: seq<Step<T>>, errs: seq<int>)
    requires |errs| == |cs|
    ensures (forall e :: e in errs ==> e == 0) ==> Accepted(cs, errs) == Args(cs)
  {
    assert forall i :: 0 <= i < |errs| ==> errs[i] in errs;
  }

  lemma {:induction false} AcceptedAppend<T>(cs: seq<Step<T>>, errs: seq<int>, c: Step<T>, err: int)
    requires |errs| == |cs|
    ensures Accepted(cs + [c], errs + [err]) == Accepted(cs, errs) + if c.Do? && err == 0 then [c.arg] else []
    decreases |cs|
  {
    var w, z := cs + [c], errs + [err];
    if cs == [] {
      assert w[1..] == [] && z[1..] == [];
    } else {
      assert w[1..] == cs[1..] + [c] && z[1..] == errs[1..] + [err];
      AcceptedAppend(cs[1..], errs[1..], c, err);
    }
  }

  lemma AcceptedNext<T>(cs: seq<Step<T>>, i: nat, errs: seq<int>, err: int)
    requires i < |cs| && |errs| == i
    ensures Accepted(cs[..i + 1], errs + [err])
            == Accepted(cs[..i], errs) + if cs[i].Do? && err == 0 then [cs[i].arg] else []
  {
    hide Accepted;
    assert cs[..i + 1] == cs[..i] + [cs[i]];
    AcceptedAppend(cs[..i], errs, cs[i], err);
  }

  lemma ArgsFirst<T>(cs: seq<Step<T>>, i: nat)
    requires i < |cs|
    ensures Args(cs[i..]) == (if cs[i].Do? then [cs[i].arg] else []) + Args(cs[i + 1..])
  {
    assert cs[i..][0] == cs[i] && cs[i..][1..] == cs[i + 1..];
  }

  /** A call that writes one token: begin_node, property or end_node, with arguments that fit. */
  predicate Call(t: Tok) {
    match t
    case Begin(name) => 0 !in name && |name| + 64 <= INT_MAX
    case Prop(name, val) => 0 !in name && |name| + 64 <= INT_MAX && |val| + 64 <= INT_MAX
    case End => true
    case _ => false
  }

  /** Bytes a call may take. */
  function CallNeed(t: Tok): nat {
    match t
    case Begin(name) => 4 + Align4(|name| + 1)
    case Prop(name, val) => 12 + Align4(|val|) + |name| + 1
    case _ => 4
  }

  function CallsNeed(ts: seq<Tok>): nat {
    if ts == [] then 0 else CallNeed(ts[0]) + CallsNeed(ts[1..])
  }

  /** Bytes of the names of properties. */
  function NamesNeed(ts: seq<Tok>): nat {
    if ts == [] then 0 else (if ts[0].Prop? then |ts[0].name| + 1 else 0) + NamesNeed(ts[1..])
  }

  /** The call would write a name in front of the buffer. */
  ghost predicate CallOverruns(v: Blob, t: Tok)
    requires SwFits(v)
  {
    t.Prop? && Overruns(v, t.name)
  }

  /** The call for a token: it is written, or nothing has changed, or it writes in front of the buffer. */
  method Write(f: Fdt, t: Tok) returns (err: int, under: bool)
    requires Writing(f.View()) && Call(t)
    modifies f, f.buf
    ensures under <==> CallOverruns(old(f.View()), t)
    ensures Writing(f.View()) && Front(old(f.View()), f.View()) && (err == 0 ==> !under)
    ensures !under ==> err == 0 || err == ERR_NOSPACE
    ensures Events(f.View()).value == Events(old(f.View())).value + if err == 0 then [t] else []
    ensures if err != 0 then f.h == old(f.h) && SwSame(old(f.View()), f.View())
            else f.h.sizeStrings <= old(f.h).sizeStrings + NamesNeed([t])
    ensures Used(old(f.h)) + CallNeed(t) <= old(f.h).totalsize ==> err == 0 && Used(f.h) <= Used(old(f.h)) + CallNeed(t)
    ensures old(f.h).sizeStrings + NamesNeed([t]) <= old(f.h).totalsize ==> !under
  {
    hide Whole, Align4;
    ghost var v := f.View();
    assert Events(v).value + [] == Events(v).value;
    assert [t][1..] == [];
    under := false;
    match t
    case Begin(name) => err := BeginNode(f, name);
    case Prop(name, val) => err, under := Property(f, name, val);
    case End => err := EndNode(f);
  }

  // ----- reserving -----

  /** One call before the map is finished. */
  method Reserve(f: Fdt, c: Step<Rsv>, ghost es: seq<Rsv>) returns (err: int)
    requires SwFits(f.View()) && f.h.offStrings == 0 && Reserved(f.View(), es)
    requires if c.Do? then RsvFits(c.arg) else c.bufsize <= f.buf.Length && c.bufsize < INT_MAX
    modifies f, f.buf
    ensures SwFits(f.View()) && f.h.offStrings == 0 && (err == 0 || err == ERR_NOSPACE)
    ensures Reserved(f.View(), es + if c.Do? && err == 0 then [c.arg] else [])
    ensures f.h.totalsize == if c.Resized? && err == 0 then c.bufsize else old(f.h).totalsize
    ensures var n := old(f.h).offStruct;
            err == 0 <==> if c.Do? then n + 16 <= old(f.h).totalsize else n <= c.bufsize
  {
    hide Reserved, RsvFits, Whole;
    assert es + [] == es;
    match c
    case Do(e) => err := AddReservemapEntry(f, e, es);
    case Resized(bufsize) => err := ResizeHere(f, bufsize, es);
  }

  /** After `i` of these calls. */
  ghost predicate Ranged(t: nat, v: Blob, rs: seq<Step<Rsv>>, i: nat, errs: seq<int>) {
    i <= |rs| && |errs| == i && SwFits(v) && v.h.offStrings == 0 && Reserved(v, Accepted(rs[..i], errs))
    && OneOf(t, rs, v.h.totalsize) && (forall e :: e in errs ==> e == 0 || e == ERR_NOSPACE)
    && |Accepted(rs[..i], errs)| + |Args(rs[i..])| <= |Args(rs)|
    && (RangesFit(t, rs) ==> forall e :: e in errs ==> e == 0)
  }

  /** The ranges and the terminator fit at every size the blob has. */
  ghost predicate RangesFit(t: nat, rs: seq<Step<Rsv>>) {
    var n := 64 + 16 * |Args(rs)|;
    n <= t && AtLeast(rs, n)
  }

  lemma NothingRanged(v: Blob, rs: seq<Step<Rsv>>)
    requires SwFits(v) && v.h.offStrings == 0 && Reserved(v, [])
    ensures Ranged(v.h.totalsize, v, rs, 0, [])
  {
    hide Reserved, Args, Accepted;
    assert rs[..0] == [] && rs[0..] == rs;
    NothingAccepted<Rsv>();
  }

  lemma RangedNext(t: nat, v: Blob, v': Blob, rs: seq<Step<Rsv>>, i: nat, errs: seq<int>, err: int)
    requires Ranged(t, v, rs, i, errs) && i < |rs| && SwFits(v') && v'.h.offStrings == 0
    requires err == 0 || err == ERR_NOSPACE
    requires Reserved(v', Accepted(rs[..i], errs) + if rs[i].Do? && err == 0 then [rs[i].arg] else [])
    requires v'.h.totalsize == if rs[i].Resized? && err == 0 then rs[i].bufsize else v.h.totalsize
    requires var n := v.h.offStruct; err == 0 <==> if rs[i].Do? then n + 16 <= v.h.totalsize else n <= rs[i].bufsize
    ensures Ranged(t, v', rs, i + 1, errs + [err])
  {
    hide Args, Accepted;
    AcceptedNext(rs, i, errs, err);
    ArgsFirst(rs, i);
    OneOfBounds(t, rs, v.h.totalsize, 64 + 16 * |Args(rs)|);
  }

  /** Ranges reserved one after another, whether or not a call before was refused, then the terminator. */
  method ReserveAll(f: Fdt, rs: seq<Step<Rsv>>) returns (errs: seq<int>, err: int)
    requires SwFits(f.View()) && f.h.offStrings == 0 && Reserved(f.View(), [])
    requires (forall e :: Do(e) in rs ==> RsvFits(e)) && AtMost(rs, f.buf.Length) && AtMost(rs, INT_MAX - 1)
    modifies f, f.buf
    ensures |errs| == |rs| && (forall e :: e in errs ==> e == 0 || e == ERR_NOSPACE)
    ensures err == 0 ==>
              Writing(f.View()) && Events(f.View()).value == [] && f.h.sizeStruct == 0 && f.h.sizeStrings == 0
                         && Reserved(f.View(), Accepted(rs, errs) + [Rsv(0, 0)])
                         && OneOf(old(f.h).totalsize, rs, f.h.totalsize)
    ensures RangesFit(old(f.h).totalsize, rs) ==> err == 0 && forall e :: e in errs ==> e == 0
  {
    hide Reserved, RsvFits, Whole, Args, Accepted, OneOf, Ranged, RangesFit;
    var i := 0;
    errs := [];
    ghost var t := f.h.totalsize;
    NothingRanged(f.View(), rs);
    while i < |rs|
      invariant 0 <= i <= |rs| && |errs| == i && Ranged(t, f.View(), rs, i, errs)
    {
      ghost var v := f.View();
      RangedNow(t, v, rs, i, errs);
      var e := Reserve(f, rs[i], Accepted(rs[..i], errs));
      RangedNext(t, v, f.View(), rs, i, errs, e);
      errs := errs + [e];
      i := i + 1;
    }
    RangedNow(t, f.View(), rs, i, errs);
    assert rs[..i] == rs;
    err := FinishReservemap(f, Accepted(rs, errs));
  }

  lemma RangedNow(t: nat, v: Blob, rs: seq<Step<Rsv>>, i: nat, errs: seq<int>)
    requires Ranged(t, v, rs, i, errs)
    ensures i <= |rs| && |errs| == i && SwFits(v) && v.h.offStrings == 0 && Reserved(v, Accepted(rs[..i], errs))
    ensures OneOf(t, rs, v.h.totalsize) && forall e :: e in errs ==> e == 0 || e == ERR_NOSPACE
    ensures RangesFit(t, rs) ==> v.h.offStruct + 16 <= v.h.totalsize && forall e :: e in errs ==> e == 0
  {
    hide Args, Accepted, OneOf;
    OneOfBounds(t, rs, v.h.totalsize, 64 + 16 * |Args(rs)|);
  }

  // ----- writing -----

  /** What one call of the writer does, when it does not write in front of the buffer. */
  ghost predicate Performed(v: Blob, v': Blob, c: Step<Tok>, err: int, es: seq<Rsv>) {
    Writing(v) && Writing(v') && Reserved(v', es) && (err == 0 || err == ERR_NOSPACE)
    && Events(v').value == Events(v).value + (if c.Do? && err == 0 then [c.arg] else [])
    && v'.h.totalsize == (if c.Resized? && err == 0 then c.bufsize else v.h.totalsize)
    && v'.h.sizeStrings <= v.h.sizeStrings + (if c.Do? then NamesNeed([c.arg]) else 0)
    && ((if c.Do? then Used(v.h) + CallNeed(c.arg) <= v.h.totalsize else Used(v.h) <= c.bufsize) ==>
          err == 0 && Used(v'.h) <= Used(v.h) + if c.Do? then CallNeed(c.arg) else 0)
  }

  /** One call of the writer. */
  method Perform(f: Fdt, c: Step<Tok>, ghost es: seq<Rsv>) returns (err: int, under: bool)
    requires Writing(f.View()) && Reserved(f.View(), es)
    requires if c.Do? then Call(c.arg) else c.bufsize <= f.buf.Length && c.bufsize < INT_MAX
    modifies f, f.buf
    ensures under <==> c.Do? && CallOverruns(old(f.View()), c.arg)
    ensures !under ==> Performed(old(f.View()), f.View(), c, err, es)
    ensures under ==> SwSame(old(f.View()), f.View()) && Writing(f.View()) && Reserved(f.View(), es)
    ensures c.Do? && old(f.h).sizeStrings + NamesNeed([c.arg]) <= old(f.h).totalsize ==> !under
    ensures c.Do? && Used(old(f.h)) + CallNeed(c.arg) <= old(f.h).totalsize ==> !under
  {
    hide Reserved, Call, CallOverruns, CallNeed, NamesNeed, Used, Whole;
    ghost var v := f.View();
    match c
    case Do(t) =>
      err, under := Write(f, t);
      ReservedFront(v, f.View(), es);
    case Resized(bufsize) =>
      err := ResizeHere(f, bufsize, es);
      under := false;
      SameUse(v.h, f.h);
      assert Events(v).value + [] == Events(v).value;
  }

  lemma SameUse(h: Header, h': Header)
    requires h'.offStruct == h.offStruct && h'.sizeStruct == h.sizeStruct && h'.sizeStrings == h.sizeStrings
    ensures Used(h') == Used(h)
  {
  }

  /** After `i` of the calls: those accepted are written, and not more space is used than they needed. */
  ghost predicate Written(h: Header, v: Blob, cs: seq<Step<Tok>>, i: nat, errs: seq<int>, es: seq<Rsv>) {
    i <= |cs| && |errs| == i && Writing(v) && Events(v).value == Accepted(cs[..i], errs)
    && Reserved(v, es) && OneOf(h.totalsize, cs, v.h.totalsize)
    && (forall e :: e in errs ==> e == 0 || e == ERR_NOSPACE)
    && (CallsFit(h, cs) ==> (forall e :: e in errs ==> e == 0)
                            && Used(v.h) + CallsNeed(Args(cs[i..])) <= Used(h) + CallsNeed(Args(cs)))
    && v.h.sizeStrings + NamesNeed(Args(cs[i..])) <= h.sizeStrings + NamesNeed(Args(cs))
  }

  /** The calls fit at every size the blob has; so do the names alone. */
  ghost predicate CallsFit(h: Header, cs: seq<Step<Tok>>) {
    var n := Used(h) + CallsNeed(Args(cs));
    n <= h.totalsize && AtLeast(cs, n)
  }

  ghost predicate NamesFit(h: Header, cs: seq<Step<Tok>>) {
    var n := h.sizeStrings + NamesNeed(Args(cs));
    n <= h.totalsize && AtLeast(cs, n)
  }

  lemma NothingWritten(v: Blob, cs: seq<Step<Tok>>, es: seq<Rsv>)
    requires Writing(v) && Events(v).value == [] && Reserved(v, es)
    ensures Written(v.h, v, cs, 0, [], es)
  {
    hide Reserved, Whole, CallsNeed, NamesNeed, Accepted, Args, Used;
    assert cs[0..] == cs && cs[..0] == [];
    NothingAccepted<Tok>();
  }

  lemma WrittenNow(h: Header, v: Blob, cs: seq<Step<Tok>>, i: nat, errs: seq<int>, es: seq<Rsv>)
    requires Written(h, v, cs, i, errs, es)
    ensures i <= |cs| && |errs| == i && Writing(v) && Events(v).value == Accepted(cs[..i], errs) && Reserved(v, es)
    ensures OneOf(h.totalsize, cs, v.h.totalsize) && forall e :: e in errs ==> e == 0 || e == ERR_NOSPACE
    ensures CallsFit(h, cs) ==>
              (forall e :: e in errs ==> e == 0) && Used(v.h) <= Used(h) + CallsNeed(Args(cs)) <= v.h.totalsize
    ensures i < |cs| && cs[i].Do? && CallsFit(h, cs) ==> Used(v.h) + CallNeed(cs[i].arg) <= v.h.totalsize
    ensures i < |cs| && cs[i].Do? && NamesFit(h, cs) ==> v.h.sizeStrings + NamesNeed([cs[i].arg]) <= v.h.totalsize
  {
    hide Reserved, Whole, CallNeed, CallsNeed, NamesNeed, Accepted, Args, Used, OneOf;
    OneOfBounds(h.totalsize, cs, v.h.totalsize, Used(h) + CallsNeed(Args(cs)));
    OneOfBounds(h.totalsize, cs, v.h.totalsize, h.sizeStrings + NamesNeed(Args(cs)));
    if i < |cs| {
      NeedsFirst(cs, i);
    }
  }

  lemma WrittenNext(h: Header, v: Blob, v': Blob, cs: seq<Step<Tok>>, i: nat, errs: seq<int>, es: seq<Rsv>, err: int)
    requires Written(h, v, cs, i, errs, es) && i < |cs| && Performed(v, v', cs[i], err, es)
    ensures Written(h, v', cs, i + 1, errs + [err], es)
  {
    WrittenNow(h, v, cs, i, errs, es);
    hide Reserved, Whole, CallNeed, CallsNeed, NamesNeed, Accepted, Args, Used;
    NeedsFirst(cs, i);
    AcceptedNext(cs, i, errs, err);
  }

  lemma NeedsFirst(cs: seq<Step<Tok>>, i: nat)
    requires i < |cs|
    ensures var (a, b) := (Args(cs[i..]), Args(cs[i + 1..]));
            if cs[i].Do? then NamesNeed(a) == NamesNeed([cs[i].arg]) + NamesNeed(b)
                              && CallsNeed(a) == CallNeed(cs[i].arg) + CallsNeed(b)
            else a == b
  {
    hide CallNeed, Args;
    ArgsFirst(cs, i);
    var b := Args(cs[i + 1..]);
    if cs[i].Do? {
      assert ([cs[i].arg] + b)[1..] == b && [cs[i].arg][1..] == [];
    } else {
      assert [] + b == b;
    }
  }

  lemma SameOverruns(v: Blob, v': Blob, t: Tok)
    requires SwSame(v, v')
    ensures CallOverruns(v', t) <==> CallOverruns(v, t)
  {
  }

  /** The calls, one after another, whether or not one before was refused, up to one that would write in front
      of the buffer. */
  method WriteAll(f: Fdt, cs: seq<Step<Tok>>, ghost es: seq<Rsv>) returns (errs: seq<int>, under: bool)
    requires Writing(f.View()) && Events(f.View()).value == [] && Reserved(f.View(), es)
    requires (forall t :: Do(t) in cs ==> Call(t)) && AtMost(cs, f.buf.Length) && AtMost(cs, INT_MAX - 1)
    modifies f, f.buf
    ensures Writing(f.View()) && Reserved(f.View(), es) && OneOf(old(f.h).totalsize, cs, f.h.totalsize)
    ensures |errs| <= |cs| && Events(f.View()).value == Accepted(cs[..|errs|], errs)
    ensures if under then |errs| < |cs| && cs[|errs|].Do? && CallOverruns(f.View(), cs[|errs|].arg) else |errs| == |cs|
    ensures forall e :: e in errs ==> e == 0 || e == ERR_NOSPACE
    ensures CallsFit(old(f.h), cs) ==>
              !under && (forall e :: e in errs ==> e == 0) && Used(f.h) <= Used(old(f.h)) + CallsNeed(Args(cs))
    ensures NamesFit(old(f.h), cs) ==> !under
  {
    hide Call, Written, Performed, CallOverruns, Accepted, Reserved, CallsNeed, CallNeed, NamesNeed, Used, Whole, OneOf,
      Args, CallsFit, NamesFit;
    var i := 0;
    errs, under := [], false;
    ghost var h := f.h;
    NothingWritten(f.View(), cs, es);
    while i < |cs|
      invariant 0 <= i <= |cs| && |errs| == i && Written(h, f.View(), cs, i, errs, es)
    {
      ghost var v := f.View();
      WrittenNow(h, v, cs, i, errs, es);
      var err;
      err, under := Perform(f, cs[i], es);
      if under {
        SameOverruns(v, f.View(), cs[i].arg);
        return;
      }
      WrittenNext(h, v, f.View(), cs, i, errs, es, err);
      errs := errs + [err];
      i := i + 1;
    }
    WrittenNow(h, f.View(), cs, i, errs, es);
  }

  /** The blob has room for `n` bytes all along. */
  ghost predicate RunFits(t: int, rs: seq<Step<Rsv>>, cs: seq<Step<Tok>>, n: nat) {
    n <= t && AtLeast(rs, n) && AtLeast(cs, n)
  }

  ghost function RunNeed(rs: seq<Step<Rsv>>, cs: seq<Step<Tok>>): nat {
    64 + 16 * |Args(rs)| + CallsNeed(Args(cs)) + 4
  }

  lemma RunFitsRanges(t: nat, rs: seq<Step<Rsv>>, cs: seq<Step<Tok>>)
    ensures RunFits(t, rs, cs, RunNeed(rs, cs)) ==> RangesFit(t, rs)
  {
    hide Args, CallsNeed;
  }

  /** What is left for the writer when the map has been finished. */
  lemma RunFitsCalls(t: nat, rs: seq<Step<Rsv>>, cs: seq<Step<Tok>>, h: Header)
    requires OneOf(t, rs, h.totalsize) && h.sizeStruct == 0 && h.sizeStrings == 0
    ensures RunFits(t, rs, cs, NamesNeed(Args(cs))) ==> NamesFit(h, cs)
    ensures RunFits(t, rs, cs, RunNeed(rs, cs)) && h.offStruct == 64 + 16 * |Args(rs)| ==> CallsFit(h, cs)
  {
    hide Args, CallsNeed, NamesNeed, OneOf;
    OneOfBounds(t, rs, h.totalsize, NamesNeed(Args(cs)));
    OneOfBounds(t, rs, h.totalsize, RunNeed(rs, cs));
  }

  /** The sizes of a run, from the start over the map to the end. */
  lemma RunSizes(t: nat, rs: seq<Step<Rsv>>, m: nat, cs: seq<Step<Tok>>, k: nat)
    requires OneOf(t, rs, m) && OneOf(m, cs, k)
    ensures RunFits(t, rs, cs, RunNeed(rs, cs)) ==> RunNeed(rs, cs) <= k
    ensures forall n :: t <= n && AtMost(rs, n) && AtMost(cs, n) ==> k <= n
  {
    hide Args, CallsNeed, OneOf, AtMost, AtLeast;
    OneOfBounds(t, rs, m, RunNeed(rs, cs));
    OneOfBounds(m, cs, k, RunNeed(rs, cs));
    forall n | t <= n && AtMost(rs, n) && AtMost(cs, n)
      ensures k <= n
    {
      OneOfBounds(t, rs, m, n);
      OneOfBounds(m, cs, k, n);
    }
  }

  /** The part of a run behind the map; `t` is the size the blob has when it is finished. */
  method WriteAndFinish(f: Fdt, cs: seq<Step<Tok>>, ghost es: seq<Rsv>)
    returns (err: int, errs: seq<int>, under: bool, ghost t: nat)
    requires Writing(f.View()) && Events(f.View()).value == [] && Reserved(f.View(), es + [Rsv(0, 0)])
    requires (forall t :: Do(t) in cs ==> Call(t)) && AtMost(cs, f.buf.Length) && AtMost(cs, INT_MAX - 1)
    modifies f, f.buf
    ensures under ==> |errs| < |cs| && cs[|errs|].Do? && Writing(f.View()) && CallOverruns(f.View(), cs[|errs|].arg)
                      && Events(f.View()).value == Accepted(cs[..|errs|], errs)
    ensures err == 0 ==> !under && |errs| == |cs| && f.View().Fits() && Ordered(f.h)
                         && f.View().Toks() == Some(Accepted(cs, errs) + [Fin])
                         && Reserved(f.View(), es + [Rsv(0, 0)])
                         && f.h.version == 17 && f.h.lastComp == 16 && f.h.totalsize <= t
    ensures OneOf(old(f.h).totalsize, cs, t)
    ensures forall e :: e in errs ==> e == 0 || e == ERR_NOSPACE
    ensures CallsFit(old(f.h), cs) ==>
              (forall e :: e in errs ==> e == 0) && (Used(old(f.h)) + CallsNeed(Args(cs)) + 4 <= t ==> err == 0)
    ensures NamesFit(old(f.h), cs) ==> !under
  {
    hide Reserved, Call, Whole, Scan, Dec, CallsNeed, NamesNeed, Accepted, Args, CallOverruns, OneOf, AtMost, CallsFit,
      NamesFit;
    errs, under := WriteAll(f, cs, es + [Rsv(0, 0)]);
    t := f.h.totalsize;
    if under {
      return ERR_NOSPACE, errs, under, t;
    }
    assert cs[..|errs|] == cs;
    ghost var v := f.View();
    ReservedStart(v, es);
    err := Finish(f);
    if err == 0 {
      ReservedFront(v, f.View(), es + [Rsv(0, 0)]);
    }
  }

  /** Create, reserve, write and finish, with the blob resized anywhere between the calls: whatever is finished
      reads back as exactly what the calls that were not refused said, in order, every name resolved, with the
      reserved ranges in front. When `under` is set the run has come to a call that writes in front of the
      buffer, and there is no result. */
  method Run(f: Fdt, bufsize: int, flags: nat, rs: seq<Step<Rsv>>, cs: seq<Step<Tok>>)
    returns (err: int, rerrs: seq<int>, errs: seq<int>, under: bool)
    requires bufsize <= f.buf.Length && bufsize < INT_MAX && flags < TWO32
    requires (forall e :: Do(e) in rs ==> RsvFits(e)) && AtMost(rs, f.buf.Length) && AtMost(rs, INT_MAX - 1)
    requires (forall t :: Do(t) in cs ==> Call(t)) && AtMost(cs, f.buf.Length) && AtMost(cs, INT_MAX - 1)
    modifies f, f.buf
    ensures under ==> |errs| < |cs| && cs[|errs|].Do? && Writing(f.View()) && CallOverruns(f.View(), cs[|errs|].arg)
                      && Events(f.View()).value == Accepted(cs[..|errs|], errs)
    ensures err == 0 ==> !under && |rerrs| == |rs| && |errs| == |cs| && f.View().Fits() && Ordered(f.h)
                         && f.View().Toks() == Some(Accepted(cs, errs) + [Fin])
                         && Reserved(f.View(), Accepted(rs, rerrs) + [Rsv(0, 0)])
                         && f.h.version == 17 && f.h.lastComp == 16
    ensures err == 0 ==> forall n :: bufsize <= n && AtMost(rs, n) && AtMost(cs, n) ==> f.h.totalsize <= n
    ensures forall e :: e in rerrs + errs ==> e == 0 || e == ERR_NOSPACE
    ensures flags < 2 && RunFits(bufsize, rs, cs, RunNeed(rs, cs)) ==>
              err == 0 && forall e :: e in rerrs + errs ==> e == 0
    ensures RunFits(bufsize, rs, cs, NamesNeed(Args(cs))) ==> !under
  {
    hide Reserved, Call, RsvFits, Whole, Scan, Dec, CallsNeed, NamesNeed, Accepted, Args, CallOverruns, OneOf, AtMost,
      AtLeast, RangesFit, CallsFit, NamesFit;
    rerrs, errs, under := [], [], false;
    err := Create(f, bufsize, flags);
    if err != 0 {
      return;
    }
    RunFitsRanges(bufsize, rs, cs);
    rerrs, err := ReserveAll(f, rs);
    if err != 0 {
      return;
    }
    ReservedStart(f.View(), Accepted(rs, rerrs));
    RunFitsCalls(bufsize, rs, cs, f.h);
    AllAccepted(rs, rerrs);
    ghost var h, t := f.h, 0;
    err, errs, under, t := WriteAndFinish(f, cs, Accepted(rs, rerrs));
    RunSizes(bufsize, rs, h.totalsize, cs, t);
  }

  /** A run that writes in front of the buffer although every name is shorter than the buffer: 200 bytes, a
      node, a property with a name of 99 bytes, and one with a name of 120 bytes. */
  method NameOverruns(f: Fdt, a: seq<byte>, b: seq<byte>) returns (under: bool)
    requires f.buf.Length >= 200 && 0 !in a && 0 !in b && |a| == 99 && |b| == 120
    modifies f, f.buf
    ensures under && f.h.totalsize == 200
  {
    hide Reserved, Whole;
    hide Accepted, Args;
    var err := Create(f, 200, 1);
    var errs;
    NothingAccepted<Rsv>();
    errs, err := ReserveAll(f, []);
    ReservedStart(f.View(), []);
    err := BeginNode(f, []);
    err, under := Property(f, a, []);
    err, under := Property(f, b, []);
  }

  lemma ReservedStart(v: Blob, es: seq<Rsv>)
    requires Reserved(v, es + [Rsv(0, 0)])
    ensures 64 <= v.h.offStruct == 64 + 16 * |es|
  {
  }

  /** An entry ends the map exactly when its size is 0. */
  lemma RsvEndSize(b: Blob, es: seq<Rsv>, i: nat)
    requires b.Fits() && Reserved(b, es) && i < |es| && b.h.offStruct <= b.h.totalsize
    ensures RsvEnd(b, i) <==> es[i].size == 0
  {
    hide Load32;
    assert GetMemRsv(b.mem, 48 + 16 * i) == es[i];
  }

  /** fdt_num_mem_rsv() counts the ranges before the first of size 0, so it finds all that were
      reserved exactly when none of them is empty. */
  lemma CountsReserved(b: Blob, es: seq<Rsv>, n: nat)
    requires b.Fits() && Reserved(b, es + [Rsv(0, 0)]) && b.h.offStruct <= b.h.totalsize
    requires RsvEnd(b, n) && forall i: nat :: i < n ==> !RsvEnd(b, i)
    ensures n <= |es| && (n == |es| <==> forall e :: e in es ==> e.size != 0)
    ensures n < |es| ==> es[n].size == 0
  {
    hide Reserved, RsvEnd;
    var all := es + [Rsv(0, 0)];
    RsvEndSize(b, all, |es|) by {
      assert |all| == |es| + 1;
    }
    forall i: nat | i < |es|
      ensures RsvEnd(b, i) <==> es[i].size == 0
    {
      RsvEndSize(b, all, i);
    }
    if n == |es| {
      forall e | e in es
        ensures e.size != 0
      {
        var i :| 0 <= i < |es| && es[i] == e;
        assert !RsvEnd(b, i);
      }
    }
  }

  /** What the writer finishes passes the full check exactly when the calls that were not refused were
      balanced, with one nameless root at most and nothing behind it. */
  method RunThenCheck(f: Fdt, bufsize: int, flags: nat, rs: seq<Step<Rsv>>, cs: seq<Step<Tok>>)
    returns (err: int, rerrs: seq<int>, errs: seq<int>, under: bool, check: int)
    requires bufsize <= f.buf.Length && bufsize < INT_MAX && flags < TWO32
    requires (forall e :: Do(e) in rs ==> RsvFits(e)) && AtMost(rs, f.buf.Length) && AtMost(rs, INT_MAX - 1)
    requires (forall t :: Do(t) in cs ==> Call(t)) && AtMost(cs, f.buf.Length) && AtMost(cs, INT_MAX - 1)
    modifies f, f.buf
    ensures RunFits(bufsize, rs, cs, NamesNeed(Args(cs))) ==> !under
    ensures err == 0 ==> |errs| == |cs| && !under
                         && var t := TreeOf(Accepted(cs, errs) + [Fin]); check == 0 <==> t.Some? && TopLevel(t.value)
    ensures flags < 2 && RunFits(bufsize, rs, cs, RunNeed(rs, cs)) ==>
              err == 0 && forall e :: e in rerrs + errs ==> e == 0
  {
    hide Reserved, Call, RsvFits, Scan, TreeOf, TopLevel, Accepted, Args, CallsNeed, NamesNeed, CallOverruns, RunFits,
      AtMost, Sane, Header16;
    check := 0;
    err, rerrs, errs, under := Run(f, bufsize, flags, rs, cs);
    if err != 0 {
      return;
    }
    FinishedHeader(f.View(), Accepted(rs, rerrs));
    check := CheckFull(f.View(), f.h.totalsize);
  }

  lemma FinishedHeader(b: Blob, es: seq<Rsv>)
    requires b.Fits() && Ordered(b.h) && b.h.totalsize < INT_MAX && b.h.version == 17 && b.h.lastComp == 16
    requires Reserved(b, es + [Rsv(0, 0)])
    ensures Header16(b.h) && Sane(b.h) && b.h.totalsize >= 40 && RsvEnd(b, |es|)
  {
    RsvEndSize(b, es + [Rsv(0, 0)], |es|);
    hide Reserved, RsvEnd;
    ReservedStart(b, es);
  }
}

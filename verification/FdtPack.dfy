/** fdt_pack(): the blocks are moved down over the free space between them, in place. */
module FdtPack {
  import opened FdtTokens
  import opened FdtTree
  import opened FdtBlob
  import opened FdtRw
  import opened FdtSetprop
  import opened FdtCheck

  /** fdt_num_mem_rsv() counts `n` entries. */
  ghost predicate Counted(b: Blob, n: nat) {
    b.Fits() && Ordered(b.h) && RsvEnd(b, n) && forall i: nat :: i < n ==> !RsvEnd(b, i)
  }

  lemma CountedInside(b: Blob, n: nat)
    requires Counted(b, n)
    ensures b.h.offRsv + 16 * (n + 1) <= b.h.totalsize
  {
  }

  /** The map ends in front of the structure block. */
  ghost predicate HasMap(b: Blob, n: nat) {
    Counted(b, n) && b.h.offRsv + 16 * (n + 1) <= b.h.offStruct
  }

  ghost function Map(b: Blob, n: nat): (x: seq<byte>)
    requires Counted(b, n)
    ensures |x| == 16 * (n + 1)
  {
    b.mem[b.h.offRsv..b.h.offRsv + 16 * (n + 1)]
  }

  function PackedHeader(h: Header, n: nat): Header {
    var s := 40 + 16 * (n + 1);
    var t := s + h.sizeStruct;
    h.(offRsv := 40, offStruct := s, offStrings := t, totalsize := t + h.sizeStrings)
  }

  // ----- three moves -----

  /** Blocks of `k`, `l` and `n` bytes at `r`, `s` and `t`, in a buffer where they also fit behind a header. */
  predicate Blocks3(size: nat, r: nat, k: nat, s: nat, l: nat, t: nat, n: nat) {
    40 <= r < s && r + k <= size && s + l <= t && t + n <= size && 40 + k + l + n <= size
  }

  /** The three blocks moved behind one another. */
  ghost function Moved3(m: seq<byte>, r: nat, k: nat, s: nat, l: nat, t: nat, n: nat): (m': seq<byte>)
    requires Blocks3(|m|, r, k, s, l, t, n)
    ensures |m'| == |m|
  {
    var m1 := Over(m, 40, m[r..r + k]);
    var m2 := Over(m1, 40 + k, m1[s..s + l]);
    Over(m2, 40 + k + l, m2[t..t + n])
  }

  ghost predicate Survive(m: seq<byte>, r: nat, k: nat, s: nat, l: nat, t: nat, n: nat)
    requires Blocks3(|m|, r, k, s, l, t, n)
  {
    var m' := Moved3(m, r, k, s, l, t, n);
    m'[40..40 + k] == m[r..r + k] && m'[40 + k..40 + k + l] == m[s..s + l]
    && m'[40 + k + l..40 + k + l + n] == m[t..t + n]
  }

  predicate NoOverlap(a: nat, k: nat, b: nat, l: nat) {
    k == 0 || l == 0 || a + k <= b || b + l <= a
  }

  /** No block is run over before it is moved, unless by itself. */
  predicate Safe(r: nat, k: nat, s: nat, l: nat, t: nat, n: nat) {
    (r == 40 || (NoOverlap(40, k, s, l) && NoOverlap(40, k, t, n)))
    && (40 + k == s || NoOverlap(40 + k, l, t, n))
  }

  /** A move leaves alone what it does not run over, and everything if it is to the same place. */
  lemma Kept3(m: seq<byte>, o: nat, a: nat, k: nat, b: nat, l: nat)
    requires a + k <= |m| && o + k <= |m| && b + l <= |m| && (o == a || NoOverlap(o, k, b, l))
    ensures Over(m, o, m[a..a + k])[b..b + l] == m[b..b + l]
  {
    if o == a {
      OverItself(m, a, a + k);
    } else {
      assert forall i :: b <= i < b + l ==> Over(m, o, m[a..a + k])[i] == m[i];
    }
  }

  lemma OverHas(m: seq<byte>, o: nat, x: seq<byte>)
    requires o + |x| <= |m|
    ensures Over(m, o, x)[o..o + |x|] == x
  {
  }

  lemma First3(m: seq<byte>, r: nat, k: nat, s: nat, l: nat, t: nat, n: nat)
    requires Blocks3(|m|, r, k, s, l, t, n) && (r == 40 || (NoOverlap(40, k, s, l) && NoOverlap(40, k, t, n)))
    ensures var m1 := Over(m, 40, m[r..r + k]);
            m1[40..40 + k] == m[r..r + k] && m1[s..s + l] == m[s..s + l] && m1[t..t + n] == m[t..t + n]
  {
    hide Over, NoOverlap;
    Kept3(m, 40, r, k, s, l);
    Kept3(m, 40, r, k, t, n);
    OverHas(m, 40, m[r..r + k]);
  }

  lemma Second3(m: seq<byte>, o: nat, s: nat, l: nat, t: nat, n: nat)
    requires 40 <= o && s + l <= |m| && t + n <= |m| && o + l <= |m| && (o == s || NoOverlap(o, l, t, n))
    ensures var m1 := Over(m, o, m[s..s + l]);
            m1[40..o] == m[40..o] && m1[o..o + l] == m[s..s + l] && m1[t..t + n] == m[t..t + n]
  {
    hide Over, NoOverlap;
    Kept3(m, o, s, l, t, n);
    OverHas(m, o, m[s..s + l]);
    OverBefore(m, o, m[s..s + l], 40, o);
  }

  lemma Arrived3(m: seq<byte>, r: nat, k: nat, s: nat, l: nat, t: nat, n: nat)
    requires Blocks3(|m|, r, k, s, l, t, n) && Safe(r, k, s, l, t, n)
    ensures Survive(m, r, k, s, l, t, n)
  {
    hide Over, NoOverlap;
    First3(m, r, k, s, l, t, n);
    hide Safe;
    Behind3(m, Over(m, 40, m[r..r + k]), r, k, s, l, t, n);
  }

  /** The second and the third move, when the first has left what they move. */
  lemma Behind3(m: seq<byte>, m1: seq<byte>, r: nat, k: nat, s: nat, l: nat, t: nat, n: nat)
    requires Blocks3(|m|, r, k, s, l, t, n) && |m1| == |m| && (40 + k == s || NoOverlap(40 + k, l, t, n))
    requires m1[40..40 + k] == m[r..r + k] && m1[s..s + l] == m[s..s + l] && m1[t..t + n] == m[t..t + n]
    ensures var m2 := Over(m1, 40 + k, m1[s..s + l]);
            var m3 := Over(m2, 40 + k + l, m2[t..t + n]);
            m3[40..40 + k] == m[r..r + k] && m3[40 + k..40 + k + l] == m[s..s + l]
            && m3[40 + k + l..40 + k + l + n] == m[t..t + n]
  {
    hide Over, NoOverlap;
    LastTwo(m1, 40 + k, s, l, t, n);
  }

  lemma LastTwo(m: seq<byte>, o: nat, s: nat, l: nat, t: nat, n: nat)
    requires 40 <= o && s + l <= |m| && t + n <= |m| && o + l + n <= |m| && (o == s || NoOverlap(o, l, t, n))
    ensures var m1 := Over(m, o, m[s..s + l]);
            var m2 := Over(m1, o + l, m1[t..t + n]);
            m2[40..o] == m[40..o] && m2[o..o + l] == m[s..s + l] && m2[o + l..o + l + n] == m[t..t + n]
  {
    hide Over, NoOverlap;
    var m1 := Over(m, o, m[s..s + l]);
    Second3(m, o, s, l, t, n);
    PackedLast(m1, o + l, m1[t..t + n], o);
  }

  lemma OverAt(m: seq<byte>, o: nat, x: seq<byte>, i: nat)
    requires o + |x| <= |m| && i < |m|
    ensures Over(m, o, x)[i] == if o <= i < o + |x| then x[i - o] else m[i]
  {
  }

  /** A memory of zeros with a one at `j`. */
  function OneAt(size: nat, j: nat): (m: seq<byte>)
    ensures |m| == size
  {
    seq(size, i => if i == j then 1 else 0)
  }

  /** The first bytes of the moved structure and strings blocks, and any other of the latter. */
  lemma Bytes3(m: seq<byte>, r: nat, k: nat, s: nat, l: nat, t: nat, n: nat, i: nat)
    requires Blocks3(|m|, r, k, s, l, t, n)
    ensures var m1 := Over(m, 40, m[r..r + k]);
            var m2 := Over(m1, 40 + k, m1[s..s + l]);
            var m3 := Moved3(m, r, k, s, l, t, n);
            (l > 0 ==> m3[40 + k] == m1[s]) && (i < n ==> m3[40 + k + l + i] == m2[t + i])
  {
    hide Over;
    var m1 := Over(m, 40, m[r..r + k]);
    var m2 := Over(m1, 40 + k, m1[s..s + l]);
    if l > 0 {
      OverAt(m1, 40 + k, m1[s..s + l], 40 + k);
      OverAt(m2, 40 + k + l, m2[t..t + n], 40 + k);
    }
    if i < n {
      OverAt(m2, 40 + k + l, m2[t..t + n], 40 + k + l + i);
    }
  }

  lemma LostStruct(m: seq<byte>, r: nat, k: nat, s: nat, l: nat, t: nat, n: nat)
    requires Blocks3(|m|, r, k, s, l, t, n) && l > 0 && Moved3(m, r, k, s, l, t, n)[40 + k] != m[s]
    ensures !Survive(m, r, k, s, l, t, n)
  {
    hide Moved3;
    var m3 := Moved3(m, r, k, s, l, t, n);
    assert m3[40 + k..40 + k + l][0] == m3[40 + k] && m[s..s + l][0] == m[s];
  }

  lemma LostStrings(m: seq<byte>, r: nat, k: nat, s: nat, l: nat, t: nat, n: nat, i: nat)
    requires Blocks3(|m|, r, k, s, l, t, n) && i < n && Moved3(m, r, k, s, l, t, n)[40 + k + l + i] != m[t + i]
    ensures !Survive(m, r, k, s, l, t, n)
  {
    hide Moved3;
    var m3 := Moved3(m, r, k, s, l, t, n);
    assert m3[40 + k + l..40 + k + l + n][i] == m3[40 + k + l + i] && m[t..t + n][i] == m[t + i];
  }

  /** Bytes that the map is moved over. */
  lemma MapRunsOver(size: nat, r: nat, k: nat, s: nat, l: nat, t: nat, n: nat) returns (m: seq<byte>)
    requires Blocks3(size, r, k, s, l, t, n) && r != 40 && !(NoOverlap(40, k, s, l) && NoOverlap(40, k, t, n))
    ensures |m| == size && !Survive(m, r, k, s, l, t, n)
  {
    hide Over, Moved3, Survive;
    var i := if l > 0 then s else t;
    m := OneAt(size, i + r - 40);
    var m1 := Over(m, 40, m[r..r + k]);
    OverAt(m, 40, m[r..r + k], i);
    assert m1[i] == m[i + r - 40] == 1 && m[i] == 0;
    Bytes3(m, r, k, s, l, t, n, 0);
    if l > 0 {
      LostStruct(m, r, k, s, l, t, n);
    } else {
      assert m1[s..s + l] == [];
      OverAt(m1, 40 + k, [], t);
      LostStrings(m, r, k, s, l, t, n, 0);
    }
  }

  /** Bytes that the structure block is moved over. */
  lemma StructRunsOver(size: nat, r: nat, k: nat, s: nat, l: nat, t: nat, n: nat) returns (m: seq<byte>)
    requires Blocks3(size, r, k, s, l, t, n) && 40 + k != s && !NoOverlap(40 + k, l, t, n)
    requires r == 40 || (NoOverlap(40, k, s, l) && NoOverlap(40, k, t, n))
    ensures |m| == size && !Survive(m, r, k, s, l, t, n)
  {
    hide Over, Moved3, Survive;
    var i := if t > 40 + k then t else 40 + k;
    var j := i - (40 + k) + s;
    m := OneAt(size, j);
    assert r == 40 || k == 0;
    var m1 := Over(m, 40, m[r..r + k]);
    OverAt(m, 40, m[r..r + k], j);
    assert m1[j] == 1 && m[i] == 0;
    OverAt(m1, 40 + k, m1[s..s + l], i);
    Bytes3(m, r, k, s, l, t, n, i - t);
    LostStrings(m, r, k, s, l, t, n, i - t);
  }

  /** Exactly the layouts for which the three moves lose nothing, whatever the bytes. */
  lemma SafeExactly(size: nat, r: nat, k: nat, s: nat, l: nat, t: nat, n: nat)
    requires Blocks3(size, r, k, s, l, t, n)
    ensures Safe(r, k, s, l, t, n) <==> forall m: seq<byte> :: |m| == size ==> Survive(m, r, k, s, l, t, n)
  {
    hide Survive;
    if Safe(r, k, s, l, t, n) {
      forall m: seq<byte> | |m| == size ensures Survive(m, r, k, s, l, t, n) {
        Arrived3(m, r, k, s, l, t, n);
      }
    } else if r != 40 && !(NoOverlap(40, k, s, l) && NoOverlap(40, k, t, n)) {
      var m := MapRunsOver(size, r, k, s, l, t, n);
    } else {
      var m := StructRunsOver(size, r, k, s, l, t, n);
    }
  }

  // ----- packing -----

  /** What fdt_pack() needs: the map is terminated, and with the map as counted the moves are safe and stay
      inside the blob. */
  ghost predicate Packable(b: Blob, n: nat) {
    Counted(b, n) && PackedHeader(b.h, n).totalsize <= b.h.totalsize
    && Safe(b.h.offRsv, 16 * (n + 1), b.h.offStruct, b.h.sizeStruct, b.h.offStrings, b.h.sizeStrings)
  }

  /** So it is when the map ends in front of the structure block. */
  lemma MapInFront(b: Blob, n: nat)
    requires HasMap(b, n)
    ensures Packable(b, n)
  {
    hide RsvEnd;
  }

  ghost function PackedMem(b: Blob, n: nat): seq<byte>
    requires Packable(b, n)
  {
    Moved3(b.mem, b.h.offRsv, 16 * (n + 1), b.h.offStruct, b.h.sizeStruct, b.h.offStrings, b.h.sizeStrings)
  }

  lemma PackedBlocks(b: Blob, b': Blob, n: nat)
    requires Packable(b, n) && b' == Blob(PackedHeader(b.h, n), PackedMem(b, n))
    ensures b'.Fits() && Ordered(b'.h) && b'.Struct() == b.Struct() && b'.Strings() == b.Strings()
    ensures b'.mem[40..b'.h.offStruct] == Map(b, n)
  {
    hide Moved3, RsvEnd, Safe;
    CountedInside(b, n);
    Arrived3(b.mem, b.h.offRsv, 16 * (n + 1), b.h.offStruct, b.h.sizeStruct, b.h.offStrings, b.h.sizeStrings);
  }

  lemma PackedLast(m: seq<byte>, o: nat, z: seq<byte>, s: nat)
    requires 40 <= s <= o && o + |z| <= |m|
    ensures var m' := Over(m, o, z);
            m'[o..o + |z|] == z && m'[s..o] == m[s..o] && m'[40..s] == m[40..s]
  {
    hide Over;
    OverInside(m, o, z, o, o + |z|);
    OverBefore(m, o, z, s, o);
    OverBefore(m, o, z, 40, s);
  }

  /** The map is still terminated by the same entry. */
  lemma PackedMap(b: Blob, b': Blob, n: nat)
    requires Packable(b, n) && b' == Blob(PackedHeader(b.h, n), PackedMem(b, n))
    ensures HasMap(b', n) && Map(b', n) == Map(b, n)
  {
    hide Over, PackedMem, RsvEnd, Safe;
    PackedBlocks(b, b', n);
    CountedInside(b, n);
    forall i: nat | i <= n
      ensures RsvEnd(b', i) == RsvEnd(b, i)
    {
      SameEntry(b, b', n, i);
    }
  }

  lemma SameEntry(b: Blob, b': Blob, n: nat, i: nat)
    requires b.Fits() && b'.Fits() && i <= n
    requires b.h.offRsv + 16 * (n + 1) <= b.h.totalsize && b'.h.offRsv + 16 * (n + 1) <= b'.h.totalsize
    requires b'.mem[b'.h.offRsv..b'.h.offRsv + 16 * (n + 1)] == b.mem[b.h.offRsv..b.h.offRsv + 16 * (n + 1)]
    ensures RsvEnd(b', i) == RsvEnd(b, i)
  {
    hide Load32;
    var o, o', k := b.h.offRsv, b'.h.offRsv, 16 * (n + 1);
    SliceLoad(b.mem, o, o + k, 16 * i + 8);
    SliceLoad(b.mem, o, o + k, 16 * i + 12);
    SliceLoad(b'.mem, o', o' + k, 16 * i + 8);
    SliceLoad(b'.mem, o', o' + k, 16 * i + 12);
  }

  /** fdt_pack(): the same map, tree and strings in no more space than before. */
  method Pack(f: Fdt, ghost n: nat) returns (err: int)
    requires f.View().Fits() && (Ordered(f.h) ==> Packable(f.View(), n))
    modifies f, f.buf
    ensures err == if Ordered(old(f.h)) then 0 else ERR_BADLAYOUT
    ensures err != 0 ==> f.View() == old(f.View())
    ensures err == 0 ==>
              var b := old(f.View());
              f.View() == Blob(PackedHeader(b.h, n), PackedMem(b, n))
              && HasMap(f.View(), n) && Map(f.View(), n) == Map(b, n)
              && f.View().Struct() == b.Struct() && f.View().Strings() == b.Strings()
              && f.View().Tree() == b.Tree() && f.h.totalsize == DataSize(f.h) <= b.h.totalsize
  {
    hide Moved3, Scan, TreeOf, Safe;
    OrderedExactly(f.View());
    if BlocksMisordered(f.h, 16, f.h.sizeStruct) {
      return ERR_BADLAYOUT;
    }
    ghost var b := f.View();
    var k := NumMemRsv(f.View());
    assert k == n;
    MoveBlocks(f, (k + 1) * 16);
    f.h := f.h.(totalsize := DataSize(f.h));
    PackedBlocks(b, f.View(), n);
    PackedMap(b, f.View(), n);
    err := 0;
  }

  /** fdt_packblocks_() onto the blob itself */
  method MoveBlocks(f: Fdt, k: nat)
    requires Blocks3(f.buf.Length, f.h.offRsv, k, f.h.offStruct, f.h.sizeStruct, f.h.offStrings, f.h.sizeStrings)
    modifies f, f.buf
    ensures f.h == old(f.h).(offRsv := 40, offStruct := 40 + k, offStrings := 40 + k + f.h.sizeStruct)
    ensures var h := old(f.h);
            f.buf[..] == Moved3(old(f.buf[..]), h.offRsv, k, h.offStruct, h.sizeStruct, h.offStrings, h.sizeStrings)
  {
    hide Over;
    var structOff := 40 + k;
    var stringsOff := structOff + f.h.sizeStruct;
    Memmove(f.buf, 40, f.h.offRsv, k);
    f.h := f.h.(offRsv := 40);
    Memmove(f.buf, structOff, f.h.offStruct, f.h.sizeStruct);
    f.h := f.h.(offStruct := structOff);
    Memmove(f.buf, stringsOff, f.h.offStrings, f.h.sizeStrings);
    f.h := f.h.(offStrings := stringsOff);
  }

  /** Packing a packed blob changes nothing. */
  lemma PackIdempotent(b: Blob, b': Blob, n: nat)
    requires Packable(b, n) && b' == Blob(PackedHeader(b.h, n), PackedMem(b, n))
    ensures Packable(b', n) && Blob(PackedHeader(b'.h, n), PackedMem(b', n)) == b'
  {
    hide PackedMem, Over, Safe, RsvEnd;
    PackedMap(b, b', n);
    MapInFront(b', n);
    PackedStays(b', n);
  }

  lemma PackedStays(b: Blob, n: nat)
    requires Packable(b, n) && b.h == PackedHeader(b.h, n)
    ensures PackedMem(b, n) == b.mem
  {
    hide Over;
    var h := b.h;
    OverItself(b.mem, 40, h.offStruct);
    OverItself(b.mem, h.offStruct, h.offStrings);
    OverItself(b.mem, h.offStrings, h.totalsize);
  }

  lemma OverItself(m: seq<byte>, i: nat, j: nat)
    requires i <= j <= |m|
    ensures Over(m, i, m[i..j]) == m
  {
  }

  /** A blob of 56 bytes with one reserved range and no room for the entry that would end the map: the blocks
      are in order and fdt_pack() goes on, but fdt_num_mem_rsv() counts nothing. */
  lemma Unterminated(b: Blob)
    requires b.h == Header(FDT_MAGIC, 56, 56, 56, 40, 17, 16, 0, 0) && |b.mem| == 56
    ensures b.Fits() && Ordered(b.h)
    ensures (exists n :: Counted(b, n)) <==> Load32(b.mem, 48) == 0 && Load32(b.mem, 52) == 0
  {
    hide Load32;
    assert RsvEnd(b, 0) <==> Load32(b.mem, 48) == 0 && Load32(b.mem, 52) == 0;
    if RsvEnd(b, 0) {
      assert Counted(b, 0);
    }
    forall n: nat | Counted(b, n) ensures RsvEnd(b, 0) {
      CountedInside(b, n);
    }
  }
}

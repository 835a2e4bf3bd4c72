/** The journal on values (journal.c, journal.h): blocks in the order they were logged, what
    replaying them gives, and the credit and ring arithmetic. */
module JournalSpec {

  import opened Options

  /** The contents of one disk sector. */
  type Sector = int

  /** journal_block_t; its identity is its place in memory. */
  datatype Block = Block(id: nat, nr: nat, data: seq<Sector>)

  datatype Trans = Trans(tid: nat, credits: nat, logBlocks: nat, refs: nat, buffers: seq<Block>)

  /** A buffer head: its cached sector, its flags, and the last journal block that wrote it. */
  datatype Buffer = Buffer(data: Sector, dirty: bool, journal: bool, block: Option<nat>)

  /** The buffer of sector `i` of block `nr`. */
  datatype Key = Key(nr: nat, i: nat)

  type Buffers = map<Key, Buffer>

  /** Home blocks. */
  type Disk = map<nat, seq<Sector>>

  /** journal_jb2db() plus a sector number names each sector of each block once. */
  lemma SectorsApart(per: nat, x: Key, y: Key)
    requires x.i < per && y.i < per && x.nr * per + x.i == y.nr * per + y.i
    ensures x == y
  {
    if x.nr < y.nr {
      BlockAbove(per, x.nr, y.nr);
    } else if y.nr < x.nr {
      BlockAbove(per, y.nr, x.nr);
    }
  }

  lemma BlockAbove(per: nat, a: nat, b: nat)
    requires a < b
    ensures a * per + per <= b * per
  {
    assert b * per == (a + 1) * per + (b - a - 1) * per;
  }

  // ----- the log ring -----

  /** journal_wrap() */
  function Wrap(first: nat, last: nat, v: int): int {
    if v >= last then v - (last - first) else v
  }

  /** One wrap brings the tail back into the ring exactly when the transaction logged less than what
      is left of the ring and one round more. */
  lemma WrapInRing(first: nat, last: nat, tail: nat, log: nat)
    requires first <= tail < last
    ensures first <= Wrap(first, last, tail + log) < last <==> tail + log < last + (last - first)
    ensures log <= last - first ==> first <= Wrap(first, last, tail + log) < last
  {
  }

  /** The log blocks of some transactions. */
  function Logged(ts: seq<Trans>): nat {
    if ts == [] then 0 else ts[0].logBlocks + Logged(ts[1..])
  }

  lemma {:induction false} LoggedAppend(ts: seq<Trans>, t: Trans)
    ensures Logged([]) == 0 && Logged(ts + [t]) == Logged(ts) + t.logBlocks
  {
    if ts == [] {
      assert ts + [t] == [t] && [t][1..] == [];
    } else {
      assert (ts + [t])[1..] == ts[1..] + [t];
      LoggedAppend(ts[1..], t);
    }
  }

  /** Where the tail is once so many log blocks are passed. */
  ghost predicate Around(first: nat, last: nat, tail: nat, log: nat, tail': int) {
    first <= tail' < last && tail' - first == (tail - first + log) % (last - first)
  }

  lemma AroundMeans(first: nat, last: nat, tail: nat, log: nat, tail': int)
    requires Around(first, last, tail, log, tail')
    ensures first <= tail' < last && tail' - first == (tail - first + log) % (last - first)
  {
  }

  lemma AroundNone(first: nat, last: nat, tail: nat)
    requires first <= tail < last
    ensures Around(first, last, tail, 0, tail)
  {
    Small(tail - first, last - first);
  }

  /** One wrap is the remainder, when nothing longer than the ring is passed. */
  lemma AroundMore(first: nat, last: nat, tail: nat, log: nat, tail': int, more: nat)
    requires first <= tail < last && Around(first, last, tail, log, tail') && more <= last - first
    ensures var t := Wrap(first, last, tail' + more); Around(first, last, tail, log + more, t)
  {
    var n, x, y := last - first, tail' - first, tail - first + log;
    SumRemainder(y, more, n);
    if x + more >= n {
      OneRound(x + more - n, n);
    }
    Small(if x + more >= n then x + more - n else x + more, n);
  }

  lemma Small(x: nat, n: nat)
    requires x < n
    ensures x % n == x
  {
  }

  lemma OneRound(x: nat, n: nat)
    requires n > 0
    ensures (x + n) % n == x % n
  {
    SumRemainder(n, x, n);
    assert n % n == 0;
  }

  lemma SumRemainder(y: nat, z: nat, n: nat)
    requires n > 0
    ensures (y % n + z) % n == (y + z) % n
  {
    var k := (y + z) / n - (y % n + z) / n - y / n;
    var r := (y % n + z) % n - (y + z) % n;
    assert k * n == r by {
      assert y == y / n * n + y % n;
      assert y + z == (y + z) / n * n + (y + z) % n;
      assert y % n + z == (y % n + z) / n * n + (y % n + z) % n;
      assert k * n == (y + z) / n * n - (y % n + z) / n * n - y / n * n;
    }
    NoMultiple(k, n);
  }

  lemma NoMultiple(k: int, n: int)
    requires n >= 0
    ensures -n < k * n < n ==> k == 0
  {
    if k >= 1 {
      assert k * n == n + (k - 1) * n >= n;
    } else if k <= -1 {
      assert -(k * n) == n + (-k - 1) * n >= n;
    }
  }

  // ----- credits -----

  function Credits(ts: seq<Trans>): nat {
    if ts == [] then 0 else ts[0].credits + Credits(ts[1..])
  }

  lemma {:induction false} CreditsAppend(ts: seq<Trans>, t: Trans)
    ensures Credits(ts + [t]) == Credits(ts) + t.credits
  {
    if ts == [] {
      assert ts + [t] == [t] && [t][1..] == [];
    } else {
      assert (ts + [t])[1..] == ts[1..] + [t];
      CreditsAppend(ts[1..], t);
    }
  }

  // ----- blocks in log order -----

  function Blocks(ts: seq<Trans>): seq<Block> {
    if ts == [] then [] else ts[0].buffers + Blocks(ts[1..])
  }

  /** The handles that the transaction of that number still has, if it is there. */
  function RefsIn(ts: seq<Trans>, tid: nat): nat {
    if ts == [] then 0 else if ts[0].tid == tid then ts[0].refs else RefsIn(ts[1..], tid)
  }

  /** One handle of that transaction less. */
  function DropRef(ts: seq<Trans>, tid: nat): (r: seq<Trans>)
    requires RefsIn(ts, tid) > 0
    ensures |r| == |ts| && RefsIn(r, tid) == RefsIn(ts, tid) - 1
    ensures forall i :: 0 <= i < |ts| ==> r[i] == ts[i].(refs := r[i].refs)
  {
    if ts[0].tid == tid then [ts[0].(refs := ts[0].refs - 1)] + ts[1..]
    else [ts[0]] + DropRef(ts[1..], tid)
  }

  /** Space and blocks do not depend on handles. */
  lemma {:induction false} DropKeeps(ts: seq<Trans>, tid: nat)
    requires RefsIn(ts, tid) > 0
    ensures Credits(DropRef(ts, tid)) == Credits(ts) && Blocks(DropRef(ts, tid)) == Blocks(ts)
    ensures Logged(DropRef(ts, tid)) == Logged(ts)
  {
    var r := DropRef(ts, tid);
    if ts[0].tid == tid {
      assert r[1..] == ts[1..];
    } else {
      assert r[1..] == DropRef(ts[1..], tid);
      DropKeeps(ts[1..], tid);
    }
  }

  /** Neither do the numbers and the log blocks of the transactions. */
  lemma DropSame(ts: seq<Trans>, tid: nat, m: nat, n: int)
    requires RefsIn(ts, tid) > 0 && forall t :: t in ts ==> t.tid < m && t.logBlocks <= n
    ensures forall t :: t in DropRef(ts, tid) ==> t.tid < m && t.logBlocks <= n
  {
    hide DropRef, RefsIn;
    var r := DropRef(ts, tid);
    forall t | t in r
      ensures t.tid < m && t.logBlocks <= n
    {
      var i :| 0 <= i < |r| && r[i] == t;
      assert ts[i] in ts;
    }
  }

  lemma {:induction false} BlocksAppend(ts: seq<Trans>, t: Trans)
    ensures Blocks(ts + [t]) == Blocks(ts) + t.buffers
  {
    if ts == [] {
      assert ts + [t] == [t] && [t][1..] == [];
    } else {
      assert (ts + [t])[1..] == ts[1..] + [t];
      BlocksAppend(ts[1..], t);
    }
  }

  /** The last journal block for a home block. */
  function Latest(bs: seq<Block>, nr: nat): Option<Block> {
    if bs == [] then None
    else if bs[|bs| - 1].nr == nr then Some(bs[|bs| - 1])
    else Latest(bs[..|bs| - 1], nr)
  }

  lemma {:induction false} LatestIn(bs: seq<Block>, nr: nat)
    ensures Latest(bs, nr).Some? ==> Latest(bs, nr).value in bs && Latest(bs, nr).value.nr == nr
    ensures Latest(bs, nr).None? ==> forall b :: b in bs ==> b.nr != nr
  {
    if bs != [] {
      var p := bs[..|bs| - 1];
      LatestIn(p, nr);
      assert bs == p + [bs[|bs| - 1]];
    }
  }

  lemma LatestMore(bs: seq<Block>, b: Block, nr: nat)
    ensures Latest(bs + [b], nr) == if b.nr == nr then Some(b) else Latest(bs, nr)
  {
    var s := bs + [b];
    assert s[..|s| - 1] == bs && s[|s| - 1] == b;
  }

  lemma {:induction false} LatestAppend(a: seq<Block>, b: seq<Block>, nr: nat)
    ensures Latest(a + b, nr) == if Latest(b, nr).Some? then Latest(b, nr) else Latest(a, nr)
    decreases |b|
  {
    if b == [] {
      assert a + b == a;
    } else {
      var p, x := b[..|b| - 1], b[|b| - 1];
      LatestAppend(a, p, nr);
      LatestMore(a + p, x, nr);
      LatestMore(p, x, nr);
      assert a + b == (a + p) + [x] && b == p + [x];
    }
  }

  /** Home blocks after the journal blocks are written to them in order. */
  function Replay(disk: Disk, bs: seq<Block>): Disk {
    if bs == [] then disk else Replay(disk, bs[..|bs| - 1])[bs[|bs| - 1].nr := bs[|bs| - 1].data]
  }

  lemma ReplayMore(disk: Disk, bs: seq<Block>, b: Block)
    ensures Replay(disk, bs + [b]) == Replay(disk, bs)[b.nr := b.data]
  {
    var s := bs + [b];
    assert s[..|s| - 1] == bs && s[|s| - 1] == b;
  }

  /** Replay leaves the latest version of every block, and the rest of the disk alone. */
  lemma {:induction false} ReplayLatest(disk: Disk, bs: seq<Block>, nr: nat)
    ensures Latest(bs, nr).Some? ==> nr in Replay(disk, bs) && Replay(disk, bs)[nr] == Latest(bs, nr).value.data
    ensures Latest(bs, nr).None? ==>
              (nr in Replay(disk, bs) <==> nr in disk) && (nr in disk ==> Replay(disk, bs)[nr] == disk[nr])
  {
    if bs != [] {
      ReplayLatest(disk, bs[..|bs| - 1], nr);
    }
  }

  /** Replaying in two parts is replaying all. */
  lemma {:induction false} ReplayBoth(disk: Disk, a: seq<Block>, b: seq<Block>)
    ensures Replay(Replay(disk, a), b) == Replay(disk, a + b)
    decreases |b|
  {
    if b == [] {
      assert a + b == a;
    } else {
      var p, x := b[..|b| - 1], b[|b| - 1];
      ReplayBoth(disk, a, p);
      ReplayMore(disk, a + p, x);
      assert a + b == (a + p) + [x] && b == p + [x];
      ReplayMore(Replay(disk, a), p, x);
    }
  }

  // ----- buffers and blocks -----

  /** Identities are used once. */
  ghost predicate Fresh(bs: seq<Block>, next: nat, per: nat) {
    (forall b :: b in bs ==> b.id < next && |b.data| == per)
    && forall i, j :: 0 <= i < j < |bs| ==> bs[i].id != bs[j].id
  }

  /** The buffer holds what the journal block says, is flagged, and knows the block. */
  ghost predicate Holds(bufs: Buffers, b: Block, i: nat)
    requires i < |b.data|
  {
    var k := Key(b.nr, i);
    k in bufs && bufs[k] == Buffer(b.data[i], true, true, Some(b.id))
  }

  /** Every sector in the log is held in the cache as its latest journal block has it. */
  ghost predicate Pinned(bufs: Buffers, bs: seq<Block>, per: nat) {
    forall nr: nat, i: nat :: i < per && Latest(bs, nr).Some? && |Latest(bs, nr).value.data| == per
                              ==> Holds(bufs, Latest(bs, nr).value, i)
  }

  // ----- checkpointing the buffers -----

  /** The buffers whose latest journal block is `b` lose their flags. */
  function CleanOne(bufs: Buffers, b: Block): Buffers {
    map k | k in bufs :: if k.nr == b.nr
      && bufs[k].block == Some(b.id) then bufs[k].(dirty := false, journal := false) else bufs[k]
  }

  function CleanAll(bufs: Buffers, bs: seq<Block>): (r: Buffers)
    ensures r.Keys == bufs.Keys
  {
    if bs == [] then bufs else CleanOne(CleanAll(bufs, bs[..|bs| - 1]), bs[|bs| - 1])
  }

  lemma CleanMore(bufs: Buffers, bs: seq<Block>, b: Block)
    ensures CleanAll(bufs, bs + [b]) == CleanOne(CleanAll(bufs, bs), b)
  {
    var s := bs + [b];
    assert s[..|s| - 1] == bs && s[|s| - 1] == b;
  }

  /** What cleaning does to one buffer. */
  lemma {:induction false} CleanedAt(bufs: Buffers, bs: seq<Block>, k: Key)
    requires k in bufs
    ensures CleanAll(bufs, bs)[k] ==
            if exists b :: b in bs && b.nr == k.nr && bufs[k].block == Some(b.id)
            then bufs[k].(dirty := false, journal := false)
            else bufs[k]
  {
    if bs != [] {
      var p, x := bs[..|bs| - 1], bs[|bs| - 1];
      assert bs == p + [x];
      CleanedAt(bufs, p, k);
    }
  }

  lemma FreshParts(c: seq<Block>, r: seq<Block>, next: nat, per: nat)
    requires Fresh(c + r, next, per)
    ensures Fresh(c, next, per) && Fresh(r, next, per)
    ensures forall a, b :: a in c && b in r ==> a.id != b.id
  {
    var s := c + r;
    assert forall i :: 0 <= i < |c| ==> s[i] == c[i];
    assert forall i :: 0 <= i < |r| ==> s[|c| + i] == r[i];
    assert forall b :: b in c ==> b in s;
    assert forall b :: b in r ==> b in s;
    forall a, b | a in c && b in r
      ensures a.id != b.id
    {
      var i :| 0 <= i < |c| && c[i] == a;
      var j :| 0 <= j < |r| && r[j] == b;
      assert s[i].id != s[|c| + j].id;
    }
  }

  /** After the transactions with blocks `c` are checkpointed and those with blocks `r` are not: a
      logged sector is clean exactly when its latest journal block was in `c`, and then the cache
      agrees with the disk; otherwise it is still pinned as it was. */
  lemma CheckpointMeans(bufs: Buffers, disk: Disk, c: seq<Block>, r: seq<Block>, next: nat, per: nat, nr: nat, i: nat)
    requires Fresh(c + r, next, per) && Pinned(bufs, c + r, per) && i < per && Latest(c + r, nr).Some?
    ensures var (k, bufs', disk') := (Key(nr, i), CleanAll(bufs, c), Replay(disk, c));
            k in bufs' && bufs'[k].data == bufs[k].data
            && (Latest(r, nr).None? ==> !bufs'[k].dirty && !bufs'[k].journal && nr in disk' && |disk'[nr]| == per
                                        && bufs'[k].data == disk'[nr][i])
            && (Latest(r, nr).Some? ==>
                  var b := Latest(r, nr).value;
                  |b.data| == per && bufs'[k] == bufs[k] == Buffer(b.data[i], true, true, Some(b.id)))
  {
    hide Replay, CleanAll;
    var k, b := Key(nr, i), Latest(c + r, nr).value;
    LatestAppend(c, r, nr);
    LatestIn(c + r, nr);
    LatestIn(r, nr);
    LatestIn(c, nr);
    assert Holds(bufs, b, i);
    FreshParts(c, r, next, per);
    CleanedAt(bufs, c, k);
    ReplayLatest(disk, c, nr);
    if Latest(r, nr).None? {
      assert b in c;
    } else {
      assert forall x :: x in c ==> x.id != b.id;
    }
  }

  /** What is still in the log stays pinned. */
  lemma CheckpointPins(bufs: Buffers, disk: Disk, c: seq<Block>, r: seq<Block>, next: nat, per: nat)
    requires Fresh(c + r, next, per) && Pinned(bufs, c + r, per)
    ensures Pinned(CleanAll(bufs, c), r, per)
  {
    hide CleanAll, Latest;
    forall nr: nat, i: nat | i < per && Latest(r, nr).Some? && |Latest(r, nr).value.data| == per
      ensures Holds(CleanAll(bufs, c), Latest(r, nr).value, i)
    {
      LatestAppend(c, r, nr);
      LatestIn(r, nr);
      CheckpointMeans(bufs, disk, c, r, next, per, nr, i);
    }
  }
}

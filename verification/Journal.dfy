/** The journal in memory (journal.c): handles, transactions, dirty blocks, checkpoints. */
module Journal {
  import opened Options
  import opened JournalSpec

  class Journal {
    /** The ring of log blocks, and the sectors in a block. */
    const first: nat
    const last: nat
    const per: nat

    var free: int
    var tail: nat
    var tailSequence: nat
    var sequence: nat
    var nextId: nat
    var running: Trans
    var checkpoint: seq<Trans>
    var bufs: Buffers
    var disk: Disk

    /** All the space there is to reserve. */
    ghost const total: int

    constructor (first: nat, last: nat, per: nat, free: nat, disk: Disk)
      requires first < last
      ensures Valid() && this.per == per && this.disk == disk && total == free && checkpoint == [] && bufs == map[]
    {
      this.first, this.last, this.per, this.free, this.total := first, last, per, free, free;
      this.tail, this.tailSequence, this.sequence, this.nextId := first, 1, 2, 0;
      this.running, this.checkpoint, this.bufs, this.disk := Trans(1, 0, 0, 0, []), [], map[], disk;
    }

    /** All journal blocks that are not home yet, in the order they were logged. */
    ghost function Log(): seq<Block>
      reads this
    {
      Blocks(checkpoint) + running.buffers
    }

    /** Space that is free or reserved is all the space. */
    ghost predicate Conserved()
      reads this
    {
      0 <= free && free + running.credits + Credits(checkpoint) == total
    }

    /** No transaction logs more than the ring holds. */
    ghost predicate InRing()
      reads this
    {
      first <= tail < last && forall t :: t in checkpoint ==> t.logBlocks <= last - first
    }

    /** Transactions are numbered in the order they ran. */
    ghost predicate Numbered()
      reads this
    {
      running.tid < sequence && (forall t :: t in checkpoint ==> t.tid < running.tid)
      && forall i, j :: 0 <= i < j < |checkpoint| ==> checkpoint[i].tid < checkpoint[j].tid
    }

    ghost predicate Valid()
      reads this
    {
      Conserved() && InRing() && Numbered() && |running.buffers| <= running.credits
      && Fresh(Log(), nextId, per) && Pinned(bufs, Log(), per) && forall k :: k in bufs ==> k.i < per
    }

    /** journal_new_trans() */
    method NewTrans() returns (t: Trans)
      modifies this`sequence
      ensures t == Trans(old(sequence), 0, 0, 0, []) && sequence == old(sequence) + 1
    {
      t := Trans(sequence, 0, 0, 0, []);
      sequence := sequence + 1;
    }

    /** The file system's commit, when its writes to the log succeed: the running transaction, which
        took `logged` log blocks, waits for a checkpoint and a new one runs. */
    method Commit(logged: nat)
      requires Valid() && logged <= last - first
      modifies this
      ensures Valid() && Log() == old(Log()) && bufs == old(bufs) && disk == old(disk)
      ensures checkpoint == old(checkpoint) + [old(running).(logBlocks := logged)]
      ensures running == Trans(old(sequence), 0, 0, 0, []) && free == old(free) && tail == old(tail)
      ensures sequence == old(sequence) + 1 && tailSequence == old(tailSequence) && nextId == old(nextId)
    {
      hide Fresh, Pinned;
      var t := running.(logBlocks := logged);
      CreditsAppend(checkpoint, t);
      BlocksAppend(checkpoint, t);
      ghost var log := Log();
      running := NewTrans();
      checkpoint := checkpoint + [t];
      assert Log() == log;
    }

    /** journal_start(): `needed` is the log space the file system takes for `nblocks`, and `perTrans`
        what one transaction may take. */
    method Start(nblocks: nat, needed: nat, perTrans: nat, allocOk: bool) returns (h: Option<nat>)
      requires Valid() && nblocks <= needed
      modifies this
      ensures Valid()
      ensures h.Some? ==> h.value == running.tid == old(running).tid
                          && running == old(running).(credits := old(running).credits + nblocks,
                                                      refs := old(running).refs + 1)
      ensures h.None? ==> running == old(running)
      ensures if needed > perTrans || needed <= old(free)
              then checkpoint == old(checkpoint) && disk == old(disk) && bufs == old(bufs)
                   && tail == old(tail) && tailSequence == old(tailSequence)
              else checkpoint == [] && disk == Replay(old(disk), Blocks(old(checkpoint)))
                   && bufs == CleanAll(old(bufs), Blocks(old(checkpoint)))
                   && tail - first == (old(tail) - first + Logged(old(checkpoint))) % (last - first)
                   && tailSequence == old(tailSequence) + |old(checkpoint)|
      ensures free == old(free) + (if needed <= perTrans && needed > old(free) then Credits(old(checkpoint)) else 0)
                      - (if h.Some? then nblocks else 0)
      ensures h.Some? <==> allocOk && needed <= perTrans
                           && (needed <= old(free) || needed <= old(free) + Credits(old(checkpoint)))
    {
      if needed > perTrans {
        return None;
      }
      if needed > free {
        Checkpoint();
        if needed > free {
          return None;
        }
      }
      if !allocOk {
        return None;
      }
      running := running.(credits := running.credits + nblocks, refs := running.refs + 1);
      free := free - nblocks;
      h := Some(running.tid);
    }

    /** The handles that are out for a transaction. */
    function Refs(tid: nat): nat
      reads this
    {
      if tid == running.tid then running.refs else RefsIn(checkpoint, tid)
    }

    /** journal_stop() of a handle of the running transaction or of one that a forced commit has left
        waiting: the last handle of either commits what is running and checkpoints. */
    method Stop(tid: nat, logged: nat)
      requires Valid() && Refs(tid) > 0 && logged <= last - first
      modifies this
      ensures Valid()
      ensures old(Refs(tid)) > 1 ==> Refs(tid) == old(Refs(tid)) - 1 && bufs == old(bufs) && disk == old(disk)
                                     && free == old(free) && Log() == old(Log())
                                     && tail == old(tail) && tailSequence == old(tailSequence)
                                     && running == old(running).(refs := running.refs)
                                     && checkpoint == if tid == running.tid then old(checkpoint)
                                       else DropRef(old(checkpoint), tid)
      ensures old(Refs(tid)) == 1 ==> checkpoint == [] && running == Trans(old(sequence), 0, 0, 0, [])
                                      && disk == Replay(old(disk), old(Log()))
                                        && bufs == CleanAll(old(bufs), old(Log()))
                                      && free == total && tailSequence == old(tailSequence) + |old(checkpoint)| + 1
                                      && tail - first
                                        == (old(tail) - first + Logged(old(checkpoint)) + logged) % (last - first)
    {
      hide Fresh, Pinned, Replay, CleanAll, Logged, DropRef, Conserved, InRing, Numbered;
      ghost var log := Log();
      Release(tid);
      if Refs(tid) == 0 {
        LoggedAppend(checkpoint, running.(logBlocks := logged));
        Commit(logged);
        assert Blocks(checkpoint) == log by {
          assert Blocks(checkpoint) + [] == Blocks(checkpoint);
        }
        Checkpoint();
        NothingOut();
      }
    }

    /** --t->t_ref */
    method Release(tid: nat)
      requires Valid() && Refs(tid) > 0
      modifies this`running, this`checkpoint
      ensures Valid() && Refs(tid) == old(Refs(tid)) - 1 && Log() == old(Log())
              && running == old(running).(refs := running.refs)
      ensures checkpoint == if tid == running.tid then old(checkpoint) else DropRef(old(checkpoint), tid)
      ensures |checkpoint| == |old(checkpoint)| && Logged(checkpoint) == Logged(old(checkpoint))
    {
      hide Fresh, Pinned, Logged, DropRef, RefsIn, Credits, Blocks;
      if tid == running.tid {
        running := running.(refs := running.refs - 1);
      } else {
        DropKeeps(checkpoint, tid);
        DropSame(checkpoint, tid, running.tid, last - first);
        checkpoint := DropRef(checkpoint, tid);
      }
    }

    /** With nothing reserved everything is free. */
    lemma NothingOut()
      requires Valid() && checkpoint == [] && running.credits == 0
      ensures free == total
    {
      hide Fresh, Pinned;
    }

    /** journal_dirty_block(): the block joins the running transaction and the cache. */
    method DirtyBlock(nr: nat, data: seq<Sector>)
      requires Valid() && |running.buffers| < running.credits && |data| == per
      modifies this
      ensures Valid() && Log() == old(Log()) + [Block(old(nextId), nr, data)] && running.credits == old(running).credits
      ensures running == old(running).(buffers := old(running).buffers + [Block(old(nextId), nr, data)])
      ensures checkpoint == old(checkpoint) && disk == old(disk) && free == old(free)
      ensures tail == old(tail) && tailSequence == old(tailSequence) && sequence == old(sequence)
      ensures forall i: nat :: i < per ==>
                Key(nr, i) in bufs && bufs[Key(nr, i)] == Buffer(data[i], true, true, Some(old(nextId)))
      ensures forall k :: k in old(bufs) && k.nr != nr ==> k in bufs && bufs[k] == old(bufs)[k]
    {
      var b := Block(nextId, nr, data);
      ghost var log := Log();
      nextId := nextId + 1;
      CacheBlock(b);
      running := running.(buffers := running.buffers + [b]);
      assert Log() == log + [b];
      assert forall i: nat :: i < per ==> Holds(bufs, b, i);
      hide Holds;
      DirtyPins(old(bufs), bufs, log, b, old(nextId), per);
    }

    /** The loop of journal_dirty_block() over the sectors of the block. */
    method CacheBlock(b: Block)
      requires |b.data| == per
      modifies this`bufs
      ensures forall i: nat :: i < per ==> Key(b.nr, i) in bufs
                                           && bufs[Key(b.nr, i)] == Buffer(b.data[i], true, true, Some(b.id))
      ensures forall k :: k in old(bufs) && k.nr != b.nr ==> k in bufs && bufs[k] == old(bufs)[k]
      ensures forall k :: k in bufs ==> k in old(bufs) || k.i < per
    {
      var i := 0;
      while i < per
        invariant 0 <= i <= per
        invariant forall j: nat :: j < i ==>
                    Key(b.nr, j) in bufs && bufs[Key(b.nr, j)] == Buffer(b.data[j], true, true, Some(b.id))
        invariant forall k :: k in old(bufs) && k.nr != b.nr ==> k in bufs && bufs[k] == old(bufs)[k]
        invariant forall k :: k in bufs ==> k in old(bufs) || k.i < per
      {
        bufs := bufs[Key(b.nr, i) := Buffer(b.data[i], true, true, Some(b.id))];
        i := i + 1;
      }
    }

    // ----- checkpointing -----

    /** The loop of journal_checkpoint_transactions() over the sectors of one block. */
    method CleanBlock(b: Block)
      requires forall i: nat :: i < per ==> Key(b.nr, i) in bufs
      requires forall i: nat, j: nat :: i < per && j < per ==> bufs[Key(b.nr, i)].block == bufs[Key(b.nr, j)].block
      requires forall k :: k in bufs && k.nr == b.nr ==> k.i < per
      modifies this`bufs
      ensures bufs == CleanOne(old(bufs), b)
    {
      var i := 0;
      ghost var was := bufs;
      while i < per
        invariant 0 <= i <= per && bufs.Keys == was.Keys
        invariant forall k :: k in was && k.nr == b.nr && k.i < i ==>
                    bufs[k] == was[k].(dirty := false, journal := false)
        invariant forall k :: k in was && !(k.nr == b.nr && k.i < i) ==> bufs[k] == was[k]
        invariant i > 0 ==> was[Key(b.nr, 0)].block == Some(b.id)
      {
        var k := Key(b.nr, i);
        if bufs[k].block != Some(b.id) {
          break;
        }
        bufs := bufs[k := bufs[k].(dirty := false, journal := false)];
        i := i + 1;
      }
    }

    /** The loop over the blocks of one transaction; `done` went home before. */
    method CheckpointBlocks(t: Trans, ghost bufs0: Buffers, ghost disk0: Disk, ghost log: seq<Block>,
                            ghost done: seq<Block>)
      requires Fresh(log, nextId, per) && Pinned(bufs0, log, per) && (forall k :: k in bufs0 ==> k.i < per)
      requires bufs == CleanAll(bufs0, done) && disk == Replay(disk0, done) && forall b :: b in t.buffers ==> b in log
      modifies this`bufs, this`disk
      ensures bufs == CleanAll(bufs0, done + t.buffers) && disk == Replay(disk0, done + t.buffers)
    {
      hide Fresh, Pinned, CleanAll, Replay;
      var j := 0;
      assert done + t.buffers[..0] == done;
      while j < |t.buffers|
        invariant 0 <= j <= |t.buffers|
        invariant bufs == CleanAll(bufs0, done + t.buffers[..j]) && disk == Replay(disk0, done + t.buffers[..j])
      {
        var b := t.buffers[j];
        ghost var past := done + t.buffers[..j];
        SameOwner(bufs0, log, nextId, per, b, past);
        CleanBlock(b);
        disk := disk[b.nr := b.data];
        CleanMore(bufs0, past, b);
        ReplayMore(disk0, past, b);
        assert past + [b] == done + t.buffers[..j + 1];
        j := j + 1;
      }
      assert t.buffers[..j] == t.buffers;
    }

    /** journal_checkpoint_transactions(): home blocks become what replaying the transactions gives,
        the tail moves past them and their credits are free again. */
    method Checkpoint()
      requires Valid()
      modifies this
      ensures Valid() && checkpoint == [] && running == old(running)
      ensures disk == Replay(old(disk), Blocks(old(checkpoint))) && bufs == CleanAll(old(bufs), Blocks(old(checkpoint)))
      ensures free == old(free) + Credits(old(checkpoint)) && tailSequence == old(tailSequence) + |old(checkpoint)|
      ensures tail - first == (old(tail) - first + Logged(old(checkpoint))) % (last - first)
      ensures sequence == old(sequence) && nextId == old(nextId)
    {
      hide Fresh, Pinned, CleanAll, Replay, Logged;
      ghost var all, log := Blocks(checkpoint), Log();
      Drain();
      assert [] + running.buffers == running.buffers;
      CheckpointPins(old(bufs), old(disk), all, running.buffers, nextId, per);
      FreshParts(all, running.buffers, nextId, per);
      CleanKeys(old(bufs), all);
    }

    /** The loop over the transactions. */
    method Drain()
      requires InRing() && Fresh(Log(), nextId, per) && Pinned(bufs, Log(), per) && forall k :: k in bufs ==> k.i < per
      modifies this`bufs, this`disk, this`tail, this`tailSequence, this`free, this`checkpoint
      ensures InRing() && checkpoint == []
      ensures disk == Replay(old(disk), Blocks(old(checkpoint))) && bufs == CleanAll(old(bufs), Blocks(old(checkpoint)))
      ensures free == old(free) + Credits(old(checkpoint)) && tailSequence == old(tailSequence) + |old(checkpoint)|
      ensures tail - first == (old(tail) - first + Logged(old(checkpoint))) % (last - first)
    {
      hide Fresh, Pinned, CleanAll, Replay, Wrap, Around;
      ghost var all, done, log := Blocks(checkpoint), [], Log();
      ghost var passed: nat := 0;
      CleanNone(bufs, disk);
      AroundNone(first, last, tail);
      while checkpoint != []
        invariant done + Blocks(checkpoint) == all && InRing()
        invariant bufs == CleanAll(old(bufs), done) && disk == Replay(old(disk), done)
        invariant free + Credits(checkpoint) == old(free) + Credits(old(checkpoint))
        invariant Around(first, last, old(tail), passed, tail) && passed + Logged(checkpoint) == Logged(old(checkpoint))
        invariant tailSequence + |checkpoint| == old(tailSequence) + |old(checkpoint)|
        decreases |checkpoint|
      {
        var t := checkpoint[0];
        assert t in checkpoint;
        InLog(done, t.buffers, Blocks(checkpoint[1..]), running.buffers, log);
        CheckpointBlocks(t, old(bufs), old(disk), log, done);
        assert done + (t.buffers + Blocks(checkpoint[1..])) == (done + t.buffers) + Blocks(checkpoint[1..]);
        done := done + t.buffers;
        AroundMore(first, last, old(tail), passed, tail, t.logBlocks);
        passed := passed + t.logBlocks;
        tail := Wrap(first, last, tail + t.logBlocks);
        AroundMeans(first, last, old(tail), passed, tail);
        tailSequence := tailSequence + 1;
        free := free + t.credits;
        checkpoint := checkpoint[1..];
      }
      AroundMeans(first, last, old(tail), passed, tail);
      assert done + [] == done;
    }
  }

  /** What a file system asks of its journal. */
  datatype Op = OpStart(nblocks: nat, needed: nat, perTrans: nat, allocOk: bool)
              | OpDirty(nr: nat, data: seq<Sector>)
              | OpStop(tid: nat, logged: nat)
              | OpCommit(logged: nat)
              | OpCheckpoint

  /** What the home blocks will be once everything in the log is written to them. */
  ghost function Meant(j: Journal): Disk
    reads j
  {
    Replay(j.disk, j.Log())
  }

  /** One call. What the journal asserts against is not done, nor is a handle stopped whose transaction is
      gone: a checkpoint frees transactions whether or not they have handles left. */
  method Perform(j: Journal, op: Op) returns (ok: bool)
    requires j.Valid() && (op.OpStart? ==> op.nblocks <= op.needed)
    modifies j
    ensures j.Valid()
    ensures op.OpDirty? ==> (ok <==> |old(j.running).buffers| < old(j.running).credits && |op.data| == j.per)
    ensures Meant(j) == if op.OpDirty? && ok then old(Meant(j))[op.nr := op.data] else old(Meant(j))
  {
    hide Fresh, Pinned, Replay, CleanAll, Credits, Logged, DropRef, Journal.Conserved, Journal.InRing, Journal.Numbered;
    ghost var disk, log := j.disk, j.Log();
    ReplayBoth(disk, Blocks(j.checkpoint), j.running.buffers);
    ok := true;
    match op {
      case OpStart(n, needed, perTrans, allocOk) =>
        var h := j.Start(n, needed, perTrans, allocOk);
        ok := h.Some?;
      case OpDirty(nr, data) =>
        ok := |j.running.buffers| < j.running.credits && |data| == j.per;
        if ok {
          ReplayMore(disk, log, Block(j.nextId, nr, data));
          j.DirtyBlock(nr, data);
        }
      case OpStop(tid, logged) =>
        ok := j.Refs(tid) > 0 && logged <= j.last - j.first;
        if ok {
          j.Stop(tid, logged);
        }
      case OpCommit(logged) =>
        ok := logged <= j.last - j.first;
        if ok {
          j.Commit(logged);
        }
      case OpCheckpoint =>
        j.Checkpoint();
    }
    LogAfter(j);
  }

  /** The home blocks with the blocks that were accepted, in order. */
  ghost function Saved(d: Disk, ops: seq<Op>, oks: seq<bool>): Disk
    requires |oks| == |ops|
  {
    if ops == [] then d
    else
      var n := |ops| - 1;
      var r := Saved(d, ops[..n], oks[..n]);
      if ops[n].OpDirty? && oks[n] then r[ops[n].nr := ops[n].data] else r
  }

  /** Any run keeps the space, and loses no block: the home blocks and what is still to be written to them are
      what the accepted blocks make of what they were. */
  method Run(j: Journal, ops: seq<Op>) returns (oks: seq<bool>)
    requires j.Valid() && forall op :: op in ops && op.OpStart? ==> op.nblocks <= op.needed
    modifies j
    ensures j.Valid() && 0 <= j.free && j.free + j.running.credits + Credits(j.checkpoint) == j.total
    ensures j.first <= j.tail < j.last
    ensures |oks| == |ops| && Replay(j.disk, j.Log()) == Saved(old(Replay(j.disk, j.Log())), ops, oks)
  {
    hide Fresh, Pinned, Replay, Saved;
    var i := 0;
    oks := [];
    SavedNone(Meant(j));
    assert ops[..0] == [];
    while i < |ops|
      invariant 0 <= i <= |ops| && j.Valid() && |oks| == i && Meant(j) == Saved(old(Meant(j)), ops[..i], oks)
    {
      assert ops[i] in ops;
      var ok := Perform(j, ops[i]);
      SavedNext(old(Meant(j)), ops, i, oks, ok);
      oks := oks + [ok];
      i := i + 1;
    }
    assert ops[..i] == ops;
  }

  lemma SavedNone(d: Disk)
    ensures Saved(d, [], []) == d
  {
  }

  lemma SavedNext(d: Disk, ops: seq<Op>, i: nat, oks: seq<bool>, ok: bool)
    requires i < |ops| && |oks| == i
    ensures var r := Saved(d, ops[..i], oks);
            Saved(d, ops[..i + 1], oks + [ok]) == if ops[i].OpDirty? && ok then r[ops[i].nr := ops[i].data] else r
  {
    assert ops[..i + 1][..i] == ops[..i] && (oks + [ok])[..i] == oks;
  }

  /** With nothing waiting the log is what is running; with nothing in it at all the home blocks are final. */
  lemma LogAfter(j: Journal)
    ensures j.checkpoint == [] ==> j.Log() == j.running.buffers
    ensures j.Log() == [] ==> Meant(j) == j.disk
  {
    assert [] + j.running.buffers == j.running.buffers;
  }

  lemma CleanNone(bufs: Buffers, disk: Disk)
    ensures CleanAll(bufs, []) == bufs && Replay(disk, []) == disk
  {
  }

  lemma CleanKeys(bufs: Buffers, bs: seq<Block>)
    ensures forall k :: k in CleanAll(bufs, bs) <==> k in bufs
  {
    assert CleanAll(bufs, bs).Keys == bufs.Keys;
  }

  lemma InLog(a: seq<Block>, b: seq<Block>, c: seq<Block>, d: seq<Block>, log: seq<Block>)
    requires log == (a + (b + c)) + d
    ensures forall x :: x in b ==> x in log
  {
  }

  /** All sectors of a logged block know the same journal block, cleaned or not. */
  lemma SameOwner(bufs: Buffers, log: seq<Block>, next: nat, per: nat, b: Block, past: seq<Block>)
    requires Fresh(log, next, per) && Pinned(bufs, log, per) && b in log && forall k :: k in bufs ==> k.i < per
    ensures Latest(log, b.nr).Some?
    ensures var c := CleanAll(bufs, past);
            (forall i: nat :: i < per ==>
               Key(b.nr, i) in c && c[Key(b.nr, i)].block == Some(Latest(log, b.nr).value.id))
            && forall k :: k in c && k.nr == b.nr ==> k.i < per
  {
    var c := CleanAll(bufs, past);
    CleanKeys(bufs, past);
    LatestIn(log, b.nr);
    hide CleanAll;
    forall i: nat | i < per
      ensures Key(b.nr, i) in c && c[Key(b.nr, i)].block == Some(Latest(log, b.nr).value.id)
    {
      assert Holds(bufs, Latest(log, b.nr).value, i);
      CleanedAt(bufs, past, Key(b.nr, i));
    }
  }

  lemma DirtyPins(bufs: Buffers, bufs': Buffers, log: seq<Block>, b: Block, next: nat, per: nat)
    requires Fresh(log, next, per) && Pinned(bufs, log, per) && b.id == next && |b.data| == per
    requires forall i: nat :: i < per ==> Holds(bufs', b, i)
    requires forall k :: k in bufs && k.nr != b.nr ==> k in bufs' && bufs'[k] == bufs[k]
    ensures Fresh(log + [b], next + 1, per) && Pinned(bufs', log + [b], per)
  {
    forall nr: nat, i: nat | i < per && Latest(log + [b], nr).Some? && |Latest(log + [b], nr).value.data| == per
      ensures Holds(bufs', Latest(log + [b], nr).value, i)
    {
      LatestMore(log, b, nr);
      LatestIn(log, nr);
      if nr != b.nr {
        assert Holds(bufs, Latest(log, nr).value, i);
      }
    }
  }
}

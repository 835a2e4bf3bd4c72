/** The console lock of printk() on several cores (printk.c). */
module Printk {

  const NOBODY: int := -1
  const SPIN_LIMIT: nat := 10000000

  // ----- calls of printk() and their steps -----

  /** How far a call of vprintk() has come, and how many attempts at the lock it has made. The core number
      is read once, on entry: the thread may be preempted and moved between any two steps, and interrupts
      may print on the same core. */
  datatype Phase = Entered | Spinning(spins: nat) | Printing(taken: bool, spins: nat) | Done

  datatype Call = Call(self: nat, phase: Phase)

  /** A character on the console: the call that printed it, and whether it held the lock then. */
  datatype Char = Char(id: nat, held: bool, ch: char)

  datatype State = State(owner: int, calls: map<nat, Call>, out: seq<Char>)

  /** The atomic steps: enter, look at the owner, one compare-and-swap, print a character, and leave. */
  datatype Step = Enter(id: nat, cpu: nat) | Look(id: nat) | Try(id: nat) | Put(id: nat, ch: char) | Leave(id: nat)

  predicate Can(s: State, x: Step) {
    match x
    case Enter(id, _) => id !in s.calls
    case Look(id) => id in s.calls && s.calls[id].phase == Entered
    case Try(id) => id in s.calls && s.calls[id].phase.Spinning? && s.calls[id].phase.spins < SPIN_LIMIT
    case Put(id, _) => id in s.calls && s.calls[id].phase.Printing?
    case Leave(id) => id in s.calls && s.calls[id].phase.Printing?
  }

  function At(s: State, id: nat, p: Phase): State
    requires id in s.calls
  {
    s.(calls := s.calls[id := s.calls[id].(phase := p)])
  }

  function Do(s: State, x: Step): State
    requires Can(s, x)
  {
    match x
    case Enter(id, cpu) => s.(calls := s.calls[id := Call(cpu, Entered)])
    case Look(id) => At(s, id, if s.owner == s.calls[id].self then Printing(false, 0) else Spinning(0))
    case Try(id) =>
      var k := s.calls[id].phase.spins + 1;
      if s.owner == NOBODY then At(s, id, Printing(true, k)).(owner := s.calls[id].self)
      else At(s, id, if k < SPIN_LIMIT then Spinning(k) else Printing(false, k))
    case Put(id, c) => s.(out := s.out + [Char(id, Holds(s, id), c)])
    case Leave(id) =>
      var t := At(s, id, Done);
      if s.calls[id].phase.taken then t.(owner := NOBODY) else t
  }

  // ----- what every interleaving keeps -----

  predicate Holds(s: State, id: nat) {
    id in s.calls && s.calls[id].phase.Printing? && s.calls[id].phase.taken
  }

  ghost predicate Inv(s: State) {
    Locked(s) && Serial(s)
  }

  /** At most one call holds the lock; the owner is its core, or nobody when there is none; no call
      spins past the limit. */
  ghost predicate Locked(s: State) {
    (forall i, j :: Holds(s, i) && Holds(s, j) ==> i == j)
    && (forall i :: Holds(s, i) ==> s.owner == s.calls[i].self)
    && (s.owner != NOBODY ==> exists i :: Holds(s, i))
    && (forall i :: i in s.calls ==> InTime(s.calls[i].phase))
  }

  /** A call that prints took the lock, or found its core in it at once, or made all its attempts. */
  predicate InTime(p: Phase) {
    match p
    case Spinning(k) => k < SPIN_LIMIT
    case Printing(taken, k) => if taken then 1 <= k <= SPIN_LIMIT else k == 0 || k == SPIN_LIMIT
    case _ => true
  }

  /** Whose character this can be: one printed under the lock is of a call that holds it or is done. */
  ghost predicate Source(s: State, c: Char) {
    c.id in s.calls
    && (s.calls[c.id].phase == Done || (s.calls[c.id].phase.Printing? && (c.held <==> s.calls[c.id].phase.taken)))
  }

  /** What was printed under the lock by one call is in one piece, as far as the lock goes. */
  ghost predicate InOnePiece(out: seq<Char>, id: nat) {
    forall a, b, c ::
      0 <= a < b < c < |out| && out[a].held && out[b].held && out[c].held && out[a].id == id && out[c].id == id ==>
        out[b].id == id
  }

  /** Nothing has been printed under the lock since this call began to. */
  ghost predicate Latest(out: seq<Char>, id: nat) {
    forall a, b :: 0 <= a < b < |out| && out[a].held && out[b].held && out[a].id == id ==> out[b].id == id
  }

  ghost predicate Serial(s: State) {
    (forall c :: c in s.out ==> Source(s, c)) && (forall id: nat :: InOnePiece(s.out, id))
    && forall id: nat :: Holds(s, id) ==> Latest(s.out, id)
  }

  /** One message at a time: between two characters that a call prints under the lock no other call prints
      under it. */
  lemma OneAtATime(s: State, a: nat, b: nat, c: nat)
    requires Inv(s) && a < b < c < |s.out| && s.out[a].held && s.out[b].held && s.out[c].held
    ensures s.out[a].id == s.out[c].id ==> s.out[b].id == s.out[a].id
  {
    assert InOnePiece(s.out, s.out[a].id);
  }

  /** The owner is nobody exactly when no call holds the lock. */
  lemma NobodyHolds(s: State)
    requires Inv(s)
    ensures s.owner == NOBODY <==> forall i :: !Holds(s, i)
  {
  }

  lemma StepKeeps(s: State, x: Step)
    requires Inv(s) && Can(s, x)
    ensures Inv(Do(s, x))
  {
    hide Locked, Serial, Do, Can;
    StepLocked(s, x);
    if x.Put? {
      PutSerial(s, x.id, x.ch);
    } else {
      QuietSerial(s, x);
    }
  }

  lemma QuietSerial(s: State, x: Step)
    requires Serial(s) && Can(s, x) && !x.Put?
    ensures Serial(Do(s, x))
  {
    hide InOnePiece;
    var t := Do(s, x);
    assert t.out == s.out;
    forall c | c in t.out
      ensures Source(t, c)
    {
      assert Source(s, c);
    }
    forall id: nat | Holds(t, id)
      ensures Latest(t.out, id)
    {
      if !Holds(s, id) {
        assert forall k :: 0 <= k < |s.out| ==> s.out[k] in s.out && Source(s, s.out[k]);
      }
    }
  }

  lemma PutSerial(s: State, id: nat, ch: char)
    requires Locked(s) && Serial(s) && Can(s, Put(id, ch))
    ensures Serial(Do(s, Put(id, ch)))
  {
    var t, x := Do(s, Put(id, ch)), Char(id, Holds(s, id), ch);
    assert forall i :: Holds(t, i) <==> Holds(s, i);
    forall c | c in t.out
      ensures Source(t, c)
    {
      assert c != x ==> c in s.out && Source(s, c);
    }
    forall i: nat
      ensures InOnePiece(t.out, i) && (Holds(t, i) ==> Latest(t.out, i))
    {
      assert InOnePiece(s.out, i) && (Holds(s, i) ==> Latest(s.out, i));
      hide Serial, Locked;
      OneMore(s.out, x, i);
    }
  }

  lemma OneMore(out: seq<Char>, x: Char, i: nat)
    requires InOnePiece(out, i) && (x.held && x.id == i ==> Latest(out, i))
    ensures InOnePiece(out + [x], i)
    ensures Latest(out, i) && (x.held ==> x.id == i) ==> Latest(out + [x], i)
  {
  }

  lemma StepLocked(s: State, x: Step)
    requires Locked(s) && Can(s, x)
    ensures Locked(Do(s, x))
  {
    var t := Do(s, x);
    var id := x.id;
    assert forall i :: i != id ==> (Holds(t, i) <==> Holds(s, i));
    match x
    case Enter(_, _) =>
      assert !Holds(t, id) && !Holds(s, id);
    case Look(_) =>
      assert !Holds(t, id) && !Holds(s, id);
    case Try(_) =>
      assert !Holds(s, id) && (Holds(t, id) <==> s.owner == NOBODY);
    case Put(_, _) =>
      assert Holds(t, id) <==> Holds(s, id);
    case Leave(_) =>
      assert !Holds(t, id);
  }

  ghost predicate Run(s: State, xs: seq<Step>, t: State)
    decreases |xs|
  {
    if xs == [] then t == s else Can(s, xs[0]) && Run(Do(s, xs[0]), xs[1..], t)
  }

  lemma {:induction false} RunKeeps(s: State, xs: seq<Step>, t: State)
    requires Inv(s) && Run(s, xs, t)
    ensures Inv(t)
    decreases |xs|
  {
    hide Inv, Do, Can;
    if xs != [] {
      StepKeeps(s, xs[0]);
      RunKeeps(Do(s, xs[0]), xs[1..], t);
    }
  }

  /** Only the call that holds the lock releases it, and only a call that found it free takes it. */
  lemma OwnerChanges(s: State, x: Step)
    requires Inv(s) && Can(s, x)
    ensures s.owner != NOBODY && Do(s, x).owner != s.owner ==> x.Leave? && Holds(s, x.id) && Do(s, x).owner == NOBODY
    ensures s.owner == NOBODY && Do(s, x).owner != NOBODY ==> x.Try? && Holds(Do(s, x), x.id)
    ensures x.Leave? && !Holds(s, x.id) ==> Do(s, x).owner == s.owner
    ensures forall i :: Holds(s, i) && (x.id != i || !x.Leave?) ==> Holds(Do(s, x), i)
  {
  }

  // ----- bounded waiting -----

  /** Compare-and-swaps a call makes in a run. */
  function Tries(xs: seq<Step>, id: nat): nat {
    if xs == [] then 0 else (if xs[0] == Try(id) then 1 else 0) + Tries(xs[1..], id)
  }

  /** Compare-and-swaps a call still may make. */
  function Left(s: State, id: nat): nat {
    if id !in s.calls then SPIN_LIMIT
    else
      match s.calls[id].phase
      case Entered => SPIN_LIMIT
      case Spinning(k) => if k < SPIN_LIMIT then SPIN_LIMIT - k else 0
      case _ => 0
  }

  /** In every run every call gives up or gets the lock within the limit. */
  lemma {:induction false} SpinLimit(s: State, xs: seq<Step>, t: State, id: nat)
    requires Run(s, xs, t)
    ensures Tries(xs, id) + Left(t, id) <= Left(s, id) <= SPIN_LIMIT
    decreases |xs|
  {
    if xs != [] {
      SpinLimit(Do(s, xs[0]), xs[1..], t, id);
    }
  }

  // ----- the calls as they run -----

  /** What a call has printed, and for each character whether it held the lock. */
  function Said(out: seq<Char>, id: nat): seq<(char, bool)> {
    if out == [] then []
    else
      var c := out[|out| - 1];
      Said(out[..|out| - 1], id) + if c.id == id then [(c.ch, c.held)] else []
  }

  lemma SaidMore(out: seq<Char>, c: Char, id: nat)
    ensures Said(out + [c], id) == Said(out, id) + if c.id == id then [(c.ch, c.held)] else []
  {
    var w := out + [c];
    assert w[..|w| - 1] == out && w[|w| - 1] == c;
  }

  lemma OthersSay(s: State, x: Step, id: nat)
    requires Can(s, x) && (x.Put? ==> x.id != id)
    ensures Said(Do(s, x).out, id) == Said(s.out, id)
  {
    if x.Put? {
      SaidMore(s.out, Char(x.id, Holds(s, x.id), x.ch), id);
    }
  }

  /** A text printed by a call that holds the lock all the time, or at no time. */
  function Spoken(text: string, held: bool): (r: seq<(char, bool)>)
    ensures |r| == |text| && forall i :: 0 <= i < |text| ==> r[i] == (text[i], held)
  {
    seq(|text|, i requires 0 <= i < |text| => (text[i], held))
  }

  /** What other calls do between the steps of this one. */
  type Others = nat -> seq<Step>

  class Console {
    var s: State

    constructor ()
      ensures s == State(NOBODY, map[], []) && Inv(s)
    {
      s := State(NOBODY, map[], []);
    }

    /** Other calls go on, on any core; a step that is not possible does not happen. */
    method Interfere(xs: seq<Step>, ghost id: nat)
      requires Inv(s) && forall x :: x in xs ==> x.id != id
      modifies this
      ensures Inv(s) && (id in s.calls <==> id in old(s).calls) && (id in s.calls ==> s.calls[id] == old(s).calls[id])
      ensures Said(s.out, id) == Said(old(s).out, id)
    {
      hide Inv;
      var i := 0;
      while i < |xs|
        invariant 0 <= i <= |xs| && Inv(s) && Said(s.out, id) == Said(old(s).out, id)
        invariant (id in s.calls <==> id in old(s).calls) && (id in s.calls ==> s.calls[id] == old(s).calls[id])
      {
        assert xs[i] in xs;
        if Can(s, xs[i]) {
          StepKeeps(s, xs[i]);
          OthersSay(s, xs[i], id);
          s := Do(s, xs[i]);
        }
        i := i + 1;
      }
    }

    /** One step of this call. */
    method Make(x: Step)
      requires Inv(s) && Can(s, x)
      modifies this
      ensures s == Do(old(s), x) && Inv(s)
      ensures !x.Put? ==> s.out == old(s).out
    {
      StepKeeps(s, x);
      s := Do(s, x);
    }

    /** printk_lock(): true when the lock was taken, false when this core already has it or when
        the limit was reached. */
    method PrintkLock(id: nat, cpu: nat, others: Others) returns (taken: bool, spins: nat)
      requires Inv(s) && id !in s.calls && forall k, x :: x in others(k) ==> x.id != id
      modifies this
      ensures Inv(s) && id in s.calls && s.calls[id] == Call(cpu, Printing(taken, spins)) && (taken ==> s.owner == cpu)
      ensures if taken then 1 <= spins <= SPIN_LIMIT else spins == 0 || spins == SPIN_LIMIT
      ensures Said(s.out, id) == Said(old(s).out, id)
    {
      hide Inv, Do, Said;
      EnterMeans(s, id, cpu);
      Make(Enter(id, cpu));
      Interfere(others(0), id);
      LookMeans(s, id);
      var mine := s.owner == cpu;
      Make(Look(id));
      if mine {
        return false, 0;
      }
      taken, spins := Spin(id, cpu, others);
    }

    /** The loop of printk_lock(). */
    method Spin(id: nat, cpu: nat, others: Others) returns (taken: bool, spins: nat)
      requires Inv(s) && id in s.calls && s.calls[id] == Call(cpu, Spinning(0))
               && forall k, x :: x in others(k) ==> x.id != id
      modifies this
      ensures Inv(s) && id in s.calls && s.calls[id] == Call(cpu, Printing(taken, spins)) && (taken ==> s.owner == cpu)
      ensures 1 <= spins <= SPIN_LIMIT && (!taken ==> spins == SPIN_LIMIT)
      ensures Said(s.out, id) == Said(old(s).out, id)
    {
      hide Inv, Do, Said;
      spins := 0;
      while spins < SPIN_LIMIT
        invariant 0 <= spins <= SPIN_LIMIT && Inv(s) && id in s.calls && Said(s.out, id) == Said(old(s).out, id)
        invariant s.calls[id] == Call(cpu, if spins < SPIN_LIMIT then Spinning(spins) else Printing(false, spins))
      {
        Interfere(others(spins + 1), id);
        TryMeans(s, id);
        var got := s.owner == NOBODY;
        Make(Try(id));
        if got {
          return true, spins + 1;
        }
        spins := spins + 1;
      }
      taken := false;
    }

    /** printk_unlock(), with the step that ends the call. */
    method PrintkUnlock(id: nat, taken: bool)
      requires Inv(s) && id in s.calls && s.calls[id].phase.Printing? && s.calls[id].phase.taken == taken
      modifies this
      ensures Inv(s) && s.owner == if taken then NOBODY else old(s).owner
      ensures id in s.calls && s.calls[id] == old(s).calls[id].(phase := Done) && s.out == old(s).out
    {
      Make(Leave(id));
    }

    /** __print(): the characters one by one, with whatever other calls do before each. */
    method Print(id: nat, text: string, between: Others, ghost cpu: nat, ghost taken: bool, ghost spins: nat)
      requires Inv(s) && id in s.calls && s.calls[id] == Call(cpu, Printing(taken, spins)) && Said(s.out, id) == []
      requires forall k, x :: x in between(k) ==> x.id != id
      modifies this
      ensures Inv(s) && id in s.calls && s.calls[id] == old(s).calls[id] && Said(s.out, id) == Spoken(text, taken)
    {
      hide Inv, Said, Spoken;
      var i := 0;
      while i < |text|
        invariant 0 <= i <= |text| && Inv(s) && id in s.calls && s.calls[id] == old(s).calls[id]
        invariant Said(s.out, id) == Spoken(text, taken)[..i]
      {
        Interfere(between(i), id);
        ghost var out := s.out;
        Make(Put(id, text[i]));
        SaidMore(out, Char(id, taken, text[i]), id);
        i := i + 1;
      }
    }

    /** vprintk(): the whole text goes out, in order, under the lock from the first character to the last or not
        under it at all. */
    method Vprintk(id: nat, cpu: nat, text: string, others: Others, between: Others) returns (taken: bool)
      requires Inv(s) && id !in s.calls && (forall k, x :: x in others(k) ==> x.id != id)
               && forall k, x :: x in between(k) ==> x.id != id
      modifies this
      ensures Inv(s) && id in s.calls && s.calls[id] == Call(cpu, Done)
      ensures |Said(s.out, id)| == |text| && forall i :: 0 <= i < |text| ==> Said(s.out, id)[i] == (text[i], taken)
    {
      NothingSaid(s, id);
      hide Inv, Said;
      var spins;
      taken, spins := PrintkLock(id, cpu, others);
      Print(id, text, between, cpu, taken, spins);
      PrintkUnlock(id, taken);
    }
  }

  lemma {:induction false} NothingSaidIn(out: seq<Char>, id: nat)
    requires forall c :: c in out ==> c.id != id
    ensures Said(out, id) == []
  {
    if out != [] {
      NothingSaidIn(out[..|out| - 1], id);
    }
  }

  /** A call that has not begun has printed nothing. */
  lemma NothingSaid(s: State, id: nat)
    requires Inv(s) && id !in s.calls
    ensures Said(s.out, id) == []
  {
    forall c | c in s.out
      ensures c.id != id
    {
      assert Source(s, c);
    }
    NothingSaidIn(s.out, id);
  }

  lemma EnterMeans(s: State, id: nat, cpu: nat)
    requires id !in s.calls
    ensures var t := Do(s, Enter(id, cpu)); id in t.calls && t.calls[id] == Call(cpu, Entered)
  {
  }

  lemma LookMeans(s: State, id: nat)
    requires Can(s, Look(id))
    ensures var t := Do(s, Look(id));
            id in t.calls
            && t.calls[id]
              == Call(s.calls[id].self, if s.owner == s.calls[id].self then Printing(false, 0) else Spinning(0))
  {
  }

  lemma TryMeans(s: State, id: nat)
    requires Can(s, Try(id))
    ensures var (t, c) := (Do(s, Try(id)), s.calls[id]);
            id in t.calls
            && var k := c.phase.spins + 1;
               if s.owner == NOBODY then t.calls[id] == Call(c.self, Printing(true, k)) && t.owner == c.self
               else t.calls[id] == Call(c.self, if k < SPIN_LIMIT then Spinning(k) else Printing(false, k))
  {
  }
}

/** The sections of critical.c as they run, under masked interrupts, on one CPU. */
module CriticalKernel {
  import opened Options
  import opened Critical

  /** What a dispatch function does before it returns, and the CPU it returns on. */
  datatype Callback = Callback(steps: seq<Step>, back: nat)

  class Kernel {
    const lv: Levels
    const n: nat
    var s: State
    ghost var h: History

    ghost predicate Valid()
      reads this
    {
      Inv(lv, n, s, h)
    }

    constructor (lv: Levels, n: nat, s: State)
      requires Leveled(lv) && (forall c: nat :: c < n ==> c in s.queue && s.queue[c] == [] && c in s.count)
      requires forall d :: Exists(lv, n, d) ==> d in s.mask && s.mask[d] == Not(Mask(lv[d.name]))
      ensures Valid() && this.s == s && this.lv == lv && this.n == n && h == History(0, map[], map[], map[])
    {
      this.lv, this.n, this.s, this.h := lv, n, s, History(0, map[], map[], map[]);
      Start(lv, n, s);
    }

    /** The masked section of critical_request_dispatch() */
    method QueueRequest(name: nat, cpu: nat)
      requires Valid() && name < |lv| && cpu < n
      modifies this
      ensures Valid()
      ensures Can(lv, n, old(s), Request(Disp(name, cpu)))
      ensures (s, h) == Do(lv, n, old(s), old(h), Request(Disp(name, cpu)))
      ensures Pending(old(s), Disp(name, cpu)) ==> s == old(s) && h == old(h)
      ensures !Pending(old(s), Disp(name, cpu)) ==>
                var d := Disp(name, cpu);
                d in s.mask && Pending(s, d) && multiset(s.queue[cpu]) == multiset(old(s).queue[cpu]) + multiset{d}
                && s == old(s).(queue := old(s).queue[cpu := s.queue[cpu]], mask := old(s).mask[d := s.mask[d]])
                && Times(h.accepted, d) == Times(old(h).accepted, d) + 1 && h.dispatched == old(h).dispatched
    {
      var d := Disp(name, cpu);
      RequestMeans(lv, n, s, h, d);
      RequestKeeps(lv, n, s, h, d);
      PendingQueued(lv, n, s, h, d);
      if Pending(s, d) {
        return;
      }
      var invMask := s.mask[d];
      var pp := FindPlace(d, invMask);
      var q := s.queue[cpu];
      h := RequestedHistory(s, h, d);
      s := s.(queue := s.queue[cpu := Insert(q, pp, d)], mask := s.mask[d := Not(invMask)]);
    }

    /** The loop over the queue: the first entry with a bit outside the new mask. */
    method FindPlace(d: Disp, invMask: Bits) returns (pp: nat)
      requires Valid() && Exists(lv, n, d) && d in s.mask && !Pending(s, d) && invMask == s.mask[d]
      ensures d.cpu in s.queue && (forall e :: e in s.queue[d.cpu] ==> e.name < |lv|)
      ensures pp <= |s.queue[d.cpu]| && pp == Place(lv, s.queue[d.cpu], lv[d.name])
    {
      NamesKnown(lv, n, s, h, d.cpu);
      PendingQueued(lv, n, s, h, d);
      hide Inv, Mask, Not, Place, Pending;
      pp := 0;
      var q, k := s.queue[d.cpu], lv[d.name];
      assert q[0..] == q;
      while pp < |q|
        invariant 0 <= pp <= |q| && (forall e :: e in q[pp..] ==> e in q)
        invariant Place(lv, q, k) == pp + Place(lv, q[pp..], k)
      {
        assert q[pp] in q;
        PlaceStep(lv, q, k, pp);
        InsideMask(lv, n, s, h, d, q[pp]);
        if s.mask[q[pp]] * invMask != {} {
          return;
        }
        pp := pp + 1;
      }
      PlaceEnd(lv, q, k);
    }

    /** One turn of critical_dispatch_pending(): the head if it may run, or nothing may. */
    method NextPending(cpu: nat) returns (d: Option<Disp>)
      requires Valid() && cpu < n
      modifies this
      ensures Valid() && (s, h) == Do(lv, n, old(s), old(h), Turn(cpu))
      ensures d.None? ==> Idle(lv, n, s, cpu) && s == old(s) && h == old(h)
      ensures d.Some? ==> First(lv, n, old(s), old(h), cpu, d.value) && Can(lv, n, old(s), Turn(cpu))
      ensures d.Some? ==> old(s).queue[cpu] == [d.value] + s.queue[cpu] && d.value in s.mask && !Pending(s, d.value)
                          && s.count == old(s).count
                            && (forall c :: c in s.queue && c != cpu ==> s.queue[c] == old(s).queue[c])
                          && Times(h.dispatched, d.value) == Times(old(h).dispatched, d.value) + 1
                          && h.accepted == old(h).accepted
    {
      NamesKnown(lv, n, s, h, cpu);
      HeadDecides(lv, n, s, h, cpu);
      if !Takes(s, cpu) {
        return None;
      }
      TakeKeeps(lv, n, s, h, cpu);
      TurnMeans(lv, n, s, h, cpu);
      var head := s.queue[cpu][0];
      var mask := s.mask[head];
      s := s.(queue := s.queue[cpu := s.queue[cpu][1..]], mask := s.mask[head := Not(mask)]);
      h := TakenHistory(h, head);
      d := Some(head);
    }

    /** critical_dispatch_required() */
    method DispatchRequired(cpu: nat) returns (required: bool)
      requires Valid() && cpu < n
      ensures required <==> !Idle(lv, n, s, cpu)
    {
      NamesKnown(lv, n, s, h, cpu);
      HeadDecides(lv, n, s, h, cpu);
      var q, count := s.queue[cpu], s.count[cpu];
      required := q != [] && s.mask[q[0]] * count == {};
    }

    /** Whatever runs while a dispatch function does: requests, other CPUs' turns, count changes. */
    method Perform(steps: seq<Step>)
      requires Valid()
      modifies this
      ensures Valid() && (s, h) == DoAll(lv, n, old(s), old(h), steps)
    {
      hide Inv, Do;
      var i := 0;
      assert steps[0..] == steps;
      while i < |steps|
        invariant 0 <= i <= |steps| && Valid()
        invariant DoAll(lv, n, s, h, steps[i..]) == DoAll(lv, n, old(s), old(h), steps)
      {
        assert steps[i..][1..] == steps[i + 1..];
        PerformOne(steps[i]);
        i := i + 1;
      }
      assert steps[i..] == [];
    }

    method PerformOne(x: Step)
      requires Valid()
      modifies this
      ensures Valid() && (s, h) == Do(lv, n, old(s), old(h), x)
    {
      hide Inv;
      StepKeeps(lv, n, s, h, x);
      match x
      case Request(d) =>
        if d.name < |lv| && d.cpu < n {
          QueueRequest(d.name, d.cpu);
        }
      case Turn(c) =>
        if c < n {
          var d := NextPending(c);
        }
      case Count(c, b) =>
        if c < n {
          s := s.(count := s.count[c := b]);
        }
    }

    /** critical_dispatch_pending() for as many dispatches as `calls` describes: if the loop has been
        left, then nothing queued may run on the CPU the thread is on by then. */
    method DispatchPending(cpu0: nat, calls: seq<Callback>) returns (left: bool, cpu: nat, ran: seq<Disp>)
      requires Valid() && cpu0 < n && forall c :: c in calls ==> c.back < n
      modifies this
      ensures Valid() && cpu < n && |ran| <= |calls| && cpu == (if ran == [] then cpu0 else calls[|ran| - 1].back)
      ensures forall i :: 0 <= i < |ran| ==>
                var (s', h') := DoAll(lv, n, old(s), old(h), Script(cpu0, calls, i));
                First(lv, n, s', h', if i == 0 then cpu0 else calls[i - 1].back, ran[i])
      ensures if left then Idle(lv, n, s, cpu) else |ran| == |calls|
      ensures (s, h) == DoAll(lv, n, old(s), old(h), Script(cpu0, calls, |ran|))
    {
      hide Inv, Idle, First, Do, DoAll, Can, InTurn;
      cpu, ran := cpu0, [];
      DoNothing(lv, n, s, h);
      NoTurnYet(lv, n, s, h, cpu0, calls);
      while |ran| < |calls|
        invariant Valid() && cpu < n && |ran| <= |calls| && cpu == CpuAfter(cpu0, calls, |ran|)
        invariant (s, h) == DoAll(lv, n, old(s), old(h), Script(cpu0, calls, |ran|))
        invariant InTurn(lv, n, old(s), old(h), cpu0, calls, ran)
        decreases |calls| - |ran|
      {
        ghost var s1, h1, done := s, h, Script(cpu0, calls, |ran|);
        var d := NextPending(cpu);
        if d.None? {
          InTurnMeans(lv, n, old(s), old(h), cpu0, calls, ran);
          return true, cpu, ran;
        }
        NextInTurn(lv, n, old(s), old(h), cpu0, calls, ran, s1, h1, d.value);
        var call := calls[|ran|];
        Perform(call.steps);
        DoMore(lv, n, old(s), old(h), done, Turn(cpu), call.steps, s1, h1);
        assert call in calls;
        ran, cpu := ran + [d.value], call.back;
      }
      InTurnMeans(lv, n, old(s), old(h), cpu0, calls, ran);
      left := false;
    }

    /** critical_request_dispatch(). `between` is what happens, and where the thread goes, once interrupts are on
        again. When it returns nothing queued may run on the CPU it is then on, unless the dispatcher was
        pending: then nothing is done, and something queued may run exactly when the first may. */
    method RequestDispatch(name: nat, cpu0: nat, between: Callback, calls: seq<Callback>)
      returns (left: bool, cpu: nat, ran: seq<Disp>)
      requires Valid() && name < |lv| && cpu0 < n && between.back < n && forall c :: c in calls ==> c.back < n
      modifies this
      ensures Valid() && cpu < n && |ran| <= |calls| && Can(lv, n, old(s), Request(Disp(name, cpu0)))
      ensures Pending(old(s), Disp(name, cpu0)) ==>
                left && cpu == cpu0 && ran == [] && s == old(s) && h == old(h)
                && cpu in s.queue && cpu in s.count && (forall e :: e in s.queue[cpu] ==> e in s.mask)
                && (Idle(lv, n, s, cpu) <==> !Takes(s, cpu))
      ensures !Pending(old(s), Disp(name, cpu0)) ==>
                (if left then Idle(lv, n, s, cpu) else |ran| == |calls|)
                && cpu == (if ran == [] then between.back else calls[|ran| - 1].back)
                && (s, h) == DoAll(lv, n, old(s), old(h), [Request(Disp(name, cpu0))] + between.steps
                                                          + Script(between.back, calls, |ran|))
                && forall i :: 0 <= i < |ran| ==>
                     var (s', h') := DoAll(lv, n, old(s), old(h), [Request(Disp(name, cpu0))] + between.steps
                                                                  + Script(between.back, calls, i));
                     First(lv, n, s', h', if i == 0 then between.back else calls[i - 1].back, ran[i])
    {
      hide Inv, Idle, First, Do, DoAll, Can, Pending, Takes, CpuAfter, Script;
      var d := Disp(name, cpu0);
      ghost var s0, h0 := s, h;
      PendingMeans(lv, n, s, h, d);
      if Pending(s, d) {
        return true, cpu0, [];
      }
      QueueRequest(name, cpu0);
      ghost var s1, h1 := s, h;
      Perform(between.steps);
      ghost var s2, h2 := s, h;
      left, cpu, ran := DispatchPending(between.back, calls);
      ThreeParts(lv, n, s0, h0, Request(d), between.steps, Script(between.back, calls, |ran|), s1, h1, s2, h2);
      forall i | 0 <= i < |ran|
        ensures DoAll(lv, n, s0, h0, [Request(d)] + between.steps + Script(between.back, calls, i))
                == DoAll(lv, n, s2, h2, Script(between.back, calls, i))
      {
        ThreeParts(lv, n, s0, h0, Request(d), between.steps, Script(between.back, calls, i), s1, h1, s2, h2);
      }
    }
  }

  /** A pending dispatcher: the request step does nothing, and the head of the queue decides. */
  lemma PendingMeans(lv: Levels, n: nat, s: State, h: History, d: Disp)
    requires Inv(lv, n, s, h) && Exists(lv, n, d)
    ensures d in s.mask && d.cpu in s.queue && d.cpu in s.count && Can(lv, n, s, Request(d))
    ensures (forall e :: e in s.queue[d.cpu] ==> e in s.mask) && (Idle(lv, n, s, d.cpu) <==> !Takes(s, d.cpu))
  {
    RequestKeeps(lv, n, s, h, d);
    PendingQueued(lv, n, s, h, d);
    HeadDecides(lv, n, s, h, d.cpu);
    NamesKnown(lv, n, s, h, d.cpu);
  }

  lemma ThreeParts(lv: Levels, n: nat, s: State, h: History, x: Step, a: seq<Step>, b: seq<Step>,
                   s1: State, h1: History, s2: State, h2: History)
    requires Do(lv, n, s, h, x) == (s1, h1) && DoAll(lv, n, s1, h1, a) == (s2, h2)
    ensures DoAll(lv, n, s, h, [x] + a + b) == DoAll(lv, n, s2, h2, b)
  {
    hide Do;
    assert ([x] + a + b)[1..] == a + b;
    DoAppend(lv, n, s1, h1, a, b);
  }

  /** A run is its steps one after another. */
  lemma {:induction false} DoAppend(lv: Levels, n: nat, s: State, h: History, a: seq<Step>, b: seq<Step>)
    ensures var r := DoAll(lv, n, s, h, a); DoAll(lv, n, s, h, a + b) == DoAll(lv, n, r.0, r.1, b)
    ensures |a| == 1 ==> DoAll(lv, n, s, h, a) == Do(lv, n, s, h, a[0])
    decreases |a|
  {
    hide Do;
    if a == [] {
      assert a + b == b;
    } else {
      var (s', h') := Do(lv, n, s, h, a[0]);
      assert (a + b)[1..] == a[1..] + b;
      DoAppend(lv, n, s', h', a[1..], b);
    }
  }

  /** The CPU the loop is on after `k` dispatches. */
  function CpuAfter(cpu0: nat, calls: seq<Callback>, k: nat): nat
    requires k <= |calls|
  {
    if k == 0 then cpu0 else calls[k - 1].back
  }

  /** The steps of the loop and of `k` dispatch functions. */
  ghost function Script(cpu0: nat, calls: seq<Callback>, k: nat): seq<Step>
    requires k <= |calls|
  {
    if k == 0 then [] else Script(cpu0, calls, k - 1) + ([Turn(CpuAfter(cpu0, calls, k - 1))] + calls[k - 1].steps)
  }

  /** Each dispatch is a turn of the loop on the CPU the thread is on, then what the dispatch function does. */
  lemma TurnThenCallback(lv: Levels, n: nat, s: State, h: History, cpu0: nat, calls: seq<Callback>, k: nat)
    requires k < |calls|
    ensures Script(cpu0, calls, 0) == []
    ensures var (s1, h1) := DoAll(lv, n, s, h, Script(cpu0, calls, k));
            var (s2, h2) := Do(lv, n, s1, h1, Turn(if k == 0 then cpu0 else calls[k - 1].back));
            DoAll(lv, n, s, h, Script(cpu0, calls, k + 1)) == DoAll(lv, n, s2, h2, calls[k].steps)
  {
    hide Do, DoAll;
    var (s1, h1) := DoAll(lv, n, s, h, Script(cpu0, calls, k));
    DoMore(lv, n, s, h, Script(cpu0, calls, k), Turn(CpuAfter(cpu0, calls, k)), calls[k].steps, s1, h1);
  }

  /** Each dispatcher that ran was the first that might when its turn came. */
  ghost predicate InTurn(lv: Levels, n: nat, s: State, h: History, cpu0: nat, calls: seq<Callback>, ran: seq<Disp>) {
    |ran| <= |calls|
    && forall i :: 0 <= i < |ran| ==>
         var (s', h') := DoAll(lv, n, s, h, Script(cpu0, calls, i));
         First(lv, n, s', h', CpuAfter(cpu0, calls, i), ran[i])
  }

  lemma NoTurnYet(lv: Levels, n: nat, s: State, h: History, cpu0: nat, calls: seq<Callback>)
    ensures InTurn(lv, n, s, h, cpu0, calls, [])
  {
  }

  lemma NextInTurn(lv: Levels, n: nat, s: State, h: History, cpu0: nat, calls: seq<Callback>, ran: seq<Disp>, s1: State,
                   h1: History, d: Disp)
    requires InTurn(lv, n, s, h, cpu0, calls, ran) && |ran| < |calls|
    requires DoAll(lv, n, s, h, Script(cpu0, calls, |ran|)) == (s1, h1)
             && First(lv, n, s1, h1, CpuAfter(cpu0, calls, |ran|), d)
    ensures InTurn(lv, n, s, h, cpu0, calls, ran + [d])
  {
    hide First, DoAll, Script;
  }

  lemma InTurnMeans(lv: Levels, n: nat, s: State, h: History, cpu0: nat, calls: seq<Callback>, ran: seq<Disp>)
    requires InTurn(lv, n, s, h, cpu0, calls, ran)
    ensures |ran| <= |calls|
    ensures forall i :: 0 <= i < |ran| ==>
              var (s', h') := DoAll(lv, n, s, h, Script(cpu0, calls, i));
              First(lv, n, s', h', if i == 0 then cpu0 else calls[i - 1].back, ran[i])
  {
    hide First, DoAll, Script;
  }

  lemma DoNothing(lv: Levels, n: nat, s: State, h: History)
    ensures DoAll(lv, n, s, h, []) == (s, h)
  {
  }

  lemma {:induction false} DoMore(lv: Levels, n: nat, s: State, h: History, done: seq<Step>, x: Step, xs: seq<Step>,
                                  s1: State, h1: History)
    requires DoAll(lv, n, s, h, done) == (s1, h1)
    ensures DoAll(lv, n, s, h, done + ([x] + xs)) == DoAll(lv, n, Do(lv, n, s1, h1, x).0, Do(lv, n, s1, h1, x).1, xs)
    decreases |done|
  {
    hide Do;
    if done == [] {
      assert done + ([x] + xs) == [x] + xs && ([x] + xs)[1..] == xs;
    } else {
      var (s', h') := Do(lv, n, s, h, done[0]);
      assert (done + ([x] + xs))[1..] == done[1..] + ([x] + xs);
      DoMore(lv, n, s', h', done[1..], x, xs, s1, h1);
    }
  }

  /** Nothing queued on this CPU may run. */
  ghost predicate Idle(lv: Levels, n: nat, s: State, cpu: nat) {
    cpu in s.queue && cpu in s.count
    && forall d :: d in s.queue[cpu] ==> d.name < |lv| && !Runnable(lv, s.count[cpu], d)
  }

  /** The dispatcher may run, and comes before every other that is queued there. */
  ghost predicate First(lv: Levels, n: nat, s: State, h: History, cpu: nat, d: Disp) {
    cpu in s.queue && cpu in s.count && d in s.queue[cpu] && d.name < |lv| && Runnable(lv, s.count[cpu], d)
    && forall e :: e in s.queue[cpu] && e != d ==> e.name < |lv| && Before(lv, h, d, e)
  }

  /** Testing the head decides for the whole queue. */
  lemma HeadDecides(lv: Levels, n: nat, s: State, h: History, cpu: nat)
    requires Inv(lv, n, s, h) && cpu < n
    ensures cpu in s.queue && cpu in s.count && forall d :: d in s.queue[cpu] ==> d in s.mask
    ensures if Takes(s, cpu) then First(lv, n, s, h, cpu, s.queue[cpu][0]) else Idle(lv, n, s, cpu)
  {
    NamesKnown(lv, n, s, h, cpu);
    assert QueueOk(lv, n, s, h, cpu);
    var q := s.queue[cpu];
    if q != [] {
      var d := q[0];
      assert d in q && Exists(lv, n, d) && DispOk(lv, s, h, d);
      assert s.mask[d] == Mask(lv[d.name]);
      hide Inv, Mask;
      if Takes(s, cpu) {
        forall e | e in q && e != d
          ensures e.name < |lv| && Before(lv, h, d, e)
        {
          var i :| 0 <= i < |q| && q[i] == e;
          assert Before(lv, h, q[0], q[i]);
        }
      } else {
        forall e | e in q
          ensures !Runnable(lv, s.count[cpu], e)
        {
          if Runnable(lv, s.count[cpu], e) {
            var i :| 0 <= i < |q| && q[i] == e;
            HeadRunnable(lv, q, h, s.count[cpu], i);
          }
        }
      }
    }
  }

  lemma PlaceStep(lv: Levels, q: seq<Disp>, k: nat, pp: nat)
    requires pp < |q| && forall e :: e in q ==> e.name < |lv|
    ensures (forall e :: e in q[pp..] ==> e in q) && (forall e :: e in q[pp + 1..] ==> e in q) && q[pp].name < |lv|
    ensures Place(lv, q[pp..], k) == if lv[q[pp].name] > k then 0 else 1 + Place(lv, q[pp + 1..], k)
  {
    assert q[pp] in q && q[pp..][0] == q[pp] && q[pp..][1..] == q[pp + 1..];
  }

  lemma PlaceEnd(lv: Levels, q: seq<Disp>, k: nat)
    ensures Place(lv, q[|q|..], k) == 0
  {
  }

  /** The test of the queueing loop compares masks. */
  lemma InsideMask(lv: Levels, n: nat, s: State, h: History, d: Disp, e: Disp)
    requires Inv(lv, n, s, h) && Exists(lv, n, d) && d in s.mask && !Pending(s, d)
    requires d.cpu in s.queue && e in s.queue[d.cpu] && Exists(lv, n, e) && e.cpu == d.cpu && e in s.mask
    ensures s.mask[e] * s.mask[d] == {} <==> lv[e.name] <= lv[d.name]
  {
    PendingQueued(lv, n, s, h, d);
    assert DispOk(lv, s, h, d) && DispOk(lv, s, h, e);
    MaskOrder(lv[e.name], lv[d.name]);
  }
}

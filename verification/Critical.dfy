/** The kernel's critical-section dispatcher (critical.c): per-CPU queues of deferred work. */
module Critical {

  // ----- words and masks -----

  /** An unsigned int as the set of its one bits. */
  type Bits = set<nat>

  /** The mask of a dispatcher: its own level and every harder one, so the low `k` bits. */
  function Mask(k: nat): (m: Bits)
    ensures forall i: nat :: i in m <==> i < k
  {
    if k == 0 then {} else Mask(k - 1) + {k - 1}
  }

  /** Complement of a 32-bit word. */
  function Not(b: Bits): Bits {
    Mask(32) - b
  }

  /** Masks form a chain, and "some bit of `a` outside `b`" compares them. */
  lemma MaskOrder(a: nat, b: nat)
    requires a <= 32
    ensures Mask(a) * Not(Mask(b)) == {} <==> a <= b
  {
    if a > b {
      assert b in Mask(a) && b in Mask(32) && b !in Mask(b);
      assert b in Mask(a) * Not(Mask(b));
    } else {
      forall i | i in Mask(a)
        ensures i !in Not(Mask(b))
      {
        assert i in Mask(b);
      }
    }
  }

  lemma MaskTwice(k: nat)
    requires k <= 32
    ensures Not(Not(Mask(k))) == Mask(k)
  {
    assert forall i: nat :: i in Mask(k) ==> i in Mask(32);
  }

  // ----- state -----

  /** One CPU's copy of a dispatcher. */
  datatype Disp = Disp(name: nat, cpu: nat)

  /** The levels of the dispatchers, by name. */
  type Levels = seq<nat>

  ghost predicate Leveled(lv: Levels) {
    forall i :: 0 <= i < |lv| ==> 1 <= lv[i] <= 32
  }

  datatype State = State(queue: map<nat, seq<Disp>>, mask: map<Disp, Bits>, count: map<nat, Bits>)

  predicate Exists(lv: Levels, n: nat, d: Disp) {
    d.name < |lv| && d.cpu < n
  }

  /** critical_pending() */
  predicate Pending(s: State, d: Disp)
    requires d in s.mask
  {
    0 in s.mask[d]
  }

  predicate Runnable(lv: Levels, count: Bits, d: Disp)
    requires d.name < |lv|
  {
    Mask(lv[d.name]) * count == {}
  }

  /** What happened: when each queued request was accepted, and how often each dispatcher was
      accepted and dispatched. */
  datatype History = History(now: nat, stamp: map<Disp, nat>, accepted: map<Disp, nat>, dispatched: map<Disp, nat>)

  function Times(m: map<Disp, nat>, d: Disp): nat {
    if d in m then m[d] else 0
  }

  // ----- the invariant -----

  /** Ordered by mask inclusion, and by time of request among equal masks. */
  ghost predicate Before(lv: Levels, h: History, d: Disp, e: Disp)
    requires d.name < |lv| && e.name < |lv|
  {
    lv[d.name] < lv[e.name] || (lv[d.name] == lv[e.name] && Times(h.stamp, d) < Times(h.stamp, e))
  }

  ghost predicate Members(lv: Levels, n: nat, s: State, c: nat) {
    c in s.queue && forall d :: d in s.queue[c] ==> Exists(lv, n, d) && d.cpu == c
  }

  ghost predicate Ordered(lv: Levels, q: seq<Disp>, h: History) {
    (forall d :: d in q ==> d.name < |lv| && Times(h.stamp, d) < h.now)
    && forall i, j :: 0 <= i < j < |q| ==> Before(lv, h, q[i], q[j])
  }

  ghost predicate Masked(lv: Levels, s: State, d: Disp)
    requires d.name < |lv|
  {
    d in s.mask && d.cpu in s.queue
      && s.mask[d] == if d in s.queue[d.cpu] then Mask(lv[d.name]) else Not(Mask(lv[d.name]))
  }

  ghost predicate Balanced(s: State, h: History, d: Disp) {
    d.cpu in s.queue && Times(h.accepted, d) == Times(h.dispatched, d) + if d in s.queue[d.cpu] then 1 else 0
  }

  ghost predicate QueueOk(lv: Levels, n: nat, s: State, h: History, c: nat) {
    c in s.queue && c in s.count && Members(lv, n, s, c) && Ordered(lv, s.queue[c], h)
  }

  ghost predicate DispOk(lv: Levels, s: State, h: History, d: Disp) {
    d.name < |lv| && Masked(lv, s, d) && Balanced(s, h, d)
  }

  ghost predicate Inv(lv: Levels, n: nat, s: State, h: History) {
    Leveled(lv) && (forall c: nat :: c < n ==> QueueOk(lv, n, s, h, c))
      && (forall d :: Exists(lv, n, d) ==> DispOk(lv, s, h, d))
  }

  /** No dispatcher is queued twice. */
  lemma QueuedOnce(lv: Levels, q: seq<Disp>, h: History, i: int, j: int)
    requires Ordered(lv, q, h) && 0 <= i < j < |q|
    ensures q[i] != q[j]
  {
    assert Before(lv, h, q[i], q[j]);
  }

  /** The pending bit says whether a dispatcher is queued. */
  lemma PendingQueued(lv: Levels, n: nat, s: State, h: History, d: Disp)
    requires Inv(lv, n, s, h) && Exists(lv, n, d)
    ensures d in s.mask && d.cpu in s.queue && (Pending(s, d) <==> d in s.queue[d.cpu])
  {
    assert DispOk(lv, s, h, d);
    assert 0 in Mask(lv[d.name]) && 0 !in Not(Mask(lv[d.name]));
  }

  /** If any queued dispatcher is runnable then the first is. */
  lemma HeadRunnable(lv: Levels, q: seq<Disp>, h: History, count: Bits, i: int)
    requires Ordered(lv, q, h) && 0 <= i < |q| && q[i].name < |lv| && Runnable(lv, count, q[i])
    ensures q[0].name < |lv| && Runnable(lv, count, q[0])
  {
    assert q[0] in q;
    if i > 0 {
      assert Before(lv, h, q[0], q[i]);
      assert Mask(lv[q[0].name]) <= Mask(lv[q[i].name]);
    }
  }

  // ----- steps -----

  /** Where a request goes: before the first queued mask that is not inside its own. */
  function Place(lv: Levels, q: seq<Disp>, k: nat): (p: nat)
    requires forall d :: d in q ==> d.name < |lv|
    ensures p <= |q|
  {
    if q == [] then 0
    else
      assert q[0] in q;
      if lv[q[0].name] > k then 0 else 1 + Place(lv, q[1..], k)
  }

  function Insert(q: seq<Disp>, p: nat, d: Disp): seq<Disp>
    requires p <= |q|
  {
    q[..p] + [d] + q[p..]
  }

  /** The masked section of critical_request_dispatch(). */
  function Requested(lv: Levels, s: State, d: Disp): State
    requires d in s.mask && d.cpu in s.queue && d.name < |lv| && forall e :: e in s.queue[d.cpu] ==> e.name < |lv|
  {
    if Pending(s, d) then s
    else
      var q := s.queue[d.cpu];
      s.(queue := s.queue[d.cpu := Insert(q, Place(lv, q, lv[d.name]), d)], mask := s.mask[d := Not(s.mask[d])])
  }

  function RequestedHistory(s: State, h: History, d: Disp): History
    requires d in s.mask
  {
    if Pending(s, d) then h
    else h.(now := h.now + 1, stamp := h.stamp[d := h.now], accepted := h.accepted[d := Times(h.accepted, d) + 1])
  }

  /** Whether the loop of critical_dispatch_pending() takes the head. */
  predicate Takes(s: State, c: nat)
    requires c in s.queue && c in s.count && forall d :: d in s.queue[c] ==> d in s.mask
  {
    s.queue[c] != [] && (assert s.queue[c][0] in s.queue[c]; s.mask[s.queue[c][0]] * s.count[c] == {})
  }

  function Taken(s: State, c: nat): State
    requires c in s.queue && s.queue[c] != [] && s.queue[c][0] in s.mask
  {
    var d := s.queue[c][0];
    s.(queue := s.queue[c := s.queue[c][1..]], mask := s.mask[d := Not(s.mask[d])])
  }

  function TakenHistory(h: History, d: Disp): History {
    h.(dispatched := h.dispatched[d := Times(h.dispatched, d) + 1])
  }

  // ----- a request keeps the invariant -----

  lemma {:induction false} PlaceRight(lv: Levels, q: seq<Disp>, k: nat)
    requires forall d :: d in q ==> d.name < |lv|
    ensures var p := Place(lv, q, k);
            (forall i :: 0 <= i < p ==> lv[q[i].name] <= k) && (p < |q| ==> lv[q[p].name] > k)
  {
    if q != [] {
      assert q[0] in q;
      if lv[q[0].name] <= k {
        PlaceRight(lv, q[1..], k);
        var p := Place(lv, q[1..], k);
        assert forall i :: 0 <= i < p ==> q[1..][i] == q[i + 1];
      }
    }
  }

  lemma StampLater(lv: Levels, q: seq<Disp>, h: History, h': History, d: Disp)
    requires Ordered(lv, q, h) && d !in q && h'.now == h.now + 1 && h'.stamp == h.stamp[d := h.now]
    ensures Ordered(lv, q, h')
  {
    forall i, j | 0 <= i < j < |q|
      ensures Before(lv, h', q[i], q[j])
    {
      assert q[i] in q && q[j] in q && Before(lv, h, q[i], q[j]);
    }
  }

  /** The new entry goes behind every mask inside its own and before the others. */
  lemma InsertOrdered(lv: Levels, q: seq<Disp>, h: History, h': History, d: Disp)
    requires Ordered(lv, q, h) && d !in q && d.name < |lv| && h'.now == h.now + 1 && h'.stamp == h.stamp[d := h.now]
    ensures Ordered(lv, Insert(q, Place(lv, q, lv[d.name]), d), h')
  {
    var p := Place(lv, q, lv[d.name]);
    PlaceRight(lv, q, lv[d.name]);
    StampLater(lv, q, h, h', d);
    var r := Insert(q, p, d);
    forall i, j | 0 <= i < j < |r|
      ensures Before(lv, h', r[i], r[j])
    {
      InsertPair(lv, q, h', d, p, i, j);
    }
  }

  lemma InsertPair(lv: Levels, q: seq<Disp>, h: History, d: Disp, p: nat, i: int, j: int)
    requires Ordered(lv, q, h) && d.name < |lv| && p <= |q| && Times(h.stamp, d) == h.now - 1 && d !in q
    requires forall e :: e in q ==> Times(h.stamp, e) < h.now - 1
    requires (forall x :: 0 <= x < p ==> lv[q[x].name] <= lv[d.name]) && (p < |q| ==> lv[q[p].name] > lv[d.name])
    requires 0 <= i < j < |q| + 1
    ensures var r := Insert(q, p, d); r[i].name < |lv| && r[j].name < |lv| && Before(lv, h, r[i], r[j])
  {
    var r := Insert(q, p, d);
    var a, b := if i < p then i else i - 1, if j < p then j else j - 1;
    if i == p {
      assert r[j] == q[j - 1] && q[j - 1] in q && q[p] in q;
      assert p < j - 1 ==> Before(lv, h, q[p], q[j - 1]);
    } else if j == p {
      assert r[i] == q[i] && q[i] in q;
    } else {
      assert r[i] == q[a] && r[j] == q[b] && q[a] in q && q[b] in q;
      assert Before(lv, h, q[a], q[b]);
    }
  }

  lemma InsertElems(q: seq<Disp>, p: nat, d: Disp)
    requires p <= |q|
    ensures forall e :: e in Insert(q, p, d) <==> e == d || e in q
  {
    var r := Insert(q, p, d);
    assert r[p] == d;
    forall e | e in q
      ensures e in r
    {
      var i :| 0 <= i < |q| && q[i] == e;
      assert r[if i < p then i else i + 1] == e;
    }
  }

  lemma NamesKnown(lv: Levels, n: nat, s: State, h: History, c: nat)
    requires Inv(lv, n, s, h) && c < n
    ensures c in s.queue && c in s.count
            && forall d :: d in s.queue[c] ==> d.name < |lv| && d in s.mask && Exists(lv, n, d) && d.cpu == c
  {
    assert QueueOk(lv, n, s, h, c);
    hide Ordered;
    forall d | d in s.queue[c]
      ensures d in s.mask
    {
      assert Exists(lv, n, d) && DispOk(lv, s, h, d);
    }
  }

  lemma RequestKeepsQueue(lv: Levels, n: nat, s: State, h: History, d: Disp, c: nat)
    requires Inv(lv, n, s, h) && Exists(lv, n, d) && c < n && d in s.mask && !Pending(s, d)
    ensures d.cpu in s.queue && forall e :: e in s.queue[d.cpu] ==> e.name < |lv|
    ensures var (s', h') := (Requested(lv, s, d), RequestedHistory(s, h, d));
            QueueOk(lv, n, s', h', c)
  {
    NamesKnown(lv, n, s, h, c);
    NamesKnown(lv, n, s, h, d.cpu);
    PendingQueued(lv, n, s, h, d);
    assert QueueOk(lv, n, s, h, c) && QueueOk(lv, n, s, h, d.cpu);
    var h', q := RequestedHistory(s, h, d), s.queue[d.cpu];
    if c == d.cpu {
      InsertOrdered(lv, q, h, h', d);
      InsertElems(q, Place(lv, q, lv[d.name]), d);
    } else {
      StampLater(lv, s.queue[c], h, h', d);
    }
  }

  /** A dispatcher that a step does not concern. */
  lemma DispStays(lv: Levels, s: State, h: History, s': State, h': History, e: Disp)
    requires DispOk(lv, s, h, e) && e in s'.mask && s'.mask[e] == s.mask[e] && e.cpu in s'.queue
    requires e in s'.queue[e.cpu] <==> e in s.queue[e.cpu]
    requires Times(h'.accepted, e) == Times(h.accepted, e) && Times(h'.dispatched, e) == Times(h.dispatched, e)
    ensures DispOk(lv, s', h', e)
  {
  }

  /** A dispatcher that enters its queue, and one that leaves it. */
  lemma DispMoves(lv: Levels, s: State, h: History, s': State, h': History, d: Disp)
    requires DispOk(lv, s, h, d) && lv[d.name] <= 32 && d in s'.mask && s'.mask[d] == Not(s.mask[d])
             && d.cpu in s'.queue
    requires d in s'.queue[d.cpu] <==> d !in s.queue[d.cpu]
    requires Times(h'.accepted, d) == Times(h.accepted, d) + if d in s.queue[d.cpu] then 0 else 1
    requires Times(h'.dispatched, d) == Times(h.dispatched, d) + if d in s.queue[d.cpu] then 1 else 0
    ensures DispOk(lv, s', h', d)
  {
    MaskTwice(lv[d.name]);
  }

  lemma RequestKeepsDisp(lv: Levels, n: nat, s: State, h: History, d: Disp, e: Disp)
    requires Inv(lv, n, s, h) && Exists(lv, n, d) && Exists(lv, n, e) && d in s.mask && !Pending(s, d)
    requires d.cpu in s.queue && forall x :: x in s.queue[d.cpu] ==> x.name < |lv|
    ensures var (s', h') := (Requested(lv, s, d), RequestedHistory(s, h, d)); DispOk(lv, s', h', e)
  {
    PendingQueued(lv, n, s, h, d);
    PendingQueued(lv, n, s, h, e);
    assert DispOk(lv, s, h, e) && lv[d.name] <= 32;
    hide Inv, Mask, Insert, Place, Not, DispOk;
    var q := s.queue[d.cpu];
    InsertElems(q, Place(lv, q, lv[d.name]), d);
    var s', h' := Requested(lv, s, d), RequestedHistory(s, h, d);
    if e == d {
      DispMoves(lv, s, h, s', h', d);
    } else {
      DispStays(lv, s, h, s', h', e);
    }
  }

  /** critical_request_dispatch() keeps the invariant. */
  lemma RequestKeeps(lv: Levels, n: nat, s: State, h: History, d: Disp)
    requires Inv(lv, n, s, h) && Exists(lv, n, d)
    ensures d in s.mask && d.cpu in s.queue && forall e :: e in s.queue[d.cpu] ==> e.name < |lv|
    ensures Inv(lv, n, Requested(lv, s, d), RequestedHistory(s, h, d))
  {
    assert DispOk(lv, s, h, d);
    NamesKnown(lv, n, s, h, d.cpu);
    if !Pending(s, d) {
      hide QueueOk, DispOk, Requested, RequestedHistory;
      forall c: nat | c < n
        ensures QueueOk(lv, n, Requested(lv, s, d), RequestedHistory(s, h, d), c)
      {
        RequestKeepsQueue(lv, n, s, h, d, c);
      }
      forall e | Exists(lv, n, e)
        ensures DispOk(lv, Requested(lv, s, d), RequestedHistory(s, h, d), e)
      {
        RequestKeepsDisp(lv, n, s, h, d, e);
      }
    }
  }

  // ----- a turn of the loop keeps the invariant -----

  lemma TakeKeepsQueue(lv: Levels, n: nat, s: State, h: History, c: nat, c': nat)
    requires Inv(lv, n, s, h) && c < n && c' < n && c in s.queue && s.queue[c] != [] && s.queue[c][0] in s.mask
    ensures var (s', h') := (Taken(s, c), TakenHistory(h, s.queue[c][0]));
            QueueOk(lv, n, s', h', c')
  {
    assert QueueOk(lv, n, s, h, c');
    hide Inv;
    var h' := TakenHistory(h, s.queue[c][0]);
    if c' == c {
      OrderedTail(lv, s.queue[c], h, h');
    } else {
      OrderedSame(lv, s.queue[c'], h, h');
    }
    hide Ordered;
  }

  lemma OrderedSame(lv: Levels, q: seq<Disp>, h: History, h': History)
    requires Ordered(lv, q, h) && h'.now == h.now && h'.stamp == h.stamp
    ensures Ordered(lv, q, h')
  {
    forall i, j | 0 <= i < j < |q|
      ensures Before(lv, h', q[i], q[j])
    {
      assert Before(lv, h, q[i], q[j]);
    }
  }

  lemma OrderedTail(lv: Levels, q: seq<Disp>, h: History, h': History)
    requires q != [] && Ordered(lv, q, h) && h'.now == h.now && h'.stamp == h.stamp
    ensures Ordered(lv, q[1..], h')
  {
    var r := q[1..];
    forall i, j | 0 <= i < j < |r|
      ensures Before(lv, h', r[i], r[j])
    {
      assert Before(lv, h, q[i + 1], q[j + 1]);
    }
  }

  lemma TakeKeepsDisp(lv: Levels, n: nat, s: State, h: History, c: nat, e: Disp)
    requires Inv(lv, n, s, h) && c < n && Exists(lv, n, e) && c in s.queue && s.queue[c] != []
             && s.queue[c][0] in s.mask
    ensures var (s', h') := (Taken(s, c), TakenHistory(h, s.queue[c][0])); DispOk(lv, s', h', e)
  {
    var q := s.queue[c];
    var d := q[0];
    assert d in q && QueueOk(lv, n, s, h, c);
    PendingQueued(lv, n, s, h, e);
    assert DispOk(lv, s, h, e) && d.cpu == c && lv[d.name] <= 32;
    hide Inv, Mask, Not, DispOk;
    if d in q[1..] {
      var i :| 0 <= i < |q[1..]| && q[1..][i] == d;
      QueuedOnce(lv, q, h, 0, i + 1);
      assert false;
    }
    hide Ordered, Members;
    assert forall x :: x in q <==> x == d || x in q[1..];
    var s', h' := Taken(s, c), TakenHistory(h, d);
    if e == d {
      DispMoves(lv, s, h, s', h', d);
    } else {
      DispStays(lv, s, h, s', h', e);
    }
  }

  lemma TakeKeeps(lv: Levels, n: nat, s: State, h: History, c: nat)
    requires Inv(lv, n, s, h) && c < n && c in s.queue && s.queue[c] != []
    ensures s.queue[c][0] in s.mask && Inv(lv, n, Taken(s, c), TakenHistory(h, s.queue[c][0]))
  {
    NamesKnown(lv, n, s, h, c);
    assert s.queue[c][0] in s.queue[c];
    hide QueueOk, DispOk, Taken, TakenHistory;
    forall c': nat | c' < n
      ensures QueueOk(lv, n, Taken(s, c), TakenHistory(h, s.queue[c][0]), c')
    {
      TakeKeepsQueue(lv, n, s, h, c, c');
    }
    forall e | Exists(lv, n, e)
      ensures DispOk(lv, Taken(s, c), TakenHistory(h, s.queue[c][0]), e)
    {
      TakeKeepsDisp(lv, n, s, h, c, e);
    }
  }

  // ----- every run -----

  /** The atomic sections, run on any CPU in any order: by the loop itself, by the callbacks it
      makes, by interrupts, and by whoever enters or leaves a critical section. */
  datatype Step = Request(d: Disp) | Turn(cpu: nat) | Count(cpu: nat, bits: Bits)

  ghost predicate Can(lv: Levels, n: nat, s: State, x: Step) {
    match x
    case Request(d) => Exists(lv, n, d) && d in s.mask && d.cpu in s.queue
      && forall e :: e in s.queue[d.cpu] ==> e.name < |lv|
    case Turn(c) => c < n && c in s.queue && c in s.count && (forall d :: d in s.queue[c] ==> d in s.mask)
      && Takes(s, c)
    case Count(c, _) => c < n
  }

  /** The state and the history after a step; a step that cannot happen changes nothing. */
  ghost function Do(lv: Levels, n: nat, s: State, h: History, x: Step): (State, History) {
    if !Can(lv, n, s, x) then (s, h)
    else
      match x
      case Request(d) => (Requested(lv, s, d), RequestedHistory(s, h, d))
      case Turn(c) => assert s.queue[c][0] in s.queue[c]; (Taken(s, c), TakenHistory(h, s.queue[c][0]))
      case Count(c, b) => (s.(count := s.count[c := b]), h)
  }

  ghost function DoAll(lv: Levels, n: nat, s: State, h: History, xs: seq<Step>): (State, History)
    decreases |xs|
  {
    if xs == [] then (s, h)
    else
      var (s', h') := Do(lv, n, s, h, xs[0]);
      DoAll(lv, n, s', h', xs[1..])
  }

  /** A request of a dispatcher that is not pending puts it, and nothing else, into the queue of its CPU: behind
      every mask inside its own, with the latest time. Of a pending one it does nothing. */
  lemma RequestMeans(lv: Levels, n: nat, s: State, h: History, d: Disp)
    requires Inv(lv, n, s, h) && Exists(lv, n, d)
    ensures Can(lv, n, s, Request(d))
    ensures Pending(s, d) ==> Do(lv, n, s, h, Request(d)) == (s, h)
    ensures !Pending(s, d) ==>
              var (s', h') := Do(lv, n, s, h, Request(d));
              d.cpu in s'.queue && d in s'.mask && 0 in s'.mask[d]
              && multiset(s'.queue[d.cpu]) == multiset(s.queue[d.cpu]) + multiset{d}
              && (exists p: nat ::
                    p <= |s.queue[d.cpu]| && s'.queue[d.cpu] == s.queue[d.cpu][..p] + [d] + s.queue[d.cpu][p..])
              && s' == s.(queue := s.queue[d.cpu := s'.queue[d.cpu]], mask := s.mask[d := s'.mask[d]])
              && Times(h'.accepted, d) == Times(h.accepted, d) + 1
                && h'.accepted == h.accepted[d := Times(h'.accepted, d)]
              && h'.dispatched == h.dispatched && h'.stamp == h.stamp[d := h.now] && h'.now == h.now + 1
  {
    assert DispOk(lv, s, h, d);
    NamesKnown(lv, n, s, h, d.cpu);
    PendingQueued(lv, n, s, h, d);
    hide Place, Mask, Inv;
    if !Pending(s, d) {
      hide Insert, Not;
      Inserted(s.queue[d.cpu], Place(lv, s.queue[d.cpu], lv[d.name]), d);
      NotBit(s.mask[d], 0);
    }
  }

  lemma Inserted(q: seq<Disp>, p: nat, d: Disp)
    requires p <= |q|
    ensures Insert(q, p, d) == q[..p] + [d] + q[p..] && multiset(Insert(q, p, d)) == multiset(q) + multiset{d}
  {
    assert q == q[..p] + q[p..];
  }

  lemma NotBit(b: Bits, i: nat)
    ensures i in Not(b) <==> i < 32 && i !in b
  {
  }

  /** A turn takes the head of the queue, which is then not pending, and nothing else. */
  lemma TurnMeans(lv: Levels, n: nat, s: State, h: History, c: nat)
    requires Inv(lv, n, s, h) && Can(lv, n, s, Turn(c))
    ensures s.queue[c] != []
    ensures var (s', h') := Do(lv, n, s, h, Turn(c));
            var d := s.queue[c][0];
            d in s.mask && d in s'.mask && 0 !in s'.mask[d] && c in s'.queue && s.queue[c] == [d] + s'.queue[c]
            && s' == s.(queue := s.queue[c := s'.queue[c]], mask := s.mask[d := s'.mask[d]])
            && Times(h'.dispatched, d) == Times(h.dispatched, d) + 1
            && h' == h.(dispatched := h.dispatched[d := Times(h'.dispatched, d)])
  {
    NamesKnown(lv, n, s, h, c);
    assert s.queue[c][0] in s.queue[c];
    PendingQueued(lv, n, s, h, s.queue[c][0]);
    NotBit(s.mask[s.queue[c][0]], 0);
  }

  lemma StepKeeps(lv: Levels, n: nat, s: State, h: History, x: Step)
    requires Inv(lv, n, s, h)
    ensures Inv(lv, n, Do(lv, n, s, h, x).0, Do(lv, n, s, h, x).1)
  {
    hide Inv, Requested, RequestedHistory, Taken, TakenHistory, Takes;
    if Can(lv, n, s, x) {
      match x
      case Request(d) => RequestKeeps(lv, n, s, h, d);
      case Turn(c) =>
        TakesSome(s, c);
        TakeKeeps(lv, n, s, h, c);
      case Count(c, b) => CountKeeps(lv, n, s, h, c, b);
    }
  }

  lemma TakesSome(s: State, c: nat)
    requires c in s.queue && c in s.count && (forall d :: d in s.queue[c] ==> d in s.mask) && Takes(s, c)
    ensures s.queue[c] != []
  {
  }

  lemma CountKeeps(lv: Levels, n: nat, s: State, h: History, c: nat, b: Bits)
    requires Inv(lv, n, s, h) && c < n
    ensures Inv(lv, n, s.(count := s.count[c := b]), h)
  {
    hide Ordered, Mask;
    var s' := s.(count := s.count[c := b]);
    forall c': nat | c' < n
      ensures QueueOk(lv, n, s', h, c')
    {
      assert QueueOk(lv, n, s, h, c');
    }
    forall e | Exists(lv, n, e)
      ensures DispOk(lv, s', h, e)
    {
      assert DispOk(lv, s, h, e);
    }
  }

  /** Over every run the queues stay ordered, each dispatcher is queued at most once and flagged
      exactly then, and what was accepted is what was dispatched and what is still queued. */
  lemma {:induction false} RunKeeps(lv: Levels, n: nat, s: State, h: History, xs: seq<Step>)
    requires Inv(lv, n, s, h)
    ensures Inv(lv, n, DoAll(lv, n, s, h, xs).0, DoAll(lv, n, s, h, xs).1)
    decreases |xs|
  {
    hide Inv, Do;
    if xs != [] {
      StepKeeps(lv, n, s, h, xs[0]);
      RunKeeps(lv, n, Do(lv, n, s, h, xs[0]).0, Do(lv, n, s, h, xs[0]).1, xs[1..]);
    }
  }

  /** All queues empty and all masks complemented, as the dispatchers are defined. */
  lemma Start(lv: Levels, n: nat, s: State)
    requires Leveled(lv) && (forall c: nat :: c < n ==> c in s.queue && s.queue[c] == [] && c in s.count)
    requires forall d :: Exists(lv, n, d) ==> d in s.mask && s.mask[d] == Not(Mask(lv[d.name]))
    ensures Inv(lv, n, s, History(0, map[], map[], map[]))
  {
    var h := History(0, map[], map[], map[]);
    forall c: nat | c < n
      ensures QueueOk(lv, n, s, h, c)
    {
    }
    forall e | Exists(lv, n, e)
      ensures DispOk(lv, s, h, e)
    {
    }
  }
}

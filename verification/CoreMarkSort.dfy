/** core_list_mergesort(): bottom-up, in place, with a comparator that rewrites what it compares. */
module CoreMarkSort {
  import opened MergeSpec
  import opened CoreMarkLinks
  import opened CoreMarkData

  function LastOrNull(s: seq<Node>): Node? {
    if s == [] then null else Last(s)
  }

  /** Put a node behind the merged list. */
  method PutBehind(list0: Node?, tail0: Node?, e: Node, ghost out: seq<Node>, ghost ns: set<Node>)
    returns (list: Node, tail: Node)
    requires list0 == First(out) && tail0 == LastOrNull(out) && e in ns && forall n :: n in out ==> n in ns
    modifies ns`next
    ensures list == First(out + [e]) && tail == e
    ensures Nexts(ns) == Relinked(old(Nexts(ns)), out, e)
  {
    if tail0 != null {
      assert tail0 in out;
      tail0.next := e;
      list := list0;
    } else {
      list := e;
    }
    tail := e;
  }

  /** Comparing the first nodes of two runs, of which those longer than one have been touched,
      leaves both touched. */
  lemma BothTouched(e: Env, cur: Values, cur': Values, a: seq<Node>, b: seq<Node>)
    requires a != [] && b != [] && Touched(e, cur', [a[0]]) && Touched(e, cur', [b[0]]) && Later(e, cur, cur')
    requires (|a| >= 2 ==> Touched(e, cur, a)) && (|b| >= 2 ==> Touched(e, cur, b))
    ensures Touched(e, cur', a + b)
  {
    if |a| >= 2 {
      TouchedLater(e, cur, cur', a);
    } else {
      assert a == [a[0]];
    }
    if |b| >= 2 {
      TouchedLater(e, cur, cur', b);
    } else {
      assert b == [b[0]];
    }
  }

  /** What the merge loop keeps: the links, and what is still to come. */
  ghost predicate Running(nx: Links, key: map<Node, int>, out: seq<Node>, a: seq<Node>, b: seq<Node>, rest: seq<Node>,
                          all: seq<Node>) {
    Merging(nx, out, a, b + rest) && out + Merge(a, b, key) == all
  }

  lemma MergeFirst(key: map<Node, int>, out: seq<Node>, a: seq<Node>, b: seq<Node>)
    requires a != [] && (b == [] || K(key, a[0]) <= K(key, b[0]))
    ensures out + Merge(a, b, key) == (out + [a[0]]) + Merge(a[1..], b, key)
  {
    MergeStep(a, b, key);
    MergeStep(a[1..], b, key);
    hide Merge, K;
    if b == [] {
      assert [a[0]] + a[1..] == a;
    }
    assert Merge(a, b, key) == [a[0]] + Merge(a[1..], b, key);
  }

  lemma MergeSecond(key: map<Node, int>, out: seq<Node>, a: seq<Node>, b: seq<Node>)
    requires b != [] && (a == [] || K(key, b[0]) < K(key, a[0]))
    ensures out + Merge(a, b, key) == (out + [b[0]]) + Merge(a, b[1..], key)
  {
    MergeStep(a, b, key);
    MergeStep(a, b[1..], key);
    hide Merge, K;
    if a == [] {
      assert [b[0]] + b[1..] == b;
    }
    assert Merge(a, b, key) == [b[0]] + Merge(a, b[1..], key);
  }

  lemma FirstLink(nx: Links, out: seq<Node>, a: seq<Node>, c: seq<Node>)
    requires Merging(nx, out, a, c)
    ensures a != [] ==> a[0] in nx && (|a| > 1 ==> nx[a[0]] == a[1])
    ensures c != [] ==> c[0] in nx && nx[c[0]] == First(c[1..])
  {
    hide Distinct;
    if a != [] {
      LinkedTail(nx, a);
      assert a[0] in a;
    }
    if c != [] {
      WholeTail(nx, c);
    }
  }

  /** Taking the node that comes next keeps it. */
  lemma RunFirst(nx: Links, key: map<Node, int>, out: seq<Node>, a: seq<Node>, b: seq<Node>, rest: seq<Node>,
                 all: seq<Node>)
    requires Running(nx, key, out, a, b, rest, all) && a != [] && (b == [] || K(key, a[0]) <= K(key, b[0]))
    ensures Running(Relinked(nx, out, a[0]), key, out + [a[0]], a[1..], b, rest, all)
    ensures a[0] in nx && (|a| > 1 ==> nx[a[0]] == a[1])
  {
    hide Merging, Merge, K, Relinked;
    TakeFirst(nx, out, a, b + rest);
    FirstLink(nx, out, a, b + rest);
    MergeFirst(key, out, a, b);
  }

  lemma RunSecond(nx: Links, key: map<Node, int>, out: seq<Node>, a: seq<Node>, b: seq<Node>, rest: seq<Node>,
                  all: seq<Node>)
    requires Running(nx, key, out, a, b, rest, all) && b != [] && (a == [] || K(key, b[0]) < K(key, a[0]))
    ensures Running(Relinked(nx, out, b[0]), key, out + [b[0]], a, b[1..], rest, all)
    ensures b[0] in nx && nx[b[0]] == First(b[1..] + rest)
  {
    hide Merging, Merge, K, Relinked;
    var c := b + rest;
    assert c[0] == b[0] && c[1..] == b[1..] + rest;
    TakeSecond(nx, out, a, c);
    FirstLink(nx, out, a, c);
    MergeSecond(key, out, a, b);
  }

  lemma InLinks(ns: set<Node>, nx: Links, key: map<Node, int>, out: seq<Node>, a: seq<Node>, b: seq<Node>,
                rest: seq<Node>, all: seq<Node>)
    requires Running(nx, key, out, a, b, rest, all) && nx == Nexts(ns)
    ensures (forall n :: n in out ==> n in ns) && (a != [] ==> a[0] in ns) && (b != [] ==> b[0] in ns)
  {
    hide Distinct, Merge;
    FirstLink(nx, out, a, b + rest);
  }

  lemma LaterSelf(e: Env, cur: Values)
    ensures Later(e, cur, cur)
  {
  }

  lemma NextOf(ns: set<Node>, n: Node)
    requires n in Nexts(ns)
    ensures n in ns && n.next == Nexts(ns)[n]
  {
  }

  lemma RunStart(nx: Links, key: map<Node, int>, out: seq<Node>, a: seq<Node>, b: seq<Node>, rest: seq<Node>)
    requires Merging(nx, out, a, b + rest)
    ensures Running(nx, key, out, a, b, rest, out + Merge(a, b, key))
  {
  }

  lemma FirstOf(b: seq<Node>, rest: seq<Node>)
    ensures b != [] ==> First(b + rest) == b[0]
    ensures b == [] ==> First(b + rest) == First(rest)
    ensures First([]) == null
  {
    assert b == [] ==> b + rest == rest;
  }

  lemma LastMore(out: seq<Node>, n: Node)
    requires out != [] && out[|out| - 1] == n
    ensures LastOrNull(out) == n
  {
  }

  lemma RunEnd(nx: Links, key: map<Node, int>, out: seq<Node>, a: seq<Node>, b: seq<Node>, rest: seq<Node>,
               all: seq<Node>)
    requires Running(nx, key, out, a, b, rest, all) && a == [] && b == []
    ensures out == all && Merging(nx, all, [], rest)
  {
    MergeStep(a, b, key);
    hide Merging, Merge;
    assert b + rest == rest;
  }

  /** The comparison of the heads of what is left of two runs. */
  method CompareHeads(cmp: Cmp, bench: Bench, p: Node, q: Node, ghost e: Env, ghost ns: set<Node>, ghost ds: set<Data>,
                      ghost a: seq<Node>, ghost b: seq<Node>, ghost a0: seq<Node>, ghost b0: seq<Node>,
                        ghost cur: Values)
    returns (r: int)
    requires e.cmp == cmp && e.bench == bench && Known(e, ns, ds) && Later(e, cur, Datas(ds))
    requires a != [] && b != [] && p == a[0] && q == b[0] && p in ns && q in ns
    requires (|a0| >= 2 ==> Touched(e, cur, a0)) && (|b0| >= 2 ==> Touched(e, cur, b0))
    requires (a == a0 && b == b0) || Touched(e, Datas(ds), a0 + b0)
    modifies ds`data16
    ensures Known(e, ns, ds) && Later(e, cur, Datas(ds))
    ensures r <= 0 <==> K(e.key, a[0]) <= K(e.key, b[0])
    ensures Touched(e, Datas(ds), a0 + b0)
  {
    hide Touched, Later;
    KnownNode(e, ns, ds, p);
    KnownNode(e, ns, ds, q);
    hide Known;
    ghost var mid := Datas(ds);
    r := CompareNodes(cmp, bench, p, q, e, ns, ds);
    LaterStill(e, cur, mid, Datas(ds));
    if a == a0 && b == b0 {
      BothTouched(e, cur, Datas(ds), a, b);
    } else {
      TouchedLater(e, mid, Datas(ds), a0 + b0);
    }
  }

  /** Whether the next node comes from the first run. */
  method Choose(cmp: Cmp, bench: Bench, p: Node?, psize: nat, q: Node?, qsize: nat,
                ghost e: Env, ghost ns: set<Node>, ghost ds: set<Data>,
                ghost a: seq<Node>, ghost b: seq<Node>, ghost a0: seq<Node>, ghost b0: seq<Node>, ghost cur: Values)
    returns (fromP: bool)
    requires e.cmp == cmp && e.bench == bench && Known(e, ns, ds) && Later(e, cur, Datas(ds))
    requires psize == |a| && (a != [] ==> p == a[0] && p in ns) && (b != [] ==> q == b[0] && q in ns)
    requires (b == [] <==> qsize == 0 || q == null) && (a != [] || b != []) && |b| <= |b0|
    requires (|a0| >= 2 ==> Touched(e, cur, a0)) && (|b0| >= 2 ==> Touched(e, cur, b0))
    requires b0 == [] || (a == a0 && b == b0) || Touched(e, Datas(ds), a0 + b0)
    modifies ds`data16
    ensures Known(e, ns, ds) && Later(e, cur, Datas(ds))
    ensures fromP ==> a != [] && (b == [] || K(e.key, a[0]) <= K(e.key, b[0]))
    ensures !fromP ==> b != [] && (a == [] || K(e.key, b[0]) < K(e.key, a[0]))
    ensures b0 == [] || a0 == [] || Touched(e, Datas(ds), a0 + b0)
  {
    hide Known, Touched, Later, K, Datas;
    if psize == 0 {
      fromP := false;
    } else if qsize == 0 || q == null {
      fromP := true;
    } else {
      var r := CompareHeads(cmp, bench, p, q, e, ns, ds, a, b, a0, b0, cur);
      fromP := r <= 0;
    }
  }

  /** The merge of two runs onto the list: from the first run while it is not above the second. */
  method MergeRuns(cmp: Cmp, bench: Bench, p0: Node, n: nat, q0: Node?, insize: nat, list0: Node?, tail0: Node?,
                   ghost e: Env, ghost ns: set<Node>, ghost ds: set<Data>,
                   ghost out0: seq<Node>, ghost a0: seq<Node>, ghost b0: seq<Node>, ghost rest: seq<Node>)
    returns (list: Node?, tail: Node?, q: Node?)
    requires e.cmp == cmp && e.bench == bench && Known(e, ns, ds)
    requires Merging(Nexts(ns), out0, a0, b0 + rest)
    requires a0 != [] && p0 == a0[0] && n == |a0| && q0 == First(b0 + rest)
    requires |b0| <= insize && (|b0| < insize ==> rest == [])
    requires list0 == First(out0) && tail0 == LastOrNull(out0)
    requires (|a0| >= 2 ==> Touched(e, Datas(ds), a0)) && (|b0| >= 2 ==> Touched(e, Datas(ds), b0))
    modifies ns`next, ds`data16
    ensures Known(e, ns, ds) && Later(e, old(Datas(ds)), Datas(ds))
    ensures Merging(Nexts(ns), out0 + Merge(a0, b0, e.key), [], rest)
    ensures q == First(rest) && list == First(out0 + Merge(a0, b0, e.key))
            && tail == LastOrNull(out0 + Merge(a0, b0, e.key))
    ensures |a0| + |b0| >= 2 ==> Touched(e, Datas(ds), a0 + b0)
  {
    hide Known, Merging, Merge, K, Relinked, Touched, Later, First, Last, Datas, Nexts, Running;
    RunStart(Nexts(ns), e.key, out0, a0, b0, rest);
    ghost var cur, all := Datas(ds), out0 + Merge(a0, b0, e.key);
    ghost var out, a, b := out0, a0, b0;
    var p: Node?, psize, qsize := p0, n, insize;
    list, tail, q := list0, tail0, q0;
    LaterSelf(e, cur);
    while psize > 0 || (qsize > 0 && q != null)
      invariant Known(e, ns, ds) && Later(e, cur, Datas(ds))
      invariant Running(Nexts(ns), e.key, out, a, b, rest, all)
      invariant psize == |a| && (a != [] ==> p == a[0]) && q == First(b + rest)
      invariant |b| <= qsize && (|b| < qsize ==> rest == []) && |b| <= |b0|
      invariant list == First(out) && tail == LastOrNull(out)
      invariant b0 == [] || (a == a0 && b == b0) || Touched(e, Datas(ds), a0 + b0)
      decreases |a| + |b|
    {
      InLinks(ns, Nexts(ns), e.key, out, a, b, rest, all);
      FirstOf(b, rest);
      var fromP := Choose(cmp, bench, p, psize, q, qsize, e, ns, ds, a, b, a0, b0, cur);
      ghost var nx := Nexts(ns);
      var el: Node;
      if fromP {
        RunFirst(nx, e.key, out, a, b, rest, all);
        NextOf(ns, p);
        el := p;
        p := p.next;
        psize := psize - 1;
        a := a[1..];
      } else {
        RunSecond(nx, e.key, out, a, b, rest, all);
        NextOf(ns, q);
        el := q;
        q := q.next;
        qsize := qsize - 1;
        b := b[1..];
      }
      list, tail := PutBehind(list, tail, el, out, ns);
      out := out + [el];
      LastMore(out, el);
    }
    FirstOf(b, rest);
    RunEnd(Nexts(ns), e.key, out, a, b, rest, all);
    if b0 == [] && |a0| >= 2 {
      TouchedLater(e, cur, Datas(ds), a0);
      assert a0 + b0 == a0;
    }
  }

  // ----- one pass -----

  /** Step `insize` places along, or to the end. */
  method StepAlong(p: Node, insize: nat, ghost ns: set<Node>, ghost s: seq<Node>) returns (q: Node?, psize: nat)
    requires Whole(Nexts(ns), s) && s != [] && p == s[0] && insize > 0
    ensures psize == if insize < |s| then insize else |s|
    ensures q == First(s[psize..])
  {
    q := p;
    psize := 0;
    var i := 0;
    while i < insize
      invariant 0 <= i == psize <= insize && psize < |s| && q == s[psize]
      decreases insize - i
    {
      assert s[psize] in s && Nexts(ns)[s[psize]] == if psize < |s| - 1 then s[psize + 1] else null;
      psize := psize + 1;
      q := q.next;
      if q == null {
        break;
      }
      i := i + 1;
    }
  }

  /** Runs of more than one element have been touched. */
  ghost predicate RunsTouched(e: Env, cur: Values, rs: seq<seq<Node>>) {
    forall i :: 0 <= i < |rs| && |rs[i]| >= 2 ==> Touched(e, cur, rs[i])
  }

  lemma RunsTouchedLater(e: Env, cur: Values, cur': Values, rs: seq<seq<Node>>)
    requires RunsTouched(e, cur, rs) && Later(e, cur, cur')
    ensures RunsTouched(e, cur', rs)
  {
    hide Touched, Later;
    forall i | 0 <= i < |rs| && |rs[i]| >= 2
      ensures Touched(e, cur', rs[i])
    {
      TouchedLater(e, cur, cur', rs[i]);
    }
  }

  /** The first run and, if there is one, the second. */
  function SecondRun(rs: seq<seq<Node>>): seq<Node> {
    if |rs| >= 2 then rs[1] else []
  }

  function RunsBehind(rs: seq<seq<Node>>): seq<seq<Node>> {
    if |rs| >= 2 then rs[2..] else []
  }

  lemma RunsSplit(rs: seq<seq<Node>>, insize: nat)
    requires RunsOf(rs, insize) && rs != []
    ensures var (a, b, c) := (rs[0], SecondRun(rs), Flatten(RunsBehind(rs)));
            Flatten(rs) == a + (b + c) && a != [] && |b| <= insize && (|b| < insize ==> c == [])
            && |a| == (if insize < |Flatten(rs)| then insize else |Flatten(rs)|)
            && Flatten(rs)[|a|..] == b + c && RunsOf(RunsBehind(rs), insize)
  {
    var a, b, c := rs[0], SecondRun(rs), Flatten(RunsBehind(rs));
    if |rs| >= 2 {
      FlattenTwo(rs);
      assert forall i :: 0 <= i < |rs[2..]| ==> rs[2..][i] == rs[i + 2];
    } else {
      assert rs[1..] == [] && Flatten(rs[1..]) == [];
      assert a + (b + c) == a;
    }
    assert (a + (b + c))[|a|..] == b + c;
  }

  lemma PassStep(rs: seq<seq<Node>>, key: map<Node, int>)
    requires rs != []
    ensures Pass(rs, key) == [Merge(rs[0], SecondRun(rs), key)] + Pass(RunsBehind(rs), key)
  {
    MergeStep(rs[0], SecondRun(rs), key);
    hide Merge;
    if |rs| == 1 {
      assert rs == [rs[0]];
    }
  }

  lemma SameTouched(e: Env, cur: Values, s: seq<Node>, t: seq<Node>)
    requires Touched(e, cur, s) && multiset(s) == multiset(t)
    ensures Touched(e, cur, t)
  {
    forall n | n in t
      ensures n in s
    {
      assert n in multiset(s);
    }
  }

  lemma MergedTouched(e: Env, cur: Values, a: seq<Node>, b: seq<Node>)
    requires |a| + |b| >= 2 ==> Touched(e, cur, a + b)
    ensures |Merge(a, b, e.key)| >= 2 ==> Touched(e, cur, Merge(a, b, e.key))
  {
    hide Merge;
    var m := Merge(a, b, e.key);
    MergeElems(a, b, e.key);
    if |m| >= 2 {
      SameTouched(e, cur, a + b, m);
    }
  }

  lemma RunsTouchedMore(e: Env, cur: Values, cur': Values, outr: seq<seq<Node>>, rest: seq<seq<Node>>, m: seq<Node>)
    requires RunsTouched(e, cur, outr) && RunsTouched(e, cur, rest) && Later(e, cur, cur')
    requires |m| >= 2 ==> Touched(e, cur', m)
    ensures RunsTouched(e, cur', outr + [m]) && RunsTouched(e, cur', RunsBehind(rest))
  {
    hide Touched, Later;
    RunsTouchedLater(e, cur, cur', outr);
    RunsTouchedLater(e, cur, cur', rest);
  }

  /** What a pass keeps between merges. */
  ghost predicate Passing(e: Env, nx: Links, cur: Values, outr: seq<seq<Node>>, rest: seq<seq<Node>>, insize: nat,
                          goal: seq<seq<Node>>) {
    Merging(nx, Flatten(outr), [], Flatten(rest)) && outr + Pass(rest, e.key) == goal && RunsOf(rest, insize)
    && RunsTouched(e, cur, outr) && RunsTouched(e, cur, rest)
  }

  /** Everything the merge of the next two runs needs. */
  lemma PassBefore(e: Env, nx: Links, cur: Values, outr: seq<seq<Node>>, rest: seq<seq<Node>>, insize: nat,
                   goal: seq<seq<Node>>)
    requires Passing(e, nx, cur, outr, rest, insize, goal) && rest != []
    ensures var (out, a, b, c) := (Flatten(outr), rest[0], SecondRun(rest), Flatten(RunsBehind(rest)));
            Merging(nx, out, a, b + c) && Whole(nx, Flatten(rest)) && Flatten(rest) == a + (b + c)
            && (|a| >= 2 ==> Touched(e, cur, a)) && (|b| >= 2 ==> Touched(e, cur, b))
  {
    hide Flatten, Touched, Merge, Pass, Distinct, Linked;
    RunsSplit(rest, insize);
    var out, a, b, c := Flatten(outr), rest[0], SecondRun(rest), Flatten(RunsBehind(rest));
    WholeSplit(nx, a, b + c);
    assert [] + Flatten(rest) == a + (b + c);
  }

  lemma PassAfter(e: Env, nx: Links, nx': Links, cur: Values, cur': Values,
                  outr: seq<seq<Node>>, rest: seq<seq<Node>>, insize: nat, goal: seq<seq<Node>>)
    requires Passing(e, nx, cur, outr, rest, insize, goal) && rest != [] && Later(e, cur, cur')
    requires var (a, b) := (rest[0], SecondRun(rest));
             Merging(nx', Flatten(outr) + Merge(a, b, e.key), [], Flatten(RunsBehind(rest)))
             && (|a| + |b| >= 2 ==> Touched(e, cur', a + b))
    ensures Passing(e, nx', cur', outr + [Merge(rest[0], SecondRun(rest), e.key)], RunsBehind(rest), insize, goal)
  {
    hide Flatten, Touched, Later, Merge, Pass, Merging, RunsOf, RunsTouched;
    RunsSplit(rest, insize);
    PassStep(rest, e.key);
    var m := Merge(rest[0], SecondRun(rest), e.key);
    FlattenAppend(outr, m);
    assert outr + ([m] + Pass(RunsBehind(rest), e.key)) == (outr + [m]) + Pass(RunsBehind(rest), e.key);
    MergedTouched(e, cur', rest[0], SecondRun(rest));
    RunsTouchedMore(e, cur, cur', outr, rest, m);
  }

  lemma PassStart(e: Env, nx: Links, cur: Values, rs: seq<seq<Node>>, insize: nat)
    requires RunsOf(rs, insize) && RunsTouched(e, cur, rs) && Whole(nx, Flatten(rs)) && Distinct(Flatten(rs))
    ensures Passing(e, nx, cur, [], rs, insize, Pass(rs, e.key))
    ensures First(Flatten<Node>([])) == null && LastOrNull(Flatten([])) == null
  {
    hide Pass, RunsOf, Whole;
    var s := Flatten(rs);
    assert [] + ([] + s) == s;
    assert [] + Pass(rs, e.key) == Pass(rs, e.key);
  }

  lemma PassSizes(e: Env, nx: Links, cur: Values, outr: seq<seq<Node>>, rest: seq<seq<Node>>, insize: nat,
                  goal: seq<seq<Node>>)
    requires Passing(e, nx, cur, outr, rest, insize, goal) && rest != []
    ensures var (a, b, c) := (rest[0], SecondRun(rest), Flatten(RunsBehind(rest)));
            a != [] && a[0] == Flatten(rest)[0] && |b| <= insize && (|b| < insize ==> c == [])
            && |a| == (if insize < |Flatten(rest)| then insize else |Flatten(rest)|)
            && Flatten(rest)[|a|..] == b + c
  {
    hide Flatten, Pass, Merging, RunsTouched;
    RunsSplit(rest, insize);
  }

  lemma FlattenFirst(rs: seq<seq<Node>>)
    requires First(Flatten(rs)) != null
    ensures rs != [] && Flatten(rs) != [] && First(Flatten(rs)) == Flatten(rs)[0]
  {
  }

  lemma FlattenEnd(rs: seq<seq<Node>>)
    requires First(Flatten(rs)) == null
    ensures Flatten(rs) == []
  {
  }

  lemma PassEnd(e: Env, nx: Links, cur: Values, outr: seq<seq<Node>>, rest: seq<seq<Node>>, insize: nat,
                goal: seq<seq<Node>>)
    requires Passing(e, nx, cur, outr, rest, insize, goal) && Flatten(rest) == []
    ensures outr == goal && Linked(nx, Flatten(goal)) && Distinct(Flatten(goal)) && RunsTouched(e, cur, goal)
  {
    hide RunsTouched, Linked, Distinct, Whole;
    assert rest == [];
    assert Flatten(outr) + ([] + []) == Flatten(outr);
    assert outr + [] == outr;
  }

  lemma WholeEnd(nx: Links, s: seq<Node>)
    requires Linked(nx, s) && Distinct(s) && s != []
    ensures Whole(nx[Last(s) := null], s)
  {
    var nx' := nx[Last(s) := null];
    forall i | 0 <= i < |s| - 1
      ensures nx'[s[i]] == s[i + 1]
    {
      DistinctAt(s, i, |s| - 1);
    }
  }

  /** One pass over the list: the runs are merged two by two. */
  method OnePass(cmp: Cmp, bench: Bench, list0: Node, insize: nat, ghost e: Env, ghost ns: set<Node>,
                 ghost ds: set<Data>, ghost rs: seq<seq<Node>>)
    returns (list: Node?, nmerges: nat)
    requires e.cmp == cmp && e.bench == bench && Known(e, ns, ds) && insize > 0
    requires RunsOf(rs, insize) && rs != [] && RunsTouched(e, Datas(ds), rs)
    requires Whole(Nexts(ns), Flatten(rs)) && Distinct(Flatten(rs)) && list0 == First(Flatten(rs))
    modifies ns`next, ds`data16
    ensures Known(e, ns, ds) && nmerges == |Pass(rs, e.key)| && RunsTouched(e, Datas(ds), Pass(rs, e.key))
    ensures Whole(Nexts(ns), Flatten(Pass(rs, e.key))) && Distinct(Flatten(Pass(rs, e.key)))
    ensures list == First(Flatten(Pass(rs, e.key)))
  {
    hide Known, Passing, RunsOf, RunsTouched, Flatten, Pass, Merging, Touched, Later, Datas, Nexts, Merge, Whole,
         Distinct, First, LastOrNull;
    ghost var goal := Pass(rs, e.key);
    ghost var outr: seq<seq<Node>>, rest := [], rs;
    var p: Node? := list0;
    var tail: Node? := null;
    list, nmerges := null, 0;
    PassStart(e, Nexts(ns), Datas(ds), rs, insize);
    while p != null
      invariant Known(e, ns, ds) && Passing(e, Nexts(ns), Datas(ds), outr, rest, insize, goal)
      invariant p == First(Flatten(rest)) && list == First(Flatten(outr)) && tail == LastOrNull(Flatten(outr))
      invariant nmerges == |outr|
      decreases |rest|
    {
      nmerges := nmerges + 1;
      FlattenFirst(rest);
      PassBefore(e, Nexts(ns), Datas(ds), outr, rest, insize, goal);
      PassSizes(e, Nexts(ns), Datas(ds), outr, rest, insize, goal);
      ghost var a, b, c := rest[0], SecondRun(rest), Flatten(RunsBehind(rest));
      ghost var nx, cur := Nexts(ns), Datas(ds);
      var q, psize := StepAlong(p, insize, ns, Flatten(rest));
      list, tail, q := MergeRuns(cmp, bench, p, psize, q, insize, list, tail, e, ns, ds, Flatten(outr), a, b, c);
      PassAfter(e, nx, Nexts(ns), cur, Datas(ds), outr, rest, insize, goal);
      FlattenAppend(outr, Merge(a, b, e.key));
      outr, rest := outr + [Merge(a, b, e.key)], RunsBehind(rest);
      p := q;
    }
    FlattenEnd(rest);
    PassEnd(e, Nexts(ns), Datas(ds), outr, rest, insize, goal);
    PassFull(rs, e.key, insize);
    CloseList(tail, ns, Flatten(goal));
  }

  method CloseList(tail: Node?, ghost ns: set<Node>, ghost s: seq<Node>)
    requires s != [] && tail == LastOrNull(s) && Linked(Nexts(ns), s) && Distinct(s)
    modifies ns`next
    ensures Whole(Nexts(ns), s)
  {
    hide Linked, Distinct;
    ghost var nx := Nexts(ns);
    assert Last(s) in ns by {
      LastIn(nx, s);
    }
    tail.next := null;
    assert Nexts(ns) == nx[Last(s) := null];
    WholeEnd(nx, s);
  }

  lemma LastIn(nx: Links, s: seq<Node>)
    requires Linked(nx, s) && s != []
    ensures Last(s) in nx
  {
    assert Last(s) in s;
  }

  lemma PassFull(rs: seq<seq<Node>>, key: map<Node, int>, insize: nat)
    requires RunsOf(rs, insize) && rs != []
    ensures Flatten(Pass(rs, key)) != []
  {
    hide Merge;
    PassStep(rs, key);
    var m, p := Merge(rs[0], SecondRun(rs), key), Pass(RunsBehind(rs), key);
    assert |m| >= 1;
    assert ([m] + p)[0] == m;
  }

  // ----- the sort -----

  function Singles(s: seq<Node>): (rs: seq<seq<Node>>)
    ensures |rs| == |s| && forall i :: 0 <= i < |s| ==> rs[i] == [s[i]]
  {
    seq(|s|, i requires 0 <= i < |s| => [s[i]])
  }

  lemma {:induction false} FlattenSingles(s: seq<Node>)
    ensures Flatten(Singles(s)) == s
    decreases |s|
  {
    if s != [] {
      assert Singles(s)[1..] == Singles(s[1..]);
      FlattenSingles(s[1..]);
    }
  }

  /** The list as a sort begins on it. */
  ghost function MakeEnv(cmp: Cmp, bench: Bench, ns: set<Node>, ds: set<Data>): Env
    requires forall n :: n in ns ==> n.info in ds
    reads ns`info, ds
  {
    Env(cmp, bench, map n | n in ns :: n.info, Datas(ds), map d | d in ds :: Touch(cmp, d.data16, bench(d)),
        map n | n in ns :: KeyOf(cmp, n.info.data16, n.info.idx, bench(n.info)))
  }

  lemma EnvKnown(cmp: Cmp, bench: Bench, ns: set<Node>, ds: set<Data>)
    requires forall n :: n in ns ==> n.info in ds
    ensures Known(MakeEnv(cmp, bench, ns, ds), ns, ds)
  {
    hide Touch, KeyOf;
  }

  /** What the passes keep: a permutation of the list in sorted runs, equal keys in their order. */
  ghost predicate Sorting(key: map<Node, int>, s: seq<Node>, rs: seq<seq<Node>>, insize: nat) {
    rs != [] && RunsOf(rs, insize) && AllSorted(rs, key) && multiset(Flatten(rs)) == multiset(s)
    && forall k :: Only(Flatten(rs), key, k) == Only(s, key, k)
  }

  lemma SortingStart(key: map<Node, int>, s: seq<Node>, e: Env, cur: Values)
    requires s != []
    ensures Sorting(key, s, Singles(s), 1) && Flatten(Singles(s)) == s && RunsTouched(e, cur, Singles(s))
  {
    hide Only, Flatten;
    FlattenSingles(s);
  }

  lemma SortingPass(key: map<Node, int>, s: seq<Node>, rs: seq<seq<Node>>, insize: nat)
    requires Sorting(key, s, rs, insize)
    ensures Sorting(key, s, Pass(rs, key), 2 * insize)
  {
    hide Only, Flatten, RunsOf, AllSorted, Pass;
    PassRuns(rs, key, insize);
    PassStable(s, rs, key);
  }

  lemma SortingDone(key: map<Node, int>, s: seq<Node>, rs: seq<seq<Node>>, insize: nat, e: Env, cur: Values)
    requires Sorting(key, s, rs, insize) && |rs| == 1 && RunsTouched(e, cur, rs)
    ensures StableSort(s, Flatten(rs), key) && Flatten(rs) != [] && (|s| >= 2 ==> Touched(e, cur, s))
  {
    hide Only, Touched;
    assert rs[1..] == [] && Flatten(rs) == rs[0];
    assert |multiset(s)| == |s| && |multiset(rs[0])| == |rs[0]|;
    if |s| >= 2 {
      SameTouched(e, cur, rs[0], s);
    }
  }

  /** core_list_mergesort(): the same nodes, stably sorted by keys that the comparisons found out and
      recorded in the data, of every node when there are two or more. */
  method MergeSort(list0: Node, cmp: Cmp, bench: Bench, ghost ns: set<Node>, ghost ds: set<Data>, ghost s: seq<Node>)
    returns (list: Node, ghost s': seq<Node>)
    requires s != [] && list0 == s[0] && Whole(Nexts(ns), s) && Distinct(s)
    requires forall n :: n in ns ==> n.info in ds
    modifies ns`next, ds`data16
    ensures s' != [] && list == s'[0] && Whole(Nexts(ns), s') && Distinct(s')
    ensures var e := old(MakeEnv(cmp, bench, ns, ds));
            StableSort(s, s', e.key) && Known(e, ns, ds) && (|s| >= 2 ==> Touched(e, Datas(ds), s))
  {
    hide Known, RunsOf, RunsTouched, Flatten, Pass, Touched, Datas, Nexts, Whole, Distinct, Sorting, StableSort;
    ghost var e, rs := MakeEnv(cmp, bench, ns, ds), Singles(s);
    EnvKnown(cmp, bench, ns, ds);
    hide MakeEnv;
    SortingStart(e.key, s, e, Datas(ds));
    var l: Node? := list0;
    var insize: nat := 1;
    while true
      invariant Known(e, ns, ds) && Sorting(e.key, s, rs, insize) && RunsTouched(e, Datas(ds), rs) && insize > 0
      invariant Whole(Nexts(ns), Flatten(rs)) && Distinct(Flatten(rs)) && l == First(Flatten(rs)) && l != null
      decreases |rs|
    {
      SortingRuns(e.key, s, rs, insize);
      var nmerges;
      l, nmerges := OnePass(cmp, bench, l, insize, e, ns, ds, rs);
      SortingPass(e.key, s, rs, insize);
      PassFull(rs, e.key, insize);
      rs := Pass(rs, e.key);
      if nmerges <= 1 {
        SortingRuns(e.key, s, rs, 2 * insize);
        SortingDone(e.key, s, rs, 2 * insize, e, Datas(ds));
        return l, Flatten(rs);
      }
      insize := insize * 2;
    }
  }

  lemma SortingRuns(key: map<Node, int>, s: seq<Node>, rs: seq<seq<Node>>, insize: nat)
    requires Sorting(key, s, rs, insize)
    ensures RunsOf(rs, insize) && rs != []
  {
  }
}

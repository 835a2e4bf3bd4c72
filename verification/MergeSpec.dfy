/** Bottom-up mergesort on values: runs merged pairwise until one is left. */
module MergeSpec {

  /** The key of an element. */
  function K<T>(m: map<T, int>, x: T): int {
    if x in m then m[x] else 0
  }

  predicate Sorted<T>(s: seq<T>, m: map<T, int>) {
    forall i, j :: 0 <= i < j < |s| ==> K(m, s[i]) <= K(m, s[j])
  }

  /** The elements with one key, in their order. */
  function Only<T>(s: seq<T>, m: map<T, int>, k: int): seq<T> {
    if s == [] then [] else (if K(m, s[0]) == k then [s[0]] else []) + Only(s[1..], m, k)
  }

  /** `s` has the elements of `o`, sorted, those with equal keys in the order they had. */
  ghost predicate StableSort<T>(o: seq<T>, s: seq<T>, m: map<T, int>) {
    multiset(s) == multiset(o) && Sorted(s, m) && forall k :: Only(s, m, k) == Only(o, m, k)
  }

  // ----- merging two runs -----

  /** From the first run on equal keys. */
  function Merge<T>(a: seq<T>, b: seq<T>, m: map<T, int>): (r: seq<T>)
    ensures |r| == |a| + |b|
    decreases |a| + |b|
  {
    if a == [] then b
    else if b == [] then a
    else if K(m, a[0]) <= K(m, b[0]) then [a[0]] + Merge(a[1..], b, m)
    else [b[0]] + Merge(a, b[1..], m)
  }

  lemma {:induction false} MergeElems<T>(a: seq<T>, b: seq<T>, m: map<T, int>)
    ensures multiset(Merge(a, b, m)) == multiset(a) + multiset(b)
    decreases |a| + |b|
  {
    if a != [] && b != [] {
      assert a == [a[0]] + a[1..] && b == [b[0]] + b[1..];
      if K(m, a[0]) <= K(m, b[0]) {
        MergeElems(a[1..], b, m);
      } else {
        MergeElems(a, b[1..], m);
      }
    }
  }

  lemma ElemOf<T>(s: seq<T>, t: seq<T>, u: seq<T>)
    requires multiset(s) == multiset(t) + multiset(u)
    ensures forall x :: x in s <==> x in t || x in u
  {
    assert forall x :: x in s <==> x in multiset(s);
    assert forall x :: x in t <==> x in multiset(t);
    assert forall x :: x in u <==> x in multiset(u);
  }

  lemma SortedCons<T>(x: T, s: seq<T>, t: seq<T>, u: seq<T>, m: map<T, int>)
    requires Sorted(s, m) && multiset(s) == multiset(t) + multiset(u)
    requires (forall y :: y in t ==> K(m, x) <= K(m, y)) && forall y :: y in u ==> K(m, x) <= K(m, y)
    ensures Sorted([x] + s, m)
  {
    ElemOf(s, t, u);
    var r := [x] + s;
    forall i, j | 0 <= i < j < |r|
      ensures K(m, r[i]) <= K(m, r[j])
    {
      assert s[j - 1] in s;
    }
  }

  lemma SortedTail<T>(s: seq<T>, m: map<T, int>)
    requires Sorted(s, m) && s != []
    ensures Sorted(s[1..], m)
    ensures forall y :: y in s ==> K(m, s[0]) <= K(m, y)
    ensures forall y :: y in s[1..] ==> y in s
  {
  }

  lemma {:induction false} MergeSorted<T>(a: seq<T>, b: seq<T>, m: map<T, int>)
    requires Sorted(a, m) && Sorted(b, m)
    ensures Sorted(Merge(a, b, m), m)
    decreases |a| + |b|
  {
    hide Sorted;
    if a != [] && b != [] {
      SortedTail(a, m);
      SortedTail(b, m);
      if K(m, a[0]) <= K(m, b[0]) {
        MergeSorted(a[1..], b, m);
        MergeElems(a[1..], b, m);
        SortedCons(a[0], Merge(a[1..], b, m), a[1..], b, m);
      } else {
        MergeSorted(a, b[1..], m);
        MergeElems(a, b[1..], m);
        SortedCons(b[0], Merge(a, b[1..], m), a, b[1..], m);
      }
    }
  }

  lemma {:induction false} OnlyAppend<T>(a: seq<T>, b: seq<T>, m: map<T, int>, k: int)
    ensures Only(a + b, m, k) == Only(a, m, k) + Only(b, m, k)
    decreases |a|
  {
    if a == [] {
      assert a + b == b;
    } else {
      assert (a + b)[1..] == a[1..] + b;
      OnlyAppend(a[1..], b, m, k);
    }
  }

  /** Nothing in a sorted run has a key below its first. */
  lemma {:induction false} OnlyBelow<T>(s: seq<T>, m: map<T, int>, k: int)
    requires forall y :: y in s ==> k < K(m, y)
    ensures Only(s, m, k) == []
  {
    if s != [] {
      assert s[0] in s;
      OnlyBelow(s[1..], m, k);
    }
  }

  /** Merging sorted runs keeps the order of elements with equal keys. */
  lemma {:induction false} MergeOnly<T>(a: seq<T>, b: seq<T>, m: map<T, int>, k: int)
    requires Sorted(a, m)
    ensures Only(Merge(a, b, m), m, k) == Only(a, m, k) + Only(b, m, k)
    decreases |a| + |b|
  {
    MergeStep(a, b, m);
    hide Sorted, Merge, Only;
    if a == [] || b == [] {
      OnlyNone(m, k);
    } else if K(m, a[0]) <= K(m, b[0]) {
      SortedTail(a, m);
      MergeOnly(a[1..], b, m, k);
      OnlyFirst(a[0], Merge(a[1..], b, m), m, k);
      OnlyFirst(a[0], a[1..], m, k);
      assert a == [a[0]] + a[1..];
    } else {
      SortedTail(a, m);
      MergeOnly(a, b[1..], m, k);
      OnlyFirst(b[0], Merge(a, b[1..], m), m, k);
      OnlyFirst(b[0], b[1..], m, k);
      assert b == [b[0]] + b[1..];
      if K(m, b[0]) == k {
        OnlyBelow(a, m, k);
      }
    }
  }

  lemma MergeStep<T>(a: seq<T>, b: seq<T>, m: map<T, int>)
    ensures a == [] ==> Merge(a, b, m) == b
    ensures b == [] ==> Merge(a, b, m) == a
    ensures a != [] && b != [] ==>
              Merge(a, b, m) == if K(m, a[0]) <= K(m, b[0]) then [a[0]] + Merge(a[1..], b, m)
                else [b[0]] + Merge(a, b[1..], m)
  {
  }

  lemma OnlyNone<T>(m: map<T, int>, k: int)
    ensures Only([], m, k) == []
  {
  }

  lemma OnlyFirst<T>(x: T, s: seq<T>, m: map<T, int>, k: int)
    ensures Only([x] + s, m, k) == (if K(m, x) == k then [x] else []) + Only(s, m, k)
  {
    assert ([x] + s)[1..] == s;
  }

  // ----- passes -----

  function Flatten<T>(rs: seq<seq<T>>): seq<T> {
    if rs == [] then [] else rs[0] + Flatten(rs[1..])
  }

  /** One pass: the runs merged two by two, an odd one left as it is. */
  function Pass<T>(rs: seq<seq<T>>, m: map<T, int>): (r: seq<seq<T>>)
    ensures |r| == (|rs| + 1) / 2
  {
    if |rs| <= 1 then rs else [Merge(rs[0], rs[1], m)] + Pass(rs[2..], m)
  }

  /** Runs of `n` elements, the last perhaps shorter. */
  predicate RunsOf<T>(rs: seq<seq<T>>, n: nat) {
    forall i :: 0 <= i < |rs| ==> 1 <= |rs[i]| <= n && (i < |rs| - 1 ==> |rs[i]| == n)
  }

  predicate AllSorted<T>(rs: seq<seq<T>>, m: map<T, int>) {
    forall i :: 0 <= i < |rs| ==> Sorted(rs[i], m)
  }

  lemma {:induction false} FlattenAppend<T>(rs: seq<seq<T>>, r: seq<T>)
    ensures Flatten(rs + [r]) == Flatten(rs) + r
    decreases |rs|
  {
    if rs == [] {
      assert rs + [r] == [r] && [r][1..] == [];
    } else {
      assert (rs + [r])[1..] == rs[1..] + [r];
      FlattenAppend(rs[1..], r);
    }
  }

  lemma FlattenTwo<T>(rs: seq<seq<T>>)
    requires |rs| >= 2
    ensures Flatten(rs) == rs[0] + (rs[1] + Flatten(rs[2..]))
  {
    assert rs[1..][1..] == rs[2..];
  }

  lemma {:induction false} PassRuns<T>(rs: seq<seq<T>>, m: map<T, int>, n: nat)
    requires RunsOf(rs, n) && AllSorted(rs, m)
    ensures RunsOf(Pass(rs, m), 2 * n) && AllSorted(Pass(rs, m), m)
    decreases |rs|
  {
    hide Sorted, Merge;
    if |rs| >= 2 {
      var q := rs[2..];
      assert forall i :: 0 <= i < |q| ==> q[i] == rs[i + 2];
      PassRuns(q, m, n);
      MergeSorted(rs[0], rs[1], m);
    }
  }

  lemma {:induction false} PassKeeps<T>(rs: seq<seq<T>>, m: map<T, int>, k: int)
    requires AllSorted(rs, m)
    ensures multiset(Flatten(Pass(rs, m))) == multiset(Flatten(rs))
    ensures Only(Flatten(Pass(rs, m)), m, k) == Only(Flatten(rs), m, k)
    decreases |rs|
  {
    hide Sorted, Merge, Only;
    if |rs| >= 2 {
      var q := rs[2..];
      assert forall i :: 0 <= i < |q| ==> q[i] == rs[i + 2];
      PassKeeps(q, m, k);
      FlattenTwo(rs);
      PassHead(rs, m);
      hide Flatten, Pass;
      MergeElems(rs[0], rs[1], m);
      PassOnly(rs[0], rs[1], Flatten(q), Flatten(Pass(q, m)), m, k);
    }
  }

  lemma PassOnly<T>(a: seq<T>, b: seq<T>, f: seq<T>, g: seq<T>, m: map<T, int>, k: int)
    requires Sorted(a, m) && Only(f, m, k) == Only(g, m, k)
    ensures Only(Merge(a, b, m) + g, m, k) == Only(a + (b + f), m, k)
  {
    hide Sorted, Merge, Only;
    MergeOnly(a, b, m, k);
    OnlyAppend(Merge(a, b, m), g, m, k);
    OnlyAppend(a, b + f, m, k);
    OnlyAppend(b, f, m, k);
  }

  lemma PassHead<T>(rs: seq<seq<T>>, m: map<T, int>)
    requires |rs| >= 2
    ensures Flatten(Pass(rs, m)) == Merge(rs[0], rs[1], m) + Flatten(Pass(rs[2..], m))
  {
    var p := [Merge(rs[0], rs[1], m)] + Pass(rs[2..], m);
    assert p[1..] == Pass(rs[2..], m);
  }

  lemma PassStable<T>(o: seq<T>, rs: seq<seq<T>>, m: map<T, int>)
    requires AllSorted(rs, m) && multiset(Flatten(rs)) == multiset(o)
             && forall k :: Only(Flatten(rs), m, k) == Only(o, m, k)
    ensures multiset(Flatten(Pass(rs, m))) == multiset(o)
    ensures forall k :: Only(Flatten(Pass(rs, m)), m, k) == Only(o, m, k)
  {
    hide Only, Flatten, Pass, AllSorted;
    PassKeeps(rs, m, 0);
    forall k
      ensures Only(Flatten(Pass(rs, m)), m, k) == Only(o, m, k)
    {
      PassKeeps(rs, m, k);
    }
  }

  // ----- what a stable sort is -----

  /** There is only one stable sort. */
  lemma {:induction false} StableUnique<T>(s: seq<T>, t: seq<T>, m: map<T, int>)
    requires Sorted(s, m) && Sorted(t, m) && forall k :: Only(s, m, k) == Only(t, m, k)
    ensures s == t
    decreases |s|
  {
    BothEmpty(s, t, m);
    if s != [] {
      HeadsAgree(s, t, m);
      HeadsAgree(t, s, m);
      TailsAgree(s, t, m);
      StableUnique(s[1..], t[1..], m);
      assert s == [s[0]] + s[1..] && t == [t[0]] + t[1..];
    }
  }

  lemma BothEmpty<T>(s: seq<T>, t: seq<T>, m: map<T, int>)
    requires forall k :: Only(s, m, k) == Only(t, m, k)
    ensures s == [] <==> t == []
  {
    var k := if s == [] then 0 else K(m, s[0]);
    var l := if t == [] then 0 else K(m, t[0]);
    assert Only(s, m, k) == Only(t, m, k);
    assert Only(s, m, l) == Only(t, m, l);
  }

  lemma HeadsAgree<T>(s: seq<T>, t: seq<T>, m: map<T, int>)
    requires s != [] && t != [] && Sorted(t, m) && forall k :: Only(s, m, k) == Only(t, m, k)
    ensures K(m, t[0]) <= K(m, s[0])
  {
    hide Sorted;
    SortedTail(t, m);
    var k := K(m, s[0]);
    assert Only(s, m, k) == Only(t, m, k);
    if k < K(m, t[0]) {
      OnlyBelow(t, m, k);
      assert false;
    }
  }

  lemma TailsAgree<T>(s: seq<T>, t: seq<T>, m: map<T, int>)
    requires s != [] && t != [] && K(m, t[0]) == K(m, s[0]) && forall k :: Only(s, m, k) == Only(t, m, k)
    ensures s[0] == t[0] && forall k :: Only(s[1..], m, k) == Only(t[1..], m, k)
  {
    var k0 := K(m, s[0]);
    assert Only(s, m, k0) == Only(t, m, k0);
    assert Only(s, m, k0)[0] == s[0] && Only(t, m, k0)[0] == t[0];
    forall k
      ensures Only(s[1..], m, k) == Only(t[1..], m, k)
    {
      assert Only(s, m, k) == Only(t, m, k);
      var h := if k0 == k then [s[0]] else [];
      assert Only(s, m, k) == h + Only(s[1..], m, k) && Only(t, m, k) == h + Only(t[1..], m, k);
      assert (h + Only(s[1..], m, k))[|h|..] == Only(s[1..], m, k);
      assert (h + Only(t[1..], m, k))[|h|..] == Only(t[1..], m, k);
    }
  }
}

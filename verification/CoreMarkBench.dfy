/** core_bench_list(): search, reversal, relinking, sorting and removal, and the list is back. */
module CoreMarkBench {
  import opened MergeSpec
  import opened CoreMarkLinks
  import opened CoreMarkData
  import opened CoreMarkSort

  // ----- finding -----

  predicate Match(n: Node, idx: int, data: int)
    reads n, n.info
  {
    if idx >= 0 then n.info.idx == idx else n.info.data16 % 256 == data
  }

  /** core_list_find(): the first node that matches, or null. */
  method Find(list0: Node?, idx: int, data: int, ghost ns: set<Node>, ghost s: seq<Node>)
    returns (list: Node?, ghost k: nat)
    requires Whole(Nexts(ns), s) && list0 == First(s)
    ensures k <= |s| && list == (if k < |s| then s[k] else null)
    ensures idx >= 0 ==> (k < |s| ==> s[k].info.idx == idx) && forall i :: 0 <= i < k ==> s[i].info.idx != idx
    ensures idx < 0 ==>
              (k < |s| ==> s[k].info.data16 % 256 == data) && forall i :: 0 <= i < k ==> s[i].info.data16 % 256 != data
  {
    list, k := list0, 0;
    while list != null && !Match(list, idx, data)
      invariant 0 <= k <= |s| && list == if k < |s| then s[k] else null
      invariant forall i :: 0 <= i < k ==> !Match(s[i], idx, data)
      decreases |s| - k
    {
      assert s[k] in s && Nexts(ns)[s[k]] == if k < |s| - 1 then s[k + 1] else null;
      list, k := list.next, k + 1;
    }
  }

  // ----- reversing -----

  function Reversed(s: seq<Node>): (r: seq<Node>)
    ensures |r| == |s|
  {
    if s == [] then [] else Reversed(s[1..]) + [s[0]]
  }

  lemma {:induction false} ReversedElems(s: seq<Node>)
    ensures multiset(Reversed(s)) == multiset(s)
  {
    if s != [] {
      ReversedElems(s[1..]);
      assert s == [s[0]] + s[1..];
    }
  }

  lemma WholeFront(nx: Links, s: seq<Node>, n: Node)
    requires Whole(nx, s) && n !in s && n in nx
    ensures Whole(nx[n := First(s)], [n] + s)
  {
    hide Linked;
    LinkedOther(nx, s, n, First(s));
    LinkedFront(nx[n := First(s)], s, n);
    if s != [] {
      assert Last([n] + s) == Last(s);
      assert Last(s) in s;
    }
  }

  lemma LinkedFront(nx: Links, s: seq<Node>, n: Node)
    requires Linked(nx, s) && n in nx && nx[n] == First(s)
    ensures Linked(nx, [n] + s)
  {
  }

  /** The reversed part, the rest, and what they will be. */
  ghost predicate Reversing(nx: Links, done: seq<Node>, rest: seq<Node>, goal: seq<Node>) {
    Whole(nx, done) && Whole(nx, rest) && Distinct(done + rest) && Reversed(rest) + done == goal
  }

  lemma ReverseStep(nx: Links, done: seq<Node>, rest: seq<Node>, goal: seq<Node>)
    requires Reversing(nx, done, rest, goal) && rest != []
    ensures rest[0] in nx && nx[rest[0]] == First(rest[1..])
    ensures Reversing(nx[rest[0] := First(done)], [rest[0]] + done, rest[1..], goal)
  {
    var n := rest[0];
    hide Whole, Distinct, Reversed;
    HeadApart(done, rest);
    WholeTail(nx, rest);
    ReversedStep(done, rest);
    WholeFront(nx, done, n);
    WholeOther(nx, rest[1..], n, First(done));
  }

  lemma ReversedStep(done: seq<Node>, rest: seq<Node>)
    requires rest != []
    ensures Reversed(rest) + done == Reversed(rest[1..]) + ([rest[0]] + done)
  {
  }

  /** A node that changes from the front of one list to the front of the other. */
  lemma HeadApart(done: seq<Node>, rest: seq<Node>)
    requires Distinct(done + rest) && rest != []
    ensures rest[0] !in done && rest[0] !in rest[1..] && Distinct(([rest[0]] + done) + rest[1..])
  {
    var n, t := rest[0], ([rest[0]] + done) + rest[1..];
    assert rest == [n] + rest[1..];
    assert multiset(done + rest) == multiset(t);
    DistinctPerm(done + rest, t);
    assert t == [n] + (done + rest[1..]);
    DistinctParts([n], done + rest[1..]);
    assert n in [n];
  }

  /** One store to a link. */
  method SetNext(n: Node, v: Node?, ghost ns: set<Node>)
    requires n in ns
    modifies n`next
    ensures Nexts(ns) == old(Nexts(ns))[n := v]
  {
    n.next := v;
  }

  /** core_list_reverse() */
  method Reverse(list0: Node?, ghost ns: set<Node>, ghost s: seq<Node>) returns (next: Node?)
    requires Whole(Nexts(ns), s) && Distinct(s) && list0 == First(s)
    modifies ns`next
    ensures Whole(Nexts(ns), Reversed(s)) && Distinct(Reversed(s)) && next == First(Reversed(s))
  {
    ReversedElems(s);
    DistinctPerm(s, Reversed(s));
    ReverseStart(Nexts(ns), s);
    hide Reversing, Whole, Distinct, Reversed, Nexts;
    ghost var done: seq<Node>, rest := [], s;
    var list := list0;
    next := null;
    while list != null
      invariant Reversing(Nexts(ns), done, rest, Reversed(s)) && list == First(rest) && next == First(done)
      decreases |rest|
    {
      ghost var nx := Nexts(ns);
      ReverseStep(nx, done, rest, Reversed(s));
      NextOf(ns, list);
      var tmp := list.next;
      SetNext(list, next, ns);
      done, rest := [rest[0]] + done, rest[1..];
      next := list;
      list := tmp;
    }
    ReverseEnd(Nexts(ns), done, Reversed(s));
  }

  lemma ReverseStart(nx: Links, s: seq<Node>)
    requires Whole(nx, s) && Distinct(s)
    ensures Reversing(nx, [], s, Reversed(s))
  {
    assert [] + s == s && Reversed(s) + [] == Reversed(s);
  }

  lemma ReverseEnd(nx: Links, done: seq<Node>, goal: seq<Node>)
    requires Reversing(nx, done, [], goal)
    ensures done == goal && Whole(nx, goal)
  {
    assert [] + done == done;
  }

  // ----- moving a node behind the head -----

  function Without(s: seq<Node>, k: nat): (r: seq<Node>)
    requires k < |s|
    ensures |r| == |s| - 1
  {
    s[..k] + s[k + 1..]
  }

  /** Unlinking the node behind `s[k]`. */
  lemma UnlinkAfter(nx: Links, s: seq<Node>, k: nat)
    requires Whole(nx, s) && Distinct(s) && k + 1 < |s|
    ensures s[k + 1] in nx && nx[s[k]] == s[k + 1]
    ensures Whole(nx[s[k] := nx[s[k + 1]]], Without(s, k + 1))
  {
    var t, nx' := Without(s, k + 1), nx[s[k] := nx[s[k + 1]]];
    assert s[k + 1] in s && s[k] in s;
    assert nx[s[k]] == s[k + 1];
    forall i | 0 <= i < |t|
      ensures t[i] in nx' && nx'[t[i]] == if i < |t| - 1 then t[i + 1] else null
    {
      var j := if i <= k then i else i + 1;
      assert s[j] in s && t[i] == s[j];
      if j < k {
        DistinctAt(s, j, k);
      } else if j > k {
        DistinctAt(s, k, j);
      }
    }
  }

  /** Linking a node in behind the head. */
  lemma LinkBehindHead(nx: Links, t: seq<Node>, x: Node)
    requires Whole(nx, t) && Distinct(t) && t != [] && x !in t && x in nx
    ensures t[0] in nx && Whole(nx[x := nx[t[0]]][t[0] := x], [t[0], x] + t[1..])
  {
    WholeTail(nx, t);
    assert t == [t[0]] + t[1..];
    DistinctParts([t[0]], t[1..]);
    assert t[0] in [t[0]] && x !in t[1..];
    hide Whole, Distinct;
    var nx1 := nx[x := First(t[1..])];
    WholeFront(nx, t[1..], x);
    assert t[0] !in [x] + t[1..];
    WholeFront(nx1, [x] + t[1..], t[0]);
    assert [t[0]] + ([x] + t[1..]) == [t[0], x] + t[1..];
  }

  /** The list with the node behind `s[k]` moved behind the head. */
  function Promoted(s: seq<Node>, k: nat): seq<Node>
    requires k + 1 < |s|
  {
    [s[0], s[k + 1]] + Without(s, k + 1)[1..]
  }

  lemma PromotedElems(s: seq<Node>, k: nat)
    requires k + 1 < |s|
    ensures multiset(Promoted(s, k)) == multiset(s)
  {
    var h, a, x, c := s[0], s[1..k + 1], s[k + 1], s[k + 2..];
    assert s == ([h] + a) + ([x] + c);
    assert Without(s, k + 1)[1..] == a + c;
    assert Promoted(s, k) == [h, x] + (a + c);
  }

  lemma WithoutElems(s: seq<Node>, k: nat)
    requires Distinct(s) && k < |s|
    ensures Distinct(Without(s, k)) && s[k] !in Without(s, k)
  {
    var t := Without(s, k);
    assert s == s[..k] + [s[k]] + s[k + 1..];
    assert multiset(s) == multiset([s[k]] + t);
    DistinctPerm(s, [s[k]] + t);
    DistinctParts([s[k]], t);
    assert s[k] in [s[k]];
  }

  /** The relinking in core_bench_list() after a successful search. */
  method Promote(list: Node, found: Node, ghost ns: set<Node>, ghost s: seq<Node>, ghost k: nat)
    returns (ghost s': seq<Node>)
    requires Whole(Nexts(ns), s) && Distinct(s) && k < |s| && list == s[0] && found == s[k]
    modifies ns`next
    ensures s' == if k + 1 < |s| then [s[0], s[k + 1]] + s[1..k + 1] + s[k + 2..] else s
    ensures Whole(Nexts(ns), s') && Distinct(s') && multiset(s') == multiset(s) && list == s'[0]
  {
    hide Distinct, Nexts;
    ghost var nx := Nexts(ns);
    s' := s;
    assert s[k] in s;
    NextOf(ns, found);
    if found.next != null {
      ghost var t := Without(s, k + 1);
      UnlinkAfter(nx, s, k);
      WithoutElems(s, k + 1);
      PromotedElems(s, k);
      DistinctPerm(s, Promoted(s, k));
      hide Whole, Promoted, Without;
      var finder := found.next;
      NextOf(ns, finder);
      SetNext(found, finder.next, ns);
      LinkBehindHead(Nexts(ns), t, finder);
      NextOf(ns, list);
      SetNext(finder, list.next, ns);
      SetNext(list, finder, ns);
      PromotedIs(s, k);
      s' := Promoted(s, k);
    }
  }

  lemma PromotedIs(s: seq<Node>, k: nat)
    requires k + 1 < |s|
    ensures Promoted(s, k) == [s[0], s[k + 1]] + Without(s, k + 1)[1..] && Promoted(s, k)[0] == s[0]
            && Without(s, k + 1)[0] == s[0]
    ensures Promoted(s, k) == [s[0], s[k + 1]] + s[1..k + 1] + s[k + 2..]
  {
  }

  // ----- removing and putting back -----

  ghost function Infos(ns: set<Node>): map<Node, Data>
    reads ns`info
  {
    map n | n in ns :: n.info
  }

  /** core_list_remove(): the node behind goes, and its data moves up. */
  method Remove(item: Node, ghost ns: set<Node>) returns (ret: Node)
    requires item in ns && item.next != null && item.next in ns && item.next != item
    modifies item`next, item`info, item.next`next, item.next`info
    ensures ret == old(item.next) && Nexts(ns) == old(Nexts(ns))[item := old(item.next.next)][ret := null]
    ensures Infos(ns) == old(Infos(ns))[item := old(item.next.info)][ret := old(item.info)]
  {
    ret := item.next;
    var tmp := item.info;
    item.info := ret.info;
    ret.info := tmp;
    item.next := item.next.next;
    ret.next := null;
  }

  /** core_list_undo_remove() */
  method UndoRemove(removed: Node, modified: Node, ghost ns: set<Node>) returns (r: Node)
    requires removed in ns && modified in ns
    modifies removed`next, removed`info, modified`next, modified`info
    ensures r == removed && Nexts(ns) == old(Nexts(ns))[removed := old(modified.next)][modified := removed]
    ensures Infos(ns) == old(Infos(ns))[removed := old(modified.info)][modified := old(removed.info)]
  {
    var tmp := removed.info;
    removed.info := modified.info;
    modified.info := tmp;
    removed.next := modified.next;
    modified.next := removed;
    r := removed;
  }

  /** Putting back what was removed restores every link and every data pointer. */
  lemma RemoveUndone(nx: Links, fo: map<Node, Data>, item: Node, ret: Node)
    requires item in nx && ret in nx && item in fo && ret in fo && item != ret && nx[item] == ret
    ensures nx[item := nx[ret]][ret := null][ret := nx[ret]][item := ret] == nx
    ensures fo[item := fo[ret]][ret := fo[item]][ret := fo[ret]][item := fo[item]] == fo
  {
  }

  /** A list whose third node is unlinked is still a list, with that node left on its own. */
  lemma RemovedList(nx: Links, s: seq<Node>)
    requires Whole(nx, s) && Distinct(s) && |s| >= 3
    ensures nx[s[0]] == s[1] && nx[s[1]] == s[2] && s[2] in nx && s[1] != s[2]
    ensures Whole(nx[s[1] := nx[s[2]]][s[2] := null], Without(s, 2))
  {
    UnlinkAfter(nx, s, 1);
    UnlinkAfter(nx, s, 0);
    DistinctAt(s, 1, 2);
    WithoutElems(s, 2);
    hide Whole, Distinct, Without;
    WholeOther(nx[s[1] := nx[s[2]]], Without(s, 2), s[2], null);
  }

  /** The checksum loops of core_bench_list() run over the rest of the list and end. */
  method WalkToEnd(from: Node?, ghost ns: set<Node>, ghost s: seq<Node>, ghost from_k: nat)
    requires Whole(Nexts(ns), s) && from_k < |s| && from == s[from_k]
  {
    var finder := from;
    ghost var k := from_k;
    while finder != null
      invariant 0 <= k <= |s| && finder == if k < |s| then s[k] else null
      decreases |s| - k
    {
      assert s[k] in s && Nexts(ns)[s[k]] == if k < |s| - 1 then s[k + 1] else null;
      finder, k := finder.next, k + 1;
    }
  }

  /** The part of core_bench_list() between the two sorts: remove, search, put back. */
  method RemoveSearchRestore(list: Node, idx: int, data: int, ghost ns: set<Node>, ghost s: seq<Node>)
    requires Whole(Nexts(ns), s) && Distinct(s) && |s| >= 3 && list == s[0] && forall n :: n in s ==> n in ns
    modifies ns`next, ns`info
    ensures Nexts(ns) == old(Nexts(ns)) && Infos(ns) == old(Infos(ns))
    ensures forall n :: n in ns ==> n.info == old(n.info)
  {
    ghost var nx, fo := Nexts(ns), Infos(ns);
    RemovedList(nx, s);
    assert s[1] in s && s[2] in s && s[0] in s;
    assert Without(s, 2)[0] == s[0] && Without(s, 2)[1] == s[1];
    hide Whole, Distinct, Without;
    var remover := Remove(list.next, ns);
    var finder, k := Find(list, idx, data, ns, Without(s, 2));
    assert list.next == s[1];
    if finder == null {
      finder, k := list.next, 1;
    }
    WalkToEnd(finder, ns, Without(s, 2), k);
    var back := UndoRemove(remover, list.next, ns);
    RemoveUndone(nx, fo, s[1], s[2]);
  }

  // ----- the whole benchmark step -----

  function Wrap16(x: int): int {
    if x > 32767 then x - 65536 else x
  }

  /** A list of these nodes, in whatever order. */
  ghost predicate Shuffled(nx: Links, s: seq<Node>, s0: seq<Node>) {
    Whole(nx, s) && Distinct(s) && multiset(s) == multiset(s0)
  }

  /** One search of the first loop: find, reverse, move the next node up. */
  method SearchOnce(list0: Node, idx: int, data: int, ghost ns: set<Node>, ghost s: seq<Node>, ghost s0: seq<Node>)
    returns (list: Node, ghost s': seq<Node>)
    requires Shuffled(Nexts(ns), s, s0) && s != [] && list0 == s[0]
    modifies ns`next
    ensures Shuffled(Nexts(ns), s', s0) && |s'| == |s| && list == s'[0]
  {
    hide Whole, Distinct, Nexts, Match, Reversed, Promoted;
    var found, k := Find(list0, idx, data, ns, s);
    ReversedElems(s);
    var l := Reverse(list0, ns, s);
    list, s' := l, Reversed(s);
    if found != null {
      ReversedAt(s, k);
      s' := Promote(list, found, ns, s', |s| - 1 - k);
    }
    SameLength(s, s');
  }

  lemma SameLength(s: seq<Node>, t: seq<Node>)
    requires multiset(s) == multiset(t)
    ensures |s| == |t|
  {
    assert |multiset(s)| == |s| && |multiset(t)| == |t|;
  }

  lemma {:induction false} ReversedAt(s: seq<Node>, k: nat)
    requires k < |s|
    ensures Reversed(s)[|s| - 1 - k] == s[k]
  {
    if k > 0 {
      ReversedAt(s[1..], k - 1);
    }
  }

  /** The searches of core_bench_list(). */
  method Searches(list0: Node, findNum: int, finderIdx: int, ghost ns: set<Node>, ghost s0: seq<Node>)
    returns (list: Node, idx: int, data: int, ghost s: seq<Node>)
    requires Whole(Nexts(ns), s0) && Distinct(s0) && s0 != [] && list0 == s0[0]
    modifies ns`next
    ensures Shuffled(Nexts(ns), s, s0) && |s| == |s0| && list == s[0]
  {
    hide Whole, Distinct, Nexts;
    list, idx, data, s := list0, finderIdx, 0, s0;
    var i := 0;
    while i < findNum
      invariant Shuffled(Nexts(ns), s, s0) && |s| == |s0| && list == s[0]
      decreases findNum - i
    {
      data := i % 256;
      list, s := SearchOnce(list, idx, data, ns, s, s0);
      if idx >= 0 {
        idx := Wrap16(idx + 1);
      }
      i := i + 1;
    }
  }

  /** In index order, with distinct indices. */
  ghost predicate Indexed(s: seq<Node>, fo: map<Node, Data>)
    reads fo.Values`idx
  {
    (forall n :: n in s ==> n in fo) && forall i, j :: 0 <= i < j < |s| ==> fo[s[i]].idx < fo[s[j]].idx
  }

  lemma {:induction false} SortedUnique(s: seq<Node>, t: seq<Node>, m: map<Node, int>)
    requires Sorted(s, m) && multiset(s) == multiset(t)
    requires forall i, j :: 0 <= i < j < |t| ==> K(m, t[i]) < K(m, t[j])
    ensures s == t
    decreases |s|
  {
    SameLength(s, t);
    if s != [] {
      HeadLeast(s, t, m);
      SortedTail(s, m);
      hide Sorted, K;
      TailPerm(s, t);
      assert forall i :: 0 <= i < |t[1..]| ==> t[1..][i] == t[i + 1];
      SortedUnique(s[1..], t[1..], m);
      assert s == [s[0]] + s[1..] && t == [t[0]] + t[1..];
    }
  }

  lemma TailPerm(s: seq<Node>, t: seq<Node>)
    requires s != [] && t != [] && s[0] == t[0] && multiset(s) == multiset(t)
    ensures multiset(s[1..]) == multiset(t[1..])
  {
    assert s == [s[0]] + s[1..] && t == [t[0]] + t[1..];
    assert multiset(s[1..]) == multiset(s) - multiset{s[0]};
    assert multiset(t[1..]) == multiset(t) - multiset{t[0]};
  }

  lemma HeadLeast(s: seq<Node>, t: seq<Node>, m: map<Node, int>)
    requires s != [] && |s| == |t| && Sorted(s, m) && multiset(s) == multiset(t)
    requires forall i, j :: 0 <= i < j < |t| ==> K(m, t[i]) < K(m, t[j])
    ensures s[0] == t[0]
  {
    assert t[0] in multiset(t) && s[0] in multiset(s);
    assert t[0] in s && s[0] in t;
    var i :| 0 <= i < |s| && s[i] == t[0];
    var j :| 0 <= j < |t| && t[j] == s[0];
    assert K(m, s[0]) <= K(m, s[i]);
  }

  /** Each datum still has the backup it had in `d0`. */
  ghost predicate Backed(d0: Values, cur: Values) {
    forall d :: d in d0 ==> d in cur && High(cur[d]) == High(d0[d])
  }

  lemma KnownBacked(e: Env, cur: Values, d0: Values)
    requires DataKnown(e, cur) && e.d0 == d0 && forall d :: d in d0 <==> d in cur
    ensures Backed(d0, cur)
  {
    hide Touch, High;
    forall d | d in d0
      ensures High(cur[d]) == High(d0[d])
    {
      TouchTwice(e.cmp, e.d0[d], e.bench(d), 0);
    }
  }

  /** The sort by data: any order of the nodes, but no backup is lost. */
  method SortByData(list0: Node, bench: Bench, ghost ns: set<Node>, ghost ds: set<Data>, ghost s: seq<Node>,
                    ghost s0: seq<Node>)
    returns (list: Node, ghost s': seq<Node>)
    requires Shuffled(Nexts(ns), s, s0) && s != [] && list0 == s[0] && forall n :: n in ns ==> n.info in ds
    modifies ns`next, ds`data16
    ensures Shuffled(Nexts(ns), s', s0) && |s'| == |s| && list == s'[0]
    ensures Backed(old(Datas(ds)), Datas(ds))
  {
    hide Whole, Distinct, Nexts, KeysKnown, Touched, Sorted, Only;
    ghost var e := MakeEnv(ByData, bench, ns, ds);
    list, s' := MergeSort(list0, ByData, bench, ns, ds, s);
    SameLength(s, s');
    KnownBacked(e, Datas(ds), e.d0);
  }

  /** Sorting by index puts every node and every datum back. */
  method SortBack(list0: Node, bench: Bench, ghost ns: set<Node>, ghost ds: set<Data>, ghost s: seq<Node>,
                  ghost s0: seq<Node>, ghost d0: Values)
    returns (list: Node)
    requires Shuffled(Nexts(ns), s, s0) && |s| >= 2 && list0 == s[0]
    requires (forall n :: n in ns ==> n.info in ds) && (forall n :: n in s0 ==> n in ns) && Indexed(s0, Infos(ns))
    requires Backed(d0, Datas(ds)) && forall n :: n in s0 ==> n.info in d0 && d0[n.info] % 256 == d0[n.info] / 256
    modifies ns`next, ds`data16
    ensures Whole(Nexts(ns), s0) && |s0| > 0 && list == s0[0]
    ensures forall n :: n in s0 ==> n.info in d0 && n.info.data16 == d0[n.info]
  {
    ghost var s', e := s, MakeEnv(ByIdx, bench, ns, ds);
    IdxKeys(bench, ns, ds, s0);
    assert e.d0 == Datas(ds) && e.cmp == ByIdx;
    SameLength(s, s0);
    hide Whole, Distinct, Nexts, KeysKnown, Touched, Sorted, Only, MakeEnv, Indexed;
    list, s' := MergeSort(list0, ByIdx, bench, ns, ds, s);
    SortedUnique(s', s0, e.key);
    SameTouched(e, Datas(ds), s, s0);
    Restored(e, ns, ds, s0, d0);
  }

  /** Data touched by the index comparison is what its backup says. */
  lemma Restored(e: Env, ns: set<Node>, ds: set<Data>, s: seq<Node>, d0: Values)
    requires Known(e, ns, ds) && e.cmp == ByIdx && Backed(d0, e.d0) && Touched(e, Datas(ds), s)
    requires forall n :: n in s ==> n in ns && n.info in d0 && d0[n.info] % 256 == d0[n.info] / 256
    ensures forall n :: n in s ==> n.info.data16 == d0[n.info]
  {
    hide Regen, KeyOf;
    forall n | n in s
      ensures n.info.data16 == d0[n.info]
    {
      assert e.info[n] == n.info;
      RegenRestores(d0[n.info], e.d0[n.info]);
    }
  }

  lemma IdxKeys(bench: Bench, ns: set<Node>, ds: set<Data>, s: seq<Node>)
    requires (forall n :: n in ns ==> n.info in ds) && (forall n :: n in s ==> n in ns) && Indexed(s, Infos(ns))
    ensures var m := MakeEnv(ByIdx, bench, ns, ds).key;
            forall i, j :: 0 <= i < j < |s| ==> K(m, s[i]) < K(m, s[j])
  {
    var m := MakeEnv(ByIdx, bench, ns, ds).key;
    forall i, j | 0 <= i < j < |s|
      ensures K(m, s[i]) < K(m, s[j])
    {
      assert s[i] in s && s[j] in s;
    }
  }

  /** Lists of the same nodes in the same order have the same links. */
  lemma SameLinks(nx: Links, nx': Links, s: seq<Node>)
    requires Whole(nx, s) && Whole(nx', s) && (forall n :: n in nx ==> n in s) && forall n :: n in nx' ==> n in s
    ensures nx == nx'
  {
    forall n | n in s
      ensures n in nx && n in nx' && nx[n] == nx'[n]
    {
      var i :| 0 <= i < |s| && s[i] == n;
      assert nx[s[i]] == if i < |s| - 1 then s[i + 1] else null;
      assert nx'[s[i]] == if i < |s| - 1 then s[i + 1] else null;
    }
  }

  lemma NextsKeys(ns: set<Node>, s: seq<Node>)
    requires forall n :: n in ns <==> n in s
    ensures forall n :: n in Nexts(ns) ==> n in s
  {
  }

  /** core_bench_list(): at the end of the step every link, every data pointer and every datum is
      what it was, for any number of searches and any results of the nested benchmarks. */
  method BenchList(list0: Node, findNum: int, finderIdx: int, bench: Bench, ghost ns: set<Node>, ghost ds: set<Data>,
                   ghost s0: seq<Node>)
    returns (list: Node)
    requires Whole(Nexts(ns), s0) && Distinct(s0) && |s0| >= 3 && list0 == s0[0] && forall n :: n in ns <==> n in s0
    requires (forall n :: n in ns ==> n.info in ds) && Indexed(s0, Infos(ns))
             && forall n :: n in s0 ==> n.info.data16 % 256 == n.info.data16 / 256
    modifies ns`next, ns`info, ds`data16
    ensures list == list0 && Nexts(ns) == old(Nexts(ns)) && Infos(ns) == old(Infos(ns))
    ensures forall n :: n in s0 ==> n.info.data16 == old(n.info.data16)
  {
    hide Whole, Distinct, Indexed, Shuffled, Nexts, Infos, Regen, High, Datas, Backed;
    ghost var nx: Links, d0, fo := Nexts(ns), Datas(ds), Infos(ns);
    DatasOf(ns, ds, s0);
    assert Indexed(s0, fo);
    NextsKeys(ns, s0);
    ghost var s;
    var idx, data;
    list, idx, data, s := Scramble(list0, findNum, finderIdx, bench, ns, ds, s0);
    assert Indexed(s0, fo);
    ShuffledParts(Nexts(ns), s, s0);
    RemoveSearchRestore(list, idx, data, ns, s);
    assert Indexed(s0, fo);
    list := SortBack(list, bench, ns, ds, s, s0, d0);
    NextsKeys(ns, s0);
    SameLinks(nx, Nexts(ns), s0);
  }

  lemma DatasOf(ns: set<Node>, ds: set<Data>, s: seq<Node>)
    requires (forall n :: n in ns <==> n in s) && forall n :: n in ns ==> n.info in ds
    ensures forall n :: n in s ==> n.info in Datas(ds) && Datas(ds)[n.info] == n.info.data16
  {
  }

  /** The part of core_bench_list() that shuffles the list and caches values in its data. */
  method Scramble(list0: Node, findNum: int, finderIdx: int, bench: Bench, ghost ns: set<Node>, ghost ds: set<Data>,
                  ghost s0: seq<Node>)
    returns (list: Node, idx: int, data: int, ghost s: seq<Node>)
    requires Whole(Nexts(ns), s0) && Distinct(s0) && |s0| >= 3 && list0 == s0[0] && forall n :: n in ns ==> n.info in ds
    modifies ns`next, ds`data16
    ensures Shuffled(Nexts(ns), s, s0) && |s| == |s0| && list == s[0]
    ensures Backed(old(Datas(ds)), Datas(ds)) && Infos(ns) == old(Infos(ns))
  {
    hide Whole, Distinct, Shuffled, Nexts, Infos, High, Datas, Backed;
    BackedSelf(Datas(ds));
    list, idx, data, s := Searches(list0, findNum, finderIdx, ns, s0);
    if finderIdx > 0 {
      list, s := SortByData(list, bench, ns, ds, s, s0);
    }
  }

  lemma BackedSelf(d0: Values)
    ensures Backed(d0, d0)
  {
  }

  lemma ShuffledParts(nx: Links, s: seq<Node>, s0: seq<Node>)
    requires Shuffled(nx, s, s0)
    ensures Whole(nx, s) && Distinct(s) && |s| == |s0| && forall n :: n in s ==> n in s0
  {
    SameLength(s, s0);
    forall n | n in s
      ensures n in s0
    {
      assert n in multiset(s);
    }
  }
}

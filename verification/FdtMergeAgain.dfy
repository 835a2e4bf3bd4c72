/** When applying the same overlays a second time changes nothing. */
module FdtMergeAgain {
  import opened Options
  import opened FdtTokens
  import opened FdtTree
  import opened FdtBlob
  import opened FdtWalk
  import FdtRw
  import opened FdtEdit
  import opened FdtOverlay
  import opened FdtMergeLaws

  // ----- levels that differ only in values and contents that a search can reach -----

  ghost predicate Alike(t: Tree, u: Tree, ps: set<seq<byte>>, ns: set<seq<byte>>)
    decreases t
  {
    match t
    case NopT(r) => u.NopT? && Alike(r, u.rest, ps, ns)
    case PropT(n, v, r) => u.PropT? && u.name == n && (n in ps ==> u.val == v) && Alike(r, u.rest, ps + {n}, ns)
    case _ => AlikeKids(t, u, ns)
  }

  ghost predicate AlikeKids(t: Tree, u: Tree, ns: set<seq<byte>>)
    decreases t
  {
    match t
    case Leaf => u.Leaf?
    case NopT(r) => u.NopT? && AlikeKids(r, u.rest, ns)
    case PropT(n, v, r) => u.PropT? && u.name == n && u.val == v && AlikeKids(r, u.rest, ns)
    case NodeT(n, k, r) => u.NodeT? && u.name == n && (n in ns ==> u.kids == k) && AlikeKids(r, u.rest, ns + {n})
  }

  lemma {:induction false} KidsAlikeThen(t: Tree, u: Tree, w: Tree, ns: set<seq<byte>>)
    requires AlikeKids(t, u, ns) && AlikeKids(u, w, ns)
    ensures AlikeKids(t, w, ns)
    decreases t
  {
    match t
    case Leaf =>
    case NopT(r) => KidsAlikeThen(r, u.rest, w.rest, ns);
    case PropT(_, _, r) => KidsAlikeThen(r, u.rest, w.rest, ns);
    case NodeT(n, _, r) => KidsAlikeThen(r, u.rest, w.rest, ns + {n});
  }

  lemma {:induction false} AlikeThen(t: Tree, u: Tree, w: Tree, ps: set<seq<byte>>, ns: set<seq<byte>>)
    requires Alike(t, u, ps, ns) && Alike(u, w, ps, ns)
    ensures Alike(t, w, ps, ns)
    decreases t
  {
    match t
    case NopT(r) => AlikeThen(r, u.rest, w.rest, ps, ns);
    case PropT(n, _, r) => AlikeThen(r, u.rest, w.rest, ps + {n}, ns);
    case _ => KidsAlikeThen(t, u, w, ns);
  }

  lemma {:induction false} KidsAlikeSelf(t: Tree, ns: set<seq<byte>>)
    ensures AlikeKids(t, t, ns)
    decreases t
  {
    match t
    case Leaf =>
    case NopT(r) => KidsAlikeSelf(r, ns);
    case PropT(_, _, r) => KidsAlikeSelf(r, ns);
    case NodeT(n, _, r) => KidsAlikeSelf(r, ns + {n});
  }

  lemma {:induction false} AlikeSelf(t: Tree, ps: set<seq<byte>>, ns: set<seq<byte>>)
    ensures Alike(t, t, ps, ns)
    decreases t
  {
    match t
    case NopT(r) => AlikeSelf(r, ps, ns);
    case PropT(n, _, r) => AlikeSelf(r, ps + {n}, ns);
    case _ => KidsAlikeSelf(t, ns);
  }

  /** Alike levels are equal when all lookups agree. */
  lemma {:induction false} KidsAlikeEqual(t: Tree, u: Tree, ns: set<seq<byte>>)
    requires AlikeKids(t, u, ns) && forall n :: n !in ns ==> Kid(t, n) == Kid(u, n)
    ensures t == u
    decreases t
  {
    match t
    case Leaf =>
    case NopT(r) =>
      assert forall n :: Kid(t, n) == Kid(r, n) && Kid(u, n) == Kid(u.rest, n);
      KidsAlikeEqual(r, u.rest, ns);
    case PropT(_, _, r) =>
      assert forall n :: Kid(t, n) == Kid(r, n) && Kid(u, n) == Kid(u.rest, n);
      KidsAlikeEqual(r, u.rest, ns);
    case NodeT(m, k, r) =>
      assert Kid(t, m) == Some(k) && Kid(u, m) == Some(u.kids);
      assert forall n :: n != m ==> Kid(t, n) == Kid(r, n) && Kid(u, n) == Kid(u.rest, n);
      KidsAlikeEqual(r, u.rest, ns + {m});
  }

  lemma {:induction false} AlikeEqual(t: Tree, u: Tree, ps: set<seq<byte>>)
    requires Alike(t, u, ps, {}) && forall n :: Kid(t, n) == Kid(u, n)
    requires forall p :: p !in ps ==> FirstVal(t, p) == FirstVal(u, p)
    ensures t == u
    decreases t
  {
    match t
    case NopT(r) =>
      assert forall n :: Kid(t, n) == Kid(r, n) && Kid(u, n) == Kid(u.rest, n);
      assert forall p :: FirstVal(t, p) == FirstVal(r, p) && FirstVal(u, p) == FirstVal(u.rest, p);
      AlikeEqual(r, u.rest, ps);
    case PropT(m, v, r) =>
      assert forall n :: Kid(t, n) == Kid(r, n) && Kid(u, n) == Kid(u.rest, n);
      assert FirstVal(t, m) == Some(v) && FirstVal(u, m) == Some(u.val);
      assert forall p :: p != m ==> FirstVal(t, p) == FirstVal(r, p) && FirstVal(u, p) == FirstVal(u.rest, p);
      AlikeEqual(r, u.rest, ps + {m});
    case _ => KidsAlikeEqual(t, u, {});
  }

  // ----- merging what is there already -----

  lemma {:induction false} SetAlike(t: Tree, n: seq<byte>, v: seq<byte>, ps: set<seq<byte>>)
    requires n !in ps
    ensures Alike(t, SetFirst(t, n, v), ps, {})
    decreases t
  {
    match t
    case NopT(r) => SetAlike(r, n, v, ps);
    case PropT(m, _, r) =>
      if m == n {
        AlikeSelf(r, ps + {m}, {});
      } else {
        SetAlike(r, n, v, ps + {m});
      }
    case _ => KidsAlikeSelf(t, {});
  }

  lemma {:induction false} PropsAlike(t: Tree, ov: Tree)
    requires forall p :: LastVal(ov, p).Some? ==> FirstVal(t, p).Some?
    ensures Alike(t, MergeProps(t, ov), {}, {})
    decreases ov
  {
    hide Alike;
    match ov
    case NopT(r) =>
      assert forall p :: LastVal(ov, p) == LastVal(r, p);
      PropsAlike(t, r);
    case PropT(n, v, r) =>
      assert LastVal(ov, n).Some? && forall p :: LastVal(r, p).Some? ==> LastVal(ov, p).Some?;
      var u := SetFirst(t, n, v);
      forall p ensures FirstVal(u, p).Some? <==> FirstVal(t, p).Some? {
        SetFirstLevel(t, n, v, p);
      }
      SetFirstLevel(t, n, v, n);
      SetAlike(t, n, v, {});
      PropsAlike(u, r);
      AlikeThen(t, u, MergeProps(u, r), {}, {});
    case _ => AlikeSelf(t, {}, {});
  }

  lemma {:induction false} KidAlikeIn(t: Tree, n: seq<byte>, k: Tree, ns: set<seq<byte>>)
    requires forall x :: x in ns ==> !NameEq(x, n)
    ensures AlikeKids(t, MergeKid(t, n, k), ns)
    decreases t
  {
    hide NameEq, MergeNode;
    match t
    case Leaf =>
    case NopT(r) => KidAlikeIn(r, n, k, ns);
    case PropT(_, _, r) => KidAlikeIn(r, n, k, ns);
    case NodeT(m, _, r) =>
      if NameEq(m, n) {
        KidsAlikeSelf(r, ns + {m});
      } else {
        KidAlikeIn(r, n, k, ns + {m});
      }
  }

  lemma {:induction false} KidAlike(t: Tree, n: seq<byte>, k: Tree, ps: set<seq<byte>>)
    ensures Alike(t, MergeKid(t, n, k), ps, {})
    decreases t
  {
    hide NameEq, MergeNode, AlikeKids;
    match t
    case NopT(r) => KidAlike(r, n, k, ps);
    case PropT(m, _, r) => KidAlike(r, n, k, ps + {m});
    case _ =>
      KidAlikeIn(t, n, k, {});
      NodeAlike(t, MergeKid(t, n, k), ps);
  }

  lemma NodeAlike(t: Tree, u: Tree, ps: set<seq<byte>>)
    requires !t.NopT? && !t.PropT? && AlikeKids(t, u, {})
    ensures Alike(t, u, ps, {})
  {
  }

  ghost predicate AllThere(names: seq<seq<byte>>, ev: seq<Sub>) {
    forall i | 0 <= i < |ev| :: FirstIn(names, ev[i].name).Some?
  }

  lemma {:induction false} SubsAlike(t: Tree, ev: seq<Sub>)
    requires AllThere(NameList(t), ev)
    ensures Alike(t, MergeSubs(t, ev), {}, {})
    decreases |ev|
  {
    hide Alike, MergeKid, FirstIn, NameList, FindKid, AddKid, MergeNode;
    if ev == [] {
      AlikeSelf(t, {}, {});
    } else {
      var u := MergeSub(t, ev[0]);
      assert FirstIn(NameList(t), ev[0].name).Some?;
      FindKidNames(0, t, ev[0].name);
      KidAlike(t, ev[0].name, ev[0].kids, {});
      SubMerged(t, ev[0], []);
      SubsAlike(u, ev[1..]);
      AlikeThen(t, u, MergeSubs(u, ev[1..]), {}, {});
    }
  }

  lemma OneAlike(t: Tree, ov: Tree)
    requires AllThere(NameList(t), Subs(ov)) && forall p :: LastVal(ov, p).Some? ==> FirstVal(t, p).Some?
    ensures Alike(t, MergeNode(t, ov), {}, {})
  {
    hide Alike, NameList, AllThere, MergeProps, MergeKids, MergeSubs, FirstVal, LastVal;
    var u := MergeProps(t, ov);
    PropsAlike(t, ov);
    PropsMerged(t, ov, []);
    MergeKidsSubs(u, ov);
    SubsAlike(u, Subs(ov));
    AlikeThen(t, u, MergeNode(t, ov), {}, {});
  }

  lemma {:induction false} AllAlike(t: Tree, ks: seq<Tree>)
    requires AllThere(NameList(t), AllSubs(ks)) && forall p :: LastAmong(ks, p).Some? ==> FirstVal(t, p).Some?
    ensures Alike(t, MergeAll(t, ks), {}, {})
    decreases |ks|
  {
    hide Alike, NameList, FirstVal, LastVal, FirstIn, MergeNode, GrownBy, Placed, Subs;
    if ks == [] {
      AlikeSelf(t, {}, {});
    } else {
      var u, a, b := MergeNode(t, ks[0]), Subs(ks[0]), AllSubs(ks[1..]);
      ThereSplit(NameList(t), a, b);
      OneAlike(t, ks[0]);
      forall p ensures FirstVal(t, p).Some? ==> FirstVal(u, p).Some? {
        OneMerged(t, ks[0], p);
      }
      OneMerged(t, ks[0], []);
      NoneNew(NameList(t), a);
      assert forall p :: LastAmong(ks[1..], p).Some? ==> LastAmong(ks, p).Some?;
      AllAlike(u, ks[1..]);
      AlikeThen(t, u, MergeAll(u, ks[1..]), {}, {});
    }
  }

  lemma ThereSplit(names: seq<seq<byte>>, a: seq<Sub>, b: seq<Sub>)
    requires AllThere(names, a + b)
    ensures AllThere(names, a) && AllThere(names, b)
  {
    hide FirstIn;
    forall i | 0 <= i < |a| ensures FirstIn(names, a[i].name).Some? {
      assert (a + b)[i] == a[i];
    }
    forall i | 0 <= i < |b| ensures FirstIn(names, b[i].name).Some? {
      assert (a + b)[|a| + i] == b[i];
    }
  }

  // ----- places the second time -----

  /** Where every subnode finds a match, no name is added and each goes to its match. */
  lemma {:induction false} NoneNew(names: seq<seq<byte>>, ev: seq<Sub>)
    requires AllThere(names, ev)
    ensures GrownBy(names, ev) == names
    ensures forall i | 0 <= i < |ev| :: FirstIn(names, ev[i].name) == Some(PlaceAt(names, ev, i))
    decreases |ev|
  {
    hide FirstIn;
    if ev != [] {
      assert FirstIn(names, ev[0].name).Some?;
      NoneNew(names, ev[1..]);
      forall i | 0 <= i < |ev| ensures FirstIn(names, ev[i].name) == Some(PlaceAt(names, ev, i)) {
        if i > 0 {
          assert ev[i] == ev[1..][i - 1];
        }
      }
    }
  }

  lemma StaysThere(names: seq<seq<byte>>, e: seq<byte>, n: seq<byte>)
    requires FirstIn(names, n).Some? || e == n
    ensures FirstIn(Grown(names, e), n).Some?
  {
    hide NameEq;
    NameEqSelf(n);
    assert ([e] + names)[1..] == names;
  }

  lemma {:induction false} StaysThereAll(names: seq<seq<byte>>, ev: seq<Sub>, n: seq<byte>)
    requires FirstIn(names, n).Some?
    ensures FirstIn(GrownBy(names, ev), n).Some?
    decreases |ev|
  {
    hide FirstIn, Grown;
    if ev != [] {
      StaysThere(names, ev[0].name, n);
      StaysThereAll(Grown(names, ev[0].name), ev[1..], n);
    }
  }

  lemma {:induction false} ThereAfter(names: seq<seq<byte>>, ev: seq<Sub>)
    ensures AllThere(GrownBy(names, ev), ev)
    decreases |ev|
  {
    hide FirstIn, Grown;
    if ev != [] {
      var g := Grown(names, ev[0].name);
      StaysThere(names, ev[0].name, ev[0].name);
      StaysThereAll(g, ev[1..], ev[0].name);
      ThereAfter(g, ev[1..]);
      forall i | 0 <= i < |ev| ensures FirstIn(GrownBy(names, ev), ev[i].name).Some? {
        if i > 0 {
          assert ev[i] == ev[1..][i - 1];
        }
      }
    }
  }

  lemma {:induction false} SamePlaced(x: seq<seq<byte>>, y: seq<seq<byte>>, ev: seq<Sub>, m: seq<byte>)
    requires forall i | 0 <= i < |ev| :: PlaceAt(x, ev, i) == PlaceAt(y, ev, i)
    ensures Placed(x, ev, m) == Placed(y, ev, m)
    decreases |ev|
  {
    hide Place, Grown;
    if ev != [] {
      var e := ev[0].name;
      assert PlaceAt(x, ev, 0) == PlaceAt(y, ev, 0);
      forall i | 0 <= i < |ev[1..]| ensures PlaceAt(Grown(x, e), ev[1..], i) == PlaceAt(Grown(y, e), ev[1..], i) {
        assert PlaceAt(x, ev, i + 1) == PlaceAt(y, ev, i + 1);
      }
      SamePlaced(Grown(x, e), Grown(y, e), ev[1..], m);
    }
  }

  lemma {:induction false} PlacedCount(names: seq<seq<byte>>, ev: seq<Sub>, m: seq<byte>)
    ensures CountAll(Placed(names, ev, m)) + |Placed(names, ev, m)| <= CountSubs(ev)
    decreases |ev|
  {
    hide Place, Grown;
    if ev != [] {
      var g := Grown(names, ev[0].name);
      PlacedCount(g, ev[1..], m);
      var xs := Placed(names, ev, m);
      if Place(names, ev[0].name) == m {
        assert xs[1..] == Placed(g, ev[1..], m);
      } else {
        assert xs == Placed(g, ev[1..], m);
      }
    }
  }

  lemma {:induction false} PlacedThere(names: seq<seq<byte>>, ev: seq<Sub>, i: nat)
    requires i < |ev|
    ensures Placed(names, ev, PlaceAt(names, ev, i)) != []
    decreases |ev|
  {
    hide Place, Grown;
    if i > 0 {
      PlacedThere(Grown(names, ev[0].name), ev[1..], i - 1);
    }
  }

  lemma {:induction false} PlacedIndex(names: seq<seq<byte>>, ev: seq<Sub>, m: seq<byte>) returns (i: nat)
    requires Placed(names, ev, m) != []
    ensures i < |ev| && PlaceAt(names, ev, i) == m
    decreases |ev|
  {
    hide Place, Grown;
    if Place(names, ev[0].name) == m {
      i := 0;
    } else {
      i := PlacedIndex(Grown(names, ev[0].name), ev[1..], m);
      i := i + 1;
    }
  }

  lemma PlacedSmaller(b: Tree, ks: seq<Tree>, i: nat)
    requires i < |AllSubs(ks)|
    ensures var (names, ev) := (NameList(b), AllSubs(ks));
            CountAll(Placed(names, ev, PlaceAt(names, ev, i))) < CountAll(ks)
  {
    hide CountAll, CountSubs, Placed, PlaceAt, AllSubs, NameList;
    var names, ev := NameList(b), AllSubs(ks);
    CountLevels(ks);
    PlacedCount(names, ev, PlaceAt(names, ev, i));
    PlacedThere(names, ev, i);
  }

  /** On every level each subnode, searched for among the names there are in the end, is found where it
      went. */
  predicate Steady(b: Tree, ks: seq<Tree>)
    decreases CountAll(ks)
  {
    var names, ev := NameList(b), AllSubs(ks);
    forall i | 0 <= i < |ev| ::
      FirstIn(GrownBy(names, ev), ev[i].name) == Some(PlaceAt(names, ev, i))
      && (PlacedSmaller(b, ks, i);
          Steady(KidOr(b, PlaceAt(names, ev, i)), Placed(names, ev, PlaceAt(names, ev, i))))
  }

  ghost predicate SamePlaces(names: seq<seq<byte>>, ev: seq<Sub>) {
    forall i | 0 <= i < |ev| :: FirstIn(GrownBy(names, ev), ev[i].name) == Some(PlaceAt(names, ev, i))
  }

  lemma SecondPlaces(names: seq<seq<byte>>, ev: seq<Sub>, m: seq<byte>)
    requires SamePlaces(names, ev)
    ensures Placed(GrownBy(names, ev), ev, m) == Placed(names, ev, m)
  {
    hide FirstIn, PlaceAt, Placed, GrownBy;
    var end := GrownBy(names, ev);
    ThereAfter(names, ev);
    NoneNew(end, ev);
    forall i | 0 <= i < |ev| ensures PlaceAt(end, ev, i) == PlaceAt(names, ev, i) {
      assert FirstIn(end, ev[i].name) == Some(PlaceAt(names, ev, i));
    }
    SamePlaced(end, names, ev, m);
  }

  lemma SteadyLevel(b: Tree, ks: seq<Tree>, m: seq<byte>)
    requires Steady(b, ks)
    ensures SamePlaces(NameList(b), AllSubs(ks))
    ensures Placed(NameList(b), AllSubs(ks), m) != [] ==> Steady(KidOr(b, m), Placed(NameList(b), AllSubs(ks), m))
  {
    hide FirstIn, PlaceAt, Placed, GrownBy, AllSubs, NameList, KidOr;
    var names, ev := NameList(b), AllSubs(ks);
    assert SamePlaces(names, ev);
    if Placed(names, ev, m) != [] {
      var i := PlacedIndex(names, ev, m);
      assert FirstIn(GrownBy(names, ev), ev[i].name) == Some(PlaceAt(names, ev, i));
    }
  }

  /** The second time no lookup changes, if none does in the merged children. */
  lemma LevelAgain(b: Tree, ks: seq<Tree>, p: seq<byte>)
    requires SamePlaces(NameList(b), AllSubs(ks))
    ensures var (t, x) := (MergeAll(b, ks), Placed(NameList(b), AllSubs(ks), p));
            FirstVal(MergeAll(t, ks), p) == FirstVal(t, p)
            && (x == [] ==> Kid(MergeAll(t, ks), p) == Kid(t, p))
            && (x != [] ==> Kid(t, p) == Some(MergeAll(KidOr(b, p), x))
                            && Kid(MergeAll(t, ks), p) == Some(MergeAll(MergeAll(KidOr(b, p), x), x)))
  {
    hide MergeAll, FirstVal, Kid, NameList, AllSubs, Placed, GrownBy, LastAmong, SamePlaces;
    MergedNode(b, ks, p);
    MergedNode(MergeAll(b, ks), ks, p);
    SecondPlaces(NameList(b), AllSubs(ks), p);
  }

  lemma AlikeAgain(b: Tree, ks: seq<Tree>)
    ensures Alike(MergeAll(b, ks), MergeAll(MergeAll(b, ks), ks), {}, {})
  {
    hide Alike, MergeAll, FirstVal, NameList, AllSubs, Placed, GrownBy, LastAmong, AllThere, Kid;
    forall p ensures LastAmong(ks, p).Some? ==> FirstVal(MergeAll(b, ks), p).Some? {
      MergedNode(b, ks, p);
    }
    MergedNode(b, ks, []);
    ThereAfter(NameList(b), AllSubs(ks));
    AllAlike(MergeAll(b, ks), ks);
  }

  /** Applying the same overlays twice is applying them once. */
  lemma {:induction false} MergeIdempotent(b: Tree, ks: seq<Tree>)
    requires Steady(b, ks)
    ensures MergeAll(MergeAll(b, ks), ks) == MergeAll(b, ks)
    decreases CountAll(ks)
  {
    hide Alike, MergeAll, FirstVal, Kid, NameList, AllSubs, Placed, SamePlaces, Steady, CountAll, PlaceAt;
    var t, names, ev := MergeAll(b, ks), NameList(b), AllSubs(ks);
    SteadyLevel(b, ks, []);
    forall p ensures FirstVal(t, p) == FirstVal(MergeAll(t, ks), p) && Kid(t, p) == Kid(MergeAll(t, ks), p) {
      LevelAgain(b, ks, p);
      SteadyLevel(b, ks, p);
      var x := Placed(names, ev, p);
      if x != [] {
        var i := PlacedIndex(names, ev, p);
        PlacedSmaller(b, ks, i);
        MergeIdempotent(KidOr(b, p), x);
      }
    }
    AlikeAgain(b, ks);
    AlikeEqual(t, MergeAll(t, ks), {});
  }

  // ----- and only then -----

  /** The i-th subnode has a property that no sibling has, in the overlays or in the base. */
  ghost predicate Mark(b: Tree, ev: seq<Sub>, i: nat, q: seq<byte>)
    requires i < |ev|
  {
    LastVal(ev[i].kids, q).Some? && (forall j | 0 <= j < |ev| && j != i :: LastVal(ev[j].kids, q).None?)
    && (forall m :: FirstVal(KidOr(b, m), q).None?)
  }

  /** So it is on every level. */
  ghost predicate Marked(b: Tree, ks: seq<Tree>)
    decreases CountAll(ks)
  {
    var names, ev := NameList(b), AllSubs(ks);
    forall i | 0 <= i < |ev| ::
      (exists q :: Mark(b, ev, i, q))
      && (PlacedSmaller(b, ks, i);
          Marked(KidOr(b, PlaceAt(names, ev, i)), Placed(names, ev, PlaceAt(names, ev, i))))
  }

  lemma {:induction false} PlacedHas(names: seq<seq<byte>>, ev: seq<Sub>, i: nat, q: seq<byte>)
    requires i < |ev| && LastVal(ev[i].kids, q).Some?
    ensures LastAmong(Placed(names, ev, PlaceAt(names, ev, i)), q).Some?
    decreases |ev|
  {
    hide Place, Grown, LastVal;
    var m := PlaceAt(names, ev, i);
    var rest := Placed(Grown(names, ev[0].name), ev[1..], m);
    assert ([ev[0].kids] + rest)[1..] == rest && [] + rest == rest;
    if i > 0 {
      PlacedHas(Grown(names, ev[0].name), ev[1..], i - 1, q);
    }
  }

  lemma {:induction false} PlacedHasNot(names: seq<seq<byte>>, ev: seq<Sub>, m: seq<byte>, q: seq<byte>)
    requires forall i | 0 <= i < |ev| :: PlaceAt(names, ev, i) == m ==> LastVal(ev[i].kids, q).None?
    ensures LastAmong(Placed(names, ev, m), q).None?
    decreases |ev|
  {
    hide Place, Grown, LastVal;
    if ev != [] {
      var g := Grown(names, ev[0].name);
      var rest := Placed(g, ev[1..], m);
      assert ([ev[0].kids] + rest)[1..] == rest && [] + rest == rest;
      forall i | 0 <= i < |ev[1..]| ensures PlaceAt(g, ev[1..], i) == m ==> LastVal(ev[1..][i].kids, q).None? {
        assert PlaceAt(names, ev, i + 1) == PlaceAt(g, ev[1..], i);
      }
      assert PlaceAt(names, ev, 0) == Place(names, ev[0].name);
      PlacedHasNot(g, ev[1..], m, q);
    }
  }

  /** A subnode that goes elsewhere the second time leaves its mark there. */
  lemma MovedShows(b: Tree, ks: seq<Tree>, i: nat, q: seq<byte>)
    requires i < |AllSubs(ks)| && Mark(b, AllSubs(ks), i, q)
    requires var (names, ev) := (NameList(b), AllSubs(ks));
             FirstIn(GrownBy(names, ev), ev[i].name) != Some(PlaceAt(names, ev, i))
    ensures MergeAll(MergeAll(b, ks), ks) != MergeAll(b, ks)
  {
    hide FirstIn, PlaceAt, Placed, GrownBy, AllSubs, NameList, Kid, MergeAll, FirstVal, LastVal, LastAmong;
    var names, ev, t := NameList(b), AllSubs(ks), MergeAll(b, ks);
    var end := GrownBy(names, ev);
    ThereAfter(names, ev);
    NoneNew(end, ev);
    var m := PlaceAt(end, ev, i);
    PlacedHas(end, ev, i, q);
    PlacedThere(end, ev, i);
    PlacedHasNot(names, ev, m, q);
    MergedNode(b, ks, m);
    MergedNode(t, ks, m);
    MergedNode(KidOr(b, m), Placed(names, ev, m), q);
    MergedNode(KidOr(t, m), Placed(end, ev, m), q);
    assert FirstVal(KidOr(b, m), q).None?;
  }

  lemma {:induction false} AgainSteady(b: Tree, ks: seq<Tree>)
    requires Marked(b, ks) && MergeAll(MergeAll(b, ks), ks) == MergeAll(b, ks)
    ensures Steady(b, ks)
    decreases CountAll(ks)
  {
    hide FirstIn, PlaceAt, Placed, GrownBy, AllSubs, NameList, Kid, MergeAll, CountAll, FirstVal, Mark;
    var names, ev := NameList(b), AllSubs(ks);
    forall i | 0 <= i < |ev| ensures FirstIn(GrownBy(names, ev), ev[i].name) == Some(PlaceAt(names, ev, i)) {
      if FirstIn(GrownBy(names, ev), ev[i].name) != Some(PlaceAt(names, ev, i)) {
        var q :| Mark(b, ev, i, q);
        MovedShows(b, ks, i, q);
      }
    }
    assert SamePlaces(names, ev);
    forall i | 0 <= i < |ev|
      ensures Steady(KidOr(b, PlaceAt(names, ev, i)), Placed(names, ev, PlaceAt(names, ev, i)))
    {
      var m := PlaceAt(names, ev, i);
      PlacedSmaller(b, ks, i);
      PlacedThere(names, ev, i);
      LevelAgain(b, ks, m);
      assert FirstIn(GrownBy(names, ev), ev[i].name) == Some(m);
      AgainSteady(KidOr(b, m), Placed(names, ev, m));
    }
  }

  /** Exactly when applying the overlays twice is applying them once. */
  lemma IdempotentExactly(b: Tree, ks: seq<Tree>)
    requires Marked(b, ks)
    ensures Steady(b, ks) <==> MergeAll(MergeAll(b, ks), ks) == MergeAll(b, ks)
  {
    hide Steady, Marked, MergeAll;
    if Steady(b, ks) {
      MergeIdempotent(b, ks);
    }
    if MergeAll(MergeAll(b, ks), ks) == MergeAll(b, ks) {
      AgainSteady(b, ks);
    }
  }

  /** Where it fails although every subnode lands under its own name: the overlay brings `c` and then
      `c@0`, which ends up in front, so that the second time `c` is merged into `c@0`. */
  lemma AppliedTwice(c: seq<byte>, at0: seq<byte>, p: seq<byte>, v: seq<byte>)
    requires at0 != c && NameEq(at0, c)
    ensures var ov := NodeT(c, PropT(p, v, Leaf), NodeT(at0, Leaf, Leaf));
            var once := MergeAll(Leaf, [ov]);
            Lands(Leaf, [ov]) && Lookup(once, [at0], p) == None && Lookup(MergeAll(once, [ov]), [at0], p) == Some(v)
  {
    hide MergeAll, MergeNode, NameEq, AllSubs, Named, NameList, Placed, GrownBy, Kid, Lands;
    var k: Tree := PropT(p, v, Leaf);
    var ov := NodeT(c, k, NodeT(at0, Leaf, Leaf));
    TwoSubs(c, at0, k);
    TwicePlaces(c, at0, k);
    LandsTwo(c, at0, k, ov);
    var once, q: seq<seq<byte>> := MergeAll(Leaf, [ov]), [at0];
    assert q[1..] == [] && q[0] == at0;
    NoNames();
    MergedNode(Leaf, [ov], at0);
    MergedNode(Leaf, [Leaf], p);
    MergedNode(once, [ov], at0);
    MergedNode(KidOr(once, at0), [k, Leaf], p);
    LastTwo(k, p, v);
    LookupKid(once, q, p);
    LookupKid(MergeAll(once, [ov]), q, p);
  }

  lemma NoNames()
    ensures NameList(Leaf) == [] && forall n :: Kid(Leaf, n) == None
  {
  }

  lemma LastTwo(k: Tree, p: seq<byte>, v: seq<byte>)
    requires k == PropT(p, v, Leaf)
    ensures LastAmong([k, Leaf], p) == Some(v) && LastAmong([Leaf], p) == None
  {
    var e: Tree := Leaf;
    assert [k, e][1..] == [e] && [e][1..] == [];
    assert LastAmong([e], p) == None;
    assert LastVal(k, p) == Some(v);
  }

  lemma TwoSubs(c: seq<byte>, at0: seq<byte>, k: Tree)
    ensures AllSubs([NodeT(c, k, NodeT(at0, Leaf, Leaf))]) == [Sub(c, k), Sub(at0, Leaf)]
  {
    var x := NodeT(at0, Leaf, Leaf);
    var ov := NodeT(c, k, x);
    assert Subs(x) == [Sub(at0, Leaf)] && Subs(ov) == [Sub(c, k), Sub(at0, Leaf)] && [ov][1..] == [];
  }

  lemma TwicePlaces(c: seq<byte>, at0: seq<byte>, k: Tree)
    requires c != at0 && NameEq(at0, c)
    ensures var ev := [Sub(c, k), Sub(at0, Leaf)];
            GrownBy([], ev) == [at0, c] && PlaceAt([], ev, 0) == c && PlaceAt([], ev, 1) == at0
            && Placed([], ev, at0) == [Leaf] && Placed([at0, c], ev, at0) == [k, Leaf]
  {
    AtInside(at0, c);
    OnlySelf(c, at0);
    hide NameEq;
    NameEqSelf(c);
    NameEqSelf(at0);
    var ev := [Sub(c, k), Sub(at0, Leaf)];
    assert ev[1..] == [Sub(at0, Leaf)] && ev[1..][1..] == [] && [c][1..] == [];
    assert Grown([], c) == [c] && Grown([c], at0) == [at0, c] && Grown([at0, c], c) == [at0, c] == Grown([at0, c], at0);
    assert GrownBy([c], ev[1..]) == [at0, c];
    assert Placed([c], ev[1..], at0) == [Leaf] && Placed([at0, c], ev[1..], at0) == [Leaf];
  }

  lemma LandsTwo(c: seq<byte>, at0: seq<byte>, k: Tree, ov: Tree)
    requires c != at0 && AllSubs([ov]) == [Sub(c, k), Sub(at0, Leaf)] && Subs(k) == []
    requires AllOwn([], [Sub(c, k), Sub(at0, Leaf)])
    ensures Lands(Leaf, [ov])
  {
    hide PlaceAt, NameEq, Named, AllSubs;
    NamedTwo(Sub(c, k), Sub(at0, Leaf));
    LandsNone(k);
    LandsNone(Leaf);
  }

  lemma NamedTwo(x: Sub, y: Sub)
    requires x.name != y.name
    ensures Named([x, y], x.name) == [x.kids] && Named([x, y], y.name) == [y.kids]
  {
    assert [x, y][1..] == [y] && [y][1..] == [];
    assert Named([y], x.name) == [] && Named([y], y.name) == [y.kids];
  }

  lemma LandsNone(k: Tree)
    requires Subs(k) == []
    ensures Lands(Leaf, [k])
  {
    assert [k][1..] == [] && AllSubs([k]) == [];
  }

  // ----- on the blob -----

  /** The tree with the content of a node replaced by a merge. */
  ghost function WithMerge(t: Tree, target: int, x: Tree, ks: seq<Tree>): Tree
    requires x.NodeT?
  {
    Put(t, target, NodeT(x.name, MergeAll(x.kids, ks), x.rest))
  }

  /** overlay_apply_node() twice with the same overlay: if both succeed, the second leaves the tree as the first
      made it whenever every subnode is found again where it went, and for marked overlays exactly then. */
  method ApplyTwice(f: FdtRw.Fdt, target: int, o: Blob, node: int)
    returns (ret1: int, ret2: int, ghost once: Option<Tree>)
    requires f.View().Fits() && f.View().IsNode(target) && IsInt(target)
    requires SmallOverlay(o) && o.IsNode(node) && IsInt(node)
    modifies f, f.buf
    ensures f.View().Fits()
    ensures ret1 == 0 ==>
              var v := old(f.View());
              once == Some(WithMerge(v.Tree().value, target, v.Node(target), [o.Node(node).kids]))
    ensures ret1 == 0 && ret2 == 0 ==>
              var (x, ks) := (old(f.View()).Node(target), [o.Node(node).kids]);
              (Steady(x.kids, ks) ==> f.View().Tree() == once)
              && (Marked(x.kids, ks) ==> (Steady(x.kids, ks) <==> f.View().Tree() == once))
    ensures var n := Need(o.Node(node).kids); Roomy(old(f.h), n + n) ==> ret1 == 0 && ret2 == 0
  {
    hide At, BlobTree, Put, Within, Need, Roomy, Grew, Steady, Marked, MergeNode;
    ghost var v, n, k := f.View(), Need(o.Node(node).kids), o.Node(node).kids;
    ghost var t, x, ks := v.Tree().value, v.Node(target), [k];
    if Roomy(v.h, n + n) {
      RoomLess(v.h, n, n);
    }
    ghost var c, c2;
    ret1, c := ApplyNode(f, target, o, node);
    ret2, once := ret1, None;
    FitsWithin(f.View(), t, target, x, c);
    if ret1 != 0 {
      return;
    }
    ghost var v1 := f.View();
    once := v1.Tree();
    MergeOne(x.kids, k);
    if Roomy(v.h, n + n) {
      RoomLeft(v.h, v1.h, n, n);
    }
    WithinNode(v1, t, target, x, c, c);
    ret2, c2 := ApplyNode(f, target, o, node);
    MergeOne(c, k);
    FitsWithin(f.View(), v1.Tree().value, target, v1.Node(target), c2);
    if ret2 == 0 {
      SameMerge(v1, f.View(), t, target, x, c, c2);
      if Steady(x.kids, ks) {
        MergeIdempotent(x.kids, ks);
      }
      if Marked(x.kids, ks) {
        IdempotentExactly(x.kids, ks);
      }
    }
  }

  lemma MergeOne(b: Tree, k: Tree)
    ensures MergeAll(b, [k]) == MergeNode(b, k)
  {
    hide MergeNode;
    assert [k][1..] == [] && MergeAll(MergeNode(b, k), []) == MergeNode(b, k);
  }

  lemma FitsWithin(v: Blob, t: Tree, target: int, x: Tree, c: Tree)
    requires Within(v, t, target, x, c)
    ensures v.Fits() && x.NodeT? && v.Tree() == Some(Put(t, target, NodeT(x.name, c, x.rest)))
  {
  }

  /** Two merges into the same node give the same tree exactly when they give the same content. */
  lemma SameMerge(v1: Blob, v2: Blob, t: Tree, target: int, x: Tree, c: Tree, c2: Tree)
    requires Within(v1, t, target, x, c) && Within(v2, v1.Tree().value, target, NodeT(x.name, c, x.rest), c2)
    ensures v2.Tree() == v1.Tree() <==> c2 == c
  {
    hide At, BlobTree, Put;
    var y := NodeT(x.name, c, x.rest);
    WithinNode(v1, t, target, x, c, c);
    WithinNode(v2, v1.Tree().value, target, y, c2, c2);
    PutSame(v1.Tree().value, target);
  }
}

/** What overlay merges, one after another, do to lookups, and when the override law holds. */
module FdtMergeLaws {
  import opened Options
  import opened FdtTokens
  import opened FdtTree
  import opened FdtBlob
  import opened FdtWalk
  import opened FdtEdit
  import opened FdtOverlay
  import opened FdtGetPath

  // ----- lookups -----

  /** The value of an overlay if it has one, else the base's. */
  function Over(ov: Option<seq<byte>>, base: Option<seq<byte>>): Option<seq<byte>> {
    if ov.Some? then ov else base
  }

  /** The last value under that name: what an overlay leaves behind. */
  function LastVal(t: Tree, name: seq<byte>): Option<seq<byte>> {
    match t
    case NopT(r) => LastVal(r, name)
    case PropT(n, v, r) => Over(LastVal(r, name), if n == name then Some(v) else None)
    case _ => None
  }

  function LastAmong(ks: seq<Tree>, name: seq<byte>): Option<seq<byte>> {
    if ks == [] then None else Over(LastAmong(ks[1..], name), LastVal(ks[0], name))
  }

  /** The content of the first child of exactly that name. */
  function Kid(t: Tree, name: seq<byte>): Option<Tree> {
    match t
    case Leaf => None
    case NopT(r) => Kid(r, name)
    case PropT(_, _, r) => Kid(r, name)
    case NodeT(n, k, r) => if n == name then Some(k) else Kid(r, name)
  }

  function KidOr(t: Tree, name: seq<byte>): Tree {
    if Kid(t, name).Some? then Kid(t, name).value else Leaf
  }

  /** A property at a relative path of exact names. */
  function Lookup(t: Tree, path: seq<seq<byte>>, prop: seq<byte>): Option<seq<byte>>
    decreases |path|
  {
    if path == [] then FirstVal(t, prop)
    else if Kid(t, path[0]).None? then None
    else Lookup(Kid(t, path[0]).value, path[1..], prop)
  }

  lemma {:induction false} LookupLeaf(path: seq<seq<byte>>, prop: seq<byte>)
    ensures Lookup(Leaf, path, prop) == None
  {
  }

  lemma LookupKid(t: Tree, path: seq<seq<byte>>, prop: seq<byte>)
    requires path != []
    ensures Lookup(t, path, prop) == Lookup(KidOr(t, path[0]), path[1..], prop)
  {
    LookupLeaf(path[1..], prop);
  }

  // ----- the subnodes of overlays, in the order they are merged -----

  datatype Sub = Sub(name: seq<byte>, kids: Tree)

  function Subs(t: Tree): seq<Sub> {
    match t
    case Leaf => []
    case NopT(r) => Subs(r)
    case PropT(_, _, r) => Subs(r)
    case NodeT(n, k, r) => [Sub(n, k)] + Subs(r)
  }

  function AllSubs(ks: seq<Tree>): seq<Sub> {
    if ks == [] then [] else Subs(ks[0]) + AllSubs(ks[1..])
  }

  /** The contents of the subnodes of that name. */
  function Named(ev: seq<Sub>, name: seq<byte>): seq<Tree> {
    if ev == [] then []
    else (if ev[0].name == name then [ev[0].kids] else []) + Named(ev[1..], name)
  }

  /** What the overlays, merged one after another, say about a property at a path. */
  function OverlayGet(ks: seq<Tree>, path: seq<seq<byte>>, prop: seq<byte>): Option<seq<byte>>
    decreases |path|
  {
    if path == [] then LastAmong(ks, prop) else OverlayGet(Named(AllSubs(ks), path[0]), path[1..], prop)
  }

  lemma {:induction false} OverlayNone(path: seq<seq<byte>>, prop: seq<byte>)
    ensures OverlayGet([], path, prop) == None
    decreases |path|
  {
    if path != [] {
      OverlayNone(path[1..], prop);
    }
  }

  /** Several overlays, one after another. */
  function MergeAll(b: Tree, ks: seq<Tree>): Tree
    decreases |ks|
  {
    if ks == [] then b else MergeAll(MergeNode(b, ks[0]), ks[1..])
  }

  lemma {:induction false} MergeAllAppend(b: Tree, x: seq<Tree>, y: seq<Tree>)
    ensures MergeAll(b, x + y) == MergeAll(MergeAll(b, x), y)
    decreases |x|
  {
    hide MergeNode;
    if x == [] {
      assert x + y == y;
    } else {
      assert (x + y)[1..] == x[1..] + y;
      MergeAllAppend(MergeNode(b, x[0]), x[1..], y);
    }
  }

  // ----- where a subnode goes: the first match among the names there are, a new node in front if none -----

  function NameList(t: Tree): seq<seq<byte>> {
    match t
    case Leaf => []
    case NopT(r) => NameList(r)
    case PropT(_, _, r) => NameList(r)
    case NodeT(n, _, r) => [n] + NameList(r)
  }

  function FirstIn(names: seq<seq<byte>>, n: seq<byte>): (r: Option<seq<byte>>)
    ensures r.Some? ==> r.value in names && NameEq(r.value, n)
    ensures r.None? ==> n !in names
  {
    if names == [] then None
    else if NameEq(names[0], n) then Some(names[0])
    else
      NameEqSelf(n);
      FirstIn(names[1..], n)
  }

  function Place(names: seq<seq<byte>>, n: seq<byte>): seq<byte> {
    if FirstIn(names, n).Some? then FirstIn(names, n).value else n
  }

  function Grown(names: seq<seq<byte>>, n: seq<byte>): seq<seq<byte>> {
    if FirstIn(names, n).Some? then names else [n] + names
  }

  function GrownBy(names: seq<seq<byte>>, ev: seq<Sub>): seq<seq<byte>>
    decreases |ev|
  {
    if ev == [] then names else GrownBy(Grown(names, ev[0].name), ev[1..])
  }

  /** Where the i-th subnode goes. */
  function PlaceAt(names: seq<seq<byte>>, ev: seq<Sub>, i: nat): seq<byte>
    requires i < |ev|
    decreases |ev|
  {
    if i == 0 then Place(names, ev[0].name) else PlaceAt(Grown(names, ev[0].name), ev[1..], i - 1)
  }

  /** The contents of the subnodes that go to the node `m`, in order. */
  function Placed(names: seq<seq<byte>>, ev: seq<Sub>, m: seq<byte>): seq<Tree>
    decreases |ev|
  {
    if ev == [] then []
    else (if Place(names, ev[0].name) == m then [ev[0].kids] else []) + Placed(Grown(names, ev[0].name), ev[1..], m)
  }

  lemma {:induction false} GrownAppend(names: seq<seq<byte>>, x: seq<Sub>, y: seq<Sub>, m: seq<byte>)
    ensures GrownBy(names, x + y) == GrownBy(GrownBy(names, x), y)
    ensures Placed(names, x + y, m) == Placed(names, x, m) + Placed(GrownBy(names, x), y, m)
    decreases |x|
  {
    hide Grown, Place;
    if x == [] {
      assert x + y == y;
    } else {
      assert (x + y)[1..] == x[1..] + y && (x + y)[0] == x[0];
      GrownAppend(Grown(names, x[0].name), x[1..], y, m);
    }
  }

  // ----- one subnode -----

  lemma {:induction false} SetFirstLevel(t: Tree, n: seq<byte>, v: seq<byte>, p: seq<byte>)
    ensures HasProp(t, n) <==> FirstVal(t, n).Some?
    ensures FirstVal(SetFirst(t, n, v), p) == if p == n && HasProp(t, n) then Some(v) else FirstVal(t, p)
    ensures Kid(SetFirst(t, n, v), p) == Kid(t, p) && NameList(SetFirst(t, n, v)) == NameList(t)
  {
    match t
    case NopT(r) => SetFirstLevel(r, n, v, p);
    case PropT(_, _, r) => SetFirstLevel(r, n, v, p);
    case _ =>
  }

  lemma {:induction false} AddKidLevel(t: Tree, n: seq<byte>, p: seq<byte>)
    ensures FirstVal(AddKid(t, n), p) == FirstVal(t, p)
    ensures Kid(AddKid(t, n), p) == if p == n then Some(Leaf) else Kid(t, p)
    ensures NameList(AddKid(t, n)) == [n] + NameList(t)
  {
    match t
    case NopT(r) => AddKidLevel(r, n, p);
    case PropT(_, _, r) => AddKidLevel(r, n, p);
    case _ =>
  }

  /** A search for a child, by name alone. */
  lemma {:induction false} FindKidNames(off: int, t: Tree, n: seq<byte>)
    ensures FindKid(off, t, Some(n)).Some? <==> FirstIn(NameList(t), n).Some?
    decreases t
  {
    hide NameEq, Len, HLen, TSize;
    match t
    case Leaf =>
    case NopT(r) => FindKidNames(off + 4, r, n);
    case PropT(m, v, r) => FindKidNames(off + Len(Prop(m, v)), r, n);
    case NodeT(m, k, r) =>
      assert NameList(t)[1..] == NameList(r);
      FindKidNames(off + HLen(m) + TSize(k) + 4, r, n);
  }

  lemma {:induction false} KidIn(t: Tree, n: seq<byte>)
    ensures n in NameList(t) <==> Kid(t, n).Some?
  {
    match t
    case Leaf =>
    case NopT(r) => KidIn(r, n);
    case PropT(_, _, r) => KidIn(r, n);
    case NodeT(_, _, r) => KidIn(r, n);
  }

  /** The first match is the first child of its own name, too. */
  lemma {:induction false} MergeKidLevel(t: Tree, n: seq<byte>, k: Tree, p: seq<byte>)
    requires FirstIn(NameList(t), n).Some?
    ensures FirstVal(MergeKid(t, n, k), p) == FirstVal(t, p) && NameList(MergeKid(t, n, k)) == NameList(t)
    ensures var m := FirstIn(NameList(t), n).value;
            Kid(t, m).Some?
            && Kid(MergeKid(t, n, k), p) == if p == m then Some(MergeNode(Kid(t, m).value, k)) else Kid(t, p)
    decreases t
  {
    hide NameEq, MergeNode;
    match t
    case NopT(r) => MergeKidLevel(r, n, k, p);
    case PropT(_, _, r) => MergeKidLevel(r, n, k, p);
    case NodeT(m, c, r) =>
      assert NameList(t)[1..] == NameList(r);
      if !NameEq(m, n) {
        MergeKidLevel(r, n, k, p);
      }
  }

  function MergeSub(b: Tree, s: Sub): Tree {
    MergeKid(WithKid(b, s.name), s.name, s.kids)
  }

  /** One subnode of an overlay: the node it goes to becomes the merge, nothing else changes. */
  lemma SubMerged(b: Tree, s: Sub, p: seq<byte>)
    ensures var (c, names, m) := (MergeSub(b, s), NameList(b), Place(NameList(b), s.name));
            FirstVal(c, p) == FirstVal(b, p) && NameList(c) == Grown(names, s.name)
            && Kid(c, p) == if p == m then Some(MergeNode(KidOr(b, m), s.kids)) else Kid(b, p)
  {
    hide MergeNode, MergeKid, AddKid, Kid, FindKid, NameEq, FirstVal, NameList;
    FindKidNames(0, b, s.name);
    if FirstIn(NameList(b), s.name).None? {
      AddKidLevel(b, s.name, p);
      AddKidLevel(b, s.name, s.name);
      NameEqSelf(s.name);
      KidIn(b, s.name);
    }
    MergeKidLevel(WithKid(b, s.name), s.name, s.kids, p);
  }

  // ----- a whole level -----

  function MergeSubs(b: Tree, ev: seq<Sub>): Tree
    decreases |ev|
  {
    if ev == [] then b else MergeSubs(MergeSub(b, ev[0]), ev[1..])
  }

  lemma {:induction false} MergeKidsSubs(b: Tree, ov: Tree)
    ensures MergeKids(b, ov) == MergeSubs(b, Subs(ov))
    decreases ov
  {
    hide MergeKid, WithKid;
    match ov
    case Leaf =>
    case NopT(r) => MergeKidsSubs(b, r);
    case PropT(_, _, r) => MergeKidsSubs(b, r);
    case NodeT(n, k, r) =>
      assert Subs(ov)[1..] == Subs(r) && Subs(ov)[0] == Sub(n, k);
      MergeKidsSubs(MergeSub(b, Sub(n, k)), r);
  }

  /** The node `m` after a number of merges into it. */
  function KidMerged(b: Tree, ks: seq<Tree>, m: seq<byte>): Option<Tree> {
    if ks == [] then Kid(b, m) else Some(MergeAll(KidOr(b, m), ks))
  }

  lemma {:induction false} SubsMerged(b: Tree, ev: seq<Sub>, p: seq<byte>)
    ensures var (c, names) := (MergeSubs(b, ev), NameList(b));
            FirstVal(c, p) == FirstVal(b, p) && NameList(c) == GrownBy(names, ev)
            && Kid(c, p) == KidMerged(b, Placed(names, ev, p), p)
    decreases |ev|
  {
    hide MergeNode, MergeSub, Kid, FirstVal, NameList, Grown, Place;
    if ev != [] {
      var c, m := MergeSub(b, ev[0]), Place(NameList(b), ev[0].name);
      SubMerged(b, ev[0], p);
      SubsMerged(c, ev[1..], p);
      var rest := Placed(NameList(c), ev[1..], p);
      if p == m {
        var all := [ev[0].kids] + rest;
        assert all[1..] == rest;
        assert MergeAll(KidOr(b, m), all) == MergeAll(MergeNode(KidOr(b, m), ev[0].kids), rest);
      } else {
        assert [] + rest == rest;
      }
    }
  }

  lemma {:induction false} PropsMerged(b: Tree, ov: Tree, p: seq<byte>)
    ensures FirstVal(MergeProps(b, ov), p) == Over(LastVal(ov, p), FirstVal(b, p))
    ensures Kid(MergeProps(b, ov), p) == Kid(b, p) && NameList(MergeProps(b, ov)) == NameList(b)
    decreases ov
  {
    match ov
    case NopT(r) => PropsMerged(b, r, p);
    case PropT(n, v, r) =>
      SetFirstLevel(b, n, v, p);
      PropsMerged(SetProp(b, n, v), r, p);
    case _ =>
  }

  lemma OneMerged(b: Tree, ov: Tree, p: seq<byte>)
    ensures var c := MergeNode(b, ov);
            FirstVal(c, p) == Over(LastVal(ov, p), FirstVal(b, p)) && NameList(c) == GrownBy(NameList(b), Subs(ov))
            && Kid(c, p) == KidMerged(b, Placed(NameList(b), Subs(ov), p), p)
  {
    hide FirstVal, LastVal, MergeProps, MergeKids, MergeSubs, Kid, NameList, GrownBy, Placed, MergeAll;
    PropsMerged(b, ov, p);
    MergeKidsSubs(MergeProps(b, ov), ov);
    SubsMerged(MergeProps(b, ov), Subs(ov), p);
  }

  /** A merged node, for every base and all overlays: its properties, the names of its children, and
      each child as the merge of the subnodes that went there. */
  lemma {:induction false} MergedNode(b: Tree, ks: seq<Tree>, p: seq<byte>)
    ensures var (c, names) := (MergeAll(b, ks), NameList(b));
            FirstVal(c, p) == Over(LastAmong(ks, p), FirstVal(b, p)) && NameList(c) == GrownBy(names, AllSubs(ks))
            && Kid(c, p) == KidMerged(b, Placed(names, AllSubs(ks), p), p)
    decreases |ks|
  {
    hide FirstVal, LastVal, MergeNode, Kid, NameList, GrownBy, Placed;
    if ks == [] {
      assert GrownBy(NameList(b), []) == NameList(b) && Placed(NameList(b), [], p) == [] by {
        NoSubs(NameList(b), p);
      }
    } else {
      var c, names := MergeNode(b, ks[0]), NameList(b);
      OneMerged(b, ks[0], p);
      MergedNode(c, ks[1..], p);
      GrownAppend(names, Subs(ks[0]), AllSubs(ks[1..]), p);
      KidTwice(b, c, Placed(names, Subs(ks[0]), p), Placed(NameList(c), AllSubs(ks[1..]), p), p);
    }
  }

  lemma NoSubs(names: seq<seq<byte>>, p: seq<byte>)
    ensures GrownBy(names, []) == names && Placed(names, [], p) == []
  {
  }

  lemma KidTwice(b: Tree, c: Tree, x: seq<Tree>, y: seq<Tree>, p: seq<byte>)
    requires Kid(c, p) == KidMerged(b, x, p)
    ensures KidMerged(c, y, p) == KidMerged(b, x + y, p)
  {
    hide MergeAll, Kid;
    if x == [] {
      assert x + y == y;
    } else if y == [] {
      assert x + y == x;
    } else {
      MergeAllAppend(KidOr(b, p), x, y);
    }
  }

  // ----- the override law -----

  function Count(t: Tree): nat {
    match t
    case Leaf => 0
    case NopT(r) => Count(r)
    case PropT(_, _, r) => Count(r)
    case NodeT(_, k, r) => 1 + Count(k) + Count(r)
  }

  function CountAll(ks: seq<Tree>): nat {
    if ks == [] then 0 else Count(ks[0]) + CountAll(ks[1..])
  }

  function CountSubs(ev: seq<Sub>): nat {
    if ev == [] then 0 else 1 + Count(ev[0].kids) + CountSubs(ev[1..])
  }

  lemma {:induction false} CountAppend(x: seq<Sub>, y: seq<Sub>)
    ensures CountSubs(x + y) == CountSubs(x) + CountSubs(y)
    decreases |x|
  {
    if x == [] {
      assert x + y == y;
    } else {
      assert (x + y)[1..] == x[1..] + y;
      CountAppend(x[1..], y);
    }
  }

  lemma {:induction false} CountLevel(t: Tree)
    ensures CountSubs(Subs(t)) == Count(t)
  {
    match t
    case Leaf =>
    case NopT(r) => CountLevel(r);
    case PropT(_, _, r) => CountLevel(r);
    case NodeT(n, k, r) =>
      CountLevel(r);
      assert Subs(t)[1..] == Subs(r);
  }

  lemma {:induction false} CountLevels(ks: seq<Tree>)
    ensures CountSubs(AllSubs(ks)) == CountAll(ks)
    decreases |ks|
  {
    if ks != [] {
      CountLevel(ks[0]);
      CountAppend(Subs(ks[0]), AllSubs(ks[1..]));
      CountLevels(ks[1..]);
    }
  }

  lemma {:induction false} NamedCount(ev: seq<Sub>, n: seq<byte>)
    ensures CountAll(Named(ev, n)) + |Named(ev, n)| <= CountSubs(ev)
    decreases |ev|
  {
    if ev != [] {
      NamedCount(ev[1..], n);
      var xs := Named(ev, n);
      if ev[0].name == n {
        assert xs[1..] == Named(ev[1..], n);
      } else {
        assert xs == Named(ev[1..], n);
      }
    }
  }

  lemma {:induction false} NamedThere(ev: seq<Sub>, i: nat)
    requires i < |ev|
    ensures Named(ev, ev[i].name) != []
    decreases |ev|
  {
    if i > 0 {
      NamedThere(ev[1..], i - 1);
    }
  }

  lemma {:induction false} NamedIndex(ev: seq<Sub>, n: seq<byte>) returns (i: nat)
    requires Named(ev, n) != []
    ensures i < |ev| && ev[i].name == n
    decreases |ev|
  {
    if ev[0].name == n {
      i := 0;
    } else {
      i := NamedIndex(ev[1..], n);
      i := i + 1;
    }
  }

  lemma NamedSmaller(ks: seq<Tree>, i: nat)
    requires i < |AllSubs(ks)|
    ensures CountAll(Named(AllSubs(ks), AllSubs(ks)[i].name)) < CountAll(ks)
  {
    hide CountAll, CountSubs, Named, AllSubs;
    var ev := AllSubs(ks);
    CountLevels(ks);
    NamedCount(ev, ev[i].name);
    NamedThere(ev, i);
  }

  /** On every level each subnode goes to a node of its own name: the first child that matches, among
      those of the base and those merged before it, is named so, or none matches. */
  predicate Lands(b: Tree, ks: seq<Tree>)
    decreases CountAll(ks)
  {
    var ev := AllSubs(ks);
    forall i | 0 <= i < |ev| ::
      PlaceAt(NameList(b), ev, i) == ev[i].name
      && (NamedSmaller(ks, i); Lands(KidOr(b, ev[i].name), Named(ev, ev[i].name)))
  }

  predicate AllOwn(names: seq<seq<byte>>, ev: seq<Sub>) {
    forall i | 0 <= i < |ev| :: PlaceAt(names, ev, i) == ev[i].name
  }

  lemma {:induction false} OwnPlaced(names: seq<seq<byte>>, ev: seq<Sub>, m: seq<byte>)
    requires AllOwn(names, ev)
    ensures Placed(names, ev, m) == Named(ev, m)
    decreases |ev|
  {
    hide Grown, Place;
    if ev != [] {
      assert PlaceAt(names, ev, 0) == ev[0].name;
      OwnRest(names, ev);
      OwnPlaced(Grown(names, ev[0].name), ev[1..], m);
    }
  }

  lemma OwnRest(names: seq<seq<byte>>, ev: seq<Sub>)
    requires ev != []
    ensures AllOwn(names, ev) <==> Place(names, ev[0].name) == ev[0].name && AllOwn(Grown(names, ev[0].name), ev[1..])
  {
    hide Grown, Place;
    var g := Grown(names, ev[0].name);
    if AllOwn(names, ev) {
      assert PlaceAt(names, ev, 0) == ev[0].name;
      forall i | 0 <= i < |ev[1..]| ensures PlaceAt(g, ev[1..], i) == ev[1..][i].name {
        assert PlaceAt(names, ev, i + 1) == ev[i + 1].name;
      }
    }
    if Place(names, ev[0].name) == ev[0].name && AllOwn(g, ev[1..]) {
      forall i | 0 <= i < |ev| ensures PlaceAt(names, ev, i) == ev[i].name {
        if i > 0 {
          assert PlaceAt(g, ev[1..], i - 1) == ev[1..][i - 1].name;
        }
      }
    }
  }

  lemma LandsLevel(b: Tree, ks: seq<Tree>, n: seq<byte>)
    requires Lands(b, ks)
    ensures AllOwn(NameList(b), AllSubs(ks))
    ensures Named(AllSubs(ks), n) != [] ==> Lands(KidOr(b, n), Named(AllSubs(ks), n))
  {
    hide PlaceAt, Named, AllSubs, KidOr;
    var ev := AllSubs(ks);
    assert AllOwn(NameList(b), ev);
    if Named(ev, n) != [] {
      var i := NamedIndex(ev, n);
      assert PlaceAt(NameList(b), ev, i) == ev[i].name;
    }
  }

  /** The law: at every relative path a property has the overlays' value if they have one there, else
      the base's. */
  ghost predicate Overrides(b: Tree, ks: seq<Tree>, path: seq<seq<byte>>, prop: seq<byte>) {
    Lookup(MergeAll(b, ks), path, prop) == Over(OverlayGet(ks, path, prop), Lookup(b, path, prop))
  }

  lemma {:induction false} MergeLookup(b: Tree, ks: seq<Tree>, path: seq<seq<byte>>, prop: seq<byte>)
    requires Lands(b, ks)
    ensures Overrides(b, ks, path, prop)
    decreases |path|
  {
    hide FirstVal, Lands, MergeAll, Kid, NameList, LastAmong, Placed, Named, AllSubs, GrownBy, AllOwn;
    if path == [] {
      MergedNode(b, ks, prop);
    } else {
      var n := path[0];
      var xs := Named(AllSubs(ks), n);
      MergedNode(b, ks, n);
      LandsLevel(b, ks, n);
      OwnPlaced(NameList(b), AllSubs(ks), n);
      if xs == [] {
        OverlayNone(path[1..], prop);
      } else {
        MergeLookup(KidOr(b, n), xs, path[1..], prop);
        LookupKid(b, path, prop);
      }
    }
  }

  // ----- and only then -----

  /** Every overlay has the property, each with a value of its own. */
  predicate Told(ks: seq<Tree>, prop: seq<byte>) {
    (forall i | 0 <= i < |ks| :: LastVal(ks[i], prop).Some?)
    && (forall i, j | 0 <= i < j < |ks| :: LastVal(ks[i], prop) != LastVal(ks[j], prop))
  }

  /** Every subnode of the overlays has the property, and no two at the same path have the same value. */
  predicate TellsApart(ks: seq<Tree>, prop: seq<byte>)
    decreases CountAll(ks)
  {
    var ev := AllSubs(ks);
    forall i | 0 <= i < |ev| ::
      Told(Named(ev, ev[i].name), prop)
      && (NamedSmaller(ks, i); TellsApart(Named(ev, ev[i].name), prop))
  }

  lemma {:induction false} ToldLast(ks: seq<Tree>, prop: seq<byte>)
    requires ks != [] && Told(ks, prop)
    ensures LastAmong(ks, prop) == LastVal(ks[|ks| - 1], prop)
    decreases |ks|
  {
    hide LastVal;
    if |ks| > 1 {
      var r := ks[1..];
      forall i, j | 0 <= i < j < |r| ensures LastVal(r[i], prop) != LastVal(r[j], prop) {
        assert r[i] == ks[i + 1] && r[j] == ks[j + 1];
      }
      ToldLast(r, prop);
    }
  }

  /** Of values that differ, a part of the front cannot have the last one. */
  lemma ToldShort(x: seq<Tree>, ks: seq<Tree>, prop: seq<byte>)
    requires x < ks && Told(ks, prop)
    ensures LastAmong(x, prop) != LastAmong(ks, prop) && LastAmong(ks, prop).Some?
  {
    hide LastVal;
    ToldLast(ks, prop);
    if x != [] {
      assert x[|x| - 1] == ks[|x| - 1];
      forall i, j | 0 <= i < j < |x| ensures LastVal(x[i], prop) != LastVal(x[j], prop) {
        assert x[i] == ks[i] && x[j] == ks[j];
      }
      forall i | 0 <= i < |x| ensures LastVal(x[i], prop).Some? {
        assert x[i] == ks[i];
      }
      ToldLast(x, prop);
      assert LastVal(ks[|x| - 1], prop) != LastVal(ks[|ks| - 1], prop);
    }
  }

  /** A name whose first match is another node is never reached again. */
  lemma {:induction false} NeverReached(names: seq<seq<byte>>, ev: seq<Sub>, n: seq<byte>)
    requires FirstIn(names, n).Some? && FirstIn(names, n).value != n
    ensures Placed(names, ev, n) == []
    decreases |ev|
  {
    if ev != [] {
      var e := ev[0].name;
      AtInside(FirstIn(names, n).value, n);
      if Place(names, e) == n {
        OnlySelf(n, e);
      }
      StillOther(names, e, n);
      NeverReached(Grown(names, e), ev[1..], n);
    }
  }

  lemma AtInside(m: seq<byte>, n: seq<byte>)
    requires NameEq(m, n)
    ensures m == n || 64 !in n
  {
    if |m| == |n| {
      assert m[..|n|] == m;
    }
  }

  lemma OnlySelf(n: seq<byte>, e: seq<byte>)
    requires 64 !in n
    ensures NameEq(n, e) ==> n == e
  {
    if NameEq(n, e) && |n| == |e| {
      assert n[..|e|] == n;
    }
  }

  lemma StillOther(names: seq<seq<byte>>, e: seq<byte>, n: seq<byte>)
    requires FirstIn(names, n).Some? && FirstIn(names, n).value != n
    ensures FirstIn(Grown(names, e), n).Some? && FirstIn(Grown(names, e), n).value != n
  {
    hide NameEq;
    if FirstIn(names, e).None? {
      var g := [e] + names;
      assert g[1..] == names && g[0] == e;
    }
  }

  /** Where places are not the subnodes' own, some name misses the last of its subnodes. */
  lemma {:induction false} Missed(names: seq<seq<byte>>, ev: seq<Sub>) returns (n: seq<byte>)
    requires !AllOwn(names, ev)
    ensures Placed(names, ev, n) < Named(ev, n)
    decreases |ev|
  {
    hide Grown, Place, AllOwn, FirstIn;
    if ev == [] {
      NoneOwn(names);
    } else {
      OwnRest(names, ev);
      var g := Grown(names, ev[0].name);
      if Place(names, ev[0].name) != ev[0].name {
        n := ev[0].name;
        MissedFirst(names, ev);
      } else {
        n := Missed(g, ev[1..]);
        var (a, b) := (Placed(g, ev[1..], n), Named(ev[1..], n));
        assert [ev[0].kids] + a < [ev[0].kids] + b by {
          PrefixBehind([ev[0].kids], a, b);
        }
        assert [] + a == a && [] + b == b;
      }
    }
  }

  lemma NoneOwn(names: seq<seq<byte>>)
    ensures AllOwn(names, [])
  {
  }

  lemma PrefixBehind(x: seq<Tree>, a: seq<Tree>, b: seq<Tree>)
    requires a < b
    ensures x + a < x + b
  {
  }

  lemma MissedFirst(names: seq<seq<byte>>, ev: seq<Sub>)
    requires ev != [] && Place(names, ev[0].name) != ev[0].name
    ensures Placed(names, ev, ev[0].name) == [] && Named(ev, ev[0].name) != []
  {
    hide FirstIn;
    var n := ev[0].name;
    NeverReached(Grown(names, n), ev[1..], n);
  }

  lemma OverridesKid(b: Tree, ks: seq<Tree>, n: seq<byte>, path: seq<seq<byte>>, prop: seq<byte>)
    requires AllOwn(NameList(b), AllSubs(ks)) && Named(AllSubs(ks), n) != []
    ensures Overrides(b, ks, [n] + path, prop) <==> Overrides(KidOr(b, n), Named(AllSubs(ks), n), path, prop)
  {
    hide FirstVal, MergeAll, Kid, NameList, LastAmong, Placed, Named, AllSubs, GrownBy, AllOwn;
    var q := [n] + path;
    assert q[0] == n && q[1..] == path;
    MergedNode(b, ks, n);
    OwnPlaced(NameList(b), AllSubs(ks), n);
    LookupKid(b, q, prop);
  }

  /** For a property that is nowhere in the base and tells the overlays' nodes apart, the law holds at
      all paths only if every subnode lands under its own name. */
  lemma {:induction false} LawLands(b: Tree, ks: seq<Tree>, prop: seq<byte>)
    requires TellsApart(ks, prop) && forall path :: Lookup(b, path, prop) == None
    requires forall path :: Overrides(b, ks, path, prop)
    ensures Lands(b, ks)
    decreases CountAll(ks)
  {
    hide Overrides, MergeAll, Kid, NameList, Named, AllSubs, Told, AllOwn, CountAll, PlaceAt, Lookup;
    var ev := AllSubs(ks);
    if !AllOwn(NameList(b), ev) {
      var n := LawFails(b, ks, prop);
      assert false;
    }
    forall i | 0 <= i < |ev|
      ensures PlaceAt(NameList(b), ev, i) == ev[i].name && Lands(KidOr(b, ev[i].name), Named(ev, ev[i].name))
    {
      var n := ev[i].name;
      OwnAt(NameList(b), ev, i);
      NamedThere(ev, i);
      NamedSmaller(ks, i);
      forall path ensures Overrides(KidOr(b, n), Named(ev, n), path, prop) && Lookup(KidOr(b, n), path, prop) == None {
        OverridesKid(b, ks, n, path, prop);
        var q := [n] + path;
        assert q[1..] == path && Overrides(b, ks, q, prop);
        assert Lookup(b, q, prop) == None;
        LookupKid(b, q, prop);
      }
      LawLands(KidOr(b, n), Named(ev, n), prop);
    }
  }

  lemma OwnAt(names: seq<seq<byte>>, ev: seq<Sub>, i: nat)
    requires AllOwn(names, ev) && i < |ev|
    ensures PlaceAt(names, ev, i) == ev[i].name
  {
  }

  lemma LawFails(b: Tree, ks: seq<Tree>, prop: seq<byte>) returns (n: seq<byte>)
    requires TellsApart(ks, prop) && !AllOwn(NameList(b), AllSubs(ks)) && Lookup(b, [], prop) == None
    requires forall n :: Lookup(b, [n], prop) == None
    ensures !Overrides(b, ks, [n], prop)
  {
    hide MergeAll, Kid, NameList, Named, AllSubs, Told, AllOwn, CountAll, PlaceAt, GrownBy, Placed, FirstVal, LastAmong;
    var ev := AllSubs(ks);
    n := Missed(NameList(b), ev);
    var x, xs := Placed(NameList(b), ev, n), Named(ev, n);
    var i := NamedIndex(ev, n);
    assert Told(xs, prop);
    ToldShort(x, xs, prop);
    var q := [n];
    assert q[1..] == [] && q[0] == n;
    assert OverlayGet(ks, q, prop) == LastAmong(xs, prop);
    MergedNode(b, ks, n);
    MergedNode(KidOr(b, n), x, prop);
    LookupKid(b, q, prop);
    LookupKid(MergeAll(b, ks), q, prop);
  }

  /** Exactly when the override law holds. */
  lemma LawExactly(b: Tree, ks: seq<Tree>, prop: seq<byte>)
    requires TellsApart(ks, prop) && forall path :: Lookup(b, path, prop) == None
    ensures Lands(b, ks) <==> forall path :: Overrides(b, ks, path, prop)
  {
    hide Lands, Overrides, TellsApart, Lookup;
    if forall path :: Overrides(b, ks, path, prop) {
      LawLands(b, ks, prop);
    }
    if Lands(b, ks) {
      forall path ensures Overrides(b, ks, path, prop) {
        MergeLookup(b, ks, path, prop);
      }
    }
  }

  // ----- the law on the merged blob -----

  /** The names of the nodes a path leads to: on each level the first that matches. */
  function Resolve(t: Tree, path: seq<seq<byte>>): Option<seq<seq<byte>>>
    decreases |path|
  {
    if path == [] then Some([])
    else
      var m := FirstIn(NameList(t), path[0]);
      if m.None? then None
      else
        var r := Resolve(KidOr(t, m.value), path[1..]);
        if r.None? then None else Some([m.value] + r.value)
  }

  /** The child a search finds is the first of its own name. */
  lemma {:induction false} FindKidIs(off: int, t: Tree, n: seq<byte>)
    requires FindKid(off, t, Some(n)).Some?
    ensures FirstIn(NameList(t), n).Some?
    ensures var (x, m) := (At(t, FindKid(off, t, Some(n)).value - off), FirstIn(NameList(t), n).value);
            x.Some? && x.value.NodeT? && x.value.name == m && Kid(t, m) == Some(x.value.kids)
    decreases t
  {
    hide NameEq, Len, HLen, TSize;
    match t
    case NopT(r) =>
      FindKidIs(off + 4, r, n);
      AtBound(r, FindKid(off + 4, r, Some(n)).value - off - 4);
    case PropT(m, v, r) =>
      var l := Len(Prop(m, v));
      FindKidIs(off + l, r, n);
      AtBound(r, FindKid(off + l, r, Some(n)).value - off - l);
    case NodeT(m, k, r) =>
      FirstOf(m, NameList(r), n);
      if !NameEq(m, n) {
        hide FirstIn;
        var l := HLen(m) + TSize(k) + 4;
        FindKidIs(off + l, r, n);
        AtBound(r, FindKid(off + l, r, Some(n)).value - off - l);
      }
  }

  lemma FirstOf(m: seq<byte>, names: seq<seq<byte>>, n: seq<byte>)
    ensures FirstIn([m] + names, n) == if NameEq(m, n) then Some(m) else FirstIn(names, n)
  {
    assert ([m] + names)[1..] == names;
  }

  /** What fdt_path_offset() and fdt_getprop() read below a node is the lookup at the names the path
      leads to. */
  lemma {:induction false} PathValue(v: Blob, off: int, path: seq<seq<byte>>, prop: seq<byte>)
    requires v.Fits() && v.IsNode(off)
    ensures var (o, q) := (LookFrom(v, off, path), Resolve(v.Node(off).kids, path));
            if q.None? then o.None?
            else o.Some? && v.IsNode(o.value)
                 && FirstVal(v.Node(o.value).kids, prop) == Lookup(v.Node(off).kids, q.value, prop)
    decreases |path|
  {
    hide FindKid, At, BlobTree, HLen, NameList, FirstIn, FirstVal, Kid;
    if path != [] {
      hide LookFrom;
      var x := v.Node(off);
      LookStep(v, off, path);
      FindKidNames(off + HLen(x.name), x.kids, path[0]);
      if FindKid(off + HLen(x.name), x.kids, Some(path[0])).Some? {
        StepInto(v, off, path[0]);
        PathValue(v, FindKid(off + HLen(x.name), x.kids, Some(path[0])).value, path[1..], prop);
        var m := FirstIn(NameList(x.kids), path[0]).value;
        var q := Resolve(KidOr(x.kids, m), path[1..]);
        if q.Some? {
          assert ([m] + q.value)[1..] == q.value;
        }
      }
    }
  }

  lemma StepInto(v: Blob, off: int, n: seq<byte>)
    requires v.Fits() && v.IsNode(off)
    requires FindKid(off + HLen(v.Node(off).name), v.Node(off).kids, Some(n)).Some?
    ensures var (o, x) := (FindKid(off + HLen(v.Node(off).name), v.Node(off).kids, Some(n)).value, v.Node(off));
            FirstIn(NameList(x.kids), n).Some?
            && v.IsNode(o) && Some(v.Node(o).kids) == Kid(x.kids, FirstIn(NameList(x.kids), n).value)
  {
    hide FindKid, BlobTree, HLen, NameList, FirstIn, Kid, TSize;
    var x := v.Node(off);
    var h := off + HLen(x.name);
    FindKidIs(h, x.kids, n);
    var o := FindKid(h, x.kids, Some(n)).value;
    InKids(x, o - h);
    hide At;
    AtCompose(v.Tree().value, off, x, o - off);
  }

  /** The override law as a caller reads it off the blob: any path that leads somewhere below the merged
      node finds the overlays' value for the node it leads to if they have one, else the base's. */
  lemma MergedBlob(v: Blob, target: int, b: Tree, ks: seq<Tree>, path: seq<seq<byte>>, prop: seq<byte>)
    requires v.Fits() && v.IsNode(target) && v.Node(target).kids == MergeAll(b, ks) && Lands(b, ks)
    ensures var (o, q) := (LookFrom(v, target, path), Resolve(MergeAll(b, ks), path));
            (o.Some? <==> q.Some?)
            && (o.Some? ==> v.IsNode(o.value)
                            && FirstVal(v.Node(o.value).kids, prop)
                               == Over(OverlayGet(ks, q.value, prop), Lookup(b, q.value, prop)))
  {
    hide LookFrom, MergeAll, Lands, Resolve, OverlayGet, Lookup, FirstVal, At, BlobTree;
    PathValue(v, target, path, prop);
    var q := Resolve(MergeAll(b, ks), path);
    if q.Some? {
      MergeLookup(b, ks, q.value, prop);
    }
  }

  /** Where it fails: an overlay node `c` lands in the base's `c@0`, or whatever its unit address is, and the
      overlay's own path then finds nothing. Behind a `c` of its own the `c@0` does no harm. */
  lemma UnitAddressClash(c: seq<byte>, at0: seq<byte>, p: seq<byte>, v: seq<byte>)
    requires at0 != c && NameEq(at0, c)
    ensures var ov := NodeT(c, PropT(p, v, Leaf), Leaf);
            !Overrides(NodeT(at0, Leaf, Leaf), [ov], [c], p) && Lands(NodeT(c, Leaf, NodeT(at0, Leaf, Leaf)), [ov])
  {
    hide NameEq, MergeAll, AllSubs, Named, NameList, Placed, GrownBy, Kid;
    var k: Tree, b: Tree := PropT(p, v, Leaf), NodeT(at0, Leaf, Leaf);
    var ov := NodeT(c, k, Leaf);
    OneSub(c, k);
    ClashNames(c, at0, k);
    MergedNode(b, [ov], c);
    assert LastAmong([k], p) == Some(v) by {
      assert [k][1..] == [] && LastVal(k, p) == Some(v);
    }
    var q: seq<seq<byte>> := [c];
    assert q[1..] == [] && q[0] == c;
    assert OverlayGet([ov], q, p) == OverlayGet([k], [], p) == Some(v);
    LookupKid(MergeAll(b, [ov]), q, p);
    LookupLeaf([], p);
    ClashLands(c, at0, k, ov);
  }

  lemma OneSub(c: seq<byte>, k: Tree)
    ensures AllSubs([NodeT(c, k, Leaf)]) == [Sub(c, k)] && Named([Sub(c, k)], c) == [k]
  {
    var ov, ev := NodeT(c, k, Leaf), [Sub(c, k)];
    assert Subs(ov) == ev && [ov][1..] == [] && ev[1..] == [];
    assert Named(ev, c) == [k] + Named([], c);
  }

  lemma ClashLands(c: seq<byte>, at0: seq<byte>, k: Tree, ov: Tree)
    requires AllSubs([ov]) == [Sub(c, k)] && Named([Sub(c, k)], c) == [k] && Subs(k) == []
    requires PlaceAt([c, at0], [Sub(c, k)], 0) == c
    ensures Lands(NodeT(c, Leaf, NodeT(at0, Leaf, Leaf)), [ov])
  {
    var b := NodeT(c, Leaf, NodeT(at0, Leaf, Leaf));
    assert NameList(b.rest) == [at0] && NameList(b) == [c, at0];
    hide PlaceAt, Named;
    assert [k][1..] == [] && AllSubs([k]) == [];
  }

  lemma ClashNames(c: seq<byte>, at0: seq<byte>, k: Tree)
    requires c != at0 && NameEq(at0, c)
    ensures NameList(NodeT(at0, Leaf, Leaf)) == [at0] && Kid(NodeT(at0, Leaf, Leaf), c) == None
    ensures Placed([at0], [Sub(c, k)], c) == [] && PlaceAt([c, at0], [Sub(c, k)], 0) == c
  {
    NameEqSelf(c);
    assert [Sub(c, k)][1..] == [];
  }
}

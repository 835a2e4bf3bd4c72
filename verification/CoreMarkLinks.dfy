/** Singly linked lists as values: who points to whom, and what relinking one node does. */
module CoreMarkLinks {

  /** 16 bits, as an unsigned number. */
  type u16 = x: int | 0 <= x < 0x1_0000

  class Data {
    var data16: u16
    var idx: int

    constructor (data16: u16, idx: int)
      ensures this.data16 == data16 && this.idx == idx
    {
      this.data16, this.idx := data16, idx;
    }
  }

  class Node {
    var next: Node?
    var info: Data

    constructor (info: Data)
      ensures this.next == null && this.info == info
    {
      this.next, this.info := null, info;
    }
  }

  /** The links of some nodes. */
  type Links = map<Node, Node?>

  ghost function Nexts(ns: set<Node>): Links
    reads ns
  {
    map n | n in ns :: n.next
  }

  // ----- chains -----

  function First(s: seq<Node>): Node? {
    if s == [] then null else s[0]
  }

  function Last(s: seq<Node>): Node
    requires s != []
  {
    s[|s| - 1]
  }

  ghost predicate Linked(nx: Links, s: seq<Node>) {
    (forall n :: n in s ==> n in nx) && forall i :: 0 <= i < |s| - 1 ==> nx[s[i]] == s[i + 1]
  }

  /** A whole list, up to null. */
  ghost predicate Whole(nx: Links, s: seq<Node>) {
    Linked(nx, s) && (s != [] ==> nx[Last(s)] == null)
  }

  ghost predicate Distinct(s: seq<Node>) {
    forall n :: n in s ==> multiset(s)[n] == 1
  }

  lemma DistinctPerm(s: seq<Node>, t: seq<Node>)
    requires Distinct(s) && multiset(s) == multiset(t)
    ensures Distinct(t)
  {
    forall n | n in t
      ensures multiset(t)[n] == 1
    {
      assert n in multiset(s);
    }
  }

  lemma DistinctParts(s: seq<Node>, t: seq<Node>)
    requires Distinct(s + t)
    ensures Distinct(s) && Distinct(t) && forall n :: n in s ==> n !in t
  {
    var u := s + t;
    assert multiset(u) == multiset(s) + multiset(t);
    forall n | n in s
      ensures multiset(s)[n] == 1 && n !in t
    {
      assert n in u;
    }
    forall n | n in t
      ensures multiset(t)[n] == 1
    {
      assert n in u;
    }
  }

  lemma DistinctAt(s: seq<Node>, i: int, j: int)
    requires Distinct(s) && 0 <= i < j < |s|
    ensures s[i] != s[j]
  {
    assert s == s[..j] + s[j..];
    DistinctParts(s[..j], s[j..]);
    assert s[i] in s[..j] && s[j] in s[j..];
  }

  /** Relinking a node outside a chain leaves the chain alone. */
  lemma LinkedOther(nx: Links, s: seq<Node>, n: Node, e: Node?)
    requires Linked(nx, s) && n !in s
    ensures Linked(nx[n := e], s)
  {
    forall i | 0 <= i < |s| - 1
      ensures nx[n := e][s[i]] == s[i + 1]
    {
      assert s[i] in s;
    }
  }

  lemma WholeOther(nx: Links, s: seq<Node>, n: Node, e: Node?)
    requires Whole(nx, s) && n !in s
    ensures Whole(nx[n := e], s)
  {
    hide Linked;
    LinkedOther(nx, s, n, e);
    if s != [] {
      assert Last(s) in s;
    }
  }

  /** Relinking the last node of a chain extends it. */
  lemma LinkedMore(nx: Links, s: seq<Node>, e: Node)
    requires Linked(nx, s) && Distinct(s) && s != [] && e in nx
    ensures Linked(nx[Last(s) := e], s + [e])
  {
    var t, nx' := s + [e], nx[Last(s) := e];
    forall i | 0 <= i < |t| - 1
      ensures nx'[t[i]] == t[i + 1]
    {
      if i < |s| - 1 {
        DistinctAt(s, i, |s| - 1);
      }
    }
  }

  lemma LinkedTail(nx: Links, s: seq<Node>)
    requires Linked(nx, s) && s != []
    ensures Linked(nx, s[1..]) && (|s| > 1 ==> nx[s[0]] == s[1])
  {
  }

  lemma WholeTail(nx: Links, s: seq<Node>)
    requires Whole(nx, s) && s != []
    ensures Whole(nx, s[1..]) && s[0] in nx && nx[s[0]] == First(s[1..])
  {
  }

  /** A prefix of a chain is a chain, and what follows it too. */
  lemma WholeSplit(nx: Links, s: seq<Node>, t: seq<Node>)
    requires Whole(nx, s + t)
    ensures Linked(nx, s) && Whole(nx, t) && (s != [] ==> Last(s) in nx && nx[Last(s)] == First(t))
  {
    var u := s + t;
    assert forall i :: 0 <= i < |s| ==> u[i] == s[i];
    assert forall i :: 0 <= i < |t| ==> u[|s| + i] == t[i];
    assert forall n :: n in s ==> n in u;
    assert forall n :: n in t ==> n in u;
  }

  // ----- three chains while two runs are merged -----

  /** The merged list so far, what is left of the first run, and the rest of the old list. */
  ghost predicate Merging(nx: Links, out: seq<Node>, a: seq<Node>, c: seq<Node>) {
    Distinct(out + (a + c)) && Linked(nx, out) && Linked(nx, a) && Whole(nx, c)
  }

  /** The links after `e` has been put behind the merged list. */
  ghost function Relinked(nx: Links, out: seq<Node>, e: Node): Links {
    if out == [] then nx else nx[Last(out) := e]
  }

  lemma MergingParts(nx: Links, out: seq<Node>, a: seq<Node>, c: seq<Node>)
    requires Merging(nx, out, a, c)
    ensures Distinct(out) && Distinct(a) && Distinct(c)
    ensures out != [] ==> Last(out) !in a && Last(out) !in c
    ensures forall n :: n in a ==> n !in c
  {
    DistinctParts(out, a + c);
    DistinctParts(a, c);
    if out != [] {
      assert Last(out) in out;
    }
  }

  lemma LinkedOne(nx: Links, e: Node)
    requires e in nx
    ensures Linked(nx, [e])
  {
  }

  /** The head of the first run goes over. */
  lemma TakeFirst(nx: Links, out: seq<Node>, a: seq<Node>, c: seq<Node>)
    requires Merging(nx, out, a, c) && a != []
    ensures Merging(Relinked(nx, out, a[0]), out + [a[0]], a[1..], c)
  {
    MergingParts(nx, out, a, c);
    LinkedTail(nx, a);
    assert out + (a + c) == (out + [a[0]]) + (a[1..] + c);
    assert a[0] in a && a[0] in nx;
    hide Linked, Whole, Distinct;
    if out != [] {
      assert Last(out) !in a[1..];
      LinkedMore(nx, out, a[0]);
      LinkedOther(nx, a[1..], Last(out), a[0]);
      WholeOther(nx, c, Last(out), a[0]);
    } else {
      LinkedOne(nx, a[0]);
      assert out + [a[0]] == [a[0]];
    }
  }

  /** The head of the second run goes over. */
  lemma TakeSecond(nx: Links, out: seq<Node>, a: seq<Node>, c: seq<Node>)
    requires Merging(nx, out, a, c) && c != []
    ensures Merging(Relinked(nx, out, c[0]), out + [c[0]], a, c[1..])
  {
    MergingParts(nx, out, a, c);
    WholeTail(nx, c);
    var s, t := out + (a + c), (out + [c[0]]) + (a + c[1..]);
    assert c == [c[0]] + c[1..];
    assert multiset(s) == multiset(t);
    DistinctPerm(s, t);
    hide Linked, Whole, Distinct;
    if out != [] {
      assert Last(out) !in c[1..];
      LinkedMore(nx, out, c[0]);
      LinkedOther(nx, a, Last(out), c[0]);
      WholeOther(nx, c[1..], Last(out), c[0]);
    } else {
      LinkedOne(nx, c[0]);
      assert out + [c[0]] == [c[0]];
    }
  }
}

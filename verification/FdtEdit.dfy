/** The edits of fdt_rw.c and fdt_wip.c on the tree, and the byte splices that realise them. */
module FdtEdit {
  import opened Options
  import opened FdtTokens
  import opened FdtTree
  import opened FdtWalk

  // ----- edits of a node's content -----

  predicate HasProp(t: Tree, name: seq<byte>) {
    match t
    case NopT(r) => HasProp(r, name)
    case PropT(n, _, r) => n == name || HasProp(r, name)
    case _ => false
  }

  /** The first value under that name: what fdt_getprop() returns. */
  function FirstVal(t: Tree, name: seq<byte>): Option<seq<byte>> {
    match t
    case NopT(r) => FirstVal(r, name)
    case PropT(n, v, r) => if n == name then Some(v) else FirstVal(r, name)
    case _ => None
  }

  /** The first property of that name gets a new value. */
  function SetFirst(t: Tree, name: seq<byte>, val: seq<byte>): Tree {
    match t
    case NopT(r) => NopT(SetFirst(r, name, val))
    case PropT(n, v, r) => if n == name then PropT(n, val, r) else PropT(n, v, SetFirst(r, name, val))
    case _ => t
  }

  /** fdt_setprop(): set the first property of that name, or put a new one first. */
  function SetProp(t: Tree, name: seq<byte>, val: seq<byte>): Tree {
    if HasProp(t, name) then SetFirst(t, name, val) else PropT(name, val, t)
  }

  /** fdt_add_subnode(): an empty node behind the properties. */
  function AddKid(t: Tree, name: seq<byte>): Tree {
    match t
    case NopT(r) => NopT(AddKid(r, name))
    case PropT(n, v, r) => PropT(n, v, AddKid(r, name))
    case _ => NodeT(name, Leaf, t)
  }

  /** Bytes of the leading properties and NOPs. */
  function LeadLen(t: Tree): nat {
    match t
    case NopT(r) => 4 + LeadLen(r)
    case PropT(n, v, r) => Len(Prop(n, v)) + LeadLen(r)
    case _ => 0
  }

  function Nops(m: nat, t: Tree): Tree {
    if m == 0 then t else NopT(Nops(m - 1, t))
  }

  /** The tree without its NOPs: what the blob means. */
  function Strip(t: Tree): Tree {
    match t
    case Leaf => Leaf
    case NopT(r) => Strip(r)
    case PropT(n, v, r) => PropT(n, v, Strip(r))
    case NodeT(n, k, r) => NodeT(n, Strip(k), Strip(r))
  }

  // ----- where the edits happen -----

  lemma {:induction false} FindPropEdit(off: int, t: Tree, name: seq<byte>, val: seq<byte>)
    ensures FindProp(off, t, name).Some? <==> HasProp(t, name)
    ensures HasProp(t, name) ==>
              var o := FindProp(off, t, name).value - off;
              At(t, o).Some? && At(t, o).value.PropT? && At(t, o).value.name == name
              && Put(t, o, PropT(name, val, At(t, o).value.rest)) == SetFirst(t, name, val)
    decreases t
  {
    hide Len;
    match t
    case NopT(r) =>
      FindPropEdit(off + 4, r, name, val);
      if HasProp(r, name) {
        AtBound(r, FindProp(off + 4, r, name).value - off - 4);
      }
    case PropT(n, v, r) =>
      if n != name {
        var l := Len(Prop(n, v));
        FindPropEdit(off + l, r, name, val);
        if HasProp(r, name) {
          AtBound(r, FindProp(off + l, r, name).value - off - l);
        }
      }
    case _ =>
  }

  lemma {:induction false} FirstValAt(off: int, t: Tree, name: seq<byte>)
    ensures FindProp(off, t, name).None? <==> FirstVal(t, name).None?
    ensures FindProp(off, t, name).Some? ==>
              var o := FindProp(off, t, name).value - off;
              At(t, o).Some? && At(t, o).value.PropT? && At(t, o).value.name == name
                && At(t, o).value.val == FirstVal(t, name).value
    decreases t
  {
    hide Len;
    match t
    case NopT(r) =>
      FirstValAt(off + 4, r, name);
    case PropT(n, v, r) =>
      if n != name {
        FirstValAt(off + Len(Prop(n, v)), r, name);
      }
    case _ =>
  }

  // ----- which of several -----

  /** Bytes of the first item of a level. */
  function ItemLen(t: Tree): nat {
    match t
    case Leaf => 0
    case NopT(_) => 4
    case PropT(n, v, _) => Len(Prop(n, v))
    case NodeT(n, k, _) => HLen(n) + TSize(k) + 4
  }

  lemma AtStart(t: Tree)
    ensures At(t, 0) == Some(t)
  {
  }

  lemma AtBehind(t: Tree, o: int)
    requires !t.Leaf? && At(t.rest, o).Some?
    ensures At(t, ItemLen(t) + o) == At(t.rest, o)
  {
    SmallTokens();
    hide Len, HLen;
    AtBound(t.rest, o);
  }

  lemma InKids(x: Tree, o: int)
    requires x.NodeT? && At(x.kids, o).Some?
    ensures At(x, HLen(x.name) + o) == At(x.kids, o)
  {
    AtBound(x.kids, o);
  }

  /** One step towards a place, and the same step of an edit there. */
  lemma AtSplit(t: Tree, off: int, u: Tree)
    requires off > 0 && At(t, off).Some?
    ensures !t.Leaf?
    ensures t.NodeT? && off <= HLen(t.name) + TSize(t.kids) ==>
              At(t.kids, off - HLen(t.name)) == At(t, off)
              && Put(t, off, u) == NodeT(t.name, Put(t.kids, off - HLen(t.name), u), t.rest)
    ensures !(t.NodeT? && off <= HLen(t.name) + TSize(t.kids)) ==>
              At(t.rest, off - ItemLen(t)) == At(t, off)
              && Put(t, off, u) == match t
                                   case Leaf => t
                                   case NopT(r) => NopT(Put(r, off - ItemLen(t), u))
                                   case PropT(n, v, r) => PropT(n, v, Put(r, off - ItemLen(t), u))
                                   case NodeT(n, k, r) => NodeT(n, k, Put(r, off - ItemLen(t), u))
  {
    hide Len, HLen, TSize;
  }

  /** A place of the level behind a node is not inside the node. */
  lemma BeyondKids(n: seq<byte>, k: Tree, r: Tree, q: int)
    requires q > 0 && At(NodeT(n, k, r), q).Some? && q + TSize(At(NodeT(n, k, r), q).value) == TSize(NodeT(n, k, r))
    ensures q >= HLen(n) + TSize(k) + 4 && At(r, q - (HLen(n) + TSize(k) + 4)) == At(NodeT(n, k, r), q)
  {
    hide HLen;
    if q <= HLen(n) + TSize(k) {
      AtBound(k, q - HLen(n));
    }
  }

  /** Behind the first item of a level. */
  lemma LevelStep(t: Tree, q: int, z: Tree)
    requires At(t, q) == Some(z) && q > 0 && q + TSize(z) == TSize(t)
    ensures !t.Leaf? && q >= ItemLen(t) && At(t.rest, q - ItemLen(t)) == Some(z)
            && q - ItemLen(t) + TSize(z) == TSize(t.rest)
  {
    SmallTokens();
    SizeStep(t);
    hide Len, HLen;
    if t.NodeT? {
      BeyondKids(t.name, t.kids, t.rest, q);
    } else if !t.Leaf? {
      AtBound(t.rest, q - ItemLen(t));
    }
  }

  /** A search for a property finds none behind another of that name, and finds one whenever there is one before
      the first subnode. */
  lemma {:induction false} FirstProp(off: int, t: Tree, o: int)
    requires At(t, o).Some? && At(t, o).value.PropT? && o < LeadLen(t)
    ensures var p := FindProp(off, t, At(t, o).value.name); p.Some? && p.value <= off + o
    decreases t
  {
    hide Len, HLen, TSize;
    if o != 0 {
      match t
      case NopT(r) => FirstProp(off + 4, r, o - 4);
      case PropT(n, v, r) =>
        FirstProp(off + Len(Prop(n, v)), r, o - Len(Prop(n, v)));
        AtBound(r, o - Len(Prop(n, v)));
      case _ =>
    }
  }

  /** A search for a child finds none behind another that matches, finds one whenever one matches, and only one
      that does. */
  lemma {:induction false} FirstKid(off: int, t: Tree, pat: Option<seq<byte>>, o: int, z: Tree)
    requires At(t, o) == Some(z) && z.NodeT? && o + TSize(z) == TSize(t) && Matches(z.name, pat)
    ensures FindKid(off, t, pat).Some? && FindKid(off, t, pat).value <= off + o
    decreases t
  {
    hide Len, HLen, TSize, Matches;
    if o != 0 {
      AtBound(t, o);
      hide At;
      LevelStep(t, o, z);
      FirstKid(off + ItemLen(t), t.rest, pat, o - ItemLen(t), z);
    }
  }

  lemma {:induction false} KidMatches(off: int, t: Tree, pat: Option<seq<byte>>)
    ensures FindKid(off, t, pat).Some? ==>
              var x := At(t, FindKid(off, t, pat).value - off); x.Some? && x.value.NodeT? && Matches(x.value.name, pat)
    decreases t
  {
    hide Len, HLen, TSize, Matches, At;
    AtStart(t);
    var p := FindKid(off, t, pat);
    if !t.Leaf? && !(t.NodeT? && Matches(t.name, pat)) {
      KidMatches(off + ItemLen(t), t.rest, pat);
      if p.Some? {
        AtBehind(t, p.value - off - ItemLen(t));
      }
    }
  }

  /** Only properties and NOPs are in front of a new subnode. */
  lemma {:induction false} LeadOnly(t: Tree, o: int)
    requires At(t, o).Some? && o < LeadLen(t)
    ensures At(t, o).value.NopT? || At(t, o).value.PropT?
    decreases t
  {
    hide Len, HLen, TSize;
    if o != 0 {
      match t
      case NopT(r) => LeadOnly(r, o - 4);
      case PropT(n, v, r) => LeadOnly(r, o - Len(Prop(n, v)));
      case _ =>
    }
  }

  /** A property that is set is where it was, or else the first. */
  lemma {:induction false} SetPropPlace(off: int, t: Tree, name: seq<byte>, val: seq<byte>)
    ensures FindProp(off, SetProp(t, name, val), name) == if HasProp(t, name) then FindProp(off, t, name) else Some(off)
  {
    SetFirstPlace(off, t, name, val);
  }

  lemma {:induction false} SetFirstPlace(off: int, t: Tree, name: seq<byte>, val: seq<byte>)
    ensures FindProp(off, SetFirst(t, name, val), name) == FindProp(off, t, name)
    decreases t
  {
    hide Len;
    match t
    case NopT(r) => SetFirstPlace(off + 4, r, name, val);
    case PropT(n, v, r) => SetFirstPlace(off + Len(Prop(n, v)), r, name, val);
    case _ =>
  }

  lemma {:induction false} SetFirstVals(t: Tree, name: seq<byte>, val: seq<byte>, n: seq<byte>)
    ensures HasProp(t, name) <==> FirstVal(t, name).Some?
    ensures FirstVal(SetFirst(t, name, val), n) == if n == name && HasProp(t, name) then Some(val) else FirstVal(t, n)
  {
    match t
    case NopT(r) => SetFirstVals(r, name, val, n);
    case PropT(_, _, r) => SetFirstVals(r, name, val, n);
    case _ =>
  }

  /** A property that is set has its new value, and every other the one it had. */
  lemma SetPropVals(t: Tree, name: seq<byte>, val: seq<byte>, n: seq<byte>)
    ensures FirstVal(SetProp(t, name, val), n) == if n == name then Some(val) else FirstVal(t, n)
  {
    SetFirstVals(t, name, val, n);
  }

  lemma {:induction false} AddKidAt(t: Tree, name: seq<byte>)
    ensures At(t, LeadLen(t)).Some?
    ensures var w := At(t, LeadLen(t)).value;
            !w.NopT? && !w.PropT? && Put(t, LeadLen(t), NodeT(name, Leaf, w)) == AddKid(t, name)
  {
    hide Len;
    match t
    case NopT(r) => AddKidAt(r, name);
    case PropT(n, v, r) => AddKidAt(r, name);
    case _ =>
  }

  /** Edits of a node's content, seen from the whole tree. */
  lemma PutKids(t: Tree, off: int, x: Tree, o: int, u: Tree)
    requires At(t, off) == Some(x) && x.NodeT? && At(x.kids, o).Some?
    ensures At(t, off + HLen(x.name) + o) == At(x.kids, o)
    ensures Put(t, off + HLen(x.name) + o, u) == Put(t, off, NodeT(x.name, Put(x.kids, o, u), x.rest))
  {
    hide Len;
    AtBound(x.kids, o);
    assert At(x, HLen(x.name) + o) == At(x.kids, o);
    AtCompose(t, off, x, HLen(x.name) + o);
    PutCompose(t, off, x, HLen(x.name) + o, u);
  }

  // ----- the bytes of new tokens -----

  lemma DecOne(x: seq<byte>, st: Strs, t: Tok)
    requires Head(x, st) == Some(t) && |x| == Len(t)
    ensures Dec(x, st, [t])
  {
    hide Head, Len;
    assert [t][1..] == [] && x[Len(t)..] == [];
  }

  lemma DecProp(x: seq<byte>, st: Strs, nameoff: nat, name: seq<byte>, val: seq<byte>)
    requires |x| == 12 + Align4(|val|) && Load32(x, 0) == FDT_PROP && Load32(x, 4) == |val|
    requires Load32(x, 8) == nameoff && Name(st, nameoff) == Some(name) && x[12..12 + |val|] == val
    ensures Dec(x, st, [Prop(name, val)])
  {
    hide Name, Load32;
    DecOne(x, st, Prop(name, val));
  }

  lemma DecBegin(x: seq<byte>, st: Strs, name: seq<byte>)
    requires 0 !in name && |x| == 4 + Align4(|name| + 1) && Load32(x, 0) == FDT_BEGIN_NODE
    requires x[4..4 + |name|] == name && x[4 + |name|] == 0
    ensures Dec(x, st, [Begin(name)])
  {
    hide Name, Load32;
    var n := 4 + |name|;
    assert forall i :: 4 <= i < n ==> x[i] == name[i - 4];
    assert NulFrom(x, 4) == n;
    DecOne(x, st, Begin(name));
  }

  lemma {:induction false} DecNops(x: seq<byte>, st: Strs, m: nat)
    requires |x| == 4 * m && forall i :: 0 <= i < m ==> Load32(x, 4 * i) == FDT_NOP
    ensures Dec(x, st, Flat(Nops(m, Leaf)))
    decreases m
  {
    if m > 0 {
      assert Load32(x, 4 * 0) == FDT_NOP;
      var y := x[4..];
      forall i | 0 <= i < m - 1 ensures Load32(y, 4 * i) == FDT_NOP {
        assert Load32(x, 4 * (i + 1)) == FDT_NOP;
      }
      DecNops(y, st, m - 1);
      assert Flat(Nops(m, Leaf))[1..] == Flat(Nops(m - 1, Leaf));
      hide Load32;
    }
  }

  lemma {:induction false} FlatNops(m: nat, t: Tree)
    ensures Flat(Nops(m, t)) == Flat(Nops(m, Leaf)) + Flat(t)
  {
    if m > 0 {
      FlatNops(m - 1, t);
    }
  }

  // ----- NOPs mean nothing -----

  lemma {:induction false} StripNops(m: nat, t: Tree)
    ensures Strip(Nops(m, t)) == Strip(t)
  {
    if m > 0 {
      StripNops(m - 1, t);
    }
  }

  lemma {:induction false} StripPut(t: Tree, off: int, u: Tree, v: Tree)
    requires At(t, off).Some? && Strip(u) == Strip(v)
    ensures Strip(Put(t, off, u)) == Strip(Put(t, off, v))
    decreases t
  {
    hide Len, TSize, HLen;
    if off != 0 {
      match t
      case NopT(r) => StripPut(r, off - 4, u, v);
      case PropT(n, w, r) => StripPut(r, off - Len(Prop(n, w)), u, v);
      case NodeT(n, k, r) =>
        if off <= HLen(n) + TSize(k) {
          StripPut(k, off - HLen(n), u, v);
        } else {
          StripPut(r, off - (HLen(n) + TSize(k) + 4), u, v);
        }
    }
  }
}

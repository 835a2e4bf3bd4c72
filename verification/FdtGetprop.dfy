/** fdt_getprop(): the value of a node's first property of a name. */
module FdtGetprop {
  import opened Options
  import opened FdtTokens
  import opened FdtTree
  import opened FdtBlob
  import opened FdtWalk
  import opened FdtRo
  import opened FdtProps
  import opened FdtEdit
  import opened FdtRw
  import opened FdtSetprop
  import opened FdtWip

  lemma ValueFound(b: Blob, node: int, name: seq<byte>)
    requires b.Readable() && b.IsNode(node)
    ensures var o := FindProp(node + HLen(b.Node(node).name), b.Node(node).kids, name);
            if o.None? then FirstVal(b.Node(node).kids, name).None?
            else o.value >= 0 && IsInt(o.value) && IsProp(b, o.value)
                 && FirstVal(b.Node(node).kids, name) == Some(PropAt(b, o.value).val)
  {
    hide BlobTree, At, HLen, FindProp, FirstVal, Load32, TSize, Put, Name;
    var x := b.Node(node);
    var h := node + HLen(x.name);
    FirstValAt(h, x.kids, name);
    var o := FindProp(h, x.kids, name);
    if o.Some? {
      OldPropAt(b, node, name, []);
      AtBound(b.Tree().value, node);
      KidAt(b.Tree().value, node, x, o.value - h);
    }
  }

  lemma KidAt(t: Tree, node: int, x: Tree, o: int)
    requires At(t, node) == Some(x) && x.NodeT? && At(x.kids, o).Some?
    ensures At(t, node + HLen(x.name) + o) == At(x.kids, o)
  {
    hide HLen, TSize;
    AtNext(t, node, x);
    AtCompose(t, node + HLen(x.name), x.kids, o);
  }

  /** fdt_getprop_namelen() */
  method Getprop(b: Blob, node: int, name: seq<byte>) returns (val: Option<seq<byte>>)
    requires b.Readable() && IsInt(node)
    ensures b.IsNode(node) ==> val == FirstVal(b.Node(node).kids, name)
    ensures Rejected(b, node) ==> val == None
  {
    hide BlobTree, At, HLen, FindProp, FirstVal, TagAt, Name;
    var po := GetProperty(b, node, name);
    if b.IsNode(node) {
      ValueFound(b, node, name);
    }
    if po < 0 {
      return None;
    }
    var err, n, v := GetpropByOffset(b, po);
    return if err == 0 then Some(v) else None;
  }

  /** The node after its content was replaced. */
  lemma NodePut(v: Blob, v': Blob, node: int, c: Tree)
    requires v.Readable() && v'.Readable() && v.IsNode(node)
    requires v'.Tree() == Some(Put(v.Tree().value, node, NodeT(v.Node(node).name, c, v.Node(node).rest)))
    ensures v'.IsNode(node) && v'.Node(node).kids == c && v'.Node(node).name == v.Node(node).name
  {
    hide BlobTree, At, Put;
    var y := NodeT(v.Node(node).name, c, v.Node(node).rest);
    AtStart(y);
    AtPut(v.Tree().value, node, y, 0);
  }

  /** fdt_setprop() and then fdt_getprop() of the same property, and of any other property of the node. */
  method SetThenGet(f: Fdt, node: int, name: seq<byte>, val: seq<byte>, other: seq<byte>)
    returns (err: int, got: Option<seq<byte>>, kept: Option<seq<byte>>)
    requires f.View().Fits() && NodeArg(f.View(), node)
    requires 0 !in name && |name| + |val| + 64 <= INT_MAX
    modifies f, f.buf
    ensures f.View().Fits() && err <= 0
    ensures err == 0 ==> old(f.View()).IsNode(node) && f.View().IsNode(node) && got == Some(val)
                         && (other != name ==> kept == FirstVal(old(f.View()).Node(node).kids, other))
  {
    hide BlobTree, At, Put, FirstVal, SetProp, Ordered;
    ghost var v := f.View();
    got, kept := None, None;
    err := Setprop(f, node, name, val);
    if err == 0 {
      NodePut(v, f.View(), node, SetProp(v.Node(node).kids, name, val));
      SetPropVals(v.Node(node).kids, name, val, name);
      SetPropVals(v.Node(node).kids, name, val, other);
      got := Getprop(f.View(), node, name);
      kept := Getprop(f.View(), node, other);
    }
  }
}

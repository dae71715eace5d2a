/**
 * The commit phase of areact06 (areact06/AReact.jsx:116-162): `commitDeletion`,
 * `commitWork` and the host-tree half of `commitRoot`. The fibers are read,
 * never written; the host tree changes. A thrown TypeError is the outcome
 * `None`.
 */
module Commit {
  import opened Wrappers
  import opened Elements
  import opened Fibers
  import opened Host
  import opened UpdateDom

  /** The fiber whose node `commitWork` appends to or removes from: the nearest host above `x`. */
  ghost function HostParent(fs: seq<Fiber>, x: FiberId): (h: Option<FiberId>)
    requires Linked(fs) && x < |fs|
    ensures InArena(fs, h) && (h.Some? ==> fs[h.value].stateNode.Some?)
  {
    NearestHostFinds(fs, fs[x].ret);
    NearestHost(fs, fs[x].ret)
  }

  /**
   * The fiber whose node `commitDeletion` removes: `x` itself if it owns a
   * node, else the same search from its `child`. `None` when the search
   * reaches a missing child, where the source reads a property of `null`.
   */
  ghost function HostBelow(fs: seq<Fiber>, x: Option<FiberId>): (h: Option<FiberId>)
    requires Linked(fs) && InArena(fs, x)
    ensures InArena(fs, h) && (h.Some? ==> fs[h.value].stateNode.Some?)
    decreases Depth(fs, x)
  {
    match x
    case None => None
    case Some(y) => if fs[y].stateNode.Some? then x else HostBelow(fs, fs[y].child)
  }

  /** `commitDeletion(x, p)`: the node found below is removed from `p` when `p` lists it. */
  ghost function Removal(fs: seq<Fiber>, x: Option<FiberId>, p: NodeId, dom: Dom): (r: Option<Dom>)
    requires Linked(fs) && InArena(fs, x) && NodesIn(fs, dom) && p < |dom|
    ensures r.None? <==> HostBelow(fs, x).None?
    ensures r.Some? ==> |r.value| == |dom|
  {
    var h := HostBelow(fs, x);
    if h.None? then None
    else
      var n := fs[h.value].stateNode.value;
      if Contains(dom, p, n) then Some(RemoveChild(dom, p, n)) else Some(dom)
  }

  /**
   * What `commitWork` does at fiber `x` before recursing (areact06/AReact.jsx:126-150):
   * the climb to a host parent fails when it runs past the root; a PLACEMENT
   * with a node writes its props and appends it to the host parent; an UPDATE
   * diffs the props against the alternate's; a DELETION runs `commitDeletion`.
   */
  ghost function Effect(fs: seq<Fiber>, x: FiberId, dom: Dom): (r: Option<Dom>)
    requires Linked(fs) && x < |fs| && NodesIn(fs, dom)
    ensures r.Some? ==> |r.value| == |dom|
  {
    var fib := fs[x];
    var h := HostParent(fs, x);
    if fib.ret.Some? && h.None? then None
    else if fib.effectTag == Placement && fib.stateNode.Some? then
      var n := fib.stateNode.value;
      if h.None? then None
      else Some(AppendChild(dom[n := NodeAfter(dom[n], map[], fib.props)], fs[h.value].stateNode.value, n))
    else if fib.effectTag == Update then
      if fib.alternate.None? then None
      else
        var prev := fs[fib.alternate.value].props;
        if fib.stateNode.Some? then Some(dom[fib.stateNode.value := NodeAfter(dom[fib.stateNode.value], prev, fib.props)])
        else if Touches(prev, fib.props) then None
        else Some(dom)
    else if fib.effectTag == Deletion then
      if h.None? then None else Removal(fs, Some(x), fs[h.value].stateNode.value, dom)
    else Some(dom)
  }

  /** `Effect` applied to each fiber of `xs` in turn, stopping at the first failure. */
  ghost function CommitAll(fs: seq<Fiber>, xs: seq<FiberId>, dom: Dom): (r: Option<Dom>)
    requires Linked(fs) && NodesIn(fs, dom) && forall k :: 0 <= k < |xs| ==> xs[k] < |fs|
    ensures r.Some? ==> |r.value| == |dom|
    decreases |xs|
  {
    if xs == [] then Some(dom)
    else
      match Effect(fs, xs[0], dom)
      case None => None
      case Some(d) => CommitAll(fs, xs[1..], d)
  }

  /** Committing two lists one after the other is committing their concatenation. */
  lemma {:induction false} CommitAllConcat(fs: seq<Fiber>, a: seq<FiberId>, b: seq<FiberId>, dom: Dom)
    requires Linked(fs) && NodesIn(fs, dom)
    requires forall k :: 0 <= k < |a| ==> a[k] < |fs|
    requires forall k :: 0 <= k < |b| ==> b[k] < |fs|
    ensures CommitAll(fs, a + b, dom) ==
      match CommitAll(fs, a, dom)
      case None => None
      case Some(d) => CommitAll(fs, b, d)
    decreases |a|
  {
    if a == [] {
      assert a + b == b;
    } else {
      assert (a + b)[1..] == a[1..] + b;
      var e := Effect(fs, a[0], dom);
      if e.Some? {
        CommitAllConcat(fs, a[1..], b, e.value);
      }
    }
  }

  /** `commitDeletion(fiber, parentStateNode)`, recursing down `child` links. */
  method CommitDeletion(fs: seq<Fiber>, x: Option<FiberId>, p: NodeId, dom: Dom) returns (r: Option<Dom>)
    requires Linked(fs) && InArena(fs, x) && NodesIn(fs, dom) && p < |dom|
    ensures r == Removal(fs, x, p, dom)
    decreases Depth(fs, x)
  {
    if x.None? {
      return None;
    }
    var y := x.value;
    if fs[y].stateNode.Some? {
      var n := fs[y].stateNode.value;
      if n in dom[p].children {
        r := Some(RemoveChild(dom, p, n));
      } else {
        r := Some(dom);
      }
    } else {
      r := CommitDeletion(fs, fs[y].child, p, dom);
    }
  }

  /** The part of `commitWork(x)` before its two recursive calls. */
  method CommitEffect(fs: seq<Fiber>, x: FiberId, dom: Dom) returns (r: Option<Dom>)
    requires Linked(fs) && x < |fs| && NodesIn(fs, dom)
    ensures r == Effect(fs, x, dom)
  {
    var fib := fs[x];
    var h: Option<FiberId> := None;
    if fib.ret.Some? {
      h := FindHostParent(fs, x);
      if h.None? {
        return None;
      }
    }
    assert h == HostParent(fs, x);
    if fib.effectTag == Placement && fib.stateNode.Some? {
      var n := fib.stateNode.value;
      if h.None? {
        return None;
      }
      var d := UpdateDom.UpdateDom(dom, n, map[], fib.props);
      r := Some(AppendChild(d, fs[h.value].stateNode.value, n));
    } else if fib.effectTag == Update {
      if fib.alternate.None? {
        return None;
      }
      var prev := fs[fib.alternate.value].props;
      if fib.stateNode.Some? {
        var d := UpdateDom.UpdateDom(dom, fib.stateNode.value, prev, fib.props);
        r := Some(d);
      } else if Touches(prev, fib.props) {
        r := None;
      } else {
        r := Some(dom);
      }
    } else if fib.effectTag == Deletion {
      if h.None? {
        return None;
      }
      r := CommitDeletion(fs, Some(x), fs[h.value].stateNode.value, dom);
    } else {
      r := Some(dom);
    }
  }

  /** Committing a non-empty list is the effect at its head, then the rest. */
  lemma CommitAllHead(fs: seq<Fiber>, xs: seq<FiberId>, dom: Dom)
    requires Linked(fs) && NodesIn(fs, dom) && xs != [] && forall k :: 0 <= k < |xs| ==> xs[k] < |fs|
    ensures var e := Effect(fs, xs[0], dom);
      CommitAll(fs, xs, dom) == if e.None? then None else CommitAll(fs, xs[1..], e.value)
  {
  }

  /**
   * Committing the forest at `y` is the effect at `y`, then the forest under
   * its `child`, then the forest at its `sibling`, stopping at a failure.
   */
  lemma CommitForest(fs: seq<Fiber>, y: FiberId, dom: Dom)
    requires Linked(fs) && y < |fs| && NodesIn(fs, dom)
    ensures CommitAll(fs, Forest(fs, Some(y)), dom) ==
      match Effect(fs, y, dom)
      case None => None
      case Some(e) =>
        match CommitAll(fs, Forest(fs, fs[y].child), e)
        case None => None
        case Some(d) => CommitAll(fs, Forest(fs, fs[y].sibling), d)
  {
    var below := Forest(fs, fs[y].child);
    var after := Forest(fs, fs[y].sibling);
    var all := Forest(fs, Some(y));
    assert all == [y] + (below + after) by {
      assert all == Preorder(fs, y) + after && Preorder(fs, y) == [y] + below;
    }
    assert all[0] == y && all[1..] == below + after;
    CommitAllHead(fs, all, dom);
    var e := Effect(fs, y, dom);
    if e.Some? {
      CommitAllConcat(fs, below, after, e.value);
    }
  }

  /**
   * `commitWork(x)`: the effect at `x`, then `commitWork(x.child)`, then
   * `commitWork(x.sibling)`. It commits the fibers of `Forest(x)`, the trees
   * under `x` and its later siblings, in depth-first order.
   */
  method CommitWork(fs: seq<Fiber>, x: Option<FiberId>, dom: Dom) returns (r: Option<Dom>)
    requires Linked(fs) && InArena(fs, x) && NodesIn(fs, dom)
    ensures r == CommitAll(fs, Forest(fs, x), dom)
    decreases Depth(fs, x)
  {
    if x.None? {
      return Some(dom);
    }
    var y := x.value;
    CommitForest(fs, y, dom);
    var e := CommitEffect(fs, y, dom);
    if e.None? {
      return None;
    }
    var d := CommitWork(fs, fs[y].child, e.value);
    if d.None? {
      return None;
    }
    r := CommitWork(fs, fs[y].sibling, d.value);
  }

  /** The fibers `deletions.forEach(commitWork)` visits: the forest of each deleted fiber in turn. */
  ghost function DeletionOrder(fs: seq<Fiber>, dels: seq<FiberId>): (xs: seq<FiberId>)
    requires Linked(fs) && forall k :: 0 <= k < |dels| ==> dels[k] < |fs|
    ensures forall k :: 0 <= k < |xs| ==> xs[k] < |fs|
    decreases |dels|
  {
    if dels == [] then [] else Forest(fs, Some(dels[0])) + DeletionOrder(fs, dels[1..])
  }

  lemma ConcatAssoc(a: seq<FiberId>, b: seq<FiberId>, c: seq<FiberId>)
    ensures (a + b) + c == a + (b + c)
  {
  }

  /**
   * The host-tree half of `commitRoot` (areact06/AReact.jsx:156-158): every
   * deleted fiber's forest first, in push order, then the forest under the
   * work-in-progress root's `child`.
   */
  method CommitRoot(fs: seq<Fiber>, dels: seq<FiberId>, root: FiberId, dom: Dom) returns (r: Option<Dom>)
    requires Linked(fs) && root < |fs| && NodesIn(fs, dom)
    requires forall k :: 0 <= k < |dels| ==> dels[k] < |fs|
    ensures r == CommitAll(fs, DeletionOrder(fs, dels) + Forest(fs, fs[root].child), dom)
  {
    ghost var tree := Forest(fs, fs[root].child);
    ghost var goal := CommitAll(fs, DeletionOrder(fs, dels) + tree, dom);
    r := Some(dom);
    var i := 0;
    while i < |dels| && r.Some?
      invariant i <= |dels|
      invariant r.Some? ==> NodesIn(fs, r.value) && goal == CommitAll(fs, DeletionOrder(fs, dels[i..]) + tree, r.value)
      invariant r.None? ==> goal.None?
    {
      var rest := dels[i..];
      assert rest[1..] == dels[i + 1..];
      ConcatAssoc(Forest(fs, Some(dels[i])), DeletionOrder(fs, dels[i + 1..]), tree);
      CommitAllConcat(fs, Forest(fs, Some(dels[i])), DeletionOrder(fs, dels[i + 1..]) + tree, r.value);
      r := CommitWork(fs, Some(dels[i]), r.value);
      i := i + 1;
    }
    if r.Some? {
      assert dels[i..] == [];
      assert DeletionOrder(fs, dels[i..]) + tree == tree;
      r := CommitWork(fs, fs[root].child, r.value);
    }
  }

  /**
   * A deleted fiber's forest runs on into its old `child` and `sibling`
   * (areact06/AReact.jsx:152-153): the old sibling and its subtree are
   * committed again with the tags they kept from the previous render.
   */
  lemma DeletionRecommitsSibling(fs: seq<Fiber>, d: FiberId)
    requires Linked(fs) && d < |fs| && fs[d].sibling.Some?
    ensures var s := fs[d].sibling.value; var f := Forest(fs, Some(d));
      |Preorder(fs, d)| < |f| && f[|Preorder(fs, d)|] == s
      && f[|Preorder(fs, d)|..] == Forest(fs, Some(s))
  {
    var f := Forest(fs, Some(d));
    assert f == Preorder(fs, d) + Forest(fs, fs[d].sibling);
  }

  /**
   * `commitDeletion(x, parent)` (areact06/AReact.jsx:116-123): the node found
   * by the search below `x` leaves the child list of `p` when `p` lists it,
   * and nothing changes when it does not; the search failing on a missing
   * child is a crash.
   */
  lemma RemovalEffect(fs: seq<Fiber>, x: FiberId, p: NodeId, dom: Dom)
    requires Linked(fs) && x < |fs| && NodesIn(fs, dom) && Consistent(dom) && p < |dom|
    ensures var h := HostBelow(fs, Some(x));
      var r := Removal(fs, Some(x), p, dom);
      && (r.None? <==> h.None?)
      && (h.Some? ==>
            var n := fs[h.value].stateNode.value;
            if n in dom[p].children then
              && Consistent(r.value) && r.value[n].parent.None?
              && (forall m :: 0 <= m < |dom| ==> n !in r.value[m].children)
              && r.value[p].children == Without(dom[p].children, n)
            else r.value == dom)
  {
    var h := HostBelow(fs, Some(x));
    if h.Some? && fs[h.value].stateNode.value in dom[p].children {
      RemoveChildConsistent(dom, p, fs[h.value].stateNode.value);
    }
  }

  /**
   * A PLACEMENT with a node, under a host parent with another node, writes its
   * props onto the node and appends it last under the parent's node,
   * taking it out of any other child list (areact06/AReact.jsx:138-145).
   */
  lemma PlacementEffect(fs: seq<Fiber>, x: FiberId, dom: Dom)
    requires Linked(fs) && x < |fs| && NodesIn(fs, dom) && Consistent(dom)
    requires fs[x].effectTag == Placement && fs[x].stateNode.Some? && HostParent(fs, x).Some?
    requires fs[HostParent(fs, x).value].stateNode != fs[x].stateNode
    ensures var p := fs[HostParent(fs, x).value].stateNode.value;
      var n := fs[x].stateNode.value;
      var r := Effect(fs, x, dom);
      && r.Some? && Consistent(r.value)
      && r.value[p].children == Without(dom[p].children, n) + [n]
      && r.value[n].parent == Some(p)
      && r.value[n].props == PropsAfter(dom[n].props, map[], fs[x].props)
      && r.value[n].listeners == ListenersAfter(dom[n].listeners, map[], fs[x].props)
      && (forall m :: 0 <= m < |dom| && m != p ==> n !in r.value[m].children)
  {
    var p := fs[HostParent(fs, x).value].stateNode.value;
    var n := fs[x].stateNode.value;
    var node := NodeAfter(dom[n], map[], fs[x].props);
    var d := dom[n := node];
    assert Effect(fs, x, dom) == Some(AppendChild(d, p, n));
    RetouchConsistent(dom, n, node);
    AppendChildConsistent(d, p, n);
    assert d[p].children == dom[p].children;
    AppendKeepsNode(d, p, n);
  }

  /** `appendChild` changes a node's links only, never its props or listeners. */
  lemma AppendKeepsNode(dom: Dom, p: NodeId, c: NodeId)
    requires p < |dom| && c < |dom|
    ensures var r := AppendChild(dom, p, c);
      forall m :: 0 <= m < |dom| ==> r[m].props == dom[m].props && r[m].listeners == dom[m].listeners && r[m].kind == dom[m].kind
  {
  }

  /**
   * An UPDATE on a fiber without a node (a function component) calls
   * `updateDom(null, ...)`, which fails exactly when the two prop maps differ
   * outside `children` (areact06/AReact.jsx:146-147).
   */
  lemma ComponentUpdateFails(fs: seq<Fiber>, x: FiberId, dom: Dom)
    requires Linked(fs) && x < |fs| && NodesIn(fs, dom)
    requires fs[x].effectTag == Update && fs[x].stateNode.None? && fs[x].alternate.Some?
    requires fs[x].ret.Some? ==> HostParent(fs, x).Some?
    ensures Effect(fs, x, dom).None? <==>
      fs[fs[x].alternate.value].props - {ChildrenKey} != fs[x].props - {ChildrenKey}
    ensures Effect(fs, x, dom).Some? ==> Effect(fs, x, dom).value == dom
  {
    TouchesIffPropsDiffer(fs[fs[x].alternate.value].props, fs[x].props);
  }

  /** No fiber shares its node with its host parent, so no node is appended to itself. */
  ghost predicate Apart(fs: seq<Fiber>)
    requires Linked(fs)
  {
    forall x :: 0 <= x < |fs| && fs[x].stateNode.Some? && HostParent(fs, x).Some? ==>
      fs[HostParent(fs, x).value].stateNode != fs[x].stateNode
  }

  /** Every single effect keeps the host tree's parent and child links consistent. */
  lemma EffectConsistent(fs: seq<Fiber>, x: FiberId, dom: Dom)
    requires Linked(fs) && x < |fs| && NodesIn(fs, dom) && Consistent(dom) && Apart(fs)
    ensures Effect(fs, x, dom).Some? ==> Consistent(Effect(fs, x, dom).value)
  {
    var fib := fs[x];
    var h := HostParent(fs, x);
    if fib.ret.Some? && h.None? {
    } else if fib.effectTag == Placement && fib.stateNode.Some? {
      if h.Some? {
        PlacementEffect(fs, x, dom);
      }
    } else if fib.effectTag == Update {
      if fib.alternate.Some? && fib.stateNode.Some? {
        var n := fib.stateNode.value;
        RetouchConsistent(dom, n, NodeAfter(dom[n], fs[fib.alternate.value].props, fib.props));
      }
    } else if fib.effectTag == Deletion {
      if h.Some? {
        var p := fs[h.value].stateNode.value;
        assert Effect(fs, x, dom) == Removal(fs, Some(x), p, dom);
        RemovalEffect(fs, x, p, dom);
      }
    }
  }

  /** The commit phase keeps the host tree consistent, however far it gets. */
  lemma {:induction false} CommitAllConsistent(fs: seq<Fiber>, xs: seq<FiberId>, dom: Dom)
    requires Linked(fs) && NodesIn(fs, dom) && Consistent(dom) && Apart(fs)
    requires forall k :: 0 <= k < |xs| ==> xs[k] < |fs|
    ensures CommitAll(fs, xs, dom).Some? ==> Consistent(CommitAll(fs, xs, dom).value)
    decreases |xs|
  {
    if xs != [] {
      EffectConsistent(fs, xs[0], dom);
      var e := Effect(fs, xs[0], dom);
      if e.Some? {
        CommitAllConsistent(fs, xs[1..], e.value);
      }
    }
  }
}

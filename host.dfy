/**
 * The host tree, abstracted: a store of nodes, each with a property map, a set of
 * event listeners, a parent link and an ordered child list. Stands in for the
 * document calls the renderer makes (`createElement`, `createTextNode`,
 * property assignment, `add/removeEventListener`, `appendChild`, `removeChild`,
 * `contains`).
 */
module Host {
  import opened Wrappers
  import opened Elements

  type NodeId = nat

  datatype NodeKind = ElementNode(tagName: string) | TextNode

  /** One `addEventListener(event, handler)` registration. */
  datatype Listener = Listener(event: string, handler: Value)

  datatype HostNode = HostNode(
    kind: NodeKind,
    props: map<string, Value>,
    listeners: set<Listener>,
    parent: Option<NodeId>,
    children: seq<NodeId>)

  type Dom = seq<HostNode>

  /** A freshly created node: no properties, no listeners, detached. */
  function NewNode(kind: NodeKind): HostNode {
    HostNode(kind, map[], {}, None, [])
  }

  /** `document.createElement` / `createTextNode`: the new node gets the next id. */
  function CreateNode(dom: Dom, kind: NodeKind): (r: (Dom, NodeId))
    ensures r.1 == |dom| && |r.0| == |dom| + 1
    ensures r.0[..|dom|] == dom && r.0[r.1] == NewNode(kind)
  {
    (dom + [NewNode(kind)], |dom|)
  }

  /** `node[key] = value`. */
  function SetProperty(dom: Dom, n: NodeId, key: string, value: Value): (r: Dom)
    requires n < |dom|
    ensures |r| == |dom|
  {
    dom[n := dom[n].(props := dom[n].props[key := value])]
  }

  /** `node.addEventListener(event, handler)`; registering a pair twice is a no-op. */
  function AddListener(dom: Dom, n: NodeId, l: Listener): (r: Dom)
    requires n < |dom|
    ensures |r| == |dom|
  {
    dom[n := dom[n].(listeners := dom[n].listeners + {l})]
  }

  /** `node.removeEventListener(event, handler)`. */
  function RemoveListener(dom: Dom, n: NodeId, l: Listener): (r: Dom)
    requires n < |dom|
    ensures |r| == |dom|
  {
    dom[n := dom[n].(listeners := dom[n].listeners - {l})]
  }

  /** The list with every occurrence of `x` taken out. */
  function Without(s: seq<NodeId>, x: NodeId): (r: seq<NodeId>)
    ensures forall y :: y in r <==> y in s && y != x
    ensures |r| <= |s|
  {
    if s == [] then [] else (if s[0] == x then [] else [s[0]]) + Without(s[1..], x)
  }

  /** `parent.contains(node)`, restricted to direct children. */
  predicate Contains(dom: Dom, p: NodeId, c: NodeId)
    requires p < |dom|
  {
    c in dom[p].children
  }

  /** Replaces the child list of `n`. */
  function WithChildren(dom: Dom, n: NodeId, children: seq<NodeId>): (r: Dom)
    requires n < |dom|
    ensures |r| == |dom| && r[n].children == children
    ensures r[n].kind == dom[n].kind && r[n].props == dom[n].props && r[n].parent == dom[n].parent
    ensures forall m :: 0 <= m < |dom| && m != n ==> r[m] == dom[m]
  {
    dom[n := dom[n].(children := children)]
  }

  /** Replaces the parent link of `n`. */
  function WithParent(dom: Dom, n: NodeId, parent: Option<NodeId>): (r: Dom)
    requires n < |dom|
    ensures |r| == |dom| && r[n].parent == parent
    ensures r[n].kind == dom[n].kind && r[n].props == dom[n].props && r[n].children == dom[n].children
    ensures forall m :: 0 <= m < |dom| && m != n ==> r[m] == dom[m]
  {
    dom[n := dom[n].(parent := parent)]
  }

  /** `parent.removeChild(node)`; the document demands that `node` be a child of `parent`. */
  function RemoveChild(dom: Dom, p: NodeId, c: NodeId): (r: Dom)
    requires p < |dom| && c < |dom|
    requires Contains(dom, p, c)
    ensures |r| == |dom|
  {
    Unlink(dom, p, c)
  }

  /** Detaches `c` from its current parent, if it has one. */
  function Detach(dom: Dom, c: NodeId): (r: Dom)
    requires c < |dom|
    ensures |r| == |dom|
  {
    match dom[c].parent
    case Some(q) =>
      if q < |dom| then Unlink(dom, q, c)
      else WithParent(dom, c, None)
    case None => dom
  }

  /** `parent.appendChild(node)`: a node that already has a parent moves. */
  function AppendChild(dom: Dom, p: NodeId, c: NodeId): (r: Dom)
    requires p < |dom| && c < |dom|
    ensures |r| == |dom|
  {
    var d := Detach(dom, c);
    WithParent(WithChildren(d, p, d[p].children + [c]), c, Some(p))
  }

  /** No node occurs twice in the list. */
  ghost predicate Distinct(s: seq<NodeId>) {
    forall i, j :: 0 <= i < j < |s| ==> s[i] != s[j]
  }

  /** Every listed child names its parent. */
  ghost predicate ChildLinks(dom: Dom) {
    forall n, i :: 0 <= n < |dom| && 0 <= i < |dom[n].children| ==>
      dom[n].children[i] < |dom| && dom[dom[n].children[i]].parent == Some(n)
  }

  /** Every parent lists the node that names it. */
  ghost predicate ParentLinks(dom: Dom) {
    forall c :: 0 <= c < |dom| && dom[c].parent.Some? ==>
      dom[c].parent.value < |dom| && c in dom[dom[c].parent.value].children
  }

  /** Parent and child links agree, and no child list repeats a node. */
  ghost predicate Consistent(dom: Dom) {
    ChildLinks(dom) && ParentLinks(dom) && forall n :: 0 <= n < |dom| ==> Distinct(dom[n].children)
  }

  lemma {:induction false} WithoutKeepsDistinct(s: seq<NodeId>, x: NodeId)
    requires Distinct(s)
    ensures Distinct(Without(s, x))
  {
    if s != [] {
      assert Distinct(s[1..]);
      WithoutKeepsDistinct(s[1..], x);
      assert s[0] !in s[1..];
    }
  }

  lemma {:induction false} WithoutIdentity(s: seq<NodeId>, x: NodeId)
    requires x !in s
    ensures Without(s, x) == s
  {
    if s != [] {
      WithoutIdentity(s[1..], x);
    }
  }

  /** In a consistent tree a node is the child of its parent only. */
  lemma OnlyParentLists(dom: Dom, c: NodeId, n: NodeId)
    requires Consistent(dom) && c < |dom| && n < |dom| && c in dom[n].children
    ensures dom[c].parent == Some(n)
  {
  }

  lemma ChildLinkAt(dom: Dom, n: NodeId, x: NodeId)
    requires ChildLinks(dom) && n < |dom| && x in dom[n].children
    ensures x < |dom| && dom[x].parent == Some(n)
  {
    var i :| 0 <= i < |dom[n].children| && dom[n].children[i] == x;
  }

  /** The result of taking `c` out of its parent `q`'s list and clearing its parent link. */
  function Unlink(dom: Dom, q: NodeId, c: NodeId): (d: Dom)
    requires q < |dom| && c < |dom|
    ensures |d| == |dom| && d[c].parent == None
    ensures forall n :: 0 <= n < |dom| ==> d[n].children == if n == q then Without(dom[q].children, c) else dom[n].children
    ensures forall m :: 0 <= m < |dom| && m != c ==> d[m].parent == dom[m].parent
    ensures forall n :: 0 <= n < |dom| ==> d[n].kind == dom[n].kind && d[n].props == dom[n].props
  {
    WithParent(WithChildren(dom, q, Without(dom[q].children, c)), c, None)
  }

  lemma UnlinkChildLinks(dom: Dom, q: NodeId, c: NodeId)
    requires Consistent(dom) && q < |dom| && c < |dom| && dom[c].parent == Some(q)
    ensures ChildLinks(Unlink(dom, q, c))
    ensures forall n :: 0 <= n < |dom| ==> c !in Unlink(dom, q, c)[n].children
  {
    var d := Unlink(dom, q, c);
    forall n, i | 0 <= n < |d| && 0 <= i < |d[n].children|
      ensures d[n].children[i] < |d| && d[d[n].children[i]].parent == Some(n)
    {
      UnlinkedChild(dom, q, c, n, d[n].children[i]);
    }
    forall n | 0 <= n < |dom| ensures c !in d[n].children {
      if c in d[n].children { UnlinkedChild(dom, q, c, n, c); }
    }
  }

  lemma UnlinkedChild(dom: Dom, q: NodeId, c: NodeId, n: NodeId, x: NodeId)
    requires Consistent(dom) && q < |dom| && c < |dom| && dom[c].parent == Some(q)
    requires n < |dom| && x in Unlink(dom, q, c)[n].children
    ensures x != c && x < |dom| && Unlink(dom, q, c)[x].parent == Some(n)
  {
    assert x in dom[n].children;
    ChildLinkAt(dom, n, x);
  }

  lemma UnlinkParentLinks(dom: Dom, q: NodeId, c: NodeId)
    requires Consistent(dom) && q < |dom| && c < |dom| && dom[c].parent == Some(q)
    ensures ParentLinks(Unlink(dom, q, c))
  {
    var d := Unlink(dom, q, c);
    forall m | 0 <= m < |d| && d[m].parent.Some?
      ensures d[m].parent.value < |d| && m in d[d[m].parent.value].children
    {
      var k := dom[m].parent.value;
      assert m in dom[k].children;
    }
  }

  lemma UnlinkDistinct(dom: Dom, q: NodeId, c: NodeId)
    requires Consistent(dom) && q < |dom| && c < |dom|
    ensures forall n :: 0 <= n < |dom| ==> Distinct(Unlink(dom, q, c)[n].children)
  {
    WithoutKeepsDistinct(dom[q].children, c);
  }

  /** Taking `c` out of its parent's list and clearing its parent link keeps the tree consistent. */
  lemma UnlinkConsistent(dom: Dom, q: NodeId, c: NodeId)
    requires Consistent(dom) && q < |dom| && c < |dom| && dom[c].parent == Some(q)
    ensures var d := Unlink(dom, q, c);
      Consistent(d) && forall n :: 0 <= n < |d| ==> c !in d[n].children
  {
    UnlinkChildLinks(dom, q, c);
    UnlinkParentLinks(dom, q, c);
    UnlinkDistinct(dom, q, c);
  }

  /** Detaching leaves a consistent tree in which `c` has no parent and is nobody's child. */
  lemma DetachConsistent(dom: Dom, c: NodeId)
    requires Consistent(dom) && c < |dom|
    ensures var d := Detach(dom, c);
      && Consistent(d) && d[c].parent == None && (forall n :: 0 <= n < |d| ==> c !in d[n].children)
      && (forall n :: 0 <= n < |d| && c !in dom[n].children ==> d[n].children == dom[n].children)
  {
    match dom[c].parent
    case Some(q) =>
      UnlinkConsistent(dom, q, c);
    case None =>
      forall n | 0 <= n < |dom| ensures c !in dom[n].children { }
  }

  /** The tree `appendChild` builds: `c` detached from wherever it was, then added last under `p`. */
  lemma AppendChildShape(dom: Dom, p: NodeId, c: NodeId)
    requires Consistent(dom) && p < |dom| && c < |dom| && p != c
    ensures var d := Detach(dom, c); var r := AppendChild(dom, p, c);
      && Consistent(d) && d[c].parent == None
      && (forall n :: 0 <= n < |d| ==> c !in d[n].children)
      && d[p].children == Without(dom[p].children, c)
      && r[p].children == d[p].children + [c] && r[c].parent == Some(p)
      && (forall m :: 0 <= m < |r| && m != c ==> r[m].parent == d[m].parent)
      && (forall n :: 0 <= n < |r| && n != p ==> r[n].children == d[n].children)
  {
    DetachConsistent(dom, c);
    DetachedParentList(dom, p, c);
    AppendOntoDetached(dom, p, c);
  }

  lemma DetachedParentList(dom: Dom, p: NodeId, c: NodeId)
    requires Consistent(dom) && p < |dom| && c < |dom| && p != c
    ensures Detach(dom, c)[p].children == Without(dom[p].children, c)
  {
    DetachConsistent(dom, c);
    if c in dom[p].children {
      OnlyParentLists(dom, c, p);
    } else {
      WithoutIdentity(dom[p].children, c);
    }
  }

  lemma AppendOntoDetached(dom: Dom, p: NodeId, c: NodeId)
    requires p < |dom| && c < |dom| && p != c
    ensures var d := Detach(dom, c); var r := AppendChild(dom, p, c);
      && r[p].children == d[p].children + [c] && r[c].parent == Some(p)
      && (forall m :: 0 <= m < |r| && m != c ==> r[m].parent == d[m].parent)
      && (forall n :: 0 <= n < |r| && n != p ==> r[n].children == d[n].children)
  {
  }

  lemma AppendChildLinks(dom: Dom, p: NodeId, c: NodeId)
    requires Consistent(dom) && p < |dom| && c < |dom| && p != c
    ensures ChildLinks(AppendChild(dom, p, c))
  {
    AppendChildShape(dom, p, c);
    var d := Detach(dom, c);
    var r := AppendChild(dom, p, c);
    forall n, i | 0 <= n < |r| && 0 <= i < |r[n].children|
      ensures r[n].children[i] < |r| && r[r[n].children[i]].parent == Some(n)
    {
      var x := r[n].children[i];
      if x != c {
        assert x in d[n].children;
        ChildLinkAt(d, n, x);
      }
    }
  }

  lemma AppendParentLinks(dom: Dom, p: NodeId, c: NodeId)
    requires Consistent(dom) && p < |dom| && c < |dom| && p != c
    ensures ParentLinks(AppendChild(dom, p, c))
  {
    AppendChildShape(dom, p, c);
    var d := Detach(dom, c);
    var r := AppendChild(dom, p, c);
    forall m | 0 <= m < |r| && r[m].parent.Some?
      ensures r[m].parent.value < |r| && m in r[r[m].parent.value].children
    {
      if m != c {
        assert m in d[d[m].parent.value].children;
      }
    }
  }

  /**
   * `appendChild` keeps parent and child links consistent, makes `c` the last
   * child of `p` and takes it out of every other child list.
   */
  lemma AppendChildConsistent(dom: Dom, p: NodeId, c: NodeId)
    requires Consistent(dom) && p < |dom| && c < |dom| && p != c
    ensures var r := AppendChild(dom, p, c);
      && Consistent(r)
      && r[c].parent == Some(p)
      && r[p].children == Without(dom[p].children, c) + [c]
      && (forall n :: 0 <= n < |r| && n != p ==> c !in r[n].children)
  {
    AppendChildShape(dom, p, c);
    AppendChildLinks(dom, p, c);
    AppendParentLinks(dom, p, c);
    var d := Detach(dom, c);
    var r := AppendChild(dom, p, c);
    forall n | 0 <= n < |r| ensures Distinct(r[n].children) {
      if n == p {
        assert Distinct(d[p].children) && c !in d[p].children;
      }
    }
  }

  /** `removeChild` keeps links consistent and leaves `c` detached and nobody's child. */
  lemma RemoveChildConsistent(dom: Dom, p: NodeId, c: NodeId)
    requires Consistent(dom) && p < |dom| && c < |dom| && Contains(dom, p, c)
    ensures var r := RemoveChild(dom, p, c);
      Consistent(r) && r[c].parent == None && forall n :: 0 <= n < |r| ==> c !in r[n].children
  {
    OnlyParentLists(dom, c, p);
    UnlinkConsistent(dom, p, c);
  }

  /** Replacing a node by one with the same parent and children keeps the tree consistent. */
  lemma RetouchConsistent(dom: Dom, n: NodeId, node: HostNode)
    requires Consistent(dom) && n < |dom| && node.parent == dom[n].parent && node.children == dom[n].children
    ensures Consistent(dom[n := node])
  {
    var d := dom[n := node];
    assert forall m :: 0 <= m < |dom| ==> d[m].children == dom[m].children && d[m].parent == dom[m].parent;
  }

  /** A new node has no links, so creating it keeps the tree consistent. */
  lemma CreateNodeConsistent(dom: Dom, kind: NodeKind)
    requires Consistent(dom)
    ensures Consistent(CreateNode(dom, kind).0)
  {
    var d := CreateNode(dom, kind).0;
    forall n, i | 0 <= n < |d| && 0 <= i < |d[n].children|
      ensures d[n].children[i] < |d| && d[d[n].children[i]].parent == Some(n)
    {
      ChildLinkAt(dom, n, dom[n].children[i]);
    }
  }
}

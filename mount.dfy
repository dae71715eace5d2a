/**
 * The two steps of `performUnitOfWork` that areact03 and areact04 share: the
 * props copied onto a new node (areact03/AReact.jsx:69-73,
 * areact04/AReact.jsx:82-86) and the `forEach` that turns `props.children`
 * into a `child`/`sibling` chain (areact03/AReact.jsx:82-98,
 * areact04/AReact.jsx:101-118).
 */
module Mount {
  import opened Wrappers
  import opened Elements
  import opened Keys
  import opened Host
  import opened Fibers

  // ---------------------------------------------------------------------------
  // Copying props onto a new node
  // ---------------------------------------------------------------------------

  /** The entries of `props` whose keys are in `keys` and pass `isProperty` (anything but `children`). */
  function CopiedOf(props: map<string, Value>, keys: set<string>): (m: map<string, Value>)
    ensures forall k :: k in m <==> k in props && k in keys && IsCopiedProp(k)
    ensures forall k :: k in m ==> m[k] == props[k]
  {
    map k | k in props && k in keys && IsCopiedProp(k) :: props[k]
  }

  /** Every entry of `props` but `children`. */
  function Copied(props: map<string, Value>): map<string, Value> {
    CopiedOf(props, props.Keys)
  }

  /**
   * `Object.keys(props).filter(isProperty).forEach(key => node[key] = props[key])`:
   * the node ends up with every prop but `children`, over what it had.
   */
  method CopyProps(dom: Dom, n: NodeId, props: map<string, Value>) returns (r: Dom)
    requires n < |dom|
    ensures r == dom[n := dom[n].(props := dom[n].props + Copied(props))]
  {
    r := dom;
    var keys := props.Keys;
    ghost var done: set<string> := {};
    assert dom[n].props + CopiedOf(props, done) == dom[n].props;
    while keys != {}
      invariant keys + done == props.Keys && keys !! done
      invariant r == dom[n := dom[n].(props := dom[n].props + CopiedOf(props, done))]
      decreases keys
    {
      var k :| k in keys;
      if IsCopiedProp(k) {
        r := SetProperty(r, n, k, props[k]);
      }
      assert dom[n].props + CopiedOf(props, done + {k})
          == (if IsCopiedProp(k) then (dom[n].props + CopiedOf(props, done))[k := props[k]]
              else dom[n].props + CopiedOf(props, done));
      keys := keys - {k};
      done := done + {k};
    }
    assert CopiedOf(props, done) == Copied(props);
  }

  /**
   * After the copy the node holds every prop but `children` as given, and
   * every other key as it was.
   */
  lemma CopiedProps(prior: map<string, Value>, props: map<string, Value>)
    ensures var m := prior + Copied(props);
      && (forall k :: k in props && k != ChildrenKey ==> k in m && m[k] == props[k])
      && (forall k :: k !in props || k == ChildrenKey ==> (k in m <==> k in prior) && (k in prior ==> m[k] == prior[k]))
  {
  }

  // ---------------------------------------------------------------------------
  // Linking the children
  // ---------------------------------------------------------------------------

  /** Reading `child.type` of `null` or `undefined` throws. */
  predicate Nullish(v: Value) {
    v.Null? || v.Undefined?
  }

  /** How many children the `forEach` links before it meets a `null` or `undefined` one. */
  function Linkable(children: seq<Value>): (k: nat)
    ensures k <= |children|
    ensures forall i :: 0 <= i < k ==> !Nullish(children[i])
    ensures k < |children| ==> Nullish(children[k])
  {
    if children == [] then 0
    else if Nullish(children[0]) then 0
    else
      var k := 1 + Linkable(children[1..]);
      assert forall i :: 1 <= i < k ==> children[i] == children[1..][i - 1];
      k
  }

  /**
   * The `i`-th of the first `k` child fibers of `f`: `{type: child.type,
   * stateNode: null, props: child.props, return: fiber}`, whose `sibling` is
   * the next one. A child that is not an element has no type (and no props).
   */
  function Kid(fs: seq<Fiber>, f: FiberId, children: seq<Value>, k: nat, i: nat): Fiber
    requires i < k <= |children|
  {
    Fiber(ChildType(children[i]), None, ChildProps(children[i]), Some(f), None, None,
          if i + 1 < k then Some(|fs| + i + 1) else None, NoEffect, [])
  }

  /** The arena after the `forEach` has linked the first `k` children of `f`. */
  function Kids(fs: seq<Fiber>, f: FiberId, children: seq<Value>, k: nat): (r: seq<Fiber>)
    requires f < |fs| && k <= |children|
    ensures |r| == |fs| + k
  {
    var top := if k > 0 then fs[f].(child := Some(|fs|)) else fs[f];
    fs[f := top] + seq(k, i requires 0 <= i < k => Kid(fs, f, children, k, i))
  }

  /** One more child linked: the previous one gets it as `sibling`, or `f` as `child`. */
  lemma KidsStep(fs: seq<Fiber>, f: FiberId, children: seq<Value>, k: nat)
    requires f < |fs| && k < |children|
    ensures var q := Kids(fs, f, children, k);
      var nf := Fiber(ChildType(children[k]), None, ChildProps(children[k]), Some(f), None, None, None, NoEffect, []);
      var linked := if k == 0 then q[f := q[f].(child := Some(|q|))] else q[|q| - 1 := q[|q| - 1].(sibling := Some(|q|))];
      Kids(fs, f, children, k + 1) == linked + [nf]
  {
    var q := Kids(fs, f, children, k);
    var nf := Fiber(ChildType(children[k]), None, ChildProps(children[k]), Some(f), None, None, None, NoEffect, []);
    var linked := if k == 0 then q[f := q[f].(child := Some(|q|))] else q[|q| - 1 := q[|q| - 1].(sibling := Some(|q|))];
    var r := Kids(fs, f, children, k + 1);
    forall y | 0 <= y < |r|
      ensures r[y] == (linked + [nf])[y]
    {
      if y >= |fs| {
        assert r[y] == Kid(fs, f, children, k + 1, y - |fs|);
        if y < |q| {
          assert q[y] == Kid(fs, f, children, k, y - |fs|);
        }
      }
    }
    assert |r| == |linked + [nf]|;
  }

  /**
   * `fiber.props.children.forEach(...)` (areact03/AReact.jsx:82-98,
   * areact04/AReact.jsx:101-118): a fiber per child, the first as `child`,
   * each later one as the `sibling` of the one before. A `null` or
   * `undefined` child throws: `ok` is false and the children before it stay
   * linked.
   */
  method LinkChildren(fs: seq<Fiber>, f: FiberId, children: seq<Value>) returns (fs': seq<Fiber>, ok: bool)
    requires f < |fs|
    ensures ok <==> Linkable(children) == |children|
    ensures fs' == Kids(fs, f, children, Linkable(children))
  {
    fs' := fs;
    var i := 0;
    while i < |children|
      invariant i <= Linkable(children)
      invariant fs' == Kids(fs, f, children, i)
    {
      var child := children[i];
      if child.Null? || child.Undefined? {
        return fs', false;
      }
      KidsStep(fs, f, children, i);
      var nf := Fiber(ChildType(child), None, ChildProps(child), Some(f), None, None, None, NoEffect, []);
      var id := |fs'|;
      if i == 0 {
        fs' := fs'[f := fs'[f].(child := Some(id))];
      } else {
        fs' := fs'[id - 1 := fs'[id - 1].(sibling := Some(id))];
      }
      fs' := fs' + [nf];
      i := i + 1;
    }
    ok := true;
  }

  /** Linking children keeps the arena linked. */
  lemma KidsLinked(fs: seq<Fiber>, f: FiberId, children: seq<Value>, k: nat)
    requires Linked(fs) && f < |fs| && k <= |children|
    ensures Linked(Kids(fs, f, children, k))
  {
    var q := Kids(fs, f, children, k);
    LinkedEveryFiber(fs);
    forall y | 0 <= y < |q|
      ensures LinkedFiber(q, y)
    {
      if y < |fs| {
        KidsLinkedOld(fs, f, children, k, y);
      } else {
        KidsLinkedNew(fs, f, children, k, y);
      }
    }
    LinkedEveryFiber(q);
  }

  /** A fiber that was there stays linked once the children are linked. */
  lemma KidsLinkedOld(fs: seq<Fiber>, f: FiberId, children: seq<Value>, k: nat, y: FiberId)
    requires f < |fs| && k <= |children| && y < |fs| && LinkedFiber(fs, y)
    ensures LinkedFiber(Kids(fs, f, children, k), y)
  {
    var q := Kids(fs, f, children, k);
    if k > 0 {
      assert q[|fs|] == Kid(fs, f, children, k, 0);
    }
  }

  /** A fiber made for a child is linked under `f`, before the next one. */
  lemma KidsLinkedNew(fs: seq<Fiber>, f: FiberId, children: seq<Value>, k: nat, y: FiberId)
    requires f < |fs| && k <= |children| && |fs| <= y < |fs| + k
    ensures LinkedFiber(Kids(fs, f, children, k), y)
  {
    var q := Kids(fs, f, children, k);
    assert q[y] == Kid(fs, f, children, k, y - |fs|);
    if y + 1 < |q| {
      assert q[y + 1] == Kid(fs, f, children, k, y + 1 - |fs|);
    }
  }

  /**
   * The linked children form the child chain of `f`, in `children` order:
   * fiber `|fs| + i` is made from `children[i]` and returns to `f`.
   */
  lemma KidsChain(fs: seq<Fiber>, f: FiberId, children: seq<Value>, k: nat)
    requires Linked(fs) && f < |fs| && 0 < k <= |children|
    ensures var q := Kids(fs, f, children, k);
      && Linked(q) && q[f].child == Some(|fs|)
      && Chain(q, q[f].child) == seq(k, i => |fs| + i)
      && forall i :: 0 <= i < k ==>
           q[|fs| + i].ty == ChildType(children[i]) && q[|fs| + i].props == ChildProps(children[i])
           && q[|fs| + i].ret == Some(f) && q[|fs| + i].stateNode.None?
  {
    var q := Kids(fs, f, children, k);
    var s := seq(k, i => |fs| + i);
    KidsLinked(fs, f, children, k);
    KidsChained(fs, f, children, k);
    assert OldAt(s, 0) == Some(|fs|);
    ChainedIsChain(q, s);
    KidsFields(fs, f, children, k);
  }

  /** The fibers made for the children are chained by their `sibling` links, in order. */
  lemma KidsChained(fs: seq<Fiber>, f: FiberId, children: seq<Value>, k: nat)
    requires f < |fs| && k <= |children|
    ensures ChainedBy(Kids(fs, f, children, k), seq(k, i => |fs| + i))
  {
    var q := Kids(fs, f, children, k);
    var s := seq(k, i => |fs| + i);
    forall t | 0 <= t < |s|
      ensures s[t] < |q| && q[s[t]].sibling == OldAt(s, t + 1)
    {
      assert q[s[t]] == Kid(fs, f, children, k, t);
    }
  }

  /** Fiber `|fs| + i` carries the type and props of `children[i]`, returns to `f` and has no node. */
  lemma KidsFields(fs: seq<Fiber>, f: FiberId, children: seq<Value>, k: nat)
    requires f < |fs| && k <= |children|
    ensures var q := Kids(fs, f, children, k);
      forall i :: 0 <= i < k ==>
        q[|fs| + i].ty == ChildType(children[i]) && q[|fs| + i].props == ChildProps(children[i])
        && q[|fs| + i].ret == Some(f) && q[|fs| + i].stateNode.None?
  {
    var q := Kids(fs, f, children, k);
    forall i | 0 <= i < k
      ensures q[|fs| + i].ty == ChildType(children[i]) && q[|fs| + i].props == ChildProps(children[i])
      ensures q[|fs| + i].ret == Some(f) && q[|fs| + i].stateNode.None?
    {
      assert q[|fs| + i] == Kid(fs, f, children, k, i);
    }
  }

  /** Fibers other than `f` keep everything; `f` only gains a `child` when there is one. */
  lemma KidsFrame(fs: seq<Fiber>, f: FiberId, children: seq<Value>, k: nat)
    requires f < |fs| && k <= |children|
    ensures var q := Kids(fs, f, children, k);
      && (forall y :: 0 <= y < |fs| && y != f ==> q[y] == fs[y])
      && q[f] == (if k > 0 then fs[f].(child := Some(|fs|)) else fs[f])
  {
  }

  /** Linked children keep every node a fiber owns in the host tree. */
  lemma KidsNodes(fs: seq<Fiber>, dom: Dom, f: FiberId, children: seq<Value>, k: nat)
    requires NodesIn(fs, dom) && f < |fs| && k <= |children|
    ensures NodesIn(Kids(fs, f, children, k), dom)
  {
    var q := Kids(fs, f, children, k);
    forall y | 0 <= y < |q| && q[y].stateNode.Some?
      ensures q[y].stateNode.value < |dom|
    {
    }
  }

  // ---------------------------------------------------------------------------
  // One unit of work, in the three steps areact03 and areact04 share
  // ---------------------------------------------------------------------------

  /** What the renderers of areact03 and areact04 change: the fibers and the host tree. */
  datatype Tree = Tree(fs: seq<Fiber>, dom: Dom)

  /** The fibers are linked and every node they own is in the host tree. */
  ghost predicate TreeValid(t: Tree) {
    Linked(t.fs) && NodesIn(t.fs, t.dom)
  }

  /** A step that either completes (`ok`) or throws, with the data as it stands then. */
  datatype Made = Made(ok: bool, t: Tree)

  /** The outcome of a unit of work: whether it completed, the data, and the next fiber. */
  datatype Unit = Unit(ok: bool, t: Tree, next: Option<FiberId>)

  /**
   * `if (!fiber.stateNode) { ... }` (areact03/AReact.jsx:63-74,
   * areact04/AReact.jsx:76-87): a fiber without a node gets a new one, a text
   * node for "HostText" and an element named by its type otherwise, holding
   * every prop but `children`. A function type throws in `createElement`
   * before anything changes (its source text is not a tag name). A fiber
   * made from a child that is not an element has `props` undefined: the node
   * is created and assigned, then `Object.keys` throws.
   */
  function MakeNode(t: Tree, x: FiberId): (r: Made)
    requires x < |t.fs|
    ensures |r.t.fs| == |t.fs| && |t.dom| <= |r.t.dom|
    ensures r.ok <==> t.fs[x].stateNode.Some? || (!IsComponent(t.fs[x]) && t.fs[x].ty.Some?)
    ensures !IsComponent(t.fs[x]) ==> r.t.fs[x].stateNode.Some?
  {
    var f := t.fs[x];
    if f.stateNode.Some? then Made(true, t)
    else if IsComponent(f) then Made(false, t)
    else
      var (d, n) := CreateNode(t.dom, KindOf(f.ty));
      var fs := t.fs[x := f.(stateNode := Some(n))];
      if f.ty.None? then Made(false, Tree(fs, d))
      else Made(true, Tree(fs, d[n := d[n].(props := d[n].props + Copied(f.props))]))
  }

  /**
   * What `MakeNode` does to a fiber without a node: when it completes, the
   * fiber owns a new last node of the kind its type names, holding exactly
   * the props but `children`, with no parent and no children; nothing else
   * changes. It fails exactly for a function type or a fiber that has no type.
   */
  lemma MakeNodeNew(t: Tree, x: FiberId)
    requires x < |t.fs| && t.fs[x].stateNode.None?
    ensures var m := MakeNode(t, x); var f := t.fs[x];
      && (m.ok <==> f.ty.Some? && !IsComponent(f))
      && (m.ok ==>
            && m.t.fs == t.fs[x := f.(stateNode := Some(|t.dom|))]
            && m.t.dom[..|t.dom|] == t.dom && |m.t.dom| == |t.dom| + 1
            && m.t.dom[|t.dom|] == HostNode(KindOf(f.ty), Copied(f.props), {}, None, []))
  {
    var m := MakeNode(t, x);
    if m.ok {
      assert m.t.dom[..|t.dom|] == t.dom;
    }
  }

  /** A fiber that owns a node is left alone. */
  lemma MakeNodeKeeps(t: Tree, x: FiberId)
    requires x < |t.fs| && t.fs[x].stateNode.Some?
    ensures MakeNode(t, x) == Made(true, t)
  {
  }

  /** Making a node keeps the data valid, and the fiber owns a node when it completes. */
  lemma MakeNodeValid(t: Tree, x: FiberId)
    requires TreeValid(t) && x < |t.fs|
    ensures var m := MakeNode(t, x);
      && TreeValid(m.t) && |m.t.fs| == |t.fs| && |t.dom| <= |m.t.dom|
      && (m.ok ==> m.t.fs[x].stateNode.Some?)
      && forall y :: 0 <= y < |t.fs| && y != x ==> m.t.fs[y] == t.fs[y]
  {
    var m := MakeNode(t, x);
    var f := t.fs[x];
    if f.stateNode.None? && !IsComponent(f) {
      var g := f.(stateNode := Some(|t.dom|));
      RelabelLinked(t.fs, x, g);
      assert m.t.fs == t.fs[x := g];
    }
  }

  /**
   * `parent.stateNode.appendChild(fiber.stateNode)` once the source has
   * settled on the parent fiber: none (the climb ran off the top) or one
   * without a node throws a TypeError.
   */
  function Attach(t: Tree, x: FiberId, parent: Option<FiberId>): (r: Made)
    requires x < |t.fs| && InArena(t.fs, parent) && NodesIn(t.fs, t.dom) && t.fs[x].stateNode.Some?
    ensures r.t.fs == t.fs && |r.t.dom| == |t.dom|
    ensures r.ok <==> parent.Some? && t.fs[parent.value].stateNode.Some?
  {
    if parent.None? || t.fs[parent.value].stateNode.None? then Made(false, t)
    else Made(true, Tree(t.fs, AppendChild(t.dom, t.fs[parent.value].stateNode.value, t.fs[x].stateNode.value)))
  }

  /**
   * A completed attach makes the fiber's node the last child of the parent's
   * node and keeps the host tree consistent, as long as the two nodes differ.
   */
  lemma AttachAppends(t: Tree, x: FiberId, parent: Option<FiberId>)
    requires x < |t.fs| && InArena(t.fs, parent) && NodesIn(t.fs, t.dom) && t.fs[x].stateNode.Some?
    requires Consistent(t.dom) && parent.Some? && t.fs[parent.value].stateNode.Some?
    requires t.fs[parent.value].stateNode != t.fs[x].stateNode
    ensures var m := Attach(t, x, parent); var p := t.fs[parent.value].stateNode.value; var c := t.fs[x].stateNode.value;
      && m.ok && m.t.fs == t.fs && Consistent(m.t.dom)
      && m.t.dom[c].parent == Some(p) && m.t.dom[p].children == Without(t.dom[p].children, c) + [c]
  {
    AppendChildConsistent(t.dom, t.fs[parent.value].stateNode.value, t.fs[x].stateNode.value);
  }

  /**
   * Making a node for a host fiber and attaching it under a fiber that owns
   * one: the new last node holds the fiber's kind and props and becomes the
   * last child of the parent's node, and the tree stays consistent.
   */
  lemma MakeAttachFresh(t: Tree, x: FiberId, h: Option<FiberId>)
    requires x < |t.fs| && NodesIn(t.fs, t.dom) && Consistent(t.dom)
    requires t.fs[x].stateNode.None? && t.fs[x].ty.Some? && !IsComponent(t.fs[x])
    requires InArena(t.fs, h) && h.Some? && t.fs[h.value].stateNode.Some?
    ensures var m := MakeNode(t, x); var a := Attach(m.t, x, h); var f := t.fs[x];
      var n := |t.dom|; var p := t.fs[h.value].stateNode.value;
      && m.ok && a.ok && a.t.fs == m.t.fs && |a.t.dom| == n + 1 && Consistent(a.t.dom)
      && a.t.dom[n].kind == KindOf(f.ty) && a.t.dom[n].props == Copied(f.props)
      && a.t.dom[n].parent == Some(p) && a.t.dom[p].children == t.dom[p].children + [n]
  {
    var f := t.fs[x];
    var n := |t.dom|;
    var m := MakeNode(t, x);
    MakeNodeNew(t, x);
    var p := t.fs[h.value].stateNode.value;
    assert p < n;
    CreateNodeConsistent(t.dom, KindOf(f.ty));
    var c := CreateNode(t.dom, KindOf(f.ty)).0;
    var d := m.t.dom;
    RetouchConsistent(c, n, d[n]);
    assert d == c[n := d[n]];
    assert m.t.fs[h.value].stateNode == Some(p) && m.t.fs[x].stateNode == Some(n);
    AttachAppends(m.t, x, h);
    assert n !in d[p].children;
    WithoutIdentity(d[p].children, n);
  }

  /** Attaching keeps the data valid. */
  lemma AttachValid(t: Tree, x: FiberId, parent: Option<FiberId>)
    requires TreeValid(t) && x < |t.fs| && InArena(t.fs, parent) && t.fs[x].stateNode.Some?
    ensures var m := Attach(t, x, parent); TreeValid(m.t) && m.t.fs == t.fs && |m.t.dom| == |t.dom|
  {
  }

  /**
   * `fiber.props.children.forEach(...)` then `return getNextFiber(fiber)`
   * (areact03/AReact.jsx:82-101, areact04/AReact.jsx:101-121). `children`
   * that is not an array throws a TypeError; so does a `null` or `undefined`
   * child, once the children before it are linked. A failed unit leaves the
   * cursor on the fiber.
   */
  ghost function LinkAll(t: Tree, x: FiberId): (u: Unit)
    requires TreeValid(t) && x < |t.fs|
    ensures TreeValid(u.t) && InArena(u.t.fs, u.next) && |t.fs| <= |u.t.fs| && u.t.dom == t.dom
  {
    var props := t.fs[x].props;
    if ChildrenKey !in props || !props[ChildrenKey].Array? then Unit(false, t, Some(x))
    else
      var items := props[ChildrenKey].items;
      var k := Linkable(items);
      var q := Kids(t.fs, x, items, k);
      KidsLinked(t.fs, x, items, k);
      KidsNodes(t.fs, t.dom, x, items, k);
      if k < |items| then Unit(false, Tree(q, t.dom), Some(x))
      else Unit(true, Tree(q, t.dom), NextFiber(q, x))
  }

  /**
   * The unit `u` on fiber `x` made one new fiber per entry of `items`, at
   * `n`, `n + 1`, ..., as `x`'s child chain in order, each with the entry's
   * type and props, `x` as `return` and no node yet, and moves on to the first.
   */
  ghost predicate LinkedKids(u: Unit, x: FiberId, n: nat, items: seq<Value>) {
    && TreeValid(u.t) && x < |u.t.fs| && n + |items| <= |u.t.fs|
    && u.next == Some(n)
    && InArena(u.t.fs, u.t.fs[x].child)
    && Chain(u.t.fs, u.t.fs[x].child) == seq(|items|, i => n + i)
    && forall i :: 0 <= i < |items| ==>
         && u.t.fs[n + i].ty == ChildType(items[i]) && u.t.fs[n + i].props == ChildProps(items[i])
         && u.t.fs[n + i].ret == Some(x) && u.t.fs[n + i].stateNode.None?
  }

  /**
   * Linking completes exactly when `children` is an array with no `null` or
   * `undefined` entry; then the fiber's child chain is one new fiber per
   * entry, in order, and the next fiber is the first child when there is one.
   */
  lemma LinkAllChildren(t: Tree, x: FiberId)
    requires TreeValid(t) && x < |t.fs|
    ensures var u := LinkAll(t, x); var props := t.fs[x].props;
      && (u.ok <==> ChildrenKey in props && props[ChildrenKey].Array?
                    && forall i :: 0 <= i < |props[ChildrenKey].items| ==> !Nullish(props[ChildrenKey].items[i]))
      && (!u.ok ==> u.next == Some(x))
      && (u.ok && props[ChildrenKey].items != [] ==> LinkedKids(u, x, |t.fs|, props[ChildrenKey].items))
  {
    var props := t.fs[x].props;
    if ChildrenKey in props && props[ChildrenKey].Array? {
      var items := props[ChildrenKey].items;
      var k := Linkable(items);
      if k == |items| && items != [] {
        KidsChain(t.fs, x, items, k);
      }
    }
  }

  /** The `if (!fiber.stateNode)` block (areact03/AReact.jsx:63-74, areact04/AReact.jsx:76-87). */
  method MakeFiberNode(t: Tree, x: FiberId) returns (m: Made)
    requires x < |t.fs|
    ensures m == MakeNode(t, x)
  {
    var fs, dom := t.fs, t.dom;
    if fs[x].stateNode.Some? {
      return Made(true, t);
    }
    if IsComponent(fs[x]) {
      return Made(false, t);
    }
    var r := CreateNode(dom, KindOf(fs[x].ty));
    fs, dom := fs[x := fs[x].(stateNode := Some(r.1))], r.0;
    if fs[x].ty.None? {
      return Made(false, Tree(fs, dom));
    }
    dom := CopyProps(dom, r.1, fs[x].props);
    m := Made(true, Tree(fs, dom));
  }

  /**
   * `fiber.props.children.forEach(...)` and `return getNextFiber(fiber)`
   * (areact03/AReact.jsx:82-101, areact04/AReact.jsx:101-121).
   */
  method LinkFiberChildren(t: Tree, x: FiberId) returns (u: Unit)
    requires TreeValid(t) && x < |t.fs|
    ensures u == LinkAll(t, x)
  {
    var props := t.fs[x].props;
    if ChildrenKey !in props || !props[ChildrenKey].Array? {
      return Unit(false, t, Some(x));
    }
    var fs, linked := LinkChildren(t.fs, x, props[ChildrenKey].items);
    KidsLinked(t.fs, x, props[ChildrenKey].items, Linkable(props[ChildrenKey].items));
    if !linked {
      return Unit(false, Tree(fs, t.dom), Some(x));
    }
    var next := GetNextFiber(fs, x);
    u := Unit(true, Tree(fs, t.dom), next);
  }
}

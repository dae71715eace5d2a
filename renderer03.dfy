/**
 * The first fiber renderer, areact03 (areact03/AReact.jsx:61-135): host
 * elements only. Each unit of work creates the fiber's node, copies its
 * props, appends it straight to the node of the fiber's `return`, links the
 * fiber's children and moves on in preorder. There is no commit phase: the
 * host tree grows while the loop runs.
 */
module Renderer03 {
  import opened Wrappers
  import opened Elements
  import opened Fibers
  import opened Host
  import opened Mount

  /**
   * `performUnitOfWork(x)` (areact03/AReact.jsx:61-102): make the node, append
   * it to the node of `x.return` when there is a `return`, link the children
   * and return `getNextFiber(x)`. A unit that throws leaves the cursor on `x`.
   */
  ghost function Perform(t: Tree, x: FiberId): (u: Unit)
    requires TreeValid(t) && x < |t.fs|
    ensures TreeValid(u.t) && InArena(u.t.fs, u.next) && |t.fs| <= |u.t.fs|
  {
    var m := MakeNode(t, x);
    MakeNodeValid(t, x);
    if !m.ok then Unit(false, m.t, Some(x))
    else
      var r := m.t.fs[x].ret;
      AttachValid(m.t, x, r);
      var a := if r.None? then m else Attach(m.t, x, r);
      if !a.ok then Unit(false, a.t, Some(x)) else LinkAll(a.t, x)
  }

  /**
   * The data after each stage of a unit of work that gets that far: after
   * the node is made, and after it is appended. Neither stage touches the
   * fiber's type, props or links.
   */
  lemma Stages(t: Tree, x: FiberId) returns (m: Made, a: Made)
    requires TreeValid(t) && x < |t.fs|
    ensures m == MakeNode(t, x) && TreeValid(m.t) && |m.t.fs| == |t.fs|
    ensures var f := t.fs[x]; var g := m.t.fs[x];
      g.ty == f.ty && g.props == f.props && g.ret == f.ret && g.child == f.child && g.sibling == f.sibling
    ensures t.fs[x].ret.Some? ==> m.t.fs[t.fs[x].ret.value] == t.fs[t.fs[x].ret.value]
    ensures m.ok ==>
      && m.t.fs[x].stateNode.Some? && TreeValid(a.t) && a.t.fs == m.t.fs
      && a == (if t.fs[x].ret.None? then m else Attach(m.t, x, t.fs[x].ret))
    ensures m.ok ==> Perform(t, x) == if !a.ok then Unit(false, a.t, Some(x)) else LinkAll(a.t, x)
  {
    m := MakeNode(t, x);
    MakeNodeValid(t, x);
    a := m;
    if m.ok {
      var r := m.t.fs[x].ret;
      AttachValid(m.t, x, r);
      a := if r.None? then m else Attach(m.t, x, r);
    }
  }

  /**
   * A unit of work completes exactly when the fiber can have a node (it has
   * one, or has a tag type), its `return` (if any) owns a node, and its
   * `children` is an array of non-null entries; then the fiber owns a node.
   * A failed unit leaves the cursor on the fiber.
   */
  lemma PerformOk(t: Tree, x: FiberId)
    requires TreeValid(t) && x < |t.fs|
    ensures var u := Perform(t, x); var f := t.fs[x];
      && (u.ok <==>
            && (f.stateNode.Some? || (f.ty.Some? && !IsComponent(f)))
            && (f.ret.Some? ==> t.fs[f.ret.value].stateNode.Some?)
            && ChildrenKey in f.props && f.props[ChildrenKey].Array?
            && forall i :: 0 <= i < |f.props[ChildrenKey].items| ==> !Nullish(f.props[ChildrenKey].items[i]))
      && (!u.ok ==> u.next == Some(x))
      && (u.ok ==> u.t.fs[x].stateNode.Some?)
  {
    var m, a := Stages(t, x);
    if t.fs[x].stateNode.None? {
      MakeNodeNew(t, x);
    }
    if m.ok && a.ok {
      LinkAllChildren(a.t, x);
      var props := t.fs[x].props;
      if ChildrenKey in props && props[ChildrenKey].Array? {
        KidsFrame(a.t.fs, x, props[ChildrenKey].items, Linkable(props[ChildrenKey].items));
      }
    }
  }

  /**
   * A completed unit of work on a fiber with children makes one new fiber
   * per child, in order, as the fiber's child chain, each with the child's
   * type and props and the fiber as `return`; the next unit is the first child.
   */
  lemma PerformChildren(t: Tree, x: FiberId)
    requires TreeValid(t) && x < |t.fs|
    ensures var u := Perform(t, x); var props := t.fs[x].props;
      u.ok && ChildrenKey in props && props[ChildrenKey].Array? && props[ChildrenKey].items != [] ==>
        LinkedKids(u, x, |t.fs|, props[ChildrenKey].items)
  {
    var m, a := Stages(t, x);
    if m.ok && a.ok {
      assert a.t.fs[x].props == t.fs[x].props && |a.t.fs| == |t.fs|;
      LinkAllChildren(a.t, x);
      assert Perform(t, x) == LinkAll(a.t, x);
    }
  }

  /**
   * A fiber without a node, under a `return` that owns one: when the unit
   * completes, the fiber owns a new node of the kind its type names, holding
   * every prop but `children`, and that node is the last child of the node
   * of `return`. The host tree stays consistent.
   */
  lemma PerformMountsUnderReturn(t: Tree, x: FiberId)
    requires TreeValid(t) && x < |t.fs| && Consistent(t.dom)
    requires t.fs[x].stateNode.None? && t.fs[x].ret.Some?
    ensures var u := Perform(t, x); var f := t.fs[x]; var n := |t.dom|;
      u.ok ==>
        var p := t.fs[f.ret.value].stateNode.value;
        && u.t.fs[x].stateNode == Some(n) && |u.t.dom| == n + 1 && Consistent(u.t.dom)
        && u.t.dom[n].kind == KindOf(f.ty) && u.t.dom[n].props == Copied(f.props)
        && u.t.dom[n].parent == Some(p) && u.t.dom[p].children == t.dom[p].children + [n]
  {
    var u := Perform(t, x);
    var f := t.fs[x];
    var n := |t.dom|;
    MakeNodeNew(t, x);
    MakeNodeValid(t, x);
    var m := MakeNode(t, x);
    if u.ok {
      var r := f.ret;
      assert m.t.fs[x].ret == r;
      var p := t.fs[r.value].stateNode.value;
      assert m.t.fs[r.value] == t.fs[r.value];
      assert p < n;
      CreateNodeConsistent(t.dom, KindOf(f.ty));
      var c := CreateNode(t.dom, KindOf(f.ty)).0;
      var d := m.t.dom;
      RetouchConsistent(c, n, d[n]);
      assert d == c[n := d[n]];
      AttachAppends(m.t, x, r);
      assert n !in d[p].children;
      WithoutIdentity(d[p].children, n);
    }
  }

  /** A fiber that already owns a node and has no `return` (the root) keeps the host tree as it is. */
  lemma PerformRootKeepsTree(t: Tree, x: FiberId)
    requires TreeValid(t) && x < |t.fs| && t.fs[x].stateNode.Some? && t.fs[x].ret.None?
    ensures Perform(t, x).t.dom == t.dom
  {
  }

  /**
   * `while (workInProgress)` in `workloop()` (areact03/AReact.jsx:104-108),
   * for at most `fuel` units of work.
   */
  ghost function Loop(t: Tree, cur: Option<FiberId>, fuel: nat): (u: Unit)
    requires TreeValid(t) && InArena(t.fs, cur)
    ensures TreeValid(u.t) && InArena(u.t.fs, u.next) && |t.fs| <= |u.t.fs|
    decreases fuel, 1
  {
    if cur.None? || fuel == 0 then Unit(true, t, cur) else Turn(t, cur.value, fuel)
  }

  /** One turn of the loop: `workInProgress = performUnitOfWork(workInProgress)`, then on. */
  ghost function Turn(t: Tree, x: FiberId, fuel: nat): (u: Unit)
    requires TreeValid(t) && x < |t.fs| && fuel > 0
    ensures TreeValid(u.t) && InArena(u.t.fs, u.next) && |t.fs| <= |u.t.fs|
    decreases fuel, 0
  {
    var u := Perform(t, x);
    if !u.ok then u else Loop(u.t, u.next, Spend(fuel))
  }

  class Renderer03 {
    var fibers: seq<Fiber>
    var dom: Dom
    /** `workInProgress`. */
    var wip: Option<FiberId>
    /** `_internalRoot.current`. */
    var current: Option<FiberId>
    /** `containerInfo`. */
    const container: NodeId

    ghost function State(): Tree
      reads this
    {
      Tree(fibers, dom)
    }

    ghost predicate Valid()
      reads this
    {
      TreeValid(State()) && container < |dom| && InArena(fibers, wip) && InArena(fibers, current)
    }

    /** `createRoot(container)`: no fibers yet. */
    constructor(dom0: Dom, container: NodeId)
      requires container < |dom0|
      ensures Valid()
      ensures fibers == [] && dom == dom0 && wip.None? && current.None? && this.container == container
    {
      fibers, dom, wip, current := [], dom0, None, None;
      this.container := container;
    }

    /**
     * `render(element)` (areact03/AReact.jsx:120-134): a root fiber on the
     * container with `children: [element]`, held as the alternate of a new
     * `current`, becomes the next unit of work.
     */
    method Render(element: Value)
      requires Valid()
      modifies this
      ensures Valid()
      ensures var n := |old(fibers)|;
        fibers == RenderRoots(old(fibers), container, element) && current == Some(n + 1) && wip == Some(n)
      ensures dom == old(dom)
    {
      var n := |fibers|;
      RenderRootsLinked(fibers, container, element);
      fibers, current, wip := RenderRoots(fibers, container, element), Some(n + 1), Some(n);
    }

    /**
     * `performUnitOfWork(x)` (areact03/AReact.jsx:61-102). A thrown error
     * leaves `ok` false, the data as it stood and the cursor on `x`.
     */
    method PerformUnitOfWork(x: FiberId) returns (ok: bool, next: Option<FiberId>)
      requires Valid() && x < |fibers|
      modifies this
      ensures Valid() && wip == old(wip) && current == old(current)
      ensures var u := Perform(old(State()), x); ok == u.ok && State() == u.t && next == u.next
    {
      ghost var t0 := State();
      var m := MakeFiberNode(Tree(fibers, dom), x);
      MakeNodeValid(t0, x);
      fibers, dom := m.t.fs, m.t.dom;
      if !m.ok {
        return false, Some(x);
      }
      if fibers[x].ret.Some? {
        var p := fibers[x].ret.value;
        if fibers[p].stateNode.None? {
          assert Perform(t0, x) == Unit(false, m.t, Some(x));
          return false, Some(x);
        }
        dom := AppendChild(dom, fibers[p].stateNode.value, fibers[x].stateNode.value);
        assert State() == Attach(m.t, x, m.t.fs[x].ret).t;
      }
      assert Perform(t0, x) == LinkAll(State(), x);
      var u := LinkFiberChildren(Tree(fibers, dom), x);
      fibers, dom, ok, next := u.t.fs, u.t.dom, u.ok, u.next;
    }

    /** `goal` is what `left` more turns of the loop from here lead to. */
    ghost predicate OnTrack(goal: Unit, left: nat)
      requires Valid()
      reads this
    {
      goal == Loop(Tree(fibers, dom), wip, left)
    }

    /** One turn of `while (workInProgress)` (areact03/AReact.jsx:105-107). */
    method Advance(ghost goal: Unit, ghost left: nat) returns (done: bool)
      requires Valid() && wip.Some? && left > 0 && OnTrack(goal, left)
      modifies this
      ensures Valid() && current == old(current)
      ensures done ==> OnTrack(goal, Spend(left))
      ensures !done ==> goal == Unit(false, Tree(fibers, dom), wip)
    {
      assert Loop(State(), wip, left) == Turn(State(), wip.value, left);
      var next;
      done, next := PerformUnitOfWork(wip.value);
      wip := next;
    }

    /**
     * `workloop()` (areact03/AReact.jsx:104-108), for at most `fuel` units of
     * work. A failing unit ends the loop with the cursor on it.
     */
    method Workloop(fuel: nat) returns (ok: bool)
      requires Valid()
      modifies this
      ensures Valid() && current == old(current)
      ensures var u := Loop(old(State()), old(wip), fuel); ok == u.ok && State() == u.t && wip == u.next
    {
      ghost var goal := Loop(State(), wip, fuel);
      var left := fuel;
      while wip.Some? && left > 0
        invariant Valid() && current == old(current)
        invariant OnTrack(goal, left)
        decreases left
      {
        var done := Advance(goal, left);
        if !done {
          return false;
        }
        left := Spend(left);
      }
      ok := true;
    }
  }
}

/**
 * The fiber renderer of areact04 (areact04/AReact.jsx:61-155): areact03 plus
 * function components. A component fiber gets no node; its `children` become
 * `[type(props)]`. A host fiber's node is appended to the node of its nearest
 * ancestor that owns one, climbing over component fibers. As in areact03 there
 * is no commit phase.
 */
module Renderer04 {
  import opened Wrappers
  import opened Elements
  import opened Fibers
  import opened Host
  import opened Mount
  import Renderer03

  /** A function component of areact04: what it returns for given props. */
  type Component = map<string, Value> -> Value

  /**
   * `fiber.props.children = [fiber.type(fiber.props)]`
   * (areact04/AReact.jsx:71-73): the component is called with the props as
   * they are, and its result becomes the only child.
   */
  function CallComponent(lib: ComponentId -> Component, t: Tree, x: FiberId): (r: Tree)
    requires x < |t.fs| && IsComponent(t.fs[x])
    ensures |r.fs| == |t.fs| && r.dom == t.dom
    ensures ChildrenKey in r.fs[x].props && r.fs[x].props[ChildrenKey] == Array([lib(t.fs[x].ty.value.id)(t.fs[x].props)])
    ensures forall y :: 0 <= y < |t.fs| && y != x ==> r.fs[y] == t.fs[y]
  {
    var f := t.fs[x];
    Tree(t.fs[x := f.(props := f.props[ChildrenKey := Array([lib(f.ty.value.id)(f.props)])])], t.dom)
  }

  /** Calling a component keeps the data valid and changes only the fiber's props. */
  lemma CallComponentValid(lib: ComponentId -> Component, t: Tree, x: FiberId)
    requires TreeValid(t) && x < |t.fs| && IsComponent(t.fs[x])
    ensures var c := CallComponent(lib, t, x); var f := t.fs[x];
      && TreeValid(c) && c.dom == t.dom && |c.fs| == |t.fs|
      && c.fs[x] == f.(props := f.props[ChildrenKey := Array([lib(f.ty.value.id)(f.props)])])
      && forall y :: 0 <= y < |t.fs| && y != x ==> c.fs[y] == t.fs[y]
  {
    var f := t.fs[x];
    LinkedEveryFiber(t.fs);
    assert LinkedFiber(t.fs, x);
    RelabelLinked(t.fs, x, f.(props := f.props[ChildrenKey := Array([lib(f.ty.value.id)(f.props)])]));
  }

  /**
   * The climb from `r` gives the same fiber in two arenas that differ only
   * at `x` below it.
   */
  lemma {:induction false} NearestHostFrame(fs: seq<Fiber>, g: seq<Fiber>, x: FiberId, r: Option<FiberId>)
    requires Linked(fs) && Linked(g) && |g| == |fs| && x < |fs| && InArena(fs, r)
    requires forall y :: 0 <= y < |fs| && y != x ==> g[y] == fs[y]
    requires r.Some? ==> r.value < x
    ensures NearestHost(g, r) == NearestHost(fs, r)
    decreases Height(r)
  {
    if r.Some? {
      var n := r.value;
      assert g[n] == fs[n];
      if fs[n].stateNode.None? {
        LinkedEveryFiber(fs);
        assert LinkedFiber(fs, n);
        NearestHostFrame(fs, g, x, fs[n].ret);
      }
    }
  }

  /**
   * `performUnitOfWork(x)` (areact04/AReact.jsx:61-122): a component gets
   * its result as `children`; a host fiber gets its node, appended to the
   * node of the nearest ancestor that owns one (when it has a `return`);
   * then the children are linked and `getNextFiber(x)` is returned. When the
   * climb runs off the top the source reads `stateNode` of `undefined`.
   */
  ghost function Perform(lib: ComponentId -> Component, t: Tree, x: FiberId): (u: Unit)
    requires TreeValid(t) && x < |t.fs|
    ensures TreeValid(u.t) && InArena(u.t.fs, u.next) && |t.fs| <= |u.t.fs|
  {
    if IsComponent(t.fs[x]) then
      CallComponentValid(lib, t, x);
      LinkAll(CallComponent(lib, t, x), x)
    else
      var m := MakeNode(t, x);
      MakeNodeValid(t, x);
      if !m.ok then Unit(false, m.t, Some(x))
      else
        var r := m.t.fs[x].ret;
        var a := if r.None? then m else Attach(m.t, x, NearestHost(m.t.fs, r));
        AttachValid(m.t, x, if r.None? then None else NearestHost(m.t.fs, r));
        if !a.ok then Unit(false, a.t, Some(x)) else LinkAll(a.t, x)
  }

  /**
   * The data after each stage of a unit of work on a host fiber that gets
   * that far: after the node is made, and after it is appended. Neither
   * stage touches the fiber's type, props or links, nor the climb.
   */
  lemma HostStages(lib: ComponentId -> Component, t: Tree, x: FiberId) returns (m: Made, a: Made)
    requires TreeValid(t) && x < |t.fs| && !IsComponent(t.fs[x])
    ensures m == MakeNode(t, x) && TreeValid(m.t) && |m.t.fs| == |t.fs|
    ensures var f := t.fs[x]; var g := m.t.fs[x];
      g.ty == f.ty && g.props == f.props && g.ret == f.ret && g.child == f.child && g.sibling == f.sibling
    ensures m.ok && t.fs[x].ret.Some? ==>
      && NearestHost(m.t.fs, t.fs[x].ret) == NearestHost(t.fs, t.fs[x].ret)
      && (NearestHost(t.fs, t.fs[x].ret).Some? ==>
            m.t.fs[NearestHost(t.fs, t.fs[x].ret).value] == t.fs[NearestHost(t.fs, t.fs[x].ret).value])
    ensures m.ok ==>
      && m.t.fs[x].stateNode.Some? && TreeValid(a.t) && a.t.fs == m.t.fs
      && a == (if t.fs[x].ret.None? then m else Attach(m.t, x, NearestHost(t.fs, t.fs[x].ret)))
    ensures m.ok ==> Perform(lib, t, x) == if !a.ok then Unit(false, a.t, Some(x)) else LinkAll(a.t, x)
    ensures !m.ok ==> Perform(lib, t, x) == Unit(false, m.t, Some(x))
  {
    m := MakeNode(t, x);
    MakeNodeValid(t, x);
    a := m;
    if m.ok {
      var r := t.fs[x].ret;
      if r.Some? {
        LinkedEveryFiber(t.fs);
        assert LinkedFiber(t.fs, x);
        NearestHostFrame(t.fs, m.t.fs, x, r);
        NearestHostFinds(t.fs, r);
        var h := NearestHost(t.fs, r);
        if h.Some? {
          var k :| 0 <= k < |Ancestry(t.fs, r)| && Ancestry(t.fs, r)[k] == h.value;
          AncestryBelow(t.fs, r, k);
        }
      }
      AttachValid(m.t, x, if r.None? then None else NearestHost(m.t.fs, r));
      a := if r.None? then m else Attach(m.t, x, NearestHost(m.t.fs, r));
    }
  }

  /** Every fiber on the climb from `r` is at or above `r`. */
  lemma {:induction false} AncestryBelow(fs: seq<Fiber>, r: Option<FiberId>, k: nat)
    requires Linked(fs) && InArena(fs, r) && k < |Ancestry(fs, r)|
    ensures r.Some? && Ancestry(fs, r)[k] <= r.value
    decreases Height(r)
  {
    var n := r.value;
    LinkedEveryFiber(fs);
    assert LinkedFiber(fs, n);
    if k > 0 {
      AncestryBelow(fs, fs[n].ret, k - 1);
    }
  }

  /**
   * A unit of work on a component completes exactly when the component's
   * result is neither `null` nor `undefined`. The host tree and the fiber's
   * node are untouched, and its `children` is `[result]`; a completed unit
   * makes one child fiber from the result and moves on to it.
   */
  lemma PerformComponent(lib: ComponentId -> Component, t: Tree, x: FiberId)
    requires TreeValid(t) && x < |t.fs| && IsComponent(t.fs[x])
    ensures var u := Perform(lib, t, x); var f := t.fs[x]; var v := lib(f.ty.value.id)(f.props);
      && (u.ok <==> !Nullish(v))
      && (!u.ok ==> u.next == Some(x))
      && u.t.dom == t.dom && u.t.fs[x].stateNode == f.stateNode
      && u.t.fs[x].props == f.props[ChildrenKey := Array([v])]
      && (u.ok ==>
            && u.next == Some(|t.fs|) && Chain(u.t.fs, u.t.fs[x].child) == [|t.fs|]
            && u.t.fs[|t.fs|].ty == ChildType(v) && u.t.fs[|t.fs|].props == ChildProps(v)
            && u.t.fs[|t.fs|].ret == Some(x))
  {
    var c := CallComponent(lib, t, x);
    CallComponentValid(lib, t, x);
    LinkAllChildren(c, x);
    var f := t.fs[x];
    var items := [lib(f.ty.value.id)(f.props)];
    KidsFrame(c.fs, x, items, Linkable(items));
    var u := Perform(lib, t, x);
    assert u == LinkAll(c, x);
    if u.ok {
      assert LinkedKids(u, x, |c.fs|, items);
      assert seq(1, i => |t.fs| + i) == [|t.fs|];
    }
  }

  /**
   * A unit of work on a host fiber completes exactly when the fiber can have
   * a node, the climb from its `return` (if any) finds a fiber that owns a
   * node, and its `children` is an array of non-null entries; then the fiber
   * owns a node. A failed unit leaves the cursor on the fiber.
   */
  lemma PerformHostOk(lib: ComponentId -> Component, t: Tree, x: FiberId)
    requires TreeValid(t) && x < |t.fs| && !IsComponent(t.fs[x])
    ensures var u := Perform(lib, t, x); var f := t.fs[x];
      && (u.ok <==>
            && (f.stateNode.Some? || f.ty.Some?)
            && (f.ret.Some? ==> NearestHost(t.fs, f.ret).Some?)
            && ChildrenKey in f.props && f.props[ChildrenKey].Array?
            && forall i :: 0 <= i < |f.props[ChildrenKey].items| ==> !Nullish(f.props[ChildrenKey].items[i]))
      && (!u.ok ==> u.next == Some(x))
      && (u.ok ==> u.t.fs[x].stateNode.Some?)
  {
    var m, a := HostStages(lib, t, x);
    if t.fs[x].stateNode.None? {
      MakeNodeNew(t, x);
    }
    if m.ok && a.ok {
      LinkAllChildren(a.t, x);
      var props := t.fs[x].props;
      if ChildrenKey in props && props[ChildrenKey].Array? {
        KidsFrame(a.t.fs, x, props[ChildrenKey].items, Linkable(props[ChildrenKey].items));
      }
    }
  }

  /**
   * A host fiber without a node, with a `return`: when the unit completes,
   * the fiber owns a new node of the kind its type names, holding every prop
   * but `children`, and that node is the last child of the node of the
   * nearest ancestor that owns one. The host tree stays consistent.
   */
  lemma PerformMountsUnderNearestHost(lib: ComponentId -> Component, t: Tree, x: FiberId)
    requires TreeValid(t) && x < |t.fs| && Consistent(t.dom) && !IsComponent(t.fs[x])
    requires t.fs[x].stateNode.None? && t.fs[x].ret.Some?
    ensures var u := Perform(lib, t, x); var f := t.fs[x]; var n := |t.dom|;
      u.ok ==>
        var h := NearestHost(t.fs, f.ret);
        && h.Some?
        && var p := t.fs[h.value].stateNode.value;
           && u.t.fs[x].stateNode == Some(n) && |u.t.dom| == n + 1 && Consistent(u.t.dom)
           && u.t.dom[n].kind == KindOf(f.ty) && u.t.dom[n].props == Copied(f.props)
           && u.t.dom[n].parent == Some(p) && u.t.dom[p].children == t.dom[p].children + [n]
  {
    var u := Perform(lib, t, x);
    var f := t.fs[x];
    var n := |t.dom|;
    var m, a := HostStages(lib, t, x);
    MakeNodeNew(t, x);
    if u.ok {
      var h := NearestHost(t.fs, f.ret);
      assert h.Some?;
      MakeAttachFresh(t, x, h);
    }
  }

  /**
   * A completed unit of work on a host fiber with children makes one new
   * fiber per child, in order, as the fiber's child chain, each with the
   * child's type and props and the fiber as `return`; the next unit is the
   * first child.
   */
  lemma PerformHostChildren(lib: ComponentId -> Component, t: Tree, x: FiberId)
    requires TreeValid(t) && x < |t.fs| && !IsComponent(t.fs[x])
    ensures var u := Perform(lib, t, x); var props := t.fs[x].props;
      u.ok && ChildrenKey in props && props[ChildrenKey].Array? && props[ChildrenKey].items != [] ==>
        LinkedKids(u, x, |t.fs|, props[ChildrenKey].items)
  {
    var m, a := HostStages(lib, t, x);
    if m.ok && a.ok {
      LinkAllChildren(a.t, x);
    }
  }

  /**
   * On a host fiber whose `return` (if any) owns a node, the climb stops at
   * once, so areact04 does exactly what areact03 does.
   */
  lemma AgreesWithAreact03(lib: ComponentId -> Component, t: Tree, x: FiberId)
    requires TreeValid(t) && x < |t.fs| && !IsComponent(t.fs[x])
    requires t.fs[x].ret.Some? ==> t.fs[t.fs[x].ret.value].stateNode.Some?
    ensures Perform(lib, t, x) == Renderer03.Perform(t, x)
  {
    var m, a := HostStages(lib, t, x);
    var m3, a3 := Renderer03.Stages(t, x);
  }

  /**
   * `while (workInProgress)` in `workloop()` (areact04/AReact.jsx:124-128),
   * for at most `fuel` units of work.
   */
  ghost function Loop(lib: ComponentId -> Component, t: Tree, cur: Option<FiberId>, fuel: nat): (u: Unit)
    requires TreeValid(t) && InArena(t.fs, cur)
    ensures TreeValid(u.t) && InArena(u.t.fs, u.next) && |t.fs| <= |u.t.fs|
    decreases fuel, 1
  {
    if cur.None? || fuel == 0 then Unit(true, t, cur) else Turn(lib, t, cur.value, fuel)
  }

  /** One turn of the loop: `workInProgress = performUnitOfWork(workInProgress)`, then on. */
  ghost function Turn(lib: ComponentId -> Component, t: Tree, x: FiberId, fuel: nat): (u: Unit)
    requires TreeValid(t) && x < |t.fs| && fuel > 0
    ensures TreeValid(u.t) && InArena(u.t.fs, u.next) && |t.fs| <= |u.t.fs|
    decreases fuel, 0
  {
    var u := Perform(lib, t, x);
    if !u.ok then u else Loop(lib, u.t, u.next, Spend(fuel))
  }

  class Renderer04 {
    var fibers: seq<Fiber>
    var dom: Dom
    /** `workInProgress`. */
    var wip: Option<FiberId>
    /** `_internalRoot.current`. */
    var current: Option<FiberId>
    /** `containerInfo`. */
    const container: NodeId
    /** The component functions, by identity. */
    const lib: ComponentId -> Component

    ghost function State(): Tree
      reads this
    {
      Tree(fibers, dom)
    }

    ghost predicate Valid()
      reads this
    {
      TreeValid(State()) && container < |dom| && InArena(fibers, wip) && InArena(fibers, current)
    }

    /** `createRoot(container)`: no fibers yet. */
    constructor(dom0: Dom, container: NodeId, lib: ComponentId -> Component)
      requires container < |dom0|
      ensures Valid()
      ensures fibers == [] && dom == dom0 && wip.None? && current.None?
      ensures this.container == container && this.lib == lib
    {
      fibers, dom, wip, current := [], dom0, None, None;
      this.container := container;
      this.lib := lib;
    }

    /**
     * `render(element)` (areact04/AReact.jsx:140-154): a root fiber on the
     * container with `children: [element]`, held as the alternate of a new
     * `current`, becomes the next unit of work.
     */
    method Render(element: Value)
      requires Valid()
      modifies this
      ensures Valid()
      ensures var n := |old(fibers)|;
        fibers == RenderRoots(old(fibers), container, element) && current == Some(n + 1) && wip == Some(n)
      ensures dom == old(dom)
    {
      var n := |fibers|;
      RenderRootsLinked(fibers, container, element);
      fibers, current, wip := RenderRoots(fibers, container, element), Some(n + 1), Some(n);
    }

    /**
     * The host half of `performUnitOfWork(x)` (areact04/AReact.jsx:76-98):
     * make the node and append it to the nearest host above. `ok` is false
     * when that throws, and then the unit ends as it stands.
     */
    method MountHost(x: FiberId) returns (ok: bool)
      requires Valid() && x < |fibers| && !IsComponent(fibers[x])
      modifies this
      ensures Valid() && wip == old(wip) && current == old(current) && x < |fibers|
      ensures ok ==> Perform(lib, old(State()), x) == LinkAll(State(), x)
      ensures !ok ==> Perform(lib, old(State()), x) == Unit(false, State(), Some(x))
    {
      ghost var t0 := State();
      ghost var m0, a0 := HostStages(lib, t0, x);
      var m := MakeFiberNode(Tree(fibers, dom), x);
      fibers, dom := m.t.fs, m.t.dom;
      assert State() == m0.t;
      if !m.ok {
        return false;
      }
      if fibers[x].ret.Some? {
        var h := FindHostParent(fibers, x);
        if h.None? {
          assert a0 == Made(false, m0.t);
          return false;
        }
        dom := AppendChild(dom, fibers[h.value].stateNode.value, fibers[x].stateNode.value);
        assert a0 == Made(true, State());
      } else {
        assert a0 == m0;
      }
      ok := true;
    }

    /**
     * `performUnitOfWork(x)` (areact04/AReact.jsx:61-122). A thrown error
     * leaves `ok` false, the data as it stood and the cursor on `x`.
     */
    method PerformUnitOfWork(x: FiberId) returns (ok: bool, next: Option<FiberId>)
      requires Valid() && x < |fibers|
      modifies this
      ensures Valid() && wip == old(wip) && current == old(current)
      ensures var u := Perform(lib, old(State()), x); ok == u.ok && State() == u.t && next == u.next
    {
      ghost var t0 := State();
      if IsComponent(fibers[x]) {
        CallComponentValid(lib, t0, x);
        var f := fibers[x];
        fibers := fibers[x := f.(props := f.props[ChildrenKey := Array([lib(f.ty.value.id)(f.props)])])];
        assert Perform(lib, t0, x) == LinkAll(State(), x);
      } else {
        var mounted := MountHost(x);
        if !mounted {
          return false, Some(x);
        }
      }
      var u := LinkFiberChildren(Tree(fibers, dom), x);
      fibers, dom, ok, next := u.t.fs, u.t.dom, u.ok, u.next;
    }

    /** `goal` is what `left` more turns of the loop from here lead to. */
    ghost predicate OnTrack(goal: Unit, left: nat)
      requires Valid()
      reads this
    {
      goal == Loop(lib, Tree(fibers, dom), wip, left)
    }

    /** One turn of `while (workInProgress)` (areact04/AReact.jsx:125-127). */
    method Advance(ghost goal: Unit, ghost left: nat) returns (done: bool)
      requires Valid() && wip.Some? && left > 0 && OnTrack(goal, left)
      modifies this
      ensures Valid() && current == old(current)
      ensures done ==> OnTrack(goal, Spend(left))
      ensures !done ==> goal == Unit(false, Tree(fibers, dom), wip)
    {
      assert Loop(lib, State(), wip, left) == Turn(lib, State(), wip.value, left);
      var next;
      done, next := PerformUnitOfWork(wip.value);
      wip := next;
    }

    /**
     * `workloop()` (areact04/AReact.jsx:124-128), for at most `fuel` units of
     * work. A failing unit ends the loop with the cursor on it.
     */
    method Workloop(fuel: nat) returns (ok: bool)
      requires Valid()
      modifies this
      ensures Valid() && current == old(current)
      ensures var u := Loop(lib, old(State()), old(wip), fuel); ok == u.ok && State() == u.t && wip == u.next
    {
      ghost var goal := Loop(lib, State(), wip, fuel);
      var left := fuel;
      while wip.Some? && left > 0
        invariant Valid() && current == old(current)
        invariant OnTrack(goal, left)
        decreases left
      {
        var done := Advance(goal, left);
        if !done {
          return false;
        }
        left := Spend(left);
      }
      ok := true;
    }
  }
}

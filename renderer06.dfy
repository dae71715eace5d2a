/**
 * The render loop of areact06 (areact06/AReact.jsx:228-342): `performUnitOfWork`
 * with function components and hooks, `workloop`, `commitRoot`'s swap of
 * `current`, `render`, `useState`, `useReducer` and the setter.
 *
 * The state the source keeps in module variables and in the root object is
 * gathered in the class `Renderer06`. Its effect on the fibers, the hook
 * records, the host tree and the deletions is specified by functions on a
 * value of type `Work`, about which the properties are proved.
 */
module Renderer06 {
  import opened Wrappers
  import opened Elements
  import opened Fibers
  import opened Host
  import opened Hooks
  import opened Reconcile
  import opened Commit

  /**
   * A function component: the initial values of the `useState` calls its body
   * makes, in call order, and what it returns given its props and the states
   * those calls return.
   */
  datatype Component = Component(inits: seq<Value>, body: (map<string, Value>, seq<Value>) -> Value)

  /** The renderer's data: fibers, hook records, host tree and pending deletions. */
  datatype Work = Work(fs: seq<Fiber>, hooks: seq<Hook>, dom: Dom, dels: seq<FiberId>)

  /** Every hook a fiber lists is a hook record. */
  ghost predicate HooksIn(fs: seq<Fiber>, hooks: seq<Hook>) {
    forall x, i :: 0 <= x < |fs| && 0 <= i < |fs[x].hooks| ==> fs[x].hooks[i] < |hooks|
  }

  /** Every pending deletion names a fiber. */
  predicate DelsIn(fs: seq<Fiber>, dels: seq<FiberId>) {
    forall k :: 0 <= k < |dels| ==> dels[k] < |fs|
  }

  /** The invariant of the renderer's data. */
  ghost predicate WorkValid(w: Work) {
    Linked(w.fs) && NodesIn(w.fs, w.dom) && HooksIn(w.fs, w.hooks) && DelsIn(w.fs, w.dels) && NoDispatch(w.hooks)
  }

  /**
   * `currentHookFiber.alternate?.memorizedState?.[currentHookIndex]` for the
   * `i`-th call: the previous render's hook at the same slot, if any.
   */
  function OldHookAt(fs: seq<Fiber>, hooks: seq<Hook>, x: FiberId, i: nat): Option<Hook>
    requires x < |fs| && HooksIn(fs, hooks)
  {
    var a := fs[x].alternate;
    if a.Some? && a.value < |fs| && a.value != x && i < |fs[a.value].hooks|
    then Some(hooks[fs[a.value].hooks[i]])
    else None
  }

  /** The hooks a render of the component at `x` appends, one per `useState` call. */
  function RenderHooks(fs: seq<Fiber>, hooks: seq<Hook>, x: FiberId, inits: seq<Value>): (hs: seq<Hook>)
    requires x < |fs| && HooksIn(fs, hooks)
    ensures |hs| == |inits|
  {
    seq(|inits|, i requires 0 <= i < |inits| => NextHook(OldHookAt(fs, hooks, x, i), inits[i]))
  }

  /** The ids `from`, `from + 1`, ... of `n` hooks appended to the hook store. */
  function Ids(from: nat, n: nat): (ids: seq<HookId>)
    ensures |ids| == n && forall i :: 0 <= i < n ==> ids[i] == from + i
  {
    seq(n, i requires 0 <= i < n => from + i)
  }

  /** The states of a list of hooks. */
  function States(hs: seq<Hook>): (s: seq<Value>)
    ensures |s| == |hs| && forall i :: 0 <= i < |hs| ==> s[i] == hs[i].state
  {
    seq(|hs|, i requires 0 <= i < |hs| => hs[i].state)
  }

  /** One more `useState` call: one more hook, id and state at the end of each list. */
  lemma HookListsGrow(hs: seq<Hook>, from: nat, i: nat)
    requires i < |hs|
    ensures hs[..i + 1] == hs[..i] + [hs[i]]
    ensures Ids(from, i + 1) == Ids(from, i) + [from + i]
    ensures States(hs[..i + 1]) == States(hs[..i]) + [hs[i].state]
  {
    assert hs[..i + 1] == hs[..i] + [hs[i]];
  }

  /** Replacing a fiber's hook list twice is replacing it by the second list. */
  lemma RehookTwice(fs: seq<Fiber>, x: FiberId, a: seq<HookId>, b: seq<HookId>)
    requires x < |fs|
    ensures fs[x := fs[x].(hooks := a)][x := fs[x].(hooks := b)] == fs[x := fs[x].(hooks := b)]
  {
  }

  /**
   * The first half of `performUnitOfWork(x)` (areact06/AReact.jsx:230-254): a
   * component fiber runs its body, gets fresh hook slots and `children =
   * [body(props)]`; a host fiber without a node gets one.
   */
  ghost function Prepare(lib: ComponentId -> Component, w: Work, x: FiberId): (r: Work)
    requires WorkValid(w) && x < |w.fs|
    ensures |r.fs| == |w.fs|
  {
    var fib := w.fs[x];
    if IsComponent(fib) then
      var c := lib(fib.ty.value.id);
      var hs := RenderHooks(w.fs, w.hooks, x, c.inits);
      var props := fib.props[ChildrenKey := Array([c.body(fib.props, States(hs))])];
      Work(w.fs[x := fib.(hooks := Ids(|w.hooks|, |hs|), props := props)], w.hooks + hs, w.dom, w.dels)
    else if fib.stateNode.None? then
      Work(w.fs[x := fib.(stateNode := Some(|w.dom|))], w.hooks, w.dom + [NewNode(KindOf(fib.ty))], w.dels)
    else w
  }

  /** Appending hooks that carry no `dispatch` keeps every hook without one. */
  lemma RenderHooksNoDispatch(fs: seq<Fiber>, hooks: seq<Hook>, x: FiberId, inits: seq<Value>)
    requires x < |fs| && HooksIn(fs, hooks) && NoDispatch(hooks)
    ensures NoDispatch(hooks + RenderHooks(fs, hooks, x, inits))
  {
    var hs := RenderHooks(fs, hooks, x, inits);
    forall i | 0 <= i < |hooks + hs|
      ensures (hooks + hs)[i].dispatch.None?
    {
      if i >= |hooks| {
        assert (hooks + hs)[i] == hs[i - |hooks|];
      }
    }
  }

  /** `Prepare` keeps the renderer's data valid. */
  lemma PrepareValid(lib: ComponentId -> Component, w: Work, x: FiberId)
    requires WorkValid(w) && x < |w.fs|
    ensures var p := Prepare(lib, w, x); WorkValid(p) && |p.fs| == |w.fs| && p.dels == w.dels
  {
    var fib := w.fs[x];
    var p := Prepare(lib, w, x);
    if IsComponent(fib) {
      var c := lib(fib.ty.value.id);
      var hs := RenderHooks(w.fs, w.hooks, x, c.inits);
      var props := fib.props[ChildrenKey := Array([c.body(fib.props, States(hs))])];
      RelabelLinked(w.fs, x, fib.(hooks := Ids(|w.hooks|, |hs|), props := props));
      RenderHooksNoDispatch(w.fs, w.hooks, x, c.inits);
    } else if fib.stateNode.None? {
      RelabelLinked(w.fs, x, fib.(stateNode := Some(|w.dom|)));
    }
  }

  /** Reconciling the children of `x` keeps the renderer's data valid and adds its deletions. */
  lemma ReconciledValid(w: Work, x: FiberId, children: seq<Value>)
    requires WorkValid(w) && x < |w.fs|
    ensures var rc := Reconciled(w.fs, x, children);
      |w.fs| <= |rc.fs| && WorkValid(Work(rc.fs, w.hooks, w.dom, w.dels + rc.dels))
  {
    var olds := OldChain(w.fs, x);
    var k := Rounds(children, olds);
    var q := Partial(w.fs, x, children, olds, k);
    PartialLinked(w.fs, x, children, olds, k);
    forall y | 0 <= y < |q.fs|
      ensures q.fs[y].stateNode.Some? ==> q.fs[y].stateNode.value < |w.dom|
      ensures forall i :: 0 <= i < |q.fs[y].hooks| ==> q.fs[y].hooks[i] < |w.hooks|
    {
      PartialFrame(w.fs, x, children, olds, k, y);
    }
    forall j | 0 <= j < |q.dels|
      ensures q.dels[j] < |q.fs|
    {
      DeletedAreOld(children, olds, k, q.dels[j]);
    }
    var ds := w.dels + q.dels;
    assert forall j :: 0 <= j < |ds| ==> ds[j] < |q.fs| by {
      forall j | 0 <= j < |ds| ensures ds[j] < |q.fs| {
        if j >= |w.dels| {
          assert ds[j] == q.dels[j - |w.dels|];
        }
      }
    }
  }

  /**
   * Rendering a component (areact06/AReact.jsx:238-245, 305-342) gives it no
   * host node and leaves every other fiber, the host tree and the deletions
   * alone. It appends one hook per `useState` call, and the fiber lists
   * exactly those. Each hook's state is the previous render's hook at the
   * same slot with that hook's queue replayed, or the initial value when
   * there is none. Each hook's queue starts empty, and its setter is a fresh
   * one bound to it. The body sees these states, and its result becomes the
   * only child.
   */
  lemma ComponentRender(lib: ComponentId -> Component, w: Work, x: FiberId)
    requires WorkValid(w) && x < |w.fs| && IsComponent(w.fs[x])
    ensures var p := Prepare(lib, w, x);
      var c := lib(w.fs[x].ty.value.id);
      var n := |w.hooks|;
      && p.dom == w.dom && p.dels == w.dels && |p.fs| == |w.fs|
      && (forall y :: 0 <= y < |w.fs| && y != x ==> p.fs[y] == w.fs[y])
      && p.fs[x].stateNode == w.fs[x].stateNode && p.fs[x].ty == w.fs[x].ty
      && p.fs[x].ret == w.fs[x].ret && p.fs[x].child == w.fs[x].child
      && p.fs[x].sibling == w.fs[x].sibling && p.fs[x].alternate == w.fs[x].alternate
      && |p.hooks| == n + |c.inits| && p.hooks[..n] == w.hooks
      && (forall i :: 0 <= i < |c.inits| ==> p.fs[x].hooks[i] == n + i)
      && |p.fs[x].hooks| == |c.inits|
      && (forall i :: 0 <= i < |c.inits| ==>
            var prev := OldHookAt(w.fs, w.hooks, x, i);
            && p.hooks[n + i].queue == []
            && p.hooks[n + i].state == (if prev.Some? then Replay(prev.value.state, prev.value.queue) else c.inits[i])
            && SetterFor(p.hooks[n + i], n + i) == n + i)
      && p.fs[x].props == w.fs[x].props[ChildrenKey := Array([c.body(w.fs[x].props, States(p.hooks[n..]))])]
  {
    var c := lib(w.fs[x].ty.value.id);
    var n := |w.hooks|;
    var hs := RenderHooks(w.fs, w.hooks, x, c.inits);
    var p := Prepare(lib, w, x);
    assert p.hooks == w.hooks + hs;
    assert p.hooks[n..] == hs;
    PrepareValid(lib, w, x);
  }

  /**
   * A host fiber (areact06/AReact.jsx:246-254) gets a new node of its type,
   * appended to the host tree, exactly when it has none. Otherwise preparing
   * it changes nothing.
   */
  lemma HostPrepare(lib: ComponentId -> Component, w: Work, x: FiberId)
    requires WorkValid(w) && x < |w.fs| && !IsComponent(w.fs[x])
    ensures var p := Prepare(lib, w, x);
      && (w.fs[x].stateNode.Some? ==> p == w)
      && (w.fs[x].stateNode.None? ==>
            && p.fs == w.fs[x := w.fs[x].(stateNode := Some(|w.dom|))]
            && p.dom == w.dom + [NewNode(KindOf(w.fs[x].ty))]
            && p.hooks == w.hooks && p.dels == w.dels)
      && p.fs[x].stateNode.Some? && p.fs[x].stateNode.value < |p.dom|
  {
    PrepareValid(lib, w, x);
  }

  /** The outcome of one unit of work: whether it completed, the data, and the next fiber. */
  datatype Step = Step(ok: bool, w: Work, next: Option<FiberId>)

  /**
   * `performUnitOfWork(x)` (areact06/AReact.jsx:228-260): prepare the fiber,
   * reconcile `props.children`, and return `getNextFiber(x)`. When `children`
   * is missing, `null` or `undefined` the source fails reading its length; the
   * cursor then stays at `x`. Any other value is walked as `ChildList` reads it.
   */
  ghost function Perform(lib: ComponentId -> Component, w: Work, x: FiberId): (s: Step)
    requires WorkValid(w) && x < |w.fs|
    ensures WorkValid(s.w) && InArena(s.w.fs, s.next) && |w.fs| <= |s.w.fs|
  {
    var p := Prepare(lib, w, x);
    PrepareValid(lib, w, x);
    var props := p.fs[x].props;
    var kids := ChildrenOf(props);
    if kids.None? then Step(false, p, Some(x))
    else
      var rc := Reconciled(p.fs, x, kids.value);
      ReconciledValid(p, x, kids.value);
      Step(true, Work(rc.fs, p.hooks, p.dom, p.dels + rc.dels), NextFiber(rc.fs, x))
  }

  /**
   * A unit of work fails exactly when the fiber is a host fiber whose
   * `children` is missing, `null` or `undefined` (a component always has
   * `[result]`). A failed
   * unit keeps the cursor on the fiber. A completed one moves it to
   * `getNextFiber(x)` in the new arena and adds only the fiber's deletions.
   */
  lemma PerformOutcome(lib: ComponentId -> Component, w: Work, x: FiberId)
    requires WorkValid(w) && x < |w.fs|
    ensures var s := Perform(lib, w, x); var props := w.fs[x].props;
      && (s.ok <==> IsComponent(w.fs[x]) || (ChildrenKey in props && !props[ChildrenKey].Null? && !props[ChildrenKey].Undefined?))
      && (!s.ok ==> s.next == Some(x) && s.w == Prepare(lib, w, x))
      && (s.ok ==> s.next == NextFiber(s.w.fs, x) && s.w.hooks == Prepare(lib, w, x).hooks
                   && s.w.dom == Prepare(lib, w, x).dom && s.w.dels[..|w.dels|] == w.dels)
  {
    if IsComponent(w.fs[x]) {
      ComponentRender(lib, w, x);
    } else {
      HostPrepare(lib, w, x);
    }
  }

  /** A completed unit of work on `x` leaves the arena that reconciling its children gives. */
  lemma PerformReconciles(lib: ComponentId -> Component, w: Work, x: FiberId)
    requires WorkValid(w) && x < |w.fs|
    ensures var s := Perform(lib, w, x); var p := Prepare(lib, w, x);
      s.ok ==> WorkValid(p) && x < |p.fs| && ChildrenOf(p.fs[x].props).Some?
               && s.w.fs == Reconciled(p.fs, x, ChildrenOf(p.fs[x].props).value).fs
  {
    PrepareValid(lib, w, x);
  }

  /**
   * After a completed unit of work on `x` with a non-empty list of children,
   * the child chain of `x` is the new fibers in order, one per child up to
   * the first falsy one.
   */
  lemma PerformChildren(lib: ComponentId -> Component, w: Work, x: FiberId)
    requires WorkValid(w) && x < |w.fs|
    ensures var s := Perform(lib, w, x); var p := Prepare(lib, w, x); var props := p.fs[x].props;
      s.ok && ChildrenOf(props).Some? && ChildrenOf(props).value != [] ==>
        var items := ChildrenOf(props).value;
        && InArena(s.w.fs, s.w.fs[x].child)
        && Chain(s.w.fs, s.w.fs[x].child) == seq(Lead(items, Rounds(items, OldChain(p.fs, x))), i => |w.fs| + i)
  {
    var s := Perform(lib, w, x);
    var p := Prepare(lib, w, x);
    PerformReconciles(lib, w, x);
    PrepareValid(lib, w, x);
    if s.ok && ChildrenOf(p.fs[x].props).value != [] {
      ReconciledChildChain(p.fs, x, ChildrenOf(p.fs[x].props).value);
    }
  }

  /** The fibers that were there keep their nodes and hook lists through a unit of work. */
  lemma PerformKeepsNodes(lib: ComponentId -> Component, w: Work, x: FiberId)
    requires WorkValid(w) && x < |w.fs|
    ensures var s := Perform(lib, w, x); var p := Prepare(lib, w, x);
      s.ok ==> forall y :: 0 <= y < |w.fs| ==> s.w.fs[y].stateNode == p.fs[y].stateNode && s.w.fs[y].hooks == p.fs[y].hooks
  {
    var s := Perform(lib, w, x);
    var p := Prepare(lib, w, x);
    PerformReconciles(lib, w, x);
    PrepareValid(lib, w, x);
    if s.ok {
      var items := ChildrenOf(p.fs[x].props).value;
      var olds := OldChain(p.fs, x);
      forall y | 0 <= y < |w.fs|
        ensures s.w.fs[y].stateNode == p.fs[y].stateNode && s.w.fs[y].hooks == p.fs[y].hooks
      {
        PartialFrame(p.fs, x, items, olds, Rounds(items, olds), y);
      }
    }
  }

  /**
   * A host fiber whose `children` is a value with no length and no indices (a
   * number, a boolean, an element or an object) completes its unit of work
   * without creating a fiber, and every child of its previous render is
   * queued for deletion.
   */
  lemma PerformEmptyChildren(lib: ComponentId -> Component, w: Work, x: FiberId)
    requires WorkValid(w) && x < |w.fs| && !IsComponent(w.fs[x])
    requires ChildrenKey in w.fs[x].props && ChildList(w.fs[x].props[ChildrenKey]) == Some([])
    ensures var s := Perform(lib, w, x); var p := Prepare(lib, w, x);
      && s.ok && |s.w.fs| == |w.fs| && s.next == NextFiber(s.w.fs, x)
      && s.w.dels == w.dels + OldChain(p.fs, x)
  {
    HostPrepare(lib, w, x);
    PrepareValid(lib, w, x);
    ReconciledEmpty(Prepare(lib, w, x).fs, x);
  }

  /**
   * `workloop`'s `while (workInProgress)` (areact06/AReact.jsx:263-265), for at
   * most `fuel` units of work.
   */
  ghost function Loop(lib: ComponentId -> Component, w: Work, cur: Option<FiberId>, fuel: nat): (s: Step)
    requires WorkValid(w) && InArena(w.fs, cur)
    ensures WorkValid(s.w) && InArena(s.w.fs, s.next) && |w.fs| <= |s.w.fs|
    decreases fuel, 1
  {
    if cur.None? || fuel == 0 then Step(true, w, cur) else Turn(lib, w, cur.value, fuel)
  }

  /** One turn of the loop: `workInProgress = performUnitOfWork(workInProgress)`, then on. */
  ghost function Turn(lib: ComponentId -> Component, w: Work, x: FiberId, fuel: nat): (s: Step)
    requires WorkValid(w) && x < |w.fs| && fuel > 0
    ensures WorkValid(s.w) && InArena(s.w.fs, s.next) && |w.fs| <= |s.w.fs|
    decreases fuel, 0
  {
    var s := Perform(lib, w, x);
    if !s.ok then s else Loop(lib, s.w, s.next, Spend(fuel))
  }

  /** Appending the roots keeps the renderer's data valid. */
  lemma RenderRootsValid(w: Work, container: NodeId, element: Value)
    requires WorkValid(w) && container < |w.dom|
    ensures WorkValid(Work(RenderRoots(w.fs, container, element), w.hooks, w.dom, []))
  {
    var fs := w.fs;
    var r := RenderRoots(fs, container, element);
    RenderRootsLinked(fs, container, element);
    forall y | 0 <= y < |r|
      ensures r[y].stateNode.Some? ==> r[y].stateNode.value < |w.dom|
      ensures forall i :: 0 <= i < |r[y].hooks| ==> r[y].hooks[i] < |w.hooks|
    {
      if y < |fs| {
        assert r[y] == fs[y];
      }
    }
  }

  /** A hook `h` pushed onto the `memorizedState` of `x`. */
  function PushHook(w: Work, x: FiberId, h: Hook): (r: Work)
    requires x < |w.fs|
    ensures |r.fs| == |w.fs| && r.fs[x].hooks == w.fs[x].hooks + [|w.hooks|] && r.hooks == w.hooks + [h]
  {
    Work(w.fs[x := w.fs[x].(hooks := w.fs[x].hooks + [|w.hooks|])], w.hooks + [h], w.dom, w.dels)
  }

  /** Pushing a hook without a `dispatch` keeps the renderer's data valid. */
  lemma PushHookValid(w: Work, x: FiberId, h: Hook)
    requires WorkValid(w) && x < |w.fs| && h.dispatch.None?
    ensures WorkValid(PushHook(w, x, h))
  {
    var r := PushHook(w, x, h);
    RelabelLinked(w.fs, x, r.fs[x]);
    forall i | 0 <= i < |r.hooks|
      ensures r.hooks[i].dispatch.None?
    {
      if i < |w.hooks| {
        assert r.hooks[i] == w.hooks[i];
      }
    }
  }

  /** Replacing a fiber's hook list by hooks that exist keeps the renderer's data valid. */
  lemma SetHooksValid(w: Work, x: FiberId, ids: seq<HookId>)
    requires WorkValid(w) && x < |w.fs| && forall i :: 0 <= i < |ids| ==> ids[i] < |w.hooks|
    ensures WorkValid(Work(w.fs[x := w.fs[x].(hooks := ids)], w.hooks, w.dom, w.dels))
  {
    RelabelLinked(w.fs, x, w.fs[x].(hooks := ids));
  }

  /**
   * Rewriting the hook list of `x` and appending hook records does not change
   * what the `i`-th `useState` call of `x` finds in the previous render, since
   * that render is another fiber.
   */
  lemma OldHookStable(fs: seq<Fiber>, hooks: seq<Hook>, x: FiberId, ids: seq<HookId>, more: seq<Hook>, i: nat)
    requires x < |fs| && HooksIn(fs, hooks)
    requires HooksIn(fs[x := fs[x].(hooks := ids)], hooks + more)
    ensures OldHookAt(fs[x := fs[x].(hooks := ids)], hooks + more, x, i) == OldHookAt(fs, hooks, x, i)
  {
    var a := fs[x].alternate;
    if a.Some? && a.value < |fs| && a.value != x && i < |fs[a.value].hooks| {
      assert (hooks + more)[fs[a.value].hooks[i]] == hooks[fs[a.value].hooks[i]];
    }
  }

  /**
   * The setter's effect on the data (areact06/AReact.jsx:323-335): the action
   * joins the hook's queue, and a new root on the container with the props of
   * `current` becomes the alternate of `current`, pointing back to it; the
   * deletions are cleared.
   */
  function Requeue(w: Work, cur: FiberId, container: NodeId, h: HookId, a: Action): (r: Work)
    requires cur < |w.fs| && h < |w.hooks|
    ensures |r.fs| == |w.fs| + 1 && r.fs[cur].alternate == Some(|w.fs|)
    ensures r.fs[|w.fs|] == RootFiber(container, w.fs[cur].props, Some(cur))
    ensures forall y :: 0 <= y < |w.fs| && y != cur ==> r.fs[y] == w.fs[y]
  {
    var n := |w.fs|;
    Work(w.fs[cur := w.fs[cur].(alternate := Some(n))] + [RootFiber(container, w.fs[cur].props, Some(cur))],
         Enqueue(w.hooks, h, a), w.dom, [])
  }

  /** The setter keeps the renderer's data valid. */
  lemma RequeueValid(w: Work, cur: FiberId, container: NodeId, h: HookId, a: Action)
    requires WorkValid(w) && cur < |w.fs| && h < |w.hooks| && container < |w.dom|
    ensures WorkValid(Requeue(w, cur, container, h, a))
  {
    var n := |w.fs|;
    var root := RootFiber(container, w.fs[cur].props, Some(cur));
    var r := Requeue(w, cur, container, h, a);
    AppendLinked(w.fs, root);
    RelabelLinked(w.fs + [root], cur, w.fs[cur].(alternate := Some(n)));
    assert r.fs == (w.fs + [root])[cur := w.fs[cur].(alternate := Some(n))];
    forall y | 0 <= y < |r.fs|
      ensures r.fs[y].stateNode.Some? ==> r.fs[y].stateNode.value < |w.dom|
      ensures forall i :: 0 <= i < |r.fs[y].hooks| ==> r.fs[y].hooks[i] < |r.hooks|
    {
      if y < n && y != cur {
        assert r.fs[y] == w.fs[y];
      }
    }
  }

  /** The renderer's data with its two cursors: `workInProgress` and `current`. */
  datatype Outcome = Outcome(ok: bool, w: Work, wip: Option<FiberId>, current: Option<FiberId>)

  /**
   * `workloop()` (areact06/AReact.jsx:262-271) with at most `fuel` units of
   * work: the loop, then `commitRoot` when the loop has finished and
   * `current` has an alternate.
   */
  ghost function Run(lib: ComponentId -> Component, w: Work, wip: Option<FiberId>, cur: Option<FiberId>, fuel: nat): (o: Outcome)
    requires WorkValid(w) && InArena(w.fs, wip) && InArena(w.fs, cur)
    ensures WorkValid(o.w) && InArena(o.w.fs, o.wip) && InArena(o.w.fs, o.current)
  {
    var s := Loop(lib, w, wip, fuel);
    if !s.ok || s.next.Some? then Outcome(s.ok, s.w, s.next, cur)
    else if cur.Some? && s.w.fs[cur.value].alternate.Some? then
      var c := Committed(s.w, cur.value);
      Outcome(c.ok, c.w, None, c.current)
    else Outcome(true, s.w, None, cur)
  }

  /**
   * The setter's action is seen by the next render: a fiber (other than
   * `current`, whose alternate the setter rewrites) whose previous render
   * kept the hook `h` at slot `i` builds that slot with the earlier queued
   * actions and then this one applied.
   */
  lemma SetterQueues(w: Work, cur: FiberId, container: NodeId, h: HookId, a: Action, y: FiberId, i: nat, init: Value)
    requires WorkValid(w) && cur < |w.fs| && h < |w.hooks| && container < |w.dom|
    requires y < |w.fs| && y != cur && OldHookAt(w.fs, w.hooks, y, i) == Some(w.hooks[h])
    requires var prev := w.fs[w.fs[y].alternate.value]; prev.hooks[i] == h
    ensures var r := Requeue(w, cur, container, h, a);
      HooksIn(r.fs, r.hooks) && y < |r.fs| &&
      NextHook(OldHookAt(r.fs, r.hooks, y, i), init).state == Hooks.Step(Replay(w.hooks[h].state, w.hooks[h].queue), a)
  {
    var r := Requeue(w, cur, container, h, a);
    RequeueValid(w, cur, container, h, a);
    var q := w.hooks[h].queue + [a];
    assert q[..|q| - 1] == w.hooks[h].queue;
    assert OldHookAt(r.fs, r.hooks, y, i) == Some(r.hooks[h]);
  }

  /** What `commitRoot` leaves: whether it completed, the data, and `current`. */
  datatype Commitment = Commitment(ok: bool, w: Work, current: Option<FiberId>)

  /**
   * `commitRoot()` (areact06/AReact.jsx:156-162) when `current.alternate` is the
   * work-in-progress root: commit, then make that root `current` with no
   * alternate. A failure during the commit leaves the data as it was.
   */
  ghost function Committed(w: Work, cur: FiberId): (c: Commitment)
    requires WorkValid(w) && cur < |w.fs| && w.fs[cur].alternate.Some?
    ensures WorkValid(c.w) && InArena(c.w.fs, c.current)
    ensures c.w.hooks == w.hooks && c.w.dels == w.dels && |c.w.fs| == |w.fs|
    ensures !c.ok ==> c.w == w && c.current == Some(cur)
    ensures c.ok ==> var root := w.fs[cur].alternate.value;
      && c.current == Some(root) && c.w.fs[root].alternate.None?
      && (forall y :: 0 <= y < |w.fs| && y != root ==> c.w.fs[y] == w.fs[y])
      && Some(c.w.dom) == CommitAll(w.fs, DeletionOrder(w.fs, w.dels) + Forest(w.fs, w.fs[root].child), w.dom)
  {
    var fs := w.fs;
    var root := fs[cur].alternate.value;
    var r := CommitAll(fs, DeletionOrder(fs, w.dels) + Forest(fs, fs[root].child), w.dom);
    if r.None? then Commitment(false, w, Some(cur))
    else
      RelabelLinked(fs, root, fs[root].(alternate := None));
      Commitment(true, Work(fs[root := fs[root].(alternate := None)], w.hooks, r.value, w.dels), Some(root))
  }

  /** The renderer: the module variables and the root object of areact06. */
  class Renderer06 {
    var fibers: seq<Fiber>
    /** The hook records; a fiber's `memorizedState` lists ids into it. */
    var hooks: seq<Hook>
    var dom: Dom
    /** `workInProgressRoot.deletions`. */
    var deletions: seq<FiberId>
    /** `workInProgress`. */
    var wip: Option<FiberId>
    /** `workInProgressRoot.current`. */
    var current: Option<FiberId>
    /** `currentHookFiber` and `currentHookIndex`. */
    var hookFiber: Option<FiberId>
    var hookIndex: nat
    /** `containerInfo`. */
    const container: NodeId
    /** The component functions, by identity. */
    const lib: ComponentId -> Component

    ghost function State(): Work
      reads this
    {
      Work(fibers, hooks, dom, deletions)
    }

    ghost predicate Valid()
      reads this
    {
      WorkValid(State()) && container < |dom|
      && InArena(fibers, wip) && InArena(fibers, current) && InArena(fibers, hookFiber)
    }

    /** `createRoot(container)`: no fibers yet. */
    constructor(dom0: Dom, container: NodeId, lib: ComponentId -> Component)
      requires container < |dom0|
      ensures Valid()
      ensures fibers == [] && hooks == [] && dom == dom0 && deletions == []
      ensures wip.None? && current.None? && hookFiber.None? && hookIndex == 0
      ensures this.container == container && this.lib == lib
    {
      fibers, hooks, dom, deletions := [], [], dom0, [];
      wip, current, hookFiber, hookIndex := None, None, None, 0;
      this.container := container;
      this.lib := lib;
    }

    /**
     * `render(element)` (areact06/AReact.jsx:283-295): a new root fiber on the
     * container with `children: [element]`, held as the alternate of a fresh
     * `current`; the deletions are cleared and the root is the next unit of work.
     */
    method Render(element: Value)
      requires Valid()
      modifies this
      ensures Valid()
      ensures var n := |old(fibers)|;
        && fibers == RenderRoots(old(fibers), container, element)
        && current == Some(n + 1) && wip == Some(n) && deletions == []
      ensures hooks == old(hooks) && dom == old(dom) && hookFiber == old(hookFiber) && hookIndex == old(hookIndex)
    {
      var n := |fibers|;
      var fs := RenderRoots(fibers, container, element);
      RenderRootsValid(Work(fibers, hooks, dom, deletions), container, element);
      fibers, current, deletions, wip := fs, Some(n + 1), [], Some(n);
    }

    /**
     * The hook `useState` starts from (areact06/AReact.jsx:305-306): the one
     * at the current slot of the alternate of `currentHookFiber`.
     */
    method PreviousHook() returns (prev: Option<HookId>)
      requires Valid() && hookFiber.Some?
      ensures prev.Some? ==> prev.value < |hooks|
      ensures OldHookAt(fibers, hooks, hookFiber.value, hookIndex)
        == if prev.Some? then Some(hooks[prev.value]) else None
    {
      var x := hookFiber.value;
      var a := fibers[x].alternate;
      prev := None;
      // The alternate is another fiber; were it `x` itself, its list was just reset.
      if a.Some? && a.value != x && hookIndex < |fibers[a.value].hooks| {
        prev := Some(fibers[a.value].hooks[hookIndex]);
      }
    }

    /**
     * `useState(initialState)` (areact06/AReact.jsx:305-342) called while the
     * component at `hookFiber` renders: the hook at the current slot is built
     * from the previous render's hook at that slot, pushed onto the fiber's
     * `memorizedState`, and the slot advances. The setter is the new hook's
     * id: no hook ever has a `dispatch` to hand out instead.
     */
    method UseState(init: Value) returns (state: Value, setter: HookId)
      requires Valid() && hookFiber.Some?
      modifies this
      ensures Valid()
      ensures var x := old(hookFiber).value;
        var h := NextHook(OldHookAt(old(fibers), old(hooks), x, old(hookIndex)), init);
        && hooks == old(hooks) + [h]
        && fibers == old(fibers)[x := old(fibers)[x].(hooks := old(fibers)[x].hooks + [|old(hooks)|])]
        && state == h.state && setter == |old(hooks)| && hookIndex == old(hookIndex) + 1
      ensures dom == old(dom) && deletions == old(deletions) && wip == old(wip) && current == old(current)
      ensures hookFiber == old(hookFiber)
    {
      var x := hookFiber.value;
      var prev := PreviousHook();
      var h := BuildHook(if prev.Some? then Some(hooks[prev.value]) else None, init);
      FreshSetterEveryRender(hooks, prev, init, |hooks|);
      var id := |hooks|;
      var r := PushHook(Work(fibers, hooks, dom, deletions), x, h);
      PushHookValid(State(), x, h);
      fibers, hooks, hookIndex := r.fs, r.hooks, hookIndex + 1;
      state := h.state;
      setter := SetterFor(h, id);
    }
  
    /**
     * The component branch of `performUnitOfWork` (areact06/AReact.jsx:238-245):
     * the fiber becomes `currentHookFiber` with an empty hook list and slot 0,
     * its body runs (its `useState` calls, in order), and `[result]` becomes
     * `props.children`.
     */
    method RenderComponent(x: FiberId)
      requires Valid() && x < |fibers| && IsComponent(fibers[x])
      modifies this
      ensures Valid() && State() == Prepare(lib, old(State()), x)
      ensures hookFiber == Some(x) && hookIndex == |lib(old(fibers)[x].ty.value.id).inits|
      ensures wip == old(wip) && current == old(current)
    {
      ghost var w0 := State();
      var c := lib(fibers[x].ty.value.id);
      ghost var hs := RenderHooks(fibers, hooks, x, c.inits);
      SetHooksValid(w0, x, []);
      fibers, hookFiber, hookIndex := fibers[x := fibers[x].(hooks := [])], Some(x), 0;
      var states: seq<Value> := [];
      var i := 0;
      while i < |c.inits|
        invariant Valid() && i <= |c.inits| && hookFiber == Some(x) && hookIndex == i
        invariant fibers == w0.fs[x := w0.fs[x].(hooks := Ids(|w0.hooks|, i))]
        invariant hooks == w0.hooks + hs[..i] && states == States(hs[..i])
        invariant dom == w0.dom && deletions == w0.dels && wip == old(wip) && current == old(current)
      {
        OldHookStable(w0.fs, w0.hooks, x, Ids(|w0.hooks|, i), hs[..i], i);
        var st, _ := UseState(c.inits[i]);
        HookListsGrow(hs, |w0.hooks|, i);
        RehookTwice(w0.fs, x, Ids(|w0.hooks|, i), Ids(|w0.hooks|, i + 1));
        states := states + [st];
        i := i + 1;
      }
      assert hs[..i] == hs;
      var props := fibers[x].props;
      ghost var p := Prepare(lib, w0, x);
      PrepareValid(lib, w0, x);
      fibers := fibers[x := fibers[x].(props := props[ChildrenKey := Array([c.body(props, states)])])];
      assert fibers == p.fs;
    }

    /**
     * The first half of `performUnitOfWork(x)` (areact06/AReact.jsx:230-254):
     * render a component, or give a host fiber without a node a new node of
     * its type.
     */
    method PrepareUnit(x: FiberId)
      requires Valid() && x < |fibers|
      modifies this
      ensures Valid() && State() == Prepare(lib, old(State()), x)
      ensures wip == old(wip) && current == old(current)
      ensures IsComponent(old(fibers)[x]) ==>
        hookFiber == Some(x) && hookIndex == |lib(old(fibers)[x].ty.value.id).inits|
      ensures !IsComponent(old(fibers)[x]) ==> hookFiber == old(hookFiber) && hookIndex == old(hookIndex)
    {
      ghost var w0 := State();
      if IsComponent(fibers[x]) {
        RenderComponent(x);
      } else if fibers[x].stateNode.None? {
        PrepareValid(lib, w0, x);
        var r := CreateNode(dom, KindOf(fibers[x].ty));
        fibers, dom := fibers[x := fibers[x].(stateNode := Some(r.1))], r.0;
      }
    }

    /**
     * `performUnitOfWork(x)` (areact06/AReact.jsx:228-260). When the fiber's
     * `children` is missing, `null` or `undefined` the source stops with a
     * TypeError: `ok` is false and the data is as prepared.
     */
    method PerformUnitOfWork(x: FiberId) returns (ok: bool, next: Option<FiberId>)
      requires Valid() && x < |fibers|
      modifies this
      ensures Valid()
      ensures var s := Perform(lib, old(State()), x); ok == s.ok && State() == s.w && next == s.next
      ensures wip == old(wip) && current == old(current)
      ensures IsComponent(old(fibers)[x]) ==>
        hookFiber == Some(x) && hookIndex == |lib(old(fibers)[x].ty.value.id).inits|
      ensures !IsComponent(old(fibers)[x]) ==> hookFiber == old(hookFiber) && hookIndex == old(hookIndex)
    {
      ghost var w0 := State();
      PrepareUnit(x);
      ghost var p := State();
      var kids := ChildrenOf(fibers[x].props);
      if kids.None? {
        assert Perform(lib, w0, x) == Step(false, p, Some(x));
        return false, Some(x);
      }
      var fs', dels := ReconcileChildren(fibers, x, kids.value);
      ReconciledValid(p, x, kids.value);
      ghost var w1 := Work(fs', hooks, dom, deletions + dels);
      assert Perform(lib, w0, x) == Step(true, w1, NextFiber(fs', x));
      assert WorkValid(w1) && |fibers| <= |fs'|;
      fibers, deletions := fs', deletions + dels;
      assert State() == w1;
      next := GetNextFiber(fibers, x);
      ok := true;
    }
  
    /**
     * Calling the setter `h` returned by `useState` (areact06/AReact.jsx:323-335)
     * with `a`; a render has happened, so there is a `current`. The root is
     * queued as the next unit of work.
     */
    method SetState(h: HookId, a: Action)
      requires Valid() && h < |hooks| && current.Some?
      modifies this
      ensures Valid()
      ensures State() == Requeue(old(State()), old(current).value, container, h, a)
      ensures wip == Some(|old(fibers)|) && current == old(current)
      ensures hookFiber == old(hookFiber) && hookIndex == old(hookIndex)
    {
      var c := current.value;
      var n := |fibers|;
      RequeueValid(State(), c, container, h, a);
      fibers := fibers[c := fibers[c].(alternate := Some(n))] + [RootFiber(container, fibers[c].props, Some(c))];
      hooks := Enqueue(hooks, h, a);
      deletions := [];
      wip := Some(n);
    }

    /**
     * `useReducer(reducer, initialState)` (areact06/AReact.jsx:344-352): a
     * `useState` slot whose dispatcher is its setter with the action
     * `state => reducer(state, action)`; the dispatcher is `Dispatch`.
     */
    method UseReducer(init: Value) returns (state: Value, dispatcher: HookId)
      requires Valid() && hookFiber.Some?
      modifies this
      ensures Valid()
      ensures var x := old(hookFiber).value;
        var h := NextHook(OldHookAt(old(fibers), old(hooks), x, old(hookIndex)), init);
        && hooks == old(hooks) + [h]
        && fibers == old(fibers)[x := old(fibers)[x].(hooks := old(fibers)[x].hooks + [|old(hooks)|])]
        && state == h.state && dispatcher == |old(hooks)| && hookIndex == old(hookIndex) + 1
      ensures dom == old(dom) && deletions == old(deletions) && wip == old(wip) && current == old(current)
      ensures hookFiber == old(hookFiber)
    {
      state, dispatcher := UseState(init);
    }

    /** The dispatcher of `useReducer(reducer, …)` called with `action`. */
    method Dispatch(h: HookId, reducer: (Value, Value) -> Value, action: Value)
      requires Valid() && h < |hooks| && current.Some?
      modifies this
      ensures Valid()
      ensures State() == Requeue(old(State()), old(current).value, container, h, ReducerAction(reducer, action))
      ensures wip == Some(|old(fibers)|) && current == old(current)
      ensures hookFiber == old(hookFiber) && hookIndex == old(hookIndex)
    {
      SetState(h, ReducerAction(reducer, action));
    }

    /**
     * `commitRoot()` (areact06/AReact.jsx:156-162), reached when `current`
     * has an alternate: the deletions and the new tree are committed, the
     * alternate becomes `current` and loses its own alternate. The deletions
     * list is not cleared. A failure during the commit leaves the data as it was.
     */
    method CommitRoot() returns (ok: bool)
      requires Valid() && current.Some? && fibers[current.value].alternate.Some?
      modifies this
      ensures Valid()
      ensures var c := Committed(old(State()), old(current).value);
        ok == c.ok && State() == c.w && current == c.current
      ensures wip == old(wip) && hookFiber == old(hookFiber) && hookIndex == old(hookIndex)
    {
      ghost var c := Committed(State(), current.value);
      var root := fibers[current.value].alternate.value;
      var r := Commit.CommitRoot(fibers, deletions, root, dom);
      if r.None? {
        assert c == Commitment(false, State(), current);
        return false;
      }
      var fs := fibers[root := fibers[root].(alternate := None)];
      assert c == Commitment(true, Work(fs, hooks, r.value, deletions), Some(root));
      assert WorkValid(c.w) && |fs| == |fibers|;
      fibers, dom, current := fs, r.value, Some(root);
      assert State() == c.w;
      ok := true;
    }

    /** `goal` is what `left` more turns of the loop from here lead to. */
    ghost predicate OnTrack(goal: Step, left: nat)
      requires Valid()
      reads this
    {
      goal == Loop(lib, Work(fibers, hooks, dom, deletions), wip, left)
    }

    /**
     * One turn of `while (workInProgress)` in `workloop()`
     * (areact06/AReact.jsx:263-265): `workInProgress = performUnitOfWork(workInProgress)`.
     */
    method Advance(ghost goal: Step, ghost left: nat) returns (done: bool)
      requires Valid() && wip.Some? && left > 0 && OnTrack(goal, left)
      modifies this
      ensures Valid() && current == old(current)
      ensures done ==> OnTrack(goal, Spend(left))
      ensures !done ==> goal == Step(false, Work(fibers, hooks, dom, deletions), wip)
    {
      ghost var s := Perform(lib, State(), wip.value);
      assert Loop(lib, State(), wip, left) == Turn(lib, State(), wip.value, left);
      var next;
      done, next := PerformUnitOfWork(wip.value);
      wip := next;
    }

    /**
     * `while (workInProgress)` in `workloop()` (areact06/AReact.jsx:263-265),
     * for at most `fuel` units of work. A failing unit ends the loop with the
     * cursor on it.
     */
    method PerformAll(fuel: nat) returns (ok: bool)
      requires Valid()
      modifies this
      ensures Valid()
      ensures var s := Loop(lib, old(State()), old(wip), fuel); ok == s.ok && State() == s.w && wip == s.next
      ensures current == old(current)
    {
      ghost var goal := Loop(lib, State(), wip, fuel);
      var left := fuel;
      while wip.Some? && left > 0
        invariant Valid() && current == old(current)
        invariant OnTrack(goal, left)
        decreases left
      {
        var done := Advance(goal, left);
        if !done {
          return false;
        }
        left := Spend(left);
      }
      ok := true;
    }

    /**
     * `workloop()` (areact06/AReact.jsx:262-271), for at most `fuel` units of
     * work: perform units until there is none left, then commit if `current`
     * has an alternate.
     */
    method Workloop(fuel: nat) returns (ok: bool)
      requires Valid()
      modifies this
      ensures Valid()
      ensures var o := Run(lib, old(State()), old(wip), old(current), fuel);
        ok == o.ok && State() == o.w && wip == o.wip && current == o.current
    {
      ok := PerformAll(fuel);
      if ok && wip.None? && current.Some? && fibers[current.value].alternate.Some? {
        ok := CommitRoot();
      }
    }
  }
}

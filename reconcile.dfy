/**
 * `reconcileChildren` of areact06 (areact06/AReact.jsx:164-226): the positional
 * comparison of the new children with the previous render's child fibers.
 *
 * The loop is modelled three ways: `ReconcileAt`/`ReconcileLoop` are the source's
 * loop body and loop; `ReconcileStep` is one iteration as a function; `Partial`
 * is a closed form of the arena after the first `k` iterations, which the loop
 * is proved to maintain and from which the properties are read off.
 */
module Reconcile {
  import opened Wrappers
  import opened Elements
  import opened Fibers

  /**
   * The list the `while (index < fiber.props.children.length || oldFiber)` loop
   * walks: an array's items, a string's characters, and nothing for any other
   * value, whose `length` and indices read `undefined`. Reading `length` of
   * `null` or `undefined` throws.
   */
  function ChildList(v: Value): (r: Option<seq<Value>>)
    ensures r.None? <==> v.Null? || v.Undefined?
    ensures v.Array? ==> r == Some(v.items)
    ensures v.Str? ==> r.Some? && |r.value| == |v.s| && forall i :: 0 <= i < |v.s| ==> r.value[i] == Str([v.s[i]])
    ensures !v.Array? && !v.Str? && r.Some? ==> r.value == []
  {
    match v
    case Array(items) => Some(items)
    case Str(s) => Some(seq(|s|, i requires 0 <= i < |s| => Str([s[i]])))
    case Null => None
    case Undefined => None
    case _ => Some([])
  }

  /** The children list of a fiber's props; a missing `children` reads `undefined`. */
  function ChildrenOf(props: map<string, Value>): (r: Option<seq<Value>>)
    ensures r.None? <==> ChildrenKey !in props || props[ChildrenKey].Null? || props[ChildrenKey].Undefined?
    ensures ChildrenKey in props && props[ChildrenKey].Array? ==> r == Some(props[ChildrenKey].items)
  {
    if ChildrenKey in props then ChildList(props[ChildrenKey]) else None
  }

  /** `fiber.props.children[index]`, which is `undefined` past the end. */
  function ChildAt(children: seq<Value>, i: nat): Value {
    if i < |children| then children[i] else Undefined
  }

  /** Every old fiber names a fiber of the arena. */
  predicate OldsIn(fs: seq<Fiber>, olds: seq<FiberId>) {
    forall k :: 0 <= k < |olds| ==> olds[k] < |fs|
  }

  /** `fiber.alternate?.child` and its siblings: the previous render's children of `f`. */
  ghost function OldChain(fs: seq<Fiber>, f: FiberId): (olds: seq<FiberId>)
    requires Linked(fs) && f < |fs|
    ensures OldsIn(fs, olds)
  {
    if fs[f].alternate.Some? then Chain(fs, fs[fs[f].alternate.value].child) else []
  }

  /** A sibling chain read off a linked arena is chained by `sibling` links and starts at its head. */
  lemma {:induction false} ChainIsChained(fs: seq<Fiber>, c: Option<FiberId>)
    requires Linked(fs) && InArena(fs, c)
    ensures ChainedBy(fs, Chain(fs, c)) && OldAt(Chain(fs, c), 0) == c
    decreases Depth(fs, c)
  {
    if c.Some? {
      var y := c.value;
      var rest := Chain(fs, fs[y].sibling);
      ChainIsChained(fs, fs[y].sibling);
      assert Chain(fs, c) == [y] + rest;
      forall k | 0 <= k < |[y] + rest|
        ensures ([y] + rest)[k] < |fs| && fs[([y] + rest)[k]].sibling == OldAt([y] + rest, k + 1)
      {
        if k > 0 {
          assert ([y] + rest)[k] == rest[k - 1];
          assert OldAt([y] + rest, k + 1) == OldAt(rest, k);
        }
      }
    }
  }

  /** `sameType`: an old fiber is there, the child is truthy, and the types are equal. */
  predicate SameType(fs: seq<Fiber>, child: Value, prior: Option<FiberId>)
    requires InArena(fs, prior)
  {
    prior.Some? && Truthy(child) && ChildType(child) == fs[prior.value].ty
  }

  /** A PLACEMENT fiber for `child` under `f`: no node, no alternate. */
  function PlacedFiber(f: FiberId, child: Value): Fiber {
    Fiber(ChildType(child), None, ChildProps(child), Some(f), None, None, None, Placement, [])
  }

  /** An UPDATE fiber for `child` under `f` that takes over `prior`'s node. */
  function UpdatedFiber(fs: seq<Fiber>, f: FiberId, child: Value, prior: FiberId): Fiber
    requires prior < |fs|
  {
    Fiber(ChildType(child), fs[prior].stateNode, ChildProps(child), Some(f), Some(prior), None, None, Update, [])
  }

  /** The fiber created for a truthy `child` at a position holding the old fiber `prior`. */
  function Created(fs: seq<Fiber>, f: FiberId, child: Value, prior: Option<FiberId>): (r: Fiber)
    requires InArena(fs, prior)
    ensures r.ret == Some(f) && r.child.None? && r.sibling.None? && r.hooks == []
    ensures InArena(fs, r.alternate)
  {
    if SameType(fs, child, prior) then UpdatedFiber(fs, f, child, prior.value) else PlacedFiber(f, child)
  }

  /** The state the loop carries: the arena, `prevSibling` and the deletions pushed so far. */
  datatype Cursor = Cursor(fs: seq<Fiber>, prev: Option<FiberId>, dels: seq<FiberId>)

  /** One iteration of the `while` loop, at position `i`. */
  function ReconcileStep(f: FiberId, child: Value, prior: Option<FiberId>, i: nat, c: Cursor): (r: Cursor)
    requires f < |c.fs| && InArena(c.fs, prior) && InArena(c.fs, c.prev)
    ensures |r.fs| == |c.fs| + (if Truthy(child) then 1 else 0)
    ensures r.prev == (if Truthy(child) then Some(|c.fs|) else None)
  {
    var fs := c.fs;
    var made: Option<FiberId> := if Truthy(child) then Some(|fs|) else None;
    var fs1 :=
      if Truthy(child) then fs + [Created(fs, f, child, prior)]
      else if prior.Some? then fs[prior.value := fs[prior.value].(effectTag := Deletion)]
      else fs;
    var dels := if !Truthy(child) && prior.Some? then c.dels + [prior.value] else c.dels;
    var fs2 :=
      if i == 0 then fs1[f := fs1[f].(child := made)]
      else if c.prev.Some? then fs1[c.prev.value := fs1[c.prev.value].(sibling := made)]
      else fs1;
    Cursor(fs2, made, dels)
  }

  // ---------------------------------------------------------------------------
  // The arena after the first `k` iterations, in closed form
  // ---------------------------------------------------------------------------

  /** The positions below `k` whose child is truthy, in order: the positions that get a fiber. */
  function Made(children: seq<Value>, k: nat): (ps: seq<nat>)
    ensures forall t :: 0 <= t < |ps| ==> ps[t] < k && Truthy(ChildAt(children, ps[t]))
    ensures |ps| <= k
  {
    if k == 0 then [] else Made(children, k - 1) + (if Truthy(ChildAt(children, k - 1)) then [k - 1] else [])
  }

  /** The old fibers at the positions below `k` whose child is falsy, in order. */
  function Deleted(children: seq<Value>, olds: seq<FiberId>, k: nat): seq<FiberId> {
    if k == 0 then []
    else Deleted(children, olds, k - 1) + (if k - 1 < |olds| && !Truthy(ChildAt(children, k - 1)) then [olds[k - 1]] else [])
  }

  /** The id the child at position `p` gets when it is truthy: `next`, the next free id. */
  function MadeAt(children: seq<Value>, p: nat, next: FiberId): Option<FiberId> {
    if Truthy(ChildAt(children, p)) then Some(next) else None
  }

  /**
   * Fiber `x` after `k` iterations. An existing fiber keeps everything but its
   * tag, which is DELETION when it is an old fiber at a falsy position, and, for
   * `f`, its `child`, which is the first child's fiber. The `t`-th new fiber is
   * the one `Created` for the `t`-th truthy child, and its `sibling` is the next
   * one when the next position, once visited, holds a truthy child.
   */
  function PartialFiber(fs: seq<Fiber>, f: FiberId, children: seq<Value>, olds: seq<FiberId>, k: nat, x: nat): Fiber
    requires OldsIn(fs, olds) && x < |fs| + |Made(children, k)|
  {
    if x < |fs| then
      fs[x].(effectTag := if x in Deleted(children, olds, k) then Deletion else fs[x].effectTag,
             child := if x == f && k > 0 then MadeAt(children, 0, |fs|) else fs[x].child)
    else
      var p := Made(children, k)[x - |fs|];
      Created(fs, f, ChildAt(children, p), OldAt(olds, p))
        .(sibling := if p + 1 < k then MadeAt(children, p + 1, x + 1) else None)
  }

  /** The loop's state after the first `k` iterations. */
  function Partial(fs: seq<Fiber>, f: FiberId, children: seq<Value>, olds: seq<FiberId>, k: nat): (c: Cursor)
    requires OldsIn(fs, olds)
    ensures |c.fs| == |fs| + |Made(children, k)|
  {
    var n := |fs| + |Made(children, k)|;
    var prev := if k > 0 && Truthy(ChildAt(children, k - 1)) then Some(n - 1) else None;
    Cursor(seq(n, x requires 0 <= x < n => PartialFiber(fs, f, children, olds, k, x)), prev, Deleted(children, olds, k))
  }

  /** How many times the loop runs: while a child or an old fiber is left. */
  function Rounds(children: seq<Value>, olds: seq<FiberId>): nat {
    if |children| < |olds| then |olds| else |children|
  }

  /** The arena and the deletions after `reconcileChildren(fiber, children)`. */
  ghost function Reconciled(fs: seq<Fiber>, f: FiberId, children: seq<Value>): (c: Cursor)
    requires Linked(fs) && f < |fs|
    ensures Linked(c.fs) && |fs| <= |c.fs|
  {
    var olds := OldChain(fs, f);
    PartialLinked(fs, f, children, olds, Rounds(children, olds));
    Partial(fs, f, children, olds, Rounds(children, olds))
  }

  // ---------------------------------------------------------------------------
  // The source's loop, proved to compute `Reconciled`
  // ---------------------------------------------------------------------------

  /** The body of the `while` loop (areact06/AReact.jsx:176-222): create or delete, then link. */
  method ReconcileAt(f: FiberId, child: Value, oldFiber: Option<FiberId>, index: nat, fs: seq<Fiber>, prevSibling: Option<FiberId>, dels: seq<FiberId>)
    returns (fs': seq<Fiber>, newFiber: Option<FiberId>, dels': seq<FiberId>)
    requires f < |fs| && InArena(fs, oldFiber) && InArena(fs, prevSibling)
    ensures Cursor(fs', newFiber, dels') == ReconcileStep(f, child, oldFiber, index, Cursor(fs, prevSibling, dels))
  {
    fs', dels' := fs, dels;
    newFiber := None;
    var sameType := oldFiber.Some? && Truthy(child) && ChildType(child) == fs[oldFiber.value].ty;
    if Truthy(child) && !sameType {
      newFiber := Some(|fs|);
      fs' := fs + [PlacedFiber(f, child)];
    } else if sameType {
      newFiber := Some(|fs|);
      fs' := fs + [UpdatedFiber(fs, f, child, oldFiber.value)];
    } else if oldFiber.Some? {
      fs' := fs[oldFiber.value := fs[oldFiber.value].(effectTag := Deletion)];
      dels' := dels + [oldFiber.value];
    }
    if index == 0 {
      fs' := fs'[f := fs'[f].(child := newFiber)];
    } else if prevSibling.Some? {
      fs' := fs'[prevSibling.value := fs'[prevSibling.value].(sibling := newFiber)];
    }
  }

  /**
   * The `while` loop of `reconcileChildren` (areact06/AReact.jsx:176-223), from
   * the first old child `oldFiber` on: `olds` is the old chain it walks through
   * `sibling` links.
   */
  method ReconcileLoop(fs: seq<Fiber>, f: FiberId, children: seq<Value>, oldFiber: Option<FiberId>, ghost olds: seq<FiberId>)
    returns (fs': seq<Fiber>, dels: seq<FiberId>)
    requires f < |fs| && ChainedBy(fs, olds) && oldFiber == OldAt(olds, 0)
    ensures OldsIn(fs, olds)
    ensures fs' == Partial(fs, f, children, olds, Rounds(children, olds)).fs
    ensures dels == Partial(fs, f, children, olds, Rounds(children, olds)).dels
  {
    assert OldsIn(fs, olds);
    var oldFiber := oldFiber;
    var prevSibling: Option<FiberId> := None;
    var index := 0;
    fs', dels := fs, [];
    PartialStart(fs, f, children, olds);
    while index < |children| || oldFiber.Some?
      invariant index <= Rounds(children, olds)
      invariant Cursor(fs', prevSibling, dels) == Partial(fs, f, children, olds, index)
      invariant oldFiber == OldAt(olds, index)
      decreases Rounds(children, olds) - index
    {
      PartialStep(fs, f, children, olds, index);
      var newFiber;
      fs', newFiber, dels := ReconcileAt(f, ChildAt(children, index), oldFiber, index, fs', prevSibling, dels);
      if oldFiber.Some? {
        PartialKeepsOld(fs, f, children, olds, index + 1, oldFiber.value);
        oldFiber := fs'[oldFiber.value].sibling;
      }
      prevSibling := newFiber;
      index := index + 1;
    }
  }

  /** `reconcileChildren(fiber, children)`: find the old chain, then run the loop over it. */
  method ReconcileChildren(fs: seq<Fiber>, f: FiberId, children: seq<Value>) returns (fs': seq<Fiber>, dels: seq<FiberId>)
    requires Linked(fs) && f < |fs|
    ensures fs' == Reconciled(fs, f, children).fs && dels == Reconciled(fs, f, children).dels
  {
    var oldFiber: Option<FiberId> := None;
    if fs[f].alternate.Some? {
      oldFiber := fs[fs[f].alternate.value].child;
      ChainIsChained(fs, oldFiber);
    }
    fs', dels := ReconcileLoop(fs, f, children, oldFiber, OldChain(fs, f));
  }

  // ---------------------------------------------------------------------------
  // One iteration takes `Partial(k)` to `Partial(k + 1)`
  // ---------------------------------------------------------------------------

  /** Before the loop, the closed form is the arena as given. */
  lemma PartialStart(fs: seq<Fiber>, f: FiberId, children: seq<Value>, olds: seq<FiberId>)
    requires OldsIn(fs, olds)
    ensures Partial(fs, f, children, olds, 0) == Cursor(fs, None, [])
  {
    var p := Partial(fs, f, children, olds, 0);
    forall x | 0 <= x < |fs|
      ensures p.fs[x] == fs[x]
    {
    }
  }

  /** Appending a position to the truthy positions keeps the earlier ones. */
  lemma MadePrefix(children: seq<Value>, k: nat, t: nat)
    requires t < |Made(children, k)|
    ensures t < |Made(children, k + 1)| && Made(children, k + 1)[t] == Made(children, k)[t]
  {
  }

  /** The truthy positions are increasing. */
  lemma {:induction false} MadeIncreasing(children: seq<Value>, k: nat, t: nat)
    requires t + 1 < |Made(children, k)|
    ensures Made(children, k)[t] < Made(children, k)[t + 1]
  {
    var ps := Made(children, k - 1);
    if t + 1 < |ps| {
      MadeIncreasing(children, k - 1, t);
    } else {
      assert Made(children, k)[t + 1] == k - 1;
    }
  }

  /** Only the last truthy position below `k` can be `k - 1`. */
  lemma MadeLast(children: seq<Value>, k: nat, t: nat)
    requires t < |Made(children, k)| && Made(children, k)[t] + 1 == k
    ensures t == |Made(children, k)| - 1 && Truthy(ChildAt(children, k - 1))
  {
    if t + 1 < |Made(children, k)| {
      MadeIncreasing(children, k, t);
    }
  }

  /** An existing fiber after an iteration. */
  lemma StepOld(fs: seq<Fiber>, f: FiberId, children: seq<Value>, olds: seq<FiberId>, k: nat, x: nat)
    requires OldsIn(fs, olds) && f < |fs| && x < |fs|
    ensures var p := Partial(fs, f, children, olds, k);
      InArena(p.fs, OldAt(olds, k)) && InArena(p.fs, p.prev)
      && ReconcileStep(f, ChildAt(children, k), OldAt(olds, k), k, p).fs[x]
        == Partial(fs, f, children, olds, k + 1).fs[x]
  {
    var p := Partial(fs, f, children, olds, k);
    var q := Partial(fs, f, children, olds, k + 1);
    assert Deleted(children, olds, k + 1) == Deleted(children, olds, k)
      + (if k < |olds| && !Truthy(ChildAt(children, k)) then [olds[k]] else []);
    assert p.fs[x] == PartialFiber(fs, f, children, olds, k, x);
    assert q.fs[x] == PartialFiber(fs, f, children, olds, k + 1, x);
  }

  /** A fiber made in an earlier iteration, after one more. */
  lemma StepEarlier(fs: seq<Fiber>, f: FiberId, children: seq<Value>, olds: seq<FiberId>, k: nat, x: nat)
    requires OldsIn(fs, olds) && f < |fs| && |fs| <= x < |fs| + |Made(children, k)|
    ensures var p := Partial(fs, f, children, olds, k);
      InArena(p.fs, OldAt(olds, k)) && InArena(p.fs, p.prev)
      && ReconcileStep(f, ChildAt(children, k), OldAt(olds, k), k, p).fs[x]
        == Partial(fs, f, children, olds, k + 1).fs[x]
  {
    var p := Partial(fs, f, children, olds, k);
    var q := Partial(fs, f, children, olds, k + 1);
    var t := x - |fs|;
    MadePrefix(children, k, t);
    var pos := Made(children, k)[t];
    if pos + 1 == k {
      MadeLast(children, k, t);
    }
    assert p.fs[x] == PartialFiber(fs, f, children, olds, k, x);
    assert q.fs[x] == PartialFiber(fs, f, children, olds, k + 1, x);
  }

  /** The fiber an iteration makes for a truthy child. */
  lemma StepNewest(fs: seq<Fiber>, f: FiberId, children: seq<Value>, olds: seq<FiberId>, k: nat)
    requires OldsIn(fs, olds) && f < |fs| && Truthy(ChildAt(children, k))
    ensures var p := Partial(fs, f, children, olds, k);
      InArena(p.fs, OldAt(olds, k)) && InArena(p.fs, p.prev)
      && ReconcileStep(f, ChildAt(children, k), OldAt(olds, k), k, p).fs[|p.fs|]
        == Partial(fs, f, children, olds, k + 1).fs[|p.fs|]
  {
    var p := Partial(fs, f, children, olds, k);
    var q := Partial(fs, f, children, olds, k + 1);
    var x := |p.fs|;
    assert Made(children, k + 1)[x - |fs|] == k;
    if k < |olds| {
      assert p.fs[olds[k]] == PartialFiber(fs, f, children, olds, k, olds[k]);
    }
    assert Created(p.fs, f, ChildAt(children, k), OldAt(olds, k)) == Created(fs, f, ChildAt(children, k), OldAt(olds, k));
    assert q.fs[x] == PartialFiber(fs, f, children, olds, k + 1, x);
  }

  /** The loop body takes the closed form after `k` iterations to the one after `k + 1`. */
  lemma PartialStep(fs: seq<Fiber>, f: FiberId, children: seq<Value>, olds: seq<FiberId>, k: nat)
    requires OldsIn(fs, olds) && f < |fs|
    ensures var p := Partial(fs, f, children, olds, k);
      f < |p.fs| && InArena(p.fs, OldAt(olds, k)) && InArena(p.fs, p.prev)
      && ReconcileStep(f, ChildAt(children, k), OldAt(olds, k), k, p) == Partial(fs, f, children, olds, k + 1)
  {
    var p := Partial(fs, f, children, olds, k);
    var q := Partial(fs, f, children, olds, k + 1);
    assert |Made(children, k + 1)| == |Made(children, k)| + (if Truthy(ChildAt(children, k)) then 1 else 0);
    assert k > 0 && Truthy(ChildAt(children, k - 1)) ==> |Made(children, k)| > 0;
    var r := ReconcileStep(f, ChildAt(children, k), OldAt(olds, k), k, p);
    assert r.prev == q.prev;
    assert r.dels == q.dels;
    forall x | 0 <= x < |r.fs|
      ensures r.fs[x] == q.fs[x]
    {
      if x < |fs| {
        StepOld(fs, f, children, olds, k, x);
      } else if x < |p.fs| {
        StepEarlier(fs, f, children, olds, k, x);
      } else {
        StepNewest(fs, f, children, olds, k);
      }
    }
    assert r.fs == q.fs;
  }

  /** An existing fiber keeps its `sibling` link. */
  lemma PartialKeepsOld(fs: seq<Fiber>, f: FiberId, children: seq<Value>, olds: seq<FiberId>, k: nat, x: nat)
    requires OldsIn(fs, olds) && x < |fs|
    ensures Partial(fs, f, children, olds, k).fs[x].sibling == fs[x].sibling
  {
    assert Partial(fs, f, children, olds, k).fs[x] == PartialFiber(fs, f, children, olds, k, x);
  }

  // ---------------------------------------------------------------------------
  // What the closed form says
  // ---------------------------------------------------------------------------

  /** A truthy position right after a truthy position is the next truthy position. */
  lemma {:induction false} MadeNext(children: seq<Value>, k: nat, t: nat)
    requires t < |Made(children, k)| && Made(children, k)[t] + 1 < k
    requires Truthy(ChildAt(children, Made(children, k)[t] + 1))
    ensures t + 1 < |Made(children, k)| && Made(children, k)[t + 1] == Made(children, k)[t] + 1
  {
    var p := Made(children, k)[t];
    var ps := Made(children, k - 1);
    assert Made(children, k) == ps + (if Truthy(ChildAt(children, k - 1)) then [k - 1] else []);
    assert t < |ps| && ps[t] == p;
    if p + 1 < k - 1 {
      MadeNext(children, k - 1, t);
    } else {
      MadeLast(children, k - 1, t);
    }
  }

  /**
   * The number of leading truthy children among the first `k`: the children
   * that end up on `f`'s child chain.
   */
  function Lead(children: seq<Value>, k: nat): (l: nat)
    ensures l <= k
    ensures forall i :: 0 <= i < l ==> Truthy(ChildAt(children, i))
    ensures l < k ==> !Truthy(ChildAt(children, l))
  {
    if k == 0 then 0
    else if Lead(children, k - 1) == k - 1 && Truthy(ChildAt(children, k - 1)) then k
    else Lead(children, k - 1)
  }

  /** The leading truthy children are the first truthy positions. */
  lemma {:induction false} MadeLeading(children: seq<Value>, k: nat, t: nat)
    requires t < Lead(children, k)
    ensures t < |Made(children, k)| && Made(children, k)[t] == t
  {
    var ps := Made(children, k - 1);
    if Lead(children, k) == k {
      forall u | 0 <= u < k - 1
        ensures u < |ps| && ps[u] == u
      {
        MadeLeading(children, k - 1, u);
      }
      assert Lead(children, k - 1) == k - 1 && Truthy(ChildAt(children, k - 1));
      if k - 1 > 0 {
        MadeLeading(children, k - 1, k - 2);
      }
      assert |ps| == k - 1;
      assert Made(children, k) == ps + [k - 1];
    } else {
      MadeLeading(children, k - 1, t);
    }
  }

  /** Fiber `x` of the arena keeps its links in the closed form. */
  lemma PartialLinkedOld(fs: seq<Fiber>, f: FiberId, children: seq<Value>, olds: seq<FiberId>, k: nat, x: FiberId)
    requires OldsIn(fs, olds) && f < |fs| && x < |fs| && LinkedFiber(fs, x)
    ensures LinkedFiber(Partial(fs, f, children, olds, k).fs, x)
  {
    var q := Partial(fs, f, children, olds, k).fs;
    assert q[x] == PartialFiber(fs, f, children, olds, k, x);
    if x == f && k > 0 && Truthy(ChildAt(children, 0)) {
      MadeLeading(children, k, 0);
      assert q[|fs|] == PartialFiber(fs, f, children, olds, k, |fs|);
    } else if q[x].child.Some? {
      assert q[fs[x].child.value] == PartialFiber(fs, f, children, olds, k, fs[x].child.value);
    }
    if q[x].sibling.Some? {
      assert q[fs[x].sibling.value] == PartialFiber(fs, f, children, olds, k, fs[x].sibling.value);
    }
  }

  /** A fiber the loop made is linked under `f`, before the next one. */
  lemma PartialLinkedNew(fs: seq<Fiber>, f: FiberId, children: seq<Value>, olds: seq<FiberId>, k: nat, x: FiberId)
    requires OldsIn(fs, olds) && f < |fs| && |fs| <= x < |Partial(fs, f, children, olds, k).fs|
    ensures LinkedFiber(Partial(fs, f, children, olds, k).fs, x)
  {
    var q := Partial(fs, f, children, olds, k).fs;
    assert q[x] == PartialFiber(fs, f, children, olds, k, x);
    if q[x].sibling.Some? {
      MadeNext(children, k, x - |fs|);
      assert q[x + 1] == PartialFiber(fs, f, children, olds, k, x + 1);
    }
  }

  /**
   * The loop keeps the arena linked: every fiber it makes hangs under `f`, and
   * each one's `sibling` is the fiber of the next position.
   */
  lemma PartialLinked(fs: seq<Fiber>, f: FiberId, children: seq<Value>, olds: seq<FiberId>, k: nat)
    requires Linked(fs) && OldsIn(fs, olds) && f < |fs|
    ensures Linked(Partial(fs, f, children, olds, k).fs)
  {
    var q := Partial(fs, f, children, olds, k).fs;
    LinkedEveryFiber(fs);
    forall x | 0 <= x < |q|
      ensures LinkedFiber(q, x)
    {
      if x < |fs| {
        PartialLinkedOld(fs, f, children, olds, k, x);
      } else {
        PartialLinkedNew(fs, f, children, olds, k, x);
      }
    }
    LinkedEveryFiber(q);
  }

  /** The new fiber of leading child `t` is followed by that of child `t + 1`, if it leads too. */
  lemma LeadSibling(fs: seq<Fiber>, f: FiberId, children: seq<Value>, olds: seq<FiberId>, k: nat, t: nat)
    requires OldsIn(fs, olds) && t < Lead(children, k)
    ensures |fs| + t < |Partial(fs, f, children, olds, k).fs|
    ensures Partial(fs, f, children, olds, k).fs[|fs| + t].sibling
      == if t + 1 < Lead(children, k) then Some(|fs| + t + 1) else None
  {
    MadeLeading(children, k, t);
    assert Partial(fs, f, children, olds, k).fs[|fs| + t] == PartialFiber(fs, f, children, olds, k, |fs| + t);
  }

  /** The new fibers of the leading children, chained by their `sibling` links. */
  lemma LeadChained(fs: seq<Fiber>, f: FiberId, children: seq<Value>, olds: seq<FiberId>, k: nat)
    requires OldsIn(fs, olds)
    ensures ChainedBy(Partial(fs, f, children, olds, k).fs, seq(Lead(children, k), i => |fs| + i))
  {
    var n := Lead(children, k);
    var s := seq(n, i => |fs| + i);
    var q := Partial(fs, f, children, olds, k).fs;
    forall t | 0 <= t < |s|
      ensures s[t] < |q| && q[s[t]].sibling == OldAt(s, t + 1)
    {
      LeadSibling(fs, f, children, olds, k, t);
      assert s[t] == |fs| + t;
      assert OldAt(s, t + 1) == if t + 1 < n then Some(|fs| + t + 1) else None;
    }
  }

  /** After the first iteration, `f`'s `child` is the first child's fiber, if that child is truthy. */
  lemma PartialFirstChild(fs: seq<Fiber>, f: FiberId, children: seq<Value>, olds: seq<FiberId>, k: nat)
    requires OldsIn(fs, olds) && f < |fs| && k > 0
    ensures Partial(fs, f, children, olds, k).fs[f].child == OldAt(seq(Lead(children, k), i => |fs| + i), 0)
  {
    assert Partial(fs, f, children, olds, k).fs[f] == PartialFiber(fs, f, children, olds, k, f);
  }

  /**
   * The child chain of `f` after the loop: the fibers of the leading truthy
   * children, in order. A falsy child ends it, and the fibers made for the
   * children after it hang under `f` without being reachable from it.
   */
  lemma PartialChildChain(fs: seq<Fiber>, f: FiberId, children: seq<Value>, olds: seq<FiberId>, k: nat)
    requires Linked(fs) && OldsIn(fs, olds) && f < |fs| && k > 0
    ensures var q := Partial(fs, f, children, olds, k).fs;
      Linked(q) && InArena(q, q[f].child) && Chain(q, q[f].child) == seq(Lead(children, k), i => |fs| + i)
  {
    var q := Partial(fs, f, children, olds, k).fs;
    PartialLinked(fs, f, children, olds, k);
    PartialFirstChild(fs, f, children, olds, k);
    LeadChained(fs, f, children, olds, k);
    ChainedIsChain(q, seq(Lead(children, k), i => |fs| + i));
  }

  /** An old fiber is pushed to the deletions exactly when its position holds a falsy child. */
  lemma {:induction false} DeletedIff(children: seq<Value>, olds: seq<FiberId>, k: nat, x: FiberId)
    ensures x in Deleted(children, olds, k)
      <==> exists j :: 0 <= j < k && j < |olds| && olds[j] == x && !Truthy(ChildAt(children, j))
  {
    if k > 0 {
      DeletedIff(children, olds, k - 1, x);
      if exists j :: 0 <= j < k && j < |olds| && olds[j] == x && !Truthy(ChildAt(children, j)) {
        var j :| 0 <= j < k && j < |olds| && olds[j] == x && !Truthy(ChildAt(children, j));
        if j < k - 1 {
          assert x in Deleted(children, olds, k - 1);
        }
      }
    }
  }

  /**
   * The fibers already in the arena are left as they were, but for `f`'s
   * `child` and the DELETION tag on each old fiber whose position holds a
   * falsy child; an old fiber whose child merely changed type is not deleted.
   */
  lemma PartialOldFibers(fs: seq<Fiber>, f: FiberId, children: seq<Value>, olds: seq<FiberId>, k: nat, x: FiberId)
    requires OldsIn(fs, olds) && x < |fs|
    ensures x < |Partial(fs, f, children, olds, k).fs|
    ensures var y := Partial(fs, f, children, olds, k).fs[x];
      && y.(effectTag := fs[x].effectTag, child := fs[x].child) == fs[x]
      && (x != f || k == 0 ==> y.child == fs[x].child)
      && y.effectTag == if exists j :: 0 <= j < k && j < |olds| && olds[j] == x && !Truthy(ChildAt(children, j))
                        then Deletion else fs[x].effectTag
  {
    DeletedIff(children, olds, k, x);
    assert Partial(fs, f, children, olds, k).fs[x] == PartialFiber(fs, f, children, olds, k, x);
  }

  /**
   * The fiber made for the `t`-th truthy child, at position `p`: it hangs under
   * `f` with that child's type and props, and is an UPDATE of the old fiber at
   * `p`, whose node it takes over, when that old fiber has the same type, and
   * a PLACEMENT without a node otherwise.
   */
  lemma PartialNewFiber(fs: seq<Fiber>, f: FiberId, children: seq<Value>, olds: seq<FiberId>, k: nat, t: nat)
    requires OldsIn(fs, olds) && t < |Made(children, k)|
    ensures |fs| + t < |Partial(fs, f, children, olds, k).fs|
    ensures var y := Partial(fs, f, children, olds, k).fs[|fs| + t];
      var p := Made(children, k)[t];
      var child := ChildAt(children, p);
      && p < k && Truthy(child)
      && y.ty == ChildType(child) && y.props == ChildProps(child)
      && y.ret == Some(f) && y.child.None? && y.hooks == []
      && (if p < |olds| && ChildType(child) == fs[olds[p]].ty
          then y.effectTag == Update && y.alternate == Some(olds[p]) && y.stateNode == fs[olds[p]].stateNode
          else y.effectTag == Placement && y.alternate.None? && y.stateNode.None?)
  {
    assert Partial(fs, f, children, olds, k).fs[|fs| + t] == PartialFiber(fs, f, children, olds, k, |fs| + t);
  }

  /** The truthy positions of the first `k` children each get exactly one new fiber, in order. */
  lemma {:induction false} MadeIff(children: seq<Value>, k: nat, p: nat)
    ensures p < k && Truthy(ChildAt(children, p)) <==> exists t :: 0 <= t < |Made(children, k)| && Made(children, k)[t] == p
  {
    if p < k && Truthy(ChildAt(children, p)) {
      var t := MadeIndex(children, k, p);
    }
  }

  /** The index among the made positions of a truthy position below `k`. */
  lemma {:induction false} MadeIndex(children: seq<Value>, k: nat, p: nat) returns (t: nat)
    requires p < k && Truthy(ChildAt(children, p))
    ensures t < |Made(children, k)| && Made(children, k)[t] == p
  {
    var ps := Made(children, k - 1);
    assert Made(children, k) == ps + (if Truthy(ChildAt(children, k - 1)) then [k - 1] else []);
    if p == k - 1 {
      t := |ps|;
    } else {
      t := MadeIndex(children, k - 1, p);
    }
  }

  /** Over [A, B, C], the list [A, C] takes three rounds, makes two fibers and deletes the old C. */
  lemma DropMiddleSchedule(a: FiberId, b: FiberId, c: FiberId, pa: map<string, Value>, pc: map<string, Value>)
    ensures var olds := [a, b, c];
      var children := [Elem(Element(Tag("A"), pa)), Elem(Element(Tag("C"), pc))];
      && Rounds(children, olds) == 3 && Made(children, 3) == [0, 1] && Deleted(children, olds, 3) == [c]
  {
    var olds := [a, b, c];
    var children := [Elem(Element(Tag("A"), pa)), Elem(Element(Tag("C"), pc))];
    assert Truthy(ChildAt(children, 0)) && Truthy(ChildAt(children, 1)) && ChildAt(children, 2) == Undefined;
    assert Made(children, 1) == [0];
    assert Made(children, 2) == [0, 1];
    assert Deleted(children, olds, 1) == [];
    assert Deleted(children, olds, 2) == [];
  }

  /**
   * Rendering [A, C] over the old children [A, B, C] (areact06/AReact.jsx:176-222):
   * A is updated in place, C at position 1 faces the old B and is placed anew,
   * the old C at position 2 faces nothing and is deleted, and the old B is
   * neither reused nor deleted.
   */
  lemma DropMiddleScenario(fs: seq<Fiber>, f: FiberId, a: FiberId, b: FiberId, c: FiberId, pa: map<string, Value>, pc: map<string, Value>)
    requires a < |fs| && b < |fs| && c < |fs| && a != b && b != c && a != c
    requires fs[a].ty == Some(Tag("A")) && fs[b].ty == Some(Tag("B")) && fs[c].ty == Some(Tag("C"))
    ensures var olds := [a, b, c];
      var children := [Elem(Element(Tag("A"), pa)), Elem(Element(Tag("C"), pc))];
      var q := Partial(fs, f, children, olds, Rounds(children, olds));
      && |q.fs| == |fs| + 2 && q.dels == [c]
      && q.fs[|fs|].effectTag == Update && q.fs[|fs|].alternate == Some(a)
      && q.fs[|fs| + 1].effectTag == Placement && q.fs[|fs| + 1].alternate.None?
      && q.fs[|fs|].sibling == Some(|fs| + 1) && q.fs[|fs| + 1].sibling.None?
      && q.fs[c].effectTag == Deletion && q.fs[b].effectTag == fs[b].effectTag
  {
    DropMiddleSchedule(a, b, c, pa, pc);
    DropMiddleNew(fs, f, a, b, c, pa, pc);
    DropMiddleOld(fs, f, a, b, c, pa, pc);
  }

  /** The two new fibers of the [A, C] over [A, B, C] scenario. */
  lemma DropMiddleNew(fs: seq<Fiber>, f: FiberId, a: FiberId, b: FiberId, c: FiberId, pa: map<string, Value>, pc: map<string, Value>)
    requires a < |fs| && b < |fs| && c < |fs| && a != b && b != c && a != c
    requires fs[a].ty == Some(Tag("A")) && fs[b].ty == Some(Tag("B")) && fs[c].ty == Some(Tag("C"))
    ensures var olds := [a, b, c];
      var children := [Elem(Element(Tag("A"), pa)), Elem(Element(Tag("C"), pc))];
      var q := Partial(fs, f, children, olds, 3).fs;
      && |q| == |fs| + 2
      && q[|fs|].effectTag == Update && q[|fs|].alternate == Some(a)
      && q[|fs| + 1].effectTag == Placement && q[|fs| + 1].alternate.None?
      && q[|fs|].sibling == Some(|fs| + 1) && q[|fs| + 1].sibling.None?
  {
    var olds := [a, b, c];
    var children := [Elem(Element(Tag("A"), pa)), Elem(Element(Tag("C"), pc))];
    assert OldsIn(fs, olds);
    DropMiddleSchedule(a, b, c, pa, pc);
    var q := Partial(fs, f, children, olds, 3);
    assert q.fs[|fs|] == PartialFiber(fs, f, children, olds, 3, |fs|);
    assert q.fs[|fs| + 1] == PartialFiber(fs, f, children, olds, 3, |fs| + 1);
  }

  /** The old B and C of the [A, C] over [A, B, C] scenario. */
  lemma DropMiddleOld(fs: seq<Fiber>, f: FiberId, a: FiberId, b: FiberId, c: FiberId, pa: map<string, Value>, pc: map<string, Value>)
    requires a < |fs| && b < |fs| && c < |fs| && a != b && b != c && a != c
    ensures var olds := [a, b, c];
      var children := [Elem(Element(Tag("A"), pa)), Elem(Element(Tag("C"), pc))];
      var q := Partial(fs, f, children, olds, 3);
      q.dels == [c] && q.fs[c].effectTag == Deletion && q.fs[b].effectTag == fs[b].effectTag
  {
    var olds := [a, b, c];
    var children := [Elem(Element(Tag("A"), pa)), Elem(Element(Tag("C"), pc))];
    assert OldsIn(fs, olds);
    DropMiddleSchedule(a, b, c, pa, pc);
    var q := Partial(fs, f, children, olds, 3);
    assert q.fs[b] == PartialFiber(fs, f, children, olds, 3, b);
    assert q.fs[c] == PartialFiber(fs, f, children, olds, 3, c);
  }

  /**
   * `reconcileChildren` keeps the arena linked, and `f`'s child chain is then
   * the fibers of its leading truthy children.
   */
  /** With only falsy children every old fiber is deleted, in chain order. */
  lemma {:induction false} DeletedAllFalsy(children: seq<Value>, olds: seq<FiberId>, k: nat)
    requires k <= |olds| && forall i :: 0 <= i < |children| ==> !Truthy(children[i])
    ensures Deleted(children, olds, k) == olds[..k]
  {
    if k > 0 {
      DeletedAllFalsy(children, olds, k - 1);
      assert !Truthy(ChildAt(children, k - 1));
      assert olds[..k] == olds[..k - 1] + [olds[k - 1]];
    }
  }

  /** With only falsy children no position gets a fiber. */
  lemma {:induction false} MadeAllFalsy(children: seq<Value>, k: nat)
    requires forall i :: 0 <= i < |children| ==> !Truthy(children[i])
    ensures Made(children, k) == []
  {
    if k > 0 {
      MadeAllFalsy(children, k - 1);
      assert !Truthy(ChildAt(children, k - 1));
    }
  }

  /**
   * Reconciling an empty list (what a non-list `children` reads as) creates no
   * fiber and deletes every child of the previous render.
   */
  lemma ReconciledEmpty(fs: seq<Fiber>, f: FiberId)
    requires Linked(fs) && f < |fs|
    ensures var rc := Reconciled(fs, f, []);
      |rc.fs| == |fs| && rc.dels == OldChain(fs, f)
  {
    var olds := OldChain(fs, f);
    DeletedAllFalsy([], olds, |olds|);
    MadeAllFalsy([], Rounds([], olds));
    assert olds[..|olds|] == olds;
  }

  lemma ReconciledChildChain(fs: seq<Fiber>, f: FiberId, children: seq<Value>)
    requires Linked(fs) && f < |fs| && children != []
    ensures var q := Reconciled(fs, f, children).fs;
      Linked(q) && InArena(q, q[f].child) && Chain(q, q[f].child) == seq(Lead(children, Rounds(children, OldChain(fs, f))), i => |fs| + i)
  {
    PartialChildChain(fs, f, children, OldChain(fs, f), Rounds(children, OldChain(fs, f)));
  }

  /**
   * The loop writes no node and no hook record: the fibers of the arena keep
   * theirs, and a new fiber starts without hooks and owns a node only when it
   * took over its alternate's.
   */
  lemma PartialFrame(fs: seq<Fiber>, f: FiberId, children: seq<Value>, olds: seq<FiberId>, k: nat, x: FiberId)
    requires OldsIn(fs, olds) && x < |Partial(fs, f, children, olds, k).fs|
    ensures var y := Partial(fs, f, children, olds, k).fs[x];
      && (x < |fs| ==> y.stateNode == fs[x].stateNode && y.hooks == fs[x].hooks)
      && (x >= |fs| ==> y.hooks == [] && (y.stateNode.Some? ==>
            y.alternate.Some? && y.alternate.value < |fs| && y.stateNode == fs[y.alternate.value].stateNode))
  {
    assert Partial(fs, f, children, olds, k).fs[x] == PartialFiber(fs, f, children, olds, k, x);
  }

  /** Only old fibers are deleted. */
  lemma DeletedAreOld(children: seq<Value>, olds: seq<FiberId>, k: nat, y: FiberId)
    requires y in Deleted(children, olds, k)
    ensures y in olds
  {
    DeletedIff(children, olds, k, y);
  }
}

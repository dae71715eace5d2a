/**
 * Fibers and the walks along their links. Fibers live in an arena: a fiber's id
 * is its index, and `child`, `sibling` and `return` are ids. Every version of the
 * renderer only ever links a fiber to fibers created after it (`child`,
 * `sibling`) or before it (`return`), which is what `Linked` records and what
 * makes every walk terminate.
 */
module Fibers {
  import opened Wrappers
  import opened Elements
  import opened Host
  import opened Hooks

  type FiberId = nat

  /** `effectTag`: absent, "PLACEMENT", "UPDATE" or "DELETION". */
  datatype EffectTag = NoEffect | Placement | Update | Deletion

  /**
   * A fiber. `ty` is `None` for a root fiber, whose `type` is undefined;
   * `hooks` is the `memorizedState` list of a function-component fiber.
   */
  datatype Fiber = Fiber(
    ty: Option<ElemType>,
    stateNode: Option<NodeId>,
    props: map<string, Value>,
    ret: Option<FiberId>,
    alternate: Option<FiberId>,
    child: Option<FiberId>,
    sibling: Option<FiberId>,
    effectTag: EffectTag,
    hooks: seq<HookId>)

  /** A fiber as a reconciler creates it: no node, no links but `return`, no hooks. */
  function NewFiber(ty: Option<ElemType>, props: map<string, Value>, ret: FiberId): Fiber {
    Fiber(ty, None, props, Some(ret), None, None, None, NoEffect, [])
  }

  /** `child.type`: an element's type; any other value has none (`undefined`). */
  function ChildType(v: Value): Option<ElemType> {
    if v.Elem? then Some(v.e.ty) else None
  }

  /** `child.props`: an element's props; any other value has none, taken as an empty map. */
  function ChildProps(v: Value): map<string, Value> {
    if v.Elem? then v.e.props else map[]
  }

  /**
   * The node a host fiber gets: a text node for "HostText", an element named
   * by the tag otherwise (`document.createElement(undefined)` names it "undefined").
   */
  function KindOf(ty: Option<ElemType>): NodeKind {
    if ty == Some(Tag(HostText)) then TextNode
    else if ty.Some? && ty.value.Tag? then ElementNode(ty.value.name)
    else ElementNode("undefined")
  }

  /** A host node's kind: a text node exactly for "HostText" fibers. */
  lemma KindOfText(ty: Option<ElemType>)
    ensures KindOf(ty) == TextNode <==> ty == Some(Tag(HostText))
    ensures ty.Some? && ty.value.Tag? && ty.value.name != HostText ==> KindOf(ty) == ElementNode(ty.value.name)
  {
  }

  /** `fiber.type instanceof Function`. */
  predicate IsComponent(f: Fiber) {
    f.ty.Some? && f.ty.value.Component?
  }

  /** Every node a fiber owns is a node of the host tree. */
  ghost predicate NodesIn(fs: seq<Fiber>, dom: Dom) {
    forall x :: 0 <= x < |fs| && fs[x].stateNode.Some? ==> fs[x].stateNode.value < |dom|
  }

  /** The fuel left after one unit of work. */
  function Spend(fuel: nat): (rest: nat)
    requires fuel > 0
    ensures rest < fuel && rest + 1 == fuel
  {
    fuel - 1
  }

  /** The links of every fiber point where the renderer puts them. */
  ghost predicate Linked(fs: seq<Fiber>) {
    && (forall id :: 0 <= id < |fs| ==>
          && (fs[id].ret.Some? ==> fs[id].ret.value < id)
          && (fs[id].alternate.Some? ==> fs[id].alternate.value < |fs|))
    && (forall id {:trigger fs[id].child} {:trigger fs[id].sibling} :: 0 <= id < |fs| ==>
          && (fs[id].child.Some? ==> id < fs[id].child.value < |fs| && fs[fs[id].child.value].ret == Some(id))
          && (fs[id].sibling.Some? ==> id < fs[id].sibling.value < |fs| && fs[fs[id].sibling.value].ret == fs[id].ret))
  }

  /** The conjuncts of `Linked` for one fiber. */
  predicate LinkedFiber(fs: seq<Fiber>, id: FiberId)
    requires id < |fs|
  {
    && (fs[id].ret.Some? ==> fs[id].ret.value < id)
    && (fs[id].child.Some? ==> id < fs[id].child.value < |fs| && fs[fs[id].child.value].ret == Some(id))
    && (fs[id].sibling.Some? ==> id < fs[id].sibling.value < |fs| && fs[fs[id].sibling.value].ret == fs[id].ret)
    && (fs[id].alternate.Some? ==> fs[id].alternate.value < |fs|)
  }

  /** `Linked` is `LinkedFiber` of every fiber. */
  lemma LinkedEveryFiber(fs: seq<Fiber>)
    ensures Linked(fs) <==> forall id :: 0 <= id < |fs| ==> LinkedFiber(fs, id)
  {
    if Linked(fs) {
      forall id | 0 <= id < |fs|
        ensures LinkedFiber(fs, id)
      {
      }
    }
    if forall id :: 0 <= id < |fs| ==> LinkedFiber(fs, id) {
      forall id | 0 <= id < |fs|
        ensures fs[id].ret.Some? ==> fs[id].ret.value < id
        ensures fs[id].child.Some? ==> id < fs[id].child.value < |fs| && fs[fs[id].child.value].ret == Some(id)
        ensures fs[id].sibling.Some? ==> id < fs[id].sibling.value < |fs| && fs[fs[id].sibling.value].ret == fs[id].ret
        ensures fs[id].alternate.Some? ==> fs[id].alternate.value < |fs|
      {
        assert LinkedFiber(fs, id);
      }
    }
  }

  /** An optional fiber reference that, when present, names a fiber of the arena. */
  predicate InArena(fs: seq<Fiber>, x: Option<FiberId>) {
    x.Some? ==> x.value < |fs|
  }

  /** Measure for walks up `return` links. */
  function Height(x: Option<FiberId>): nat {
    if x.Some? then x.value + 1 else 0
  }

  /** Measure for walks along `child` and `sibling` links. */
  function Depth(fs: seq<Fiber>, x: Option<FiberId>): nat {
    if x.Some? && x.value < |fs| then |fs| - x.value else 0
  }

  /**
   * The loop of `getNextFiber`: starting at `x`, the first `sibling` met while
   * climbing `return` links.
   */
  ghost function ClimbFrom(fs: seq<Fiber>, x: Option<FiberId>): (r: Option<FiberId>)
    requires Linked(fs) && InArena(fs, x)
    ensures InArena(fs, r)
    decreases Height(x)
  {
    match x
    case None => None
    case Some(n) =>
      if fs[n].sibling.Some? then fs[n].sibling else ClimbFrom(fs, fs[n].ret)
  }

  /** `getNextFiber(fiber)` (areact03/04/06 alike): the child, else the climb. */
  ghost function NextFiber(fs: seq<Fiber>, x: FiberId): (r: Option<FiberId>)
    requires Linked(fs) && x < |fs|
    ensures InArena(fs, r)
  {
    if fs[x].child.Some? then fs[x].child else ClimbFrom(fs, Some(x))
  }

  /** `getNextFiber` with its `while` loop over `return` links. */
  method GetNextFiber(fs: seq<Fiber>, x: FiberId) returns (next: Option<FiberId>)
    requires Linked(fs) && x < |fs|
    ensures next == NextFiber(fs, x)
  {
    if fs[x].child.Some? {
      return fs[x].child;
    }
    var n: Option<FiberId> := Some(x);
    while n.Some?
      invariant InArena(fs, n)
      invariant ClimbFrom(fs, n) == ClimbFrom(fs, Some(x))
      decreases Height(n)
    {
      if fs[n.value].sibling.Some? {
        return fs[n.value].sibling;
      }
      n := fs[n.value].ret;
    }
    return None;
  }

  /** `x`, its `return`, that fiber's `return`, and so on up to a root. */
  ghost function Ancestry(fs: seq<Fiber>, x: Option<FiberId>): (a: seq<FiberId>)
    requires Linked(fs) && InArena(fs, x)
    ensures forall k :: 0 <= k < |a| ==> a[k] < |fs|
    decreases Height(x)
  {
    match x
    case None => []
    case Some(n) => [n] + Ancestry(fs, fs[n].ret)
  }

  /**
   * The climb returns the sibling of the first fiber in the ancestry that has
   * one, and `None` exactly when no fiber in the ancestry has a sibling.
   */
  lemma {:induction false} ClimbFinds(fs: seq<Fiber>, x: Option<FiberId>)
    requires Linked(fs) && InArena(fs, x)
    ensures var a := Ancestry(fs, x);
      && (ClimbFrom(fs, x).None? <==> forall k :: 0 <= k < |a| ==> fs[a[k]].sibling.None?)
      && (ClimbFrom(fs, x).Some? ==>
            exists k :: 0 <= k < |a| && fs[a[k]].sibling == ClimbFrom(fs, x)
              && forall j :: 0 <= j < k ==> fs[a[j]].sibling.None?)
    decreases Height(x)
  {
    if x.Some? {
      var n := x.value;
      var a := Ancestry(fs, x);
      if fs[n].sibling.None? {
        ClimbFinds(fs, fs[n].ret);
        var b := Ancestry(fs, fs[n].ret);
        assert a == [n] + b;
        if ClimbFrom(fs, x).Some? {
          var k :| 0 <= k < |b| && fs[b[k]].sibling == ClimbFrom(fs, x)
            && forall j :: 0 <= j < k ==> fs[b[j]].sibling.None?;
          assert a[k + 1] == b[k];
          assert forall j :: 0 <= j < k + 1 ==> fs[a[j]].sibling.None? by {
            forall j | 0 <= j < k + 1 ensures fs[a[j]].sibling.None? {
              if j > 0 { assert a[j] == b[j - 1]; }
            }
          }
        } else {
          forall k | 0 <= k < |a| ensures fs[a[k]].sibling.None? {
            if k > 0 { assert a[k] == b[k - 1]; }
          }
        }
      } else {
        assert a[0] == n;
      }
    }
  }

  /**
   * `getNextFiber` returns `fiber.child` when there is one; otherwise the
   * sibling of the nearest fiber on the way up (the fiber itself first) that has
   * one; otherwise `null`.
   */
  lemma NextFiberChoice(fs: seq<Fiber>, x: FiberId)
    requires Linked(fs) && x < |fs|
    ensures fs[x].child.Some? ==> NextFiber(fs, x) == fs[x].child
    ensures var a := Ancestry(fs, Some(x));
      fs[x].child.None? ==>
        && (NextFiber(fs, x).None? <==> forall k :: 0 <= k < |a| ==> fs[a[k]].sibling.None?)
        && (NextFiber(fs, x).Some? ==>
              exists k :: 0 <= k < |a| && fs[a[k]].sibling == NextFiber(fs, x)
                && forall j :: 0 <= j < k ==> fs[a[j]].sibling.None?)
  {
    ClimbFinds(fs, Some(x));
  }

  /** The fibers of the tree under `x` in depth-first order, `x` first. */
  ghost function Preorder(fs: seq<Fiber>, x: FiberId): (p: seq<FiberId>)
    requires Linked(fs) && x < |fs|
    ensures |p| >= 1 && p[0] == x
    ensures forall k :: 0 <= k < |p| ==> p[k] < |fs|
    decreases |fs| - x, 0
  {
    [x] + Forest(fs, fs[x].child)
  }

  /** The trees under `c` and under each of its later siblings, in order. */
  ghost function Forest(fs: seq<Fiber>, c: Option<FiberId>): (p: seq<FiberId>)
    requires Linked(fs) && InArena(fs, c)
    ensures c.Some? ==> |p| >= 1 && p[0] == c.value
    ensures c.None? ==> p == []
    ensures forall k :: 0 <= k < |p| ==> p[k] < |fs|
    decreases Depth(fs, c), 1
  {
    match c
    case None => []
    case Some(y) => Preorder(fs, y) + Forest(fs, fs[y].sibling)
  }

  /**
   * Within the tree under `x`, `getNextFiber` steps from each fiber to the next
   * one in depth-first order; from the last one it continues with the climb
   * from `x` itself.
   */
  lemma {:induction false} NextFiberInTree(fs: seq<Fiber>, x: FiberId)
    requires Linked(fs) && x < |fs|
    ensures var p := Preorder(fs, x);
      && (forall j :: 0 <= j < |p| - 1 ==> NextFiber(fs, p[j]) == Some(p[j + 1]))
      && NextFiber(fs, p[|p| - 1]) == ClimbFrom(fs, Some(x))
    decreases |fs| - x, 0
  {
    var c := fs[x].child;
    var p := Preorder(fs, x);
    var f := Forest(fs, c);
    assert p == [x] + f;
    if c.Some? {
      NextFiberInForest(fs, c);
      assert fs[c.value].ret == Some(x);
      assert ClimbFrom(fs, Some(x)) == ClimbFrom(fs, fs[c.value].ret);
      forall j | 0 <= j < |p| - 1 ensures NextFiber(fs, p[j]) == Some(p[j + 1]) {
        if j > 0 {
          assert p[j] == f[j - 1] && p[j + 1] == f[j];
        }
      }
      assert p[|p| - 1] == f[|f| - 1];
    }
  }

  /**
   * Across the trees under `c` and its later siblings, `getNextFiber` steps in
   * depth-first order; from the last fiber it continues with the climb from
   * their common `return`.
   */
  lemma {:induction false} NextFiberInForest(fs: seq<Fiber>, c: Option<FiberId>)
    requires Linked(fs) && InArena(fs, c) && c.Some?
    ensures var p := Forest(fs, c);
      && (forall j :: 0 <= j < |p| - 1 ==> NextFiber(fs, p[j]) == Some(p[j + 1]))
      && NextFiber(fs, p[|p| - 1]) == ClimbFrom(fs, fs[c.value].ret)
    decreases Depth(fs, c), 1
  {
    var y := c.value;
    var s := fs[y].sibling;
    var t := Preorder(fs, y);
    var rest := Forest(fs, s);
    var p := Forest(fs, c);
    assert p == t + rest;
    NextFiberInTree(fs, y);
    if s.Some? {
      NextFiberInForest(fs, s);
      assert fs[s.value].ret == fs[y].ret;
      assert ClimbFrom(fs, Some(y)) == s;
      forall j | 0 <= j < |p| - 1 ensures NextFiber(fs, p[j]) == Some(p[j + 1]) {
        if j < |t| - 1 {
          assert p[j] == t[j] && p[j + 1] == t[j + 1];
        } else if j == |t| - 1 {
          assert p[j] == t[|t| - 1] && p[j + 1] == rest[0];
        } else {
          assert p[j] == rest[j - |t|] && p[j + 1] == rest[j - |t| + 1];
        }
      }
      assert p[|p| - 1] == rest[|rest| - 1];
    } else {
      assert rest == [] && p == t;
      assert ClimbFrom(fs, Some(y)) == ClimbFrom(fs, fs[y].ret);
    }
  }

  /** `n` steps of `getNextFiber` from `x`, stopping at `null`. */
  ghost function Walk(fs: seq<Fiber>, x: Option<FiberId>, n: nat): (r: Option<FiberId>)
    requires Linked(fs) && InArena(fs, x)
    ensures InArena(fs, r)
    decreases n
  {
    if n == 0 || x.None? then x else Walk(fs, NextFiber(fs, x.value), n - 1)
  }

  /**
   * From a root (no `return`, no `sibling`) the cursor of `workloop` visits the
   * whole tree in depth-first order, each fiber once, and then becomes `null`.
   */
  lemma WalkIsPreorder(fs: seq<Fiber>, root: FiberId)
    requires Linked(fs) && root < |fs| && fs[root].ret.None? && fs[root].sibling.None?
    ensures var p := Preorder(fs, root);
      && (forall j :: 0 <= j < |p| ==> Walk(fs, Some(root), j) == Some(p[j]))
      && Walk(fs, Some(root), |p|) == None
  {
    var p := Preorder(fs, root);
    NextFiberInTree(fs, root);
    assert ClimbFrom(fs, Some(root)) == ClimbFrom(fs, None) == None;
    assert NextFiber(fs, p[|p| - 1]) == None;
    WalkSteps(fs, p, |p| - 1);
    forall j | 0 <= j < |p| ensures Walk(fs, Some(root), j) == Some(p[j]) {
      WalkSteps(fs, p, j);
    }
  }

  lemma {:induction false} WalkSteps(fs: seq<Fiber>, p: seq<FiberId>, j: nat)
    requires Linked(fs) && |p| >= 1 && j < |p| && forall k :: 0 <= k < |p| ==> p[k] < |fs|
    requires forall k :: 0 <= k < |p| - 1 ==> NextFiber(fs, p[k]) == Some(p[k + 1])
    requires NextFiber(fs, p[|p| - 1]) == None
    ensures Walk(fs, Some(p[0]), j) == Some(p[j])
    ensures j == |p| - 1 ==> Walk(fs, Some(p[0]), |p|) == None
  {
    if j > 0 {
      WalkSteps(fs, p, j - 1);
      WalkShift(fs, Some(p[0]), j - 1);
    }
    if j == |p| - 1 {
      WalkShift(fs, Some(p[0]), j);
    }
  }

  /** One more step of the walk is one more `getNextFiber` at its end. */
  lemma {:induction false} WalkShift(fs: seq<Fiber>, x: Option<FiberId>, n: nat)
    requires Linked(fs) && InArena(fs, x)
    ensures Walk(fs, x, n + 1) == (var w := Walk(fs, x, n); if w.None? then None else NextFiber(fs, w.value))
    decreases n
  {
    if n > 0 && x.Some? {
      WalkShift(fs, NextFiber(fs, x.value), n - 1);
    }
  }

  /** The sibling chain that starts at `c`. */
  ghost function Chain(fs: seq<Fiber>, c: Option<FiberId>): (s: seq<FiberId>)
    requires Linked(fs) && InArena(fs, c)
    ensures forall k :: 0 <= k < |s| ==> s[k] < |fs|
    decreases Depth(fs, c)
  {
    match c
    case None => []
    case Some(y) => [y] + Chain(fs, fs[y].sibling)
  }

  /** The `i`-th fiber of a list, if the list is that long. */
  function OldAt(olds: seq<FiberId>, i: nat): Option<FiberId> {
    if i < |olds| then Some(olds[i]) else None
  }

  /** `olds` are fibers of `fs`, each one's `sibling` the next (and the last one's none). */
  predicate ChainedBy(fs: seq<Fiber>, olds: seq<FiberId>) {
    forall k :: 0 <= k < |olds| ==> olds[k] < |fs| && fs[olds[k]].sibling == OldAt(olds, k + 1)
  }

  /** A sequence chained by `sibling` links is the chain that starts at its head. */
  lemma {:induction false} ChainedIsChain(fs: seq<Fiber>, s: seq<FiberId>)
    requires Linked(fs) && ChainedBy(fs, s)
    ensures InArena(fs, OldAt(s, 0)) && Chain(fs, OldAt(s, 0)) == s
    decreases |s|
  {
    if s != [] {
      var rest := s[1..];
      forall k | 0 <= k < |rest|
        ensures rest[k] < |fs| && fs[rest[k]].sibling == OldAt(rest, k + 1)
      {
        assert rest[k] == s[k + 1];
      }
      ChainedIsChain(fs, rest);
      assert s == [s[0]] + rest;
    }
  }

  /**
   * The nearest fiber at or above `x` that has a `stateNode`: the climb
   * `while (!domParentFiber.stateNode) domParentFiber = domParentFiber.return`
   * started at `x`. `None` when the climb runs off the top, where the source
   * reads a property of `undefined`.
   */
  ghost function NearestHost(fs: seq<Fiber>, x: Option<FiberId>): (r: Option<FiberId>)
    requires Linked(fs) && InArena(fs, x)
    ensures InArena(fs, r) && (r.Some? ==> fs[r.value].stateNode.Some?)
    decreases Height(x)
  {
    match x
    case None => None
    case Some(n) => if fs[n].stateNode.Some? then Some(n) else NearestHost(fs, fs[n].ret)
  }

  /**
   * The climb (areact04/AReact.jsx:92-95, areact06/AReact.jsx:132-135) finds
   * the first fiber of the ancestry that owns a node, skipping function
   * components; it fails only when none does.
   */
  lemma {:induction false} NearestHostFinds(fs: seq<Fiber>, x: Option<FiberId>)
    requires Linked(fs) && InArena(fs, x)
    ensures var a := Ancestry(fs, x); var h := NearestHost(fs, x);
      && (h.None? <==> forall k :: 0 <= k < |a| ==> fs[a[k]].stateNode.None?)
      && (h.Some? ==>
            exists k :: 0 <= k < |a| && a[k] == h.value && fs[a[k]].stateNode.Some?
              && forall j :: 0 <= j < k ==> fs[a[j]].stateNode.None?)
    decreases Height(x)
  {
    if x.Some? {
      var n := x.value;
      var a := Ancestry(fs, x);
      var b := Ancestry(fs, fs[n].ret);
      assert a == [n] + b;
      if fs[n].stateNode.None? {
        NearestHostFinds(fs, fs[n].ret);
        var h := NearestHost(fs, x);
        if h.Some? {
          var k :| 0 <= k < |b| && b[k] == h.value && fs[b[k]].stateNode.Some?
            && forall j :: 0 <= j < k ==> fs[b[j]].stateNode.None?;
          assert a[k + 1] == b[k];
          forall j | 0 <= j < k + 1 ensures fs[a[j]].stateNode.None? {
            if j > 0 { assert a[j] == b[j - 1]; }
          }
        } else {
          forall k | 0 <= k < |a| ensures fs[a[k]].stateNode.None? {
            if k > 0 { assert a[k] == b[k - 1]; }
          }
        }
      } else {
        assert a[0] == n;
      }
    }
  }

  /** The ancestor climb of `performUnitOfWork` (areact04) and `commitWork` (areact06). */
  method FindHostParent(fs: seq<Fiber>, x: FiberId) returns (p: Option<FiberId>)
    requires Linked(fs) && x < |fs| && fs[x].ret.Some?
    ensures p == NearestHost(fs, fs[x].ret)
  {
    p := fs[x].ret;
    while p.Some? && fs[p.value].stateNode.None?
      invariant InArena(fs, p)
      invariant NearestHost(fs, p) == NearestHost(fs, fs[x].ret)
      decreases Height(p)
    {
      p := fs[p.value].ret;
    }
  }

  /** A root fiber: no type, the container as its node, no links but perhaps an alternate. */
  function RootFiber(container: NodeId, props: map<string, Value>, alternate: Option<FiberId>): Fiber {
    Fiber(None, Some(container), props, None, alternate, None, None, NoEffect, [])
  }

  /** A fiber whose tree links are untouched, and whose alternate is a fiber, keeps the arena linked. */
  lemma RelabelLinked(fs: seq<Fiber>, x: FiberId, f: Fiber)
    requires Linked(fs) && x < |fs|
    requires f.ret == fs[x].ret && f.child == fs[x].child && f.sibling == fs[x].sibling && InArena(fs, f.alternate)
    ensures Linked(fs[x := f])
  {
    var g := fs[x := f];
    LinkedEveryFiber(fs);
    forall y | 0 <= y < |g|
      ensures LinkedFiber(g, y)
    {
      assert LinkedFiber(fs, y);
    }
    LinkedEveryFiber(g);
  }

  /** Appending a fiber with no tree links keeps the arena linked. */
  lemma AppendLinked(fs: seq<Fiber>, f: Fiber)
    requires Linked(fs) && f.ret.None? && f.child.None? && f.sibling.None? && InArena(fs + [f], f.alternate)
    ensures Linked(fs + [f])
  {
    var g := fs + [f];
    LinkedEveryFiber(fs);
    forall y | 0 <= y < |g|
      ensures LinkedFiber(g, y)
    {
      if y < |fs| {
        assert LinkedFiber(fs, y);
      }
    }
    LinkedEveryFiber(g);
  }

  /**
   * The fibers `render(element)` appends: the root on the container with
   * `children: [element]`, then the `current` object holding it as its alternate.
   */
  function RenderRoots(fs: seq<Fiber>, container: NodeId, element: Value): (r: seq<Fiber>)
    ensures |r| == |fs| + 2 && r[..|fs|] == fs
  {
    fs + [RootFiber(container, map[ChildrenKey := Array([element])], None),
          Fiber(None, None, map[], None, Some(|fs|), None, None, NoEffect, [])]
  }

  /** The two fibers `render` appends keep the arena linked. */
  lemma RenderRootsLinked(fs: seq<Fiber>, container: NodeId, element: Value)
    requires Linked(fs)
    ensures Linked(RenderRoots(fs, container, element))
  {
    var root := RootFiber(container, map[ChildrenKey := Array([element])], None);
    var top := Fiber(None, None, map[], None, Some(|fs|), None, None, NoEffect, []);
    AppendLinked(fs, root);
    AppendLinked(fs + [root], top);
    assert fs + [root] + [top] == RenderRoots(fs, container, element);
  }
}

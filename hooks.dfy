/**
 * The hook records of areact06 (`useState`, `useReducer`) and the replay of
 * queued actions that `useState` performs on the next render
 * (areact06/AReact.jsx:305-352).
 */
module Hooks {
  import opened Wrappers
  import opened Elements

  type HookId = nat

  /**
   * A queued `setState` argument: a function is applied to the state, any other
   * value replaces it (`typeof action === "function"`).
   */
  datatype Action = Replace(v: Value) | Apply(f: Value -> Value)

  /**
   * A hook record `{state, queue, dispatch}`. `dispatch`, when present, is the
   * setter to hand out again: a setter is the hook it pushes onto.
   */
  datatype Hook = Hook(state: Value, queue: seq<Action>, dispatch: Option<HookId>)

  /** One iteration of the `actions.forEach` in `useState`. */
  function Step(state: Value, a: Action): (r: Value)
    ensures a.Replace? ==> r == a.v
    ensures a.Apply? ==> r == a.f(state)
  {
    match a
    case Replace(v) => v
    case Apply(f) => f(state)
  }

  /** The state after applying `queue` to `state` in enqueue order. */
  function Replay(state: Value, queue: seq<Action>): (r: Value)
    ensures queue == [] ==> r == state
    ensures queue != [] && queue[|queue| - 1].Replace? ==> r == queue[|queue| - 1].v
    decreases |queue|
  {
    if queue == [] then state
    else Step(Replay(state, queue[..|queue| - 1]), queue[|queue| - 1])
  }

  /** The replay loop of `useState` (areact06/AReact.jsx:315-318). */
  method ReplayQueue(state: Value, queue: seq<Action>) returns (s: Value)
    ensures s == Replay(state, queue)
  {
    s := state;
    var i := 0;
    while i < |queue|
      invariant 0 <= i <= |queue|
      invariant s == Replay(state, queue[..i])
    {
      assert queue[..i + 1][..i] == queue[..i];
      s := Step(s, queue[i]);
      i := i + 1;
    }
    assert queue[..|queue|] == queue;
  }

  /** Replaying two queues one after the other is replaying their concatenation. */
  lemma {:induction false} ReplayConcat(state: Value, a: seq<Action>, b: seq<Action>)
    ensures Replay(state, a + b) == Replay(Replay(state, a), b)
    decreases |b|
  {
    if b != [] {
      var ab := a + b;
      var b' := b[..|b| - 1];
      assert ab[..|ab| - 1] == a + b';
      assert ab[|ab| - 1] == b[|b| - 1];
      ReplayConcat(state, a, b');
      calc {
        Replay(state, ab);
        Step(Replay(state, a + b'), b[|b| - 1]);
        Step(Replay(Replay(state, a), b'), b[|b| - 1]);
        Replay(Replay(state, a), b);
      }
    } else {
      assert a + b == a;
    }
  }

  /**
   * A value action discards everything queued before it: the result depends only
   * on the actions after the last `Replace`.
   */
  lemma ReplaceResets(state: Value, before: seq<Action>, v: Value, after: seq<Action>)
    ensures Replay(state, before + [Replace(v)] + after) == Replay(v, after)
  {
    ReplayConcat(state, before + [Replace(v)], after);
    assert (before + [Replace(v)])[..|before|] == before;
  }

  /**
   * The hook `useState(initialState)` builds at a slot, given the previous
   * render's hook at that slot: its state is the old state (or `initialState`)
   * with the old queue replayed, its queue is empty, and `dispatch` is copied.
   */
  function NextHook(oldHook: Option<Hook>, initial: Value): (h: Hook)
    ensures h.queue == []
    ensures oldHook.None? ==> h.state == initial && h.dispatch.None?
    ensures oldHook.Some? ==>
      h.state == Replay(oldHook.value.state, oldHook.value.queue) && h.dispatch == oldHook.value.dispatch
  {
    match oldHook
    case None => Hook(initial, [], None)
    case Some(o) => Hook(Replay(o.state, o.queue), [], o.dispatch)
  }

  /**
   * The hook object `useState` builds (areact06/AReact.jsx:308-317): the old
   * hook's state with its queue replayed, or the initial state.
   */
  method BuildHook(oldHook: Option<Hook>, initial: Value) returns (h: Hook)
    ensures h == NextHook(oldHook, initial)
  {
    if oldHook.Some? {
      var s := ReplayQueue(oldHook.value.state, oldHook.value.queue);
      h := Hook(s, [], oldHook.value.dispatch);
    } else {
      h := Hook(initial, [], None);
    }
  }

  /**
   * The setter `useState` returns for the hook stored at `id`: the copied
   * `dispatch` when there is one, else a fresh setter bound to that hook.
   */
  function SetterFor(h: Hook, id: HookId): HookId {
    if h.dispatch.Some? then h.dispatch.value else id
  }

  /** No hook has a `dispatch`; nothing in the renderer ever assigns one. */
  ghost predicate NoDispatch(hooks: seq<Hook>) {
    forall i :: 0 <= i < |hooks| ==> hooks[i].dispatch.None?
  }

  /**
   * Because `dispatch` starts out `null` and is only ever copied, every hook
   * built from an existing one has none either, and the setter handed out is
   * always a fresh one bound to the new hook, never one of an earlier render.
   */
  lemma FreshSetterEveryRender(hooks: seq<Hook>, prev: Option<HookId>, initial: Value, id: HookId)
    requires NoDispatch(hooks) && (prev.Some? ==> prev.value < |hooks|)
    ensures var h := NextHook(if prev.Some? then Some(hooks[prev.value]) else None, initial);
      h.dispatch.None? && SetterFor(h, id) == id && NoDispatch(hooks + [h])
  {
  }

  /** `setState(action)`'s effect on the hooks: the action joins its hook's queue. */
  function Enqueue(hooks: seq<Hook>, id: HookId, a: Action): (r: seq<Hook>)
    requires id < |hooks|
    ensures |r| == |hooks| && r[id].queue == hooks[id].queue + [a]
    ensures r[id].state == hooks[id].state && r[id].dispatch == hooks[id].dispatch
    ensures forall j :: 0 <= j < |hooks| && j != id ==> r[j] == hooks[j]
  {
    hooks[id := hooks[id].(queue := hooks[id].queue + [a])]
  }

  /** `setState` leaves the state it was returned with alone; only the next render replays it. */
  lemma EnqueueKeepsState(hooks: seq<Hook>, id: HookId, a: Action)
    requires id < |hooks|
    ensures Enqueue(hooks, id, a)[id].state == hooks[id].state
    ensures NextHook(Some(Enqueue(hooks, id, a)[id]), Null).state == Step(Replay(hooks[id].state, hooks[id].queue), a)
  {
    var q := hooks[id].queue + [a];
    assert q[..|q| - 1] == hooks[id].queue;
  }

  /** `useReducer`'s `dispatch(action)` enqueues `state => reducer(state, action)`. */
  function ReducerAction(reducer: (Value, Value) -> Value, action: Value): Action {
    Apply(s => reducer(s, action))
  }

  /** The reducer folded over a list of dispatched actions, oldest first. */
  function Reduce(reducer: (Value, Value) -> Value, state: Value, actions: seq<Value>): Value
    decreases |actions|
  {
    if actions == [] then state
    else reducer(Reduce(reducer, state, actions[..|actions| - 1]), actions[|actions| - 1])
  }

  /** The queue that dispatching each of `actions` builds. */
  function ReducerQueue(reducer: (Value, Value) -> Value, actions: seq<Value>): (q: seq<Action>)
    ensures |q| == |actions|
    ensures forall i :: 0 <= i < |q| ==> q[i] == ReducerAction(reducer, actions[i])
  {
    seq(|actions|, i requires 0 <= i < |actions| => ReducerAction(reducer, actions[i]))
  }

  /**
   * Replaying the queue that a run of `dispatch` calls builds is folding the
   * reducer over the dispatched actions in order.
   */
  lemma {:induction false} ReplayReducerQueue(reducer: (Value, Value) -> Value, state: Value, actions: seq<Value>)
    ensures Replay(state, ReducerQueue(reducer, actions)) == Reduce(reducer, state, actions)
    decreases |actions|
  {
    if actions != [] {
      var q := ReducerQueue(reducer, actions);
      var init := actions[..|actions| - 1];
      assert q[..|q| - 1] == ReducerQueue(reducer, init);
      ReplayReducerQueue(reducer, state, init);
    }
  }

  /** The increment used by the counter: numbers go up by one. */
  function Increment(v: Value): Value {
    if v.Num? then Num(v.n + 1) else v
  }

  /**
   * The counter of areact05/jsx.test.jsx:178-205: from `useState(100)`,
   * `setCount(count => count + 1)` gives 101 on the next render, and then
   * `setCount(101 + 1)` gives 102 on the render after that.
   */
  lemma CounterScenario()
    ensures var h0 := NextHook(None, Num(100));
      var h1 := NextHook(Some(h0.(queue := h0.queue + [Apply(Increment)])), Null);
      var h2 := NextHook(Some(h1.(queue := h1.queue + [Replace(Num(102))])), Null);
      h0.state == Num(100) && h1.state == Num(101) && h2.state == Num(102)
  {
    var h0 := NextHook(None, Num(100));
    assert Replay(h0.state, [Apply(Increment)]) == Step(Replay(h0.state, []), Apply(Increment));
    var h1 := NextHook(Some(h0.(queue := h0.queue + [Apply(Increment)])), Null);
    assert Replay(h1.state, [Replace(Num(102))]) == Step(Replay(h1.state, []), Replace(Num(102)));
  }

  /** The reducer of areact05/jsx.test.jsx:213-220 on numbers: "add" adds one, "sub" takes one. */
  function CountReducer(state: Value, action: Value): Value {
    if state.Num? && action == Object(map["type" := Str("add")]) then Num(state.n + 1)
    else if state.Num? && action == Object(map["type" := Str("sub")]) then Num(state.n - 1)
    else Undefined
  }

  /**
   * areact05/jsx.test.jsx:237-247: two `dispatch({type: "add"})` calls in one
   * batch take 100 to 102, and a later `dispatch({type: "sub"})` gives 101.
   */
  lemma ReducerScenario()
    ensures var add := Object(map["type" := Str("add")]);
      var sub := Object(map["type" := Str("sub")]);
      var h0 := NextHook(None, Num(100));
      var h1 := NextHook(Some(h0.(queue := ReducerQueue(CountReducer, [add, add]))), Null);
      var h2 := NextHook(Some(h1.(queue := ReducerQueue(CountReducer, [sub]))), Null);
      h1.state == Num(102) && h2.state == Num(101)
  {
    var add := Object(map["type" := Str("add")]);
    var sub := Object(map["type" := Str("sub")]);
    ReplayReducerQueue(CountReducer, Num(100), [add, add]);
    assert [add, add][..1] == [add];
    assert [add][..0] == [];
    assert Reduce(CountReducer, Num(100), [add]) == Num(101);
    assert Reduce(CountReducer, Num(100), [add, add]) == Num(102);
    ReplayReducerQueue(CountReducer, Num(102), [sub]);
    assert [sub][..0] == [];
    assert sub.fields["type"] != add.fields["type"];
    assert Reduce(CountReducer, Num(102), [sub]) == Num(101);
  }
}

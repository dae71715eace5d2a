/**
 * `updateDom(stateNode, prevProps, nextProps)` of areact06
 * (areact06/AReact.jsx:70-114): the prop diff that unbinds stale listeners,
 * blanks removed properties, writes new or changed properties and binds new or
 * changed listeners.
 */
module UpdateDom {
  import opened Wrappers
  import opened Elements
  import opened Keys
  import opened Host

  /** First pass: an event key that is gone or changed loses its old handler. */
  predicate Unbinds(prev: map<string, Value>, next: map<string, Value>, k: string) {
    k in prev && IsEvent(k) && (IsGone(prev, next, k) || IsChanged(prev, next, k))
  }

  /** Second pass: a property key that is gone is set to "". */
  predicate Clears(prev: map<string, Value>, next: map<string, Value>, k: string) {
    k in prev && IsProperty(k) && IsGone(prev, next, k)
  }

  /** Third pass: a property key that is new or changed gets the new value. */
  predicate Sets(prev: map<string, Value>, next: map<string, Value>, k: string) {
    k in next && IsProperty(k) && (IsNew(prev, next, k) || IsChanged(prev, next, k))
  }

  /** Fourth pass: an event key that is new or changed gets its new handler. */
  predicate Binds(prev: map<string, Value>, next: map<string, Value>, k: string) {
    k in next && IsEvent(k) && (IsNew(prev, next, k) || IsChanged(prev, next, k))
  }

  /** The registrations the first pass removes, among the keys `ks` visited so far. */
  function UnboundAmong(prev: map<string, Value>, next: map<string, Value>, ks: set<string>): set<Listener> {
    set k | k in ks && Unbinds(prev, next, k) :: Listener(EventName(k), prev[k])
  }

  /** The registrations the fourth pass adds, among the keys `ks` visited so far. */
  function BoundAmong(prev: map<string, Value>, next: map<string, Value>, ks: set<string>): set<Listener> {
    set k | k in ks && Binds(prev, next, k) :: Listener(EventName(k), next[k])
  }

  /** The property map after the second pass has visited the keys `ks`. */
  function ClearedAmong(props: map<string, Value>, prev: map<string, Value>, next: map<string, Value>, ks: set<string>): map<string, Value> {
    map k | k in props.Keys + (set j | j in ks && Clears(prev, next, j)) ::
      if k in ks && Clears(prev, next, k) then Str("") else props[k]
  }

  /** The property map after the third pass has visited the keys `ks`. */
  function SetAmong(props: map<string, Value>, prev: map<string, Value>, next: map<string, Value>, ks: set<string>): map<string, Value> {
    map k | k in props.Keys + (set j | j in ks && Sets(prev, next, j)) ::
      if k in ks && Sets(prev, next, k) then next[k] else props[k]
  }

  /**
   * The node's properties after `updateDom`: new and changed properties hold
   * the new value, properties that are gone hold "", and every other key is
   * left as it was.
   */
  function PropsAfter(props: map<string, Value>, prev: map<string, Value>, next: map<string, Value>): (r: map<string, Value>)
    ensures forall k :: Sets(prev, next, k) ==> k in r && r[k] == next[k]
    ensures forall k :: Clears(prev, next, k) ==> k in r && r[k] == Str("")
    ensures forall k :: !Sets(prev, next, k) && !Clears(prev, next, k) ==>
      (k in r <==> k in props) && (k in props ==> r[k] == props[k])
  {
    SetAmong(ClearedAmong(props, prev, next, prev.Keys), prev, next, next.Keys)
  }

  /**
   * The node's listeners after `updateDom`: all removals happen before any
   * addition, so a registration that is both removed and added ends up present.
   */
  function ListenersAfter(ls: set<Listener>, prev: map<string, Value>, next: map<string, Value>): (r: set<Listener>)
    ensures BoundAmong(prev, next, next.Keys) <= r
    ensures forall l :: l in ls && l !in UnboundAmong(prev, next, prev.Keys) ==> l in r
    ensures forall l :: l in r ==> l in ls || l in BoundAmong(prev, next, next.Keys)
    ensures forall l :: l in UnboundAmong(prev, next, prev.Keys) && l !in BoundAmong(prev, next, next.Keys) ==> l !in r
  {
    (ls - UnboundAmong(prev, next, prev.Keys)) + BoundAmong(prev, next, next.Keys)
  }

  /**
   * The node as `updateDom` leaves it: kind and tree links are untouched, new
   * and changed properties hold the new value, and new and changed handlers are
   * bound.
   */
  function NodeAfter(node: HostNode, prev: map<string, Value>, next: map<string, Value>): (r: HostNode)
    ensures r.kind == node.kind && r.parent == node.parent && r.children == node.children
    ensures forall k :: Sets(prev, next, k) ==> k in r.props && r.props[k] == next[k]
    ensures forall k :: Clears(prev, next, k) ==> k in r.props && r.props[k] == Str("")
    ensures BoundAmong(prev, next, next.Keys) <= r.listeners
  {
    node.(props := PropsAfter(node.props, prev, next), listeners := ListenersAfter(node.listeners, prev, next))
  }

  /** The second pass visiting one more key `k`. */
  lemma ClearedStep(props: map<string, Value>, prev: map<string, Value>, next: map<string, Value>, ks: set<string>, k: string)
    requires k !in ks
    ensures ClearedAmong(props, prev, next, ks + {k}) ==
      if Clears(prev, next, k) then ClearedAmong(props, prev, next, ks)[k := Str("")] else ClearedAmong(props, prev, next, ks)
  {
    var a := ClearedAmong(props, prev, next, ks + {k});
    var b := if Clears(prev, next, k) then ClearedAmong(props, prev, next, ks)[k := Str("")] else ClearedAmong(props, prev, next, ks);
    assert a.Keys == b.Keys;
  }

  /** The third pass visiting one more key `k`. */
  lemma SetStep(props: map<string, Value>, prev: map<string, Value>, next: map<string, Value>, ks: set<string>, k: string)
    requires k !in ks
    ensures SetAmong(props, prev, next, ks + {k}) ==
      if Sets(prev, next, k) then SetAmong(props, prev, next, ks)[k := next[k]] else SetAmong(props, prev, next, ks)
  {
    var a := SetAmong(props, prev, next, ks + {k});
    var b := if Sets(prev, next, k) then SetAmong(props, prev, next, ks)[k := next[k]] else SetAmong(props, prev, next, ks);
    assert a.Keys == b.Keys;
  }

  /** First pass (areact06/AReact.jsx:71-82): unbind gone or changed event keys. */
  method UnbindPass(ls0: set<Listener>, prev: map<string, Value>, next: map<string, Value>) returns (ls: set<Listener>)
    ensures ls == ls0 - UnboundAmong(prev, next, prev.Keys)
  {
    ls := ls0;
    var todo := prev.Keys;
    while todo != {}
      invariant todo <= prev.Keys
      invariant ls == ls0 - UnboundAmong(prev, next, prev.Keys - todo)
      decreases todo
    {
      var k :| k in todo;
      assert UnboundAmong(prev, next, prev.Keys - (todo - {k})) ==
        UnboundAmong(prev, next, prev.Keys - todo) + (if Unbinds(prev, next, k) then {Listener(EventName(k), prev[k])} else {});
      if Unbinds(prev, next, k) {
        ls := ls - {Listener(EventName(k), prev[k])};
      }
      todo := todo - {k};
    }
    assert prev.Keys - {} == prev.Keys;
  }

  /** Second pass (areact06/AReact.jsx:84-90): blank the properties that are gone. */
  method ClearPass(ps0: map<string, Value>, prev: map<string, Value>, next: map<string, Value>) returns (ps: map<string, Value>)
    ensures ps == ClearedAmong(ps0, prev, next, prev.Keys)
  {
    ps := ps0;
    var todo := prev.Keys;
    while todo != {}
      invariant todo <= prev.Keys
      invariant ps == ClearedAmong(ps0, prev, next, prev.Keys - todo)
      decreases todo
    {
      var k :| k in todo;
      assert prev.Keys - (todo - {k}) == (prev.Keys - todo) + {k};
      ClearedStep(ps0, prev, next, prev.Keys - todo, k);
      if Clears(prev, next, k) {
        ps := ps[k := Str("")];
      }
      todo := todo - {k};
    }
    assert prev.Keys - {} == prev.Keys;
  }

  /** Third pass (areact06/AReact.jsx:92-101): write new or changed properties. */
  method SetPass(ps0: map<string, Value>, prev: map<string, Value>, next: map<string, Value>) returns (ps: map<string, Value>)
    ensures ps == SetAmong(ps0, prev, next, next.Keys)
  {
    ps := ps0;
    var todo := next.Keys;
    while todo != {}
      invariant todo <= next.Keys
      invariant ps == SetAmong(ps0, prev, next, next.Keys - todo)
      decreases todo
    {
      var k :| k in todo;
      assert next.Keys - (todo - {k}) == (next.Keys - todo) + {k};
      SetStep(ps0, prev, next, next.Keys - todo, k);
      if Sets(prev, next, k) {
        ps := ps[k := next[k]];
      }
      todo := todo - {k};
    }
    assert next.Keys - {} == next.Keys;
  }

  /** Fourth pass (areact06/AReact.jsx:103-113): bind new or changed event keys. */
  method BindPass(ls0: set<Listener>, prev: map<string, Value>, next: map<string, Value>) returns (ls: set<Listener>)
    ensures ls == ls0 + BoundAmong(prev, next, next.Keys)
  {
    ls := ls0;
    var todo := next.Keys;
    while todo != {}
      invariant todo <= next.Keys
      invariant ls == ls0 + BoundAmong(prev, next, next.Keys - todo)
      decreases todo
    {
      var k :| k in todo;
      assert BoundAmong(prev, next, next.Keys - (todo - {k})) ==
        BoundAmong(prev, next, next.Keys - todo) + (if Binds(prev, next, k) then {Listener(EventName(k), next[k])} else {});
      if Binds(prev, next, k) {
        ls := ls + {Listener(EventName(k), next[k])};
      }
      todo := todo - {k};
    }
    assert next.Keys - {} == next.Keys;
  }

  /** `updateDom`, pass by pass, on the node `n` of the host tree. */
  method UpdateDom(dom: Dom, n: NodeId, prev: map<string, Value>, next: map<string, Value>) returns (r: Dom)
    requires n < |dom|
    ensures r == dom[n := NodeAfter(dom[n], prev, next)]
  {
    var node := dom[n];
    var ls := UnbindPass(node.listeners, prev, next);
    var ps := ClearPass(node.props, prev, next);
    ps := SetPass(ps, prev, next);
    ls := BindPass(ls, prev, next);
    r := dom[n := node.(props := ps, listeners := ls)];
  }

  /** The registrations a prop map asks for: one per event key. */
  function Bindings(p: map<string, Value>): set<Listener> {
    set k | k in p && IsEvent(k) :: Listener(EventName(k), p[k])
  }

  /** A node shows a prop map: its properties agree and its listeners are exactly the map's. */
  ghost predicate Reflects(node: HostNode, p: map<string, Value>) {
    (forall k :: k in p && IsProperty(k) ==> k in node.props && node.props[k] == p[k])
    && node.listeners == Bindings(p)
  }

  /** No two distinct event keys among `ks` name the same event. */
  ghost predicate DistinctEventNames(ks: set<string>) {
    forall a, b :: a in ks && b in ks && IsEvent(a) && IsEvent(b) && a != b ==> EventName(a) != EventName(b)
  }

  /**
   * Applied to a node that shows `prev`, `updateDom` yields a node that shows
   * `next`, with every property that `next` dropped blanked, provided no two
   * event keys share an event name.
   */
  lemma UpdateDomReflects(node: HostNode, prev: map<string, Value>, next: map<string, Value>)
    requires Reflects(node, prev) && DistinctEventNames(prev.Keys + next.Keys)
    ensures Reflects(NodeAfter(node, prev, next), next)
    ensures forall k :: k in prev && k !in next && IsProperty(k) ==> NodeAfter(node, prev, next).props[k] == Str("")
  {
    var after := NodeAfter(node, prev, next);
    var un := UnboundAmong(prev, next, prev.Keys);
    var bo := BoundAmong(prev, next, next.Keys);
    forall l | l in after.listeners ensures l in Bindings(next) {
      if l !in bo {
        assert l in node.listeners && l !in un;
        var k :| k in prev && IsEvent(k) && l == Listener(EventName(k), prev[k]);
        assert !Unbinds(prev, next, k);
        assert k in next && next[k] == prev[k];
      }
    }
    forall l | l in Bindings(next) ensures l in after.listeners {
      var k :| k in next && IsEvent(k) && l == Listener(EventName(k), next[k]);
      if !Binds(prev, next, k) {
        assert k in prev && prev[k] == next[k];
        assert l in node.listeners;
      }
    }
  }

  /** Dropping "onClick" while keeping "onclick" unbinds `click` and binds nothing. */
  lemma DropOnClickPasses()
    ensures var prev := map["onClick" := Function(1), "onclick" := Function(1)];
      var next := map["onclick" := Function(1)];
      && Listener("click", Function(1)) in UnboundAmong(prev, next, prev.Keys)
      && BoundAmong(prev, next, next.Keys) == {}
  {
    var prev := map["onClick" := Function(1), "onclick" := Function(1)];
    var next := map["onclick" := Function(1)];
    EventNamesCollide();
    assert Unbinds(prev, next, "onClick");
    forall k | k in next.Keys
      ensures !Binds(prev, next, k)
    {
    }
  }

  /**
   * With the keys "onClick" and "onclick" bound to one handler, dropping
   * "onClick" unbinds the `click` registration that "onclick" still asks for.
   */
  lemma CollidingEventKeysLoseListener()
    ensures var prev := map["onClick" := Function(1), "onclick" := Function(1)];
      var next := map["onclick" := Function(1)];
      var node := HostNode(ElementNode("button"), map[], Bindings(prev), None, []);
      Reflects(node, prev) && !Reflects(NodeAfter(node, prev, next), next)
  {
    var prev := map["onClick" := Function(1), "onclick" := Function(1)];
    var next := map["onclick" := Function(1)];
    var node := HostNode(ElementNode("button"), map[], Bindings(prev), None, []);
    ClickStillWanted();
    DropOnClickPasses();
    assert Listener("click", Function(1)) !in NodeAfter(node, prev, next).listeners;
  }

  /** The map that keeps only "onclick" still asks for a `click` listener. */
  lemma ClickStillWanted()
    ensures Listener("click", Function(1)) in Bindings(map["onclick" := Function(1)])
  {
    EventNamesCollide();
  }

  /**
   * Mounting (`updateDom(node, {}, props)`) on a fresh node shows `props`:
   * every property is copied and every event key is bound.
   */
  lemma MountReflects(kind: NodeKind, next: map<string, Value>)
    ensures Reflects(NodeAfter(NewNode(kind), map[], next), next)
  {
    var after := NodeAfter(NewNode(kind), map[], next);
    assert BoundAmong(map[], next, next.Keys) == Bindings(next);
  }

  /** Some pass of `updateDom` has work to do. */
  predicate Touches(prev: map<string, Value>, next: map<string, Value>) {
    exists k :: k in prev.Keys + next.Keys &&
      (Unbinds(prev, next, k) || Clears(prev, next, k) || Sets(prev, next, k) || Binds(prev, next, k))
  }

  /** `updateDom` has work to do exactly when the two prop maps differ outside `children`. */
  lemma TouchesIffPropsDiffer(prev: map<string, Value>, next: map<string, Value>)
    ensures Touches(prev, next) <==> prev - {ChildrenKey} != next - {ChildrenKey}
  {
    var p, q := prev - {ChildrenKey}, next - {ChildrenKey};
    if Touches(prev, next) {
      var k :| k in prev.Keys + next.Keys &&
        (Unbinds(prev, next, k) || Clears(prev, next, k) || Sets(prev, next, k) || Binds(prev, next, k));
      assert k != ChildrenKey;
      assert (k in p) != (k in q) || (k in p && p[k] != q[k]);
    } else {
      forall k | k in prev.Keys + next.Keys && k != ChildrenKey
        ensures k in prev && k in next && prev[k] == next[k]
      {
        assert !Unbinds(prev, next, k) && !Clears(prev, next, k) && !Sets(prev, next, k) && !Binds(prev, next, k);
      }
      assert p == q;
    }
  }

  /** When no pass has work to do, the first and fourth passes change no listener. */
  lemma UntouchedListeners(prev: map<string, Value>, next: map<string, Value>)
    requires !Touches(prev, next)
    ensures UnboundAmong(prev, next, prev.Keys) == {} && BoundAmong(prev, next, next.Keys) == {}
  {
    forall k | k in prev.Keys + next.Keys
      ensures !Unbinds(prev, next, k) && !Binds(prev, next, k)
    {
    }
  }

  /** When no pass has work to do, the second and third passes change no property. */
  lemma UntouchedProps(props: map<string, Value>, prev: map<string, Value>, next: map<string, Value>)
    requires !Touches(prev, next)
    ensures PropsAfter(props, prev, next) == props
  {
    var r := PropsAfter(props, prev, next);
    forall k
      ensures !Sets(prev, next, k) && !Clears(prev, next, k)
    {
      if Sets(prev, next, k) || Clears(prev, next, k) {
        assert false;
      }
    }
    assert r.Keys == props.Keys;
  }

  /** When no pass has work to do, `updateDom` leaves the node as it was. */
  lemma UntouchedNodeUnchanged(node: HostNode, prev: map<string, Value>, next: map<string, Value>)
    requires !Touches(prev, next)
    ensures NodeAfter(node, prev, next) == node
  {
    UntouchedListeners(prev, next);
    UntouchedProps(node.props, prev, next);
  }
}

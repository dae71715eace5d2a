/**
 * JavaScript values as the renderer sees them, element objects, and the two
 * element constructors: the unflattened one of areact03 and the flattening one
 * shared by areact04 and areact06.
 */
module Elements {

  /** A component function, known only by its identity. */
  type ComponentId = nat
  /** Any other function value (an event handler, a callback), by identity. */
  type FunctionId = nat

  /** An element's `type`: a host tag name, or a component function. */
  datatype ElemType = Tag(name: string) | Component(id: ComponentId)

  /**
   * The JavaScript values that flow through props and children. Numbers are
   * integers; `Elem` is an element object `{type, props}`.
   */
  datatype Value =
    | Str(s: string)
    | Num(n: int)
    | Bool(b: bool)
    | Null
    | Undefined
    | Function(id: FunctionId)
    | Array(items: seq<Value>)
    | Object(fields: map<string, Value>)
    | Elem(e: Element)

  /** An element; its `props` carry the `children` array under the key "children". */
  datatype Element = Element(ty: ElemType, props: map<string, Value>)

  /** The tag of the synthetic element that carries a text value. */
  const HostText: string := "HostText"
  const ChildrenKey: string := "children"

  /** The result of JavaScript's `typeof`. */
  function TypeOf(v: Value): string {
    match v
    case Str(_) => "string"
    case Num(_) => "number"
    case Bool(_) => "boolean"
    case Undefined => "undefined"
    case Function(_) => "function"
    case _ => "object"
  }

  /** `typeof v === "object"`, which holds of `null` too. */
  predicate IsObject(v: Value) {
    TypeOf(v) == "object"
  }

  /** JavaScript truthiness (numbers are integers, so NaN does not arise). */
  predicate Truthy(v: Value) {
    !(v.Null? || v.Undefined? || v == Bool(false) || v == Num(0) || v == Str(""))
  }

  /** `createTextElement(text)`: a HostText element whose `nodeValue` is `text`. */
  function CreateTextElement(text: Value): (e: Element)
    ensures e.ty == Tag(HostText)
    ensures e.props.Keys == {"nodeValue", ChildrenKey}
    ensures e.props["nodeValue"] == text && e.props[ChildrenKey] == Array([])
  {
    Element(Tag(HostText), map["nodeValue" := text, ChildrenKey := Array([])])
  }

  /** One level of `Array.prototype.flat()`: array arguments are spliced in, nothing deeper. */
  function Flat(vs: seq<Value>): (r: seq<Value>)
    ensures forall v :: v in vs && !v.Array? ==> v in r
    ensures forall v :: v in r ==> v in vs || exists a :: a in vs && a.Array? && v in a.items
  {
    if vs == [] then []
    else (if vs[0].Array? then vs[0].items else [vs[0]]) + Flat(vs[1..])
  }

  /** The wrapping applied to each child: non-objects become text elements. */
  function WrapText(child: Value): (r: Value)
    ensures IsObject(r)
    ensures IsObject(child) ==> r == child
    ensures !IsObject(child) ==> r == Elem(CreateTextElement(child))
  {
    if IsObject(child) then child else Elem(CreateTextElement(child))
  }

  /**
   * `createElement` of areact04 and areact06 (areact04/AReact.jsx:17-27,
   * areact06/AReact.jsx:13-23): the props are copied, and `children` becomes the
   * flattened argument list with every non-object wrapped as a text element.
   */
  function CreateElement(ty: ElemType, props: map<string, Value>, children: seq<Value>): (e: Element)
    ensures e.ty == ty
    ensures e.props.Keys == props.Keys + {ChildrenKey}
    ensures forall k :: k in props && k != ChildrenKey ==> e.props[k] == props[k]
    ensures e.props[ChildrenKey].Array?
    ensures |e.props[ChildrenKey].items| == |Flat(children)|
    ensures forall i :: 0 <= i < |Flat(children)| ==>
      var c, k := Flat(children)[i], e.props[ChildrenKey].items[i];
      IsObject(k) && (IsObject(c) ==> k == c) && (!IsObject(c) ==> k == Elem(CreateTextElement(c)))
  {
    Element(ty, props[ChildrenKey := Array(seq(|Flat(children)|, i requires 0 <= i < |Flat(children)| => WrapText(Flat(children)[i])))])
  }

  /**
   * `createElement` of areact03 (areact03/AReact.jsx:17-27): no flattening, and a
   * non-object child is replaced by a text element whose `nodeValue` is the whole
   * argument list, since the wrapper is applied to `children`, not to `child`.
   */
  function CreateElementUnflattened(ty: ElemType, props: map<string, Value>, children: seq<Value>): (e: Element)
    ensures e.ty == ty
    ensures e.props.Keys == props.Keys + {ChildrenKey}
    ensures forall k :: k in props && k != ChildrenKey ==> e.props[k] == props[k]
    ensures e.props[ChildrenKey].Array?
    ensures |e.props[ChildrenKey].items| == |children|
    ensures forall i :: 0 <= i < |children| ==>
      var c, k := children[i], e.props[ChildrenKey].items[i];
      (IsObject(c) ==> k == c) && (!IsObject(c) ==> k == Elem(CreateTextElement(Array(children))))
  {
    Element(ty, props[ChildrenKey := Array(seq(|children|, i requires 0 <= i < |children| =>
      if IsObject(children[i]) then children[i] else Elem(CreateTextElement(Array(children)))))])
  }

  /** No argument is an array that itself holds an array. */
  predicate NestedAtMostOnce(children: seq<Value>) {
    forall a :: a in children && a.Array? ==> forall v :: v in a.items ==> !v.Array?
  }

  /** Flattening one level leaves no array behind when arrays nest at most once. */
  lemma {:induction false} FlatRemovesArrays(children: seq<Value>)
    requires NestedAtMostOnce(children)
    ensures forall v :: v in Flat(children) ==> !v.Array?
  {
    if children != [] {
      assert NestedAtMostOnce(children[1..]) by {
        forall a | a in children[1..] ensures a in children { }
      }
      FlatRemovesArrays(children[1..]);
    }
  }

  /**
   * Every child that `CreateElement` produces is an object and none is an array,
   * unless an argument nests arrays two deep.
   */
  lemma CreateElementChildrenAreFlat(ty: ElemType, props: map<string, Value>, children: seq<Value>)
    requires NestedAtMostOnce(children)
    ensures var kids := CreateElement(ty, props, children).props[ChildrenKey].items;
      forall i :: 0 <= i < |kids| ==> IsObject(kids[i]) && !kids[i].Array?
  {
    FlatRemovesArrays(children);
    var flat := Flat(children);
    assert forall i :: 0 <= i < |flat| ==> flat[i] in flat;
  }

  /** Flattening is the identity on a list without arrays. */
  lemma {:induction false} FlatWithoutArrays(children: seq<Value>)
    requires forall v :: v in children ==> !v.Array?
    ensures Flat(children) == children
  {
    if children != [] {
      FlatWithoutArrays(children[1..]);
    }
  }

  /**
   * The two constructors agree exactly when nothing needs flattening or
   * wrapping: when every argument is an object other than an array.
   */
  lemma ConstructorsAgreeOnObjects(ty: ElemType, props: map<string, Value>, children: seq<Value>)
    requires forall v :: v in children ==> IsObject(v) && !v.Array?
    ensures CreateElement(ty, props, children) == CreateElementUnflattened(ty, props, children)
  {
    FlatWithoutArrays(children);
    var a := CreateElement(ty, props, children).props[ChildrenKey].items;
    var b := CreateElementUnflattened(ty, props, children).props[ChildrenKey].items;
    assert forall i :: 0 <= i < |children| ==> children[i] in children;
    assert a == b;
  }

  /**
   * In areact03 a primitive child among other children loses its own value:
   * `createElement("p", {}, "a", "b")` yields two text elements that both carry
   * the list `["a", "b"]`.
   */
  lemma UnflattenedTextCarriesWholeList()
    ensures var e := CreateElementUnflattened(Tag("p"), map[], [Str("a"), Str("b")]);
      e.props[ChildrenKey] == Array([Elem(CreateTextElement(Array([Str("a"), Str("b")]))),
                                     Elem(CreateTextElement(Array([Str("a"), Str("b")])))])
  {
  }
}

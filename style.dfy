/**
 * `setStyleByObject(style, styleObject)` (areact07/utils.js:10-28): copy a
 * style object onto a node's `style`, key by key. Strings are copied as they
 * are, numbers get a `px` unit except under a fixed set of unitless keys, and
 * every other value is skipped.
 */
module Style {
  import opened Wrappers
  import opened Elements

  /** The keys whose numbers are stored without a unit. */
  const UnitlessKeys: seq<string> := ["opacity", "zIndex", "lineHeight", "flexGrow", "flexShrink", "order", "fontWeight"]

  /** A node's `style` object, which `setStyleByObject` writes into. */
  class CssStyle {
    var entries: map<string, Value>

    constructor(entries: map<string, Value>)
      ensures this.entries == entries
    {
      this.entries := entries;
    }
  }

  /** How a call ends: `return ""`, falling off the end, or a TypeError thrown by `Reflect.ownKeys`. */
  datatype Outcome = Blank | Applied | Threw

  // Decimal text of integers, as a template literal writes them.

  function DigitChar(d: nat): char
    requires d < 10
  {
    ('0' as int + d) as char
  }

  /** The decimal digits of `n`, most significant first, without leading zeros. */
  function Digits(n: nat): (s: string)
    ensures |s| > 0 && forall i :: 0 <= i < |s| ==> '0' <= s[i] <= '9'
    decreases n
  {
    if n < 10 then [DigitChar(n)] else Digits(n / 10) + [DigitChar(n % 10)]
  }

  /** `${n}` for an integer `n`. */
  function Decimal(n: int): (s: string)
    ensures |s| > 0
  {
    if n < 0 then "-" + Digits(-n) else Digits(n)
  }

  /** `${n}px`. */
  function Px(n: int): string {
    Decimal(n) + "px"
  }

  /** The number a string of decimal digits spells, if it is one. */
  function ParseDigits(s: string): (r: Option<nat>)
    decreases |s|
  {
    if s == [] || !('0' <= s[|s| - 1] <= '9') then None
    else
      var d := (s[|s| - 1] as int) - ('0' as int);
      if |s| == 1 then Some(d)
      else
        var hi := ParseDigits(s[..|s| - 1]);
        if hi.None? then None else Some(hi.value * 10 + d)
  }

  /** The integer a decimal text spells, with an optional leading minus. */
  function ParseDecimal(s: string): Option<int> {
    if |s| > 0 && s[0] == '-' then
      var m := ParseDigits(s[1..]);
      if m.None? then None else Some(0 - m.value)
    else
      var m := ParseDigits(s);
      if m.None? then None else Some(m.value)
  }

  /** The integer before a `px` suffix, if the text is one. */
  function ParsePx(s: string): Option<int> {
    if |s| >= 2 && s[|s| - 2..] == "px" then ParseDecimal(s[..|s| - 2]) else None
  }

  lemma {:induction false} DigitsRoundTrip(n: nat)
    ensures ParseDigits(Digits(n)) == Some(n)
    decreases n
  {
    var s := Digits(n);
    if n >= 10 {
      DigitsRoundTrip(n / 10);
      assert s[..|s| - 1] == Digits(n / 10);
      assert s[|s| - 1] == DigitChar(n % 10);
    }
  }

  /** Reading back the text of a number gives the number. */
  lemma DecimalRoundTrip(n: int)
    ensures ParseDecimal(Decimal(n)) == Some(n)
  {
    var s := Decimal(n);
    if n < 0 {
      var t := Digits(-n);
      DigitsRoundTrip(-n);
      assert s == "-" + t;
      assert s[1..] == t;
      assert ParseDigits(s[1..]) == Some(-n);
    } else {
      var t := Digits(n);
      DigitsRoundTrip(n);
      assert s == t;
      assert s[0] != '-';
    }
  }

  /** A `px` length reads back as the number it was made from, so different numbers give different lengths. */
  lemma PxRoundTrip(n: int)
    ensures ParsePx(Px(n)) == Some(n)
  {
    var s := Px(n);
    assert s[|s| - 2..] == "px" && s[..|s| - 2] == Decimal(n);
    DecimalRoundTrip(n);
  }

  lemma DecimalInjective()
    ensures forall i: int, j: int :: Decimal(i) == Decimal(j) ==> i == j
  {
    forall i: int, j: int | Decimal(i) == Decimal(j)
      ensures i == j
    {
      DecimalRoundTrip(i);
      DecimalRoundTrip(j);
    }
  }

  /** An element's `type` field: the tag name, or the component function. */
  function TypeField(ty: ElemType): Value {
    match ty
    case Tag(name) => Str(name)
    case Component(id) => Function(id)
  }

  /** No array index, written out, is the key `length`. */
  lemma NoIndexIsLength()
    ensures forall i: nat :: Decimal(i) != "length"
  {
    forall i: nat
      ensures Decimal(i) != "length"
    {
      var s := Decimal(i);
      assert s == Digits(i);
      assert '0' <= s[0] <= '9';
    }
  }

  /** The index keys of an array and the items they hold. */
  function IndexEntries(items: seq<Value>): (m: map<string, Value>)
    ensures "length" !in m
    ensures forall i :: 0 <= i < |items| ==> Decimal(i) in m && m[Decimal(i)] == items[i]
  {
    DecimalInjective();
    NoIndexIsLength();
    map i | 0 <= i < |items| :: Decimal(i) := items[i]
  }

  /**
   * The own string keys of a value and what they hold, as `Reflect.ownKeys`
   * and `styleObject[key]` see them; `None` where `Reflect.ownKeys` throws
   * because the value is not an object. An array has its indices and
   * `length`; an element object has `type` and `props`.
   */
  function OwnEntries(v: Value): (r: Option<map<string, Value>>)
    ensures r.None? <==> !(v.Object? || v.Array? || v.Elem? || v.Function?)
    ensures v.Object? ==> r == Some(v.fields)
    ensures v.Array? ==>
      && r.Some? && "length" in r.value && r.value["length"] == Num(|v.items|)
      && forall i :: 0 <= i < |v.items| ==> Decimal(i) in r.value && r.value[Decimal(i)] == v.items[i]
  {
    match v
    case Object(fields) => Some(fields)
    case Array(items) => Some(IndexEntries(items)["length" := Num(|items|)])
    case Elem(e) => Some(map["type" := TypeField(e.ty), "props" := Object(e.props)])
    case Function(_) => Some(map[])
    case _ => None
  }

  /**
   * What `style[key]` becomes for a value `v` under `key`, or `None` when the
   * value is neither a string nor a number and the key is left alone.
   */
  function StyleValue(key: string, v: Value): (r: Option<Value>)
    ensures r.Some? <==> v.Str? || v.Num?
    ensures r.Some? ==> r.value.Str? || (key in UnitlessKeys && r.value == v)
  {
    match v
    case Str(_) => Some(v)
    case Num(n) => if key in UnitlessKeys then Some(v) else Some(Str(Px(n)))
    case _ => None
  }

  /** `style` after the `forEach` has visited the keys `ks` of `own`. */
  function StyledAmong(style: map<string, Value>, own: map<string, Value>, ks: set<string>): map<string, Value>
    requires ks <= own.Keys
  {
    map k | k in style.Keys + (set j | j in ks && StyleValue(j, own[j]).Some?) ::
      if k in ks && StyleValue(k, own[k]).Some? then StyleValue(k, own[k]).value else style[k]
  }

  /** `style` after the `forEach` over every own key of `own`. */
  function Styled(style: map<string, Value>, own: map<string, Value>): (r: map<string, Value>)
    ensures r.Keys == style.Keys + (set k | k in own && (own[k].Str? || own[k].Num?))
  {
    StyledAmong(style, own, own.Keys)
  }

  /** The `forEach` visiting one more key `k`. */
  lemma StyledStep(style: map<string, Value>, own: map<string, Value>, ks: set<string>, k: string)
    requires ks <= own.Keys && k in own && k !in ks
    ensures StyledAmong(style, own, ks + {k}) ==
      if StyleValue(k, own[k]).Some? then StyledAmong(style, own, ks)[k := StyleValue(k, own[k]).value]
      else StyledAmong(style, own, ks)
  {
    var a := StyledAmong(style, own, ks + {k});
    var b := if StyleValue(k, own[k]).Some? then StyledAmong(style, own, ks)[k := StyleValue(k, own[k]).value]
      else StyledAmong(style, own, ks);
    assert a.Keys == b.Keys;
  }

  /** The body of the `forEach` for one key: the value to store, if any (areact07/utils.js:16-26). */
  method StyleFor(key: string, styleValue: Value) returns (written: Option<Value>)
    ensures written == StyleValue(key, styleValue)
  {
    written := None;
    if styleValue.Str? {
      written := Some(styleValue);
    }
    if styleValue.Num? {
      if key in UnitlessKeys {
        written := Some(styleValue);
      } else {
        written := Some(Str(Px(styleValue.n)));
      }
    }
  }

  /**
   * `setStyleByObject(style, styleObject)` (areact07/utils.js:10-28). A falsy
   * style object, or one without own keys, returns at once and writes
   * nothing; a value that is not an object makes `Reflect.ownKeys` throw
   * before anything is written; otherwise every own key is visited once.
   */
  method SetStyleByObject(style: CssStyle, styleObject: Value) returns (r: Outcome)
    modifies style
    ensures r == Blank <==> !Truthy(styleObject) || OwnEntries(styleObject) == Some(map[])
    ensures r == Threw <==> Truthy(styleObject) && OwnEntries(styleObject).None?
    ensures r == Applied ==> style.entries == Styled(old(style.entries), OwnEntries(styleObject).value)
    ensures r != Applied ==> style.entries == old(style.entries)
  {
    if !Truthy(styleObject) {
      return Blank;
    }
    var own := OwnEntries(styleObject);
    if own.None? {
      return Threw;
    }
    if own.value == map[] {
      return Blank;
    }
    ApplyEntries(style, own.value);
    return Applied;
  }

  /** The `forEach` over the own keys of a style object (areact07/utils.js:15-27). */
  method ApplyEntries(style: CssStyle, entries: map<string, Value>)
    modifies style
    ensures style.entries == Styled(old(style.entries), entries)
  {
    var todo := entries.Keys;
    ghost var visited: set<string> := {};
    while todo != {}
      invariant todo <= entries.Keys && visited == entries.Keys - todo
      invariant style.entries == StyledAmong(old(style.entries), entries, visited)
      decreases |todo|
    {
      var key :| key in todo;
      StyledStep(old(style.entries), entries, visited, key);
      var written := StyleFor(key, entries[key]);
      if written.Some? {
        style.entries := style.entries[key := written.value];
      }
      todo := todo - {key};
      visited := visited + {key};
    }
    assert visited == entries.Keys;
  }

  /** A string value is copied as it is. */
  lemma StyledCopiesStrings(style: map<string, Value>, own: map<string, Value>, k: string)
    requires k in own && own[k].Str?
    ensures k in Styled(style, own) && Styled(style, own)[k] == own[k]
  {
  }

  /** A number under one of the unitless keys is stored as the number. */
  lemma StyledKeepsUnitless(style: map<string, Value>, own: map<string, Value>, k: string)
    requires k in own && own[k].Num? && k in UnitlessKeys
    ensures k in Styled(style, own) && Styled(style, own)[k] == own[k]
  {
  }

  /** Any other number becomes a `px` length that reads back as the number. */
  lemma StyledAddsPx(style: map<string, Value>, own: map<string, Value>, k: string)
    requires k in own && own[k].Num? && k !in UnitlessKeys
    ensures k in Styled(style, own) && Styled(style, own)[k].Str?
    ensures ParsePx(Styled(style, own)[k].s) == Some(own[k].n)
  {
    PxRoundTrip(own[k].n);
  }

  /** A key the object does not have, or one holding neither a string nor a number, keeps its entry. */
  lemma StyledKeepsOthers(style: map<string, Value>, own: map<string, Value>, k: string)
    requires k !in own || !(own[k].Str? || own[k].Num?)
    ensures k in Styled(style, own) <==> k in style
    ensures k in style ==> Styled(style, own)[k] == style[k]
  {
  }

  /** Applying the same style object twice leaves what applying it once does. */
  lemma StyledIdempotent(style: map<string, Value>, own: map<string, Value>)
    ensures Styled(Styled(style, own), own) == Styled(style, own)
  {
    var once := Styled(style, own);
    var twice := Styled(once, own);
    assert twice.Keys == once.Keys;
    forall k | k in once
      ensures twice[k] == once[k]
    {
    }
  }

  /**
   * `{ width: 100, fontSize: "22px" }` on an empty style gives width `100px`
   * and font size `22px`, and nothing else.
   */
  lemma WidthAndFontSize()
    ensures Styled(map[], map["width" := Num(100), "fontSize" := Str("22px")])
      == map["width" := Str("100px"), "fontSize" := Str("22px")]
  {
    assert Digits(1) == "1";
    assert Digits(10) == "10";
    assert Digits(100) == "100";
    assert Px(100) == "100px";
    var own := map["width" := Num(100), "fontSize" := Str("22px")];
    assert "width" !in UnitlessKeys;
    assert StyleValue("width", own["width"]) == Some(Str("100px"));
    var r := Styled(map[], own);
    assert r.Keys == {"width", "fontSize"};
  }

  /** An empty array still has the own key `length`, so its style gets `length: 0px`. */
  lemma EmptyArrayWritesLength()
    ensures OwnEntries(Array([])) == Some(map["length" := Num(0)])
    ensures Styled(map[], OwnEntries(Array([])).value) == map["length" := Str("0px")]
  {
    var own := OwnEntries(Array([]));
    assert own.value.Keys == {"length"};
    assert "length" !in UnitlessKeys;
    assert Px(0) == "0px";
    assert StyleValue("length", Num(0)) == Some(Str("0px"));
    assert Styled(map[], own.value).Keys == {"length"};
  }
}

/**
 * Classification of prop keys (areact06/AReact.jsx:29-41, areact04/AReact.jsx:34)
 * and the event name derived from an `on*` key.
 */
module Keys {
  import opened Elements

  /** `attr.startsWith("on")`. */
  function IsEvent(key: string): (b: bool)
    ensures b <==> "on" <= key
  {
    |key| >= 2 && key[0] == 'o' && key[1] == 'n'
  }

  /**
   * areact06's `isProperty`: every key is exactly one of `children`, an event
   * or a property.
   */
  function IsProperty(key: string): (b: bool)
    ensures key == ChildrenKey ==> !b
    ensures IsEvent(key) ==> !b
    ensures !b ==> key == ChildrenKey || IsEvent(key)
  {
    key != ChildrenKey && !IsEvent(key)
  }

  /**
   * areact03/areact04's `isProperty`: anything but `children`, so both what
   * areact06 calls a property and what it calls an event are copied.
   */
  function IsCopiedProp(key: string): (b: bool)
    ensures IsProperty(key) ==> b
    ensures IsEvent(key) ==> b
    ensures !b ==> key == ChildrenKey
  {
    key != ChildrenKey
  }

  /** `!(key in next)`: a gone key is neither new nor changed. */
  function IsGone(prev: map<string, Value>, next: map<string, Value>, key: string): (b: bool)
    ensures b ==> !IsNew(prev, next, key) && !IsChanged(prev, next, key)
    ensures key in prev && b ==> key in prev.Keys - next.Keys
  {
    key !in next
  }

  /** `!(key in prev) && key in next`: a new key is not changed. */
  function IsNew(prev: map<string, Value>, next: map<string, Value>, key: string): (b: bool)
    ensures b ==> !IsChanged(prev, next, key) && key in next.Keys - prev.Keys
  {
    key !in prev && key in next
  }

  /**
   * `prev[key] !== next[key]` for a key present in both; values are compared
   * structurally.
   */
  function IsChanged(prev: map<string, Value>, next: map<string, Value>, key: string): (b: bool)
    ensures b ==> key in prev && key in next && prev != next
    ensures !b && key in prev && key in next ==> prev[key] == next[key]
  {
    key in prev && key in next && prev[key] != next[key]
  }

  /** ASCII lower-casing of one character. */
  function LowerChar(c: char): char {
    if 'A' <= c <= 'Z' then (c as int + 32) as char else c
  }

  function ToLower(s: string): (r: string)
    ensures |r| == |s|
    ensures forall i :: 0 <= i < |s| ==> r[i] == LowerChar(s[i])
  {
    if s == [] then [] else [LowerChar(s[0])] + ToLower(s[1..])
  }

  /** `s.substring(start)` for a non-negative start: empty once start passes the end. */
  function Substring(s: string, start: nat): string {
    if start <= |s| then s[start..] else ""
  }

  /** `key.toLowerCase().substring(2)`: `onClick` names the event `click`. */
  function EventName(key: string): (name: string)
    ensures IsEvent(key) ==> |name| == |key| - 2
    ensures forall i :: 0 <= i < |name| ==> i + 2 < |key| && name[i] == LowerChar(key[i + 2])
  {
    Substring(ToLower(key), 2)
  }

  /** Every key falls in exactly one of gone, new, changed or unchanged-and-present. */
  lemma KeyClassesPartition(prev: map<string, Value>, next: map<string, Value>, key: string)
    requires key in prev || key in next
    ensures IsGone(prev, next, key) || IsNew(prev, next, key) || IsChanged(prev, next, key)
      || (key in prev && key in next && prev[key] == next[key])
    ensures IsGone(prev, next, key) ==> !IsNew(prev, next, key) && !IsChanged(prev, next, key)
    ensures IsNew(prev, next, key) ==> !IsChanged(prev, next, key)
  {
  }

  /** `onClick` and `onclick` both name the event `click`. */
  lemma EventNamesCollide()
    ensures EventName("onClick") == EventName("onclick") == "click"
  {
    assert ToLower("onClick") == "onclick";
    assert ToLower("onclick") == "onclick";
  }
}

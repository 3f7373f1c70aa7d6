/**
 * JavaScript values as the settings tree, the JSON messages and the QLab replies carry them:
 * `undefined`, `null`, booleans, integer numbers, strings, arrays and plain objects. An
 * object is its own enumerable properties in insertion order. For keys that are not array
 * indices this is the order `Object.entries` and `JSON.stringify` visit them in; JavaScript
 * lists integer-like keys first, in ascending order, and the model does not.
 */
module JsValue {
  import opened Wrappers
  import Js

  datatype Value =
    | Undefined
    | Null
    | Bool(b: bool)
    | Num(n: int)
    | Str(s: string)
    | Arr(items: seq<Value>)
    | Obj(props: seq<(string, Value)>)

  /** `typeof v`. */
  function TypeOf(v: Value): (r: string)
    ensures r == "object" <==> v.Null? || v.Arr? || v.Obj?
    ensures r in {"undefined", "object", "boolean", "number", "string"}
  {
    match v
    case Undefined => "undefined"
    case Null => "object"
    case Bool(_) => "boolean"
    case Num(_) => "number"
    case Str(_) => "string"
    case Arr(_) => "object"
    case Obj(_) => "object"
  }

  /** `if (v)`: `undefined`, `null`, `false`, `0` and `''` are falsy. */
  predicate Truthy(v: Value) {
    match v
    case Undefined => false
    case Null => false
    case Bool(b) => b
    case Num(n) => n != 0
    case Str(s) => s != ""
    case Arr(_) => true
    case Obj(_) => true
  }

  /** Arrays and objects are held by reference; updating one in place is visible to its container. */
  predicate IsReference(v: Value) { v.Arr? || v.Obj? }

  /** `typeof v === 'object' && v !== null && !(v instanceof Array)`. */
  predicate IsPlainObject(v: Value) { TypeOf(v) == "object" && !v.Null? && !v.Arr? }

  lemma PlainObjectIsObj(v: Value)
    ensures IsPlainObject(v) <==> v.Obj?
  {
  }

  // ---------------------------------------------------------------------------
  // Property lists

  function HasKey(props: seq<(string, Value)>, key: string): (r: bool)
  {
    if props == [] then false else props[0].0 == key || HasKey(props[1..], key)
  }

  /** The value stored under `key`, `undefined` when there is none. */
  function Lookup(props: seq<(string, Value)>, key: string): (r: Value)
    ensures !HasKey(props, key) ==> r.Undefined?
  {
    if props == [] then Undefined
    else if props[0].0 == key then props[0].1
    else Lookup(props[1..], key)
  }

  /** `obj[key] = v`: replaces an existing property in place, otherwise appends one. */
  function Update(props: seq<(string, Value)>, key: string, v: Value): (r: seq<(string, Value)>)
    ensures |r| == if HasKey(props, key) then |props| else |props| + 1
  {
    if props == [] then [(key, v)]
    else if props[0].0 == key then [(key, v)] + props[1..]
    else [props[0]] + Update(props[1..], key, v)
  }

  /** No key occurs twice: what every JavaScript object satisfies. */
  predicate UniqueKeys(props: seq<(string, Value)>) {
    props == [] || (!HasKey(props[1..], props[0].0) && UniqueKeys(props[1..]))
  }

  lemma {:induction false} LookupUpdate(props: seq<(string, Value)>, key: string, v: Value, other: string)
    ensures Lookup(Update(props, key, v), key) == v
    ensures other != key ==> Lookup(Update(props, key, v), other) == Lookup(props, other)
    ensures HasKey(Update(props, key, v), other) <==> other == key || HasKey(props, other)
  {
    if props != [] && props[0].0 != key {
      LookupUpdate(props[1..], key, v, other);
    }
  }

  lemma {:induction false} UpdateUnique(props: seq<(string, Value)>, key: string, v: Value)
    requires UniqueKeys(props)
    ensures UniqueKeys(Update(props, key, v))
  {
    if props != [] && props[0].0 != key {
      UpdateUnique(props[1..], key, v);
      LookupUpdate(props[1..], key, v, props[0].0);
    }
  }

  /** Writing back the value a property already holds changes nothing. */
  lemma {:induction false} UpdateSame(props: seq<(string, Value)>, key: string)
    requires HasKey(props, key)
    ensures Update(props, key, Lookup(props, key)) == props
  {
    if props[0].0 != key {
      UpdateSame(props[1..], key);
    }
  }

  // ---------------------------------------------------------------------------
  // Array indices

  /** The index an array property name denotes: `String(i)` for some `i < n`, with no sign or leading zero. */
  function ArrayIndex(key: string, n: nat): (r: Option<nat>)
    ensures r.Some? ==> r.value < n && Js.NatToString(r.value) == key
    ensures r.None? ==> forall j :: 0 <= j < n ==> Js.NatToString(j) != key
  {
    if n == 0 then None
    else if Js.NatToString(n - 1) == key then Some(n - 1)
    else ArrayIndex(key, n - 1)
  }

  lemma IndexKey(i: nat, n: nat)
    requires i < n
    ensures ArrayIndex(Js.NatToString(i), n) == Some(i)
  {
    var r := ArrayIndex(Js.NatToString(i), n);
    if r.Some? && r.value != i {
      Js.NatToStringValue(i);
      Js.NatToStringValue(r.value);
    }
  }

  /** A name that does not start with a digit, such as `id` or `rundown`, is no array index. */
  lemma NamedKey(key: string, n: nat)
    requires key != [] && !Js.IsDecimalDigit(key[0])
    ensures ArrayIndex(key, n).None?
  {
  }

  // ---------------------------------------------------------------------------
  // Property access

  /** `key in v` for an object or an array (`in` throws on anything else). */
  predicate Has(v: Value, key: string)
    requires IsReference(v)
  {
    match v
    case Obj(props) => HasKey(props, key)
    case Arr(items) => key == "length" || ArrayIndex(key, |items|).Some?
  }

  /** `v[key]`; reading a property of `null` or `undefined` throws, so neither is accepted. */
  function Get(v: Value, key: string): (r: Value)
    requires !v.Null? && !v.Undefined?
    ensures IsReference(v) && !Has(v, key) ==> r.Undefined?
  {
    match v
    case Obj(props) => Lookup(props, key)
    case Arr(items) =>
      if key == "length" then Num(|items|)
      else (match ArrayIndex(key, |items|) case Some(i) => items[i] case None => Undefined)
    case Str(s) =>
      if key == "length" then Num(|s|)
      else (match ArrayIndex(key, |s|) case Some(i) => Str([s[i]]) case None => Undefined)
    case Bool(_) => Undefined
    case Num(_) => Undefined
  }

  /** `Object.entries(v)`; `null` and `undefined` throw (None). */
  function Entries(v: Value): (r: Option<seq<(string, Value)>>)
    ensures r.None? <==> v.Null? || v.Undefined?
    ensures v.Obj? ==> r == Some(v.props)
    ensures v.Arr? ==> r.Some? && |r.value| == |v.items|
  {
    match v
    case Undefined => None
    case Null => None
    case Bool(_) => Some([])
    case Num(_) => Some([])
    case Str(s) => Some(seq(|s|, i requires 0 <= i < |s| => (Js.NatToString(i), Str([s[i]]))))
    case Arr(items) => Some(seq(|items|, i requires 0 <= i < |items| => (Js.NatToString(i), items[i])))
    case Obj(props) => Some(props)
  }

  // ---------------------------------------------------------------------------
  // Values `JSON.parse` can produce

  /** `v` holds no `undefined` anywhere: a value `JSON.parse` could have produced. */
  predicate IsJson(v: Value)
    decreases v, 1
  {
    match v
    case Undefined => false
    case Arr(_) => AllJson(v, 0)
    case Obj(_) => AllJson(v, 0)
    case _ => true
  }

  predicate AllJson(v: Value, i: nat)
    requires IsReference(v)
    decreases v, 0, (if v.Arr? then |v.items| else |v.props|) - i
  {
    if v.Arr? then i >= |v.items| || (IsJson(v.items[i]) && AllJson(v, i + 1))
    else i >= |v.props| || (IsJson(v.props[i].1) && AllJson(v, i + 1))
  }

  /**
   * `JSON.parse(JSON.stringify(v))` for a value other than `undefined`: properties holding
   * `undefined` are dropped and `undefined` array elements become `null`.
   */
  function JsonCopy(v: Value): (r: Value)
    requires !v.Undefined?
    decreases v, 1
  {
    match v
    case Arr(_) => Arr(CopyItems(v, 0))
    case Obj(_) => Obj(CopyProps(v, 0))
    case _ => v
  }

  function CopyItems(v: Value, i: nat): (r: seq<Value>)
    requires v.Arr? && i <= |v.items|
    ensures |r| == |v.items| - i
    decreases v, 0, |v.items| - i
  {
    if i == |v.items| then []
    else [if v.items[i].Undefined? then Null else JsonCopy(v.items[i])] + CopyItems(v, i + 1)
  }

  function CopyProps(v: Value, i: nat): (r: seq<(string, Value)>)
    requires v.Obj? && i <= |v.props|
    decreases v, 0, |v.props| - i
  {
    if i == |v.props| then []
    else if v.props[i].1.Undefined? then CopyProps(v, i + 1)
    else [(v.props[i].0, JsonCopy(v.props[i].1))] + CopyProps(v, i + 1)
  }

  /** What comes back from a JSON round trip holds no `undefined`. */
  lemma {:induction false} JsonCopyIsJson(v: Value)
    requires !v.Undefined?
    ensures IsJson(JsonCopy(v))
    decreases v, 1
  {
    match v
    case Arr(_) =>
      CopyItemsJson(v, 0);
      JsonItemsAll(CopyItems(v, 0));
    case Obj(_) =>
      var cp := CopyProps(v, 0);
      CopyPropsJson(v, 0);
      assert cp[0..] == cp;
      JsonPropsFrom(cp, 0);
    case _ =>
  }

  lemma {:induction false} CopyItemsJson(v: Value, i: nat)
    requires v.Arr? && i <= |v.items|
    ensures JsonItems(CopyItems(v, i))
    decreases v, 0, |v.items| - i
  {
    if i < |v.items| {
      if !v.items[i].Undefined? {
        JsonCopyIsJson(v.items[i]);
      }
      CopyItemsJson(v, i + 1);
      assert CopyItems(v, i)[1..] == CopyItems(v, i + 1);
    }
  }

  lemma {:induction false} CopyPropsJson(v: Value, i: nat)
    requires v.Obj? && i <= |v.props|
    ensures JsonProps(CopyProps(v, i))
    decreases v, 0, |v.props| - i
  {
    if i < |v.props| {
      if !v.props[i].1.Undefined? {
        JsonCopyIsJson(v.props[i].1);
      }
      CopyPropsJson(v, i + 1);
      if !v.props[i].1.Undefined? {
        assert CopyProps(v, i)[1..] == CopyProps(v, i + 1);
      }
    }
  }

  /** IsJson of a list of elements, stated on the list alone. */
  predicate JsonItems(items: seq<Value>) {
    items == [] || (IsJson(items[0]) && JsonItems(items[1..]))
  }

  predicate JsonProps(props: seq<(string, Value)>) {
    props == [] || (IsJson(props[0].1) && JsonProps(props[1..]))
  }

  lemma {:induction false} JsonItemsAll(items: seq<Value>)
    ensures JsonItems(items) ==> IsJson(Arr(items))
  {
    assert items[0..] == items;
    JsonItemsFrom(items, 0);
  }

  lemma {:induction false} JsonItemsFrom(items: seq<Value>, i: nat)
    requires i <= |items|
    ensures JsonItems(items[i..]) ==> AllJson(Arr(items), i)
    decreases |items| - i
  {
    if i < |items| {
      assert items[i..][1..] == items[i + 1..];
      JsonItemsFrom(items, i + 1);
    }
  }

  lemma {:induction false} JsonPropsFrom(props: seq<(string, Value)>, i: nat)
    requires i <= |props|
    ensures JsonProps(props[i..]) <==> AllJson(Obj(props), i)
    decreases |props| - i
  {
    if i < |props| {
      assert props[i..][1..] == props[i + 1..];
      JsonPropsFrom(props, i + 1);
    }
  }

  lemma {:induction false} JsonItemsFromBack(items: seq<Value>, i: nat)
    requires i <= |items|
    ensures AllJson(Arr(items), i) ==> JsonItems(items[i..])
    decreases |items| - i
  {
    if i < |items| {
      assert items[i..][1..] == items[i + 1..];
      JsonItemsFromBack(items, i + 1);
    }
  }

  /** A value that already holds no `undefined` comes back from the JSON round trip unchanged. */
  lemma {:induction false} JsonCopyOfJson(v: Value)
    requires IsJson(v)
    ensures JsonCopy(v) == v
    decreases v, 1
  {
    match v
    case Arr(items) => CopyItemsOfJson(v, 0);
    case Obj(props) => CopyPropsOfJson(v, 0);
    case _ =>
  }

  lemma {:induction false} CopyItemsOfJson(v: Value, i: nat)
    requires v.Arr? && i <= |v.items| && AllJson(v, i)
    ensures CopyItems(v, i) == v.items[i..]
    decreases v, 0, |v.items| - i
  {
    if i < |v.items| {
      JsonCopyOfJson(v.items[i]);
      CopyItemsOfJson(v, i + 1);
      assert v.items[i..] == [v.items[i]] + v.items[i + 1..];
    }
  }

  lemma {:induction false} CopyPropsOfJson(v: Value, i: nat)
    requires v.Obj? && i <= |v.props| && AllJson(v, i)
    ensures CopyProps(v, i) == v.props[i..]
    decreases v, 0, |v.props| - i
  {
    if i < |v.props| {
      JsonCopyOfJson(v.props[i].1);
      CopyPropsOfJson(v, i + 1);
      assert v.props[i..] == [v.props[i]] + v.props[i + 1..];
    }
  }

  /** The JSON round trip is the identity exactly on values without `undefined`, hence idempotent. */
  lemma JsonCopyFixpoint(v: Value)
    requires !v.Undefined?
    ensures JsonCopy(v) == v <==> IsJson(v)
    ensures JsonCopy(JsonCopy(v)) == JsonCopy(v)
  {
    JsonCopyIsJson(v);
    if IsJson(v) {
      JsonCopyOfJson(v);
    }
    JsonCopyOfJson(JsonCopy(v));
  }
}

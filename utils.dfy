/** `hasPropertyWithType`: the property check every settings validator is built from. */
module Utils {
  import opened JsValue

  /** The names a check may list; `Partial` admits a missing property. */
  datatype CheckType = String | Number | Boolean | Object | Function | Array | NullType | Partial

  /** The string each check name is spelled as in the source. */
  function Name(t: CheckType): string
  {
    match t
    case String => "string"
    case Number => "number"
    case Boolean => "boolean"
    case Object => "object"
    case Function => "function"
    case Array => "array"
    case NullType => "null"
    case Partial => "partial"
  }

  /** `(types as string[]).includes(name)`. */
  predicate Includes(types: seq<CheckType>, name: string) {
    types != [] && (Name(types[0]) == name || Includes(types[1..], name))
  }

  lemma {:induction false} IncludesName(types: seq<CheckType>, name: string)
    ensures Includes(types, name) <==> exists t :: t in types && Name(t) == name
  {
    if types != [] {
      IncludesName(types[1..], name);
      assert forall t :: t in types <==> t == types[0] || t in types[1..];
    }
  }

  /**
   * Early returns in source order: a missing property passes only with `'partial'`; `null`
   * passes with `'null'`; an array with `'array'`; otherwise `typeof` must be listed.
   */
  function HasPropertyWithType(obj: Value, prop: string, types: seq<CheckType>): (r: bool)
    requires IsReference(obj)
    ensures !Has(obj, prop) ==> (r <==> Partial in types)
  {
    if Partial in types && !Has(obj, prop) then true
    else if !Has(obj, prop) then false
    else
      var value := Get(obj, prop);
      if NullType in types && value.Null? then true
      else if Array in types && value.Arr? then true
      else Includes(types, TypeOf(value))
  }

  lemma NameInjective(t: CheckType, u: CheckType)
    ensures Name(t) == Name(u) <==> t == u
  {
  }

  /** `typeof` never yields `'array'`, `'null'`, `'partial'` or `'function'` on these values. */
  lemma TypeOfName(v: Value, t: CheckType)
    requires Name(t) == TypeOf(v)
    ensures t in {String, Number, Boolean, Object}
  {
  }

  /** What a present property must hold for the check to pass, case by case. */
  lemma PresentProperty(obj: Value, prop: string, types: seq<CheckType>)
    requires IsReference(obj) && Has(obj, prop)
    ensures var v := Get(obj, prop);
      HasPropertyWithType(obj, prop, types) <==>
        if v.Null? then NullType in types || Object in types
        else if v.Arr? then Array in types || Object in types
        else if v.Obj? then Object in types
        else if v.Str? then String in types
        else if v.Num? then Number in types
        else if v.Bool? then Boolean in types
        else false
  {
    var v := Get(obj, prop);
    IncludesName(types, TypeOf(v));
    if Includes(types, TypeOf(v)) {
      var t :| t in types && Name(t) == TypeOf(v);
      TypeOfName(v, t);
    }
    if v.Obj? && Object in types { assert Name(Object) == TypeOf(v); }
    if v.Str? && String in types { assert Name(String) == TypeOf(v); }
    if v.Num? && Number in types { assert Name(Number) == TypeOf(v); }
    if v.Bool? && Boolean in types { assert Name(Boolean) == TypeOf(v); }
    if (v.Null? || v.Arr?) && Object in types { assert Name(Object) == TypeOf(v); }
  }

  /** Listing more types never turns a passing check into a failing one. */
  lemma {:induction false} Monotonic(obj: Value, prop: string, types: seq<CheckType>, more: seq<CheckType>)
    requires IsReference(obj)
    requires forall t :: t in types ==> t in more
    ensures HasPropertyWithType(obj, prop, types) ==> HasPropertyWithType(obj, prop, more)
  {
    if Has(obj, prop) {
      PresentProperty(obj, prop, types);
      PresentProperty(obj, prop, more);
    }
  }
}

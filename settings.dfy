/**
 * The server's settings store: the deep merge of a partial update into the settings tree
 * (`updateObjectWithPartial` / `updateArrayWithPartial`), `setSettings` with its mixer
 * reconnect decision, `getSettings` as a JSON copy, and the validators for settings read
 * from disk.
 *
 * The source mutates the tree in place; here a merge maps the old tree to the new one.
 * Module code runs in strict mode, so an assignment to a property of a primitive throws a
 * TypeError; a merge that throws keeps the updates it made before the throw.
 */
module Settings {
  import opened Wrappers
  import opened JsValue
  import opened Utils
  import Js

  /** How a merge ended. `Unsupported` marks a write the value model does not represent. */
  datatype Outcome = Completed | Threw | Unsupported

  /** The tree after a merge (or up to the point it stopped) and how it ended. */
  datatype Merged = Merged(value: Value, outcome: Outcome)

  /**
   * `target[key] = v`. On an array only an existing index is modelled: a new index, `length`
   * or a named property of an array is `Unsupported`.
   */
  function Assign(target: Value, key: string, v: Value): Merged
    requires !target.Null? && !target.Undefined?
  {
    match target
    case Obj(props) => Merged(Obj(Update(props, key, v)), Completed)
    case Arr(items) =>
      (match ArrayIndex(key, |items|)
       case Some(i) => Merged(Arr(items[i := v]), Completed)
       case None => Merged(target, Unsupported))
    case _ => Merged(target, Threw)
  }

  /**
   * An assignment throws exactly on a primitive. Once it completes, `key` reads back `v`
   * and every other property (an array's `length` included) reads as it did before.
   */
  lemma AssignReadsBack(target: Value, key: string, v: Value, other: string)
    requires !target.Null? && !target.Undefined?
    ensures Assign(target, key, v).outcome == Threw <==> !IsReference(target)
    ensures target.Obj? ==> Assign(target, key, v).outcome == Completed
    ensures Assign(target, key, v).outcome == Completed ==>
      Get(Assign(target, key, v).value, key) == v
      && (other != key ==> Get(Assign(target, key, v).value, other) == Get(target, other))
  {
    match target
    case Obj(props) =>
      LookupUpdate(props, key, v, other);
    case Arr(items) =>
      NamedKey("length", |items|);
    case _ =>
  }

  /** An object partial replaces the slot wholesale when the slot is `undefined`, or `null` and the partial truthy. */
  predicate AssignsWhole(current: Value, partial: Value) {
    current.Undefined? || (current.Null? && Truthy(partial))
  }

  /**
   * Whether the merge (re)assigns the slot: always, except when it recurses into the slot's
   * value in place, which is visible to the container only for an array or an object.
   */
  predicate Writes(current: Value, partial: Value) {
    !(partial.Obj? && !AssignsWhole(current, partial)) || IsReference(current)
  }

  /** What a slot holding `current` holds after the merge of the (non-`undefined`) `partial` into it. */
  function MergeValue(current: Value, partial: Value): (r: Merged)
    decreases partial, 3
  {
    if partial.Obj? then
      (if AssignsWhole(current, partial) then Merged(partial, Completed)
       else MergeEntries(current, partial, 0))
    else if partial.Arr? && current.Arr? && |current.items| == |partial.items| then
      MergeItems(current, partial, 0)
    else Merged(partial, Completed)
  }

  /**
   * `updateObjectWithPartial(target, partial)` from the `i`-th entry on: each entry is read
   * from `target` (which throws on `null`/`undefined`), skipped when `undefined`, and merged.
   */
  function MergeEntries(target: Value, partial: Value, i: nat): (r: Merged)
    requires partial.Obj? && i <= |partial.props|
    decreases partial, 2, |partial.props| - i
  {
    if i == |partial.props| then Merged(target, Completed)
    else if target.Null? || target.Undefined? then Merged(target, Threw)
    else
      var key := partial.props[i].0;
      var value := partial.props[i].1;
      if value.Undefined? then MergeEntries(target, partial, i + 1)
      else
        var current := Get(target, key);
        var m := MergeValue(current, value);
        var w := if Writes(current, value) then Assign(target, key, m.value) else Merged(target, Completed);
        var outcome := if m.outcome != Completed then m.outcome else w.outcome;
        if outcome != Completed then Merged(w.value, outcome)
        else MergeEntries(w.value, partial, i + 1)
  }

  /**
   * `updateArrayWithPartial(target, partial)` over equal-length arrays from index `i` on:
   * an object element merges into the element, any other element is assigned.
   */
  function MergeItems(target: Value, partial: Value, i: nat): (r: Merged)
    requires target.Arr? && partial.Arr? && |target.items| == |partial.items| && i <= |partial.items|
    decreases partial, 2, |partial.items| - i
  {
    if i == |partial.items| then Merged(target, Completed)
    else
      var value := partial.items[i];
      var current := target.items[i];
      if value.Obj? then
        var m := MergeEntries(current, value, 0);
        var t := if IsReference(current) then Arr(target.items[i := m.value]) else target;
        if m.outcome != Completed then Merged(t, m.outcome)
        else MergeItems(t, partial, i + 1)
      else MergeItems(Arr(target.items[i := value]), partial, i + 1)
  }

  /** `updateObjectWithPartial(settings, partial)`; `Object.entries` throws on `null`/`undefined`. */
  function MergeSettings(settings: Value, partial: Value): (r: Merged)
  {
    match Entries(partial)
    case None => Merged(settings, Threw)
    case Some(entries) => MergeEntries(settings, Obj(entries), 0)
  }

  // ---------------------------------------------------------------------------
  // Properties of the merge

  /** Merging into a primitive reads only `undefined`s and never changes it; it completes only if it writes nothing. */
  lemma {:induction false} MergeIntoPrimitive(target: Value, partial: Value, i: nat)
    requires partial.Obj? && i <= |partial.props|
    requires !IsReference(target) && !target.Null? && !target.Undefined?
    ensures MergeEntries(target, partial, i).value == target
    decreases |partial.props| - i
  {
    if i < |partial.props| && partial.props[i].1.Undefined? {
      MergeIntoPrimitive(target, partial, i + 1);
    } else if i < |partial.props| {
      var key := partial.props[i].0;
      var value := partial.props[i].1;
      var current := Get(target, key);
      var m := MergeValue(current, value);
      if Writes(current, value) {
        assert Assign(target, key, m.value) == Merged(target, Threw);
      } else if m.outcome == Completed {
        MergeIntoPrimitive(target, partial, i + 1);
      }
    }
  }

  /** An object stays an object whatever the merge does to it. */
  lemma {:induction false} MergeKeepsObject(target: Value, partial: Value, i: nat)
    requires partial.Obj? && i <= |partial.props| && target.Obj?
    ensures MergeEntries(target, partial, i).value.Obj?
    decreases |partial.props| - i
  {
    if i < |partial.props| {
      var key := partial.props[i].0;
      var value := partial.props[i].1;
      if value.Undefined? {
        MergeKeepsObject(target, partial, i + 1);
      } else {
        var current := Get(target, key);
        var m := MergeValue(current, value);
        var w := if Writes(current, value) then Assign(target, key, m.value) else Merged(target, Completed);
        assert w.value.Obj?;
        MergeKeepsObject(w.value, partial, i + 1);
      }
    }
  }

  /** The value a completed object merge leaves under `key`. */
  function MergedProperty(props: seq<(string, Value)>, entries: seq<(string, Value)>, key: string): Value
  {
    var value := Lookup(entries, key);
    if value.Undefined? then Lookup(props, key) else MergeValue(Lookup(props, key), value).value
  }

  /**
   * A completed merge of an object partial with distinct keys into an object acts key by
   * key: a key the partial does not mention, or maps to `undefined`, keeps its value; any
   * other key holds the merge of its old value with the partial's.
   */
  lemma {:induction false} MergePointwise(props: seq<(string, Value)>, partial: Value, i: nat, key: string)
    requires partial.Obj? && i <= |partial.props| && UniqueKeys(partial.props[i..])
    requires MergeEntries(Obj(props), partial, i).outcome == Completed
    ensures var r := MergeEntries(Obj(props), partial, i).value;
      r.Obj? && Lookup(r.props, key) == MergedProperty(props, partial.props[i..], key)
      && (HasKey(r.props, key) <==> HasKey(props, key) || !Lookup(partial.props[i..], key).Undefined?)
    decreases |partial.props| - i
  {
    MergeKeepsObject(Obj(props), partial, i);
    var rest := partial.props[i..];
    if i < |partial.props| {
      assert rest[1..] == partial.props[i + 1..];
      var k := partial.props[i].0;
      var value := partial.props[i].1;
      assert rest[0] == (k, value);
      if value.Undefined? {
        MergePointwise(props, partial, i + 1, key);
        if key == k {
          assert !HasKey(partial.props[i + 1..], k);
        }
      } else {
        StepPointwise(props, partial, i, key);
      }
    }
  }

  /** The induction step of MergePointwise for an entry that is not `undefined`. */
  lemma {:induction false} StepPointwise(props: seq<(string, Value)>, partial: Value, i: nat, key: string)
    requires partial.Obj? && i < |partial.props| && UniqueKeys(partial.props[i..])
    requires !partial.props[i].1.Undefined?
    requires MergeEntries(Obj(props), partial, i).outcome == Completed
    ensures var r := MergeEntries(Obj(props), partial, i).value;
      r.Obj? && Lookup(r.props, key) == MergedProperty(props, partial.props[i..], key)
      && (HasKey(r.props, key) <==> HasKey(props, key) || !Lookup(partial.props[i..], key).Undefined?)
    decreases |partial.props| - i, 0
  {
    var rest := partial.props[i..];
    assert rest[1..] == partial.props[i + 1..];
    var k := partial.props[i].0;
    var value := partial.props[i].1;
    assert rest[0] == (k, value);
    var current := Lookup(props, k);
    var m := MergeValue(current, value);
    assert m.outcome == Completed;
    var next: seq<(string, Value)>;
    if Writes(current, value) {
      next := Update(props, k, m.value);
    } else {
      next := props;
      MergeIntoPrimitive(current, value, 0);
      assert m.value == current;
      assert HasKey(props, k);
    }
    assert MergeEntries(Obj(props), partial, i) == MergeEntries(Obj(next), partial, i + 1);
    LookupUpdate(props, k, m.value, key);
    MergePointwise(next, partial, i + 1, key);
    if key == k {
      assert !HasKey(partial.props[i + 1..], k);
    }
  }

  /** Keys a partial does not mention, or maps to `undefined`, keep their values. */
  lemma KeepsUnmentioned(props: seq<(string, Value)>, partial: Value, key: string)
    requires partial.Obj? && UniqueKeys(partial.props)
    requires MergeSettings(Obj(props), partial).outcome == Completed
    requires Lookup(partial.props, key).Undefined?
    ensures var r := MergeSettings(Obj(props), partial).value;
      r.Obj? && Lookup(r.props, key) == Lookup(props, key)
  {
    assert partial.props[0..] == partial.props;
    MergePointwise(props, partial, 0, key);
  }

  /** A primitive or `null` in the partial overwrites the key. */
  lemma OverwritesPrimitive(props: seq<(string, Value)>, partial: Value, key: string)
    requires partial.Obj? && UniqueKeys(partial.props)
    requires MergeSettings(Obj(props), partial).outcome == Completed
    requires var v := Lookup(partial.props, key); !v.Undefined? && !IsReference(v)
    ensures var r := MergeSettings(Obj(props), partial).value;
      r.Obj? && Lookup(r.props, key) == Lookup(partial.props, key) && HasKey(r.props, key)
  {
    assert partial.props[0..] == partial.props;
    MergePointwise(props, partial, 0, key);
  }

  /**
   * An object in the partial is stored as it is when the key holds `undefined` (or is
   * missing) or `null`; otherwise it is merged into the key's value.
   */
  lemma MergesObject(props: seq<(string, Value)>, partial: Value, key: string)
    requires partial.Obj? && UniqueKeys(partial.props)
    requires MergeSettings(Obj(props), partial).outcome == Completed
    requires Lookup(partial.props, key).Obj?
    ensures var r := MergeSettings(Obj(props), partial).value;
      var v := Lookup(partial.props, key);
      var before := Lookup(props, key);
      r.Obj? && Lookup(r.props, key) == (if before.Undefined? || before.Null? then v else MergeEntries(before, v, 0).value)
  {
    assert partial.props[0..] == partial.props;
    MergePointwise(props, partial, 0, key);
  }

  /** An array in the partial merges index-wise into an array of the same length, and replaces anything else. */
  lemma MergesArray(props: seq<(string, Value)>, partial: Value, key: string)
    requires partial.Obj? && UniqueKeys(partial.props)
    requires MergeSettings(Obj(props), partial).outcome == Completed
    requires Lookup(partial.props, key).Arr?
    ensures var r := MergeSettings(Obj(props), partial).value;
      var v := Lookup(partial.props, key);
      var before := Lookup(props, key);
      r.Obj? && Lookup(r.props, key) == (if before.Arr? && |before.items| == |v.items| then MergeItems(before, v, 0).value else v)
  {
    assert partial.props[0..] == partial.props;
    MergePointwise(props, partial, 0, key);
  }

  /** The element-wise result of a completed array merge. */
  function MergedItem(current: Value, value: Value): Value
  {
    if value.Obj? && IsReference(current) then MergeEntries(current, value, 0).value
    else if value.Obj? then current
    else value
  }

  /**
   * A completed array merge keeps the length; an object element merges into the element
   * at its index, anything else (arrays and `null` included) replaces it.
   */
  lemma {:induction false} ItemsPointwise(target: Value, partial: Value, i: nat, j: nat)
    requires target.Arr? && partial.Arr? && |target.items| == |partial.items| && i <= |partial.items|
    requires MergeItems(target, partial, i).outcome == Completed
    requires j < |target.items|
    ensures var r := MergeItems(target, partial, i).value;
      r.Arr? && |r.items| == |target.items|
      && r.items[j] == if j < i then target.items[j] else MergedItem(target.items[j], partial.items[j])
    decreases |partial.items| - i
  {
    if i < |partial.items| {
      var value := partial.items[i];
      var current := target.items[i];
      if value.Obj? {
        var m := MergeEntries(current, value, 0);
        var t := if IsReference(current) then Arr(target.items[i := m.value]) else target;
        if !IsReference(current) && !current.Null? && !current.Undefined? {
          MergeIntoPrimitive(current, value, 0);
        }
        ItemsPointwise(t, partial, i + 1, j);
      } else {
        ItemsPointwise(Arr(target.items[i := value]), partial, i + 1, j);
      }
    }
  }

  // ---------------------------------------------------------------------------
  // Validators

  /** `input.rundown.every(isPartialRundownItem)`. */
  predicate AllRundownItems(items: seq<Value>) {
    items == [] || (IsPartialRundownItem(items[0]) && AllRundownItems(items[1..]))
  }

  predicate IsPartialSettings(input: Value) {
    TypeOf(input) == "object" && !input.Null?
    && HasPropertyWithType(input, "musicChannel", [Number, NullType, Partial])
    && HasPropertyWithType(input, "xairAddress", [String, NullType, Partial])
    && HasPropertyWithType(input, "timerAddress", [String, NullType, Partial])
    && HasPropertyWithType(input, "currentRundownItem", [Number, Partial])
    && (!Has(input, "rundown") || (Get(input, "rundown").Arr? && AllRundownItems(Get(input, "rundown").items)))
    && (!Has(input, "govees") || IsGovees(Get(input, "govees")))
    && (!Has(input, "spotify") || IsPartialSpotify(Get(input, "spotify")))
  }

  predicate IsPartialRundownItem(input: Value) {
    TypeOf(input) == "object" && !input.Null?
    && Has(input, "type") && Has(input, "name")
    && TypeOf(Get(input, "type")) == "string" && TypeOf(Get(input, "name")) == "string"
    && ((Get(input, "type") == Str("preset")
         && HasPropertyWithType(input, "endTime", [Number, Partial]))
        || (Get(input, "type") == Str("comic")
            && HasPropertyWithType(input, "social", [String, NullType, Partial])
            && (!Has(input, "bumper") || IsBumper(Get(input, "bumper")))
            && HasPropertyWithType(input, "bumperId", [String, NullType, Partial])
            && HasPropertyWithType(input, "time", [Number, Partial])))
  }

  predicate IsBumper(input: Value) {
    TypeOf(input) == "object"
    && (input.Null?
        || (HasPropertyWithType(input, "id", [String])
            && HasPropertyWithType(input, "name", [String])
            && HasPropertyWithType(input, "artist", [String])
            && HasPropertyWithType(input, "art", [String])))
  }

  /** `Object.values(input)`: the element list of an array, the property values of an object. */
  function ValuesOf(input: Value): (r: seq<Value>)
    requires IsReference(input)
    ensures input.Arr? ==> r == input.items
    ensures input.Obj? ==> |r| == |input.props| && forall i :: 0 <= i < |r| ==> r[i] == input.props[i].1
  {
    if input.Arr? then input.items else seq(|input.props|, i requires 0 <= i < |input.props| => input.props[i].1)
  }

  predicate AllStrings(values: seq<Value>) {
    values == [] || (TypeOf(values[0]) == "string" && AllStrings(values[1..]))
  }

  predicate IsGovees(input: Value) {
    TypeOf(input) == "object" && !input.Null? && AllStrings(ValuesOf(input))
  }

  predicate IsPartialSpotifyUser(input: Value) {
    TypeOf(input) == "object" && !input.Null?
    && HasPropertyWithType(input, "id", [String, NullType, Partial])
    && HasPropertyWithType(input, "name", [String, NullType, Partial])
  }

  predicate IsPartialSpotify(input: Value) {
    TypeOf(input) == "object" && !input.Null?
    && HasPropertyWithType(input, "clientId", [String, NullType, Partial])
    && HasPropertyWithType(input, "clientSecret", [String, NullType, Partial])
    && HasPropertyWithType(input, "refreshToken", [String, NullType, Partial])
    && HasPropertyWithType(input, "accessToken", [String, NullType, Partial])
    && HasPropertyWithType(input, "tokenExpiration", [Number, NullType, Partial])
    && HasPropertyWithType(input, "redirectUri", [String, Partial])
    && HasPropertyWithType(input, "defaultPlaylist", [String, NullType, Partial])
    && (!Has(input, "user") || IsPartialSpotifyUser(Get(input, "user")))
  }

  /** The property `key` of an object is missing or holds a string. */
  predicate OptString(props: seq<(string, Value)>, key: string) {
    !HasKey(props, key) || Lookup(props, key).Str?
  }

  /** The property `key` of an object is missing, a string or `null`. */
  predicate OptNullableString(props: seq<(string, Value)>, key: string) {
    !HasKey(props, key) || Lookup(props, key).Str? || Lookup(props, key).Null?
  }

  /** The property `key` of an object is missing, a number or `null`. */
  predicate OptNullableNumber(props: seq<(string, Value)>, key: string) {
    !HasKey(props, key) || Lookup(props, key).Num? || Lookup(props, key).Null?
  }

  /** The property `key` of an object is missing or a number. */
  predicate OptNumber(props: seq<(string, Value)>, key: string) {
    !HasKey(props, key) || Lookup(props, key).Num?
  }

  /** A bumper is `null` or an object (not an array) whose four fields are strings. */
  lemma BumperShape(input: Value)
    ensures IsBumper(input) <==>
      input.Null?
      || (input.Obj? && Lookup(input.props, "id").Str? && Lookup(input.props, "name").Str?
          && Lookup(input.props, "artist").Str? && Lookup(input.props, "art").Str?)
  {
    if IsReference(input) {
      StringField(input, "id");
      StringField(input, "name");
      StringField(input, "artist");
      StringField(input, "art");
    }
  }

  /** hasPropertyWithType(input, key, ['string']) for a named (non-index) property. */
  lemma StringField(input: Value, key: string)
    requires IsReference(input) && key != "length" && key != [] && !Js.IsDecimalDigit(key[0])
    ensures HasPropertyWithType(input, key, [String]) <==> input.Obj? && Lookup(input.props, key).Str?
  {
    if input.Arr? {
      NamedKey(key, |input.items|);
    }
    if Has(input, key) {
      PresentProperty(input, key, [String]);
    }
  }

  /** hasPropertyWithType(input, key, ['number', 'null', 'partial']) on an object. */
  lemma NullableNumberField(props: seq<(string, Value)>, key: string)
    ensures HasPropertyWithType(Obj(props), key, [Number, NullType, Partial]) <==> OptNullableNumber(props, key)
  {
    if HasKey(props, key) {
      PresentProperty(Obj(props), key, [Number, NullType, Partial]);
    }
  }

  /** hasPropertyWithType(input, key, ['string', 'null', 'partial']) on an object. */
  lemma NullableStringField(props: seq<(string, Value)>, key: string)
    ensures HasPropertyWithType(Obj(props), key, [String, NullType, Partial]) <==> OptNullableString(props, key)
  {
    if HasKey(props, key) {
      PresentProperty(Obj(props), key, [String, NullType, Partial]);
    }
  }

  /** hasPropertyWithType(input, key, ['number', 'partial']) on an object. */
  lemma NumberField(props: seq<(string, Value)>, key: string)
    ensures HasPropertyWithType(Obj(props), key, [Number, Partial]) <==> OptNumber(props, key)
  {
    if HasKey(props, key) {
      PresentProperty(Obj(props), key, [Number, Partial]);
    }
  }

  /** Every value of a govee map is a string; arrays of strings pass too, since `typeof [] === 'object'`. */
  lemma {:induction false} AllStringsIff(values: seq<Value>)
    ensures AllStrings(values) <==> forall i :: 0 <= i < |values| ==> values[i].Str?
  {
    if values != [] {
      AllStringsIff(values[1..]);
      assert forall i :: 1 <= i < |values| ==> values[i] == values[1..][i - 1];
    }
  }

  lemma GoveesShape(input: Value)
    ensures IsGovees(input) <==>
      (input.Obj? && forall i :: 0 <= i < |input.props| ==> input.props[i].1.Str?)
      || (input.Arr? && forall i :: 0 <= i < |input.items| ==> input.items[i].Str?)
  {
    if IsReference(input) {
      AllStringsIff(ValuesOf(input));
    }
  }

  /**
   * What isPartialSettings demands of an object: each checked key is missing or of an
   * allowed kind, and a rundown present is an array of valid items.
   */
  lemma PartialSettingsShape(props: seq<(string, Value)>)
    ensures IsPartialSettings(Obj(props)) <==>
      OptNullableNumber(props, "musicChannel")
      && OptNullableString(props, "xairAddress")
      && OptNullableString(props, "timerAddress")
      && OptNumber(props, "currentRundownItem")
      && (HasKey(props, "rundown") ==> Lookup(props, "rundown").Arr? && AllRundownItems(Lookup(props, "rundown").items))
      && (HasKey(props, "govees") ==> IsGovees(Lookup(props, "govees")))
      && (HasKey(props, "spotify") ==> IsPartialSpotify(Lookup(props, "spotify")))
  {
    var input := Obj(props);
    assert HasPropertyWithType(input, "musicChannel", [Number, NullType, Partial]) <==> OptNullableNumber(props, "musicChannel") by {
      NullableNumberField(props, "musicChannel");
    }
    assert HasPropertyWithType(input, "xairAddress", [String, NullType, Partial]) <==> OptNullableString(props, "xairAddress") by {
      NullableStringField(props, "xairAddress");
    }
    assert HasPropertyWithType(input, "timerAddress", [String, NullType, Partial]) <==> OptNullableString(props, "timerAddress") by {
      NullableStringField(props, "timerAddress");
    }
    assert HasPropertyWithType(input, "currentRundownItem", [Number, Partial]) <==> OptNumber(props, "currentRundownItem") by {
      NumberField(props, "currentRundownItem");
    }
  }

  /** What isPartialRundownItem demands of an object, by its `type`. */
  lemma RundownItemShape(props: seq<(string, Value)>)
    ensures IsPartialRundownItem(Obj(props)) <==>
      Lookup(props, "type").Str? && Lookup(props, "name").Str?
      && ((Lookup(props, "type") == Str("preset") && OptNumber(props, "endTime"))
          || (Lookup(props, "type") == Str("comic")
              && OptNullableString(props, "social")
              && (HasKey(props, "bumper") ==> IsBumper(Lookup(props, "bumper")))
              && OptNullableString(props, "bumperId")
              && OptNumber(props, "time")))
  {
    var input := Obj(props);
    assert HasPropertyWithType(input, "endTime", [Number, Partial]) <==> OptNumber(props, "endTime") by {
      NumberField(props, "endTime");
    }
    assert HasPropertyWithType(input, "social", [String, NullType, Partial]) <==> OptNullableString(props, "social") by {
      NullableStringField(props, "social");
    }
    assert HasPropertyWithType(input, "bumperId", [String, NullType, Partial]) <==> OptNullableString(props, "bumperId") by {
      NullableStringField(props, "bumperId");
    }
    assert HasPropertyWithType(input, "time", [Number, Partial]) <==> OptNumber(props, "time") by {
      NumberField(props, "time");
    }
  }

  /** Keys isPartialSettings does not check (`qlabAddress`, `pignage`, …) are unconstrained. */
  lemma UncheckedKeysFree(props: seq<(string, Value)>, key: string, v: Value)
    requires key !in {"musicChannel", "xairAddress", "timerAddress", "currentRundownItem", "rundown", "govees", "spotify"}
    ensures IsPartialSettings(Obj(Update(props, key, v))) <==> IsPartialSettings(Obj(props))
  {
    var updated := Update(props, key, v);
    LookupUpdate(props, key, v, "musicChannel");
    LookupUpdate(props, key, v, "xairAddress");
    LookupUpdate(props, key, v, "timerAddress");
    LookupUpdate(props, key, v, "currentRundownItem");
    LookupUpdate(props, key, v, "rundown");
    LookupUpdate(props, key, v, "govees");
    LookupUpdate(props, key, v, "spotify");
    PartialSettingsShape(props);
    PartialSettingsShape(updated);
  }

  /** An array passes isPartialSettings, since none of the checked names is an array property. */
  lemma ArrayIsPartialSettings(items: seq<Value>)
    ensures IsPartialSettings(Arr(items))
  {
    var input := Arr(items);
    var keys := ["musicChannel", "xairAddress", "timerAddress", "currentRundownItem", "rundown", "govees", "spotify"];
    forall k | k in keys ensures !Has(input, k) {
      NamedKey(k, |items|);
    }
  }

  // ---------------------------------------------------------------------------
  // The settings store

  /** The settings the server starts with before the settings file is read. */
  function Defaults(): (r: Value)
  {
    Obj([
      ("musicChannel", Null),
      ("xairAddress", Null),
      ("timerAddress", Null),
      ("rundown", Arr(DefaultRundown())),
      ("currentRundownItem", Num(0)),
      ("govees", Obj([("test", Str("172.19.1.42"))])),
      ("spotify", Obj([
        ("clientId", Null), ("clientSecret", Null), ("refreshToken", Null), ("accessToken", Null),
        ("tokenExpiration", Null), ("redirectUri", Str("")), ("defaultPlaylist", Null),
        ("user", Obj([("id", Null), ("name", Null)]))
      ]))
    ])
  }

  /** The rundown the defaults start with: a pre-show preset, three comics and a post-show preset. */
  function DefaultRundown(): (r: seq<Value>)
  {
    [
      Obj([("type", Str("preset")), ("name", Str("Pre-show"))]),
      Obj([("type", Str("comic")), ("name", Str("Hosty Hosterson")),
           ("social", Str("@hosterson_with_the_mosterson")),
           ("bumper", Obj([("id", Str("spotify_id_buddy_holly")), ("name", Str("Buddy Holly")),
                           ("artist", Str("Weezer")), ("art", Str(""))])),
           ("time", Num(5))]),
      Obj([("type", Str("comic")), ("name", Str("Funny McFunnyFace")),
           ("social", Str("@funny_face")),
           ("bumper", Obj([("id", Str("spotify_id_boo_thang")), ("name", Str("Boo Thang")),
                           ("artist", Str("DJ Khaled")), ("art", Str(""))])),
           ("time", Num(15))]),
      Obj([("type", Str("comic")), ("name", Str("Big Chungus")), ("social", Str("@big_chungus")),
           ("bumper", Null), ("time", Num(45))]),
      Obj([("type", Str("preset")), ("name", Str("Post-show"))])
    ]
  }

  /**
   * Whether merging the partial entry `v` into a slot holding the array or object `current`
   * mutates that object in place rather than storing another value in the slot. An in-place
   * merge keeps an object an object and an array at its length, so a later entry for the same
   * slot is judged against `current` as well.
   */
  predicate MergesInPlace(current: Value, v: Value) {
    v.Obj? || (v.Arr? && current.Arr? && |current.items| == |v.items|)
  }

  /**
   * `oldMixerAddress !== settings.xairAddress` once the merge of `entries` has completed,
   * where `before` and `after` are the address before and after. A primitive compares by
   * value. An array or object is the same reference unless some entry for `xairAddress`
   * stored another value in the slot (a value taken from the partial is never the stored
   * object), however much an in-place merge changed its contents.
   */
  predicate AddressChanged(before: Value, entries: seq<(string, Value)>, after: Value) {
    if IsReference(before) then
      exists i :: 0 <= i < |entries| && entries[i].0 == "xairAddress" && !entries[i].1.Undefined?
        && !MergesInPlace(before, entries[i].1)
    else before != after
  }

  /** An object address merged in place changes its contents but not its reference: no reconnect. */
  lemma InPlaceAddressKeepsReference()
    ensures var before := Obj([("xairAddress", Obj([("a", Num(1))]))]);
      var partial := Obj([("xairAddress", Obj([("a", Num(2))]))]);
      var m := MergeSettings(before, partial);
      m.outcome == Completed && m.value == partial
      && !AddressChanged(Get(before, "xairAddress"), partial.props, Get(m.value, "xairAddress"))
  {
    var inner := Obj([("a", Num(2))]);
    assert MergeEntries(inner, inner, 1) == Merged(inner, Completed);
    assert MergeEntries(Obj([("a", Num(1))]), inner, 0) == Merged(inner, Completed);
    var partial := Obj([("xairAddress", inner)]);
    assert MergeEntries(partial, partial, 1) == Merged(partial, Completed);
  }

  class SettingsStore {
    var settings: Value

    ghost predicate Valid()
      reads this
    {
      settings.Obj?
    }

    constructor ()
      ensures settings == Defaults() && Valid()
    {
      settings := Defaults();
    }

    /** `getSettings()`: a deep copy made by a JSON round trip. */
    method GetSettings() returns (r: Value)
      requires Valid()
      ensures r == JsonCopy(settings)
    {
      r := JsonCopy(settings);
    }

    /**
     * `setSettings(partial)`: merges the partial into the store and reports whether the mixer
     * must reconnect (`oldMixerAddress !== settings.xairAddress`, see `AddressChanged`) and the
     * settings message broadcast to every client. A merge that throws leaves its earlier
     * updates in place and ends the call: no reconnect and no broadcast.
     */
    method SetSettings(partial: Value) returns (reconnect: bool, broadcast: Option<Value>)
      requires Valid()
      modifies this
      ensures var m := MergeSettings(old(settings), partial);
        settings == m.value && Valid()
        && (reconnect <==>
              m.outcome == Completed && AddressChanged(Get(old(settings), "xairAddress"), Entries(partial).value, Get(settings, "xairAddress")))
        && broadcast == (if m.outcome == Completed then Some(JsonCopy(settings)) else None)
    {
      var oldMixerAddress := Get(settings, "xairAddress");
      var m := MergeSettings(settings, partial);
      if Entries(partial).Some? {
        MergeKeepsObject(settings, Obj(Entries(partial).value), 0);
      }
      settings := m.value;
      if m.outcome != Completed {
        reconnect := false;
        broadcast := None;
        return;
      }
      reconnect := AddressChanged(oldMixerAddress, Entries(partial).value, Get(settings, "xairAddress"));
      broadcast := Some(JsonCopy(settings));
    }
  }
}

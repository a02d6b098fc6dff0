/** Converting dynamically typed values to the generic values of a protobuf Struct. */
module StructValues {
  import opened Wrappers

  /** A map key: a plain string, or anything else. */
  datatype Key = Name(s: string) | OtherKey(id: int)

  /** A dynamic value.  `generic` slices are those of the empty interface type, `Object` is a map
      from strings to the empty interface type; every other slice or map type is typed.  `Opaque`
      stands for kinds a Struct cannot hold. */
  datatype Value =
    | Nil
    | Bool(b: bool)
    | Int(n: int)
    | Float(r: real)
    | Str(s: string)
    | Slice(generic: bool, items: seq<Value>)
    | Object(fields: map<string, Value>)
    | TypedMap(entries: map<Key, Value>)
    | Opaque(id: int)

  /** A protobuf value. */
  datatype Proto =
    | NullValue
    | BoolValue(b: bool)
    | NumberValue(r: real)
    | StringValue(s: string)
    | ListValue(values: seq<Proto>)
    | StructValue(fields: map<string, Proto>)

  /** How an integer becomes a floating-point number. */
  type Rounding = int -> real

  // ---------------------------------------------------------------- the library's conversions

  /** Converts a value; typed slices, typed maps and opaque values are errors, also deep inside. */
  function NewValue(f: Rounding, v: Value): Option<Proto> {
    match v
    case Nil => Some(NullValue)
    case Bool(b) => Some(BoolValue(b))
    case Int(n) => Some(NumberValue(f(n)))
    case Float(r) => Some(NumberValue(r))
    case Str(s) => Some(StringValue(s))
    case Slice(generic, items) =>
      if generic && forall i :: 0 <= i < |items| ==> NewValue(f, items[i]).Some?
      then Some(ListValue(seq(|items|, i requires 0 <= i < |items| => NewValue(f, items[i]).value)))
      else None
    case Object(fields) =>
      if forall k :: k in fields ==> NewValue(f, fields[k]).Some?
      then Some(StructValue(map k | k in fields :: NewValue(f, fields[k]).value))
      else None
    case TypedMap(_) => None
    case Opaque(_) => None
  }

  function AsInterface(p: Proto): Value {
    match p
    case NullValue => Nil
    case BoolValue(b) => Bool(b)
    case NumberValue(r) => Float(r)
    case StringValue(s) => Str(s)
    case ListValue(values) => Slice(true, seq(|values|, i requires 0 <= i < |values| => AsInterface(values[i])))
    case StructValue(fields) => Object(map k | k in fields :: AsInterface(fields[k]))
  }

  // ---------------------------------------------------------------- the helpers as functions

  /** The plain string keys of a map. */
  function Names(entries: map<Key, Value>): (names: set<string>)
    ensures forall s :: s in names <==> Name(s) in entries
  {
    set k | k in entries && k.Name? :: k.s
  }

  /** Slices and maps rebuilt as generic ones, recursively. */
  function Prepared(v: Value): Value {
    match v
    case Slice(_, items) => Slice(true, seq(|items|, i requires 0 <= i < |items| => Prepared(items[i])))
    case Object(fields) => Object(map k | k in fields :: Prepared(fields[k]))
    case TypedMap(entries) => Object(map s | s in Names(entries) :: Prepared(entries[Name(s)]))
    case _ => v
  }

  /** No value of a kind a Struct cannot hold, except under keys that preparing leaves out. */
  predicate Holdable(v: Value) {
    match v
    case Slice(_, items) => forall i :: 0 <= i < |items| ==> Holdable(items[i])
    case Object(fields) => forall k :: k in fields ==> Holdable(fields[k])
    case TypedMap(entries) => forall k :: k in entries && k.Name? ==> Holdable(entries[k])
    case Opaque(_) => false
    case _ => true
  }

  /** The value with its integers as floating-point numbers. */
  function Rounded(f: Rounding, v: Value): Value {
    match v
    case Int(n) => Float(f(n))
    case Slice(generic, items) => Slice(generic, seq(|items|, i requires 0 <= i < |items| => Rounded(f, items[i])))
    case Object(fields) => Object(map k | k in fields :: Rounded(f, fields[k]))
    case _ => v
  }

  /** The library takes a prepared value exactly when a Struct can hold what preparing keeps. */
  lemma {:induction false} PreparedConvertsIff(f: Rounding, v: Value)
    ensures NewValue(f, Prepared(v)).Some? <==> Holdable(v)
  {
    match v
    case Slice(_, items) =>
      var p := Prepared(v);
      forall i | 0 <= i < |items|
        ensures NewValue(f, p.items[i]).Some? <==> Holdable(items[i])
      {
        PreparedConvertsIff(f, items[i]);
      }
      assert NewValue(f, p).Some? <==> forall i :: 0 <= i < |items| ==> NewValue(f, p.items[i]).Some?;
    case Object(fields) =>
      var p := Prepared(v);
      forall k | k in fields
        ensures NewValue(f, p.fields[k]).Some? <==> Holdable(fields[k])
      {
        PreparedConvertsIff(f, fields[k]);
      }
    case TypedMap(entries) =>
      var p := Prepared(v);
      forall k | k in entries && k.Name?
        ensures NewValue(f, p.fields[k.s]).Some? <==> Holdable(entries[k])
      {
        PreparedConvertsIff(f, entries[k]);
      }
    case _ =>
  }

  /** A converted value reads back as itself, with its integers rounded. */
  lemma {:induction false} ConvertedReadsBack(f: Rounding, v: Value)
    requires NewValue(f, v).Some?
    ensures AsInterface(NewValue(f, v).value) == Rounded(f, v)
  {
    match v
    case Slice(_, items) => forall i | 0 <= i < |items| { ConvertedReadsBack(f, items[i]); }
    case Object(fields) => forall k | k in fields { ConvertedReadsBack(f, fields[k]); }
    case _ =>
  }

  /** An element of a slice as it is handed to the library: nested slices go through a protobuf
      value and back, everything else is passed as it is. */
  function Element(f: Rounding, v: Value): Value
    decreases v, 2
  {
    if v.Slice? then AsInterface(Converted(f, v)) else v
  }

  function Elements(f: Rounding, v: Value): (es: seq<Value>)
    requires v.Slice?
    ensures |es| == |v.items|
    decreases v, 0
  {
    seq(|v.items|, i requires 0 <= i < |v.items| => Element(f, v.items[i]))
  }

  /** The protobuf value of a dynamic value; null when the library refuses it. */
  function Converted(f: Rounding, v: Value): Proto
    decreases v, 1
  {
    match NewValue(f, if v.Slice? then Slice(true, Elements(f, v)) else v)
    case Some(p) => p
    case None => NullValue
  }

  // ---------------------------------------------------------------- the helpers as the services run them

  /** Rebuilds slices element by element and maps key by key; everything else is kept. */
  method PrepareForStruct(v: Value) returns (r: Value)
    ensures r == Prepared(v)
    decreases v, 1
  {
    match v
    case Slice(_, _) => r := PrepareSlice(v);
    case Object(_) => r := PrepareObject(v);
    case TypedMap(_) => r := PrepareTypedMap(v);
    case _ => r := v;
  }

  method PrepareSlice(v: Value) returns (r: Value)
    requires v.Slice?
    ensures r == Prepared(v)
    decreases v, 0
  {
    var ii: seq<Value> := [];
    for i := 0 to |v.items|
      invariant |ii| == i && forall j :: 0 <= j < i ==> ii[j] == Prepared(v.items[j])
    {
      var item := PrepareForStruct(v.items[i]);
      ii := ii + [item];
    }
    r := Slice(true, ii);
  }

  method PrepareObject(v: Value) returns (r: Value)
    requires v.Object?
    ensures r == Prepared(v)
    decreases v, 0
  {
    var mi: map<string, Value> := map[];
    var rest := v.fields.Keys;
    while rest != {}
      invariant rest <= v.fields.Keys && mi.Keys == v.fields.Keys - rest
      invariant forall k :: k in mi ==> mi[k] == Prepared(v.fields[k])
      decreases |rest|
    {
      var k :| k in rest;
      var field := PrepareForStruct(v.fields[k]);
      mi, rest := mi[k := field], rest - {k};
    }
    r := Object(mi);
  }

  /** Keys that are not plain strings are left out. */
  method PrepareTypedMap(v: Value) returns (r: Value)
    requires v.TypedMap?
    ensures r == Prepared(v)
    decreases v, 0
  {
    var mi: map<string, Value> := map[];
    var rest := v.entries.Keys;
    while rest != {}
      invariant rest <= v.entries.Keys
      invariant forall s :: s in mi <==> s in Names(v.entries) && Name(s) !in rest
      invariant forall s :: s in mi ==> mi[s] == Prepared(v.entries[Name(s)])
      decreases |rest|
    {
      var k :| k in rest;
      if k.Name? {
        var field := PrepareForStruct(v.entries[k]);
        mi := mi[k.s := field];
      }
      rest := rest - {k};
    }
    r := Object(mi);
  }

  method ToValue(f: Rounding, v: Value) returns (p: Proto)
    ensures p == Converted(f, v)
    decreases v
  {
    if v.Nil? {
      return NullValue;
    }
    var passed := v;
    if v.Slice? {
      var ii: seq<Value> := [];
      for i := 0 to |v.items|
        invariant |ii| == i && forall j :: 0 <= j < i ==> ii[j] == Element(f, v.items[j])
      {
        var item := v.items[i];
        if item.Slice? {
          var val := ToValue(f, item);
          ii := ii + [AsInterface(val)];
        } else {
          ii := ii + [item];
        }
      }
      passed := Slice(true, ii);
      assert ii == Elements(f, v);
    }
    var val := NewValue(f, passed);
    p := if val.None? then NullValue else val.value;
  }

  /** Converts a map of fields, each prepared first.  It gives none exactly when the map is absent or
      some field holds what a Struct cannot; else it has the same keys, and each field reads back
      prepared and rounded. */
  method ToStruct(f: Rounding, m: Option<map<string, Value>>) returns (s: Option<map<string, Proto>>)
    ensures s.Some? <==> m.Some? && forall k :: k in m.value ==> Holdable(m.value[k])
    ensures s.Some? ==> s.value.Keys == m.value.Keys
    ensures s.Some? ==> forall k :: k in s.value ==> AsInterface(s.value[k]) == Rounded(f, Prepared(m.value[k]))
  {
    if m.None? {
      return None;
    }
    var clean := PrepareForStruct(Object(m.value));
    var p := NewValue(f, clean);
    s := if p.None? then None else Some(p.value.fields);
    PreparedConvertsIff(f, Object(m.value));
    if s.Some? {
      forall k | k in s.value
        ensures AsInterface(s.value[k]) == Rounded(f, Prepared(m.value[k]))
      {
        ConvertedReadsBack(f, clean.fields[k]);
      }
    }
  }
}

/** When the two helper conversions agree, and what preparing a value guarantees. */
module StructValueProperties {
  import opened Wrappers
  import opened StructValues

  /** Only generic slices and maps, all the way down. */
  predicate Generic(v: Value) {
    match v
    case Slice(generic, items) => generic && forall i :: 0 <= i < |items| ==> Generic(items[i])
    case Object(fields) => forall k :: k in fields ==> Generic(fields[k])
    case TypedMap(_) => false
    case _ => true
  }

  /** Slices may be typed, but the maps among their elements are generic already. */
  predicate MapsAreGeneric(v: Value) {
    match v
    case Slice(_, items) => forall i :: 0 <= i < |items| ==> MapsAreGeneric(items[i])
    case _ => Generic(v)
  }

  // ---------------------------------------------------------------- preparing

  lemma {:induction false} PreparedIsGeneric(v: Value)
    ensures Generic(Prepared(v))
  {
    match v
    case Slice(_, items) => forall i | 0 <= i < |items| { PreparedIsGeneric(items[i]); }
    case Object(fields) => forall k | k in fields { PreparedIsGeneric(fields[k]); }
    case TypedMap(entries) => forall k | k in entries { PreparedIsGeneric(entries[k]); }
    case _ =>
  }

  lemma {:induction false} GenericIsPrepared(v: Value)
    requires Generic(v)
    ensures Prepared(v) == v
  {
    match v
    case Slice(_, items) => forall i | 0 <= i < |items| { GenericIsPrepared(items[i]); }
    case Object(fields) => forall k | k in fields { GenericIsPrepared(fields[k]); }
    case _ =>
  }

  /** Preparing changes a value exactly when it holds a typed slice or map; so preparing twice is
      preparing once. */
  lemma PreparedFixesIff(v: Value)
    ensures Prepared(v) == v <==> Generic(v)
    ensures Prepared(Prepared(v)) == Prepared(v)
  {
    PreparedIsGeneric(v);
    GenericIsPrepared(Prepared(v));
    if Generic(v) {
      GenericIsPrepared(v);
    }
  }

  // ---------------------------------------------------------------- what stays where it is

  /** A step into a value: an index of a slice, or a string key of a map. */
  datatype Selector = At(i: nat) | Named(s: string)

  /** What a path leads to.  The keys of a typed map count when they are plain strings. */
  function Lookup(v: Value, path: seq<Selector>): Option<Value>
    decreases |path|
  {
    if path == [] then Some(v)
    else
      match (v, path[0])
      case (Slice(_, items), At(i)) => if i < |items| then Lookup(items[i], path[1..]) else None
      case (Object(fields), Named(s)) => if s in fields then Lookup(fields[s], path[1..]) else None
      case (TypedMap(entries), Named(s)) => if Name(s) in entries then Lookup(entries[Name(s)], path[1..]) else None
      case _ => None
  }

  predicate Scalar(v: Value) {
    !v.Slice? && !v.Object? && !v.TypedMap?
  }

  /** Preparing keeps every path, and what a path leads to is slice for slice, map for map, and the
      same scalar. */
  lemma {:induction false} PreparedKeepsPaths(v: Value, path: seq<Selector>)
    ensures Lookup(Prepared(v), path).Some? <==> Lookup(v, path).Some?
    ensures Lookup(v, path).Some? ==>
              var x, y := Lookup(v, path).value, Lookup(Prepared(v), path).value;
              && (Scalar(x) ==> y == x)
              && (x.Slice? ==> y.Slice? && |y.items| == |x.items|)
              && (x.Object? || x.TypedMap? ==> y.Object?)
    decreases |path|
  {
    if path != [] {
      match (v, path[0])
      case (Slice(_, items), At(i)) => if i < |items| { PreparedKeepsPaths(items[i], path[1..]); }
      case (Object(fields), Named(s)) => if s in fields { PreparedKeepsPaths(fields[s], path[1..]); }
      case (TypedMap(entries), Named(s)) =>
        if Name(s) in entries { PreparedKeepsPaths(entries[Name(s)], path[1..]); }
      case _ =>
    }
  }

  /** Rounding keeps every path, and what a path leads to is the same but for integers. */
  lemma {:induction false} RoundedKeepsPaths(f: Rounding, v: Value, path: seq<Selector>)
    requires Generic(v)
    ensures Lookup(Rounded(f, v), path).Some? <==> Lookup(v, path).Some?
    ensures Lookup(v, path).Some? ==>
              var x, y := Lookup(v, path).value, Lookup(Rounded(f, v), path).value;
              && (Scalar(x) ==> y == if x.Int? then Float(f(x.n)) else x)
              && (x.Slice? ==> y.Slice? && |y.items| == |x.items|)
              && (x.Object? ==> y.Object?)
    decreases |path|
  {
    if path != [] {
      match (v, path[0])
      case (Slice(_, items), At(i)) => if i < |items| { RoundedKeepsPaths(f, items[i], path[1..]); }
      case (Object(fields), Named(s)) => if s in fields { RoundedKeepsPaths(f, fields[s], path[1..]); }
      case _ =>
    }
  }

  /** A field that went through a Struct has everything the given field had under a string path: the
      same slices, maps and scalars, with integers as numbers. */
  lemma StructKeepsPaths(f: Rounding, v: Value, path: seq<Selector>)
    ensures var back := Rounded(f, Prepared(v));
            && (Lookup(back, path).Some? <==> Lookup(v, path).Some?)
            && (Lookup(v, path).Some? ==>
                  var x, y := Lookup(v, path).value, Lookup(back, path).value;
                  && (Scalar(x) ==> y == if x.Int? then Float(f(x.n)) else x)
                  && (x.Slice? ==> y.Slice? && |y.items| == |x.items|)
                  && (x.Object? || x.TypedMap? ==> y.Object?))
  {
    PreparedIsGeneric(v);
    PreparedKeepsPaths(v, path);
    RoundedKeepsPaths(f, Prepared(v), path);
  }

  // ---------------------------------------------------------------- converting

  /** The library takes a value exactly when it is generic and a Struct can hold it. */
  lemma {:induction false} ConvertsIff(f: Rounding, v: Value)
    ensures NewValue(f, v).Some? <==> Generic(v) && Holdable(v)
  {
    match v
    case Slice(_, items) => forall i | 0 <= i < |items| { ConvertsIff(f, items[i]); }
    case Object(fields) => forall k | k in fields { ConvertsIff(f, fields[k]); }
    case _ =>
  }

  /** A protobuf value survives the trip through a dynamic value. */
  lemma {:induction false} RoundTrip(f: Rounding, p: Proto)
    ensures NewValue(f, AsInterface(p)) == Some(p)
  {
    match p
    case ListValue(values) =>
      var v := AsInterface(p);
      forall i | 0 <= i < |values|
        ensures NewValue(f, v.items[i]) == Some(values[i])
      {
        RoundTrip(f, values[i]);
      }
      assert NewValue(f, v).Some? && NewValue(f, v).value.values == values;
    case StructValue(fields) =>
      var v := AsInterface(p);
      forall k | k in fields
        ensures NewValue(f, v.fields[k]) == Some(fields[k])
      {
        RoundTrip(f, fields[k]);
      }
      assert NewValue(f, v).Some? && NewValue(f, v).value.fields == fields;
    case _ =>
  }

  /** The conversion that prepares the whole value first. */
  function Direct(f: Rounding, v: Value): Proto {
    match NewValue(f, Prepared(v))
    case Some(p) => p
    case None => NullValue
  }

  /** What the library makes of one element that `ToValue` hands over. */
  lemma ElementConverts(f: Rounding, v: Value)
    ensures v.Slice? ==> NewValue(f, Element(f, v)) == Some(Converted(f, v))
    ensures !v.Slice? && Generic(v) && Holdable(v) ==> NewValue(f, Element(f, v)) == Some(Direct(f, v))
    ensures !v.Slice? && !(Generic(v) && Holdable(v)) ==> NewValue(f, Element(f, v)) == None
  {
    if v.Slice? {
      RoundTrip(f, Converted(f, v));
    } else {
      ConvertsIff(f, v);
      if Generic(v) {
        GenericIsPrepared(v);
      }
    }
  }

  lemma DirectOfSlice(f: Rounding, v: Value)
    requires Holdable(v) && v.Slice?
    ensures var d := Direct(f, v);
            && d.ListValue? && |d.values| == |v.items|
            && forall i :: 0 <= i < |v.items| ==> d.values[i] == Direct(f, v.items[i])
  {
    var p := Prepared(v);
    PreparedConvertsIff(f, v);
    forall i | 0 <= i < |v.items|
      ensures NewValue(f, p.items[i]) == Some(Direct(f, v.items[i]))
    {
      PreparedConvertsIff(f, v.items[i]);
    }
  }

  /** A list of elements converts to a given list exactly when each element does. */
  lemma ListOfElements(f: Rounding, v: Value, es: seq<Value>, values: seq<Proto>)
    requires v.Slice? && es == Elements(f, v) && |values| == |es|
    ensures Converted(f, v) == ListValue(values) <==>
            forall i :: 0 <= i < |es| ==> NewValue(f, es[i]) == Some(values[i])
  {
    var whole := NewValue(f, Slice(true, es));
    if whole.Some? {
      assert forall i :: 0 <= i < |es| ==> NewValue(f, es[i]) == Some(whole.value.values[i]);
      if forall i :: 0 <= i < |es| ==> NewValue(f, es[i]) == Some(values[i]) {
        assert whole.value.values == values;
      }
    }
  }

  /** Some element that `ToValue` hands over as it is, is one the library refuses. */
  predicate RefusedAtOnce(v: Value)
    requires v.Slice?
  {
    exists i :: 0 <= i < |v.items| && !v.items[i].Slice? && !(Generic(v.items[i]) && Holdable(v.items[i]))
  }

  /** A list conversion gives null exactly when one of the elements it hands over is refused. */
  lemma NullIff(f: Rounding, v: Value)
    requires v.Slice?
    ensures Converted(f, v) == NullValue <==> RefusedAtOnce(v)
  {
    var es := Elements(f, v);
    forall i | 0 <= i < |es|
      ensures NewValue(f, es[i]).None? <==> !v.items[i].Slice? && !(Generic(v.items[i]) && Holdable(v.items[i]))
    {
      ElementConverts(f, v.items[i]);
    }
    assert NewValue(f, Slice(true, es)).Some? <==> forall i :: 0 <= i < |es| ==> NewValue(f, es[i]).Some?;
  }

  /** A list conversion that is not null converts each nested slice on its own, and hands every other
      element to the library as it is. */
  lemma ConvertedItems(f: Rounding, v: Value)
    requires v.Slice? && Converted(f, v) != NullValue
    ensures var c := Converted(f, v);
            && c.ListValue? && |c.values| == |v.items|
            && forall i :: 0 <= i < |v.items| ==>
                 if v.items[i].Slice? then c.values[i] == Converted(f, v.items[i])
                 else NewValue(f, v.items[i]) == Some(c.values[i])
  {
    var c, es := Converted(f, v), Elements(f, v);
    forall i | 0 <= i < |v.items|
      ensures if v.items[i].Slice? then c.values[i] == Converted(f, v.items[i])
              else NewValue(f, v.items[i]) == Some(c.values[i])
    {
      assert es[i] == Element(f, v.items[i]) && NewValue(f, es[i]) == Some(c.values[i]);
      ElementConverts(f, v.items[i]);
    }
  }

  /** When the two conversions agree: on values a Struct can hold, the maps inside the slices must be
      generic already; on others, where preparing first gives null, `ToValue` must give up as well. */
  predicate Agree(v: Value) {
    if Holdable(v) then MapsAreGeneric(v) else v.Slice? ==> RefusedAtOnce(v)
  }

  /** For every value, converting slice by slice and preparing everything first agree exactly then. */
  lemma {:induction false} ConversionsAgreeIff(f: Rounding, v: Value)
    ensures Converted(f, v) == Direct(f, v) <==> Agree(v)
  {
    PreparedConvertsIff(f, v);
    if !v.Slice? {
      ConvertsIff(f, v);
      if Generic(v) {
        GenericIsPrepared(v);
      }
    } else if !Holdable(v) {
      NullIff(f, v);
    } else {
      DirectOfSlice(f, v);
      var es := Elements(f, v);
      forall i | 0 <= i < |v.items|
        ensures NewValue(f, es[i]) == Some(Direct(f, v.items[i])) <==> MapsAreGeneric(v.items[i])
      {
        ConversionsAgreeIff(f, v.items[i]);
        ElementConverts(f, v.items[i]);
      }
      ListOfElements(f, v, es, Direct(f, v).values);
    }
  }

  /** An element a Struct cannot hold nulls only its own list in one conversion and the whole value in
      the other. */
  lemma UnsupportedElement(f: Rounding)
    ensures var v := Slice(true, [Slice(true, [Opaque(0)])]);
            Converted(f, v) == ListValue([NullValue]) && Direct(f, v) == NullValue
  {
    var inner := Slice(true, [Opaque(0)]);
    var v := Slice(true, [inner]);
    var es := Elements(f, inner);
    assert es[0] == Opaque(0) && NewValue(f, es[0]) == None;
    assert NewValue(f, Slice(true, es)) == None;
    assert Converted(f, inner) == NullValue;
    assert Elements(f, v)[0] == Element(f, inner) == Nil;
    ListOfElements(f, v, Elements(f, v), [NullValue]);
    assert Prepared(inner).items[0] == Opaque(0);
    assert NewValue(f, Prepared(v).items[0]) == None;
  }
}

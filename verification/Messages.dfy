/** How values look as messages: which message carries which value. */
module Messages {
  import opened Types
  import opened StructInfo
  import opened CodecProperties
  import opened SingleWrites

  /** The number that is stored for an integer message is the same, unless there is a range. */
  ghost predicate IntFor(pd: Descriptor, i: int32, x: int32) {
    match pd.constraint
    case Some(IntRange(min, max, step)) => IntRanged(min, max, step, i, x)
    case _ => x == i
  }

  ghost predicate FloatFor(pd: Descriptor, f: real, x: real) {
    match pd.constraint
    case Some(FloatRange(min, max, step)) => FloatRanged(min, max, step, f, x)
    case _ => x == f
  }

  /** The message carries the value: numbers and texts as they are, the fields of a struct by
      their names, a variant with the name of its alternative, elements in their order. A message
      that is `exact` has no other fields, and no list for an empty array of variants. One that is
      not is what the value was stored for: numbers were brought into their range. */
  ghost predicate Carries(w: Wire, v: Value, t: Shape, pd: Descriptor, exact: bool)
    requires HasType(v, t)
    decreases t
  {
    match t
    case TEmpty => exact ==> w.KindNotSet?
    case TInt => w.Int32Wire? && if exact then v.i == w.i else IntFor(pd, w.i, v.i)
    case TFloat => w.Float32Wire? && if exact then v.f == w.f else FloatFor(pd, w.f, v.f)
    case TString => w == StringWire(v.s)
    case TStruct(fields) =>
      w.StructWire? && FieldsCarry(w.fields, v.fields, fields, exact) && (exact ==> w.fields.Keys == Names(fields))
    case TVariant(alternatives) =>
      && w.VariantWire? && w.alternative == alternatives[v.index].name
      && Carries(w.inner, v.held, alternatives[v.index].pd.shape, alternatives[v.index].pd, exact)
    case TArray(TInt) =>
      && w.Int32List? && |w.ints| == |v.items|
      && forall k :: 0 <= k < |v.items| ==> Carries(Int32Wire(w.ints[k]), v.items[k], TInt, pd, exact)
    case TArray(TFloat) =>
      && w.Float32List? && |w.floats| == |v.items|
      && forall k :: 0 <= k < |v.items| ==> Carries(Float32Wire(w.floats[k]), v.items[k], TFloat, pd, exact)
    case TArray(TString) =>
      && w.StringList? && |w.strings| == |v.items|
      && forall k :: 0 <= k < |v.items| ==> Carries(StringWire(w.strings[k]), v.items[k], TString, pd, exact)
    case TArray(TStruct(fields)) =>
      && w.StructList? && |w.structs| == |v.items|
      && forall k :: 0 <= k < |v.items| ==> Carries(StructWire(w.structs[k]), v.items[k], t.element, pd, exact)
    case TArray(TVariant(_)) =>
      if v.items == [] && exact then w.KindNotSet?
      else
        && w.VariantList? && |w.variants| == |v.items|
        && forall k :: 0 <= k < |v.items| ==>
             Carries(VariantWire(w.variants[k].0, w.variants[k].1), v.items[k], t.element, pd, exact)
    case _ => false
  }

  ghost predicate FieldsCarry(m: map<string, Wire>, values: seq<Value>, fields: seq<Field>, exact: bool)
    requires |values| == |fields| && forall k :: 0 <= k < |fields| ==> HasType(values[k], fields[k].pd.shape)
    decreases fields
  {
    forall k :: 0 <= k < |fields| ==>
      && fields[k].name in m
      && Carries(m[fields[k].name], values[k], fields[k].pd.shape, fields[k].pd, exact)
  }

  // ------------------------------------------------------------------- encoding

  /** Exactly one message carries a value exactly: the one it is encoded as. */
  lemma {:induction false} EncodedIff(w: Wire, v: Value, t: Shape, pd: Descriptor)
    requires HasType(v, t) && WellFormed(t)
    ensures Carries(w, v, t, pd, true) <==> w == Encode(v, t)
    decreases t, 0
  {
    match t
    case TStruct(fields) => if w.StructWire? { FieldsEncodedIff(w.fields, v.fields, fields); }
    case TVariant(alternatives) =>
      if w.VariantWire? {
        EncodedIff(w.inner, v.held, alternatives[v.index].pd.shape, alternatives[v.index].pd);
      }
    case TArray(element) => ListEncodedIff(w, v, element, pd);
    case _ =>
  }

  lemma {:induction false} FieldsEncodedIff(m: map<string, Wire>, values: seq<Value>, fields: seq<Field>)
    requires |values| == |fields| && WellFormed(TStruct(fields))
    requires forall k :: 0 <= k < |fields| ==> HasType(values[k], fields[k].pd.shape)
    ensures m.Keys == Names(fields) && FieldsCarry(m, values, fields, true) <==> m == EncodeFields(values, fields)
    decreases fields, 0
  {
    var encoded := EncodeFields(values, fields);
    EncodeFieldsAt(values, fields);
    EncodeFieldsKeys(values, fields);
    SameFields(m, encoded, fields);
    forall k | 0 <= k < |fields| && fields[k].name in m
      ensures Carries(m[fields[k].name], values[k], fields[k].pd.shape, fields[k].pd, true)
              <==> m[fields[k].name] == encoded[fields[k].name]
    {
      hide EncodeFields, HasType, Carries, Encode, Names;
      EncodedIff(m[fields[k].name], values[k], fields[k].pd.shape, fields[k].pd);
    }
    hide EncodeFields, WellFormed, HasType, Carries, Encode, Names;
  }

  lemma SameFields(m: map<string, Wire>, n: map<string, Wire>, fields: seq<Field>)
    requires n.Keys == Names(fields) && forall k :: 0 <= k < |fields| ==> fields[k].name in n
    ensures m == n <==>
              && m.Keys == Names(fields)
              && forall k :: 0 <= k < |fields| ==> fields[k].name in m && m[fields[k].name] == n[fields[k].name]
  {
    if m.Keys == n.Keys && forall k :: 0 <= k < |fields| ==> m[fields[k].name] == n[fields[k].name] {
      forall name | name in m ensures m[name] == n[name] {
        var f :| f in fields && f.name == name;
      }
    }
  }

  lemma {:induction false} ListEncodedIff(w: Wire, v: Value, element: Shape, pd: Descriptor)
    requires HasType(v, TArray(element)) && WellFormed(TArray(element))
    ensures Carries(w, v, TArray(element), pd, true) <==> w == Encode(v, TArray(element))
    decreases element, 1
  {
    forall k, x | 0 <= k < |v.items|
      ensures Carries(x, v.items[k], element, pd, true) <==> x == Encode(v.items[k], element)
    {
      EncodedIff(x, v.items[k], element, pd);
    }
  }

  // ------------------------------------------------------------------- decoding

  /** A message that is valid carries what is stored for it. */
  lemma {:induction false} DecodedCarries(src: Wire, t: Shape, pd: Descriptor, a: Authorizer)
    requires Describes(pd, t) && Valid(src, t, pd, a) == Ok
    ensures HasType(Decode(src, t, pd), t)
    ensures Carries(src, Decode(src, t, pd), t, pd, false)
    decreases t, 0
  {
    DecodeConforms(src, t, pd, a);
    match t
    case TInt => IntDecoded(src, pd);
    case TFloat => FloatDecoded(src, pd);
    case TStruct(fields) => FieldsDecoded(src, fields, pd, a);
    case TVariant(alternatives) =>
      var k := FindIndex(alternatives, src.alternative);
      DecodedCarries(src.inner, alternatives[k].pd.shape, alternatives[k].pd, a);
    case TArray(element) => ListDecoded(src, element, pd, a);
    case _ =>
  }

  lemma IntDecoded(src: Wire, pd: Descriptor)
    requires src.Int32Wire? && WellFormedDescriptor(pd) && pd.shape in {TInt, TArray(TInt)}
    ensures Carries(src, Decode(src, TInt, pd), TInt, pd, false)
  {
    match pd.constraint
    case Some(IntRange(min, max, step)) => IntRangedTo(min, max, step, src.i, pd);
    case _ =>
  }

  lemma FloatDecoded(src: Wire, pd: Descriptor)
    requires src.Float32Wire? && WellFormedDescriptor(pd) && pd.shape in {TFloat, TArray(TFloat)}
    ensures Carries(src, Decode(src, TFloat, pd), TFloat, pd, false)
  {
    match pd.constraint
    case Some(FloatRange(min, max, step)) => FloatRangedTo(min, max, step, src.f, pd);
    case _ =>
  }

  lemma {:induction false} FieldsDecoded(src: Wire, fields: seq<Field>, pd: Descriptor, a: Authorizer)
    requires Describes(pd, TStruct(fields)) && Valid(src, TStruct(fields), pd, a) == Ok
    requires HasType(Decode(src, TStruct(fields), pd), TStruct(fields))
    ensures FieldsCarry(src.fields, Decode(src, TStruct(fields), pd).fields, fields, false)
    decreases fields, 0
  {
    ValidFieldsIff(src.fields, fields, a);
    hide Carries;
    forall k | 0 <= k < |fields|
      ensures && fields[k].name in src.fields
              && Carries(src.fields[fields[k].name], Decode(src, TStruct(fields), pd).fields[k], fields[k].pd.shape,
                         fields[k].pd, false)
    {
      DecodedCarries(src.fields[fields[k].name], fields[k].pd.shape, fields[k].pd, a);
    }
  }

  lemma {:induction false} ItemsDecoded(src: Wire, element: Shape, pd: Descriptor, a: Authorizer)
    requires Describes(pd, TArray(element)) && Valid(src, TArray(element), pd, a) == Ok
    requires HasType(Decode(src, TArray(element), pd), TArray(element))
    ensures var items := Decode(src, TArray(element), pd).items;
            && KindMatches(src, TArray(element)) && |items| == |Items(src)|
            && forall k :: 0 <= k < |items| ==> Carries(Items(src)[k], items[k], element, pd, false)
    decreases element, 1
  {
    ValidElements(src, element, pd, a);
    hide Carries;
    forall k | 0 <= k < |Items(src)|
      ensures Carries(Items(src)[k], Decode(src, TArray(element), pd).items[k], element, pd, false)
    {
      DecodedCarries(Items(src)[k], element, pd, a);
    }
  }

  lemma ListDecoded(src: Wire, element: Shape, pd: Descriptor, a: Authorizer)
    requires Describes(pd, TArray(element)) && Valid(src, TArray(element), pd, a) == Ok
    requires HasType(Decode(src, TArray(element), pd), TArray(element))
    ensures Carries(src, Decode(src, TArray(element), pd), TArray(element), pd, false)
    decreases element, 2
  {
    ItemsDecoded(src, element, pd, a);
    hide Valid, Describes, HasType, Decode, Leaf, IntFor, FloatFor, IntRanged, FloatRanged, FieldsCarry;
  }
}

/** What the codec promises about whole values: what it stores conforms to the
    descriptors, and encoding and decoding undo each other exactly when they do. */
module CodecProperties {
  import opened Types
  import opened Constraints
  import opened StructInfo

  // -------------------------------------------------------------- conformance

  /** The value of a number or string respects its own constraint. Ranges are
      enforced, a step is only aimed at. */
  ghost predicate LeafConforms(v: Value, pd: Descriptor)
  {
    pd.constraint.Some? ==>
      match pd.constraint.value
      case IntRange(min, max, _) => v.Int? ==> min <= v.i <= max
      case FloatRange(min, max, _) => v.Float? ==> min <= v.f <= max
      case IntChoice(choices) => v.Int? ==> v.i in choices
      case StringChoice(strict, choices) => v.Str? && strict ==> v.s in choices
  }

  /** The invariant a device keeps: constraints hold, lengths are within bounds. */
  ghost predicate Conforms(v: Value, t: Shape, pd: Descriptor)
    requires HasType(v, t)
    decreases t
  {
    match t
    case TString => LeafConforms(v, pd) && (pd.shape.TString? ==> |v.s| <= pd.totalLength)
    case TStruct(fields) =>
      forall k :: 0 <= k < |fields| ==> Conforms(v.fields[k], fields[k].pd.shape, fields[k].pd)
    case TVariant(alternatives) =>
      Conforms(v.held, alternatives[v.index].pd.shape, alternatives[v.index].pd)
    case TArray(element) =>
      && |v.items| <= pd.maxLength
      && (element.TString? ==> TotalLength(StringsOf(v.items)) <= pd.totalLength)
      && forall k :: 0 <= k < |v.items| ==> Conforms(v.items[k], element, pd)
    case _ => LeafConforms(v, pd)
  }

  function StringsOf(items: seq<Value>): seq<string> {
    seq(|items|, k requires 0 <= k < |items| => if items[k].Str? then items[k].s else "")
  }

  /** `pd` is the descriptor a value of type `t` is coded with: its own, or that of
      the array it is an element of. */
  ghost predicate Describes(pd: Descriptor, t: Shape)
  {
    WellFormedDescriptor(pd) && WellFormed(t) && (t == pd.shape || pd.shape == TArray(t))
  }

  /** Whatever a valid message decodes to has the right type and conforms. */
  lemma {:induction false} DecodeConforms(src: Wire, t: Shape, pd: Descriptor, a: Authorizer)
    requires Describes(pd, t) && Valid(src, t, pd, a) == Ok
    ensures HasType(Decode(src, t, pd), t)
    ensures Conforms(Decode(src, t, pd), t, pd)
    decreases t
  {
    match t
    case TEmpty =>
    case TInt => RangedLeaf(src, t, pd);
    case TFloat => RangedLeaf(src, t, pd);
    case TString =>
    case TStruct(fields) =>
      ValidFieldsIff(src.fields, fields, a);
      forall k | 0 <= k < |fields|
        ensures HasType(Decode(src, t, pd).fields[k], fields[k].pd.shape)
        ensures Conforms(Decode(src, t, pd).fields[k], fields[k].pd.shape, fields[k].pd)
      {
        DecodeConforms(src.fields[fields[k].name], fields[k].pd.shape, fields[k].pd, a);
      }
    case TVariant(alternatives) =>
      var k := FindIndex(alternatives, src.alternative);
      DecodeConforms(src.inner, alternatives[k].pd.shape, alternatives[k].pd, a);
    case TArray(element) =>
      ValidElements(src, element, pd, a);
      forall k | 0 <= k < |Items(src)|
        ensures HasType(Decode(src, t, pd).items[k], element)
        ensures Conforms(Decode(src, t, pd).items[k], element, pd)
      {
        DecodeConforms(Items(src)[k], element, pd, a);
      }
      if element.TString? {
        assert StringsOf(Decode(src, t, pd).items) == src.strings;
        ValidStringsIff(src.strings, pd, 0);
      }
  }

  lemma RangedLeaf(src: Wire, t: Shape, pd: Descriptor)
    requires t.TInt? || t.TFloat?
    requires KindMatches(src, t) && ConstraintMet(pd, src)
    requires Describes(pd, t)
    ensures LeafConforms(Decode(src, t, pd), pd)
  {
    if pd.constraint.Some? {
      match pd.constraint.value
      case IntRange(min, max, step) => ApplyIntInRange(min, max, step, src.i);
      case FloatRange(min, max, step) => ApplyFloatInRange(min, max, step, src.f);
      case _ =>
    }
  }

  /** The elements of a valid list are valid messages for the element type. */
  lemma ValidElements(src: Wire, element: Shape, pd: Descriptor, a: Authorizer)
    requires Describes(pd, TArray(element)) && Valid(src, TArray(element), pd, a) == Ok
    ensures |Items(src)| <= pd.maxLength
    ensures forall k :: 0 <= k < |Items(src)| ==> Valid(Items(src)[k], element, pd, a) == Ok
  {
    match element
    case TString => ValidStringsIff(src.strings, pd, 0);
    case TStruct(_) | TVariant(_) => ValidItemsIff(Items(src), element, pd, a);
    case _ =>
  }


  // -------------------------------------------------------------- round trips

  /** Write authorisation on every descriptor below `t`. */
  ghost predicate Writable(t: Shape, pd: Descriptor, a: Authorizer)
    decreases t
  {
    a.WriteAuthz(pd) &&
    match t
    case TStruct(fields) =>
      forall k :: 0 <= k < |fields| ==> Writable(fields[k].pd.shape, fields[k].pd, a)
    case TVariant(alternatives) =>
      forall k :: 0 <= k < |alternatives| ==> Writable(alternatives[k].pd.shape, alternatives[k].pd, a)
    case TArray(element) => Writable(element, pd, a)
    case _ => true
  }

  /** What survives a round trip: numbers that their range leaves alone, and no
      empty variant array. */
  ghost predicate Settled(v: Value, t: Shape, pd: Descriptor)
    requires HasType(v, t)
    decreases t
  {
    match t
    case TInt =>
      pd.constraint.Some? && pd.constraint.value.IntRange? ==>
        Satisfied(pd.constraint.value, Int32Wire(v.i))
    case TFloat =>
      pd.constraint.Some? && pd.constraint.value.FloatRange? ==>
        SettledFloat(pd.constraint.value.fmin, pd.constraint.value.fmax, pd.constraint.value.fstep, v.f)
    case TStruct(fields) =>
      forall k :: 0 <= k < |fields| ==> Settled(v.fields[k], fields[k].pd.shape, fields[k].pd)
    case TVariant(alternatives) =>
      Settled(v.held, alternatives[v.index].pd.shape, alternatives[v.index].pd)
    case TArray(element) =>
      && (element.TVariant? ==> v.items != [])
      && forall k :: 0 <= k < |v.items| ==> Settled(v.items[k], element, pd)
    case _ => true
  }

  lemma {:induction false} EncodeFieldsAt(values: seq<Value>, fields: seq<Field>)
    requires |values| == |fields| && DistinctNames(fields)
    requires forall k :: 0 <= k < |fields| ==> HasType(values[k], fields[k].pd.shape)
    ensures forall k :: 0 <= k < |fields| ==>
      && fields[k].name in EncodeFields(values, fields)
      && EncodeFields(values, fields)[fields[k].name] == Encode(values[k], fields[k].pd.shape)
  {
    if fields != [] {
      var n := |fields| - 1;
      EncodeFieldsAt(values[..n], fields[..n]);
      assert forall k :: 0 <= k < n ==> fields[..n][k] == fields[k];
    }
  }

  lemma EncodeKind(v: Value, t: Shape)
    requires HasType(v, t) && WellFormed(t)
    ensures KindMatches(Encode(v, t), t) <==> !(t.TArray? && t.element.TVariant? && v.items == [])
  {
  }

  lemma ItemsOfList(v: Value, element: Shape)
    requires HasType(v, TArray(element)) && WellFormed(TArray(element))
    ensures var items := Items(Encode(v, TArray(element)));
            && |items| == |v.items|
            && forall k :: 0 <= k < |v.items| ==> items[k] == Encode(v.items[k], element)
  {
    forall k | 0 <= k < |v.items|
      ensures KindMatches(Encode(v.items[k], element), element)
    {
      EncodeKind(v.items[k], element);
    }
  }

  /** Writing back what was read restores the value exactly when it is settled.
      In particular a number clamped to an off-grid maximum does not survive, and
      an empty variant array is refused. */
  lemma {:induction false} RoundTripIff(v: Value, t: Shape, pd: Descriptor, a: Authorizer)
    requires Describes(pd, t) && HasType(v, t) && Conforms(v, t, pd) && Writable(t, pd, a)
    ensures (Valid(Encode(v, t), t, pd, a) == Ok && Decode(Encode(v, t), t, pd) == v) <==> Settled(v, t, pd)
    decreases t
  {
    match t
    case TEmpty =>
    case TInt =>
      if pd.constraint.Some? && pd.constraint.value.IntRange? {
        SatisfiedIffFixed(pd.constraint.value.imin, pd.constraint.value.imax, pd.constraint.value.istep, v.i);
      }
    case TFloat =>
      if pd.constraint.Some? && pd.constraint.value.FloatRange? {
        ApplyFloatFixedIff(pd.constraint.value.fmin, pd.constraint.value.fmax, pd.constraint.value.fstep, v.f);
      }
    case TString =>
    case TStruct(fields) => RoundTripStruct(v, fields, pd, a);
    case TVariant(alternatives) =>
      FindIndexOfDistinct(alternatives, v.index);
      RoundTripIff(v.held, alternatives[v.index].pd.shape, alternatives[v.index].pd, a);
    case TArray(element) =>
      if v.items == [] && element.TVariant? {
        EncodeKind(v, t);
      } else {
        forall k | 0 <= k < |v.items| { RoundTripIff(v.items[k], element, pd, a); }
        RoundTripArray(v, element, pd, a);
      }
  }

  lemma {:induction false} RoundTripStruct(v: Value, fields: seq<Field>, pd: Descriptor, a: Authorizer)
    requires var t := TStruct(fields);
      Describes(pd, t) && HasType(v, t) && Conforms(v, t, pd) && Writable(t, pd, a)
    ensures var t := TStruct(fields);
      (Valid(Encode(v, t), t, pd, a) == Ok && Decode(Encode(v, t), t, pd) == v) <==> Settled(v, t, pd)
    decreases fields, 0
  {
    var t := TStruct(fields);
    var w := EncodeFields(v.fields, fields);
    EncodeFieldsAt(v.fields, fields);
    ValidFieldsIff(w, fields, a);
    forall k | 0 <= k < |fields|
      ensures (Valid(w[fields[k].name], fields[k].pd.shape, fields[k].pd, a) == Ok
               && Decode(Encode(v, t), t, pd).fields[k] == v.fields[k])
              <==> Settled(v.fields[k], fields[k].pd.shape, fields[k].pd)
    {
      RoundTripIff(v.fields[k], fields[k].pd.shape, fields[k].pd, a);
    }
    var out := Decode(Encode(v, t), t, pd);
    assert (forall k :: 0 <= k < |fields| ==> out.fields[k] == v.fields[k]) <==> out.fields == v.fields;
  }

  lemma RoundTripArray(v: Value, element: Shape, pd: Descriptor, a: Authorizer)
    requires var t := TArray(element);
      Describes(pd, t) && HasType(v, t) && Conforms(v, t, pd) && Writable(t, pd, a)
    requires element.TVariant? ==> v.items != []
    requires forall k :: 0 <= k < |v.items| ==>
      ((Valid(Encode(v.items[k], element), element, pd, a) == Ok
        && Decode(Encode(v.items[k], element), element, pd) == v.items[k])
       <==> Settled(v.items[k], element, pd))
    ensures var t := TArray(element);
      (Valid(Encode(v, t), t, pd, a) == Ok && Decode(Encode(v, t), t, pd) == v) <==> Settled(v, t, pd)
  {
    var t := TArray(element);
    var w := Encode(v, t);
    EncodeKind(v, t);
    ItemsOfList(v, element);
    var out := Decode(w, t, pd);
    assert (forall k :: 0 <= k < |v.items| ==> out.items[k] == v.items[k]) <==> out.items == v.items;
    ValidListIff(v, element, pd, a);
  }

  /** The list message of a conforming array is valid when its elements' are. */
  lemma ValidListIff(v: Value, element: Shape, pd: Descriptor, a: Authorizer)
    requires var t := TArray(element);
      Describes(pd, t) && HasType(v, t) && Conforms(v, t, pd) && Writable(t, pd, a)
    requires element.TVariant? ==> v.items != []
    ensures Valid(Encode(v, TArray(element)), TArray(element), pd, a) == Ok <==>
            forall k :: 0 <= k < |v.items| ==> Valid(Encode(v.items[k], element), element, pd, a) == Ok
  {
    var w := Encode(v, TArray(element));
    EncodeKind(v, TArray(element));
    ItemsOfList(v, element);
    if element.TString? {
      assert w.strings == StringsOf(v.items);
      ValidStringsIff(w.strings, pd, 0);
    } else if element.TStruct? || element.TVariant? {
      ValidItemsIff(Items(w), element, pd, a);
    } else {
      assert forall k :: 0 <= k < |v.items| ==> Items(w)[k] in Items(w);
    }
  }

  /** `dst` is `src` with the fields the type does not know dropped and the ranges
      applied; an empty variant array loses its kind. */
  ghost predicate Trimmed(src: Wire, dst: Wire, t: Shape, pd: Descriptor)
    decreases t
  {
    match t
    case TEmpty => dst == KindNotSet
    case TString => dst == src
    case TStruct(fields) =>
      && src.StructWire? && dst.StructWire?
      && dst.fields.Keys == Names(fields)
      && forall k :: 0 <= k < |fields| ==>
           && fields[k].name in src.fields
           && Trimmed(src.fields[fields[k].name], dst.fields[fields[k].name], fields[k].pd.shape, fields[k].pd)
    case TVariant(alternatives) =>
      && src.VariantWire? && dst.VariantWire? && dst.alternative == src.alternative
      && var k := FindIndex(alternatives, src.alternative);
         k < |alternatives| && Trimmed(src.inner, dst.inner, alternatives[k].pd.shape, alternatives[k].pd)
    case TArray(element) =>
      && (if element.TVariant? && Items(src) == [] then dst == KindNotSet else KindMatches(dst, t))
      && |Items(dst)| == |Items(src)|
      && forall k :: 0 <= k < |Items(src)| ==> Trimmed(Items(src)[k], Items(dst)[k], element, pd)
    case _ => dst == Ranged(pd, src)
  }

  function Names(fields: seq<Field>): set<string> { set f | f in fields :: f.name }

  lemma {:induction false} EncodeFieldsKeys(values: seq<Value>, fields: seq<Field>)
    requires |values| == |fields|
    requires forall k :: 0 <= k < |fields| ==> HasType(values[k], fields[k].pd.shape)
    ensures EncodeFields(values, fields).Keys == Names(fields)
  {
    if fields != [] {
      var n := |fields| - 1;
      EncodeFieldsKeys(values[..n], fields[..n]);
      assert fields == fields[..n] + [fields[n]];
    }
  }

  /** Reading back what a successful write stored. */
  lemma {:induction false} EncodeAfterDecode(src: Wire, t: Shape, pd: Descriptor, a: Authorizer)
    requires Describes(pd, t) && Valid(src, t, pd, a) == Ok
    ensures HasType(Decode(src, t, pd), t)
    ensures Trimmed(src, Encode(Decode(src, t, pd), t), t, pd)
    decreases t, 1
  {
    DecodeConforms(src, t, pd, a);
    var v := Decode(src, t, pd);
    match t
    case TInt => RangedKind(src, t, pd);
    case TFloat => RangedKind(src, t, pd);
    case TStruct(fields) =>
      ValidFieldsIff(src.fields, fields, a);
      EncodeFieldsAt(v.fields, fields);
      EncodeFieldsKeys(v.fields, fields);
      forall k | 0 <= k < |fields|
        ensures Trimmed(src.fields[fields[k].name], Encode(v.fields[k], fields[k].pd.shape), fields[k].pd.shape,
                        fields[k].pd)
      {
        EncodeAfterDecode(src.fields[fields[k].name], fields[k].pd.shape, fields[k].pd, a);
      }
    case TVariant(alternatives) =>
      var k := FindIndex(alternatives, src.alternative);
      EncodeAfterDecode(src.inner, alternatives[k].pd.shape, alternatives[k].pd, a);
    case TArray(_) => EncodeListAfterDecode(src, t, pd, a);
    case _ =>
  }

  lemma EncodeListAfterDecode(src: Wire, t: Shape, pd: Descriptor, a: Authorizer)
    requires t.TArray? && Describes(pd, t) && Valid(src, t, pd, a) == Ok && HasType(Decode(src, t, pd), t)
    ensures Trimmed(src, Encode(Decode(src, t, pd), t), t, pd)
    decreases t, 0
  {
    var v := Decode(src, t, pd);
    ValidElements(src, t.element, pd, a);
    ItemsOfList(v, t.element);
    EncodeKind(v, t);
    forall k | 0 <= k < |Items(src)|
      ensures Trimmed(Items(src)[k], Encode(v.items[k], t.element), t.element, pd)
    {
      EncodeAfterDecode(Items(src)[k], t.element, pd, a);
    }
  }

  lemma RangedKind(src: Wire, t: Shape, pd: Descriptor)
    requires (t.TInt? || t.TFloat?) && Describes(pd, t) && KindMatches(src, t)
    ensures KindMatches(Ranged(pd, src), t)
  {
  }
}

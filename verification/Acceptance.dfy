/** Which messages a param takes, said without the validation: authorisation, kind, fields,
    lengths and choices, and nothing of what a range asks. */
module Acceptance {
  import opened Types
  import opened StructInfo
  import opened CodecProperties

  ghost predicate MayWrite(pd: Descriptor, a: Authorizer) {
    !pd.readOnly && (a.disabled || pd.scope + ":w" in a.scopes)
  }

  /** Of an integer only a choice is asked: a range is applied to it, not checked. */
  ghost predicate IntTaken(i: int32, pd: Descriptor) {
    pd.constraint.Some? && pd.constraint.value.IntChoice? ==> i in pd.constraint.value.ints
  }

  ghost predicate TextTaken(s: string, pd: Descriptor) {
    pd.constraint.Some? && pd.constraint.value.StringChoice? && pd.constraint.value.strict ==>
      s in pd.constraint.value.strings
  }

  /** What `validFromProto` lets through: a message for a value of type `t` under `pd`. */
  ghost predicate Taken(src: Wire, t: Shape, pd: Descriptor, a: Authorizer)
    decreases t, 0
  {
    t.TEmpty? ||
    (MayWrite(pd, a) &&
     match t
     case TInt => src.Int32Wire? && IntTaken(src.i, pd)
     case TFloat => src.Float32Wire?
     case TString => src.StringWire? && TextTaken(src.s, pd) && (pd.shape.TString? ==> |src.s| <= pd.totalLength)
     case TStruct(fields) =>
       && src.StructWire?
       && forall k :: 0 <= k < |fields| ==>
            && fields[k].name in src.fields
            && Taken(src.fields[fields[k].name], fields[k].pd.shape, fields[k].pd, a)
     case TVariant(alternatives) =>
       && src.VariantWire?
       && exists k :: 0 <= k < |alternatives| && alternatives[k].name == src.alternative
                      && Taken(src.inner, alternatives[k].pd.shape, alternatives[k].pd, a)
     case TArray(element) => ListTaken(src, element, pd, a))
  }

  /** Lists go by the elements, which share the descriptor of the array. */
  ghost predicate ListTaken(src: Wire, element: Shape, pd: Descriptor, a: Authorizer)
    decreases element, 1
  {
    match element
    case TInt => src.Int32List? && |src.ints| <= pd.maxLength && forall i <- src.ints :: IntTaken(i, pd)
    case TFloat => src.Float32List? && |src.floats| <= pd.maxLength
    case TString =>
      && src.StringList? && |src.strings| <= pd.maxLength && TotalLength(src.strings) <= pd.totalLength
      && forall s <- src.strings :: TextTaken(s, pd)
    case TStruct(_) =>
      && src.StructList? && |src.structs| <= pd.maxLength
      && forall k :: 0 <= k < |src.structs| ==> Taken(StructWire(src.structs[k]), element, pd, a)
    case TVariant(_) =>
      && src.VariantList? && |src.variants| <= pd.maxLength
      && forall k :: 0 <= k < |src.variants| ==>
           Taken(VariantWire(src.variants[k].0, src.variants[k].1), element, pd, a)
    case _ => false
  }

  /** A message is valid exactly if the param takes it. */
  lemma {:induction false} ValidIff(src: Wire, t: Shape, pd: Descriptor, a: Authorizer)
    requires Describes(pd, t)
    ensures Valid(src, t, pd, a) == Ok <==> Taken(src, t, pd, a)
    decreases t, 0
  {
    match t
    case TStruct(fields) => if src.StructWire? { ValidStructIff(src, fields, a); }
    case TVariant(alternatives) => if src.VariantWire? { ValidVariantIff(src, alternatives, a); }
    case TArray(element) =>
      ValidListIff(src, element, pd, a);
      hide Valid, ListTaken;
    case _ =>
  }

  lemma ValidStructIff(src: Wire, fields: seq<Field>, a: Authorizer)
    requires src.StructWire? && WellFormed(TStruct(fields))
    ensures ValidFields(src.fields, fields, a) == Ok <==>
              forall k :: 0 <= k < |fields| ==>
                && fields[k].name in src.fields
                && Taken(src.fields[fields[k].name], fields[k].pd.shape, fields[k].pd, a)
    decreases fields, 0
  {
    ValidFieldsIff(src.fields, fields, a);
    forall k | 0 <= k < |fields| && fields[k].name in src.fields
      ensures Valid(src.fields[fields[k].name], fields[k].pd.shape, fields[k].pd, a) == Ok
         <==> Taken(src.fields[fields[k].name], fields[k].pd.shape, fields[k].pd, a)
    {
      ValidIff(src.fields[fields[k].name], fields[k].pd.shape, fields[k].pd, a);
    }
  }

  lemma ValidVariantIff(src: Wire, alternatives: seq<Field>, a: Authorizer)
    requires src.VariantWire? && WellFormed(TVariant(alternatives))
    ensures var k := FindIndex(alternatives, src.alternative);
            (k < |alternatives| && Valid(src.inner, alternatives[k].pd.shape, alternatives[k].pd, a) == Ok)
            <==> exists k :: && 0 <= k < |alternatives| && alternatives[k].name == src.alternative
                             && Taken(src.inner, alternatives[k].pd.shape, alternatives[k].pd, a)
    decreases alternatives, 0
  {
    var k := FindIndex(alternatives, src.alternative);
    if k < |alternatives| { ValidIff(src.inner, alternatives[k].pd.shape, alternatives[k].pd, a); }
    assert forall j :: 0 <= j < |alternatives| && alternatives[j].name == src.alternative ==> j == k;
  }

  lemma ValidListIff(src: Wire, element: Shape, pd: Descriptor, a: Authorizer)
    requires Describes(pd, TArray(element))
    ensures Valid(src, TArray(element), pd, a) == Ok <==> MayWrite(pd, a) && ListTaken(src, element, pd, a)
    decreases element, 2
  {
    ValidArray(src, element, pd, a);
    hide Valid;
    match element
    case TInt => if src.Int32List? { IntsTaken(src.ints, pd); }
    case TFloat => if src.Float32List? { FloatsTaken(src.floats, pd); }
    case TString =>
      if src.StringList? {
        ValidStringsIff(src.strings, pd, 0);
        TextsTaken(src.strings, pd);
      }
    case TStruct(_) => if src.StructList? { ValidItemsTaken(src, element, pd, a); }
    case TVariant(_) => if src.VariantList? { ValidItemsTaken(src, element, pd, a); }
    case _ =>
  }

  lemma ValidArray(src: Wire, element: Shape, pd: Descriptor, a: Authorizer)
    requires Describes(pd, TArray(element))
    ensures Valid(src, TArray(element), pd, a) == Ok <==>
              && MayWrite(pd, a) && KindMatches(src, TArray(element)) && |Items(src)| <= pd.maxLength
              && if element.TString? then ValidStrings(src.strings, pd, 0) == Ok
                 else if element.TStruct? || element.TVariant? then ValidItems(Items(src), element, pd, a) == Ok
                 else forall item | item in Items(src) :: ConstraintMet(pd, item)
  {
  }

  lemma IntsTaken(ints: seq<int32>, pd: Descriptor)
    requires Describes(pd, TArray(TInt))
    ensures (forall item | item in Items(Int32List(ints)) :: ConstraintMet(pd, item))
       <==> forall i <- ints :: IntTaken(i, pd)
  {
    forall k | 0 <= k < |ints| ensures ConstraintMet(pd, Items(Int32List(ints))[k]) <==> IntTaken(ints[k], pd) {}
    assert forall k :: 0 <= k < |ints| ==> ints[k] in ints && Items(Int32List(ints))[k] in Items(Int32List(ints));
  }

  lemma FloatsTaken(floats: seq<real>, pd: Descriptor)
    requires Describes(pd, TArray(TFloat))
    ensures forall item | item in Items(Float32List(floats)) :: ConstraintMet(pd, item)
  {
  }

  lemma TextsTaken(strings: seq<string>, pd: Descriptor)
    requires Describes(pd, TArray(TString))
    ensures (forall k :: 0 <= k < |strings| ==> StringConstraintMet(pd, StringWire(strings[k])))
       <==> forall s <- strings :: TextTaken(s, pd)
  {
    forall s: string ensures StringConstraintMet(pd, StringWire(s)) <==> TextTaken(s, pd) {}
    assert forall k :: 0 <= k < |strings| ==> strings[k] in strings;
  }

  lemma ValidItemsTaken(src: Wire, element: Shape, pd: Descriptor, a: Authorizer)
    requires Describes(pd, TArray(element)) && KindMatches(src, TArray(element))
    requires element.TStruct? || element.TVariant?
    ensures |Items(src)| <= pd.maxLength && ValidItems(Items(src), element, pd, a) == Ok <==>
              ListTaken(src, element, pd, a)
    decreases element, 1
  {
    ValidItemsIff(Items(src), element, pd, a);
    forall k | 0 <= k < |Items(src)|
      ensures Valid(Items(src)[k], element, pd, a) == Ok <==> Taken(Items(src)[k], element, pd, a)
    {
      ValidIff(Items(src)[k], element, pd, a);
    }
    hide Valid, Taken;
    if element.TStruct? {
      assert forall k :: 0 <= k < |src.structs| ==> Items(src)[k] == StructWire(src.structs[k]);
    } else {
      assert forall k :: 0 <= k < |src.variants| ==>
        Items(src)[k] == VariantWire(src.variants[k].0, src.variants[k].1);
    }
  }

  // -------------------------------------------------------------- why it is refused

  /** What a param itself refuses, leaving aside what is inside it. */
  datatype Fault = Unwritable | Malformed | TooLong

  ghost predicate Has(fault: Fault, src: Wire, t: Shape, pd: Descriptor, a: Authorizer) {
    if fault.Unwritable? then !t.TEmpty? && !MayWrite(pd, a)
    else if fault.TooLong? then IsTooLong(src, t, pd)
    else IsMalformed(src, t, pd)
  }

  ghost predicate IsTooLong(src: Wire, t: Shape, pd: Descriptor) {
    match t
    case TString => src.StringWire? && |src.s| > pd.totalLength
    case TArray(_) => |Items(src)| > pd.maxLength || (src.StringList? && TotalLength(src.strings) > pd.totalLength)
    case _ => false
  }

  ghost predicate IsMalformed(src: Wire, t: Shape, pd: Descriptor) {
    match t
    case TEmpty => false
    case TInt => src.Int32Wire? ==> !IntTaken(src.i, pd)
    case TFloat => !src.Float32Wire?
    case TString => src.StringWire? ==> !TextTaken(src.s, pd)
    case TStruct(fields) => src.StructWire? ==> exists f <- fields :: f.name !in src.fields
    case TVariant(alternatives) => src.VariantWire? ==> forall f <- alternatives :: f.name != src.alternative
    case TArray(TInt) => src.Int32List? ==> exists i <- src.ints :: !IntTaken(i, pd)
    case TArray(TFloat) => !src.Float32List?
    case TArray(TString) => src.StringList? ==> exists s <- src.strings :: !TextTaken(s, pd)
    case TArray(TStruct(_)) => !src.StructList?
    case TArray(TVariant(_)) => !src.VariantList?
    case TArray(_) => true
  }

  /** The param, or one inside it, refuses its part of the message for this reason. */
  ghost predicate Somewhere(fault: Fault, src: Wire, t: Shape, pd: Descriptor, a: Authorizer)
    decreases t
  {
    || Has(fault, src, t, pd, a)
    || match t
       case TStruct(fields) =>
         src.StructWire? && exists k ::
           && 0 <= k < |fields| && fields[k].name in src.fields
           && Somewhere(fault, src.fields[fields[k].name], fields[k].pd.shape, fields[k].pd, a)
       case TVariant(alternatives) =>
         src.VariantWire? && exists k ::
           && 0 <= k < |alternatives| && alternatives[k].name == src.alternative
           && Somewhere(fault, src.inner, alternatives[k].pd.shape, alternatives[k].pd, a)
       case TArray(element) => exists k :: 0 <= k < |Items(src)| && Somewhere(fault, Items(src)[k], element, pd, a)
       case _ => false
  }

  function FaultOf(status: Status): Option<Fault> {
    match status
    case PermissionDenied => Some(Unwritable)
    case InvalidArgument => Some(Malformed)
    case OutOfRange => Some(TooLong)
    case _ => None
  }

  /** A message that is not taken is refused for a reason that holds of some part of it, and
      whoever may not write the param itself is told so first. */
  lemma {:induction false} RefusedFor(src: Wire, t: Shape, pd: Descriptor, a: Authorizer)
    requires Describes(pd, t) && Valid(src, t, pd, a) != Ok
    ensures var fault := FaultOf(Valid(src, t, pd, a)); fault.Some? && Somewhere(fault.value, src, t, pd, a)
    ensures !MayWrite(pd, a) ==> Valid(src, t, pd, a) == PermissionDenied
    decreases t, 0
  {
    if MayWrite(pd, a) && KindMatches(src, t) {
      match t
      case TStruct(fields) =>
        var k := FirstField(src.fields, fields, a);
        if fields[k].name in src.fields {
          RefusedFor(src.fields[fields[k].name], fields[k].pd.shape, fields[k].pd, a);
        } else {
          assert fields[k] in fields;
        }
      case TVariant(alternatives) =>
        var k := FindIndex(alternatives, src.alternative);
        if k < |alternatives| { RefusedFor(src.inner, alternatives[k].pd.shape, alternatives[k].pd, a); }
      case TArray(element) => ListRefused(src, element, pd, a);
      case _ =>
    }
  }

  /** The field at which a struct is refused. */
  lemma {:induction false} FirstField(src: map<string, Wire>, fields: seq<Field>, a: Authorizer) returns (k: nat)
    requires ValidFields(src, fields, a) != Ok
    ensures k < |fields|
    ensures if fields[k].name !in src then ValidFields(src, fields, a) == InvalidArgument
            else
              var rc := Valid(src[fields[k].name], fields[k].pd.shape, fields[k].pd, a);
              rc != Ok && ValidFields(src, fields, a) == rc
  {
    k := 0;
    if fields[0].name in src && Valid(src[fields[0].name], fields[0].pd.shape, fields[0].pd, a) == Ok {
      k := FirstField(src, fields[1..], a);
      k := k + 1;
    }
  }

  lemma {:induction false} FirstItem(items: seq<Wire>, element: Shape, pd: Descriptor, a: Authorizer) returns (k: nat)
    requires ValidItems(items, element, pd, a) != Ok
    ensures k < |items| && ValidItems(items, element, pd, a) == Valid(items[k], element, pd, a) != Ok
  {
    k := 0;
    if Valid(items[0], element, pd, a) == Ok {
      k := FirstItem(items[1..], element, pd, a);
      k := k + 1;
    }
  }

  lemma ListRefused(src: Wire, element: Shape, pd: Descriptor, a: Authorizer)
    requires Describes(pd, TArray(element)) && Valid(src, TArray(element), pd, a) != Ok
    requires MayWrite(pd, a) && KindMatches(src, TArray(element))
    ensures var fault := FaultOf(Valid(src, TArray(element), pd, a));
            fault.Some? && Somewhere(fault.value, src, TArray(element), pd, a)
    decreases element, 2
  {
    if |Items(src)| > pd.maxLength {
    } else if element.TString? {
      TextsRefused(src.strings, pd, 0);
    } else if element.TInt? {
      IntsTaken(src.ints, pd);
    } else if element.TFloat? {
      FloatsTaken(src.floats, pd);
    } else if element.TStruct? || element.TVariant? {
      var k := FirstItem(Items(src), element, pd, a);
      RefusedFor(Items(src)[k], element, pd, a);
    }
  }

  lemma {:induction false} TextsRefused(strings: seq<string>, pd: Descriptor, total: nat)
    requires Describes(pd, TArray(TString)) && ValidStrings(strings, pd, total) != Ok
    ensures ValidStrings(strings, pd, total) == OutOfRange ==> total + TotalLength(strings) > pd.totalLength
    ensures ValidStrings(strings, pd, total) != OutOfRange ==>
              ValidStrings(strings, pd, total) == InvalidArgument && exists s <- strings :: !TextTaken(s, pd)
  {
    if strings != [] {
      assert strings[0] in strings && forall s <- strings[1..] :: s in strings;
      if StringConstraintMet(pd, StringWire(strings[0])) { TextsRefused(strings[1..], pd, total + |strings[0]|); }
    }
  }

  /** Which reason comes first where there are several: a list with too many elements and a text
      that is too long are told so whatever else is wrong with them. */
  lemma LengthFirst(src: Wire, t: Shape, pd: Descriptor, a: Authorizer)
    requires Describes(pd, t) && MayWrite(pd, a) && KindMatches(src, t)
    ensures t.TString? && t == pd.shape && |src.s| > pd.totalLength ==> Valid(src, t, pd, a) == OutOfRange
    ensures t.TArray? && |Items(src)| > pd.maxLength ==> Valid(src, t, pd, a) == OutOfRange
  {
  }

  /** In a list of texts the first one that is no choice is, unless the texts up to it are too
      long together; if all are choices the length of all of them decides. */
  lemma {:induction false} TextsStatus(strings: seq<string>, pd: Descriptor, total: nat, k: nat)
    requires Describes(pd, TArray(TString)) && k <= |strings| && (k < |strings| ==> !TextTaken(strings[k], pd))
    requires forall j :: 0 <= j < k ==> TextTaken(strings[j], pd)
    ensures var upTo := if k < |strings| then strings[..k + 1] else strings;
            ValidStrings(strings, pd, total)
            == if total + TotalLength(upTo) > pd.totalLength then OutOfRange
               else if k < |strings| then InvalidArgument else Ok
  {
    if k > 0 {
      assert forall j :: 0 <= j < k - 1 ==> strings[1..][j] == strings[j + 1];
      TextsStatus(strings[1..], pd, total + |strings[0]|, k - 1);
      var upTo := if k < |strings| then strings[..k + 1] else strings;
      assert upTo[1..] == if k < |strings| then strings[1..][..k] else strings[1..];
    } else if strings != [] {
      assert strings[..1][1..] == [];
    }
  }
}

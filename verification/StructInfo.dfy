/** The recursive value codec: `toProto`, `validFromProto` and `fromProto` for
    every type the code generator emits. The functions say what the codec means;
    the methods are the codec, and fill their destination step by step. */
module StructInfo {
  import opened Types
  import opened Constraints

  // ------------------------------------------------------------ wire messages

  /** The messages the codec builds to visit the elements of a list one by one. */
  function Items(src: Wire): seq<Wire> {
    match src
    case Int32List(ints) => seq(|ints|, k requires 0 <= k < |ints| => Int32Wire(ints[k]))
    case Float32List(floats) => seq(|floats|, k requires 0 <= k < |floats| => Float32Wire(floats[k]))
    case StringList(strings) => seq(|strings|, k requires 0 <= k < |strings| => StringWire(strings[k]))
    case StructList(structs) => seq(|structs|, k requires 0 <= k < |structs| => StructWire(structs[k]))
    case VariantList(variants) =>
      seq(|variants|, k requires 0 <= k < |variants| => VariantWire(variants[k].0, variants[k].1))
    case _ => []
  }

  /** `has_..._value()` for the kind that a type is carried in. */
  predicate KindMatches(src: Wire, t: Shape) {
    match t
    case TEmpty => true
    case TInt => src.Int32Wire?
    case TFloat => src.Float32Wire?
    case TString => src.StringWire?
    case TStruct(_) => src.StructWire?
    case TVariant(_) => src.VariantWire?
    case TArray(TInt) => src.Int32List?
    case TArray(TFloat) => src.Float32List?
    case TArray(TString) => src.StringList?
    case TArray(TStruct(_)) => src.StructList?
    case TArray(TVariant(_)) => src.VariantList?
    case TArray(_) => false
  }

  // --------------------------------------------------------------- validation

  /** Ranges are not checked on the way in: `fromProto` rounds instead. */
  predicate ConstraintMet(pd: Descriptor, item: Wire) {
    pd.constraint.None? || pd.constraint.value.IsRange() || Satisfied(pd.constraint.value, item)
  }

  predicate StringConstraintMet(pd: Descriptor, item: Wire) {
    pd.constraint.None? || Satisfied(pd.constraint.value, item)
  }

  /** The status `validFromProto` ends with when it starts from OK. */
  function Valid(src: Wire, t: Shape, pd: Descriptor, a: Authorizer): Status
    decreases t, 0
  {
    if t.TEmpty? then Ok
    else if !a.WriteAuthz(pd) then PermissionDenied
    else if !KindMatches(src, t) then InvalidArgument
    else
      match t
      case TString =>
        if pd.shape.TString? && |src.s| > pd.totalLength then OutOfRange
        else if !StringConstraintMet(pd, src) then InvalidArgument
        else Ok
      case TStruct(fields) => ValidFields(src.fields, fields, a)
      case TVariant(alternatives) =>
        var k := FindIndex(alternatives, src.alternative);
        if k >= |alternatives| then InvalidArgument
        else Valid(src.inner, alternatives[k].pd.shape, alternatives[k].pd, a)
      case TArray(element) =>
        if |Items(src)| > pd.maxLength then OutOfRange
        else if element.TString? then ValidStrings(src.strings, pd, 0)
        else if element.TStruct? || element.TVariant? then ValidItems(Items(src), element, pd, a)
        else if forall item | item in Items(src) :: ConstraintMet(pd, item) then Ok
        else InvalidArgument
      case _ => if ConstraintMet(pd, src) then Ok else InvalidArgument
  }

  /** The first error among the fields of a struct. */
  function ValidFields(src: map<string, Wire>, fields: seq<Field>, a: Authorizer): Status
    decreases fields, 0
  {
    if fields == [] then Ok
    else if fields[0].name !in src then InvalidArgument
    else
      var rc := Valid(src[fields[0].name], fields[0].pd.shape, fields[0].pd, a);
      if rc != Ok then rc else ValidFields(src, fields[1..], a)
  }

  /** The first error among the elements of an array. */
  function ValidItems(items: seq<Wire>, element: Shape, pd: Descriptor, a: Authorizer): Status
    decreases element, 1 + |items|
  {
    if items == [] then Ok
    else
      var rc := Valid(items[0], element, pd, a);
      if rc != Ok then rc else ValidItems(items[1..], element, pd, a)
  }

  /** Strings are added up until one breaks the constraint; the length check comes
      last and overrides the constraint's verdict. */
  function ValidStrings(strings: seq<string>, pd: Descriptor, total: nat): Status {
    if strings == [] then if total > pd.totalLength then OutOfRange else Ok
    else if !StringConstraintMet(pd, StringWire(strings[0])) then
      if total + |strings[0]| > pd.totalLength then OutOfRange else InvalidArgument
    else ValidStrings(strings[1..], pd, total + |strings[0]|)
  }

  function TotalLength(strings: seq<string>): nat {
    if strings == [] then 0 else |strings[0]| + TotalLength(strings[1..])
  }

  method ValidFromProto(src: Wire, t: Shape, pd: Descriptor, a: Authorizer) returns (rc: Status)
    ensures rc == Valid(src, t, pd, a)
    decreases t, 0
  {
    rc := Ok;
    if t.TEmpty? { return; }
    if !a.WriteAuthz(pd) { return PermissionDenied; }
    if !KindMatches(src, t) { return InvalidArgument; }
    match t
    case TString =>
      if pd.shape.TString? && |src.s| > pd.totalLength {
        rc := OutOfRange;
      } else if !StringConstraintMet(pd, src) {
        rc := InvalidArgument;
      }
    case TStruct(fields) =>
      for k := 0 to |fields|
        invariant ValidFields(src.fields, fields, a) == if rc == Ok then ValidFields(src.fields, fields[k..], a) else rc
      {
        if rc == Ok {
          if fields[k].name !in src.fields {
            rc := InvalidArgument;
          } else {
            rc := ValidFromProto(src.fields[fields[k].name], fields[k].pd.shape, fields[k].pd, a);
          }
        }
      }
    case TVariant(alternatives) =>
      var k := FindIndex(alternatives, src.alternative);
      if k >= |alternatives| {
        rc := InvalidArgument;
      } else {
        rc := ValidFromProto(src.inner, alternatives[k].pd.shape, alternatives[k].pd, a);
      }
    case TArray(element) =>
      if |Items(src)| > pd.maxLength { return OutOfRange; }
      if element.TString? {
        rc := ValidStringList(src.strings, pd);
      } else {
        rc := ValidList(Items(src), element, pd, a);
      }
    case _ =>
      if !ConstraintMet(pd, src) { rc := InvalidArgument; }
  }

  method ValidStringList(strings: seq<string>, pd: Descriptor) returns (rc: Status)
    ensures rc == ValidStrings(strings, pd, 0)
  {
    rc := Ok;
    var totalLength: nat := 0;
    var k := 0;
    while k < |strings|
      invariant 0 <= k <= |strings| && rc == Ok
      invariant ValidStrings(strings, pd, 0) == ValidStrings(strings[k..], pd, totalLength)
    {
      totalLength := totalLength + |strings[k]|;
      if !StringConstraintMet(pd, StringWire(strings[k])) {
        rc := InvalidArgument;
        break;
      }
      k := k + 1;
    }
    if totalLength > pd.totalLength { rc := OutOfRange; }
  }

  /** The element loops of the int, float, struct and variant arrays. */
  method ValidList(items: seq<Wire>, element: Shape, pd: Descriptor, a: Authorizer) returns (rc: Status)
    ensures rc == if element.TStruct? || element.TVariant? then ValidItems(items, element, pd, a)
                  else if forall item | item in items :: ConstraintMet(pd, item) then Ok
                  else InvalidArgument
    decreases element, 1
  {
    rc := Ok;
    for k := 0 to |items|
      invariant rc == Ok
      invariant element.TStruct? || element.TVariant? ==>
        ValidItems(items, element, pd, a) == ValidItems(items[k..], element, pd, a)
      invariant !(element.TStruct? || element.TVariant?) ==>
        forall j :: 0 <= j < k ==> ConstraintMet(pd, items[j])
    {
      if element.TStruct? || element.TVariant? {
        rc := ValidFromProto(items[k], element, pd, a);
      } else if !ConstraintMet(pd, items[k]) {
        rc := InvalidArgument;
      }
      if rc != Ok { return; }
    }
  }

  // ----------------------------------------------------------------- decoding

  function Ranged(pd: Descriptor, item: Wire): Wire {
    if pd.constraint.Some? && pd.constraint.value.IsRange() then Apply(pd.constraint.value, item) else item
  }

  function FieldOf(src: Wire, name: string): Wire {
    if src.StructWire? && name in src.fields then src.fields[name] else KindNotSet
  }

  /** What a number or string param stores for a message. */
  function Leaf(src: Wire, t: Shape, pd: Descriptor): Value {
    match t
    case TInt => Int(Ranged(pd, src).Int32Value())
    case TFloat => Float(Ranged(pd, src).Float32Value())
    case TString => Str(src.StringValue())
    case _ => Empty
  }

  /** The value that a message stands for, whatever the destination held before. */
  function Decode(src: Wire, t: Shape, pd: Descriptor): Value
    decreases t
  {
    match t
    case TStruct(fields) =>
      Struct(seq(|fields|, k requires 0 <= k < |fields| =>
        Decode(FieldOf(src, fields[k].name), fields[k].pd.shape, fields[k].pd)))
    case TVariant(alternatives) =>
      var k := if src.VariantWire? then FindIndex(alternatives, src.alternative) else |alternatives|;
      if k < |alternatives| then Variant(k, Decode(src.inner, alternatives[k].pd.shape, alternatives[k].pd))
      else Default(t)
    case TArray(element) =>
      Array(seq(|Items(src)|, k requires 0 <= k < |Items(src)| => Decode(Items(src)[k], element, pd)))
    case _ => Leaf(src, t, pd)
  }

  /** A valid struct has only valid fields, a valid variant a valid inner value, a
      valid array only valid elements: this is what makes it safe for `fromProto`
      to drop the status of the calls it nests. */
  lemma {:induction false} ValidFieldsIff(src: map<string, Wire>, fields: seq<Field>, a: Authorizer)
    ensures ValidFields(src, fields, a) == Ok <==>
            forall k :: 0 <= k < |fields| ==>
              fields[k].name in src && Valid(src[fields[k].name], fields[k].pd.shape, fields[k].pd, a) == Ok
  {
    if fields != [] {
      ValidFieldsIff(src, fields[1..], a);
      assert forall k :: 0 < k < |fields| ==> fields[k] == fields[1..][k - 1];
    }
  }

  lemma {:induction false} ValidItemsIff(items: seq<Wire>, element: Shape, pd: Descriptor, a: Authorizer)
    ensures ValidItems(items, element, pd, a) == Ok <==>
            forall k :: 0 <= k < |items| ==> Valid(items[k], element, pd, a) == Ok
  {
    if items != [] {
      ValidItemsIff(items[1..], element, pd, a);
      assert forall k :: 0 < k < |items| ==> items[k] == items[1..][k - 1];
    }
  }

  lemma {:induction false} ValidStringsIff(strings: seq<string>, pd: Descriptor, total: nat)
    ensures ValidStrings(strings, pd, total) == Ok <==>
            && total + TotalLength(strings) <= pd.totalLength
            && forall k :: 0 <= k < |strings| ==> StringConstraintMet(pd, StringWire(strings[k]))
  {
    if strings != [] {
      ValidStringsIff(strings[1..], pd, total + |strings[0]|);
      assert forall k :: 0 < k < |strings| ==> strings[k] == strings[1..][k - 1];
    }
  }

  /** `fromProto` overwrites `dst` or leaves it alone: an error changes nothing, and
      success stores a value that does not depend on what was there. */
  method FromProto(src: Wire, dst: Value, t: Shape, pd: Descriptor, a: Authorizer)
    returns (rc: Status, out: Value)
    requires HasType(dst, t) && WellFormed(t)
    ensures rc == Valid(src, t, pd, a)
    ensures out == if rc == Ok then Decode(src, t, pd) else dst
    decreases t, 1
  {
    out := dst;
    rc := ValidFromProto(src, t, pd, a);
    if rc != Ok { return; }
    match t
    case TStruct(fields) =>
      ValidFieldsIff(src.fields, fields, a);
      for k := 0 to |fields|
        invariant out.Struct? && |out.fields| == |fields|
        invariant forall j :: 0 <= j < k ==> out.fields[j] == Decode(src, t, pd).fields[j]
        invariant forall j :: k <= j < |fields| ==> out.fields[j] == dst.fields[j]
      {
        var _, member :=
          FromProto(src.fields[fields[k].name], out.fields[k], fields[k].pd.shape, fields[k].pd, a);
        out := Struct(out.fields[k := member]);
      }
    case TVariant(alternatives) =>
      var k := FindIndex(alternatives, src.alternative);
      if k != out.index {
        DefaultHasType(alternatives[k].pd.shape);
        out := Variant(k, Default(alternatives[k].pd.shape));
      }
      var _, held := FromProto(src.inner, out.held, alternatives[k].pd.shape, alternatives[k].pd, a);
      out := Variant(k, held);
    case TArray(element) =>
      var source := Items(src);
      if element.TStruct? || element.TVariant? { ValidItemsIff(source, element, pd, a); }
      var items := FillArray(source, element, pd, a);
      out := Array(items);
      assert items == Decode(src, t, pd).items;
    case _ => out := Leaf(src, t, pd);
  }

  /** The element loops of `fromProto`: the vector is cleared and grown again. Struct
      and variant elements are default constructed and then decoded in place. */
  method FillArray(source: seq<Wire>, element: Shape, pd: Descriptor, a: Authorizer) returns (items: seq<Value>)
    requires WellFormed(element) && !element.TArray?
    requires element.TStruct? || element.TVariant? ==>
      forall k :: 0 <= k < |source| ==> Valid(source[k], element, pd, a) == Ok
    ensures |items| == |source|
    ensures forall k :: 0 <= k < |items| ==> items[k] == Decode(source[k], element, pd)
    decreases element, 2
  {
    items := [];
    for k := 0 to |source|
      invariant |items| == k
      invariant forall j :: 0 <= j < k ==> items[j] == Decode(source[j], element, pd)
    {
      var item;
      if element.TStruct? || element.TVariant? {
        DefaultHasType(element);
        var _, decoded := FromProto(source[k], Default(element), element, pd, a);
        item := decoded;
      } else {
        item := Leaf(source[k], element, pd);
      }
      items := items + [item];
    }
  }

  // ----------------------------------------------------------------- encoding

  /** Whether `toProto` finds read authorisation everywhere it looks. An empty
      array is never looked into. */
  predicate Readable(v: Value, t: Shape, pd: Descriptor, a: Authorizer)
    decreases t
  {
    t.TEmpty? ||
    (a.ReadAuthz(pd) &&
     match t
     case TStruct(fields) =>
       v.Struct? ==> forall k | 0 <= k < |fields| && k < |v.fields| ::
         Readable(v.fields[k], fields[k].pd.shape, fields[k].pd, a)
     case TVariant(alternatives) =>
       v.Variant? && v.index < |alternatives| ==>
         Readable(v.held, alternatives[v.index].pd.shape, alternatives[v.index].pd, a)
     case TArray(element) =>
       v.Array? && (element.TStruct? || element.TVariant?) ==>
         forall k | 0 <= k < |v.items| :: Readable(v.items[k], element, pd, a)
     case _ => true)
  }

  /** The list message holding the given element messages. A variant array's list
      is created by its first element, so an empty one has no kind. */
  function ListOf(element: Shape, items: seq<Wire>): Wire {
    match element
    case TInt => Int32List(seq(|items|, k requires 0 <= k < |items| => items[k].Int32Value()))
    case TFloat => Float32List(seq(|items|, k requires 0 <= k < |items| => items[k].Float32Value()))
    case TString => StringList(seq(|items|, k requires 0 <= k < |items| => items[k].StringValue()))
    case TStruct(_) => StructList(seq(|items|, k requires 0 <= k < |items| => StructOf(items[k])))
    case TVariant(_) =>
      if items == [] then KindNotSet
      else VariantList(seq(|items|, k requires 0 <= k < |items| => VariantOf(items[k])))
    case _ => KindNotSet
  }

  function StructOf(w: Wire): map<string, Wire> { if w.StructWire? then w.fields else map[] }

  function VariantOf(w: Wire): (string, Wire) {
    if w.VariantWire? then (w.alternative, w.inner) else ("", KindNotSet)
  }

  function Encode(v: Value, t: Shape): Wire
    requires HasType(v, t)
    decreases t
  {
    match t
    case TEmpty => KindNotSet
    case TInt => Int32Wire(v.i)
    case TFloat => Float32Wire(v.f)
    case TString => StringWire(v.s)
    case TStruct(fields) => StructWire(EncodeFields(v.fields, fields))
    case TVariant(alternatives) =>
      VariantWire(alternatives[v.index].name, Encode(v.held, alternatives[v.index].pd.shape))
    case TArray(element) =>
      ListOf(element, seq(|v.items|, k requires 0 <= k < |v.items| => Encode(v.items[k], element)))
  }

  function EncodeFields(values: seq<Value>, fields: seq<Field>): map<string, Wire>
    requires |values| == |fields|
    requires forall k :: 0 <= k < |fields| ==> HasType(values[k], fields[k].pd.shape)
    decreases fields
  {
    if fields == [] then map[]
    else
      var n := |fields| - 1;
      EncodeFields(values[..n], fields[..n])[fields[n].name := Encode(values[n], fields[n].pd.shape)]
  }

  /** `toProto` into a freshly constructed message: the whole value, or nothing. */
  method ToProto(v: Value, t: Shape, pd: Descriptor, a: Authorizer) returns (rc: Status, dst: Wire)
    requires HasType(v, t)
    ensures rc == if Readable(v, t, pd, a) then Ok else PermissionDenied
    ensures dst == if rc == Ok then Encode(v, t) else KindNotSet
    decreases t, 0
  {
    rc, dst := Ok, KindNotSet;
    if t.TEmpty? { return; }
    if !a.ReadAuthz(pd) { return PermissionDenied, KindNotSet; }
    match t
    case TInt => dst := Int32Wire(v.i);
    case TFloat => dst := Float32Wire(v.f);
    case TString => dst := StringWire(v.s);
    case TStruct(fields) =>
      var dstFields;
      rc, dstFields := FieldsToProto(v.fields, t, a);
      dst := if rc == Ok then StructWire(dstFields) else KindNotSet;
    case TVariant(alternatives) =>
      var alternative := alternatives[v.index];
      var inner;
      rc, inner := ToProto(v.held, alternative.pd.shape, alternative.pd, a);
      dst := if rc == Ok then VariantWire(alternative.name, inner) else KindNotSet;
    case TArray(element) => rc, dst := ListToProto(v.items, element, pd, a);
  }

  lemma NoFields()
    ensures EncodeFields([], []) == map[]
  {
  }

  lemma EncodeNextField(values: seq<Value>, fields: seq<Field>, k: nat)
    requires k < |fields| == |values| && HasType(values[k], fields[k].pd.shape)
    requires forall j :: 0 <= j < |fields| ==> HasType(values[j], fields[j].pd.shape)
    ensures EncodeFields(values[..k + 1], fields[..k + 1])
         == EncodeFields(values[..k], fields[..k])[fields[k].name := Encode(values[k], fields[k].pd.shape)]
  {
    hide HasType, Encode;
    assert fields[..k + 1][..k] == fields[..k] && values[..k + 1][..k] == values[..k];
  }

  /** The field loop of `toProto`: after a failure nothing more is encoded. */
  method FieldsToProto(values: seq<Value>, t: Shape, a: Authorizer) returns (rc: Status, dstFields: map<string, Wire>)
    requires t.TStruct? && HasType(Struct(values), t)
    ensures rc == if forall j | 0 <= j < |t.fields| :: Readable(values[j], t.fields[j].pd.shape, t.fields[j].pd, a)
                  then Ok else PermissionDenied
    ensures rc == Ok ==> dstFields == EncodeFields(values, t.fields)
    decreases t.fields, 1
  {
    hide EncodeFields, Encode, Readable;
    var fields := t.fields;
    rc, dstFields := Ok, map[];
    NoFields();
    for k := 0 to |fields|
      invariant rc == if forall j | 0 <= j < k :: Readable(values[j], fields[j].pd.shape, fields[j].pd, a)
                      then Ok else PermissionDenied
      invariant rc == Ok ==> dstFields == EncodeFields(values[..k], fields[..k])
    {
      if rc == Ok {
        var field;
        rc, field := ToProto(values[k], fields[k].pd.shape, fields[k].pd, a);
        dstFields := dstFields[fields[k].name := field];
        EncodeNextField(values, fields, k);
      }
    }
    assert fields[..|fields|] == fields && values[..|fields|] == values;
  }

  /** The element loop of `toProto`. Numbers and strings are added as they are,
      structs and variants are encoded until one may not be read. */
  method ListToProto(values: seq<Value>, element: Shape, pd: Descriptor, a: Authorizer)
    returns (rc: Status, dst: Wire)
    requires HasType(Array(values), TArray(element)) && a.ReadAuthz(pd)
    ensures rc == if Readable(Array(values), TArray(element), pd, a) then Ok else PermissionDenied
    ensures dst == if rc == Ok then Encode(Array(values), TArray(element)) else KindNotSet
    decreases element, 1
  {
    rc := Ok;
    var items: seq<Wire> := [];
    for k := 0 to |values|
      invariant |items| == k && rc == Ok
      invariant forall j :: 0 <= j < k ==> items[j] == Encode(values[j], element)
      invariant element.TStruct? || element.TVariant? ==>
        forall j :: 0 <= j < k ==> Readable(values[j], element, pd, a)
    {
      if element.TStruct? || element.TVariant? {
        var item;
        rc, item := ToProto(values[k], element, pd, a);
        if rc != Ok { return rc, KindNotSet; }
        items := items + [item];
      } else {
        items := items + [Encode(values[k], element)];
      }
    }
    dst := ListOf(element, items);
    assert items == seq(|values|, k requires 0 <= k < |values| => Encode(values[k], element));
  }
}

/** The vocabulary of the C++ parameter engine: what a param holds, what travels
    on the wire, what describes a param, and who may read or write it. */
module Types {
  type int32 = x: int | -0x8000_0000 <= x <= 0x7fff_ffff

  datatype Option<+T> = None | Some(value: T)

  datatype Status = Ok | InvalidArgument | PermissionDenied | OutOfRange | NotFound | AlreadyExists | Internal

  /** A protobuf `st2138::Value`, one constructor per kind that the codec tells
      apart. `Unsupported` stands for the kinds it never reads. A default
      constructed message has no kind set. */
  datatype Wire =
    | KindNotSet
    | Unsupported
    | Int32Wire(i: int32)
    | Float32Wire(f: real)
    | StringWire(s: string)
    | Int32List(ints: seq<int32>)
    | Float32List(floats: seq<real>)
    | StringList(strings: seq<string>)
    | StructWire(fields: map<string, Wire>)
    | StructList(structs: seq<map<string, Wire>>)
    | VariantWire(alternative: string, inner: Wire)
    | VariantList(variants: seq<(string, Wire)>)
  {
    /** The protobuf getters, which answer with the default when the kind differs. */
    function Int32Value(): int32 { if Int32Wire? then i else 0 }
    function Float32Value(): real { if Float32Wire? then f else 0.0 }
    function StringValue(): string { if StringWire? then s else "" }
  }

  /** What a param stores. Vectors of every element type are one constructor. */
  datatype Value =
    | Empty
    | Int(i: int32)
    | Float(f: real)
    | Str(s: string)
    | Struct(fields: seq<Value>)
    | Variant(index: nat, held: Value)
    | Array(items: seq<Value>)

  /** The constructor of an integer range keeps the absolute value of the step. */
  datatype Constraint =
    | IntRange(imin: int32, imax: int32, istep: nat)
    | FloatRange(fmin: real, fmax: real, fstep: real)
    | IntChoice(ints: set<int32>)
    | StringChoice(strict: bool, strings: set<string>)
  {
    predicate IsRange() { IntRange? || FloatRange? }
  }

  /** The C++ type of a value. Fields and alternatives carry their descriptors,
      because the code generator emits both together. */
  datatype Shape =
    | TEmpty
    | TInt
    | TFloat
    | TString
    | TStruct(fields: seq<Field>)
    | TVariant(alternatives: seq<Field>)
    | TArray(element: Shape)

  datatype Field = Field(name: string, pd: Descriptor)

  /** `ParamDescriptor` with its scope, read-only flag and length limits already
      resolved against its parents and the device's defaults. */
  datatype Descriptor = Descriptor(
    scope: string,
    readOnly: bool,
    maxLength: nat,
    totalLength: nat,
    constraint: Option<Constraint>,
    shape: Shape)

  /** `Authorizer`: the scopes a client holds, or authorisation switched off. */
  datatype Authorizer = Authorizer(disabled: bool, scopes: set<string>)
  {
    predicate HasAuthz(scope: string) { disabled || scope in scopes }

    predicate WriteScope(scope: string) { HasAuthz(scope + ":w") }

    predicate ReadAuthz(pd: Descriptor) { HasAuthz(pd.scope) || WriteScope(pd.scope) }

    predicate WriteAuthz(pd: Descriptor) { !pd.readOnly && WriteScope(pd.scope) }
  }

  /** `Authorizer::kAuthzDisabled`: whoever may do everything. */
  const AUTHZ_DISABLED: Authorizer := Authorizer(true, {})

  /** The path sentinels of `Path.h`, for a 64-bit `size_t`. */
  const SIZE_MAX: nat := 0xffff_ffff_ffff_ffff
  const K_END: nat := SIZE_MAX
  const K_ERROR: nat := K_END - 1
  const K_NONE: nat := K_END - 2

  datatype Segment = Index(i: nat) | Name(s: string)

  /** The position of the first field or alternative called `name`, or the
      length when there is none (`_findTypeIndex`, `findParamByName_`). */
  function FindIndex(fields: seq<Field>, name: string): (k: nat)
    ensures k <= |fields|
    ensures k < |fields| ==> fields[k].name == name
    ensures forall j :: 0 <= j < k ==> fields[j].name != name
  {
    if fields == [] then 0
    else if fields[0].name == name then 0
    else 1 + FindIndex(fields[1..], name)
  }

  ghost predicate DistinctNames(fields: seq<Field>)
  {
    forall i, j :: 0 <= i < j < |fields| ==> fields[i].name != fields[j].name
  }

  lemma FindIndexOfDistinct(fields: seq<Field>, k: nat)
    requires k < |fields| && DistinctNames(fields)
    ensures FindIndex(fields, fields[k].name) == k
  {
    var m := FindIndex(fields, fields[k].name);
    assert m <= k;
  }

  /** What the code generator guarantees of every type it emits: distinct field
      names, no empty variant, arrays of elements only, constraints of the
      matching type. Lengths are limited by a `uint32_t`. */
  ghost predicate WellFormed(t: Shape)
  {
    match t
    case TStruct(fields) =>
      DistinctNames(fields) &&
      forall k :: 0 <= k < |fields| ==> Sound(fields[k].pd) && WellFormed(fields[k].pd.shape)
    case TVariant(alternatives) =>
      |alternatives| > 0 && DistinctNames(alternatives) &&
      forall k :: 0 <= k < |alternatives| ==> Sound(alternatives[k].pd) && WellFormed(alternatives[k].pd.shape)
    case TArray(element) => !element.TArray? && !element.TEmpty? && WellFormed(element)
    case _ => true
  }

  ghost predicate Sound(pd: Descriptor)
  {
    && pd.maxLength <= 0xffff_ffff
    && (pd.constraint.Some? ==> ConstraintFits(pd.constraint.value, pd.shape))
  }

  ghost predicate WellFormedDescriptor(pd: Descriptor)
  {
    Sound(pd) && WellFormed(pd.shape)
  }

  ghost predicate ConstraintFits(c: Constraint, t: Shape)
  {
    match c
    case IntRange(min, max, step) => min <= max && (t.TInt? || t == TArray(TInt))
    case FloatRange(min, max, step) => min <= max && step >= 0.0 && (t.TFloat? || t == TArray(TFloat))
    case IntChoice(_) => t.TInt? || t == TArray(TInt)
    case StringChoice(_, _) => t.TString? || t == TArray(TString)
  }

  /** `v` is a value of the C++ type `t`; a vector's indices lie below the path
      sentinels, as on any 64-bit machine. */
  ghost predicate HasType(v: Value, t: Shape)
  {
    match t
    case TEmpty => v.Empty?
    case TInt => v.Int?
    case TFloat => v.Float?
    case TString => v.Str?
    case TStruct(fields) =>
      && v.Struct? && |v.fields| == |fields|
      && forall i :: 0 <= i < |fields| ==> HasType(v.fields[i], fields[i].pd.shape)
    case TVariant(alternatives) =>
      v.Variant? && v.index < |alternatives| && HasType(v.held, alternatives[v.index].pd.shape)
    case TArray(element) =>
      && v.Array? && |v.items| < K_NONE
      && forall i :: 0 <= i < |v.items| ==> HasType(v.items[i], element)
  }

  /** The value-initialised `T{}`. */
  function Default(t: Shape): Value
  {
    match t
    case TEmpty => Empty
    case TInt => Int(0)
    case TFloat => Float(0.0)
    case TString => Str("")
    case TStruct(fields) => Struct(seq(|fields|, i requires 0 <= i < |fields| => Default(fields[i].pd.shape)))
    case TVariant(alternatives) =>
      Variant(0, if alternatives == [] then Empty else Default(alternatives[0].pd.shape))
    case TArray(_) => Array([])
  }

  lemma {:induction false} DefaultHasType(t: Shape)
    requires WellFormed(t)
    ensures HasType(Default(t), t)
  {
    match t
    case TStruct(fields) =>
      forall i | 0 <= i < |fields|
        ensures HasType(Default(t).fields[i], fields[i].pd.shape)
      {
        DefaultHasType(fields[i].pd.shape);
      }
    case TVariant(alternatives) =>
      DefaultHasType(alternatives[0].pd.shape);
    case _ =>
  }
}

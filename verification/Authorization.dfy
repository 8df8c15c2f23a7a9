/** What a client's scopes let through: nothing is encoded that it may not read, and nothing
    is stored that it may not write. */
module Authorization {
  import opened Types
  import opened StructInfo
  import opened CodecProperties
  import opened Navigation
  import opened Parts
  import opened Transactions
  import opened BatchProperties
  import DeviceSafety

  // -------------------------------------------------------------------- reading

  ghost function MayReadPart(a: Authorizer): Nav -> bool {
    (nav: Nav) => nav.Found? && !nav.t.TEmpty? ==>
      a.disabled || nav.pd.scope in a.scopes || nav.pd.scope + ":w" in a.scopes
  }

  ghost function MayWritePart(a: Authorizer): Nav -> bool {
    (nav: Nav) => nav.Found? && !nav.t.TEmpty? ==>
      !nav.pd.readOnly && (a.disabled || nav.pd.scope + ":w" in a.scopes)
  }

  /** A value is encoded if and only if the client may read every param inside it. */
  lemma {:induction false} EncodedIffAllReadable(v: Value, t: Shape, pd: Descriptor, a: Authorizer)
    requires HasType(v, t) && Describes(pd, t)
    ensures Readable(v, t, pd, a) <==> AllParts(v, t, pd, MayReadPart(a))
    decreases t
  {
    var ok := MayReadPart(a);
    if Readable(v, t, pd, a) {
      forall k | 0 <= k < |Children(v)|
        ensures AllParts(Children(v)[k], ChildShape(v, t, k), ChildDescriptor(v, t, pd, k), ok)
      {
        ChildDescribed(v, t, pd, k);
        ReadableChild(v, t, pd, k, a);
        EncodedIffAllReadable(Children(v)[k], ChildShape(v, t, k), ChildDescriptor(v, t, pd, k), a);
      }
      PartsOfChildren(v, t, pd, ok);
    }
    if AllParts(v, t, pd, ok) {
      ItselfPart(v, t, pd, ok);
      forall k | 0 <= k < |Children(v)|
        ensures Readable(Children(v)[k], ChildShape(v, t, k), ChildDescriptor(v, t, pd, k), a)
      {
        ChildDescribed(v, t, pd, k);
        ChildParts(v, t, pd, k, ok);
        EncodedIffAllReadable(Children(v)[k], ChildShape(v, t, k), ChildDescriptor(v, t, pd, k), a);
      }
      ReadableChildren(v, t, pd, a);
    }
  }

  lemma ReadableChild(v: Value, t: Shape, pd: Descriptor, k: nat, a: Authorizer)
    requires HasType(v, t) && Describes(pd, t) && k < |Children(v)| && Readable(v, t, pd, a)
    ensures Readable(Children(v)[k], ChildShape(v, t, k), ChildDescriptor(v, t, pd, k), a)
  {
  }

  lemma ReadableChildren(v: Value, t: Shape, pd: Descriptor, a: Authorizer)
    requires HasType(v, t) && Describes(pd, t) && (t.TEmpty? || a.ReadAuthz(pd))
    requires forall k :: 0 <= k < |Children(v)| ==>
               Readable(Children(v)[k], ChildShape(v, t, k), ChildDescriptor(v, t, pd, k), a)
    ensures Readable(v, t, pd, a)
  {
    match t
    case TStruct(fields) =>
      forall k | 0 <= k < |fields| ensures Readable(v.fields[k], fields[k].pd.shape, fields[k].pd, a) {
        assert Children(v)[k] == v.fields[k];
      }
    case TVariant(_) => assert Children(v)[0] == v.held;
    case TArray(element) =>
      forall k | 0 <= k < |v.items| ensures Readable(v.items[k], element, pd, a) {
        assert Children(v)[k] == v.items[k];
      }
    case _ =>
  }

  // -------------------------------------------------------------------- writing

  /** A message that validates is stored only into params the client may write: all that it
      decodes to. */
  lemma {:induction false} ValidNeedsWriteAuthz(src: Wire, t: Shape, pd: Descriptor, a: Authorizer)
    requires Describes(pd, t) && Valid(src, t, pd, a) == Ok
    ensures HasType(Decode(src, t, pd), t)
    ensures AllParts(Decode(src, t, pd), t, pd, MayWritePart(a))
    decreases t
  {
    var ok := MayWritePart(a);
    DecodeConforms(src, t, pd, a);
    var v := Decode(src, t, pd);
    forall k | 0 <= k < |Children(v)|
      ensures AllParts(Children(v)[k], ChildShape(v, t, k), ChildDescriptor(v, t, pd, k), ok)
    {
      ChildDescribed(v, t, pd, k);
      var w := ChildMessage(src, t, pd, k, a);
      ValidNeedsWriteAuthz(w, ChildShape(v, t, k), ChildDescriptor(v, t, pd, k), a);
    }
    ItsOwnAuthz(src, t, pd, a);
    PartsOfChildren(v, t, pd, ok);
  }

  lemma ItsOwnAuthz(src: Wire, t: Shape, pd: Descriptor, a: Authorizer)
    requires Valid(src, t, pd, a) == Ok
    ensures t.TEmpty? || a.WriteAuthz(pd)
  {
  }

  /** The part of a valid message that a child is decoded from. */
  lemma ChildMessage(src: Wire, t: Shape, pd: Descriptor, k: nat, a: Authorizer) returns (w: Wire)
    requires Describes(pd, t) && Valid(src, t, pd, a) == Ok
    requires HasType(Decode(src, t, pd), t) && k < |Children(Decode(src, t, pd))|
    ensures var v := Decode(src, t, pd);
            && Children(v)[k] == Decode(w, ChildShape(v, t, k), ChildDescriptor(v, t, pd, k))
            && Valid(w, ChildShape(v, t, k), ChildDescriptor(v, t, pd, k), a) == Ok
  {
    match t
    case TStruct(fields) =>
      ValidFieldsIff(src.fields, fields, a);
      w := src.fields[fields[k].name];
    case TVariant(_) => w := src.inner;
    case TArray(element) =>
      ValidElements(src, element, pd, a);
      w := Items(src)[k];
  }

  /** `setValue` changes the device only where the client may write. */
  lemma SetValueAuthorised(root: Value, t: Shape, entry: Entry, a: Authorizer)
    requires HasType(root, t) && WellFormed(t) && t.TStruct?
    requires SetValue(root, t, entry, a).root != root
    ensures var target := Target(root, t, RootDescriptor(t), PathOf(entry), a);
            && target.Some?
            && var v := Decode(entry.value, target.value.0, target.value.1);
               && HasType(v, target.value.0)
               && SetValue(root, t, entry, a).root == Put(root, t, PathOf(entry), v)
               && AllParts(v, target.value.0, target.value.1, MayWritePart(a))
  {
    var p := PathOf(entry);
    DeviceSafety.SetValueSafe(root, t, entry, a);
    AcceptedResolves(root, t, p, entry.value, a);
    var target := Target(root, t, RootDescriptor(t), p, a).value;
    hide SetValue, Accept, At, Put, Decode, Conforms, HasType;
    TargetDescribed(root, t, p, a);
    ValidNeedsWriteAuthz(entry.value, target.0, target.1, a);
  }
}

/** The params inside a value, all of them: what is reached from it by some path. */
module Parts {
  import opened Types
  import opened CodecProperties
  import opened Navigation

  /** All params inside a value satisfy `ok`; they are found as by someone who may read
      everything. */
  ghost predicate AllParts(v: Value, t: Shape, pd: Descriptor, ok: Nav -> bool)
    requires HasType(v, t)
  {
    forall p :: PartOk(v, t, pd, p, ok)
  }

  ghost predicate PartOk(v: Value, t: Shape, pd: Descriptor, p: seq<Segment>, ok: Nav -> bool)
    requires HasType(v, t)
  {
    var nav := At(v, t, pd, p, AUTHZ_DISABLED);
    nav.Found? ==> ok(nav)
  }

  /** The parts of a child are parts of the whole. */
  lemma ChildParts(v: Value, t: Shape, pd: Descriptor, k: nat, ok: Nav -> bool)
    requires HasType(v, t) && Describes(pd, t) && k < |Children(v)| && AllParts(v, t, pd, ok)
    ensures AllParts(Children(v)[k], ChildShape(v, t, k), ChildDescriptor(v, t, pd, k), ok)
  {
    var s := StepTo(v, t, k);
    StepToSlot(v, t, pd, k);
    var c, ct, cpd := Children(v)[k], ChildShape(v, t, k), ChildDescriptor(v, t, pd, k);
    forall p ensures PartOk(c, ct, cpd, p, ok) {
      assert PartOk(v, t, pd, [s] + p, ok);
      assert ([s] + p)[1..] == p;
      if t.TArray? && IsLeaf(t.element) && p != [] { LeafHasNoParts(c, ct, cpd, p); }
    }
  }

  lemma LeafHasNoParts(v: Value, t: Shape, pd: Descriptor, p: seq<Segment>)
    requires HasType(v, t) && IsLeaf(t) && p != []
    ensures At(v, t, pd, p, AUTHZ_DISABLED).Fail?
  {
  }

  /** ... and the parts of the whole are itself and the parts of its children. */
  lemma PartsOfChildren(v: Value, t: Shape, pd: Descriptor, ok: Nav -> bool)
    requires HasType(v, t) && ok(Found(t, pd, v))
    requires forall k :: 0 <= k < |Children(v)| ==>
               AllParts(Children(v)[k], ChildShape(v, t, k), ChildDescriptor(v, t, pd, k), ok)
    ensures AllParts(v, t, pd, ok)
  {
    forall p ensures PartOk(v, t, pd, p, ok) {
      if p != [] && StepStatus(v, t, pd, p[0], AUTHZ_DISABLED) == Ok {
        var k := Slot(v, t, p[0]);
        assert PartOk(Children(v)[k], ChildShape(v, t, k), ChildDescriptor(v, t, pd, k), p[1..], ok);
      }
    }
  }

  lemma ItselfPart(v: Value, t: Shape, pd: Descriptor, ok: Nav -> bool)
    requires HasType(v, t) && AllParts(v, t, pd, ok)
    ensures ok(Found(t, pd, v))
  {
    assert PartOk(v, t, pd, [], ok);
  }

  /** The segment that leads to a child. */
  function StepTo(v: Value, t: Shape, k: nat): Segment
    requires HasType(v, t) && k < |Children(v)|
  {
    match t
    case TStruct(fields) => Name(fields[k].name)
    case TVariant(alternatives) => Name(alternatives[v.index].name)
    case _ => Index(k)
  }

  lemma StepToSlot(v: Value, t: Shape, pd: Descriptor, k: nat)
    requires HasType(v, t) && WellFormed(t) && k < |Children(v)|
    ensures Slot(v, t, StepTo(v, t, k)) == k && StepStatus(v, t, pd, StepTo(v, t, k), AUTHZ_DISABLED) == Ok
  {
    if t.TStruct? { FindIndexOfDistinct(t.fields, k); }
  }

  // ------------------------------------------------------------- the default value

  /** Numbers are zero, texts and arrays empty, variants hold their first alternative. */
  ghost predicate IsZero(nav: Nav) {
    nav.Found? ==>
      match nav.t
      case TEmpty => nav.v == Empty
      case TInt => nav.v == Int(0)
      case TFloat => nav.v == Float(0.0)
      case TString => nav.v == Str("")
      case TArray(_) => nav.v == Array([])
      case TVariant(_) => nav.v.Variant? && nav.v.index == 0
      case TStruct(_) => true
  }

  /** That is so of every part of a default constructed value. */
  lemma {:induction false} DefaultParts(t: Shape, pd: Descriptor)
    requires Describes(pd, t)
    ensures HasType(Default(t), t) && AllParts(Default(t), t, pd, IsZero)
    decreases t
  {
    DefaultHasType(t);
    var v := Default(t);
    forall k | 0 <= k < |Children(v)|
      ensures AllParts(Children(v)[k], ChildShape(v, t, k), ChildDescriptor(v, t, pd, k), IsZero)
    {
      ChildDescribed(v, t, pd, k);
      DefaultParts(ChildShape(v, t, k), ChildDescriptor(v, t, pd, k));
    }
    PartsOfChildren(v, t, pd, IsZero);
  }
}

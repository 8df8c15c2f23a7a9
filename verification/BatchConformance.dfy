/** When a batch leaves the device conforming: exactly when the strings that it writes into
    each array of strings stay within the total length together. */
module BatchConformance {
  import opened Types
  import opened StructInfo
  import opened CodecProperties
  import opened Navigation
  import opened Parts
  import opened Paths
  import opened Transactions
  import opened BatchProperties
  import opened BatchOutcome
  import DeviceSafety

  // ------------------------------------------------ conformance, part by part

  /** What a param has to meet for itself; `Total` is the one bound that several writes
      can break together. */
  ghost predicate Total(nav: Nav) {
    nav.Found? && nav.t.TArray? && nav.t.element.TString? && nav.v.Array? ==>
      TotalLength(StringsOf(nav.v.items)) <= nav.pd.totalLength
  }

  ghost predicate Single(nav: Nav) {
    nav.Found? ==>
      match nav.t
      case TString =>
        LeafConforms(nav.v, nav.pd) && (nav.pd.shape.TString? && nav.v.Str? ==> |nav.v.s| <= nav.pd.totalLength)
      case TStruct(_) => true
      case TVariant(_) => true
      case TArray(_) => nav.v.Array? ==> |nav.v.items| <= nav.pd.maxLength
      case _ => LeafConforms(nav.v, nav.pd)
  }

  ghost predicate Both(nav: Nav) { Single(nav) && Total(nav) }

  lemma ConformsStep(v: Value, t: Shape, pd: Descriptor)
    requires HasType(v, t)
    ensures Conforms(v, t, pd) <==>
              && Both(Found(t, pd, v))
              && forall k :: 0 <= k < |Children(v)| ==>
                   Conforms(Children(v)[k], ChildShape(v, t, k), ChildDescriptor(v, t, pd, k))
  {
    match t
    case TStruct(fields) => assert Children(v) == v.fields;
    case TVariant(_) => assert Children(v)[0] == v.held;
    case TArray(_) => assert Children(v) == v.items;
    case _ => assert Children(v) == [];
  }

  /** A value conforms exactly if every part of it does. */
  lemma {:induction false} ConformsIffParts(v: Value, t: Shape, pd: Descriptor)
    requires HasType(v, t) && Describes(pd, t)
    ensures Conforms(v, t, pd) <==> AllParts(v, t, pd, Both)
    decreases t
  {
    hide HasType, Describes, Conforms, Both, Children, ChildShape, ChildDescriptor, AllParts;
    ConformsStep(v, t, pd);
    forall k | 0 <= k < |Children(v)|
      ensures Conforms(Children(v)[k], ChildShape(v, t, k), ChildDescriptor(v, t, pd, k))
         <==> AllParts(Children(v)[k], ChildShape(v, t, k), ChildDescriptor(v, t, pd, k), Both)
    {
      ChildDescribed(v, t, pd, k);
      ChildSmaller(v, t, k);
      ConformsIffParts(Children(v)[k], ChildShape(v, t, k), ChildDescriptor(v, t, pd, k));
    }
    if Conforms(v, t, pd) { PartsOfChildren(v, t, pd, Both); }
    if AllParts(v, t, pd, Both) {
      ItselfPart(v, t, pd, Both);
      forall k | 0 <= k < |Children(v)|
        ensures AllParts(Children(v)[k], ChildShape(v, t, k), ChildDescriptor(v, t, pd, k), Both)
      {
        ChildParts(v, t, pd, k, Both);
      }
    }
  }

  lemma ChildSmaller(v: Value, t: Shape, k: nat)
    requires HasType(v, t) && k < |Children(v)|
    ensures t decreases to ChildShape(v, t, k)
  {
  }

  // ------------------------------------------------- where a write shows up

  /** The place a write goes to; for an append it is behind the elements there are. */
  function Place(v: Value, t: Shape, p: seq<Segment>): seq<Segment>
    requires HasType(v, t)
    decreases |p|
  {
    if p == [] then []
    else if p == [APPEND] && t.TArray? then [Index(|v.items|)]
    else
      var k := Slot(v, t, p[0]);
      if k == |Children(v)| then p else [p[0]] + Place(Children(v)[k], ChildShape(v, t, k), p[1..])
  }

  ghost predicate Writes(v: Value, t: Shape, pd: Descriptor, p: seq<Segment>, nv: Value)
    requires HasType(v, t)
  {
    && Target(v, t, pd, p, AUTHZ_DISABLED).Some? && Addressable(v, t, pd, p, AUTHZ_DISABLED)
    && HasType(nv, Target(v, t, pd, p, AUTHZ_DISABLED).value.0)
  }

  /** One step down of everything a write is about. */
  lemma WritesStep(v: Value, t: Shape, pd: Descriptor, p: seq<Segment>, nv: Value)
    requires HasType(v, t) && Writes(v, t, pd, p, nv) && p != [] && !(p == [APPEND] && t.TArray?)
    ensures StepStatus(v, t, pd, p[0], AUTHZ_DISABLED) == Ok && !IsLeaf(t)
    ensures var k := Slot(v, t, p[0]);
            var c, ct, cpd := Children(v)[k], ChildShape(v, t, k), ChildDescriptor(v, t, pd, k);
            && Writes(c, ct, cpd, p[1..], nv)
            && Target(v, t, pd, p, AUTHZ_DISABLED) == Target(c, ct, cpd, p[1..], AUTHZ_DISABLED)
            && HasType(Put(c, ct, p[1..], nv), ct)
            && Put(v, t, p, nv) == WithChild(v, k, Put(c, ct, p[1..], nv))
            && Place(v, t, p) == [p[0]] + Place(c, ct, p[1..])
            && (p[1..] != [] ==> !IsLeaf(ct))
  {
    hide Target, Addressable, HasType, ChildShape, ChildDescriptor;
    TargetStep(v, t, pd, p, AUTHZ_DISABLED);
    LeafHasNoTarget(v, t, pd, p, AUTHZ_DISABLED);
    var k := Slot(v, t, p[0]);
    var c, ct, cpd := Children(v)[k], ChildShape(v, t, k), ChildDescriptor(v, t, pd, k);
    PutTyped(c, ct, cpd, p[1..], AUTHZ_DISABLED, nv);
    if p[1..] != [] { LeafHasNoTarget(c, ct, cpd, p[1..], AUTHZ_DISABLED); }
  }

  /** One step down of what is found. */
  lemma FoundStep(v: Value, t: Shape, pd: Descriptor, b: seq<Segment>)
    requires HasType(v, t) && b != []
    ensures At(v, t, pd, b, AUTHZ_DISABLED).Found? <==>
              && StepStatus(v, t, pd, b[0], AUTHZ_DISABLED) == Ok
              && !(|b| > 1 && t.TArray? && IsLeaf(t.element))
              && var k := Slot(v, t, b[0]);
                 At(Children(v)[k], ChildShape(v, t, k), ChildDescriptor(v, t, pd, k), b[1..], AUTHZ_DISABLED).Found?
    ensures At(v, t, pd, b, AUTHZ_DISABLED).Found? ==>
              var k := Slot(v, t, b[0]);
              At(v, t, pd, b, AUTHZ_DISABLED)
              == At(Children(v)[k], ChildShape(v, t, k), ChildDescriptor(v, t, pd, k), b[1..], AUTHZ_DISABLED)
  {
  }

  /** Away from the place, whatever is found after a write was found before, with its type
      and descriptor, and unchanged unless the write went inside it. */
  lemma {:induction false} AtBack(v: Value, t: Shape, pd: Descriptor, p: seq<Segment>, nv: Value, b: seq<Segment>)
    requires HasType(v, t) && Writes(v, t, pd, p, nv) && HasType(Put(v, t, p, nv), t)
    requires At(Put(v, t, p, nv), t, pd, b, AUTHZ_DISABLED).Found? && !(Place(v, t, p) <= b)
    ensures var before, after := At(v, t, pd, b, AUTHZ_DISABLED), At(Put(v, t, p, nv), t, pd, b, AUTHZ_DISABLED);
            && before.Found? && before.t == after.t && before.pd == after.pd
            && (!(b <= p) ==> before.v == after.v)
    decreases |p|
  {
    if b == [] {
      assert b <= p;
    } else if p != [] {
      if p == [APPEND] && t.TArray? {
        AppendBack(v, t, pd, nv, b);
      } else {
        hide Writes, Target, HasType, ChildShape, ChildDescriptor, StepStatus, Put, Children, At, Place, WithChild;
        WritesStep(v, t, pd, p, nv);
        var k := Slot(v, t, p[0]);
        var c, ct, cpd := Children(v)[k], ChildShape(v, t, k), ChildDescriptor(v, t, pd, k);
        var below := Put(c, ct, p[1..], nv);
        Heads(p, b);
        if Slot(v, t, b[0]) == k {
          BackInside(v, t, pd, k, below, p[0], b);
          Heads(Place(v, t, p), b);
          AtBack(c, ct, cpd, p[1..], nv, b[1..]);
        } else {
          BackBeside(v, t, pd, k, below, b);
        }
      }
    }
  }

  lemma Heads(p: seq<Segment>, b: seq<Segment>)
    requires p != [] && b != []
    ensures p <= b <==> p[0] == b[0] && p[1..] <= b[1..]
    ensures b <= p <==> p[0] == b[0] && b[1..] <= p[1..]
  {
    assert p == [p[0]] + p[1..] && b == [b[0]] + b[1..];
  }

  lemma BackBeside(v: Value, t: Shape, pd: Descriptor, k: nat, c: Value, b: seq<Segment>)
    requires HasType(v, t) && k < |Children(v)| && HasType(c, ChildShape(v, t, k)) && b != []
    requires Slot(v, t, b[0]) != k
    ensures HasType(WithChild(v, k, c), t)
    ensures At(WithChild(v, k, c), t, pd, b, AUTHZ_DISABLED) == At(v, t, pd, b, AUTHZ_DISABLED)
  {
    ChildReplaced(v, t, k, c);
    StepReplaced(v, t, pd, k, c, b[0], AUTHZ_DISABLED);
    hide HasType, ChildShape, ChildDescriptor, StepStatus, Children, WithChild;
  }

  lemma BackInside(v: Value, t: Shape, pd: Descriptor, k: nat, c: Value, s: Segment, b: seq<Segment>)
    requires HasType(v, t) && k < |Children(v)| && HasType(c, ChildShape(v, t, k)) && b != []
    requires Slot(v, t, b[0]) == k == Slot(v, t, s) && StepStatus(v, t, pd, s, AUTHZ_DISABLED) == Ok
    requires HasType(WithChild(v, k, c), t) && At(WithChild(v, k, c), t, pd, b, AUTHZ_DISABLED).Found?
    ensures b[0] == s
    ensures At(WithChild(v, k, c), t, pd, b, AUTHZ_DISABLED)
         == At(c, ChildShape(v, t, k), ChildDescriptor(v, t, pd, k), b[1..], AUTHZ_DISABLED)
    ensures At(v, t, pd, b, AUTHZ_DISABLED)
         == At(Children(v)[k], ChildShape(v, t, k), ChildDescriptor(v, t, pd, k), b[1..], AUTHZ_DISABLED)
  {
    ChildReplaced(v, t, k, c);
    StepReplaced(v, t, pd, k, c, b[0], AUTHZ_DISABLED);
    FoundStep(WithChild(v, k, c), t, pd, b);
    SameSlot(v, t, pd, s, b[0], AUTHZ_DISABLED);
    hide HasType, ChildShape, ChildDescriptor, StepStatus, Children, WithChild;
  }

  lemma AppendBack(v: Value, t: Shape, pd: Descriptor, nv: Value, b: seq<Segment>)
    requires HasType(v, t) && t.TArray? && |v.items| + 1 < K_NONE && HasType(nv, t.element) && b != []
    ensures HasType(Array(v.items + [nv]), t) && Put(v, t, [APPEND], nv) == Array(v.items + [nv])
    ensures !([Index(|v.items|)] <= b) ==>
              At(Array(v.items + [nv]), t, pd, b, AUTHZ_DISABLED).Found? ==>
                At(v, t, pd, b, AUTHZ_DISABLED) == At(Array(v.items + [nv]), t, pd, b, AUTHZ_DISABLED)
  {
    if b[0].Index? && b[0].i < |v.items| {
      assert (v.items + [nv])[b[0].i] == v.items[b[0].i];
    } else if b[0] == Index(|v.items|) {
      assert [b[0]] <= b;
    }
  }

  /** Away from the written path, whatever was found before a write is found after it. */
  lemma AtForward(v: Value, t: Shape, pd: Descriptor, p: seq<Segment>, nv: Value, b: seq<Segment>)
    requires HasType(v, t) && Writes(v, t, pd, p, nv)
    requires At(v, t, pd, b, AUTHZ_DISABLED).Found? && !(p <= b)
    ensures HasType(Put(v, t, p, nv), t)
    ensures var before, after := At(v, t, pd, b, AUTHZ_DISABLED), At(Put(v, t, p, nv), t, pd, b, AUTHZ_DISABLED);
            && after.Found? && before.t == after.t && before.pd == after.pd && HasType(before.v, before.t)
            && (!(b <= p) ==> before.v == after.v)
            && (b <= p ==> after.v == Put(before.v, before.t, p[|b|..], nv))
            && (b <= p ==> Target(before.v, before.t, before.pd, p[|b|..], AUTHZ_DISABLED)
                           == Target(v, t, pd, p, AUTHZ_DISABLED))
  {
    PutTyped(v, t, pd, p, AUTHZ_DISABLED, nv);
    FoundTyped(v, t, pd, b, AUTHZ_DISABLED);
    hide Target, Addressable, HasType, At, Put;
    if b <= p {
      assert p == b + p[|b|..];
      AtAncestor(v, t, pd, b, p[|b|..], AUTHZ_DISABLED, nv);
    } else {
      AtUnaffected(v, t, pd, p, b, AUTHZ_DISABLED, nv);
    }
  }

  /** At its place the written value is found... */
  lemma {:induction false} AtPlace(v: Value, t: Shape, pd: Descriptor, p: seq<Segment>, nv: Value)
    requires HasType(v, t) && Writes(v, t, pd, p, nv)
    ensures HasType(Put(v, t, p, nv), t)
    ensures var target := Target(v, t, pd, p, AUTHZ_DISABLED).value;
            At(Put(v, t, p, nv), t, pd, Place(v, t, p), AUTHZ_DISABLED) == Found(target.0, target.1, nv)
    decreases |p|
  {
    PutTyped(v, t, pd, p, AUTHZ_DISABLED, nv);
    if p == [APPEND] && t.TArray? {
      AppendTarget(v, t, pd, AUTHZ_DISABLED);
      LastFound(v, t, pd, nv);
    } else if p != [] {
      WritesStep(v, t, pd, p, nv);
      hide Writes, Target, HasType, ChildShape, ChildDescriptor, StepStatus, Put, Children;
      var k := Slot(v, t, p[0]);
      var c, ct := Children(v)[k], ChildShape(v, t, k);
      var below := Put(c, ct, p[1..], nv);
      ChildReplaced(v, t, k, below);
      StepReplaced(v, t, pd, k, below, p[0], AUTHZ_DISABLED);
      AtPlace(c, ct, ChildDescriptor(v, t, pd, k), p[1..], nv);
      var place := Place(v, t, p);
      assert place[1..] == Place(c, ct, p[1..]) && place[0] == p[0];
      PlaceEmpty(c, ct, p[1..]);
      ElementShape(v, t, k);
    }
  }

  lemma PlaceEmpty(v: Value, t: Shape, p: seq<Segment>)
    requires HasType(v, t)
    ensures Place(v, t, p) == [] <==> p == []
  {
  }

  lemma ElementShape(v: Value, t: Shape, k: nat)
    requires HasType(v, t) && k < |Children(v)|
    ensures t.TArray? ==> ChildShape(v, t, k) == t.element
  {
  }

  lemma LastFound(v: Value, t: Shape, pd: Descriptor, nv: Value)
    requires HasType(v, t) && t.TArray? && |v.items| + 1 < K_NONE && HasType(nv, t.element)
    ensures HasType(Array(v.items + [nv]), t)
    ensures At(Array(v.items + [nv]), t, pd, [Index(|v.items|)], AUTHZ_DISABLED) == Found(t.element, pd, nv)
  {
    var v', p := Array(v.items + [nv]), [Index(|v.items|)];
    assert p[1..] == [];
    assert StepStatus(v', t, pd, p[0], AUTHZ_DISABLED) == Ok && Slot(v', t, p[0]) == |v.items|;
    assert At(v'.items[|v.items|], t.element, pd, p[1..], AUTHZ_DISABLED) == Found(t.element, pd, nv);
  }

  /** ... and what lies below a param is what lies below it wherever it is. */
  lemma {:induction false} AtJoin(v: Value, t: Shape, pd: Descriptor, p: seq<Segment>, r: seq<Segment>)
    requires HasType(v, t) && At(v, t, pd, p + r, AUTHZ_DISABLED).Found?
    ensures var nav := At(v, t, pd, p, AUTHZ_DISABLED);
            && nav.Found? && HasType(nav.v, nav.t)
            && At(nav.v, nav.t, nav.pd, r, AUTHZ_DISABLED) == At(v, t, pd, p + r, AUTHZ_DISABLED)
    decreases |p|
  {
    if p == [] {
      assert p + r == r;
    } else {
      var k := Slot(v, t, p[0]);
      assert (p + r)[1..] == p[1..] + r && (p + r)[0] == p[0];
      AtJoin(Children(v)[k], ChildShape(v, t, k), ChildDescriptor(v, t, pd, k), p[1..], r);
    }
  }

  /** The place of an append is the first index its array does not have; any other write goes
      where its path leads. */
  lemma {:induction false} PlaceAppend(v: Value, t: Shape, pd: Descriptor, b: seq<Segment>, nv: Value)
    requires HasType(v, t) && Writes(v, t, pd, b + [APPEND], nv)
    ensures var nav := At(v, t, pd, b, AUTHZ_DISABLED);
            && nav.Found? && nav.t.TArray? && nav.v.Array?
            && Place(v, t, b + [APPEND]) == b + [Index(|nav.v.items|)]
    decreases |b|
  {
    var p := b + [APPEND];
    if b == [] {
      assert p == [APPEND] && p[..0] == [];
      PlaceHere(v, t, pd, nv);
    } else {
      WritesStep(v, t, pd, p, nv);
      hide Writes, HasType, ChildShape, ChildDescriptor, StepStatus, Put, At, Target, Children, WithChild;
      var k := Slot(v, t, p[0]);
      hide Place;
      assert p[1..] == b[1..] + [APPEND] && p[0] == b[0];
      PlaceAppend(Children(v)[k], ChildShape(v, t, k), ChildDescriptor(v, t, pd, k), b[1..], nv);
      ElementShape(v, t, k);
      FoundStep(v, t, pd, b);
      HeadLast(b, Index(|At(v, t, pd, b, AUTHZ_DISABLED).v.items|));
    }
  }

  lemma HeadLast(b: seq<Segment>, s: Segment)
    requires b != []
    ensures [b[0]] + (b[1..] + [s]) == b + [s]
  {
  }

  lemma PlaceHere(v: Value, t: Shape, pd: Descriptor, nv: Value)
    requires HasType(v, t) && Writes(v, t, pd, [APPEND], nv)
    ensures t.TArray? && v.Array? && Place(v, t, [APPEND]) == [Index(|v.items|)]
    ensures At(v, t, pd, [], AUTHZ_DISABLED) == Found(t, pd, v)
  {
    assert [APPEND][..0] == [];
  }

  lemma {:induction false} PlacePlain(v: Value, t: Shape, pd: Descriptor, p: seq<Segment>, nv: Value)
    requires HasType(v, t) && Writes(v, t, pd, p, nv) && !IsAppend(p)
    ensures Place(v, t, p) == p
    decreases |p|
  {
    if p != [] {
      WritesStep(v, t, pd, p, nv);
      hide Writes, HasType, ChildShape, ChildDescriptor, StepStatus, Put, At, Target, Children, WithChild, Place;
      var k := Slot(v, t, p[0]);
      PlacePlain(Children(v)[k], ChildShape(v, t, k), ChildDescriptor(v, t, pd, k), p[1..], nv);
      assert p == [p[0]] + p[1..];
    }
  }

  /** No path that leads somewhere goes through the end of an array. */
  lemma {:induction false} NoEnd(v: Value, t: Shape, pd: Descriptor, b: seq<Segment>)
    requires HasType(v, t) && At(v, t, pd, b, AUTHZ_DISABLED).Found?
    ensures APPEND !in b
    decreases |b|
  {
    if b != [] {
      FoundStep(v, t, pd, b);
      var k := Slot(v, t, b[0]);
      NoEnd(Children(v)[k], ChildShape(v, t, k), ChildDescriptor(v, t, pd, k), b[1..]);
      assert b == [b[0]] + b[1..];
    }
  }

  // ------------------------------------------------------------- the trackers

  /** The lengths that the writes of a batch leave in the array at `b`: those to its elements
      replayed one after the other. */
  function Replayed(tr: Trackers, b: seq<Segment>, es: seq<Entry>): (after: Trackers)
    requires |tr.lengths| == tr.count
    ensures |after.lengths| == after.count
    decreases |es|
  {
    if es == [] then tr else Replayed(ReplayOne(tr, b, es[0]), b, es[1..])
  }

  predicate IsElementOf(b: seq<Segment>, p: seq<Segment>) { EndsInIndex(p) && ParentOf(p) == b }

  function ReplayOne(tr: Trackers, b: seq<Segment>, e: Entry): (after: Trackers)
    requires |tr.lengths| == tr.count
    ensures |after.lengths| == after.count
  {
    var p := PathOf(e);
    if IsElementOf(b, p) && (IndexOf(p) == K_END || IndexOf(p) < tr.count)
    then Replay(tr, IndexOf(p), WireSize(e.value))
    else tr
  }

  /** If `b` leads to an array of strings, the strings it would hold after the batch are not
      too long together. All of this can be computed before the batch. */
  ghost predicate TotalFits(root: Value, t: Shape, b: seq<Segment>, es: seq<Entry>)
    requires HasType(root, t)
  {
    var nav := At(root, t, RootDescriptor(t), b, AUTHZ_DISABLED);
    nav.Found? && nav.t.TArray? && nav.t.element.TString? && nav.v.Array? ==>
      Sum(Replayed(Trackers(|nav.v.items|, Sizes(nav.v.items)), b, es).lengths) <= nav.pd.totalLength
  }

  /** The batch replaces what is at `b`, or something around it. */
  ghost predicate Covered(b: seq<Segment>, es: seq<Entry>) {
    exists e <- es :: PathOf(e) <= b
  }

  ghost predicate Goal(root: Value, t: Shape, b: seq<Segment>, es: seq<Entry>)
    requires HasType(root, t)
  {
    Covered(b, es) || TotalFits(root, t, b, es)
  }

  lemma {:induction false} NothingReplayed(tr: Trackers, b: seq<Segment>, es: seq<Entry>)
    requires |tr.lengths| == tr.count
    requires forall i :: 0 <= i < |es| ==> !IsElementOf(b, PathOf(es[i]))
    ensures Replayed(tr, b, es) == tr
  {
    hide PathOf, IsElementOf;
    if es != [] {
      assert !IsElementOf(b, PathOf(es[0]));
      assert forall i :: 0 <= i < |es[1..]| ==> es[1..][i] == es[i + 1];
      NothingReplayed(tr, b, es[1..]);
    }
  }

  lemma ElementSize(w: Wire, pd: Descriptor, a: Authorizer)
    requires Valid(w, TString, pd, a) == Ok
    ensures Decode(w, TString, pd) == Str(w.s) && WireSize(w) == |w.s|
  {
  }

  // ------------------------------------------------------------------ one entry

  lemma TargetDisabled(root: Value, t: Shape, p: seq<Segment>, a: Authorizer)
    requires HasType(root, t) && Target(root, t, RootDescriptor(t), p, a).Some?
    ensures Target(root, t, RootDescriptor(t), p, AUTHZ_DISABLED) == Target(root, t, RootDescriptor(t), p, a)
    ensures Addressable(root, t, RootDescriptor(t), p, a) ==> Addressable(root, t, RootDescriptor(t), p, AUTHZ_DISABLED)
  {
    if p != [] && p[|p| - 1] == APPEND {
      AtDisabled(root, t, RootDescriptor(t), p[..|p| - 1], a);
    } else {
      AtDisabled(root, t, RootDescriptor(t), p, a);
    }
  }

  /** What the first entry of a batch writes. */
  lemma EntryWrites(root: Value, t: Shape, e: Entry, a: Authorizer) returns (after: Value, nv: Value)
    requires HasType(root, t) && WellFormed(t) && t.TStruct?
    requires Resolves(root, t, PathOf(e), e.value, a) && HasRoom(root, t, PathOf(e), a)
    ensures CommitEntry(root, t, PathOf(e), e.value, a) == Done(after, Ok) && HasType(after, t)
    ensures after == Put(root, t, PathOf(e), nv) && Writes(root, t, RootDescriptor(t), PathOf(e), nv)
    ensures var target := Target(root, t, RootDescriptor(t), PathOf(e), AUTHZ_DISABLED).value;
            && nv == Decode(e.value, target.0, target.1) && Valid(e.value, target.0, target.1, a) == Ok
            && HasType(nv, target.0) && Conforms(nv, target.0, target.1) && Describes(target.1, target.0)
  {
    hide WellFormed, HasType, Target, Put, Decode, Valid, At, Conforms, CommitEntry, HasRoom, Addressable, Describes;
    var p := PathOf(e);
    ResolvedCommits(root, t, p, e.value, a);
    WrittenTyped(root, t, p, e.value, a);
    TargetDisabled(root, t, p, a);
    TargetDescribed(root, t, p, a);
    var target := Target(root, t, RootDescriptor(t), p, a).value;
    nv := Decode(e.value, target.0, target.1);
    after := Put(root, t, p, nv);
  }

  /** Nothing was at the place of an append. */
  lemma PlaceWasEmpty(root: Value, t: Shape, p: seq<Segment>, nv: Value, b: seq<Segment>)
    requires HasType(root, t) && Writes(root, t, RootDescriptor(t), p, nv) && IsAppend(p) && Place(root, t, p) <= b
    ensures At(root, t, RootDescriptor(t), b, AUTHZ_DISABLED).Fail?
  {
    var rd, c, place := RootDescriptor(t), p[..|p| - 1], Place(root, t, p);
    assert c + [APPEND] == p;
    PlaceAppend(root, t, rd, c, nv);
    hide Writes, HasType, Place, At;
    if At(root, t, rd, b, AUTHZ_DISABLED).Found? {
      assert b == place + b[|place|..];
      AtJoin(root, t, rd, place, b[|place|..]);
      BehindTheEnd(root, t, rd, c);
    }
  }

  lemma BehindTheEnd(v: Value, t: Shape, pd: Descriptor, c: seq<Segment>)
    requires HasType(v, t) && At(v, t, pd, c, AUTHZ_DISABLED).Found? && At(v, t, pd, c, AUTHZ_DISABLED).v.Array?
    ensures At(v, t, pd, c + [Index(|At(v, t, pd, c, AUTHZ_DISABLED).v.items|)], AUTHZ_DISABLED).Fail?
  {
    var p := c + [Index(|At(v, t, pd, c, AUTHZ_DISABLED).v.items|)];
    if At(v, t, pd, p, AUTHZ_DISABLED).Found? {
      AtJoin(v, t, pd, c, [Index(|At(v, t, pd, c, AUTHZ_DISABLED).v.items|)]);
    }
  }

  /** Inside what the first entry writes no other entry writes elements. */
  lemma NoOtherElements(root: Value, t: Shape, es: seq<Entry>, nv: Value, b: seq<Segment>, e: Entry, a: Authorizer)
    requires HasType(root, t) && WellFormed(t) && es != [] && Consistent(root, t, es, a) && e in es
    requires Writes(root, t, RootDescriptor(t), PathOf(es[0]), nv) && Place(root, t, PathOf(es[0])) <= b
    ensures !IsElementOf(b, PathOf(e))
  {
    var p, q, rd := PathOf(es[0]), PathOf(e), RootDescriptor(t);
    assert es[0] in es && !(p < q) && Resolves(root, t, q, e.value, a);
    hide Consistent, Writes, Place, HasType, WellFormed, Target, At, PathOf, Valid;
    ElementBelow(b, q);
    if IsElementOf(b, q) {
      if IsAppend(p) {
        PlaceWasEmpty(root, t, p, nv, b);
        ParentFound(root, t, q, a);
      } else {
        PlacePlain(root, t, rd, p, nv);
      }
    }
  }

  lemma ParentFound(root: Value, t: Shape, q: seq<Segment>, a: Authorizer)
    requires HasType(root, t) && Target(root, t, RootDescriptor(t), q, a).Some? && EndsInIndex(q)
    ensures At(root, t, RootDescriptor(t), ParentOf(q), AUTHZ_DISABLED).Found?
  {
    if q[|q| - 1] != APPEND {
      assert ParentOf(q) + [q[|q| - 1]] == q;
      AtPrefix(root, t, RootDescriptor(t), ParentOf(q), [q[|q| - 1]], a);
    }
    AtDisabled(root, t, RootDescriptor(t), ParentOf(q), a);
  }

  /** Whatever is found inside a conforming value that was written conforms. */
  lemma InsideConforms(root: Value, t: Shape, p: seq<Segment>, after: Value, nv: Value, b: seq<Segment>)
    requires HasType(root, t)
    requires var rd := RootDescriptor(t);
             && Writes(root, t, rd, p, nv) && after == Put(root, t, p, nv) && HasType(after, t)
             && Place(root, t, p) <= b
             && var target := Target(root, t, rd, p, AUTHZ_DISABLED).value;
                Conforms(nv, target.0, target.1) && Describes(target.1, target.0)
    ensures PartOk(after, t, RootDescriptor(t), b, Both)
  {
    hide Place, HasType, Target, At, Conforms, Describes, Put, PartOk, Both;
    var rd := RootDescriptor(t);
    var target := Target(root, t, rd, p, AUTHZ_DISABLED).value;
    var place := Place(root, t, p);
    var r := b[|place|..];
    assert b == place + r;
    AtPlace(root, t, rd, p, nv);
    ConformsIffParts(nv, target.0, target.1);
    hide AllParts, Writes;
    APart(nv, target.0, target.1, r, Both);
    JoinedPart(after, t, rd, place, r, Both);
  }

  lemma APart(v: Value, t: Shape, pd: Descriptor, p: seq<Segment>, ok: Nav -> bool)
    requires HasType(v, t) && AllParts(v, t, pd, ok)
    ensures PartOk(v, t, pd, p, ok)
  {
  }

  lemma JoinedPart(v: Value, t: Shape, pd: Descriptor, p: seq<Segment>, r: seq<Segment>, ok: Nav -> bool)
    requires HasType(v, t)
    requires var nav := At(v, t, pd, p, AUTHZ_DISABLED);
             nav.Found? && HasType(nav.v, nav.t) && PartOk(nav.v, nav.t, nav.pd, r, ok)
    ensures PartOk(v, t, pd, p + r, ok)
  {
    hide HasType, At;
    if At(v, t, pd, p + r, AUTHZ_DISABLED).Found? { AtJoin(v, t, pd, p, r); }
  }

  /** Inside what was written the totals hold, and no later entry changes that. */
  lemma InsideFits(root: Value, t: Shape, es: seq<Entry>, after: Value, nv: Value, b: seq<Segment>, a: Authorizer)
    requires HasType(root, t) && WellFormed(t) && es != [] && Consistent(root, t, es, a)
    requires var p, rd := PathOf(es[0]), RootDescriptor(t);
             && Writes(root, t, rd, p, nv) && after == Put(root, t, p, nv) && HasType(after, t)
             && Place(root, t, p) <= b
             && var target := Target(root, t, rd, p, AUTHZ_DISABLED).value;
                Conforms(nv, target.0, target.1) && Describes(target.1, target.0)
    ensures TotalFits(after, t, b, es[1..])
  {
    hide Consistent, Writes, Place, HasType, WellFormed, Target, At, PathOf, Conforms, Describes, Put, IsElementOf;
    hide Replayed, Sizes, Sum, Single, Total;
    InsideConforms(root, t, PathOf(es[0]), after, nv, b);
    var nav := At(after, t, RootDescriptor(t), b, AUTHZ_DISABLED);
    if nav.Found? {
      FoundTyped(after, t, RootDescriptor(t), b, AUTHZ_DISABLED);
      forall i | 0 <= i < |es[1..]| ensures !IsElementOf(b, PathOf(es[1..][i])) {
        assert es[1..][i] == es[i + 1];
        NoOtherElements(root, t, es, nv, b, es[i + 1], a);
      }
      UnchangedFits(nav, b, es[1..]);
    }
  }

  lemma UnchangedFits(nav: Nav, b: seq<Segment>, es: seq<Entry>)
    requires nav.Found? && HasType(nav.v, nav.t) && Total(nav)
    requires forall i :: 0 <= i < |es| ==> !IsElementOf(b, PathOf(es[i]))
    ensures nav.t.TArray? && nav.t.element.TString? && nav.v.Array? ==>
              Sum(Replayed(Trackers(|nav.v.items|, Sizes(nav.v.items)), b, es).lengths) <= nav.pd.totalLength
  {
    if nav.t.TArray? && nav.t.element.TString? && nav.v.Array? {
      NothingReplayed(Trackers(|nav.v.items|, Sizes(nav.v.items)), b, es);
      DeviceSafety.SumOfSizes(nav.v.items);
    }
  }

  /** Beside the place the totals before and after the entry are the same question. */
  lemma BesideFits(root: Value, t: Shape, es: seq<Entry>, after: Value, nv: Value, b: seq<Segment>, a: Authorizer)
    requires HasType(root, t) && WellFormed(t) && es != []
    requires var p, rd := PathOf(es[0]), RootDescriptor(t);
             && Writes(root, t, rd, p, nv) && after == Put(root, t, p, nv) && HasType(after, t)
             && !(Place(root, t, p) <= b) && !(p <= b)
             && var target := Target(root, t, rd, p, AUTHZ_DISABLED).value;
                nv == Decode(es[0].value, target.0, target.1) && Valid(es[0].value, target.0, target.1, a) == Ok
    ensures TotalFits(after, t, b, es[1..]) <==> TotalFits(root, t, b, es)
  {
    hide HasType, WellFormed, Target, At, PathOf, Put, Writes, Place, Decode, Valid, Replayed, IsElementOf;
    var p, rd := PathOf(es[0]), RootDescriptor(t);
    var before, later := At(root, t, rd, b, AUTHZ_DISABLED), At(after, t, rd, b, AUTHZ_DISABLED);
    FoundArray(root, t, b);
    FoundArray(after, t, b);
    if later.Found? { AtBack(root, t, rd, p, nv, b); }
    if before.Found? {
      AtForward(root, t, rd, p, nv, b);
      if before.t.TArray? && before.t.element.TString? && before.v.Array? {
        if b <= p {
          ElementTracked(root, t, es[0], after, nv, b, a);
        } else {
          NotItsElement(b, p);
        }
        ReplayedFirst(Trackers(|before.v.items|, Sizes(before.v.items)), b, es);
      }
    }
  }

  lemma FoundArray(root: Value, t: Shape, b: seq<Segment>)
    requires HasType(root, t)
    ensures var nav := At(root, t, RootDescriptor(t), b, AUTHZ_DISABLED);
            nav.Found? ==> (nav.v.Array? <==> nav.t.TArray?)
  {
    if At(root, t, RootDescriptor(t), b, AUTHZ_DISABLED).Found? {
      FoundTyped(root, t, RootDescriptor(t), b, AUTHZ_DISABLED);
    }
  }

  lemma NotItsElement(b: seq<Segment>, p: seq<Segment>)
    requires !(b <= p)
    ensures !IsElementOf(b, p)
  {
  }

  lemma ReplayedFirst(tr: Trackers, b: seq<Segment>, es: seq<Entry>)
    requires es != [] && |tr.lengths| == tr.count
    ensures Replayed(tr, b, es) == Replayed(ReplayOne(tr, b, es[0]), b, es[1..])
  {
  }

  /** Replaying a write to an element of `b` tracks what the write does. */
  lemma ElementTracked(root: Value, t: Shape, e: Entry, after: Value, nv: Value, b: seq<Segment>, a: Authorizer)
    requires HasType(root, t) && WellFormed(t)
    requires var p, rd := PathOf(e), RootDescriptor(t);
             && Writes(root, t, rd, p, nv) && after == Put(root, t, p, nv) && HasType(after, t) && b <= p && !(p <= b)
             && var target := Target(root, t, rd, p, AUTHZ_DISABLED).value;
                nv == Decode(e.value, target.0, target.1) && Valid(e.value, target.0, target.1, a) == Ok
    requires var before := At(root, t, RootDescriptor(t), b, AUTHZ_DISABLED);
             before.Found? && before.t == TArray(TString) && before.v.Array?
    ensures var before := At(root, t, RootDescriptor(t), b, AUTHZ_DISABLED);
            var later := At(after, t, RootDescriptor(t), b, AUTHZ_DISABLED);
            && later.Found? && later.v.Array?
            && ReplayOne(Trackers(|before.v.items|, Sizes(before.v.items)), b, e)
               == Trackers(|later.v.items|, Sizes(later.v.items))
  {
    var p, rd := PathOf(e), RootDescriptor(t);
    var before := At(root, t, rd, b, AUTHZ_DISABLED);
    AtForward(root, t, rd, p, nv, b);
    hide WellFormed, Put, Writes, Place, At, HasType;
    StringTracked(before.v, before.pd, p[|b|..], e.value, nv, a);
    assert p[|b|..] == [p[|b|]] && |p| == |b| + 1;
    assert ParentOf(p) == b;
  }

  lemma StringTracked(v: Value, pd: Descriptor, r: seq<Segment>, w: Wire, nv: Value, a: Authorizer)
    requires HasType(v, TArray(TString)) && v.Array? && r != []
    requires var target := Target(v, TArray(TString), pd, r, AUTHZ_DISABLED);
             && target.Some? && nv == Decode(w, target.value.0, target.value.1)
             && Valid(w, target.value.0, target.value.1, a) == Ok
    ensures |r| == 1 && r[0].Index? && (r[0].i == K_END || r[0].i < |v.items|)
    ensures var later := Put(v, TArray(TString), r, nv);
            && later.Array?
            && Replay(Trackers(|v.items|, Sizes(v.items)), r[0].i, WireSize(w))
               == Trackers(|later.items|, Sizes(later.items))
  {
    var t := TArray(TString);
    if r == [APPEND] {
      AppendTarget(v, t, pd, AUTHZ_DISABLED);
      ElementSize(w, pd, a);
      assert Sizes(v.items + [nv]) == Sizes(v.items) + [WireSize(w)];
    } else {
      TargetStep(v, t, pd, r, AUTHZ_DISABLED);
      var k := Slot(v, t, r[0]);
      if |r| > 1 { LeafHasNoTarget(v.items[k], TString, pd, r[1..], AUTHZ_DISABLED); }
      assert r[1..] == [];
      ElementSize(w, pd, a);
      assert Sizes(v.items[k := nv]) == Sizes(v.items)[k := WireSize(w)];
    }
  }

  /** One entry on: at every path the question for the rest of the batch is the question for
      the whole of it. */
  lemma StepGoal(root: Value, t: Shape, es: seq<Entry>, after: Value, nv: Value, b: seq<Segment>, a: Authorizer)
    requires HasType(root, t) && WellFormed(t) && es != [] && Consistent(root, t, es, a)
    requires var p, rd := PathOf(es[0]), RootDescriptor(t);
             && Writes(root, t, rd, p, nv) && after == Put(root, t, p, nv) && HasType(after, t)
             && var target := Target(root, t, rd, p, AUTHZ_DISABLED).value;
                && Conforms(nv, target.0, target.1) && Describes(target.1, target.0)
                && nv == Decode(es[0].value, target.0, target.1) && Valid(es[0].value, target.0, target.1, a) == Ok
    ensures Goal(after, t, b, es[1..]) <==> Goal(root, t, b, es)
  {
    hide Consistent, Writes, Place, HasType, WellFormed, Target, At, PathOf, Conforms, Describes, Put, Decode, Valid;
    hide TotalFits, Covered;
    var p, rd := PathOf(es[0]), RootDescriptor(t);
    CoveredFirst(b, es);
    if Place(root, t, p) <= b {
      InsideFits(root, t, es, after, nv, b, a);
      if IsAppend(p) {
        PlaceWasEmpty(root, t, p, nv, b);
        NothingFits(root, t, b, es);
      } else {
        PlacePlain(root, t, rd, p, nv);
      }
    } else if p <= b {
      PlainOrAppend(root, t, p, nv, b);
      NowhereFits(after, t, b, es[1..]);
    } else {
      BesideFits(root, t, es, after, nv, b, a);
    }
  }

  lemma CoveredFirst(b: seq<Segment>, es: seq<Entry>)
    requires es != []
    ensures Covered(b, es) <==> PathOf(es[0]) <= b || Covered(b, es[1..])
  {
    hide PathOf;
    assert es == [es[0]] + es[1..];
  }

  lemma NothingFits(root: Value, t: Shape, b: seq<Segment>, es: seq<Entry>)
    requires HasType(root, t) && At(root, t, RootDescriptor(t), b, AUTHZ_DISABLED).Fail?
    ensures TotalFits(root, t, b, es)
  {
  }

  lemma PlainOrAppend(root: Value, t: Shape, p: seq<Segment>, nv: Value, b: seq<Segment>)
    requires HasType(root, t) && Writes(root, t, RootDescriptor(t), p, nv) && p <= b && !(Place(root, t, p) <= b)
    ensures APPEND in b
  {
    if IsAppend(p) {
      assert b[|p| - 1] == APPEND;
    } else {
      PlacePlain(root, t, RootDescriptor(t), p, nv);
    }
  }

  lemma NowhereFits(root: Value, t: Shape, b: seq<Segment>, es: seq<Entry>)
    requires HasType(root, t) && APPEND in b
    ensures TotalFits(root, t, b, es)
  {
    if At(root, t, RootDescriptor(t), b, AUTHZ_DISABLED).Found? { NoEnd(root, t, RootDescriptor(t), b); }
  }

  // ---------------------------------------------------- everything but the totals

  /** A write with room keeps whatever a param has to meet for itself. */
  lemma SingleKept(root: Value, t: Shape, p: seq<Segment>, after: Value, nv: Value, a: Authorizer)
    requires HasType(root, t) && AllParts(root, t, RootDescriptor(t), Single) && HasRoom(root, t, p, a)
    requires Target(root, t, RootDescriptor(t), p, a).Some?
    requires var rd := RootDescriptor(t);
             && Writes(root, t, rd, p, nv) && after == Put(root, t, p, nv) && HasType(after, t)
             && var target := Target(root, t, rd, p, AUTHZ_DISABLED).value;
                Conforms(nv, target.0, target.1) && Describes(target.1, target.0)
    ensures AllParts(after, t, RootDescriptor(t), Single)
  {
    forall b ensures PartOk(after, t, RootDescriptor(t), b, Single) {
      assert PartOk(root, t, RootDescriptor(t), b, Single);
      SinglePart(root, t, p, after, nv, b, a);
    }
  }

  lemma SinglePart(root: Value, t: Shape, p: seq<Segment>, after: Value, nv: Value, b: seq<Segment>, a: Authorizer)
    requires HasType(root, t) && PartOk(root, t, RootDescriptor(t), b, Single) && HasRoom(root, t, p, a)
    requires Target(root, t, RootDescriptor(t), p, a).Some?
    requires var rd := RootDescriptor(t);
             && Writes(root, t, rd, p, nv) && after == Put(root, t, p, nv) && HasType(after, t)
             && var target := Target(root, t, rd, p, AUTHZ_DISABLED).value;
                Conforms(nv, target.0, target.1) && Describes(target.1, target.0)
    ensures PartOk(after, t, RootDescriptor(t), b, Single)
  {
    var rd := RootDescriptor(t);
    var later := At(after, t, rd, b, AUTHZ_DISABLED);
    hide Writes, Place, HasType, WellFormed, Target, At, Conforms, Describes, Put, HasRoom, Single;
    if Place(root, t, p) <= b {
      InsideConforms(root, t, p, after, nv, b);
    } else if later.Found? {
      AtBack(root, t, rd, p, nv, b);
      if p <= b {
        PlainOrAppend(root, t, p, nv, b);
        NoEnd(after, t, rd, b);
      } else {
        AtForward(root, t, rd, p, nv, b);
        if b <= p {
          var before := At(root, t, rd, b, AUTHZ_DISABLED);
          AroundKept(root, t, p, nv, b, a);
          SingleAround(before, p[|b|..], nv);
        }
      }
    }
  }

  /** An append around which there was room leaves room for what it added. */
  lemma AroundKept(root: Value, t: Shape, p: seq<Segment>, nv: Value, b: seq<Segment>, a: Authorizer)
    requires HasType(root, t) && HasRoom(root, t, p, a) && b <= p && !(p <= b)
    requires Target(root, t, RootDescriptor(t), p, a).Some?
    requires At(root, t, RootDescriptor(t), b, AUTHZ_DISABLED).Found?
    ensures var before := At(root, t, RootDescriptor(t), b, AUTHZ_DISABLED);
            p[|b|..] == [APPEND] && before.v.Array? ==> |before.v.items| < before.pd.maxLength
  {
    if p[|b|..] == [APPEND] {
      assert p == b + [APPEND];
      AtDisabled(root, t, RootDescriptor(t), b, a);
    }
  }

  lemma SingleAround(before: Nav, r: seq<Segment>, nv: Value)
    requires before.Found? && HasType(before.v, before.t) && r != []
    requires Target(before.v, before.t, before.pd, r, AUTHZ_DISABLED).Some?
    requires r == [APPEND] && before.v.Array? ==> |before.v.items| < before.pd.maxLength
    ensures Single(before) ==> Single(Found(before.t, before.pd, Put(before.v, before.t, r, nv)))
  {
    LeafHasNoTarget(before.v, before.t, before.pd, r, AUTHZ_DISABLED);
    if before.t.TArray? && r != [APPEND] { PutKeepsLength(before.v, before.t, r, nv); }
  }

  // ------------------------------------------------------------------- the batch

  /** From a device whose params meet what concerns them alone, a consistent batch with room
      ends conforming exactly if the totals fit. */
  lemma {:induction false} CommitConformsIff(root: Value, t: Shape, es: seq<Entry>, a: Authorizer)
    requires HasType(root, t) && WellFormed(t) && t.TStruct?
    requires Consistent(root, t, es, a) && AppendsFit(root, t, es, a) && AllParts(root, t, RootDescriptor(t), Single)
    ensures Conforms(Commit(root, t, es, Ok, a).root, t, RootDescriptor(t)) <==> forall b :: Goal(root, t, b, es)
    decreases |es|
  {
    var rd := RootDescriptor(t);
    if es == [] {
      NothingCommitted(root, t, a);
    } else {
      hide WellFormed, HasType, Resolves, Goal, Conforms, CommitEntry, Writes, Put, Target, Valid, Describes, AllParts;
      var p := PathOf(es[0]);
      FirstResolves(root, t, es, a);
      FirstHasRoom(root, t, es, a);
      var after', nv := EntryWrites(root, t, es[0], a);
      var after := StepConsistent(root, t, es, a);
      AppendFitsStep(root, after, t, es, a);
      SingleKept(root, t, p, after, nv, a);
      CommitFirst(root, t, es, after, a);
      CommitConformsIff(after, t, es[1..], a);
      forall b ensures Goal(after, t, b, es[1..]) <==> Goal(root, t, b, es) {
        StepGoal(root, t, es, after, nv, b, a);
      }
    }
  }

  lemma FirstResolves(root: Value, t: Shape, es: seq<Entry>, a: Authorizer)
    requires HasType(root, t) && es != [] && Consistent(root, t, es, a)
    ensures Resolves(root, t, PathOf(es[0]), es[0].value, a)
    ensures Parse(es[0].oid).Parsed? && Target(root, t, RootDescriptor(t), PathOf(es[0]), a).Some?
  {
    assert es[0] in es;
  }

  lemma CommitFirst(root: Value, t: Shape, es: seq<Entry>, after: Value, a: Authorizer)
    requires HasType(root, t) && WellFormed(t) && HasType(after, t) && es != [] && Parse(es[0].oid).Parsed?
    requires CommitEntry(root, t, PathOf(es[0]), es[0].value, a) == Done(after, Ok)
    ensures Commit(root, t, es, Ok, a) == Commit(after, t, es[1..], Ok, a)
  {
    hide HasType, WellFormed, CommitEntry;
  }

  lemma NothingCommitted(root: Value, t: Shape, a: Authorizer)
    requires HasType(root, t) && WellFormed(t) && AllParts(root, t, RootDescriptor(t), Single)
    ensures Commit(root, t, [], Ok, a).root == root
    ensures Conforms(root, t, RootDescriptor(t)) <==> forall b :: Goal(root, t, b, [])
  {
    var rd := RootDescriptor(t);
    RootDescribed(t);
    ConformsIffParts(root, t, rd);
    hide HasType, WellFormed, Conforms, Describes, At;
    forall b ensures PartOk(root, t, rd, b, Both) <==> Goal(root, t, b, []) {
      assert PartOk(root, t, rd, b, Single);
      TotalNow(root, t, b);
    }
  }

  lemma TotalNow(root: Value, t: Shape, b: seq<Segment>)
    requires HasType(root, t)
    ensures var nav := At(root, t, RootDescriptor(t), b, AUTHZ_DISABLED);
            nav.Found? ==> (Total(nav) <==> TotalFits(root, t, b, []))
  {
    var nav := At(root, t, RootDescriptor(t), b, AUTHZ_DISABLED);
    if nav.Found? {
      FoundTyped(root, t, RootDescriptor(t), b, AUTHZ_DISABLED);
      hide At;
      if nav.t.TArray? && nav.t.element.TString? && nav.v.Array? { DeviceSafety.SumOfSizes(nav.v.items); }
    }
  }

  /** Where a batch replaces a whole array it writes no elements of it. */
  lemma CoveredFits(root: Value, t: Shape, es: seq<Entry>, b: seq<Segment>)
    requires HasType(root, t) && NoneInside(es)
    requires PartOk(root, t, RootDescriptor(t), b, Both) && Covered(b, es)
    ensures TotalFits(root, t, b, es)
  {
    var nav := At(root, t, RootDescriptor(t), b, AUTHZ_DISABLED);
    if nav.Found? {
      FoundTyped(root, t, RootDescriptor(t), b, AUTHZ_DISABLED);
      forall i | 0 <= i < |es| ensures !IsElementOf(b, PathOf(es[i])) { CoverApart(es, i, b); }
      hide HasType, At, NoneInside, IsElementOf, PathOf;
      UnchangedFits(nav, b, es);
    }
  }

  lemma CoverApart(es: seq<Entry>, i: nat, b: seq<Segment>)
    requires NoneInside(es) && Covered(b, es) && i < |es|
    ensures !IsElementOf(b, PathOf(es[i]))
  {
    hide PathOf;
    var q := PathOf(es[i]);
    var e :| e in es && PathOf(e) <= b;
    assert es[i] in es && !(PathOf(e) < q);
    ElementBelow(b, q);
  }

  lemma ElementBelow(b: seq<Segment>, q: seq<Segment>)
    ensures IsElementOf(b, q) ==> b < q
  {
  }

  /** A batch that a conforming device accepts and that commits leaves it conforming exactly
      if for every array of strings the lengths fit that its writes leave there, replayed one
      after the other from the array as it was. */
  lemma BatchConformsIff(root: Value, t: Shape, es: seq<Entry>, multiSet: bool, a: Authorizer)
    requires HasType(root, t) && WellFormed(t) && t.TStruct? && Conforms(root, t, RootDescriptor(t))
    requires Try(root, t, es, multiSet, Ok, a) == Returned(Ok) && NoneInside(es)
    requires NoSentinel(es) && AppendsFit(root, t, es, a)
    ensures var outcome := Commit(root, t, es, Ok, a);
            && outcome.Done? && outcome.status == Ok
            && (Conforms(outcome.root, t, RootDescriptor(t)) <==> forall b :: TotalFits(root, t, b, es))
  {
    var rd := RootDescriptor(t);
    TryIff(root, t, es, multiSet, Ok, a);
    AcceptableConsistent(root, t, es, a);
    CommitIff(root, t, es, a);
    RootDescribed(t);
    ConformsIffParts(root, t, rd);
    hide HasType, WellFormed, Conforms, Describes, At, Commit, Try, Consistent, AppendsFit, TotalFits, Covered;
    forall b ensures PartOk(root, t, rd, b, Single) { assert PartOk(root, t, rd, b, Both); }
    CommitConformsIff(root, t, es, a);
    forall b ensures Goal(root, t, b, es) <==> TotalFits(root, t, b, es) {
      assert PartOk(root, t, rd, b, Both);
      if Covered(b, es) { CoveredFits(root, t, es, b); }
    }
  }
}

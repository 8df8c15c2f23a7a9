/** The parameter engine as it runs: `Device` owns the values, `ParamWithValue` refers
    into them, and the methods below navigate, validate and write step by step.
    Each is proved against the functions of `Transactions`. */
module DeviceModel {
  import opened Types
  import opened StructInfo
  import opened CodecProperties
  import opened Navigation
  import opened Paths
  import opened Transactions
  import opened BatchProperties

  // -------------------------------------------------- references into a value

  /** Filling in the element just appended is the same as appending it filled in. */
  lemma {:induction false} FillAppended(v: Value, t: Shape, pd: Descriptor, b: seq<Segment>, a: Authorizer,
                                        d: Value, nv: Value)
    requires HasType(v, t) && At(v, t, pd, b, a).Found? && At(v, t, pd, b, a).t.TArray?
    requires var nav := At(v, t, pd, b, a);
      HasType(nav.v, nav.t) && |nav.v.items| + 1 < K_NONE && HasType(d, nav.t.element) && HasType(nv, nav.t.element)
    ensures var n := |At(v, t, pd, b, a).v.items|;
            && HasType(Put(v, t, b + [APPEND], d), t)
            && Put(Put(v, t, b + [APPEND], d), t, b + [Index(n)], nv) == Put(v, t, b + [APPEND], nv)
    decreases |b|
  {
    hide Target, StepStatus, ChildDescriptor, Put;
    var n := |At(v, t, pd, b, a).v.items|;
    if b == [] {
      assert b + [APPEND] == [APPEND] && b + [Index(n)] == [Index(n)];
      FillLast(v, t, d, nv);
    } else {
      hide HasType, Children, ChildShape, Slot;
      var k := Slot(v, t, b[0]);
      FillAppended(Children(v)[k], ChildShape(v, t, k), ChildDescriptor(v, t, pd, k), b[1..], a, d, nv);
      FillInside(v, t, b, n, d, nv);
    }
  }

  lemma FillInside(v: Value, t: Shape, b: seq<Segment>, n: nat, d: Value, nv: Value)
    requires HasType(v, t) && b != [] && Slot(v, t, b[0]) < |Children(v)|
    requires var k := Slot(v, t, b[0]);
             var c, ct := Children(v)[k], ChildShape(v, t, k);
             && HasType(Put(c, ct, b[1..] + [APPEND], d), ct)
             && Put(Put(c, ct, b[1..] + [APPEND], d), ct, b[1..] + [Index(n)], nv) == Put(c, ct, b[1..] + [APPEND], nv)
    ensures HasType(Put(v, t, b + [APPEND], d), t)
    ensures Put(Put(v, t, b + [APPEND], d), t, b + [Index(n)], nv) == Put(v, t, b + [APPEND], nv)
  {
    hide HasType, Children, ChildShape, Slot, Put, WithChild;
    var p, q := b + [APPEND], b + [Index(n)];
    assert p[0] == q[0] == b[0] && p[1..] == b[1..] + [APPEND] && q[1..] == b[1..] + [Index(n)];
    assert p != [APPEND] && q != [APPEND];
    TwoPuts(v, t, p, q, d, nv);
    PutStep(v, t, p, nv);
  }

  lemma FillLast(v: Value, t: Shape, d: Value, nv: Value)
    requires HasType(v, t) && t.TArray? && |v.items| + 1 < K_NONE && HasType(d, t.element)
    ensures HasType(Put(v, t, [APPEND], d), t)
    ensures Put(Put(v, t, [APPEND], d), t, [Index(|v.items|)], nv) == Put(v, t, [APPEND], nv)
  {
    assert [Index(|v.items|)][1..] == [];
    assert (v.items + [d])[|v.items| := nv] == v.items + [nv];
  }

  lemma AppendThenFill(root: Value, t: Shape, p: seq<Segment>, a: Authorizer, d: Value, nv: Value)
    requires HasType(root, t) && WellFormed(t) && IsAppend(p)
    requires Target(root, t, RootDescriptor(t), p, a).Some? && Addressable(root, t, RootDescriptor(t), p, a)
    requires HasType(d, Target(root, t, RootDescriptor(t), p, a).value.0)
    requires HasType(nv, Target(root, t, RootDescriptor(t), p, a).value.0)
    ensures HasType(Put(root, t, p, d), t)
    ensures Put(Put(root, t, p, d), t, ParentOf(p) + [Index(Length(root, t, p, a))], nv) == Put(root, t, p, nv)
  {
    assert ParentOf(p) + [APPEND] == p;
    RootDescribed(t);
    AtTyped(root, t, RootDescriptor(t), ParentOf(p), a);
    FillAppended(root, t, RootDescriptor(t), ParentOf(p), a, d, nv);
  }

  // ------------------------------------------------------------------- params

  class ParamWithValue {
    const dev: Device
    /** Where in the device the referenced value is. */
    const loc: seq<Segment>
    const t: Shape
    const pd: Descriptor
    var mSizeTracker: Option<nat>
    var tSizeTracker: Option<seq<nat>>

    constructor (dev: Device, loc: seq<Segment>, t: Shape, pd: Descriptor)
      ensures this.dev == dev && this.loc == loc && this.t == t && this.pd == pd
      ensures mSizeTracker == None && tSizeTracker == None
    {
      this.dev, this.loc, this.t, this.pd := dev, loc, t, pd;
      mSizeTracker, tSizeTracker := None, None;
    }

    /** The reference is not dangling, and what it refers to has the param's type. */
    ghost predicate Live()
      reads dev
    {
      dev.Valid() &&
      var nav := At(dev.Root(), dev.Model(), RootDescriptor(dev.Model()), loc, AUTHZ_DISABLED);
      nav.Found? && nav.t == t && nav.pd == pd && HasType(nav.v, t) && Describes(pd, t)
    }

    function Get(): (v: Value)
      requires Live()
      reads dev
      ensures HasType(v, t)
    {
      At(dev.Root(), dev.Model(), RootDescriptor(dev.Model()), loc, AUTHZ_DISABLED).v
    }

    /** `getParam` and the `getParam_` overloads: consumes the path segment by segment. */
    method GetParam(oid: Path, a: Authorizer) returns (child: ParamWithValue?, status: Status)
      requires Live() && oid.Valid() && oid.Rest() != []
      modifies oid`frontIdx
      ensures oid.Valid() && (child != null ==> oid.Rest() == [])
      ensures var nav := if a.ReadAuthz(pd) then At(Get(), t, pd, old(oid.Rest()), a) else Fail(PermissionDenied);
              && (child != null <==> nav.Found?)
              && (child == null ==> status == nav.status)
              && (child != null ==>
                    && fresh(child) && child.dev == dev && child.loc == loc + old(oid.Rest())
                    && child.mSizeTracker == None && child.tSizeTracker == None
                    && child.Live() && Found(child.t, child.pd, child.Get()) == nav)
      decreases |oid.segments| - oid.frontIdx
    {
      hide Describes, HasType, Slot, Children;
      if !a.ReadAuthz(pd) { return null, PermissionDenied; }
      ghost var rest := oid.Rest();
      child, status := Step(oid);
      StepAuthorised(Get(), t, pd, rest[0], a);
      if child != null {
        assert rest == [rest[0]] + oid.Rest();
        assert loc + [rest[0]] + oid.Rest() == loc + rest;
        if t.TArray? && !oid.IsEmpty() && IsLeaf(t.element) {
          child, status := null, NotFound;
        } else if !oid.IsEmpty() {
          child, status := child.GetParam(oid, a);
        } else if !t.TArray? && !a.ReadAuthz(child.pd) {
          child, status := null, PermissionDenied;
        }
      }
    }

    /** The part of `getParam_` that differs between vectors, structs, variants and
        the rest: pops a segment and refers to the child it names. */
    method Step(oid: Path) returns (child: ParamWithValue?, status: Status)
      requires Live() && oid.Valid() && oid.Rest() != []
      modifies oid`frontIdx
      ensures oid.Valid()
      ensures status == StepStatus(Get(), t, pd, old(oid.Rest())[0], AUTHZ_DISABLED)
      ensures child != null <==> status == Ok
      ensures child != null ==>
        && var k := Slot(Get(), t, old(oid.Rest())[0]);
        && oid.frontIdx == old(oid.frontIdx) + 1 && oid.Rest() == old(oid.Rest())[1..]
        && fresh(child) && child.dev == dev && child.loc == loc + old(oid.Rest())[..1]
        && child.mSizeTracker == None && child.tSizeTracker == None
        && child.Live() && k < |Children(Get())|
        && child.t == ChildShape(Get(), t, k) && child.pd == ChildDescriptor(Get(), t, pd, k)
        && child.Get() == Children(Get())[k]
    {
      hide StepStatus, Slot, HasType, Describes, At;
      child := null;
      ghost var segment := oid.Rest()[0];
      var value, k := Get(), 0;
      status, k := PopChild(oid);
      if status == Ok {
        ChildLive(segment, k);
        var last := oid.segments[oid.frontIdx - 1];
        child := new ParamWithValue(dev, loc + [last], ChildShape(value, t, k), ChildDescriptor(value, t, pd, k));
      }
    }

    /** Which child the front of the path names. */
    method PopChild(oid: Path) returns (status: Status, k: nat)
      requires Live() && oid.Valid() && oid.Rest() != []
      modifies oid`frontIdx
      ensures oid.Valid()
      ensures status == StepStatus(Get(), t, pd, old(oid.Rest())[0], AUTHZ_DISABLED)
      ensures status == Ok ==>
        && k == Slot(Get(), t, old(oid.Rest())[0])
        && oid.frontIdx == old(oid.frontIdx) + 1 && oid.Rest() == old(oid.Rest())[1..]
    {
      hide Describes, At;
      var value := Get();
      status, k := Ok, 0;
      if t.TArray? {
        if !oid.FrontIsIndex() { return InvalidArgument, k; }
        k := oid.FrontAsIndex();
        oid.Pop();
        if k >= |value.items| { return OutOfRange, k; }
      } else if t.TStruct? {
        if !oid.FrontIsString() { return InvalidArgument, k; }
        k := FindIndex(t.fields, oid.FrontAsString());
        oid.Pop();
        if k == |t.fields| { return NotFound, k; }
      } else if t.TVariant? {
        if !oid.FrontIsString() { return InvalidArgument, k; }
        var name := oid.FrontAsString();
        oid.Pop();
        if t.alternatives[value.index].name != name { return NotFound, k; }
      } else {
        return InvalidArgument, k;
      }
    }

    lemma StepAuthorised(v: Value, t: Shape, pd: Descriptor, segment: Segment, a: Authorizer)
      requires HasType(v, t)
      ensures var open := StepStatus(v, t, pd, segment, AUTHZ_DISABLED);
              StepStatus(v, t, pd, segment, a) ==
                if open != Ok || t.TArray? || a.ReadAuthz(ChildDescriptor(v, t, pd, Slot(v, t, segment))) then open
                else PermissionDenied
    {
    }

    /** A child of the referenced value can be referred to as well. */
    lemma ChildLive(segment: Segment, k: nat)
      requires Live()
      requires StepStatus(Get(), t, pd, segment, AUTHZ_DISABLED) == Ok && k == Slot(Get(), t, segment)
      ensures At(dev.Root(), dev.Model(), RootDescriptor(dev.Model()), loc + [segment], AUTHZ_DISABLED)
           == Found(ChildShape(Get(), t, k), ChildDescriptor(Get(), t, pd, k), Children(Get())[k])
      ensures Describes(ChildDescriptor(Get(), t, pd, k), ChildShape(Get(), t, k))
    {
      RootDescribed(dev.Model());
      AtSplit(dev.Root(), dev.Model(), RootDescriptor(dev.Model()), loc, segment, AUTHZ_DISABLED);
      assert [segment][1..] == [];
      assert At(Get(), t, pd, [segment], AUTHZ_DISABLED)
          == At(Children(Get())[k], ChildShape(Get(), t, k), ChildDescriptor(Get(), t, pd, k), [], AUTHZ_DISABLED);
      ChildDescribed(Get(), t, pd, k);
    }

    /** `fromProto`: writes through the reference, or leaves the device alone. */
    method FromProto(w: Wire, a: Authorizer) returns (rc: Status)
      requires Live()
      modifies dev`params
      ensures dev.Valid() && Live() && rc == Valid(w, t, pd, a)
      ensures dev.Root() == Put(old(dev.Root()), dev.Model(), loc, if rc == Ok then Decode(w, t, pd) else old(Get()))
      ensures rc != Ok ==> dev.Root() == old(dev.Root())
    {
      ghost var root := dev.Root();
      var out;
      rc, out := StructInfo.FromProto(w, Get(), t, pd, a);
      if rc == Ok { DecodeConforms(w, t, pd, a); }
      RootDescribed(dev.Model());
      AtPut(dev.Root(), dev.Model(), RootDescriptor(dev.Model()), loc, AUTHZ_DISABLED, out);
      if rc != Ok { PutSame(dev.Root(), dev.Model(), RootDescriptor(dev.Model()), loc, AUTHZ_DISABLED); }
      dev.params := Put(dev.Root(), dev.Model(), loc, out).fields;
    }

    method ToProto(a: Authorizer) returns (rc: Status, dst: Wire)
      requires Live()
      ensures rc == if Readable(Get(), t, pd, a) then Ok else PermissionDenied
      ensures dst == if rc == Ok then Encode(Get(), t) else KindNotSet
    {
      rc, dst := StructInfo.ToProto(Get(), t, pd, a);
    }

    /** `addBack`: grows the array by a default element and refers to that. */
    method AddBack(a: Authorizer) returns (element: ParamWithValue?, status: Status)
      requires Live()
      modifies dev`params
      ensures dev.Valid()
      ensures var nav := Transactions.AddBack(Found(t, pd, old(Get())), a);
              && (element != null <==> nav.Found?)
              && (element == null ==> status == nav.status && dev.Root() == old(dev.Root()))
              && (element != null ==>
                    && dev.Root() == Put(old(dev.Root()), dev.Model(), loc + [APPEND], Default(t.element))
                    && fresh(element) && element.dev == dev && element.loc == loc + [Index(|old(Get()).items|)]
                    && element.Live() && (element.t, element.pd, element.Get()) == (t.element, pd, Default(t.element)))
    {
      element, status := null, Ok;
      var value := Get();
      if !t.TArray? { return null, InvalidArgument; }
      var oidIndex := |value.items|;
      if !a.WriteAuthz(pd) {
        status := PermissionDenied;
      } else if oidIndex >= pd.maxLength {
        status := OutOfRange;
      } else {
        ghost var root, m, rd := dev.Root(), dev.Model(), RootDescriptor(dev.Model());
        DefaultHasType(t.element);
        assert (loc + [APPEND])[..|loc|] == loc;
        AtAncestor(root, m, rd, loc, [APPEND], AUTHZ_DISABLED, Default(t.element));
        AppendTarget(value, t, pd, AUTHZ_DISABLED);
        dev.params := Put(dev.Root(), dev.Model(), loc + [APPEND], Default(t.element)).fields;
        RootDescribed(m);
        AtSplit(dev.Root(), m, rd, loc, Index(oidIndex), AUTHZ_DISABLED);
        LastElement(value.items, Default(t.element), t, pd);
        element := new ParamWithValue(dev, loc + [Index(oidIndex)], t.element, pd);
      }
    }

    lemma LastElement(items: seq<Value>, d: Value, t: Shape, pd: Descriptor)
      requires t.TArray? && HasType(Array(items), t) && |items| + 1 < K_NONE && HasType(d, t.element)
      ensures Put(Array(items), t, [APPEND], d) == Array(items + [d]) && HasType(Array(items + [d]), t)
      ensures At(Array(items + [d]), t, pd, [Index(|items|)], AUTHZ_DISABLED) == Found(t.element, pd, d)
    {
      assert [Index(|items|)][1..] == [];
    }

    /** `popBack` removes the last element of an array. */
    method PopBack(a: Authorizer) returns (status: Status)
      requires Live()
      modifies dev`params
      ensures dev.Valid()
      ensures status == if !t.TArray? then InvalidArgument
                        else if !a.WriteAuthz(pd) then PermissionDenied
                        else if old(Get()).items == [] then OutOfRange
                        else Ok
      ensures status != Ok ==> dev.Root() == old(dev.Root())
      ensures status == Ok ==>
        && Live() && Get() == Array(old(Get()).items[..|old(Get()).items| - 1])
        && dev.Root() == Put(old(dev.Root()), dev.Model(), loc, Get())
    {
      status := Ok;
      var value := Get();
      if !t.TArray? {
        status := InvalidArgument;
      } else if !a.WriteAuthz(pd) {
        status := PermissionDenied;
      } else if |value.items| <= 0 {
        status := OutOfRange;
      } else {
        var shorter := Array(value.items[..|value.items| - 1]);
        AtPut(dev.Root(), dev.Model(), RootDescriptor(dev.Model()), loc, AUTHZ_DISABLED, shorter);
        dev.params := Put(dev.Root(), dev.Model(), loc, shorter).fields;
      }
    }

    /** The trackers an element write starts from: set once, then carried along. */
    ghost predicate TrackersAgree()
      requires Live()
      reads this, dev
    {
      t.TArray? ==>
        (if mSizeTracker.None? then tSizeTracker.None?
         else tSizeTracker.Some? && |tSizeTracker.value| == mSizeTracker.value)
    }

    ghost function Current(): (trackers: Trackers)
      requires Live() && TrackersAgree() && t.TArray?
      reads this, dev
      ensures |trackers.lengths| == trackers.count
    {
      if mSizeTracker.None? then Trackers(|Get().items|, Sizes(Get().items))
      else Trackers(mSizeTracker.value, tSizeTracker.value)
    }

    /** `validateSetValue`: routes by the kind of the message. */
    method ValidateSetValue(w: Wire, index: nat, a: Authorizer) returns (ans: Status)
      requires Live() && TrackersAgree()
      modifies this
      ensures w.KindNotSet? || w.Unsupported? ==> ans == InvalidArgument
      ensures !w.KindNotSet? && !w.Unsupported? && t.TArray? && !IsListKind(w) ==>
        && TrackersAgree()
        && (ans, Current()) == ValidateElement(w, index, t.element, pd, a, old(Current()))
      ensures !w.KindNotSet? && !w.Unsupported? && !(t.TArray? && !IsListKind(w)) ==>
        ans == ValidateWhole(w, index, t, pd, a)
      ensures old(mSizeTracker) == None ==> ans == Validate(w, index, Found(t, pd, Get()), a)
    {
      if w.KindNotSet? || w.Unsupported? { return InvalidArgument; }
      if t.TArray? && !IsListKind(w) {
        ans := ValidateElementWrite(w, index, a);
      } else {
        ans := ValidateWholeWrite(w, index, a);
      }
    }

    /** The overload for whole values. */
    method ValidateWholeWrite(w: Wire, index: nat, a: Authorizer) returns (ans: Status)
      requires Live()
      modifies this`mSizeTracker
      ensures ans == ValidateWhole(w, index, t, pd, a)
    {
      ans := Ok;
      if index != K_NONE {
        ans := InvalidArgument;
      } else {
        ans := ValidFromProto(w, t, pd, a);
        if ans == Ok { mSizeTracker := Some(WireSize(w)); }
      }
      if ans == Ok && mSizeTracker.value > pd.maxLength { ans := OutOfRange; }
    }

    /** The overload that sets or appends an element of an array. */
    method ValidateElementWrite(w: Wire, index: nat, a: Authorizer) returns (ans: Status)
      requires Live() && TrackersAgree() && t.TArray?
      modifies this`mSizeTracker, this`tSizeTracker
      ensures TrackersAgree() && mSizeTracker.Some?
      ensures (ans, Current()) == ValidateElement(w, index, t.element, pd, a, old(Current()))
    {
      hide Valid, HasType, Describes, At, Sum, Sizes;
      InitTrackers();
      ans := Ok;
      if index == K_NONE {
        ans := InvalidArgument;
      } else if index != K_END && index >= mSizeTracker.value {
        ans := OutOfRange;
      } else {
        ans := ValidFromProto(w, t.element, pd, a);
        if ans == Ok {
          Track(index, WireSize(w));
        }
      }
      if ans == Ok {
        if mSizeTracker.value > pd.maxLength {
          ans := OutOfRange;
        } else {
          var totalLength := TotalOf(tSizeTracker.value);
          if totalLength > pd.totalLength { ans := OutOfRange; }
        }
      }
    }

    method Track(index: nat, length: nat)
      requires Live() && TrackersAgree() && t.TArray? && mSizeTracker.Some? && tSizeTracker.Some?
      requires index == K_END || index < mSizeTracker.value
      modifies this`mSizeTracker, this`tSizeTracker
      ensures TrackersAgree() && mSizeTracker.Some? && tSizeTracker.Some?
      ensures Current() == Replay(old(Current()), index, length)
    {
      if index == K_END {
        mSizeTracker := Some(mSizeTracker.value + 1);
        tSizeTracker := Some(tSizeTracker.value + [length]);
      } else {
        tSizeTracker := Some(tSizeTracker.value[index := length]);
      }
    }

    /** Trackers that are not set yet are taken from the array as it is. */
    method InitTrackers()
      requires Live() && TrackersAgree() && t.TArray?
      modifies this`mSizeTracker, this`tSizeTracker
      ensures TrackersAgree() && mSizeTracker.Some? && tSizeTracker.Some? && Current() == old(Current())
    {
      var arrayVal := Get().items;
      if mSizeTracker.None? { mSizeTracker := Some(|arrayVal|); }
      if tSizeTracker.None? {
        var lengths: seq<nat> := [];
        for k := 0 to |arrayVal|
          invariant lengths == Sizes(arrayVal)[..k]
        {
          lengths := lengths + [SizeOf(arrayVal[k])];
        }
        tSizeTracker := Some(lengths);
      }
    }

    static method TotalOf(lengths: seq<nat>) returns (totalLength: nat)
      ensures totalLength == Sum(lengths)
    {
      totalLength := 0;
      for k := 0 to |lengths|
        invariant totalLength == Sum(lengths[..k])
      {
        assert lengths[..k + 1][..k] == lengths[..k];
        totalLength := totalLength + lengths[k];
      }
      assert lengths[..|lengths|] == lengths;
    }

    method ResetValidate()
      modifies this
      ensures mSizeTracker == None && tSizeTracker == None
    {
      mSizeTracker, tSizeTracker := None, None;
    }
  }

  // ------------------------------------------------------------------- device

  /** `getValue` as a function of the device's values. */
  function GetValueOf(root: Value, t: Shape, jptr: string, a: Authorizer): (Status, Wire)
    requires HasType(root, t) && WellFormed(t)
  {
    match Parse(jptr)
    case BadSyntax => (InvalidArgument, KindNotSet)
    case IndexTooLarge => (Internal, KindNotSet)
    case Parsed(p) =>
      if p != [] && p[|p| - 1] == APPEND then (OutOfRange, KindNotSet)
      else
        match GetParam(root, t, p, a)
        case Fail(status) => (status, KindNotSet)
        case Found(ct, cpd, v) =>
          AtTyped(root, t, RootDescriptor(t), p, a);
          if Readable(v, ct, cpd, a) then (Ok, Encode(v, ct)) else (PermissionDenied, KindNotSet)
  }

  class Device {
    /** The top-level params, in no particular order. */
    const fields: seq<Field>
    const multiSetEnabled: bool
    var params: seq<Value>

    function Model(): Shape { TStruct(fields) }

    function Root(): Value
      reads this`params
    {
      Struct(params)
    }

    ghost predicate Valid()
      reads this`params
    {
      WellFormed(Model()) && HasType(Root(), Model())
    }

    constructor (fields: seq<Field>, params: seq<Value>, multiSetEnabled: bool)
      requires WellFormed(TStruct(fields)) && HasType(Struct(params), TStruct(fields))
      ensures Valid() && this.fields == fields && this.params == params && this.multiSetEnabled == multiSetEnabled
    {
      this.fields, this.params, this.multiSetEnabled := fields, params, multiSetEnabled;
    }

    /** `getParam`: finds the top-level param and lets it follow the rest of the path. */
    method GetParam(path: Path, a: Authorizer) returns (param: ParamWithValue?, status: Status)
      requires Valid() && path.Valid()
      modifies path`frontIdx
      ensures path.Valid() && (param != null ==> path.Rest() == [])
      ensures var nav := Transactions.GetParam(Root(), Model(), old(path.Rest()), a);
              && (param != null <==> nav.Found?)
              && (param == null ==> status == nav.status)
              && (param != null ==>
                    && fresh(param) && param.dev == this && param.loc == old(path.Rest())
                    && param.mSizeTracker == None && param.tSizeTracker == None
                    && param.Live() && Found(param.t, param.pd, param.Get()) == nav)
    {
      param, status := null, Ok;
      ghost var rest := path.Rest();
      FromTheTop(rest, a);
      hide At, HasType, WellFormed, Describes;
      if path.IsEmpty() || !path.FrontIsString() { return null, InvalidArgument; }
      var k := FindIndex(fields, path.FrontAsString());
      if k == |fields| { return null, NotFound; }
      var pd := fields[k].pd;
      if !a.ReadAuthz(pd) { return null, PermissionDenied; }
      TopLevelLive(rest[0], k);
      param := new ParamWithValue(this, [path.segments[path.frontIdx]], pd.shape, pd);
      path.Pop();
      assert rest == [rest[0]] + path.Rest();
      if !path.IsEmpty() { param, status := param.GetParam(path, a); }
    }

    /** Walking from the top: the device's own step, then the param's. */
    lemma FromTheTop(rest: seq<Segment>, a: Authorizer)
      requires Valid()
      ensures var nav := Transactions.GetParam(Root(), Model(), rest, a);
              if rest == [] || !rest[0].Name? then nav == Fail(InvalidArgument)
              else
                var k := FindIndex(fields, rest[0].s);
                if k == |fields| then nav == Fail(NotFound)
                else if !a.ReadAuthz(fields[k].pd) then nav == Fail(PermissionDenied)
                else
                  && HasType(params[k], fields[k].pd.shape)
                  && nav == At(params[k], fields[k].pd.shape, fields[k].pd, rest[1..], a)
                  && At(params[k], fields[k].pd.shape, fields[k].pd, [], a)
                     == Found(fields[k].pd.shape, fields[k].pd, params[k])
    {
      if rest != [] && rest[0].Name? {
        var k := FindIndex(fields, rest[0].s);
        if k < |fields| { assert fields[k].pd.shape == ChildShape(Root(), Model(), k); }
      }
    }

    lemma TopLevelLive(segment: Segment, k: nat)
      requires Valid() && segment.Name? && k == FindIndex(fields, segment.s) < |fields|
      ensures At(Root(), Model(), RootDescriptor(Model()), [segment], AUTHZ_DISABLED)
           == Found(fields[k].pd.shape, fields[k].pd, params[k])
      ensures HasType(params[k], fields[k].pd.shape) && Describes(fields[k].pd, fields[k].pd.shape)
    {
      assert [segment][1..] == [];
      assert fields[k].pd.shape == ChildShape(Root(), Model(), k);
    }

    /** The inner loop of the validation: does any oid so far overlap the new one? */
    static method Overlapping(affected: seq<string>, oid: string) returns (found: bool)
      ensures found <==> exists x | x in affected :: Overlap(x, oid)
    {
      found := false;
      for k := 0 to |affected|
        invariant !found && forall j :: 0 <= j < k ==> !Overlap(affected[j], oid)
      {
        if Overlap(affected[k], oid) { return true; }
      }
    }

    /** Validates one payload against the device as it is. */
    method TryOne(oid: string, w: Wire, a: Authorizer) returns (parsed: Parsed, ans: Status)
      requires Valid()
      ensures parsed == Parse(oid)
      ensures parsed.Parsed? ==> ans == Accept(Root(), Model(), parsed.segments, w, a)
    {
      ans := Ok;
      var path;
      path, parsed := Path.FromJptr(oid);
      if path == null { return; }
      var index := K_NONE;
      if path.BackIsIndex() {
        index := path.BackAsIndex();
        path.PopBack();
      }
      assert path.Rest() == path.segments == ParentOf(parsed.segments) && index == IndexOf(parsed.segments);
      var param;
      param, ans := GetParam(path, a);
      if param != null { ans := param.ValidateSetValue(w, index, a); }
    }

    /** `tryMultiSetValue`: reads the device, changes nothing in it. */
    method TryMultiSetValue(src: seq<Entry>, status: Status, a: Authorizer) returns (outcome: TryOutcome)
      requires Valid()
      ensures outcome == Try(Root(), Model(), src, multiSetEnabled, status, a)
    {
      if |src| > 1 && !multiSetEnabled { return Returned(PermissionDenied); }
      var scan := TryAll(src, status, a);
      if scan.escaped { return Escaped; }
      var thrown := ResetTrackers(scan.affected, a);
      outcome := if thrown then Escaped else Returned(scan.status);
    }

    method TryAll(src: seq<Entry>, status: Status, a: Authorizer) returns (scan: Scan)
      requires Valid()
      ensures scan == TryEntries(Root(), Model(), src, [], status, a)
    {
      var ans := status;
      var affectedOids: seq<string> := [];
      assert src[0..] == src;
      for k := 0 to |src|
        invariant TryEntries(Root(), Model(), src, [], status, a)
               == TryEntries(Root(), Model(), src[k..], affectedOids, ans, a)
      {
        assert src[k..][1..] == src[k + 1..];
        var overlaps := Overlapping(affectedOids, src[k].oid);
        if overlaps { ans := InvalidArgument; }
        if ans == Ok {
          var parsed, accepted := TryOne(src[k].oid, src[k].value, a);
          affectedOids := affectedOids + [src[k].oid];
          if parsed.IndexTooLarge? { return Scan(ans, affectedOids, true); }
          ans := if parsed.BadSyntax? then InvalidArgument else accepted;
          if ans != Ok { return Scan(ans, affectedOids, false); }
        }
      }
      scan := Scan(ans, affectedOids, false);
    }

    /** The reset loop. The params it resets are fetched anew and dropped again. */
    method ResetTrackers(affected: seq<string>, a: Authorizer) returns (thrown: bool)
      requires Valid()
      ensures thrown <==> exists x | x in affected :: !Parse(x).Parsed?
    {
      hide Parse;
      thrown := false;
      for k := 0 to |affected|
        invariant !thrown && forall j :: 0 <= j < k ==> Parse(affected[j]).Parsed?
      {
        var path, parsed := Path.FromJptr(affected[k]);
        if path == null { return true; }
        if path.BackIsIndex() { path.PopBack(); }
        var param, _ := GetParam(path, a);
        if param != null { param.ResetValidate(); }
      }
    }

    /** The param a payload goes to. For an append the array has grown already. */
    method FindParam(path: Path, a: Authorizer) returns (param: ParamWithValue?)
      requires Valid() && path.Valid() && path.frontIdx == 0
      modifies path, this`params
      ensures Valid()
      ensures var p, root := old(path.segments), old(Root());
              var destination := Destination(root, Model(), p, a);
              && (param != null <==> destination.Found?)
              && (param == null || !IsAppend(p) ==> Root() == root)
              && (param != null ==>
                    && fresh(param) && param.dev == this && param.Live()
                    && Found(param.t, param.pd, param.Get()) == destination
                    && (!IsAppend(p) ==> param.loc == p)
                    && (IsAppend(p) ==>
                          && Root() == Put(root, Model(), p, param.Get())
                          && param.loc == ParentOf(p) + [Index(Length(root, Model(), p, a))]))
    {
      hide At, WellFormed, Describes, Put;
      ghost var p := path.segments;
      assert path.Rest() == path.segments;
      var status;
      if path.BackIsIndex() {
        var index := path.BackAsIndex();
        path.PopBack();
        assert path.Rest() == path.segments == ParentOf(p) && index == IndexOf(p) && p == ParentOf(p) + [Index(index)];
        var parent;
        parent, status := GetParam(path, a);
        if parent == null { return null; }
        if index == K_END {
          param, status := parent.AddBack(a);
        } else {
          path.PushIndex(index);
          assert path.Rest() == [Index(index)];
          param, status := parent.GetParam(path, a);
        }
      } else {
        param, status := GetParam(path, a);
      }
    }

    /** Commits one payload whose oid has parsed. */
    method CommitOne(path: Path, w: Wire, a: Authorizer) returns (outcome: CommitOutcome)
      requires Valid() && path.Valid() && path.frontIdx == 0
      modifies path, this`params
      ensures Valid() && Root() == outcome.root
      ensures outcome == CommitEntry(old(Root()), Model(), old(path.segments), w, a)
    {
      hide At, HasType, WellFormed, Describes, Put, Decode, Destination;
      ghost var root, p := Root(), path.segments;
      var param := FindParam(path, a);
      if param == null { return NullDereference(Root()); }
      ghost var current := param.Get();
      DestinationTyped(root, Model(), p, a);
      var rc := param.FromProto(w, a);
      outcome := Done(Root(), rc);
      if rc == Ok { DecodeConforms(w, param.t, param.pd, a); }
      if IsAppend(p) {
        AppendThenFill(root, Model(), p, a, current, if rc == Ok then Decode(w, param.t, param.pd) else current);
      }
    }

    /** `commitMultiSetValue`: payload after payload, until one throws. */
    method CommitMultiSetValue(src: seq<Entry>, a: Authorizer) returns (outcome: CommitOutcome)
      requires Valid()
      modifies this`params
      ensures Valid() && Root() == outcome.root
      ensures outcome == Commit(old(Root()), Model(), src, Ok, a)
    {
      ghost var root := Root();
      var ans := Ok;
      assert src[0..] == src;
      for k := 0 to |src|
        invariant Valid()
        invariant Commit(root, Model(), src, Ok, a) == Commit(Root(), Model(), src[k..], ans, a)
      {
        assert src[k..][1..] == src[k + 1..];
        var path, parsed := Path.FromJptr(src[k].oid);
        if parsed.IndexTooLarge? { return Threw(Root()); }
        if path == null { return Done(Root(), InvalidArgument); }
        var one := CommitOne(path, src[k].value, a);
        if !one.Done? { return one; }
        ans := one.status;
      }
      outcome := Done(Root(), ans);
    }

    /** `setValue`: a batch of one, validated and then committed. */
    method SetValue(jptr: string, src: Wire, a: Authorizer) returns (outcome: SetOutcome)
      requires Valid()
      modifies this`params
      ensures Valid() && Root() == outcome.root
      ensures outcome == Transactions.SetValue(old(Root()), Model(), Entry(jptr, src), a)
    {
      var setValues := [Entry(jptr, src)];
      var tried := TryMultiSetValue(setValues, Ok, a);
      if tried.Escaped? { return Thrown(Root()); }
      if tried.status != Ok { return Answered(Root(), tried.status); }
      var committed := CommitMultiSetValue(setValues, a);
      match committed
      case Done(after, rc) => outcome := Answered(after, rc);
      case Threw(after) => outcome := Thrown(after);
      case NullDereference(after) => outcome := Crashed(after);
    }

    /** `getValue`: `-` names no value, everything else is encoded where it is. */
    method GetValue(jptr: string, a: Authorizer) returns (status: Status, dst: Wire)
      requires Valid()
      ensures (status, dst) == GetValueOf(Root(), Model(), jptr, a)
    {
      dst := KindNotSet;
      var path, parsed := Path.FromJptr(jptr);
      if parsed.IndexTooLarge? { return Internal, dst; }
      if path == null { return InvalidArgument, dst; }
      if path.BackIsIndex() && path.BackAsIndex() == K_END { return OutOfRange, dst; }
      assert path.Rest() == path.segments;
      var param;
      param, status := GetParam(path, a);
      if param != null { status, dst := param.ToProto(a); }
    }
  }
}

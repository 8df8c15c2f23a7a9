/** `tryMultiSetValue` and `commitMultiSetValue` as functions of the device's
    values, with the validation a param performs before it is set. */
module Transactions {
  import opened Types
  import opened StructInfo
  import opened CodecProperties
  import opened Navigation
  import opened Paths

  // --------------------------------------------------------------- validation

  /** `size_`: string lengths and element counts, zero for everything else. */
  function SizeOf(v: Value): nat {
    match v
    case Str(s) => |s|
    case Array(items) => |items|
    case _ => 0
  }

  function WireSize(w: Wire): nat { if w.StringWire? then |w.s| else |Items(w)| }

  predicate IsListKind(w: Wire) {
    w.Int32List? || w.Float32List? || w.StringList? || w.StructList? || w.VariantList?
  }

  function Sizes(items: seq<Value>): seq<nat> {
    seq(|items|, k requires 0 <= k < |items| => SizeOf(items[k]))
  }

  function Sum(lengths: seq<nat>): nat {
    if lengths == [] then 0 else Sum(lengths[..|lengths| - 1]) + lengths[|lengths| - 1]
  }

  /** Setting a whole value. */
  function ValidateWhole(w: Wire, index: nat, t: Shape, pd: Descriptor, a: Authorizer): Status {
    if index != K_NONE then InvalidArgument
    else if Valid(w, t, pd, a) != Ok then Valid(w, t, pd, a)
    else if WireSize(w) > pd.maxLength then OutOfRange
    else Ok
  }

  /** The array trackers: the element count and the length of every element. */
  datatype Trackers = Trackers(count: nat, lengths: seq<nat>)

  /** Setting or appending one element: the status and the trackers afterwards. A
      write that breaks a bound is reported, but stays in the trackers. */
  function ValidateElement(w: Wire, index: nat, element: Shape, pd: Descriptor, a: Authorizer, before: Trackers)
    : (Status, Trackers)
    requires |before.lengths| == before.count
  {
    if index == K_NONE then (InvalidArgument, before)
    else if index != K_END && index >= before.count then (OutOfRange, before)
    else if Valid(w, element, pd, a) != Ok then (Valid(w, element, pd, a), before)
    else
      var after := Replay(before, index, WireSize(w));
      (if after.count > pd.maxLength || Sum(after.lengths) > pd.totalLength then OutOfRange else Ok, after)
  }

  /** What a write does to the trackers. */
  function Replay(before: Trackers, index: nat, length: nat): (after: Trackers)
    requires |before.lengths| == before.count && (index == K_END || index < before.count)
    ensures |after.lengths| == after.count
  {
    if index == K_END then Trackers(before.count + 1, before.lengths + [length])
    else Trackers(before.count, before.lengths[index := length])
  }

  /** `validateSetValue` on a param just fetched, whose trackers are unset. */
  function Validate(w: Wire, index: nat, param: Nav, a: Authorizer): Status
    requires param.Found? && HasType(param.v, param.t)
  {
    if w.KindNotSet? || w.Unsupported? then InvalidArgument
    else if param.t.TArray? && !IsListKind(w) then
      ValidateElement(w, index, param.t.element, param.pd, a, Trackers(|param.v.items|, Sizes(param.v.items))).0
    else ValidateWhole(w, index, param.t, param.pd, a)
  }

  // ------------------------------------------------------------------- trying

  datatype Entry = Entry(oid: string, value: Wire)

  /** Stands for the device above its top-level params; nothing consults it. */
  function RootDescriptor(t: Shape): Descriptor { Descriptor("", false, 0, 0, None, t) }

  /** `Device::getParam`: the empty path leads nowhere. */
  function GetParam(root: Value, t: Shape, p: seq<Segment>, a: Authorizer): Nav
    requires HasType(root, t)
  {
    if p == [] then Fail(InvalidArgument) else At(root, t, RootDescriptor(t), p, a)
  }

  /** A final index is split off the path: it selects or appends an element. */
  function IndexOf(p: seq<Segment>): nat { if EndsInIndex(p) then p[|p| - 1].i else K_NONE }

  predicate EndsInIndex(p: seq<Segment>) { p != [] && p[|p| - 1].Index? }

  function ParentOf(p: seq<Segment>): seq<Segment> { if EndsInIndex(p) then p[..|p| - 1] else p }

  /** What `tryMultiSetValue` makes of one payload once its oid has parsed. */
  function Accept(root: Value, t: Shape, p: seq<Segment>, w: Wire, a: Authorizer): Status
    requires HasType(root, t) && WellFormed(t)
  {
    var param := GetParam(root, t, ParentOf(p), a);
    if param.Fail? then param.status
    else
      AtTyped(root, t, RootDescriptor(t), ParentOf(p), a);
      Validate(w, IndexOf(p), param, a)
  }

  predicate EndsInDash(oid: string) { |oid| >= 2 && oid[|oid| - 2..] == "/-" }

  /** The textual overlap test. Two appends never overlap. */
  predicate Overlap(x: string, y: string) { !(EndsInDash(x) && EndsInDash(y)) && (y <= x || x <= y) }

  /** The outcome of the validation loop: the status, the oids it got to, and
      whether an exception it does not catch left it. */
  datatype Scan = Scan(status: Status, affected: seq<string>, escaped: bool)

  function TryEntries(root: Value, t: Shape, entries: seq<Entry>, affected: seq<string>, ans: Status, a: Authorizer)
    : Scan
    requires HasType(root, t) && WellFormed(t)
    decreases |entries|
  {
    if entries == [] then Scan(ans, affected, false)
    else
      var oid := entries[0].oid;
      if exists x | x in affected :: Overlap(x, oid) then
        TryEntries(root, t, entries[1..], affected, InvalidArgument, a)
      else if ans != Ok then TryEntries(root, t, entries[1..], affected, ans, a)
      else
        match Parse(oid)
        case BadSyntax => Scan(InvalidArgument, affected + [oid], false)
        case IndexTooLarge => Scan(ans, affected + [oid], true)
        case Parsed(p) =>
          var status := Accept(root, t, p, entries[0].value, a);
          if status != Ok then Scan(status, affected + [oid], false)
          else TryEntries(root, t, entries[1..], affected + [oid], Ok, a)
  }

  datatype TryOutcome = Returned(status: Status) | Escaped

  /** The trackers of every affected oid are reset afterwards, which parses the oids
      again: one that does not parse makes this throw outside any handler. */
  function Try(root: Value, t: Shape, entries: seq<Entry>, multiSet: bool, ans: Status, a: Authorizer): TryOutcome
    requires HasType(root, t) && WellFormed(t)
  {
    if |entries| > 1 && !multiSet then Returned(PermissionDenied)
    else
      var scan := TryEntries(root, t, entries, [], ans, a);
      if scan.escaped || exists x | x in scan.affected :: !Parse(x).Parsed? then Escaped
      else Returned(scan.status)
  }

  // ---------------------------------------------------------------- committing

  /** The param that `commitMultiSetValue` calls `fromProto` on: its type, its
      descriptor and its value. Without one it dereferences a null pointer. */
  function Destination(root: Value, t: Shape, p: seq<Segment>, a: Authorizer): Nav
    requires HasType(root, t) && WellFormed(t)
  {
    var param := GetParam(root, t, ParentOf(p), a);
    if param.Fail? || !EndsInIndex(p) then param
    else
      AtTyped(root, t, RootDescriptor(t), ParentOf(p), a);
      if IndexOf(p) == K_END then AddBack(param, a)
      else if !a.ReadAuthz(param.pd) then Fail(PermissionDenied)
      else At(param.v, param.t, param.pd, [p[|p| - 1]], a)
  }

  /** `addBack`: the default constructed element a vector gains. */
  function AddBack(param: Nav, a: Authorizer): Nav
    requires param.Found? && HasType(param.v, param.t)
  {
    if !param.t.TArray? then Fail(InvalidArgument)
    else if !a.WriteAuthz(param.pd) then Fail(PermissionDenied)
    else if |param.v.items| >= param.pd.maxLength then Fail(OutOfRange)
    else Found(param.t.element, param.pd, Default(param.t.element))
  }

  datatype CommitOutcome = Done(root: Value, status: Status) | Threw(root: Value) | NullDereference(root: Value)

  /** One payload. An append that then fails to decode leaves the default behind. */
  function CommitEntry(root: Value, t: Shape, p: seq<Segment>, w: Wire, a: Authorizer): (r: CommitOutcome)
    requires HasType(root, t) && WellFormed(t)
    ensures HasType(r.root, t)
  {
    match Destination(root, t, p, a)
    case Fail(_) => NullDereference(root)
    case Found(ct, cpd, current) =>
      DestinationTyped(root, t, p, a);
      var rc := Valid(w, ct, cpd, a);
      var written := if rc == Ok then Decode(w, ct, cpd) else current;
      assert HasType(written, ct) by { if rc == Ok { DecodeConforms(w, ct, cpd, a); } }
      PutTyped(root, t, RootDescriptor(t), p, a, written);
      Done(Put(root, t, p, written), rc)
  }

  function Commit(root: Value, t: Shape, entries: seq<Entry>, ans: Status, a: Authorizer): (r: CommitOutcome)
    requires HasType(root, t) && WellFormed(t)
    ensures HasType(r.root, t)
    decreases |entries|
  {
    if entries == [] then Done(root, ans)
    else
      match Parse(entries[0].oid)
      case BadSyntax => Done(root, InvalidArgument)
      case IndexTooLarge => Threw(root)
      case Parsed(p) =>
        var r := CommitEntry(root, t, p, entries[0].value, a);
        if r.Done? then Commit(r.root, t, entries[1..], r.status, a) else r
  }

  /** `setValue`: the outcome and the values afterwards. */
  datatype SetOutcome = Answered(root: Value, status: Status) | Crashed(root: Value) | Thrown(root: Value)

  function SetValue(root: Value, t: Shape, entry: Entry, a: Authorizer): (r: SetOutcome)
    requires HasType(root, t) && WellFormed(t)
    ensures HasType(r.root, t)
  {
    match Try(root, t, [entry], true, Ok, a)
    case Escaped => Thrown(root)
    case Returned(status) =>
      if status != Ok then Answered(root, status)
      else
        match Commit(root, t, [entry], Ok, a)
        case Done(after, rc) => Answered(after, rc)
        case Threw(after) => Thrown(after)
        case NullDereference(after) => Crashed(after)
  }

  // --------------------------------------------------------------- destination

  /** The last step of a path can be taken from where the others lead. */
  lemma {:induction false} AtSplit(v: Value, t: Shape, pd: Descriptor, p: seq<Segment>, s: Segment, a: Authorizer)
    requires HasType(v, t) && At(v, t, pd, p, a).Found? && Describes(pd, t)
    ensures var nav := At(v, t, pd, p, a);
            && HasType(nav.v, nav.t)
            && (At(nav.v, nav.t, nav.pd, [s], a).Found? ==>
                  At(v, t, pd, p + [s], a) == At(nav.v, nav.t, nav.pd, [s], a))
    decreases |p|
  {
    AtTyped(v, t, pd, p, a);
    if p == [] {
      assert p + [s] == [s];
    } else {
      var k := Slot(v, t, p[0]);
      ChildDescribed(v, t, pd, k);
      AtSplit(Children(v)[k], ChildShape(v, t, k), ChildDescriptor(v, t, pd, k), p[1..], s, a);
      assert (p + [s])[1..] == p[1..] + [s];
      if t.TArray? && IsLeaf(t.element) { assert p[1..] == []; }
    }
  }

  /** Params are only handed out to those who may read them. */
  lemma {:induction false} AtReadable(v: Value, t: Shape, pd: Descriptor, p: seq<Segment>, a: Authorizer)
    requires HasType(v, t) && At(v, t, pd, p, a).Found? && p != []
    requires t.TArray? ==> a.ReadAuthz(pd)
    ensures a.ReadAuthz(At(v, t, pd, p, a).pd)
    decreases |p|
  {
    var k := Slot(v, t, p[0]);
    if |p| > 1 {
      AtReadable(Children(v)[k], ChildShape(v, t, k), ChildDescriptor(v, t, pd, k), p[1..], a);
    }
  }

  /** The destination is the target of the path. */
  lemma DestinationTyped(root: Value, t: Shape, p: seq<Segment>, a: Authorizer)
    requires HasType(root, t) && WellFormed(t) && Destination(root, t, p, a).Found?
    ensures var d := Destination(root, t, p, a);
            && p != []
            && Target(root, t, RootDescriptor(t), p, a) == Some((d.t, d.pd))
            && Addressable(root, t, RootDescriptor(t), p, a)
            && HasType(d.v, d.t) && Describes(d.pd, d.t)
            && (p[|p| - 1] != APPEND ==> At(root, t, RootDescriptor(t), p, a) == d)
  {
    AtTyped(root, t, RootDescriptor(t), ParentOf(p), a);
    if EndsInIndex(p) {
      var param := GetParam(root, t, ParentOf(p), a);
      assert ParentOf(p) + [p[|p| - 1]] == p;
      if IndexOf(p) == K_END {
        DefaultHasType(param.t.element);
        hide At, Default;
      } else {
        AtSplit(root, t, RootDescriptor(t), ParentOf(p), p[|p| - 1], a);
        AtTyped(param.v, param.t, param.pd, [p[|p| - 1]], a);
        hide At, HasType, WellFormed;
      }
    }
  }
}

/** Where a path leads inside a value, and what writing there does to the value.
    A device is the struct of its top-level params, so the same rules cover it. */
module Navigation {
  import opened Types
  import opened CodecProperties

  datatype Nav = Found(t: Shape, pd: Descriptor, v: Value) | Fail(status: Status)

  // ------------------------------------------------------------ one step down

  function Children(v: Value): seq<Value> {
    match v
    case Struct(fields) => fields
    case Array(items) => items
    case Variant(_, held) => [held]
    case _ => []
  }

  /** Which child a segment names; the number of children when it names none. */
  function Slot(v: Value, t: Shape, s: Segment): (k: nat)
    requires HasType(v, t)
    ensures k <= |Children(v)|
  {
    match t
    case TStruct(fields) => if s.Name? then FindIndex(fields, s.s) else |fields|
    case TArray(_) => if s.Index? && s.i < |v.items| then s.i else |v.items|
    case TVariant(alternatives) => if s.Name? && s.s == alternatives[v.index].name then 0 else 1
    case _ => 0
  }

  function ChildShape(v: Value, t: Shape, k: nat): (c: Shape)
    requires HasType(v, t) && k < |Children(v)|
    ensures HasType(Children(v)[k], c)
  {
    match t
    case TStruct(fields) => fields[k].pd.shape
    case TArray(element) => element
    case TVariant(alternatives) => alternatives[v.index].pd.shape
  }

  /** Array elements share the descriptor of the array. */
  function ChildDescriptor(v: Value, t: Shape, pd: Descriptor, k: nat): Descriptor
    requires HasType(v, t) && k < |Children(v)|
  {
    match t
    case TStruct(fields) => fields[k].pd
    case TArray(_) => pd
    case TVariant(alternatives) => alternatives[v.index].pd
  }

  function WithChild(v: Value, k: nat, c: Value): Value
    requires k < |Children(v)|
  {
    match v
    case Struct(fields) => Struct(fields[k := c])
    case Array(items) => Array(items[k := c])
    case Variant(index, _) => Variant(index, c)
  }

  /** Why a step cannot be taken, or OK. */
  function StepStatus(v: Value, t: Shape, pd: Descriptor, s: Segment, a: Authorizer): (rc: Status)
    requires HasType(v, t)
    ensures rc == Ok ==> Slot(v, t, s) < |Children(v)|
  {
    match t
    case TStruct(_) | TVariant(_) =>
      if !s.Name? then InvalidArgument
      else if Slot(v, t, s) == |Children(v)| then NotFound
      else if !a.ReadAuthz(ChildDescriptor(v, t, pd, Slot(v, t, s))) then PermissionDenied
      else Ok
    case TArray(_) =>
      if !s.Index? then InvalidArgument
      else if s.i >= |v.items| then OutOfRange
      else Ok
    case _ => InvalidArgument
  }

  predicate IsLeaf(t: Shape) { !t.TStruct? && !t.TVariant? && !t.TArray? }

  /** What `getParam` finds: it walks the path and checks read authorisation of
      every struct field and alternative it passes. */
  function At(v: Value, t: Shape, pd: Descriptor, p: seq<Segment>, a: Authorizer): (nav: Nav)
    requires HasType(v, t)
    ensures nav.Fail? ==> nav.status != Ok
    decreases |p|
  {
    if p == [] then Found(t, pd, v)
    else if StepStatus(v, t, pd, p[0], a) != Ok then Fail(StepStatus(v, t, pd, p[0], a))
    else
      var k := Slot(v, t, p[0]);
      if |p| > 1 && t.TArray? && IsLeaf(t.element) then Fail(NotFound)
      else At(Children(v)[k], ChildShape(v, t, k), ChildDescriptor(v, t, pd, k), p[1..], a)
  }

  const APPEND: Segment := Index(K_END)

  /** The value after `nv` is stored at `p`. `-` appends to an array. */
  function Put(v: Value, t: Shape, p: seq<Segment>, nv: Value): Value
    requires HasType(v, t)
    decreases |p|
  {
    if p == [] then nv
    else if p == [APPEND] && t.TArray? then Array(v.items + [nv])
    else
      var k := Slot(v, t, p[0]);
      if k == |Children(v)| then v
      else WithChild(v, k, Put(Children(v)[k], ChildShape(v, t, k), p[1..], nv))
  }

  // ---------------------------------------------------------------- properties

  lemma {:induction false} AtTyped(v: Value, t: Shape, pd: Descriptor, p: seq<Segment>, a: Authorizer)
    requires HasType(v, t) && Describes(pd, t)
    ensures var nav := At(v, t, pd, p, a);
            nav.Found? ==> HasType(nav.v, nav.t) && Describes(nav.pd, nav.t)
    decreases |p|
  {
    if p != [] && StepStatus(v, t, pd, p[0], a) == Ok {
      var k := Slot(v, t, p[0]);
      ChildDescribed(v, t, pd, k);
      AtTyped(Children(v)[k], ChildShape(v, t, k), ChildDescriptor(v, t, pd, k), p[1..], a);
    }
  }

  lemma ChildDescribed(v: Value, t: Shape, pd: Descriptor, k: nat)
    requires HasType(v, t) && Describes(pd, t) && k < |Children(v)|
    ensures Describes(ChildDescriptor(v, t, pd, k), ChildShape(v, t, k))
  {
  }

  /** With authorisation switched off a path leads wherever it led before. */
  lemma {:induction false} AtDisabled(v: Value, t: Shape, pd: Descriptor, p: seq<Segment>, a: Authorizer)
    requires HasType(v, t) && At(v, t, pd, p, a).Found?
    ensures At(v, t, pd, p, AUTHZ_DISABLED) == At(v, t, pd, p, a)
    decreases |p|
  {
    if p != [] {
      var k := Slot(v, t, p[0]);
      AtDisabled(Children(v)[k], ChildShape(v, t, k), ChildDescriptor(v, t, pd, k), p[1..], a);
    }
  }

  /** Conforming values have conforming parts. */
  lemma {:induction false} AtConforms(v: Value, t: Shape, pd: Descriptor, p: seq<Segment>, a: Authorizer)
    requires HasType(v, t) && Describes(pd, t) && Conforms(v, t, pd)
    ensures var nav := At(v, t, pd, p, a);
            nav.Found? ==> HasType(nav.v, nav.t) && Conforms(nav.v, nav.t, nav.pd)
    decreases |p|
  {
    if p != [] && StepStatus(v, t, pd, p[0], a) == Ok {
      var k := Slot(v, t, p[0]);
      ChildDescribed(v, t, pd, k);
      AtConforms(Children(v)[k], ChildShape(v, t, k), ChildDescriptor(v, t, pd, k), p[1..], a);
    }
  }

  /** Why a step cannot be taken: there is no such child, or it may not be read, or the segment
      is of the wrong kind, or the index is behind the end. */
  ghost predicate Blocked(nav: Nav, s: Segment, last: bool, status: Status, a: Authorizer)
  {
    nav.Found? &&
    match status
    case NotFound =>
      || (nav.t.TArray? && s.Index? && !last && IsLeaf(nav.t.element))
      || (s.Name? && nav.t.TStruct? && forall f <- nav.t.fields :: f.name != s.s)
      || (s.Name? && nav.t.TVariant? && nav.v.Variant? && nav.v.index < |nav.t.alternatives|
          && nav.t.alternatives[nav.v.index].name != s.s)
    case PermissionDenied =>
      && s.Name? && (nav.t.TStruct? || nav.t.TVariant?)
      && exists f <- (if nav.t.TStruct? then nav.t.fields else nav.t.alternatives) ::
           f.name == s.s && !a.disabled && f.pd.scope !in a.scopes && f.pd.scope + ":w" !in a.scopes
    case OutOfRange => nav.t.TArray? && s.Index? && nav.v.Array? && s.i >= |nav.v.items|
    case InvalidArgument => IsLeaf(nav.t) || (if nav.t.TArray? then s.Name? else s.Index?)
    case _ => false
  }

  /** A path that leads nowhere is blocked somewhere, for the reason that is given. */
  lemma {:induction false} AtFails(v: Value, t: Shape, pd: Descriptor, p: seq<Segment>, a: Authorizer) returns (k: nat)
    requires HasType(v, t) && At(v, t, pd, p, a).Fail?
    ensures k < |p|
    ensures Blocked(At(v, t, pd, p[..k], a), p[k], k == |p| - 1, At(v, t, pd, p, a).status, a)
    decreases |p|
  {
    k := 0;
    assert p[..0] == [];
    if StepStatus(v, t, pd, p[0], a) == Ok && !(|p| > 1 && t.TArray? && IsLeaf(t.element)) {
      var c := Slot(v, t, p[0]);
      k := AtFails(Children(v)[c], ChildShape(v, t, c), ChildDescriptor(v, t, pd, c), p[1..], a);
      assert p[..k + 1][1..] == p[1..][..k];
      LeafGoesNoFurther(Children(v)[c], ChildShape(v, t, c), ChildDescriptor(v, t, pd, c), p[1..][..k], a);
      k := k + 1;
    } else {
      StepBlocked(v, t, pd, p[0], |p| == 1, a);
    }
  }

  lemma LeafGoesNoFurther(v: Value, t: Shape, pd: Descriptor, p: seq<Segment>, a: Authorizer)
    requires HasType(v, t) && At(v, t, pd, p, a).Found?
    ensures IsLeaf(t) ==> p == []
  {
  }

  lemma StepBlocked(v: Value, t: Shape, pd: Descriptor, s: Segment, last: bool, a: Authorizer)
    requires HasType(v, t)
    ensures StepStatus(v, t, pd, s, a) != Ok ==> Blocked(Found(t, pd, v), s, last, StepStatus(v, t, pd, s, a), a)
    ensures StepStatus(v, t, pd, s, a) == Ok && t.TArray? && IsLeaf(t.element) && !last ==>
              Blocked(Found(t, pd, v), s, last, NotFound, a)
  {
    if t.TStruct? && s.Name? {
      var k := FindIndex(t.fields, s.s);
      if k < |t.fields| { assert t.fields[k] in t.fields; }
    }
    if t.TVariant? && s.Name? { assert t.alternatives[v.index] in t.alternatives; }
  }

  lemma ChildReplaced(v: Value, t: Shape, k: nat, c: Value)
    requires HasType(v, t) && k < |Children(v)| && HasType(c, ChildShape(v, t, k))
    ensures HasType(WithChild(v, k, c), t)
    ensures Children(WithChild(v, k, c)) == Children(v)[k := c]
    ensures forall j :: 0 <= j < |Children(v)| ==> ChildShape(WithChild(v, k, c), t, j) == ChildShape(v, t, j)
    ensures forall s :: Slot(WithChild(v, k, c), t, s) == Slot(v, t, s)
  {
  }

  lemma StepReplaced(v: Value, t: Shape, pd: Descriptor, k: nat, c: Value, s: Segment, a: Authorizer)
    requires HasType(v, t) && k < |Children(v)| && HasType(c, ChildShape(v, t, k))
    ensures HasType(WithChild(v, k, c), t)
    ensures StepStatus(WithChild(v, k, c), t, pd, s, a) == StepStatus(v, t, pd, s, a)
    ensures |Children(WithChild(v, k, c))| == |Children(v)|
    ensures forall j :: 0 <= j < |Children(v)| ==>
      ChildDescriptor(WithChild(v, k, c), t, pd, j) == ChildDescriptor(v, t, pd, j)
  {
  }

  /** A path that ends in `-` writes behind the array its parent leads to; any other
      path writes what it leads to. `Target` is the type and descriptor written. */
  function Target(v: Value, t: Shape, pd: Descriptor, p: seq<Segment>, a: Authorizer): Option<(Shape, Descriptor)>
    requires HasType(v, t)
  {
    if p != [] && p[|p| - 1] == APPEND then
      var nav := At(v, t, pd, p[..|p| - 1], a);
      if nav.Found? && nav.t.TArray? then Some((nav.t.element, nav.pd)) else None
    else
      var nav := At(v, t, pd, p, a);
      if nav.Found? then Some((nav.t, nav.pd)) else None
  }

  /** Appends must fit below the sentinels, which every 32-bit limit ensures. */
  ghost predicate Addressable(v: Value, t: Shape, pd: Descriptor, p: seq<Segment>, a: Authorizer)
    requires HasType(v, t)
  {
    p != [] && p[|p| - 1] == APPEND ==>
      var nav := At(v, t, pd, p[..|p| - 1], a);
      nav.Found? && nav.v.Array? ==> |nav.v.items| + 1 < K_NONE
  }

  /** `Target` and `Addressable` follow the path one step at a time. */
  lemma TargetStep(v: Value, t: Shape, pd: Descriptor, p: seq<Segment>, a: Authorizer)
    requires HasType(v, t) && p != [] && Target(v, t, pd, p, a).Some?
    requires !(p == [APPEND] && t.TArray?)
    ensures StepStatus(v, t, pd, p[0], a) == Ok
    ensures var k := Slot(v, t, p[0]);
            && k < |Children(v)|
            && Target(v, t, pd, p, a)
               == Target(Children(v)[k], ChildShape(v, t, k), ChildDescriptor(v, t, pd, k), p[1..], a)
            && (Addressable(v, t, pd, p, a)
                <==> Addressable(Children(v)[k], ChildShape(v, t, k), ChildDescriptor(v, t, pd, k), p[1..], a))
  {
    hide HasType, ChildShape, ChildDescriptor;
    if p[|p| - 1] == APPEND {
      if |p| > 1 {
        assert p[..|p| - 1][1..] == p[1..][..|p| - 2];
        assert p[1..][|p| - 2] == APPEND;
      }
    }
  }

  /** Writing a value of the type found at the target keeps the whole well typed. */
  lemma {:induction false} PutTyped(v: Value, t: Shape, pd: Descriptor, p: seq<Segment>, a: Authorizer, nv: Value)
    requires HasType(v, t) && Target(v, t, pd, p, a).Some? && Addressable(v, t, pd, p, a)
    requires HasType(nv, Target(v, t, pd, p, a).value.0)
    ensures HasType(Put(v, t, p, nv), t)
    decreases |p|
  {
    if p == [APPEND] && t.TArray? {
      AppendTarget(v, t, pd, a);
    } else if p != [] {
      TargetStep(v, t, pd, p, a);
      var k := Slot(v, t, p[0]);
      var c := ChildShape(v, t, k);
      PutTyped(Children(v)[k], c, ChildDescriptor(v, t, pd, k), p[1..], a, nv);
      ChildReplaced(v, t, k, Put(Children(v)[k], c, p[1..], nv));
    }
  }

  lemma AppendTarget(v: Value, t: Shape, pd: Descriptor, a: Authorizer)
    requires HasType(v, t) && t.TArray?
    ensures Target(v, t, pd, [APPEND], a) == Some((t.element, pd))
    ensures Addressable(v, t, pd, [APPEND], a) <==> |v.items| + 1 < K_NONE
  {
    assert [APPEND][..0] == [];
  }

  /** Reading back what was written. */
  lemma {:induction false} AtPut(v: Value, t: Shape, pd: Descriptor, p: seq<Segment>, a: Authorizer, nv: Value)
    requires HasType(v, t) && At(v, t, pd, p, a).Found? && HasType(nv, At(v, t, pd, p, a).t)
    ensures HasType(Put(v, t, p, nv), t)
    ensures At(Put(v, t, p, nv), t, pd, p, a) == Found(At(v, t, pd, p, a).t, At(v, t, pd, p, a).pd, nv)
    decreases |p|
  {
    if p != [] {
      var k := Slot(v, t, p[0]);
      var c := ChildShape(v, t, k);
      AtPut(Children(v)[k], c, ChildDescriptor(v, t, pd, k), p[1..], a, nv);
      ChildReplaced(v, t, k, Put(Children(v)[k], c, p[1..], nv));
    }
  }

  /** Writing back what is there changes nothing. */
  lemma {:induction false} PutSame(v: Value, t: Shape, pd: Descriptor, p: seq<Segment>, a: Authorizer)
    requires HasType(v, t) && At(v, t, pd, p, a).Found?
    ensures Put(v, t, p, At(v, t, pd, p, a).v) == v
    decreases |p|
  {
    if p != [] {
      var k := Slot(v, t, p[0]);
      PutSame(Children(v)[k], ChildShape(v, t, k), ChildDescriptor(v, t, pd, k), p[1..], a);
    }
  }

  ghost predicate Apart(p: seq<Segment>, q: seq<Segment>)
  {
    !(p <= q) && !(q <= p)
  }

  lemma ApartTail(p: seq<Segment>, q: seq<Segment>)
    requires Apart(p, q)
    ensures p != [] && q != [] && (p[0] == q[0] ==> Apart(p[1..], q[1..]))
  {
    assert p == [p[0]] + p[1..] && q == [q[0]] + q[1..];
  }

  /** A write is invisible along every path apart from its own. */
  lemma {:induction false} AtUnaffected(v: Value, t: Shape, pd: Descriptor, p: seq<Segment>, q: seq<Segment>,
                                        a: Authorizer, nv: Value)
    requires HasType(v, t) && Target(v, t, pd, p, a).Some? && Addressable(v, t, pd, p, a)
    requires HasType(nv, Target(v, t, pd, p, a).value.0)
    requires Apart(p, q) && At(v, t, pd, q, a).Found?
    ensures HasType(Put(v, t, p, nv), t)
    ensures At(Put(v, t, p, nv), t, pd, q, a) == At(v, t, pd, q, a)
    decreases |p|
  {
    hide Addressable, Target;
    PutTyped(v, t, pd, p, a, nv);
    ApartTail(p, q);
    if p == [APPEND] && t.TArray? {
      AppendTarget(v, t, pd, a);
    } else {
      TargetStep(v, t, pd, p, a);
      var k := Slot(v, t, p[0]);
      var c := ChildShape(v, t, k);
      var d := ChildDescriptor(v, t, pd, k);
      PutTyped(Children(v)[k], c, d, p[1..], a, nv);
      ChildReplaced(v, t, k, Put(Children(v)[k], c, p[1..], nv));
      if Slot(v, t, q[0]) == k {
        SameSlot(v, t, pd, p[0], q[0], a);
        AtUnaffected(Children(v)[k], c, d, p[1..], q[1..], a, nv);
      }
    }
  }

  /** Two segments that lead to the same child are the same segment. */
  lemma SameSlot(v: Value, t: Shape, pd: Descriptor, s: Segment, u: Segment, a: Authorizer)
    requires HasType(v, t) && StepStatus(v, t, pd, s, a) == Ok && StepStatus(v, t, pd, u, a) == Ok
    requires Slot(v, t, s) == Slot(v, t, u)
    ensures s == u
  {
  }

  /** A write below `b` shows up at `b` as the same write. */
  lemma {:induction false} AtAncestor(v: Value, t: Shape, pd: Descriptor, b: seq<Segment>, r: seq<Segment>,
                                      a: Authorizer, nv: Value)
    requires HasType(v, t) && Target(v, t, pd, b + r, a).Some? && Addressable(v, t, pd, b + r, a) && r != []
    requires HasType(nv, Target(v, t, pd, b + r, a).value.0)
    ensures HasType(Put(v, t, b + r, nv), t)
    ensures var nav := At(v, t, pd, b, a);
            && nav.Found? && HasType(nav.v, nav.t)
            && Target(nav.v, nav.t, nav.pd, r, a) == Target(v, t, pd, b + r, a)
            && At(Put(v, t, b + r, nv), t, pd, b, a) == Found(nav.t, nav.pd, Put(nav.v, nav.t, r, nv))
    decreases |b|
  {
    hide Addressable, HasType, ChildDescriptor, Slot, Target, StepStatus;
    PutTyped(v, t, pd, b + r, a, nv);
    if b == [] {
      assert b + r == r;
    } else {
      assert (b + r)[1..] == b[1..] + r;
      TargetStep(v, t, pd, b + r, a);
      var k := Slot(v, t, b[0]);
      var c := ChildShape(v, t, k);
      AtAncestor(Children(v)[k], c, ChildDescriptor(v, t, pd, k), b[1..], r, a, nv);
      ChildReplaced(v, t, k, Put(Children(v)[k], c, b[1..] + r, nv));
      StepReplaced(v, t, pd, k, Put(Children(v)[k], c, b[1..] + r, nv), b[0], a);
      LeafHasNoTarget(Children(v)[k], c, ChildDescriptor(v, t, pd, k), b[1..] + r, a);
    }
  }

  lemma LeafHasNoTarget(v: Value, t: Shape, pd: Descriptor, p: seq<Segment>, a: Authorizer)
    requires HasType(v, t) && Target(v, t, pd, p, a).Some? && p != []
    ensures !IsLeaf(t)
  {
    if !(p == [APPEND] && t.TArray?) { TargetStep(v, t, pd, p, a); }
  }

  /** Writes apart from each other commute. */
  lemma {:induction false} PutsCommute(v: Value, t: Shape, pd: Descriptor, p: seq<Segment>, q: seq<Segment>,
                                       a: Authorizer, x: Value, y: Value)
    requires HasType(v, t) && Apart(p, q)
    requires Target(v, t, pd, p, a).Some? && Addressable(v, t, pd, p, a) && HasType(x, Target(v, t, pd, p, a).value.0)
    requires Target(v, t, pd, q, a).Some? && Addressable(v, t, pd, q, a) && HasType(y, Target(v, t, pd, q, a).value.0)
    ensures HasType(Put(v, t, p, x), t) && HasType(Put(v, t, q, y), t)
    ensures Put(Put(v, t, p, x), t, q, y) == Put(Put(v, t, q, y), t, p, x)
    decreases |p|
  {
    hide Target, Addressable, At, StepStatus, HasType, ChildDescriptor, ChildShape, Slot, Put;
    if t.TArray? { AppendTarget(v, t, pd, a); }
    PutTyped(v, t, pd, p, a, x);
    PutTyped(v, t, pd, q, a, y);
    ApartTail(p, q);
    if p == [APPEND] && t.TArray? {
      AppendCommutes(v, t, pd, q, a, x, y);
    } else if q == [APPEND] && t.TArray? {
      AppendCommutes(v, t, pd, p, a, y, x);
    } else {
      TargetStep(v, t, pd, p, a);
      TargetStep(v, t, pd, q, a);
      var k, l := Slot(v, t, p[0]), Slot(v, t, q[0]);
      var c, e := ChildShape(v, t, k), ChildShape(v, t, l);
      PutTyped(Children(v)[k], c, ChildDescriptor(v, t, pd, k), p[1..], a, x);
      PutTyped(Children(v)[l], e, ChildDescriptor(v, t, pd, l), q[1..], a, y);
      if k == l {
        SameSlot(v, t, pd, p[0], q[0], a);
        PutsCommute(Children(v)[k], c, ChildDescriptor(v, t, pd, k), p[1..], q[1..], a, x, y);
      }
      TwoPuts(v, t, p, q, x, y);
      TwoPuts(v, t, q, p, y, x);
      if k != l {
        WithChildren(v, k, l, Put(Children(v)[k], c, p[1..], x), Put(Children(v)[l], e, q[1..], y));
      }
    }
  }

  /** Two writes, seen one step down. */
  lemma TwoPuts(v: Value, t: Shape, p: seq<Segment>, q: seq<Segment>, x: Value, y: Value)
    requires HasType(v, t) && p != [] && q != []
    requires !(p == [APPEND] && t.TArray?) && !(q == [APPEND] && t.TArray?)
    requires Slot(v, t, p[0]) < |Children(v)| && Slot(v, t, q[0]) < |Children(v)|
    requires var k := Slot(v, t, p[0]);
             HasType(Put(Children(v)[k], ChildShape(v, t, k), p[1..], x), ChildShape(v, t, k))
    ensures HasType(Put(v, t, p, x), t)
    ensures var k, l := Slot(v, t, p[0]), Slot(v, t, q[0]);
            var below := Put(Children(v)[k], ChildShape(v, t, k), p[1..], x);
            Put(Put(v, t, p, x), t, q, y) ==
              if k == l then WithChild(v, k, Put(below, ChildShape(v, t, k), q[1..], y))
              else WithChild(WithChild(v, k, below), l, Put(Children(v)[l], ChildShape(v, t, l), q[1..], y))
  {
    hide HasType, ChildShape, Slot, Put, Children, WithChild;
    var k, l := Slot(v, t, p[0]), Slot(v, t, q[0]);
    var below := Put(Children(v)[k], ChildShape(v, t, k), p[1..], x);
    ChildReplaced(v, t, k, below);
    PutStep(v, t, p, x);
    PutStep(WithChild(v, k, below), t, q, y);
    WithChildTwice(v, k, below, Put(below, ChildShape(v, t, k), q[1..], y));
  }

  lemma PutStep(v: Value, t: Shape, p: seq<Segment>, nv: Value)
    requires HasType(v, t) && p != [] && !(p == [APPEND] && t.TArray?) && Slot(v, t, p[0]) < |Children(v)|
    ensures var k := Slot(v, t, p[0]);
            Put(v, t, p, nv) == WithChild(v, k, Put(Children(v)[k], ChildShape(v, t, k), p[1..], nv))
  {
  }

  lemma WithChildTwice(v: Value, k: nat, c: Value, d: Value)
    requires k < |Children(v)|
    ensures k < |Children(WithChild(v, k, c))| && WithChild(WithChild(v, k, c), k, d) == WithChild(v, k, d)
  {
  }

  lemma WithChildren(v: Value, k: nat, l: nat, c: Value, d: Value)
    requires k < |Children(v)| && l < |Children(v)| && k != l
    ensures l < |Children(WithChild(v, k, c))| && k < |Children(WithChild(v, l, d))|
    ensures WithChild(WithChild(v, k, c), l, d) == WithChild(WithChild(v, l, d), k, c)
  {
  }

  /** An append and a write inside the array do not disturb each other. */
  lemma AppendCommutes(v: Value, t: Shape, pd: Descriptor, q: seq<Segment>, a: Authorizer, x: Value, y: Value)
    requires HasType(v, t) && t.TArray? && Apart([APPEND], q)
    requires |v.items| + 1 < K_NONE && HasType(x, t.element)
    requires Target(v, t, pd, q, a).Some? && Addressable(v, t, pd, q, a) && HasType(y, Target(v, t, pd, q, a).value.0)
    ensures HasType(Put(v, t, [APPEND], x), t) && HasType(Put(v, t, q, y), t)
    ensures Put(Put(v, t, [APPEND], x), t, q, y) == Put(Put(v, t, q, y), t, [APPEND], x)
  {
    hide Target, Addressable, At, StepStatus;
    AppendTarget(v, t, pd, a);
    PutTyped(v, t, pd, [APPEND], a, x);
    PutTyped(v, t, pd, q, a, y);
    TargetStep(v, t, pd, q, a);
    var k := Slot(v, t, q[0]);
    var c := Put(v.items[k], t.element, q[1..], y);
    assert (v.items + [x])[k := c] == v.items[k := c] + [x];
  }
}

/** Which batches commit: exactly those whose appends fit, if no entry writes inside what
    another one writes. */
module BatchOutcome {
  import opened Types
  import opened StructInfo
  import opened CodecProperties
  import opened Navigation
  import opened Paths
  import opened Transactions
  import opened BatchProperties

  // ------------------------------------------------- accepted batches commit iff

  /** Payloads that all lead somewhere, none of them inside what another one writes. */
  ghost predicate Consistent(root: Value, t: Shape, es: seq<Entry>, a: Authorizer)
    requires HasType(root, t)
  {
    && (forall e :: e in es ==> Parse(e.oid).Parsed? && Resolves(root, t, PathOf(e), e.value, a))
    && NoneInside(es)
  }

  /** No oid of the batch leads to a place strictly below another one. Several may lead to
      the same place, or append to the same array. */
  ghost predicate NoneInside(es: seq<Entry>) { forall e, f :: e in es && f in es ==> !(PathOf(e) < PathOf(f)) }

  function HowMany(es: seq<Entry>, p: seq<Segment>): nat {
    if es == [] then 0 else (if PathOf(es[0]) == p then 1 else 0) + HowMany(es[1..], p)
  }

  /** Every array has room for all that the batch appends to it. */
  ghost predicate AppendsFit(root: Value, t: Shape, es: seq<Entry>, a: Authorizer)
    requires HasType(root, t)
  {
    forall e :: e in es ==> AppendFits(root, t, es, PathOf(e), a)
  }

  ghost predicate AppendFits(root: Value, t: Shape, es: seq<Entry>, p: seq<Segment>, a: Authorizer)
    requires HasType(root, t)
  {
    IsAppend(p) ==> Length(root, t, p, a) + HowMany(es, p) <= Limit(root, t, p, a)
  }

  ghost predicate NoSentinel(es: seq<Entry>)
  {
    forall i :: 0 <= i < |es| ==> !EndsInSentinel(PathOf(es[i]))
  }

  /** What committing the first payload leaves for all of them. */
  lemma StepConsistent(root: Value, t: Shape, es: seq<Entry>, a: Authorizer) returns (after: Value)
    requires HasType(root, t) && WellFormed(t) && t.TStruct?
    requires es != [] && Consistent(root, t, es, a) && HasRoom(root, t, PathOf(es[0]), a)
    ensures CommitEntry(root, t, PathOf(es[0]), es[0].value, a) == Done(after, Ok)
    ensures HasType(after, t) && Consistent(after, t, es[1..], a)
    ensures forall e :: e in es ==> Kept(root, after, t, PathOf(es[0]), PathOf(e), a)
  {
    hide Parse, Valid, Decode, WellFormed, HasType, Put, Target, At, Addressable, Kept;
    var p, w, rd := PathOf(es[0]), es[0].value, RootDescriptor(t);
    var target := Target(root, t, rd, p, a).value;
    var nv := Decode(w, target.0, target.1);
    ResolvedCommits(root, t, p, w, a);
    after := Put(root, t, p, nv);
    WrittenTyped(root, t, p, w, a);
    forall e | e in es
      ensures Kept(root, after, t, p, PathOf(e), a)
      ensures Resolves(after, t, PathOf(e), e.value, a)
    {
      assert es[0] in es && Resolves(root, t, PathOf(e), e.value, a);
      WriteKeeps(root, t, p, PathOf(e), a, nv);
      assert Target(after, t, rd, PathOf(e), a) == Target(root, t, rd, PathOf(e), a) by {
        KeptTarget(root, after, t, p, PathOf(e), a);
      }
    }
    assert forall e :: e in es[1..] ==> e in es;
  }

  /** A write at `p` keeps the target of `q`, and its array only grows if it is appended to. */
  ghost predicate Kept(root: Value, after: Value, t: Shape, p: seq<Segment>, q: seq<Segment>, a: Authorizer)
    requires HasType(root, t) && HasType(after, t)
  {
    && Target(after, t, RootDescriptor(t), q, a) == Target(root, t, RootDescriptor(t), q, a)
    && (IsAppend(q) ==>
          && Limit(after, t, q, a) == Limit(root, t, q, a)
          && Length(after, t, q, a) == Length(root, t, q, a) + (if q == p then 1 else 0))
  }

  lemma KeptTarget(root: Value, after: Value, t: Shape, p: seq<Segment>, q: seq<Segment>, a: Authorizer)
    requires HasType(root, t) && HasType(after, t) && Kept(root, after, t, p, q, a)
    ensures Target(after, t, RootDescriptor(t), q, a) == Target(root, t, RootDescriptor(t), q, a)
  {
  }

  lemma WriteKeeps(root: Value, t: Shape, p: seq<Segment>, q: seq<Segment>, a: Authorizer, nv: Value)
    requires HasType(root, t) && !(p < q) && !(q < p)
    requires Target(root, t, RootDescriptor(t), p, a).Some? && Addressable(root, t, RootDescriptor(t), p, a)
    requires HasType(nv, Target(root, t, RootDescriptor(t), p, a).value.0)
    requires Target(root, t, RootDescriptor(t), q, a).Some?
    ensures HasType(Put(root, t, p, nv), t) && Kept(root, Put(root, t, p, nv), t, p, q, a)
  {
    hide HasType, Put, At, Length, Limit, Addressable;
    if p != q {
      assert Apart(p, q);
      WriteFrame(root, t, p, q, a, nv);
    } else if IsAppend(p) {
      AppendSeen(root, t, p, a, nv);
    } else {
      AtPut(root, t, RootDescriptor(t), p, a, nv);
    }
  }

  /** The written value has the type of the target, and the target is addressable. */
  lemma WrittenTyped(root: Value, t: Shape, p: seq<Segment>, w: Wire, a: Authorizer)
    requires HasType(root, t) && WellFormed(t) && t.TStruct?
    requires Resolves(root, t, p, w, a) && HasRoom(root, t, p, a)
    ensures var target := Target(root, t, RootDescriptor(t), p, a).value;
            && Addressable(root, t, RootDescriptor(t), p, a)
            && HasType(Decode(w, target.0, target.1), target.0)
            && Conforms(Decode(w, target.0, target.1), target.0, target.1)
            && HasType(Put(root, t, p, Decode(w, target.0, target.1)), t)
  {
    hide Valid, Decode, WellFormed, HasType, Put, Target, Length, Limit, At, IsAppend;
    hide Addressable, Destination, HasRoom;
    var rd := RootDescriptor(t);
    var target := Target(root, t, rd, p, a).value;
    TargetDestination(root, t, p, a);
    ResolvedCommits(root, t, p, w, a);
    DestinationTyped(root, t, p, a);
    DecodeConforms(w, target.0, target.1, a);
    PutTyped(root, t, rd, p, a, Decode(w, target.0, target.1));
  }

  /** Room for the rest of the batch is room counted from after the first payload. */
  lemma AppendFitsStep(root: Value, after: Value, t: Shape, es: seq<Entry>, a: Authorizer)
    requires HasType(root, t) && HasType(after, t) && es != [] && HasRoom(root, t, PathOf(es[0]), a)
    requires forall e :: e in es ==> Kept(root, after, t, PathOf(es[0]), PathOf(e), a)
    ensures AppendsFit(after, t, es[1..], a) <==> AppendsFit(root, t, es, a)
  {
    hide HasType, AppendFits, Kept, HasRoom, PathOf;
    var rest := es[1..];
    assert es == [es[0]] + rest;
    forall e | e in rest
      ensures AppendFits(after, t, rest, PathOf(e), a) <==> AppendFits(root, t, es, PathOf(e), a)
    {
      OneFits(root, after, t, es, PathOf(e), a);
    }
    FirstFits(root, t, es, a);
  }

  lemma OneFits(root: Value, after: Value, t: Shape, es: seq<Entry>, q: seq<Segment>, a: Authorizer)
    requires HasType(root, t) && HasType(after, t) && es != [] && Kept(root, after, t, PathOf(es[0]), q, a)
    ensures AppendFits(after, t, es[1..], q, a) <==> AppendFits(root, t, es, q, a)
  {
    hide HasType, Target, Length, Limit, PathOf;
  }

  /** If the first place is not written again, room for one is enough there. */
  lemma FirstFits(root: Value, t: Shape, es: seq<Entry>, a: Authorizer)
    requires HasType(root, t) && es != []
    ensures (forall e :: e in es[1..] ==> PathOf(e) != PathOf(es[0])) ==>
              (AppendFits(root, t, es, PathOf(es[0]), a) <==> HasRoom(root, t, PathOf(es[0]), a))
    ensures AppendFits(root, t, es, PathOf(es[0]), a) ==> HasRoom(root, t, PathOf(es[0]), a)
  {
    hide HasType, PathOf, Length, Limit;
    CountsNone(es[1..], PathOf(es[0]));
  }

  lemma {:induction false} CountsNone(es: seq<Entry>, p: seq<Segment>)
    ensures (forall e :: e in es ==> PathOf(e) != p) ==> HowMany(es, p) == 0
  {
    hide PathOf;
    if es != [] { CountsNone(es[1..], p); }
  }

  /** The commit of a consistent batch runs to the end with OK exactly when its
      appends fit; otherwise it dereferences a null pointer on the way. */
  lemma {:induction false} CommitIff(root: Value, t: Shape, es: seq<Entry>, a: Authorizer)
    requires HasType(root, t) && WellFormed(t) && t.TStruct? && Consistent(root, t, es, a)
    ensures var outcome := Commit(root, t, es, Ok, a);
            if AppendsFit(root, t, es, a) then outcome.Done? && outcome.status == Ok else outcome.NullDereference?
    decreases |es|
  {
    hide WellFormed, HasType, AppendsFit, HasRoom, Resolves, IsPath, SegmentsOf, CommitEntry, Kept;
    if es != [] {
      var p := PathOf(es[0]);
      assert es[0] in es && Resolves(root, t, p, es[0].value, a);
      ResolvedCommits(root, t, p, es[0].value, a);
      if HasRoom(root, t, p, a) {
        var after := StepConsistent(root, t, es, a);
        CommitIff(after, t, es[1..], a);
        AppendFitsStep(root, after, t, es, a);
      } else {
        FirstHasRoom(root, t, es, a);
      }
    } else {
      NoAppends(root, t, a);
    }
  }

  lemma NoAppends(root: Value, t: Shape, a: Authorizer)
    requires HasType(root, t)
    ensures AppendsFit(root, t, [], a)
  {
  }

  lemma FirstHasRoom(root: Value, t: Shape, es: seq<Entry>, a: Authorizer)
    requires HasType(root, t) && es != []
    ensures AppendsFit(root, t, es, a) ==> HasRoom(root, t, PathOf(es[0]), a)
  {
    hide HasType, AppendFits, HasRoom, PathOf;
    FirstFits(root, t, es, a);
    assert es[0] in es;
  }

  /** The overlap test ensures that for batches that spell their oids canonically. */
  lemma CanonicalNoneInside(root: Value, t: Shape, es: seq<Entry>, multiSet: bool, a: Authorizer)
    requires HasType(root, t) && WellFormed(t) && Try(root, t, es, multiSet, Ok, a) == Returned(Ok) && AllCanonical(es)
    ensures NoneInside(es)
  {
    TryIff(root, t, es, multiSet, Ok, a);
    hide HasType, WellFormed, Try, Acceptable, PathOf, AllCanonical;
    forall e, f | e in es && f in es ensures !(PathOf(e) < PathOf(f)) {
      var i :| 0 <= i < |es| && es[i] == e;
      var j :| 0 <= j < |es| && es[j] == f;
      CanonicalPair(root, t, es, i, j, a);
    }
  }

  lemma CanonicalPair(root: Value, t: Shape, es: seq<Entry>, i: nat, j: nat, a: Authorizer)
    requires HasType(root, t) && WellFormed(t) && Acceptable(root, t, es, [], a) && AllCanonical(es)
    requires i < |es| && j < |es|
    ensures !(PathOf(es[i]) < PathOf(es[j]))
  {
    hide HasType, WellFormed, Accept, Overlap, IsPath, SegmentsOf, IsAppend, Print;
    if i < j {
      DisjointTextsApart(es[i].oid, es[j].oid);
    } else if j < i {
      DisjointTextsApart(es[j].oid, es[i].oid);
    }
    if IsAppend(PathOf(es[i])) {
      NothingBehindAppend(root, t, PathOf(es[i]), PathOf(es[j]), es[j].value, a);
    }
  }

  /** No accepted path leads on behind an append. */
  lemma NothingBehindAppend(root: Value, t: Shape, p: seq<Segment>, q: seq<Segment>, w: Wire, a: Authorizer)
    requires HasType(root, t) && WellFormed(t) && Accept(root, t, q, w, a) == Ok && IsAppend(p)
    ensures !(p < q)
  {
    hide HasType, WellFormed, At, Validate;
    if p < q {
      var rd, b := RootDescriptor(t), ParentOf(q);
      assert p <= b && p + b[|p|..] == b;
      AtPrefix(root, t, rd, p, b[|p|..], a);
      assert p[..|p| - 1] + [APPEND] == p;
      RootDescribed(t);
      AtUnsplit(root, t, rd, p[..|p| - 1], APPEND, a);
      var nav := At(root, t, rd, p[..|p| - 1], a);
      NothingAtAppend(nav.v, nav.t, nav.pd, a);
    }
  }

  /** Acceptable batches with none inside another are consistent once no oid ends in the
      sentinel. */
  lemma AcceptableConsistent(root: Value, t: Shape, es: seq<Entry>, a: Authorizer)
    requires HasType(root, t) && WellFormed(t) && t.TStruct?
    requires Acceptable(root, t, es, [], a) && NoneInside(es) && NoSentinel(es)
    ensures Consistent(root, t, es, a)
  {
    hide HasType, WellFormed, Accept, Resolves, Overlap, IsPath, SegmentsOf, HasRoom, NoneInside;
    forall e | e in es
      ensures Parse(e.oid).Parsed? && Resolves(root, t, PathOf(e), e.value, a)
    {
      var i :| 0 <= i < |es| && es[i] == e;
      AcceptedResolves(root, t, PathOf(e), e.value, a);
    }
  }

  lemma NothingAtAppend(v: Value, t: Shape, pd: Descriptor, a: Authorizer)
    requires HasType(v, t)
    ensures At(v, t, pd, [APPEND], a).Fail?
  {
  }

  lemma {:induction false} AtPrefix(v: Value, t: Shape, pd: Descriptor, p: seq<Segment>, r: seq<Segment>, a: Authorizer)
    requires HasType(v, t) && At(v, t, pd, p + r, a).Found?
    ensures At(v, t, pd, p, a).Found?
    decreases |p|
  {
    if p != [] {
      var k := Slot(v, t, p[0]);
      assert (p + r)[1..] == p[1..] + r && (p + r)[0] == p[0];
      AtPrefix(Children(v)[k], ChildShape(v, t, k), ChildDescriptor(v, t, pd, k), p[1..], r, a);
    }
  }

  /** A batch whose oid ends in the sentinel is never committed. */
  lemma {:induction false} SentinelNeverCommits(root: Value, t: Shape, es: seq<Entry>, ans: Status, a: Authorizer)
    requires HasType(root, t) && WellFormed(t)
    requires forall i :: 0 <= i < |es| ==> Parse(es[i].oid).Parsed?
    ensures Commit(root, t, es, ans, a).Done? ==> NoSentinel(es)
    decreases |es|
  {
    hide WellFormed, HasType, IsPath, SegmentsOf, CommitEntry;
    if es != [] && Commit(root, t, es, ans, a).Done? {
      var p, rest := PathOf(es[0]), es[1..];
      var first := CommitEntry(root, t, p, es[0].value, a);
      SentinelNeverCommits(first.root, t, rest, first.status, a);
      assert forall i :: 0 < i < |es| ==> es[i] == rest[i - 1];
      if EndsInSentinel(p) { SentinelCrashes(root, t, p, es[0].value, a); }
    }
  }

  /** Exactly which accepted batches commit: those in which every append finds room
      and no oid ends in the number reserved for `no index`. The validation checks
      each append against the array as it was before the batch, so a batch can be
      accepted and then crash the commit. */
  lemma AcceptedCommitsIff(root: Value, t: Shape, es: seq<Entry>, multiSet: bool, a: Authorizer)
    requires HasType(root, t) && WellFormed(t) && t.TStruct? && NoneInside(es)
    requires Try(root, t, es, multiSet, Ok, a) == Returned(Ok)
    ensures var outcome := Commit(root, t, es, Ok, a);
            (outcome.Done? && outcome.status == Ok) <==> NoSentinel(es) && AppendsFit(root, t, es, a)
  {
    hide HasType, WellFormed, AppendsFit, Try, Commit;
    TryIff(root, t, es, multiSet, Ok, a);
    if NoSentinel(es) {
      AcceptableConsistent(root, t, es, a);
      CommitIff(root, t, es, a);
    } else {
      SentinelNeverCommits(root, t, es, Ok, a);
    }
  }
}

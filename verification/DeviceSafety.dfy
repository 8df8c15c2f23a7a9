/** Whole runs of `setValue`: every state they reach conforms to the descriptors. */
module DeviceSafety {
  import opened Types
  import opened StructInfo
  import opened CodecProperties
  import opened Navigation
  import opened Paths
  import opened Transactions
  import opened BatchProperties
  import opened BatchOutcome

  /** The array around the written element stays within its bounds. */
  ghost predicate BoundsKept(v: Value, t: Shape, pd: Descriptor, p: seq<Segment>, a: Authorizer, nv: Value)
    requires HasType(v, t)
  {
    EndsInIndex(p) ==>
      var nav := At(v, t, pd, p[..|p| - 1], a);
      nav.Found? && nav.v.Array? ==>
        var items := ItemsAfter(nav.v.items, p[|p| - 1].i, nv);
        && |items| <= nav.pd.maxLength
        && (nav.t.TArray? && nav.t.element.TString? ==> TotalLength(StringsOf(items)) <= nav.pd.totalLength)
  }

  function ItemsAfter(items: seq<Value>, i: nat, nv: Value): seq<Value> {
    if i == K_END then items + [nv] else if i < |items| then items[i := nv] else items
  }

  /** `BoundsKept` follows the path down. */
  lemma BoundsStep(v: Value, t: Shape, pd: Descriptor, p: seq<Segment>, a: Authorizer, nv: Value)
    requires HasType(v, t) && |p| > 1 && Target(v, t, pd, p, a).Some?
    requires BoundsKept(v, t, pd, p, a, nv)
    ensures StepStatus(v, t, pd, p[0], a) == Ok
    ensures var k := Slot(v, t, p[0]);
      BoundsKept(Children(v)[k], ChildShape(v, t, k), ChildDescriptor(v, t, pd, k), p[1..], a, nv)
  {
    TargetStep(v, t, pd, p, a);
    assert p[..|p| - 1][1..] == p[1..][..|p| - 2];
    assert p[1..][|p| - 2] == p[|p| - 1];
    var k := Slot(v, t, p[0]);
    if |p| == 2 { assert p[1..][..0] == []; }
    LeafHasNoTarget(Children(v)[k], ChildShape(v, t, k), ChildDescriptor(v, t, pd, k), p[1..], a);
  }

  /** A conforming value written where it belongs leaves the whole conforming, as long
      as the array it is an element of stays within bounds. */
  lemma {:induction false} PutConforms(v: Value, t: Shape, pd: Descriptor, p: seq<Segment>, a: Authorizer, nv: Value)
    requires HasType(v, t) && Conforms(v, t, pd)
    requires Target(v, t, pd, p, a).Some? && Addressable(v, t, pd, p, a) && BoundsKept(v, t, pd, p, a, nv)
    requires var target := Target(v, t, pd, p, a).value;
      HasType(nv, target.0) && Conforms(nv, target.0, target.1)
    ensures HasType(Put(v, t, p, nv), t) && Conforms(Put(v, t, p, nv), t, pd)
    decreases |p|
  {
    hide At, StepStatus, Slot, Addressable, WellFormed;
    PutTyped(v, t, pd, p, a, nv);
    if p == [APPEND] && t.TArray? {
      AppendTarget(v, t, pd, a);
      AppendConforms(v, t, pd, a, nv);
    } else if p != [] {
      TargetStep(v, t, pd, p, a);
      var k := Slot(v, t, p[0]);
      var c, d := ChildShape(v, t, k), ChildDescriptor(v, t, pd, k);
      if |p| > 1 {
        BoundsStep(v, t, pd, p, a, nv);
        LeafHasNoTarget(Children(v)[k], c, d, p[1..], a);
      } else {
        OneStepBounds(v, t, pd, p[0], a, nv);
        assert p == [p[0]];
      }
      PutConforms(Children(v)[k], c, d, p[1..], a, nv);
      ChildConforms(v, t, pd, k, Put(Children(v)[k], c, p[1..], nv));
    } else {
      EmptyTarget(v, t, pd, a);
    }
  }

  lemma EmptyTarget(v: Value, t: Shape, pd: Descriptor, a: Authorizer)
    requires HasType(v, t)
    ensures Target(v, t, pd, [], a) == Some((t, pd))
  {
  }

  lemma OneStepBounds(v: Value, t: Shape, pd: Descriptor, s: Segment, a: Authorizer, nv: Value)
    requires HasType(v, t) && StepStatus(v, t, pd, s, a) == Ok && BoundsKept(v, t, pd, [s], a, nv)
    ensures t.TArray? && t.element.TString? ==>
      TotalLength(StringsOf(v.items[Slot(v, t, s) := nv])) <= pd.totalLength
  {
    assert [s][..0] == [];
  }

  lemma AppendConforms(v: Value, t: Shape, pd: Descriptor, a: Authorizer, nv: Value)
    requires HasType(v, t) && Conforms(v, t, pd) && t.TArray? && BoundsKept(v, t, pd, [APPEND], a, nv)
    requires |v.items| + 1 < K_NONE && HasType(nv, t.element) && Conforms(nv, t.element, pd)
    ensures HasType(Array(v.items + [nv]), t) && Conforms(Array(v.items + [nv]), t, pd)
  {
    assert [APPEND][..0] == [];
  }

  /** Replacing a part by a conforming one. Inside an array of strings the total has
      to be looked at as well. */
  lemma ChildConforms(v: Value, t: Shape, pd: Descriptor, k: nat, c: Value)
    requires HasType(v, t) && Conforms(v, t, pd) && k < |Children(v)|
    requires HasType(c, ChildShape(v, t, k)) && Conforms(c, ChildShape(v, t, k), ChildDescriptor(v, t, pd, k))
    requires t.TArray? && t.element.TString? ==> TotalLength(StringsOf(v.items[k := c])) <= pd.totalLength
    ensures HasType(WithChild(v, k, c), t) && Conforms(WithChild(v, k, c), t, pd)
  {
    ChildReplaced(v, t, k, c);
  }

  // ----------------------------------------------------------- single writes

  lemma {:induction false} TotalLengthAppend(x: seq<string>, s: string)
    ensures TotalLength(x + [s]) == TotalLength(x) + |s|
  {
    if x == [] {
      assert x + [s] == [s] && [s][1..] == [];
    } else {
      TotalLengthAppend(x[1..], s);
      assert (x + [s])[1..] == x[1..] + [s];
    }
  }

  /** The trackers of a string array add up to its total length. */
  lemma {:induction false} SumOfSizes(items: seq<Value>)
    requires forall k :: 0 <= k < |items| ==> items[k].Str?
    ensures Sum(Sizes(items)) == TotalLength(StringsOf(items))
  {
    if items != [] {
      var n := |items| - 1;
      SumOfSizes(items[..n]);
      assert Sizes(items)[..n] == Sizes(items[..n]);
      assert StringsOf(items) == StringsOf(items[..n]) + [items[n].s];
      TotalLengthAppend(StringsOf(items[..n]), items[n].s);
    }
  }

  /** An accepted element write keeps the bounds of its array. */
  lemma AcceptedKeepsBounds(root: Value, t: Shape, p: seq<Segment>, w: Wire, a: Authorizer)
    requires HasType(root, t) && WellFormed(t) && t.TStruct?
    requires Accept(root, t, p, w, a) == Ok && !EndsInSentinel(p) && Resolves(root, t, p, w, a)
    ensures var target := Target(root, t, RootDescriptor(t), p, a).value;
      BoundsKept(root, t, RootDescriptor(t), p, a, Decode(w, target.0, target.1))
  {
    hide At, Valid;
    if EndsInIndex(p) {
      var rd := RootDescriptor(t);
      var param := GetParam(root, t, ParentOf(p), a);
      AtTyped(root, t, rd, ParentOf(p), a);
      ValidatedElement(w, IndexOf(p), param, a);
      var target := Target(root, t, rd, p, a).value;
      ElementTarget(root, t, p, a);
      ElementBounds(w, IndexOf(p), param, a, Decode(w, target.0, target.1));
    }
  }

  lemma ElementTarget(root: Value, t: Shape, p: seq<Segment>, a: Authorizer)
    requires HasType(root, t) && WellFormed(t) && EndsInIndex(p)
    requires Target(root, t, RootDescriptor(t), p, a).Some?
    ensures var nav := At(root, t, RootDescriptor(t), ParentOf(p), a);
            nav.Found? && nav.t.TArray? ==>
              Target(root, t, RootDescriptor(t), p, a) == Some((nav.t.element, nav.pd))
  {
    assert ParentOf(p) + [p[|p| - 1]] == p;
    AtTyped(root, t, RootDescriptor(t), ParentOf(p), a);
    if p[|p| - 1] != APPEND { AtUnsplit(root, t, RootDescriptor(t), ParentOf(p), p[|p| - 1], a); }
  }

  lemma ElementBounds(w: Wire, index: nat, param: Nav, a: Authorizer, nv: Value)
    requires param.Found? && HasType(param.v, param.t) && param.t.TArray?
    requires Validate(w, index, param, a) == Ok && index != K_NONE
    requires nv == Decode(w, param.t.element, param.pd)
    ensures var items := ItemsAfter(param.v.items, index, nv);
            && |items| <= param.pd.maxLength
            && (param.t.element.TString? ==> TotalLength(StringsOf(items)) <= param.pd.totalLength)
  {
    var items := ItemsAfter(param.v.items, index, nv);
    var before := Trackers(|param.v.items|, Sizes(param.v.items));
    var after := Replay(before, index, WireSize(w));
    if param.t.element.TString? {
      assert nv == Str(w.s) && WireSize(w) == |w.s|;
      assert Sizes(items) == after.lengths;
      SumOfSizes(items);
    }
  }

  /** One `setValue`: it answers with an error and changes nothing, or writes the decoded
      value; either way a device that conformed still does. */
  lemma SetValueSafe(root: Value, t: Shape, entry: Entry, a: Authorizer)
    requires HasType(root, t) && WellFormed(t) && t.TStruct?
    ensures var r := SetValue(root, t, entry, a);
            && HasType(r.root, t)
            && (Conforms(root, t, RootDescriptor(t)) ==> Conforms(r.root, t, RootDescriptor(t)))
            && (r.Answered? && r.status == Ok <==>
                  Parse(entry.oid).Parsed? && Accept(root, t, PathOf(entry), entry.value, a) == Ok
                  && !EndsInSentinel(PathOf(entry)))
            && (r.Answered? && r.status == Ok ==>
                  var target := Target(root, t, RootDescriptor(t), PathOf(entry), a);
                  && target.Some?
                  && r.root == Put(root, t, PathOf(entry), Decode(entry.value, target.value.0, target.value.1)))
            && (!(r.Answered? && r.status == Ok) ==> r.root == root)
  {
    hide Accept, Parse, At, Target, Valid, Decode, Put, HasType, WellFormed, Conforms, CommitEntry;
    var es := [entry];
    TryIff(root, t, es, true, Ok, a);
    assert Acceptable(root, t, es, [], a) <==>
      Parse(es[0].oid).Parsed? && Accept(root, t, Parse(es[0].oid).segments, es[0].value, a) == Ok;
    if Acceptable(root, t, es, [], a) {
      var p := PathOf(entry);
      CommitOne(root, t, entry, a);
      if EndsInSentinel(p) {
        SentinelCrashes(root, t, p, entry.value, a);
      } else {
        var target := Target(root, t, RootDescriptor(t), p, a);
        AcceptedResolves(root, t, p, entry.value, a);
        ResolvedCommits(root, t, p, entry.value, a);
        WrittenTyped(root, t, p, entry.value, a);
        AcceptedKeepsBounds(root, t, p, entry.value, a);
        var nv := Decode(entry.value, target.value.0, target.value.1);
        PutTyped(root, t, RootDescriptor(t), p, a, nv);
        if Conforms(root, t, RootDescriptor(t)) { PutConforms(root, t, RootDescriptor(t), p, a, nv); }
      }
    }
  }

  lemma CommitOne(root: Value, t: Shape, entry: Entry, a: Authorizer)
    requires HasType(root, t) && WellFormed(t) && Parse(entry.oid).Parsed?
    ensures Commit(root, t, [entry], Ok, a) == CommitEntry(root, t, PathOf(entry), entry.value, a)
  {
    hide HasType, WellFormed, IsPath, SegmentsOf, CommitEntry;
    var first := CommitEntry(root, t, PathOf(entry), entry.value, a);
    assert [entry][1..] == [];
    assert first.Done? ==> Commit(first.root, t, [], first.status, a) == Done(first.root, first.status);
  }

  /** The states of a device under any sequence of `setValue` calls by any clients. */
  ghost predicate IsRun(states: seq<Value>, t: Shape, calls: seq<(Entry, Authorizer)>)
    requires WellFormed(t)
  {
    && |states| == |calls| + 1
    && forall i :: 0 <= i < |calls| ==> IsCall(states[i], t, calls[i], states[i + 1])
  }

  ghost predicate IsCall(before: Value, t: Shape, call: (Entry, Authorizer), after: Value)
    requires WellFormed(t)
  {
    HasType(before, t) && after == SetValue(before, t, call.0, call.1).root
  }

  /** Whole-run safety: ranges, choices, array lengths and total string lengths hold in
      every state that a run of single writes reaches from a conforming one. */
  lemma {:induction false} RunSafe(states: seq<Value>, t: Shape, calls: seq<(Entry, Authorizer)>, k: nat)
    requires WellFormed(t) && t.TStruct? && IsRun(states, t, calls) && k <= |calls|
    requires HasType(states[0], t) && Conforms(states[0], t, RootDescriptor(t))
    ensures HasType(states[k], t) && Conforms(states[k], t, RootDescriptor(t))
  {
    hide HasType, WellFormed, Conforms, SetValue;
    if k > 0 {
      RunSafe(states, t, calls, k - 1);
      assert IsCall(states[k - 1], t, calls[k - 1], states[k - 1 + 1]);
      SetValueSafe(states[k - 1], t, calls[k - 1].0, calls[k - 1].1);
    }
  }
}

/** Which entries are accepted, said without the validation, and what is stored for them. */
module SingleWrites {
  import opened Types
  import opened Constraints
  import opened StructInfo
  import opened CodecProperties
  import opened Navigation
  import opened Paths
  import opened Transactions
  import opened BatchProperties
  import opened BatchOutcome
  import opened BatchOrder
  import opened Acceptance
  import DeviceSafety

  // ------------------------------------------------------------------ acceptance

  /** A whole value: `max_length` bounds texts and lists, also where the codec asks nothing. */
  ghost predicate WholeTaken(param: Nav, w: Wire, a: Authorizer) {
    && param.Found? && !w.KindNotSet? && !w.Unsupported?
    && Taken(w, param.t, param.pd, a)
    && (w.StringWire? ==> |w.s| <= param.pd.maxLength)
    && |Items(w)| <= param.pd.maxLength
  }

  /** The texts of an array together, if the one at `i` becomes as long as this. */
  ghost function TogetherWith(items: seq<Value>, i: nat, length: nat): int {
    TotalLength(StringsOf(items)) + length - if i < |items| && items[i].Str? then |items[i].s| else 0
  }

  /** An element: it is there, or one more has room, and texts fit together. */
  ghost predicate ElementTaken(param: Nav, i: nat, w: Wire, a: Authorizer) {
    && param.Found? && param.t.TArray? && param.v.Array?
    && (if i == K_END then |param.v.items| < param.pd.maxLength
        else i < |param.v.items| <= param.pd.maxLength)
    && Taken(w, param.t.element, param.pd, a)
    && (param.t.element.TString? && w.StringWire? ==> TogetherWith(param.v.items, i, |w.s|) <= param.pd.totalLength)
  }

  /** What the path leads to takes the value: the array, if it ends in an index that is not the
      reserved one, and otherwise the param itself. */
  ghost predicate Takes(root: Value, t: Shape, p: seq<Segment>, w: Wire, a: Authorizer)
    requires HasType(root, t)
  {
    var whole := p == [] || p[|p| - 1].Name?;
    var b := if whole then p else p[..|p| - 1];
    var param := At(root, t, RootDescriptor(t), b, a);
    b != [] && if whole || p[|p| - 1] == Index(K_NONE) then WholeTaken(param, w, a)
               else ElementTaken(param, p[|p| - 1].i, w, a)
  }

  lemma AcceptIff(root: Value, t: Shape, p: seq<Segment>, w: Wire, a: Authorizer)
    requires HasType(root, t) && WellFormed(t)
    ensures Accept(root, t, p, w, a) == Ok <==> Takes(root, t, p, w, a)
  {
    var b := ParentOf(p);
    RootDescribed(t);
    AtTyped(root, t, RootDescriptor(t), b, a);
    hide At, HasType, WellFormed, Describes, Validate, WholeTaken, ElementTaken;
    var param := GetParam(root, t, b, a);
    if param.Found? {
      if IndexOf(p) == K_NONE { WholeIff(w, param, a); } else { ElementIff(w, IndexOf(p), param, a); }
    } else {
      NothingTaken(param, IndexOf(p), w, a);
    }
  }

  lemma NothingTaken(param: Nav, i: nat, w: Wire, a: Authorizer)
    requires param.Fail?
    ensures !WholeTaken(param, w, a) && !ElementTaken(param, i, w, a)
  {
  }

  lemma WholeIff(w: Wire, param: Nav, a: Authorizer)
    requires param.Found? && HasType(param.v, param.t) && Describes(param.pd, param.t)
    ensures Validate(w, K_NONE, param, a) == Ok <==> WholeTaken(param, w, a)
  {
    ValidIff(w, param.t, param.pd, a);
    hide Valid, Taken, HasType, Describes;
    ListKind(w, param.t, param.pd, a);
  }

  lemma ListKind(w: Wire, t: Shape, pd: Descriptor, a: Authorizer)
    ensures t.TArray? && Taken(w, t, pd, a) ==> IsListKind(w)
  {
    if t.TArray? && Taken(w, t, pd, a) { assert ListTaken(w, t.element, pd, a); }
  }

  lemma ElementIff(w: Wire, i: nat, param: Nav, a: Authorizer)
    requires param.Found? && HasType(param.v, param.t) && Describes(param.pd, param.t) && i != K_NONE
    ensures Validate(w, i, param, a) == Ok <==> ElementTaken(param, i, w, a)
  {
    if param.t.TArray? {
      ValidIff(w, param.t.element, param.pd, a);
      if Taken(w, param.t.element, param.pd, a) && (i == K_END || i < |param.v.items|) {
        ElementKind(w, param.t.element, param.pd, a);
        LengthsIff(w, i, param, a);
      }
      hide Taken, Valid, HasType, Describes, Sum, Replay, TogetherWith;
      ElementValidated(w, i, param, a);
    }
  }

  lemma ElementKind(w: Wire, element: Shape, pd: Descriptor, a: Authorizer)
    requires WellFormed(TArray(element)) && Taken(w, element, pd, a)
    ensures !w.KindNotSet? && !w.Unsupported? && !IsListKind(w) && (w.StringWire? <==> element.TString?)
  {
  }

  /** The validation of an element, as far as its lengths. */
  lemma ElementValidated(w: Wire, i: nat, param: Nav, a: Authorizer)
    requires param.Found? && HasType(param.v, param.t) && param.t.TArray? && param.v.Array? && i != K_NONE
    ensures !w.KindNotSet? && !w.Unsupported? && !IsListKind(w) && (i == K_END || i < |param.v.items|) ==>
              (Validate(w, i, param, a) == Ok <==>
                 && Valid(w, param.t.element, param.pd, a) == Ok
                 && var after := Replay(Trackers(|param.v.items|, Sizes(param.v.items)), i, WireSize(w));
                    after.count <= param.pd.maxLength && Sum(after.lengths) <= param.pd.totalLength)
    ensures w.KindNotSet? || w.Unsupported? || IsListKind(w) || !(i == K_END || i < |param.v.items|) ==>
              Validate(w, i, param, a) != Ok
  {
    hide Valid, Sum;
  }

  lemma LengthsIff(w: Wire, i: nat, param: Nav, a: Authorizer)
    requires param.Found? && HasType(param.v, param.t) && Describes(param.pd, param.t) && param.t.TArray?
    requires Taken(w, param.t.element, param.pd, a) && (i == K_END || i < |param.v.items|)
    ensures var after := Replay(Trackers(|param.v.items|, Sizes(param.v.items)), i, WireSize(w));
            Sum(after.lengths)
            == if param.t.element.TString? then TogetherWith(param.v.items, i, |w.s|) else 0
  {
    var items, lengths := param.v.items, Sizes(param.v.items);
    if param.t.element.TString? {
      DeviceSafety.SumOfSizes(items);
      if i == K_END { SumAppended(lengths, WireSize(w)); } else { SumUpdated(lengths, i, WireSize(w)); }
    } else {
      assert WireSize(w) == 0;
      forall k | 0 <= k < |lengths| ensures lengths[k] == 0 { assert HasType(items[k], param.t.element); }
      SumZero(Replay(Trackers(|items|, lengths), i, WireSize(w)).lengths);
    }
  }

  lemma SumAppended(lengths: seq<nat>, x: nat)
    ensures Sum(lengths + [x]) == Sum(lengths) + x
  {
    assert (lengths + [x])[..|lengths|] == lengths;
  }

  lemma {:induction false} SumUpdated(lengths: seq<nat>, i: nat, x: nat)
    requires i < |lengths|
    ensures Sum(lengths[i := x]) == Sum(lengths) - lengths[i] + x
  {
    var n := |lengths| - 1;
    if i < n {
      SumUpdated(lengths[..n], i, x);
      assert lengths[i := x][..n] == lengths[..n][i := x];
    } else {
      assert lengths[i := x][..n] == lengths[..n];
    }
  }

  lemma {:induction false} SumZero(lengths: seq<nat>)
    requires forall k :: 0 <= k < |lengths| ==> lengths[k] == 0
    ensures Sum(lengths) == 0
  {
    if lengths != [] { SumZero(lengths[..|lengths| - 1]); }
  }

  // --------------------------------------------------------------- what is stored

  /** `setValue` succeeds exactly for an oid that parses, to something that takes the value,
      and does not end in the reserved index. */
  lemma SetValueIff(root: Value, t: Shape, entry: Entry, a: Authorizer)
    requires HasType(root, t) && WellFormed(t) && t.TStruct?
    ensures var r := SetValue(root, t, entry, a);
            && (r.Answered? && r.status == Ok <==>
                  && Parse(entry.oid).Parsed? && Takes(root, t, PathOf(entry), entry.value, a)
                  && !EndsInSentinel(PathOf(entry)))
            && (!(r.Answered? && r.status == Ok) ==> r.root == root)
  {
    hide HasType, WellFormed, SetValue, Accept, Takes, Parse, Target, Conforms;
    AcceptIff(root, t, PathOf(entry), entry.value, a);
    DeviceSafety.SetValueSafe(root, t, entry, a);
  }

  /** A path that leads to a leaf and does not append: what `setValue` stores there. */
  lemma LeafStored(root: Value, t: Shape, entry: Entry, a: Authorizer)
    requires HasType(root, t) && WellFormed(t) && t.TStruct? && Parse(entry.oid).Parsed?
    requires SetValue(root, t, entry, a).Answered? && SetValue(root, t, entry, a).status == Ok
    requires At(root, t, RootDescriptor(t), PathOf(entry), a).Found? && !IsAppend(PathOf(entry))
    ensures var before := At(root, t, RootDescriptor(t), PathOf(entry), a);
            At(SetValue(root, t, entry, a).root, t, RootDescriptor(t), PathOf(entry), a)
            == Found(before.t, before.pd, Decode(entry.value, before.t, before.pd))
  {
    hide HasType, WellFormed, SetValue, Accept, Parse, At, Conforms, Decode, Put, Valid, CommitEntry;
    var p := PathOf(entry);
    DeviceSafety.SetValueSafe(root, t, entry, a);
    AcceptedResolves(root, t, p, entry.value, a);
    ResolvedCommits(root, t, p, entry.value, a);
    GoodReads(root, t, entry, a);
  }

  /** What becomes of an integer under a range: the nearest end if it is outside, and otherwise
      the last multiple of the step up to it. */
  ghost predicate IntRanged(min: int32, max: int32, step: nat, i: int32, x: int32) {
    && (i < min ==> x == min) && (i > max ==> x == max)
    && (min <= i <= max ==>
          if step == 0 then x == i else x <= i < x + step && (x - min) % step == 0)
  }

  /** And of a float: the nearest end, and otherwise the nearest grid point, the upper one of two,
      or the maximum if that lies above it. */
  ghost predicate FloatRanged(min: real, max: real, step: real, f: real, x: real) {
    && (f < min ==> x == min) && (f > max ==> x == max)
    && (min <= f <= max ==>
          if step == 0.0 then x == f
          else exists n: nat :: Nearest(min, step, f, n) &&
                 x == if GridAt(min, step, n) > max then max else GridAt(min, step, n))
  }

  /** What takes a value that is set by name stores it. */
  lemma LeafSet(root: Value, t: Shape, entry: Entry, a: Authorizer)
    requires HasType(root, t) && WellFormed(t) && t.TStruct? && Parse(entry.oid).Parsed?
    requires PathOf(entry) != [] && PathOf(entry)[|PathOf(entry)| - 1].Name?
    requires var nav := At(root, t, RootDescriptor(t), PathOf(entry), a);
             nav.Found? && WholeTaken(nav, entry.value, a)
    ensures var r, nav := SetValue(root, t, entry, a), At(root, t, RootDescriptor(t), PathOf(entry), a);
            && nav.t == nav.pd.shape && WellFormedDescriptor(nav.pd)
            && r.Answered? && r.status == Ok
            && At(r.root, t, RootDescriptor(t), PathOf(entry), a)
               == Found(nav.t, nav.pd, Decode(entry.value, nav.t, nav.pd))
  {
    hide HasType, WellFormed, SetValue, Parse, At, Decode, WholeTaken;
    NameFound(root, t, PathOf(entry), a);
    SetValueIff(root, t, entry, a);
    LeafStored(root, t, entry, a);
  }

  /** A writer may set a ranged integer to anything, and it is brought into the range. */
  lemma IntStored(root: Value, t: Shape, entry: Entry, a: Authorizer, min: int32, max: int32, step: nat)
    requires HasType(root, t) && WellFormed(t) && t.TStruct? && Parse(entry.oid).Parsed?
    requires var nav := At(root, t, RootDescriptor(t), PathOf(entry), a);
             && PathOf(entry) != [] && PathOf(entry)[|PathOf(entry)| - 1].Name?
             && nav.Found? && nav.t.TInt? && nav.pd.constraint == Some(IntRange(min, max, step)) && MayWrite(nav.pd, a)
    requires entry.value.Int32Wire?
    ensures var r, nav := SetValue(root, t, entry, a), At(root, t, RootDescriptor(t), PathOf(entry), a);
            && r.Answered? && r.status == Ok
            && var after := At(r.root, t, RootDescriptor(t), PathOf(entry), a);
               && after.Found? && after.v.Int? && IntRanged(min, max, step, entry.value.i, after.v.i)
  {
    hide HasType, WellFormed, SetValue, Parse, At, Decode, IntRanged;
    var nav := At(root, t, RootDescriptor(t), PathOf(entry), a);
    LeafSet(root, t, entry, a);
    hide WholeTaken, Taken, MayWrite;
    IntRangedTo(min, max, step, entry.value.i, nav.pd);
  }

  lemma IntRangedTo(min: int32, max: int32, step: nat, i: int32, pd: Descriptor)
    requires min <= max && pd.constraint == Some(IntRange(min, max, step))
    ensures var x := Decode(Int32Wire(i), TInt, pd); x.Int? && IntRanged(min, max, step, i, x.i)
  {
    if min <= i <= max && step > 0 { ApplyIntIsGreatestGridPoint(min, max, step, i, 0); }
  }

  /** A param that is found by name has a descriptor of its own. */
  lemma NameFound(root: Value, t: Shape, p: seq<Segment>, a: Authorizer)
    requires HasType(root, t) && WellFormed(t) && p != [] && p[|p| - 1].Name?
    requires At(root, t, RootDescriptor(t), p, a).Found?
    ensures var nav := At(root, t, RootDescriptor(t), p, a); nav.t == nav.pd.shape && Describes(nav.pd, nav.t)
  {
    hide HasType, WellFormed, At, Describes;
    RootDescribed(t);
    AtTyped(root, t, RootDescriptor(t), p, a);
    assert p[..|p| - 1] + [p[|p| - 1]] == p;
    LastName(root, t, RootDescriptor(t), p[..|p| - 1], p[|p| - 1], a);
  }

  lemma LastName(v: Value, t: Shape, pd: Descriptor, b: seq<Segment>, s: Segment, a: Authorizer)
    requires HasType(v, t) && Describes(pd, t) && s.Name? && At(v, t, pd, b + [s], a).Found?
    ensures var nav := At(v, t, pd, b + [s], a); nav.t == nav.pd.shape
  {
    hide HasType, Describes, At;
    AtUnsplit(v, t, pd, b, s, a);
    var parent := At(v, t, pd, b, a);
    NameStep(parent.v, parent.t, parent.pd, s, a);
  }

  lemma NameStep(v: Value, t: Shape, pd: Descriptor, s: Segment, a: Authorizer)
    requires HasType(v, t) && s.Name? && At(v, t, pd, [s], a).Found?
    ensures var nav := At(v, t, pd, [s], a); nav.t == nav.pd.shape
  {
    assert [s][1..] == [];
  }

  /** The same for a float. */
  lemma FloatStored(root: Value, t: Shape, entry: Entry, a: Authorizer, min: real, max: real, step: real)
    requires HasType(root, t) && WellFormed(t) && t.TStruct? && Parse(entry.oid).Parsed?
    requires var nav := At(root, t, RootDescriptor(t), PathOf(entry), a);
             && PathOf(entry) != [] && PathOf(entry)[|PathOf(entry)| - 1].Name?
             && nav.Found? && nav.t.TFloat? && nav.pd.constraint == Some(FloatRange(min, max, step))
             && MayWrite(nav.pd, a)
    requires entry.value.Float32Wire?
    ensures var r, nav := SetValue(root, t, entry, a), At(root, t, RootDescriptor(t), PathOf(entry), a);
            && r.Answered? && r.status == Ok
            && var after := At(r.root, t, RootDescriptor(t), PathOf(entry), a);
               && after.Found? && after.v.Float? && FloatRanged(min, max, step, entry.value.f, after.v.f)
  {
    hide HasType, WellFormed, SetValue, Parse, At, Decode, FloatRanged;
    var nav := At(root, t, RootDescriptor(t), PathOf(entry), a);
    LeafSet(root, t, entry, a);
    hide WholeTaken, Taken, MayWrite;
    FloatRangedTo(min, max, step, entry.value.f, nav.pd);
  }

  lemma FloatRangedTo(min: real, max: real, step: real, f: real, pd: Descriptor)
    requires min <= max && step >= 0.0 && pd.constraint == Some(FloatRange(min, max, step))
    ensures var x := Decode(Float32Wire(f), TFloat, pd); x.Float? && FloatRanged(min, max, step, f, x.f)
  {
    if min <= f <= max && step > 0.0 {
      var n := Rounded(min, step, f);
      GridPointOf(min, step, n);
      hide GridPoint, GridAt;
      assert Nearest(min, step, f, n);
    }
  }

  /** A text param takes exactly the texts that its writers send, that are neither longer than
      `max_length` nor than `total_length`, and among its choices if they are strict. */
  lemma TextAcceptedIff(root: Value, t: Shape, p: seq<Segment>, w: Wire, a: Authorizer)
    requires HasType(root, t) && WellFormed(t) && p != [] && p[|p| - 1].Name?
    requires var nav := At(root, t, RootDescriptor(t), p, a); nav.Found? && nav.t.TString?
    ensures var pd := At(root, t, RootDescriptor(t), p, a).pd;
            Accept(root, t, p, w, a) == Ok <==>
              && w.StringWire? && |w.s| <= pd.maxLength && |w.s| <= pd.totalLength
              && TextTaken(w.s, pd) && MayWrite(pd, a)
  {
    AcceptIff(root, t, p, w, a);
    NameFound(root, t, p, a);
    hide HasType, WellFormed, Accept, At, MayWrite, TextTaken;
  }

  /** So no batch that is accepted leaves a longer text than that where it writes one. */
  lemma BatchTexts(root: Value, t: Shape, es: seq<Entry>, k: nat, multiSet: bool, a: Authorizer)
    requires HasType(root, t) && WellFormed(t) && t.TStruct? && NoneInside(es)
    requires Try(root, t, es, multiSet, Ok, a) == Returned(Ok) && NoSentinel(es) && AppendsFit(root, t, es, a)
    requires k < |es| && PathOf(es[k]) != [] && PathOf(es[k])[|PathOf(es[k])| - 1].Name?
    requires forall j :: k < j < |es| ==> PathOf(es[j]) != PathOf(es[k])
    requires var nav := At(root, t, RootDescriptor(t), PathOf(es[k]), a); nav.Found? && nav.t.TString?
    ensures var p := PathOf(es[k]);
            var before, after := At(root, t, RootDescriptor(t), p, a),
                                 At(Commit(root, t, es, Ok, a).root, t, RootDescriptor(t), p, a);
            && es[k].value.StringWire?
            && after == Found(TString, before.pd, Str(es[k].value.s))
            && |es[k].value.s| <= before.pd.maxLength && |es[k].value.s| <= before.pd.totalLength
  {
    hide HasType, WellFormed, Try, Commit, At, Accept, Consistent, AppendsFit, Acceptable, NoSentinel;
    hide NoneInside, PathOf, Decode, Target, Parse;
    TryIff(root, t, es, multiSet, Ok, a);
    AcceptableConsistent(root, t, es, a);
    TextSent(root, t, es, k, a);
    PayloadReadsBack(root, t, es, k, a);
  }

  lemma TextSent(root: Value, t: Shape, es: seq<Entry>, k: nat, a: Authorizer)
    requires HasType(root, t) && WellFormed(t) && Acceptable(root, t, es, [], a) && k < |es|
    requires PathOf(es[k]) != [] && PathOf(es[k])[|PathOf(es[k])| - 1].Name?
    requires var nav := At(root, t, RootDescriptor(t), PathOf(es[k]), a); nav.Found? && nav.t.TString?
    ensures var p, w := PathOf(es[k]), es[k].value;
            var pd := At(root, t, RootDescriptor(t), p, a).pd;
            && w.StringWire? && |w.s| <= pd.maxLength && |w.s| <= pd.totalLength
            && Target(root, t, RootDescriptor(t), p, a) == Some((TString, pd)) && Decode(w, TString, pd) == Str(w.s)
  {
    assert Accept(root, t, PathOf(es[k]), es[k].value, a) == Ok;
    hide HasType, WellFormed, At, Accept, Acceptable, PathOf, Parse, Decode, Target, TextTaken, MayWrite;
    TextAcceptedIff(root, t, PathOf(es[k]), es[k].value, a);
    TextDecoded(es[k].value, At(root, t, RootDescriptor(t), PathOf(es[k]), a).pd);
    TargetOf(root, t, PathOf(es[k]), a);
  }

  lemma TextDecoded(w: Wire, pd: Descriptor)
    requires w.StringWire?
    ensures Decode(w, TString, pd) == Str(w.s)
  {
  }

  /** Nobody changes what is read-only, whatever scopes they hold, nor anything without the
      write scope. */
  lemma WritersOnly(root: Value, t: Shape, entry: Entry, a: Authorizer)
    requires HasType(root, t) && WellFormed(t) && t.TStruct? && SetValue(root, t, entry, a).root != root
    ensures var target := Target(root, t, RootDescriptor(t), PathOf(entry), a);
            target.Some? && (target.value.0.TEmpty? || MayWrite(target.value.1, a))
  {
    var p := PathOf(entry);
    DeviceSafety.SetValueSafe(root, t, entry, a);
    hide HasType, WellFormed, SetValue, Accept, At, Put, Parse, Conforms, Decode;
    AcceptedResolves(root, t, p, entry.value, a);
    TargetDescribed(root, t, p, a);
    var target := Target(root, t, RootDescriptor(t), p, a).value;
    ValidIff(entry.value, target.0, target.1, a);
  }
}

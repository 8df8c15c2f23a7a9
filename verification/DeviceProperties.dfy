/** Properties that span validation, commit and reading back. */
module DeviceProperties {
  import opened Types
  import opened StructInfo
  import opened CodecProperties
  import opened Navigation
  import opened Paths
  import opened Transactions
  import opened BatchProperties
  import opened BatchOrder
  import opened DeviceSafety
  import opened Parts
  import Authorization
  import DeviceModel

  // -------------------------------------------------------------- set, then get

  /** Whoever may write a value may read what it decodes to. */
  lemma {:induction false} WritersRead(src: Wire, t: Shape, pd: Descriptor, a: Authorizer)
    requires Describes(pd, t) && Valid(src, t, pd, a) == Ok
    ensures Readable(Decode(src, t, pd), t, pd, a)
    decreases t
  {
    match t
    case TStruct(fields) =>
      ValidFieldsIff(src.fields, fields, a);
      forall k | 0 <= k < |fields|
        ensures Readable(Decode(src, t, pd).fields[k], fields[k].pd.shape, fields[k].pd, a)
      {
        WritersRead(src.fields[fields[k].name], fields[k].pd.shape, fields[k].pd, a);
      }
    case TVariant(alternatives) =>
      var k := FindIndex(alternatives, src.alternative);
      WritersRead(src.inner, alternatives[k].pd.shape, alternatives[k].pd, a);
    case TArray(element) =>
      ValidElements(src, element, pd, a);
      forall k | 0 <= k < |Items(src)|
        ensures Readable(Decode(Items(src)[k], element, pd), element, pd, a)
      {
        WritersRead(Items(src)[k], element, pd, a);
      }
    case _ =>
  }

  /** The oid at which a payload is found once it is stored: an append is found at the
      first index that its array did not have. */
  function StoredAt(root: Value, t: Shape, entry: Entry, a: Authorizer): string
    requires HasType(root, t)
  {
    if IsAppend(PathOf(entry)) then Print(Appended(root, t, PathOf(entry), a)) else entry.oid
  }

  /** What `setValue` stores, `getValue` gives the same client back: the message it
      sent, without the fields the device does not know and with ranges applied. */
  lemma SetThenGet(root: Value, t: Shape, entry: Entry, a: Authorizer)
    requires HasType(root, t) && WellFormed(t) && t.TStruct?
    requires SetValue(root, t, entry, a) == Answered(SetValue(root, t, entry, a).root, Ok)
    ensures var target := Target(root, t, RootDescriptor(t), PathOf(entry), a);
            var (status, dst) :=
              DeviceModel.GetValueOf(SetValue(root, t, entry, a).root, t, StoredAt(root, t, entry, a), a);
            && target.Some? && status == Ok
            && Trimmed(entry.value, dst, target.value.0, target.value.1)
  {
    hide HasType, WellFormed, Accept, SetValue, At, Target, Valid, Decode, Encode, Trimmed, Readable, Put, Parse, Print;
    hide CommitEntry, Appended;
    var p, rd := PathOf(entry), RootDescriptor(t);
    SetValueSafe(root, t, entry, a);
    AcceptedResolves(root, t, p, entry.value, a);
    ResolvedCommits(root, t, p, entry.value, a);
    TargetDescribed(root, t, p, a);
    PlainTarget(root, t, p, a);
    var target := Target(root, t, rd, p, a).value;
    if IsAppend(p) {
      GoodAppendReads(root, t, entry, a);
      AppendedParses(root, t, entry.oid, a);
      ReadBack(After(root, t, entry, a), t, StoredAt(root, t, entry, a), Appended(root, t, p, a), entry.value,
               target.0, target.1, a);
    } else {
      GoodReads(root, t, entry, a);
      ReadBack(After(root, t, entry, a), t, entry.oid, p, entry.value, target.0, target.1, a);
    }
  }

  lemma PlainTarget(root: Value, t: Shape, p: seq<Segment>, a: Authorizer)
    requires HasType(root, t)
    ensures var nav := At(root, t, RootDescriptor(t), p, a);
            !IsAppend(p) && nav.Found? ==> Target(root, t, RootDescriptor(t), p, a) == Some((nav.t, nav.pd))
  {
  }

  lemma AppendedParses(root: Value, t: Shape, oid: string, a: Authorizer)
    requires HasType(root, t) && WellFormed(t) && Parse(oid).Parsed? && IsAppend(Parse(oid).segments)
    ensures var q := Appended(root, t, Parse(oid).segments, a);
            Parse(Print(q)) == Parsed(q) && q != [] && !IsAppend(q)
  {
    PrintParsed(oid);
    LengthBelow(root, t, Parse(oid).segments, a);
    hide Length, Parse, Print;
    ParsePrinted(Appended(root, t, Parse(oid).segments, a));
  }

  /** `getValue` answers with a message exactly if the oid parses, does not stand for the end of
      an array, and leads to a param of which the client may read every part; otherwise with the
      reason and no message. */
  lemma GetIff(root: Value, t: Shape, oid: string, a: Authorizer)
    requires HasType(root, t) && WellFormed(t)
    ensures var (status, dst) := DeviceModel.GetValueOf(root, t, oid, a);
            var p := PathOf(Entry(oid, KindNotSet));
            var nav := At(root, t, RootDescriptor(t), p, a);
            && (status == Ok <==>
                  && Parse(oid).Parsed? && p != [] && !IsAppend(p) && nav.Found?
                  && HasType(nav.v, nav.t) && AllParts(nav.v, nav.t, nav.pd, Authorization.MayReadPart(a)))
            && (status == Ok ==> HasType(nav.v, nav.t) && dst == Encode(nav.v, nav.t))
            && (status != Ok ==> dst == KindNotSet)
            && (Parse(oid).Parsed? && p != [] && !IsAppend(p) && status != Ok ==>
                  status == if nav.Fail? then nav.status else PermissionDenied)
            && (Parse(oid).Parsed? && IsAppend(p) ==> status == OutOfRange)
            && (p == [] ==> status == if Parse(oid).IndexTooLarge? then Internal else InvalidArgument)
  {
    var p := PathOf(Entry(oid, KindNotSet));
    AtTyped(root, t, RootDescriptor(t), p, a);
    RootDescribed(t);
    var nav := At(root, t, RootDescriptor(t), p, a);
    hide HasType, WellFormed, At, Encode, Readable, AllParts, Parse, Describes;
    if nav.Found? { Authorization.EncodedIffAllReadable(nav.v, nav.t, nav.pd, a); }
  }

  lemma ReadBack(root: Value, t: Shape, oid: string, q: seq<Segment>, w: Wire, et: Shape, epd: Descriptor,
                 a: Authorizer)
    requires HasType(root, t) && WellFormed(t) && Parse(oid) == Parsed(q) && q != [] && !IsAppend(q)
    requires Describes(epd, et) && Valid(w, et, epd, a) == Ok
    requires At(root, t, RootDescriptor(t), q, a) == Found(et, epd, Decode(w, et, epd))
    ensures var (status, dst) := DeviceModel.GetValueOf(root, t, oid, a); status == Ok && Trimmed(w, dst, et, epd)
  {
    hide HasType, WellFormed, At, Valid, Decode, Encode, Trimmed, Readable, Parse;
    WritersRead(w, et, epd, a);
    EncodeAfterDecode(w, et, epd, a);
  }

  // ------------------------------------------------------------ shadow trackers

  datatype Write = Write(value: Wire, index: nat)

  /** A run of element writes that one fetched array param accepted, with the trackers
      before and after each. */
  ghost predicate AcceptedRun(shadow: seq<Trackers>, writes: seq<Write>, element: Shape, pd: Descriptor, a: Authorizer)
  {
    && |shadow| == |writes| + 1
    && forall i :: 0 <= i < |writes| ==>
         && |shadow[i].lengths| == shadow[i].count
         && ValidateElement(writes[i].value, writes[i].index, element, pd, a, shadow[i]) == (Ok, shadow[i + 1])
  }

  /** The arrays that performing the writes gives. */
  ghost predicate Performed(arrays: seq<seq<Value>>, writes: seq<Write>, element: Shape, pd: Descriptor)
  {
    && |arrays| == |writes| + 1
    && forall i :: 0 <= i < |writes| ==>
         arrays[i + 1] == ItemsAfter(arrays[i], writes[i].index, Decode(writes[i].value, element, pd))
  }

  /** The trackers are a faithful shadow: after any run of accepted writes they hold the
      element count and lengths that the array would have had the writes been made,
      and so every one of those arrays is within both bounds. */
  lemma {:induction false} ShadowRefines(shadow: seq<Trackers>, arrays: seq<seq<Value>>, writes: seq<Write>,
                                         element: Shape, pd: Descriptor, a: Authorizer, k: nat)
    requires WellFormed(TArray(element)) && k <= |writes|
    requires AcceptedRun(shadow, writes, element, pd, a) && Performed(arrays, writes, element, pd)
    requires shadow[0] == Trackers(|arrays[0]|, Sizes(arrays[0]))
    ensures shadow[k] == Trackers(|arrays[k]|, Sizes(arrays[k]))
    ensures k > 0 ==> |arrays[k]| <= pd.maxLength && Sum(Sizes(arrays[k])) <= pd.totalLength
  {
    if k > 0 {
      ShadowRefines(shadow, arrays, writes, element, pd, a, k - 1);
      var write := writes[k - 1];
      assert ValidateElement(write.value, write.index, element, pd, a, shadow[k - 1]) == (Ok, shadow[k - 1 + 1]);
      assert arrays[k - 1 + 1] == ItemsAfter(arrays[k - 1], write.index, Decode(write.value, element, pd));
      hide ValidateElement, ItemsAfter, Decode, Sizes, Sum, AcceptedRun, Performed;
      ShadowStep(arrays[k - 1], write.value, write.index, element, pd, a, shadow[k]);
    }
  }

  lemma ShadowStep(items: seq<Value>, w: Wire, index: nat, element: Shape, pd: Descriptor, a: Authorizer,
                   after: Trackers)
    requires WellFormed(TArray(element)) && |after.lengths| == after.count
    requires ValidateElement(w, index, element, pd, a, Trackers(|items|, Sizes(items))) == (Ok, after)
    ensures var next := ItemsAfter(items, index, Decode(w, element, pd));
            after == Trackers(|next|, Sizes(next)) && |next| <= pd.maxLength && Sum(Sizes(next)) <= pd.totalLength
  {
    hide Valid, Decode, WellFormed, Sum, WireSize;
    ElementSize(w, element, pd, a);
    var next := ItemsAfter(items, index, Decode(w, element, pd));
    assert Sizes(next) == after.lengths;
  }

  lemma ElementSize(w: Wire, element: Shape, pd: Descriptor, a: Authorizer)
    requires WellFormed(TArray(element)) && Valid(w, element, pd, a) == Ok
    ensures SizeOf(Decode(w, element, pd)) == WireSize(w)
  {
  }
}

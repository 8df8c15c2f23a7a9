/** What the statuses of refused entries and batches mean. */
module Refusals {
  import opened Types
  import opened StructInfo
  import opened CodecProperties
  import opened Navigation
  import opened Paths
  import opened Transactions
  import opened BatchProperties
  import opened Acceptance
  import opened SingleWrites
  import DeviceSafety

  // ---------------------------------------------------------------- single entries

  /** The index is one that selects or appends an element. */
  predicate Selects(p: seq<Segment>) { EndsInIndex(p) && p[|p| - 1] != Index(K_NONE) }

  /** Why what the path leads to, or its array, does not take the value. */
  ghost predicate Explains(status: Status, param: Nav, p: seq<Segment>, w: Wire, a: Authorizer)
    requires param.Found?
  {
    var element := Selects(p) && param.t.TArray?;
    var t := if element then param.t.element else param.t;
    match status
    case PermissionDenied => Somewhere(Unwritable, w, t, param.pd, a)
    case InvalidArgument =>
      w.KindNotSet? || w.Unsupported? || Somewhere(Malformed, w, t, param.pd, a) || Selects(p) != element
      || (param.t.TArray? && element == IsListKind(w))
    case OutOfRange =>
      || Somewhere(TooLong, w, t, param.pd, a)
      || (if element then param.v.Array? && OutOfBounds(param, p[|p| - 1].i, w) else WireSize(w) > param.pd.maxLength)
    case _ => false
  }

  /** There is no such element, or no room for one more, or the texts get too long together. */
  ghost predicate OutOfBounds(param: Nav, i: nat, w: Wire)
    requires param.Found? && param.t.TArray? && param.v.Array?
  {
    || (if i == K_END then |param.v.items| >= param.pd.maxLength
        else i >= |param.v.items| || |param.v.items| > param.pd.maxLength)
    || (param.t.element.TString? && w.StringWire? && TogetherWith(param.v.items, i, |w.s|) > param.pd.totalLength)
  }

  /** A refused entry leads nowhere, and its status says why it does not, or it leads to a param
      that does not take the value for the reason the status gives. */
  lemma RefusedEntry(root: Value, t: Shape, p: seq<Segment>, w: Wire, a: Authorizer)
    requires HasType(root, t) && WellFormed(t) && Accept(root, t, p, w, a) != Ok
    ensures var b, status := ParentOf(p), Accept(root, t, p, w, a);
            var param := At(root, t, RootDescriptor(t), b, a);
            if b == [] then status == InvalidArgument
            else if param.Fail? then status == param.status
            else Explains(status, param, p, w, a)
  {
    var b := ParentOf(p);
    RootDescribed(t);
    AtTyped(root, t, RootDescriptor(t), b, a);
    hide At, HasType, WellFormed, Validate, Explains, Describes;
    var param := GetParam(root, t, b, a);
    if param.Found? { RefusedValue(w, p, param, a); }
  }

  lemma RefusedValue(w: Wire, p: seq<Segment>, param: Nav, a: Authorizer)
    requires param.Found? && HasType(param.v, param.t) && Describes(param.pd, param.t)
    requires Validate(w, IndexOf(p), param, a) != Ok
    ensures Explains(Validate(w, IndexOf(p), param, a), param, p, w, a)
  {
    if param.t.TArray? && !IsListKind(w) && Selects(p) {
      ElementRefused(w, p, param, a);
    } else {
      if Valid(w, param.t, param.pd, a) != Ok { RefusedFor(w, param.t, param.pd, a); }
      hide Valid, Somewhere, HasType, Describes;
    }
  }

  lemma ElementRefused(w: Wire, p: seq<Segment>, param: Nav, a: Authorizer)
    requires param.Found? && HasType(param.v, param.t) && Describes(param.pd, param.t)
    requires param.t.TArray? && !IsListKind(w) && Selects(p)
    requires Validate(w, IndexOf(p), param, a) != Ok
    ensures Explains(Validate(w, IndexOf(p), param, a), param, p, w, a)
  {
    var i, element := IndexOf(p), param.t.element;
    if Valid(w, element, param.pd, a) != Ok {
      RefusedFor(w, element, param.pd, a);
    } else if i == K_END || i < |param.v.items| {
      ValidIff(w, element, param.pd, a);
      ElementKind(w, element, param.pd, a);
      LengthsIff(w, i, param, a);
    }
    hide Valid, Somewhere, HasType, Describes, Sum, Taken, TogetherWith;
  }

  // ----------------------------------------------------------------------- batches

  ghost predicate Overlapped(es: seq<Entry>, affected: seq<string>, i: nat)
    requires i < |es|
  {
    || (exists x :: x in affected && Overlap(x, es[i].oid))
    || (exists j :: 0 <= j < i && Overlap(es[j].oid, es[i].oid))
  }

  /** The entry `i` is the first that keeps the batch from being accepted, and gives the answer. */
  ghost predicate FirstRefused(root: Value, t: Shape, es: seq<Entry>, affected: seq<string>, i: nat, status: Status,
                               a: Authorizer)
    requires HasType(root, t) && WellFormed(t)
  {
    && i < |es| && Acceptable(root, t, es[..i], affected, a)
    && if Overlapped(es, affected, i) then status == InvalidArgument
       else if Parse(es[i].oid).Parsed? then status == Accept(root, t, Parse(es[i].oid).segments, es[i].value, a)
       else Parse(es[i].oid).BadSyntax? && status == InvalidArgument
  }

  lemma RefusedHere(root: Value, t: Shape, es: seq<Entry>, affected: seq<string>, status: Status, a: Authorizer)
    requires HasType(root, t) && WellFormed(t) && es != []
    requires if exists x :: x in affected && Overlap(x, es[0].oid) then status == InvalidArgument
             else if Parse(es[0].oid).Parsed? then
               status == Accept(root, t, Parse(es[0].oid).segments, es[0].value, a)
             else Parse(es[0].oid).BadSyntax? && status == InvalidArgument
    ensures FirstRefused(root, t, es, affected, 0, status, a)
  {
    hide Accept, Overlap, Parse, HasType, WellFormed;
    assert es[..0] == [];
  }

  lemma RefusedLater(root: Value, t: Shape, es: seq<Entry>, affected: seq<string>, i: nat, status: Status,
                     a: Authorizer)
    requires HasType(root, t) && WellFormed(t) && es != []
    requires Parse(es[0].oid).Parsed? && Accept(root, t, Parse(es[0].oid).segments, es[0].value, a) == Ok
    requires forall x :: x in affected ==> !Overlap(x, es[0].oid)
    requires FirstRefused(root, t, es[1..], affected + [es[0].oid], i, status, a)
    ensures FirstRefused(root, t, es, affected, i + 1, status, a)
  {
    hide Accept, Overlap, Parse, HasType, WellFormed, Acceptable;
    var oid, rest, before := es[0].oid, es[1..], es[..i + 1];
    assert before[1..] == rest[..i] && before[0] == es[0] && rest[i] == es[i + 1];
    AcceptableSplits(root, t, before, affected, a);
    OverlappedLater(es, affected, i);
  }

  lemma OverlappedLater(es: seq<Entry>, affected: seq<string>, i: nat)
    requires es != [] && i < |es[1..]|
    ensures Overlapped(es[1..], affected + [es[0].oid], i) <==> Overlapped(es, affected, i + 1)
  {
    hide Overlap;
    var rest, more, oid := es[1..], affected + [es[0].oid], es[i + 1].oid;
    assert rest[i].oid == oid;
    assert forall x :: x in more <==> x in affected || x == es[0].oid;
    if j :| 0 <= j < i && Overlap(rest[j].oid, oid) { assert es[j + 1] == rest[j]; }
    if j :| 0 <= j < i + 1 && Overlap(es[j].oid, oid) {
      if j > 0 { assert rest[j - 1] == es[j]; }
    }
  }

  lemma {:induction false} OverlapAnswered(root: Value, t: Shape, es: seq<Entry>, affected: seq<string>, a: Authorizer)
    requires HasType(root, t) && WellFormed(t)
    ensures TryEntries(root, t, es, affected, InvalidArgument, a).status == InvalidArgument
    decreases |es|
  {
    hide Accept, Overlap, Parse, HasType, WellFormed;
    if es != [] { OverlapAnswered(root, t, es[1..], affected, a); }
  }

  lemma {:induction false} ScanRefused(root: Value, t: Shape, es: seq<Entry>, affected: seq<string>, a: Authorizer)
    returns (i: nat)
    requires HasType(root, t) && WellFormed(t)
    requires var scan := TryEntries(root, t, es, affected, Ok, a); scan.status != Ok && !scan.escaped
    ensures FirstRefused(root, t, es, affected, i, TryEntries(root, t, es, affected, Ok, a).status, a)
    decreases |es|
  {
    hide Accept, Overlap, Parse, HasType, WellFormed, FirstRefused;
    var oid, rest := es[0].oid, es[1..];
    i := 0;
    if exists x | x in affected :: Overlap(x, oid) {
      OverlapAnswered(root, t, rest, affected, a);
      RefusedHere(root, t, es, affected, InvalidArgument, a);
    } else if Parse(oid).Parsed? && Accept(root, t, Parse(oid).segments, es[0].value, a) == Ok {
      i := ScanRefused(root, t, rest, affected + [oid], a);
      RefusedLater(root, t, es, affected, i, TryEntries(root, t, rest, affected + [oid], Ok, a).status, a);
      i := i + 1;
    } else {
      RefusedHere(root, t, es, affected, TryEntries(root, t, es, affected, Ok, a).status, a);
    }
  }

  /** A batch that is answered with an error has more than one entry where that is not allowed,
      or the error is that of its first entry that overlaps an earlier one or is refused. */
  lemma RefusedBatch(root: Value, t: Shape, es: seq<Entry>, multiSet: bool, a: Authorizer)
    requires HasType(root, t) && WellFormed(t)
    requires var r := Try(root, t, es, multiSet, Ok, a); r.Returned? && r.status != Ok
    ensures var status := Try(root, t, es, multiSet, Ok, a).status;
            if |es| > 1 && !multiSet then status == PermissionDenied
            else exists i: nat :: FirstRefused(root, t, es, [], i, status, a)
  {
    hide HasType, WellFormed, TryEntries, FirstRefused, Parse;
    if |es| <= 1 || multiSet { var i := ScanRefused(root, t, es, [], a); }
  }

  /** The four ways `setValue` ends: with an exception for an oid that does not parse, with the
      refusal of the value, with a null pointer for the reserved index, and with OK. */
  lemma SetAnswered(root: Value, t: Shape, entry: Entry, a: Authorizer)
    requires HasType(root, t) && WellFormed(t) && t.TStruct?
    ensures var r := SetValue(root, t, entry, a);
            if !Parse(entry.oid).Parsed? then r == Thrown(root)
            else if Accept(root, t, PathOf(entry), entry.value, a) != Ok then
              r == Answered(root, Accept(root, t, PathOf(entry), entry.value, a))
            else if EndsInSentinel(PathOf(entry)) then r == Crashed(root)
            else r == Answered(r.root, Ok)
  {
    var es := [entry];
    hide HasType, WellFormed, Accept, Parse, CommitEntry, Conforms, Target, Put, Decode;
    DeviceSafety.SetValueSafe(root, t, entry, a);
    SetValueThrowsIff(root, t, entry, a);
    if Parse(entry.oid).Parsed? {
      DeviceSafety.CommitOne(root, t, entry, a);
      OnlyEntry(root, t, entry, a);
      if Accept(root, t, PathOf(entry), entry.value, a) == Ok && EndsInSentinel(PathOf(entry)) {
        SentinelCrashes(root, t, PathOf(entry), entry.value, a);
      }
    }
  }

  lemma OnlyEntry(root: Value, t: Shape, entry: Entry, a: Authorizer)
    requires HasType(root, t) && WellFormed(t) && Parse(entry.oid).Parsed?
    ensures Try(root, t, [entry], true, Ok, a) == Returned(Accept(root, t, PathOf(entry), entry.value, a))
  {
    ScanOne(root, t, entry, a);
    hide HasType, WellFormed, Accept, Parse, TryEntries;
  }

  lemma ScanOne(root: Value, t: Shape, entry: Entry, a: Authorizer)
    requires HasType(root, t) && WellFormed(t) && Parse(entry.oid).Parsed?
    ensures TryEntries(root, t, [entry], [], Ok, a)
         == Scan(Accept(root, t, PathOf(entry), entry.value, a), [entry.oid], false)
  {
    hide HasType, WellFormed, Accept, Parse, Overlap;
    assert [entry][1..] == [];
  }

  /** A commit stops at an oid that does not parse, after the entries before it: with an error,
      or with an exception if an index in it is too large. */
  lemma {:induction false} CommitStops(root: Value, t: Shape, es: seq<Entry>, bad: Entry, more: seq<Entry>, ans: Status,
                                       a: Authorizer)
    requires HasType(root, t) && WellFormed(t) && !Parse(bad.oid).Parsed?
    requires Commit(root, t, es, ans, a).Done? && forall e <- es :: Parse(e.oid).Parsed?
    ensures var after := Commit(root, t, es, ans, a).root;
            Commit(root, t, es + ([bad] + more), ans, a)
            == if Parse(bad.oid).BadSyntax? then Done(after, InvalidArgument) else Threw(after)
    decreases |es|
  {
    hide HasType, WellFormed, CommitEntry, Parse;
    var all := es + ([bad] + more);
    if es == [] {
      assert all == [bad] + more;
    } else {
      var r := CommitEntry(root, t, Parse(es[0].oid).segments, es[0].value, a);
      assert all[0] == es[0] && all[1..] == es[1..] + ([bad] + more);
      CommitStops(r.root, t, es[1..], bad, more, r.status, a);
    }
  }

  /** A commit goes on with the next entry whatever the status of the one before, and answers
      with that of the last. */
  lemma {:induction false} CommitLast(root: Value, t: Shape, es: seq<Entry>, last: Entry, ans: Status, a: Authorizer)
    requires HasType(root, t) && WellFormed(t) && Parse(last.oid).Parsed?
    requires Commit(root, t, es, ans, a).Done? && forall e <- es :: Parse(e.oid).Parsed?
    ensures Commit(root, t, es + [last], ans, a)
         == CommitEntry(Commit(root, t, es, ans, a).root, t, PathOf(last), last.value, a)
    decreases |es|
  {
    hide HasType, WellFormed, CommitEntry, IsPath, SegmentsOf;
    var all := es + [last];
    if es == [] {
      assert all == [last] && [last][1..] == [];
      var r := CommitEntry(root, t, PathOf(last), last.value, a);
      assert r.Done? ==> Commit(r.root, t, [], r.status, a) == r;
    } else {
      var r := CommitEntry(root, t, Parse(es[0].oid).segments, es[0].value, a);
      assert all[0] == es[0] && all[1..] == es[1..] + [last];
      CommitLast(r.root, t, es[1..], last, r.status, a);
    }
  }

  /** An entry that is committed although its value is not valid gets the status of the
      validation. It changes nothing, but for the default element that an append leaves. */
  lemma CommitInvalid(root: Value, t: Shape, p: seq<Segment>, w: Wire, a: Authorizer)
    requires HasType(root, t) && WellFormed(t) && t.TStruct?
    requires Target(root, t, RootDescriptor(t), p, a).Some? && p != [] && !Resolves(root, t, p, w, a)
    requires IsAppend(p) ==> HasRoom(root, t, p, a) && MayWrite(Target(root, t, RootDescriptor(t), p, a).value.1, a)
    ensures var target := Target(root, t, RootDescriptor(t), p, a).value;
            CommitEntry(root, t, p, w, a)
            == Done(if IsAppend(p) then Put(root, t, p, Default(target.0)) else root,
                    Valid(w, target.0, target.1, a))
  {
    TargetDestination(root, t, p, a);
    DestinationTyped(root, t, p, a);
    if IsAppend(p) {
      AppendedDefault(root, t, p, a);
    } else {
      PutSame(root, t, RootDescriptor(t), p, a);
    }
    hide HasType, WellFormed, Target, Valid, Decode, Put, At, Destination;
  }

  lemma AppendedDefault(root: Value, t: Shape, p: seq<Segment>, a: Authorizer)
    requires HasType(root, t) && WellFormed(t) && IsAppend(p) && Destination(root, t, p, a).Found?
    ensures Destination(root, t, p, a).v == Default(Destination(root, t, p, a).t)
  {
    hide At, HasType, WellFormed, Default;
  }
}

/** What the two phases of a multi-set promise of single payloads: which batches are
    accepted and which make the validation throw, what an accepted payload resolves to, and
    what a write does to the targets of the others. */
module BatchProperties {
  import opened Types
  import opened StructInfo
  import opened CodecProperties
  import opened Navigation
  import opened Paths
  import opened Transactions

  // ---------------------------------------------------------------- acceptance

  ghost predicate Acceptable(root: Value, t: Shape, entries: seq<Entry>, affected: seq<string>, a: Authorizer)
    requires HasType(root, t) && WellFormed(t)
  {
    forall i :: 0 <= i < |entries| ==>
      && Parse(entries[i].oid).Parsed?
      && Accept(root, t, Parse(entries[i].oid).segments, entries[i].value, a) == Ok
      && (forall x :: x in affected ==> !Overlap(x, entries[i].oid))
      && (forall j :: 0 <= j < i ==> !Overlap(entries[j].oid, entries[i].oid))
  }

  /** The validation loop accepts exactly the batches whose oids parse, whose values
      are each acceptable to the device as it is, and of which no two overlap. */
  lemma {:induction false} TryEntriesIff(root: Value, t: Shape, entries: seq<Entry>, affected: seq<string>,
                                         ans: Status, a: Authorizer)
    requires HasType(root, t) && WellFormed(t)
    ensures var scan := TryEntries(root, t, entries, affected, ans, a);
            && (scan.status == Ok && !scan.escaped <==> ans == Ok && Acceptable(root, t, entries, affected, a))
            && (scan.status == Ok && !scan.escaped ==> scan.affected == affected + Oids(entries))
    decreases |entries|
  {
    if entries != [] {
      hide Accept, Overlap, Parse, WellFormed, HasType, Acceptable, Oids;
      var oid, rest := entries[0].oid, entries[1..];
      FirstAcceptable(root, t, entries, affected, a);
      if exists x | x in affected :: Overlap(x, oid) {
        TryEntriesIff(root, t, rest, affected, InvalidArgument, a);
      } else if ans != Ok {
        TryEntriesIff(root, t, rest, affected, ans, a);
      } else if Parse(oid).Parsed? && Accept(root, t, Parse(oid).segments, entries[0].value, a) == Ok {
        TryEntriesIff(root, t, rest, affected + [oid], Ok, a);
        AcceptableSplits(root, t, entries, affected, a);
        OidsSplit(affected, entries);
      }
    }
  }

  lemma FirstAcceptable(root: Value, t: Shape, entries: seq<Entry>, affected: seq<string>, a: Authorizer)
    requires HasType(root, t) && WellFormed(t) && entries != []
    ensures Acceptable(root, t, entries, affected, a) ==>
              && Parse(entries[0].oid).Parsed?
              && Accept(root, t, Parse(entries[0].oid).segments, entries[0].value, a) == Ok
              && forall x :: x in affected ==> !Overlap(x, entries[0].oid)
  {
    hide Accept, Overlap, Parse, WellFormed, HasType;
  }

  lemma OidsSplit(affected: seq<string>, entries: seq<Entry>)
    requires entries != []
    ensures affected + [entries[0].oid] + Oids(entries[1..]) == affected + Oids(entries)
  {
  }

  function Oids(entries: seq<Entry>): seq<string> {
    seq(|entries|, i requires 0 <= i < |entries| => entries[i].oid)
  }

  lemma AcceptableSplits(root: Value, t: Shape, entries: seq<Entry>, affected: seq<string>, a: Authorizer)
    requires HasType(root, t) && WellFormed(t) && entries != []
    requires Parse(entries[0].oid).Parsed?
    requires Accept(root, t, Parse(entries[0].oid).segments, entries[0].value, a) == Ok
    requires forall x :: x in affected ==> !Overlap(x, entries[0].oid)
    ensures Acceptable(root, t, entries, affected, a) <==>
            Acceptable(root, t, entries[1..], affected + [entries[0].oid], a)
  {
    hide Accept, Overlap, Parse;
    var oid, rest := entries[0].oid, entries[1..];
    if Acceptable(root, t, entries, affected, a) {
      assert forall i :: 0 <= i < |rest| ==> rest[i] == entries[i + 1];
    }
    if Acceptable(root, t, rest, affected + [oid], a) {
      assert oid in affected + [oid];
      assert forall x :: x in affected ==> x in affected + [oid];
      forall i | 0 < i < |entries|
        ensures forall j :: 0 <= j < i ==> !Overlap(entries[j].oid, entries[i].oid)
      {
        assert entries[i] == rest[i - 1];
        forall j | 0 <= j < i
          ensures !Overlap(entries[j].oid, entries[i].oid)
        {
          if j > 0 { assert entries[j] == rest[j - 1]; }
        }
      }
    }
  }

  /** `tryMultiSetValue` answers OK exactly for acceptable batches. */
  lemma TryIff(root: Value, t: Shape, entries: seq<Entry>, multiSet: bool, ans: Status, a: Authorizer)
    requires HasType(root, t) && WellFormed(t)
    ensures Try(root, t, entries, multiSet, ans, a) == Returned(Ok) <==>
            ans == Ok && (|entries| > 1 ==> multiSet) && Acceptable(root, t, entries, [], a)
  {
    hide HasType, WellFormed, Accept, Overlap, Parse, TryEntries;
    TryEntriesIff(root, t, entries, [], ans, a);
    var scan := TryEntries(root, t, entries, [], ans, a);
    if scan.status == Ok && !scan.escaped {
      assert scan.affected == Oids(entries);
      forall x | x in scan.affected
        ensures Parse(x).Parsed?
      {
        var i :| 0 <= i < |entries| && entries[i].oid == x;
      }
    }
  }

  // ------------------------------------------------------------ when it throws

  /** The validation loop gets as far as the entry `i`, and that one does not parse. */
  ghost predicate Stuck(root: Value, t: Shape, entries: seq<Entry>, affected: seq<string>, i: nat, a: Authorizer)
    requires HasType(root, t) && WellFormed(t)
  {
    && i < |entries| && !Parse(entries[i].oid).Parsed?
    && Acceptable(root, t, entries[..i], affected, a)
    && (forall x :: x in affected ==> !Overlap(x, entries[i].oid))
    && (forall j :: 0 <= j < i ==> !Overlap(entries[j].oid, entries[i].oid))
  }

  /** The scan leaves the loop with an exception, or leaves one for the reset of the
      trackers to throw. */
  predicate Escapes(scan: Scan) { scan.escaped || exists x | x in scan.affected :: !Parse(x).Parsed? }

  lemma StuckStep(root: Value, t: Shape, entries: seq<Entry>, affected: seq<string>, i: nat, a: Authorizer)
    requires HasType(root, t) && WellFormed(t) && entries != []
    requires Parse(entries[0].oid).Parsed?
    requires Accept(root, t, Parse(entries[0].oid).segments, entries[0].value, a) == Ok
    requires forall x :: x in affected ==> !Overlap(x, entries[0].oid)
    ensures !Stuck(root, t, entries, affected, 0, a)
    ensures Stuck(root, t, entries[1..], affected + [entries[0].oid], i, a)
       <==> Stuck(root, t, entries, affected, i + 1, a)
  {
    hide Accept, Overlap, Parse, HasType, WellFormed, Acceptable;
    var oid, rest := entries[0].oid, entries[1..];
    if i < |rest| {
      var before := entries[..i + 1];
      assert before[1..] == rest[..i] && before[0] == entries[0];
      AcceptableSplits(root, t, before, affected, a);
      assert rest[i] == entries[i + 1];
      assert forall j :: 0 < j < i + 1 ==> entries[j] == rest[j - 1];
      assert oid in affected + [oid];
      assert forall x :: x in affected + [oid] <==> x in affected || x == oid;
    }
  }

  /** An entry that overlaps or is refused keeps the loop from getting past it. */
  lemma NotStuckBehind(root: Value, t: Shape, entries: seq<Entry>, affected: seq<string>, i: nat, a: Authorizer)
    requires HasType(root, t) && WellFormed(t) && entries != []
    requires (&& Parse(entries[0].oid).Parsed?
              && Accept(root, t, Parse(entries[0].oid).segments, entries[0].value, a) != Ok)
          || exists x :: x in affected && Overlap(x, entries[0].oid)
    ensures !Stuck(root, t, entries, affected, i, a)
  {
    hide Accept, Overlap, Parse;
    if 0 < i <= |entries| { assert entries[..i][0] == entries[0]; }
  }

  lemma {:induction false} NoEscapeAfterError(root: Value, t: Shape, entries: seq<Entry>, affected: seq<string>,
                                              ans: Status, a: Authorizer)
    requires HasType(root, t) && WellFormed(t) && ans != Ok
    ensures var scan := TryEntries(root, t, entries, affected, ans, a); !scan.escaped && scan.affected == affected
    decreases |entries|
  {
    hide Accept, Overlap, Parse, WellFormed, HasType;
    if entries != [] {
      NoEscapeAfterError(root, t, entries[1..], affected, InvalidArgument, a);
      NoEscapeAfterError(root, t, entries[1..], affected, ans, a);
    }
  }

  lemma {:induction false} ScanEscapesIff(root: Value, t: Shape, entries: seq<Entry>, affected: seq<string>,
                                          a: Authorizer)
    requires HasType(root, t) && WellFormed(t) && forall x :: x in affected ==> Parse(x).Parsed?
    ensures Escapes(TryEntries(root, t, entries, affected, Ok, a))
       <==> exists i: nat :: Stuck(root, t, entries, affected, i, a)
    decreases |entries|
  {
    if entries != [] {
      hide Accept, Overlap, Parse, WellFormed, HasType, Acceptable;
      var oid, rest := entries[0].oid, entries[1..];
      if exists x | x in affected :: Overlap(x, oid) {
        NoEscapeAfterError(root, t, rest, affected, InvalidArgument, a);
        forall i: nat ensures !Stuck(root, t, entries, affected, i, a) {
          NotStuckBehind(root, t, entries, affected, i, a);
        }
      } else if !Parse(oid).Parsed? {
        assert oid in affected + [oid];
        NothingBefore(root, t, entries, affected, a);
      } else if Accept(root, t, Parse(oid).segments, entries[0].value, a) != Ok {
        forall i: nat ensures !Stuck(root, t, entries, affected, i, a) {
          NotStuckBehind(root, t, entries, affected, i, a);
        }
      } else {
        ScanEscapesIff(root, t, rest, affected + [oid], a);
        OneFurther(root, t, entries, affected, a);
      }
    }
  }

  lemma NothingBefore(root: Value, t: Shape, entries: seq<Entry>, affected: seq<string>, a: Authorizer)
    requires HasType(root, t) && WellFormed(t) && entries != [] && !Parse(entries[0].oid).Parsed?
    requires forall x :: x in affected ==> !Overlap(x, entries[0].oid)
    ensures Stuck(root, t, entries, affected, 0, a)
  {
  }

  lemma OneFurther(root: Value, t: Shape, entries: seq<Entry>, affected: seq<string>, a: Authorizer)
    requires HasType(root, t) && WellFormed(t) && entries != []
    requires Parse(entries[0].oid).Parsed?
    requires Accept(root, t, Parse(entries[0].oid).segments, entries[0].value, a) == Ok
    requires forall x :: x in affected ==> !Overlap(x, entries[0].oid)
    ensures (exists i: nat :: Stuck(root, t, entries[1..], affected + [entries[0].oid], i, a))
       <==> (exists i: nat :: Stuck(root, t, entries, affected, i, a))
  {
    hide Stuck, Accept, Overlap, Parse, HasType, WellFormed;
    if i: nat :| Stuck(root, t, entries[1..], affected + [entries[0].oid], i, a) {
      StuckStep(root, t, entries, affected, i, a);
    }
    if i: nat :| Stuck(root, t, entries, affected, i, a) {
      StuckStep(root, t, entries, affected, if i == 0 then 0 else i - 1, a);
    }
  }

  /** `tryMultiSetValue` throws exactly for batches in which an oid does not parse, all entries
      before it are acceptable, and it overlaps none of them. */
  lemma EscapesIff(root: Value, t: Shape, es: seq<Entry>, multiSet: bool, a: Authorizer)
    requires HasType(root, t) && WellFormed(t)
    ensures Try(root, t, es, multiSet, Ok, a) == Escaped <==>
              && (|es| > 1 ==> multiSet)
              && exists i: nat :: Stuck(root, t, es, [], i, a)
  {
    hide Stuck, Parse, HasType, WellFormed, TryEntries;
    ScanEscapesIff(root, t, es, [], a);
  }

  /** So `setValue` throws exactly when its oid does not parse. */
  lemma SetValueThrowsIff(root: Value, t: Shape, entry: Entry, a: Authorizer)
    requires HasType(root, t) && WellFormed(t)
    ensures SetValue(root, t, entry, a).Thrown? <==> !Parse(entry.oid).Parsed?
  {
    var es := [entry];
    EscapesIff(root, t, es, true, a);
    assert es[..0] == [];
    assert !Parse(entry.oid).Parsed? ==> Stuck(root, t, es, [], 0, a);
    assert forall i: nat :: Stuck(root, t, es, [], i, a) ==> i == 0;
    hide HasType, WellFormed, Accept, Stuck, CommitEntry, IsPath, SegmentsOf;
    if Parse(entry.oid).Parsed? {
      var first := CommitEntry(root, t, PathOf(entry), entry.value, a);
      assert es[1..] == [];
      assert first.Done? ==> Commit(first.root, t, [], first.status, a) == Done(first.root, first.status);
    }
  }

  // ------------------------------------------------------ from text to subtrees

  function PathOf(e: Entry): seq<Segment> { if Parse(e.oid).Parsed? then Parse(e.oid).segments else [] }

  ghost predicate AllCanonical(entries: seq<Entry>)
  {
    forall i :: 0 <= i < |entries| ==> Canonical(entries[i].oid)
  }

  predicate IsAppend(p: seq<Segment>) { p != [] && p[|p| - 1] == APPEND }

  /** An oid that ends in `/-` appends. */
  lemma DashIsAppend(oid: string)
    requires Parse(oid).Parsed?
    ensures EndsInDash(oid) ==> IsAppend(Parse(oid).segments)
  {
    if EndsInDash(oid) { DashAtEnd(oid, 0); }
  }

  lemma {:induction false} DashAtEnd(s: string, pos: nat)
    requires pos + 2 <= |s| && s[|s| - 2..] == "/-" && IsPath(s, pos)
    ensures IsAppend(SegmentsOf(s, pos))
    decreases |s| - pos
  {
    var n := |s| - 2;
    assert s[n] == s[n..][0] && s[n + 1] == s[n..][1];
    if pos == n {
      EndsAt(s, pos + 1, |s|);
      assert s[pos + 1..|s|] == "-" && "-"[0] == '-';
    } else {
      var k := SegmentEnd(s, pos + 1);
      SolidusBefore(s, pos + 1, n);
      DashAtEnd(s, k);
      assert SegmentsOf(s, pos)[1..] == SegmentsOf(s, k);
    }
  }

  lemma {:induction false} SolidusBefore(s: string, pos: nat, n: nat)
    requires pos <= n < |s| && s[n] == '/'
    ensures SegmentEnd(s, pos) <= n
    decreases n - pos
  {
    if s[pos] != '/' { SolidusBefore(s, pos + 1, n); }
  }

  /** Non-overlapping canonical oids address paths apart, or append twice to the same
      array. The text comparison is cruder: it also refuses `/a` next to `/ab`. */
  lemma DisjointTextsApart(x: string, y: string)
    requires Canonical(x) && Canonical(y) && !Overlap(x, y)
    ensures var p, q := Parse(x).segments, Parse(y).segments;
            || Apart(p, q)
            || (IsAppend(p) && IsAppend(q))
  {
    var p, q := Parse(x).segments, Parse(y).segments;
    if !Apart(p, q) {
      if p <= q { PrintPrefix(p, q); } else { PrintPrefix(q, p); }
      DashIsAppend(x);
      DashIsAppend(y);
    }
  }

  // --------------------------------------------------------- a single payload

  /** The payload's path leads to something its value is valid for. Whether an append
      still has room is a separate matter. */
  ghost predicate Resolves(root: Value, t: Shape, p: seq<Segment>, w: Wire, a: Authorizer)
    requires HasType(root, t)
  {
    p != [] &&
    match Target(root, t, RootDescriptor(t), p, a)
    case None => false
    case Some(target) => Valid(w, target.0, target.1, a) == Ok
  }

  /** The length of the array an append goes to, and its limit. */
  function Length(root: Value, t: Shape, p: seq<Segment>, a: Authorizer): nat
    requires HasType(root, t)
  {
    var nav := At(root, t, RootDescriptor(t), ParentOf(p), a);
    if nav.Found? && nav.v.Array? then |nav.v.items| else 0
  }

  function Limit(root: Value, t: Shape, p: seq<Segment>, a: Authorizer): nat
    requires HasType(root, t)
  {
    var nav := At(root, t, RootDescriptor(t), ParentOf(p), a);
    if nav.Found? then nav.pd.maxLength else 0
  }

  ghost predicate HasRoom(root: Value, t: Shape, p: seq<Segment>, a: Authorizer)
    requires HasType(root, t)
  {
    IsAppend(p) ==> Length(root, t, p, a) < Limit(root, t, p, a)
  }

  /** The converse of `AtSplit`. */
  lemma {:induction false} AtUnsplit(v: Value, t: Shape, pd: Descriptor, p: seq<Segment>, s: Segment, a: Authorizer)
    requires HasType(v, t) && Describes(pd, t) && At(v, t, pd, p + [s], a).Found?
    ensures var nav := At(v, t, pd, p, a);
            && nav.Found? && HasType(nav.v, nav.t)
            && At(nav.v, nav.t, nav.pd, [s], a) == At(v, t, pd, p + [s], a)
    decreases |p|
  {
    AtTyped(v, t, pd, p, a);
    if p == [] {
      assert p + [s] == [s];
    } else {
      var k := Slot(v, t, p[0]);
      ChildDescribed(v, t, pd, k);
      assert (p + [s])[1..] == p[1..] + [s];
      AtUnsplit(Children(v)[k], ChildShape(v, t, k), ChildDescriptor(v, t, pd, k), p[1..], s, a);
    }
  }

  /** The commit's way to a param ends where the path leads. */
  lemma TargetDestination(root: Value, t: Shape, p: seq<Segment>, a: Authorizer)
    requires HasType(root, t) && WellFormed(t) && t.TStruct? && p != []
    requires Target(root, t, RootDescriptor(t), p, a).Some?
    ensures var target := Target(root, t, RootDescriptor(t), p, a).value;
            && (IsAppend(p) ==> !target.0.TEmpty?)
            && (Destination(root, t, p, a).Found? <==>
                 (IsAppend(p) ==> a.WriteAuthz(target.1) && HasRoom(root, t, p, a)))
            && (Destination(root, t, p, a).Found? ==>
                 (Destination(root, t, p, a).t, Destination(root, t, p, a).pd) == target)
  {
    hide At, HasType, Length, Limit;
    if IsAppend(p) {
      AppendDestination(root, t, p, a);
    } else if EndsInIndex(p) {
      IndexDestination(root, t, p, a);
    } else {
      assert ParentOf(p) == p;
    }
  }

  lemma AppendDestination(root: Value, t: Shape, p: seq<Segment>, a: Authorizer)
    requires HasType(root, t) && WellFormed(t) && IsAppend(p) && Target(root, t, RootDescriptor(t), p, a).Some?
    requires t.TStruct?
    ensures var target, d := Target(root, t, RootDescriptor(t), p, a).value, Destination(root, t, p, a);
            && !target.0.TEmpty?
            && (d.Found? <==> a.WriteAuthz(target.1) && HasRoom(root, t, p, a))
            && (d.Found? ==> (d.t, d.pd) == target)
  {
    AtTyped(root, t, RootDescriptor(t), ParentOf(p), a);
    ArrayFound(root, t, ParentOf(p), a);
    hide HasType;
  }

  lemma IndexDestination(root: Value, t: Shape, p: seq<Segment>, a: Authorizer)
    requires HasType(root, t) && WellFormed(t) && t.TStruct? && EndsInIndex(p) && !IsAppend(p)
    requires Target(root, t, RootDescriptor(t), p, a).Some?
    ensures Destination(root, t, p, a) == At(root, t, RootDescriptor(t), p, a)
  {
    var b, rd := ParentOf(p), RootDescriptor(t);
    assert b + [p[|p| - 1]] == p;
    RootDescribed(t);
    AtUnsplit(root, t, rd, b, p[|p| - 1], a);
    if b != [] { AtReadable(root, t, rd, b, a); }
    hide HasType, WellFormed;
  }

  lemma RootDescribed(t: Shape)
    requires WellFormed(t)
    ensures Describes(RootDescriptor(t), t)
  {
  }

  lemma TargetDescribed(root: Value, t: Shape, p: seq<Segment>, a: Authorizer)
    requires HasType(root, t) && WellFormed(t) && Target(root, t, RootDescriptor(t), p, a).Some?
    ensures var target := Target(root, t, RootDescriptor(t), p, a).value; Describes(target.1, target.0)
  {
    RootDescribed(t);
    if p != [] && p[|p| - 1] == APPEND {
      AtTyped(root, t, RootDescriptor(t), p[..|p| - 1], a);
    } else {
      AtTyped(root, t, RootDescriptor(t), p, a);
    }
  }

  /** A payload that resolves and has room is written: the commit does not crash, and
      the device holds the decoded value where the path leads. */
  lemma ResolvedCommits(root: Value, t: Shape, p: seq<Segment>, w: Wire, a: Authorizer)
    requires HasType(root, t) && WellFormed(t) && t.TStruct? && Resolves(root, t, p, w, a)
    ensures HasRoom(root, t, p, a) ==>
      var target := Target(root, t, RootDescriptor(t), p, a).value;
      CommitEntry(root, t, p, w, a) == Done(Put(root, t, p, Decode(w, target.0, target.1)), Ok)
    ensures !HasRoom(root, t, p, a) ==> CommitEntry(root, t, p, w, a) == NullDereference(root)
  {
    hide Target, Destination, HasRoom, HasType, WellFormed, Put, Decode;
    TargetDestination(root, t, p, a);
    NotAppendHasRoom(root, t, p, a);
  }

  lemma NotAppendHasRoom(root: Value, t: Shape, p: seq<Segment>, a: Authorizer)
    requires HasType(root, t)
    ensures !IsAppend(p) ==> HasRoom(root, t, p, a)
  {
  }

  /** The last segment is the number that `Path.h` reserves for `no index`. */
  predicate EndsInSentinel(p: seq<Segment>) { p != [] && p[|p| - 1] == Index(K_NONE) }

  /** Validating an element leaves only elements that are there, or one more. */
  lemma ValidatedElement(w: Wire, index: nat, param: Nav, a: Authorizer)
    requires param.Found? && HasType(param.v, param.t)
    requires Validate(w, index, param, a) == Ok && index != K_NONE
    ensures param.t.TArray? && Valid(w, param.t.element, param.pd, a) == Ok
    ensures index == K_END ==> |param.v.items| < param.pd.maxLength
    ensures index != K_END ==>
      At(param.v, param.t, param.pd, [Index(index)], a) == Found(param.t.element, param.pd, param.v.items[index])
  {
    hide Valid;
  }

  /** An accepted payload resolves and has room, unless it ends in the sentinel. */
  lemma AcceptedResolves(root: Value, t: Shape, p: seq<Segment>, w: Wire, a: Authorizer)
    requires HasType(root, t) && WellFormed(t) && t.TStruct?
    requires Accept(root, t, p, w, a) == Ok && !EndsInSentinel(p)
    ensures Resolves(root, t, p, w, a) && HasRoom(root, t, p, a)
  {
    hide Valid, At, WellFormed;
    var rd := RootDescriptor(t);
    AtTyped(root, t, rd, ParentOf(p), a);
    if EndsInIndex(p) {
      var param := GetParam(root, t, ParentOf(p), a);
      assert ParentOf(p) + [p[|p| - 1]] == p;
      AtSplit(root, t, rd, ParentOf(p), p[|p| - 1], a);
      hide HasType, Validate;
      ValidatedElement(w, IndexOf(p), param, a);
    }
  }

  /** A payload that ends in the sentinel never commits: its index counts as absent
      when it is validated and as an index when it is committed. */
  lemma SentinelCrashes(root: Value, t: Shape, p: seq<Segment>, w: Wire, a: Authorizer)
    requires HasType(root, t) && WellFormed(t) && EndsInSentinel(p)
    ensures CommitEntry(root, t, p, w, a) == NullDereference(root)
  {
    AtTyped(root, t, RootDescriptor(t), ParentOf(p), a);
  }

  // ------------------------------------------------------- one write, then another

  /** An append shows up in the array its parent leads to, and nowhere else on the
      way; so a second append to the same array finds it one longer. */
  lemma AppendSeen(root: Value, t: Shape, p: seq<Segment>, a: Authorizer, nv: Value)
    requires HasType(root, t) && IsAppend(p) && Target(root, t, RootDescriptor(t), p, a).Some?
    requires Addressable(root, t, RootDescriptor(t), p, a)
    requires HasType(nv, Target(root, t, RootDescriptor(t), p, a).value.0)
    ensures var after, rd := Put(root, t, p, nv), RootDescriptor(t);
            && HasType(after, t)
            && Target(after, t, rd, p, a) == Target(root, t, rd, p, a)
            && Length(after, t, p, a) == Length(root, t, p, a) + 1
            && Limit(after, t, p, a) == Limit(root, t, p, a)
            && var nav := At(after, t, rd, ParentOf(p), a);
               nav.Found? && nav.v.Array? && nav.v.items[Length(root, t, p, a)] == nv
  {
    var b := ParentOf(p);
    assert b + [APPEND] == p;
    AtAncestor(root, t, RootDescriptor(t), b, [APPEND], a, nv);
    hide Put, At, HasType, Addressable;
    var nav := At(root, t, RootDescriptor(t), b, a);
    ArrayFound(root, t, b, a);
    AppendPut(nav.v, nav.t, nv);
  }

  lemma AppendPut(v: Value, t: Shape, nv: Value)
    requires HasType(v, t) && t.TArray?
    ensures v.Array? && Put(v, t, [APPEND], nv) == Array(v.items + [nv])
  {
  }

  /** A write leaves the other payloads of the batch as they were. */
  lemma WriteFrame(root: Value, t: Shape, p: seq<Segment>, q: seq<Segment>, a: Authorizer, nv: Value)
    requires HasType(root, t) && Apart(p, q)
    requires Target(root, t, RootDescriptor(t), p, a).Some? && Addressable(root, t, RootDescriptor(t), p, a)
    requires HasType(nv, Target(root, t, RootDescriptor(t), p, a).value.0)
    requires Target(root, t, RootDescriptor(t), q, a).Some?
    ensures var after, rd := Put(root, t, p, nv), RootDescriptor(t);
            && HasType(after, t)
            && Target(after, t, rd, q, a) == Target(root, t, rd, q, a)
            && (IsAppend(q) ==>
                  && Length(after, t, q, a) == Length(root, t, q, a)
                  && Limit(after, t, q, a) == Limit(root, t, q, a))
  {
    var rd := RootDescriptor(t);
    if IsAppend(q) {
      AppendFrame(root, t, p, ParentOf(q), a, nv);
      hide Put, HasType, Addressable, At;
    } else {
      AtUnaffected(root, t, rd, p, q, a, nv);
    }
  }

  /** The array an append goes to stays where it is and as long as it was. */
  lemma AppendFrame(root: Value, t: Shape, p: seq<Segment>, b: seq<Segment>, a: Authorizer, nv: Value)
    requires HasType(root, t) && Apart(p, b + [APPEND])
    requires Target(root, t, RootDescriptor(t), p, a).Some? && Addressable(root, t, RootDescriptor(t), p, a)
    requires HasType(nv, Target(root, t, RootDescriptor(t), p, a).value.0)
    requires At(root, t, RootDescriptor(t), b, a).Found? && At(root, t, RootDescriptor(t), b, a).t.TArray?
    ensures HasType(Put(root, t, p, nv), t)
    ensures var before := At(root, t, RootDescriptor(t), b, a);
            var after := At(Put(root, t, p, nv), t, RootDescriptor(t), b, a);
            && after.Found? && after.t == before.t && after.pd == before.pd
            && before.v.Array? && after.v.Array? && |after.v.items| == |before.v.items|
  {
    hide Target, Addressable, HasType, At, Put;
    var rd := RootDescriptor(t);
    var nav := At(root, t, rd, b, a);
    ArrayFound(root, t, b, a);
    if b <= p {
      var r := p[|b|..];
      assert b + r == p;
      AtAncestor(root, t, rd, b, r, a, nv);
      PutKeepsLength(nav.v, nav.t, r, nv);
    } else {
      ApartParent(p, b);
      AtUnaffected(root, t, rd, p, b, a, nv);
    }
  }

  lemma ApartParent(p: seq<Segment>, b: seq<Segment>)
    requires Apart(p, b + [APPEND]) && !(b <= p)
    ensures Apart(p, b)
  {
    assert p <= b ==> p <= b + [APPEND];
  }

  lemma ArrayFound(root: Value, t: Shape, b: seq<Segment>, a: Authorizer)
    requires HasType(root, t) && At(root, t, RootDescriptor(t), b, a).Found?
    ensures var nav := At(root, t, RootDescriptor(t), b, a); HasType(nav.v, nav.t) && (nav.t.TArray? ==> nav.v.Array?)
  {
    FoundTyped(root, t, RootDescriptor(t), b, a);
  }

  lemma {:induction false} FoundTyped(v: Value, t: Shape, pd: Descriptor, p: seq<Segment>, a: Authorizer)
    requires HasType(v, t) && At(v, t, pd, p, a).Found?
    ensures HasType(At(v, t, pd, p, a).v, At(v, t, pd, p, a).t)
    decreases |p|
  {
    if p != [] {
      var k := Slot(v, t, p[0]);
      FoundTyped(Children(v)[k], ChildShape(v, t, k), ChildDescriptor(v, t, pd, k), p[1..], a);
    }
  }

  lemma PutKeepsLength(v: Value, t: Shape, r: seq<Segment>, nv: Value)
    requires HasType(v, t) && t.TArray? && r != [] && r != [APPEND]
    ensures var after := Put(v, t, r, nv);
            after.Array? && |after.items| == |v.items|
  {
  }
}

/** The order of a batch: when its payloads may be committed in any order, and how they read
    back afterwards. */
module BatchOrder {
  import opened Types
  import opened StructInfo
  import opened Navigation
  import opened Paths
  import opened Transactions
  import opened BatchProperties
  import opened BatchOutcome

  /** A payload that commits from here. */
  ghost predicate Good(root: Value, t: Shape, e: Entry, a: Authorizer)
    requires HasType(root, t)
  {
    Parse(e.oid).Parsed? && Resolves(root, t, PathOf(e), e.value, a) && HasRoom(root, t, PathOf(e), a)
  }

  /** A batch that commits from here. */
  ghost predicate Ready(root: Value, t: Shape, es: seq<Entry>, a: Authorizer)
    requires HasType(root, t)
  {
    Consistent(root, t, es, a) && AppendsFit(root, t, es, a)
  }

  /** What a payload decodes to where it leads. */
  function Decoded(root: Value, t: Shape, e: Entry, a: Authorizer): Value
    requires HasType(root, t)
  {
    match Target(root, t, RootDescriptor(t), PathOf(e), a)
    case None => Empty
    case Some(target) => Decode(e.value, target.0, target.1)
  }

  /** Payloads for one place, or for the end of one array, decode to the same value. */
  ghost predicate Alike(root: Value, t: Shape, es: seq<Entry>, a: Authorizer)
    requires HasType(root, t)
  {
    forall e, f :: e in es && f in es && PathOf(e) == PathOf(f) ==> Decoded(root, t, e, a) == Decoded(root, t, f, a)
  }

  /** The device after one good payload. */
  function After(root: Value, t: Shape, e: Entry, a: Authorizer): (after: Value)
    requires HasType(root, t) && WellFormed(t)
    ensures HasType(after, t)
  {
    CommitEntry(root, t, PathOf(e), e.value, a).root
  }

  /** A good payload commits, and payloads apart from it stay good. */
  lemma GoodAfter(root: Value, t: Shape, e: Entry, f: Entry, a: Authorizer)
    requires HasType(root, t) && WellFormed(t) && t.TStruct?
    requires Good(root, t, e, a) && Good(root, t, f, a) && Apart(PathOf(e), PathOf(f))
    ensures CommitEntry(root, t, PathOf(e), e.value, a) == Done(After(root, t, e, a), Ok)
    ensures Good(After(root, t, e, a), t, f, a)
    ensures Target(After(root, t, e, a), t, RootDescriptor(t), PathOf(f), a)
         == Target(root, t, RootDescriptor(t), PathOf(f), a)
  {
    hide WellFormed, HasType, Target, Length, Limit, Decode, Addressable, Valid, Parse, Put, CommitEntry;
    var p, q := PathOf(e), PathOf(f);
    var target := Target(root, t, RootDescriptor(t), p, a).value;
    ResolvedCommits(root, t, p, e.value, a);
    WrittenTyped(root, t, p, e.value, a);
    WriteFrame(root, t, p, q, a, Decode(e.value, target.0, target.1));
  }

  lemma Commits(root: Value, t: Shape, e: Entry, a: Authorizer)
    requires HasType(root, t) && WellFormed(t) && t.TStruct? && Good(root, t, e, a)
    ensures CommitEntry(root, t, PathOf(e), e.value, a) == Done(After(root, t, e, a), Ok)
  {
    hide WellFormed, HasType, Target, CommitEntry, Put, Decode;
    ResolvedCommits(root, t, PathOf(e), e.value, a);
  }

  /** Two neighbours may be swapped. */
  lemma SwapTwo(root: Value, t: Shape, e: Entry, f: Entry, a: Authorizer)
    requires HasType(root, t) && WellFormed(t) && t.TStruct?
    requires Good(root, t, e, a) && Good(root, t, f, a) && Apart(PathOf(e), PathOf(f))
    ensures After(After(root, t, e, a), t, f, a) == After(After(root, t, f, a), t, e, a)
  {
    hide WellFormed, HasType, Target, Length, Limit, Decode, Addressable, Valid, Parse, Put, CommitEntry, PathOf;
    var p, q, rd := PathOf(e), PathOf(f), RootDescriptor(t);
    GoodAfter(root, t, e, f, a);
    GoodAfter(root, t, f, e, a);
    ResolvedCommits(root, t, p, e.value, a);
    ResolvedCommits(root, t, q, f.value, a);
    ResolvedCommits(After(root, t, e, a), t, q, f.value, a);
    ResolvedCommits(After(root, t, f, a), t, p, e.value, a);
    WrittenTyped(root, t, p, e.value, a);
    WrittenTyped(root, t, q, f.value, a);
    var tp, tq := Target(root, t, rd, p, a).value, Target(root, t, rd, q, a).value;
    PutsCommute(root, t, rd, p, q, a, Decode(e.value, tp.0, tp.1), Decode(f.value, tq.0, tq.1));
  }

  /** Committing a list that starts with a good payload. */
  lemma CommitCons(root: Value, t: Shape, e: Entry, rest: seq<Entry>, a: Authorizer)
    requires HasType(root, t) && WellFormed(t) && t.TStruct? && Good(root, t, e, a)
    ensures Commit(root, t, [e] + rest, Ok, a) == Commit(After(root, t, e, a), t, rest, Ok, a)
  {
    hide WellFormed, HasType, CommitEntry, Resolves, HasRoom, IsPath, SegmentsOf;
    Commits(root, t, e, a);
    assert ([e] + rest)[1..] == rest;
  }

  /** One payload on: the rest is ready, and what the payloads decode to stays. */
  lemma StepReady(root: Value, t: Shape, es: seq<Entry>, a: Authorizer)
    requires HasType(root, t) && WellFormed(t) && t.TStruct? && es != [] && Ready(root, t, es, a)
    ensures Good(root, t, es[0], a)
    ensures Commit(root, t, es, Ok, a) == Commit(After(root, t, es[0], a), t, es[1..], Ok, a)
    ensures Ready(After(root, t, es[0], a), t, es[1..], a)
    ensures forall e :: e in es ==> Kept(root, After(root, t, es[0], a), t, PathOf(es[0]), PathOf(e), a)
  {
    hide WellFormed, HasType, AppendsFit, HasRoom, Resolves, Kept, Commit, CommitEntry, PathOf;
    FirstHasRoom(root, t, es, a);
    assert es[0] in es;
    var after := StepConsistent(root, t, es, a);
    AppendFitsStep(root, after, t, es, a);
    CommitCons(root, t, es[0], es[1..], a);
    assert es == [es[0]] + es[1..];
  }

  lemma StepAlike(root: Value, t: Shape, es: seq<Entry>, a: Authorizer)
    requires HasType(root, t) && WellFormed(t) && t.TStruct? && es != [] && Ready(root, t, es, a)
    ensures Alike(root, t, es, a) ==> Alike(After(root, t, es[0], a), t, es[1..], a)
    ensures forall e :: e in es ==> Decoded(After(root, t, es[0], a), t, e, a) == Decoded(root, t, e, a)
  {
    hide WellFormed, HasType, Ready, Commit, After, Target, Length, Limit, PathOf, Decode;
    StepReady(root, t, es, a);
    assert forall e :: e in es[1..] ==> e in es;
  }

  // --------------------------------------------------------------- permutations

  /** Where the first payload of a permutation stands in the original. */
  lemma FindFirst(es: seq<Entry>, fs: seq<Entry>) returns (k: nat, others: seq<Entry>)
    requires multiset(es) == multiset(fs) && fs != []
    ensures k < |es| && es[k] == fs[0] && others == es[..k] + es[k + 1..]
    ensures fs[0] in multiset(es) && fs == [fs[0]] + fs[1..]
    ensures multiset(others) == multiset(fs[1..]) == multiset(es) - multiset{fs[0]}
  {
    assert fs == [fs[0]] + fs[1..];
    assert fs[0] in multiset(fs);
    k :| 0 <= k < |es| && es[k] == fs[0];
    others := es[..k] + es[k + 1..];
    RemoveOne(es, k);
    RemoveOne(fs, 0);
    assert fs[..0] + fs[0 + 1..] == fs[1..];
  }

  lemma RemoveOne(es: seq<Entry>, k: nat)
    requires k < |es|
    ensures multiset(es[..k] + es[k + 1..]) == multiset(es) - multiset{es[k]}
  {
    assert es == es[..k] + [es[k]] + es[k + 1..];
  }

  lemma {:induction false} SameCount(es: seq<Entry>, fs: seq<Entry>, p: seq<Segment>)
    requires multiset(es) == multiset(fs)
    ensures HowMany(es, p) == HowMany(fs, p)
    decreases |fs|
  {
    hide PathOf;
    if fs == [] {
      assert |es| == |multiset(es)|;
    } else {
      var k, others := FindFirst(es, fs);
      SameCount(others, fs[1..], p);
      CountWithout(es, k, p);
    }
  }

  lemma CountWithout(es: seq<Entry>, k: nat, p: seq<Segment>)
    requires k < |es|
    ensures HowMany(es, p) == HowMany(es[..k] + es[k + 1..], p) + if PathOf(es[k]) == p then 1 else 0
  {
    hide PathOf;
    var before, behind := es[..k], es[k + 1..];
    assert es == before + ([es[k]] + behind) && ([es[k]] + behind)[1..] == behind;
    CountBoth(before, behind, p);
    CountBoth(before, [es[k]] + behind, p);
  }

  lemma {:induction false} CountBoth(es: seq<Entry>, fs: seq<Entry>, p: seq<Segment>)
    ensures HowMany(es + fs, p) == HowMany(es, p) + HowMany(fs, p)
  {
    hide PathOf;
    if es == [] {
      assert es + fs == fs;
    } else {
      CountBoth(es[1..], fs, p);
      assert (es + fs)[1..] == es[1..] + fs;
    }
  }

  /** Whether a batch is ready is a matter of which payloads there are, not of their order. */
  lemma PermutedReady(root: Value, t: Shape, es: seq<Entry>, fs: seq<Entry>, a: Authorizer)
    requires HasType(root, t) && multiset(es) == multiset(fs) && Ready(root, t, es, a)
    ensures Ready(root, t, fs, a)
    ensures Alike(root, t, es, a) <==> Alike(root, t, fs, a)
  {
    hide HasType, PathOf, Length, Limit, Resolves, Parse, Decoded;
    SameMembers(es, fs);
    forall e | e in fs ensures AppendFits(root, t, fs, PathOf(e), a) {
      SameCount(es, fs, PathOf(e));
      assert AppendFits(root, t, es, PathOf(e), a);
    }
  }

  lemma SameMembers(es: seq<Entry>, fs: seq<Entry>)
    requires multiset(es) == multiset(fs)
    ensures forall e :: e in es <==> e in fs
  {
    assert forall e :: e in es <==> e in multiset(es);
    assert forall e :: e in fs <==> e in multiset(fs);
  }

  // ------------------------------------------------------------------- swapping

  /** Two neighbours for one place that decode alike may be swapped, too. */
  lemma SwapSame(root: Value, t: Shape, e: Entry, f: Entry, a: Authorizer)
    requires HasType(root, t) && WellFormed(t) && t.TStruct?
    requires Good(root, t, e, a) && Good(root, t, f, a) && PathOf(e) == PathOf(f)
    requires Good(After(root, t, e, a), t, f, a) && Good(After(root, t, f, a), t, e, a)
    requires Decoded(root, t, e, a) == Decoded(root, t, f, a)
    ensures After(After(root, t, e, a), t, f, a) == After(After(root, t, f, a), t, e, a)
  {
    hide WellFormed, HasType, Good, Decoded, PathOf, Target, CommitEntry;
    AfterSame(root, t, e, f, a);
    DecodedAfter(root, t, e, e, a);
    DecodedAfter(root, t, e, f, a);
    AfterSame(After(root, t, e, a), t, f, e, a);
  }

  lemma AfterSame(root: Value, t: Shape, e: Entry, f: Entry, a: Authorizer)
    requires HasType(root, t) && WellFormed(t) && t.TStruct?
    requires Good(root, t, e, a) && Good(root, t, f, a) && PathOf(e) == PathOf(f)
    requires Decoded(root, t, e, a) == Decoded(root, t, f, a)
    ensures After(root, t, e, a) == After(root, t, f, a)
  {
    hide WellFormed, HasType, Target, Decode, Put, CommitEntry, Parse, HasRoom;
    ResolvedCommits(root, t, PathOf(e), e.value, a);
    ResolvedCommits(root, t, PathOf(f), f.value, a);
  }

  /** A good payload keeps what the payloads for its place decode to. */
  lemma DecodedAfter(root: Value, t: Shape, e: Entry, f: Entry, a: Authorizer)
    requires HasType(root, t) && WellFormed(t) && t.TStruct?
    requires Good(root, t, e, a) && PathOf(e) == PathOf(f)
    ensures Decoded(After(root, t, e, a), t, f, a) == Decoded(root, t, f, a)
  {
    hide WellFormed, HasType, Target, Decode, Put, CommitEntry, Parse, HasRoom, Addressable, Length, Limit, Valid;
    var p := PathOf(e);
    var target := Target(root, t, RootDescriptor(t), p, a).value;
    ResolvedCommits(root, t, p, e.value, a);
    WrittenTyped(root, t, p, e.value, a);
    WriteKeeps(root, t, p, p, a, Decode(e.value, target.0, target.1));
  }

  /** Committing two payloads. */
  lemma CommitTwo(root: Value, t: Shape, h: Entry, e: Entry, others: seq<Entry>, a: Authorizer)
    requires HasType(root, t) && WellFormed(t) && t.TStruct? && Ready(root, t, [h] + ([e] + others), a)
    ensures Good(root, t, h, a) && Good(After(root, t, h, a), t, e, a)
    ensures Commit(root, t, [h] + ([e] + others), Ok, a)
         == Commit(After(After(root, t, h, a), t, e, a), t, others, Ok, a)
  {
    hide WellFormed, HasType, Ready, Good, Commit, After, Kept;
    var rest := [e] + others;
    assert ([h] + rest)[1..] == rest && rest[1..] == others;
    StepReady(root, t, [h] + rest, a);
    StepReady(After(root, t, h, a), t, rest, a);
  }

  /** The first two payloads of a batch whose payloads are alike may be swapped. */
  lemma SwapFront(root: Value, t: Shape, h: Entry, e: Entry, others: seq<Entry>, a: Authorizer)
    requires HasType(root, t) && WellFormed(t) && t.TStruct?
    requires var es := [h] + ([e] + others); Ready(root, t, es, a) && Alike(root, t, es, a)
    ensures Commit(root, t, [h] + ([e] + others), Ok, a) == Commit(root, t, [e] + ([h] + others), Ok, a)
  {
    hide WellFormed, HasType, Ready, Good, Commit, After, Decoded, PathOf;
    var es, fs := [h] + ([e] + others), [e] + ([h] + others);
    assert multiset(es) == multiset(fs);
    PermutedReady(root, t, es, fs, a);
    CommitTwo(root, t, h, e, others, a);
    CommitTwo(root, t, e, h, others, a);
    assert h in es && e in es && e in fs;
    NotInside(root, t, es, h, e, a);
    if PathOf(h) == PathOf(e) {
      SwapSame(root, t, h, e, a);
    } else {
      SwapTwo(root, t, h, e, a);
    }
  }

  lemma NotInside(root: Value, t: Shape, es: seq<Entry>, e: Entry, f: Entry, a: Authorizer)
    requires HasType(root, t) && Ready(root, t, es, a) && e in es && f in es
    ensures PathOf(e) == PathOf(f) || Apart(PathOf(e), PathOf(f))
  {
    hide HasType, PathOf, Resolves, AppendsFit, Parse;
  }

  /** Any payload may be brought to the front. */
  lemma {:induction false} MoveToFront(root: Value, t: Shape, es: seq<Entry>, k: nat, a: Authorizer)
    requires HasType(root, t) && WellFormed(t) && t.TStruct? && k < |es|
    requires Ready(root, t, es, a) && Alike(root, t, es, a)
    ensures Commit(root, t, es, Ok, a) == Commit(root, t, [es[k]] + (es[..k] + es[k + 1..]), Ok, a)
    decreases k
  {
    hide WellFormed, HasType, Commit, After, Ready, Alike, Good, Kept, Decoded;
    if k == 0 {
      assert [es[k]] + (es[..k] + es[k + 1..]) == es;
    } else {
      var e, h, rest := es[k], es[0], es[1..];
      var others := rest[..k - 1] + rest[k..];
      assert es == [h] + rest;
      StepReady(root, t, es, a);
      StepAlike(root, t, es, a);
      MoveToFront(After(root, t, h, a), t, rest, k - 1, a);
      assert [rest[k - 1]] + (rest[..k - 1] + rest[k - 1 + 1..]) == [e] + others;
      MovedOne(es, k);
      var moved := [h] + ([e] + others);
      assert moved[0] == h && moved[1..] == [e] + others;
      PermutedReady(root, t, es, moved, a);
      StepReady(root, t, moved, a);
      SwapFront(root, t, h, e, others, a);
    }
  }

  lemma MovedOne(es: seq<Entry>, k: nat)
    requires 0 < k < |es|
    ensures var rest := es[1..];
            var others := rest[..k - 1] + rest[k..];
            && multiset(es) == multiset([es[0]] + ([es[k]] + others))
            && [es[0]] + others == es[..k] + es[k + 1..]
  {
    var rest := es[1..];
    assert es == [es[0]] + (rest[..k - 1] + ([es[k]] + rest[k..]));
  }

  /** The commit of a ready batch whose payloads are alike does not depend on their order:
      every permutation ends with OK and the same device. */
  lemma {:induction false} OrderIndependent(root: Value, t: Shape, es: seq<Entry>, fs: seq<Entry>, a: Authorizer)
    requires HasType(root, t) && WellFormed(t) && t.TStruct?
    requires multiset(es) == multiset(fs) && Ready(root, t, es, a) && Alike(root, t, es, a)
    ensures Commit(root, t, es, Ok, a) == Commit(root, t, fs, Ok, a)
    decreases |fs|
  {
    hide WellFormed, HasType, Commit, After, Ready, Alike, Good, Kept, Decoded;
    if fs == [] {
      assert |es| == |multiset(es)|;
    } else {
      var e := fs[0];
      var k, others := FindFirst(es, fs);
      var moved := [e] + others;
      MoveToFront(root, t, es, k, a);
      assert moved[0] == e && moved[1..] == others && multiset(moved) == multiset(es);
      PermutedReady(root, t, es, moved, a);
      PermutedReady(root, t, es, fs, a);
      StepReady(root, t, moved, a);
      StepAlike(root, t, moved, a);
      StepReady(root, t, fs, a);
      OrderIndependent(After(root, t, e, a), t, others, fs[1..], a);
    }
  }

  // --------------------------------------------------------------- reading back

  /** Nothing outside the batch changes. */
  lemma {:induction false} RestUnchanged(root: Value, t: Shape, es: seq<Entry>, q: seq<Segment>, a: Authorizer)
    requires HasType(root, t) && WellFormed(t) && t.TStruct? && Ready(root, t, es, a)
    requires At(root, t, RootDescriptor(t), q, a).Found?
    requires forall e :: e in es ==> Apart(PathOf(e), q)
    ensures At(Commit(root, t, es, Ok, a).root, t, RootDescriptor(t), q, a) == At(root, t, RootDescriptor(t), q, a)
    decreases |es|
  {
    hide WellFormed, HasType, CommitEntry, PathOf, Apart, Ready, At, Good, Kept;
    if es != [] {
      var e, rest := es[0], es[1..];
      assert e in es && forall f :: f in rest ==> f in es;
      StepReady(root, t, es, a);
      AfterUnaffected(root, t, e, q, a);
      RestUnchanged(After(root, t, e, a), t, rest, q, a);
    }
  }

  lemma AfterUnaffected(root: Value, t: Shape, e: Entry, q: seq<Segment>, a: Authorizer)
    requires HasType(root, t) && WellFormed(t) && t.TStruct? && Good(root, t, e, a)
    requires At(root, t, RootDescriptor(t), q, a).Found? && Apart(PathOf(e), q)
    ensures At(After(root, t, e, a), t, RootDescriptor(t), q, a) == At(root, t, RootDescriptor(t), q, a)
  {
    hide WellFormed, HasType, Target, Decode, Addressable, Valid, Parse, Put, CommitEntry, At, HasRoom;
    var p := PathOf(e);
    var target := Target(root, t, RootDescriptor(t), p, a).value;
    ResolvedCommits(root, t, p, e.value, a);
    WrittenTyped(root, t, p, e.value, a);
    AtUnaffected(root, t, RootDescriptor(t), p, q, a, Decode(e.value, target.0, target.1));
  }

  /** A payload that is not an append reads back as what it decodes to, with the type and
      descriptor that were there before, unless another one for its place comes later. */
  lemma {:induction false} PayloadReadsBack(root: Value, t: Shape, es: seq<Entry>, k: nat, a: Authorizer)
    requires HasType(root, t) && WellFormed(t) && t.TStruct? && Ready(root, t, es, a)
    requires k < |es| && !IsAppend(PathOf(es[k])) && forall j :: k < j < |es| ==> PathOf(es[j]) != PathOf(es[k])
    ensures var target := Target(root, t, RootDescriptor(t), PathOf(es[k]), a);
            && target.Some?
            && At(Commit(root, t, es, Ok, a).root, t, RootDescriptor(t), PathOf(es[k]), a)
               == Found(target.value.0, target.value.1, Decode(es[k].value, target.value.0, target.value.1))
    decreases k
  {
    hide WellFormed, HasType, Ready, Commit, After, PathOf, At, Target, Decode, Good, Apart, IsAppend, Length, Limit;
    var e, rest := es[0], es[1..];
    assert es == [e] + rest;
    StepReady(root, t, es, a);
    assert es[k] in es;
    if k > 0 {
      assert rest[k - 1] == es[k] && forall j :: k - 1 < j < |rest| ==> rest[j] == es[j + 1];
      PayloadReadsBack(After(root, t, e, a), t, rest, k - 1, a);
    } else {
      GoodReads(root, t, e, a);
      forall f | f in rest ensures Apart(PathOf(f), PathOf(e)) {
        var j :| 0 <= j < |rest| && rest[j] == f;
        assert es[j + 1] == f;
        NotInside(root, t, es, f, e, a);
      }
      RestUnchanged(After(root, t, e, a), t, rest, PathOf(e), a);
      TargetOf(root, t, PathOf(e), a);
    }
  }

  lemma TargetOf(root: Value, t: Shape, p: seq<Segment>, a: Authorizer)
    requires HasType(root, t) && At(root, t, RootDescriptor(t), p, a).Found? && !IsAppend(p)
    ensures var nav := At(root, t, RootDescriptor(t), p, a);
            Target(root, t, RootDescriptor(t), p, a) == Some((nav.t, nav.pd))
  {
  }

  lemma GoodReads(root: Value, t: Shape, e: Entry, a: Authorizer)
    requires HasType(root, t) && WellFormed(t) && t.TStruct? && Good(root, t, e, a) && !IsAppend(PathOf(e))
    ensures var before := At(root, t, RootDescriptor(t), PathOf(e), a);
            && before.Found?
            && At(After(root, t, e, a), t, RootDescriptor(t), PathOf(e), a)
               == Found(before.t, before.pd, Decode(e.value, before.t, before.pd))
  {
    hide WellFormed, HasType, Decode, Put, Valid, Parse, At, CommitEntry;
    var before := At(root, t, RootDescriptor(t), PathOf(e), a);
    ResolvedCommits(root, t, PathOf(e), e.value, a);
    WrittenTyped(root, t, PathOf(e), e.value, a);
    AtPut(root, t, RootDescriptor(t), PathOf(e), a, Decode(e.value, before.t, before.pd));
  }

  /** An append reads back behind the elements there were and the appends to its array that
      come before it in the batch. */
  lemma {:induction false} AppendReadsBack(root: Value, t: Shape, es: seq<Entry>, k: nat, a: Authorizer)
    requires HasType(root, t) && WellFormed(t) && t.TStruct? && Ready(root, t, es, a)
    requires k < |es| && IsAppend(PathOf(es[k]))
    ensures var p := PathOf(es[k]);
            var target := Target(root, t, RootDescriptor(t), p, a);
            var place := ParentOf(p) + [Index(Length(root, t, p, a) + HowMany(es[..k], p))];
            && target.Some?
            && At(Commit(root, t, es, Ok, a).root, t, RootDescriptor(t), place, a)
               == Found(target.value.0, target.value.1, Decode(es[k].value, target.value.0, target.value.1))
    decreases k
  {
    hide WellFormed, HasType, Ready, Commit, After, PathOf, At, Target, Decode, Good, Apart, IsAppend, Length, Limit;
    hide ParentOf;
    var e, rest := es[0], es[1..];
    assert es == [e] + rest;
    StepReady(root, t, es, a);
    assert es[k] in es;
    if k > 0 {
      assert rest[k - 1] == es[k] && es[..k][1..] == rest[..k - 1];
      AppendReadsBack(After(root, t, e, a), t, rest, k - 1, a);
    } else {
      GoodAppendReads(root, t, e, a);
      var q := Appended(root, t, PathOf(e), a);
      forall f | f in rest ensures Apart(PathOf(f), q) { OtherApart(root, t, es, e, f, a); }
      RestUnchanged(After(root, t, e, a), t, rest, q, a);
      assert es[..0] == [];
    }
  }

  /** The element that an append adds is apart from every path of the batch. */
  lemma OtherApart(root: Value, t: Shape, es: seq<Entry>, e: Entry, f: Entry, a: Authorizer)
    requires HasType(root, t) && WellFormed(t) && t.TStruct? && Ready(root, t, es, a)
    requires e in es && f in es && IsAppend(PathOf(e))
    ensures Apart(PathOf(f), Appended(root, t, PathOf(e), a))
  {
    hide WellFormed, HasType, Ready, Good, Length, PathOf, Apart;
    ReadyGood(root, t, es, e, a);
    ReadyGood(root, t, es, f, a);
    NotInside(root, t, es, e, f, a);
    if PathOf(e) == PathOf(f) {
      EndApart(root, t, PathOf(e), a);
    } else {
      AppendedApart(root, t, e, f, a);
    }
  }

  lemma EndApart(root: Value, t: Shape, p: seq<Segment>, a: Authorizer)
    requires HasType(root, t) && WellFormed(t) && IsAppend(p)
    ensures Apart(p, Appended(root, t, p, a))
  {
    hide WellFormed, HasType, Length;
    LengthBelow(root, t, p, a);
    var q := Appended(root, t, p, a);
    assert |p| == |q| && p[|p| - 1] != q[|q| - 1];
  }

  lemma ReadyGood(root: Value, t: Shape, es: seq<Entry>, e: Entry, a: Authorizer)
    requires HasType(root, t) && Ready(root, t, es, a) && e in es
    ensures Good(root, t, e, a)
  {
    hide HasType, PathOf, Length, Limit, Resolves, Parse;
    assert AppendFits(root, t, es, PathOf(e), a);
    CountsIt(es, e);
  }

  lemma {:induction false} CountsIt(es: seq<Entry>, e: Entry)
    requires e in es
    ensures HowMany(es, PathOf(e)) > 0
  {
    hide PathOf;
    if es[0] != e { CountsIt(es[1..], e); }
  }

  /** Where the element goes that is appended at `p`. */
  function Appended(root: Value, t: Shape, p: seq<Segment>, a: Authorizer): seq<Segment>
    requires HasType(root, t)
  {
    ParentOf(p) + [Index(Length(root, t, p, a))]
  }

  lemma GoodAppendReads(root: Value, t: Shape, e: Entry, a: Authorizer)
    requires HasType(root, t) && WellFormed(t) && t.TStruct? && Good(root, t, e, a) && IsAppend(PathOf(e))
    ensures var target := Target(root, t, RootDescriptor(t), PathOf(e), a);
            && target.Some?
            && At(After(root, t, e, a), t, RootDescriptor(t), Appended(root, t, PathOf(e), a), a)
               == Found(target.value.0, target.value.1, Decode(e.value, target.value.0, target.value.1))
  {
    hide WellFormed, HasType, Decode, Put, Valid, Parse, CommitEntry, Addressable;
    var p, rd := PathOf(e), RootDescriptor(t);
    var target := Target(root, t, rd, p, a).value;
    ResolvedCommits(root, t, p, e.value, a);
    WrittenTyped(root, t, p, e.value, a);
    AppendSeen(root, t, p, a, Decode(e.value, target.0, target.1));
    RootDescribed(t);
    var after, n := After(root, t, e, a), Length(root, t, p, a);
    AtSplit(after, t, rd, ParentOf(p), Index(n), a);
    var nav := At(after, t, rd, ParentOf(p), a);
    AtTyped(after, t, rd, ParentOf(p), a);
    assert [Index(n)][1..] == [];
    assert At(nav.v, nav.t, nav.pd, [Index(n)], a) == At(nav.v.items[n], nav.t.element, nav.pd, [], a);
  }

  lemma LengthBelow(root: Value, t: Shape, p: seq<Segment>, a: Authorizer)
    requires HasType(root, t) && WellFormed(t)
    ensures Length(root, t, p, a) < K_NONE
  {
    RootDescribed(t);
    AtTyped(root, t, RootDescriptor(t), ParentOf(p), a);
  }

  /** A path apart from an append is apart from the appended element, or leads through it. */
  lemma ApartOrThrough(b: seq<Segment>, n: nat, r: seq<Segment>)
    requires Apart(b + [APPEND], r) && n < K_NONE
    ensures var q := b + [Index(n)]; Apart(r, q) || q <= if IsAppend(r) then ParentOf(r) else r
  {
    var p, q := b + [APPEND], b + [Index(n)];
    if |r| <= |b| { assert p[..|r|] == q[..|r|]; }
    if q <= r && IsAppend(r) {
      assert r[|q| - 1] == q[|q| - 1];
      assert ParentOf(r) == r[..|r| - 1];
    }
  }

  lemma GoodFound(root: Value, t: Shape, f: Entry, a: Authorizer)
    requires HasType(root, t) && Good(root, t, f, a)
    ensures var r := PathOf(f);
            && At(root, t, RootDescriptor(t), if IsAppend(r) then ParentOf(r) else r, a).Found?
            && Target(root, t, RootDescriptor(t), r, a).Some?
  {
    hide HasType, At, Parse, Valid, HasRoom;
  }

  /** No path leads through an element that is not there yet. */
  lemma NotThrough(root: Value, t: Shape, p: seq<Segment>, end: seq<Segment>, a: Authorizer)
    requires HasType(root, t) && WellFormed(t) && IsAppend(p) && Target(root, t, RootDescriptor(t), p, a).Some?
    requires At(root, t, RootDescriptor(t), end, a).Found?
    ensures !(Appended(root, t, p, a) <= end)
  {
    hide HasType, WellFormed, At, Target, IsAppend, Appended;
    var q := Appended(root, t, p, a);
    NothingBehind(root, t, p, a);
    if q <= end {
      assert q + end[|q|..] == end;
      AtPrefix(root, t, RootDescriptor(t), q, end[|q|..], a);
    }
  }

  /** The appended element is apart from every other payload of the batch. */
  lemma AppendedApart(root: Value, t: Shape, e: Entry, f: Entry, a: Authorizer)
    requires HasType(root, t) && WellFormed(t) && t.TStruct? && Good(root, t, e, a) && Good(root, t, f, a)
    requires IsAppend(PathOf(e)) && Apart(PathOf(e), PathOf(f))
    ensures Apart(PathOf(f), Appended(root, t, PathOf(e), a))
  {
    hide HasType, WellFormed, Good, At, Length, PathOf, Target, Apart;
    var p, r := PathOf(e), PathOf(f);
    GoodFound(root, t, e, a);
    GoodFound(root, t, f, a);
    NotThrough(root, t, p, if IsAppend(r) then ParentOf(r) else r, a);
    LengthBelow(root, t, p, a);
    assert ParentOf(p) + [APPEND] == p;
    ApartOrThrough(ParentOf(p), Length(root, t, p, a), r);
  }

  lemma NothingBehind(root: Value, t: Shape, p: seq<Segment>, a: Authorizer)
    requires HasType(root, t) && WellFormed(t) && IsAppend(p) && Target(root, t, RootDescriptor(t), p, a).Some?
    ensures At(root, t, RootDescriptor(t), Appended(root, t, p, a), a).Fail?
  {
    var rd, q := RootDescriptor(t), Appended(root, t, p, a);
    RootDescribed(t);
    if At(root, t, rd, q, a).Found? { AtUnsplit(root, t, rd, ParentOf(p), q[|q| - 1], a); }
  }

  // ------------------------------------------------------------------ any order

  /** The commit goes through and ends with OK. */
  predicate Succeeds(r: CommitOutcome) { r.Done? && r.status == Ok }

  /** A batch that does not depend on its order is alike: of two payloads for one place that
      decode differently either can be put where it is read back. */
  lemma NotAlikeDepends(root: Value, t: Shape, es: seq<Entry>, e: Entry, f: Entry, a: Authorizer)
    returns (x: seq<Entry>, y: seq<Entry>)
    requires HasType(root, t) && WellFormed(t) && t.TStruct? && Ready(root, t, es, a)
    requires e in es && f in es && PathOf(e) == PathOf(f) && Decoded(root, t, e, a) != Decoded(root, t, f, a)
    ensures multiset(x) == multiset(es) == multiset(y)
    ensures Commit(root, t, x, Ok, a) != Commit(root, t, y, Ok, a)
  {
    hide WellFormed, HasType, Ready, Commit, PathOf, At, Target, Decode, IsAppend, Length, Limit, ParentOf;
    if IsAppend(PathOf(e)) {
      x := First(es, e);
      y := First(es, f);
      PermutedReady(root, t, es, x, a);
      PermutedReady(root, t, es, y, a);
      AppendReadsBack(root, t, x, 0, a);
      AppendReadsBack(root, t, y, 0, a);
      assert x[..0] == y[..0];
    } else {
      x := Last(es, e);
      y := Last(es, f);
      PermutedReady(root, t, es, x, a);
      PermutedReady(root, t, es, y, a);
      PayloadReadsBack(root, t, x, |x| - 1, a);
      PayloadReadsBack(root, t, y, |y| - 1, a);
    }
  }

  lemma First(es: seq<Entry>, e: Entry) returns (fs: seq<Entry>)
    requires e in es
    ensures fs != [] && fs[0] == e && multiset(fs) == multiset(es)
  {
    var k :| 0 <= k < |es| && es[k] == e;
    fs := [e] + (es[..k] + es[k + 1..]);
    RemoveOne(es, k);
  }

  lemma Last(es: seq<Entry>, e: Entry) returns (fs: seq<Entry>)
    requires e in es
    ensures fs != [] && fs[|fs| - 1] == e && multiset(fs) == multiset(es)
  {
    var k :| 0 <= k < |es| && es[k] == e;
    fs := es[..k] + es[k + 1..] + [e];
    RemoveOne(es, k);
  }

  /** An accepted batch that commits does so in every order. All orders end with the same
      device if and only if the payloads for one place, or for the end of one array, decode
      to the same value. */
  lemma AcceptedOrderIff(root: Value, t: Shape, es: seq<Entry>, multiSet: bool, a: Authorizer)
    requires HasType(root, t) && WellFormed(t) && t.TStruct? && NoneInside(es)
    requires Try(root, t, es, multiSet, Ok, a) == Returned(Ok) && NoSentinel(es) && AppendsFit(root, t, es, a)
    ensures forall fs | multiset(fs) == multiset(es) :: Succeeds(Commit(root, t, fs, Ok, a))
    ensures (forall fs | multiset(fs) == multiset(es) :: Commit(root, t, fs, Ok, a) == Commit(root, t, es, Ok, a))
       <==> Alike(root, t, es, a)
  {
    TryIff(root, t, es, multiSet, Ok, a);
    hide HasType, WellFormed, Try, Commit, Consistent, AppendsFit, Acceptable, NoSentinel, NoneInside, PathOf, Decoded;
    AcceptableConsistent(root, t, es, a);
    forall fs | multiset(fs) == multiset(es) ensures Succeeds(Commit(root, t, fs, Ok, a)) {
      PermutedReady(root, t, es, fs, a);
      CommitIff(root, t, fs, a);
    }
    if Alike(root, t, es, a) {
      forall fs | multiset(fs) == multiset(es) ensures Commit(root, t, fs, Ok, a) == Commit(root, t, es, Ok, a) {
        OrderIndependent(root, t, es, fs, a);
      }
    } else {
      var e, f :| e in es && f in es && PathOf(e) == PathOf(f) && Decoded(root, t, e, a) != Decoded(root, t, f, a);
      var x, y := NotAlikeDepends(root, t, es, e, f, a);
    }
  }

  /** And it is accepted in every order. */
  lemma AcceptedAnyOrder(root: Value, t: Shape, es: seq<Entry>, fs: seq<Entry>, multiSet: bool, a: Authorizer)
    requires HasType(root, t) && WellFormed(t) && multiset(es) == multiset(fs)
    ensures Try(root, t, es, multiSet, Ok, a) == Returned(Ok) <==> Try(root, t, fs, multiSet, Ok, a) == Returned(Ok)
  {
    hide HasType, WellFormed, Try, Acceptable;
    TryIff(root, t, es, multiSet, Ok, a);
    TryIff(root, t, fs, multiSet, Ok, a);
    assert |es| == |multiset(es)| && |fs| == |multiset(fs)|;
    if Acceptable(root, t, es, [], a) { AcceptablePermuted(root, t, es, fs, a); }
    if Acceptable(root, t, fs, [], a) { AcceptablePermuted(root, t, fs, es, a); }
  }

  lemma AcceptablePermuted(root: Value, t: Shape, es: seq<Entry>, fs: seq<Entry>, a: Authorizer)
    requires HasType(root, t) && WellFormed(t) && multiset(es) == multiset(fs) && Acceptable(root, t, es, [], a)
    ensures Acceptable(root, t, fs, [], a)
  {
    hide HasType, WellFormed, Accept, Overlap, Parse;
    SameMembers(es, fs);
    forall i | 0 <= i < |fs|
      ensures Parse(fs[i].oid).Parsed? && Accept(root, t, Parse(fs[i].oid).segments, fs[i].value, a) == Ok
    {
      assert fs[i] in fs;
      var k :| 0 <= k < |es| && es[k] == fs[i];
    }
    forall j, i | 0 <= j < i < |fs| ensures !Overlap(fs[j].oid, fs[i].oid) {
      TwoPlaces(es, fs, j, i);
      var k, l :| 0 <= k < |es| && 0 <= l < |es| && k != l && es[k] == fs[j] && es[l] == fs[i];
      OverlapSymmetric(es[k].oid, es[l].oid);
    }
  }

  lemma OverlapSymmetric(x: string, y: string)
    ensures Overlap(x, y) <==> Overlap(y, x)
  {
  }

  /** Two places of a permutation are two places of the original. */
  lemma TwoPlaces(es: seq<Entry>, fs: seq<Entry>, j: nat, i: nat)
    requires multiset(es) == multiset(fs) && j < i < |fs|
    ensures exists k, l :: 0 <= k < |es| && 0 <= l < |es| && k != l && es[k] == fs[j] && es[l] == fs[i]
  {
    assert fs[j] in multiset(fs);
    var k :| 0 <= k < |es| && es[k] == fs[j];
    RemoveOne(es, k);
    RemoveOne(fs, j);
    var others := es[..k] + es[k + 1..];
    assert fs[i] == (fs[..j] + fs[j + 1..])[i - 1];
    assert fs[i] in multiset(others);
    var l :| 0 <= l < |others| && others[l] == fs[i];
    assert es[if l < k then l else l + 1] == fs[i];
  }
}

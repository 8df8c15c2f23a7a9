/** Where the guarantees of a multi-set end: batches that are accepted although they crash
    the commit, depend on their order, or break a bound. */
module BatchLimits {
  import opened Types
  import opened StructInfo
  import opened CodecProperties
  import opened Navigation
  import opened Paths
  import opened Transactions
  import opened BatchProperties
  import opened BatchOutcome
  import BatchOrder

  /** Two appends to an array with room for one pass the validation, which looks at
      the array as it is, and crash the commit. */
  lemma DoubleAppendCrashes(root: Value, t: Shape, e: Entry, a: Authorizer)
    requires HasType(root, t) && WellFormed(t) && t.TStruct? && Parse(e.oid).Parsed? && EndsInDash(e.oid)
    requires Accept(root, t, PathOf(e), e.value, a) == Ok
    requires Length(root, t, PathOf(e), a) + 1 == Limit(root, t, PathOf(e), a)
    ensures Try(root, t, [e, e], true, Ok, a) == Returned(Ok)
    ensures Commit(root, t, [e, e], Ok, a).NullDereference?
  {
    hide HasType, WellFormed, Accept, Commit, Try, Length, Limit, At, IsPath, SegmentsOf, Print, Consistent;
    var es := [e, e];
    DashIsAppend(e.oid);
    assert Acceptable(root, t, es, [], a);
    TryIff(root, t, es, true, Ok, a);
    AcceptableConsistent(root, t, es, a);
    CommitIff(root, t, es, a);
    assert es[1..] == [e] && [e][1..] == [] && HowMany([e], PathOf(e)) == 1;
    assert e in es && !AppendFits(root, t, es, PathOf(e), a);
  }

  /** Whatever whole value a param accepts, it also accepts under its oid followed by
      the number that stands for `no index`; and that never commits. */
  lemma SentinelAccepted(root: Value, t: Shape, p: seq<Segment>, w: Wire, a: Authorizer)
    requires HasType(root, t) && WellFormed(t)
    requires Accept(root, t, p, w, a) == Ok && !EndsInIndex(p)
    ensures Accept(root, t, p + [Index(K_NONE)], w, a) == Ok
    ensures CommitEntry(root, t, p + [Index(K_NONE)], w, a) == NullDereference(root)
  {
    hide At, Validate;
    assert ParentOf(p + [Index(K_NONE)]) == p;
    SentinelCrashes(root, t, p + [Index(K_NONE)], w, a);
  }

  /** Two spellings of the same index do not overlap as texts. */
  lemma SpellingsDoNotOverlap(name: string, i: nat)
    requires IsWord(name) && i <= SIZE_MAX
    ensures var x, y := "/" + name + "/" + Digits(i), "/" + name + "/0" + Digits(i);
            && Parse(x) == Parse(y) == Parsed([Name(name), Index(i)])
            && (i > 0 ==> !Overlap(x, y))
  {
    var d := Digits(i);
    if i > 0 { FirstDigit(i); }
    hide Digits, NumberOf;
    NumberOfDigits(i);
    LeadingZero(d);
    assert IsNumber("0" + d) by { assert forall c :: c in "0" + d ==> c == '0' || c in d; }
    TwoSegments(name, d);
    TwoSegments(name, "0" + d);
    var x, y := "/" + name + "/" + d, "/" + name + "/0" + d;
    assert "/" + name + "/" + ("0" + d) == y;
    hide IsWord, IsNumber, Parse, Overlap, IsDigit;
    if i > 0 { SpelledApart(name, d); }
  }

  lemma SpelledApart(name: string, d: string)
    requires d != "" && d[0] != '0' && forall c | c in d :: IsDigit(c)
    ensures !Overlap("/" + name + "/" + d, "/" + name + "/0" + d)
  {
    var x, y, k := "/" + name + "/" + d, "/" + name + "/0" + d, |name| + 2;
    assert x[k] == d[0] && y[k] == '0';
    assert x[|x| - 1] == d[|d| - 1] && d[|d| - 1] in d;
  }

  lemma {:induction false} FirstDigit(i: nat)
    requires i > 0
    ensures Digits(i)[0] != '0'
  {
    if i >= 10 { FirstDigit(i / 10); }
  }

  /** So a batch may write the same element twice: both entries are accepted, the commit
      keeps whichever comes last, and with different values the two orders give different
      devices. */
  lemma SpellingsMakeOrderMatter(root: Value, t: Shape, name: string, i: nat, w: Wire, w': Wire, a: Authorizer)
    requires HasType(root, t) && WellFormed(t) && t.TStruct? && IsWord(name) && 0 < i < K_NONE
    requires var p := [Name(name), Index(i)]; Accept(root, t, p, w, a) == Ok && Accept(root, t, p, w', a) == Ok
    ensures var e, f := Entry("/" + name + "/" + Digits(i), w), Entry("/" + name + "/0" + Digits(i), w');
            var nav := At(root, t, RootDescriptor(t), [Name(name), Index(i)], a);
            && Try(root, t, [e, f], true, Ok, a) == Try(root, t, [f, e], true, Ok, a) == Returned(Ok)
            && nav.Found?
            && EndsWith(Commit(root, t, [e, f], Ok, a), t, [Name(name), Index(i)], a, Decode(w', nav.t, nav.pd))
            && EndsWith(Commit(root, t, [f, e], Ok, a), t, [Name(name), Index(i)], a, Decode(w, nav.t, nav.pd))
            && (Decode(w, nav.t, nav.pd) != Decode(w', nav.t, nav.pd) ==>
                  Commit(root, t, [e, f], Ok, a).root != Commit(root, t, [f, e], Ok, a).root)
  {
    hide HasType, WellFormed, Accept, Commit, Try, At, IsPath, SegmentsOf, Print, Overlap, IsWord, Digits, Decode;
    var p := [Name(name), Index(i)];
    var e, f := Entry("/" + name + "/" + Digits(i), w), Entry("/" + name + "/0" + Digits(i), w');
    SpellingsDoNotOverlap(name, i);
    BatchOrder.OverlapSymmetric(e.oid, f.oid);
    TwoAccepted(root, t, e, f, a);
    TwoAccepted(root, t, f, e, a);
    CommitTwice(root, t, e, f, p, a);
    CommitTwice(root, t, f, e, p, a);
  }

  /** The commit succeeded, and this is what the path leads to. */
  ghost predicate EndsWith(r: CommitOutcome, t: Shape, p: seq<Segment>, a: Authorizer, v: Value)
  {
    && r.Done? && r.status == Ok && HasType(r.root, t)
    && var nav := At(r.root, t, RootDescriptor(t), p, a);
       nav.Found? && nav.v == v
  }

  lemma TwoAccepted(root: Value, t: Shape, e: Entry, f: Entry, a: Authorizer)
    requires HasType(root, t) && WellFormed(t) && !Overlap(e.oid, f.oid)
    requires Parse(e.oid).Parsed? && Accept(root, t, PathOf(e), e.value, a) == Ok
    requires Parse(f.oid).Parsed? && Accept(root, t, PathOf(f), f.value, a) == Ok
    ensures Try(root, t, [e, f], true, Ok, a) == Returned(Ok)
  {
    hide HasType, WellFormed, Accept, Try, IsPath, SegmentsOf, Overlap;
    assert Acceptable(root, t, [e, f], [], a);
    TryIff(root, t, [e, f], true, Ok, a);
  }

  lemma CommitTwice(root: Value, t: Shape, e: Entry, f: Entry, p: seq<Segment>, a: Authorizer)
    requires HasType(root, t) && WellFormed(t) && t.TStruct? && !IsAppend(p) && !EndsInSentinel(p)
    requires Parse(e.oid) == Parse(f.oid) == Parsed(p)
    requires Accept(root, t, p, e.value, a) == Ok && Accept(root, t, p, f.value, a) == Ok
    ensures var nav := At(root, t, RootDescriptor(t), p, a);
            && nav.Found?
            && EndsWith(Commit(root, t, [e, f], Ok, a), t, p, a, Decode(f.value, nav.t, nav.pd))
  {
    hide HasType, WellFormed, Accept, At, IsPath, SegmentsOf, Decode, Put, CommitEntry, Valid, Parse;
    var rd := RootDescriptor(t);
    AcceptedResolves(root, t, p, e.value, a);
    AcceptedResolves(root, t, p, f.value, a);
    WrittenTyped(root, t, p, e.value, a);
    WrittenTyped(root, t, p, f.value, a);
    var nav := At(root, t, rd, p, a);
    var v, v' := Decode(e.value, nav.t, nav.pd), Decode(f.value, nav.t, nav.pd);
    var after := Put(root, t, p, v);
    ResolvedCommits(root, t, p, e.value, a);
    AtPut(root, t, rd, p, a, v);
    ResolvedCommits(after, t, p, f.value, a);
    AtPut(after, t, rd, p, a, v');
    assert [e, f][1..] == [f] && [f][1..] == [];
    var r := CommitEntry(after, t, p, f.value, a);
    assert Commit(after, t, [f], Ok, a) == Commit(r.root, t, [], Ok, a);
    assert Commit(root, t, [e, f], Ok, a) == Commit(after, t, [f], Ok, a);
  }

  lemma {:induction false} LeadingZero(d: string)
    requires forall c | c in d :: IsDigit(c)
    ensures forall c | c in "0" + d :: IsDigit(c)
    ensures NumberOf("0" + d) == NumberOf(d)
  {
    if d == "" {
      assert "0"[..0] == "" && "0" + d == "0";
    } else {
      LeadingZero(d[..|d| - 1]);
      assert ("0" + d)[..|d|] == "0" + d[..|d| - 1];
    }
  }

  lemma TwoSegments(name: string, number: string)
    requires IsWord(name) && IsNumber(number) && NumberOf(number) <= SIZE_MAX
    ensures Parse("/" + name + "/" + number) == Parsed([Name(name), Index(NumberOf(number))])
  {
    hide IsWord, IsNumber, NumberOf;
    NoSolidus(name);
    NoSolidus(number);
    EmptyIsPath();
    ParseAppended("", 0, name);
    assert "" + ("/" + name) == "/" + name;
    ParseAppended("/" + name, 0, number);
    assert ("/" + name) + ("/" + number) == "/" + name + "/" + number;
    WordNotNumber(name);
  }

  lemma NoSolidus(token: string)
    requires IsWord(token) || IsNumber(token)
    ensures '/' !in token
  {
  }

  lemma WordNotNumber(token: string)
    requires IsWord(token)
    ensures !IsNumber(token) && token != "-"
  {
    assert token[0] in token;
  }

  /** A device with one array of at most two strings, one character long in all. */
  function StringsParam(): Descriptor { Descriptor("", false, 2, 1, None, TArray(TString)) }

  function StringsShape(): Shape { TStruct([Field("a", StringsParam())]) }

  function Strings(x: string, y: string): Value { Struct([Array([Str(x), Str(y)])]) }

  lemma StringsAt(x: string, y: string, i: nat, a: Authorizer)
    requires a.disabled && i < 2
    ensures WellFormed(StringsShape()) && HasType(Strings(x, y), StringsShape())
    ensures var rd := RootDescriptor(StringsShape());
            && At(Strings(x, y), StringsShape(), rd, [Name("a")], a)
               == Found(TArray(TString), StringsParam(), Array([Str(x), Str(y)]))
            && At(Strings(x, y), StringsShape(), rd, [Name("a"), Index(i)], a)
               == Found(TString, StringsParam(), if i == 0 then Str(x) else Str(y))
  {
    assert [Name("a")][1..] == [] && [Name("a"), Index(i)][1..] == [Index(i)] && [Index(i)][1..] == [];
    var v, t := Strings(x, y), StringsShape();
    assert Slot(v, t, Name("a")) == 0;
    assert StepStatus(v, t, RootDescriptor(t), Name("a"), a) == Ok;
    assert At(Array([Str(x), Str(y)]), TArray(TString), StringsParam(), [Index(i)], a)
        == At(if i == 0 then Str(x) else Str(y), TString, StringsParam(), [], a);
  }

  lemma StringAccepted(i: nat, a: Authorizer)
    requires a.disabled && i < 2
    ensures WellFormed(StringsShape()) && HasType(Strings("", ""), StringsShape())
    ensures Accept(Strings("", ""), StringsShape(), [Name("a"), Index(i)], StringWire("x"), a) == Ok
  {
    StringsAt("", "", i, a);
    hide At;
    assert [Name("a"), Index(i)][..1] == [Name("a")];
    assert Sizes([Str(""), Str("")]) == [0, 0];
    assert [0, 0][i := 1] == if i == 0 then [1, 0] else [0, 1];
    SumOfTwo(0, 1);
    SumOfTwo(1, 0);
  }

  lemma SumOfTwo(x: nat, y: nat)
    ensures Sum([x, y]) == x + y
  {
    assert [x, y][..1] == [x] && [x][..0] == [];
    assert Sum([x]) == x;
  }

  /** Each string is checked against the others as they are, so a batch of two element
      writes can exceed the total length that every single write respects: it is accepted
      by a conforming device, commits, and leaves the device not conforming. */
  lemma TotalLengthExceeded(a: Authorizer)
    requires a.disabled
    ensures var t, root := StringsShape(), Strings("", "");
            var es := [Entry("/a/0", StringWire("x")), Entry("/a/1", StringWire("x"))];
            && WellFormed(t) && HasType(root, t) && Conforms(root, t, RootDescriptor(t))
            && Try(root, t, es, true, Ok, a) == Returned(Ok)
            && Commit(root, t, es, Ok, a) == Done(Strings("x", "x"), Ok)
            && HasType(Strings("x", "x"), t) && !Conforms(Strings("x", "x"), t, RootDescriptor(t))
  {
    var t, root := StringsShape(), Strings("", "");
    var e, f := Entry("/a/0", StringWire("x")), Entry("/a/1", StringWire("x"));
    hide Accept, Try, IsPath, SegmentsOf, CommitEntry, HasType, WellFormed, Conforms, Parse, Overlap, Commit;
    hide StringsShape, Strings, StringsParam;
    ElementOid("0", 0);
    ElementOid("1", 1);
    assert "/a/" + "0" == "/a/0" && "/a/" + "1" == "/a/1";
    StringAccepted(0, a);
    StringAccepted(1, a);
    StringsConform("", "");
    StringsConform("x", "x");
    ElementsDoNotOverlap();
    TwoAccepted(root, t, e, f, a);
    BothCommitted(e, f, a);
  }

  /** A device with one string in that array, so with room for one more. */
  function OneString(): Value { Struct([Array([Str("")])]) }

  lemma OneStringAt(a: Authorizer)
    requires a.disabled
    ensures WellFormed(StringsShape()) && HasType(OneString(), StringsShape())
    ensures Conforms(OneString(), StringsShape(), RootDescriptor(StringsShape()))
    ensures At(OneString(), StringsShape(), RootDescriptor(StringsShape()), [Name("a")], a)
         == Found(TArray(TString), StringsParam(), Array([Str("")]))
  {
    var v, t := OneString(), StringsShape();
    assert [Name("a")][1..] == [] && Slot(v, t, Name("a")) == 0;
    assert StepStatus(v, t, RootDescriptor(t), Name("a"), a) == Ok;
    var items := [Str("")];
    assert StringsOf(items) == [""] && [""][1..] == [] && TotalLength([""]) == 0;
    assert Conforms(Array(items), TArray(TString), StringsParam());
  }

  /** Two empty strings appended to it crash the commit. */
  lemma TwoForOne(a: Authorizer)
    requires a.disabled
    ensures var t, root, e := StringsShape(), OneString(), Entry("/a/-", StringWire(""));
            && WellFormed(t) && HasType(root, t) && Conforms(root, t, RootDescriptor(t))
            && Try(root, t, [e, e], true, Ok, a) == Returned(Ok)
            && Commit(root, t, [e, e], Ok, a).NullDereference?
  {
    var e, p := Entry("/a/-", StringWire("")), [Name("a"), APPEND];
    hide HasType, WellFormed, Conforms, Commit, Try, At, IsPath, SegmentsOf, Overlap;
    OneStringAt(a);
    DashParses();
    assert p[..1] == [Name("a")] && e.oid[2..] == "/-";
    assert Sizes([Str("")]) == [0] && [0] + [0] == [0, 0];
    SumOfTwo(0, 0);
    DoubleAppendCrashes(OneString(), StringsShape(), e, a);
  }

  lemma DashParses()
    ensures Parse("/a/-") == Parsed([Name("a"), APPEND])
  {
    var p := [Name("a"), APPEND];
    assert forall c | c in "a" :: c == 'a';
    ParsePrinted(p);
    PrintsAs(APPEND, "-");
    assert "/a/" + "-" == "/a/-";
  }

  lemma PrintsAs(s: Segment, text: string)
    requires PrintSegment(s) == text
    ensures Print([Name("a"), s]) == "/a/" + text
  {
    assert [Name("a"), s][..1] == [Name("a")] && [Name("a")][..0] == [];
    assert Print([Name("a")]) == "" + ("/" + "a");
    assert "" + ("/" + "a") == "/a" && "/a" + ("/" + text) == "/a/" + text;
  }

  /** Replacing the array by an empty one under the oid that ends in the reserved index
      crashes `setValue`. */
  lemma ReservedIndexCrashes(a: Authorizer)
    requires a.disabled
    ensures var t, root, e := StringsShape(), OneString(), Entry("/a/18446744073709551613", StringList([]));
            && WellFormed(t) && HasType(root, t) && Conforms(root, t, RootDescriptor(t))
            && SetValue(root, t, e, a) == Crashed(root)
  {
    var t, root, e := StringsShape(), OneString(), Entry("/a/18446744073709551613", StringList([]));
    var p := [Name("a")];
    hide HasType, WellFormed, Conforms, At, IsPath, SegmentsOf, CommitEntry, Parse, Try, Accept;
    OneStringAt(a);
    assert Accept(root, t, p, e.value, a) == Ok by { ListAccepted(a); }
    SentinelAccepted(root, t, p, e.value, a);
    ReservedParses();
    assert p + [Index(K_NONE)] == PathOf(e);
    var es := [e];
    assert Acceptable(root, t, es, [], a);
    TryIff(root, t, es, true, Ok, a);
    assert es[1..] == [];
  }

  lemma ListAccepted(a: Authorizer)
    requires a.disabled
    ensures WellFormed(StringsShape()) && HasType(OneString(), StringsShape())
    ensures Accept(OneString(), StringsShape(), [Name("a")], StringList([]), a) == Ok
  {
    OneStringAt(a);
    hide At;
  }

  lemma OneDigit(n: nat, d: nat)
    requires n > 0 && d < 10
    ensures Digits(10 * n + d) == Digits(n) + [('0' as int + d) as char]
  {
  }

  lemma MoreDigits(n: nat, x: nat, y: nat, z: nat)
    requires n > 0 && x < 10 && y < 10 && z < 10
    ensures Digits(1000 * n + 100 * x + 10 * y + z)
         == Digits(n) + [('0' as int + x) as char, ('0' as int + y) as char, ('0' as int + z) as char]
  {
    hide Digits;
    OneDigit(n, x);
    OneDigit(10 * n + x, y);
    OneDigit(10 * (10 * n + x) + y, z);
  }

  lemma ReservedDigits()
    ensures Digits(K_NONE) == "18" + "446" + "744" + "073" + "709" + "551" + "613"
  {
    assert Digits(18) == "18";
    hide Digits;
    MoreDigits(18, 4, 4, 6);
    MoreDigits(18446, 7, 4, 4);
    MoreDigits(18446744, 0, 7, 3);
    MoreDigits(18446744073, 7, 0, 9);
    MoreDigits(18446744073709, 5, 5, 1);
    MoreDigits(18446744073709551, 6, 1, 3);
  }

  lemma ReservedText()
    ensures "/a/" + ("18" + "446" + "744" + "073" + "709" + "551" + "613") == "/a/18446744073709551613"
  {
  }

  lemma ReservedParses()
    ensures Parse("/a/18446744073709551613") == Parsed([Name("a"), Index(K_NONE)])
  {
    var p := [Name("a"), Index(K_NONE)];
    assert forall c | c in "a" :: c == 'a';
    ParsePrinted(p);
    hide Digits, Print, Parse;
    PrintsAs(Index(K_NONE), Digits(K_NONE));
    ReservedDigits();
    ReservedText();
  }

  lemma ElementsDoNotOverlap()
    ensures !Overlap("/a/0", "/a/1")
  {
    assert "/a/0"[3] != "/a/1"[3] && "/a/0"[3] == '0';
  }

  lemma BothCommitted(e: Entry, f: Entry, a: Authorizer)
    requires a.disabled && e.value == f.value == StringWire("x")
    requires Parse(e.oid) == Parsed([Name("a"), Index(0)]) && Parse(f.oid) == Parsed([Name("a"), Index(1)])
    ensures WellFormed(StringsShape()) && HasType(Strings("", ""), StringsShape())
    ensures Commit(Strings("", ""), StringsShape(), [e, f], Ok, a) == Done(Strings("x", "x"), Ok)
  {
    hide HasType, WellFormed, CommitEntry, IsPath, SegmentsOf, Parse, StringsShape, Strings, StringsParam, Conforms;
    var t := StringsShape();
    StringCommitted("", "", 0, a);
    StringCommitted("x", "", 1, a);
    StringsConform("x", "x");
    assert [e, f][1..] == [f] && [f][1..] == [];
    assert Commit(Strings("x", "x"), t, [], Ok, a) == Done(Strings("x", "x"), Ok);
    assert Commit(Strings("x", ""), t, [f], Ok, a) == Done(Strings("x", "x"), Ok);
  }

  lemma ElementOid(d: string, i: nat)
    requires i < 2 && d == if i == 0 then "0" else "1"
    ensures Parse("/a/" + d) == Parsed([Name("a"), Index(i)])
  {
    assert d[..0] == "" && NumberOf("") == 0;
    assert NumberOf(d) == i;
    assert d[0] in d && forall c | c in d :: c == d[0];
    assert forall c | c in "a" :: c == 'a';
    TwoSegments("a", d);
    assert "/" + "a" + "/" + d == "/a/" + d;
  }

  lemma StringCommitted(x: string, y: string, i: nat, a: Authorizer)
    requires a.disabled && i < 2
    ensures WellFormed(StringsShape()) && HasType(Strings(x, y), StringsShape())
    ensures CommitEntry(Strings(x, y), StringsShape(), [Name("a"), Index(i)], StringWire("x"), a)
         == Done(if i == 0 then Strings("x", y) else Strings(x, "x"), Ok)
  {
    var v, t, p := Strings(x, y), StringsShape(), [Name("a"), Index(i)];
    StringsAt(x, y, i, a);
    ResolvedCommits(v, t, p, StringWire("x"), a);
    assert p[1..] == [Index(i)] && [Index(i)][1..] == [];
    assert Slot(v, t, Name("a")) == 0;
    var after := if i == 0 then Array([Str("x"), Str(y)]) else Array([Str(x), Str("x")]);
    assert Put(Array([Str(x), Str(y)]), TArray(TString), [Index(i)], Str("x")) == after;
    assert Put(v, t, p, Str("x")) == WithChild(v, 0, after);
    assert [Array([Str(x), Str(y)])][0 := after] == [after];
  }

  lemma StringsConform(x: string, y: string)
    ensures WellFormed(StringsShape()) && HasType(Strings(x, y), StringsShape())
    ensures Conforms(Strings(x, y), StringsShape(), RootDescriptor(StringsShape())) <==> |x| + |y| <= 1
  {
    var items := [Str(x), Str(y)];
    assert StringsOf(items) == [x, y] && [x, y][1..] == [y] && [y][1..] == [];
    assert TotalLength([y]) == |y|;
    assert TotalLength([x, y]) == |x| + TotalLength([y]);
    assert Conforms(Array(items), TArray(TString), StringsParam()) <==> |x| + |y| <= 1;
    assert Strings(x, y).fields[0] == Array(items);
  }
}

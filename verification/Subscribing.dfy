/** What may be subscribed to, and what a wildcard stands for. */
module Subscribing {
  import opened Types
  import opened Navigation
  import opened Paths
  import opened Spelling
  import opened Transactions
  import opened Subscriptions
  import BatchOutcome

  /** The client finds a param there. */
  predicate Readable(root: Value, t: Shape, oid: string, a: Authorizer)
    requires HasType(root, t)
  {
    && Parse(oid).Parsed? && Parse(oid).segments != []
    && At(root, t, RootDescriptor(t), Parse(oid).segments, a).Found?
  }

  lemma LookupFails(root: Value, t: Shape, oid: string, a: Authorizer)
    requires HasType(root, t)
    ensures Lookup(root, t, oid, a).Found? <==> Readable(root, t, oid, a)
    ensures Lookup(root, t, oid, a).Fail? ==>
              var status := Lookup(root, t, oid, a).status;
              && status != AlreadyExists && (status == Internal <==> Parse(oid).IndexTooLarge?)
              && (Parse(oid).BadSyntax? || oid == "" ==> status == InvalidArgument)
  {
    EmptyIsPath();
    hide IsPath, SegmentsOf, HasType, At;
    if Parse(oid).Parsed? && Parse(oid).segments != [] {
      var p := Parse(oid).segments;
      if At(root, t, RootDescriptor(t), p, a).Fail? { var _ := AtFails(root, t, RootDescriptor(t), p, a); }
    }
  }

  /** A single oid is taken exactly if a param can be read there and it is new; a wildcard whenever
      its base can be read, whatever there was, and for everything always. */
  lemma TakenIff(root: Value, t: Shape, subscribed: set<string>, oid: string, a: Authorizer)
    requires HasType(root, t) && !IsWildcard(oid)
    ensures var status := AddStatus(root, t, subscribed, oid, a);
            && (status == Ok <==> Readable(root, t, oid, a) && oid !in subscribed)
            && (status == AlreadyExists <==> oid in subscribed)
            && (status == Internal <==> Parse(oid).IndexTooLarge? && oid !in subscribed)
    ensures var status := AddStatus(root, t, subscribed, oid + "/*", a);
            && (status == Ok <==> Readable(root, t, oid, a) || oid == "")
            && (status == Internal <==> Parse(oid).IndexTooLarge?)
    ensures forall x :: Adds(root, t, subscribed, oid, a, x) <==>
                          x == oid && Readable(root, t, oid, a) && oid !in subscribed
  {
    var wildcard := oid + "/*";
    assert wildcard[|oid|..] == "/*" && wildcard[..|oid|] == oid;
    assert wildcard == "/*" <==> oid == "";
    LookupFails(root, t, oid, a);
    EmptyIsPath();
    hide Lookup, Readable, HasType, Parse;
  }

  // ------------------------------------------------------------ texts and paths

  lemma {:induction false} SegmentsGoOn(s: string, r: string, pos: nat)
    requires pos <= |s| && IsPath(s, pos) && r != "" && r[0] == '/' && IsPath(s + r, pos)
    ensures SegmentsOf(s, pos) < SegmentsOf(s + r, pos)
    decreases |s| - pos
  {
    hide IsToken, SegmentOf, SegmentEnd;
    var x := s + r;
    if pos < |s| {
      var k := SegmentEnd(s, pos + 1);
      assert x[pos + 1..k] == s[pos + 1..k];
      EndsAt(x, pos + 1, k);
      SegmentsGoOn(s, r, k);
    }
  }

  /** Of canonical oids, those strictly below another are the ones that start with it and a solidus. */
  lemma BelowIff(base: string, x: string)
    requires Canonical(base) && Canonical(x)
    ensures Parse(base).segments < Parse(x).segments <==> base + "/" <= x
    ensures Parse(base).segments == Parse(x).segments <==> base == x
  {
    var q, p := Parse(base).segments, Parse(x).segments;
    if q < p { NextIsSlash(q, p); }
    if base + "/" <= x { PathGoesOn(base, x); }
    hide Parse, Print;
  }

  lemma PathGoesOn(base: string, x: string)
    requires Parse(base).Parsed? && Parse(x).Parsed? && base + "/" <= x
    ensures Parse(base).segments < Parse(x).segments
  {
    var r := x[|base|..];
    assert base + r == x && r[0] == '/';
    hide IsPath, SegmentsOf, IndicesFit;
    SegmentsGoOn(base, r, 0);
  }

  lemma AddsWildcard(root: Value, t: Shape, subscribed: set<string>, base: string, a: Authorizer, x: string)
    requires HasType(root, t) && Parse(base).Parsed?
    ensures Adds(root, t, subscribed, base + "/*", a, x) <==>
              if base == "" then Below(root, t, [], a, x)
              else Lookup(root, t, base, a).Found? && Inserts(root, t, base, a, x)
  {
    var oid := base + "/*";
    assert oid[|base|..] == "/*" && oid[..|base|] == base;
    assert oid == "/*" <==> base == "";
    hide Lookup, Parse, HasType, Below, Inserts;
  }

  lemma BelowReadable(root: Value, t: Shape, q: seq<Segment>, a: Authorizer, x: string)
    requires HasType(root, t)
    ensures Readable(root, t, x, a) ==> Parse(x).Parsed? && Parse(x).segments != []
    ensures Below(root, t, q, a, x) <==>
              && Canonical(x) && q < Parse(x).segments && Readable(root, t, x, a)
              && Parse(x).segments[|Parse(x).segments| - 1].Name?
  {
    hide Parse, HasType, At, Print;
  }

  /** Whatever is on the way to a param that can be read can be read. */
  lemma WayReadable(root: Value, t: Shape, base: string, x: string, a: Authorizer)
    requires HasType(root, t) && Readable(root, t, x, a)
    requires Parse(base).Parsed? && [] != Parse(base).segments <= Parse(x).segments
    ensures Readable(root, t, base, a)
  {
    hide Parse, HasType, At;
    WayFound(root, t, Parse(base).segments, Parse(x).segments, a);
  }

  lemma WayFound(root: Value, t: Shape, q: seq<Segment>, p: seq<Segment>, a: Authorizer)
    requires HasType(root, t) && q <= p && At(root, t, RootDescriptor(t), p, a).Found?
    ensures At(root, t, RootDescriptor(t), q, a).Found?
  {
    assert p == q + p[|q|..];
    BatchOutcome.AtPrefix(root, t, RootDescriptor(t), q, p[|q|..], a);
  }

  /** A wildcard stands for the canonical oids at and below its base that a client could subscribe
      to one by one, apart from array elements. */
  lemma StandsFor(root: Value, t: Shape, subscribed: set<string>, base: string, a: Authorizer, x: string)
    requires HasType(root, t) && Canonical(base)
    ensures Adds(root, t, subscribed, base + "/*", a, x) <==>
              && Canonical(x) && (x == base || base + "/" <= x) && Readable(root, t, x, a)
              && Parse(x).segments[|Parse(x).segments| - 1].Name?
  {
    AddsWildcard(root, t, subscribed, base, a, x);
    LookupFails(root, t, base, a);
    BelowReadable(root, t, Parse(base).segments, a, x);
    BaseEmpty(base);
    if Canonical(x) {
      BelowIff(base, x);
      if Readable(root, t, x, a) && [] != Parse(base).segments <= Parse(x).segments {
        WayReadable(root, t, base, x, a);
      }
    }
    hide Parse, HasType, Print, Adds, Lookup, Below, Readable;
  }

  lemma BaseEmpty(base: string)
    requires Canonical(base)
    ensures base == "" <==> Parse(base).segments == []
  {
    EmptyIsPath();
  }
}

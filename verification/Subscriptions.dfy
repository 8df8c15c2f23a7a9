/** Subscriptions: a wildcard is expanded by walking the params below it, and removed by the
    text it starts with. */
module Subscriptions {
  import opened Types
  import opened CodecProperties
  import opened Navigation
  import opened Parts
  import opened Paths
  import opened Spelling
  import opened Transactions
  import BatchProperties
  import BatchOutcome
  import Escaping

  // ------------------------------------------------------------------- what is where

  /** `Device::getParam` on a text. */
  function Lookup(root: Value, t: Shape, text: string, a: Authorizer): (nav: Nav)
    requires HasType(root, t)
    ensures nav.Fail? ==> nav.status != Ok
  {
    match Parse(text)
    case BadSyntax => Fail(InvalidArgument)
    case IndexTooLarge => Fail(Internal)
    case Parsed(p) => GetParam(root, t, p, a)
  }

  /** What is pushed for a segment: the name as escaping leaves it, or the end index. */
  function Token(segment: string): string { if segment == "-" then "-" else Paths.Escaped(segment) }

  /** The text of a path to which a segment was pushed. */
  function Extended(path: string, segment: string): string
    requires Parse(path).Parsed?
  {
    Print(Parse(path).segments) + ("/" + Token(segment))
  }

  /** The names a descriptor has sub-params for; an array shares those of its elements. */
  function SubParams(t: Shape): (names: seq<string>)
    ensures t.TStruct? ==> names == FieldNames(t.fields)
    ensures t.TVariant? ==> names == FieldNames(t.alternatives)
  {
    match t
    case TStruct(fields) => FieldNames(fields)
    case TVariant(alternatives) => FieldNames(alternatives)
    case TArray(element) => SubParams(element)
    case _ => []
  }

  function FieldNames(fields: seq<Field>): seq<string> {
    seq(|fields|, k requires 0 <= k < |fields| => fields[k].name)
  }

  /** The oids of the params that can be read below `q` and are not array elements: the
      canonical texts of the paths that lead to them. */
  ghost predicate Below(root: Value, t: Shape, q: seq<Segment>, a: Authorizer, x: string)
    requires HasType(root, t)
  {
    Canonical(x) &&
    var p := Parse(x).segments;
    q < p && !EndsInIndex(p) && GetParam(root, t, p, a).Found?
  }

  /** What walking from `path` inserts. */
  ghost predicate Inserts(root: Value, t: Shape, path: string, a: Authorizer, x: string)
    requires HasType(root, t) && Parse(path).Parsed?
  {
    (x == path && !EndsInIndex(Parse(path).segments)) || Below(root, t, Parse(path).segments, a, x)
  }

  /** As above, but only through the given steps. */
  ghost predicate Through(root: Value, t: Shape, q: seq<Segment>, a: Authorizer, steps: set<Segment>, x: string)
    requires HasType(root, t)
  {
    Below(root, t, q, a, x) && Parse(x).segments[|q|] in steps
  }

  // ------------------------------------------------------------------- one step

  /** The segment that comes out when the text of a step is parsed, if it is one. */
  ghost function StepOf(segment: string): set<Segment> {
    if IsToken(Token(segment)) then {SegmentOf(Token(segment))} else {}
  }

  /** A segment with something to escape gives a text with a tilde, any other one itself. */
  lemma TokenMarks(segment: string)
    ensures if '~' in segment || '/' in segment then '~' in Token(segment) else Token(segment) == segment
  {
    Escaping.EscapedMarks(segment);
  }

  /** Tokens have nothing to escape. */
  lemma TokenOfToken(segment: string)
    requires IsToken(segment)
    ensures Token(segment) == segment && '~' !in segment && '/' !in segment
  {
    TokenMarks(segment);
  }

  lemma {:induction false} PathHasNoTilde(s: string, pos: nat)
    requires pos <= |s| && IsPath(s, pos)
    ensures '~' !in s[pos..]
    decreases |s| - pos
  {
    if pos < |s| {
      var k := SegmentEnd(s, pos + 1);
      TokenOfToken(s[pos + 1..k]);
      PathHasNoTilde(s, k);
      assert s[pos..] == [s[pos]] + s[pos + 1..k] + s[k..];
    }
  }

  lemma {:induction false} OnlyTokensAppend(s: string, pos: nat, token: string)
    requires pos <= |s| && IsPath(s, pos) && '/' !in token && IsPath(s + ("/" + token), pos)
    ensures IsToken(token)
    decreases |s| - pos
  {
    hide IsToken;
    var whole := s + ("/" + token);
    if pos == |s| {
      EndsAt(whole, pos + 1, |whole|);
      assert whole[pos + 1..|whole|] == token;
    } else {
      var k := SegmentEnd(s, pos + 1);
      EndsAt(whole, pos + 1, k);
      assert whole[pos + 1..k] == s[pos + 1..k];
      OnlyTokensAppend(s, k, token);
    }
  }

  /** What the text of a step parses to. */
  lemma ExtendedParses(path: string, segment: string)
    requires Parse(path).Parsed?
    ensures var q, text := Parse(path).segments, Extended(path, segment);
            && (StepOf(segment) == {} ==> Parse(text) == BadSyntax)
            && forall s <- StepOf(segment) ::
                 && Parse(text) == (if s.Index? && s.i > SIZE_MAX then IndexTooLarge else Parsed(q + [s]))
                 && (s.Name? ==> Canonical(text) && text == Print(q + [s]))
  {
    hide Paths.Escaped, IsToken, SegmentOf, IsPath, SegmentsOf, Print;
    var q, token := Parse(path).segments, Token(segment);
    var base := Print(q);
    PrintParsed(path);
    TokenMarks(segment);
    if IsToken(token) {
      TokenOfToken(token);
      var s := SegmentOf(token);
      ParseAppended(base, 0, token);
      assert forall x <- q :: x in q + [s];
      if s.Name? { NameToken(q, token); }
    } else if IsPath(base + ("/" + token), 0) {
      PathHasNoTilde(base + ("/" + token), 0);
      assert base + ("/" + token) == base + "/" + token;
      OnlyTokensAppend(base, 0, token);
    }
  }

  lemma NameToken(q: seq<Segment>, token: string)
    requires IsToken(token) && SegmentOf(token).Name?
    ensures Print(q + [SegmentOf(token)]) == Print(q) + ("/" + token)
  {
    assert (q + [SegmentOf(token)])[..|q|] == q;
  }

  // ------------------------------------------------------ what a step leads to

  /** A child that is found is one step from its parent, so its type is smaller. */
  lemma ChildOf(root: Value, t: Shape, q: seq<Segment>, s: Segment, a: Authorizer)
    requires HasType(root, t) && WellFormed(t) && t.TStruct? && q != []
    requires GetParam(root, t, q + [s], a).Found?
    ensures var parent, child := GetParam(root, t, q, a), GetParam(root, t, q + [s], a);
            && parent.Found? && HasType(parent.v, parent.t)
            && StepStatus(parent.v, parent.t, parent.pd, s, a) == Ok
            && (parent.t decreases to child.t)
            && a.ReadAuthz(child.pd)
  {
    BatchProperties.AtUnsplit(root, t, RootDescriptor(t), q, s, a);
    AtReadable(root, t, RootDescriptor(t), q + [s], a);
    hide At, WellFormed, HasType, Describes, StepStatus;
    var parent := At(root, t, RootDescriptor(t), q, a);
    StepSmaller(parent.v, parent.t, parent.pd, s, a);
  }

  lemma StepSmaller(v: Value, t: Shape, pd: Descriptor, s: Segment, a: Authorizer)
    requires HasType(v, t) && At(v, t, pd, [s], a).Found?
    ensures StepStatus(v, t, pd, s, a) == Ok && (t decreases to At(v, t, pd, [s], a).t)
  {
    assert [s][1..] == [];
  }

  /** Whatever is below `q` is below the step it takes first. */
  lemma FirstStep(root: Value, t: Shape, q: seq<Segment>, a: Authorizer, x: string)
    requires HasType(root, t) && Below(root, t, q, a, x) && q != []
    ensures var p := Parse(x).segments;
            && |q| < |p| && GetParam(root, t, q + [p[|q|]], a).Found? && IsSegment(p[|q|])
            && (p == q + [p[|q|]] || Below(root, t, q + [p[|q|]], a, x))
  {
    hide At, HasType, Parse, Print;
    var p := Parse(x).segments;
    var s := p[|q|];
    assert p == (q + [s]) + p[|q| + 1..];
    BatchOutcome.AtPrefix(root, t, RootDescriptor(t), q + [s], p[|q| + 1..], a);
    PrintParsed(x);
  }

  lemma BelowStep(root: Value, t: Shape, q: seq<Segment>, s: Segment, a: Authorizer, x: string)
    requires HasType(root, t) && Below(root, t, q + [s], a, x)
    ensures Through(root, t, q, a, {s}, x)
  {
    var p := Parse(x).segments;
    assert p[|q|] == (q + [s])[|q|];
  }

  /** What the walk from a child inserts is what is below its parent through that step. */
  lemma ChildInserts(root: Value, t: Shape, path: string, segment: string, a: Authorizer, x: string)
    requires HasType(root, t) && Parse(path).Parsed? && Parse(path).segments != []
    ensures var text := Extended(path, segment);
            Through(root, t, Parse(path).segments, a, StepOf(segment), x) <==>
              Lookup(root, t, text, a).Found? && Inserts(root, t, text, a, x)
  {
    hide Below, GetParam;
    var q, text := Parse(path).segments, Extended(path, segment);
    ExtendedParses(path, segment);
    hide Extended, StepOf, Parse, Print;
    if Through(root, t, q, a, StepOf(segment), x) {
      FirstStep(root, t, q, a, x);
      ThroughInserts(root, t, path, segment, a, x);
    }
    if Lookup(root, t, text, a).Found? && Inserts(root, t, text, a, x) {
      var s :| s in StepOf(segment);
      InsertsThrough(root, t, path, segment, s, a, x);
    }
  }

  lemma ThroughInserts(root: Value, t: Shape, path: string, segment: string, a: Authorizer, x: string)
    requires HasType(root, t) && Parse(path).Parsed? && Parse(path).segments != []
    requires Through(root, t, Parse(path).segments, a, StepOf(segment), x)
    ensures var text := Extended(path, segment); Lookup(root, t, text, a).Found? && Inserts(root, t, text, a, x)
  {
    var q, p := Parse(path).segments, Parse(x).segments;
    FirstStep(root, t, q, a, x);
    ExtendedParses(path, segment);
    hide Extended, StepOf, GetParam;
    if p == q + [p[|q|]] { assert p[|p| - 1] == p[|q|]; }
  }

  lemma InsertsThrough(root: Value, t: Shape, path: string, segment: string, s: Segment, a: Authorizer, x: string)
    requires HasType(root, t) && Parse(path).Parsed? && Parse(path).segments != [] && s in StepOf(segment)
    requires Lookup(root, t, Extended(path, segment), a).Found? && Inserts(root, t, Extended(path, segment), a, x)
    ensures Through(root, t, Parse(path).segments, a, StepOf(segment), x)
  {
    var q, text := Parse(path).segments, Extended(path, segment);
    ExtendedParses(path, segment);
    hide Extended, GetParam;
    if x == text && !EndsInIndex(q + [s]) {
      assert (q + [s])[|q|] == s;
    } else {
      BelowStep(root, t, q, s, a, x);
    }
  }

  // ------------------------------------------------------------- no step is missed

  /** The steps the walk takes from a param. */
  ghost function Steps(param: Nav): set<Segment>
    requires param.Found?
  {
    (if param.v.Array? then IndexSteps(|param.v.items| % 0x1_0000_0000) else {})
    + NameSteps(SubParams(param.t))
  }

  ghost function IndexSteps(n: nat): set<Segment> {
    if n == 0 then {} else IndexSteps(n - 1) + StepOf(Digits(n - 1))
  }

  predicate Skipped(name: string) { name == "" || name[0] == '/' }

  ghost function NameSteps(names: seq<string>): set<Segment> {
    if names == [] then {}
    else NameSteps(names[..|names| - 1]) + if Skipped(names[|names| - 1]) then {} else StepOf(names[|names| - 1])
  }

  lemma {:induction false} IndexStepsAre(n: nat, i: nat)
    requires i < n
    ensures Index(i) in IndexSteps(n)
  {
    if i < n - 1 {
      IndexStepsAre(n - 1, i);
    } else {
      TokenOfToken(Digits(i));
      NumberOfDigits(i);
    }
  }

  lemma {:induction false} NameStepsAre(names: seq<string>, k: nat)
    requires k < |names| && IsWord(names[k])
    ensures Name(names[k]) in NameSteps(names)
  {
    if k < |names| - 1 {
      NameStepsAre(names[..|names| - 1], k);
    } else {
      TokenOfToken(names[k]);
      assert names[k][0] in names[k];
      assert !IsNumber(names[k]) && names[k] != "-";
    }
  }

  /** Array lengths go through a `uint32_t`; `maxLength` limits them to it. */
  ghost predicate Short(nav: Nav) { nav.Found? && nav.v.Array? ==> |nav.v.items| <= 0xffff_ffff }

  ghost predicate ShortArrays(root: Value, t: Shape)
    requires HasType(root, t)
  {
    AllParts(root, t, RootDescriptor(t), Short)
  }

  lemma ConformingShort(root: Value, t: Shape)
    requires HasType(root, t) && WellFormed(t) && Conforms(root, t, RootDescriptor(t))
    ensures ShortArrays(root, t)
  {
    forall p ensures PartOk(root, t, RootDescriptor(t), p, Short) {
      BatchProperties.RootDescribed(t);
      AtConforms(root, t, RootDescriptor(t), p, AUTHZ_DISABLED);
      AtTyped(root, t, RootDescriptor(t), p, AUTHZ_DISABLED);
    }
  }

  lemma FoundShort(root: Value, t: Shape, q: seq<Segment>, a: Authorizer)
    requires HasType(root, t) && ShortArrays(root, t) && At(root, t, RootDescriptor(t), q, a).Found?
    ensures Short(At(root, t, RootDescriptor(t), q, a))
  {
    AtDisabled(root, t, RootDescriptor(t), q, a);
    assert PartOk(root, t, RootDescriptor(t), q, Short);
  }

  /** Every step that can be taken is taken. */
  lemma EveryStep(root: Value, t: Shape, q: seq<Segment>, a: Authorizer, x: string)
    requires HasType(root, t) && WellFormed(t) && t.TStruct? && ShortArrays(root, t)
    requires q != [] && Below(root, t, q, a, x)
    ensures GetParam(root, t, q, a).Found? && Through(root, t, q, a, Steps(GetParam(root, t, q, a)), x)
  {
    var s := Parse(x).segments[|q|];
    FirstStep(root, t, q, a, x);
    ChildOf(root, t, q, s, a);
    FoundShort(root, t, q, a);
    AtTyped(root, t, RootDescriptor(t), q, a);
    hide Below, GetParam;
    StepTaken(GetParam(root, t, q, a), s, a);
  }

  /** On a conforming device that goes without saying: its arrays are as short as their
      descriptors ask for. */
  lemma EveryConformingStep(root: Value, t: Shape, q: seq<Segment>, a: Authorizer, x: string)
    requires HasType(root, t) && WellFormed(t) && t.TStruct? && Conforms(root, t, RootDescriptor(t))
    requires q != [] && Below(root, t, q, a, x)
    ensures GetParam(root, t, q, a).Found? && Through(root, t, q, a, Steps(GetParam(root, t, q, a)), x)
  {
    hide Conforms, Below, Through, Steps, GetParam;
    ConformingShort(root, t);
    EveryStep(root, t, q, a, x);
  }

  lemma StepTaken(param: Nav, s: Segment, a: Authorizer)
    requires param.Found? && HasType(param.v, param.t) && Describes(param.pd, param.t)
    requires Short(param) && IsSegment(s)
    requires StepStatus(param.v, param.t, param.pd, s, a) == Ok
    ensures s in Steps(param)
  {
    var names := SubParams(param.t);
    hide StepOf, NameSteps, IndexSteps, FieldNames;
    match param.t
    case TArray(_) =>
      assert |param.v.items| % 0x1_0000_0000 == |param.v.items|;
      IndexStepsAre(|param.v.items|, s.i);
    case TStruct(fields) => NameFound(fields, s.s);
    case TVariant(alternatives) => NameAt(alternatives, param.v.index);
  }

  lemma NameFound(fields: seq<Field>, name: string)
    requires FindIndex(fields, name) < |fields| && IsWord(name)
    ensures Name(name) in NameSteps(FieldNames(fields))
  {
    NameAt(fields, FindIndex(fields, name));
  }

  lemma NameAt(fields: seq<Field>, k: nat)
    requires k < |fields| && IsWord(fields[k].name)
    ensures Name(fields[k].name) in NameSteps(FieldNames(fields))
  {
    NameStepsAre(FieldNames(fields), k);
  }

  // --------------------------------------------------------------------- the walk

  class SubscriptionVisitor {
    var oids: set<string>

    constructor (oids: set<string>)
      ensures this.oids == oids
    {
      this.oids := oids;
    }

    method Visit(path: string)
      requires Parse(path).Parsed?
      modifies this
      ensures oids == old(oids) + if EndsInIndex(Parse(path).segments) then {} else {path}
    {
      if !EndsInIndex(Parse(path).segments) { oids := oids + {path}; }
    }

    method VisitArray(path: string)
      requires Parse(path).Parsed?
      modifies this
      ensures oids == old(oids) + if EndsInIndex(Parse(path).segments) then {} else {path}
    {
      if !EndsInIndex(Parse(path).segments) { oids := oids + {path}; }
    }
  }

  /** How far a walk has come: it has inserted what is below through the steps taken. */
  ghost predicate Walked(oids: set<string>, start: set<string>, root: Value, t: Shape, path: string, a: Authorizer,
                         taken: set<Segment>)
    requires HasType(root, t) && Parse(path).Parsed?
  {
    forall x ::
      x in oids <==>
        || x in start || (x == path && !EndsInIndex(Parse(path).segments))
        || Through(root, t, Parse(path).segments, a, taken, x)
  }

  ghost predicate Gained(oids: set<string>, oids': set<string>, root: Value, t: Shape, path: string, a: Authorizer,
                         step: set<Segment>)
    requires HasType(root, t) && Parse(path).Parsed?
  {
    forall x :: x in oids' <==> x in oids || Through(root, t, Parse(path).segments, a, step, x)
  }

  lemma WalkedFurther(oids: set<string>, oids': set<string>, start: set<string>, root: Value, t: Shape, path: string,
                      a: Authorizer, taken: set<Segment>, step: set<Segment>)
    requires HasType(root, t) && Parse(path).Parsed? && Walked(oids, start, root, t, path, a, taken)
    requires Gained(oids, oids', root, t, path, a, step)
    ensures Walked(oids', start, root, t, path, a, taken + step)
  {
    hide Below, Parse;
  }

  lemma WalkedAll(oids: set<string>, start: set<string>, root: Value, t: Shape, path: string, a: Authorizer)
    requires HasType(root, t) && WellFormed(t) && t.TStruct? && ShortArrays(root, t)
    requires Lookup(root, t, path, a).Found? && Walked(oids, start, root, t, path, a, Steps(Lookup(root, t, path, a)))
    ensures forall x :: x in oids <==> x in start || Inserts(root, t, path, a, x)
  {
    var q := Parse(path).segments;
    forall x | Below(root, t, q, a, x) ensures Through(root, t, q, a, Steps(Lookup(root, t, path, a)), x) {
      EveryStep(root, t, q, a, x);
    }
    hide Below, Parse, Steps;
  }

  lemma WalkedStart(start: set<string>, root: Value, t: Shape, path: string, a: Authorizer)
    requires HasType(root, t) && Parse(path).Parsed?
    ensures Walked(start + (if EndsInIndex(Parse(path).segments) then {} else {path}), start, root, t, path, a, {})
  {
    hide Below, Parse;
  }

  lemma FoundTyped(root: Value, t: Shape, path: string, a: Authorizer)
    requires HasType(root, t) && WellFormed(t) && Lookup(root, t, path, a).Found?
    ensures var param := Lookup(root, t, path, a);
            && Parse(path).Parsed? && HasType(param.v, param.t)
            && (param.v.Array? <==> param.t.TArray?)
  {
    AtTyped(root, t, RootDescriptor(t), Parse(path).segments, a);
  }

  lemma NoSteps()
    ensures IndexSteps(0) == {} && NameSteps([]) == {}
  {
  }

  lemma NextIndexStep(i: nat)
    ensures IndexSteps(i + 1) == IndexSteps(i) + StepOf(Digits(i))
  {
  }

  lemma NextNameStep(names: seq<string>, k: nat)
    requires k < |names|
    ensures NameSteps(names[..k + 1]) == NameSteps(names[..k]) + if Skipped(names[k]) then {} else StepOf(names[k])
  {
    assert names[..k + 1][..k] == names[..k];
  }

  /** `traverseParams`. */
  method TraverseParams(param: Nav, path: string, root: Value, t: Shape, visitor: SubscriptionVisitor, a: Authorizer)
    requires HasType(root, t) && WellFormed(t) && t.TStruct? && ShortArrays(root, t)
    requires Lookup(root, t, path, a).Found? && param == Lookup(root, t, path, a)
    modifies visitor
    ensures forall x :: x in visitor.oids <==> x in old(visitor.oids) || Inserts(root, t, path, a, x)
    decreases param.t, 2
  {
    FoundTyped(root, t, path, a);
    hide Lookup, Inserts, Through, Parse, HasType, ShortArrays, WellFormed, StepOf, EndsInIndex, Walked, Gained;
    hide IndexSteps, NameSteps, SubParams;
    NoSteps();
    ghost var start := visitor.oids;
    WalkedStart(start, root, t, path, a);
    visitor.Visit(path);
    ghost var indices: set<Segment> := {};
    if param.t.TArray? {
      indices := IndexSteps(|param.v.items| % 0x1_0000_0000);
      TraverseElements(param, path, root, t, visitor, a, start);
    }
    TraverseSubParams(param, path, root, t, visitor, a, start, indices);
    WalkedAll(visitor.oids, start, root, t, path, a);
  }

  /** The elements of an array; its length goes through a `uint32_t`. */
  method TraverseElements(param: Nav, path: string, root: Value, t: Shape, visitor: SubscriptionVisitor, a: Authorizer,
                          ghost start: set<string>)
    requires HasType(root, t) && WellFormed(t) && t.TStruct? && ShortArrays(root, t)
    requires Lookup(root, t, path, a).Found? && param == Lookup(root, t, path, a) && param.v.Array?
    requires Parse(path).Parsed? && Walked(visitor.oids, start, root, t, path, a, {})
    requires EndsInIndex(Parse(path).segments) || path in visitor.oids
    modifies visitor
    ensures Walked(visitor.oids, start, root, t, path, a, IndexSteps(|param.v.items| % 0x1_0000_0000))
    decreases param.t, 1
  {
    hide Lookup, Inserts, Through, Parse, HasType, ShortArrays, WellFormed, StepOf, EndsInIndex, Walked, Gained;
    hide IndexSteps;
    NoSteps();
    var length := |param.v.items| % 0x1_0000_0000;
    if length > 0 {
      ghost var before := visitor.oids;
      visitor.VisitArray(path);
      assert visitor.oids == before;
      for i := 0 to length
        invariant Walked(visitor.oids, start, root, t, path, a, IndexSteps(i))
      {
        ghost var oids := visitor.oids;
        TraverseChild(param, path, Digits(i), root, t, visitor, a);
        WalkedFurther(oids, visitor.oids, start, root, t, path, a, IndexSteps(i), StepOf(Digits(i)));
        NextIndexStep(i);
      }
    }
  }

  /** The regular children, those of the array's elements included: below the array itself
      they are not found. */
  method TraverseSubParams(param: Nav, path: string, root: Value, t: Shape, visitor: SubscriptionVisitor, a: Authorizer,
                           ghost start: set<string>, ghost indices: set<Segment>)
    requires HasType(root, t) && WellFormed(t) && t.TStruct? && ShortArrays(root, t)
    requires Lookup(root, t, path, a).Found? && param == Lookup(root, t, path, a)
    requires Parse(path).Parsed? && Walked(visitor.oids, start, root, t, path, a, indices)
    modifies visitor
    ensures Walked(visitor.oids, start, root, t, path, a, indices + NameSteps(SubParams(param.t)))
    decreases param.t, 1
  {
    hide Lookup, Inserts, Through, Parse, HasType, ShortArrays, WellFormed, StepOf, Walked, Gained;
    hide NameSteps, SubParams;
    NoSteps();
    var names := SubParams(param.t);
    ghost var taken := indices;
    for k := 0 to |names|
      invariant taken == indices + NameSteps(names[..k])
      invariant Walked(visitor.oids, start, root, t, path, a, taken)
    {
      NextNameStep(names, k);
      if names[k] == "" || names[k][0] == '/' { continue; }
      ghost var oids := visitor.oids;
      TraverseChild(param, path, names[k], root, t, visitor, a);
      WalkedFurther(oids, visitor.oids, start, root, t, path, a, taken, StepOf(names[k]));
      taken := taken + StepOf(names[k]);
    }
    assert names[..|names|] == names;
  }

  method TraverseChild(parent: Nav, path: string, segment: string, root: Value, t: Shape,
                       visitor: SubscriptionVisitor, a: Authorizer)
    requires HasType(root, t) && WellFormed(t) && t.TStruct? && ShortArrays(root, t)
    requires Lookup(root, t, path, a).Found? && parent == Lookup(root, t, path, a)
    modifies visitor
    ensures Gained(old(visitor.oids), visitor.oids, root, t, path, a, StepOf(segment))
    decreases parent.t, 0
  {
    hide Inserts, Through, Lookup, Extended, HasType, ShortArrays, WellFormed, StepOf, Parse, Gained;
    ChildSmaller(root, t, path, segment, a);
    var text := Extended(path, segment);
    var child := Lookup(root, t, text, a);
    if child.Found? && a.ReadAuthz(child.pd) {
      TraverseParams(child, text, root, t, visitor, a);
    }
    ChildGained(old(visitor.oids), visitor.oids, root, t, path, segment, a);
  }

  lemma ChildGained(oids: set<string>, oids': set<string>, root: Value, t: Shape, path: string, segment: string,
                    a: Authorizer)
    requires HasType(root, t) && Parse(path).Parsed? && Parse(path).segments != []
    requires var text := Extended(path, segment);
             if Lookup(root, t, text, a).Found? then
               Parse(text).Parsed? && forall x :: x in oids' <==> x in oids || Inserts(root, t, text, a, x)
             else oids' == oids
    ensures Gained(oids, oids', root, t, path, a, StepOf(segment))
  {
    hide Inserts, Through, Lookup, Extended, HasType, StepOf, Parse;
    forall x ensures x in oids' <==> x in oids || Through(root, t, Parse(path).segments, a, StepOf(segment), x) {
      ChildInserts(root, t, path, segment, a, x);
    }
  }

  lemma ChildSmaller(root: Value, t: Shape, path: string, segment: string, a: Authorizer)
    requires HasType(root, t) && WellFormed(t) && t.TStruct? && Lookup(root, t, path, a).Found?
    ensures Parse(path).Parsed? && Parse(path).segments != []
    ensures var parent, child := Lookup(root, t, path, a), Lookup(root, t, Extended(path, segment), a);
            child.Found? ==>
              && Parse(Extended(path, segment)).Parsed?
              && (parent.t decreases to child.t) && a.ReadAuthz(child.pd)
  {
    var q, text := Parse(path).segments, Extended(path, segment);
    ExtendedParses(path, segment);
    hide Extended, StepOf;
    if Lookup(root, t, text, a).Found? {
      var s :| s in StepOf(segment);
      ChildOf(root, t, q, s, a);
    }
  }

  // ------------------------------------------------------------------ the manager

  predicate IsWildcard(oid: string) { |oid| >= 2 && oid[|oid| - 2..] == "/*" }

  function BaseOf(oid: string): string { if IsWildcard(oid) then oid[..|oid| - 2] else oid }

  /** What adding an oid inserts, and its status. */
  function AddStatus(root: Value, t: Shape, subscribed: set<string>, oid: string, a: Authorizer): Status
    requires HasType(root, t)
  {
    var nav := Lookup(root, t, BaseOf(oid), a);
    if oid == "/*" then Ok
    else if !IsWildcard(oid) && oid in subscribed then AlreadyExists
    else if nav.Fail? then nav.status
    else Ok
  }

  ghost predicate Adds(root: Value, t: Shape, subscribed: set<string>, oid: string, a: Authorizer, x: string)
    requires HasType(root, t)
  {
    && AddStatus(root, t, subscribed, oid, a) == Ok
    && if oid == "/*" then Below(root, t, [], a, x)
       else if IsWildcard(oid) then
         Parse(BaseOf(oid)).Parsed? && Inserts(root, t, BaseOf(oid), a, x)
       else x == oid
  }

  /** The code generator declares a C++ variable by the name of every param. */
  ghost predicate WordNames(t: Shape) { t.TStruct? && forall f <- t.fields :: IsWord(f.name) }

  lemma Bases(oid: string)
    ensures IsWildcard("/*") && (!IsWildcard(oid) ==> BaseOf(oid) == oid)
  {
  }

  /** The four ways it goes. */
  lemma Added(start: set<string>, oids: set<string>, rc: Status, root: Value, t: Shape, oid: string, a: Authorizer)
    requires HasType(root, t)
    requires var nav := Lookup(root, t, BaseOf(oid), a);
             if oid == "/*" then
               rc == Ok && forall x :: x in oids <==> x in start || Below(root, t, [], a, x)
             else if !IsWildcard(oid) && oid in start then rc == AlreadyExists && oids == start
             else if nav.Fail? then rc == nav.status && oids == start
             else if !IsWildcard(oid) then rc == Ok && oids == start + {oid}
             else rc == Ok && Parse(BaseOf(oid)).Parsed?
                  && forall x :: x in oids <==> x in start || Inserts(root, t, BaseOf(oid), a, x)
    ensures rc == AddStatus(root, t, start, oid, a)
    ensures forall x :: x in oids <==> x in start || Adds(root, t, start, oid, a, x)
  {
    hide Lookup, Inserts, Below, Parse, HasType;
    Bases(oid);
  }

  lemma FoundParses(root: Value, t: Shape, path: string, a: Authorizer)
    requires HasType(root, t)
    ensures Lookup(root, t, path, a).Found? ==> Parse(path).Parsed?
  {
  }

  /** Adds an oid to the set of a device. */
  method Extend(subscribed: set<string>, oid: string, root: Value, t: Shape, a: Authorizer)
    returns (rc: Status, oids: set<string>)
    requires HasType(root, t) && WellFormed(t) && ShortArrays(root, t) && t.TStruct?
    requires oid == "/*" ==> WordNames(t)
    ensures rc == AddStatus(root, t, subscribed, oid, a)
    ensures forall x :: x in oids <==> x in subscribed || Adds(root, t, subscribed, oid, a, x)
  {
    hide Lookup, Inserts, Below, ShortArrays, WellFormed, HasType, Parse, IsWildcard, BaseOf, AddStatus, Adds;
    FoundParses(root, t, BaseOf(oid), a);
    Bases(oid);
    rc, oids := Ok, subscribed;
    var wildcard := IsWildcard(oid);
    var base := BaseOf(oid);
    var param := Fail(Internal);
    if !wildcard || oid != "/*" {
      param := Lookup(root, t, base, a);
      if param.Fail? { rc := param.status; }
    }
    if !wildcard {
      if base in oids {
        rc := AlreadyExists;
      } else if param.Found? {
        oids := oids + {base};
      }
    } else if param.Found? {
      var visitor := new SubscriptionVisitor(oids);
      TraverseParams(param, base, root, t, visitor, a);
      oids := visitor.oids;
    } else if oid == "/*" {
      var visitor := new SubscriptionVisitor(oids);
      TraverseTop(root, t, visitor, a);
      oids := visitor.oids;
    }
    Added(subscribed, oids, rc, root, t, oid, a);
  }

  class SubscriptionManager {
    var subscriptions: map<nat, set<string>>

    constructor ()
      ensures subscriptions == map[]
    {
      subscriptions := map[];
    }

    function At(slot: nat): set<string>
      reads this
    {
      if slot in subscriptions then subscriptions[slot] else {}
    }

    /** The slot's set comes into being when it is first asked for. */
    method Touch(slot: nat)
      modifies this
      ensures slot in subscriptions && forall s: nat :: At(s) == old(At(s))
    {
      if slot !in subscriptions { subscriptions := subscriptions[slot := {}]; }
    }

    /** Only the slot of the device changes. */
    method AddSubscription(oid: string, slot: nat, root: Value, t: Shape, a: Authorizer) returns (rc: Status)
      requires HasType(root, t) && WellFormed(t) && ShortArrays(root, t) && t.TStruct?
      requires oid == "/*" ==> WordNames(t)
      modifies this
      ensures rc == AddStatus(root, t, old(At(slot)), oid, a)
      ensures forall x :: x in At(slot) <==> x in old(At(slot)) || Adds(root, t, old(At(slot)), oid, a, x)
      ensures forall s: nat :: s != slot ==> At(s) == old(At(s))
    {
      hide Below, ShortArrays, WellFormed, HasType, AddStatus, Adds;
      Touch(slot);
      var oids;
      rc, oids := Extend(subscriptions[slot], oid, root, t, a);
      subscriptions := subscriptions[slot := oids];
    }

    /** The wildcard takes away every oid whose text starts with its base. */
    method RemoveSubscription(oid: string, slot: nat) returns (rc: Status)
      modifies this
      ensures At(slot) == RemoveFrom(old(At(slot)), oid)
      ensures rc == if RemoveFrom(old(At(slot)), oid) == old(At(slot)) then NotFound else Ok
      ensures forall s: nat :: s != slot ==> At(s) == old(At(s))
    {
      Touch(slot);
      rc := Ok;
      if IsWildcard(oid) {
        var base := oid[..|oid| - 2];
        var found := false;
        var left := subscriptions[slot];
        ghost var before := subscriptions[slot];
        while left != {}
          invariant left <= before && slot in subscriptions
          invariant subscriptions[slot] == set x | x in before && (x in left || !(base <= x))
          invariant found <==> exists x :: x in before && x !in left && base <= x
          invariant forall s: nat :: s != slot ==> At(s) == old(At(s))
          decreases left
        {
          var it :| it in left;
          left := left - {it};
          if base <= it {
            subscriptions := subscriptions[slot := subscriptions[slot] - {it}];
            found := true;
          }
        }
        if !found { rc := NotFound; }
        if found { assert exists x :: x in before && x !in RemoveFrom(before, oid); }
      } else {
        if oid in subscriptions[slot] {
          subscriptions := subscriptions[slot := subscriptions[slot] - {oid}];
        } else {
          rc := NotFound;
        }
      }
    }

    method IsSubscribed(oid: string, slot: nat) returns (b: bool)
      ensures b <==> oid in At(slot)
    {
      b := slot in subscriptions && oid in subscriptions[slot];
    }
  }

  function RemoveFrom(subscribed: set<string>, oid: string): set<string> {
    if IsWildcard(oid) then set x | x in subscribed && !(oid[..|oid| - 2] <= x) else subscribed - {oid}
  }

  /** `getTopLevelParams` and the walk from each of them. */
  method TraverseTop(root: Value, t: Shape, visitor: SubscriptionVisitor, a: Authorizer)
    requires HasType(root, t) && WellFormed(t) && ShortArrays(root, t) && WordNames(t)
    modifies visitor
    ensures forall x :: x in visitor.oids <==> x in old(visitor.oids) || Below(root, t, [], a, x)
  {
    hide Lookup, Inserts, Below, ShortArrays, WellFormed;
    ghost var start := visitor.oids;
    for k := 0 to |t.fields|
      invariant forall x :: x in visitor.oids <==> x in start || FromTop(root, t, a, k, x)
    {
      var name := t.fields[k].name;
      if a.ReadAuthz(t.fields[k].pd) {
        var param := Lookup(root, t, "/" + name, a);
        TopFound(root, t, k, a);
        TraverseParams(param, "/" + name, root, t, visitor, a);
      }
      forall x ensures FromTop(root, t, a, k + 1, x) <==> FromTop(root, t, a, k, x) || FromField(root, t, a, k, x) {}
    }
    forall x ensures FromTop(root, t, a, |t.fields|, x) <==> Below(root, t, [], a, x) { AllFromTop(root, t, a, x); }
  }

  ghost predicate FromField(root: Value, t: Shape, a: Authorizer, k: nat, x: string)
    requires HasType(root, t) && WordNames(t) && k < |t.fields|
  {
    && a.ReadAuthz(t.fields[k].pd) && Parse("/" + t.fields[k].name).Parsed?
    && Inserts(root, t, "/" + t.fields[k].name, a, x)
  }

  ghost predicate FromTop(root: Value, t: Shape, a: Authorizer, n: nat, x: string)
    requires HasType(root, t) && WordNames(t) && n <= |t.fields|
  {
    exists k: nat :: k < n && FromField(root, t, a, k, x)
  }

  lemma TopParses(name: string)
    requires IsWord(name)
    ensures Parse("/" + name) == Parsed([Name(name)]) && Print([Name(name)]) == "/" + name && Canonical("/" + name)
  {
    assert [Name(name)][..0] == [];
    assert "" + ("/" + name) == "/" + name;
    ParsePrinted([Name(name)]);
  }

  lemma TopFound(root: Value, t: Shape, k: nat, a: Authorizer)
    requires HasType(root, t) && WellFormed(t) && WordNames(t) && k < |t.fields|
    ensures Parse("/" + t.fields[k].name).Parsed?
    ensures a.ReadAuthz(t.fields[k].pd) ==> Lookup(root, t, "/" + t.fields[k].name, a).Found?
  {
    TopParses(t.fields[k].name);
    FindIndexOfDistinct(t.fields, k);
    hide Parse, Print, IsWord, WellFormed;
    TopStep(root, t, k, a);
  }

  lemma TopStep(root: Value, t: Shape, k: nat, a: Authorizer)
    requires HasType(root, t) && t.TStruct? && k < |t.fields| && FindIndex(t.fields, t.fields[k].name) == k
    ensures a.ReadAuthz(t.fields[k].pd) ==> GetParam(root, t, [Name(t.fields[k].name)], a).Found?
  {
    var p := [Name(t.fields[k].name)];
    assert p[1..] == [];
    assert Slot(root, t, p[0]) == k;
    if a.ReadAuthz(t.fields[k].pd) {
      assert StepStatus(root, t, RootDescriptor(t), p[0], a) == Ok;
      var pd := ChildDescriptor(root, t, RootDescriptor(t), k);
      assert At(Children(root)[k], ChildShape(root, t, k), pd, p[1..], a).Found?;
    }
  }

  lemma AllFromTop(root: Value, t: Shape, a: Authorizer, x: string)
    requires HasType(root, t) && WellFormed(t) && WordNames(t)
    ensures FromTop(root, t, a, |t.fields|, x) <==> Below(root, t, [], a, x)
  {
    hide FromField, Below, WellFormed, HasType;
    if Below(root, t, [], a, x) { BelowFromTop(root, t, a, x); }
    if FromTop(root, t, a, |t.fields|, x) {
      var k: nat :| k < |t.fields| && FromField(root, t, a, k, x);
      FieldBelow(root, t, a, k, x);
    }
  }

  lemma FieldBelow(root: Value, t: Shape, a: Authorizer, k: nat, x: string)
    requires HasType(root, t) && WellFormed(t) && WordNames(t) && k < |t.fields| && FromField(root, t, a, k, x)
    ensures Below(root, t, [], a, x)
  {
    TopParses(t.fields[k].name);
    TopFound(root, t, k, a);
    hide WellFormed, HasType, IsWord, Parse, Print, GetParam;
    assert !EndsInIndex([Name(t.fields[k].name)]);
  }

  lemma BelowFromTop(root: Value, t: Shape, a: Authorizer, x: string)
    requires HasType(root, t) && WellFormed(t) && WordNames(t) && Below(root, t, [], a, x)
    ensures FromTop(root, t, a, |t.fields|, x)
  {
    var p := Parse(x).segments;
    FirstFound(root, t, p, a);
    var k := FindIndex(t.fields, p[0].s);
    TopParses(t.fields[k].name);
    assert p == [p[0]] + p[1..];
    hide WellFormed, HasType, Print, GetParam;
    assert FromField(root, t, a, k, x);
  }

  lemma FirstFound(root: Value, t: Shape, p: seq<Segment>, a: Authorizer)
    requires HasType(root, t) && t.TStruct? && p != [] && GetParam(root, t, p, a).Found?
    ensures p[0].Name? && FindIndex(t.fields, p[0].s) < |t.fields|
    ensures a.ReadAuthz(t.fields[FindIndex(t.fields, p[0].s)].pd)
  {
  }

  // --------------------------------------------------------- adding and removing

  /** A wildcard takes away what starts with its base, any other oid itself, and nothing else
      goes; so a single subscription that was just added is undone by removing it. */
  lemma Removed(subscribed: set<string>, oid: string)
    requires !IsWildcard(oid)
    ensures forall x :: x in RemoveFrom(subscribed, oid) <==> x in subscribed && x != oid
    ensures forall x :: x in RemoveFrom(subscribed, oid + "/*") <==> x in subscribed && !(oid <= x)
    ensures oid !in subscribed ==> RemoveFrom(subscribed + {oid}, oid) == subscribed
  {
    assert (oid + "/*")[|oid|..] == "/*" && (oid + "/*")[..|oid|] == oid;
  }

  /** Removing the wildcard that was just added takes away all it inserted exactly if its
      base is spelled canonically or there is nothing below it; what does not start with the
      base stays in any case. */
  lemma AddThenRemove(root: Value, t: Shape, before: set<string>, after: set<string>, base: string, a: Authorizer)
    requires HasType(root, t) && base != "" && Parse(base).Parsed? && Lookup(root, t, base, a).Found?
    requires forall x :: x in after <==> x in before || Adds(root, t, before, base + "/*", a, x)
    ensures var left := RemoveFrom(after, base + "/*");
            && (forall x :: x in left ==> !(base <= x))
            && (forall x :: x in before && !(base <= x) ==> x in left)
            && ((forall x :: x in left ==> x in before)
                <==> (Canonical(base) || forall x :: Below(root, t, Parse(base).segments, a, x) ==> x in before))
  {
    var oid := base + "/*";
    var q, left := Parse(base).segments, RemoveFrom(after, oid);
    assert IsWildcard(oid) && oid[..|oid| - 2] == base;
    hide Lookup, HasType, Below, Parse, Canonical;
    forall x | Below(root, t, q, a, x) ensures x in after && (x in left <==> !Canonical(base)) {
      BelowSpelled(root, t, base, a, x);
    }
  }

  lemma BelowSpelled(root: Value, t: Shape, base: string, a: Authorizer, x: string)
    requires HasType(root, t) && Parse(base).Parsed? && Below(root, t, Parse(base).segments, a, x)
    ensures base <= x <==> Canonical(base)
  {
    hide GetParam, HasType;
    PrefixIffCanonical(base, x);
  }
}

/** How oids are spelled: one path has many texts, because indices may have leading zeros,
    and what a comparison of texts sees of the paths. */
module Spelling {
  import opened Types
  import opened Paths
  import opened Transactions
  import BatchProperties

  /** How many solidi a text has from `pos` on. */
  function Slashes(s: string, pos: nat): nat
    requires pos <= |s|
    decreases |s| - pos
  {
    if pos == |s| then 0 else (if s[pos] == '/' then 1 else 0) + Slashes(s, pos + 1)
  }

  lemma {:induction false} SlashesSkip(s: string, pos: nat, k: nat)
    requires pos <= k <= |s| && '/' !in s[pos..k]
    ensures Slashes(s, pos) == Slashes(s, k)
    decreases k - pos
  {
    if pos < k {
      assert s[pos] == s[pos..k][0] && s[pos + 1..k] == s[pos..k][1..];
      SlashesSkip(s, pos + 1, k);
    }
  }

  /** A path has as many segments as solidi, however it is spelled, and its canonical
      spelling is no longer. */
  lemma {:induction false} SegmentsAreSlashes(s: string, pos: nat)
    requires pos <= |s| && IsPath(s, pos)
    ensures |SegmentsOf(s, pos)| == Slashes(s, pos)
    decreases |s| - pos
  {
    if pos < |s| {
      var k := SegmentEnd(s, pos + 1);
      SlashesSkip(s, pos + 1, k);
      SegmentsAreSlashes(s, k);
    }
  }

  lemma {:induction false} SlashesBoth(a: string, b: string, pos: nat)
    requires pos <= |a|
    ensures Slashes(a + b, pos) == Slashes(a, pos) + Slashes(b, 0)
    decreases |a| - pos
  {
    if pos == |a| {
      SlashesShift(a, b, 0);
    } else {
      SlashesBoth(a, b, pos + 1);
    }
  }

  lemma {:induction false} SlashesShift(a: string, b: string, pos: nat)
    requires pos <= |b|
    ensures Slashes(a + b, |a| + pos) == Slashes(b, pos)
    decreases |b| - pos
  {
    if pos < |b| { SlashesShift(a, b, pos + 1); }
  }

  lemma {:induction false} DigitsNotLonger(s: string)
    requires IsNumber(s)
    ensures |Digits(NumberOf(s))| <= |s|
  {
    var n := |s| - 1;
    if n > 0 {
      assert s[n] in s && forall c | c in s[..n] :: IsDigit(c);
      assert s[..n] != "" && IsNumber(s[..n]);
      DigitsNotLonger(s[..n]);
      assert NumberOf(s) / 10 == NumberOf(s[..n]);
    } else {
      assert s[0] in s && s[..0] == "";
    }
  }

  lemma PrintedNotLonger(token: string)
    requires IsToken(token)
    ensures |PrintSegment(SegmentOf(token))| <= |token|
  {
    if IsNumber(token) { DigitsNotLonger(token); }
  }

  function PrintedLength(segments: seq<Segment>): nat {
    if segments == [] then 0 else 1 + |PrintSegment(segments[0])| + PrintedLength(segments[1..])
  }

  lemma {:induction false} PrintLength(segments: seq<Segment>)
    ensures |Print(segments)| == PrintedLength(segments)
  {
    if segments != [] {
      var n := |segments| - 1;
      PrintLength(segments[..n]);
      LengthLast(segments);
    }
  }

  lemma {:induction false} LengthLast(segments: seq<Segment>)
    requires segments != []
    ensures PrintedLength(segments)
         == PrintedLength(segments[..|segments| - 1]) + 1 + |PrintSegment(segments[|segments| - 1])|
  {
    var n := |segments| - 1;
    if n > 0 {
      LengthLast(segments[1..]);
      assert segments[1..][..n - 1] == segments[..n][1..];
    } else {
      assert segments[1..] == [] && segments[..0] == [];
    }
  }

  lemma {:induction false} CanonicalNotLonger(s: string, pos: nat)
    requires pos <= |s| && IsPath(s, pos)
    ensures PrintedLength(SegmentsOf(s, pos)) <= |s| - pos
    decreases |s| - pos
  {
    hide IsToken, SegmentOf, PrintSegment;
    if pos < |s| {
      var k := SegmentEnd(s, pos + 1);
      PrintedNotLonger(s[pos + 1..k]);
      CanonicalNotLonger(s, k);
      assert SegmentsOf(s, pos)[1..] == SegmentsOf(s, k);
    }
  }

  /** A text starts the canonical text of a path strictly below its own exactly if it is
      itself canonical. */
  lemma PrefixIffCanonical(base: string, x: string)
    requires Parse(base).Parsed? && Canonical(x) && Parse(base).segments < Parse(x).segments
    ensures base <= x <==> Canonical(base)
  {
    var q, p := Parse(base).segments, Parse(x).segments;
    PrintPrefix(q, p);
    PrintParsed(base);
    if base <= x {
      CanonicalNotLonger(base, 0);
      PrintLength(q);
      NotLonger(base, x, q, p);
      SameLength(base, Print(q), x);
    }
  }

  lemma SameLength(a: string, b: string, x: string)
    requires a <= x && b <= x && |a| == |b|
    ensures a == b
  {
  }

  /** With more text there would be one solidus more. */
  lemma NotLonger(base: string, x: string, q: seq<Segment>, p: seq<Segment>)
    requires q < p && x == Print(p) && base <= x
    requires Parse(base) == Parsed(q) && Parse(Print(q)) == Parsed(q)
    ensures |base| <= |Print(q)|
  {
    SegmentsAreSlashes(base, 0);
    SegmentsAreSlashes(Print(q), 0);
    NextIsSlash(q, p);
    if |base| > |Print(q)| {
      MoreSlashes(base, Print(q), x);
    }
  }

  lemma MoreSlashes(a: string, b: string, x: string)
    requires a <= x && b <= x && |b| < |a| && x[|b|] == '/'
    ensures Slashes(a, 0) > Slashes(b, 0)
  {
    var rest := a[|b|..];
    assert a == b + rest && rest[0] == x[|b|];
    FirstSlash(rest);
    SlashesBoth(b, rest, 0);
  }

  lemma FirstSlash(s: string)
    requires s != "" && s[0] == '/'
    ensures Slashes(s, 0) > 0
  {
  }

  lemma {:induction false} NextIsSlash(q: seq<Segment>, p: seq<Segment>)
    requires q < p
    ensures Print(q) <= Print(p) && |Print(q)| < |Print(p)| && Print(p)[|Print(q)|] == '/'
    decreases |p|
  {
    hide PrintSegment;
    if |p| == |q| + 1 {
      assert p[..|p| - 1] == q;
    } else {
      NextIsSlash(q, p[..|p| - 1]);
    }
  }

  /** What the overlap test sees of two oids of which one leads below the other, when that
      one is canonical: it finds an overlap exactly if the other is canonical as well. */
  lemma OverlapIffCanonical(x: string, y: string)
    requires Parse(x).Parsed? && Canonical(y) && Parse(x).segments < Parse(y).segments
    requires !BatchProperties.IsAppend(Parse(x).segments)
    ensures Overlap(x, y) <==> Canonical(x)
  {
    PrefixIffCanonical(x, y);
    hide Print;
    BatchProperties.DashIsAppend(x);
    if y <= x {
      SegmentsAreSlashes(x, 0);
      SegmentsAreSlashes(y, 0);
      assert x == y + x[|y|..];
      SlashesBoth(y, x[|y|..], 0);
    }
  }
}

/** JSON-pointer-like oids: the scanner, the printer and the cursor of `Path`. */
module Paths {
  import opened Types
  import Text

  // ---------------------------------------------------------------- characters

  predicate IsDigit(c: char) { '0' <= c <= '9' }

  predicate IsWordStart(c: char) { 'a' <= c <= 'z' || 'A' <= c <= 'Z' || c == '_' }

  predicate IsWordChar(c: char) { IsWordStart(c) || IsDigit(c) }

  /** The three alternatives of the segment grammar, without their solidus. */
  predicate IsWord(s: string) { s != "" && IsWordStart(s[0]) && forall c | c in s :: IsWordChar(c) }

  predicate IsNumber(s: string) { s != "" && forall c | c in s :: IsDigit(c) }

  predicate IsToken(s: string) { IsWord(s) || IsNumber(s) || s == "-" }

  // ------------------------------------------------------------------- numbers

  function Digits(n: nat): (s: string)
    ensures IsNumber(s)
  {
    if n < 10 then [('0' as int + n) as char] else Digits(n / 10) + [('0' as int + n % 10) as char]
  }

  function NumberOf(s: string): nat
    requires forall c | c in s :: IsDigit(c)
  {
    if s == "" then 0
    else
      assert IsDigit(s[|s| - 1]);
      10 * NumberOf(s[..|s| - 1]) + (s[|s| - 1] as int - '0' as int)
  }

  lemma {:induction false} NumberOfDigits(n: nat)
    ensures NumberOf(Digits(n)) == n
  {
    if n >= 10 {
      NumberOfDigits(n / 10);
      assert Digits(n)[..|Digits(n)| - 1] == Digits(n / 10);
    } else {
      assert NumberOf("") == 0;
      assert Digits(n)[..0] == "";
    }
  }

  // ------------------------------------------------------- scanning and printing

  /** Where the segment that starts at `pos` ends: at the next solidus. */
  function SegmentEnd(s: string, pos: nat): (k: nat)
    requires pos <= |s|
    ensures pos <= k <= |s| && (k < |s| ==> s[k] == '/') && '/' !in s[pos..k]
    decreases |s| - pos
  {
    if pos == |s| || s[pos] == '/' then pos else SegmentEnd(s, pos + 1)
  }

  /** The whole text is a sequence of segments, seen from `pos` on. */
  predicate IsPath(s: string, pos: nat)
    requires pos <= |s|
    decreases |s| - pos
  {
    pos == |s| ||
    (s[pos] == '/' && var k := SegmentEnd(s, pos + 1); IsToken(s[pos + 1..k]) && IsPath(s, k))
  }

  /** `stoul`, `-` and plain words. */
  function SegmentOf(token: string): Segment
    requires IsToken(token)
  {
    if IsNumber(token) then Index(NumberOf(token)) else if token == "-" then Index(K_END) else Name(token)
  }

  function SegmentsOf(s: string, pos: nat): seq<Segment>
    requires pos <= |s| && IsPath(s, pos)
    decreases |s| - pos
  {
    if pos == |s| then []
    else
      var k := SegmentEnd(s, pos + 1);
      [SegmentOf(s[pos + 1..k])] + SegmentsOf(s, k)
  }

  /** Indices that `stoul` cannot hold make it throw `std::out_of_range`. */
  predicate IndicesFit(segments: seq<Segment>) {
    forall segment | segment in segments :: segment.Index? ==> segment.i <= SIZE_MAX
  }

  datatype Parsed = Parsed(segments: seq<Segment>) | BadSyntax | IndexTooLarge

  function Parse(s: string): Parsed {
    if !IsPath(s, 0) then BadSyntax
    else if !IndicesFit(SegmentsOf(s, 0)) then IndexTooLarge
    else Parsed(SegmentsOf(s, 0))
  }

  function PrintSegment(segment: Segment): string {
    match segment
    case Index(i) => if i == K_END then "-" else Digits(i)
    case Name(s) => s
  }

  function Print(segments: seq<Segment>): string {
    if segments == [] then "" else Print(segments[..|segments| - 1]) + ("/" + PrintSegment(segments[|segments| - 1]))
  }

  /** Word-shaped names and 64-bit indices: what the parser yields. */
  ghost predicate IsSegment(segment: Segment)
  {
    match segment
    case Index(i) => i <= SIZE_MAX
    case Name(s) => IsWord(s)
  }

  ghost predicate AreSegments(segments: seq<Segment>)
  {
    forall k :: 0 <= k < |segments| ==> IsSegment(segments[k])
  }

  lemma PrintedIsToken(segment: Segment)
    requires IsSegment(segment)
    ensures IsToken(PrintSegment(segment)) && '/' !in PrintSegment(segment)
    ensures SegmentOf(PrintSegment(segment)) == segment
  {
    hide Digits, NumberOf;
    match segment
    case Index(i) =>
      NumberOfDigits(i);
      assert "-"[0] in "-" && !IsNumber("-");
    case Name(s) => assert s[0] in s && !IsDigit(s[0]);
  }

  /** Appending a segment to a text that parses appends it to the result. */
  lemma {:induction false} ParseAppended(s: string, pos: nat, token: string)
    requires pos <= |s| && IsPath(s, pos) && IsToken(token) && '/' !in token
    ensures IsPath(s + ("/" + token), pos)
    ensures SegmentsOf(s + ("/" + token), pos) == SegmentsOf(s, pos) + [SegmentOf(token)]
    decreases |s| - pos
  {
    hide IsToken, SegmentOf;
    var whole := s + ("/" + token);
    if pos == |s| {
      EndsAt(whole, pos + 1, |whole|);
      assert whole[pos + 1..|whole|] == token;
    } else {
      var k := SegmentEnd(s, pos + 1);
      EndsAt(whole, pos + 1, k);
      assert whole[pos + 1..k] == s[pos + 1..k];
      ParseAppended(s, k, token);
    }
  }

  lemma {:induction false} EndsAt(s: string, pos: nat, k: nat)
    requires pos <= k <= |s| && '/' !in s[pos..k] && (k == |s| || s[k] == '/')
    ensures SegmentEnd(s, pos) == k
    decreases k - pos
  {
    if pos < k {
      assert s[pos] == s[pos..k][0];
      assert s[pos + 1..k] == s[pos..k][1..];
      EndsAt(s, pos + 1, k);
    }
  }

  /** Parsing undoes printing. */
  lemma {:induction false} ParsePrinted(segments: seq<Segment>)
    requires AreSegments(segments)
    ensures Parse(Print(segments)) == Parsed(segments)
  {
    PrintedIsPath(segments);
  }

  lemma EmptyIsPath()
    ensures IsPath("", 0) && SegmentsOf("", 0) == []
  {
  }

  lemma {:induction false} PrintedIsPath(segments: seq<Segment>)
    requires AreSegments(segments)
    ensures IsPath(Print(segments), 0) && SegmentsOf(Print(segments), 0) == segments
  {
    hide IsPath, SegmentsOf, SegmentOf, PrintSegment, IsToken, IsSegment;
    if segments == [] {
      EmptyIsPath();
    } else {
      var n := |segments| - 1;
      PrintedIsPath(segments[..n]);
      PrintedIsToken(segments[n]);
      ParseAppended(Print(segments[..n]), 0, PrintSegment(segments[n]));
      assert segments == segments[..n] + [segments[n]];
    }
  }

  lemma {:induction false} ScannedAreSegments(s: string, pos: nat)
    requires pos <= |s| && IsPath(s, pos) && IndicesFit(SegmentsOf(s, pos))
    ensures AreSegments(SegmentsOf(s, pos))
    decreases |s| - pos
  {
    if pos < |s| {
      var k := SegmentEnd(s, pos + 1);
      var all := SegmentsOf(s, pos);
      assert all[1..] == SegmentsOf(s, k);
      assert forall segment | segment in all[1..] :: segment in all;
      ScannedAreSegments(s, k);
      assert all[0] in all;
    }
  }

  /** Printing what was parsed gives a text that parses to the same path, so the
      canonical spelling of an oid is the print of its parse. */
  lemma PrintParsed(s: string)
    requires Parse(s).Parsed?
    ensures AreSegments(Parse(s).segments)
    ensures Parse(Print(Parse(s).segments)) == Parse(s)
  {
    ScannedAreSegments(s, 0);
    ParsePrinted(Parse(s).segments);
  }

  /** Canonical oids are printed paths: no leading zeros, `-` for the end. */
  ghost predicate Canonical(s: string)
  {
    Parse(s).Parsed? && Print(Parse(s).segments) == s
  }

  /** The print of a path starts with the print of every path it extends, so two
      canonical oids of which neither text starts the other address separate
      subtrees. */
  lemma {:induction false} PrintPrefix(p: seq<Segment>, q: seq<Segment>)
    requires p <= q
    ensures Print(p) <= Print(q)
    decreases |q|
  {
    if |p| < |q| {
      PrintPrefix(p, q[..|q| - 1]);
    } else {
      assert p == q;
    }
  }

  // ------------------------------------------------------------------ escaping

  function Escape(s: string): string {
    Text.Replace(Text.Replace(s, "~", "~0", 0), "/", "~1", 0)
  }

  /** The same by the loops of `subs`, which stop at a thousand. */
  function Escaped(s: string): string {
    Text.Substituted(Text.Substituted(s, "~", "~0"), "/", "~1")
  }

  /** `s` with every `c` written as `r`. */
  function Mapped(s: string, c: char, r: string): string {
    if s == "" then "" else (if s[0] == c then r else [s[0]]) + Mapped(s[1..], c, r)
  }

  lemma {:induction false} ReplaceChar(s: string, c: char, r: string, pos: nat)
    requires pos <= |s|
    ensures Text.Replace(s, [c], r, pos) == Mapped(s[pos..], c, r)
    decreases |s| - pos
  {
    if pos < |s| {
      assert s[pos..][1..] == s[pos + 1..];
      assert Text.At(s, [c], pos) <==> s[pos] == c by { assert [c][0] == c; }
      ReplaceChar(s, c, r, pos + 1);
    }
  }

  lemma AtShifted(x: string, y: string, t: string, j: nat)
    ensures Text.At(x + y, t, |x| + j) <==> Text.At(y, t, j)
  {
  }

  lemma ReplaceStep(s: string, t: string, r: string, pos: nat)
    requires t != "" && pos <= |s|
    ensures Text.Replace(s, t, r, pos)
         == if pos + |t| > |s| then s[pos..]
            else if Text.At(s, t, pos) then r + Text.Replace(s, t, r, pos + |t|)
            else [s[pos]] + Text.Replace(s, t, r, pos + 1)
  {
  }

  /** Replacing from inside a text only looks at what follows. */
  lemma {:induction false} ReplaceShifted(x: string, y: string, t: string, r: string, j: nat)
    requires t != "" && j <= |y|
    ensures Text.Replace(x + y, t, r, |x| + j) == Text.Replace(y, t, r, j)
    decreases |y| - j
  {
    hide Text.At, Text.Replace;
    ReplaceStep(x + y, t, r, |x| + j);
    ReplaceStep(y, t, r, j);
    if j + |t| <= |y| {
      AtShifted(x, y, t, j);
      if Text.At(y, t, j) {
        ReplaceShifted(x, y, t, r, j + |t|);
      } else {
        ReplaceShifted(x, y, t, r, j + 1);
      }
    } else {
      assert (x + y)[|x| + j..] == y[j..];
    }
  }

  /** What a two-character pattern does to a text that starts with `c`. */
  lemma ReplacePair(c: char, y: string, c0: char, c1: char, r: string)
    ensures Text.Replace([c] + y, [c0, c1], r, 0) ==
            if c == c0 && y != "" && y[0] == c1 then r + Text.Replace(y[1..], [c0, c1], r, 0)
            else [c] + Text.Replace(y, [c0, c1], r, 0)
  {
    var whole := [c] + y;
    assert Text.At(whole, [c0, c1], 0) <==> c == c0 && y != "" && y[0] == c1 by {
      assert [c0, c1][0] == c0 && [c0, c1][1] == c1;
    }
    ReplaceShifted([c], y, [c0, c1], r, 0);
    if y != "" {
      assert whole == [c, y[0]] + y[1..];
      ReplaceShifted([c, y[0]], y[1..], [c0, c1], r, 0);
    } else {
      assert whole[0..] == [c] && y[0..] == "";
    }
  }

  lemma {:induction false} EscapeMaps(s: string)
    ensures Escape(s) == Mapped(Mapped(s, '~', "~0"), '/', "~1")
  {
    ReplaceChar(s, '~', "~0", 0);
    assert s[0..] == s;
    var tildes := Mapped(s, '~', "~0");
    ReplaceChar(tildes, '/', "~1", 0);
    assert tildes[0..] == tildes;
  }

  function Count(s: string, c: char): nat {
    if s == "" then 0 else (if s[0] == c then 1 else 0) + Count(s[1..], c)
  }

  lemma {:induction false} MatchesChar(s: string, c: char, pos: nat)
    requires pos <= |s|
    ensures Text.Matches(s, [c], pos) == Count(s[pos..], c)
    decreases |s| - pos
  {
    if pos < |s| {
      assert s[pos..][1..] == s[pos + 1..];
      assert Text.At(s, [c], pos) <==> s[pos] == c by { assert [c][0] == c; }
      MatchesChar(s, c, pos + 1);
    }
  }

  lemma {:induction false} CountMapped(s: string)
    ensures Count(Mapped(s, '~', "~0"), '/') == Count(s, '/')
  {
    if s != "" {
      CountMapped(s[1..]);
      var rest := Mapped(s[1..], '~', "~0");
      assert ("~0" + rest)[1..] == "0" + rest && ("0" + rest)[1..] == rest;
      assert ([s[0]] + rest)[1..] == rest;
    }
  }

  /** The limit makes no difference to a name with fewer than a thousand of either. */
  lemma EscapedIsEscape(s: string)
    requires Count(s, '~') < Text.LIMIT && Count(s, '/') < Text.LIMIT
    ensures Escaped(s) == Escape(s)
  {
    var tildes := Text.Replace(s, "~", "~0", 0);
    assert s[0..] == s && tildes[0..] == tildes;
    MatchesChar(s, '~', 0);
    ReplaceChar(s, '~', "~0", 0);
    CountMapped(s);
    MatchesChar(tildes, '/', 0);
  }

  lemma MappedCons(x: char, y: string, c: char, r: string)
    ensures Mapped([x] + y, c, r) == if x == c then r + Mapped(y, c, r) else [x] + Mapped(y, c, r)
  {
    assert ([x] + y)[1..] == y;
  }

  lemma SliceEnds(s: seq<Segment>, i: nat, k: nat)
    requires i <= k < |s|
    ensures s[i..k + 1][..k - i] == s[i..k] && s[i..k + 1][k - i] == s[k]
  {
  }

  lemma SliceAll(s: seq<Segment>, i: nat)
    requires i <= |s|
    ensures s[i..|s|] == s[i..]
  {
  }

  /** How one character of the text comes out of both passes of the escaper. */
  lemma EscapedCons(x: char, y: string)
    ensures Mapped(Mapped([x] + y, '~', "~0"), '/', "~1") ==
            var rest := Mapped(Mapped(y, '~', "~0"), '/', "~1");
            if x == '~' then ['~'] + (['0'] + rest)
            else if x == '/' then ['~'] + (['1'] + rest)
            else [x] + rest
  {
    hide Mapped;
    var tildes := Mapped(y, '~', "~0");
    MappedCons(x, y, '~', "~0");
    if x == '~' {
      assert "~0" + tildes == ['~'] + (['0'] + tildes);
      MappedCons('~', ['0'] + tildes, '/', "~1");
      MappedCons('0', tildes, '/', "~1");
    } else {
      MappedCons(x, tildes, '/', "~1");
      assert "~1" + Mapped(tildes, '/', "~1") == ['~'] + (['1'] + Mapped(tildes, '/', "~1"));
    }
  }

  lemma {:induction false} FirstPass(s: string)
    ensures Text.Replace(Mapped(Mapped(s, '~', "~0"), '/', "~1"), "~0", "~", 0) == Mapped(s, '/', "~1")
  {
    if s == "" {
      MappedEmpty('~', "~0");
      MappedEmpty('/', "~1");
      ReplaceEmpty("~0", "~");
    } else {
      hide *;
      FirstPass(s[1..]);
      assert s == [s[0]] + s[1..];
      EscapedCons(s[0], s[1..]);
      MappedCons(s[0], s[1..], '/', "~1");
      FirstPassChar(s[0], Mapped(Mapped(s[1..], '~', "~0"), '/', "~1"));
    }
  }

  lemma FirstPassChar(x: char, rest: string)
    ensures var y := Text.Replace(rest, "~0", "~", 0);
            && Text.Replace(['~'] + (['0'] + rest), "~0", "~", 0) == ['~'] + y
            && Text.Replace(['~'] + (['1'] + rest), "~0", "~", 0) == "~1" + y
            && (x != '~' ==> Text.Replace([x] + rest, "~0", "~", 0) == [x] + y)
  {
    hide *;
    var y := Text.Replace(rest, "~0", "~", 0);
    ReplacePair('~', ['0'] + rest, '~', '0', "~");
    assert (['0'] + rest)[1..] == rest;
    ReplacePair('~', ['1'] + rest, '~', '0', "~");
    ReplacePair('1', rest, '~', '0', "~");
    assert "~1" + y == ['~'] + (['1'] + y);
    ReplacePair(x, rest, '~', '0', "~");
  }

  lemma MappedEmpty(c: char, r: string)
    ensures Mapped("", c, r) == ""
  {
  }

  lemma ReplaceEmpty(t: string, r: string)
    requires t != ""
    ensures Text.Replace("", t, r, 0) == ""
  {
  }

  predicate HasPair(s: string) { |s| >= 2 && ((s[0] == '~' && s[1] == '1') || HasPair(s[1..])) }

  lemma {:induction false} SecondPass(s: string)
    ensures Text.Replace(Mapped(s, '/', "~1"), "~1", "/", 0) == s <==> !HasPair(s)
  {
    if s == "" {
      MappedEmpty('/', "~1");
      ReplaceEmpty("~1", "/");
    } else {
      hide Text.Replace, Mapped;
      var rest := Mapped(s[1..], '/', "~1");
      SecondPass(s[1..]);
      assert s == [s[0]] + s[1..];
      MappedCons(s[0], s[1..], '/', "~1");
      SameTail(s[0], Text.Replace(rest, "~1", "/", 0), s[1..]);
      if s[0] == '/' {
        assert "~1" + rest == ['~'] + (['1'] + rest);
        ReplacePair('~', ['1'] + rest, '~', '1', "/");
        assert (['1'] + rest)[1..] == rest;
      } else {
        ReplacePair(s[0], rest, '~', '1', "/");
        FirstMapped(s[1..]);
      }
    }
  }

  lemma FirstMapped(s: string)
    ensures var mapped := Mapped(s, '/', "~1");
            mapped != "" && mapped[0] == '1' <==> s != "" && s[0] == '1'
  {
  }

  lemma SameTail(c: char, x: string, y: string)
    ensures [c] + x == [c] + y <==> x == y
  {
    assert ([c] + x)[1..] == x && ([c] + y)[1..] == y;
  }

  // -------------------------------------------------------------------- cursor

  class Path {
    var segments: seq<Segment>
    var frontIdx: nat

    ghost predicate Valid()
      reads this
    {
      frontIdx <= |segments|
    }

    /** What has not been popped yet. */
    function Rest(): seq<Segment>
      requires Valid()
      reads this
    {
      segments[frontIdx..]
    }

    constructor (segments: seq<Segment>)
      ensures Valid() && this.segments == segments && frontIdx == 0
    {
      this.segments, frontIdx := segments, 0;
    }

    /** The constructor from a JSON pointer: validates the whole text, then picks
        the segments one by one. */
    static method FromJptr(jptr: string) returns (path: Path?, outcome: Parsed)
      ensures outcome == Parse(jptr)
      ensures path != null <==> outcome.Parsed?
      ensures path != null ==> fresh(path) && path.Valid() && path.segments == outcome.segments && path.frontIdx == 0
    {
      if !IsPath(jptr, 0) { return null, BadSyntax; }
      var found: seq<Segment> := [];
      var pos := 0;
      while pos < |jptr|
        invariant 0 <= pos <= |jptr| && IsPath(jptr, pos)
        invariant SegmentsOf(jptr, 0) == found + SegmentsOf(jptr, pos)
        invariant IndicesFit(found)
      {
        var k := SegmentEnd(jptr, pos + 1);
        var segment := SegmentOf(jptr[pos + 1..k]);
        if segment.Index? && segment.i > SIZE_MAX {
          assert segment in SegmentsOf(jptr, 0);
          return null, IndexTooLarge;
        }
        found := found + [segment];
        pos := k;
      }
      path := new Path(found);
      outcome := Parsed(found);
    }

    predicate IsEmpty()
      reads this
    {
      frontIdx >= |segments|
    }

    predicate FrontIsIndex()
      reads this
    {
      frontIdx < |segments| && segments[frontIdx].Index?
    }

    predicate FrontIsString()
      reads this
    {
      frontIdx < |segments| && segments[frontIdx].Name?
    }

    function FrontAsIndex(): nat
      reads this
    {
      if FrontIsIndex() then segments[frontIdx].i else K_ERROR
    }

    function FrontAsString(): string
      reads this
    {
      if FrontIsString() then segments[frontIdx].s else ""
    }

    predicate BackIsIndex()
      reads this
    {
      |segments| > 0 && segments[|segments| - 1].Index?
    }

    function BackAsIndex(): nat
      reads this
    {
      if BackIsIndex() then segments[|segments| - 1].i else K_ERROR
    }

    method Pop()
      requires Valid()
      modifies this`frontIdx
      ensures Valid()
      ensures Rest() == if old(Rest()) == [] then [] else old(Rest())[1..]
      ensures frontIdx == old(frontIdx) + (if old(IsEmpty()) then 0 else 1)
    {
      if frontIdx < |segments| { frontIdx := frontIdx + 1; }
    }

    /** Undoes one `Pop` of a non-empty path. */
    method Unpop()
      requires Valid()
      modifies this`frontIdx
      ensures Valid()
      ensures frontIdx == if old(frontIdx) > 0 then old(frontIdx) - 1 else 0
      ensures old(frontIdx) > 0 ==> Rest() == [segments[old(frontIdx) - 1]] + old(Rest())
    {
      if frontIdx > 0 { frontIdx := frontIdx - 1; }
    }

    method Rewind()
      modifies this`frontIdx
      ensures Valid() && frontIdx == 0 && Rest() == segments
    {
      frontIdx := 0;
    }

    method PopBack()
      requires Valid()
      modifies this
      ensures Valid()
      ensures segments == if old(segments) == [] then [] else old(segments)[..|old(segments)| - 1]
      ensures frontIdx == if old(frontIdx) > |segments| then |segments| else old(frontIdx)
    {
      if |segments| > 0 {
        segments := segments[..|segments| - 1];
        if frontIdx > |segments| { frontIdx := |segments|; }
      }
    }

    method PushIndex(i: nat)
      requires Valid()
      modifies this`segments
      ensures Valid() && segments == old(segments) + [Index(i)] && Rest() == old(Rest()) + [Index(i)]
    {
      segments := segments + [Index(i)];
    }

    /** A pushed string is escaped, and `-` becomes the end index. Nothing checks
        that the result could have been parsed. */
    method PushString(segment: string)
      requires Valid()
      modifies this`segments
      ensures Valid()
      ensures segments == old(segments) + [if segment == "-" then Index(K_END) else Name(Escaped(segment))]
    {
      if segment == "-" {
        segments := segments + [Index(K_END)];
      } else {
        var str := Text.Subs(segment, "~", "~0");
        str := Text.Subs(str, "/", "~1");
        segments := segments + [Name(str)];
      }
    }

    method ToString(leadingSlash: bool, startIdx: nat) returns (ans: string)
      requires startIdx <= |segments|
      ensures var whole := Print(segments[startIdx..]);
              ans == if leadingSlash || startIdx == |segments| then whole else whole[1..]
    {
      hide PrintSegment;
      ans := "";
      for k := startIdx to |segments|
        invariant k > startIdx ==> Print(segments[startIdx..k]) != ""
        invariant var whole := Print(segments[startIdx..k]);
                  ans == if leadingSlash || k == startIdx then whole else whole[1..]
      {
        var printed := segments[startIdx..k + 1];
        SliceEnds(segments, startIdx, k);
        ans := ans + (if k == startIdx && !leadingSlash then "" else "/");
        ans := ans + PrintSegment(segments[k]);
      }
      SliceAll(segments, startIdx);
    }

    /** The fully qualified oid does not depend on the cursor. */
    method Fqoid() returns (s: string)
      ensures s == Print(segments)
    {
      s := ToString(true, 0);
      assert segments[0..] == segments;
    }
  }
}

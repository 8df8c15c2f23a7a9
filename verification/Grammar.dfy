/** The grammar of oids as the regular expression reads: which texts parse, and to what. */
module Grammar {
  import opened Types
  import opened Paths
  import Text

  // ---------------------------------------------------------------- characters

  lemma Run(s: string, first: char)
    requires forall k :: 0 <= k < |s| ==> s[k] as int == first as int + k
    ensures forall c: char :: c in s <==> first as int <= c as int < first as int + |s|
  {
    forall c: char | first as int <= c as int < first as int + |s| ensures c in s {
      assert s[c as int - first as int] == c;
    }
  }

  /** The letters, digits and underscores of the grammar. */
  lemma Characters(c: char)
    ensures IsDigit(c) <==> c in "0123456789"
    ensures IsWordStart(c) <==>
              c in "abcdefghijklmnopqrstuvwxyz" || c in "ABCDEFGHIJKLMNOPQRSTUVWXYZ" || c == '_'
    ensures IsWordChar(c) <==> IsWordStart(c) || IsDigit(c)
  {
    Run("0123456789", '0');
    Run("abcdefghijklmnopqrstuvwxyz", 'a');
    Run("ABCDEFGHIJKLMNOPQRSTUVWXYZ", 'A');
  }

  predicate AllIn(s: string, chars: string) { forall c <- s :: c in chars }

  const DIGITS: string := "0123456789"
  const LETTERS: string := "abcdefghijklmnopqrstuvwxyz" + "ABCDEFGHIJKLMNOPQRSTUVWXYZ" + "_"

  /** One segment of an oid: digits, or a word that does not begin with one, or a dash. */
  predicate SegmentText(s: string) {
    || (s != "" && AllIn(s, DIGITS))
    || (s != "" && s[0] in LETTERS && AllIn(s, LETTERS + DIGITS))
    || s == "-"
  }

  /** What it stands for. */
  function Meant(s: string): Segment
    requires SegmentText(s)
  {
    if s == "-" then Index(18446744073709551615)
    else if s[0] in LETTERS then Name(s)
    else Index(Decimal(s))
  }

  function Decimal(s: string): nat {
    if s == "" then 0
    else 10 * Decimal(s[..|s| - 1]) + if s[|s| - 1] in DIGITS then s[|s| - 1] as int - '0' as int else 0
  }

  /** Segments, each with a solidus before it. */
  function Spelled(segments: seq<string>): string {
    if segments == [] then "" else Spelled(segments[..|segments| - 1]) + ("/" + segments[|segments| - 1])
  }

  ghost predicate AllSegments(segments: seq<string>) {
    forall k :: 0 <= k < |segments| ==> SegmentText(segments[k])
  }

  lemma TokenIff(s: string)
    ensures IsToken(s) <==> SegmentText(s)
    ensures IsToken(s) ==> SegmentOf(s) == Meant(s) && '/' !in s
  {
    forall c: char ensures IsDigit(c) <==> c in DIGITS { Characters(c); }
    forall c: char ensures IsWordStart(c) <==> c in LETTERS { Characters(c); }
    forall c: char ensures IsWordChar(c) <==> c in LETTERS + DIGITS { Characters(c); }
    if IsNumber(s) { DecimalIs(s); }
    if s != "" { assert s[0] in s; }
  }

  lemma {:induction false} DecimalIs(s: string)
    requires forall c | c in s :: IsDigit(c)
    ensures Decimal(s) == NumberOf(s)
  {
    if s != "" {
      Characters(s[|s| - 1]);
      assert s[|s| - 1] in s;
      DecimalIs(s[..|s| - 1]);
    }
  }

  lemma {:induction false} SpelledIsPath(segments: seq<string>)
    requires AllSegments(segments)
    ensures IsPath(Spelled(segments), 0) && |SegmentsOf(Spelled(segments), 0)| == |segments|
    ensures forall k :: 0 <= k < |segments| ==> SegmentsOf(Spelled(segments), 0)[k] == Meant(segments[k])
  {
    hide IsToken, SegmentOf, SegmentText, Meant, IsPath, SegmentsOf, SegmentEnd;
    if segments == [] {
      EmptyIsPath();
    } else {
      var before, last := segments[..|segments| - 1], segments[|segments| - 1];
      SpelledIsPath(before);
      TokenIff(last);
      ParseAppended(Spelled(before), 0, last);
    }
  }

  lemma {:induction false} PathIsSpelled(s: string, pos: nat) returns (segments: seq<string>)
    requires pos <= |s| && IsPath(s, pos)
    ensures AllSegments(segments) && s[pos..] == Spelled(segments)
    decreases |s| - pos
  {
    if pos == |s| {
      segments := [];
    } else {
      var k := SegmentEnd(s, pos + 1);
      var token := s[pos + 1..k];
      TokenIff(token);
      hide IsToken, SegmentText, Spelled;
      var rest := PathIsSpelled(s, k);
      segments := [token] + rest;
      SpelledFirst(token, rest);
      Pieces(s, pos, k);
    }
  }

  lemma Pieces(s: string, pos: nat, k: nat)
    requires pos < k <= |s| && s[pos] == '/'
    ensures s[pos..] == "/" + s[pos + 1..k] + s[k..]
  {
    assert s[pos..] == [s[pos]] + s[pos + 1..];
    assert s[pos + 1..] == s[pos + 1..k] + s[k..];
  }

  lemma {:induction false} SpelledFirst(first: string, rest: seq<string>)
    ensures Spelled([first] + rest) == "/" + first + Spelled(rest)
  {
    if rest == [] {
      assert [first] + rest == [first] && [first][..0] == [];
    } else {
      var all := [first] + rest;
      var before, last := rest[..|rest| - 1], rest[|rest| - 1];
      SpelledFirst(first, before);
      assert all[..|all| - 1] == [first] + before && all[|all| - 1] == last;
      var x, y, z := "/" + first, Spelled(before), "/" + last;
      Text.Assoc(x, y, z);
    }
  }

  /** Exactly the texts that are spelled from segments parse, unless an index does not fit 64
      bits, and to what their segments stand for. */
  lemma ParseIff(s: string)
    ensures Parse(s) != BadSyntax <==> exists segments :: AllSegments(segments) && s == Spelled(segments)
    ensures forall segments | AllSegments(segments) && s == Spelled(segments) ::
              var fits := forall k | 0 <= k < |segments| ::
                            Meant(segments[k]).Index? ==> Meant(segments[k]).i <= 18446744073709551615;
              if fits then
                && Parse(s).Parsed? && |Parse(s).segments| == |segments|
                && forall k | 0 <= k < |segments| :: Parse(s).segments[k] == Meant(segments[k])
              else Parse(s) == IndexTooLarge
  {
    hide SegmentText, Meant;
    if IsPath(s, 0) {
      var segments := PathIsSpelled(s, 0);
      assert s[0..] == s;
    }
    forall segments | AllSegments(segments) && s == Spelled(segments)
      ensures IsPath(s, 0) && |SegmentsOf(s, 0)| == |segments|
      ensures forall k | 0 <= k < |segments| :: SegmentsOf(s, 0)[k] == Meant(segments[k])
    {
      SpelledIsPath(segments);
    }
  }
}

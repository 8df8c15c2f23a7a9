/** What escaping and unescaping do to a name when both stop at a thousand replacements. */
module Escaping {
  import opened Paths
  import Text

  /** `unescape_`, by the loops of `subs`. */
  function Unescaped(s: string): string {
    Text.Substituted(Text.Substituted(s, "~0", "~"), "~1", "/")
  }

  // ------------------------------------------------------------------- counting

  /** How often `c` is followed by `d`. */
  function Pairs(s: string, c: char, d: char): nat {
    if |s| < 2 then 0 else (if s[0] == c && s[1] == d then 1 else 0) + Pairs(s[1..], c, d)
  }

  lemma {:induction false} MatchesPairs(s: string, c: char, d: char, pos: nat)
    requires c != d && pos <= |s|
    ensures Text.Matches(s, [c, d], pos) == Pairs(s[pos..], c, d)
    decreases |s| - pos
  {
    if pos + 2 <= |s| {
      assert s[pos..][1..] == s[pos + 1..] && s[pos + 1..][1..] == s[pos + 2..];
      assert Text.At(s, [c, d], pos) <==> s[pos] == c && s[pos + 1] == d by {
        assert [c, d][0] == c && [c, d][1] == d;
      }
      MatchesPairs(s, c, d, pos + 1);
      if s[pos] == c && s[pos + 1] == d { MatchesPairs(s, c, d, pos + 2); }
    }
  }

  lemma {:induction false} CountBoth(x: string, y: string, c: char)
    ensures Count(x + y, c) == Count(x, c) + Count(y, c)
  {
    if x == "" {
      assert x + y == y;
    } else {
      CountBoth(x[1..], y, c);
      assert (x + y)[1..] == x[1..] + y;
    }
  }

  predicate Meet(x: string, y: string, c: char, d: char) {
    x != "" && y != "" && x[|x| - 1] == c && y[0] == d
  }

  lemma {:induction false} PairsBoth(x: string, y: string, c: char, d: char)
    ensures Pairs(x + y, c, d) == Pairs(x, c, d) + Pairs(y, c, d) + if Meet(x, y, c, d) then 1 else 0
  {
    if x == "" {
      assert x + y == y;
    } else {
      PairsBoth(x[1..], y, c, d);
      assert (x + y)[1..] == x[1..] + y;
      if |x| == 1 { assert x[1..] == ""; }
    }
  }

  // ----------------------------------------------------- what `subs` does to counts

  function Fewer(m: nat): nat { if m < Text.LIMIT then m else Text.LIMIT }

  /** The result in two parts: what was replaced, and the rest, which reaches back by one
      match if there are too many. */
  lemma InTwo(s: string, t: string, r: string) returns (n: nat, from: nat, to: nat)
    requires t != ""
    ensures n == Fewer(Text.Matches(s, t, 0)) && from <= to <= |s| && to == Text.AfterMatches(s, t, n)
    ensures Text.Substituted(s, t, r) == Text.FirstReplaced(s, t, r, n) + s[from..]
    ensures if Text.Matches(s, t, 0) < Text.LIMIT then from == to else from + |t| <= to && s[to - |t|..to] == t
  {
    hide Text.Matches, Text.Replace, Text.AfterMatches, Text.FirstReplaced, Text.Find;
    var m := Text.Matches(s, t, 0);
    n := Fewer(m);
    to := Text.AfterMatches(s, t, n);
    if m < Text.LIMIT {
      Text.FirstReplacedIs(s, t, r, n);
      from := to;
      NoneBehind(s, t, r, to);
    } else {
      from := Text.AfterMatches(s, t, n - 1);
      LastMatch(s, t, n);
    }
  }

  lemma NoneBehind(s: string, t: string, r: string, pos: nat)
    requires t != "" && pos <= |s| && Text.Matches(s, t, pos) == 0
    ensures Text.Replace(s, t, r, pos) == s[pos..]
  {
    hide Text.Matches, Text.Replace, Text.Find;
    var k := Text.Find(s, t, pos);
    if k < |s| { Text.NextMatch(s, t, r, pos, k); }
    Text.NoMatch(s, t, r, pos);
  }

  /** The last of `n` matches is where the search from the one before finds it. */
  lemma LastMatch(s: string, t: string, n: nat)
    requires t != "" && 0 < n <= Text.Matches(s, t, 0)
    ensures var from, to := Text.AfterMatches(s, t, n - 1), Text.AfterMatches(s, t, n);
            from + |t| <= to && s[to - |t|..to] == t && Text.Find(s, t, from) == to - |t| < |s|
  {
    hide Text.Matches, Text.Find;
    SomeBehind(s, t, n - 1);
    hide Text.At;
    Slice(s, t, Text.Find(s, t, Text.AfterMatches(s, t, n - 1)));
  }

  lemma SomeBehind(s: string, t: string, n: nat)
    requires t != "" && n < Text.Matches(s, t, 0)
    ensures Text.Find(s, t, Text.AfterMatches(s, t, n)) < |s|
  {
    hide Text.Matches, Text.Find, Text.AfterMatches, Text.FirstReplaced, Text.Replace;
    Text.FirstReplacedIs(s, t, "", n);
    var from := Text.AfterMatches(s, t, n);
    if Text.Find(s, t, from) == |s| { Text.NoMatch(s, t, "", from); }
  }

  lemma Slice(s: string, t: string, k: nat)
    requires Text.At(s, t, k)
    ensures k + |t| <= |s| && s[k..k + |t|] == t
  {
  }

  /** Each replacement takes a match out and puts the new text in. */
  lemma {:induction false} ReplacedCount(s: string, t: string, r: string, n: nat, c: char)
    requires t != "" && n <= Text.Matches(s, t, 0)
    ensures Count(Text.FirstReplaced(s, t, r, n), c) + n * Count(t, c)
         == Count(s[..Text.AfterMatches(s, t, n)], c) + n * Count(r, c)
    ensures |Text.FirstReplaced(s, t, r, n)| + n * |t| == Text.AfterMatches(s, t, n) + n * |r|
  {
    assert Count("", c) == 0;
    hide Text.Matches, Text.Find, Text.AfterMatches, Text.FirstReplaced, Count;
    if n == 0 {
      NothingReplaced(s, t, r);
    } else {
      ReplacedCount(s, t, r, n - 1, c);
      var from, to := NextReplaced(s, t, r, n);
      PieceReplaced(Text.FirstReplaced(s, t, r, n - 1), s[..from], s[from..to - |t|], t, r, n, c);
    }
  }

  lemma PieceReplaced(after: string, before: string, piece: string, t: string, r: string, n: nat, c: char)
    requires n > 0
    requires Count(after, c) + (n - 1) * Count(t, c) == Count(before, c) + (n - 1) * Count(r, c)
    requires |after| + (n - 1) * |t| == |before| + (n - 1) * |r|
    ensures Count(after + (piece + r), c) + n * Count(t, c) == Count(before + (piece + t), c) + n * Count(r, c)
    ensures |after + (piece + r)| + n * |t| == |before + (piece + t)| + n * |r|
  {
    hide Count;
    CountPiece(after, piece, r, c);
    CountPiece(before, piece, t, c);
    OneMore(n, Count(t, c), Count(r, c), Count(after, c), Count(before, c), Count(piece, c));
    OneMore(n, |t|, |r|, |after|, |before|, |piece|);
  }

  lemma NothingReplaced(s: string, t: string, r: string)
    requires t != ""
    ensures Text.FirstReplaced(s, t, r, 0) == "" && Text.AfterMatches(s, t, 0) == 0 && s[..0] == ""
  {
  }

  lemma CountPiece(before: string, piece: string, last: string, c: char)
    ensures Count(before + (piece + last), c) == Count(before, c) + Count(piece, c) + Count(last, c)
  {
    CountBoth(before, piece + last, c);
    CountBoth(piece, last, c);
  }

  lemma OneMore(n: nat, k: nat, l: nat, x: nat, y: nat, piece: nat)
    requires n > 0 && x + (n - 1) * k == y + (n - 1) * l
    ensures x + piece + l + n * k == y + piece + k + n * l
  {
    assert n * k == (n - 1) * k + k && n * l == (n - 1) * l + l;
  }

  lemma NextReplaced(s: string, t: string, r: string, n: nat) returns (from: nat, to: nat)
    requires t != "" && 0 < n <= Text.Matches(s, t, 0)
    ensures from == Text.AfterMatches(s, t, n - 1) && to == Text.AfterMatches(s, t, n) && from + |t| <= to <= |s|
    ensures Text.FirstReplaced(s, t, r, n) == Text.FirstReplaced(s, t, r, n - 1) + (s[from..to - |t|] + r)
    ensures s[..to] == s[..from] + (s[from..to - |t|] + t)
  {
    hide Text.Matches, Text.Find, Text.AfterMatches, Text.FirstReplaced;
    LastMatch(s, t, n);
    from, to := Text.AfterMatches(s, t, n - 1), Text.AfterMatches(s, t, n);
    ReplacedStep(s, t, r, n);
    Cut(s, from, to - |t|, to);
  }

  lemma ReplacedStep(s: string, t: string, r: string, n: nat)
    requires t != "" && n > 0
    ensures var from := Text.AfterMatches(s, t, n - 1);
            var k := Text.Find(s, t, from);
            Text.FirstReplaced(s, t, r, n) == Text.FirstReplaced(s, t, r, n - 1) + (s[from..k] + r)
  {
    hide Text.AfterMatches, Text.Find;
  }

  lemma Cut(s: string, i: nat, j: nat, k: nat)
    requires i <= j <= k <= |s|
    ensures s[..k] == s[..i] + (s[i..j] + s[j..k])
  {
  }

  // ------------------------------------------------------------ counts of results

  /** There are at least as many `c` as in the text, counting what comes and goes; more if
      there are too many matches. */
  lemma SubstitutedCount(s: string, t: string, r: string, c: char)
    requires t != ""
    ensures var m, out := Text.Matches(s, t, 0), Text.Substituted(s, t, r);
            && Count(out, c) + Fewer(m) * Count(t, c)
               >= Count(s, c) + Fewer(m) * Count(r, c) + (if m < Text.LIMIT then 0 else Count(t, c))
            && |out| + Fewer(m) * |t| >= |s| + Fewer(m) * |r| + (if m < Text.LIMIT then 0 else |t|)
  {
    hide Text.Matches, Text.AfterMatches, Text.FirstReplaced, Text.Substituted, Count;
    var n, from, to := InTwo(s, t, r);
    ReplacedCount(s, t, r, n, c);
    CountBoth(Text.FirstReplaced(s, t, r, n), s[from..], c);
    CountBoth(s[..to], s[to..], c);
    assert s[..to] + s[to..] == s;
    CountBoth(s[from..to], s[to..], c);
    assert s[from..to] + s[to..] == s[from..];
    if Text.Matches(s, t, 0) >= Text.LIMIT {
      CountBoth(s[from..to - |t|], t, c);
      assert s[from..to - |t|] + s[to - |t|..to] == s[from..to];
    }
  }

  /** Every escaped slash is a pair. */
  lemma {:induction false} SlashPairs(y: string, n: nat)
    requires n <= Text.Matches(y, "/", 0)
    ensures Pairs(Text.FirstReplaced(y, "/", "~1", n), '~', '1') >= n
  {
    hide Text.FirstReplaced, Text.AfterMatches, Text.Matches;
    if n > 0 {
      SlashPairs(y, n - 1);
      var from, to := NextReplaced(y, "/", "~1", n);
      SlashPiece(Text.FirstReplaced(y, "/", "~1", n - 1), y[from..to - 1]);
    }
  }

  lemma SlashPiece(before: string, piece: string)
    ensures Pairs(before + (piece + "~1"), '~', '1') >= Pairs(before, '~', '1') + 1
  {
    assert Pairs("~1", '~', '1') == 1;
    hide Pairs;
    PairsBoth(before, piece + "~1", '~', '1');
    PairsBoth(piece, "~1", '~', '1');
  }

  lemma SubstitutedSlashPairs(y: string)
    ensures Pairs(Text.Substituted(y, "/", "~1"), '~', '1') >= Fewer(Text.Matches(y, "/", 0))
  {
    hide Text.Matches, Text.AfterMatches, Text.FirstReplaced, Text.Substituted, Pairs;
    var n, from, to := InTwo(y, "/", "~1");
    SlashPairs(y, n);
    PairsBoth(Text.FirstReplaced(y, "/", "~1", n), y[from..], '~', '1');
  }

  /** Restoring tildes takes no pair away. */
  lemma {:induction false} TildePairs(y: string, n: nat)
    requires n <= Text.Matches(y, "~0", 0)
    ensures Pairs(Text.FirstReplaced(y, "~0", "~", n), '~', '1') >= Pairs(y[..Text.AfterMatches(y, "~0", n)], '~', '1')
    ensures var to := Text.AfterMatches(y, "~0", n); to > 0 ==> y[to - 1] == '0'
  {
    hide Text.FirstReplaced, Text.AfterMatches, Text.Matches, Text.Find, Pairs;
    if n == 0 {
      NothingReplaced(y, "~0", "~");
    } else {
      TildePairs(y, n - 1);
      var from, to := NextReplaced(y, "~0", "~", n);
      LastMatch(y, "~0", n);
      assert y[to - 1] == y[to - 2..to][1];
      TildePiece(Text.FirstReplaced(y, "~0", "~", n - 1), y[..from], y[from..to - 2]);
    }
  }

  lemma TildePiece(before: string, s: string, piece: string)
    requires Pairs(before, '~', '1') >= Pairs(s, '~', '1') && (s != "" ==> s[|s| - 1] == '0')
    ensures Pairs(before + (piece + "~"), '~', '1') >= Pairs(s + (piece + "~0"), '~', '1')
  {
    PairsBoth(before, piece + "~", '~', '1');
    PairsBoth(piece, "~", '~', '1');
    PairsBoth(s, piece + "~0", '~', '1');
    PairsBoth(piece, "~0", '~', '1');
    assert Pairs("~", '~', '1') == 0 && Pairs("~0", '~', '1') == 0;
  }

  lemma SubstitutedTildePairs(y: string)
    ensures Pairs(Text.Substituted(y, "~0", "~"), '~', '1') >= Pairs(y, '~', '1')
  {
    hide Text.Matches, Text.AfterMatches, Text.FirstReplaced, Text.Substituted, Pairs;
    var n, from, to := InTwo(y, "~0", "~");
    TildePairs(y, n);
    PairsBoth(Text.FirstReplaced(y, "~0", "~", n), y[from..], '~', '1');
    assert y[from..to] + y[to..] == y[from..];
    PairsBoth(y[from..to], y[to..], '~', '1');
    assert y[..to] + y[to..] == y;
    PairsBoth(y[..to], y[to..], '~', '1');
    assert to > 0 ==> y[..to][to - 1] == '0';
  }

  // ---------------------------------------------------------------- the round trip

  /** A text that survives the round trip has fewer than a thousand of either character:
      beyond that there is a slash too many, or the text gets longer. */
  lemma SurvivorHasFew(s: string)
    requires Unescaped(Escaped(s)) == s
    ensures Count(s, '~') < Text.LIMIT && Count(s, '/') < Text.LIMIT
    ensures Text.Matches(Text.Substituted(Escaped(s), "~0", "~"), "~1", 0) < Text.LIMIT
  {
    hide Text.Matches, Text.Substituted;
    var y := Text.Substituted(s, "~", "~0");
    var z := Text.Substituted(y, "/", "~1");
    var x := Text.Substituted(z, "~0", "~");
    var slashes, pairs := Text.Matches(y, "/", 0), Text.Matches(x, "~1", 0);
    Letters();
    SubstitutedCount(s, "~", "~0", '/');
    SubstitutedCount(y, "/", "~1", '/');
    SubstitutedCount(z, "~0", "~", '/');
    SubstitutedCount(x, "~1", "/", '/');
    MatchesChar(s, '~', 0);
    MatchesChar(y, '/', 0);
    MatchesPairs(z, '~', '1', 0);
    MatchesPairs(x, '~', '1', 0);
    assert s[0..] == s && y[0..] == y && z[0..] == z && x[0..] == x;
    SubstitutedSlashPairs(y);
    SubstitutedTildePairs(z);
    hide Count, Pairs;
    assert Count(s, '/') >= Count(y, '/') + (if slashes < Text.LIMIT then 0 else 1);
  }

  lemma {:induction false} CountIn(s: string, c: char)
    ensures Count(s, c) > 0 <==> c in s
  {
    if s != "" {
      CountIn(s[1..], c);
      assert s == [s[0]] + s[1..];
    }
  }

  /** Escaping leaves a text without either character alone, and any other one with a tilde
      in it. */
  lemma EscapedMarks(s: string)
    ensures if '~' in s || '/' in s then '~' in Escaped(s) else Escaped(s) == s
  {
    hide Text.Matches, Text.Substituted, Text.Replace, Escape, Mapped;
    var y := Text.Substituted(s, "~", "~0");
    Letters();
    CountIn(s, '~');
    CountIn(s, '/');
    CountIn(Escaped(s), '~');
    if '~' in s || '/' in s {
      SubstitutedCount(s, "~", "~0", '~');
      SubstitutedCount(s, "~", "~0", '/');
      SubstitutedCount(y, "/", "~1", '~');
      MatchesChar(y, '/', 0);
      assert y[0..] == y;
      hide Count;
    } else {
      EscapedIsEscape(s);
      EscapeMaps(s);
      MappedSame(s, '~', "~0");
      MappedSame(s, '/', "~1");
    }
  }

  lemma {:induction false} MappedSame(s: string, c: char, r: string)
    requires c !in s
    ensures Mapped(s, c, r) == s
  {
    if s != "" { MappedSame(s[1..], c, r); }
  }

  lemma {:induction false} PairsMapped(s: string)
    ensures Pairs(Mapped(s, '/', "~1"), '~', '1') == Count(s, '/') + Pairs(s, '~', '1')
  {
    if s != "" {
      var rest := Mapped(s[1..], '/', "~1");
      PairsMapped(s[1..]);
      assert s == [s[0]] + s[1..];
      MappedCons(s[0], s[1..], '/', "~1");
      FirstMapped(s[1..]);
      hide Mapped;
      if s[0] == '/' {
        assert Pairs("~1", '~', '1') == 1;
        PairsBoth("~1", rest, '~', '1');
      } else {
        PairsBoth([s[0]], rest, '~', '1');
      }
      PairsBoth([s[0]], s[1..], '~', '1');
    }
  }

  /** An escaped text has one `~0` for each of its tildes. */
  lemma {:induction false} EscapedTildes(s: string)
    ensures Pairs(Mapped(Mapped(s, '~', "~0"), '/', "~1"), '~', '0') == Count(s, '~')
  {
    if s == "" {
      MappedEmpty('~', "~0");
      MappedEmpty('/', "~1");
    } else {
      hide Mapped, Pairs;
      EscapedTildes(s[1..]);
      assert s == [s[0]] + s[1..];
      EscapedCons(s[0], s[1..]);
      OneCharacter(s[0], Mapped(Mapped(s[1..], '~', "~0"), '/', "~1"));
    }
  }

  lemma OneCharacter(x: char, rest: string)
    ensures Pairs(['~'] + (['0'] + rest), '~', '0') == 1 + Pairs(rest, '~', '0')
    ensures Pairs(['~'] + (['1'] + rest), '~', '0') == Pairs(rest, '~', '0')
    ensures x != '~' ==> Pairs([x] + rest, '~', '0') == Pairs(rest, '~', '0')
  {
    PairsCons('~', ['0'] + rest, '~', '0');
    PairsCons('0', rest, '~', '0');
    PairsCons('~', ['1'] + rest, '~', '0');
    PairsCons('1', rest, '~', '0');
    PairsCons(x, rest, '~', '0');
  }

  lemma PairsCons(x: char, rest: string, c: char, d: char)
    ensures Pairs([x] + rest, c, d) == Pairs(rest, c, d) + if rest != "" && x == c && rest[0] == d then 1 else 0
  {
    assert ([x] + rest)[1..] == rest;
  }

  lemma {:induction false} HasPairIsPairs(s: string)
    ensures HasPair(s) <==> Pairs(s, '~', '1') > 0
  {
    if |s| >= 2 { HasPairIsPairs(s[1..]); }
  }

  /** Below the limits the loops do what unlimited replacement does. */
  lemma FewRoundTrip(s: string)
    requires Count(s, '~') < Text.LIMIT && Count(s, '/') < Text.LIMIT
    ensures Text.Substituted(Escaped(s), "~0", "~") == Mapped(s, '/', "~1")
    ensures Text.Matches(Mapped(s, '/', "~1"), "~1", 0) == Count(s, '/') + Pairs(s, '~', '1')
  {
    EscapedIsEscape(s);
    EscapeMaps(s);
    FirstPass(s);
    EscapedTildes(s);
    PairsMapped(s);
    var z, x := Escape(s), Mapped(s, '/', "~1");
    assert z[0..] == z && x[0..] == x;
    hide Text.Matches, Text.Replace, Escape, Escaped, Mapped, Pairs, Count;
    MatchesPairs(z, '~', '0', 0);
    MatchesPairs(x, '~', '1', 0);
  }

  /** `unescape_` undoes `escape_` exactly for the texts without `~1` that have fewer than a
      thousand of either character. */
  lemma UnescapedEscapedIff(s: string)
    ensures Unescaped(Escaped(s)) == s <==>
              !HasPair(s) && Count(s, '~') < Text.LIMIT && Count(s, '/') < Text.LIMIT
  {
    HasPairIsPairs(s);
    if Unescaped(Escaped(s)) == s { SurvivorHasFew(s); }
    if Count(s, '~') < Text.LIMIT && Count(s, '/') < Text.LIMIT {
      FewRoundTrip(s);
      SecondPass(s);
      hide Text.Matches, Text.Replace, Escaped, Mapped, Pairs, Count;
    }
  }

  function Tildes(n: nat): string { if n == 0 then "" else "~" + Tildes(n - 1) }

  lemma {:induction false} TildesAre(n: nat)
    ensures Count(Tildes(n), '~') == n && Count(Tildes(n), '/') == 0 && !HasPair(Tildes(n))
    ensures n > 0 ==> Tildes(n)[0] == '~'
  {
    if n > 0 {
      TildesAre(n - 1);
      assert Tildes(n)[1..] == Tildes(n - 1);
    }
  }

  /** A thousand tildes do not come back, one fewer do. */
  lemma ThousandTildes()
    ensures !HasPair(Tildes(1000)) && Unescaped(Escaped(Tildes(1000))) != Tildes(1000)
    ensures Unescaped(Escaped(Tildes(999))) == Tildes(999)
  {
    TildesAre(1000);
    TildesAre(999);
    UnescapedEscapedIff(Tildes(1000));
    UnescapedEscapedIff(Tildes(999));
  }

  lemma Letters()
    ensures Count("~", '/') == 0 && Count("~0", '/') == 0 && Count("~1", '/') == 0 && Count("/", '/') == 1
    ensures Count("~", '~') == 1 && Count("~0", '~') == 1 && Count("~1", '~') == 1 && Count("/", '~') == 0
  {
    assert "~0"[1..] == "0" && "~1"[1..] == "1";
  }
}

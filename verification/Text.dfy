/** The string loops of `utils.cpp`: `subs` and `split`, each cut off after a
    thousand matches. */
module Text {
  const LIMIT: nat := 1000

  predicate At(s: string, t: string, k: nat) {
    k + |t| <= |s| && forall j :: 0 <= j < |t| ==> s[k + j] == t[j]
  }

  /** `std::string::find` for a non-empty pattern: the first match at or after
      `pos`, or the length of the text where the source has `npos`. */
  function Find(s: string, t: string, pos: nat): (k: nat)
    requires t != [] && pos <= |s|
    ensures pos <= k <= |s|
    ensures k < |s| ==> At(s, t, k) && k + |t| <= |s|
    decreases |s| - pos
  {
    if pos + |t| > |s| then |s|
    else if At(s, t, pos) then pos
    else Find(s, t, pos + 1)
  }

  /** Left-to-right replacement of non-overlapping matches from `pos` on. */
  function Replace(s: string, t: string, r: string, pos: nat): string
    requires t != [] && pos <= |s|
    decreases |s| - pos
  {
    if pos + |t| > |s| then s[pos..]
    else if At(s, t, pos) then r + Replace(s, t, r, pos + |t|)
    else [s[pos]] + Replace(s, t, r, pos + 1)
  }

  /** How many replacements that makes. */
  function Matches(s: string, t: string, pos: nat): nat
    requires t != [] && pos <= |s|
    decreases |s| - pos
  {
    if pos + |t| > |s| then 0
    else if At(s, t, pos) then 1 + Matches(s, t, pos + |t|)
    else Matches(s, t, pos + 1)
  }

  /** The pieces, each followed by the glue. */
  function Glued(pieces: seq<string>, glue: string): string {
    if pieces == [] then ""
    else Glued(pieces[..|pieces| - 1], glue) + (pieces[|pieces| - 1] + glue)
  }

  function Join(pieces: seq<string>, glue: string): string
    requires pieces != []
  {
    Glued(pieces[..|pieces| - 1], glue) + pieces[|pieces| - 1]
  }

  lemma Assoc(x: string, y: string, z: string)
    ensures x + (y + z) == (x + y) + z
  {
  }

  /** Without a further match nothing is replaced... */
  lemma {:induction false} NoMatch(s: string, t: string, r: string, pos: nat)
    requires t != [] && pos <= |s| && Find(s, t, pos) == |s|
    ensures Replace(s, t, r, pos) == s[pos..] && Matches(s, t, pos) == 0
    decreases |s| - pos
  {
    if pos + |t| <= |s| {
      NoMatch(s, t, r, pos + 1);
      assert [s[pos]] + s[pos + 1..] == s[pos..];
    }
  }

  /** ... and otherwise nothing before that match, and then the match. */
  lemma {:induction false} NextMatch(s: string, t: string, r: string, pos: nat, k: nat)
    requires t != [] && pos <= |s| && Find(s, t, pos) == k < |s|
    ensures Replace(s, t, r, pos) == s[pos..k] + (r + Replace(s, t, r, k + |t|))
    ensures Matches(s, t, pos) == 1 + Matches(s, t, k + |t|)
    decreases |s| - pos
  {
    if At(s, t, pos) {
      assert s[pos..pos] == "";
    } else {
      NextMatch(s, t, r, pos + 1, k);
      Assoc([s[pos]], s[pos + 1..k], r + Replace(s, t, r, k + |t|));
      assert [s[pos]] + s[pos + 1..k] == s[pos..k];
    }
  }

  /** Where the search goes on after the first `n` matches. */
  function AfterMatches(s: string, t: string, n: nat): (pos: nat)
    requires t != []
    ensures pos <= |s|
  {
    if n == 0 then 0
    else
      var k := Find(s, t, AfterMatches(s, t, n - 1));
      if k == |s| then k else k + |t|
  }

  /** The text up to there with those matches replaced. */
  function FirstReplaced(s: string, t: string, r: string, n: nat): string
    requires t != []
  {
    if n == 0 then ""
    else
      var prev := AfterMatches(s, t, n - 1);
      FirstReplaced(s, t, r, n - 1) + (s[prev..Find(s, t, prev)] + r)
  }

  lemma {:induction false} FirstReplacedIs(s: string, t: string, r: string, n: nat)
    requires t != [] && n <= Matches(s, t, 0)
    ensures Matches(s, t, 0) == n + Matches(s, t, AfterMatches(s, t, n))
    ensures Replace(s, t, r, 0) == FirstReplaced(s, t, r, n) + Replace(s, t, r, AfterMatches(s, t, n))
  {
    hide Find, Matches, Replace;
    if n > 0 {
      FirstReplacedIs(s, t, r, n - 1);
      var prev := AfterMatches(s, t, n - 1);
      var k := Find(s, t, prev);
      if k == |s| { NoMatch(s, t, r, prev); }
      NextMatch(s, t, r, prev, k);
      var before, rest := FirstReplaced(s, t, r, n - 1), Replace(s, t, r, k + |t|);
      Assoc(s[prev..k], r, rest);
      Assoc(before, s[prev..k] + r, rest);
    }
  }

  /** What `subs` makes of a text: the replacement, unless there are a thousand matches. Then
      those are replaced, and all that follows the one before the last is there once more. */
  function Substituted(s: string, t: string, r: string): string {
    if t == "" then s
    else if Matches(s, t, 0) < LIMIT then Replace(s, t, r, 0)
    else FirstReplaced(s, t, r, LIMIT) + s[AfterMatches(s, t, LIMIT - 1)..]
  }

  method Subs(str: string, pattern: string, rep: string) returns (out: string)
    ensures out == Substituted(str, pattern, rep)
  {
    if pattern == "" { return str; }
    hide *;
    var oss := "";
    var prev, pos, timeout := 0, 0, 0;
    var searching := true;
    SearchStarts(str, pattern, rep);
    while searching && timeout < LIMIT
      invariant 0 <= prev <= pos <= |str| && timeout <= LIMIT
      invariant searching ==> InSearch(str, pattern, rep, timeout, prev, pos, oss)
      invariant !searching ==> oss + str[prev..] == Substituted(str, pattern, rep)
      decreases searching, LIMIT - timeout
    {
      SearchGoesOn(str, pattern, rep, timeout, prev, pos, oss);
      timeout := timeout + 1;
      prev := pos;
      var k := Find(str, pattern, pos);
      if k == |str| {
        searching := false;
      } else {
        oss := oss + (str[prev..k] + rep);
        pos := k + |pattern|;
      }
    }
    if searching { SearchCutOff(str, pattern, rep, prev, pos, oss); }
    out := oss + str[prev..];
  }

  /** After `n` matches the loop is here. */
  ghost predicate InSearch(s: string, t: string, r: string, n: nat, prev: nat, pos: nat, oss: string)
    requires t != []
  {
    && n <= Matches(s, t, 0) && pos == AfterMatches(s, t, n) && oss == FirstReplaced(s, t, r, n)
    && (n > 0 ==> prev == AfterMatches(s, t, n - 1))
  }

  lemma SearchStarts(s: string, t: string, r: string)
    requires t != []
    ensures InSearch(s, t, r, 0, 0, 0, "")
  {
  }

  lemma SearchGoesOn(s: string, t: string, r: string, n: nat, prev: nat, pos: nat, oss: string)
    requires t != [] && n < LIMIT && pos <= |s| && InSearch(s, t, r, n, prev, pos, oss)
    ensures var k := Find(s, t, pos);
            if k == |s| then oss + s[pos..] == Substituted(s, t, r)
            else k + |t| <= |s| && InSearch(s, t, r, n + 1, pos, k + |t|, oss + (s[pos..k] + r))
  {
    hide Matches, Replace, At;
    FirstReplacedIs(s, t, r, n);
    var k := Find(s, t, pos);
    if k == |s| { NoMatch(s, t, r, pos); } else { NextMatch(s, t, r, pos, k); }
  }

  lemma SearchCutOff(s: string, t: string, r: string, prev: nat, pos: nat, oss: string)
    requires t != [] && prev <= |s| && InSearch(s, t, r, LIMIT, prev, pos, oss)
    ensures oss + s[prev..] == Substituted(s, t, r)
  {
    hide Matches, Replace, At, FirstReplaced, AfterMatches;
  }

  /** `split`: every piece but the last ends at the first match from where it
      starts, and joining the pieces gives the text back exactly when the
      delimiter occurs fewer than a thousand times. */
  method Split(str: string, delim: string) returns (out: seq<string>)
    ensures delim == "" ==> out == [str]
    ensures delim != "" ==> out != [] && (Join(out, delim) == str <==> Matches(str, delim, 0) < LIMIT)
    ensures delim != "" ==> CutAtMatches(str, delim, out[..|out| - 1])
    ensures delim != "" && Matches(str, delim, 0) < LIMIT ==> |out| == Matches(str, delim, 0) + 1
  {
    hide Find, Replace, Matches, At, CutAtMatches, Glued;
    NothingCut(str, delim);
    var prev, pos := 0, 0;
    out := [];
    if delim != "" {
      var timeout := 0;
      var searching := true;
      while searching && timeout < LIMIT
        invariant 0 <= prev <= pos <= |str| && timeout <= LIMIT
        invariant searching ==> |out| == timeout && Matches(str, delim, 0) == timeout + Matches(str, delim, pos)
        invariant !searching ==> Matches(str, delim, 0) == |out| < LIMIT && prev == pos
        invariant timeout > 0 && searching ==> prev < pos
        invariant Glued(out, delim) == str[..pos] && CutAtMatches(str, delim, out)
        decreases searching, LIMIT - timeout
      {
        timeout := timeout + 1;
        prev := pos;
        var k := Find(str, delim, pos);
        if k == |str| {
          NoMatch(str, delim, delim, pos);
          searching := false;
        } else {
          NextMatch(str, delim, delim, pos, k);
          CutPiece(str, delim, out, prev, k);
          TakeMatch(str, delim, pos, k);
          out := out + [str[prev..k]];
          pos := k + |delim|;
        }
      }
    }
    assert (out + [str[prev..]])[..|out|] == out;
    out := out + [str[prev..]];
  }

  lemma TakeMatch(s: string, t: string, pos: nat, k: nat)
    requires pos <= k && At(s, t, k)
    ensures s[..pos] + (s[pos..k] + t) == s[..k + |t|]
  {
  }

  /** The pieces lie one after the other, each ending at the first match from where it
      starts. */
  ghost predicate CutAtMatches(str: string, delim: string, pieces: seq<string>)
    requires delim != []
  {
    forall i :: 0 <= i < |pieces| ==> CutAt(str, delim, |Glued(pieces[..i], delim)|, pieces[i])
  }

  ghost predicate CutAt(str: string, delim: string, at: nat, piece: string)
    requires delim != []
  {
    at + |piece| < |str| && Find(str, delim, at) == at + |piece|
  }

  lemma NothingCut(str: string, delim: string)
    ensures Glued([], delim) == "" && (delim != [] ==> CutAtMatches(str, delim, []))
  {
  }

  lemma CutPiece(str: string, delim: string, pieces: seq<string>, prev: nat, k: nat)
    requires delim != [] && CutAtMatches(str, delim, pieces)
    requires prev <= k < |str| && Glued(pieces, delim) == str[..prev] && Find(str, delim, prev) == k
    ensures CutAtMatches(str, delim, pieces + [str[prev..k]])
    ensures Glued(pieces + [str[prev..k]], delim) == str[..prev] + (str[prev..k] + delim)
  {
    hide CutAtMatches, Find;
    CutExtends(str, delim, pieces, str[prev..k]);
  }

  lemma CutExtends(str: string, delim: string, pieces: seq<string>, piece: string)
    requires delim != [] && CutAtMatches(str, delim, pieces)
    requires CutAt(str, delim, |Glued(pieces, delim)|, piece)
    ensures CutAtMatches(str, delim, pieces + [piece])
    ensures Glued(pieces + [piece], delim) == Glued(pieces, delim) + (piece + delim)
  {
    var all := pieces + [piece];
    forall i | 0 <= i < |all|
      ensures CutAt(str, delim, |Glued(all[..i], delim)|, all[i])
    {
      assert all[..i] == if i < |pieces| then pieces[..i] else pieces;
    }
  }
}

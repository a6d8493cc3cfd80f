/** The glob patterns of a key's scope: `*` for any text, `?` for one character, all else for itself. */
module Glob {
  import opened Text

  /** The backtracking matcher. */
  predicate Match(pat: string, input: string) {
    if pat == "" then input == ""
    else if pat[0] == '*' then |pat| == 1 || exists i | 0 <= i <= |input| :: Match(pat[1..], input[i..])
    else input != "" && (pat[0] == '?' || pat[0] == input[0]) && Match(pat[1..], input[1..])
  }

  /** What a pattern character stands for. */
  predicate StandsFor(c: char, piece: string) {
    if c == '*' then true else if c == '?' then |piece| == 1 else piece == [c]
  }

  /** The pieces, one for each pattern character, make up the input. */
  predicate Aligned(pat: string, pieces: seq<string>, input: string) {
    |pieces| == |pat| && Concat(pieces) == input && forall i | 0 <= i < |pat| :: StandsFor(pat[i], pieces[i])
  }

  /** Where a star stops: the shortcut for a last star is no exception. */
  lemma StarStops(pat: string, input: string) returns (i: nat)
    requires pat != "" && pat[0] == '*' && Match(pat, input)
    ensures i <= |input| && Match(pat[1..], input[i..])
  {
    if |pat| == 1 {
      i := |input|;
      assert pat[1..] == "" && input[i..] == "";
    } else {
      i :| 0 <= i <= |input| && Match(pat[1..], input[i..]);
    }
  }

  lemma StarGoesOn(pat: string, input: string, i: nat)
    requires pat != "" && pat[0] == '*' && i <= |input| && Match(pat[1..], input[i..])
    ensures Match(pat, input)
  {
  }

  lemma ConcatCons(first: string, rest: seq<string>)
    ensures Concat([first] + rest) == first + Concat(rest)
  {
    assert ([first] + rest)[1..] == rest;
  }

  /** An input that matches can be cut into pieces, one for each pattern character. */
  lemma {:induction false} MatchAligns(pat: string, input: string) returns (pieces: seq<string>)
    requires Match(pat, input)
    ensures Aligned(pat, pieces, input)
  {
    if pat == "" {
      pieces := [];
    } else {
      var i: nat := 1;
      if pat[0] == '*' {
        i := StarStops(pat, input);
      }
      var rest := MatchAligns(pat[1..], input[i..]);
      pieces := [input[..i]] + rest;
      ConcatCons(input[..i], rest);
      assert input == input[..i] + input[i..];
      assert forall k | 1 <= k < |pat| :: pat[k] == pat[1..][k - 1] && pieces[k] == rest[k - 1];
    }
  }

  /** Whatever can be cut so matches. */
  lemma {:induction false} AlignedMatches(pat: string, pieces: seq<string>, input: string)
    requires Aligned(pat, pieces, input)
    ensures Match(pat, input)
  {
    if pat != "" {
      var i := |pieces[0]|;
      var rest := pieces[1..];
      assert input == pieces[0] + Concat(rest) && input[..i] == pieces[0] && input[i..] == Concat(rest);
      assert forall k | 0 <= k < |pat| - 1 :: pat[1..][k] == pat[k + 1] && rest[k] == pieces[k + 1];
      assert StandsFor(pat[0], pieces[0]);
      AlignedMatches(pat[1..], rest, input[i..]);
      if pat[0] == '*' {
        StarGoesOn(pat, input, i);
      }
    }
  }

  /** The matcher decides the declared language. */
  lemma MatchIsAlignment(pat: string, input: string)
    ensures Match(pat, input) <==> exists pieces :: Aligned(pat, pieces, input)
  {
    if Match(pat, input) {
      var pieces := MatchAligns(pat, input);
    }
    if exists pieces :: Aligned(pat, pieces, input) {
      var pieces :| Aligned(pat, pieces, input);
      AlignedMatches(pat, pieces, input);
    }
  }

  lemma AlignedParts(p: string, q: string, a: seq<string>, b: seq<string>, s: string, t: string)
    requires |a| == |p|
    requires Aligned(p + q, a + b, s + t) && Concat(a) == s
    ensures Aligned(p, a, s) && Aligned(q, b, t)
  {
    ConcatAppend(a, b);
    var pat, pieces := p + q, a + b;
    assert t == (s + t)[|s|..] && Concat(b) == (Concat(a) + Concat(b))[|s|..];
    assert forall i | 0 <= i < |p| :: pat[i] == p[i] && pieces[i] == a[i];
    assert forall i | 0 <= i < |q| :: pat[|p| + i] == q[i] && pieces[|p| + i] == b[i];
  }

  lemma AlignedJoin(p: string, q: string, a: seq<string>, b: seq<string>, s: string, t: string)
    requires Aligned(p, a, s) && Aligned(q, b, t)
    ensures Aligned(p + q, a + b, s + t)
  {
    ConcatAppend(a, b);
  }

  lemma SplitDown(p: string, q: string, input: string) returns (k: nat)
    requires Match(p + q, input)
    ensures k <= |input| && Match(p, input[..k]) && Match(q, input[k..])
  {
    hide Match, Aligned;
    var pieces := MatchAligns(p + q, input);
    k := CutPieces(p, q, pieces, input);
    AlignedMatches(p, pieces[..|p|], input[..k]);
    AlignedMatches(q, pieces[|p|..], input[k..]);
  }

  lemma CutPieces(p: string, q: string, pieces: seq<string>, input: string) returns (k: nat)
    requires Aligned(p + q, pieces, input)
    ensures k <= |input| && |pieces| == |p| + |q|
    ensures Aligned(p, pieces[..|p|], input[..k]) && Aligned(q, pieces[|p|..], input[k..])
  {
    var a, b := pieces[..|p|], pieces[|p|..];
    assert pieces == a + b;
    ConcatAppend(a, b);
    k := |Concat(a)|;
    assert input[..k] == Concat(a) && input[k..] == Concat(b) && input == input[..k] + input[k..];
    AlignedParts(p, q, a, b, input[..k], input[k..]);
  }

  lemma SplitUp(p: string, q: string, input: string, k: nat)
    requires k <= |input| && Match(p, input[..k]) && Match(q, input[k..])
    ensures Match(p + q, input)
  {
    hide Match, Aligned;
    var a := MatchAligns(p, input[..k]);
    var b := MatchAligns(q, input[k..]);
    AlignedJoin(p, q, a, b, input[..k], input[k..]);
    assert input == input[..k] + input[k..];
    AlignedMatches(p + q, a + b, input);
  }

  /** Two patterns one after the other match an input cut in two, each its part; also across a last star. */
  lemma SplitLaw(p: string, q: string, input: string)
    ensures Match(p + q, input) <==> exists k | 0 <= k <= |input| :: Match(p, input[..k]) && Match(q, input[k..])
  {
    hide Match;
    if Match(p + q, input) {
      var k := SplitDown(p, q, input);
    }
    if exists k | 0 <= k <= |input| :: Match(p, input[..k]) && Match(q, input[k..]) {
      var k :| 0 <= k <= |input| && Match(p, input[..k]) && Match(q, input[k..]);
      SplitUp(p, q, input, k);
    }
  }

  /** A pattern without wildcards matches itself and nothing else. */
  lemma {:induction false} PlainMatchesItself(pat: string, input: string)
    requires '*' !in pat && '?' !in pat
    ensures Match(pat, input) <==> pat == input
  {
    if pat != "" {
      assert pat[0] in pat && forall c | c in pat[1..] :: c in pat;
      assert pat == [pat[0]] + pat[1..];
      if input != "" {
        assert input == [input[0]] + input[1..];
        PlainMatchesItself(pat[1..], input[1..]);
      }
    }
  }

  /** Two stars are one. */
  lemma StarsCollapse(p: string, q: string, input: string)
    ensures Match(p + ("**" + q), input) <==> Match(p + ("*" + q), input)
  {
    SplitLaw(p, "**" + q, input);
    SplitLaw(p, "*" + q, input);
    forall k | 0 <= k <= |input|
      ensures Match("**" + q, input[k..]) <==> Match("*" + q, input[k..])
    {
      TwoStars(q, input[k..]);
    }
  }

  lemma TwoStars(q: string, input: string)
    ensures Match("**" + q, input) <==> Match("*" + q, input)
  {
    var two, one := "**" + q, "*" + q;
    assert two[1..] == one && one[1..] == q;
    if Match(two, input) {
      var i := StarStops(two, input);
      var j := StarStops(one, input[i..]);
      assert input[i..][j..] == input[i + j..];
      StarGoesOn(one, input, i + j);
    }
    if Match(one, input) {
      assert input[0..] == input;
      StarGoesOn(two, input, 0);
    }
  }

  /** `any` over the patterns of a scope; no pattern allows nothing. */
  predicate AnyMatch(patterns: seq<string>, input: string) {
    exists p | p in patterns :: Match(p, input)
  }
}

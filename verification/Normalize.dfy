/**
  White-space normalisation of text in composed form (NFC): runs of white space become one space, or one
  paragraph break "\n\n" for each block of two or more newlines in them.
*/
module Normalize {
  import opened Text

  /** How many newlines `s` ends with. */
  function Newlines(s: string): nat {
    if s == "" || s[|s| - 1] != '\n' then 0 else 1 + Newlines(s[..|s| - 1])
  }

  /** How many blocks of newlines in `s` reach length two. */
  function Breaks(s: string): nat {
    if s == "" then 0 else Breaks(s[..|s| - 1]) + if Newlines(s) == 2 then 1 else 0
  }

  function Repeat(k: nat): (r: string)
    ensures |r| == 2 * k && forall i | 0 <= i < |r| :: r[i] == '\n'
  {
    if k == 0 then "" else Repeat(k - 1) + "\n\n"
  }

  /** What a run of white space becomes. */
  function Shape(run: string): string {
    if run == "" then "" else if Breaks(run) == 0 then " " else Repeat(Breaks(run))
  }

  /** The length of the white run that `s` ends with. */
  function TailRun(s: string): (n: nat)
    ensures n <= |s| && forall i | |s| - n <= i < |s| :: IsSpace(s[i])
    ensures n < |s| ==> !IsSpace(s[|s| - n - 1])
  {
    if s == "" || !IsSpace(s[|s| - 1]) then 0 else 1 + TailRun(s[..|s| - 1])
  }

  /** Every white run reshaped, leading and trailing ones included. */
  function Flat(s: string): string
    decreases |s|
  {
    if s == "" then ""
    else if !IsSpace(s[|s| - 1]) then Flat(s[..|s| - 1]) + [s[|s| - 1]]
    else
      var n := |s| - TailRun(s);
      Flat(s[..n]) + Shape(s[n..])
  }

  function Normalized(s: string): string {
    Trim(Flat(s))
  }

  // ---- The loop -----------------------------------------------------------------------------

  /** Text that ends in ink, or no text at all. */
  predicate InkEnded(s: string) {
    s != "" ==> !IsSpace(s[|s| - 1])
  }

  lemma TailRunExact(head: string, run: string)
    requires InkEnded(head) && AllSpace(run)
    ensures TailRun(head + run) == |run|
  {
    hide IsSpace, TailRun;
    var s := head + run;
    var n := TailRun(s);
    assert forall i | |head| <= i < |s| :: s[i] == run[i - |head|];
    if n < |s| {
      assert !IsSpace(s[|s| - n - 1]);
    }
    if head != "" {
      assert s[|head| - 1] == head[|head| - 1];
    }
  }

  lemma FlatRun(head: string, run: string)
    requires InkEnded(head) && AllSpace(run)
    ensures Flat(head + run) == Flat(head) + Shape(run)
    ensures InkEnded(Flat(head))
  {
    TailRunExact(head, run);
    var s := head + run;
    if run == "" {
      assert s == head;
    } else {
      assert s[|s| - 1] == run[|run| - 1];
      assert s[..|head|] == head && s[|head|..] == run;
    }
  }

  lemma {:induction false} NewlinesOfRun(head: string, run: string)
    requires InkEnded(head) && AllSpace(run)
    ensures Newlines(head + run) == Newlines(run)
  {
    if run == "" {
      assert head + run == head;
    } else {
      var init, c := run[..|run| - 1], run[|run| - 1];
      NewlinesOfRun(head, init);
      AppendLast(head, run);
      NewlinesOne(head + init, c);
      NewlinesOne(init, c);
      assert run == init + [c];
    }
  }

  lemma NewlinesOne(s: string, c: char)
    ensures Newlines(s + [c]) == if c == '\n' then Newlines(s) + 1 else 0
  {
    assert (s + [c])[..|s|] == s;
  }

  lemma BreaksAppend(run: string, c: char)
    ensures Newlines(run + [c]) == if c == '\n' then Newlines(run) + 1 else 0
    ensures Breaks(run + [c]) == Breaks(run) + if c == '\n' && Newlines(run) == 1 then 1 else 0
  {
    assert (run + [c])[..|run|] == run;
  }

  lemma {:induction false} NewlinesMakeBreaks(run: string)
    ensures Newlines(run) >= 2 ==> Breaks(run) >= 1
  {
    if run != "" { NewlinesMakeBreaks(run[..|run| - 1]); }
  }

  /** What one more white character does to the text built so far. */
  lemma FlatSpace(s: string, c: char) returns (head: string, run: string)
    requires IsSpace(c)
    ensures InkEnded(head) && AllSpace(run) && InkEnded(Flat(head))
    ensures s == head + run && Newlines(s) == Newlines(run)
    ensures Flat(s) == Flat(head) + Shape(run)
    ensures Flat(s + [c]) == Flat(head) + Shape(run + [c])
  {
    hide Flat, Shape, Newlines;
    var n := |s| - TailRun(s);
    head, run := s[..n], s[n..];
    assert s == head + run;
    FlatRun(head, run);
    FlatRun(head, run + [c]);
    Assoc(head, run, [c]);
    NewlinesOfRun(head, run);
  }

  predicate EndsWith(s: string, c: char) {
    s != "" && s[|s| - 1] == c
  }

  lemma ShapeEnd(head: string, run: string)
    requires InkEnded(head)
    ensures EndsWith(head + Shape(run), ' ') <==> run != "" && Breaks(run) == 0
    ensures EndsWith(head + Shape(run), '\n') <==> run != "" && Breaks(run) > 0
    ensures run != "" && Breaks(run) == 0 ==>
              |head + Shape(run)| == |head| + 1 && (head + Shape(run))[..|head|] == head
  {
    var s := head + Shape(run);
    if Shape(run) != "" {
      assert s[|s| - 1] == Shape(run)[|Shape(run)| - 1];
    } else {
      assert s == head;
    }
  }

  lemma ShapeNewline(head: string, run: string)
    ensures Newlines(run) == 1 ==>
              head + Shape(run + ['\n']) == (if Breaks(run) == 0 then head else head + Shape(run)) + "\n\n"
    ensures run == "" ==> head + Shape(run + ['\n']) == head + Shape(run) + " "
    ensures run != "" && Newlines(run) != 1 ==> Shape(run + ['\n']) == Shape(run)
  {
    BreaksAppend(run, '\n');
    if Newlines(run) == 1 && Breaks(run) == 0 {
      assert Repeat(1) == Repeat(0) + "\n\n" == "\n\n";
    }
  }

  /** One newline: a paragraph break when it is the second of its block, else a space unless the run has a shape. */
  method TakeNewline(ghost s: string, out: string, newlines: nat, emitted: bool) returns (out': string, emitted': bool)
    requires out == Flat(s)
    requires newlines == if Newlines(s) + 1 > 255 then 255 else Newlines(s) + 1
    requires emitted <==> Newlines(s) >= 2
    ensures out' == Flat(s + ['\n'])
    ensures emitted' <==> Newlines(s + ['\n']) >= 2
  {
    out', emitted' := out, emitted;
    ghost var head, run := FlatSpace(s, '\n');
    ShapeEnd(Flat(head), run);
    ShapeNewline(Flat(head), run);
    BreaksAppend(s, '\n');
    NewlinesMakeBreaks(run);
    if newlines >= 2 && !emitted {
      if EndsWith(out, ' ') {
        out' := out[..|out| - 1];
      }
      out' := out' + "\n\n";
      emitted' := true;
    } else if newlines == 1 && !EndsWith(out, ' ') && !EndsWith(out, '\n') {
      out' := out + " ";
    }
  }

  /** Any other white character: a space, unless the run already has a shape. */
  method TakeSpace(ghost s: string, ghost c: char, out: string) returns (out': string)
    requires out == Flat(s) && IsSpace(c) && c != '\n'
    ensures out' == Flat(s + [c])
  {
    out' := out;
    ghost var head, run := FlatSpace(s, c);
    ShapeEnd(Flat(head), run);
    BreaksAppend(run, c);
    if !EndsWith(out, ' ') && !EndsWith(out, '\n') {
      out' := out + " ";
    }
  }

  lemma NothingYet()
    ensures Flat("") == "" && Newlines("") == 0
  {
  }

  method NormalizeKorean(text: string) returns (r: string)
    ensures r == Normalized(text)
  {
    hide Shape, Trim, Flat, Newlines, Breaks;
    var out := "";
    var newlines, emitted := 0, false;
    var i := 0;
    NothingYet();
    while i < |text|
      invariant 0 <= i <= |text|
      invariant out == Flat(text[..i])
      invariant newlines == if Newlines(text[..i]) > 255 then 255 else Newlines(text[..i])
      invariant emitted <==> Newlines(text[..i]) >= 2
    {
      var c := text[i];
      ghost var s := text[..i];
      assert text[..i + 1] == s + [c];
      BreaksAppend(s, c);
      if c == '\n' {
        newlines := if newlines == 255 then 255 else newlines + 1;
        out, emitted := TakeNewline(s, out, newlines, emitted);
      } else if IsSpace(c) {
        newlines, emitted := 0, false;
        out := TakeSpace(s, c, out);
      } else {
        FlatInk(s, c);
        out := out + [c];
        newlines, emitted := 0, false;
      }
      i := i + 1;
    }
    assert text[..|text|] == text;
    r := Trim(out);
  }

  // ---- Words and gaps -----------------------------------------------------------------------

  /** Words of ink with white gaps between them. */
  predicate Woven(words: seq<string>, gaps: seq<string>) {
    && |words| == |gaps| + 1
    && (forall i | 0 <= i < |words| :: words[i] != "" && NoSpace(words[i]))
    && (forall i | 0 <= i < |gaps| :: gaps[i] != "" && AllSpace(gaps[i]))
  }

  function Weave(words: seq<string>, gaps: seq<string>): string
    requires |words| == |gaps| + 1
  {
    if gaps == [] then words[0]
    else Weave(words[..|gaps|], gaps[..|gaps| - 1]) + gaps[|gaps| - 1] + words[|gaps|]
  }

  function Shapes(gaps: seq<string>): (r: seq<string>)
    ensures |r| == |gaps| && forall i | 0 <= i < |r| :: r[i] == Shape(gaps[i])
  {
    seq(|gaps|, i requires 0 <= i < |gaps| => Shape(gaps[i]))
  }

  lemma {:induction false} FlatWord(s: string, word: string)
    requires NoSpace(word)
    ensures Flat(s + word) == Flat(s) + word
  {
    if word == "" {
      assert s + word == s;
    } else {
      var init, c := word[..|word| - 1], word[|word| - 1];
      hide Flat;
      FlatWord(s, init);
      FlatInk(s + init, c);
      AppendLast(s, word);
      AppendLast(Flat(s), word);
    }
  }

  lemma FlatInk(s: string, c: char)
    requires !IsSpace(c)
    ensures Flat(s + [c]) == Flat(s) + [c]
  {
    assert (s + [c])[..|s|] == s;
  }

  lemma {:induction false} WeaveEnds(words: seq<string>, gaps: seq<string>)
    requires Woven(words, gaps)
    ensures
      var w := Weave(words, gaps);
      w != "" && !IsSpace(w[0]) && !IsSpace(w[|w| - 1])
  {
    if gaps != [] {
      WeaveEnds(words[..|gaps|], gaps[..|gaps| - 1]);
    }
  }

  lemma FlatJoin(s: string, gap: string, word: string)
    requires InkEnded(s) && AllSpace(gap) && NoSpace(word)
    ensures Flat(s + gap + word) == Flat(s) + Shape(gap) + word
  {
    FlatRun(s, gap);
    FlatWord(s + gap, word);
  }

  lemma WeaveLast(words: seq<string>, gaps: seq<string>)
    requires |words| == |gaps| + 1 && gaps != []
    ensures
      var n := |gaps| - 1;
      && Weave(words, gaps) == Weave(words[..n + 1], gaps[..n]) + gaps[n] + words[n + 1]
      && Weave(words, Shapes(gaps)) == Weave(words[..n + 1], Shapes(gaps[..n])) + Shape(gaps[n]) + words[n + 1]
  {
    assert Shapes(gaps)[..|gaps| - 1] == Shapes(gaps[..|gaps| - 1]);
  }

  lemma FlatStep(lead: string, init: string, shaped: string, gap: string, word: string)
    requires init != "" && !IsSpace(init[|init| - 1]) && AllSpace(gap) && NoSpace(word)
    requires Flat(lead + init) == Shape(lead) + shaped
    ensures Flat(lead + (init + gap + word)) == Shape(lead) + (shaped + Shape(gap) + word)
  {
    hide *;
    Regroup(lead, init, gap, word);
    FlatJoin(lead + init, gap, word);
    Regroup(Shape(lead), shaped, Shape(gap), word);
  }

  lemma FlatOneWord(lead: string, word: string)
    requires AllSpace(lead) && NoSpace(word)
    ensures Flat(lead + word) == Shape(lead) + word
  {
    hide Shape, IsSpace;
    FlatRun("", lead);
    assert "" + lead == lead && Flat("") == "";
    FlatWord(lead, word);
  }

  lemma {:induction false} FlatWeave(lead: string, words: seq<string>, gaps: seq<string>)
    requires AllSpace(lead) && Woven(words, gaps)
    ensures Flat(lead + Weave(words, gaps)) == Shape(lead) + Weave(words, Shapes(gaps))
    decreases |gaps|
  {
    hide Flat, Shape, Breaks;
    if gaps == [] {
      FlatOneWord(lead, words[0]);
    } else {
      var n := |gaps| - 1;
      var words', gaps' := words[..n + 1], gaps[..n];
      FlatWeave(lead, words', gaps');
      WeaveEnds(words', gaps');
      WeaveLast(words, gaps);
      FlatStep(lead, Weave(words', gaps'), Weave(words', Shapes(gaps')), gaps[n], words[n + 1]);
    }
  }

  lemma Regroup(a: string, b: string, c: string, d: string)
    ensures (a + b) + c + d == a + (b + c + d)
  {
  }

  lemma TrimCore(a: string, core: string, b: string)
    requires AllSpace(a) && AllSpace(b) && core != "" && !IsSpace(core[0]) && !IsSpace(core[|core| - 1])
    ensures Trim(a + core + b) == core
  {
    TrimLead(a, core + b);
    assert a + core + b == a + (core + b);
    TrimTail(core, b);
  }

  lemma {:induction false} TrimLead(a: string, s: string)
    requires AllSpace(a) && s != "" && !IsSpace(s[0])
    ensures TrimStart(a + s) == s
  {
    if a == "" {
      assert a + s == s;
    } else {
      assert (a + s)[1..] == a[1..] + s && (a + s)[0] == a[0];
      TrimLead(a[1..], s);
    }
  }

  lemma {:induction false} TrimTail(s: string, b: string)
    requires AllSpace(b) && s != "" && !IsSpace(s[|s| - 1])
    ensures TrimEnd(s + b) == s
  {
    if b == "" {
      assert s + b == s;
    } else {
      var t := s + b;
      assert t[..|t| - 1] == s + b[..|b| - 1] && t[|t| - 1] == b[|b| - 1];
      TrimTail(s, b[..|b| - 1]);
    }
  }

  lemma {:induction false} ShapeIsSpace(run: string)
    ensures AllSpace(Shape(run)) && (run != "" ==> Shape(run) != "")
  {
  }

  /**
    Normalising keeps the words and gives every gap its shape: one space without a block of newlines, and
    one "\n\n" for each block with one.  White space at both ends goes.
   */
  lemma NormalizedWeave(lead: string, words: seq<string>, gaps: seq<string>, trail: string)
    requires AllSpace(lead) && AllSpace(trail) && Woven(words, gaps)
    ensures Woven(words, Shapes(gaps))
    ensures Normalized(lead + Weave(words, gaps) + trail) == Weave(words, Shapes(gaps))
  {
    forall i | 0 <= i < |gaps|
      ensures Shape(gaps[i]) != "" && AllSpace(Shape(gaps[i]))
    {
      ShapeIsSpace(gaps[i]);
    }
    WeaveEnds(words, gaps);
    WeaveEnds(words, Shapes(gaps));
    FlatWeave(lead, words, gaps);
    FlatRun(lead + Weave(words, gaps), trail);
    ShapeIsSpace(lead);
    ShapeIsSpace(trail);
    TrimCore(Shape(lead), Weave(words, Shapes(gaps)), Shape(trail));
  }

  lemma NormalizedSpace(s: string)
    requires AllSpace(s)
    ensures Normalized(s) == ""
  {
    FlatRun("", s);
    assert "" + s == s && Flat("") == "";
    ShapeIsSpace(s);
    var lo, hi := TrimSplits(Flat(s));
  }

  /** Every text is white, or words and gaps between white ends. */
  lemma LongerWord(lead: string, words: seq<string>, gaps: seq<string>, c: char) returns (longer: seq<string>)
    requires Woven(words, gaps) && !IsSpace(c)
    ensures Woven(longer, gaps) && (lead + Weave(words, gaps) + "") + [c] == lead + Weave(longer, gaps) + ""
  {
    var n := |gaps|;
    longer := words[n := words[n] + [c]];
    assert longer[..n] == words[..n];
    assert Weave(longer, gaps) == Weave(words, gaps) + [c];
  }

  lemma OneMoreWord(lead: string, words: seq<string>, gaps: seq<string>, gap: string, c: char)
    returns (more: seq<string>, wider: seq<string>)
    requires Woven(words, gaps) && AllSpace(gap) && gap != "" && !IsSpace(c)
    ensures Woven(more, wider) && (lead + Weave(words, gaps) + gap) + [c] == lead + Weave(more, wider) + ""
  {
    var n := |gaps|;
    more, wider := words + [[c]], gaps + [gap];
    assert more[..n + 1] == words && wider[..n] == gaps;
    assert Weave(more, wider) == Weave(words, gaps) + gap + [c];
  }

  lemma {:induction false} Unweave(s: string)
    returns (lead: string, words: seq<string>, gaps: seq<string>, trail: string)
    ensures AllSpace(s) ||
            (AllSpace(lead) && AllSpace(trail) && Woven(words, gaps) && s == lead + Weave(words, gaps) + trail)
  {
    lead, words, gaps, trail := "", [], [], "";
    if s != "" {
      var init, c := s[..|s| - 1], s[|s| - 1];
      assert s == init + [c];
      lead, words, gaps, trail := Unweave(init);
      if AllSpace(init) {
        lead, words, gaps, trail := init, [[c]], [], "";
        assert !IsSpace(c) ==> s == lead + Weave(words, gaps) + trail;
      } else if IsSpace(c) {
        assert s == lead + Weave(words, gaps) + (trail + [c]);
        trail := trail + [c];
      } else if trail == "" {
        words := LongerWord(lead, words, gaps, c);
      } else {
        words, gaps := OneMoreWord(lead, words, gaps, trail, c);
        trail := "";
      }
    }
  }

  // ---- How often to normalise ---------------------------------------------------------------

  lemma NothingBreaks()
    ensures Newlines("") == 0 && Breaks("") == 0
  {
  }

  lemma {:induction false} BreaksOfRepeat(k: nat)
    ensures Newlines(Repeat(k)) == 2 * k && Breaks(Repeat(k)) == if k == 0 then 0 else 1
  {
    hide Newlines, Breaks;
    NothingBreaks();
    if k > 0 {
      BreaksOfRepeat(k - 1);
      var r := Repeat(k - 1);
      assert Repeat(k) == (r + ['\n']) + ['\n'];
      BreaksAppend(r, '\n');
      BreaksAppend(r + ['\n'], '\n');
    }
  }

  /** A second normalisation leaves at most one break of each gap. */
  lemma ShapeTwice(gap: string)
    ensures Shape(Shape(gap)) == if gap == "" then "" else if Breaks(gap) == 0 then " " else "\n\n"
    ensures Shape(Shape(Shape(gap))) == Shape(Shape(gap))
    ensures |Shape(Shape(gap))| <= |Shape(gap)|
    ensures Breaks(gap) <= 1 <==> Shape(Shape(gap)) == Shape(gap)
    ensures Breaks(gap) > 1 ==> |Shape(Shape(gap))| < |Shape(gap)|
  {
    BreaksOfRepeat(Breaks(gap));
    BreaksOfRepeat(1);
    assert Repeat(1) == Repeat(0) + "\n\n" == "\n\n";
    BreaksAppend("", ' ');
    assert "" + [' '] == " ";
  }

  lemma {:induction false} WeaveLength(words: seq<string>, a: seq<string>, b: seq<string>)
    requires |words| == |a| + 1 && |a| == |b|
    requires forall i | 0 <= i < |a| :: |a[i]| <= |b[i]|
    ensures |Weave(words, a)| <= |Weave(words, b)|
    ensures (exists i | 0 <= i < |a| :: |a[i]| < |b[i]|) ==> |Weave(words, a)| < |Weave(words, b)|
    decreases |a|
  {
    var n := |a|;
    if n > 0 {
      var a', b' := a[..n - 1], b[..n - 1];
      WeaveLength(words[..n], a', b');
      if i :| 0 <= i < n && |a[i]| < |b[i]| {
        if i < n - 1 {
          assert |a'[i]| < |b'[i]|;
        }
      }
    }
  }

  /** A bare weave is normalised gap by gap. */
  lemma NormalizedBare(words: seq<string>, gaps: seq<string>)
    requires Woven(words, gaps)
    ensures Normalized(Weave(words, gaps)) == Weave(words, Shapes(gaps)) && Woven(words, Shapes(gaps))
  {
    NormalizedWeave("", words, gaps, "");
    assert "" + Weave(words, gaps) + "" == Weave(words, gaps);
  }

  /** A second normalisation changes the text exactly when some gap holds more than one paragraph break. */
  lemma IdempotentExact(lead: string, words: seq<string>, gaps: seq<string>, trail: string)
    requires AllSpace(lead) && AllSpace(trail) && Woven(words, gaps)
    ensures
      var s := lead + Weave(words, gaps) + trail;
      Normalized(Normalized(s)) == Normalized(s) <==> forall i | 0 <= i < |gaps| :: Breaks(gaps[i]) <= 1
  {
    hide Normalized, Weave, Shape, Breaks;
    NormalizedWeave(lead, words, gaps, trail);
    var once, twice := Shapes(gaps), Shapes(Shapes(gaps));
    NormalizedBare(words, once);
    forall i | 0 <= i < |gaps|
      ensures |twice[i]| <= |once[i]|
      ensures Breaks(gaps[i]) <= 1 <==> twice[i] == once[i]
      ensures Breaks(gaps[i]) > 1 ==> |twice[i]| < |once[i]|
    {
      ShapeTwice(gaps[i]);
    }
    WeaveLength(words, twice, once);
    if forall i | 0 <= i < |gaps| :: Breaks(gaps[i]) <= 1 {
      assert twice == once;
    }
  }

  /** From the second normalisation on, nothing changes any more. */
  lemma SettlesAtTwo(s: string)
    ensures Normalized(Normalized(Normalized(s))) == Normalized(Normalized(s))
  {
    hide Normalized, Weave, Shape, Breaks;
    var lead, words, gaps, trail := Unweave(s);
    if AllSpace(s) {
      NormalizedSpace(s);
      NormalizedSpace("");
    } else {
      var once, twice := Shapes(gaps), Shapes(Shapes(gaps));
      NormalizedWeave(lead, words, gaps, trail);
      NormalizedBare(words, once);
      NormalizedBare(words, twice);
      forall i | 0 <= i < |gaps| ensures Shape(twice[i]) == twice[i] { ShapeTwice(gaps[i]); }
      assert Shapes(twice) == twice;
    }
  }

  // ---- Blocks of newlines -------------------------------------------------------------------

  /** A block of two or more newlines begins at `i`. */
  predicate BlockBegins(s: string, i: nat) {
    i + 1 < |s| && s[i] == '\n' && s[i + 1] == '\n' && (i > 0 ==> s[i - 1] != '\n')
  }

  function Blocks(s: string): set<nat> {
    set i: nat | i < |s| && BlockBegins(s, i)
  }

  /** One more character can begin one more block only: two places before the end. */
  lemma BlocksGrow(s: string)
    requires s != ""
    ensures
      var n := |s| - 1;
      && Blocks(s) == Blocks(s[..n]) + (if n > 0 && BlockBegins(s, n - 1) then {n - 1} else {})
      && n - 1 !in Blocks(s[..n])
  {
    var n := |s| - 1;
    assert forall i: nat | i + 1 < n :: BlockBegins(s, i) <==> BlockBegins(s[..n], i);
  }

  lemma {:induction false} BreaksAreBlocks(s: string)
    ensures |Blocks(s)| == Breaks(s)
  {
    hide Blocks, BlockBegins, Newlines;
    if s == "" {
      NoBlocks();
    } else {
      BreaksAreBlocks(s[..|s| - 1]);
      BlocksGrow(s);
      LastTwo(s);
    }
  }

  lemma NoBlocks()
    ensures Blocks("") == {}
  {
  }

  lemma LastTwo(s: string)
    requires s != ""
    ensures Newlines(s) == 2 <==> |s| > 1 && BlockBegins(s, |s| - 2)
  {
    var n := |s| - 1;
    assert Newlines(s) == if s[n] == '\n' then 1 + Newlines(s[..n]) else 0;
    if n > 0 && s[n] == '\n' {
      assert Newlines(s[..n]) == if s[n - 1] == '\n' then 1 + Newlines(s[..n][..n - 1]) else 0;
      assert s[..n][..n - 1] == s[..n - 1];
    }
  }

  /** A gap becomes one space, or one paragraph break for each block of two or more newlines in it. */
  lemma GapBecomes(gap: string)
    requires gap != ""
    ensures
      var k := |Blocks(gap)|;
      if k == 0 then Shape(gap) == " " else |Shape(gap)| == 2 * k && forall c | c in Shape(gap) :: c == '\n'
  {
    BreaksAreBlocks(gap);
  }
}

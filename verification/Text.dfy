/** Characters and strings as the gateway's text code uses them: trimming, joining, searching. */
module Text {

  datatype Option<+T> = None | Some(value: T)

  /** The Unicode White_Space characters. */
  predicate IsSpace(c: char) {
    || '\U{0009}' <= c <= '\U{000D}'
    || c == ' ' || c == '\U{0085}' || c == '\U{00A0}' || c == '\U{1680}'
    || '\U{2000}' <= c <= '\U{200A}'
    || c == '\U{2028}' || c == '\U{2029}' || c == '\U{202F}' || c == '\U{205F}' || c == '\U{3000}'
  }

  predicate AllSpace(s: string) {
    forall i | 0 <= i < |s| :: IsSpace(s[i])
  }

  predicate NoSpace(s: string) {
    forall i | 0 <= i < |s| :: !IsSpace(s[i])
  }

  function TrimStart(s: string): string {
    if s != "" && IsSpace(s[0]) then TrimStart(s[1..]) else s
  }

  function TrimEnd(s: string): string {
    if s != "" && IsSpace(s[|s| - 1]) then TrimEnd(s[..|s| - 1]) else s
  }

  function Trim(s: string): string {
    TrimEnd(TrimStart(s))
  }

  /** Nothing to trim on either side. */
  predicate Trimmed(s: string) {
    s != "" ==> !IsSpace(s[0]) && !IsSpace(s[|s| - 1])
  }

  function Concat(parts: seq<string>): string {
    if parts == [] then "" else parts[0] + Concat(parts[1..])
  }

  function Join(parts: seq<string>, sep: string): string {
    if parts == [] then ""
    else if |parts| == 1 then parts[0]
    else parts[0] + sep + Join(parts[1..], sep)
  }

  /** The text without its white space. */
  function Ink(s: string): (r: string)
    ensures NoSpace(r)
  {
    if s == "" then ""
    else if IsSpace(s[0]) then Ink(s[1..])
    else [s[0]] + Ink(s[1..])
  }

  lemma Assoc(a: string, b: string, c: string)
    ensures (a + b) + c == a + (b + c)
  {
  }

  lemma AppendLast(a: string, w: string)
    requires w != ""
    ensures a + w == (a + w[..|w| - 1]) + [w[|w| - 1]]
  {
  }

  lemma {:induction false} InkConcat(a: string, b: string)
    ensures Ink(a + b) == Ink(a) + Ink(b)
  {
    if a == "" {
      assert a + b == b;
    } else {
      assert (a + b)[1..] == a[1..] + b;
      InkConcat(a[1..], b);
    }
  }

  lemma {:induction false} InkLength(s: string)
    ensures |Ink(s)| <= |s|
  {
    if s != "" { InkLength(s[1..]); }
  }

  lemma {:induction false} InkOfSpace(s: string)
    requires AllSpace(s)
    ensures Ink(s) == ""
  {
    if s != "" { InkOfSpace(s[1..]); }
  }

  lemma {:induction false} NoInkMeansSpace(s: string)
    requires Ink(s) == ""
    ensures AllSpace(s)
  {
    if s != "" {
      NoInkMeansSpace(s[1..]);
      assert forall i | 1 <= i < |s| :: s[i] == s[1..][i - 1];
    }
  }

  lemma {:induction false} InkOfInk(s: string)
    requires NoSpace(s)
    ensures Ink(s) == s
  {
    if s != "" { InkOfInk(s[1..]); }
  }

  lemma {:induction false} ConcatAppend(a: seq<string>, b: seq<string>)
    ensures Concat(a + b) == Concat(a) + Concat(b)
  {
    if a == [] {
      assert a + b == b;
    } else {
      assert (a + b)[1..] == a[1..] + b;
      ConcatAppend(a[1..], b);
    }
  }

  /** `TrimStart` cuts a white prefix, `TrimEnd` a white suffix, and what is left starts and ends with ink. */
  lemma {:induction false} TrimStartSplits(s: string)
    ensures |TrimStart(s)| <= |s|
    ensures TrimStart(s) == s[|s| - |TrimStart(s)|..]
    ensures AllSpace(s[..|s| - |TrimStart(s)|])
    ensures TrimStart(s) != "" ==> !IsSpace(TrimStart(s)[0])
  {
    if s != "" && IsSpace(s[0]) {
      TrimStartSplits(s[1..]);
      var n := |s| - |TrimStart(s)|;
      assert s[..n] == [s[0]] + s[1..][..n - 1];
    }
  }

  lemma {:induction false} TrimEndSplits(s: string)
    ensures |TrimEnd(s)| <= |s|
    ensures TrimEnd(s) == s[..|TrimEnd(s)|]
    ensures AllSpace(s[|TrimEnd(s)|..])
    ensures TrimEnd(s) != "" ==> !IsSpace(TrimEnd(s)[|TrimEnd(s)| - 1])
  {
    if s != "" && IsSpace(s[|s| - 1]) {
      var t := s[..|s| - 1];
      TrimEndSplits(t);
      assert s[|TrimEnd(s)|..] == t[|TrimEnd(s)|..] + [s[|s| - 1]];
    }
  }

  /** A trimmed text is the text without a white prefix of length `lo` and a white suffix. */
  lemma TrimSplits(s: string) returns (lo: nat, hi: nat)
    ensures lo <= hi <= |s| && Trim(s) == s[lo..hi]
    ensures AllSpace(s[..lo]) && AllSpace(s[hi..])
    ensures Trimmed(Trim(s)) && Ink(Trim(s)) == Ink(s)
    ensures Trim(s) == "" <==> AllSpace(s)
  {
    TrimStartSplits(s);
    var t := TrimStart(s);
    TrimEndSplits(t);
    lo := |s| - |t|;
    hi := lo + |TrimEnd(t)|;
    assert s[hi..] == t[|TrimEnd(t)|..];
    InkInside(s, lo, hi);
    if lo < hi {
      assert s[lo] == Trim(s)[0];
    }
  }

  lemma InkInside(s: string, lo: nat, hi: nat)
    requires lo <= hi <= |s| && AllSpace(s[..lo]) && AllSpace(s[hi..])
    ensures Ink(s[lo..hi]) == Ink(s)
  {
    assert s == s[..hi] + s[hi..] && s[..hi] == s[..lo] + s[lo..hi];
    InkConcat(s[..hi], s[hi..]);
    InkConcat(s[..lo], s[lo..hi]);
    InkOfSpace(s[..lo]);
    InkOfSpace(s[hi..]);
  }

  lemma TrimmedIsFixed(s: string)
    requires Trimmed(s)
    ensures Trim(s) == s
  {
  }

  // ---- Blank lines --------------------------------------------------------------------------

  predicate LfAt(s: string, i: nat) {
    i + 2 <= |s| && s[i] == '\n' && s[i + 1] == '\n'
  }

  function FindLf(s: string, from: nat): (r: Option<nat>)
    ensures r.Some? ==> from <= r.value && LfAt(s, r.value) && forall i | from <= i < r.value :: !LfAt(s, i)
    ensures r.None? ==> forall i | from <= i :: !LfAt(s, i)
    decreases |s| - from
  {
    if from >= |s| then None else if LfAt(s, from) then Some(from) else FindLf(s, from + 1)
  }
}

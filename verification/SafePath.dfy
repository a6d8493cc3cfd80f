/** The lexical check that keeps the entries of an archive below the target directory. */
module SafePath {
  import opened Text

  datatype Component = Normal(name: string) | CurDir | ParentDir | RootDir | Prefix(text: string)

  type Path = seq<Component>

  /** A path of plain names. */
  type Names = seq<string>

  /** The path is relative in all its components. */
  predicate Relative(path: Path) {
    forall c | c in path :: !c.RootDir? && !c.Prefix?
  }

  function Count(path: Path): int {
    if path == [] then 0
    else
      var n := |path| - 1;
      Count(path[..n]) + match path[n] case Normal(_) => 1 case ParentDir => -1 case _ => 0
  }

  /** No first part of the path climbs more often than it descends. */
  predicate NeverAbove(path: Path) {
    forall k | 0 <= k <= |path| :: Count(path[..k]) >= 0
  }

  /** Where a path leads from a directory, one component after the other. */
  function Resolve(base: Names, path: Path): Names {
    if path == [] then base
    else
      var n := |path| - 1;
      var here := Resolve(base, path[..n]);
      match path[n]
      case Normal(name) => here + [name]
      case ParentDir => if here == [] then [] else here[..|here| - 1]
      case _ => here
  }

  function Plain(names: Names): Path {
    seq(|names|, i requires 0 <= i < |names| => Normal(names[i]))
  }

  /** The cleaned path, or none for one that could leave the target. */
  method LexicalSafeSubpath(path: Path) returns (r: Option<Names>)
    ensures r == if Relative(path) && NeverAbove(path) then Some(Resolve([], path)) else None
  {
    var depth := 0;
    var clean: Names := [];
    var i := 0;
    while i < |path|
      invariant 0 <= i <= |path| && clean == Resolve([], path[..i]) && depth == |clean| == Count(path[..i])
      invariant forall k | 0 <= k < i :: !path[k].RootDir? && !path[k].Prefix?
      invariant forall k | 0 <= k <= i :: Count(path[..k]) >= 0
    {
      assert path[..i + 1][..i] == path[..i] && path[i] in path;
      match path[i] {
        case Normal(name) =>
          clean := clean + [name];
          depth := depth + 1;
        case CurDir =>
        case ParentDir =>
          depth := depth - 1;
          if depth < 0 {
            assert Count(path[..i + 1]) < 0;
            return None;
          }
          clean := clean[..|clean| - 1];
        case RootDir => return None;
        case Prefix(_) => return None;
      }
      i := i + 1;
    }
    assert path[..i] == path;
    r := Some(clean);
  }

  // ---- Accepted paths -----------------------------------------------------------------------

  lemma {:induction false} ResolveBelow(base: Names, path: Path)
    requires Relative(path) && NeverAbove(path)
    ensures Resolve(base, path) == base + Resolve([], path) && |Resolve([], path)| == Count(path)
  {
    if path == [] {
      assert base + [] == base;
    } else {
      var n := |path| - 1;
      PartIsBelow(path, n);
      assert path[..|path|] == path && Count(path[..|path|]) >= 0;
      ResolveBelow(base, path[..n]);
      assert path[n] in path;
      hide NeverAbove, Relative;
      LastStep(base, Resolve([], path[..n]));
    }
  }

  lemma PartIsBelow(path: Path, n: nat)
    requires Relative(path) && NeverAbove(path) && n <= |path|
    ensures Relative(path[..n]) && NeverAbove(path[..n])
  {
    hide Count;
    assert forall c | c in path[..n] :: c in path;
    assert forall k | 0 <= k <= n :: path[..n][..k] == path[..k];
  }

  lemma LastStep(base: Names, names: Names)
    ensures forall name :: (base + names) + [name] == base + (names + [name])
    ensures names != [] ==> (base + names)[..|base + names| - 1] == base + names[..|names| - 1]
  {
  }

  /**
    An accepted path leads, from any directory, to the directory's own names followed by the cleaned path, and no
    first part of it leads above the directory.
   */
  lemma AcceptedStaysBelow(target: Names, path: Path, k: nat)
    requires Relative(path) && NeverAbove(path) && k <= |path|
    ensures Resolve(target, path) == target + Resolve([], path)
    ensures target <= Resolve(target, path[..k])
  {
    ResolveBelow(target, path);
    PartIsBelow(path, k);
    ResolveBelow(target, path[..k]);
  }

  /** A relative path is refused exactly when some directory of names would be left by one of its first parts. */
  lemma RefusedLeaves(path: Path)
    requires Relative(path) && !NeverAbove(path)
    ensures exists k | 0 <= k <= |path| :: Count(path[..k]) == -1
    ensures forall name :: exists k | 0 <= k <= |path| :: !([name] <= Resolve([name], path[..k]))
  {
    var k := FirstAbove(path, |path|);
    forall name
      ensures exists j | 0 <= j <= |path| :: !([name] <= Resolve([name], path[..j]))
    {
      var before := path[..k - 1];
      assert forall c | c in before :: c in path;
      assert forall j | 0 <= j <= k - 1 :: before[..j] == path[..j];
      ResolveBelow([name], before);
      assert path[..k][..k - 1] == before;
      assert Resolve([name], path[..k]) == [];
    }
  }

  lemma {:induction false} FirstAbove(path: Path, n: nat) returns (k: nat)
    requires n <= |path| && exists j | 0 <= j <= n :: Count(path[..j]) < 0
    ensures 0 < k <= n && Count(path[..k]) == -1 && Count(path[..k - 1]) == 0 && path[k - 1].ParentDir?
    ensures forall j | 0 <= j < k :: Count(path[..j]) >= 0
  {
    if n > 0 && exists j | 0 <= j <= n - 1 :: Count(path[..j]) < 0 {
      k := FirstAbove(path, n - 1);
    } else {
      k := n;
      assert path[..0] == [];
      assert path[..n][..n - 1] == path[..n - 1];
    }
  }

  lemma {:induction false} PlainResolves(base: Names, names: Names)
    ensures Relative(Plain(names)) && Resolve(base, Plain(names)) == base + names && Count(Plain(names)) == |names|
  {
    if names != [] {
      var n := |names| - 1;
      PlainResolves(base, names[..n]);
      assert Plain(names)[..n] == Plain(names[..n]);
      assert (base + names[..n]) + [names[n]] == base + names;
    } else {
      assert base + [] == base;
    }
  }

  /** A cleaned path is accepted again, unchanged. */
  lemma CleanedIsFixed(names: Names)
    ensures Relative(Plain(names)) && NeverAbove(Plain(names)) && Resolve([], Plain(names)) == names
  {
    PlainResolves([], names);
    forall k | 0 <= k <= |names|
      ensures Count(Plain(names)[..k]) >= 0
    {
      assert Plain(names)[..k] == Plain(names[..k]);
      PlainResolves([], names[..k]);
    }
  }

  // ---- Whole archives -----------------------------------------------------------------------

  datatype Ending = Extracted | Slipped | Cancelled

  predicate Safe(path: Path) { Relative(path) && NeverAbove(path) }

  /**
    The entry loop: every destination lies below the target, whatever the entries; the loop stops at the first unsafe
    entry, with nothing written for it.
   */
  method Extract(entries: seq<Path>, target: Names,
                 cancelled: nat -> bool) returns (written: seq<Names>, ending: Ending)
    ensures |written| <= |entries|
    ensures forall i | 0 <= i < |written| ::
              Safe(entries[i]) && written[i] == Resolve(target, entries[i]) && target <= written[i]
    ensures match ending
            case Extracted => |written| == |entries| && forall i | 0 <= i < |entries| :: !cancelled(i)
            case Slipped => |written| < |entries| && !Safe(entries[|written|]) && !cancelled(|written|)
            case Cancelled => |written| < |entries| && cancelled(|written|)
  {
    hide Resolve, Relative, NeverAbove;
    written := [];
    var i := 0;
    while i < |entries|
      invariant 0 <= i == |written| <= |entries|
      invariant forall k | 0 <= k < i ::
                  Safe(entries[k]) && written[k] == Resolve(target, entries[k]) && target <= written[k] && !cancelled(k)
    {
      if cancelled(i) {
        return written, Cancelled;
      }
      var safe := LexicalSafeSubpath(entries[i]);
      if safe.None? {
        return written, Slipped;
      }
      AcceptedStaysBelow(target, entries[i], |entries[i]|);
      written := written + [target + safe.value];
      i := i + 1;
    }
    ending := Extracted;
  }
}

/**
 * Wildcard rules of src/apps/feeds/robots.py: the greedy matcher against section 2.2.3 of RFC 9309.
 *
 * `Glob` is the meaning of a pattern, character by character: `*` stands for any run of characters,
 * and an anchored pattern must use up the path.  `Placed` says the same about the pattern cut at its
 * stars: the parts occur in order, without overlap, the first one at the start.  The matcher never
 * backtracks; the lemmas show that taking the leftmost place for each part loses no match.
 */
module RobotsMatch {

  datatype Rule = Rule(allow: bool, pattern: string, parts: seq<string>, anchored: bool)

  /** `str.split("*")`. */
  function SplitStars(s: string): (parts: seq<string>)
    ensures parts != []
    ensures forall i | 0 <= i < |parts| :: '*' !in parts[i]
  {
    if s == [] then [""]
    else
      var rest := SplitStars(s[1..]);
      if s[0] == '*' then [""] + rest else [[s[0]] + rest[0]] + rest[1..]
  }

  /** A rule as parsed; `norm` is the percent-encoding normalisation applied to patterns and paths. */
  function MakeRule(allow: bool, pattern: string, norm: string -> string): (r: Rule)
    ensures r.parts != []
  {
    var anchored := pattern != [] && pattern[|pattern| - 1] == '$';
    var body := norm(if anchored then pattern[..|pattern| - 1] else pattern);
    Rule(allow, pattern, SplitStars(body), anchored)
  }

  /** The meaning of a pattern. */
  ghost predicate Glob(pattern: string, anchored: bool, path: string)
    decreases |pattern|
  {
    if pattern == [] then anchored ==> path == []
    else if pattern[0] == '*' then
      exists i :: 0 <= i <= |path| && Glob(pattern[1..], anchored, path[i..])
    else path != [] && path[0] == pattern[0] && Glob(pattern[1..], anchored, path[1..])
  }

  ghost predicate OccursAt(path: string, part: string, at: int) {
    0 <= at && at + |part| <= |path| && path[at..at + |part|] == part
  }

  /** Part `k` occurs at `at[k]`: in order, first at 0, and up to the end of the path when anchored. */
  ghost predicate Placement(parts: seq<string>, anchored: bool, path: string, at: seq<int>)
    requires parts != []
  {
    && |at| == |parts| && at[0] == 0
    && (forall k | 0 <= k < |parts| :: OccursAt(path, parts[k], at[k]))
    && (forall k | 0 < k < |parts| :: at[k - 1] + |parts[k - 1]| <= at[k])
    && (anchored ==> at[|at| - 1] + |parts[|parts| - 1]| == |path|)
  }

  ghost predicate Placed(parts: seq<string>, anchored: bool, path: string)
    requires parts != []
  {
    exists at :: Placement(parts, anchored, path, at)
  }

  /** The parts after the first, to be found at or after `pos`. */
  ghost predicate RestMatches(rest: seq<string>, anchored: bool, path: string, pos: int)
    decreases |rest|
  {
    if rest == [] then anchored ==> pos == |path|
    else exists i :: pos <= i && OccursAt(path, rest[0], i) && RestMatches(rest[1..], anchored, path, i + |rest[0]|)
  }

  /** `path.find(part, pos)`: the leftmost occurrence at or after `pos`, or -1. */
  function Find(path: string, part: string, pos: nat): (found: int)
    ensures found == -1 || (pos <= found && OccursAt(path, part, found))
    ensures forall i | pos <= i && OccursAt(path, part, i) :: found != -1 && found <= i
    decreases |path| - pos
  {
    if pos + |part| > |path| then -1
    else if path[pos..pos + |part|] == part then pos
    else Find(path, part, pos + 1)
  }

  /** `_Rule.matches`. */
  method Matches(rule: Rule, path: string) returns (b: bool)
    requires rule.parts != []
    ensures b <==> Placed(rule.parts, rule.anchored, path)
  {
    var first, rest := rule.parts[0], rule.parts[1..];
    PlacedIsRest(rule.parts, rule.anchored, path);
    if !(first <= path) {
      return false;
    }
    assert path[0..|first|] == first;
    if rest == [] {
      return !rule.anchored || path == first;
    }
    var pos := |first|;
    var middle := if rule.anchored then rest[..|rest| - 1] else rest;
    var k := 0;
    while k < |middle|
      invariant 0 <= k <= |middle| && 0 <= pos <= |path|
      invariant Placed(rule.parts, rule.anchored, path) <==> RestMatches(rest[k..], rule.anchored, path, pos)
    {
      var found := Find(path, middle[k], pos);
      assert rest[k..][0] == middle[k] && rest[k..][1..] == rest[k + 1..];
      if found < 0 {
        return false;
      }
      LeftmostIsEnough(rest[k..], rule.anchored, path, pos, found);
      pos := found + |middle[k]|;
      k := k + 1;
    }
    if !rule.anchored {
      return true;
    }
    var last := rest[|rest| - 1];
    assert rest[k..] == [last];
    LastMatches(last, path, pos);
    return |last| <= |path| && path[|path| - |last|..] == last && |path| - |last| >= pos;
  }

  /** A match from a later position is a match from an earlier one. */
  lemma {:induction false} EarlierIsNoWorse(rest: seq<string>, path: string, anchored: bool, pos: int, pos': int)
    requires pos <= pos' && rest != [] && RestMatches(rest, anchored, path, pos')
    ensures RestMatches(rest, anchored, path, pos)
  {
  }

  /** Putting the next part at its leftmost place loses no match. */
  lemma LeftmostIsEnough(rest: seq<string>, anchored: bool, path: string, pos: int, found: int)
    requires rest != [] && 0 <= pos <= found && OccursAt(path, rest[0], found)
    requires forall i | pos <= i && OccursAt(path, rest[0], i) :: found <= i
    requires anchored ==> |rest| > 1
    ensures RestMatches(rest, anchored, path, pos) <==> RestMatches(rest[1..], anchored, path, found + |rest[0]|)
  {
    if RestMatches(rest, anchored, path, pos) {
      var i :| pos <= i && OccursAt(path, rest[0], i) && RestMatches(rest[1..], anchored, path, i + |rest[0]|);
      if |rest| > 1 {
        EarlierIsNoWorse(rest[1..], path, anchored, found + |rest[0]|, i + |rest[0]|);
      }
    }
  }

  lemma LastMatches(last: string, path: string, pos: int)
    requires 0 <= pos
    ensures RestMatches([last], true, path, pos) <==>
            (|last| <= |path| && path[|path| - |last|..] == last && |path| - |last| >= pos)
  {
    var i := |path| - |last|;
    var rest := [last];
    assert rest[1..] == [] && RestMatches(rest[1..], true, path, |path|);
    if 0 <= i {
      assert path[i..i + |last|] == path[i..];
      if path[i..] == last && i >= pos {
        assert OccursAt(path, rest[0], i) && RestMatches(rest[1..], true, path, i + |rest[0]|);
      }
    }
  }

  // Placements and the part-by-part predicate are the same thing.

  lemma PlacedIsRest(parts: seq<string>, anchored: bool, path: string)
    requires parts != []
    ensures Placed(parts, anchored, path) <==>
            (OccursAt(path, parts[0], 0) && RestMatches(parts[1..], anchored, path, |parts[0]|))
  {
    if Placed(parts, anchored, path) {
      var at :| Placement(parts, anchored, path, at);
      RestFromPlacement(parts, anchored, path, at, 1);
    }
    if OccursAt(path, parts[0], 0) && RestMatches(parts[1..], anchored, path, |parts[0]|) {
      var at := PlacementFromRest(parts, anchored, path, [0]);
    }
  }

  lemma {:induction false} RestFromPlacement(parts: seq<string>, anchored: bool, path: string, at: seq<int>, k: nat)
    requires parts != [] && Placement(parts, anchored, path, at) && 1 <= k <= |parts|
    ensures RestMatches(parts[k..], anchored, path, at[k - 1] + |parts[k - 1]|)
    decreases |parts| - k
  {
    if k < |parts| {
      RestFromPlacement(parts, anchored, path, at, k + 1);
      assert parts[k..][0] == parts[k] && parts[k..][1..] == parts[k + 1..];
      assert OccursAt(path, parts[k..][0], at[k]);
    }
  }

  ghost predicate PartialPlacement(parts: seq<string>, path: string, at: seq<int>) {
    && 1 <= |at| <= |parts| && at[0] == 0
    && (forall k | 0 <= k < |at| :: OccursAt(path, parts[k], at[k]))
    && (forall k | 0 < k < |at| :: at[k - 1] + |parts[k - 1]| <= at[k])
  }

  lemma {:induction false} PlacementFromRest(parts: seq<string>, anchored: bool, path: string, at: seq<int>)
    returns (full: seq<int>)
    requires PartialPlacement(parts, path, at)
    requires RestMatches(parts[|at|..], anchored, path, at[|at| - 1] + |parts[|at| - 1]|)
    ensures Placement(parts, anchored, path, full)
    decreases |parts| - |at|
  {
    var k := |at|;
    if k == |parts| {
      full := at;
    } else {
      var rest := parts[k..];
      assert rest[0] == parts[k] && rest[1..] == parts[k + 1..];
      var i :| at[k - 1] + |parts[k - 1]| <= i && OccursAt(path, rest[0], i) &&
          RestMatches(rest[1..], anchored, path, i + |rest[0]|);
      full := PlacementFromRest(parts, anchored, path, at + [i]);
    }
  }

  // From the parts back to the pattern they were cut from.

  /** The head part as a prefix, the others as parts to find: the shape `Glob` unfolds into. */
  ghost predicate PartsMatch(parts: seq<string>, anchored: bool, path: string)
    requires parts != []
  {
    parts[0] <= path && RestMatches(parts[1..], anchored, path, |parts[0]|)
  }

  /** Positions shift with the path. */
  lemma {:induction false} RestShift(rest: seq<string>, anchored: bool, path: string, pos: int, cut: int)
    requires 0 <= cut <= pos && cut <= |path|
    ensures RestMatches(rest, anchored, path, pos) <==> RestMatches(rest, anchored, path[cut..], pos - cut)
    decreases |rest|
  {
    if rest != [] {
      forall i: int
        ensures pos <= i ==> (OccursAt(path, rest[0], i) <==> OccursAt(path[cut..], rest[0], i - cut))
        ensures pos <= i ==> (RestMatches(rest[1..], anchored, path, i + |rest[0]|) <==>
            RestMatches(rest[1..], anchored, path[cut..], i - cut + |rest[0]|))
      {
        if pos <= i {
          if i + |rest[0]| <= |path| {
            assert path[cut..][i - cut..i - cut + |rest[0]|] == path[i..i + |rest[0]|];
          }
          RestShift(rest[1..], anchored, path, i + |rest[0]|, cut);
        }
      }
      if RestMatches(rest, anchored, path, pos) {
        var i :| pos <= i && OccursAt(path, rest[0], i) && RestMatches(rest[1..], anchored, path, i + |rest[0]|);
        assert OccursAt(path[cut..], rest[0], i - cut);
      }
      if RestMatches(rest, anchored, path[cut..], pos - cut) {
        var j :| pos - cut <= j && OccursAt(path[cut..], rest[0], j) &&
            RestMatches(rest[1..], anchored, path[cut..], j + |rest[0]|);
        assert OccursAt(path, rest[0], j + cut);
      }
    }
  }

  /** A part list matches from position `i` on exactly when its head occurs there and the rest follows. */
  lemma PartsMatchAt(parts: seq<string>, anchored: bool, path: string, i: int)
    requires parts != [] && 0 <= i <= |path|
    ensures PartsMatch(parts, anchored, path[i..]) <==>
            (OccursAt(path, parts[0], i) && RestMatches(parts[1..], anchored, path, i + |parts[0]|))
  {
    RestShift(parts[1..], anchored, path, i + |parts[0]|, i);
    if i + |parts[0]| <= |path| {
      assert path[i..][..|parts[0]|] == path[i..i + |parts[0]|];
    }
  }

  lemma {:induction false} GlobStar(pattern: string, anchored: bool, path: string)
    requires pattern != [] && pattern[0] == '*'
    ensures Glob(pattern, anchored, path) <==> PartsMatch(SplitStars(pattern), anchored, path)
    decreases |pattern|, 0
  {
    var rest := SplitStars(pattern[1..]);
    assert SplitStars(pattern)[1..] == rest;
    if Glob(pattern, anchored, path) {
      var i :| 0 <= i <= |path| && Glob(pattern[1..], anchored, path[i..]);
      GlobIsParts(pattern[1..], anchored, path[i..]);
      PartsMatchAt(rest, anchored, path, i);
    }
    if PartsMatch(SplitStars(pattern), anchored, path) {
      var i :| 0 <= i && OccursAt(path, rest[0], i) && RestMatches(rest[1..], anchored, path, i + |rest[0]|);
      PartsMatchAt(rest, anchored, path, i);
      GlobIsParts(pattern[1..], anchored, path[i..]);
    }
  }

  lemma {:induction false} GlobIsParts(pattern: string, anchored: bool, path: string)
    ensures Glob(pattern, anchored, path) <==> PartsMatch(SplitStars(pattern), anchored, path)
    decreases |pattern|, 1
  {
    var parts := SplitStars(pattern);
    if pattern == [] {
      assert parts[1..] == [];
    } else if pattern[0] == '*' {
      GlobStar(pattern, anchored, path);
    } else {
      var rest := SplitStars(pattern[1..]);
      assert parts[1..] == rest[1..] && parts[0] == [pattern[0]] + rest[0];
      if path != [] && path[0] == pattern[0] {
        GlobIsParts(pattern[1..], anchored, path[1..]);
        RestShift(rest[1..], anchored, path, |parts[0]|, 1);
        assert parts[0] <= path <==> rest[0] <= path[1..];
      }
    }
  }

  /** A pattern matches exactly when its parts can be placed. */
  lemma PlacedIsGlob(pattern: string, anchored: bool, path: string)
    ensures Placed(SplitStars(pattern), anchored, path) <==> Glob(pattern, anchored, path)
  {
    var parts := SplitStars(pattern);
    PlacedIsRest(parts, anchored, path);
    GlobIsParts(pattern, anchored, path);
    if |parts[0]| <= |path| {
      assert path[0..|parts[0]|] == path[..|parts[0]|];
    }
  }

  ghost function PatternBody(pattern: string): string {
    if pattern != [] && pattern[|pattern| - 1] == '$' then pattern[..|pattern| - 1] else pattern
  }

  /** From the text of a rule line to its meaning on a path. */
  ghost predicate PatternMatches(pattern: string, norm: string -> string, path: string) {
    Glob(norm(PatternBody(pattern)), pattern != PatternBody(pattern), path)
  }

  lemma RuleMeansItsPattern(allow: bool, pattern: string, norm: string -> string, path: string)
    ensures var r := MakeRule(allow, pattern, norm);
            Placed(r.parts, r.anchored, path) <==> PatternMatches(pattern, norm, path)
  {
    var r := MakeRule(allow, pattern, norm);
    PlacedIsGlob(norm(PatternBody(pattern)), r.anchored, path);
  }
}

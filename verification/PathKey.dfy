/**
 * `_path_key` of src/apps/subscriptions/targets.py: one spelling per webhook path.  The reference is
 * remove_dot_segments of section 5.2.4 of RFC 3986.
 */
module PathKey {
  import opened Prelude
  import opened PercentText

  function Slashes(s: Text): (r: Text)
    ensures |r| == |s| && forall i | 0 <= i < |s| :: r[i] == if s[i] == '\\' then '/' else s[i]
  {
    seq(|s|, i requires 0 <= i < |s| => if s[i] == '\\' then '/' else s[i])
  }

  /** Remove every `;` with what follows it in its segment. */
  function StripParams(s: Text): (r: Text)
    ensures |r| <= |s| && ';' !in r && forall c | c in r :: c in s
    ensures s != [] && s[0] == '/' ==> r != [] && r[0] == '/'
    decreases |s|
  {
    if s == [] then []
    else if s[0] == ';' then StripParams(s[|Before(s, '/')|..])
    else [s[0]] + StripParams(s[1..])
  }

  /** Repeated slashes become one. */
  function Collapse(s: Text): (r: Text)
    ensures |r| <= |s| && forall c | c in r :: c in s
    ensures s != [] ==> r != [] && r[0] == s[0]
  {
    if |s| >= 2 && s[0] == '/' && s[1] == '/' then Collapse(s[1..])
    else if s == [] then []
    else [s[0]] + Collapse(s[1..])
  }

  ghost predicate SingleSlashes(s: Text) {
    forall i | 0 <= i < |s| - 1 :: !(s[i] == '/' && s[i + 1] == '/')
  }

  /** The path a server sees: decoded once, no params, single slashes. */
  function Prepared(path: Text): Text { Collapse(['/'] + StripParams(Slashes(Unquote(path)))) }

  // ---------------------------------------------------------------------------------------------
  // Segments
  // ---------------------------------------------------------------------------------------------

  /** "/a/b" from its segments. */
  function PathOf(segs: seq<Text>): (r: Text) {
    if segs == [] then [] else ['/'] + segs[0] + PathOf(segs[1..])
  }

  function SegmentsOf(s: Text): (segs: seq<Text>)
    requires s != [] && s[0] == '/'
  {
    Split(s[1..], '/')
  }

  function Pop(stack: seq<Text>): seq<Text> { if stack == [] then [] else stack[..|stack| - 1] }

  predicate Dotted(seg: Text) { seg == "" || seg == "." || seg == ".." }

  /** The loop of `posixpath.normpath` on an absolute path: `stack` is what is kept so far. */
  function Resolve(segs: seq<Text>, stack: seq<Text>): seq<Text>
    decreases |segs|
  {
    if segs == [] then stack
    else if segs[0] == "" || segs[0] == "." then Resolve(segs[1..], stack)
    else if segs[0] == ".." then Resolve(segs[1..], Pop(stack))
    else Resolve(segs[1..], stack + [segs[0]])
  }

  /** `posixpath.normpath` of an absolute path with a single leading slash. */
  function NormPath(s: Text): Text
    requires s != [] && s[0] == '/'
  {
    ['/'] + Join(Resolve(SegmentsOf(s), []), '/')
  }

  function PathKeyOf(path: Text): Text { Lower(NormPath(Prepared(path))) }

  lemma {:induction false} JoinIsPath(segs: seq<Text>)
    requires segs != []
    ensures ['/'] + Join(segs, '/') == PathOf(segs)
  {
    if |segs| == 1 {
      assert PathOf(segs[1..]) == [];
    } else {
      JoinIsPath(segs[1..]);
      assert ['/'] + (segs[0] + ['/'] + Join(segs[1..], '/')) == ['/'] + segs[0] + (['/'] + Join(segs[1..], '/'));
    }
  }

  lemma PathOfSegments(s: Text)
    requires s != [] && s[0] == '/'
    ensures PathOf(SegmentsOf(s)) == s
  {
    JoinSplit(s[1..], '/');
    JoinIsPath(SegmentsOf(s));
  }

  lemma {:induction false} PathOfSnoc(segs: seq<Text>, seg: Text)
    ensures PathOf(segs + [seg]) == PathOf(segs) + (['/'] + seg)
  {
    if segs == [] {
      assert segs + [seg] == [seg] && [seg][1..] == [];
    } else {
      assert (segs + [seg])[1..] == segs[1..] + [seg];
      PathOfSnoc(segs[1..], seg);
    }
  }

  // ---------------------------------------------------------------------------------------------
  // remove_dot_segments
  // ---------------------------------------------------------------------------------------------

  /** Remove the last segment and its slash. */
  function DropLast(out: Text): Text
    decreases |out|
  {
    if out == [] then [] else if out[|out| - 1] == '/' then out[..|out| - 1] else DropLast(out[..|out| - 1])
  }

  /** The first segment, with its leading slash if it has one. */
  function FirstSegment(s: Text): (r: Text)
    requires s != []
    ensures r != [] && |r| <= |s| && r == s[..|r|]
  {
    [s[0]] + Before(s[1..], '/')
  }

  /** Section 5.2.4 of RFC 3986, rules A to E. */
  function RemoveDots(input: Text, out: Text): Text
    decreases |input|, if input != [] && input[0] == '/' && input != "/" then 1 else 0
  {
    if input == [] then out
    else if "../" <= input then RemoveDots(input[3..], out)
    else if "./" <= input then RemoveDots(input[2..], out)
    else if "/./" <= input then RemoveDots(input[2..], out)
    else if input == "/." then RemoveDots("/", out)
    else if "/../" <= input then RemoveDots(input[3..], DropLast(out))
    else if input == "/.." then RemoveDots("/", DropLast(out))
    else if input == "." || input == ".." then out
    else RemoveDots(input[|FirstSegment(input)|..], out + FirstSegment(input))
  }

  function TrimSlash(s: Text): Text {
    if |s| > 1 && s[|s| - 1] == '/' then s[..|s| - 1] else s
  }

  lemma {:induction false} DropLastSegment(out: Text, seg: Text)
    requires '/' !in seg
    ensures DropLast(out + ['/'] + seg) == out
    decreases |seg|
  {
    var s := out + ['/'] + seg;
    if seg == [] {
      assert s[..|s| - 1] == out;
    } else {
      var k := |seg| - 1;
      assert s[|s| - 1] == seg[k] && s[..|s| - 1] == out + ['/'] + seg[..k];
      DropLastSegment(out, seg[..k]);
    }
  }

  lemma DropLastOfPath(stack: seq<Text>)
    requires forall p | p in stack :: '/' !in p
    ensures DropLast(PathOf(stack)) == PathOf(Pop(stack))
  {
    if stack != [] {
      var n := |stack| - 1;
      assert stack == stack[..n] + [stack[n]];
      PathOfSnoc(stack[..n], stack[n]);
      DropLastSegment(PathOf(stack[..n]), stack[n]);
      assert PathOf(stack) == PathOf(stack[..n]) + ['/'] + stack[n];
    }
  }

  /** No segment but the last may be empty: the form of a path with single slashes. */
  ghost predicate Clean(segs: seq<Text>) {
    && (forall p | p in segs :: '/' !in p)
    && (forall i | 0 <= i < |segs| - 1 :: segs[i] != "")
  }

  /** What follows a segment: nothing, or the slash of the next one. */
  ghost predicate Follows(rest: Text) { rest == [] || rest[0] == '/' }

  lemma RemoveDot(rest: Text, out: Text)
    requires Follows(rest)
    ensures RemoveDots("/." + rest, out) == RemoveDots(if rest == [] then "/" else rest, out)
  {
    var input := "/." + rest;
    assert input[0] == '/' && "../"[0] == '.' && "./"[0] == '.';
    if rest == [] {
      assert input == "/.";
    } else {
      assert "/./" <= input && input[2..] == rest;
    }
  }

  lemma RemoveDotDot(rest: Text, out: Text)
    requires Follows(rest)
    ensures RemoveDots("/.." + rest, out) == RemoveDots(if rest == [] then "/" else rest, DropLast(out))
  {
    var input := "/.." + rest;
    assert input[0] == '/' && "../"[0] == '.' && "./"[0] == '.';
    assert input[2] == '.' && |input| >= 3 && "/./"[2] == '/';
    if rest == [] {
      assert input == "/..";
    } else {
      assert "/../" <= input && input[3..] == rest;
    }
  }

  /** An ordinary segment triggers none of the dot rules. */
  lemma PlainSegment(seg: Text, rest: Text)
    requires '/' !in seg && seg != "." && seg != ".." && Follows(rest) && (seg == [] ==> rest == [])
    ensures var input := ['/'] + seg + rest;
            !("/./" <= input) && input != "/." && !("/../" <= input) && input != "/.."
  {
    var input := ['/'] + seg + rest;
    assert forall i | 0 <= i < |seg| :: input[i + 1] == seg[i];
    assert |seg| >= 1 ==> seg[0] in seg;
    assert |seg| >= 2 ==> seg[1] in seg;
    assert |seg| >= 3 ==> seg[2] in seg;
    assert "/./"[1] == '.' && "/./"[2] == '/' && "/../"[1] == '.' && "/../"[2] == '.' && "/../"[3] == '/';
  }

  lemma RemovePlain(seg: Text, rest: Text, out: Text)
    requires '/' !in seg && seg != "." && seg != ".." && Follows(rest) && (seg == [] ==> rest == [])
    ensures RemoveDots(['/'] + seg + rest, out) == RemoveDots(rest, out + (['/'] + seg))
  {
    var input := ['/'] + seg + rest;
    PlainSegment(seg, rest);
    FirstIs(seg, rest);
    assert input[|['/'] + seg|..] == rest;
  }

  lemma FirstIs(seg: Text, rest: Text)
    requires '/' !in seg && Follows(rest)
    ensures FirstSegment(['/'] + seg + rest) == ['/'] + seg
  {
    assert (['/'] + seg + rest)[1..] == seg + rest;
    if rest == [] {
      assert seg + rest == seg;
      BeforeNone(seg, '/');
    } else {
      assert seg + rest == seg + ['/'] + rest[1..];
      BeforeFirst(seg, '/', rest[1..]);
    }
  }

  lemma RemoveLast(seg: Text, stack: seq<Text>)
    requires '/' !in seg && forall p | p in stack :: '/' !in p
    ensures RemoveDots(['/'] + seg, PathOf(stack)) ==
        PathOf(Resolve([seg], stack)) + (if Dotted(seg) then ['/'] else [])
  {
    var out := PathOf(stack);
    assert [seg][1..] == [];
    assert ['/'] + seg == ['/'] + seg + [];
    if seg == "." {
      RemoveDot([], out);
      assert "/." + [] == ['/'] + seg;
    } else if seg == ".." {
      RemoveDotDot([], out);
      assert "/.." + [] == ['/'] + seg;
      DropLastOfPath(stack);
    } else {
      RemovePlain(seg, [], out);
      PathOfSnoc(stack, seg);
    }
  }

  /** On clean segments the string algorithm is the stack algorithm, up to a trailing slash. */
  lemma {:induction false} RemoveDotsIsResolve(segs: seq<Text>, stack: seq<Text>)
    requires Clean(segs) && segs != [] && forall p | p in stack :: '/' !in p
    ensures RemoveDots(PathOf(segs), PathOf(stack)) ==
            PathOf(Resolve(segs, stack)) + (if Dotted(segs[|segs| - 1]) then ['/'] else [])
    decreases |segs|
  {
    var seg, rest := segs[0], PathOf(segs[1..]);
    if |segs| == 1 {
      assert segs == [seg] && PathOf(segs) == ['/'] + seg;
      RemoveLast(seg, stack);
    } else {
      assert Clean(segs[1..]) && rest[0] == '/';
      if seg == "." {
        assert PathOf(segs) == "/." + rest;
        RemoveDot(rest, PathOf(stack));
        RemoveDotsIsResolve(segs[1..], stack);
      } else if seg == ".." {
        assert PathOf(segs) == "/.." + rest;
        RemoveDotDot(rest, PathOf(stack));
        DropLastOfPath(stack);
        RemoveDotsIsResolve(segs[1..], Pop(stack));
      } else {
        RemovePlain(seg, rest, PathOf(stack));
        PathOfSnoc(stack, seg);
        RemoveDotsIsResolve(segs[1..], stack + [seg]);
      }
    }
  }

  lemma {:induction false} CollapseSingle(s: Text)
    ensures SingleSlashes(Collapse(s))
    decreases |s|
  {
    if s != [] {
      CollapseSingle(s[1..]);
    }
  }

  /** A path with single slashes has no empty segment before its last. */
  lemma {:induction false} CleanSegments(s: Text)
    requires SingleSlashes(['/'] + s)
    ensures Clean(Split(s, '/'))
    decreases |s|
  {
    var head := Before(s, '/');
    if |head| < |s| {
      var rest := s[|head| + 1..];
      assert ['/'] + rest == (['/'] + s)[|head| + 1..];
      CleanSegments(rest);
      assert head != [] by {
        assert (['/'] + s)[0] == '/' && (['/'] + s)[1] == s[0];
      }
    }
  }

  ghost predicate Good(seg: Text) { !Dotted(seg) && '/' !in seg }

  lemma {:induction false} ResolveGood(segs: seq<Text>, stack: seq<Text>)
    requires (forall p | p in segs :: '/' !in p) && forall p | p in stack :: Good(p)
    ensures forall p | p in Resolve(segs, stack) :: Good(p)
    decreases |segs|
  {
    if segs != [] {
      if segs[0] == "" || segs[0] == "." {
        ResolveGood(segs[1..], stack);
      } else if segs[0] == ".." {
        ResolveGood(segs[1..], Pop(stack));
      } else {
        ResolveGood(segs[1..], stack + [segs[0]]);
      }
    }
  }

  lemma {:induction false} ResolveEndsPlain(segs: seq<Text>, stack: seq<Text>)
    requires segs != [] && !Dotted(segs[|segs| - 1])
    ensures Resolve(segs, stack) != []
    decreases |segs|
  {
    if |segs| > 1 {
      var stack' := if segs[0] == "" || segs[0] == "." then stack else if segs[0] == ".." then Pop(stack)
          else stack + [segs[0]];
      ResolveEndsPlain(segs[1..], stack');
    } else {
      assert segs[1..] == [];
    }
  }

  lemma EndsWithoutSlash(segs: seq<Text>)
    requires segs != [] && forall p | p in segs :: Good(p)
    ensures |PathOf(segs)| > 1 && PathOf(segs)[|PathOf(segs)| - 1] != '/'
  {
    var n := |segs| - 1;
    assert segs == segs[..n] + [segs[n]];
    PathOfSnoc(segs[..n], segs[n]);
    assert Good(segs[n]) && segs[n] != [];
    assert segs[n][|segs[n]| - 1] in segs[n];
  }

  /** `normpath` agrees with the standard up to a trailing slash. */
  lemma {:induction false} NormPathIsRemoveDots(s: Text)
    requires s != [] && s[0] == '/' && SingleSlashes(s)
    ensures NormPath(s) == TrimSlash(RemoveDots(s, []))
  {
    var segs := SegmentsOf(s);
    var kept := Resolve(segs, []);
    assert s == ['/'] + s[1..];
    CleanSegments(s[1..]);
    PathOfSegments(s);
    assert PathOf([]) == [];
    RemoveDotsIsResolve(segs, []);
    ResolveGood(segs, []);
    if kept == [] {
      if !Dotted(segs[|segs| - 1]) {
        ResolveEndsPlain(segs, []);
      }
    } else {
      JoinIsPath(kept);
      EndsWithoutSlash(kept);
      assert (PathOf(kept) + ['/'])[..|PathOf(kept)|] == PathOf(kept);
    }
  }

  /** The key is the standard's resolution of the prepared path, without trailing slash or case. */
  lemma PathKeyIsStandard(path: Text)
    ensures PathKeyOf(path) == Lower(TrimSlash(RemoveDots(Prepared(path), [])))
  {
    CollapseSingle(['/'] + StripParams(Slashes(Unquote(path))));
    NormPathIsRemoveDots(Prepared(path));
  }

  // ---------------------------------------------------------------------------------------------
  // Normal form
  // ---------------------------------------------------------------------------------------------

  /** A segment of a key: not empty, not a dot segment, no separator, no upper case. */
  ghost predicate KeySegment(seg: Text) {
    Good(seg) && ';' !in seg && '\\' !in seg && Lower(seg) == seg
  }

  ghost predicate NormalKey(k: Text) {
    k == "/" || exists segs :: segs != [] && k == PathOf(segs) && forall p | p in segs :: KeySegment(p)
  }

  lemma {:induction false} ResolveKeeps(segs: seq<Text>, stack: seq<Text>)
    ensures forall p | p in Resolve(segs, stack) :: p in segs || p in stack
    decreases |segs|
  {
    if segs != [] {
      if segs[0] == "" || segs[0] == "." {
        ResolveKeeps(segs[1..], stack);
      } else if segs[0] == ".." {
        ResolveKeeps(segs[1..], Pop(stack));
      } else {
        ResolveKeeps(segs[1..], stack + [segs[0]]);
      }
    }
  }

  lemma {:induction false} SplitWithout(s: Text, sep: char, c: char)
    requires c !in s
    ensures forall p | p in Split(s, sep) :: c !in p
    decreases |s|
  {
    var head := Before(s, sep);
    if |head| < |s| {
      SplitWithout(s[|head| + 1..], sep, c);
    }
  }

  function LowerAll(segs: seq<Text>): (r: seq<Text>)
    ensures |r| == |segs| && forall i | 0 <= i < |segs| :: r[i] == Lower(segs[i])
  {
    seq(|segs|, i requires 0 <= i < |segs| => Lower(segs[i]))
  }

  lemma {:induction false} LowerPath(segs: seq<Text>)
    ensures Lower(PathOf(segs)) == PathOf(LowerAll(segs))
  {
    if segs != [] {
      LowerPath(segs[1..]);
      assert LowerAll(segs)[1..] == LowerAll(segs[1..]);
    }
  }

  lemma LowerSegment(p: Text)
    requires Good(p) && ';' !in p && '\\' !in p
    ensures KeySegment(Lower(p))
  {
  }

  lemma PreparedPlain(path: Text)
    ensures var s := Prepared(path); s != [] && s[0] == '/' && ';' !in s && '\\' !in s
  {
    var a := Slashes(Unquote(path));
    assert '\\' !in a;
    assert ';' !in StripParams(a) && '\\' !in StripParams(a);
  }

  /** Every key is in normal form. */
  lemma PathKeyIsNormal(path: Text)
    ensures NormalKey(PathKeyOf(path))
  {
    var s := Prepared(path);
    PreparedPlain(path);
    var segs := SegmentsOf(s);
    var kept := Resolve(segs, []);
    SplitWithout(s[1..], '/', ';');
    SplitWithout(s[1..], '/', '\\');
    ResolveGood(segs, []);
    ResolveKeeps(segs, []);
    if kept == [] {
      assert NormPath(s) == "/";
    } else {
      JoinIsPath(kept);
      LowerPath(kept);
      forall p | p in LowerAll(kept) ensures KeySegment(p) {
        var i :| 0 <= i < |kept| && p == Lower(kept[i]);
        LowerSegment(kept[i]);
      }
    }
  }

  lemma {:induction false} StripNothing(s: Text)
    requires ';' !in s
    ensures StripParams(s) == s
  {
    if s != [] { StripNothing(s[1..]); }
  }

  lemma {:induction false} CollapseNothing(s: Text)
    requires SingleSlashes(s)
    ensures Collapse(s) == s
  {
    if s != [] {
      var t := s[1..];
      forall i | 0 <= i < |t| - 1 ensures !(t[i] == '/' && t[i + 1] == '/') {
        assert t[i] == s[i + 1] && t[i + 1] == s[i + 2];
      }
      CollapseNothing(s[1..]);
    }
  }

  lemma {:induction false} ResolveNothing(segs: seq<Text>, stack: seq<Text>)
    requires forall p | p in segs :: Good(p)
    ensures Resolve(segs, stack) == stack + segs
    decreases |segs|
  {
    if segs != [] {
      assert Good(segs[0]);
      ResolveNothing(segs[1..], stack + [segs[0]]);
    }
  }

  lemma {:induction false} PathOfWithout(segs: seq<Text>, c: char)
    requires c != '/' && forall p | p in segs :: c !in p
    ensures c !in PathOf(segs)
  {
    if segs != [] { PathOfWithout(segs[1..], c); }
  }

  lemma {:induction false} PathOfSingle(segs: seq<Text>)
    requires forall p | p in segs :: Good(p)
    ensures SingleSlashes(PathOf(segs))
  {
    if segs != [] {
      var rest := PathOf(segs[1..]);
      PathOfSingle(segs[1..]);
      assert Good(segs[0]) && segs[0] != [];
      var s := PathOf(segs);
      var n := |segs[0]| + 1;
      assert forall i | 1 <= i < n :: s[i] == segs[0][i - 1] && segs[0][i - 1] in segs[0];
      assert forall i | 0 <= i < |rest| :: s[n + i] == rest[i];
      forall i | 0 <= i < |s| - 1 ensures !(s[i] == '/' && s[i + 1] == '/') {
        if i >= n {
          assert s[i] == rest[i - n] && s[i + 1] == rest[i - n + 1];
        }
      }
    }
  }

  /** Keys without an escape resolve to themselves. */
  lemma NormalKeyIsFixed(k: Text, segs: seq<Text>)
    requires segs != [] && k == PathOf(segs) && (forall p | p in segs :: KeySegment(p)) && !HasEscape(k)
    ensures PathKeyOf(k) == k
  {
    assert forall p | p in segs :: Good(p) && ';' !in p && '\\' !in p;
    PreparedIsFixed(k, segs);
    NormPathIsFixed(segs);
    LowerPath(segs);
    assert LowerAll(segs) == segs by {
      forall i | 0 <= i < |segs| ensures Lower(segs[i]) == segs[i] {
        assert KeySegment(segs[i]);
      }
    }
  }

  lemma PreparedIsFixed(k: Text, segs: seq<Text>)
    requires segs != [] && k == PathOf(segs) && !HasEscape(k)
    requires forall p | p in segs :: Good(p) && ';' !in p && '\\' !in p
    ensures Prepared(k) == k
  {
    UnquoteWithoutEscape(k);
    PathOfWithout(segs, '\\');
    PathOfWithout(segs, ';');
    assert Slashes(k) == k;
    StripNothing(k);
    PathOfSingle(segs);
    CollapseNothing(k);
    assert (['/'] + k)[1..] == k;
  }

  lemma NormPathIsFixed(segs: seq<Text>)
    requires segs != [] && forall p | p in segs :: Good(p)
    ensures NormPath(PathOf(segs)) == PathOf(segs)
  {
    JoinIsPath(segs);
    assert PathOf(segs)[1..] == Join(segs, '/');
    SplitJoin(segs, '/');
    ResolveNothing(segs, []);
    assert [] + segs == segs;
  }

  lemma {:induction false} ResolveShrinks(segs: seq<Text>, stack: seq<Text>)
    ensures |PathOf(Resolve(segs, stack))| <= |PathOf(stack)| + |PathOf(segs)|
    decreases |segs|
  {
    if segs != [] {
      if segs[0] == "" || segs[0] == "." {
        ResolveShrinks(segs[1..], stack);
      } else if segs[0] == ".." {
        ResolveShrinks(segs[1..], Pop(stack));
        if stack != [] {
          var n := |stack| - 1;
          assert stack == stack[..n] + [stack[n]];
          PathOfSnoc(stack[..n], stack[n]);
        }
      } else {
        ResolveShrinks(segs[1..], stack + [segs[0]]);
        PathOfSnoc(stack, segs[0]);
      }
    }
  }

  lemma NormPathShrinks(s: Text)
    requires s != [] && s[0] == '/'
    ensures |NormPath(s)| <= |s|
  {
    var kept := Resolve(SegmentsOf(s), []);
    ResolveShrinks(SegmentsOf(s), []);
    PathOfSegments(s);
    if kept != [] {
      JoinIsPath(kept);
    }
  }

  lemma {:induction false} PathKeyShrinks(k: Text)
    requires k != [] && k[0] == '/'
    ensures |PathKeyOf(k)| <= |Unquote(k)|
  {
    var x := StripParams(Slashes(Unquote(k)));
    assert Unquote(k)[0] == '/';
    assert (['/'] + x)[1..] == x;
    NormPathShrinks(Prepared(k));
  }

  /** A key is stable exactly when its text holds no further escape: the decoding is done once. */
  lemma PathKeyTwice(path: Text)
    ensures var k := PathKeyOf(path); PathKeyOf(k) == k <==> !HasEscape(k)
  {
    var k := PathKeyOf(path);
    PathKeyIsNormal(path);
    if HasEscape(k) {
      var i :| 0 <= i < |k| && Escape(k[i..]);
      UnquoteShrinks(k, i);
      PathKeyShrinks(k);
    } else if k == "/" {
      RootIsFixed();
    } else {
      var segs :| segs != [] && k == PathOf(segs) && forall p | p in segs :: KeySegment(p);
      NormalKeyIsFixed(k, segs);
    }
  }

  lemma RootIsFixed()
    ensures PathKeyOf("/") == "/"
  {
  }

  // ---------------------------------------------------------------------------------------------
  // Spellings that share a key
  // ---------------------------------------------------------------------------------------------

  lemma {:induction false} StripConcat(a: Text, rest: Text)
    requires ';' !in a
    ensures StripParams(a + rest) == a + StripParams(rest)
    decreases |a|
  {
    if a == [] {
      assert a + rest == rest;
    } else {
      assert (a + rest)[1..] == a[1..] + rest;
      StripConcat(a[1..], rest);
    }
  }

  lemma {:induction false} StripOne(params: Text, rest: Text)
    requires '/' !in params && Follows(rest)
    ensures StripParams([';'] + params + rest) == StripParams(rest)
  {
    var s := [';'] + params + rest;
    if rest == [] {
      assert s == [';'] + params;
      BeforeNone(s, '/');
      assert s[|s|..] == rest;
    } else {
      assert s == ([';'] + params) + ['/'] + rest[1..];
      BeforeFirst([';'] + params, '/', rest[1..]);
      assert s[|[';'] + params|..] == rest;
    }
  }

  lemma NoPercent(s: Text)
    requires '%' !in s
    ensures Unquote(s) == s
  {
    assert forall i | 0 <= i < |s| :: s[i..][0] == s[i] && s[i] in s;
    UnquoteWithoutEscape(s);
  }

  /** The params of a segment do not count, wherever the segment stands. */
  lemma {:induction false} ParamsDoNotCount(a: Text, params: Text, rest: Text)
    requires ';' !in a && '/' !in params && Follows(rest)
    requires '%' !in a && '%' !in params && '%' !in rest && '\\' !in a && '\\' !in params && '\\' !in rest
    ensures PathKeyOf(a + ([';'] + params + rest)) == PathKeyOf(a + rest)
  {
    var long, short := a + ([';'] + params + rest), a + rest;
    NoPercent(long);
    NoPercent(short);
    assert Slashes(long) == long && Slashes(short) == short;
    StripConcat(a, [';'] + params + rest);
    StripOne(params, rest);
    StripConcat(a, rest);
  }

  lemma {:induction false} SamePrepared(x: Text, y: Text)
    requires Slashes(Unquote(x)) == Slashes(Unquote(y))
    ensures PathKeyOf(x) == PathKeyOf(y)
  {
  }

  /** A backslash is a slash. */
  lemma {:induction false} BackslashIsSlash(x: Text, y: Text)
    requires '%' !in x && '%' !in y && |x| == |y|
    requires forall i | 0 <= i < |x| ::
      x[i] == y[i] || ((x[i] == '/' || x[i] == '\\') && (y[i] == '/' || y[i] == '\\'))
    ensures PathKeyOf(x) == PathKeyOf(y)
  {
    NoPercent(x);
    NoPercent(y);
    assert Slashes(x) == Slashes(y);
    SamePrepared(x, y);
  }

  /** Every character written as an escape. */
  function EscapeAll(s: Text): Text
    requires forall i | 0 <= i < |s| :: s[i] as int < 256
  {
    if s == [] then []
    else
      ['%', HexDigit(s[0] as int / 16), HexDigit(s[0] as int % 16)] + EscapeAll(s[1..])
  }

  lemma {:induction false} UnquoteEscapes(s: Text)
    requires forall i | 0 <= i < |s| :: s[i] as int < 256
    ensures Unquote(EscapeAll(s)) == s
  {
    if s != [] {
      var e := EscapeAll(s);
      UnquoteEscapes(s[1..]);
      assert e[3..] == EscapeAll(s[1..]) && Escape(e) && Escaped(e) == s[0];
    }
  }

  /** Escapes are decoded, once: the key of an escaped text is that of the text as it stands. */
  lemma {:induction false} DecodedOnce(s: Text)
    requires forall i | 0 <= i < |s| :: s[i] as int < 256
    ensures PathKeyOf(EscapeAll(s)) == Lower(TrimSlash(RemoveDots(Collapse(['/'] + StripParams(Slashes(s))), [])))
  {
    UnquoteEscapes(s);
    PathKeyIsStandard(EscapeAll(s));
  }
}

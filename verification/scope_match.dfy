/** `match_module`: does a dotted module path fall under a scope pattern?
    Path and pattern are split on `.`; a `*` segment stands for exactly one
    path segment, a `**` segment for any number of them (none included), and
    every other segment must equal its path segment. The whole path must be
    consumed by the whole pattern. */
module ScopeMatch {
  import opened Strings

  const Star: string := "*"
  const DoubleStar: string := "**"

  /** One pattern segment against one path segment. */
  predicate SegmentMatches(p: string, seg: string) {
    p == Star || p == seg
  }

  predicate NoDoubleStar(pattern: seq<string>) {
    forall i :: 0 <= i < |pattern| ==> pattern[i] != DoubleStar
  }

  /** The matcher over split segments; it terminates on every input because
      every step removes a path segment, a pattern segment, or both. */
  predicate Match(path: seq<string>, pattern: seq<string>)
    decreases |path| + |pattern|
  {
    if |pattern| == 0 then |path| == 0
    else if pattern[0] == DoubleStar then
      Match(path, pattern[1..]) || (|path| > 0 && Match(path[1..], pattern))
    else
      |path| > 0 && SegmentMatches(pattern[0], path[0]) && Match(path[1..], pattern[1..])
  }

  /** `match_module(name, pattern)`. */
  predicate MatchModule(name: string, pattern: string) {
    Match(Split(name, '.'), Split(pattern, '.'))
  }

  /** Whether any of the configured patterns (as `init(['tests.*'])` supplies
      them) enables the module. */
  function InScope(name: string, patterns: seq<string>): (r: bool)
    ensures r <==> exists i :: 0 <= i < |patterns| && MatchModule(name, patterns[i])
    decreases |patterns|
  {
    if |patterns| == 0 then false
    else MatchModule(name, patterns[0]) || InScope(name, patterns[1..])
  }

  /** Without `**`, a pattern matches exactly the paths of its own length
      whose segments match one for one: `*` takes one segment, never more. */
  lemma {:induction false} FixedPatternMatch(path: seq<string>, pattern: seq<string>)
    requires NoDoubleStar(pattern)
    ensures Match(path, pattern) <==>
              |path| == |pattern| && forall i :: 0 <= i < |path| ==> SegmentMatches(pattern[i], path[i])
    decreases |pattern|
  {
    if |pattern| > 0 && |path| > 0 {
      assert pattern[0] != DoubleStar;
      assert NoDoubleStar(pattern[1..]) by {
        forall i | 0 <= i < |pattern[1..]| ensures pattern[1..][i] != DoubleStar {
          assert pattern[1..][i] == pattern[i + 1];
        }
      }
      FixedPatternMatch(path[1..], pattern[1..]);
      if |path| == |pattern| && forall i :: 0 <= i < |path| ==> SegmentMatches(pattern[i], path[i]) {
        assert forall i :: 0 <= i < |path[1..]| ==> SegmentMatches(pattern[1..][i], path[1..][i]) by {
          forall i | 0 <= i < |path[1..]| ensures SegmentMatches(pattern[1..][i], path[1..][i]) {
            assert SegmentMatches(pattern[i + 1], path[i + 1]);
          }
        }
      }
      if Match(path, pattern) {
        forall i | 0 <= i < |path| ensures SegmentMatches(pattern[i], path[i]) {
          if i > 0 {
            assert SegmentMatches(pattern[1..][i - 1], path[1..][i - 1]);
          }
        }
      }
    } else if |pattern| > 0 {
      assert pattern[0] != DoubleStar;
    }
  }

  /** A fixed (`**`-free) head of the pattern consumes exactly as many path
      segments as it has. */
  lemma {:induction false} FixedHeadMatch(path: seq<string>, head: seq<string>, tail: seq<string>)
    requires NoDoubleStar(head)
    ensures Match(path, head + tail) <==>
              |path| >= |head| && Match(path[..|head|], head) && Match(path[|head|..], tail)
    decreases |head|
  {
    if |head| == 0 {
      assert head + tail == tail;
    } else {
      var pattern := head + tail;
      assert pattern[0] == head[0] != DoubleStar;
      assert pattern[1..] == head[1..] + tail;
      assert NoDoubleStar(head[1..]) by {
        forall i | 0 <= i < |head[1..]| ensures head[1..][i] != DoubleStar {
          assert head[1..][i] == head[i + 1];
        }
      }
      if |path| > 0 {
        FixedHeadMatch(path[1..], head[1..], tail);
        if |path| >= |head| {
          var pre := path[..|head|];
          assert pre[0] == path[0];
          assert pre[1..] == path[1..][..|head| - 1];
          assert path[1..][|head| - 1..] == path[|head|..];
          assert Match(pre, head) == (SegmentMatches(head[0], pre[0]) && Match(pre[1..], head[1..]));
        }
      } else {
        assert !Match(path, pattern);
      }
    }
  }

  /** A leading `**` followed by a fixed tail: the path must end in segments
      matching the tail, with any number of segments before them. */
  lemma {:induction false} DoubleStarThenFixed(path: seq<string>, tail: seq<string>)
    requires NoDoubleStar(tail)
    ensures Match(path, [DoubleStar] + tail) <==>
              |path| >= |tail| && Match(path[|path| - |tail|..], tail)
    decreases |path|
  {
    var pattern := [DoubleStar] + tail;
    assert pattern[1..] == tail;
    FixedPatternMatch(path, tail);
    if |path| > |tail| {
      DoubleStarThenFixed(path[1..], tail);
      assert path[1..][|path[1..]| - |tail|..] == path[|path| - |tail|..];
    } else {
      if |path| > 0 {
        DoubleStarThenFixed(path[1..], tail);
      }
      if |path| == |tail| {
        assert path[|path| - |tail|..] == path;
      }
    }
  }

  /** A bare `**` matches every path. */
  lemma {:induction false} DoubleStarMatchesAll(path: seq<string>)
    ensures Match(path, [DoubleStar])
    decreases |path|
  {
    assert [DoubleStar][1..] == [];
    if |path| > 0 {
      DoubleStarMatchesAll(path[1..]);
    }
  }

  /** `head.**`: the fixed head must match the start of the path; whatever
      follows is accepted. */
  lemma {:induction false} TrailingDoubleStar(path: seq<string>, head: seq<string>)
    requires NoDoubleStar(head)
    ensures Match(path, head + [DoubleStar]) <==> |path| >= |head| && Match(path[..|head|], head)
  {
    FixedHeadMatch(path, head, [DoubleStar]);
    if |path| >= |head| {
      DoubleStarMatchesAll(path[|head|..]);
    }
  }

  /** `head.**.tail`: the head must match the start, the tail the end, and
      any number of segments (none included) may lie between them. */
  lemma {:induction false} InteriorDoubleStar(path: seq<string>, head: seq<string>, tail: seq<string>)
    requires NoDoubleStar(head) && NoDoubleStar(tail)
    ensures Match(path, head + [DoubleStar] + tail) <==>
              && |path| >= |head| + |tail|
              && Match(path[..|head|], head)
              && Match(path[|path| - |tail|..], tail)
  {
    var rest := [DoubleStar] + tail;
    assert head + [DoubleStar] + tail == head + rest;
    FixedHeadMatch(path, head, rest);
    if |path| >= |head| {
      var after := path[|head|..];
      DoubleStarThenFixed(after, tail);
      assert Match(after, rest) <==> |after| >= |tail| && Match(after[|after| - |tail|..], tail);
      if |after| >= |tail| {
        assert after[|after| - |tail|..] == path[|path| - |tail|..];
      }
    }
  }

  lemma {:induction false} SplitSegments(segments: seq<string>)
    requires |segments| >= 1
    requires forall i :: 0 <= i < |segments| ==> '.' !in segments[i]
    ensures Split(Join(".", segments), '.') == segments
  {
    assert "." == ['.'];
    SplitJoin(segments, '.');
  }

  // How the module names and patterns of the tests split into segments.

  lemma {:induction false} SplitModBarFoo()
    ensures Split("mod.bar.foo", '.') == ["mod", "bar", "foo"]
  {
    SplitSegments(["mod", "bar", "foo"]);
    assert Join(".", ["mod", "bar", "foo"]) == "mod.bar.foo";
  }

  lemma {:induction false} SplitModBarBooFoo()
    ensures Split("mod.bar.boo.foo", '.') == ["mod", "bar", "boo", "foo"]
  {
    SplitSegments(["mod", "bar", "boo", "foo"]);
    assert Join(".", ["mod", "bar", "boo", "foo"]) == "mod.bar.boo.foo";
  }

  lemma {:induction false} SplitModBarBoo()
    ensures Split("mod.bar.boo", '.') == ["mod", "bar", "boo"]
  {
    SplitSegments(["mod", "bar", "boo"]);
    assert Join(".", ["mod", "bar", "boo"]) == "mod.bar.boo";
  }

  lemma {:induction false} SplitModFoo()
    ensures Split("mod.foo", '.') == ["mod", "foo"]
  {
    SplitSegments(["mod", "foo"]);
    assert Join(".", ["mod", "foo"]) == "mod.foo";
  }

  lemma {:induction false} SplitModStarFoo()
    ensures Split("mod.*.foo", '.') == ["mod", Star, "foo"]
  {
    SplitSegments(["mod", "*", "foo"]);
    assert Join(".", ["mod", "*", "foo"]) == "mod.*.foo";
  }

  lemma {:induction false} SplitModDoubleStar()
    ensures Split("mod.**", '.') == ["mod", DoubleStar]
  {
    SplitSegments(["mod", "**"]);
    assert Join(".", ["mod", "**"]) == "mod.**";
  }

  lemma {:induction false} SplitModDoubleStarFoo()
    ensures Split("mod.**.foo", '.') == ["mod", DoubleStar, "foo"]
  {
    SplitSegments(["mod", "**", "foo"]);
    assert Join(".", ["mod", "**", "foo"]) == "mod.**.foo";
  }

  lemma {:induction false} SplitTestsModule()
    ensures Split("tests.test_sqlbind_t", '.') == ["tests", "test_sqlbind_t"]
  {
    SplitSegments(["tests", "test_sqlbind_t"]);
    assert Join(".", ["tests", "test_sqlbind_t"]) == "tests.test_sqlbind_t";
  }

  lemma {:induction false} SplitTestsPkgModule()
    ensures Split("tests.pkg.test_sqlbind_t", '.') == ["tests", "pkg", "test_sqlbind_t"]
  {
    SplitSegments(["tests", "pkg", "test_sqlbind_t"]);
    assert Join(".", ["tests", "pkg", "test_sqlbind_t"]) == "tests.pkg.test_sqlbind_t";
  }

  lemma {:induction false} SplitTestsStar()
    ensures Split("tests.*", '.') == ["tests", Star]
  {
    SplitSegments(["tests", "*"]);
    assert Join(".", ["tests", "*"]) == "tests.*";
  }

  // The matcher on those segments, one lemma per case of
  // `test_match_module_strict_segments`.

  lemma {:induction false} StarTakesOneSegmentOnSegments()
    ensures Match(["mod", "bar", "foo"], ["mod", Star, "foo"])
  {
    var path := ["mod", "bar", "foo"];
    var pattern := ["mod", Star, "foo"];
    assert SegmentMatches(pattern[0], path[0]) && SegmentMatches(pattern[1], path[1])
        && SegmentMatches(pattern[2], path[2]);
    FixedPatternMatch(path, pattern);
  }

  lemma {:induction false} StarTakesNoMoreOnSegments()
    ensures !Match(["mod", "bar", "boo", "foo"], ["mod", Star, "foo"])
  {
    FixedPatternMatch(["mod", "bar", "boo", "foo"], ["mod", Star, "foo"]);
  }

  lemma {:induction false} TrailingDoubleStarOnSegments()
    ensures Match(["mod", "bar", "boo", "foo"], ["mod", DoubleStar])
  {
    assert ["mod"] + [DoubleStar] == ["mod", DoubleStar];
    TrailingDoubleStar(["mod", "bar", "boo", "foo"], ["mod"]);
  }

  lemma {:induction false} InteriorDoubleStarTakesOneOnSegments()
    ensures Match(["mod", "bar", "foo"], ["mod", DoubleStar, "foo"])
  {
    var path := ["mod", "bar", "foo"];
    var pattern := ["mod", DoubleStar, "foo"];
    assert Match(["foo"], ["foo"]);
    assert Match(["foo"], pattern[1..]);
    assert Match(path[1..], pattern[1..]);
  }

  lemma {:induction false} InteriorDoubleStarTakesTwoOnSegments()
    ensures Match(["mod", "bar", "boo", "foo"], ["mod", DoubleStar, "foo"])
  {
    var path := ["mod", "bar", "boo", "foo"];
    var pattern := ["mod", DoubleStar, "foo"];
    assert Match(["foo"], ["foo"]);
    assert Match(["foo"], pattern[1..]);
    assert Match(["boo", "foo"], pattern[1..]);
    assert Match(path[1..], pattern[1..]);
  }

  lemma {:induction false} InteriorDoubleStarTakesNoneOnSegments()
    ensures Match(["mod", "foo"], ["mod", DoubleStar, "foo"])
  {
  }

  lemma {:induction false} InteriorDoubleStarKeepsSuffixOnSegments()
    ensures !Match(["mod", "bar", "boo"], ["mod", DoubleStar, "foo"])
  {
    var path := ["mod", "bar", "boo"];
    var pattern := ["mod", DoubleStar, "foo"];
    assert pattern[1..] == [DoubleStar] + ["foo"];
    assert !Match(["boo"], ["foo"]);
    DoubleStarThenFixed(path[1..], ["foo"]);
    assert path[1..][1..] == ["boo"];
    assert !Match(path[1..], pattern[1..]);
  }

  lemma {:induction false} AnchoredMatchOnSegments()
    ensures Match(["tests", "test_sqlbind_t"], ["tests", Star])
  {
  }

  lemma {:induction false} AnchoredMismatchOnSegments()
    ensures !Match(["tests", "pkg", "test_sqlbind_t"], ["tests", Star])
  {
    FixedPatternMatch(["tests", "pkg", "test_sqlbind_t"], ["tests", Star]);
  }

  // The cases themselves, on module names and patterns as the tests write them.

  /** `*` takes one segment. */
  lemma {:induction false} StarTakesOneSegment()
    ensures MatchModule("mod.bar.foo", "mod.*.foo")
  {
    SplitModBarFoo();
    SplitModStarFoo();
    StarTakesOneSegmentOnSegments();
  }

  /** `*` never takes two segments. */
  lemma {:induction false} StarTakesNoMore()
    ensures !MatchModule("mod.bar.boo.foo", "mod.*.foo")
  {
    SplitModBarBooFoo();
    SplitModStarFoo();
    StarTakesNoMoreOnSegments();
  }

  /** A trailing `**` matches any remainder. */
  lemma {:induction false} TrailingDoubleStarExample()
    ensures MatchModule("mod.bar.boo.foo", "mod.**")
  {
    SplitModBarBooFoo();
    SplitModDoubleStar();
    TrailingDoubleStarOnSegments();
  }

  /** An interior `**` may take one segment, */
  lemma {:induction false} InteriorDoubleStarTakesOne()
    ensures MatchModule("mod.bar.foo", "mod.**.foo")
  {
    SplitModBarFoo();
    SplitModDoubleStarFoo();
    InteriorDoubleStarTakesOneOnSegments();
  }

  /** two segments, */
  lemma {:induction false} InteriorDoubleStarTakesTwo()
    ensures MatchModule("mod.bar.boo.foo", "mod.**.foo")
  {
    SplitModBarBooFoo();
    SplitModDoubleStarFoo();
    InteriorDoubleStarTakesTwoOnSegments();
  }

  /** or none, */
  lemma {:induction false} InteriorDoubleStarTakesNone()
    ensures MatchModule("mod.foo", "mod.**.foo")
  {
    SplitModFoo();
    SplitModDoubleStarFoo();
    InteriorDoubleStarTakesNoneOnSegments();
  }

  /** but the segment after it must still be there. */
  lemma {:induction false} InteriorDoubleStarKeepsSuffix()
    ensures !MatchModule("mod.bar.boo", "mod.**.foo")
  {
    SplitModBarBoo();
    SplitModDoubleStarFoo();
    InteriorDoubleStarKeepsSuffixOnSegments();
  }

  /** `tests.*` covers the modules directly inside `tests`, */
  lemma {:induction false} AnchoredMatch()
    ensures MatchModule("tests.test_sqlbind_t", "tests.*")
  {
    SplitTestsModule();
    SplitTestsStar();
    AnchoredMatchOnSegments();
  }

  /** and nothing deeper. */
  lemma {:induction false} AnchoredMismatch()
    ensures !MatchModule("tests.pkg.test_sqlbind_t", "tests.*")
  {
    SplitTestsPkgModule();
    SplitTestsStar();
    AnchoredMismatchOnSegments();
  }

  /** The bare pattern `**` matches every module name. */
  lemma {:induction false} BareDoubleStarMatchesEveryModule(name: string)
    ensures MatchModule(name, "**")
  {
    SplitSegments(["**"]);
    assert Join(".", ["**"]) == "**";
    DoubleStarMatchesAll(Split(name, '.'));
  }
}

/** Paths of pkg/io/storage.go as lists of segments: splitting and joining at separators, the lexical
    cleaning of Go's path.Clean, and collapsing repeated separators. */
module PathSegments {
  import opened Common

  function Grow(r: seq<string>, c: char): seq<string>
    requires r != []
  {
    r[..|r| - 1] + [Last(r) + [c]]
  }

  function Split(s: string): (r: seq<string>)
    ensures r != []
  {
    if s == "" then [""]
    else if Last(s) == '/' then Split(s[..|s| - 1]) + [""]
    else Grow(Split(s[..|s| - 1]), Last(s))
  }

  lemma {:induction false} SplitSnoc(s: string, c: char)
    ensures Split(s + [c]) == if c == '/' then Split(s) + [""] else Grow(Split(s), c)
  {
    assert (s + [c])[..|s|] == s;
  }

  lemma {:induction false} SplitSlashFree(s: string)
    ensures SlashFree(Split(s))
  {
    if s != "" {
      SplitSlashFree(s[..|s| - 1]);
    }
  }

  function Join(segs: seq<string>): string
  {
    if segs == [] then "" else if |segs| == 1 then segs[0] else Join(segs[..|segs| - 1]) + "/" + Last(segs)
  }

  ghost predicate SlashFree(segs: seq<string>) { forall i :: 0 <= i < |segs| ==> '/' !in segs[i] }

  lemma {:induction false} GrowConcat(x: seq<string>, y: seq<string>, c: char)
    requires y != []
    ensures Grow(x + y, c) == x + Grow(y, c)
  {
    assert (x + y)[..|x + y| - 1] == x + y[..|y| - 1];
  }

  lemma {:induction false} ConcatStep(x: seq<string>, y: seq<string>, c: char)
    requires y != []
    ensures (x + y) + [""] == x + (y + [""]) && Grow(x + y, c) == x + Grow(y, c)
  {
    GrowConcat(x, y, c);
  }

  lemma {:induction false} LastOut(a: string, b: string)
    requires b != ""
    ensures a + "/" + b == (a + "/" + b[..|b| - 1]) + [Last(b)] && b == b[..|b| - 1] + [Last(b)]
  {
  }

  lemma {:induction false} SplitConcat(a: string, b: string)
    ensures Split(a + "/" + b) == Split(a) + Split(b)
  {
    if b == "" {
      assert a + "/" + b == a + ['/'];
      SplitSnoc(a, '/');
    } else {
      var init, last := b[..|b| - 1], Last(b);
      SplitConcat(a, init);
      LastOut(a, b);
      SplitSnoc(a + "/" + init, last);
      SplitSnoc(init, last);
      ConcatStep(Split(a), Split(init), last);
    }
  }

  lemma {:induction false} SplitPlain(s: string)
    requires '/' !in s
    ensures Split(s) == [s]
  {
    if s != "" {
      var init := s[..|s| - 1];
      assert s == init + [Last(s)];
      SplitPlain(init);
    }
  }

  /** Splitting undoes joining. */
  lemma {:induction false} SplitJoin(segs: seq<string>)
    requires segs != [] && SlashFree(segs)
    ensures Split(Join(segs)) == segs
  {
    if |segs| == 1 {
      SplitPlain(segs[0]);
    } else {
      SplitJoin(segs[..|segs| - 1]);
      SplitPlain(Last(segs));
      SplitConcat(Join(segs[..|segs| - 1]), Last(segs));
      assert segs == segs[..|segs| - 1] + [Last(segs)];
    }
  }

  lemma {:induction false} JoinConcat(a: seq<string>, b: seq<string>)
    requires a != [] && b != []
    ensures Join(a + b) == Join(a) + "/" + Join(b)
  {
    var all := a + b;
    if |b| == 1 {
      assert all[..|all| - 1] == a;
    } else {
      var init := b[..|b| - 1];
      JoinConcat(a, init);
      Ends(a, b);
      Slashed(Join(a), Join(init), Last(b));
    }
  }

  lemma {:induction false} Ends(a: seq<string>, b: seq<string>)
    requires b != []
    ensures (a + b)[..|a + b| - 1] == a + b[..|b| - 1] && Last(a + b) == Last(b)
  {
  }

  lemma {:induction false} Slashed(a: string, b: string, c: string)
    ensures a + "/" + b + "/" + c == a + "/" + (b + "/" + c)
  {
  }

  // ---------------------------------------------------------------------------------------
  // Cleaning
  // ---------------------------------------------------------------------------------------

  function Push(stack: seq<string>, seg: string, rooted: bool): seq<string>
  {
    if seg == "" || seg == "." then stack
    else if seg == ".." then
      if stack != [] && Last(stack) != ".." then stack[..|stack| - 1]
      else if rooted then stack
      else stack + [".."]
    else stack + [seg]
  }

  /** The segments left once "." and empty ones are dropped and ".." is resolved. */
  function Reduce(segs: seq<string>, rooted: bool): seq<string>
  {
    if segs == [] then [] else Push(Reduce(segs[..|segs| - 1], rooted), Last(segs), rooted)
  }

  function Rooted(s: string): bool { s != "" && s[0] == '/' }

  function Render(rooted: bool, segs: seq<string>): string
  {
    if rooted then "/" + Join(segs) else if segs == [] then "." else Join(segs)
  }

  function SegmentsOf(s: string): seq<string> { Reduce(Split(s), Rooted(s)) }

  function Clean(s: string): string { Render(Rooted(s), SegmentsOf(s)) }

  predicate Proper(seg: string) { seg != "" && seg != "." && seg != ".." && '/' !in seg }

  ghost predicate AllProper(segs: seq<string>) { forall i :: 0 <= i < |segs| ==> Proper(segs[i]) }

  /** Climbing segments, if any, come first. */
  ghost predicate Climbs(segs: seq<string>, n: nat)
  {
    && n <= |segs|
    && (forall i :: 0 <= i < n ==> segs[i] == "..")
    && (forall i :: n <= i < |segs| ==> Proper(segs[i]))
  }

  lemma {:induction false} ReduceShape(segs: seq<string>, rooted: bool) returns (n: nat)
    requires SlashFree(segs)
    ensures Climbs(Reduce(segs, rooted), n) && (rooted ==> n == 0)
  {
    if segs == [] {
      n := 0;
    } else {
      var init, last := segs[..|segs| - 1], Last(segs);
      var m := ReduceShape(init, rooted);
      n := PushShape(Reduce(init, rooted), m, last, rooted);
    }
  }

  lemma {:induction false} PushShape(stack: seq<string>, m: nat, seg: string, rooted: bool) returns (n: nat)
    requires Climbs(stack, m) && (rooted ==> m == 0) && '/' !in seg
    ensures Climbs(Push(stack, seg, rooted), n) && (rooted ==> n == 0)
  {
    if seg == ".." && !(stack != [] && Last(stack) != "..") && !rooted {
      assert m < |stack| ==> Proper(Last(stack));
      n := m + 1;
    } else {
      assert m == |stack| > 0 ==> Last(stack) == "..";
      n := m;
    }
  }

  /** Proper segments pass through. */
  lemma {:induction false} ReduceProper(a: seq<string>, b: seq<string>, rooted: bool)
    requires AllProper(b)
    ensures Reduce(a + b, rooted) == Reduce(a, rooted) + b
  {
    if b == [] {
      assert a + b == a && Reduce(a, rooted) + b == Reduce(a, rooted);
    } else {
      var init, last := b[..|b| - 1], Last(b);
      ReduceProper(a, init, rooted);
      assert a + b == (a + init) + [last] && b == init + [last];
      ReduceSnoc(a + init, last, rooted);
      assert (Reduce(a, rooted) + init) + [last] == Reduce(a, rooted) + b;
    }
  }

  // ---------------------------------------------------------------------------------------
  // Repeated separators
  // ---------------------------------------------------------------------------------------

  function Collapse(s: string): string
  {
    if s == "" then ""
    else if s[0] == '/' && Rooted(s[1..]) then Collapse(s[1..])
    else [s[0]] + Collapse(s[1..])
  }

  /** One pass of replacing "//" by "/", left to right. */
  function Halve(s: string): string
  {
    if s == "" then ""
    else if s[0] == '/' && Rooted(s[1..]) then "/" + Halve(s[2..])
    else [s[0]] + Halve(s[1..])
  }

  predicate HasDouble(s: string) { exists i :: 0 <= i < |s| - 1 && s[i] == '/' && s[i + 1] == '/' }

  lemma {:induction false} HalveStart(s: string)
    ensures Rooted(Halve(s)) == Rooted(s)
  {
  }

  lemma {:induction false} HalveCollapse(s: string)
    ensures Collapse(Halve(s)) == Collapse(s)
    decreases |s|
  {
    if s != "" {
      if s[0] == '/' && Rooted(s[1..]) {
        var t := s[2..];
        HalveCollapse(t);
        HalveStart(t);
        var u := "/" + Halve(t);
        assert u[1..] == Halve(t);
        assert s[1..][1..] == t && s[1..][0] == '/';
      } else {
        HalveCollapse(s[1..]);
        HalveStart(s[1..]);
        assert ([s[0]] + Halve(s[1..]))[1..] == Halve(s[1..]);
      }
    }
  }

  lemma {:induction false} HalveShrinks(s: string)
    ensures |Halve(s)| <= |s|
    ensures HasDouble(s) ==> |Halve(s)| < |s|
    ensures !HasDouble(s) ==> Collapse(s) == s
    decreases |s|
  {
    if s != "" {
      if s[0] == '/' && Rooted(s[1..]) {
        HalveShrinks(s[2..]);
        assert s[0] == '/' && s[1] == '/';
      } else {
        HalveShrinks(s[1..]);
        if HasDouble(s) {
          var i :| 0 <= i < |s| - 1 && s[i] == '/' && s[i + 1] == '/';
          assert i > 0;
          assert s[1..][i - 1] == '/' && s[1..][i] == '/';
        }
        if HasDouble(s[1..]) {
          var i :| 0 <= i < |s[1..]| - 1 && s[1..][i] == '/' && s[1..][i + 1] == '/';
          assert s[i + 1] == '/' && s[i + 2] == '/';
        }
        assert s == [s[0]] + s[1..];
      }
    }
  }

  method CollapseSlashes(s: string) returns (r: string)
    ensures r == Collapse(s)
  {
    r := s;
    while HasDouble(r)
      invariant Collapse(r) == Collapse(s)
      decreases |r|
    {
      HalveCollapse(r);
      HalveShrinks(r);
      r := Halve(r);
    }
    HalveShrinks(r);
  }

  /** The segments that are not empty. */
  function Filled(segs: seq<string>): seq<string>
  {
    if segs == [] then []
    else if segs[0] == "" then Filled(segs[1..])
    else [segs[0]] + Filled(segs[1..])
  }

  lemma {:induction false} FilledConcat(a: seq<string>, b: seq<string>)
    ensures Filled(a + b) == Filled(a) + Filled(b)
  {
    if a == [] {
      assert a + b == b && [] + Filled(b) == Filled(b);
    } else {
      FilledConcat(a[1..], b);
      assert (a + b)[1..] == a[1..] + b && (a + b)[0] == a[0];
      assert [a[0]] + (Filled(a[1..]) + Filled(b)) == ([a[0]] + Filled(a[1..])) + Filled(b);
    }
  }

  lemma {:induction false} ReduceSnoc(segs: seq<string>, seg: string, rooted: bool)
    ensures Reduce(segs + [seg], rooted) == Push(Reduce(segs, rooted), seg, rooted)
  {
    assert (segs + [seg])[..|segs|] == segs;
  }

  /** What comes before matters only through what it reduces to. */
  lemma {:induction false} SameStart(a: seq<string>, b: seq<string>, rest: seq<string>, rooted: bool)
    requires Reduce(a, rooted) == Reduce(b, rooted)
    ensures Reduce(a + rest, rooted) == Reduce(b + rest, rooted)
  {
    if rest == [] {
      assert a + rest == a && b + rest == b;
    } else {
      var init := rest[..|rest| - 1];
      SameStart(a, b, init, rooted);
      assert (a + rest)[..|a + rest| - 1] == a + init && (b + rest)[..|b + rest| - 1] == b + init;
    }
  }

  lemma {:induction false} NameCancels(a: seq<string>, x: string, rest: seq<string>, rooted: bool)
    requires Proper(x)
    ensures Reduce(a + [x, ".."] + rest, rooted) == Reduce(a + rest, rooted)
  {
    ReduceSnoc(a, x, rooted);
    ReduceSnoc(a + [x], "..", rooted);
    assert a + [x, ".."] == (a + [x]) + [".."];
    SameStart(a + [x, ".."], a, rest, rooted);
  }

  lemma {:induction false} DotDrops(a: seq<string>, x: string, rest: seq<string>, rooted: bool)
    requires x == "." || x == ""
    ensures Reduce(a + [x] + rest, rooted) == Reduce(a + rest, rooted)
  {
    ReduceSnoc(a, x, rooted);
    SameStart(a + [x], a, rest, rooted);
  }

  lemma {:induction false} RootStays(rest: seq<string>)
    ensures Reduce([".."] + rest, true) == Reduce(rest, true)
  {
    assert [".."][..0] == [];
    SameStart([".."], [], rest, true);
    assert [] + rest == rest;
  }

  /** Wherever they stand, a name followed by ".." cancels, "." and nothing are dropped, and so is ".." at the root. */
  lemma {:induction false} DotsResolve(a: seq<string>, x: string, rest: seq<string>, rooted: bool)
    ensures Proper(x) ==> Reduce(a + [x, ".."] + rest, rooted) == Reduce(a + rest, rooted)
    ensures Reduce(a + ["."] + rest, rooted) == Reduce(a + [""] + rest, rooted) == Reduce(a + rest, rooted)
    ensures Reduce([".."] + rest, true) == Reduce(rest, true)
  {
    if Proper(x) {
      NameCancels(a, x, rest, rooted);
    }
    DotDrops(a, ".", rest, rooted);
    DotDrops(a, "", rest, rooted);
    RootStays(rest);
  }

  lemma {:induction false} ReduceFilled(segs: seq<string>, rooted: bool)
    ensures Reduce(Filled(segs), rooted) == Reduce(segs, rooted)
  {
    if segs != [] {
      var init, last := segs[..|segs| - 1], Last(segs);
      ReduceFilled(init, rooted);
      assert segs == init + [last];
      ReduceSnoc(init, last, rooted);
      FilledConcat(init, [last]);
      assert Filled([last]) == if last == "" then [] else [last] by { assert [last][1..] == []; }
      ReduceSnoc(Filled(init), last, rooted);
      assert Filled(init) + [] == Filled(init);
    }
  }

  lemma {:induction false} SplitSlash(s: string)
    ensures Split("/" + s) == [""] + Split(s)
  {
    SplitConcat("", s);
    assert "" + "/" + s == "/" + s;
    assert Split("") == [""];
  }

  function Front(c: char, r: seq<string>): seq<string>
    requires r != []
  {
    [[c] + r[0]] + r[1..]
  }

  lemma {:induction false} FrontGrow(c: char, r: seq<string>, d: char)
    requires r != []
    ensures Front(c, Grow(r, d)) == Grow(Front(c, r), d)
    ensures Front(c, r + [""]) == Front(c, r) + [""]
  {
    if |r| == 1 {
      assert ([c] + r[0]) + [d] == [c] + (r[0] + [d]);
    } else {
      assert Grow(r, d)[0] == r[0] && Grow(r, d)[1..] == Grow(r[1..], d);
      assert Front(c, r)[..|r| - 1] == [[c] + r[0]] + r[1..|r| - 1];
    }
  }

  lemma {:induction false} SplitCons(c: char, s: string)
    requires c != '/'
    ensures Split([c] + s) == Front(c, Split(s))
  {
    if s == "" {
      assert [c] + s == "" + [c];
      SplitSnoc("", c);
      assert "" + [c] == [c] + "";
    } else {
      var init, last := s[..|s| - 1], Last(s);
      SplitCons(c, init);
      assert [c] + s == ([c] + init) + [last] && s == init + [last];
      SplitSnoc([c] + init, last);
      SplitSnoc(init, last);
      FrontGrow(c, Split(init), last);
    }
  }

  lemma {:induction false} CollapseSegments(s: string)
    ensures Split(Collapse(s))[0] == Split(s)[0]
    ensures Filled(Split(Collapse(s))[1..]) == Filled(Split(s)[1..])
    ensures Rooted(Collapse(s)) == Rooted(s)
    decreases |s|
  {
    if s != "" {
      var t := s[1..];
      CollapseSegments(t);
      assert s == [s[0]] + t;
      if s[0] == '/' {
        SplitSlash(t);
        assert ([""] + Split(t))[1..] == Split(t);
        HeadAndTail(Split(t));
        HeadAndTail(Split(Collapse(t)));
        if Rooted(t) {
          assert t == "/" + t[1..];
          SplitSlash(t[1..]);
          assert Split(t)[0] == "";
        } else {
          SplitSlash(Collapse(t));
          assert ([""] + Split(Collapse(t)))[1..] == Split(Collapse(t));
        }
      } else {
        SplitCons(s[0], t);
        SplitCons(s[0], Collapse(t));
      }
    }
  }

  lemma {:induction false} HeadAndTail(segs: seq<string>)
    requires segs != []
    ensures Filled(segs) == Filled([segs[0]]) + Filled(segs[1..])
  {
    assert segs == [segs[0]] + segs[1..];
    FilledConcat([segs[0]], segs[1..]);
  }

  /** Collapsing separators does not change what a path names. */
  lemma {:induction false} CollapseNames(s: string)
    ensures SegmentsOf(Collapse(s)) == SegmentsOf(s) && Rooted(Collapse(s)) == Rooted(s)
  {
    CollapseSegments(s);
    HeadAndTail(Split(s));
    HeadAndTail(Split(Collapse(s)));
    ReduceFilled(Split(s), Rooted(s));
    ReduceFilled(Split(Collapse(s)), Rooted(s));
  }
}

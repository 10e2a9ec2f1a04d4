/** Path helpers of pkg/io/storage.go: schemes, joining, and expressing a file relative to a table. */
module StoragePaths {
  import opened Common
  import opened Strings
  import opened PathSegments

  const SchemeNames: seq<string> := ["s3", "s3a", "gs", "abfss", "abfs", "wasbs", "wasb", "mem", "file"]

  function TrimFrom(p: string, i: nat): (string, string)
    requires i <= |SchemeNames|
    decreases |SchemeNames| - i
  {
    if i == |SchemeNames| then ("", p)
    else
      var scheme := SchemeNames[i] + "://";
      if HasPrefix(p, scheme) then (scheme, p[|scheme|..]) else TrimFrom(p, i + 1)
  }

  /** The recognised scheme a path carries, if any, and the rest of it. */
  function TrimScheme(p: string): (string, string) { TrimFrom(p, 0) }

  function TrimSlash(s: string): string { if Rooted(s) then s[1..] else s }

  function JoinPath(base: string, elem: string): string
  {
    var (scheme, trimmed) := TrimScheme(base);
    if scheme != "" then
      var joined := Collapse(trimmed + "/" + elem);
      scheme + (if Rooted(trimmed) then joined else TrimSlash(joined))
    else if base == "" then if elem == "" then "" else Clean(elem)
    else if elem == "" then Clean(base)
    else Clean(base + "/" + elem)
  }

  /** The first occurrence replaced. */
  function Replace(s: string, was: string, now: string): string
  {
    if HasPrefix(s, was) then now + s[|was|..]
    else if s == "" then ""
    else [s[0]] + Replace(s[1..], was, now)
  }

  const Blob := ".blob.core.windows.net"
  const Dfs := ".dfs.core.windows.net"
  const OneLakeBlob := "onelake.blob.fabric.microsoft.com"
  const OneLakeDfs := "onelake.dfs.fabric.microsoft.com"

  function CanonicalHost(authority: string): string { Replace(Replace(authority, Blob, Dfs), OneLakeBlob, OneLakeDfs) }

  /** The part before the first inner separator rewritten, the rest left alone. */
  function Rehosted(host: string -> string, p: string): string
  {
    var off := if Rooted(p) then 1 else 0;
    match IndexOf(p[off..], '/')
    case None => host(p)
    case Some(i) => host(p[..off + i]) + p[off + i..]
  }

  /** One spelling for the hosts that denote one store. */
  function CanonicalForCompare(p: string): string { Rehosted(CanonicalHost, p) }

  datatype PathError = InvalidPath | NotUnderBase

  function UnderBase(file: string, base: string): Result<string, PathError>
  {
    if file == base || !HasPrefix(file, base) then Err(NotUnderBase)
    else
      var rest := file[|base|..];
      if !Rooted(rest) && !HasSuffix(base, "/") then Err(NotUnderBase) else Ok(TrimSlash(rest))
  }

  function RelativizePath(physical: string, basePath: string): Result<string, PathError>
  {
    var base := TrimScheme(basePath).1;
    var (scheme, file) := TrimScheme(physical);
    if base == "" || file == "" then Err(InvalidPath)
    else if scheme == "" && Contains(physical, "://") then Err(InvalidPath)
    else if scheme == "" && !Rooted(Clean(file)) then
      if Clean(file) == ".." || HasPrefix(Clean(file), "../") then Err(NotUnderBase) else Ok(Clean(file))
    else UnderBase(CanonicalForCompare(Clean(file)), CanonicalForCompare(Clean(base)))
  }

  /** How a reader of the Delta log resolves a recorded path. */
  function ResolveDataPath(basePath: string, path: string): string
  {
    if TrimScheme(path).0 != "" || Rooted(path) then path else JoinPath(basePath, path)
  }

  // ---------------------------------------------------------------------------------------
  // Rendered paths
  // ---------------------------------------------------------------------------------------

  function Lead(rooted: bool): seq<string> { if rooted then [""] else [] }

  lemma {:induction false} SplitRender(rooted: bool, segs: seq<string>)
    requires segs != [] && SlashFree(segs)
    ensures Split(Render(rooted, segs)) == Lead(rooted) + segs
  {
    SplitJoin(segs);
    if rooted {
      SplitSlash(Join(segs));
    } else {
      assert Lead(false) + segs == segs;
    }
  }

  lemma {:induction false} JoinEnds(segs: seq<string>)
    requires segs != [] && AllProper(segs)
    ensures Join(segs) != "" && Join(segs)[0] == segs[0][0] && Last(Join(segs)) == Last(Last(segs)) && Join(segs)[0] != '/' && Last(Join(segs)) != '/'
  {
    if |segs| > 1 {
      JoinEnds(segs[..|segs| - 1]);
    }
    assert Proper(segs[0]) && Proper(Last(segs));
    assert segs[0][0] in segs[0] && Last(Last(segs)) in Last(segs);
  }

  /** A path is below a base by whole segments, and the rest of it is what the comparison returns. */
  lemma {:induction false} UnderIff(rf: bool, fs: seq<string>, rb: bool, bs: seq<string>)
    requires SlashFree(fs) && bs != [] && AllProper(bs)
    requires fs != [] ==> fs[0] != ""
    ensures UnderBase(Render(rf, fs), Render(rb, bs)) ==
      if rf == rb && |fs| > |bs| && fs[..|bs|] == bs then Ok(Join(fs[|bs|..])) else Err(NotUnderBase)
  {
    if rf == rb && |fs| > |bs| && fs[..|bs|] == bs {
      Below(rb, fs, bs);
    } else if UnderBase(Render(rf, fs), Render(rb, bs)).Ok? {
      OnlyBelow(rf, fs, rb, bs);
    }
  }

  lemma {:induction false} Below(r: bool, fs: seq<string>, bs: seq<string>)
    requires bs != [] && |fs| > |bs| && fs[..|bs|] == bs
    ensures UnderBase(Render(r, fs), Render(r, bs)) == Ok(Join(fs[|bs|..]))
  {
    var t := fs[|bs|..];
    assert fs == bs + t;
    JoinConcat(bs, t);
    var base, file := Render(r, bs), Render(r, fs);
    assert file == base + ("/" + Join(t));
    PrefixSplits(file, base);
    assert file[|base|..] == "/" + Join(t);
  }

  lemma {:induction false} OnlyBelow(rf: bool, fs: seq<string>, rb: bool, bs: seq<string>)
    requires SlashFree(fs) && bs != [] && AllProper(bs) && (fs != [] ==> fs[0] != "")
    requires UnderBase(Render(rf, fs), Render(rb, bs)).Ok?
    ensures rf == rb && |fs| > |bs| && fs[..|bs|] == bs
  {
    var file, base := Render(rf, fs), Render(rb, bs);
    JoinEnds(bs);
    assert Last(base) == Last(Join(bs));
    PrefixSplits(file, base);
    var y := file[|base|..][1..];
    assert file == base + "/" + y;
    SplitConcat(base, y);
    assert SlashFree(bs);
    SplitRender(rb, bs);
    Segmented(rf, fs, rb, bs, y);
  }

  lemma {:induction false} Segmented(rf: bool, fs: seq<string>, rb: bool, bs: seq<string>, y: string)
    requires SlashFree(fs) && bs != [] && AllProper(bs) && (fs != [] ==> fs[0] != "")
    requires Split(Render(rf, fs)) == (Lead(rb) + bs) + Split(y)
    ensures rf == rb && |fs| > |bs| && fs[..|bs|] == bs
  {
    assert Proper(bs[0]);
    if fs == [] {
      Trivial(rf);
      NotTrivial(rf, rb, bs, Split(y));
    } else {
      SplitRender(rf, fs);
      SameLead(rf, fs, rb, bs, Split(y));
    }
  }

  lemma {:induction false} SameLead(rf: bool, fs: seq<string>, rb: bool, bs: seq<string>, ys: seq<string>)
    requires fs != [] && fs[0] != "" && bs != [] && bs[0] != "" && ys != [] && Lead(rf) + fs == (Lead(rb) + bs) + ys
    ensures rf == rb && |fs| > |bs| && fs[..|bs|] == bs
  {
    var left, right := Lead(rf) + fs, (Lead(rb) + bs) + ys;
    assert left[0] == if rf then "" else fs[0];
    assert right[0] == if rb then "" else bs[0];
    assert left[|Lead(rf)|..] == fs;
    assert right[|Lead(rb)|..] == bs + ys;
  }

  lemma {:induction false} NotTrivial(rf: bool, rb: bool, bs: seq<string>, ys: seq<string>)
    requires bs != [] && bs[0] != "" && ys != []
    ensures (Lead(rb) + bs) + ys != if rf then ["", ""] else ["."]
  {
    var all := (Lead(rb) + bs) + ys;
    if rb {
      assert |all| >= 3;
    } else {
      assert |all| >= 2 && all[0] == bs[0];
    }
  }

  lemma {:induction false} Trivial(rooted: bool)
    ensures Split(Render(rooted, [])) == if rooted then ["", ""] else ["."]
  {
    if rooted {
      SplitSlash("");
      assert "/" + "" == "/" && Split("") == [""];
    } else {
      SplitPlain(".");
    }
  }

  // ---------------------------------------------------------------------------------------
  // Host spellings
  // ---------------------------------------------------------------------------------------

  lemma {:induction false} ReplaceSlashFree(s: string, was: string, now: string)
    requires '/' !in now && '/' !in s
    ensures '/' !in Replace(s, was, now)
  {
    if !HasPrefix(s, was) && s != "" {
      assert forall c :: c in s[1..] ==> c in s;
      ReplaceSlashFree(s[1..], was, now);
      assert s[0] in s;
    }
  }

  lemma {:induction false} ReplaceShort(s: string, was: string, now: string)
    requires |was| > 2 && |now| > 2
    ensures |Replace(s, was, now)| <= 2 || |s| <= 2 ==> Replace(s, was, now) == s
  {
    if !HasPrefix(s, was) && s != "" {
      ReplaceShort(s[1..], was, now);
      assert s == [s[0]] + s[1..];
    }
  }

  lemma {:induction false} ReplaceRooted(s: string, was: string, now: string)
    requires was != "" && was[0] != '/'
    ensures Replace("/" + s, was, now) == "/" + Replace(s, was, now)
  {
    assert ("/" + s)[1..] == s && ("/" + s)[0] == '/';
    assert !HasPrefix("/" + s, was);
  }

  lemma {:induction false} HostLiterals()
    ensures '/' !in Dfs && '/' !in OneLakeDfs && Blob[0] != '/' && OneLakeBlob[0] != '/'
    ensures |Blob| > 2 && |Dfs| > 2 && |OneLakeBlob| > 2 && |OneLakeDfs| > 2
  {
    assert forall i :: 0 <= i < |Dfs| ==> Dfs[i] != '/';
    assert forall i :: 0 <= i < |OneLakeDfs| ==> OneLakeDfs[i] != '/';
  }

  /** A rewriting of hosts that stays within one segment and leaves dots alone. */
  ghost predicate KeepsShape(host: string -> string, h: string)
  {
    && ('/' !in h ==> '/' !in host(h))
    && (|host(h)| <= 2 || |h| <= 2 ==> host(h) == h)
    && host("/" + h) == "/" + host(h)
  }

  lemma {:induction false} CanonicalKeepsShape(h: string)
    ensures KeepsShape(CanonicalHost, h)
  {
    HostLiterals();
    var once := Replace(h, Blob, Dfs);
    if '/' !in h {
      ReplaceSlashFree(h, Blob, Dfs);
      ReplaceSlashFree(once, OneLakeBlob, OneLakeDfs);
    }
    ReplaceShort(h, Blob, Dfs);
    ReplaceShort(once, OneLakeBlob, OneLakeDfs);
    ReplaceRooted(h, Blob, Dfs);
    ReplaceRooted(once, OneLakeBlob, OneLakeDfs);
  }

  /** A list of segments with its first one, the host of a schemed path, rewritten. */
  function Spelled(host: string -> string, segs: seq<string>): seq<string>
  {
    if segs == [] then [] else [host(segs[0])] + segs[1..]
  }

  lemma {:induction false} IndexAfter(h: string, rest: string)
    requires '/' !in h
    ensures rest == "" ==> IndexOf(h + rest, '/') == None
    ensures Rooted(rest) ==> IndexOf(h + rest, '/') == Some(|h|)
  {
    if h == "" {
      assert h + rest == rest;
    } else {
      assert h[0] in h && forall c :: c in h[1..] ==> c in h;
      IndexAfter(h[1..], rest);
      assert (h + rest)[1..] == h[1..] + rest && (h + rest)[0] == h[0];
    }
  }

  /** Everything after the first segment. */
  function After(segs: seq<string>): string
    requires segs != []
  {
    if |segs| == 1 then "" else "/" + Join(segs[1..])
  }

  lemma {:induction false} JoinFirst(segs: seq<string>)
    requires segs != []
    ensures Join(segs) == segs[0] + After(segs)
  {
    if |segs| > 1 {
      assert segs == [segs[0]] + segs[1..];
      JoinConcat([segs[0]], segs[1..]);
      assert segs[0] + "/" + Join(segs[1..]) == segs[0] + ("/" + Join(segs[1..]));
    } else {
      assert segs[0] + "" == segs[0];
    }
  }

  lemma {:induction false} PlainAuthority(host: string -> string, h: string, rest: string)
    requires '/' !in h && h != "" && (rest == "" || Rooted(rest))
    ensures Rehosted(host, h + rest) == host(h) + rest
  {
    var p := h + rest;
    IndexAfter(h, rest);
    assert p[0] == h[0] && h[0] in h && p[0..] == p;
    if rest == "" {
      assert p == h && host(h) + "" == host(h);
    } else {
      assert p[..|h|] == h && p[|h|..] == rest;
    }
  }

  lemma {:induction false} RootedAuthority(host: string -> string, h: string, rest: string)
    requires '/' !in h && (rest == "" || Rooted(rest)) && host("/" + h) == "/" + host(h)
    ensures Rehosted(host, "/" + (h + rest)) == "/" + (host(h) + rest)
  {
    var p := "/" + (h + rest);
    IndexAfter(h, rest);
    assert p[0] == '/' && p[1..] == h + rest;
    if rest == "" {
      assert p == "/" + h && host(h) + "" == host(h);
    } else {
      assert p[..1 + |h|] == "/" + h && p[1 + |h|..] == rest;
      assert ("/" + host(h)) + rest == "/" + (host(h) + rest);
    }
  }

  lemma {:induction false} RehostedRender(host: string -> string, rooted: bool, segs: seq<string>)
    requires SlashFree(segs) && segs != [] && segs[0] != "" && KeepsShape(host, segs[0])
    ensures Rehosted(host, Render(rooted, segs)) == Render(rooted, Spelled(host, segs))
  {
    var c := Spelled(host, segs);
    JoinFirst(segs);
    JoinFirst(c);
    assert c[1..] == segs[1..] && After(c) == After(segs);
    if rooted {
      RootedAuthority(host, segs[0], After(segs));
    } else {
      PlainAuthority(host, segs[0], After(segs));
    }
  }

  lemma {:induction false} RehostedTrivial(host: string -> string, rooted: bool)
    requires KeepsShape(host, "") && KeepsShape(host, ".")
    ensures Rehosted(host, Render(rooted, [])) == Render(rooted, [])
  {
    if rooted {
      assert "/" + ("" + "") == "/" && Join([]) == "";
      RootedAuthority(host, "", "");
    } else {
      assert "." + "" == ".";
      PlainAuthority(host, ".", "");
    }
  }

  // ---------------------------------------------------------------------------------------
  // Relativizing
  // ---------------------------------------------------------------------------------------

  /** The file lies below the base: same kind of path, whole segments, up to the spelling of the host. */
  ghost predicate LiesBelow(host: string -> string, rf: bool, fs: seq<string>, rb: bool, bs: seq<string>)
  {
    rf == rb && |fs| > |bs| && Spelled(host, fs)[..|bs|] == Spelled(host, bs)
  }

  lemma {:induction false} SpelledShape(host: string -> string, segs: seq<string>)
    requires segs != [] && SlashFree(segs) && segs[0] != "" && KeepsShape(host, segs[0])
    ensures var c := Spelled(host, segs);
      && |c| == |segs| && c[0] != "" && SlashFree(c) && c[1..] == segs[1..]
      && (Proper(segs[0]) <==> Proper(c[0])) && (AllProper(segs) <==> AllProper(c))
  {
    var c := Spelled(host, segs);
    assert |c[0]| <= 2 ==> c[0] == segs[0];
    assert |segs[0]| <= 2 ==> c[0] == segs[0];
    assert forall i :: 1 <= i < |segs| ==> c[i] == segs[i];
  }

  lemma {:induction false} FileSpelled(host: string -> string, rf: bool, fs: seq<string>)
    requires SlashFree(fs) && (fs != [] ==> fs[0] != "" && KeepsShape(host, fs[0])) && KeepsShape(host, "") && KeepsShape(host, ".")
    ensures Rehosted(host, Render(rf, fs)) == Render(rf, Spelled(host, fs))
    ensures SlashFree(Spelled(host, fs)) && (fs != [] ==> Spelled(host, fs)[0] != "")
  {
    if fs == [] {
      RehostedTrivial(host, rf);
    } else {
      RehostedRender(host, rf, fs);
      SpelledShape(host, fs);
    }
  }

  lemma {:induction false} BaseSpelled(host: string -> string, rb: bool, bs: seq<string>)
    requires bs != [] && AllProper(bs) && KeepsShape(host, bs[0])
    ensures Rehosted(host, Render(rb, bs)) == Render(rb, Spelled(host, bs))
    ensures Spelled(host, bs) != [] && AllProper(Spelled(host, bs)) && |Spelled(host, bs)| == |bs|
  {
    assert SlashFree(bs) && Proper(bs[0]);
    RehostedRender(host, rb, bs);
    SpelledShape(host, bs);
  }

  lemma {:induction false} SpelledTail(host: string -> string, fs: seq<string>, n: nat)
    requires 0 < n < |fs|
    ensures |Spelled(host, fs)| == |fs| && Spelled(host, fs)[n..] == fs[n..]
  {
  }

  lemma {:induction false} ComparedIff(host: string -> string, rf: bool, fs: seq<string>, rb: bool, bs: seq<string>)
    requires SlashFree(fs) && (fs != [] ==> fs[0] != "" && KeepsShape(host, fs[0]))
    requires bs != [] && AllProper(bs) && KeepsShape(host, bs[0]) && KeepsShape(host, "") && KeepsShape(host, ".")
    ensures UnderBase(Rehosted(host, Render(rf, fs)), Rehosted(host, Render(rb, bs))) ==
      if LiesBelow(host, rf, fs, rb, bs) then Ok(Join(fs[|bs|..])) else Err(NotUnderBase)
  {
    FileSpelled(host, rf, fs);
    BaseSpelled(host, rb, bs);
    UnderIff(rf, Spelled(host, fs), rb, Spelled(host, bs));
    if |fs| > |bs| {
      SpelledTail(host, fs, |bs|);
    }
  }

  lemma {:induction false} CleanShape(s: string) returns (n: nat)
    ensures SlashFree(SegmentsOf(s)) && Climbs(SegmentsOf(s), n) && (Rooted(s) ==> n == 0)
    ensures SegmentsOf(s) != [] ==> SegmentsOf(s)[0] != ""
  {
    SplitSlashFree(s);
    n := ReduceShape(Split(s), Rooted(s));
    var segs := SegmentsOf(s);
    forall i | 0 <= i < |segs| ensures '/' !in segs[i] {
      assert i < n || Proper(segs[i]);
    }
    if segs != [] {
      assert 0 < n || Proper(segs[0]);
    }
  }

  lemma {:induction false} RenderRooted(rooted: bool, segs: seq<string>)
    requires SlashFree(segs) && (segs != [] ==> segs[0] != "")
    ensures Rooted(Render(rooted, segs)) == rooted
  {
    if !rooted && segs != [] {
      JoinFirst(segs);
      assert Join(segs)[0] == segs[0][0] && segs[0][0] in segs[0];
    }
  }

  /** A base with a path, at least one segment, and no dots climbing out of it. */
  ghost predicate ProperBase(basePath: string)
  {
    var b := TrimScheme(basePath).1;
    b != "" && SegmentsOf(b) != [] && AllProper(SegmentsOf(b))
  }

  /** A path with a recognised scheme, or one that starts at the root. */
  ghost predicate Absolute(physical: string)
  {
    var (scheme, f) := TrimScheme(physical);
    f != "" && (scheme != "" || (!Contains(physical, "://") && Rooted(f)))
  }

  lemma {:induction false} AbsoluteCompares(physical: string, basePath: string)
    requires ProperBase(basePath) && Absolute(physical)
    ensures RelativizePath(physical, basePath) ==
      UnderBase(CanonicalForCompare(Clean(TrimScheme(physical).1)), CanonicalForCompare(Clean(TrimScheme(basePath).1)))
  {
    var f := TrimScheme(physical).1;
    var n := CleanShape(f);
    RenderRooted(Rooted(f), SegmentsOf(f));
  }

  /** An absolute path is expressed relative to the base if and only if it lies below it by whole segments,
      so a sibling whose name extends the base's is refused; the result is the remaining segments. */
  lemma {:induction false} RelativizeIff(physical: string, basePath: string)
    requires ProperBase(basePath) && Absolute(physical)
    ensures var f, b := TrimScheme(physical).1, TrimScheme(basePath).1;
      RelativizePath(physical, basePath) ==
        if LiesBelow(CanonicalHost, Rooted(f), SegmentsOf(f), Rooted(b), SegmentsOf(b))
        then Ok(Join(SegmentsOf(f)[|SegmentsOf(b)|..])) else Err(NotUnderBase)
  {
    var f, b := TrimScheme(physical).1, TrimScheme(basePath).1;
    AbsoluteCompares(physical, basePath);
    var n := CleanShape(f);
    CanonicalShapes(SegmentsOf(f));
    CanonicalShapes(SegmentsOf(b));
    ComparedIff(CanonicalHost, Rooted(f), SegmentsOf(f), Rooted(b), SegmentsOf(b));
  }

  lemma {:induction false} CanonicalShapes(segs: seq<string>)
    ensures KeepsShape(CanonicalHost, "") && KeepsShape(CanonicalHost, ".") && (segs != [] ==> KeepsShape(CanonicalHost, segs[0]))
  {
    CanonicalKeepsShape("");
    CanonicalKeepsShape(".");
    if segs != [] {
      CanonicalKeepsShape(segs[0]);
    }
  }

  // ---------------------------------------------------------------------------------------
  // What a relative result looks like
  // ---------------------------------------------------------------------------------------

  lemma {:induction false} ProperJoin(t: seq<string>)
    requires t != [] && AllProper(t)
    ensures !Rooted(Join(t)) && Join(t) != "" && !HasDouble(Join(t)) && SegmentsOf(Join(t)) == t
  {
    JoinEnds(t);
    assert SlashFree(t);
    SplitJoin(t);
    NoDouble(t);
    ReduceProper([], t, false);
    assert [] + t == t;
  }

  lemma {:induction false} NoDouble(t: seq<string>)
    requires t != [] && AllProper(t) && Split(Join(t)) == t
    ensures !HasDouble(Join(t))
  {
    DoubleGap(Join(t));
  }

  /** Two separators in a row leave an empty segment between others. */
  lemma {:induction false} DoubleGap(s: string)
    ensures HasDouble(s) ==> exists k :: 0 <= k < |Split(s)| && Split(s)[k] == ""
  {
    if i :| 0 <= i < |s| - 1 && s[i] == '/' && s[i + 1] == '/' {
      var x, y := s[..i], s[i + 2..];
      assert s == x + "/" + ("/" + y);
      SplitConcat(x, "/" + y);
      SplitSlash(y);
      assert Split(s)[|Split(x)|] == "";
    }
  }

  lemma {:induction false} NoScheme(s: string, i: nat)
    requires !HasDouble(s) && i <= |SchemeNames|
    ensures TrimFrom(s, i) == ("", s)
    decreases |SchemeNames| - i
  {
    if i < |SchemeNames| {
      SchemeDoubles(s, SchemeNames[i]);
      NoScheme(s, i + 1);
    }
  }

  lemma {:induction false} SchemeDoubles(s: string, name: string)
    ensures HasPrefix(s, name + "://") ==> HasDouble(s)
  {
    var p := name + "://";
    var k := |name| + 1;
    assert p[k] == '/' && p[k + 1] == '/';
    if HasPrefix(s, p) {
      assert s[k] == '/' && s[k + 1] == '/';
    }
  }

  // ---------------------------------------------------------------------------------------
  // Joining back
  // ---------------------------------------------------------------------------------------

  predicate InScheme(c: char) { c != ':' }

  lemma {:induction false} NamesPlain(i: nat)
    requires i < |SchemeNames|
    ensures forall k :: 0 <= k < |SchemeNames[i]| ==> InScheme(SchemeNames[i][k])
  {
  }

  lemma {:induction false} SchemeFound(p: string, i: nat) returns (k: nat)
    requires i <= |SchemeNames| && TrimFrom(p, i).0 != ""
    ensures k < |SchemeNames| && TrimFrom(p, i).0 == SchemeNames[k] + "://"
    decreases |SchemeNames| - i
  {
    if HasPrefix(p, SchemeNames[i] + "://") {
      k := i;
    } else {
      k := SchemeFound(p, i + 1);
    }
  }

  /** A scheme put in front is the scheme found. */
  lemma {:induction false} SchemeBack(k: nat, j: string, i: nat)
    requires i <= k < |SchemeNames|
    ensures TrimFrom(SchemeNames[k] + "://" + j, i) == (SchemeNames[k] + "://", j)
    decreases k - i
  {
    var p := SchemeNames[k] + "://" + j;
    SameScheme(i, k, j);
    PrefixSplits(p, SchemeNames[k] + "://");
    if i < k && !HasPrefix(p, SchemeNames[i] + "://") {
      SchemeBack(k, j, i + 1);
    }
  }

  lemma {:induction false} SameScheme(i: nat, k: nat, j: string)
    requires i < |SchemeNames| && k < |SchemeNames|
    ensures HasPrefix(SchemeNames[k] + "://" + j, SchemeNames[i] + "://") ==> SchemeNames[i] == SchemeNames[k]
  {
    var a, b, p := SchemeNames[i], SchemeNames[k], SchemeNames[k] + "://" + j;
    if HasPrefix(p, a + "://") {
      PrefixSplits(p, a + "://");
      var rest := p[|a + "://"|..];
      assert p == (a + "://") + rest;
      assert (a + "://") + rest == a + ("://" + rest) && (b + "://") + j == b + ("://" + j);
      NamesPlain(i);
      NamesPlain(k);
      TokenUnique(InScheme, a, "://" + rest, b, "://" + j);
    }
  }

  lemma {:induction false} SegmentsBelow(b: string, t: seq<string>)
    requires b != "" && t != [] && AllProper(t)
    ensures Rooted(b + "/" + Join(t)) == Rooted(b) && SegmentsOf(b + "/" + Join(t)) == SegmentsOf(b) + t
  {
    assert (b + "/" + Join(t))[0] == b[0];
    SplitConcat(b, Join(t));
    assert SlashFree(t);
    SplitJoin(t);
    ReduceProper(Split(b), t, Rooted(b));
  }

  lemma {:induction false} RootedRender(segs: seq<string>)
    requires segs != [] && AllProper(segs)
    ensures SegmentsOf("/" + Join(segs)) == segs && !HasDouble("/" + Join(segs))
  {
    var s := "/" + Join(segs);
    ProperJoin(segs);
    assert SlashFree(segs);
    SplitSlash(Join(segs));
    SplitJoin(segs);
    ReduceProper([""], segs, true);
    assert Reduce([""], true) == [] by { assert [""][..0] == [] && Reduce([], true) == []; }
    assert [] + segs == segs;
    if i :| 0 <= i < |s| - 1 && s[i] == '/' && s[i + 1] == '/' {
      SlashShift(Join(segs), i);
    }
  }

  lemma {:induction false} SlashShift(s: string, i: nat)
    requires i < |s| && ("/" + s)[i] == '/' && ("/" + s)[i + 1] == '/'
    ensures Rooted(s) || HasDouble(s)
  {
    if i == 0 {
      assert s[0] == '/';
    } else {
      var k := i - 1;
      assert s[k] == '/' && s[k + 1] == '/';
    }
  }

  /** Clean segments reduce to themselves. */
  lemma {:induction false} ReduceClimbs(segs: seq<string>, n: nat, rooted: bool)
    requires Climbs(segs, n) && (rooted ==> n == 0)
    ensures Reduce(segs, rooted) == segs
  {
    if segs != [] {
      var init, last := segs[..|segs| - 1], Last(segs);
      ReduceClimbs(init, Min(n, |init|), rooted);
      assert segs == init + [last];
      PushClimbs(init, last, n, rooted);
    }
  }

  lemma {:induction false} PushClimbs(init: seq<string>, last: string, n: nat, rooted: bool)
    requires Climbs(init + [last], n) && (rooted ==> n == 0)
    ensures Push(init, last, rooted) == init + [last]
  {
    var segs := init + [last];
    assert segs[|init|] == last;
    if n == |segs| {
      assert init != [] ==> segs[|init| - 1] == Last(init);
    } else {
      assert Proper(last);
    }
  }

  lemma {:induction false} NoGap(segs: seq<string>, n: nat, s: string)
    requires segs != [] && Climbs(segs, n) && Split(s) == segs
    ensures !HasDouble(s)
  {
    DoubleGap(s);
    assert forall k :: 0 <= k < |segs| ==> segs[k] == ".." || Proper(segs[k]);
  }

  /** Cleaning a path changes neither its segments nor where it starts, and leaves no two separators in a row. */
  lemma {:induction false} CleanNames(s: string)
    ensures Rooted(Clean(s)) == Rooted(s) && SegmentsOf(Clean(s)) == SegmentsOf(s) && !HasDouble(Clean(s))
  {
    var segs := SegmentsOf(s);
    var n := CleanShape(s);
    RenderRooted(Rooted(s), segs);
    if segs == [] {
      Trivial(Rooted(s));
      CleanTrivial(Rooted(s));
    } else if Rooted(s) {
      RootedRender(segs);
    } else {
      SplitRender(false, segs);
      assert Lead(false) + segs == segs;
      ReduceClimbs(segs, n, false);
      NoGap(segs, n, Join(segs));
    }
  }

  lemma {:induction false} CleanTrivial(rooted: bool)
    ensures Reduce(if rooted then ["", ""] else ["."], rooted) == []
  {
    assert ["", ""][..1] == [""] && [""][..0] == [] && ["."][..0] == [];
    assert Reduce([], rooted) == [] && Reduce([""], rooted) == [] && Reduce(["."], rooted) == [];
  }

  /** Joining keeps a recognised scheme and names what the base followed by the element names, whatever separators
      and dots either brings. */
  lemma {:induction false} JoinedNames(basePath: string, elem: string)
    requires TrimScheme(basePath).1 != ""
    ensures var b, j := TrimScheme(basePath), TrimScheme(JoinPath(basePath, elem));
      j.0 == b.0 && Rooted(j.1) == Rooted(b.1) && SegmentsOf(j.1) == SegmentsOf(b.1 + "/" + elem)
  {
    var (scheme, b) := TrimScheme(basePath);
    var whole := b + "/" + elem;
    assert whole[0] == b[0];
    if scheme != "" {
      var k := SchemeFound(basePath, 0);
      CollapseNames(whole);
      SchemeBack(k, Collapse(whole), 0);
    } else {
      NoSchemeIsWhole(basePath, 0);
      NothingJoined(b);
      var x := if elem == "" then b else whole;
      CleanNames(x);
      NoScheme(Clean(x), 0);
    }
  }

  lemma {:induction false} NothingJoined(b: string)
    requires b != ""
    ensures SegmentsOf(b + "/" + "") == SegmentsOf(b) && SegmentsOf(b + "/" + ".") == SegmentsOf(b)
  {
    assert (b + "/" + "")[0] == b[0] && (b + "/" + ".")[0] == b[0];
    SplitConcat(b, "");
    SplitConcat(b, ".");
    SplitPlain("");
    SplitPlain(".");
    ReduceSnoc(Split(b), "", Rooted(b));
    ReduceSnoc(Split(b), ".", Rooted(b));
  }

  /** Joining names the base's segments followed by the relative ones, under the base's scheme. */
  lemma {:induction false} Joined(basePath: string, t: seq<string>)
    requires ProperBase(basePath) && t != [] && AllProper(t)
    ensures var b, j := TrimScheme(basePath), TrimScheme(JoinPath(basePath, Join(t)));
      j.0 == b.0 && Rooted(j.1) == Rooted(b.1) && SegmentsOf(j.1) == SegmentsOf(b.1) + t
  {
    SegmentsBelow(TrimScheme(basePath).1, t);
    JoinedNames(basePath, Join(t));
  }

  lemma {:induction false} NoSchemeIsWhole(p: string, i: nat)
    requires i <= |SchemeNames| && TrimFrom(p, i).0 == ""
    ensures TrimFrom(p, i).1 == p
    decreases |SchemeNames| - i
  {
    if i < |SchemeNames| && !HasPrefix(p, SchemeNames[i] + "://") {
      NoSchemeIsWhole(p, i + 1);
    }
  }

  // ---------------------------------------------------------------------------------------
  // There and back
  // ---------------------------------------------------------------------------------------

  /** The remaining segments of a file below a proper base hold no dots. */
  lemma {:induction false} TailProper(host: string -> string, rf: bool, fs: seq<string>, n: nat, rb: bool, bs: seq<string>)
    requires Climbs(fs, n) && bs != [] && AllProper(bs) && LiesBelow(host, rf, fs, rb, bs)
    requires KeepsShape(host, fs[0]) && KeepsShape(host, bs[0])
    ensures AllProper(fs[|bs|..])
  {
    assert Spelled(host, fs)[0] == host(fs[0]) && Spelled(host, bs)[0] == host(bs[0]);
    assert Spelled(host, fs)[..|bs|][0] == Spelled(host, bs)[0];
    assert Proper(bs[0]);
    assert |fs[0]| <= 2 ==> host(fs[0]) == fs[0];
    assert |host(bs[0])| <= 2 ==> host(bs[0]) == bs[0];
    assert n == 0;
  }

  lemma {:induction false} BelowTail(physical: string, basePath: string) returns (t: seq<string>)
    requires ProperBase(basePath) && Absolute(physical) && RelativizePath(physical, basePath).Ok?
    ensures t != [] && AllProper(t) && RelativizePath(physical, basePath) == Ok(Join(t))
    ensures var f, b := TrimScheme(physical).1, TrimScheme(basePath).1;
      && Rooted(f) == Rooted(b) && |SegmentsOf(f)| > |SegmentsOf(b)| && t == SegmentsOf(f)[|SegmentsOf(b)|..]
      && Spelled(CanonicalHost, SegmentsOf(f))[..|SegmentsOf(b)|] == Spelled(CanonicalHost, SegmentsOf(b))
  {
    var f, b := TrimScheme(physical).1, TrimScheme(basePath).1;
    RelativizeIff(physical, basePath);
    var n := CleanShape(f);
    CanonicalShapes(SegmentsOf(f));
    CanonicalShapes(SegmentsOf(b));
    TailProper(CanonicalHost, Rooted(f), SegmentsOf(f), n, Rooted(b), SegmentsOf(b));
    t := SegmentsOf(f)[|SegmentsOf(b)|..];
  }

  lemma {:induction false} SpelledAppend(host: string -> string, fs: seq<string>, bs: seq<string>)
    requires bs != [] && |fs| > |bs| && Spelled(host, fs)[..|bs|] == Spelled(host, bs)
    ensures Spelled(host, bs + fs[|bs|..]) == Spelled(host, fs)
  {
    var n, t := |bs|, fs[|bs|..];
    SpelledConcat(host, bs, t);
    SpelledTail(host, fs, n);
    Rejoined(Spelled(host, fs), n, t);
  }

  lemma {:induction false} SpelledConcat(host: string -> string, bs: seq<string>, t: seq<string>)
    requires bs != []
    ensures Spelled(host, bs + t) == Spelled(host, bs) + t
  {
    assert (bs + t)[0] == bs[0] && (bs + t)[1..] == bs[1..] + t;
  }

  lemma {:induction false} Rejoined(s: seq<string>, n: nat, t: seq<string>)
    requires n <= |s| && s[n..] == t
    ensures s[..n] + t == s
  {
  }

  /** A relative result never looks absolute or schemed, so a reader joins it to the table's base; the joined
      path names the original file, up to the spelling of its scheme and host. */
  lemma {:induction false} RelativeRoundTrip(physical: string, basePath: string)
    requires ProperBase(basePath) && Absolute(physical) && RelativizePath(physical, basePath).Ok?
    ensures var rel := RelativizePath(physical, basePath).value;
      !Rooted(rel) && TrimScheme(rel).0 == "" && ResolveDataPath(basePath, rel) == JoinPath(basePath, rel)
    ensures var f, j := TrimScheme(physical).1, TrimScheme(ResolveDataPath(basePath, RelativizePath(physical, basePath).value)).1;
      Rooted(j) == Rooted(f) && Spelled(CanonicalHost, SegmentsOf(j)) == Spelled(CanonicalHost, SegmentsOf(f))
  {
    var t := BelowTail(physical, basePath);
    ProperJoin(t);
    NoScheme(Join(t), 0);
    Joined(basePath, t);
    SpelledAppend(CanonicalHost, SegmentsOf(TrimScheme(physical).1), SegmentsOf(TrimScheme(basePath).1));
  }

  /** A path already relative: kept, cleaned, exactly when it does not climb out; joining puts its segments
      after the base's. */
  lemma {:induction false} RelativeKept(physical: string, basePath: string)
    requires ProperBase(basePath) && TrimScheme(physical) == ("", physical) && physical != "" && !Rooted(physical)
    requires !Contains(physical, "://")
    ensures var segs := SegmentsOf(physical);
      RelativizePath(physical, basePath) == if AllProper(segs) then Ok(Render(false, segs)) else Err(NotUnderBase)
    ensures var segs := SegmentsOf(physical);
      AllProper(segs) ==> SegmentsOf(TrimScheme(JoinPath(basePath, Render(false, segs))).1) == SegmentsOf(TrimScheme(basePath).1) + segs
  {
    var fs := SegmentsOf(physical);
    var n := CleanShape(physical);
    RenderRooted(false, fs);
    CleanClimbs(fs, n);
    if AllProper(fs) {
      RenderJoined(basePath, fs);
    }
  }

  lemma {:induction false} CleanClimbs(fs: seq<string>, n: nat)
    requires Climbs(fs, n)
    ensures Render(false, fs) == ".." || HasPrefix(Render(false, fs), "../") <==> !AllProper(fs)
  {
    if fs != [] {
      ClimbsOut(fs, n);
    }
  }

  lemma {:induction false} RenderJoined(basePath: string, segs: seq<string>)
    requires ProperBase(basePath) && AllProper(segs)
    ensures SegmentsOf(TrimScheme(JoinPath(basePath, Render(false, segs))).1) == SegmentsOf(TrimScheme(basePath).1) + segs
  {
    if segs == [] {
      JoinedNames(basePath, ".");
      NothingJoined(TrimScheme(basePath).1);
      assert SegmentsOf(TrimScheme(basePath).1) + [] == SegmentsOf(TrimScheme(basePath).1);
    } else {
      Joined(basePath, segs);
    }
  }

  lemma {:induction false} ClimbsOut(fs: seq<string>, n: nat)
    requires fs != [] && Climbs(fs, n)
    ensures Join(fs) == ".." || HasPrefix(Join(fs), "../") <==> !AllProper(fs)
  {
    JoinFirst(fs);
    var h, rest := fs[0], After(fs);
    if n > 0 {
      assert h == "..";
      assert rest == "" ==> Join(fs) == "..";
      assert rest != "" ==> rest[0] == '/';
      assert !Proper(fs[0]);
    } else {
      assert AllProper(fs) && Proper(h);
      NotDots(h, rest);
    }
  }

  lemma {:induction false} NotDots(h: string, rest: string)
    requires Proper(h) && (rest == "" || Rooted(rest))
    ensures h + rest != ".." && !HasPrefix(h + rest, "../")
  {
    var s := h + rest;
    assert forall i :: 0 <= i < |h| ==> s[i] == h[i] && h[i] != '/';
    if |h| == 1 {
      assert h[0] != '.' by { assert h == [h[0]]; }
    } else if |h| == 2 {
      assert h[0] != '.' || h[1] != '.' by { assert h == [h[0], h[1]]; }
    } else {
      assert s[2] == h[2];
    }
  }

  /** A sibling of the table, however its name begins, is never claimed as part of it. */
  lemma {:induction false} SiblingRefused(physical: string, basePath: string)
    requires ProperBase(basePath) && Absolute(physical)
    requires var fs, bs := SegmentsOf(TrimScheme(physical).1), SegmentsOf(TrimScheme(basePath).1);
      |bs| <= |fs| && (if |bs| == 1 then CanonicalHost(fs[0]) != CanonicalHost(bs[0]) else fs[|bs| - 1] != Last(bs))
    ensures RelativizePath(physical, basePath) == Err(NotUnderBase)
  {
    var f, b := TrimScheme(physical).1, TrimScheme(basePath).1;
    NotBelow(CanonicalHost, Rooted(f), SegmentsOf(f), Rooted(b), SegmentsOf(b));
    RelativizeIff(physical, basePath);
  }

  lemma {:induction false} ReplaceAbsent(s: string, was: string, now: string, c: char)
    requires c in was && c !in s
    ensures Replace(s, was, now) == s
  {
    var i :| 0 <= i < |was| && was[i] == c;
    assert i < |s| ==> s[i] in s;
    assert !HasPrefix(s, was);
    if s != "" {
      assert forall d :: d in s[1..] ==> d in s;
      ReplaceAbsent(s[1..], was, now, c);
    }
  }

  /** Hosts without a dot, such as bucket names, have one spelling. */
  lemma {:induction false} DotFreeHost(h: string)
    requires '.' !in h
    ensures CanonicalHost(h) == h
  {
    assert Blob[0] == '.' && OneLakeBlob[7] == '.';
    ReplaceAbsent(h, Blob, Dfs, '.');
    ReplaceAbsent(h, OneLakeBlob, OneLakeDfs, '.');
  }

  lemma {:induction false} NotBelow(host: string -> string, rf: bool, fs: seq<string>, rb: bool, bs: seq<string>)
    requires 0 < |bs| <= |fs| && (if |bs| == 1 then host(fs[0]) != host(bs[0]) else fs[|bs| - 1] != Last(bs))
    ensures !LiesBelow(host, rf, fs, rb, bs)
  {
    var k := |bs| - 1;
    assert Spelled(host, bs)[k] != Spelled(host, fs)[k];
    assert Spelled(host, fs)[..|bs|][k] == Spelled(host, fs)[k];
  }

  // ---------------------------------------------------------------------------------------
  // Names that are spelled out
  // ---------------------------------------------------------------------------------------

  predicate IsScheme(name: string)
  {
    name in {"s3", "s3a", "gs", "abfss", "abfs", "wasbs", "wasb", "mem", "file"}
  }

  lemma {:induction false} SchemesListed(name: string)
    ensures IsScheme(name) <==> exists k :: 0 <= k < |SchemeNames| && SchemeNames[k] == name
  {
    var s := SchemeNames;
    assert s[0] == "s3" && s[1] == "s3a" && s[2] == "gs" && s[3] == "abfss" && s[4] == "abfs" && s[5] == "wasbs" && s[6] == "wasb" && s[7] == "mem" && s[8] == "file";
  }

  /** A path has a scheme if and only if it begins with one of the nine and "://"; then that and the rest are what it
      splits into, else nothing and the whole. */
  lemma {:induction false} SchemeMeans(p: string, name: string)
    ensures IsScheme(name) && HasPrefix(p, name + "://") ==> TrimScheme(p) == (name + "://", p[|name| + 3..])
    ensures TrimScheme(p).0 != "" <==> exists n :: IsScheme(n) && HasPrefix(p, n + "://")
    ensures TrimScheme(p).0 == "" ==> TrimScheme(p).1 == p
  {
    if IsScheme(name) && HasPrefix(p, name + "://") {
      SchemesListed(name);
      var k :| 0 <= k < |SchemeNames| && SchemeNames[k] == name;
      PrefixSplits(p, name + "://");
      SchemeBack(k, p[|name| + 3..], 0);
      assert p == name + "://" + p[|name| + 3..];
    }
    if n :| IsScheme(n) && HasPrefix(p, n + "://") {
      SchemesListed(n);
      var k :| 0 <= k < |SchemeNames| && SchemeNames[k] == n;
      PrefixSplits(p, n + "://");
      SchemeBack(k, p[|n| + 3..], 0);
      assert p == n + "://" + p[|n| + 3..];
    }
    if TrimScheme(p).0 != "" {
      var k := SchemeFound(p, 0);
      SchemesListed(SchemeNames[k]);
      FoundPrefix(p, 0);
    } else {
      NoSchemeIsWhole(p, 0);
    }
  }

  lemma {:induction false} FoundPrefix(p: string, i: nat)
    requires i <= |SchemeNames| && TrimFrom(p, i).0 != ""
    ensures HasPrefix(p, TrimFrom(p, i).0)
    decreases |SchemeNames| - i
  {
    if !HasPrefix(p, SchemeNames[i] + "://") {
      FoundPrefix(p, i + 1);
    }
  }

  lemma {:induction false} ReplaceAfter(x: string, was: string, now: string, rest: string)
    requires was != "" && was[0] !in x
    ensures Replace(x + was + rest, was, now) == x + now + rest
  {
    var s := x + was + rest;
    if x == "" {
      assert s == was + rest && s[|was|..] == rest;
    } else {
      assert s[0] == x[0] && x[0] in x && s[0] != was[0];
      assert s[1..] == x[1..] + was + rest;
      assert forall c :: c in x[1..] ==> c in x;
      ReplaceAfter(x[1..], was, now, rest);
      assert [x[0]] + (x[1..] + now + rest) == x + now + rest;
    }
  }

  /** The two spellings of an Azure account are one. */
  lemma {:induction false} AzureHosts(account: string)
    requires '.' !in account
    ensures CanonicalHost(account + ".blob.core.windows.net") == account + ".dfs.core.windows.net"
    ensures CanonicalHost(account + ".dfs.core.windows.net") == account + ".dfs.core.windows.net"
  {
    var blob, dfs := account + Blob, account + Dfs;
    assert blob == account + Blob + "" && account + Dfs + "" == dfs;
    ReplaceAfter(account, Blob, Dfs, "");
    Unreplaced(account);
  }

  /** No dot is followed by this letter. */
  ghost predicate NoDotted(s: string, c: char) { forall i :: 0 <= i < |s| - 1 && s[i] == '.' ==> s[i + 1] != c }

  lemma {:induction false} ReplaceUndotted(s: string, was: string, now: string, k: nat, c: char)
    requires NoDotted(s, c) && k + 1 < |was| && was[k] == '.' && was[k + 1] == c
    ensures Replace(s, was, now) == s
  {
    if k + 1 < |s| {
      assert s[k] != '.' || s[k + 1] != c;
    }
    assert !HasPrefix(s, was);
    if s != "" {
      ReplaceUndotted(s[1..], was, now, k, c);
    }
  }

  lemma {:induction false} Unreplaced(account: string)
    requires '.' !in account
    ensures Replace(account + Dfs, Blob, Dfs) == account + Dfs && Replace(account + Dfs, OneLakeBlob, OneLakeDfs) == account + Dfs
  {
    DottedHosts();
    DottedLater(account, Dfs, 'b');
    assert Blob[0] == '.' && Blob[1] == 'b' && OneLakeBlob[7] == '.' && OneLakeBlob[8] == 'b';
    ReplaceUndotted(account + Dfs, Blob, Dfs, 0, 'b');
    ReplaceUndotted(account + Dfs, OneLakeBlob, OneLakeDfs, 7, 'b');
  }

  lemma {:induction false} DottedLater(a: string, s: string, c: char)
    requires '.' !in a && NoDotted(s, c)
    ensures NoDotted(a + s, c)
  {
    var all := a + s;
    assert forall i :: 0 <= i < |a| ==> all[i] == a[i] && a[i] in a;
    forall i | |a| <= i < |all| - 1 && all[i] == '.' ensures all[i + 1] != c {
      assert all[i] == s[i - |a|] && all[i + 1] == s[i + 1 - |a|];
    }
  }

  lemma {:induction false} DottedHosts()
    ensures NoDotted(Dfs, 'b') && NoDotted(OneLakeDfs, 'b') && NoDotted(OneLakeDfs, 'w') && NoDotted(OneLakeBlob, 'w')
  {
    DottedDfs(Dfs);
    DottedOneLake(OneLakeDfs);
    DottedBlob(OneLakeBlob);
  }

  lemma {:induction false} DottedDfs(s: string)
    requires s == Dfs
    ensures NoDotted(s, 'b')
  {
  }

  lemma {:induction false} DottedOneLake(s: string)
    requires s == OneLakeDfs
    ensures NoDotted(s, 'b') && NoDotted(s, 'w')
  {
  }

  lemma {:induction false} DottedBlob(s: string)
    requires s == OneLakeBlob
    ensures NoDotted(s, 'w')
  {
  }

  /** So are OneLake's. */
  lemma {:induction false} OneLakeHosts(blob: string, dfs: string)
    requires blob == "onelake.blob.fabric.microsoft.com" && dfs == "onelake.dfs.fabric.microsoft.com"
    ensures CanonicalHost(blob) == dfs && CanonicalHost(dfs) == dfs
  {
    DottedHosts();
    BlobDots();
    TwoReplaced(blob, blob, dfs, Blob, Dfs);
  }

  lemma {:induction false} BlobDots()
    ensures |Blob| > 11 && Blob[10] == '.' && Blob[11] == 'w' && |OneLakeBlob| > 8 && OneLakeBlob[7] == '.' && OneLakeBlob[8] == 'b'
  {
  }

  lemma {:induction false} TwoReplaced(s: string, whole: string, now: string, was: string, other: string)
    requires s == whole && NoDotted(s, 'w') && NoDotted(now, 'w') && NoDotted(now, 'b')
    requires |was| > 11 && was[10] == '.' && was[11] == 'w' && |whole| > 8 && whole[7] == '.' && whole[8] == 'b'
    ensures Replace(Replace(s, was, other), whole, now) == now && Replace(Replace(now, was, other), whole, now) == now
  {
    ReplaceUndotted(s, was, other, 10, 'w');
    ReplaceUndotted(now, was, other, 10, 'w');
    ReplaceUndotted(now, whole, now, 7, 'b');
    WholeReplaced(whole, now);
  }

  lemma {:induction false} WholeReplaced(was: string, now: string)
    ensures Replace(was, was, now) == now
  {
    assert was[|was|..] == "" && now + "" == now;
  }

  /** Without a base an element names what it names by itself. */
  lemma {:induction false} JoinedToNothing(elem: string)
    ensures JoinPath("", "") == ""
    ensures elem != "" ==> Rooted(JoinPath("", elem)) == Rooted(elem) && SegmentsOf(JoinPath("", elem)) == SegmentsOf(elem)
  {
    assert forall k :: 0 <= k < |SchemeNames| ==> !HasPrefix("", SchemeNames[k] + "://");
    SchemeMeans("", "");
    CleanNames(elem);
  }

  /** A path without a base, without a file or with an unknown scheme is invalid, and nothing else is. */
  lemma {:induction false} InvalidIff(physical: string, basePath: string)
    ensures RelativizePath(physical, basePath) == Err(InvalidPath) <==>
      || TrimScheme(basePath).1 == "" || TrimScheme(physical).1 == ""
      || (TrimScheme(physical).0 == "" && Contains(physical, "://"))
  {
  }

  /** However an absolute file is recorded, relative to the table or as it is, a reader resolves the record to it, up
      to the spelling of scheme and host. */
  lemma {:induction false} RecordedRoundTrip(physical: string, basePath: string)
    requires ProperBase(basePath) && Absolute(physical)
    ensures var r := RelativizePath(physical, basePath);
      var recorded := if r.Ok? then r.value else physical;
      var f, j := TrimScheme(physical).1, TrimScheme(ResolveDataPath(basePath, recorded)).1;
      Rooted(j) == Rooted(f) && Spelled(CanonicalHost, SegmentsOf(j)) == Spelled(CanonicalHost, SegmentsOf(f))
  {
    if RelativizePath(physical, basePath).Ok? {
      RelativeRoundTrip(physical, basePath);
    } else {
      NoSchemeRooted(physical);
    }
  }

  lemma {:induction false} NoSchemeRooted(physical: string)
    requires Absolute(physical)
    ensures TrimScheme(physical).0 != "" || Rooted(physical)
  {
    if TrimScheme(physical).0 == "" {
      NoSchemeIsWhole(physical, 0);
    }
  }
}

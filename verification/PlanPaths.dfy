/**
 * Declared write paths (scripts/plan_guard.py, `path_prefix` and `path_overlap`): the text comparison against what
 * the patterns cover. A path is a list of names; two spellings of one path, such as "./a" and "a", are the same list.
 */
module PlanPaths {
  import opened Common
  import opened Text

  predicate IsWildcard(c: char) {
    c == '?' || c == '*' || c == '['
  }

  predicate HasWildcard(s: string) {
    exists k :: 0 <= k < |s| && IsWildcard(s[k])
  }

  function Slashes(s: string): (r: string)
    ensures |r| == |s| && forall k :: 0 <= k < |s| ==> r[k] == if s[k] == '\\' then '/' else s[k]
  {
    seq(|s|, k requires 0 <= k < |s| => if s[k] == '\\' then '/' else s[k])
  }

  /** The text before the first wildcard. */
  function BeforeWildcard(s: string): (r: string)
    ensures r <= s && !HasWildcard(r)
    ensures HasWildcard(s) <==> |r| < |s|
    ensures |r| < |s| ==> IsWildcard(s[|r|])
  {
    if s == [] || IsWildcard(s[0]) then []
    else
      var rest := BeforeWildcard(s[1..]);
      assert s == [s[0]] + s[1..];
      assert HasWildcard(s) <==> HasWildcard(s[1..]) by {
        if HasWildcard(s) { var k :| 0 <= k < |s| && IsWildcard(s[k]); assert IsWildcard(s[1..][k - 1]); }
        if HasWildcard(s[1..]) { var k :| 0 <= k < |s[1..]| && IsWildcard(s[1..][k]); assert IsWildcard(s[k + 1]); }
      }
      [s[0]] + rest
  }

  function TrimSlashes(s: string): (r: string)
    ensures r <= s && (r == [] || Last(r) != '/')
    ensures forall k :: |r| <= k < |s| ==> s[k] == '/'
  {
    if s != [] && Last(s) == '/' then TrimSlashes(Init(s)) else s
  }

  function PathPrefix(glob: string): string {
    TrimSlashes(BeforeWildcard(Slashes(glob)))
  }

  predicate StartsWith(s: string, prefix: string) {
    prefix <= s
  }

  predicate PathOverlap(a: string, b: string) {
    var x, y := PathPrefix(a), PathPrefix(b);
    if HasWildcard(a + b) then x == [] || y == [] || StartsWith(x, y) || StartsWith(y, x)
    else x == y || StartsWith(x, y + "/") || StartsWith(y, x + "/")
  }

  // ----- what a pattern covers -----

  type Path = seq<string>

  predicate ValidPath(path: Path) {
    forall k :: 0 <= k < |path| ==> !Vanishes(path[k]) && '/' !in path[k]
  }

  /** The part of a pattern that is compared: up to the first wildcard, or all of it. */
  function Head(pattern: string): string {
    BeforeWildcard(Slashes(pattern))
  }

  /** A literal covers itself and its subtree. */
  predicate LiteralCovers(pattern: string, path: Path) {
    Parts(Slashes(pattern)) <= path
  }

  /**
   * A glob can only match paths that lie in the directories before its first wildcard and go on with the rest of
   * the text before it.
   */
  predicate GlobReaches(pattern: string, path: Path) {
    var segments := Split('/', Head(pattern));
    var directories := WithoutDots(Init(segments));
    && directories <= path
    && (Last(segments) == "" || (|path| > |directories| && Last(segments) <= path[|directories|]))
  }

  /** The paths that a pattern may stand for. */
  predicate Reaches(pattern: string, path: Path) {
    if HasWildcard(pattern) then GlobReaches(pattern, path) else LiteralCovers(pattern, path)
  }

  /** `matches` is any reading of the globs that stays within `GlobReaches`. */
  ghost predicate AnchoredGlobs(matches: (string, Path) -> bool) {
    forall g, path :: HasWildcard(g) && matches(g, path) ==> GlobReaches(g, path)
  }

  ghost predicate Covers(matches: (string, Path) -> bool, pattern: string, path: Path) {
    if HasWildcard(pattern) then matches(pattern, path) else LiteralCovers(pattern, path)
  }

  /** The segments of the compared text that stand for whole names: all but the one that a wildcard goes on from. */
  function WholeSegments(pattern: string): seq<string> {
    var segments := Split('/', PathPrefix(pattern));
    if HasWildcard(pattern) && PathPrefix(pattern) == Head(pattern) then Init(segments) else segments
  }

  predicate AllPlain(segments: seq<string>) {
    forall k :: 0 <= k < |segments| ==> !Vanishes(segments[k])
  }

  /** No empty and no "." segment; a glob with nothing before its wildcard is plain as well. */
  predicate Plain(pattern: string) {
    (HasWildcard(pattern) && PathPrefix(pattern) == "") || AllPlain(WholeSegments(pattern))
  }

  // ----- text prefixes as segment lists -----

  /** All but the last segment agree, and the last one begins its counterpart. */
  predicate SegmentPrefix(x: seq<string>, y: seq<string>) {
    x != [] && |x| <= |y| && (forall k :: 0 <= k < |x| - 1 ==> x[k] == y[k]) && Last(x) <= y[|x| - 1]
  }

  lemma SegmentPrefixStep(first: string, x: seq<string>, y: seq<string>)
    requires x != [] && y != []
    ensures SegmentPrefix([first] + x, [first] + y) <==> SegmentPrefix(x, y)
  {
    var a, b := [first] + x, [first] + y;
    if SegmentPrefix(a, b) {
      forall k | 0 <= k < |x| - 1 ensures x[k] == y[k] { assert a[k + 1] == b[k + 1]; }
    }
  }

  lemma SegmentPrefixChar(c: char, x: seq<string>, y: seq<string>)
    requires x != [] && y != []
    ensures SegmentPrefix([[c] + x[0]] + x[1..], [[c] + y[0]] + y[1..]) <==> SegmentPrefix(x, y)
  {
    var a, b := [[c] + x[0]] + x[1..], [[c] + y[0]] + y[1..];
    Cancel(c, x[0], y[0]);
    if SegmentPrefix(a, b) {
      forall k | 0 <= k < |x| - 1 ensures x[k] == y[k] { assert a[k] == b[k]; }
    }
  }

  lemma Cancel(c: char, a: string, b: string)
    ensures [c] + a <= [c] + b <==> a <= b
    ensures [c] + a == [c] + b <==> a == b
  {
    if [c] + a <= [c] + b { assert ([c] + a)[1..] <= ([c] + b)[1..]; }
    if [c] + a == [c] + b { assert ([c] + a)[1..] == ([c] + b)[1..]; }
  }

  lemma {:induction false} TextPrefix(x: string, y: string)
    ensures x <= y <==> SegmentPrefix(Split('/', x), Split('/', y))
  {
    if x == [] {
      assert Split('/', x) == [""];
    } else if y == [] {
      var X := Split('/', x);
      assert Split('/', y) == [""];
      if |X| == 1 { JoinSplit('/', x); }
    } else {
      hide Split, SegmentPrefix;
      var c, d, u, v := x[0], y[0], x[1..], y[1..];
      assert x == [c] + u && y == [d] + v;
      SplitStep('/', c, u);
      SplitStep('/', d, v);
      TextPrefix(u, v);
      if c != d {
        DifferentStart(c, d, Split('/', u), Split('/', v));
      } else {
        Cancel(c, u, v);
        if c == '/' {
          SegmentPrefixStep("", Split('/', u), Split('/', v));
        } else {
          SegmentPrefixChar(c, Split('/', u), Split('/', v));
        }
      }
    }
  }

  lemma DifferentStart(c: char, d: char, x: seq<string>, y: seq<string>)
    requires c != d && x != [] && y != []
    ensures !SegmentPrefix(if c == '/' then [""] + x else [[c] + x[0]] + x[1..],
                           if d == '/' then [""] + y else [[d] + y[0]] + y[1..])
  {
    var a := if c == '/' then [""] + x else [[c] + x[0]] + x[1..];
    var b := if d == '/' then [""] + y else [[d] + y[0]] + y[1..];
    assert c != '/' ==> a[0][0] == c;
    assert d != '/' ==> b[0][0] == d;
  }

  /** Being the same text or going on after a slash is being the same list or a longer one. */
  lemma ListPrefix(x: string, y: string)
    ensures x == y || StartsWith(x, y + "/") <==> Split('/', y) <= Split('/', x)
  {
    hide Split;
    var X, Y := Split('/', x), Split('/', y);
    JoinSplit('/', x);
    JoinSplit('/', y);
    if StartsWith(x, y + "/") {
      var rest := x[|y| + 1..];
      assert x == y + (['/'] + rest);
      SplitConcat('/', y, rest);
    }
    if Y <= X && X != Y {
      var more := X[|Y|..];
      assert X == Y + more;
      JoinConcat('/', Y, more);
      assert x == (y + "/") + Join('/', more);
    }
  }

  // ----- the compared text of a pattern -----

  lemma WildcardFreeHead(s: string)
    requires !HasWildcard(s)
    ensures Head(s) == Slashes(s)
  {
    forall k | 0 <= k < |s| ensures !IsWildcard(Slashes(s)[k]) { assert !IsWildcard(s[k]); }
  }

  lemma {:induction false} TrimKeepsParts(s: string)
    ensures Parts(TrimSlashes(s)) == Parts(s)
  {
    if s != [] && Last(s) == '/' {
      TrimKeepsParts(Init(s));
      SplitConcat('/', Init(s), "");
      assert s == Init(s) + (['/'] + "");
      WithoutDotsConcat(Split('/', Init(s)), [""]);
    }
  }

  /** The last segment is empty exactly for an empty text and after a slash. */
  lemma {:induction false} LastSegment(s: string)
    ensures Last(Split('/', s)) == "" <==> s == "" || Last(s) == '/'
  {
    if s != [] {
      LastSegment(s[1..]);
      assert s[1..] != [] ==> Last(s) == Last(s[1..]);
    }
  }

  lemma InitParts(segments: seq<string>)
    requires segments != [] && Last(segments) == ""
    ensures WithoutDots(Init(segments)) == WithoutDots(segments)
  {
    assert segments == Init(segments) + [""];
    WithoutDotsConcat(Init(segments), [""]);
  }

  /** The names that the whole segments of the compared text stand for. */
  lemma WholeParts(pattern: string)
    requires !(HasWildcard(pattern) && PathPrefix(pattern) == "")
    ensures if HasWildcard(pattern)
            then WithoutDots(WholeSegments(pattern)) == WithoutDots(Init(Split('/', Head(pattern))))
            else WithoutDots(WholeSegments(pattern)) == Parts(Slashes(pattern))
  {
    hide WithoutDots, Split;
    var h, x := Head(pattern), PathPrefix(pattern);
    TrimKeepsParts(h);
    if HasWildcard(pattern) {
      if x != h {
        LastSegment(h);
        assert Last(h) == '/';
        InitParts(Split('/', h));
      }
    } else {
      WildcardFreeHead(pattern);
    }
  }

  // ----- sound for plain patterns -----

  /** A path that a plain pattern reaches begins with the segments of the compared text. */
  lemma ReachedSegments(pattern: string, path: Path)
    requires Plain(pattern) && Reaches(pattern, path) && PathPrefix(pattern) != ""
    ensures SegmentPrefix(Split('/', PathPrefix(pattern)), path)
    ensures !HasWildcard(pattern) ==> Split('/', PathPrefix(pattern)) <= path
  {
    hide Split, WithoutDots;
    WholeParts(pattern);
    NoDots(WholeSegments(pattern));
    LastSegment(PathPrefix(pattern));
  }

  lemma BothBegin(x: seq<string>, y: seq<string>, path: Path)
    requires SegmentPrefix(x, path) && SegmentPrefix(y, path)
    ensures SegmentPrefix(x, y) || SegmentPrefix(y, x)
  {
    if |x| == |y| {
      var a, b, p := Last(x), Last(y), path[|x| - 1];
      if |a| <= |b| { assert a == b[..|a|]; } else { assert b == a[..|b|]; }
    }
  }

  lemma WildcardOfConcat(a: string, b: string)
    ensures HasWildcard(a + b) <==> HasWildcard(a) || HasWildcard(b)
  {
    if HasWildcard(a) { var k :| 0 <= k < |a| && IsWildcard(a[k]); assert IsWildcard((a + b)[k]); }
    if HasWildcard(b) { var k :| 0 <= k < |b| && IsWildcard(b[k]); assert IsWildcard((a + b)[|a| + k]); }
  }

  lemma PlainLiteralIsNotEmpty(pattern: string)
    requires Plain(pattern) && !HasWildcard(pattern)
    ensures PathPrefix(pattern) != ""
  {
    assert Split('/', "") == [""] && Vanishes([""][0]);
  }

  /** A path that two plain patterns reach makes them overlap. */
  lemma SharedPathOverlaps(a: string, b: string, path: Path)
    requires Plain(a) && Plain(b) && Reaches(a, path) && Reaches(b, path)
    ensures PathOverlap(a, b)
  {
    hide Split, Plain, Reaches, PathPrefix;
    var x, y := PathPrefix(a), PathPrefix(b);
    WildcardOfConcat(a, b);
    if !HasWildcard(a) { PlainLiteralIsNotEmpty(a); }
    if !HasWildcard(b) { PlainLiteralIsNotEmpty(b); }
    if x != "" && y != "" {
      ReachedSegments(a, path);
      ReachedSegments(b, path);
      if HasWildcard(a + b) {
        BothBegin(Split('/', x), Split('/', y), path);
        TextPrefix(x, y);
        TextPrefix(y, x);
      } else {
        PrefixesOfOne(Split('/', x), Split('/', y), path);
        ListPrefix(x, y);
        ListPrefix(y, x);
      }
    }
  }

  lemma PrefixesOfOne<T>(x: seq<T>, y: seq<T>, p: seq<T>)
    requires x <= p && y <= p
    ensures x <= y || y <= x
  {
    if |x| <= |y| { assert x == y[..|x|]; } else { assert y == x[..|y|]; }
  }

  /** Under any anchored reading of the globs the comparison never misses a path that plain patterns share. */
  lemma OverlapIsSound(matches: (string, Path) -> bool, a: string, b: string, path: Path)
    requires AnchoredGlobs(matches) && Plain(a) && Plain(b) && Covers(matches, a, path) && Covers(matches, b, path)
    ensures PathOverlap(a, b)
  {
    hide PathOverlap, Plain, GlobReaches, LiteralCovers;
    SharedPathOverlaps(a, b, path);
  }

  // ----- exact for literals -----

  /** Plain literals overlap exactly when some path is covered by both: one part list begins the other. */
  lemma LiteralOverlapIsExact(a: string, b: string)
    requires Plain(a) && Plain(b) && !HasWildcard(a) && !HasWildcard(b)
    ensures PathOverlap(a, b) <==> Parts(Slashes(a)) <= Parts(Slashes(b)) || Parts(Slashes(b)) <= Parts(Slashes(a))
    ensures PathOverlap(a, b) <==> exists path :: LiteralCovers(a, path) && LiteralCovers(b, path)
  {
    var p, q := Parts(Slashes(a)), Parts(Slashes(b));
    LiteralSegments(a);
    LiteralSegments(b);
    LiteralOverlap(a, b);
    if p <= q { assert LiteralCovers(a, q) && LiteralCovers(b, q); }
    if q <= p { assert LiteralCovers(a, p) && LiteralCovers(b, p); }
    if path :| LiteralCovers(a, path) && LiteralCovers(b, path) { PrefixesOfOne(p, q, path); }
  }

  lemma LiteralSegments(a: string)
    requires Plain(a) && !HasWildcard(a)
    ensures Parts(Slashes(a)) == Split('/', PathPrefix(a))
  {
    hide Split, WithoutDots;
    WholeParts(a);
    NoDots(WholeSegments(a));
  }

  lemma LiteralOverlap(a: string, b: string)
    requires !HasWildcard(a) && !HasWildcard(b)
    ensures var x, y := Split('/', PathPrefix(a)), Split('/', PathPrefix(b)); PathOverlap(a, b) <==> x <= y || y <= x
  {
    hide Split, PathPrefix;
    WildcardOfConcat(a, b);
    ListPrefix(PathPrefix(a), PathPrefix(b));
    ListPrefix(PathPrefix(b), PathPrefix(a));
  }

  /**
   * With a wildcard on either side the comparison blocks exactly the pairs whose compared texts could begin one
   * common name.
   */
  lemma GlobOverlapIsExact(a: string, b: string)
    requires HasWildcard(a + b)
    ensures PathOverlap(a, b) <==> exists p: string :: StartsWith(p, PathPrefix(a)) && StartsWith(p, PathPrefix(b))
  {
    hide PathPrefix;
    var x, y := PathPrefix(a), PathPrefix(b);
    if PathOverlap(a, b) {
      var p := if x <= y then y else x;
      assert StartsWith(p, x) && StartsWith(p, y);
    }
    if p: string :| StartsWith(p, x) && StartsWith(p, y) { PrefixesOfOne(x, y, p); }
  }

  // ----- not sound for any other pattern -----

  /** The comparison catches every path that the pattern shares with a plain literal. */
  ghost predicate Safe(a: string) {
    forall b, path :: Plain(b) && !HasWildcard(b) && ValidPath(path) && Reaches(a, path) && LiteralCovers(b, path) ==>
      PathOverlap(a, b)
  }

  lemma FirstVanishing(segments: seq<string>) returns (k: nat)
    requires !AllPlain(segments)
    ensures k < |segments| && Vanishes(segments[k]) && AllPlain(segments[..k])
  {
    k := 0;
    while !Vanishes(segments[k])
      invariant k < |segments| && AllPlain(segments[..k])
      decreases |segments| - k
    {
      if k == |segments| - 1 { assert AllPlain(segments); }
      k := k + 1;
    }
  }

  /** Without its dots the list still begins with what came before the first of them. */
  lemma DotsAgree(segments: seq<string>, k: nat)
    requires k < |segments| && Vanishes(segments[k]) && AllPlain(segments[..k])
    ensures k <= |WithoutDots(segments)| < |segments| && WithoutDots(segments)[..k] == segments[..k]
  {
    assert segments == segments[..k] + segments[k..] && segments[k..] == [segments[k]] + segments[k + 1..];
    WithoutDotsConcat(segments[..k], segments[k..]);
    WithoutDotsStep(segments[k], segments[k + 1..]);
    NoDots(segments[..k]);
  }

  /** The list without its dots, one name longer, and the list itself do not begin one another. */
  lemma HeldApart(x: seq<string>, whole: seq<string>, name: string)
    requires x != [] && !AllPlain(whole) && !Vanishes(name)
    requires (whole == x && name == "x") || (whole == Init(x) && Last(x) != "")
    ensures var y := WithoutDots(whole) + [name];
            !(x <= y) && !(y <= x) && !SegmentPrefix(y, x) && (Last(x) != "" ==> !SegmentPrefix(x, y))
  {
    var k := FirstVanishing(whole);
    DotsAgree(whole, k);
    WithoutDotsKeeps(whole);
    var y := WithoutDots(whole) + [name];
    assert x[k] == whole[k];
    assert k < |WithoutDots(whole)| ==> y[k] in WithoutDots(whole);
    assert !Vanishes(y[k]);
    assert !(name <= x[k]);
    if whole == x && k == |x| - 1 {
      assert y[k] == "x";
    }
  }

  predicate PlainChar(c: char) {
    !IsWildcard(c) && c != '\\'
  }

  predicate PlainChars(s: string) {
    forall k :: 0 <= k < |s| ==> PlainChar(s[k])
  }

  lemma {:induction false} JoinChars(parts: seq<string>)
    requires forall k :: 0 <= k < |parts| ==> PlainChars(parts[k])
    ensures PlainChars(Join('/', parts))
  {
    if |parts| > 1 { JoinChars(parts[1..]); }
  }

  lemma {:induction false} JoinEnd(parts: seq<string>)
    requires parts != [] && Last(parts) != ""
    ensures Join('/', parts) != "" && Last(Join('/', parts)) == Last(Last(parts))
  {
    if |parts| > 1 { JoinEnd(parts[1..]); }
  }

  /** A list of proper names written out is a plain literal for exactly this path. */
  lemma WrittenPath(path: Path)
    requires path != [] && ValidPath(path) && forall k :: 0 <= k < |path| ==> PlainChars(path[k])
    ensures var b := Join('/', path);
            !HasWildcard(b) && Plain(b) && Split('/', PathPrefix(b)) == path && Parts(Slashes(b)) == path
  {
    hide Split, WithoutDots;
    var b := Join('/', path);
    JoinChars(path);
    JoinEnd(path);
    assert Last(b) in Last(path);
    SplitJoin('/', path);
    NoDots(path);
    assert !HasWildcard(b) by { assert forall k :: 0 <= k < |b| ==> PlainChar(b[k]); }
    WildcardFreeHead(b);
    assert Slashes(b) == b;
  }

  lemma SegmentChars(pattern: string)
    ensures forall k :: 0 <= k < |Split('/', PathPrefix(pattern))| ==> PlainChars(Split('/', PathPrefix(pattern))[k])
  {
    hide Split;
    var x, h := PathPrefix(pattern), Head(pattern);
    var segments := Split('/', x);
    SplitChars('/', x);
    forall k, i | 0 <= k < |segments| && 0 <= i < |segments[k]| ensures PlainChar(segments[k][i]) {
      var c := segments[k][i];
      assert c in segments[k] && c in x;
      var n :| 0 <= n < |x| && x[n] == c;
      assert x[n] == h[n] == Slashes(pattern)[n] && !IsWildcard(h[n]);
    }
  }

  /** The names that are appended in the counterexample. */
  function ExtraName(pattern: string): string {
    if WholeSegments(pattern) == Split('/', PathPrefix(pattern)) then "x"
    else Last(Split('/', PathPrefix(pattern))) + "x"
  }

  lemma ExtraNameIsProper(a: string)
    ensures !Vanishes(ExtraName(a)) && '/' !in ExtraName(a) && PlainChars(ExtraName(a))
  {
    hide Split;
    SplitParts('/', PathPrefix(a));
    SegmentChars(a);
    assert Last(ExtraName(a)) == 'x';
  }

  lemma WholeSegmentsAreProper(a: string)
    ensures forall s :: s in WholeSegments(a) ==> '/' !in s && PlainChars(s)
  {
    hide Split, PathPrefix, Head;
    SplitParts('/', PathPrefix(a));
    SegmentChars(a);
    forall s | s in WholeSegments(a) ensures '/' !in s && PlainChars(s) {
      var k :| 0 <= k < |WholeSegments(a)| && WholeSegments(a)[k] == s;
      assert Split('/', PathPrefix(a))[k] == s;
    }
  }

  lemma CounterPath(a: string) returns (path: Path)
    requires !Plain(a)
    ensures path == WithoutDots(WholeSegments(a)) + [ExtraName(a)] && path != []
    ensures ValidPath(path) && forall k :: 0 <= k < |path| ==> PlainChars(path[k])
  {
    hide Split, WithoutDots, WholeSegments, ExtraName, Vanishes, PlainChars;
    path := WithoutDots(WholeSegments(a)) + [ExtraName(a)];
    WithoutDotsKeeps(WholeSegments(a));
    ExtraNameIsProper(a);
    WholeSegmentsAreProper(a);
    forall k | 0 <= k < |path| ensures !Vanishes(path[k]) && '/' !in path[k] && PlainChars(path[k]) {
      if k < |path| - 1 { assert path[k] in WithoutDots(WholeSegments(a)); }
    }
  }

  lemma CounterPathIsReached(a: string)
    requires !Plain(a)
    ensures Reaches(a, WithoutDots(WholeSegments(a)) + [ExtraName(a)])
  {
    hide Split, WithoutDots;
    WholeParts(a);
    LastSegment(Head(a));
  }

  lemma SafeIsPlain(a: string)
    requires !Plain(a)
    ensures !Safe(a)
  {
    hide Plain, Reaches, PathOverlap, WholeSegments, ExtraName, HasWildcard;
    var path := CounterPath(a);
    CounterPathIsReached(a);
    WrittenPath(path);
    MissedPair(a, path);
    var b := Join('/', path);
    assert LiteralCovers(b, path);
  }

  lemma PlainIsSafe(a: string)
    requires Plain(a)
    ensures Safe(a)
  {
    hide Plain, Reaches, PathOverlap, HasWildcard;
    forall b, path | Plain(b) && !HasWildcard(b) && ValidPath(path) && Reaches(a, path) && LiteralCovers(b, path)
      ensures PathOverlap(a, b)
    {
      LiteralReaches(b, path);
      SharedPathOverlaps(a, b, path);
    }
  }

  /** A pattern is safe exactly when it is plain: no empty and no "." segment before its first wildcard. */
  lemma SafeIffPlain(a: string)
    ensures Safe(a) <==> Plain(a)
  {
    hide Plain, Safe;
    if Plain(a) { PlainIsSafe(a); } else { SafeIsPlain(a); }
  }

  lemma LiteralReaches(b: string, path: Path)
    requires !HasWildcard(b) && LiteralCovers(b, path)
    ensures Reaches(b, path)
  {
  }

  lemma MissedPair(a: string, path: Path)
    requires !Plain(a) && path == WithoutDots(WholeSegments(a)) + [ExtraName(a)]
    requires var b := Join('/', path); !HasWildcard(b) && Plain(b) && Split('/', PathPrefix(b)) == path
    ensures !PathOverlap(a, Join('/', path))
  {
    hide Split, WithoutDots;
    var b := Join('/', path);
    var x, y := PathPrefix(a), PathPrefix(b);
    PlainLiteralIsNotEmpty(b);
    LastSegment(x);
    HeldApart(Split('/', x), WholeSegments(a), ExtraName(a));
    WildcardOfConcat(a, b);
    if HasWildcard(a) {
      TextPrefix(x, y);
      TextPrefix(y, x);
    } else {
      LiteralOverlap(a, b);
    }
  }

  /** Two spellings of one path that the comparison holds apart. */
  lemma DotIsMissed()
    ensures Parts(Slashes("./a")) == Parts(Slashes("a")) == ["a"] && !PathOverlap("./a", "a")
  {
    SpelledAs("./a", [".", "a"]);
    SpelledAs("a", ["a"]);
    LiteralOverlap("./a", "a");
  }

  lemma SpelledAs(s: string, segments: seq<string>)
    requires segments == [".", "a"] || segments == ["a"]
    requires s == Join('/', segments)
    ensures !HasWildcard(s) && Split('/', PathPrefix(s)) == segments && Parts(Slashes(s)) == ["a"]
  {
    hide Split;
    assert s == "a" || s == "./a";
    SplitJoin('/', segments);
    assert forall k :: 0 <= k < |s| ==> PlainChar(s[k]);
    WildcardFreeHead(s);
    assert Slashes(s) == s;
    if segments == ["a"] {
      NoDots(segments);
    } else {
      WithoutDotsStep(".", ["a"]);
      NoDots(["a"]);
    }
  }
}

/** Joining and splitting on a separator. */
module Text {
  import opened Common

  function Join(separator: char, parts: seq<string>): string {
    if parts == [] then "" else if |parts| == 1 then parts[0] else parts[0] + [separator] + Join(separator, parts[1..])
  }

  function Split(separator: char, s: string): (r: seq<string>)
    ensures r != []
  {
    if s == [] then [""]
    else if s[0] == separator then [""] + Split(separator, s[1..])
    else var rest := Split(separator, s[1..]); [[s[0]] + rest[0]] + rest[1..]
  }

  lemma {:induction false} SplitOne(separator: char, part: string)
    requires separator !in part
    ensures Split(separator, part) == [part]
  {
    if part != [] {
      SplitOne(separator, part[1..]);
      assert [part[0]] + part[1..] == part;
    }
  }

  lemma {:induction false} SplitFirst(separator: char, part: string, rest: string)
    requires separator !in part
    ensures Split(separator, part + [separator] + rest) == [part] + Split(separator, rest)
  {
    var s := part + [separator] + rest;
    if part == [] {
      assert s[1..] == rest;
    } else {
      SplitFirst(separator, part[1..], rest);
      assert s[1..] == part[1..] + [separator] + rest;
      assert [part[0]] + part[1..] == part;
    }
  }

  /** Splitting undoes joining when no part holds the separator. */
  lemma {:induction false} SplitJoin(separator: char, parts: seq<string>)
    requires parts != [] && forall k :: 0 <= k < |parts| ==> separator !in parts[k]
    ensures Split(separator, Join(separator, parts)) == parts
  {
    if |parts| == 1 {
      SplitOne(separator, parts[0]);
    } else {
      SplitFirst(separator, parts[0], Join(separator, parts[1..]));
      SplitJoin(separator, parts[1..]);
      assert [parts[0]] + parts[1..] == parts;
    }
  }

  lemma SplitStep(separator: char, c: char, s: string)
    ensures var rest := Split(separator, s);
            Split(separator, [c] + s) == if c == separator then [""] + rest else [[c] + rest[0]] + rest[1..]
  {
    assert ([c] + s)[1..] == s;
  }

  lemma Associates<T>(a: seq<T>, b: seq<T>, c: seq<T>)
    ensures (a + b) + c == a + (b + c)
  {
  }

  lemma {:induction false} SplitConcat(separator: char, a: string, b: string)
    ensures Split(separator, a + ([separator] + b)) == Split(separator, a) + Split(separator, b)
  {
    if a == [] {
      SplitStep(separator, separator, b);
      assert a + ([separator] + b) == [separator] + b;
    } else {
      hide Split;
      var tail := [separator] + b;
      var x, y := Split(separator, a[1..]), Split(separator, b);
      SplitConcat(separator, a[1..], b);
      Associates([a[0]], a[1..], tail);
      assert [a[0]] + a[1..] == a;
      SplitStep(separator, a[0], a[1..] + tail);
      SplitStep(separator, a[0], a[1..]);
      if a[0] == separator {
        Associates([""], x, y);
      } else {
        assert (x + y)[0] == x[0] && (x + y)[1..] == x[1..] + y;
        Associates([[a[0]] + x[0]], x[1..], y);
      }
    }
  }

  /** Joining undoes splitting. */
  lemma {:induction false} JoinSplit(separator: char, s: string)
    ensures Join(separator, Split(separator, s)) == s
  {
    if s != [] {
      var rest := Split(separator, s[1..]);
      JoinSplit(separator, s[1..]);
      assert s == [s[0]] + s[1..];
      if s[0] == separator {
        assert ([""] + rest)[1..] == rest;
      } else {
        var parts := [[s[0]] + rest[0]] + rest[1..];
        assert parts[1..] == rest[1..];
        if |rest| == 1 {
          assert Join(separator, parts) == parts[0];
        } else {
          assert Join(separator, parts) == parts[0] + [separator] + Join(separator, rest[1..]);
        }
      }
    }
  }

  lemma {:induction false} JoinConcat(separator: char, a: seq<string>, b: seq<string>)
    requires a != [] && b != []
    ensures Join(separator, a + b) == Join(separator, a) + [separator] + Join(separator, b)
  {
    if |a| == 1 {
      assert (a + b)[1..] == b;
    } else {
      JoinConcat(separator, a[1..], b);
      assert (a + b)[1..] == a[1..] + b;
    }
  }

  lemma {:induction false} SplitParts(separator: char, s: string)
    ensures forall k :: 0 <= k < |Split(separator, s)| ==> separator !in Split(separator, s)[k]
  {
    if s != [] { SplitParts(separator, s[1..]); }
  }

  /** The characters of the pieces are those of the text. */
  lemma {:induction false} SplitChars(separator: char, s: string)
    ensures forall k, c :: 0 <= k < |Split(separator, s)| && c in Split(separator, s)[k] ==> c in s
  {
    if s != [] {
      SplitChars(separator, s[1..]);
      assert s == [s[0]] + s[1..];
    }
  }

  // ----- path names -----

  predicate Vanishes(segment: string) {
    segment == "" || segment == "."
  }

  function WithoutDots(segments: seq<string>): (r: seq<string>)
    ensures |r| <= |segments|
  {
    if segments == [] then []
    else (if Vanishes(segments[0]) then [] else [segments[0]]) + WithoutDots(segments[1..])
  }

  /** PurePosixPath(name).parts of a relative name: empty and "." segments vanish. */
  function Parts(name: string): seq<string> {
    WithoutDots(Split('/', name))
  }

  lemma {:induction false} NoDots(segments: seq<string>)
    requires forall k :: 0 <= k < |segments| ==> !Vanishes(segments[k])
    ensures WithoutDots(segments) == segments
  {
    if segments != [] {
      NoDots(segments[1..]);
      assert [segments[0]] + segments[1..] == segments;
    }
  }

  lemma WithoutDotsStep(first: string, rest: seq<string>)
    ensures WithoutDots([first] + rest) == (if Vanishes(first) then [] else [first]) + WithoutDots(rest)
  {
    assert ([first] + rest)[1..] == rest;
  }

  lemma {:induction false} WithoutDotsKeeps(segments: seq<string>)
    ensures forall s :: s in WithoutDots(segments) ==> !Vanishes(s) && s in segments
  {
    if segments != [] {
      WithoutDotsKeeps(segments[1..]);
      assert [segments[0]] + segments[1..] == segments;
    }
  }

  lemma {:induction false} WithoutDotsConcat(a: seq<string>, b: seq<string>)
    ensures WithoutDots(a + b) == WithoutDots(a) + WithoutDots(b)
  {
    if a == [] {
      assert a + b == b;
    } else {
      hide WithoutDots, Vanishes;
      WithoutDotsConcat(a[1..], b);
      Associates([a[0]], a[1..], b);
      assert [a[0]] + a[1..] == a;
      WithoutDotsStep(a[0], a[1..] + b);
      WithoutDotsStep(a[0], a[1..]);
      Associates(if Vanishes(a[0]) then [] else [a[0]], WithoutDots(a[1..]), WithoutDots(b));
    }
  }
}

/** `str.strip`: what it removes and what it leaves. */
module StripLaws {
  import opened Common

  /** The code points that `str.strip` removes. */
  const SPACES: set<int> := {
    0x09, 0x0A, 0x0B, 0x0C, 0x0D, 0x1C, 0x1D, 0x1E, 0x1F, 0x20, 0x85, 0xA0, 0x1680, 0x2000, 0x2001, 0x2002, 0x2003,
    0x2004, 0x2005, 0x2006, 0x2007, 0x2008, 0x2009, 0x200A, 0x2028, 0x2029, 0x202F, 0x205F, 0x3000}

  ghost predicate AllSpaces(s: string) {
    forall k :: 0 <= k < |s| ==> s[k] as int in SPACES
  }

  ghost predicate StrippedAt(s: string, t: string, i: nat, j: nat) {
    && i <= j <= |s| && t == s[i..j] && AllSpaces(s[..i]) && AllSpaces(s[j..])
    && (i < j ==> s[i] as int !in SPACES && s[j - 1] as int !in SPACES)
  }

  /** t is s without the spaces around it. */
  ghost predicate IsStripped(s: string, t: string) {
    exists i, j :: StrippedAt(s, t, i, j)
  }

  lemma SpaceLaw(c: char)
    ensures IsSpace(c) <==> c as int in SPACES
  {
  }

  lemma {:induction false} StripLaw(s: string)
    ensures IsStripped(s, Strip(s))
  {
    hide SPACES, IsSpace, StrippedAt;
    if s != [] {
      SpaceLaw(s[0]);
      SpaceLaw(Last(s));
      if IsSpace(s[0]) {
        StripLaw(s[1..]);
        StripFirst(s, Strip(s[1..]));
      } else if IsSpace(Last(s)) {
        StripLaw(Init(s));
        StripLast(s, Strip(Init(s)));
      }
    }
    if s == [] || (!IsSpace(s[0]) && !IsSpace(Last(s))) { NothingToStrip(s); }
  }

  lemma NothingToStrip(s: string)
    requires s != [] ==> s[0] as int !in SPACES && Last(s) as int !in SPACES
    ensures StrippedAt(s, s, 0, |s|)
  {
  }

  lemma StripFirst(s: string, t: string)
    requires s != [] && s[0] as int in SPACES && IsStripped(s[1..], t)
    ensures IsStripped(s, t)
  {
    hide SPACES;
    var rest := s[1..];
    var i: nat, j: nat :| StrippedAt(rest, t, i, j);
    assert t == s[i + 1..j + 1] && s[j + 1..] == rest[j..];
    assert s[..i + 1] == [s[0]] + rest[..i];
    assert StrippedAt(s, t, i + 1, j + 1);
  }

  lemma StripLast(s: string, t: string)
    requires s != [] && Last(s) as int in SPACES && IsStripped(Init(s), t)
    ensures IsStripped(s, t)
  {
    hide SPACES;
    var front := Init(s);
    var i: nat, j: nat :| StrippedAt(front, t, i, j);
    assert t == s[i..j] && s[..i] == front[..i];
    assert s[j..] == front[j..] + [Last(s)];
    assert StrippedAt(s, t, i, j);
  }

  lemma SpaceInFront(s: string, k: nat, i: nat)
    requires i < k <= |s| && AllSpaces(s[..k])
    ensures s[i] as int in SPACES
  {
    hide SPACES;
    assert s[..k][i] == s[i];
  }

  lemma SpaceBehind(s: string, l: nat, j: nat)
    requires l <= j < |s| && AllSpaces(s[l..])
    ensures s[j] as int in SPACES
  {
    hide SPACES;
    assert s[l..][j - l] == s[j];
  }

  /** A non-empty middle lies within every other one. */
  lemma MiddleWithin(s: string, t: string, i: nat, j: nat, u: string, k: nat, l: nat)
    requires StrippedAt(s, t, i, j) && StrippedAt(s, u, k, l)
    ensures i < j ==> k <= i && j <= l
  {
    hide SPACES, AllSpaces;
    if i < j && i < k { SpaceInFront(s, k, i); }
    if i < j && j > l { SpaceBehind(s, l, j - 1); }
  }

  lemma StrippedIsUnique(s: string, t: string, u: string)
    requires IsStripped(s, t) && IsStripped(s, u)
    ensures t == u
  {
    hide SPACES, AllSpaces;
    var i, j :| StrippedAt(s, t, i, j);
    var k, l :| StrippedAt(s, u, k, l);
    MiddleWithin(s, t, i, j, u, k, l);
    MiddleWithin(s, u, k, l, t, i, j);
  }

  /** Something is left unless every character is a space. */
  lemma {:induction false} BlankLaw(s: string)
    ensures Strip(s) == "" <==> AllSpaces(s)
  {
    hide SPACES, IsSpace;
    if s != "" {
      SpaceLaw(s[0]);
      SpaceLaw(Last(s));
      if IsSpace(s[0]) {
        BlankLaw(s[1..]);
        assert s == [s[0]] + s[1..];
      } else if IsSpace(Last(s)) {
        BlankLaw(Init(s));
        assert s == Init(s) + [Last(s)];
      }
    }
  }
}

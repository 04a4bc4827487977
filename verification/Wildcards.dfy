/** Matching a name against a filter with the wildcards `*` and `?`. */
module Wildcards {

  const Nul := '\0'

  /** A C string: the characters before the terminating null. */
  predicate CString(s: string) {
    Nul !in s
  }

  /** What a pointer to position `i` of `s` reads. */
  function At(s: string, i: nat): char
    requires i <= |s|
  {
    if i < |s| then s[i] else Nul
  }

  function ToLower(c: char): char {
    if 'A' <= c <= 'Z' then c + 32 as char else c
  }

  predicate Same(p: char, c: char, caseSensitive: bool) {
    if caseSensitive then p == c else ToLower(p) == ToLower(c)
  }

  /** What the pattern means: from index `i` on, `s` is what the pattern describes from index
      `j` on.  A star stands for any characters, a question mark for one. */
  ghost predicate Match(s: string, i: nat, p: string, j: nat, caseSensitive: bool)
    requires i <= |s| && j <= |p|
    decreases |p| - j + |s| - i
  {
    if j == |p| then i == |s|
    else if p[j] == '*' then Match(s, i, p, j + 1, caseSensitive) || (i < |s| && Match(s, i + 1, p, j, caseSensitive))
    else i < |s| && (p[j] == '?' || Same(p[j], s[i], caseSensitive)) && Match(s, i + 1, p, j + 1, caseSensitive)
  }

  /** Some suffix of `s` from index `i` on matches. */
  ghost predicate MatchFrom(s: string, i: nat, p: string, j: nat, caseSensitive: bool)
    requires j <= |p|
  {
    exists k :: i <= k <= |s| && Match(s, k, p, j, caseSensitive)
  }

  /** A star stands for any number of characters. */
  lemma {:induction false} StarMeans(s: string, i: nat, p: string, j: nat, caseSensitive: bool)
    requires i <= |s| && j < |p| && p[j] == '*'
    ensures Match(s, i, p, j, caseSensitive) <==> MatchFrom(s, i, p, j + 1, caseSensitive)
    decreases |s| - i
  {
    if i < |s| {
      StarMeans(s, i + 1, p, j, caseSensitive);
    }
  }

  predicate NoStar(p: string, j: nat, j': nat) {
    j <= j' <= |p| && forall n :: j <= n < j' ==> p[n] != '*'
  }

  // ----- What a pattern without a star matches, character by character -----

  function Upper(k: nat): char
    requires k < 26
  {
    'A' + k as char
  }

  function Lower(k: nat): char
    requires k < 26
  {
    'a' + k as char
  }

  /** The characters are equal or, where case does not matter, the k-th letter in either case. */
  ghost predicate Alike(a: char, b: char, caseSensitive: bool) {
    a == b || (!caseSensitive && exists k: nat :: k < 26 && a in {Upper(k), Lower(k)} && b in {Upper(k), Lower(k)})
  }

  lemma SameIsAlike(a: char, b: char, caseSensitive: bool)
    ensures Same(a, b, caseSensitive) <==> Alike(a, b, caseSensitive)
  {
    if !caseSensitive && a != b && ToLower(a) == ToLower(b) {
      var k: nat := ToLower(a) as int - 'a' as int;
      assert ToLower(a) == Lower(k) && a in {Upper(k), Lower(k)} && b in {Upper(k), Lower(k)};
    }
    if k: nat :| k < 26 && a in {Upper(k), Lower(k)} && b in {Upper(k), Lower(k)} {
      assert ToLower(Upper(k)) == Lower(k) == ToLower(Lower(k));
    }
  }

  /** Such a pattern matches the strings of its length that have at each place the character it
      has there, or any where it has a question mark. */
  lemma {:induction false} MatchesPlain(s: string, i: nat, p: string, j: nat, caseSensitive: bool)
    requires i <= |s| && j <= |p| && NoStar(p, j, |p|)
    ensures Match(s, i, p, j, caseSensitive) <==>
            |s| - i == |p| - j && forall m :: j <= m < |p| ==> p[m] == '?' || Alike(p[m], s[m - j + i], caseSensitive)
    decreases |p| - j
  {
    if j < |p| && i < |s| {
      MatchesPlain(s, i + 1, p, j + 1, caseSensitive);
      SameIsAlike(p[j], s[i], caseSensitive);
      hide Same, Alike;
    }
  }

  /** Without wildcards a pattern matches itself only, or itself in any case. */
  lemma {:induction false} MatchesItself(s: string, p: string)
    requires '*' !in p && '?' !in p
    ensures Match(s, 0, p, 0, true) <==> s == p
    ensures Match(s, 0, p, 0, false) <==>
            |s| == |p| && forall n :: 0 <= n < |p| ==>
              p[n] == s[n] || exists k: nat :: k < 26 && p[n] in {Upper(k), Lower(k)} && s[n] in {Upper(k), Lower(k)}
  {
    MatchesPlain(s, 0, p, 0, true);
    MatchesPlain(s, 0, p, 0, false);
    hide Match;
    assert forall n :: 0 <= n < |p| ==> p[n] in p;
  }

  /** A match consumes one character for each pattern character before the next star. */
  lemma {:induction false} MatchPrefix(s: string, i: nat, p: string, j: nat, j': nat, caseSensitive: bool)
    requires i <= |s| && NoStar(p, j, j') && Match(s, i, p, j, caseSensitive)
    ensures i + (j' - j) <= |s| && Match(s, i + (j' - j), p, j', caseSensitive)
    decreases j' - j
  {
    if j < j' { MatchPrefix(s, i + 1, p, j + 1, j', caseSensitive); }
  }

  /** The last star comes just before pattern index `mp`.  What it stands for ends at `k` or
      later, and from `k` on the characters up to `i` are those the pattern wants up to `j`. */
  ghost predicate Attempt(s: string, p: string, k: nat, mp: nat, i: nat, j: nat, caseSensitive: bool) {
    && k <= i <= |s| && NoStar(p, mp, j) && i - k == j - mp
    && (Match(s, 0, p, 0, caseSensitive) <==> MatchFrom(s, k, p, mp, caseSensitive))
    && (Match(s, i, p, j, caseSensitive) ==> Match(s, k, p, mp, caseSensitive))
  }

  /** Coming to the next star: the earlier ones need not be tried again. */
  lemma {:induction false} NextStar(s: string, p: string, k: nat, mp: nat, i: nat, j: nat, caseSensitive: bool)
    requires Attempt(s, p, k, mp, i, j, caseSensitive) && j < |p| && p[j] == '*'
    ensures Attempt(s, p, i, j + 1, i, j + 1, caseSensitive)
  {
    StarMeans(s, i, p, j, caseSensitive);
    if MatchFrom(s, k, p, mp, caseSensitive) {
      var k' :| k <= k' <= |s| && Match(s, k', p, mp, caseSensitive);
      MatchPrefix(s, k', p, mp, j, caseSensitive);
      StarMeans(s, k' + (j - mp), p, j, caseSensitive);
    }
  }

  lemma {:induction false} FirstStar(s: string, p: string, i: nat, j: nat, caseSensitive: bool)
    requires i <= |s| && j < |p| && p[j] == '*'
    requires Match(s, 0, p, 0, caseSensitive) <==> Match(s, i, p, j, caseSensitive)
    ensures Attempt(s, p, i, j + 1, i, j + 1, caseSensitive)
  {
    StarMeans(s, i, p, j, caseSensitive);
  }

  lemma OneCharacter(s: string, p: string, k: nat, mp: nat, i: nat, j: nat, caseSensitive: bool)
    requires Attempt(s, p, k, mp, i, j, caseSensitive) && i < |s| && j < |p| && p[j] != '*'
    requires p[j] == '?' || Same(p[j], s[i], caseSensitive)
    ensures Attempt(s, p, k, mp, i + 1, j + 1, caseSensitive)
  {
  }

  lemma Mismatch(s: string, p: string, k: nat, mp: nat, i: nat, j: nat, caseSensitive: bool)
    requires Attempt(s, p, k, mp, i, j, caseSensitive) && i < |s|
    requires !Match(s, i, p, j, caseSensitive)
    ensures Attempt(s, p, k + 1, mp, k + 1, mp, caseSensitive)
  {
    if Match(s, k, p, mp, caseSensitive) {
      MatchPrefix(s, k, p, mp, j, caseSensitive);
    }
  }

  lemma AtEnd(s: string, p: string, k: nat, mp: nat, j: nat, caseSensitive: bool)
    requires Attempt(s, p, k, mp, |s|, j, caseSensitive)
    ensures Match(s, 0, p, 0, caseSensitive) <==> Match(s, |s|, p, j, caseSensitive)
  {
    if MatchFrom(s, k, p, mp, caseSensitive) {
      var k' :| k <= k' <= |s| && Match(s, k', p, mp, caseSensitive);
      MatchPrefix(s, k', p, mp, j, caseSensitive);
    }
  }

  lemma LastStar(s: string, i: nat, p: string, j: nat, caseSensitive: bool)
    requires i <= |s| && j == |p| - 1 && p[j] == '*'
    ensures Match(s, i, p, j, caseSensitive)
  {
    StarMeans(s, i, p, j, caseSensitive);
    assert Match(s, |s|, p, |p|, caseSensitive);
  }

  lemma Succeeds(s: string, p: string, k: nat, mp: nat, i: nat, j: nat, caseSensitive: bool)
    requires Attempt(s, p, k, mp, i, j, caseSensitive) && Match(s, i, p, j, caseSensitive)
    ensures Match(s, 0, p, 0, caseSensitive)
  {
  }

  /** The result says whether `wild` describes `str`. */
  method Wildcmp(str: string, wild: string, caseSensitive: bool) returns (matched: bool)
    requires CString(str) && CString(wild)
    ensures matched <==> Match(str, 0, wild, 0, caseSensitive)
  {
    hide MatchFrom, Attempt;
    var s, w := 0, 0;
    var cp, mp := s, w;
    while At(str, s) != Nul && At(wild, w) != '*'
      invariant s == w && s <= |str| && w <= |wild|
      invariant Match(str, 0, wild, 0, caseSensitive) <==> Match(str, s, wild, w, caseSensitive)
      decreases |str| - s
    {
      if !Same(At(wild, w), At(str, s), caseSensitive) && At(wild, w) != '?' {
        return false;
      }
      w := w + 1;
      s := s + 1;
    }
    ghost var starred := false;
    while At(str, s) != Nul
      invariant s <= |str| && mp <= w <= |wild| && cp <= |str| + 1
      invariant !starred ==> mp == 0 && (s < |str| ==> w < |wild| && wild[w] == '*')
      invariant !starred ==> (Match(str, 0, wild, 0, caseSensitive) <==> Match(str, s, wild, w, caseSensitive))
      invariant starred ==> cp > 0 && Attempt(str, wild, cp - 1, mp, s, w, caseSensitive)
      decreases |wild| - mp, |str| + 1 - cp, |str| - s
    {
      if At(wild, w) == '*' {
        w := w + 1;
        if At(wild, w) == Nul {
          LastStar(str, s, wild, w - 1, caseSensitive);
          if starred { Succeeds(str, wild, cp - 1, mp, s, w - 1, caseSensitive); }
          return true;
        }
        if starred {
          NextStar(str, wild, cp - 1, mp, s, w - 1, caseSensitive);
        } else {
          FirstStar(str, wild, s, w - 1, caseSensitive);
        }
        mp := w;
        cp := s + 1;
        starred := true;
      } else if Same(At(wild, w), At(str, s), caseSensitive) || At(wild, w) == '?' {
        OneCharacter(str, wild, cp - 1, mp, s, w, caseSensitive);
        w := w + 1;
        s := s + 1;
      } else {
        Mismatch(str, wild, cp - 1, mp, s, w, caseSensitive);
        w := mp;
        s := cp;
        cp := cp + 1;
      }
    }
    if starred { AtEnd(str, wild, cp - 1, mp, w, caseSensitive); }
    while At(wild, w) == '*'
      invariant w <= |wild|
      invariant Match(str, 0, wild, 0, caseSensitive) <==> Match(str, |str|, wild, w, caseSensitive)
      decreases |wild| - w
    {
      w := w + 1;
    }
    return At(wild, w) == Nul;
  }

  method MatchesAny(name: string, filters: seq<string>, matchEmpty: bool, caseSensitive: bool) returns (matched: bool)
    requires CString(name) && forall f :: f in filters ==> CString(f)
    ensures matched <==> (filters == [] && matchEmpty) || exists f :: f in filters && Match(name, 0, f, 0, caseSensitive)
  {
    if |filters| == 0 && matchEmpty {
      return true;
    }
    for i := 0 to |filters|
      invariant forall j :: 0 <= j < i ==> !Match(name, 0, filters[j], 0, caseSensitive)
    {
      var found := Wildcmp(name, filters[i], caseSensitive);
      if found {
        return true;
      }
    }
    return false;
  }
}

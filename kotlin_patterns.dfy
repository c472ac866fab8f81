/**
 * Dedicated matchers for the two patterns of `scripts/extract_kotlin.py`, as
 * the `re` module reads them. Both are raw strings that escape their
 * backslashes a second time, so `\\` is a literal backslash and the letters
 * after it are literal letters:
 *
 *   class pattern: "class " '\' 'w'+                        (group 1: '\' 'w'+)
 *   fun pattern:   "fun " '\' 'w'+ '\' 's'* '\' (.*?) '\' ':'? '\' 's'* ('\' 'w'+)?
 *                  group 1 = '\' 'w'+, group 3 = the lazy (.*?)
 *
 * Matching follows Python `re.search`: leftmost start, greedy runs, and the
 * lazy group as short as the rest of the pattern allows.
 */
module KotlinPatterns {
  import opened Wrappers
  import opened Text
  import opened RegexRuns

  const Backslash := '\\'

  // ---------------------------------------------------------------------------
  // class (\\w+)

  function ClassAt(s: string, p: nat): Option<string>
    requires p <= |s|
  {
    if p + 7 <= |s| && s[p..p + 6] == "class " && s[p + 6] == Backslash then
      var e := RunEnd(s, p + 7, Literal('w'));
      if e > p + 7 then Some(s[p + 6..e]) else None
    else None
  }

  function ClassSearch(s: string): Option<string>
  {
    Leftmost(seq(|s| + 1, p requires 0 <= p <= |s| => ClassAt(s, p)))
  }

  /** The class pattern matches `s[p..e]`; group 1 is `s[p + 6..e]`. */
  predicate ClassMatchesAt(s: string, p: nat, e: nat)
  {
    p + 7 < e <= |s| && s[p..p + 6] == "class " && s[p + 6] == Backslash && AllIn(s, p + 7, e, Literal('w'))
  }

  ghost predicate ClassMatchesSomewhere(s: string)
  {
    exists p: nat, e: nat :: ClassMatchesAt(s, p, e)
  }

  /** A match at `p` exists exactly when `ClassAt` finds one, and the group is the longest possible. */
  lemma ClassAtCorrect(s: string, p: nat)
    requires p <= |s|
    ensures ClassAt(s, p).Some? <==> exists e: nat :: ClassMatchesAt(s, p, e)
    ensures ClassAt(s, p).Some? ==> IsLongestAt(s, p, ClassAt(s, p).value)
  {
    if ClassAt(s, p).Some? {
      var e := RunEnd(s, p + 7, Literal('w'));
      assert ClassMatchesAt(s, p, e);
    }
  }

  /**
   * `n` is group 1 of a match at `p` (it starts at the backslash), and no
   * match at `p` has a longer group.
   */
  ghost predicate IsLongestAt(s: string, p: nat, n: string)
  {
    && ClassMatchesAt(s, p, p + 6 + |n|) && n == s[p + 6..p + 6 + |n|]
    && forall e: nat :: ClassMatchesAt(s, p, e) ==> e <= p + 6 + |n|
  }

  /** `n` is the greedy group 1 of the leftmost match, as `re.search` reports it. */
  ghost predicate IsClassMatch(s: string, p: nat, n: string)
  {
    IsLongestAt(s, p, n) && forall q: nat, e: nat :: q < p ==> !ClassMatchesAt(s, q, e)
  }

  /**
   * The class pattern finds something exactly when it matches somewhere, and
   * reports the longest group of the leftmost match.
   */
  lemma ClassSearchSpec(s: string)
    ensures ClassSearch(s).Some? <==> ClassMatchesSomewhere(s)
    ensures ClassSearch(s).Some? ==> exists p: nat :: IsClassMatch(s, p, ClassSearch(s).value)
  {
    var attempts := seq(|s| + 1, p requires 0 <= p <= |s| => ClassAt(s, p));
    LeftmostSpec(attempts);
    forall p: nat, e: nat | ClassMatchesAt(s, p, e)
      ensures attempts[p].Some?
    {
      ClassAtCorrect(s, p);
    }
    if ClassSearch(s).Some? {
      var q :| 0 <= q < |attempts| && attempts[q] == ClassSearch(s) && forall r :: 0 <= r < q ==> attempts[r].None?;
      ClassAtCorrect(s, q);
      forall r: nat, e: nat | r < q
        ensures !ClassMatchesAt(s, r, e)
      {
        if ClassMatchesAt(s, r, e) {
          ClassAtCorrect(s, r);
        }
      }
      assert IsClassMatch(s, q, ClassSearch(s).value);
    }
  }

  // ---------------------------------------------------------------------------
  // fun (\\w+)\\s*\\((.*?)\\):?\\s*(\\w+)?

  /** What the scanner reads from a fun match: groups 1 and 3. */
  datatype FunGroups = FunGroups(name: string, returnType: string)

  /** What has to follow the lazy group and its backslash: ':' '\' or '\'; the rest always matches. */
  predicate TailAt(s: string, k: nat)
  {
    (k + 1 < |s| && s[k] == ':' && s[k + 1] == Backslash) || (k < |s| && s[k] == Backslash)
  }

  /** The lazy `(.*?)\\` followed by the tail, from `i`: the first backslash where the tail matches. */
  function LazyEnd(s: string, i: nat): (r: Option<nat>)
    requires i <= |s|
    ensures r.Some? ==> i <= r.value < |s| && s[r.value] == Backslash && TailAt(s, r.value + 1)
                        && forall m :: i <= m < r.value ==> s[m] != '\n' && !(s[m] == Backslash && TailAt(s, m + 1))
    ensures r.None? ==> forall j :: i <= j < |s| && s[j] == Backslash && TailAt(s, j + 1) ==>
                          exists m :: i <= m < j && s[m] == '\n'
    decreases |s| - i
  {
    if i == |s| then None
    else if s[i] == Backslash && TailAt(s, i + 1) then Some(i)
    else if s[i] == '\n' then None
    else LazyEnd(s, i + 1)
  }

  function FunAt(s: string, p: nat): Option<FunGroups>
    requires p <= |s|
  {
    if p + 5 <= |s| && s[p..p + 4] == "fun " && s[p + 4] == Backslash then
      var a := RunEnd(s, p + 5, Literal('w'));
      if a == p + 5 || a == |s| || s[a] != Backslash then None
      else
        var b := RunEnd(s, a + 1, Literal('s'));
        if b == |s| || s[b] != Backslash then None
        else
          match LazyEnd(s, b + 1)
          case None => None
          case Some(j) => Some(FunGroups(s[p + 4..a], s[b + 1..j]))
    else None
  }

  function FunSearch(s: string): Option<FunGroups>
  {
    Leftmost(seq(|s| + 1, p requires 0 <= p <= |s| => FunAt(s, p)))
  }

  /**
   * The fun pattern matches from `p` with group 1 = `s[p + 4..a]`, the 's'
   * run over `s[a + 1..b]` and group 3 = `s[b + 1..j]`.
   */
  predicate FunMatchesAt(s: string, p: nat, a: nat, b: nat, j: nat)
  {
    && p + 5 < a < b < j < |s|
    && s[p..p + 4] == "fun " && s[p + 4] == Backslash
    && AllIn(s, p + 5, a, Literal('w')) && s[a] == Backslash
    && AllIn(s, a + 1, b, Literal('s')) && s[b] == Backslash
    && (forall m :: b < m < j ==> s[m] != '\n')
    && s[j] == Backslash && TailAt(s, j + 1)
  }

  ghost predicate FunMatchesSomewhere(s: string)
  {
    exists p: nat, a: nat, b: nat, j: nat :: FunMatchesAt(s, p, a, b, j)
  }

  /** `g` is read from a match at `p` whose lazy group is as short as possible. */
  ghost predicate IsShortestAt(s: string, p: nat, g: FunGroups)
  {
    exists a: nat, b: nat, j: nat ::
      && FunMatchesAt(s, p, a, b, j)
      && g == FunGroups(s[p + 4..a], s[b + 1..j])
      && forall j': nat :: FunMatchesAt(s, p, a, b, j') ==> j <= j'
  }

  lemma FunAtSound(s: string, p: nat)
    requires p <= |s|
    requires FunAt(s, p).Some?
    ensures IsShortestAt(s, p, FunAt(s, p).value)
  {
    var a := RunEnd(s, p + 5, Literal('w'));
    var b := RunEnd(s, a + 1, Literal('s'));
    var j := LazyEnd(s, b + 1).value;
    assert FunMatchesAt(s, p, a, b, j);
  }

  /** Any match at `p` is found, with the same group 1 and a lazy group no longer than its own. */
  lemma FunAtComplete(s: string, p: nat, a: nat, b: nat, j: nat)
    requires FunMatchesAt(s, p, a, b, j)
    ensures FunAt(s, p).Some? && FunAt(s, p).value.name == s[p + 4..a]
    ensures |FunAt(s, p).value.returnType| <= j - b - 1
  {
    RunEndUnique(s, p + 5, a, Literal('w'));
    RunEndUnique(s, a + 1, b, Literal('s'));
    assert LazyEnd(s, b + 1).Some?;
  }

  /** The fun pattern finds something exactly when it matches somewhere, and reports the leftmost, shortest match. */
  lemma FunSearchSpec(s: string)
    ensures FunSearch(s).Some? <==> FunMatchesSomewhere(s)
    ensures FunSearch(s).Some? ==>
      exists p: nat :: IsShortestAt(s, p, FunSearch(s).value)
        && forall q: nat, a: nat, b: nat, j: nat :: q < p ==> !FunMatchesAt(s, q, a, b, j)
  {
    var attempts := seq(|s| + 1, p requires 0 <= p <= |s| => FunAt(s, p));
    LeftmostSpec(attempts);
    forall p: nat, a: nat, b: nat, j: nat | FunMatchesAt(s, p, a, b, j)
      ensures attempts[p].Some?
    {
      FunAtComplete(s, p, a, b, j);
    }
    if FunSearch(s).Some? {
      var q :| 0 <= q < |attempts| && attempts[q] == FunSearch(s) && forall r :: 0 <= r < q ==> attempts[r].None?;
      FunAtSound(s, q);
      forall r: nat, a: nat, b: nat, j: nat | r < q
        ensures !FunMatchesAt(s, r, a, b, j)
      {
        if FunMatchesAt(s, r, a, b, j) {
          FunAtComplete(s, r, a, b, j);
        }
      }
    }
  }

  /** The match at `p` with groups at `a`, `b`, `j` is the leftmost one, and its lazy group is the shortest there. */
  ghost predicate IsFunMatch(s: string, p: nat, a: nat, b: nat, j: nat)
  {
    && FunMatchesAt(s, p, a, b, j)
    && (forall q: nat, a': nat, b': nat, j': nat :: q < p ==> !FunMatchesAt(s, q, a', b', j'))
    && (forall j': nat :: FunMatchesAt(s, p, a, b, j') ==> j <= j')
  }

  /** What `FunSearch` reports is group 1 and group 3 of the leftmost, shortest match. */
  lemma FunSearchGroups(s: string)
    requires FunMatchesSomewhere(s)
    ensures exists p: nat, a: nat, b: nat, j: nat ::
      IsFunMatch(s, p, a, b, j) && FunSearch(s) == Some(FunGroups(s[p + 4..a], s[b + 1..j]))
  {
    FunSearchSpec(s);
    var g := FunSearch(s).value;
    var p: nat :| IsShortestAt(s, p, g)
      && forall q: nat, a: nat, b: nat, j: nat :: q < p ==> !FunMatchesAt(s, q, a, b, j);
    var a: nat, b: nat, j: nat :| FunMatchesAt(s, p, a, b, j) && g == FunGroups(s[p + 4..a], s[b + 1..j])
      && forall j': nat :: FunMatchesAt(s, p, a, b, j') ==> j <= j';
    assert IsFunMatch(s, p, a, b, j);
  }

  /** Every match of either pattern needs a literal backslash: a line without one matches neither. */
  lemma NoBackslashNoMatch(s: string)
    requires Backslash !in s
    ensures ClassSearch(s).None? && FunSearch(s).None?
  {
    ClassSearchSpec(s);
    FunSearchSpec(s);
  }
}

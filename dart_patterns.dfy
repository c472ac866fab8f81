/**
 * Dedicated matchers for the two patterns of `scripts/extract_flutter.py`,
 * with Python `re.search` semantics: the leftmost starting position wins, then
 * greedy quantifiers take as much as they can and the lazy one as little.
 *
 *   class pattern:  class (\w+)
 *   method pattern: (\w+)\s+(\w+)\s*\((.*?)\)
 */
module DartPatterns {
  import opened Wrappers
  import opened Text
  import opened RegexRuns

  // ---------------------------------------------------------------------------
  // class (\w+)

  /** The match of the class pattern starting at `p`: its group 1. */
  function ClassAt(s: string, p: nat): Option<string>
    requires p <= |s|
  {
    if p + 6 <= |s| && s[p..p + 6] == "class " then
      var e := RunEnd(s, p + 6, Word);
      if e > p + 6 then Some(s[p + 6..e]) else None
    else None
  }

  /** `class_pattern.search(s)`: the match at the leftmost position that has one. */
  function ClassSearch(s: string): Option<string>
  {
    Leftmost(seq(|s| + 1, p requires 0 <= p <= |s| => ClassAt(s, p)))
  }

  /** The pattern matches `s[p..e]`, group 1 being `s[p + 6..e]`. */
  predicate ClassMatchesAt(s: string, p: nat, e: nat)
  {
    p + 6 < e <= |s| && s[p..p + 6] == "class " && AllIn(s, p + 6, e, Word)
  }

  /** A match at `p` exists exactly when `ClassAt` finds one, and the group is the longest possible. */
  lemma ClassAtCorrect(s: string, p: nat)
    requires p <= |s|
    ensures ClassAt(s, p).Some? <==> exists e: nat :: ClassMatchesAt(s, p, e)
    ensures ClassAt(s, p).Some? ==> IsLongestAt(s, p, ClassAt(s, p).value)
  {
    if ClassAt(s, p).Some? {
      var e := RunEnd(s, p + 6, Word);
      assert ClassMatchesAt(s, p, e);
    }
  }

  /** `n` is group 1 of a match at `p`, and no match at `p` has a longer group. */
  ghost predicate IsLongestAt(s: string, p: nat, n: string)
  {
    && ClassMatchesAt(s, p, p + 6 + |n|) && n == s[p + 6..p + 6 + |n|]
    && forall e: nat :: ClassMatchesAt(s, p, e) ==> e <= p + 6 + |n|
  }

  /** The class pattern matches some part of `s`. */
  ghost predicate ClassMatchesSomewhere(s: string)
  {
    exists p: nat, e: nat :: ClassMatchesAt(s, p, e)
  }

  /** `n` is the greedy group 1 of the leftmost match, as `re.search` reports it. */
  ghost predicate IsClassMatch(s: string, p: nat, n: string)
  {
    IsLongestAt(s, p, n) && forall q: nat, e: nat :: q < p ==> !ClassMatchesAt(s, q, e)
  }

  /**
   * `class_pattern.search(line)`: no match exactly when "class " followed by a
   * word character occurs nowhere; otherwise group 1 is the longest word run
   * after the leftmost such occurrence.
   */
  lemma ClassSearchSpec(s: string)
    ensures ClassSearch(s).Some? <==> ClassMatchesSomewhere(s)
    ensures ClassSearch(s).Some? ==> exists p: nat :: IsClassMatch(s, p, ClassSearch(s).value)
  {
    var attempts := seq(|s| + 1, p requires 0 <= p <= |s| => ClassAt(s, p));
    LeftmostSpec(attempts);
    forall p: nat, e: nat | ClassMatchesAt(s, p, e)
      ensures attempts[p].Some?
    {
      ClassAtCorrect(s, p);
    }
    if ClassSearch(s).Some? {
      var q :| 0 <= q < |attempts| && attempts[q] == ClassSearch(s) && forall r :: 0 <= r < q ==> attempts[r].None?;
      ClassAtCorrect(s, q);
      forall r: nat, e: nat | r < q
        ensures !ClassMatchesAt(s, r, e)
      {
        if ClassMatchesAt(s, r, e) {
          ClassAtCorrect(s, r);
        }
      }
      assert IsClassMatch(s, q, ClassSearch(s).value);
    }
  }

  /** Without a 'c' there is nothing for the class pattern to match. */
  lemma NoClassWithoutC(s: string)
    requires 'c' !in s
    ensures ClassSearch(s).None?
  {
    ClassSearchSpec(s);
    forall p: nat, e: nat
      ensures !ClassMatchesAt(s, p, e)
    {
      if p + 6 <= |s| {
        assert s[p] == s[p..p + 6][0];
      }
    }
  }

  // ---------------------------------------------------------------------------
  // (\w+)\s+(\w+)\s*\((.*?)\)

  /** What the scanner reads from a method match: groups 1, 2 and 3. */
  datatype MethodGroups = MethodGroups(returnType: string, name: string, params: string)

  /** The lazy `(.*?)\)` from `i`: the first ')' reached before any "\n". */
  function LazyClose(s: string, i: nat): (r: Option<nat>)
    requires i <= |s|
    ensures r.Some? ==> i <= r.value < |s| && s[r.value] == ')'
                        && forall m :: i <= m < r.value ==> s[m] != '\n' && s[m] != ')'
    ensures r.None? ==> forall j :: i <= j < |s| && s[j] == ')' ==> exists m :: i <= m < j && s[m] == '\n'
    decreases |s| - i
  {
    if i == |s| then None
    else if s[i] == ')' then Some(i)
    else if s[i] == '\n' then None
    else LazyClose(s, i + 1)
  }

  /** The match of the method pattern starting at `p`. */
  function MethodAt(s: string, p: nat): Option<MethodGroups>
    requires p <= |s|
  {
    var e := RunEnd(s, p, Word);
    if e == p then None
    else
      var t := RunEnd(s, e, Space);
      if t == e then None
      else
        var f := RunEnd(s, t, Word);
        if f == t then None
        else
          var g := RunEnd(s, f, Space);
          if g == |s| || s[g] != '(' then None
          else
            match LazyClose(s, g + 1)
            case None => None
            case Some(j) => Some(MethodGroups(s[p..e], s[t..f], s[g + 1..j]))
  }

  /** `method_pattern.search(s)`: the match at the leftmost position that has one. */
  function MethodSearch(s: string): Option<MethodGroups>
  {
    Leftmost(seq(|s| + 1, p requires 0 <= p <= |s| => MethodAt(s, p)))
  }

  /**
   * The pattern matches `s[p..j + 1]` with `\w+` over `s[p..e]`, `\s+` over
   * `s[e..t]`, `\w+` over `s[t..f]`, `\s*` over `s[f..g]`, '(' at `g`,
   * `.*?` over `s[g + 1..j]` and ')' at `j`.
   */
  predicate MethodMatchesAt(s: string, p: nat, e: nat, t: nat, f: nat, g: nat, j: nat)
  {
    && p < e < t < f <= g < j < |s|
    && AllIn(s, p, e, Word) && AllIn(s, e, t, Space) && AllIn(s, t, f, Word) && AllIn(s, f, g, Space)
    && s[g] == '(' && s[j] == ')'
    && forall m :: g < m < j ==> s[m] != '\n'
  }

  function GroupsOf(s: string, p: nat, e: nat, t: nat, f: nat, g: nat, j: nat): MethodGroups
    requires p <= e <= |s| && t <= f <= |s| && g < j <= |s|
  {
    MethodGroups(s[p..e], s[t..f], s[g + 1..j])
  }

  /** `\w` and `\s` share no character, so neither greedy run can give anything back. */
  lemma WordIsNotSpace(c: char)
    ensures IsSpace(c) ==> !IsWordChar(c)
  {
  }

  /** `m` is read from a match at `p` whose lazy group ends at the first possible ')'. */
  ghost predicate IsShortestAt(s: string, p: nat, m: MethodGroups)
  {
    exists e: nat, t: nat, f: nat, g: nat, j: nat ::
      && MethodMatchesAt(s, p, e, t, f, g, j)
      && m == GroupsOf(s, p, e, t, f, g, j)
      && forall j': nat :: MethodMatchesAt(s, p, e, t, f, g, j') ==> j <= j'
  }

  /** Every match found is a match of the pattern whose lazy group ends at the first possible ')'. */
  lemma MethodAtSound(s: string, p: nat)
    requires p <= |s|
    requires MethodAt(s, p).Some?
    ensures IsShortestAt(s, p, MethodAt(s, p).value)
  {
    var e := RunEnd(s, p, Word);
    var t := RunEnd(s, e, Space);
    var f := RunEnd(s, t, Word);
    var g := RunEnd(s, f, Space);
    var j := LazyClose(s, g + 1).value;
    assert MethodMatchesAt(s, p, e, t, f, g, j);
    assert MethodAt(s, p).value == GroupsOf(s, p, e, t, f, g, j);
  }

  /**
   * Any way of matching the pattern at `p` is found: the two words are forced,
   * and the lazy group ends no later than that match's ')'.
   */
  lemma MethodAtComplete(s: string, p: nat, e: nat, t: nat, f: nat, g: nat, j: nat)
    requires MethodMatchesAt(s, p, e, t, f, g, j)
    ensures MethodAt(s, p).Some?
    ensures MethodAt(s, p).value.returnType == s[p..e] && MethodAt(s, p).value.name == s[t..f]
    ensures |MethodAt(s, p).value.params| <= j - g - 1
    ensures MethodAt(s, p).value.params == s[g + 1..g + 1 + |MethodAt(s, p).value.params|]
  {
    WordIsNotSpace(s[e]);
    RunEndUnique(s, p, e, Word);
    WordIsNotSpace(s[t]);
    RunEndUnique(s, e, t, Space);
    if f < g {
      WordIsNotSpace(s[f]);
    }
    RunEndUnique(s, t, f, Word);
    RunEndUnique(s, f, g, Space);
    assert LazyClose(s, g + 1).Some?;
  }

  /** The method pattern matches some part of `s`. */
  ghost predicate MethodMatchesSomewhere(s: string)
  {
    exists p: nat, e: nat, t: nat, f: nat, g: nat, j: nat :: MethodMatchesAt(s, p, e, t, f, g, j)
  }

  /** The method groups `re.search` reports: from the leftmost match, with the shortest lazy group. */
  ghost predicate IsMethodMatch(s: string, p: nat, m: MethodGroups)
  {
    && IsShortestAt(s, p, m)
    && forall q: nat, e: nat, t: nat, f: nat, g: nat, j: nat :: q < p ==> !MethodMatchesAt(s, q, e, t, f, g, j)
  }

  /**
   * `method_pattern.search(line)`: no match exactly when the pattern matches
   * nowhere; otherwise the groups come from a match at the leftmost position
   * where one exists, with the shortest lazy group.
   */
  lemma MethodSearchSpec(s: string)
    ensures MethodSearch(s).Some? <==> MethodMatchesSomewhere(s)
    ensures MethodSearch(s).Some? ==> exists p: nat :: IsMethodMatch(s, p, MethodSearch(s).value)
  {
    var attempts := seq(|s| + 1, p requires 0 <= p <= |s| => MethodAt(s, p));
    LeftmostSpec(attempts);
    forall p: nat, e: nat, t: nat, f: nat, g: nat, j: nat | MethodMatchesAt(s, p, e, t, f, g, j)
      ensures attempts[p].Some?
    {
      MethodAtComplete(s, p, e, t, f, g, j);
    }
    if MethodSearch(s).Some? {
      var q :| 0 <= q < |attempts| && attempts[q] == MethodSearch(s) && forall r :: 0 <= r < q ==> attempts[r].None?;
      MethodAtSound(s, q);
      forall r: nat, e: nat, t: nat, f: nat, g: nat, j: nat | r < q
        ensures !MethodMatchesAt(s, r, e, t, f, g, j)
      {
        if MethodMatchesAt(s, r, e, t, f, g, j) {
          MethodAtComplete(s, r, e, t, f, g, j);
        }
      }
      assert IsMethodMatch(s, q, MethodSearch(s).value);
    }
  }
}

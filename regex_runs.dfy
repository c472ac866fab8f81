/**
 * Building blocks for the dedicated matchers of the line scanners: maximal
 * runs of one character class, which is what a greedy `x+` or `x*` settles on
 * whenever the next part of the pattern cannot begin with a character of `x`.
 */
module RegexRuns {
  import opened Wrappers
  import opened Text

  /** `\w`, `\s`, or one literal character. */
  datatype CharClass = Word | Space | Literal(c: char)

  predicate InClass(c: char, k: CharClass)
  {
    match k
    case Word => IsWordChar(c)
    case Space => IsSpace(c)
    case Literal(x) => c == x
  }

  /** The end of the longest run of `k` characters starting at `i`. */
  function RunEnd(s: string, i: nat, k: CharClass): (j: nat)
    requires i <= |s|
    ensures i <= j <= |s|
    ensures forall m :: i <= m < j ==> InClass(s[m], k)
    ensures j == |s| || !InClass(s[j], k)
    decreases |s| - i
  {
    if i < |s| && InClass(s[i], k) then RunEnd(s, i + 1, k) else i
  }

  /** `s[i..j]` is made of `k` characters only. */
  predicate AllIn(s: string, i: nat, j: nat, k: CharClass)
    requires i <= j <= |s|
  {
    forall m :: i <= m < j ==> InClass(s[m], k)
  }

  /**
   * A run of `k` that stops just before a character outside `k` (or at the
   * end) is the maximal run: this is why the greedy quantifiers of the
   * scanners never give anything back.
   */
  lemma RunEndUnique(s: string, i: nat, j: nat, k: CharClass)
    requires i <= j <= |s|
    requires AllIn(s, i, j, k)
    requires j == |s| || !InClass(s[j], k)
    ensures RunEnd(s, i, k) == j
  {
  }

  /** `re.search` over the match attempts at positions 0, 1, ...: the first attempt that succeeds. */
  function Leftmost<T>(attempts: seq<Option<T>>): Option<T>
  {
    if |attempts| == 0 then None
    else if attempts[0].Some? then attempts[0]
    else Leftmost(attempts[1..])
  }

  lemma {:induction false} LeftmostSpec<T>(attempts: seq<Option<T>>)
    ensures Leftmost(attempts).None? <==> forall q :: 0 <= q < |attempts| ==> attempts[q].None?
    ensures Leftmost(attempts).Some? ==>
      exists q :: 0 <= q < |attempts| && attempts[q] == Leftmost(attempts)
               && forall r :: 0 <= r < q ==> attempts[r].None?
  {
    if |attempts| > 0 && attempts[0].None? {
      LeftmostSpec(attempts[1..]);
      assert forall q :: 1 <= q < |attempts| ==> attempts[q] == attempts[1..][q - 1];
      if Leftmost(attempts).Some? {
        var q :| 0 <= q < |attempts[1..]| && attempts[1..][q] == Leftmost(attempts[1..])
               && forall r :: 0 <= r < q ==> attempts[1..][r].None?;
        assert attempts[q + 1] == Leftmost(attempts);
        assert forall r :: 1 <= r < q + 1 ==> attempts[r] == attempts[1..][r - 1];
      }
    }
  }
}

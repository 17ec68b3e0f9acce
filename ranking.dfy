/**
 * The relevance comparator shared by the coordinator (backend/coordinator.js)
 * and the search node (backend/node.js): titles containing the query first,
 * then titles starting with it, then `localeCompare` order, all on lower-cased text.
 */
module Ranking {
  import opened Text
  import opened Sorting

  function Compare(titleA: string, titleB: string, query: string): (r: int)
    ensures -1 <= r <= 1
  {
    var a, b, q := Lower(titleA), Lower(titleB), Lower(query);
    if Contains(a, q) && !Contains(b, q) then -1
    else if !Contains(a, q) && Contains(b, q) then 1
    else if StartsWith(a, q) && !StartsWith(b, q) then -1
    else if !StartsWith(a, q) && StartsWith(b, q) then 1
    else LexCompare(a, b)
  }

  /** The comparator the two sort calls pass, for results whose title is `title(x)`. */
  function RankBy<T>(title: T -> string, query: string): (T, T) -> int {
    (x: T, y: T) => Compare(title(x), title(y), query)
  }

  lemma CompareAntisymmetric(a: string, b: string, q: string)
    ensures Compare(a, b, q) == -Compare(b, a, q)
  {
    LexCompareAntisymmetric(Lower(a), Lower(b));
  }

  lemma CompareTransitive(a: string, b: string, c: string, q: string)
    requires Compare(a, b, q) <= 0 && Compare(b, c, q) <= 0
    ensures Compare(a, c, q) <= 0
  {
    var la, lb, lc, lq := Lower(a), Lower(b), Lower(c), Lower(q);
    if Contains(la, lq) == Contains(lb, lq) == Contains(lc, lq)
       && StartsWith(la, lq) == StartsWith(lb, lq) == StartsWith(lc, lq) {
      LexCompareTransitive(la, lb, lc);
    }
  }

  /** The comparator is a consistent total preorder, so the sort is well defined. */
  lemma RankByConsistent<T(!new)>(title: T -> string, query: string)
    ensures Consistent(RankBy(title, query))
  {
    var cmp := RankBy(title, query);
    forall a, b ensures cmp(a, b) < 0 <==> cmp(b, a) > 0 {
      CompareAntisymmetric(title(a), title(b), query);
    }
    forall a, b, c | cmp(a, b) <= 0 && cmp(b, c) <= 0 ensures cmp(a, c) <= 0 {
      CompareTransitive(title(a), title(b), title(c), query);
    }
  }

  /**
   * In any order sorted by the comparator, a result whose title contains the
   * query precedes every result whose title does not, and among results that
   * agree on containment a prefix match precedes a non-prefix match.
   */
  lemma SortedByRank<T>(s: seq<T>, title: T -> string, query: string, i: int, j: int)
    requires SortedBy(s, RankBy(title, query)) && 0 <= i < j < |s|
    ensures Contains(Lower(title(s[j])), Lower(query)) ==> Contains(Lower(title(s[i])), Lower(query))
    ensures Contains(Lower(title(s[i])), Lower(query)) == Contains(Lower(title(s[j])), Lower(query))
            && StartsWith(Lower(title(s[j])), Lower(query))
            ==> StartsWith(Lower(title(s[i])), Lower(query))
  {
    assert RankBy(title, query)(s[i], s[j]) <= 0;
  }
}

/**
  `paginate_questions`: page `page` (1-indexed) of an ordered selection is the
  Python slice `selection[(page - 1) * 10 : (page - 1) * 10 + 10]`, with
  Python's reading of negative and out-of-range slice bounds.
 */
module Pagination {

  const QuestionsPerPage: int := 10

  function Min(a: int, b: int): int { if a <= b then a else b }

  /** A Python slice bound: a negative one counts from the end, then it is clamped to `0..n`. */
  function SliceBound(i: int, n: nat): (b: nat)
    ensures b <= n
  {
    if i < 0 then (if n + i < 0 then 0 else n + i)
    else if i > n then n
    else i
  }

  /** `s[start:stop]` in Python. */
  function PySlice<T>(s: seq<T>, start: int, stop: int): seq<T> {
    var lo, hi := SliceBound(start, |s|), SliceBound(stop, |s|);
    if lo < hi then s[lo..hi] else []
  }

  function Paginate<T>(selection: seq<T>, page: int): (r: seq<T>)
    ensures |r| <= QuestionsPerPage
    ensures forall k :: 0 <= k < |r| ==> r[k] in selection
  {
    var start := (page - 1) * QuestionsPerPage;
    var stop := start + QuestionsPerPage;
    PySlice(selection, start, stop)
  }

  /**
    Whether page `page` of a selection of `n` items is non-empty: a positive
    page that starts before the end, or a negative page whose window, counted
    from the end, still reaches past the front.
   */
  predicate PageHasItems(n: nat, page: int) {
    || (page >= 1 && (page - 1) * QuestionsPerPage < n)
    || (page < 0 && n + page * QuestionsPerPage > 0)
  }

  lemma PaginateNonEmptyIff<T>(s: seq<T>, page: int)
    ensures Paginate(s, page) != [] <==> PageHasItems(|s|, page)
  {
  }

  /** Page 0 (start -10, stop 0) and every page of an empty selection are empty. */
  lemma EmptyPages<T>(s: seq<T>, page: int)
    requires page == 0 || s == []
    ensures Paginate(s, page) == []
  {
    PaginateNonEmptyIff(s, page);
  }

  /** A page from 1 on holds exactly the items at `(page - 1) * 10 ..` that exist, at most ten. */
  lemma PaginateWindow<T>(s: seq<T>, page: int)
    requires page >= 1
    ensures var start := (page - 1) * QuestionsPerPage;
            var r := Paginate(s, page);
            && |r| == (if start >= |s| then 0 else Min(QuestionsPerPage, |s| - start))
            && forall k :: 0 <= k < |r| ==> r[k] == s[start + k]
  {
  }

  /** A negative page is a window counted from the end of the selection. */
  lemma PaginateFromEnd<T>(s: seq<T>, page: int)
    requires page < 0 && |s| + (page - 1) * QuestionsPerPage >= 0
    ensures Paginate(s, page) == s[|s| + (page - 1) * QuestionsPerPage .. |s| + page * QuestionsPerPage]
  {
  }

  /** Every item of the selection is listed: item `i` is entry `i % 10` of page `i / 10 + 1`. */
  lemma PagesCover<T>(s: seq<T>, i: int)
    requires 0 <= i < |s|
    ensures var r := Paginate(s, i / QuestionsPerPage + 1);
            i % QuestionsPerPage < |r| && r[i % QuestionsPerPage] == s[i]
  {
    PaginateWindow(s, i / QuestionsPerPage + 1);
  }
}

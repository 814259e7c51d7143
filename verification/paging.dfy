/** `get_paginated_questions`: page `page` of a result list is the Python slice
    `items[(page - 1) * 10 : (page - 1) * 10 + 10]`. Formatting each row is
    left abstract, so a page holds the rows themselves. */
module Paging {

  const QuestionsPerPage: nat := 10

  function Min(a: int, b: int): int { if a <= b then a else b }

  function Max(a: int, b: int): int { if a <= b then b else a }

  /** How Python normalises a slice bound for a sequence of length `n`: a
      negative bound counts from the end, and the result is clipped to 0..n. */
  function SliceBound(i: int, n: nat): (k: nat)
    ensures k <= n
  {
    if i < 0 then Max(i + n, 0) else Min(i, n)
  }

  /** Python's `items[start:end]` with step 1. */
  function Slice<T>(items: seq<T>, start: int, end: int): seq<T>
  {
    var lo := SliceBound(start, |items|);
    var hi := SliceBound(end, |items|);
    if lo < hi then items[lo..hi] else []
  }

  /** The rows of page `page`. A page of 1 or more is the window of at most ten
      rows starting at `(page - 1) * 10`; page 0 is always empty; a negative
      page, because a negative slice bound counts from the end, is a window
      taken from the tail of the list. */
  function Paginate<T>(items: seq<T>, page: int): (r: seq<T>)
    ensures |r| <= QuestionsPerPage
    ensures forall x :: x in r ==> x in items
    ensures page >= 1 ==>
      r == items[Min((page - 1) * QuestionsPerPage, |items|)..Min(page * QuestionsPerPage, |items|)]
    ensures page >= 1 ==> (r == [] <==> |items| <= (page - 1) * QuestionsPerPage)
    ensures page == 0 ==> r == []
    ensures page < 0 ==>
      r == items[Max(|items| + (page - 1) * QuestionsPerPage, 0)..Max(|items| + page * QuestionsPerPage, 0)]
  {
    var start := (page - 1) * QuestionsPerPage;
    Slice(items, start, start + QuestionsPerPage)
  }

  /** The concatenation of pages 1 to `k`. */
  function FirstPages<T>(items: seq<T>, k: nat): seq<T>
  {
    if k == 0 then [] else FirstPages(items, k - 1) + Paginate(items, k)
  }

  /** Walking pages 1, 2, ... visits every row once, in order: pages 1 to `k`
      together are the first `10 * k` rows. */
  lemma {:induction false} PagesCoverInOrder<T>(items: seq<T>, k: nat)
    ensures FirstPages(items, k) == items[..Min(k * QuestionsPerPage, |items|)]
  {
    if k > 0 {
      PagesCoverInOrder(items, k - 1);
      var a := Min((k - 1) * QuestionsPerPage, |items|);
      var b := Min(k * QuestionsPerPage, |items|);
      assert items[..a] + items[a..b] == items[..b];
    }
  }

  /** A negative page is not out of range: with more than ten rows, page -1
      is the non-empty tail window ending ten rows before the end. */
  lemma NegativePageIsServed<T>(items: seq<T>)
    requires |items| > QuestionsPerPage
    ensures Paginate(items, -1) == items[Max(|items| - 2 * QuestionsPerPage, 0)..|items| - QuestionsPerPage]
    ensures Paginate(items, -1) != []
  {
  }

  /** Pagination as the out-of-bounds check beside it intends: only pages 1
      to the last hold rows. */
  function PageInRange<T>(items: seq<T>, page: int): (r: seq<T>)
    ensures |r| <= QuestionsPerPage
    ensures r != [] <==> 1 <= page && (page - 1) * QuestionsPerPage < |items|
    ensures r != [] ==> r == Paginate(items, page)
  {
    if page < 1 then [] else Paginate(items, page)
  }
}

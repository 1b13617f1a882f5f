/** `paginate_questions`: the page window of ten questions, taken with a
    Python slice, so that out-of-range and non-positive pages follow the
    slice rules rather than raising. */
module Pagination {
  import opened Basics
  import opened PySlice

  /** QUESTIONS_PER_PAGE. */
  const PageSize: nat := 10

  /** `request.args.get('page', 1, type=int)`. The argument arrives already
      parsed: `None` stands for a missing `page` and for one that does not
      read as an integer, both of which fall back to 1. */
  function PageNumber(arg: Option<int>): (p: int)
    ensures arg.Some? ==> p == arg.value
    ensures arg.None? ==> p == 1
  {
    match arg
    case Some(n) => n
    case None => 1
  }

  /** `start = (page - 1) * QUESTIONS_PER_PAGE`. */
  function PageStart(page: int): int { (page - 1) * PageSize }

  /** `questions[start:end]` with `end = start + QUESTIONS_PER_PAGE`. */
  function Paginate<T>(items: seq<T>, page: int): (r: seq<T>)
    ensures |r| <= PageSize
    ensures forall x | x in r :: x in items
    // positive pages: the in-order run between start and end, clipped to the list
    ensures page >= 1 ==>
              var lo := Min(PageStart(page), |items|);
              var hi := Min(PageStart(page) + PageSize, |items|);
              r == items[lo..hi]
    // a page past the end is empty, not an error
    ensures page >= 1 && PageStart(page) >= |items| ==> r == []
    // page 0 is always empty
    ensures page == 0 ==> r == []
    // a negative page -k is the window of ten ending 10*k before the end
    ensures page < 0 && |items| > PageSize * -page ==>
              var hi := |items| - PageSize * -page;
              r != [] && r == items[Max(0, hi - PageSize)..hi]
    ensures page < 0 && |items| <= PageSize * -page ==> r == []
  {
    var start := PageStart(page);
    var r := Slice(items, start, start + PageSize);
    SliceIsContiguous(items, start, start + PageSize);
    r
  }

  /** A request without a usable `page` argument gets the first ten
      elements (all of them when there are fewer). */
  lemma DefaultPageIsFirst<T>(items: seq<T>)
    ensures Paginate(items, PageNumber(None)) == items[..Min(PageSize, |items|)]
  {
  }

  /** The positive pages laid end to end, pages 1 through `n`. */
  function Pages<T>(items: seq<T>, n: nat): seq<T>
  {
    if n == 0 then [] else Pages(items, n - 1) + Paginate(items, n)
  }

  /** Paging forward from page 1 reproduces the list in order with nothing
      lost or repeated: the first `n` pages are exactly its first `10 * n`
      elements (or all of it). */
  lemma {:induction false} PagesArePrefix<T>(items: seq<T>, n: nat)
    ensures Pages(items, n) == items[..Min(PageSize * n, |items|)]
  {
    if n > 0 {
      PagesArePrefix(items, n - 1);
      var a := Min(PageSize * (n - 1), |items|);
      var b := Min(PageSize * n, |items|);
      assert Paginate(items, n) == items[a..b];
      assert items[..a] + items[a..b] == items[..b];
    }
  }

  /** Consequently every element is reachable: it sits on page `i / 10 + 1`
      at offset `i % 10`. */
  lemma PageOfIndex<T>(items: seq<T>, i: int)
    requires 0 <= i < |items|
    ensures var p := i / PageSize + 1;
            i % PageSize < |Paginate(items, p)| && Paginate(items, p)[i % PageSize] == items[i]
  {
  }

  /** Enough pages cover the whole list. */
  lemma {:induction false} PagesCoverAll<T>(items: seq<T>)
    ensures Pages(items, (|items| + PageSize - 1) / PageSize) == items
  {
    PagesArePrefix(items, (|items| + PageSize - 1) / PageSize);
  }
}

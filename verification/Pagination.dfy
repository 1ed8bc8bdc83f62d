/** Page arithmetic: the slice a page number selects, and the page counts a response reports about it. */
module Pagination {
  import opened Wrappers

  /** `total_pages`: the exact ceiling. */
  function TotalPages(total: nat, size: int): nat {
    if size > 0 then (total + size - 1) / size else 0
  }

  predicate HasNext(page: int, total: nat, size: int) {
    page < TotalPages(total, size)
  }

  predicate HasPrevious(page: int) {
    page > 1
  }

  function Offset(page: int, size: int): int {
    (if page - 1 > 0 then page - 1 else 0) * size
  }

  function Min(a: int, b: int): int {
    if a < b then a else b
  }

  /** `qs[lo:hi]`: a negative bound raises, and both bounds stop at the end. */
  function Slice<T>(rows: seq<T>, lo: int, hi: int): Option<seq<T>> {
    if lo < 0 || hi < 0 then None
    else if hi <= lo then Some([])
    else Some(rows[Min(lo, |rows|)..Min(hi, |rows|)])
  }

  /** `list_paginated`, the page; None when the slice raises. */
  function ListPaginated<T>(rows: seq<T>, page: int, size: int): Option<seq<T>> {
    Slice(rows, Offset(page, size), Offset(page, size) + size)
  }

  function PageOf<T>(rows: seq<T>, page: int, size: int): seq<T>
    requires size > 0
  {
    NeverRaises(rows, page, size);
    ListPaginated(rows, page, size).value
  }

  lemma OffsetIsNonNegative(page: int, size: int)
    requires size >= 0
    ensures Offset(page, size) >= 0
  {
  }

  lemma NeverRaises<T>(rows: seq<T>, page: int, size: int)
    requires size > 0
    ensures ListPaginated(rows, page, size).Some?
  {
    OffsetIsNonNegative(page, size);
  }

  /** With a negative size every page raises; with size zero every page is empty and there are none to follow. */
  lemma BadSizes<T>(rows: seq<T>, page: int, size: int)
    requires size <= 0
    ensures ListPaginated(rows, page, size).None? <==> size < 0
    ensures size == 0 ==> ListPaginated(rows, page, size) == Some([])
    ensures page >= 0 ==> !HasNext(page, |rows|, size)
  {
    if size < 0 && page > 1 {
      assert (page - 1) * size < 0 by { NegativeProduct(page - 1, size); }
    }
  }

  lemma NegativeProduct(a: int, b: int)
    requires a > 0 && b < 0
    ensures a * b < 0
  {
  }

  lemma CeilingBounds(total: nat, size: int)
    requires size > 0
    ensures (TotalPages(total, size) - 1) * size < total <= TotalPages(total, size) * size || total == 0 == TotalPages(total, size)
    ensures total > 0 ==> TotalPages(total, size) > 0
  {
    var x := total + size - 1;
    assert x == size * (x / size) + x % size;
    assert (x / size - 1) * size == (x / size) * size - size;
  }

  lemma Monotone(a: int, b: int, size: int)
    requires a <= b && size > 0
    ensures a * size <= b * size
  {
  }

  lemma Distribute(a: int, size: int)
    ensures (a + 1) * size == a * size + size
  {
  }

  /** Where a page lies: from `(page - 1) * size` up to the next multiple of the size or the end. */
  lemma PageIsSlice<T>(rows: seq<T>, page: int, size: int)
    requires size > 0
    ensures page <= 1 ==> PageOf(rows, page, size) == rows[..Min(size, |rows|)]
    ensures page >= 1 ==>
              var lo := (page - 1) * size;
              lo >= 0 && PageOf(rows, page, size) == rows[Min(lo, |rows|)..Min(lo + size, |rows|)]
  {
    OffsetIsNonNegative(page, size);
    if page <= 1 {
      assert Offset(page, size) == 0;
      assert rows[0..Min(size, |rows|)] == rows[..Min(size, |rows|)];
    } else {
      assert Offset(page, size) == (page - 1) * size;
    }
  }

  /** `has_next` tells the truth: from page one on, it holds exactly when the next page has rows. */
  lemma HasNextIff<T>(rows: seq<T>, page: int, size: int)
    requires size > 0 && page >= 1
    ensures HasNext(page, |rows|, size) <==> PageOf(rows, page + 1, size) != []
    ensures HasNext(page, |rows|, size) ==> |PageOf(rows, page, size)| == size
  {
    var n, total := |rows|, TotalPages(|rows|, size);
    PageIsSlice(rows, page, size);
    PageIsSlice(rows, page + 1, size);
    CeilingBounds(n, size);
    Distribute(page - 1, size);
    if page < total {
      Monotone(page, total - 1, size);
    } else {
      Monotone(total, page, size);
    }
  }

  /** `has_previous` says that a page lies before this one; that page has rows exactly up to one page past the last. */
  lemma HasPreviousIff<T>(rows: seq<T>, page: int, size: int)
    requires size > 0 && rows != []
    ensures HasPrevious(page) && PageOf(rows, page - 1, size) != [] <==> 1 < page <= TotalPages(|rows|, size) + 1
  {
    CeilingBounds(|rows|, size);
    if page == 2 {
      PageIsSlice(rows, 1, size);
    } else if page > 2 {
      HasNextIff(rows, page - 2, size);
    }
  }

  /** Row `i` stands on page `i / size + 1`, at place `i % size`. */
  lemma RowIsOnItsPage<T>(rows: seq<T>, i: nat, size: int)
    requires size > 0 && i < |rows|
    ensures var page := i / size + 1;
            && 1 <= page <= TotalPages(|rows|, size)
            && i % size < |PageOf(rows, page, size)|
            && PageOf(rows, page, size)[i % size] == rows[i]
  {
    var q := i / size;
    assert i == q * size + i % size;
    PageIsSlice(rows, q + 1, size);
    CeilingBounds(|rows|, size);
    if TotalPages(|rows|, size) <= q {
      Monotone(TotalPages(|rows|, size), q, size);
      assert false;
    }
  }

  // ---------------------------------------------------------------- following has_next

  function Concat<T>(pages: seq<seq<T>>): seq<T> {
    if pages == [] then [] else Concat(pages[..|pages| - 1]) + pages[|pages| - 1]
  }

  /** A client that asks for `page` and goes on while the response says `has_next`. */
  method Follow<T>(rows: seq<T>, first: int, size: int) returns (pages: seq<seq<T>>)
    requires size > 0
    ensures |pages| == 1 + if HasNext(first, |rows|, size) then TotalPages(|rows|, size) - first else 0
    ensures forall k :: 0 <= k < |pages| ==> pages[k] == PageOf(rows, first + k, size)
    ensures Concat(pages) == rows <==> first == 1 || rows == []
  {
    hide PageOf, ListPaginated, Slice, Offset, Walked, TotalPages;
    var page := first;
    pages := [PageOf(rows, page, size)];
    WalkOne(rows, first, first, size);
    assert pages[..0] == [] && Walked(rows, first, first - 1, size) == [] by { WalkNone(rows, first, size); }
    while HasNext(page, |rows|, size)
      invariant |pages| == page - first + 1
      invariant page == first || page <= TotalPages(|rows|, size)
      invariant forall k :: 0 <= k < |pages| ==> pages[k] == PageOf(rows, first + k, size)
      invariant Concat(pages) == Walked(rows, first, page, size)
      decreases TotalPages(|rows|, size) - page
    {
      page := page + 1;
      var next := PageOf(rows, page, size);
      assert (pages + [next])[..|pages|] == pages;
      pages := pages + [next];
      WalkOne(rows, first, page, size);
    }
    WalkIsPartitionIff(rows, first, size);
  }

  /** The rows of the pages `first`, ..., `last`, one after the other. */
  function Walked<T>(rows: seq<T>, first: int, last: int, size: int): seq<T>
    requires size > 0
    decreases last - first
  {
    if last < first then [] else Walked(rows, first, last - 1, size) + PageOf(rows, last, size)
  }

  lemma WalkOne<T>(rows: seq<T>, first: int, last: int, size: int)
    requires size > 0 && first <= last
    ensures Walked(rows, first, last, size) == Walked(rows, first, last - 1, size) + PageOf(rows, last, size)
  {
  }

  lemma WalkNone<T>(rows: seq<T>, first: int, size: int)
    requires size > 0
    ensures Walked(rows, first, first - 1, size) == []
  {
  }

  lemma JoinSlices<T>(rows: seq<T>, a: int, b: int, c: int)
    requires 0 <= a <= b <= c
    ensures rows[Min(a, |rows|)..Min(b, |rows|)] + rows[Min(b, |rows|)..Min(c, |rows|)] == rows[Min(a, |rows|)..Min(c, |rows|)]
  {
  }

  /** From page one on, pages neither overlap nor leave a gap. */
  lemma {:induction false} WalkedIsSlice<T>(rows: seq<T>, first: int, last: int, size: int)
    requires size > 0 && 1 <= first <= last + 1
    ensures (first - 1) * size >= 0 && last * size >= (first - 1) * size
    ensures Walked(rows, first, last, size) == rows[Min((first - 1) * size, |rows|)..Min(last * size, |rows|)]
    decreases last - first
  {
    hide PageOf;
    Monotone(first - 1, last, size);
    Monotone(0, first - 1, size);
    if first <= last {
      WalkedIsSlice(rows, first, last - 1, size);
      PageIsSlice(rows, last, size);
      Distribute(last - 1, size);
      JoinSlices(rows, (first - 1) * size, (last - 1) * size, last * size);
    }
  }

  /** Below page one each step shows the first page again. */
  lemma {:induction false} WalkedFromBelow<T>(rows: seq<T>, first: int, last: int, size: int)
    requires size > 0 && first <= 0 <= last
    ensures |Walked(rows, first, last, size)| >= |Walked(rows, 1, last, size)| + Min(size, |rows|)
    decreases last - first
  {
    PageIsSlice(rows, last, size);
    if last == 0 {
      WalkOne(rows, first, 0, size);
    } else {
      WalkedFromBelow(rows, first, last - 1, size);
      WalkOne(rows, first, last, size);
      WalkOne(rows, 1, last, size);
    }
  }

  /** Where the client that starts at `first` stops. */
  function LastPage(first: int, total: nat, size: int): int {
    if HasNext(first, total, size) then TotalPages(total, size) else first
  }

  /** Following `has_next` shows every row once and in order exactly when it starts at page one (or there are no rows). */
  lemma WalkIsPartitionIff<T>(rows: seq<T>, first: int, size: int)
    requires size > 0
    ensures Walked(rows, first, LastPage(first, |rows|, size), size) == rows <==> first == 1 || rows == []
  {
    var n, last := |rows|, LastPage(first, |rows|, size);
    CeilingBounds(n, size);
    if first >= 1 {
      WalkedIsSlice(rows, first, last, size);
      Monotone(TotalPages(n, size), last, size);
      if first > 1 {
        Monotone(1, first - 1, size);
        assert (first - 1) * size > 0;
      }
    } else {
      if n > 0 {
        WalkedFromBelow(rows, first, last, size);
        WalkedIsSlice(rows, 1, last, size);
      } else {
        EmptyWalk(rows, first, last, size);
      }
    }
  }

  lemma {:induction false} EmptyWalk<T>(rows: seq<T>, first: int, last: int, size: int)
    requires size > 0 && rows == []
    ensures Walked(rows, first, last, size) == []
    decreases last - first
  {
    if first <= last {
      EmptyWalk(rows, first, last - 1, size);
      PageIsSlice(rows, last, size);
    }
  }
}

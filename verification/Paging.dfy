/** Webmail's message list: one page at a time, newest first. */
module Paging {
  import opened Sequences

  const DEFAULT_PAGE_SIZE := 25

  function PageSize(pageSize: int): nat {
    if pageSize < 1 then DEFAULT_PAGE_SIZE else pageSize
  }

  /** How many messages lie on the first `pages` pages, at most all of them. */
  function Covered(total: nat, pages: nat, size: nat): nat {
    if pages * size > total then total else pages * size
  }

  /** Page `page` of the newest-first listing: messages `(page-1)*size` to `page*size` of it. */
  function Page<T>(l: seq<T>, page: nat, size: nat): seq<T>
    requires page >= 1
  {
    Reverse(l)[Covered(|l|, page - 1, size)..PageEnd(|l|, page, size)]
  }

  function PageEnd(total: nat, page: nat, size: nat): (n: nat)
    requires page >= 1
    ensures Covered(total, page - 1, size) <= n <= total && n == Covered(total, page, size)
  {
    assert page * size == (page - 1) * size + size;
    Covered(total, page, size)
  }

  /** The loop over part of the list, from its end. */
  method NewestFirst<T>(l: seq<T>, start: nat, end: nat) returns (summaries: seq<T>)
    requires start <= end <= |l|
    ensures summaries == Reverse(l)[|l| - end..|l| - start]
  {
    summaries := [];
    var i := end;
    while i > start
      invariant start <= i <= end
      invariant summaries == Reverse(l)[|l| - end..|l| - i]
    {
      i := i - 1;
      assert Reverse(l)[|l| - 1 - i] == l[i];
      summaries := summaries + [l[i]];
    }
  }

  lemma PageBounds(total: nat, p: nat, size: nat)
    requires p >= 1
    ensures var end := total - (p - 1) * size;
            && (end <= 0 ==> Covered(total, p - 1, size) == Covered(total, p, size))
            && (end > 0 ==> Covered(total, p - 1, size) == total - end
                            && Covered(total, p, size) == total - if end < size then 0 else end - size)
  {
    assert p * size == (p - 1) * size + size;
  }

  /** `ListMessages`. */
  method ListMessages<T>(l: seq<T>, page: int, pageSize: int) returns (summaries: seq<T>, total: nat)
    ensures total == |l|
    ensures summaries == Page(l, if page < 1 then 1 else page, PageSize(pageSize))
    ensures var size := if pageSize < 1 then 25 else pageSize;
            var newest := |l| - 1 - (if page < 1 then 0 else page - 1) * size;
            && |summaries| == (if newest < 0 then 0 else if newest + 1 < size then newest + 1 else size)
            && forall i :: 0 <= i < |summaries| ==> 0 <= newest - i < |l| && summaries[i] == l[newest - i]
  {
    total := |l|;
    var p: nat := if page < 1 then 1 else page;
    var size: nat := if pageSize < 1 then DEFAULT_PAGE_SIZE else pageSize;
    PageBounds(total, p, size);
    var end := total - (p - 1) * size;
    if end <= 0 {
      return [], total;
    }
    var start := end - size;
    if start < 0 {
      start := 0;
    }
    MulMonotone(0, p - 1, size);
    summaries := NewestFirst(l, start, end);
  }

  /** `totalPages`, at least 1. */
  function TotalPages(total: nat, size: nat): nat
    requires size >= 1
  {
    var n := (total + size - 1) / size;
    if n < 1 then 1 else n
  }

  function FirstPages<T>(l: seq<T>, pages: nat, size: nat): seq<T> {
    if pages == 0 then [] else FirstPages(l, pages - 1, size) + Page(l, pages, size)
  }

  lemma {:induction false} FirstPagesArePrefix<T>(l: seq<T>, pages: nat, size: nat)
    ensures FirstPages(l, pages, size) == Reverse(l)[..Covered(|l|, pages, size)]
  {
    if pages == 0 {
      assert 0 * size == 0;
    } else {
      FirstPagesArePrefix(l, pages - 1, size);
      var a, b := Covered(|l|, pages - 1, size), PageEnd(|l|, pages, size);
      assert Reverse(l)[..a] + Reverse(l)[a..b] == Reverse(l)[..b];
    }
  }

  lemma TotalPagesCover(total: nat, size: nat)
    requires size >= 1
    ensures TotalPages(total, size) * size >= total
    ensures total > 0 ==> (TotalPages(total, size) - 1) * size < total
  {
    var n := (total + size - 1) / size;
    assert n * size + (total + size - 1) % size == total + size - 1;
    assert n * size == (n - 1) * size + size;
    if n < 1 {
      assert total == 0;
    }
  }

  /** The pages partition the folder: one after the other they give every message once, newest first. */
  lemma PagesPartition<T>(l: seq<T>, size: nat)
    requires size >= 1
    ensures FirstPages(l, TotalPages(|l|, size), size) == Reverse(l)
  {
    FirstPagesArePrefix(l, TotalPages(|l|, size), size);
    TotalPagesCover(|l|, size);
  }

  /** No page holds more than `size` messages, each but the last is full, and a page is empty exactly
      when it lies beyond the last (or the folder is empty). */
  lemma PageLengths<T>(l: seq<T>, page: nat, size: nat)
    requires size >= 1 && page >= 1
    ensures |Page(l, page, size)| <= size
    ensures page < TotalPages(|l|, size) ==> |Page(l, page, size)| == size
    ensures Page(l, page, size) == [] <==> l == [] || page > TotalPages(|l|, size)
  {
    var n := TotalPages(|l|, size);
    TotalPagesCover(|l|, size);
    assert page * size == (page - 1) * size + size;
    if page < n {
      MulMonotone(page, n - 1, size);
    } else if page > n {
      MulMonotone(n, page - 1, size);
    }
  }

  lemma MulMonotone(a: nat, b: nat, size: nat)
    requires a <= b
    ensures a * size <= b * size
  {
  }
}

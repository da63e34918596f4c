/**
 Page arithmetic (modoboa/lib/paginator.py), with the slice `[id_start - 1:id_stop]` that its
 callers take (modoboa/amavis/sql_connector.py).
 */
module Paginator {
  import opened Text

  /** 1-based, both ends included. */
  datatype Range = Range(start: int, stop: int)

  function Indexes(size: int, page: int): Range {
    Range(size * page + 1, size * page + 1 + size - 1)
  }

  function PageRange(total: nat, size: int, pageId: int): Option<Range> {
    var r := Indexes(size, pageId - 1);
    if pageId < 1 || r.start > total then None
    else Some(if r.stop >= total then r.(stop := total) else r)
  }

  class Page {
    const total: nat
    const number: int
    const idStart: int
    const idStop: int
    var cachedPrevious: Option<bool>
    var cachedNext: Option<bool>

    constructor (total: nat, number: int, idStart: int, idStop: int)
      ensures this.total == total && this.number == number && this.idStart == idStart && this.idStop == idStop
      ensures Valid()
    {
      this.total, this.number, this.idStart, this.idStop := total, number, idStart, idStop;
      cachedPrevious, cachedNext := None, None;
    }

    /** A cached answer is the answer. */
    predicate Valid()
      reads this
    {
      && (cachedPrevious.Some? ==> cachedPrevious.value == (number > 1))
      && (cachedNext.Some? ==> cachedNext.value == (idStop < total))
    }

    method HasPrevious() returns (r: bool)
      requires Valid()
      modifies this`cachedPrevious
      ensures Valid() && r == (number > 1)
    {
      if cachedPrevious.None? {
        cachedPrevious := Some(number > 1);
      }
      return cachedPrevious.value;
    }

    method HasNext() returns (r: bool)
      requires Valid()
      modifies this`cachedNext
      ensures Valid() && r == (idStop < total)
    {
      if cachedNext.None? {
        cachedNext := Some(idStop < total);
      }
      return cachedNext.value;
    }
  }

  method GetPage(total: nat, size: int, pageId: int) returns (page: Page?)
    ensures page == null <==> PageRange(total, size, pageId).None?
    ensures page != null ==>
              && fresh(page) && page.Valid() && page.total == total && page.number == pageId
              && PageRange(total, size, pageId) == Some(Range(page.idStart, page.idStop))
  {
    if pageId < 1 {
      return null;
    }
    var r := Indexes(size, pageId - 1);
    var stop := r.stop;
    if r.start <= total {
      if stop >= total {
        stop := total;
      }
    } else {
      return null;
    }
    page := new Page(total, pageId, r.start, stop);
  }

  // ---------------------------------------------------------------- pages partition the list

  function Slice<T>(items: seq<T>, r: Range): seq<T>
    requires 1 <= r.start <= r.stop <= |items|
  {
    items[r.start - 1..r.stop]
  }

  lemma Successor(size: int, k: int)
    ensures size * k == size * (k - 1) + size
  {
  }

  lemma NotNegative(size: int, k: int)
    requires size >= 1 && k >= 0
    ensures k <= size * k
  {
  }

  /** The page, where it exists, holds the items from `size * (k - 1)` on, `size` of them unless
      the list ends before. */
  lemma RangeIs(total: nat, size: int, k: int)
    requires size >= 1
    ensures PageRange(total, size, k).Some? <==> k >= 1 && size * (k - 1) < total
    ensures PageRange(total, size, k).Some? ==>
              var r := PageRange(total, size, k).value; var done := size * (k - 1);
              && r.start == done + 1 && 1 <= r.start <= r.stop <= total
              && r.stop == if done + size < total then done + size else total
  {
    if k >= 1 {
      NotNegative(size, k - 1);
    }
  }

  /** The successive pages from page `k` on, put together. */
  function Pages<T>(items: seq<T>, size: int, k: int): seq<T>
    requires size >= 1 && k >= 1
    decreases |items| - size * (k - 1)
  {
    RangeIs(|items|, size, k);
    Successor(size, k);
    var r := PageRange(|items|, size, k);
    if r.None? then [] else Slice(items, r.value) + Pages(items, size, k + 1)
  }

  lemma {:induction false} PagesFrom<T>(items: seq<T>, size: int, k: int)
    requires size >= 1 && k >= 1
    ensures size * (k - 1) >= 0
    ensures Pages(items, size, k) == if size * (k - 1) < |items| then items[size * (k - 1)..] else []
    decreases |items| - size * (k - 1)
  {
    NotNegative(size, k - 1);
    RangeIs(|items|, size, k);
    Successor(size, k);
    if size * (k - 1) < |items| {
      PagesFrom(items, size, k + 1);
      RestOfPages(items, size * (k - 1), size * k);
    }
  }

  lemma RestOfPages<T>(items: seq<T>, from: nat, to: int)
    requires from < |items| && from < to
    ensures (if to < |items| then items[from..to] + items[to..] else items[from..|items|] + []) == items[from..]
  {
  }

  /** Turning the pages from the first one shows every item exactly once, in order. */
  lemma PagesPartition<T>(items: seq<T>, size: int)
    requires size >= 1
    ensures Pages(items, size, 1) == items
  {
    PagesFrom(items, size, 1);
    if items != [] {
      assert items[0..] == items;
    }
  }

  /** `has_previous` and `has_next` of an existing page tell whether the neighbours exist. */
  lemma NeighboursExist(total: nat, size: int, k: int)
    requires size >= 1 && PageRange(total, size, k).Some?
    ensures k > 1 <==> PageRange(total, size, k - 1).Some?
    ensures PageRange(total, size, k).value.stop < total <==> PageRange(total, size, k + 1).Some?
  {
    RangeIs(total, size, k);
    RangeIs(total, size, k - 1);
    RangeIs(total, size, k + 1);
    Successor(size, k);
    Successor(size, k - 1);
  }
}

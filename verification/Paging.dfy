/** The pages of a listing: a total row order cut into slices. */
module Paging {
  import opened Base
  import opened Ordering

  /** The listed columns of a dictionary type; filters and the other columns do not affect paging. */
  datatype Row = Row(sort: int, id: nat)

  datatype PageQuery = PageQuery(current: Option<nat>, pageSize: Option<nat>)

  datatype Pagination = Pagination(current: nat, pageSize: nat, total: nat, totalPages: nat)

  datatype Page = Page(data: seq<Row>, pagination: Pagination)

  function CurrentOf(query: PageQuery): nat {
    if query.current.Some? then query.current.value else 1
  }

  function PageSizeOf(query: PageQuery): nat {
    if query.pageSize.Some? then query.pageSize.value else 20
  }

  /** What skip and take select. */
  function Slice<T>(rows: seq<T>, skip: nat, take: nat): seq<T> {
    if skip >= |rows| then []
    else if skip + take >= |rows| then rows[skip..]
    else rows[skip..skip + take]
  }

  /** Math.ceil(total / pageSize) for a positive page size. */
  function CeilDiv(total: nat, pageSize: nat): nat
    requires pageSize >= 1
  {
    (total + pageSize - 1) / pageSize
  }

  lemma QuotientBounds(x: nat, p: nat)
    requires p >= 1
    ensures x / p * p <= x < x / p * p + p
  {
    assert x == p * (x / p) + x % p;
  }

  lemma TimesIncreases(a: nat, b: nat, p: nat)
    requires a < b
    ensures a * p + p <= b * p
  {
    var d := b - a - 1;
    assert b * p == (a + 1 + d) * p == a * p + p + d * p;
    assert d * p >= 0;
  }

  /** The number of pages is the least one that has room for every row. */
  lemma CeilDivExact(total: nat, pageSize: nat, pages: nat)
    requires pageSize >= 1
    ensures total <= pages * pageSize <==> CeilDiv(total, pageSize) <= pages
  {
    var c := CeilDiv(total, pageSize);
    QuotientBounds(total + pageSize - 1, pageSize);
    if c < pages {
      TimesIncreases(c, pages, pageSize);
    } else if pages < c {
      TimesIncreases(pages, c, pageSize);
    }
  }

  /** findTypes, given the matching rows in (sort, id) order. */
  function FindTypes(rows: seq<Row>, query: PageQuery): Page
    requires CurrentOf(query) >= 1 && PageSizeOf(query) >= 1
  {
    var current, pageSize := CurrentOf(query), PageSizeOf(query);
    Page(Slice(rows, (current - 1) * pageSize, pageSize),
         Pagination(current, pageSize, |rows|, CeilDiv(|rows|, pageSize)))
  }

  function PageData(rows: seq<Row>, page: nat, pageSize: nat): seq<Row>
    requires page >= 1 && pageSize >= 1
  {
    FindTypes(rows, PageQuery(Some(page), Some(pageSize))).data
  }

  /** What a reader of pages 1 to n sees. */
  ghost function FirstPages(rows: seq<Row>, n: nat, pageSize: nat): seq<Row>
    requires pageSize >= 1
  {
    if n == 0 then [] else FirstPages(rows, n - 1, pageSize) + PageData(rows, n, pageSize)
  }

  lemma PageIsSlice(rows: seq<Row>, page: nat, pageSize: nat, skip: nat)
    requires page >= 1 && pageSize >= 1 && skip == (page - 1) * pageSize
    ensures PageData(rows, page, pageSize) == Slice(rows, skip, pageSize)
  {
  }

  lemma {:induction false} FirstPagesExact(rows: seq<Row>, n: nat, pageSize: nat)
    requires pageSize >= 1
    ensures FirstPages(rows, n, pageSize) == Slice(rows, 0, n * pageSize)
  {
    if n == 0 {
      EmptySlice(rows);
    } else {
      var before := (n - 1) * pageSize;
      FirstPagesExact(rows, n - 1, pageSize);
      PageIsSlice(rows, n, pageSize, before);
      SliceNext(rows, before, pageSize);
      OnePageMore(n, pageSize);
    }
  }

  lemma EmptySlice(rows: seq<Row>)
    ensures Slice(rows, 0, 0) == []
  {
  }

  lemma OnePageMore(n: nat, pageSize: nat)
    requires n >= 1
    ensures (n - 1) * pageSize + pageSize == n * pageSize
  {
  }

  lemma SliceNext(rows: seq<Row>, skip: nat, take: nat)
    ensures Slice(rows, 0, skip) + Slice(rows, skip, take) == Slice(rows, 0, skip + take)
  {
  }

  /** Pages 1 to totalPages, one after the other, are the whole table: no gap and no row twice. */
  lemma PagesAreTheTable(rows: seq<Row>, query: PageQuery)
    requires CurrentOf(query) >= 1 && PageSizeOf(query) >= 1
    ensures FirstPages(rows, FindTypes(rows, query).pagination.totalPages, PageSizeOf(query)) == rows
  {
    var pages := CeilDiv(|rows|, PageSizeOf(query));
    CeilDivExact(|rows|, PageSizeOf(query), pages);
    FirstPagesExact(rows, pages, PageSizeOf(query));
  }

  lemma SliceExactly<T>(rows: seq<T>, skip: nat, take: nat)
    ensures var data := Slice(rows, skip, take);
      && |data| == (if |rows| <= skip then 0 else if |rows| - skip < take then |rows| - skip else take)
      && (forall k :: 0 <= k < |data| ==> skip + k < |rows| && data[k] == rows[skip + k])
  {
  }

  /** The last page is the first one with room for the last row. */
  lemma LastPage(total: nat, page: nat, pageSize: nat, skip: nat)
    requires page >= 1 && pageSize >= 1 && skip == (page - 1) * pageSize
    ensures total <= skip <==> CeilDiv(total, pageSize) <= page - 1
    ensures total <= skip + pageSize <==> CeilDiv(total, pageSize) <= page
  {
    CeilDivExact(total, pageSize, page - 1);
    CeilDivExact(total, pageSize, page);
    OnePageMore(page, pageSize);
  }

  /** Every page before the last is full, the last is not empty, and every later page is. */
  lemma PageLengths(rows: seq<Row>, page: nat, pageSize: nat)
    requires page >= 1 && pageSize >= 1
    ensures page < CeilDiv(|rows|, pageSize) ==> |PageData(rows, page, pageSize)| == pageSize
    ensures page == CeilDiv(|rows|, pageSize)
        ==> |PageData(rows, page, pageSize)| == |rows| - (page - 1) * pageSize > 0
    ensures page > CeilDiv(|rows|, pageSize) <==> PageData(rows, page, pageSize) == []
  {
    var skip := (page - 1) * pageSize;
    PageIsSlice(rows, page, pageSize, skip);
    SliceExactly(rows, skip, pageSize);
    LastPage(|rows|, page, pageSize, skip);
  }

  // --------------------------------------------------------- the order by clause

  function SortKeyOf(row: Row): SortKey {
    (row.sort, row.id)
  }

  /** A database answer to order by sort, id. */
  ghost predicate Ordered(rows: seq<Row>) {
    forall i, j :: 0 <= i < j < |rows| ==> !Less(SortKeyOf(rows[j]), SortKeyOf(rows[i]))
  }

  ghost predicate DifferentIds(rows: seq<Row>) {
    forall i, j :: 0 <= i < j < |rows| ==> rows[i].id != rows[j].id
  }

  ghost function SortKeys(rows: seq<Row>): seq<SortKey> {
    seq(|rows|, i requires 0 <= i < |rows| => SortKeyOf(rows[i]))
  }

  lemma KeysAreRows(rows: seq<Row>, other: seq<Row>)
    requires SortKeys(rows) == SortKeys(other)
    ensures rows == other
  {
    assert |SortKeys(rows)| == |rows| && |SortKeys(other)| == |other|;
    forall i | 0 <= i < |rows| ensures rows[i] == other[i] {
      assert SortKeys(rows)[i] == SortKeyOf(rows[i]) && SortKeys(other)[i] == SortKeyOf(other[i]);
    }
  }

  lemma {:induction false} SortKeysMultiset(rows: seq<Row>, row: Row)
    ensures multiset(SortKeys(rows))[SortKeyOf(row)] == multiset(rows)[row]
  {
    if rows == [] {
      assert SortKeys(rows) == [];
    } else {
      var rest := rows[1..];
      SortKeysMultiset(rest, row);
      assert rows == [rows[0]] + rest;
      assert SortKeys(rows) == [SortKeyOf(rows[0])] + SortKeys(rest);
    }
  }

  lemma OrderedStrictly(rows: seq<Row>)
    requires Ordered(rows) && DifferentIds(rows)
    ensures StrictlySorted(SortKeys(rows))
  {
    forall i, j | 0 <= i < j < |rows| ensures Less(SortKeys(rows)[i], SortKeys(rows)[j]) {
      LessTotal(SortKeyOf(rows[i]), SortKeyOf(rows[j]), SortKeyOf(rows[i]));
    }
  }

  /**
   Two page queries that are answered from the same rows agree on their order, so that pages
   fetched one by one fit together.
  */
  lemma OrderIsFixed(rows: seq<Row>, other: seq<Row>)
    requires Ordered(rows) && DifferentIds(rows) && Ordered(other) && DifferentIds(other)
    requires multiset(rows) == multiset(other)
    ensures rows == other
  {
    OrderedStrictly(rows);
    OrderedStrictly(other);
    forall k: SortKey ensures multiset(SortKeys(rows))[k] == multiset(SortKeys(other))[k] {
      SameCount(rows, other, k);
    }
    assert multiset(SortKeys(rows)) == multiset(SortKeys(other));
    SortedUnique(SortKeys(rows), SortKeys(other));
    KeysAreRows(rows, other);
  }

  lemma SameCount(rows: seq<Row>, other: seq<Row>, k: SortKey)
    requires multiset(rows) == multiset(other)
    ensures multiset(SortKeys(rows))[k] == multiset(SortKeys(other))[k]
  {
    if k.1 >= 0 {
      SortKeysMultiset(rows, Row(k.0, k.1));
      SortKeysMultiset(other, Row(k.0, k.1));
    } else {
      assert k !in SortKeys(rows) && k !in SortKeys(other);
    }
  }

  // ------------------------------------------------------------------ one answer

  /**
   The rows of one answer by position, and its pagination: without a page the first is served,
   without a page size twenty rows.
  */
  lemma ServedExactly(rows: seq<Row>, query: PageQuery, current: nat, pageSize: nat, skip: nat)
    requires current == (if query.current.Some? then query.current.value else 1)
    requires pageSize == (if query.pageSize.Some? then query.pageSize.value else 20)
    requires current >= 1 && pageSize >= 1 && skip == (current - 1) * pageSize
    ensures var page := FindTypes(rows, query);
      && page.pagination.current == current && page.pagination.pageSize == pageSize
      && page.pagination.total == |rows|
      && |page.data| == (if |rows| <= skip then 0 else if |rows| - skip < pageSize then |rows| - skip else pageSize)
      && (forall k :: 0 <= k < |page.data| ==> skip + k < |rows| && page.data[k] == rows[skip + k])
  {
    SliceExactly(rows, skip, pageSize);
  }
}

/** Activity list pages: which slice of the list a request asks for, and what the envelope says about
    the pages before and after it. */
module Page {
  import opened Text
  import opened Values

  const MAX_PAGE_SIZE := 500
  const DEFAULT_PAGE_SIZE := 20

  const TWO64 := 0x1_0000_0000_0000_0000

  /** What a 64-bit `int` keeps of a result. */
  function Wrap(i: int): int {
    (i + MAX_INT64 + 1) % TWO64 - MAX_INT64 - 1
  }

  lemma WrapKeeps(i: int)
    ensures IsInt64(Wrap(i)) && (Wrap(i) == i <==> IsInt64(i))
  {
  }

  datatype PageRequest = PageRequest(page: int, pageSize: int, limit: int, offset: int, limitProvided: bool)

  datatype Resolved = Resolved(page: int, pageSize: int, offset: int)

  function ResolvePage(r: PageRequest): Resolved {
    var page := if r.page < 1 then 1 else r.page;
    var pageSize := if r.pageSize < 1 || r.pageSize > MAX_PAGE_SIZE then DEFAULT_PAGE_SIZE else r.pageSize;
    if !r.limitProvided then Resolved(page, pageSize, Wrap((page - 1) * pageSize))
    else
      var limit := if r.limit < 1 || r.limit > MAX_PAGE_SIZE then DEFAULT_PAGE_SIZE else r.limit;
      var offset := if r.offset < 0 then 0 else r.offset;
      Resolved(Wrap(offset / limit + 1), limit, offset)
  }

  function Total(response: seq<Field>): int {
    NumberField(response, "total")
  }

  datatype Envelope = Envelope(
    items: Value, page: int, pageSize: int, total: int, totalPages: int, hasNext: bool, hasPrevious: bool)

  function TotalPages(total: int, pageSize: int): int {
    if pageSize > 0 then Quotient(Wrap(Wrap(total + pageSize) - 1), pageSize) else 0
  }

  function Paginate(response: Option<seq<Field>>, page: int, pageSize: int): Envelope {
    var fields := if response == None then [] else response.value;
    var items := Lookup(fields, "items");
    var total := Total(fields);
    var totalPages := TotalPages(total, pageSize);
    Envelope(if items == None || items.value == Nil then List([]) else items.value,
             page, pageSize, total, totalPages, page < totalPages, page > 1)
  }

  // ----- arithmetic -----

  lemma {:induction false} Scaled(a: int, b: int, size: int)
    requires a <= b && size >= 0
    ensures a * size <= b * size
    decreases size
  {
    if size > 0 {
      Scaled(a, b, size - 1);
      assert a * size == a * (size - 1) + a && b * size == b * (size - 1) + b;
    }
  }

  lemma Succ(a: int, size: int)
    ensures (a + 1) * size == a * size + size
  {
  }

  /** A page has a successor when its end is short of the total. */
  lemma CeilingAbove(total: int, size: int, page: int)
    requires size > 0 && total >= 0
    ensures page < (total + size - 1) / size <==> page * size < total
  {
    var up := (total + size - 1) / size;
    var rest := (total + size - 1) % size;
    assert total + size - 1 == up * size + rest;
    Succ(up - 1, size);
    if page < up {
      Scaled(page, up - 1, size);
    } else {
      Scaled(up, page, size);
    }
  }

  predicate Countable(total: int) {
    0 <= total <= MAX_INT64 - MAX_PAGE_SIZE
  }

  lemma HasNextIs(response: Option<seq<Field>>, page: int, size: int)
    requires 1 <= size <= MAX_PAGE_SIZE
    requires var total := Paginate(response, page, size).total; Countable(total)
    ensures var e := Paginate(response, page, size); e.hasNext <==> page * size < e.total
  {
    var total := Paginate(response, page, size).total;
    WrapKeeps(total + size);
    WrapKeeps(total + size - 1);
    CeilingAbove(total, size, page);
  }

  /** The envelope hands on Core's items, an empty list if there are none, and the page asked for; it counts as
      many pages as it takes to hold the total. */
  lemma EnvelopeExactly(response: Option<seq<Field>>, page: int, size: int)
    requires 1 <= size <= MAX_PAGE_SIZE
    ensures var e := Paginate(response, page, size);
            && e.page == page && e.pageSize == size && (e.hasPrevious <==> page > 1)
            && (forall items :: items != Nil && response.Some? && Lookup(response.value, "items") == Some(items)
                                ==> e.items == items)
            && (response == None || Lookup(response.value, "items") in [None, Some(Nil)] ==> e.items == List([]))
            && (forall i :: response.Some? && Lookup(response.value, "total") == Some(Int(i)) ==> e.total == i)
            && (response == None ==> e.total == 0)
            && (Countable(e.total) ==> (e.totalPages - 1) * size < e.total <= e.totalPages * size
                                       && (e.hasNext <==> page < e.totalPages))
  {
    var e := Paginate(response, page, size);
    if response.Some? {
      NumberFieldExactly(response.value, "total");
    }
    if Countable(e.total) {
      WrapKeeps(e.total + size);
      WrapKeeps(e.total + size - 1);
      CeilingHolds(e.total, size);
    }
  }

  lemma CeilingHolds(total: int, size: int)
    requires size > 0 && total >= 0
    ensures var up := (total + size - 1) / size; (up - 1) * size < total <= up * size
  {
    var up := (total + size - 1) / size;
    assert total + size - 1 == up * size + (total + size - 1) % size;
    Succ(up - 1, size);
  }

  // ----- what a request resolves to -----

  /** The page an offset lies on. */
  lemma PageStart(offset: int, limit: int)
    requires offset >= 0 && limit > 0
    ensures var page := offset / limit + 1;
            && 1 <= page <= offset + 1 && (page - 1) * limit + limit == page * limit
            && page * limit - limit <= offset < page * limit
            && (offset % limit == 0 <==> page * limit == offset + limit)
            && (page > 1 <==> offset >= limit)
  {
    var before := offset / limit;
    assert offset == before * limit + offset % limit;
    Succ(before, limit);
    Scaled(1, limit, before);
    if before >= 1 {
      Scaled(1, before, limit);
    } else {
      assert before == 0;
    }
  }

  /** With page numbers the slice starts where that page starts, exactly as long as the product stays
      within 64 bits. */
  lemma PagesResolve(r: PageRequest)
    requires !r.limitProvided
    ensures var p := ResolvePage(r);
            && p.page == (if r.page < 1 then 1 else r.page) && IsInt64(p.offset)
            && p.pageSize == (if 1 <= r.pageSize <= 500 then r.pageSize else 20)
            && (p.offset == (p.page - 1) * p.pageSize <==> (p.page - 1) * p.pageSize <= MAX_INT64)
  {
    var p := ResolvePage(r);
    Scaled(0, p.page - 1, p.pageSize);
    WrapKeeps((p.page - 1) * p.pageSize);
  }

  /** With a limit and an offset, the offset lies on the page reported. */
  lemma OffsetsResolve(r: PageRequest)
    requires r.limitProvided && r.offset < MAX_INT64
    ensures var p := ResolvePage(r);
            && p.pageSize == (if 1 <= r.limit <= 500 then r.limit else 20)
            && p.page >= 1 && p.offset == (if r.offset < 0 then 0 else r.offset)
            && (p.page - 1) * p.pageSize <= p.offset < p.page * p.pageSize
  {
    var p := ResolvePage(r);
    PageStart(p.offset, p.pageSize);
    WrapKeeps(p.offset / p.pageSize + 1);
  }

  /** `has_next` is true whenever something lies beyond the slice, and only then, unless the total lies
      between the end of the page reported and the end of the slice; which takes an offset that is not
      a multiple of the limit. */
  lemma HasNextExactly(r: PageRequest, response: Option<seq<Field>>)
    requires r.limitProvided && r.offset < MAX_INT64
    requires var p := ResolvePage(r); Countable(Paginate(response, p.page, p.pageSize).total)
    ensures var p := ResolvePage(r);
            var e := Paginate(response, p.page, p.pageSize);
            && (p.offset + p.pageSize < e.total ==> e.hasNext)
            && (e.hasNext && p.offset + p.pageSize >= e.total
                <==> p.page * p.pageSize < e.total <= p.offset + p.pageSize)
            && (p.offset % p.pageSize == 0 ==> (e.hasNext <==> p.offset + p.pageSize < e.total))
            && (e.hasPrevious <==> p.offset >= p.pageSize)
  {
    var p := ResolvePage(r);
    PageStart(p.offset, p.pageSize);
    WrapKeeps(p.offset / p.pageSize + 1);
    HasNextIs(response, p.page, p.pageSize);
  }

  /** Such a total: five in, ten at a time, twelve in all. */
  lemma NothingBeyondYetHasNext()
    ensures var r := PageRequest(0, 0, 10, 5, true);
            var p := ResolvePage(r);
            p.offset + p.pageSize >= 12 && Paginate(Some([Field("total", Int(12))]), p.page, p.pageSize).hasNext
  {
    var fields := [Field("total", Int(12))];
    assert Total(fields) == 12;
  }

  // ----- walking the pages -----

  function Indices(start: int, end: int): seq<int> {
    if start < end then seq(end - start, i => start + i) else []
  }

  /** What Core puts on a page: the items from its offset, as many as fit. */
  function Slice(total: int, offset: int, size: int): seq<int> {
    Indices(offset, if offset + size < total then offset + size else total)
  }

  /** The indices seen by asking for a page, and for the next as long as there is said to be one. */
  function Walk(total: int, size: int, page: int): seq<int>
    requires Countable(total) && 1 <= size <= MAX_PAGE_SIZE && page >= 1
    decreases total - page
  {
    var p := ResolvePage(PageRequest(page, size, 0, 0, false));
    var fields := [Field("total", Int(total))];
    Slice(total, p.offset, p.pageSize)
    + if Paginate(Some(fields), p.page, p.pageSize).hasNext then
        HasNextIs(Some(fields), p.page, p.pageSize);
        assert Total(fields) == total;
        PageBelow(page, size);
        Walk(total, size, page + 1)
      else []
  }

  lemma PageBelow(page: int, size: int)
    requires page >= 1 && size >= 1
    ensures page <= page * size
  {
    Scaled(1, size, page);
  }

  lemma NextStart(page: int, size: int, start: int)
    requires start == (page - 1) * size
    ensures page * size == start + size && start + size == (page + 1 - 1) * size
  {
    Succ(page - 1, size);
  }

  /** The page asked for starts where it should, and there is a next one as long as it ends short of the total. */
  lemma WalkStep(total: int, size: int, page: int, start: int)
    requires Countable(total) && 1 <= size <= MAX_PAGE_SIZE && page >= 1 && start == (page - 1) * size && start <= total
    ensures Walk(total, size, page)
            == Slice(total, start, size) + if start + size < total then Walk(total, size, page + 1) else []
  {
    var fields := [Field("total", Int(total))];
    NextStart(page, size, start);
    PagesResolve(PageRequest(page, size, 0, 0, false));
    HasNextIs(Some(fields), page, size);
    assert Total(fields) == total;
  }

  lemma IndicesJoin(start: int, middle: int, end: int)
    requires start <= middle <= end
    ensures Indices(start, middle) + Indices(middle, end) == Indices(start, end)
  {
  }

  lemma WalkLast(total: int, size: int, page: int, start: int)
    requires Countable(total) && 1 <= size <= MAX_PAGE_SIZE && page >= 1 && start == (page - 1) * size && start <= total
    requires start + size >= total
    ensures Walk(total, size, page) == Indices(start, total)
  {
    WalkStep(total, size, page, start);
  }

  lemma WalkOn(total: int, size: int, page: int, start: int)
    requires Countable(total) && 1 <= size <= MAX_PAGE_SIZE && page >= 1 && start == (page - 1) * size && start <= total
    requires start + size < total && Walk(total, size, page + 1) == Indices(start + size, total)
    ensures Walk(total, size, page) == Indices(start, total)
  {
    WalkStep(total, size, page, start);
    IndicesJoin(start, start + size, total);
  }

  lemma {:induction false} WalkFrom(total: int, size: int, page: int, start: int)
    requires Countable(total) && 1 <= size <= MAX_PAGE_SIZE && page >= 1
    requires start == (page - 1) * size && start <= total
    ensures Walk(total, size, page) == Indices(start, total)
    decreases total - start
  {
    if start + size < total {
      NextStart(page, size, start);
      WalkFrom(total, size, page + 1, start + size);
      WalkOn(total, size, page, start);
    } else {
      WalkLast(total, size, page, start);
    }
  }

  /** Following `has_next` from the first page shows every index once, in order, and stops. */
  lemma WalkVisitsEachOnce(total: int, size: int)
    requires Countable(total) && 1 <= size <= MAX_PAGE_SIZE
    ensures Walk(total, size, 1) == seq(total, i => i)
  {
    WalkFrom(total, size, 1, 0);
  }
}

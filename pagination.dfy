/** Offset pagination of the hotel listing: which slice of the listing a
    (page, size) request returns, and the metadata that accompanies it. */
module Pagination {
  import opened Wrappers
  import opened Hotels

  /** One page of the listing together with its metadata. */
  datatype PaginatedResponse = PaginatedResponse(
    content: seq<Hotel>,
    last: bool,
    totalElements: int,
    totalPages: int,
    size: int,
    number: int,
    sort: Option<string>,
    numberOfElements: int,
    first: bool)

  /** The page index used when the request names none. */
  const DefaultPage := 0

  /** The page size used when the request names none. */
  const DefaultSize := 100

  function Min(a: int, b: int): int {
    if a <= b then a else b
  }

  /** The slice `s[start:end]` of a list for non-negative bounds: the bounds
      are cut down to the length, so the slice may be short or empty. */
  function Slice<T>(s: seq<T>, start: int, end: int): (r: seq<T>)
    requires 0 <= start <= end
    ensures start >= |s| ==> r == []
    ensures start < |s| ==> |r| == Min(end, |s|) - start
    ensures |r| <= end - start
    ensures forall i :: 0 <= i < |r| ==> r[i] == s[start + i]
  {
    if start >= |s| then [] else s[start..Min(end, |s|)]
  }

  /** The number of pages of `size` elements needed for `total` elements,
      written as the integer ceiling `(total + size - 1) // size`; 0 when the
      size is 0. For a positive size it is the least `n` with `n * size >= total`. */
  function TotalPages(total: int, size: int): (n: int)
    requires 0 <= total && 0 <= size
    ensures 0 <= n
    ensures size > 0 ==> n * size >= total && (n - 1) * size < total
    ensures size == 0 ==> n == 0
  {
    if size > 0 then
      var q := (total + size - 1) / size;
      var rem := (total + size - 1) % size;
      assert q * size + rem == total + size - 1;
      assert (q - 1) * size == q * size - size;
      q
    else 0
  }

  /** The page `page` (0-based) of `size` elements of the listing `hotels`;
      `sort` is echoed and has no effect on the order. */
  function Paginate(hotels: seq<Hotel>, page: int, size: int, sort: Option<string>): (r: PaginatedResponse)
    requires 0 <= page && 0 <= size
    ensures page * size >= |hotels| ==> r.content == []
    ensures page * size < |hotels| ==> |r.content| == Min(size, |hotels| - page * size)
    ensures forall i :: 0 <= i < |r.content| ==> r.content[i] == hotels[page * size + i]
    ensures r.numberOfElements == |r.content| <= size
    ensures r.last <==> page * size + size >= |hotels|
    ensures r.first <==> page == 0
    ensures r.totalPages == TotalPages(|hotels|, size)
    ensures r.totalElements == |hotels| && r.size == size && r.number == page && r.sort == sort
  {
    var total := |hotels|;
    var start := page * size;
    var end := start + size;
    var paginated := Slice(hotels, start, end);
    PaginatedResponse(
      content := paginated,
      last := end >= total,
      totalElements := total,
      totalPages := TotalPages(total, size),
      size := size,
      number := page,
      sort := sort,
      numberOfElements := |paginated|,
      first := page == 0)
  }

  lemma MulMonotone(a: int, b: int, size: int)
    requires a <= b && 0 <= size
    ensures a * size <= b * size
  {
    assert b * size - a * size == (b - a) * size;
  }

  /** A page beyond the end of the listing is empty and is flagged last. */
  lemma PageBeyondRange(hotels: seq<Hotel>, page: int, size: int, sort: Option<string>)
    requires 0 <= page && 0 <= size
    requires page * size >= |hotels|
    ensures var r := Paginate(hotels, page, size, sort);
            r.content == [] && r.numberOfElements == 0 && r.last
  {
  }

  /** For a positive size the page flagged last is the final page of the
      page count, or any page after it. */
  lemma LastIffFinalPage(hotels: seq<Hotel>, page: int, size: int, sort: Option<string>)
    requires 0 <= page && 0 < size
    ensures var r := Paginate(hotels, page, size, sort);
            r.last <==> page + 1 >= r.totalPages
  {
    var n := TotalPages(|hotels|, size);
    assert (page + 1) * size == page * size + size;
    if page + 1 >= n {
      MulMonotone(n, page + 1, size);
    } else {
      MulMonotone(page + 1, n - 1, size);
    }
  }

  /** For a positive size a page has content exactly when its index is below
      the page count. */
  lemma NonEmptyIffBelowTotalPages(hotels: seq<Hotel>, page: int, size: int, sort: Option<string>)
    requires 0 <= page && 0 < size
    ensures var r := Paginate(hotels, page, size, sort);
            r.numberOfElements > 0 <==> page < r.totalPages
  {
    var n := TotalPages(|hotels|, size);
    if page < n {
      MulMonotone(page, n - 1, size);
    } else {
      MulMonotone(n, page, size);
    }
  }

  /** The contents of pages 0 .. n-1, one after another. */
  function PagesBefore(hotels: seq<Hotel>, n: nat, size: nat): seq<Hotel>
  {
    if n == 0 then [] else PagesBefore(hotels, n - 1, size) + Paginate(hotels, n - 1, size, None).content
  }

  /** A prefix of the listing followed by the slice that starts where the
      prefix ends is the longer prefix. */
  lemma PrefixThenSlice(hotels: seq<Hotel>, start: int, size: int)
    requires 0 <= start && 0 <= size
    ensures hotels[..Min(start, |hotels|)] + Slice(hotels, start, start + size)
            == hotels[..Min(start + size, |hotels|)]
  {
    if start < |hotels| {
      assert hotels[..Min(start + size, |hotels|)]
          == hotels[..start] + hotels[start..Min(start + size, |hotels|)];
    }
  }

  /** The first n pages, read in order, are exactly the first n * size
      elements of the listing (or all of it): pages neither overlap nor skip. */
  lemma {:induction false} PagesBeforeIsPrefix(hotels: seq<Hotel>, n: nat, size: nat)
    ensures PagesBefore(hotels, n, size) == hotels[..Min(n * size, |hotels|)]
  {
    if n > 0 {
      PagesBeforeIsPrefix(hotels, n - 1, size);
      var start := (n - 1) * size;
      assert n * size == start + size;
      MulMonotone(0, n - 1, size);
      assert Paginate(hotels, n - 1, size, None).content == Slice(hotels, start, start + size);
      PrefixThenSlice(hotels, start, size);
    }
  }

  /** For a positive size, the pages 0 .. totalPages-1 together are the whole
      listing, in order. */
  lemma PagesCoverListing(hotels: seq<Hotel>, size: nat)
    requires 0 < size
    ensures PagesBefore(hotels, TotalPages(|hotels|, size), size) == hotels
  {
    var n := TotalPages(|hotels|, size);
    PagesBeforeIsPrefix(hotels, n, size);
  }

  /** 250 records in pages of 100: three pages; the first is full and not
      last, the third holds the remaining 50 and is last, the sixth is empty
      and last. */
  lemma TwoHundredFiftyRecords(hotels: seq<Hotel>, sort: Option<string>)
    requires |hotels| == 250
    ensures var r := Paginate(hotels, 0, 100, sort);
            r.numberOfElements == 100 && r.first && !r.last && r.totalPages == 3
    ensures var r := Paginate(hotels, 2, 100, sort);
            r.numberOfElements == 50 && !r.first && r.last && r.totalPages == 3
    ensures var r := Paginate(hotels, 5, 100, sort);
            r.numberOfElements == 0 && !r.first && r.last
  {
  }
}

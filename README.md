# Hotel store model

A Dafny model of the in-memory hotel service in `main.py`: a dictionary of
hotel records keyed by id, a counter that hands out the next id, five request
handlers (create, fetch by id, partial update, delete, paginated list), and
the offset-pagination arithmetic of the list handler. The web framework is
removed: a handler returns a `Result` whose failure is `NotFound(id)` (the
404 responses) or `InvalidBody` (the 422 that body validation produces).

Files:

- `wrappers.dfy` — `Option` and `Result`.
- `hotels.dfy` — module `Hotels`: the record shapes `Hotel`, `HotelCreate`,
  `HotelUpdate` (every field an `Option`, so "omitted" differs from
  "supplied"), the rating validation, and the partial-update `Merge`, stated
  against `UpdateData`, the dictionary of explicitly set fields.
- `pagination.dfy` — module `Pagination`: the `PaginatedResponse` shape and
  `Paginate`, the pure computation of one page and its metadata, with lemmas
  about the page count, the `last` flag and how the pages tile the listing.
- `store.dfy` — module `Store`: class `HotelStore` with the dictionary
  (`hotels`, a `map`), its key insertion order (`order`, a `seq`), the counter
  `nextId` and a ghost set `issued` of every id handed out. `Valid()` is the
  store invariant: every issued id is in `[1, nextId)`, every record sits
  under its own id and has a rating in `[1, 5]`, and `order` lists exactly
  the stored keys in ascending order. The five handlers are methods that keep
  `Valid()`. `ParisScenario` is a request sequence whose outcome is verified
  from the handlers' contracts alone: create a hotel (id 1), update its
  rating, fetch it, delete it, fetch it again and delete it again (both not
  found), create with rating 6 (rejected), and create again (id 2, so the
  deleted id is not reused).

Decisions:

- `main.py` does not clamp `page` or `size`, and neither does the model.
  Negative `page` or `size` are excluded by preconditions. A `size` of 0 is
  kept: the page is empty, `totalPages` is 0, and `last` holds only when the
  store is empty.
- Body validation happens before the handler runs, so an update with an
  out-of-range rating is rejected as `InvalidBody` before the id is looked up.
- A stored hotel's `id` is a plain `int`; in the source it is optional and
  only ever absent in request bodies, which the model represents by
  `HotelCreate` and `HotelUpdate` instead.
- Dictionary insertion order is the `order` sequence: create appends the new
  key, update keeps the key's place, delete removes it. Since ids are handed
  out in increasing order, the listing is in ascending id order.

## Model

| member | source | states |
|---|---|---|
| `Hotels.ValidRating` | main.py:18 | A rating is accepted exactly when it lies in [1, 5]. |
| `Hotels.ValidCreate` | main.py:24 | A create body is accepted exactly when its rating lies in [1, 5]. |
| `Hotels.ValidUpdate` | main.py:30 | An update body is accepted exactly when its rating is omitted or lies in [1, 5]. |
| `Hotels.UpdateData` | main.py:116 | A field is in the update dictionary exactly when the caller supplied it, and then it maps to the supplied value; the dictionary is empty exactly for the empty update. |
| `Hotels.Merge` | main.py:115-118 | The merged record keeps the id; each field equals the supplied value when the field is in the update dictionary and the stored value otherwise; a valid update of a valid record keeps the rating in [1, 5]. |
| `Hotels.MergeIsIdentity` | main.py:116-118 | An update leaves the record identical if and only if every value it supplies already equals the stored one. |
| `Hotels.EmptyMergeIsIdentity` | main.py:116-118 | The update that supplies no field leaves the record identical. |
| `Hotels.MergeIdempotent` | main.py:118 | Applying the same update a second time changes nothing more. |
| `Pagination.Slice` | main.py:61 | The slice with non-negative bounds holds the elements from `start` on, as many as fit before `end` and the end of the list, and is empty when `start` is past the end. |
| `Pagination.TotalPages` | main.py:67 | For a positive size the page count is the ceiling of total over size (`n*size >= total` and `(n-1)*size < total`); for size 0 it is 0. |
| `Pagination.Paginate` | main.py:58-72 | Content is the run of elements starting at `page*size`, of length `min(size, total - page*size)` or empty beyond the end; `numberOfElements` is its length, at most `size`; `last` iff `page*size + size >= total`; `first` iff `page == 0`; `totalElements`, `size`, `number` and `sort` are echoed. |
| `Pagination.PageBeyondRange` | main.py:59-65 | A page starting at or past the end is empty, has no elements and is flagged last. |
| `Pagination.LastIffFinalPage` | main.py:65-67 | For a positive size, `last` holds exactly when `page + 1 >= totalPages`. |
| `Pagination.NonEmptyIffBelowTotalPages` | main.py:61-71 | For a positive size, a page has elements exactly when `page < totalPages`. |
| `Pagination.PagesBeforeIsPrefix` | main.py:59-61 | Pages 0 to n-1 read one after another are the first `n*size` elements of the listing (or all of it): no overlap, no gap. |
| `Pagination.PagesCoverListing` | main.py:59-67 | For a positive size, pages 0 to `totalPages-1` together are exactly the listing. |
| `Pagination.TwoHundredFiftyRecords` | main.py:58-72 | With 250 records and size 100: page 0 has 100 records, is first and not last, of 3 pages; page 2 has 50 and is last; page 5 is empty and last. |
| `Store.Remove` | main.py:133 | Deleting a key from the key order keeps exactly the other keys, and leaves the order as it was when the key is absent. |
| `Store.RemoveKeepsIncreasing` | main.py:133 | Deleting a key keeps the remaining keys in ascending order. |
| `Store.ValuesOf` | main.py:56 | The values list has one record per key, the record stored under the key at the same position. |
| `Store.ListingAscending` | main.py:56 | With keys in ascending order and each record holding its key as id, the listed records are in ascending id order. |
| `Store.PageOfAscending` | main.py:61 | A page of a listing in ascending id order is in ascending id order and holds only records of the listing. |
| `Store.HotelStore.Valid` | main.py:44-45 | The store invariant: every key of the dictionary is an issued id below the counter, which starts at 1; each record is stored under its own id with a rating in [1, 5]; the key order lists exactly the stored keys, in ascending order. |
| `Store.HotelStore.Listing` | main.py:56 | The listing has one entry per stored record, holds exactly the stored records, and is in ascending id order. |
| `Store.HotelStore.constructor` | main.py:44-45 | A new store is empty, has issued no id, and will assign id 1 first. |
| `Store.HotelStore.Create` | main.py:79-92 | A valid body is stored under the old `nextId`, which had never been issued and was not a key; only that key changes; the key is appended to the order; the counter grows by exactly 1; the returned record is the stored one. An invalid rating is rejected and nothing changes. |
| `Store.HotelStore.GetById` | main.py:98-103 | Succeeds exactly when the id is stored, returning the stored record (with that id and a valid rating); otherwise reports `NotFound(id)`. |
| `Store.HotelStore.Update` | main.py:109-121 | An invalid body is rejected and an absent id reported `NotFound`, both without change; otherwise the record becomes `Merge(old record, update)`, keeps its id and its place in the order, and no other key changes. The counter never moves. |
| `Store.HotelStore.Delete` | main.py:127-134 | An absent id is reported `NotFound` without change; otherwise exactly that key is removed from the dictionary and the order. The counter and the issued ids are untouched, so the id is never reused. |
| `Store.HotelStore.GetAllDefaults` | main.py:50-54 | A list request without query parameters is page `DefaultPage` = 0 of `DefaultSize` = 100 records with no sort: it is first, echoes size 100, and its records are in ascending id order. |
| `Store.HotelStore.GetAll` | main.py:56-73 | The response is `Paginate` of the listing; its records are in ascending id order and are all stored records. |

## Left out

- HTTP routing, decorators, status codes and server start-up (main.py:1-10, 136-137): the handlers return `Result` values; 404 is `NotFound`, 422 is `InvalidBody`.
- The text of the 404 detail message ("Hotel with id … not found"): the error carries the id only.
- The validation library itself: replaced by the predicates `ValidRating`, `ValidCreate` and `ValidUpdate`, checked at the start of `Create` and `Update`. Malformed bodies other than an out-of-range rating (wrong types, missing required fields) cannot be expressed in the typed model.
- An explicit JSON `null` for an update field, which the source would write through as a set value: each update field is an `Option`, so a field is either omitted or carries a value.
- Negative `page` or `size`: Python's negative slice indices are not modelled; the list handler and `Paginate` require both to be non-negative.
- Concurrency: requests are treated as atomic and sequential; the unguarded global counter and its races are not modelled.
- `sort` is carried through as an `Option<string>` and has no effect on the order, as in the source.
- The database-backed variant of the service is not part of this model.

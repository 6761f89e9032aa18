/** The in-memory hotel store and the five request handlers that act on it. */
module Store {
  import opened Wrappers
  import opened Hotels
  import opened Pagination

  /** What a handler reports instead of a result: an id that is not stored
      (404), or a request body that fails validation (422). */
  datatype Error = NotFound(id: int) | InvalidBody

  /** Every element of the sequence is smaller than every later one. */
  ghost predicate StrictlyIncreasing(s: seq<int>) {
    forall i, j :: 0 <= i < j < |s| ==> s[i] < s[j]
  }

  /** The ids of a list of hotels are in strictly ascending order. */
  ghost predicate IdsAscending(hotels: seq<Hotel>) {
    forall i, j :: 0 <= i < j < |hotels| ==> hotels[i].id < hotels[j].id
  }

  /** The key order after deleting key `k`: it holds exactly the other keys.
      For a key order in ascending order, `RemoveKeepsIncreasing` shows the
      result stays in ascending order. */
  function Remove(keys: seq<int>, k: int): (r: seq<int>)
    ensures forall x :: x in r <==> x in keys && x != k
    ensures k !in keys ==> r == keys
  {
    if keys == [] then []
    else if keys[0] == k then Remove(keys[1..], k)
    else [keys[0]] + Remove(keys[1..], k)
  }

  /** Deleting a key keeps the remaining keys in ascending order. */
  lemma {:induction false} RemoveKeepsIncreasing(keys: seq<int>, k: int)
    requires StrictlyIncreasing(keys)
    ensures StrictlyIncreasing(Remove(keys, k))
  {
    if keys != [] {
      var tail := keys[1..];
      assert StrictlyIncreasing(tail) by {
        forall i, j | 0 <= i < j < |tail| ensures tail[i] < tail[j] {
          assert tail[i] == keys[i + 1] && tail[j] == keys[j + 1];
        }
      }
      RemoveKeepsIncreasing(tail, k);
      var rest := Remove(tail, k);
      if keys[0] != k {
        forall x | x in rest ensures keys[0] < x {
          var j :| 0 <= j < |tail| && tail[j] == x;
          assert keys[j + 1] == x;
        }
        var r := [keys[0]] + rest;
        forall i, j | 0 <= i < j < |r| ensures r[i] < r[j] {
          if i == 0 {
            assert r[j] == rest[j - 1] && r[j] in rest;
          } else {
            assert r[i] == rest[i - 1] && r[j] == rest[j - 1];
          }
        }
      }
    }
  }

  /** The stored hotels listed in key order: the values of the store. */
  function ValuesOf(hotels: map<int, Hotel>, keys: seq<int>): (r: seq<Hotel>)
    requires forall i :: 0 <= i < |keys| ==> keys[i] in hotels
    ensures |r| == |keys|
    ensures forall i :: 0 <= i < |keys| ==> r[i] == hotels[keys[i]]
  {
    if keys == [] then [] else [hotels[keys[0]]] + ValuesOf(hotels, keys[1..])
  }

  /** When keys are in ascending order and each record carries its own key as
      id, the listing is in ascending id order. */
  lemma ListingAscending(hotels: map<int, Hotel>, keys: seq<int>)
    requires forall i :: 0 <= i < |keys| ==> keys[i] in hotels
    requires forall k :: k in hotels ==> hotels[k].id == k
    requires StrictlyIncreasing(keys)
    ensures IdsAscending(ValuesOf(hotels, keys))
  {
    var r := ValuesOf(hotels, keys);
    forall i, j | 0 <= i < j < |r| ensures r[i].id < r[j].id {
      assert r[i] == hotels[keys[i]] && r[j] == hotels[keys[j]];
    }
  }

  /** The two maps agree on every key other than `k`. The handlers state it
      beside the map update it follows from, so that "only this key changes"
      can be read off their contracts directly. */
  ghost predicate UnchangedExcept(before: map<int, Hotel>, after: map<int, Hotel>, k: int) {
    forall x :: x != k ==>
      (x in after <==> x in before) && (x in after ==> after[x] == before[x])
  }

  /** The store of hotels: the dictionary of records keyed by id, the order
      in which its keys were inserted, and the next id to assign. */
  class HotelStore {
    var hotels: map<int, Hotel>
    var order: seq<int>
    var nextId: int
    /** Every id this store has ever handed out. `Valid()` makes it exactly
        `[1, nextId)`; it is kept for readability, so that "a new id was never
        issued before" and "delete does not give an id back" are stated in
        the handlers' contracts in those words. */
    ghost var issued: set<int>

    /** The store invariant: ids are issued from 1 upwards and each is below
        `nextId`; each record sits under its own id with a valid rating; the
        key order lists exactly the stored keys, in ascending order. */
    ghost predicate Valid()
      reads this
    {
      && 1 <= nextId
      && (forall i :: i in issued <==> 1 <= i < nextId)
      && (forall k :: k in hotels ==> k in issued && hotels[k].id == k && ValidRating(hotels[k].rating))
      && (forall i :: 0 <= i < |order| ==> order[i] in hotels)
      && (forall k :: k in hotels ==> k in order)
      && StrictlyIncreasing(order)
    }

    /** The stored records in insertion order. */
    function Listing(): (r: seq<Hotel>)
      reads this
      requires Valid()
      ensures |r| == |hotels|
      ensures forall h :: h in r <==> h in hotels.Values
      ensures IdsAscending(r)
    {
      var r := ValuesOf(hotels, order);
      ListingAscending(hotels, order);
      assert |order| == |hotels| by {
        DistinctKeysCount(order, hotels.Keys);
      }
      assert forall h :: h in hotels.Values ==> h in r by {
        forall h | h in hotels.Values ensures h in r {
          var k :| k in hotels && hotels[k] == h;
          var i :| 0 <= i < |order| && order[i] == k;
          assert r[i] == h;
        }
      }
      r
    }

    /** An empty store whose first id will be 1. */
    constructor ()
      ensures Valid()
      ensures hotels == map[] && order == [] && nextId == 1 && issued == {}
    {
      hotels := map[];
      order := [];
      nextId := 1;
      issued := {};
    }

    /** Create: a valid body is stored under the next id, which was never
        issued before, and the counter moves on by one. An invalid body is
        rejected and nothing changes. */
    method Create(c: HotelCreate) returns (r: Result<Hotel, Error>)
      requires Valid()
      modifies this
      ensures Valid()
      ensures !ValidCreate(c) ==>
        r == Failure(InvalidBody) &&
        hotels == old(hotels) && order == old(order) && nextId == old(nextId) && issued == old(issued)
      ensures ValidCreate(c) ==>
        && r == Success(Hotel(old(nextId), c.city, c.description, c.name, c.rating))
        && old(nextId) !in old(issued) && old(nextId) !in old(hotels)
        && hotels == old(hotels)[old(nextId) := r.value]
        && UnchangedExcept(old(hotels), hotels, old(nextId))
        && order == old(order) + [old(nextId)]
        && nextId == old(nextId) + 1
        && issued == old(issued) + {old(nextId)}
    {
      if !ValidCreate(c) {
        return Failure(InvalidBody);
      }
      var newHotel := Hotel(nextId, c.city, c.description, c.name, c.rating);
      hotels := hotels[nextId := newHotel];
      order := order + [nextId];
      issued := issued + {nextId};
      nextId := nextId + 1;
      r := Success(newHotel);
    }

    /** Fetch by id: the stored record, or not-found. */
    method GetById(id: int) returns (r: Result<Hotel, Error>)
      requires Valid()
      ensures r.Success? <==> id in hotels
      ensures r.Success? ==> r.value == hotels[id] && r.value.id == id && ValidRating(r.value.rating)
      ensures r.Failure? ==> r.error == NotFound(id)
    {
      if id !in hotels {
        return Failure(NotFound(id));
      }
      r := Success(hotels[id]);
    }

    /** Partial update: an invalid body is rejected, an absent id is reported
        not-found, and otherwise the supplied fields are merged into the record,
        which keeps its id and its place in the order. Only that key changes. */
    method Update(id: int, u: HotelUpdate) returns (r: Result<Hotel, Error>)
      requires Valid()
      modifies this
      ensures Valid()
      ensures order == old(order) && nextId == old(nextId) && issued == old(issued)
      ensures !ValidUpdate(u) ==> r == Failure(InvalidBody) && hotels == old(hotels)
      ensures ValidUpdate(u) && id !in old(hotels) ==> r == Failure(NotFound(id)) && hotels == old(hotels)
      ensures ValidUpdate(u) && id in old(hotels) ==>
        && r == Success(Merge(old(hotels)[id], u))
        && r.value.id == id
        && hotels == old(hotels)[id := r.value]
        && UnchangedExcept(old(hotels), hotels, id)
    {
      if !ValidUpdate(u) {
        return Failure(InvalidBody);
      }
      if id !in hotels {
        return Failure(NotFound(id));
      }
      var existing := hotels[id];
      var updated := Merge(existing, u);
      hotels := hotels[id := updated];
      r := Success(updated);
    }

    /** Delete: an absent id is reported not-found; otherwise the record and
        its key are removed. The counter and the issued ids are untouched, so
        the id is never handed out again. */
    method Delete(id: int) returns (r: Result<(), Error>)
      requires Valid()
      modifies this
      ensures Valid()
      ensures nextId == old(nextId) && issued == old(issued)
      ensures id !in old(hotels) ==>
        r == Failure(NotFound(id)) && hotels == old(hotels) && order == old(order)
      ensures id in old(hotels) ==>
        && r == Success(())
        && id !in hotels
        && hotels == old(hotels) - {id}
        && UnchangedExcept(old(hotels), hotels, id)
        && order == Remove(old(order), id)
    {
      if id !in hotels {
        return Failure(NotFound(id));
      }
      ghost var before := order;
      hotels := hotels - {id};
      order := Remove(order, id);
      RemoveKeepsIncreasing(before, id);
      forall i | 0 <= i < |order| ensures order[i] in hotels {
        assert order[i] in order;
      }
      r := Success(());
    }

    /** List: the requested page of the records in insertion order, which is
        ascending id order. */
    method GetAll(page: int, size: int, sort: Option<string>) returns (r: PaginatedResponse)
      requires Valid()
      requires 0 <= page && 0 <= size
      ensures r == Paginate(Listing(), page, size, sort)
      ensures r.totalElements == |hotels|
      ensures IdsAscending(r.content)
      ensures forall h :: h in r.content ==> h in hotels.Values
    {
      var all := Listing();
      r := Paginate(all, page, size, sort);
      PageOfAscending(all, page, size, sort);
    }

    /** List with no query parameters: page 0 of 100 records, no sort. */
    method GetAllDefaults() returns (r: PaginatedResponse)
      requires Valid()
      ensures r == Paginate(Listing(), DefaultPage, DefaultSize, None)
      ensures r.number == 0 && r.size == 100 && r.sort == None && r.first
      ensures IdsAscending(r.content)
    {
      r := GetAll(DefaultPage, DefaultSize, None);
    }
  }

  /** A page of a listing in ascending id order is itself in ascending id
      order, and holds only records of the listing. */
  lemma PageOfAscending(all: seq<Hotel>, page: int, size: int, sort: Option<string>)
    requires 0 <= page && 0 <= size
    requires IdsAscending(all)
    ensures IdsAscending(Paginate(all, page, size, sort).content)
    ensures forall h :: h in Paginate(all, page, size, sort).content ==> h in all
  {
    var content := Paginate(all, page, size, sort).content;
    var start := page * size;
    forall i, j | 0 <= i < j < |content| ensures content[i].id < content[j].id {
      assert content[i] == all[start + i] && content[j] == all[start + j];
    }
    forall h | h in content ensures h in all {
      var i :| 0 <= i < |content| && content[i] == h;
      assert all[start + i] == h;
    }
  }

  /** A strictly increasing sequence that holds exactly the elements of a
      set has the set's size. */
  lemma {:induction false} DistinctKeysCount(keys: seq<int>, s: set<int>)
    requires StrictlyIncreasing(keys)
    requires forall i :: 0 <= i < |keys| ==> keys[i] in s
    requires forall k :: k in s ==> k in keys
    ensures |keys| == |s|
  {
    if keys != [] {
      assert keys[0] in s;
      var rest := s - {keys[0]};
      assert |rest| == |s| - 1;
      forall k | k in rest ensures k in keys[1..] {
        var i :| 0 <= i < |keys| && keys[i] == k;
        assert i != 0;
        assert keys[1..][i - 1] == k;
      }
      forall i | 0 <= i < |keys[1..]| ensures keys[1..][i] in rest {
        assert keys[0] < keys[i + 1];
      }
      DistinctKeysCount(keys[1..], rest);
    } else {
      assert forall k :: k !in s;
      assert s == {};
    }
  }

  /** A request sequence checked against the handlers' contracts alone:
      create a hotel (it gets id 1), update its rating, fetch it, delete it,
      fetch it again (not found), delete it again (not found), create with a
      rating of 6 (rejected), and create again (it gets id 2, not the
      deleted id 1). */
  method ParisScenario()
  {
    var store := new HotelStore();
    var created := store.Create(HotelCreate("Paris", "Nice", "Hotel A", 4));
    assert created == Success(Hotel(1, "Paris", "Nice", "Hotel A", 4));

    var updated := store.Update(1, HotelUpdate(None, None, None, Some(5)));
    assert updated == Success(Hotel(1, "Paris", "Nice", "Hotel A", 5));

    var fetched := store.GetById(1);
    assert fetched == updated;

    var deleted := store.Delete(1);
    assert deleted == Success(());
    var gone := store.GetById(1);
    assert gone == Failure(NotFound(1));
    var again := store.Delete(1);
    assert again == Failure(NotFound(1));

    var rejected := store.Create(HotelCreate("Rome", "Old", "Hotel B", 6));
    assert rejected == Failure(InvalidBody);
    var second := store.Create(HotelCreate("Rome", "Old", "Hotel B", 5));
    assert second.Success? && second.value.id == 2;
  }
}

/** The request and record shapes of the hotel service, their validation,
    and the partial-update merge. */
module Hotels {
  import opened Wrappers

  /** A stored hotel record. The id is assigned by the store. */
  datatype Hotel = Hotel(id: int, city: string, description: string, name: string, rating: int)

  /** The body of a create request: every field is required. */
  datatype HotelCreate = HotelCreate(city: string, description: string, name: string, rating: int)

  /** The body of a partial update: `None` means the caller omitted the field.
      There is no `id` field, so an update can never change a record's id. */
  datatype HotelUpdate = HotelUpdate(
    city: Option<string>,
    description: Option<string>,
    name: Option<string>,
    rating: Option<int>)

  /** The update that supplies no field at all. */
  const EmptyUpdate := HotelUpdate(None, None, None, None)

  /** The mutable fields of a hotel, as they are named in an update body. */
  datatype Field = City | Description | Name | Rating

  /** The value held by one field. */
  datatype FieldValue = Text(text: string) | Number(number: int)

  /** A rating is accepted when it lies in [1, 5]. */
  predicate ValidRating(rating: int) {
    1 <= rating <= 5
  }

  /** Validation of a create body: its rating must be in range. */
  predicate ValidCreate(c: HotelCreate) {
    ValidRating(c.rating)
  }

  /** Validation of an update body: a rating, when supplied, must be in range. */
  predicate ValidUpdate(u: HotelUpdate) {
    u.rating.Some? ==> ValidRating(u.rating.value)
  }

  /** The value of field `f` in hotel `h`. */
  function Get(h: Hotel, f: Field): FieldValue {
    match f
    case City => Text(h.city)
    case Description => Text(h.description)
    case Name => Text(h.name)
    case Rating => Number(h.rating)
  }

  /** The fields the caller explicitly set, with their values: the dictionary
      an update body turns into when unset fields are excluded. */
  function UpdateData(u: HotelUpdate): (data: map<Field, FieldValue>)
    ensures City in data <==> u.city.Some?
    ensures Description in data <==> u.description.Some?
    ensures Name in data <==> u.name.Some?
    ensures Rating in data <==> u.rating.Some?
    ensures u.city.Some? ==> data[City] == Text(u.city.value)
    ensures u.description.Some? ==> data[Description] == Text(u.description.value)
    ensures u.name.Some? ==> data[Name] == Text(u.name.value)
    ensures u.rating.Some? ==> data[Rating] == Number(u.rating.value)
    ensures u == EmptyUpdate <==> data == map[]
  {
    var withCity := if u.city.Some? then map[City := Text(u.city.value)] else map[];
    var withDescription :=
      if u.description.Some? then withCity[Description := Text(u.description.value)] else withCity;
    var withName := if u.name.Some? then withDescription[Name := Text(u.name.value)] else withDescription;
    var data := if u.rating.Some? then withName[Rating := Number(u.rating.value)] else withName;
    assert u != EmptyUpdate ==> data != map[] by {
      if u.city.Some? { assert City in data; }
      else if u.description.Some? { assert Description in data; }
      else if u.name.Some? { assert Name in data; }
      else if u.rating.Some? { assert Rating in data; }
    }
    data
  }

  /** The partial update of a stored hotel: each field the caller supplied
      replaces the stored value, every other field and the id are kept.
      A valid update of a record with a valid rating yields a valid rating. */
  function Merge(h: Hotel, u: HotelUpdate): (r: Hotel)
    ensures r.id == h.id
    ensures forall f :: Get(r, f) == if f in UpdateData(u) then UpdateData(u)[f] else Get(h, f)
    ensures ValidRating(h.rating) && ValidUpdate(u) ==> ValidRating(r.rating)
  {
    Hotel(
      h.id,
      if u.city.Some? then u.city.value else h.city,
      if u.description.Some? then u.description.value else h.description,
      if u.name.Some? then u.name.value else h.name,
      if u.rating.Some? then u.rating.value else h.rating)
  }

  /** Two hotels with the same id and the same value in every field are equal. */
  lemma FieldsDetermineHotel(h1: Hotel, h2: Hotel)
    requires h1.id == h2.id
    requires forall f :: Get(h1, f) == Get(h2, f)
    ensures h1 == h2
  {
    assert Get(h1, City) == Get(h2, City);
    assert Get(h1, Description) == Get(h2, Description);
    assert Get(h1, Name) == Get(h2, Name);
    assert Get(h1, Rating) == Get(h2, Rating);
  }

  /** An update leaves a record identical exactly when every value it
      supplies already equals the stored one. */
  lemma MergeIsIdentity(h: Hotel, u: HotelUpdate)
    ensures Merge(h, u) == h <==>
            forall f :: f in UpdateData(u) ==> UpdateData(u)[f] == Get(h, f)
  {
    var r := Merge(h, u);
    var data := UpdateData(u);
    if forall f :: f in data ==> data[f] == Get(h, f) {
      forall f ensures Get(r, f) == Get(h, f) { }
      FieldsDetermineHotel(r, h);
    }
  }

  /** The empty update leaves a record identical. */
  lemma EmptyMergeIsIdentity(h: Hotel)
    ensures Merge(h, EmptyUpdate) == h
  {
    MergeIsIdentity(h, EmptyUpdate);
  }

  /** Applying the same update twice has the effect of applying it once. */
  lemma MergeIdempotent(h: Hotel, u: HotelUpdate)
    ensures Merge(Merge(h, u), u) == Merge(h, u)
  {
    var once := Merge(h, u);
    MergeIsIdentity(once, u);
  }
}

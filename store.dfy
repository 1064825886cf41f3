/** The shared in-memory booking array and the two handlers that change it:
    admission (`POST /bookings`) and deletion (`DELETE /bookings/:id`). */
module Store {
  import opened Bookings
  import opened Query

  /** The seven fields admission requires, in the order the handler checks them. */
  function RequiredFields(req: BookingRequest): (fields: seq<Value>)
  {
    [req.title, req.firstName, req.surname, req.email,
     req.roomId, req.checkInDate, req.checkOutDate]
  }

  /** All seven fields of the request body are truthy: none of them is one of
      JavaScript's falsy values. */
  function AllFieldsPresent(req: BookingRequest): (r: bool)
    ensures r <==> forall f :: f in RequiredFields(req) ==> Truthy(f)
    ensures r <==> forall f :: f in RequiredFields(req) ==> f !in {Undefined, Null, Bool(false), Number(0), Str("")}
  {
    && Truthy(req.title)
    && Truthy(req.firstName)
    && Truthy(req.surname)
    && Truthy(req.email)
    && Truthy(req.roomId)
    && Truthy(req.checkInDate)
    && Truthy(req.checkOutDate)
  }

  /** The seven fields of a stored booking, as the request that carried them. */
  function RequestOf(b: Booking): (req: BookingRequest)
  {
    BookingRequest(b.title, b.firstName, b.surname, b.email,
                   b.roomId, b.checkInDate, b.checkOutDate)
  }

  /** The request body with `id` set on it: it carries the id and gives back
      exactly the request. */
  function NewBooking(id: int, req: BookingRequest): (b: Booking)
    ensures b.id == id && RequestOf(b) == req
  {
    Booking(id, req.title, req.firstName, req.surname, req.email,
            req.roomId, req.checkInDate, req.checkOutDate)
  }

  /** `s.splice(i, 1)`: the element at `i` gone, the others shifted down by one. */
  function RemoveAt<T>(s: seq<T>, i: nat): (r: seq<T>)
    requires i < |s|
    ensures |r| == |s| - 1
    ensures forall k :: 0 <= k < i ==> r[k] == s[k]
    ensures forall k :: i <= k < |r| ==> r[k] == s[k + 1]
  {
    s[..i] + s[i + 1..]
  }

  /** Removing one element keeps the others in their relative order. */
  lemma {:induction false} RemoveAtKeepsOrder<T>(s: seq<T>, i: nat)
    requires i < |s|
    ensures Subseq(RemoveAt(s, i), s)
    decreases i
  {
    var r := RemoveAt(s, i);
    if i == 0 {
      assert r == s[1..];
      SubseqRefl(s[1..]);
    } else {
      RemoveAtKeepsOrder(s[1..], i - 1);
      assert r[1..] == RemoveAt(s[1..], i - 1);
    }
  }

  /** No two bookings share an id. */
  predicate UniqueIds(s: seq<Booking>)
  {
    forall i, j :: 0 <= i < j < |s| ==> s[i].id != s[j].id
  }

  /** Every id is at most the number of bookings, as when the store has only
      ever grown by admissions from ids 1, 2, ... */
  predicate IdsWithinLength(s: seq<Booking>)
  {
    forall k :: 0 <= k < |s| ==> s[k].id <= |s|
  }

  class BookingStore {
    /** `allBookings`: the one array that every handler reads and changes. */
    var bookings: seq<Booking>

    /** The store as loaded at start-up. */
    constructor (initial: seq<Booking>)
      ensures bookings == initial
    {
      bookings := initial;
    }

    /** `POST /bookings`: a request with all seven fields truthy gets the id
        `length + 1` and is appended; any other is refused with a 400 and the
        store is left as it was. */
    method Admit(req: BookingRequest) returns (r: Reply<()>)
      modifies this
      ensures r == Ok(()) || r == Err(AllFieldsRequired)
      ensures r.Ok? <==> AllFieldsPresent(req)
      ensures r.Ok? ==> bookings == old(bookings) + [NewBooking(|old(bookings)| + 1, req)]
      ensures r.Err? ==> bookings == old(bookings)
    {
      if AllFieldsPresent(req) {
        var booking := NewBooking(|bookings| + 1, req);
        bookings := bookings + [booking];
        r := Ok(());
      } else {
        r := Err(AllFieldsRequired);
      }
    }

    /** `DELETE /bookings/:id`: `find` the booking, take its `indexOf` and
        `splice` it out; with no such booking, a 404 failure that carries the id
        and the store is left as it was. */
    method Delete(id: int) returns (r: Reply<int>)
      modifies this
      ensures r == Ok(id) || r == Err(DeleteNotFound(id))
      ensures r.Err? <==> forall k :: 0 <= k < |old(bookings)| ==> old(bookings)[k].id != id
      ensures r.Err? ==> bookings == old(bookings)
      ensures forall i :: IsFirstWithId(old(bookings), i, id) ==> bookings == RemoveAt(old(bookings), i)
    {
      var found := Find(bookings, id);
      if found.None? {
        r := Err(DeleteNotFound(id));
        return;
      }
      ghost var j :| 0 <= j < |bookings| && bookings[j] == found.value;
      FirstWithIdExists(bookings, id, j);
      ghost var i :| IsFirstWithId(bookings, i, id);
      FindReturnsFirst(bookings, id, i);
      IndexOfFirstWithId(bookings, id, i);
      var index := IndexOf(bookings, found.value);
      bookings := bookings[..index.value] + bookings[index.value + 1..];
      r := Ok(id);
    }
  }

  /** Admissions alone keep ids unique: the new id exceeds every id already
      present. */
  lemma AdmissionKeepsIdsUnique(s: seq<Booking>, req: BookingRequest)
    requires UniqueIds(s) && IdsWithinLength(s)
    ensures UniqueIds(s + [NewBooking(|s| + 1, req)])
    ensures IdsWithinLength(s + [NewBooking(|s| + 1, req)])
  {
    var t := s + [NewBooking(|s| + 1, req)];
    forall i, j | 0 <= i < j < |t|
      ensures t[i].id != t[j].id
    {
      if j == |s| {
        assert t[i] == s[i];
      } else {
        assert t[i] == s[i] && t[j] == s[j];
      }
    }
  }

  /** The id `length + 1` is reused after a deletion: on a store with ids
      1..n, deleting any booking but the last and then admitting gives the new
      booking the id of the last one, which is still stored. */
  lemma {:induction false} DeleteThenAdmitReusesId(s: seq<Booking>, i: nat, req: BookingRequest)
    requires forall k :: 0 <= k < |s| ==> s[k].id == k + 1
    requires i + 1 < |s|
    ensures UniqueIds(s)
    ensures IsFirstWithId(s, i, i + 1)
    ensures var t := RemoveAt(s, i);
            t[|t| - 1].id == NewBooking(|t| + 1, req).id && !UniqueIds(t + [NewBooking(|t| + 1, req)])
  {
    var t := RemoveAt(s, i);
    var u := t + [NewBooking(|t| + 1, req)];
    assert t[|t| - 1] == s[|s| - 1];
    assert u[|t| - 1].id == u[|t|].id;
  }

  /** With unique ids, a deleted id is no longer found by a lookup. */
  lemma DeleteThenLookupFails(s: seq<Booking>, id: int, i: nat)
    requires UniqueIds(s)
    requires IsFirstWithId(s, i, id)
    ensures Lookup(RemoveAt(s, i), id) == Err(LookupNotFound(id))
  {
    var t := RemoveAt(s, i);
    forall k | 0 <= k < |t|
      ensures t[k].id != id
    {
      if k < i {
        assert t[k] == s[k];
      } else {
        assert t[k] == s[k + 1];
      }
    }
  }

  /** A sample request with every field filled in. */
  function SampleRequest(): (req: BookingRequest)
  {
    BookingRequest(Str("Ms"), Str("Ann"), Str("Lee"), Str("ann@x.com"),
                   Number(12), Str("2024-01-01"), Str("2024-01-05"))
  }

  /** Admit twice, delete id 1, admit again: the third booking gets id 2, the
      id of the booking still in the store. */
  method IdReuseScenario() returns (admittedId: int, survivorId: int)
    ensures admittedId == 2 && survivorId == 2
  {
    var store := new BookingStore([]);
    var first := store.Admit(SampleRequest());
    var second := store.Admit(SampleRequest());
    assert IsFirstWithId(store.bookings, 0, 1);
    var deleted := store.Delete(1);
    var third := store.Admit(SampleRequest());
    survivorId := store.bookings[0].id;
    admittedId := store.bookings[1].id;
  }

  /** On an empty store: the first admission gets id 1; deleting id 1 succeeds;
      looking up id 1 afterwards fails with a not-found failure. */
  method AdmitDeleteLookupScenario() returns (newId: int, deleted: Reply<int>, lookup: Reply<Booking>)
    ensures newId == 1 && deleted == Ok(1) && lookup == Err(LookupNotFound(1))
  {
    var store := new BookingStore([]);
    var admitted := store.Admit(SampleRequest());
    newId := store.bookings[0].id;
    assert IsFirstWithId(store.bookings, 0, 1);
    deleted := store.Delete(1);
    lookup := Lookup(store.bookings, 1);
  }
}

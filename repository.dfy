/** Reservation storage (backend/internal/repository): the in-memory store and the one decision
    of the MySQL store that is not driver plumbing. */
module Repository {
  import opened Wrappers
  import opened Errors
  import opened Model

  /** Every key of `m` is the ID of the record stored under it. */
  ghost predicate KeyedByID(m: map<string, Reservation>)
  {
    forall id :: id in m ==> m[id].ID == id
  }

  /** Each entry of `rs` is the record `m` stores under that entry's ID. */
  ghost predicate ListsStored(rs: seq<Reservation>, m: map<string, Reservation>)
  {
    forall i :: 0 <= i < |rs| ==> rs[i].ID in m && m[rs[i].ID] == rs[i]
  }

  /** The records of `rs` have pairwise distinct IDs. */
  ghost predicate DistinctIDs(rs: seq<Reservation>)
  {
    forall i, j :: 0 <= i < j < |rs| ==> rs[i].ID != rs[j].ID
  }

  /** `rs` lists the records of `m` in some order: one entry per stored ID, each entry the record
      stored under its ID. That every stored ID occurs follows (ListingCoversEveryID). */
  ghost predicate IsListingOf(rs: seq<Reservation>, m: map<string, Reservation>)
  {
    |rs| == |m| && ListsStored(rs, m) && DistinctIDs(rs)
  }

  /** The IDs occurring in `rs`. */
  ghost function IDsOf(rs: seq<Reservation>): set<string>
  {
    set i | 0 <= i < |rs| :: rs[i].ID
  }

  /** Records with distinct IDs have as many IDs as records. */
  lemma {:induction false} DistinctIDsCount(rs: seq<Reservation>)
    requires DistinctIDs(rs)
    ensures |IDsOf(rs)| == |rs|
  {
    if rs != [] {
      var n := |rs| - 1;
      assert DistinctIDs(rs[..n]);
      DistinctIDsCount(rs[..n]);
      assert IDsOf(rs) == IDsOf(rs[..n]) + {rs[n].ID};
      assert rs[n].ID !in IDsOf(rs[..n]);
    }
  }

  /** A subset as large as its superset is the whole superset. */
  lemma SubsetOfSameSize(a: set<string>, b: set<string>)
    requires a <= b && |a| == |b|
    ensures a == b
  {
    assert |b - a| == |b| - |a|;
  }

  /** Every stored ID occurs in a listing: its IDs are exactly the store's keys. */
  lemma ListingCoversEveryID(rs: seq<Reservation>, m: map<string, Reservation>)
    requires IsListingOf(rs, m)
    ensures IDsOf(rs) == m.Keys
  {
    DistinctIDsCount(rs);
    assert IDsOf(rs) <= m.Keys;
    SubsetOfSameSize(IDsOf(rs), m.Keys);
  }

  /** Appending a record whose ID is not yet stored lists the map with that record added. */
  lemma ListingExtend(rs: seq<Reservation>, m: map<string, Reservation>, r: Reservation)
    requires IsListingOf(rs, m) && r.ID !in m
    ensures IsListingOf(rs + [r], m[r.ID := r])
  {
  }

  /** Dropping the entry at `j` lists the map without that entry's ID. */
  lemma ListingWithout(rs: seq<Reservation>, m: map<string, Reservation>, j: nat)
    requires IsListingOf(rs, m) && j < |rs|
    ensures IsListingOf(rs[..j] + rs[j + 1..], m - {rs[j].ID})
  {
  }

  /** Removing the element at `j` removes one occurrence of it from the multiset. */
  lemma MultisetWithout(s: seq<Reservation>, j: nat)
    requires j < |s|
    ensures multiset(s) == multiset(s[..j] + s[j + 1..]) + multiset{s[j]}
  {
    assert s == s[..j] + [s[j]] + s[j + 1..];
  }

  /** The order of a listing is not fixed, but its contents are: two listings of the same map are
      permutations of each other. */
  lemma {:induction false} ListingsArePermutations(xs: seq<Reservation>, ys: seq<Reservation>, m: map<string, Reservation>)
    requires IsListingOf(xs, m) && IsListingOf(ys, m)
    ensures multiset(xs) == multiset(ys)
    decreases |xs|
  {
    if xs != [] {
      var k := xs[0].ID;
      ListingCoversEveryID(ys, m);
      assert k in IDsOf(ys);
      var j :| 0 <= j < |ys| && ys[j].ID == k;
      assert ys[j] == xs[0];
      ListingWithout(xs, m, 0);
      ListingWithout(ys, m, j);
      ListingsArePermutations(xs[..0] + xs[1..], ys[..j] + ys[j + 1..], m - {k});
      MultisetWithout(xs, 0);
      MultisetWithout(ys, j);
    }
  }

  /** A listing holds exactly the stored records. */
  lemma ListingHoldsStoredValues(rs: seq<Reservation>, m: map<string, Reservation>)
    requires IsListingOf(rs, m)
    ensures forall r :: r in rs <==> r in m.Values
  {
    ListingCoversEveryID(rs, m);
    forall r | r in m.Values ensures r in rs {
      var id :| id in m && m[id] == r;
      assert id in IDsOf(rs);
      var i :| 0 <= i < |rs| && rs[i].ID == id;
      assert rs[i] == r;
    }
  }

  /** Listing an empty store gives the empty list. */
  lemma ListingOfEmpty(rs: seq<Reservation>)
    requires IsListingOf(rs, map[])
    ensures rs == []
  {
  }

  /** Listing a store with one entry gives exactly that record. */
  lemma ListingOfSingleton(rs: seq<Reservation>, id: string, r: Reservation)
    requires IsListingOf(rs, map[id := r])
    ensures rs == [r]
  {
  }

  /** The store's map after Create has been called on each of `created`, in order, from `m`. */
  ghost function AfterCreates(m: map<string, Reservation>, created: seq<Reservation>): map<string, Reservation>
  {
    if created == [] then m
    else
      var last := created[|created| - 1];
      AfterCreates(m, created[..|created| - 1])[last.ID := last]
  }

  /** Creating N records with distinct IDs in an empty store and then listing gives back exactly
      those N records: the created sequence is itself a listing of the store. */
  lemma {:induction false} CreatedRecordsAreListed(created: seq<Reservation>)
    requires DistinctIDs(created)
    ensures IsListingOf(created, AfterCreates(map[], created))
  {
    if created != [] {
      var n := |created| - 1;
      var init, last := created[..n], created[n];
      CreatedRecordsAreListed(init);
      var m := AfterCreates(map[], init);
      ListingCoversEveryID(init, m);
      assert last.ID !in IDsOf(init) by {
        forall i | 0 <= i < |init| ensures init[i].ID != last.ID {
          assert init[i] == created[i];
        }
      }
      ListingExtend(init, m, last);
      assert init + [last] == created;
    }
  }

  /** Putting back one removed key of `m` shrinks the set of removed keys by that key. */
  lemma RestoreKey(m: map<string, Reservation>, removed: set<string>, id: string)
    requires id in removed && id in m
    ensures (m - removed)[id := m[id]] == m - (removed - {id})
  {
  }

  /** InMemoryReservationRepository: a table from reservation ID to record. The read/write mutex
      that guards it is not modelled; operations are sequential. */
  class InMemoryReservationRepository {
    var reservations: map<string, Reservation>

    /** Every record is stored under its own ID, since Create keys by `reservation.ID`. */
    ghost predicate Valid()
      reads this
    {
      KeyedByID(reservations)
    }

    /** NewInMemoryReservationRepository: an empty table. */
    constructor ()
      ensures Valid() && reservations == map[]
    {
      reservations := map[];
    }

    /** Stores `reservation` under its ID, replacing any record already there; never fails. */
    method Create(reservation: Reservation) returns (err: Outcome<Error>)
      requires Valid()
      modifies this
      ensures Valid() && err == Pass
      ensures reservations == old(reservations)[reservation.ID := reservation]
      ensures FindByID(reservation.ID) == Success(Some(reservation))
      ensures forall id :: id != reservation.ID ==> FindByID(id) == old(FindByID(id))
      ensures |reservations| == if reservation.ID in old(reservations) then |old(reservations)| else |old(reservations)| + 1
    {
      reservations := reservations[reservation.ID := reservation];
      err := Pass;
      assert reservations.Keys == old(reservations).Keys + {reservation.ID};
    }

    /** Snapshots every stored record into a fresh list, in the map's (unspecified) iteration order. */
    method FindAll() returns (r: Result<seq<Reservation>, Error>)
      requires Valid()
      ensures r.Success?
      ensures IsListingOf(r.value, reservations)
    {
      var listed: seq<Reservation> := [];
      var remaining := reservations.Keys;
      assert reservations - remaining == map[];
      while remaining != {}
        invariant remaining <= reservations.Keys
        invariant IsListingOf(listed, reservations - remaining)
        decreases remaining
      {
        var id :| id in remaining;
        var reservation := reservations[id];
        ListingExtend(listed, reservations - remaining, reservation);
        RestoreKey(reservations, remaining, id);
        listed := listed + [reservation];
        remaining := remaining - {id};
      }
      assert reservations - remaining == reservations;
      r := Success(listed);
    }

    /** The record stored under `id`, or an explicit absence; never fails. */
    function FindByID(id: string): (r: Result<Option<Reservation>, Error>)
      reads this
      requires Valid()
      ensures r.Success?
      ensures r.value.Some? <==> id in reservations
      ensures r.value.Some? ==> r.value.value.ID == id && r.value.value == reservations[id]
    {
      if id in reservations then Success(Some(reservations[id])) else Success(None)
    }

    /** Removes the record stored under `id`; removing an absent ID is a successful no-op. */
    method Delete(id: string) returns (err: Outcome<Error>)
      requires Valid()
      modifies this
      ensures Valid() && err == Pass
      ensures reservations == old(reservations) - {id}
      ensures FindByID(id) == Success(None)
      ensures forall other :: other != id ==> FindByID(other) == old(FindByID(other))
      ensures id !in old(reservations) ==> reservations == old(reservations)
      ensures |reservations| == if id in old(reservations) then |old(reservations)| - 1 else |old(reservations)|
    {
      reservations := reservations - {id};
      err := Pass;
      assert reservations.Keys == old(reservations).Keys - {id};
    }
  }

  /** `sql.ErrNoRows`, the driver's "no rows in result set" sentinel. */
  const ErrNoRows: Error := NoRows

  /** MySQLReservationRepository.FindByID after the query: `scanned` is what `QueryRow(...).Scan(...)`
      produced. Exactly the no-rows sentinel becomes absence; every other error, even one that wraps
      the sentinel, is a failure wrapped under "failed to find reservation". */
  function FindByIDFromScan(scanned: Result<Reservation, Error>): (r: Result<Option<Reservation>, Error>)
    ensures r == Success(None) <==> scanned == Failure(ErrNoRows)
    ensures r.Failure? <==> scanned.Failure? && scanned.error != ErrNoRows
    ensures r.Failure? ==> r.error.Is(scanned.error) && r.error.Message() == "failed to find reservation: " + scanned.error.Message()
    ensures scanned.Success? ==> r == Success(Some(scanned.value))
  {
    if scanned == Failure(ErrNoRows) then Success(None)
    else if scanned.Failure? then Failure(Errorf("failed to find reservation", scanned.error))
    else Success(Some(scanned.value))
  }

  /** The translation is narrow: a driver error that merely wraps the no-rows sentinel is a failure,
      not an absence. */
  lemma WrappedNoRowsIsFailure(context: string)
    ensures FindByIDFromScan(Failure(Errorf(context, ErrNoRows))).Failure?
  {
  }

  /** The test is by identity, not by text: another error that reads exactly like the sentinel is
      a failure too. */
  lemma SameTextIsNotNoRows()
    ensures Failed(ErrNoRows.Message()) != ErrNoRows
    ensures FindByIDFromScan(Failure(Failed(ErrNoRows.Message()))).Failure?
  {
  }
}

/** The ride endpoints: listing scoped to the current rider, creation with the
    single-pending-ride policy, and the cancel action. */
module RiderViews {
  import opened Common
  import opened Rides
  import opened Store
  import opened RiderSerializers

  /** `get_queryset`: the rides whose rider is the current user. The
      newest-first ordering of the listing is not modelled. */
  function RidesOf(rides: map<RideId, Ride>, user: UserId): (r: map<RideId, Ride>)
    ensures forall id :: id in r <==> id in rides && rides[id].rider == user
    ensures forall id :: id in r ==> r[id] == rides[id]
  {
    map id | id in rides && rides[id].rider == user :: rides[id]
  }

  /** The ids of the rides of `rider` that have status `status`. */
  function RidesWithStatus(rides: map<RideId, Ride>, rider: UserId, status: Status): set<RideId> {
    set id | id in rides && rides[id].rider == rider && rides[id].status == status
  }

  /** The ids of all rides, of any rider, that have status `status`. */
  function AllWithStatus(rides: map<RideId, Ride>, status: Status): set<RideId> {
    set id | id in rides && rides[id].status == status
  }

  /** The rides table after cancelling the rides in `ids`. */
  function CancelAll(rides: map<RideId, Ride>, ids: set<RideId>): map<RideId, Ride> {
    map id | id in rides :: if id in ids then Cancel(rides[id]) else rides[id]
  }

  /** The first half of `perform_create`: every PENDING ride of `rider` is
      CANCELLED; the other riders' rides and this rider's other rides are
      left as they were. */
  function CancelPending(rides: map<RideId, Ride>, rider: UserId): (r: map<RideId, Ride>)
    ensures r.Keys == rides.Keys
    ensures forall id :: id in rides && rides[id].rider == rider && rides[id].status == Pending ==>
              r[id].status == Cancelled && r[id].(status := Pending) == rides[id]
    ensures forall id :: id in rides && (rides[id].rider != rider || rides[id].status != Pending) ==>
              r[id] == rides[id]
    ensures RidesWithStatus(r, rider, Pending) == {}
  {
    CancelAll(rides, RidesWithStatus(rides, rider, Pending))
  }

  /** The rides table after `perform_create` for `rider`: the pending rides are
      cancelled first, then the serializer inserts the new ride under `newId`.
      There is no transaction, so a validation error in the serializer leaves
      the cancellations in place. */
  function AfterCreate(rides: map<RideId, Ride>, newId: RideId, rider: UserId, input: RideInput,
                       parse: string -> Option<real>): map<RideId, Ride>
  {
    var cancelled := CancelPending(rides, rider);
    match BuildRide(rider, input, parse)
    case Success(ride) => cancelled[newId := ride]
    case Failure(_) => cancelled
  }

  /** `perform_create`: the rider's PENDING rides (queried once, up front) are
      cancelled one by one, then the serializer saves the new ride with the
      current user as its rider. */
  method PerformCreate(db: Db, user: UserId, input: RideInput, parse: string -> Option<real>)
    returns (res: Result<RideId>)
    requires db.Valid()
    modifies db
    ensures db.Valid()
    ensures db.rides == AfterCreate(old(db.rides), old(db.nextRideId), user, input, parse)
    ensures db.drivers == old(db.drivers)
    ensures db.nextDriverId == old(db.nextDriverId)
    ensures match BuildRide(user, input, parse)
            case Success(_) =>
              && res == Success(old(db.nextRideId)) && old(db.nextRideId) !in old(db.rides)
              && db.nextRideId == old(db.nextRideId) + 1
            case Failure(e) => res == Failure(e) && db.nextRideId == old(db.nextRideId)
  {
    var pending := RidesWithStatus(db.rides, user, Pending);
    ghost var rides0 := db.rides;
    ghost var done: set<RideId> := {};
    var todo := pending;
    while todo != {}
      invariant todo <= pending && done == pending - todo
      invariant db.Valid()
      invariant db.rides == CancelAll(rides0, done)
      invariant db.drivers == old(db.drivers)
      invariant db.nextRideId == old(db.nextRideId) && db.nextDriverId == old(db.nextDriverId)
      decreases todo
    {
      var id :| id in todo;
      CancelOneMore(rides0, done, id);
      db.CancelRide(id);
      todo := todo - {id};
      done := done + {id};
    }
    res := Create(db, user, input, parse);
  }

  /** One step of the cancelling loop. */
  lemma CancelOneMore(rides: map<RideId, Ride>, done: set<RideId>, id: RideId)
    requires id in rides && id !in done
    ensures var cur := CancelAll(rides, done);
            cur[id := Cancel(cur[id])] == CancelAll(rides, done + {id})
  {
    var cur := CancelAll(rides, done);
    var next := CancelAll(rides, done + {id});
    assert cur[id := Cancel(cur[id])].Keys == next.Keys;
  }

  /** After a successful creation the rider has exactly one PENDING ride, the
      new one, and the ride count has grown by exactly one. */
  lemma {:induction false} CreateLeavesOnePending(rides: map<RideId, Ride>, newId: RideId, rider: UserId,
                                                  input: RideInput, parse: string -> Option<real>)
    requires newId !in rides
    requires BuildRide(rider, input, parse).Success?
    ensures RidesWithStatus(AfterCreate(rides, newId, rider, input, parse), rider, Pending) == {newId}
    ensures |AfterCreate(rides, newId, rider, input, parse)| == |rides| + 1
    ensures AfterCreate(rides, newId, rider, input, parse)[newId].rider == rider
  {
    var cancelled := CancelPending(rides, rider);
    var after := AfterCreate(rides, newId, rider, input, parse);
    assert after == cancelled[newId := BuildRide(rider, input, parse).value];
    assert after.Keys == rides.Keys + {newId};
    assert RidesWithStatus(after, rider, Pending) == RidesWithStatus(cancelled, rider, Pending) + {newId};
  }

  /** A failed creation inserts nothing, yet the rider's PENDING rides are
      already CANCELLED. */
  lemma FailedCreateStillCancels(rides: map<RideId, Ride>, newId: RideId, rider: UserId,
                                 input: RideInput, parse: string -> Option<real>)
    requires BuildRide(rider, input, parse).Failure?
    ensures AfterCreate(rides, newId, rider, input, parse).Keys == rides.Keys
    ensures RidesWithStatus(AfterCreate(rides, newId, rider, input, parse), rider, Pending) == {}
  {
  }

  /** In a table holding only `rider`'s rides, a successful creation moves every
      PENDING ride to CANCELLED and leaves the new ride as the only PENDING one. */
  lemma {:induction false} CreateCounts(rides: map<RideId, Ride>, newId: RideId, rider: UserId,
                                        input: RideInput, parse: string -> Option<real>)
    requires newId !in rides
    requires forall id :: id in rides ==> rides[id].rider == rider
    requires BuildRide(rider, input, parse).Success?
    ensures var after := AfterCreate(rides, newId, rider, input, parse);
            && after.Keys == rides.Keys + {newId}
            && (forall id :: id in after ==> after[id].rider == rider)
            && AllWithStatus(after, Pending) == {newId}
            && AllWithStatus(after, Cancelled) == AllWithStatus(rides, Cancelled) + AllWithStatus(rides, Pending)
  {
    var after := AfterCreate(rides, newId, rider, input, parse);
    var ride := BuildRide(rider, input, parse).value;
    var cancelled := CancelPending(rides, rider);
    assert after == cancelled[newId := ride];
    assert ride.rider == rider && ride.status == Pending;
    forall id | id in rides
      ensures cancelled[id].rider == rider
      ensures cancelled[id].status == Cancelled <==> rides[id].status in {Cancelled, Pending}
      ensures cancelled[id].status != Pending
    {
    }
    assert AllWithStatus(after, Pending) == {newId};
    assert AllWithStatus(after, Cancelled) == AllWithStatus(rides, Cancelled) + AllWithStatus(rides, Pending);
  }

  /** The auto-cancel scenario: one PENDING ride exists and the same rider
      creates three more; the table then holds four rides, three CANCELLED and
      one PENDING, the last one created. */
  lemma ThreeCreations(r0: Ride, rider: UserId, i1: RideInput, i2: RideInput, i3: RideInput,
                       parse: string -> Option<real>)
    requires r0.rider == rider && r0.status == Pending
    requires BuildRide(rider, i1, parse).Success?
    requires BuildRide(rider, i2, parse).Success?
    requires BuildRide(rider, i3, parse).Success?
    ensures var rides1 := AfterCreate(map[0 := r0], 1, rider, i1, parse);
            var rides2 := AfterCreate(rides1, 2, rider, i2, parse);
            var rides3 := AfterCreate(rides2, 3, rider, i3, parse);
            && |rides3| == 4
            && |AllWithStatus(rides3, Cancelled)| == 3
            && AllWithStatus(rides3, Pending) == {3}
  {
    var rides0 := map[0 := r0];
    assert AllWithStatus(rides0, Pending) == {0};
    assert AllWithStatus(rides0, Cancelled) == {};
    var rides1 := AfterCreate(rides0, 1, rider, i1, parse);
    CreateCounts(rides0, 1, rider, i1, parse);
    assert rides1.Keys == {0, 1};
    assert AllWithStatus(rides1, Cancelled) == {0};
    var rides2 := AfterCreate(rides1, 2, rider, i2, parse);
    CreateCounts(rides1, 2, rider, i2, parse);
    assert rides2.Keys == {0, 1, 2};
    assert AllWithStatus(rides2, Cancelled) == {0, 1};
    var rides3 := AfterCreate(rides2, 3, rider, i3, parse);
    CreateCounts(rides2, 3, rider, i3, parse);
    assert rides3.Keys == {0, 1, 2, 3};
    assert AllWithStatus(rides3, Cancelled) == {0, 1, 2};
  }

  /** The HTTP status of the cancel action and the rides table it leaves. */
  datatype CancelResponse = CancelResponse(code: nat, rides: map<RideId, Ride>)

  /** The cancel action on ride `pk` as seen by `user`: 404 when the ride is
      not among the user's rides, 400 and no change when it cannot be
      cancelled, otherwise 200 with the ride CANCELLED. */
  function CancelActionResult(rides: map<RideId, Ride>, user: UserId, pk: RideId): (r: CancelResponse)
    ensures r.code in {200, 400, 404}
    ensures r.code == 404 <==> pk !in RidesOf(rides, user)
    ensures r.code == 400 <==> pk in RidesOf(rides, user) && rides[pk].status != Pending
    ensures r.code == 200 <==> pk in RidesOf(rides, user) && rides[pk].status == Pending
    ensures r.code == 200 ==> r.rides == rides[pk := Cancel(rides[pk])]
    ensures r.code != 200 ==> r.rides == rides
  {
    if pk !in RidesOf(rides, user) then CancelResponse(404, rides)
    else if !CanCancel(rides[pk]) then CancelResponse(400, rides)
    else CancelResponse(200, rides[pk := Cancel(rides[pk])])
  }

  /** The cancel scenario: cancelling one's own PENDING ride answers 200 and
      leaves it CANCELLED; cancelling it again answers 400 and changes nothing. */
  lemma CancelTwice(rides: map<RideId, Ride>, user: UserId, pk: RideId)
    requires pk in rides && rides[pk].rider == user && rides[pk].status == Pending
    ensures var first := CancelActionResult(rides, user, pk);
            var second := CancelActionResult(first.rides, user, pk);
            && first.code == 200 && first.rides[pk].status == Cancelled
            && second.code == 400 && second.rides == first.rides
  {
  }

  /** The cancel action endpoint. */
  method CancelAction(db: Db, user: UserId, pk: RideId) returns (code: nat)
    requires db.Valid()
    modifies db
    ensures db.Valid()
    ensures code == CancelActionResult(old(db.rides), user, pk).code
    ensures db.rides == CancelActionResult(old(db.rides), user, pk).rides
    ensures db.drivers == old(db.drivers)
    ensures db.nextRideId == old(db.nextRideId) && db.nextDriverId == old(db.nextDriverId)
  {
    if pk !in db.rides || db.rides[pk].rider != user {
      return 404;
    }
    if !CanCancel(db.rides[pk]) {
      return 400;
    }
    db.CancelRide(pk);
    return 200;
  }
}

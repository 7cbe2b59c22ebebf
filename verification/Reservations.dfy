/** Reservations and their seats: what each operation does to the tables, and the repository that does it in place. */
module Reservations {
  import opened Common
  import opened PlayDay

  // A reservation stays live and listed this long past its start.
  const LISTING_GRACE := HOUR

  datatype MatchType = RankMatch | PlayerMatch | AnyMatch

  datatype Status = Open | Matched | Cancelled | Ended
  {
    predicate Live() { this == Open || this == Matched }
  }

  // A row from before accounts has no host, and no one equals none.
  datatype Row = Row(startAt: int, host: Option<string>, matchType: MatchType, ranks: seq<string>, capacity: int,
      status: Status)

  datatype Seat = Seat(reservation: int, subject: string, active: bool)

  datatype Db = Db(rows: map<int, Row>, seats: map<int, Seat>, nextRow: int, nextSeat: int)
  {
    function Active(id: int): set<int> {
      set k | k in seats && seats[k].reservation == id && seats[k].active
    }

    predicate Participates(id: int, subject: string) {
      exists k | k in seats :: seats[k].reservation == id && seats[k].active && seats[k].subject == subject
    }

    predicate Finished(id: int, now: int) {
      id in rows && rows[id].status.Live() && rows[id].startAt <= now - LISTING_GRACE
    }

    function SetStatus(id: int, status: Status): Db
      requires id in rows
    {
      this.(rows := rows[id := rows[id].(status := status)])
    }

    /** The seats given up, and those only. */
    function Release(released: set<int>): Db {
      this.(seats := map k | k in seats :: if k in released then seats[k].(active := false) else seats[k])
    }

    function End(now: int): Db {
      this.(rows := map id | id in rows :: if Finished(id, now) then rows[id].(status := Ended) else rows[id])
    }
  }

  datatype Refusal = NotFound | WrongState | NoAccess

  datatype Answer = Accepted | Refused(why: Refusal)

  /** What an edit sends: only what changes. */
  datatype Edit = Edit(startTime: Option<int>, ranks: Option<seq<string>>, matchType: Option<MatchType>,
      capacity: Option<int>)

  // -- Rules ----------------------------------------------------------------------------------------

  /** A rank match needs ranks and a single seat, a player match takes no ranks, and the third kind has no rule. */
  predicate ConditionsValid(matchType: MatchType, ranks: seq<string>, capacity: int) {
    match matchType
    case RankMatch => ranks != [] && capacity == 1
    case PlayerMatch => ranks == []
    case AnyMatch => true
  }

  // The request itself allows one to three seats.
  predicate CapacityValid(capacity: int) { 1 <= capacity <= 3 }

  function StatusFor(count: int, capacity: int): Status { if count >= capacity then Matched else Open }

  function Or<T>(sent: Option<T>, current: T): T { if sent.Some? then sent.value else current }

  function Edited(row: Row, edit: Edit, startAt: int): Row {
    row.(startAt := startAt, ranks := Or(edit.ranks, row.ranks), matchType := Or(edit.matchType, row.matchType),
         capacity := Or(edit.capacity, row.capacity))
  }

  // -- Operations on the tables --------------------------------------------------------------------------

  function Created(db: Db, host: string, startTime: int, matchType: MatchType, ranks: seq<string>, capacity: int,
                   now: int): (Db, Answer) {
    var startAt := StartAtFrom(startTime, now);
    if !ConditionsValid(matchType, ranks, capacity) || startAt.Err? then (db, Refused(WrongState))
    else (db.(rows := db.rows[db.nextRow := Row(startAt.value, Some(host), matchType, ranks, capacity, Open)],
              nextRow := db.nextRow + 1), Accepted)
  }

  /** A partial edit, checked as the reservation will end up, by its host, before its start and while it is empty. */
  function Updated(db: Db, id: int, subject: string, edit: Edit, now: int): (Db, Answer) {
    if id !in db.rows then (db, Refused(NotFound)) else
      var row := db.rows[id];
      var startAt := if edit.startTime.Some? then StartAtFrom(edit.startTime.value, now) else Ok(row.startAt);
      if !ConditionsValid(Or(edit.matchType, row.matchType), Or(edit.ranks, row.ranks), Or(edit.capacity, row.capacity))
         || startAt.Err? then (db, Refused(WrongState))
      else if row.host != Some(subject) then (db, Refused(NoAccess))
      else if !row.status.Live() || row.startAt <= now || |db.Active(id)| > 0 then (db, Refused(WrongState))
      else (db.(rows := db.rows[id := Edited(row, edit, startAt.value)]), Accepted)
  }

  function Joined(db: Db, id: int, subject: string, now: int): (Db, Answer) {
    if id !in db.rows then (db, Refused(NotFound)) else
      var row, count := db.rows[id], |db.Active(id)|;
      if row.host == Some(subject) || db.Participates(id, subject) || row.status != Open || row.startAt <= now
         || count >= row.capacity then (db, Refused(WrongState))
      else (db.(seats := db.seats[db.nextSeat := Seat(id, subject, true)], nextSeat := db.nextSeat + 1)
              .SetStatus(id, StatusFor(count + 1, row.capacity)), Accepted)
  }

  function SeatsOf(db: Db, id: int, subject: string): set<int> {
    set k | k in db.seats && db.seats[k].reservation == id && db.seats[k].active && db.seats[k].subject == subject
  }

  function Left(db: Db, id: int, subject: string, now: int): (Db, Answer) {
    if id !in db.rows then (db, Refused(NotFound)) else
      var row := db.rows[id];
      if !row.status.Live() || row.startAt <= now then (db, Refused(WrongState))
      else if !db.Participates(id, subject) then (db, Refused(NoAccess))
      else
        // An account has one active seat, so its seats are that one.
        var left := db.Release(SeatsOf(db, id, subject));
        (left.SetStatus(id, StatusFor(|left.Active(id)|, row.capacity)), Accepted)
  }

  function CancelledBy(db: Db, id: int, subject: string, now: int): (Db, Answer) {
    if id !in db.rows then (db, Refused(NotFound)) else
      var row := db.rows[id];
      if row.host != Some(subject) || !row.status.Live() || row.startAt <= now then (db, Refused(NoAccess))
      else (db.SetStatus(id, Cancelled).Release(db.Active(id)), Accepted)
  }

  /** The seats the first statement of a sweep gives up. */
  function FinishedSeats(db: Db, now: int): set<int> {
    set k | k in db.seats && db.seats[k].active && db.Finished(db.seats[k].reservation, now)
  }

  /** What a listing shows at a moment. */
  function Listed(db: Db, now: int): set<int> {
    set id | id in db.rows && now - LISTING_GRACE < db.rows[id].startAt < WindowEnd(now) && db.rows[id].status.Live()
  }

  // -- The invariant of the tables ------------------------------------------------------------------------

  /** A live reservation is never over capacity and says whether it is full; any other holds no seat. */
  ghost predicate RowOk(db: Db, id: int) {
    && id in db.rows
    && CapacityValid(db.rows[id].capacity)
    && ConditionsValid(db.rows[id].matchType, db.rows[id].ranks, db.rows[id].capacity)
    && (db.rows[id].status.Live() ==>
          && |db.Active(id)| <= db.rows[id].capacity
          && db.rows[id].status == StatusFor(|db.Active(id)|, db.rows[id].capacity))
    && (!db.rows[id].status.Live() ==> db.Active(id) == {})
  }

  ghost predicate SeatOk(db: Db, k: int) {
    && k in db.seats && k < db.nextSeat
    && db.seats[k].reservation in db.rows
    && (db.seats[k].active ==> db.rows[db.seats[k].reservation].host != Some(db.seats[k].subject))
  }

  ghost predicate OneSeatEach(db: Db) {
    forall j, k | j in db.seats && k in db.seats && db.seats[j].active && db.seats[k].active
                  && db.seats[j].reservation == db.seats[k].reservation
                      && db.seats[j].subject == db.seats[k].subject :: j == k
  }

  ghost predicate DbOk(db: Db) {
    && (forall id | id in db.rows :: RowOk(db, id) && id < db.nextRow)
    && (forall k | k in db.seats :: SeatOk(db, k))
    && OneSeatEach(db)
  }

  // -- Each operation keeps it --------------------------------------------------------------------------------

  lemma CreateKeepsDb(db: Db, host: string, startTime: int, matchType: MatchType, ranks: seq<string>, capacity: int,
                      now: int)
    requires DbOk(db) && CapacityValid(capacity)
    ensures DbOk(Created(db, host, startTime, matchType, ranks, capacity, now).0)
  {
    var (db', answer) := Created(db, host, startTime, matchType, ranks, capacity, now);
    if answer == Accepted {
      assert db'.Active(db.nextRow) == {} by {
        forall k | k in db.seats ensures db.seats[k].reservation != db.nextRow {
          assert SeatOk(db, k);
        }
      }
      forall id | id in db'.rows ensures RowOk(db', id) {
        assert db'.Active(id) == db.Active(id);
        if id != db.nextRow { assert RowOk(db, id); }
      }
      forall k | k in db'.seats ensures SeatOk(db', k) {
        assert SeatOk(db, k);
      }
    }
  }

  lemma UpdateKeepsDb(db: Db, id: int, subject: string, edit: Edit, now: int)
    requires DbOk(db) && (edit.capacity.Some? ==> CapacityValid(edit.capacity.value))
    ensures DbOk(Updated(db, id, subject, edit, now).0)
  {
    var (db', answer) := Updated(db, id, subject, edit, now);
    if answer == Accepted {
      forall other | other in db'.rows ensures RowOk(db', other) {
        assert db'.Active(other) == db.Active(other) && RowOk(db, other);
      }
      forall k | k in db'.seats ensures SeatOk(db', k) {
        assert SeatOk(db, k);
      }
    }
  }

  lemma JoinKeepsDb(db: Db, id: int, subject: string, now: int)
    requires DbOk(db)
    ensures DbOk(Joined(db, id, subject, now).0)
  {
    var (db', answer) := Joined(db, id, subject, now);
    if answer == Accepted {
      var seated := db.(seats := db.seats[db.nextSeat := Seat(id, subject, true)], nextSeat := db.nextSeat + 1);
      SeatAdded(db, seated, id, subject);
      SeatsIgnoreStatus(seated, id, db'.rows[id].status);
      forall other | other in db'.rows ensures RowOk(db', other) {
        assert db'.Active(other) == seated.Active(other);
        assert RowOk(db, other);
      }
    }
  }

  /** A new seat of an account that is not the host's and had none. */
  lemma SeatAdded(db: Db, seated: Db, id: int, subject: string)
    requires DbOk(db) && id in db.rows && db.rows[id].host != Some(subject) && !db.Participates(id, subject)
    requires seated == db.(seats := db.seats[db.nextSeat := Seat(id, subject, true)], nextSeat := db.nextSeat + 1)
    ensures forall other ::
              seated.Active(other) == if other == id then db.Active(other) + {db.nextSeat} else db.Active(other)
    ensures db.nextSeat !in db.Active(id)
    ensures (forall k | k in seated.seats :: SeatOk(seated, k)) && OneSeatEach(seated)
  {
    assert forall j | j in db.seats :: SeatOk(db, j);
    assert db.nextSeat !in db.seats;
    forall k | k in seated.seats ensures SeatOk(seated, k) {
      if k != db.nextSeat { assert SeatOk(db, k); }
    }
    SeatAddedActive(db, seated, id, subject);
    SeatAddedOnce(db, seated, id, subject);
  }

  lemma SeatAddedActive(db: Db, seated: Db, id: int, subject: string)
    requires db.nextSeat !in db.seats && seated.seats == db.seats[db.nextSeat := Seat(id, subject, true)]
    ensures forall other ::
              seated.Active(other) == if other == id then db.Active(other) + {db.nextSeat} else db.Active(other)
    ensures db.nextSeat !in db.Active(id)
  {
  }

  lemma SeatAddedOnce(db: Db, seated: Db, id: int, subject: string)
    requires OneSeatEach(db) && !db.Participates(id, subject)
    requires db.nextSeat !in db.seats && seated.seats == db.seats[db.nextSeat := Seat(id, subject, true)]
    ensures OneSeatEach(seated)
  {
  }

  lemma ReleaseActive(db: Db, released: set<int>, id: int)
    ensures db.Release(released).Active(id) == db.Active(id) - released
  {
  }

  lemma LeaveKeepsDb(db: Db, id: int, subject: string, now: int)
    requires DbOk(db)
    ensures DbOk(Left(db, id, subject, now).0)
  {
    var (db', answer) := Left(db, id, subject, now);
    if answer == Accepted {
      var released := SeatsOf(db, id, subject);
      var left := db.Release(released);
      ReleasedFromOne(db, id, subject);
      forall other | other in db'.rows ensures RowOk(db', other) {
        assert RowOk(db, other);
        assert db'.Active(other) == left.Active(other);
      }
      ReleaseKeepsSeats(db, released);
      SeatsIgnoreStatus(left, id, db'.rows[id].status);
    }
  }

  lemma ReleasedFromOne(db: Db, id: int, subject: string)
    ensures var left := db.Release(SeatsOf(db, id, subject));
            && |left.Active(id)| <= |db.Active(id)|
            && forall other | other != id :: left.Active(other) == db.Active(other)
  {
    var released := SeatsOf(db, id, subject);
    ReleaseActive(db, released, id);
    SizeWithout(db.Active(id), released);
    forall other | other != id ensures db.Release(released).Active(other) == db.Active(other) {
      ReleaseActive(db, released, other);
      assert released !! db.Active(other);
    }
  }

  lemma ReleaseKeepsSeats(db: Db, released: set<int>)
    requires (forall k | k in db.seats :: SeatOk(db, k)) && OneSeatEach(db)
    ensures (forall k | k in db.seats :: SeatOk(db.Release(released), k)) && OneSeatEach(db.Release(released))
  {
    forall k | k in db.seats ensures SeatOk(db.Release(released), k) {
      assert SeatOk(db, k);
    }
  }

  lemma SeatsIgnoreStatus(db: Db, id: int, status: Status)
    requires id in db.rows && (forall k | k in db.seats :: SeatOk(db, k)) && OneSeatEach(db)
    ensures (forall k | k in db.seats :: SeatOk(db.SetStatus(id, status), k)) && OneSeatEach(db.SetStatus(id, status))
  {
    forall k | k in db.seats ensures SeatOk(db.SetStatus(id, status), k) {
      assert SeatOk(db, k);
    }
  }

  lemma CancelKeepsDb(db: Db, id: int, subject: string, now: int)
    requires DbOk(db)
    ensures DbOk(CancelledBy(db, id, subject, now).0)
  {
    var (db', answer) := CancelledBy(db, id, subject, now);
    if answer == Accepted {
      var ended := db.SetStatus(id, Cancelled);
      forall other | other in db'.rows ensures RowOk(db', other) {
        assert RowOk(db, other) && ended.Active(other) == db.Active(other);
        ReleaseActive(ended, db.Active(id), other);
        if other != id {
          assert db.Active(other) - db.Active(id) == db.Active(other);
        }
      }
      SeatsIgnoreStatus(db, id, Cancelled);
      ReleaseKeepsSeats(ended, db.Active(id));
    }
  }

  /** Ending the finished rows and giving up exactly their seats, in one commit. */
  lemma SweepKeepsDb(db: Db, now: int, released: set<int>)
    requires DbOk(db)
    requires forall k | k in db.seats && db.seats[k].active ::
               k in released <==> db.rows[db.seats[k].reservation].startAt <= now - LISTING_GRACE
    ensures DbOk(db.Release(released).End(now))
  {
    var freed := db.Release(released);
    var db' := freed.End(now);
    forall id | id in db'.rows ensures RowOk(db', id) {
      assert RowOk(db, id);
      ReleaseActive(db, released, id);
      assert db'.Active(id) == db.Active(id) - released;
      forall k: int | k in db.Active(id) ensures k in released <==> db.rows[id].startAt <= now - LISTING_GRACE {
        assert db.seats[k].active;
      }
      if db.Finished(id, now) {
        assert freed.Finished(id, now);
        assert db.Active(id) <= released;
      } else if db.rows[id].status.Live() {
        assert db.Active(id) - released == db.Active(id);
      }
    }
    ReleaseKeepsSeats(db, released);
    forall k | k in db'.seats ensures SeatOk(db', k) {
      assert SeatOk(freed, k);
    }
  }

  // -- What the operations mean for a caller -----------------------------------------------------------------------

  /** A reservation is taken exactly when its conditions are coherent and the next instant with that time of day is at
      least ten minutes off and before the next dawn; it then starts at that instant, open, and is listed at once. */
  lemma CreateTakesTheNextOccurrence(db: Db, host: string, startTime: int, matchType: MatchType, ranks: seq<string>,
                                     capacity: int, now: int, next: int)
    requires 0 <= startTime < DAY && HasTimeOfDay(next, startTime) && now <= next
    requires forall t | HasTimeOfDay(t, startTime) && now <= t :: next <= t
    ensures var (db', answer) := Created(db, host, startTime, matchType, ranks, capacity, now);
            && (answer == Accepted <==>
                  && now + 10 * MINUTE <= next < WindowEnd(now)
                  && (matchType == RankMatch ==> ranks != [] && capacity == 1)
                  && (matchType == PlayerMatch ==> ranks == []))
            && (answer == Accepted ==>
                  && db'.rows == db.rows[db.nextRow := Row(next, Some(host), matchType, ranks, capacity, Open)]
                  && db'.seats == db.seats && db'.nextRow == db.nextRow + 1
                  && db.nextRow in Listed(db', now))
            && (answer != Accepted ==> db' == db && answer == Refused(WrongState))
  {
    StartAtFromIsNextOccurrence(startTime, now, next);
  }

  /** A seat is given exactly when there is one to give: to an account that is not the host and has none, before the
      start, while fewer than the capacity are taken. */
  lemma SeatIsGivenExactlyWhenFree(db: Db, id: int, subject: string, now: int)
    requires DbOk(db)
    ensures Joined(db, id, subject, now).1 == Accepted <==>
              && id in db.rows && db.rows[id].status.Live() && db.rows[id].startAt > now
              && db.rows[id].host != Some(subject) && SeatsOf(db, id, subject) == {}
              && |db.Active(id)| < db.rows[id].capacity
    ensures Joined(db, id, subject, now).1 == Accepted ==>
              var after := Joined(db, id, subject, now).0;
              var status := if |db.Active(id)| + 1 == db.rows[id].capacity then Matched else Open;
              && |SeatsOf(after, id, subject)| == 1
              && after.Active(id) == db.Active(id) + SeatsOf(after, id, subject)
              && (forall other | other != id :: after.Active(other) == db.Active(other))
              && after.rows == db.rows[id := db.rows[id].(status := status)]
    ensures Joined(db, id, subject, now).1 != Accepted ==>
              Joined(db, id, subject, now) == (db, Refused(if id in db.rows then WrongState else NotFound))
  {
    if id in db.rows {
      assert RowOk(db, id);
      ParticipatesMeansASeat(db, id, subject);
    }
    var (db', answer) := Joined(db, id, subject, now);
    if answer == Accepted {
      var seated := db.(seats := db.seats[db.nextSeat := Seat(id, subject, true)], nextSeat := db.nextSeat + 1);
      SeatAdded(db, seated, id, subject);
      assert SeatsOf(db', id, subject) == {db.nextSeat};
    }
  }

  lemma ParticipatesMeansASeat(db: Db, id: int, subject: string)
    ensures db.Participates(id, subject) <==> SeatsOf(db, id, subject) != {}
  {
    if k: int :| && k in db.seats && db.seats[k].reservation == id && db.seats[k].active
                 && db.seats[k].subject == subject {
      assert k in SeatsOf(db, id, subject);
    } else {
      assert forall k :: k !in SeatsOf(db, id, subject);
    }
  }

  /** Leaving undoes joining: the same accounts are seated and the reservation reads as it did before. */
  lemma LeavingUndoesJoining(db: Db, id: int, subject: string, now: int, later: int)
    requires DbOk(db) && Joined(db, id, subject, now).1 == Accepted && later < db.rows[id].startAt
    ensures var joined := Joined(db, id, subject, now).0;
            var (left, answer) := Left(joined, id, subject, later);
            answer == Accepted && left.rows == db.rows && forall other :: left.Active(other) == db.Active(other)
  {
    var joined, k := Joined(db, id, subject, now).0, db.nextSeat;
    var seated := db.(seats := db.seats[k := Seat(id, subject, true)], nextSeat := k + 1);
    SeatAdded(db, seated, id, subject);
    ParticipatesMeansASeat(db, id, subject);
    ParticipatesMeansASeat(joined, id, subject);
    assert RowOk(db, id);
    assert SeatsOf(joined, id, subject) == {k};
    var released := joined.Release({k});
    forall other
      ensures released.Active(other) == db.Active(other)
      ensures Left(joined, id, subject, later).0.Active(other) == released.Active(other)
    {
      ReleaseActive(joined, {k}, other);
      assert joined.Active(other) == seated.Active(other);
    }
    assert Left(joined, id, subject, later).0.rows == db.rows;
  }

  /** Leaving takes the account's one seat, before the start, and opens the reservation; nothing else changes. */
  lemma LeavingFreesOneSeat(db: Db, id: int, subject: string, now: int)
    requires DbOk(db)
    ensures var (db', answer) := Left(db, id, subject, now);
            && (answer == Accepted <==> id in db.rows && db.rows[id].startAt > now && SeatsOf(db, id, subject) != {})
            && (answer == Accepted ==>
                  && db'.rows == db.rows[id := db.rows[id].(status := Open)]
                  && db'.Active(id) == db.Active(id) - SeatsOf(db, id, subject)
                  && |db'.Active(id)| == |db.Active(id)| - 1
                  && forall other | other != id :: db'.Active(other) == db.Active(other))
            && (answer != Accepted ==>
                  && db' == db
                  && answer == Refused(if id !in db.rows then NotFound
                                       else if db.rows[id].status.Live() && db.rows[id].startAt > now then NoAccess
                                       else WrongState))
  {
    if id in db.rows {
      var held := SeatsOf(db, id, subject);
      ParticipatesMeansASeat(db, id, subject);
      assert RowOk(db, id);
      if held != {} {
        OnlySeat(db, id, subject);
        SizeWithout(db.Active(id), held);
        ReleaseActive(db, held, id);
        ReleasedFromOne(db, id, subject);
        if db.rows[id].startAt > now { LeavingReads(db, id, subject, now); }
      }
    }
  }

  lemma OnlySeat(db: Db, id: int, subject: string)
    requires DbOk(db) && SeatsOf(db, id, subject) != {}
    ensures id in db.rows && |SeatsOf(db, id, subject)| == 1 && SeatsOf(db, id, subject) <= db.Active(id)
              && db.rows[id].status.Live()
  {
    var held := SeatsOf(db, id, subject);
    var k := Pick(held);
    assert k in held && SeatOk(db, k) && RowOk(db, id);
    assert k in db.Active(id);
    forall j: int | j in held ensures j == k {
    }
    assert held == {k};
  }

  lemma LeavingReads(db: Db, id: int, subject: string, now: int)
    requires Left(db, id, subject, now).1 == Accepted
    ensures forall other ::
              Left(db, id, subject, now).0.Active(other) == db.Release(SeatsOf(db, id, subject)).Active(other)
  {
  }

  /** Cancelling is the host's, before the start; it empties the reservation for good and touches no other. */
  lemma CancellingEmptiesIt(db: Db, id: int, subject: string, now: int)
    requires DbOk(db)
    ensures var (db', answer) := CancelledBy(db, id, subject, now);
            && (answer == Accepted <==>
                  id in db.rows && db.rows[id].host == Some(subject) && db.rows[id].status.Live()
                      && db.rows[id].startAt > now)
            && (answer == Accepted ==>
                  && db'.rows == db.rows[id := db.rows[id].(status := Cancelled)]
                  && db'.Active(id) == {}
                  && forall other | other != id :: db'.Active(other) == db.Active(other))
            && (answer != Accepted ==> db' == db && answer == Refused(if id in db.rows then NoAccess else NotFound))
  {
    var (db', answer) := CancelledBy(db, id, subject, now);
    if answer == Accepted {
      var ended := db.SetStatus(id, Cancelled);
      forall other ensures db'.Active(other) == db.Active(other) - db.Active(id) {
        assert ended.Active(other) == db.Active(other);
        ReleaseActive(ended, db.Active(id), other);
      }
      forall other | other != id ensures db'.Active(other) == db.Active(other) {
        assert db.Active(other) - db.Active(id) == db.Active(other);
      }
    }
  }

  /** An edit is taken exactly from the host, before the start, while nobody is seated, and if the reservation it makes
      is coherent and its new start is one that could be reserved now; it changes what was sent and nothing else. */
  lemma EditChangesOnlyWhatWasSent(db: Db, id: int, subject: string, edit: Edit, now: int)
    requires DbOk(db) && (edit.startTime.Some? ==> 0 <= edit.startTime.value < DAY)
    ensures var (db', answer) := Updated(db, id, subject, edit, now);
            && (answer == Accepted <==>
                  && id in db.rows && db.rows[id].host == Some(subject)
                  && db.rows[id].status.Live() && db.rows[id].startAt > now && db.Active(id) == {}
                  && (edit.startTime.Some? ==>
                        now + 10 * MINUTE <= NextAt(edit.startTime.value, now) < WindowEnd(now))
                  && ConditionsValid(Or(edit.matchType, db.rows[id].matchType), Or(edit.ranks, db.rows[id].ranks),
                                     Or(edit.capacity, db.rows[id].capacity)))
            && (answer == Accepted ==>
                  var before, after := db.rows[id], db'.rows[id];
                  && db' == db.(rows := db.rows[id := after])
                  && after.host == before.host && after.status == before.status == Open
                  && after.startAt == (if edit.startTime.Some? then NextAt(edit.startTime.value, now)
                                       else before.startAt)
                  && after.ranks == (if edit.ranks.Some? then edit.ranks.value else before.ranks)
                  && after.matchType == (if edit.matchType.Some? then edit.matchType.value else before.matchType)
                  && after.capacity == (if edit.capacity.Some? then edit.capacity.value else before.capacity))
            && (answer != Accepted ==>
                  && db' == db
                  && (answer == Refused(NotFound) <==> id !in db.rows)
                  && (answer == Refused(NoAccess) <==>
                        && id in db.rows && db.rows[id].host != Some(subject)
                        && (edit.startTime.Some? ==>
                              now + 10 * MINUTE <= NextAt(edit.startTime.value, now) < WindowEnd(now))
                        && ConditionsValid(Or(edit.matchType, db.rows[id].matchType), Or(edit.ranks, db.rows[id].ranks),
                                           Or(edit.capacity, db.rows[id].capacity))))
  {
    if id in db.rows {
      assert RowOk(db, id);
    }
    if edit.startTime.Some? {
      var next := NextAt(edit.startTime.value, now);
      NextOccurrenceExists(edit.startTime.value, now);
      StartAtFromIsNextOccurrence(edit.startTime.value, now, next);
    }
  }

  // -- The repository ---------------------------------------------------------------------------------------------

  class ReservationRepository {
    var rows: map<int, Row>
    var seats: map<int, Seat>
    var nextRow: int
    var nextSeat: int

    ghost function View(): Db reads this { Db(rows, seats, nextRow, nextSeat) }

    constructor ()
      ensures View() == Db(map[], map[], 1, 1)
    {
      rows, seats, nextRow, nextSeat := map[], map[], 1, 1;
    }

    method ActiveCount(id: int) returns (count: nat)
      ensures count == |View().Active(id)|
    {
      count := |set k | k in seats && seats[k].reservation == id && seats[k].active|;
      assert (set k | k in seats && seats[k].reservation == id && seats[k].active) == View().Active(id);
    }

    method ActiveSeats(id: int, subject: string) returns (held: set<int>)
      ensures held == SeatsOf(View(), id, subject) && (held != {} <==> View().Participates(id, subject))
    {
      held := set k | k in seats && seats[k].reservation == id && seats[k].active && seats[k].subject == subject;
      if View().Participates(id, subject) {
        ghost var k: int :| k in seats && seats[k].reservation == id && seats[k].active && seats[k].subject == subject;
        assert k in held;
      } else {
        assert forall k :: k !in held;
      }
    }

    method ReleaseSeats(released: set<int>)
      modifies this`seats
      ensures View() == old(View()).Release(released)
    {
      seats := map k | k in seats :: if k in released then seats[k].(active := false) else seats[k];
    }

    method Create(host: string, startTime: int, matchType: MatchType, ranks: seq<string>, capacity: int, now: int)
        returns (answer: Answer)
      modifies this
      ensures (View(), answer) == Created(old(View()), host, startTime, matchType, ranks, capacity, now)
    {
      if !ConditionsValid(matchType, ranks, capacity) {
        return Refused(WrongState);
      }
      var startAt := StartAtFrom(startTime, now);
      if startAt.Err? {
        return Refused(WrongState);
      }
      rows := rows[nextRow := Row(startAt.value, Some(host), matchType, ranks, capacity, Open)];
      nextRow := nextRow + 1;
      answer := Accepted;
    }

    method Update(id: int, subject: string, edit: Edit, now: int) returns (answer: Answer)
      modifies this
      ensures (View(), answer) == Updated(old(View()), id, subject, edit, now)
    {
      if id !in rows {
        return Refused(NotFound);
      }
      var row := rows[id];
      if !ConditionsValid(Or(edit.matchType, row.matchType), Or(edit.ranks, row.ranks),
          Or(edit.capacity, row.capacity)) {
        return Refused(WrongState);
      }
      var startAt := row.startAt;
      if edit.startTime.Some? {
        var chosen := StartAtFrom(edit.startTime.value, now);
        if chosen.Err? {
          return Refused(WrongState);
        }
        startAt := chosen.value;
      }
      if row.host != Some(subject) {
        return Refused(NoAccess);
      }
      var count := ActiveCount(id);
      if !row.status.Live() || row.startAt <= now || count > 0 {
        return Refused(WrongState);
      }
      rows := rows[id := Edited(row, edit, startAt)];
      answer := Accepted;
    }

    method Join(id: int, subject: string, now: int) returns (answer: Answer)
      modifies this
      ensures (View(), answer) == Joined(old(View()), id, subject, now)
    {
      if id !in rows {
        return Refused(NotFound);
      }
      var row := rows[id];
      var count := ActiveCount(id);
      var held := ActiveSeats(id, subject);
      if row.host == Some(subject) || held != {} {
        return Refused(WrongState);
      }
      if row.status != Open || row.startAt <= now || count >= row.capacity {
        return Refused(WrongState);
      }
      seats := seats[nextSeat := Seat(id, subject, true)];
      nextSeat := nextSeat + 1;
      rows := rows[id := row.(status := StatusFor(count + 1, row.capacity))];
      answer := Accepted;
    }

    method CancelParticipation(id: int, subject: string, now: int) returns (answer: Answer)
      modifies this
      ensures (View(), answer) == Left(old(View()), id, subject, now)
    {
      if id !in rows {
        return Refused(NotFound);
      }
      var row := rows[id];
      var held := ActiveSeats(id, subject);
      if !row.status.Live() || row.startAt <= now {
        return Refused(WrongState);
      }
      if held == {} {
        return Refused(NoAccess);
      }
      ReleaseSeats(held);
      var count := ActiveCount(id);
      rows := rows[id := row.(status := StatusFor(count, row.capacity))];
      answer := Accepted;
    }

    method Cancel(id: int, subject: string, now: int) returns (answer: Answer)
      modifies this
      ensures (View(), answer) == CancelledBy(old(View()), id, subject, now)
    {
      if id !in rows {
        return Refused(NotFound);
      }
      var row := rows[id];
      if row.host != Some(subject) || !row.status.Live() || row.startAt <= now {
        return Refused(NoAccess);
      }
      rows := rows[id := row.(status := Cancelled)];
      var held := set k | k in seats && seats[k].reservation == id && seats[k].active;
      assert held == old(View()).Active(id);
      ReleaseSeats(held);
      answer := Accepted;
    }

    /** Retire what is over, then list what is live: two statements and a query of one transaction. */
    method ListUpcoming(now: int) returns (shown: set<int>)
      modifies this
      ensures View() == old(View()).Release(FinishedSeats(old(View()), now)).End(now)
      ensures shown == Listed(View(), now)
      ensures forall id :: id in shown <==>
                id in old(rows) && (old(rows)[id].status == Open || old(rows)[id].status == Matched)
                && now - HOUR < old(rows)[id].startAt < WindowEnd(now)
      ensures rows.Keys == old(rows).Keys && seats.Keys == old(seats).Keys
      ensures forall id | id in rows ::
                rows[id] == if (old(rows)[id].status == Open || old(rows)[id].status == Matched)
                               && old(rows)[id].startAt <= now - HOUR
                            then old(rows)[id].(status := Ended) else old(rows)[id]
    {
      var finished := set k | k in seats && seats[k].active && seats[k].reservation in rows
                              && rows[seats[k].reservation].status.Live()
                                  && rows[seats[k].reservation].startAt <= now - LISTING_GRACE;
      forall k: int ensures k in finished <==> k in FinishedSeats(View(), now) {
      }
      assert finished == FinishedSeats(View(), now);
      ReleaseSeats(finished);
      ghost var freed := View();
      rows := map id | id in rows ::
        if rows[id].status.Live() && rows[id].startAt <= now - LISTING_GRACE then rows[id].(status := Ended)
        else rows[id];
      assert rows == freed.End(now).rows;
      shown := set id | id in rows && now - LISTING_GRACE < rows[id].startAt < WindowEnd(now) && rows[id].status.Live();
      assert shown == Listed(View(), now);
    }
  }
}

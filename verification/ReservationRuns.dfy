/** Runs of the reservation tables: every operation one transaction, but a listing three statements, each of which
    others may commit between: give up the seats, end the reservations, read. What a listing writes is seen by no other
    until it commits, and by itself over whatever is committed by then. */
module ReservationRuns {
  import opened Common
  import opened PlayDay
  import opened Reservations

  /** A listing's sweep part-way: the clock it read, the seats its first statement gives up and, after the second, the
      reservations it ends. */
  datatype Sweep = Sweep(now: int, released: set<int>, ended: Option<set<int>>)

  datatype State = State(db: Db, clock: int, sweeps: map<int, Sweep>)

  datatype Action =
    | Tick(to: int)
    | Create(host: string, startTime: int, matchType: MatchType, ranks: seq<string>, seats: int)
    | Update(id: int, subject: string, edit: Edit)
    | Join(id: int, subject: string)
    | Leave(id: int, subject: string)
    | Cancel(id: int, subject: string)
    | SweepSeats(w: int)
    | SweepRows(w: int)
    | FinishSweep(w: int)        // the commit, at any moment after the read
    | AbandonSweep(w: int)

  /** The clock only moves forward, and a request asks for a capacity the request model lets through. A second sweep
      would wait where it meets the first's seats; letting it run on is more than can happen. */
  predicate Enabled(s: State, a: Action) {
    match a
    case Tick(to) => to >= s.clock
    case Create(_, _, _, _, seats) => CapacityValid(seats)
    case Update(_, _, edit) => edit.capacity.Some? ==> CapacityValid(edit.capacity.value)
    case Join(_, _) => true
    case Leave(_, _) => true
    case Cancel(_, _) => true
    case SweepSeats(w) => w !in s.sweeps
    case SweepRows(w) => w in s.sweeps && s.sweeps[w].ended == None
    case FinishSweep(w) => w in s.sweeps && s.sweeps[w].ended.Some?
    case AbandonSweep(w) => w in s.sweeps
  }

  function EndRows(db: Db, ids: set<int>): Db {
    db.(rows := map id | id in db.rows :: if id in ids then db.rows[id].(status := Ended) else db.rows[id])
  }

  /** The tables as a sweep's own transaction sees them once its two statements ran: what is committed, under what it
      wrote. This is what its listing reads, and what its commit leaves. */
  function Seen(db: Db, sweep: Sweep): Db
    requires sweep.ended.Some?
  {
    EndRows(db.Release(sweep.released), sweep.ended.value)
  }

  function Apply(s: State, a: Action): State
    requires Enabled(s, a)
  {
    match a
    case Tick(to) => s.(clock := to)
    case Create(host, startTime, matchType, ranks, seats) =>
      s.(db := Created(s.db, host, startTime, matchType, ranks, seats, s.clock).0)
    case Update(id, subject, edit) => s.(db := Updated(s.db, id, subject, edit, s.clock).0)
    case Join(id, subject) => s.(db := Joined(s.db, id, subject, s.clock).0)
    case Leave(id, subject) => s.(db := Left(s.db, id, subject, s.clock).0)
    case Cancel(id, subject) => s.(db := CancelledBy(s.db, id, subject, s.clock).0)
    case SweepSeats(w) => s.(sweeps := s.sweeps[w := Sweep(s.clock, FinishedSeats(s.db, s.clock), None)])
    case SweepRows(w) => s.(sweeps := s.sweeps[w := s.sweeps[w].(ended := Some(FinishedRows(s.db, s.sweeps[w].now)))])
    case FinishSweep(w) => s.(db := Seen(s.db, s.sweeps[w]), sweeps := s.sweeps - {w})
    case AbandonSweep(w) => s.(sweeps := s.sweeps - {w})
  }

  function FinishedRows(db: Db, now: int): set<int> { set id | id in db.rows && db.Finished(id, now) }

  ghost function Execute(from: State, actions: seq<Action>): Option<State> {
    if actions == [] then Some(from) else
      var before, last := Execute(from, actions[..|actions| - 1]), actions[|actions| - 1];
      if before.Some? && Enabled(before.value, last) then Some(Apply(before.value, last)) else None
  }

  function Start(clock: int): State { State(Db(map[], map[], 1, 1), clock, map[]) }

  // -- The invariant -----------------------------------------------------------------------------------

  /** A sweep part-way holds exactly the active seats of the reservations over at its clock: none was left out, and
      none of them can be taken or moved any more. */
  ghost predicate SweepOk(db: Db, clock: int, sweep: Sweep) {
    && sweep.now <= clock
    && (forall k | k in db.seats && db.seats[k].active && db.seats[k].reservation in db.rows ::
          k in sweep.released <==> db.rows[db.seats[k].reservation].startAt <= sweep.now - LISTING_GRACE)
    && (forall k | k in sweep.released :: k < db.nextSeat)
    && (sweep.ended.Some? ==> EndsOk(db, sweep.now, sweep.ended.value))
  }

  /** Every reservation over at a moment is among those being ended, and of those none is anything but over. */
  ghost predicate EndsOk(db: Db, now: int, ended: set<int>) {
    && (forall id | id in db.rows && db.Finished(id, now) :: id in ended)
    && (forall id | id in ended :: IsOver(db, now, id))
  }

  ghost predicate IsOver(db: Db, now: int, id: int) {
    id in db.rows && db.rows[id].startAt <= now - LISTING_GRACE && db.rows[id].status != Cancelled
  }

  /** So ending them is ending what is over at the sweep's clock, even if another sweep has ended some of it since. */
  lemma SeenAsOne(db: Db, sweep: Sweep)
    requires sweep.ended.Some? && EndsOk(db, sweep.now, sweep.ended.value)
    ensures Seen(db, sweep) == db.Release(sweep.released).End(sweep.now)
  {
    var freed, one := db.Release(sweep.released), db.Release(sweep.released).End(sweep.now);
    forall id | id in db.rows ensures Seen(db, sweep).rows[id] == one.rows[id] {
      assert freed.Finished(id, sweep.now) <==> db.Finished(id, sweep.now);
      if id in sweep.ended.value { assert IsOver(db, sweep.now, id); }
    }
    assert Seen(db, sweep).rows == one.rows;
  }

  ghost predicate StartsInSight(db: Db, clock: int) {
    forall id | id in db.rows && db.rows[id].status.Live() :: db.rows[id].startAt < WindowEnd(clock)
  }

  ghost predicate Inv(s: State) {
    && DbOk(s.db)
    && StartsInSight(s.db, s.clock)
    && forall w | w in s.sweeps :: SweepOk(s.db, s.clock, s.sweeps[w])
  }

  /** Operations that neither touch a started reservation nor a seat of one leave every sweep right. */
  ghost predicate Gentle(db: Db, db': Db, clock: int) {
    && db'.nextSeat >= db.nextSeat
    && (forall k | k in db.seats :: SeatOk(db, k))
    && (forall k | k in db'.seats && db'.seats[k].active :: KeptOrNew(db, db', clock, k))
    && (forall id | id in db.rows || id in db'.rows :: KeptOrAhead(db, db', clock, id))
  }

  /** A reservation is as it was, or starts later than now and did before if it was there. */
  ghost predicate KeptOrAhead(db: Db, db': Db, clock: int, id: int) {
    && id in db'.rows
    && (id in db.rows && db.rows[id].startAt <= clock ==> db'.rows[id] == db.rows[id])
    && (id !in db.rows || db.rows[id].startAt > clock ==> db'.rows[id].startAt > clock)
  }

  /** An active seat was one before, of a reservation whose start did not move, or it is new and its reservation is
      yet to start. */
  ghost predicate KeptOrNew(db: Db, db': Db, clock: int, k: int) {
    k in db'.seats && db'.seats[k].reservation in db'.rows &&
    var r := db'.seats[k].reservation;
    if k in db.seats
    then db.seats[k].active && db.seats[k].reservation == r && r in db.rows && db.rows[r].startAt == db'.rows[r].startAt
    else k >= db.nextSeat && db'.rows[r].startAt > clock
  }

  lemma GentleKeepsSweep(db: Db, db': Db, clock: int, sweep: Sweep)
    requires SweepOk(db, clock, sweep) && Gentle(db, db', clock)
    ensures SweepOk(db', clock, sweep)
  {
    forall k | k in db'.seats && db'.seats[k].active && db'.seats[k].reservation in db'.rows
      ensures k in sweep.released <==> db'.rows[db'.seats[k].reservation].startAt <= sweep.now - LISTING_GRACE
    {
      assert KeptOrNew(db, db', clock, k);
    }
    if sweep.ended.Some? {
      forall id | id in db'.rows && db'.Finished(id, sweep.now) ensures id in sweep.ended.value {
        assert KeptOrAhead(db, db', clock, id);
      }
      forall id | id in sweep.ended.value ensures IsOver(db', sweep.now, id) {
        assert IsOver(db, sweep.now, id) && KeptOrAhead(db, db', clock, id);
      }
    }
  }

  lemma OperationKeepsInv(s: State, a: Action)
    requires Inv(s) && Enabled(s, a)
    requires a.Create? || a.Update? || a.Join? || a.Leave? || a.Cancel?
    ensures Inv(Apply(s, a))
  {
    var db, s' := s.db, Apply(s, a);
    match a {
      case Create(host, startTime, matchType, ranks, seats) =>
        CreateKeepsDb(db, host, startTime, matchType, ranks, seats, s.clock);
      case Update(id, subject, edit) => UpdateKeepsDb(db, id, subject, edit, s.clock);
      case Join(id, subject) => JoinKeepsDb(db, id, subject, s.clock);
      case Leave(id, subject) => LeaveKeepsDb(db, id, subject, s.clock);
      case Cancel(id, subject) => CancelKeepsDb(db, id, subject, s.clock);
    }
    OperationIsGentle(s, a);
    forall w | w in s'.sweeps ensures SweepOk(s'.db, s'.clock, s'.sweeps[w]) {
      GentleKeepsSweep(db, s'.db, s.clock, s.sweeps[w]);
    }
  }

  lemma OperationIsGentle(s: State, a: Action)
    requires Inv(s) && Enabled(s, a)
    requires a.Create? || a.Update? || a.Join? || a.Leave? || a.Cancel?
    ensures Gentle(s.db, Apply(s, a).db, s.clock)
    ensures StartsInSight(Apply(s, a).db, s.clock)
  {
    var db, db' := s.db, Apply(s, a).db;
    OperationKeepsRows(s, a);
    forall k | k in db'.seats && db'.seats[k].active ensures KeptOrNew(db, db', s.clock, k) {
      OperationKeepsSeat(s, a, k);
    }
    assert forall k | k in db.seats :: SeatOk(db, k);
  }

  lemma OperationKeepsSeat(s: State, a: Action, k: int)
    requires Inv(s) && Enabled(s, a)
    requires a.Create? || a.Update? || a.Join? || a.Leave? || a.Cancel?
    requires k in Apply(s, a).db.seats && Apply(s, a).db.seats[k].active
    ensures KeptOrNew(s.db, Apply(s, a).db, s.clock, k)
  {
    var db, db' := s.db, Apply(s, a).db;
    if k in db.seats {
      assert SeatOk(db, k);
      if a.Update? && db'.seats[k].reservation == a.id {
        assert k in db.Active(a.id);
      }
    }
  }

  lemma OperationKeepsRows(s: State, a: Action)
    requires Inv(s) && Enabled(s, a)
    requires a.Create? || a.Update? || a.Join? || a.Leave? || a.Cancel?
    ensures forall id | id in s.db.rows || id in Apply(s, a).db.rows :: KeptOrAhead(s.db, Apply(s, a).db, s.clock, id)
    ensures StartsInSight(Apply(s, a).db, s.clock) && Apply(s, a).db.nextSeat >= s.db.nextSeat
  {
  }

  lemma SweepStepKeepsInv(s: State, a: Action)
    requires Inv(s) && Enabled(s, a) && (a.SweepSeats? || a.SweepRows? || a.FinishSweep? || a.AbandonSweep? || a.Tick?)
    ensures Inv(Apply(s, a))
  {
    match a {
      case Tick(to) => WindowEndMonotone(s.clock, to);
      case SweepSeats(w) =>
        forall k | k in s.db.seats ensures SeatOk(s.db, k) && RowOk(s.db, s.db.seats[k].reservation) {
          assert SeatOk(s.db, k);
        }
        LiveWhileSeated(s.db);
      case SweepRows(w) => assert SweepOk(s.db, s.clock, s.sweeps[w]);
      case FinishSweep(w) => FinishKeepsInv(s, w);
      case AbandonSweep(w) =>
    }
  }

  lemma FinishKeepsInv(s: State, w: int)
    requires Inv(s) && Enabled(s, FinishSweep(w))
    ensures Inv(Apply(s, FinishSweep(w)))
  {
    var s', sweep := Apply(s, FinishSweep(w)), s.sweeps[w];
    assert SweepOk(s.db, s.clock, sweep);
    SeenAsOne(s.db, sweep);
    assert forall k | k in s.db.seats :: SeatOk(s.db, k);
    SweepKeepsDb(s.db, sweep.now, sweep.released);
    forall v | v in s'.sweeps ensures SweepOk(s'.db, s'.clock, s'.sweeps[v]) {
      assert SweepOk(s.db, s.clock, s.sweeps[v]);
      OtherSweepStaysOk(s.db, s.clock, sweep, s.sweeps[v]);
    }
  }

  lemma OtherSweepStaysOk(db: Db, clock: int, sweep: Sweep, other: Sweep)
    requires sweep.ended.Some? && EndsOk(db, sweep.now, sweep.ended.value) && SweepOk(db, clock, other)
    ensures SweepOk(Seen(db, sweep), clock, other)
  {
    var after := Seen(db, sweep);
    if other.ended.Some? {
      forall id | id in other.ended.value ensures IsOver(after, other.now, id) {
        assert IsOver(db, other.now, id);
      }
      forall id | id in after.rows && after.Finished(id, other.now) ensures id in other.ended.value {
        assert db.Finished(id, other.now);
      }
    }
  }

  lemma LiveWhileSeated(db: Db)
    requires DbOk(db)
    ensures forall k | k in db.seats && db.seats[k].active ::
              db.seats[k].reservation in db.rows && db.rows[db.seats[k].reservation].status.Live()
  {
    forall k | k in db.seats && db.seats[k].active
      ensures db.seats[k].reservation in db.rows && db.rows[db.seats[k].reservation].status.Live()
    {
      assert SeatOk(db, k) && RowOk(db, db.seats[k].reservation);
      assert k in db.Active(db.seats[k].reservation);
    }
  }

  lemma StepKeepsInv(s: State, a: Action)
    requires Inv(s) && Enabled(s, a)
    ensures Inv(Apply(s, a))
  {
    if a.SweepSeats? || a.SweepRows? || a.FinishSweep? || a.AbandonSweep? || a.Tick? {
      SweepStepKeepsInv(s, a);
    } else {
      OperationKeepsInv(s, a);
    }
  }

  lemma {:induction false} RunKeepsInv(from: State, actions: seq<Action>)
    requires Inv(from) && Execute(from, actions).Some?
    ensures Inv(Execute(from, actions).value)
  {
    if actions == [] {
    } else {
      RunKeepsInv(from, actions[..|actions| - 1]);
      StepKeepsInv(Execute(from, actions[..|actions| - 1]).value, actions[|actions| - 1]);
    }
  }

  // -- Main results -----------------------------------------------------------------------------------------

  ghost predicate Reachable(s: State) {
    exists clock, actions :: Execute(Start(clock), actions) == Some(s)
  }

  lemma ReachableOk(s: State)
    requires Reachable(s)
    ensures Inv(s)
  {
    var clock, actions :| Execute(Start(clock), actions) == Some(s);
    RunKeepsInv(Start(clock), actions);
  }

  /** Any request may come at any moment, also between a sweep's statements: each is a step that does to the tables what
      the operation does, and a sweep goes on or is abandoned whatever came between. */
  lemma AnyRequestMayCome(s: State, id: int, subject: string, edit: Edit, startTime: int, matchType: MatchType,
                          ranks: seq<string>, capacity: int, to: int, w: int)
    ensures 1 <= capacity <= 3 ==>
              && Enabled(s, Create(subject, startTime, matchType, ranks, capacity))
              && Apply(s, Create(subject, startTime, matchType, ranks, capacity)).db
                 == Created(s.db, subject, startTime, matchType, ranks, capacity, s.clock).0
    ensures (edit.capacity.Some? ==> 1 <= edit.capacity.value <= 3) ==>
              Enabled(s, Update(id, subject, edit))
              && Apply(s, Update(id, subject, edit)).db == Updated(s.db, id, subject, edit, s.clock).0
    ensures Enabled(s, Join(id, subject)) && Apply(s, Join(id, subject)).db == Joined(s.db, id, subject, s.clock).0
    ensures Enabled(s, Leave(id, subject)) && Apply(s, Leave(id, subject)).db == Left(s.db, id, subject, s.clock).0
    ensures Enabled(s, Cancel(id, subject))
            && Apply(s, Cancel(id, subject)).db == CancelledBy(s.db, id, subject, s.clock).0
    ensures to >= s.clock ==> Enabled(s, Tick(to)) && Apply(s, Tick(to)).db == s.db
    ensures w !in s.sweeps ==> Enabled(s, SweepSeats(w)) && Apply(s, SweepSeats(w)).sweeps[w].now == s.clock
    ensures w in s.sweeps ==>
              && Enabled(s, AbandonSweep(w))
              && if s.sweeps[w].ended == None then Enabled(s, SweepRows(w)) else Enabled(s, FinishSweep(w))
  {
  }

  /** At every committed moment: a live reservation has at most its capacity of active seats and its status says
      whether they fill it; one cancelled or ended has none; and its conditions are coherent. */
  lemma ReservationsAreConsistent(s: State, id: int)
    requires Reachable(s) && id in s.db.rows
    ensures var row, count := s.db.rows[id], |s.db.Active(id)|;
            && 1 <= row.capacity <= 3 && ConditionsValid(row.matchType, row.ranks, row.capacity)
            && (row.status.Live() ==> count <= row.capacity && (row.status == Matched <==> count == row.capacity))
            && (!row.status.Live() ==> count == 0)
  {
    ReachableOk(s);
    assert RowOk(s.db, id);
  }

  /** No account holds two active seats of a reservation, and its host holds none. */
  lemma SeatsAreFair(s: State, id: int, subject: string)
    requires Reachable(s) && id in s.db.rows
    ensures |SeatsOf(s.db, id, subject)| <= 1
    ensures s.db.rows[id].host == Some(subject) ==> SeatsOf(s.db, id, subject) == {}
  {
    ReachableOk(s);
    var held := SeatsOf(s.db, id, subject);
    assert forall k | k in s.db.seats :: SeatOk(s.db, k);
    if held != {} {
      var k := Pick(held);
      forall j: int | j in held ensures j == k {
      }
      assert held == {k};
    }
  }

  /** Cancelled and ended are final, and a start that has passed never moves. */
  lemma OverIsFinal(s: State, a: Action, id: int)
    requires Reachable(s) && Enabled(s, a) && id in s.db.rows
    ensures id in Apply(s, a).db.rows
    ensures !s.db.rows[id].status.Live() ==> Apply(s, a).db.rows[id] == s.db.rows[id]
    ensures s.db.rows[id].startAt <= s.clock ==> Apply(s, a).db.rows[id].startAt == s.db.rows[id].startAt
  {
    ReachableOk(s);
    assert RowOk(s.db, id);
  }

  /** Whatever came between a sweep's statements and its commit, it ends exactly the reservations over at its clock and
      gives up exactly their seats. */
  lemma SweepIsWhole(s: State, w: int, id: int)
    requires Reachable(s) && Enabled(s, FinishSweep(w)) && id in s.db.rows
    ensures var before, after := s.db, Apply(s, FinishSweep(w)).db;
            && id in after.rows
            && if (before.rows[id].status == Open || before.rows[id].status == Matched)
                  && before.rows[id].startAt <= s.sweeps[w].now - HOUR
               then after.rows[id] == before.rows[id].(status := Ended) && after.Active(id) == {}
               else after.rows[id] == before.rows[id] && after.Active(id) == before.Active(id)
  {
    ReachableOk(s);
    StepKeepsInv(s, FinishSweep(w));
    var sweep, after := s.sweeps[w], Apply(s, FinishSweep(w)).db;
    assert SweepOk(s.db, s.clock, sweep);
    SeenAsOne(s.db, sweep);
    ReleaseActive(s.db, sweep.released, id);
    assert after.Active(id) == s.db.Active(id) - sweep.released;
    assert RowOk(after, id) && RowOk(s.db, id);
    forall k: int | k in s.db.Active(id)
      ensures k in sweep.released <==> s.db.rows[id].startAt <= sweep.now - LISTING_GRACE
    {
      assert s.db.seats[k].active;
    }
    if !s.db.Finished(id, sweep.now) && s.db.rows[id].status.Live() {
      assert s.db.Active(id) - sweep.released == s.db.Active(id);
    }
  }

  ghost function LiveRows(db: Db): set<int> { set id | id in db.rows && db.rows[id].status.Live() }

  /** At any moment after its sweep, whatever was committed meanwhile, a listing reads exactly what is live, as long as
      no dawn passed since the sweep's clock. */
  lemma ListingIsComplete(s: State, w: int)
    requires Reachable(s) && w in s.sweeps && s.sweeps[w].ended.Some?
    requires WindowEnd(s.sweeps[w].now) == WindowEnd(s.clock)
    ensures Listed(Seen(s.db, s.sweeps[w]), s.sweeps[w].now) == LiveRows(Seen(s.db, s.sweeps[w]))
  {
    ReachableOk(s);
    assert SweepOk(s.db, s.clock, s.sweeps[w]);
    SeenAsOne(s.db, s.sweeps[w]);
  }

  /** The condition is exact: whenever a dawn passed since the sweep's clock, there is a run in which a reservation
      made after it is live and beyond the window that clock shows. */
  lemma DawnBetweenHidesARow(swept: int, clock: int) returns (actions: seq<Action>, s: State)
    requires swept <= clock && WindowEnd(swept) != WindowEnd(clock)
    ensures Execute(Start(swept), actions) == Some(s) && s.clock == clock
    ensures 0 in s.sweeps && s.sweeps[0].now == swept && s.sweeps[0].ended.Some?
    ensures Listed(Seen(s.db, s.sweeps[0]), swept) != LiveRows(Seen(s.db, s.sweeps[0]))
  {
    var dawn := DawnPassed(swept, clock);
    var start := dawn + LEAD_TIME;
    LeadTimeIsAccepted(dawn);
    var create := Create("host", (start + KST) % DAY, AnyMatch, [], 1);
    var s0, s2 := Start(swept), Start(swept).(sweeps := map[0 := Sweep(swept, {}, Some({}))]);
    actions := SweepIsARun(swept);
    var s3 := Apply(s2, Tick(dawn));
    OneMore(s0, actions, s2, Tick(dawn));
    var s4 := Apply(s3, create);
    OneMore(s0, actions + [Tick(dawn)], s3, create);
    s := Apply(s4, Tick(clock));
    OneMore(s0, actions + [Tick(dawn)] + [create], s4, Tick(clock));
    actions := actions + [Tick(dawn)] + [create] + [Tick(clock)];
    assert s.db.rows == map[1 := Row(start, Some("host"), AnyMatch, [], 1, Open)];
    var seen := Seen(s.db, s.sweeps[0]);
    assert 1 in LiveRows(seen) && 1 !in Listed(seen, swept);
  }

  lemma SweepIsARun(clock: int) returns (actions: seq<Action>)
    ensures Execute(Start(clock), actions) == Some(Start(clock).(sweeps := map[0 := Sweep(clock, {}, Some({}))]))
  {
    var s0, s1 := Start(clock), Start(clock).(sweeps := map[0 := Sweep(clock, {}, None)]);
    assert FinishedSeats(s0.db, clock) == {} && FinishedRows(s0.db, clock) == {};
    assert Apply(s0, SweepSeats(0)) == s1;
    OneMore(s0, [], s0, SweepSeats(0));
    assert Apply(s1, SweepRows(0)) == s0.(sweeps := map[0 := Sweep(clock, {}, Some({}))]);
    OneMore(s0, [] + [SweepSeats(0)], s1, SweepRows(0));
    actions := [] + [SweepSeats(0)] + [SweepRows(0)];
  }

  lemma OneMore(from: State, actions: seq<Action>, s: State, a: Action)
    requires Execute(from, actions) == Some(s) && Enabled(s, a)
    ensures Execute(from, actions + [a]) == Some(Apply(s, a))
  {
    assert (actions + [a])[..|actions|] == actions;
  }

  /** Two moments with different windows have a dawn between them, with a whole day after it. */
  lemma DawnPassed(earlier: int, later: int) returns (dawn: int)
    requires earlier <= later && WindowEnd(earlier) != WindowEnd(later)
    ensures dawn == WindowEnd(earlier) && earlier < dawn <= later && WindowEnd(dawn) == dawn + DAY
  {
    dawn := WindowEnd(earlier);
    BoundariesAgree(earlier);
    BoundariesAgree(dawn);
    BoundariesAgree(later);
    WindowEndMonotone(earlier, later);
    assert IsDawn(dawn) by { DawnAt(StatDay(earlier) + 1); DayStartByDay(earlier); }
  }

  lemma LeadTimeIsAccepted(clock: int)
    requires clock + LEAD_TIME < WindowEnd(clock)
    ensures StartAtFrom((clock + LEAD_TIME + KST) % DAY, clock) == Ok(clock + LEAD_TIME)
  {
    var timeOfDay := (clock + LEAD_TIME + KST) % DAY;
    var next := NextAt(timeOfDay, clock);
    NextOccurrenceExists(timeOfDay, clock);
    assert HasTimeOfDay(clock + LEAD_TIME, timeOfDay);
    OccursOnceADay(timeOfDay, next, clock + LEAD_TIME);
    StartAtFromIsNextOccurrence(timeOfDay, clock, next);
  }
}

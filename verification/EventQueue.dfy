/** One consumer's code, statement by statement, over tables it updates in place; and that a pass of it is a run of
    the protocol, so everything proved of all interleavings holds of it. */
module EventQueue {
  import opened Common
  import opened RecordsModel
  import opened MatchTable
  import opened Consumers
  import opened Retries

  /** Where an attempt raises, if it does. Whatever it had written by then is rolled back to the savepoint. */
  datatype Fault = NoFault | BeforeTheWrite | AfterTheWrite

  class RecordsTables {
    var rooms: Rooms
    var events: Events
    var matches: Matches
    var nextMatch: int

    /** The committed tables, with no transaction open. */
    ghost function View(): State reads this { State(rooms, events, matches, nextMatch, map[]) }

    constructor ()
      ensures View() == START
    {
      rooms, events, matches, nextMatch := map[], map[], map[], 1;
    }

    /** The oldest due event, or none. */
    method ClaimEvent(now: int) returns (claimed: Option<int>)
      ensures claimed == None ==> forall id :: !View().Due(id, now)
      ensures claimed.Some? ==> View().Due(claimed.value, now) && forall id | View().Due(id, now) :: claimed.value <= id
    {
      claimed := None;
      var left := events.Keys;
      while left != {}
        invariant left <= events.Keys
        invariant claimed.Some? ==> View().Due(claimed.value, now)
        invariant forall id | View().Due(id, now) && id !in left :: claimed.Some? && claimed.value <= id
        decreases left
      {
        ghost var another := Pick(left);
        assert another in left;
        var id: int :| id in left;
        var row := events[id];
        if row.status == Pending && row.availableAt <= now && (claimed == None || id < claimed.value) {
          assert View().Due(id, now);
          claimed := Some(id);
        }
        left := left - {id};
      }
    }

    /** The newest room that has the player and covers the moment. */
    method FindRankRoom(npid: Npid, at: int) returns (found: Option<int>)
      ensures IsRankRoom(rooms, npid, at, found)
      ensures found.Some? ==>
                && found.value in rooms && (rooms[found.value].user1 == npid || rooms[found.value].user2 == npid)
                && rooms[found.value].createdAt <= at && rooms[found.value].lastSeenAt >= at - 90 * SECOND
    {
      found := None;
      var left := rooms.Keys;
      while left != {}
        invariant left <= rooms.Keys
        invariant found.Some? ==> found.value in rooms && rooms[found.value].Covers(npid, at)
        invariant forall r | r in rooms && r !in left && rooms[r].Covers(npid, at) ::
                    found.Some? && rooms[r].createdAt <= rooms[found.value].createdAt
        decreases left
      {
        ghost var another := Pick(left);
        assert another in left;
        var r: int :| r in left;
        if rooms[r].Covers(npid, at) && (found == None || rooms[r].createdAt > rooms[found.value].createdAt) {
          found := Some(r);
        }
        left := left - {r};
      }
    }

    method FinishEvent(id: int)
      requires id in events
      modifies this`events
      ensures events == MarkDone(old(events), id)
    {
      events := events[id := events[id].(status := Done)];
    }

    method FailEvent(id: int, event: Event, now: int)
      modifies this`events
      ensures events == old(events)[id := Retried(event, now)]
    {
      var attempts := event.attempts + 1;
      var status := if attempts >= MAX_ATTEMPTS then Dead else Pending;
      var availableAt := now + RETRY_DELAY * attempts;
      events := events[id := event.(attempts := attempts, availableAt := availableAt, status := status)];
    }

    /** Put the event on the nearest match of the room that has the same winner and misses the side. */
    method FillSide(id: int, event: Event, room: int, seat: Seat) returns (filled: bool, ghost pick: Option<int>)
      modifies this`matches
      ensures IsPick(old(matches), room, seat, event.savedAt, pick) && filled == pick.Some?
      ensures matches == if filled then ApplyWrite(old(matches), Fill(pick.value), seat.side, id) else old(matches)
      ensures filled ==> Candidate(old(matches), pick.value, room, seat, event.savedAt)
      ensures forall other | Candidate(old(matches), other, room, seat, event.savedAt) ::
                filled && Abs(old(matches)[pick.value].playedAt - event.savedAt)
                          <= Abs(old(matches)[other].playedAt - event.savedAt)
    {
      var best := NearestMatch(room, seat, event.savedAt);
      forall other | Candidate(matches, other, room, seat, event.savedAt)
        ensures best.Some? && best.value in matches
        ensures Abs(matches[best.value].playedAt - event.savedAt) <= Abs(matches[other].playedAt - event.savedAt)
      {
        PickIsNearest(matches, room, seat, event.savedAt, best, other);
      }
      pick := best;
      filled := best.Some?;
      if filled {
        matches := matches[best.value := matches[best.value].WithEvent(seat.side, id)];
      }
    }

    method NearestMatch(room: int, seat: Seat, at: int) returns (best: Option<int>)
      ensures IsPick(matches, room, seat, at, best)
    {
      best := None;
      var left := matches.Keys;
      while left != {}
        invariant left <= matches.Keys
        invariant best.Some? ==> Candidate(matches, best.value, room, seat, at)
        invariant forall m | Candidate(matches, m, room, seat, at) && m !in left ::
                    best.Some? && Distance(matches, best.value, at) <= Distance(matches, m, at)
        decreases left
      {
        ghost var another := Pick(left);
        assert another in left;
        var m: int :| m in left;
        if Candidate(matches, m, room, seat, at)
           && (best == None || Distance(matches, m, at) < Distance(matches, best.value, at)) {
          best := Some(m);
        }
        left := left - {m};
      }
    }

    method AddMatch(id: int, event: Event, seat: Seat)
      requires seat.room.Some? ==> seat.room.value in rooms
      modifies this`matches, this`nextMatch
      ensures matches == ApplyWrite(old(matches), Add(old(nextMatch), NewRow(rooms, id, event, seat)), seat.side, id)
      ensures nextMatch == old(nextMatch) + 1
    {
      matches := matches[nextMatch := NewRow(rooms, id, event, seat)];
      nextMatch := nextMatch + 1;
    }

    /** Find the event's room, then fill the nearest waiting match of it or, when there is none, add a row. */
    method Resolve(id: int, event: Event) returns (ghost room: Option<int>, ghost pick: Option<int>)
      modifies this`matches, this`nextMatch
      ensures IsRankRoom(rooms, event.npid, event.savedAt, room)
      ensures Resolved(old(View()), View(), id, event, room, pick)
    {
      var found := FindRankRoom(event.npid, event.savedAt);
      room, pick := found, None;
      var seat := SeatFor(rooms, event, found);
      if found == None {
        AddMatch(id, event, seat);
        return;
      }
      var filled;
      filled, pick := FillSide(id, event, found.value, seat);
      if !filled {
        AddMatch(id, event, seat);
      }
    }

    /** Resolve and finish the event, or go back to where the attempt began and record a retry. */
    method Attempt(id: int, event: Event, now: int, fault: Fault)
        returns (ghost room: Option<int>, ghost pick: Option<int>)
      requires id in events
      modifies this
      ensures fault == NoFault ==>
                exists resolved :: Resolved(old(View()), resolved, id, event, room, pick)
                  && View() == resolved.(events := MarkDone(old(events), id))
      ensures fault == BeforeTheWrite ==> View() == old(View()).(events := old(events)[id := Retried(event, now)])
      ensures fault == AfterTheWrite ==>
                exists resolved :: Resolved(old(View()), resolved, id, event, room, pick)
                  && View() == old(View()).(events := old(events)[id := Retried(event, now)],
                      nextMatch := resolved.nextMatch)
      ensures fault != BeforeTheWrite ==> IsRankRoom(old(rooms), event.npid, event.savedAt, room)
    {
      room, pick := None, None;
      var savepoint := (events, matches);
      if fault != BeforeTheWrite {
        room, pick := Resolve(id, event);
        ghost var resolved := View();
        assert Resolved(old(View()), resolved, id, event, room, pick);
        FinishEvent(id);
        assert View() == resolved.(events := MarkDone(old(events), id));
      }
      if fault != NoFault {
        events, matches := savepoint.0, savepoint.1;
        FailEvent(id, event, now);
      }
    }

    /** One pass. With nothing due it answers false and changes nothing. Otherwise it takes the least due event and
        leaves every other and all rooms alone: without a fault the event is done and settled on one row, with one it
        has one more attempt and the matches are as they were. Either way the pass is a run that commits once. */
    method ProcessNext(now: int, fault: Fault) returns (worked: bool, ghost id: int)
      modifies this
      ensures rooms == old(rooms)
      ensures !worked ==> View() == old(View())
      ensures !worked ==> forall e | e in events :: events[e].status != Pending || events[e].availableAt > now
      ensures worked ==>
                && id in old(events) && old(events)[id].status == Pending && old(events)[id].availableAt <= now
                && (forall e | e in old(events) && e < id ::
                      old(events)[e].status != Pending || old(events)[e].availableAt > now)
      ensures worked && fault == NoFault ==>
                && events == old(events)[id := old(events)[id].(status := Done)]
                && (old(Inv(View())) ==> exists m :: Settled(rooms, old(matches), matches, id, old(events)[id], m))
      ensures worked && fault != NoFault ==>
                && matches == old(matches)
                && var attempts := old(events)[id].attempts + 1;
                   events == old(events)[id := old(events)[id].(attempts := attempts,
                                                                availableAt := now + 30 * SECOND * attempts,
                                                                status := if attempts >= 5 then Dead else Pending)]
      ensures worked ==> exists actions :: Execute(old(View()), actions) == Some(View()) && Commits(actions) == 1
      ensures old(Inv(View())) ==> Inv(View())
    {
      id := 0;
      var claimed := ClaimEvent(now);
      if claimed == None {
        DuePlainly(View(), now);
        return false, id;
      }
      id := claimed.value;
      var event := events[claimed.value];
      DuePlainly(View(), now);
      ghost var room, pick := Attempt(claimed.value, event, now, fault);
      ghost var actions := PassIsARun(old(View()), View(), id, now, fault, room, pick);
      if old(Inv(View())) {
        RunKeepsInv(old(View()), actions);
        if fault == NoFault {
          PassSettles(old(View()), View(), id, event, room, pick);
        }
      }
      return true, id;
    }
  }

  /** One side of one row holds the event: the side of its own player, won as it says. */
  ghost predicate OnOneSide(matches: Matches, id: int, event: Event, m: int) {
    && m in matches
    && (forall n | n in matches && n != m :: matches[n].e1 != Some(id) && matches[n].e2 != Some(id))
    && (matches[m].e1 == Some(id) || matches[m].e2 == Some(id))
    && (matches[m].e1 == Some(id) ==>
          && matches[m].e2 != Some(id) && matches[m].p1 == event.npid
          && (matches[m].winner == P1 <==> event.outcome == Win))
    && (matches[m].e2 == Some(id) ==>
          matches[m].p2 == Some(event.npid) && (matches[m].winner == P2 <==> event.outcome == Win))
  }

  /** A row of a room that an event won by a side could have joined on one. */
  ghost predicate Waits(row: Match, room: Option<int>, winner: Side, first: bool, at: int) {
    row.room == room && row.winner == winner && (if first then row.e1 else row.e2) == None
    && Abs(row.playedAt - at) <= 60 * SECOND
  }

  /** One row took the event: of the event's room, the nearest that waited, with nothing else of it changed; or a new
      one played when the event was saved, with its other side open, because none waited. */
  ghost predicate Settled(rooms: Rooms, before: Matches, after: Matches, id: int, event: Event, m: int) {
    && OnOneSide(after, id, event, m)
    && after.Keys == before.Keys + {m} && (forall n | n in before && n != m :: after[n] == before[n])
    && IsRankRoom(rooms, event.npid, event.savedAt, after[m].room)
    && var first, row := after[m].e1 == Some(id), after[m];
       && (forall n | n in before && row.room.Some? && Waits(before[n], row.room, row.winner, first, event.savedAt) ::
             m in before && Abs(before[m].playedAt - event.savedAt) <= Abs(before[n].playedAt - event.savedAt))
       && (m in before ==> row.room.Some? && Waits(before[m], row.room, row.winner, first, event.savedAt)
                           && row == if first then before[m].(e1 := Some(id)) else before[m].(e2 := Some(id)))
       && (m !in before ==> row.playedAt == event.savedAt && (if first then row.e2 else row.e1) == None
                            && (row.room == None ==> row.p2 == None))
  }

  lemma DuePlainly(s: State, now: int)
    requires s.consumers == map[]
    ensures forall e :: s.Due(e, now) <==>
              e in s.events && s.events[e].status == Pending && s.events[e].availableAt <= now
  {
  }

  lemma PassSettles(s: State, t: State, id: int, event: Event, room: Option<int>, pick: Option<int>)
    requires Inv(s) && id in s.events && s.events[id] == event && event.status == Pending
    requires IsRankRoom(s.rooms, event.npid, event.savedAt, room)
    requires exists resolved ::
               Resolved(s, resolved, id, event, room, pick) && t == resolved.(events := MarkDone(s.events, id))
    ensures exists m :: Settled(s.rooms, s.matches, t.matches, id, event, m)
  {
    var resolved :| Resolved(s, resolved, id, event, room, pick) && t == resolved.(events := MarkDone(s.events, id));
    var m := ResolvedSettles(s, resolved, id, event, room, pick);
    assert Settled(s.rooms, s.matches, t.matches, id, event, m);
  }

  lemma ResolvedSettles(s: State, t: State, id: int, event: Event, room: Option<int>, pick: Option<int>)
      returns (m: int)
    requires Inv(s) && id in s.events && s.events[id] == event && event.status == Pending
    requires IsRankRoom(s.rooms, event.npid, event.savedAt, room) && Resolved(s, t, id, event, room, pick)
    ensures Settled(s.rooms, s.matches, t.matches, id, event, m)
  {
    var seat := SeatFor(s.rooms, event, room);
    m := if pick.Some? then pick.value else s.nextMatch;
    PendingIsHeldNowhere(s.rooms, s.events, s.matches, id);
    forall n | n in s.matches ensures s.matches[n].e1 != Some(id) && s.matches[n].e2 != Some(id) {
      assert !HeldAt(s.matches, n, P1, id) && !HeldAt(s.matches, n, P2, id);
    }
    WinnerKeepsBothOutcomes(seat.side, event.outcome);
    if pick.Some? {
      CandidateWaits(s.matches, m, room.value, seat, event.savedAt);
      assert RowOk(s.rooms, s.events, s.matches[m]);
    }
    if room.Some? {
      forall n | n in s.matches && Waits(s.matches[n], room, seat.winner, seat.side == P1, event.savedAt)
        ensures m in s.matches
        ensures Abs(s.matches[m].playedAt - event.savedAt) <= Abs(s.matches[n].playedAt - event.savedAt)
      {
        CandidateWaits(s.matches, n, room.value, seat, event.savedAt);
        PickIsNearest(s.matches, room.value, seat, event.savedAt, pick, n);
      }
    }
  }

  /** What resolving an event does to the tables: the nearest match gets it, or a new row is added. */
  ghost predicate Resolved(s: State, t: State, id: int, event: Event, room: Option<int>, pick: Option<int>) {
    && (room.Some? ==> room.value in s.rooms)
    && var seat := SeatFor(s.rooms, event, room);
       && (room == None ==> pick == None)
       && (room.Some? ==> IsPick(s.matches, room.value, seat, event.savedAt, pick))
       && t == if pick.Some?
               then s.(matches := ApplyWrite(s.matches, Fill(pick.value), seat.side, id))
               else s.(matches := ApplyWrite(s.matches, Add(s.nextMatch, NewRow(s.rooms, id, event, seat)),
                                             seat.side, id),
                       nextMatch := s.nextMatch + 1)
  }

  lemma Extend(from: State, actions: seq<Action>, s: State, a: Action) returns (longer: seq<Action>)
    requires Execute(from, actions) == Some(s) && Enabled(s, a)
    ensures longer == actions + [a] && Execute(from, longer) == Some(Apply(s, a))
    ensures Commits(longer) == Commits(actions) + if a.Commit? then 1 else 0
  {
    longer := actions + [a];
    assert longer[..|longer| - 1] == actions;
  }

  /** The tables with one consumer part-way. */
  ghost function Alone(s: State, id: int, now: int, phase: Phase): State
    requires id in s.events
  {
    s.(consumers := map[0 := Consumer(id, s.events[id], now, phase)])
  }

  lemma SeatIsARun(s: State, id: int, now: int, room: Option<int>) returns (actions: seq<Action>)
    requires s.consumers == map[] && Enabled(s, Claim(0, id, now))
    requires IsRankRoom(s.rooms, s.events[id].npid, s.events[id].savedAt, room)
    ensures Commits(actions) == 0
    ensures Execute(s, actions) == Some(Alone(s, id, now, Seated(SeatFor(s.rooms, s.events[id], room))))
  {
    var claimed := Alone(s, id, now, Claimed);
    assert Apply(s, Claim(0, id, now)) == claimed;
    actions := Extend(s, [], s, Claim(0, id, now));
    var seated := Alone(s, id, now, Seated(SeatFor(s.rooms, s.events[id], room)));
    assert Apply(claimed, LookUp(0, room)) == seated;
    actions := Extend(s, actions, claimed, LookUp(0, room));
  }

  lemma ChoiceIsARun(s: State, before: seq<Action>, id: int, now: int, seat: Seat, pick: Option<int>)
      returns (actions: seq<Action>)
    requires id in s.events && Execute(s, before) == Some(Alone(s, id, now, Seated(seat))) && Commits(before) == 0
    requires seat.room.Some? && IsPick(s.matches, seat.room.value, seat, s.events[id].savedAt, pick)
    ensures Execute(s, actions) == Some(Alone(s, id, now, Chosen(seat, pick))) && Commits(actions) == 0
  {
    var seated, locked := Alone(s, id, now, Seated(seat)), Alone(s, id, now, Locked(seat));
    assert Apply(seated, Lock(0)) == locked;
    actions := Extend(s, before, seated, Lock(0));
    assert Apply(locked, Choose(0, pick)) == Alone(s, id, now, Chosen(seat, pick));
    actions := Extend(s, actions, locked, Choose(0, pick));
  }

  /** The steps from the claim to the write. */
  lemma WriteIsARun(s: State, id: int, now: int, room: Option<int>, pick: Option<int>, resolved: State)
      returns (actions: seq<Action>, t: State)
    requires s.consumers == map[] && Enabled(s, Claim(0, id, now))
    requires IsRankRoom(s.rooms, s.events[id].npid, s.events[id].savedAt, room)
    requires Resolved(s, resolved, id, s.events[id], room, pick)
    ensures Execute(s, actions) == Some(t) && Commits(actions) == 0
    ensures t == s.(nextMatch := resolved.nextMatch, consumers := t.consumers)
    ensures t.consumers.Keys == {0} && t.consumers[0].phase.Wrote?
    ensures t.consumers[0].id == id && t.consumers[0].event == s.events[id] && t.consumers[0].now == now
    ensures ApplyWrite(s.matches, t.consumers[0].phase.write, t.consumers[0].phase.seat.side, id) == resolved.matches
  {
    var seat := SeatFor(s.rooms, s.events[id], room);
    actions := SeatIsARun(s, id, now, room);
    var before := Alone(s, id, now, Seated(seat));
    if room.Some? {
      actions := ChoiceIsARun(s, actions, id, now, seat, pick);
      before := Alone(s, id, now, Chosen(seat, pick));
    }
    actions := Extend(s, actions, before, WriteMatch(0));
    t := Apply(before, WriteMatch(0));
  }

  ghost predicate Passed(s: State, t: State, id: int, now: int, fault: Fault, room: Option<int>, pick: Option<int>) {
    && id in s.events
    && match fault
       case NoFault => exists resolved :: Resolved(s, resolved, id, s.events[id], room, pick)
                         && t == resolved.(events := MarkDone(s.events, id))
       case BeforeTheWrite => t == s.(events := s.events[id := Retried(s.events[id], now)])
       case AfterTheWrite => exists resolved :: Resolved(s, resolved, id, s.events[id], room, pick)
                               && t == s.(events := s.events[id := Retried(s.events[id], now)],
                                   nextMatch := resolved.nextMatch)
  }

  lemma PassIsARun(s: State, t: State, id: int, now: int, fault: Fault, room: Option<int>, pick: Option<int>)
      returns (actions: seq<Action>)
    requires s.consumers == map[] && Enabled(s, Claim(0, id, now)) && Passed(s, t, id, now, fault, room, pick)
    requires fault != BeforeTheWrite ==> IsRankRoom(s.rooms, s.events[id].npid, s.events[id].savedAt, room)
    ensures Execute(s, actions) == Some(t) && Commits(actions) == 1
  {
    if fault == BeforeTheWrite {
      actions := Extend(s, [], s, Claim(0, id, now));
      actions := FailIsARun(s, actions, Apply(s, Claim(0, id, now)), 0);
    } else {
      var resolved :| Resolved(s, resolved, id, s.events[id], room, pick)
                      && t == if fault == NoFault then resolved.(events := MarkDone(s.events, id))
                              else s.(events := s.events[id := Retried(s.events[id], now)],
                                  nextMatch := resolved.nextMatch);
      var u;
      actions, u := WriteIsARun(s, id, now, room, pick, resolved);
      if fault == NoFault {
        actions := FinishIsARun(s, actions, u, 0);
      } else {
        actions := FailIsARun(s, actions, u, 0);
      }
    }
  }

  lemma FinishIsARun(from: State, before: seq<Action>, s: State, c: int) returns (actions: seq<Action>)
    requires Execute(from, before) == Some(s) && Commits(before) == 0
    requires s.consumers.Keys == {c} && s.consumers[c].phase.Wrote? && s.consumers[c].id in s.events
    ensures var k := s.consumers[c];
            Execute(from, actions) == Some(s.(events := MarkDone(s.events, k.id), consumers := map[],
                                              matches := ApplyWrite(s.matches, k.phase.write, k.phase.seat.side, k.id)))
    ensures Commits(actions) == 1
  {
    actions := Extend(from, before, s, Finish(c));
    var finished := Apply(s, Finish(c));
    actions := Extend(from, actions, finished, Commit(c));
    assert Apply(finished, Commit(c)).consumers == map[];
  }

  lemma FailIsARun(from: State, before: seq<Action>, s: State, c: int) returns (actions: seq<Action>)
    requires Execute(from, before) == Some(s) && Commits(before) == 0
    requires s.consumers.Keys == {c} && s.consumers[c].phase != Failed && s.consumers[c].id in s.events
    ensures var k := s.consumers[c];
            Execute(from, actions) == Some(s.(events := s.events[k.id := Retried(k.event, k.now)], consumers := map[]))
    ensures Commits(actions) == 1
  {
    actions := Extend(from, before, s, Fail(c));
    var failed := Apply(s, Fail(c));
    actions := Extend(from, actions, failed, Commit(c));
    assert Apply(failed, Commit(c)).consumers == map[];
  }
}

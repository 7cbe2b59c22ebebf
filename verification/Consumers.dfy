/** Any number of event consumers over one database, as steps of their transactions.

    A consumer claims a due event under a row lock, looks its room up, takes the room's advisory lock, picks a match
    to fill, writes, marks the event done and commits. An error anywhere before the commit rolls back to the savepoint
    and records a retry instead; a crash or an aborted commit loses the whole transaction. A statement sees what is
    committed when it runs (READ COMMITTED), and what a transaction writes reaches the tables only when it commits. */
module Consumers {
  import opened Common
  import opened RecordsModel
  import opened MatchTable

  const MAX_ATTEMPTS := 5
  const RETRY_DELAY := 30 * SECOND

  datatype Phase =
    | Claimed
    | Seated(seat: Seat)                         // the room lookup answered
    | Locked(seat: Seat)                         // the room's lock is held until the transaction ends
    | Chosen(seat: Seat, pick: Option<int>)      // the match to fill, if any, has been read
    | Wrote(seat: Seat, write: Write)
    | Finished(seat: Seat, write: Write)         // the event is marked done, not yet committed
    | Failed                                     // rolled back to the savepoint, the retry recorded
  {
    /** The room whose advisory lock this transaction holds. Rolling back to the savepoint releases it. */
    function HeldRoom(): Option<int> {
      if Locked? || Chosen? || Wrote? || Finished? then seat.room else None
    }

    predicate HasWrite() { Wrote? || Finished? }
  }

  /** A consumer inside a transaction: the event it locked, as it read it, and the clock it started with. */
  datatype Consumer = Consumer(id: int, event: Event, now: int, phase: Phase)

  datatype State = State(rooms: Rooms, events: Events, matches: Matches, nextMatch: int, consumers: map<int, Consumer>)
  {
    predicate RowLocked(id: int) { exists c | c in consumers :: consumers[c].id == id }

    predicate RoomLocked(room: int) { exists c | c in consumers :: consumers[c].phase.HeldRoom() == Some(room) }

    predicate Due(id: int, now: int) {
      && id in events && events[id].status == Pending && events[id].availableAt <= now && !RowLocked(id)
    }

    function With(c: int, phase: Phase): State
      requires c in consumers
    {
      this.(consumers := consumers[c := consumers[c].(phase := phase)])
    }

    function Without(c: int): State { this.(consumers := consumers - {c}) }
  }

  const START := State(map[], map[], map[], 1, map[])

  datatype Action =
    | Claim(c: int, id: int, now: int)
    | LookUp(c: int, room: Option<int>)
    | Lock(c: int)
    | Choose(c: int, pick: Option<int>)
    | WriteMatch(c: int)
    | Finish(c: int)
    | Fail(c: int)
    | Commit(c: int)
    | Crash(c: int)
    | Queue(id: int, event: Event)               // a capture committed a finished match
    | SeeRoom(r: int, seen: Room)                // the collector recorded a room
    | TouchRoom(r: int, at: int)                 // the collector saw it again

  /** An event after a failed attempt: due again after a growing delay, or buried after the last. */
  function Retried(event: Event, now: int): Event {
    var attempts := event.attempts + 1;
    event.(attempts := attempts, availableAt := now + RETRY_DELAY * attempts,
           status := if attempts >= MAX_ATTEMPTS then Dead else Pending)
  }

  ghost predicate Enabled(s: State, a: Action) {
    match a
    // A scan that skips locked rows can pass an older event that is freed before it takes a newer one.
    case Claim(c, id, now) => c !in s.consumers && s.Due(id, now)
    case LookUp(c, room) =>
      && c in s.consumers && s.consumers[c].phase == Claimed
      && IsRankRoom(s.rooms, s.consumers[c].event.npid, s.consumers[c].event.savedAt, room)
    case Lock(c) =>
      && c in s.consumers && s.consumers[c].phase.Seated? && s.consumers[c].phase.seat.room.Some?
      && !s.RoomLocked(s.consumers[c].phase.seat.room.value)
    case Choose(c, pick) =>
      && c in s.consumers && s.consumers[c].phase.Locked? && s.consumers[c].phase.seat.room.Some?
      && var k := s.consumers[c];
         IsPick(s.matches, k.phase.seat.room.value, k.phase.seat, k.event.savedAt, pick)
    case WriteMatch(c) =>
      && c in s.consumers
      && var phase := s.consumers[c].phase;
         (phase.Seated? && phase.seat.room == None)
             || (phase.Chosen? && phase.seat.room.Some? && phase.seat.room.value in s.rooms)
    case Finish(c) => c in s.consumers && s.consumers[c].phase.Wrote?
    case Fail(c) => c in s.consumers && s.consumers[c].phase != Failed
    case Commit(c) =>
      && c in s.consumers && (s.consumers[c].phase.Finished? || s.consumers[c].phase == Failed)
      && s.consumers[c].id in s.events
    case Crash(c) => c in s.consumers
    case Queue(id, event) => id !in s.events && event.status == Pending && event.attempts == 0
    case SeeRoom(r, seen) => r !in s.rooms
    case TouchRoom(r, at) => r in s.rooms
  }

  function Apply(s: State, a: Action): State
    requires Enabled(s, a)
  {
    match a
    case Claim(c, id, now) => s.(consumers := s.consumers[c := Consumer(id, s.events[id], now, Claimed)])
    case LookUp(c, room) => s.With(c, Seated(SeatFor(s.rooms, s.consumers[c].event, room)))
    case Lock(c) => s.With(c, Locked(s.consumers[c].phase.seat))
    case Choose(c, pick) => s.With(c, Chosen(s.consumers[c].phase.seat, pick))
    case WriteMatch(c) =>
      var k := s.consumers[c];
      if k.phase.Chosen? && k.phase.pick.Some? then
        s.With(c, Wrote(k.phase.seat, Fill(k.phase.pick.value)))
      else
        // The id comes from a sequence, which no rollback turns back.
        var row := NewRow(s.rooms, k.id, k.event, k.phase.seat);
        s.With(c, Wrote(k.phase.seat, Add(s.nextMatch, row))).(nextMatch := s.nextMatch + 1)
    case Finish(c) => s.With(c, Finished(s.consumers[c].phase.seat, s.consumers[c].phase.write))
    case Fail(c) => s.With(c, Failed)
    case Commit(c) =>
      var k := s.consumers[c];
      var committed :=
        if k.phase == Failed then s.(events := s.events[k.id := Retried(k.event, k.now)])
        else s.(events := MarkDone(s.events, k.id),
                matches := ApplyWrite(s.matches, k.phase.write, k.phase.seat.side, k.id));
      committed.Without(c)
    case Crash(c) => s.Without(c)
    case Queue(id, event) => s.(events := s.events[id := event])
    case SeeRoom(r, seen) => s.(rooms := s.rooms[r := seen])
    case TouchRoom(r, at) => s.(rooms := s.rooms[r := s.rooms[r].(lastSeenAt := at)])
  }

  /** The state a run of actions ends in, if each was possible when it came. */
  ghost function Execute(from: State, actions: seq<Action>): Option<State> {
    if actions == [] then Some(from) else
      var before := Execute(from, actions[..|actions| - 1]);
      var last := actions[|actions| - 1];
      if before.Some? && Enabled(before.value, last) then Some(Apply(before.value, last)) else None
  }

  // -- The invariant -----------------------------------------------------------------------

  /** What a consumer that is part-way knows is still true of the committed tables. */
  ghost predicate PhaseOk(s: State, k: Consumer) {
    match k.phase
    case Claimed => true
    case Seated(seat) => SeatOk(s.rooms, k.event, seat)
    case Locked(seat) => SeatOk(s.rooms, k.event, seat) && seat.room.Some?
    case Chosen(seat, pick) =>
      && SeatOk(s.rooms, k.event, seat) && seat.room.Some?
      && IsPick(s.matches, seat.room.value, seat, k.event.savedAt, pick)
    case Wrote(seat, write) => WriteOk(s.rooms, s.matches, k.id, k.event, seat, write)
    case Finished(seat, write) => WriteOk(s.rooms, s.matches, k.id, k.event, seat, write)
    case Failed => true
  }

  ghost predicate ConsumerOk(s: State, k: Consumer) {
    && k.id in s.events && s.events[k.id] == k.event
    && k.event.status == Pending && k.event.availableAt <= k.now
    && PhaseOk(s, k)
    && (k.phase.HasWrite() && k.phase.write.Add? ==> 0 < k.phase.write.m < s.nextMatch)
  }

  ghost predicate Apart(j: Consumer, k: Consumer) {
    && j.id != k.id
    && (j.phase.HeldRoom().Some? ==> j.phase.HeldRoom() != k.phase.HeldRoom())
    && (j.phase.HasWrite() && j.phase.write.Add? && k.phase.HasWrite() && k.phase.write.Add? ==>
          j.phase.write.m != k.phase.write.m)
  }

  ghost predicate ConsumersOk(s: State) {
    && (forall c | c in s.consumers :: ConsumerOk(s, s.consumers[c]))
    && (forall c, d | c in s.consumers && d in s.consumers && c != d :: Apart(s.consumers[c], s.consumers[d]))
  }

  /** Attempts say where an event is in the queue. */
  ghost predicate EventOk(event: Event) {
    && (event.status == Dead <==> event.attempts >= MAX_ATTEMPTS)
    && event.attempts <= MAX_ATTEMPTS
  }

  ghost predicate Inv(s: State) {
    && TableOk(s.rooms, s.events, s.matches)
    && ConsumersOk(s)
    && s.nextMatch > 0 && (forall m | m in s.matches :: 0 < m < s.nextMatch)
    && (forall id | id in s.events :: EventOk(s.events[id]))
  }

  lemma StartOk()
    ensures Inv(START)
  {
  }

  // -- Each step keeps it --------------------------------------------------------------------

  /** A step that moves only consumer c, to a phase consistent with everyone else, keeps the invariant. */
  lemma MoveKeepsInv(s: State, s': State, c: int)
    requires Inv(s) && c in s'.consumers
    requires s' == s.(consumers := s.consumers[c := s'.consumers[c]], nextMatch := s'.nextMatch)
               && s'.nextMatch >= s.nextMatch
    requires ConsumerOk(s', s'.consumers[c])
    requires forall d | d in s.consumers && d != c ::
               Apart(s.consumers[d], s'.consumers[c]) && Apart(s'.consumers[c], s.consumers[d])
    ensures Inv(s')
  {
    forall d | d in s'.consumers ensures ConsumerOk(s', s'.consumers[d]) {
      if d != c { assert ConsumerOk(s, s.consumers[d]); }
    }
    forall d, e | d in s'.consumers && e in s'.consumers && d != e ensures Apart(s'.consumers[d], s'.consumers[e]) {
      if d != c && e != c { assert Apart(s.consumers[d], s.consumers[e]); }
    }
  }

  lemma ClaimKeepsInv(s: State, a: Action)
    requires Inv(s) && Enabled(s, a) && a.Claim?
    ensures Inv(Apply(s, a))
  {
    var s' := Apply(s, a);
    forall d | d in s.consumers
      ensures Apart(s.consumers[d], s'.consumers[a.c]) && Apart(s'.consumers[a.c], s.consumers[d])
    {
      assert s.consumers[d].id != a.id;
    }
    MoveKeepsInv(s, s', a.c);
  }

  lemma StepInside(s: State, a: Action)
    requires Inv(s) && Enabled(s, a)
    requires a.LookUp? || a.Lock? || a.Choose? || a.WriteMatch? || a.Finish? || a.Fail?
    ensures Inv(Apply(s, a))
  {
    var s' := Apply(s, a);
    var c := a.c;
    assert ConsumerOk(s, s.consumers[c]);
    forall d | d in s.consumers && d != c
      ensures Apart(s.consumers[d], s'.consumers[c]) && Apart(s'.consumers[c], s.consumers[d])
    {
      assert ConsumerOk(s, s.consumers[d]);
      assert Apart(s.consumers[c], s.consumers[d]) && Apart(s.consumers[d], s.consumers[c]);
    }
    MoveKeepsInv(s, s', c);
  }

  /** Commit of a settled event: the committed tables change, everyone else's knowledge survives. */
  lemma CommitDone(s: State, c: int)
    requires Inv(s) && Enabled(s, Commit(c)) && s.consumers[c].phase.Finished?
    ensures Inv(Apply(s, Commit(c)))
  {
    var s' := Apply(s, Commit(c));
    var k := s.consumers[c];
    var seat, write := k.phase.seat, k.phase.write;
    assert ConsumerOk(s, k);
    WriteKeepsTable(s.rooms, s.events, s.matches, k.id, seat, write);
    forall d | d in s'.consumers ensures ConsumerOk(s', s'.consumers[d]) {
      assert Apart(k, s.consumers[d]) && Apart(s.consumers[d], k);
      OthersKeepPhase(s, s', k, s.consumers[d]);
    }
    forall d, e | d in s'.consumers && e in s'.consumers && d != e ensures Apart(s'.consumers[d], s'.consumers[e]) {
      assert Apart(s.consumers[d], s.consumers[e]);
    }
  }

  lemma OthersKeepPhase(s: State, s': State, k: Consumer, other: Consumer)
    requires ConsumerOk(s, k) && k.phase.Finished? && ConsumerOk(s, other) && Apart(k, other)
    requires s'.rooms == s.rooms && s'.nextMatch == s.nextMatch
    requires s'.events == MarkDone(s.events, k.id)
    requires s'.matches == ApplyWrite(s.matches, k.phase.write, k.phase.seat.side, k.id)
    ensures ConsumerOk(s', other)
  {
    var held := other.phase.HeldRoom();
    if held.Some? {
      OtherRoomFrame(s.matches, k.phase.write, k.phase.seat.side, k.id, held.value,
                     other.phase.seat, other.event.savedAt);
    }
    if other.phase.HasWrite() {
      SameWriteOk(s.rooms, s.matches, s'.matches, other.id, other.event, other.phase.seat, other.phase.write);
    }
  }

  lemma SameWriteOk(rooms: Rooms, matches: Matches, matches': Matches, id: int, event: Event, seat: Seat, write: Write)
    requires WriteOk(rooms, matches, id, event, seat, write)
    requires seat.room.Some? ==> forall pick :: IsPick(matches, seat.room.value, seat, event.savedAt, pick) ==>
                                                IsPick(matches', seat.room.value, seat, event.savedAt, pick)
    requires write.Add? ==> write.m !in matches'
    ensures WriteOk(rooms, matches', id, event, seat, write)
  {
    if seat.room.Some? {
      var pick := if write.Fill? then Some(write.m) else None;
      assert IsPick(matches, seat.room.value, seat, event.savedAt, pick);
      assert IsPick(matches', seat.room.value, seat, event.savedAt, pick);
    }
  }

  lemma CommitFailed(s: State, c: int)
    requires Inv(s) && Enabled(s, Commit(c)) && s.consumers[c].phase == Failed
    ensures Inv(Apply(s, Commit(c)))
  {
    var s' := Apply(s, Commit(c));
    var k := s.consumers[c];
    assert ConsumerOk(s, k);
    TableIgnoresUnheld(s.rooms, s.events, s'.events, s.rooms, s.matches);
    forall d | d in s'.consumers ensures ConsumerOk(s', s'.consumers[d]) {
      assert ConsumerOk(s, s.consumers[d]) && Apart(k, s.consumers[d]);
    }
    forall d, e | d in s'.consumers && e in s'.consumers && d != e ensures Apart(s'.consumers[d], s'.consumers[e]) {
      assert Apart(s.consumers[d], s.consumers[e]);
    }
  }

  ghost predicate SameRoom(rooms: Rooms, rooms': Rooms, r: int) {
    r in rooms ==>
      && r in rooms'
      && rooms'[r].user1 == rooms[r].user1 && rooms'[r].user2 == rooms[r].user2
      && rooms'[r].createdAt == rooms[r].createdAt
  }

  ghost predicate SameRooms(rooms: Rooms, rooms': Rooms) {
    forall r :: SameRoom(rooms, rooms', r)
  }

  /** Events that are not done, and rooms' last sightings, are no part of what the table promises. */
  lemma TableIgnoresUnheld(rooms: Rooms, events: Events, events': Events, rooms': Rooms, matches: Matches)
    requires TableOk(rooms, events, matches)
    requires forall id | id in events && events[id].status == Done :: id in events' && events'[id] == events[id]
    requires forall id | id in events' && events'[id].status == Done :: id in events && events[id] == events'[id]
    requires SameRooms(rooms, rooms')
    ensures TableOk(rooms', events', matches)
  {
    forall m | m in matches ensures RowOk(rooms', events', matches[m]) {
      assert RowOk(rooms, events, matches[m]);
      if matches[m].room.Some? {
        var r: int := matches[m].room.value;
        assert SameRoom(rooms, rooms', r);
      }
    }
  }

  lemma SeatIgnoresSightings(rooms: Rooms, rooms': Rooms, event: Event, seat: Seat)
    requires SameRooms(rooms, rooms') && SeatOk(rooms, event, seat)
    ensures SeatOk(rooms', event, seat)
    ensures forall id :: NewRow(rooms', id, event, seat) == NewRow(rooms, id, event, seat)
  {
    if seat.room.Some? {
      var r: int := seat.room.value;
      assert SameRoom(rooms, rooms', r);
    }
  }

  lemma OutsideKeepsConsumer(s: State, s': State, k: Consumer)
    requires ConsumerOk(s, k) && SameRooms(s.rooms, s'.rooms)
    requires s'.matches == s.matches && s'.nextMatch == s.nextMatch
    requires forall id | id in s.events :: id in s'.events && s'.events[id] == s.events[id]
    ensures ConsumerOk(s', k)
  {
    if k.phase.Seated? || k.phase.HasWrite() || k.phase.Locked? || k.phase.Chosen? {
      SeatIgnoresSightings(s.rooms, s'.rooms, k.event, k.phase.seat);
    }
  }

  lemma CrashKeepsInv(s: State, a: Action)
    requires Inv(s) && Enabled(s, a) && a.Crash?
    ensures Inv(Apply(s, a))
  {
    var s' := Apply(s, a);
    forall d | d in s'.consumers ensures ConsumerOk(s', s'.consumers[d]) {
      assert ConsumerOk(s, s.consumers[d]);
    }
    forall d, e | d in s'.consumers && e in s'.consumers && d != e ensures Apart(s'.consumers[d], s'.consumers[e]) {
      assert Apart(s.consumers[d], s.consumers[e]);
    }
  }

  /** What others commit meanwhile: events that are due to be tried, and rooms' sightings. */
  lemma OutsideKeepsInv(s: State, s': State)
    requires Inv(s) && s'.matches == s.matches && s'.nextMatch == s.nextMatch && s'.consumers == s.consumers
    requires SameRooms(s.rooms, s'.rooms)
    requires forall id | id in s.events :: id in s'.events && s'.events[id] == s.events[id]
    requires forall id | id in s'.events && id !in s.events :: EventOk(s'.events[id]) && s'.events[id].status != Done
    ensures Inv(s')
  {
    TableIgnoresUnheld(s.rooms, s.events, s'.events, s'.rooms, s.matches);
    forall d | d in s'.consumers ensures ConsumerOk(s', s'.consumers[d]) {
      OutsideKeepsConsumer(s, s', s.consumers[d]);
    }
    forall d, e | d in s'.consumers && e in s'.consumers && d != e ensures Apart(s'.consumers[d], s'.consumers[e]) {
      assert Apart(s.consumers[d], s.consumers[e]);
    }
  }

  lemma StepKeepsInv(s: State, a: Action)
    requires Inv(s) && Enabled(s, a)
    ensures Inv(Apply(s, a))
  {
    if a.Commit? {
      if s.consumers[a.c].phase == Failed { CommitFailed(s, a.c); } else { CommitDone(s, a.c); }
    } else if a.Queue? || a.SeeRoom? || a.TouchRoom? {
      OutsideKeepsInv(s, Apply(s, a));
    } else if a.Crash? {
      CrashKeepsInv(s, a);
    } else if a.Claim? {
      ClaimKeepsInv(s, a);
    } else {
      StepInside(s, a);
    }
  }

  lemma {:induction false} RunKeepsInv(from: State, actions: seq<Action>)
    requires Inv(from) && Execute(from, actions).Some?
    ensures Inv(Execute(from, actions).value)
  {
    if actions == [] {
    } else {
      RunKeepsInv(from, actions[..|actions| - 1]);
      StepKeepsInv(Execute(from, actions[..|actions| - 1]).value, actions[|actions| - 1]);
    }
  }

  // -- Main results, for every run from an empty database ---------------------------------------

  ghost predicate Reachable(s: State) {
    exists actions :: Execute(START, actions) == Some(s)
  }

  lemma ReachableOk(s: State)
    requires Reachable(s)
    ensures Inv(s)
  {
    var actions :| Execute(START, actions) == Some(s);
    StartOk();
    RunKeepsInv(START, actions);
  }

  /** Consumers wait for nothing but a locked row or room: whatever the others are at, an idle one may claim any due
      event that none of them has, and one under way may take its next step, fail or crash, locking its room as soon as
      no other holds it. New events and rooms may appear at any moment. */
  lemma OnlyLocksWait(s: State, c: int, id: int, now: int, room: Option<int>, pick: Option<int>, event: Event,
                      seen: Room)
    requires Reachable(s)
    ensures (&& c !in s.consumers && id in s.events
             && s.events[id].status == Pending && s.events[id].availableAt <= now
             && forall d | d in s.consumers :: s.consumers[d].id != id) ==> Enabled(s, Claim(c, id, now))
    ensures c in s.consumers ==>
              var k := s.consumers[c];
              && Enabled(s, Crash(c)) && (k.phase != Failed ==> Enabled(s, Fail(c)))
              && (k.phase == Claimed && IsRankRoom(s.rooms, k.event.npid, k.event.savedAt, room) ==>
                    Enabled(s, LookUp(c, room)))
              && (k.phase.Seated? && k.phase.seat.room.Some?
                  && (forall d | d in s.consumers && d != c :: s.consumers[d].phase.HeldRoom() != k.phase.seat.room) ==>
                    Enabled(s, Lock(c)))
              && (k.phase.Locked? && k.phase.seat.room.Some?
                  && IsPick(s.matches, k.phase.seat.room.value, k.phase.seat, k.event.savedAt, pick) ==>
                    Enabled(s, Choose(c, pick)))
              && (k.phase.Chosen? || (k.phase.Seated? && k.phase.seat.room == None) ==> Enabled(s, WriteMatch(c)))
              && (k.phase.Wrote? ==> Enabled(s, Finish(c)))
              && (k.phase.Finished? || k.phase == Failed ==> Enabled(s, Commit(c)))
    ensures id !in s.events && event.status == Pending && event.attempts == 0 ==> Enabled(s, Queue(id, event))
    ensures if id in s.rooms then Enabled(s, TouchRoom(id, now)) else Enabled(s, SeeRoom(id, seen))
  {
    ReachableOk(s);
    if c in s.consumers {
      assert ConsumerOk(s, s.consumers[c]);
    }
  }

  /** No missed join: never two half-seen rows of one room and winner within the window that complete each other. */
  lemma NoJoinIsMissed(s: State, m: int, n: int)
    requires Reachable(s) && m in s.matches && n in s.matches
    requires s.matches[m].room.Some? && s.matches[m].room == s.matches[n].room
               && s.matches[m].winner == s.matches[n].winner
    requires s.matches[m].e1 == None && s.matches[n].e2 == None
    ensures Abs(s.matches[m].playedAt - s.matches[n].playedAt) > SAME_MATCH_WINDOW
  {
    ReachableOk(s);
    assert !MissedJoin(s.matches[m], s.matches[n]);
  }

  /** Exactly once: an event is done iff one side of one match holds it; pending and dead events are held by none. */
  lemma ResolvedExactlyOnce(s: State, id: int)
    requires Reachable(s)
    ensures |Holders(s.matches, id)| == if id in s.events && s.events[id].status == Done then 1 else 0
  {
    ReachableOk(s);
    HeldExactlyWhenDone(s.rooms, s.events, s.matches, id);
  }

  /** Every row agrees with its events and its room, whatever happened around it: its players are the room's, or the one
      player seen; a seen side's event is done, its player's own, says what the stored winner implies and was saved
      within a minute of the match; and one of them dates it. */
  lemma RowsAgreeWithEvents(s: State, m: int)
    requires Reachable(s) && m in s.matches
    ensures var row := s.matches[m];
            && (row.room == None <==> row.p2 == None)
            && (row.room.Some? ==> row.room.value in s.rooms && row.p1 == s.rooms[row.room.value].user1
                                   && row.p2 == Some(s.rooms[row.room.value].user2))
            && (row.e1.Some? ==> SeenBy(s, row, row.e1.value) && row.p1 == s.events[row.e1.value].npid
                                 && (row.winner == P1 <==> s.events[row.e1.value].outcome == Win))
            && (row.e2.Some? ==> SeenBy(s, row, row.e2.value) && row.p2 == Some(s.events[row.e2.value].npid)
                                 && (row.winner == P2 <==> s.events[row.e2.value].outcome == Win))
            && ((row.e1.Some? && s.events[row.e1.value].savedAt == row.playedAt)
                || (row.e2.Some? && s.events[row.e2.value].savedAt == row.playedAt))
    ensures s.matches[m].e1.Some? && s.matches[m].e2.Some? ==>
              s.events[s.matches[m].e1.value].outcome != s.events[s.matches[m].e2.value].outcome
              && Abs(s.events[s.matches[m].e1.value].savedAt - s.events[s.matches[m].e2.value].savedAt)
                 <= SAME_MATCH_WINDOW
  {
    ReachableOk(s);
    assert RowOk(s.rooms, s.events, s.matches[m]);
    assert SideOk(s.rooms, s.events, s.matches[m], P1) && SideOk(s.rooms, s.events, s.matches[m], P2);
    if s.matches[m].e1.Some? && s.matches[m].e2.Some? {
      SeenSidesAgree(s.rooms, s.events, s.matches, m);
    }
  }

  ghost predicate SeenBy(s: State, row: Match, id: int) {
    && id in s.events && s.events[id].status == Done && Abs(s.events[id].savedAt - row.playedAt) <= 60 * SECOND
    && (row.room.Some? ==> row.room.value in s.rooms && s.rooms[row.room.value].createdAt <= s.events[id].savedAt)
  }

  /** At the moment a fill commits its match is still the nearest that lacks the side, and an added row still has
      no match to join: what was read under the room lock holds until the end of the transaction. */
  lemma CommittedWriteIsStillRight(s: State, c: int)
    requires Reachable(s) && Enabled(s, Commit(c)) && s.consumers[c].phase.Finished?
    ensures var k := s.consumers[c];
            k.phase.seat.room.Some? ==>
              IsPick(s.matches, k.phase.seat.room.value, k.phase.seat, k.event.savedAt,
                     if k.phase.write.Fill? then Some(k.phase.write.m) else None)
    ensures s.consumers[c].phase.write.Add? ==> s.consumers[c].phase.write.m !in s.matches
  {
    ReachableOk(s);
    assert ConsumerOk(s, s.consumers[c]);
  }

  /** Said of the rows alone: when a fill commits, no row of the room with the same winner that misses the side and was
      played within a minute of the event's save was played nearer to it; and when a row is added there is none. */
  lemma FillIsNearest(s: State, c: int, other: int)
    requires Reachable(s) && Enabled(s, Commit(c)) && s.consumers[c].phase.Finished?
    requires var k := s.consumers[c];
             && other in s.matches && s.matches[other].room.Some? && s.matches[other].room == k.phase.seat.room
             && (s.matches[other].winner == k.phase.seat.side <==> k.event.outcome == Win)
             && (if k.phase.seat.side == P1 then s.matches[other].e1 else s.matches[other].e2) == None
             && Abs(s.matches[other].playedAt - k.event.savedAt) <= 60 * SECOND
    ensures var k := s.consumers[c];
            && k.phase.write.Fill? && k.phase.write.m in s.matches
            && s.matches[k.phase.write.m].room == k.phase.seat.room
            && s.matches[k.phase.write.m].winner == s.matches[other].winner
            && var filled := s.matches[k.phase.write.m];
               && (if k.phase.seat.side == P1 then filled.e1 else filled.e2) == None
               && Abs(filled.playedAt - k.event.savedAt) <= Abs(s.matches[other].playedAt - k.event.savedAt)
  {
    CommittedWriteIsStillRight(s, c);
    ReachableOk(s);
    var k := s.consumers[c];
    assert ConsumerOk(s, k);
    var room, seat, at := k.phase.seat.room.value, k.phase.seat, k.event.savedAt;
    var pick := if k.phase.write.Fill? then Some(k.phase.write.m) else None;
    WinnerKeepsBothOutcomes(seat.side, k.event.outcome);
    CandidateWaits(s.matches, other, room, seat, at);
    PickIsNearest(s.matches, room, seat, at, pick, other);
    CandidateWaits(s.matches, k.phase.write.m, room, seat, at);
  }

  /** A row, once there, stays: who played, when, where and who won never change, and a filled side is never
      overwritten. */
  lemma RowsOnlyGainEvents(s: State, a: Action, m: int)
    requires Reachable(s) && Enabled(s, a) && m in s.matches
    ensures m in Apply(s, a).matches
    ensures var before, after := s.matches[m], Apply(s, a).matches[m];
            && after.(e1 := before.e1, e2 := before.e2) == before
            && forall side: Side | before.EventOn(side).Some? :: after.EventOn(side) == before.EventOn(side)
  {
    ReachableOk(s);
    StepOnlyAddsEvents(s, a, m);
  }

  lemma StepOnlyAddsEvents(s: State, a: Action, m: int)
    requires Inv(s) && Enabled(s, a) && m in s.matches
    ensures m in Apply(s, a).matches
    ensures var before, after := s.matches[m], Apply(s, a).matches[m];
            && after.(e1 := before.e1, e2 := before.e2) == before
            && forall side: Side | before.EventOn(side).Some? :: after.EventOn(side) == before.EventOn(side)
  {
    if a.Commit? {
      assert ConsumerOk(s, s.consumers[a.c]);
    }
  }
}

/** The match table: one row a match, a side per player, each side pointing at the event that showed it.
    States what every committed table must look like and how one write, a fill or a new row, keeps it so. */
module MatchTable {
  import opened Common
  import opened RecordsModel

  // Two saves of one match are at most this far apart, and saves of two matches of a room further.
  const SAME_MATCH_WINDOW := 60 * SECOND
  // How long after its last sighting a room still takes a save.
  const ROOM_END_SLACK := 90 * SECOND

  datatype Match = Match(playedAt: int, room: Option<int>, p1: Npid, p2: Option<Npid>, winner: Side,
                         e1: Option<int>, e2: Option<int>)
  {
    function EventOn(side: Side): Option<int> { if side == P1 then e1 else e2 }

    function PlayerOn(side: Side): Option<Npid> { if side == P1 then Some(p1) else p2 }

    function WithEvent(side: Side, id: int): Match {
      if side == P1 then this.(e1 := Some(id)) else this.(e2 := Some(id))
    }
  }

  /** A rank room as the collector recorded it. Its members never change; its last sighting does. */
  datatype Room = Room(user1: Npid, user2: Npid, createdAt: int, lastSeenAt: int)
  {
    predicate Has(npid: Npid) { user1 == npid || user2 == npid }

    predicate Covers(npid: Npid, at: int) {
      Has(npid) && createdAt <= at && lastSeenAt >= at - ROOM_END_SLACK
    }
  }

  type Matches = map<int, Match>
  type Events = map<int, Event>
  type Rooms = map<int, Room>

  /** The answer of the room lookup: the newest room that covers the moment, or that there is none. */
  ghost predicate IsRankRoom(rooms: Rooms, npid: Npid, at: int, found: Option<int>) {
    match found
    case None => forall r | r in rooms :: !rooms[r].Covers(npid, at)
    case Some(r) =>
      && r in rooms && rooms[r].Covers(npid, at)
      && forall other | other in rooms && rooms[other].Covers(npid, at) :: rooms[other].createdAt <= rooms[r].createdAt
  }

  /** Read plainly: the room has the player, was there by the moment and was seen no earlier than 90 seconds before it,
      and is the newest such; with none, every room of the player was made later or last seen earlier than that. */
  lemma RankRoomCovers(rooms: Rooms, npid: Npid, at: int, found: Option<int>)
    requires IsRankRoom(rooms, npid, at, found)
    ensures forall r | r in rooms && (rooms[r].user1 == npid || rooms[r].user2 == npid) ::
              rooms[r].createdAt > at || rooms[r].lastSeenAt < at - 90 * SECOND
              || (found.Some? && found.value in rooms && rooms[r].createdAt <= rooms[found.value].createdAt)
    ensures found.Some? ==>
              && found.value in rooms && (rooms[found.value].user1 == npid || rooms[found.value].user2 == npid)
              && rooms[found.value].createdAt <= at && rooms[found.value].lastSeenAt >= at - 90 * SECOND
  {
    forall r | r in rooms ensures found == None ==> !rooms[r].Covers(npid, at) {
    }
  }

  /** Where an event belongs: its room if one was found, its side there, and who won. */
  datatype Seat = Seat(room: Option<int>, side: Side, winner: Side)

  function SeatFor(rooms: Rooms, event: Event, room: Option<int>): Seat
    requires room.Some? ==> room.value in rooms
  {
    var user1 := if room.Some? then Some(rooms[room.value].user1) else None;
    var side := SideOf(user1, event.npid);
    Seat(room, side, Winner(side, event.outcome))
  }

  // -- One write ---------------------------------------------------------------------

  predicate Candidate(matches: Matches, m: int, room: int, seat: Seat, at: int) {
    && m in matches
    && matches[m].room == Some(room)
    && matches[m].winner == seat.winner
    && matches[m].EventOn(seat.side) == None
    && at - SAME_MATCH_WINDOW <= matches[m].playedAt <= at + SAME_MATCH_WINDOW
  }

  function Distance(matches: Matches, m: int, at: int): int
    requires m in matches
  {
    Abs(matches[m].playedAt - at)
  }

  ghost predicate Nearest(matches: Matches, m: int, room: int, seat: Seat, at: int) {
    && Candidate(matches, m, room, seat, at)
    && forall other | Candidate(matches, other, room, seat, at) ::
        Distance(matches, m, at) <= Distance(matches, other, at)
  }

  ghost predicate NoCandidate(matches: Matches, room: int, seat: Seat, at: int) {
    forall m :: !Candidate(matches, m, room, seat, at)
  }

  /** What the query that looks for a match to fill answers. */
  ghost predicate IsPick(matches: Matches, room: int, seat: Seat, at: int, pick: Option<int>) {
    if pick.Some? then Nearest(matches, pick.value, room, seat, at) else NoCandidate(matches, room, seat, at)
  }

  /** A row waits for an event: of its room and winner, missing its side, within a minute. */
  lemma CandidateWaits(matches: Matches, m: int, room: int, seat: Seat, at: int)
    ensures Candidate(matches, m, room, seat, at) <==>
              && m in matches && matches[m].room == Some(room) && matches[m].winner == seat.winner
              && (if seat.side == P1 then matches[m].e1 else matches[m].e2) == None
              && Abs(matches[m].playedAt - at) <= 60 * SECOND
  {
  }

  /** What is picked was played no further from the moment than any row that waits. */
  lemma PickIsNearest(matches: Matches, room: int, seat: Seat, at: int, pick: Option<int>, other: int)
    requires IsPick(matches, room, seat, at, pick) && Candidate(matches, other, room, seat, at)
    ensures pick.Some? && pick.value in matches
    ensures Abs(matches[pick.value].playedAt - at) <= Abs(matches[other].playedAt - at)
  {
    assert pick.Some? && Nearest(matches, pick.value, room, seat, at);
    assert Distance(matches, pick.value, at) <= Distance(matches, other, at);
  }

  datatype Write = Fill(m: int) | Add(m: int, row: Match)

  /** The row a new match starts as: the room's two members, or the one player seen. */
  function NewRow(rooms: Rooms, id: int, event: Event, seat: Seat): Match
    requires seat.room.Some? ==> seat.room.value in rooms
  {
    var blank := match seat.room
      case None => Match(event.savedAt, None, event.npid, None, seat.winner, None, None)
      case Some(r) => Match(event.savedAt, Some(r), rooms[r].user1, Some(rooms[r].user2), seat.winner, None, None);
    blank.WithEvent(seat.side, id)
  }

  function ApplyWrite(matches: Matches, write: Write, side: Side, id: int): Matches {
    match write
    case Fill(m) => if m in matches then matches[m := matches[m].WithEvent(side, id)] else matches
    case Add(m, row) => matches[m := row]
  }

  /** What makes a write the right one for an event: the nearest match still missing its side, or, when the room
      has none, a new row. */
  ghost predicate WriteOk(rooms: Rooms, matches: Matches, id: int, event: Event, seat: Seat, write: Write) {
    && SeatOk(rooms, event, seat)
    && match write
       case Fill(m) => seat.room.Some? && Nearest(matches, m, seat.room.value, seat, event.savedAt)
       case Add(m, row) =>
         && m !in matches
         && row == NewRow(rooms, id, event, seat)
         && (seat.room.Some? ==> NoCandidate(matches, seat.room.value, seat, event.savedAt))
  }

  ghost predicate SeatOk(rooms: Rooms, event: Event, seat: Seat) {
    && (seat.room.Some? ==> seat.room.value in rooms && rooms[seat.room.value].Has(event.npid)
                            && rooms[seat.room.value].createdAt <= event.savedAt)
    && seat == SeatFor(rooms, event, seat.room)
  }

  // -- What every committed table satisfies ----------------------------------------------

  ghost predicate HeldAt(matches: Matches, m: int, side: Side, id: int) {
    m in matches && matches[m].EventOn(side) == Some(id)
  }

  /** The event on a side is that side's player's own, says what the winner implies, and was saved within the
      window of the match and inside its room's life. */
  ghost predicate SideOk(rooms: Rooms, events: Events, row: Match, side: Side) {
    row.EventOn(side).Some? ==>
      var id := row.EventOn(side).value;
      && id in events
      && events[id].status == Done
      && row.PlayerOn(side) == Some(events[id].npid)
      && events[id].outcome == OutcomeOf(side, row.winner)
      && Abs(events[id].savedAt - row.playedAt) <= SAME_MATCH_WINDOW
      && (row.room.Some? ==> row.room.value in rooms && rooms[row.room.value].createdAt <= events[id].savedAt)
  }

  /** Some side's event was there first, and dates the match. */
  ghost predicate DatedBy(events: Events, row: Match, side: Side) {
    row.EventOn(side).Some? && row.EventOn(side).value in events
    && events[row.EventOn(side).value].savedAt == row.playedAt
  }

  ghost predicate RowOk(rooms: Rooms, events: Events, row: Match) {
    && (row.room == None <==> row.p2 == None)
    && (row.room.Some? ==> row.room.value in rooms
                           && row.p1 == rooms[row.room.value].user1 && row.p2 == Some(rooms[row.room.value].user2))
    && SideOk(rooms, events, row, P1)
    && SideOk(rooms, events, row, P2)
    && (DatedBy(events, row, P1) || DatedBy(events, row, P2))
  }

  ghost predicate RowsOk(rooms: Rooms, events: Events, matches: Matches) {
    forall m | m in matches :: RowOk(rooms, events, matches[m])
  }

  ghost predicate HeldOnce(matches: Matches) {
    forall m, s, n, t, id | HeldAt(matches, m, s, id) && HeldAt(matches, n, t, id) :: m == n && s == t
  }

  ghost predicate Held(matches: Matches, id: int) {
    exists m, s :: HeldAt(matches, m, s, id)
  }

  ghost predicate DoneAreHeld(events: Events, matches: Matches) {
    forall id | id in events && events[id].status == Done :: Held(matches, id)
  }

  /** Two rows that should have been one: same room, same winner, close in time, each missing the side the other has. */
  ghost predicate MissedJoin(a: Match, b: Match) {
    && a.room.Some? && a.room == b.room && a.winner == b.winner
    && a.e1 == None && b.e2 == None
    && Abs(a.playedAt - b.playedAt) <= SAME_MATCH_WINDOW
  }

  ghost predicate NoMissedJoin(matches: Matches) {
    forall m, n | m in matches && n in matches :: !MissedJoin(matches[m], matches[n])
  }

  ghost predicate TableOk(rooms: Rooms, events: Events, matches: Matches) {
    && RowsOk(rooms, events, matches)
    && HeldOnce(matches)
    && DoneAreHeld(events, matches)
    && NoMissedJoin(matches)
  }

  // -- One committed write keeps it so -------------------------------------------------------

  function MarkDone(events: Events, id: int): Events
    requires id in events
  {
    events[id := events[id].(status := Done)]
  }

  ghost predicate Settles(rooms: Rooms, events: Events, matches: Matches, id: int, seat: Seat, write: Write) {
    && id in events && events[id].status == Pending
    && WriteOk(rooms, matches, id, events[id], seat, write)
  }

  /** Filling or adding, with the event marked done, keeps every property of the table. */
  lemma WriteKeepsTable(rooms: Rooms, events: Events, matches: Matches, id: int, seat: Seat, write: Write)
    requires TableOk(rooms, events, matches)
    requires Settles(rooms, events, matches, id, seat, write)
    ensures TableOk(rooms, MarkDone(events, id), ApplyWrite(matches, write, seat.side, id))
  {
    PendingIsHeldNowhere(rooms, events, matches, id);
    WriteKeepsRows(rooms, events, matches, id, seat, write);
    WriteKeepsHeldOnce(rooms, events, matches, id, seat, write);
    WriteHoldsDone(rooms, events, matches, id, seat, write);
    WriteMissesNoJoin(rooms, events, matches, id, seat, write);
  }

  lemma HeldAreDone(rooms: Rooms, events: Events, matches: Matches)
    requires RowsOk(rooms, events, matches)
    ensures forall m, s, id | HeldAt(matches, m, s, id) :: id in events && events[id].status == Done
  {
    forall m, s, id | HeldAt(matches, m, s, id) ensures id in events && events[id].status == Done {
      assert RowOk(rooms, events, matches[m]);
    }
  }

  lemma PendingIsHeldNowhere(rooms: Rooms, events: Events, matches: Matches, id: int)
    requires RowsOk(rooms, events, matches)
    requires id !in events || events[id].status != Done
    ensures !Held(matches, id)
  {
    HeldAreDone(rooms, events, matches);
  }

  /** The row a write leaves behind. */
  function WrittenRow(matches: Matches, write: Write, side: Side, id: int): Match
    requires write.Fill? ==> write.m in matches
  {
    match write
    case Fill(m) => matches[m].WithEvent(side, id)
    case Add(_, row) => row
  }

  lemma WriteKeepsRows(rooms: Rooms, events: Events, matches: Matches, id: int, seat: Seat, write: Write)
    requires RowsOk(rooms, events, matches)
    requires Settles(rooms, events, matches, id, seat, write)
    ensures RowsOk(rooms, MarkDone(events, id), ApplyWrite(matches, write, seat.side, id))
  {
    var events' := MarkDone(events, id);
    var matches' := ApplyWrite(matches, write, seat.side, id);
    forall m | m in matches' ensures RowOk(rooms, events', matches'[m]) {
      if m == write.m {
        WrittenRowOk(rooms, events, matches, id, seat, write);
      } else {
        OldRowStaysOk(rooms, events, matches[m], id);
      }
    }
  }

  lemma OldRowStaysOk(rooms: Rooms, events: Events, row: Match, id: int)
    requires RowOk(rooms, events, row)
    requires id in events && events[id].status != Done
    ensures RowOk(rooms, MarkDone(events, id), row)
  {
  }

  lemma WrittenRowOk(rooms: Rooms, events: Events, matches: Matches, id: int, seat: Seat, write: Write)
    requires RowsOk(rooms, events, matches)
    requires Settles(rooms, events, matches, id, seat, write)
    ensures RowOk(rooms, MarkDone(events, id), WrittenRow(matches, write, seat.side, id))
  {
    var event := events[id];
    WinnerKeepsBothOutcomes(seat.side, event.outcome);
    if write.Fill? {
      var before := matches[write.m];
      assert RowOk(rooms, events, before);
      OldRowStaysOk(rooms, events, before, id);
      assert before.PlayerOn(seat.side) == Some(event.npid);
    }
  }

  lemma WriteKeepsHeldOnce(rooms: Rooms, events: Events, matches: Matches, id: int, seat: Seat, write: Write)
    requires HeldOnce(matches) && !Held(matches, id)
    requires Settles(rooms, events, matches, id, seat, write)
    ensures HeldOnce(ApplyWrite(matches, write, seat.side, id))
  {
    var matches' := ApplyWrite(matches, write, seat.side, id);
    forall m, s, e | HeldAt(matches', m, s, e)
      ensures (m == write.m && s == seat.side && e == id) || HeldAt(matches, m, s, e)
    {
    }
    assert forall m, s :: !HeldAt(matches, m, s, id);
  }

  lemma WriteHoldsDone(rooms: Rooms, events: Events, matches: Matches, id: int, seat: Seat, write: Write)
    requires DoneAreHeld(events, matches)
    requires Settles(rooms, events, matches, id, seat, write)
    ensures DoneAreHeld(MarkDone(events, id), ApplyWrite(matches, write, seat.side, id))
  {
    var matches' := ApplyWrite(matches, write, seat.side, id);
    assert HeldAt(matches', write.m, seat.side, id);
    forall e | e in events && events[e].status == Done ensures Held(matches', e) {
      var m, s :| HeldAt(matches, m, s, e);
      assert HeldAt(matches', m, s, e);
    }
  }

  /** The heart of the room lock's purpose: a row is added only when no row is waiting for it. */
  lemma WriteMissesNoJoin(rooms: Rooms, events: Events, matches: Matches, id: int, seat: Seat, write: Write)
    requires RowsOk(rooms, events, matches) && NoMissedJoin(matches)
    requires Settles(rooms, events, matches, id, seat, write)
    ensures NoMissedJoin(ApplyWrite(matches, write, seat.side, id))
  {
    var matches' := ApplyWrite(matches, write, seat.side, id);
    forall m, n | m in matches' && n in matches' ensures !MissedJoin(matches'[m], matches'[n]) {
      if m != write.m && n != write.m {
        assert !MissedJoin(matches[m], matches[n]);
      } else if write.Add? && seat.room.Some? {
        var other := if m == write.m then n else m;
        assert !Candidate(matches, other, seat.room.value, seat, events[id].savedAt);
      } else if write.Fill? {
        assert !MissedJoin(matches[m], matches[n]);
      }
    }
  }

  // -- Rows of other rooms do not matter ------------------------------------------------------

  /** A write into another room, or into none, changes nothing the queries of this room see. */
  lemma OtherRoomFrame(matches: Matches, write: Write, side: Side, id: int, room: int, seat: Seat, at: int)
    requires write.Fill? ==> write.m in matches && matches[write.m].room != Some(room)
    requires write.Add? ==> write.m !in matches && write.row.room != Some(room)
    ensures forall m :: Candidate(ApplyWrite(matches, write, side, id), m, room, seat, at) <==>
              Candidate(matches, m, room, seat, at)
    ensures forall pick :: IsPick(matches, room, seat, at, pick) ==>
              IsPick(ApplyWrite(matches, write, side, id), room, seat, at, pick)
  {
    var matches' := ApplyWrite(matches, write, side, id);
    forall m ensures Candidate(matches', m, room, seat, at) <==> Candidate(matches, m, room, seat, at) {
    }
    forall m | Candidate(matches, m, room, seat, at) ensures Distance(matches', m, at) == Distance(matches, m, at) {
    }
  }

  // -- Read off any table that satisfies the above ------------------------------------------------

  ghost function Holders(matches: Matches, id: int): set<(int, Side)> {
    set m, s: Side | m in matches && matches[m].EventOn(s) == Some(id) :: (m, s)
  }

  /** Exactly once: a done event is on one side of one match, any other event on none. */
  lemma HeldExactlyWhenDone(rooms: Rooms, events: Events, matches: Matches, id: int)
    requires TableOk(rooms, events, matches)
    ensures |Holders(matches, id)| == if id in events && events[id].status == Done then 1 else 0
  {
    if id in events && events[id].status == Done {
      var m, s :| HeldAt(matches, m, s, id);
      forall h | h in Holders(matches, id) ensures h == (m, s) {
        assert HeldAt(matches, h.0, h.1, id);
      }
      assert (m, s) in Holders(matches, id);
      assert Holders(matches, id) == {(m, s)};
    } else {
      PendingIsHeldNowhere(rooms, events, matches, id);
      assert forall m, s :: !HeldAt(matches, m, s, id);
      assert Holders(matches, id) == {};
    }
  }

  /** Two seen sides of a match are two different players' events, one won and one lost, saved within the window. */
  lemma SeenSidesAgree(rooms: Rooms, events: Events, matches: Matches, m: int)
    requires TableOk(rooms, events, matches)
    requires m in matches && matches[m].e1.Some? && matches[m].e2.Some?
    ensures var a, b := matches[m].e1.value, matches[m].e2.value;
            && a in events && b in events && a != b
            && events[a].outcome != events[b].outcome
            && Abs(events[a].savedAt - events[b].savedAt) <= SAME_MATCH_WINDOW
            && matches[m].room.Some?
            && events[a].npid == rooms[matches[m].room.value].user1
            && events[b].npid == rooms[matches[m].room.value].user2
  {
    var row := matches[m];
    assert RowOk(rooms, events, row);
    if row.e1 == row.e2 {
      assert HeldAt(matches, m, P1, row.e1.value) && HeldAt(matches, m, P2, row.e1.value);
    }
    WinnerKeepsBothOutcomes(P1, events[row.e1.value].outcome);
  }
}

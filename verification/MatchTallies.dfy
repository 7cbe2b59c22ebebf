/** What the weekly top and the frequent-opponents queries count, and what those counts amount to. */
module MatchTallies {
  import opened Common
  import opened RecordsModel
  import opened MatchTable
  import opened Consumers

  /** Every match once per player: one row of the union the tallies read. */
  ghost predicate CountedFor(matches: Matches, rooms: Rooms, m: int, side: Side, npid: Npid, since: int) {
    && m in matches
    && matches[m].PlayerOn(side) == Some(npid)
    && matches[m].EventOn(side).Some?
    && matches[m].PlayerOn(side.Other()).Some?
    && matches[m].playedAt >= since
    // The inner join on the room drops nothing: a match with an opponent has its room.
    && matches[m].room.Some? && matches[m].room.value in rooms
  }

  /** The matches the weekly top counts for a player as won, or as lost. */
  ghost function Counted(s: State, npid: Npid, since: int, won: bool): set<(int, Side)> {
    set m, side: Side | m in s.matches && CountedFor(s.matches, s.rooms, m, side, npid, since)
                        && (s.matches[m].winner == side) == won :: (m, side)
  }

  ghost predicate InRoomSince(matches: Matches, id: int, since: int) {
    exists m, side :: HeldAt(matches, m, side, id) && matches[m].room.Some? && matches[m].playedAt >= since
  }

  /** The player's own events with one outcome that were resolved into a room's match of the period. */
  ghost function Resolved(s: State, npid: Npid, since: int, outcome: Outcome): set<int> {
    set id | id in s.events && s.events[id].status == Done && s.events[id].npid == npid
             && s.events[id].outcome == outcome && InRoomSince(s.matches, id, since)
  }

  ghost function EventAt(matches: Matches, seat: (int, Side)): int {
    if seat.0 in matches && matches[seat.0].EventOn(seat.1).Some? then matches[seat.0].EventOn(seat.1).value else 0
  }

  /** End to end: a player's counted wins are their done win events resolved into a room, and so for losses. */
  lemma TalliesCountResolvedEvents(s: State, npid: Npid, since: int, outcome: Outcome)
    requires Reachable(s)
    ensures |Counted(s, npid, since, outcome == Win)| == |Resolved(s, npid, since, outcome)|
  {
    ReachableOk(s);
    var counted, resolved := Counted(s, npid, since, outcome == Win), Resolved(s, npid, since, outcome);
    var f := (seat: (int, Side)) => EventAt(s.matches, seat);
    forall seat | seat in counted ensures f(seat) in resolved {
      var id := EventAt(s.matches, seat);
      assert RowOk(s.rooms, s.events, s.matches[seat.0]);
      assert HeldAt(s.matches, seat.0, seat.1, id);
    }
    forall x, y | x in counted && y in counted && f(x) == f(y) ensures x == y {
      assert HeldAt(s.matches, x.0, x.1, f(x)) && HeldAt(s.matches, y.0, y.1, f(x));
    }
    forall id | id in resolved ensures exists seat :: seat in counted && f(seat) == id {
      var seat := SeatOf(s, npid, since, outcome, id);
    }
    ImageSize(counted, resolved, f);
  }

  lemma SeatOf(s: State, npid: Npid, since: int, outcome: Outcome, id: int) returns (seat: (int, Side))
    requires Inv(s) && id in Resolved(s, npid, since, outcome)
    ensures seat in Counted(s, npid, since, outcome == Win) && EventAt(s.matches, seat) == id
  {
    var m, side :| HeldAt(s.matches, m, side, id) && s.matches[m].room.Some? && s.matches[m].playedAt >= since;
    assert RowOk(s.rooms, s.events, s.matches[m]);
    assert CountedFor(s.matches, s.rooms, m, side, npid, since);
    seat := (m, side);
  }

  // -- Against one opponent -----------------------------------------------------------------

  /** The matches the frequent-opponents query counts for a player against one opponent. */
  ghost function Against(s: State, npid: Npid, opponent: Npid, since: int, won: bool): set<(int, Side)> {
    set seat | seat in Counted(s, npid, since, won) && s.matches[seat.0].PlayerOn(seat.1.Other()) == Some(opponent)
  }

  /** Every counted match is against one opponent, so the opponents' counts add up to the weekly top's. */
  lemma OpponentsAddUp(s: State, npid: Npid, opponents: seq<Npid>, since: int, won: bool)
    requires forall i, j | 0 <= i < j < |opponents| :: opponents[i] != opponents[j]
    requires forall m, side: Side | m in s.matches && s.matches[m].PlayerOn(side).Some? ::
               s.matches[m].PlayerOn(side).value in opponents
    ensures SumAgainst(s, npid, opponents, since, won) == |Counted(s, npid, since, won)|
  {
    SumIsCounted(s, npid, opponents, since, won);
    forall seat | seat in Counted(s, npid, since, won) ensures seat in CountedAgainst(s, npid, opponents, since, won) {
      var opponent := s.matches[seat.0].PlayerOn(seat.1.Other());
      assert opponent.value in opponents;
    }
    assert CountedAgainst(s, npid, opponents, since, won) == Counted(s, npid, since, won);
  }

  lemma {:induction false} SumIsCounted(s: State, npid: Npid, opponents: seq<Npid>, since: int, won: bool)
    requires forall i, j | 0 <= i < j < |opponents| :: opponents[i] != opponents[j]
    ensures SumAgainst(s, npid, opponents, since, won) == |CountedAgainst(s, npid, opponents, since, won)|
  {
    if opponents == [] {
      assert CountedAgainst(s, npid, opponents, since, won) == {};
    } else {
      var init, last := opponents[..|opponents| - 1], opponents[|opponents| - 1];
      SumIsCounted(s, npid, init, since, won);
      assert opponents == init + [last];
      OneMoreOpponent(s, npid, init, last, since, won);
    }
  }

  lemma OneMoreOpponent(s: State, npid: Npid, opponents: seq<Npid>, last: Npid, since: int, won: bool)
    requires last !in opponents
    ensures |CountedAgainst(s, npid, opponents + [last], since, won)|
         == |CountedAgainst(s, npid, opponents, since, won)| + |Against(s, npid, last, since, won)|
  {
    var before, more := CountedAgainst(s, npid, opponents, since, won), Against(s, npid, last, since, won);
    assert forall o :: o in opponents + [last] <==> o in opponents || o == last;
    assert before !! more && CountedAgainst(s, npid, opponents + [last], since, won) == before + more;
  }

  ghost function CountedAgainst(s: State, npid: Npid, opponents: seq<Npid>, since: int, won: bool): set<(int, Side)> {
    set seat | seat in Counted(s, npid, since, won)
               && s.matches[seat.0].PlayerOn(seat.1.Other()).Some?
               && s.matches[seat.0].PlayerOn(seat.1.Other()).value in opponents
  }

  ghost function SumAgainst(s: State, npid: Npid, opponents: seq<Npid>, since: int, won: bool): nat {
    if opponents == [] then 0 else
      var last := opponents[|opponents| - 1];
      SumAgainst(s, npid, opponents[..|opponents| - 1], since, won) + |Against(s, npid, last, since, won)|
  }

  /** Those of them the opponent's own save never showed. */
  ghost function Unconfirmed(s: State, npid: Npid, opponent: Npid, since: int, won: bool): set<(int, Side)> {
    set seat | seat in Against(s, npid, opponent, since, won) && s.matches[seat.0].EventOn(seat.1.Other()) == None
  }

  ghost function Confirmed(s: State, npid: Npid, opponent: Npid, since: int, won: bool): set<(int, Side)> {
    Against(s, npid, opponent, since, won) - Unconfirmed(s, npid, opponent, since, won)
  }

  function Across(seat: (int, Side)): (int, Side) { (seat.0, seat.1.Other()) }

  /** Over the matches both saves showed, A's wins against B are B's losses against A. */
  lemma ConfirmedTalliesAreReciprocal(s: State, a: Npid, b: Npid, since: int, won: bool)
    ensures |Confirmed(s, a, b, since, won)| == |Confirmed(s, b, a, since, !won)|
  {
    ConfirmedMirror(s, a, b, since, won);
    ConfirmedMirror(s, b, a, since, !won);
    var ours, theirs := Confirmed(s, a, b, since, won), Confirmed(s, b, a, since, !won);
    forall seat | seat in theirs ensures exists x :: x in ours && Across(x) == seat {
      assert Across(Across(seat)) == seat;
    }
    ImageSize(ours, theirs, Across);
  }

  lemma ConfirmedMirror(s: State, a: Npid, b: Npid, since: int, won: bool)
    ensures forall seat | seat in Confirmed(s, a, b, since, won) :: Across(seat) in Confirmed(s, b, a, since, !won)
  {
    forall seat | seat in Confirmed(s, a, b, since, won) ensures Across(seat) in Confirmed(s, b, a, since, !won) {
      assert CountedFor(s.matches, s.rooms, seat.0, seat.1, a, since);
      assert CountedFor(s.matches, s.rooms, seat.0, seat.1.Other(), b, since);
    }
  }

  /** The two published counts differ by exactly the matches that only one of the two saves showed. */
  lemma TalliesAreReciprocal(s: State, a: Npid, b: Npid, since: int, won: bool)
    ensures |Against(s, a, b, since, won)| - |Unconfirmed(s, a, b, since, won)|
         == |Against(s, b, a, since, !won)| - |Unconfirmed(s, b, a, since, !won)|
  {
    ConfirmedTalliesAreReciprocal(s, a, b, since, won);
    SizeWithout(Against(s, a, b, since, won), Unconfirmed(s, a, b, since, won));
    SizeWithout(Against(s, b, a, since, !won), Unconfirmed(s, b, a, since, !won));
  }
}

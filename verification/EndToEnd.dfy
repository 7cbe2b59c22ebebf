/** Captures and consumers at work together: every result a save brought is accounted for in what the tallies show. */
module EndToEnd {
  import opened Common
  import opened RecordsModel
  import opened MatchTable
  import opened MatchTallies
  import Capture
  import Consumers

  type Ledger = Capture.Ledger

  /** What capture wrote and what the consumers work on. `ids` gives the queue's events, in order, the ids they have in
      the tables; the queue keeps each as it was inserted. */
  datatype State = State(ledger: Ledger, tables: Consumers.State, ids: seq<int>)

  const START := State(Capture.NO_LEDGER, Consumers.START, [])

  datatype Action =
    | Captured(answer: Capture.Answer, id: int)   // one comparison committed; a new event would get this id
    | Consumed(step: Consumers.Action)

  ghost predicate Enabled(s: State, a: Action) {
    match a
    case Captured(_, id) => id !in s.tables.events
    case Consumed(step) => !step.Queue? && Consumers.Enabled(s.tables, step)
  }

  ghost function Apply(s: State, a: Action): State
    requires Enabled(s, a)
  {
    match a
    case Captured(answer, id) =>
      var ledger := Capture.CaptureAnswer(s.ledger, answer);
      if |ledger.queue| <= |s.ledger.queue| then s.(ledger := ledger)
      else
        var event := ledger.queue[|s.ledger.queue|];
        State(ledger, s.tables.(events := s.tables.events[id := event]), s.ids + [id])
    case Consumed(step) => s.(tables := Consumers.Apply(s.tables, step))
  }

  ghost function Execute(from: State, actions: seq<Action>): Option<State> {
    if actions == [] then Some(from) else
      var before, last := Execute(from, actions[..|actions| - 1]), actions[|actions| - 1];
      if before.Some? && Enabled(before.value, last) then Some(Apply(before.value, last)) else None
  }

  /** The answers captured in a run, in order. */
  function Answers(actions: seq<Action>): seq<Capture.Answer> {
    if actions == [] then [] else
      var before, last := Answers(actions[..|actions| - 1]), actions[|actions| - 1];
      if last.Captured? then before + [last.answer] else before
  }

  // -- The queue and the table of events --------------------------------------------------------------

  /** The columns that no attempt writes. */
  ghost predicate SameResult(a: Event, b: Event) {
    a.npid == b.npid && a.dataId == b.dataId && a.outcome == b.outcome && a.chars == b.chars && a.ranks == b.ranks
    && a.savedAt == b.savedAt
  }

  ghost predicate Distinct(ids: seq<int>) { forall i, j | 0 <= i < j < |ids| :: ids[i] != ids[j] }

  /** The events of the table are those of the queue, each once. */
  ghost predicate Linked(queue: seq<Event>, ids: seq<int>, events: Events) {
    && |ids| == |queue| && Distinct(ids)
    && (forall id: int :: id in events <==> id in ids)
    && (forall i | 0 <= i < |queue| :: ids[i] in events && SameResult(queue[i], events[ids[i]]))
  }

  lemma LinkedMore(queue: seq<Event>, ids: seq<int>, events: Events, id: int, event: Event)
    requires Linked(queue, ids, events) && id !in events
    ensures Linked(queue + [event], ids + [id], events[id := event])
  {
    var queue', ids', events' := queue + [event], ids + [id], events[id := event];
    forall i | 0 <= i < |queue'| ensures ids'[i] in events' && SameResult(queue'[i], events'[ids'[i]]) {
      if i < |queue| { assert ids[i] in events; }
    }
    forall x: int ensures x in events' <==> x in ids' {
      assert x in ids' <==> x in ids || x == id;
    }
    forall i, j | 0 <= i < j < |ids'| ensures ids'[i] != ids'[j] {
      assert ids[i] in events;
    }
  }

  /** What consumers do to events leaves their results alone. */
  lemma StepKeepsResults(s: Consumers.State, a: Consumers.Action)
    requires Consumers.Inv(s) && Consumers.Enabled(s, a) && !a.Queue?
    ensures Consumers.Apply(s, a).events.Keys == s.events.Keys
    ensures forall id | id in s.events :: SameResult(s.events[id], Consumers.Apply(s, a).events[id])
  {
    if a.Commit? {
      assert Consumers.ConsumerOk(s, s.consumers[a.c]);
    }
  }

  lemma LinkedAfter(queue: seq<Event>, ids: seq<int>, events: Events, events': Events)
    requires Linked(queue, ids, events) && events'.Keys == events.Keys
    requires forall id | id in events :: SameResult(events[id], events'[id])
    ensures Linked(queue, ids, events')
  {
    forall id: int ensures id in events' <==> id in ids {
      assert id in events' <==> id in events'.Keys;
    }
  }

  // -- Every run is a run of both -------------------------------------------------------------------------

  lemma ReachMore(s: Consumers.State, a: Consumers.Action)
    requires Consumers.Reachable(s) && Consumers.Enabled(s, a)
    ensures Consumers.Reachable(Consumers.Apply(s, a))
  {
    var actions :| Consumers.Execute(Consumers.START, actions) == Some(s);
    assert (actions + [a])[..|actions|] == actions;
    assert Consumers.Execute(Consumers.START, actions + [a]) == Some(Consumers.Apply(s, a));
  }

  ghost predicate Follows(s: State, answers: seq<Capture.Answer>) {
    && s.ledger == Capture.CaptureAll(Capture.NO_LEDGER, answers)
    && Consumers.Reachable(s.tables)
    && Linked(s.ledger.queue, s.ids, s.tables.events)
  }

  lemma CaptureFollows(s: State, answers: seq<Capture.Answer>, answer: Capture.Answer, id: int)
    requires Follows(s, answers) && Enabled(s, Captured(answer, id))
    ensures Follows(Apply(s, Captured(answer, id)), answers + [answer])
  {
    assert (answers + [answer])[..|answers|] == answers;
    var after := Capture.CaptureAnswer(s.ledger, answer);
    if after.queue != s.ledger.queue {
      var e := Capture.NewInQueue(s.ledger, answer);
      ReachMore(s.tables, Consumers.Queue(id, e));
      LinkedMore(s.ledger.queue, s.ids, s.tables.events, id, e);
    }
  }

  lemma {:induction false} RunFollows(actions: seq<Action>)
    requires Execute(START, actions).Some?
    ensures Follows(Execute(START, actions).value, Answers(actions))
  {
    if actions == [] {
      assert Consumers.Execute(Consumers.START, []) == Some(Consumers.START);
    } else {
      var init, last := actions[..|actions| - 1], actions[|actions| - 1];
      RunFollows(init);
      var s := Execute(START, init).value;
      match last {
        case Captured(answer, id) => CaptureFollows(s, Answers(init), answer, id);
        case Consumed(step) =>
          ReachMore(s.tables, step);
          Consumers.ReachableOk(s.tables);
          StepKeepsResults(s.tables, step);
          LinkedAfter(s.ledger.queue, s.ids, s.tables.events, Consumers.Apply(s.tables, step).events);
      }
    }
  }

  // -- Where a player's results stand ------------------------------------------------------------------------

  ghost function EventsOf(events: Events, npid: Npid, outcome: Outcome): set<int> {
    set id | id in events && events[id].npid == npid && events[id].outcome == outcome
  }

  /** On a row without a room, or of a match before the period. */
  ghost predicate OutsideSince(matches: Matches, id: int, since: int) {
    exists m, side :: HeldAt(matches, m, side, id) && (matches[m].room == None || matches[m].playedAt < since)
  }

  ghost function Outside(s: Consumers.State, npid: Npid, since: int, outcome: Outcome): set<int> {
    set id | id in EventsOf(s.events, npid, outcome) && s.events[id].status == Done
        && OutsideSince(s.matches, id, since)
  }

  ghost function With(s: Consumers.State, npid: Npid, outcome: Outcome, status: Status): set<int> {
    set id | id in EventsOf(s.events, npid, outcome) && s.events[id].status == status
  }

  /** The queue's results of a player, counted by the ids they have. */
  ghost function IdsOf(queue: seq<Event>, ids: seq<int>, npid: Npid, outcome: Outcome): set<int>
    requires |ids| == |queue|
  {
    set i | 0 <= i < |queue| && queue[i].npid == npid && queue[i].outcome == outcome :: ids[i]
  }

  lemma {:induction false} QueueIsCounted(queue: seq<Event>, ids: seq<int>, npid: Npid, outcome: Outcome)
    requires |ids| == |queue| && Distinct(ids)
    ensures |IdsOf(queue, ids, npid, outcome)| == Capture.CountOutcome(Capture.QueuedFor(queue, npid), outcome)
  {
    if queue == [] {
      assert IdsOf(queue, ids, npid, outcome) == {};
    } else {
      var n := |queue| - 1;
      var init, last, before := queue[..n], queue[n], ids[..n];
      QueueIsCounted(init, before, npid, outcome);
      OneMoreIsCounted(init, before, last, ids[n], npid, outcome);
      assert queue == init + [last] && ids == before + [ids[n]];
    }
  }

  lemma OneMoreIsCounted(queue: seq<Event>, ids: seq<int>, event: Event, id: int, npid: Npid, outcome: Outcome)
    requires |ids| == |queue| && id !in ids
    requires |IdsOf(queue, ids, npid, outcome)| == Capture.CountOutcome(Capture.QueuedFor(queue, npid), outcome)
    ensures |IdsOf(queue + [event], ids + [id], npid, outcome)|
         == Capture.CountOutcome(Capture.QueuedFor(queue + [event], npid), outcome)
  {
    CountedOneMore(queue, event, npid, outcome);
    IdsOneMore(queue, ids, event, id, npid, outcome);
    assert id !in IdsOf(queue, ids, npid, outcome);
  }

  lemma IdsOneMore(queue: seq<Event>, ids: seq<int>, event: Event, id: int, npid: Npid, outcome: Outcome)
    requires |ids| == |queue|
    ensures IdsOf(queue + [event], ids + [id], npid, outcome)
         == IdsOf(queue, ids, npid, outcome) + if event.npid == npid && event.outcome == outcome then {id} else {}
  {
    var queue', ids' := queue + [event], ids + [id];
    assert queue'[|queue|] == event && ids'[|queue|] == id;
    assert forall i | 0 <= i < |queue| :: queue'[i] == queue[i] && ids'[i] == ids[i];
    forall x: int | x in IdsOf(queue, ids, npid, outcome) ensures x in IdsOf(queue', ids', npid, outcome) {
      var i :| 0 <= i < |queue| && queue[i].npid == npid && queue[i].outcome == outcome && ids[i] == x;
      assert queue'[i].npid == npid && ids'[i] == x;
    }
  }

  lemma CountedOneMore(queue: seq<Event>, event: Event, npid: Npid, outcome: Outcome)
    ensures Capture.CountOutcome(Capture.QueuedFor(queue + [event], npid), outcome)
         == Capture.CountOutcome(Capture.QueuedFor(queue, npid), outcome)
            + if event.npid == npid && event.outcome == outcome then 1 else 0
  {
    Capture.QueuedForAppended(queue, event, npid);
    var found := Capture.QueuedFor(queue, npid);
    if event.npid == npid {
      var next := (event.dataId, PlayerMatch(event.outcome, event.chars, event.ranks));
      assert (found + [next])[..|found|] == found;
    } else {
      assert found + [] == found;
    }
  }

  /** A result is counted in the period, resolved outside it or without a room, waiting or buried; one of these. */
  lemma ResultsStandSomewhere(s: Consumers.State, npid: Npid, since: int, outcome: Outcome)
    requires Consumers.Reachable(s)
    ensures |EventsOf(s.events, npid, outcome)| == Standing(s, npid, since, outcome)
  {
    TalliesCountResolvedEvents(s, npid, since, outcome);
    Consumers.ReachableOk(s);
    ResultsSplit(s, npid, since, outcome);
    SizeOfParts(Resolved(s, npid, since, outcome), Outside(s, npid, since, outcome),
                With(s, npid, outcome, Pending), With(s, npid, outcome, Dead));
  }

  lemma SizeOfParts<T>(a: set<T>, b: set<T>, c: set<T>, d: set<T>)
    requires a !! b && (a + b) !! c && (a + b + c) !! d
    ensures |a + b + c + d| == |a| + |b| + |c| + |d|
  {
  }

  lemma ResultsSplit(s: Consumers.State, npid: Npid, since: int, outcome: Outcome)
    requires Consumers.Inv(s)
    ensures var counted, outside := Resolved(s, npid, since, outcome), Outside(s, npid, since, outcome);
            var pending, dead := With(s, npid, outcome, Pending), With(s, npid, outcome, Dead);
            && counted !! outside && (counted + outside) !! pending && (counted + outside + pending) !! dead
            && EventsOf(s.events, npid, outcome) == counted + outside + pending + dead
  {
    var all, done := EventsOf(s.events, npid, outcome), With(s, npid, outcome, Done);
    var resolved, outside := Resolved(s, npid, since, outcome), Outside(s, npid, since, outcome);
    forall id: int ensures id in done <==> id in resolved || id in outside
                   ensures !(id in resolved && id in outside)
    {
      if id in done || id in resolved || id in outside {
        DoneStandsOnce(s, id, since);
      }
    }
    assert done == resolved + outside;
    var pending, dead := With(s, npid, outcome, Pending), With(s, npid, outcome, Dead);
    forall id: int ensures id in all <==> id in done || id in pending || id in dead {
      if id in all {
        assert s.events[id].status == Done || s.events[id].status == Pending || s.events[id].status == Dead;
      }
    }
    assert all == done + pending + dead;
  }

  lemma DoneStandsOnce(s: Consumers.State, id: int, since: int)
    requires Consumers.Inv(s) && id in s.events && s.events[id].status == Done
    ensures InRoomSince(s.matches, id, since) <==> !OutsideSince(s.matches, id, since)
  {
    var m, side :| HeldAt(s.matches, m, side, id);
    forall n, t | HeldAt(s.matches, n, t, id) ensures n == m && t == side {
    }
  }

  /** A save's count of one outcome, and what the jumps of a player's kept saves add to it. */
  ghost function Saved(save: Save, outcome: Outcome): int { if outcome == Win then save.wins else save.losses }

  ghost function Jumped(kept: seq<Save>, outcome: Outcome): int {
    if outcome == Win then Capture.JumpsBetween(kept).0 else Capture.JumpsBetween(kept).1
  }

  /** Where a player's results of one outcome stand: in the period's tally, resolved earlier or without a room, waiting
      for an attempt, or buried. */
  ghost function Standing(s: Consumers.State, npid: Npid, since: int, outcome: Outcome): nat {
    |Counted(s, npid, since, outcome == Win)| + |Outside(s, npid, since, outcome)|
    + |With(s, npid, outcome, Pending)| + |With(s, npid, outcome, Dead)|
  }

  /** End to end, for every interleaving of captures and consumers and every period: a player's saved wins are those of
      the first save, those that stand somewhere in the tables, and what the jumps add up to; and so for losses. */
  lemma EveryResultIsAccountedFor(actions: seq<Action>, npid: Npid, since: int, outcome: Outcome)
    requires Execute(START, actions).Some? && npid in Execute(START, actions).value.ledger.states
    ensures Capture.Kept(Answers(actions), npid) != []
    ensures var s, kept := Execute(START, actions).value, Capture.Kept(Answers(actions), npid);
            Saved(s.ledger.states[npid], outcome)
            == Saved(kept[0], outcome) + Standing(s.tables, npid, since, outcome) + Jumped(kept, outcome)
  {
    RunFollows(actions);
    Capture.TallyIsConserved(Answers(actions), npid);
    QueuedStandSomewhere(Execute(START, actions).value, npid, since, outcome);
  }

  lemma QueuedStandSomewhere(s: State, npid: Npid, since: int, outcome: Outcome)
    requires Consumers.Reachable(s.tables) && Linked(s.ledger.queue, s.ids, s.tables.events)
    ensures Capture.CountOutcome(Capture.QueuedFor(s.ledger.queue, npid), outcome)
         == Standing(s.tables, npid, since, outcome)
  {
    var queue, ids, events := s.ledger.queue, s.ids, s.tables.events;
    QueueIsCounted(queue, ids, npid, outcome);
    forall id: int ensures id in IdsOf(queue, ids, npid, outcome) <==> id in EventsOf(events, npid, outcome) {
      if id in events {
        assert id in ids;
        var i :| 0 <= i < |ids| && ids[i] == id;
        assert SameResult(queue[i], events[ids[i]]);
      }
    }
    assert IdsOf(queue, ids, npid, outcome) == EventsOf(events, npid, outcome);
    ResultsStandSomewhere(s.tables, npid, since, outcome);
  }
}

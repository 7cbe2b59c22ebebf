/** Capturing saves: each save is compared with the last one compared for its player, and the new state and the
    match it finished are committed together. */
module Capture {
  import opened Common
  import opened RecordsModel

  const CAPTURE_LIMIT := 200
  // How far below the newest compared id a capture reads again, for ids that became visible late.
  const CAPTURE_OVERLAP := 16

  /** One answer of the save server, with the clock of its comparison; or one that cannot be compared, because it
      does not read or its transaction fails. */
  datatype Answer = Readable(save: Save, now: int) | Failing

  /** The tables capture writes: last save and count of merged jumps per player, and the queued events. */
  datatype Ledger = Ledger(states: map<Npid, Save>, merged: map<Npid, nat>, queue: seq<Event>)
  {
    function MergedCount(npid: Npid): nat { if npid in merged then merged[npid] else 0 }

    predicate HasEvent(npid: Npid, dataId: int) {
      exists i | 0 <= i < |queue| :: queue[i].npid == npid && queue[i].dataId == dataId
    }

    function SaveState(save: Save, jumped: bool): Ledger {
      var count := MergedCount(save.npid) + if jumped && save.npid in states then 1 else 0;
      this.(states := states[save.npid := save], merged := merged[save.npid := count])
    }

    function AddEvent(save: Save, found: PlayerMatch, now: int): Ledger {
      if HasEvent(save.npid, save.dataId) then this
      else this.(queue := queue + [NewEvent(save, found, now)])
    }
  }

  const NO_LEDGER := Ledger(map[], map[], [])

  function NewEvent(save: Save, found: PlayerMatch, now: int): Event {
    Event(save.npid, save.dataId, found.outcome, found.chars, found.ranks, save.savedAt, Pending, 0, now)
  }

  function Compared(ledger: Ledger, save: Save, now: int): Ledger {
    if save.npid !in ledger.states then ledger.SaveState(save, false)
    else
      var before := ledger.states[save.npid];
      if save.dataId <= before.dataId then ledger
      else
        var comparison := Compare(before, save);
        var saved := ledger.SaveState(save, comparison.merged);
        if comparison.found.Some? then saved.AddEvent(save, comparison.found.value, now) else saved
  }

  function CaptureAnswer(ledger: Ledger, answer: Answer): Ledger {
    if answer.Readable? then Compared(ledger, answer.save, answer.now) else ledger
  }

  /** The ledger after a run of answers, over any number of captures. */
  function CaptureAll(ledger: Ledger, answers: seq<Answer>): Ledger {
    if answers == [] then ledger
    else CaptureAnswer(CaptureAll(ledger, answers[..|answers| - 1]), answers[|answers| - 1])
  }

  ghost predicate IsNewest(ledger: Ledger, newest: int) {
    && (ledger.states == map[] ==> newest == 0)
    && (ledger.states != map[] ==>
          && (forall p | p in ledger.states :: ledger.states[p].dataId <= newest)
          && (exists p :: p in ledger.states && ledger.states[p].dataId == newest))
  }

  function ReadAfter(newest: int): int { if newest > CAPTURE_OVERLAP then newest - CAPTURE_OVERLAP else 0 }

  // -- The service, updating its tables in place ------------------------------------------------

  class RecordsService {
    var states: map<Npid, Save>
    var merged: map<Npid, nat>
    var queue: seq<Event>

    ghost function View(): Ledger reads this { Ledger(states, merged, queue) }

    constructor ()
      ensures View() == NO_LEDGER
    {
      states, merged, queue := map[], map[], [];
    }

    method LatestDataId() returns (latest: int)
      ensures IsNewest(View(), latest)
    {
      latest := 0;
      var seen: set<Npid> := {};
      while seen != states.Keys
        invariant seen <= states.Keys
        invariant seen == {} ==> latest == 0
        invariant forall p | p in seen :: states[p].dataId <= latest
        invariant seen != {} ==> exists p :: p in seen && states[p].dataId == latest
        decreases states.Keys - seen
      {
        ghost var another := Pick(states.Keys - seen);
        var p :| p in states.Keys - seen;
        if seen == {} || states[p].dataId > latest {
          latest := states[p].dataId;
        }
        seen := seen + {p};
      }
    }

    method SaveState(save: Save, jumped: bool)
      modifies this
      ensures View() == old(View()).SaveState(save, jumped)
    {
      var count := if save.npid in merged then merged[save.npid] else 0;
      if jumped && save.npid in states {
        count := count + 1;
      }
      states := states[save.npid := save];
      merged := merged[save.npid := count];
    }

    method AddEvent(save: Save, found: PlayerMatch, now: int)
      modifies this
      ensures View() == old(View()).AddEvent(save, found, now)
    {
      for i := 0 to |queue|
        invariant queue == old(queue) && View() == old(View())
        invariant forall j | 0 <= j < i :: queue[j].npid != save.npid || queue[j].dataId != save.dataId
      {
        if queue[i].npid == save.npid && queue[i].dataId == save.dataId {
          return;
        }
      }
      queue := queue + [NewEvent(save, found, now)];
    }

    method CompareSave(save: Save, now: int)
      modifies this
      ensures View() == Compared(old(View()), save, now)
    {
      if save.npid !in states {
        SaveState(save, false);
        return;
      }
      var before := states[save.npid];
      if save.dataId <= before.dataId {
        return;
      }
      var comparison := Compare(before, save);
      SaveState(save, comparison.merged);
      if comparison.found.Some? {
        AddEvent(save, comparison.found.value, now);
      }
    }

    /** Read from a little below the newest compared id and compare each readable answer in turn, skipping the rest. */
    method Capture(read: (int, nat) -> seq<Answer>)
      modifies this
      ensures exists newest :: IsNewest(old(View()), newest)
                && View() == CaptureAll(old(View()), read(if newest > 16 then newest - 16 else 0, 200))
    {
      var latest := LatestDataId();
      var answers := read(ReadAfter(latest), CAPTURE_LIMIT);
      for i := 0 to |answers|
        invariant View() == CaptureAll(old(View()), answers[..i])
      {
        assert answers[..i + 1][..i] == answers[..i];
        if answers[i].Readable? {
          CompareSave(answers[i].save, answers[i].now);
        }
      }
      assert answers[..|answers|] == answers;
    }
  }

  // -- Conservation -----------------------------------------------------------------------------

  /** The saves of one player that were compared: each the newest seen so far, whatever order they came in. */
  ghost function Kept(answers: seq<Answer>, npid: Npid): seq<Save> {
    if answers == [] then [] else
      var kept, last := Kept(answers[..|answers| - 1], npid), answers[|answers| - 1];
      if last.Readable? && last.save.npid == npid && (kept == [] || last.save.dataId > kept[|kept| - 1].dataId)
      then kept + [last.save] else kept
  }

  /** The matches that consecutive kept saves show one by one, oldest first. */
  ghost function MatchesBetween(kept: seq<Save>): seq<(int, PlayerMatch)> {
    if |kept| < 2 then [] else
      var before, after := kept[|kept| - 2], kept[|kept| - 1];
      var found := Compare(before, after).found;
      MatchesBetween(kept[..|kept| - 1]) + if found.Some? then [(after.dataId, found.value)] else []
  }

  /** What the jumps that could not be split into matches add up to, and how many there were. */
  ghost function JumpsBetween(kept: seq<Save>): (int, int, nat) {
    if |kept| < 2 then (0, 0, 0) else
      var before, after := kept[|kept| - 2], kept[|kept| - 1];
      var sum := JumpsBetween(kept[..|kept| - 1]);
      if Compare(before, after).merged
      then (sum.0 + after.wins - before.wins, sum.1 + after.losses - before.losses, sum.2 + 1) else sum
  }

  ghost function QueuedFor(queue: seq<Event>, npid: Npid): seq<(int, PlayerMatch)> {
    if queue == [] then [] else
      var last := queue[|queue| - 1];
      QueuedFor(queue[..|queue| - 1], npid)
      + if last.npid == npid then [(last.dataId, PlayerMatch(last.outcome, last.chars, last.ranks))] else []
  }

  ghost function CountOutcome(found: seq<(int, PlayerMatch)>, outcome: Outcome): nat {
    if found == [] then 0
    else CountOutcome(found[..|found| - 1], outcome) + if found[|found| - 1].1.outcome == outcome then 1 else 0
  }

  ghost predicate Follows(ledger: Ledger, kept: seq<Save>, npid: Npid) {
    && (npid in ledger.states <==> kept != [])
    && (kept != [] ==> ledger.states[npid] == kept[|kept| - 1])
    && (forall i | 0 <= i < |kept| :: kept[i].npid == npid)
    && (forall i, j | 0 <= i < j < |kept| :: kept[i].dataId < kept[j].dataId)
    && QueuedFor(ledger.queue, npid) == MatchesBetween(kept)
    && ledger.MergedCount(npid) == JumpsBetween(kept).2
    // Every queued event of the player comes from a save no newer than the state.
    && (forall i | 0 <= i < |ledger.queue| && ledger.queue[i].npid == npid ::
          kept != [] && ledger.queue[i].dataId <= kept[|kept| - 1].dataId)
  }

  /** The tables follow the kept saves exactly: no match is swallowed by the queue's unique key, and none added. */
  lemma {:induction false} LedgerFollowsKeptSaves(answers: seq<Answer>, npid: Npid)
    ensures Follows(CaptureAll(NO_LEDGER, answers), Kept(answers, npid), npid)
  {
    if answers == [] {
    } else {
      var init, last := answers[..|answers| - 1], answers[|answers| - 1];
      LedgerFollowsKeptSaves(init, npid);
      if last.Readable? {
        StepFollows(CaptureAll(NO_LEDGER, init), Kept(init, npid), npid, last);
      }
    }
  }

  lemma StepFollows(ledger: Ledger, kept: seq<Save>, npid: Npid, answer: Answer)
    requires Follows(ledger, kept, npid) && answer.Readable?
    ensures var taken := answer.save.npid == npid && (kept == [] || answer.save.dataId > kept[|kept| - 1].dataId);
            Follows(CaptureAnswer(ledger, answer), if taken then kept + [answer.save] else kept, npid)
  {
    if answer.save.npid != npid {
      OtherPlayerFollows(ledger, kept, npid, answer.save, answer.now);
    } else if kept == [] {
      assert MatchesBetween([answer.save]) == [];
    } else if answer.save.dataId > kept[|kept| - 1].dataId {
      NextSaveFollows(ledger, kept, npid, answer.save, answer.now);
    }
  }

  lemma QueuedForAppended(queue: seq<Event>, event: Event, npid: Npid)
    ensures QueuedFor(queue + [event], npid) == QueuedFor(queue, npid)
              + if event.npid == npid
                then [(event.dataId, PlayerMatch(event.outcome, event.chars, event.ranks))] else []
  {
    assert (queue + [event])[..|queue|] == queue;
  }

  /** A comparison touches one player's state and count, and queues at most one event, of that player. */
  lemma ComparedTouchesOne(ledger: Ledger, save: Save, now: int, npid: Npid)
    requires npid != save.npid
    ensures var after := Compared(ledger, save, now);
            && (npid in after.states <==> npid in ledger.states)
            && (npid in ledger.states ==> after.states[npid] == ledger.states[npid])
            && after.MergedCount(npid) == ledger.MergedCount(npid)
            && (after.queue == ledger.queue || exists e: Event ::
                e.npid == save.npid && after.queue == ledger.queue + [e])
  {
  }

  lemma OtherPlayerFollows(ledger: Ledger, kept: seq<Save>, npid: Npid, save: Save, now: int)
    requires Follows(ledger, kept, npid) && save.npid != npid
    ensures Follows(Compared(ledger, save, now), kept, npid)
  {
    ComparedTouchesOne(ledger, save, now, npid);
    var queue := Compared(ledger, save, now).queue;
    if queue != ledger.queue {
      var e: Event :| e.npid == save.npid && queue == ledger.queue + [e];
      QueuedForAppended(ledger.queue, e, npid);
    }
  }

  /** A newer save replaces the state, and what it shows is queued or counted as a jump. */
  lemma NextCompared(ledger: Ledger, before: Save, save: Save, now: int)
    requires save.npid in ledger.states && ledger.states[save.npid] == before
    requires save.dataId > before.dataId && !ledger.HasEvent(save.npid, save.dataId)
    ensures var after, comparison := Compared(ledger, save, now), Compare(before, save);
            && after.states == ledger.states[save.npid := save]
            && after.MergedCount(save.npid) == ledger.MergedCount(save.npid) + (if comparison.merged then 1 else 0)
            && after.queue == if comparison.found.Some?
                              then ledger.queue + [NewEvent(save, comparison.found.value, now)] else ledger.queue
  {
  }

  lemma BetweenAppended(kept: seq<Save>, save: Save)
    requires kept != []
    ensures var comparison := Compare(kept[|kept| - 1], save);
            && MatchesBetween(kept + [save])
               == MatchesBetween(kept)
                  + (if comparison.found.Some? then [(save.dataId, comparison.found.value)] else [])
            && JumpsBetween(kept + [save]).2 == JumpsBetween(kept).2 + if comparison.merged then 1 else 0
  {
    var longer := kept + [save];
    assert longer[|longer| - 2] == kept[|kept| - 1] && longer[|longer| - 1] == save;
    assert longer[..|longer| - 1] == kept;
  }

  lemma NewestLast(kept: seq<Save>, save: Save)
    requires kept != [] && save.dataId > kept[|kept| - 1].dataId
    requires forall i, j | 0 <= i < j < |kept| :: kept[i].dataId < kept[j].dataId
    ensures forall i, j | 0 <= i < j < |kept + [save]| :: (kept + [save])[i].dataId < (kept + [save])[j].dataId
  {
  }

  lemma NextSaveFollows(ledger: Ledger, kept: seq<Save>, npid: Npid, save: Save, now: int)
    requires Follows(ledger, kept, npid) && save.npid == npid
    requires kept != [] && save.dataId > kept[|kept| - 1].dataId
    ensures Follows(Compared(ledger, save, now), kept + [save], npid)
  {
    var before := kept[|kept| - 1];
    BetweenAppended(kept, save);
    assert !ledger.HasEvent(npid, save.dataId);
    NextCompared(ledger, before, save, now);
    var found := Compare(before, save).found;
    if found.Some? {
      QueuedForAppended(ledger.queue, NewEvent(save, found.value, now), npid);
    }
    NewestLast(kept, save);
  }

  /** Conservation: the stored tally is the first save's, plus one for each queued win or loss, plus the jumps. */
  lemma TallyIsConserved(answers: seq<Answer>, npid: Npid)
    requires npid in CaptureAll(NO_LEDGER, answers).states
    ensures var ledger, kept := CaptureAll(NO_LEDGER, answers), Kept(answers, npid);
            && kept != [] && ledger.states[npid] == kept[|kept| - 1]
            && ledger.states[npid].wins
               == kept[0].wins + CountOutcome(QueuedFor(ledger.queue, npid), Win) + JumpsBetween(kept).0
            && ledger.states[npid].losses
               == kept[0].losses + CountOutcome(QueuedFor(ledger.queue, npid), Loss) + JumpsBetween(kept).1
            && ledger.MergedCount(npid) == JumpsBetween(kept).2
  {
    LedgerFollowsKeptSaves(answers, npid);
    ChangeIsSplit(Kept(answers, npid));
  }

  lemma {:induction false} ChangeIsSplit(kept: seq<Save>)
    requires kept != []
    ensures kept[|kept| - 1].wins == kept[0].wins + CountOutcome(MatchesBetween(kept), Win) + JumpsBetween(kept).0
    ensures kept[|kept| - 1].losses == kept[0].losses + CountOutcome(MatchesBetween(kept), Loss) + JumpsBetween(kept).1
  {
    if |kept| == 1 {
    } else {
      var init := kept[..|kept| - 1];
      ChangeIsSplit(init);
      assert init[0] == kept[0] && init[|init| - 1] == kept[|kept| - 2];
      CompareReadsTheChange(kept[|kept| - 2], kept[|kept| - 1]);
      var found := Compare(kept[|kept| - 2], kept[|kept| - 1]).found;
      if found.Some? {
        var all := MatchesBetween(kept);
        assert all == MatchesBetween(init) + [(kept[|kept| - 1].dataId, found.value)];
        assert all[..|all| - 1] == MatchesBetween(init);
      } else {
        assert MatchesBetween(kept) == MatchesBetween(init);
      }
    }
  }

  /** Reading a save again, or one older than the state, changes nothing: the overlap costs nothing. */
  lemma {:induction false} RereadChangesNothing(ledger: Ledger, answers: seq<Answer>)
    requires forall a | a in answers && a.Readable? ::
               a.save.npid in ledger.states && a.save.dataId <= ledger.states[a.save.npid].dataId
    ensures CaptureAll(ledger, answers) == ledger
  {
    if answers == [] {
    } else {
      RereadChangesNothing(ledger, answers[..|answers| - 1]);
      assert answers[|answers| - 1] in answers;
    }
  }

  /** The event a save's match was queued as: due at once, and not yet attempted. */
  ghost predicate QueuedFrom(event: Event, answer: Answer) {
    && answer.Readable?
    && event.npid == answer.save.npid && event.dataId == answer.save.dataId && event.savedAt == answer.save.savedAt
    && event.status == Pending && event.attempts == 0 && event.availableAt == answer.now
  }

  ghost predicate FromOneOf(event: Event, answers: seq<Answer>) {
    exists i :: 0 <= i < |answers| && QueuedFrom(event, answers[i])
  }

  ghost predicate AllFrom(queue: seq<Event>, answers: seq<Answer>) {
    forall i | 0 <= i < |queue| :: FromOneOf(queue[i], answers)
  }

  ghost predicate NoSaveTwice(queue: seq<Event>) {
    forall i, j | 0 <= i < j < |queue| :: queue[i].npid != queue[j].npid || queue[i].dataId != queue[j].dataId
  }

  /** Every queued event is some captured save's, with that save's own time, and no save is queued twice. */
  lemma {:induction false} EventsComeFromSaves(answers: seq<Answer>)
    ensures AllFrom(CaptureAll(NO_LEDGER, answers).queue, answers)
    ensures NoSaveTwice(CaptureAll(NO_LEDGER, answers).queue)
  {
    if answers == [] {
    } else {
      var init, last := answers[..|answers| - 1], answers[|answers| - 1];
      EventsComeFromSaves(init);
      var before := CaptureAll(NO_LEDGER, init);
      assert init + [last] == answers;
      AllFromMore(before.queue, init, last);
      if CaptureAnswer(before, last).queue != before.queue {
        var e := NewInQueue(before, last);
        assert FromOneOf(e, answers);
      }
    }
  }

  lemma AllFromMore(queue: seq<Event>, answers: seq<Answer>, last: Answer)
    requires AllFrom(queue, answers)
    ensures AllFrom(queue, answers + [last])
  {
    forall i | 0 <= i < |queue| ensures FromOneOf(queue[i], answers + [last]) {
      var k :| 0 <= k < |answers| && QueuedFrom(queue[i], answers[k]);
      assert (answers + [last])[k] == answers[k];
    }
  }

  lemma NewInQueue(ledger: Ledger, answer: Answer) returns (e: Event)
    requires CaptureAnswer(ledger, answer).queue != ledger.queue
    ensures CaptureAnswer(ledger, answer).queue == ledger.queue + [e] && QueuedFrom(e, answer)
    ensures !ledger.HasEvent(e.npid, e.dataId)
  {
    var after := CaptureAnswer(ledger, answer);
    e := after.queue[|ledger.queue|];
  }

  // -- How fast a backlog drains ----------------------------------------------------------------

  /** The server's side of a capture: the first `limit` saves past an id, ascending, none of them bad. */
  ghost predicate IsRead(server: map<int, Save>, after: int, limit: nat, answers: seq<Answer>) {
    && |answers| <= limit
    && (forall i | 0 <= i < |answers| :: IsServed(server, after, answers[i]))
    && (forall i, j | 0 <= i < j < |answers| :: IdOf(answers[i]) < IdOf(answers[j]))
    && (forall id | id in server && id > after ::
          id in Ids(answers) || (|answers| == limit && forall a | a in answers :: IdOf(a) < id))
  }

  function IdOf(answer: Answer): int { if answer.Readable? then answer.save.dataId else 0 }

  ghost predicate IsServed(server: map<int, Save>, after: int, answer: Answer) {
    answer.Readable? && answer.save.dataId in server && server[answer.save.dataId] == answer.save
        && answer.save.dataId > after
  }

  ghost function Ids(answers: seq<Answer>): set<int> { set a | a in answers :: IdOf(a) }

  ghost function Unread(server: map<int, Save>, newest: int): set<int> {
    set id | id in server && id > newest && id > 0
  }

  /** The newest id compared never falls, and is at least every id just compared. */
  lemma {:induction false} NewestOnlyRises(ledger: Ledger, answers: seq<Answer>, newest: int, newest': int)
    requires IsNewest(ledger, newest) && IsNewest(CaptureAll(ledger, answers), newest')
    ensures ledger.states != map[] ==> newest <= newest'
    ensures forall a | a in answers && a.Readable? :: a.save.dataId <= newest'
  {
    forall p | p in ledger.states
      ensures p in CaptureAll(ledger, answers).states
                && ledger.states[p].dataId <= CaptureAll(ledger, answers).states[p].dataId
    {
      StateOnlyRises(ledger, answers, p);
    }
    forall a | a in answers && a.Readable? ensures a.save.dataId <= newest' {
      StateOnlyRises(ledger, answers, a.save.npid);
    }
  }

  lemma {:induction false} StateOnlyRises(ledger: Ledger, answers: seq<Answer>, npid: Npid)
    ensures var after := CaptureAll(ledger, answers);
            && (npid in ledger.states ==>
                npid in after.states && ledger.states[npid].dataId <= after.states[npid].dataId)
            && forall a | a in answers && a.Readable? && a.save.npid == npid ::
                 npid in after.states && a.save.dataId <= after.states[npid].dataId
  {
    if answers == [] {
    } else {
      var init := answers[..|answers| - 1];
      StateOnlyRises(ledger, init, npid);
      assert answers == init + [answers[|answers| - 1]];
    }
  }

  /** A save that became visible late, within sixteen ids of the newest compared, is read by the next capture: what lies
      between is fewer than its limit. */
  lemma OverlapIsRead(server: map<int, Save>, newest: int, answers: seq<Answer>, id: int)
    requires IsRead(server, ReadAfter(newest), CAPTURE_LIMIT, answers)
    requires id in server && 0 < id && newest - 16 < id <= newest
    ensures id in Ids(answers)
  {
    if id !in Ids(answers) {
      IdsAreDistinct(answers);
      forall x | x in Ids(answers) ensures ReadAfter(newest) < x <= newest {
        var a :| a in answers && IdOf(a) == x;
        var i :| 0 <= i < |answers| && answers[i] == a;
        assert IsServed(server, ReadAfter(newest), answers[i]);
      }
      IntervalSize(Ids(answers), ReadAfter(newest), newest);
    }
  }

  /** Each capture reaches the newest save, or leaves at least 184 fewer unread. */
  lemma CaptureAdvances(server: map<int, Save>, ledger: Ledger, answers: seq<Answer>, newest: int, newest': int)
    requires IsNewest(ledger, newest) && IsRead(server, ReadAfter(newest), CAPTURE_LIMIT, answers)
    requires IsNewest(CaptureAll(ledger, answers), newest')
    ensures Unread(server, newest') == {}
         || |Unread(server, newest')| <= |Unread(server, newest)| - (CAPTURE_LIMIT - CAPTURE_OVERLAP)
  {
    var before, after := Unread(server, newest), Unread(server, newest');
    NewestOnlyRises(ledger, answers, newest, newest');
    if after != {} {
      var waiting := Pick(after);
      StaysNewer(ledger, answers, newest, newest');
      NotAllRead(server, ReadAfter(newest), answers, newest', waiting);
      assert |answers| == CAPTURE_LIMIT;
      var read := Ids(answers);
      IdsAreDistinct(answers);
      var again := set id | id in read && id <= newest;
      IntervalSize(again, ReadAfter(newest), newest);
      var unseen := read - again;
      assert unseen <= before && unseen !! after && after <= before;
      SizeWithout(before, unseen);
      SizeWithout(before - unseen, after);
      SizeWithout(read, again);
    }
  }

  /** An empty ledger has newest 0, and only positive ids are read, so the newest id never falls here either. */
  lemma StaysNewer(ledger: Ledger, answers: seq<Answer>, newest: int, newest': int)
    requires IsNewest(ledger, newest) && IsNewest(CaptureAll(ledger, answers), newest')
    requires forall a | a in answers :: a.Readable? && a.save.dataId > 0
    ensures newest <= newest'
  {
    NewestOnlyRises(ledger, answers, newest, newest');
    if ledger.states == map[] {
      if answers == [] {
      } else {
        assert answers[0] in answers;
      }
    }
  }

  lemma NotAllRead(server: map<int, Save>, after: int, answers: seq<Answer>, newest': int, id: int)
    requires IsRead(server, after, CAPTURE_LIMIT, answers) && id in server && id > after
    requires forall a | a in answers && a.Readable? :: a.save.dataId <= newest'
    requires id > newest'
    ensures |answers| == CAPTURE_LIMIT
  {
    assert forall a | a in answers :: IsServed(server, after, a);
    assert id !in Ids(answers);
  }

  lemma {:induction false} IdsAreDistinct(answers: seq<Answer>)
    requires forall i, j | 0 <= i < j < |answers| :: IdOf(answers[i]) < IdOf(answers[j])
    ensures |Ids(answers)| == |answers|
  {
    if answers == [] {
    } else {
      var init, last := answers[..|answers| - 1], answers[|answers| - 1];
      IdsAreDistinct(init);
      assert answers == init + [last];
      assert Ids(answers) == Ids(init) + {IdOf(last)};
      assert IdOf(last) !in Ids(init);
    }
  }

  lemma {:induction false} IntervalSize(ids: set<int>, low: int, high: int)
    requires forall id | id in ids :: low < id <= high
    ensures |ids| <= if high > low then high - low else 0
    decreases ids
  {
    if ids == {} {
    } else {
      var least := FindLeast(ids);
      IntervalSize(ids - {least}, least, high);
    }
  }

  /** Captures that read the same server one after another. */
  ghost predicate AreCaptures(server: map<int, Save>, ledger: Ledger, batches: seq<seq<Answer>>)
    decreases |batches|
  {
    batches != [] ==>
      && (exists newest :: IsNewest(ledger, newest) && IsRead(server, ReadAfter(newest), CAPTURE_LIMIT, batches[0]))
      && AreCaptures(server, CaptureAll(ledger, batches[0]), batches[1..])
  }

  ghost function AfterBatches(ledger: Ledger, batches: seq<seq<Answer>>): Ledger
    decreases |batches|
  {
    if batches == [] then ledger else AfterBatches(CaptureAll(ledger, batches[0]), batches[1..])
  }

  lemma NewestExists(ledger: Ledger) returns (newest: int)
    ensures IsNewest(ledger, newest)
  {
    if ledger.states == map[] {
      newest := 0;
    } else {
      var ids := set p | p in ledger.states :: -ledger.states[p].dataId;
      var p := Pick(ledger.states.Keys);
      assert -ledger.states[p].dataId in ids;
      var least := FindLeast(ids);
      newest := -least;
      var q :| q in ledger.states && -ledger.states[q].dataId == least;
      forall p | p in ledger.states ensures ledger.states[p].dataId <= newest {
        assert -ledger.states[p].dataId in ids;
      }
    }
  }

  lemma NewestIsUnique(ledger: Ledger, a: int, b: int)
    requires IsNewest(ledger, a) && IsNewest(ledger, b)
    ensures a == b
  {
  }

  /** N waiting saves drain in at most N / 184 captures, rounded up. */
  lemma {:induction false} BacklogDrains(server: map<int, Save>, ledger: Ledger, batches: seq<seq<Answer>>,
                                         newest: int, newest': int)
    requires AreCaptures(server, ledger, batches)
    requires IsNewest(ledger, newest) && IsNewest(AfterBatches(ledger, batches), newest')
    requires (CAPTURE_LIMIT - CAPTURE_OVERLAP) * |batches| >= |Unread(server, newest)|
    ensures Unread(server, newest') == {}
    decreases |batches|
  {
    if batches == [] {
      NewestIsUnique(ledger, newest, newest');
    } else {
      var n :| IsNewest(ledger, n) && IsRead(server, ReadAfter(n), CAPTURE_LIMIT, batches[0]);
      NewestIsUnique(ledger, newest, n);
      var next := CaptureAll(ledger, batches[0]);
      var middle := NewestExists(next);
      CaptureAdvances(server, ledger, batches[0], newest, middle);
      BacklogDrains(server, next, batches[1..], middle, newest');
    }
  }
}

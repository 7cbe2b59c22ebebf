/** How long the queue can go on: every committed attempt spends from a finite credit, and attempts at one event
    stand ever further apart until it is buried. */
module Retries {
  import opened Common
  import opened RecordsModel
  import opened MatchTable
  import opened Consumers

  /** One unit for each attempt a pending event has left. */
  ghost function Credit(events: Events): set<(int, int)> {
    set id, k | id in events && events[id].status == Pending && events[id].attempts <= k < MAX_ATTEMPTS :: (id, k)
  }

  /** Each committed attempt, successful or not, uses up credit; no other step adds or removes any but queueing. */
  lemma CommitSpendsCredit(s: State, a: Action)
    requires Inv(s) && Enabled(s, a) && !a.Queue?
    ensures a.Commit? ==> |Credit(Apply(s, a).events)| < |Credit(s.events)|
    ensures !a.Commit? ==> Apply(s, a).events == s.events
  {
    if a.Commit? {
      var k := s.consumers[a.c];
      assert ConsumerOk(s, k);
      assert EventOk(s.events[k.id]);
      var next := if k.phase == Failed then Retried(k.event, k.now) else k.event.(status := Done);
      assert Apply(s, a).events == s.events[k.id := next];
      AttemptSpendsCredit(s.events, k.id, next);
    }
  }

  lemma AttemptSpendsCredit(events: Events, id: int, next: Event)
    requires id in events && events[id].status == Pending && events[id].attempts < MAX_ATTEMPTS
    requires next.status != Pending || next.attempts > events[id].attempts
    ensures |Credit(events[id := next])| < |Credit(events)|
  {
    var before, after := Credit(events), Credit(events[id := next]);
    var spent := (id, events[id].attempts as int);
    assert spent in before && spent !in after;
    assert after <= before - {spent};
    SizeWithout(before - {spent}, after);
  }

  ghost function Commits(actions: seq<Action>): nat {
    if actions == [] then 0
    else Commits(actions[..|actions| - 1]) + if actions[|actions| - 1].Commit? then 1 else 0
  }

  /** With nothing new queued, a drain ends: any interleaving commits at most as many attempts as there is credit. */
  lemma {:induction false} DrainEnds(from: State, actions: seq<Action>)
    requires Inv(from) && Execute(from, actions).Some?
    requires forall a | a in actions :: !a.Queue?
    ensures Commits(actions) + |Credit(Execute(from, actions).value.events)| <= |Credit(from.events)|
  {
    if actions == [] {
    } else {
      var init, last := actions[..|actions| - 1], actions[|actions| - 1];
      DrainEnds(from, init);
      RunKeepsInv(from, init);
      CommitSpendsCredit(Execute(from, init).value, last);
    }
  }

  /** And it does not end early: while an event is due and unlocked, any idle consumer can claim the oldest. */
  lemma DueIsClaimable(s: State, c: int, id: int, now: int) returns (oldest: int)
    requires c !in s.consumers && s.Due(id, now)
    ensures Enabled(s, Claim(c, oldest, now)) && forall e | s.Due(e, now) :: oldest <= e
  {
    var due := set e | e in s.events && s.Due(e, now);
    assert id in due;
    oldest := FindLeast(due);
    forall e | s.Due(e, now) ensures oldest <= e {
      assert e in due;
    }
  }

  // -- Back-off ------------------------------------------------------------------------

  /** The clock of each failed attempt at an event that was committed, in order. */
  ghost function Failures(from: State, actions: seq<Action>, id: int): seq<int>
    requires Execute(from, actions).Some?
  {
    if actions == [] then [] else
      var init, last := actions[..|actions| - 1], actions[|actions| - 1];
      Failures(from, init, id) + FailureIn(Execute(from, init).value, last, id)
  }

  ghost function FailureIn(s: State, a: Action, id: int): seq<int>
    requires Enabled(s, a)
  {
    if a.Commit? && s.consumers[a.c].phase == Failed && s.consumers[a.c].id == id then [s.consumers[a.c].now] else []
  }

  ghost predicate Spaced(times: seq<int>, event: Event) {
    && |times| == event.attempts
    && (forall i | 0 < i < |times| :: times[i] >= times[i - 1] + RETRY_DELAY * i)
    && (|times| > 0 ==> event.availableAt == times[|times| - 1] + RETRY_DELAY * |times|)
  }

  ghost predicate SpacedIn(s: State, times: seq<int>, id: int) {
    if id in s.events then Spaced(times, s.events[id]) else times == []
  }

  lemma StepKeepsSpacing(s: State, a: Action, times: seq<int>, id: int)
    requires Inv(s) && Enabled(s, a) && SpacedIn(s, times, id)
    ensures SpacedIn(Apply(s, a), times + FailureIn(s, a, id), id)
  {
    if a.Commit? {
      assert ConsumerOk(s, s.consumers[a.c]);
    } else {
      assert times + FailureIn(s, a, id) == times;
    }
  }

  lemma {:induction false} FailuresAreSpaced(actions: seq<Action>, id: int)
    requires Execute(START, actions).Some?
    ensures SpacedIn(Execute(START, actions).value, Failures(START, actions, id), id)
  {
    if actions == [] {
    } else {
      var init, last := actions[..|actions| - 1], actions[|actions| - 1];
      FailuresAreSpaced(init, id);
      StartOk();
      RunKeepsInv(START, init);
      StepKeepsSpacing(Execute(START, init).value, last, Failures(START, init, id), id);
    }
  }

  /** No event fails more than five times; one that is buried failed exactly five, the last at least five minutes
      after the first. */
  lemma BuriedAfterFiveMinutes(actions: seq<Action>, id: int)
    requires Execute(START, actions).Some? && id in Execute(START, actions).value.events
    ensures var times := Failures(START, actions, id);
            var event := Execute(START, actions).value.events[id];
            && |times| == event.attempts <= MAX_ATTEMPTS
            && (event.status == Dead <==> |times| == MAX_ATTEMPTS)
            && (event.status == Dead ==> times[MAX_ATTEMPTS - 1] - times[0] >= 300 * SECOND)
  {
    FailuresAreSpaced(actions, id);
    StartOk();
    RunKeepsInv(START, actions);
    var times := Failures(START, actions, id);
    if |times| == MAX_ATTEMPTS {
      assert times[1] >= times[0] + RETRY_DELAY * 1;
      assert times[2] >= times[1] + RETRY_DELAY * 2;
      assert times[3] >= times[2] + RETRY_DELAY * 3;
      assert times[4] >= times[3] + RETRY_DELAY * 4;
    }
  }

  // -- Attempts, counting those a crash takes back ---------------------------------------------------

  /** The attempts begun at an event, whatever became of them. */
  ghost function Attempts(actions: seq<Action>, id: int): nat {
    if actions == [] then 0
    else Attempts(actions[..|actions| - 1], id) + Begins(actions[|actions| - 1], id)
  }

  function Begins(a: Action, id: int): nat { if a.Claim? && a.id == id then 1 else 0 }

  /** The attempts at an event that a crash or an aborted commit took back, with nothing recorded. */
  ghost function Crashes(from: State, actions: seq<Action>, id: int): nat
    requires Execute(from, actions).Some?
  {
    if actions == [] then 0 else
      var init, last := actions[..|actions| - 1], actions[|actions| - 1];
      Crashes(from, init, id) + CrashIn(Execute(from, init).value, last, id)
  }

  ghost function CrashIn(s: State, a: Action, id: int): nat
    requires Enabled(s, a)
  {
    if a.Crash? && s.consumers[a.c].id == id then 1 else 0
  }

  ghost predicate IsDone(s: State, id: int) { id in s.events && s.events[id].status == Done }

  ghost function One(holds: bool): nat { if holds then 1 else 0 }

  lemma StepAccounts(s: State, a: Action, id: int)
    requires Inv(s) && Enabled(s, a)
    ensures var s' := Apply(s, a);
            One(IsDone(s, id)) + One(s.RowLocked(id)) + Begins(a, id)
            == One(IsDone(s', id)) + One(s'.RowLocked(id)) + |FailureIn(s, a, id)| + CrashIn(s, a, id)
  {
    var s' := Apply(s, a);
    if a.Claim? {
      assert s'.RowLocked(a.id) by { assert s'.consumers[a.c].id == a.id; }
      OthersStayLocked(s, s', a.c, id);
    } else if a.Commit? || a.Crash? {
      assert ConsumerOk(s, s.consumers[a.c]);
      assert s.RowLocked(s.consumers[a.c].id);
      forall d | d in s'.consumers ensures s'.consumers[d].id != s.consumers[a.c].id {
        assert Apart(s.consumers[a.c], s.consumers[d]);
      }
      OthersStayLocked(s, s', a.c, id);
    } else if a.Queue? || a.SeeRoom? || a.TouchRoom? {
      assert s'.consumers == s.consumers;
    } else {
      assert s'.consumers[a.c].id == s.consumers[a.c].id;
      OthersStayLocked(s, s', a.c, id);
    }
  }

  /** Which events but its own are locked does not change with one consumer's step. */
  lemma OthersStayLocked(s: State, s': State, c: int, id: int)
    requires forall d | d != c :: (d in s'.consumers <==> d in s.consumers)
                                  && (d in s.consumers ==> s'.consumers[d] == s.consumers[d])
    ensures (c in s.consumers ==> s.consumers[c].id != id) && (c in s'.consumers ==> s'.consumers[c].id != id) ==>
              (s'.RowLocked(id) <==> s.RowLocked(id))
    ensures c in s.consumers && c in s'.consumers && s.consumers[c].id == s'.consumers[c].id ==>
              (s'.RowLocked(id) <==> s.RowLocked(id))
  {
    if s.RowLocked(id) {
      var d :| d in s.consumers && s.consumers[d].id == id;
      assert d != c ==> s'.consumers[d].id == id;
    }
    if s'.RowLocked(id) {
      var d :| d in s'.consumers && s'.consumers[d].id == id;
      assert d != c ==> s.consumers[d].id == id;
    }
  }

  /** Every attempt begun has failed, crashed, settled the event or is still under way. */
  lemma {:induction false} AttemptsAreAccounted(actions: seq<Action>, id: int)
    requires Execute(START, actions).Some?
    ensures var s := Execute(START, actions).value;
            Attempts(actions, id)
            == |Failures(START, actions, id)| + Crashes(START, actions, id) + One(IsDone(s, id)) + One(s.RowLocked(id))
  {
    if actions == [] {
    } else {
      var init, last := actions[..|actions| - 1], actions[|actions| - 1];
      AttemptsAreAccounted(init, id);
      StartOk();
      RunKeepsInv(START, init);
      StepAccounts(Execute(START, init).value, last, id);
    }
  }

  /** An event is attempted at most five times more than its attempts crashed: at most five if none does. */
  lemma AttemptedFiveTimesButForCrashes(actions: seq<Action>, id: int)
    requires Execute(START, actions).Some?
    ensures Attempts(actions, id) <= MAX_ATTEMPTS + Crashes(START, actions, id)
  {
    AttemptsAreAccounted(actions, id);
    FailuresAreSpaced(actions, id);
    StartOk();
    RunKeepsInv(START, actions);
    var s := Execute(START, actions).value;
    if s.RowLocked(id) {
      var c :| c in s.consumers && s.consumers[c].id == id;
      assert ConsumerOk(s, s.consumers[c]);
    }
    if id in s.events {
      assert EventOk(s.events[id]);
    }
  }

  /** Crashes do add attempts: for every number there is a run that begins that many at one event. */
  lemma {:induction false} CrashesAddAttempts(n: nat) returns (actions: seq<Action>)
    ensures Attempts(actions, 1) == n
    ensures Execute(START, actions) == Some(START.(events := map[1 := WAITING]))
  {
    var queued := START.(events := map[1 := WAITING]);
    if n == 0 {
      actions := [Queue(1, WAITING)];
      assert actions[..0] == [];
    } else {
      var before := CrashesAddAttempts(n - 1);
      var claim, crash := Claim(0, 1, 0), Crash(0);
      var claimed := Apply(queued, claim);
      assert (before + [claim])[..|before|] == before;
      assert Execute(START, before + [claim]) == Some(claimed);
      actions := before + [claim] + [crash];
      assert actions[..|actions| - 1] == before + [claim];
      assert Apply(claimed, crash).consumers == map[];
    }
  }

  const WAITING := Event("npid", 1, Win, [], [], 0, Pending, 0, 0)
}

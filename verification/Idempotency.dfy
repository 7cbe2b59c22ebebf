/** Transactions that claim an idempotency key, write under it and store the write's answer.

    What a transaction does is seen only once it commits. While one owns a key no other can claim it; afterwards a claim
    finds the row it committed, or finds the key free because it aborted. */
module Idempotency {
  import opened Common

  type Json = string

  /** The unique key: who asked, and the key they sent. */
  datatype Key = Key(subject: string, key: string)

  // A null answer and no answer are stored alike.
  datatype Row = Row(fingerprint: int, response: Option<Json>)

  datatype Phase =
    | Conflicted                                       // the insert met a committed row
    | Running(owner: bool)                             // free to write; `owner` inserted the key itself
    | Written(owner: bool, answer: Option<Json>)
    | Completed(owner: bool, answer: Option<Json>)
    | Answered(stored: Json)
    | Refused
  {
    predicate OwnsKey() { (Running? || Written? || Completed?) && owner }
  }

  datatype Transaction = Transaction(key: Key, fingerprint: int, phase: Phase)

  datatype Call = Call(key: Key, fingerprint: int, answer: Option<Json>)

  /** The committed keys, the committed writes, what successful calls answered, and who is in a transaction. */
  datatype State = State(keys: map<Key, Row>, writes: seq<Call>, answers: seq<Call>, open: map<int, Transaction>)
  {
    predicate Blocked(key: Key) { exists t | t in open :: open[t].key == key && open[t].phase.OwnsKey() }

    function With(t: int, phase: Phase): State
      requires t in open
    {
      this.(open := open[t := open[t].(phase := phase)])
    }
  }

  const START := State(map[], [], [], map[])

  datatype Action =
    | Claim(t: int, key: Key, fingerprint: int)
    | ReadStored(t: int)
    | Write(t: int, answer: Option<Json>)
    | Complete(t: int)
    | Commit(t: int)
    | Abort(t: int)

  predicate Enabled(s: State, a: Action) {
    match a
    case Claim(t, key, _) => t !in s.open && !s.Blocked(key)
    case ReadStored(t) => t in s.open && s.open[t].phase == Conflicted && s.open[t].key in s.keys
    case Write(t, _) => t in s.open && s.open[t].phase.Running?
    case Complete(t) => t in s.open && s.open[t].phase.Written?
    case Commit(t) =>
      && t in s.open && (s.open[t].phase.Completed? || s.open[t].phase.Answered?)
      && (s.open[t].phase.Completed? && !s.open[t].phase.owner ==> s.open[t].key in s.keys)
    case Abort(t) => t in s.open
  }

  function Apply(s: State, a: Action): State
    requires Enabled(s, a)
  {
    match a
    case Claim(t, key, fingerprint) =>
      var phase := if key in s.keys then Conflicted else Running(true);
      s.(open := s.open[t := Transaction(key, fingerprint, phase)])
    case ReadStored(t) =>
      var stored := s.keys[s.open[t].key];
      if stored.fingerprint != s.open[t].fingerprint then s.With(t, Refused)
      else if stored.response.Some? then s.With(t, Answered(stored.response.value))
      else s.With(t, Running(false))
    case Write(t, answer) => s.With(t, Written(s.open[t].phase.owner, answer))
    case Complete(t) => s.With(t, Completed(s.open[t].phase.owner, s.open[t].phase.answer))
    case Commit(t) =>
      var tx := s.open[t];
      var ended := s.(open := s.open - {t});
      if tx.phase.Answered? then
        ended.(answers := s.answers + [Call(tx.key, tx.fingerprint, Some(tx.phase.stored))])
      else
        var row := Row(if tx.phase.owner then tx.fingerprint else s.keys[tx.key].fingerprint, tx.phase.answer);
        var call := Call(tx.key, tx.fingerprint, tx.phase.answer);
        ended.(keys := s.keys[tx.key := row], writes := s.writes + [call], answers := s.answers + [call])
    case Abort(t) => s.(open := s.open - {t})
  }

  ghost function Execute(from: State, actions: seq<Action>): Option<State> {
    if actions == [] then Some(from) else
      var before, last := Execute(from, actions[..|actions| - 1]), actions[|actions| - 1];
      if before.Some? && Enabled(before.value, last) then Some(Apply(before.value, last)) else None
  }

  // -- The service, over tables it updates in place -----------------------------------------------

  datatype Refusal = KeyReused

  class IdempotencyService {
    var keys: map<Key, Row>
    var writes: seq<Call>
    ghost var answers: seq<Call>

    ghost function View(): State reads this { State(keys, writes, answers, map[]) }

    constructor ()
      ensures View() == START
    {
      keys, writes, answers := map[], [], [];
    }

    /** The stored answer of a key already spent; none when the caller is to run its write. */
    method Claim(key: Key, fingerprint: int) returns (stored: Result<Option<Json>, Refusal>)
      modifies this`keys
      ensures key !in old(keys) ==> stored == Ok(None) && keys == old(keys)[key := Row(fingerprint, None)]
      ensures key in old(keys) ==>
                && keys == old(keys)
                && stored == if keys[key].fingerprint != fingerprint then Err(KeyReused) else Ok(keys[key].response)
    {
      if key !in keys {
        keys := keys[key := Row(fingerprint, None)];
        return Ok(None);
      }
      if keys[key].fingerprint != fingerprint {
        return Err(KeyReused);
      }
      return Ok(keys[key].response);
    }

    method Complete(key: Key, response: Option<Json>)
      requires key in keys
      modifies this`keys
      ensures keys == old(keys)[key := old(keys)[key].(response := response)]
    {
      keys := keys[key := keys[key].(response := response)];
    }

    /** Claim, write and complete in one transaction; `answer` is what the write would answer now. A call that succeeds
        is a run of the protocol. */
    method RunOnce(key: Key, fingerprint: int, answer: Option<Json>) returns (result: Result<Option<Json>, Refusal>)
      modifies this
      ensures result.Err? <==> key in old(keys) && old(keys)[key].fingerprint != fingerprint
      ensures result.Err? ==> View() == old(View())
      ensures key !in old(keys) || old(keys)[key] == Row(fingerprint, None) ==>
                && result == Ok(answer) && keys == old(keys)[key := Row(fingerprint, answer)]
                && writes == old(writes) + [Call(key, fingerprint, answer)]
      ensures key in old(keys) && old(keys)[key].fingerprint == fingerprint && old(keys)[key].response.Some? ==>
                && result == Ok(old(keys)[key].response) && keys == old(keys) && writes == old(writes)
      ensures result.Ok? ==>
                && answers == old(answers) + [Call(key, fingerprint, result.value)]
                && exists actions :: Execute(old(View()), actions) == Some(View())
    {
      ghost var actions := [];
      var stored := Claim(key, fingerprint);
      if stored.Err? {
        return Err(stored.error);
      }
      if stored.value.Some? {
        answers := answers + [Call(key, fingerprint, stored.value)];
        actions := RetryIsARun(old(View()), key, fingerprint);
        return Ok(stored.value);
      }
      writes := writes + [Call(key, fingerprint, answer)];
      Complete(key, answer);
      answers := answers + [Call(key, fingerprint, answer)];
      assert keys == old(keys)[key := Row(fingerprint, answer)];
      actions := WriteIsARun(old(View()), key, fingerprint, answer);
      return Ok(answer);
    }
  }

  lemma Extend(from: State, actions: seq<Action>, s: State, a: Action) returns (longer: seq<Action>, t: State)
    requires Execute(from, actions) == Some(s) && Enabled(s, a)
    ensures longer == actions + [a] && t == Apply(s, a) && Execute(from, longer) == Some(t)
  {
    longer, t := actions + [a], Apply(s, a);
    assert longer[..|longer| - 1] == actions;
  }

  lemma RetryIsARun(s: State, key: Key, fingerprint: int) returns (actions: seq<Action>)
    requires s.open == map[] && key in s.keys
    requires s.keys[key].fingerprint == fingerprint && s.keys[key].response.Some?
    ensures Execute(s, actions) == Some(s.(answers := s.answers + [Call(key, fingerprint, s.keys[key].response)]))
  {
    var t;
    actions, t := Extend(s, [], s, Action.Claim(0, key, fingerprint));
    actions, t := Extend(s, actions, t, ReadStored(0));
    actions, t := Extend(s, actions, t, Commit(0));
    assert t.open == map[];
  }

  /** The tables with one transaction part-way. */
  ghost function Alone(s: State, key: Key, fingerprint: int, phase: Phase): State {
    s.(open := map[0 := Transaction(key, fingerprint, phase)])
  }

  lemma WriteIsARun(s: State, key: Key, fingerprint: int, answer: Option<Json>) returns (actions: seq<Action>)
    requires s.open == map[]
    requires key in s.keys ==> s.keys[key] == Row(fingerprint, None)
    ensures Execute(s, actions) == Some(Rewritten(s, key, fingerprint, answer))
  {
    var t;
    var owner := key !in s.keys;
    actions, t := Extend(s, [], s, Action.Claim(0, key, fingerprint));
    if key in s.keys {
      assert t == Alone(s, key, fingerprint, Conflicted);
      actions, t := Extend(s, actions, t, ReadStored(0));
    }
    assert t == Alone(s, key, fingerprint, Running(owner));
    actions, t := Extend(s, actions, t, Write(0, answer));
    assert t == Alone(s, key, fingerprint, Written(owner, answer));
    actions, t := Extend(s, actions, t, Action.Complete(0));
    assert t == Alone(s, key, fingerprint, Completed(owner, answer));
    actions, t := Extend(s, actions, t, Commit(0));
    CommittedAlone(s, key, fingerprint, answer, owner);
  }

  ghost function Rewritten(s: State, key: Key, fingerprint: int, answer: Option<Json>): State {
    var call := Call(key, fingerprint, answer);
    State(s.keys[key := Row(fingerprint, answer)], s.writes + [call], s.answers + [call], map[])
  }

  lemma CommittedAlone(s: State, key: Key, fingerprint: int, answer: Option<Json>, owner: bool)
    requires if owner then key !in s.keys else key in s.keys && s.keys[key].fingerprint == fingerprint
    ensures var t := Alone(s, key, fingerprint, Completed(owner, answer));
            Enabled(t, Commit(0)) && Apply(t, Commit(0)) == Rewritten(s, key, fingerprint, answer)
  {
    assert Apply(Alone(s, key, fingerprint, Completed(owner, answer)), Commit(0)).open == map[];
  }

  // -- What holds of every run ------------------------------------------------------------------------

  ghost predicate OpenOk(s: State, tx: Transaction) { tx.phase.OwnsKey() <==> tx.key !in s.keys }

  ghost predicate WrittenOnce(s: State, key: Key) { exists i :: 0 <= i < |s.writes| && s.writes[i].key == key }

  /** A key is committed exactly if a write under it is; until then at most one transaction owns it. */
  ghost predicate KeysOk(s: State) {
    && (forall t | t in s.open :: OpenOk(s, s.open[t]))
    && (forall t, u | t in s.open && u in s.open && t != u && s.open[t].phase.OwnsKey() && s.open[u].phase.OwnsKey() ::
          s.open[t].key != s.open[u].key)
    && (forall key :: key in s.keys <==> WrittenOnce(s, key))
    && (forall i | 0 <= i < |s.answers| :: s.answers[i].key in s.keys)
  }

  lemma StepKeepsKeys(s: State, a: Action)
    requires KeysOk(s) && Enabled(s, a)
    ensures KeysOk(Apply(s, a))
  {
    if a.t in s.open { assert OpenOk(s, s.open[a.t]); }
    match a {
      case Claim(t, key, fingerprint) => MoveKeepsKeys(s, t, Apply(s, a).open[t]);
      case ReadStored(t) => MoveKeepsKeys(s, t, Apply(s, a).open[t]);
      case Write(t, answer) => MoveKeepsKeys(s, t, Apply(s, a).open[t]);
      case Complete(t) => MoveKeepsKeys(s, t, Apply(s, a).open[t]);
      case Commit(t) =>
        if s.open[t].phase.Completed? {
          WriteKeepsKeys(s, t);
        } else {
          EndKeepsKeys(s, t, Apply(s, a));
        }
      case Abort(t) => EndKeepsKeys(s, t, Apply(s, a));
    }
  }

  lemma SameKeys(s: State, s': State)
    requires KeysOk(s) && s'.keys == s.keys && s'.writes == s.writes
    ensures forall key :: key in s'.keys <==> WrittenOnce(s', key)
  {
    forall key ensures key in s'.keys <==> WrittenOnce(s', key) {
      assert WrittenOnce(s', key) <==> WrittenOnce(s, key);
    }
  }

  /** A transaction that enters, or goes on, without committing. */
  lemma MoveKeepsKeys(s: State, t: int, tx: Transaction)
    requires KeysOk(s) && OpenOk(s, tx)
    requires forall u | u in s.open && u != t && tx.phase.OwnsKey() && s.open[u].phase.OwnsKey() ::
               s.open[u].key != tx.key
    ensures KeysOk(s.(open := s.open[t := tx]))
  {
    var s' := s.(open := s.open[t := tx]);
    SameKeys(s, s');
    forall u | u in s'.open ensures OpenOk(s', s'.open[u]) {
      if u != t { assert OpenOk(s, s.open[u]); }
    }
  }

  /** A transaction that ends without a write. */
  lemma EndKeepsKeys(s: State, t: int, s': State)
    requires KeysOk(s) && s' == s.(open := s.open - {t}, answers := s'.answers)
    requires forall i | 0 <= i < |s'.answers| :: s'.answers[i].key in s.keys
    ensures KeysOk(s')
  {
    SameKeys(s, s');
    forall u | u in s'.open ensures OpenOk(s', s'.open[u]) {
      assert OpenOk(s, s.open[u]);
    }
  }

  lemma WriteKeepsKeys(s: State, t: int)
    requires KeysOk(s) && Enabled(s, Commit(t)) && s.open[t].phase.Completed?
    ensures KeysOk(Apply(s, Commit(t)))
  {
    var s', tx := Apply(s, Commit(t)), s.open[t];
    assert OpenOk(s, tx);
    forall key ensures key in s'.keys <==> WrittenOnce(s', key) {
      if WrittenOnce(s, key) {
        var i :| 0 <= i < |s.writes| && s.writes[i].key == key;
        assert s'.writes[i].key == key;
      }
      assert s'.writes[|s.writes|].key == tx.key;
    }
    forall u | u in s'.open ensures OpenOk(s', s'.open[u]) {
      assert OpenOk(s, s.open[u]);
    }
  }

  // -- What holds of a key under which no write answered null ------------------------------------------------

  ghost predicate NeverNull(s: State, key: Key) {
    forall i | 0 <= i < |s.writes| && s.writes[i].key == key :: s.writes[i].answer.Some?
  }

  ghost predicate PhaseOk(s: State, tx: Transaction) {
    match tx.phase
    case Conflicted => true
    case Running(owner) => owner
    case Written(owner, _) => owner
    case Completed(owner, _) => owner
    case Answered(stored) => tx.key in s.keys && s.keys[tx.key] == Row(tx.fingerprint, Some(stored))
    case Refused => tx.key in s.keys && s.keys[tx.key].fingerprint != tx.fingerprint
  }

  ghost predicate CallOk(s: State, call: Call) {
    call.answer.Some? && call.key in s.keys && s.keys[call.key] == Row(call.fingerprint, call.answer)
  }

  /** What is stored under the key is its one write's answer, and every call that succeeded was answered that. */
  ghost predicate SpentOk(s: State, key: Key) {
    && (key in s.keys ==> s.keys[key].response.Some?)
    && (forall t | t in s.open && s.open[t].key == key :: PhaseOk(s, s.open[t]))
    && (forall i | 0 <= i < |s.writes| && s.writes[i].key == key :: CallOk(s, s.writes[i]))
    && (forall i, j | 0 <= i < j < |s.writes| :: s.writes[i].key != key || s.writes[j].key != key)
    && (forall i | 0 <= i < |s.answers| && s.answers[i].key == key :: CallOk(s, s.answers[i]))
  }

  lemma StepKeepsSpent(s: State, a: Action, key: Key)
    requires KeysOk(s) && SpentOk(s, key) && Enabled(s, a) && NeverNull(Apply(s, a), key)
    ensures SpentOk(Apply(s, a), key)
  {
    var s' := Apply(s, a);
    if a.Commit? {
      CommitKeepsSpent(s, a.t, key);
    } else {
      assert s'.keys == s.keys && s'.writes == s.writes && s'.answers == s.answers;
      if a.t in s.open { assert OpenOk(s, s.open[a.t]); }
      forall t | t in s'.open && s'.open[t].key == key ensures PhaseOk(s', s'.open[t]) {
        if t in s.open && s.open[t].key == key { assert PhaseOk(s, s.open[t]); }
      }
    }
  }

  lemma CommitKeepsSpent(s: State, t: int, key: Key)
    requires KeysOk(s) && SpentOk(s, key) && Enabled(s, Commit(t)) && NeverNull(Apply(s, Commit(t)), key)
    ensures SpentOk(Apply(s, Commit(t)), key)
  {
    var s', tx := Apply(s, Commit(t)), s.open[t];
    assert OpenOk(s, tx);
    if tx.key == key && tx.phase.Completed? {
      assert PhaseOk(s, tx) && key !in s.keys && !WrittenOnce(s, key);
      assert s'.writes[|s.writes|] == Call(key, tx.fingerprint, tx.phase.answer);
      forall u | u in s'.open ensures s'.open[u].key != key || PhaseOk(s', s'.open[u]) {
        assert OpenOk(s, s.open[u]);
      }
    } else {
      if tx.key == key { assert PhaseOk(s, tx); }
      forall u | u in s'.open && s'.open[u].key == key ensures PhaseOk(s', s'.open[u]) {
        assert PhaseOk(s, s.open[u]);
      }
    }
  }

  lemma {:induction false} RunKeepsKeys(actions: seq<Action>, key: Key)
    requires Execute(START, actions).Some?
    ensures KeysOk(Execute(START, actions).value)
    ensures NeverNull(Execute(START, actions).value, key) ==> SpentOk(Execute(START, actions).value, key)
  {
    if actions == [] {
    } else {
      var init, last := actions[..|actions| - 1], actions[|actions| - 1];
      RunKeepsKeys(init, key);
      var s, s' := Execute(START, init).value, Execute(START, actions).value;
      StepKeepsKeys(s, last);
      if NeverNull(s', key) {
        forall i | 0 <= i < |s.writes| && s.writes[i].key == key ensures s.writes[i].answer.Some? {
          assert s'.writes[i] == s.writes[i];
        }
        StepKeepsSpent(s, last, key);
      }
    }
  }

  // -- Main results --------------------------------------------------------------------------------------

  /** One committed write under the key at most, and its non-null answer to every call that succeeds with the key. */
  ghost predicate OneAnswer(s: State, key: Key) {
    && (forall i, j | 0 <= i < |s.writes| && 0 <= j < |s.writes| && s.writes[i].key == key == s.writes[j].key :: i == j)
    && (forall i | 0 <= i < |s.answers| && s.answers[i].key == key ::
        s.answers[i].answer.Some? && s.answers[i] in s.writes)
    && (forall i, j | 0 <= i < |s.answers| && 0 <= j < |s.answers| && s.answers[i].key == key == s.answers[j].key ::
          s.answers[i] == s.answers[j])
  }

  /** Every committed write was answered to its caller. */
  lemma {:induction false} WritesAreAnswered(actions: seq<Action>)
    requires Execute(START, actions).Some?
    ensures var s := Execute(START, actions).value;
            forall i | 0 <= i < |s.writes| :: s.writes[i] in s.answers
  {
    if actions == [] {
    } else {
      var init, last := actions[..|actions| - 1], actions[|actions| - 1];
      WritesAreAnswered(init);
      var s, s' := Execute(START, init).value, Execute(START, actions).value;
      assert forall call | call in s.answers :: call in s'.answers;
      forall i | 0 <= i < |s'.writes| ensures s'.writes[i] in s'.answers {
        if i < |s.writes| {
          assert s'.writes[i] == s.writes[i];
        } else {
          assert s'.writes[i] == s'.answers[|s.answers|];
        }
      }
    }
  }

  /** Over every interleaving: a key has one write and one non-null answer exactly if no committed write under it
      answered null. */
  lemma OneWriteOneAnswer(actions: seq<Action>, key: Key)
    requires Execute(START, actions).Some?
    ensures var s := Execute(START, actions).value;
            && (OneAnswer(s, key) <==> NeverNull(s, key))
            && (key in s.keys <==> exists i :: 0 <= i < |s.writes| && s.writes[i].key == key)
  {
    RunKeepsKeys(actions, key);
    WritesAreAnswered(actions);
    var s := Execute(START, actions).value;
    assert key in s.keys <==> WrittenOnce(s, key);
    if NeverNull(s, key) {
      forall i | 0 <= i < |s.answers| && s.answers[i].key == key ensures s.answers[i] in s.writes {
        assert CallOk(s, s.answers[i]);
        var j :| 0 <= j < |s.writes| && s.writes[j].key == key;
        assert CallOk(s, s.writes[j]);
      }
    }
    if OneAnswer(s, key) {
      forall i | 0 <= i < |s.writes| && s.writes[i].key == key ensures s.writes[i].answer.Some? {
        assert s.writes[i] in s.answers;
        var k :| 0 <= k < |s.answers| && s.answers[k] == s.writes[i];
      }
    }
  }

  /** Calls wait for nothing but an owner of their key: any other may claim it at any moment, go on, and abort. */
  lemma OnlyOwnersBlock(actions: seq<Action>, t: int, key: Key, fingerprint: int, answer: Option<Json>)
    requires Execute(START, actions).Some?
    ensures var s := Execute(START, actions).value;
            && (t !in s.open && (forall u | u in s.open && s.open[u].key == key :: !s.open[u].phase.OwnsKey()) ==>
                  Enabled(s, Claim(t, key, fingerprint)))
            && (t in s.open ==>
                  var phase := s.open[t].phase;
                  && Enabled(s, Abort(t))
                  && (phase == Conflicted ==> Enabled(s, ReadStored(t)))
                  && (phase.Running? ==> Enabled(s, Write(t, answer)))
                  && (phase.Written? ==> Enabled(s, Complete(t)))
                  && (phase.Completed? || phase.Answered? ==> Enabled(s, Commit(t))))
  {
    var s := Execute(START, actions).value;
    RunKeepsKeys(actions, key);
    if t in s.open {
      assert OpenOk(s, s.open[t]);
    }
  }

  /** An aborted owner leaves its key free: no row, no write, and the next claim of it runs. */
  lemma AbortFreesTheKey(actions: seq<Action>, t: int, u: int, fingerprint: int)
    requires Execute(START, actions).Some?
    requires var s := Execute(START, actions).value; t in s.open && s.open[t].phase.OwnsKey() && u !in s.open
    ensures var s := Execute(START, actions).value;
            var after := Apply(s, Abort(t));
            var key := s.open[t].key;
            && key !in after.keys && (forall i | 0 <= i < |after.writes| :: after.writes[i].key != key)
            && Enabled(after, Claim(u, key, fingerprint))
            && Apply(after, Claim(u, key, fingerprint)).open[u].phase == Running(true)
  {
    var s := Execute(START, actions).value;
    var key := s.open[t].key;
    RunKeepsKeys(actions, key);
    assert OpenOk(s, s.open[t]);
    assert !WrittenOnce(s, key);
  }

  /** A key spent on another request is refused: the transaction can neither write nor commit, only abort. */
  lemma OtherRequestIsRefused(s: State, t: int, a: Action)
    requires Enabled(s, ReadStored(t)) && s.keys[s.open[t].key].fingerprint != s.open[t].fingerprint
    ensures Apply(s, ReadStored(t)).open[t].phase == Refused
    ensures Enabled(Apply(s, ReadStored(t)), a) && a.t == t ==>
              a.Abort? && Apply(Apply(s, ReadStored(t)), a) == s.(open := s.open - {t})
  {
    if a.Abort? && a.t == t {
      assert Apply(Apply(s, ReadStored(t)), a).open == s.open - {t};
    }
  }

  /** What the condition does to a caller: a retry of a committed call answers from the store if that call's answer was
      not null, and writes a second time if it was. */
  lemma RetryWritesAgainIffNull(key: Key, fingerprint: int, first: Option<Json>, second: Json)
      returns (actions: seq<Action>, s: State)
    ensures Execute(START, actions) == Some(s)
    ensures s.answers == [Call(key, fingerprint, first),
              Call(key, fingerprint, if first.Some? then first else Some(second))]
    ensures |s.writes| == if first == None then 2 else 1
    ensures forall i | 0 <= i < |s.writes| :: s.writes[i].key == key
  {
    actions := WriteIsARun(START, key, fingerprint, first);
    s := Execute(START, actions).value;
    var retry: seq<Action>;
    if first == None {
      retry := WriteIsARun(s, key, fingerprint, Some(second));
    } else {
      retry := RetryIsARun(s, key, fingerprint);
    }
    ExecuteConcat(START, actions, retry);
    actions, s := actions + retry, Execute(s, retry).value;
  }

  lemma {:induction false} ExecuteConcat(from: State, first: seq<Action>, second: seq<Action>)
    requires Execute(from, first).Some?
    ensures Execute(from, first + second) == Execute(Execute(from, first).value, second)
  {
    if second == [] {
      assert first + second == first;
    } else {
      var init, last := second[..|second| - 1], second[|second| - 1];
      ExecuteConcat(from, first, init);
      assert (first + second)[..|first + second| - 1] == first + init;
    }
  }
}

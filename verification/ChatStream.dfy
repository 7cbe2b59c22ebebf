/** One reader of the chat stream against every interleaving of posts and deletions: it subscribes first, reads the
    snapshot second, then follows its queue. Over the memory store and bus a post or a deletion never suspends between
    the store and the bus, so each is one step here; the snapshot read is a step of its own. */
module ChatStream {
  import opened Common
  import opened ChatStore
  import opened ChatBus
  import PlayDay

  datatype Reader =
    | Away
    | Joined(feed: Feed, joinedAt: int)
    | Reading(feed: Feed, joinedAt: int, boundary: int, snapshot: seq<Message>, received: seq<ChatEvent>)

  /** `gone` are the ids deleted so far, `log` what was published since the reader joined: records for stating what
      holds, which no step reads. */
  datatype State = State(store: Store, clock: int, reader: Reader, size: int, gone: set<int>, log: seq<ChatEvent>)
  {
    function Announce(event: ChatEvent): State {
      if reader.Away? then this
      else this.(reader := reader.(feed := reader.feed.Offered(event)), log := log + [event])
    }
  }

  datatype Action =
    | Post(author: string, name: string, body: string, admin: bool, at: int)
    | Delete(id: int)
    | Join(at: int)
    | Read(at: int)
    | Receive
    | Leave

  function Start(maxKept: nat, size: int, clock: int): State { State(Store([], 1, maxKept), clock, Away, size, {}, []) }

  predicate Enabled(s: State, a: Action) {
    match a
    case Post(_, _, _, _, at) => at >= s.clock
    case Delete(id) => exists i | 0 <= i < |s.store.messages| :: s.store.messages[i].id == id
    case Join(at) => at >= s.clock && s.reader.Away?
    case Read(at) => at >= s.clock && s.reader.Joined?
    case Receive => s.reader.Reading? && s.reader.feed.queue != []
    case Leave => !s.reader.Away?
  }

  function Apply(s: State, a: Action): State
    requires Enabled(s, a)
  {
    match a
    case Post(author, name, body, admin, at) =>
      var message := Message(s.store.nextId, author, name, body, at, admin);
      s.(store := s.store.Append(message), clock := at).Announce(Posted(message))
    case Delete(id) => s.(store := s.store.Delete(id), gone := s.gone + {id}).Announce(Deleted(id))
    case Join(at) => s.(reader := Joined(Feed([], true, s.size), at), clock := at, log := [])
    case Read(at) =>
      var boundary := PlayDay.HistoryStart(at);
      s.(clock := at,
         reader := Reading(s.reader.feed, s.reader.joinedAt, boundary, Since(s.store.messages, boundary), []))
    case Receive =>
      var item := s.reader.feed.queue[0];
      var rest := s.reader.feed.(queue := s.reader.feed.queue[1..]);
      s.(reader := s.reader.(feed := rest,
                             received := s.reader.received + if item.Closed? then [] else [item.event]))
    case Leave => s.(reader := Away)
  }

  ghost function Execute(from: State, actions: seq<Action>): Option<State> {
    if actions == [] then Some(from) else
      var before, last := Execute(from, actions[..|actions| - 1]), actions[|actions| - 1];
      if before.Some? && Enabled(before.value, last) then Some(Apply(before.value, last)) else None
  }

  // -- What the client shows ----------------------------------------------------------------------

  /** A message is added once, by id; a deletion removes it. */
  ghost function Show(list: seq<Message>, event: ChatEvent): seq<Message> {
    match event
    case Posted(m) => if m.id in Ids(list) then list else list + [m]
    case Deleted(id) => WithoutId(list, id)
  }

  ghost function Replay(list: seq<Message>, events: seq<ChatEvent>): seq<Message> {
    if events == [] then list else Show(Replay(list, events[..|events| - 1]), events[|events| - 1])
  }

  ghost function Shown(s: State): seq<Message>
    requires s.reader.Reading?
  {
    Replay(s.reader.snapshot, s.reader.received)
  }

  lemma ReplayAppended(list: seq<Message>, events: seq<ChatEvent>, event: ChatEvent)
    ensures Replay(list, events + [event]) == Show(Replay(list, events), event)
  {
    assert (events + [event])[..|events|] == events;
  }

  // -- The invariant ----------------------------------------------------------------------------------

  ghost function Pending(queue: seq<Item>): seq<ChatEvent> {
    if queue == [] then [] else (if queue[0].Closed? then [] else [queue[0].event]) + Pending(queue[1..])
  }

  lemma {:induction false} PendingAppended(queue: seq<Item>, event: ChatEvent)
    ensures Pending(queue + [Event(event)]) == Pending(queue) + [event]
  {
    if queue == [] {
    } else {
      PendingAppended(queue[1..], event);
      assert (queue + [Event(event)])[1..] == queue[1..] + [Event(event)];
    }
  }

  ghost predicate StoreOk(s: State) {
    && s.store.Valid()
    && (forall id | id in s.gone :: id < s.store.nextId && id !in Ids(s.store.messages))
    && (forall m | m in s.store.messages :: m.createdAt <= s.clock)
  }

  /** What was announced since the reader joined agrees with the store. */
  ghost predicate LoggedOk(s: State, event: ChatEvent, joinedAt: int) {
    match event
    case Posted(m) =>
      && m.id < s.store.nextId && m.createdAt >= joinedAt
      && (m.id in Ids(s.store.messages) ==> m in s.store.messages)
    case Deleted(id) => id in s.gone
  }

  /** Nothing received out of order or left out: what was taken and what is queued make up the log, until a drop. */
  ghost predicate DeliveryOk(feed: Feed, received: seq<ChatEvent>, log: seq<ChatEvent>) {
    if feed.subscribed then Closed !in feed.queue && received + Pending(feed.queue) == log
    else received <= log && (feed.queue == [Closed] || feed.queue == [])
  }

  /** Replaying the log over a list without deleted messages leaves none. */
  ghost predicate LogIsClean(s: State) {
    forall list: seq<Message> :: Ids(list) !! s.gone ==> Ids(Replay(list, s.log)) !! s.gone
  }

  ghost predicate ReaderOk(s: State) {
    match s.reader
    case Away => true
    case Joined(feed, joinedAt) =>
      && joinedAt <= s.clock && (feed.queue == [] ==> feed.subscribed) && DeliveryOk(feed, [], s.log)
      && (forall e | e in s.log :: LoggedOk(s, e, joinedAt)) && LogIsClean(s)
    case Reading(feed, joinedAt, boundary, snapshot, received) =>
      && joinedAt <= s.clock && DeliveryOk(feed, received, s.log)
      && Ids(Replay(snapshot, s.log)) !! s.gone
      && (forall m | m in Replay(snapshot, s.log) :: m.id < s.store.nextId)
      && (boundary <= joinedAt ==>
            Among(Replay(snapshot, s.log), Ids(s.store.messages)) == Since(s.store.messages, boundary))
  }

  /** A subscribed reader's queue is within its size, and one without a size is always subscribed. */
  ghost predicate SizeOk(feed: Feed, size: int) {
    && feed.size == size
    && (size > 0 && feed.subscribed ==> |feed.queue| <= size)
    && (size <= 0 ==> feed.subscribed)
  }

  ghost predicate Inv(s: State) { StoreOk(s) && ReaderOk(s) && (s.reader.Away? || SizeOk(s.reader.feed, s.size)) }

  // -- Posts and deletions keep the replayed list in step with the store ------------------------------------

  /** Appending keeps a tail of the list and adds the message behind it. */
  lemma AppendedList(store: Store, m: Message) returns (dropped: seq<Message>, rest: seq<Message>)
    requires store.Valid() && store.maxKept > 0
    ensures store.messages == dropped + rest && store.Append(m).messages == rest + [m]
    ensures Ids(dropped) !! Ids(rest) && Ids(rest) <= Ids(store.messages)
  {
    var grown := store.messages + [m];
    var cut := if |grown| > store.maxKept then |grown| - store.maxKept else 0;
    dropped, rest := store.messages[..cut], store.messages[cut..];
    assert grown[cut..] == rest + [m];
    assert store.messages == dropped + rest;
  }

  lemma PostKeepsStep(store: Store, replayed: seq<Message>, m: Message, boundary: int)
    requires store.Valid() && m.id == store.nextId && m.createdAt >= boundary
    requires forall x | x in replayed :: x.id < store.nextId
    requires Among(replayed, Ids(store.messages)) == Since(store.messages, boundary)
    ensures Among(replayed + [m], Ids(store.Append(m).messages)) == Since(store.Append(m).messages, boundary)
  {
    if store.maxKept == 0 {
      assert store.Append(m).messages == [] && Ids([]) == {};
      AmongAll(replayed + [m], {});
    } else {
      var dropped, rest := AppendedList(store, m);
      AppendedStep(dropped, rest, replayed, m, boundary);
    }
  }

  lemma AppendedStep(dropped: seq<Message>, rest: seq<Message>, replayed: seq<Message>, m: Message, boundary: int)
    requires Ids(dropped) !! Ids(rest) && Ids(rest) <= Ids(dropped + rest) && m.createdAt >= boundary
    requires forall x | x in replayed :: x.id != m.id
    requires Among(replayed, Ids(dropped + rest)) == Since(dropped + rest, boundary)
    ensures Among(replayed + [m], Ids(rest + [m])) == Since(rest + [m], boundary)
  {
    assert Ids(rest + [m]) == Ids(rest) + {m.id};
    AmongConcat(replayed, [m], Ids(rest) + {m.id});
    OneMessage(m, Ids(rest) + {m.id}, boundary);
    AmongIgnores(replayed, Ids(rest), m.id);
    AmongAmong(replayed, Ids(dropped + rest), Ids(rest));
    RestOfStore(dropped, rest, boundary);
    SinceConcat(rest, [m], boundary);
  }

  lemma OneMessage(m: Message, ids: set<int>, boundary: int)
    requires m.id in ids && m.createdAt >= boundary
    ensures Among([m], ids) == [m] == Since([m], boundary)
  {
    assert [m][1..] == [];
  }

  lemma RestOfStore(dropped: seq<Message>, rest: seq<Message>, boundary: int)
    requires Ids(dropped) !! Ids(rest)
    ensures Among(Since(dropped + rest, boundary), Ids(rest)) == Since(rest, boundary)
  {
    SinceConcat(dropped, rest, boundary);
    AmongConcat(Since(dropped, boundary), Since(rest, boundary), Ids(rest));
    SinceIds(dropped, boundary);
    SinceIds(rest, boundary);
    AmongAll(Since(dropped, boundary), Ids(rest));
    AmongAll(Since(rest, boundary), Ids(rest));
  }

  lemma {:induction false} AmongIgnores(list: seq<Message>, ids: set<int>, id: int)
    requires forall x | x in list :: x.id != id
    ensures Among(list, ids + {id}) == Among(list, ids)
  {
    if list == [] {
    } else {
      assert list[0] in list;
      AmongIgnores(list[1..], ids, id);
    }
  }

  lemma DeleteKeepsStep(store: Store, replayed: seq<Message>, id: int, boundary: int)
    requires Among(replayed, Ids(store.messages)) == Since(store.messages, boundary)
    ensures Among(WithoutId(replayed, id), Ids(store.Delete(id).messages)) == Since(store.Delete(id).messages, boundary)
  {
    var ids := Ids(store.messages);
    WithoutIds(store.messages, id);
    AmongWithout(replayed, id, ids);
    AmongWithout(replayed, id, ids - {id});
    assert ids - {id} - {id} == ids - {id};
    SinceWithout(store.messages, boundary, id);
  }

  lemma {:induction false} AmongMembers(list: seq<Message>, ids: set<int>)
    ensures forall m :: m in Among(list, ids) <==> m in list && m.id in ids
  {
    if list == [] {
    } else {
      AmongMembers(list[1..], ids);
      assert list == [list[0]] + list[1..];
    }
  }

  /** What was announced before the snapshot was read, applied after it, adds nothing the store still keeps. */
  lemma {:induction false} ReplayAtRead(s: State, joinedAt: int, boundary: int, events: seq<ChatEvent>)
    requires boundary <= joinedAt && forall e | e in events :: LoggedOk(s, e, joinedAt)
    requires forall id | id in s.gone :: id !in Ids(s.store.messages)
    ensures Among(Replay(Since(s.store.messages, boundary), events), Ids(s.store.messages))
         == Since(s.store.messages, boundary)
  {
    var ids, visible := Ids(s.store.messages), Since(s.store.messages, boundary);
    if events == [] {
      SinceIds(s.store.messages, boundary);
      AmongAll(visible, ids);
    } else {
      var init, last := events[..|events| - 1], events[|events| - 1];
      assert last in events;
      ReplayAtRead(s, joinedAt, boundary, init);
      var before := Replay(visible, init);
      match last {
        case Posted(m) =>
          if m.id !in Ids(before) {
            AmongMembers(before, ids);
            SinceMembers(s.store.messages, boundary);
            assert m.id !in ids;
            AmongConcat(before, [m], ids);
          }
        case Deleted(id) =>
          AmongWithout(before, id, ids);
          assert ids - {id} == ids;
      }
    }
  }

  lemma {:induction false} ReplayIdsBounded(list: seq<Message>, events: seq<ChatEvent>, limit: int)
    requires forall m | m in list :: m.id < limit
    requires forall e | e in events && e.Posted? :: e.message.id < limit
    ensures forall m | m in Replay(list, events) :: m.id < limit
  {
    if events == [] {
    } else {
      var init, last := events[..|events| - 1], events[|events| - 1];
      ReplayIdsBounded(list, init, limit);
      if last.Deleted? {
        WithoutIds(Replay(list, init), last.id);
      } else {
        assert last in events;
      }
    }
  }

  // -- Each step keeps it -----------------------------------------------------------------------------------------

  lemma OfferKeepsDelivery(feed: Feed, received: seq<ChatEvent>, log: seq<ChatEvent>, event: ChatEvent)
    requires DeliveryOk(feed, received, log)
    ensures DeliveryOk(feed.Offered(event), received, log + [event])
  {
    PendingAppended(feed.queue, event);
    if feed.subscribed && feed.Full() {
      assert received <= received + Pending(feed.queue);
    }
  }

  lemma CleanAfterPost(s: State, s': State, m: Message)
    requires LogIsClean(s) && s'.gone == s.gone && s'.log == s.log + [Posted(m)] && m.id !in s.gone
    ensures LogIsClean(s')
  {
    forall list: seq<Message> | Ids(list) !! s.gone ensures Ids(Replay(list, s'.log)) !! s.gone {
      ReplayAppended(list, s.log, Posted(m));
      assert Ids(Replay(list, s.log)) !! s.gone;
    }
  }

  lemma CleanAfterDelete(s: State, s': State, id: int)
    requires LogIsClean(s) && s'.gone == s.gone + {id} && s'.log == s.log + [Deleted(id)]
    ensures LogIsClean(s')
  {
    forall list: seq<Message> | Ids(list) !! s'.gone ensures Ids(Replay(list, s'.log)) !! s'.gone {
      ReplayAppended(list, s.log, Deleted(id));
      assert Ids(Replay(list, s.log)) !! s.gone;
      WithoutIds(Replay(list, s.log), id);
    }
  }

  lemma PostKeepsInv(s: State, a: Action)
    requires Inv(s) && Enabled(s, a) && a.Post?
    ensures Inv(Apply(s, a))
  {
    var s' := Apply(s, a);
    var m := Message(s.store.nextId, a.author, a.name, a.body, a.at, a.admin);
    PostKeepsStore(s, s', m);
    if s.reader.Joined? {
      PostReachesJoined(s, s', m);
    } else if s.reader.Reading? {
      PostReachesReading(s, s', m);
    }
  }

  ghost predicate Posts(s: State, s': State, m: Message) {
    && Inv(s) && m.id == s.store.nextId && m.createdAt >= s.clock && m.id !in s.gone
    && s' == s.(store := s.store.Append(m), clock := m.createdAt).Announce(Posted(m))
  }

  lemma AppendedMembers(store: Store, m: Message)
    ensures forall x | x in store.Append(m).messages :: x in store.messages || x == m
  {
    var grown := store.messages + [m];
    assert forall x | x in grown :: x in store.messages || x == m;
  }

  lemma PostKeepsStore(s: State, s': State, m: Message)
    requires Posts(s, s', m)
    ensures StoreOk(s')
  {
    StoreStaysValid(s.store, m, 0);
    AppendedMembers(s.store, m);
    assert s'.store == s.store.Append(m) && s'.gone == s.gone && s'.clock == m.createdAt;
  }

  lemma PostReachesJoined(s: State, s': State, m: Message)
    requires Posts(s, s', m) && s.reader.Joined? && StoreOk(s')
    ensures ReaderOk(s')
  {
    forall e | e in s'.log ensures LoggedOk(s', e, s.reader.joinedAt) {
      if e in s.log {
        assert LoggedOk(s, e, s.reader.joinedAt);
        if e.Posted? { KeptUnderItsId(s.store, m, e.message); }
      } else {
        assert e == Posted(m);
        KeptUnderItsId(s.store, m, m);
      }
    }
    CleanAfterPost(s, s', m);
    OfferKeepsDelivery(s.reader.feed, [], s.log, Posted(m));
  }

  /** Under an id the store knows there is one message, before and after another is appended. */
  lemma KeptUnderItsId(store: Store, m: Message, x: Message)
    requires store.Valid() && m.id == store.nextId
    requires x == m || (x.id < store.nextId && (x.id in Ids(store.messages) ==> x in store.messages))
    ensures x.id in Ids(store.Append(m).messages) ==> x in store.Append(m).messages
  {
    if store.maxKept > 0 {
      var dropped, rest := AppendedList(store, m);
      if x.id in Ids(rest) {
        var y :| y in rest && y.id == x.id;
        assert y in store.messages && x in store.messages;
        var i :| 0 <= i < |store.messages| && store.messages[i] == x;
        var j :| 0 <= j < |store.messages| && store.messages[j] == y;
      } else {
        assert forall z :: z in rest + [m] <==> z in rest || z == m;
      }
    }
  }

  lemma PostReachesReading(s: State, s': State, m: Message)
    requires Posts(s, s', m) && s.reader.Reading? && StoreOk(s')
    ensures ReaderOk(s')
  {
    var snapshot, replayed := s.reader.snapshot, Replay(s.reader.snapshot, s.log);
    OfferKeepsDelivery(s.reader.feed, s.reader.received, s.log, Posted(m));
    ReplayAppended(snapshot, s.log, Posted(m));
    assert m.id !in Ids(replayed);
    NewIdReplayed(replayed, m, s.gone, s.store.nextId);
    if s.reader.boundary <= s.reader.joinedAt {
      PostKeepsStep(s.store, replayed, m, s.reader.boundary);
    }
  }

  lemma NewIdReplayed(replayed: seq<Message>, m: Message, gone: set<int>, nextId: int)
    requires m.id == nextId && m.id !in gone && Ids(replayed) !! gone
    requires forall x | x in replayed :: x.id < nextId
    ensures Show(replayed, Posted(m)) == replayed + [m]
    ensures Ids(replayed + [m]) !! gone
    ensures forall x | x in replayed + [m] :: x.id < nextId + 1
  {
    assert Ids(replayed + [m]) == Ids(replayed) + {m.id};
  }

  lemma DeleteKeepsInv(s: State, a: Action)
    requires Inv(s) && Enabled(s, a) && a.Delete?
    ensures Inv(Apply(s, a))
  {
    var s' := Apply(s, a);
    StoreStaysValid(s.store, Message(s.store.nextId, "", "", "", 0, false), a.id);
    WithoutIds(s.store.messages, a.id);
    if s.reader.Joined? {
      forall e | e in s'.log ensures LoggedOk(s', e, s.reader.joinedAt) {
        if e in s.log { assert LoggedOk(s, e, s.reader.joinedAt); }
      }
      CleanAfterDelete(s, s', a.id);
      OfferKeepsDelivery(s.reader.feed, [], s.log, Deleted(a.id));
    } else if s.reader.Reading? {
      var replayed := Replay(s.reader.snapshot, s.log);
      OfferKeepsDelivery(s.reader.feed, s.reader.received, s.log, Deleted(a.id));
      ReplayAppended(s.reader.snapshot, s.log, Deleted(a.id));
      WithoutIds(replayed, a.id);
      if s.reader.boundary <= s.reader.joinedAt {
        DeleteKeepsStep(s.store, replayed, a.id, s.reader.boundary);
      }
    }
  }

  lemma ReadKeepsInv(s: State, a: Action)
    requires Inv(s) && Enabled(s, a) && a.Read?
    ensures Inv(Apply(s, a))
  {
    var s' := Apply(s, a);
    var snapshot, joinedAt := s'.reader.snapshot, s.reader.joinedAt;
    SinceMembers(s.store.messages, s'.reader.boundary);
    SinceIds(s.store.messages, s'.reader.boundary);
    assert Ids(snapshot) !! s.gone;
    forall e | e in s.log && e.Posted? ensures e.message.id < s.store.nextId {
      assert LoggedOk(s, e, joinedAt);
    }
    ReplayIdsBounded(snapshot, s.log, s.store.nextId);
    if s'.reader.boundary <= joinedAt {
      ReplayAtRead(s, joinedAt, s'.reader.boundary, s.log);
    }
  }

  lemma ReceiveKeepsInv(s: State, a: Action)
    requires Inv(s) && Enabled(s, a) && a.Receive?
    ensures Inv(Apply(s, a))
  {
    var queue, received := s.reader.feed.queue, s.reader.received;
    if s.reader.feed.subscribed {
      assert queue[0] in queue;
      assert received + Pending(queue) == (received + [queue[0].event]) + Pending(queue[1..]);
    }
  }

  lemma StepKeepsInv(s: State, a: Action)
    requires Inv(s) && Enabled(s, a)
    ensures Inv(Apply(s, a))
  {
    match a
    case Post(_, _, _, _, _) => PostKeepsInv(s, a);
    case Delete(_) => DeleteKeepsInv(s, a);
    case Join(_) =>
    case Read(_) => ReadKeepsInv(s, a);
    case Receive => ReceiveKeepsInv(s, a);
    case Leave =>
  }

  lemma {:induction false} RunKeepsInv(from: State, actions: seq<Action>)
    requires Inv(from) && Execute(from, actions).Some?
    ensures Inv(Execute(from, actions).value)
  {
    if actions == [] {
    } else {
      RunKeepsInv(from, actions[..|actions| - 1]);
      StepKeepsInv(Execute(from, actions[..|actions| - 1]).value, actions[|actions| - 1]);
    }
  }

  // -- Main results, for every run ------------------------------------------------------------------------------------

  ghost predicate Reachable(s: State) {
    exists actions, maxKept, size, clock :: Execute(Start(maxKept, size, clock), actions) == Some(s)
  }

  lemma ReachableOk(s: State)
    requires Reachable(s)
    ensures Inv(s)
  {
    var actions, maxKept, size, clock :| Execute(Start(maxKept, size, clock), actions) == Some(s);
    RunKeepsInv(Start(maxKept, size, clock), actions);
  }

  /** Convergence: a reader still subscribed whose queue is drained shows, of what the store keeps, exactly the
      store's list in the store's order, whatever was posted, deleted or pushed out around its reading. */
  lemma DrainedReaderShowsTheStore(s: State)
    requires Reachable(s) && s.reader.Reading? && s.reader.feed.subscribed && s.reader.feed.queue == []
    requires s.reader.boundary <= s.reader.joinedAt
    ensures Among(Shown(s), Ids(s.store.messages)) == Since(s.store.messages, s.reader.boundary)
  {
    ReachableOk(s);
    assert s.reader.received == s.log;
  }

  /** And nothing deleted is shown, early or late. */
  lemma NothingDeletedIsShown(s: State)
    requires Reachable(s) && s.reader.Reading? && s.reader.feed.subscribed && s.reader.feed.queue == []
    ensures Ids(Shown(s)) !! s.gone
  {
    ReachableOk(s);
    assert s.reader.received == s.log;
  }

  /** What a reader received is a prefix of what was published since it joined, complete once its queue is drained;
      a dropped reader keeps such a prefix, with nothing queued behind it but the end of its stream. */
  lemma DeliveredWithoutGap(s: State)
    requires Reachable(s) && s.reader.Reading?
    ensures s.reader.received <= s.log
    ensures s.reader.feed.subscribed && s.reader.feed.queue == [] ==> s.reader.received == s.log
    ensures !s.reader.feed.subscribed ==> s.reader.feed.queue == [Closed] || s.reader.feed.queue == []
  {
    ReachableOk(s);
  }

  /** The runs are those of every store bound and every queue size, from any moment on. */
  lemma EveryBoundIsStartedFrom(maxKept: nat, size: int, clock: int)
    ensures Reachable(State(Store([], 1, maxKept), clock, Away, size, {}, []))
  {
    assert Execute(Start(maxKept, size, clock), []) == Some(Start(maxKept, size, clock));
  }

  /** What can happen when: anyone may post at any moment, a kept message may be deleted, a reader who is away may join,
      one who joined may read, one who read may take what is queued, and one who is not away may leave. */
  lemma AnyoneMayAct(s: State, author: string, name: string, body: string, admin: bool, at: int, id: int)
    ensures at >= s.clock ==> Enabled(s, Post(author, name, body, admin, at))
    ensures Enabled(s, Delete(id)) <==> id in Ids(s.store.messages)
    ensures at >= s.clock ==> (Enabled(s, Join(at)) <==> s.reader.Away?)
    ensures at >= s.clock ==> (Enabled(s, Read(at)) <==> s.reader.Joined?)
    ensures Enabled(s, Receive) <==> s.reader.Reading? && s.reader.feed.queue != []
    ensures Enabled(s, Leave) <==> !s.reader.Away?
  {
    if id in Ids(s.store.messages) {
      var m :| m in s.store.messages && m.id == id;
      var i :| 0 <= i < |s.store.messages| && s.store.messages[i] == m;
    }
  }

  /** A subscribed reader's queue never exceeds its size; one without a size is never dropped. */
  lemma QueueIsBounded(s: State)
    requires Reachable(s) && !s.reader.Away?
    ensures s.size > 0 && s.reader.feed.subscribed ==> |s.reader.feed.queue| <= s.size
    ensures s.size <= 0 ==> s.reader.feed.subscribed
  {
    ReachableOk(s);
  }

  /** A reader joins subscribed, with nothing queued. From then on a post or a deletion drops it exactly if as many
      events as its size are queued, and otherwise is queued last; nothing else drops it. */
  lemma DroppedExactlyWhenFull(s: State, a: Action)
    requires Reachable(s) && Enabled(s, a)
    ensures a.Join? ==> Apply(s, a).reader.feed.subscribed && Apply(s, a).reader.feed.queue == []
    ensures !s.reader.Away? && s.reader.feed.subscribed && !a.Leave? ==>
              var before, after := s.reader.feed, Apply(s, a).reader.feed;
              && (!after.subscribed <==> (a.Post? || a.Delete?) && s.size > 0 && |before.queue| == s.size)
              && (!after.subscribed ==> after.queue == [Closed])
              && (a.Delete? && after.subscribed ==> after.queue == before.queue + [Event(Deleted(a.id))])
              && (a.Post? && after.subscribed ==>
                    after.queue == before.queue
                      + [Event(Posted(Message(s.store.nextId, a.author, a.name, a.body, a.at, a.admin)))])
    ensures !s.reader.Away? && !s.reader.feed.subscribed && !a.Leave? ==> !Apply(s, a).reader.feed.subscribed
  {
    ReachableOk(s);
  }

  /** A snapshot read within a day of subscribing reaches back to the subscription. */
  lemma ReadWithinADayReachesBack(joinedAt: int, readAt: int)
    requires readAt <= joinedAt + DAY
    ensures PlayDay.HistoryStart(readAt) <= joinedAt
  {
    PlayDay.HistoryReachesBackADay(readAt);
  }

  /** The condition is needed: whenever the snapshot starts after the subscription, a message posted right after
      subscribing is kept by the store, is not in the listing, and is shown all the same. */
  lemma LateReadShowsMore(joinedAt: int, readAt: int) returns (actions: seq<Action>, s: State)
    requires joinedAt <= readAt && PlayDay.HistoryStart(readAt) > joinedAt
    ensures Execute(Start(1, 100, joinedAt), actions) == Some(s)
    ensures s.reader.Reading? && s.reader.feed.subscribed && s.reader.feed.queue == []
    ensures s.reader.joinedAt == joinedAt && s.reader.boundary == PlayDay.HistoryStart(readAt)
    ensures Among(Shown(s), Ids(s.store.messages)) != Since(s.store.messages, s.reader.boundary)
  {
    var s0 := Start(1, 100, joinedAt);
    var boundary := PlayDay.HistoryStart(readAt);
    var post := Post("author", "Author", "hello", false, joinedAt);
    var m := Message(1, "author", "Author", "hello", joinedAt, false);
    var s1 := Apply(s0, Join(joinedAt));
    var s2 := Apply(s1, post);
    var queued := Feed([Event(Posted(m))], true, 100);
    assert s2.reader.feed.queue == queued.queue;
    assert s2.store.messages == [m] && s2.reader == Joined(queued, joinedAt);
    var s3 := Apply(s2, Read(readAt));
    OneMessageListed(m, boundary);
    assert s3.reader == Reading(queued, joinedAt, boundary, [], []);
    s := Apply(s3, Receive);
    assert s.reader.feed.queue == [] && s.reader.received == [Posted(m)];
    OneMore(s0, [], s0, Join(joinedAt));
    OneMore(s0, [] + [Join(joinedAt)], s1, post);
    OneMore(s0, [] + [Join(joinedAt)] + [post], s2, Read(readAt));
    OneMore(s0, [] + [Join(joinedAt)] + [post] + [Read(readAt)], s3, Receive);
    actions := [] + [Join(joinedAt)] + [post] + [Read(readAt)] + [Receive];
    ShownAlone(m);
  }

  lemma OneMessageListed(m: Message, boundary: int)
    ensures Since([m], boundary) == if m.createdAt >= boundary then [m] else []
    ensures Among([m], Ids([m])) == [m]
  {
    assert [m][1..] == [] && m.id in Ids([m]);
  }

  lemma ShownAlone(m: Message)
    ensures Replay([], [Posted(m)]) == [m]
    ensures Among(Replay([], [Posted(m)]), Ids([m])) == [m]
  {
    ReplayAppended([], [], Posted(m));
    OneMessageListed(m, 0);
  }

  lemma OneMore(from: State, actions: seq<Action>, s: State, a: Action)
    requires Execute(from, actions) == Some(s) && Enabled(s, a)
    ensures Execute(from, actions + [a]) == Some(Apply(s, a))
  {
    assert (actions + [a])[..|actions|] == actions;
  }
}

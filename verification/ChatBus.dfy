/** The chat event bus as one bounded queue per open stream, and the service that writes the store and the bus. */
module ChatBus {
  import opened Common
  import opened ChatStore
  import PlayDay

  const MIN_POST_INTERVAL := SECOND

  datatype Item = Event(event: ChatEvent) | Closed

  /** One stream's queue and whether the bus still feeds it. A size of zero or less is no bound. */
  datatype Feed = Feed(queue: seq<Item>, subscribed: bool, size: int)
  {
    predicate Full() { size > 0 && |queue| >= size }

    /** What publishing does to it: a reader too far behind is dropped and what it had queued discarded. */
    function Offered(event: ChatEvent): Feed {
      if !subscribed then this
      else if Full() then Feed([Closed], false, size)
      else this.(queue := queue + [Event(event)])
    }
  }

  class Subscription {
    var queue: seq<Item>
    const size: int

    constructor (size: int)
      ensures queue == [] && this.size == size
    {
      this.size := size;
      queue := [];
    }

    method Offer(event: ChatEvent) returns (taken: bool)
      modifies this
      ensures !taken <==> size > 0 && |old(queue)| >= size
      ensures queue == if taken then old(queue) + [Event(event)] else old(queue)
    {
      taken := !(size > 0 && |queue| >= size);
      if taken {
        queue := queue + [Event(event)];
      }
    }

    method Close()
      modifies this
      ensures queue == [Closed]
    {
      while queue != []
        decreases |queue|
      {
        queue := queue[1..];
      }
      queue := queue + [Closed];
    }

    /** The next step of the iteration: an event, or its end. It waits while the queue is empty. */
    method Next() returns (event: Option<ChatEvent>)
      requires queue != []
      modifies this
      ensures queue == old(queue)[1..]
      ensures event == if old(queue)[0].Closed? then None else Some(old(queue)[0].event)
    {
      event := if queue[0].Closed? then None else Some(queue[0].event);
      queue := queue[1..];
    }
  }

  class MemoryChatEventBus {
    var subscriptions: set<Subscription>
    const queueSize: int

    constructor (queueSize: int)
      ensures subscriptions == {} && this.queueSize == queueSize
    {
      this.queueSize := queueSize;
      subscriptions := {};
    }

    ghost function FeedOf(s: Subscription): Feed
      reads this, s
    {
      Feed(s.queue, s in subscriptions, s.size)
    }

    method Subscribe() returns (s: Subscription)
      modifies this
      ensures fresh(s) && FeedOf(s) == Feed([], true, queueSize)
      ensures subscriptions == old(subscriptions) + {s}
    {
      s := new Subscription(queueSize);
      subscriptions := subscriptions + {s};
    }

    method Unsubscribe(s: Subscription)
      modifies this
      ensures subscriptions == old(subscriptions) - {s}
    {
      subscriptions := subscriptions - {s};
    }

    /** Every open stream is offered the event; those that cannot take it are dropped. */
    method Publish(event: ChatEvent)
      modifies this, subscriptions
      ensures subscriptions <= old(subscriptions)
      ensures forall s | s in old(subscriptions) ::
                if s.size > 0 && old(|s.queue|) >= s.size then s !in subscriptions && s.queue == [Closed]
                else s in subscriptions && s.queue == old(s.queue) + [Event(event)]
      ensures forall s | s in old(subscriptions) :: FeedOf(s) == old(FeedOf(s)).Offered(event)
    {
      var left := subscriptions;
      while left != {}
        invariant left <= subscriptions <= old(subscriptions)
        invariant forall s | s in left :: s.queue == old(s.queue)
        invariant forall s | s in old(subscriptions) - left :: FeedOf(s) == old(FeedOf(s)).Offered(event)
        decreases left
      {
        var s :| s in left;
        var taken := s.Offer(event);
        if !taken {
          subscriptions := subscriptions - {s};
          s.Close();
        }
        left := left - {s};
      }
      forall s | s in old(subscriptions)
        ensures if s.size > 0 && old(|s.queue|) >= s.size then s !in subscriptions && s.queue == [Closed]
                else s in subscriptions && s.queue == old(s.queue) + [Event(event)]
      {
        assert s in old(subscriptions) - left && old(FeedOf(s)) == Feed(old(s.queue), true, s.size);
        assert FeedOf(s) == old(FeedOf(s)).Offered(event);
      }
    }
  }

  datatype Refusal = RateLimited | NotFound | Forbidden

  class ChatService {
    const repo: MemoryChatRepository
    const bus: MemoryChatEventBus
    var lastPost: map<string, int>

    constructor (repo: MemoryChatRepository, bus: MemoryChatEventBus)
      ensures this.repo == repo && this.bus == bus && lastPost == map[]
    {
      this.repo, this.bus := repo, bus;
      lastPost := map[];
    }

    method RecentMessages(now: int) returns (shown: seq<Message>)
      ensures shown == Since(repo.messages, PlayDay.HistoryStart(now))
    {
      shown := repo.ListSince(PlayDay.HistoryStart(now));
    }

    /** Stored and announced together, or, within a second of the account's last post, refused with nothing changed. */
    method PostMessage(subject: string, name: string, body: string, admin: bool, now: int)
        returns (answer: Result<Message, Refusal>)
      modifies this, repo, bus, bus.subscriptions
      ensures answer.Err? <==> subject in old(lastPost) && now - old(lastPost)[subject] < SECOND
      ensures answer.Err? ==>
                && answer.error == RateLimited && lastPost == old(lastPost) && repo.View() == old(repo.View())
                && unchanged(bus) && unchanged(old(bus.subscriptions))
      ensures answer.Ok? ==>
                && answer.value == Message(old(repo.nextId), subject, name, body, now, admin)
                && repo.View() == old(repo.View()).Append(answer.value)
                && lastPost == old(lastPost)[subject := now]
                && bus.subscriptions <= old(bus.subscriptions)
                && forall s | s in old(bus.subscriptions) ::
                    bus.FeedOf(s) == old(bus.FeedOf(s)).Offered(Posted(answer.value))
    {
      if subject in lastPost && now - lastPost[subject] < MIN_POST_INTERVAL {
        return Err(RateLimited);
      }
      var message := repo.Append(subject, name, body, now, admin);
      lastPost := lastPost[subject := now];
      bus.Publish(Posted(message));
      answer := Ok(message);
    }

    /** Only a kept message can be deleted, by its author or an admin; then the deletion is announced. */
    method DeleteMessage(id: int, subject: string, admin: bool) returns (answer: Result<(), Refusal>)
      modifies repo, bus, bus.subscriptions
      ensures answer == Err(NotFound) <==> id !in Ids(old(repo.messages))
      ensures answer == Err(Forbidden) ==> !admin && exists m ::
                m in old(repo.messages) && m.id == id && m.author != subject
      ensures answer.Err? ==> repo.View() == old(repo.View()) && unchanged(bus) && unchanged(old(bus.subscriptions))
                              && answer.error != RateLimited
      ensures answer.Ok? ==>
                && (admin || exists m :: m in old(repo.messages) && m.id == id && m.author == subject)
                && repo.View() == old(repo.View()).Delete(id)
                && bus.subscriptions <= old(bus.subscriptions)
                && forall s | s in old(bus.subscriptions) :: bus.FeedOf(s) == old(bus.FeedOf(s)).Offered(Deleted(id))
    {
      var message := repo.Get(id);
      if message == None {
        return Err(NotFound);
      }
      assert message.value.id in Ids(repo.messages);
      if message.value.author != subject && !admin {
        return Err(Forbidden);
      }
      repo.Delete(id);
      bus.Publish(Deleted(id));
      answer := Ok(());
    }
  }
}

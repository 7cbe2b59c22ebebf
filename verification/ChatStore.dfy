/** Recent chat in process memory: a bounded list of messages, oldest first. */
module ChatStore {
  import opened Common

  datatype Message = Message(id: int, author: string, name: string, body: string, createdAt: int, admin: bool)

  datatype ChatEvent = Posted(message: Message) | Deleted(id: int)

  ghost function Ids(messages: seq<Message>): set<int> { set m | m in messages :: m.id }

  function Since(messages: seq<Message>, boundary: int): seq<Message> {
    if messages == [] then [] else
      var rest := Since(messages[1..], boundary);
      if messages[0].createdAt >= boundary then [messages[0]] + rest else rest
  }

  function WithoutId(messages: seq<Message>, id: int): seq<Message> {
    if messages == [] then [] else
      var rest := WithoutId(messages[1..], id);
      if messages[0].id != id then [messages[0]] + rest else rest
  }

  /** The messages whose id is one of some, in the order they stand. */
  ghost function Among(messages: seq<Message>, ids: set<int>): seq<Message> {
    if messages == [] then [] else
      var rest := Among(messages[1..], ids);
      if messages[0].id in ids then [messages[0]] + rest else rest
  }

  ghost predicate InOrder(messages: seq<Message>, limit: int) {
    && (forall i, j | 0 <= i < j < |messages| :: messages[i].id < messages[j].id)
    && (forall i | 0 <= i < |messages| :: messages[i].id < limit)
  }

  /** The bounded store: appending past the bound drops the oldest. */
  datatype Store = Store(messages: seq<Message>, nextId: int, maxKept: nat)
  {
    function Append(message: Message): Store {
      var grown := messages + [message];
      this.(messages := if |grown| > maxKept then grown[|grown| - maxKept..] else grown, nextId := nextId + 1)
    }

    function Delete(id: int): Store { this.(messages := WithoutId(messages, id)) }

    /** Ids ascend and were all handed out. */
    ghost predicate Valid() { |messages| <= maxKept && InOrder(messages, nextId) }
  }

  class MemoryChatRepository {
    var messages: seq<Message>
    var nextId: int
    const maxKept: nat

    ghost function View(): Store reads this { Store(messages, nextId, maxKept) }

    constructor (maxKept: nat)
      ensures View() == Store([], 1, maxKept)
    {
      this.maxKept := maxKept;
      messages, nextId := [], 1;
    }

    method Append(author: string, name: string, body: string, createdAt: int, admin: bool) returns (message: Message)
      modifies this
      ensures message == Message(old(nextId), author, name, body, createdAt, admin)
      ensures View() == old(View()).Append(message)
    {
      message := Message(nextId, author, name, body, createdAt, admin);
      nextId := nextId + 1;
      messages := messages + [message];
      if |messages| > maxKept {
        messages := messages[|messages| - maxKept..];
      }
    }

    method ListSince(boundary: int) returns (shown: seq<Message>)
      ensures shown == Since(messages, boundary)
    {
      shown := [];
      for i := 0 to |messages|
        invariant shown == Since(messages[..i], boundary)
      {
        SinceConcat(messages[..i], [messages[i]], boundary);
        assert messages[..i + 1] == messages[..i] + [messages[i]];
        if messages[i].createdAt >= boundary {
          shown := shown + [messages[i]];
        }
      }
      assert messages[..|messages|] == messages;
    }

    method Get(id: int) returns (found: Option<Message>)
      ensures found == None ==> id !in Ids(messages)
      ensures found.Some? ==> found.value in messages && found.value.id == id
    {
      for i := 0 to |messages|
        invariant forall j | 0 <= j < i :: messages[j].id != id
      {
        if messages[i].id == id {
          return Some(messages[i]);
        }
      }
      return None;
    }

    method Delete(id: int)
      modifies this
      ensures View() == old(View()).Delete(id)
    {
      var kept := [];
      for i := 0 to |messages|
        invariant messages == old(messages) && nextId == old(nextId)
        invariant kept == WithoutId(messages[..i], id)
      {
        WithoutConcat(messages[..i], [messages[i]], id);
        assert messages[..i + 1] == messages[..i] + [messages[i]];
        if messages[i].id != id {
          kept := kept + [messages[i]];
        }
      }
      assert messages[..|messages|] == messages;
      messages := kept;
    }
  }

  // -- Filtering distributes and commutes ------------------------------------------------------

  lemma {:induction false} SinceConcat(a: seq<Message>, b: seq<Message>, boundary: int)
    ensures Since(a + b, boundary) == Since(a, boundary) + Since(b, boundary)
  {
    if a == [] {
      assert a + b == b;
    } else {
      SinceConcat(a[1..], b, boundary);
      assert (a + b)[0] == a[0] && (a + b)[1..] == a[1..] + b;
      Regroup([a[0]], Since(a[1..], boundary), Since(b, boundary));
    }
  }

  lemma {:induction false} WithoutConcat(a: seq<Message>, b: seq<Message>, id: int)
    ensures WithoutId(a + b, id) == WithoutId(a, id) + WithoutId(b, id)
  {
    if a == [] {
      assert a + b == b;
    } else {
      WithoutConcat(a[1..], b, id);
      assert (a + b)[0] == a[0] && (a + b)[1..] == a[1..] + b;
      Regroup([a[0]], WithoutId(a[1..], id), WithoutId(b, id));
    }
  }

  lemma {:induction false} AmongConcat(a: seq<Message>, b: seq<Message>, ids: set<int>)
    ensures Among(a + b, ids) == Among(a, ids) + Among(b, ids)
  {
    if a == [] {
      assert a + b == b;
    } else {
      AmongConcat(a[1..], b, ids);
      assert (a + b)[0] == a[0] && (a + b)[1..] == a[1..] + b;
      Regroup([a[0]], Among(a[1..], ids), Among(b, ids));
    }
  }

  lemma {:induction false} WithoutIds(messages: seq<Message>, id: int)
    ensures Ids(WithoutId(messages, id)) == Ids(messages) - {id}
    ensures forall m :: m in WithoutId(messages, id) <==> m in messages && m.id != id
  {
    if messages == [] {
    } else {
      WithoutIds(messages[1..], id);
      assert messages == [messages[0]] + messages[1..];
    }
  }

  lemma {:induction false} SinceMembers(messages: seq<Message>, boundary: int)
    ensures forall m :: m in Since(messages, boundary) <==> m in messages && m.createdAt >= boundary
  {
    if messages == [] {
    } else {
      SinceMembers(messages[1..], boundary);
      assert messages == [messages[0]] + messages[1..];
    }
  }

  lemma {:induction false} AmongWithout(messages: seq<Message>, id: int, ids: set<int>)
    ensures Among(WithoutId(messages, id), ids) == Among(messages, ids - {id}) == WithoutId(Among(messages, ids), id)
  {
    if messages == [] {
    } else {
      var head, tail := [messages[0]], messages[1..];
      AmongWithout(tail, id, ids);
      AmongConcat(if messages[0].id != id then head else [], WithoutId(tail, id), ids);
      WithoutConcat(if messages[0].id in ids then head else [], Among(tail, ids), id);
    }
  }

  lemma {:induction false} AmongAmong(messages: seq<Message>, outer: set<int>, inner: set<int>)
    requires inner <= outer
    ensures Among(Among(messages, outer), inner) == Among(messages, inner)
  {
    if messages == [] {
    } else {
      AmongAmong(messages[1..], outer, inner);
      AmongConcat(if messages[0].id in outer then [messages[0]] else [], Among(messages[1..], outer), inner);
    }
  }

  lemma {:induction false} AmongAll(messages: seq<Message>, ids: set<int>)
    ensures Ids(messages) <= ids ==> Among(messages, ids) == messages
    ensures Ids(messages) !! ids ==> Among(messages, ids) == []
  {
    if messages == [] {
    } else {
      AmongAll(messages[1..], ids);
      assert messages == [messages[0]] + messages[1..];
      assert messages[0].id in Ids(messages) && Ids(messages[1..]) <= Ids(messages);
    }
  }

  lemma {:induction false} SinceWithout(messages: seq<Message>, boundary: int, id: int)
    ensures Since(WithoutId(messages, id), boundary) == WithoutId(Since(messages, boundary), id)
  {
    if messages == [] {
    } else {
      SinceWithout(messages[1..], boundary, id);
      SinceConcat(if messages[0].id != id then [messages[0]] else [], WithoutId(messages[1..], id), boundary);
      var head := if messages[0].createdAt >= boundary then [messages[0]] else [];
      WithoutConcat(head, Since(messages[1..], boundary), id);
    }
  }

  lemma SinceIds(messages: seq<Message>, boundary: int)
    ensures Ids(Since(messages, boundary)) <= Ids(messages)
  {
    SinceMembers(messages, boundary);
  }

  lemma StoreStaysValid(store: Store, message: Message, id: int)
    requires store.Valid() && message.id == store.nextId
    ensures store.Append(message).Valid()
    ensures store.Delete(id).Valid()
  {
    AppendKeepsOrder(store.messages, message);
    var grown := store.messages + [message];
    if |grown| > store.maxKept {
      TailKeepsOrder(grown, |grown| - store.maxKept, store.nextId + 1);
    }
    DeleteKeepsOrder(store.messages, id, store.nextId);
  }

  /** Below the bound nothing is dropped; at it the oldest goes, so the newest are kept, as many as may be. */
  lemma AppendKeepsTheNewest(store: Store, message: Message)
    requires store.Valid()
    ensures var after := store.Append(message);
            && after.nextId == store.nextId + 1 && after.maxKept == store.maxKept
            && (|store.messages| < store.maxKept ==> after.messages == store.messages + [message])
            && (|store.messages| == store.maxKept > 0 ==> after.messages == store.messages[1..] + [message])
            && (store.maxKept == 0 ==> after.messages == [])
  {
    assert |store.messages| > 0 ==> (store.messages + [message])[1..] == store.messages[1..] + [message];
  }

  lemma AppendKeepsOrder(messages: seq<Message>, message: Message)
    requires InOrder(messages, message.id)
    ensures InOrder(messages + [message], message.id + 1)
  {
  }

  lemma TailKeepsOrder(messages: seq<Message>, from: nat, limit: int)
    requires InOrder(messages, limit) && from <= |messages|
    ensures InOrder(messages[from..], limit)
  {
  }

  lemma {:induction false} DeleteKeepsOrder(messages: seq<Message>, id: int, limit: int)
    requires InOrder(messages, limit)
    ensures |WithoutId(messages, id)| <= |messages| && InOrder(WithoutId(messages, id), limit)
  {
    if messages == [] {
    } else {
      TailKeepsOrder(messages, 1, limit);
      DeleteKeepsOrder(messages[1..], id, limit);
      WithoutIds(messages[1..], id);
      PrependKeepsOrder(messages[0], WithoutId(messages[1..], id), limit);
    }
  }

  lemma PrependKeepsOrder(message: Message, messages: seq<Message>, limit: int)
    requires InOrder(messages, limit) && message.id < limit
    requires forall m | m in messages :: message.id < m.id
    ensures InOrder([message] + messages, limit)
  {
  }
}

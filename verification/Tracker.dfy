/** Who is searching for a match, inferred by diffing consecutive room snapshots, against a specification over the
    whole history of snapshots. */
module Tracker {
  import opened Common

  datatype User = User(npid: string, name: string)

  datatype Kind = RankMatch | PlayerMatch

  datatype Room = Room(id: int, kind: Kind, rank: Option<int>, members: int, users: seq<User>)

  type Snapshot = map<int, Room>

  /** A searching player, shown under the name and rank of the room that vanished. */
  datatype Searching = Searching(npid: string, name: string, rank: Option<int>, lastSeen: int)

  datatype Observation = Observation(rooms: Snapshot, now: int)

  /** The listed rooms by id; of two with one id the later stands. */
  function Keyed(rooms: seq<Room>): Snapshot {
    if rooms == [] then map[]
    else Keyed(rooms[..|rooms| - 1])[rooms[|rooms| - 1].id := rooms[|rooms| - 1]]
  }

  ghost predicate HasUser(room: Room, npid: string) { exists u :: u in room.users && u.npid == npid }

  ghost predicate HoldsIn(rooms: Snapshot, r: int, npid: string) { r in rooms && HasUser(rooms[r], npid) }

  /** In some room of the snapshot. */
  ghost predicate In(rooms: Snapshot, npid: string) { exists r :: HoldsIn(rooms, r, npid) }

  ghost predicate VanishedRoom(before: Snapshot, after: Snapshot, r: int, npid: string) {
    HoldsIn(before, r, npid) && r !in after && before[r].kind == RankMatch
  }

  ghost predicate Vanished(before: Snapshot, after: Snapshot, npid: string) {
    exists r :: VanishedRoom(before, after, r, npid)
  }

  // -- The specification over the history ------------------------------------------------------------

  /** From snapshot k to the last, the player is presumed searching: a rank room of theirs vanished at k, they have
      been in no room since, and no snapshot since came later than the time limit. */
  ghost predicate SearchingSince(history: seq<Observation>, ttl: int, k: int, npid: string) {
    && 1 <= k < |history|
    && Vanished(history[k - 1].rooms, history[k].rooms, npid)
    && (forall j | k <= j < |history| :: !In(history[j].rooms, npid))
    && (forall j | k <= j < |history| :: history[j].now - history[k].now <= ttl)
  }

  ghost predicate IsSearching(history: seq<Observation>, ttl: int, npid: string) {
    exists k :: SearchingSince(history, ttl, k, npid)
  }

  /** The name and rank a searching player is shown with are those of a vanished room. */
  ghost predicate ShownFrom(before: Snapshot, after: Snapshot, s: Searching) {
    exists r, u :: VanishedRoom(before, after, r, s.npid) && u in before[r].users
                   && u == User(s.npid, s.name) && before[r].rank == s.rank
  }

  /** A vanishing that counts is the only one that does: a later one would need the player in a room in between. */
  lemma SearchingSinceIsUnique(history: seq<Observation>, ttl: int, j: int, k: int, npid: string)
    requires SearchingSince(history, ttl, j, npid) && SearchingSince(history, ttl, k, npid)
    ensures j == k
  {
    VanishedWasInARoom(history[j - 1].rooms, history[j].rooms, npid);
    VanishedWasInARoom(history[k - 1].rooms, history[k].rooms, npid);
  }

  lemma VanishedWasInARoom(before: Snapshot, after: Snapshot, npid: string)
    requires Vanished(before, after, npid)
    ensures In(before, npid)
  {
    var r :| VanishedRoom(before, after, r, npid);
    assert HoldsIn(before, r, npid);
  }

  /** One more snapshot: who joins the searching, who leaves it, and who stays. */
  lemma SearchingAfter(history: seq<Observation>, next: Observation, ttl: int, npid: string)
    requires history != []
    ensures var longer, last := history + [next], history[|history| - 1];
            && (SearchingSince(longer, ttl, |history|, npid) <==>
                  Vanished(last.rooms, next.rooms, npid) && !In(next.rooms, npid) && 0 <= ttl)
            && (forall k | 0 <= k < |history| ::
                  SearchingSince(longer, ttl, k, npid) <==>
                    SearchingSince(history, ttl, k, npid) && !In(next.rooms, npid) && next.now - history[k].now <= ttl)
  {
    var longer := history + [next];
    forall k | 0 <= k < |history|
      ensures SearchingSince(longer, ttl, k, npid) <==>
                SearchingSince(history, ttl, k, npid) && !In(next.rooms, npid) && next.now - history[k].now <= ttl
    {
      assert forall j | k <= j < |history| :: longer[j] == history[j];
      assert longer[|history|] == next;
    }
  }

  // -- The tracker ---------------------------------------------------------------------------------------

  class MatchmakingTracker {
    var prevRooms: Option<Snapshot>
    var searching: map<string, Searching>
    const ttl: int
    ghost var history: seq<Observation>

    /** The state is what the specification says of every snapshot seen so far. */
    ghost predicate Valid() reads this {
      && (prevRooms == None <==> history == [])
      && (history != [] ==> prevRooms == Some(history[|history| - 1].rooms))
      && MatchesHistory(searching, history, ttl)
    }

    constructor (ttl: int)
      ensures Valid() && history == [] && this.ttl == ttl
    {
      this.ttl := ttl;
      prevRooms, searching := None, map[];
      history := [];
    }

    /** Everyone in a vanished rank room, host or both players, is sent to searching. */
    method SendToSearching(room: Room, now: int)
      modifies this`searching
      ensures room.kind == PlayerMatch ==> searching == old(searching)
      ensures room.kind == RankMatch ==> Sent(old(searching), searching, room, now)
    {
      if room.kind == PlayerMatch {
        return;
      }
      for i := 0 to |room.users|
        invariant Sent(old(searching), searching, room.(users := room.users[..i]), now)
      {
        var user := room.users[i];
        var before := searching;
        assert room.users[..i + 1] == room.users[..i] + [user];
        searching := searching[user.npid := Searching(user.npid, user.name, room.rank, now)];
        SentOneMore(old(searching), before, searching, room, i, now);
      }
      assert room.(users := room.users[..|room.users|]) == room;
    }

    /** Diff the rooms against the previous snapshot; a phantom per searching player. */
    method UpdateAndGetPhantoms(rooms: seq<Room>, now: int) returns (phantoms: seq<Room>)
      requires Valid()
      modifies this
      ensures Valid() && history == old(history) + [Observation(Keyed(rooms), now)]
      ensures old(history) == [] ==> phantoms == []
      ensures old(history) != [] ==> AreThePhantoms(searching, phantoms)
    {
      var current := KeyRooms(rooms);
      ghost var next := Observation(current, now);
      if prevRooms == None {
        FirstSnapshot(next, ttl);
        prevRooms, history := Some(current), history + [next];
        return [];
      }
      SendVanished(prevRooms.value, current, now);
      ghost var sent := searching;
      DropSeen(current);
      ghost var unseen := searching;
      DropExpired(now);
      CallMatchesHistory(old(searching), sent, unseen, searching, history, next, ttl);
      prevRooms, history := Some(current), history + [next];
      phantoms := ListPhantoms();
    }

    method KeyRooms(rooms: seq<Room>) returns (current: Snapshot)
      ensures current == Keyed(rooms)
    {
      current := map[];
      for i := 0 to |rooms|
        invariant current == Keyed(rooms[..i])
      {
        assert rooms[..i + 1][..i] == rooms[..i];
        current := current[rooms[i].id := rooms[i]];
      }
      assert rooms[..|rooms|] == rooms;
    }

    method SendVanished(prev: Snapshot, current: Snapshot, now: int)
      modifies this`searching
      ensures AfterVanishing(old(searching), searching, prev, current, prev.Keys - current.Keys, now)
    {
      var left := prev.Keys - current.Keys;
      while left != {}
        invariant left <= prev.Keys - current.Keys
        invariant AfterVanishing(old(searching), searching, prev, current, prev.Keys - current.Keys - left, now)
        decreases left
      {
        ghost var another := Pick(left);
        assert another in left;
        var r: int :| r in left;
        ghost var before, done := searching, prev.Keys - current.Keys - left;
        SendToSearching(prev[r], now);
        OneMoreVanished(old(searching), before, searching, prev, current, done, r, now);
        left := left - {r};
        assert prev.Keys - current.Keys - left == done + {r};
      }
      assert prev.Keys - current.Keys - left == prev.Keys - current.Keys;
    }

    /** Seen in a room, a player is no longer searching. */
    method DropSeen(current: Snapshot)
      modifies this`searching
      ensures UnseenKept(old(searching), searching, current)
    {
      var left := current.Keys;
      while left != {}
        invariant left <= current.Keys
        invariant forall npid | npid in searching :: npid in old(searching) && searching[npid] == old(searching)[npid]
        invariant forall npid | npid in searching :: forall r | r in current.Keys - left :: !HasUser(current[r], npid)
        invariant forall npid | npid in old(searching) && npid !in searching :: In(current, npid)
        decreases left
      {
        ghost var another := Pick(left);
        assert another in left;
        var r: int :| r in left;
        var users := current[r].users;
        ghost var before := searching;
        for i := 0 to |users|
          invariant forall npid | npid in searching :: npid in before && searching[npid] == before[npid]
          invariant forall npid | npid in searching :: forall j | 0 <= j < i :: users[j].npid != npid
          invariant forall npid | npid in before && npid !in searching :: In(current, npid)
        {
          assert users[i] in current[r].users;
          assert HoldsIn(current, r, users[i].npid);
          searching := searching - {users[i].npid};
        }
        forall npid | npid in searching ensures !HasUser(current[r], npid) {
          forall u | u in users ensures u.npid != npid {
            var j :| 0 <= j < |users| && users[j] == u;
          }
        }
        left := left - {r};
      }
    }

    method DropExpired(now: int)
      modifies this`searching
      ensures RecentKept(old(searching), searching, now, ttl)
    {
      var left := searching.Keys;
      while left != {}
        invariant left <= searching.Keys
        invariant forall npid | npid in searching :: npid in old(searching) && searching[npid] == old(searching)[npid]
        invariant forall npid | npid in old(searching) && npid !in left ::
                    npid in searching <==> now - old(searching)[npid].lastSeen <= ttl
        decreases left
      {
        var npid :| npid in left;
        if now - searching[npid].lastSeen > ttl {
          searching := searching - {npid};
        }
        left := left - {npid};
      }
    }

    method ListPhantoms() returns (phantoms: seq<Room>)
      ensures AreThePhantoms(searching, phantoms)
    {
      phantoms := [];
      var left := searching.Keys;
      while left != {}
        invariant left <= searching.Keys
        invariant |phantoms| + |left| == |searching.Keys|
        invariant forall npid | npid in searching && npid !in left :: PhantomOf(searching[npid]) in phantoms
        invariant forall i | 0 <= i < |phantoms| ::
                    exists npid :: npid in searching && npid !in left && phantoms[i] == PhantomOf(searching[npid])
        decreases left
      {
        var npid :| npid in left;
        phantoms := phantoms + [PhantomOf(searching[npid])];
        left := left - {npid};
      }
    }
  }

  /** The room a searching player, who has none to list, is shown as. */
  function PhantomOf(s: Searching): Room { Room(0, RankMatch, s.rank, 1, [User(s.npid, s.name)]) }

  /** One phantom per searching player, and no other. */
  ghost predicate AreThePhantoms(searching: map<string, Searching>, phantoms: seq<Room>) {
    && |phantoms| == |searching|
    && (forall npid | npid in searching :: PhantomOf(searching[npid]) in phantoms)
    && (forall i | 0 <= i < |phantoms| :: exists npid :: npid in searching && phantoms[i] == PhantomOf(searching[npid]))
  }

  ghost predicate EntryOk(history: seq<Observation>, ttl: int, npid: string, entry: Searching) {
    && entry.npid == npid
    && exists k :: SearchingSince(history, ttl, k, npid) && entry.lastSeen == history[k].now
                   && ShownFrom(history[k - 1].rooms, history[k].rooms, entry)
  }

  /** Exactly the players the specification calls searching, each shown as it says. */
  ghost predicate MatchesHistory(searching: map<string, Searching>, history: seq<Observation>, ttl: int) {
    && (forall npid :: npid in searching <==> IsSearching(history, ttl, npid))
    && (forall npid | npid in searching :: EntryOk(history, ttl, npid, searching[npid]))
  }

  // -- What the tracker's loops do -------------------------------------------------------------------------

  ghost predicate Sent(before: map<string, Searching>, after: map<string, Searching>, room: Room, now: int) {
    forall npid ::
      if HasUser(room, npid)
      then npid in after && after[npid].npid == npid && after[npid].lastSeen == now && after[npid].rank == room.rank
           && User(npid, after[npid].name) in room.users
      else (npid in after <==> npid in before) && (npid in after ==> after[npid] == before[npid])
  }

  lemma SentOneMore(start: map<string, Searching>, before: map<string, Searching>, after: map<string, Searching>,
                    room: Room, i: int, now: int)
    requires 0 <= i < |room.users| && Sent(start, before, room.(users := room.users[..i]), now)
    requires after == before[room.users[i].npid := Searching(room.users[i].npid, room.users[i].name, room.rank, now)]
    ensures Sent(start, after, room.(users := room.users[..i + 1]), now)
  {
    var some, more := room.(users := room.users[..i]), room.(users := room.users[..i + 1]);
    assert more.users == some.users + [room.users[i]];
    forall npid ensures HasUser(more, npid) <==> HasUser(some, npid) || npid == room.users[i].npid {
      if HasUser(some, npid) {
        var u :| u in some.users && u.npid == npid;
        assert u in more.users;
      }
      assert room.users[i] in more.users;
    }
  }

  ghost predicate VanishedAmong(prev: Snapshot, done: set<int>, r: int, npid: string) {
    r in done && HoldsIn(prev, r, npid) && prev[r].kind == RankMatch
  }

  /** After the vanished rooms in `done`: their players are searching since now, everyone else is as before. */
  ghost predicate AfterVanishing(before: map<string, Searching>, after: map<string, Searching>, prev: Snapshot,
                                 current: Snapshot, done: set<int>, now: int) {
    forall npid ::
      if exists r :: VanishedAmong(prev, done, r, npid)
      then npid in after && after[npid].npid == npid && after[npid].lastSeen == now
          && ShownFrom(prev, current, after[npid])
      else (npid in after <==> npid in before) && (npid in after ==> after[npid] == before[npid])
  }

  lemma OneMoreVanished(start: map<string, Searching>, before: map<string, Searching>, after: map<string, Searching>,
                        prev: Snapshot, current: Snapshot, done: set<int>, r: int, now: int)
    requires AfterVanishing(start, before, prev, current, done, now)
    requires r in prev && r !in current
    requires if prev[r].kind == RankMatch then Sent(before, after, prev[r], now) else after == before
    ensures AfterVanishing(start, after, prev, current, done + {r}, now)
  {
    forall npid
      ensures if exists q :: VanishedAmong(prev, done + {r}, q, npid)
              then npid in after && after[npid].npid == npid && after[npid].lastSeen == now
                  && ShownFrom(prev, current, after[npid])
              else (npid in after <==> npid in start) && (npid in after ==> after[npid] == start[npid])
    {
      if prev[r].kind == RankMatch && HasUser(prev[r], npid) {
        assert VanishedAmong(prev, done + {r}, r, npid);
        assert VanishedRoom(prev, current, r, npid);
        assert User(npid, after[npid].name) in prev[r].users;
      } else {
        assert Sent(before, after, prev[r], now) || after == before;
        forall q ensures VanishedAmong(prev, done + {r}, q, npid) <==> VanishedAmong(prev, done, q, npid) {
        }
      }
    }
  }

  /** Those seen in a room are gone, the others as they were. */
  ghost predicate UnseenKept(before: map<string, Searching>, after: map<string, Searching>, current: Snapshot) {
    && (forall npid :: npid in after <==> npid in before && !In(current, npid))
    && (forall npid | npid in after :: after[npid] == before[npid])
  }

  /** Those unseen past the time limit are gone, the others as they were. */
  ghost predicate RecentKept(before: map<string, Searching>, after: map<string, Searching>, now: int, ttl: int) {
    && (forall npid :: npid in after <==> npid in before && now - before[npid].lastSeen <= ttl)
    && (forall npid | npid in after :: after[npid] == before[npid])
  }

  lemma FirstSnapshot(next: Observation, ttl: int)
    ensures MatchesHistory(map[], [], ttl) && MatchesHistory(map[], [next], ttl)
    ensures forall searching :: MatchesHistory(searching, [], ttl) ==> searching == map[]
  {
    assert forall npid :: !IsSearching([], ttl, npid) && !IsSearching([next], ttl, npid);
  }

  /** One call of the tracker is one more snapshot of the specification. */
  lemma StepMatchesHistory(before: map<string, Searching>, sent: map<string, Searching>, after: map<string, Searching>,
                           history: seq<Observation>, next: Observation, ttl: int, npid: string)
    requires history != []
    requires npid in before <==> IsSearching(history, ttl, npid)
    requires npid in before ==> EntryOk(history, ttl, npid, before[npid])
    requires var prev := history[|history| - 1].rooms;
             AfterVanishing(before, sent, prev, next.rooms, prev.Keys - next.rooms.Keys, next.now)
    requires npid in after <==> npid in sent && !In(next.rooms, npid) && next.now - sent[npid].lastSeen <= ttl
    requires npid in after ==> after[npid] == sent[npid]
    ensures npid in after <==> IsSearching(history + [next], ttl, npid)
    ensures npid in after ==> EntryOk(history + [next], ttl, npid, after[npid])
  {
    var longer, last, prev := history + [next], |history|, history[|history| - 1].rooms;
    SearchingAfter(history, next, ttl, npid);
    assert forall k | 0 <= k < last :: longer[k] == history[k];
    assert longer[last] == next;
    if r :| VanishedRoom(prev, next.rooms, r, npid) {
      assert VanishedAmong(prev, prev.Keys - next.rooms.Keys, r, npid);
      assert HoldsIn(prev, r, npid);
      assert In(prev, npid);
      assert forall k :: !SearchingSince(history, ttl, k, npid);
    } else {
      assert forall r :: !VanishedAmong(prev, prev.Keys - next.rooms.Keys, r, npid) by {
        forall r | VanishedAmong(prev, prev.Keys - next.rooms.Keys, r, npid)
          ensures VanishedRoom(prev, next.rooms, r, npid)
        {
        }
      }
      if npid in before {
        var k :| SearchingSince(history, ttl, k, npid) && before[npid].lastSeen == history[k].now
                 && ShownFrom(history[k - 1].rooms, history[k].rooms, before[npid]);
        assert npid in after <==> SearchingSince(longer, ttl, k, npid);
        if j :| SearchingSince(longer, ttl, j, npid) {
          assert SearchingSince(history, ttl, j, npid);
          SearchingSinceIsUnique(history, ttl, j, k, npid);
        }
      }
    }
  }

  lemma CallMatchesHistory(before: map<string, Searching>, sent: map<string, Searching>, unseen: map<string, Searching>,
                           after: map<string, Searching>, history: seq<Observation>, next: Observation, ttl: int)
    requires history != [] && MatchesHistory(before, history, ttl)
    requires var prev := history[|history| - 1].rooms;
             AfterVanishing(before, sent, prev, next.rooms, prev.Keys - next.rooms.Keys, next.now)
    requires UnseenKept(sent, unseen, next.rooms) && RecentKept(unseen, after, next.now, ttl)
    ensures MatchesHistory(after, history + [next], ttl)
  {
    forall npid ensures npid in after <==> IsSearching(history + [next], ttl, npid)
                ensures npid in after ==> EntryOk(history + [next], ttl, npid, after[npid])
    {
      StepMatchesHistory(before, sent, after, history, next, ttl, npid);
    }
  }

  // -- What a phantom shows --------------------------------------------------------------------------------------

  /** A phantom is a rank-match room of one player, whom the history calls searching, under the name and the rank of a
      room they vanished with. */
  lemma PhantomIsAVanishedPlayer(searching: map<string, Searching>, history: seq<Observation>, ttl: int,
                                 phantoms: seq<Room>, i: int)
      returns (npid: string, k: int, r: int)
    requires MatchesHistory(searching, history, ttl) && AreThePhantoms(searching, phantoms) && 0 <= i < |phantoms|
    ensures SearchingSince(history, ttl, k, npid)
    ensures VanishedRoom(history[k - 1].rooms, history[k].rooms, r, npid)
    ensures var room, phantom := history[k - 1].rooms[r], phantoms[i];
            && phantom.id == 0 && phantom.kind == RankMatch && phantom.rank == room.rank && phantom.members == 1
            && |phantom.users| == 1 && phantom.users[0] in room.users && phantom.users[0].npid == npid
  {
    npid :| npid in searching && phantoms[i] == PhantomOf(searching[npid]);
    k, r := EntryFromARoom(history, ttl, npid, searching[npid]);
  }

  lemma EntryFromARoom(history: seq<Observation>, ttl: int, npid: string, entry: Searching) returns (k: int, r: int)
    requires EntryOk(history, ttl, npid, entry)
    ensures SearchingSince(history, ttl, k, npid) && VanishedRoom(history[k - 1].rooms, history[k].rooms, r, npid)
    ensures entry.npid == npid && entry.rank == history[k - 1].rooms[r].rank
    ensures User(npid, entry.name) in history[k - 1].rooms[r].users
  {
    k :| SearchingSince(history, ttl, k, npid) && entry.lastSeen == history[k].now
         && ShownFrom(history[k - 1].rooms, history[k].rooms, entry);
    r := RoomShownFrom(history[k - 1].rooms, history[k].rooms, entry);
  }

  lemma RoomShownFrom(before: Snapshot, after: Snapshot, s: Searching) returns (r: int)
    requires ShownFrom(before, after, s)
    ensures VanishedRoom(before, after, r, s.npid) && before[r].rank == s.rank
    ensures User(s.npid, s.name) in before[r].users
  {
    var u: User;
    r, u :| VanishedRoom(before, after, r, s.npid) && u in before[r].users && u == User(s.npid, s.name)
            && before[r].rank == s.rank;
  }

  /** And whoever the history calls searching is shown. */
  lemma SearchingPlayerIsShown(searching: map<string, Searching>, history: seq<Observation>, ttl: int,
                               phantoms: seq<Room>, npid: string)
      returns (i: int)
    requires MatchesHistory(searching, history, ttl) && AreThePhantoms(searching, phantoms)
    requires IsSearching(history, ttl, npid)
    ensures 0 <= i < |phantoms| && phantoms[i].kind == RankMatch
    ensures |phantoms[i].users| == 1 && phantoms[i].users[0].npid == npid
  {
    assert EntryOk(history, ttl, npid, searching[npid]);
    i :| 0 <= i < |phantoms| && phantoms[i] == PhantomOf(searching[npid]);
  }

  // -- Never both in a room and a phantom ---------------------------------------------------------------------

  /** Whoever the tracker calls searching is in no room of the snapshot it keyed. */
  lemma NeverBothInARoomAndSearching(history: seq<Observation>, ttl: int, npid: string)
    requires history != [] && IsSearching(history, ttl, npid)
    ensures !In(history[|history| - 1].rooms, npid)
  {
    var k :| SearchingSince(history, ttl, k, npid);
  }

  /** Against the rooms as listed this needs more: a player of a listed room can be shown as a phantom too, after some
      history, exactly when no room that survives keying by id has them. */
  lemma ListedPlayerCanBeAPhantom(rooms: seq<Room>, ttl: int, npid: string)
    requires ttl >= 0
    ensures (exists history: seq<Observation>, now: int ::
              history != [] && IsSearching(history + [Observation(Keyed(rooms), now)], ttl, npid))
            <==> !In(Keyed(rooms), npid)
  {
    var current := Keyed(rooms);
    if In(current, npid) {
      forall history: seq<Observation>, now: int | history != []
        ensures !IsSearching(history + [Observation(current, now)], ttl, npid)
      {
        var longer := history + [Observation(current, now)];
        assert longer[|longer| - 1].rooms == current;
        assert forall k :: !SearchingSince(longer, ttl, k, npid);
      }
    } else {
      var r := UnusedId(current.Keys);
      var gone := Room(r, RankMatch, None, 1, [User(npid, "")]);
      var history := [Observation(map[r := gone], 0)];
      assert gone.users[0] in gone.users;
      assert HoldsIn(map[r := gone], r, npid);
      assert VanishedRoom(map[r := gone], current, r, npid);
      SearchingAfter(history, Observation(current, 0), ttl, npid);
      assert SearchingSince(history + [Observation(current, 0)], ttl, 1, npid);
    }
  }

  lemma {:induction false} UnusedId(ids: set<int>) returns (r: int)
    ensures forall id | id in ids :: id < r
  {
    if ids == {} {
      r := 0;
    } else {
      var id := Pick(ids);
      r := UnusedId(ids - {id});
      r := if r <= id then id + 1 else r;
      assert forall x | x in ids :: x == id || x in ids - {id};
    }
  }

  /** With distinct room ids every listed player is in a keyed room, so a phantom is never in a listed room. */
  lemma DistinctIdsHideNobody(rooms: seq<Room>, i: int, npid: string)
    requires forall a, b | 0 <= a < b < |rooms| :: rooms[a].id != rooms[b].id
    requires 0 <= i < |rooms| && HasUser(rooms[i], npid)
    ensures In(Keyed(rooms), npid)
  {
    KeyedFinds(rooms, i);
    assert HoldsIn(Keyed(rooms), rooms[i].id, npid);
  }

  lemma {:induction false} KeyedFinds(rooms: seq<Room>, i: int)
    requires forall a, b | 0 <= a < b < |rooms| :: rooms[a].id != rooms[b].id
    requires 0 <= i < |rooms|
    ensures rooms[i].id in Keyed(rooms) && Keyed(rooms)[rooms[i].id] == rooms[i]
  {
    if i < |rooms| - 1 {
      KeyedFinds(rooms[..|rooms| - 1], i);
    }
  }

  lemma KeyedAppended(rooms: seq<Room>, room: Room)
    ensures Keyed(rooms + [room]) == Keyed(rooms)[room.id := room]
  {
    assert (rooms + [room])[..|rooms|] == rooms;
  }

  lemma KeyedPair(a: Room, b: Room)
    requires a.id == b.id
    ensures Keyed([a, b]) == map[b.id := b]
  {
    var none: seq<Room> := [];
    KeyedAppended(none, a);
    KeyedAppended([a], b);
    assert none + [a] == [a] && [a] + [b] == [a, b];
  }

  /** Two listed rooms with one id: the first is lost, and its player, listed there, is a phantom as well. */
  lemma SharedIdShowsAPlayerTwice()
    ensures var rooms := [Room(1, RankMatch, None, 1, [User("ann", "Ann")]),
              Room(1, RankMatch, None, 1, [User("bob", "Bob")])];
            var left := Room(2, RankMatch, None, 1, [User("ann", "Ann")]);
            && HasUser(rooms[0], "ann")
            && IsSearching([Observation(map[2 := left], 0), Observation(Keyed(rooms), 0)], 60, "ann")
  {
    var ann, bob := User("ann", "Ann"), User("bob", "Bob");
    var a, b := Room(1, RankMatch, None, 1, [ann]), Room(1, RankMatch, None, 1, [bob]);
    KeyedPair(a, b);
    assert ann in a.users;
    forall r ensures !HoldsIn(Keyed([a, b]), r, "ann") {
      assert b.users[0] != ann;
    }
    VanishedThenHidden(a.(id := 2), ann, Keyed([a, b]));
  }

  lemma VanishedThenHidden(gone: Room, user: User, now: Snapshot)
    requires gone.kind == RankMatch && user in gone.users && gone.id !in now && !In(now, user.npid)
    ensures IsSearching([Observation(map[gone.id := gone], 0), Observation(now, 0)], 60, user.npid)
  {
    var history := [Observation(map[gone.id := gone], 0), Observation(now, 0)];
    assert VanishedRoom(history[0].rooms, history[1].rooms, gone.id, user.npid);
    assert SearchingSince(history, 60, 1, user.npid);
  }
}

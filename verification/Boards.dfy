/** Ranking boards: places from a sort and a walk over its groups of equals, and closing the gaps that excluded
    accounts leave. Keys compare as the source's tuples and strings do, element by element. */
module Boards {
  import opened Common

  // -- Comparing keys -------------------------------------------------------------------------------

  predicate Less(a: seq<int>, b: seq<int>) {
    b != [] && (a == [] || a[0] < b[0] || (a[0] == b[0] && Less(a[1..], b[1..])))
  }

  lemma {:induction false} LessIsStrictOrder(a: seq<int>, b: seq<int>, c: seq<int>)
    ensures !(Less(a, b) && Less(b, a)) && !Less(a, a)
    ensures Less(a, b) || Less(b, a) || a == b
    ensures Less(a, b) && Less(b, c) ==> Less(a, c)
  {
    if a != [] && b != [] {
      LessIsStrictOrder(a[1..], b[1..], if c == [] then [] else c[1..]);
      assert a == [a[0]] + a[1..] && b == [b[0]] + b[1..];
    }
    if a != [] {
      LessIsStrictOrder(a[1..], a[1..], []);
    }
  }

  /** The comparison is that of tuples and strings: at the first place they differ, a shorter one being less than what
      extends it. */
  lemma {:induction false} LessIsLexicographic(a: seq<int>, b: seq<int>)
    ensures Less(a, b) <==> exists k :: DifferAt(a, b, k)
  {
    if a != [] && b != [] && a[0] == b[0] {
      var c, d := a[1..], b[1..];
      LessIsLexicographic(c, d);
      if k :| DifferAt(c, d, k) {
        assert a[..k + 1] == [a[0]] + c[..k] && b[..k + 1] == [b[0]] + d[..k];
        assert DifferAt(a, b, k + 1);
      }
      if k :| DifferAt(a, b, k) {
        assert k > 0;
        assert a[..k] == [a[0]] + c[..k - 1] && b[..k] == [b[0]] + d[..k - 1];
        assert c[..k - 1] == a[..k][1..] && d[..k - 1] == b[..k][1..];
        assert DifferAt(c, d, k - 1);
      }
    } else if b != [] && (a == [] || a[0] < b[0]) {
      assert DifferAt(a, b, 0);
    } else {
      forall k ensures !DifferAt(a, b, k) {
        if 0 < k <= |a| && k < |b| {
          assert a[..k][0] == a[0] && b[..k][0] == b[0];
        }
      }
    }
  }

  ghost predicate DifferAt(a: seq<int>, b: seq<int>, k: int) {
    0 <= k <= |a| && k < |b| && a[..k] == b[..k] && (k == |a| || a[k] < b[k])
  }

  lemma LessByHead(x: int, a: seq<int>, y: int, b: seq<int>)
    ensures Less([x] + a, [y] + b) <==> x < y || (x == y && Less(a, b))
  {
    assert ([x] + a)[1..] == a && ([y] + b)[1..] == b;
  }

  // -- A stable sort ------------------------------------------------------------------------------------

  datatype Item<T> = Item(key: seq<int>, name: seq<int>, value: T)
  {
    /** May stand before another: a better key, or an equal one and a name not after. */
    predicate Before(other: Item<T>) {
      Less(key, other.key) || (key == other.key && !Less(other.name, name))
    }
  }

  function Insert<T>(item: Item<T>, items: seq<Item<T>>): seq<Item<T>> {
    if items == [] || item.Before(items[0]) then [item] + items
    else [items[0]] + Insert(item, items[1..])
  }

  function Sorted<T>(items: seq<Item<T>>): seq<Item<T>> {
    if items == [] then [] else Insert(items[0], Sorted(items[1..]))
  }

  predicate InOrder<T>(items: seq<Item<T>>) { forall i | 0 < i < |items| :: items[i - 1].Before(items[i]) }

  lemma {:induction false} InsertInOrder<T>(item: Item<T>, items: seq<Item<T>>)
    requires InOrder(items)
    ensures InOrder(Insert(item, items)) && |Insert(item, items)| == |items| + 1
    ensures Insert(item, items)[0] == item || (items != [] && Insert(item, items)[0] == items[0])
    ensures multiset(Insert(item, items)) == multiset(items) + multiset{item}
  {
    if items == [] || item.Before(items[0]) {
    } else {
      InsertInOrder(item, items[1..]);
      LessIsStrictOrder(item.key, items[0].key, []);
      LessIsStrictOrder(item.name, items[0].name, []);
      assert items == [items[0]] + items[1..];
    }
  }

  /** The sort is a permutation in order. */
  lemma {:induction false} SortedIsAPermutation<T>(items: seq<Item<T>>)
    ensures InOrder(Sorted(items)) && |Sorted(items)| == |items|
    ensures multiset(Sorted(items)) == multiset(items)
  {
    if items == [] {
    } else {
      var head, rest := items[0], items[1..];
      SortedIsAPermutation(rest);
      InsertInOrder(head, Sorted(rest));
      assert Sorted(items) == Insert(head, Sorted(rest));
      assert items == [head] + rest;
      assert multiset(items) == multiset{head} + multiset(rest);
    }
  }

  // -- Places ----------------------------------------------------------------------------------------------

  /** How many of the items have a strictly better key. */
  ghost function Better<T>(items: seq<Item<T>>, key: seq<int>): nat {
    if items == [] then 0 else (if Less(items[0].key, key) then 1 else 0) + Better(items[1..], key)
  }

  ghost function BetterAt<T>(items: seq<Item<T>>, key: seq<int>): set<int> {
    set i | 0 <= i < |items| && Less(items[i].key, key)
  }

  lemma {:induction false} BetterIsASize<T>(items: seq<Item<T>>, key: seq<int>)
    ensures Better(items, key) == |BetterAt(items, key)|
  {
    if items == [] {
      assert BetterAt(items, key) == {};
    } else {
      BetterIsASize(items[1..], key);
      BetterInTail(items, key);
      assert BetterAt(items, key) == BetterAt(items, key) - {0} + if Less(items[0].key, key) then {0} else {};
    }
  }

  lemma BetterInTail<T>(items: seq<Item<T>>, key: seq<int>)
    requires items != []
    ensures |BetterAt(items[1..], key)| == |BetterAt(items, key) - {0}|
  {
    forall i | i in BetterAt(items[1..], key) ensures i + 1 in BetterAt(items, key) - {0} {
      assert items[1..][i] == items[i + 1];
    }
    forall j | j in BetterAt(items, key) - {0} ensures j - 1 in BetterAt(items[1..], key) {
      assert items[1..][j - 1] == items[j];
    }
    ShiftSize(BetterAt(items[1..], key), BetterAt(items, key) - {0});
  }

  lemma {:induction false} BetterSorted<T>(items: seq<Item<T>>, key: seq<int>)
    ensures Better(Sorted(items), key) == Better(items, key)
  {
    if items == [] {
    } else {
      BetterSorted(items[1..], key);
      BetterInserted(items[0], Sorted(items[1..]), key);
    }
  }

  lemma {:induction false} BetterInserted<T>(item: Item<T>, items: seq<Item<T>>, key: seq<int>)
    ensures Better(Insert(item, items), key) == Better(items, key) + if Less(item.key, key) then 1 else 0
  {
    if items == [] || item.Before(items[0]) {
      assert ([item] + items)[1..] == items;
    } else {
      BetterInserted(item, items[1..], key);
      assert ([items[0]] + Insert(item, items[1..]))[1..] == Insert(item, items[1..]);
    }
  }

  lemma {:induction false} KeysAscend<T>(items: seq<Item<T>>, i: int, j: int)
    requires InOrder(items) && 0 <= i <= j < |items|
    ensures !Less(items[j].key, items[i].key)
    decreases j
  {
    LessIsStrictOrder(items[i].key, items[i].key, []);
    if i < j {
      KeysAscend(items, i, j - 1);
      assert items[j - 1].Before(items[j]);
      LessIsStrictOrder(items[j].key, items[i].key, items[j - 1].key);
      LessIsStrictOrder(items[j - 1].key, items[j].key, items[i].key);
      LessIsStrictOrder(items[i].key, items[j - 1].key, items[j].key);
    }
  }

  /** In a sorted list what is better than the first of a group is just what stands before it. */
  lemma BetterStandsBefore<T>(items: seq<Item<T>>, start: int, i: int)
    requires InOrder(items) && 0 <= start <= i < |items| && items[start].key == items[i].key
    requires start > 0 ==> items[start - 1].key != items[start].key
    ensures Better(items, items[i].key) == start
  {
    forall j | 0 <= j < |items| ensures Less(items[j].key, items[i].key) <==> j < start {
      StandsBefore(items, start, j);
    }
    CountPrefix(items, items[i].key, start);
  }

  lemma StandsBefore<T>(items: seq<Item<T>>, start: int, j: int)
    requires InOrder(items) && 0 <= start < |items| && 0 <= j < |items|
    requires start > 0 ==> items[start - 1].key != items[start].key
    ensures Less(items[j].key, items[start].key) <==> j < start
  {
    if j < start {
      KeysAscend(items, j, start - 1);
      assert items[start - 1].Before(items[start]);
      var a, b, c := items[j].key, items[start - 1].key, items[start].key;
      LessIsStrictOrder(a, b, c);
    } else {
      KeysAscend(items, start, j);
    }
  }

  lemma {:induction false} CountPrefix<T>(items: seq<Item<T>>, key: seq<int>, start: nat)
    requires start <= |items| && forall j | 0 <= j < |items| :: Less(items[j].key, key) <==> j < start
    ensures Better(items, key) == start
  {
    if items == [] {
    } else {
      CountPrefix(items[1..], key, if start > 0 then start - 1 else 0);
    }
  }

  /** Best first, equals sharing a place and listed by name (1, 2, 2, 4): each place is one more than the number of
      items strictly better. */
  method Board<T>(items: seq<Item<T>>) returns (board: seq<(int, Item<T>)>)
    ensures |board| == |items| == |Sorted(items)|
    ensures forall i | 0 <= i < |board| :: board[i].1 == Sorted(items)[i]
    ensures forall i | 0 <= i < |board| :: board[i].0 == 1 + Better(items, board[i].1.key)
    ensures forall i | 0 < i < |board| ::
              var a, b := board[i - 1].1, board[i].1;
              Less(a.key, b.key) || (a.key == b.key && !Less(b.name, a.name))
  {
    var ranked := Sorted(items);
    SortedIsAPermutation(items);
    board := [];
    var place, start := 1, 0;
    while start < |ranked|
      invariant |board| == start <= |ranked| && place == start + 1 && Placed(ranked, board)
      invariant 0 < start < |ranked| ==> ranked[start - 1].key != ranked[start].key
      decreases |ranked| - start
    {
      var end := start;
      while end < |ranked| && ranked[end].key == ranked[start].key
        invariant start <= end <= |ranked| && |board| == end && Placed(ranked, board)
        invariant end > start ==> ranked[end - 1].key == ranked[start].key
        decreases |ranked| - end
      {
        PlaceNext(ranked, board, start);
        board := board + [(place, ranked[end])];
        end := end + 1;
      }
      place := place + (end - start);
      start := end;
    }
    forall i | 0 <= i < |board| ensures board[i].0 == 1 + Better(items, board[i].1.key) {
      BetterSorted(items, board[i].1.key);
    }
  }

  ghost predicate Placed<T>(ranked: seq<Item<T>>, board: seq<(int, Item<T>)>) {
    && |board| <= |ranked|
    && forall i | 0 <= i < |board| :: board[i].1 == ranked[i] && board[i].0 == 1 + Better(ranked, ranked[i].key)
  }

  lemma PlaceNext<T>(ranked: seq<Item<T>>, board: seq<(int, Item<T>)>, start: int)
    requires InOrder(ranked) && Placed(ranked, board) && 0 <= start <= |board| < |ranked|
    requires start > 0 ==> ranked[start - 1].key != ranked[start].key
    requires ranked[|board|].key == ranked[start].key
    ensures Placed(ranked, board + [(start + 1, ranked[|board|])])
  {
    BetterStandsBefore(ranked, start, |board|);
  }

  // -- The current-rank board and the event's achievers --------------------------------------------------------

  datatype Character = Character(id: int, rank: int, points: int)

  datatype Player = Player(folded: seq<int>, chars: seq<Character>)

  // Fills a standing's empty places; its rank is lower than every real one.
  const NO_CHAR := Character(-1, -1, -1)

  /** The key a player is placed by: negated, so that a higher rank or more points make it less. */
  function Standing(chars: seq<Character>): seq<int> {
    var padded := chars + [NO_CHAR, NO_CHAR];
    [-padded[0].rank, -padded[1].rank, -padded[0].points, -padded[1].points]
  }

  function RankedPlayers(players: seq<Player>): seq<Item<Player>> {
    if players == [] then [] else
      var rest := RankedPlayers(players[1..]);
      if players[0].chars == [] then rest
      else [Item(Standing(players[0].chars), players[0].folded, players[0])] + rest
  }

  method CurrentRankBoard(players: seq<Player>) returns (board: seq<(int, Item<Player>)>)
    ensures |board| == |RankedPlayers(players)| == |Sorted(RankedPlayers(players))|
    ensures forall i | 0 <= i < |board| :: board[i].1 == Sorted(RankedPlayers(players))[i]
    ensures forall i | 0 <= i < |board| ::
              board[i].0 == 1 + Better(RankedPlayers(players), Standing(board[i].1.value.chars))
  {
    var items := RankedPlayers(players);
    board := Board(items);
    SortedIsAPermutation(items);
    forall i | 0 <= i < |board| ensures board[i].1.key == Standing(board[i].1.value.chars) {
      assert board[i].1 in multiset(Sorted(items));
      RankedByStanding(players);
    }
  }

  /** Exactly the players with a character are ranked, each by their standing. */
  lemma {:induction false} RankedByStanding(players: seq<Player>)
    ensures forall item | item in RankedPlayers(players) ::
              item.value in players && item.value.chars != [] && item.key == Standing(item.value.chars)
              && item.name == item.value.folded
    ensures forall p | p in players && p.chars != [] :: Item(Standing(p.chars), p.folded, p) in RankedPlayers(players)
  {
    if players == [] {
    } else {
      RankedByStanding(players[1..]);
      assert players == [players[0]] + players[1..];
    }
  }

  /** Each of them once for each time they are listed, and no one else. */
  lemma {:induction false} RankedOnce(players: seq<Player>, p: Player)
    ensures multiset(Values(RankedPlayers(players)))[p] == if p.chars != [] then multiset(players)[p] else 0
  {
    if players == [] {
    } else {
      RankedOnce(players[1..], p);
      assert players == [players[0]] + players[1..];
      var rest := RankedPlayers(players[1..]);
      if players[0].chars != [] {
        assert RankedPlayers(players)[1..] == rest;
        assert Values(RankedPlayers(players)) == [players[0]] + Values(rest);
      }
    }
  }

  /** A player of the event: the best climb of an achieved slot, if any. */
  datatype EventStanding = EventStanding(folded: seq<int>, best: Option<int>)

  function AchievedItems(standings: seq<EventStanding>): seq<Item<EventStanding>> {
    if standings == [] then [] else
      var rest := AchievedItems(standings[1..]);
      if standings[0].best == None then rest
      else [Item([-standings[0].best.value], standings[0].folded, standings[0])] + rest
  }

  method Achievers(standings: seq<EventStanding>) returns (board: seq<(int, Item<EventStanding>)>)
    ensures |board| == |AchievedItems(standings)| == |Sorted(AchievedItems(standings))|
    ensures forall i | 0 <= i < |board| :: board[i].1 == Sorted(AchievedItems(standings))[i]
    ensures forall i | 0 <= i < |board| :: board[i].0 == 1 + Better(AchievedItems(standings), board[i].1.key)
  {
    board := Board(AchievedItems(standings));
  }

  lemma {:induction false} AchieversClimbed(standings: seq<EventStanding>)
    ensures forall item | item in AchievedItems(standings) ::
              item.value in standings && item.value.best.Some? && item.key == [-item.value.best.value]
    ensures forall s | s in standings && s.best.Some? :: Item([-s.best.value], s.folded, s) in AchievedItems(standings)
  {
    if standings == [] {
    } else {
      AchieversClimbed(standings[1..]);
      assert standings == [standings[0]] + standings[1..];
    }
  }

  lemma {:induction false} AchievedOnce(standings: seq<EventStanding>, s: EventStanding)
    ensures multiset(Values(AchievedItems(standings)))[s] == if s.best.Some? then multiset(standings)[s] else 0
  {
    if standings == [] {
    } else {
      AchievedOnce(standings[1..], s);
      assert standings == [standings[0]] + standings[1..];
      var rest := AchievedItems(standings[1..]);
      if standings[0].best.Some? {
        assert AchievedItems(standings)[1..] == rest;
        assert Values(AchievedItems(standings)) == [standings[0]] + Values(rest);
      }
    }
  }

  /** Less on these keys is a further climb. */
  lemma FurtherClimbIsBetter(a: int, b: int)
    ensures Less([-a], [-b]) <==> a > b
  {
    LessByHead(-a, [], -b, []);
    assert [-a] + [] == [-a] && [-b] + [] == [-b];
  }

  // -- The two characters a player is ranked by ------------------------------------------------------------------

  function ByRank(chars: seq<Character>): seq<Item<Character>> {
    if chars == [] then [] else [CharItem(chars[0])] + ByRank(chars[1..])
  }

  function CharItem(c: Character): Item<Character> { Item([-c.rank, -c.points], [], c) }

  function Values<T>(items: seq<Item<T>>): seq<T> {
    if items == [] then [] else [items[0].value] + Values(items[1..])
  }

  function TopTwo(chars: seq<Character>): seq<Character> {
    var sorted := Values(Sorted(ByRank(chars)));
    if |sorted| > 2 then sorted[..2] else sorted
  }

  predicate Below(a: Character, b: Character) { a.rank < b.rank || (a.rank == b.rank && a.points < b.points) }

  lemma BeforeIsTotalOrder<T>(x: Item<T>, y: Item<T>, z: Item<T>)
    ensures x.Before(y) || y.Before(x)
    ensures x.Before(y) && y.Before(z) ==> x.Before(z)
  {
    LessIsStrictOrder(x.key, y.key, z.key);
    LessIsStrictOrder(x.name, y.name, z.name);
    LessIsStrictOrder(z.name, x.name, y.name);
    LessIsStrictOrder(y.name, z.name, x.name);
  }

  /** An item that may stand before all the others but one, and the earliest such. */
  ghost predicate Foremost<T>(items: seq<Item<T>>, at: int, except: int) {
    && 0 <= at < |items|
    && forall k | 0 <= k < |items| && k != except ::
        items[at].Before(items[k]) && (k < at ==> !items[k].Before(items[at]))
  }

  /** The sort puts the foremost item first and the foremost of the others second, each the earliest of its equals. */
  lemma {:induction false} SortedHead<T>(items: seq<Item<T>>) returns (first: nat, second: nat)
    requires |items| >= 2
    ensures Foremost(items, first, -1) && Foremost(items, second, first) && first != second
    ensures |Sorted(items)| >= 2 && Sorted(items)[0] == items[first] && Sorted(items)[1] == items[second]
  {
    var x, tail := items[0], items[1..];
    assert items == [x] + tail;
    if |items| == 2 {
      first := if x.Before(items[1]) then 0 else 1;
      second := 1 - first;
      SortedPair(x, items[1]);
      assert items == [x, items[1]];
    } else {
      var a, b := SortedHead(tail);
      var sorted := Sorted(tail);
      InsertTop(x, sorted);
      ForemostWith(x, tail, a, -1);
      ForemostWith(x, tail, b, a);
      first := if x.Before(tail[a]) then 0 else a + 1;
      second := if x.Before(tail[a]) then a + 1 else if x.Before(tail[b]) then 0 else b + 1;
    }
  }

  lemma SortedPair<T>(x: Item<T>, y: Item<T>)
    ensures Sorted([x, y]) == if x.Before(y) then [x, y] else [y, x]
    ensures var first := if x.Before(y) then 0 else 1;
            Foremost([x, y], first, -1) && Foremost([x, y], 1 - first, first)
  {
    assert [x, y][1..] == [y] && [y][1..] == [];
    var none: seq<Item<T>> := [];
    assert [x] + none == [x] && [y] + none == [y];
    assert Sorted([y]) == Insert(y, none) == [y];
    assert Sorted([x, y]) == Insert(x, [y]);
    BeforeIsTotalOrder(x, y, x);
    BeforeIsTotalOrder(x, x, x);
    BeforeIsTotalOrder(y, y, y);
  }

  lemma InsertTop<T>(x: Item<T>, items: seq<Item<T>>)
    requires |items| >= 2
    ensures |Insert(x, items)| >= 2
    ensures Insert(x, items)[0] == if x.Before(items[0]) then x else items[0]
    ensures Insert(x, items)[1] == if x.Before(items[0]) then items[0] else if x.Before(items[1]) then x else items[1]
  {
    var rest := items[1..];
    assert Insert(x, rest) == if x.Before(rest[0]) then [x] + rest else [rest[0]] + Insert(x, rest[1..]);
  }

  lemma ForemostWith<T>(x: Item<T>, tail: seq<Item<T>>, at: int, except: int)
    requires Foremost(tail, at, except) && except >= -1
    ensures var skip := if except < 0 then -1 else except + 1;
            if x.Before(tail[at]) then Foremost([x] + tail, 0, skip) else Foremost([x] + tail, at + 1, skip)
    ensures except < 0 ==> Foremost([x] + tail, at + 1, 0)
  {
    var items := [x] + tail;
    assert forall k | 0 < k < |items| :: items[k] == tail[k - 1];
    BeforeIsTotalOrder(x, tail[at], x);
    BeforeIsTotalOrder(x, x, x);
    forall k | 0 < k < |items| && k != except + 1 ensures x.Before(tail[at]) ==> x.Before(items[k]) {
      BeforeIsTotalOrder(x, tail[at], tail[k - 1]);
    }
  }

  /** A highest of the characters but one, and the earliest such. */
  ghost predicate Highest(chars: seq<Character>, at: int, except: int) {
    && 0 <= at < |chars|
    && forall k | 0 <= k < |chars| && k != except ::
        !Below(chars[at], chars[k]) && (k < at ==> Below(chars[k], chars[at]))
  }

  /** A highest character first, a highest of the others second, each the earliest of its equals. */
  lemma TopTwoAreHighest(chars: seq<Character>) returns (first: nat, second: nat)
    requires |chars| >= 2
    ensures Highest(chars, first, -1) && Highest(chars, second, first) && first != second
    ensures TopTwo(chars) == [chars[first], chars[second]]
  {
    ByRankItems(chars);
    first, second := SortedHead(ByRank(chars));
    ForemostIsHighest(chars, first, -1);
    ForemostIsHighest(chars, second, first);
    TopTwoOfItems(chars, CharItem(chars[first]), CharItem(chars[second]));
  }

  lemma ForemostIsHighest(chars: seq<Character>, at: int, except: int)
    requires Foremost(ByRank(chars), at, except)
    ensures Highest(chars, at, except)
  {
    ByRankItems(chars);
    forall k | 0 <= k < |chars| && k != except
      ensures !Below(chars[at], chars[k]) && (k < at ==> Below(chars[k], chars[at]))
    {
      KeyIsBelow(chars[at], chars[k]);
      KeyIsBelow(chars[k], chars[at]);
    }
  }

  lemma TopTwoOfItems(chars: seq<Character>, a: Item<Character>, b: Item<Character>)
    requires var sorted := Sorted(ByRank(chars)); |sorted| >= 2 && sorted[0] == a && sorted[1] == b
    ensures TopTwo(chars) == [a.value, b.value]
  {
    TopOfValues(Sorted(ByRank(chars)));
  }

  lemma {:induction false} ByRankItems(chars: seq<Character>)
    ensures |ByRank(chars)| == |chars|
    ensures forall k | 0 <= k < |chars| :: ByRank(chars)[k] == CharItem(chars[k])
  {
    if chars == [] {
    } else {
      ByRankItems(chars[1..]);
    }
  }

  lemma KeyIsBelow(a: Character, b: Character)
    ensures CharItem(a).Before(CharItem(b)) <==> !Below(a, b)
  {
    LessByHead(-a.points, [], -b.points, []);
    LessByHead(-a.rank, [-a.points], -b.rank, [-b.points]);
    assert [-a.rank] + [-a.points] == [-a.rank, -a.points] && [-b.rank] + [-b.points] == [-b.rank, -b.points];
    assert [-a.points] + [] == [-a.points] && [-b.points] + [] == [-b.points];
  }

  lemma TopOfValues<T>(items: seq<Item<T>>)
    requires |items| >= 2
    ensures |Values(items)| >= 2 && Values(items)[..2] == [items[0].value, items[1].value]
  {
    assert Values(items) == [items[0].value] + ([items[1].value] + Values(items[1..][1..]));
  }

  /** The two characters kept give the best standing any ordered pair of the player's characters would. */
  lemma TopTwoIsTheBestStanding(chars: seq<Character>, i: nat, j: nat)
    requires i < |chars| && j < |chars| && i != j
    ensures !Less(Standing([chars[i], chars[j]]), Standing(TopTwo(chars)))
  {
    var first, second := TopTwoAreHighest(chars);
    var a, b, x, y := chars[first], chars[second], chars[i], chars[j];
    assert !Below(a, x) && !Below(a, y);
    assert i != first ==> !Below(b, x);
    assert j != first ==> !Below(b, y);
    StandingOrder(x, y, a, b);
  }

  /** A standing is better by first rank, then second rank, then first points, then second points. */
  lemma StandingOrder(x: Character, y: Character, a: Character, b: Character)
    ensures Less(Standing([x, y]), Standing([a, b])) <==>
              x.rank > a.rank
              || (x.rank == a.rank && (y.rank > b.rank
              || (y.rank == b.rank && (x.points > a.points
              || (x.points == a.points && y.points > b.points)))))
  {
    LessByHead(-x.points, [-y.points], -a.points, [-b.points]);
    LessByHead(-y.points, [], -b.points, []);
    LessByHead(-y.rank, [-x.points] + [-y.points], -b.rank, [-a.points] + [-b.points]);
    LessByHead(-x.rank, [-y.rank] + ([-x.points] + [-y.points]), -a.rank, [-b.rank] + ([-a.points] + [-b.points]));
    assert [-y.points] + [] == [-y.points] && [-b.points] + [] == [-b.points];
    assert Standing([x, y]) == [-x.rank] + ([-y.rank] + ([-x.points] + [-y.points]));
    assert Standing([a, b]) == [-a.rank] + ([-b.rank] + ([-a.points] + [-b.points]));
  }

  /** A player with one character stands below another with the same first rank and a second character of any rank, and
      against another with one character is placed by rank and then points. Characters past the second do not count. */
  lemma SingleStanding(x: Character, y: Character, a: Character, b: Character, more: seq<Character>)
    requires b.rank >= 0
    ensures Less(Standing([x]), Standing([a, b])) <==> x.rank > a.rank
    ensures Less(Standing([a, b]), Standing([x])) <==> a.rank >= x.rank
    ensures Less(Standing([x]), Standing([y])) <==> x.rank > y.rank || (x.rank == y.rank && x.points > y.points)
    ensures Standing([a, b] + more) == Standing([a, b])
  {
    StandingAlone(x);
    StandingAlone(y);
    StandingOrder(x, NO_CHAR, a, b);
    StandingOrder(a, b, x, NO_CHAR);
    StandingOrder(x, NO_CHAR, y, NO_CHAR);
  }

  lemma StandingAlone(x: Character)
    ensures Standing([x]) == Standing([x, NO_CHAR])
  {
  }

  // -- Closing the gaps excluded accounts leave --------------------------------------------------------------------

  datatype Entry = Entry(rank: int, npid: string)

  function CountBelow(entries: seq<Entry>, rank: int): nat {
    if entries == [] then 0 else (if entries[0].rank < rank then 1 else 0) + CountBelow(entries[1..], rank)
  }

  function Keep(entries: seq<Entry>, excluded: string -> bool, wanted: bool): seq<Entry> {
    if entries == [] then [] else
      var rest := Keep(entries[1..], excluded, wanted);
      if excluded(entries[0].npid) == wanted then [entries[0]] + rest else rest
  }

  /** The entries that stay, each rank less the number of dropped entries that stood above it. */
  function WithoutExcluded(entries: seq<Entry>, excluded: string -> bool): seq<Entry> {
    var gone, kept := Keep(entries, excluded, true), Keep(entries, excluded, false);
    seq(|kept|, i requires 0 <= i < |kept| => kept[i].(rank := kept[i].rank - CountBelow(gone, kept[i].rank)))
  }

  /** A board ranked from 1: each rank is one more than the number of entries strictly above. */
  ghost predicate Competition(entries: seq<Entry>) {
    forall e | e in entries :: e.rank == 1 + CountBelow(entries, e.rank)
  }

  lemma {:induction false} KeepSplits(entries: seq<Entry>, excluded: string -> bool, rank: int)
    ensures CountBelow(entries, rank)
         == CountBelow(Keep(entries, excluded, false), rank) + CountBelow(Keep(entries, excluded, true), rank)
    ensures forall e :: e in Keep(entries, excluded, false) <==> e in entries && !excluded(e.npid)
  {
    if entries == [] {
    } else {
      KeepSplits(entries[1..], excluded, rank);
      assert entries == [entries[0]] + entries[1..];
      assert ([entries[0]] + Keep(entries[1..], excluded, true))[1..] == Keep(entries[1..], excluded, true);
      assert ([entries[0]] + Keep(entries[1..], excluded, false))[1..] == Keep(entries[1..], excluded, false);
    }
  }

  lemma {:induction false} KeepCounts(entries: seq<Entry>, excluded: string -> bool)
    ensures |Keep(entries, excluded, false)| + |Keep(entries, excluded, true)| == |entries|
  {
    if entries == [] {
    } else {
      KeepCounts(entries[1..], excluded);
    }
  }

  /** Each entry that stays is ranked among those that stay exactly if it was ranked so among all; nothing else of the
      list changes. */
  lemma RankAmongTheRest(entries: seq<Entry>, excluded: string -> bool, i: nat)
    requires i < |WithoutExcluded(entries, excluded)|
    ensures var kept := Keep(entries, excluded, false);
            && |WithoutExcluded(entries, excluded)| == |kept|
            && WithoutExcluded(entries, excluded)[i].npid == kept[i].npid
            && (WithoutExcluded(entries, excluded)[i].rank == 1 + CountBelow(kept, kept[i].rank) <==>
                  kept[i].rank == 1 + CountBelow(entries, kept[i].rank))
  {
    KeepSplits(entries, excluded, Keep(entries, excluded, false)[i].rank);
  }

  /** A competition ranking stays one: ties stay tied, order stays order, and no gap is left. */
  lemma ExclusionIsReRanking(entries: seq<Entry>, excluded: string -> bool)
    requires Competition(entries)
    ensures var kept, result := Keep(entries, excluded, false), WithoutExcluded(entries, excluded);
            && (forall i | 0 <= i < |result| :: result[i].rank == 1 + CountBelow(kept, kept[i].rank))
            && (forall i, j | 0 <= i < |result| && 0 <= j < |result| :: result[i].rank < result[j].rank <==>
                kept[i].rank < kept[j].rank)
            && Competition(result)
            && |result| == |entries| - |Keep(entries, excluded, true)|
  {
    var kept, result := Keep(entries, excluded, false), WithoutExcluded(entries, excluded);
    KeepSplits(entries, excluded, 0);
    KeepCounts(entries, excluded);
    forall i | 0 <= i < |result| ensures result[i].rank == 1 + CountBelow(kept, kept[i].rank) {
      RankAmongTheRest(entries, excluded, i);
      assert kept[i] in kept;
    }
    ReRanked(kept, result);
  }

  /** Ranking entries by how many stand above them keeps their order and is a competition ranking. */
  lemma ReRanked(kept: seq<Entry>, result: seq<Entry>)
    requires |result| == |kept|
    requires forall i | 0 <= i < |result| :: result[i].rank == 1 + CountBelow(kept, kept[i].rank)
    ensures forall i, j | 0 <= i < |result| && 0 <= j < |result| :: result[i].rank < result[j].rank <==>
              kept[i].rank < kept[j].rank
    ensures Competition(result)
  {
    forall i, j | 0 <= i < |result| && 0 <= j < |result|
      ensures result[i].rank < result[j].rank <==> kept[i].rank < kept[j].rank
    {
      CountBelowGrows(kept, kept[i].rank, kept[j].rank, i);
      CountBelowGrows(kept, kept[j].rank, kept[i].rank, j);
    }
    forall e | e in result ensures e.rank == 1 + CountBelow(result, e.rank) {
      var i :| 0 <= i < |result| && result[i] == e;
      SameCount(kept, result, kept[i].rank, e.rank);
    }
  }

  ghost function Above(entries: seq<Entry>, rank: int): set<int> {
    set i | 0 <= i < |entries| && entries[i].rank < rank
  }

  /** The entries strictly above a rank, counted. */
  lemma {:induction false} CountBelowIsASize(entries: seq<Entry>, rank: int)
    ensures CountBelow(entries, rank) == |Above(entries, rank)|
  {
    if entries == [] {
      assert Above(entries, rank) == {};
    } else {
      CountBelowIsASize(entries[1..], rank);
      AboveInTail(entries, rank);
      assert Above(entries, rank) == Above(entries, rank) - {0} + if entries[0].rank < rank then {0} else {};
    }
  }

  lemma AboveInTail(entries: seq<Entry>, rank: int)
    requires entries != []
    ensures |Above(entries[1..], rank)| == |Above(entries, rank) - {0}|
  {
    forall i | i in Above(entries[1..], rank) ensures i + 1 in Above(entries, rank) - {0} {
      assert entries[1..][i] == entries[i + 1];
    }
    forall j | j in Above(entries, rank) - {0} ensures j - 1 in Above(entries[1..], rank) {
      assert entries[1..][j - 1] == entries[j];
    }
    ShiftSize(Above(entries[1..], rank), Above(entries, rank) - {0});
  }

  lemma {:induction false} CountBelowGrows(entries: seq<Entry>, low: int, high: int, witnessAt: nat)
    requires witnessAt < |entries| && entries[witnessAt].rank == low
    ensures low < high ==> CountBelow(entries, low) < CountBelow(entries, high)
    ensures low == high ==> CountBelow(entries, low) == CountBelow(entries, high)
  {
    if witnessAt > 0 {
      CountBelowGrows(entries[1..], low, high, witnessAt - 1);
    } else {
      CountBelowMonotone(entries[1..], low, high);
    }
  }

  lemma {:induction false} CountBelowMonotone(entries: seq<Entry>, low: int, high: int)
    ensures low <= high ==> CountBelow(entries, low) <= CountBelow(entries, high)
  {
    if entries == [] {
    } else {
      CountBelowMonotone(entries[1..], low, high);
    }
  }

  lemma {:induction false} SameCount(a: seq<Entry>, b: seq<Entry>, rankA: int, rankB: int)
    requires |a| == |b| && forall k | 0 <= k < |a| :: a[k].rank < rankA <==> b[k].rank < rankB
    ensures CountBelow(a, rankA) == CountBelow(b, rankB)
  {
    if a == [] {
    } else {
      SameCount(a[1..], b[1..], rankA, rankB);
    }
  }
}

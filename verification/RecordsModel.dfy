/** The values the match-records pipeline carries, and how two saves of one player become a match. */
module RecordsModel {
  import opened Common

  type Npid = string

  datatype Outcome = Win | Loss

  datatype Side = P1 | P2
  {
    function Other(): Side { if this == P1 then P2 else P1 }
  }

  datatype Status = Pending | Done | Dead

  // Older states have no rank.
  datatype Tally = Tally(wins: int, losses: int, rank: Option<int>)
  {
    function Count(outcome: Outcome): int { if outcome == Win then wins else losses }
  }

  /** One save's cumulative record. `entered` lists the characters of a start save by tag, and is empty otherwise. */
  datatype Save = Save(npid: Npid, dataId: int, savedAt: int, wins: int, losses: int,
                       tallies: map<int, Tally>, entered: seq<int>)
  {
    function TallyOf(charId: int): Tally { if charId in tallies then tallies[charId] else Tally(0, 0, None) }
  }

  datatype PlayerMatch = PlayerMatch(outcome: Outcome, chars: seq<int>, ranks: seq<Option<int>>)

  datatype Comparison = Comparison(found: Option<PlayerMatch>, merged: bool)

  /** A queued match of one player, with the queue's own columns. */
  datatype Event = Event(npid: Npid, dataId: int, outcome: Outcome, chars: seq<int>, ranks: seq<Option<int>>,
                         savedAt: int, status: Status, attempts: nat, availableAt: int)

  // -- Sides ----------------------------------------------------------------

  /** The side a player has: the room's first member, and a player without a room, are 1P. */
  function SideOf(user1: Option<Npid>, npid: Npid): Side {
    if user1 == None || user1 == Some(npid) then P1 else P2
  }

  function Winner(side: Side, outcome: Outcome): Side {
    if outcome == Win then side else side.Other()
  }

  function OutcomeOf(side: Side, winner: Side): Outcome {
    if side == winner then Win else Loss
  }

  /** Storing the winning side loses nothing: each side reads its own outcome back, and the two differ. */
  lemma WinnerKeepsBothOutcomes(side: Side, outcome: Outcome)
    ensures OutcomeOf(side, Winner(side, outcome)) == outcome
    ensures OutcomeOf(side.Other(), Winner(side, outcome)) != outcome
    ensures forall w :: OutcomeOf(side, w) == outcome <==> w == Winner(side, outcome)
  {
  }

  // -- Comparing two saves -----------------------------------------------------

  function Raised(before: Save, after: Save, outcome: Outcome): set<int> {
    set c | c in after.tallies && after.tallies[c].Count(outcome) > before.TallyOf(c).Count(outcome)
  }

  lemma {:induction false} FindLeast(ids: set<int>) returns (least: int)
    requires ids != {}
    ensures least in ids && forall y | y in ids :: least <= y
  {
    var x := Pick(ids);
    var rest := ids - {x};
    if rest == {} {
      least := x;
      assert forall y | y in ids :: y == x || y in rest;
    } else {
      var other := FindLeast(rest);
      least := if x <= other then x else other;
      assert forall y | y in ids :: y == x || y in rest;
    }
  }

  lemma LeastExists(ids: set<int>)
    requires ids != {}
    ensures exists x :: x in ids && forall y | y in ids :: x <= y
  {
    var least := FindLeast(ids);
  }

  function Least(ids: set<int>): (x: int)
    requires ids != {}
    ensures x in ids && forall y | y in ids :: x <= y
  {
    LeastExists(ids);
    var x :| x in ids && forall y | y in ids :: x <= y;
    x
  }

  function Ascending(ids: set<int>): (r: seq<int>)
    ensures forall x :: x in r <==> x in ids
    ensures forall i, j | 0 <= i < j < |r| :: r[i] < r[j]
  {
    if ids == {} then [] else
      var x := Least(ids);
      [x] + Ascending(ids - {x})
  }

  /** The raised characters, as the save before listed them if it listed just those, and ascending otherwise. */
  function Played(before: Save, after: Save, outcome: Outcome): seq<int> {
    var raised := Raised(before, after, outcome);
    if (set c | c in before.entered) == raised then before.entered else Ascending(raised)
  }

  lemma PlayedIsRaised(before: Save, after: Save, outcome: Outcome)
    ensures forall c :: c in Played(before, after, outcome) <==> c in Raised(before, after, outcome)
  {
    var raised := Raised(before, after, outcome);
    if (set c | c in before.entered) == raised {
      assert forall c :: c in before.entered <==> c in (set d | d in before.entered);
    }
  }

  /** The earlier save's rank of a character if it has one, else the later save's. */
  function RankGoingIn(before: Save, after: Save, charId: int): Option<int>
    requires charId in after.tallies
  {
    var rank := before.TallyOf(charId).rank;
    if rank == None then after.tallies[charId].rank else rank
  }

  function Compare(before: Save, after: Save): Comparison {
    var change := (after.wins - before.wins, after.losses - before.losses);
    if change == (0, 0) then Comparison(None, false)
    else if change != (1, 0) && change != (0, 1) then Comparison(None, true)
    else
      var outcome := if change == (1, 0) then Win else Loss;
      PlayedIsRaised(before, after, outcome);
      var played := Played(before, after, outcome);
      assert forall c | c in played :: c in after.tallies;
      Comparison(Some(PlayerMatch(outcome, played,
                                  seq(|played|, i requires 0 <= i < |played| =>
                                        RankGoingIn(before, after, played[i])))), false)
  }

  /** A match is found exactly when one result was added; any other change is a jump. The characters are those whose
      own record rose, each with the rank it went in at, and listed as the save before listed them, if it did. */
  lemma CompareReadsTheChange(before: Save, after: Save)
    ensures var wins, losses, c := after.wins - before.wins, after.losses - before.losses, Compare(before, after);
            && (c.found.Some? <==> (wins == 1 && losses == 0) || (wins == 0 && losses == 1))
            && (c.merged <==> c.found == None && (wins != 0 || losses != 0))
            && (c.found.Some? ==>
                  var found := c.found.value;
                  && (found.outcome == Win <==> wins == 1)
                  && (forall ch :: ch in found.chars <==>
                        && ch in after.tallies
                        && (wins == 1 ==>
                              after.tallies[ch].wins > if ch in before.tallies then before.tallies[ch].wins else 0)
                        && (losses == 1 ==>
                              after.tallies[ch].losses > if ch in before.tallies then before.tallies[ch].losses else 0))
                  && |found.ranks| == |found.chars|
                  && (forall i | 0 <= i < |found.chars| ::
                        var ch := found.chars[i];
                        && ch in after.tallies
                        && found.ranks[i] == if ch in before.tallies && before.tallies[ch].rank.Some?
                                             then before.tallies[ch].rank else after.tallies[ch].rank)
                  && ((set ch | ch in before.entered) == (set ch | ch in found.chars) ==> found.chars == before.entered)
                  && (found.chars != before.entered ==>
                        forall i, j | 0 <= i < j < |found.chars| :: found.chars[i] < found.chars[j]))
  {
    var found := Compare(before, after).found;
    if found.Some? {
      PlayedIsRaised(before, after, found.value.outcome);
      assert (set ch | ch in found.value.chars) == Raised(before, after, found.value.outcome);
      forall i | 0 <= i < |found.value.chars|
        ensures found.value.chars[i] in after.tallies
        ensures found.value.ranks[i] == RankGoingIn(before, after, found.value.chars[i])
      {
        var charId: int := found.value.chars[i];
        assert charId in Played(before, after, found.value.outcome);
        assert charId in Raised(before, after, found.value.outcome);
      }
    }
  }
}

/** Reading the match list page by page while matches are being recorded. */
module Paging {
  import opened Common
  import opened RecordsModel
  import opened MatchTable
  import opened Consumers

  /** What a listing filters on: the players and the room, which no later write to a row changes. */
  type Filter = (Npid, Option<Npid>, Option<int>) -> bool

  predicate Shows(filter: Filter, row: Match) { filter(row.p1, row.p2, row.room) }

  predicate Older(id: int, before: Option<int>) { before == None || id < before.value }

  /** The query's answer: the newest `limit` matching rows older than `before`, newest first. */
  ghost predicate IsListing(matches: Matches, filter: Filter, before: Option<int>, limit: nat, found: seq<int>) {
    && |found| <= limit
    && (forall i | 0 <= i < |found| ::
        found[i] in matches && Shows(filter, matches[found[i]]) && Older(found[i], before))
    && (forall i, j | 0 <= i < j < |found| :: found[i] > found[j])
    && (forall id | id in matches && Shows(filter, matches[id]) && Older(id, before) ::
          id in found || (|found| == limit && forall i | 0 <= i < |found| :: found[i] > id))
  }

  /** The page the service answers from one row more than it shows. */
  function Page(found: seq<int>, limit: nat): (seq<int>, Option<int>)
    requires limit > 0
  {
    (if |found| > limit then found[..limit] else found, if |found| > limit then Some(found[limit - 1]) else None)
  }

  /** Between pages rows may be added, with any fresh id, and gain events. */
  ghost predicate Grows(earlier: Matches, later: Matches) {
    forall id | id in earlier ::
      && id in later
      && later[id].p1 == earlier[id].p1 && later[id].p2 == earlier[id].p2 && later[id].room == earlier[id].room
  }

  /** One request: the page answered over a table, and where the next one starts. */
  ghost predicate IsPage(matches: Matches, filter: Filter, before: Option<int>, limit: nat, page: seq<int>,
                         next: Option<int>)
    requires limit > 0
  {
    exists found :: IsListing(matches, filter, before, limit + 1, found) && (page, next) == Page(found, limit)
  }

  /** A client that follows `next_before` until it is null, seeing one table per request. */
  ghost predicate IsReading(filter: Filter, limit: nat, before: Option<int>, tables: seq<Matches>, pages: seq<seq<int>>)
    requires limit > 0
    decreases |tables|
  {
    && |tables| == |pages| > 0
    && if |tables| == 1 then IsPage(tables[0], filter, before, limit, pages[0], None)
       else exists next ::
              && IsPage(tables[0], filter, before, limit, pages[0], Some(next))
              && Grows(tables[0], tables[1])
              && IsReading(filter, limit, Some(next), tables[1..], pages[1..])
  }

  ghost function All(pages: seq<seq<int>>): seq<int>
    decreases |pages|
  {
    if pages == [] then [] else pages[0] + All(pages[1..])
  }

  ghost predicate Descending(ids: seq<int>) { forall i, j | 0 <= i < j < |ids| :: ids[i] > ids[j] }

  /** A page is newest first and complete down to where the next one starts. */
  lemma PageFacts(matches: Matches, filter: Filter, before: Option<int>, limit: nat, page: seq<int>, next: Option<int>)
    requires limit > 0 && IsPage(matches, filter, before, limit, page, next)
    ensures Descending(page) && |page| <= limit
    ensures next.Some? ==> |page| == limit && next.value == page[limit - 1]
    ensures forall i | 0 <= i < |page| ::
              page[i] in matches && Shows(filter, matches[page[i]]) && Older(page[i], before)
    ensures next.Some? ==>
              && next.value in matches && Older(next.value, before)
              && forall i | 0 <= i < |page| :: page[i] >= next.value
    ensures forall id | id in matches && Shows(filter, matches[id]) && Older(id, before)
              && !(next.Some? && id < next.value) ::
              id in page
  {
    var found :| IsListing(matches, filter, before, limit + 1, found) && (page, next) == Page(found, limit);
    assert forall i | 0 <= i < |page| :: page[i] == found[i];
    forall id: int | id in matches && Shows(filter, matches[id]) && Older(id, before)
        && !(next.Some? && id < next.value)
      ensures id in page
    {
      if next.Some? {
        OnThePage(found, limit, id);
      } else {
        assert id in found;
      }
    }
  }

  lemma OnThePage(found: seq<int>, limit: nat, id: int)
    requires 0 < limit < |found| <= limit + 1 && Descending(found)
    requires id >= found[limit - 1]
    requires id in found || forall i | 0 <= i < |found| :: found[i] > id
    ensures id in found[..limit]
  {
    assert id in found;
    var i :| 0 <= i < |found| && found[i] == id;
    assert i < limit;
    assert found[..limit][i] == id;
  }

  /** Every match there at the first read and passing the filter is read exactly once, newest first, and nothing is
      read twice or out of order, whatever was recorded meanwhile. */
  lemma {:induction false} PagesAreComplete(filter: Filter, limit: nat, before: Option<int>, tables: seq<Matches>,
                                            pages: seq<seq<int>>)
    requires limit > 0 && IsReading(filter, limit, before, tables, pages)
    ensures Descending(All(pages))
    ensures forall i | 0 <= i < |All(pages)| :: Older(All(pages)[i], before)
    ensures forall id | id in tables[0] && Shows(filter, tables[0][id]) && Older(id, before) :: id in All(pages)
    decreases |tables|
  {
    if |tables| == 1 {
      PageFacts(tables[0], filter, before, limit, pages[0], None);
      assert All(pages) == pages[0] by { assert All(pages[1..]) == []; }
    } else {
      var next :| && IsPage(tables[0], filter, before, limit, pages[0], Some(next))
                  && Grows(tables[0], tables[1])
                  && IsReading(filter, limit, Some(next), tables[1..], pages[1..]);
      PagesAreComplete(filter, limit, Some(next), tables[1..], pages[1..]);
      PageThenRest(filter, limit, before, tables[0], tables[1], pages[0], next, All(pages[1..]));
    }
  }

  /** Every page is of matches that were there and pass the filter, at most as many as asked for. */
  lemma {:induction false} PagesShowMatches(filter: Filter, limit: nat, before: Option<int>, tables: seq<Matches>,
                                            pages: seq<seq<int>>, k: nat, id: int)
    requires limit > 0 && IsReading(filter, limit, before, tables, pages)
    requires k < |pages| && id in pages[k]
    ensures |pages[k]| <= limit && id in tables[k] && Shows(filter, tables[k][id])
    decreases |tables|
  {
    if |tables| == 1 {
      PageFacts(tables[0], filter, before, limit, pages[0], None);
    } else {
      var next :| && IsPage(tables[0], filter, before, limit, pages[0], Some(next))
                  && Grows(tables[0], tables[1])
                  && IsReading(filter, limit, Some(next), tables[1..], pages[1..]);
      if k == 0 {
        PageFacts(tables[0], filter, before, limit, pages[0], Some(next));
      } else {
        PagesShowMatches(filter, limit, Some(next), tables[1..], pages[1..], k - 1, id);
      }
    }
  }

  lemma PageThenRest(filter: Filter, limit: nat, before: Option<int>, now: Matches, later: Matches,
                     page: seq<int>, next: int, rest: seq<int>)
    requires limit > 0 && IsPage(now, filter, before, limit, page, Some(next)) && Grows(now, later)
    requires Descending(rest) && forall i | 0 <= i < |rest| :: rest[i] < next
    requires forall id | id in later && Shows(filter, later[id]) && id < next :: id in rest
    ensures Descending(page + rest)
    ensures forall i | 0 <= i < |page + rest| :: Older((page + rest)[i], before)
    ensures forall id | id in now && Shows(filter, now[id]) && Older(id, before) :: id in page + rest
  {
    PageFacts(now, filter, before, limit, page, Some(next));
    forall id | id in now && Shows(filter, now[id]) && Older(id, before) ensures id in page + rest {
      if id < next {
        assert id in later && Shows(filter, later[id]);
        assert id in rest;
      } else {
        assert id in page;
      }
    }
  }

  /** Where a reading begins: below the id it was given, or at the highest of its first table. */
  function From(before: Option<int>, top: int): int { if before.Some? then before.value else top + 1 }

  lemma NextIsLower(matches: Matches, filter: Filter, before: Option<int>, top: int, limit: nat, page: seq<int>,
                    next: int)
    requires limit > 0 && IsPage(matches, filter, before, limit, page, Some(next))
    requires before == None ==> forall id | id in matches :: id <= top
    ensures next in matches && next < From(before, top)
  {
    PageFacts(matches, filter, before, limit, page, Some(next));
  }

  /** Ids being positive, following the pages ends: each next page lies wholly below the last. A reader given `before`
      is done within that many pages, and one that starts from the top within one more than the highest id. */
  lemma {:induction false} PagesEnd(filter: Filter, limit: nat, before: Option<int>, top: int, tables: seq<Matches>,
                                    pages: seq<seq<int>>)
    requires limit > 0 && IsReading(filter, limit, before, tables, pages)
    requires forall i, id | 0 <= i < |tables| && id in tables[i] :: id > 0
    requires before == None ==> forall id | id in tables[0] :: id <= top
    ensures before.Some? ==> |pages| <= if before.value > 1 then before.value else 1
    ensures before == None ==> |pages| <= if top > 0 then top + 1 else 1
    decreases |tables|
  {
    if |tables| > 1 {
      var next :| && IsPage(tables[0], filter, before, limit, pages[0], Some(next))
                  && Grows(tables[0], tables[1])
                  && IsReading(filter, limit, Some(next), tables[1..], pages[1..]);
      NextIsLower(tables[0], filter, before, top, limit, pages[0], next);
      PagesEnd(filter, limit, Some(next), top, tables[1..], pages[1..]);
    }
  }

  /** What the consumers do between two requests is such growth, and every id is positive. */
  lemma {:induction false} RecordingGrows(from: State, actions: seq<Action>)
    requires Reachable(from) && Execute(from, actions).Some?
    ensures Grows(from.matches, Execute(from, actions).value.matches)
    ensures forall id | id in from.matches :: id > 0
  {
    ReachableOk(from);
    if actions == [] {
    } else {
      var init, last := actions[..|actions| - 1], actions[|actions| - 1];
      RecordingGrows(from, init);
      RunKeepsInv(from, init);
      var s := Execute(from, init).value;
      forall m | m in from.matches ensures m in Apply(s, last).matches {
        StepOnlyAddsEvents(s, last, m);
      }
      forall m | m in from.matches
        ensures Apply(s, last).matches[m].p1 == from.matches[m].p1 && Apply(s, last).matches[m].p2 == from.matches[m].p2
        ensures Apply(s, last).matches[m].room == from.matches[m].room
      {
        StepOnlyAddsEvents(s, last, m);
      }
    }
  }
}

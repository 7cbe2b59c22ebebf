/** Small shared types, and the one counting lemma the tallies need. */
module Common {

  datatype Option<+T> = None | Some(value: T)

  datatype Result<+T, +E> = Ok(value: T) | Err(error: E)

  // Instants and durations are whole microseconds, the resolution of the source's clock.
  const SECOND := 1_000_000
  const MINUTE := 60 * SECOND
  const HOUR := 60 * MINUTE
  const DAY := 24 * HOUR

  function Abs(x: int): (r: int)
    ensures r >= 0 && (r == x || r == -x)
  {
    if x < 0 then -x else x
  }

  lemma Pick<T>(s: set<T>) returns (x: T)
    requires s != {}
    ensures x in s
  {
    x :| x in s;
  }

  lemma Regroup<T>(a: seq<T>, b: seq<T>, c: seq<T>)
    ensures a + b + c == a + (b + c)
  {
  }

  lemma SizeWithout<T>(all: set<T>, part: set<T>)
    requires part <= all
    ensures |all - part| == |all| - |part|
  {
    assert all == (all - part) + part;
  }

  /** A one-to-one image has as many elements as the set it comes from. */
  lemma {:induction false} ImageSize<A, B>(source: set<A>, image: set<B>, f: A -> B)
    requires forall x | x in source :: f(x) in image
    requires forall x, y | x in source && y in source && f(x) == f(y) :: x == y
    requires forall b | b in image :: exists x :: x in source && f(x) == b
    ensures |source| == |image|
  {
    if source == {} {
      assert image == {};
    } else {
      var x :| x in source;
      ImageSize(source - {x}, image - {f(x)}, f);
    }
  }

  lemma ShiftSize(before: set<int>, after: set<int>)
    requires forall i | i in before :: i + 1 in after
    requires forall j | j in after :: j - 1 in before
    ensures |before| == |after|
  {
    forall j | j in after ensures exists i :: i in before && i + 1 == j {
      assert j - 1 in before && j - 1 + 1 == j;
    }
    ImageSize(before, after, (i: int) => i + 1);
  }
}

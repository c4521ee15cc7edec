/** What several modules share. */
module Basics {

  datatype Option<T> = None | Some(value: T)

  /** An hour, in microseconds. */
  const HOUR: int := 3_600_000_000

  function Latest(a: int, b: int): int {
    if a > b then a else b
  }

  function Earliest(a: int, b: int): int {
    if a < b then a else b
  }

  lemma LatestAndEarliest(a: int, b: int)
    ensures a <= Latest(a, b) && b <= Latest(a, b) && Latest(a, b) in {a, b}
    ensures Earliest(a, b) <= a && Earliest(a, b) <= b && Earliest(a, b) in {a, b}
  {
  }

  /** The first of a list, up to limit. */
  function First<T>(list: seq<T>, limit: nat): seq<T> {
    if |list| <= limit then list else list[..limit]
  }

  lemma FirstIs<T>(list: seq<T>, limit: nat)
    ensures First(list, limit) <= list && |First(list, limit)| <= limit
    ensures |First(list, limit)| == limit || First(list, limit) == list
  {
  }
}

/** Logs newest first: by time, then id (storage/logs_old_files.go newerFirst, mergeNewestFirst). Only
    the Logs that meet a scan's condition are told of. Id 0 is the nil id, which no Log has. */
module NewestFirst {
  import opened Basics

  datatype Log = Log(time: int, id: nat)

  /** A place in newest-first order; with id 0, the place after every Log of its time. */
  datatype Position = Position(time: int, id: nat)

  predicate Newer(a: Log, b: Log) {
    a.time > b.time || (a.time == b.time && a.id > b.id)
  }

  /** Newest first, no two at one place. */
  ghost predicate Sorted(logs: seq<Log>) {
    forall i, j :: 0 <= i < j < |logs| ==> Newer(logs[i], logs[j])
  }

  ghost predicate Apart(a: seq<Log>, b: seq<Log>) {
    forall x, y :: x in a && y in b ==> x != y
  }

  /** Both lists in one, newest first. */
  function Merge(a: seq<Log>, b: seq<Log>): seq<Log> {
    if a == [] && b == [] then []
    else if b == [] || (a != [] && (a[0] == b[0] || Newer(a[0], b[0]))) then [a[0]] + Merge(a[1..], b)
    else [b[0]] + Merge(a, b[1..])
  }

  method MergeNewestFirst(a0: seq<Log>, b0: seq<Log>, limit: nat) returns (merged: seq<Log>)
    ensures merged == First(Merge(a0, b0), limit)
  {
    var a, b := a0, b0;
    merged := [];
    while |merged| < limit && (|a| > 0 || |b| > 0)
      invariant |merged| <= limit
      invariant merged + Merge(a, b) == Merge(a0, b0)
      decreases |a| + |b|
    {
      if |b| == 0 || (|a| > 0 && (a[0] == b[0] || Newer(a[0], b[0]))) {
        MoveOne(merged, a[0], Merge(a[1..], b));
        merged, a := merged + [a[0]], a[1..];
      } else {
        MoveOne(merged, b[0], Merge(a, b[1..]));
        merged, b := merged + [b[0]], b[1..];
      }
    }
    CutAt(merged, Merge(a, b), limit);
  }

  lemma MoveOne(merged: seq<Log>, x: Log, rest: seq<Log>)
    ensures merged + ([x] + rest) == merged + [x] + rest
  {
  }

  lemma CutAt(merged: seq<Log>, rest: seq<Log>, limit: nat)
    requires |merged| == limit || (|merged| <= limit && rest == [])
    ensures First(merged + rest, limit) == merged
  {
  }

  /** A merge holds the Logs of both, each as often. */
  lemma {:induction false} MergedIsBoth(a: seq<Log>, b: seq<Log>)
    ensures multiset(Merge(a, b)) == multiset(a) + multiset(b)
  {
    if a != [] || b != [] {
      if b == [] || (a != [] && (a[0] == b[0] || Newer(a[0], b[0]))) {
        MergedIsBoth(a[1..], b);
        OneTaken(a, Merge(a[1..], b), multiset(b));
      } else {
        MergedIsBoth(a, b[1..]);
        OneTaken(b, Merge(a, b[1..]), multiset(a));
      }
    }
  }

  lemma OneTaken(a: seq<Log>, rest: seq<Log>, others: multiset<Log>)
    requires a != [] && multiset(rest) == multiset(a[1..]) + others
    ensures multiset([a[0]] + rest) == multiset(a) + others
  {
    assert a == [a[0]] + a[1..];
  }

  lemma MergedIn(a: seq<Log>, b: seq<Log>)
    ensures forall x :: x in Merge(a, b) <==> x in a || x in b
  {
    MergedIsBoth(a, b);
    forall x
      ensures x in Merge(a, b) <==> x in a || x in b
    {
      assert x in Merge(a, b) <==> x in multiset(Merge(a, b));
      assert x in a <==> x in multiset(a);
      assert x in b <==> x in multiset(b);
    }
  }

  lemma SortedTail(logs: seq<Log>)
    requires Sorted(logs) && logs != []
    ensures Sorted(logs[1..]) && forall x :: x in logs[1..] ==> Newer(logs[0], x)
  {
  }

  lemma SortedWithFront(x: Log, rest: seq<Log>)
    requires Sorted(rest) && forall y :: y in rest ==> Newer(x, y)
    ensures Sorted([x] + rest)
  {
  }

  /** Two sorted lists with no Log in common merge into one sorted list of all their Logs. */
  lemma {:induction false} MergeSorted(a: seq<Log>, b: seq<Log>)
    requires Sorted(a) && Sorted(b) && Apart(a, b)
    ensures Sorted(Merge(a, b))
  {
    if a != [] || b != [] {
      if b == [] || (a != [] && (a[0] == b[0] || Newer(a[0], b[0]))) {
        SortedTail(a);
        if b != [] {
          SortedTail(b);
          assert a[0] in a && b[0] in b;
        }
        assert forall x :: x in a[1..] ==> x in a;
        MergeSorted(a[1..], b);
        MergedIn(a[1..], b);
        HeadIsNewest(a[0], b);
        SortedWithFront(a[0], Merge(a[1..], b));
      } else {
        SortedTail(b);
        assert forall x :: x in b[1..] ==> x in b;
        MergeSorted(a, b[1..]);
        MergedIn(a, b[1..]);
        HeadIsNewest(b[0], a);
        SortedWithFront(b[0], Merge(a, b[1..]));
      }
    }
  }

  lemma HeadIsNewest(x: Log, logs: seq<Log>)
    requires Sorted(logs) && (logs != [] ==> Newer(x, logs[0]))
    ensures forall y :: y in logs ==> Newer(x, y)
  {
  }

  /** Merging only as many of each as are wanted gives the same ones. */
  lemma {:induction false} MergeOfFirst(a: seq<Log>, b: seq<Log>, limit: nat, ka: nat, kb: nat)
    requires limit <= ka && limit <= kb
    ensures First(Merge(First(a, ka), First(b, kb)), limit) == First(Merge(a, b), limit)
    decreases limit, |a| + |b|
  {
    if limit == 0 || (a == [] && b == []) {
      NoneOfFirst(a, b, limit, ka, kb);
    } else if b == [] || (a != [] && (a[0] == b[0] || Newer(a[0], b[0]))) {
      MergeOfFirst(a[1..], b, limit - 1, ka - 1, kb);
      FirstTaken(a, b, limit, ka, kb);
    } else {
      MergeOfFirst(a, b[1..], limit - 1, ka, kb - 1);
      SecondTaken(a, b, limit, ka, kb);
    }
  }

  lemma FirstTaken(a: seq<Log>, b: seq<Log>, limit: nat, ka: nat, kb: nat)
    requires 0 < limit <= ka && limit <= kb && a != [] && (b == [] || a[0] == b[0] || Newer(a[0], b[0]))
    requires First(Merge(First(a[1..], ka - 1), First(b, kb)), limit - 1) == First(Merge(a[1..], b), limit - 1)
    ensures First(Merge(First(a, ka), First(b, kb)), limit) == First(Merge(a, b), limit)
  {
    TakesFirstOfFirst(a, b, limit, ka, kb);
  }

  lemma SecondTaken(a: seq<Log>, b: seq<Log>, limit: nat, ka: nat, kb: nat)
    requires 0 < limit <= ka && limit <= kb && b != [] && (a == [] || !(a[0] == b[0] || Newer(a[0], b[0])))
    requires First(Merge(First(a, ka), First(b[1..], kb - 1)), limit - 1) == First(Merge(a, b[1..]), limit - 1)
    ensures First(Merge(First(a, ka), First(b, kb)), limit) == First(Merge(a, b), limit)
  {
    TakesSecondOfFirst(a, b, limit, ka, kb);
  }

  lemma NoneOfFirst(a: seq<Log>, b: seq<Log>, limit: nat, ka: nat, kb: nat)
    requires limit == 0 || (a == [] && b == [])
    ensures First(Merge(First(a, ka), First(b, kb)), limit) == First(Merge(a, b), limit)
  {
  }

  lemma TakesFirstOfFirst(a: seq<Log>, b: seq<Log>, limit: nat, ka: nat, kb: nat)
    requires 0 < limit <= ka && limit <= kb && a != [] && (b == [] || a[0] == b[0] || Newer(a[0], b[0]))
    ensures First(Merge(First(a, ka), First(b, kb)), limit)
         == [a[0]] + First(Merge(First(a[1..], ka - 1), First(b, kb)), limit - 1)
    ensures First(Merge(a, b), limit) == [a[0]] + First(Merge(a[1..], b), limit - 1)
  {
    TakesFirst(a, b, limit);
    FirstUnfolds(a, ka);
    FirstUnfolds(b, kb);
    TakesFirst(First(a, ka), First(b, kb), limit);
  }

  lemma TakesSecondOfFirst(a: seq<Log>, b: seq<Log>, limit: nat, ka: nat, kb: nat)
    requires 0 < limit <= ka && limit <= kb && b != [] && (a == [] || !(a[0] == b[0] || Newer(a[0], b[0])))
    ensures First(Merge(First(a, ka), First(b, kb)), limit)
         == [b[0]] + First(Merge(First(a, ka), First(b[1..], kb - 1)), limit - 1)
    ensures First(Merge(a, b), limit) == [b[0]] + First(Merge(a, b[1..]), limit - 1)
  {
    TakesSecond(a, b, limit);
    FirstUnfolds(a, ka);
    FirstUnfolds(b, kb);
    TakesSecond(First(a, ka), First(b, kb), limit);
  }

  lemma TakesFirst(a: seq<Log>, b: seq<Log>, limit: nat)
    requires limit > 0 && a != [] && (b == [] || a[0] == b[0] || Newer(a[0], b[0]))
    ensures First(Merge(a, b), limit) == [a[0]] + First(Merge(a[1..], b), limit - 1)
  {
    FirstOfFront(a[0], Merge(a[1..], b), limit);
  }

  lemma TakesSecond(a: seq<Log>, b: seq<Log>, limit: nat)
    requires limit > 0 && b != [] && (a == [] || !(a[0] == b[0] || Newer(a[0], b[0])))
    ensures First(Merge(a, b), limit) == [b[0]] + First(Merge(a, b[1..]), limit - 1)
  {
    FirstOfFront(b[0], Merge(a, b[1..]), limit);
  }

  lemma FirstUnfolds(logs: seq<Log>, limit: nat)
    requires limit > 0
    ensures First(logs, limit) == [] <==> logs == []
    ensures logs != [] ==> First(logs, limit)[0] == logs[0] && First(logs, limit)[1..] == First(logs[1..], limit - 1)
  {
  }

  lemma FirstOfFront(x: Log, rest: seq<Log>, limit: nat)
    requires limit > 0
    ensures First([x] + rest, limit) == [x] + First(rest, limit - 1)
  {
  }

  // The Logs of a span of time that follow a position.

  predicate Follows(after: Option<Position>, x: Log) {
    after.Some? ==> x.time < after.value.time || (x.time == after.value.time && x.id < after.value.id)
  }

  function Span(logs: seq<Log>, from: int, to: int, after: Option<Position>): seq<Log> {
    if logs == [] then []
    else
      var rest := Span(logs[1..], from, to, after);
      if from <= logs[0].time < to && Follows(after, logs[0]) then [logs[0]] + rest else rest
  }

  lemma {:induction false} SpanIn(logs: seq<Log>, from: int, to: int, after: Option<Position>)
    ensures forall x :: x in Span(logs, from, to, after) <==> x in logs && from <= x.time < to && Follows(after, x)
  {
    if logs != [] {
      SpanIn(logs[1..], from, to, after);
      assert logs == [logs[0]] + logs[1..];
    }
  }

  lemma {:induction false} SpanSorted(logs: seq<Log>, from: int, to: int, after: Option<Position>)
    requires Sorted(logs)
    ensures Sorted(Span(logs, from, to, after))
  {
    if logs != [] {
      SortedTail(logs);
      SpanSorted(logs[1..], from, to, after);
      SpanIn(logs[1..], from, to, after);
      SortedWithFront(logs[0], Span(logs[1..], from, to, after));
    }
  }

  lemma {:induction false} EmptySpan(logs: seq<Log>, from: int, to: int, after: Option<Position>)
    requires forall x :: x in logs ==> !(from <= x.time < to)
    ensures Span(logs, from, to, after) == []
  {
    if logs != [] {
      assert logs[0] in logs;
      assert forall x :: x in logs[1..] ==> x in logs;
      EmptySpan(logs[1..], from, to, after);
    }
  }

  /** A span newest first is its later part, then its earlier. */
  lemma {:induction false} SpanInTwo(logs: seq<Log>, from: int, mid: int, to: int, after: Option<Position>)
    requires Sorted(logs) && from <= mid <= to
    ensures Span(logs, from, to, after) == Span(logs, mid, to, after) + Span(logs, from, mid, after)
  {
    if logs != [] {
      SortedTail(logs);
      SpanInTwo(logs[1..], from, mid, to, after);
      if logs[0].time < mid {
        EmptySpan(logs[1..], mid, to, after);
      }
    }
  }

  /** A span of merged lists is the merge of their spans. */
  lemma {:induction false} SpanOfMerge(a: seq<Log>, b: seq<Log>, from: int, to: int, after: Option<Position>)
    requires Sorted(a) && Sorted(b)
    ensures Span(Merge(a, b), from, to, after) == Merge(Span(a, from, to, after), Span(b, from, to, after))
  {
    if a != [] || b != [] {
      var sa, sb := Span(a, from, to, after), Span(b, from, to, after);
      SpanIn(a, from, to, after);
      SpanIn(b, from, to, after);
      if b == [] || (a != [] && (a[0] == b[0] || Newer(a[0], b[0]))) {
        SortedTail(a);
        SpanOfMerge(a[1..], b, from, to, after);
        assert Merge(a, b)[0] == a[0] && Merge(a, b)[1..] == Merge(a[1..], b);
        assert sb == [] || sb[0] in b;
        NotNewer(a[0], b);
      } else {
        SortedTail(b);
        SpanOfMerge(a, b[1..], from, to, after);
        assert Merge(a, b)[0] == b[0] && Merge(a, b)[1..] == Merge(a, b[1..]);
        assert sa == [] || sa[0] in a;
        if a != [] {
          HeadIsNewest(b[0], a);
        }
      }
    }
  }

  lemma NotNewer(x: Log, logs: seq<Log>)
    requires Sorted(logs) && (logs != [] ==> x == logs[0] || Newer(x, logs[0]))
    ensures forall y :: y in logs ==> x == y || Newer(x, y)
  {
  }

  /** What follows one of a sorted list's Logs is the rest of the list. */
  lemma {:induction false} AfterPrefix(logs: seq<Log>, n: nat, from: int, to: int)
    requires Sorted(logs) && 0 < n <= |logs|
    requires forall x :: x in logs ==> from <= x.time < to
    ensures Span(logs, from, to, Some(Position(logs[n - 1].time, logs[n - 1].id))) == logs[n..]
  {
    var p := Some(Position(logs[n - 1].time, logs[n - 1].id));
    assert logs[0] in logs;
    SortedTail(logs);
    assert forall x :: x in logs[1..] ==> x in logs;
    if n == 1 {
      WholeSpan(logs[1..], from, to, p);
    } else {
      AfterPrefix(logs[1..], n - 1, from, to);
      assert logs[1..][n - 2] == logs[n - 1] && logs[1..][n - 1..] == logs[n..];
    }
  }

  lemma {:induction false} WholeSpan(logs: seq<Log>, from: int, to: int, after: Option<Position>)
    requires forall x :: x in logs ==> from <= x.time < to && Follows(after, x)
    ensures Span(logs, from, to, after) == logs
  {
    if logs != [] {
      assert logs[0] in logs;
      assert forall x :: x in logs[1..] ==> x in logs;
      WholeSpan(logs[1..], from, to, after);
    }
  }

  /** Spans read one within another. */
  lemma {:induction false} SpanOfSpan(logs: seq<Log>, from: int, to: int, after: Option<Position>, later: Position)
    requires forall x :: Follows(Some(later), x) && x.time >= from ==> Follows(after, x)
    ensures Span(Span(logs, from, to, after), from, to, Some(later)) == Span(logs, from, to, Some(later))
  {
    if logs != [] {
      SpanOfSpan(logs[1..], from, to, after, later);
      var x, rest := logs[0], Span(logs[1..], from, to, after);
      if from <= x.time < to && Follows(after, x) {
        assert ([x] + rest)[0] == x && ([x] + rest)[1..] == rest;
      }
    }
  }

  /** Spans that keep the same of a list's Logs are the same. */
  lemma {:induction false} SameSpan(logs: seq<Log>, from: int, to: int, after: Option<Position>,
                                    from': int, to': int, after': Option<Position>)
    requires forall x :: x in logs ==>
               ((from <= x.time < to && Follows(after, x)) <==> (from' <= x.time < to' && Follows(after', x)))
    ensures Span(logs, from, to, after) == Span(logs, from', to', after')
  {
    if logs != [] {
      assert logs[0] in logs;
      assert forall x :: x in logs[1..] ==> x in logs;
      SameSpan(logs[1..], from, to, after, from', to', after');
    }
  }
}

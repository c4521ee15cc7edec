/** Paging newest first (storage/logs_clickhouse_read.go ScanLogs, handler/logs.go Query), over a store
    that doesn't change: two sources' Logs that meet the condition, logs and the old Log files', and for
    each a span of time that covers its Logs in range. Times are microseconds since 1970. */
module Paging {
  import opened Basics
  import opened NewestFirst

  const MAX_SCAN_SPAN: int := 24 * HOUR

  /** The times a Log can be stored at: from 1970 to June 2149. */
  const FIRST_STORABLE: int := 0
  const END_OF_STORABLE: int := 5_661_792_000_000_000

  datatype Page = Page(logs: seq<Log>, next: Option<Position>)

  datatype Bounds = Bounds(oldest: int, newest: int)

  /** What a source says of its Logs in [from, to): nothing, only if it has none there, or two times
      that hold between them all it has there. */
  ghost predicate Covers(bounds: Option<Bounds>, logs: seq<Log>, from: int, to: int) {
    && (bounds.None? ==> forall x :: x in logs ==> !(from <= x.time < to))
    && (bounds.Some? ==> forall x :: x in logs && from <= x.time < to ==>
          bounds.value.oldest <= x.time <= bounds.value.newest)
  }

  /** timeSpan, or the old files' span. Scans rely on no more than what it ensures. */
  method TimeSpan(logs: seq<Log>, from: int, to: int) returns (bounds: Option<Bounds>)
    ensures Covers(bounds, logs, from, to)
  {
    bounds := None;
    for i := 0 to |logs|
      invariant bounds.None? ==> forall x :: x in logs[..i] ==> !(from <= x.time < to)
      invariant bounds.Some? ==> forall x :: x in logs[..i] && from <= x.time < to ==>
                  bounds.value.oldest <= x.time <= bounds.value.newest
    {
      assert logs[..i + 1] == logs[..i] + [logs[i]];
      var t := logs[i].time;
      if bounds.None? {
        bounds := Some(Bounds(t, t));
      } else {
        bounds := Some(Bounds(Earliest(bounds.value.oldest, t), Latest(bounds.value.newest, t)));
      }
    }
    assert logs[..|logs|] == logs;
  }

  /** Both sources, newest first and apart; each Log at a time it can be stored at, none with the nil
      id. */
  datatype Store = Store(logs: seq<Log>, files: seq<Log>)
  {
    ghost predicate Valid() {
      && Sorted(logs) && Sorted(files) && Apart(logs, files)
      && forall x :: x in logs || x in files ==> FIRST_STORABLE <= x.time < END_OF_STORABLE && x.id > 0
    }

    /** The Logs of [from, to) that follow a position, newest first. */
    function Asked(from: int, to: int, after: Option<Position>): seq<Log> {
      Span(Merge(logs, files), from, to, after)
    }
  }

  lemma StoreSorted(s: Store, from: int, to: int, after: Option<Position>)
    requires s.Valid()
    ensures Sorted(Merge(s.logs, s.files)) && Sorted(s.Asked(from, to, after))
    ensures forall x :: x in Merge(s.logs, s.files) <==> x in s.logs || x in s.files
    ensures forall x :: x in s.Asked(from, to, after) <==>
              (x in s.logs || x in s.files) && from <= x.time < to && Follows(after, x)
  {
    MergeSorted(s.logs, s.files);
    MergedIn(s.logs, s.files);
    SpanSorted(Merge(s.logs, s.files), from, to, after);
    SpanIn(Merge(s.logs, s.files), from, to, after);
  }

  /** The position a query's conditions keep to: a nil id's time bounds the range instead. */
  function IdCondition(after: Option<Position>): Option<Position> {
    if after.Some? && after.value.id == 0 then None else after
  }

  /** The range a scan reads, clipped to the times that can be stored and to its position. */
  function Clipped(from: int, to: int, after: Option<Position>): (r: (int, int))
    ensures r.0 >= from && r.1 <= to
  {
    var (lo, hi) := (Latest(from, FIRST_STORABLE), Earliest(to, END_OF_STORABLE));
    if after.Some? && after.value.time < hi then
      (lo, Earliest(if after.value.id == 0 then after.value.time else after.value.time + 1, hi))
    else (lo, hi)
  }

  /** Clipping loses no Log asked for. */
  lemma ClippedAsks(s: Store, from: int, to: int, after: Option<Position>)
    requires s.Valid()
    ensures var (lo, hi) := Clipped(from, to, after);
            s.Asked(lo, hi, IdCondition(after)) == s.Asked(from, to, after)
  {
    var (lo, hi) := Clipped(from, to, after);
    MergedIn(s.logs, s.files);
    SameSpan(Merge(s.logs, s.files), lo, hi, IdCondition(after), from, to, after);
  }

  /** So do bounds that cover both sources. */
  lemma CoveredAsks(s: Store, a: Option<Bounds>, b: Option<Bounds>, from: int, to: int, after: Option<Position>)
    requires s.Valid() && Covers(a, s.logs, from, to) && Covers(b, s.files, from, to)
    ensures a.None? && b.None? ==> s.Asked(from, to, after) == []
    ensures (a.Some? || b.Some?) ==>
              var oldest := if a.None? then b.value.oldest else if b.None? then a.value.oldest
                            else Earliest(a.value.oldest, b.value.oldest);
              var newest := if a.None? then b.value.newest else if b.None? then a.value.newest
                            else Latest(a.value.newest, b.value.newest);
              s.Asked(Latest(from, oldest), Earliest(to, newest + 1), after) == s.Asked(from, to, after)
  {
    MergedIn(s.logs, s.files);
    var all := Merge(s.logs, s.files);
    if a.None? && b.None? {
      EmptySpan(all, from, to, after);
    } else {
      var oldest := if a.None? then b.value.oldest else if b.None? then a.value.oldest
                    else Earliest(a.value.oldest, b.value.oldest);
      var newest := if a.None? then b.value.newest else if b.None? then a.value.newest
                    else Latest(a.value.newest, b.value.newest);
      SameSpan(all, Latest(from, oldest), Earliest(to, newest + 1), after, from, to, after);
    }
  }

  /** A query of each source, limited, merged and limited again gives the newest asked for. */
  lemma QueriesMerged(s: Store, from: int, to: int, after: Option<Position>, limit: nat)
    requires s.Valid()
    ensures First(Merge(First(Span(s.logs, from, to, after), limit), First(Span(s.files, from, to, after), limit)),
        limit)
         == First(s.Asked(from, to, after), limit)
  {
    MergeOfFirst(Span(s.logs, from, to, after), Span(s.files, from, to, after), limit, limit, limit);
    SpanOfMerge(s.logs, s.files, from, to, after);
  }

  /** What a page leaves to the pages after it. */
  function Left(s: Store, from: int, to: int, next: Option<Position>): seq<Log> {
    if next.None? then [] else s.Asked(from, to, next)
  }

  /** A page cut at its limit goes on at its last Log. */
  lemma CutPage(s: Store, from: int, to: int, after: Option<Position>, n: nat)
    requires s.Valid()
    requires 0 < n <= |s.Asked(from, to, after)|
    ensures var asked := s.Asked(from, to, after);
            var next := Position(asked[n - 1].time, asked[n - 1].id);
            asked == asked[..n] + s.Asked(from, to, Some(next))
  {
    var asked := s.Asked(from, to, after);
    var next := Position(asked[n - 1].time, asked[n - 1].id);
    LastAsked(s, from, to, after, n);
    AfterPrefix(asked, n, from, to);
    SpanOfSpan(Merge(s.logs, s.files), from, to, after, next);
  }

  lemma LastAsked(s: Store, from: int, to: int, after: Option<Position>, n: nat)
    requires s.Valid()
    requires 0 < n <= |s.Asked(from, to, after)|
    ensures var asked := s.Asked(from, to, after);
            && Sorted(asked) && (forall x :: x in asked ==> from <= x.time < to)
            && Follows(after, asked[n - 1])
  {
    StoreSorted(s, from, to, after);
    assert s.Asked(from, to, after)[n - 1] in s.Asked(from, to, after);
  }

  /** A page stopped on its budget goes on before the span it read last. */
  lemma StoppedPage(s: Store, from: int, to: int, after: Option<Position>, logs: seq<Log>, limit: nat, at: int)
    requires from < at < to && |logs| < limit
    requires after.Some? ==> at <= after.value.time
    requires s.Asked(from, to, after) == logs + s.Asked(from, at, after)
    ensures PageOf(s, from, to, after, limit, true, Page(logs, Some(Position(at, 0))))
  {
    SameSpan(Merge(s.logs, s.files), from, at, after, from, to, Some(Position(at, 0)));
  }

  /** Where the span before spanTo starts: at the hour of its last moment, or span before. */
  function SpanStart(from: int, spanTo: int, span: int): (start: int)
    requires from < spanTo && (span == 0 || span >= HOUR)
    ensures from <= start < spanTo
  {
    Latest(if span > 0 then spanTo - span else (spanTo - 1) / HOUR * HOUR, from)
  }

  /** A page holds the first of the Logs asked for, and says where the others go on. */
  ghost predicate PageOf(s: Store, from: int, to: int, condition: Option<Position>, limit: nat, budget: bool,
                         page: Page) {
    && |page.logs| <= limit
    && s.Asked(from, to, condition) == page.logs + Left(s, from, to, page.next)
    && (page.next.Some? ==> from <= page.next.value.time < to)
    && (page.next.Some? && page.next.value.id > 0 ==> |page.logs| == limit && Last(page.logs, page.next.value))
    && (!budget && page.next.Some? ==> |page.logs| == limit)
  }

  /** What a scan reads, once its range is clipped: spans of time, newest first, of the Logs left. */
  method ScanSpans(s: Store, from: int, to: int, condition: Option<Position>, limit: nat, budget: bool)
      returns (page: Page)
    requires s.Valid() && limit > 0
    requires condition.Some? ==> to <= condition.value.time + 1
    ensures PageOf(s, from, to, condition, limit, budget, page)
  {
    var logs: seq<Log> := [];
    var span := 0;
    var spanTo := to;
    while spanTo > from
      invariant spanTo <= to && (span == 0 || span >= HOUR) && span <= MAX_SCAN_SPAN
      invariant |logs| < limit
      invariant s.Asked(from, to, condition) == logs + s.Asked(from, spanTo, condition)
      decreases if spanTo > from then spanTo - from else 0
    {
      var spanFrom := SpanStart(from, spanTo, span);
      span := Earliest(Latest(2 * span, HOUR), MAX_SCAN_SPAN);
      var merged := QuerySpan(s, spanFrom, spanTo, condition, limit - |logs|);
      SpanRead(s, from, spanFrom, spanTo, to, condition, logs, limit, budget);
      logs := logs + merged;
      if |logs| >= limit {
        var last := logs[|logs| - 1];
        return Page(logs, Some(Position(last.time, last.id)));
      }
      var overBudget: bool := *;
      if budget && overBudget && spanFrom > from {
        StoppedPage(s, from, to, condition, logs, limit, spanFrom);
        return Page(logs, Some(Position(spanFrom, 0)));
      }
      spanTo := spanFrom;
    }
    DonePage(s, from, to, condition, logs, limit, budget, spanTo);
    return Page(logs, None);
  }

  /** With no time left to read, a page has all the Logs. */
  lemma DonePage(s: Store, from: int, to: int, condition: Option<Position>, logs: seq<Log>, limit: nat, budget: bool,
                 at: int)
    requires at <= from && |logs| <= limit
    requires s.Asked(from, to, condition) == logs + s.Asked(from, at, condition)
    ensures PageOf(s, from, to, condition, limit, budget, Page(logs, None))
  {
    EmptySpan(Merge(s.logs, s.files), from, at, condition);
    assert s.Asked(from, to, condition) == logs + [];
  }

  ghost predicate Last(logs: seq<Log>, p: Position) {
    logs != [] && logs[|logs| - 1] == Log(p.time, p.id)
  }

  /** Both sources' newest Logs of a span. */
  method QuerySpan(s: Store, from: int, to: int, condition: Option<Position>, limit: nat) returns (merged: seq<Log>)
    requires s.Valid()
    ensures merged == First(s.Asked(from, to, condition), limit)
  {
    var found := First(Span(s.logs, from, to, condition), limit);
    var inFiles := First(Span(s.files, from, to, condition), limit);
    merged := MergeNewestFirst(found, inFiles, limit);
    QueriesMerged(s, from, to, condition, limit);
  }

  /** With a span read after the Logs before it, either the page is full and goes on at its last Log, or
      what is left to read is what is before the span. */
  lemma SpanRead(s: Store, from: int, spanFrom: int, spanTo: int, to: int, condition: Option<Position>,
                 before: seq<Log>, limit: nat, budget: bool)
    requires s.Valid() && from <= spanFrom <= spanTo && |before| < limit
    requires s.Asked(from, to, condition) == before + s.Asked(from, spanTo, condition)
    ensures var logs := before + First(s.Asked(spanFrom, spanTo, condition), limit - |before|);
            if |logs| < limit then s.Asked(from, to, condition) == logs + s.Asked(from, spanFrom, condition)
            else
              && |logs| > 0
              && PageOf(s, from, to, condition, limit, budget,
                        Page(logs, Some(Position(logs[|logs| - 1].time, logs[|logs| - 1].id))))
  {
    var read, rest := s.Asked(spanFrom, spanTo, condition), s.Asked(from, spanFrom, condition);
    MergeSorted(s.logs, s.files);
    SpanInTwo(Merge(s.logs, s.files), from, spanFrom, spanTo, condition);
    assert s.Asked(from, to, condition) == before + (read + rest);
    if |before| + |read| >= limit {
      FullPage(s, from, to, condition, before, read, rest, limit);
    } else {
      assert before + (read + rest) == before + read + rest;
    }
  }

  lemma FullPage(s: Store, from: int, to: int, condition: Option<Position>, before: seq<Log>, read: seq<Log>,
                 rest: seq<Log>, limit: nat)
    requires s.Valid() && s.Asked(from, to, condition) == before + (read + rest)
    requires |before| < limit <= |before| + |read|
    ensures var logs := before + First(read, limit - |before|);
            var next := Position(logs[|logs| - 1].time, logs[|logs| - 1].id);
            && |logs| == limit
            && s.Asked(from, to, condition) == logs + s.Asked(from, to, Some(next))
            && from <= next.time < to && next.id > 0
  {
    var asked := s.Asked(from, to, condition);
    var logs := before + First(read, limit - |before|);
    assert logs == asked[..limit];
    StoreSorted(s, from, to, condition);
    assert asked[limit - 1] == logs[limit - 1] && asked[limit - 1] in asked;
    CutPage(s, from, to, condition, limit);
  }

  /** ScanLogs: of the Logs asked for, the first, and where the others go on. */
  method ScanLogs(s: Store, from: int, to: int, after: Option<Position>, limit: int, budget: bool) returns (page: Page)
    requires s.Valid()
    ensures limit <= 0 ==> page == Page([], None)
    ensures limit > 0 ==>
              && |page.logs| <= limit
              && s.Asked(from, to, after) == page.logs + Left(s, from, to, page.next)
              && (page.next.Some? && !budget ==> |page.logs| == limit)
              && (page.next.Some? ==> GoesOn(from, to, after, page.next.value))
  {
    var (lo, hi) := Clipped(from, to, after);
    if lo >= hi || limit <= 0 {
      if limit > 0 {
        ClippedAsks(s, from, to, after);
        EmptySpan(Merge(s.logs, s.files), lo, hi, IdCondition(after));
      }
      return Page([], None);
    }
    var a := TimeSpan(s.logs, lo, hi);
    var b := TimeSpan(s.files, lo, hi);
    ClippedAsks(s, from, to, after);
    CoveredAsks(s, a, b, lo, hi, IdCondition(after));
    if a.None? && b.None? {
      return Page([], None);
    }
    var oldest := if a.None? then b.value.oldest else if b.None? then a.value.oldest
                  else Earliest(a.value.oldest, b.value.oldest);
    var newest := if a.None? then b.value.newest else if b.None? then a.value.newest
                  else Latest(a.value.newest, b.value.newest);
    var first, end := Latest(lo, oldest), Earliest(hi, newest + 1);
    page := ScanSpans(s, first, end, IdCondition(after), limit, budget);
    GoesOnUnclipped(s, from, to, after, first, end, limit, budget, page);
  }

  /** A page of a clipped range is one of the range asked for. */
  lemma GoesOnUnclipped(s: Store, from: int, to: int, after: Option<Position>, first: int, end: int, limit: nat,
                        budget: bool, page: Page)
    requires s.Valid() && from <= first && end <= Clipped(from, to, after).1
    requires s.Asked(first, end, IdCondition(after)) == s.Asked(from, to, after)
    requires PageOf(s, first, end, IdCondition(after), limit, budget, page)
    ensures s.Asked(from, to, after) == page.logs + Left(s, from, to, page.next)
    ensures page.next.Some? ==> GoesOn(from, to, after, page.next.value)
  {
    if page.next.Some? {
      var next := page.next.value;
      ClippedBefore(from, to, after);
      if next.id > 0 {
        LastFollows(s, from, to, after, page.logs, s.Asked(first, end, Some(next)), next);
      }
      LeftIsLeft(s, from, to, after, first, end, next);
    }
  }

  lemma LastFollows(s: Store, from: int, to: int, after: Option<Position>, logs: seq<Log>, rest: seq<Log>, p: Position)
    requires s.Valid() && s.Asked(from, to, after) == logs + rest && Last(logs, p)
    ensures Follows(after, Log(p.time, p.id))
  {
    StoreSorted(s, from, to, after);
    assert s.Asked(from, to, after)[|logs| - 1] == Log(p.time, p.id);
    assert Log(p.time, p.id) in s.Asked(from, to, after);
  }

  lemma ClippedBefore(from: int, to: int, after: Option<Position>)
    ensures after.Some? ==> Clipped(from, to, after).1 <= after.value.time + (if after.value.id == 0 then 0 else 1)
  {
  }

  /** What a clipped range leaves after a position is what the whole range does. */
  lemma LeftIsLeft(s: Store, from: int, to: int, after: Option<Position>, first: int, end: int, next: Position)
    requires s.Valid() && from <= first && end <= to
    requires s.Asked(first, end, IdCondition(after)) == s.Asked(from, to, after)
    requires GoesOn(from, to, after, next)
    ensures s.Asked(first, end, Some(next)) == s.Asked(from, to, Some(next))
  {
    var all := Merge(s.logs, s.files);
    SpanIn(all, first, end, IdCondition(after));
    SpanIn(all, from, to, after);
    forall x | x in all
      ensures (first <= x.time < end && Follows(Some(next), x)) <==> (from <= x.time < to && Follows(Some(next), x))
    {
      if from <= x.time < to && Follows(Some(next), x) {
        assert x in s.Asked(from, to, after);
        assert x in s.Asked(first, end, IdCondition(after));
      }
    }
    SameSpan(all, first, end, Some(next), from, to, Some(next));
  }

  /** The next page's position is in the range and before this page's. */
  ghost predicate GoesOn(from: int, to: int, after: Option<Position>, next: Position) {
    && from <= next.time <= to
    && (after.Some? ==> next.time < after.value.time || (next.time == after.value.time && next.id < after.value.id))
  }

  // The pages of a Query, with or without a take.

  /** Where a page goes on, with how many Logs a take has left to give, or -1 for no take. */
  datatype Cursor = Cursor(at: Position, left: int)

  datatype Answer = Answer(logs: seq<Log>, next: Option<Cursor>)

  function LeftAt(take: Option<nat>, cursor: Option<Cursor>): (left: int) {
    var given := if cursor.Some? then cursor.value.left else -1;
    if take.Some? && (cursor.None? || given < 0) then take.value else given
  }

  /** The Logs a cursor, or none, still asks for. */
  function Wanted(s: Store, from: int, to: int, take: Option<nat>, cursor: Option<Cursor>): seq<Log> {
    var asked := s.Asked(from, to, if cursor.Some? then Some(cursor.value.at) else None);
    var left := LeftAt(take, cursor);
    if left < 0 then asked else First(asked, left)
  }

  /** Query's pages of Logs, with the request's limit. */
  method Query(s: Store, from: int, to: int, take: Option<nat>, cursor: Option<Cursor>, requested: nat, budget: bool)
    returns (answer: Answer)
    requires s.Valid() && requested > 0
    ensures |answer.logs| <= requested
    ensures Wanted(s, from, to, take, cursor)
         == answer.logs + (if answer.next.Some? then Wanted(s, from, to, take, answer.next) else [])
    ensures answer.next.Some? ==>
              GoesOn(from, to, if cursor.Some? then Some(cursor.value.at) else None, answer.next.value.at)
    ensures answer.next.Some? && take.Some? ==> answer.next.value.left > 0
  {
    var after, left, limit: int := None, -1, requested;
    if cursor.Some? {
      after, left := Some(cursor.value.at), cursor.value.left;
    }
    if take.Some? && (cursor.None? || left < 0) {
      left := take.value;
    }
    if left >= 0 {
      limit := Earliest(limit, left);
    }
    var page := ScanLogs(s, from, to, after, limit, budget);
    ghost var given := left;
    if left >= 0 {
      left := left - |page.logs|;
    }
    if page.next.Some? && left != 0 {
      answer := Answer(page.logs, Some(Cursor(page.next.value, left)));
    } else {
      answer := Answer(page.logs, None);
    }
    if limit > 0 {
      FirstLeft(page.logs, Left(s, from, to, page.next), given);
    }
  }

  lemma FirstLeft(logs: seq<Log>, rest: seq<Log>, left: int)
    requires left < 0 || |logs| <= left
    ensures left >= 0 ==> First(logs + rest, left) == logs + First(rest, left - |logs|)
    ensures logs + [] == logs
  {
  }

  /** Following next until there is none ends, whatever the pages' limits and however they stop on their
      budget, and gives the Logs asked for, each once, newest first: all of them, or the first take. */
  method FollowPages(s: Store, from: int, to: int, take: Option<nat>) returns (logs: seq<Log>)
    requires s.Valid()
    ensures logs == if take.Some? then First(s.Asked(from, to, None), take.value) else s.Asked(from, to, None)
    ensures Sorted(logs)
  {
    var requested: nat, budget: bool := *, *;
    var answer := Query(s, from, to, take, None, if requested == 0 then 1 else requested, budget);
    logs := answer.logs;
    while answer.next.Some?
      invariant Wanted(s, from, to, take, None)
             == logs + (if answer.next.Some? then Wanted(s, from, to, take, answer.next) else [])
      invariant answer.next.Some? ==> answer.next.value.at.time >= from
      decreases answer.next.Some?,
                if answer.next.Some? then answer.next.value.at.time - from else 0,
                if answer.next.Some? then answer.next.value.at.id else 0
    {
      requested, budget := *, *;
      ghost var before, rest := logs, Wanted(s, from, to, take, answer.next);
      answer := Query(s, from, to, take, answer.next, if requested == 0 then 1 else requested, budget);
      JoinPages(before, answer.logs, if answer.next.Some? then Wanted(s, from, to, take, answer.next) else []);
      logs := logs + answer.logs;
    }
    StoreSorted(s, from, to, None);
  }

  lemma JoinPages(before: seq<Log>, page: seq<Log>, rest: seq<Log>)
    ensures before + (page + rest) == before + page + rest
  {
  }

  /** What the pages give is each Log of either source in the range, once. */
  lemma AskedIsEveryLog(s: Store, from: int, to: int, x: Log)
    requires s.Valid()
    ensures x in s.Asked(from, to, None) <==> (x in s.logs || x in s.files) && from <= x.time < to
    ensures multiset(s.Asked(from, to, None))[x] <= 1
  {
    StoreSorted(s, from, to, None);
    OnceEach(s.Asked(from, to, None), x);
  }

  lemma {:induction false} OnceEach(logs: seq<Log>, x: Log)
    requires Sorted(logs)
    ensures multiset(logs)[x] <= 1
  {
    if logs != [] {
      SortedTail(logs);
      OnceEach(logs[1..], x);
      assert logs == [logs[0]] + logs[1..];
      if logs[0] == x {
        assert x !in logs[1..];
      }
    }
  }
}

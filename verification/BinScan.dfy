/** A table made bin by bin (storage/logs_clickhouse_table.go scanBinnedTable), over the Logs of one
    moment. table gives the rows of one bin from its Logs; a query over spans gives those of each bin
    from its Logs in the spans, in order of the bins, and stops at its limit. */
module BinScan {
  import opened Basics
  import opened BinGenerations
  import opened BinCacheLru

  /** A row of the table: its first column, its bin's start, and the others. */
  datatype Row = Row(bin: int, columns: seq<int>)

  datatype Span = Span(from: int, to: int)

  datatype TimeBin = TimeBin(start: int, end: int, key: Key, rows: seq<Row>, hit: bool)

  datatype TableScan = TableScan(query: nat, size: nat, limit: nat, now: int)

  type Table = (int, set<Log>) -> seq<Row>

  const MAX_CACHED_BINS := 20_000

  /** What logquery's Bins promises of a table made bin by bin. */
  ghost predicate BinByBin(table: Table) {
    && (forall start :: table(start, {}) == [])
    && (forall start, logs, row :: row in table(start, logs) ==> row.bin == start)
  }

  /** The time is in one of the spans. */
  predicate InSpans(spans: seq<Span>, time: int) {
    exists s :: s in spans && s.from <= time < s.to
  }

  function LogsIn(logs: set<Log>, spans: seq<Span>, start: int, size: nat): set<Log> {
    set l | l in logs && start <= l.time < start + size && InSpans(spans, l.time)
  }

  /** The rows of the bin at start, of its Logs in the spans. */
  function BinRows(table: Table, logs: set<Log>, spans: seq<Span>, size: nat, start: int): seq<Row> {
    table(start, LogsIn(logs, spans, start, size))
  }

  /** The rows of the bins from at up to to, of the Logs in the spans. */
  function RowsOver(table: Table, logs: set<Log>, spans: seq<Span>, size: nat, at: int, to: int): seq<Row>
    requires size > 0
    decreases if at < to then to - at else 0
  {
    if at >= to then []
    else BinRows(table, logs, spans, size, at) + RowsOver(table, logs, spans, size, at + size, to)
  }

  /** Division that truncates toward zero. */
  function Truncated(a: int, b: nat): int
    requires b > 0
  {
    if a >= 0 then a / b else -(-a / b)
  }

  function BinStart(time: int, size: nat): (start: int)
    requires size > 0
    ensures start <= time < start + size
    ensures exists n :: start == n * size
  {
    var start := Truncated(time, size) * size;
    assert start - size == (Truncated(time, size) - 1) * size;
    if start > time then start - size else start
  }

  /** What the query over the spans answers. */
  function Answer(table: Table, logs: set<Log>, scan: TableScan, spans: seq<Span>, from: int, to: int): seq<Row>
    requires scan.size > 0
  {
    First(RowsOver(table, logs, spans, scan.size, BinStart(from, scan.size), to), scan.limit)
  }

  /** Every hour the bin is in has ended. */
  predicate Ended(start: int, size: nat, now: int) {
    (HourOf(start + size - 1) + 1) * HOUR <= now
  }

  ghost predicate HourHas(hour: int, time: int) {
    hour * HOUR <= time < (hour + 1) * HOUR
  }

  /** The hour a time is in has ended. */
  ghost predicate HourEnded(time: int, now: int) {
    exists hour :: HourHas(hour, time) && (hour + 1) * HOUR <= now
  }

  /** Every hour a time of the bin is in has ended. */
  lemma EndedMeans(start: int, size: nat, now: int)
    requires size > 0
    ensures Ended(start, size, now) <==> forall t :: start <= t < start + size ==> HourEnded(t, now)
  {
    if Ended(start, size, now) {
      forall t | start <= t < start + size
        ensures HourEnded(t, now)
      {
        assert HourHas(HourOf(t), t);
      }
    } else if HourEnded(start + size - 1, now) {
      var hour :| HourHas(hour, start + size - 1) && (hour + 1) * HOUR <= now;
      HourOfIs(start + size - 1, hour);
    }
  }

  /** The first bin wholly at or after from. */
  function FirstWhole(from: int, size: nat): int
    requires size > 0
  {
    if BinStart(from, size) < from then BinStart(from, size) + size else BinStart(from, size)
  }

  /** The bins are one after another from start. */
  ghost predicate Consecutive(bins: seq<TimeBin>, start: int, size: nat) {
    && (bins != [] ==> bins[0].start == start)
    && (forall i :: 0 <= i < |bins| ==> bins[i].end == bins[i].start + size)
    && (forall i :: 0 < i < |bins| ==> bins[i].start == bins[i - 1].end)
  }

  /** The table so far: the rows of the query's before each cached bin, then the cached bin's. */
  function Merged(rows: seq<Row>, bins: seq<TimeBin>): seq<Row>
    decreases |bins|
  {
    if bins == [] then rows
    else if !bins[0].hit then Merged(rows, bins[1..])
    else
      var n := CountBefore(rows, bins[0].start);
      rows[..n] + bins[0].rows + Merged(rows[n..], bins[1..])
  }

  /** How many rows at the front are of bins before start. */
  function CountBefore(rows: seq<Row>, start: int): (n: nat)
    ensures n <= |rows|
    ensures forall i :: 0 <= i < n ==> rows[i].bin < start
    ensures n < |rows| ==> rows[n].bin >= start
  {
    if rows == [] || rows[0].bin >= start then 0 else 1 + CountBefore(rows[1..], start)
  }

  function RowsOf(rows: seq<Row>, start: int): seq<Row> {
    if rows == [] then []
    else
      var before := RowsOf(rows[..|rows| - 1], start);
      var last := rows[|rows| - 1];
      if last.bin == start then before + [last] else before
  }

  ghost predicate Sorted(rows: seq<Row>) {
    forall i, j :: 0 <= i < j < |rows| ==> rows[i].bin <= rows[j].bin
  }

  ghost predicate InHit(bins: seq<TimeBin>, time: int) {
    exists b :: b in bins && b.hit && b.start <= time < b.end
  }

  function LastSpan(spans: seq<Span>, at: int, to: int): seq<Span> {
    if at < to then spans + [Span(at, to)] else spans
  }

  lemma InSpansWithLast(spans: seq<Span>, at: int, to: int, time: int)
    ensures InSpans(LastSpan(spans, at, to), time) <==> InSpans(spans, time) || at <= time < to
  {
    if at <= time < to {
      assert Span(at, to) in LastSpan(spans, at, to);
    }
  }

  lemma InHitWithLast(bins: seq<TimeBin>, last: TimeBin, time: int)
    ensures InHit(bins + [last], time) <==> InHit(bins, time) || (last.hit && last.start <= time < last.end)
  {
    assert last in bins + [last];
  }

  lemma StartsAfter(bins: seq<TimeBin>, start: int, size: nat, i: nat)
    requires Consecutive(bins, start, size) && i < |bins|
    ensures bins[i].start >= start
    ensures forall j :: 0 <= j < i ==> bins[j].end <= bins[i].start
  {
    if i > 0 {
      StartsAfter(bins, start, size, i - 1);
    }
  }

  /** The spans are the times from one to before another that no cached one of the bins has. */
  ghost predicate SpansAre(spans: seq<Span>, from: int, at: int, bins: seq<TimeBin>) {
    forall t :: InSpans(spans, t) <==> from <= t < at && !InHit(bins, t)
  }

  ghost predicate HitsEnd(bins: seq<TimeBin>, at: int) {
    forall b :: b in bins && b.hit ==> b.end <= at
  }

  /** The spans up to a bin's end, or, for one that isn't cached, as far as they went. */
  lemma SpansPast(spans: seq<Span>, from: int, at: int, before: seq<TimeBin>, bin: TimeBin)
    requires from <= at <= bin.start <= bin.end
    requires HitsEnd(before, at) && SpansAre(spans, from, at, before)
    ensures bin.hit ==>
              HitsEnd(before + [bin], bin.end)
                && SpansAre(LastSpan(spans, at, bin.start), from, bin.end, before + [bin])
    ensures !bin.hit ==> HitsEnd(before + [bin], at) && SpansAre(spans, from, at, before + [bin])
  {
    forall t
      ensures bin.hit ==>
        (InSpans(LastSpan(spans, at, bin.start), t) <==> from <= t < bin.end && !InHit(before + [bin], t))
      ensures !bin.hit ==> (InHit(before + [bin], t) <==> InHit(before, t))
    {
      InSpansWithLast(spans, at, bin.start, t);
      InHitWithLast(before, bin, t);
    }
  }

  lemma SpansToEnd(spans: seq<Span>, from: int, at: int, to: int, bins: seq<TimeBin>)
    requires from <= at && (at == from || at <= to) && HitsEnd(bins, at) && SpansAre(spans, from, at, bins)
    ensures SpansAre(LastSpan(spans, at, to), from, to, bins)
  {
    forall t
      ensures InSpans(LastSpan(spans, at, to), t) <==> from <= t < to && !InHit(bins, t)
    {
      InSpansWithLast(spans, at, to, t);
    }
  }

  /** The spans between the cached bins: every time of [from, to) that is in none of them. */
  method SpansBetween(bins: seq<TimeBin>, ghost first: int, size: nat, from: int, to: int) returns (spans: seq<Span>)
    requires Consecutive(bins, first, size) && from <= first
    requires forall b :: b in bins ==> b.end <= to
    ensures forall t :: InSpans(spans, t) <==> from <= t < to && !InHit(bins, t)
  {
    spans := [];
    var at := from;
    for i := 0 to |bins|
      invariant from <= at
      invariant i < |bins| ==> at <= bins[i].start
      invariant at == from || at <= to
      invariant HitsEnd(bins[..i], at) && SpansAre(spans, from, at, bins[..i])
    {
      var bin := bins[i];
      SpansPast(spans, from, at, bins[..i], bin);
      assert bins[..i + 1] == bins[..i] + [bin] && bin in bins;
      if bin.hit {
        spans := LastSpan(spans, at, bin.start);
        at := bin.end;
      }
    }
    assert bins[..|bins|] == bins;
    SpansToEnd(spans, from, at, to, bins);
    spans := LastSpan(spans, at, to);
  }

  // Merging the cached bins' rows into the query's gives the rows of the whole range.

  lemma FirstOfBoth(a: seq<Row>, b: seq<Row>, limit: nat)
    ensures First(a + b, limit) == if |a| >= limit then First(a, limit) else a + First(b, limit - |a|)
  {
  }

  lemma FirstOfFirst(rows: seq<Row>, few: nat, limit: nat)
    requires few <= limit
    ensures First(First(rows, limit), few) == First(rows, few)
  {
  }

  lemma {:induction false} RowsFrom(table: Table, logs: set<Log>, spans: seq<Span>, size: nat, at: int, to: int)
    requires size > 0 && BinByBin(table)
    ensures Sorted(RowsOver(table, logs, spans, size, at, to))
    ensures forall row :: row in RowsOver(table, logs, spans, size, at, to) ==> at <= row.bin
    decreases if at < to then to - at else 0
  {
    if at < to {
      RowsFrom(table, logs, spans, size, at + size, to);
      assert forall row :: row in BinRows(table, logs, spans, size, at) ==> row.bin == at;
    }
  }

  lemma CountBeforeBoth(a: seq<Row>, b: seq<Row>, start: int)
    requires forall row :: row in a ==> row.bin < start
    ensures CountBefore(a + b, start) == |a| + CountBefore(b, start)
  {
    if a != [] {
      assert (a + b)[1..] == a[1..] + b;
      CountBeforeBoth(a[1..], b, start);
    } else {
      assert a + b == b;
    }
  }

  lemma SplitAfter(front: seq<Row>, rows: seq<Row>, n: nat)
    requires n <= |rows|
    ensures (front + rows)[..|front| + n] == front + rows[..n]
    ensures (front + rows)[|front| + n..] == rows[n..]
  {
  }

  lemma InFront(a: seq<Row>, b: seq<Row>, c: seq<Row>, d: seq<Row>)
    ensures a + b + c + d == a + (b + c + d)
  {
  }

  lemma MergedAfterHit(front: seq<Row>, rows: seq<Row>, bins: seq<TimeBin>)
    requires bins != [] && bins[0].hit
    requires forall row :: row in front ==> row.bin < bins[0].start
    ensures Merged(front + rows, bins) == front + Merged(rows, bins)
  {
    var n := CountBefore(rows, bins[0].start);
    CountBeforeBoth(front, rows, bins[0].start);
    MergedHit(front + rows, bins, |front| + n);
    MergedHit(rows, bins, n);
    SplitInFront(front, rows, n, bins[0].rows, Merged(rows[n..], bins[1..]));
    SplitAfter(front, rows, n);
  }

  lemma SplitInFront(front: seq<Row>, rows: seq<Row>, n: nat, c: seq<Row>, d: seq<Row>)
    requires n <= |rows|
    ensures (front + rows)[..|front| + n] + c + d == front + (rows[..n] + c + d)
  {
    SplitAfter(front, rows, n);
    InFront(front, rows[..n], c, d);
  }

  lemma MergedHit(rows: seq<Row>, bins: seq<TimeBin>, n: nat)
    requires bins != [] && bins[0].hit && n == CountBefore(rows, bins[0].start)
    ensures Merged(rows, bins) == rows[..n] + bins[0].rows + Merged(rows[n..], bins[1..])
  {
  }

  /** Rows of bins before every cached bin come first. */
  lemma {:induction false} MergedAfter(front: seq<Row>, rows: seq<Row>, bins: seq<TimeBin>, start: int, size: nat)
    requires Consecutive(bins, start, size)
    requires forall row :: row in front ==> row.bin < start
    ensures Merged(front + rows, bins) == front + Merged(rows, bins)
    decreases |bins|
  {
    if bins != [] {
      if !bins[0].hit {
        MergedAfter(front, rows, bins[1..], start + size, size);
      } else {
        MergedAfterHit(front, rows, bins);
      }
    }
  }

  /** From at on, the spans hold the range's times that no cached bin has. */
  ghost predicate Complement(spans: seq<Span>, from: int, to: int, at: int, bins: seq<TimeBin>) {
    forall t :: at <= t ==> (InSpans(spans, t) <==> from <= t < to && !InHit(bins, t))
  }

  /** What is left of the bins from at on: they start at at, or one bin later. */
  ghost predicate Rest(bins: seq<TimeBin>, at: int, to: int, size: nat) {
    && (Consecutive(bins, at, size) || Consecutive(bins, at + size, size))
    && forall i :: 0 <= i < |bins| ==> bins[i].end <= to
  }

  function DropAt(bins: seq<TimeBin>, at: int): seq<TimeBin> {
    if bins != [] && bins[0].start == at then bins[1..] else bins
  }

  lemma RestDrops(bins: seq<TimeBin>, at: int, to: int, size: nat)
    requires Rest(bins, at, to, size) && size > 0
    ensures Consecutive(DropAt(bins, at), at + size, size) && Rest(DropAt(bins, at), at + size, to, size)
  {
  }

  lemma InHitDrops(bins: seq<TimeBin>, at: int, size: nat, t: int)
    requires Consecutive(bins, at, size) || Consecutive(bins, at + size, size)
    requires at + size <= t
    ensures InHit(DropAt(bins, at), t) <==> InHit(bins, t)
  {
    if bins != [] && bins[0].start == at {
      assert bins == [bins[0]] + bins[1..];
    }
  }

  lemma ComplementDrops(spans: seq<Span>, from: int, to: int, at: int, bins: seq<TimeBin>, size: nat)
    requires Rest(bins, at, to, size) && Complement(spans, from, to, at, bins)
    ensures Complement(spans, from, to, at + size, DropAt(bins, at))
  {
    forall t | at + size <= t
      ensures InHit(DropAt(bins, at), t) <==> InHit(bins, t)
    {
      InHitDrops(bins, at, size, t);
    }
  }

  predicate HitAt(bins: seq<TimeBin>, at: int) {
    bins != [] && bins[0].start == at && bins[0].hit
  }

  /** Of the times of the bin at at, a cached bin has all or none. */
  lemma HitWhole(bins: seq<TimeBin>, at: int, size: nat, t: int)
    requires Consecutive(bins, at, size) || Consecutive(bins, at + size, size)
    requires at <= t < at + size
    ensures InHit(bins, t) <==> HitAt(bins, at)
  {
    var start := if Consecutive(bins, at, size) then at else at + size;
    if InHit(bins, t) {
      var b :| b in bins && b.hit && b.start <= t < b.end;
      var i :| 0 <= i < |bins| && bins[i] == b;
      StartsAfter(bins, start, size, i);
    }
    if HitAt(bins, at) {
      assert bins[0] in bins;
    }
  }

  /** A bin the query works out has the rows of the whole range's, and one the cache had has none. */
  lemma QueryOfBin(table: Table, logs: set<Log>, spans: seq<Span>, from: int, to: int, size: nat, at: int,
                   bins: seq<TimeBin>)
    requires size > 0 && BinByBin(table) && Rest(bins, at, to, size) && Complement(spans, from, to, at, bins)
    ensures BinRows(table, logs, spans, size, at)
         == if HitAt(bins, at) then [] else BinRows(table, logs, [Span(from, to)], size, at)
  {
    forall t | at <= t < at + size
      ensures InSpans(spans, t) <==> InSpans([Span(from, to)], t) && !HitAt(bins, at)
    {
      HitWhole(bins, at, size, t);
      assert InSpans([Span(from, to)], t) <==> from <= t < to by {
        assert Span(from, to) in [Span(from, to)];
      }
    }
    assert LogsIn(logs, spans, at, size)
        == if HitAt(bins, at) then {} else LogsIn(logs, [Span(from, to)], at, size);
  }

  /** Every cached bin has the rows the whole range's query gives it. */
  ghost predicate HitsComplete(bins: seq<TimeBin>, table: Table, logs: set<Log>, from: int, to: int, size: nat) {
    forall b :: b in bins && b.hit ==> b.rows == BinRows(table, logs, [Span(from, to)], size, b.start)
  }

  /** What is left of a scan from at on: its bins, the spans its query reads. */
  ghost predicate Left(table: Table, logs: set<Log>, spans: seq<Span>, from: int, to: int, size: nat, at: int,
                       bins: seq<TimeBin>)
  {
    size > 0 && BinByBin(table) && BinsLeft(table, logs, spans, from, to, size, at, bins)
  }

  ghost predicate BinsLeft(table: Table, logs: set<Log>, spans: seq<Span>, from: int, to: int, size: nat, at: int,
                           bins: seq<TimeBin>)
  {
    && Rest(bins, at, to, size)
    && Complement(spans, from, to, at, bins)
    && HitsComplete(bins, table, logs, from, to, size)
  }

  lemma LeftAfter(table: Table, logs: set<Log>, spans: seq<Span>, from: int, to: int, size: nat, at: int,
                  bins: seq<TimeBin>)
    requires Left(table, logs, spans, from, to, size, at, bins)
    ensures Left(table, logs, spans, from, to, size, at + size, DropAt(bins, at))
    ensures Consecutive(DropAt(bins, at), at + size, size)
    ensures BinRows(table, logs, spans, size, at)
         == if HitAt(bins, at) then [] else BinRows(table, logs, [Span(from, to)], size, at)
    ensures HitAt(bins, at) ==> bins[0].rows == BinRows(table, logs, [Span(from, to)], size, at)
    ensures forall row :: row in BinRows(table, logs, [Span(from, to)], size, at) ==> row.bin == at
  {
    QueryOfBin(table, logs, spans, from, to, size, at, bins);
    RestDrops(bins, at, to, size);
    ComplementDrops(spans, from, to, at, bins, size);
    if HitAt(bins, at) {
      assert bins[0] in bins;
    }
  }

  lemma LeftEnds(table: Table, logs: set<Log>, spans: seq<Span>, from: int, to: int, size: nat, at: int,
                 bins: seq<TimeBin>)
    requires Left(table, logs, spans, from, to, size, at, bins) && at >= to
    ensures bins == []
  {
  }

  function Less(n: nat, taken: nat): nat {
    if taken < n then n - taken else 0
  }

  /** What the query's limit leaves after a bin: a cached one takes nothing of it. */
  function CutAfter(bins: seq<TimeBin>, at: int, cut: nat, taken: nat): nat {
    if HitAt(bins, at) then cut else Less(cut, taken)
  }

  /** Cut at the limit before merging and again after, the rows are the whole range's, cut once. */
  lemma {:induction false} MergedIsWhole(
      table: Table, logs: set<Log>, spans: seq<Span>, from: int, to: int, size: nat, at: int, bins: seq<TimeBin>,
      cut: nat, limit: nat)
    requires size > 0 && Left(table, logs, spans, from, to, size, at, bins) && limit <= cut
    ensures First(Merged(First(RowsOver(table, logs, spans, size, at, to), cut), bins), limit)
         == First(RowsOver(table, logs, [Span(from, to)], size, at, to), limit)
    decreases if at < to then to - at else 0
  {
    if at >= to {
      LeftEnds(table, logs, spans, from, to, size, at, bins);
      NothingLeft(table, logs, spans, from, to, size, at, bins, cut, limit);
    } else {
      var whole := BinRows(table, logs, [Span(from, to)], size, at);
      var left, leftCut := Less(limit, |whole|), CutAfter(bins, at, cut, |whole|);
      LeftNext(table, logs, spans, from, to, size, at, bins);
      MergedIsWhole(table, logs, spans, from, to, size, at + size, DropAt(bins, at), leftCut, left);
      MergedFromOn(table, logs, spans, from, to, size, at, bins, cut, limit);
    }
  }

  lemma LeftNext(table: Table, logs: set<Log>, spans: seq<Span>, from: int, to: int, size: nat, at: int,
                 bins: seq<TimeBin>)
    requires Left(table, logs, spans, from, to, size, at, bins)
    ensures Left(table, logs, spans, from, to, size, at + size, DropAt(bins, at))
  {
    LeftAfter(table, logs, spans, from, to, size, at, bins);
  }

  lemma NothingLeft(table: Table, logs: set<Log>, spans: seq<Span>, from: int, to: int, size: nat, at: int,
                    bins: seq<TimeBin>, cut: nat, limit: nat)
    requires size > 0 && at >= to && bins == []
    ensures First(Merged(First(RowsOver(table, logs, spans, size, at, to), cut), bins), limit)
         == First(RowsOver(table, logs, [Span(from, to)], size, at, to), limit)
  {
  }

  lemma MergedFromOn(
      table: Table, logs: set<Log>, spans: seq<Span>, from: int, to: int, size: nat, at: int, bins: seq<TimeBin>,
      cut: nat, limit: nat)
    requires size > 0 && Left(table, logs, spans, from, to, size, at, bins) && limit <= cut && at < to
    requires var whole := BinRows(table, logs, [Span(from, to)], size, at);
             var left, leftCut := Less(limit, |whole|), CutAfter(bins, at, cut, |whole|);
             First(Merged(First(RowsOver(table, logs, spans, size, at + size, to), leftCut), DropAt(bins, at)), left)
               == First(RowsOver(table, logs, [Span(from, to)], size, at + size, to), left)
    ensures First(Merged(First(RowsOver(table, logs, spans, size, at, to), cut), bins), limit)
         == First(RowsOver(table, logs, [Span(from, to)], size, at, to), limit)
  {
    var whole := BinRows(table, logs, [Span(from, to)], size, at);
    var rest := RowsOver(table, logs, spans, size, at + size, to);
    var wholeRest := RowsOver(table, logs, [Span(from, to)], size, at + size, to);
    LeftAfter(table, logs, spans, from, to, size, at, bins);
    if HitAt(bins, at) {
      RowsFrom(table, logs, spans, size, at + size, to);
      MergeHit(whole, rest, wholeRest, bins, at, cut, limit);
    } else {
      MergeMiss(whole, rest, wholeRest, bins, at, size, cut, limit);
    }
  }

  lemma MergeHit(whole: seq<Row>, rest: seq<Row>, wholeRest: seq<Row>, bins: seq<TimeBin>, at: int, cut: nat,
                 limit: nat)
    requires HitAt(bins, at) && bins[0].rows == whole
    requires forall row :: row in rest ==> at < row.bin
    requires |whole| < limit ==>
               First(Merged(First(rest, cut), bins[1..]), limit - |whole|) == First(wholeRest, limit - |whole|)
    ensures First(Merged(First([] + rest, cut), bins), limit) == First(whole + wholeRest, limit)
  {
    var q := First(rest, cut);
    assert [] + rest == rest;
    assert forall row :: row in q ==> row in rest;
    HitFirst(whole, q, bins, at);
    FirstOfBoth(whole, Merged(q, bins[1..]), limit);
    FirstOfBoth(whole, wholeRest, limit);
  }

  lemma HitFirst(whole: seq<Row>, q: seq<Row>, bins: seq<TimeBin>, at: int)
    requires HitAt(bins, at) && bins[0].rows == whole && forall row :: row in q ==> at < row.bin
    ensures Merged(q, bins) == whole + Merged(q, bins[1..])
  {
    assert CountBefore(q, at) == 0;
    assert q[..0] + whole == whole && q[0..] == q;
  }

  lemma MergeMiss(whole: seq<Row>, rest: seq<Row>, wholeRest: seq<Row>, bins: seq<TimeBin>, at: int, size: nat,
                  cut: nat, limit: nat)
    requires size > 0 && !HitAt(bins, at) && Consecutive(DropAt(bins, at), at + size, size)
    requires forall row :: row in whole ==> row.bin == at
    requires limit <= cut
    requires |whole| < cut ==> |whole| < limit ==>
               First(Merged(First(rest, cut - |whole|), DropAt(bins, at)), limit - |whole|)
                == First(wholeRest, limit - |whole|)
    ensures First(Merged(First(whole + rest, cut), bins), limit) == First(whole + wholeRest, limit)
  {
    var after := DropAt(bins, at);
    assert forall rows :: Merged(rows, bins) == Merged(rows, after);
    FirstOfBoth(whole, rest, cut);
    FirstOfBoth(whole, wholeRest, limit);
    if |whole| < cut {
      var q := First(rest, cut - |whole|);
      MergedAfter(whole, q, after, at + size, size);
      FirstOfBoth(whole, Merged(q, after), limit);
    } else {
      var q := First(whole, cut);
      assert q + [] == q;
      MergedAfter(q, [], after, at + size, size);
      FirstOfBoth(q, Merged([], after), limit);
      FirstOfFirst(whole, limit, cut);
    }
  }

  // The bins put in the cache are complete.

  lemma {:induction false} RowsOfBoth(a: seq<Row>, b: seq<Row>, start: int)
    ensures RowsOf(a + b, start) == RowsOf(a, start) + RowsOf(b, start)
  {
    if b == [] {
      assert a + b == a;
    } else {
      assert (a + b)[..|a + b| - 1] == a + b[..|b| - 1];
      RowsOfBoth(a, b[..|b| - 1], start);
    }
  }

  lemma {:induction false} RowsOfOne(rows: seq<Row>, start: int)
    ensures (forall row :: row in rows ==> row.bin == start) ==> RowsOf(rows, start) == rows
    ensures (forall row :: row in rows ==> row.bin != start) ==> RowsOf(rows, start) == []
  {
    if rows != [] {
      var last := rows[|rows| - 1];
      assert rows == rows[..|rows| - 1] + [last];
      RowsOfOne(rows[..|rows| - 1], start);
    }
  }

  lemma RowsOfStep(table: Table, logs: set<Log>, spans: seq<Span>, size: nat, at: int, to: int, start: int)
    requires size > 0 && BinByBin(table) && at < to
    ensures RowsOf(RowsOver(table, logs, spans, size, at, to), start)
         == if start == at then BinRows(table, logs, spans, size, at)
            else RowsOf(RowsOver(table, logs, spans, size, at + size, to), start)
  {
    var rest := RowsOver(table, logs, spans, size, at + size, to);
    RowsOfBoth(BinRows(table, logs, spans, size, at), rest, start);
    RowsOfOne(BinRows(table, logs, spans, size, at), start);
    RowsFrom(table, logs, spans, size, at + size, to);
    if start == at {
      RowsOfOne(rest, start);
    }
  }

  /** Of the query's rows, those of a bin are the bin's. */
  lemma {:induction false} RowsOfBin(table: Table, logs: set<Log>, spans: seq<Span>, size: nat, at: int, to: int,
                                     n: nat, start: int)
    requires size > 0 && BinByBin(table) && start == at + n * size && start < to
    ensures RowsOf(RowsOver(table, logs, spans, size, at, to), start) == BinRows(table, logs, spans, size, start)
    decreases n
  {
    if n > 0 {
      TimesOneLess(n, size);
      RowsOfBin(table, logs, spans, size, at + size, to, n - 1, start);
    }
    RowsOfBinStep(table, logs, spans, size, at, to, start);
  }

  lemma RowsOfBinStep(table: Table, logs: set<Log>, spans: seq<Span>, size: nat, at: int, to: int, start: int)
    requires size > 0 && BinByBin(table) && at <= start < to
    requires start != at ==>
               RowsOf(RowsOver(table, logs, spans, size, at + size, to), start)
                 == BinRows(table, logs, spans, size, start)
    ensures RowsOf(RowsOver(table, logs, spans, size, at, to), start) == BinRows(table, logs, spans, size, start)
  {
    RowsOfStep(table, logs, spans, size, at, to, start);
  }

  lemma TimesOneLess(n: nat, size: nat)
    requires n > 0 && size > 0
    ensures n * size == size + (n - 1) * size && n * size > 0
  {
  }

  lemma {:induction false} StartsAt(bins: seq<TimeBin>, first: int, size: nat, i: nat)
    requires Consecutive(bins, first, size) && i < |bins|
    ensures bins[i].start == first + i * size
  {
    if i > 0 {
      StartsAt(bins, first, size, i - 1);
      assert i * size == (i - 1) * size + size;
    }
  }

  /** A bin the query works out has the Logs of the whole range's. */
  lemma MissRows(table: Table, logs: set<Log>, spans: seq<Span>, from: int, to: int, first: int, size: nat, at: int,
                 bins: seq<TimeBin>, i: nat)
    requires Consecutive(bins, first, size) && i < |bins| && !bins[i].hit && at <= bins[i].start
    requires Complement(spans, from, to, at, bins)
    ensures BinRows(table, logs, spans, size, bins[i].start)
         == BinRows(table, logs, [Span(from, to)], size, bins[i].start)
  {
    var start := bins[i].start;
    forall t | start <= t < start + size
      ensures InSpans(spans, t) <==> InSpans([Span(from, to)], t)
    {
      NotInHit(bins, first, size, i, t);
      assert Span(from, to) in [Span(from, to)];
    }
    assert LogsIn(logs, spans, start, size) == LogsIn(logs, [Span(from, to)], start, size);
  }

  lemma NotInHit(bins: seq<TimeBin>, first: int, size: nat, i: nat, t: int)
    requires Consecutive(bins, first, size) && i < |bins| && !bins[i].hit && bins[i].start <= t < bins[i].start + size
    ensures !InHit(bins, t)
  {
    forall b | b in bins && b.hit
      ensures !(b.start <= t < b.end)
    {
      var j :| 0 <= j < |bins| && bins[j] == b;
      StartsAfter(bins, first, size, i);
      StartsAfter(bins, first, size, j);
    }
  }

  /** Of the query's rows, those of a bin it worked out are the whole range's. */
  lemma RowsOfMiss(
      table: Table, logs: set<Log>, spans: seq<Span>, from: int, to: int, size: nat, at: int,
      bins: seq<TimeBin>, i: nat)
    requires size > 0 && Left(table, logs, spans, from, to, size, at, bins) && i < |bins| && !bins[i].hit
    ensures RowsOf(RowsOver(table, logs, spans, size, at, to), bins[i].start)
         == BinRows(table, logs, [Span(from, to)], size, bins[i].start)
  {
    var first := bins[0].start;
    StartsAt(bins, first, size, i);
    var n := if first == at then i else i + 1;
    assert n == i || n * size == i * size + size;
    RowsOfBin(table, logs, spans, size, at, to, n, bins[i].start);
    StartsAfter(bins, first, size, i);
    MissRows(table, logs, spans, from, to, first, size, at, bins, i);
  }

  /** Rows cut at the limit keep all those of the bins before the last row's. */
  lemma RowsOfCut(rows: seq<Row>, limit: nat, start: int)
    requires Sorted(rows) && First(rows, limit) != []
    requires |First(rows, limit)| >= limit ==> start < First(rows, limit)[|First(rows, limit)| - 1].bin
    ensures RowsOf(First(rows, limit), start) == RowsOf(rows, start)
  {
    var cut := First(rows, limit);
    var tail := rows[|cut|..];
    assert rows == cut + tail;
    RowsOfBoth(cut, tail, start);
    assert forall row :: row in tail ==> row.bin >= cut[|cut| - 1].bin;
    RowsOfOne(tail, start);
  }

  predicate Complete(rows: seq<Row>, limit: nat, start: int) {
    |rows| >= limit && |rows| > 0 ==> start < rows[|rows| - 1].bin
  }

  lemma PutIsComplete(
      table: Table, logs: set<Log>, spans: seq<Span>, from: int, to: int, size: nat, at: int, bins: seq<TimeBin>,
      limit: nat, i: nat)
    requires size > 0 && Left(table, logs, spans, from, to, size, at, bins) && i < |bins| && !bins[i].hit
    requires limit > 0
    requires Complete(First(RowsOver(table, logs, spans, size, at, to), limit), limit, bins[i].start)
    ensures RowsOf(First(RowsOver(table, logs, spans, size, at, to), limit), bins[i].start)
         == BinRows(table, logs, [Span(from, to)], size, bins[i].start)
  {
    var rows := RowsOver(table, logs, spans, size, at, to);
    RowsOfMiss(table, logs, spans, from, to, size, at, bins, i);
    RowsFrom(table, logs, spans, size, at, to);
    if rows != [] {
      RowsOfCut(rows, limit, bins[i].start);
    }
  }

  // The scan itself.

  /** The bin's key as the generations are now. */
  function KeyNow(scan: TableScan, byHour: map<int, nat>, start: int): Key {
    var bin := Bin(scan.query, start, scan.size);
    Key(bin, GenerationsOf(byHour, bin))
  }

  /** The rows of a bin from all its Logs. */
  function AllRows(table: Table, logs: set<Log>, size: nat, start: int): seq<Row> {
    BinRows(table, logs, [Span(start, start + size)], size, start)
  }

  /** Each entry kept under one of the table's current keys has all its bin's rows. */
  ghost predicate Fresh(recent: seq<Entry<seq<Row>>>, scan: TableScan, byHour: map<int, nat>, table: Table,
                        logs: set<Log>) {
    forall e :: e in recent && e.key == KeyNow(scan, byHour, e.key.bin.start) ==>
      e.rows == AllRows(table, logs, scan.size, e.key.bin.start)
  }

  lemma WithinRange(table: Table, logs: set<Log>, size: nat, start: int, from: int, to: int)
    requires from <= start && start + size <= to
    ensures BinRows(table, logs, [Span(from, to)], size, start) == AllRows(table, logs, size, start)
  {
    forall t | start <= t < start + size
      ensures InSpans([Span(from, to)], t) && InSpans([Span(start, start + size)], t)
    {
      assert Span(from, to) in [Span(from, to)];
      assert Span(start, start + size) in [Span(start, start + size)];
    }
    assert LogsIn(logs, [Span(from, to)], start, size) == LogsIn(logs, [Span(start, start + size)], start, size);
  }

  /** What FindBins says of a bin. */
  ghost predicate Found(b: TimeBin, scan: TableScan, byHour: map<int, nat>, table: Table, logs: set<Log>, to: int) {
    && b.end <= to
    && Ended(b.start, scan.size, scan.now)
    && b.key == KeyNow(scan, byHour, b.start)
    && HasRows(b, table, logs, scan.size)
  }

  /** A bin the cache has comes with all its rows. */
  predicate HasRows(b: TimeBin, table: Table, logs: set<Log>, size: nat) {
    b.hit ==> b.rows == AllRows(table, logs, size, b.start)
  }

  lemma FreshSame(was: seq<Entry<seq<Row>>>, recent: seq<Entry<seq<Row>>>, scan: TableScan, byHour: map<int, nat>,
                  table: Table, logs: set<Log>)
    requires Fresh(was, scan, byHour, table, logs) && forall e :: e in recent <==> e in was
    ensures Fresh(recent, scan, byHour, table, logs)
  {
  }

  lemma ConsecutiveMore(bins: seq<TimeBin>, first: int, size: nat, bin: TimeBin)
    requires Consecutive(bins, first, size) && bin.end == bin.start + size
    requires bin.start == if bins == [] then first else bins[|bins| - 1].end
    ensures Consecutive(bins + [bin], first, size)
  {
  }

  /** The cache has an entry under the key. */
  ghost predicate HasKey(recent: seq<Entry<seq<Row>>>, key: Key) {
    exists e :: e in recent && e.key == key
  }

  lemma SameKeys(recent: seq<Entry<seq<Row>>>, was: seq<Entry<seq<Row>>>, key: Key)
    requires forall e :: e in recent <==> e in was
    ensures HasKey(recent, key) <==> HasKey(was, key)
  {
  }

  /** The bins hit are those the cache has entries of. */
  ghost predicate HitsAreKept(bins: seq<TimeBin>, recent: seq<Entry<seq<Row>>>) {
    forall b :: b in bins ==> (b.hit <==> HasKey(recent, b.key))
  }

  /** What FindBins has found so far, one bin after another. */
  ghost predicate BinsFound(bins: seq<TimeBin>, first: int, scan: TableScan, byHour: map<int, nat>, table: Table,
                            logs: set<Log>, to: int, recent: seq<Entry<seq<Row>>>) {
    && Consecutive(bins, first, scan.size)
    && (forall i :: 0 <= i < |bins| ==> Found(bins[i], scan, byHour, table, logs, to))
    && HitsAreKept(bins, recent)
  }

  lemma FoundMore(bins: seq<TimeBin>, bin: TimeBin, first: int, scan: TableScan, byHour: map<int, nat>, table: Table,
                  logs: set<Log>, to: int, recent: seq<Entry<seq<Row>>>, was: seq<Entry<seq<Row>>>)
    requires BinsFound(bins, first, scan, byHour, table, logs, to, was)
    requires bin.start == AfterBins(bins, first) && bin.end == bin.start + scan.size
    requires Found(bin, scan, byHour, table, logs, to) && (bin.hit <==> HasKey(recent, bin.key))
    requires forall e :: e in recent <==> e in was
    ensures BinsFound(bins + [bin], first, scan, byHour, table, logs, to, was)
  {
    SameKeys(recent, was, bin.key);
    ConsecutiveMore(bins, first, scan.size, bin);
  }

  lemma KeyIsIndexed(recent: seq<Entry<seq<Row>>>, entries: map<Key, Entry<seq<Row>>>, key: Key)
    requires Indexed(recent, entries)
    ensures key in entries <==> HasKey(recent, key)
  {
    if key in entries {
      assert entries[key] in recent && entries[key].key == key;
    }
  }

  /** Where the bin after some bins starts. */
  function AfterBins(bins: seq<TimeBin>, first: int): int {
    if bins == [] then first else bins[|bins| - 1].end
  }

  /** The bins wholly in the range whose hours have ended, with the rows of those the cache has: from the first
      on, up to one that isn't. */
  method FindBins(cache: BinCache<seq<Row>>, generations: Generations, scan: TableScan, from: int, to: int,
                  ghost table: Table, ghost logs: set<Log>)
    returns (bins: seq<TimeBin>)
    requires cache.Valid() && scan.size > 0
    requires Fresh(cache.recent, scan, generations.byHour, table, logs)
    modifies cache`recent
    ensures cache.Valid()
    ensures forall e :: e in cache.recent <==> e in old(cache.recent)
    ensures BinsFound(bins, FirstWhole(from, scan.size), scan, generations.byHour, table, logs, to, old(cache.recent))
    ensures LeftOff(bins, scan, from, to)
  {
    bins := [];
    var first := FindFirst(from, scan.size);
    var start := first;
    while start + scan.size <= to
      invariant cache.Valid()
      invariant forall e :: e in cache.recent <==> e in old(cache.recent)
      invariant start == AfterBins(bins, first)
      invariant BinsFound(bins, first, scan, generations.byHour, table, logs, to, old(cache.recent))
      decreases if start < to then to - start else 0
    {
      if (HourOf(start + scan.size - 1) + 1) * HOUR > scan.now {
        break;
      }
      var bin := FindNext(cache, generations, scan, bins, first, start, table, logs, to, old(cache.recent));
      bins := bins + [bin];
      start := bin.end;
    }
  }

  /** Where the first bin wholly in the range starts. */
  method FindFirst(from: int, size: nat) returns (first: int)
    requires size > 0
    ensures first == FirstWhole(from, size)
  {
    first := BinStart(from, size);
    if first < from {
      first := first + size;
    }
  }

  /** The next bin, after those found so far. */
  method FindNext(cache: BinCache<seq<Row>>, generations: Generations, scan: TableScan, ghost bins: seq<TimeBin>,
                  ghost first: int, start: int, ghost table: Table, ghost logs: set<Log>, ghost to: int,
                  ghost was: seq<Entry<seq<Row>>>)
    returns (bin: TimeBin)
    requires cache.Valid() && scan.size > 0 && start + scan.size <= to && Ended(start, scan.size, scan.now)
    requires Fresh(was, scan, generations.byHour, table, logs) && forall e :: e in cache.recent <==> e in was
    requires start == AfterBins(bins, first)
    requires BinsFound(bins, first, scan, generations.byHour, table, logs, to, was)
    modifies cache`recent
    ensures cache.Valid()
    ensures forall e :: e in cache.recent <==> e in was
    ensures bin.end == start + scan.size
    ensures BinsFound(bins + [bin], first, scan, generations.byHour, table, logs, to, was)
  {
    FreshSame(was, cache.recent, scan, generations.byHour, table, logs);
    ghost var before := cache.recent;
    bin := LookUp(cache, generations, scan, start, table, logs, to);
    FoundMore(bins, bin, first, scan, generations.byHour, table, logs, to, before, was);
  }

  /** A bin under its key, with its rows if the cache has them. */
  method LookUp(cache: BinCache<seq<Row>>, generations: Generations, scan: TableScan, start: int,
                ghost table: Table, ghost logs: set<Log>, ghost to: int)
    returns (bin: TimeBin)
    requires cache.Valid() && scan.size > 0 && start + scan.size <= to && Ended(start, scan.size, scan.now)
    requires Fresh(cache.recent, scan, generations.byHour, table, logs)
    modifies cache`recent
    ensures cache.Valid()
    ensures forall e :: e in cache.recent <==> e in old(cache.recent)
    ensures bin.start == start && bin.end == start + scan.size
    ensures bin.hit <==> HasKey(old(cache.recent), bin.key)
    ensures Found(bin, scan, generations.byHour, table, logs, to)
  {
    var key := generations.WriteKey(Bin(scan.query, start, scan.size));
    var found := cache.Get(key);
    KeyIsIndexed(cache.recent, cache.entries, key);
    SameKeys(cache.recent, old(cache.recent), key);
    return TimeBin(start, start + scan.size, key, if found.Hit? then found.rows else [], found.Hit?);
  }

  /** The query's rows by their bins' starts. */
  method GroupByStart(rows: seq<Row>) returns (byStart: map<int, seq<Row>>)
    ensures forall s :: RowsOf(rows, s) == if s in byStart then byStart[s] else []
  {
    byStart := map[];
    for i := 0 to |rows|
      invariant forall s :: RowsOf(rows[..i], s) == if s in byStart then byStart[s] else []
    {
      assert rows[..i + 1][..i] == rows[..i];
      var start := rows[i].bin;
      byStart := byStart[start := (if start in byStart then byStart[start] else []) + [rows[i]]];
    }
    assert rows[..|rows|] == rows;
  }

  /** The entries after some puts, one after another. */
  ghost function PutAll(recent: seq<Entry<seq<Row>>>, puts: seq<Entry<seq<Row>>>, maxBytes: nat): seq<Entry<seq<Row>>> {
    if puts == [] then recent
    else After(PutAll(recent, puts[..|puts| - 1], maxBytes), Kept(puts[|puts| - 1]), maxBytes)
  }

  /** The entries put are those of the first n bins that the query worked out whole. */
  ghost predicate PutsUpTo(puts: seq<Entry<seq<Row>>>, bins: seq<TimeBin>, n: nat, rows: seq<Row>, limit: nat) {
    && (forall e :: e in puts ==> IsPut(e, bins, rows, limit))
    && forall i :: 0 <= i < n <= |bins| && !bins[i].hit && Complete(rows, limit, bins[i].start) ==>
         PutsBin(puts, bins[i].key, RowsOf(rows, bins[i].start))
  }

  ghost predicate PutsBin(puts: seq<Entry<seq<Row>>>, key: Key, rows: seq<Row>) {
    exists e :: e in puts && e.key == key && e.rows == rows
  }

  lemma PutAllMore(recent: seq<Entry<seq<Row>>>, puts: seq<Entry<seq<Row>>>, entry: Entry<seq<Row>>, maxBytes: nat)
    ensures PutAll(recent, puts + [entry], maxBytes) == After(PutAll(recent, puts, maxBytes), Kept(entry), maxBytes)
  {
    assert (puts + [entry])[..|puts|] == puts;
  }

  lemma {:induction false} PutAllFrom(recent: seq<Entry<seq<Row>>>, puts: seq<Entry<seq<Row>>>, maxBytes: nat)
    requires Distinct(recent)
    ensures Distinct(PutAll(recent, puts, maxBytes))
    ensures forall e :: e in PutAll(recent, puts, maxBytes) ==> e in recent || e in puts
  {
    if puts != [] {
      var last := puts[|puts| - 1];
      PutAllFrom(recent, puts[..|puts| - 1], maxBytes);
      assert forall e :: e in puts[..|puts| - 1] ==> e in puts;
      if last.bytes <= maxBytes {
        PutKeeps(PutAll(recent, puts[..|puts| - 1], maxBytes), last, maxBytes);
      }
    }
  }

  lemma PutMore(puts: seq<Entry<seq<Row>>>, entry: Entry<seq<Row>>, bins: seq<TimeBin>, n: nat, rows: seq<Row>,
                limit: nat)
    requires PutsUpTo(puts, bins, n, rows, limit) && n < |bins| && IsPut(entry, bins, rows, limit)
    requires entry.key == bins[n].key && entry.rows == RowsOf(rows, bins[n].start)
    ensures PutsUpTo(puts + [entry], bins, n + 1, rows, limit)
  {
    assert entry in puts + [entry];
    forall key, binRows | PutsBin(puts, key, binRows)
      ensures PutsBin(puts + [entry], key, binRows)
    {
      var e :| e in puts && e.key == key && e.rows == binRows;
      assert e in puts + [entry];
    }
  }

  /** Puts each bin the query worked out whole. */
  method PutBins(cache: BinCache<seq<Row>>, bins: seq<TimeBin>, rows: seq<Row>, limit: nat)
      returns (ghost puts: seq<Entry<seq<Row>>>)
    requires cache.Valid()
    modifies cache
    ensures cache.Valid()
    ensures cache.recent == PutAll(old(cache.recent), puts, cache.maxBytes)
    ensures PutsUpTo(puts, bins, |bins|, rows, limit)
    ensures forall e :: e in cache.recent ==> e in old(cache.recent) || IsPut(e, bins, rows, limit)
  {
    var byStart := GroupByStart(rows);
    puts := [];
    for i := 0 to |bins|
      invariant cache.Valid()
      invariant cache.recent == PutAll(old(cache.recent), puts, cache.maxBytes)
      invariant PutsUpTo(puts, bins, i, rows, limit)
    {
      var bin := bins[i];
      if !bin.hit && Complete(rows, limit, bin.start) {
        var binRows := if bin.start in byStart then byStart[bin.start] else [];
        var bytes: nat := *;
        ghost var entry := Entry(bin.key, binRows, bytes);
        assert IsPut(entry, bins, rows, limit);
        cache.Put(bin.key, binRows, bytes);
        PutAllMore(old(cache.recent), puts, entry, cache.maxBytes);
        PutMore(puts, entry, bins, i, rows, limit);
        puts := puts + [entry];
      }
    }
    PutAllFrom(old(cache.recent), puts, cache.maxBytes);
  }

  ghost predicate IsPut(e: Entry<seq<Row>>, bins: seq<TimeBin>, rows: seq<Row>, limit: nat) {
    exists i :: 0 <= i < |bins| && !bins[i].hit && Complete(rows, limit, bins[i].start)
      && e.key == bins[i].key && e.rows == RowsOf(rows, bins[i].start)
  }

  lemma MergedStep(before: seq<Row>, rows: seq<Row>, bins: seq<TimeBin>, next: nat, i: nat, upTo: nat)
    requires next <= upTo <= |rows| && i < |bins|
    requires bins[i].hit ==>
               && (forall k :: next <= k < upTo ==> rows[k].bin < bins[i].start)
               && (upTo < |rows| ==> rows[upTo].bin >= bins[i].start)
    requires !bins[i].hit ==> upTo == next
    ensures before + Merged(rows[next..], bins[i..])
         == before + rows[next..upTo] + (if bins[i].hit then bins[i].rows else []) + Merged(rows[upTo..], bins[i + 1..])
  {
    InFront(before, rows[next..upTo], if bins[i].hit then bins[i].rows else [], Merged(rows[upTo..], bins[i + 1..]));
    assert bins[i..][1..] == bins[i + 1..] && bins[i..][0] == bins[i];
    assert rows[next..upTo] + rows[upTo..] == rows[next..];
    if bins[i].hit {
      HitSplits(rows[next..upTo], rows[upTo..], bins[i..]);
    } else {
      MissSplits(rows[next..upTo], rows[upTo..], bins[i..]);
    }
  }

  lemma MissSplits(front: seq<Row>, rest: seq<Row>, bins: seq<TimeBin>)
    requires bins != [] && !bins[0].hit && front == []
    ensures Merged(front + rest, bins) == front + [] + Merged(rest, bins[1..])
  {
    assert front + rest == rest;
  }

  lemma HitSplits(front: seq<Row>, rest: seq<Row>, bins: seq<TimeBin>)
    requires bins != [] && bins[0].hit
    requires forall row :: row in front ==> row.bin < bins[0].start
    requires rest != [] ==> rest[0].bin >= bins[0].start
    ensures Merged(front + rest, bins) == front + bins[0].rows + Merged(rest, bins[1..])
  {
    CountBeforeBoth(front, rest, bins[0].start);
    MergedHit(front + rest, bins, |front|);
    SplitAfter(front, rest, 0);
  }

  lemma OneMore(before: seq<Row>, rows: seq<Row>, from: nat, next: nat)
    requires from <= next < |rows|
    ensures before + rows[from..next] + [rows[next]] == before + rows[from..next + 1]
  {
  }

  lemma NoMore(before: seq<Row>, rows: seq<Row>, next: nat)
    requires next <= |rows|
    ensures before + rows[next..next] + [] == before
  {
  }

  /** The rows of bins before start, from the next on. */
  method RowsUpTo(before: seq<Row>, rows: seq<Row>, was: nat, start: int) returns (table: seq<Row>, next: nat)
    requires was <= |rows|
    ensures was <= next <= |rows| && table == before + rows[was..next]
    ensures forall k :: was <= k < next ==> rows[k].bin < start
    ensures next < |rows| ==> rows[next].bin >= start
  {
    table, next := before, was;
    while next < |rows| && rows[next].bin < start
      invariant was <= next <= |rows|
      invariant forall k :: was <= k < next ==> rows[k].bin < start
      invariant table == before + rows[was..next]
    {
      OneMore(before, rows, was, next);
      table := table + [rows[next]];
      next := next + 1;
    }
  }

  /** The cached bins' rows between the query's. */
  method Merge(rows: seq<Row>, bins: seq<TimeBin>, limit: nat) returns (table: seq<Row>)
    ensures table == First(Merged(rows, bins), limit)
  {
    table := [];
    var next := 0;
    for i := 0 to |bins|
      invariant next <= |rows|
      invariant table + Merged(rows[next..], bins[i..]) == Merged(rows, bins)
    {
      if bins[i].hit {
        ghost var was, before := next, table;
        table, next := RowsUpTo(table, rows, next, bins[i].start);
        MergedStep(before, rows, bins, was, i, next);
        table := table + bins[i].rows;
      } else {
        MergedStep(table, rows, bins, next, i, next);
        NoMore(table, rows, next);
      }
    }
    table := table + rows[next..];
    return if |table| < limit then table else table[..limit];
  }

  /** With its bins found and the spans between them, a scan's query is ready. */
  lemma LeftAtFirst(table: Table, logs: set<Log>, spans: seq<Span>, from: int, to: int, bins: seq<TimeBin>,
                    scan: TableScan)
    requires scan.size > 0 && BinByBin(table)
    requires Consecutive(bins, FirstWhole(from, scan.size), scan.size)
    requires forall i :: 0 <= i < |bins| ==> bins[i].end <= to && HasRows(bins[i], table, logs, scan.size)
    requires forall t :: InSpans(spans, t) <==> from <= t < to && !InHit(bins, t)
    ensures Left(table, logs, spans, from, to, scan.size, BinStart(from, scan.size), bins)
  {
    forall b | b in bins && b.hit
      ensures b.rows == BinRows(table, logs, [Span(from, to)], scan.size, b.start)
    {
      var i :| 0 <= i < |bins| && bins[i] == b;
      StartsAfter(bins, FirstWhole(from, scan.size), scan.size, i);
      WithinRange(table, logs, scan.size, b.start, from, to);
    }
  }

  /** A bin the scan puts has all its rows, if the limit is not 0. */
  lemma PutIsFresh(table: Table, logs: set<Log>, spans: seq<Span>, from: int, to: int, bins: seq<TimeBin>,
                   scan: TableScan, byHour: map<int, nat>, e: Entry<seq<Row>>)
    requires scan.size > 0 && Left(table, logs, spans, from, to, scan.size, BinStart(from, scan.size), bins)
    requires Consecutive(bins, FirstWhole(from, scan.size), scan.size)
    requires forall i :: 0 <= i < |bins| ==> Found(bins[i], scan, byHour, table, logs, to)
    requires IsPut(e, bins, Answer(table, logs, scan, spans, from, to), scan.limit)
    ensures Ended(e.key.bin.start, scan.size, scan.now)
    ensures scan.limit > 0 ==> e.rows == AllRows(table, logs, scan.size, e.key.bin.start)
    ensures scan.limit == 0 ==> e.rows == []
  {
    var rows := Answer(table, logs, scan, spans, from, to);
    var i :| 0 <= i < |bins| && !bins[i].hit && Complete(rows, scan.limit, bins[i].start)
          && e.key == bins[i].key && e.rows == RowsOf(rows, bins[i].start);
    assert Found(bins[i], scan, byHour, table, logs, to);
    if scan.limit > 0 {
      PutIsComplete(table, logs, spans, from, to, scan.size, BinStart(from, scan.size), bins, scan.limit, i);
      StartsAfter(bins, FirstWhole(from, scan.size), scan.size, i);
      WithinRange(table, logs, scan.size, bins[i].start, from, to);
    }
  }

  /** Nothing is asked when the cached bins have the whole range. */
  lemma NothingToAsk(table: Table, logs: set<Log>, scan: TableScan, from: int, to: int)
    requires scan.size > 0 && BinByBin(table)
    ensures Answer(table, logs, scan, [], from, to) == []
  {
    NoRows(table, logs, scan.size, BinStart(from, scan.size), to);
  }

  lemma {:induction false} NoRows(table: Table, logs: set<Log>, size: nat, at: int, to: int)
    requires size > 0 && BinByBin(table)
    ensures RowsOver(table, logs, [], size, at, to) == []
    decreases if at < to then to - at else 0
  {
    if at < to {
      assert LogsIn(logs, [], at, size) == {};
      NoRows(table, logs, size, at + size, to);
    }
  }

  /** A whole bin of the range that a scan may take from the cache or keep in it. */
  predicate MayCache(scan: TableScan, from: int, to: int, start: int)
    requires scan.size > 0
  {
    && Truncated(to - from, scan.size) <= MAX_CACHED_BINS
    && from <= start && start + scan.size <= to && BinStart(start, scan.size) == start
    && Ended(start, scan.size, scan.now)
  }

  /** The time is in such a bin that the cache has. */
  ghost predicate InCached(recent: seq<Entry<seq<Row>>>, scan: TableScan, byHour: map<int, nat>, from: int, to: int,
                           time: int)
    requires scan.size > 0
  {
    exists start :: start <= time < start + scan.size && MayCache(scan, from, to, start)
      && HasKey(recent, KeyNow(scan, byHour, start))
  }

  /** The query asks for the Logs of the range that aren't in a bin the cache has, and for no other. */
  ghost predicate AsksRest(asked: seq<Span>, recent: seq<Entry<seq<Row>>>, scan: TableScan, byHour: map<int, nat>,
                           from: int, to: int)
    requires scan.size > 0
  {
    forall t :: InSpans(asked, t) <==> from <= t < to && !InCached(recent, scan, byHour, from, to, t)
  }

  /** Each such bin that the cache has not and that the answer has whole is put, with its rows of the answer. */
  ghost predicate PutsRest(puts: seq<Entry<seq<Row>>>, recent: seq<Entry<seq<Row>>>, scan: TableScan,
                           byHour: map<int, nat>, from: int, to: int, answer: seq<Row>)
    requires scan.size > 0
  {
    forall start :: MayCache(scan, from, to, start) && !HasKey(recent, KeyNow(scan, byHour, start))
                    && (|answer| < scan.limit || answer == [] || start < answer[|answer| - 1].bin) ==>
      PutsBin(puts, KeyNow(scan, byHour, start), RowsOf(answer, start))
  }

  lemma TimesKeepsOrder(a: int, b: int, size: nat)
    requires a <= b
    ensures a * size <= b * size
  {
  }

  lemma MultiplesApart(a: int, b: int, m: int, n: int, size: nat)
    requires a == m * size && b == n * size && a < b
    ensures a + size <= b
  {
    if n <= m {
      TimesKeepsOrder(n, m, size);
    } else {
      TimesKeepsOrder(m + 1, n, size);
    }
  }

  lemma SameMultiple(a: int, b: int, m: int, n: int, size: nat, time: int)
    requires a == m * size && b == n * size && a <= time < a + size && b <= time < b + size
    ensures a == b
  {
    if a < b {
      MultiplesApart(a, b, m, n, size);
    } else if b < a {
      MultiplesApart(b, a, n, m, size);
    }
  }

  lemma StartIs(time: int, start: int, n: int, size: nat)
    requires size > 0 && start == n * size && start <= time < start + size
    ensures BinStart(time, size) == start
  {
    var m :| BinStart(time, size) == m * size;
    SameMultiple(BinStart(time, size), start, m, n, size, time);
  }

  lemma AlignedAfter(at: int, size: nat)
    requires size > 0 && BinStart(at, size) == at
    ensures BinStart(at + size, size) == at + size
  {
    var n :| BinStart(at, size) == n * size;
    assert at + size == (n + 1) * size;
    StartIs(at + size, at + size, n + 1, size);
  }

  lemma FirstWholeAligned(from: int, size: nat)
    requires size > 0
    ensures BinStart(FirstWhole(from, size), size) == FirstWhole(from, size) >= from
    ensures FirstWhole(from, size) < from + size
  {
    var n :| BinStart(from, size) == n * size;
    StartIs(BinStart(from, size), BinStart(from, size), n, size);
    AlignedAfter(BinStart(from, size), size);
  }

  lemma {:induction false} FoundAligned(bins: seq<TimeBin>, first: int, size: nat, i: nat)
    requires size > 0 && BinStart(first, size) == first && Consecutive(bins, first, size) && i < |bins|
    ensures BinStart(bins[i].start, size) == bins[i].start
  {
    if i > 0 {
      FoundAligned(bins, first, size, i - 1);
      AlignedAfter(bins[i - 1].start, size);
    }
  }

  /** Bins that start at multiples of their size are the same or apart. */
  lemma AlignedApart(a: int, b: int, size: nat)
    requires size > 0 && BinStart(a, size) == a && BinStart(b, size) == b && a < b
    ensures a + size <= b
  {
    var m :| BinStart(a, size) == m * size;
    var n :| BinStart(b, size) == n * size;
    MultiplesApart(a, b, m, n, size);
  }

  lemma EndedBefore(start: int, later: int, size: nat, now: int)
    requires size > 0 && start <= later && Ended(later, size, now)
    ensures Ended(start, size, now)
  {
    assert HourOf(start + size - 1) <= HourOf(later + size - 1);
  }

  /** The bins found are all there are, each once. */
  lemma {:induction false} FindsBin(bins: seq<TimeBin>, first: int, size: nat, start: int) returns (i: nat)
    requires size > 0 && BinStart(first, size) == first && Consecutive(bins, first, size)
    requires BinStart(start, size) == start && first <= start < AfterBins(bins, first)
    ensures i < |bins| && bins[i].start == start
  {
    var n := |bins| - 1;
    FoundAligned(bins, first, size, n);
    if bins[n].start == start {
      i := n;
    } else if start < bins[n].start {
      i := FindsBin(bins[..n], first, size, start);
    } else {
      AlignedApart(bins[n].start, start, size);
      assert false;
    }
  }

  /** A bin that may be cached is one of those found, as FindBins leaves off at the first that isn't whole or
      hasn't ended. */
  lemma MayCacheIsFound(bins: seq<TimeBin>, scan: TableScan, from: int, to: int, start: int) returns (i: nat)
    requires scan.size > 0 && Consecutive(bins, FirstWhole(from, scan.size), scan.size)
    requires LeftOff(bins, scan, from, to) && MayCache(scan, from, to, start)
    ensures i < |bins| && bins[i].start == start
  {
    var first := FirstWhole(from, scan.size);
    FirstWholeAligned(from, scan.size);
    if start < first {
      AlignedApart(start, first, scan.size);
    }
    var next := AfterBins(bins, first);
    if next <= start {
      EndedBefore(next, start, scan.size, scan.now);
    }
    i := FindsBin(bins, first, scan.size, start);
  }

  lemma FoundMayCache(bins: seq<TimeBin>, scan: TableScan, byHour: map<int, nat>, table: Table, logs: set<Log>,
                      from: int, to: int, recent: seq<Entry<seq<Row>>>, i: nat)
    requires scan.size > 0 && Truncated(to - from, scan.size) <= MAX_CACHED_BINS && i < |bins|
    requires BinsFound(bins, FirstWhole(from, scan.size), scan, byHour, table, logs, to, recent)
    ensures MayCache(scan, from, to, bins[i].start)
    ensures bins[i].key == KeyNow(scan, byHour, bins[i].start) && (bins[i].hit <==> HasKey(recent, bins[i].key))
  {
    FirstWholeAligned(from, scan.size);
    FoundAligned(bins, FirstWhole(from, scan.size), scan.size, i);
    StartsAfter(bins, FirstWhole(from, scan.size), scan.size, i);
    assert Found(bins[i], scan, byHour, table, logs, to);
    assert bins[i] in bins;
  }

  /** FindBins has left off. */
  ghost predicate LeftOff(bins: seq<TimeBin>, scan: TableScan, from: int, to: int)
    requires scan.size > 0
  {
    var next := AfterBins(bins, FirstWhole(from, scan.size));
    next + scan.size > to || !Ended(next, scan.size, scan.now)
  }

  /** The spans between the bins found that the cache has are what its query has to ask for. */
  lemma SpansAskRest(asked: seq<Span>, bins: seq<TimeBin>, scan: TableScan, byHour: map<int, nat>, table: Table,
                     logs: set<Log>, from: int, to: int, recent: seq<Entry<seq<Row>>>)
    requires scan.size > 0 && Truncated(to - from, scan.size) <= MAX_CACHED_BINS
    requires BinsFound(bins, FirstWhole(from, scan.size), scan, byHour, table, logs, to, recent)
    requires LeftOff(bins, scan, from, to)
    requires forall t :: InSpans(asked, t) <==> from <= t < to && !InHit(bins, t)
    ensures AsksRest(asked, recent, scan, byHour, from, to)
  {
    forall t
      ensures InHit(bins, t) <==> InCached(recent, scan, byHour, from, to, t)
    {
      HitIsCached(bins, scan, byHour, table, logs, from, to, recent, t);
    }
  }

  /** A time is in a bin found that is a hit just when it is in one the cache has. */
  lemma HitIsCached(bins: seq<TimeBin>, scan: TableScan, byHour: map<int, nat>, table: Table, logs: set<Log>, from: int,
                    to: int, recent: seq<Entry<seq<Row>>>, t: int)
    requires scan.size > 0 && Truncated(to - from, scan.size) <= MAX_CACHED_BINS
    requires BinsFound(bins, FirstWhole(from, scan.size), scan, byHour, table, logs, to, recent)
    requires LeftOff(bins, scan, from, to)
    ensures InHit(bins, t) <==> InCached(recent, scan, byHour, from, to, t)
  {
    if InHit(bins, t) {
      var b :| b in bins && b.hit && b.start <= t < b.end;
      var i :| 0 <= i < |bins| && bins[i] == b;
      FoundMayCache(bins, scan, byHour, table, logs, from, to, recent, i);
      StartsAfter(bins, FirstWhole(from, scan.size), scan.size, i);
      assert b.start <= t < b.start + scan.size;
    }
    if InCached(recent, scan, byHour, from, to, t) {
      CachedIsHit(bins, scan, byHour, table, logs, from, to, recent, t);
    }
  }

  lemma CachedIsHit(bins: seq<TimeBin>, scan: TableScan, byHour: map<int, nat>, table: Table, logs: set<Log>, from: int,
                    to: int, recent: seq<Entry<seq<Row>>>, t: int)
    requires scan.size > 0 && Truncated(to - from, scan.size) <= MAX_CACHED_BINS
    requires BinsFound(bins, FirstWhole(from, scan.size), scan, byHour, table, logs, to, recent)
    requires LeftOff(bins, scan, from, to) && InCached(recent, scan, byHour, from, to, t)
    ensures InHit(bins, t)
  {
    var start :| start <= t < start + scan.size && MayCache(scan, from, to, start)
                 && HasKey(recent, KeyNow(scan, byHour, start));
    var i := MayCacheIsFound(bins, scan, from, to, start);
    FoundMayCache(bins, scan, byHour, table, logs, from, to, recent, i);
    assert bins[i] in bins;
  }

  lemma PutsPutRest(puts: seq<Entry<seq<Row>>>, bins: seq<TimeBin>, scan: TableScan, byHour: map<int, nat>,
                    table: Table, logs: set<Log>, from: int, to: int, recent: seq<Entry<seq<Row>>>, answer: seq<Row>)
    requires scan.size > 0 && Truncated(to - from, scan.size) <= MAX_CACHED_BINS
    requires BinsFound(bins, FirstWhole(from, scan.size), scan, byHour, table, logs, to, recent)
    requires LeftOff(bins, scan, from, to) && PutsUpTo(puts, bins, |bins|, answer, scan.limit)
    ensures PutsRest(puts, recent, scan, byHour, from, to, answer)
  {
    forall start | MayCache(scan, from, to, start) && !HasKey(recent, KeyNow(scan, byHour, start))
                   && (|answer| < scan.limit || answer == [] || start < answer[|answer| - 1].bin)
      ensures PutsBin(puts, KeyNow(scan, byHour, start), RowsOf(answer, start))
    {
      var i := MayCacheIsFound(bins, scan, from, to, start);
      FoundMayCache(bins, scan, byHour, table, logs, from, to, recent, i);
    }
  }

  /** With no bin found, the whole range is asked for and nothing is put. */
  lemma NoneFound(scan: TableScan, byHour: map<int, nat>, from: int, to: int, recent: seq<Entry<seq<Row>>>,
                  answer: seq<Row>)
    requires scan.size > 0
    requires Truncated(to - from, scan.size) > MAX_CACHED_BINS || LeftOff([], scan, from, to)
    ensures AsksRest([Span(from, to)], recent, scan, byHour, from, to)
    ensures PutsRest([], recent, scan, byHour, from, to, answer)
  {
    forall start
      ensures !MayCache(scan, from, to, start)
    {
      if MayCache(scan, from, to, start) {
        var i := MayCacheIsFound([], scan, from, to, start);
      }
    }
    assert Span(from, to) in [Span(from, to)];
  }

  /** The rows are the whole range's query's, which is asked only for what the cache hasn't; what it answers
      whole is put. The cache stays right, and takes only bins whose hours have ended. asked tells the spans
      queried, and puts the entries put, in order, into the entries looked up. */
  method ScanBinnedTable(cache: BinCache<seq<Row>>, generations: Generations, scan: TableScan, from: int, to: int,
                         table: Table, logs: set<Log>)
    returns (rows: seq<Row>, ghost asked: seq<Span>, ghost looked: seq<Entry<seq<Row>>>,
             ghost puts: seq<Entry<seq<Row>>>)
    requires cache.Valid() && scan.size > 0 && BinByBin(table)
    requires Fresh(cache.recent, scan, generations.byHour, table, logs)
    modifies cache
    ensures cache.Valid()
    ensures rows == Answer(table, logs, scan, [Span(from, to)], from, to)
    ensures AsksRest(asked, old(cache.recent), scan, generations.byHour, from, to)
    ensures PutsRest(puts, old(cache.recent), scan, generations.byHour, from, to,
                     Answer(table, logs, scan, asked, from, to))
    ensures forall e :: e in looked <==> e in old(cache.recent)
    ensures cache.recent == PutAll(looked, puts, cache.maxBytes)
    ensures scan.limit > 0 ==> Fresh(cache.recent, scan, generations.byHour, table, logs)
    ensures forall e :: e in cache.recent ==>
              || e in old(cache.recent)
              || (Ended(e.key.bin.start, scan.size, scan.now) && (scan.limit == 0 ==> e.rows == []))
  {
    var whole := [Span(from, to)];
    asked, looked, puts := whole, cache.recent, [];
    if Truncated(to - from, scan.size) > MAX_CACHED_BINS {
      rows := Answer(table, logs, scan, whole, from, to);
      NoneFound(scan, generations.byHour, from, to, looked, rows);
      return;
    }
    var bins := FindBins(cache, generations, scan, from, to, table, logs);
    looked := cache.recent;
    if bins == [] {
      rows := Answer(table, logs, scan, whole, from, to);
      NoneFound(scan, generations.byHour, from, to, old(cache.recent), rows);
      return;
    }
    var spans := SpansBetween(bins, FirstWhole(from, scan.size), scan.size, from, to);
    var found := if spans == [] then [] else Answer(table, logs, scan, spans, from, to);
    NothingToAsk(table, logs, scan, from, to);
    LeftAtFirst(table, logs, spans, from, to, bins, scan);
    asked := spans;
    SpansAskRest(asked, bins, scan, generations.byHour, table, logs, from, to, old(cache.recent));
    puts := PutBins(cache, bins, found, scan.limit);
    PutsPutRest(puts, bins, scan, generations.byHour, table, logs, from, to, old(cache.recent), found);
    forall e | IsPut(e, bins, found, scan.limit)
      ensures Ended(e.key.bin.start, scan.size, scan.now)
      ensures scan.limit > 0 ==> e.rows == AllRows(table, logs, scan.size, e.key.bin.start)
      ensures scan.limit == 0 ==> e.rows == []
    {
      PutIsFresh(table, logs, spans, from, to, bins, scan, generations.byHour, e);
    }
    rows := Merge(found, bins, scan.limit);
    MergedIsWhole(table, logs, spans, from, to, scan.size, BinStart(from, scan.size), bins, scan.limit, scan.limit);
  }
}

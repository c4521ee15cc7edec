/** The table of a Query that Bins accepts, as a scan that works bin by bin has it: summarize … by
    bin(time, size), rest (logquery/bins.go with storage/logs_clickhouse_table.go scanBinnedTable). */
module BinScanTables {
  import opened Basics
  import opened BinScan
  import G = BinGenerations
  import T = BinTables

  /** The Logs of a list that are in a set, in the list's order. */
  function Those(list: seq<T.Log>, logs: set<G.Log>): seq<T.Log> {
    if list == [] then []
    else
      var before, last := Those(list[..|list| - 1], logs), list[|list| - 1];
      if G.Log(last.id, last.time) in logs then before + [last] else before
  }

  /** A row's columns: its bin's start, its other value and what its group comes to. */
  function Columns(row: T.Row): Row {
    Row(row.key.bin, [row.key.rest] + seq(|row.group|, i requires 0 <= i < |row.group| => row.group[i].id))
  }

  function AllColumns(rows: seq<T.Row>): (all: seq<Row>)
    ensures |all| == |rows| && forall i :: 0 <= i < |rows| ==> all[i] == Columns(rows[i])
  {
    seq(|rows|, i requires 0 <= i < |rows| => Columns(rows[i]))
  }

  /** The Query's rows of one bin, over the Logs of a set; list has every Log with its columns. */
  function QueryTable(list: seq<T.Log>, size: nat): Table
    requires size > 0
  {
    (start: int, logs: set<G.Log>) =>
      if T.BinOf(start, size) == start
      then AllColumns(T.Table(T.InBins(Those(list, logs), size, {start}), size))
      else []
  }

  lemma {:induction false} ThoseOfNone(list: seq<T.Log>)
    ensures Those(list, {}) == []
  {
    if list != [] {
      ThoseOfNone(list[..|list| - 1]);
    }
  }

  lemma {:induction false} InBinsAre(logs: seq<T.Log>, size: int, bins: set<int>)
    requires size > 0
    ensures forall l :: l in T.InBins(logs, size, bins) ==> T.BinOf(l.time, size) in bins
  {
    if logs != [] {
      InBinsAre(logs[..|logs| - 1], size, bins);
    }
  }

  /** It is made bin by bin, as a scan asks of its table. */
  lemma QueryTableIsBinByBin(list: seq<T.Log>, size: nat)
    requires size > 0
    ensures BinByBin(QueryTable(list, size))
  {
    ThoseOfNone(list);
    forall start, logs, row | row in QueryTable(list, size)(start, logs)
      ensures row.bin == start
    {
      var read := T.InBins(Those(list, logs), size, {start});
      InBinsAre(Those(list, logs), size, {start});
      RowOfBin(read, size, start, row);
    }
  }

  lemma RowOfBin(read: seq<T.Log>, size: nat, start: int, row: Row)
    requires size > 0 && row in AllColumns(T.Table(read, size))
    requires forall l :: l in read ==> T.BinOf(l.time, size) in {start}
    ensures row.bin == start
  {
    var rows := T.Table(read, size);
    var i :| 0 <= i < |rows| && AllColumns(rows)[i] == row;
    var k := rows[i].key;
    assert k == T.Keys(read, size)[i];
    T.RowsAreOfTheirBins(read, size, k);
    var l :| l in read && T.KeyOf(l, size) == k;
  }

  /** The Logs of spans. */
  function Within(logs: set<G.Log>, spans: seq<Span>): set<G.Log> {
    set l | l in logs && InSpans(spans, l.time)
  }

  /** From a bin's start on: the bin's own Logs, and those from the next bin's start on. */
  lemma {:induction false} OneBin(list: seq<T.Log>, logs: set<G.Log>, spans: seq<Span>, size: nat, at: int)
    requires size > 0 && T.Aligned(at, size)
    ensures var read := Those(list, Within(logs, spans));
            && T.Before(T.From(read, at), at + size) == T.InBins(Those(list, LogsIn(logs, spans, at, size)), size, {at})
            && T.From(T.From(read, at), at + size) == T.From(read, at + size)
  {
    if list != [] {
      var init, last := list[..|list| - 1], list[|list| - 1];
      OneBin(init, logs, spans, size, at);
      T.BinIsAt(last.time, at, size);
      T.ShowLast(Those(init, Within(logs, spans)), last);
      T.ShowLast(T.From(Those(init, Within(logs, spans)), at), last);
      T.ShowLast(Those(init, LogsIn(logs, spans, at, size)), last);
    }
  }

  lemma AllColumnsOfBoth(a: seq<T.Row>, b: seq<T.Row>)
    ensures AllColumns(a + b) == AllColumns(a) + AllColumns(b)
  {
  }

  /** A query over spans, bin by bin, gives the Query's table of the spans' Logs. */
  lemma {:induction false} RowsOverAreTable(list: seq<T.Log>, logs: set<G.Log>, spans: seq<Span>, size: nat, at: int,
                                            to: int)
    requires size > 0 && T.Aligned(at, size) && forall t :: InSpans(spans, t) ==> t < to
    ensures RowsOver(QueryTable(list, size), logs, spans, size, at, to)
         == AllColumns(T.Table(T.From(Those(list, Within(logs, spans)), at), size))
    decreases if at < to then to - at else 0
  {
    var read := Those(list, Within(logs, spans));
    if at >= to {
      ThoseAre(list, Within(logs, spans));
      T.NoneFrom(read, at);
    } else {
      T.AlignedNext(at, size);
      FirstBinThenRest(list, logs, spans, size, at);
      RowsOverAreTable(list, logs, spans, size, at + size, to);
    }
  }

  lemma FirstBinThenRest(list: seq<T.Log>, logs: set<G.Log>, spans: seq<Span>, size: nat, at: int)
    requires size > 0 && T.Aligned(at, size) && T.Aligned(at + size, size)
    ensures var read := Those(list, Within(logs, spans));
            AllColumns(T.Table(T.From(read, at), size))
              == BinRows(QueryTable(list, size), logs, spans, size, at)
                 + AllColumns(T.Table(T.From(read, at + size), size))
  {
    var read := Those(list, Within(logs, spans));
    var own := T.InBins(Those(list, LogsIn(logs, spans, at, size)), size, {at});
    OneBin(list, logs, spans, size, at);
    T.TableApart(T.From(read, at), size, at + size);
    AllColumnsOfBoth(T.Table(own, size), T.Table(T.From(read, at + size), size));
    assert BinRows(QueryTable(list, size), logs, spans, size, at) == AllColumns(T.Table(own, size));
  }

  lemma {:induction false} ThoseAre(list: seq<T.Log>, logs: set<G.Log>)
    ensures forall l :: l in Those(list, logs) <==> l in list && G.Log(l.id, l.time) in logs
  {
    if list != [] {
      ThoseAre(list[..|list| - 1], logs);
      assert list == list[..|list| - 1] + [list[|list| - 1]];
    }
  }

  lemma {:induction false} ThoseInOrder(a: seq<T.Log>, b: seq<T.Log>, logs: set<G.Log>)
    ensures Those(a + b, logs) == Those(a, logs) + Those(b, logs)
  {
    if b == [] {
      assert a + b == a;
    } else {
      ThoseInOrder(a, b[..|b| - 1], logs);
      assert (a + b)[..|a + b| - 1] == a + b[..|b| - 1];
    }
  }

  /** A row's columns tell its bin, its other value and its group's Logs. */
  lemma ColumnsTell(a: T.Row, b: T.Row)
    requires Columns(a) == Columns(b)
    ensures a.key == b.key && |a.group| == |b.group|
    ensures forall i :: 0 <= i < |a.group| ==> a.group[i].id == b.group[i].id
  {
    assert Columns(a).columns[0] == a.key.rest && Columns(b).columns[0] == b.key.rest;
    forall i | 0 <= i < |a.group|
      ensures a.group[i].id == b.group[i].id
    {
      assert Columns(a).columns[i + 1] == a.group[i].id && Columns(b).columns[i + 1] == b.group[i].id;
    }
  }

  lemma {:induction false} AllFrom(logs: seq<T.Log>, at: int)
    requires forall l :: l in logs ==> l.time >= at
    ensures T.From(logs, at) == logs
  {
    if logs != [] {
      var n := |logs| - 1;
      assert logs == logs[..n] + [logs[n]];
      AllFrom(logs[..n], at);
    }
  }

  /** The plain query of a scan of such a Query: the first rows, up to the limit, of its table of the Logs of the
      range. With a cache that is right for it, ScanBinnedTable gives these. */
  lemma AnswerIsTable(list: seq<T.Log>, logs: set<G.Log>, scan: TableScan, from: int, to: int)
    requires scan.size > 0
    ensures BinByBin(QueryTable(list, scan.size))
    ensures Answer(QueryTable(list, scan.size), logs, scan, [Span(from, to)], from, to)
         == First(AllColumns(T.Table(Those(list, set l | l in logs && from <= l.time < to), scan.size)), scan.limit)
  {
    QueryTableIsBinByBin(list, scan.size);
    var at, spans := BinStart(from, scan.size), [Span(from, to)];
    BinStartIsAligned(from, scan.size);
    InOneSpan(from, to);
    RowsOverAreTable(list, logs, spans, scan.size, at, to);
    var read := Those(list, Within(logs, spans));
    ThoseAre(list, Within(logs, spans));
    AllFrom(read, at);
    assert Within(logs, spans) == set l | l in logs && from <= l.time < to;
  }

  lemma InOneSpan(from: int, to: int)
    ensures forall t :: InSpans([Span(from, to)], t) <==> from <= t < to
  {
    assert Span(from, to) in [Span(from, to)];
  }

  lemma BinStartIsAligned(time: int, size: nat)
    requires size > 0
    ensures T.Aligned(BinStart(time, size), size)
  {
    var n :| BinStart(time, size) == n * size;
    T.QuotientIs(n * size, n, size);
  }
}

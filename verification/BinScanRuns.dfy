/** The bin cache's parts together (storage/logs_clickhouse_table.go): a table scan beside inserts and day
    drops, which reads each bin's key and looks it up at one moment and runs its query at a later one. */
module BinScanRuns {
  import opened Basics
  import opened BinGenerations
  import opened BinCacheLru
  import opened BinScan
  import R = BinCacheRuns

  /** The table of each Query, by the Query's number. */
  type Tables = nat -> Table

  /** Each entry's rows are worked out from the Logs cached under its key. */
  ghost predicate Holds(recent: seq<Entry<seq<Row>>>, m: R.State, tables: Tables) {
    forall e :: e in recent ==> e.key in m.cache && e.rows == RowsOfBinOf(tables, m.cache[e.key], e.key.bin)
  }

  /** A bin's rows, of the Logs it has among some. */
  function RowsOfBinOf(tables: Tables, logs: set<Log>, bin: Bin): seq<Row> {
    AllRows(tables(bin.query), logs, bin.size, bin.start)
  }

  /** The bin as it was looked up at a moment. */
  ghost predicate SeenAt(b: TimeBin, m: R.State, scan: TableScan, table: Table) {
    && b.key == R.KeyOf(m, Bin(scan.query, b.start, scan.size))
    && (b.hit ==> b.key in m.cache && b.rows == AllRows(table, m.cache[b.key], scan.size, b.start))
  }

  /** The Logs a scan sees: those it asked for, and, in each cached bin, those its rows were worked out from. */
  ghost function Seen(bins: seq<TimeBin>, moments: seq<R.State>, asked: set<Log>): set<Log>
    requires |moments| == |bins|
    requires forall i :: 0 <= i < |bins| && bins[i].hit ==> bins[i].key in moments[i].cache
  {
    (set l | l in asked && !InHit(bins, l.time))
      + (set i, l | 0 <= i < |bins| && bins[i].hit && l in moments[i].cache[bins[i].key]
                    && bins[i].start <= l.time < bins[i].end :: l)
  }

  lemma SeenOutside(bins: seq<TimeBin>, moments: seq<R.State>, asked: set<Log>, l: Log)
    requires |moments| == |bins|
    requires forall i :: 0 <= i < |bins| && bins[i].hit ==> bins[i].key in moments[i].cache
    requires !InHit(bins, l.time)
    ensures l in Seen(bins, moments, asked) <==> l in asked
  {
    forall i | 0 <= i < |bins| && bins[i].hit
      ensures !(bins[i].start <= l.time < bins[i].end)
    {
      assert bins[i] in bins;
    }
  }

  lemma SeenInHit(bins: seq<TimeBin>, first: int, size: nat, moments: seq<R.State>, asked: set<Log>, i: nat, l: Log)
    requires Consecutive(bins, first, size) && |moments| == |bins|
    requires forall i :: 0 <= i < |bins| && bins[i].hit ==> bins[i].key in moments[i].cache
    requires i < |bins| && bins[i].hit && bins[i].start <= l.time < bins[i].end
    ensures l in Seen(bins, moments, asked) <==> l in moments[i].cache[bins[i].key]
  {
    assert bins[i] in bins;
    forall j | 0 <= j < |bins| && bins[j].start <= l.time < bins[j].end
      ensures j == i
    {
      StartsAfter(bins, first, size, i);
      StartsAfter(bins, first, size, j);
    }
  }

  lemma SameAllRows(table: Table, a: set<Log>, b: set<Log>, size: nat, start: int)
    requires forall l: Log :: start <= l.time < start + size ==> (l in a <==> l in b)
    ensures AllRows(table, a, size, start) == AllRows(table, b, size, start)
  {
    var span := [Span(start, start + size)];
    assert LogsIn(a, span, start, size) == LogsIn(b, span, start, size);
  }

  lemma {:induction false} SameRowsOver(table: Table, a: set<Log>, b: set<Log>, spans: seq<Span>, size: nat, at: int,
                                        to: int)
    requires size > 0 && forall l: Log :: InSpans(spans, l.time) ==> (l in a <==> l in b)
    ensures RowsOver(table, a, spans, size, at, to) == RowsOver(table, b, spans, size, at, to)
    decreases if at < to then to - at else 0
  {
    if at < to {
      assert LogsIn(a, spans, at, size) == LogsIn(b, spans, at, size);
      SameRowsOver(table, a, b, spans, size, at + size, to);
    }
  }

  /** A scan's bins and its query's spans, as FindBins and SpansBetween give them, each bin looked up at its
      own moment. */
  ghost predicate Looked(bins: seq<TimeBin>, moments: seq<R.State>, spans: seq<Span>, from: int, to: int,
                         scan: TableScan, table: Table)
  {
    && scan.size > 0 && BinByBin(table)
    && Consecutive(bins, FirstWhole(from, scan.size), scan.size)
    && |moments| == |bins|
    && (forall i :: 0 <= i < |bins| ==> bins[i].end <= to && SeenAt(bins[i], moments[i], scan, table))
    && (forall t :: InSpans(spans, t) <==> from <= t < to && !InHit(bins, t))
  }

  /** Whatever inserts and drops do between its steps, a scan gives what the plain query would over a table
      with, in each cached bin, the Logs the bin's rows were worked out from, and elsewhere the Logs of the
      moment its query ran. */
  lemma InterleavedScan(bins: seq<TimeBin>, moments: seq<R.State>, spans: seq<Span>, from: int, to: int,
                        scan: TableScan, table: Table, asked: set<Log>)
    requires Looked(bins, moments, spans, from, to, scan, table)
    ensures First(Merged(Answer(table, asked, scan, spans, from, to), bins), scan.limit)
         == Answer(table, Seen(bins, moments, asked), scan, [Span(from, to)], from, to)
  {
    var seen := Seen(bins, moments, asked);
    SeenIsLeft(bins, moments, spans, from, to, scan, table, asked);
    MergedIsWhole(table, seen, spans, from, to, scan.size, BinStart(from, scan.size), bins, scan.limit, scan.limit);
  }

  /** For the scan's query and its merge, the table might as well have the Logs the scan sees. */
  lemma SeenIsLeft(bins: seq<TimeBin>, moments: seq<R.State>, spans: seq<Span>, from: int, to: int,
                   scan: TableScan, table: Table, asked: set<Log>)
    requires Looked(bins, moments, spans, from, to, scan, table)
    ensures var seen, at := Seen(bins, moments, asked), BinStart(from, scan.size);
            && Left(table, seen, spans, from, to, scan.size, at, bins)
            && RowsOver(table, asked, spans, scan.size, at, to) == RowsOver(table, seen, spans, scan.size, at, to)
  {
    var seen := Seen(bins, moments, asked);
    forall i | 0 <= i < |bins|
      ensures HasRows(bins[i], table, seen, scan.size)
    {
      if bins[i].hit {
        forall l: Log | bins[i].start <= l.time < bins[i].start + scan.size
          ensures l in seen <==> l in moments[i].cache[bins[i].key]
        {
          SeenInHit(bins, FirstWhole(from, scan.size), scan.size, moments, asked, i, l);
        }
        SameAllRows(table, seen, moments[i].cache[bins[i].key], scan.size, bins[i].start);
      }
    }
    forall l: Log | InSpans(spans, l.time)
      ensures l in seen <==> l in asked
    {
      SeenOutside(bins, moments, asked, l);
    }
    SameRowsOver(table, asked, seen, spans, scan.size, BinStart(from, scan.size), to);
    LeftAtFirst(table, seen, spans, from, to, bins, scan);
  }

  /** Of a cached bin the scan sees the Logs there were when it was looked up, unless a change to one of its
      hours was not yet bumped; of any other time, those there were when the query ran (SeenOutside). */
  lemma SeenAsOfLookup(bins: seq<TimeBin>, moments: seq<R.State>, spans: seq<Span>, from: int, to: int,
                       scan: TableScan, table: Table, asked: set<Log>, i: nat, l: Log)
    requires Looked(bins, moments, spans, from, to, scan, table)
    requires i < |bins| && bins[i].hit && bins[i].start <= l.time < bins[i].end
    requires R.Inv(moments[i]) && !R.Unbumped(moments[i], bins[i].key.bin)
    ensures l in Seen(bins, moments, asked) <==> l in moments[i].logs
  {
    var m, key := moments[i], bins[i].key;
    assert R.Good(m, key, m.cache[key]);
    assert l in R.LogsOf(m.logs, key.bin) <==> l in m.logs;
    SeenInHit(bins, FirstWhole(from, scan.size), scan.size, moments, asked, i, l);
  }

  /** Where no change to a cached bin's hours was unbumped when it was looked up and its Logs are the same
      when the query runs, the scan gives the plain query's rows. */
  lemma SettledScan(bins: seq<TimeBin>, moments: seq<R.State>, spans: seq<Span>, from: int, to: int,
                    scan: TableScan, table: Table, asked: set<Log>)
    requires Looked(bins, moments, spans, from, to, scan, table)
    requires forall i :: 0 <= i < |bins| ==> Settled(bins[i], moments[i], asked)
    ensures First(Merged(Answer(table, asked, scan, spans, from, to), bins), scan.limit)
         == Answer(table, asked, scan, [Span(from, to)], from, to)
  {
    InterleavedScan(bins, moments, spans, from, to, scan, table, asked);
    forall l: Log
      ensures l in Seen(bins, moments, asked) <==> l in asked
    {
      SettledLog(bins, moments, spans, from, to, scan, table, asked, l);
    }
    assert Seen(bins, moments, asked) == asked;
  }

  ghost predicate Settled(b: TimeBin, m: R.State, asked: set<Log>) {
    b.hit ==> R.Inv(m) && !R.Unbumped(m, b.key.bin) && R.LogsOf(m.logs, b.key.bin) == R.LogsOf(asked, b.key.bin)
  }

  lemma SettledLog(bins: seq<TimeBin>, moments: seq<R.State>, spans: seq<Span>, from: int, to: int,
                   scan: TableScan, table: Table, asked: set<Log>, l: Log)
    requires Looked(bins, moments, spans, from, to, scan, table)
    requires forall i :: 0 <= i < |bins| ==> Settled(bins[i], moments[i], asked)
    ensures l in Seen(bins, moments, asked) <==> l in asked
  {
    if InHit(bins, l.time) {
      var b :| b in bins && b.hit && b.start <= l.time < b.end;
      var i :| 0 <= i < |bins| && bins[i] == b;
      SeenAsOfLookup(bins, moments, spans, from, to, scan, table, asked, i, l);
      assert l in R.LogsOf(moments[i].logs, b.key.bin) <==> l in moments[i].logs;
      assert l in R.LogsOf(asked, b.key.bin) <==> l in asked;
    } else {
      SeenOutside(bins, moments, asked, l);
    }
  }

  // ---- The entries, beside the scans, inserts and drops

  /** The entries kept, and what has become of the Logs and the lookups under way. */
  datatype State = State(recent: seq<Entry<seq<Row>>>, runs: R.State)

  /** A step beside the entries (a lookup's key read or its query run, an insert's or a drop's change or bump, a
      restart), an entry looked up, or a lookup's bin put with its rows. */
  datatype Action = Beside(a: R.Action) | Look(key: Key) | PutRows(lookup: nat, rows: seq<Row>, bytes: nat)

  function Init(): State {
    State([], R.Init())
  }

  /** A bin is put with the rows of the Logs its query found, as ScanPuts shows a scan's bins are. */
  predicate Enabled(s: State, a: Action, tables: Tables) {
    match a
    case Beside(b) => !b.Put?
    case Look(_) => true
    case PutRows(lookup, rows, _) =>
      && lookup in s.runs.lookups && s.runs.lookups[lookup].Answered?
      && rows == RowsOfBinOf(tables, s.runs.lookups[lookup].logs, s.runs.lookups[lookup].key.bin)
  }

  function Apply(s: State, a: Action, tables: Tables, maxBytes: nat): State {
    if !Enabled(s, a, tables) then s
    else
      match a
      case Beside(b) =>
        // What runs counts as cached is what was ever put under a key; entries go by themselves.
        if b.Evict? then s else State(if b.Restart? then [] else s.recent, R.Apply(s.runs, b))
      case Look(key) => s.(recent := After(s.recent, Got(key), maxBytes))
      case PutRows(lookup, rows, bytes) =>
        var entry := Entry(s.runs.lookups[lookup].key, rows, bytes);
        // An entry too big for the cache changes nothing, and its lookup is as good as under way.
        if bytes > maxBytes then s
        else State(After(s.recent, Kept(entry), maxBytes), R.Apply(s.runs, R.Put(lookup)))
  }

  function Run(actions: seq<Action>, tables: Tables, maxBytes: nat): State {
    if actions == [] then Init()
    else
      var n := |actions| - 1;
      Apply(Run(actions[..n], tables, maxBytes), actions[n], tables, maxBytes)
  }

  ghost predicate Inv(s: State, tables: Tables, maxBytes: nat) {
    && R.Inv(s.runs) && Holds(s.recent, s.runs, tables)
    && Distinct(s.recent) && Total(s.recent) <= maxBytes
  }

  lemma BesideKeepsHolds(recent: seq<Entry<seq<Row>>>, m: R.State, a: R.Action, tables: Tables)
    requires Holds(recent, m, tables) && !a.Put? && !a.Evict? && !a.Restart?
    ensures Holds(recent, R.Apply(m, a), tables)
  {
    assert R.Apply(m, a).cache == m.cache;
  }

  lemma PutKeepsHolds(s: State, lookup: nat, rows: seq<Row>, bytes: nat, tables: Tables, maxBytes: nat)
    requires Inv(s, tables, maxBytes) && Enabled(s, PutRows(lookup, rows, bytes), tables) && bytes <= maxBytes
    ensures Inv(Apply(s, PutRows(lookup, rows, bytes), tables, maxBytes), tables, maxBytes)
  {
    var found := s.runs.lookups[lookup];
    var entry := Entry(found.key, rows, bytes);
    R.StepKeeps(s.runs, R.Put(lookup));
    PutKeeps(s.recent, entry, maxBytes);
    assert R.Apply(s.runs, R.Put(lookup)).cache == s.runs.cache[found.key := found.logs];
  }

  lemma StepKeeps(s: State, a: Action, tables: Tables, maxBytes: nat)
    requires Inv(s, tables, maxBytes)
    ensures Inv(Apply(s, a, tables, maxBytes), tables, maxBytes)
  {
    if Enabled(s, a, tables) {
      match a
      case Beside(b) =>
        if !b.Evict? {
          R.StepKeeps(s.runs, b);
          if !b.Restart? {
            BesideKeepsHolds(s.recent, s.runs, b, tables);
          }
        }
      case Look(key) => GetKeeps(s.recent, key, maxBytes);
      case PutRows(lookup, rows, bytes) =>
        if bytes <= maxBytes {
          PutKeepsHolds(s, lookup, rows, bytes, tables, maxBytes);
        }
    }
  }

  lemma {:induction false} RunKeeps(actions: seq<Action>, tables: Tables, maxBytes: nat)
    ensures Inv(Run(actions, tables, maxBytes), tables, maxBytes)
  {
    if actions != [] {
      var n := |actions| - 1;
      RunKeeps(actions[..n], tables, maxBytes);
      StepKeeps(Run(actions[..n], tables, maxBytes), actions[n], tables, maxBytes);
    }
  }

  /** In every interleaving of lookups, queries, puts, inserts and drops, the cache is right for a scan of which no
      bin has an unbumped change, as ScanBinnedTable asks of it. */
  lemma FreshInRuns(actions: seq<Action>, tables: Tables, maxBytes: nat, scan: TableScan)
    requires forall start :: !R.Unbumped(Run(actions, tables, maxBytes).runs, Bin(scan.query, start, scan.size))
    ensures var s := Run(actions, tables, maxBytes);
            Fresh(s.recent, scan, s.runs.byHour, tables(scan.query), s.runs.logs)
  {
    RunKeeps(actions, tables, maxBytes);
    var s := Run(actions, tables, maxBytes);
    forall e | e in s.recent && e.key == KeyNow(scan, s.runs.byHour, e.key.bin.start)
      ensures e.rows == AllRows(tables(scan.query), s.runs.logs, scan.size, e.key.bin.start)
    {
      assert e.key == R.KeyOf(s.runs, e.key.bin) && R.Good(s.runs, e.key, s.runs.cache[e.key]);
      SameAllRows(tables(scan.query), s.runs.cache[e.key], s.runs.logs, scan.size, e.key.bin.start);
    }
  }

  /** In every such run, a bin looked up under its current key is as SeenAt says, whether the cache has it or not. */
  lemma LookedUpIsSeen(actions: seq<Action>, tables: Tables, maxBytes: nat, scan: TableScan, start: int, b: TimeBin)
    requires var s := Run(actions, tables, maxBytes);
             && b.key == R.KeyOf(s.runs, Bin(scan.query, start, scan.size)) && b.start == start
             && var i := Position(s.recent, b.key);
                b.hit == (i < |s.recent|) && (b.hit ==> b.rows == s.recent[i].rows)
    ensures SeenAt(b, Run(actions, tables, maxBytes).runs, scan, tables(scan.query))
  {
    RunKeeps(actions, tables, maxBytes);
    var s := Run(actions, tables, maxBytes);
    if b.hit {
      assert s.recent[Position(s.recent, b.key)] in s.recent;
    }
  }

  /** Each bin a scan puts, whatever came between its lookups and its query, has the rows of the Logs its query
      found, so that it is put as the runs have it. */
  lemma ScanPuts(bins: seq<TimeBin>, moments: seq<R.State>, spans: seq<Span>, from: int, to: int, scan: TableScan,
                 tables: Tables, asked: set<Log>, e: Entry<seq<Row>>)
    requires Looked(bins, moments, spans, from, to, scan, tables(scan.query)) && scan.limit > 0
    requires IsPut(e, bins, Answer(tables(scan.query), asked, scan, spans, from, to), scan.limit)
    ensures e.rows == RowsOfBinOf(tables, R.LogsOf(asked, e.key.bin), e.key.bin)
  {
    var table, at := tables(scan.query), BinStart(from, scan.size);
    var rows := Answer(table, asked, scan, spans, from, to);
    var i :| 0 <= i < |bins| && !bins[i].hit && Complete(rows, scan.limit, bins[i].start)
          && e.key == bins[i].key && e.rows == RowsOf(rows, bins[i].start);
    var seen := Seen(bins, moments, asked);
    SeenIsLeft(bins, moments, spans, from, to, scan, table, asked);
    PutIsComplete(table, seen, spans, from, to, scan.size, at, bins, scan.limit, i);
    StartsAfter(bins, FirstWhole(from, scan.size), scan.size, i);
    WithinRange(table, seen, scan.size, bins[i].start, from, to);
    forall l: Log | bins[i].start <= l.time < bins[i].start + scan.size
      ensures l in seen <==> l in R.LogsOf(asked, e.key.bin)
    {
      NotInHit(bins, FirstWhole(from, scan.size), scan.size, i, l.time);
      SeenOutside(bins, moments, asked, l);
    }
    SameAllRows(table, seen, R.LogsOf(asked, e.key.bin), scan.size, bins[i].start);
  }
}

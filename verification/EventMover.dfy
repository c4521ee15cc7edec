/** Event processing's move of Events from Pebble to ClickHouse, counted on their Issues in SQLite
    behind a replay guard (processing/processor.go processBatch), as a state machine over one
    Project's steps: Events written, the worker's steps with every store failing having taken
    effect or not, and process crashes. */
module EventMover {
  import opened Basics
  import opened EventBatches
  import PL = PebbleLog

  /** A range of Events, which is its insert's dedup token: those after one UUID, up to another. */
  type Range = PL.Token

  /** Where the worker is in processBatch, with what it holds. */
  datatype Worker =
    | Idle
    | Reading(cursor: nat, recorded: Option<Range>)
    | Chosen(range: Range, events: seq<Event>, again: bool)
    | Recording(range: Range, events: seq<Event>, again: bool)
    | Inserting(range: Range, rows: seq<Event>)
    | Inserted(range: Range, rows: seq<Event>)
    | Counting(range: Range)

  /** events, cursor and recorded are Pebble's; table is the events table by token; issues and guard
      are SQLite's. ranges is every range ever recorded, in order, which no store keeps. */
  datatype State = State(
    events: seq<Event>,
    cursor: nat,
    recorded: Option<Range>,
    table: map<Range, seq<Event>>,
    issues: map<nat, Seen>,
    guard: nat,
    ranges: seq<Range>,
    worker: Worker)

  /** done says whether a write that may fail took effect, ok whether it returned without an error. */
  datatype Action =
    | Write(event: Event)
    | Begin
    | ReadEvents
    | IssueWork(count: nat)
    | Record(done: bool, ok: bool)
    | Insert(done: bool, ok: bool)
    | RecordSeen(done: bool, ok: bool)
    | MoveCursor(done: bool, ok: bool)
    | Crash

  function Init(): State {
    State([], 0, None, map[], map[], 0, [], Idle)
  }

  function LastUuid(events: seq<Event>): nat {
    if events == [] then 0 else events[|events| - 1].uuid
  }

  predicate Enabled(s: State, a: Action) {
    match a
    case Write(e) => e.uuid > LastUuid(s.events)
    case Begin => s.worker.Idle?
    case ReadEvents => s.worker.Reading?
    case IssueWork(count) =>
      s.worker.Chosen? && 0 < count <= |s.worker.events| && (s.worker.again ==> count == |s.worker.events|)
    case Record(done, ok) => s.worker.Recording? && (ok ==> done)
    case Insert(done, ok) => s.worker.Inserting? && (ok ==> done)
    case RecordSeen(done, ok) => s.worker.Inserted? && (ok ==> done)
    case MoveCursor(done, ok) => s.worker.Counting? && (ok ==> done)
    case Crash => true
  }

  /** The Events of the next batch: the recorded range again, all of it, or those after the cursor. */
  function Selected(events: seq<Event>, cursor: nat, recorded: Option<Range>): (seq<Event>, bool) {
    var read := First(After(events, cursor), BATCH_SIZE);
    if recorded.Some? && recorded.value.after == cursor then (UpTo(read, recorded.value.upTo), true)
    else (read, false)
  }

  /** A failed step is retried where it is, or, after a crash, from the cursor. */
  function Apply(s: State, a: Action): State {
    if !Enabled(s, a) then s
    else
      match a
      case Write(e) => s.(events := s.events + [e])
      case Begin => s.(worker := Reading(s.cursor, s.recorded))
      case ReadEvents =>
        var (events, again) := Selected(s.events, s.worker.cursor, s.worker.recorded);
        if events == [] then s.(worker := Idle)
        else if again then s.(worker := Chosen(s.worker.recorded.value, events, true))
        else s.(worker := Chosen(PL.Token(s.worker.cursor, LastUuid(events)), events, false))
      case IssueWork(count) =>
        // Stop ends a fresh batch after the Events whose Issue work is done.
        var events := s.worker.events[..count];
        var r := if s.worker.again then s.worker.range else PL.Token(s.worker.range.after, LastUuid(events));
        s.(worker := Recording(r, events, s.worker.again))
      case Record(done, ok) =>
        var r := s.worker.range;
        var next := if ok then Inserting(r, RowsOf(s.worker.events)) else s.worker;
        if s.worker.again then s.(worker := Inserting(r, RowsOf(s.worker.events)))
        else if done && s.recorded != Some(r) then s.(recorded := Some(r), ranges := s.ranges + [r], worker := next)
        else s.(worker := next)
      case Insert(done, ok) =>
        var r, rows := s.worker.range, s.worker.rows;
        s.(table := if done && rows != [] && r !in s.table then s.table[r := rows] else s.table,
           worker := if ok then Inserted(r, rows) else s.worker)
      case RecordSeen(done, ok) =>
        var r, rows := s.worker.range, s.worker.rows;
        var next := if ok then Counting(r) else s.worker;
        if rows == [] then s.(worker := Counting(r))
        else if done && r.upTo > s.guard then
          s.(issues := Counted(s.issues, After(rows, s.guard)), guard := r.upTo, worker := next)
        else s.(worker := next)
      case MoveCursor(done, ok) =>
        var r := s.worker.range;
        var next := if ok then Idle else s.worker;
        if done then s.(cursor := r.upTo, recorded := None, worker := next) else s.(worker := next)
      case Crash => s.(worker := Idle)
  }

  function Run(s: State, actions: seq<Action>): State {
    if actions == [] then s else Apply(Run(s, actions[..|actions| - 1]), actions[|actions| - 1])
  }

  /** The rows of the events table in the order their ranges were recorded. */
  function StoredRows(ranges: seq<Range>, table: map<Range, seq<Event>>): seq<Event> {
    if ranges == [] then []
    else
      var n := |ranges| - 1;
      StoredRows(ranges[..n], table) + (if ranges[n] in table then table[ranges[n]] else [])
  }

  function EventsOf(events: seq<Event>, r: Range): seq<Event> {
    Between(events, r.after, r.upTo)
  }

  // ---- What every step keeps

  ghost predicate EventsOk(s: State) {
    Sorted(s.events) && (forall e :: e in s.events ==> e.uuid > 0)
  }

  /** A range one read of the Events after it gave. */
  ghost predicate FitsRead(events: seq<Event>, r: Range) {
    r.after < r.upTo <= LastUuid(events) && EventsOf(events, r) != [] && |EventsOf(events, r)| <= BATCH_SIZE
  }

  ghost predicate RangesOk(s: State) {
    && PL.Linked(s.ranges)
    && PL.End(s.ranges) == (if s.recorded.Some? then s.recorded.value.upTo else s.cursor)
    && (s.recorded.Some? ==>
          && s.ranges != [] && s.ranges[|s.ranges| - 1] == s.recorded.value
          && s.recorded.value.after == s.cursor && FitsRead(s.events, s.recorded.value))
    && s.cursor <= LastUuid(s.events)
  }

  ghost predicate TableOk(s: State) {
    && (forall r :: r in s.table ==>
          r in s.ranges && s.table[r] == RowsOf(EventsOf(s.events, r)) && s.table[r] != [])
    && (forall r :: r in s.ranges && r.upTo <= s.cursor ==> r in s.table || RowsOf(EventsOf(s.events, r)) == [])
  }

  /** The guard is at or below the cursor, with no row between them, or at the recorded range's end,
      with the range stored. */
  ghost predicate GuardOk(s: State) {
    || (s.guard <= s.cursor
        && forall e :: e in StoredRows(s.ranges, s.table) ==> e.uuid <= s.guard || e.uuid > s.cursor)
    || (s.recorded.Some? && s.guard == s.recorded.value.upTo && s.recorded.value in s.table)
  }

  ghost predicate CountsOk(s: State) {
    s.issues == Counted(map[], UpTo(StoredRows(s.ranges, s.table), s.guard))
  }

  ghost predicate WorkerOk(s: State) {
    match s.worker
    case Idle => true
    case Reading(cursor, recorded) => cursor == s.cursor && recorded == s.recorded
    case Chosen(r, events, again) =>
      && r.after == s.cursor && FitsRead(s.events, r) && events == EventsOf(s.events, r)
      && (if again then s.recorded == Some(r) else s.recorded.None?)
    case Recording(r, events, again) =>
      && r.after == s.cursor && FitsRead(s.events, r) && events == EventsOf(s.events, r)
      && (if again then s.recorded == Some(r) else s.recorded.None? || s.recorded == Some(r))
    case Inserting(r, rows) => s.recorded == Some(r) && rows == RowsOf(EventsOf(s.events, r))
    case Inserted(r, rows) =>
      && s.recorded == Some(r) && rows == RowsOf(EventsOf(s.events, r))
      && (rows != [] ==> r in s.table)
    case Counting(r) =>
      || (s.recorded == Some(r) && (s.guard == r.upTo || RowsOf(EventsOf(s.events, r)) == []))
      || (s.recorded.None? && s.cursor == r.upTo)
  }

  ghost predicate Inv(s: State) {
    EventsOk(s) && RangesOk(s) && TableOk(s) && GuardOk(s) && CountsOk(s) && WorkerOk(s)
  }

  /** A range and its rows are as they were once a later Event is written. */
  lemma WriteKeeps(s: State, e: Event)
    requires Inv(s) && Enabled(s, Write(e))
    ensures Inv(Apply(s, Write(e)))
  {
    LastIsLargest(s.events);
    WriteKeepsRanges(s, e);
    assert EventsOk(s.(events := s.events + [e]));
  }

  lemma WriteKeepsRanges(s: State, e: Event)
    requires RangesOk(s) && TableOk(s) && WorkerOk(s) && e.uuid > LastUuid(s.events)
    ensures var s' := s.(events := s.events + [e]); RangesOk(s') && TableOk(s') && WorkerOk(s')
  {
    forall r: Range | r.upTo <= LastUuid(s.events)
      ensures EventsOf(s.events + [e], r) == EventsOf(s.events, r)
    {
      BetweenAppend(s.events, e, r.after, r.upTo);
    }
    RangesBelowLast(s);
  }

  lemma LastIsLargest(events: seq<Event>)
    requires Sorted(events)
    ensures forall e :: e in events ==> e.uuid <= LastUuid(events)
  {
    forall e | e in events
      ensures e.uuid <= LastUuid(events)
    {
      var i :| 0 <= i < |events| && events[i] == e;
    }
  }

  lemma RangesBelowLast(s: State)
    requires RangesOk(s)
    ensures forall r :: r in s.ranges ==> r.upTo <= LastUuid(s.events)
  {
    PL.LinkedIncreasing(s.ranges);
  }

  /** A prefix of what one read gave is a range that fits a read. */
  lemma PrefixIsRange(events: seq<Event>, after: nat, read: seq<Event>)
    requires Sorted(events) && read <= After(events, after) && 0 < |read| <= BATCH_SIZE
    ensures var r := PL.Token(after, LastUuid(read)); FitsRead(events, r) && EventsOf(events, r) == read
  {
    var all := After(events, after);
    AfterMembers(events, after);
    UpToIsPrefix(all, |read|, LastUuid(read));
    assert read[|read| - 1] in all && all[..|read|] == read;
    LastIsLargest(events);
  }

  lemma ReadKeeps(s: State)
    requires Inv(s) && s.worker.Reading?
    ensures Inv(Apply(s, ReadEvents))
  {
    AfterMembers(s.events, s.cursor);
    var all := After(s.events, s.cursor);
    if s.recorded.Some? {
      ReadAgain(all, s.recorded.value.upTo);
    } else if all != [] {
      PrefixIsRange(s.events, s.cursor, First(all, BATCH_SIZE));
    }
  }

  lemma IssueWorkKeeps(s: State, count: nat)
    requires Inv(s) && Enabled(s, IssueWork(count))
    ensures Inv(Apply(s, IssueWork(count)))
  {
    if s.worker.again {
      assert s.worker.events[..count] == s.worker.events;
    } else {
      StopIsRange(s.events, s.worker.range, count);
    }
  }

  lemma StopIsRange(events: seq<Event>, r: Range, count: nat)
    requires Sorted(events) && FitsRead(events, r) && 0 < count <= |EventsOf(events, r)|
    ensures var read := EventsOf(events, r)[..count];
            var cut := PL.Token(r.after, LastUuid(read));
            FitsRead(events, cut) && EventsOf(events, cut) == read
  {
    var all := After(events, r.after);
    AfterMembers(events, r.after);
    var k := PrefixLength(all, r.upTo);
    assert EventsOf(events, r)[..count] == all[..count];
    PrefixIsRange(events, r.after, all[..count]);
  }

  /** A range's rows are of Events in it. */
  lemma RangeRows(events: seq<Event>, r: Range)
    requires Sorted(events)
    ensures forall e :: e in RowsOf(EventsOf(events, r)) <==> e in events && e.fate.Row? && r.after < e.uuid <= r.upTo
    ensures Sorted(RowsOf(EventsOf(events, r)))
  {
    BetweenMembers(events, r.after, r.upTo);
    RowsMembers(EventsOf(events, r));
  }

  lemma {:induction false} StoredBounds(events: seq<Event>, ranges: seq<Range>, table: map<Range, seq<Event>>)
    requires Sorted(events) && PL.Linked(ranges)
    requires forall r :: r in table ==> table[r] == RowsOf(EventsOf(events, r))
    ensures forall e :: e in StoredRows(ranges, table) ==> e.uuid <= PL.End(ranges)
    ensures Sorted(StoredRows(ranges, table))
  {
    if ranges != [] {
      var n := |ranges| - 1;
      StoredBounds(events, ranges[..n], table);
      RangeRows(events, ranges[n]);
      var before := StoredRows(ranges[..n], table);
      assert PL.End(ranges[..n]) == ranges[n].after;
      if ranges[n] in table {
        var rows := table[ranges[n]];
        forall i, j | 0 <= i < |before| && 0 <= j < |rows|
          ensures before[i].uuid < rows[j].uuid
        {
          assert before[i] in before && rows[j] in rows;
        }
      }
    }
  }

  lemma {:induction false} StoredUnaffected(ranges: seq<Range>, table: map<Range, seq<Event>>, r: Range,
                                            rows: seq<Event>)
    requires r !in ranges
    ensures StoredRows(ranges, table[r := rows]) == StoredRows(ranges, table)
  {
    if ranges != [] {
      StoredUnaffected(ranges[..|ranges| - 1], table, r, rows);
    }
  }

  /** The rows of the ranges done, then those of the recorded range. */
  lemma StoredSplits(s: State)
    requires EventsOk(s) && RangesOk(s) && TableOk(s) && s.recorded.Some?
    ensures var n := |s.ranges| - 1; var r := s.recorded.value; var before := StoredRows(s.ranges[..n], s.table);
            && StoredRows(s.ranges, s.table) == before + (if r in s.table then RowsOf(EventsOf(s.events, r)) else [])
            && (forall e :: e in before ==> e.uuid <= s.cursor)
            && (forall e :: e in RowsOf(EventsOf(s.events, r)) ==> s.cursor < e.uuid <= r.upTo)
            && r !in s.ranges[..n]
  {
    var n := |s.ranges| - 1;
    StoredBounds(s.events, s.ranges[..n], s.table);
    RangeRows(s.events, s.recorded.value);
    PL.LinkedIncreasing(s.ranges);
  }

  ghost predicate StoresOk(s: State) {
    EventsOk(s) && RangesOk(s) && TableOk(s) && GuardOk(s) && CountsOk(s)
  }

  lemma NewRangeKeepsStores(s: State, r: Range)
    requires StoresOk(s) && s.recorded.None? && r.after == s.cursor && FitsRead(s.events, r)
    ensures StoresOk(s.(recorded := Some(r), ranges := s.ranges + [r]))
  {
    var ranges := s.ranges + [r];
    PL.LinkedAppend(s.ranges, r);
    PL.LinkedIncreasing(s.ranges);
    assert r !in s.ranges && r !in s.table;
    assert ranges[..|s.ranges|] == s.ranges;
    assert StoredRows(ranges, s.table) == StoredRows(s.ranges, s.table);
  }

  lemma RecordKeeps(s: State, done: bool, ok: bool)
    requires Inv(s) && Enabled(s, Record(done, ok))
    ensures Inv(Apply(s, Record(done, ok)))
  {
    var r := s.worker.range;
    if !s.worker.again && done && s.recorded != Some(r) {
      NewRangeKeepsStores(s, r);
      RecordedWorker(s, ok);
    }
  }

  lemma RecordedWorker(s: State, ok: bool)
    requires s.worker.Recording? && !s.worker.again && WorkerOk(s) && s.recorded != Some(s.worker.range)
    ensures WorkerOk(Apply(s, Record(true, ok)))
  {
  }

  /** The recorded range's rows, once stored, come after the others and past the guard. */
  lemma StoreRange(s: State)
    requires StoresOk(s) && s.recorded.Some? && s.recorded.value !in s.table
    requires RowsOf(EventsOf(s.events, s.recorded.value)) != []
    ensures var r := s.recorded.value; var rows := RowsOf(EventsOf(s.events, r));
            StoredRows(s.ranges, s.table[r := rows]) == StoredRows(s.ranges, s.table) + rows
    ensures forall e :: e in RowsOf(EventsOf(s.events, s.recorded.value)) ==> e.uuid > s.cursor >= s.guard
  {
    StoredSplits(s);
    StoredLast(s, RowsOf(EventsOf(s.events, s.recorded.value)));
  }

  lemma StoredLast(s: State, rows: seq<Event>)
    requires RangesOk(s) && s.recorded.Some? && s.recorded.value !in s.table
    requires s.recorded.value !in s.ranges[..|s.ranges| - 1]
    ensures StoredRows(s.ranges, s.table[s.recorded.value := rows]) == StoredRows(s.ranges, s.table) + rows
  {
    StoredInsertLast(s.ranges, s.table, rows);
  }

  lemma StoredInsertLast(ranges: seq<Range>, table: map<Range, seq<Event>>, rows: seq<Event>)
    requires ranges != []
    requires ranges[|ranges| - 1] !in ranges[..|ranges| - 1] && ranges[|ranges| - 1] !in table
    ensures StoredRows(ranges, table[ranges[|ranges| - 1] := rows]) == StoredRows(ranges, table) + rows
  {
    var n := |ranges| - 1;
    StoredUnaffected(ranges[..n], table, ranges[n], rows);
    assert StoredRows(ranges, table) == StoredRows(ranges[..n], table);
  }

  lemma StoreRangeKeepsTable(s: State)
    requires EventsOk(s) && RangesOk(s) && TableOk(s) && s.recorded.Some? && s.recorded.value !in s.table
    requires RowsOf(EventsOf(s.events, s.recorded.value)) != []
    ensures var r := s.recorded.value; TableOk(s.(table := s.table[r := RowsOf(EventsOf(s.events, r))]))
  {
    var r := s.recorded.value;
    assert r in s.ranges;
  }

  /** Rows stored past the cursor leave the guard's place and what is counted. */
  lemma StoreRangeKeepsCounts(s: State, table: map<Range, seq<Event>>, rows: seq<Event>)
    requires GuardOk(s) && CountsOk(s) && s.recorded.Some? && s.recorded.value !in s.table
    requires StoredRows(s.ranges, table) == StoredRows(s.ranges, s.table) + rows
    requires forall e :: e in rows ==> e.uuid > s.cursor >= s.guard
    ensures GuardOk(s.(table := table)) && CountsOk(s.(table := table))
  {
    var stored := StoredRows(s.ranges, s.table);
    UpToConcat(stored, rows, s.guard);
    UpToNone(rows, s.guard);
    assert UpTo(stored + rows, s.guard) == UpTo(stored, s.guard);
  }

  lemma StoreRangeKeepsStores(s: State)
    requires StoresOk(s) && s.recorded.Some? && s.recorded.value !in s.table
    requires RowsOf(EventsOf(s.events, s.recorded.value)) != []
    ensures var r := s.recorded.value; StoresOk(s.(table := s.table[r := RowsOf(EventsOf(s.events, r))]))
  {
    var r := s.recorded.value;
    var rows := RowsOf(EventsOf(s.events, r));
    StoreRange(s);
    StoreRangeKeepsTable(s);
    StoreRangeKeepsCounts(s, s.table[r := rows], rows);
  }

  lemma InsertKeeps(s: State, done: bool, ok: bool)
    requires Inv(s) && Enabled(s, Insert(done, ok))
    ensures Inv(Apply(s, Insert(done, ok)))
  {
    if done && s.worker.rows != [] && s.worker.range !in s.table {
      StoreRangeKeepsStores(s);
    }
  }

  /** Counting the recorded range's rows counts every row stored. */
  lemma CountRangeKeepsStores(s: State)
    requires StoresOk(s) && s.recorded.Some? && s.recorded.value in s.table
    requires s.recorded.value.upTo > s.guard
    ensures var r := s.recorded.value;
            StoresOk(s.(issues := Counted(s.issues, After(s.table[r], s.guard)), guard := r.upTo))
  {
    var r := s.recorded.value;
    var rows := s.table[r];
    var before := StoredRows(s.ranges[..|s.ranges| - 1], s.table);
    var stored := StoredRows(s.ranges, s.table);
    StoredSplits(s);
    assert stored == before + rows;
    forall e | e in before
      ensures e.uuid <= s.guard
    {
      assert e in stored;
    }
    AfterAll(rows, s.guard);
    UpToConcat(before, rows, s.guard);
    UpToAll(before, s.guard);
    UpToNone(rows, s.guard);
    StoredBounds(s.events, s.ranges, s.table);
    UpToAll(stored, r.upTo);
    CountedConcat(map[], before, rows);
    assert UpTo(stored, s.guard) == before;
  }

  lemma SeenKeeps(s: State, done: bool, ok: bool)
    requires Inv(s) && Enabled(s, RecordSeen(done, ok))
    ensures Inv(Apply(s, RecordSeen(done, ok)))
  {
    var s' := Apply(s, RecordSeen(done, ok));
    SeenWorker(s, done, ok);
    if s.worker.rows != [] && done && s.worker.range.upTo > s.guard {
      var counted := s.(issues := Counted(s.issues, After(s.worker.rows, s.guard)), guard := s.worker.range.upTo);
      CountRangeKeepsStores(s);
      RangesAsWere(counted, s'.worker);
      CountsAsWere(counted, s'.worker);
    } else {
      WorkerKeeps(s, s'.worker);
    }
  }

  lemma SeenWorker(s: State, done: bool, ok: bool)
    requires RangesOk(s) && GuardOk(s) && WorkerOk(s) && Enabled(s, RecordSeen(done, ok))
    ensures WorkerOk(Apply(s, RecordSeen(done, ok)))
    ensures !(s.worker.rows != [] && done && s.worker.range.upTo > s.guard) ==>
              Apply(s, RecordSeen(done, ok)) == s.(worker := Apply(s, RecordSeen(done, ok)).worker)
  {
  }

  lemma MoveKeeps(s: State, done: bool, ok: bool)
    requires Inv(s) && Enabled(s, MoveCursor(done, ok))
    ensures Inv(Apply(s, MoveCursor(done, ok)))
  {
    if done && s.recorded.Some? {
      MoveKeepsStores(s);
    }
  }

  /** The cursor moves past the recorded range once its rows are counted, or it has none. */
  lemma MoveKeepsStores(s: State)
    requires StoresOk(s) && s.recorded.Some?
    requires s.guard == s.recorded.value.upTo || RowsOf(EventsOf(s.events, s.recorded.value)) == []
    ensures StoresOk(s.(cursor := s.recorded.value.upTo, recorded := None))
  {
    var r := s.recorded.value;
    var stored := StoredRows(s.ranges, s.table);
    StoredSplits(s);
    StoredBounds(s.events, s.ranges, s.table);
    if s.guard != r.upTo {
      assert r !in s.table && stored == StoredRows(s.ranges[..|s.ranges| - 1], s.table);
    }
    var s' := s.(cursor := r.upTo, recorded := None);
    assert GuardOk(s');
    MoveKeepsTable(s);
  }

  lemma MoveKeepsTable(s: State)
    requires EventsOk(s) && RangesOk(s) && TableOk(s) && GuardOk(s) && s.recorded.Some?
    requires s.guard == s.recorded.value.upTo || RowsOf(EventsOf(s.events, s.recorded.value)) == []
    ensures TableOk(s.(cursor := s.recorded.value.upTo, recorded := None))
  {
    PL.LinkedIncreasing(s.ranges);
    forall r | r in s.ranges && r != s.recorded.value
      ensures r.upTo <= s.cursor
    {
      var i :| 0 <= i < |s.ranges| && s.ranges[i] == r;
    }
  }

  /** Only where the worker is changes. */
  lemma WorkerKeeps(s: State, worker: Worker)
    requires Inv(s) && WorkerOk(s.(worker := worker))
    ensures Inv(s.(worker := worker))
  {
    RangesAsWere(s, worker);
    CountsAsWere(s, worker);
  }

  lemma RangesAsWere(s: State, worker: Worker)
    requires EventsOk(s) && RangesOk(s) && TableOk(s)
    ensures var s' := s.(worker := worker); EventsOk(s') && RangesOk(s') && TableOk(s')
  {
  }

  lemma CountsAsWere(s: State, worker: Worker)
    requires GuardOk(s) && CountsOk(s)
    ensures var s' := s.(worker := worker); GuardOk(s') && CountsOk(s')
  {
  }

  lemma OnlyWorker(s: State)
    ensures Apply(s, Crash) == s.(worker := Idle)
    ensures s.worker.Idle? ==> Apply(s, Begin) == s.(worker := Reading(s.cursor, s.recorded))
  {
  }

  lemma BeginKeeps(s: State)
    requires Inv(s) && s.worker.Idle?
    ensures Inv(Apply(s, Begin))
  {
    OnlyWorker(s);
    WorkerKeeps(s, Reading(s.cursor, s.recorded));
  }

  lemma CrashKeeps(s: State)
    requires Inv(s)
    ensures Inv(Apply(s, Crash))
  {
    OnlyWorker(s);
    WorkerKeeps(s, Idle);
  }

  lemma StepKeeps(s: State, a: Action)
    requires Inv(s)
    ensures Inv(Apply(s, a))
  {
    if !Enabled(s, a) {
      assert Apply(s, a) == s;
    } else {
      match a
      case Write(e) => WriteKeeps(s, e);
      case Begin => BeginKeeps(s);
      case ReadEvents => ReadKeeps(s);
      case IssueWork(count) => IssueWorkKeeps(s, count);
      case Record(done, ok) => RecordKeeps(s, done, ok);
      case Insert(done, ok) => InsertKeeps(s, done, ok);
      case RecordSeen(done, ok) => SeenKeeps(s, done, ok);
      case MoveCursor(done, ok) => MoveKeeps(s, done, ok);
      case Crash => CrashKeeps(s);
    }
  }

  lemma {:induction false} RunKeeps(actions: seq<Action>)
    ensures Inv(Run(Init(), actions))
  {
    if actions != [] {
      RunKeeps(actions[..|actions| - 1]);
      StepKeeps(Run(Init(), actions[..|actions| - 1]), actions[|actions| - 1]);
    }
  }

  // ---- What the runs give

  /** In every run, whatever failed and however often the process crashed, each Issue's row counts
      exactly its stored Events at or below the seen guard: how many there are, and the earliest and the
      latest of their times. */
  lemma TimesSeenIsExact(actions: seq<Action>, issue: nat)
    ensures var s := Run(Init(), actions);
            var own := OfIssue(UpTo(StoredRows(s.ranges, s.table), s.guard), issue);
            && (issue in s.issues <==> own != [])
            && (issue in s.issues ==>
                  && s.issues[issue].times == |own|
                  && (forall e :: e in own ==>
                    e.fate.Row? && s.issues[issue].first <= e.fate.at <= s.issues[issue].last)
                  && (exists e :: e in own && e.fate.at == s.issues[issue].first)
                  && (exists e :: e in own && e.fate.at == s.issues[issue].last))
  {
    RunKeeps(actions);
    var s := Run(Init(), actions);
    CountedMeaning(UpTo(StoredRows(s.ranges, s.table), s.guard), issue);
  }

  lemma {:induction false} StoredMembers(ranges: seq<Range>, table: map<Range, seq<Event>>, i: nat, e: Event)
    requires i < |ranges| && ranges[i] in table && e in table[ranges[i]]
    ensures e in StoredRows(ranges, table)
  {
    if i < |ranges| - 1 {
      StoredMembers(ranges[..|ranges| - 1], table, i, e);
    }
  }

  lemma {:induction false} CoveringRange(ranges: seq<Range>, uuid: nat) returns (i: nat)
    requires PL.Linked(ranges) && 0 < uuid <= PL.End(ranges)
    ensures i < |ranges| && ranges[i].after < uuid <= ranges[i].upTo
  {
    var n := |ranges| - 1;
    if ranges[n].after < uuid {
      i := n;
    } else {
      i := CoveringRange(ranges[..n], uuid);
    }
  }

  /** In every run, no Event's row is stored twice, and every Event at or below the cursor whose row
      the table can hold is stored. */
  lemma EventStoredOnce(actions: seq<Action>)
    ensures var s := Run(Init(), actions); var stored := StoredRows(s.ranges, s.table);
            && (forall i, j :: 0 <= i < j < |stored| ==> stored[i].uuid != stored[j].uuid)
            && (forall e :: e in s.events && e.fate.Row? && e.uuid <= s.cursor ==> e in stored)
  {
    RunKeeps(actions);
    var s := Run(Init(), actions);
    var stored := StoredRows(s.ranges, s.table);
    StoredBounds(s.events, s.ranges, s.table);
    PL.LinkedIncreasing(s.ranges);
    forall e | e in s.events && e.fate.Row? && e.uuid <= s.cursor
      ensures e in stored
    {
      CursorAtEnd(s);
      var i := CoveringRange(s.ranges, e.uuid);
      RangeRows(s.events, s.ranges[i]);
      assert s.ranges[i].upTo <= s.cursor;
      StoredMembers(s.ranges, s.table, i, e);
    }
  }

  lemma CursorAtEnd(s: State)
    requires RangesOk(s)
    ensures s.cursor <= PL.End(s.ranges)
    ensures forall r :: r in s.ranges && r.after < s.cursor ==> r.upTo <= s.cursor
  {
    PL.LinkedIncreasing(s.ranges);
    if s.recorded.Some? {
      var n := |s.ranges| - 1;
      forall r | r in s.ranges && r.after < s.cursor
        ensures r.upTo <= s.cursor
      {
        var i :| 0 <= i < |s.ranges| && s.ranges[i] == r;
        assert i < n;
      }
    }
  }

  /** Replay is the same range: in every run, with a range recorded past the cursor, the worker
      chooses exactly the Events it first covered, under the same token. */
  lemma ReplayInEveryRun(actions: seq<Action>)
    requires var s := Run(Init(), actions); s.worker.Reading? && s.recorded.Some?
    ensures var s := Run(Init(), actions); var r := s.recorded.value;
            EventsOf(s.events, r) != [] && Apply(s, ReadEvents).worker == Chosen(r, EventsOf(s.events, r), true)
  {
    RunKeeps(actions);
    ReplayIsSame(Run(Init(), actions));
  }

  lemma ReplayIsSame(s: State)
    requires EventsOk(s) && RangesOk(s) && WorkerOk(s) && s.worker.Reading? && s.recorded.Some?
    ensures var r := s.recorded.value;
            EventsOf(s.events, r) != [] && Apply(s, ReadEvents).worker == Chosen(r, EventsOf(s.events, r), true)
  {
    AfterMembers(s.events, s.cursor);
    ReadAgain(After(s.events, s.cursor), s.recorded.value.upTo);
  }

  // ---- What is written is what is stored

  lemma EventsGrow(s: State, a: Action)
    ensures s.events <= Apply(s, a).events
  {
  }

  lemma {:induction false} EventsStay(actions: seq<Action>, k: nat)
    requires k <= |actions|
    ensures Run(Init(), actions[..k]).events <= Run(Init(), actions).events
  {
    if k == |actions| {
      assert actions[..k] == actions;
    } else {
      var n := |actions| - 1;
      EventsStay(actions[..n], k);
      assert actions[..n][..k] == actions[..k];
      EventsGrow(Run(Init(), actions[..n]), actions[n]);
    }
  }

  /** No written Event is lost or changed on its way: in every run it is among the Events to the end, and once
      the cursor is at or past it its row, if the table can hold one, is stored. */
  lemma WrittenIsStored(actions: seq<Action>, k: nat)
    requires k < |actions| && actions[k].Write? && Enabled(Run(Init(), actions[..k]), actions[k])
    ensures var s, e := Run(Init(), actions), actions[k].event;
            e in s.events && (e.fate.Row? && e.uuid <= s.cursor ==> e in StoredRows(s.ranges, s.table))
  {
    var before, through := Run(Init(), actions[..k]), Run(Init(), actions[..k + 1]);
    assert actions[..k + 1][..k] == actions[..k];
    assert through.events[|before.events|] == actions[k].event;
    EventsStay(actions, k + 1);
    EventStoredOnce(actions);
  }

  lemma {:induction false} UpToSame(events: seq<Event>, a: nat, b: nat)
    requires a <= b && forall e :: e in events ==> e.uuid <= a || e.uuid > b
    ensures UpTo(events, a) == UpTo(events, b)
  {
    if events != [] {
      var n := |events| - 1;
      assert events[n] in events;
      UpToSame(events[..n], a, b);
    }
  }

  /** In every run, with no range recorded past the cursor, the Issues' rows count every stored Event at or below
      the cursor, and no other. */
  lemma CountsReachCursor(actions: seq<Action>)
    requires Run(Init(), actions).recorded.None?
    ensures var s := Run(Init(), actions); s.issues == Counted(map[], UpTo(StoredRows(s.ranges, s.table), s.cursor))
  {
    RunKeeps(actions);
    var s := Run(Init(), actions);
    UpToSame(StoredRows(s.ranges, s.table), s.guard, s.cursor);
  }

  // ---- A pass without failures makes progress

  /** processBatch up to its first write: the Events chosen, all of their Issue work done. */
  function Prepared(s: State): State {
    var chosen := Apply(Apply(s, Begin), ReadEvents);
    if chosen.worker.Chosen? then Apply(chosen, IssueWork(|chosen.worker.events|)) else chosen
  }

  /** Its writes when nothing fails. */
  function Written(s: State): State {
    var inserted := Apply(Apply(s, Record(true, true)), Insert(true, true));
    Apply(Apply(inserted, RecordSeen(true, true)), MoveCursor(true, true))
  }

  /** While an Event is past the cursor, a pass in which nothing fails moves the cursor past it or past as many
      as one batch holds, in whatever state a crash left the stores: from the recorded range's end on, if one
      was recorded. */
  lemma PassMovesCursor(s: State)
    requires Inv(s) && s.worker.Idle? && s.cursor < LastUuid(s.events)
    ensures var s' := Written(Prepared(s));
            && Inv(s') && s'.worker.Idle? && s'.recorded.None? && s.cursor < s'.cursor
            && (s.recorded.Some? ==> s'.cursor == s.recorded.value.upTo)
            && (s.recorded.None? ==>
                  || (|EventsOf(s.events, PL.Token(s.cursor, s'.cursor))| == BATCH_SIZE)
                  || s'.cursor == LastUuid(s.events))
  {
    var recording := PrepareReads(s);
    WritesMove(recording);
  }

  /** A range to record: the recorded one again, or that of the first Events past the cursor. */
  ghost predicate NextRange(s: State, r: Range) {
    && r.after == s.cursor
    && if s.recorded.Some? then r == s.recorded.value
       else |EventsOf(s.events, r)| == BATCH_SIZE || r.upTo == LastUuid(s.events)
  }

  lemma PrepareReads(s: State) returns (recording: State)
    requires Inv(s) && s.worker.Idle? && s.cursor < LastUuid(s.events)
    ensures recording == Prepared(s) && Inv(recording) && recording.worker.Recording?
    ensures NextRange(s, recording.worker.range)
    ensures recording == s.(worker := recording.worker)
  {
    StepKeeps(s, Begin);
    var chosen := ReadChooses(Apply(s, Begin));
    recording := IssueAll(chosen);
  }

  lemma IssueAll(chosen: State) returns (recording: State)
    requires Inv(chosen) && chosen.worker.Chosen? && chosen.worker.events != []
    requires chosen.worker.again || chosen.worker.range.upTo == LastUuid(chosen.worker.events)
    ensures recording == Apply(chosen, IssueWork(|chosen.worker.events|)) && Inv(recording)
    ensures recording == chosen.(worker := recording.worker)
    ensures recording.worker.Recording? && recording.worker.range == chosen.worker.range
  {
    recording := Apply(chosen, IssueWork(|chosen.worker.events|));
    IssueWorkKeeps(chosen, |chosen.worker.events|);
    assert chosen.worker.events[..|chosen.worker.events|] == chosen.worker.events;
    assert chosen.worker.again || chosen.worker.range == PL.Token(chosen.worker.range.after,
        LastUuid(chosen.worker.events));
  }

  lemma ReadChooses(s: State) returns (chosen: State)
    requires Inv(s) && s.worker.Reading? && s.cursor < LastUuid(s.events)
    ensures chosen == Apply(s, ReadEvents) && Inv(chosen)
    ensures chosen.worker.Chosen? && chosen.worker.events != [] && NextRange(s, chosen.worker.range)
    ensures chosen.worker.again || chosen.worker.range.upTo == LastUuid(chosen.worker.events)
    ensures chosen == s.(worker := chosen.worker)
  {
    chosen := Apply(s, ReadEvents);
    ReadKeeps(s);
    ReadLeaves(s);
    if s.recorded.Some? {
      ReadRecorded(s);
    } else {
      ReadFresh(s);
    }
  }

  lemma ReadLeaves(s: State)
    requires s.worker.Reading?
    ensures Apply(s, ReadEvents) == s.(worker := Apply(s, ReadEvents).worker)
  {
  }

  lemma ReadRecorded(s: State)
    requires EventsOk(s) && RangesOk(s) && WorkerOk(s) && s.worker.Reading? && s.recorded.Some?
    ensures var chosen := Apply(s, ReadEvents);
            && chosen.worker.Chosen? && chosen.worker.events != [] && NextRange(s, chosen.worker.range)
            && chosen.worker.again
  {
    ReplayIsSame(s);
  }

  lemma ReadFresh(s: State)
    requires EventsOk(s) && WorkerOk(s) && s.worker.Reading? && s.recorded.None? && s.cursor < LastUuid(s.events)
    ensures var chosen := Apply(s, ReadEvents);
            && chosen.worker.Chosen? && chosen.worker.events != [] && NextRange(s, chosen.worker.range)
            && chosen.worker.range.upTo == LastUuid(chosen.worker.events)
  {
    FreshReads(s.events, s.cursor);
  }

  /** The first Events past a UUID: as many as one batch holds, or all. */
  lemma FreshReads(events: seq<Event>, after: nat)
    requires Sorted(events) && after < LastUuid(events)
    ensures var read := First(After(events, after), BATCH_SIZE);
            && read != [] && EventsOf(events, PL.Token(after, LastUuid(read))) == read
            && (|read| == BATCH_SIZE || LastUuid(read) == LastUuid(events))
  {
    var all := After(events, after);
    AfterMembers(events, after);
    assert events[|events| - 1] in all;
    PrefixIsRange(events, after, First(all, BATCH_SIZE));
    LastIsLargest(all);
    assert all[|all| - 1] in events;
    LastIsLargest(events);
  }

  lemma WritesMove(s: State)
    requires Inv(s) && s.worker.Recording?
    ensures var s' := Written(s);
            && Inv(s') && s'.worker.Idle? && s'.recorded.None?
            && s'.cursor == s.worker.range.upTo > s.cursor
  {
    var inserting := RecordGoesOn(s);
    var inserted := InsertGoesOn(inserting);
    var counting := CountGoesOn(inserted);
    MoveEnds(counting, s.cursor);
  }

  lemma RecordGoesOn(s: State) returns (next: State)
    requires Inv(s) && s.worker.Recording?
    ensures next == Apply(s, Record(true, true)) && Inv(next)
    ensures next.worker.Inserting? && next.worker.range == s.worker.range && next.cursor == s.cursor
  {
    next := Apply(s, Record(true, true));
    RecordKeeps(s, true, true);
    RecordLeaves(s);
  }

  lemma RecordLeaves(s: State)
    requires s.worker.Recording?
    ensures var next := Apply(s, Record(true, true));
            next.worker.Inserting? && next.worker.range == s.worker.range && next.cursor == s.cursor
  {
  }

  lemma InsertGoesOn(s: State) returns (next: State)
    requires Inv(s) && s.worker.Inserting?
    ensures next == Apply(s, Insert(true, true)) && Inv(next)
    ensures next.worker.Inserted? && next.worker.range == s.worker.range && next.cursor == s.cursor
  {
    next := Apply(s, Insert(true, true));
    InsertKeeps(s, true, true);
  }

  lemma CountGoesOn(s: State) returns (next: State)
    requires Inv(s) && s.worker.Inserted?
    ensures next == Apply(s, RecordSeen(true, true)) && Inv(next)
    ensures next.worker.Counting? && next.worker.range == s.worker.range
    ensures next.cursor == s.cursor < next.worker.range.upTo
  {
    next := Apply(s, RecordSeen(true, true));
    SeenKeeps(s, true, true);
  }

  lemma MoveEnds(s: State, was: nat)
    requires Inv(s) && s.worker.Counting? && was < s.worker.range.upTo
    ensures var s' := Apply(s, MoveCursor(true, true));
            Inv(s') && s'.worker.Idle? && s'.recorded.None? && s'.cursor == s.worker.range.upTo > was
  {
    MoveKeeps(s, true, true);
  }
}

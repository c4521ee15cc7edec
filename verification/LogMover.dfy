/** Log processing's move of Log batches from Pebble to ClickHouse, each Log exactly once
    (logprocessing/processor.go storeLogs, with storage/pebble_logs.go and
    storage/logs_clickhouse.go), as a state machine over one Project's steps: ingest writes, the
    worker's reads and writes, inserts that fail having stored or not, process crashes and power
    losses. Other Projects only raise the writer's floor. */
module LogMover {
  import opened LogBatches
  import opened PebbleLog
  import BatchIds

  /** Where the worker is in storeLogs, with what it holds; Down between a crash and a restart. */
  datatype Worker =
    | Down
    | Idle
    | Reading(cursor: Id, recorded: Id)
    | Chosen(range: Token, batches: seq<Batch>, again: bool)
    | Inserting(range: Token, batches: seq<Batch>)
    | Inserted(range: Token)
    | Moved(upTo: Id)

  /** logs is the logs table by dedup token, each with the batches whose Logs it stored; acked is
      the ranges whose insert returned without an error, with what it was sent. */
  datatype State = State(
    wal: seq<Write>,
    floor: Id,
    logs: map<Token, seq<Batch>>,
    acked: map<Token, seq<Batch>>,
    worker: Worker)

  /** One step. wrote and stored say whether a write that may fail took effect, ok whether it
      returned without an error. */
  datatype Action =
    | Ingest(candidate: Id, logs: seq<Log>)
    | OtherProject(id: Id)
    | Begin
    | ReadBatches
    | Record(wrote: bool, ok: bool)
    | Attempt(kept: seq<Batch>, stored: bool, ok: bool)
    | MoveCursor(wrote: bool, ok: bool)
    | Delete(wrote: bool)
    | GiveUp
    | Crash(length: nat)
    | Restart(deletes: bool)

  function Init(): State {
    State([], 0, map[], map[], Down)
  }

  /** The newest batch a reader sees, 0 if none. */
  function NewestLive(wal: seq<Write>): Id {
    var live := Live(wal);
    if live == [] then 0 else live[|live| - 1].id
  }

  ghost predicate Enabled(s: State, a: Action) {
    match a
    case Ingest(candidate, logs) =>
      && s.worker != Down && BatchIds.CanChoose(s.floor, candidate)
      && DistinctIds(logs) && IdsOf(logs) !! LogIds(Written(s.wal))
    case OtherProject(_) => s.worker != Down
    case Begin => s.worker.Idle?
    case ReadBatches => s.worker.Reading?
    case Record(wrote, ok) => s.worker.Chosen? && (ok ==> wrote)
    case Attempt(kept, stored, ok) =>
      && s.worker.Inserting? && KeptOf(kept, s.worker.batches)
      && (ok && Rows(kept) != [] ==> stored)
    case MoveCursor(wrote, ok) => s.worker.Inserted? && (ok ==> wrote)
    case Delete(_) => s.worker.Moved?
    case GiveUp => s.worker != Down
    case Crash(kept) => Synced(s.wal) <= kept <= |s.wal|
    case Restart(_) => s.worker.Down?
  }

  /** An insert under a token the table has is dropped: the first write wins. */
  ghost function Insert(logs: map<Token, seq<Batch>>, t: Token, kept: seq<Batch>): map<Token, seq<Batch>> {
    if t in logs || Rows(kept) == [] then logs else logs[t := kept]
  }

  ghost function Apply(s: State, a: Action): State {
    if !Enabled(s, a) then s
    else
      match a
      case Ingest(candidate, logs) =>
        var id := BatchIds.Chosen(s.floor, candidate);
        s.(wal := s.wal + [SetBatch(Batch(id, logs))], floor := id)
      case OtherProject(id) => s.(floor := BatchIds.Max(s.floor, id))
      case Begin => s.(worker := Reading(Cursor(s.wal), Recorded(s.wal)))
      case ReadBatches =>
        var (batches, again) := Selected(Live(s.wal), s.worker.cursor, s.worker.recorded);
        if batches == [] then s.(worker := Idle)
        else s.(worker := Chosen(Token(s.worker.cursor, batches[|batches| - 1].id), batches, again))
      case Record(wrote, ok) =>
        var next := if ok then Inserting(s.worker.range, s.worker.batches) else Idle;
        if s.worker.again then s.(worker := Inserting(s.worker.range, s.worker.batches))
        else if wrote then s.(wal := s.wal + [SetRecorded(s.worker.range.upTo)], worker := next)
        else s.(worker := next)
      case Attempt(kept, stored, ok) =>
        var t := s.worker.range;
        s.(logs := if stored then Insert(s.logs, t, kept) else s.logs,
           acked := if ok && t !in s.acked then s.acked[t := kept] else s.acked,
           worker := if ok then Inserted(t) else s.worker)
      case MoveCursor(wrote, ok) =>
        var upTo := s.worker.range.upTo;
        s.(wal := if wrote then s.wal + [SetCursor(upTo)] else s.wal,
           worker := if ok then Moved(upTo) else Idle)
      case Delete(wrote) =>
        s.(wal := if wrote then s.wal + [DeleteUpTo(s.worker.upTo)] else s.wal, worker := Idle)
      case GiveUp => s.(worker := Idle)
      case Crash(kept) => s.(wal := s.wal[..kept], floor := 0, worker := Down)
      case Restart(deletes) =>
        s.(wal := if deletes then s.wal + [DeleteUpTo(Cursor(s.wal))] else s.wal,
           floor := BatchIds.Max(NewestLive(s.wal), Cursor(s.wal)),
           worker := Idle)
  }

  ghost function Run(s: State, actions: seq<Action>): State {
    if actions == [] then s else Apply(Run(s, actions[..|actions| - 1]), actions[|actions| - 1])
  }

  // ---- What every step keeps

  ghost predicate TableOk(s: State) {
    forall t :: t in s.logs ==>
      t in Ranges(s.wal) && KeptOf(s.logs[t], RangeOf(s.wal, t)) && Rows(s.logs[t]) != []
  }

  ghost predicate AckedOk(s: State) {
    forall t :: t in s.acked ==>
      && t in Ranges(s.wal) && KeptOf(s.acked[t], RangeOf(s.wal, t))
      && (t !in s.logs ==> Rows(s.acked[t]) == [])
  }

  ghost predicate StoresOk(s: State) {
    WellFormed(s.wal, s.acked.Keys) && TableOk(s) && AckedOk(s)
  }

  ghost predicate WorkerOk(s: State) {
    match s.worker
    case Reading(cursor, recorded) => cursor == Cursor(s.wal) && recorded == Recorded(s.wal)
    case Chosen(t, batches, again) =>
      && t.after == Cursor(s.wal) && batches == RangeOf(s.wal, t)
      && (if again then t.after < t.upTo == Recorded(s.wal) else CanRecord(s.wal, t.upTo))
    case Inserting(t, batches) =>
      && t.after == Cursor(s.wal) < t.upTo == Recorded(s.wal) && batches == RangeOf(s.wal, t)
    case Inserted(t) => t.after == Cursor(s.wal) < t.upTo == Recorded(s.wal) && t in s.acked
    case Moved(upTo) => upTo == Cursor(s.wal)
    case _ => true
  }

  ghost predicate Inv(s: State) {
    && StoresOk(s)
    && (s.worker != Down ==> LastId(s.wal) <= s.floor)
    && WorkerOk(s)
  }

  /** A write that is fine keeps the stores as they were. */
  lemma AppendKeepsStores(s: State, write: Write)
    requires StoresOk(s) && WriteOk(s.wal, write, s.acked.Keys)
    ensures StoresOk(s.(wal := s.wal + [write]))
  {
    var after := s.wal + [write];
    AppendUnfolds(s.wal, write);
    IdsOrdered(s.wal, s.acked.Keys);
    forall t | t in Ranges(s.wal)
      ensures t in Ranges(after) && RangeOf(after, t) == RangeOf(s.wal, t)
    {
      RangeUpToRecorded(s.wal, s.acked.Keys, t);
      RangeKept(s.wal, write, s.acked.Keys, t);
    }
  }

  lemma CrashKeepsStores(s: State, kept: nat)
    requires StoresOk(s) && Synced(s.wal) <= kept <= |s.wal|
    ensures StoresOk(s.(wal := s.wal[..kept]))
  {
    WellFormedPrefix(s.wal, s.acked.Keys, kept);
    TruncationKeepsRanges(s.wal, s.acked.Keys, kept);
  }

  lemma IngestKeeps(s: State, candidate: Id, logs: seq<Log>)
    requires Inv(s) && Enabled(s, Ingest(candidate, logs))
    ensures Inv(Apply(s, Ingest(candidate, logs)))
  {
    var write := SetBatch(Batch(BatchIds.Chosen(s.floor, candidate), logs));
    AppendUnfolds(s.wal, write);
    AppendKeepsStores(s, write);
    IngestKeepsWorker(s, write.batch);
  }

  lemma IngestKeepsWorker(s: State, b: Batch)
    requires Inv(s) && WriteOk(s.wal, SetBatch(b), s.acked.Keys)
    ensures WorkerOk(s.(wal := s.wal + [SetBatch(b)]))
  {
    AppendUnfolds(s.wal, SetBatch(b));
    IdsOrdered(s.wal, s.acked.Keys);
    if s.worker.Chosen? || s.worker.Inserting? {
      RangeKept(s.wal, SetBatch(b), s.acked.Keys, s.worker.range);
    }
  }

  lemma ReadKeeps(s: State)
    requires Inv(s) && s.worker.Reading?
    ensures Inv(Apply(s, ReadBatches))
  {
    if Recorded(s.wal) > Cursor(s.wal) {
      ReplayIsSameRange(s.wal, s.acked.Keys);
      RecordedRangeReads(s.wal, s.acked.Keys);
    } else {
      FreshRangeReads(s.wal, s.acked.Keys);
    }
  }

  lemma RecordKeeps(s: State, wrote: bool, ok: bool)
    requires Inv(s) && Enabled(s, Record(wrote, ok))
    ensures Inv(Apply(s, Record(wrote, ok)))
  {
    if !s.worker.again && wrote {
      AppendKeepsStores(s, SetRecorded(s.worker.range.upTo));
      RecordedWorker(s, ok);
    }
  }

  lemma RecordedWorker(s: State, ok: bool)
    requires s.worker.Chosen? && !s.worker.again && WorkerOk(s)
    ensures var s' := Apply(s, Record(true, ok)); WorkerOk(s') && LastId(s'.wal) == LastId(s.wal)
  {
    AppendUnfolds(s.wal, SetRecorded(s.worker.range.upTo));
  }

  lemma AttemptKeeps(s: State, kept: seq<Batch>, stored: bool, ok: bool)
    requires Inv(s) && Enabled(s, Attempt(kept, stored, ok))
    ensures Inv(Apply(s, Attempt(kept, stored, ok)))
  {
    var s' := Apply(s, Attempt(kept, stored, ok));
    RangesLinked(s.wal, s.acked.Keys);
    assert s.worker.range in Ranges(s.wal);
    WellFormedMore(s.wal, s.acked.Keys, s'.acked.Keys);
    AttemptKeepsTables(s, kept, stored, ok);
  }

  /** What an attempt stores, or is told it stored, is of its range. */
  lemma AttemptKeepsTables(s: State, kept: seq<Batch>, stored: bool, ok: bool)
    requires TableOk(s) && AckedOk(s) && Enabled(s, Attempt(kept, stored, ok))
    requires s.worker.range in Ranges(s.wal) && s.worker.batches == RangeOf(s.wal, s.worker.range)
    ensures TableOk(Apply(s, Attempt(kept, stored, ok))) && AckedOk(Apply(s, Attempt(kept, stored, ok)))
  {
  }

  lemma MoveKeeps(s: State, wrote: bool, ok: bool)
    requires Inv(s) && Enabled(s, MoveCursor(wrote, ok))
    ensures Inv(Apply(s, MoveCursor(wrote, ok)))
  {
    if wrote {
      var write := SetCursor(s.worker.range.upTo);
      AppendKeepsStores(s, write);
      AppendUnfolds(s.wal, write);
    }
  }

  lemma DeleteKeeps(s: State, id: Id)
    requires StoresOk(s) && id <= Cursor(s.wal)
    ensures StoresOk(s.(wal := s.wal + [DeleteUpTo(id)]))
    ensures LastId(s.wal + [DeleteUpTo(id)]) == LastId(s.wal)
    ensures Cursor(s.wal + [DeleteUpTo(id)]) == Cursor(s.wal)
  {
    AppendKeepsStores(s, DeleteUpTo(id));
    AppendUnfolds(s.wal, DeleteUpTo(id));
  }

  /** Seeded from Pebble and the cursor, a restarted writer's floor is at or above every batch id
      the log wrote, deleted or not, so no later batch comes at or below one. */
  lemma FloorAfterRestart(s: State)
    requires StoresOk(s)
    ensures LastId(s.wal) <= BatchIds.Max(NewestLive(s.wal), Cursor(s.wal))
  {
    var w := Written(s.wal);
    if LastId(s.wal) > Cursor(s.wal) {
      var last := w[|w| - 1];
      LivePastCursor(s.wal, s.acked.Keys, Cursor(s.wal));
      LiveWritten(s.wal, s.acked.Keys);
      AfterMembers(w, Cursor(s.wal));
      AfterMembers(Live(s.wal), Cursor(s.wal));
      assert last in Live(s.wal);
      var i :| 0 <= i < |Live(s.wal)| && Live(s.wal)[i] == last;
    }
  }

  /** A step but a crash leaves the write log as it was or adds one write that is fine. */
  lemma StepWrites(s: State, a: Action) returns (writes: seq<Write>)
    requires Inv(s) && !(a.Crash? && Enabled(s, a))
    ensures Apply(s, a).wal == s.wal + writes && |writes| <= 1
    ensures writes != [] ==> WriteOk(s.wal, writes[0], s.acked.Keys)
    ensures !a.Record? && writes != [] ==> !writes[0].SetRecorded?
  {
    writes := [];
    if Enabled(s, a) {
      match a
      case Ingest(candidate, logs) =>
        IdsOrdered(s.wal, s.acked.Keys);
        writes := [SetBatch(Batch(BatchIds.Chosen(s.floor, candidate), logs))];
      case Record(true, _) => writes := if s.worker.again then [] else [SetRecorded(s.worker.range.upTo)];
      case MoveCursor(true, _) => writes := [SetCursor(s.worker.range.upTo)];
      case Delete(true) => writes := [DeleteUpTo(s.worker.upTo)];
      case Restart(true) => writes := [DeleteUpTo(Cursor(s.wal))];
      case _ =>
    }
  }

  lemma StepKeeps(s: State, a: Action)
    requires Inv(s)
    ensures Inv(Apply(s, a))
  {
    if Enabled(s, a) {
      match a
      case Ingest(candidate, logs) => IngestKeeps(s, candidate, logs);
      case ReadBatches => ReadKeeps(s);
      case Record(wrote, ok) => RecordKeeps(s, wrote, ok);
      case Attempt(kept, stored, ok) => AttemptKeeps(s, kept, stored, ok);
      case MoveCursor(wrote, ok) => MoveKeeps(s, wrote, ok);
      case Delete(wrote) => DeleteKeeps(s, s.worker.upTo);
      case Crash(kept) => CrashKeepsStores(s, kept);
      case Restart(deletes) =>
        FloorAfterRestart(s);
        DeleteKeeps(s, Cursor(s.wal));
      case _ =>
    }
  }

  /** Every state of every run keeps the invariant. */
  lemma {:induction false} RunKeeps(actions: seq<Action>)
    ensures Inv(Run(Init(), actions))
  {
    if actions != [] {
      RunKeeps(actions[..|actions| - 1]);
      StepKeeps(Run(Init(), actions[..|actions| - 1]), actions[|actions| - 1]);
    }
  }

  // ---- What the runs give

  /** A range holds only batches of the log, and ranges share none. */
  lemma RangesApart(wal: seq<Write>, acked: set<Token>, i: nat, j: nat, b: Batch)
    requires WellFormed(wal, acked) && i < |Ranges(wal)| && j < |Ranges(wal)|
    requires b in RangeOf(wal, Ranges(wal)[i]) && b in RangeOf(wal, Ranges(wal)[j])
    ensures i == j
  {
    WrittenSorted(wal, acked);
    BetweenMembers(Written(wal), Ranges(wal)[i].after, Ranges(wal)[i].upTo);
    BetweenMembers(Written(wal), Ranges(wal)[j].after, Ranges(wal)[j].upTo);
    RangesLinked(wal, acked);
    LinkedIncreasing(Ranges(wal));
  }

  /** The batches of a range, as those of the whole log, share no Log. */
  lemma RangeApartLogs(wal: seq<Write>, acked: set<Token>, t: Token)
    requires WellFormed(wal, acked)
    ensures ApartLogs(RangeOf(wal, t))
  {
    var all, range := Written(wal), RangeOf(wal, t);
    WrittenSorted(wal, acked);
    BetweenMembers(all, t.after, t.upTo);
    forall i, j | 0 <= i < j < |range|
      ensures IdsOf(range[i].logs) !! IdsOf(range[j].logs)
    {
      assert range[i] in all && range[j] in all;
      SameLogSameBatch(all, range[i], range[j]);
    }
  }

  lemma SameLogSameBatch(batches: seq<Batch>, a: Batch, b: Batch)
    requires ApartLogs(batches) && a in batches && b in batches && a != b
    ensures IdsOf(a.logs) !! IdsOf(b.logs)
  {
    var i :| 0 <= i < |batches| && batches[i] == a;
    var j :| 0 <= j < |batches| && batches[j] == b;
    assert i < j || j < i;
  }

  /** The batch of a stored row, which is in its token's range and arrived with the row's Log. */
  lemma StoredRowSource(s: State, t: Token, i: nat) returns (b: Batch)
    requires StoresOk(s) && t in s.logs && i < |Rows(s.logs[t])|
    ensures b in RangeOf(s.wal, t) && b.id == Rows(s.logs[t])[i].batch
    ensures Rows(s.logs[t])[i].log.id in IdsOf(b.logs)
  {
    var k := RowSource(s.logs[t], i);
    b := RangeOf(s.wal, t)[k];
    assert Rows(s.logs[t])[i].log.id in IdsOf(s.logs[t][k].logs);
  }

  /** Exactly once, first half: in every run, no Log id is in the logs table twice, under one
      token or two, whatever the Log transform answered on each try. */
  lemma StoredAtMostOnce(actions: seq<Action>, t: Token, i: nat, u: Token, j: nat)
    requires var s := Run(Init(), actions);
             && t in s.logs && u in s.logs && i < |Rows(s.logs[t])| && j < |Rows(s.logs[u])|
             && Rows(s.logs[t])[i].log.id == Rows(s.logs[u])[j].log.id
    ensures t == u && i == j
  {
    RunKeeps(actions);
    RowsApart(Run(Init(), actions), t, i, u, j);
  }

  lemma RowsApart(s: State, t: Token, i: nat, u: Token, j: nat)
    requires StoresOk(s)
    requires t in s.logs && u in s.logs && i < |Rows(s.logs[t])| && j < |Rows(s.logs[u])|
    requires Rows(s.logs[t])[i].log.id == Rows(s.logs[u])[j].log.id
    ensures t == u && i == j
  {
    var acked := s.acked.Keys;
    var a := StoredRowSource(s, t, i);
    var b := StoredRowSource(s, u, j);
    WrittenSorted(s.wal, acked);
    BetweenMembers(Written(s.wal), t.after, t.upTo);
    BetweenMembers(Written(s.wal), u.after, u.upTo);
    if a != b {
      SameLogSameBatch(Written(s.wal), a, b);
    }
    var ti :| 0 <= ti < |Ranges(s.wal)| && Ranges(s.wal)[ti] == t;
    var ui :| 0 <= ui < |Ranges(s.wal)| && Ranges(s.wal)[ui] == u;
    RangesApart(s.wal, acked, ti, ui, a);
    RangeApartLogs(s.wal, acked, t);
    if i < j {
      RowsDistinct(s.logs[t], RangeOf(s.wal, t), i, j);
    } else if j < i {
      RowsDistinct(s.logs[t], RangeOf(s.wal, t), j, i);
    }
  }

  /** The position among the recorded ranges of the one that covers an id up to the last. */
  lemma {:induction false} CoveringRange(ranges: seq<Token>, id: Id) returns (i: nat)
    requires Linked(ranges) && 0 < id <= End(ranges)
    ensures i < |ranges| && ranges[i].after < id <= ranges[i].upTo
  {
    var n := |ranges| - 1;
    if ranges[n].after < id {
      i := n;
    } else {
      i := CoveringRange(ranges[..n], id);
    }
  }

  /** The step at k was a try of an insert of the range, sent what is told. */
  ghost predicate Tried(actions: seq<Action>, k: nat, t: Token, kept: seq<Batch>) {
    && k < |actions| && actions[k].Attempt?
    && Enabled(Run(Init(), actions[..k]), actions[k])
    && Run(Init(), actions[..k]).worker.range == t
    && actions[k].kept == kept
  }

  /** It stored what it was sent, Logs among it, as the first to do so under its token. */
  ghost predicate FirstStored(actions: seq<Action>, k: nat, t: Token, kept: seq<Batch>) {
    Tried(actions, k, t, kept) && actions[k].stored && Rows(kept) != [] && t !in Run(Init(), actions[..k]).logs
  }

  /** It was the first under its token to return without an error. */
  ghost predicate FirstAcked(actions: seq<Action>, k: nat, t: Token, kept: seq<Batch>) {
    Tried(actions, k, t, kept) && actions[k].ok && t !in Run(Init(), actions[..k]).acked
  }

  /** In every run, what the table holds under a token is exactly what the first try that stored Logs
      under it was sent. */
  lemma {:induction false} StoredIsTried(actions: seq<Action>, t: Token) returns (k: nat)
    requires t in Run(Init(), actions).logs
    ensures FirstStored(actions, k, t, Run(Init(), actions).logs[t])
  {
    var n := |actions| - 1;
    var before := Run(Init(), actions[..n]);
    if t in before.logs {
      TablesKept(before, actions[n], t);
      k := StoredIsTried(actions[..n], t);
      assert actions[..n][..k] == actions[..k];
    } else {
      k := n;
    }
  }

  /** In every run, a range ClickHouse acknowledged was so by a try sent what acked tells. */
  lemma {:induction false} AckedIsTried(actions: seq<Action>, t: Token) returns (k: nat)
    requires t in Run(Init(), actions).acked
    ensures FirstAcked(actions, k, t, Run(Init(), actions).acked[t])
  {
    var n := |actions| - 1;
    var before := Run(Init(), actions[..n]);
    if t in before.acked {
      TablesKept(before, actions[n], t);
      k := AckedIsTried(actions[..n], t);
      assert actions[..n][..k] == actions[..k];
    } else {
      k := n;
    }
  }

  /** What the stores hold of a range in a run: what its first try that stored Logs was sent, or, if
      none did, nothing, its acknowledged try having been sent none. */
  ghost predicate StoredAsTried(actions: seq<Action>, t: Token) {
    var s := Run(Init(), actions);
    if t in s.logs then
      KeptOf(s.logs[t], RangeOf(s.wal, t)) && exists k :: FirstStored(actions, k, t, s.logs[t])
    else
      t in s.acked && Rows(s.acked[t]) == [] && exists k :: FirstAcked(actions, k, t, s.acked[t])
  }

  /** Exactly once, second half: in every run, a batch at or below the cursor is in exactly one
      recorded range; ClickHouse acknowledged that range, and holds under its token exactly what its
      first try that stored Logs was sent, which one try kept of exactly its batches, or no Log at all,
      the acknowledged try having kept none. */
  lemma BelowCursorStoredOnce(actions: seq<Action>, b: Batch)
    requires var s := Run(Init(), actions); b in Written(s.wal) && b.id <= Cursor(s.wal)
    ensures var s := Run(Init(), actions); var ranges := Ranges(s.wal);
            exists i :: 0 <= i < |ranges| && b in RangeOf(s.wal, ranges[i])
              && (forall j :: 0 <= j < |ranges| && b in RangeOf(s.wal, ranges[j]) ==> j == i)
              && ranges[i] in s.acked
              && StoredAsTried(actions, ranges[i])
  {
    var s := Run(Init(), actions);
    var i := RangeBelowCursor(actions, b);
    var t := Ranges(s.wal)[i];
    var acked := AckedIsTried(actions, t);
    if t in s.logs {
      var stored := StoredIsTried(actions, t);
    }
  }

  lemma RangeBelowCursor(actions: seq<Action>, b: Batch) returns (i: nat)
    requires var s := Run(Init(), actions); b in Written(s.wal) && b.id <= Cursor(s.wal)
    ensures var s := Run(Init(), actions); var ranges := Ranges(s.wal);
            && i < |ranges| && b in RangeOf(s.wal, ranges[i])
            && (forall j :: 0 <= j < |ranges| && b in RangeOf(s.wal, ranges[j]) ==> j == i)
            && ranges[i] in s.acked
            && (if ranges[i] in s.logs then KeptOf(s.logs[ranges[i]], RangeOf(s.wal, ranges[i]))
                else Rows(s.acked[ranges[i]]) == [])
  {
    RunKeeps(actions);
    var s := Run(Init(), actions);
    var acked := s.acked.Keys;
    var ranges := Ranges(s.wal);
    i := CoveredBelowCursor(s.wal, acked, b);
    forall j | 0 <= j < |ranges| && b in RangeOf(s.wal, ranges[j])
      ensures j == i
    {
      RangesApart(s.wal, acked, i, j, b);
    }
  }

  /** The recorded range a batch at or below the cursor is in ends at or below it, acknowledged. */
  lemma CoveredBelowCursor(wal: seq<Write>, acked: set<Token>, b: Batch) returns (i: nat)
    requires WellFormed(wal, acked) && b in Written(wal) && b.id <= Cursor(wal)
    ensures i < |Ranges(wal)| && b in RangeOf(wal, Ranges(wal)[i]) && Ranges(wal)[i] in acked
  {
    RangesLinked(wal, acked);
    IdsOrdered(wal, acked);
    WrittenSorted(wal, acked);
    i := CoveringRange(Ranges(wal), b.id);
    BetweenMembers(Written(wal), Ranges(wal)[i].after, Ranges(wal)[i].upTo);
    LinkedIncreasing(Ranges(wal));
    assert Ranges(wal)[i].upTo <= Cursor(wal);
  }

  /** Every try of a run is sent all the Logs of its range, as when the Log transform keeps them and no
      store refuses one. */
  ghost predicate KeepsAll(actions: seq<Action>) {
    forall k: nat, t: Token, kept: seq<Batch> :: Tried(actions, k, t, kept) ==>
      kept == Run(Init(), actions[..k]).worker.batches
  }

  /** A try that is sent all its range is sent the range's batches as the log has them to the end. */
  lemma TriedIsRange(actions: seq<Action>, k: nat, t: Token, kept: seq<Batch>)
    requires Tried(actions, k, t, kept) && kept == Run(Init(), actions[..k]).worker.batches
    ensures kept == RangeOf(Run(Init(), actions).wal, t)
  {
    var was := Run(Init(), actions[..k]);
    RunKeeps(actions[..k]);
    RangesLinked(was.wal, was.acked.Keys);
    assert t in Ranges(was.wal);
    RecordedForGood(was, actions[k..], t);
    RunInTwo(actions, k);
  }

  lemma RunLast(s: State, actions: seq<Action>, k: nat)
    requires k < |actions|
    ensures var n := |actions| - 1;
            Run(s, actions[k..]) == Apply(Run(s, actions[..n][k..]), actions[n])
  {
    var n := |actions| - 1;
    assert actions[..n][k..] == actions[k..][..n - k] && actions[k..][n - k] == actions[n];
  }

  lemma {:induction false} RunInTwo(actions: seq<Action>, k: nat)
    requires k <= |actions|
    ensures Run(Init(), actions) == Run(Run(Init(), actions[..k]), actions[k..])
  {
    if k == |actions| {
      assert actions[..k] == actions;
    } else {
      var n := |actions| - 1;
      RunInTwo(actions[..n], k);
      RunLast(Run(Init(), actions[..k]), actions, k);
      assert actions[..n][..k] == actions[..k];
    }
  }

  /** The row of a Log of a batch is in the table, and no other row has the Log's id. */
  ghost predicate HasOneRow(s: State, b: Batch, l: Log) {
    exists t, i ::
      && t in s.logs && 0 <= i < |Rows(s.logs[t])| && Rows(s.logs[t])[i] == Row(b.id, l)
      && forall u, j :: u in s.logs && 0 <= j < |Rows(s.logs[u])| && Rows(s.logs[u])[j].log.id == l.id ==>
        u == t && j == i
  }

  /** Exactly once, whole: in every run whose tries are each sent all their range, each Log of each
      batch at or below the cursor has exactly one row, the Log as it arrived. */
  lemma EachLogHasOneRow(actions: seq<Action>, b: Batch, l: Log)
    requires KeepsAll(actions)
    requires var s := Run(Init(), actions); b in Written(s.wal) && b.id <= Cursor(s.wal) && l in b.logs
    ensures HasOneRow(Run(Init(), actions), b, l)
  {
    var s := Run(Init(), actions);
    var n := RangeBelowCursor(actions, b);
    var t := Ranges(s.wal)[n];
    var range := RangeOf(s.wal, t);
    var r := RowOfLog(range, b, l);
    if t !in s.logs {
      var k := AckedIsTried(actions, t);
      TriedIsRange(actions, k, t, s.acked[t]);
    } else {
      var k := StoredIsTried(actions, t);
      TriedIsRange(actions, k, t, s.logs[t]);
      forall u, j | u in s.logs && 0 <= j < |Rows(s.logs[u])| && Rows(s.logs[u])[j].log.id == l.id
        ensures u == t && j == r
      {
        StoredAtMostOnce(actions, u, j, t, r);
      }
    }
  }

  lemma {:induction false} RowOfLog(batches: seq<Batch>, b: Batch, l: Log) returns (r: nat)
    requires b in batches && l in b.logs
    ensures r < |Rows(batches)| && Rows(batches)[r] == Row(b.id, l)
  {
    var n := |batches| - 1;
    var before := Rows(batches[..n]);
    if batches[n] == b {
      var i :| 0 <= i < |b.logs| && b.logs[i] == l;
      r := |before| + i;
      assert RowsOf(b)[i] == Row(b.id, l);
    } else {
      assert batches == batches[..n] + [batches[n]];
      r := RowOfLog(batches[..n], b, l);
    }
  }

  // ---- What ingest is handed is what is stored

  /** An ingest writes the Logs it is handed, as a batch past every earlier one that a reader sees. */
  lemma IngestWrites(s: State, candidate: Id, logs: seq<Log>) returns (b: Batch)
    requires Inv(s) && Enabled(s, Ingest(candidate, logs))
    ensures var s' := Apply(s, Ingest(candidate, logs));
            && b.logs == logs && b in Live(s'.wal) && Written(s'.wal) == Written(s.wal) + [b]
            && forall earlier :: earlier in Written(s.wal) ==> earlier.id < b.id
  {
    b := Batch(BatchIds.Chosen(s.floor, candidate), logs);
    AppendUnfolds(s.wal, SetBatch(b));
    WrittenSorted(s.wal, s.acked.Keys);
    PutHas(Live(s.wal), b);
  }

  lemma {:induction false} PutHas(batches: seq<Batch>, b: Batch)
    ensures b in Put(batches, b)
  {
    if batches != [] && batches[0].id < b.id {
      PutHas(batches[1..], b);
    }
  }

  /** No crash after the step at k lost what it wrote. */
  ghost predicate KeptSince(actions: seq<Action>, k: nat)
    requires k < |actions|
  {
    forall j :: k < j < |actions| && actions[j].Crash? && Enabled(Run(Init(), actions[..j]), actions[j]) ==>
      actions[j].length > |Run(Init(), actions[..k]).wal|
  }

  lemma StepKeepsFirst(s: State, a: Action, first: seq<Write>)
    requires Inv(s) && first <= s.wal && (a.Crash? && Enabled(s, a) ==> |first| <= a.length)
    ensures first <= Apply(s, a).wal
  {
    if !(a.Crash? && Enabled(s, a)) {
      var writes := StepWrites(s, a);
    }
  }

  lemma KeptBefore(actions: seq<Action>, k: nat)
    requires k + 1 < |actions| && KeptSince(actions, k)
    ensures KeptSince(actions[..|actions| - 1], k)
  {
    var before := actions[..|actions| - 1];
    forall j | k < j < |before| && before[j].Crash? && Enabled(Run(Init(), before[..j]), before[j])
      ensures before[j].length > |Run(Init(), before[..k]).wal|
    {
      assert before[..j] == actions[..j] && before[..k] == actions[..k];
    }
  }

  /** The last step keeps the log's first writes that were there before it. */
  lemma LastKeeps(actions: seq<Action>, k: nat, first: seq<Write>)
    requires k + 1 < |actions| && KeptSince(actions, k) && |first| <= |Run(Init(), actions[..k]).wal| + 1
    requires first <= Run(Init(), actions[..|actions| - 1]).wal
    ensures first <= Run(Init(), actions).wal
  {
    RunKeeps(actions[..|actions| - 1]);
    StepKeepsFirst(Run(Init(), actions[..|actions| - 1]), actions[|actions| - 1], first);
  }

  /** What the step at k wrote is in the log to the end. */
  lemma {:induction false} WriteStays(actions: seq<Action>, k: nat, first: seq<Write>)
    requires k < |actions| && KeptSince(actions, k) && |first| <= |Run(Init(), actions[..k]).wal| + 1
    requires first == Run(Init(), actions[..k + 1]).wal
    ensures first <= Run(Init(), actions).wal
  {
    var before := actions[..|actions| - 1];
    if |before| == k {
      assert actions[..k + 1] == actions;
    } else {
      assert before[..k] == actions[..k] && before[..k + 1] == actions[..k + 1];
      KeptBefore(actions, k);
      WriteStays(before, k, first);
      LastKeeps(actions, k, first);
    }
  }

  lemma {:induction false} WrittenOfPrefix(first: seq<Write>, wal: seq<Write>)
    requires first <= wal
    ensures Written(first) <= Written(wal)
  {
    if |first| == |wal| {
      assert first == wal;
    } else {
      WrittenOfPrefix(first, Front(wal));
    }
  }

  /** No accepted Log is lost or changed on its way: in every run, what an ingest was handed, its write
      not lost to a crash, is the Logs of one batch of the log, past every batch before it; and once the
      cursor is at or past that batch, in a run whose tries are each sent all their range, each of these
      Logs has exactly one row. */
  lemma AcceptedIsStored(actions: seq<Action>, k: nat) returns (b: Batch)
    requires k < |actions| && actions[k].Ingest? && Enabled(Run(Init(), actions[..k]), actions[k])
    requires KeptSince(actions, k)
    ensures var s := Run(Init(), actions);
            && b in Written(s.wal) && b.logs == actions[k].logs
            && (forall earlier :: earlier in Written(Run(Init(), actions[..k]).wal) ==> earlier.id < b.id)
            && (KeepsAll(actions) && b.id <= Cursor(s.wal) ==>
                  forall l :: l in actions[k].logs ==> HasOneRow(s, b, l))
  {
    var s := Run(Init(), actions);
    var before := Run(Init(), actions[..k]);
    RunKeeps(actions[..k]);
    b := IngestWrites(before, actions[k].candidate, actions[k].logs);
    assert actions[..k + 1][..k] == actions[..k];
    var first := Run(Init(), actions[..k + 1]).wal;
    WriteStays(actions, k, first);
    WrittenOfPrefix(first, s.wal);
    assert Written(s.wal)[|Written(before.wal)|] == b;
    if KeepsAll(actions) && b.id <= Cursor(s.wal) {
      forall l | l in actions[k].logs
        ensures HasOneRow(s, b, l)
      {
        EachLogHasOneRow(actions, b, l);
      }
    }
  }

  /** No batch leaves Pebble before its range is stored: in every run, a batch the log wrote that
      a reader no longer sees is at or below the cursor (so BelowCursorStoredOnce holds of it). */
  lemma GoneOnlyBelowCursor(actions: seq<Action>, b: Batch)
    requires var s := Run(Init(), actions); b in Written(s.wal) && b !in Live(s.wal)
    ensures b.id <= Cursor(Run(Init(), actions).wal)
  {
    RunKeeps(actions);
    var s := Run(Init(), actions);
    LivePastCursor(s.wal, s.acked.Keys, Cursor(s.wal));
    AfterMembers(Written(s.wal), Cursor(s.wal));
    AfterMembers(Live(s.wal), Cursor(s.wal));
  }

  /** A delete leaves exactly the batches past the cursor. */
  lemma DeleteLeavesThoseToStore(s: State)
    requires Inv(s) && s.worker.Moved?
    ensures forall b :: b in Live(Apply(s, Delete(true)).wal) <==> b in Live(s.wal) && b.id > Cursor(s.wal)
  {
    AppendUnfolds(s.wal, DeleteUpTo(s.worker.upTo));
    AfterMembers(Live(s.wal), s.worker.upTo);
  }

  /** Replay is the same range: in every run, while the recorded id is past the cursor the worker
      chooses, as the same token, exactly the batches the recorded range covers. */
  lemma ReplayInEveryRun(actions: seq<Action>)
    requires var s := Run(Init(), actions); s.worker.Reading? && s.worker.recorded > s.worker.cursor
    ensures var s := Run(Init(), actions); var t := Token(Cursor(s.wal), Recorded(s.wal));
            && t in Ranges(s.wal) && RangeOf(s.wal, t) != []
            && Apply(s, ReadBatches).worker == Chosen(t, RangeOf(s.wal, t), true)
  {
    RunKeeps(actions);
    var s := Run(Init(), actions);
    ReplayIsSameRange(s.wal, s.acked.Keys);
    RecordedRangeReads(s.wal, s.acked.Keys);
    RangesLinked(s.wal, s.acked.Keys);
  }

  /** A token's batches never change once it is recorded: whatever runs after, power losses too,
      leaves the range recorded and covering the same batches, and what it stored as it was. */
  lemma {:induction false} RecordedForGood(s: State, actions: seq<Action>, t: Token)
    requires Inv(s) && t in Ranges(s.wal)
    ensures Inv(Run(s, actions)) && KeepsRange(s, Run(s, actions), t)
  {
    if actions != [] {
      var n := |actions| - 1;
      var before := Run(s, actions[..n]);
      RecordedForGood(s, actions[..n], t);
      StepKeeps(before, actions[n]);
      RecordedKeptByStep(before, actions[n], t);
    }
  }

  ghost predicate KeepsRange(s: State, s': State, t: Token) {
    && t in Ranges(s'.wal) && RangeOf(s'.wal, t) == RangeOf(s.wal, t)
    && (t in s.logs ==> t in s'.logs && s'.logs[t] == s.logs[t])
    && (t in s.acked ==> t in s'.acked && s'.acked[t] == s.acked[t])
  }

  lemma RecordedKeptByStep(s: State, a: Action, t: Token)
    requires Inv(s) && t in Ranges(s.wal)
    ensures KeepsRange(s, Apply(s, a), t)
  {
    TablesKept(s, a, t);
    if Enabled(s, a) && a.Crash? {
      TruncationKeepsRanges(s.wal, s.acked.Keys, a.length);
    } else if Apply(s, a).wal != s.wal {
      RangeKeptByWrite(s, a, t);
    }
  }

  lemma TablesKept(s: State, a: Action, t: Token)
    ensures t in s.logs ==> t in Apply(s, a).logs && Apply(s, a).logs[t] == s.logs[t]
    ensures t in s.acked ==> t in Apply(s, a).acked && Apply(s, a).acked[t] == s.acked[t]
  {
  }

  lemma RangeKeptByWrite(s: State, a: Action, t: Token)
    requires Inv(s) && t in Ranges(s.wal) && Enabled(s, a) && !a.Crash? && Apply(s, a).wal != s.wal
    ensures t in Ranges(Apply(s, a).wal) && RangeOf(Apply(s, a).wal, t) == RangeOf(s.wal, t)
  {
    var write := Apply(s, a).wal[|s.wal|];
    assert Apply(s, a).wal == s.wal + [write];
    AppendUnfolds(s.wal, write);
    RangeUpToRecorded(s.wal, s.acked.Keys, t);
    IdsOrdered(s.wal, s.acked.Keys);
    RangeKeptByAppend(s, a, write, t);
  }

  lemma RangeKeptByAppend(s: State, a: Action, write: Write, t: Token)
    requires Inv(s) && t.upTo <= LastId(s.wal) && Enabled(s, a) && !a.Crash?
    requires Apply(s, a).wal == s.wal + [write]
    ensures RangeOf(s.wal + [write], t) == RangeOf(s.wal, t)
  {
    AppendUnfolds(s.wal, write);
    if write.SetBatch? {
      assert a.Ingest?;
      assert write.batch.id > LastId(s.wal);
      BetweenAppend(Written(s.wal), write.batch, t.after, t.upTo);
    }
  }

  // ---- A pass without failures makes progress

  lemma {:induction false} WrittenDistinct(wal: seq<Write>, acked: set<Token>)
    requires WellFormed(wal, acked)
    ensures forall b :: b in Written(wal) ==> DistinctIds(b.logs)
  {
    if wal != [] {
      WrittenDistinct(Front(wal), acked);
    }
  }

  lemma RangeKeepsItself(wal: seq<Write>, acked: set<Token>, t: Token)
    requires WellFormed(wal, acked)
    ensures KeptOf(RangeOf(wal, t), RangeOf(wal, t))
  {
    var range := RangeOf(wal, t);
    WrittenDistinct(wal, acked);
    WrittenSorted(wal, acked);
    BetweenMembers(Written(wal), t.after, t.upTo);
    forall i | 0 <= i < |range|
      ensures DistinctIds(range[i].logs)
    {
      assert range[i] in range;
    }
  }

  /** The steps of storeLogs when nothing fails and the Log transform keeps every Log. */
  ghost function Pass(s: State): State {
    var chosen := Apply(Apply(s, Begin), ReadBatches);
    var inserting := Apply(chosen, Record(true, true));
    if !inserting.worker.Inserting? then inserting
    else Apply(Apply(inserting, Attempt(inserting.worker.batches, true, true)), MoveCursor(true, true))
  }

  /** While a batch is past the cursor, a pass in which nothing fails stores a range after the
      cursor and moves the cursor to its last batch, in whatever state a crash left the stores. */
  lemma PassMovesCursor(s: State)
    requires Inv(s) && s.worker.Idle? && Cursor(s.wal) < LastId(s.wal)
    ensures var s' := Pass(s);
            && Cursor(s.wal) < Cursor(s'.wal) == Recorded(s'.wal)
            && Token(Cursor(s.wal), Cursor(s'.wal)) in s'.acked
  {
    var reading := Apply(s, Begin);
    StepKeeps(s, Begin);
    SomethingSelected(s.wal, s.acked.Keys);
    ChosenIsRecorded(reading);
    var inserting := Apply(Apply(reading, ReadBatches), Record(true, true));
    InsertedIsMoved(inserting);
  }

  lemma SomethingSelected(wal: seq<Write>, acked: set<Token>)
    requires WellFormed(wal, acked) && Cursor(wal) < LastId(wal)
    ensures Selected(Live(wal), Cursor(wal), Recorded(wal)).0 != []
  {
    var c, w := Cursor(wal), Written(wal);
    if Recorded(wal) > c {
      ReplayIsSameRange(wal, acked);
    } else {
      LivePastCursor(wal, acked, c);
      AfterMembers(w, c);
      assert w[|w| - 1] in After(w, c);
      WholePrefix(After(w, c), MAX_LOGS_PER_COMMIT);
    }
  }

  lemma ChosenIsRecorded(s: State)
    requires Inv(s) && s.worker.Reading?
    requires Selected(Live(s.wal), Cursor(s.wal), Recorded(s.wal)).0 != []
    ensures var s' := Apply(Apply(s, ReadBatches), Record(true, true));
            && Inv(s') && s'.worker.Inserting? && Cursor(s'.wal) == Cursor(s.wal)
  {
    var chosen := Apply(s, ReadBatches);
    StepKeeps(s, ReadBatches);
    assert chosen.worker.Chosen? && chosen.wal == s.wal;
    StepKeeps(chosen, Record(true, true));
    AppendUnfolds(chosen.wal, SetRecorded(chosen.worker.range.upTo));
  }

  lemma InsertedIsMoved(s: State)
    requires Inv(s) && s.worker.Inserting?
    ensures var s' := Apply(Apply(s, Attempt(s.worker.batches, true, true)), MoveCursor(true, true));
            && Cursor(s.wal) < Cursor(s'.wal) == Recorded(s'.wal)
            && Token(Cursor(s.wal), Cursor(s'.wal)) in s'.acked
  {
    RangeKeepsItself(s.wal, s.acked.Keys, s.worker.range);
    var inserted := Apply(s, Attempt(s.worker.batches, true, true));
    StepKeeps(s, Attempt(s.worker.batches, true, true));
    AppendUnfolds(inserted.wal, SetCursor(inserted.worker.range.upTo));
  }
}

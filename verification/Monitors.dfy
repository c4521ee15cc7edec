/** Match monitors (storage/logs_clickhouse_read.go ScanLogsIngestedAfter, handler/logs.go
    afterBatch): scans that read the Logs of the batches stored since the last scan, running beside
    Log processing. */
module Monitors {
  import opened Basics
  import opened LogBatches
  import opened PebbleLog
  import M = LogMover

  /** A Monitor: the cursor it was armed at, the cursor its last scan returned, the cursor its scan
      in progress read, and every row its scans have returned. */
  datatype Monitor = Monitor(armedAt: Id, after: Id, scanning: Option<Id>, got: seq<Row>)

  datatype State = State(mover: M.State, monitor: Monitor)

  /** A step of Log processing and ingest, or of the Monitor: arming it, reading the cursor a scan
      reads up to, reading the rows, or a scan that stops at its timeout. */
  datatype Action = Mover(step: M.Action) | Arm | BeginScan | EndScan | StopScan

  /** The rows of the logs table in the order their ranges were stored. */
  function Stored(ranges: seq<Token>, logs: map<Token, seq<Batch>>): seq<Row> {
    if ranges == [] then []
    else
      var n := |ranges| - 1;
      Stored(ranges[..n], logs) + (if ranges[n] in logs then Rows(logs[ranges[n]]) else [])
  }

  function StoredRows(s: M.State): seq<Row> {
    Stored(Ranges(s.wal), s.logs)
  }

  /** The rows of batches after one id, up to another. */
  function Window(rows: seq<Row>, after: Id, upTo: Id): seq<Row> {
    if rows == [] then []
    else
      var n := |rows| - 1;
      var before := Window(rows[..n], after, upTo);
      if after < rows[n].batch <= upTo then before + [rows[n]] else before
  }

  ghost predicate Enabled(s: State, a: Action) {
    match a
    case Mover(step) => true
    case Arm => s.mover.worker != M.Down
    case BeginScan => s.mover.worker != M.Down && s.monitor.scanning.None?
    case EndScan => s.mover.worker != M.Down && s.monitor.scanning.Some?
    case StopScan => true
  }

  ghost function Apply(s: State, a: Action): State {
    var m := s.monitor;
    if !Enabled(s, a) then s
    else
      match a
      case Mover(step) =>
        // A scan in progress goes with its process.
        var left := if step.Crash? && M.Enabled(s.mover, step) then m.(scanning := None) else m;
        State(M.Apply(s.mover, step), left)
      case Arm =>
        var cursor := Cursor(s.mover.wal);
        s.(monitor := Monitor(cursor, cursor, None, []))
      case BeginScan => s.(monitor := m.(scanning := Some(Cursor(s.mover.wal))))
      case EndScan =>
        var cursor := m.scanning.value;
        var rows := if m.after >= cursor then [] else Window(StoredRows(s.mover), m.after, cursor);
        s.(monitor := Monitor(m.armedAt, cursor, None, m.got + rows))
      case StopScan => s.(monitor := m.(scanning := None))
  }

  /** A step leaves the Project's cursor at or past the Monitor's: any step but a power loss, and a
      power loss that doesn't lose the cursor's last move. */
  ghost predicate KeepsCursor(s: State, a: Action) {
    Cursor(Apply(s, a).mover.wal) >= s.monitor.after
  }

  /** The steps run one after another, each leaving the cursor at or past the Monitor's. */
  ghost predicate SafeRun(s: State, actions: seq<Action>)
    decreases |actions|
  {
    actions == [] ||
    (KeepsCursor(s, actions[0]) && SafeRun(Apply(s, actions[0]), actions[1..]))
  }

  ghost function Run(s: State, actions: seq<Action>): State
    decreases |actions|
  {
    if actions == [] then s else Run(Apply(s, actions[0]), actions[1..])
  }

  ghost predicate Inv(s: State) {
    var m := s.monitor;
    && M.Inv(s.mover)
    && m.armedAt <= m.after <= Cursor(s.mover.wal)
    && (m.scanning.Some? ==> m.after <= m.scanning.value <= Cursor(s.mover.wal))
    && m.got == Window(StoredRows(s.mover), m.armedAt, m.after)
  }

  // ---- Rows in batch order

  ghost predicate InBatchOrder(rows: seq<Row>) {
    forall i, j :: 0 <= i < j < |rows| ==> rows[i].batch <= rows[j].batch
  }

  lemma {:induction false} RowsInOrder(kept: seq<Batch>, lo: Id, hi: Id)
    requires forall i :: 0 <= i < |kept| ==> lo < kept[i].id <= hi
    requires Sorted(kept)
    ensures InBatchOrder(Rows(kept))
    ensures forall r :: r in Rows(kept) ==> lo < r.batch <= hi
    ensures forall r :: r in Rows(kept) ==> r.batch <= kept[|kept| - 1].id
  {
    if kept != [] {
      var n := |kept| - 1;
      RowsInOrder(kept[..n], lo, hi);
      var last := RowsOf(kept[n]);
      forall r | r in last
        ensures r.batch == kept[n].id
      {
        var i :| 0 <= i < |last| && last[i] == r;
      }
    }
  }

  /** The rows of a stored range are those of batches in it, in order. */
  lemma StoredRangeRows(s: M.State, t: Token)
    requires M.StoresOk(s) && t in s.logs
    ensures InBatchOrder(Rows(s.logs[t]))
    ensures forall r :: r in Rows(s.logs[t]) ==> t.after < r.batch <= t.upTo
  {
    var range := RangeOf(s.wal, t);
    WrittenSorted(s.wal, s.acked.Keys);
    BetweenMembers(Written(s.wal), t.after, t.upTo);
    forall i | 0 <= i < |range|
      ensures t.after < s.logs[t][i].id <= t.upTo
    {
      assert range[i] in range;
    }
    RowsInOrder(s.logs[t], t.after, t.upTo);
  }

  lemma {:induction false} StoredInOrder(s: M.State, ranges: seq<Token>)
    requires M.StoresOk(s) && Linked(ranges)
    ensures InBatchOrder(Stored(ranges, s.logs))
    ensures forall r :: r in Stored(ranges, s.logs) ==> r.batch <= End(ranges)
  {
    if ranges != [] {
      var n := |ranges| - 1;
      StoredInOrder(s, ranges[..n]);
      if ranges[n] in s.logs {
        StoredRangeRows(s, ranges[n]);
      }
    }
  }

  // ---- Windows

  lemma {:induction false} WindowAppend(a: seq<Row>, b: seq<Row>, after: Id, upTo: Id)
    ensures Window(a + b, after, upTo) == Window(a, after, upTo) + Window(b, after, upTo)
  {
    if b == [] {
      assert a + b == a;
    } else {
      var n := |b| - 1;
      WindowAppend(a, b[..n], after, upTo);
      assert (a + b)[..|a + b| - 1] == a + b[..n];
    }
  }

  lemma {:induction false} WindowNone(rows: seq<Row>, after: Id, upTo: Id)
    requires forall r :: r in rows ==> r.batch <= after || r.batch > upTo
    ensures Window(rows, after, upTo) == []
  {
    if rows != [] {
      var n := |rows| - 1;
      assert rows[n] in rows;
      WindowNone(rows[..n], after, upTo);
    }
  }

  /** Windows that follow each other join into one. */
  lemma {:induction false} WindowsJoin(rows: seq<Row>, a: Id, b: Id, c: Id)
    requires InBatchOrder(rows) && a <= b <= c
    ensures Window(rows, a, c) == Window(rows, a, b) + Window(rows, b, c)
  {
    if rows != [] {
      var n := |rows| - 1;
      WindowsJoin(rows[..n], a, b, c);
      if a < rows[n].batch <= b {
        forall r | r in rows[..n]
          ensures r.batch <= b
        {
        }
        WindowNone(rows[..n], b, c);
        WindowNone(rows, b, c);
      }
    }
  }

  // ---- What a step leaves of a window the cursor has passed

  lemma {:induction false} StoredUnaffected(ranges: seq<Token>, logs: map<Token, seq<Batch>>, t: Token,
                                            kept: seq<Batch>)
    requires t !in ranges
    ensures Stored(ranges, logs[t := kept]) == Stored(ranges, logs)
  {
    if ranges != [] {
      StoredUnaffected(ranges[..|ranges| - 1], logs, t, kept);
    }
  }

  lemma StoredInsertLast(ranges: seq<Token>, logs: map<Token, seq<Batch>>, kept: seq<Batch>)
    requires ranges != []
    requires ranges[|ranges| - 1] !in ranges[..|ranges| - 1] && ranges[|ranges| - 1] !in logs
    ensures Stored(ranges, logs[ranges[|ranges| - 1] := kept]) == Stored(ranges, logs) + Rows(kept)
  {
    var n := |ranges| - 1;
    StoredUnaffected(ranges[..n], logs, ranges[n], kept);
    assert Stored(ranges, logs) == Stored(ranges[..n], logs);
  }

  lemma StoredNewRange(ranges: seq<Token>, logs: map<Token, seq<Batch>>, t: Token)
    requires t !in logs
    ensures Stored(ranges + [t], logs) == Stored(ranges, logs)
  {
    assert (ranges + [t])[..|ranges|] == ranges;
  }

  /** An insert adds the rows of the last range, past the cursor, after all the others. */
  lemma AttemptAddsRows(s: M.State, a: M.Action)
    requires M.Inv(s) && a.Attempt? && M.Apply(s, a).logs != s.logs
    ensures StoredRows(M.Apply(s, a)) == StoredRows(s) + Rows(a.kept)
    ensures forall r :: r in Rows(a.kept) ==> r.batch > Cursor(s.wal)
  {
    var t := s.worker.range;
    AttemptInserts(s, a);
    M.StepKeeps(s, a);
    StoredRangeRows(M.Apply(s, a), t);
    LastRange(s.wal, s.acked.Keys);
    StoredInsertLast(Ranges(s.wal), s.logs, a.kept);
  }

  lemma AttemptInserts(s: M.State, a: M.Action)
    requires M.Inv(s) && a.Attempt? && M.Apply(s, a).logs != s.logs
    ensures s.worker.Inserting? && s.worker.range !in s.logs
    ensures s.worker.range == Token(Cursor(s.wal), Recorded(s.wal)) && Cursor(s.wal) < Recorded(s.wal)
    ensures M.Apply(s, a).logs == s.logs[s.worker.range := a.kept] && M.Apply(s, a).wal == s.wal
  {
  }

  /** The range being inserted is the last recorded one, and no other. */
  lemma LastRange(wal: seq<Write>, acked: set<Token>)
    requires WellFormed(wal, acked) && Cursor(wal) < Recorded(wal)
    ensures var ranges := Ranges(wal); var n := |ranges| - 1;
            n >= 0 && ranges[n] == Token(Cursor(wal), Recorded(wal)) && ranges[n] !in ranges[..n]
  {
    RangesLinked(wal, acked);
    LinkedIncreasing(Ranges(wal));
  }

  lemma AttemptKeepsWindow(s: M.State, a: M.Action, after: Id, upTo: Id)
    requires M.Inv(s) && a.Attempt? && upTo <= Cursor(s.wal)
    ensures Window(StoredRows(M.Apply(s, a)), after, upTo) == Window(StoredRows(s), after, upTo)
  {
    if M.Apply(s, a).logs != s.logs {
      AttemptAddsRows(s, a);
      WindowAppend(StoredRows(s), Rows(a.kept), after, upTo);
      WindowNone(Rows(a.kept), after, upTo);
    }
  }

  /** A write that is fine leaves the stored rows as they are: a range just recorded has none. */
  lemma WriteKeepsRows(s: M.State, write: Write)
    requires M.StoresOk(s) && WriteOk(s.wal, write, s.acked.Keys)
    ensures Stored(Ranges(s.wal + [write]), s.logs) == StoredRows(s)
  {
    AppendUnfolds(s.wal, write);
    if write.SetRecorded? {
      var t := Token(Cursor(s.wal), write.id);
      NewRange(s.wal, s.acked.Keys, t);
      StoredNewRange(Ranges(s.wal), s.logs, t);
    }
  }

  lemma NewRange(wal: seq<Write>, acked: set<Token>, t: Token)
    requires WellFormed(wal, acked) && t.upTo > Recorded(wal)
    ensures t !in Ranges(wal)
  {
    if t in Ranges(wal) {
      RangeUpToRecorded(wal, acked, t);
    }
  }

  /** Whatever Log processing, ingest or a crash does next, the rows of the batches up to a cursor
      it has reached are the same. */
  lemma StepKeepsWindow(s: M.State, a: M.Action, after: Id, upTo: Id)
    requires M.Inv(s) && upTo <= Cursor(s.wal)
    ensures Window(StoredRows(M.Apply(s, a)), after, upTo) == Window(StoredRows(s), after, upTo)
  {
    if a.Attempt? {
      AttemptKeepsWindow(s, a, after, upTo);
    } else {
      OtherLogs(s, a);
      if a.Crash? && M.Enabled(s, a) {
        TruncationKeepsRanges(s.wal, s.acked.Keys, a.length);
      } else {
        OtherKeepsRows(s, a);
      }
    }
  }

  lemma OtherLogs(s: M.State, a: M.Action)
    requires !a.Attempt?
    ensures M.Apply(s, a).logs == s.logs
    ensures a.Crash? && M.Enabled(s, a) ==> M.Apply(s, a).wal == s.wal[..a.length]
  {
  }

  lemma OtherKeepsRows(s: M.State, a: M.Action)
    requires M.Inv(s) && !a.Attempt? && !(a.Crash? && M.Enabled(s, a))
    ensures Stored(Ranges(M.Apply(s, a).wal), s.logs) == StoredRows(s)
  {
    var writes := M.StepWrites(s, a);
    if writes == [] {
      assert s.wal + [] == s.wal;
    } else {
      WriteKeepsRows(s, writes[0]);
      assert writes == [writes[0]];
    }
  }

  /** Without a power loss, no step takes the cursor back. */
  lemma CursorRises(s: M.State, a: M.Action)
    requires M.Inv(s) && (a.Crash? ==> a.length >= |s.wal|)
    ensures Cursor(M.Apply(s, a).wal) >= Cursor(s.wal)
  {
    if a.Crash? && M.Enabled(s, a) {
      OtherLogs(s, a);
      assert s.wal[..a.length] == s.wal;
    } else {
      var writes := M.StepWrites(s, a);
      WritesRaise(s.wal, writes, s.acked.Keys);
    }
  }

  lemma WritesRaise(wal: seq<Write>, writes: seq<Write>, acked: set<Token>)
    requires |writes| <= 1 && (writes != [] ==> WriteOk(wal, writes[0], acked))
    ensures Cursor(wal + writes) >= Cursor(wal)
  {
    if writes == [] {
      assert wal + [] == wal;
    } else {
      AppendUnfolds(wal, writes[0]);
      assert writes == [writes[0]];
    }
  }

  lemma StepKeeps(s: State, a: Action)
    requires Inv(s) && KeepsCursor(s, a)
    ensures Inv(Apply(s, a))
  {
    match a
    case Mover(step) => MoverStepKeeps(s, step);
    case Arm =>
      WindowNone(StoredRows(s.mover), Cursor(s.mover.wal), Cursor(s.mover.wal));
    case EndScan =>
      if Enabled(s, a) {
        ScanKeeps(s);
      }
    case _ =>
  }

  lemma MoverStepKeeps(s: State, step: M.Action)
    requires Inv(s) && KeepsCursor(s, Mover(step))
    ensures Inv(Apply(s, Mover(step)))
  {
    M.StepKeeps(s.mover, step);
    StepKeepsWindow(s.mover, step, s.monitor.armedAt, s.monitor.after);
    if !step.Crash? {
      CursorRises(s.mover, step);
    }
  }

  lemma ScanKeeps(s: State)
    requires Inv(s) && Enabled(s, EndScan)
    ensures Inv(Apply(s, EndScan))
  {
    var m, rows := s.monitor, StoredRows(s.mover);
    RangesLinked(s.mover.wal, s.mover.acked.Keys);
    StoredInOrder(s.mover, Ranges(s.mover.wal));
    WindowsJoin(rows, m.armedAt, m.after, m.scanning.value);
    if m.after == m.scanning.value {
      WindowNone(rows, m.after, m.scanning.value);
    }
  }

  /** A Monitor that starts each scan at the cursor the last one returned has read, once each and
      no other, the rows of every batch stored since it was armed, up to the cursor its last scan
      returned, whatever Log processing did between or during its scans. */
  lemma {:induction false} ReadsEachLogOnce(s: State, actions: seq<Action>)
    requires Inv(s) && SafeRun(s, actions)
    ensures var s' := Run(s, actions);
            Inv(s') && s'.monitor.got == Window(StoredRows(s'.mover), s'.monitor.armedAt, s'.monitor.after)
    decreases |actions|
  {
    if actions != [] {
      StepKeeps(s, actions[0]);
      ReadsEachLogOnce(Apply(s, actions[0]), actions[1..]);
    }
  }

  lemma {:induction false} WindowMembers(rows: seq<Row>, after: Id, upTo: Id)
    ensures forall r :: r in Window(rows, after, upTo) <==> r in rows && after < r.batch <= upTo
  {
    if rows != [] {
      var n := |rows| - 1;
      WindowMembers(rows[..n], after, upTo);
      assert rows == rows[..n] + [rows[n]];
    }
  }

  /** No two rows are of one Log. */
  ghost predicate OnceEach(rows: seq<Row>) {
    forall i, j :: 0 <= i < j < |rows| ==> rows[i].log.id != rows[j].log.id
  }

  lemma OnceEachOfBoth(a: seq<Row>, b: seq<Row>)
    requires OnceEach(a) && OnceEach(b)
    requires forall x, y :: x in a && y in b ==> x.log.id != y.log.id
    ensures OnceEach(a + b)
  {
    forall i, j | 0 <= i < j < |a + b|
      ensures (a + b)[i].log.id != (a + b)[j].log.id
    {
      if i < |a| <= j {
        assert a[i] in a && b[j - |a|] in b;
      }
    }
  }

  lemma RangeOnce(s: M.State, t: Token)
    requires M.StoresOk(s) && t in s.logs
    ensures OnceEach(Rows(s.logs[t]))
  {
    forall i, j | 0 <= i < j < |Rows(s.logs[t])|
      ensures Rows(s.logs[t])[i].log.id != Rows(s.logs[t])[j].log.id
    {
      if Rows(s.logs[t])[i].log.id == Rows(s.logs[t])[j].log.id {
        M.RowsApart(s, t, i, t, j);
      }
    }
  }

  lemma RangesOnce(s: M.State, t: Token, u: Token, x: Row, y: Row)
    requires M.StoresOk(s) && t in s.logs && u in s.logs && t != u && x in Rows(s.logs[t]) && y in Rows(s.logs[u])
    ensures x.log.id != y.log.id
  {
    var i :| 0 <= i < |Rows(s.logs[t])| && Rows(s.logs[t])[i] == x;
    var j :| 0 <= j < |Rows(s.logs[u])| && Rows(s.logs[u])[j] == y;
    if x.log.id == y.log.id {
      M.RowsApart(s, t, i, u, j);
    }
  }

  lemma {:induction false} StoredOnce(s: M.State, ranges: seq<Token>)
    requires M.StoresOk(s) && Linked(ranges)
    ensures OnceEach(Stored(ranges, s.logs))
  {
    if ranges != [] {
      var n := |ranges| - 1;
      var before := Stored(ranges[..n], s.logs);
      StoredOnce(s, ranges[..n]);
      if ranges[n] in s.logs {
        RangeOnce(s, ranges[n]);
        LinkedIncreasing(ranges);
        forall x, y | x in before && y in Rows(s.logs[ranges[n]])
          ensures x.log.id != y.log.id
        {
          StoredMembers(ranges[..n], s.logs, x);
          var t :| t in ranges[..n] && t in s.logs && x in Rows(s.logs[t]);
          RangesOnce(s, t, ranges[n], x, y);
        }
        OnceEachOfBoth(before, Rows(s.logs[ranges[n]]));
      }
    }
  }

  lemma {:induction false} WindowOnce(rows: seq<Row>, after: Id, upTo: Id)
    requires OnceEach(rows) && InBatchOrder(rows)
    ensures OnceEach(Window(rows, after, upTo)) && InBatchOrder(Window(rows, after, upTo))
  {
    if rows != [] {
      var n := |rows| - 1;
      WindowOnce(rows[..n], after, upTo);
      WindowMembers(rows[..n], after, upTo);
      forall r | r in Window(rows[..n], after, upTo)
        ensures r.log.id != rows[n].log.id && r.batch <= rows[n].batch
      {
        var i :| 0 <= i < n && rows[..n][i] == r;
      }
    }
  }

  /** What a Monitor's scans have returned: each row in the logs table, whatever its token, of a batch stored
      since the Monitor was armed, up to the cursor its last scan returned, no Log of it twice, in the order
      of the batches, and nothing else. */
  lemma ReturnsStoredRowsOnce(s: State, actions: seq<Action>)
    requires Inv(s) && SafeRun(s, actions)
    ensures var m, logs := Run(s, actions).monitor, Run(s, actions).mover.logs;
            && OnceEach(m.got) && InBatchOrder(m.got)
            && forall r :: r in m.got <==> m.armedAt < r.batch <= m.after && exists t :: t in logs && r in Rows(logs[t])
  {
    ReadsEachLogOnce(s, actions);
    var s' := Run(s, actions);
    var ranges, rows := Ranges(s'.mover.wal), StoredRows(s'.mover);
    RangesLinked(s'.mover.wal, s'.mover.acked.Keys);
    StoredInOrder(s'.mover, ranges);
    StoredOnce(s'.mover, ranges);
    WindowOnce(rows, s'.monitor.armedAt, s'.monitor.after);
    WindowMembers(rows, s'.monitor.armedAt, s'.monitor.after);
    forall r
      ensures r in rows <==> exists t :: t in s'.mover.logs && r in Rows(s'.mover.logs[t])
    {
      StoredMembers(ranges, s'.mover.logs, r);
      if t :| t in s'.mover.logs && r in Rows(s'.mover.logs[t]) {
        assert t in ranges;
      }
    }
  }

  // ---- A power loss that takes the cursor back

  lemma {:induction false} StoredMembers(ranges: seq<Token>, logs: map<Token, seq<Batch>>, r: Row)
    ensures r in Stored(ranges, logs) <==> exists t :: t in ranges && t in logs && r in Rows(logs[t])
  {
    if ranges != [] {
      var n := |ranges| - 1;
      StoredMembers(ranges[..n], logs, r);
      assert ranges == ranges[..n] + [ranges[n]];
      assert r in Stored(ranges, logs) <==>
               r in Stored(ranges[..n], logs) || (ranges[n] in logs && r in Rows(logs[ranges[n]]));
      if t :| t in ranges && t in logs && r in Rows(logs[t]) {
        assert t in ranges[..n] || t == ranges[n];
      }
      if t :| t in ranges[..n] && t in logs && r in Rows(logs[t]) {
        assert t in ranges;
      }
    }
  }

  /** A row stays in the table, its range recorded, whatever happens next. */
  lemma RowStays(s: M.State, a: M.Action, r: Row)
    requires M.Inv(s) && r in StoredRows(s)
    ensures r in StoredRows(M.Apply(s, a))
  {
    StoredMembers(Ranges(s.wal), s.logs, r);
    var t :| t in Ranges(s.wal) && t in s.logs && r in Rows(s.logs[t]);
    M.RecordedKeptByStep(s, a, t);
    StoredMembers(Ranges(M.Apply(s, a).wal), M.Apply(s, a).logs, r);
  }

  /** The Monitor isn't armed anew. */
  predicate NoArm(actions: seq<Action>) {
    forall a :: a in actions ==> !a.Arm?
  }

  lemma {:induction false} RowStaysInRun(s: State, actions: seq<Action>, r: Row)
    requires M.Inv(s.mover) && r in StoredRows(s.mover)
    ensures M.Inv(Run(s, actions).mover) && r in StoredRows(Run(s, actions).mover)
    decreases |actions|
  {
    if actions != [] {
      if actions[0].Mover? {
        M.StepKeeps(s.mover, actions[0].step);
        RowStays(s.mover, actions[0].step, r);
      }
      RowStaysInRun(Apply(s, actions[0]), actions[1..], r);
    }
  }

  /** A state whose Monitor was armed elsewhere and had returned some rows before. */
  function Continued(s: State, armedAt: Id, got: seq<Row>): State {
    s.(monitor := s.monitor.(armedAt := armedAt, got := got + s.monitor.got))
  }

  /** What a Monitor does next depends neither on where it was armed nor on what it has returned. */
  lemma {:induction false} RunContinued(s: State, actions: seq<Action>, armedAt: Id, got: seq<Row>)
    requires NoArm(actions)
    ensures SafeRun(Continued(s, armedAt, got), actions) == SafeRun(s, actions)
    ensures Run(Continued(s, armedAt, got), actions) == Continued(Run(s, actions), armedAt, got)
    decreases |actions|
  {
    if actions != [] {
      var a := actions[0];
      assert a in actions;
      StepContinued(s, a, armedAt, got);
      RunContinued(Apply(s, a), actions[1..], armedAt, got);
    }
  }

  lemma StepContinued(s: State, a: Action, armedAt: Id, got: seq<Row>)
    requires !a.Arm?
    ensures Apply(Continued(s, armedAt, got), a) == Continued(Apply(s, a), armedAt, got)
  {
    if a.EndScan? && Enabled(s, a) {
      var c := s.monitor.scanning.value;
      var rows := if s.monitor.after >= c then [] else Window(StoredRows(s.mover), s.monitor.after, c);
      assert (got + s.monitor.got) + rows == got + (s.monitor.got + rows);
    }
  }

  /** The cursor a power loss leaves. */
  function Fallen(s: State, length: nat): Id
    requires length <= |s.mover.wal|
  {
    Cursor(s.mover.wal[..length])
  }

  /** After a power loss and a restart, a scan: it returns the cursor the loss left. */
  ghost function Scanned(s: State, length: nat): State {
    var down := Apply(s, Mover(M.Crash(length)));
    var up := Apply(down, Mover(M.Restart(false)));
    Apply(Apply(up, BeginScan), EndScan)
  }

  lemma ScannedIs(s: State, length: nat)
    requires Inv(s) && M.Enabled(s.mover, M.Crash(length))
    ensures var scanned, m := Scanned(s, length), s.monitor;
            && M.Inv(scanned.mover) && scanned.mover.worker == M.Idle
            && Cursor(scanned.mover.wal) == Fallen(s, length)
            && scanned.monitor == Monitor(m.armedAt, Fallen(s, length), None,
                 m.got + if m.after >= Fallen(s, length) then []
                   else Window(StoredRows(scanned.mover), m.after, Fallen(s, length)))
    ensures forall r :: r in s.monitor.got ==> r in StoredRows(Scanned(s, length).mover)
  {
    var down := M.Apply(s.mover, M.Crash(length));
    var up := M.Apply(down, M.Restart(false));
    M.StepKeeps(s.mover, M.Crash(length));
    M.StepKeeps(down, M.Restart(false));
    WindowMembers(StoredRows(s.mover), s.monitor.armedAt, s.monitor.after);
    forall r | r in s.monitor.got
      ensures r in StoredRows(up)
    {
      RowStays(s.mover, M.Crash(length), r);
      RowStays(down, M.Restart(false), r);
    }
  }

  function Lesser(a: Id, b: Id): Id {
    if a < b then a else b
  }

  /** The condition is needed, and this is what is read without it: once a power loss has left the
      cursor at an id and the Monitor has scanned, all that its scans return in a run is what it had
      returned, followed by the rows from that id or from its own cursor, whichever is less. */
  lemma ReadsFromFallen(s: State, length: nat, actions: seq<Action>)
    requires Inv(s) && M.Enabled(s.mover, M.Crash(length))
    requires NoArm(actions) && SafeRun(Scanned(s, length), actions)
    ensures var later := Run(Scanned(s, length), actions);
            later.monitor.got == s.monitor.got
              + Window(StoredRows(later.mover), Lesser(Fallen(s, length), s.monitor.after), later.monitor.after)
  {
    ScannedIs(s, length);
    var scanned, fallen := Scanned(s, length), Fallen(s, length);
    var lo, rows := Lesser(fallen, s.monitor.after), StoredRows(scanned.mover);
    var rearmed := scanned.(monitor := Monitor(lo, fallen, None, Window(rows, lo, fallen)));
    if lo == fallen {
      WindowNone(rows, lo, fallen);
    }
    assert scanned == Continued(rearmed, s.monitor.armedAt, s.monitor.got);
    RunContinued(rearmed, actions, s.monitor.armedAt, s.monitor.got);
    ReadsEachLogOnce(rearmed, actions);
    NotArmed(rearmed, actions);
  }

  lemma {:induction false} NotArmed(s: State, actions: seq<Action>)
    requires NoArm(actions)
    ensures Run(s, actions).monitor.armedAt == s.monitor.armedAt
    decreases |actions|
  {
    if actions != [] {
      assert actions[0] in actions;
      NotArmed(Apply(s, actions[0]), actions[1..]);
    }
  }

  /** The Monitor returns a row again in a run after the power loss. */
  ghost predicate Rereads(s: State, length: nat, actions: seq<Action>, r: Row) {
    && NoArm(actions) && SafeRun(Scanned(s, length), actions)
    && var got := Run(Scanned(s, length), actions).monitor.got;
       s.monitor.got <= got && r in got[|s.monitor.got|..]
  }

  lemma RereadsWhen(s: State, length: nat, actions: seq<Action>, r: Row)
    requires Inv(s) && M.Enabled(s.mover, M.Crash(length)) && r in s.monitor.got
    requires NoArm(actions) && SafeRun(Scanned(s, length), actions)
    ensures Rereads(s, length, actions, r) <==>
            Fallen(s, length) < r.batch <= Run(Scanned(s, length), actions).monitor.after
  {
    ScannedIs(s, length);
    ReadsFromFallen(s, length, actions);
    RowStaysInRun(Scanned(s, length), actions, r);
    WindowMembers(StoredRows(s.mover), s.monitor.armedAt, s.monitor.after);
    var later := Run(Scanned(s, length), actions);
    WindowMembers(StoredRows(later.mover), Lesser(Fallen(s, length), s.monitor.after), later.monitor.after);
  }

  /** Exactly when a power loss makes a Monitor return a row again: some run does, if and only if the
      loss left the cursor before the row's batch. */
  lemma RereadsExactly(s: State, length: nat, r: Row)
    requires Inv(s) && M.Enabled(s.mover, M.Crash(length)) && r in s.monitor.got
    ensures (exists actions :: Rereads(s, length, actions, r)) <==> Fallen(s, length) < r.batch
  {
    if Fallen(s, length) < r.batch {
      ScannedIs(s, length);
      var actions := ScansPast(Scanned(s, length), r);
      RereadsWhen(s, length, actions, r);
    } else if actions :| Rereads(s, length, actions, r) {
      RereadsWhen(s, length, actions, r);
    }
  }

  // ---- A run that reads past a stored row

  lemma {:induction false} RunRises(s: M.State, steps: seq<M.Action>)
    requires M.Inv(s) && forall a :: a in steps ==> !a.Crash?
    ensures M.Inv(M.Run(s, steps)) && Cursor(M.Run(s, steps).wal) >= Cursor(s.wal)
  {
    if steps != [] {
      var n := |steps| - 1;
      RunRises(s, steps[..n]);
      M.StepKeeps(M.Run(s, steps[..n]), steps[n]);
      CursorRises(M.Run(s, steps[..n]), steps[n]);
    }
  }

  /** Steps of Log processing without a power loss, before a run, are part of it. */
  lemma {:induction false} StepsBefore(s: State, steps: seq<M.Action>, rest: seq<Action>) returns (actions: seq<Action>)
    requires M.Inv(s.mover) && s.monitor.after <= Cursor(s.mover.wal)
    requires forall a :: a in steps ==> !a.Crash?
    requires NoArm(rest) && SafeRun(State(M.Run(s.mover, steps), s.monitor), rest)
    ensures NoArm(actions) && SafeRun(s, actions)
    ensures Run(s, actions) == Run(State(M.Run(s.mover, steps), s.monitor), rest)
    decreases |steps|
  {
    if steps == [] {
      actions := rest;
    } else {
      var n := |steps| - 1;
      RunRises(s.mover, steps[..n]);
      RunRises(s.mover, steps);
      var before := State(M.Run(s.mover, steps[..n]), s.monitor);
      assert Apply(before, Mover(steps[n])) == State(M.Run(s.mover, steps), s.monitor);
      var longer := [Mover(steps[n])] + rest;
      assert longer[1..] == rest;
      actions := StepsBefore(s, steps[..n], longer);
    }
  }

  lemma RunOneMore(s: M.State, steps: seq<M.Action>, a: M.Action)
    ensures M.Run(s, steps + [a]) == M.Apply(M.Run(s, steps), a)
  {
    assert (steps + [a])[..|steps|] == steps;
  }

  lemma RunTwoMore(s: M.State, steps: seq<M.Action>, a: M.Action, b: M.Action)
    ensures M.Run(s, steps + [a] + [b]) == M.Apply(M.Apply(M.Run(s, steps), a), b)
  {
    RunOneMore(s, steps, a);
    RunOneMore(s, steps + [a], b);
  }

  lemma PassIsRun(s: M.State) returns (steps: seq<M.Action>)
    ensures M.Run(s, steps) == M.Pass(s)
    ensures forall a :: a in steps ==> !a.Crash?
  {
    steps := [] + [M.Begin] + [M.ReadBatches];
    RunTwoMore(s, [], M.Begin, M.ReadBatches);
    RunOneMore(s, steps, M.Record(true, true));
    steps := steps + [M.Record(true, true)];
    var inserting := M.Run(s, steps);
    if inserting.worker.Inserting? {
      var attempt := M.Attempt(inserting.worker.batches, true, true);
      RunTwoMore(s, steps, attempt, M.MoveCursor(true, true));
      steps := steps + [attempt] + [M.MoveCursor(true, true)];
    }
  }

  /** While the row of a batch past the cursor is in the table, a pass without failures moves the
      cursor past it. */
  lemma PassReaches(s: M.State, steps: seq<M.Action>, r: Row)
    requires M.Inv(s) && s.worker.Idle? && Cursor(s.wal) < r.batch && r in StoredRows(s)
    requires M.Run(s, steps) == M.Pass(s)
    ensures M.Inv(M.Pass(s)) && r.batch <= Cursor(M.Pass(s).wal)
  {
    StoredMembers(Ranges(s.wal), s.logs, r);
    var t :| t in Ranges(s.wal) && t in s.logs && r in Rows(s.logs[t]);
    StoredRangeRows(s, t);
    RangeUpToRecorded(s.wal, s.acked.Keys, t);
    IdsOrdered(s.wal, s.acked.Keys);
    M.PassMovesCursor(s);
    M.RecordedForGood(s, steps, t);
    RangeUpToRecorded(M.Pass(s).wal, M.Pass(s).acked.Keys, t);
  }

  lemma ScanReaches(s: State)
    requires s.mover.worker != M.Down && s.monitor.scanning.None?
    requires s.monitor.after <= Cursor(s.mover.wal)
    ensures var rest := [BeginScan, EndScan];
            NoArm(rest) && SafeRun(s, rest) && Run(s, rest).monitor.after == Cursor(s.mover.wal)
  {
    var rest := [BeginScan, EndScan];
    assert rest[1..] == [EndScan] && [EndScan][1..] == [];
  }

  /** Such a pass and a scan bring the Monitor past it. */
  lemma ScansPast(s: State, r: Row) returns (actions: seq<Action>)
    requires M.Inv(s.mover) && s.mover.worker.Idle? && s.monitor.scanning.None?
    requires s.monitor.after <= Cursor(s.mover.wal) < r.batch && r in StoredRows(s.mover)
    ensures NoArm(actions) && SafeRun(s, actions) && r.batch <= Run(s, actions).monitor.after
  {
    var steps := PassIsRun(s.mover);
    PassReaches(s.mover, steps, r);
    ScanReaches(State(M.Pass(s.mover), s.monitor));
    actions := StepsBefore(s, steps, [BeginScan, EndScan]);
  }
}

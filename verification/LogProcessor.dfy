/** storeLogs as the worker runs it (logprocessing/processor.go), over the stores it changes in
    place: every pass, whatever fails in it, is a run of the machine LogMover proves exactly-once. */
module LogProcessor {
  import opened LogBatches
  import opened PebbleLog
  import B = Bisection
  import BatchIds
  import M = LogMover

  /** How often a Project's Logs that fail on their content are retried before they are tried apart. */
  const CONTENT_RETRIES: nat := 3

  /** What a write or an insert came to: whether it took effect, and whether it returned without an
      error, which it does only having taken effect. A failed insert's failure may be the Logs'. */
  datatype Fate = Succeeded | Failed(tookEffect: bool, content: bool)
  {
    predicate TookEffect(): (took: bool)
      ensures Succeeded? ==> took
      ensures Failed? ==> took == tookEffect
    {
      Succeeded? || tookEffect
    }
  }

  /** What the stores do to one pass. */
  datatype Fates = Fates(record: Fate, insert: Fate, apart: Fate, cursor: Fate, delete: Fate)

  /** How a pass ended: to be retried, its last error one of the Logs' content or not; done; or with its
      process. */
  datatype Passed = Retry(content: bool) | Done(more: bool) | Crashed

  /** How the inserts of a pass ended. */
  datatype Ended = Stored | NotStored(content: bool) | Lost

  /** What others do between two statements of a pass: after statement k, others(k), step by step. */
  type Others = nat -> seq<M.Action>

  /** The Log transform's answer. It may answer differently on every pass. */
  type Transform = seq<Batch> -> B.Result<seq<Batch>>

  /** The transform drops Logs or changes them, and keeps their ids and their batches. */
  ghost predicate KeepsIds(transform: Transform) {
    forall batches: seq<Batch> ::
      transform(batches).Ok? && (forall b: Batch :: b in batches ==> DistinctIds(b.logs)) ==>
      KeptOf(transform(batches).value, batches)
  }

  lemma RunMore(s: M.State, steps: seq<M.Action>, a: M.Action)
    ensures M.Run(s, steps + [a]) == M.Apply(M.Run(s, steps), a)
  {
    assert (steps + [a])[..|steps|] == steps;
  }

  lemma RunOne(s: M.State, a: M.Action)
    ensures M.Run(s, [a]) == M.Apply(s, a)
  {
    assert [a][..0] == [];
    assert M.Run(s, []) == s;
  }

  lemma {:induction false} RunConcat(s: M.State, first: seq<M.Action>, then_: seq<M.Action>)
    ensures M.Run(M.Run(s, first), then_) == M.Run(s, first + then_)
  {
    if then_ == [] {
      assert first + then_ == first;
    } else {
      var n := |then_| - 1;
      RunConcat(s, first, then_[..n]);
      assert (first + then_)[..|first + then_| - 1] == first + then_[..n];
    }
  }

  lemma {:induction false} RunKeepsInv(s: M.State, steps: seq<M.Action>)
    requires M.Inv(s)
    ensures M.Inv(M.Run(s, steps))
  {
    if steps != [] {
      RunKeepsInv(s, steps[..|steps| - 1]);
      M.StepKeeps(M.Run(s, steps[..|steps| - 1]), steps[|steps| - 1]);
    }
  }

  /** A step of the worker itself. */
  predicate WorkersOwn(a: M.Action) {
    a.Begin? || a.ReadBatches? || a.Record? || a.Attempt? || a.MoveCursor? || a.Delete? || a.GiveUp?
  }

  /** A step of another: an ingest write, another Project's, or a crash, of the process or with a power
      loss. */
  predicate OthersOwn(a: M.Action) {
    a.Ingest? || a.OtherProject? || a.Crash?
  }

  /** The steps are those of others among some. */
  ghost predicate OwnOf(others: seq<M.Action>, steps: seq<M.Action>) {
    && (forall a :: a in steps ==> OthersOwn(a))
    && (forall a :: a in others && (a.Ingest? || a.OtherProject? || a.Crash?) ==> a in steps)
  }

  lemma OwnOfMore(others: seq<M.Action>, i: nat, steps: seq<M.Action>)
    requires i < |others| && OwnOf(others[..i], steps)
    ensures OwnOf(others[..i + 1], if OthersOwn(others[i]) then steps + [others[i]] else steps)
  {
    assert others[..i + 1] == others[..i] + [others[i]];
  }

  /** What a try of a range is sent: what the transform kept of it, or that without the Logs rejected. */
  ghost predicate Sends(kept: seq<Batch>, batches: seq<Batch>, transform: Transform, try: B.Try) {
    && transform(batches).Ok?
    && var transformed := transform(batches).value;
       || kept == transformed
       || (B.RejectedLogs(try, Rows(transformed)).Ok?
           && B.AreWithout(kept, transformed, B.SkipIds(B.RejectedLogs(try, Rows(transformed)).value)))
  }

  /** Steps of the worker and of others, each insert of which is sent what the transform kept of the batches,
      or that without the Logs rejected. */
  ghost predicate OwnSteps(steps: seq<M.Action>, batches: seq<Batch>, transform: Transform, try: B.Try) {
    forall a :: a in steps ==>
      (WorkersOwn(a) || OthersOwn(a)) && (a.Attempt? ==> Sends(a.kept, batches, transform, try))
  }

  lemma OwnBoth(first: seq<M.Action>, more: seq<M.Action>, batches: seq<Batch>, transform: Transform, try: B.Try)
    requires OwnSteps(first, batches, transform, try) && OwnSteps(more, batches, transform, try)
    ensures OwnSteps(first + more, batches, transform, try)
  {
  }

  /** The inserts among some steps. */
  function Attempts(steps: seq<M.Action>): seq<M.Action> {
    if steps == [] then []
    else
      var n := |steps| - 1;
      if steps[n].Attempt? then Attempts(steps[..n]) + [steps[n]] else Attempts(steps[..n])
  }

  lemma {:induction false} AttemptsOfBoth(a: seq<M.Action>, b: seq<M.Action>)
    ensures Attempts(a + b) == Attempts(a) + Attempts(b)
  {
    if b == [] {
      assert a + b == a;
    } else {
      assert (a + b)[..|a + b| - 1] == a + b[..|b| - 1];
      AttemptsOfBoth(a, b[..|b| - 1]);
    }
  }

  lemma {:induction false} NoAttempts(steps: seq<M.Action>)
    requires forall a :: a in steps ==> !a.Attempt?
    ensures Attempts(steps) == []
  {
    if steps != [] {
      NoAttempts(steps[..|steps| - 1]);
    }
  }

  /** The step of one insert. */
  function Inserts(kept: seq<Batch>, fate: Fate): M.Action {
    M.Attempt(kept, fate.TookEffect(), fate.Succeeded?)
  }

  /** The Logs failed on their content too often, and the search for those that do has an answer. */
  predicate TriesApart(contentFailures: nat, transformed: seq<Batch>, try: B.Try, fates: Fates) {
    && !fates.insert.Succeeded? && fates.insert.content && contentFailures >= CONTENT_RETRIES
    && B.RejectedLogs(try, Rows(transformed)).Ok?
  }

  /** Where the inserts of a range leave the worker. */
  function Left(end: Ended, range: Token, batches: seq<Batch>): M.Worker {
    match end
    case Stored => M.Inserted(range)
    case NotStored(_) => M.Inserting(range, batches)
    case Lost => M.Down
  }

  /** Where the reads leave it. */
  function WorkerWith(crashed: bool, cursor: Id, batches: seq<Batch>, again: bool): M.Worker {
    if crashed then M.Down
    else if batches == [] then M.Idle
    else M.Chosen(Token(cursor, batches[|batches| - 1].id), batches, again)
  }

  /** Where the pass leaves it. */
  function Freed(end: Ended): M.Worker {
    if end.Lost? then M.Down else M.Idle
  }

  /** The last error of a pass is of the Logs' content: its last insert's, unless the search for the Logs that
      fail got no answer. */
  predicate ContentError(tried: seq<M.Action>, contentFailures: nat, fates: Fates) {
    if |tried| == 2 then !fates.apart.Succeeded? && fates.apart.content
    else |tried| == 1 && !fates.insert.Succeeded? && fates.insert.content && contentFailures < CONTENT_RETRIES
  }

  /** What the inserts of a range are: first of all the transform kept, then, exactly where its content has
      failed too often and the search has an answer, of that without exactly the Logs rejected; and they end
      as the last of them did, unless the process ended. */
  ghost predicate InsertsOf(tried: seq<M.Action>, end: Ended, kept: seq<Batch>, contentFailures: nat, try: B.Try,
                            fates: Fates) {
    && 1 <= |tried| <= 2 && tried[0] == Inserts(kept, fates.insert)
    && (|tried| == 2 ==>
          && TriesApart(contentFailures, kept, try, fates) && tried[1].Attempt?
          && B.AreWithout(tried[1].kept, kept, B.SkipIds(B.RejectedLogs(try, Rows(kept)).value))
          && tried[1] == Inserts(tried[1].kept, fates.apart))
    && (end != Lost ==>
          && (|tried| == 2 <==> TriesApart(contentFailures, kept, try, fates))
          && (end.Stored? <==> if |tried| == 2 then fates.apart.Succeeded? else fates.insert.Succeeded?)
          && (end.NotStored? ==> end.content == ContentError(tried, contentFailures, fates)))
  }

  /** An insert of a range without exactly the Logs rejected. */
  ghost predicate IsApart(a: M.Action, kept: seq<Batch>, try: B.Try) {
    && a.Attempt? && B.RejectedLogs(try, Rows(kept)).Ok?
    && B.AreWithout(a.kept, kept, B.SkipIds(B.RejectedLogs(try, Rows(kept)).value))
  }

  /** What storeApart inserts: nothing where the search has no answer, or else, unless the process ended
      before, the range without the Logs rejected, and it ends as that did. */
  ghost predicate ApartOf(tried: seq<M.Action>, end: Ended, kept: seq<Batch>, try: B.Try, fate: Fate) {
    if B.RejectedLogs(try, Rows(kept)).Failed? then tried == [] && end == NotStored(false)
    else if end.Lost? then tried == []
    else
      && |tried| == 1 && IsApart(tried[0], kept, try) && tried[0] == Inserts(tried[0].kept, fate)
      && end == if fate.Succeeded? then Stored else NotStored(fate.content)
  }

  lemma FirstIsOwn(step: M.Action, batches: seq<Batch>, transform: Transform, try: B.Try)
    requires transform(batches).Ok? && step.Attempt? && step.kept == transform(batches).value
    ensures OwnSteps([step], batches, transform, try)
  {
  }

  lemma ApartIsOwn(steps: seq<M.Action>, batches: seq<Batch>, transform: Transform, try: B.Try)
    requires transform(batches).Ok? && forall a :: a in steps ==> WorkersOwn(a) || OthersOwn(a)
    requires forall a :: a in steps && a.Attempt? ==> IsApart(a, transform(batches).value, try)
    ensures OwnSteps(steps, batches, transform, try)
  {
  }

  lemma InsertsOfOne(step: M.Action, end: Ended, kept: seq<Batch>, contentFailures: nat, try: B.Try, fates: Fates)
    requires step == Inserts(kept, fates.insert)
    requires fates.insert.Succeeded? || !fates.insert.content || contentFailures < CONTENT_RETRIES
    requires end == if fates.insert.Succeeded? then Stored else NotStored(fates.insert.content)
    ensures Attempts([step]) == [step] && InsertsOf([step], end, kept, contentFailures, try, fates)
  {
    assert [step][..0] == [];
  }

  lemma InsertsOfBoth(step: M.Action, tried: seq<M.Action>, end: Ended, kept: seq<Batch>, contentFailures: nat,
                      try: B.Try, fates: Fates)
    requires step == Inserts(kept, fates.insert) && ApartOf(tried, end, kept, try, fates.apart)
    requires !fates.insert.Succeeded? && fates.insert.content && contentFailures >= CONTENT_RETRIES
    ensures Attempts([step]) == [step] && InsertsOf([step] + tried, end, kept, contentFailures, try, fates)
  {
    assert [step][..0] == [];
  }

  class Stores {
    var wal: seq<Write>
    var floor: Id
    var logs: map<Token, seq<Batch>>
    var acked: map<Token, seq<Batch>>
    // How many of the Project's failures since it last stored were content errors.
    var contentFailures: nat

    ghost function Mover(worker: M.Worker): M.State
      reads this
    {
      M.State(wal, floor, logs, acked, worker)
    }

    constructor ()
      ensures Mover(M.Down) == M.Init()
    {
      wal, floor, logs, acked, contentFailures := [], 0, map[], map[], 0;
    }

    /** One step of another while the worker is at some place; what it can't do now it doesn't. */
    method Other(a: M.Action, ghost worker: M.Worker) returns (crashed: bool)
      requires worker != M.Down && OthersOwn(a)
      modifies this`wal, this`floor, this`contentFailures
      ensures Mover(if crashed then M.Down else worker) == M.Apply(old(Mover(worker)), a)
      ensures contentFailures == if crashed then 0 else old(contentFailures)
      ensures !crashed ==> Cursor(wal) == old(Cursor(wal)) && Recorded(wal) == old(Recorded(wal))
    {
      match a
      case Ingest(candidate, written) =>
        if BatchIds.CanChoose(floor, candidate) && DistinctIds(written) && IdsOf(written) !! LogIds(Written(wal)) {
          floor := BatchIds.Chosen(floor, candidate);
          AppendUnfolds(wal, SetBatch(Batch(floor, written)));
          wal := wal + [SetBatch(Batch(floor, written))];
        }
        return false;
      case OtherProject(id) =>
        floor := BatchIds.Max(floor, id);
        return false;
      case Crash(length) =>
        if length < Synced(wal) || length > |wal| {
          return false;
        }
        wal, floor, contentFailures := wal[..length], 0, 0;
        return true;
    }

    /** What others do between two statements of the worker's, up to a crash. */
    method Meanwhile(others: seq<M.Action>, ghost worker: M.Worker) returns (crashed: bool, ghost steps: seq<M.Action>)
      requires worker != M.Down
      modifies this`wal, this`floor, this`contentFailures
      ensures forall a :: a in steps ==> OthersOwn(a)
      ensures !crashed ==> forall a :: a in others && (a.Ingest? || a.OtherProject? || a.Crash?) ==> a in steps
      ensures Mover(if crashed then M.Down else worker) == M.Run(old(Mover(worker)), steps)
      ensures contentFailures == if crashed then 0 else old(contentFailures)
      ensures !crashed ==> Cursor(wal) == old(Cursor(wal)) && Recorded(wal) == old(Recorded(wal))
    {
      ghost var s := Mover(worker);
      crashed, steps := false, [];
      for i := 0 to |others|
        invariant !crashed && OwnOf(others[..i], steps)
        invariant Mover(worker) == M.Run(s, steps)
        invariant contentFailures == old(contentFailures)
        invariant Cursor(wal) == old(Cursor(wal)) && Recorded(wal) == old(Recorded(wal))
      {
        if OthersOwn(others[i]) {
          crashed := Other(others[i], worker);
          RunMore(s, steps, others[i]);
          OwnOfMore(others, i, steps);
          steps := steps + [others[i]];
          if crashed {
            return;
          }
        } else {
          OwnOfMore(others, i, steps);
        }
      }
      assert others[..|others|] == others;
    }

    /** RecordLogInsert, unless the range is the recorded one. */
    method RecordRange(range: Token, batches: seq<Batch>, again: bool, fate: Fate)
        returns (ok: bool, ghost step: M.Action)
      modifies this`wal
      ensures WorkersOwn(step) && !step.Attempt?
      ensures Mover(if ok then M.Inserting(range, batches) else M.Idle) ==
              M.Apply(old(Mover(M.Chosen(range, batches, again))), step)
    {
      step := M.Record(fate.TookEffect(), fate.Succeeded?);
      if again {
        return true, step;
      }
      if fate.TookEffect() {
        wal := wal + [SetRecorded(range.upTo)];
      }
      return fate.Succeeded?, step;
    }

    /** InsertLogBatches: one block under the range's token, which the table takes once. */
    method Insert(range: Token, ghost batches: seq<Batch>, kept: seq<Batch>, fate: Fate)
        returns (ghost step: M.Action)
      requires KeptOf(kept, batches)
      modifies this`logs, this`acked
      ensures WorkersOwn(step) && step == Inserts(kept, fate)
      ensures Mover(if fate.Succeeded? then M.Inserted(range) else M.Inserting(range, batches)) ==
              M.Apply(old(Mover(M.Inserting(range, batches))), step)
    {
      step := M.Attempt(kept, fate.TookEffect(), fate.Succeeded?);
      if fate.TookEffect() && range !in logs && Rows(kept) != [] {
        logs := logs[range := kept];
      }
      if fate.Succeeded? && range !in acked {
        acked := acked[range := kept];
      }
    }

    /** The inserts of a pass: the range's Logs as the transform answers, and once they have failed
        on their content too often, those without the Logs the search rejects. */
    method InsertRange(range: Token, batches: seq<Batch>, transform: Transform, try: B.Try, fates: Fates,
                       others: seq<M.Action>)
        returns (end: Ended, ghost steps: seq<M.Action>)
      requires KeepsIds(transform)
      requires forall b :: b in batches ==> DistinctIds(b.logs)
      modifies this
      ensures OwnSteps(steps, batches, transform, try)
      ensures Mover(Left(end, range, batches)) == M.Run(old(Mover(M.Inserting(range, batches))), steps)
      ensures transform(batches).Failed? ==> end == NotStored(false) && steps == []
      ensures transform(batches).Ok? ==>
                InsertsOf(Attempts(steps), end, transform(batches).value, old(contentFailures), try, fates)
      ensures contentFailures == if end.Lost? then 0 else old(contentFailures)
    {
      ghost var s := Mover(M.Inserting(range, batches));
      var transformed := transform(batches);
      if transformed.Failed? {
        return NotStored(false), [];
      }
      ghost var step := Insert(range, batches, transformed.value, fates.insert);
      RunOne(s, step);
      steps := [step];
      FirstIsOwn(step, batches, transform, try);
      if fates.insert.Succeeded? || !fates.insert.content || contentFailures < CONTENT_RETRIES {
        end := if fates.insert.Succeeded? then Stored else NotStored(fates.insert.content);
        InsertsOfOne(step, end, transformed.value, contentFailures, try, fates);
        return;
      }
      ghost var more, failures := [], contentFailures;
      end, more := InsertApart(range, batches, transformed.value, try, fates.apart, others);
      RunConcat(s, steps, more);
      AttemptsOfBoth(steps, more);
      InsertsOfBoth(step, Attempts(more), end, transformed.value, failures, try, fates);
      ApartIsOwn(more, batches, transform, try);
      OwnBoth(steps, more, batches, transform, try);
      steps := steps + more;
    }

    /** storeApart, of a range whose content has failed too often. */
    method InsertApart(range: Token, batches: seq<Batch>, transformed: seq<Batch>, try: B.Try, fate: Fate,
                       others: seq<M.Action>)
        returns (end: Ended, ghost steps: seq<M.Action>)
      requires KeptOf(transformed, batches)
      modifies this
      ensures forall a :: a in steps ==> WorkersOwn(a) || OthersOwn(a)
      ensures Mover(Left(end, range, batches)) == M.Run(old(Mover(M.Inserting(range, batches))), steps)
      ensures ApartOf(Attempts(steps), end, transformed, try, fate)
      ensures forall a :: a in steps && a.Attempt? ==> IsApart(a, transformed, try)
      ensures contentFailures == if end.Lost? then 0 else old(contentFailures)
    {
      ghost var s := Mover(M.Inserting(range, batches));
      var apart := B.StoreApart(try, transformed);
      if apart.Failed? {
        return NotStored(false), [];
      }
      var crashed;
      crashed, steps := Meanwhile(others, M.Inserting(range, batches));
      NoAttempts(steps);
      if crashed {
        return Lost, steps;
      }
      ApartKeptToo(batches, transformed, apart.value, B.SkipIds(B.RejectedLogs(try, Rows(transformed)).value));
      ghost var step := Insert(range, batches, apart.value, fate);
      RunMore(s, steps, step);
      AttemptsOfBoth(steps, [step]);
      steps := steps + [step];
      end := if fate.Succeeded? then Stored else NotStored(fate.content);
    }

    /** SetLogProcessingCursor. */
    method SetCursorTo(range: Token, fate: Fate) returns (ghost step: M.Action)
      modifies this`wal
      ensures WorkersOwn(step) && !step.Attempt?
      ensures Mover(if fate.Succeeded? then M.Moved(range.upTo) else M.Idle) ==
              M.Apply(old(Mover(M.Inserted(range))), step)
      ensures fate.Succeeded? ==> Cursor(wal) == range.upTo
    {
      step := M.MoveCursor(fate.TookEffect(), fate.Succeeded?);
      if fate.TookEffect() {
        AppendUnfolds(wal, SetCursor(range.upTo));
        wal := wal + [SetCursor(range.upTo)];
      }
    }

    /** DeleteLogBatchesUpTo, whose failure is only logged. */
    method Delete(upTo: Id, fate: Fate) returns (ghost step: M.Action)
      modifies this`wal
      ensures WorkersOwn(step) && !step.Attempt?
      ensures Mover(M.Idle) == M.Apply(old(Mover(M.Moved(upTo))), step)
      ensures Cursor(wal) == old(Cursor(wal))
    {
      step := M.Delete(fate.TookEffect());
      if fate.TookEffect() {
        AppendUnfolds(wal, DeleteUpTo(upTo));
        wal := wal + [DeleteUpTo(upTo)];
      }
    }

    /** The end of a pass that stored its range: the cursor moves past it, and its batches go. */
    method Finish(range: Token, fates: Fates, others: seq<M.Action>) returns (end: Ended, ghost steps: seq<M.Action>)
      modifies this`wal, this`floor, this`contentFailures
      ensures forall a :: a in steps ==> (WorkersOwn(a) || OthersOwn(a)) && !a.Attempt?
      ensures Mover(Freed(end)) == M.Run(old(Mover(M.Inserted(range))), steps)
      ensures end.Stored? ==> Cursor(wal) == range.upTo
      ensures end.NotStored? ==> !end.content
      ensures contentFailures == if end.Lost? then 0 else old(contentFailures)
    {
      ghost var s := Mover(M.Inserted(range));
      ghost var step, more;
      step := SetCursorTo(range, fates.cursor);
      RunOne(s, step);
      steps := [step];
      if !fates.cursor.Succeeded? {
        return NotStored(false), steps;
      }
      var crashed;
      crashed, more := Meanwhile(others, M.Moved(range.upTo));
      RunConcat(s, steps, more);
      steps := steps + more;
      if crashed {
        return Lost, steps;
      }
      step := Delete(range.upTo, fates.delete);
      RunMore(s, steps, step);
      return Stored, steps + [step];
    }

    /** From the end of the inserts on: the rest of the pass, or none. */
    method FinishOrNot(inserted: Ended, range: Token, batches: seq<Batch>, fates: Fates, others: Others)
        returns (end: Ended, ghost steps: seq<M.Action>)
      modifies this`wal, this`floor, this`contentFailures
      ensures forall a :: a in steps ==> (WorkersOwn(a) || OthersOwn(a)) && !a.Attempt?
      ensures Mover(Freed(end)) == M.Run(old(Mover(Left(inserted, range, batches))), steps)
      ensures end.Stored? ==> Cursor(wal) == range.upTo
      ensures end.NotStored? ==> end == if inserted.NotStored? then inserted else NotStored(false)
      ensures !inserted.Stored? ==> end == inserted
      ensures contentFailures == if end.Lost? && inserted != Lost then 0 else old(contentFailures)
    {
      ghost var s := Mover(Left(inserted, range, batches));
      match inserted
      case Lost => return Lost, [];
      case NotStored(_) =>
        RunOne(s, M.GiveUp);
        return inserted, [M.GiveUp];
      case Stored =>
        var crashed;
        crashed, steps := Meanwhile(others(5), M.Inserted(range));
        if crashed {
          return Lost, steps;
        }
        ghost var more;
        end, more := Finish(range, fates, others(6));
        RunConcat(s, steps, more);
        steps := steps + more;
    }

    /** The record of the pass's range, and what others do before its first insert. */
    method RecordChosen(range: Token, batches: seq<Batch>, again: bool, fates: Fates, others: seq<M.Action>)
        returns (end: Ended, ghost steps: seq<M.Action>)
      modifies this`wal, this`floor, this`contentFailures
      ensures forall a :: a in steps ==> (WorkersOwn(a) || OthersOwn(a)) && !a.Attempt?
      ensures Mover(if end.Stored? then M.Inserting(range, batches) else Freed(end))
           == M.Run(old(Mover(M.Chosen(range, batches, again))), steps)
      ensures end.NotStored? ==> !end.content
      ensures contentFailures == if end.Lost? then 0 else old(contentFailures)
    {
      ghost var s := Mover(M.Chosen(range, batches, again));
      var ok, crashed;
      ghost var step, more;
      ok, step := RecordRange(range, batches, again, fates.record);
      RunOne(s, step);
      steps := [step];
      if !ok {
        return NotStored(false), steps;
      }
      crashed, more := Meanwhile(others, M.Inserting(range, batches));
      RunConcat(s, steps, more);
      return if crashed then Lost else Stored, steps + more;
    }

    /** The inserts of the pass's range and what follows them. */
    method InsertAndFinish(range: Token, batches: seq<Batch>, transform: Transform, try: B.Try, fates: Fates,
                           others: Others)
        returns (end: Ended, ghost steps: seq<M.Action>)
      requires KeepsIds(transform)
      requires forall b :: b in batches ==> DistinctIds(b.logs)
      modifies this
      ensures Mover(Freed(end)) == M.Run(old(Mover(M.Inserting(range, batches))), steps)
      ensures OwnSteps(steps, batches, transform, try)
      ensures end.Stored? ==> Cursor(wal) == range.upTo
      ensures end.NotStored? ==> end.content == ContentError(Attempts(steps), old(contentFailures), fates)
      ensures contentFailures == if end.Lost? then 0 else old(contentFailures)
    {
      ghost var s := Mover(M.Inserting(range, batches));
      var inserted;
      inserted, steps := InsertRange(range, batches, transform, try, fates, others(4));
      ghost var more;
      end, more := FinishOrNot(inserted, range, batches, fates, others);
      RunConcat(s, steps, more);
      AttemptsAfter(steps, more);
      OwnBoth(steps, more, batches, transform, try);
      steps := steps + more;
    }

    /** The pass from the batches it chose on. */
    method StoreChosen(range: Token, batches: seq<Batch>, again: bool, transform: Transform, try: B.Try,
                       fates: Fates, others: Others)
        returns (end: Ended, ghost steps: seq<M.Action>)
      requires forall b :: b in batches ==> DistinctIds(b.logs)
      requires KeepsIds(transform)
      modifies this
      ensures Mover(Freed(end)) == M.Run(old(Mover(M.Chosen(range, batches, again))), steps)
      ensures OwnSteps(steps, batches, transform, try)
      ensures end.Stored? ==> Cursor(wal) == range.upTo
      ensures end.NotStored? ==> end.content == ContentError(Attempts(steps), old(contentFailures), fates)
      ensures contentFailures == if end.Lost? then 0 else old(contentFailures)
    {
      ghost var s := Mover(M.Chosen(range, batches, again));
      end, steps := RecordChosen(range, batches, again, fates, others(3));
      NoAttempts(steps);
      if !end.Stored? {
        return;
      }
      ghost var more;
      end, more := InsertAndFinish(range, batches, transform, try, fates, others);
      RunConcat(s, steps, more);
      AttemptsBefore(steps, more);
      OwnBoth(steps, more, batches, transform, try);
      steps := steps + more;
    }

    /** The pass from the batches it read on. */
    method StoreRead(range: Token, batches: seq<Batch>, again: bool, transform: Transform, try: B.Try, fates: Fates,
                     others: Others)
        returns (end: Ended, ghost steps: seq<M.Action>)
      requires forall b :: b in batches ==> DistinctIds(b.logs)
      requires KeepsIds(transform)
      modifies this
      ensures Mover(Freed(end)) == M.Run(old(Mover(M.Chosen(range, batches, again))), steps)
      ensures OwnSteps(steps, batches, transform, try)
      ensures end.Stored? ==> Cursor(wal) == range.upTo
      ensures end.NotStored? ==> end.content == ContentError(Attempts(steps), old(contentFailures), fates)
      ensures contentFailures == if end.Lost? then 0 else old(contentFailures)
    {
      ghost var s := Mover(M.Chosen(range, batches, again));
      var crashed;
      crashed, steps := Meanwhile(others(2), M.Chosen(range, batches, again));
      NoAttempts(steps);
      if crashed {
        return Lost, steps;
      }
      ghost var more;
      end, more := StoreChosen(range, batches, again, transform, try, fates, others);
      RunConcat(s, steps, more);
      AttemptsBefore(steps, more);
      OwnBoth(steps, more, batches, transform, try);
      steps := steps + more;
    }

    /** The first reads of a pass: the cursor, and the recorded id. */
    method ReadIds(others: Others) returns (crashed: bool, cursor: Id, recorded: Id, ghost steps: seq<M.Action>)
      modifies this`wal, this`floor, this`contentFailures
      ensures forall a :: a in steps ==> (WorkersOwn(a) || OthersOwn(a)) && !a.Attempt?
      ensures Mover(if crashed then M.Down else M.Reading(cursor, recorded)) == M.Run(old(Mover(M.Idle)), steps)
      ensures !crashed ==>
                && cursor == Cursor(wal) == old(Cursor(wal)) && recorded == Recorded(wal) == old(Recorded(wal))
      ensures contentFailures == if crashed then 0 else old(contentFailures)
    {
      ghost var s := Mover(M.Idle);
      ghost var more;
      cursor, recorded := Cursor(wal), 0;
      crashed, steps := Meanwhile(others(0), M.Idle);
      if crashed {
        return;
      }
      recorded := Recorded(wal);
      RunMore(s, steps, M.Begin);
      steps := steps + [M.Begin];
      crashed, more := Meanwhile(others(1), M.Reading(cursor, recorded));
      RunConcat(s, steps, more);
      steps := steps + more;
    }

    /** The reads a pass begins with: the cursor, the recorded id, and then the batches. */
    method Begin(others: Others) returns (crashed: bool, batches: seq<Batch>, again: bool, ghost steps: seq<M.Action>)
      modifies this`wal, this`floor, this`contentFailures
      ensures forall a :: a in steps ==> (WorkersOwn(a) || OthersOwn(a)) && !a.Attempt?
      ensures Mover(WorkerWith(crashed, Cursor(wal), batches, again)) == M.Run(old(Mover(M.Idle)), steps)
      ensures !crashed ==>
                && steps != [] && (batches, again) == SelectedAt(old(Mover(M.Idle)), steps[..|steps| - 1])
                && Cursor(wal) == old(Cursor(wal))
      ensures contentFailures == if crashed then 0 else old(contentFailures)
    {
      ghost var s := Mover(M.Idle);
      var cursor, recorded;
      batches, again := [], false;
      crashed, cursor, recorded, steps := ReadIds(others);
      if crashed {
        return;
      }
      var selected := Selected(Live(wal), cursor, recorded);
      batches, again := selected.0, selected.1;
      RunMore(s, steps, M.ReadBatches);
      assert (steps + [M.ReadBatches])[..|steps|] == steps;
      steps := steps + [M.ReadBatches];
    }

    /** What a pass does once it has read its batches, unless it crashed before. */
    method StoreSelected(crashed: bool, batches: seq<Batch>, again: bool, transform: Transform, try: B.Try,
                         fates: Fates, others: Others)
        returns (result: Passed, ghost steps: seq<M.Action>)
      requires forall b :: b in batches ==> DistinctIds(b.logs)
      requires KeepsIds(transform)
      modifies this
      ensures Mover(if result.Crashed? then M.Down else M.Idle)
           == M.Run(old(Mover(WorkerWith(crashed, Cursor(wal), batches, again))), steps)
      ensures OwnSteps(steps, batches, transform, try)
      ensures result.Done? ==>
                && !crashed
                && result.more == (batches != [] && (LogCount(batches) >= MAX_LOGS_PER_COMMIT || again))
                && Cursor(wal) == if batches == [] then old(Cursor(wal)) else batches[|batches| - 1].id
      ensures result.Retry? ==>
                !crashed && result.content == ContentError(Attempts(steps), old(contentFailures), fates)
      ensures contentFailures == if !crashed && result.Crashed? then 0 else old(contentFailures)
      ensures crashed ==> result.Crashed? && steps == []
    {
      if crashed {
        return Crashed, [];
      }
      if batches == [] {
        return Done(false), [];
      }
      var end;
      end, steps := StoreRead(Token(Cursor(wal), batches[|batches| - 1].id), batches, again, transform, try, fates,
          others);
      match end
      case Stored => result := Done(LogCount(batches) >= MAX_LOGS_PER_COMMIT || again);
      case NotStored(content) => result := Retry(content);
      case Lost => result := Crashed;
    }

    /** The reads, from stores whose batches' Logs are apart. */
    method Choose(others: Others) returns (crashed: bool, batches: seq<Batch>, again: bool, ghost steps: seq<M.Action>)
      requires M.Inv(Mover(M.Idle))
      modifies this`wal, this`floor, this`contentFailures
      ensures forall a :: a in steps ==> (WorkersOwn(a) || OthersOwn(a)) && !a.Attempt?
      ensures Mover(WorkerWith(crashed, Cursor(wal), batches, again)) == M.Run(old(Mover(M.Idle)), steps)
      ensures !crashed ==>
                && steps != [] && (batches, again) == SelectedAt(old(Mover(M.Idle)), steps[..|steps| - 1])
                && Cursor(wal) == old(Cursor(wal))
      ensures forall b :: b in batches ==> DistinctIds(b.logs)
      ensures contentFailures == if crashed then 0 else old(contentFailures)
    {
      ghost var s := Mover(M.Idle);
      crashed, batches, again, steps := Begin(others);
      if crashed {
        batches := [];
      } else if batches != [] {
        RunKeepsInv(s, steps);
        ChosenHasDistinctIds(M.Run(s, steps));
      }
    }

    /** Stores the Project's Log batches after its cursor, or the range it last recorded again, while ingest
        writes, other Projects' and crashes come between its statements. A pass is a run of the worker's
        own steps and theirs; one that is done has moved the cursor past the range it chose, or had
        nothing to store. read tells after which steps it read its batches. */
    method StoreLogs(transform: Transform, try: B.Try, fates: Fates, others: Others)
        returns (result: Passed, ghost steps: seq<M.Action>, ghost read: nat)
      requires M.Inv(Mover(M.Idle)) && KeepsIds(transform)
      modifies this
      ensures Mover(if result.Crashed? then M.Down else M.Idle) == M.Run(old(Mover(M.Idle)), steps)
      ensures read <= |steps|
      ensures var (batches, again) := SelectedAt(old(Mover(M.Idle)), steps[..read]);
              && OwnSteps(steps, batches, transform, try)
              && (result.Done? ==>
                    && result.more == (batches != [] && (LogCount(batches) >= MAX_LOGS_PER_COMMIT || again))
                    && Cursor(wal) == if batches == [] then old(Cursor(wal)) else batches[|batches| - 1].id)
      ensures result.Retry? ==> result.content == ContentError(Attempts(steps), old(contentFailures), fates)
      ensures contentFailures == if result.Crashed? then 0 else old(contentFailures)
    {
      ghost var s := Mover(M.Idle);
      var crashed, batches, again;
      crashed, batches, again, steps := Choose(others);
      read := if crashed then 0 else |steps| - 1;
      ghost var more;
      result, more := StoreSelected(crashed, batches, again, transform, try, fates, others);
      ReadThenRest(s, steps, more, SelectedAt(s, steps[..read]).0, transform, try);
      assert (steps + more)[..read] == steps[..read];
      steps := steps + more;
    }

    /** processProject: a pass that fails counts one failure more of its Logs' content if its last error was
        one, and a pass that is done clears them. Whatever it ended as, the stores are as the machine
        keeps them. */
    method ProcessProject(transform: Transform, try: B.Try, fates: Fates, others: Others)
        returns (result: Passed, ghost steps: seq<M.Action>, ghost read: nat)
      requires M.Inv(Mover(M.Idle)) && KeepsIds(transform)
      modifies this
      ensures Mover(if result.Crashed? then M.Down else M.Idle) == M.Run(old(Mover(M.Idle)), steps)
      ensures M.Inv(Mover(if result.Crashed? then M.Down else M.Idle))
      ensures read <= |steps| && OwnSteps(steps, SelectedAt(old(Mover(M.Idle)), steps[..read]).0, transform, try)
      ensures contentFailures ==
                if !result.Retry? then 0
                else old(contentFailures) + if ContentError(Attempts(steps), old(contentFailures), fates) then 1 else 0
    {
      ghost var s := Mover(M.Idle);
      result, steps, read := StoreLogs(transform, try, fates, others);
      RunKeepsInv(s, steps);
      match result
      case Retry(content) => contentFailures := if content then contentFailures + 1 else contentFailures;
      case _ => contentFailures := 0;
    }
  }

  /** What a pass from a state chooses that reads its batches after some steps. */
  ghost function SelectedAt(s: M.State, steps: seq<M.Action>): (seq<Batch>, bool) {
    Selected(Live(M.Run(s, steps).wal), Cursor(s.wal), Recorded(s.wal))
  }

  lemma AttemptsAfter(first: seq<M.Action>, more: seq<M.Action>)
    requires forall a :: a in more ==> !a.Attempt?
    ensures Attempts(first + more) == Attempts(first)
  {
    AttemptsOfBoth(first, more);
    NoAttempts(more);
  }

  lemma AttemptsBefore(first: seq<M.Action>, more: seq<M.Action>)
    requires forall a :: a in first ==> !a.Attempt?
    ensures Attempts(first + more) == Attempts(more)
  {
    AttemptsOfBoth(first, more);
    NoAttempts(first);
  }

  /** The steps of the reads, with no insert among them, and then the others. */
  lemma ReadThenRest(s: M.State, first: seq<M.Action>, more: seq<M.Action>, batches: seq<Batch>, transform: Transform,
                     try: B.Try)
    requires forall a :: a in first ==> (WorkersOwn(a) || OthersOwn(a)) && !a.Attempt?
    requires OwnSteps(more, batches, transform, try)
    ensures M.Run(s, first + more) == M.Run(M.Run(s, first), more)
    ensures OwnSteps(first + more, batches, transform, try) && Attempts(first + more) == Attempts(more)
  {
    RunConcat(s, first, more);
    AttemptsBefore(first, more);
  }

  lemma ChosenHasDistinctIds(s: M.State)
    requires M.Inv(s) && s.worker.Chosen?
    ensures forall b :: b in s.worker.batches ==> DistinctIds(b.logs)
  {
    M.WrittenDistinct(s.wal, s.acked.Keys);
    WrittenSorted(s.wal, s.acked.Keys);
    BetweenMembers(Written(s.wal), s.worker.range.after, s.worker.range.upTo);
  }

  /** What storeApart leaves of what the transform kept is kept of what arrived. */
  lemma ApartKeptToo(arrived: seq<Batch>, transformed: seq<Batch>, apart: seq<Batch>, skip: set<nat>)
    requires KeptOf(transformed, arrived) && B.AreWithout(apart, transformed, skip)
    ensures KeptOf(apart, arrived)
  {
    B.ApartIsKept(transformed, apart, skip);
    forall i | 0 <= i < |apart|
      ensures IdsOf(apart[i].logs) <= IdsOf(arrived[i].logs)
    {
    }
  }
}

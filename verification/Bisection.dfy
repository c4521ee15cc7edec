/** How Log processing stores Logs that fail on their content together without those that fail on
    their own (logprocessing/processor.go storeApart, rejectedLogs, batchesOf). */
module Bisection {
  import opened LogBatches

  /** What trying Logs without storing them answers: they would store, they fail on their content,
      or the try says nothing of them, as when the store fails or Stop is called. */
  datatype Answer = Accepted | Rejected | NoAnswer

  datatype Result<T> = Ok(value: T) | Failed

  /** The try of each group of Logs. */
  type Try = seq<Row> -> Answer

  /** A group fails on its content just when one of its Logs does on its own. */
  ghost predicate Faithful(try: Try, bad: Row -> bool) {
    forall group :: try(group) != NoAnswer ==>
      (try(group) == Rejected <==> exists r :: r in group && bad(r))
  }

  function Filter(rows: seq<Row>, keep: Row -> bool): seq<Row> {
    if rows == [] then []
    else (if keep(rows[0]) then [rows[0]] else []) + Filter(rows[1..], keep)
  }

  /** The Logs that fail on their own, by trying the Logs in halves. */
  function RejectedLogs(try: Try, logs: seq<Row>): Result<seq<Row>>
    decreases |logs|
  {
    if logs == [] then Ok([])
    else
      match try(logs)
      case Accepted => Ok([])
      case NoAnswer => Failed
      case Rejected =>
        if |logs| == 1 then Ok(logs)
        else
          var half := |logs| / 2;
          var first := RejectedLogs(try, logs[..half]);
          if first.Failed? then Failed
          else
            var second := RejectedLogs(try, logs[half..]);
            if second.Failed? then Failed else Ok(first.value + second.value)
  }

  lemma FilterFront(first: Row, rest: seq<Row>, keep: Row -> bool)
    ensures Filter([first] + rest, keep) == (if keep(first) then [first] else []) + Filter(rest, keep)
  {
    assert ([first] + rest)[1..] == rest;
  }

  lemma {:induction false} FilterAppend(a: seq<Row>, b: seq<Row>, keep: Row -> bool)
    ensures Filter(a + b, keep) == Filter(a, keep) + Filter(b, keep)
  {
    if a == [] {
      assert a + b == b;
    } else {
      FilterAppend(a[1..], b, keep);
      assert (a + b)[0] == a[0] && (a + b)[1..] == a[1..] + b;
      FilterFront(a[0], a[1..], keep);
      FilterFront(a[0], a[1..] + b, keep);
      assert a == [a[0]] + a[1..] && a + b == [a[0]] + (a[1..] + b);
    }
  }

  lemma {:induction false} FilterNone(rows: seq<Row>, keep: Row -> bool)
    requires forall r :: r in rows ==> !keep(r)
    ensures Filter(rows, keep) == []
  {
    if rows != [] {
      assert rows[0] in rows;
      FilterNone(rows[1..], keep);
    }
  }

  /** The search finds exactly the Logs that fail on their own, in order. */
  lemma {:induction false} RejectedAreTheBad(try: Try, bad: Row -> bool, logs: seq<Row>)
    requires Faithful(try, bad) && RejectedLogs(try, logs).Ok?
    ensures RejectedLogs(try, logs).value == Filter(logs, bad)
    decreases |logs|
  {
    if logs != [] && try(logs) == Rejected {
      if |logs| == 1 {
        SingleBad(logs, bad);
      } else {
        var half := |logs| / 2;
        RejectedAreTheBad(try, bad, logs[..half]);
        RejectedAreTheBad(try, bad, logs[half..]);
        FilterAppend(logs[..half], logs[half..], bad);
        assert logs == logs[..half] + logs[half..];
      }
    } else if logs != [] {
      FilterNone(logs, bad);
    }
  }

  lemma SingleBad(logs: seq<Row>, bad: Row -> bool)
    requires |logs| == 1 && exists r :: r in logs && bad(r)
    ensures Filter(logs, bad) == logs
  {
    assert bad(logs[0]) && logs[1..] == [];
  }

  /** Whatever tries of groups answer, a rejected Log is one of the Logs and fails on its own. */
  lemma {:induction false} RejectedFailAlone(try: Try, logs: seq<Row>)
    requires RejectedLogs(try, logs).Ok?
    ensures forall r :: r in RejectedLogs(try, logs).value ==> r in logs && try([r]) == Rejected
    decreases |logs|
  {
    if logs != [] && try(logs) == Rejected {
      if |logs| == 1 {
        assert logs == [logs[0]];
      } else {
        var half := |logs| / 2;
        RejectedFailAlone(try, logs[..half]);
        RejectedFailAlone(try, logs[half..]);
        assert logs == logs[..half] + logs[half..];
      }
    }
  }

  /** The search fails only where a try gives no answer. */
  lemma {:induction false} FailsWithoutAnswer(try: Try, logs: seq<Row>) returns (group: seq<Row>)
    requires RejectedLogs(try, logs).Failed?
    ensures try(group) == NoAnswer
    decreases |logs|
  {
    group := logs;
    if try(logs) == Rejected {
      var half := |logs| / 2;
      if RejectedLogs(try, logs[..half]).Failed? {
        group := FailsWithoutAnswer(try, logs[..half]);
      } else {
        group := FailsWithoutAnswer(try, logs[half..]);
      }
    }
  }

  lemma NewLast(batches: seq<Batch>, l: Row)
    ensures Rows(batches + [Batch(l.batch, [l.log])]) == Rows(batches) + [l]
  {
    assert (batches + [Batch(l.batch, [l.log])])[..|batches|] == batches;
    assert RowsOf(Batch(l.batch, [l.log])) == [l];
  }

  lemma LongerLast(batches: seq<Batch>, l: Row)
    requires batches != [] && batches[|batches| - 1].id == l.batch
    ensures var n := |batches| - 1;
            Rows(batches[n := Batch(batches[n].id, batches[n].logs + [l.log])]) == Rows(batches) + [l]
  {
    var n := |batches| - 1;
    var last := Batch(batches[n].id, batches[n].logs + [l.log]);
    assert RowsOf(last) == RowsOf(batches[n]) + [l];
    assert batches[n := last][..n] == batches[..n];
  }

  /** batchesOf: the Logs back in batches, in order. Flattened they are the Logs again; each batch
      has Logs, and its neighbours other ids. */
  method BatchesOf(logs: seq<Row>) returns (batches: seq<Batch>)
    ensures Rows(batches) == logs
    ensures forall i :: 0 <= i < |batches| ==> batches[i].logs != []
    ensures forall i :: 0 < i < |batches| ==> batches[i - 1].id != batches[i].id
  {
    batches := [];
    for i := 0 to |logs|
      invariant Rows(batches) == logs[..i]
      invariant forall k :: 0 <= k < |batches| ==> batches[k].logs != []
      invariant forall k :: 0 < k < |batches| ==> batches[k - 1].id != batches[k].id
    {
      var l := logs[i];
      if |batches| == 0 || batches[|batches| - 1].id != l.batch {
        NewLast(batches, l);
        batches := batches + [Batch(l.batch, [l.log])];
      } else {
        var n := |batches| - 1;
        var last := Batch(batches[n].id, batches[n].logs + [l.log]);
        LongerLast(batches, l);
        batches := batches[n := last];
      }
      assert logs[..i + 1] == logs[..i] + [l];
    }
    assert logs[..|logs|] == logs;
  }

  /** The Logs whose ids are not to be skipped. */
  function Without(logs: seq<Log>, skip: set<nat>): seq<Log> {
    if logs == [] then []
    else
      var n := |logs| - 1;
      var before := Without(logs[..n], skip);
      if logs[n].id in skip then before else before + [logs[n]]
  }

  /** What is kept is in the order it came in. */
  lemma {:induction false} WithoutInOrder(a: seq<Log>, b: seq<Log>, skip: set<nat>)
    ensures Without(a + b, skip) == Without(a, skip) + Without(b, skip)
  {
    if b == [] {
      assert a + b == a;
    } else {
      WithoutInOrder(a, b[..|b| - 1], skip);
      assert (a + b)[..|a + b| - 1] == a + b[..|b| - 1];
    }
  }

  function BatchWithout(batch: Batch, skip: set<nat>): Batch {
    Batch(batch.id, Without(batch.logs, skip))
  }

  function SkipIds(rejected: seq<Row>): set<nat> {
    set r | r in rejected :: r.log.id
  }

  /** The batches, each with its Logs but those of the ids. */
  ghost predicate AreWithout(kept: seq<Batch>, batches: seq<Batch>, skip: set<nat>) {
    && |kept| == |batches|
    && forall i :: 0 <= i < |batches| ==> kept[i] == BatchWithout(batches[i], skip)
  }

  /** storeApart up to its insert: the batches to insert in the rejected batches' place, under the
      unchanged range, each with its Logs but the rejected ones. */
  method StoreApart(try: Try, batches: seq<Batch>) returns (kept: Result<seq<Batch>>)
    ensures kept.Failed? <==> RejectedLogs(try, Rows(batches)).Failed?
    ensures kept.Ok? ==> AreWithout(kept.value, batches, SkipIds(RejectedLogs(try, Rows(batches)).value))
  {
    var rejected := RejectedLogs(try, Rows(batches));
    if rejected.Failed? {
      return Failed;
    }
    var skip := SkipIds(rejected.value);
    var left := [];
    for i := 0 to |batches|
      invariant |left| == i
      invariant forall k :: 0 <= k < i ==> left[k] == BatchWithout(batches[k], skip)
    {
      var logs := KeepWithout(batches[i].logs, skip);
      left := left + [Batch(batches[i].id, logs)];
    }
    return Ok(left);
  }

  method KeepWithout(logs: seq<Log>, skip: set<nat>) returns (kept: seq<Log>)
    ensures kept == Without(logs, skip)
  {
    kept := [];
    for i := 0 to |logs|
      invariant kept == Without(logs[..i], skip)
    {
      assert logs[..i + 1][..i] == logs[..i];
      if logs[i].id !in skip {
        kept := kept + [logs[i]];
      }
    }
    assert logs[..|logs|] == logs;
  }

  lemma {:induction false} WithoutKeeps(logs: seq<Log>, skip: set<nat>)
    requires DistinctIds(logs)
    ensures forall l :: l in Without(logs, skip) <==> l in logs && l.id !in skip
    ensures DistinctIds(Without(logs, skip))
    ensures IdsOf(Without(logs, skip)) <= IdsOf(logs)
  {
    if logs != [] {
      var n := |logs| - 1;
      WithoutKeeps(logs[..n], skip);
      assert logs == logs[..n] + [logs[n]];
      var before := Without(logs[..n], skip);
      forall i | 0 <= i < |before|
        ensures before[i].id != logs[n].id
      {
        assert before[i] in logs[..n];
      }
    }
  }

  /** What storeApart inserts is what one try of a range may store (LogBatches.KeptOf). */
  lemma ApartIsKept(batches: seq<Batch>, kept: seq<Batch>, skip: set<nat>)
    requires AreWithout(kept, batches, skip)
    requires forall i :: 0 <= i < |batches| ==> DistinctIds(batches[i].logs)
    ensures KeptOf(kept, batches)
  {
    forall i | 0 <= i < |batches|
      ensures IdsOf(kept[i].logs) <= IdsOf(batches[i].logs) && DistinctIds(kept[i].logs)
    {
      WithoutKeeps(batches[i].logs, skip);
    }
  }

  lemma {:induction false} FilterMembers(rows: seq<Row>, keep: Row -> bool)
    ensures forall r :: r in Filter(rows, keep) <==> r in rows && keep(r)
  {
    if rows != [] {
      FilterMembers(rows[1..], keep);
      assert rows == [rows[0]] + rows[1..];
    }
  }

  lemma {:induction false} RowsMembers(batches: seq<Batch>, i: nat, l: Log)
    requires i < |batches| && l in batches[i].logs
    ensures Row(batches[i].id, l) in Rows(batches)
  {
    var n := |batches| - 1;
    if i < n {
      RowsMembers(batches[..n], i, l);
    } else {
      var k :| 0 <= k < |batches[n].logs| && batches[n].logs[k] == l;
      assert RowsOf(batches[n])[k] == Row(batches[n].id, l);
    }
  }

  lemma SkippedIsBad(batches: seq<Batch>, bad: Row -> bool, i: nat, l: Log)
    requires i < |batches| && l in batches[i].logs
    requires ApartLogs(batches) && DistinctIds(batches[i].logs)
    requires l.id in SkipIds(Filter(Rows(batches), bad))
    ensures bad(Row(batches[i].id, l))
  {
    FilterMembers(Rows(batches), bad);
    var r :| r in Filter(Rows(batches), bad) && r.log.id == l.id;
    var at :| 0 <= at < |Rows(batches)| && Rows(batches)[at] == r;
    var k := RowSource(batches, at);
    assert l.id in IdsOf(batches[k].logs) && l.id in IdsOf(batches[i].logs);
    assert k == i;
    var m :| 0 <= m < |batches[i].logs| && batches[i].logs[m] == l;
    var n :| 0 <= n < |batches[i].logs| && batches[i].logs[n] == r.log;
    assert m == n;
  }

  /** Skipping by Log id leaves out exactly the Logs that fail on their own, each of the others
      kept in its own batch, given that no two Logs of the batches share an id. */
  lemma SkipsOnlyTheBad(batches: seq<Batch>, bad: Row -> bool, i: nat, l: Log)
    requires i < |batches| && l in batches[i].logs
    requires ApartLogs(batches) && DistinctIds(batches[i].logs)
    ensures l in BatchWithout(batches[i], SkipIds(Filter(Rows(batches), bad))).logs <==>
            !bad(Row(batches[i].id, l))
  {
    var skip := SkipIds(Filter(Rows(batches), bad));
    WithoutKeeps(batches[i].logs, skip);
    if l.id in skip {
      SkippedIsBad(batches, bad, i, l);
    }
    if bad(Row(batches[i].id, l)) {
      RowsMembers(batches, i, l);
      FilterMembers(Rows(batches), bad);
      assert l.id in skip;
    }
  }
}

/** Log batches, what Pebble keeps of them, and what Log processing reads: a batch list in id
    order, the batches after an id, the batches up to an id, and whole batches until they hold
    enough Logs (storage/pebble_logs.go, logprocessing/processor.go). */
module LogBatches {

  /** A batch id, as the number its bytes spell; 0 is uuid.Nil. */
  type Id = nat

  datatype Log = Log(id: nat, body: string)

  datatype Batch = Batch(id: Id, logs: seq<Log>)

  /** A row of the logs table: a Log with the id of its batch. */
  datatype Row = Row(batch: Id, log: Log)

  ghost predicate Sorted(batches: seq<Batch>) {
    forall i, j :: 0 <= i < j < |batches| ==> batches[i].id < batches[j].id
  }

  /** The batches after the one with the given id, as an iterator from past its key reads them. */
  function After(batches: seq<Batch>, id: Id): seq<Batch> {
    if batches == [] then []
    else
      var n := |batches| - 1;
      var before := After(batches[..n], id);
      if batches[n].id > id then before + [batches[n]] else before
  }

  /** The batches up to and including the one with the given id: those before the first past it. */
  function UpTo(batches: seq<Batch>, last: Id): seq<Batch> {
    if batches == [] || batches[0].id > last then []
    else [batches[0]] + UpTo(batches[1..], last)
  }

  /** Whole batches, until they hold max Logs or more. */
  function Whole(batches: seq<Batch>, max: int): seq<Batch> {
    if batches == [] || max <= 0 then []
    else [batches[0]] + Whole(batches[1..], max - |batches[0].logs|)
  }

  function LogCount(batches: seq<Batch>): nat {
    if batches == [] then 0 else |batches[0].logs| + LogCount(batches[1..])
  }

  /** The batches of a range: those after one id, up to another. */
  function Between(batches: seq<Batch>, after: Id, upTo: Id): seq<Batch> {
    UpTo(After(batches, after), upTo)
  }

  function IdsOf(logs: seq<Log>): set<nat> {
    set l | l in logs :: l.id
  }

  predicate DistinctIds(logs: seq<Log>) {
    forall i, j :: 0 <= i < j < |logs| ==> logs[i].id != logs[j].id
  }

  /** The ids of the Logs of batches. */
  function LogIds(batches: seq<Batch>): set<nat> {
    if batches == [] then {}
    else LogIds(batches[..|batches| - 1]) + IdsOf(batches[|batches| - 1].logs)
  }

  /** No two of the batches hold a Log of the same id. */
  ghost predicate ApartLogs(batches: seq<Batch>) {
    forall i, j :: 0 <= i < j < |batches| ==> IdsOf(batches[i].logs) !! IdsOf(batches[j].logs)
  }

  /** What may be stored of batches that arrived: the same batches, each with the Logs the Log
      transform kept and no store refused, under the ids they arrived with. */
  ghost predicate KeptOf(kept: seq<Batch>, arrived: seq<Batch>) {
    && |kept| == |arrived|
    && forall i :: 0 <= i < |kept| ==>
         && kept[i].id == arrived[i].id
         && IdsOf(kept[i].logs) <= IdsOf(arrived[i].logs)
         && DistinctIds(kept[i].logs)
  }

  function RowsOf(batch: Batch): (rows: seq<Row>)
    ensures |rows| == |batch.logs|
  {
    seq(|batch.logs|, i requires 0 <= i < |batch.logs| => Row(batch.id, batch.logs[i]))
  }

  /** The rows an insert of batches puts in the logs table. */
  function Rows(batches: seq<Batch>): seq<Row> {
    if batches == [] then []
    else Rows(batches[..|batches| - 1]) + RowsOf(batches[|batches| - 1])
  }

  /** LogBatchesAfter's loop: batches in id order from past a cursor, until they hold max Logs. */
  method ReadWhole(batches: seq<Batch>, after: Id, max: int) returns (read: seq<Batch>)
    requires Sorted(batches)
    ensures read == Whole(After(batches, after), max)
    ensures After(batches, after) != [] && max > 0 ==> read != []
  {
    var at := SeekPast(batches, after);
    WholeNotEmpty(batches[at..], max);
    read := ReadFrom(batches, at, max);
  }

  /** The loop, from the iterator's place. */
  method ReadFrom(batches: seq<Batch>, first: nat, max: int) returns (read: seq<Batch>)
    requires first <= |batches|
    ensures read == Whole(batches[first..], max)
  {
    ghost var whole := Whole(batches[first..], max);
    var at, logs := first, 0;
    read := [];
    while at < |batches| && logs < max
      invariant at <= |batches| && logs >= 0
      invariant whole == read + Whole(batches[at..], max - logs)
    {
      WholeStep(whole, read, batches, at, max - logs);
      read := read + [batches[at]];
      logs := logs + |batches[at].logs|;
      at := at + 1;
    }
  }

  lemma WholeNotEmpty(batches: seq<Batch>, max: int)
    ensures batches != [] && max > 0 ==> Whole(batches, max) != []
  {
  }

  lemma WholeStep(all: seq<Batch>, read: seq<Batch>, batches: seq<Batch>, at: nat, max: int)
    requires at < |batches| && max > 0 && all == read + Whole(batches[at..], max)
    ensures all == read + [batches[at]] + Whole(batches[at + 1..], max - |batches[at].logs|)
  {
    assert batches[at..][1..] == batches[at + 1..];
  }

  /** The iterator's first key past an id. */
  method SeekPast(batches: seq<Batch>, after: Id) returns (at: nat)
    requires Sorted(batches)
    ensures at <= |batches| && batches[at..] == After(batches, after)
  {
    at := 0;
    while at < |batches| && batches[at].id <= after
      invariant 0 <= at <= |batches|
      invariant forall i :: 0 <= i < at ==> batches[i].id <= after
    {
      at := at + 1;
    }
    AfterIsSuffix(batches, after, at);
  }

  /** upTo's loop. */
  method KeepUpTo(batches: seq<Batch>, last: Id) returns (kept: seq<Batch>)
    ensures kept == UpTo(batches, last)
  {
    for i := 0 to |batches|
      invariant UpTo(batches, last) == batches[..i] + UpTo(batches[i..], last)
    {
      if batches[i].id > last {
        return batches[..i];
      }
      assert batches[i..][1..] == batches[i + 1..];
      assert batches[..i + 1] == batches[..i] + [batches[i]];
    }
    return batches;
  }

  lemma {:induction false} AfterIsSuffix(batches: seq<Batch>, after: Id, at: nat)
    requires Sorted(batches) && at <= |batches|
    requires forall i :: 0 <= i < at ==> batches[i].id <= after
    requires at < |batches| ==> batches[at].id > after
    ensures After(batches, after) == batches[at..]
  {
    if batches != [] {
      var n := |batches| - 1;
      if at <= n {
        AfterIsSuffix(batches[..n], after, at);
        assert batches[at..] == batches[..n][at..] + [batches[n]];
      } else {
        AfterIsSuffix(batches[..n], after, n);
      }
    }
  }

  lemma {:induction false} AfterIn(batches: seq<Batch>, id: Id)
    ensures forall b :: b in After(batches, id) <==> b in batches && b.id > id
  {
    if batches != [] {
      var n := |batches| - 1;
      AfterIn(batches[..n], id);
      assert batches == batches[..n] + [batches[n]];
    }
  }

  lemma {:induction false} AfterSorted(batches: seq<Batch>, id: Id)
    requires Sorted(batches)
    ensures Sorted(After(batches, id))
  {
    if batches != [] {
      var n := |batches| - 1;
      AfterSorted(batches[..n], id);
      AfterIn(batches[..n], id);
      SortedWithLast(After(batches[..n], id), batches[n]);
    }
  }

  lemma SortedWithLast(batches: seq<Batch>, last: Batch)
    requires Sorted(batches) && forall b :: b in batches ==> b.id < last.id
    ensures Sorted(batches + [last])
  {
  }

  lemma AfterMembers(batches: seq<Batch>, id: Id)
    ensures forall b :: b in After(batches, id) <==> b in batches && b.id > id
    ensures Sorted(batches) ==> Sorted(After(batches, id))
  {
    AfterIn(batches, id);
    if Sorted(batches) {
      AfterSorted(batches, id);
    }
  }

  lemma AfterAppend(batches: seq<Batch>, b: Batch, id: Id)
    ensures After(batches + [b], id) == if b.id > id then After(batches, id) + [b] else After(batches, id)
  {
    assert (batches + [b])[..|batches|] == batches;
  }

  lemma {:induction false} AfterAfter(batches: seq<Batch>, x: Id, y: Id)
    requires x <= y
    ensures After(After(batches, x), y) == After(batches, y)
  {
    if batches != [] {
      var n := |batches| - 1;
      AfterAfter(batches[..n], x, y);
      AfterAppend(After(batches[..n], x), batches[n], y);
    }
  }

  lemma {:induction false} UpToAppend(batches: seq<Batch>, b: Batch, last: Id)
    requires b.id > last
    ensures UpTo(batches + [b], last) == UpTo(batches, last)
  {
    if batches != [] && batches[0].id <= last {
      UpToAppend(batches[1..], b, last);
      assert (batches + [b])[1..] == batches[1..] + [b];
    }
  }

  /** A later batch leaves every range before it as it was. */
  lemma BetweenAppend(batches: seq<Batch>, b: Batch, after: Id, upTo: Id)
    requires b.id > upTo
    ensures Between(batches + [b], after, upTo) == Between(batches, after, upTo)
  {
    AfterAppend(batches, b, after);
    if b.id > after {
      UpToAppend(After(batches, after), b, upTo);
    }
  }

  lemma {:induction false} UpToMembers(batches: seq<Batch>, last: Id)
    requires Sorted(batches)
    ensures forall b :: b in UpTo(batches, last) <==> b in batches && b.id <= last
    ensures Sorted(UpTo(batches, last)) && UpTo(batches, last) <= batches
  {
    if batches != [] {
      var rest := batches[1..];
      assert batches == [batches[0]] + rest;
      UpToMembers(rest, last);
      if batches[0].id <= last {
        UpToStep(batches[0], rest, UpTo(rest, last), last);
      } else {
        forall b | b in batches
          ensures b.id > last
        {
          var i :| 0 <= i < |batches| && batches[i] == b;
        }
      }
    }
  }

  lemma UpToStep(first: Batch, rest: seq<Batch>, kept: seq<Batch>, last: Id)
    requires Sorted([first] + rest) && first.id <= last
    requires forall b :: b in kept <==> b in rest && b.id <= last
    requires Sorted(kept) && kept <= rest
    ensures forall b :: b in [first] + kept <==> b in [first] + rest && b.id <= last
    ensures Sorted([first] + kept) && [first] + kept <= [first] + rest
  {
    forall i | 0 <= i < |kept|
      ensures first.id < kept[i].id
    {
      var all := [first] + rest;
      assert all[0] == first && all[i + 1] == rest[i] == kept[i];
    }
  }

  lemma BetweenMembers(batches: seq<Batch>, after: Id, upTo: Id)
    requires Sorted(batches)
    ensures forall b :: b in Between(batches, after, upTo) <==> b in batches && after < b.id <= upTo
    ensures Sorted(Between(batches, after, upTo))
  {
    AfterMembers(batches, after);
    UpToMembers(After(batches, after), upTo);
  }

  lemma {:induction false} WholePrefix(batches: seq<Batch>, max: int)
    ensures Whole(batches, max) <= batches
    ensures Whole(Whole(batches, max), max) == Whole(batches, max)
    ensures batches != [] && max > 0 ==> Whole(batches, max) != []
  {
    if batches != [] && max > 0 {
      WholePrefix(batches[1..], max - |batches[0].logs|);
      assert Whole(batches, max)[1..] == Whole(batches[1..], max - |batches[0].logs|);
    }
  }

  /** Whole batches stop just where they hold enough Logs, or at the end: any fewer hold too few. */
  lemma {:induction false} WholeIsEnough(batches: seq<Batch>, max: int)
    ensures var whole := Whole(batches, max);
            && whole <= batches && (whole == batches || LogCount(whole) >= max)
            && forall n :: 0 <= n < |whole| ==> LogCount(batches[..n]) < max
  {
    if batches != [] && max > 0 {
      var rest, first := batches[1..], |batches[0].logs|;
      WholeIsEnough(rest, max - first);
      assert Whole(batches, max)[1..] == Whole(rest, max - first);
      forall n | 0 <= n < |Whole(batches, max)|
        ensures LogCount(batches[..n]) < max
      {
        if n > 0 {
          assert batches[..n][1..] == rest[..n - 1];
        }
      }
    }
  }

  lemma WholeUnfolds(first: seq<Batch>, max: int)
    requires first != [] && Whole(first, max) == first
    ensures max > 0 && Whole(first[1..], max - |first[0].logs|) == first[1..]
  {
    assert Whole(first, max)[1..] == first[1..];
  }

  lemma WholeOfFront(front: Batch, rest: seq<Batch>, max: int)
    requires max > 0
    ensures Whole([front] + rest, max) == [front] + Whole(rest, max - |front.logs|)
  {
    assert ([front] + rest)[1..] == rest;
  }

  lemma WithFront(first: seq<Batch>, more: seq<Batch>)
    requires first != []
    ensures [first[0]] + (first[1..] + more) == first + more
  {
  }

  /** Batches that were read whole once are read again first, however many have come since. */
  lemma {:induction false} WholeAgain(first: seq<Batch>, more: seq<Batch>, max: int)
    requires Whole(first, max) == first
    ensures Whole(first + more, max) == first + Whole(more, max - LogCount(first))
  {
    if first == [] {
      assert first + more == more;
    } else {
      var left := max - |first[0].logs|;
      WholeUnfolds(first, max);
      WholeAgain(first[1..], more, left);
      WholeOfFront(first[0], first[1..] + more, max);
      WithFront(first, more);
      WithFront(first, Whole(more, max - LogCount(first)));
    }
  }

  lemma {:induction false} UpToCuts(first: seq<Batch>, more: seq<Batch>, last: Id)
    requires forall b :: b in first ==> b.id <= last
    requires more != [] ==> more[0].id > last
    ensures UpTo(first + more, last) == first
  {
    if first == [] {
      assert first + more == more;
    } else {
      assert first[0] in first;
      UpToCuts(first[1..], more, last);
      assert (first + more)[1..] == first[1..] + more;
    }
  }

  lemma UpToSplits(all: seq<Batch>, first: seq<Batch>, last: Id)
    requires Sorted(all) && first == UpTo(all, last)
    ensures |first| <= |all| && all == first + all[|first|..]
    ensures forall b :: b in first ==> b.id <= last
    ensures |first| < |all| ==> all[|first|].id > last
  {
    UpToMembers(all, last);
    PastUpTo(all, last);
  }

  /** Reading again a range that was read whole gives it again, once cut at its last batch. */
  lemma ReadAgain(all: seq<Batch>, first: seq<Batch>, last: Id, max: int)
    requires Sorted(all) && first == UpTo(all, last) && Whole(first, max) == first
    ensures UpTo(Whole(all, max), last) == first
  {
    UpToSplits(all, first, last);
    var more := all[|first|..];
    var left := Whole(more, max - LogCount(first));
    WholeAgain(first, more, max);
    WholePrefix(more, max - LogCount(first));
    UpToCuts(first, left, last);
  }

  lemma {:induction false} PastUpTo(all: seq<Batch>, last: Id)
    ensures |UpTo(all, last)| < |all| ==> all[|UpTo(all, last)|].id > last
    ensures |UpTo(all, last)| <= |all|
  {
    if all != [] && all[0].id <= last {
      PastUpTo(all[1..], last);
    }
  }

  /** What one read gives is a range: every batch up to its last. */
  lemma ReadIsRange(all: seq<Batch>, read: seq<Batch>)
    requires Sorted(all) && read <= all && read != []
    ensures UpTo(all, read[|read| - 1].id) == read
  {
    var last := read[|read| - 1].id;
    var more := all[|read|..];
    assert all == read + more;
    forall b | b in read
      ensures b.id <= last
    {
      var i :| 0 <= i < |read| && read[i] == b;
      assert all[i] == b && all[|read| - 1].id == last;
    }
    UpToCuts(read, more, last);
  }

  lemma {:induction false} LogIdsMembers(batches: seq<Batch>)
    ensures forall b :: b in batches ==> IdsOf(b.logs) <= LogIds(batches)
  {
    if batches != [] {
      LogIdsMembers(batches[..|batches| - 1]);
      assert batches == batches[..|batches| - 1] + [batches[|batches| - 1]];
    }
  }

  lemma {:induction false} RowSource(batches: seq<Batch>, i: nat) returns (k: nat)
    requires i < |Rows(batches)|
    ensures k < |batches|
    ensures Rows(batches)[i].batch == batches[k].id && Rows(batches)[i].log in batches[k].logs
  {
    var n := |batches| - 1;
    var before := Rows(batches[..n]);
    if i < |before| {
      k := RowSource(batches[..n], i);
    } else {
      k := n;
      assert Rows(batches)[i] == RowsOf(batches[n])[i - |before|];
    }
  }

  /** Rows of kept batches repeat no Log id when the batches that arrived share none. */
  lemma {:induction false} RowsDistinct(kept: seq<Batch>, arrived: seq<Batch>, i: nat, j: nat)
    requires KeptOf(kept, arrived) && ApartLogs(arrived)
    requires i < j < |Rows(kept)|
    ensures Rows(kept)[i].log.id != Rows(kept)[j].log.id
  {
    var n := |kept| - 1;
    var before := Rows(kept[..n]);
    var last := RowsOf(kept[n]);
    assert Rows(kept) == before + last;
    if j < |before| {
      RowsDistinct(kept[..n], arrived[..n], i, j);
    } else {
      assert last[j - |before|].log == kept[n].logs[j - |before|];
      if i < |before| {
        var k := RowSource(kept[..n], i);
        assert before[i].log.id in IdsOf(arrived[k].logs);
        assert last[j - |before|].log.id in IdsOf(arrived[n].logs);
      }
    }
  }
}

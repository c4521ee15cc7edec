/** Pebble as Log processing uses it (storage/pebble_logs.go), for one Project: a write log whose
    replay is what a reader sees. A process crash keeps the whole log; a power loss keeps any
    prefix that holds the last synced write. */
module PebbleLog {
  import opened LogBatches

  /** The range of batches of one insert, which is its dedup token. */
  datatype Token = Token(after: Id, upTo: Id)

  /** SetRecorded is synced; the other writes are not. */
  datatype Write =
    | SetBatch(batch: Batch)
    | SetRecorded(id: Id)
    | SetCursor(id: Id)
    | DeleteUpTo(id: Id)

  const MAX_LOGS_PER_COMMIT: int := 10000

  function Front(wal: seq<Write>): seq<Write>
    requires wal != []
  {
    wal[..|wal| - 1]
  }

  /** Every batch the log wrote, deleted since or not. */
  function Written(wal: seq<Write>): seq<Batch> {
    if wal == [] then []
    else
      match wal[|wal| - 1]
      case SetBatch(b) => Written(Front(wal)) + [b]
      case _ => Written(Front(wal))
  }

  /** The batches in key order with b put among them. */
  function Put(batches: seq<Batch>, b: Batch): seq<Batch> {
    if batches == [] || batches[0].id > b.id then [b] + batches
    else if batches[0].id == b.id then [b] + batches[1..]
    else [batches[0]] + Put(batches[1..], b)
  }

  /** The batches a reader sees, in key order. */
  function Live(wal: seq<Write>): seq<Batch> {
    if wal == [] then []
    else
      match wal[|wal| - 1]
      case SetBatch(b) => Put(Live(Front(wal)), b)
      case DeleteUpTo(id) => After(Live(Front(wal)), id)
      case _ => Live(Front(wal))
  }

  /** LogProcessingCursor. */
  function Cursor(wal: seq<Write>): Id {
    if wal == [] then 0
    else
      match wal[|wal| - 1]
      case SetCursor(id) => id
      case _ => Cursor(Front(wal))
  }

  /** RecordedLogInsert. */
  function Recorded(wal: seq<Write>): Id {
    if wal == [] then 0
    else
      match wal[|wal| - 1]
      case SetRecorded(id) => id
      case _ => Recorded(Front(wal))
  }

  /** The length of the shortest log a power loss can leave. */
  function Synced(wal: seq<Write>): (n: nat)
    ensures n <= |wal|
  {
    if wal == [] then 0
    else if wal[|wal| - 1].SetRecorded? then |wal|
    else Synced(Front(wal))
  }

  /** What a power loss can leave is any of the log's first writes that hold the last recorded id. */
  lemma {:induction false} SyncedIs(wal: seq<Write>, n: nat)
    requires n <= |wal|
    ensures Synced(wal) <= n <==> forall i :: n <= i < |wal| ==> !wal[i].SetRecorded?
  {
    if n < |wal| && !wal[|wal| - 1].SetRecorded? {
      SyncedIs(Front(wal), n);
    }
  }

  /** The ranges the log recorded, in order. */
  function Ranges(wal: seq<Write>): seq<Token> {
    if wal == [] then []
    else
      match wal[|wal| - 1]
      case SetRecorded(id) => Ranges(Front(wal)) + [Token(Cursor(Front(wal)), id)]
      case _ => Ranges(Front(wal))
  }

  /** The batches a range covers. */
  function RangeOf(wal: seq<Write>, t: Token): seq<Batch> {
    Between(Written(wal), t.after, t.upTo)
  }

  /** The id of the last batch written. */
  function LastId(wal: seq<Write>): Id {
    var w := Written(wal);
    if w == [] then 0 else w[|w| - 1].id
  }

  /** A range that may be recorded: the previous one is done, and it holds what one read gives. */
  ghost predicate CanRecord(wal: seq<Write>, id: Id) {
    var batches := RangeOf(wal, Token(Cursor(wal), id));
    && Recorded(wal) <= Cursor(wal) < id <= LastId(wal)
    && batches != [] && batches[|batches| - 1].id == id
    && Whole(batches, MAX_LOGS_PER_COMMIT) == batches
  }

  /** What each write needs of the log before it, given the ranges ClickHouse has acknowledged. */
  ghost predicate WriteOk(wal: seq<Write>, write: Write, acked: set<Token>) {
    match write
    case SetBatch(b) =>
      b.id > LastId(wal) && DistinctIds(b.logs) && IdsOf(b.logs) !! LogIds(Written(wal))
    case SetRecorded(id) => CanRecord(wal, id)
    case SetCursor(id) => Cursor(wal) < id == Recorded(wal) && Token(Cursor(wal), id) in acked
    case DeleteUpTo(id) => id <= Cursor(wal)
  }

  /** Every write of the log was fine when it was made. A prefix of such a log is one. */
  ghost predicate WellFormed(wal: seq<Write>, acked: set<Token>) {
    wal == [] || (WellFormed(Front(wal), acked) && WriteOk(Front(wal), wal[|wal| - 1], acked))
  }

  lemma {:induction false} WellFormedMore(wal: seq<Write>, acked: set<Token>, more: set<Token>)
    requires WellFormed(wal, acked) && acked <= more
    ensures WellFormed(wal, more)
  {
    if wal != [] {
      WellFormedMore(Front(wal), acked, more);
    }
  }

  lemma {:induction false} WellFormedPrefix(wal: seq<Write>, acked: set<Token>, k: nat)
    requires WellFormed(wal, acked) && k <= |wal|
    ensures WellFormed(wal[..k], acked)
  {
    if k == |wal| {
      assert wal[..k] == wal;
    } else {
      WellFormedPrefix(Front(wal), acked, k);
      assert Front(wal)[..k] == wal[..k];
    }
  }

  lemma AppendUnfolds(wal: seq<Write>, write: Write)
    ensures Front(wal + [write]) == wal
  {
  }

  lemma {:induction false} WrittenSorted(wal: seq<Write>, acked: set<Token>)
    requires WellFormed(wal, acked)
    ensures Sorted(Written(wal))
    ensures forall b :: b in Written(wal) ==> 0 < b.id <= LastId(wal)
    ensures ApartLogs(Written(wal))
  {
    if wal != [] {
      var before := Front(wal);
      WrittenSorted(before, acked);
      if wal[|wal| - 1].SetBatch? {
        var b := wal[|wal| - 1].batch;
        var w := Written(before);
        forall i | 0 <= i < |w|
          ensures w[i].id < b.id && IdsOf(w[i].logs) !! IdsOf(b.logs)
        {
          assert w[i] in w;
          LogIdsMembers(w);
        }
        assert Written(wal) == w + [b];
      }
    }
  }

  lemma {:induction false} IdsOrdered(wal: seq<Write>, acked: set<Token>)
    requires WellFormed(wal, acked)
    ensures Cursor(wal) <= Recorded(wal) <= LastId(wal)
  {
    if wal != [] {
      IdsOrdered(Front(wal), acked);
    }
  }

  /** The recorded ranges follow each other from the first batch on, with no gap or overlap. */
  ghost predicate Linked(ranges: seq<Token>) {
    && (forall i :: 0 <= i < |ranges| ==> ranges[i].after < ranges[i].upTo)
    && (|ranges| > 0 ==> ranges[0].after == 0)
    && (forall i :: 0 < i < |ranges| ==> ranges[i].after == ranges[i - 1].upTo)
  }

  function End(ranges: seq<Token>): Id {
    if ranges == [] then 0 else ranges[|ranges| - 1].upTo
  }

  lemma {:induction false} RangesLinked(wal: seq<Write>, acked: set<Token>)
    requires WellFormed(wal, acked)
    ensures Linked(Ranges(wal)) && End(Ranges(wal)) == Recorded(wal)
    ensures Cursor(wal) < Recorded(wal) ==>
              |Ranges(wal)| > 0 && Ranges(wal)[|Ranges(wal)| - 1] == Token(Cursor(wal), Recorded(wal))
    ensures forall i :: 0 <= i < |Ranges(wal)| && Ranges(wal)[i].upTo <= Cursor(wal) ==> Ranges(wal)[i] in acked
  {
    if wal != [] {
      var before := Front(wal);
      RangesLinked(before, acked);
      IdsOrdered(before, acked);
      LinkedIncreasing(Ranges(before));
      if wal[|wal| - 1].SetRecorded? {
        LinkedAppend(Ranges(before), Token(Cursor(before), wal[|wal| - 1].id));
      }
    }
  }

  lemma LinkedAppend(ranges: seq<Token>, t: Token)
    requires Linked(ranges) && t.after == End(ranges) < t.upTo
    ensures Linked(ranges + [t])
  {
  }

  lemma {:induction false} LinkedIncreasing(ranges: seq<Token>)
    requires Linked(ranges)
    ensures forall i :: 0 <= i < |ranges| ==> ranges[i].upTo <= End(ranges)
    ensures forall i, j :: 0 <= i < j < |ranges| ==> ranges[i].upTo <= ranges[j].after
  {
    if ranges != [] {
      var n := |ranges| - 1;
      LinkedIncreasing(ranges[..n]);
      forall i, j | 0 <= i < j < |ranges|
        ensures ranges[i].upTo <= ranges[j].after
      {
        if j == n {
          assert ranges[..n][i].upTo <= End(ranges[..n]);
        }
      }
    }
  }

  lemma RangeUpToRecorded(wal: seq<Write>, acked: set<Token>, t: Token)
    requires WellFormed(wal, acked) && t in Ranges(wal)
    ensures t.upTo <= Recorded(wal)
  {
    RangesLinked(wal, acked);
    LinkedIncreasing(Ranges(wal));
  }

  lemma LastWriteKeepsRanges(wal: seq<Write>, acked: set<Token>, t: Token)
    requires wal != [] && WellFormed(wal, acked) && t in Ranges(Front(wal))
    ensures RangeOf(Front(wal), t) == RangeOf(wal, t)
  {
    var before, write := Front(wal), wal[|wal| - 1];
    RangeUpToRecorded(before, acked, t);
    IdsOrdered(before, acked);
    RangeKept(before, write, acked, t);
    assert wal == before + [write];
  }

  /** Past the last synced write, the log records no range and changes none. */
  lemma {:induction false} TruncationKeepsRanges(wal: seq<Write>, acked: set<Token>, k: nat)
    requires WellFormed(wal, acked) && Synced(wal) <= k <= |wal|
    ensures Ranges(wal[..k]) == Ranges(wal)
    ensures forall t :: t in Ranges(wal) ==> RangeOf(wal[..k], t) == RangeOf(wal, t)
  {
    if k == |wal| {
      assert wal[..k] == wal;
    } else {
      TruncationKeepsRanges(Front(wal), acked, k);
      assert Front(wal)[..k] == wal[..k];
      forall t | t in Ranges(wal)
        ensures RangeOf(wal[..k], t) == RangeOf(wal, t)
      {
        LastWriteKeepsRanges(wal, acked, t);
      }
    }
  }

  /** A write leaves the batches of every range recorded so far as they were. */
  lemma RangeKept(wal: seq<Write>, write: Write, acked: set<Token>, t: Token)
    requires WellFormed(wal, acked) && WriteOk(wal, write, acked) && t.upTo <= LastId(wal)
    ensures RangeOf(wal + [write], t) == RangeOf(wal, t)
  {
    AppendUnfolds(wal, write);
    if write.SetBatch? {
      BetweenAppend(Written(wal), write.batch, t.after, t.upTo);
    }
  }

  lemma {:induction false} PutLast(batches: seq<Batch>, b: Batch)
    requires forall c :: c in batches ==> c.id < b.id
    ensures Put(batches, b) == batches + [b]
  {
    if batches != [] {
      assert batches[0] in batches;
      PutLast(batches[1..], b);
    }
  }

  /** A reader sees only batches the log wrote, in id order. */
  lemma {:induction false} LiveWritten(wal: seq<Write>, acked: set<Token>)
    requires WellFormed(wal, acked)
    ensures forall b :: b in Live(wal) ==> b in Written(wal)
    ensures Sorted(Live(wal))
  {
    if wal != [] {
      var before := Front(wal);
      LiveWritten(before, acked);
      match wal[|wal| - 1]
      case SetBatch(b) =>
        LiveBelow(before, acked, b);
        PutLast(Live(before), b);
      case DeleteUpTo(x) =>
        AfterMembers(Live(before), x);
      case _ =>
    }
  }

  lemma LiveBelow(wal: seq<Write>, acked: set<Token>, b: Batch)
    requires WellFormed(wal, acked) && b.id > LastId(wal)
    requires forall c :: c in Live(wal) ==> c in Written(wal)
    ensures forall c :: c in Live(wal) ==> c.id < b.id
  {
    WrittenSorted(wal, acked);
  }

  /** Past its cursor, a reader sees every batch the log wrote: a delete takes only batches at or
      below it. */
  lemma {:induction false} LivePastCursor(wal: seq<Write>, acked: set<Token>, id: Id)
    requires WellFormed(wal, acked) && Cursor(wal) <= id
    ensures After(Live(wal), id) == After(Written(wal), id)
  {
    if wal != [] {
      var before := Front(wal);
      IdsOrdered(before, acked);
      LivePastCursor(before, acked, id);
      match wal[|wal| - 1]
      case SetBatch(b) =>
        LiveWritten(before, acked);
        LiveBelow(before, acked, b);
        PutLast(Live(before), b);
        AfterAppend(Live(before), b, id);
        AfterAppend(Written(before), b, id);
      case DeleteUpTo(x) =>
        AfterAfter(Live(before), x, id);
      case _ =>
    }
  }

  /** The batches Log processing stores next, and whether they go again: those it reads after its
      cursor, cut at the recorded range while that is past the cursor (storeLogs). */
  function Selected(live: seq<Batch>, cursor: Id, recorded: Id): (seq<Batch>, bool) {
    var read := Whole(After(live, cursor), MAX_LOGS_PER_COMMIT);
    if recorded > cursor && UpTo(read, recorded) != [] then (UpTo(read, recorded), true)
    else (read, false)
  }

  /** A recorded range past the cursor is read again as it was first recorded: the same batches,
      none missing and none more, whatever was written since. */
  lemma ReplayIsSameRange(wal: seq<Write>, acked: set<Token>)
    requires WellFormed(wal, acked) && Recorded(wal) > Cursor(wal)
    ensures RangeOf(wal, Token(Cursor(wal), Recorded(wal))) != []
    ensures Selected(Live(wal), Cursor(wal), Recorded(wal)) ==
            (RangeOf(wal, Token(Cursor(wal), Recorded(wal))), true)
  {
    var c, r := Cursor(wal), Recorded(wal);
    RecordedRangeReads(wal, acked);
    LivePastCursor(wal, acked, c);
    WrittenSorted(wal, acked);
    AfterMembers(Written(wal), c);
    ReadAgain(After(Written(wal), c), RangeOf(wal, Token(c, r)), r, MAX_LOGS_PER_COMMIT);
  }

  /** The recorded range still holds what one read gives, and ends with the recorded batch. */
  lemma {:induction false} RecordedRangeReads(wal: seq<Write>, acked: set<Token>)
    requires WellFormed(wal, acked) && Recorded(wal) > Cursor(wal)
    ensures var first := RangeOf(wal, Token(Cursor(wal), Recorded(wal)));
            first != [] && first[|first| - 1].id == Recorded(wal) && Whole(first, MAX_LOGS_PER_COMMIT) == first
  {
    var before := Front(wal);
    var write := wal[|wal| - 1];
    if !write.SetRecorded? {
      IdsOrdered(before, acked);
      RecordedRangeReads(before, acked);
      RangeKept(before, write, acked, Token(Cursor(before), Recorded(before)));
      assert wal == before + [write];
    }
  }

  /** A first read after the cursor gives a range that may be recorded. */
  lemma FreshRangeReads(wal: seq<Write>, acked: set<Token>)
    requires WellFormed(wal, acked) && Recorded(wal) <= Cursor(wal)
    ensures var (batches, again) := Selected(Live(wal), Cursor(wal), Recorded(wal));
            !again && (batches != [] ==>
              var last := batches[|batches| - 1].id;
              CanRecord(wal, last) && batches == RangeOf(wal, Token(Cursor(wal), last)))
  {
    LivePastCursor(wal, acked, Cursor(wal));
    var read := Whole(After(Written(wal), Cursor(wal)), MAX_LOGS_PER_COMMIT);
    if read != [] {
      ReadCanRecord(wal, acked, read);
    }
  }

  lemma ReadCanRecord(wal: seq<Write>, acked: set<Token>, read: seq<Batch>)
    requires WellFormed(wal, acked) && Recorded(wal) <= Cursor(wal)
    requires read != [] && read == Whole(After(Written(wal), Cursor(wal)), MAX_LOGS_PER_COMMIT)
    ensures var last := read[|read| - 1].id;
            CanRecord(wal, last) && read == RangeOf(wal, Token(Cursor(wal), last))
  {
    var all := After(Written(wal), Cursor(wal));
    WrittenSorted(wal, acked);
    AfterMembers(Written(wal), Cursor(wal));
    WholePrefix(all, MAX_LOGS_PER_COMMIT);
    ReadIsRange(all, read);
    assert read[|read| - 1] in all;
  }
}

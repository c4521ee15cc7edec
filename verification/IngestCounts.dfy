/** Ingest counts (ingest/counts.go, models/ingest_count.go): seconds counted in memory, flushed
    under a token that a failed write keeps for its retry. */
module IngestCounts {

  /** The counts of one Project's second. */
  datatype Counts = Counts(
    logsReceived: int, logsUnreadable: int, bytesReceived: int, bytesOnWire: int,
    requests: int, requestsOverloaded: int, spansReceived: int, spanBytesReceived: int)

  const ZERO: Counts := Counts(0, 0, 0, 0, 0, 0, 0, 0)

  /** IngestCount.Add, field by field. */
  function Plus(a: Counts, b: Counts): Counts {
    Counts(a.logsReceived + b.logsReceived, a.logsUnreadable + b.logsUnreadable,
           a.bytesReceived + b.bytesReceived, a.bytesOnWire + b.bytesOnWire,
           a.requests + b.requests, a.requestsOverloaded + b.requestsOverloaded,
           a.spansReceived + b.spansReceived, a.spanBytesReceived + b.spanBytesReceived)
  }

  datatype Field =
    | LogsReceived | LogsUnreadable | BytesReceived | BytesOnWire
    | Requests | RequestsOverloaded | SpansReceived | SpanBytesReceived

  function Value(c: Counts, f: Field): int {
    match f
    case LogsReceived => c.logsReceived
    case LogsUnreadable => c.logsUnreadable
    case BytesReceived => c.bytesReceived
    case BytesOnWire => c.bytesOnWire
    case Requests => c.requests
    case RequestsOverloaded => c.requestsOverloaded
    case SpansReceived => c.spansReceived
    case SpanBytesReceived => c.spanBytesReceived
  }

  lemma PlusByField(a: Counts, b: Counts, f: Field)
    ensures Value(Plus(a, b), f) == Value(a, f) + Value(b, f)
  {
  }

  /** The fields tell the counts apart. */
  lemma FieldsTellCounts(a: Counts, b: Counts)
    requires forall f :: Value(a, f) == Value(b, f)
    ensures a == b
  {
    assert Value(a, LogsReceived) == Value(b, LogsReceived) && Value(a, LogsUnreadable) == Value(b, LogsUnreadable);
    assert Value(a, BytesReceived) == Value(b, BytesReceived) && Value(a, BytesOnWire) == Value(b, BytesOnWire);
    assert Value(a, Requests) == Value(b, Requests) && Value(a, RequestsOverloaded) == Value(b, RequestsOverloaded);
    assert Value(a, SpansReceived) == Value(b, SpansReceived);
    assert Value(a, SpanBytesReceived) == Value(b, SpanBytesReceived);
  }

  /** One count of one Project's second. */
  datatype Cell = Cell(key: Key, field: Field)

  /** A Project's second, in Unix seconds. */
  datatype Key = Key(project: nat, second: int)

  datatype Row = Row(key: Key, counts: Counts)

  /** A write the table took: the rows of a token. */
  datatype Entry = Entry(token: nat, rows: seq<Row>)

  predicate KeyBefore(a: Key, b: Key) {
    a.project < b.project || (a.project == b.project && a.second < b.second)
  }

  /** Rows in the order a retry sends again: by Project, then second. */
  ghost predicate InOrder(rows: seq<Row>) {
    forall i, j :: 0 <= i < j < |rows| ==> KeyBefore(rows[i].key, rows[j].key)
  }

  /** The row put among rows in order. */
  function Put(rows: seq<Row>, row: Row): seq<Row> {
    if rows == [] || KeyBefore(row.key, rows[0].key) then [row] + rows
    else [rows[0]] + Put(rows[1..], row)
  }

  function At(seconds: map<Key, Counts>, k: Key): Counts {
    if k in seconds then seconds[k] else ZERO
  }

  /** A count of the seconds in memory. */
  function Held(seconds: map<Key, Counts>, c: Cell): int {
    if c.key in seconds then Value(seconds[c.key], c.field) else 0
  }

  /** A count, summed over rows. */
  function SumRows(rows: seq<Row>, c: Cell): int {
    if rows == [] then 0
    else (if rows[0].key == c.key then Value(rows[0].counts, c.field) else 0) + SumRows(rows[1..], c)
  }

  predicate Has(table: seq<Entry>, token: nat) {
    exists i :: 0 <= i < |table| && table[i].token == token
  }

  /** The table after a write under a token, which it takes once. */
  function Store(table: seq<Entry>, token: nat, rows: seq<Row>): seq<Entry> {
    if Has(table, token) then table else table + [Entry(token, rows)]
  }

  /** A count, summed over what the table holds other than under the pending tokens. */
  function SumTable(table: seq<Entry>, pending: set<nat>, c: Cell): int {
    if table == [] then 0
    else
      var n := |table| - 1;
      var before := SumTable(table[..n], pending, c);
      if table[n].token in pending then before else before + SumRows(table[n].rows, c)
  }

  lemma {:induction false} PutSums(rows: seq<Row>, row: Row, c: Cell)
    ensures SumRows(Put(rows, row), c) ==
            (if row.key == c.key then Value(row.counts, c.field) else 0) + SumRows(rows, c)
  {
    if rows == [] || KeyBefore(row.key, rows[0].key) {
      assert ([row] + rows)[1..] == rows;
    } else {
      PutSums(rows[1..], row, c);
      assert ([rows[0]] + Put(rows[1..], row))[1..] == Put(rows[1..], row);
    }
  }

  lemma {:induction false} PutMembers(rows: seq<Row>, row: Row)
    ensures forall r :: r in Put(rows, row) <==> r in rows || r == row
  {
    if rows != [] && !KeyBefore(row.key, rows[0].key) {
      PutMembers(rows[1..], row);
      assert rows == [rows[0]] + rows[1..];
    }
  }

  lemma {:induction false} PutInOrder(rows: seq<Row>, row: Row)
    requires InOrder(rows) && forall r :: r in rows ==> r.key != row.key
    ensures InOrder(Put(rows, row))
  {
    if rows != [] {
      assert rows[0] in rows;
      if !KeyBefore(row.key, rows[0].key) {
        PutInOrder(rows[1..], row);
        PutMembers(rows[1..], row);
        var rest := Put(rows[1..], row);
        forall j | 0 <= j < |rest|
          ensures KeyBefore(rows[0].key, rest[j].key)
        {
          assert rest[j] in rest;
          if rest[j] != row {
            var m :| 0 <= m < |rows[1..]| && rows[1..][m] == rest[j];
          }
        }
      }
    }
  }

  lemma {:induction false} SumTableUnpended(table: seq<Entry>, token: nat, rows: seq<Row>, c: Cell)
    requires forall i, j :: 0 <= i < j < |table| ==> table[i].token != table[j].token
    requires Has(table, token)
    requires forall i :: 0 <= i < |table| && table[i].token == token ==> table[i].rows == rows
    ensures SumTable(table, {}, c) == SumTable(table, {token}, c) + SumRows(rows, c)
  {
    var n := |table| - 1;
    if table[n].token == token {
      SumTableWithout(table[..n], token, c);
    } else {
      var i :| 0 <= i < |table| && table[i].token == token;
      assert table[..n][i].token == token;
      SumTableUnpended(table[..n], token, rows, c);
    }
  }

  lemma {:induction false} SumTableWithout(table: seq<Entry>, token: nat, c: Cell)
    requires !Has(table, token)
    ensures SumTable(table, {token}, c) == SumTable(table, {}, c)
  {
    if table != [] {
      var n := |table| - 1;
      assert table[n].token != token;
      assert forall i :: 0 <= i < n ==> table[..n][i].token == table[i].token;
      SumTableWithout(table[..n], token, c);
    }
  }

  /** What a write that may fail came to: whether the table took it, and whether it returned
      without an error, which it does only once the table has it. */
  datatype Fate = Succeeded | Failed(stored: bool)

  class IngestCounter {
    var seconds: map<Key, Counts>
    var pending: seq<Row>
    var token: nat
    // The Ingest counts table: what it took, in order.
    var table: seq<Entry>
    // Everything counted, by second, and the rows each token was sent with.
    ghost var counted: map<Key, Counts>
    ghost var sent: map<nat, seq<Row>>

    ghost predicate TokensOk()
      reads this
    {
      && (forall i, j :: 0 <= i < j < |table| ==> table[i].token != table[j].token)
      && (forall i :: 0 <= i < |table| ==> table[i].token in sent && table[i].rows == sent[table[i].token])
      && (pending != [] ==> token in sent && sent[token] == pending)
    }

    function PendingTokens(): set<nat>
      reads this
    {
      if pending == [] then {} else {token}
    }

    /** Every field of every second: what was counted is what the table holds but under the pending
        token, what is pending, and what is not yet taken. */
    ghost predicate Conserved()
      reads this
    {
      forall c :: Held(counted, c) == SumTable(table, PendingTokens(), c) + SumRows(pending, c) + Held(seconds, c)
    }

    ghost predicate Valid()
      reads this
    {
      TokensOk() && Conserved()
    }

    constructor ()
      ensures Valid() && counted == map[] && sent == map[] && table == []
    {
      seconds, pending, token, table := map[], [], 0, [];
      counted, sent := map[], map[];
    }

    /** Adds what one request held to its Project's second of arrival. */
    method Count(key: Key, held: Counts)
      requires Valid()
      modifies this`seconds, this`counted
      ensures Valid() && counted == old(counted)[key := Plus(old(At(counted, key)), held)]
    {
      forall f
        ensures Value(Plus(At(seconds, key), held), f) == Value(At(seconds, key), f) + Value(held, f)
        ensures Value(Plus(At(counted, key), held), f) == Value(At(counted, key), f) + Value(held, f)
      {
        PlusByField(At(seconds, key), held, f);
        PlusByField(At(counted, key), held, f);
      }
      seconds := seconds[key := Plus(At(seconds, key), held)];
      counted := counted[key := Plus(At(counted, key), held)];
    }

    /** WriteIngestCounts of the pending rows under their token. */
    method WritePending(fate: Fate) returns (ok: bool)
      requires Valid() && pending != []
      modifies this`table
      ensures Valid() && ok == fate.Succeeded?
      ensures ok ==> Has(table, token)
      ensures table == old(table) || table == old(table) + [Entry(token, pending)]
    {
      ok := fate.Succeeded?;
      if ok || fate.stored {
        ghost var before := table;
        table := Store(table, token, pending);
        if table != before {
          assert table[|table| - 1].token == token;
          assert table[..|table| - 1] == before;
          assert forall c :: SumTable(table, {token}, c) == SumTable(before, {token}, c);
        }
      }
    }

    /** Once the table has the pending rows, they are no longer pending. */
    method ClearPending()
      requires Valid() && pending != [] && Has(table, token)
      modifies this`pending
      ensures Valid() && pending == []
    {
      forall c
        ensures SumTable(table, {}, c) == SumTable(table, {token}, c) + SumRows(pending, c)
      {
        SumTableUnpended(table, token, pending, c);
      }
      pending := [];
    }

    /** Takes the seconds before a time out of the counts, as rows in order. */
    method TakeBefore(before: int) returns (taken: seq<Row>)
      modifies this`seconds
      ensures InOrder(taken)
      ensures forall r :: r in taken ==>
        r.key.second < before && r.key in old(seconds) && r.counts == old(seconds)[r.key]
      ensures forall k :: k in seconds <==> k in old(seconds) && k.second >= before
      ensures forall k :: k in old(seconds) && k.second < before ==> exists r :: r in taken && r.key == k
      ensures forall c :: SumRows(taken, c) + Held(seconds, c) == old(Held(seconds, c))
    {
      taken := [];
      var due := set k | k in seconds && k.second < before;
      while due != {}
        invariant forall k :: k in due <==> k in seconds && k.second < before
        invariant seconds.Keys <= old(seconds).Keys
        invariant forall k :: k in old(seconds) && k.second >= before ==> k in seconds
        invariant forall k :: k in seconds ==> seconds[k] == old(seconds)[k]
        invariant InOrder(taken)
        invariant forall r :: r in taken ==>
                    && r.key.second < before && r.key in old(seconds) && r.key !in seconds
                    && r.counts == old(seconds)[r.key]
        invariant forall k :: k in old(seconds) && k !in seconds ==> exists r :: r in taken && r.key == k
        invariant forall c :: SumRows(taken, c) + Held(seconds, c) == old(Held(seconds, c))
        decreases due
      {
        var key :| key in due;
        var row := Row(key, seconds[key]);
        PutInOrder(taken, row);
        PutMembers(taken, row);
        forall c
          ensures SumRows(Put(taken, row), c) + Held(seconds - {key}, c) == old(Held(seconds, c))
        {
          PutSums(taken, row, c);
        }
        assert row in Put(taken, row);
        taken := Put(taken, row);
        seconds := seconds - {key};
        due := due - {key};
      }
    }

    /** Makes taken rows the pending ones, under a token no write has had. */
    method MakePending(taken: seq<Row>, newToken: nat, ghost before: map<Key, Counts>)
      requires TokensOk() && pending == [] && taken != [] && newToken !in sent
      requires forall c :: Held(counted, c) == SumTable(table, {}, c) + Held(before, c)
      requires forall c :: SumRows(taken, c) + Held(seconds, c) == Held(before, c)
      modifies this`pending, this`token, this`sent
      ensures Valid() && pending == taken && token == newToken && sent == old(sent)[newToken := taken]
    {
      pending, token := taken, newToken;
      sent := sent[newToken := taken];
      forall c
        ensures SumTable(table, {newToken}, c) == SumTable(table, {}, c)
      {
        SumTableWithout(table, newToken, c);
      }
    }

    /** flush, once nothing is pending: the seconds that have ended, as one write with a new token. */
    method FlushSeconds(before: int, newToken: nat, write: Fate) returns (ok: bool)
      requires Valid() && pending == [] && newToken !in sent
      modifies this
      ensures Valid() && counted == old(counted) && old(table) <= table
      ensures sent == old(sent) || (newToken in sent && sent == old(sent)[newToken := sent[newToken]])
      ensures forall k :: k in seconds <==> k in old(seconds) && k.second >= before
      ensures ok ==> pending == []
      ensures ok == ((exists k :: k in old(seconds) && k.second < before) ==> write.Succeeded?)
    {
      var taken := TakeBefore(before);
      if |taken| == 0 {
        return true;
      }
      assert taken[0] in taken;
      MakePending(taken, newToken, old(seconds));
      ok := WritePending(write);
      if ok {
        ClearPending();
      }
    }

    /** flush: the write that failed again first, with its token and its rows; then the seconds
        that have ended. A token is only ever sent with one set of rows. */
    method Flush(before: int, newToken: nat, retry: Fate, write: Fate) returns (ok: bool)
      requires Valid() && newToken !in sent
      modifies this
      ensures Valid() && counted == old(counted) && old(table) <= table
      ensures sent == old(sent) || (newToken in sent && sent == old(sent)[newToken := sent[newToken]])
      ensures ok <==>
                && (old(pending) == [] || retry.Succeeded?)
                && ((exists k :: k in old(seconds) && k.second < before) ==> write.Succeeded?)
      ensures ok ==> pending == [] && forall k :: k in seconds <==> k in old(seconds) && k.second >= before
      ensures old(pending) != [] && !retry.Succeeded? ==>
                !ok && pending == old(pending) && token == old(token) && seconds == old(seconds)
    {
      if pending != [] {
        ok := WritePending(retry);
        if !ok {
          return;
        }
        ClearPending();
      }
      ok := FlushSeconds(before, newToken, write);
    }
  }

  /** Rows in order hold a second once, so a row's count is what the rows hold for its second. */
  lemma {:induction false} RowsHoldSecondsOnce(rows: seq<Row>, i: nat, f: Field)
    requires InOrder(rows) && i < |rows|
    ensures SumRows(rows, Cell(rows[i].key, f)) == Value(rows[i].counts, f)
  {
    if i == 0 {
      NoSuchSecond(rows[1..], Cell(rows[0].key, f));
    } else {
      assert KeyBefore(rows[0].key, rows[i].key);
      RowsHoldSecondsOnce(rows[1..], i - 1, f);
    }
  }

  lemma {:induction false} NoSuchSecond(rows: seq<Row>, c: Cell)
    requires forall i :: 0 <= i < |rows| ==> rows[i].key != c.key
    ensures SumRows(rows, c) == 0
  {
    if rows != [] {
      NoSuchSecond(rows[1..], c);
    }
  }
}

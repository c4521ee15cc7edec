/** A table made bin by bin (logquery/bins.go): one row per time bin and value of the other by columns,
    in order of the bin first. rest stands for the other columns' values, in their order, and a row's
    aggregates are worked out from its group of Logs. */
module BinTables {

  datatype Log = Log(id: nat, time: int, rest: int)

  datatype Key = Key(bin: int, rest: int)
  {
    predicate Before(k: Key) {
      bin < k.bin || (bin == k.bin && rest < k.rest)
    }
  }

  datatype Row = Row(key: Key, group: seq<Log>)

  function BinOf(time: int, size: int): int
    requires size > 0
  {
    time / size * size
  }

  lemma BinOfIs(time: int, size: int)
    requires size > 0
    ensures BinOf(time, size) <= time < BinOf(time, size) + size && exists n :: BinOf(time, size) == n * size
  {
  }

  function KeyOf(log: Log, size: int): Key
    requires size > 0
  {
    Key(BinOf(log.time, size), log.rest)
  }

  /** Keys in order with one more, each once. */
  function Inserted(keys: seq<Key>, k: Key): seq<Key> {
    if keys == [] || k.Before(keys[0]) then [k] + keys
    else if keys[0] == k then keys
    else [keys[0]] + Inserted(keys[1..], k)
  }

  function Keys(logs: seq<Log>, size: int): seq<Key>
    requires size > 0
  {
    if logs == [] then [] else Inserted(Keys(logs[..|logs| - 1], size), KeyOf(logs[|logs| - 1], size))
  }

  function Group(logs: seq<Log>, size: int, k: Key): seq<Log>
    requires size > 0
  {
    if logs == [] then []
    else
      var before, last := Group(logs[..|logs| - 1], size, k), logs[|logs| - 1];
      if KeyOf(last, size) == k then before + [last] else before
  }

  function RowsFor(keys: seq<Key>, logs: seq<Log>, size: int): seq<Row>
    requires size > 0
  {
    seq(|keys|, i requires 0 <= i < |keys| => Row(keys[i], Group(logs, size, keys[i])))
  }

  /** summarize … by bin(time, size), rest. */
  function Table(logs: seq<Log>, size: int): seq<Row>
    requires size > 0
  {
    RowsFor(Keys(logs, size), logs, size)
  }

  function Before(logs: seq<Log>, at: int): seq<Log> {
    if logs == [] then []
    else
      var before, last := Before(logs[..|logs| - 1], at), logs[|logs| - 1];
      if last.time < at then before + [last] else before
  }

  function From(logs: seq<Log>, at: int): seq<Log> {
    if logs == [] then []
    else
      var before, last := From(logs[..|logs| - 1], at), logs[|logs| - 1];
      if last.time >= at then before + [last] else before
  }

  /** The Logs of the bins. */
  function InBins(logs: seq<Log>, size: int, bins: set<int>): seq<Log>
    requires size > 0
  {
    if logs == [] then []
    else
      var before, last := InBins(logs[..|logs| - 1], size, bins), logs[|logs| - 1];
      if BinOf(last.time, size) in bins then before + [last] else before
  }

  /** at is the start of a bin. */
  ghost predicate Aligned(at: int, size: int)
    requires size > 0
  {
    BinOf(at, size) == at
  }

  lemma TimesKeepsOrder(a: int, b: int, size: int)
    requires a <= b && size > 0
    ensures a * size <= b * size
  {
  }

  lemma QuotientIs(time: int, n: int, size: int)
    requires size > 0 && n * size <= time < n * size + size
    ensures time / size == n
  {
    var q := time / size;
    assert q * size <= time < q * size + size;
    if q < n {
      TimesKeepsOrder(q + 1, n, size);
    }
    if n < q {
      TimesKeepsOrder(n + 1, q, size);
    }
  }

  lemma BinBefore(time: int, at: int, size: int)
    requires size > 0 && Aligned(at, size)
    ensures BinOf(time, size) < at <==> time < at
  {
    if at <= time && time / size < at / size {
      TimesKeepsOrder(time / size + 1, at / size, size);
    }
    if at <= time {
      TimesKeepsOrder(at / size, time / size, size);
    }
  }

  lemma AlignedNext(at: int, size: int)
    requires size > 0 && Aligned(at, size)
    ensures Aligned(at + size, size)
  {
    var n := at / size + 1;
    assert n * size == at + size;
    QuotientIs(at + size, n, size);
  }

  ghost predicate AllBefore(keys: seq<Key>, at: int) {
    forall k :: k in keys ==> k.bin < at
  }

  ghost predicate AllFrom(keys: seq<Key>, at: int) {
    forall k :: k in keys ==> k.bin >= at
  }

  lemma {:induction false} InsertedIn(keys: seq<Key>, k: Key)
    ensures forall j :: j in Inserted(keys, k) <==> j in keys || j == k
  {
    if keys != [] && !k.Before(keys[0]) && keys[0] != k {
      InsertedIn(keys[1..], k);
      assert keys == [keys[0]] + keys[1..];
    }
  }

  lemma {:induction false} InsertedApart(early: seq<Key>, late: seq<Key>, k: Key, at: int)
    requires AllBefore(early, at) && AllFrom(late, at)
    ensures Inserted(early + late, k)
         == if k.bin < at then Inserted(early, k) + late else early + Inserted(late, k)
  {
    var all := early + late;
    if early == [] {
      assert all == late;
      if k.bin < at {
        assert late == [] || k.Before(late[0]);
      }
    } else {
      assert all[0] == early[0] && all[1..] == early[1..] + late;
      assert early[0] in early;
      if !k.Before(early[0]) && k != early[0] {
        InsertedApart(early[1..], late, k, at);
        InsertedLater(early, k);
        InsertedLater(all, k);
        FirstOfThree(early[0], Inserted(early[1..], k), late);
        FirstOfThree(early[0], early[1..], Inserted(late, k));
        assert early == [early[0]] + early[1..];
      } else if k == early[0] {
        assert Inserted(early, k) == early && Inserted(all, k) == all;
      } else {
        assert Inserted(early, k) == [k] + early && Inserted(all, k) == [k] + all;
      }
    }
  }

  lemma InsertedLater(keys: seq<Key>, k: Key)
    requires keys != [] && !k.Before(keys[0]) && k != keys[0]
    ensures Inserted(keys, k) == [keys[0]] + Inserted(keys[1..], k)
  {
  }

  lemma FirstOfThree(first: Key, a: seq<Key>, b: seq<Key>)
    ensures [first] + (a + b) == [first] + a + b
  {
  }

  /** The keys of a table are those of the Logs before a bin's start, then those of the others. */
  lemma {:induction false} KeysApart(logs: seq<Log>, size: int, at: int)
    requires size > 0 && Aligned(at, size)
    ensures Keys(logs, size) == Keys(Before(logs, at), size) + Keys(From(logs, at), size)
    ensures AllBefore(Keys(Before(logs, at), size), at) && AllFrom(Keys(From(logs, at), size), at)
  {
    if logs != [] {
      var init, last := logs[..|logs| - 1], logs[|logs| - 1];
      var k := KeyOf(last, size);
      KeysApart(init, size, at);
      BinBefore(last.time, at, size);
      var early, late := Before(init, at), From(init, at);
      InsertedApart(Keys(early, size), Keys(late, size), k, at);
      if last.time < at {
        assert (early + [last])[..|early|] == early;
        InsertedIn(Keys(early, size), k);
      } else {
        assert (late + [last])[..|late|] == late;
        InsertedIn(Keys(late, size), k);
      }
    }
  }

  lemma {:induction false} GroupApart(logs: seq<Log>, size: int, at: int, k: Key)
    requires size > 0 && Aligned(at, size)
    ensures Group(logs, size, k)
         == if k.bin < at then Group(Before(logs, at), size, k) else Group(From(logs, at), size, k)
  {
    if logs != [] {
      var init, last := logs[..|logs| - 1], logs[|logs| - 1];
      GroupApart(init, size, at, k);
      BinBefore(last.time, at, size);
      if last.time < at {
        assert (Before(init, at) + [last])[..|Before(init, at)|] == Before(init, at);
      } else {
        assert (From(init, at) + [last])[..|From(init, at)|] == From(init, at);
      }
    }
  }

  /** At the start of any bin, a table is the table of the Logs before it, then that of the others. */
  lemma TableApart(logs: seq<Log>, size: int, at: int)
    requires size > 0 && Aligned(at, size)
    ensures Table(logs, size) == Table(Before(logs, at), size) + Table(From(logs, at), size)
  {
    KeysApart(logs, size, at);
    var early, late := Keys(Before(logs, at), size), Keys(From(logs, at), size);
    var all := Keys(logs, size);
    forall i | 0 <= i < |all|
      ensures Table(logs, size)[i] == (Table(Before(logs, at), size) + Table(From(logs, at), size))[i]
    {
      GroupApart(logs, size, at, all[i]);
      if i < |early| {
        assert all[i] == early[i] && early[i] in early;
      } else {
        assert all[i] == late[i - |early|] && late[i - |early|] in late;
      }
    }
  }

  /** The tables of the bins from at up to to, one after another, of those to be read. */
  function TablesOfBins(logs: seq<Log>, size: int, bins: set<int>, at: int, to: int): seq<Row>
    requires size > 0
    decreases if at < to then to - at else 0
  {
    if at >= to then []
    else
      (if at in bins then Table(InBins(logs, size, {at}), size) else [])
        + TablesOfBins(logs, size, bins, at + size, to)
  }

  lemma {:induction false} InBinsOf(logs: seq<Log>, size: int, bins: set<int>, at: int)
    requires size > 0 && Aligned(at, size)
    ensures From(InBins(From(logs, at), size, bins), at + size) == InBins(From(logs, at + size), size, bins)
    ensures Before(InBins(From(logs, at), size, bins), at + size) == if at in bins then InBins(logs, size, {at}) else []
  {
    if logs != [] {
      var init, last := logs[..|logs| - 1], logs[|logs| - 1];
      InBinsOf(init, size, bins, at);
      BinBefore(last.time, at, size);
      AlignedNext(at, size);
      BinBefore(last.time, at + size, size);
      BinIsAt(last.time, at, size);
      ShowLast(From(init, at), last);
      ShowLast(From(init, at + size), last);
      ShowLast(InBins(From(init, at), size, bins), last);
    }
  }

  lemma BinIsAt(time: int, at: int, size: int)
    requires size > 0 && Aligned(at, size)
    ensures BinOf(time, size) == at <==> at <= time < at + size
  {
    if at <= time < at + size {
      QuotientIs(time, at / size, size);
    }
  }

  lemma ShowLast(logs: seq<Log>, last: Log)
    ensures (logs + [last])[..|logs|] == logs && (logs + [last])[|logs|] == last && |logs + [last]| - 1 == |logs|
  {
  }

  /** The table over any bins of a range is their tables, one after another in order of the bins. */
  lemma {:induction false} TableIsItsBins(logs: seq<Log>, size: int, bins: set<int>, at: int, to: int)
    requires size > 0 && Aligned(at, size)
    requires forall l :: l in logs ==> l.time < to
    ensures Table(InBins(From(logs, at), size, bins), size) == TablesOfBins(logs, size, bins, at, to)
    decreases if at < to then to - at else 0
  {
    if at >= to {
      NoneFrom(logs, at);
    } else {
      var read := InBins(From(logs, at), size, bins);
      AlignedNext(at, size);
      TableApart(read, size, at + size);
      InBinsOf(logs, size, bins, at);
      TableIsItsBins(logs, size, bins, at + size, to);
    }
  }

  lemma {:induction false} NoneFrom(logs: seq<Log>, at: int)
    requires forall l :: l in logs ==> l.time < at
    ensures From(logs, at) == []
  {
    if logs != [] {
      assert logs[|logs| - 1] in logs;
      assert forall l :: l in logs[..|logs| - 1] ==> l in logs;
      NoneFrom(logs[..|logs| - 1], at);
    }
  }

  lemma {:induction false} InsertedInOrder(keys: seq<Key>, k: Key)
    requires InOrder(keys)
    ensures InOrder(Inserted(keys, k))
  {
    if keys != [] && !k.Before(keys[0]) && keys[0] != k {
      var rest := Inserted(keys[1..], k);
      InsertedInOrder(keys[1..], k);
      InsertedIn(keys[1..], k);
      forall j | 0 <= j < |rest|
        ensures keys[0].Before(rest[j])
      {
        assert rest[j] in rest;
      }
    }
  }

  ghost predicate InOrder(keys: seq<Key>) {
    forall i, j :: 0 <= i < j < |keys| ==> keys[i].Before(keys[j])
  }

  /** A table's rows are in order of their bins first, no two of one bin and one value. */
  lemma {:induction false} RowsInOrder(logs: seq<Log>, size: int)
    requires size > 0
    ensures InOrder(Keys(logs, size))
    ensures |Table(logs, size)| == |Keys(logs, size)|
    ensures forall i :: 0 <= i < |Keys(logs, size)| ==> Table(logs, size)[i].key == Keys(logs, size)[i]
  {
    if logs != [] {
      RowsInOrder(logs[..|logs| - 1], size);
      InsertedInOrder(Keys(logs[..|logs| - 1], size), KeyOf(logs[|logs| - 1], size));
    }
  }

  /** A row's group has its Logs in the order they came in. */
  lemma {:induction false} GroupInOrder(a: seq<Log>, b: seq<Log>, size: int, k: Key)
    requires size > 0
    ensures Group(a + b, size, k) == Group(a, size, k) + Group(b, size, k)
  {
    if b == [] {
      assert a + b == a;
    } else {
      GroupInOrder(a, b[..|b| - 1], size, k);
      assert (a + b)[..|a + b| - 1] == a + b[..|b| - 1];
    }
  }

  /** A row's first column is its bin's start, and its group the Logs of the bin and the other columns. */
  lemma {:induction false} RowsAreOfTheirBins(logs: seq<Log>, size: int, k: Key)
    requires size > 0
    ensures k in Keys(logs, size) <==> exists l :: l in logs && KeyOf(l, size) == k
    ensures forall l :: l in Group(logs, size, k) <==> l in logs && KeyOf(l, size) == k
  {
    if logs != [] {
      var init, last := logs[..|logs| - 1], logs[|logs| - 1];
      RowsAreOfTheirBins(init, size, k);
      InsertedIn(Keys(init, size), KeyOf(last, size));
      assert logs == init + [last] && last in logs;
      assert forall l :: l in init ==> l in logs;
    }
  }
}

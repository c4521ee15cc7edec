/** A Project's key counts in ClickHouse and in memory (storage/logs_clickhouse.go insertKeyCounts,
    dayCounts). The table holds rows that say how each key's count changed; an insert under a token it
    has taken already adds none. */
module KeyCounts {
  import opened SpaceSaving

  type Day = int
  type Token = nat

  datatype Row = Row(day: Day, key: Key, logs: int)

  datatype DayBatch = DayBatch(day: Day, counts: Counts)

  /** What an insert came to: ClickHouse answered, or it didn't, having stored the rows or not. */
  datatype Outcome = Answered | LostAnswer | NotStored

  /** What happens to the counts: an insert, one Project's, or a restart. again says the insert's range was
      inserted before, under the same token. */
  datatype Event =
    | Insert(token: Token, byDay: seq<DayBatch>, again: bool, outcome: Outcome)
    | Restart

  /** The table, the tokens it has taken, and the days' counts kept in memory. */
  datatype State = State(table: seq<Row>, tokens: set<Token>, memory: map<Day, Counts>)

  const KEYS_KEPT: nat := 1000
  const KEPT_COUNT_DAYS: nat := 64

  function Sum(rows: seq<Row>, day: Day, key: Key): int {
    if rows == [] then 0
    else
      var last := rows[|rows| - 1];
      Sum(rows[..|rows| - 1], day, key) + if last.day == day && last.key == key then last.logs else 0
  }

  lemma {:induction false} SumOfBoth(a: seq<Row>, b: seq<Row>, day: Day, key: Key)
    ensures Sum(a + b, day, key) == Sum(a, day, key) + Sum(b, day, key)
  {
    if b == [] {
      assert a + b == a;
    } else {
      assert (a + b)[..|a + b| - 1] == a + b[..|b| - 1];
      SumOfBoth(a, b[..|b| - 1], day, key);
    }
  }

  lemma SumOfOne(rows: seq<Row>, row: Row, day: Day, key: Key)
    ensures Sum(rows + [row], day, key)
         == Sum(rows, day, key) + if row.day == day && row.key == key then row.logs else 0
  {
    assert (rows + [row])[..|rows|] == rows;
  }

  predicate HasDay(byDay: seq<DayBatch>, day: Day) {
    exists b :: b in byDay && b.day == day
  }

  ghost predicate DistinctDays(byDay: seq<DayBatch>) {
    forall i, j :: 0 <= i < j < |byDay| ==> byDay[i].day != byDay[j].day
  }

  /** What an insert takes a key's count to be: the one in memory, or else what the table sums to. */
  function Held(s: State, day: Day, k: Key): int {
    if day in s.memory then Count(s.memory[day], k) else Sum(s.table, day, k)
  }

  /** No key's count is 0. */
  ghost predicate NoZero(counts: Counts) {
    forall k :: k in counts ==> counts[k] != 0
  }

  ghost predicate IsHeld(s: State, day: Day, counts: Counts) {
    && (if day in s.memory then counts == s.memory[day] else NoZero(counts))
    && forall k :: Count(counts, k) == Held(s, day, k)
  }

  /** A day's held counts merged with the day's batch. */
  ghost predicate MergedDay(s: State, batch: DayBatch, kept: Counts) {
    exists before :: IsHeld(s, batch.day, before) && Merges(before, batch.counts, KEYS_KEPT, kept)
  }

  ghost predicate MergedAll(s: State, byDay: seq<DayBatch>, merged: map<Day, Counts>) {
    && (forall d :: d in merged <==> HasDay(byDay, d))
    && (forall b :: b in byDay && b.day in merged ==> MergedDay(s, b, merged[b.day]))
  }

  /** The rows sum to what the merged counts add to those held, and for no other day. */
  ghost predicate Adds(s: State, merged: map<Day, Counts>, rows: seq<Row>) {
    forall d, k :: Sum(rows, d, k) == if d in merged then Count(merged[d], k) - Held(s, d, k) else 0
  }

  /** The merged days' counts are in memory, or, where the range was inserted before, aren't; the others
      stay while few enough days are kept, and go otherwise. */
  ghost predicate Remembers<V>(before: map<Day, V>, merged: map<Day, V>, again: bool, after: map<Day, V>) {
    && (forall d :: d in merged ==> if again then d !in after else d in after && after[d] == merged[d])
    && (forall d :: d in after && d !in merged ==> d in before && after[d] == before[d])
    && if |before.Keys - merged.Keys| + (if again then 0 else |merged|) <= KEPT_COUNT_DAYS
       then forall d :: d in before && d !in merged ==> d in after
       else forall d :: d in after ==> d in merged
  }

  /** ClickHouse stores the rows of the insert. */
  predicate Stores(s: State, e: Event) {
    e.Insert? && e.byDay != [] && e.outcome != NotStored && e.token !in s.tokens
  }

  ghost predicate InsertStep(s: State, e: Event, s': State, merged: map<Day, Counts>, rows: seq<Row>)
    requires e.Insert?
  {
    && MergedAll(s, e.byDay, merged) && Adds(s, merged, rows)
    && s'.table == s.table + (if Stores(s, e) then rows else [])
    && s'.tokens == s.tokens + (if e.outcome == NotStored then {} else {e.token})
    && if e.outcome == Answered then Remembers(s.memory, merged, e.again, s'.memory) else s'.memory == s.memory
  }

  ghost predicate Step(s: State, e: Event, s': State) {
    match e
    case Restart => s' == s.(memory := map[])
    case Insert(_, byDay, _, _) =>
      if byDay == [] then s' == s else exists merged, rows :: InsertStep(s, e, s', merged, rows)
  }

  /** The rows by which a day's counts change. */
  method ChangeRows(day: Day, before: Counts, counts: Counts, changed: seq<Key>, evicted: seq<Key>)
      returns (rows: seq<Row>)
    requires Distinct(changed) && Distinct(evicted)
    requires forall k :: k in changed ==> k in counts
    requires forall k :: k in evicted ==> k !in counts
    requires forall k :: k !in changed && k !in evicted ==> Count(counts, k) == Count(before, k)
    ensures forall d, k :: Sum(rows, d, k) == if d == day then Count(counts, k) - Count(before, k) else 0
  {
    rows := [];
    for i := 0 to |changed|
      invariant forall d, k :: Sum(rows, d, k) ==
                  if d == day && k in changed[..i] then Count(counts, k) - Count(before, k) else 0
    {
      NextKey(changed, i);
      var row := Row(day, changed[i], counts[changed[i]] - Count(before, changed[i]));
      assert changed[i] in changed;
      forall d, k
        ensures Sum(rows + [row], d, k) == Sum(rows, d, k) + if row.day == d && row.key == k then row.logs else 0
      {
        SumOfOne(rows, row, d, k);
      }
      rows := rows + [row];
    }
    assert changed[..|changed|] == changed;
    for i := 0 to |evicted|
      invariant forall d, k :: Sum(rows, d, k) ==
                  if d == day && (k in changed || k in evicted[..i]) then Count(counts, k) - Count(before, k) else 0
    {
      NextKey(evicted, i);
      var n := Count(before, evicted[i]);
      assert evicted[i] in evicted;
      if n != 0 {
        var row := Row(day, evicted[i], -n);
        forall d, k
          ensures Sum(rows + [row], d, k) == Sum(rows, d, k) + if row.day == d && row.key == k then row.logs else 0
        {
          SumOfOne(rows, row, d, k);
        }
        rows := rows + [row];
      }
    }
    assert evicted[..|evicted|] == evicted;
  }

  class KeyCountStore {
    var table: seq<Row>
    var tokens: set<Token>
    var memory: map<Day, Counts>

    ghost function Now(): State
      reads this
    {
      State(table, tokens, memory)
    }

    constructor ()
      ensures Now() == State([], {}, map[])
    {
      table, tokens, memory := [], {}, map[];
    }

    /** dayCounts: from memory, or else each key's sum that isn't 0. */
    method DayCounts(day: Day) returns (counts: Counts)
      ensures IsHeld(Now(), day, counts)
    {
      if day in memory {
        return memory[day];
      }
      counts := map[];
      for i := 0 to |table|
        invariant NoZero(counts)
        invariant forall k :: Count(counts, k) == Sum(table[..i], day, k)
      {
        var row := table[i];
        assert table[..i + 1] == table[..i] + [row];
        forall k
          ensures Sum(table[..i + 1], day, k)
               == Sum(table[..i], day, k) + if row.day == day && row.key == k then row.logs else 0
        {
          SumOfOne(table[..i], row, day, k);
        }
        if row.day == day {
          var n := Count(counts, row.key) + row.logs;
          counts := if n == 0 then counts - {row.key} else counts[row.key := n];
        }
      }
      assert table[..|table|] == table;
    }

    /** One day's merged counts, and the rows that tell of them. */
    method MergeDay(batch: DayBatch) returns (kept: Counts, rows: seq<Row>)
      ensures MergedDay(Now(), batch, kept)
      ensures forall d, k :: Sum(rows, d, k) == if d == batch.day then Count(kept, k) - Held(Now(), d, k) else 0
    {
      var before := DayCounts(batch.day);
      var changed, evicted;
      kept, changed, evicted := MergeKeyCounts(before, batch.counts, KEYS_KEPT);
      Unchanged(before, batch.counts, kept, changed, evicted);
      rows := ChangeRows(batch.day, before, kept, changed, evicted);
    }

    /** Every day's merged counts, and the insert's rows. */
    method MergeDays(byDay: seq<DayBatch>) returns (merged: map<Day, Counts>, rows: seq<Row>)
      requires DistinctDays(byDay)
      ensures MergedAll(Now(), byDay, merged) && Adds(Now(), merged, rows)
    {
      merged, rows := map[], [];
      for i := 0 to |byDay|
        invariant MergedAll(Now(), byDay[..i], merged) && Adds(Now(), merged, rows)
      {
        NewDay(byDay, i);
        var kept, dayRows := MergeDay(byDay[i]);
        AddDay(Now(), byDay[..i], byDay[i], merged, kept, rows, dayRows);
        rows := rows + dayRows;
        merged := merged[byDay[i].day := kept];
      }
      assert byDay[..|byDay|] == byDay;
    }

    /** insertKeyCounts, one Project's. Where ClickHouse takes the rows, each day's sums change as the counts
        held do when the day's batch is merged into them, once for a token; once it answers, memory holds
        the merged counts, or, for a range inserted again, none of the insert's days. */
    method InsertKeyCounts(token: Token, byDay: seq<DayBatch>, again: bool, outcome: Outcome) returns (ok: bool)
      requires DistinctDays(byDay)
      modifies this
      ensures ok <==> byDay == [] || outcome == Answered
      ensures Step(old(Now()), Insert(token, byDay, again, outcome), Now())
    {
      if |byDay| == 0 {
        return true;
      }
      var merged, rows := MergeDays(byDay);
      Send(token, rows, outcome);
      if outcome == Answered {
        KeepInMemory(merged, again);
      }
      assert InsertStep(old(Now()), Insert(token, byDay, again, outcome), Now(), merged, rows);
      return outcome == Answered;
    }

    /** The first rows sent under a token are stored, unless they are lost on the way. */
    method Send(token: Token, rows: seq<Row>, outcome: Outcome)
      modifies this`table, this`tokens
      ensures tokens == old(tokens) + if outcome == NotStored then {} else {token}
      ensures table == old(table) + if outcome == NotStored || token in old(tokens) then [] else rows
    {
      if outcome != NotStored {
        if token !in tokens {
          table := table + rows;
        }
        tokens := tokens + {token};
      }
    }

    /** The counts kept in memory once ClickHouse has them. */
    method KeepInMemory(merged: map<Day, Counts>, again: bool)
      modifies this`memory
      ensures Remembers(old(memory), merged, again, memory)
    {
      ghost var before := memory;
      if again {
        memory := memory - merged.Keys;
      } else {
        memory := memory + merged;
      }
      ghost var all := memory;
      if |memory| > KEPT_COUNT_DAYS {
        memory := memory - (memory.Keys - merged.Keys);
      }
      KeptIsRemembered(before, merged, again, all, memory);
    }
  }

  lemma KeptIsRemembered<V>(before: map<Day, V>, merged: map<Day, V>, again: bool,
                         all: map<Day, V>, after: map<Day, V>)
    requires all == if again then before - merged.Keys else before + merged
    requires after == if |all| > KEPT_COUNT_DAYS then all - (all.Keys - merged.Keys) else all
    ensures Remembers(before, merged, again, after)
  {
    SizesKept(before, merged);
  }

  lemma SizesKept<V>(before: map<Day, V>, merged: map<Day, V>)
    ensures |before - merged.Keys| == |before.Keys - merged.Keys|
    ensures |before + merged| == |before.Keys - merged.Keys| + |merged|
  {
    assert (before - merged.Keys).Keys == before.Keys - merged.Keys;
    assert (before + merged).Keys == (before.Keys - merged.Keys) + merged.Keys;
  }

  lemma NewDay(byDay: seq<DayBatch>, i: nat)
    requires DistinctDays(byDay) && i < |byDay|
    ensures byDay[..i + 1] == byDay[..i] + [byDay[i]]
    ensures !HasDay(byDay[..i], byDay[i].day)
  {
  }

  lemma DaysOf(before: seq<DayBatch>, batch: DayBatch)
    ensures forall d :: HasDay(before + [batch], d) <==> HasDay(before, d) || d == batch.day
    ensures forall b :: b in before + [batch] <==> b in before || b == batch
  {
    assert batch in before + [batch];
    assert forall b :: b in before ==> b in before + [batch];
  }

  /** A day's rows leave the sums of the days before, and theirs its sums. */
  lemma AddDay(s: State, before: seq<DayBatch>, batch: DayBatch, merged: map<Day, Counts>, kept: Counts,
               rows: seq<Row>, dayRows: seq<Row>)
    requires !HasDay(before, batch.day) && MergedAll(s, before, merged) && Adds(s, merged, rows)
    requires MergedDay(s, batch, kept)
    requires forall d, k :: Sum(dayRows, d, k) == if d == batch.day then Count(kept, k) - Held(s, d, k) else 0
    ensures MergedAll(s, before + [batch], merged[batch.day := kept])
    ensures Adds(s, merged[batch.day := kept], rows + dayRows)
  {
    MergedMore(s, before, batch, merged, kept);
    assert batch.day !in merged;
    AddsMore(s, batch.day, merged, kept, rows, dayRows);
  }

  lemma MergedMore(s: State, before: seq<DayBatch>, batch: DayBatch, merged: map<Day, Counts>, kept: Counts)
    requires !HasDay(before, batch.day) && MergedAll(s, before, merged) && MergedDay(s, batch, kept)
    ensures MergedAll(s, before + [batch], merged[batch.day := kept])
  {
    var all, after := before + [batch], merged[batch.day := kept];
    DaysOf(before, batch);
    forall b | b in all && b.day in after
      ensures MergedDay(s, b, after[b.day])
    {
      if b in before {
        assert HasDay(before, b.day) && b.day != batch.day;
      }
    }
  }

  lemma AddsMore(s: State, day: Day, merged: map<Day, Counts>, kept: Counts, rows: seq<Row>, dayRows: seq<Row>)
    requires day !in merged && Adds(s, merged, rows)
    requires forall d, k :: Sum(dayRows, d, k) == if d == day then Count(kept, k) - Held(s, d, k) else 0
    ensures Adds(s, merged[day := kept], rows + dayRows)
  {
    forall d, k
      ensures Sum(rows + dayRows, d, k)
           == if d in merged[day := kept] then Count(merged[day := kept][d], k) - Held(s, d, k) else 0
    {
      SumOfBoth(rows, dayRows, d, k);
    }
  }

  /** A key neither changed nor evicted keeps its count. */
  lemma Unchanged(before: Counts, batch: Counts, kept: Counts, changed: seq<Key>, evicted: seq<Key>)
    requires Merges(before, batch, KEYS_KEPT, kept)
    requires forall k :: k in changed <==> k in batch && k in kept
    requires forall k :: k in evicted <==> (k in before || k in batch) && k !in kept
    ensures forall k :: k !in changed && k !in evicted ==> Count(kept, k) == Count(before, k)
  {
    var floor :| IsFloor(before, KEYS_KEPT, floor) && KeepsTop(Added(before, batch, floor), KEYS_KEPT, kept);
  }
}

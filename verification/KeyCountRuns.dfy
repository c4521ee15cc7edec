/** A Project's key counts over any sequence of inserts, first tries and retries, answered or not, and
    restarts (storage/logs_clickhouse.go insertKeyCounts): when the counts in memory are the table's, and
    what the table's rows come to tell. */
module KeyCountRuns {
  import opened SpaceSaving
  import opened KeyCounts
  import opened KeyTotals

  function Init(): State {
    State([], {}, map[])
  }

  /** As the callers insert: a day's batch has Logs, and a token the table may have goes as again. */
  ghost predicate Allowed(s: State, e: Event) {
    e.Insert? ==>
      && DistinctDays(e.byDay)
      && (forall b :: b in e.byDay ==> Positive(b.counts) && b.counts != map[])
      && (e.token in s.tokens ==> e.again)
  }

  ghost predicate History(states: seq<State>, events: seq<Event>) {
    && |states| == |events| + 1
    && states[0] == Init()
    && forall i :: 0 <= i < |events| ==> Allowed(states[i], events[i]) && Step(states[i], events[i], states[i + 1])
  }

  /** The day's counts in memory, if any, are the table's. */
  ghost predicate Right(s: State, day: Day) {
    day in s.memory ==> forall k :: Count(s.memory[day], k) == Sum(s.table, day, k)
  }

  /** ClickHouse stores a day's rows, but its answer is lost, while the day's counts are in memory. */
  predicate Loses(s: State, e: Event, day: Day) {
    Stores(s, e) && e.outcome == LostAnswer && HasDay(e.byDay, day) && day in s.memory
  }

  /** By how much the table is ahead of what an insert would take a key's count to be. */
  ghost function Drift(s: State, day: Day): Key -> int {
    (k: Key) => Sum(s.table, day, k) - Held(s, day, k)
  }

  ghost predicate Sized(s: State) {
    forall d :: d in s.memory ==> |s.memory[d]| <= KEYS_KEPT
  }

  // ---- One step

  /** The counts a lost answer's rows were to bring a day to. */
  ghost predicate LostCounts(s: State, e: Event, day: Day, kept: Counts)
    requires Loses(s, e, day)
  {
    exists b :: b in e.byDay && b.day == day && Merges(s.memory[day], b.counts, KEYS_KEPT, kept)
  }

  /** A day in memory after a step is as far behind the table, key by key, as it was before, unless the
      step loses the answer to its rows: then it falls behind by their change as well. */
  lemma DriftAfter(s: State, e: Event, s': State, day: Day) returns (kept: Counts)
    requires Allowed(s, e) && Step(s, e, s') && day in s'.memory
    ensures if Loses(s, e, day)
            then
              && LostCounts(s, e, day, kept)
              && forall k :: Drift(s', day)(k) == Drift(s, day)(k) + Change(s.memory[day], kept)(k)
            else forall k :: Drift(s', day)(k) == Drift(s, day)(k)
  {
    kept := map[];
    if e.Insert? && e.byDay != [] {
      var merged, rows :| InsertStep(s, e, s', merged, rows);
      InsertDrift(s, e, s', merged, rows, day);
      if Loses(s, e, day) {
        kept := merged[day];
      }
    } else {
      assert s' == s;
    }
  }

  lemma SumOfTable(s: State, e: Event, s': State, merged: map<Day, Counts>, rows: seq<Row>, day: Day)
    requires e.Insert? && InsertStep(s, e, s', merged, rows)
    ensures forall k :: Sum(s'.table, day, k) ==
              if Stores(s, e) && day in merged then Sum(s.table, day, k) + Count(merged[day], k) - Held(s, day, k)
              else Sum(s.table, day, k)
  {
    forall k
      ensures Sum(s.table + rows, day, k) == Sum(s.table, day, k) + Sum(rows, day, k)
    {
      SumOfBoth(s.table, rows, day, k);
    }
    assert s.table + [] == s.table;
  }

  /** What an insert takes the counts of a day in memory to be after a step: the merged ones or those before. */
  lemma HeldAfter(s: State, e: Event, s': State, merged: map<Day, Counts>, rows: seq<Row>, day: Day)
    requires e.Insert? && (e.token in s.tokens ==> e.again) && e.byDay != []
    requires InsertStep(s, e, s', merged, rows) && day in s'.memory
    ensures var replaced := e.outcome == Answered && day in merged;
            && (replaced ==> Stores(s, e))
            && forall k :: Held(s', day, k) == if replaced then Count(merged[day], k) else Held(s, day, k)
  {
  }

  lemma InsertDrift(s: State, e: Event, s': State, merged: map<Day, Counts>, rows: seq<Row>, day: Day)
    requires e.Insert? && (e.token in s.tokens ==> e.again) && e.byDay != []
    requires InsertStep(s, e, s', merged, rows) && day in s'.memory
    ensures Loses(s, e, day) ==> day in merged && LostCounts(s, e, day, merged[day])
    ensures forall k :: Drift(s', day)(k) ==
              Drift(s, day)(k) + if Loses(s, e, day) then Change(s.memory[day], merged[day])(k) else 0
  {
    SumOfTable(s, e, s', merged, rows, day);
    HeldAfter(s, e, s', merged, rows, day);
    if Loses(s, e, day) {
      LostIsMerged(s, e, merged, day);
    }
  }

  lemma LostIsMerged(s: State, e: Event, merged: map<Day, Counts>, day: Day)
    requires Loses(s, e, day) && MergedAll(s, e.byDay, merged)
    ensures day in merged && LostCounts(s, e, day, merged[day])
  {
    var b :| b in e.byDay && b.day == day;
    assert MergedDay(s, b, merged[day]);
  }

  lemma SizedAfter(s: State, e: Event, s': State)
    requires Sized(s) && Step(s, e, s')
    ensures Sized(s')
  {
    if e.Insert? && e.byDay != [] {
      var merged, rows :| InsertStep(s, e, s', merged, rows);
      forall d | d in s'.memory && d in merged
        ensures |s'.memory[d]| <= KEYS_KEPT
      {
        if e.outcome == Answered {
          var b :| b in e.byDay && b.day == d;
          MergedIsSized(s, b, merged[d]);
        }
      }
    }
  }

  lemma MergedIsSized(s: State, b: DayBatch, kept: Counts)
    requires MergedDay(s, b, kept)
    ensures |kept| <= KEYS_KEPT
  {
  }

  // ---- When the counts in memory are the table's

  /** Over keys outside which nothing has drifted, the table is ahead by some Logs in all, or by none. */
  ghost predicate Ahead(s: State, day: Day, keys: set<Key>, behind: bool) {
    && (forall k :: k !in keys ==> Drift(s, day)(k) == 0)
    && SumOver(Drift(s, day), keys) >= if behind then 1 else 0
  }

  lemma RightIsNotAhead(s: State, day: Day)
    requires Right(s, day)
    ensures Ahead(s, day, {}, false)
  {
  }

  lemma AheadIsWrong(s: State, day: Day, keys: set<Key>)
    requires Ahead(s, day, keys, true)
    ensures !Right(s, day)
  {
    if Right(s, day) {
      SumOfSame(Drift(s, day), (k: Key) => 0, keys);
      SumOfConst((k: Key) => 0, keys, 0);
    }
  }

  lemma LossRaises(s: State, e: Event, day: Day, kept: Counts) returns (touched: set<Key>)
    requires Allowed(s, e) && Loses(s, e, day) && LostCounts(s, e, day, kept) && |s.memory[day]| <= KEYS_KEPT
    ensures forall k :: k !in touched ==> Change(s.memory[day], kept)(k) == 0
    ensures SumOver(Change(s.memory[day], kept), touched) > 0
  {
    var b :| b in e.byDay && b.day == day && Merges(s.memory[day], b.counts, KEYS_KEPT, kept);
    touched := s.memory[day].Keys + b.counts.Keys;
    MergeRaisesTotal(s.memory[day], b.counts, KEYS_KEPT, kept);
  }

  /** A lost answer leaves the table more Logs ahead in all than it was, whatever was evicted. */
  lemma LosingPutsAhead(s: State, e: Event, s': State, day: Day, keys: set<Key>) returns (keys': set<Key>)
    requires Sized(s) && Allowed(s, e) && Step(s, e, s') && day in s'.memory && Loses(s, e, day)
    requires Ahead(s, day, keys, false)
    ensures Ahead(s', day, keys', true)
  {
    var kept := DriftAfter(s, e, s', day);
    var touched := LossRaises(s, e, day, kept);
    SumOfApart(Drift(s, day), keys, Change(s.memory[day], kept), touched, Drift(s', day));
    keys' := keys + touched;
  }

  lemma AheadStays(s: State, e: Event, s': State, day: Day, keys: set<Key>, behind: bool)
    requires Allowed(s, e) && Step(s, e, s') && day in s'.memory && !Loses(s, e, day)
    requires Ahead(s, day, keys, behind)
    ensures Ahead(s', day, keys, behind)
  {
    var kept := DriftAfter(s, e, s', day);
    SumOfSame(Drift(s, day), Drift(s', day), keys);
  }

  lemma RightIsNoDrift(s: State, day: Day)
    ensures Right(s, day) <==> forall k :: Drift(s, day)(k) == 0
  {
    if day in s.memory && forall k :: Drift(s, day)(k) == 0 {
      forall k
        ensures Count(s.memory[day], k) == Sum(s.table, day, k)
      {
        assert Drift(s, day)(k) == 0;
      }
    }
  }

  lemma RightStays(s: State, e: Event, s': State, day: Day)
    requires Allowed(s, e) && Step(s, e, s') && !Loses(s, e, day)
    ensures day !in s'.memory ==> Right(s', day)
    ensures day in s'.memory ==> (Right(s', day) <==> Right(s, day))
  {
    if day in s'.memory {
      var kept := DriftAfter(s, e, s', day);
      RightIsNoDrift(s, day);
      RightIsNoDrift(s', day);
      assert forall k :: Drift(s', day)(k) == 0 <==> Drift(s, day)(k) == 0;
    }
  }

  /** How many answers to a day's rows were lost since the day was last out of memory. */
  ghost function Lost(states: seq<State>, events: seq<Event>, day: Day): nat
    requires |states| == |events| + 1
    decreases |events|
  {
    var n := |events| - 1;
    if events == [] || day !in states[n + 1].memory then 0
    else Lost(states[..n + 1], events[..n], day) + if Loses(states[n], events[n], day) then 1 else 0
  }

  lemma {:induction false} LostIsAhead(states: seq<State>, events: seq<Event>, day: Day) returns (keys: set<Key>)
    requires History(states, events)
    ensures Sized(states[|events|])
    ensures if Lost(states, events, day) == 0 then Right(states[|events|], day)
            else Ahead(states[|events|], day, keys, true)
    decreases |events|
  {
    keys := {};
    if events != [] {
      var n := |events| - 1;
      var s, e, s' := states[n], events[n], states[n + 1];
      keys := LostIsAhead(states[..n + 1], events[..n], day);
      SizedAfter(s, e, s');
      if day in s'.memory {
        if Loses(s, e, day) {
          if Lost(states[..n + 1], events[..n], day) == 0 {
            RightIsNotAhead(s, day);
            keys := {};
          }
          keys := LosingPutsAhead(s, e, s', day, keys);
        } else if Lost(states[..n + 1], events[..n], day) == 0 {
          RightStays(s, e, s', day);
        } else {
          AheadStays(s, e, s', day, keys, true);
        }
      }
    }
  }

  /** After any inserts, retries and restarts, exactly when a day's counts in memory are the table's: no
      answer to rows of the day was lost since the day was last out of memory. */
  lemma RightExactly(states: seq<State>, events: seq<Event>, day: Day)
    requires History(states, events)
    ensures Right(states[|events|], day) <==> Lost(states, events, day) == 0
  {
    var keys := LostIsAhead(states, events, day);
    if Lost(states, events, day) != 0 {
      AheadIsWrong(states[|events|], day, keys);
    }
  }

  // ---- A first try whose answer was lost, and its retry

  function DaysIn(byDay: seq<DayBatch>): set<Day> {
    set b | b in byDay :: b.day
  }

  /** The retry takes every day of the first try that is in memory out of it: it has the day, or too many
      days besides its own are kept. */
  predicate Mends(memory: set<Day>, first: seq<DayBatch>, second: seq<DayBatch>) {
    || (forall b :: b in first && b.day in memory ==> HasDay(second, b.day))
    || (second != [] && |memory - DaysIn(second)| > KEPT_COUNT_DAYS)
  }

  /** The expectation that a retry mends what a lost answer left, exactly when it is met. Where, after any
      inserts, retries and restarts, memory is the table's, ClickHouse stored a first try but its answer was
      lost, and the range's retry was answered, memory is the table's again if and only if the retry, whose
      Logs the Log transform may have changed, has each day of the first try that memory had, or more than
      64 days besides its own are kept. */
  lemma RetryMends(states: seq<State>, events: seq<Event>, s: State, token: Token,
                   first: seq<DayBatch>, between: State, second: seq<DayBatch>, after: State)
    requires History(states, events) && s == states[|events|]
    requires (forall d :: Right(s, d)) && token !in s.tokens
    requires var e := Insert(token, first, false, LostAnswer); Allowed(s, e) && Step(s, e, between)
    requires var e := Insert(token, second, true, Answered); Allowed(between, e) && Step(between, e, after)
    ensures (forall d :: Right(after, d)) <==> Mends(s.memory.Keys, first, second)
  {
    var _ := LostIsAhead(states, events, 0);
    var try, retry := Insert(token, first, false, LostAnswer), Insert(token, second, true, Answered);
    forall d
      ensures Right(after, d) <==> !(Loses(s, try, d) && d in after.memory)
    {
      RetriedDay(s, try, between, retry, after, d);
    }
    assert s.memory == between.memory;
    if second != [] {
      RetryTakesOut(between, retry, after);
    }
    MendsExactly(s.memory.Keys, after.memory.Keys, first, second);
    assert forall d :: Loses(s, try, d) <==> HasDay(first, d) && d in s.memory.Keys;
  }

  /** No day of the first try that was in memory is left in it, if and only if the retry mends. */
  lemma MendsExactly(before: set<Day>, after: set<Day>, first: seq<DayBatch>, second: seq<DayBatch>)
    requires second == [] ==> after == before
    requires second != [] ==> forall d :: d in before ==>
               (d in after <==> !HasDay(second, d) && |before - DaysIn(second)| <= KEPT_COUNT_DAYS)
    ensures (forall d :: !(HasDay(first, d) && d in before && d in after)) <==> Mends(before, first, second)
  {
    if Mends(before, first, second) {
      forall d | HasDay(first, d) && d in before
        ensures d !in after
      {
        var b :| b in first && b.day == d;
      }
    } else {
      var b :| b in first && b.day in before && !HasDay(second, b.day);
      assert HasDay(first, b.day) && b.day in after;
    }
  }

  lemma RetriedDay(s: State, try: Event, between: State, retry: Event, after: State, day: Day)
    requires Sized(s) && Right(s, day)
    requires Allowed(s, try) && Step(s, try, between) && try.Insert? && try.outcome == LostAnswer
    requires Allowed(between, retry) && Step(between, retry, after) && retry.Insert? && retry.outcome == Answered
    ensures Right(after, day) <==> !(Loses(s, try, day) && day in after.memory)
  {
    if Loses(s, try, day) {
      RightIsNotAhead(s, day);
      var keys := LosingPutsAhead(s, try, between, day, {});
      AheadIsWrong(between, day, keys);
    } else {
      RightStays(s, try, between, day);
    }
    RightStays(between, retry, after, day);
  }

  lemma KeysAreDays(s: State, byDay: seq<DayBatch>, merged: map<Day, Counts>)
    requires MergedAll(s, byDay, merged)
    ensures merged.Keys == DaysIn(byDay)
  {
    forall d
      ensures d in merged.Keys <==> d in DaysIn(byDay)
    {
      assert d in merged <==> HasDay(byDay, d);
    }
  }

  lemma RetryTakesOut(s: State, e: Event, s': State)
    requires e.Insert? && e.byDay != [] && e.again && e.outcome == Answered && Step(s, e, s')
    ensures forall d :: d in s.memory ==>
              (d in s'.memory <==> !HasDay(e.byDay, d) && |s.memory.Keys - DaysIn(e.byDay)| <= KEPT_COUNT_DAYS)
  {
    var merged, rows :| InsertStep(s, e, s', merged, rows);
    KeysAreDays(s, e.byDay, merged);
    assert s.memory.Keys - merged.Keys == s.memory.Keys - DaysIn(e.byDay);
  }

  /** n Logs with one key. */
  function Logs(n: nat): Counts {
    if n == 0 then map[] else map[7 := n]
  }

  lemma OneMore(n: nat)
    ensures Merges(Logs(n), Logs(1), KEYS_KEPT, Logs(n + 1))
  {
    assert Added(Logs(n), Logs(1), 0) == Logs(n + 1);
    assert |Logs(n)| <= 1 && |Logs(n + 1)| == 1;
    assert IsFloor(Logs(n), KEYS_KEPT, 0) && KeepsTop(Logs(n + 1), KEYS_KEPT, Logs(n + 1));
  }

  function OneLog(day: Day): seq<DayBatch> {
    [DayBatch(day, Logs(1))]
  }

  /** The merged counts and the rows of an insert of one Log of a day that n Logs are held of. */
  lemma OneLogMerged(s: State, day: Day, n: nat)
    requires IsHeld(s, day, Logs(n))
    ensures MergedAll(s, OneLog(day), map[day := Logs(n + 1)])
  {
    var b := DayBatch(day, Logs(1));
    OneMore(n);
    assert MergedDay(s, b, Logs(n + 1));
    MergedOne(s, b, Logs(n + 1));
  }

  lemma MergedOne(s: State, b: DayBatch, kept: Counts)
    requires MergedDay(s, b, kept)
    ensures MergedAll(s, [b], map[b.day := kept])
  {
    assert b in [b];
  }

  lemma OneLogAdds(s: State, day: Day, n: nat)
    requires IsHeld(s, day, Logs(n))
    ensures Adds(s, map[day := Logs(n + 1)], [Row(day, 7, 1)])
  {
    forall d, k
      ensures Sum([Row(day, 7, 1)], d, k) == if d == day then Count(Logs(n + 1), k) - Held(s, d, k) else 0
    {
      assert [] + [Row(day, 7, 1)] == [Row(day, 7, 1)];
      SumOfOne([], Row(day, 7, 1), d, k);
      assert Count(Logs(n), k) == Held(s, day, k);
    }
  }

  lemma OneLogStep(s: State, e: Event, s': State, day: Day, n: nat)
    requires e.Insert? && e.byDay == OneLog(day) && IsHeld(s, day, Logs(n))
    requires s'.table == s.table + (if Stores(s, e) then [Row(day, 7, 1)] else [])
    requires s'.tokens == s.tokens + {e.token} && e.outcome != NotStored
    requires if e.outcome == Answered then Remembers(s.memory, map[day := Logs(n + 1)], e.again, s'.memory)
             else s'.memory == s.memory
    ensures Step(s, e, s')
  {
    OneLogMerged(s, day, n);
    OneLogAdds(s, day, n);
    IsStep(s, e, s', map[day := Logs(n + 1)], [Row(day, 7, 1)]);
  }

  lemma OneLogAllowed(s: State, e: Event, day: Day)
    requires e.Insert? && e.byDay == OneLog(day) && (e.token in s.tokens ==> e.again)
    ensures Allowed(s, e)
  {
    assert 7 in Logs(1);
  }

  lemma IsStep(s: State, e: Event, s': State, merged: map<Day, Counts>, rows: seq<Row>)
    requires e.Insert? && e.byDay != [] && InsertStep(s, e, s', merged, rows)
    ensures Step(s, e, s')
  {
  }

  lemma HistoryOfThree(a: State, e: Event, b: State, f: Event, c: State, g: Event, d: State)
    requires a == Init() && Allowed(a, e) && Step(a, e, b)
    requires Allowed(b, f) && Step(b, f, c) && Allowed(c, g) && Step(c, g, d)
    ensures History([a, b, c, d], [e, f, g])
  {
  }

  /** The table and memory with n of one key's rows, of which memory has one. */
  function Stale(n: nat): State {
    State(seq(n, _ => Row(0, 7, 1)), if n == 0 then {} else if n == 1 then {0} else {0, 1},
          if n == 0 then map[] else map[0 := Logs(1)])
  }

  lemma StoresFirst()
    ensures var e := Insert(0, OneLog(0), false, Answered); Allowed(Stale(0), e) && Step(Stale(0), e, Stale(1))
  {
    SumsOfRows(Row(0, 7, 1));
    OneLogAllowed(Stale(0), Insert(0, OneLog(0), false, Answered), 0);
    OneLogStep(Stale(0), Insert(0, OneLog(0), false, Answered), Stale(1), 0, 0);
  }

  lemma LosesSecond()
    ensures var e := Insert(1, OneLog(0), false, LostAnswer); Allowed(Stale(1), e) && Step(Stale(1), e, Stale(2))
  {
    OneLogAllowed(Stale(1), Insert(1, OneLog(0), false, LostAnswer), 0);
    OneLogStep(Stale(1), Insert(1, OneLog(0), false, LostAnswer), Stale(2), 0, 1);
  }

  lemma RetriesOther()
    ensures var e := Insert(1, OneLog(1), true, Answered); Allowed(Stale(2), e) && Step(Stale(2), e, Stale(2))
  {
    SumsOfRows(Row(0, 7, 1));
    assert Stale(2).table == [Row(0, 7, 1), Row(0, 7, 1)];
    OneLogAllowed(Stale(2), Insert(1, OneLog(1), true, Answered), 1);
    OneLogStep(Stale(2), Insert(1, OneLog(1), true, Answered), Stale(2), 1, 0);
  }

  lemma TwoIsNotOne()
    ensures !Right(Stale(2), 0)
  {
    SumsOfRows(Row(0, 7, 1));
    assert Stale(2).table == [Row(0, 7, 1), Row(0, 7, 1)];
    assert Count(Stale(2).memory[0], 7) == 1;
  }

  /** A run in which it isn't met: one Log of a day is inserted, then another whose answer is lost, and the
      retry's Log, which the Log transform moved, is of another day. Memory stays behind the table. */
  lemma StaleRun() returns (states: seq<State>, events: seq<Event>)
    ensures History(states, events) && !Right(states[|events|], 0)
  {
    var first, lost := Insert(0, OneLog(0), false, Answered), Insert(1, OneLog(0), false, LostAnswer);
    var retry := Insert(1, OneLog(1), true, Answered);
    StoresFirst();
    LosesSecond();
    RetriesOther();
    states, events := [Stale(0), Stale(1), Stale(2), Stale(2)], [first, lost, retry];
    HistoryOfThree(Stale(0), first, Stale(1), lost, Stale(2), retry, Stale(2));
    TwoIsNotOne();
  }

  lemma SumsOfRows(row: Row)
    ensures forall d, k :: Sum([], d, k) == 0
    ensures forall d, k :: Sum([row], d, k) == if row.day == d && row.key == k then row.logs else 0
    ensures forall d, k :: Sum([row, row], d, k) == if row.day == d && row.key == k then 2 * row.logs else 0
  {
    assert [] + [row] == [row] && [row] + [row] == [row, row];
    forall d, k
      ensures Sum([row], d, k) == if row.day == d && row.key == k then row.logs else 0
      ensures Sum([row, row], d, k) == if row.day == d && row.key == k then 2 * row.logs else 0
    {
      SumOfOne([], row, d, k);
      SumOfOne([row], row, d, k);
    }
  }

  // ---- What the table tells

  ghost function BatchOf(byDay: seq<DayBatch>, day: Day): Counts
    requires HasDay(byDay, day)
  {
    var b :| b in byDay && b.day == day;
    b.counts
  }

  /** The day's batches whose rows ClickHouse stored, in order. */
  ghost function Stored(states: seq<State>, events: seq<Event>, day: Day): seq<Counts>
    requires |states| == |events| + 1
    decreases |events|
  {
    var n := |events| - 1;
    if events == [] then []
    else
      Stored(states[..n + 1], events[..n], day)
        + if Stores(states[n], events[n]) && HasDay(events[n].byDay, day) then [BatchOf(events[n].byDay, day)] else []
  }

  /** Whenever rows of the day are stored, every answer to such rows lost before is made good: the day has
      been out of memory since, by its retry, a restart or other days. */
  ghost predicate MendedInTime(states: seq<State>, events: seq<Event>, day: Day)
    requires |states| == |events| + 1
  {
    forall i :: 0 <= i < |events| && Stores(states[i], events[i]) && HasDay(events[i].byDay, day) ==>
      Lost(states[..i + 1], events[..i], day) == 0
  }

  /** The table's rows of the day sum to these counts; memory, right or behind, has no count below 1. */
  ghost predicate DayIs(s: State, day: Day, counts: Counts) {
    && Positive(counts)
    && (forall k :: Sum(s.table, day, k) == Count(counts, k))
    && (day in s.memory ==> Positive(s.memory[day]))
  }

  lemma HeldIs(s: State, day: Day, counts: Counts, before: Counts)
    requires DayIs(s, day, counts) && Right(s, day) && IsHeld(s, day, before)
    ensures before == counts
  {
    SameCounts(before, counts);
  }

  lemma SameCounts(a: Counts, b: Counts)
    requires NoZero(a) && NoZero(b) && forall k :: Count(a, k) == Count(b, k)
    ensures a == b
  {
    assert forall k :: k in a <==> Count(a, k) != 0;
    assert forall k :: k in b <==> Count(b, k) != 0;
    assert forall k :: k in a ==> a[k] == Count(a, k) && b[k] == Count(b, k);
  }

  lemma MergedIsPositive(counts: Counts, batch: Counts, kept: Counts)
    requires Positive(counts) && Positive(batch) && Merges(counts, batch, KEYS_KEPT, kept)
    ensures Positive(kept)
  {
    var floor :| IsFloor(counts, KEYS_KEPT, floor) && KeepsTop(Added(counts, batch, floor), KEYS_KEPT, kept);
    FloorNotNegative(counts, KEYS_KEPT, floor);
  }

  lemma DayBatchIs(byDay: seq<DayBatch>, day: Day) returns (b: DayBatch)
    requires HasDay(byDay, day)
    ensures b in byDay && b.day == day && BatchOf(byDay, day) == b.counts
  {
    b :| b in byDay && b.day == day && BatchOf(byDay, day) == b.counts;
  }

  /** A step whose rows of a day are stored merges the day's batch into its counts; any other leaves them. */
  lemma DayAfter(s: State, e: Event, s': State, day: Day, counts: Counts) returns (kept: Counts)
    requires Allowed(s, e) && Step(s, e, s') && DayIs(s, day, counts)
    requires Stores(s, e) && HasDay(e.byDay, day) ==> Right(s, day)
    ensures DayIs(s', day, kept)
    ensures if Stores(s, e) && HasDay(e.byDay, day)
            then Merges(counts, BatchOf(e.byDay, day), KEYS_KEPT, kept) && Positive(BatchOf(e.byDay, day))
            else kept == counts
  {
    kept := counts;
    if e.Insert? && e.byDay != [] {
      var merged, rows :| InsertStep(s, e, s', merged, rows);
      if day in s'.memory {
        InMemoryAfter(s, e, s', merged, rows, day);
      }
      if Stores(s, e) && HasDay(e.byDay, day) {
        kept := merged[day];
        StoredDay(s, e, s', merged, rows, day, counts);
      } else {
        SumOfTable(s, e, s', merged, rows, day);
      }
    }
  }

  lemma StoredDay(s: State, e: Event, s': State, merged: map<Day, Counts>, rows: seq<Row>, day: Day, counts: Counts)
    requires e.Insert? && Allowed(s, e) && InsertStep(s, e, s', merged, rows) && DayIs(s, day, counts)
    requires Stores(s, e) && HasDay(e.byDay, day) && Right(s, day)
    ensures Positive(merged[day]) && forall k :: Sum(s'.table, day, k) == Count(merged[day], k)
    ensures Merges(counts, BatchOf(e.byDay, day), KEYS_KEPT, merged[day]) && Positive(BatchOf(e.byDay, day))
  {
    var b := DayBatchIs(e.byDay, day);
    assert Positive(b.counts) && MergedDay(s, b, merged[day]);
    HeldMerged(s, b, counts, merged[day]);
    SumOfTable(s, e, s', merged, rows, day);
  }

  /** A day in memory after an insert has the counts it had, or those its stored rows brought it to. */
  lemma InMemoryAfter(s: State, e: Event, s': State, merged: map<Day, Counts>, rows: seq<Row>, day: Day)
    requires e.Insert? && (e.token in s.tokens ==> e.again) && e.byDay != []
    requires InsertStep(s, e, s', merged, rows) && day in s'.memory
    ensures || (day in s.memory && s'.memory[day] == s.memory[day])
            || (Stores(s, e) && HasDay(e.byDay, day) && s'.memory[day] == merged[day])
  {
  }

  lemma HeldMerged(s: State, b: DayBatch, counts: Counts, kept: Counts)
    requires DayIs(s, b.day, counts) && Right(s, b.day) && MergedDay(s, b, kept) && Positive(b.counts)
    ensures Merges(counts, b.counts, KEYS_KEPT, kept) && Positive(kept)
    ensures forall k :: Held(s, b.day, k) == Count(counts, k)
  {
    var before :| IsHeld(s, b.day, before) && Merges(before, b.counts, KEYS_KEPT, kept);
    HeldIs(s, b.day, counts, before);
    MergedIsPositive(counts, b.counts, kept);
  }

  /** While losses are mended in time, the day's stored batches are merged one into another. */
  lemma {:induction false} StoredAreMerged(states: seq<State>, events: seq<Event>, day: Day)
      returns (merges: seq<Counts>)
    requires History(states, events) && MendedInTime(states, events, day)
    ensures var stored := Stored(states, events, day);
            && SpaceSaving.Run(merges, stored, KEYS_KEPT) && (forall b :: b in stored ==> Positive(b))
            && DayIs(states[|events|], day, merges[|stored|])
    decreases |events|
  {
    merges := [map[]];
    if events != [] {
      var n := |events| - 1;
      var s, e := states[n], events[n];
      MendedBefore(states, events, day);
      RightExactly(states[..n + 1], events[..n], day);
      merges := StoredAreMerged(states[..n + 1], events[..n], day);
      var stored := Stored(states[..n + 1], events[..n], day);
      var kept := DayAfter(s, e, states[n + 1], day, merges[|stored|]);
      if Stores(s, e) && HasDay(e.byDay, day) {
        RunMore(merges, stored, BatchOf(e.byDay, day), kept);
        merges := merges + [kept];
      }
    }
  }

  lemma MendedBefore(states: seq<State>, events: seq<Event>, day: Day)
    requires |states| == |events| + 1 && events != [] && MendedInTime(states, events, day)
    ensures MendedInTime(states[..|events|], events[..|events| - 1], day)
  {
    var n := |events| - 1;
    forall i | 0 <= i < n && Stores(states[i], events[i]) && HasDay(events[i].byDay, day)
      ensures Lost(states[..n + 1][..i + 1], events[..n][..i], day) == 0
    {
      assert states[..n + 1][..i + 1] == states[..i + 1] && events[..n][..i] == events[..i];
    }
  }

  lemma RunMore(merges: seq<Counts>, stored: seq<Counts>, batch: Counts, kept: Counts)
    requires SpaceSaving.Run(merges, stored, KEYS_KEPT) && Merges(merges[|stored|], batch, KEYS_KEPT, kept)
    ensures SpaceSaving.Run(merges + [kept], stored + [batch], KEYS_KEPT)
  {
    ChainMore(merges, stored, kept, batch, (a: Counts, b: Counts, c: Counts) => Merges(a, b, KEYS_KEPT, c));
  }

  lemma ChainMore<T(!new)>(states: seq<T>, steps: seq<T>, last: T, step: T, leads: (T, T, T) -> bool)
    requires |states| == |steps| + 1 && leads(states[|steps|], step, last)
    requires forall i :: 0 <= i < |steps| ==> leads(states[i], steps[i], states[i + 1])
    ensures forall i :: 0 <= i < |steps| + 1 ==>
      leads((states + [last])[i], (steps + [step])[i], (states + [last])[i + 1])
  {
  }

  /** After any inserts, retries, lost answers and restarts in which each answer lost on a day is made good
      before rows of the day are next stored, the table's rows of the day sum to at most 1000 keys' counts,
      none below 0, each at least the Logs stored that day with the key and at most the least count kept
      more; a key with more Logs than that least is kept; and until 1000 keys have come, the sums are the
      true counts. Each range counts once, however often it is inserted. */
  lemma TableKeepsBounds(states: seq<State>, events: seq<Event>, day: Day) returns (counts: Counts, floor: int)
    requires History(states, events) && MendedInTime(states, events, day)
    ensures var s, stored := states[|events|], Stored(states, events, day);
            && DayIs(s, day, counts) && |counts| <= KEYS_KEPT
            && IsFloor(counts, KEYS_KEPT, floor) && Bounds(counts, stored, floor)
            && (forall k :: True(stored, k) > floor ==> k in counts)
            && (|counts| < KEYS_KEPT ==> forall k :: Sum(s.table, day, k) == True(stored, k))
  {
    var merges := StoredAreMerged(states, events, day);
    var stored := Stored(states, events, day);
    floor := RunKeepsBounds(merges, stored, KEYS_KEPT);
    counts := merges[|stored|];
  }

  // ---- While few keys come

  /** The keys of the day's stored batches. */
  ghost predicate KeysIn(stored: seq<Counts>, keys: set<Key>) {
    forall b :: b in stored ==> b.Keys <= keys
  }

  /** The table's rows of the day sum to the true counts, of keys there is room for. */
  ghost predicate SumsTrue(table: seq<Row>, day: Day, stored: seq<Counts>, keys: set<Key>) {
    && (forall k :: Sum(table, day, k) == True(stored, k))
    && (forall k :: True(stored, k) >= 0 && (k !in keys ==> True(stored, k) == 0))
  }

  /** Memory has some of the keys, with counts above 0. */
  ghost predicate HasFew(s: State, day: Day, keys: set<Key>) {
    day in s.memory ==> s.memory[day].Keys <= keys && Positive(s.memory[day])
  }

  ghost predicate DayIsTrue(s: State, day: Day, stored: seq<Counts>, keys: set<Key>) {
    SumsTrue(s.table, day, stored, keys) && HasFew(s, day, keys)
  }

  /** A merge of keys there is room for adds the batch and evicts none. */
  lemma MergeOfFew(before: Counts, batch: Counts, kept: Counts, keys: set<Key>)
    requires Merges(before, batch, KEYS_KEPT, kept) && before.Keys + batch.Keys <= keys && |keys| <= KEYS_KEPT
    ensures kept.Keys == before.Keys + batch.Keys
    ensures forall k :: Count(kept, k) == Count(before, k) + Count(batch, k)
  {
    var floor :| IsFloor(before, KEYS_KEPT, floor) && KeepsTop(Added(before, batch, floor), KEYS_KEPT, kept);
    var added := Added(before, batch, floor);
    SubsetCard(added.Keys, keys);
    SameCard(kept.Keys, added.Keys);
    if |before| >= KEYS_KEPT {
      SubsetCard(before.Keys, keys);
      SameCard(before.Keys, keys);
    }
  }

  lemma HeldIsFew(s: State, day: Day, stored: seq<Counts>, keys: set<Key>, before: Counts)
    requires DayIsTrue(s, day, stored, keys) && IsHeld(s, day, before)
    ensures before.Keys <= keys && Positive(before)
  {
    if day !in s.memory {
      forall k | k in before
        ensures k in keys && before[k] > 0
      {
        assert Count(before, k) == True(stored, k);
      }
    }
  }

  lemma FewAfter(s: State, e: Event, s': State, day: Day, stored: seq<Counts>, keys: set<Key>)
    requires Allowed(s, e) && Step(s, e, s') && DayIsTrue(s, day, stored, keys) && |keys| <= KEYS_KEPT
    requires Stores(s, e) && HasDay(e.byDay, day) ==> BatchOf(e.byDay, day).Keys <= keys
    ensures var more := if Stores(s, e) && HasDay(e.byDay, day) then [BatchOf(e.byDay, day)] else [];
            DayIsTrue(s', day, stored + more, keys)
  {
    assert stored + [] == stored;
    if e.Insert? && e.byDay != [] {
      var merged, rows :| InsertStep(s, e, s', merged, rows);
      if Stores(s, e) && HasDay(e.byDay, day) {
        FewStored(s, e, merged, day, stored, keys);
        FewMore(s, e, s', merged, rows, day, stored, keys);
      } else {
        SumOfTable(s, e, s', merged, rows, day);
      }
      FewInMemory(s, e, s', merged, rows, day, keys);
    }
  }

  lemma FewInMemory(s: State, e: Event, s': State, merged: map<Day, Counts>, rows: seq<Row>, day: Day, keys: set<Key>)
    requires e.Insert? && (e.token in s.tokens ==> e.again) && e.byDay != [] && InsertStep(s, e, s', merged, rows)
    requires HasFew(s, day, keys)
    requires Stores(s, e) && HasDay(e.byDay, day) ==> day in merged && merged[day].Keys <= keys && Positive(merged[day])
    ensures HasFew(s', day, keys)
  {
    if day in s'.memory {
      InMemoryAfter(s, e, s', merged, rows, day);
    }
  }

  lemma FewMore(s: State, e: Event, s': State, merged: map<Day, Counts>, rows: seq<Row>, day: Day,
                stored: seq<Counts>, keys: set<Key>)
    requires e.Insert? && InsertStep(s, e, s', merged, rows) && SumsTrue(s.table, day, stored, keys)
    requires Stores(s, e) && HasDay(e.byDay, day) && day in merged
    requires BatchOf(e.byDay, day).Keys <= keys && Positive(BatchOf(e.byDay, day))
    requires forall k :: Count(merged[day], k) - Held(s, day, k) == Count(BatchOf(e.byDay, day), k)
    ensures SumsTrue(s'.table, day, stored + [BatchOf(e.byDay, day)], keys)
  {
    var batch := BatchOf(e.byDay, day);
    SumOfTable(s, e, s', merged, rows, day);
    TrueMore(stored, batch);
    forall k
      ensures Sum(s'.table, day, k) == True(stored + [batch], k) >= 0
      ensures k !in keys ==> True(stored + [batch], k) == 0
    {
      assert Count(merged[day], k) - Held(s, day, k) == Count(batch, k) >= 0;
      assert k !in keys ==> Count(batch, k) == 0;
    }
  }

  lemma FewStored(s: State, e: Event, merged: map<Day, Counts>, day: Day, stored: seq<Counts>, keys: set<Key>)
    requires Allowed(s, e) && DayIsTrue(s, day, stored, keys) && |keys| <= KEYS_KEPT
    requires Stores(s, e) && HasDay(e.byDay, day) && BatchOf(e.byDay, day).Keys <= keys && MergedAll(s, e.byDay, merged)
    ensures day in merged && merged[day].Keys <= keys && Positive(merged[day]) && Positive(BatchOf(e.byDay, day))
    ensures forall k :: Count(merged[day], k) - Held(s, day, k) == Count(BatchOf(e.byDay, day), k)
  {
    var b := DayBatchIs(e.byDay, day);
    assert MergedDay(s, b, merged[day]);
    var before :| IsHeld(s, day, before) && Merges(before, b.counts, KEYS_KEPT, merged[day]);
    HeldIsFew(s, day, stored, keys, before);
    MergeOfFew(before, b.counts, merged[day], keys);
    forall k | k in merged[day]
      ensures merged[day][k] > 0
    {
      assert Count(merged[day], k) == Count(before, k) + Count(b.counts, k);
    }
  }

  lemma TrueMore(stored: seq<Counts>, batch: Counts)
    ensures forall k :: True(stored + [batch], k) == True(stored, k) + Count(batch, k)
  {
    assert (stored + [batch])[..|stored|] == stored;
  }

  /** After any inserts, retries, lost answers, made good or not, and restarts, while at most 1000 keys have
      come on a day, the table's rows of it sum to exactly the Logs stored that day with each key. */
  lemma {:induction false} TableIsTrueOfFew(states: seq<State>, events: seq<Event>, day: Day, keys: set<Key>)
    requires History(states, events) && KeysIn(Stored(states, events, day), keys) && |keys| <= KEYS_KEPT
    ensures forall k :: Sum(states[|events|].table, day, k) == True(Stored(states, events, day), k)
    ensures DayIsTrue(states[|events|], day, Stored(states, events, day), keys)
    decreases |events|
  {
    if events != [] {
      var n := |events| - 1;
      var stored := Stored(states[..n + 1], events[..n], day);
      assert KeysIn(stored, keys) by {
        assert forall b :: b in stored ==> b in Stored(states, events, day);
      }
      TableIsTrueOfFew(states[..n + 1], events[..n], day, keys);
      if Stores(states[n], events[n]) && HasDay(events[n].byDay, day) {
        assert BatchOf(events[n].byDay, day) in Stored(states, events, day);
      }
      FewAfter(states[n], events[n], states[n + 1], day, stored, keys);
    }
  }
}

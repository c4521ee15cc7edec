/** The bin cache beside inserts and day drops (storage/logs_clickhouse_table.go scanBinnedTable,
    logs_clickhouse.go InsertLogBatches, logs_clickhouse_cleanup.go dropPartitions): scans read a
    bin's key, query it and put it, and changes to the logs table are followed by a bump of their
    hours, all in any order. */
module BinCacheRuns {
  import opened Basics
  import opened BinGenerations

  /** A bin a scan is working out: its key as read, and its Logs once its query ran. */
  datatype Lookup = Asked(key: Key) | Answered(key: Key, logs: set<Log>)

  /** changing is the hours of each insert or drop under way, from before its change to its bump. */
  datatype State = State(
    logs: set<Log>,
    byHour: map<int, nat>,
    changing: multiset<set<int>>,
    lookups: map<nat, Lookup>,
    cache: map<Key, set<Log>>)

  datatype Action =
    | ReadKey(scan: nat, bin: Bin)
    | Query(scan: nat)
    | Put(scan: nat)
    | Evict(key: Key)
    | StartChange(hours: set<int>)
    | Change(hours: set<int>, logs: set<Log>)
    | Bump(hours: set<int>)
    | Restart

  function Init(): State {
    State({}, map[], multiset{}, map[], map[])
  }

  /** The Logs a bin's rows are worked out from. */
  function LogsOf(logs: set<Log>, bin: Bin): set<Log> {
    set l | l in logs && bin.start <= l.time < bin.start + bin.size
  }

  function KeyOf(s: State, bin: Bin): Key {
    Key(bin, GenerationsOf(s.byHour, bin))
  }

  /** Only Logs of the hours differ. */
  predicate DifferOnlyIn(a: set<Log>, b: set<Log>, hours: set<int>) {
    (forall l :: l in a - b ==> HourOf(l.time) in hours) && (forall l :: l in b - a ==> HourOf(l.time) in hours)
  }

  predicate Enabled(s: State, a: Action) {
    match a
    case ReadKey(scan, bin) => scan !in s.lookups
    case Query(scan) => scan in s.lookups && s.lookups[scan].Asked?
    case Put(scan) => scan in s.lookups && s.lookups[scan].Answered?
    case Evict(key) => true
    case StartChange(_) => true
    case Change(hours, logs) => hours in s.changing && DifferOnlyIn(s.logs, logs, hours)
    case Bump(hours) => hours in s.changing
    case Restart => true
  }

  function Apply(s: State, a: Action): State {
    if !Enabled(s, a) then s
    else
      match a
      case ReadKey(scan, bin) => s.(lookups := s.lookups[scan := Asked(KeyOf(s, bin))])
      case Query(scan) =>
        var key := s.lookups[scan].key;
        s.(lookups := s.lookups[scan := Answered(key, LogsOf(s.logs, key.bin))])
      case Put(scan) =>
        s.(cache := s.cache[s.lookups[scan].key := s.lookups[scan].logs], lookups := s.lookups - {scan})
      case Evict(key) => s.(cache := s.cache - {key})
      case StartChange(hours) => s.(changing := s.changing + multiset{hours})
      case Change(hours, logs) => s.(logs := logs)
      case Bump(hours) =>
        s.(byHour := Bumped(s.byHour, hours), changing := s.changing - multiset{hours})
      // A restart empties what is in memory. A change under way may still reach the table, until
      // whoever makes it again bumps its hours.
      case Restart => State(s.logs, map[], s.changing, map[], map[])
  }

  function Run(s: State, actions: seq<Action>): State
    decreases |actions|
  {
    if actions == [] then s else Run(Apply(s, actions[0]), actions[1..])
  }

  /** A change to one of the bin's hours is not yet bumped. */
  ghost predicate Unbumped(s: State, bin: Bin) {
    exists hours :: hours in s.changing && Touches(hours, bin)
  }

  ghost predicate Touches(hours: set<int>, bin: Bin) {
    exists h :: h in hours && bin.Covers(h)
  }

  /** Worked out under a key that is still current, a bin's Logs are its Logs now, unless a change
      to one of its hours is not yet bumped. */
  ghost predicate Good(s: State, key: Key, logs: set<Log>) {
    key == KeyOf(s, key.bin) ==> logs == LogsOf(s.logs, key.bin) || Unbumped(s, key.bin)
  }

  /** No generation of the key is past the hour's. */
  ghost predicate Behind(s: State, key: Key) {
    && |key.generations| == HoursCovered(key.bin)
    && forall i :: 0 <= i < |key.generations| ==>
         key.generations[i] <= Generation(s.byHour, HourOf(key.bin.start) + i)
  }

  ghost predicate Inv(s: State) {
    && (forall key :: key in s.cache ==> Behind(s, key) && Good(s, key, s.cache[key]))
    && (forall scan :: scan in s.lookups ==> Behind(s, s.lookups[scan].key))
    && (forall scan :: scan in s.lookups && s.lookups[scan].Answered? ==>
          Good(s, s.lookups[scan].key, s.lookups[scan].logs))
  }

  lemma BumpKeepsBehind(s: State, hours: set<int>, key: Key)
    requires Behind(s, key)
    ensures Behind(s.(byHour := Bumped(s.byHour, hours)), key)
    ensures Touches(hours, key.bin) ==>
              key != Key(key.bin, GenerationsOf(Bumped(s.byHour, hours), key.bin))
  {
    var first := HourOf(key.bin.start);
    var after := Bumped(s.byHour, hours);
    if Touches(hours, key.bin) {
      var h :| h in hours && key.bin.Covers(h);
      CoveredHours(key.bin, h);
      var i := h - first;
      assert HourOf(key.bin.start) + i == h;
      assert Generation(after, h) == Generation(s.byHour, h) + 1;
      assert key.generations[i] <= Generation(s.byHour, HourOf(key.bin.start) + i);
      assert GenerationsOf(after, key.bin)[i] == Generation(after, HourOf(key.bin.start) + i);
    }
  }

  /** Hours a bump leaves alone keep their generations. */
  lemma BumpElsewhere(s: State, hours: set<int>, bin: Bin)
    requires !Touches(hours, bin)
    ensures GenerationsOf(Bumped(s.byHour, hours), bin) == GenerationsOf(s.byHour, bin)
  {
    forall h: int | bin.Covers(h)
      ensures Generation(Bumped(s.byHour, hours), h) == Generation(s.byHour, h)
    {
    }
    forall i | 0 <= i < HoursCovered(bin)
      ensures GenerationsOf(Bumped(s.byHour, hours), bin)[i] == GenerationsOf(s.byHour, bin)[i]
    {
      CoveredHours(bin, HourOf(bin.start) + i);
    }
  }

  lemma BumpKeepsGood(s: State, hours: set<int>, key: Key, logs: set<Log>)
    requires hours in s.changing && Behind(s, key) && Good(s, key, logs)
    ensures Good(Apply(s, Bump(hours)), key, logs)
  {
    var s' := Apply(s, Bump(hours));
    BumpKeepsBehind(s, hours, key);
    if !Touches(hours, key.bin) {
      BumpElsewhere(s, hours, key.bin);
      if Unbumped(s, key.bin) {
        var other :| other in s.changing && Touches(other, key.bin);
        assert other in s'.changing;
      }
    }
  }

  lemma ChangeKeepsGood(s: State, hours: set<int>, logs: set<Log>, key: Key, found: set<Log>)
    requires Enabled(s, Change(hours, logs)) && Good(s, key, found)
    ensures Good(Apply(s, Change(hours, logs)), key, found)
  {
    if !Touches(hours, key.bin) {
      forall l: Log | l in LogsOf(s.logs, key.bin) || l in LogsOf(logs, key.bin)
        ensures HourOf(l.time) !in hours
      {
        assert key.bin.Covers(HourOf(l.time));
      }
      assert LogsOf(s.logs, key.bin) == LogsOf(logs, key.bin);
    }
  }

  lemma BumpKeeps(s: State, hours: set<int>)
    requires Inv(s) && Enabled(s, Bump(hours))
    ensures Inv(Apply(s, Bump(hours)))
  {
    var s' := Apply(s, Bump(hours));
    forall key | Behind(s, key)
      ensures Behind(s', key)
    {
      BumpKeepsBehind(s, hours, key);
      assert Behind(s.(byHour := s'.byHour), key);
    }
    forall key, logs | Behind(s, key) && Good(s, key, logs)
      ensures Good(s', key, logs)
    {
      BumpKeepsGood(s, hours, key, logs);
    }
  }

  lemma ChangeKeeps(s: State, hours: set<int>, logs: set<Log>)
    requires Inv(s) && Enabled(s, Change(hours, logs))
    ensures Inv(Apply(s, Change(hours, logs)))
  {
    var s' := Apply(s, Change(hours, logs));
    forall key, found | Good(s, key, found)
      ensures Good(s', key, found)
    {
      ChangeKeepsGood(s, hours, logs, key, found);
    }
    assert forall key :: Behind(s, key) ==> Behind(s', key);
  }

  lemma StartKeeps(s: State, hours: set<int>)
    requires Inv(s)
    ensures Inv(Apply(s, StartChange(hours)))
  {
    var s' := Apply(s, StartChange(hours));
    assert forall key :: Behind(s, key) ==> Behind(s', key);
    forall key, logs | Good(s, key, logs)
      ensures Good(s', key, logs)
    {
      if Unbumped(s, key.bin) {
        var other :| other in s.changing && Touches(other, key.bin);
        assert other in s'.changing;
      }
    }
  }

  lemma StepKeeps(s: State, a: Action)
    requires Inv(s)
    ensures Inv(Apply(s, a))
  {
    if Enabled(s, a) {
      match a
      case StartChange(hours) => StartKeeps(s, hours);
      case Change(hours, logs) => ChangeKeeps(s, hours, logs);
      case Bump(hours) => BumpKeeps(s, hours);
      case _ => LookupKeeps(s, a);
    }
  }

  lemma LookupKeeps(s: State, a: Action)
    requires Inv(s) && Enabled(s, a)
    requires !a.StartChange? && !a.Change? && !a.Bump?
    ensures Inv(Apply(s, a))
  {
    if !a.Restart? {
      SameTable(s, Apply(s, a));
    }
  }

  /** What a key and its Logs come to depends on the table, the generations and the changes alone. */
  lemma SameTable(s: State, s': State)
    requires s'.logs == s.logs && s'.byHour == s.byHour && s'.changing == s.changing
    ensures forall key :: Behind(s, key) <==> Behind(s', key)
    ensures forall key, logs :: Good(s, key, logs) <==> Good(s', key, logs)
  {
    forall key: Key
      ensures Unbumped(s, key.bin) <==> Unbumped(s', key.bin)
    {
      if Unbumped(s, key.bin) {
        var hours :| hours in s.changing && Touches(hours, key.bin);
        assert hours in s'.changing;
      }
      if Unbumped(s', key.bin) {
        var hours :| hours in s'.changing && Touches(hours, key.bin);
        assert hours in s.changing;
      }
    }
  }

  /** In every interleaving, what the cache holds under a bin's current key is worked out from the
      bin's Logs as they are now, unless a change to one of its hours is not yet bumped. */
  lemma {:induction false} CachedIsCurrent(s: State, actions: seq<Action>)
    requires Inv(s)
    ensures Inv(Run(s, actions))
    ensures forall key :: key in Run(s, actions).cache && key == KeyOf(Run(s, actions), key.bin) ==>
              || Run(s, actions).cache[key] == LogsOf(Run(s, actions).logs, key.bin)
              || Unbumped(Run(s, actions), key.bin)
    decreases |actions|
  {
    if actions != [] {
      StepKeeps(s, actions[0]);
      CachedIsCurrent(Apply(s, actions[0]), actions[1..]);
    }
  }

  /** Until a restart, a key that is no longer current never is again, so what was put under it is
      never taken again. */
  lemma {:induction false} StaleForGood(s: State, actions: seq<Action>, key: Key)
    requires Behind(s, key) && key != KeyOf(s, key.bin)
    requires forall a :: a in actions ==> !a.Restart?
    ensures Behind(Run(s, actions), key) && key != KeyOf(Run(s, actions), key.bin)
    decreases |actions|
  {
    if actions != [] {
      var a := actions[0];
      assert a in actions;
      StaleAfterStep(s, a, key);
      forall b | b in actions[1..]
        ensures b in actions
      {
      }
      StaleForGood(Apply(s, a), actions[1..], key);
    }
  }

  lemma StaleAfterStep(s: State, a: Action, key: Key)
    requires Behind(s, key) && key != KeyOf(s, key.bin) && !a.Restart?
    ensures Behind(Apply(s, a), key) && key != KeyOf(Apply(s, a), key.bin)
  {
    if a.Bump? && Enabled(s, a) {
      BumpKeepsBehind(s, a.hours, key);
      var i :| 0 <= i < |key.generations| && key.generations[i] != GenerationsOf(s.byHour, key.bin)[i];
      assert key.generations[i] < Generation(s.byHour, HourOf(key.bin.start) + i);
      assert GenerationsOf(Bumped(s.byHour, a.hours), key.bin)[i] >= Generation(s.byHour, HourOf(key.bin.start) + i);
    }
  }

  // ---- The drop of a day

  function WithoutDay(logs: set<Log>, day: int): set<Log> {
    set l | l in logs && !OnDay(l.time, day)
  }

  /** Some moment of the bin is on the day. */
  ghost predicate MeetsDay(bin: Bin, day: int) {
    exists t :: bin.start <= t < bin.start + bin.size && OnDay(t, day)
  }

  lemma TouchesDay(bin: Bin, day: int)
    ensures Touches(HoursOfDay(day), bin) <==> MeetsDay(bin, day)
  {
    if Touches(HoursOfDay(day), bin) {
      var h :| h in HoursOfDay(day) && bin.Covers(h);
      var t :| bin.start <= t < bin.start + bin.size && HourOf(t) == h;
      HoursOfDayAre(day, t);
    }
    if MeetsDay(bin, day) {
      var t :| bin.start <= t < bin.start + bin.size && OnDay(t, day);
      HoursOfDayAre(day, t);
      assert bin.Covers(HourOf(t));
    }
  }

  /** A day's drop changes Logs of the hours it bumps alone. */
  lemma DropIsChange(logs: set<Log>, day: int)
    ensures DifferOnlyIn(logs, WithoutDay(logs, day), HoursOfDay(day))
  {
    forall l: Log | l in logs - WithoutDay(logs, day)
      ensures HourOf(l.time) in HoursOfDay(day)
    {
      HoursOfDayAre(day, l.time);
    }
  }

  /** No chart shows a dropped day's Logs: once a day's drop has bumped its hours, no key read before of a
      bin with a moment on the day is a current one, then or later until a restart; and a bin with none
      keeps its key and its Logs. */
  lemma DroppedDayIsStale(s: State, day: int, key: Key, later: seq<Action>)
    requires Behind(s, key) && HoursOfDay(day) in s.changing && forall a :: a in later ==> !a.Restart?
    ensures var change := Change(HoursOfDay(day), WithoutDay(s.logs, day));
            var s' := Apply(Apply(s, change), Bump(HoursOfDay(day)));
            && s'.logs == WithoutDay(s.logs, day)
            && (MeetsDay(key.bin, day) ==> key != KeyOf(Run(s', later), key.bin))
            && (!MeetsDay(key.bin, day) ==>
                  KeyOf(s', key.bin) == KeyOf(s, key.bin) && LogsOf(s'.logs, key.bin) == LogsOf(s.logs, key.bin))
  {
    var hours := HoursOfDay(day);
    var changed := Apply(s, Change(hours, WithoutDay(s.logs, day)));
    DropIsChange(s.logs, day);
    TouchesDay(key.bin, day);
    BumpKeepsBehind(changed, hours, key);
    var s' := Apply(changed, Bump(hours));
    assert Behind(s', key) by {
      assert Behind(changed.(byHour := s'.byHour), key);
    }
    if MeetsDay(key.bin, day) {
      StaleForGood(s', later, key);
    } else {
      BumpElsewhere(s, hours, key.bin);
    }
  }

  // ---- An insert

  function With(logs: set<Log>, batch: seq<Log>): set<Log> {
    logs + set l | l in batch
  }

  /** No chart misses an inserted Log: once an insert has bumped the hours of its Logs, no key read before
      of a bin that one of them is in is a current one, then or later until a restart. */
  lemma InsertedIsStale(s: State, batch: seq<Log>, log: Log, key: Key, later: seq<Action>)
    requires Behind(s, key) && HoursOf(batch) in s.changing && forall a :: a in later ==> !a.Restart?
    requires log in batch && key.bin.start <= log.time < key.bin.start + key.bin.size
    ensures Enabled(s, Change(HoursOf(batch), With(s.logs, batch)))
    ensures var s' := Apply(Apply(s, Change(HoursOf(batch), With(s.logs, batch))), Bump(HoursOf(batch)));
            && s'.logs == With(s.logs, batch) && log in LogsOf(s'.logs, key.bin)
            && key != KeyOf(Run(s', later), key.bin)
  {
    var hours := HoursOf(batch);
    var changed := Apply(s, Change(hours, With(s.logs, batch)));
    assert key.bin.Covers(HourOf(log.time)) && HourOf(log.time) in hours;
    BumpKeepsBehind(changed, hours, key);
    var s' := Apply(changed, Bump(hours));
    assert Behind(s', key) by {
      assert Behind(changed.(byHour := s'.byHour), key);
    }
    StaleForGood(s', later, key);
  }
}

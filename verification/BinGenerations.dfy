/** The bin cache's generations (storage/logs_clickhouse_table.go generations, with the inserts of
    logs_clickhouse.go and the drops of logs_clickhouse_cleanup.go): one Project's scans, inserts
    and day drops, step by step in any order. A bin's rows are worked out from its Logs alone, so a
    cached bin is taken as the Logs its rows were worked out from. */
module BinGenerations {
  import opened Basics

  datatype Log = Log(id: nat, time: int)

  const HOURS_A_DAY: nat := 24

  function HourOf(time: int): int {
    time / HOUR
  }

  lemma HourOfIs(time: int, hour: int)
    ensures HourOf(time) == hour <==> hour * HOUR <= time < (hour + 1) * HOUR
  {
  }

  /** A time bin of a Query's table: [start, start + size). */
  datatype Bin = Bin(query: nat, start: int, size: nat)
  {
    ghost predicate Covers(hour: int) {
      exists t :: start <= t < start + size && HourOf(t) == hour
    }
  }

  /** A bin with the generations of the hours it covers, in order. */
  datatype Key = Key(bin: Bin, generations: seq<nat>)

  function Generation(byHour: map<int, nat>, hour: int): nat {
    if hour in byHour then byHour[hour] else 0
  }

  /** How many hours [start, start + size) touches. */
  function HoursCovered(bin: Bin): nat {
    if bin.size == 0 then 0 else HourOf(bin.start + bin.size - 1) - HourOf(bin.start) + 1
  }

  function GenerationsOf(byHour: map<int, nat>, bin: Bin): seq<nat> {
    seq<nat>(HoursCovered(bin), (i: nat) => Generation(byHour, HourOf(bin.start) + i))
  }

  function Bumped(byHour: map<int, nat>, hours: set<int>): map<int, nat> {
    map h | h in byHour.Keys + hours :: if h in hours then Generation(byHour, h) + 1 else byHour[h]
  }

  function SetOf(hours: seq<int>): set<int> {
    set h | h in hours
  }

  /** One hour more is bumped by raising its own generation. */
  lemma BumpedOnce(byHour: map<int, nat>, hours: set<int>, hour: int)
    requires hour !in hours
    ensures var before := Bumped(byHour, hours);
            before[hour := Generation(before, hour) + 1] == Bumped(byHour, hours + {hour})
  {
  }

  function HoursOf(logs: seq<Log>): set<int> {
    set l | l in logs :: HourOf(l.time)
  }

  /** Some of the Logs is in the hour. */
  ghost predicate SomeLogIn(logs: seq<Log>, hour: int) {
    exists l :: l in logs && hour * HOUR <= l.time < (hour + 1) * HOUR
  }

  lemma HoursOfAre(logs: seq<Log>, hour: int)
    ensures hour in HoursOf(logs) <==> SomeLogIn(logs, hour)
  {
    assert forall l: Log :: HourOf(l.time) == hour <==> hour * HOUR <= l.time < (hour + 1) * HOUR;
  }

  lemma HoursOfMore(logs: seq<Log>, log: Log)
    ensures HoursOf(logs + [log]) == HoursOf(logs) + {HourOf(log.time)}
  {
    assert forall l :: l in logs ==> l in logs + [log];
    assert log in logs + [log];
  }

  function HoursFrom(first: int, count: nat): (hours: set<int>)
    ensures forall h :: h in hours <==> first <= h < first + count
  {
    if count == 0 then {} else HoursFrom(first, count - 1) + {first + count - 1}
  }

  function HoursOfDay(day: int): set<int> {
    HoursFrom(day * HOURS_A_DAY, HOURS_A_DAY)
  }

  /** Whether a moment is on a UTC day, counted from 1970. */
  predicate OnDay(time: int, day: int) {
    day * 24 * HOUR <= time < (day + 1) * 24 * HOUR
  }

  /** The hours of a day are those of its moments, and no other. */
  lemma HoursOfDayAre(day: int, time: int)
    ensures HourOf(time) in HoursOfDay(day) <==> OnDay(time, day)
  {
  }

  lemma CoveredHours(bin: Bin, hour: int)
    ensures bin.Covers(hour) <==> HourOf(bin.start) <= hour < HourOf(bin.start) + HoursCovered(bin)
  {
    if bin.size > 0 && HourOf(bin.start) <= hour <= HourOf(bin.start + bin.size - 1) {
      var t := if hour * HOUR > bin.start then hour * HOUR else bin.start;
      assert HourOf(t) == hour;
    }
  }

  /** The hours Logs are in, each once. */
  method FindHours(logs: seq<Log>) returns (hours: seq<int>)
    ensures SetOf(hours) == HoursOf(logs)
    ensures forall j, k :: 0 <= j < k < |hours| ==> hours[j] != hours[k]
  {
    hours := [];
    for i := 0 to |logs|
      invariant forall h :: h in hours <==> h in HoursOf(logs[..i])
      invariant forall j, k :: 0 <= j < k < |hours| ==> hours[j] != hours[k]
    {
      HoursOfMore(logs[..i], logs[i]);
      assert logs[..i + 1] == logs[..i] + [logs[i]];
      if HourOf(logs[i].time) !in hours {
        hours := hours + [HourOf(logs[i].time)];
      }
    }
    assert logs[..|logs|] == logs;
    SetOfIs(hours, HoursOf(logs));
  }

  lemma SetOfIs(hours: seq<int>, all: set<int>)
    requires forall h :: h in hours <==> h in all
    ensures SetOf(hours) == all
  {
    assert forall h :: h in SetOf(hours) <==> h in hours;
    assert forall h :: h in SetOf(hours) <==> h in all;
    assert SetOf(hours) == all;
  }

  lemma HoursBumped(byHour: map<int, nat>, logs: seq<Log>)
    ensures forall h :: Generation(Bumped(byHour, HoursOf(logs)), h)
                     == Generation(byHour, h) + if SomeLogIn(logs, h) then 1 else 0
  {
    forall h
      ensures h in HoursOf(logs) <==> SomeLogIn(logs, h)
    {
      HoursOfAre(logs, h);
    }
  }

  lemma DayBumped(byHour: map<int, nat>, day: int)
    ensures forall t :: Generation(Bumped(byHour, HoursOfDay(day)), HourOf(t))
                     == Generation(byHour, HourOf(t)) + if OnDay(t, day) then 1 else 0
  {
    forall t
      ensures HourOf(t) in HoursOfDay(day) <==> OnDay(t, day)
    {
      HoursOfDayAre(day, t);
    }
  }

  /** generations.byID and its three methods. */
  class Generations {
    var byHour: map<int, nat>

    constructor ()
      ensures byHour == map[]
    {
      byHour := map[];
    }

    /** bump: each hour the batches' Logs are in, once. */
    method Bump(logs: seq<Log>)
      modifies this
      ensures byHour == Bumped(old(byHour), HoursOf(logs))
      ensures forall h ::
                Generation(byHour, h) == Generation(old(byHour), h) + if SomeLogIn(logs, h) then 1 else 0
    {
      var hours := FindHours(logs);
      for i := 0 to |hours|
        invariant byHour == Bumped(old(byHour), SetOf(hours[..i]))
      {
        assert hours[..i + 1] == hours[..i] + [hours[i]];
        BumpedOnce(old(byHour), SetOf(hours[..i]), hours[i]);
        assert SetOf(hours[..i + 1]) == SetOf(hours[..i]) + {hours[i]};
        byHour := byHour[hours[i] := Generation(byHour, hours[i]) + 1];
      }
      assert hours[..|hours|] == hours;
      HoursBumped(old(byHour), logs);
    }

    /** bumpDay: each hour of a day. */
    method BumpDay(day: int)
      modifies this
      ensures byHour == Bumped(old(byHour), HoursOfDay(day))
      ensures forall t ::
                Generation(byHour, HourOf(t)) == Generation(old(byHour), HourOf(t)) + if OnDay(t, day) then 1 else 0
    {
      for h := 0 to HOURS_A_DAY
        invariant byHour == Bumped(old(byHour), HoursFrom(day * HOURS_A_DAY, h))
      {
        var hour := day * HOURS_A_DAY + h;
        BumpedOnce(old(byHour), HoursFrom(day * HOURS_A_DAY, h), hour);
        byHour := byHour[hour := Generation(byHour, hour) + 1];
      }
      DayBumped(old(byHour), day);
    }

    /** key: the generations of the hours a bin covers, hour by hour. */
    method WriteKey(bin: Bin) returns (key: Key)
      requires bin.size > 0
      ensures key == Key(bin, GenerationsOf(byHour, bin))
    {
      var written := [];
      var hour := HourOf(bin.start);
      while hour * HOUR < bin.start + bin.size
        invariant hour == HourOf(bin.start) + |written|
        invariant forall i :: 0 <= i < |written| ==> written[i] == Generation(byHour, HourOf(bin.start) + i)
        invariant |written| <= HoursCovered(bin)
        decreases bin.start + bin.size - hour * HOUR
      {
        HourWithin(bin, hour);
        written := written + [Generation(byHour, hour)];
        hour := hour + 1;
      }
      HourPast(bin, hour);
      return Key(bin, written);
    }
  }

  lemma HourWithin(bin: Bin, hour: int)
    requires bin.size > 0 && hour * HOUR < bin.start + bin.size
    ensures hour <= HourOf(bin.start + bin.size - 1)
  {
  }

  lemma HourPast(bin: Bin, hour: int)
    requires bin.start + bin.size <= hour * HOUR
    ensures bin.size > 0 ==> hour > HourOf(bin.start + bin.size - 1)
  {
  }
}

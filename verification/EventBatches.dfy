/** A Project's Events in UUID order, what Event processing reads of them, and what counting them
    on their Issues comes to (storage/pebble.go EventsAfter, storage/sqlite.go RecordSeenEvents). */
module EventBatches {
  import opened Basics

  /** What an Event comes to, which depends on it alone: no Issue, since its payload can't be read;
      an Issue, but a row the events table can't hold; or a row of an Issue, at a time. */
  datatype Fate = Unreadable | Unstorable(issue: nat) | Row(issue: nat, at: int)

  /** An Event by its UUIDv7, as a number; 0 is no UUID. */
  datatype Event = Event(uuid: nat, fate: Fate)

  const BATCH_SIZE: nat := 10000

  ghost predicate Sorted(events: seq<Event>) {
    forall i, j :: 0 <= i < j < |events| ==> events[i].uuid < events[j].uuid
  }

  /** The Events a test keeps, in order. */
  function After(events: seq<Event>, uuid: nat): seq<Event> {
    if events == [] then []
    else
      var n := |events| - 1;
      var before := After(events[..n], uuid);
      if events[n].uuid > uuid then before + [events[n]] else before
  }

  function UpTo(events: seq<Event>, uuid: nat): seq<Event> {
    if events == [] then []
    else
      var n := |events| - 1;
      var before := UpTo(events[..n], uuid);
      if events[n].uuid <= uuid then before + [events[n]] else before
  }

  function Between(events: seq<Event>, after: nat, upTo: nat): seq<Event> {
    UpTo(After(events, after), upTo)
  }

  /** The rows the events table may hold of Events. */
  function RowsOf(events: seq<Event>): seq<Event> {
    if events == [] then []
    else
      var n := |events| - 1;
      var before := RowsOf(events[..n]);
      if events[n].fate.Row? then before + [events[n]] else before
  }

  lemma {:induction false} AfterMembers(events: seq<Event>, uuid: nat)
    ensures forall e :: e in After(events, uuid) <==> e in events && e.uuid > uuid
    ensures Sorted(events) ==> Sorted(After(events, uuid))
  {
    if events != [] {
      var n := |events| - 1;
      AfterMembers(events[..n], uuid);
      assert events == events[..n] + [events[n]];
      if Sorted(events) {
        BelowLast(events, After(events[..n], uuid));
      }
    }
  }

  lemma {:induction false} UpToMembers(events: seq<Event>, uuid: nat)
    ensures forall e :: e in UpTo(events, uuid) <==> e in events && e.uuid <= uuid
    ensures Sorted(events) ==> Sorted(UpTo(events, uuid))
  {
    if events != [] {
      var n := |events| - 1;
      UpToMembers(events[..n], uuid);
      assert events == events[..n] + [events[n]];
      if Sorted(events) {
        BelowLast(events, UpTo(events[..n], uuid));
      }
    }
  }

  lemma {:induction false} RowsMembers(events: seq<Event>)
    ensures forall e :: e in RowsOf(events) <==> e in events && e.fate.Row?
    ensures Sorted(events) ==> Sorted(RowsOf(events))
  {
    if events != [] {
      var n := |events| - 1;
      RowsMembers(events[..n]);
      assert events == events[..n] + [events[n]];
      if Sorted(events) {
        BelowLast(events, RowsOf(events[..n]));
      }
    }
  }

  lemma BelowLast(events: seq<Event>, kept: seq<Event>)
    requires events != [] && Sorted(events)
    requires forall e :: e in kept ==> e in events[..|events| - 1]
    ensures forall i :: 0 <= i < |kept| ==> kept[i].uuid < events[|events| - 1].uuid
  {
    forall i | 0 <= i < |kept|
      ensures kept[i].uuid < events[|events| - 1].uuid
    {
      assert kept[i] in kept;
      var j :| 0 <= j < |events| - 1 && events[..|events| - 1][j] == kept[i];
    }
  }

  lemma BetweenMembers(events: seq<Event>, after: nat, upTo: nat)
    ensures forall e :: e in Between(events, after, upTo) <==> e in events && after < e.uuid <= upTo
    ensures Sorted(events) ==> Sorted(Between(events, after, upTo))
  {
    AfterMembers(events, after);
    UpToMembers(After(events, after), upTo);
  }

  /** A later Event leaves every range before it as it was. */
  lemma BetweenAppend(events: seq<Event>, e: Event, after: nat, upTo: nat)
    requires e.uuid > upTo
    ensures Between(events + [e], after, upTo) == Between(events, after, upTo)
  {
    assert (events + [e])[..|events|] == events;
    var all := After(events, after);
    if e.uuid > after {
      assert (all + [e])[..|all|] == all;
    }
  }

  lemma {:induction false} UpToAll(events: seq<Event>, uuid: nat)
    requires forall e :: e in events ==> e.uuid <= uuid
    ensures UpTo(events, uuid) == events
  {
    if events != [] {
      var n := |events| - 1;
      assert events[n] in events;
      UpToAll(events[..n], uuid);
    }
  }

  lemma {:induction false} UpToNone(events: seq<Event>, uuid: nat)
    requires forall e :: e in events ==> e.uuid > uuid
    ensures UpTo(events, uuid) == []
  {
    if events != [] {
      var n := |events| - 1;
      assert events[n] in events;
      UpToNone(events[..n], uuid);
    }
  }

  lemma {:induction false} UpToConcat(a: seq<Event>, b: seq<Event>, uuid: nat)
    ensures UpTo(a + b, uuid) == UpTo(a, uuid) + UpTo(b, uuid)
  {
    if b == [] {
      assert a + b == a;
    } else {
      var n := |b| - 1;
      UpToConcat(a, b[..n], uuid);
      assert (a + b)[..|a + b| - 1] == a + b[..n];
    }
  }

  /** In UUID order, the Events up to one are the first ones. */
  lemma {:induction false} UpToIsPrefix(events: seq<Event>, k: nat, uuid: nat)
    requires Sorted(events) && k <= |events|
    requires k > 0 ==> events[k - 1].uuid <= uuid
    requires k < |events| ==> events[k].uuid > uuid
    ensures UpTo(events, uuid) == events[..k]
  {
    if events != [] {
      var n := |events| - 1;
      if k == |events| {
        UpToIsPrefix(events[..n], n, uuid);
      } else {
        UpToIsPrefix(events[..n], k, uuid);
        assert events[..n][..k] == events[..k];
      }
    }
  }

  lemma PrefixLength(events: seq<Event>, uuid: nat) returns (k: nat)
    requires Sorted(events)
    ensures k <= |events| && UpTo(events, uuid) == events[..k]
    ensures k < |events| ==> events[k].uuid > uuid
    ensures k > 0 ==> events[k - 1].uuid <= uuid
  {
    k := |events|;
    while k > 0 && events[k - 1].uuid > uuid
      invariant k <= |events|
      invariant k < |events| ==> events[k].uuid > uuid
    {
      k := k - 1;
    }
    UpToIsPrefix(events, k, uuid);
  }

  /** Reading again a range that one read gave gives it again, once cut at its last Event. */
  lemma ReadAgain(all: seq<Event>, upTo: nat)
    requires Sorted(all) && |UpTo(all, upTo)| <= BATCH_SIZE
    ensures UpTo(First(all, BATCH_SIZE), upTo) == UpTo(all, upTo)
  {
    var k := PrefixLength(all, upTo);
    var read := First(all, BATCH_SIZE);
    assert read[..k] == all[..k];
    UpToIsPrefix(read, k, upTo);
  }

  // ---- Counting Events on their Issues

  /** An Issue's times_seen, first_seen_at and last_seen_at. */
  datatype Seen = Seen(times: nat, first: int, last: int)

  function SeenOnce(at: int): Seen {
    Seen(1, at, at)
  }

  function Joined(a: Seen, b: Seen): Seen {
    Seen(a.times + b.times, if b.first < a.first then b.first else a.first, if b.last > a.last then b.last else a.last)
  }

  /** An Issue's row, for an Issue nobody has seen yet, is not in the map. */
  function Add(issues: map<nat, Seen>, issue: nat, seen: Seen): map<nat, Seen> {
    issues[issue := if issue in issues then Joined(issues[issue], seen) else seen]
  }

  function CountOne(issues: map<nat, Seen>, e: Event): map<nat, Seen> {
    if e.fate.Row? then Add(issues, e.fate.issue, SeenOnce(e.fate.at)) else issues
  }

  /** The Issues' rows after counting rows one by one. */
  function Counted(issues: map<nat, Seen>, rows: seq<Event>): map<nat, Seen>
  {
    if rows == [] then issues
    else
      var n := |rows| - 1;
      CountOne(Counted(issues, rows[..n]), rows[n])
  }

  /** The rows of one Issue. */
  function OfIssue(rows: seq<Event>, issue: nat): seq<Event>
  {
    if rows == [] then []
    else
      var n := |rows| - 1;
      var before := OfIssue(rows[..n], issue);
      if rows[n].fate.Row? && rows[n].fate.issue == issue then before + [rows[n]] else before
  }

  /** Each row is among its Issue's as often as it is among all. */
  lemma {:induction false} OfIssueOnce(rows: seq<Event>, issue: nat, e: Event)
    ensures multiset(OfIssue(rows, issue))[e]
         == if e.fate.Row? && e.fate.issue == issue then multiset(rows)[e] else 0
  {
    if rows != [] {
      var n := |rows| - 1;
      OfIssueOnce(rows[..n], issue, e);
      assert rows == rows[..n] + [rows[n]];
    }
  }

  /** What the counts mean: an Issue's times_seen is how many of the rows are its own, and its first
      and last seen are the earliest and the latest of their times. */
  lemma {:induction false} CountedMeaning(rows: seq<Event>, issue: nat)
    ensures var own := OfIssue(rows, issue); var issues := Counted(map[], rows);
            && (issue in issues <==> own != [])
            && (forall e :: e in own <==> e in rows && e.fate.Row? && e.fate.issue == issue)
            && (issue in issues ==>
                  && issues[issue].times == |own|
                  && (forall e :: e in own ==> issues[issue].first <= e.fate.at <= issues[issue].last)
                  && (exists e :: e in own && e.fate.at == issues[issue].first)
                  && (exists e :: e in own && e.fate.at == issues[issue].last))
  {
    if rows != [] {
      var n := |rows| - 1;
      CountedMeaning(rows[..n], issue);
      assert rows == rows[..n] + [rows[n]];
      if rows[n].fate.Row? && rows[n].fate.issue == issue {
        var before := OfIssue(rows[..n], issue);
        var own := before + [rows[n]];
        assert rows[n] in own && forall e :: e in before ==> e in own;
      }
    }
  }

  /** Two tallies of the same Issues joined. */
  function JoinAll(issues: map<nat, Seen>, tallies: map<nat, Seen>): map<nat, Seen> {
    map i | i in issues.Keys + tallies.Keys ::
      if i !in tallies then issues[i] else if i !in issues then tallies[i] else Joined(issues[i], tallies[i])
  }

  /** Tallying a batch and joining the tallies counts what counting its rows one by one does. */
  lemma {:induction false} TalliesCount(issues: map<nat, Seen>, rows: seq<Event>)
    ensures JoinAll(issues, Counted(map[], rows)) == Counted(issues, rows)
  {
    if rows != [] {
      var n := |rows| - 1;
      TalliesCount(issues, rows[..n]);
      if rows[n].fate.Row? {
        JoinAfterAdd(issues, Counted(map[], rows[..n]), rows[n].fate.issue, SeenOnce(rows[n].fate.at));
      }
    }
  }

  lemma JoinAfterAdd(issues: map<nat, Seen>, tallies: map<nat, Seen>, issue: nat, seen: Seen)
    ensures JoinAll(issues, Add(tallies, issue, seen)) == Add(JoinAll(issues, tallies), issue, seen)
  {
    var a, b := JoinAll(issues, Add(tallies, issue, seen)), Add(JoinAll(issues, tallies), issue, seen);
    assert a.Keys == b.Keys;
    forall i | i in a.Keys
      ensures a[i] == b[i]
    {
    }
  }

  lemma {:induction false} CountedConcat(issues: map<nat, Seen>, a: seq<Event>, b: seq<Event>)
    ensures Counted(issues, a + b) == Counted(Counted(issues, a), b)
  {
    if b == [] {
      assert a + b == a;
    } else {
      var n := |b| - 1;
      CountedConcat(issues, a, b[..n]);
      assert (a + b)[..|a + b| - 1] == a + b[..n];
    }
  }

  /** SQLite's Issues of a Project and its seen guard. */
  class SeenStore {
    var issues: map<nat, Seen>
    var guard: nat

    constructor ()
      ensures issues == map[] && guard == 0
    {
      issues, guard := map[], 0;
    }

    /** RecordSeenEvents, one transaction: the rows past the guard are tallied by Issue, the tallies
        joined to the Issues' rows, and the guard moved. */
    method RecordSeenEvents(rows: seq<Event>, through: nat)
        modifies this
      ensures through <= old(guard) ==> issues == old(issues) && guard == old(guard)
      ensures through > old(guard) ==> guard == through && issues == Counted(old(issues), After(rows, old(guard)))
    {
      if through <= guard {
        return;
      }
      var tallies: map<nat, Seen> := map[];
      for i := 0 to |rows|
        invariant tallies == Counted(map[], After(rows[..i], guard))
        invariant issues == old(issues) && guard == old(guard)
      {
        assert rows[i] in rows && rows[..i + 1][..i] == rows[..i];
        if rows[i].uuid > guard {
          tallies := CountOne(tallies, rows[i]);
          ghost var before := After(rows[..i], guard);
          assert (before + [rows[i]])[..|before|] == before;
        }
      }
      assert rows[..|rows|] == rows;
      TalliesCount(issues, After(rows, guard));
      issues := JoinAll(issues, tallies);
      guard := through;
    }
  }

  lemma {:induction false} AfterAll(events: seq<Event>, uuid: nat)
    requires forall e :: e in events ==> e.uuid > uuid
    ensures After(events, uuid) == events
  {
    if events != [] {
      var n := |events| - 1;
      assert events[n] in events;
      AfterAll(events[..n], uuid);
    }
  }
}

/** Log batch ids (storage/pebble_logs.go): UUIDv7s that a writer keeps strictly increasing.
    An id is 16 bytes; Pebble and bytes.Compare order ids byte by byte, which is the order of
    the big-endian number they spell (`Value`), so the other modules take an id as that number. */
module BatchIds {

  type Byte = b: int | 0 <= b < 256

  /** The 16 bytes of a uuid.UUID. */
  type Uuid = u: seq<Byte> | |u| == 16 witness seq(16, _ => 0)

  /** The number of values of the 62 random bits nextLogBatchID counts through. */
  const RANDOM_VALUES: nat := 0x4000_0000_0000_0000

  /** The number of values of the seven bytes after the variant byte. */
  const TAIL_VALUES: nat := 0x100_0000_0000_0000

  function Pow256(n: nat): (p: nat)
    ensures p > 0
  {
    if n == 0 then 1 else 256 * Pow256(n - 1)
  }

  function Value(s: seq<Byte>): nat {
    if s == [] then 0 else Value(s[..|s| - 1]) * 256 + s[|s| - 1]
  }

  /** bytes.Compare(a, b) < 0 for ids: at the first byte that differs, a's is lower. */
  ghost predicate Before(a: seq<Byte>, b: seq<Byte>)
    requires |a| == |b|
  {
    exists i :: 0 <= i < |a| && a[..i] == b[..i] && a[i] < b[i]
  }

  lemma {:induction false} ValueBound(s: seq<Byte>)
    ensures Value(s) < Pow256(|s|)
  {
    if s != [] {
      ValueBound(s[..|s| - 1]);
    }
  }

  lemma {:induction false} ValueAppend(a: seq<Byte>, b: seq<Byte>)
    ensures Value(a + b) == Value(a) * Pow256(|b|) + Value(b)
  {
    if b == [] {
      assert a + b == a;
    } else {
      var n := |b| - 1;
      ValueAppend(a, b[..n]);
      assert (a + b)[..|a + b| - 1] == a + b[..n];
      assert Value(a) * (256 * Pow256(n)) == Value(a) * Pow256(n) * 256;
    }
  }

  lemma {:induction false} ValueInjective(a: seq<Byte>, b: seq<Byte>)
    requires |a| == |b| && Value(a) == Value(b)
    ensures a == b
  {
    if a != [] {
      var n := |a| - 1;
      assert a[n] == b[n] && Value(a[..n]) == Value(b[..n]);
      ValueInjective(a[..n], b[..n]);
      assert a == a[..n] + [a[n]] && b == b[..n] + [b[n]];
    }
  }

  /** Comparing ids byte by byte is comparing the numbers they spell. */
  lemma {:induction false} BytesOrderIsNumeric(a: seq<Byte>, b: seq<Byte>)
    requires |a| == |b|
    ensures Before(a, b) <==> Value(a) < Value(b)
  {
    if a != [] {
      var n := |a| - 1;
      BeforeByPrefix(a, b);
      BytesOrderIsNumeric(a[..n], b[..n]);
      if Value(a[..n]) == Value(b[..n]) {
        ValueInjective(a[..n], b[..n]);
      }
    }
  }

  lemma BeforeByPrefix(a: seq<Byte>, b: seq<Byte>)
    requires |a| == |b| > 0
    ensures var n := |a| - 1;
            Before(a, b) <==> Before(a[..n], b[..n]) || (a[..n] == b[..n] && a[n] < b[n])
  {
    var n := |a| - 1;
    forall i | 0 <= i < n
      ensures a[..n][..i] == a[..i] && b[..n][..i] == b[..i]
    {
    }
    if Before(a, b) {
      var i :| 0 <= i < |a| && a[..i] == b[..i] && a[i] < b[i];
      assert i < n ==> a[..n][..i] == b[..n][..i] && a[..n][i] < b[..n][i];
    }
    if Before(a[..n], b[..n]) {
      var i :| 0 <= i < n && a[..n][..i] == b[..n][..i] && a[..n][i] < b[..n][i];
      assert a[..i] == b[..i] && a[i] < b[i];
    }
    if a[..n] == b[..n] && a[n] < b[n] {
      assert Before(a, b);
    }
  }

  /** An id with RFC 9562's variant bits, as every generated id has. */
  predicate HasVariant(id: Uuid) {
    id[8] / 64 == 2
  }

  /** The id's 62 random bits after the variant: what nextLogBatchID counts through. */
  function RandomBits(id: Uuid): nat {
    id[8] % 64 * TAIL_VALUES + Value(id[9..])
  }

  /** The random bits are all ones, so there is no next id with the same time. */
  predicate Exhausted(id: Uuid) {
    RandomBits(id) == RANDOM_VALUES - 1
  }

  /** A byte one higher, wrapping at 255, as Go's ++ on a byte. */
  function Bumped(b: Byte): Byte {
    if b == 255 then 0 else b + 1
  }

  /** 0x80 | (b + 1) & 0x3f on a byte. */
  function VariantBumped(b: Byte): Byte {
    128 + (if b % 64 == 63 then 0 else b % 64 + 1)
  }

  /** One more in a big-endian counter, dropping the carry out of its first byte. */
  function Incremented(s: seq<Byte>): (r: seq<Byte>)
    ensures |r| == |s|
  {
    if s == [] then []
    else if s[|s| - 1] < 255 then s[..|s| - 1] + [s[|s| - 1] + 1]
    else Incremented(s[..|s| - 1]) + [0]
  }

  lemma {:induction false} IncrementedValue(s: seq<Byte>)
    ensures Value(Incremented(s)) == if Value(s) + 1 == Pow256(|s|) then 0 else Value(s) + 1
  {
    if s != [] {
      var n := |s| - 1;
      ValueBound(s[..n]);
      if s[n] < 255 {
        assert Incremented(s)[..n] == s[..n];
      } else {
        IncrementedValue(s[..n]);
        assert Incremented(s)[..n] == Incremented(s[..n]);
      }
    }
  }

  lemma Pow256Tail()
    ensures Pow256(7) == TAIL_VALUES
  {
    assert Pow256(1) == 256;
    assert Pow256(2) == 0x1_0000;
    assert Pow256(3) == 0x100_0000;
    assert Pow256(4) == 0x1_0000_0000;
    assert Pow256(5) == 0x100_0000_0000;
    assert Pow256(6) == 0x1_0000_0000_0000;
  }

  lemma TailBound(id: Uuid)
    ensures Value(id[9..]) < TAIL_VALUES
    ensures RandomBits(id) < RANDOM_VALUES
  {
    Pow256Tail();
    ValueBound(id[9..]);
  }

  /** nextLogBatchID: one more in the random bits, carried byte by byte, with everything before
      them kept. All ones wrap to zero. */
  method NextLogBatchID(id: Uuid) returns (next: Uuid)
    ensures next[..8] == id[..8]
    ensures HasVariant(id) ==> HasVariant(next)
    ensures HasVariant(id) ==> RandomBits(next) == if Exhausted(id) then 0 else RandomBits(id) + 1
  {
    next := id;
    var i := 15;
    ghost var tail := id[9..];
    assert tail[..7] == tail;
    while i > 8
      invariant 8 <= i <= 15
      invariant next[..i + 1] == id[..i + 1]
      invariant forall k :: i < k < 16 ==> next[k] == 0
      invariant Incremented(tail) == Incremented(tail[..i - 8]) + next[i + 1..]
    {
      assert next[i] == id[i] by {
        assert next[..i + 1][i] == id[..i + 1][i];
      }
      ghost var was := next;
      next := next[i := Bumped(next[i])];
      if next[i] != 0 {
        CarryStops(id, next, i);
        assert next[9..][i - 9] != 0;
        NextRandomBits(id, next);
        return;
      }
      CarryGoesOn(id, was, next, i);
      i := i - 1;
    }
    assert tail[..0] == [];
    assert next[9..] == Incremented(tail);
    next := next[8 := VariantBumped(next[8])];
    NextRandomBitsCarried(id, next);
  }

  lemma CarryGoesOn(id: Uuid, was: Uuid, next: Uuid, i: nat)
    requires 8 < i <= 15 && id[i] == 255 && was[..i + 1] == id[..i + 1] && next == was[i := 0]
    requires Incremented(id[9..]) == Incremented(id[9..][..i - 8]) + was[i + 1..]
    ensures Incremented(id[9..]) == Incremented(id[9..][..i - 9]) + next[i..]
    ensures next[..i] == id[..i]
  {
    var low := id[9..][..i - 8];
    assert low[..i - 9] == id[9..][..i - 9] && low[i - 9] == 255;
    assert next[i..] == [0] + was[i + 1..];
    assert next[..i] == was[..i + 1][..i] && id[..i] == id[..i + 1][..i];
  }

  lemma CarryStops(id: Uuid, next: Uuid, i: nat)
    requires 8 < i <= 15
    requires id[i] < 255 && next[..i] == id[..i] && next[i] == id[i] + 1
    requires Incremented(id[9..]) == Incremented(id[9..][..i - 8]) + next[i + 1..]
    ensures next[9..] == Incremented(id[9..])
    ensures next[..9] == id[..9]
  {
    var low := id[9..][..i - 8];
    assert low == id[9..i] + [id[i]];
    assert low[..i - 9] == id[9..i] == next[9..i] by {
      forall k | 9 <= k < i
        ensures next[k] == id[k]
      {
        assert next[..i][k] == id[..i][k];
      }
    }
    assert next[9..] == next[9..i] + [next[i]] + next[i + 1..];
    assert next[..9] == next[..i][..9] && id[..9] == id[..i][..9];
  }

  lemma NextRandomBits(id: Uuid, next: Uuid)
    requires next[8] == id[8] && next[9..] == Incremented(id[9..])
    requires exists k :: 0 <= k < 7 && next[9..][k] != 0
    ensures RandomBits(next) == if Exhausted(id) then 0 else RandomBits(id) + 1
  {
    Pow256Tail();
    TailBound(id);
    IncrementedValue(id[9..]);
    var k :| 0 <= k < 7 && next[9..][k] != 0;
    NonzeroValue(next[9..], k);
  }

  lemma NextRandomBitsCarried(id: Uuid, next: Uuid)
    requires next[8] == VariantBumped(id[8]) && next[9..] == Incremented(id[9..])
    requires forall k :: 9 <= k < 16 ==> next[k] == 0
    ensures HasVariant(id) ==> RandomBits(next) == if Exhausted(id) then 0 else RandomBits(id) + 1
  {
    Pow256Tail();
    TailBound(id);
    IncrementedValue(id[9..]);
    ZeroValueIs(next[9..]);
    assert Value(id[9..]) == TAIL_VALUES - 1;
  }

  lemma {:induction false} ZeroValue(s: seq<Byte>)
    requires Value(s) == 0
    ensures forall k :: 0 <= k < |s| ==> s[k] == 0
  {
    if s != [] {
      var n := |s| - 1;
      ZeroValue(s[..n]);
      forall k | 0 <= k < |s|
        ensures s[k] == 0
      {
        if k < n {
          assert s[..n][k] == s[k];
        }
      }
    }
  }

  lemma NonzeroValue(s: seq<Byte>, k: nat)
    requires k < |s| && s[k] != 0
    ensures Value(s) > 0
  {
    if Value(s) == 0 {
      ZeroValue(s);
    }
  }

  lemma {:induction false} ZeroValueIs(s: seq<Byte>)
    requires forall k :: 0 <= k < |s| ==> s[k] == 0
    ensures Value(s) == 0
  {
    if s != [] {
      ZeroValueIs(s[..|s| - 1]);
    }
  }

  lemma ValueSplit(id: Uuid)
    requires HasVariant(id)
    ensures Value(id) == (Value(id[..8]) * 256 + 128) * TAIL_VALUES + RandomBits(id)
  {
    Pow256Tail();
    assert id == id[..9] + id[9..];
    ValueAppend(id[..9], id[9..]);
    assert id[..9][..8] == id[..8];
    assert id[8] == 128 + id[8] % 64;
  }

  /** A floor's number tells whether its random bits are all ones. */
  lemma ExhaustedByValue(floor: Uuid)
    requires Value(floor) == 0 || HasVariant(floor)
    ensures Exhausted(floor) <==> Value(floor) % RANDOM_VALUES == RANDOM_VALUES - 1
  {
    TailBound(floor);
    if Value(floor) == 0 {
      ZeroValue(floor);
      ZeroValueIs(floor[9..]);
    } else {
      ValueSplit(floor);
      LowPart(Value(floor), Value(floor[..8]), RandomBits(floor));
    }
  }

  lemma LowPart(n: nat, high: nat, low: nat)
    requires n == (high * 256 + 128) * TAIL_VALUES + low && low < RANDOM_VALUES
    ensures n % RANDOM_VALUES == low
  {
    assert n == (high * 4 + 2) * RANDOM_VALUES + low;
    assert n / RANDOM_VALUES == high * 4 + 2;
  }

  /** A writer whose floor has the number floor gives an id past it: the floor's random bits aren't all
      ones, or the arrival time's id is past it. */
  predicate CanChoose(floor: nat, candidate: nat) {
    candidate > floor || floor % RANDOM_VALUES != RANDOM_VALUES - 1
  }

  /** The carry gives the very next number, which comes after the id, exactly when the id's random
      bits aren't all ones. Past those it wraps to an id that comes before. */
  lemma NextComesAfter(id: Uuid, next: Uuid)
    requires HasVariant(id) && HasVariant(next) && next[..8] == id[..8]
    requires RandomBits(next) == if Exhausted(id) then 0 else RandomBits(id) + 1
    ensures Before(id, next) <==> !Exhausted(id)
    ensures !Exhausted(id) ==> Value(next) == Value(id) + 1
  {
    ValueSplit(id);
    ValueSplit(next);
    BytesOrderIsNumeric(id, next);
  }

  /** All ones in the random bits: the one family where the next id doesn't come after. */
  lemma ExhaustedWraps(id: Uuid, next: Uuid)
    requires HasVariant(id) && HasVariant(next) && next[..8] == id[..8]
    requires Exhausted(id) && RandomBits(next) == 0
    ensures Before(next, id)
  {
    ValueSplit(id);
    ValueSplit(next);
    BytesOrderIsNumeric(next, id);
  }

  /** newLogBatchID: a UUIDv7 of a time in milliseconds (the low 48 bits of its 8 big-endian
      bytes) over 16 random bytes. */
  function NewLogBatchID(ms: seq<Byte>, random: Uuid): (id: Uuid)
    requires |ms| == 8
    ensures HasVariant(id) && id[6] / 16 == 7
    ensures Value(id[..6]) == Value(ms[2..])
    ensures id[6] % 16 == random[6] % 16 && id[7] == random[7] && RandomBits(id) == RandomBits(random)
    ensures Value(id) > 0
  {
    var id: Uuid := ms[2..] + [0x70 + random[6] % 16, random[7], 0x80 + random[8] % 64] + random[9..];
    assert id[..6] == ms[2..];
    assert Value(id) > 0 by {
      NonzeroValue(id, 8);
    }
    id
  }

  /** Ids come in the order of their times, whatever their random bytes. */
  lemma NewIdsInTimeOrder(ms: seq<Byte>, random: Uuid, later: seq<Byte>, random': Uuid)
    requires |ms| == 8 && |later| == 8 && Value(ms[2..]) < Value(later[2..])
    ensures Before(NewLogBatchID(ms, random), NewLogBatchID(later, random'))
  {
    var a, b := NewLogBatchID(ms, random), NewLogBatchID(later, random');
    BytesOrderIsNumeric(a[..6], b[..6]);
    var i :| 0 <= i < 6 && a[..6][..i] == b[..6][..i] && a[..6][i] < b[..6][i];
    assert a[..6][..i] == a[..i] && b[..6][..i] == b[..i];
  }

  /** The key of a batch: its Project and its id, in key order by Project, then id. */
  datatype BatchKey = BatchKey(project: nat, id: Uuid)

  ghost predicate InKeyOrder(keys: seq<BatchKey>) {
    forall i, j :: 0 <= i < j < |keys| ==>
      keys[i].project < keys[j].project ||
      (keys[i].project == keys[j].project && Value(keys[i].id) < Value(keys[j].id))
  }

  /** The writer's part of PebbleWriter: the floor every new batch id comes after. */
  class BatchIdWriter {
    var logBatchFloor: Uuid

    /** Nil, or a generated id. */
    ghost predicate Valid()
      reads this
    {
      Value(logBatchFloor) == 0 || HasVariant(logBatchFloor)
    }

    constructor ()
      ensures Valid() && Value(logBatchFloor) == 0
    {
      var zeros: Uuid := seq(16, _ => 0);
      logBatchFloor := zeros;
      ZeroValueIs(zeros);
    }

    /** The id WriteLogBatch gives a batch, from the candidate its arrival time gives. It comes
        after every id written or seen exactly when the candidate does or the floor's random bits
        aren't exhausted, whatever the clock does. */
    method ChooseId(candidate: Uuid) returns (id: Uuid)
      requires Valid() && HasVariant(candidate) && Value(candidate) > 0
      modifies this
      ensures Valid() && logBatchFloor == id && HasVariant(id)
      ensures Value(id) > old(Value(logBatchFloor)) <==>
              Value(candidate) > old(Value(logBatchFloor)) || !old(Exhausted(logBatchFloor))
      ensures Value(id) > old(Value(logBatchFloor)) <==> CanChoose(old(Value(logBatchFloor)), Value(candidate))
      ensures Value(id) > old(Value(logBatchFloor)) ==>
              Value(id) == Chosen(old(Value(logBatchFloor)), Value(candidate))
    {
      id := candidate;
      ExhaustedByValue(logBatchFloor);
      if Value(candidate) <= Value(logBatchFloor) {
        id := NextLogBatchID(logBatchFloor);
        NextComesAfter(logBatchFloor, id);
        BytesOrderIsNumeric(logBatchFloor, id);
      }
      logBatchFloor := id;
    }

    /** KeepLogBatchIDsAbove. */
    method KeepAbove(id: Uuid)
      requires Valid() && (Value(id) == 0 || HasVariant(id))
      modifies this
      ensures Valid()
      ensures logBatchFloor == old(logBatchFloor) || logBatchFloor == id
      ensures Value(logBatchFloor) == Max(old(Value(logBatchFloor)), Value(id))
    {
      if Value(id) > Value(logBatchFloor) {
        logBatchFloor := id;
      }
    }

    /** seedBatchFloor: from the last key, the newest batch of each Project, seeking back over the
        Project's other batches. Reading one key a Project puts the floor at or above every id. */
    method SeedBatchFloor(keys: seq<BatchKey>)
      requires Valid() && InKeyOrder(keys)
      requires forall i :: 0 <= i < |keys| ==> HasVariant(keys[i].id)
      modifies this
      ensures Valid()
      ensures forall i :: 0 <= i < |keys| ==> Value(keys[i].id) <= Value(logBatchFloor)
      ensures logBatchFloor == old(logBatchFloor) || exists i :: 0 <= i < |keys| && keys[i].id == logBatchFloor
      ensures Value(logBatchFloor) >= old(Value(logBatchFloor))
    {
      var at := |keys|;
      while at > 0
        invariant 0 <= at <= |keys|
        invariant Valid()
        invariant at < |keys| && at > 0 ==> keys[at - 1].project < keys[at].project
        invariant forall i :: at <= i < |keys| ==> Value(keys[i].id) <= Value(logBatchFloor)
        invariant logBatchFloor == old(logBatchFloor) || exists i :: 0 <= i < |keys| && keys[i].id == logBatchFloor
        invariant Value(logBatchFloor) >= old(Value(logBatchFloor))
      {
        var newest := keys[at - 1];
        if Value(newest.id) > Value(logBatchFloor) {
          logBatchFloor := newest.id;
        }
        at := SeekBefore(keys, at, newest.project);
      }
    }
  }

  /** SeekLT of a Project's first key: how many keys come before it. */
  method SeekBefore(keys: seq<BatchKey>, end: nat, project: nat) returns (at: nat)
    requires 0 < end <= |keys| && InKeyOrder(keys) && keys[end - 1].project == project
    ensures at < end
    ensures forall i :: at <= i < end ==> keys[i].project == project
    ensures at > 0 ==> keys[at - 1].project < project
  {
    at := end - 1;
    while at > 0 && keys[at - 1].project == project
      invariant at < end
      invariant forall i :: at <= i < end ==> keys[i].project == project
    {
      at := at - 1;
    }
  }

  function Max(a: nat, b: nat): nat {
    if a > b then a else b
  }

  /** The number of the id a writer whose floor is the id numbered floor gives a batch. */
  function Chosen(floor: nat, candidate: nat): nat {
    if candidate > floor then candidate else floor + 1
  }
}

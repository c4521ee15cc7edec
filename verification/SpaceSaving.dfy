/** A day's key counts, the Space-Saving top-K in batches (storage/logs_keys.go mergeKeyCounts). A key
    stands for its place in the order of typedKey's compare. */
module SpaceSaving {

  type Key = nat
  type Counts = map<Key, int>

  /** What a key new to the counts starts from: the least count kept if they are full, else 0. */
  ghost predicate IsFloor(counts: Counts, keep: nat, floor: int) {
    if |counts| < keep then floor == 0
    else (exists k :: k in counts && counts[k] == floor) && forall k :: k in counts ==> floor <= counts[k]
  }

  function Count(counts: Counts, k: Key): int {
    if k in counts then counts[k] else 0
  }

  ghost predicate Positive(counts: Counts) {
    forall k :: k in counts ==> counts[k] > 0
  }

  /** The batch's counts added, before any key is evicted. */
  function Added(counts: Counts, batch: Counts, floor: int): Counts {
    AddedOf(counts, batch, floor, batch.Keys)
  }

  /** The counts of some of the batch's keys added. */
  function AddedOf(counts: Counts, batch: Counts, floor: int, keys: set<Key>): Counts {
    map k | k in counts.Keys + keys ::
      (if k in counts then counts[k] else floor) + (if k in keys then Count(batch, k) else 0)
  }

  /** a is kept rather than b: for its count, then its key. */
  predicate Before(counts: Counts, a: Key, b: Key)
    requires a in counts && b in counts
  {
    counts[a] > counts[b] || (counts[a] == counts[b] && a < b)
  }

  /** What a merge keeps of the added counts: all, or the keep first in rank. */
  ghost predicate KeepsTop(added: Counts, keep: nat, kept: Counts) {
    && kept.Keys <= added.Keys
    && (forall k :: k in kept ==> kept[k] == added[k])
    && |kept| == (if |added| <= keep then |added| else keep)
    && (forall a, b :: a in kept && b in added && b !in kept ==> Before(added, a, b))
  }

  /** One merge of a batch into a day's counts. */
  ghost predicate Merges(counts: Counts, batch: Counts, keep: nat, kept: Counts) {
    exists floor :: IsFloor(counts, keep, floor) && KeepsTop(Added(counts, batch, floor), keep, kept)
  }

  ghost predicate Distinct(keys: seq<Key>) {
    forall i, j :: 0 <= i < j < |keys| ==> keys[i] != keys[j]
  }

  ghost predicate Lists(keys: seq<Key>, of_: set<Key>) {
    Distinct(keys) && forall k :: k in keys <==> k in of_
  }

  lemma {:induction false} ListsAll(keys: seq<Key>, of_: set<Key>)
    requires Lists(keys, of_)
    ensures |keys| == |of_|
  {
    if keys != [] {
      var rest := of_ - {keys[0]};
      assert keys == [keys[0]] + keys[1..];
      ListsAll(keys[1..], rest);
    } else {
      assert of_ == {};
    }
  }

  /** The keys of a map, in some order. */
  method KeysOf(counts: Counts) returns (keys: seq<Key>)
    ensures Lists(keys, counts.Keys)
  {
    keys := [];
    var left := counts.Keys;
    while left != {}
      invariant left <= counts.Keys
      invariant Lists(keys, counts.Keys - left)
      decreases |left|
    {
      var k :| k in left;
      keys := keys + [k];
      left := left - {k};
    }
  }

  /** The least count. */
  method Least(counts: Counts) returns (least: int)
    requires |counts| > 0
    ensures exists k :: k in counts && counts[k] == least
    ensures forall k :: k in counts ==> least <= counts[k]
  {
    var keys := KeysOf(counts);
    ListsAll(keys, counts.Keys);
    assert keys[0] in keys;
    least := counts[keys[0]];
    for i := 1 to |keys|
      invariant exists k :: k in counts && counts[k] == least
      invariant forall j :: 0 <= j < i ==> least <= counts[keys[j]]
    {
      assert keys[i] in keys;
      if counts[keys[i]] < least {
        least := counts[keys[i]];
      }
    }
  }

  ghost predicate Ranked(counts: Counts, keys: seq<Key>) {
    && (forall k :: k in keys ==> k in counts)
    && forall i, j :: 0 <= i < j < |keys| ==> Before(counts, keys[i], keys[j])
  }

  /** A ranked list with one more key. */
  function Placed(counts: Counts, keys: seq<Key>, k: Key): seq<Key>
    requires k in counts && forall j :: j in keys ==> j in counts
  {
    if keys == [] || Before(counts, k, keys[0]) then [k] + keys
    else [keys[0]] + Placed(counts, keys[1..], k)
  }

  lemma {:induction false} PlacedIn(counts: Counts, keys: seq<Key>, k: Key)
    requires k in counts && forall j :: j in keys ==> j in counts
    ensures forall j :: j in Placed(counts, keys, k) <==> j in keys || j == k
  {
    if keys != [] && !Before(counts, k, keys[0]) {
      PlacedIn(counts, keys[1..], k);
      assert keys == [keys[0]] + keys[1..];
    }
  }

  lemma {:induction false} PlacedRanked(counts: Counts, keys: seq<Key>, k: Key)
    requires k in counts && Ranked(counts, keys) && k !in keys
    ensures Ranked(counts, Placed(counts, keys, k))
  {
    PlacedIn(counts, keys, k);
    if keys != [] && !Before(counts, k, keys[0]) {
      assert keys == [keys[0]] + keys[1..];
      PlacedRanked(counts, keys[1..], k);
      PlacedIn(counts, keys[1..], k);
      var rest := Placed(counts, keys[1..], k);
      assert forall j :: j in rest ==> Before(counts, keys[0], j);
    } else if keys != [] {
      assert forall j :: j in keys ==> Before(counts, k, j);
    }
  }

  /** The keys in rank, the most popular first. */
  method RankedKeys(counts: Counts) returns (ranked: seq<Key>)
    ensures Ranked(counts, ranked) && Lists(ranked, counts.Keys)
  {
    var keys := KeysOf(counts);
    ranked := [];
    for i := 0 to |keys|
      invariant Ranked(counts, ranked)
      invariant forall k :: k in ranked <==> k in keys[..i]
    {
      assert keys[..i + 1] == keys[..i] + [keys[i]];
      assert keys[i] in keys && keys[i] !in keys[..i];
      PlacedRanked(counts, ranked, keys[i]);
      PlacedIn(counts, ranked, keys[i]);
      ranked := Placed(counts, ranked, keys[i]);
    }
    assert keys[..|keys|] == keys;
  }

  lemma AddOne(counts: Counts, batch: Counts, floor: int, keys: set<Key>, k: Key)
    requires k in batch && k !in keys
    ensures var before := AddedOf(counts, batch, floor, keys);
            before[k := (if k in before then before[k] else floor) + batch[k]]
              == AddedOf(counts, batch, floor, keys + {k})
  {
  }

  /** The batch's counts added, key by key. */
  method AddBatch(counts0: Counts, batch: Counts, floor: int) returns (counts: Counts)
    ensures counts == Added(counts0, batch, floor)
  {
    counts := counts0;
    ghost var done: set<Key> := {};
    assert counts == AddedOf(counts0, batch, floor, done);
    var keys := KeysOf(batch);
    for i := 0 to |keys|
      invariant done == KeySet(keys[..i])
      invariant counts == AddedOf(counts0, batch, floor, done)
    {
      var key := keys[i];
      NextKey(keys, i);
      assert key in keys;
      AddOne(counts0, batch, floor, done, key);
      counts := counts[key := (if key in counts then counts[key] else floor) + batch[key]];
      done := done + {key};
    }
    assert keys[..|keys|] == keys;
    assert done == batch.Keys;
  }

  function KeySet(keys: seq<Key>): set<Key> {
    set k | k in keys
  }

  lemma NextKey(keys: seq<Key>, i: nat)
    requires Distinct(keys) && i < |keys|
    ensures keys[i] !in keys[..i]
    ensures KeySet(keys[..i + 1]) == KeySet(keys[..i]) + {keys[i]}
    ensures forall k :: k in keys[..i + 1] <==> k in keys[..i] || k == keys[i]
  {
    assert keys[..i + 1] == keys[..i] + [keys[i]];
  }

  /** mergeKeyCounts. The counts' new values come with the keys whose count changed and those evicted. */
  method MergeKeyCounts(counts0: Counts, batch: Counts, keep: nat)
    returns (counts: Counts, changed: seq<Key>, evicted: seq<Key>)
    requires keep > 0
    ensures Merges(counts0, batch, keep, counts)
    ensures forall k :: k in changed <==> k in batch && k in counts
    ensures forall k :: k in evicted <==> (k in counts0 || k in batch) && k !in counts
    ensures Distinct(changed) && Distinct(evicted)
  {
    var floor := 0;
    if |counts0| >= keep {
      floor := Least(counts0);
    }
    var added := AddBatch(counts0, batch, floor);
    counts, evicted := Evict(added, keep);
    assert IsFloor(counts0, keep, floor) && KeepsTop(Added(counts0, batch, floor), keep, counts);
    changed := Changed(batch, counts);
  }

  /** The first keep in rank, and the keys of the others. */
  method Evict(added: Counts, keep: nat) returns (counts: Counts, evicted: seq<Key>)
    ensures KeepsTop(added, keep, counts)
    ensures forall k :: k in evicted <==> k in added && k !in counts
    ensures Distinct(evicted)
  {
    if |added| <= keep {
      return added, [];
    }
    var ranked := RankedKeys(added);
    ListsAll(ranked, added.Keys);
    evicted := ranked[keep..];
    counts := Without(added, evicted);
    KeptAreTop(added, ranked, keep, counts);
  }

  /** The batch's keys that are kept. */
  method Changed(batch: Counts, counts: Counts) returns (changed: seq<Key>)
    ensures forall k :: k in changed <==> k in batch && k in counts
    ensures Distinct(changed)
  {
    var keys := KeysOf(batch);
    changed := [];
    for i := 0 to |keys|
      invariant forall k :: k in changed <==> k in keys[..i] && k in counts
      invariant Distinct(changed)
    {
      NextKey(keys, i);
      if keys[i] in counts {
        changed := changed + [keys[i]];
      }
    }
    assert keys[..|keys|] == keys;
  }

  /** The counts with some keys deleted, one by one. */
  method Without(counts0: Counts, keys: seq<Key>) returns (counts: Counts)
    ensures counts == counts0 - set k | k in keys
  {
    counts := counts0;
    for i := 0 to |keys|
      invariant counts == counts0 - (set k | k in keys[..i])
    {
      assert keys[..i + 1] == keys[..i] + [keys[i]];
      counts := counts - {keys[i]};
    }
    assert keys[..|keys|] == keys;
  }

  lemma KeptAreTop(added: Counts, ranked: seq<Key>, keep: nat, kept: Counts)
    requires Ranked(added, ranked) && Lists(ranked, added.Keys) && keep < |ranked| == |added|
    requires kept == added - set k | k in ranked[keep..]
    ensures KeepsTop(added, keep, kept)
    ensures forall k :: k in ranked[keep..] <==> k in added && k !in kept
  {
    SplitRanked(ranked, keep);
    ListsAll(ranked[..keep], kept.Keys);
    forall a, b | a in kept && b in added && b !in kept
      ensures Before(added, a, b)
    {
      EarlierIsBefore(added, ranked, keep, a, b);
    }
  }

  lemma SplitRanked(keys: seq<Key>, n: nat)
    requires Distinct(keys) && n <= |keys|
    ensures forall k :: k in keys <==> k in keys[..n] || k in keys[n..]
    ensures forall k :: !(k in keys[..n] && k in keys[n..])
  {
    assert keys == keys[..n] + keys[n..];
  }

  lemma EarlierIsBefore(added: Counts, ranked: seq<Key>, n: nat, a: Key, b: Key)
    requires Ranked(added, ranked) && n <= |ranked| && a in ranked[..n] && b in ranked[n..]
    ensures Before(added, a, b)
  {
    var i :| 0 <= i < n && ranked[i] == a;
    var j :| 0 <= j < |ranked| - n && ranked[n..][j] == b;
    assert ranked[n + j] == b;
  }

  // What the counts tell.

  /** How many Logs carried the key, over batches. */
  function True(batches: seq<Counts>, k: Key): int {
    if batches == [] then 0 else True(batches[..|batches| - 1], k) + Count(batches[|batches| - 1], k)
  }

  /** Each kept count is at least the key's true count and at most the floor more, and no other key's true
      count is more than the floor. */
  ghost predicate Bounds(counts: Counts, batches: seq<Counts>, floor: int) {
    && (forall k :: k in counts ==> True(batches, k) <= counts[k] <= True(batches, k) + floor)
    && (forall k :: k !in counts ==> True(batches, k) <= floor)
  }

  lemma AddedBounds(counts: Counts, batches: seq<Counts>, batch: Counts, floor: int)
    requires Bounds(counts, batches, floor) && Positive(batch) && floor >= 0
    requires forall k :: True(batches, k) >= 0
    ensures Bounds(Added(counts, batch, floor), batches + [batch], floor)
  {
    forall k
      ensures True(batches + [batch], k) == True(batches, k) + Count(batch, k)
    {
      assert (batches + [batch])[..|batches|] == batches;
    }
  }

  /** Evicting the least leaves the floor no lower, and no lower than what was evicted. */
  lemma FloorRises(counts: Counts, batch: Counts, keep: nat, floor: int, kept: Counts) returns (floor': int)
    requires keep > 0 && Positive(counts) && Positive(batch) && IsFloor(counts, keep, floor)
    requires KeepsTop(Added(counts, batch, floor), keep, kept)
    ensures IsFloor(kept, keep, floor') && floor <= floor'
    ensures forall k :: k in Added(counts, batch, floor) && k !in kept ==> Added(counts, batch, floor)[k] <= floor'
  {
    var added := Added(counts, batch, floor);
    SubsetCard(counts.Keys, added.Keys);
    if |kept| < keep {
      floor' := 0;
      SameCard(kept.Keys, added.Keys);
    } else {
      floor' := LeastOf(kept);
      var k :| k in kept && kept[k] == floor';
      assert added[k] >= floor;
      forall e | e in added && e !in kept
        ensures added[e] <= floor'
      {
        assert Before(added, k, e);
      }
    }
  }

  lemma SubsetCard(a: set<Key>, b: set<Key>)
    requires a <= b
    ensures |a| <= |b|
  {
    assert b == a + (b - a);
  }

  lemma SameCard(a: set<Key>, b: set<Key>)
    requires a <= b && |a| == |b|
    ensures a == b
  {
    assert b == a + (b - a);
  }

  lemma {:induction false} LeastOf(counts: Counts) returns (least: int)
    requires |counts| > 0
    ensures exists k :: k in counts && counts[k] == least
    ensures forall k :: k in counts ==> least <= counts[k]
    decreases |counts|
  {
    var k :| k in counts;
    var rest := counts - {k};
    if |rest| == 0 {
      assert rest == map[];
      assert forall j :: j in counts ==> j == k;
      least := counts[k];
    } else {
      var l := LeastOf(rest);
      assert forall j :: j in counts ==> j == k || (j in rest && rest[j] == counts[j]);
      least := if l < counts[k] then l else counts[k];
    }
  }

  /** One merge keeps the bounds. */
  lemma MergeKeepsBounds(counts: Counts, batches: seq<Counts>, batch: Counts, keep: nat, kept: Counts, floor: int)
    returns (floor': int)
    requires keep > 0 && Positive(counts) && Positive(batch)
    requires IsFloor(counts, keep, floor) && KeepsTop(Added(counts, batch, floor), keep, kept)
    requires Bounds(counts, batches, floor) && forall k :: True(batches, k) >= 0
    ensures IsFloor(kept, keep, floor') && Bounds(kept, batches + [batch], floor') && Positive(kept)
  {
    FloorNotNegative(counts, keep, floor);
    AddedBounds(counts, batches, batch, floor);
    floor' := FloorRises(counts, batch, keep, floor, kept);
  }

  lemma FloorNotNegative(counts: Counts, keep: nat, floor: int)
    requires Positive(counts) && IsFloor(counts, keep, floor)
    ensures floor >= 0
  {
  }

  lemma FloorIsOne(counts: Counts, keep: nat, a: int, b: int)
    requires IsFloor(counts, keep, a) && IsFloor(counts, keep, b)
    ensures a == b
  {
  }

  /** The counts after each of some batches, from none. */
  ghost predicate Run(states: seq<Counts>, batches: seq<Counts>, keep: nat) {
    && |states| == |batches| + 1
    && states[0] == map[]
    && (forall i :: 0 <= i < |batches| ==> Merges(states[i], batches[i], keep, states[i + 1]))
  }

  /** After any sequence of merges, at most keep keys are kept, each with a count at least its true count
      and at most its true count plus the least count kept; and a key whose true count is more than that
      least is kept. Until keep keys have come, the counts are the true ones. */
  lemma RunKeepsBounds(states: seq<Counts>, batches: seq<Counts>, keep: nat) returns (floor: int)
    requires keep > 0 && Run(states, batches, keep) && forall b :: b in batches ==> Positive(b)
    ensures var counts := states[|batches|];
            && |counts| <= keep && Positive(counts)
            && IsFloor(counts, keep, floor) && Bounds(counts, batches, floor)
            && (forall k :: True(batches, k) > floor ==> k in counts)
            && (|counts| < keep ==> forall k :: Count(counts, k) == True(batches, k))
  {
    floor := RunBounds(states, batches, keep);
    NoTrueCountIsNegative(batches);
    BoundsMean(states[|batches|], batches, keep, floor);
  }

  lemma {:induction false} RunBounds(states: seq<Counts>, batches: seq<Counts>, keep: nat) returns (floor: int)
    requires keep > 0 && Run(states, batches, keep) && forall b :: b in batches ==> Positive(b)
    ensures var counts := states[|batches|];
            && |counts| <= keep && Positive(counts)
            && IsFloor(counts, keep, floor) && Bounds(counts, batches, floor)
    decreases |batches|
  {
    if batches == [] {
      floor := 0;
    } else {
      var n := |batches| - 1;
      assert batches == batches[..n] + [batches[n]];
      assert batches[n] in batches;
      var before := RunBounds(states[..n + 1], batches[..n], keep);
      floor := StepKeepsBounds(states[n], batches[..n], batches[n], keep, states[n + 1], before);
    }
  }

  lemma StepKeepsBounds(counts: Counts, batches: seq<Counts>, batch: Counts, keep: nat, kept: Counts, before: int)
    returns (floor: int)
    requires keep > 0 && Positive(counts) && Positive(batch) && Merges(counts, batch, keep, kept)
    requires forall b :: b in batches ==> Positive(b)
    requires IsFloor(counts, keep, before) && Bounds(counts, batches, before)
    ensures |kept| <= keep && Positive(kept)
    ensures IsFloor(kept, keep, floor) && Bounds(kept, batches + [batch], floor)
  {
    NoTrueCountIsNegative(batches);
    var f :| IsFloor(counts, keep, f) && KeepsTop(Added(counts, batch, f), keep, kept);
    FloorIsOne(counts, keep, before, f);
    floor := MergeKeepsBounds(counts, batches, batch, keep, kept, f);
  }

  lemma BoundsMean(counts: Counts, batches: seq<Counts>, keep: nat, floor: int)
    requires IsFloor(counts, keep, floor) && Bounds(counts, batches, floor)
    requires forall k :: True(batches, k) >= 0
    ensures forall k :: True(batches, k) > floor ==> k in counts
    ensures |counts| < keep ==> forall k :: Count(counts, k) == True(batches, k)
  {
  }

  lemma {:induction false} NoTrueCountIsNegative(batches: seq<Counts>)
    requires forall b :: b in batches ==> Positive(b)
    ensures forall k :: True(batches, k) >= 0
  {
    if batches != [] {
      assert batches == batches[..|batches| - 1] + [batches[|batches| - 1]] && batches[|batches| - 1] in batches;
      NoTrueCountIsNegative(batches[..|batches| - 1]);
    }
  }
}

/** What a merge of a batch into a day's key counts (storage/logs_keys.go mergeKeyCounts) adds in all: however
    many keys it evicts, the counts kept come to more than those before. */
module KeyTotals {
  import opened SpaceSaving

  /** The sum of a function over keys. */
  ghost function SumOver(f: Key -> int, keys: set<Key>): int
    decreases |keys|
  {
    if keys == {} then 0
    else
      var k :| k in keys;
      f(k) + SumOver(f, keys - {k})
  }

  lemma {:induction false} SumWithout(f: Key -> int, keys: set<Key>, x: Key)
    requires x in keys
    ensures SumOver(f, keys) == f(x) + SumOver(f, keys - {x})
    decreases |keys|
  {
    var k :| k in keys && SumOver(f, keys) == f(k) + SumOver(f, keys - {k});
    if k != x {
      SumWithout(f, keys - {k}, x);
      SumWithout(f, keys - {x}, k);
      assert keys - {k} - {x} == keys - {x} - {k};
    }
  }

  lemma {:induction false} SumAdds(f: Key -> int, g: Key -> int, h: Key -> int, keys: set<Key>)
    requires forall k :: k in keys ==> h(k) == f(k) + g(k)
    ensures SumOver(h, keys) == SumOver(f, keys) + SumOver(g, keys)
    decreases |keys|
  {
    if keys != {} {
      var k :| k in keys;
      SumWithout(f, keys, k);
      SumWithout(g, keys, k);
      SumWithout(h, keys, k);
      SumAdds(f, g, h, keys - {k});
    }
  }

  lemma {:induction false} SumOfSame(f: Key -> int, g: Key -> int, keys: set<Key>)
    requires forall k :: k in keys ==> f(k) == g(k)
    ensures SumOver(f, keys) == SumOver(g, keys)
    decreases |keys|
  {
    if keys != {} {
      var k :| k in keys;
      SumWithout(f, keys, k);
      SumWithout(g, keys, k);
      SumOfSame(f, g, keys - {k});
    }
  }

  lemma {:induction false} SumNotNegative(f: Key -> int, keys: set<Key>)
    requires forall k :: k in keys ==> f(k) >= 0
    ensures SumOver(f, keys) >= 0
    decreases |keys|
  {
    if keys != {} {
      var k :| k in keys;
      SumWithout(f, keys, k);
      SumNotNegative(f, keys - {k});
    }
  }

  lemma SumPositive(f: Key -> int, keys: set<Key>, x: Key)
    requires (forall k :: k in keys ==> f(k) >= 0) && x in keys && f(x) > 0
    ensures SumOver(f, keys) > 0
  {
    SumWithout(f, keys, x);
    SumNotNegative(f, keys - {x});
  }

  /** Keys the function is 0 on add nothing. */
  lemma {:induction false} SumOfMore(f: Key -> int, keys: set<Key>, more: set<Key>)
    requires keys <= more && forall k :: k in more - keys ==> f(k) == 0
    ensures SumOver(f, more) == SumOver(f, keys)
    decreases |more|
  {
    if k :| k in more && k !in keys {
      SumWithout(f, more, k);
      SumOfMore(f, keys, more - {k});
    } else {
      assert more == keys;
    }
  }

  /** Functions that are 0 but on some keys, added. */
  lemma SumOfApart(f: Key -> int, keys: set<Key>, g: Key -> int, touched: set<Key>, h: Key -> int)
    requires forall k :: k !in keys ==> f(k) == 0
    requires forall k :: k !in touched ==> g(k) == 0
    requires forall k :: h(k) == f(k) + g(k)
    ensures SumOver(h, keys + touched) == SumOver(f, keys) + SumOver(g, touched)
  {
    SumOfMore(f, keys, keys + touched);
    SumOfMore(g, touched, keys + touched);
    SumAdds(f, g, h, keys + touched);
  }

  lemma {:induction false} SumOfConst(f: Key -> int, keys: set<Key>, n: int)
    requires forall k :: k in keys ==> f(k) == n
    ensures SumOver(f, keys) == n * |keys|
    decreases |keys|
  {
    if keys != {} {
      var k :| k in keys;
      SumWithout(f, keys, k);
      SumOfConst(f, keys - {k}, n);
      assert n * |keys| == n * (|keys| - 1) + n;
    }
  }

  /** The least count of the keys that are new, what every new key has at least and every evicted key at
      most; 0 if no new key is kept. */
  ghost predicate IsLeastNew(before: Counts, added: Counts, kept: Counts, least: int) {
    && kept.Keys <= added.Keys && before.Keys <= added.Keys
    && (if kept.Keys <= before.Keys then kept.Keys == before.Keys && least == 0
        else exists k :: k in kept && k !in before && kept[k] == least)
    && (forall k :: k in kept && k !in before ==> kept[k] >= least)
    && (forall k :: k in before && k !in kept ==> added[k] <= least)
  }

  lemma LeastNew(before: Counts, added: Counts, keep: nat, kept: Counts) returns (least: int)
    requires before.Keys <= added.Keys && KeepsTop(added, keep, kept)
    requires |before| <= keep
    ensures |kept| >= |before| && IsLeastNew(before, added, kept, least)
  {
    SubsetCard(before.Keys, added.Keys);
    var newKept := kept - before.Keys;
    if newKept == map[] {
      assert forall k :: k in kept ==> k in before;
      SubsetCard(kept.Keys, before.Keys);
      SameCard(kept.Keys, before.Keys);
      least := 0;
    } else {
      least := LeastOf(newKept);
      var a :| a in newKept && newKept[a] == least;
      forall k | k in kept && k !in before
        ensures kept[k] >= least
      {
        assert k in newKept;
      }
      forall k | k in before && k !in kept
        ensures added[k] <= least
      {
        assert Before(added, a, k);
      }
    }
  }

  /** By how much a key's count rises, less what the kept keys' rise would be if each new key's count were
      only the least new one, and each evicted key's that too. */
  ghost function Rise(before: Counts, kept: Counts, least: int): Key -> int {
    (k: Key) => Count(kept, k) - Count(before, k) - (if k in kept then least else 0)
      + (if k in before then least else 0)
  }

  ghost function Change(before: Counts, kept: Counts): Key -> int {
    (k: Key) => Count(kept, k) - Count(before, k)
  }

  /** n on some keys, and 0 on the others. */
  ghost function OnEach(some: set<Key>, n: int): Key -> int {
    (k: Key) => if k in some then n else 0
  }

  lemma SumOfRise(before: Counts, kept: Counts, least: int, keys: set<Key>)
    requires before.Keys <= keys && kept.Keys <= keys
    ensures SumOver(Change(before, kept), keys)
         == SumOver(Rise(before, kept, least), keys) + least * (|kept| - |before|)
  {
    ChangeIsRise(before, kept, least);
    SumOfThree(Rise(before, kept, least), OnEach(kept.Keys, least), OnEach(before.Keys, least), Change(before, kept),
        keys);
    SumOfEach(kept.Keys, keys, least);
    SumOfEach(before.Keys, keys, least);
    TimesBoth(least, |kept|, |before|);
  }

  lemma ChangeIsRise(before: Counts, kept: Counts, least: int)
    ensures forall k :: Change(before, kept)(k)
              == Rise(before, kept, least)(k) + OnEach(kept.Keys, least)(k) - OnEach(before.Keys, least)(k)
  {
  }

  lemma {:induction false} SumOfThree(f: Key -> int, g: Key -> int, h: Key -> int, all: Key -> int, keys: set<Key>)
    requires forall k :: all(k) == f(k) + g(k) - h(k)
    ensures SumOver(all, keys) == SumOver(f, keys) + SumOver(g, keys) - SumOver(h, keys)
    decreases |keys|
  {
    if keys != {} {
      var k :| k in keys;
      SumWithout(f, keys, k);
      SumWithout(g, keys, k);
      SumWithout(h, keys, k);
      SumWithout(all, keys, k);
      SumOfThree(f, g, h, all, keys - {k});
    }
  }

  lemma SumOfEach(some: set<Key>, keys: set<Key>, n: int)
    requires some <= keys
    ensures SumOver(OnEach(some, n), keys) == n * |some|
  {
    SumOfMore(OnEach(some, n), some, keys);
    SumOfConst(OnEach(some, n), some, n);
  }

  lemma TimesBoth(n: int, a: int, b: int)
    ensures n * (a - b) == n * a - n * b
  {
  }

  /** The merge of a batch with Logs, with what it started new keys from. */
  ghost predicate MergesOver(before: Counts, batch: Counts, keep: nat, kept: Counts, floor: int) {
    && |before| <= keep && keep > 0 && Positive(batch) && batch != map[]
    && IsFloor(before, keep, floor) && KeepsTop(Added(before, batch, floor), keep, kept)
  }

  lemma NoRiseIsNegative(before: Counts, batch: Counts, keep: nat, kept: Counts, floor: int, least: int)
    requires MergesOver(before, batch, keep, kept, floor)
    requires IsLeastNew(before, Added(before, batch, floor), kept, least)
    ensures forall k :: Rise(before, kept, least)(k) >= 0
  {
  }

  /** A merge that evicts a key, or takes in a new one without more keys in all, keeps as many as it may. */
  lemma FullIfEvicts(before: Counts, batch: Counts, keep: nat, kept: Counts, floor: int, b: Key)
    requires MergesOver(before, batch, keep, kept, floor) && |kept| == |before|
    requires b in Added(before, batch, floor) && (b !in before || b !in kept)
    ensures |before| == keep && exists a :: a in before && before[a] == floor
  {
    var added := Added(before, batch, floor);
    if |before| < keep {
      SameCard(before.Keys, added.Keys);
      SameCard(kept.Keys, added.Keys);
    }
  }

  lemma OneEvicted(before: Counts, kept: Counts) returns (e: Key)
    requires |kept| == |before| && !(kept.Keys <= before.Keys)
    ensures e in before && e !in kept
  {
    if before.Keys <= kept.Keys {
      SameCard(before.Keys, kept.Keys);
    }
    e :| e in before && e !in kept;
  }

  /** With as many keys as before, some key's count rises by more than that. */
  lemma SomeRise(before: Counts, batch: Counts, keep: nat, kept: Counts, floor: int, least: int) returns (x: Key)
    requires MergesOver(before, batch, keep, kept, floor) && |kept| == |before|
    requires IsLeastNew(before, Added(before, batch, floor), kept, least)
    ensures x in before && Rise(before, kept, least)(x) > 0
  {
    var added := Added(before, batch, floor);
    var b :| b in batch;
    if b in before && b in kept {
      x := b;
    } else {
      FullIfEvicts(before, batch, keep, kept, floor, b);
      var a :| a in before && before[a] == floor;
      x := a;
      if kept.Keys <= before.Keys {
        assert Before(added, a, b);
      } else if a in kept && a !in batch {
        x := OneEvicted(before, kept);
        assert Before(added, a, x);
      }
    }
  }

  /** A merge of any Logs into no more counts than are kept makes them come to more. */
  lemma MergeRaisesTotal(before: Counts, batch: Counts, keep: nat, kept: Counts)
    requires keep > 0 && |before| <= keep && Positive(batch) && batch != map[]
    requires Merges(before, batch, keep, kept)
    ensures kept.Keys <= before.Keys + batch.Keys
    ensures SumOver(Change(before, kept), before.Keys + batch.Keys) > 0
  {
    var floor :| IsFloor(before, keep, floor) && KeepsTop(Added(before, batch, floor), keep, kept);
    var keys := before.Keys + batch.Keys;
    var least := LeastNew(before, Added(before, batch, floor), keep, kept);
    SumOfRise(before, kept, least, keys);
    RiseIsPositive(before, batch, keep, kept, floor, least, keys);
  }

  lemma RiseIsPositive(before: Counts, batch: Counts, keep: nat, kept: Counts, floor: int, least: int, keys: set<Key>)
    requires MergesOver(before, batch, keep, kept, floor) && |kept| >= |before|
    requires IsLeastNew(before, Added(before, batch, floor), kept, least)
    requires before.Keys <= keys
    ensures SumOver(Rise(before, kept, least), keys) + least * (|kept| - |before|) > 0
  {
    NoRiseIsNegative(before, batch, keep, kept, floor, least);
    if |kept| == |before| {
      var x := SomeRise(before, batch, keep, kept, floor, least);
      SumPositive(Rise(before, kept, least), keys, x);
    } else {
      SumNotNegative(Rise(before, kept, least), keys);
      NewIsPositive(before, batch, keep, kept, floor, least);
    }
  }

  lemma NewIsPositive(before: Counts, batch: Counts, keep: nat, kept: Counts, floor: int, least: int)
    requires MergesOver(before, batch, keep, kept, floor) && |kept| > |before|
    requires IsLeastNew(before, Added(before, batch, floor), kept, least)
    ensures least * (|kept| - |before|) > 0
  {
    if kept.Keys <= before.Keys {
      SubsetCard(kept.Keys, before.Keys);
    }
    var k :| k in kept && k !in before && kept[k] == least;
    assert Added(before, batch, floor)[k] == floor + batch[k];
    TimesPositive(least, |kept| - |before|);
  }

  lemma TimesPositive(a: int, b: int)
    requires a > 0 && b > 0
    ensures a * b > 0
  {
  }
}

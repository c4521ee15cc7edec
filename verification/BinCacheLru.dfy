/** The bin cache's entries (storage/logs_clickhouse_table.go binCache): bins' rows by key, the least
    recently used dropped first once they take more than maxBytes. Keys are kept whole, not hashed, and what an
    entry's bytes are worked out from is not part of this model: they come with the entry. */
module BinCacheLru {
  import opened BinGenerations

  datatype Entry<Rows> = Entry(key: Key, rows: Rows, bytes: nat)

  datatype Found<Rows> = Miss | Hit(rows: Rows)

  datatype Use<Rows> = Got(key: Key) | Kept(entry: Entry<Rows>)

  function Total<Rows>(recent: seq<Entry<Rows>>): nat {
    if recent == [] then 0 else Total(recent[..|recent| - 1]) + recent[|recent| - 1].bytes
  }

  /** The position of a key's entry, or the length. */
  function Position<Rows>(recent: seq<Entry<Rows>>, key: Key): (i: nat)
    ensures i <= |recent|
    ensures i < |recent| ==> recent[i].key == key
    ensures forall j :: 0 <= j < i ==> recent[j].key != key
  {
    if recent == [] || recent[0].key == key then 0 else 1 + Position(recent[1..], key)
  }

  function Without<Rows>(recent: seq<Entry<Rows>>, key: Key): seq<Entry<Rows>> {
    var i := Position(recent, key);
    if i < |recent| then recent[..i] + recent[i + 1..] else recent
  }

  /** What is left once the last entries are dropped, one by one, until the rest takes at most the bytes. */
  function Fitting<Rows>(recent: seq<Entry<Rows>>, bytes: nat): seq<Entry<Rows>> {
    if Total(recent) <= bytes then recent else Fitting(recent[..|recent| - 1], bytes)
  }

  lemma AllFit<Rows>(recent: seq<Entry<Rows>>, bytes: nat)
    requires Total(recent) <= bytes
    ensures Fitting(recent, bytes) == recent
  {
  }

  /** It is the longest prefix that takes at most the bytes. */
  lemma {:induction false} FittingIsLongest<Rows>(recent: seq<Entry<Rows>>, bytes: nat)
    ensures var kept := Fitting(recent, bytes);
            && kept <= recent && Total(kept) <= bytes
            && forall n :: |kept| < n <= |recent| ==> Total(recent[..n]) > bytes
  {
    if Total(recent) > bytes {
      var front := recent[..|recent| - 1];
      FittingIsLongest(front, bytes);
      forall n | |Fitting(front, bytes)| < n <= |recent|
        ensures Total(recent[..n]) > bytes
      {
        assert if n < |recent| then recent[..n] == front[..n] else recent[..n] == recent;
      }
    }
  }

  ghost predicate Distinct<Rows>(recent: seq<Entry<Rows>>) {
    forall i, j :: 0 <= i < j < |recent| ==> recent[i].key != recent[j].key
  }

  /** What a use leaves of the entries, the most recently used first. */
  function After<Rows>(recent: seq<Entry<Rows>>, use: Use<Rows>, maxBytes: nat): seq<Entry<Rows>> {
    match use
    case Got(key) =>
      var i := Position(recent, key);
      if i < |recent| then [recent[i]] + Without(recent, key) else recent
    case Kept(entry) =>
      if entry.bytes > maxBytes then recent
      else Fitting([entry] + Without(recent, entry.key), maxBytes)
  }

  function AfterAll<Rows>(uses: seq<Use<Rows>>, maxBytes: nat): seq<Entry<Rows>> {
    if uses == [] then []
    else After(AfterAll(uses[..|uses| - 1], maxBytes), uses[|uses| - 1], maxBytes)
  }

  /** The entry last put under a key, of those small enough to keep. */
  function LastKept<Rows>(uses: seq<Use<Rows>>, key: Key, maxBytes: nat): Found<Entry<Rows>> {
    if uses == [] then Miss
    else
      var use := uses[|uses| - 1];
      if use.Kept? && use.entry.key == key && use.entry.bytes <= maxBytes then Hit(use.entry)
      else LastKept(uses[..|uses| - 1], key, maxBytes)
  }

  lemma {:induction false} TotalOfAppend<Rows>(a: seq<Entry<Rows>>, b: seq<Entry<Rows>>)
    ensures Total(a + b) == Total(a) + Total(b)
  {
    if b == [] {
      assert a + b == a;
    } else {
      var last := |b| - 1;
      assert (a + b)[..|a + b| - 1] == a + b[..last];
      TotalOfAppend(a, b[..last]);
    }
  }

  lemma TotalWithout<Rows>(recent: seq<Entry<Rows>>, i: nat)
    requires i < |recent|
    ensures Total(recent[..i] + recent[i + 1..]) == Total(recent) - recent[i].bytes
  {
    TotalOfAppend(recent[..i], recent[i + 1..]);
    TotalOfPart(recent, i);
  }

  lemma TotalOfPart<Rows>(recent: seq<Entry<Rows>>, i: nat)
    requires i < |recent|
    ensures Total(recent) == Total(recent[..i]) + recent[i].bytes + Total(recent[i + 1..])
  {
    var first, rest := recent[..i + 1], recent[i + 1..];
    TotalOfAppend(first, rest);
    assert first + rest == recent;
    assert first[..|first| - 1] == recent[..i] && first[|first| - 1] == recent[i];
  }

  lemma WithoutIsRest<Rows>(recent: seq<Entry<Rows>>, key: Key)
    requires Distinct(recent)
    ensures Distinct(Without(recent, key))
    ensures forall e :: e in Without(recent, key) <==> e in recent && e.key != key
  {
    var i := Position(recent, key);
    if i < |recent| {
      assert recent == recent[..i] + [recent[i]] + recent[i + 1..];
    }
  }

  lemma ShorterIsDistinct<Rows>(recent: seq<Entry<Rows>>)
    requires Distinct(recent) && recent != []
    ensures Distinct(recent[..|recent| - 1])
    ensures forall e :: e in recent[..|recent| - 1] <==> e in recent && e.key != recent[|recent| - 1].key
  {
    assert recent == recent[..|recent| - 1] + [recent[|recent| - 1]];
  }

  lemma FrontIsDistinct<Rows>(entry: Entry<Rows>, rest: seq<Entry<Rows>>)
    requires Distinct(rest) && forall e :: e in rest ==> e.key != entry.key
    ensures Distinct([entry] + rest)
  {
  }

  lemma FittingIsPart<Rows>(recent: seq<Entry<Rows>>, bytes: nat)
    requires Distinct(recent)
    ensures Distinct(Fitting(recent, bytes))
    ensures forall e :: e in Fitting(recent, bytes) ==> e in recent
    ensures Total(Fitting(recent, bytes)) <= bytes
  {
    FittingIsLongest(recent, bytes);
  }

  lemma GetKeeps<Rows>(recent: seq<Entry<Rows>>, key: Key, maxBytes: nat)
    requires Distinct(recent) && Total(recent) <= maxBytes
    ensures var after := After(recent, Got(key), maxBytes);
            Distinct(after) && Total(after) == Total(recent) && forall e :: e in after <==> e in recent
  {
    WithoutIsRest(recent, key);
    var i := Position(recent, key);
    if i < |recent| {
      TotalWithout(recent, i);
      TotalOfAppend([recent[i]], Without(recent, key));
      FrontIsDistinct(recent[i], Without(recent, key));
      SameButFront(recent, key);
    }
  }

  lemma SameButFront<Rows>(recent: seq<Entry<Rows>>, key: Key)
    requires Distinct(recent) && Position(recent, key) < |recent|
    ensures forall e :: e in [recent[Position(recent, key)]] + Without(recent, key) <==> e in recent
  {
    WithoutIsRest(recent, key);
    var i := Position(recent, key);
    forall e | e in recent
      ensures e in [recent[i]] + Without(recent, key)
    {
      if e.key == key {
        var j :| 0 <= j < |recent| && recent[j] == e;
        assert j == i;
      } else {
        assert e in Without(recent, key);
      }
    }
  }

  lemma PutKeeps<Rows>(recent: seq<Entry<Rows>>, entry: Entry<Rows>, maxBytes: nat)
    requires Distinct(recent) && entry.bytes <= maxBytes
    ensures var after := After(recent, Kept(entry), maxBytes);
            && Distinct(after)
            && Total(after) <= maxBytes
            && (forall e :: e in after ==> e == entry || (e in recent && e.key != entry.key))
  {
    var all := [entry] + Without(recent, entry.key);
    FrontIsFresh(recent, entry);
    FittingIsPart(all, maxBytes);
    assert After(recent, Kept(entry), maxBytes) == Fitting(all, maxBytes);
  }

  lemma FrontIsFresh<Rows>(recent: seq<Entry<Rows>>, entry: Entry<Rows>)
    requires Distinct(recent)
    ensures var all := [entry] + Without(recent, entry.key);
            Distinct(all) && forall e :: e in all ==> e == entry || (e in recent && e.key != entry.key)
  {
    WithoutIsRest(recent, entry.key);
    FrontIsDistinct(entry, Without(recent, entry.key));
  }

  lemma EvictStep<Rows>(recent: seq<Entry<Rows>>, entries: map<Key, Entry<Rows>>, maxBytes: nat)
    requires Distinct(recent) && Indexed(recent, entries) && Total(recent) > maxBytes
    ensures recent != []
    ensures Distinct(recent[..|recent| - 1])
    ensures Indexed(recent[..|recent| - 1], entries - {recent[|recent| - 1].key})
    ensures Total(recent[..|recent| - 1]) == Total(recent) - recent[|recent| - 1].bytes
    ensures Fitting(recent[..|recent| - 1], maxBytes) == Fitting(recent, maxBytes)
  {
    ShorterIsDistinct(recent);
    IndexedShorter(recent, entries, recent[|recent| - 1].key, recent[..|recent| - 1]);
  }

  /** Over every sequence of gets and puts, the entries take at most maxBytes, no key has two, and an
      entry is the one last put under its key. */
  lemma {:induction false} HoldsLastKept<Rows>(uses: seq<Use<Rows>>, maxBytes: nat)
    ensures Total(AfterAll(uses, maxBytes)) <= maxBytes
    ensures Distinct(AfterAll(uses, maxBytes))
    ensures forall e :: e in AfterAll(uses, maxBytes) ==> LastKept(uses, e.key, maxBytes) == Hit(e)
  {
    if uses != [] {
      var before := uses[..|uses| - 1];
      HoldsLastKept(before, maxBytes);
      match uses[|uses| - 1]
      case Got(key) => GetKeeps(AfterAll(before, maxBytes), key, maxBytes);
      case Kept(entry) =>
        if entry.bytes <= maxBytes {
          PutKeeps(AfterAll(before, maxBytes), entry, maxBytes);
        }
    }
  }

  /** The entry just put stays, and with it every entry used since any other it kept. */
  lemma PutStays<Rows>(recent: seq<Entry<Rows>>, entry: Entry<Rows>, maxBytes: nat)
    requires entry.bytes <= maxBytes
    ensures |After(recent, Kept(entry), maxBytes)| > 0 && After(recent, Kept(entry), maxBytes)[0] == entry
  {
    var all := [entry] + Without(recent, entry.key);
    FittingIsLongest(all, maxBytes);
    assert all[..1] == [entry];
    assert Total([entry]) == entry.bytes;
  }

  /** A get puts the entry it finds in front of the others, which stay in their order, and one that finds
      none changes nothing. */
  lemma GetMovesToFront<Rows>(recent: seq<Entry<Rows>>, key: Key, maxBytes: nat)
    requires Distinct(recent)
    ensures forall i :: 0 <= i < |recent| && recent[i].key == key ==>
              After(recent, Got(key), maxBytes) == [recent[i]] + (recent[..i] + recent[i + 1..])
    ensures (forall e :: e in recent ==> e.key != key) ==> After(recent, Got(key), maxBytes) == recent
  {
  }

  /** The entries without the key's, if it has one. */
  ghost predicate IsRest<Rows>(rest: seq<Entry<Rows>>, recent: seq<Entry<Rows>>, key: Key) {
    && (forall i :: 0 <= i < |recent| && recent[i].key == key ==> rest == recent[..i] + recent[i + 1..])
    && ((forall e :: e in recent ==> e.key != key) ==> rest == recent)
  }

  /** kept is the longest part of all, from the front, that takes at most the bytes. */
  ghost predicate IsLongest<Rows>(kept: seq<Entry<Rows>>, all: seq<Entry<Rows>>, bytes: nat) {
    kept <= all && Total(kept) <= bytes && forall n :: |kept| < n <= |all| ==> Total(all[..n]) > bytes
  }

  /** A put drops entries from the last on, and no more than it must: of the new entry, in its key's place,
      and the others in their order it keeps the longest part, from the front, that takes at most maxBytes.
      One too big changes nothing. */
  lemma PutDropsLast<Rows>(recent: seq<Entry<Rows>>, entry: Entry<Rows>, rest: seq<Entry<Rows>>, maxBytes: nat)
    requires Distinct(recent) && IsRest(rest, recent, entry.key)
    ensures var kept := After(recent, Kept(entry), maxBytes);
            if entry.bytes > maxBytes then kept == recent else IsLongest(kept, [entry] + rest, maxBytes)
  {
    RestIsWithout(recent, entry.key, rest);
    FittingIsLongest([entry] + rest, maxBytes);
  }

  lemma RestIsWithout<Rows>(recent: seq<Entry<Rows>>, key: Key, rest: seq<Entry<Rows>>)
    requires Distinct(recent) && IsRest(rest, recent, key)
    ensures rest == Without(recent, key)
  {
  }

  /** In a sequence of uses, what was put last is first. */
  lemma LastPutIsFirst<Rows>(uses: seq<Use<Rows>>, maxBytes: nat)
    requires uses != [] && uses[|uses| - 1].Kept? && uses[|uses| - 1].entry.bytes <= maxBytes
    ensures var recent := AfterAll(uses, maxBytes); recent != [] && recent[0] == uses[|uses| - 1].entry
  {
    PutStays(AfterAll(uses[..|uses| - 1], maxBytes), uses[|uses| - 1].entry, maxBytes);
  }

  /** When a key was last used: got, or put with an entry small enough to keep; -1 for never. */
  function LastUse<Rows>(uses: seq<Use<Rows>>, key: Key, maxBytes: nat): (at: int)
    ensures -1 <= at < |uses|
  {
    if uses == [] then -1
    else
      var n := |uses| - 1;
      if uses[n] == Got(key) || (uses[n].Kept? && uses[n].entry.key == key && uses[n].entry.bytes <= maxBytes) then n
      else LastUse(uses[..n], key, maxBytes)
  }

  ghost predicate LatestFirst<Rows>(recent: seq<Entry<Rows>>, uses: seq<Use<Rows>>, maxBytes: nat) {
    forall i, j :: 0 <= i < j < |recent| ==>
      LastUse(uses, recent[i].key, maxBytes) > LastUse(uses, recent[j].key, maxBytes)
  }

  /** Over every sequence of gets and puts, the entries are in the order of their last uses, the latest first:
      what a put drops first is what was used least recently. */
  lemma {:induction false} InOrderOfUse<Rows>(uses: seq<Use<Rows>>, maxBytes: nat)
    ensures LatestFirst(AfterAll(uses, maxBytes), uses, maxBytes)
  {
    if uses != [] {
      var before, use := uses[..|uses| - 1], uses[|uses| - 1];
      InOrderOfUse(before, maxBytes);
      HoldsLastKept(before, maxBytes);
      UseKeepsOrder(AfterAll(before, maxBytes), before, use, maxBytes);
      assert before + [use] == uses;
    }
  }

  lemma UseKeepsOrder<Rows>(recent: seq<Entry<Rows>>, before: seq<Use<Rows>>, use: Use<Rows>, maxBytes: nat)
    requires Distinct(recent) && LatestFirst(recent, before, maxBytes)
    ensures LatestFirst(After(recent, use, maxBytes), before + [use], maxBytes)
  {
    match use
    case Got(key) =>
      var i := Position(recent, key);
      if i < |recent| {
        FrontIsLatest(recent, before, use, recent[i], maxBytes);
      } else {
        OthersAsWere(recent, before, use, maxBytes);
      }
    case Kept(entry) =>
      if entry.bytes <= maxBytes {
        FrontIsLatest(recent, before, use, entry, maxBytes);
        FittingIsLongest([entry] + Without(recent, entry.key), maxBytes);
      } else {
        OthersAsWere(recent, before, use, maxBytes);
      }
  }

  lemma OthersAsWere<Rows>(recent: seq<Entry<Rows>>, before: seq<Use<Rows>>, use: Use<Rows>, maxBytes: nat)
    requires LatestFirst(recent, before, maxBytes)
    requires use.Got? ==> forall e :: e in recent ==> e.key != use.key
    requires use.Kept? ==> use.entry.bytes > maxBytes || forall e :: e in recent ==> e.key != use.entry.key
    ensures LatestFirst(recent, before + [use], maxBytes)
  {
    assert (before + [use])[..|before|] == before;
    forall i | 0 <= i < |recent|
      ensures LastUse(before + [use], recent[i].key, maxBytes) == LastUse(before, recent[i].key, maxBytes)
    {
      assert recent[i] in recent;
    }
  }

  lemma FrontIsLatest<Rows>(recent: seq<Entry<Rows>>, before: seq<Use<Rows>>, use: Use<Rows>, front: Entry<Rows>,
                            maxBytes: nat)
    requires Distinct(recent) && LatestFirst(recent, before, maxBytes)
    requires use == Got(front.key) || (use.Kept? && use.entry == front && front.bytes <= maxBytes)
    ensures LatestFirst([front] + Without(recent, front.key), before + [use], maxBytes)
  {
    var rest := Without(recent, front.key);
    WithoutIsRest(recent, front.key);
    WithoutInOrder(recent, before, front.key, maxBytes);
    OthersAsWere(rest, before, use, maxBytes);
    LastIsLatest(before, use, front.key, maxBytes);
    FrontBeforeRest(front, rest, before + [use], maxBytes);
  }

  lemma WithoutInOrder<Rows>(recent: seq<Entry<Rows>>, uses: seq<Use<Rows>>, key: Key, maxBytes: nat)
    requires LatestFirst(recent, uses, maxBytes)
    ensures LatestFirst(Without(recent, key), uses, maxBytes)
  {
  }

  lemma LastIsLatest<Rows>(before: seq<Use<Rows>>, use: Use<Rows>, key: Key, maxBytes: nat)
    requires use == Got(key) || (use.Kept? && use.entry.key == key && use.entry.bytes <= maxBytes)
    ensures LastUse(before + [use], key, maxBytes) == |before|
    ensures forall k :: k != key ==> LastUse(before + [use], k, maxBytes) < |before|
  {
    assert (before + [use])[..|before|] == before;
  }

  lemma FrontBeforeRest<Rows>(front: Entry<Rows>, rest: seq<Entry<Rows>>, uses: seq<Use<Rows>>, maxBytes: nat)
    requires LatestFirst(rest, uses, maxBytes)
    requires forall e :: e in rest ==> LastUse(uses, e.key, maxBytes) < LastUse(uses, front.key, maxBytes)
    ensures LatestFirst([front] + rest, uses, maxBytes)
  {
  }

  /** entries finds each entry by its key. */
  ghost predicate Indexed<Rows>(recent: seq<Entry<Rows>>, entries: map<Key, Entry<Rows>>) {
    && (forall key :: key in entries ==> entries[key].key == key && entries[key] in recent)
    && (forall e :: e in recent ==> e.key in entries && entries[e.key] == e)
  }

  lemma IndexedWithFront<Rows>(recent: seq<Entry<Rows>>, entries: map<Key, Entry<Rows>>,
                               entry: Entry<Rows>, rest: seq<Entry<Rows>>)
    requires Indexed(recent, entries)
    requires forall e :: e in rest <==> e in recent && e.key != entry.key
    ensures Indexed([entry] + rest, entries[entry.key := entry])
  {
    forall key | key in entries && key != entry.key
      ensures entries[key] in [entry] + rest
    {
      assert entries[key] in rest;
    }
    assert entry in [entry] + rest;
  }

  lemma IndexedShorter<Rows>(recent: seq<Entry<Rows>>, entries: map<Key, Entry<Rows>>,
                             evicted: Key, rest: seq<Entry<Rows>>)
    requires Indexed(recent, entries)
    requires forall e :: e in rest <==> e in recent && e.key != evicted
    ensures Indexed(rest, entries - {evicted})
  {
  }

  lemma IndexedSame<Rows>(recent: seq<Entry<Rows>>, entries: map<Key, Entry<Rows>>, same: seq<Entry<Rows>>)
    requires Indexed(recent, entries)
    requires forall e :: e in same <==> e in recent
    ensures Indexed(same, entries)
  {
  }

  lemma FoundWhenIndexed<Rows>(recent: seq<Entry<Rows>>, entries: map<Key, Entry<Rows>>, key: Key)
    requires Indexed(recent, entries)
    ensures key in entries <==> Position(recent, key) < |recent|
    ensures key in entries ==> recent[Position(recent, key)] == entries[key]
  {
    if key in entries {
      assert entries[key] in recent;
    }
    var i := Position(recent, key);
    if i < |recent| {
      assert recent[i] in recent;
    }
  }

  /** An entry put in front, before any is dropped. */
  lemma FrontPut<Rows>(recent: seq<Entry<Rows>>, entries: map<Key, Entry<Rows>>, entry: Entry<Rows>)
    requires Distinct(recent) && Indexed(recent, entries)
    ensures var all := [entry] + Without(recent, entry.key);
            Distinct(all) && Indexed(all, entries[entry.key := entry])
  {
    WithoutIsRest(recent, entry.key);
    FrontIsDistinct(entry, Without(recent, entry.key));
    IndexedWithFront(recent, entries, entry, Without(recent, entry.key));
  }

  lemma FrontPutTotal<Rows>(recent: seq<Entry<Rows>>, entries: map<Key, Entry<Rows>>, entry: Entry<Rows>)
    requires Indexed(recent, entries)
    ensures entry.key !in entries ==> Without(recent, entry.key) == recent
    ensures entry.key in entries ==> Total(recent) == Total(Without(recent, entry.key)) + entries[entry.key].bytes
    ensures Total([entry] + Without(recent, entry.key)) == entry.bytes + Total(Without(recent, entry.key))
  {
    FoundWhenIndexed(recent, entries, entry.key);
    if entry.key in entries {
      TotalWithout(recent, Position(recent, entry.key));
    }
    TotalOfAppend([entry], Without(recent, entry.key));
    assert [entry][..0] == [];
  }

  class BinCache<Rows> {
    const maxBytes: nat
    var bytes: nat
    /** The most recently used first. */
    var recent: seq<Entry<Rows>>
    var entries: map<Key, Entry<Rows>>

    ghost predicate Valid()
      reads this
    {
      && Distinct(recent)
      && bytes == Total(recent) <= maxBytes
      && Indexed(recent, entries)
    }

    constructor (maxBytes: nat)
      ensures Valid() && this.maxBytes == maxBytes && recent == []
    {
      this.maxBytes := maxBytes;
      bytes := 0;
      recent := [];
      entries := map[];
    }

    method Get(key: Key) returns (found: Found<Rows>)
      requires Valid()
      modifies this`recent
      ensures Valid()
      ensures recent == After(old(recent), Got(key), maxBytes)
      ensures forall e :: e in recent <==> e in old(recent)
      ensures found == if key in entries then Hit(entries[key].rows) else Miss
    {
      if key !in entries {
        return Miss;
      }
      var element := entries[key];
      FoundWhenIndexed(recent, entries, key);
      GetKeeps(recent, key, maxBytes);
      IndexedSame(recent, entries, [element] + Without(recent, key));
      recent := [element] + Without(recent, key);
      return Hit(element.rows);
    }

    method Put(key: Key, rows: Rows, size: nat)
      requires Valid()
      modifies this
      ensures Valid()
      ensures recent == After(old(recent), Kept(Entry(key, rows, size)), maxBytes)
    {
      var entry := Entry(key, rows, size);
      if entry.bytes > maxBytes {
        return;
      }
      FrontPut(recent, entries, entry);
      FrontPutTotal(recent, entries, entry);
      if key in entries {
        bytes := bytes - entries[key].bytes;
        recent := Without(recent, key);
      }
      recent := [entry] + recent;
      entries := entries[key := entry];
      bytes := bytes + entry.bytes;
      EvictToFit();
    }

    /** Drops the least recently used until the rest fits. */
    method EvictToFit()
      requires Distinct(recent) && bytes == Total(recent) && Indexed(recent, entries)
      modifies this
      ensures Valid()
      ensures recent == Fitting(old(recent), maxBytes)
    {
      ghost var fitting := Fitting(recent, maxBytes);
      while bytes > maxBytes
        invariant Distinct(recent) && bytes == Total(recent) && Indexed(recent, entries)
        invariant Fitting(recent, maxBytes) == fitting
        decreases |recent|
      {
        EvictStep(recent, entries, maxBytes);
        var evicted := recent[|recent| - 1];
        recent := recent[..|recent| - 1];
        entries := entries - {evicted.key};
        bytes := bytes - evicted.bytes;
      }
      AllFit(recent, maxBytes);
    }
  }
}

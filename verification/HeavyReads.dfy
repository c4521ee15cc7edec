/** The slots heavy Log reads hold while they run (handler/logs_heavy_reads.go). A read is told apart by
    its id, as the source's by its pointer; calling its cancel is a line in a list of calls. */
module HeavyReads {

  /** key is the Query and range; no owner is "". */
  datatype Read = Read(id: nat, key: string, owner: string)

  type Held = map<string, set<Read>>

  /** Whether r is a read that read replaces: its owner's, of another Query or range. */
  predicate Replaces(read: Read, r: Read) {
    read.owner != "" && r.owner == read.owner && r.key != read.key
  }

  /** The reads read replaces. */
  ghost function Replaced(held: Held, read: Read): set<Read> {
    ReplacedIn(held, read, held.Keys)
  }

  /** Those of some slots. */
  ghost function ReplacedIn(held: Held, read: Read, keys: set<string>): set<Read> {
    set k, r | k in keys && k in held && r in held[k] && Replaces(read, r) :: r
  }

  /** The slots only they hold. */
  ghost function Freed(held: Held, read: Read): set<string> {
    FreedIn(held, read, held.Keys)
  }

  ghost function FreedIn(held: Held, read: Read, keys: set<string>): set<string> {
    set k | k in keys && k in held && forall r :: r in held[k] ==> Replaces(read, r)
  }

  ghost predicate Lists(list: seq<Read>, all: set<Read>) {
    && (forall i, j :: 0 <= i < j < |list| ==> list[i] != list[j])
    && (forall r :: r in list <==> r in all)
  }

  lemma {:induction false} ListsCount(list: seq<Read>, all: set<Read>)
    requires Lists(list, all)
    ensures |list| == |all|
  {
    if list == [] {
      assert all == {};
    } else {
      assert list == [list[0]] + list[1..];
      ListsCount(list[1..], all - {list[0]});
    }
  }

  ghost function SetOf(list: seq<Read>): set<Read> {
    set r | r in list
  }

  ghost function OwnedBy(all: set<Read>, owner: string): set<Read> {
    set r | r in all && r.owner == owner
  }

  /** An owner's reads among some. */
  method FindOwned(all: set<Read>, owner: string) returns (theirs: seq<Read>)
    ensures Lists(theirs, OwnedBy(all, owner))
  {
    theirs := [];
    var left := all;
    while left != {}
      invariant left <= all
      invariant Lists(theirs, OwnedBy(all - left, owner))
      decreases |left|
    {
      var r :| r in left;
      assert r !in theirs;
      left := left - {r};
      if r.owner == owner {
        theirs := theirs + [r];
      }
    }
    assert all - {} == all;
  }

  /** All of some reads are an owner's just when as many are. */
  lemma AllOwned(all: set<Read>, owner: string)
    ensures |OwnedBy(all, owner)| == |all| <==> forall r :: r in all ==> r.owner == owner
  {
    var owned := OwnedBy(all, owner);
    assert all == owned + (all - owned);
    if |owned| == |all| {
      assert all - owned == {};
    } else {
      assert all != owned;
    }
  }

  lemma InReplaced(held: Held, read: Read, keys: set<string>, q: Read)
    requires WellHeld(held)
    ensures q in ReplacedIn(held, read, keys) <==>
      q.key in keys && q.key in held && q in held[q.key] && Replaces(read, q)
  {
  }

  /** The slot's reads that read replaces. */
  ghost function ReplacedAt(held: Held, read: Read, key: string): set<Read>
    requires key in held
  {
    if read.owner != "" && key != read.key then OwnedBy(held[key], read.owner) else {}
  }

  /** One slot's part in what a read replaces and frees. */
  lemma NextSlot(held: Held, read: Read, done: set<string>, key: string)
    requires WellHeld(held) && key in held && key !in done
    ensures ReplacedIn(held, read, done + {key}) == ReplacedIn(held, read, done) + ReplacedAt(held, read, key)
    ensures ReplacedIn(held, read, done) !! ReplacedAt(held, read, key)
    ensures FreedIn(held, read, done + {key})
         == FreedIn(held, read, done) + (if ReplacedAt(held, read, key) == held[key] then {key} else {})
    ensures key !in FreedIn(held, read, done)
  {
    forall q
      ensures q in ReplacedAt(held, read, key) <==> q.key == key && q in held[key] && Replaces(read, q)
      ensures q in ReplacedIn(held, read, done) <==>
                q.key in done && q.key in held && q in held[q.key] && Replaces(read, q)
      ensures q in ReplacedIn(held, read, done + {key}) <==>
                q.key in done + {key} && q.key in held && q in held[q.key] && Replaces(read, q)
    {
      InReplaced(held, read, done, q);
      InReplaced(held, read, done + {key}, q);
    }
    assert (forall r :: r in held[key] ==> Replaces(read, r)) <==> ReplacedAt(held, read, key) == held[key];
  }

  /** Whether a read gets a slot; 0 slots cap none. */
  ghost predicate HasRoom(held: Held, read: Read, slots: nat) {
    slots == 0 || read.key in held || |held| - |Freed(held, read)| < slots
  }

  /** The slots without some reads; those no one is left in are no longer held. */
  ghost function Without(held: Held, gone: set<Read>): Held {
    map k | k in held && held[k] - gone != {} :: held[k] - gone
  }

  function Joined(held: Held, read: Read): Held {
    held[read.key := (if read.key in held then held[read.key] else {}) + {read}]
  }

  /** What a read that gets a slot leaves. */
  ghost function Taken(held: Held, read: Read): Held {
    Joined(Without(held, Replaced(held, read)), read)
  }

  /** Every slot held is held by reads of its Query and range. */
  ghost predicate WellHeld(held: Held) {
    && (forall k :: k in held ==> held[k] != {})
    && (forall k, r :: k in held && r in held[k] ==> r.key == k)
  }

  /** An owner's reads share one slot. */
  ghost predicate OneSlotEach(held: Held) {
    forall j, k, q, r :: j in held && k in held && q in held[j] && r in held[k] && q.owner == r.owner != "" ==> j == k
  }

  lemma WithoutNone(held: Held)
    requires WellHeld(held)
    ensures Without(held, {}) == held
  {
    assert forall k :: k in held ==> held[k] - {} == held[k];
  }

  /** A read gives back its share of its slot, and a slot no one is left in. */
  lemma WithoutOne(held: Held, gone: set<Read>, r: Read)
    requires WellHeld(held)
    ensures var h := Without(held, gone);
            Without(held, gone + {r})
              == if r.key !in h then h
                 else if h[r.key] - {r} == {} then h - {r.key}
                 else h[r.key := h[r.key] - {r}]
  {
    var h, next := Without(held, gone), Without(held, gone + {r});
    forall k | k in held
      ensures held[k] - (gone + {r}) == held[k] - gone - {r}
      ensures k != r.key ==> held[k] - gone - {r} == held[k] - gone
    {
    }
    assert forall k :: k in next ==> k in h && next[k] == h[k] - {r};
    assert forall k :: k in h && k != r.key ==> k in next && next[k] == h[k];
  }

  lemma ListsBoth(a: seq<Read>, b: seq<Read>, all: set<Read>, more: set<Read>)
    requires Lists(a, all) && Lists(b, more) && all !! more
    ensures Lists(a + b, all + more)
  {
    forall i, j | 0 <= i < j < |a + b|
      ensures (a + b)[i] != (a + b)[j]
    {
      if i < |a| <= j {
        assert a[i] in a && b[j - |a|] in b;
      }
    }
  }

  ghost predicate FoundSoFar(held: Held, read: Read, done: set<string>, replaced: seq<Read>, freed: nat) {
    Lists(replaced, ReplacedIn(held, read, done)) && freed == |FreedIn(held, read, done)|
  }

  lemma FoundMore(held: Held, read: Read, done: set<string>, key: string, replaced: seq<Read>, freed: nat,
                  theirs: seq<Read>, all: bool)
    requires WellHeld(held) && key in held && key !in done && FoundSoFar(held, read, done, replaced, freed)
    requires Lists(theirs, ReplacedAt(held, read, key)) && (all <==> ReplacedAt(held, read, key) == held[key])
    ensures FoundSoFar(held, read, done + {key}, replaced + theirs, if all then freed + 1 else freed)
  {
    NextSlot(held, read, done, key);
    ListsBoth(replaced, theirs, ReplacedIn(held, read, done), ReplacedAt(held, read, key));
  }

  lemma ListedNext(list: seq<Read>, i: nat)
    requires i < |list|
    ensures list[..i + 1] == list[..i] + [list[i]]
    ensures SetOf(list[..i + 1]) == SetOf(list[..i]) + {list[i]}
  {
    assert list[..i + 1] == list[..i] + [list[i]];
  }

  lemma WithoutTwice(held: Held, gone: set<Read>, more: set<Read>)
    ensures Without(Without(held, gone), more) == Without(held, gone + more)
  {
    assert forall k :: k in held ==> held[k] - gone - more == held[k] - (gone + more);
  }

  lemma JoinedHeld(held: Held, read: Read)
    requires WellHeld(held)
    ensures WellHeld(Joined(held, read))
  {
  }

  lemma FreedFewer(held: Held, read: Read)
    ensures |Freed(held, read)| <= |held|
  {
    assert held.Keys == Freed(held, read) + (held.Keys - Freed(held, read));
  }

  class HeavyReadSlots {
    const slots: nat
    var held: Held
    /** The reads stopped, in the order their cancels were called. */
    var cancelled: seq<Read>

    constructor (slots: nat)
      ensures this.slots == slots && held == map[] && cancelled == []
    {
      this.slots := slots;
      held := map[];
      cancelled := [];
    }

    /** drop */
    method Drop(read: Read)
      requires WellHeld(held)
      modifies this`held
      ensures held == Without(old(held), {read}) && WellHeld(held)
    {
      WithoutNone(held);
      WithoutOne(held, {}, read);
      assert {} + {read} == {read};
      if read.key in held {
        var left := held[read.key] - {read};
        if left == {} {
          held := held - {read.key};
        } else {
          held := held[read.key := left];
        }
      }
    }

    /** A slot's reads that read replaces, and whether they are all it has. */
    method FindInSlot(read: Read, key: string) returns (theirs: seq<Read>, all: bool)
      requires WellHeld(held) && key in held
      ensures Lists(theirs, ReplacedAt(held, read, key))
      ensures all <==> ReplacedAt(held, read, key) == held[key]
    {
      if read.owner == "" || key == read.key {
        return [], false;
      }
      theirs := FindOwned(held[key], read.owner);
      ListsCount(theirs, OwnedBy(held[key], read.owner));
      AllOwned(held[key], read.owner);
      all := |theirs| == |held[key]|;
    }

    /** The reads a read replaces, and how many slots that frees. */
    method FindReplaced(read: Read) returns (replaced: seq<Read>, freed: nat)
      requires WellHeld(held)
      ensures Lists(replaced, Replaced(held, read))
      ensures freed == |Freed(held, read)|
    {
      replaced, freed := [], 0;
      ghost var done: set<string> := {};
      var keys := held.Keys;
      assert ReplacedIn(held, read, {}) == {};
      while keys != {}
        invariant keys <= held.Keys && done == held.Keys - keys
        invariant FoundSoFar(held, read, done, replaced, freed)
        decreases |keys|
      {
        var key :| key in keys;
        var theirs, all := FindInSlot(read, key);
        FoundMore(held, read, done, key, replaced, freed, theirs, all);
        replaced := replaced + theirs;
        if all {
          freed := freed + 1;
        }
        keys := keys - {key};
        done := done + {key};
      }
      assert done == held.Keys;
    }

    /** Stops reads, each in turn: it gives back its share of its slot, and its cancel is called. */
    method StopAll(replaced: seq<Read>)
      requires WellHeld(held)
      modifies this
      ensures held == Without(old(held), SetOf(replaced)) && WellHeld(held)
      ensures cancelled == old(cancelled) + replaced
    {
      WithoutNone(held);
      assert SetOf(replaced[..0]) == {};
      for i := 0 to |replaced|
        invariant held == Without(old(held), SetOf(replaced[..i]))
        invariant WellHeld(held)
        invariant cancelled == old(cancelled) + replaced[..i]
      {
        ListedNext(replaced, i);
        WithoutTwice(old(held), SetOf(replaced[..i]), {replaced[i]});
        Drop(replaced[i]);
        cancelled := cancelled + [replaced[i]];
      }
      assert replaced[..|replaced|] == replaced;
    }

    /** take: Take where read has no owner, and Replace where it has. */
    method Take(read: Read) returns (ok: bool)
      requires WellHeld(held)
      modifies this
      ensures ok <==> HasRoom(old(held), read, slots)
      ensures held == if ok then Taken(old(held), read) else old(held)
      ensures WellHeld(held)
      ensures !ok ==> cancelled == old(cancelled)
      ensures ok ==> old(cancelled) <= cancelled
                     && Lists(cancelled[|old(cancelled)|..], Replaced(old(held), read))
    {
      var replaced, freed := FindReplaced(read);
      FreedFewer(held, read);
      if slots > 0 && read.key !in held && |held| - freed >= slots {
        return false;
      }
      StopAll(replaced);
      assert SetOf(replaced) == Replaced(old(held), read);
      assert cancelled[|old(cancelled)|..] == replaced;
      JoinedHeld(held, read);
      held := Joined(held, read);
      return true;
    }
  }

  // Over every sequence of takes, replacements and releases.

  /** A take of a new read, its id the next, or a release of a read given out, perhaps again. */
  datatype Action = TakeOne(key: string, owner: string) | Release(id: nat)

  /** given is the reads that got a slot, by id; stopped, those cancelled, as often as they were. */
  datatype State = State(held: Held, next: nat, given: map<nat, Read>, stopped: multiset<Read>)

  /** No slot held. */
  ghost function Start(): (s: State)
    ensures forall slots :: Inv(s, slots)
  {
    State(map[], 0, map[], multiset{})
  }

  ghost function Apply(s: State, a: Action, slots: nat): State {
    match a
    case TakeOne(key, owner) =>
      var read := Read(s.next, key, owner);
      if HasRoom(s.held, read, slots) then
        State(Taken(s.held, read), s.next + 1, s.given[s.next := read], s.stopped + multiset(Replaced(s.held, read)))
      else s.(next := s.next + 1)
    case Release(id) =>
      if id in s.given then s.(held := Without(s.held, {s.given[id]})) else s
  }

  ghost function Run(s: State, actions: seq<Action>, slots: nat): State
    decreases |actions|
  {
    if actions == [] then s else Run(Apply(s, actions[0], slots), actions[1..], slots)
  }

  ghost predicate Holds(held: Held, r: Read) {
    r.key in held && r in held[r.key]
  }

  ghost predicate Inv(s: State, slots: nat) {
    && WellHeld(s.held) && OneSlotEach(s.held)
    && (slots > 0 ==> |s.held| <= slots)
    && GivenInTurn(s)
    && HeldAreGiven(s)
    && StoppedOnce(s)
  }

  lemma TakenHolds(held: Held, read: Read, r: Read)
    requires WellHeld(held)
    ensures WellHeld(Taken(held, read))
    ensures Holds(Taken(held, read), r) <==> r == read || (Holds(held, r) && !Replaces(read, r))
  {
    InReplaced(held, read, held.Keys, r);
  }

  lemma WithoutHolds(held: Held, gone: set<Read>, r: Read)
    requires WellHeld(held)
    ensures WellHeld(Without(held, gone))
    ensures Holds(Without(held, gone), r) <==> Holds(held, r) && r !in gone
  {
    if Holds(held, r) && r !in gone {
      assert r in held[r.key] - gone;
    }
  }

  /** The slots freed are those no one is left in. */
  lemma LeftHeld(held: Held, read: Read)
    requires WellHeld(held)
    ensures Without(held, Replaced(held, read)).Keys == held.Keys - Freed(held, read)
  {
    forall k | k in held
      ensures held[k] - Replaced(held, read) == {} <==> k in Freed(held, read)
    {
      var rest := held[k] - Replaced(held, read);
      forall q | q in held[k]
        ensures q in rest <==> !Replaces(read, q)
      {
        InReplaced(held, read, held.Keys, q);
      }
      if k !in Freed(held, read) {
        var q :| q in held[k] && !Replaces(read, q);
        assert q in rest;
      }
    }
  }

  /** A read that gets a slot leaves no more held than there are. */
  lemma TakenFits(held: Held, read: Read, slots: nat)
    requires WellHeld(held) && slots > 0 && |held| <= slots && HasRoom(held, read, slots)
    ensures |Taken(held, read)| <= slots
  {
    TakenSlots(held, read);
    KeepsRoom(held.Keys, Freed(held, read), read.key, slots);
  }

  /** A read gets a slot just when what it leaves fits: the slots held by then, those of its own Query and
      range and those left after the reads it replaces, are no more than there are. */
  lemma RoomIsFit(held: Held, read: Read, slots: nat)
    requires WellHeld(held) && (slots > 0 ==> |held| <= slots)
    ensures HasRoom(held, read, slots) <==> slots == 0 || |Taken(held, read)| <= slots
  {
    TakenSlots(held, read);
    SlotsLeft(held.Keys, Freed(held, read), read.key);
    assert |Taken(held, read)| == |held.Keys - Freed(held, read) + {read.key}|;
  }

  lemma SlotsLeft(all: set<string>, freed: set<string>, key: string)
    requires freed <= all && (key in all ==> key !in freed)
    ensures |all - freed + {key}| == |all| - |freed| + if key in all then 0 else 1
  {
    var left := all - freed;
    assert all == left + freed;
    if key in all {
      assert left + {key} == left;
    }
  }

  /** A read of a Query and range already read gets in when all slots are taken; one of another whose owner
      reads nothing else, or that has none, just when one is free. */
  lemma RoomWithoutReplacing(held: Held, read: Read, slots: nat)
    requires WellHeld(held)
    ensures read.key in held ==> HasRoom(held, read, slots)
    ensures read.key !in held && (forall r :: Holds(held, r) ==> r.owner != read.owner || r.owner == "") ==>
              (HasRoom(held, read, slots) <==> slots == 0 || |held| < slots)
  {
    if forall r :: Holds(held, r) ==> r.owner != read.owner || r.owner == "" {
      NoneFreed(held, read);
    }
  }

  lemma NoneFreed(held: Held, read: Read)
    requires WellHeld(held) && forall r :: Holds(held, r) ==> r.owner != read.owner || r.owner == ""
    ensures Freed(held, read) == {}
  {
    forall k | k in held
      ensures k !in Freed(held, read)
    {
      var r :| r in held[k];
      assert Holds(held, r);
    }
  }

  lemma TakenSlots(held: Held, read: Read)
    requires WellHeld(held)
    ensures Taken(held, read).Keys == held.Keys - Freed(held, read) + {read.key}
    ensures Freed(held, read) <= held.Keys && (read.key in held ==> read.key !in Freed(held, read))
  {
    LeftHeld(held, read);
    if read.key in held {
      var r :| r in held[read.key];
      assert !Replaces(read, r);
    }
  }

  lemma KeepsRoom(all: set<string>, freed: set<string>, key: string, slots: nat)
    requires freed <= all && |all| <= slots
    requires (key in all && key !in freed) || |all| - |freed| < slots
    ensures |all - freed + {key}| <= slots
  {
    var left := all - freed;
    assert all == left + freed;
    if key in left {
      assert left + {key} == left;
    }
  }

  lemma WithoutFits(held: Held, gone: set<Read>)
    ensures |Without(held, gone)| <= |held|
  {
    assert held.Keys == Without(held, gone).Keys + (held.Keys - Without(held, gone).Keys);
  }

  lemma TakeKeeps(s: State, key: string, owner: string, slots: nat)
    requires Inv(s, slots)
    ensures Inv(Apply(s, TakeOne(key, owner), slots), slots)
  {
    var read := Read(s.next, key, owner);
    if HasRoom(s.held, read, slots) {
      if slots > 0 {
        TakenFits(s.held, read, slots);
      }
      TakeKeepsReads(s, read, slots);
      GivenNext(s, read);
    } else {
      assert Apply(s, TakeOne(key, owner), slots) == s.(next := s.next + 1);
    }
  }

  lemma GivenNext(s: State, read: Read)
    requires GivenInTurn(s) && read.id == s.next
    ensures GivenInTurn(s.(next := s.next + 1, given := s.given[s.next := read]))
  {
  }

  ghost predicate GivenInTurn(s: State) {
    forall id :: id in s.given ==> id < s.next && s.given[id].id == id
  }

  ghost predicate HeldAreGiven(s: State) {
    forall r :: Holds(s.held, r) ==> r.id in s.given && s.given[r.id] == r && s.stopped[r] == 0
  }

  ghost predicate StoppedOnce(s: State) {
    forall r :: r in s.stopped ==> s.stopped[r] == 1 && r.id in s.given && s.given[r.id] == r
  }

  lemma TakeKeepsReads(s: State, read: Read, slots: nat)
    requires Inv(s, slots) && read.id == s.next && HasRoom(s.held, read, slots)
    ensures var after := Apply(s, TakeOne(read.key, read.owner), slots);
            WellHeld(after.held) && OneSlotEach(after.held) && HeldAreGiven(after) && StoppedOnce(after)
  {
    TakenHolds(s.held, read, read);
    TakenOneSlotEach(s.held, read);
    TakenAreGiven(s, read);
  }

  lemma TakenAreGiven(s: State, read: Read)
    requires WellHeld(s.held) && HeldAreGiven(s) && StoppedOnce(s)
    requires read.id == s.next && GivenInTurn(s)
    ensures var after := State(Taken(s.held, read), s.next + 1, s.given[s.next := read],
                               s.stopped + multiset(Replaced(s.held, read)));
            HeldAreGiven(after) && StoppedOnce(after)
  {
    var replaced := Replaced(s.held, read);
    forall r
      ensures Holds(Taken(s.held, read), r) <==> r == read || (Holds(s.held, r) && r !in replaced)
      ensures r in replaced ==> Holds(s.held, r)
      ensures multiset(replaced)[r] == if r in replaced then 1 else 0
    {
      TakenHolds(s.held, read, r);
      InReplaced(s.held, read, s.held.Keys, r);
    }
    assert read !in replaced && read !in s.stopped;
  }

  lemma TakenOneSlotEach(held: Held, read: Read)
    requires WellHeld(held) && OneSlotEach(held)
    ensures OneSlotEach(Taken(held, read))
  {
    var after := Taken(held, read);
    forall j, k, q: Read, r: Read |
      j in after && k in after && q in after[j] && r in after[k] && q.owner == r.owner != ""
      ensures j == k
    {
      TakenHolds(held, read, q);
      TakenHolds(held, read, r);
      assert Holds(after, q) && Holds(after, r);
    }
  }

  lemma ReleaseKeeps(s: State, id: nat, slots: nat)
    requires Inv(s, slots)
    ensures Inv(Apply(s, Release(id), slots), slots)
  {
    if id in s.given {
      var gone := {s.given[id]};
      WithoutFits(s.held, gone);
      WithoutNone(s.held);
      forall r
        ensures Holds(Without(s.held, gone), r) <==> Holds(s.held, r) && r !in gone
      {
        WithoutHolds(s.held, gone, r);
      }
      WithoutOneSlotEach(s.held, gone);
    }
  }

  lemma WithoutOneSlotEach(held: Held, gone: set<Read>)
    requires WellHeld(held) && OneSlotEach(held)
    ensures WellHeld(Without(held, gone)) && OneSlotEach(Without(held, gone))
  {
  }

  lemma StepKeeps(s: State, a: Action, slots: nat)
    requires Inv(s, slots)
    ensures Inv(Apply(s, a, slots), slots)
  {
    match a
    case TakeOne(key, owner) => TakeKeeps(s, key, owner, slots);
    case Release(id) => ReleaseKeeps(s, id, slots);
  }

  /** Over every sequence of takes, replacements and releases, repeated ones among them: the slots held
      are never more than there are, none is empty, an owner's reads share one slot, and each read that
      was stopped was stopped once and holds no slot. */
  lemma {:induction false} RunKeeps(s: State, actions: seq<Action>, slots: nat)
    requires Inv(s, slots)
    ensures Inv(Run(s, actions, slots), slots)
    decreases |actions|
  {
    if actions != [] {
      StepKeeps(s, actions[0], slots);
      RunKeeps(Apply(s, actions[0], slots), actions[1..], slots);
    }
  }

  /** A release gives back that read's share and no other's, and nothing once the read holds none: it was
      released before, or stopped. */
  lemma ReleaseDropsOnlyIts(s: State, id: nat, slots: nat)
    requires Inv(s, slots)
    ensures forall r :: Holds(Apply(s, Release(id), slots).held, r) <==> Holds(s.held, r) && r.id != id
    ensures id in s.given && !Holds(s.held, s.given[id]) ==> Apply(s, Release(id), slots) == s
  {
    if id in s.given {
      forall r
        ensures Holds(Without(s.held, {s.given[id]}), r) <==> Holds(s.held, r) && r.id != id
      {
        WithoutHolds(s.held, {s.given[id]}, r);
      }
      if !Holds(s.held, s.given[id]) {
        WithoutGone(s.held, s.given[id]);
      }
    }
  }

  lemma WithoutGone(held: Held, r: Read)
    requires WellHeld(held) && !Holds(held, r)
    ensures Without(held, {r}) == held
  {
    assert forall k :: k in held ==> held[k] - {r} == held[k];
  }

  lemma TakeStops(s: State, read: Read, slots: nat)
    requires Inv(s, slots) && read.id == s.next && HasRoom(s.held, read, slots)
    ensures var after := Apply(s, TakeOne(read.key, read.owner), slots);
            && (forall r :: Holds(after.held, r) <==> r == read || (Holds(s.held, r) && !Replaces(read, r)))
            && (forall r :: after.stopped[r] == s.stopped[r] + if Holds(s.held, r) && Replaces(read, r) then 1 else 0)
  {
    forall r
      ensures Holds(Taken(s.held, read), r) <==> r == read || (Holds(s.held, r) && !Replaces(read, r))
      ensures r in Replaced(s.held, read) <==> Holds(s.held, r) && Replaces(read, r)
    {
      TakenHolds(s.held, read, r);
      InReplaced(s.held, read, s.held.Keys, r);
    }
  }

  /** The read takes its owner's other reads' place. */
  lemma ReplacesIs(key: string, owner: string, id: nat)
    ensures forall r :: Replaces(Read(id, key, owner), r) <==> owner != "" && r.owner == owner && r.key != key
  {
  }

  /** A read that gets a slot stops exactly its owner's reads of other Queries or ranges, and leaves every
      other read its slot; one that doesn't changes no slot and stops none. */
  lemma TakeStopsOnlyItsOwner(s: State, key: string, owner: string, slots: nat)
    requires Inv(s, slots)
    ensures var read, after := Read(s.next, key, owner), Apply(s, TakeOne(key, owner), slots);
            if HasRoom(s.held, read, slots) then
              && (forall r :: Holds(after.held, r) <==>
                    r == read || (Holds(s.held, r) && !(owner != "" && r.owner == owner && r.key != key)))
              && (forall r :: after.stopped[r] == s.stopped[r]
                                + if Holds(s.held, r) && owner != "" && r.owner == owner && r.key != key then 1 else 0)
            else after.held == s.held && after.stopped == s.stopped
  {
    var read := Read(s.next, key, owner);
    if HasRoom(s.held, read, slots) {
      TakeStops(s, read, slots);
      ReplacesIs(key, owner, s.next);
    }
  }
}

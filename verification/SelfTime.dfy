/** Spans' self times (spanprocessing/spans.go setSelfTimes, covered), in whole microseconds. */
module SelfTime {

  datatype Span = Span(id: string, parent: string, isSegment: bool, start: int, duration: int, selfTime: int)
  {
    function End(): int {
      start + duration
    }

    predicate Has(t: int) {
      start <= t < start + duration
    }
  }

  datatype Interval = Interval(from: int, to: int)

  /** Go's zero time, the start of year 1, which a sweep starts from. */
  const ZERO_TIME: int := -62_135_596_800_000_000

  /** The moments from one to before another. */
  ghost function Moments(from: int, to: int): (m: set<int>)
    ensures forall t :: t in m <==> from <= t < to
    ensures |m| == if from < to then to - from else 0
    decreases if from < to then to - from else 0
  {
    if from >= to then {} else {from} + Moments(from + 1, to)
  }

  ghost predicate InSome(intervals: seq<Interval>, t: int) {
    exists iv :: iv in intervals && iv.from <= t < iv.to
  }

  /** The moments of some intervals, none before year 1. */
  ghost function Swept(intervals: seq<Interval>, from: int, to: int): set<int> {
    set t | t in Moments(from, to) && ZERO_TIME <= t && InSome(intervals, t)
  }

  predicate Sorted(intervals: seq<Interval>) {
    forall i, j :: 0 <= i < j < |intervals| ==> intervals[i].from <= intervals[j].from
  }

  function Placed(intervals: seq<Interval>, iv: Interval): seq<Interval> {
    if intervals == [] || iv.from <= intervals[0].from then [iv] + intervals
    else [intervals[0]] + Placed(intervals[1..], iv)
  }

  lemma {:induction false} PlacedIn(intervals: seq<Interval>, iv: Interval)
    ensures multiset(Placed(intervals, iv)) == multiset(intervals) + multiset{iv}
    ensures forall x :: x in Placed(intervals, iv) <==> x in intervals || x == iv
  {
    if intervals != [] && iv.from > intervals[0].from {
      PlacedIn(intervals[1..], iv);
      assert intervals == [intervals[0]] + intervals[1..];
    }
  }

  lemma {:induction false} PlacedSorted(intervals: seq<Interval>, iv: Interval)
    requires Sorted(intervals)
    ensures Sorted(Placed(intervals, iv))
  {
    if intervals != [] && iv.from > intervals[0].from {
      var rest := Placed(intervals[1..], iv);
      PlacedSorted(intervals[1..], iv);
      PlacedIn(intervals[1..], iv);
      assert forall x :: x in intervals[1..] ==> intervals[0].from <= x.from;
      assert forall x :: x in rest ==> intervals[0].from <= x.from;
    }
  }

  /** Sorted by when they start. */
  method SortByFrom(intervals: seq<Interval>) returns (sorted: seq<Interval>)
    ensures Sorted(sorted) && multiset(sorted) == multiset(intervals)
    ensures forall x :: x in sorted <==> x in intervals
  {
    sorted := [];
    for i := 0 to |intervals|
      invariant Sorted(sorted) && multiset(sorted) == multiset(intervals[..i])
      invariant forall x :: x in sorted <==> x in intervals[..i]
    {
      assert intervals[..i + 1] == intervals[..i] + [intervals[i]];
      PlacedSorted(sorted, intervals[i]);
      PlacedIn(sorted, intervals[i]);
      sorted := Placed(sorted, intervals[i]);
    }
    assert intervals[..|intervals|] == intervals;
  }

  /** How much time intervals of [from, to), sorted, cover, overlaps counted once. */
  method Sweep(intervals: seq<Interval>, from: int, to: int) returns (total: int)
    requires Sorted(intervals) && forall iv :: iv in intervals ==> from <= iv.from < iv.to <= to
    ensures total == |Swept(intervals, from, to)|
  {
    total := 0;
    var reached := ZERO_TIME;
    assert Swept(intervals[..0], from, to) == {};
    for i := 0 to |intervals|
      invariant total == |Swept(intervals[..i], from, to)|
      invariant reached >= ZERO_TIME
      invariant reached == ZERO_TIME || exists j :: 0 <= j < i && intervals[j].to == reached
      invariant forall j :: 0 <= j < i ==> intervals[j].to <= reached
    {
      var iv := intervals[i];
      var start := if iv.from < reached then reached else iv.from;
      SweepNext(intervals, i, reached, from, to);
      if start < iv.to {
        total := total + (iv.to - start);
        reached := iv.to;
      }
    }
    assert intervals[..|intervals|] == intervals;
  }

  /** An interval adds what is after the end of those before it. */
  lemma SweepNext(intervals: seq<Interval>, i: nat, reached: int, from: int, to: int)
    requires Sorted(intervals) && i < |intervals| && reached >= ZERO_TIME
    requires from <= intervals[i].from < intervals[i].to <= to
    requires reached == ZERO_TIME || exists j :: 0 <= j < i && intervals[j].to == reached
    requires forall j :: 0 <= j < i ==> intervals[j].to <= reached
    ensures var start := if intervals[i].from < reached then reached else intervals[i].from;
            |Swept(intervals[..i + 1], from, to)|
              == |Swept(intervals[..i], from, to)| + if start < intervals[i].to then intervals[i].to - start else 0
  {
    var iv := intervals[i];
    var start := if iv.from < reached then reached else iv.from;
    var before, more := Swept(intervals[..i], from, to), Moments(start, iv.to);
    SweptBefore(intervals[..i], reached, from, to);
    forall t
      ensures t in Swept(intervals[..i + 1], from, to) <==> t in before || t in more
    {
      SweptNext(intervals, i, reached, from, to, t);
    }
    SizesAdd(Swept(intervals[..i + 1], from, to), before, more);
  }

  lemma SweptBefore(intervals: seq<Interval>, reached: int, from: int, to: int)
    requires forall j :: 0 <= j < |intervals| ==> intervals[j].to <= reached
    ensures forall t :: t in Swept(intervals, from, to) ==> t < reached
  {
  }

  lemma SizesAdd(all: set<int>, a: set<int>, b: set<int>)
    requires a !! b && forall t :: t in all <==> t in a || t in b
    ensures |all| == |a| + |b|
  {
    assert forall t :: t in all <==> t in a + b;
    assert all == a + b;
  }

  lemma SweptNext(intervals: seq<Interval>, i: nat, reached: int, from: int, to: int, t: int)
    requires Sorted(intervals) && i < |intervals| && reached >= ZERO_TIME
    requires from <= intervals[i].from < intervals[i].to <= to
    requires reached == ZERO_TIME || exists j :: 0 <= j < i && intervals[j].to == reached
    ensures var start := if intervals[i].from < reached then reached else intervals[i].from;
            t in Swept(intervals[..i + 1], from, to) <==>
              t in Swept(intervals[..i], from, to) || start <= t < intervals[i].to
  {
    var iv := intervals[i];
    assert intervals[..i + 1] == intervals[..i] + [iv];
    InSomeMore(intervals[..i], iv, t);
    if ZERO_TIME <= t && iv.from <= t < reached && from <= t < to {
      var j :| 0 <= j < i && intervals[j].to == reached;
      assert intervals[j] in intervals[..i] && intervals[j].from <= t < intervals[j].to;
    }
  }

  lemma InSomeMore(intervals: seq<Interval>, iv: Interval, t: int)
    ensures InSome(intervals + [iv], t) <==> InSome(intervals, t) || iv.from <= t < iv.to
  {
    assert iv in intervals + [iv];
    assert forall x :: x in intervals ==> x in intervals + [iv];
  }

  // A Span's children.

  /** The moments of a Span that lie in some of its children, none before year 1. */
  ghost function CoveredMoments(spans: seq<Span>, parent: nat, children: seq<int>): set<int>
    requires parent < |spans|
  {
    set t | t in Moments(spans[parent].start, spans[parent].End()) && ZERO_TIME <= t && InChild(spans, children, t)
  }

  /** covered: how much of a Span's time its children cover. */
  method Covered(spans: seq<Span>, parent: nat, children: seq<int>) returns (total: int)
    requires parent < |spans| && forall c :: c in children ==> 0 <= c < |spans|
    ensures total == |CoveredMoments(spans, parent, children)|
  {
    var start, end := spans[parent].start, spans[parent].End();
    var intervals: seq<Interval> := [];
    for i := 0 to |children|
      invariant forall iv :: iv in intervals ==> start <= iv.from < iv.to <= end
      invariant forall t :: InSome(intervals, t) <==> start <= t < end && InChild(spans, children[..i], t)
    {
      assert children[..i + 1] == children[..i] + [children[i]] && children[i] in children;
      var from, to := spans[children[i]].start, spans[children[i]].End();
      if from < start {
        from := start;
      }
      if to > end {
        to := end;
      }
      forall t
        ensures InChild(spans, children[..i + 1], t) <==> InChild(spans, children[..i], t) || spans[children[i]].Has(t)
      {
        InChildMore(spans, children[..i], children[i], t);
      }
      if from < to {
        forall t
          ensures InSome(intervals + [Interval(from, to)], t) <==> InSome(intervals, t) || from <= t < to
        {
          InSomeMore(intervals, Interval(from, to), t);
        }
        intervals := intervals + [Interval(from, to)];
      }
    }
    assert children[..|children|] == children;
    var sorted := SortByFrom(intervals);
    total := Sweep(sorted, start, end);
    assert forall t :: InSome(sorted, t) <==> InSome(intervals, t);
    assert Swept(sorted, start, end) == CoveredMoments(spans, parent, children);
  }

  ghost predicate InChild(spans: seq<Span>, children: seq<int>, t: int) {
    exists c :: c in children && 0 <= c < |spans| && spans[c].Has(t)
  }

  lemma InChildMore(spans: seq<Span>, children: seq<int>, child: int, t: int)
    requires 0 <= child < |spans|
    ensures InChild(spans, children + [child], t) <==> InChild(spans, children, t) || spans[child].Has(t)
  {
    assert child in children + [child];
    assert forall c :: c in children ==> c in children + [child];
  }

  /** The index of the last Span of an id. */
  ghost predicate IsLast(spans: seq<Span>, id: string, i: int) {
    && 0 <= i < |spans| && spans[i].id == id
    && forall j :: i < j < |spans| ==> spans[j].id != id
  }

  /** Some other Span than it is the last of its parent's id. */
  ghost predicate HasParent(spans: seq<Span>, c: nat)
    requires c < |spans|
  {
    exists p :: p != c && IsLast(spans, spans[c].parent, p)
  }

  /** A Span but the segment is the child of the last Span of its parent's id, or, where there is none but
      itself, of the first. */
  ghost predicate IsChild(spans: seq<Span>, c: int, parent: int) {
    && 0 <= c < |spans| && !spans[c].isSegment
    && if HasParent(spans, c) then parent != c && IsLast(spans, spans[c].parent, parent) else parent == 0
  }

  /** A Span but the segment is the child of exactly one Span, the segment of none. */
  lemma OneParent(spans: seq<Span>, c: nat)
    requires c < |spans|
    ensures spans[c].isSegment ==> forall p :: !IsChild(spans, c, p)
    ensures !spans[c].isSegment ==>
              exists p :: 0 <= p < |spans| && IsChild(spans, c, p) && forall q :: IsChild(spans, c, q) ==> q == p
  {
    if !spans[c].isSegment && HasParent(spans, c) {
      var p :| p != c && IsLast(spans, spans[c].parent, p);
      OneLast(spans, spans[c].parent, p);
      assert IsChild(spans, c, p);
    } else if !spans[c].isSegment {
      assert IsChild(spans, c, 0);
    }
  }

  lemma OneLast(spans: seq<Span>, id: string, i: int)
    requires IsLast(spans, id, i)
    ensures forall j :: IsLast(spans, id, j) ==> j == i
  {
  }

  /** The moments of a Span that lie in at least one of its children. */
  ghost function ChildMoments(spans: seq<Span>, parent: nat): set<int>
    requires parent < |spans|
  {
    set t | t in Moments(spans[parent].start, spans[parent].End()) && ZERO_TIME <= t
      && exists c :: IsChild(spans, c, parent) && spans[c].Has(t)
  }

  /** A moment of a Span that one of its children has too. */
  ghost predicate InSomeChild(spans: seq<Span>, parent: nat, t: int)
    requires parent < |spans|
  {
    && spans[parent].start <= t < spans[parent].start + spans[parent].duration
    && exists c :: IsChild(spans, c, parent) && spans[c].start <= t < spans[c].start + spans[c].duration
  }

  /** A Span's self time. */
  ghost function SelfTimeOf(spans: seq<Span>, i: nat): int
    requires i < |spans|
  {
    spans[i].duration - |ChildMoments(spans, i)|
  }

  /** Where a Span starts at or after year 1, its self time is its duration less all its moments that some
      child has. */
  lemma AllCoveredMoments(spans: seq<Span>, parent: nat)
    requires parent < |spans| && spans[parent].start >= ZERO_TIME
    ensures SelfTimeOf(spans, parent)
         == spans[parent].duration
              - |set t | t in Moments(spans[parent].start, spans[parent].End()) && InSomeChild(spans, parent, t)|
  {
    assert ChildMoments(spans, parent)
        == set t | t in Moments(spans[parent].start, spans[parent].End()) && InSomeChild(spans, parent, t);
  }

  /** However its children overlap, nest or are ordered, a Span's self time is between 0 and its duration. */
  lemma SelfTimeWithin(spans: seq<Span>, i: nat)
    requires i < |spans| && spans[i].duration >= 0
    ensures 0 <= SelfTimeOf(spans, i) <= spans[i].duration
  {
    SubsetIsSmaller(ChildMoments(spans, i), Moments(spans[i].start, spans[i].End()));
  }

  lemma SubsetIsSmaller(a: set<int>, b: set<int>)
    requires a <= b
    ensures |a| <= |b|
  {
    assert b == a + (b - a);
  }

  /** The index of each id's last Span. */
  method IndexById(spans: seq<Span>) returns (index: map<string, int>)
    ensures forall id :: id in index <==> exists j :: 0 <= j < |spans| && spans[j].id == id
    ensures forall id :: id in index ==> IsLast(spans, id, index[id])
  {
    index := map[];
    for i := 0 to |spans|
      invariant forall id :: id in index <==> exists j :: 0 <= j < i && spans[j].id == id
      invariant forall id :: id in index ==>
                  && 0 <= index[id] < i && spans[index[id]].id == id
                  && forall j :: index[id] < j < i ==> spans[j].id != id
    {
      index := index[spans[i].id := i];
    }
  }

  /** What the index gives a Span is its parent. */
  lemma IndexedParent(spans: seq<Span>, index: map<string, int>, c: nat, parent: int)
    requires c < |spans| && !spans[c].isSegment
    requires forall id :: id in index <==> exists j :: 0 <= j < |spans| && spans[j].id == id
    requires forall id :: id in index ==> IsLast(spans, id, index[id])
    requires parent == if spans[c].parent in index && index[spans[c].parent] != c then index[spans[c].parent] else 0
    ensures 0 <= parent < |spans| && forall p :: IsChild(spans, c, p) <==> p == parent
  {
    if spans[c].parent in index {
      OneLast(spans, spans[c].parent, index[spans[c].parent]);
    }
  }

  /** Each Span's children, by its index. */
  method ChildrenOf(spans: seq<Span>) returns (children: seq<seq<int>>)
    ensures |children| == |spans|
    ensures forall p, c :: 0 <= p < |spans| ==> (c in children[p] <==> IsChild(spans, c, p))
  {
    var index := IndexById(spans);
    children := seq(|spans|, _ => []);
    for i := 0 to |spans|
      invariant |children| == |spans|
      invariant forall p, c :: 0 <= p < |spans| ==> (c in children[p] <==> c < i && IsChild(spans, c, p))
    {
      if !spans[i].isSegment {
        var parent := if spans[i].parent in index && index[spans[i].parent] != i then index[spans[i].parent] else 0;
        IndexedParent(spans, index, i, parent);
        children := children[parent := children[parent] + [i]];
      }
    }
  }

  /** setSelfTimes, in place. */
  method SetSelfTimes(spans: array<Span>)
    modifies spans
    ensures forall i :: 0 <= i < spans.Length ==>
              spans[i] == old(spans[i]).(selfTime := SelfTimeOf(old(spans[..]), i))
  {
    ghost var was := spans[..];
    var children := ChildrenOf(spans[..]);
    for i := 0 to spans.Length
      invariant SetUpTo(spans[..], was, i)
    {
      var covered := SelfCovered(spans[..], was, i, children[i]);
      SetNext(spans[..], was, i, spans[i].(selfTime := spans[i].duration - covered));
      spans[i] := spans[i].(selfTime := spans[i].duration - covered);
    }
  }

  /** The first Spans have their self times, and the others are as they were. */
  ghost predicate SetUpTo(spans: seq<Span>, was: seq<Span>, n: nat) {
    && |spans| == |was| >= n
    && (forall j :: 0 <= j < n ==> spans[j] == was[j].(selfTime := SelfTimeOf(was, j)))
    && (forall j :: n <= j < |was| ==> spans[j] == was[j])
  }

  lemma SetNext(spans: seq<Span>, was: seq<Span>, n: nat, span: Span)
    requires SetUpTo(spans, was, n) && n < |was| && span == was[n].(selfTime := SelfTimeOf(was, n))
    ensures SetUpTo(spans[n := span], was, n + 1)
  {
  }

  /** How much of a Span's time its children cover, whatever self times are set. */
  method SelfCovered(spans: seq<Span>, ghost was: seq<Span>, i: nat, children: seq<int>) returns (covered: int)
    requires i < |spans| == |was|
    requires forall j :: 0 <= j < |was| ==> spans[j].start == was[j].start && spans[j].duration == was[j].duration
    requires forall c :: c in children <==> IsChild(was, c, i)
    ensures covered == |ChildMoments(was, i)|
  {
    assert forall c :: c in children ==> IsChild(was, c, i);
    covered := Covered(spans, i, children);
    SameMoments(spans, was, i, children);
  }

  /** Self times set before don't change what children cover. */
  lemma SameMoments(spans: seq<Span>, was: seq<Span>, i: nat, children: seq<int>)
    requires i < |spans| == |was|
    requires forall j :: 0 <= j < |was| ==> spans[j].start == was[j].start && spans[j].duration == was[j].duration
    requires forall c :: c in children <==> IsChild(was, c, i)
    ensures CoveredMoments(spans, i, children) == ChildMoments(was, i)
  {
    forall t
      ensures InChild(spans, children, t) <==> exists c :: IsChild(was, c, i) && was[c].Has(t)
    {
      if InChild(spans, children, t) {
        var c :| c in children && 0 <= c < |spans| && spans[c].Has(t);
        assert IsChild(was, c, i) && was[c].Has(t);
      }
      if c :| IsChild(was, c, i) && was[c].Has(t) {
        assert c in children && spans[c].Has(t);
      }
    }
  }
}

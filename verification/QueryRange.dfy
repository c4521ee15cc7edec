/** The time range a Query's head narrows the request's to (logquery/stages.go narrow, narrowBy). */
module QueryRange {
  import opened Basics
  import opened QueryExpr
  import opened QueryHead

  /** [from, to), in microseconds. */
  datatype Range = Range(from: int, to: int)
  {
    predicate Has(t: int) {
      from <= t < to
    }
  }

  /** Go's zero time, the start of year 1: a request without a bound. */
  const ZERO_TIME: int := -62_135_596_800_000_000

  /** The operator that keeps a comparison as it is with its sides swapped. */
  function Flipped(op: CompareOp): CompareOp {
    match op
    case Eq => Eq
    case NE => NE
    case LT => GT
    case LE => GE
    case GT => LT
    case GE => LE
  }

  predicate IsLogTime(x: Expr) {
    x.FieldRef? && x.builtIn && x.name == "time"
  }

  /** narrowBy: the range without times that some test p ands refuses. */
  function NarrowedBy(r: Range, p: Expr): Range
    decreases p
  {
    match p
    case And(x, y) => NarrowedBy(NarrowedBy(r, x), y)
    case Compare(x, op0, y) =>
      var (field, value, op) := if x.Literal? then (y, x, Flipped(op0)) else (x, y, op0);
      if !IsLogTime(field) || !value.Literal? || !value.value.Time? then r
      else
        var at := value.value.at;
        var after := at + 1;
        (match op
         case GT => r.(from := Latest(r.from, after))
         case GE => r.(from := Latest(r.from, at))
         case LT => r.(to := Earliest(r.to, at))
         case LE => r.(to := Earliest(r.to, after))
         case Eq => Range(Latest(r.from, at), Earliest(r.to, after))
         case NE => r)
    case _ => r
  }

  /** A row of a Log with a time. */
  ghost predicate HasTime(row: Row, t: int) {
    Get(row.builtIns, "time") == Some(Time(t))
  }

  lemma FlippedMeans(op: CompareOp, a: Value, b: Value)
    requires a.Time? && b.Time?
    ensures Related(op, a, b) <==> Related(Flipped(op), b, a)
  {
  }

  lemma NarrowedByCompare(r: Range, p: Expr, row: Row, t: int, fns: Functions)
    requires p.Compare? && HasTime(row, t) && Holds(p, row, fns)
    ensures NarrowedBy(r, p).Has(t) <==> r.Has(t)
  {
    if p.x.Literal? {
      if p.x.value.Time? && IsLogTime(p.y) {
        FlippedMeans(p.op, p.x.value, Time(t));
      }
    }
  }

  /** Every Log a condition holds of stays in the range the condition narrows. */
  lemma {:induction false} NarrowedByKeeps(r: Range, p: Expr, row: Row, t: int, fns: Functions)
    requires HasTime(row, t) && Holds(p, row, fns)
    ensures NarrowedBy(r, p).Has(t) <==> r.Has(t)
    decreases p
  {
    match p
    case And(x, y) =>
      NarrowedByKeeps(r, x, row, t, fns);
      NarrowedByKeeps(NarrowedBy(r, x), y, row, t, fns);
    case Compare(_, _, _) => NarrowedByCompare(r, p, row, t, fns);
    case _ =>
  }

  lemma {:induction false} NarrowedByNarrows(r: Range, p: Expr)
    ensures r.from <= NarrowedBy(r, p).from && NarrowedBy(r, p).to <= r.to
    decreases p
  {
    if p.And? {
      NarrowedByNarrows(r, p.x);
      NarrowedByNarrows(NarrowedBy(r, p.x), p.y);
    }
  }

  /** A comparison of time by an order or ==, with a time on either side, narrows the range to just the
      times it holds at. */
  lemma ComparisonNarrowsFully(r: Range, p: Expr, row: Row, t: int, fns: Functions)
    requires HasTime(row, t) && p.Compare? && p.op != NE
    requires var (field, value) := if p.x.Literal? then (p.y, p.x) else (p.x, p.y);
             value.Literal? && value.value.Time? && field.FieldRef? && field.builtIn && field.name == "time"
    ensures var narrowed := NarrowedBy(r, p);
            narrowed.from <= t < narrowed.to <==> r.from <= t < r.to && Holds(p, row, fns)
  {
    if p.x.Literal? {
      FlippedMeans(p.op, p.x.value, Time(t));
    }
  }

  predicate IsTimeLiteral(x: Expr) {
    x.Literal? && x.value.Time?
  }

  /** No comparison of the Log's time with a time, by an order or ==, among those p ands is false at t. */
  ghost predicate TimeAllows(p: Expr, t: int) {
    match p
    case And(x, y) => TimeAllows(x, t) && TimeAllows(y, t)
    case Compare(x, op, y) =>
      && (op != NE && IsLogTime(x) && IsTimeLiteral(y) ==> Related(op, Time(t), y.value))
      && (op != NE && IsTimeLiteral(x) && IsLogTime(y) ==> Related(op, x.value, Time(t)))
    case _ => true
  }

  ghost predicate HeadAllows(head: seq<Stage>, t: int) {
    forall s :: s in head && s.Where? ==> TimeAllows(s.predicate_, t)
  }

  /** A condition narrows the range to just the times its comparisons allow. */
  lemma {:induction false} NarrowedByIs(r: Range, p: Expr, t: int)
    ensures NarrowedBy(r, p).Has(t) <==> r.Has(t) && TimeAllows(p, t)
    decreases p
  {
    match p
    case And(x, y) =>
      NarrowedByIs(r, x, t);
      NarrowedByIs(NarrowedBy(r, x), y, t);
    case Compare(x, op, y) =>
      if IsTimeLiteral(x) && IsLogTime(y) {
        FlippedMeans(op, x.value, Time(t));
      }
    case _ =>
  }

  /** Query.narrow: the times of the range at which no comparison of the head's is false. A request without
      bounds is left so. */
  method Narrow(head: seq<Stage>, range: Range) returns (narrowed: Range)
    ensures range == Range(ZERO_TIME, ZERO_TIME) ==> narrowed == range
    ensures range != Range(ZERO_TIME, ZERO_TIME) ==>
              narrowed.from <= narrowed.to && range.from <= narrowed.from
    ensures range != Range(ZERO_TIME, ZERO_TIME) ==>
              forall t :: narrowed.from <= t < narrowed.to <==> range.from <= t < range.to && HeadAllows(head, t)
    ensures forall t :: narrowed.Has(t) ==> range.Has(t)
    ensures forall row, t, fns :: HasTime(row, t) && PassesAll(head, row, fns) ==> (narrowed.Has(t) <==> range.Has(t))
  {
    narrowed := range;
    if range.from == ZERO_TIME && range.to == ZERO_TIME {
      return;
    }
    for i := 0 to |head|
      invariant range.from <= narrowed.from && narrowed.to <= range.to
      invariant forall t :: narrowed.Has(t) <==> range.Has(t) && HeadAllows(head[..i], t)
      invariant forall row, t, fns :: HasTime(row, t) && PassesAll(head[..i], row, fns) ==>
                  (narrowed.Has(t) <==> range.Has(t))
    {
      assert head[..i + 1] == head[..i] + [head[i]];
      ghost var before, through := head[..i], head[..i + 1];
      assert head[i] in through;
      assert forall s :: s in before ==> s in through;
      forall t
        ensures HeadAllows(through, t) <==>
          HeadAllows(before, t) && (head[i].Where? ==> TimeAllows(head[i].predicate_, t))
        ensures head[i].Where? ==>
                  (NarrowedBy(narrowed, head[i].predicate_).Has(t) <==>
                     narrowed.Has(t) && TimeAllows(head[i].predicate_, t))
      {
        if head[i].Where? {
          NarrowedByIs(narrowed, head[i].predicate_, t);
        }
      }
      if head[i].Where? {
        var p := head[i].predicate_;
        NarrowedByNarrows(narrowed, p);
        forall row, t, fns | HasTime(row, t) && PassesAll(through, row, fns)
          ensures NarrowedBy(narrowed, p).Has(t) <==> range.Has(t)
        {
          assert Passes(head[i], row, fns);
          assert PassesAll(before, row, fns);
          NarrowedByKeeps(narrowed, p, row, t, fns);
        }
        narrowed := NarrowedBy(narrowed, p);
      } else {
        forall row, fns | PassesAll(through, row, fns)
          ensures PassesAll(before, row, fns)
        {
        }
      }
    }
    assert head[..|head|] == head;
    if narrowed.to < narrowed.from {
      narrowed := narrowed.(to := narrowed.from);
    }
  }
}

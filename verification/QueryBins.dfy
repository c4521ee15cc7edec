/** Whether a Query's table is made bin by bin (logquery/bins.go): its by column is the bin of the Log's
    own time, through every column that extend and project renamed, replaced or dropped. Timespans are
    whole microseconds. */
module QueryBins {
  import opened Basics
  import opened QueryExpr
  import opened QueryRange

  datatype NamedValue = NamedValue(name: string, x: Expr)

  datatype Stage =
    | Where(predicate_: Expr)
    | Extend(columns: seq<NamedValue>)
    | Project(columns: seq<NamedValue>)
    | Summarize(groups: seq<NamedValue>, aggregates: seq<NamedValue>)
    | Distinct(columns: seq<NamedValue>)
    | Count
    | SortOrTake

  /** The column of a name, if there is one. */
  function Find(columns: seq<NamedValue>, name: string): (found: Option<Expr>)
    ensures found.None? <==> forall c :: c in columns ==> c.name != name
    ensures found.Some? ==> NamedValue(name, found.value) in columns
  {
    if columns == [] then None
    else if columns[0].name == name then Some(columns[0].x)
    else Find(columns[1..], name)
  }

  datatype Definition = Definition(x: Expr, at: nat)

  /** The columns a stage makes; extend keeps the others, and where and sort them all. */
  function Makes(s: Stage): Option<seq<NamedValue>> {
    match s
    case Extend(columns) => Some(columns)
    case Project(columns) => Some(columns)
    case Summarize(groups, _) => Some(groups)
    case Distinct(columns) => Some(columns)
    case Count => Some([])
    case _ => None
  }

  /** What the column is as the stage at index at reads it: the value the latest stage that made it gave
      it, and that stage's index. */
  function DefinitionOf(tail: seq<Stage>, name: string, at: nat): (d: Option<Definition>)
    requires at <= |tail|
    ensures d.Some? ==> d.value.at < at
  {
    if at == 0 then None
    else
      var s := tail[at - 1];
      if Makes(s).None? then DefinitionOf(tail, name, at - 1)
      else if Find(Makes(s).value, name).Some? then Some(Definition(Find(Makes(s).value, name).value, at - 1))
      else if s.Extend? then DefinitionOf(tail, name, at - 1)
      else None
  }

  /** The column's value is given by the stage at index d.at, and no later stage before at makes the column anew
      or drops it: each is an extend without it or makes none. */
  ghost predicate IsDefinition(tail: seq<Stage>, name: string, at: nat, d: Definition)
    requires at <= |tail|
  {
    && d.at < at && Makes(tail[d.at]).Some? && Find(Makes(tail[d.at]).value, name) == Some(d.x)
    && forall i :: d.at < i < at ==>
         Makes(tail[i]).None? || (tail[i].Extend? && forall c :: c in tail[i].columns ==> c.name != name)
  }

  lemma {:induction false} DefinitionIs(tail: seq<Stage>, name: string, at: nat, d: Definition)
    requires at <= |tail|
    ensures DefinitionOf(tail, name, at) == Some(d) <==> IsDefinition(tail, name, at, d)
  {
    if at > 0 && (Makes(tail[at - 1]).None? || Find(Makes(tail[at - 1]).value, name).None?) {
      DefinitionIs(tail, name, at - 1, d);
    }
  }

  /** bin or floor of the Log's own time by a timespan bins it by that. */
  lemma PlainBin(tail: seq<Stage>, at: nat, fn: string, t: Type, u: Type, size: int)
    requires at <= |tail| && (fn == "bin" || fn == "floor")
    ensures var time := FieldRef("time", true, t);
            IsLogTimeAt(tail, time, at)
              && BinOfLogTime(tail, Call(fn, Args(time, Args(Literal(Timespan(size)), NoArgs)), u), at) == Some(size)
  {
  }

  /** A column is the Log's own time, or bins it, as its definition does where it was made. */
  lemma ThroughDefinition(tail: seq<Stage>, name: string, t: Type, message: bool, at: nat, d: Definition)
    requires at <= |tail| && IsDefinition(tail, name, at, d)
    ensures IsLogTimeAt(tail, ColumnRef(name, t, message), at) <==> IsLogTimeAt(tail, d.x, d.at)
    ensures BinOfLogTime(tail, ColumnRef(name, t, message), at) == BinOfLogTime(tail, d.x, d.at)
  {
    DefinitionIs(tail, name, at, d);
  }

  method FindDefinition(tail: seq<Stage>, name: string, at: nat) returns (d: Option<Definition>)
    requires at <= |tail|
    ensures d == DefinitionOf(tail, name, at)
    ensures forall x :: d == Some(x) <==> IsDefinition(tail, name, at, x)
  {
    forall x
      ensures DefinitionOf(tail, name, at) == Some(x) <==> IsDefinition(tail, name, at, x)
    {
      DefinitionIs(tail, name, at, x);
    }
    var i := at;
    while i > 0
      invariant 0 <= i <= at
      invariant DefinitionOf(tail, name, at) == DefinitionOf(tail, name, i)
    {
      i := i - 1;
      var made := Makes(tail[i]);
      if made.Some? {
        var found := Find(made.value, name);
        if found.Some? {
          return Some(Definition(found.value, i));
        }
        if !tail[i].Extend? {
          return None;
        }
      }
    }
    return None;
  }

  /** Whether x, read at the stage at index at, is the Log's own time. */
  predicate IsLogTimeAt(tail: seq<Stage>, x: Expr, at: nat)
    requires at <= |tail|
    decreases at
  {
    if x.ColumnRef? then
      var d := DefinitionOf(tail, x.name, at);
      d.Some? && IsLogTimeAt(tail, d.value.x, d.value.at)
    else IsLogTime(x)
  }

  /** The size of the bins of the Log's own time x puts Logs in, if it does. */
  function BinOfLogTime(tail: seq<Stage>, x: Expr, at: nat): Option<int>
    requires at <= |tail|
    decreases at
  {
    match x
    case ColumnRef(name, _, _) =>
      var d := DefinitionOf(tail, name, at);
      if d.Some? then BinOfLogTime(tail, d.value.x, d.value.at) else None
    case Call(fn, Args(time, Args(Literal(Timespan(size)), NoArgs)), _) =>
      if fn in ["bin", "floor"] && IsLogTimeAt(tail, time, at) then Some(size) else None
    case _ => None
  }

  // What the stages do to a Log's row.

  function WithColumns(columns: map<string, Value>, made: seq<NamedValue>, row: Row,
                       fns: Functions): map<string, Value> {
    if made == [] then columns
    else
      var last := made[|made| - 1];
      var before := WithColumns(columns, made[..|made| - 1], row, fns);
      var v := ValueOf(last.x, row, fns);
      if v.Some? then before[last.name := v.value] else before - {last.name}
  }

  /** A stage that keeps or drops each Log on its own. */
  predicate PerLog(s: Stage) {
    s.Where? || s.Extend? || s.Project?
  }

  predicate AllPerLog(tail: seq<Stage>, n: nat)
    requires n <= |tail|
  {
    forall i :: 0 <= i < n ==> PerLog(tail[i])
  }

  /** A Log's row as the stage at index at reads it, if no where dropped it. */
  function RowAt(tail: seq<Stage>, at: nat, log: Row, fns: Functions): Row
    requires at <= |tail| && AllPerLog(tail, at)
  {
    if at == 0 then log
    else
      var row := RowAt(tail, at - 1, log, fns);
      match tail[at - 1]
      case Extend(columns) => row.(columns := WithColumns(row.columns, columns, row, fns))
      case Project(columns) => Row(map[], map[], WithColumns(map[], columns, row, fns))
      case _ => row
  }

  /** The rows a stage reads are still Logs. */
  predicate LogsAt(tail: seq<Stage>, at: nat)
    requires at <= |tail|
  {
    forall i :: 0 <= i < at ==> tail[i].Where? || tail[i].Extend? || tail[i].SortOrTake?
  }

  predicate UniqueNames(columns: seq<NamedValue>) {
    forall i, j :: 0 <= i < j < |columns| ==> columns[i].name != columns[j].name
  }

  /** What compiling makes sure of an expression read at a stage: a Log's Field is read only of Logs, a
      column is of its value's type, and so is a bin. */
  predicate WellMade(tail: seq<Stage>, x: Expr, at: nat)
    requires at <= |tail|
    decreases x
  {
    match x
    case FieldRef(name, builtIn, t) => LogsAt(tail, at) && (builtIn && name == "time" ==> t == TimeType)
    case ColumnRef(name, t, _) =>
      var d := DefinitionOf(tail, name, at);
      d.Some? ==> Typ(d.value.x) == t
    case Call(fn, Args(head, _), t) => WellMade(tail, head, at) && (fn in ["bin", "floor"] ==> t == Typ(head))
    case _ => true
  }

  predicate AllWellMade(tail: seq<Stage>) {
    forall i :: 0 <= i < |tail| ==> StageWellMade(tail, i)
  }

  predicate StageWellMade(tail: seq<Stage>, i: nat)
    requires i < |tail|
  {
    Makes(tail[i]).Some? ==>
      UniqueNames(Makes(tail[i]).value) && forall c :: c in Makes(tail[i]).value ==> WellMade(tail, c.x, i)
  }

  lemma {:induction false} ColumnsHold(columns: map<string, Value>, made: seq<NamedValue>, row: Row, fns: Functions,
                                       name: string)
    requires UniqueNames(made)
    ensures Get(WithColumns(columns, made, row, fns), name)
         == if Find(made, name).Some? then ValueOf(Find(made, name).value, row, fns) else Get(columns, name)
  {
    if made != [] {
      var before, last := made[..|made| - 1], made[|made| - 1];
      ColumnsHold(columns, before, row, fns, name);
      assert made == before + [last];
      FindWithLast(before, last, name);
      LastColumnHolds(WithColumns(columns, before, row, fns), last, row, fns, name);
    }
  }

  lemma LastColumnHolds(before: map<string, Value>, last: NamedValue, row: Row, fns: Functions, name: string)
    ensures var v := ValueOf(last.x, row, fns);
            Get(if v.Some? then before[last.name := v.value] else before - {last.name}, name)
              == if last.name == name then v else Get(before, name)
  {
  }

  lemma {:induction false} FindWithLast(before: seq<NamedValue>, last: NamedValue, name: string)
    requires UniqueNames(before + [last])
    ensures Find(before + [last], name) == if last.name == name then Some(last.x) else Find(before, name)
  {
    if before != [] {
      assert (before + [last])[1..] == before[1..] + [last];
      FindWithLast(before[1..], last, name);
      assert (before + [last])[|before|] == last && (before + [last])[0] == before[0];
    }
  }

  /** A column's value as a stage reads it is its definition's, as the stage that made it read that. */
  lemma {:induction false} ColumnIsDefinition(tail: seq<Stage>, name: string, at: nat, log: Row, fns: Functions)
    requires at <= |tail| && AllPerLog(tail, at) && AllWellMade(tail)
    requires DefinitionOf(tail, name, at).Some?
    ensures var d := DefinitionOf(tail, name, at).value;
            Get(RowAt(tail, at, log, fns).columns, name) == ValueOf(d.x, RowAt(tail, d.at, log, fns), fns)
  {
    var s, row := tail[at - 1], RowAt(tail, at - 1, log, fns);
    assert StageWellMade(tail, at - 1);
    if s.Extend? || s.Project? {
      ColumnsHold(if s.Extend? then row.columns else map[], s.columns, row, fns, name);
    }
    if Makes(s).None? || Find(Makes(s).value, name).None? {
      ColumnIsDefinition(tail, name, at - 1, log, fns);
    }
  }

  lemma {:induction false} LogsKeepTime(tail: seq<Stage>, at: nat, log: Row, fns: Functions)
    requires at <= |tail| && AllPerLog(tail, at) && LogsAt(tail, at)
    ensures RowAt(tail, at, log, fns).builtIns == log.builtIns
  {
    if at > 0 {
      LogsKeepTime(tail, at - 1, log, fns);
    }
  }

  /** A definition is an expression some stage before made. */
  lemma {:induction false} DefinitionWellMade(tail: seq<Stage>, name: string, at: nat)
    requires at <= |tail| && AllWellMade(tail) && DefinitionOf(tail, name, at).Some?
    ensures var d := DefinitionOf(tail, name, at).value; WellMade(tail, d.x, d.at)
  {
    assert StageWellMade(tail, at - 1);
    if Makes(tail[at - 1]).None? || Find(Makes(tail[at - 1]).value, name).None? {
      DefinitionWellMade(tail, name, at - 1);
    }
  }

  lemma {:induction false} LogTimeIsTime(tail: seq<Stage>, x: Expr, at: nat, log: Row, t: int, fns: Functions)
    requires at <= |tail| && AllPerLog(tail, at) && AllWellMade(tail) && WellMade(tail, x, at)
    requires IsLogTimeAt(tail, x, at) && HasTime(log, t)
    ensures ValueOf(x, RowAt(tail, at, log, fns), fns) == Some(Time(t)) && Typ(x) == TimeType
    decreases at
  {
    if x.ColumnRef? {
      var d := DefinitionOf(tail, x.name, at).value;
      ColumnIsDefinition(tail, x.name, at, log, fns);
      DefinitionWellMade(tail, x.name, at);
      LogTimeIsTime(tail, d.x, d.at, log, t, fns);
    } else {
      LogsKeepTime(tail, at, log, fns);
    }
  }

  /** Where BinOfLogTime finds a size, x is the start of the bin of that size that the Log's own time is
      in. */
  lemma {:induction false} BinsOwnTime(tail: seq<Stage>, x: Expr, at: nat, size: int, log: Row, t: int, fns: Functions)
    requires at <= |tail| && AllPerLog(tail, at) && AllWellMade(tail) && WellMade(tail, x, at)
    requires BinOfLogTime(tail, x, at) == Some(size) && size > 0 && HasTime(log, t)
    ensures ValueOf(x, RowAt(tail, at, log, fns), fns) == Some(Time(BinOf(t, size)))
    decreases at
  {
    if x.ColumnRef? {
      var d := DefinitionOf(tail, x.name, at).value;
      ColumnIsDefinition(tail, x.name, at, log, fns);
      DefinitionWellMade(tail, x.name, at);
      BinsOwnTime(tail, d.x, d.at, size, log, t, fns);
    } else {
      var row, time := RowAt(tail, at, log, fns), x.args.head;
      LogTimeIsTime(tail, time, at, log, t, fns);
      assert Values(NoArgs, row, fns) == Some([]);
      assert ValueOf(Literal(Timespan(size)), row, fns) == Some(Timespan(size));
      var sized := Args(Literal(Timespan(size)), NoArgs);
      assert x.args == Args(time, sized);
      assert Values(sized, row, fns) == AllArgs(Some(Timespan(size)), Some([]));
      assert Values(x.args, row, fns) == AllArgs(Some(Time(t)), Values(sized, row, fns));
      var span: seq<Value> := [Timespan(size)];
      assert span + [] == span && [Time(t)] + span == [Time(t), Timespan(size)];
      assert Values(x.args, row, fns) == Some([Time(t), Timespan(size)]);
    }
  }

  /** The first by column of the last stage, on a Log, is the time. */
  ghost predicate FirstColumnIs(tail: seq<Stage>, log: Row, fns: Functions, time: int)
    requires tail != [] && tail[|tail| - 1].Summarize? && tail[|tail| - 1].groups != []
    requires AllPerLog(tail, |tail| - 1)
  {
    ValueOf(tail[|tail| - 1].groups[0].x, RowAt(tail, |tail| - 1, log, fns), fns) == Some(Time(time))
  }

  /** The last stage is a summarize by the table's first column, which the table's shape says is binned by a
      size, and that column bins the Log's own time by it. */
  predicate BinnedBy(tail: seq<Stage>, output: seq<string>, hints: map<string, int>, size: int) {
    && tail != [] && output != []
    && var last := |tail| - 1;
       && tail[last].Summarize? && tail[last].groups != []
       && var first := tail[last].groups[0];
          && first.name == output[0] && first.name in hints && hints[first.name] == size
          && BinOfLogTime(tail, first.x, last) == Some(size)
  }

  /** Query.Bins, with the sizes the Query's shape says its columns bin by. */
  method Bins(table: bool, tail: seq<Stage>, output: seq<string>, hints: map<string, int>) returns (size: Option<int>)
    requires AllWellMade(tail)
    ensures forall n :: size == Some(n) <==>
              && table && n > 0 && BinnedBy(tail, output, hints, n)
              && forall i :: 0 <= i < |tail| - 1 ==> tail[i].Where? || tail[i].Extend? || tail[i].Project?
    ensures size.Some? ==>
              && size.value > 0
              && tail != [] && tail[|tail| - 1].Summarize? && tail[|tail| - 1].groups != []
              && AllPerLog(tail, |tail| - 1)
              && forall log, t, fns :: HasTime(log, t) ==> FirstColumnIs(tail, log, fns, BinOf(t, size.value))
  {
    if !table || |tail| == 0 || |output| == 0 {
      return None;
    }
    var last := |tail| - 1;
    if !tail[last].Summarize? || |tail[last].groups| == 0 || tail[last].groups[0].name != output[0] {
      return None;
    }
    var first := tail[last].groups[0];
    if first.name !in hints || hints[first.name] == 0 {
      return None;
    }
    for i := 0 to last
      invariant AllPerLog(tail, i)
    {
      if !PerLog(tail[i]) {
        return None;
      }
    }
    var found := BinOfLogTime(tail, first.x, last);
    if found.None? || found.value <= 0 || found.value != hints[first.name] {
      return None;
    }
    assert StageWellMade(tail, last) && first in tail[last].groups;
    forall log, t, fns | HasTime(log, t)
      ensures FirstColumnIs(tail, log, fns, BinOf(t, found.value))
    {
      BinsOwnTime(tail, first.x, last, found.value, log, t, fns);
    }
    return found;
  }
}

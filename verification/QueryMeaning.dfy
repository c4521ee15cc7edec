/** The SQL a condition is written as keeps exactly the rows the condition, or its negation, holds of,
    wherever each == and != has a side with a value. */
module QueryMeaning {
  import opened Basics
  import opened QueryExpr
  import opened QuerySql

  /** What an expression's SQL is: its value, or a dynamic value's tuple. */
  function CellFor(e: Expr, row: Row, fns: Functions): Cell {
    if Typ(e) == DynamicType then Tuple(ValueOf(e, row, fns)) else CellOf(ValueOf(e, row, fns))
  }

  /** Each == and != between values of one type has a side with a value. */
  predicate OneSidePresent(e: Expr, row: Row, fns: Functions) {
    match e
    case PartOf(x, _) => OneSidePresent(x, row, fns)
    case Compare(x, op, y) =>
      && OneSidePresent(x, row, fns) && OneSidePresent(y, row, fns)
      && (IsEquality(op) && Typ(x) == Typ(y) ==> ValueOf(x, row, fns).Some? || ValueOf(y, row, fns).Some?)
    case TextMatch(_, x, _, _) => OneSidePresent(x, row, fns)
    case IsEmpty(x) => OneSidePresent(x, row, fns)
    case And(x, y) => OneSidePresent(x, row, fns) && OneSidePresent(y, row, fns)
    case Or(x, y) => OneSidePresent(x, row, fns) && OneSidePresent(y, row, fns)
    case Not(x) => OneSidePresent(x, row, fns)
    case Arith(_, x, y, _) => OneSidePresent(x, row, fns) && OneSidePresent(y, row, fns)
    case Negative(x) => OneSidePresent(x, row, fns)
    case Call(_, args, _) => AllOneSidePresent(args, row, fns)
    case _ => true
  }

  predicate AllOneSidePresent(args: Exprs, row: Row, fns: Functions) {
    match args
    case NoArgs => true
    case Args(head, tail) => OneSidePresent(head, row, fns) && AllOneSidePresent(tail, row, fns)
  }

  /** Each == and != has a literal for a side, as a filter, in and most comparisons have. */
  predicate LiteralSides(e: Expr) {
    match e
    case PartOf(x, _) => LiteralSides(x)
    case Compare(x, op, y) => LiteralSides(x) && LiteralSides(y) && (IsEquality(op) ==> x.Literal? || y.Literal?)
    case TextMatch(_, x, _, _) => LiteralSides(x)
    case IsEmpty(x) => LiteralSides(x)
    case And(x, y) => LiteralSides(x) && LiteralSides(y)
    case Or(x, y) => LiteralSides(x) && LiteralSides(y)
    case Not(x) => LiteralSides(x)
    case Arith(_, x, y, _) => LiteralSides(x) && LiteralSides(y)
    case Negative(x) => LiteralSides(x)
    case Call(_, args, _) => AllLiteralSides(args)
    case _ => true
  }

  predicate AllLiteralSides(args: Exprs) {
    match args
    case NoArgs => true
    case Args(head, tail) => LiteralSides(head) && AllLiteralSides(tail)
  }

  lemma {:induction false} LiteralIsPresent(e: Expr, row: Row, fns: Functions)
    requires LiteralSides(e)
    ensures OneSidePresent(e, row, fns)
  {
    match e
    case PartOf(x, _) => LiteralIsPresent(x, row, fns);
    case Compare(x, _, y) => LiteralIsPresent(x, row, fns); LiteralIsPresent(y, row, fns);
    case TextMatch(_, x, _, _) => LiteralIsPresent(x, row, fns);
    case IsEmpty(x) => LiteralIsPresent(x, row, fns);
    case And(x, y) => LiteralIsPresent(x, row, fns); LiteralIsPresent(y, row, fns);
    case Or(x, y) => LiteralIsPresent(x, row, fns); LiteralIsPresent(y, row, fns);
    case Not(x) => LiteralIsPresent(x, row, fns);
    case Arith(_, x, y, _) => LiteralIsPresent(x, row, fns); LiteralIsPresent(y, row, fns);
    case Negative(x) => LiteralIsPresent(x, row, fns);
    case Call(_, args, _) => LiteralArgsPresent(args, row, fns);
    case _ =>
  }

  lemma {:induction false} LiteralArgsPresent(args: Exprs, row: Row, fns: Functions)
    requires AllLiteralSides(args)
    ensures AllOneSidePresent(args, row, fns)
  {
    match args
    case NoArgs =>
    case Args(head, tail) => LiteralIsPresent(head, row, fns); LiteralArgsPresent(tail, row, fns);
  }

  /** The form IS DISTINCT FROM is written for, with neither side there. */
  predicate BothMissing(x: Expr, op: CompareOp, y: Expr, row: Row, fns: Functions, negate: bool) {
    && IsEquality(op) && Typ(x) == Typ(y) && (op == Eq) == negate
    && ValueOf(x, row, fns).None? && ValueOf(y, row, fns).None?
  }

  /** Sides of types that differ are never equal. */
  lemma DifferentTypesDiffer(x: Expr, y: Expr, row: Row, fns: Functions)
    requires Typed(x) && Typed(y) && Fits(x, row) && Fits(y, row) && !MaybeSame(Typ(x), Typ(y))
    requires ValueOf(x, row, fns).Some? && ValueOf(y, row, fns).Some?
    ensures ValueOf(x, row, fns) != ValueOf(y, row, fns)
  {
    ValueIsOfType(x, row, fns);
    ValueIsOfType(y, row, fns);
  }

  predicate CompareExact(x: Expr, op: CompareOp, y: Expr, s: Sql, negate: bool, row: Row, fns: Functions) {
    Keeps(s, row, fns) <==> (Holds(Compare(x, op, y), row, fns) != negate)
  }

  /** A comparison's SQL is exact just when it isn't IS DISTINCT FROM with neither side there. */
  lemma CompareWritten(x: Expr, op: CompareOp, y: Expr, a: Sql, b: Sql, stringColumns: set<string>, negate: bool,
                       row: Row, fns: Functions)
    requires Typed(Compare(x, op, y)) && Fits(Compare(x, op, y), row)
    requires Eval(a, row, fns) == CellFor(x, row, fns) && Eval(b, row, fns) == CellFor(y, row, fns)
    ensures CompareExact(x, op, y, WriteCompare(x, op, y, a, b, stringColumns, negate), negate, row, fns)
       <==> !BothMissing(x, op, y, row, fns, negate)
  {
    if !IsEquality(op) {
      OrderCompare(x, op, y, a, b, stringColumns, negate, row, fns);
    } else if Typ(x) != Typ(y) {
      ConstantCompare(x, op, y, a, b, stringColumns, negate, row, fns);
    } else if StringColumnCompare(x, y, stringColumns).Some? {
      ColumnCompare(x, op, y, a, b, stringColumns, negate, row, fns);
    } else {
      PlainCompare(x, op, y, a, b, stringColumns, negate, row, fns);
    }
  }

  lemma ConstantCompare(
      x: Expr, op: CompareOp, y: Expr, a: Sql, b: Sql, stringColumns: set<string>, negate: bool,
      row: Row, fns: Functions)
    requires Typed(Compare(x, op, y)) && Fits(Compare(x, op, y), row) && IsEquality(op) && Typ(x) != Typ(y)
    ensures CompareExact(x, op, y, WriteCompare(x, op, y, a, b, stringColumns, negate), negate, row, fns)
  {
    if ValueOf(x, row, fns).Some? && ValueOf(y, row, fns).Some? {
      DifferentTypesDiffer(x, y, row, fns);
    }
    assert Eval(WriteCompare(x, op, y, a, b, stringColumns, negate), row, fns) == Truth((op == NE) != negate);
  }

  lemma PlainCompare(
      x: Expr, op: CompareOp, y: Expr, a: Sql, b: Sql, stringColumns: set<string>, negate: bool,
      row: Row, fns: Functions)
    requires IsEquality(op) && Typ(x) == Typ(y) != DynamicType && StringColumnCompare(x, y, stringColumns).None?
    requires Eval(a, row, fns) == CellFor(x, row, fns) && Eval(b, row, fns) == CellFor(y, row, fns)
    ensures CompareExact(x, op, y, WriteCompare(x, op, y, a, b, stringColumns, negate), negate, row, fns)
       <==> !BothMissing(x, op, y, row, fns, negate)
  {
    EqualityWritten(ValueOf(x, row, fns), ValueOf(y, row, fns));
    assert Eval(WriteCompare(x, op, y, a, b, stringColumns, negate), row, fns)
        == BinaryCells(CellOf(ValueOf(x, row, fns)), if (op == Eq) != negate then Equal else IsDistinctFrom,
                       CellOf(ValueOf(y, row, fns)));
  }

  lemma OrderCompare(x: Expr, op: CompareOp, y: Expr, a: Sql, b: Sql, stringColumns: set<string>, negate: bool,
                     row: Row, fns: Functions)
    requires !IsEquality(op) && Typ(x) == Typ(y) != DynamicType
    requires Eval(a, row, fns) == CellFor(x, row, fns) && Eval(b, row, fns) == CellFor(y, row, fns)
    ensures CompareExact(x, op, y, WriteCompare(x, op, y, a, b, stringColumns, negate), negate, row, fns)
  {
    var test := Binary(a, Ordered(op), b);
    OrderTest(x, op, y, a, b, row, fns);
    NotOrFalse(test, row, fns);
  }

  lemma OrderTest(x: Expr, op: CompareOp, y: Expr, a: Sql, b: Sql, row: Row, fns: Functions)
    requires !IsEquality(op) && Typ(x) == Typ(y) != DynamicType
    requires Eval(a, row, fns) == CellFor(x, row, fns) && Eval(b, row, fns) == CellFor(y, row, fns)
    ensures Keeps(Binary(a, Ordered(op), b), row, fns) == Holds(Compare(x, op, y), row, fns)
    ensures Eval(Binary(a, Ordered(op), b), row, fns) in [Truth(true), Truth(false), Null]
  {
    OrderWritten(op, ValueOf(x, row, fns), ValueOf(y, row, fns));
  }

  lemma ColumnCompare(x: Expr, op: CompareOp, y: Expr, a: Sql, b: Sql, stringColumns: set<string>, negate: bool,
                      row: Row, fns: Functions)
    requires IsEquality(op) && Typ(x) == Typ(y) && StringColumnCompare(x, y, stringColumns).Some?
    ensures CompareExact(x, op, y, WriteCompare(x, op, y, a, b, stringColumns, negate), negate, row, fns)
    ensures !BothMissing(x, op, y, row, fns, negate)
  {
    StringColumnIsExact(x, y, stringColumns, row, fns);
    var (key, text) := StringColumnCompare(x, y, stringColumns).value;
    assert Eval(Lit(Text(text)), row, fns) == Val(Text(text));
    assert Eval(WriteCompare(x, op, y, a, b, stringColumns, negate), row, fns)
        == BinaryCells(Eval(StringColumn(key), row, fns), if (op == Eq) != negate then Equal else NotEqual,
                       Val(Text(text)));
  }

  lemma OrderWritten(op: CompareOp, a: Option<Value>, b: Option<Value>)
    requires !IsEquality(op)
    ensures BinaryCells(CellOf(a), Ordered(op), CellOf(b))
         == if a.Some? && b.Some? then Truth(Related(op, a.value, b.value)) else Null
  {
  }

  lemma EqualityWritten(a: Option<Value>, b: Option<Value>)
    ensures BinaryCells(CellOf(a), Equal, CellOf(b)) == Truth(true) <==> a.Some? && a == b
    ensures BinaryCells(CellOf(a), IsDistinctFrom, CellOf(b)) == Truth(true) <==> a != b
  {
  }

  /** Where a test is true, false or NULL, NOT coalesce(test, false) is true just when it isn't. */
  lemma NotOrFalse(test: Sql, row: Row, fns: Functions)
    requires Eval(test, row, fns) in [Truth(true), Truth(false), Null]
    ensures Keeps(Inverse(OrFalse(test)), row, fns) <==> !Keeps(test, row, fns)
    ensures Eval(OrFalse(test), row, fns) == Truth(Keeps(test, row, fns))
    ensures Eval(Inverse(OrFalse(test)), row, fns) == Truth(!Keeps(test, row, fns))
  {
    assert Eval(Lit(Bool(false)), row, fns) == Truth(false);
    assert Eval(OrFalse(test), row, fns) == if Eval(test, row, fns) == Null then Truth(false) else Eval(test, row, fns);
  }

  /** The column equals the string just when the Attribute does. */
  lemma StringColumnIsExact(x: Expr, y: Expr, stringColumns: set<string>, row: Row, fns: Functions)
    requires StringColumnCompare(x, y, stringColumns).Some?
    ensures var (key, text) := StringColumnCompare(x, y, stringColumns).value;
            var same := ValueOf(x, row, fns).Some? && ValueOf(x, row, fns) == ValueOf(y, row, fns);
            && (Eval(StringColumn(key), row, fns) == Val(Text(text)) <==> same)
            && (ValueOf(x, row, fns).Some? || ValueOf(y, row, fns).Some?)
  {
  }

  /** A test that x is missing or empty is true or false on every row. */
  lemma IsEmptyWritten(x: Expr, v: Sql, row: Row, fns: Functions)
    requires Typed(IsEmpty(x)) && Fits(x, row) && Eval(v, row, fns) == CellFor(x, row, fns)
    ensures Eval(WriteIsEmpty(x, v), row, fns) == Truth(Holds(IsEmpty(x), row, fns))
  {
    var value := ValueOf(x, row, fns);
    if value.Some? {
      ValueIsOfType(x, row, fns);
    }
    if Typ(x) == StringType {
      NullOrEmptyIs(v, value, row, fns);
    } else if Typ(x) == DynamicType {
      PartsWritten(x, row, fns);
      NullOrEmptyIs(PartOfDynamic(x, StringAttribute), Part(value, StringAttribute), row, fns);
      DynamicIsEmpty(x, row, fns);
    }
  }

  lemma DynamicIsEmpty(x: Expr, row: Row, fns: Functions)
    requires Typed(x) && Typ(x) == DynamicType && (x.FieldRef? || x.ColumnRef?)
    requires ValueOf(x, row, fns).Some? ==> IsAttributeValue(ValueOf(x, row, fns).value)
    ensures Eval(WriteIsEmpty(x, Lit(Bool(false))), row, fns)
         == Truth(ValueOf(x, row, fns).None? || ValueOf(x, row, fns).value == Text(""))
    ensures forall v :: WriteIsEmpty(x, v) == WriteIsEmpty(x, Lit(Bool(false)))
  {
    var value := ValueOf(x, row, fns);
    var s, n := PartOfDynamic(x, StringAttribute), PartOfDynamic(x, NumberAttribute);
    var b, j := PartOfDynamic(x, BoolAttribute), PartOfDynamic(x, JSONAttribute);
    PartsWritten(x, row, fns);
    NullOrEmptyIs(s, Part(value, StringAttribute), row, fns);
    assert Eval(IsNull(n), row, fns) == Truth(Part(value, NumberAttribute).None?);
    assert Eval(IsNull(b), row, fns) == Truth(Part(value, BoolAttribute).None?);
    assert Eval(IsNull(j), row, fns) == Truth(Part(value, JSONAttribute).None?);
    assert Eval(Both(IsNull(b), IsNull(j)), row, fns)
        == AndCells(Eval(IsNull(b), row, fns), Eval(IsNull(j), row, fns));
    assert Eval(Both(IsNull(n), Both(IsNull(b), IsNull(j))), row, fns)
        == AndCells(Eval(IsNull(n), row, fns), Eval(Both(IsNull(b), IsNull(j)), row, fns));
  }

  lemma NullOrEmptyIs(v: Sql, value: Option<Value>, row: Row, fns: Functions)
    requires Eval(v, row, fns) == CellOf(value)
    ensures Eval(NullOrEmpty(v), row, fns) == Truth(value.None? || value.value == Text(""))
  {
    assert Eval(Binary(v, Equal, Lit(Text(""))), row, fns) == BinaryCells(CellOf(value), Equal, Val(Text("")));
  }

  lemma PartsWritten(x: Expr, row: Row, fns: Functions)
    requires Typed(x) && Typ(x) == DynamicType && (x.FieldRef? || x.ColumnRef?)
    ensures forall part :: Eval(PartOfDynamic(x, part), row, fns) == PartCell(ValueOf(x, row, fns), part)
  {
    if x.ColumnRef? {
      assert Eval(Column(x.name, true), row, fns) == Tuple(Get(row.columns, x.name));
    }
  }

  ghost predicate Exact(p: Expr, s: Sql, negate: bool, row: Row, fns: Functions) {
    && (Keeps(s, row, fns) <==> (Holds(p, row, fns) != negate))
    && Eval(s, row, fns) in [Truth(true), Truth(false), Null]
  }

  /** The SQL of a condition, negated or not, keeps exactly the rows it says. */
  lemma {:induction false} ConditionWritten(p: Expr, stringColumns: set<string>, negate: bool, row: Row, fns: Functions)
    requires Writable(p) && Typ(p) == BoolType && Fits(p, row) && OneSidePresent(p, row, fns)
    ensures Exact(p, WriteCondition(p, stringColumns, negate), negate, row, fns)
    decreases p, 1
  {
    if !IsTest(p) {
      ValueWritten(p, stringColumns, row, fns);
      BoolWritten(p, WriteValue(p, stringColumns), row, fns);
    } else {
      match p
      case And(x, y) =>
        ConditionWritten(x, stringColumns, negate, row, fns);
        ConditionWritten(y, stringColumns, negate, row, fns);
        if negate {
          EitherWritten(WriteCondition(x, stringColumns, negate), WriteCondition(y, stringColumns, negate), row, fns);
        } else {
          BothWritten(WriteCondition(x, stringColumns, negate), WriteCondition(y, stringColumns, negate), row, fns);
        }
      case Or(x, y) =>
        ConditionWritten(x, stringColumns, negate, row, fns);
        ConditionWritten(y, stringColumns, negate, row, fns);
        if negate {
          BothWritten(WriteCondition(x, stringColumns, negate), WriteCondition(y, stringColumns, negate), row, fns);
        } else {
          EitherWritten(WriteCondition(x, stringColumns, negate), WriteCondition(y, stringColumns, negate), row, fns);
        }
      case Not(x) => ConditionWritten(x, stringColumns, !negate, row, fns);
      case Compare(x, op, y) =>
        ValueWritten(x, stringColumns, row, fns);
        ValueWritten(y, stringColumns, row, fns);
        CompareWritten(x, op, y, WriteValue(x, stringColumns), WriteValue(y, stringColumns), stringColumns, negate,
            row, fns);
        CompareIsTest(x, op, y, WriteValue(x, stringColumns), WriteValue(y, stringColumns), stringColumns, negate,
            row, fns);
      case IsEmpty(x) =>
        ValueWritten(x, stringColumns, row, fns);
        IsEmptyWritten(x, WriteValue(x, stringColumns), row, fns);
        InverseOf(WriteIsEmpty(x, WriteValue(x, stringColumns)), row, fns);
      case TextMatch(op, x, pattern, caseSensitive) =>
        ValueWritten(x, stringColumns, row, fns);
        MatchWritten(op, x, pattern, caseSensitive, WriteValue(x, stringColumns), row, fns);
    }
  }

  lemma BoolWritten(p: Expr, v: Sql, row: Row, fns: Functions)
    requires Typed(p) && Fits(p, row) && Typ(p) == BoolType && !IsTest(p) && Eval(v, row, fns) == CellFor(p, row, fns)
    ensures Exact(p, v, false, row, fns) && Exact(p, Inverse(OrFalse(v)), true, row, fns)
  {
    if ValueOf(p, row, fns).Some? {
      ValueIsOfType(p, row, fns);
    }
    NotOrFalse(v, row, fns);
  }

  lemma {:induction false} BothWritten(a: Sql, b: Sql, row: Row, fns: Functions)
    ensures Eval(Both(a, b), row, fns) == AndCells(Eval(a, row, fns), Eval(b, row, fns))
  {
  }

  lemma {:induction false} EitherWritten(a: Sql, b: Sql, row: Row, fns: Functions)
    ensures Eval(Either(a, b), row, fns) == OrCells(Eval(a, row, fns), Eval(b, row, fns))
  {
  }

  lemma InverseOf(test: Sql, row: Row, fns: Functions)
    ensures Eval(Inverse(test), row, fns) == NotCell(Eval(test, row, fns))
  {
  }

  lemma CompareIsTest(x: Expr, op: CompareOp, y: Expr, a: Sql, b: Sql, stringColumns: set<string>, negate: bool,
                      row: Row, fns: Functions)
    ensures Eval(WriteCompare(x, op, y, a, b, stringColumns, negate), row, fns) in [Truth(true), Truth(false), Null]
  {
    if !IsEquality(op) {
      assert Eval(Binary(a, Ordered(op), b), row, fns)
          == BinaryCells(Eval(a, row, fns), Ordered(op), Eval(b, row, fns));
      NotOrFalse(Binary(a, Ordered(op), b), row, fns);
    }
  }

  lemma MatchWritten(op: MatchOp, x: Expr, pattern: string, caseSensitive: bool, v: Sql, row: Row, fns: Functions)
    requires Typed(x) && Fits(x, row) && Typ(x) == StringType && Eval(v, row, fns) == CellFor(x, row, fns)
    ensures var test := Matches(op, v, pattern, caseSensitive);
            var holds := Holds(TextMatch(op, x, pattern, caseSensitive), row, fns);
            && (Eval(test, row, fns) == Truth(holds) || (Eval(test, row, fns) == Null && !holds))
            && Eval(Inverse(OrFalse(test)), row, fns) == Truth(!holds)
  {
    if ValueOf(x, row, fns).Some? {
      ValueIsOfType(x, row, fns);
    }
    NotOrFalse(Matches(op, v, pattern, caseSensitive), row, fns);
  }

  /** The SQL of a value is the value. */
  lemma {:induction false} ValueWritten(e: Expr, stringColumns: set<string>, row: Row, fns: Functions)
    requires Writable(e) && Fits(e, row) && OneSidePresent(e, row, fns)
    ensures Eval(WriteValue(e, stringColumns), row, fns) == CellFor(e, row, fns)
    decreases e, if IsTest(e) then 2 else 0
  {
    if IsTest(e) {
      ConditionWritten(e, stringColumns, false, row, fns);
      NotOrFalse(WriteCondition(e, stringColumns, false), row, fns);
    } else {
      match e
      case Arith(_, x, y, _) =>
        ValueWritten(x, stringColumns, row, fns);
        ValueWritten(y, stringColumns, row, fns);
      case Negative(x) => ValueWritten(x, stringColumns, row, fns);
      case Call(_, args, _) => ArgsWritten(args, stringColumns, row, fns);
      case _ => LeafWritten(e, stringColumns, row, fns);
    }
  }

  lemma LeafWritten(e: Expr, stringColumns: set<string>, row: Row, fns: Functions)
    requires Writable(e) && !IsTest(e) && !e.Arith? && !e.Negative? && !e.Call?
    ensures Eval(WriteValue(e, stringColumns), row, fns) == CellFor(e, row, fns)
  {
    match e
    case PartOf(x, _) => PartsWritten(x, row, fns);
    case AttributeText(name) =>
      var value := Get(row.attributes, name);
      assert Eval(Attribute(StringAttribute, name), row, fns) == PartCell(value, StringAttribute);
      assert Eval(Attribute(JSONAttribute, name), row, fns) == PartCell(value, JSONAttribute);
    case _ =>
  }

  lemma {:induction false} ArgsWritten(args: Exprs, stringColumns: set<string>, row: Row, fns: Functions)
    requires AllTyped(args) && NoneAlways(args) && AllFit(args, row) && AllOneSidePresent(args, row, fns)
    ensures EvalAll(WriteArgs(args, stringColumns), row, fns) == Values(args, row, fns)
  {
    match args
    case NoArgs =>
    case Args(head, tail) =>
      ValueWritten(head, stringColumns, row, fns);
      ArgsWritten(tail, stringColumns, row, fns);
  }

  /** A != of sides of one type, not written over a string column, with a side missing on the row. */
  predicate PlainNEMissing(p: Expr, stringColumns: set<string>, row: Row, fns: Functions) {
    && p.Compare? && p.op == NE && Typ(p.x) == Typ(p.y) && StringColumnCompare(p.x, p.y, stringColumns).None?
    && (ValueOf(p.x, row, fns).None? || ValueOf(p.y, row, fns).None?)
  }

  lemma NegatedCompareNull(x: Expr, op: CompareOp, y: Expr, a: Sql, b: Sql, stringColumns: set<string>,
                                              row: Row, fns: Functions)
    requires Typed(Compare(x, op, y)) && Fits(Compare(x, op, y), row)
    requires Eval(a, row, fns) == CellFor(x, row, fns) && Eval(b, row, fns) == CellFor(y, row, fns)
    ensures Eval(WriteCompare(x, op, y, a, b, stringColumns, true), row, fns) == Null
       <==> PlainNEMissing(Compare(x, op, y), stringColumns, row, fns)
  {
    if !IsEquality(op) {
      OrderTest(x, op, y, a, b, row, fns);
      NotOrFalse(Binary(a, Ordered(op), b), row, fns);
    } else if Typ(x) == Typ(y) {
      NegatedEqualityNull(x, op, y, a, b, stringColumns, row, fns);
    }
  }

  lemma NegatedEqualityNull(x: Expr, op: CompareOp, y: Expr, a: Sql, b: Sql, stringColumns: set<string>,
                                               row: Row, fns: Functions)
    requires IsEquality(op) && Typ(x) == Typ(y) != DynamicType
    requires Eval(a, row, fns) == CellFor(x, row, fns) && Eval(b, row, fns) == CellFor(y, row, fns)
    ensures Eval(WriteCompare(x, op, y, a, b, stringColumns, true), row, fns) == Null
       <==> PlainNEMissing(Compare(x, op, y), stringColumns, row, fns)
  {
    if StringColumnCompare(x, y, stringColumns).Some? {
      ColumnNotNull(x, op, y, a, b, stringColumns, row, fns);
    } else {
      PlainEqualityNull(x, op, y, a, b, stringColumns, row, fns);
    }
  }

  lemma PlainEqualityNull(x: Expr, op: CompareOp, y: Expr, a: Sql, b: Sql, stringColumns: set<string>,
                                             row: Row, fns: Functions)
    requires IsEquality(op) && Typ(x) == Typ(y) != DynamicType && StringColumnCompare(x, y, stringColumns).None?
    requires Eval(a, row, fns) == CellFor(x, row, fns) && Eval(b, row, fns) == CellFor(y, row, fns)
    ensures Eval(WriteCompare(x, op, y, a, b, stringColumns, true), row, fns) == Null
       <==> op == NE && (ValueOf(x, row, fns).None? || ValueOf(y, row, fns).None?)
  {
    EqualityNull(ValueOf(x, row, fns), ValueOf(y, row, fns));
    assert Eval(WriteCompare(x, op, y, a, b, stringColumns, true), row, fns)
        == BinaryCells(CellOf(ValueOf(x, row, fns)), if op == NE then Equal else IsDistinctFrom,
                       CellOf(ValueOf(y, row, fns)));
  }

  lemma EqualityNull(a: Option<Value>, b: Option<Value>)
    ensures BinaryCells(CellOf(a), Equal, CellOf(b)) == Null <==> a.None? || b.None?
    ensures BinaryCells(CellOf(a), IsDistinctFrom, CellOf(b)) != Null
  {
  }

  lemma ColumnNotNull(x: Expr, op: CompareOp, y: Expr, a: Sql, b: Sql, stringColumns: set<string>,
                                         row: Row, fns: Functions)
    requires IsEquality(op) && Typ(x) == Typ(y) && StringColumnCompare(x, y, stringColumns).Some?
    ensures Eval(WriteCompare(x, op, y, a, b, stringColumns, true), row, fns) != Null
  {
    var (key, text) := StringColumnCompare(x, y, stringColumns).value;
    assert Eval(Lit(Text(text)), row, fns) == Val(Text(text)) && Eval(StringColumn(key), row, fns) != Null;
    assert Eval(WriteCompare(x, op, y, a, b, stringColumns, true), row, fns)
        == BinaryCells(Eval(StringColumn(key), row, fns), if op == NE then Equal else NotEqual, Val(Text(text)));
  }

  /** The expectation that a negated test is true or false on every row, exactly when it isn't met: of the
      tests that aren't and, or or not, only a != with a side missing is NULL. */
  lemma NegatedTestNull(p: Expr, stringColumns: set<string>, row: Row, fns: Functions)
    requires Writable(p) && Typ(p) == BoolType && Fits(p, row) && OneSidePresent(p, row, fns)
    requires !p.And? && !p.Or? && !p.Not?
    ensures Eval(WriteCondition(p, stringColumns, true), row, fns) == Null <==>
      PlainNEMissing(p, stringColumns, row, fns)
  {
    if !IsTest(p) {
      ValueWritten(p, stringColumns, row, fns);
      BoolWritten(p, WriteValue(p, stringColumns), row, fns);
      NotOrFalse(WriteValue(p, stringColumns), row, fns);
    } else {
      match p
      case Compare(x, op, y) =>
        ValueWritten(x, stringColumns, row, fns);
        ValueWritten(y, stringColumns, row, fns);
        NegatedCompareNull(x, op, y, WriteValue(x, stringColumns), WriteValue(y, stringColumns), stringColumns, row,
            fns);
      case IsEmpty(x) =>
        ValueWritten(x, stringColumns, row, fns);
        IsEmptyWritten(x, WriteValue(x, stringColumns), row, fns);
        InverseOf(WriteIsEmpty(x, WriteValue(x, stringColumns)), row, fns);
      case TextMatch(op, x, pattern, caseSensitive) =>
        ValueWritten(x, stringColumns, row, fns);
        MatchWritten(op, x, pattern, caseSensitive, WriteValue(x, stringColumns), row, fns);
    }
  }

  /** So with one side there too: the negation of level != "x" is NULL for a Log without a level, where it
      isn't to be kept. */
  lemma NegatedNEIsNull(fns: Functions)
    ensures var p := Compare(FieldRef("level", true, StringType), NE, Literal(Text("x")));
            var row := Row(map[], map[], map[]);
            && Writable(p) && Fits(p, row) && OneSidePresent(p, row, fns)
            && Eval(WriteCondition(p, {}, true), row, fns) == Null && Holds(p, row, fns)
  {
    var level := FieldRef("level", true, StringType);
    var p := Compare(level, NE, Literal(Text("x")));
    var row := Row(map[], map[], map[]);
    NegatedTestNull(p, {}, row, fns);
  }

  /** With neither side there, SQL has a != b false, though not(a == b) holds: so it is false both of
      level == environment and of its negation for a Log with neither. */
  lemma BothMissingIsFalse(fns: Functions)
    ensures var level := FieldRef("level", true, StringType);
            var environment := FieldRef("environment", true, StringType);
            var p := Compare(level, NE, environment);
            var row := Row(map[], map[], map[]);
            && Writable(p) && Fits(p, row)
            && Holds(p, row, fns)
            && !Keeps(WriteCondition(p, {}, false), row, fns)
            && !Keeps(WriteCondition(p, {}, true), row, fns)
  {
    var level := FieldRef("level", true, StringType);
    var environment := FieldRef("environment", true, StringType);
    var row := Row(map[], map[], map[]);
    assert WriteCondition(Compare(level, NE, environment), {}, false)
        == Binary(BuiltIn("level"), IsDistinctFrom, BuiltIn("environment"));
    assert WriteCondition(Compare(level, NE, environment), {}, true)
        == Binary(BuiltIn("level"), Equal, BuiltIn("environment"));
    assert Eval(BuiltIn("level"), row, fns) == Null && Eval(BuiltIn("environment"), row, fns) == Null;
  }
}

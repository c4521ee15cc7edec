/** Conditions written as SQL (logquery/sql.go), as an AST with SQL's three truth values instead of
    text: a missing value is NULL, and a WHERE keeps a row only where its condition is true. Columns
    are those of a source of Logs or of a relation; columns of strings, such as the logs table's
    file, hold a string Attribute's value or ''. */
module QuerySql {
  import opened Basics
  import opened QueryExpr

  datatype Op = Equal | NotEqual | IsDistinctFrom | Ordered(op: CompareOp)

  datatype Sql =
    | Column(name: string, dynamic: bool)
    | BuiltIn(name: string)
    | Attribute(part: AttributeType, name: string)
    | DynamicAttribute(name: string)
    | StringColumn(key: string)
    | SearchText
    | Element(x: Sql, part: AttributeType)
    | Lit(value: Value)
    | Coalesce(x: Sql, y: Sql)
    | Binary(x: Sql, op: Op, y: Sql)
    | IsNull(x: Sql)
    | Both(x: Sql, y: Sql)
    | Either(x: Sql, y: Sql)
    | Inverse(x: Sql)
    | Matches(match_: MatchOp, x: Sql, pattern: string, caseSensitive: bool)
    | Arithmetic(arith: string, x: Sql, y: Sql, t: Type)
    | Minus(x: Sql)
    | Function(fn: string, args: Sqls, t: Type)

  datatype Sqls = NoSql | Sqls(head: Sql, tail: Sqls)

  /** What SQL works out: NULL, a value, or a dynamic value's tuple, whose part of its type is set and
      the others NULL. There is no NULL tuple. */
  datatype Cell = Null | Val(value: Value) | Tuple(held: Option<Value>)

  function CellOf(v: Option<Value>): Cell {
    if v.Some? then Val(v.value) else Null
  }

  /** A value's part of a type, JSON as its text. */
  function PartCell(v: Option<Value>, part: AttributeType): Cell {
    match Part(v, part)
    case None => Null
    case Some(JSON(s)) => Val(Text(s))
    case Some(a) => Val(a)
  }

  /** What a cell holds, if anything. */
  function Held(c: Cell): Option<Value> {
    match c
    case Null => None
    case Val(v) => Some(v)
    case Tuple(v) => v
  }

  function Truth(b: bool): Cell {
    Val(Bool(b))
  }

  // The three-valued connectives.

  function AndCells(a: Cell, b: Cell): Cell {
    if a == Truth(false) || b == Truth(false) then Truth(false)
    else if a == Truth(true) && b == Truth(true) then Truth(true)
    else Null
  }

  function OrCells(a: Cell, b: Cell): Cell {
    if a == Truth(true) || b == Truth(true) then Truth(true)
    else if a == Truth(false) && b == Truth(false) then Truth(false)
    else Null
  }

  function NotCell(a: Cell): Cell {
    if a == Truth(true) then Truth(false) else if a == Truth(false) then Truth(true) else Null
  }

  function BinaryCells(a: Cell, op: Op, b: Cell): Cell {
    if op == IsDistinctFrom then Truth(a != b)
    else if !a.Val? || !b.Val? then Null
    else if op == Equal then Truth(a.value == b.value)
    else if op == NotEqual then Truth(a.value != b.value)
    else Truth(Related(op.op, a.value, b.value))
  }

  /** What a piece of SQL is on a row. */
  function Eval(s: Sql, row: Row, fns: Functions): Cell {
    match s
    case Column(name, dynamic) =>
      if dynamic then Tuple(Get(row.columns, name)) else CellOf(Get(row.columns, name))
    case BuiltIn(name) => CellOf(Get(row.builtIns, name))
    case Attribute(part, name) => PartCell(Get(row.attributes, name), part)
    case DynamicAttribute(name) => Tuple(Get(row.attributes, name))
    case StringColumn(key) =>
      var v := Part(Get(row.attributes, key), StringAttribute);
      Val(if v.Some? then v.value else Text(""))
    case SearchText => Val(Text(fns.searchText(row.attributes)))
    case Element(x, part) =>
      var tuple := Eval(x, row, fns);
      if tuple.Tuple? then PartCell(tuple.held, part) else Null
    case Lit(v) => Val(v)
    case Coalesce(x, y) =>
      var a := Eval(x, row, fns);
      if a == Null then Eval(y, row, fns) else a
    case Binary(x, op, y) => BinaryCells(Eval(x, row, fns), op, Eval(y, row, fns))
    case IsNull(x) => Truth(Eval(x, row, fns) == Null)
    case Both(x, y) => AndCells(Eval(x, row, fns), Eval(y, row, fns))
    case Either(x, y) => OrCells(Eval(x, row, fns), Eval(y, row, fns))
    case Inverse(x) => NotCell(Eval(x, row, fns))
    case Matches(op, x, pattern, caseSensitive) =>
      var a := Eval(x, row, fns);
      if a.Val? && a.value.Text? then Truth(fns.matches(op, caseSensitive, a.value.text, pattern)) else Null
    case Arithmetic(op, x, y, t) =>
      var a, b := Held(Eval(x, row, fns)), Held(Eval(y, row, fns));
      CellOf(if a.Some? && b.Some? then OfType(fns.arith(op, a.value, b.value), t) else None)
    case Minus(x) => CellOf(Negated(Held(Eval(x, row, fns))))
    case Function(fn, args, t) =>
      var values := EvalAll(args, row, fns);
      CellOf(if values.Some? then OfType(Called(fns, fn, values.value), t) else None)
  }

  function EvalAll(args: Sqls, row: Row, fns: Functions): Option<seq<Value>> {
    match args
    case NoSql => Some([])
    case Sqls(head, tail) => AllArgs(Held(Eval(head, row, fns)), EvalAll(tail, row, fns))
  }

  /** A WHERE keeps the row. */
  predicate Keeps(s: Sql, row: Row, fns: Functions) {
    Eval(s, row, fns) == Truth(true)
  }

  function OrFalse(s: Sql): Sql {
    Coalesce(s, Lit(Bool(false)))
  }

  /** A condition the compiler made that Always was folded out of. */
  predicate Writable(e: Expr) {
    Typed(e) && NoAlways(e)
  }

  /** The column that holds a string Attribute compared with a string that isn't empty, and the
      string, if the source has one. */
  function StringColumnCompare(x: Expr, y: Expr, stringColumns: set<string>): Option<(string, string)> {
    var (field, other) := if x.Literal? then (y, x) else (x, y);
    if field.FieldRef? && !field.builtIn && field.t == StringType
       && other.Literal? && other.value.Text? && other.value.text != "" && field.name in stringColumns
    then Some((field.name, other.value.text))
    else None
  }

  /** writeCompare. */
  function WriteCompare(x: Expr, op: CompareOp, y: Expr, a: Sql, b: Sql, stringColumns: set<string>,
                        negate: bool): Sql {
    var equal := IsEquality(op);
    var column := StringColumnCompare(x, y, stringColumns);
    if equal && Typ(x) != Typ(y) then Lit(Bool((op == NE) != negate))
    else if equal && column.Some? then
      Binary(StringColumn(column.value.0), if (op == Eq) != negate then Equal else NotEqual, Lit(Text(column.value.1)))
    else if equal then
      Binary(a, if (op == Eq) != negate then Equal else IsDistinctFrom, b)
    else
      var test := Binary(a, Ordered(op), b);
      if negate then Inverse(OrFalse(test)) else test
  }

  /** partsOf: a dynamic value's part of a type. */
  function PartOfDynamic(x: Expr, part: AttributeType): Sql
    requires x.FieldRef? || x.ColumnRef?
  {
    if x.FieldRef? then Attribute(part, x.name) else Element(Column(x.name, x.t == DynamicType), part)
  }

  function NullOrEmpty(v: Sql): Sql {
    Either(IsNull(v), Binary(v, Equal, Lit(Text(""))))
  }

  /** writeIsEmpty. */
  function WriteIsEmpty(x: Expr, v: Sql): Sql
    requires Typ(x) == DynamicType ==> x.FieldRef? || x.ColumnRef?
  {
    match Typ(x)
    case StringType => NullOrEmpty(v)
    case DynamicType =>
      Both(NullOrEmpty(PartOfDynamic(x, StringAttribute)),
           Both(IsNull(PartOfDynamic(x, NumberAttribute)),
                Both(IsNull(PartOfDynamic(x, BoolAttribute)), IsNull(PartOfDynamic(x, JSONAttribute)))))
    case _ => IsNull(v)
  }

  /** writeCondition: a condition, or its negation, with negations pushed down to the tests. */
  function WriteCondition(p: Expr, stringColumns: set<string>, negate: bool): Sql
    requires Writable(p) && Typ(p) == BoolType
    decreases p, 1
  {
    if !IsTest(p) then
      var test := WriteValue(p, stringColumns);
      if negate then Inverse(OrFalse(test)) else test
    else
    match p
    case And(x, y) =>
      var a, b := WriteCondition(x, stringColumns, negate), WriteCondition(y, stringColumns, negate);
      if negate then Either(a, b) else Both(a, b)
    case Or(x, y) =>
      var a, b := WriteCondition(x, stringColumns, negate), WriteCondition(y, stringColumns, negate);
      if negate then Both(a, b) else Either(a, b)
    case Not(x) => WriteCondition(x, stringColumns, !negate)
    case Compare(x, op, y) =>
      WriteCompare(x, op, y, WriteValue(x, stringColumns), WriteValue(y, stringColumns), stringColumns, negate)
    case IsEmpty(x) =>
      var test := WriteIsEmpty(x, WriteValue(x, stringColumns));
      if negate then Inverse(test) else test
    case TextMatch(op, x, pattern, caseSensitive) =>
      var test := Matches(op, WriteValue(x, stringColumns), pattern, caseSensitive);
      if negate then Inverse(OrFalse(test)) else test
  }

  /** writeValue: an expression as a value. A condition's value is true or false, never NULL. */
  function WriteValue(x: Expr, stringColumns: set<string>): Sql
    requires Writable(x)
    decreases x, if IsTest(x) then 2 else 0
  {
    if IsTest(x) then OrFalse(WriteCondition(x, stringColumns, false))
    else
    match x
    case FieldRef(name, builtIn, t) =>
      if builtIn then BuiltIn(name)
      else if AttributeTypeOf(t).Some? then Attribute(AttributeTypeOf(t).value, name)
      else DynamicAttribute(name)
    case AttributeText(name) => Coalesce(Attribute(StringAttribute, name), Attribute(JSONAttribute, name))
    case ColumnRef(name, t, _) => Column(name, t == DynamicType)
    case PartOf(of, t) => PartOfDynamic(of, AttributeTypeOf(t).value)
    case Literal(v) => Lit(v)
    case Arith(op, a, b, t) => Arithmetic(op, WriteValue(a, stringColumns), WriteValue(b, stringColumns), t)
    case Negative(a) => Minus(WriteValue(a, stringColumns))
    case Call(fn, args, t) => Function(fn, WriteArgs(args, stringColumns), t)
  }

  function WriteArgs(args: Exprs, stringColumns: set<string>): Sqls
    requires AllTyped(args) && NoneAlways(args)
  {
    match args
    case NoArgs => NoSql
    case Args(head, tail) => Sqls(WriteValue(head, stringColumns), WriteArgs(tail, stringColumns))
  }
}

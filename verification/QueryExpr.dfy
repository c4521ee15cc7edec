/** Conditions on Logs as compiled (logquery/expr.go), and what they mean: a test of a Field the Log
    lacks is false, and its negation true. Times are whole microseconds and numbers are never NaN;
    scalar functions, arithmetic and text matching are any functions, which have no value where an
    argument has none. parse_json and paths into JSON are not part of this model. */
module QueryExpr {
  import opened Basics

  datatype Type = StringType | NumberType | BoolType | TimeType | TimespanType | DynamicType

  /** The types of Attribute; a dynamic value is one of them. */
  datatype AttributeType = StringAttribute | NumberAttribute | BoolAttribute | JSONAttribute

  datatype Value =
    | Text(text: string)
    | Number(number: real)
    | Bool(truth: bool)
    | Time(at: int)
    | Timespan(span: int)
    | JSON(json: string)

  datatype CompareOp = Eq | NE | LT | LE | GT | GE

  predicate IsEquality(op: CompareOp) {
    op == Eq || op == NE
  }

  datatype MatchOp = Contains | StartsWith | Regex | Equals

  datatype Expr =
    | FieldRef(name: string, builtIn: bool, t: Type)
    | AttributeText(name: string)
    | ColumnRef(name: string, t: Type, message: bool)
    | PartOf(x: Expr, t: Type)
    | Literal(value: Value)
    | Compare(x: Expr, op: CompareOp, y: Expr)
    | TextMatch(match_: MatchOp, x: Expr, pattern: string, caseSensitive: bool)
    | IsEmpty(x: Expr)
    | Always
    | And(x: Expr, y: Expr)
    | Or(x: Expr, y: Expr)
    | Not(x: Expr)
    | Arith(arith: string, x: Expr, y: Expr, t: Type)
    | Negative(x: Expr)
    | Call(fn: string, args: Exprs, t: Type)

  datatype Exprs = NoArgs | Args(head: Expr, tail: Exprs)

  /** A row a condition is tested on: a Log's built-in fields and Attributes, and the columns stages
      added. A name it lacks has no value. */
  datatype Row = Row(builtIns: map<string, Value>, attributes: map<string, Value>, columns: map<string, Value>)

  datatype Functions = Functions(
    call: (string, seq<Value>) -> Option<Value>,
    arith: (string, Value, Value) -> Option<Value>,
    matches: (MatchOp, bool, string, string) -> bool,
    searchText: map<string, Value> -> string)

  function TypeOf(v: Value): Type {
    match v
    case Text(_) => StringType
    case Number(_) => NumberType
    case Bool(_) => BoolType
    case Time(_) => TimeType
    case Timespan(_) => TimespanType
    case JSON(_) => DynamicType
  }

  function Typ(e: Expr): Type {
    match e
    case FieldRef(_, _, t) => t
    case AttributeText(_) => StringType
    case ColumnRef(_, t, _) => t
    case PartOf(_, t) => t
    case Literal(v) => TypeOf(v)
    case Arith(_, _, _, t) => t
    case Negative(x) => Typ(x)
    case Call(_, _, t) => t
    case _ => BoolType
  }

  function Get(values: map<string, Value>, name: string): Option<Value> {
    if name in values then Some(values[name]) else None
  }

  /** The type of Attribute a value of the type is read from. */
  function AttributeTypeOf(t: Type): Option<AttributeType> {
    match t
    case StringType => Some(StringAttribute)
    case NumberType => Some(NumberAttribute)
    case BoolType => Some(BoolAttribute)
    case _ => None
  }

  predicate IsPart(v: Value, t: AttributeType) {
    match t
    case StringAttribute => v.Text?
    case NumberAttribute => v.Number?
    case BoolAttribute => v.Bool?
    case JSONAttribute => v.JSON?
  }

  /** The part of a dynamic value that holds values of the type. */
  function Part(v: Option<Value>, t: AttributeType): Option<Value> {
    if v.Some? && IsPart(v.value, t) then v else None
  }

  function OfType(v: Option<Value>, t: Type): Option<Value> {
    if v.Some? && TypeOf(v.value) == t then v else None
  }

  // Strings are in order of their bytes.
  predicate TextBefore(a: string, b: string)
    decreases |a|
  {
    b != [] && (a == [] || a[0] < b[0] || (a[0] == b[0] && TextBefore(a[1..], b[1..])))
  }

  /** The strings are the same up to i, and there a ends or has the lesser character. */
  ghost predicate DifferAt(a: string, b: string, i: int) {
    0 <= i <= |a| && i < |b| && a[..i] == b[..i] && (i == |a| || a[i] < b[i])
  }

  lemma {:induction false} TextBeforeIs(a: string, b: string)
    ensures TextBefore(a, b) <==> exists i :: DifferAt(a, b, i)
    decreases |a|
  {
    if a != [] && b != [] && a[0] == b[0] {
      TextBeforeIs(a[1..], b[1..]);
      if i :| DifferAt(a[1..], b[1..], i) {
        assert a[..i + 1] == [a[0]] + a[1..][..i] && b[..i + 1] == [b[0]] + b[1..][..i];
        assert DifferAt(a, b, i + 1);
      }
      if i :| DifferAt(a, b, i) {
        assert a[1..][..i - 1] == a[..i][1..] && b[1..][..i - 1] == b[..i][1..];
        assert DifferAt(a[1..], b[1..], i - 1);
      }
    } else {
      assert TextBefore(a, b) ==> DifferAt(a, b, 0);
      assert forall i :: DifferAt(a, b, i) && i > 0 ==> a[..i][0] == b[..i][0];
    }
  }

  predicate Before(a: Value, b: Value) {
    match (a, b)
    case (Text(s), Text(t)) => TextBefore(s, t)
    case (Number(m), Number(n)) => m < n
    case (Time(s), Time(t)) => s < t
    case (Timespan(s), Timespan(t)) => s < t
    case _ => false
  }

  predicate Related(op: CompareOp, a: Value, b: Value) {
    match op
    case Eq => a == b
    case NE => a != b
    case LT => Before(a, b)
    case LE => Before(a, b) || a == b
    case GT => Before(b, a)
    case GE => Before(b, a) || a == b
  }

  function Negated(v: Option<Value>): Option<Value> {
    match v
    case Some(Number(n)) => Some(Number(-n))
    case Some(Timespan(s)) => Some(Timespan(-s))
    case _ => None
  }

  /** The start of the bin of a size that a time is in. */
  function BinOf(time: int, size: int): int
    requires size > 0
  {
    time / size * size
  }

  lemma BinOfIs(time: int, size: int)
    requires size > 0
    ensures BinOf(time, size) <= time < BinOf(time, size) + size && exists n :: BinOf(time, size) == n * size
  {
  }

  function Called(fns: Functions, fn: string, args: seq<Value>): Option<Value> {
    if fn in ["bin", "floor"] && |args| == 2 && args[0].Time? && args[1].Timespan? && args[1].span > 0
    then Some(Time(BinOf(args[0].at, args[1].span)))
    else fns.call(fn, args)
  }

  /** Every argument's value, if each has one. */
  function AllArgs(first: Option<Value>, rest: Option<seq<Value>>): Option<seq<Value>> {
    if first.Some? && rest.Some? then Some([first.value] + rest.value) else None
  }

  predicate IsTest(e: Expr) {
    e.Compare? || e.TextMatch? || e.IsEmpty? || e.And? || e.Or? || e.Not? || e.Always?
  }

  /** What an expression is on a row, if anything. A condition is always true or false. */
  function ValueOf(e: Expr, row: Row, fns: Functions): Option<Value>
    decreases e, if IsTest(e) then 2 else 0
  {
    match e
    case FieldRef(name, builtIn, t) =>
      if builtIn then Get(row.builtIns, name)
      else if AttributeTypeOf(t).Some? then Part(Get(row.attributes, name), AttributeTypeOf(t).value)
      else Get(row.attributes, name)
    case AttributeText(name) =>
      (match Get(row.attributes, name)
       case Some(Text(s)) => Some(Text(s))
       case Some(JSON(s)) => Some(Text(s))
       case _ => None)
    case ColumnRef(name, _, _) => Get(row.columns, name)
    case PartOf(x, t) =>
      if AttributeTypeOf(t).Some? then Part(ValueOf(x, row, fns), AttributeTypeOf(t).value) else None
    case Literal(v) => Some(v)
    case Arith(op, x, y, t) =>
      var a, b := ValueOf(x, row, fns), ValueOf(y, row, fns);
      if a.Some? && b.Some? then OfType(fns.arith(op, a.value, b.value), t) else None
    case Negative(x) => Negated(ValueOf(x, row, fns))
    case Call(fn, args, t) =>
      var values := Values(args, row, fns);
      if values.Some? then OfType(Called(fns, fn, values.value), t) else None
    case _ => Some(Bool(Holds(e, row, fns)))
  }

  function Values(args: Exprs, row: Row, fns: Functions): Option<seq<Value>> {
    match args
    case NoArgs => Some([])
    case Args(head, tail) => AllArgs(ValueOf(head, row, fns), Values(tail, row, fns))
  }

  /** Whether a condition holds of a row, as a person reads it. */
  predicate Holds(e: Expr, row: Row, fns: Functions)
    decreases e, 1
  {
    match e
    case And(x, y) => Holds(x, row, fns) && Holds(y, row, fns)
    case Or(x, y) => Holds(x, row, fns) || Holds(y, row, fns)
    case Not(x) => !Holds(x, row, fns)
    case Always => true
    case Compare(x, op, y) =>
      var a, b := ValueOf(x, row, fns), ValueOf(y, row, fns);
      if op == NE then !(a.Some? && b.Some? && a.value == b.value)
      else a.Some? && b.Some? && Related(op, a.value, b.value)
    case TextMatch(op, x, pattern, caseSensitive) =>
      var a := ValueOf(x, row, fns);
      a.Some? && a.value.Text? && fns.matches(op, caseSensitive, a.value.text, pattern)
    case IsEmpty(x) =>
      var a := ValueOf(x, row, fns);
      a.None? || a.value == Text("")
    case _ => ValueOf(e, row, fns) == Some(Bool(true))
  }

  /** No test within is always. */
  predicate NoAlways(e: Expr) {
    match e
    case Always => false
    case PartOf(x, _) => NoAlways(x)
    case Compare(x, _, y) => NoAlways(x) && NoAlways(y)
    case TextMatch(_, x, _, _) => NoAlways(x)
    case IsEmpty(x) => NoAlways(x)
    case And(x, y) => NoAlways(x) && NoAlways(y)
    case Or(x, y) => NoAlways(x) && NoAlways(y)
    case Not(x) => NoAlways(x)
    case Arith(_, x, y, _) => NoAlways(x) && NoAlways(y)
    case Negative(x) => NoAlways(x)
    case Call(_, args, _) => NoneAlways(args)
    case _ => true
  }

  predicate NoneAlways(args: Exprs) {
    match args
    case NoArgs => true
    case Args(head, tail) => NoAlways(head) && NoneAlways(tail)
  }

  /** Compiling refuses any other: a side of == or != is dynamic only beside a time or timespan, the
      sides of an order are of one type, text is matched in strings, and conditions join conditions. */
  predicate Typed(e: Expr) {
    match e
    case FieldRef(_, builtIn, t) => if builtIn then t != DynamicType else t == DynamicType || AttributeTypeOf(t).Some?
    case PartOf(x, t) => Typed(x) && x.ColumnRef? && x.t == DynamicType && AttributeTypeOf(t).Some?
    case Literal(v) => !v.JSON?
    case Compare(x, op, y) =>
      && Typed(x) && Typed(y)
      && (if IsEquality(op) then !MaybeSame(Typ(x), Typ(y)) || (Typ(x) == Typ(y) && Typ(x) != DynamicType)
          else Typ(x) == Typ(y) && Typ(x) != DynamicType)
    case TextMatch(_, x, _, _) => Typed(x) && Typ(x) == StringType
    case IsEmpty(x) => Typed(x) && (Typ(x) == DynamicType ==> x.FieldRef? || x.ColumnRef?)
    case And(x, y) => Typed(x) && Typed(y) && Typ(x) == Typ(y) == BoolType
    case Or(x, y) => Typed(x) && Typed(y) && Typ(x) == Typ(y) == BoolType
    case Not(x) => Typed(x) && Typ(x) == BoolType
    case Arith(_, x, y, t) => Typed(x) && Typed(y) && Typ(x) != DynamicType && Typ(y) != DynamicType && t != DynamicType
    case Negative(x) => Typed(x) && (Typ(x) == NumberType || Typ(x) == TimespanType)
    case Call(_, args, t) => AllTyped(args) && t != DynamicType
    case _ => true
  }

  predicate AllTyped(args: Exprs) {
    match args
    case NoArgs => true
    case Args(head, tail) => Typed(head) && AllTyped(tail)
  }

  /** Whether values of the two types may be the same. */
  predicate MaybeSame(a: Type, b: Type) {
    a == b || (a == DynamicType && AttributeTypeOf(b).Some?) || (b == DynamicType && AttributeTypeOf(a).Some?)
  }

  predicate IsAttributeValue(v: Value) {
    v.Text? || v.Number? || v.Bool? || v.JSON?
  }

  /** The row's values are of the types the expression reads them as. */
  predicate Fits(e: Expr, row: Row) {
    match e
    case FieldRef(name, true, t) => name in row.builtIns ==> TypeOf(row.builtIns[name]) == t
    case FieldRef(name, false, _) => name in row.attributes ==> IsAttributeValue(row.attributes[name])
    case ColumnRef(name, t, _) =>
      name in row.columns ==>
        if t == DynamicType then IsAttributeValue(row.columns[name]) else TypeOf(row.columns[name]) == t
    case PartOf(x, _) => Fits(x, row)
    case Compare(x, _, y) => Fits(x, row) && Fits(y, row)
    case TextMatch(_, x, _, _) => Fits(x, row)
    case IsEmpty(x) => Fits(x, row)
    case And(x, y) => Fits(x, row) && Fits(y, row)
    case Or(x, y) => Fits(x, row) && Fits(y, row)
    case Not(x) => Fits(x, row)
    case Arith(_, x, y, _) => Fits(x, row) && Fits(y, row)
    case Negative(x) => Fits(x, row)
    case Call(_, args, _) => AllFit(args, row)
    case _ => true
  }

  predicate AllFit(args: Exprs, row: Row) {
    match args
    case NoArgs => true
    case Args(head, tail) => Fits(head, row) && AllFit(tail, row)
  }

  /** A value is of its expression's type. */
  lemma {:induction false} ValueIsOfType(e: Expr, row: Row, fns: Functions)
    requires Typed(e) && Fits(e, row) && ValueOf(e, row, fns).Some?
    ensures Typ(e) != DynamicType ==> TypeOf(ValueOf(e, row, fns).value) == Typ(e)
    ensures Typ(e) == DynamicType ==> IsAttributeValue(ValueOf(e, row, fns).value)
  {
    match e
    case Negative(x) => ValueIsOfType(x, row, fns);
    case _ =>
  }
}

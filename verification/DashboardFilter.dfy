/** Dashboard filters in a where's condition (logquery/expr.go predicate, filter): comparisons with a
    filter's values, which fold away where the filter is All. A name is compiled as an Attribute, a
    column of no fixed type, or an expression of a fixed type; reads is the number or bool a text
    reads as, if any. Compile errors other than those of misplaced stages are not part of this model. */
module DashboardFilter {
  import opened Basics
  import opened QueryExpr
  import opened QueryMeaning

  datatype Side = AttributeSide(name: string) | ColumnSide(name: string) | FixedSide(x: Expr)

  /** ==, != or one of the operators on text: contains, startswith and =~, with case or not, or their
      negations. */
  datatype FilterOp =
    | Equality(negated: bool)
    | OnText(match_: MatchOp, caseSensitive: bool, negated: bool)

  datatype Source =
    | Conjunction(x: Source, y: Source)
    | Disjunction(x: Source, y: Source)
    | Compared(op: FilterOp, side: Side, filter: string)
    | Condition(e: Expr)

  type Reads = string -> Option<Value>

  ghost predicate ReadsValues(reading: Reads) {
    forall v :: reading(v).Some? ==> reading(v).value.Number? || reading(v).value.Bool?
  }

  /** What the compiler refuses is not a source: a text operator is on strings. */
  predicate SideAllowed(op: FilterOp, side: Side) {
    side.FixedSide? ==>
      && Typed(side.x) && NoAlways(side.x)
      && Typ(side.x) != DynamicType
      && !(side.x.FieldRef? && !side.x.builtIn) && !side.x.PartOf?
      && (op.OnText? ==> Typ(side.x) == StringType)
  }

  /** Each == and != in a side has a literal for a side. */
  predicate LiteralSide(side: Side) {
    side.FixedSide? ==> LiteralSides(side.x)
  }

  predicate SourceAllowed(s: Source) {
    match s
    case Conjunction(x, y) => SourceAllowed(x) && SourceAllowed(y)
    case Disjunction(x, y) => SourceAllowed(x) && SourceAllowed(y)
    case Compared(op, side, _) => SideAllowed(op, side)
    case Condition(e) => Typed(e) && NoAlways(e) && Typ(e) == BoolType
  }

  /** The side read as a type, where it has none of its own. */
  function SideAs(side: Side, t: Type): Expr {
    match side
    case AttributeSide(name) => FieldRef(name, false, t)
    case ColumnSide(name) => PartOf(ColumnRef(name, DynamicType, false), t)
    case FixedSide(x) => x
  }

  /** textOperand: contains reads an Attribute's arrays too. */
  function TextOperand(op: FilterOp, side: Side): Expr {
    if op.OnText? && op.match_ == Contains && side.AttributeSide? then AttributeText(side.name)
    else SideAs(side, StringType)
  }

  predicate Untyped(x: Expr) {
    (x.FieldRef? && !x.builtIn) || x.PartOf?
  }

  function ValueAs(reading: Reads, t: Type, v: string): Value {
    if reading(v).Some? && TypeOf(reading(v).value) == t then reading(v).value else Text(v)
  }

  function Join(negated: bool, x: Expr, y: Expr): Expr {
    if negated then And(x, y) else Or(x, y)
  }

  /** The comparison with one value. */
  function MatchOne(op: FilterOp, side: Side, v: string, reading: Reads): Expr {
    var x := TextOperand(op, side);
    var m :=
      match op
      case OnText(match_, caseSensitive, negated) =>
        var m := TextMatch(match_, x, v, caseSensitive);
        if negated then Not(m) else m
      case Equality(negated) => Compare(x, if negated then NE else Eq, Literal(ValueAs(reading, Typ(x), v)));
    if Untyped(x) && (op.Equality? || op.match_ == Equals) && reading(v).Some? then
      Join(op.negated, m,
           Compare(SideAs(side, TypeOf(reading(v).value)), if op.negated then NE else Eq, Literal(reading(v).value)))
    else m
  }

  function NonEmpty(values: seq<string>): (kept: seq<string>)
    ensures forall v :: v in kept <==> v in values && v != ""
  {
    if values == [] then []
    else
      var before, last := NonEmpty(values[..|values| - 1]), values[|values| - 1];
      assert values == values[..|values| - 1] + [last];
      if last != "" then before + [last] else before
  }

  /** The comparison with each value, joined. */
  function MatchAll(op: FilterOp, side: Side, values: seq<string>, reading: Reads): Expr
    requires values != []
  {
    var last := MatchOne(op, side, values[|values| - 1], reading);
    if |values| == 1 then last
    else Join(op.negated, MatchAll(op, side, values[..|values| - 1], reading), last)
  }

  /** filter: side <op> $name. */
  method CompileFilter(op: FilterOp, side: Side, given: seq<string>, reading: Reads) returns (all: Expr)
    ensures all == FilterExpr(op, side, given, reading)
  {
    var values := [];
    for i := 0 to |given|
      invariant values == NonEmpty(given[..i])
    {
      assert given[..i + 1][..i] == given[..i];
      if given[i] != "" {
        values := values + [given[i]];
      }
    }
    assert given[..|given|] == given;
    if |values| == 0 {
      return Always;
    }
    all := MatchOne(op, side, values[0], reading);
    for i := 1 to |values|
      invariant all == MatchAll(op, side, values[..i], reading)
    {
      assert values[..i + 1][..i] == values[..i];
      all := Join(op.negated, all, MatchOne(op, side, values[i], reading));
    }
    assert values[..|values|] == values;
  }

  function FilterExpr(op: FilterOp, side: Side, given: seq<string>, reading: Reads): Expr {
    if NonEmpty(given) == [] then Always else MatchAll(op, side, NonEmpty(given), reading)
  }

  function Given(values: map<string, seq<string>>, filter: string): seq<string> {
    if filter in values then values[filter] else []
  }

  /** predicate: a comparison with a filter set to All is always, and and and or fold it away. */
  function Predicate(s: Source, values: map<string, seq<string>>, reading: Reads): Expr {
    match s
    case Disjunction(a, b) =>
      var x, y := Predicate(a, values, reading), Predicate(b, values, reading);
      if x.Always? || y.Always? then Always else Or(x, y)
    case Conjunction(a, b) =>
      var x, y := Predicate(a, values, reading), Predicate(b, values, reading);
      if x.Always? then y else if y.Always? then x else And(x, y)
    case Compared(op, side, filter) => FilterExpr(op, side, Given(values, filter), reading)
    case Condition(e) => e
  }

  // What a filter means.

  /** The side's value on a row, whatever its type. */
  function SideValue(side: Side, row: Row, fns: Functions): Option<Value> {
    match side
    case AttributeSide(name) => Get(row.attributes, name)
    case ColumnSide(name) => Get(row.columns, name)
    case FixedSide(x) => ValueOf(x, row, fns)
  }

  /** The side's text: contains has an Attribute's array as its JSON text. */
  function SideText(op: FilterOp, side: Side, row: Row, fns: Functions): Option<string> {
    match SideValue(side, row, fns)
    case Some(Text(s)) => Some(s)
    case Some(JSON(s)) => if op.OnText? && op.match_ == Contains && side.AttributeSide? then Some(s) else None
    case _ => None
  }

  /** The value is a filter's value, given a fixed type: the number or bool the text reads as where that is
      of the type, and otherwise the text itself. */
  ghost predicate IsGiven(value: Option<Value>, t: Type, v: string, reading: Reads) {
    if reading(v).Some? && TypeOf(reading(v).value) == t then value == reading(v) else value == Some(Text(v))
  }

  /** Whether the row's value matches a filter's value: as text, or where it has no fixed type as the
      number or bool the text reads as too; or, of another type, as the value the text reads as. */
  ghost predicate Matches(op: FilterOp, side: Side, v: string, reading: Reads, row: Row, fns: Functions) {
    var value, text := SideValue(side, row, fns), SideText(op, side, row, fns);
    match op
    case Equality(_) =>
      if side.FixedSide? then IsGiven(value, Typ(side.x), v, reading)
      else value == Some(Text(v)) || (value.Some? && value == reading(v))
    case OnText(match_, caseSensitive, _) =>
      || (text.Some? && fns.matches(match_, caseSensitive, text.value, v))
      || (match_ == Equals && !side.FixedSide? && value.Some? && value == reading(v))
  }

  /** A filter set to no value but empty ones is set to All. */
  predicate IsAll(given: seq<string>) {
    forall v :: v in given ==> v == ""
  }

  /** A positive comparison holds where some value matches, a negated one where none does, and one with
      a filter set to All always. */
  ghost predicate FilterHolds(op: FilterOp, side: Side, given: seq<string>, reading: Reads, row: Row, fns: Functions) {
    if IsAll(given) then true
    else
      var some := exists v :: v in given && v != "" && Matches(op, side, v, reading, row, fns);
      some != op.negated
  }

  ghost predicate SourceHolds(s: Source, values: map<string, seq<string>>, reading: Reads, row: Row, fns: Functions) {
    match s
    case Conjunction(x, y) => SourceHolds(x, values, reading, row, fns) && SourceHolds(y, values, reading, row, fns)
    case Disjunction(x, y) => SourceHolds(x, values, reading, row, fns) || SourceHolds(y, values, reading, row, fns)
    case Compared(op, side, filter) =>
      if filter in values then FilterHolds(op, side, values[filter], reading, row, fns) else true
    case Condition(e) => Holds(e, row, fns)
  }

  lemma AlternativeMeans(side: Side, l: Value, row: Row, fns: Functions)
    requires !side.FixedSide? && (l.Number? || l.Bool?)
    ensures Holds(Compare(SideAs(side, TypeOf(l)), Eq, Literal(l)), row, fns) <==> SideValue(side, row, fns) == Some(l)
    ensures Holds(Compare(SideAs(side, TypeOf(l)), NE, Literal(l)), row, fns) <==> SideValue(side, row, fns) != Some(l)
  {
    var part := if l.Number? then NumberAttribute else BoolAttribute;
    assert AttributeTypeOf(TypeOf(l)) == Some(part);
    assert ValueOf(SideAs(side, TypeOf(l)), row, fns) == Part(SideValue(side, row, fns), part) by {
      if side.ColumnSide? {
        assert ValueOf(ColumnRef(side.name, DynamicType, false), row, fns) == Get(row.columns, side.name);
      }
    }
    assert ValueOf(Literal(l), row, fns) == Some(l);
  }

  lemma TextSideMeans(side: Side, row: Row, fns: Functions)
    requires !side.FixedSide?
    ensures ValueOf(SideAs(side, StringType), row, fns) == Part(SideValue(side, row, fns), StringAttribute)
  {
    if side.ColumnSide? {
      assert ValueOf(ColumnRef(side.name, DynamicType, false), row, fns) == Get(row.columns, side.name);
    }
  }

  /** The text a text operator tests. */
  lemma OperandMeans(op: FilterOp, side: Side, row: Row, fns: Functions)
    requires op.OnText? && SideAllowed(op, side)
    requires side.FixedSide? ==> Fits(side.x, row)
    ensures var v := ValueOf(TextOperand(op, side), row, fns);
            if v.Some? && v.value.Text? then SideText(op, side, row, fns) == Some(v.value.text)
            else SideText(op, side, row, fns) == None
  {
    if side.FixedSide? {
      if ValueOf(side.x, row, fns).Some? {
        ValueIsOfType(side.x, row, fns);
      }
    } else {
      TextSideMeans(side, row, fns);
    }
  }

  /** The comparison with one value, before the number or bool it reads as. */
  function MatchText(op: FilterOp, side: Side, v: string, reading: Reads): Expr {
    var x := TextOperand(op, side);
    match op
    case OnText(match_, caseSensitive, negated) =>
      var m := TextMatch(match_, x, v, caseSensitive);
      if negated then Not(m) else m
    case Equality(negated) => Compare(x, if negated then NE else Eq, Literal(ValueAs(reading, Typ(x), v)))
  }

  ghost predicate MatchesText(op: FilterOp, side: Side, v: string, reading: Reads, row: Row, fns: Functions) {
    var text := SideText(op, side, row, fns);
    match op
    case Equality(_) =>
      if side.FixedSide? then IsGiven(SideValue(side, row, fns), Typ(side.x), v, reading)
      else SideValue(side, row, fns) == Some(Text(v))
    case OnText(match_, caseSensitive, _) => text.Some? && fns.matches(match_, caseSensitive, text.value, v)
  }

  lemma MatchTextMeans(op: FilterOp, side: Side, v: string, reading: Reads, row: Row, fns: Functions)
    requires SideAllowed(op, side) && ReadsValues(reading)
    requires side.FixedSide? ==> Fits(side.x, row)
    ensures Holds(MatchText(op, side, v, reading), row, fns)
       <==> (MatchesText(op, side, v, reading, row, fns) != op.negated)
  {
    match op
    case OnText(match_, caseSensitive, negated) =>
      OperandMeans(op, side, row, fns);
      var m := TextMatch(match_, TextOperand(op, side), v, caseSensitive);
      assert Holds(Not(m), row, fns) == !Holds(m, row, fns);
    case Equality(negated) =>
      var literal := ValueAs(reading, Typ(TextOperand(op, side)), v);
      if !side.FixedSide? {
        TextSideMeans(side, row, fns);
        assert literal == Text(v);
      }
      assert ValueOf(Literal(literal), row, fns) == Some(literal);
  }

  /** The comparison with one value holds where the value matches, or negated where it doesn't. */
  lemma MatchOneMeans(op: FilterOp, side: Side, v: string, reading: Reads, row: Row, fns: Functions)
    requires SideAllowed(op, side) && ReadsValues(reading)
    requires side.FixedSide? ==> Fits(side.x, row)
    ensures Holds(MatchOne(op, side, v, reading), row, fns) <==> (Matches(op, side, v, reading, row, fns) != op.negated)
  {
    MatchTextMeans(op, side, v, reading, row, fns);
    var m := MatchText(op, side, v, reading);
    if !side.FixedSide? && (op.Equality? || op.match_ == Equals) && reading(v).Some? {
      var l := reading(v).value;
      AlternativeMeans(side, l, row, fns);
      var alternative := Compare(SideAs(side, TypeOf(l)), if op.negated then NE else Eq, Literal(l));
      assert MatchOne(op, side, v, reading) == Join(op.negated, m, alternative);
      JoinMeans(op.negated, m, alternative, row, fns);
    } else {
      assert MatchOne(op, side, v, reading) == m;
    }
  }

  lemma JoinMeans(negated: bool, x: Expr, y: Expr, row: Row, fns: Functions)
    ensures Holds(Join(negated, x, y), row, fns)
         == if negated then Holds(x, row, fns) && Holds(y, row, fns) else Holds(x, row, fns) || Holds(y, row, fns)
  {
  }

  lemma {:induction false} MatchAllMeans(op: FilterOp, side: Side, values: seq<string>, reading: Reads, row: Row,
                                         fns: Functions)
    requires values != [] && SideAllowed(op, side) && ReadsValues(reading)
    requires side.FixedSide? ==> Fits(side.x, row)
    ensures Holds(MatchAll(op, side, values, reading), row, fns)
       <==> ((exists v :: v in values && Matches(op, side, v, reading, row, fns)) != op.negated)
  {
    var before, last := values[..|values| - 1], values[|values| - 1];
    MatchOneMeans(op, side, last, reading, row, fns);
    assert values == before + [last] && last in values;
    assert forall v :: v in before ==> v in values;
    if |values| > 1 {
      MatchAllMeans(op, side, before, reading, row, fns);
      JoinMeans(op.negated, MatchAll(op, side, before, reading), MatchOne(op, side, last, reading), row, fns);
    }
  }

  lemma NoneIsAll(given: seq<string>)
    ensures NonEmpty(given) == [] <==> IsAll(given)
  {
    if IsAll(given) && NonEmpty(given) != [] {
      assert NonEmpty(given)[0] in NonEmpty(given);
    }
  }

  /** What filter compiles means what the filter does. */
  lemma FilterMeans(op: FilterOp, side: Side, given: seq<string>, reading: Reads, row: Row, fns: Functions)
    requires SideAllowed(op, side) && ReadsValues(reading)
    requires side.FixedSide? ==> Fits(side.x, row)
    ensures Holds(FilterExpr(op, side, given, reading), row, fns) <==> FilterHolds(op, side, given, reading, row, fns)
  {
    NoneIsAll(given);
    if NonEmpty(given) != [] {
      MatchAllMeans(op, side, NonEmpty(given), reading, row, fns);
    }
  }

  function Opposite(op: FilterOp): FilterOp {
    op.(negated := !op.negated)
  }

  lemma OppositeMatches(op: FilterOp, side: Side, reading: Reads, row: Row, fns: Functions)
    ensures forall v :: Matches(Opposite(op), side, v, reading, row, fns) <==> Matches(op, side, v, reading, row, fns)
  {
    assert SideText(Opposite(op), side, row, fns) == SideText(op, side, row, fns);
  }

  /** On every Log the negated comparison holds just where the positive one doesn't, if and only if the
      filter isn't set to All: on All both hold. */
  lemma NegatedIsComplement(op: FilterOp, side: Side, given: seq<string>, reading: Reads, row: Row, fns: Functions)
    requires SideAllowed(op, side) && ReadsValues(reading)
    requires side.FixedSide? ==> Fits(side.x, row)
    ensures (Holds(FilterExpr(Opposite(op), side, given, reading), row, fns)
        <==> !Holds(FilterExpr(op, side, given, reading), row, fns))
       <==> !IsAll(given)
  {
    NoneIsAll(given);
    if NonEmpty(given) != [] {
      FilterMeans(op, side, given, reading, row, fns);
      FilterMeans(Opposite(op), side, given, reading, row, fns);
      OppositeMatches(op, side, reading, row, fns);
    } else {
      AllHolds(op, side, given, reading, row, fns);
      AllHolds(Opposite(op), side, given, reading, row, fns);
    }
  }

  lemma AllHolds(op: FilterOp, side: Side, given: seq<string>, reading: Reads, row: Row, fns: Functions)
    requires SideAllowed(op, side) && NonEmpty(given) == []
    ensures Holds(FilterExpr(op, side, given, reading), row, fns)
  {
  }

  ghost predicate SourceFits(s: Source, row: Row) {
    match s
    case Conjunction(x, y) => SourceFits(x, row) && SourceFits(y, row)
    case Disjunction(x, y) => SourceFits(x, row) && SourceFits(y, row)
    case Compared(_, side, _) => side.FixedSide? ==> Fits(side.x, row)
    case Condition(e) => Fits(e, row)
  }

  /** Folding keeps a condition's meaning, with every comparison with All read as true. */
  lemma {:induction false} FoldingKeepsMeaning(s: Source, values: map<string, seq<string>>, reading: Reads, row: Row,
                                               fns: Functions)
    requires SourceAllowed(s) && SourceFits(s, row) && ReadsValues(reading)
    ensures Holds(Predicate(s, values, reading), row, fns) <==> SourceHolds(s, values, reading, row, fns)
  {
    match s
    case Conjunction(x, y) =>
      FoldingKeepsMeaning(x, values, reading, row, fns);
      FoldingKeepsMeaning(y, values, reading, row, fns);
      JoinMeans(true, Predicate(x, values, reading), Predicate(y, values, reading), row, fns);
    case Disjunction(x, y) =>
      FoldingKeepsMeaning(x, values, reading, row, fns);
      FoldingKeepsMeaning(y, values, reading, row, fns);
      JoinMeans(false, Predicate(x, values, reading), Predicate(y, values, reading), row, fns);
    case Compared(op, side, filter) => FilterMeans(op, side, Given(values, filter), reading, row, fns);
    case Condition(_) =>
  }

  /** A compiled condition. */
  predicate Compiled(e: Expr) {
    Typed(e) && NoAlways(e) && Typ(e) == BoolType
  }

  lemma MatchOneCompiled(op: FilterOp, side: Side, v: string, reading: Reads)
    requires SideAllowed(op, side) && ReadsValues(reading)
    ensures Compiled(MatchOne(op, side, v, reading))
    ensures LiteralSide(side) ==> LiteralSides(MatchOne(op, side, v, reading))
  {
    var m := MatchText(op, side, v, reading);
    MatchTextCompiled(op, side, v, reading);
    if !side.FixedSide? && (op.Equality? || op.match_ == Equals) && reading(v).Some? {
      var l := reading(v).value;
      SideCompiled(side, TypeOf(l));
      var alternative := Compare(SideAs(side, TypeOf(l)), if op.negated then NE else Eq, Literal(l));
      EqualityCompiled(SideAs(side, TypeOf(l)), op.negated, l);
      BothCompiled(op.negated, m, alternative);
      assert MatchOne(op, side, v, reading) == Join(op.negated, m, alternative);
    } else {
      assert MatchOne(op, side, v, reading) == m;
    }
  }

  lemma MatchTextCompiled(op: FilterOp, side: Side, v: string, reading: Reads)
    requires SideAllowed(op, side) && ReadsValues(reading)
    ensures Compiled(MatchText(op, side, v, reading))
    ensures LiteralSide(side) ==> LiteralSides(MatchText(op, side, v, reading))
  {
    var x := TextOperand(op, side);
    OperandCompiled(op, side);
    match op
    case OnText(match_, caseSensitive, _) =>
      var m := TextMatch(match_, x, v, caseSensitive);
      assert Compiled(m) && (LiteralSides(m) <==> LiteralSides(x));
    case Equality(_) =>
      EqualityCompiled(x, op.negated, ValueAs(reading, Typ(x), v));
  }

  lemma EqualityCompiled(x: Expr, negated: bool, l: Value)
    requires Typed(x) && NoAlways(x) && !l.JSON? && Typ(x) != DynamicType
    ensures var e := Compare(x, if negated then NE else Eq, Literal(l));
            Compiled(e) && (LiteralSides(x) ==> LiteralSides(e))
  {
    assert Typed(Literal(l)) && NoAlways(Literal(l)) && LiteralSides(Literal(l)) && Typ(Literal(l)) == TypeOf(l);
  }

  lemma BothCompiled(negated: bool, x: Expr, y: Expr)
    requires Compiled(x) && Compiled(y)
    ensures Compiled(Join(negated, x, y))
    ensures LiteralSides(x) && LiteralSides(y) ==> LiteralSides(Join(negated, x, y))
  {
  }

  lemma OperandCompiled(op: FilterOp, side: Side)
    requires SideAllowed(op, side)
    ensures var x := TextOperand(op, side);
            && Typed(x) && NoAlways(x) && Typ(x) != DynamicType && (op.OnText? ==> Typ(x) == StringType)
            && (LiteralSide(side) ==> LiteralSides(x))
  {
    if !side.FixedSide? {
      SideCompiled(side, StringType);
    }
  }

  lemma SideCompiled(side: Side, t: Type)
    requires !side.FixedSide? && AttributeTypeOf(t).Some?
    ensures var x := SideAs(side, t); Typed(x) && NoAlways(x) && LiteralSides(x) && Typ(x) == t
  {
    if side.ColumnSide? {
      assert Typed(ColumnRef(side.name, DynamicType, false));
      assert NoAlways(ColumnRef(side.name, DynamicType, false)) &&
        LiteralSides(ColumnRef(side.name, DynamicType, false));
    }
  }

  lemma {:induction false} MatchAllCompiled(op: FilterOp, side: Side, values: seq<string>, reading: Reads)
    requires values != [] && SideAllowed(op, side) && ReadsValues(reading)
    ensures Compiled(MatchAll(op, side, values, reading))
    ensures LiteralSide(side) ==> LiteralSides(MatchAll(op, side, values, reading))
  {
    MatchOneCompiled(op, side, values[|values| - 1], reading);
    if |values| > 1 {
      MatchAllCompiled(op, side, values[..|values| - 1], reading);
    }
  }

  /** What predicate compiles is either always itself or a condition that holds no always, which is
      written as SQL; and its comparisons with filters each have a literal for a side. */
  lemma {:induction false} AlwaysOrNone(s: Source, values: map<string, seq<string>>, reading: Reads)
    requires SourceAllowed(s) && ReadsValues(reading)
    ensures Predicate(s, values, reading) == Always || Compiled(Predicate(s, values, reading))
    ensures OnlyFilters(s) ==> LiteralSides(Predicate(s, values, reading))
  {
    match s
    case Conjunction(x, y) => AlwaysOrNone(x, values, reading); AlwaysOrNone(y, values, reading);
    case Disjunction(x, y) => AlwaysOrNone(x, values, reading); AlwaysOrNone(y, values, reading);
    case Compared(op, side, filter) =>
      if NonEmpty(Given(values, filter)) != [] {
        MatchAllCompiled(op, side, NonEmpty(Given(values, filter)), reading);
      }
    case Condition(_) =>
  }

  /** Each == and != has a literal for a side, but for those with a filter, which are given one. */
  predicate OnlyFilters(s: Source) {
    match s
    case Conjunction(x, y) => OnlyFilters(x) && OnlyFilters(y)
    case Disjunction(x, y) => OnlyFilters(x) && OnlyFilters(y)
    case Compared(_, side, _) => LiteralSide(side)
    case Condition(e) => LiteralSides(e)
  }
}

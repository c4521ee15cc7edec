/** A Query's head, its leading where and search stages (logquery/sql.go Where and Filter): written as
    one condition, or as two for PREWHERE, the tests that read message and the rest. */
module QueryHead {
  import opened Basics
  import opened QueryExpr
  import opened QuerySql
  import opened QueryMeaning

  datatype Stage = Where(predicate_: Expr) | Search(terms: seq<string>)

  /** What the compiler lets into a head. */
  predicate Allowed(s: Stage) {
    match s
    case Where(p) => Writable(p) && Typ(p) == BoolType
    case Search(terms) => terms != []
  }

  ghost predicate AllAllowed(head: seq<Stage>) {
    forall s :: s in head ==> Allowed(s)
  }

  ghost predicate Suits(s: Stage, row: Row, fns: Functions) {
    s.Where? ==> Fits(s.predicate_, row) && OneSidePresent(s.predicate_, row, fns)
  }

  ghost predicate AllSuit(head: seq<Stage>, row: Row, fns: Functions) {
    forall s :: s in head ==> Suits(s, row, fns)
  }

  predicate Contains_(v: Option<Value>, term: string, fns: Functions) {
    v.Some? && v.value.Text? && fns.matches(Contains, false, v.value.text, term)
  }

  /** The Log's message, or its string Attributes' values, hold one of the terms. */
  ghost predicate Found(terms: seq<string>, row: Row, fns: Functions) {
    exists t :: t in terms && (Contains_(Get(row.builtIns, "message"), t, fns)
                               || Contains_(Some(Text(fns.searchText(row.attributes))), t, fns))
  }

  ghost predicate Passes(s: Stage, row: Row, fns: Functions) {
    match s
    case Where(p) => Holds(p, row, fns)
    case Search(terms) => Found(terms, row, fns)
  }

  /** The Log meets every stage of the head. */
  ghost predicate PassesAll(head: seq<Stage>, row: Row, fns: Functions) {
    forall s :: s in head ==> Passes(s, row, fns)
  }

  function MatchesTerm(term: string): Sql {
    Either(Matches(Contains, BuiltIn("message"), term, false), Matches(Contains, SearchText, term, false))
  }

  /** writeSearch: one of the terms, in message or in the string Attributes. */
  function WriteSearch(terms: seq<string>): Sql
    requires terms != []
  {
    if |terms| == 1 then MatchesTerm(terms[0])
    else Either(WriteSearch(terms[..|terms| - 1]), MatchesTerm(terms[|terms| - 1]))
  }

  /** The conditions all of which p is: those it ands. */
  function Conjuncts(p: Expr): (tests: seq<Expr>)
    ensures tests != [] && forall c :: c in tests ==> !c.And?
  {
    if p.And? then Conjuncts(p.x) + Conjuncts(p.y) else [p]
  }

  predicate IsMessage(x: Expr) {
    match x
    case FieldRef(name, builtIn, _) => builtIn && name == "message"
    case ColumnRef(_, _, message) => message
    case _ => false
  }

  /** Whether x reading a Log's message. */
  predicate ReadsMessage(x: Expr) {
    match x
    case FieldRef(_, _, _) => IsMessage(x)
    case ColumnRef(_, _, _) => IsMessage(x)
    case PartOf(a, _) => ReadsMessage(a)
    case Compare(a, _, b) => ReadsMessage(a) || ReadsMessage(b)
    case TextMatch(_, a, _, _) => ReadsMessage(a)
    case IsEmpty(a) => ReadsMessage(a)
    case And(a, b) => ReadsMessage(a) || ReadsMessage(b)
    case Or(a, b) => ReadsMessage(a) || ReadsMessage(b)
    case Not(a) => ReadsMessage(a)
    case Arith(_, a, b, _) => ReadsMessage(a) || ReadsMessage(b)
    case Negative(a) => ReadsMessage(a)
    case Call(_, args, _) => AnyReadsMessage(args)
    case _ => false
  }

  predicate AnyReadsMessage(args: Exprs) {
    match args
    case NoArgs => false
    case Args(head, tail) => ReadsMessage(head) || AnyReadsMessage(tail)
  }

  /** The Fields and columns an expression reads. */
  function Names(x: Expr): set<Expr> {
    match x
    case FieldRef(_, _, _) => {x}
    case ColumnRef(_, _, _) => {x}
    case PartOf(a, _) => Names(a)
    case Compare(a, _, b) => Names(a) + Names(b)
    case TextMatch(_, a, _, _) => Names(a)
    case IsEmpty(a) => Names(a)
    case And(a, b) => Names(a) + Names(b)
    case Or(a, b) => Names(a) + Names(b)
    case Not(a) => Names(a)
    case Arith(_, a, b, _) => Names(a) + Names(b)
    case Negative(a) => Names(a)
    case Call(_, args, _) => NamesOf(args)
    case _ => {}
  }

  function NamesOf(args: Exprs): set<Expr> {
    match args
    case NoArgs => {}
    case Args(head, tail) => Names(head) + NamesOf(tail)
  }

  /** An expression reads message just when it has the built-in message or a column of it. */
  lemma {:induction false} ReadsMessageIs(x: Expr)
    ensures ReadsMessage(x) <==>
      exists n :: n in Names(x)
        && ((n.FieldRef? && n.builtIn && n.name == "message") || (n.ColumnRef? && n.message))
  {
    match x
    case PartOf(a, _) => ReadsMessageIs(a);
    case Compare(a, _, b) => ReadsMessageIs(a); ReadsMessageIs(b);
    case TextMatch(_, a, _, _) => ReadsMessageIs(a);
    case IsEmpty(a) => ReadsMessageIs(a);
    case And(a, b) => ReadsMessageIs(a); ReadsMessageIs(b);
    case Or(a, b) => ReadsMessageIs(a); ReadsMessageIs(b);
    case Not(a) => ReadsMessageIs(a);
    case Arith(_, a, b, _) => ReadsMessageIs(a); ReadsMessageIs(b);
    case Negative(a) => ReadsMessageIs(a);
    case Call(_, args, _) => ArgsReadMessage(args);
    case _ =>
  }

  lemma {:induction false} ArgsReadMessage(args: Exprs)
    ensures AnyReadsMessage(args) <==>
      exists n :: n in NamesOf(args)
        && ((n.FieldRef? && n.builtIn && n.name == "message") || (n.ColumnRef? && n.message))
  {
    match args
    case NoArgs =>
    case Args(head, tail) => ReadsMessageIs(head); ArgsReadMessage(tail);
  }

  /** Conditions joined by AND, if there are any. */
  function Joined(conditions: seq<Sql>): Option<Sql> {
    if conditions == [] then None
    else if |conditions| == 1 then Some(conditions[0])
    else Some(Both(Joined(conditions[..|conditions| - 1]).value, conditions[|conditions| - 1]))
  }

  /** A read keeps the row: with no condition it keeps each. */
  predicate KeepsIf(condition: Option<Sql>, row: Row, fns: Functions) {
    condition.Some? ==> Keeps(condition.value, row, fns)
  }

  datatype Filter = Filter(rest: Option<Sql>, message: Option<Sql>)

  lemma {:induction false} JoinedKeepsAll(conditions: seq<Sql>, row: Row, fns: Functions)
    ensures KeepsIf(Joined(conditions), row, fns) <==> forall c :: c in conditions ==> Keeps(c, row, fns)
  {
    if |conditions| == 1 {
      assert conditions == [conditions[0]];
    } else if |conditions| > 1 {
      var before, last := conditions[..|conditions| - 1], conditions[|conditions| - 1];
      JoinedKeepsAll(before, row, fns);
      BothWritten(Joined(before).value, last, row, fns);
      assert conditions == before + [last];
      assert Joined(conditions) == Some(Both(Joined(before).value, last));
      assert forall c :: c in conditions <==> c in before || c == last;
      assert last in conditions;
    }
  }

  lemma TermWritten(term: string, row: Row, fns: Functions)
    ensures Keeps(MatchesTerm(term), row, fns)
       <==> Contains_(Get(row.builtIns, "message"), term, fns)
            || Contains_(Some(Text(fns.searchText(row.attributes))), term, fns)
  {
    var m, s := Matches(Contains, BuiltIn("message"), term, false), Matches(Contains, SearchText, term, false);
    EitherWritten(m, s, row, fns);
    assert Eval(BuiltIn("message"), row, fns) == CellOf(Get(row.builtIns, "message"));
    assert Eval(SearchText, row, fns) == Val(Text(fns.searchText(row.attributes)));
  }

  lemma {:induction false} SearchWritten(terms: seq<string>, row: Row, fns: Functions)
    requires terms != []
    ensures Keeps(WriteSearch(terms), row, fns) <==> Found(terms, row, fns)
  {
    var last := terms[|terms| - 1];
    TermWritten(last, row, fns);
    if |terms| == 1 {
      assert terms == [last];
    } else {
      var before := terms[..|terms| - 1];
      SearchWritten(before, row, fns);
      EitherWritten(WriteSearch(before), MatchesTerm(last), row, fns);
      assert terms == before + [last];
    }
  }

  /** A condition's conjuncts hold together just when it does, and are as well made. */
  lemma {:induction false} ConjunctsHold(p: Expr, row: Row, fns: Functions)
    ensures Holds(p, row, fns) <==> forall c :: c in Conjuncts(p) ==> Holds(c, row, fns)
  {
    if p.And? {
      ConjunctsHold(p.x, row, fns);
      ConjunctsHold(p.y, row, fns);
    }
  }

  lemma {:induction false} ConjunctsAllowed(p: Expr)
    requires Writable(p) && Typ(p) == BoolType
    ensures forall c :: c in Conjuncts(p) ==> Writable(c) && Typ(c) == BoolType
  {
    if p.And? {
      ConjunctsAllowed(p.x);
      ConjunctsAllowed(p.y);
    }
  }

  lemma {:induction false} ConjunctsSuit(p: Expr, row: Row, fns: Functions)
    requires Fits(p, row) && OneSidePresent(p, row, fns)
    ensures forall c :: c in Conjuncts(p) ==> Fits(c, row) && OneSidePresent(c, row, fns)
  {
    if p.And? {
      ConjunctsSuit(p.x, row, fns);
      ConjunctsSuit(p.y, row, fns);
    }
  }

  /** One stage's condition, as Where writes it. */
  function WriteStage(s: Stage, stringColumns: set<string>): Sql
    requires Allowed(s)
  {
    match s
    case Where(p) => WriteCondition(p, stringColumns, false)
    case Search(terms) => WriteSearch(terms)
  }

  lemma StageWritten(s: Stage, stringColumns: set<string>, row: Row, fns: Functions)
    requires Allowed(s) && Suits(s, row, fns)
    ensures Keeps(WriteStage(s, stringColumns), row, fns) <==> Passes(s, row, fns)
  {
    match s
    case Where(p) => ConditionWritten(p, stringColumns, false, row, fns);
    case Search(terms) => SearchWritten(terms, row, fns);
  }

  /** Query.Where: a source's condition keeps exactly the Logs that meet the head. */
  method WriteWhere(head: seq<Stage>, stringColumns: set<string>, ghost row: Row, ghost fns: Functions)
    returns (where: Option<Sql>)
    requires AllAllowed(head) && AllSuit(head, row, fns)
    ensures KeepsIf(where, row, fns) <==> PassesAll(head, row, fns)
    ensures where.None? <==> head == []
  {
    var conditions: seq<Sql> := [];
    for i := 0 to |head|
      invariant |conditions| == i
      invariant (forall c :: c in conditions ==> Keeps(c, row, fns)) <==> PassesAll(head[..i], row, fns)
    {
      assert head[..i + 1] == head[..i] + [head[i]];
      StageWritten(head[i], stringColumns, row, fns);
      conditions := conditions + [WriteStage(head[i], stringColumns)];
    }
    assert head[..|head|] == head;
    JoinedKeepsAll(conditions, row, fns);
    return Joined(conditions);
  }

  // A test that doesn't read message is the same whatever the message is.

  function WithMessage(row: Row, message: Value): Row {
    row.(builtIns := row.builtIns["message" := message])
  }

  lemma {:induction false} MessageUnread(e: Expr, row: Row, message: Value, fns: Functions)
    requires !ReadsMessage(e)
    ensures ValueOf(e, WithMessage(row, message), fns) == ValueOf(e, row, fns)
    ensures Holds(e, WithMessage(row, message), fns) == Holds(e, row, fns)
    decreases e, 1
  {
    if IsTest(e) {
      MessageUntested(e, row, message, fns);
    } else {
      match e
      case PartOf(x, _) => MessageUnread(x, row, message, fns);
      case Arith(_, x, y, _) => MessageUnread(x, row, message, fns); MessageUnread(y, row, message, fns);
      case Negative(x) => MessageUnread(x, row, message, fns);
      case Call(_, args, _) => MessageUnreadByArgs(args, row, message, fns);
      case _ =>
    }
  }

  lemma {:induction false} MessageUntested(e: Expr, row: Row, message: Value, fns: Functions)
    requires !ReadsMessage(e) && IsTest(e)
    ensures Holds(e, WithMessage(row, message), fns) == Holds(e, row, fns)
    decreases e, 0
  {
    match e
    case Compare(x, _, y) => MessageUnread(x, row, message, fns); MessageUnread(y, row, message, fns);
    case TextMatch(_, x, _, _) => MessageUnread(x, row, message, fns);
    case IsEmpty(x) => MessageUnread(x, row, message, fns);
    case And(x, y) => MessageUnread(x, row, message, fns); MessageUnread(y, row, message, fns);
    case Or(x, y) => MessageUnread(x, row, message, fns); MessageUnread(y, row, message, fns);
    case Not(x) => MessageUnread(x, row, message, fns);
    case Always =>
  }

  lemma {:induction false} MessageUnreadByArgs(args: Exprs, row: Row, message: Value, fns: Functions)
    requires !AnyReadsMessage(args)
    ensures Values(args, WithMessage(row, message), fns) == Values(args, row, fns)
  {
    match args
    case NoArgs =>
    case Args(head, tail) =>
      MessageUnread(head, row, message, fns);
      MessageUnreadByArgs(tail, row, message, fns);
  }

  ghost predicate KeepsEach(conditions: seq<Sql>, row: Row, fns: Functions) {
    forall c :: c in conditions ==> Keeps(c, row, fns)
  }

  ghost predicate HoldsEach(tests: seq<Expr>, row: Row, fns: Functions) {
    forall c :: c in tests ==> Holds(c, row, fns)
  }

  lemma OneMore(conditions: seq<Sql>, c: Sql, row: Row, fns: Functions)
    ensures KeepsEach(conditions + [c], row, fns) <==> KeepsEach(conditions, row, fns) && Keeps(c, row, fns)
  {
    assert c in conditions + [c];
    assert forall d :: d in conditions ==> d in conditions + [c];
  }

  /** Each test is one the compiler made, suits the row, and does so whatever the message is. */
  ghost predicate Testable(tests: seq<Expr>, row: Row, message: Value, fns: Functions) {
    forall c :: c in tests ==>
      && Writable(c) && Typ(c) == BoolType
      && Fits(c, row) && OneSidePresent(c, row, fns)
      && Fits(c, WithMessage(row, message)) && OneSidePresent(c, WithMessage(row, message), fns)
  }

  /** Conditions that keep a row, or not, whatever its message is. */
  ghost predicate Unread(conditions: seq<Sql>, row: Row, message: Value, fns: Functions) {
    forall c :: c in conditions ==> (Keeps(c, row, fns) <==> Keeps(c, WithMessage(row, message), fns))
  }

  predicate NoneReads(tests: seq<Expr>) {
    forall c :: c in tests ==> !ReadsMessage(c)
  }

  /** The stage has no test that reads a Log's message. */
  predicate StageUnread(s: Stage) {
    s.Where? && NoneReads(Conjuncts(s.predicate_))
  }

  /** The tests among a where's conjuncts that read message, and the rest, after those before. */
  method SplitTests(tests: seq<Expr>, rest0: seq<Sql>, message0: seq<Sql>, stringColumns: set<string>,
                    ghost row: Row, ghost message: Value, ghost fns: Functions)
    returns (rest: seq<Sql>, reading: seq<Sql>)
    requires Testable(tests, row, message, fns) && Unread(rest0, row, message, fns)
    ensures KeepsEach(rest, row, fns) && KeepsEach(reading, row, fns)
       <==> KeepsEach(rest0, row, fns) && KeepsEach(message0, row, fns) && HoldsEach(tests, row, fns)
    ensures Unread(rest, row, message, fns)
    ensures reading == [] <==> message0 == [] && NoneReads(tests)
  {
    rest, reading := rest0, message0;
    for i := 0 to |tests|
      invariant KeepsEach(rest, row, fns) && KeepsEach(reading, row, fns)
           <==> KeepsEach(rest0, row, fns) && KeepsEach(message0, row, fns) && HoldsEach(tests[..i], row, fns)
      invariant Unread(rest, row, message, fns)
      invariant reading == [] <==> message0 == [] && NoneReads(tests[..i])
    {
      assert tests[..i + 1] == tests[..i] + [tests[i]];
      var condition := WriteCondition(tests[i], stringColumns, false);
      ConditionWritten(tests[i], stringColumns, false, row, fns);
      if ReadsMessage(tests[i]) {
        reading := reading + [condition];
      } else {
        ConditionWritten(tests[i], stringColumns, false, WithMessage(row, message), fns);
        MessageUnread(tests[i], row, message, fns);
        rest := rest + [condition];
      }
    }
    assert tests[..|tests|] == tests;
  }

  lemma ConjunctsTestable(s: Stage, row: Row, message: Value, fns: Functions)
    requires s.Where? && Allowed(s) && Suits(s, row, fns) && Suits(s, WithMessage(row, message), fns)
    ensures Testable(Conjuncts(s.predicate_), row, message, fns)
    ensures HoldsEach(Conjuncts(s.predicate_), row, fns) <==> Passes(s, row, fns)
  {
    ConjunctsAllowed(s.predicate_);
    ConjunctsSuit(s.predicate_, row, fns);
    ConjunctsSuit(s.predicate_, WithMessage(row, message), fns);
    ConjunctsHold(s.predicate_, row, fns);
  }

  /** Query.Filter: a Log meets both parts just when it meets the head, and the rest keeps or drops a
      Log whatever its message is. */
  method WriteFilter(head: seq<Stage>, stringColumns: set<string>, ghost row: Row, ghost message: Value,
                     ghost fns: Functions)
    returns (filter: Filter)
    requires AllAllowed(head) && AllSuit(head, row, fns) && AllSuit(head, WithMessage(row, message), fns)
    ensures KeepsIf(filter.rest, row, fns) && KeepsIf(filter.message, row, fns) <==> PassesAll(head, row, fns)
    ensures KeepsIf(filter.rest, row, fns) <==> KeepsIf(filter.rest, WithMessage(row, message), fns)
    ensures filter.message.None? <==> forall s :: s in head ==> StageUnread(s)
  {
    var rest, reading: seq<Sql> := [], [];
    for i := 0 to |head|
      invariant KeepsEach(rest, row, fns) && KeepsEach(reading, row, fns) <==> PassesAll(head[..i], row, fns)
      invariant Unread(rest, row, message, fns)
      invariant reading == [] <==> forall s :: s in head[..i] ==> StageUnread(s)
    {
      assert head[..i + 1] == head[..i] + [head[i]];
      assert head[i] in head && head[i] in head[..i + 1];
      match head[i] {
        case Where(p) =>
          ConjunctsTestable(head[i], row, message, fns);
          rest, reading := SplitTests(Conjuncts(p), rest, reading, stringColumns, row, message, fns);
        case Search(terms) =>
          SearchWritten(terms, row, fns);
          OneMore(reading, WriteSearch(terms), row, fns);
          reading := reading + [WriteSearch(terms)];
      }
    }
    assert head[..|head|] == head;
    JoinedKeepsAll(rest, row, fns);
    JoinedKeepsAll(reading, row, fns);
    JoinedKeepsAll(rest, WithMessage(row, message), fns);
    return Filter(Joined(rest), Joined(reading));
  }
}

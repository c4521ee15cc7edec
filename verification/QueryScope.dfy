/** The Services and files a Query's head keeps (logquery/reads.go Scope). */
module QueryScope {
  import opened Basics
  import opened QueryExpr
  import opened QuerySql
  import opened QueryHead

  /** None stands for any. */
  datatype ReadScope = ReadScope(services: Option<seq<string>>, files: Option<seq<string>>)
  {
    predicate Keeps(service: string, file: string) {
      (services.None? || service in services.value) && (files.None? || file in files.value)
    }

    /** The scope narrowed to one file. */
    function OnFile(file: string): (s: ReadScope)
      ensures forall service, f :: s.Keeps(service, f) <==> Keeps(service, f) && f == file
    {
      this.(files := Some(Intersect(files, [file])))
    }
  }

  /** The values that are in both; any value is in None. */
  function Intersect(a: Option<seq<string>>, b: seq<string>): (both: seq<string>)
    ensures forall v :: v in both <==> (a.None? || v in a.value) && v in b
  {
    match a
    case None => b
    case Some(values) => InBoth(values, b)
  }

  /** The values of a that are in b, each once, in a's order. */
  function InBoth(a: seq<string>, b: seq<string>): (both: seq<string>)
    ensures forall v :: v in both <==> v in a && v in b
    ensures forall i, j :: 0 <= i < j < |both| ==> both[i] != both[j]
  {
    if a == [] then []
    else
      var before, last := InBoth(a[..|a| - 1], b), a[|a| - 1];
      assert a == a[..|a| - 1] + [last];
      if last in b && last !in before then before + [last] else before
  }

  /** Reads a condition that keeps the Logs whose Field is one of some strings. */
  function EqualsAny(p: Expr, name: string, builtIn: bool): Option<seq<string>> {
    match p
    case Or(x, y) =>
      var a, b := EqualsAny(x, name, builtIn), EqualsAny(y, name, builtIn);
      if a.Some? && b.Some? then Some(a.value + b.value) else None
    case Compare(x, op, y) =>
      var (field, value) := if x.Literal? then (y, x) else (x, y);
      if op == Eq && field.FieldRef? && field.name == name && field.builtIn == builtIn
         && value.Literal? && value.value.Text?
      then Some([value.value.text]) else None
    case _ => None
  }

  /** The conditions one of which p is: those it ors. */
  function Disjuncts(p: Expr): (tests: seq<Expr>)
    ensures forall d :: d in tests ==> !d.Or?
  {
    if p.Or? then Disjuncts(p.x) + Disjuncts(p.y) else [p]
  }

  /** The test is that the Field is the string, written either way round. */
  ghost predicate TestsEqual(d: Expr, name: string, builtIn: bool, v: string) {
    d.Compare? && d.op == Eq &&
    if d.x == Literal(Text(v)) then d.y.FieldRef? && d.y.name == name && d.y.builtIn == builtIn
    else d.y == Literal(Text(v)) && d.x.FieldRef? && d.x.name == name && d.x.builtIn == builtIn
  }

  /** A condition picks strings just when each one it ors tests the Field against a string, and picks
      exactly those. */
  lemma {:induction false} EqualsAnyIs(p: Expr, name: string, builtIn: bool)
    ensures EqualsAny(p, name, builtIn).Some? <==>
              forall d :: d in Disjuncts(p) ==> exists v :: TestsEqual(d, name, builtIn, v)
    ensures EqualsAny(p, name, builtIn).Some? ==>
              forall v :: v in EqualsAny(p, name, builtIn).value <==>
                exists d :: d in Disjuncts(p) && TestsEqual(d, name, builtIn, v)
  {
    if p.Or? {
      EqualsAnyIs(p.x, name, builtIn);
      EqualsAnyIs(p.y, name, builtIn);
      assert forall d :: d in Disjuncts(p) <==> d in Disjuncts(p.x) || d in Disjuncts(p.y);
    } else {
      assert Disjuncts(p) == [p] && p in Disjuncts(p);
      OneTestEquals(p, name, builtIn);
    }
  }

  lemma OneTestEquals(p: Expr, name: string, builtIn: bool)
    requires !p.Or?
    ensures EqualsAny(p, name, builtIn).Some? ==>
              exists v :: EqualsAny(p, name, builtIn).value == [v] && TestsEqual(p, name, builtIn, v)
    ensures forall v :: TestsEqual(p, name, builtIn, v) ==> EqualsAny(p, name, builtIn) == Some([v])
  {
    if EqualsAny(p, name, builtIn).Some? {
      assert TestsEqual(p, name, builtIn, EqualsAny(p, name, builtIn).value[0]);
    }
  }

  /** A Log's Field as a string: its value, or None if the Log lacks it or it isn't a string. */
  function StringField(row: Row, name: string, builtIn: bool): Option<string> {
    var v := Get(if builtIn then row.builtIns else row.attributes, name);
    if v.Some? && v.value.Text? then Some(v.value.text) else None
  }

  /** Each comparison is of sides of one type, as comparing an Attribute with a string makes them. */
  predicate SameTypes(p: Expr) {
    match p
    case Or(x, y) => SameTypes(x) && SameTypes(y)
    case Compare(x, _, y) => Typ(x) == Typ(y)
    case _ => true
  }

  /** Such a condition holds of exactly the Logs whose Field is one of its strings. */
  lemma {:induction false} EqualsAnyMeans(p: Expr, name: string, builtIn: bool, row: Row, fns: Functions)
    requires EqualsAny(p, name, builtIn).Some? && Typed(p)
    ensures Holds(p, row, fns) ==>
              && StringField(row, name, builtIn).Some?
              && StringField(row, name, builtIn).value in EqualsAny(p, name, builtIn).value
    ensures SameTypes(p) && StringField(row, name, builtIn).Some? ==>
              (Holds(p, row, fns) <==> StringField(row, name, builtIn).value in EqualsAny(p, name, builtIn).value)
  {
    if p.Or? {
      EqualsAnyMeans(p.x, name, builtIn, row, fns);
      EqualsAnyMeans(p.y, name, builtIn, row, fns);
    } else {
      var (field, value) := if p.x.Literal? then (p.y, p.x) else (p.x, p.y);
      var f, v := ValueOf(field, row, fns), ValueOf(value, row, fns);
      assert v == Some(value.value);
      assert Holds(p, row, fns) <==> f.Some? && f == v;
      FieldAsString(field, row, fns);
    }
  }

  lemma FieldAsString(field: Expr, row: Row, fns: Functions)
    requires field.FieldRef?
    ensures var v, s := ValueOf(field, row, fns), StringField(row, field.name, field.builtIn);
            && (v.Some? && v.value.Text? ==> s == Some(v.value.text))
            && (field.t == StringType && s.Some? ==> v == Some(Text(s.value)))
  {
  }

  /** What a condition keeps of the Services and files, if it is one that picks them. */
  predicate Picks(c: Expr, service: string, file: string) {
    var services, files := EqualsAny(c, "service", true), EqualsAny(c, "file", false);
    if services.Some? then service in services.value else files.Some? ==> file in files.value
  }

  ghost predicate PicksAll(conditions: seq<Expr>, service: string, file: string) {
    forall c :: c in conditions ==> Picks(c, service, file)
  }

  /** Every condition that a where of the head ands and that picks them keeps the Service and file. */
  ghost predicate HeadPicks(head: seq<Stage>, service: string, file: string) {
    forall s :: s in head && s.Where? ==> PicksAll(Conjuncts(s.predicate_), service, file)
  }

  /** Query.Scope: it keeps just the Services and files that every condition picking them keeps. */
  method Scope(head: seq<Stage>) returns (scope: ReadScope)
    ensures forall service, file :: scope.Keeps(service, file) <==> HeadPicks(head, service, file)
  {
    scope := ReadScope(None, None);
    for i := 0 to |head|
      invariant forall service, file :: scope.Keeps(service, file) <==> HeadPicks(head[..i], service, file)
    {
      assert head[..i + 1] == head[..i] + [head[i]];
      forall service, file
        ensures HeadPicks(head[..i + 1], service, file) <==>
          && HeadPicks(head[..i], service, file)
          && (head[i].Where? ==> PicksAll(Conjuncts(head[i].predicate_), service, file))
      {
        HeadPicksMore(head[..i], head[i], service, file);
      }
      if head[i].Where? {
        scope := ScopeOfTests(scope, Conjuncts(head[i].predicate_));
      }
    }
    assert head[..|head|] == head;
  }

  /** The scope with what a where's conditions pick. */
  method ScopeOfTests(scope0: ReadScope, tests: seq<Expr>) returns (scope: ReadScope)
    ensures forall service, file ::
              scope.Keeps(service, file) <==> scope0.Keeps(service, file) && PicksAll(tests, service, file)
  {
    scope := scope0;
    for j := 0 to |tests|
      invariant forall service, file ::
                  scope.Keeps(service, file) <==> scope0.Keeps(service, file) && PicksAll(tests[..j], service, file)
    {
      ghost var was := scope;
      var services, files := EqualsAny(tests[j], "service", true), EqualsAny(tests[j], "file", false);
      if services.Some? {
        scope := scope.(services := Some(Intersect(scope.services, services.value)));
      } else if files.Some? {
        scope := scope.(files := Some(Intersect(scope.files, files.value)));
      }
      assert forall service, file :: scope.Keeps(service, file) <==>
        was.Keeps(service, file) && Picks(tests[j], service, file);
      assert tests[..j + 1] == tests[..j] + [tests[j]];
      forall service, file
        ensures PicksAll(tests[..j + 1], service, file)
           <==> PicksAll(tests[..j], service, file) && Picks(tests[j], service, file)
      {
        PicksOneMore(tests[..j], tests[j], service, file);
      }
    }
    assert tests[..|tests|] == tests;
  }

  lemma HeadPicksMore(head: seq<Stage>, s: Stage, service: string, file: string)
    ensures HeadPicks(head + [s], service, file) <==>
      && HeadPicks(head, service, file)
      && (s.Where? ==> PicksAll(Conjuncts(s.predicate_), service, file))
  {
    assert s in head + [s];
    assert forall d :: d in head ==> d in head + [s];
  }

  lemma PicksOneMore(conditions: seq<Expr>, c: Expr, service: string, file: string)
    ensures PicksAll(conditions + [c], service, file) <==>
      PicksAll(conditions, service, file) && Picks(c, service, file)
  {
    assert c in conditions + [c];
    assert forall d :: d in conditions ==> d in conditions + [c];
  }

  lemma HoldingIsPicked(c: Expr, row: Row, fns: Functions, service: string, file: string)
    requires Typed(c) && Holds(c, row, fns)
    requires StringField(row, "service", true).Some? ==> service == StringField(row, "service", true).value
    requires StringField(row, "file", false).Some? ==> file == StringField(row, "file", false).value
    ensures Picks(c, service, file)
  {
    if EqualsAny(c, "service", true).Some? {
      EqualsAnyMeans(c, "service", true, row, fns);
    } else if EqualsAny(c, "file", false).Some? {
      EqualsAnyMeans(c, "file", false, row, fns);
    }
  }

  /** Every Log that meets the head has a Service and a file the scope keeps. */
  lemma PassingIsPicked(head: seq<Stage>, row: Row, fns: Functions, service: string, file: string)
    requires AllAllowed(head) && PassesAll(head, row, fns)
    requires StringField(row, "service", true).Some? ==> service == StringField(row, "service", true).value
    requires StringField(row, "file", false).Some? ==> file == StringField(row, "file", false).value
    ensures HeadPicks(head, service, file)
  {
    forall s, c | s in head && s.Where? && c in Conjuncts(s.predicate_)
      ensures Picks(c, service, file)
    {
      assert Allowed(s) && Passes(s, row, fns);
      assert Holds(s.predicate_, row, fns);
      ConjunctsHold(s.predicate_, row, fns);
      assert HoldsEach(Conjuncts(s.predicate_), row, fns);
      ConjunctsAllowed(s.predicate_);
      HoldingIsPicked(c, row, fns, service, file);
    }
  }

  /** The condition does nothing but pick Services, or files. */
  predicate OnlyPicks(c: Expr) {
    (EqualsAny(c, "service", true).Some? || EqualsAny(c, "file", false).Some?) && SameTypes(c)
  }

  /** A head that does nothing but pick Services and files is met by every Log whose Service and file the
      scope keeps. */
  lemma PickedPasses(head: seq<Stage>, row: Row, fns: Functions)
    requires AllAllowed(head)
    requires forall s :: s in head ==> s.Where? && forall c :: c in Conjuncts(s.predicate_) ==> OnlyPicks(c)
    requires StringField(row, "service", true).Some? && StringField(row, "file", false).Some?
    ensures PassesAll(head, row, fns) <==>
      HeadPicks(head, StringField(row, "service", true).value, StringField(row, "file", false).value)
  {
    var service, file := StringField(row, "service", true).value, StringField(row, "file", false).value;
    if PassesAll(head, row, fns) {
      PassingIsPicked(head, row, fns, service, file);
    }
    if HeadPicks(head, service, file) {
      forall s | s in head
        ensures Passes(s, row, fns)
      {
        PickedHolds(s.predicate_, row, fns, service, file);
      }
    }
  }

  lemma PickedHolds(p: Expr, row: Row, fns: Functions, service: string, file: string)
    requires Writable(p) && Typ(p) == BoolType && PicksAll(Conjuncts(p), service, file)
    requires forall c :: c in Conjuncts(p) ==> OnlyPicks(c)
    requires StringField(row, "service", true) == Some(service) && StringField(row, "file", false) == Some(file)
    ensures Holds(p, row, fns)
  {
    ConjunctsAllowed(p);
    ConjunctsHold(p, row, fns);
    forall c | c in Conjuncts(p)
      ensures Holds(c, row, fns)
    {
      if EqualsAny(c, "service", true).Some? {
        EqualsAnyMeans(c, "service", true, row, fns);
      } else {
        EqualsAnyMeans(c, "file", false, row, fns);
      }
    }
  }
}

/** Compile (logquery/compile.go): a Query's stages split into its head, the leading where and search
    stages, and its tail, with what is always true dropped, over the range the head narrows. */
module QueryCompile {
  import opened Basics
  import opened QueryExpr
  import opened QuerySql
  import opened QueryMeaning
  import opened QueryHead
  import opened QueryRange
  import opened QueryScope
  import opened DashboardFilter

  datatype Term = LiteralTerm(text: string) | FilterTerm(filter: string)

  /** A stage as parsed: where, search, or any of those that make a tail. */
  datatype ParsedStage = ParsedWhere(source: Source) | ParsedSearch(term: Term) | ParsedOther(id: nat)

  datatype TailStage = TailWhere(e: Expr) | TailOther(id: nat)

  datatype Query = Query(head: seq<Stage>, tail: seq<TailStage>, heads: nat, range: Range)

  type Filters = map<string, seq<string>>

  /** How many stages lead: where and search stages before any other. */
  function Leading(stages: seq<ParsedStage>): (n: nat)
    ensures n <= |stages|
    ensures forall i :: 0 <= i < n ==> !stages[i].ParsedOther?
    ensures n < |stages| ==> stages[n].ParsedOther?
  {
    if stages == [] || stages[0].ParsedOther? then 0 else 1 + Leading(stages[1..])
  }

  ghost predicate StageAllowed(s: ParsedStage) {
    s.ParsedWhere? ==> SourceAllowed(s.source)
  }

  function Terms(t: Term, values: Filters): seq<string> {
    match t
    case LiteralTerm(text) => [text]
    case FilterTerm(filter) => NonEmpty(Given(values, filter))
  }

  lemma TermsAre(t: Term, values: Filters)
    ensures t.LiteralTerm? ==> Terms(t, values) == [t.text]
    ensures t.FilterTerm? ==>
              forall v :: v in Terms(t, values) <==> t.filter in values && v in values[t.filter] && v != ""
  {
  }

  /** Whether a Log meets a leading stage: a search of a filter finds one of its values, and of a filter set
      to All keeps every Log. */
  ghost predicate StageHolds(s: ParsedStage, values: Filters, reading: Reads, row: Row, fns: Functions) {
    match s
    case ParsedWhere(source) => SourceHolds(source, values, reading, row, fns)
    case ParsedSearch(LiteralTerm(text)) => Found([text], row, fns)
    case ParsedSearch(FilterTerm(filter)) =>
      filter !in values || IsAll(values[filter]) || exists v :: v in values[filter] && v != "" && Found([v], row, fns)
    case ParsedOther(_) => true
  }

  ghost predicate LeadHold(stages: seq<ParsedStage>, n: nat, values: Filters, reading: Reads, row: Row, fns: Functions)
    requires n <= |stages|
  {
    forall i :: 0 <= i < n ==> StageHolds(stages[i], values, reading, row, fns)
  }

  ghost predicate RowFits(stages: seq<ParsedStage>, row: Row) {
    forall i :: 0 <= i < |stages| && stages[i].ParsedWhere? ==> SourceFits(stages[i].source, row)
  }

  /** A leading stage compiled. */
  function CompileStage(s: ParsedStage, values: Filters, reading: Reads): Stage
    requires !s.ParsedOther?
  {
    match s
    case ParsedWhere(source) => Where(Predicate(source, values, reading))
    case ParsedSearch(t) => if Terms(t, values) == [] then Where(Always) else Search(Terms(t, values))
  }

  lemma StageCompiled(s: ParsedStage, values: Filters, reading: Reads, row: Row, fns: Functions)
    requires !s.ParsedOther? && StageAllowed(s) && ReadsValues(reading)
    requires s.ParsedWhere? ==> SourceFits(s.source, row)
    ensures Passes(CompileStage(s, values, reading), row, fns) <==> StageHolds(s, values, reading, row, fns)
  {
    match s
    case ParsedWhere(source) => FoldingKeepsMeaning(source, values, reading, row, fns);
    case ParsedSearch(t) => SearchCompiled(t, values, reading, row, fns);
  }

  lemma StageIsAllowed(s: ParsedStage, values: Filters, reading: Reads)
    requires !s.ParsedOther? && StageAllowed(s) && ReadsValues(reading)
    ensures CompileStage(s, values, reading) == Where(Always) || Allowed(CompileStage(s, values, reading))
  {
    if s.ParsedWhere? {
      AlwaysOrNone(s.source, values, reading);
    }
  }

  lemma SearchCompiled(t: Term, values: Filters, reading: Reads, row: Row, fns: Functions)
    ensures Passes(CompileStage(ParsedSearch(t), values, reading), row, fns)
       <==> StageHolds(ParsedSearch(t), values, reading, row, fns)
  {
    var terms := Terms(t, values);
    TermsAre(t, values);
    if t.FilterTerm? && terms != [] {
      assert terms[0] in terms;
      FoundOneByOne(terms, row, fns);
    }
  }

  /** Some of the terms is found. */
  lemma FoundOneByOne(terms: seq<string>, row: Row, fns: Functions)
    ensures Found(terms, row, fns) <==> exists v :: v in terms && Found([v], row, fns)
  {
    if Found(terms, row, fns) {
      var t :| t in terms && (Contains_(Get(row.builtIns, "message"), t, fns)
                              || Contains_(Some(Text(fns.searchText(row.attributes))), t, fns));
      assert t in [t];
    }
  }

  ghost predicate TailAllowed(tail: seq<TailStage>) {
    forall s :: s in tail && s.TailWhere? ==> Compiled(s.e)
  }

  /** The range is within the bounds, and holds each Log of theirs that meets the head. */
  ghost predicate Narrows(head: seq<Stage>, bounds: Range, range: Range) {
    && (forall t :: range.Has(t) ==> bounds.Has(t))
    && (forall row, t, fns :: HasTime(row, t) && PassesAll(head, row, fns) ==> (range.Has(t) <==> bounds.Has(t)))
  }

  /** What a leading stage adds to the head: nothing where it is always true. */
  function LeadOf(s: ParsedStage, values: Filters, reading: Reads): seq<Stage>
    requires !s.ParsedOther?
  {
    var stage := CompileStage(s, values, reading);
    if stage == Where(Always) then [] else [stage]
  }

  function LeadsOf(stages: seq<ParsedStage>, values: Filters, reading: Reads): seq<Stage>
    requires forall s :: s in stages ==> !s.ParsedOther?
  {
    if stages == [] then []
    else LeadsOf(stages[..|stages| - 1], values, reading) + LeadOf(stages[|stages| - 1], values, reading)
  }

  method AddLead(head0: seq<Stage>, s: ParsedStage, values: Filters, reading: Reads) returns (head: seq<Stage>)
    requires !s.ParsedOther? && StageAllowed(s) && ReadsValues(reading) && AllAllowed(head0)
    ensures AllAllowed(head) && head == head0 + LeadOf(s, values, reading)
  {
    var stage := CompileStage(s, values, reading);
    StageIsAllowed(s, values, reading);
    return if stage == Where(Always) then head0 else head0 + [stage];
  }

  /** What a stage adds to the tail: nothing where its condition is always true. */
  function TailOf(s: ParsedStage, values: Filters, reading: Reads): seq<TailStage> {
    if s.ParsedOther? then [TailOther(s.id)]
    else if s.ParsedSearch? || Predicate(s.source, values, reading) == Always then []
    else [TailWhere(Predicate(s.source, values, reading))]
  }

  function TailsOf(stages: seq<ParsedStage>, values: Filters, reading: Reads): seq<TailStage> {
    if stages == [] then []
    else TailsOf(stages[..|stages| - 1], values, reading) + TailOf(stages[|stages| - 1], values, reading)
  }

  // What a tail means: each stage makes a list of rows of another.

  /** What each stage that is no where makes of a list of rows. */
  type Steps = (nat, seq<Row>) -> seq<Row>

  ghost function Kept<T>(rows: seq<T>, keeps: T -> bool): seq<T> {
    if rows == [] then []
    else
      var before, last := Kept(rows[..|rows| - 1], keeps), rows[|rows| - 1];
      if keeps(last) then before + [last] else before
  }

  ghost function MeetsHead(head: seq<Stage>, fns: Functions): Row -> bool {
    (r: Row) => PassesAll(head, r, fns)
  }

  ghost function MeetsStage(s: ParsedStage, values: Filters, reading: Reads, fns: Functions): Row -> bool {
    (r: Row) => StageHolds(s, values, reading, r, fns)
  }

  ghost function MeetsWhere(e: Expr, fns: Functions): Row -> bool {
    (r: Row) => Holds(e, r, fns)
  }

  lemma KeptOne<T>(row: T, keeps: T -> bool)
    ensures Kept([row], keeps) == if keeps(row) then [row] else []
  {
    KeptWithLast([], row, keeps);
  }

  /** The rows kept are in the order they came in. */
  lemma {:induction false} KeptInOrder<T>(a: seq<T>, b: seq<T>, keeps: T -> bool)
    ensures Kept(a + b, keeps) == Kept(a, keeps) + Kept(b, keeps)
  {
    if b == [] {
      assert a + b == a;
    } else {
      var front, last := b[..|b| - 1], b[|b| - 1];
      KeptInOrder(a, front, keeps);
      KeptWithLast(a + front, last, keeps);
      KeptWithLast(front, last, keeps);
      assert a + front + [last] == a + b && front + [last] == b;
    }
  }

  lemma KeptWithLast<T>(rows: seq<T>, last: T, keeps: T -> bool)
    ensures Kept(rows + [last], keeps) == Kept(rows, keeps) + if keeps(last) then [last] else []
  {
    assert (rows + [last])[..|rows|] == rows;
  }

  lemma {:induction false} KeptAlike<T>(rows: seq<T>, p: T -> bool, q: T -> bool)
    requires forall r :: r in rows ==> p(r) == q(r)
    ensures Kept(rows, p) == Kept(rows, q)
  {
    if rows != [] {
      var last := rows[|rows| - 1];
      KeptAlike(rows[..|rows| - 1], p, q);
      assert last in rows;
    }
  }

  /** A parsed stage run over rows: a where keeps those its condition is true of. */
  ghost function RunStage(s: ParsedStage, rows: seq<Row>, others: Steps, values: Filters, reading: Reads,
                          fns: Functions): seq<Row> {
    match s
    case ParsedOther(id) => others(id, rows)
    case _ => Kept(rows, MeetsStage(s, values, reading, fns))
  }

  /** The stages run one after the other. */
  ghost function RunStages(stages: seq<ParsedStage>, rows: seq<Row>, others: Steps, values: Filters, reading: Reads,
                           fns: Functions): seq<Row> {
    if stages == [] then rows
    else
      var n := |stages| - 1;
      RunStage(stages[n], RunStages(stages[..n], rows, others, values, reading, fns), others, values, reading, fns)
  }

  /** Each where is given rows that fit it. */
  ghost predicate StagesFit(stages: seq<ParsedStage>, rows: seq<Row>, others: Steps, values: Filters, reading: Reads,
                            fns: Functions) {
    stages == [] ||
    var n := |stages| - 1;
    && StagesFit(stages[..n], rows, others, values, reading, fns)
    && forall r :: r in RunStages(stages[..n], rows, others, values, reading, fns) ==> RowFits([stages[n]], r)
  }

  /** A compiled tail run over rows. */
  ghost function RunTail(tail: seq<TailStage>, rows: seq<Row>, others: Steps, fns: Functions): seq<Row> {
    if tail == [] then rows
    else
      var before, last := RunTail(tail[..|tail| - 1], rows, others, fns), tail[|tail| - 1];
      match last
      case TailOther(id) => others(id, before)
      case TailWhere(e) => Kept(before, MeetsWhere(e, fns))
  }

  /** A stage compiled for the tail makes of rows that fit it what the stage does. */
  lemma TailStageMeans(tail0: seq<TailStage>, s: ParsedStage, rows: seq<Row>, others: Steps, values: Filters,
                       reading: Reads, fns: Functions)
    requires StageAllowed(s) && ReadsValues(reading) && !s.ParsedSearch?
    requires forall r :: r in RunTail(tail0, rows, others, fns) ==> RowFits([s], r)
    ensures RunTail(tail0 + TailOf(s, values, reading), rows, others, fns)
         == RunStage(s, RunTail(tail0, rows, others, fns), others, values, reading, fns)
  {
    var before := RunTail(tail0, rows, others, fns);
    var added := TailOf(s, values, reading);
    if s.ParsedWhere? {
      var e := Predicate(s.source, values, reading);
      forall r | r in before
        ensures Holds(e, r, fns) <==> StageHolds(s, values, reading, r, fns)
      {
        assert RowFits([s], r) && [s][0] == s;
        FoldingKeepsMeaning(s.source, values, reading, r, fns);
      }
      KeptAlike(before, MeetsWhere(e, fns), MeetsStage(s, values, reading, fns));
      if e == Always {
        AllKept(before, MeetsWhere(e, fns));
      }
    }
    if added == [] {
      assert tail0 + added == tail0;
    } else {
      assert (tail0 + added)[..|tail0|] == tail0;
    }
  }

  lemma {:induction false} AllKept<T>(rows: seq<T>, keeps: T -> bool)
    requires forall r :: r in rows ==> keeps(r)
    ensures Kept(rows, keeps) == rows
  {
    if rows != [] {
      AllKept(rows[..|rows| - 1], keeps);
      assert rows == rows[..|rows| - 1] + [rows[|rows| - 1]];
    }
  }

  /** The compiled tail makes of rows what the stages from the first that leads no more make of them, one
      after the other, each where keeping the rows its condition is true of. */
  ghost predicate TailRuns(tail: seq<TailStage>, stages: seq<ParsedStage>, rows: seq<Row>, others: Steps,
                           values: Filters, reading: Reads, fns: Functions) {
    var after := stages[Leading(stages)..];
    StagesFit(after, rows, others, values, reading, fns) ==>
      RunTail(tail, rows, others, fns) == RunStages(after, rows, others, values, reading, fns)
  }

  lemma FitBefore(before: seq<ParsedStage>, last: ParsedStage, rows: seq<Row>, others: Steps, values: Filters,
                  reading: Reads, fns: Functions)
    requires StagesFit(before + [last], rows, others, values, reading, fns)
    ensures StagesFit(before, rows, others, values, reading, fns)
    ensures forall r :: r in RunStages(before, rows, others, values, reading, fns) ==> RowFits([last], r)
  {
    assert (before + [last])[..|before|] == before;
  }

  lemma TailNext(before: seq<ParsedStage>, last: ParsedStage, rows: seq<Row>, others: Steps, values: Filters,
                 reading: Reads, fns: Functions)
    requires StageAllowed(last) && !last.ParsedSearch? && ReadsValues(reading)
    requires forall r :: r in RunStages(before, rows, others, values, reading, fns) ==> RowFits([last], r)
    requires RunTail(TailsOf(before, values, reading), rows, others, fns)
          == RunStages(before, rows, others, values, reading, fns)
    ensures RunTail(TailsOf(before + [last], values, reading), rows, others, fns)
         == RunStages(before + [last], rows, others, values, reading, fns)
  {
    assert (before + [last])[..|before|] == before;
    TailStageMeans(TailsOf(before, values, reading), last, rows, others, values, reading, fns);
  }

  /** The tail of some stages makes of rows what they do. */
  lemma {:induction false} TailMeans(stages: seq<ParsedStage>, rows: seq<Row>, others: Steps, values: Filters,
                                     reading: Reads, fns: Functions)
    requires ReadsValues(reading) && forall s :: s in stages ==> StageAllowed(s) && !s.ParsedSearch?
    requires StagesFit(stages, rows, others, values, reading, fns)
    ensures RunTail(TailsOf(stages, values, reading), rows, others, fns)
         == RunStages(stages, rows, others, values, reading, fns)
  {
    if stages != [] {
      var before, last := stages[..|stages| - 1], stages[|stages| - 1];
      assert stages == before + [last];
      FitBefore(before, last, rows, others, values, reading, fns);
      TailMeans(before, rows, others, values, reading, fns);
      TailNext(before, last, rows, others, values, reading, fns);
    }
  }

  // What a head and a tail make of rows together.

  /** Leading stages make of rows those that meet their head. */
  lemma {:induction false} LeadMeans(stages: seq<ParsedStage>, rows: seq<Row>, others: Steps, values: Filters,
                                     reading: Reads, fns: Functions)
    requires ReadsValues(reading) && forall s :: s in stages ==> StageAllowed(s) && !s.ParsedOther?
    requires StagesFit(stages, rows, others, values, reading, fns)
    ensures RunStages(stages, rows, others, values, reading, fns)
         == Kept(rows, MeetsHead(LeadsOf(stages, values, reading), fns))
  {
    if stages == [] {
      AllKept(rows, MeetsHead([], fns));
    } else {
      var before, last := stages[..|stages| - 1], stages[|stages| - 1];
      assert stages == before + [last];
      FitBefore(before, last, rows, others, values, reading, fns);
      LeadMeans(before, rows, others, values, reading, fns);
      LeadNext(LeadsOf(before, values, reading), last, rows, others, values, reading, fns);
    }
  }

  /** A Log meets the head of leading stages just when it meets each of them. */
  lemma {:induction false} HeadMeans(stages: seq<ParsedStage>, values: Filters, reading: Reads, row: Row,
                                     fns: Functions)
    requires ReadsValues(reading) && RowFits(stages, row)
    requires forall s :: s in stages ==> StageAllowed(s) && !s.ParsedOther?
    ensures PassesAll(LeadsOf(stages, values, reading), row, fns)
       <==> forall s :: s in stages ==> StageHolds(s, values, reading, row, fns)
  {
    if stages != [] {
      var before, last := stages[..|stages| - 1], stages[|stages| - 1];
      assert stages == before + [last] && last in stages;
      HeadMeans(before, values, reading, row, fns);
      LeadStagePasses(last, values, reading, row, fns);
      AddedStagePasses(LeadsOf(before, values, reading), LeadOf(last, values, reading), row, fns);
    }
  }

  /** A leading stage keeps, of rows that meet a head, those that meet it with the stage compiled. */
  lemma LeadNext(head: seq<Stage>, s: ParsedStage, rows: seq<Row>, others: Steps, values: Filters, reading: Reads,
                 fns: Functions)
    requires !s.ParsedOther? && StageAllowed(s) && ReadsValues(reading)
    requires forall r :: r in Kept(rows, MeetsHead(head, fns)) ==> RowFits([s], r)
    ensures RunStage(s, Kept(rows, MeetsHead(head, fns)), others, values, reading, fns)
         == Kept(rows, MeetsHead(head + LeadOf(s, values, reading), fns))
  {
    var p, q := MeetsHead(head, fns), MeetsStage(s, values, reading, fns);
    var all := MeetsHead(head + LeadOf(s, values, reading), fns);
    KeptHolds(rows, p);
    forall r | r in rows
      ensures (p(r) && q(r)) == all(r)
    {
      if p(r) {
        LeadStagePasses(s, values, reading, r, fns);
      }
      AddedStagePasses(head, LeadOf(s, values, reading), r, fns);
    }
    KeptTwice(rows, p, q, all);
  }

  lemma LeadStagePasses(s: ParsedStage, values: Filters, reading: Reads, row: Row, fns: Functions)
    requires !s.ParsedOther? && StageAllowed(s) && ReadsValues(reading) && RowFits([s], row)
    ensures PassesAll(LeadOf(s, values, reading), row, fns) <==> StageHolds(s, values, reading, row, fns)
  {
    assert [s][0] == s;
    StageCompiled(s, values, reading, row, fns);
    assert Passes(Where(Always), row, fns);
    assert LeadOf(s, values, reading) != [] ==> LeadOf(s, values, reading)[0] == CompileStage(s, values, reading);
  }

  lemma AddedStagePasses(head: seq<Stage>, added: seq<Stage>, row: Row, fns: Functions)
    ensures PassesAll(head + added, row, fns) <==> PassesAll(head, row, fns) && PassesAll(added, row, fns)
  {
    assert forall s :: s in head + added <==> s in head || s in added;
  }

  lemma {:induction false} KeptTwice<T>(rows: seq<T>, p: T -> bool, q: T -> bool, all: T -> bool)
    requires forall r :: r in rows ==> (p(r) && q(r)) == all(r)
    ensures Kept(Kept(rows, p), q) == Kept(rows, all)
  {
    if rows != [] {
      var before, last := rows[..|rows| - 1], rows[|rows| - 1];
      assert last in rows;
      KeptTwice(before, p, q, all);
      KeptWithLast(Kept(before, p), last, q);
    }
  }

  lemma {:induction false} KeptHolds<T>(rows: seq<T>, p: T -> bool)
    ensures forall r :: r in rows && p(r) ==> r in Kept(rows, p)
  {
    if rows != [] {
      KeptHolds(rows[..|rows| - 1], p);
      assert rows == rows[..|rows| - 1] + [rows[|rows| - 1]];
    }
  }

  /** Stages run one after the other, in two. */
  lemma {:induction false} StagesInTwo(first: seq<ParsedStage>, more: seq<ParsedStage>, rows: seq<Row>, others: Steps,
                                       values: Filters, reading: Reads, fns: Functions)
    ensures RunStages(first + more, rows, others, values, reading, fns)
         == RunStages(more, RunStages(first, rows, others, values, reading, fns), others, values, reading, fns)
    ensures StagesFit(first + more, rows, others, values, reading, fns) ==>
              && StagesFit(first, rows, others, values, reading, fns)
              && StagesFit(more, RunStages(first, rows, others, values, reading, fns), others, values, reading, fns)
  {
    if more == [] {
      assert first + more == first;
    } else {
      var n := |more| - 1;
      assert (first + more)[..|first + more| - 1] == first + more[..n];
      StagesInTwo(first, more[..n], rows, others, values, reading, fns);
    }
  }

  /** What a compiled Query makes of rows: of those that meet its head, what its tail does. */
  ghost function RunQuery(q: Query, rows: seq<Row>, others: Steps, fns: Functions): seq<Row> {
    RunTail(q.tail, Kept(rows, MeetsHead(q.head, fns)), others, fns)
  }

  /** A compiled Query makes of rows that fit it what its stages do, one after the other. */
  ghost predicate Means(q: Query, stages: seq<ParsedStage>, rows: seq<Row>, others: Steps, values: Filters,
                        reading: Reads, fns: Functions) {
    StagesFit(stages, rows, others, values, reading, fns) ==>
      RunQuery(q, rows, others, fns) == RunStages(stages, rows, others, values, reading, fns)
  }

  lemma QueryMeans(q: Query, stages: seq<ParsedStage>, rows: seq<Row>, others: Steps, values: Filters,
                   reading: Reads, fns: Functions)
    requires HeadSoFar(q.head, stages, Leading(stages), values, reading)
    requires TailSoFar(q.tail, stages, |stages|, values, reading)
    requires ReadsValues(reading) && forall s :: s in stages ==> StageAllowed(s)
    ensures Means(q, stages, rows, others, values, reading, fns)
  {
    if StagesFit(stages, rows, others, values, reading, fns) {
      var lead, after := LeadAndAfter(stages);
      PartsMean(q, stages, lead, after, rows, others, values, reading, fns);
    }
  }

  lemma LeadAndAfter(stages: seq<ParsedStage>) returns (lead: seq<ParsedStage>, after: seq<ParsedStage>)
    ensures stages == lead + after
    ensures lead == stages[..Leading(stages)] && after == stages[Leading(stages)..|stages|]
    ensures forall s :: s in lead ==> s in stages && !s.ParsedOther?
    ensures forall s :: s in after ==> s in stages
  {
    lead, after := stages[..Leading(stages)], stages[Leading(stages)..|stages|];
  }

  lemma PartsMean(q: Query, stages: seq<ParsedStage>, lead: seq<ParsedStage>, after: seq<ParsedStage>, rows: seq<Row>,
                  others: Steps, values: Filters, reading: Reads, fns: Functions)
    requires stages == lead + after && StagesFit(stages, rows, others, values, reading, fns)
    requires ReadsValues(reading) && forall s :: s in lead ==> StageAllowed(s) && !s.ParsedOther?
    requires forall s :: s in after ==> StageAllowed(s) && !s.ParsedSearch?
    requires q.head == LeadsOf(lead, values, reading) && q.tail == TailsOf(after, values, reading)
    ensures RunQuery(q, rows, others, fns) == RunStages(stages, rows, others, values, reading, fns)
  {
    LeadThenAfter(stages, lead, after, rows, others, values, reading, fns);
    LeadMeans(lead, rows, others, values, reading, fns);
    TailMeans(after, RunStages(lead, rows, others, values, reading, fns), others, values, reading, fns);
  }

  lemma LeadThenAfter(stages: seq<ParsedStage>, lead: seq<ParsedStage>, after: seq<ParsedStage>, rows: seq<Row>,
                      others: Steps, values: Filters, reading: Reads, fns: Functions)
    requires stages == lead + after && StagesFit(stages, rows, others, values, reading, fns)
    ensures StagesFit(lead, rows, others, values, reading, fns)
    ensures var kept := RunStages(lead, rows, others, values, reading, fns);
            && StagesFit(after, kept, others, values, reading, fns)
            && RunStages(stages, rows, others, values, reading, fns)
                 == RunStages(after, kept, others, values, reading, fns)
  {
    StagesInTwo(lead, after, rows, others, values, reading, fns);
  }

  lemma TailRunsOn(tail: seq<TailStage>, stages: seq<ParsedStage>, rows: seq<Row>, others: Steps, values: Filters,
                   reading: Reads, fns: Functions)
    requires TailSoFar(tail, stages, |stages|, values, reading)
    requires ReadsValues(reading) && forall s :: s in stages ==> StageAllowed(s)
    ensures TailRuns(tail, stages, rows, others, values, reading, fns)
  {
    var after := stages[Leading(stages)..];
    assert stages[Leading(stages)..|stages|] == after;
    if StagesFit(after, rows, others, values, reading, fns) {
      TailMeans(after, rows, others, values, reading, fns);
    }
  }

  method AddTail(tail0: seq<TailStage>, s: ParsedStage, values: Filters, reading: Reads) returns (tail: seq<TailStage>)
    requires !s.ParsedSearch? && StageAllowed(s) && ReadsValues(reading) && TailAllowed(tail0)
    ensures TailAllowed(tail)
    ensures tail == tail0 + TailOf(s, values, reading)
  {
    if s.ParsedOther? {
      return tail0 + [TailOther(s.id)];
    }
    AlwaysOrNone(s.source, values, reading);
    var e := Predicate(s.source, values, reading);
    return if e == Always then tail0 else tail0 + [TailWhere(e)];
  }

  /** The head is that of the first n stages, which all lead. */
  ghost predicate HeadSoFar(head: seq<Stage>, stages: seq<ParsedStage>, n: nat, values: Filters, reading: Reads) {
    && n <= Leading(stages)
    && AllAllowed(head) && head == LeadsOf(stages[..n], values, reading)
  }

  lemma HeadMore(stages: seq<ParsedStage>, n: nat, values: Filters, reading: Reads)
    requires n < Leading(stages)
    ensures LeadsOf(stages[..n + 1], values, reading)
         == LeadsOf(stages[..n], values, reading) + LeadOf(stages[n], values, reading)
  {
    assert stages[..n + 1][..n] == stages[..n];
  }

  /** The tail is that of the first n stages but those that lead; none of them searches. */
  ghost predicate TailSoFar(tail: seq<TailStage>, stages: seq<ParsedStage>, n: nat, values: Filters, reading: Reads) {
    && Leading(stages) <= n <= |stages|
    && TailAllowed(tail) && tail == TailsOf(stages[Leading(stages)..n], values, reading)
    && forall s :: s in stages[Leading(stages)..n] ==> !s.ParsedSearch?
  }

  lemma TailMore(stages: seq<ParsedStage>, n: nat, values: Filters, reading: Reads)
    requires Leading(stages) <= n < |stages|
    ensures var before := stages[Leading(stages)..n];
            && stages[Leading(stages)..n + 1] == before + [stages[n]]
            && TailsOf(stages[Leading(stages)..n + 1], values, reading)
                 == TailsOf(before, values, reading) + TailOf(stages[n], values, reading)
  {
    var before := stages[Leading(stages)..n];
    assert stages[Leading(stages)..n + 1] == before + [stages[n]];
    assert (before + [stages[n]])[..|before|] == before;
  }

  /** What is compiled of the first n stages: the head while it goes on, then the range narrowed and the tail. */
  ghost predicate CompiledSoFar(q: Query, inHead: bool, stages: seq<ParsedStage>, n: nat, bounds: Range,
                                values: Filters, reading: Reads)
  {
    && HeadSoFar(q.head, stages, q.heads, values, reading)
    && if inHead then q.heads == n && q.range == bounds && q.tail == []
       else
         && q.heads == Leading(stages) < n && Narrows(q.head, bounds, q.range)
         && TailSoFar(q.tail, stages, n, values, reading)
  }

  lemma NoneCompiled(stages: seq<ParsedStage>, bounds: Range, values: Filters, reading: Reads)
    ensures CompiledSoFar(Query([], [], 0, bounds), true, stages, 0, bounds, values, reading)
  {
    assert stages[..0] == [];
  }

  /** A leading stage compiled. */
  method CompileLead(stages: seq<ParsedStage>, n: nat, was: Query, bounds: Range, values: Filters, reading: Reads)
    returns (next: Query)
    requires n < Leading(stages) && StageAllowed(stages[n]) && ReadsValues(reading)
    requires CompiledSoFar(was, true, stages, n, bounds, values, reading)
    ensures CompiledSoFar(next, true, stages, n + 1, bounds, values, reading)
  {
    var head := AddLead(was.head, stages[n], values, reading);
    HeadMore(stages, n, values, reading);
    return Query(head, was.tail, was.heads + 1, was.range);
  }

  /** A stage of the tail compiled. None is a search. */
  method CompileTail(stages: seq<ParsedStage>, n: nat, tail0: seq<TailStage>, values: Filters, reading: Reads)
    returns (tail: Option<seq<TailStage>>)
    requires TailSoFar(tail0, stages, n, values, reading) && n < |stages| && StageAllowed(stages[n])
    requires ReadsValues(reading)
    ensures tail.None? <==> stages[n].ParsedSearch?
    ensures tail.Some? ==> TailSoFar(tail.value, stages, n + 1, values, reading)
  {
    if stages[n].ParsedSearch? {
      return None;
    }
    var more := AddTail(tail0, stages[n], values, reading);
    TailMore(stages, n, values, reading);
    return Some(more);
  }

  /** One stage compiled, with whether the head goes on and, if it ends here, the narrowed range. None
      is a search in the tail. */
  method CompileNext(stages: seq<ParsedStage>, i: nat, was: Query, inHead0: bool, bounds: Range, values: Filters,
                     reading: Reads)
    returns (next: Option<Query>, inHead: bool)
    requires i < |stages| && StageAllowed(stages[i]) && ReadsValues(reading)
    requires CompiledSoFar(was, inHead0, stages, i, bounds, values, reading)
    ensures next.None? <==> i >= Leading(stages) && stages[i].ParsedSearch?
    ensures next.Some? ==> CompiledSoFar(next.value, inHead, stages, i + 1, bounds, values, reading)
  {
    inHead := inHead0;
    var range := was.range;
    if inHead && stages[i].ParsedOther? {
      inHead := false;
      range := Narrow(was.head, range);
    }
    if inHead {
      var q := CompileLead(stages, i, was, bounds, values, reading);
      return Some(q), true;
    }
    assert stages[Leading(stages)..Leading(stages)] == [];
    var tail := CompileTail(stages, i, was.tail, values, reading);
    return if tail.None? then None else Some(was.(tail := tail.value, range := range)), false;
  }

  /** A search follows a stage that is no where and no search. */
  ghost predicate SearchesLate(stages: seq<ParsedStage>) {
    exists i :: Leading(stages) <= i < |stages| && stages[i].ParsedSearch?
  }

  lemma LateSearch(stages: seq<ParsedStage>, i: nat)
    requires Leading(stages) <= i < |stages| && stages[i].ParsedSearch?
    ensures SearchesLate(stages)
  {
  }

  lemma NoneSearches(stages: seq<ParsedStage>, first: nat)
    requires first <= |stages| && forall s :: s in stages[first..|stages|] ==> !s.ParsedSearch?
    ensures forall i :: first <= i < |stages| ==> !stages[i].ParsedSearch?
  {
    forall i | first <= i < |stages|
      ensures !stages[i].ParsedSearch?
    {
      assert stages[first..|stages|][i - first] == stages[i];
    }
  }

  /** With no stage after the head, the head ends with the stages. */
  lemma AllLead(q: Query, stages: seq<ParsedStage>, bounds: Range, range: Range, values: Filters, reading: Reads)
    requires CompiledSoFar(q, true, stages, |stages|, bounds, values, reading) && Narrows(q.head, bounds, range)
    ensures q.heads == Leading(stages) == |stages|
    ensures HeadSoFar(q.head, stages, Leading(stages), values, reading)
    ensures TailSoFar(q.tail, stages, |stages|, values, reading)
  {
    assert stages[|stages|..|stages|] == [];
  }

  /** Compiling fails where a search follows the head. Otherwise a Log meets the head just when it meets
      each leading stage, no always is left, narrowing the range loses no Log that meets the head, and of any
      rows the tail makes what the other stages make of them, in order, and head and tail what all do. */
  method Compile(stages: seq<ParsedStage>, bounds: Range, values: Filters, reading: Reads, ghost row: Row,
                 ghost fns: Functions, ghost rows: seq<Row>, ghost others: Steps)
    returns (compiled: Option<Query>)
    requires ReadsValues(reading) && forall s :: s in stages ==> StageAllowed(s)
    ensures compiled.None? <==> exists i :: Leading(stages) <= i < |stages| && stages[i].ParsedSearch?
    ensures compiled.Some? ==>
              && compiled.value.heads == Leading(stages)
              && HeadSoFar(compiled.value.head, stages, Leading(stages), values, reading)
              && TailSoFar(compiled.value.tail, stages, |stages|, values, reading)
              && Narrows(compiled.value.head, bounds, compiled.value.range)
              && (RowFits(stages, row) ==>
                    (PassesAll(compiled.value.head, row, fns) <==>
                       LeadHold(stages, Leading(stages), values, reading, row, fns)))
              && TailRuns(compiled.value.tail, stages, rows, others, values, reading, fns)
              && (StagesFit(stages, rows, others, values, reading, fns) ==>
                    RunQuery(compiled.value, rows, others, fns)
                      == RunStages(stages, rows, others, values, reading, fns))
  {
    compiled := CompileAll(stages, bounds, values, reading);
    if compiled.Some? {
      var q := compiled.value;
      if RowFits(stages, row) {
        HeadMeans(stages[..Leading(stages)], values, reading, row, fns);
      }
      TailRunsOn(q.tail, stages, rows, others, values, reading, fns);
      QueryMeans(q, stages, rows, others, values, reading, fns);
    }
  }

  /** Its loop, and the range narrowed where no stage ended the head. */
  method CompileAll(stages: seq<ParsedStage>, bounds: Range, values: Filters, reading: Reads)
    returns (compiled: Option<Query>)
    requires ReadsValues(reading) && forall s :: s in stages ==> StageAllowed(s)
    ensures compiled.None? <==> exists i :: Leading(stages) <= i < |stages| && stages[i].ParsedSearch?
    ensures compiled.Some? ==>
              && compiled.value.heads == Leading(stages)
              && HeadSoFar(compiled.value.head, stages, Leading(stages), values, reading)
              && TailSoFar(compiled.value.tail, stages, |stages|, values, reading)
              && Narrows(compiled.value.head, bounds, compiled.value.range)
  {
    var inHead;
    compiled, inHead := CompileStages(stages, bounds, values, reading);
    if compiled.None? {
      return;
    }
    var q := compiled.value;
    if inHead {
      var range := Narrow(q.head, q.range);
      AllLead(q, stages, bounds, range, values, reading);
      q := q.(range := range);
    }
    NoneSearches(stages, Leading(stages));
    return Some(q);
  }

  method CompileStages(stages: seq<ParsedStage>, bounds: Range, values: Filters, reading: Reads)
    returns (compiled: Option<Query>, inHead: bool)
    requires ReadsValues(reading) && forall s :: s in stages ==> StageAllowed(s)
    ensures compiled.None? ==> SearchesLate(stages)
    ensures compiled.Some? ==> CompiledSoFar(compiled.value, inHead, stages, |stages|, bounds, values, reading)
  {
    var q := Query([], [], 0, bounds);
    inHead := true;
    NoneCompiled(stages, bounds, values, reading);
    for i := 0 to |stages|
      invariant CompiledSoFar(q, inHead, stages, i, bounds, values, reading)
    {
      var next;
      next, inHead := CompileNext(stages, i, q, inHead, bounds, values, reading);
      if next.None? {
        LateSearch(stages, i);
        return None, false;
      }
      q := next.value;
    }
    return Some(q), inHead;
  }

  /** A Log of the request's range passes the head just when it is in the narrowed range and meets both
      parts of the filter; and it has a Service and file the scope keeps. */
  method HeadIsKept(q: Query, bounds: Range, stringColumns: set<string>, ghost row: Row, ghost t: int,
                    ghost message: Value, ghost fns: Functions)
    returns (filter: Filter, scope: ReadScope)
    requires AllAllowed(q.head) && Narrows(q.head, bounds, q.range) && HasTime(row, t)
    requires AllSuit(q.head, row, fns) && AllSuit(q.head, WithMessage(row, message), fns)
    ensures bounds.Has(t) && PassesAll(q.head, row, fns)
       <==> q.range.Has(t) && KeepsIf(filter.rest, row, fns) && KeepsIf(filter.message, row, fns)
    ensures forall service, file ::
              && PassesAll(q.head, row, fns)
              && (StringField(row, "service", true).Some? ==> service == StringField(row, "service", true).value)
              && (StringField(row, "file", false).Some? ==> file == StringField(row, "file", false).value)
              ==> scope.Keeps(service, file)
  {
    filter := WriteFilter(q.head, stringColumns, row, message, fns);
    scope := Scope(q.head);
    forall service, file |
        && PassesAll(q.head, row, fns)
        && (StringField(row, "service", true).Some? ==> service == StringField(row, "service", true).value)
        && (StringField(row, "file", false).Some? ==> file == StringField(row, "file", false).value)
      ensures scope.Keeps(service, file)
    {
      PassingIsPicked(q.head, row, fns, service, file);
    }
  }
}

/** Resolved metadata filters: which conjunctions `_validate_conjunction` refuses
    (`src/zhiqing_rag/query_metadata/resolver.py`), what `compile_filters` compiles them to
    (`src/zhiqing_rag/query_metadata/compiler.py`), and that the two agree. */
module MetadataFilters {
  import opened Text

  // ----- filters

  datatype Field = DepartmentId | DocumentName | DocumentCode | FileType | BusinessStatus | UploadedAt | EventDate

  datatype Operator = Eq | Neq | Holding | Gt | Gte | Lt | Lte | Range

  datatype Filter = Filter(field: Field, operator: Operator, values: seq<string>)

  /** How texts are read: as an instant, counted in microseconds, as a day, counted as `toordinal`
      counts, and in lower case. */
  datatype Reader = Reader(instant: string -> Option<int>, day: string -> Option<int>, lower: string -> string)

  predicate IsTime(field: Field) {
    field == UploadedAt || field == EventDate
  }

  const STATUSES := {"UNKNOWN", "DRAFT", "EFFECTIVE", "ARCHIVED", "REPEALED"}
  const LARGEST_ID := 0x7FFF_FFFF_FFFF_FFFF

  /** The point in time a text stands for: a whole number of microseconds, or of days. */
  function Point(e: Reader, field: Field, text: string): Option<int> {
    if field == UploadedAt then e.instant(text) else e.day(text)
  }

  function When(e: Reader, field: Field, text: string): Option<real> {
    match Point(e, field, text)
    case Some(point) => Some(point as real)
    case None => None
  }

  /** What the `ResolvedFilter` model accepts. */
  predicate ValidFilter(e: Reader, f: Filter) {
    && 1 <= |f.values| <= 10
    && (f.field != DepartmentId ==> forall v | v in f.values :: 0 < |v| <= 200)
    && match f.field
       case DepartmentId => f.operator in {Eq, Neq} && |f.values| == 1 && Decimal(f.values[0])
           && Number(f.values[0]) <= LARGEST_ID
       case DocumentName => f.operator in {Eq, Neq, Holding} && |f.values| == 1
       case DocumentCode => f.operator in {Eq, Neq, Holding} && |f.values| == 1
       case FileType => f.operator in {Eq, Neq}
       case BusinessStatus => f.operator in {Eq, Neq} && forall v | v in f.values :: v in STATUSES
       case _ =>
         && f.operator != Holding && |f.values| == (if f.operator == Range then 2 else 1)
         && (forall v | v in f.values :: When(e, f.field, v).Some?)
         && (f.operator == Range ==> When(e, f.field, f.values[0]).value < When(e, f.field, f.values[1]).value)
  }

  // ----- department ids are numbers written in one way only

  predicate Digit(c: char) {
    '0' <= c <= '9'
  }

  /** `[1-9][0-9]{0,18}`. */
  predicate Decimal(s: string) {
    1 <= |s| <= 19 && s[0] != '0' && forall c | c in s :: Digit(c)
  }

  function Number(s: string): nat {
    if s == [] then 0
    else Number(s[..|s| - 1]) * 10 + if Digit(s[|s| - 1]) then (s[|s| - 1] - '0') as nat else 0
  }

  lemma {:induction false} NumberIsPositive(s: string)
    requires Decimal(s)
    ensures Number(s) > 0
  {
    if |s| > 1 {
      NumberIsPositive(s[..|s| - 1]);
    } else {
      assert Digit(s[0]) && s[..0] == [];
    }
  }

  /** Two ids with the same number are the same text. */
  lemma {:induction false} NumberTellsApart(s: string, t: string)
    requires Decimal(s) && Decimal(t) && Number(s) == Number(t)
    ensures s == t
  {
    var a, b := s[|s| - 1], t[|t| - 1];
    assert Digit(a) && Digit(b);
    var m, n := Number(s[..|s| - 1]), Number(t[..|t| - 1]);
    assert m * 10 + (a - '0') as nat == n * 10 + (b - '0') as nat;
    assert m == n && a == b;
    if |s| > 1 {
      NumberIsPositive(s[..|s| - 1]);
    }
    if |t| > 1 {
      NumberIsPositive(t[..|t| - 1]);
    }
    if |s| > 1 && |t| > 1 {
      NumberTellsApart(s[..|s| - 1], t[..|t| - 1]);
    }
    assert s == s[..|s| - 1] + [a] && t == t[..|t| - 1] + [b];
  }

  // ----- rows, and what a filter means for one

  /** The columns a filter may look at; a document may lack any of them. */
  datatype Row = Row(department: Option<int>, name: Option<string>, code: Option<string>, mime: Option<string>,
      status: Option<string>,
                     uploaded: Option<int>, event: Option<int>)

  predicate TextSatisfies(e: Reader, f: Filter, v: string) {
    match f.operator
    case Eq => v in f.values
    case Neq => v !in f.values
    case Holding => f.values != [] && Contains(e.lower(v), e.lower(f.values[0]))
    case _ => false
  }

  predicate NumberSatisfies(f: Filter, n: int) {
    match f.operator
    case Eq => exists v | v in f.values :: n == Number(v)
    case Neq => forall v | v in f.values :: n != Number(v)
    case _ => false
  }

  predicate TimeSatisfies(e: Reader, f: Filter, x: real)
    requires IsTime(f.field) && ValidFilter(e, f)
  {
    var first := When(e, f.field, f.values[0]).value;
    match f.operator
    case Eq => x == first
    case Neq => x != first
    case Gt => x > first
    case Gte => x >= first
    case Lt => x < first
    case Lte => x <= first
    case Range => first <= x < When(e, f.field, f.values[1]).value
    case Holding => false
  }

  function TextOf(row: Row, field: Field): Option<string> {
    match field
    case DocumentName => row.name
    case DocumentCode => row.code
    case FileType => row.mime
    case BusinessStatus => row.status
    case _ => None
  }

  function TimeOf(row: Row, field: Field): Option<real> {
    match field
    case UploadedAt => if row.uploaded.Some? then Some(row.uploaded.value as real) else None
    case EventDate => if row.event.Some? then Some(row.event.value as real) else None
    case _ => None
  }

  /** The row has the property, and it is as the filter wants it. */
  predicate Holds(e: Reader, f: Filter, row: Row)
    requires ValidFilter(e, f)
  {
    match f.field
    case DepartmentId => row.department.Some? && NumberSatisfies(f, row.department.value)
    case UploadedAt => row.uploaded.Some? && TimeSatisfies(e, f, row.uploaded.value as real)
    case EventDate => row.event.Some? && TimeSatisfies(e, f, row.event.value as real)
    case _ => TextOf(row, f.field).Some? && TextSatisfies(e, f, TextOf(row, f.field).value)
  }

  predicate AllValid(e: Reader, filters: seq<Filter>) {
    forall f | f in filters :: ValidFilter(e, f)
  }

  predicate AllHold(e: Reader, filters: seq<Filter>, row: Row)
    requires AllValid(e, filters)
  {
    forall f | f in filters :: Holds(e, f, row)
  }

  // ----- compilation

  /** A predicate with its placeholders: one column against one parameter, against a pair of
      bounds, or against a list. */
  datatype Predicate =
    | Compare(column: Field, operator: Operator)
    | Between(column: Field)
    | Occurs(column: Field)
    | Among(column: Field)
    | NotAmong(column: Field)

  datatype Parameter = TextParameter(text: string) | NumberParameter(number: int) | ListParameter(texts: seq<string>)

  datatype Query = Query(predicates: seq<Predicate>, parameters: seq<Parameter>)

  function PredicateOf(f: Filter): Predicate {
    if f.operator == Range then Between(f.field)
    else if f.operator == Holding then Occurs(f.field)
    else if |f.values| > 1 then (if f.operator == Neq then NotAmong(f.field) else Among(f.field))
    else Compare(f.field, f.operator)
  }

  function TextParameters(values: seq<string>): seq<Parameter> {
    seq(|values|, i requires 0 <= i < |values| => TextParameter(values[i]))
  }

  function ParametersOf(f: Filter): seq<Parameter> {
    if f.operator == Range || f.operator == Holding then TextParameters(f.values)
    else if |f.values| > 1 then [ListParameter(f.values)]
    else if f.field == DepartmentId
        then seq(|f.values|, i requires 0 <= i < |f.values| => NumberParameter(Number(f.values[i])))
    else TextParameters(f.values)
  }

  function QueryOf(filters: seq<Filter>): Query {
    if filters == [] then Query([], [])
    else
      var rest := QueryOf(filters[1..]);
      Query([PredicateOf(filters[0])] + rest.predicates, ParametersOf(filters[0]) + rest.parameters)
  }

  lemma {:induction false} QueryOfOneMore(filters: seq<Filter>, f: Filter)
    ensures QueryOf(filters + [f]) == Query(QueryOf(filters).predicates + [PredicateOf(f)],
            QueryOf(filters).parameters + ParametersOf(f))
  {
    if filters == [] {
      assert [f][1..] == [];
    } else {
      assert (filters + [f])[1..] == filters[1..] + [f];
      QueryOfOneMore(filters[1..], f);
    }
  }

  /** `compile_filters`; it reads every filter through the model again. */
  method CompileFilters(e: Reader, filters: seq<Filter>) returns (r: Option<Query>)
    ensures r.Some? <==> AllValid(e, filters)
    ensures r.Some? ==> r.value == QueryOf(filters)
  {
    var predicates, parameters := [], [];
    for k := 0 to |filters|
      invariant AllValid(e, filters[..k])
      invariant Query(predicates, parameters) == QueryOf(filters[..k])
    {
      var item := filters[k];
      if !ValidFilter(e, item) {
        return None;
      }
      assert filters[..k + 1] == filters[..k] + [item];
      QueryOfOneMore(filters[..k], item);
      predicates := predicates + [PredicateOf(item)];
      parameters := parameters + ParametersOf(item);
    }
    assert filters[..|filters|] == filters;
    return Some(Query(predicates, parameters));
  }

  // ----- the database's reading of a query: three truth values, parameters by position

  datatype Truth = True | False | Unknown

  function And(a: Truth, b: Truth): Truth {
    if a == False || b == False then False else if a == Unknown || b == Unknown then Unknown else True
  }

  function Not(a: Truth): Truth {
    match a
    case True => False
    case False => True
    case Unknown => Unknown
  }

  function Decide(b: bool): Truth {
    if b then True else False
  }

  datatype Cell = Null | TextCell(text: string) | NumberCell(number: int) | TimeCell(at: real)

  function Column(row: Row, field: Field): Cell {
    match field
    case DepartmentId => if row.department.Some? then NumberCell(row.department.value) else Null
    case UploadedAt => if row.uploaded.Some? then TimeCell(row.uploaded.value as real) else Null
    case EventDate => if row.event.Some? then TimeCell(row.event.value as real) else Null
    case _ => if TextOf(row, field).Some? then TextCell(TextOf(row, field).value) else Null
  }

  /** A bound parameter next to a column, with the cast written there. */
  function Bound(e: Reader, field: Field, p: Parameter): Cell {
    match p
    case NumberParameter(n) => NumberCell(n)
    case ListParameter(_) => Null
    case TextParameter(text) =>
      if !IsTime(field) then TextCell(text)
      else if When(e, field, text).Some? then TimeCell(When(e, field, text).value)
      else Null
  }

  function CompareTimes(a: real, operator: Operator, b: real): Truth {
    match operator
    case Eq => Decide(a == b)
    case Neq => Decide(a != b)
    case Gt => Decide(a > b)
    case Gte => Decide(a >= b)
    case Lt => Decide(a < b)
    case Lte => Decide(a <= b)
    case _ => Unknown
  }

  function CompareCells(a: Cell, operator: Operator, b: Cell): Truth {
    match (a, b)
    case (TimeCell(x), TimeCell(y)) => CompareTimes(x, operator, y)
    case (TextCell(s), TextCell(t)) => if operator == Eq then Decide(s == t) else if operator == Neq
        then Decide(s != t) else Unknown
    case (NumberCell(m), NumberCell(n)) => if operator == Eq then Decide(m == n) else if operator == Neq
        then Decide(m != n) else Unknown
    case _ => Unknown
  }

  function CellIn(cell: Cell, p: Parameter): Truth {
    if cell.TextCell? && p.ListParameter? then Decide(cell.text in p.texts) else Unknown
  }

  function Arity(p: Predicate): nat {
    if p.Between? then 2 else 1
  }

  function EvalOne(e: Reader, row: Row, p: Predicate, given: seq<Parameter>): Truth
    requires |given| == Arity(p)
  {
    var cell := Column(row, p.column);
    match p
    case Compare(field, operator) => CompareCells(cell, operator, Bound(e, field, given[0]))
    case Between(field) => And(CompareCells(cell, Gte, Bound(e, field, given[0])),
        CompareCells(cell, Lt, Bound(e, field, given[1])))
    case Occurs(_) =>
      if cell.TextCell? && given[0].TextParameter?
          then Decide(Contains(e.lower(cell.text), e.lower(given[0].text))) else Unknown
    case Among(_) => CellIn(cell, given[0])
    case NotAmong(_) => Not(CellIn(cell, given[0]))
  }

  /** The conjunction, each predicate taking the next parameters; too few or too many
      parameters are an error, which selects nothing. */
  function Eval(e: Reader, row: Row, q: Query): Truth
    decreases |q.predicates|
  {
    if q.predicates == [] then (if q.parameters == [] then True else Unknown)
    else
      var n := Arity(q.predicates[0]);
      if |q.parameters| < n then Unknown
      else And(EvalOne(e, row, q.predicates[0], q.parameters[..n]),
          Eval(e, row, Query(q.predicates[1..], q.parameters[n..])))
  }

  /** A compiled filter is true of a row exactly if the filter holds of it. */
  lemma {:induction false} CompiledFilterMeans(e: Reader, f: Filter, row: Row)
    requires ValidFilter(e, f)
    ensures |ParametersOf(f)| == Arity(PredicateOf(f))
    ensures EvalOne(e, row, PredicateOf(f), ParametersOf(f)) == True <==> Holds(e, f, row)
  {
    if |f.values| > 1 && f.operator != Range {
      assert f.field == FileType || f.field == BusinessStatus;
    } else if f.field == DepartmentId {
      assert f.values == [f.values[0]];
    } else if IsTime(f.field) {
      assert forall v | v in f.values :: When(e, f.field, v).Some?;
      assert f.values[0] in f.values;
    }
  }

  /** The first filter's placeholders meet its parameters, and the others theirs. */
  lemma {:induction false} EvalSplits(e: Reader, filters: seq<Filter>, row: Row)
    requires filters != [] && |ParametersOf(filters[0])| == Arity(PredicateOf(filters[0]))
    ensures Eval(e, row, QueryOf(filters))
      == And(EvalOne(e, row, PredicateOf(filters[0]), ParametersOf(filters[0])), Eval(e, row, QueryOf(filters[1..])))
  {
    var f, q, rest := filters[0], QueryOf(filters), QueryOf(filters[1..]);
    assert q.predicates[1..] == rest.predicates && q.parameters[Arity(PredicateOf(f))..] == rest.parameters;
    assert q.parameters[..Arity(PredicateOf(f))] == ParametersOf(f);
  }

  /** The compiled query selects exactly the rows of which every filter holds: each
      placeholder meets its own parameter, and a missing property selects nothing. */
  lemma {:induction false} CompiledMeans(e: Reader, filters: seq<Filter>, row: Row)
    requires AllValid(e, filters)
    ensures Eval(e, row, QueryOf(filters)) == True <==> AllHold(e, filters, row)
  {
    if filters != [] {
      CompiledFilterMeans(e, filters[0], row);
      EvalSplits(e, filters, row);
      CompiledMeans(e, filters[1..], row);
      AllHoldSplits(e, filters, row);
    }
  }

  lemma {:induction false} AllHoldSplits(e: Reader, filters: seq<Filter>, row: Row)
    requires AllValid(e, filters) && filters != []
    ensures AllHold(e, filters, row) <==> Holds(e, filters[0], row) && AllHold(e, filters[1..], row)
  {
    assert filters == [filters[0]] + filters[1..];
  }

  // ----- the check that a conjunction leaves something

  /** The filters of one field, in order. */
  function Of(field: Field, filters: seq<Filter>): (own: seq<Filter>)
    ensures forall f :: f in own <==> f in filters && f.field == field
  {
    if filters == [] then []
    else
      var last := filters[|filters| - 1];
      Of(field, filters[..|filters| - 1]) + if last.field == field then [last] else []
  }

  /** `v` passes the equalities and inequalities; `contains` is not looked at. */
  predicate Keeps(conditions: seq<Filter>, v: string) {
    forall f | f in conditions :: (f.operator == Eq ==> v in f.values) && (f.operator == Neq ==> v !in f.values)
  }

  predicate Pinned(conditions: seq<Filter>) {
    exists f | f in conditions :: f.operator == Eq
  }

  function ValuesOf(f: Filter): set<string> {
    set v | v in f.values
  }

  /** What the loop knows of the conditions seen so far. */
  ghost predicate Narrowed(conditions: seq<Filter>, allowed: Option<set<string>>, excluded: set<string>) {
    && (allowed.Some? <==> Pinned(conditions))
    && forall v :: Keeps(conditions, v) <==> (allowed.Some? ==> v in allowed.value) && v !in excluded
  }

  lemma {:induction false} NarrowOne(conditions: seq<Filter>, f: Filter, allowed: Option<set<string>>,
                                     excluded: set<string>)
    requires Narrowed(conditions, allowed, excluded)
    ensures f.operator == Eq ==>
      Narrowed(conditions + [f], Some(if allowed.None? then ValuesOf(f) else allowed.value * ValuesOf(f)), excluded)
    ensures f.operator == Neq ==> Narrowed(conditions + [f], allowed, excluded + ValuesOf(f))
    ensures f.operator != Eq && f.operator != Neq ==> Narrowed(conditions + [f], allowed, excluded)
  {
    forall v
      ensures Keeps(conditions + [f], v) <==> Keeps(conditions, v) && Keeps([f], v)
    {
    }
    assert Pinned(conditions + [f]) <==> Pinned(conditions) || f.operator == Eq by {
      assert f in conditions + [f];
    }
  }

  lemma {:induction false} NothingLeft(conditions: seq<Filter>, allowed: Option<set<string>>, excluded: set<string>)
    requires Narrowed(conditions, allowed, excluded)
    ensures allowed.Some? ==> (allowed.value - excluded == {} <==> forall v :: !Keeps(conditions, v))
  {
    if allowed.Some? {
      forall v
        ensures Keeps(conditions, v) <==> v in allowed.value - excluded
      {
      }
    }
  }

  /** A categorical field: refused exactly if values are demanded and none of them is left. */
  method ValuesConflict(conditions: seq<Filter>) returns (conflict: bool)
    ensures conflict <==> Pinned(conditions) && forall v :: !Keeps(conditions, v)
  {
    var allowed: Option<set<string>>, excluded: set<string> := None, {};
    for k := 0 to |conditions|
      invariant Narrowed(conditions[..k], allowed, excluded)
    {
      var item := conditions[k];
      NarrowOne(conditions[..k], item, allowed, excluded);
      assert conditions[..k + 1] == conditions[..k] + [item];
      if item.operator == Eq {
        allowed := Some(if allowed.None? then ValuesOf(item) else allowed.value * ValuesOf(item));
      } else if item.operator == Neq {
        excluded := excluded + ValuesOf(item);
      }
    }
    assert conditions[..|conditions|] == conditions;
    conflict := allowed.Some? && allowed.value - excluded == {};
    NothingLeft(conditions, allowed, excluded);
  }

  // ----- bounds in time

  datatype Limit = Limit(at: real, inclusive: bool)

  predicate Above(lower: Option<Limit>, x: real) {
    lower.Some? ==> x > lower.value.at || (lower.value.inclusive && x == lower.value.at)
  }

  predicate Below(upper: Option<Limit>, x: real) {
    upper.Some? ==> x < upper.value.at || (upper.value.inclusive && x == upper.value.at)
  }

  /** The tighter of two lower limits, as the loop keeps it. */
  function Raise(lower: Option<Limit>, candidate: Option<Limit>): (r: Option<Limit>)
    ensures forall x :: Above(r, x) <==> Above(lower, x) && Above(candidate, x)
  {
    if candidate.None? then lower
    else if lower.None? || candidate.value.at > lower.value.at then candidate
    else if candidate.value.at == lower.value.at
        then Some(Limit(lower.value.at, lower.value.inclusive && candidate.value.inclusive))
    else lower
  }

  function Reduce(upper: Option<Limit>, candidate: Option<Limit>): (r: Option<Limit>)
    ensures forall x :: Below(r, x) <==> Below(upper, x) && Below(candidate, x)
  {
    if candidate.None? then upper
    else if upper.None? || candidate.value.at < upper.value.at then candidate
    else if candidate.value.at == upper.value.at
        then Some(Limit(upper.value.at, upper.value.inclusive && candidate.value.inclusive))
    else upper
  }

  predicate TimeFilters(e: Reader, field: Field, conditions: seq<Filter>) {
    IsTime(field) && forall f | f in conditions :: f.field == field && ValidFilter(e, f)
  }

  predicate AllSatisfied(e: Reader, field: Field, conditions: seq<Filter>, x: real)
    requires TimeFilters(e, field, conditions)
  {
    forall f | f in conditions :: TimeSatisfies(e, f, x)
  }

  /** The limits one condition sets, or the point it excludes. */
  function LowerOf(e: Reader, f: Filter): Option<Limit>
    requires IsTime(f.field) && ValidFilter(e, f)
  {
    var first := When(e, f.field, f.values[0]).value;
    match f.operator
    case Range => Some(Limit(first, true))
    case Eq => Some(Limit(first, true))
    case Gt => Some(Limit(first, false))
    case Gte => Some(Limit(first, true))
    case _ => None
  }

  function UpperOf(e: Reader, f: Filter): Option<Limit>
    requires IsTime(f.field) && ValidFilter(e, f)
  {
    var first := When(e, f.field, f.values[0]).value;
    match f.operator
    case Range => Some(Limit(When(e, f.field, f.values[1]).value, false))
    case Eq => Some(Limit(first, true))
    case Lt => Some(Limit(first, false))
    case Lte => Some(Limit(first, true))
    case _ => None
  }

  lemma {:induction false} LimitsMean(e: Reader, f: Filter, x: real)
    requires IsTime(f.field) && ValidFilter(e, f)
    ensures f.operator != Neq ==> (TimeSatisfies(e, f, x) <==> Above(LowerOf(e, f), x) && Below(UpperOf(e, f), x))
    ensures f.operator == Neq ==> LowerOf(e, f) == UpperOf(e, f) == None
  {
  }

  /** The tightest limits the conditions set, and the points they exclude, as the loop gathers them. */
  function LowerLimit(e: Reader, field: Field, conditions: seq<Filter>): Option<Limit>
    requires TimeFilters(e, field, conditions)
  {
    var n := |conditions| - 1;
    if n < 0 then None else Raise(LowerLimit(e, field, conditions[..n]), LowerOf(e, conditions[n]))
  }

  function UpperLimit(e: Reader, field: Field, conditions: seq<Filter>): Option<Limit>
    requires TimeFilters(e, field, conditions)
  {
    var n := |conditions| - 1;
    if n < 0 then None else Reduce(UpperLimit(e, field, conditions[..n]), UpperOf(e, conditions[n]))
  }

  function ExcludedPoints(e: Reader, field: Field, conditions: seq<Filter>): set<real>
    requires TimeFilters(e, field, conditions)
  {
    var n := |conditions| - 1;
    if n < 0 then {} else ExcludedPoints(e, field, conditions[..n]) + ExcludedBy(e, conditions[n])
  }

  function ExcludedBy(e: Reader, f: Filter): set<real>
    requires IsTime(f.field) && ValidFilter(e, f)
  {
    if f.operator == Neq then {When(e, f.field, f.values[0]).value} else {}
  }

  lemma {:induction false} ConditionMeans(e: Reader, f: Filter, x: real)
    requires IsTime(f.field) && ValidFilter(e, f)
    ensures TimeSatisfies(e, f, x) <==> Above(LowerOf(e, f), x) && Below(UpperOf(e, f), x) && x !in ExcludedBy(e, f)
  {
    LimitsMean(e, f, x);
  }

  lemma {:induction false} AllSatisfiedSplits(e: Reader, field: Field, conditions: seq<Filter>, x: real)
    requires TimeFilters(e, field, conditions) && conditions != []
    ensures var n := |conditions| - 1;
            AllSatisfied(e, field, conditions, x) <==>
              AllSatisfied(e, field, conditions[..n], x) && TimeSatisfies(e, conditions[n], x)
  {
    var n := |conditions| - 1;
    assert conditions == conditions[..n] + [conditions[n]];
  }

  /** An instant satisfies all conditions exactly if it is between the limits and not excluded. */
  lemma {:induction false} Confined(e: Reader, field: Field, conditions: seq<Filter>, x: real)
    requires TimeFilters(e, field, conditions)
    ensures AllSatisfied(e, field, conditions, x) <==>
      && Above(LowerLimit(e, field, conditions), x) && Below(UpperLimit(e, field, conditions), x)
      && x !in ExcludedPoints(e, field, conditions)
  {
    var n := |conditions| - 1;
    if n >= 0 {
      Confined(e, field, conditions[..n], x);
      ConditionMeans(e, conditions[n], x);
      AllSatisfiedSplits(e, field, conditions, x);
    }
  }

  /** The test at the end of the loop. */
  predicate Crossed(lower: Option<Limit>, upper: Option<Limit>, excluded: set<real>) {
    && lower.Some? && upper.Some?
    && (lower.value.at > upper.value.at
        || (lower.value.at == upper.value.at
            && (!(lower.value.inclusive && upper.value.inclusive) || lower.value.at in excluded)))
  }

  /** An open interval is not exhausted by finitely many points. */
  lemma {:induction false} PointBetween(low: real, high: real, excluded: set<real>) returns (x: real)
    requires low < high
    ensures low < x < high && x !in excluded
    decreases |excluded|
  {
    if p :| p in excluded {
      x := PointBetween(low, high, excluded - {p});
      if x == p {
        x := PointBetween(low, p, excluded - {p});
      }
    } else {
      x := (low + high) / 2.0;
    }
  }

  /** The test is right: it refuses exactly the limits between which no instant is left. */
  lemma {:induction false} CrossedIsExact(lower: Option<Limit>, upper: Option<Limit>, excluded: set<real>)
    ensures Crossed(lower, upper, excluded) <==> forall x :: !(Above(lower, x) && Below(upper, x) && x !in excluded)
  {
    if !Crossed(lower, upper, excluded) {
      var x: real;
      if lower.None? && upper.None? {
        x := PointBetween(0.0, 1.0, excluded);
      } else if lower.None? {
        x := PointBetween(upper.value.at - 1.0, upper.value.at, excluded);
      } else if upper.None? {
        x := PointBetween(lower.value.at, lower.value.at + 1.0, excluded);
      } else if lower.value.at < upper.value.at {
        x := PointBetween(lower.value.at, upper.value.at, excluded);
      } else {
        x := lower.value.at;
      }
      assert Above(lower, x) && Below(upper, x) && x !in excluded;
    }
  }

  /** No point in time satisfies all conditions. */
  ghost predicate NoInstant(e: Reader, field: Field, conditions: seq<Filter>)
    requires TimeFilters(e, field, conditions)
  {
    forall x :: !AllSatisfied(e, field, conditions, x)
  }

  /** What the check finds of a field in time. */
  predicate TimesCross(e: Reader, field: Field, conditions: seq<Filter>)
    requires TimeFilters(e, field, conditions)
  {
    Crossed(LowerLimit(e, field, conditions), UpperLimit(e, field, conditions), ExcludedPoints(e, field, conditions))
  }

  /** It is so exactly if no instant satisfies all conditions. */
  lemma {:induction false} CrossingIsExact(e: Reader, field: Field, conditions: seq<Filter>)
    requires TimeFilters(e, field, conditions)
    ensures TimesCross(e, field, conditions) <==> NoInstant(e, field, conditions)
  {
    CrossedIsExact(LowerLimit(e, field, conditions), UpperLimit(e, field, conditions),
        ExcludedPoints(e, field, conditions));
    forall x
      ensures AllSatisfied(e, field, conditions, x) <==>
        && Above(LowerLimit(e, field, conditions), x) && Below(UpperLimit(e, field, conditions), x)
        && x !in ExcludedPoints(e, field, conditions)
    {
      Confined(e, field, conditions, x);
    }
  }

  /** What the loop has gathered from the first `k` conditions. */
  predicate Gathered(e: Reader, field: Field, conditions: seq<Filter>, k: nat,
                     lower: Option<Limit>, upper: Option<Limit>,
                     excluded: set<real>)
    requires k <= |conditions|
  {
    && TimeFilters(e, field, conditions[..k])
    && lower == LowerLimit(e, field, conditions[..k]) && upper == UpperLimit(e, field, conditions[..k])
    && excluded == ExcludedPoints(e, field, conditions[..k])
  }

  lemma {:induction false} GatherOne(e: Reader, field: Field, conditions: seq<Filter>, k: nat, lower: Option<Limit>,
                                     upper: Option<Limit>, excluded: set<real>)
    requires TimeFilters(e, field, conditions) && k < |conditions|
             && Gathered(e, field, conditions, k, lower, upper, excluded)
    ensures var f := conditions[k];
            Gathered(e, field, conditions, k + 1, Raise(lower, LowerOf(e, f)), Reduce(upper, UpperOf(e, f)),
                     excluded + ExcludedBy(e, f))
  {
    assert conditions[..k + 1][..k] == conditions[..k];
  }

  /** A field in time: refused exactly if no instant satisfies all conditions. */
  method TimesConflict(e: Reader, field: Field, conditions: seq<Filter>) returns (conflict: bool)
    requires TimeFilters(e, field, conditions)
    ensures conflict <==> NoInstant(e, field, conditions)
  {
    var lower: Option<Limit>, upper: Option<Limit>, excluded: set<real> := None, None, {};
    for k := 0 to |conditions|
      invariant Gathered(e, field, conditions, k, lower, upper, excluded)
    {
      var item := conditions[k];
      GatherOne(e, field, conditions, k, lower, upper, excluded);
      excluded := excluded + ExcludedBy(e, item);
      lower := Raise(lower, LowerOf(e, item));
      upper := Reduce(upper, UpperOf(e, item));
    }
    assert conditions[..|conditions|] == conditions;
    CrossingIsExact(e, field, conditions);
    conflict := Crossed(lower, upper, excluded);
  }

  // ----- the whole check

  /** Some field's conditions are found to conflict. */
  ghost predicate Conflicts(e: Reader, field: Field, filters: seq<Filter>)
    requires AllValid(e, filters)
  {
    if IsTime(field) then NoInstant(e, field, Of(field, filters))
    else Pinned(Of(field, filters)) && forall v :: !Keeps(Of(field, filters), v)
  }

  predicate GroupedAt(field: Field, filters: seq<Filter>, order: seq<Field>, grouped: map<Field, seq<Filter>>) {
    && (field in order <==> field in grouped)
    && Of(field, filters) == if field in grouped then grouped[field] else []
  }

  ghost predicate Grouped(filters: seq<Filter>, order: seq<Field>, grouped: map<Field, seq<Filter>>) {
    forall field :: GroupedAt(field, filters, order, grouped)
  }

  lemma {:induction false} OfOneMore(field: Field, filters: seq<Filter>, f: Filter)
    ensures Of(field, filters + [f]) == if f.field == field then Of(field, filters) + [f] else Of(field, filters)
  {
    assert (filters + [f])[..|filters|] == filters;
  }

  /** The map with one more filter of its field. */
  function Added(grouped: map<Field, seq<Filter>>, f: Filter): map<Field, seq<Filter>> {
    grouped[f.field := if f.field in grouped then grouped[f.field] + [f] else [f]]
  }

  lemma {:induction false} GroupOneAt(field: Field, filters: seq<Filter>, order: seq<Field>,
                                      grouped: map<Field, seq<Filter>>, f: Filter)
    requires GroupedAt(field, filters, order, grouped) && GroupedAt(f.field, filters, order, grouped)
    ensures GroupedAt(field, filters + [f], if f.field in grouped then order else order + [f.field], Added(grouped, f))
  {
    OfOneMore(field, filters, f);
  }

  lemma {:induction false} GroupOne(filters: seq<Filter>, order: seq<Field>,
                                    grouped: map<Field, seq<Filter>>, f: Filter)
    requires Grouped(filters, order, grouped)
    ensures Grouped(filters + [f], if f.field in grouped then order else order + [f.field], Added(grouped, f))
  {
    var (more, fields, added) :=
        (filters + [f], if f.field in grouped then order else order + [f.field], Added(grouped, f));
    assert GroupedAt(f.field, filters, order, grouped);
    forall field
      ensures GroupedAt(field, more, fields, added)
    {
      assert GroupedAt(field, filters, order, grouped);
      GroupOneAt(field, filters, order, grouped, f);
    }
  }

  /** The fields, in the order in which they first appear, with their conditions. */
  method GroupByField(filters: seq<Filter>) returns (order: seq<Field>, grouped: map<Field, seq<Filter>>)
    ensures Grouped(filters, order, grouped)
  {
    order, grouped := [], map[];
    for k := 0 to |filters|
      invariant Grouped(filters[..k], order, grouped)
    {
      var item := filters[k];
      GroupOne(filters[..k], order, grouped, item);
      assert filters[..k + 1] == filters[..k] + [item];
      if item.field in grouped {
        grouped := grouped[item.field := grouped[item.field] + [item]];
      } else {
        order := order + [item.field];
        grouped := grouped[item.field := [item]];
      }
    }
    assert filters[..|filters|] == filters;
  }

  /** The check of one field. */
  method FieldConflict(e: Reader, field: Field, filters: seq<Filter>, conditions: seq<Filter>) returns (conflict: bool)
    requires AllValid(e, filters) && conditions == Of(field, filters)
    ensures conflict <==> Conflicts(e, field, filters)
  {
    if IsTime(field) {
      conflict := TimesConflict(e, field, conditions);
    } else {
      conflict := ValuesConflict(conditions);
    }
  }

  lemma {:induction false} NoConditionsNoConflict(e: Reader, field: Field, filters: seq<Filter>)
    requires AllValid(e, filters) && Of(field, filters) == []
    ensures !Conflicts(e, field, filters)
  {
    if IsTime(field) {
      assert AllSatisfied(e, field, Of(field, filters), 0.0);
    }
  }

  /** `_validate_conjunction`: the first field in conflict, if any. */
  method ValidateConjunction(e: Reader, filters: seq<Filter>) returns (refused: Option<Field>)
    requires AllValid(e, filters)
    ensures refused.Some? ==> Conflicts(e, refused.value, filters)
    ensures refused.None? ==> forall field :: !Conflicts(e, field, filters)
  {
    var order, grouped := GroupByField(filters);
    for k := 0 to |order|
      invariant forall i | 0 <= i < k :: !Conflicts(e, order[i], filters)
    {
      var field := order[k];
      assert field in order && GroupedAt(field, filters, order, grouped);
      var conflict := FieldConflict(e, field, filters, grouped[field]);
      if conflict {
        return Some(field);
      }
    }
    forall field
      ensures !Conflicts(e, field, filters)
    {
      assert GroupedAt(field, filters, order, grouped);
      if field !in order {
        NoConditionsNoConflict(e, field, filters);
      }
    }
    return None;
  }
}

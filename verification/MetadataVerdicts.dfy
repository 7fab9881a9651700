/** The conjunction check against the compiled query: a refused conjunction selects no row,
    and for which conjunctions an accepted one selects some. */
module MetadataVerdicts {
  import opened MetadataFilters
  import opened StoredDocuments
  import opened Text
  import opened TimeVerdicts

  /** The check finds some field in conflict. */
  ghost predicate IsRefused(e: Reader, filters: seq<Filter>)
    requires AllValid(e, filters)
  {
    exists field :: Conflicts(e, field, filters)
  }

  ghost predicate Selects(e: Reader, filters: seq<Filter>, row: Row) {
    Eval(e, row, QueryOf(filters)) == True
  }

  // ----- a refusal is right

  lemma {:induction false} TextKeeps(e: Reader, field: Field, filters: seq<Filter>, row: Row)
    requires AllValid(e, filters) && AllHold(e, filters, row) && !IsTime(field) && field != DepartmentId
    ensures Pinned(Of(field, filters)) ==>
            TextOf(row, field).Some? && Keeps(Of(field, filters), TextOf(row, field).value)
  {
    forall f | f in Of(field, filters)
      ensures TextOf(row, field).Some? && TextSatisfies(e, f, TextOf(row, field).value)
    {
      assert Holds(e, f, row);
    }
  }

  lemma {:induction false} DepartmentKeeps(e: Reader, filters: seq<Filter>, row: Row)
    requires AllValid(e, filters) && AllHold(e, filters, row) && Pinned(Of(DepartmentId, filters))
    ensures exists v :: Keeps(Of(DepartmentId, filters), v)
  {
    var own := Of(DepartmentId, filters);
    var f :| f in own && f.operator == Eq;
    assert Holds(e, f, row) && f.values == [f.values[0]];
    var v := f.values[0];
    forall g | g in own
      ensures g.operator == Eq ==> v in g.values
      ensures g.operator == Neq ==> v !in g.values
    {
      assert Holds(e, g, row) && ValidFilter(e, g) && g.values == [g.values[0]];
      if g.operator == Eq {
        NumberTellsApart(v, g.values[0]);
      }
    }
    assert Keeps(own, v);
  }

  lemma {:induction false} TimeKeeps(e: Reader, field: Field, filters: seq<Filter>, row: Row)
    requires AllValid(e, filters) && AllHold(e, filters, row) && IsTime(field)
    ensures !NoInstant(e, field, Of(field, filters))
  {
    var own := Of(field, filters);
    if own == [] {
      assert AllSatisfied(e, field, own, 0.0);
    } else {
      assert own[0] in own && Holds(e, own[0], row);
      var x := TimeOf(row, field).value;
      forall f | f in own
        ensures TimeSatisfies(e, f, x)
      {
        assert Holds(e, f, row);
      }
      assert AllSatisfied(e, field, own, x);
    }
  }

  /** A refused conjunction compiles to a predicate that is true of no row, whatever its fields
      and operators. */
  lemma {:induction false} RefusedSelectsNothing(e: Reader, filters: seq<Filter>, row: Row)
    requires AllValid(e, filters) && IsRefused(e, filters)
    ensures !Selects(e, filters, row)
  {
    CompiledMeans(e, filters, row);
    if AllHold(e, filters, row) {
      var field :| Conflicts(e, field, filters);
      if IsTime(field) {
        TimeKeeps(e, field, filters, row);
      } else if field == DepartmentId {
        DepartmentKeeps(e, filters, row);
      } else {
        TextKeeps(e, field, filters, row);
      }
      assert false;
    }
  }

  // ----- the rows there are

  /** As many filters as a query may carry: 20 of its own and 20 found in its text. */
  const MOST_FILTERS := 40

  /** A row as uploads and edits leave it: the type is that of the file name, the status one of the
      five, and everything fits its column. */
  predicate Stored(row: Row) {
    && row.name.Some? && StoredName(row.name.value) && row.mime == TypeOf(row.name.value)
    && (row.code.Some? ==> StoredCode(row.code.value))
    && row.status.Some? && row.status.value in STATUSES
    && (row.department.Some? ==> 1 <= row.department.value <= LARGEST_ID)
    && row.uploaded.Some?
    && (row.event.Some? ==> OnCalendar(EventDate, row.event.value))
  }

  predicate Passes(e: Reader, conditions: seq<Filter>, v: string) {
    forall f | f in conditions :: TextSatisfies(e, f, v)
  }

  /** Some condition searches for a part of the text. */
  predicate Searched(conditions: seq<Filter>) {
    exists f | f in conditions :: f.operator == Holding
  }

  /** The conjunction does not exclude every status there is. */
  predicate StatusLeft(filters: seq<Filter>) {
    exists v | v in STATUSES :: forall f | f in Of(BusinessStatus, filters) :: f.operator == Neq ==> v !in f.values
  }

  /** Some type that is stored passes. */
  predicate TypeLeft(e: Reader, filters: seq<Filter>) {
    exists t | t in TYPES :: Passes(e, Of(FileType, filters), t)
  }

  /** Codes are demanded or searched, and none that can be stored passes. */
  ghost predicate CodeGone(e: Reader, filters: seq<Filter>) {
    var own := Of(DocumentCode, filters);
    (Pinned(own) || Searched(own)) && forall v | StoredCode(v) :: !Passes(e, own, v)
  }

  /** A file name that passes, and whose type does. */
  predicate NamePasses(e: Reader, filters: seq<Filter>, v: string) {
    && StoredName(v) && Passes(e, Of(DocumentName, filters), v)
    && Passes(e, Of(FileType, filters), TypeOf(v).value)
  }

  /** Names are demanded or searched, and none that can be stored passes with its type; or no type
      passes. */
  ghost predicate NameGone(e: Reader, filters: seq<Filter>) {
    var own := Of(DocumentName, filters);
    if Pinned(own) || Searched(own) then forall v :: !NamePasses(e, filters, v) else !TypeLeft(e, filters)
  }

  /** What the check does not see. */
  ghost predicate TooLittleLeft(e: Reader, filters: seq<Filter>)
    requires AllValid(e, filters)
  {
    || PointsSqueezed(e, EventDate, Of(EventDate, filters))
    || PointsSqueezed(e, UploadedAt, Of(UploadedAt, filters))
    || !StatusLeft(filters) || CodeGone(e, filters) || NameGone(e, filters)
  }

  // ----- a value that no condition excludes

  /** What a measure makes of the first value of each condition. */
  function Taken(conditions: seq<Filter>, measure: string -> int): (taken: set<int>)
    ensures |taken| <= |conditions|
    ensures forall f | f in conditions && f.values != [] :: measure(f.values[0]) in taken
  {
    if conditions == [] then {}
    else
      var n := |conditions| - 1;
      Taken(conditions[..n], measure)
      + if conditions[n].values == [] then {} else {measure(conditions[n].values[0])}
  }

  lemma {:induction false} OfIsShorter(field: Field, filters: seq<Filter>)
    ensures |Of(field, filters)| <= |filters|
  {
    if filters != [] {
      OfIsShorter(field, filters[..|filters| - 1]);
    }
  }

  lemma {:induction false} DepartmentWitness(e: Reader, filters: seq<Filter>) returns (n: int)
    requires AllValid(e, filters) && !Conflicts(e, DepartmentId, filters) && |filters| <= MOST_FILTERS
    ensures 1 <= n <= LARGEST_ID && forall f | f in Of(DepartmentId, filters) :: NumberSatisfies(f, n)
  {
    var own := Of(DepartmentId, filters);
    if Pinned(own) {
      n := DemandedDepartment(e, filters);
    } else {
      OfIsShorter(DepartmentId, filters);
      n := FreeNumber(Taken(own, v => Number(v)), MOST_FILTERS + 1);
      forall f | f in own
        ensures NumberSatisfies(f, n)
      {
        assert ValidFilter(e, f) && f.operator == Neq;
      }
    }
  }

  lemma {:induction false} DemandedDepartment(e: Reader, filters: seq<Filter>) returns (n: int)
    requires AllValid(e, filters) && !Conflicts(e, DepartmentId, filters) && Pinned(Of(DepartmentId, filters))
    ensures 1 <= n <= LARGEST_ID && forall f | f in Of(DepartmentId, filters) :: NumberSatisfies(f, n)
  {
    var own := Of(DepartmentId, filters);
    var v :| Keeps(own, v);
    var f :| f in own && f.operator == Eq;
    assert ValidFilter(e, f) && f.values == [v];
    NumberIsPositive(v);
    n := Number(v);
    forall g | g in own
      ensures NumberSatisfies(g, n)
    {
      assert ValidFilter(e, g) && g.values == [g.values[0]];
      if g.operator == Neq && Number(g.values[0]) == n {
        NumberTellsApart(v, g.values[0]);
        assert false;
      }
    }
  }

  lemma {:induction false} StatusWitness(e: Reader, filters: seq<Filter>) returns (v: string)
    requires AllValid(e, filters) && !Conflicts(e, BusinessStatus, filters) && StatusLeft(filters)
    ensures v in STATUSES && Passes(e, Of(BusinessStatus, filters), v)
  {
    var own := Of(BusinessStatus, filters);
    if Pinned(own) {
      v :| Keeps(own, v);
      var f :| f in own && f.operator == Eq;
      assert ValidFilter(e, f) && v in f.values;
    } else {
      v :| v in STATUSES && forall f | f in own :: f.operator == Neq ==> v !in f.values;
    }
    forall f | f in own
      ensures TextSatisfies(e, f, v)
    {
      assert ValidFilter(e, f);
    }
  }

  lemma {:induction false} CodeWitness(e: Reader, filters: seq<Filter>) returns (v: string)
    requires AllValid(e, filters) && !CodeGone(e, filters) && |filters| <= MOST_FILTERS
    ensures StoredCode(v) && Passes(e, Of(DocumentCode, filters), v)
  {
    var own := Of(DocumentCode, filters);
    if Pinned(own) || Searched(own) {
      v :| StoredCode(v) && Passes(e, own, v);
    } else {
      OfIsShorter(DocumentCode, filters);
      var n := UnlikeAny(e, own, "");
      v := Letters(n);
      assert Letters(n) + "" == v;
      CodeOfLetters(n);
    }
  }

  /** Conditions that only exclude texts of another measure let a text pass. */
  lemma {:induction false} ExcludesOthers(e: Reader, conditions: seq<Filter>, v: string, measure: string -> int)
    requires forall f | f in conditions :: ValidFilter(e, f) && (f.field == DocumentCode || f.field == DocumentName)
    requires !Pinned(conditions) && !Searched(conditions) && measure(v) !in Taken(conditions, measure)
    ensures Passes(e, conditions, v)
  {
    forall f | f in conditions
      ensures TextSatisfies(e, f, v)
    {
      assert ValidFilter(e, f) && f.operator == Neq && f.values == [f.values[0]];
    }
  }

  /** So many letters before a suffix make a text that no condition excludes. */
  lemma {:induction false} UnlikeAny(e: Reader, conditions: seq<Filter>, suffix: string) returns (n: nat)
    requires forall f | f in conditions :: ValidFilter(e, f) && (f.field == DocumentCode || f.field == DocumentName)
    requires !Pinned(conditions) && !Searched(conditions) && |conditions| <= MOST_FILTERS
    ensures 1 <= n <= MOST_FILTERS + 1 && Passes(e, conditions, Letters(n) + suffix)
  {
    var measure := (w: string) => |w| - |suffix|;
    n := FreeNumber(Taken(conditions, measure), MOST_FILTERS + 1);
    ExcludesOthers(e, conditions, Letters(n) + suffix, measure);
  }

  lemma {:induction false} NameWitness(e: Reader, filters: seq<Filter>) returns (v: string)
    requires AllValid(e, filters) && !NameGone(e, filters) && |filters| <= MOST_FILTERS
    ensures NamePasses(e, filters, v)
  {
    var own := Of(DocumentName, filters);
    if Pinned(own) || Searched(own) {
      v :| NamePasses(e, filters, v);
    } else {
      var t :| t in TYPES && Passes(e, Of(FileType, filters), t);
      OfIsShorter(DocumentName, filters);
      var suffix := SuffixOf(t);
      var n := UnlikeAny(e, own, suffix);
      v := Letters(n) + suffix;
      NameOfType(Letters(n), t);
    }
  }

  // ----- which verdicts are right

  /** A row for a conjunction that leaves something to every field. */
  lemma {:induction false} AcceptedSelects(e: Reader, filters: seq<Filter>) returns (row: Row)
    requires AllValid(e, filters) && !IsRefused(e, filters) && !TooLittleLeft(e, filters) && |filters| <= MOST_FILTERS
    ensures Selects(e, filters, row) && Stored(row)
  {
    assert forall field :: !Conflicts(e, field, filters);
    var department := DepartmentWitness(e, filters);
    var name := NameWitness(e, filters);
    var code := CodeWitness(e, filters);
    var status := StatusWitness(e, filters);
    var uploaded := PointWitness(e, UploadedAt, Of(UploadedAt, filters));
    var event := PointWitness(e, EventDate, Of(EventDate, filters));
    row := Row(Some(department), Some(name), Some(code), TypeOf(name), Some(status), Some(uploaded), Some(event));
    forall f | f in filters
      ensures Holds(e, f, row)
    {
      assert f in Of(f.field, filters);
    }
    CompiledMeans(e, filters, row);
  }

  lemma {:induction false} HeldLeavesCode(e: Reader, filters: seq<Filter>, row: Row)
    requires AllValid(e, filters) && AllHold(e, filters, row) && Stored(row)
    ensures !CodeGone(e, filters)
  {
    var own := Of(DocumentCode, filters);
    if Pinned(own) || Searched(own) {
      var g :| g in own;
      assert Holds(e, g, row);
      var v := row.code.value;
      forall f | f in own
        ensures TextSatisfies(e, f, v)
      {
        assert Holds(e, f, row);
      }
      assert StoredCode(v) && Passes(e, own, v);
    }
  }

  lemma {:induction false} HeldLeavesName(e: Reader, filters: seq<Filter>, row: Row)
    requires AllValid(e, filters) && AllHold(e, filters, row) && Stored(row)
    ensures !NameGone(e, filters)
  {
    var v, t := row.name.value, row.mime.value;
    forall f | f in Of(DocumentName, filters)
      ensures TextSatisfies(e, f, v)
    {
      assert Holds(e, f, row);
    }
    forall f | f in Of(FileType, filters)
      ensures TextSatisfies(e, f, t)
    {
      assert Holds(e, f, row);
    }
    assert NamePasses(e, filters, v);
    assert t in TYPES && Passes(e, Of(FileType, filters), t);
  }

  lemma {:induction false} HeldLeavesStatus(e: Reader, filters: seq<Filter>, row: Row)
    requires AllValid(e, filters) && AllHold(e, filters, row) && Stored(row)
    ensures StatusLeft(filters)
  {
    var v := row.status.value;
    forall f | f in Of(BusinessStatus, filters)
      ensures f.operator == Neq ==> v !in f.values
    {
      assert Holds(e, f, row);
    }
  }

  lemma {:induction false} HeldLeavesPoint(e: Reader, field: Field, filters: seq<Filter>, row: Row)
    requires AllValid(e, filters) && AllHold(e, filters, row) && Stored(row) && IsTime(field)
    ensures !PointsSqueezed(e, field, Of(field, filters))
  {
    var own := Of(field, filters);
    NoPointExactly(e, field, own);
    if own == [] {
      assert OnCalendar(field, 1) && At(e, field, own, 1);
    } else {
      assert own[0] in own && Holds(e, own[0], row);
      var point := if field == EventDate then row.event.value else row.uploaded.value;
      forall f | f in own
        ensures TimeSatisfies(e, f, point as real)
      {
        assert Holds(e, f, row);
      }
      assert OnCalendar(field, point) && At(e, field, own, point);
    }
  }

  /** Of the rows there are, a conjunction selects none if and only if the check refuses it or it
      leaves too little in one of the ways that the check does not see. */
  lemma {:induction false} RefusesExactly(e: Reader, filters: seq<Filter>)
    requires AllValid(e, filters) && |filters| <= MOST_FILTERS
    ensures (forall row | Stored(row) :: !Selects(e, filters, row))
       <==> IsRefused(e, filters) || TooLittleLeft(e, filters)
  {
    if IsRefused(e, filters) || TooLittleLeft(e, filters) {
      forall row | Stored(row)
        ensures !Selects(e, filters, row)
      {
        SelectsNothing(e, filters, row);
      }
    } else {
      var row := AcceptedSelects(e, filters);
    }
  }

  lemma {:induction false} SelectsNothing(e: Reader, filters: seq<Filter>, row: Row)
    requires AllValid(e, filters) && Stored(row) && (IsRefused(e, filters) || TooLittleLeft(e, filters))
    ensures !Selects(e, filters, row)
  {
    CompiledMeans(e, filters, row);
    if IsRefused(e, filters) {
      RefusedSelectsNothing(e, filters, row);
    } else if AllHold(e, filters, row) {
      HeldLeavesPoint(e, EventDate, filters, row);
      HeldLeavesPoint(e, UploadedAt, filters, row);
      HeldLeavesStatus(e, filters, row);
      HeldLeavesCode(e, filters, row);
      HeldLeavesName(e, filters, row);
      assert false;
    }
  }

  // ----- demanded and searched texts

  /** Where a code or a name is demanded, only the values of one such filter need be looked at. */
  lemma {:induction false} DemandedDecide(e: Reader, filters: seq<Filter>, f: Filter)
    requires AllValid(e, filters) && f in filters && f.operator == Eq
    ensures f.field == DocumentCode ==> (CodeGone(e, filters) <==>
              forall v | v in f.values :: !(StoredCode(v) && Passes(e, Of(DocumentCode, filters), v)))
    ensures f.field == DocumentName ==>
              (NameGone(e, filters) <==> forall v | v in f.values :: !NamePasses(e, filters, v))
  {
    assert f in Of(f.field, filters);
    assert forall v | Passes(e, Of(f.field, filters), v) :: TextSatisfies(e, f, v);
  }

  /** Lower case goes character by character. */
  ghost predicate Lowers(e: Reader) {
    && (forall a, b :: e.lower(a + b) == e.lower(a) + e.lower(b))
    && forall a :: |e.lower(a)| == |a|
  }

  /** A text longer than any code, or any name, is searched for in vain. */
  lemma {:induction false} TooLongToFind(e: Reader, filters: seq<Filter>, f: Filter)
    requires AllValid(e, filters) && Lowers(e) && f in filters && f.operator == Holding
    ensures f.field == DocumentCode && |f.values[0]| > LONGEST_CODE ==> CodeGone(e, filters)
    ensures f.field == DocumentName && |f.values[0]| > LONGEST_NAME ==> NameGone(e, filters)
  {
    var own := Of(f.field, filters);
    assert f in own && ValidFilter(e, f);
    forall v | Passes(e, own, v)
      ensures |f.values[0]| <= |v|
    {
      assert TextSatisfies(e, f, v);
      ContainsLength(e.lower(v), e.lower(f.values[0]));
    }
  }

  /** All texts that are searched for, one after the other. */
  function AllSearched(conditions: seq<Filter>): string {
    if conditions == [] then ""
    else
      var n := |conditions| - 1;
      AllSearched(conditions[..n])
      + if conditions[n].operator == Holding && conditions[n].values != [] then conditions[n].values[0] else ""
  }

  lemma {:induction false} SearchedIsFound(e: Reader, conditions: seq<Filter>, before: string, after: string)
    requires Lowers(e)
    ensures forall f | f in conditions && f.operator == Holding && f.values != [] ::
              Contains(e.lower(before + AllSearched(conditions) + after), e.lower(f.values[0]))
  {
    if conditions != [] {
      var n := |conditions| - 1;
      var f := conditions[n];
      var (early, last) := (AllSearched(conditions[..n]),
                            if f.operator == Holding && f.values != [] then f.values[0] else "");
      SearchedIsFound(e, conditions[..n], before, last + after);
      TextsRegroup(before, early, last, after);
      LowerFinds(e, before + early, last, after);
    }
  }

  lemma {:induction false} TextsRegroup(a: string, b: string, c: string, d: string)
    ensures a + (b + c) + d == a + b + (c + d) == (a + b) + (c + d)
  {
  }

  lemma {:induction false} LowerFinds(e: Reader, a: string, b: string, c: string)
    requires Lowers(e)
    ensures Contains(e.lower(a + (b + c)), e.lower(b))
  {
    ContainsMiddle(e.lower(a), e.lower(b), e.lower(c));
  }

  /** So many letters after the texts that are searched for, and before a suffix. */
  lemma {:induction false} FoundPasses(e: Reader, conditions: seq<Filter>, before: string, suffix: string)
      returns (n: nat)
    requires forall f | f in conditions :: ValidFilter(e, f) && (f.field == DocumentCode || f.field == DocumentName)
    requires Lowers(e) && !Pinned(conditions) && |conditions| <= MOST_FILTERS
    ensures 1 <= n <= MOST_FILTERS + 1
    ensures Passes(e, conditions, before + AllSearched(conditions) + (Letters(n) + suffix))
  {
    var rest := |before| + |AllSearched(conditions)| + |suffix|;
    var measure := (w: string) => |w| - rest;
    n := FreeNumber(Taken(conditions, measure), MOST_FILTERS + 1);
    var v := before + AllSearched(conditions) + (Letters(n) + suffix);
    SearchedIsFound(e, conditions, before, Letters(n) + suffix);
    assert measure(v) == n;
    forall f | f in conditions
      ensures TextSatisfies(e, f, v)
    {
      assert ValidFilter(e, f) && f.values == [f.values[0]];
    }
  }

  /** Texts of printable characters that are short together are found in some code. */
  lemma {:induction false} ShortCodeIsFound(e: Reader, filters: seq<Filter>)
    requires AllValid(e, filters) && Lowers(e) && |filters| <= MOST_FILTERS && !Pinned(Of(DocumentCode, filters))
    requires |AllSearched(Of(DocumentCode, filters))| + MOST_FILTERS + 2 <= LONGEST_CODE
    requires forall c | c in AllSearched(Of(DocumentCode, filters)) :: !Control(c)
    ensures !CodeGone(e, filters)
  {
    var own := Of(DocumentCode, filters);
    OfIsShorter(DocumentCode, filters);
    var n := FoundPasses(e, own, "x", "");
    FramedCode(AllSearched(own), n);
    assert Passes(e, own, "x" + AllSearched(own) + (Letters(n) + ""));
  }

  lemma {:induction false} FramedCode(text: string, n: nat)
    requires 0 < n && |text| + n + 1 <= LONGEST_CODE && forall c | c in text :: !Control(c)
    ensures StoredCode("x" + text + (Letters(n) + ""))
  {
    var code := "x" + text + (Letters(n) + "");
    assert code[|code| - 1] == Letters(n)[n - 1] && Letters(n)[n - 1] in Letters(n);
    TrimmedIsStripped(code);
  }

  /** And in some name, if a type is left. */
  lemma {:induction false} ShortNameIsFound(e: Reader, filters: seq<Filter>)
    requires AllValid(e, filters) && Lowers(e) && |filters| <= MOST_FILTERS && !Pinned(Of(DocumentName, filters))
    requires |AllSearched(Of(DocumentName, filters))| + MOST_FILTERS + 6 <= LONGEST_NAME && TypeLeft(e, filters)
    requires forall c | c in AllSearched(Of(DocumentName, filters)) :: !Control(c) && c != '/' && c != '\\'
    ensures !NameGone(e, filters)
  {
    var own := Of(DocumentName, filters);
    var t :| t in TYPES && Passes(e, Of(FileType, filters), t);
    OfIsShorter(DocumentName, filters);
    var n := FoundPasses(e, own, "", SuffixOf(t));
    FoundName(AllSearched(own), n, t);
    assert NamePasses(e, filters, "" + AllSearched(own) + (Letters(n) + SuffixOf(t)));
  }

  lemma {:induction false} FoundName(text: string, n: nat, t: string)
    requires t in TYPES && 0 < n && |text| + n + 5 <= LONGEST_NAME
    requires forall c | c in text :: !Control(c) && c != '/' && c != '\\'
    ensures var v := "" + text + (Letters(n) + SuffixOf(t)); StoredName(v) && TypeOf(v) == Some(t)
  {
    NameOfType(text + Letters(n), t);
    NameRegroup(text, Letters(n), SuffixOf(t));
  }

  lemma {:induction false} NameRegroup(a: string, b: string, c: string)
    ensures "" + a + (b + c) == (a + b) + c
  {
  }

  // ----- what the resolver makes of phrases without `contains`

  /** No search, and of times only what `resolve_date` makes of calendar phrases. */
  predicate Plain(f: Filter) {
    && f.operator != Holding
    && (IsTime(f.field) ==> f.operator in {Gte, Lt, Range})
  }

  /** What is demanded can be stored: codes, names with a type that passes, and days. */
  predicate Storable(e: Reader, filters: seq<Filter>)
    requires AllValid(e, filters)
  {
    && (forall f | f in Of(DocumentCode, filters) && f.operator == Eq :: StoredCode(f.values[0]))
    && (forall f | f in Of(DocumentName, filters) && f.operator == Eq ::
          StoredName(f.values[0]) && Passes(e, Of(FileType, filters), TypeOf(f.values[0]).value))
    && var own := Of(EventDate, filters);
       !OffCalendar(EventDate, LowerLimit(e, EventDate, own), UpperLimit(e, EventDate, own))
  }

  /** For such filters, when a status and a type are left and what is demanded can be stored, the
      check is right. */
  lemma {:induction false} PlainVerdictIsRight(e: Reader, filters: seq<Filter>)
    requires AllValid(e, filters) && (forall f | f in filters :: Plain(f)) && |filters| <= MOST_FILTERS
    requires StatusLeft(filters) && TypeLeft(e, filters) && Storable(e, filters)
    ensures IsRefused(e, filters) <==> forall row | Stored(row) :: !Selects(e, filters, row)
  {
    RefusesExactly(e, filters);
    if !IsRefused(e, filters) {
      assert forall field :: !Conflicts(e, field, filters);
      PlainLeavesPoint(e, EventDate, filters);
      PlainLeavesPoint(e, UploadedAt, filters);
      PlainLeavesText(e, filters);
    }
  }

  lemma {:induction false} PlainLeavesPoint(e: Reader, field: Field, filters: seq<Filter>)
    requires AllValid(e, filters) && IsTime(field) && !Conflicts(e, field, filters)
    requires (forall f | f in filters :: Plain(f)) && Storable(e, filters)
    ensures !PointsSqueezed(e, field, Of(field, filters))
  {
    var own := Of(field, filters);
    LowerIsInclusive(e, field, own);
    BetweenPointsExactly(e, field, own);
    NoPointExactly(e, field, own);
  }

  lemma {:induction false} PlainLeavesText(e: Reader, filters: seq<Filter>)
    requires AllValid(e, filters) && (forall f | f in filters :: Plain(f)) && TypeLeft(e, filters)
    requires Storable(e, filters) && !Conflicts(e, DocumentCode, filters) && !Conflicts(e, DocumentName, filters)
    ensures !CodeGone(e, filters) && !NameGone(e, filters)
  {
    var codes, names := Of(DocumentCode, filters), Of(DocumentName, filters);
    if Pinned(codes) {
      var v := DemandedText(e, DocumentCode, filters);
    }
    if Pinned(names) {
      var v := DemandedText(e, DocumentName, filters);
      assert NamePasses(e, filters, v);
    }
  }

  /** The one text that is demanded passes. */
  lemma {:induction false} DemandedText(e: Reader, field: Field, filters: seq<Filter>) returns (v: string)
    requires AllValid(e, filters) && (forall f | f in filters :: Plain(f)) && !Conflicts(e, field, filters)
    requires (field == DocumentCode || field == DocumentName) && Pinned(Of(field, filters))
    ensures Passes(e, Of(field, filters), v)
    ensures exists f | f in Of(field, filters) :: f.operator == Eq && f.values == [v]
  {
    var own := Of(field, filters);
    v :| Keeps(own, v);
    var g :| g in own && g.operator == Eq;
    assert ValidFilter(e, g) && g.values == [v];
    forall f | f in own
      ensures TextSatisfies(e, f, v)
    {
      assert ValidFilter(e, f) && Plain(f);
    }
  }

  lemma {:induction false} LowerIsInclusive(e: Reader, field: Field, conditions: seq<Filter>)
    requires TimeFilters(e, field, conditions) && forall f | f in conditions :: f.operator != Gt
    ensures var lower := LowerLimit(e, field, conditions); lower.Some? ==> lower.value.inclusive
  {
    var n := |conditions| - 1;
    if n >= 0 {
      LowerIsInclusive(e, field, conditions[..n]);
    }
  }

  // ----- inputs that are accepted and select nothing

  lemma {:induction false} UnusedField(field: Field, filters: seq<Filter>)
    requires forall f | f in filters :: f.field != field
    ensures Of(field, filters) == []
  {
    if filters != [] {
      UnusedField(field, filters[..|filters| - 1]);
    }
  }

  lemma {:induction false} UnusedFieldIsFine(e: Reader, field: Field, filters: seq<Filter>)
    requires AllValid(e, filters) && forall f | f in filters :: f.field != field
    ensures !Conflicts(e, field, filters)
  {
    var own := Of(field, filters);
    UnusedField(field, filters);
    assert IsTime(field) ==> AllSatisfied(e, field, own, 0.0);
  }

  lemma {:induction false} UnusedFieldsAreFine(e: Reader, used: Field, filters: seq<Filter>)
    requires AllValid(e, filters) && (forall f | f in filters :: f.field == used) && !Conflicts(e, used, filters)
    ensures !IsRefused(e, filters)
  {
    forall field
      ensures !Conflicts(e, field, filters)
    {
      if field != used {
        UnusedFieldIsFine(e, field, filters);
      }
    }
  }

  /** Two filters that no row can both pass select nothing. */
  lemma {:induction false} PairSelectsNothing(e: Reader, f: Filter, g: Filter, row: Row)
    requires AllValid(e, [f, g]) && ValidFilter(e, f) && ValidFilter(e, g) && !(Holds(e, f, row) && Holds(e, g, row))
    ensures !Selects(e, [f, g], row)
  {
    CompiledMeans(e, [f, g], row);
    assert f in [f, g] && g in [f, g];
  }

  /** What is accepted though no stored row can be selected. */
  ghost predicate AcceptedInVain(e: Reader, filters: seq<Filter>) {
    AllValid(e, filters) && !IsRefused(e, filters) && forall row | Stored(row) :: !Selects(e, filters, row)
  }

  lemma {:induction false} InVain(e: Reader, used: Field, filters: seq<Filter>)
    requires AllValid(e, filters) && (forall f | f in filters :: f.field == used) && !Conflicts(e, used, filters)
    requires TooLittleLeft(e, filters)
    ensures AcceptedInVain(e, filters)
  {
    UnusedFieldsAreFine(e, used, filters);
    forall row | Stored(row)
      ensures !Selects(e, filters, row)
    {
      SelectsNothing(e, filters, row);
    }
  }

  /** After one point in time and before the next. */
  lemma {:induction false} AcceptedBetweenPoints(e: Reader, field: Field, a: string, b: string, point: int)
    requires IsTime(field) && 0 < |a| <= 200 && 0 < |b| <= 200
    requires Point(e, field, a) == Some(point) && Point(e, field, b) == Some(point + 1)
    ensures AcceptedInVain(e, [Filter(field, Gt, [a]), Filter(field, Lt, [b])])
  {
    var f, g := Filter(field, Gt, [a]), Filter(field, Lt, [b]);
    assert ValidFilter(e, f) && ValidFilter(e, g);
    var filters := [f, g];
    var own := Of(field, filters);
    var x := point as real + 0.5;
    assert TimeSatisfies(e, f, x) && TimeSatisfies(e, g, x);
    assert AllSatisfied(e, field, own, x);
    NoPointExactly(e, field, own);
    forall p | OnCalendar(field, p)
      ensures !At(e, field, own, p)
    {
      assert f in own && g in own;
      assert p <= point || p >= point + 1;
    }
    InVain(e, field, filters);
  }

  /** Before the first day there is. */
  lemma {:induction false} AcceptedBeforeCalendar(e: Reader, a: string)
    requires 0 < |a| <= 200 && e.day(a) == Some(FIRST_DATE)
    ensures AcceptedInVain(e, [Filter(EventDate, Lt, [a])])
  {
    var f := Filter(EventDate, Lt, [a]);
    assert ValidFilter(e, f);
    var own := Of(EventDate, [f]);
    assert AllSatisfied(e, EventDate, own, 0.0);
    NoPointExactly(e, EventDate, own);
    forall p | OnCalendar(EventDate, p)
      ensures !At(e, EventDate, own, p)
    {
      assert f in own;
    }
    InVain(e, EventDate, [f]);
  }

  /** All statuses excluded. */
  lemma {:induction false} AcceptedWithoutStatus(e: Reader)
    ensures AcceptedInVain(e,
              [Filter(BusinessStatus, Neq, ["UNKNOWN", "DRAFT", "EFFECTIVE", "ARCHIVED", "REPEALED"])])
  {
    var f := Filter(BusinessStatus, Neq, ["UNKNOWN", "DRAFT", "EFFECTIVE", "ARCHIVED", "REPEALED"]);
    assert ValidFilter(e, f) && f in Of(BusinessStatus, [f]);
    InVain(e, BusinessStatus, [f]);
  }

  /** The phrases "not PDF", "not DOCX", "not Excel", "not TXT" and "not Markdown", as they are
      resolved. */
  const NO_TYPE: seq<Filter> := [Filter(FileType, Neq, [PDF]), Filter(FileType, Neq, [DOCX]),
                                 Filter(FileType, Neq, [XLSX, XLS]), Filter(FileType, Neq, [TXT]),
                                 Filter(FileType, Neq, [MARKDOWN])]

  lemma {:induction false} NoTypePasses(e: Reader, filters: seq<Filter>)
    requires forall f | f in filters :: f.field == FileType && f.operator == Neq
    requires forall t | t in TYPES :: exists f | f in filters :: t in f.values
    ensures !TypeLeft(e, filters)
  {
    forall t | t in TYPES
      ensures !Passes(e, Of(FileType, filters), t)
    {
      var f :| f in filters && t in f.values;
      assert f in Of(FileType, filters) && !TextSatisfies(e, f, t);
    }
  }

  /** Filters that exclude all types between them. */
  lemma {:induction false} ExcludedTypes(e: Reader, filters: seq<Filter>)
    requires AllValid(e, filters) && forall f | f in filters :: f.field == FileType && f.operator == Neq
    requires forall t | t in TYPES :: exists f | f in filters :: t in f.values
    ensures AcceptedInVain(e, filters)
  {
    NoTypePasses(e, filters);
    NoTypeNoName(e, filters);
    assert !Pinned(Of(FileType, filters));
    InVain(e, FileType, filters);
  }

  lemma {:induction false} NoTypeNoName(e: Reader, filters: seq<Filter>)
    requires AllValid(e, filters) && !TypeLeft(e, filters) && forall f | f in filters :: f.field == FileType
    ensures TooLittleLeft(e, filters)
  {
    UnusedField(DocumentName, filters);
    assert NameGone(e, filters);
  }

  /** All types excluded. */
  lemma {:induction false} AcceptedWithoutType(e: Reader)
    ensures AcceptedInVain(e, NO_TYPE)
  {
    NoTypeIsValid(e);
    NoTypeIsLeft();
    ExcludedTypes(e, NO_TYPE);
  }

  lemma {:induction false} ExcludesType(e: Reader, values: seq<string>)
    requires 1 <= |values| <= 10 && forall t | t in values :: t in TYPES
    ensures ValidFilter(e, Filter(FileType, Neq, values))
  {
    assert forall t | t in TYPES :: 0 < |t| <= 200;
  }

  lemma {:induction false} NoTypeIsValid(e: Reader)
    ensures AllValid(e, NO_TYPE) && forall f | f in NO_TYPE :: f.field == FileType && f.operator == Neq
  {
    ExcludesType(e, [PDF]);
    ExcludesType(e, [DOCX]);
    ExcludesType(e, [XLSX, XLS]);
    ExcludesType(e, [TXT]);
    ExcludesType(e, [MARKDOWN]);
  }

  lemma {:induction false} NoTypeIsLeft()
    ensures forall t | t in TYPES :: exists f | f in NO_TYPE :: t in f.values
  {
    forall t | t in TYPES
      ensures exists f | f in NO_TYPE :: t in f.values
    {
      var i := TypeIsExcluded(t);
    }
  }

  lemma {:induction false} TypeIsExcluded(t: string) returns (i: nat)
    requires t in TYPES
    ensures i < |NO_TYPE| && NO_TYPE[i] in NO_TYPE && t in NO_TYPE[i].values
  {
    i := if t == PDF then 0 else if t == DOCX then 1 else if t == XLSX || t == XLS then 2
        else if t == TXT then 3 else 4;
  }

  /** One demanded text that no row can have. */
  lemma {:induction false} DemandedInVain(e: Reader, f: Filter)
    requires ValidFilter(e, f) && f.operator == Eq && (f.field == DocumentCode || f.field == DocumentName)
    requires f.field == DocumentCode ==> !StoredCode(f.values[0])
    requires f.field == DocumentName ==> !StoredName(f.values[0])
    ensures AcceptedInVain(e, [f])
  {
    DemandIsNoConflict(e, f);
    DemandedDecide(e, [f], f);
    InVain(e, f.field, [f]);
  }

  lemma {:induction false} DemandIsNoConflict(e: Reader, f: Filter)
    requires ValidFilter(e, f) && f.operator == Eq && (f.field == DocumentCode || f.field == DocumentName)
    ensures AllValid(e, [f]) && f in [f] && f.values == [f.values[0]] && !Conflicts(e, f.field, [f])
  {
    assert f in Of(f.field, [f]) && Keeps(Of(f.field, [f]), f.values[0]);
  }

  /** A code longer than its column, as any other that cannot be stored. */
  lemma {:induction false} AcceptedUnstoredCode(e: Reader, code: string)
    requires 0 < |code| <= 200 && !StoredCode(code)
    ensures AcceptedInVain(e, [Filter(DocumentCode, Eq, [code])])
  {
    DemandedInVain(e, Filter(DocumentCode, Eq, [code]));
  }

  /** A name without one of the suffixes, as any other that cannot be stored. */
  lemma {:induction false} AcceptedUnstoredName(e: Reader, name: string)
    requires 0 < |name| <= 200 && !StoredName(name)
    ensures AcceptedInVain(e, [Filter(DocumentName, Eq, [name])])
  {
    DemandedInVain(e, Filter(DocumentName, Eq, [name]));
  }

  /** A name, and a type that is not its own. */
  lemma {:induction false} AcceptedOtherType(e: Reader, name: string, t: string)
    requires 0 < |name| <= 200 && StoredName(name) && t in TYPES && TypeOf(name) != Some(t) && 0 < |t| <= 200
    ensures AcceptedInVain(e, [Filter(DocumentName, Eq, [name]), Filter(FileType, Eq, [t])])
  {
    var f, g := Filter(DocumentName, Eq, [name]), Filter(FileType, Eq, [t]);
    var filters := [f, g];
    assert ValidFilter(e, f) && ValidFilter(e, g);
    assert g in Of(FileType, filters);
    DemandedDecide(e, filters, f);
    NoneConflicts(e, filters);
    forall row | Stored(row)
      ensures !Selects(e, filters, row)
    {
      SelectsNothing(e, filters, row);
    }
  }

  lemma {:induction false} NoneConflicts(e: Reader, filters: seq<Filter>)
    requires AllValid(e, filters) && |filters| == 2 && filters[0].field == DocumentName && filters[1].field == FileType
    requires forall f | f in filters :: f.operator == Eq
    ensures !IsRefused(e, filters)
  {
    forall field
      ensures !Conflicts(e, field, filters)
    {
      if field == DocumentName || field == FileType {
        var f := filters[if field == DocumentName then 0 else 1];
        assert f in filters && ValidFilter(e, f);
        assert forall g :: g in Of(field, filters) <==> g == f;
        assert Keeps(Of(field, filters), f.values[0]);
      } else {
        UnusedFieldIsFine(e, field, filters);
      }
    }
  }

  /** A substring search that the demanded name cannot meet. */
  lemma {:induction false} AcceptedWithoutSubstring(e: Reader, name: string, part: string)
    requires 0 < |name| <= 200 && 0 < |part| <= 200 && !Contains(e.lower(name), e.lower(part))
    ensures AcceptedInVain(e, [Filter(DocumentName, Eq, [name]), Filter(DocumentName, Holding, [part])])
  {
    var f, g := Filter(DocumentName, Eq, [name]), Filter(DocumentName, Holding, [part]);
    var filters := [f, g];
    assert ValidFilter(e, f) && ValidFilter(e, g);
    assert g in Of(DocumentName, filters) && Keeps(Of(DocumentName, filters), name);
    DemandedDecide(e, filters, f);
    InVain(e, DocumentName, filters);
  }
}

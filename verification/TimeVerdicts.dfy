/** Conditions on whole points in time (days, or microseconds) against a check that takes time to
    be dense: when its verdict is wrong. */
module TimeVerdicts {
  import opened MetadataFilters
  import opened Text

  // ----- the points there are

  /** The days of the calendar, as `date` has them. Uploads have the time of the database. */
  const FIRST_DATE := 1
  const LAST_DATE := 3652059

  predicate OnCalendar(field: Field, point: int) {
    field == EventDate ==> FIRST_DATE <= point <= LAST_DATE
  }

  /** The point, as an instant, satisfies the conditions. */
  predicate At(e: Reader, field: Field, conditions: seq<Filter>, point: int)
    requires TimeFilters(e, field, conditions)
  {
    AllSatisfied(e, field, conditions, point as real)
  }

  ghost predicate NoPoint(e: Reader, field: Field, conditions: seq<Filter>)
    requires TimeFilters(e, field, conditions)
  {
    forall point | OnCalendar(field, point) :: !At(e, field, conditions, point)
  }

  // ----- between the limits

  /** The first point that a lower limit allows, and the last that an upper one does. */
  function FirstPoint(lower: Limit): int {
    lower.at.Floor + if lower.inclusive then 0 else 1
  }

  function LastPoint(upper: Limit): int {
    upper.at.Floor - if upper.inclusive then 0 else 1
  }

  predicate PointIn(excluded: set<real>, point: int) {
    point as real in excluded
  }

  /** Between the limits on both sides every point is excluded one by one, or there is none. */
  predicate Squeezed(lower: Option<Limit>, upper: Option<Limit>, excluded: set<real>) {
    && lower.Some? && upper.Some?
    && forall point | FirstPoint(lower.value) <= point <= LastPoint(upper.value) :: PointIn(excluded, point)
  }

  /** The computed limits, and those of the calendar. */
  function Lowest(e: Reader, field: Field, conditions: seq<Filter>): Option<Limit>
    requires TimeFilters(e, field, conditions)
  {
    Raise(LowerLimit(e, field, conditions), if field == EventDate then Some(Limit(FIRST_DATE as real, true)) else None)
  }

  function Highest(e: Reader, field: Field, conditions: seq<Filter>): Option<Limit>
    requires TimeFilters(e, field, conditions)
  {
    Reduce(UpperLimit(e, field, conditions), if field == EventDate then Some(Limit(LAST_DATE as real, true)) else None)
  }

  predicate PointsSqueezed(e: Reader, field: Field, conditions: seq<Filter>)
    requires TimeFilters(e, field, conditions)
  {
    Squeezed(Lowest(e, field, conditions), Highest(e, field, conditions), ExcludedPoints(e, field, conditions))
  }

  /** The limit is set by a point. */
  predicate Whole(limit: Option<Limit>) {
    limit.Some? ==> limit.value.at == limit.value.at.Floor as real
  }

  lemma {:induction false} PointsAreWhole(e: Reader, f: Filter)
    requires IsTime(f.field) && ValidFilter(e, f)
    ensures Whole(LowerOf(e, f)) && Whole(UpperOf(e, f))
  {
    assert forall v | v in f.values :: When(e, f.field, v).Some?;
  }

  lemma {:induction false} LimitsAreWhole(e: Reader, field: Field, conditions: seq<Filter>)
    requires TimeFilters(e, field, conditions)
    ensures Whole(LowerLimit(e, field, conditions)) && Whole(UpperLimit(e, field, conditions))
  {
    var n := |conditions| - 1;
    if n >= 0 {
      LimitsAreWhole(e, field, conditions[..n]);
      PointsAreWhole(e, conditions[n]);
    }
  }

  lemma {:induction false} WholeLimits(lower: Option<Limit>, upper: Option<Limit>, point: int)
    requires Whole(lower) && Whole(upper)
    ensures Above(lower, point as real) <==> (lower.Some? ==> FirstPoint(lower.value) <= point)
    ensures Below(upper, point as real) <==> (upper.Some? ==> point <= LastPoint(upper.value))
  {
  }

  /** A point on the calendar satisfies the conditions exactly if it is between all limits and not
      excluded. */
  lemma {:induction false} PointsMean(e: Reader, field: Field, conditions: seq<Filter>, point: int)
    requires TimeFilters(e, field, conditions)
    ensures var (lower, upper) := (Lowest(e, field, conditions), Highest(e, field, conditions));
            OnCalendar(field, point) && At(e, field, conditions, point) <==>
              && (lower.Some? ==> FirstPoint(lower.value) <= point) && (upper.Some? ==> point <= LastPoint(upper.value))
              && !PointIn(ExcludedPoints(e, field, conditions), point)
  {
    LimitsAreWhole(e, field, conditions);
    WholeLimits(Lowest(e, field, conditions), Highest(e, field, conditions), point);
    Confined(e, field, conditions, point as real);
  }

  /** Far enough from `from`, in steps of `step`, no point is excluded. */
  lemma {:induction false} FreePoint(excluded: set<real>, from: int, step: int) returns (point: int)
    requires step == 1 || step == -1
    ensures step * point >= step * from
    ensures forall other: int | step * other >= step * point :: !PointIn(excluded, other)
    decreases |excluded|
  {
    if p :| p in excluded {
      point := FreePoint(excluded - {p}, from, step);
      if step * p.Floor >= step * point {
        point := p.Floor + step;
      }
      forall other: int | step * other >= step * point
        ensures !PointIn(excluded, other)
      {
        assert !PointIn(excluded - {p}, other);
      }
    } else {
      point := from;
    }
  }

  /** A point that is left, when the limits are not squeezed. */
  lemma {:induction false} LeftPoint(lower: Option<Limit>, upper: Option<Limit>, excluded: set<real>)
    returns (point: int)
    requires !Squeezed(lower, upper, excluded)
    ensures (lower.Some? ==> FirstPoint(lower.value) <= point) && (upper.Some? ==> point <= LastPoint(upper.value))
    ensures !PointIn(excluded, point)
  {
    if upper.None? {
      point := FreePoint(excluded, if lower.Some? then FirstPoint(lower.value) else 0, 1);
    } else if lower.None? {
      point := FreePoint(excluded, LastPoint(upper.value), -1);
    } else {
      point :| FirstPoint(lower.value) <= point <= LastPoint(upper.value) && !PointIn(excluded, point);
    }
  }

  lemma {:induction false} PointWitness(e: Reader, field: Field, conditions: seq<Filter>) returns (point: int)
    requires TimeFilters(e, field, conditions) && !PointsSqueezed(e, field, conditions)
    ensures OnCalendar(field, point) && At(e, field, conditions, point)
  {
    var lower, upper := Lowest(e, field, conditions), Highest(e, field, conditions);
    point := LeftPoint(lower, upper, ExcludedPoints(e, field, conditions));
    PointsMean(e, field, conditions, point);
  }

  /** No point satisfies the conditions exactly if their limits are squeezed. */
  lemma {:induction false} NoPointExactly(e: Reader, field: Field, conditions: seq<Filter>)
    requires TimeFilters(e, field, conditions)
    ensures PointsSqueezed(e, field, conditions) <==> NoPoint(e, field, conditions)
  {
    if PointsSqueezed(e, field, conditions) {
      forall point | OnCalendar(field, point)
        ensures !At(e, field, conditions, point)
      {
        PointsMean(e, field, conditions, point);
      }
    } else {
      var point := PointWitness(e, field, conditions);
    }
  }

  // ----- when the verdict is wrong

  /** The check reaches its verdict as if time were dense and without end. That is wrong exactly if
      the limits do not cross, and yet leave no point of the calendar that is not excluded. */
  lemma {:induction false} TimeVerdictExactly(e: Reader, field: Field, conditions: seq<Filter>)
    requires TimeFilters(e, field, conditions)
    ensures (NoInstant(e, field, conditions) <==> NoPoint(e, field, conditions)) <==>
            !(!TimesCross(e, field, conditions) && PointsSqueezed(e, field, conditions))
  {
    NoPointExactly(e, field, conditions);
    CrossingIsExact(e, field, conditions);
    if NoInstant(e, field, conditions) {
      forall point
        ensures !At(e, field, conditions, point)
      {
        assert !AllSatisfied(e, field, conditions, point as real);
      }
    }
  }

  /** After one point and before the next, both limits strict. */
  predicate BetweenTwo(lower: Option<Limit>, upper: Option<Limit>) {
    && lower.Some? && upper.Some? && !lower.value.inclusive && !upper.value.inclusive
    && upper.value.at == lower.value.at + 1.0
  }

  /** After the last day of the calendar, or before its first. */
  predicate OffCalendar(field: Field, lower: Option<Limit>, upper: Option<Limit>) {
    && field == EventDate
    && ((lower.Some? && FirstPoint(lower.value) > LAST_DATE) || (upper.Some? && LastPoint(upper.value) < FIRST_DATE))
  }

  lemma {:induction false} NothingExcluded(e: Reader, field: Field, conditions: seq<Filter>)
    requires TimeFilters(e, field, conditions) && forall f | f in conditions :: f.operator != Neq
    ensures ExcludedPoints(e, field, conditions) == {}
  {
    var n := |conditions| - 1;
    if n >= 0 {
      NothingExcluded(e, field, conditions[..n]);
    }
  }

  /** Without `neq` the verdict is wrong exactly if the tightest limits are after one point and
      before the next, or do not cross and are off the calendar. */
  lemma {:induction false} BetweenPointsExactly(e: Reader, field: Field, conditions: seq<Filter>)
    requires TimeFilters(e, field, conditions) && forall f | f in conditions :: f.operator != Neq
    ensures (NoInstant(e, field, conditions) <==> NoPoint(e, field, conditions)) <==>
      var (lower, upper) := (LowerLimit(e, field, conditions), UpperLimit(e, field, conditions));
      !(BetweenTwo(lower, upper) || (OffCalendar(field, lower, upper) && !Crossed(lower, upper, {})))
  {
    TimeVerdictExactly(e, field, conditions);
    NothingExcluded(e, field, conditions);
    LimitsAreWhole(e, field, conditions);
    SqueezedUncrossed(e, field, conditions);
  }

  lemma {:induction false} SqueezedIsEmpty(lower: Limit, upper: Limit)
    ensures Squeezed(Some(lower), Some(upper), {}) <==> FirstPoint(lower) > LastPoint(upper)
  {
    if FirstPoint(lower) <= LastPoint(upper) {
      assert !PointIn({}, FirstPoint(lower));
    }
  }

  lemma {:induction false} SqueezedUncrossed(e: Reader, field: Field, conditions: seq<Filter>)
    requires TimeFilters(e, field, conditions)
    requires Whole(LowerLimit(e, field, conditions)) && Whole(UpperLimit(e, field, conditions))
    ensures var (lower, upper) := (LowerLimit(e, field, conditions), UpperLimit(e, field, conditions));
            !Crossed(lower, upper, {}) && Squeezed(Lowest(e, field, conditions), Highest(e, field, conditions), {})
            <==> BetweenTwo(lower, upper) || (OffCalendar(field, lower, upper) && !Crossed(lower, upper, {}))
  {
    var lowest, highest := Lowest(e, field, conditions), Highest(e, field, conditions);
    if lowest.Some? && highest.Some? {
      SqueezedIsEmpty(lowest.value, highest.value);
    }
  }
}

/** Cutting a chunk into the units that wording checks look at (`_clauses`, `_source_units` and
    the offsets in `confirmation_clauses`, `src/zhiqing_rag/query_answering/support.py`).
    Every unit is a slice of the chunk at the offsets it carries. */
module SourceUnits {
  import opened TableText
  import opened Text

  datatype Unit = Unit(text: string, start: nat, end: nat)

  datatype Span = Span(start: nat, end: nat)

  /** The units of a slice, moved to where the slice stands. */
  function Moved(units: seq<Unit>, distance: nat): seq<Unit> {
    if units == [] then []
    else [Unit(units[0].text, units[0].start + distance, units[0].end + distance)] + Moved(units[1..], distance)
  }

  lemma {:induction false} SliceOfSlice(text: string, from: nat, upto: nat, i: nat, j: nat)
    requires from <= upto <= |text| && i <= j <= upto - from
    ensures text[from..upto][i..j] == text[from + i..from + j]
  {
    var part, whole := text[from..upto][i..j], text[from + i..from + j];
    assert |part| == |whole|;
    forall k | 0 <= k < |part|
      ensures part[k] == whole[k]
    {
      assert part[k] == text[from..upto][i + k] == text[from + i + k];
    }
  }

  // ----- clauses

  predicate Ends(c: char) {
    c in {'。', '；', '！', '？', ';', '!', '?'}
  }

  /** The place behind a line feed at `k`, with a carriage return before it or not; `k` if there is none. */
  function Feed(text: string, k: nat): (end: nat)
    requires k <= |text|
    ensures k <= end <= |text|
  {
    if k < |text| && text[k] == '\n' then k + 1
    else if k + 1 < |text| && text[k] == '\r' && text[k + 1] == '\n' then k + 2
    else k
  }

  /** The place behind all line feeds that follow each other from `k` on. */
  function Feeds(text: string, k: nat): (end: nat)
    requires k <= |text|
    ensures k <= end <= |text|
    decreases |text| - k
  {
    if Feed(text, k) == k then k else Feeds(text, Feed(text, k))
  }

  /** The end of the boundary at `k`: one closing mark, or two line feeds or more; `k` if there is none. */
  function Boundary(text: string, k: nat): (end: nat)
    requires k < |text|
    ensures k <= end <= |text|
  {
    if Ends(text[k]) then k + 1
    else if Feed(text, k) > k && Feed(text, Feed(text, k)) > Feed(text, k) then Feeds(text, k)
    else k
  }

  /** The next boundary at or after `from`. */
  function NextBoundary(text: string, from: nat): (s: Option<Span>)
    requires from <= |text|
    ensures s.Some? ==> from <= s.value.start < s.value.end <= |text| && s.value.end == Boundary(text, s.value.start)
    decreases |text| - from
  {
    if from == |text| then None
    else if Boundary(text, from) > from then Some(Span(from, Boundary(text, from)))
    else NextBoundary(text, from + 1)
  }

  /** A boundary holds closing marks and white space only. */
  lemma {:induction false} BoundaryIsIdle(text: string, k: nat, i: nat)
    requires k < |text| && k <= i < Boundary(text, k)
    ensures Ends(text[i]) || IsSpace(text[i])
  {
    if !Ends(text[k]) {
      FeedsAreSpace(text, k, i);
    }
  }

  lemma {:induction false} FeedsAreSpace(text: string, k: nat, i: nat)
    requires k <= |text| && k <= i < Feeds(text, k)
    ensures IsSpace(text[i])
    decreases |text| - k
  {
    if i >= Feed(text, k) {
      FeedsAreSpace(text, Feed(text, k), i);
    }
  }

  /** The place of the first line feed from `k` on, the length if there is none. */
  function LineFeed(text: string, k: nat): (end: nat)
    requires k <= |text|
    ensures k <= end <= |text|
    decreases |text| - k
  {
    if k == |text| || text[k] == '\n' then k else LineFeed(text, k + 1)
  }

  function Rule(text: string, k: nat): (end: nat)
    requires k <= |text|
    ensures k <= end <= |text|
    decreases |text| - k
  {
    if k < |text| && (text[k] == '-' || text[k] == '=') then Rule(text, k + 1) else k
  }

  /** The length of an underlined heading at the start: a line of 1 to 80 characters, a rule
      of at least three dashes or equals signs, and the line feed after it; 0 if there is none. */
  function HeadingLength(text: string): (n: nat)
    ensures n <= |text|
  {
    var k := LineFeed(text, 0);
    if k == |text| || k == 0 || !(k <= 80 || (k == 81 && text[80] == '\r')) then 0
    else
      var end := Rule(text, k + 1);
      if end - (k + 1) < 3 || Feed(text, end) == end then 0 else Feed(text, end)
  }

  /** How much white space stands before the text. */
  function LeftOf(raw: string): (n: nat)
    ensures n <= |raw|
  {
    |raw| - |TrimLeft(raw, IsSpace)|
  }

  lemma {:induction false} LeftIsSpace(raw: string, i: nat)
    requires i < |raw| - |TrimLeft(raw, IsSpace)|
    ensures IsSpace(raw[i])
  {
    if i > 0 {
      LeftIsSpace(raw[1..], i - 1);
    }
  }

  lemma {:induction false} RightIsSpace(raw: string, i: nat)
    requires |TrimRight(raw, IsSpace)| <= i < |raw|
    ensures IsSpace(raw[i])
  {
    if i < |raw| - 1 {
      RightIsSpace(raw[..|raw| - 1], i);
    }
  }

  /** Where the stripped text stands, and that only white space is around it. */
  lemma {:induction false} StripAt(raw: string)
    ensures LeftOf(raw) + |Strip(raw)| <= |raw| && raw[LeftOf(raw)..LeftOf(raw) + |Strip(raw)|] == Strip(raw)
    ensures Strip(Strip(raw)) == Strip(raw)
    ensures forall i | 0 <= i < |raw| && !(LeftOf(raw) <= i < LeftOf(raw) + |Strip(raw)|) :: IsSpace(raw[i])
  {
    var tail := TrimLeft(raw, IsSpace);
    TrimLeftIsSuffix(raw, IsSpace);
    assert raw[LeftOf(raw)..] == tail;
    TrimRightIsPrefix(tail, IsSpace);
    TrimEnds(raw, IsSpace);
    TrimmedIsStripped(Strip(raw));
    forall i | 0 <= i < |raw| && !(LeftOf(raw) <= i < LeftOf(raw) + |Strip(raw)|)
      ensures IsSpace(raw[i])
    {
      if i < LeftOf(raw) {
        LeftIsSpace(raw, i);
      } else {
        RightIsSpace(tail, i - LeftOf(raw));
        assert raw[LeftOf(raw)..][i - LeftOf(raw)] == raw[i];
      }
    }
  }

  /** The trimmed text of `raw` as a unit, unless it is blank. */
  function TrimmedIn(raw: string): (units: seq<Unit>)
  {
    if Strip(raw) == "" then [] else [Unit(Strip(raw), LeftOf(raw), LeftOf(raw) + |Strip(raw)|)]
  }

  /** The unit in a trimmed text that stands at `left`: what is left behind a heading. */
  function UnitOf(value: string, left: nat): seq<Unit> {
    TailOf(value, left, HeadingLength(value))
  }

  /** What stands behind a heading of this length. */
  function TailOf(value: string, left: nat, heading: nat): seq<Unit>
    requires heading <= |value|
  {
    Moved(TrimmedIn(value[heading..]), left + heading)
  }

  /** The one clause of the text between two boundaries, without a heading over it. */
  function ClauseIn(raw: string): seq<Unit> {
    UnitOf(Strip(raw), LeftOf(raw))
  }

  /** What stands between `start` and the next boundary, the heading that is left out over it,
      and where that boundary ends. */
  datatype Section = Section(units: seq<Unit>, heading: Span, next: Option<nat>)

  function HeadingIn(raw: string, distance: nat): Span {
    Span(distance + LeftOf(raw), distance + LeftOf(raw) + HeadingLength(Strip(raw)))
  }

  function SectionAt(text: string, start: nat): (s: Section)
    requires start <= |text|
    ensures s.next.Some? ==> start < s.next.value <= |text|
  {
    var boundary := NextBoundary(text, start);
    var end := if boundary.Some? then boundary.value.start else |text|;
    var raw := text[start..end];
    Section(Moved(ClauseIn(raw), start), HeadingIn(raw, start), if boundary.Some?
        then Some(boundary.value.end) else None)
  }

  function ClausesFrom(text: string, start: nat): seq<Unit>
    requires start <= |text|
    decreases |text| - start
  {
    var s := SectionAt(text, start);
    s.units + if s.next.Some? then ClausesFrom(text, s.next.value) else []
  }

  /** `_clauses`. */
  method Clauses(text: string) returns (units: seq<Unit>)
    ensures units == ClausesFrom(text, 0)
  {
    units := [];
    var start, open := 0, true;
    ghost var rest := ClausesFrom(text, 0);
    while open
      invariant start <= |text| && units + rest == ClausesFrom(text, 0)
      invariant rest == if open then ClausesFrom(text, start) else []
      decreases open, |text| - start
    {
      var s := SectionAt(text, start);
      TakeSection(text, start, units, rest);
      rest := if s.next.Some? then ClausesFrom(text, s.next.value) else [];
      units := units + s.units;
      if s.next.Some? {
        start := s.next.value;
      } else {
        open := false;
      }
    }
  }

  lemma {:induction false} TakeSection(text: string, start: nat, units: seq<Unit>, rest: seq<Unit>)
    requires start <= |text| && rest == ClausesFrom(text, start)
    ensures var s := SectionAt(text, start);
            units + rest == (units + s.units) + if s.next.Some? then ClausesFrom(text, s.next.value) else []
  {
    var s := SectionAt(text, start);
    UnitsRegroup(units, s.units, if s.next.Some? then ClausesFrom(text, s.next.value) else []);
  }

  lemma {:induction false} UnitsRegroup(a: seq<Unit>, b: seq<Unit>, c: seq<Unit>)
    ensures a + (b + c) == (a + b) + c
  {
  }

  // ----- table rows

  /** A line that begins with a bar, white space aside. */
  predicate IsRow(line: string) {
    var row := Strip(line);
    row != "" && row[0] == '|'
  }

  /** `splitlines(keepends=True)`. */
  function KeptLines(text: string): (lines: seq<string>)
    ensures Concat(lines) == text && forall line | line in lines :: line != ""
  {
    if text == "" then []
    else
      var k := EndOfLine(text);
      var end := if k == |text| then k else if text[k] == '\r' && k + 1 < |text| && text[k + 1] == '\n'
          then k + 2 else k + 1;
      assert text == text[..end] + text[end..];
      [text[..end]] + KeptLines(text[end..])
  }

  /** A bar at `k` with no backslash right before it. */
  predicate Bare(line: string, k: int) {
    0 <= k < |line| && line[k] == '|' && !(k > 0 && line[k - 1] == '\\')
  }

  /** The place `i` of a row is behind its last bar. */
  predicate Behind(line: string, i: int) {
    IsRow(line) && 0 <= i < |line| && forall k | i <= k < |line| :: !Bare(line, k)
  }

  /** The position of the next bar after `left` that is not escaped, or the length. */
  function NextBar(line: string, left: nat): (k: nat)
    requires left < |line|
    ensures left < k <= |line| && (k < |line| ==> line[k] == '|')
  {
    left + 1 + FirstBar(line[left + 1..], false)
  }

  /** The cells between the bars from `left` on. */
  function CellsFrom(line: string, left: nat): seq<Unit>
    requires left < |line|
    decreases |line| - left
  {
    var right := NextBar(line, left);
    if right == |line| then [] else Moved(TrimmedIn(line[left + 1..right]), left + 1) + CellsFrom(line, right)
  }

  function CellsOf(line: string): seq<Unit> {
    var left := FirstBar(line, false);
    if left == |line| then [] else CellsFrom(line, left)
  }

  method CutCells(line: string) returns (units: seq<Unit>)
    ensures units == CellsOf(line)
  {
    units := [];
    var left := FirstBar(line, false);
    if left == |line| {
      return;
    }
    var right := NextBar(line, left);
    while right < |line|
      invariant left < right <= |line| && right == NextBar(line, left)
      invariant units + CellsFrom(line, left) == CellsOf(line)
      decreases |line| - left
    {
      ghost var before := units;
      units := units + Moved(TrimmedIn(line[left + 1..right]), left + 1);
      UnitsRegroup(before, Moved(TrimmedIn(line[left + 1..right]), left + 1), CellsFrom(line, right));
      left := right;
      right := NextBar(line, left);
    }
  }

  // ----- units

  /** How prose is cut, and a table row; and what is left out of them. */
  datatype Cutter = Cutter(
    prose: string -> seq<Unit>, cells: string -> seq<Unit>, headed: (string, int) -> bool,
    behind: (string, int) -> bool)

  const CUTTER := Cutter(
    text => ClausesFrom(text, 0), line => CellsOf(line), (text, i) => Headed(text, 0, i), (line, i) => Behind(line, i))

  /** The cutter is the one above; said so that nothing is unfolded where it is used. */
  ghost predicate Cutting(c: Cutter) {
    && (forall text {:trigger ClausesFrom(text, 0)} :: c.prose(text) == ClausesFrom(text, 0))
    && forall line {:trigger CellsOf(line)} :: c.cells(line) == CellsOf(line)
  }

  /** Where the lines have got: the units so far, the place reached, and the `prose` of the last
      lines, still to cut. */
  datatype Progress = Progress(units: seq<Unit>, offset: nat, prose: string)

  /** One line more: prose is kept for later; a row is cut, after the prose before it. */
  function Advance(c: Cutter, p: Progress, line: string): (q: Progress)
    requires |p.prose| <= p.offset
    ensures q.offset == p.offset + |line| && |q.prose| <= |p.prose| + |line|
  {
    if IsRow(line) then
      Progress((p.units + LastProse(c, p)) + Moved(c.cells(line), p.offset), p.offset + |line|, "")
    else Progress(p.units, p.offset + |line|, p.prose + line)
  }

  /** After the first `k` of the lines that stand at `begin`. */
  function AfterLines(c: Cutter, lines: seq<string>, k: nat, begin: nat): (p: Progress)
    requires k <= |lines|
    ensures begin + |p.prose| <= p.offset
  {
    if k == 0 then Progress([], begin, "") else Advance(c, AfterLines(c, lines, k - 1, begin), lines[k - 1])
  }

  function LastProse(c: Cutter, p: Progress): seq<Unit>
    requires |p.prose| <= p.offset
  {
    Moved(c.prose(p.prose), p.offset - |p.prose|)
  }

  /** The units of all lines. */
  function LineUnits(c: Cutter, lines: seq<string>, begin: nat): seq<Unit> {
    var p := AfterLines(c, lines, |lines|, begin);
    p.units + LastProse(c, p)
  }

  predicate HasRow(lines: seq<string>) {
    exists line | line in lines :: IsRow(line)
  }

  /** A clause as it is, or cut by its table rows. */
  function UnitsIn(c: Cutter, clause: Unit): seq<Unit> {
    if HasRow(KeptLines(clause.text)) then LineUnits(c, KeptLines(clause.text), clause.start) else [clause]
  }

  /** The units of the clauses from `k` on. */
  function UnitsFrom(c: Cutter, clauses: seq<Unit>, k: nat): seq<Unit>
    requires k <= |clauses|
    decreases |clauses| - k
  {
    if k == |clauses| then [] else UnitsIn(c, clauses[k]) + UnitsFrom(c, clauses, k + 1)
  }

  /** What `_source_units` yields. */
  function SourceUnitsOf(text: string): seq<Unit> {
    UnitsFrom(CUTTER, ClausesFrom(text, 0), 0)
  }

  method CutProse(ghost c: Cutter, lines: seq<string>, from: nat) returns (units: seq<Unit>)
    requires Cutting(c)
    ensures units == Moved(c.prose(Concat(lines)), from)
  {
    var clauses := Clauses(Concat(lines));
    units := Moved(clauses, from);
  }

  method CutRow(ghost c: Cutter, line: string, offset: nat) returns (units: seq<Unit>)
    requires Cutting(c)
    ensures units == Moved(c.cells(line), offset)
  {
    var cells := CutCells(line);
    units := Moved(cells, offset);
  }

  /** What the loop holds is the progress made. */
  predicate Holds(p: Progress, units: seq<Unit>, offset: nat, prose: seq<string>, proseStart: nat) {
    p == Progress(units, offset, Concat(prose)) && proseStart + |Concat(prose)| == offset
  }

  lemma {:induction false} RowHeld(c: Cutter, p: Progress, line: string, units: seq<Unit>, offset: nat,
                                   prose: seq<string>, proseStart: nat)
    requires Holds(p, units, offset, prose, proseStart) && IsRow(line)
    ensures var cut := units + Moved(c.prose(Concat(prose)), proseStart) + Moved(c.cells(line), offset);
            Holds(Advance(c, p, line), cut, offset + |line|, [], offset + |line|)
  {
  }

  lemma {:induction false} ProseHeld(c: Cutter, p: Progress, line: string, units: seq<Unit>, offset: nat,
                                     prose: seq<string>, proseStart: nat)
    requires Holds(p, units, offset, prose, proseStart) && !IsRow(line)
    ensures Holds(Advance(c, p, line), units, offset + |line|, prose + [line], proseStart)
  {
    ConcatOne(prose, line);
  }

  /** The loop over the lines of a clause with table rows in it. */
  method CutLines(ghost c: Cutter, lines: seq<string>, begin: nat) returns (units: seq<Unit>)
    requires Cutting(c)
    ensures units == LineUnits(c, lines, begin)
  {
    units := [];
    var offset: nat, prose: seq<string>, proseStart: nat := begin, [], begin;
    ghost var p := AfterLines(c, lines, 0, begin);
    for k := 0 to |lines|
      invariant p == AfterLines(c, lines, k, begin) && Holds(p, units, offset, prose, proseStart)
    {
      var line := lines[k];
      ghost var earlier := p;
      p := Advance(c, p, line);
      if IsRow(line) {
        RowHeld(c, earlier, line, units, offset, prose, proseStart);
        var before := CutProse(c, prose, proseStart);
        var cells := CutRow(c, line, offset);
        units := units + before + cells;
        prose := [];
        offset := offset + |line|;
        proseStart := offset;
      } else {
        ProseHeld(c, earlier, line, units, offset, prose, proseStart);
        prose := prose + [line];
        offset := offset + |line|;
      }
    }
    EndHeld(c, p, units, offset, prose, proseStart);
    var last := CutProse(c, prose, proseStart);
    units := units + last;
  }

  lemma {:induction false} EndHeld(c: Cutter, p: Progress, units: seq<Unit>, offset: nat, prose: seq<string>,
                                   proseStart: nat)
    requires |p.prose| <= p.offset && Holds(p, units, offset, prose, proseStart)
    ensures units + Moved(c.prose(Concat(prose)), proseStart) == p.units + LastProse(c, p)
  {
  }

  lemma {:induction false} CutterCuts()
    ensures Cutting(CUTTER)
  {
  }

  /** `_source_units`. */
  method SourceUnits(text: string) returns (units: seq<Unit>)
    ensures units == SourceUnitsOf(text)
  {
    CutterCuts();
    var clauses := Clauses(text);
    units := CutClauses(CUTTER, clauses);
  }

  /** Its loop over the clauses. */
  method CutClauses(ghost c: Cutter, clauses: seq<Unit>) returns (units: seq<Unit>)
    requires Cutting(c)
    ensures units == UnitsFrom(c, clauses, 0)
  {
    units := [];
    for k := 0 to |clauses|
      invariant units + UnitsFrom(c, clauses, k) == UnitsFrom(c, clauses, 0)
    {
      var clause := clauses[k];
      var lines := KeptLines(clause.text);
      var more := [clause];
      if HasRow(lines) {
        more := CutLines(c, lines, clause.start);
      }
      UnitsRegroup(units, more, UnitsFrom(c, clauses, k + 1));
      units := units + more;
    }
  }

  // ----- what a text divides into

  /** The place `i` is in a heading over one of the clauses from `start` on. */
  predicate Headed(text: string, start: nat, i: int)
    requires start <= |text|
    decreases |text| - start
  {
    var s := SectionAt(text, start);
    s.heading.start <= i < s.heading.end || (s.next.Some? && Headed(text, s.next.value, i))
  }

  /** The place `i` is behind the last bar of the row after the prose, or in a heading in the prose. */
  predicate LeftOutBy(c: Cutter, p: Progress, line: string, i: int)
    requires |p.prose| <= p.offset
  {
    IsRow(line) && (c.headed(p.prose, i - (p.offset - |p.prose|)) || c.behind(line, i - p.offset))
  }

  /** It is left out by one of the first `k` of the lines that stand at `begin`. */
  predicate LeftOutBefore(c: Cutter, lines: seq<string>, k: nat, begin: nat, i: int)
    requires k <= |lines|
  {
    k > 0 && (LeftOutBefore(c, lines, k - 1, begin, i)
              || LeftOutBy(c, AfterLines(c, lines, k - 1, begin), lines[k - 1], i))
  }

  predicate LeftOutOfLines(c: Cutter, lines: seq<string>, begin: nat, i: int) {
    var p := AfterLines(c, lines, |lines|, begin);
    LeftOutBefore(c, lines, |lines|, begin, i) || c.headed(p.prose, i - (p.offset - |p.prose|))
  }

  /** What the cutting of a clause by its table rows leaves out. */
  predicate LeftOutOf(c: Cutter, clause: Unit, i: int) {
    HasRow(KeptLines(clause.text)) && LeftOutOfLines(c, KeptLines(clause.text), clause.start, i)
  }

  /** All that the code leaves out: a heading over a clause; and in a clause with table rows, a
      heading in its prose, and of each row what is behind its last bar. */
  predicate LeftOut(text: string, i: int) {
    Headed(text, 0, i) || exists clause | clause in ClausesFrom(text, 0) :: LeftOutOf(CUTTER, clause, i)
  }

  /** Nothing that a unit has to hold. */
  predicate Idle(text: string, i: int) {
    0 <= i < |text| && (IsSpace(text[i]) || Ends(text[i]) || text[i] == '|')
  }

  /** A trimmed piece of text at its place. */
  predicate Fits(text: string, u: Unit) {
    u.start < u.end <= |text| && text[u.start..u.end] == u.text && Strip(u.text) == u.text
  }

  /** A rule for what may stand between units, and one for the units. Most steps do not look
      into the rules. */
  datatype Reading = Reading(idle: int -> bool, unit: Unit -> bool)

  /** The rules let pass what is idle, and units that fit. */
  ghost predicate Admits(r: Reading, text: string) {
    && (forall i {:trigger Idle(text, i)} :: Idle(text, i) ==> r.idle(i))
    && forall u {:trigger Fits(text, u)} :: Fits(text, u) ==> r.unit(u)
  }

  function Shift(u: Unit, distance: nat): Unit {
    Unit(u.text, u.start + distance, u.end + distance)
  }

  /** The rules as they look from further on. */
  function Shifted(r: Reading, distance: nat): Reading {
    Reading(i => r.idle(i + distance), u => r.unit(Shift(u, distance)))
  }

  predicate Gap(r: Reading, from: nat, upto: nat) {
    from <= upto && forall i {:trigger r.idle(i)} | from <= i < upto :: r.idle(i)
  }

  /** From `from` to `upto`: gap, unit, gap, unit, ..., gap. */
  predicate Divides(r: Reading, units: seq<Unit>, from: nat, upto: nat) {
    if units == [] then Gap(r, from, upto)
    else
      && Gap(r, from, units[0].start) && units[0].start < units[0].end && r.unit(units[0])
      && Divides(r, units[1..], units[0].end, upto)
  }

  lemma {:induction false} GapBefore(r: Reading, units: seq<Unit>, from: nat, middle: nat, upto: nat)
    requires Gap(r, from, middle) && Divides(r, units, middle, upto)
    ensures Divides(r, units, from, upto)
  {
  }

  lemma {:induction false} JoinDivides(r: Reading, a: seq<Unit>, b: seq<Unit>, from: nat, middle: nat, upto: nat)
    requires Divides(r, a, from, middle) && Divides(r, b, middle, upto)
    ensures Divides(r, a + b, from, upto)
  {
    if a == [] {
      assert a + b == b;
      GapBefore(r, b, from, middle, upto);
    } else {
      assert (a + b)[1..] == a[1..] + b;
      JoinDivides(r, a[1..], b, a[0].end, middle, upto);
    }
  }

  lemma {:induction false} GapAfter(r: Reading, units: seq<Unit>, from: nat, middle: nat, upto: nat)
    requires Divides(r, units, from, middle) && Gap(r, middle, upto)
    ensures Divides(r, units, from, upto)
  {
    JoinDivides(r, units, [], from, middle, upto);
    assert units + [] == units;
  }

  lemma {:induction false} MovedDivides(r: Reading, units: seq<Unit>, distance: nat, from: nat, upto: nat)
    requires Divides(Shifted(r, distance), units, from, upto)
    ensures Divides(r, Moved(units, distance), from + distance, upto + distance)
  {
    if units == [] {
      MovedGap(r, distance, from, upto);
    } else {
      MovedGap(r, distance, from, units[0].start);
      MovedDivides(r, units[1..], distance, units[0].end, upto);
      assert Moved(units, distance)[1..] == Moved(units[1..], distance);
      assert Moved(units, distance)[0] == Shift(units[0], distance);
    }
  }

  lemma {:induction false} MovedGap(r: Reading, distance: nat, from: nat, upto: nat)
    requires Gap(Shifted(r, distance), from, upto)
    ensures Gap(r, from + distance, upto + distance)
  {
    forall i | from + distance <= i < upto + distance
      ensures r.idle(i)
    {
      assert Shifted(r, distance).idle(i - distance);
    }
  }

  /** What is idle in a slice is idle in the text, and what fits there fits in the text. */
  lemma {:induction false} AdmitsSlice(r: Reading, text: string, from: nat, upto: nat)
    requires Admits(r, text) && from <= upto <= |text|
    ensures Admits(Shifted(r, from), text[from..upto])
  {
    var part := text[from..upto];
    forall i | Idle(part, i)
      ensures Shifted(r, from).idle(i)
    {
      assert Idle(text, i + from);
    }
    forall u | Fits(part, u)
      ensures Shifted(r, from).unit(u)
    {
      SliceOfSlice(text, from, upto, u.start, u.end);
      assert Fits(text, Shift(u, from));
    }
  }

  // ----- clauses divide a text

  lemma {:induction false} TrimmedDivides(r: Reading, raw: string)
    requires Admits(r, raw)
    ensures Divides(r, TrimmedIn(raw), 0, |raw|)
  {
    StripAt(raw);
    forall i | 0 <= i < |raw| && !(LeftOf(raw) <= i < LeftOf(raw) + |Strip(raw)|)
      ensures r.idle(i)
    {
      assert Idle(raw, i);
    }
    var units := TrimmedIn(raw);
    if units != [] {
      assert units[1..] == [];
      assert Fits(raw, units[0]);
    }
  }

  predicate Placed(text: string, part: string, from: nat) {
    from + |part| <= |text| && text[from..from + |part|] == part
  }

  lemma {:induction false} PlacedTrimmedDivides(r: Reading, text: string, raw: string, from: nat)
    requires Admits(r, text) && Placed(text, raw, from)
    ensures Divides(r, Moved(TrimmedIn(raw), from), from, from + |raw|)
  {
    AdmitsSlice(r, text, from, from + |raw|);
    TrimmedDivides(Shifted(r, from), raw);
    MovedDivides(r, TrimmedIn(raw), from, 0, |raw|);
  }

  lemma {:induction false} FramedDivides(r: Reading, units: seq<Unit>, from: nat, left: nat, right: nat, upto: nat)
    requires Gap(r, from, left) && Divides(r, units, left, right) && Gap(r, right, upto)
    ensures Divides(r, units, from, upto)
  {
    GapBefore(r, units, from, left, right);
    GapAfter(r, units, from, right, upto);
  }

  lemma {:induction false} SuffixPlaced(raw: string, value: string, left: nat, skip: nat)
    requires Placed(raw, value, left) && skip <= |value|
    ensures Placed(raw, value[skip..], left + skip)
  {
    SliceOfSlice(raw, left, left + |value|, skip, |value|);
    assert value[skip..] == value[skip..|value|];
  }

  lemma {:induction false} TailDivides(r: Reading, raw: string, tail: string, at: nat, left: nat)
    requires Admits(r, raw) && Placed(raw, tail, at) && Gap(r, left, at)
    ensures Divides(r, Moved(TrimmedIn(tail), at), left, at + |tail|)
  {
    PlacedTrimmedDivides(r, raw, tail, at);
    GapBefore(r, Moved(TrimmedIn(tail), at), left, at, at + |tail|);
  }

  lemma {:induction false} UnitDivides(r: Reading, raw: string, value: string, left: nat)
    requires Admits(r, raw) && Placed(raw, value, left) && Gap(r, left, left + HeadingLength(value))
    ensures Divides(r, UnitOf(value, left), left, left + |value|)
  {
    TailOfDivides(r, raw, value, left, HeadingLength(value));
  }

  lemma {:induction false} TailOfDivides(r: Reading, raw: string, value: string, left: nat, heading: nat)
    requires heading <= |value| && Admits(r, raw) && Placed(raw, value, left) && Gap(r, left, left + heading)
    ensures Divides(r, TailOf(value, left, heading), left, left + |value|)
  {
    SuffixPlaced(raw, value, left, heading);
    TailDivides(r, raw, value[heading..], left + heading, left);
  }

  lemma {:induction false} AroundStripped(r: Reading, raw: string)
    requires Admits(r, raw)
    ensures Placed(raw, Strip(raw), LeftOf(raw)) && Gap(r, 0, LeftOf(raw)) && Gap(r, LeftOf(raw) + |Strip(raw)|, |raw|)
  {
    StripAt(raw);
    forall i | 0 <= i < |raw| && !(LeftOf(raw) <= i < LeftOf(raw) + |Strip(raw)|)
      ensures r.idle(i)
    {
      assert Idle(raw, i);
    }
  }

  lemma {:induction false} StrippedDivides(r: Reading, raw: string, value: string, left: nat)
    requires Admits(r, raw) && Placed(raw, value, left) && Gap(r, 0, left) && Gap(r, left + |value|, |raw|)
    requires Gap(r, left, left + HeadingLength(value))
    ensures Divides(r, UnitOf(value, left), 0, |raw|)
  {
    UnitDivides(r, raw, value, left);
    FramedDivides(r, UnitOf(value, left), 0, left, left + |value|, |raw|);
  }

  /** The heading that is left out may stand between units. */
  predicate Skips(r: Reading, heading: Span) {
    Gap(r, heading.start, heading.end)
  }

  lemma {:induction false} ClauseDivides(r: Reading, raw: string)
    requires Admits(r, raw) && Skips(r, HeadingIn(raw, 0))
    ensures Divides(r, ClauseIn(raw), 0, |raw|)
  {
    AroundStripped(r, raw);
    StrippedDivides(r, raw, Strip(raw), LeftOf(raw));
  }

  lemma {:induction false} SkipsShifted(r: Reading, raw: string, distance: nat)
    requires Skips(r, HeadingIn(raw, distance))
    ensures Skips(Shifted(r, distance), HeadingIn(raw, 0))
  {
    var heading := HeadingIn(raw, 0);
    forall i | heading.start <= i < heading.end
      ensures Shifted(r, distance).idle(i)
    {
      assert r.idle(i + distance);
    }
  }

  lemma {:induction false} SliceDivides(r: Reading, text: string, from: nat, upto: nat)
    requires Admits(r, text) && from <= upto <= |text| && Skips(r, HeadingIn(text[from..upto], from))
    ensures Divides(r, Moved(ClauseIn(text[from..upto]), from), from, upto)
  {
    AdmitsSlice(r, text, from, upto);
    SkipsShifted(r, text[from..upto], from);
    ClauseDivides(Shifted(r, from), text[from..upto]);
    MovedDivides(r, ClauseIn(text[from..upto]), from, 0, upto - from);
  }

  lemma {:induction false} BoundaryIsGap(r: Reading, text: string, start: nat)
    requires Admits(r, text) && start <= |text| && NextBoundary(text, start).Some?
    ensures var boundary := NextBoundary(text, start).value; Gap(r, boundary.start, boundary.end)
  {
    var boundary := NextBoundary(text, start).value;
    forall i | boundary.start <= i < boundary.end
      ensures r.idle(i)
    {
      BoundaryIsIdle(text, boundary.start, i);
      assert Idle(text, i);
    }
  }

  lemma {:induction false} SectionDivides(r: Reading, text: string, start: nat)
    requires Admits(r, text) && start <= |text| && Skips(r, SectionAt(text, start).heading)
    ensures var s := SectionAt(text, start); Divides(r, s.units, start, s.next.GetOr(|text|))
  {
    var boundary := NextBoundary(text, start);
    var end := if boundary.Some? then boundary.value.start else |text|;
    SliceDivides(r, text, start, end);
    if boundary.Some? {
      BoundaryIsGap(r, text, start);
      GapAfter(r, Moved(ClauseIn(text[start..end]), start), start, end, boundary.value.end);
    }
  }

  /** The headings from `start` on may stand between units. */
  ghost predicate SkipsHeadings(r: Reading, text: string, start: nat)
    requires start <= |text|
  {
    forall i {:trigger Headed(text, start, i)} | Headed(text, start, i) :: r.idle(i)
  }

  lemma {:induction false} SkipsFirst(r: Reading, text: string, start: nat)
    requires start <= |text| && SkipsHeadings(r, text, start)
    ensures var s := SectionAt(text, start);
            Skips(r, s.heading) && (s.next.Some? ==> SkipsHeadings(r, text, s.next.value))
  {
    var s := SectionAt(text, start);
    forall i | s.heading.start <= i < s.heading.end
      ensures r.idle(i)
    {
      assert Headed(text, start, i);
    }
    if s.next.Some? {
      forall i | Headed(text, s.next.value, i)
        ensures r.idle(i)
      {
        assert Headed(text, start, i);
      }
    }
  }

  lemma {:induction false} ClausesDivide(r: Reading, text: string, start: nat)
    requires Admits(r, text) && start <= |text| && SkipsHeadings(r, text, start)
    ensures Divides(r, ClausesFrom(text, start), start, |text|)
    decreases |text| - start
  {
    var s := SectionAt(text, start);
    SkipsFirst(r, text, start);
    SectionDivides(r, text, start);
    if s.next.Some? {
      ClausesDivide(r, text, s.next.value);
      JoinDivides(r, s.units, ClausesFrom(text, s.next.value), start, s.next.value, |text|);
    } else {
      assert s.units + [] == s.units;
    }
  }

  // ----- cells divide a row

  lemma {:induction false} CellDivides(r: Reading, line: string, left: nat, right: nat)
    requires Admits(r, line) && left < right <= |line| && line[left] == '|'
    ensures Divides(r, Moved(TrimmedIn(line[left + 1..right]), left + 1), left, right)
  {
    var raw := line[left + 1..right];
    PlacedTrimmedDivides(r, line, raw, left + 1);
    assert Idle(line, left);
    GapBefore(r, Moved(TrimmedIn(raw), left + 1), left, left + 1, right);
  }

  /** Before the first bar found there is none. */
  lemma {:induction false} FirstBarExact(text: string, escaping: bool, k: nat)
    requires k < FirstBar(text, escaping)
    ensures text[k] == '|' ==> if k == 0 then escaping else text[k - 1] == '\\'
  {
    if k > 0 {
      FirstBarExact(text[1..], text[0] == '\\', k - 1);
    }
  }

  /** The bar that is found is not escaped. */
  lemma {:induction false} FirstBarBare(text: string, escaping: bool)
    requires FirstBar(text, escaping) < |text|
    ensures var k := FirstBar(text, escaping); if k == 0 then !escaping else text[k - 1] != '\\'
  {
    if !(text[0] == '|' && !escaping) {
      FirstBarBare(text[1..], text[0] == '\\');
    }
  }

  lemma {:induction false} NextBarExact(line: string, left: nat)
    requires left < |line| && line[left] == '|'
    ensures var right := NextBar(line, left);
            (right < |line| ==> Bare(line, right)) && forall k | left < k < right :: !Bare(line, k)
  {
    var rest, right := line[left + 1..], NextBar(line, left);
    forall k | left < k < right
      ensures !Bare(line, k)
    {
      FirstBarExact(rest, false, k - left - 1);
    }
    if right < |line| {
      FirstBarBare(rest, false);
    }
  }

  /** A row behind its last bar may stand between units. */
  ghost predicate SkipsBehind(r: Reading, line: string) {
    forall i {:trigger Behind(line, i)} | Behind(line, i) :: r.idle(i)
  }

  lemma {:induction false} TailIsGap(r: Reading, line: string, left: nat)
    requires Admits(r, line) && left < |line| && line[left] == '|' && IsRow(line) && NextBar(line, left) == |line|
    requires SkipsBehind(r, line)
    ensures Gap(r, left, |line|)
  {
    NextBarExact(line, left);
    forall i | left <= i < |line|
      ensures r.idle(i)
    {
      assert i > left ==> Behind(line, i);
      assert i == left ==> Idle(line, i);
    }
  }

  lemma {:induction false} CellsDivide(r: Reading, line: string, left: nat)
    requires Admits(r, line) && left < |line| && line[left] == '|' && IsRow(line) && SkipsBehind(r, line)
    ensures Divides(r, CellsFrom(line, left), left, |line|)
    decreases |line| - left
  {
    var right := NextBar(line, left);
    if right < |line| {
      CellDivides(r, line, left, right);
      CellsDivide(r, line, right);
      JoinDivides(r, Moved(TrimmedIn(line[left + 1..right]), left + 1), CellsFrom(line, right), left, right, |line|);
    } else {
      TailIsGap(r, line, left);
    }
  }

  /** Before the first bar of a row there is white space only. */
  lemma {:induction false} RowBegins(line: string, i: nat)
    requires i < FirstBar(line, false) && TrimLeft(line, IsSpace) != "" && TrimLeft(line, IsSpace)[0] == '|'
    ensures IsSpace(line[i])
  {
    if i > 0 {
      RowBegins(line[1..], i - 1);
    }
  }

  lemma {:induction false} HeadIsGap(r: Reading, line: string)
    requires Admits(r, line) && IsRow(line)
    ensures Gap(r, 0, FirstBar(line, false))
  {
    assert TrimLeft(line, IsSpace)[0] == Strip(line)[0] by {
      TrimRightIsPrefix(TrimLeft(line, IsSpace), IsSpace);
    }
    forall i | 0 <= i < FirstBar(line, false)
      ensures r.idle(i)
    {
      RowBegins(line, i);
      assert Idle(line, i);
    }
  }

  lemma {:induction false} RowDivides(r: Reading, line: string)
    requires Admits(r, line) && IsRow(line) && SkipsBehind(r, line)
    ensures Divides(r, CellsOf(line), 0, |line|)
  {
    var left := FirstBar(line, false);
    HeadIsGap(r, line);
    if left < |line| {
      CellsDivide(r, line, left);
      GapBefore(r, CellsFrom(line, left), 0, left, |line|);
    }
  }

  // ----- units divide a text

  ghost predicate SkipsAll(r: Reading, leftOut: (string, int) -> bool, part: string) {
    forall i {:trigger leftOut(part, i)} | leftOut(part, i) :: r.idle(i)
  }

  /** A cutter whose pieces, and what it leaves out, divide what they are cut from. */
  ghost predicate Faithful(c: Cutter) {
    && (forall r, prose {:trigger Admits(r, prose), c.prose(prose)} ::
          Admits(r, prose) && SkipsAll(r, c.headed, prose) ==> Divides(r, c.prose(prose), 0, |prose|))
    && forall r, line {:trigger Admits(r, line), c.cells(line)} ::
         Admits(r, line) && IsRow(line) && SkipsAll(r, c.behind, line) ==> Divides(r, c.cells(line), 0, |line|)
  }

  lemma {:induction false} CutterIsFaithful()
    ensures Faithful(CUTTER)
  {
    forall r, prose | Admits(r, prose) && SkipsAll(r, CUTTER.headed, prose)
      ensures Divides(r, CUTTER.prose(prose), 0, |prose|)
    {
      SkippedHeadings(r, prose);
      ClausesDivide(r, prose, 0);
    }
    forall r, line | Admits(r, line) && IsRow(line) && SkipsAll(r, CUTTER.behind, line)
      ensures Divides(r, CUTTER.cells(line), 0, |line|)
    {
      SkippedBehind(r, line);
      RowDivides(r, line);
    }
  }

  lemma {:induction false} SkippedHeadings(r: Reading, prose: string)
    requires SkipsAll(r, CUTTER.headed, prose)
    ensures SkipsHeadings(r, prose, 0)
  {
    forall i | Headed(prose, 0, i)
      ensures r.idle(i)
    {
      assert CUTTER.headed(prose, i);
    }
  }

  lemma {:induction false} SkippedBehind(r: Reading, line: string)
    requires SkipsAll(r, CUTTER.behind, line)
    ensures SkipsBehind(r, line)
  {
    forall i | Behind(line, i)
      ensures r.idle(i)
    {
      assert CUTTER.behind(line, i);
    }
  }

  lemma {:induction false} PlacedDivides(r: Reading, part: string, from: nat, units: seq<Unit>)
    requires Divides(Shifted(r, from), units, 0, |part|)
    ensures Divides(r, Moved(units, from), from, from + |part|)
  {
    MovedDivides(r, units, from, 0, |part|);
  }

  lemma {:induction false} GrowPlaced(text: string, part: string, from: nat, more: string)
    requires Placed(text, part, from) && Placed(text, more, from + |part|)
    ensures Placed(text, part + more, from)
  {
    assert text[from..from + |part + more|] == text[from..from + |part|] + text[from + |part|..from + |part + more|];
  }

  lemma {:induction false} LinePlaced(text: string, lines: seq<string>, k: nat, begin: nat)
    requires k < |lines| && Placed(text, Concat(lines), begin)
    ensures Placed(text, lines[k], begin + |Concat(lines[..k])|)
  {
    var before, line, rest, whole := Concat(lines[..k]), lines[k], Concat(lines[k + 1..]), Concat(lines);
    ConcatAround(lines, k);
    SliceOfSlice(text, begin, begin + |whole|, |before|, |before + line|);
    MiddleOf(before, line, rest);
  }

  lemma {:induction false} MiddleOf(a: string, b: string, c: string)
    ensures ((a + b) + c)[|a|..|a + b|] == b
  {
  }

  lemma {:induction false} ConcatAround(lines: seq<string>, k: nat)
    requires k < |lines|
    ensures Concat(lines) == (Concat(lines[..k]) + lines[k]) + Concat(lines[k + 1..])
  {
    assert lines[..k + 1] == lines[..k] + [lines[k]] && lines == lines[..k + 1] + lines[k + 1..];
    ConcatOne(lines[..k], lines[k]);
    ConcatAppend(lines[..k + 1], lines[k + 1..]);
  }

  lemma {:induction false} ProseDivides(r: Reading, c: Cutter, text: string, prose: string, from: nat)
    requires Admits(r, text) && Faithful(c) && Placed(text, prose, from) && SkipsAll(Shifted(r, from), c.headed, prose)
    ensures Divides(r, Moved(c.prose(prose), from), from, from + |prose|)
  {
    AdmitsSlice(r, text, from, from + |prose|);
    PlacedDivides(r, prose, from, c.prose(prose));
  }

  lemma {:induction false} PlacedRowDivides(r: Reading, c: Cutter, text: string, line: string, from: nat)
    requires Admits(r, text) && Faithful(c) && Placed(text, line, from) && IsRow(line)
    requires SkipsAll(Shifted(r, from), c.behind, line)
    ensures Divides(r, Moved(c.cells(line), from), from, from + |line|)
  {
    AdmitsSlice(r, text, from, from + |line|);
    PlacedDivides(r, line, from, c.cells(line));
  }

  /** The units so far divide the text up to the prose still to cut. */
  ghost predicate Reached(r: Reading, text: string, p: Progress, begin: nat) {
    && begin + |p.prose| <= p.offset && Placed(text, p.prose, p.offset - |p.prose|)
    && Divides(r, p.units, begin, p.offset - |p.prose|)
  }

  /** The headings in the prose still to cut may stand between units. */
  ghost predicate SkipsProse(r: Reading, c: Cutter, p: Progress) {
    |p.prose| <= p.offset && SkipsAll(Shifted(r, p.offset - |p.prose|), c.headed, p.prose)
  }

  lemma {:induction false} ReachEnd(r: Reading, c: Cutter, text: string, p: Progress, begin: nat)
    requires Admits(r, text) && Faithful(c) && Reached(r, text, p, begin) && SkipsProse(r, c, p)
    ensures Divides(r, p.units + LastProse(c, p), begin, p.offset)
  {
    ProseDivides(r, c, text, p.prose, p.offset - |p.prose|);
    JoinDivides(r, p.units, LastProse(c, p), begin, p.offset - |p.prose|, p.offset);
  }

  lemma {:induction false} ReachRow(r: Reading, c: Cutter, text: string, p: Progress, begin: nat, line: string)
    requires Admits(r, text) && Faithful(c) && Reached(r, text, p, begin) && Placed(text, line, p.offset) && IsRow(line)
    requires SkipsProse(r, c, p) && SkipsAll(Shifted(r, p.offset), c.behind, line)
    ensures Reached(r, text, Advance(c, p, line), begin)
  {
    ReachEnd(r, c, text, p, begin);
    PlacedRowDivides(r, c, text, line, p.offset);
    JoinDivides(r, p.units + LastProse(c, p), Moved(c.cells(line), p.offset), begin, p.offset, p.offset + |line|);
  }

  lemma {:induction false} ReachProse(r: Reading, c: Cutter, text: string, p: Progress, begin: nat, line: string)
    requires Reached(r, text, p, begin) && Placed(text, line, p.offset) && !IsRow(line)
    ensures Reached(r, text, Advance(c, p, line), begin)
  {
    GrowPlaced(text, p.prose, p.offset - |p.prose|, line);
  }

  /** What is left out of the first `k` lines may stand between units. */
  ghost predicate SkipsLines(r: Reading, c: Cutter, lines: seq<string>, k: nat, begin: nat)
    requires k <= |lines|
  {
    forall i {:trigger LeftOutBefore(c, lines, k, begin, i)} | LeftOutBefore(c, lines, k, begin, i) :: r.idle(i)
  }

  lemma {:induction false} SkipsLast(r: Reading, c: Cutter, lines: seq<string>, k: nat, begin: nat)
    requires k < |lines| && SkipsLines(r, c, lines, k + 1, begin)
    ensures SkipsLines(r, c, lines, k, begin)
    ensures IsRow(lines[k]) ==>
              var p := AfterLines(c, lines, k, begin);
              SkipsProse(r, c, p) && SkipsAll(Shifted(r, p.offset), c.behind, lines[k])
  {
    forall i | LeftOutBefore(c, lines, k, begin, i)
      ensures r.idle(i)
    {
      assert LeftOutBefore(c, lines, k + 1, begin, i);
    }
    if IsRow(lines[k]) {
      var p := AfterLines(c, lines, k, begin);
      forall i | LeftOutBy(c, p, lines[k], i)
        ensures r.idle(i)
      {
        assert LeftOutBefore(c, lines, k + 1, begin, i);
      }
      SkipsRow(r, c, p, lines[k]);
    }
  }

  lemma {:induction false} SkipsRow(r: Reading, c: Cutter, p: Progress, line: string)
    requires |p.prose| <= p.offset && IsRow(line)
    requires forall i {:trigger LeftOutBy(c, p, line, i)} | LeftOutBy(c, p, line, i) :: r.idle(i)
    ensures SkipsProse(r, c, p) && SkipsAll(Shifted(r, p.offset), c.behind, line)
  {
    var from := p.offset - |p.prose|;
    forall i | c.headed(p.prose, i)
      ensures Shifted(r, from).idle(i)
    {
      assert LeftOutBy(c, p, line, i + from);
    }
    forall i | c.behind(line, i)
      ensures Shifted(r, p.offset).idle(i)
    {
      assert LeftOutBy(c, p, line, i + p.offset);
    }
  }

  lemma {:induction false} PlaceReached(c: Cutter, lines: seq<string>, k: nat, begin: nat)
    requires k <= |lines|
    ensures AfterLines(c, lines, k, begin).offset == begin + |Concat(lines[..k])|
  {
    if k > 0 {
      PlaceReached(c, lines, k - 1, begin);
      assert lines[..k] == lines[..k - 1] + [lines[k - 1]];
      ConcatOne(lines[..k - 1], lines[k - 1]);
    }
  }

  lemma {:induction false} ReachLine(r: Reading, c: Cutter, text: string, p: Progress, begin: nat, line: string)
    requires Admits(r, text) && Faithful(c) && Reached(r, text, p, begin) && Placed(text, line, p.offset)
    requires IsRow(line) ==> SkipsProse(r, c, p) && SkipsAll(Shifted(r, p.offset), c.behind, line)
    ensures Reached(r, text, Advance(c, p, line), begin)
  {
    if IsRow(line) {
      ReachRow(r, c, text, p, begin, line);
    } else {
      ReachProse(r, c, text, p, begin, line);
    }
  }

  lemma {:induction false} LinesReach(r: Reading, c: Cutter, text: string, lines: seq<string>, k: nat, begin: nat)
    requires Admits(r, text) && Faithful(c) && k <= |lines| && Placed(text, Concat(lines), begin)
    requires SkipsLines(r, c, lines, k, begin)
    ensures Reached(r, text, AfterLines(c, lines, k, begin), begin)
  {
    if k > 0 {
      var p, line := AfterLines(c, lines, k - 1, begin), lines[k - 1];
      SkipsLast(r, c, lines, k - 1, begin);
      LinesReach(r, c, text, lines, k - 1, begin);
      LinePlaced(text, lines, k - 1, begin);
      PlaceReached(c, lines, k - 1, begin);
      ReachLine(r, c, text, p, begin, line);
    }
  }

  lemma {:induction false} SkipsToEnd(r: Reading, c: Cutter, lines: seq<string>, begin: nat)
    requires forall i {:trigger LeftOutOfLines(c, lines, begin, i)} | LeftOutOfLines(c, lines, begin, i) :: r.idle(i)
    ensures SkipsLines(r, c, lines, |lines|, begin) && SkipsProse(r, c, AfterLines(c, lines, |lines|, begin))
  {
    forall i | LeftOutBefore(c, lines, |lines|, begin, i)
      ensures r.idle(i)
    {
      assert LeftOutOfLines(c, lines, begin, i);
    }
    var p := AfterLines(c, lines, |lines|, begin);
    var from := p.offset - |p.prose|;
    forall i | c.headed(p.prose, i)
      ensures Shifted(r, from).idle(i)
    {
      assert LeftOutOfLines(c, lines, begin, i + from);
    }
  }

  lemma {:induction false} LinesDivide(r: Reading, c: Cutter, text: string, lines: seq<string>, start: nat)
    requires Admits(r, text) && Faithful(c) && Placed(text, Concat(lines), start)
    requires SkipsLines(r, c, lines, |lines|, start) && SkipsProse(r, c, AfterLines(c, lines, |lines|, start))
    ensures Divides(r, LineUnits(c, lines, start), start, start + |Concat(lines)|)
  {
    assert lines[..|lines|] == lines;
    LinesReach(r, c, text, lines, |lines|, start);
    PlaceReached(c, lines, |lines|, start);
    ReachEnd(r, c, text, AfterLines(c, lines, |lines|, start), start);
  }

  lemma {:induction false} OneDivides(r: Reading, text: string, clause: Unit)
    requires Admits(r, text) && Fits(text, clause)
    ensures Divides(r, [clause], clause.start, clause.end)
  {
    assert [clause][1..] == [];
  }

  /** What is left out of a clause may stand between units. */
  ghost predicate SkipsIn(r: Reading, c: Cutter, clause: Unit) {
    forall i {:trigger LeftOutOf(c, clause, i)} | LeftOutOf(c, clause, i) :: r.idle(i)
  }

  lemma {:induction false} SkipsInLines(r: Reading, c: Cutter, clause: Unit)
    requires SkipsIn(r, c, clause) && HasRow(KeptLines(clause.text))
    ensures var lines := KeptLines(clause.text);
            SkipsLines(r, c, lines, |lines|, clause.start)
            && SkipsProse(r, c, AfterLines(c, lines, |lines|, clause.start))
  {
    var lines := KeptLines(clause.text);
    forall i | LeftOutOfLines(c, lines, clause.start, i)
      ensures r.idle(i)
    {
      assert LeftOutOf(c, clause, i);
    }
    SkipsToEnd(r, c, lines, clause.start);
  }

  lemma {:induction false} RowsDivide(r: Reading, c: Cutter, text: string, clause: Unit, lines: seq<string>)
    requires Admits(r, text) && Faithful(c) && Fits(text, clause) && Concat(lines) == clause.text
    requires SkipsLines(r, c, lines, |lines|, clause.start)
    requires SkipsProse(r, c, AfterLines(c, lines, |lines|, clause.start))
    ensures Divides(r, LineUnits(c, lines, clause.start), clause.start, clause.end)
  {
    LinesDivide(r, c, text, lines, clause.start);
  }

  lemma {:induction false} UnitsDivide(r: Reading, c: Cutter, text: string, clause: Unit)
    requires Admits(r, text) && Faithful(c) && Fits(text, clause) && SkipsIn(r, c, clause)
    ensures Divides(r, UnitsIn(c, clause), clause.start, clause.end)
  {
    if HasRow(KeptLines(clause.text)) {
      SkipsInLines(r, c, clause);
      RowsDivide(r, c, text, clause, KeptLines(clause.text));
    } else {
      OneDivides(r, text, clause);
    }
  }

  /** The rules let pass nothing but units that fit. */
  ghost predicate Strict(r: Reading, text: string) {
    forall u :: r.unit(u) ==> Fits(text, u)
  }

  lemma {:induction false} AllUnitsDivide(r: Reading, c: Cutter, text: string, clauses: seq<Unit>,
                                          k: nat, from: nat, upto: nat)
    requires Admits(r, text) && Faithful(c) && Strict(r, text) && k <= |clauses| && Divides(r, clauses[k..], from, upto)
    requires forall clause | clause in clauses :: SkipsIn(r, c, clause)
    ensures Divides(r, UnitsFrom(c, clauses, k), from, upto)
    decreases |clauses| - k
  {
    if k < |clauses| {
      var clause := clauses[k];
      assert clauses[k..][0] == clause && clauses[k..][1..] == clauses[k + 1..];
      AllUnitsDivide(r, c, text, clauses, k + 1, clause.end, upto);
      UnitsDivide(r, c, text, clause);
      GapBefore(r, UnitsIn(c, clause), from, clause.start, clause.end);
      JoinDivides(r, UnitsIn(c, clause), UnitsFrom(c, clauses, k + 1), from, clause.end, upto);
    }
  }

  /** What may stand between the units of a text, and its units. */
  function ReadingOf(text: string): Reading {
    Reading(i => Idle(text, i) || LeftOut(text, i), u => Fits(text, u))
  }

  /** Every unit is the slice of the text at its offsets, trimmed and not blank; the units are
      in order and do not overlap; and every character outside them is white space, a closing
      mark, a bar, or left out with a heading over a clause or with a row behind its last bar. */
  lemma {:induction false} SourceUnitsDivide(text: string)
    ensures Divides(ReadingOf(text), SourceUnitsOf(text), 0, |text|)
  {
    var r, clauses := ReadingOf(text), ClausesFrom(text, 0);
    HeadingsAreLeftOut(text);
    ClausesDivide(r, text, 0);
    assert clauses[0..] == clauses;
    forall clause | clause in clauses
      ensures SkipsIn(r, CUTTER, clause)
    {
      ClauseIsLeftOut(text, clause);
    }
    CutterIsFaithful();
    AllUnitsDivide(r, CUTTER, text, clauses, 0, 0, |text|);
  }

  lemma {:induction false} HeadingsAreLeftOut(text: string)
    ensures SkipsHeadings(ReadingOf(text), text, 0)
  {
    forall i | Headed(text, 0, i)
      ensures ReadingOf(text).idle(i)
    {
      assert LeftOut(text, i);
    }
  }

  lemma {:induction false} ClauseIsLeftOut(text: string, clause: Unit)
    requires clause in ClausesFrom(text, 0)
    ensures SkipsIn(ReadingOf(text), CUTTER, clause)
  {
    forall i | LeftOutOf(CUTTER, clause, i)
      ensures ReadingOf(text).idle(i)
    {
      assert LeftOut(text, i);
    }
  }

  // ----- what a row loses

  predicate Covered(units: seq<Unit>, i: int) {
    exists u | u in units :: u.start <= i < u.end
  }

  /** The last character of a row, white space aside, is a bar that is not escaped. */
  predicate Closed(line: string) {
    Bare(line, LeftOf(line) + |Strip(line)| - 1)
  }

  lemma {:induction false} TrimmedCovers(raw: string, i: nat, distance: nat)
    requires i < |raw| && !IsSpace(raw[i])
    ensures Covered(Moved(TrimmedIn(raw), distance), i + distance)
  {
    StripAt(raw);
    assert LeftOf(raw) <= i < LeftOf(raw) + |Strip(raw)|;
    assert Moved(TrimmedIn(raw), distance)[0]
        == Unit(Strip(raw), LeftOf(raw) + distance, LeftOf(raw) + |Strip(raw)| + distance);
  }

  lemma {:induction false} TrimmedWithin(raw: string, distance: nat, u: Unit)
    requires u in Moved(TrimmedIn(raw), distance)
    ensures u.end <= |raw| + distance
  {
    StripAt(raw);
    if TrimmedIn(raw) != [] {
      assert TrimmedIn(raw)[1..] == [];
    }
  }

  lemma {:induction false} CoveredIn(a: seq<Unit>, b: seq<Unit>, i: int)
    requires Covered(a, i) || Covered(b, i)
    ensures Covered(a + b, i)
  {
    var u :| u in (if Covered(a, i) then a else b) && u.start <= i < u.end;
    assert u in a + b;
  }

  lemma {:induction false} CellsCover(line: string, left: nat, i: nat)
    requires left < i < |line| && line[left] == '|' && !IsSpace(line[i]) && !Bare(line, i)
    requires exists k | i <= k < |line| :: Bare(line, k)
    ensures Covered(CellsFrom(line, left), i)
    decreases |line| - left
  {
    var right := NextBar(line, left);
    NextBarExact(line, left);
    var first, rest := Moved(TrimmedIn(line[left + 1..right]), left + 1), CellsFrom(line, right);
    if i < right {
      TrimmedCovers(line[left + 1..right], i - left - 1, left + 1);
    } else {
      CellsCover(line, right, i);
    }
    CoveredIn(first, rest, i);
  }

  lemma {:induction false} CellsEndAtBars(line: string, left: nat, u: Unit)
    requires left < |line| && line[left] == '|' && u in CellsFrom(line, left)
    ensures exists k :: u.end <= k && Bare(line, k)
    decreases |line| - left
  {
    var right := NextBar(line, left);
    NextBarExact(line, left);
    if u in Moved(TrimmedIn(line[left + 1..right]), left + 1) {
      TrimmedWithin(line[left + 1..right], left + 1, u);
      assert u.end <= right && Bare(line, right);
    } else {
      CellsEndAtBars(line, right, u);
    }
  }

  /** The first bar of a row is the first character that is not white space. */
  lemma {:induction false} RowStarts(line: string)
    requires IsRow(line)
    ensures var left := FirstBar(line, false); left < |line| && forall i | 0 <= i < left :: IsSpace(line[i])
  {
    var left := FirstBar(line, false);
    StripAt(line);
    assert TrimLeft(line, IsSpace)[0] == Strip(line)[0] by {
      TrimRightIsPrefix(TrimLeft(line, IsSpace), IsSpace);
    }
    forall i | 0 <= i < left
      ensures IsSpace(line[i])
    {
      RowBegins(line, i);
    }
  }

  lemma {:induction false} BehindIsLost(line: string, left: nat, i: nat)
    requires left < |line| && line[left] == '|' && Behind(line, i)
    ensures !Covered(CellsFrom(line, left), i)
  {
    if Covered(CellsFrom(line, left), i) {
      var u :| u in CellsFrom(line, left) && u.start <= i < u.end;
      CellsEndAtBars(line, left, u);
    }
  }

  /** Of a row all characters but white space and the bars are in a unit, exactly if they are not
      behind its last bar. */
  lemma {:induction false} RowKeeps(line: string, i: nat)
    requires IsRow(line) && i < |line| && !IsSpace(line[i]) && !Bare(line, i)
    ensures Covered(CellsOf(line), i) <==> !Behind(line, i)
  {
    var left := FirstBar(line, false);
    RowStarts(line);
    if Behind(line, i) {
      BehindIsLost(line, left, i);
    } else {
      FirstIsBare(line);
      CellsCover(line, left, i);
    }
  }

  lemma {:induction false} FirstIsBare(line: string)
    requires FirstBar(line, false) < |line|
    ensures Bare(line, FirstBar(line, false))
  {
    FirstBarBare(line, false);
  }

  /** The last character of a row that is not white space. */
  lemma {:induction false} RowEnds(line: string)
    requires IsRow(line)
    ensures var last := LeftOf(line) + |Strip(line)| - 1;
            0 <= last < |line| && !IsSpace(line[last]) && forall k | last < k < |line| :: IsSpace(line[k])
  {
    var last := LeftOf(line) + |Strip(line)| - 1;
    StripAt(line);
    assert line[LeftOf(line)..][|Strip(line)| - 1] == line[last];
    assert line[LeftOf(line)..last + 1] == Strip(line);
    TrimEnds(line, IsSpace);
  }

  /** A row keeps all its characters, white space and the bars between the cells aside, if and only
      if a bar closes it. */
  lemma {:induction false} RowIsWhole(line: string)
    requires IsRow(line)
    ensures Closed(line)
       <==> forall i | 0 <= i < |line| && !IsSpace(line[i]) && !Bare(line, i) :: Covered(CellsOf(line), i)
  {
    var last := LeftOf(line) + |Strip(line)| - 1;
    RowEnds(line);
    if Closed(line) {
      forall i | 0 <= i < |line| && !IsSpace(line[i]) && !Bare(line, i)
        ensures Covered(CellsOf(line), i)
      {
        RowKeeps(line, i);
      }
    } else {
      assert Behind(line, last);
      RowKeeps(line, last);
    }
  }

  lemma {:induction false} MovedNowhere(units: seq<Unit>)
    ensures Moved(units, 0) == units
  {
    if units != [] {
      MovedNowhere(units[1..]);
    }
  }

  /** Nothing in the text ends a line or a clause. */
  predicate Plain(text: string) {
    forall c | c in text :: !Ends(c) && !LineEnd(c)
  }

  lemma {:induction false} PlainHasNoBoundary(text: string, k: nat)
    requires Plain(text) && k <= |text|
    ensures NextBoundary(text, k) == None && LineFeed(text, k) == |text|
    decreases |text| - k
  {
    if k < |text| {
      assert text[k] in text;
      assert k + 1 < |text| ==> text[k + 1] in text;
      PlainHasNoBoundary(text, k + 1);
    }
  }

  lemma {:induction false} PlainEndsAtEnd(text: string)
    requires Plain(text)
    ensures EndOfLine(text) == |text|
  {
    if text != "" {
      assert text[0] in text;
      PlainEndsAtEnd(text[1..]);
    }
  }

  lemma {:induction false} NoClauses()
    ensures ClausesFrom("", 0) == []
  {
    assert ""[0..0] == "";
    assert TrimmedIn(""[0..]) == [];
  }

  lemma {:induction false} OneClause(text: string)
    requires Plain(text) && text != "" && Strip(text) == text
    ensures ClausesFrom(text, 0) == [Unit(text, 0, |text|)]
  {
    PlainHasNoBoundary(text, 0);
    StripAt(text);
    assert text[0..|text|] == text[0..] == text;
    assert LeftOf(text) == 0 && HeadingLength(text) == 0;
    MovedNowhere(TrimmedIn(text));
    MovedNowhere(ClauseIn(text));
  }

  lemma {:induction false} OneLineCut(c: Cutter, line: string)
    requires c.prose("") == [] && IsRow(line)
    ensures LineUnits(c, [line], 0) == c.cells(line)
  {
    assert AfterLines(c, [line], 0, 0) == Progress([], 0, "");
    assert AfterLines(c, [line], 1, 0) == Progress(([] + []) + Moved(c.cells(line), 0), |line|, "");
    MovedNowhere(c.cells(line));
  }

  lemma {:induction false} OneClauseCut(c: Cutter, text: string)
    requires c.prose("") == [] && IsRow(text) && KeptLines(text) == [text]
    ensures UnitsFrom(c, [Unit(text, 0, |text|)], 0) == c.cells(text)
  {
    var clause := Unit(text, 0, |text|);
    OneLineCut(c, text);
    assert text in [text];
    assert UnitsIn(c, clause) == c.cells(text);
    assert UnitsFrom(c, [clause], 1) == [];
  }

  lemma {:induction false} OneLineKept(text: string)
    requires Plain(text) && text != ""
    ensures KeptLines(text) == [text]
  {
    PlainEndsAtEnd(text);
    assert text[..|text|] == text && text[|text|..] == "";
  }

  /** The units of a text that is one table row are its cells. */
  lemma {:induction false} OneRow(text: string)
    requires Plain(text) && IsRow(text) && Strip(text) == text
    ensures SourceUnitsOf(text) == CellsOf(text)
  {
    OneClause(text);
    OneLineKept(text);
    NoClauses();
    OneClauseCut(CUTTER, text);
  }

  const UNCLOSED := "| a | b"

  /** A row without a closing bar: its second cell is no unit. */
  lemma {:induction false} UnclosedRow()
    ensures SourceUnitsOf(UNCLOSED) == [Unit("a", 2, 3)] && UNCLOSED[6] == 'b'
  {
    UnclosedIsRow();
    OneRow(UNCLOSED);
    UnclosedCells();
  }

  lemma {:induction false} UnclosedIsRow()
    ensures Plain(UNCLOSED) && IsRow(UNCLOSED) && Strip(UNCLOSED) == UNCLOSED
  {
  }

  lemma {:induction false} UnclosedBars()
    ensures NextBar(UNCLOSED, 0) == 4 && NextBar(UNCLOSED, 4) == |UNCLOSED|
  {
    var (tail, rest) := (UNCLOSED[1..], UNCLOSED[5..]);
    assert tail[1..][1..][1..][0] == '|';
    assert FirstBar(tail[1..][1..][1..], false) == 0;
    assert FirstBar(tail[1..][1..], false) == 1;
    assert FirstBar(rest[1..][1..], false) == 0;
    assert FirstBar(rest[1..], false) == 1;
  }

  lemma {:induction false} TrimmedA()
    ensures TrimmedIn(" a ") == [Unit("a", 1, 2)]
  {
    assert TrimLeft(" a ", IsSpace) == "a ";
    assert TrimRight("a ", IsSpace) == "a";
  }

  lemma {:induction false} UnclosedCells()
    ensures CellsOf(UNCLOSED) == [Unit("a", 2, 3)]
  {
    UnclosedBars();
    TrimmedA();
    assert UNCLOSED[1..4] == " a ";
    assert CellsFrom(UNCLOSED, 4) == [];
    assert CellsFrom(UNCLOSED, 0) == [Unit("a", 2, 3)] + CellsFrom(UNCLOSED, 4);
  }

  // ----- what is left out is in no unit

  lemma {:induction false} MovedMembers(units: seq<Unit>, distance: nat, u: Unit)
    requires u in Moved(units, distance)
    ensures exists v | v in units :: u == Shift(v, distance)
  {
    if u != Moved(units, distance)[0] {
      assert Moved(units, distance)[1..] == Moved(units[1..], distance);
      MovedMembers(units[1..], distance, u);
      var v :| v in units[1..] && u == Shift(v, distance);
      assert v in units;
    } else {
      assert units[0] in units && u == Shift(units[0], distance);
    }
  }

  lemma {:induction false} MovedCovers(units: seq<Unit>, distance: nat, i: int)
    requires Covered(Moved(units, distance), i)
    ensures Covered(units, i - distance)
  {
    var u :| u in Moved(units, distance) && u.start <= i < u.end;
    MovedMembers(units, distance, u);
  }

  lemma {:induction false} TrimmedCoversWithin(raw: string, distance: nat, i: int)
    requires Covered(Moved(TrimmedIn(raw), distance), i)
    ensures distance <= i < distance + |raw|
  {
    MovedCovers(TrimmedIn(raw), distance, i);
    StripAt(raw);
  }

  lemma {:induction false} UnitWithin(value: string, heading: nat, left: nat, i: int)
    requires heading == HeadingLength(value) && Covered(UnitOf(value, left), i)
    ensures left + heading <= i < left + |value|
  {
    TrimmedCoversWithin(value[heading..], left + heading, i);
  }

  /** The unit of a slice lies behind its heading, within the slice. */
  lemma {:induction false} ClauseBehindHeading(raw: string, i: int)
    requires Covered(ClauseIn(raw), i)
    ensures LeftOf(raw) + HeadingLength(Strip(raw)) <= i < |raw|
  {
    StripAt(raw);
    UnitWithin(Strip(raw), HeadingLength(Strip(raw)), LeftOf(raw), i);
  }

  lemma {:induction false} CoveredEither(a: seq<Unit>, b: seq<Unit>, i: int)
    requires Covered(a + b, i)
    ensures Covered(a, i) || Covered(b, i)
  {
    var u :| u in a + b && u.start <= i < u.end;
    assert u in a || u in b;
  }

  /** A section's unit lies between its start and the next boundary, behind the heading. */
  lemma {:induction false} SectionBehindHeading(text: string, start: nat, i: int)
    requires start <= |text| && Covered(SectionAt(text, start).units, i)
    ensures var s := SectionAt(text, start);
            start <= s.heading.end <= i < |text| && (s.next.Some? ==> i < s.next.value)
  {
    var boundary := NextBoundary(text, start);
    var end := if boundary.Some? then boundary.value.start else |text|;
    MovedCovers(ClauseIn(text[start..end]), start, i);
    ClauseBehindHeading(text[start..end], i - start);
  }

  /** Headings from `start` on lie there. */
  lemma {:induction false} HeadedWithin(text: string, start: nat, i: int)
    requires start <= |text| && Headed(text, start, i)
    ensures start <= i < |text|
    decreases |text| - start
  {
    var s := SectionAt(text, start);
    SectionHeading(text, start);
    if !(s.heading.start <= i < s.heading.end) {
      HeadedWithin(text, s.next.value, i);
    }
  }

  lemma {:induction false} SectionHeading(text: string, start: nat)
    requires start <= |text|
    ensures var s := SectionAt(text, start);
            start <= s.heading.start && s.heading.end <= |text| && (s.next.Some? ==> s.heading.end <= s.next.value)
  {
    var boundary := NextBoundary(text, start);
    var end := if boundary.Some? then boundary.value.start else |text|;
    StripAt(text[start..end]);
  }

  /** No clause holds a place of a heading. */
  lemma {:induction false} ClausesAvoidHeadings(text: string, start: nat, i: int)
    requires start <= |text| && Covered(ClausesFrom(text, start), i)
    ensures start <= i < |text| && !Headed(text, start, i)
    decreases |text| - start
  {
    var s := SectionAt(text, start);
    SectionHeading(text, start);
    if s.next.Some? {
      CoveredEither(s.units, ClausesFrom(text, s.next.value), i);
    } else {
      assert s.units + [] == s.units;
    }
    if Covered(s.units, i) {
      SectionBehindHeading(text, start, i);
      if s.next.Some? && Headed(text, s.next.value, i) {
        HeadedWithin(text, s.next.value, i);
      }
    } else {
      ClausesAvoidHeadings(text, s.next.value, i);
    }
  }

  lemma {:induction false} CellsWithin(line: string, i: int)
    requires IsRow(line) && Covered(CellsOf(line), i)
    ensures 0 <= i < |line| && !Behind(line, i)
  {
    var left := FirstBar(line, false);
    RowStarts(line);
    if Behind(line, i) {
      BehindIsLost(line, left, i);
    }
    var u :| u in CellsOf(line) && u.start <= i < u.end;
    CellsEndAtBars(line, left, u);
  }

  /** A cutter whose pieces and what it leaves out lie within what they are cut from, apart. */
  ghost predicate Apart(c: Cutter) {
    && (forall prose, i {:trigger Covered(c.prose(prose), i)} {:trigger c.headed(prose, i)} ::
          (Covered(c.prose(prose), i) || c.headed(prose, i) ==> 0 <= i < |prose|)
          && !(Covered(c.prose(prose), i) && c.headed(prose, i)))
    && forall line, i {:trigger Covered(c.cells(line), i)} {:trigger c.behind(line, i)} :: IsRow(line) ==>
         (Covered(c.cells(line), i) || c.behind(line, i) ==> 0 <= i < |line|)
         && !(Covered(c.cells(line), i) && c.behind(line, i))
  }

  lemma {:induction false} CutterIsApart()
    ensures Apart(CUTTER)
  {
    forall prose, i
      ensures Covered(CUTTER.prose(prose), i) || CUTTER.headed(prose, i) ==> 0 <= i < |prose|
      ensures !(Covered(CUTTER.prose(prose), i) && CUTTER.headed(prose, i))
    {
      ProseApart(prose, i);
    }
    forall line, i | IsRow(line)
      ensures Covered(CUTTER.cells(line), i) || CUTTER.behind(line, i) ==> 0 <= i < |line|
      ensures !(Covered(CUTTER.cells(line), i) && CUTTER.behind(line, i))
    {
      if Covered(CellsOf(line), i) {
        CellsWithin(line, i);
      }
    }
  }

  lemma {:induction false} ProseApart(prose: string, i: int)
    ensures Covered(ClausesFrom(prose, 0), i) || Headed(prose, 0, i) ==> 0 <= i < |prose|
    ensures !(Covered(ClausesFrom(prose, 0), i) && Headed(prose, 0, i))
  {
    if Covered(ClausesFrom(prose, 0), i) {
      ClausesAvoidHeadings(prose, 0, i);
    } else if Headed(prose, 0, i) {
      HeadedWithin(prose, 0, i);
    }
  }

  /** The last prose as units, and its headings, lie at the end of what was read, apart. */
  lemma {:induction false} LastProseApart(c: Cutter, p: Progress, i: int)
    requires Apart(c) && |p.prose| <= p.offset
    ensures var from := p.offset - |p.prose|;
            && (Covered(LastProse(c, p), i) || c.headed(p.prose, i - from) ==> from <= i < p.offset)
            && !(Covered(LastProse(c, p), i) && c.headed(p.prose, i - from))
  {
    var from := p.offset - |p.prose|;
    assert c.headed(p.prose, i - from) ==> 0 <= i - from < |p.prose|;
    if Covered(LastProse(c, p), i) {
      MovedCovers(c.prose(p.prose), from, i);
    }
  }

  /** The cells of a row, and what is behind its last bar, lie in the row, apart. */
  lemma {:induction false} RowApart(c: Cutter, line: string, offset: nat, i: int)
    requires Apart(c) && IsRow(line)
    ensures Covered(Moved(c.cells(line), offset), i) || c.behind(line, i - offset) ==> offset <= i < offset + |line|
    ensures !(Covered(Moved(c.cells(line), offset), i) && c.behind(line, i - offset))
  {
    assert c.behind(line, i - offset) ==> 0 <= i - offset < |line|;
    if Covered(Moved(c.cells(line), offset), i) {
      MovedCovers(c.cells(line), offset, i);
    }
  }

  /** Units so far, and what is left out so far, lie before the prose still to cut, apart. */
  predicate ApartUntil(units: seq<Unit>, leftOut: bool, begin: nat, end: int, i: int) {
    && (Covered(units, i) || leftOut ==> begin <= i < end) && !(Covered(units, i) && leftOut)
  }

  lemma {:induction false} LinesApart(c: Cutter, lines: seq<string>, k: nat, begin: nat, i: int)
    requires Apart(c) && k <= |lines|
    ensures var p := AfterLines(c, lines, k, begin);
            ApartUntil(p.units, LeftOutBefore(c, lines, k, begin, i), begin, p.offset - |p.prose|, i)
  {
    if k > 0 {
      LinesApart(c, lines, k - 1, begin, i);
      LineStaysApart(c, AfterLines(c, lines, k - 1, begin), lines[k - 1], begin, i,
          LeftOutBefore(c, lines, k - 1, begin, i));
    }
  }

  lemma {:induction false} LineStaysApart(c: Cutter, p: Progress, line: string, begin: nat, i: int, leftOut: bool)
    requires Apart(c) && begin + |p.prose| <= p.offset
    requires ApartUntil(p.units, leftOut, begin, p.offset - |p.prose|, i)
    ensures var q := Advance(c, p, line);
            ApartUntil(q.units, leftOut || LeftOutBy(c, p, line, i), begin, q.offset - |q.prose|, i)
  {
    if IsRow(line) {
      RowStaysApart(c, p, line, leftOut, begin, i);
    }
  }

  lemma {:induction false} RowStaysApart(c: Cutter, p: Progress, line: string, leftOut: bool, begin: nat, i: int)
    requires Apart(c) && IsRow(line) && begin + |p.prose| <= p.offset
    requires ApartUntil(p.units, leftOut, begin, p.offset - |p.prose|, i)
    ensures ApartUntil(Advance(c, p, line).units,
                       leftOut || c.headed(p.prose, i - (p.offset - |p.prose|)) || c.behind(line, i - p.offset),
                       begin, p.offset + |line|, i)
  {
    LastProseApart(c, p, i);
    RowApart(c, line, p.offset, i);
    if Covered(Advance(c, p, line).units, i) {
      CoveredEither(p.units + LastProse(c, p), Moved(c.cells(line), p.offset), i);
      if Covered(p.units + LastProse(c, p), i) {
        CoveredEither(p.units, LastProse(c, p), i);
      }
    }
  }

  lemma {:induction false} LineUnitsApart(c: Cutter, lines: seq<string>, begin: nat, i: int)
    requires Apart(c) && LeftOutOfLines(c, lines, begin, i)
    ensures begin <= i < begin + |Concat(lines)| && !Covered(LineUnits(c, lines, begin), i)
  {
    var p := AfterLines(c, lines, |lines|, begin);
    LinesApart(c, lines, |lines|, begin, i);
    LastProseApart(c, p, i);
    PlaceReached(c, lines, |lines|, begin);
    assert lines[..|lines|] == lines;
    if Covered(p.units + LastProse(c, p), i) {
      CoveredEither(p.units, LastProse(c, p), i);
    }
  }

  /** What the cutting of a clause leaves out lies in the clause, and in none of its units. */
  lemma {:induction false} ClauseApart(c: Cutter, clause: Unit, i: int)
    requires Apart(c) && LeftOutOf(c, clause, i) && clause.end == clause.start + |clause.text|
    ensures clause.start <= i < clause.end && !Covered(UnitsIn(c, clause), i)
  {
    LineUnitsApart(c, KeptLines(clause.text), clause.start, i);
  }

  lemma {:induction false} UnitsFromWhere(c: Cutter, clauses: seq<Unit>, k: nat, i: int) returns (j: nat)
    requires k <= |clauses| && Covered(UnitsFrom(c, clauses, k), i)
    ensures j < |clauses| && Covered(UnitsIn(c, clauses[j]), i)
    decreases |clauses| - k
  {
    CoveredEither(UnitsIn(c, clauses[k]), UnitsFrom(c, clauses, k + 1), i);
    if Covered(UnitsIn(c, clauses[k]), i) {
      j := k;
    } else {
      j := UnitsFromWhere(c, clauses, k + 1, i);
    }
  }

  /** What a division says of two of its units. */
  lemma {:induction false} DividedInOrder(r: Reading, units: seq<Unit>, from: nat, upto: nat, i: nat, j: nat)
    requires Divides(r, units, from, upto) && i <= j < |units|
    ensures r.unit(units[i]) && from <= units[i].start && r.unit(units[j])
    ensures i < j ==> units[i].end <= units[j].start
  {
    if i > 0 {
      DividedInOrder(r, units[1..], units[0].end, upto, i - 1, j - 1);
    } else if j > 0 {
      DividedInOrder(r, units[1..], units[0].end, upto, j - 1, j - 1);
    }
  }

  lemma {:induction false} DividesBounds(r: Reading, units: seq<Unit>, from: nat, upto: nat, i: int)
    requires Divides(r, units, from, upto)
    ensures from <= upto && (Covered(units, i) ==> from <= i < upto)
    ensures from <= i < upto ==> Covered(units, i) || r.idle(i)
  {
    if units != [] {
      var first, rest := units[0], units[1..];
      assert units == [first] + rest && first in units;
      DividesBounds(r, rest, first.end, upto, i);
      if Covered(units, i) {
        CoveredEither([first], rest, i);
      }
      if Covered(rest, i) {
        CoveredIn([first], rest, i);
      }
      assert first.start <= i < first.end ==> Covered(units, i);
    }
  }

  /** A clause and its units. */
  lemma {:induction false} ClauseHoldsUnits(text: string, k: nat, i: int)
    requires k < |ClausesFrom(text, 0)|
    ensures var clause := ClausesFrom(text, 0)[k];
            Fits(text, clause) && (Covered(UnitsIn(CUTTER, clause), i) ==> clause.start <= i < clause.end)
  {
    var r, clauses := ReadingOf(text), ClausesFrom(text, 0);
    HeadingsAreLeftOut(text);
    ClausesDivide(r, text, 0);
    DividedInOrder(r, clauses, 0, |text|, k, k);
    ClauseIsLeftOut(text, clauses[k]);
    CutterIsFaithful();
    UnitsDivide(r, CUTTER, text, clauses[k]);
    DividesBounds(r, UnitsIn(CUTTER, clauses[k]), clauses[k].start, clauses[k].end, i);
  }

  /** No place lies in two clauses. */
  lemma {:induction false} OnlyOneClause(text: string, a: nat, b: nat, i: int)
    requires a < |ClausesFrom(text, 0)| && b < |ClausesFrom(text, 0)|
    requires ClausesFrom(text, 0)[a].start <= i < ClausesFrom(text, 0)[a].end
    requires ClausesFrom(text, 0)[b].start <= i < ClausesFrom(text, 0)[b].end
    ensures a == b
  {
    HeadingsAreLeftOut(text);
    ClausesDivide(ReadingOf(text), text, 0);
    if a < b {
      DividedInOrder(ReadingOf(text), ClausesFrom(text, 0), 0, |text|, a, b);
    } else {
      DividedInOrder(ReadingOf(text), ClausesFrom(text, 0), 0, |text|, b, a);
    }
  }

  /** The clause whose units hold a place. */
  lemma {:induction false} WhereCovered(text: string, i: int) returns (a: nat)
    requires Covered(SourceUnitsOf(text), i)
    ensures a < |ClausesFrom(text, 0)| && Covered(UnitsIn(CUTTER, ClausesFrom(text, 0)[a]), i)
    ensures ClausesFrom(text, 0)[a].start <= i < ClausesFrom(text, 0)[a].end
  {
    a := UnitsFromWhere(CUTTER, ClausesFrom(text, 0), 0, i);
    ClauseHoldsUnits(text, a, i);
  }

  /** What is left out of a clause is in no unit. */
  lemma {:induction false} ClauseLoses(text: string, b: nat, i: int)
    requires b < |ClausesFrom(text, 0)| && LeftOutOf(CUTTER, ClausesFrom(text, 0)[b], i)
    ensures !Covered(SourceUnitsOf(text), i)
  {
    ClauseHoldsUnits(text, b, i);
    CutterIsApart();
    ClauseApart(CUTTER, ClausesFrom(text, 0)[b], i);
    UncoveredIsLost(text, ClausesFrom(text, 0), b, i);
  }

  /** A place in a clause that is in none of its units is in no unit. */
  lemma {:induction false} UncoveredIsLost(text: string, clauses: seq<Unit>, b: nat, i: int)
    requires clauses == ClausesFrom(text, 0) && b < |clauses| && clauses[b].start <= i < clauses[b].end
    requires !Covered(UnitsIn(CUTTER, clauses[b]), i)
    ensures !Covered(SourceUnitsOf(text), i)
  {
    if Covered(SourceUnitsOf(text), i) {
      var a := WhereCovered(text, i);
      OnlyOneClause(text, a, b, i);
    }
  }

  /** Nor is a heading over a clause. */
  lemma {:induction false} HeadingIsLost(text: string, i: int)
    requires Headed(text, 0, i)
    ensures !Covered(SourceUnitsOf(text), i)
  {
    var clauses := ClausesFrom(text, 0);
    if Covered(SourceUnitsOf(text), i) {
      var a := WhereCovered(text, i);
      assert clauses[a] in clauses;
      ClausesAvoidHeadings(text, 0, i);
    }
  }

  /** What is left out is in no unit. */
  lemma {:induction false} LeftOutIsLost(text: string, i: int)
    requires LeftOut(text, i)
    ensures !Covered(SourceUnitsOf(text), i)
  {
    if Headed(text, 0, i) {
      HeadingIsLost(text, i);
    } else {
      var clauses := ClausesFrom(text, 0);
      var clause :| clause in clauses && LeftOutOf(CUTTER, clause, i);
      var b :| 0 <= b < |clauses| && clauses[b] == clause;
      ClauseLoses(text, b, i);
    }
  }

  /** A character that is no white space, closing mark or bar is in a unit if and only if it is not
      left out. */
  lemma {:induction false} SourceUnitsExactly(text: string, i: nat)
    requires i < |text| && !Idle(text, i)
    ensures Covered(SourceUnitsOf(text), i) <==> !LeftOut(text, i)
  {
    SourceUnitsDivide(text);
    DividesBounds(ReadingOf(text), SourceUnitsOf(text), 0, |text|, i);
    if LeftOut(text, i) {
      LeftOutIsLost(text, i);
    }
  }

  lemma {:induction false} UnitFits(text: string, u: Unit)
    requires u in SourceUnitsOf(text)
    ensures Fits(text, u)
  {
    var units := SourceUnitsOf(text);
    SourceUnitsDivide(text);
    var i :| 0 <= i < |units| && units[i] == u;
    DividedInOrder(ReadingOf(text), units, 0, |text|, i, i);
  }

  /** `confirmation_clauses` drops a number at the start of a unit and moves the start along:
      whatever it drops, its assertion that the slice is the text holds. */
  lemma {:induction false} NumberDropped(text: string, u: Unit, number: nat)
    requires u in SourceUnitsOf(text) && number <= |u.text|
    ensures u.start + number <= u.end <= |text| && text[u.start + number..u.end] == u.text[number..]
  {
    UnitFits(text, u);
    DropNumber(text, u, number);
  }

  lemma {:induction false} DropNumber(text: string, u: Unit, number: nat)
    requires Fits(text, u) && number <= |u.text|
    ensures u.start + number <= u.end <= |text| && text[u.start + number..u.end] == u.text[number..]
  {
    SliceOfSlice(text, u.start, u.end, number, |u.text|);
    assert u.text[number..] == u.text[number..|u.text|];
  }
}

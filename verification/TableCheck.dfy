/** Whether a chunk's tables name their columns (`table_context_complete` in
    `src/zhiqing_rag/query_answering/providers.py`), and how its verdict on a printed table
    relates to where the chunker looks for the column names. */
module TableCheck {
  import opened TableText
  import opened Text
  import opened TextSplitting

  // ----- the check

  predicate Dashed(cell: string) {
    var start := if cell != "" && cell[0] == ':' then 1 else 0;
    var end := if |cell| > start && cell[|cell| - 1] == ':' then |cell| - 1 else |cell|;
    end - start >= 3 && forall i | start <= i < end :: cell[i] == '-'
  }

  predicate IsSeparator(row: Option<Cells>) {
    row.Some? && |row.value| >= 2 && forall cell | cell in row.value :: Dashed(cell)
  }

  /** How many cells of a row that was read hold something. */
  function Held(cells: Cells): nat {
    if cells == [] then 0 else (if cells[0] != "" then 1 else 0) + Held(cells[1..])
  }

  function HeldCells(cells: Cells): Cells {
    if cells == [] then [] else (if cells[0] != "" then [cells[0]] else []) + HeldCells(cells[1..])
  }

  const KEYWORDS: set<string> := {"使用方式", "使用说明", "说明", "备注", "提示"}

  predicate StartsWith(text: string, start: string) {
    |start| <= |text| && text[..|start|] == start
  }

  predicate ColonNext(text: string) {
    text != "" && (text[0] == ':' || text[0] == '：')
  }

  /** A keyword, white space, a colon. */
  predicate Instruction(text: string) {
    exists word | word in KEYWORDS :: StartsWith(text, word) && ColonNext(TrimLeft(text[|word|..], IsSpace))
  }

  /** A run of table rows between lines that are not. */
  predicate IsBlock(rows: seq<Option<Cells>>, a: nat, b: nat) {
    && a < b <= |rows| && (forall i | a <= i < b :: rows[i].Some?)
    && (a == 0 || rows[a - 1].None?) && (b == |rows| || rows[b].None?)
  }

  /** A block of several columns has a separator somewhere. */
  predicate BlockFine(rows: seq<Option<Cells>>, a: nat, b: nat)
    requires IsBlock(rows, a, b)
  {
    (exists i | a <= i < b :: |rows[i].value| >= 2) ==> exists i | a <= i < b :: IsSeparator(rows[i])
  }

  /** The rows of a table from `k` on, before `end`; None if one of them has another width. */
  function TableRows(rows: seq<Option<Cells>>, k: nat, end: int, width: nat): Option<seq<Cells>>
    decreases |rows| - k
  {
    if k >= end || k >= |rows| || rows[k].None? then Some([])
    else if |rows[k].value| != width then None
    else Prepend([rows[k].value], TableRows(rows, k + 1, end, width))
  }

  function Prepend(before: seq<Cells>, rest: Option<seq<Cells>>): Option<seq<Cells>> {
    if rest.None? then None else Some(before + rest.value)
  }

  lemma {:induction false} PrependTwice(before: seq<Cells>, row: Cells, rest: Option<seq<Cells>>)
    ensures Prepend(before, Prepend([row], rest)) == Prepend(before + [row], rest)
    ensures Prepend([], rest) == rest
  {
    if rest.Some? {
      assert before + ([row] + rest.value) == (before + [row]) + rest.value;
      assert [] + rest.value == rest.value;
    }
  }

  predicate NamesColumns(table: seq<Cells>, index: nat)
    requires index < |table|
  {
    (forall i | 0 <= i < index :: Held(table[i]) <= 1) && Held(table[index]) == |table[index]|
  }

  /** A sparse preface: an instruction in the second row, and column names soon after. */
  predicate SparsePreface(table: seq<Cells>) {
    && |table| >= 4 && Instruction(JoinWith(HeldCells(table[1]), " "))
    && exists index | 2 <= index < 5 && index < |table| - 1 :: NamesColumns(table, index)
  }

  /** The table of the separator at `index`; the next table's header is at `end`. */
  predicate TableFine(rows: seq<Option<Cells>>, index: nat, end: int)
    requires index < |rows| && IsSeparator(rows[index])
  {
    && index > 0 && rows[index - 1].Some? && |rows[index - 1].value| == |rows[index].value|
    && var header := rows[index - 1].value;
       (Held(header) >= 2 ||
         match TableRows(rows, index + 1, end, |header|)
         case None => false
         case Some(rest) => SparsePreface([header] + rest))
  }

  function SeparatorRows(rows: seq<Option<Cells>>, k: nat): (found: seq<nat>)
    requires k <= |rows|
    ensures forall p | 0 <= p < |found| :: found[p] < k && IsSeparator(rows[found[p]])
  {
    if k == 0 then [] else SeparatorRows(rows, k - 1) + if IsSeparator(rows[k - 1]) then [k - 1] else []
  }

  function EndOf(rows: seq<Option<Cells>>, found: seq<nat>, position: nat): int {
    if position + 1 < |found| then found[position + 1] - 1 else |rows|
  }

  predicate Complete(rows: seq<Option<Cells>>) {
    && (forall a, b | 0 <= a < b <= |rows| && IsBlock(rows, a, b) :: BlockFine(rows, a, b))
    && var found := SeparatorRows(rows, |rows|);
       forall p | 0 <= p < |found| :: TableFine(rows, found[p], EndOf(rows, found, p))
  }

  /** The running block of the first loop. */
  predicate Running(rows: seq<Option<Cells>>, start: nat, k: nat) {
    && start <= k <= |rows| && (start == 0 || rows[start - 1].None?)
    && forall i | start <= i < k :: rows[i].Some?
  }

  lemma {:induction false} BlockEnds(rows: seq<Option<Cells>>, start: nat, k: nat, a: nat, b: nat)
    requires Running(rows, start, k) && IsBlock(rows, a, b) && b == k
    ensures a == start
  {
  }

  /** The first loop: every block of several columns has a separator. */
  method BlocksFine(rows: seq<Option<Cells>>) returns (fine: bool)
    ensures fine <==> forall a, b | 0 <= a < b <= |rows| && IsBlock(rows, a, b) :: BlockFine(rows, a, b)
  {
    var several, separated := false, false;
    var start := 0;
    for k := 0 to |rows| + 1
      invariant Running(rows, start, if k <= |rows| then k else |rows|)
      invariant k <= |rows| ==> (several <==> exists i | start <= i < k :: |rows[i].value| >= 2)
      invariant k <= |rows| ==> (separated <==> exists i | start <= i < k :: IsSeparator(rows[i]))
      invariant forall a, b | 0 <= a < b < k && IsBlock(rows, a, b) :: BlockFine(rows, a, b)
    {
      if k == |rows| || rows[k].None? {
        forall a, b | 0 <= a < b < k + 1 && IsBlock(rows, a, b) && b == k
          ensures a == start
        {
          BlockEnds(rows, start, k, a, b);
        }
        if several && !separated {
          assert IsBlock(rows, start, k);
          assert !BlockFine(rows, start, k);
          return false;
        }
        if k < |rows| {
          several, separated, start := false, false, k + 1;
        }
      } else {
        several := several || |rows[k].value| >= 2;
        separated := separated || IsSeparator(rows[k]);
      }
    }
    return true;
  }

  /** The second loop's look at one table. */
  method CheckTable(rows: seq<Option<Cells>>, index: nat, end: int) returns (fine: bool)
    requires index < |rows| && IsSeparator(rows[index]) && end <= |rows|
    ensures fine <==> TableFine(rows, index, end)
  {
    if index == 0 || rows[index - 1].None? || |rows[index - 1].value| != |rows[index].value| {
      return false;
    }
    var header := rows[index - 1].value;
    if Held(header) >= 2 {
      return true;
    }
    var rest: seq<Cells>, k := [], index + 1;
    PrependTwice([], [], TableRows(rows, k, end, |header|));
    while k < end && rows[k].Some?
      invariant index < k <= |rows|
      invariant TableRows(rows, index + 1, end, |header|) == Prepend(rest, TableRows(rows, k, end, |header|))
    {
      PrependTwice(rest, rows[k].value, TableRows(rows, k + 1, end, |header|));
      if |rows[k].value| != |header| {
        return false;
      }
      rest := rest + [rows[k].value];
      k := k + 1;
    }
    var table := [header] + rest;
    assert rest + [] == rest;
    return SparsePreface(table);
  }

  /** `table_context_complete`. */
  method TableContextComplete(content: string) returns (complete: bool)
    ensures complete <==> Complete(ReadRows(content))
  {
    var rows := ReadRows(content);
    var fine := BlocksFine(rows);
    if !fine {
      return false;
    }
    var found := SeparatorRows(rows, |rows|);
    for p := 0 to |found|
      invariant forall i | 0 <= i < p :: TableFine(rows, found[i], EndOf(rows, found, i))
    {
      var good := CheckTable(rows, found[p], EndOf(rows, found, p));
      if !good {
        return false;
      }
    }
    return true;
  }
}

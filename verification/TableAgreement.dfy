/** The chunker prints tables and picks their header row; the answering side reads them back
    and decides whether their columns are named. Where the two agree, and where they do not. */
module TableAgreement {
  import opened Chunking
  import opened TableCheck
  import opened TableText
  import opened Text
  import opened TextSplitting

  /** A sheet's table as the cleaning leaves it: of one width, and no row looks like a separator. */
  predicate SheetTable(rows: seq<Row>) {
    && |rows| >= 2 && |rows[0]| >= 2
    && forall i | 0 <= i < |rows| ::
         |rows[i]| == |rows[0]| && CleanRow(rows[i]) && !IsSeparator(Some(EscapeCells(rows[i])))
  }

  function Escaped(rows: seq<Row>): (read: seq<Cells>)
    ensures |read| == |rows| && forall i | 0 <= i < |rows| :: read[i] == EscapeCells(rows[i])
  {
    seq(|rows|, i requires 0 <= i < |rows| => EscapeCells(rows[i]))
  }

  // ----- the printed table is one block with one separator

  /** The shape of what is read: a header, a separator, and rows of the same width. */
  predicate OneTable(read: seq<Option<Cells>>) {
    && |read| >= 3 && read[0].Some?
    && (forall i | 0 <= i < |read| :: read[i].Some? && |read[i].value| == |read[0].value|)
    && forall i | 0 <= i < |read| :: IsSeparator(read[i]) <==> i == 1
  }

  /** What is read at `i` of a printed sheet. */
  lemma {:induction false} PrintedRow(rows: seq<Row>, i: nat)
    requires SheetTable(rows) && i <= |rows|
    ensures |Expected(rows)| == |rows| + 1
    ensures var row := Expected(rows)[i]; row.Some? && |row.value| == |rows[0]| && (IsSeparator(row) <==> i == 1)
    ensures i != 1 ==> Expected(rows)[i] == Some(Escaped(rows)[if i == 0 then 0 else i - 1])
  {
    if i == 1 {
      DashesArePrintable(|rows[0]|);
      assert Dashed("---");
    } else {
      var k := if i == 0 then 0 else i - 1;
      assert Expected(rows)[i] == Some(EscapeCells(rows[k]));
      assert CleanRow(rows[k]);
      EscapedRow(rows[k]);
    }
  }

  lemma {:induction false} PrintedIsOneTable(rows: seq<Row>)
    requires SheetTable(rows)
    ensures OneTable(Expected(rows))
    ensures |Expected(rows)| == |rows| + 1 && Expected(rows)[0] == Some(Escaped(rows)[0])
    ensures forall i | 1 <= i < |rows| :: Expected(rows)[i + 1] == Some(Escaped(rows)[i])
  {
    var read := Expected(rows);
    PrintedRow(rows, 0);
    forall i | 0 <= i < |read|
      ensures read[i].Some? && |read[i].value| == |read[0].value| && (IsSeparator(read[i]) <==> i == 1)
    {
      PrintedRow(rows, i);
    }
    forall i | 1 <= i < |rows|
      ensures read[i + 1] == Some(Escaped(rows)[i])
    {
      PrintedRow(rows, i + 1);
    }
  }

  lemma {:induction false} OneSeparator(read: seq<Option<Cells>>, k: nat)
    requires OneTable(read) && k <= |read|
    ensures SeparatorRows(read, k) == if k <= 1 then [] else [1]
  {
    if k > 0 {
      OneSeparator(read, k - 1);
    }
  }

  lemma {:induction false} RestOfTable(read: seq<Option<Cells>>, k: nat)
    requires OneTable(read) && k <= |read|
    ensures var rest := TableRows(read, k, |read|, |read[0].value|);
            rest.Some? && |rest.value| == |read| - k && forall i | 0 <= i < |read| - k ::
                Some(rest.value[i]) == read[k + i]
    decreases |read| - k
  {
    if k < |read| {
      RestOfTable(read, k + 1);
      var rest := TableRows(read, k, |read|, |read[0].value|).value;
      forall i | 0 <= i < |read| - k
        ensures Some(rest[i]) == read[k + i]
      {
        if i > 0 {
          assert rest[i] == TableRows(read, k + 1, |read|, |read[0].value|).value[i - 1];
        }
      }
    }
  }

  /** What follows the separator is read as the other rows. */
  lemma {:induction false} RowsOfTable(read: seq<Option<Cells>>, table: seq<Cells>)
    requires OneTable(read) && |table| == |read| - 1 && read[0] == Some(table[0])
    requires forall i | 1 <= i < |table| :: read[i + 1] == Some(table[i])
    ensures TableRows(read, 2, |read|, |table[0]|) == Some(table[1..])
  {
    RestOfTable(read, 2);
    var rest := TableRows(read, 2, |read|, |table[0]|).value;
    forall i | 0 <= i < |rest|
      ensures rest[i] == table[1..][i]
    {
      assert Some(rest[i]) == read[2 + i] == read[(i + 1) + 1];
    }
    assert rest == table[1..];
  }

  lemma {:induction false} OneBlock(read: seq<Option<Cells>>, a: nat, b: nat)
    requires OneTable(read) && IsBlock(read, a, b)
    ensures BlockFine(read, a, b)
  {
    assert a == 0 && b == |read|;
    assert IsSeparator(read[1]);
  }

  /** The one block is fine, so all depends on the one separator. */
  lemma {:induction false} OneTableDecides(read: seq<Option<Cells>>)
    requires OneTable(read)
    ensures IsSeparator(read[1]) && (Complete(read) <==> TableFine(read, 1, |read|))
  {
    forall a, b | 0 <= a < b <= |read| && IsBlock(read, a, b)
      ensures BlockFine(read, a, b)
    {
      OneBlock(read, a, b);
    }
    OneSeparator(read, |read|);
    var found := SeparatorRows(read, |read|);
    assert found == [1] && EndOf(read, found, 0) == |read|;
  }

  lemma {:induction false} OneTableVerdict(read: seq<Option<Cells>>, table: seq<Cells>)
    requires OneTable(read) && |table| == |read| - 1 && read[0] == Some(table[0])
    requires forall i | 1 <= i < |table| :: read[i + 1] == Some(table[i])
    ensures Complete(read) <==> Held(table[0]) >= 2 || SparsePreface(table)
  {
    OneTableDecides(read);
    RowsOfTable(read, table);
    assert [table[0]] + table[1..] == table;
  }

  // ----- counting values is the same on both sides

  lemma {:induction false} EscapedCellHeld(cell: string)
    requires Clean(cell)
    ensures EscapeCell(cell) != "" <==> Strip(cell) != ""
  {
    EscapedStaysStripped(cell);
  }

  lemma {:induction false} HeldIsFilled(row: Row)
    requires forall cell | cell in row :: Clean(cell)
    ensures Held(EscapeCells(row)) == Filled(row)
    ensures HeldCells(EscapeCells(row)) == EscapeCells(FilledCells(row))
  {
    if row != [] {
      EscapedCellHeld(row[0]);
      HeldIsFilled(row[1..]);
      assert EscapeCells(row)[1..] == EscapeCells(row[1..]);
      if Strip(row[0]) != "" {
        var filled := [row[0]] + FilledCells(row[1..]);
        assert filled[1..] == FilledCells(row[1..]);
        assert FilledCells(row) == filled
            && EscapeCells(filled) == [EscapeCell(row[0])] + EscapeCells(FilledCells(row[1..]));
      } else {
        assert FilledCells(row) == FilledCells(row[1..]);
      }
    }
  }

  lemma {:induction false} EscapeJoin(cells: Cells)
    ensures JoinWith(EscapeCells(cells), " ") == EscapeCell(JoinWith(cells, " "))
  {
    if |cells| == 1 {
      assert EscapeCells(cells) == [EscapeCell(cells[0])] + EscapeCells(cells[1..]);
    } else if |cells| > 1 {
      EscapeJoin(cells[1..]);
      var rest := JoinWith(cells[1..], " ");
      EscapeAppend(cells[0] + " ", rest);
      EscapeAppend(cells[0], " ");
      EscapeSingle(' ');
      assert EscapeCells(cells)[1..] == EscapeCells(cells[1..]);
      assert |EscapeCells(cells[1..])| > 0 by {
        assert EscapeCells(cells[1..]) == [EscapeCell(cells[1])] + EscapeCells(cells[1..][1..]);
      }
    }
  }

  // ----- the instruction, before and after escaping

  predicate SpaceOnLine(c: char) {
    IsSpace(c) && c != '\n'
  }

  /** A keyword, white space without a line feed, a colon. */
  predicate PlainInstruction(text: string) {
    exists word | word in KEYWORDS :: StartsWith(text, word) && ColonNext(TrimLeft(text[|word|..], SpaceOnLine))
  }

  lemma {:induction false} ColonAfterEscape(text: string)
    ensures ColonNext(TrimLeft(EscapeCell(text), IsSpace)) <==> ColonNext(TrimLeft(text, SpaceOnLine))
  {
    if text != "" {
      EscapeFirst(text);
      ColonAfterEscape(text[1..]);
      var first := EscapeOne(text[0]);
      if first == [text[0]] {
        assert EscapeCell(text)[1..] == EscapeCell(text[1..]);
      } else {
        assert EscapeCell(text)[0] == first[0];
      }
    }
  }

  predicate Unescaped(word: string) {
    forall c | c in word :: c != '|' && c != '\n' && c != '\\' && c != '<'
  }

  lemma {:induction false} StartAfterEscape(text: string, word: string)
    requires Unescaped(word)
    ensures StartsWith(EscapeCell(text), word) <==> StartsWith(text, word)
    ensures StartsWith(text, word) ==> EscapeCell(text)[|word|..] == EscapeCell(text[|word|..])
  {
    if word == "" {
      assert text[0..] == text && EscapeCell(text)[0..] == EscapeCell(text);
    } else if text != "" {
      EscapeFirst(text);
      assert word[0] in word && forall c | c in word[1..] :: c in word;
      var escaped := EscapeCell(text);
      if text[0] == word[0] {
        StartAfterEscape(text[1..], word[1..]);
        assert escaped == [text[0]] + EscapeCell(text[1..]);
        StartsAfterOne(text, word);
        StartsAfterOne(escaped, word);
        assert escaped[1..] == EscapeCell(text[1..]);
        if StartsWith(text, word) {
          assert text[|word|..] == text[1..][|word[1..]|..];
          assert escaped[|word|..] == escaped[1..][|word[1..]|..];
        }
      } else {
        assert escaped[0] == EscapeOne(text[0])[0];
        DiffersAtOnce(text, word);
        DiffersAtOnce(escaped, word);
      }
    }
  }

  lemma {:induction false} StartsAfterOne(text: string, word: string)
    requires text != "" && word != "" && text[0] == word[0]
    ensures StartsWith(text, word) <==> StartsWith(text[1..], word[1..])
  {
    if StartsWith(text, word) {
      assert text[1..][..|word| - 1] == text[..|word|][1..];
    }
    if StartsWith(text[1..], word[1..]) {
      assert text[..|word|] == [text[0]] + text[1..][..|word| - 1];
      assert word == [word[0]] + word[1..];
    }
  }

  lemma {:induction false} DiffersAtOnce(text: string, word: string)
    requires text != "" && word != "" && text[0] != word[0]
    ensures !StartsWith(text, word)
  {
    if |word| <= |text| {
      assert text[..|word|][0] != word[0];
    }
  }

  lemma {:induction false} KeywordsAreUnescaped()
    ensures forall word | word in KEYWORDS :: Unescaped(word)
  {
  }

  /** Escaped, an instruction is recognised exactly if there is no line feed before its colon. */
  lemma {:induction false} EscapedInstruction(text: string)
    ensures Instruction(EscapeCell(text)) <==> PlainInstruction(text)
  {
    KeywordsAreUnescaped();
    forall word | word in KEYWORDS
      ensures StartsWith(EscapeCell(text), word) <==> StartsWith(text, word)
      ensures StartsWith(text, word) ==>
        (ColonNext(TrimLeft(EscapeCell(text)[|word|..], IsSpace)) <==> ColonNext(TrimLeft(text[|word|..], SpaceOnLine)))
    {
      StartAfterEscape(text, word);
      if StartsWith(text, word) {
        ColonAfterEscape(text[|word|..]);
      }
    }
  }

  lemma {:induction false} PlainColon(text: string)
    ensures ColonNext(TrimLeft(text, SpaceOnLine)) ==> ColonNext(TrimLeft(text, IsSpace))
  {
    if text != "" {
      PlainColon(text[1..]);
    }
  }

  lemma {:induction false} PlainIsInstruction(text: string)
    ensures PlainInstruction(text) ==> Instruction(text)
  {
    if PlainInstruction(text) {
      var word :| word in KEYWORDS && StartsWith(text, word) && ColonNext(TrimLeft(text[|word|..], SpaceOnLine));
      PlainColon(text[|word|..]);
    }
  }

  // ----- the verdicts

  function InstructionOf(rows: seq<Row>): string
    requires |rows| >= 2
  {
    JoinWith(FilledCells(rows[1]), " ")
  }

  lemma {:induction false} SameCounts(rows: seq<Row>, i: nat)
    requires SheetTable(rows) && i < |rows|
    ensures Held(Escaped(rows)[i]) == Filled(rows[i]) && |Escaped(rows)[i]| == |rows[i]|
  {
    assert CleanRow(rows[i]);
    HeldIsFilled(rows[i]);
    EscapedRow(rows[i]);
  }

  lemma {:induction false} SameHeaders(rows: seq<Row>, index: nat)
    requires SheetTable(rows) && index < |rows|
    ensures NamesColumns(Escaped(rows), index) <==> NamesEveryColumn(rows, index)
  {
    var table := Escaped(rows);
    forall i | 0 <= i < |rows|
      ensures Held(table[i]) == Filled(rows[i]) && |table[i]| == |rows[i]|
    {
      SameCounts(rows, i);
    }
  }

  lemma {:induction false} SameInstruction(rows: seq<Row>)
    requires SheetTable(rows)
    ensures Instruction(JoinWith(HeldCells(Escaped(rows)[1]), " ")) <==> PlainInstruction(InstructionOf(rows))
  {
    assert CleanRow(rows[1]);
    HeldIsFilled(rows[1]);
    EscapeJoin(FilledCells(rows[1]));
    EscapedInstruction(InstructionOf(rows));
  }

  lemma {:induction false} PrefaceIsHeader(rows: seq<Row>)
    requires SheetTable(rows)
    ensures SparsePreface(Escaped(rows)) <==>
            |rows| >= 4 && PlainInstruction(InstructionOf(rows)) && FirstHeader(rows, 2) > 0
  {
    SameInstruction(rows);
    forall index | 2 <= index < 5 && index < |rows| - 1
      ensures NamesColumns(Escaped(rows), index) <==> NamesEveryColumn(rows, index)
    {
      SameHeaders(rows, index);
    }
  }

  lemma {:induction false} SheetIsRead(rows: seq<Row>)
    requires SheetTable(rows)
    ensures Complete(Expected(rows)) <==> Filled(rows[0]) >= 2 || SparsePreface(Escaped(rows))
  {
    PrintedIsOneTable(rows);
    OneTableVerdict(Expected(rows), Escaped(rows));
    assert CleanRow(rows[0]);
    HeldIsFilled(rows[0]);
  }

  /** A sheet's table printed whole is accepted exactly if its first row names two columns, or
      the chunker finds its column names further down and no line feed stands between the
      instruction's keyword and its colon. */
  lemma {:induction false} WholeTableVerdict(e: Element)
    requires e.onSheet && SheetTable(e.rows)
    ensures Complete(ReadRows(TableMarkdown(e.rows))) <==>
      Filled(e.rows[0]) >= 2 || (HeaderIndex(Instruction, e) > 0 && PlainInstruction(InstructionOf(e.rows)))
  {
    var rows := e.rows;
    TableReads(rows);
    SheetIsRead(rows);
    PrefaceIsHeader(rows);
    PlainIsInstruction(InstructionOf(rows));
  }

  /** Rows printed under a header that names two columns are accepted: so is every group that
      the chunker cuts from a table whose column names it found. */
  lemma {:induction false} GroupVerdict(rows: seq<Row>, header: nat, g: Group)
    requires SheetTable(rows) && header < g.first < g.last <= |rows| && Filled(rows[header]) >= 2
    ensures Complete(ReadRows(GroupText(rows, header, "", g)))
  {
    var printed := [rows[header]] + rows[g.first..g.last];
    forall i | 0 <= i < |printed|
      ensures |printed[i]| == |printed[0]| && CleanRow(printed[i]) && !IsSeparator(Some(EscapeCells(printed[i])))
    {
      var k := if i == 0 then header else g.first + i - 1;
      assert printed[i] == rows[k];
    }
    assert "" + TableMarkdown(printed) == TableMarkdown(printed);
    TableReads(printed);
    PrintedIsOneTable(printed);
    OneTableVerdict(Expected(printed), Escaped(printed));
    assert CleanRow(printed[0]);
    HeldIsFilled(printed[0]);
  }

  /** With column names further down every group is accepted. */
  lemma {:induction false} FoundHeaderNamesColumns(e: Element)
    requires SheetTable(e.rows) && HeaderIndex(Instruction, e) > 0
    ensures Filled(e.rows[HeaderIndex(Instruction, e)]) >= 2
  {
  }

  /** A table whose instruction is broken over two lines. */
  const BROKEN: seq<Row> := [["表", ""], ["说明\n：填", ""], ["甲", "乙"], ["1", "2"]]

  lemma {:induction false} BrokenIsSheetTable()
    ensures SheetTable(BROKEN)
  {
    forall cell | cell in ["表", "", "说明\n：填", "甲", "乙", "1", "2"]
      ensures Clean(cell)
    {
      TrimmedIsStripped(cell);
    }
    forall i | 0 <= i < |BROKEN|
      ensures !IsSeparator(Some(EscapeCells(BROKEN[i])))
    {
      NotDashed(BROKEN[i]);
    }
  }

  lemma {:induction false} OneFilledCell(text: string)
    requires Strip(text) == text != ""
    ensures FilledCells([text, ""]) == [text] && Filled([text, ""]) == 1
  {
    FilledPair(text, "");
    assert [text, ""][1..] == [""] && [""][1..] == [];
    assert FilledCells([""]) == [];
  }

  lemma {:induction false} BrokenReads()
    ensures InstructionOf(BROKEN) == "说明\n：填" && FirstHeader(BROKEN, 2) == 2 && Filled(BROKEN[0]) == 1
  {
    TrimmedIsStripped("表");
    TrimmedIsStripped("说明\n：填");
    TrimmedIsStripped("甲");
    TrimmedIsStripped("乙");
    OneFilledCell("表");
    OneFilledCell("说明\n：填");
    FilledPair("甲", "乙");
    assert NamesEveryColumn(BROKEN, 2) by {
      assert BROKEN[0] == ["表", ""] && BROKEN[1] == ["说明\n：填", ""] && BROKEN[2] == ["甲", "乙"];
    }
  }

  lemma {:induction false} BrokenIsNotPlain()
    ensures Instruction("说明\n：填") && !PlainInstruction("说明\n：填")
  {
    var text := "说明\n：填";
    assert text[2..] == "\n：填" && "\n：填"[1..] == "：填";
    assert TrimLeft("\n：填", IsSpace) == "：填";
    assert StartsWith(text, "说明");
    forall word | word in KEYWORDS && StartsWith(text, word)
      ensures word == "说明"
    {
      assert text[..|word|] == word;
      assert word[0] == '说';
    }
  }

  /** Such a line feed does occur: the chunker sees the column names, the reader does not. */
  lemma {:induction false} BrokenInstruction(e: Element)
    requires e.onSheet && e.rows == BROKEN
    ensures SheetTable(e.rows) && HeaderIndex(Instruction, e) == 2
    ensures !Complete(ReadRows(TableMarkdown(e.rows)))
  {
    BrokenIsSheetTable();
    BrokenReads();
    BrokenIsNotPlain();
    WholeTableVerdict(e);
  }

  lemma {:induction false} FilledPair(a: string, b: string)
    ensures Filled([a, b]) == (if Strip(a) != "" then 1 else 0) + (if Strip(b) != "" then 1 else 0)
  {
    assert [a, b][1..] == [b] && [b][1..] == [];
    assert Filled([b]) == (if Strip(b) != "" then 1 else 0) + Filled([]);
  }

  /** A row whose first cell does not begin like dashes is not a separator. */
  lemma {:induction false} NotDashed(row: Row)
    requires row != [] && row[0] != "" && row[0][0] != '-' && row[0][0] != ':'
    ensures !IsSeparator(Some(EscapeCells(row)))
  {
    EscapeFirst(row[0]);
    var cell := EscapeCell(row[0]);
    assert cell[0] != '-' && cell[0] != ':';
    assert EscapeCells(row)[0] == cell && cell in EscapeCells(row);
    assert !Dashed(cell);
  }
}

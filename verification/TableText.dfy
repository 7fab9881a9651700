/** Reading a printed Markdown table back: `cells` and `splitlines` in `table_context_complete`
    (`src/zhiqing_rag/query_answering/providers.py`) against `_table_markdown`
    (`src/zhiqing_rag/document_processing/chunking.py`), which shares no code with them. */
module TableText {
  import opened Chunking
  import opened Text
  import opened TextSplitting

  type Cells = seq<string>

  // ----- the reader

  /** The characters at which Python ends a line. */
  predicate LineEnd(c: char) {
    || '\n' <= c <= '\r' || '\U{1C}' <= c <= '\U{1E}' || c == '\U{85}' || c == '\U{2028}' || c == '\U{2029}'
  }

  function EndOfLine(text: string): (k: nat)
    ensures k <= |text| && (k < |text| ==> LineEnd(text[k]))
  {
    if text == "" || LineEnd(text[0]) then 0 else 1 + EndOfLine(text[1..])
  }

  /** `splitlines`. */
  function Lines(text: string): seq<string> {
    if text == "" then []
    else
      var k := EndOfLine(text);
      if k == |text| then [text]
      else if text[k] == '\r' && k + 1 < |text| && text[k + 1] == '\n' then [text[..k]] + Lines(text[k + 2..])
      else [text[..k]] + Lines(text[k + 1..])
  }

  /** The position of the first bar that is not escaped, the length if there is none;
      `escaping` says whether a backslash stands before the text. */
  function FirstBar(text: string, escaping: bool): (k: nat)
    ensures k <= |text| && (k < |text| ==> text[k] == '|')
  {
    if text == "" || (text[0] == '|' && !escaping) then 0 else 1 + FirstBar(text[1..], text[0] == '\\')
  }

  /** Splitting at every bar that is not escaped. */
  function SplitAtBars(text: string): Cells
    decreases |text|
  {
    var k := FirstBar(text, false);
    if k == |text| then [text] else [text[..k]] + SplitAtBars(text[k + 1..])
  }

  function StripEach(cells: Cells): Cells {
    if cells == [] then [] else [Strip(cells[0])] + StripEach(cells[1..])
  }

  /** The cells of a line, if it is a table row. */
  function ReadCells(line: string): Option<Cells> {
    var row := Strip(line);
    if row == "" || row[0] != '|' || row[|row| - 1] != '|' then None
    else Some(StripEach(SplitAtBars(if |row| < 2 then "" else row[1..|row| - 1])))
  }

  function ReadEach(lines: seq<string>): seq<Option<Cells>> {
    if lines == [] then [] else [ReadCells(lines[0])] + ReadEach(lines[1..])
  }

  function ReadRows(text: string): seq<Option<Cells>> {
    ReadEach(Lines(text))
  }

  // ----- what can be printed

  /** Every bar is escaped. */
  predicate Sealed(text: string, escaping: bool) {
    text == "" || ((text[0] == '|' ==> escaping) && Sealed(text[1..], text[0] == '\\'))
  }

  predicate OneLine(text: string) {
    forall c | c in text :: !LineEnd(c)
  }

  /** A cell that a row can hold and give back. */
  predicate Printable(cell: string) {
    Strip(cell) == cell && Sealed(cell, false) && OneLine(cell)
  }

  predicate AllPrintable(cells: Cells) {
    forall cell | cell in cells :: Printable(cell)
  }

  /** A cell as the cleaning leaves it: trimmed, and of all line ends only `\n`. */
  predicate Clean(cell: string) {
    Strip(cell) == cell && forall c | c in cell :: LineEnd(c) ==> c == '\n'
  }

  predicate CleanRow(row: Row) {
    row != [] && forall cell | cell in row :: Clean(cell)
  }

  // ----- escaping makes cells printable

  lemma {:induction false} BarsAreSealed(cell: string, escaping: bool)
    ensures Sealed(Replace(cell, '|', "\\|"), escaping)
  {
    if cell != "" {
      var rest := Replace(cell[1..], '|', "\\|");
      if cell[0] == '|' {
        BarsAreSealed(cell[1..], false);
        var escaped := "\\|" + rest;
        assert escaped[1..] == "|" + rest && escaped[1..][1..] == rest;
      } else {
        BarsAreSealed(cell[1..], cell[0] == '\\');
        assert ([cell[0]] + rest)[1..] == rest;
      }
    }
  }

  lemma {:induction false} BreaksStaySealed(text: string, escaping: bool)
    requires Sealed(text, escaping)
    ensures Sealed(Replace(text, '\n', "<br>"), escaping)
  {
    if text != "" {
      var rest := Replace(text[1..], '\n', "<br>");
      BreaksStaySealed(text[1..], text[0] == '\\');
      if text[0] == '\n' {
        var broken := "<br>" + rest;
        assert broken[1..] == "br>" + rest;
        assert broken[1..][1..] == "r>" + rest;
        assert broken[1..][1..][1..] == ">" + rest;
        assert broken[1..][1..][1..][1..] == rest;
        assert Sealed(broken[1..][1..][1..], false);
        assert Sealed(broken[1..][1..], false);
        assert Sealed(broken[1..], false);
      } else {
        assert ([text[0]] + rest)[1..] == rest;
      }
    }
  }

  /** The characters of a replaced text. */
  lemma {:induction false} ReplacedCharacters(text: string, c: char, replacement: string)
    ensures forall x | x in Replace(text, c, replacement) :: (x in text && x != c) || x in replacement
  {
    if text != "" {
      ReplacedCharacters(text[1..], c, replacement);
    }
  }

  lemma {:induction false} ReplaceAppend(a: string, b: string, c: char, replacement: string)
    ensures Replace(a + b, c, replacement) == Replace(a, c, replacement) + Replace(b, c, replacement)
  {
    if a == "" {
      assert a + b == b;
    } else {
      assert (a + b)[1..] == a[1..] + b;
      ReplaceAppend(a[1..], b, c, replacement);
    }
  }

  lemma {:induction false} EscapeAppend(a: string, b: string)
    ensures EscapeCell(a + b) == EscapeCell(a) + EscapeCell(b)
  {
    ReplaceAppend(a, b, '|', "\\|");
    ReplaceAppend(Replace(a, '|', "\\|"), Replace(b, '|', "\\|"), '\n', "<br>");
  }

  /** A single character escaped. */
  function EscapeOne(c: char): (s: string)
    ensures s != "" && (!IsSpace(c) ==> !IsSpace(s[0]) && !IsSpace(s[|s| - 1]))
  {
    if c == '|' then "\\|" else if c == '\n' then "<br>" else [c]
  }

  lemma {:induction false} EscapeSingle(c: char)
    ensures EscapeCell([c]) == EscapeOne(c)
  {
    assert [c][1..] == "";
    if c == '|' {
      assert Replace([c], '|', "\\|") == "\\|";
      assert "\\|"[1..] == "|" && "|"[1..] == "";
      assert Replace("|", '\n', "<br>") == "|";
    } else {
      assert Replace([c], '|', "\\|") == [c];
      assert Replace([c], '\n', "<br>") == EscapeOne(c);
    }
  }

  lemma {:induction false} EscapeFirst(cell: string)
    requires cell != ""
    ensures EscapeCell(cell) == EscapeOne(cell[0]) + EscapeCell(cell[1..])
  {
    assert cell == [cell[0]] + cell[1..];
    EscapeAppend([cell[0]], cell[1..]);
    EscapeSingle(cell[0]);
  }

  lemma {:induction false} EscapeLast(cell: string)
    requires cell != ""
    ensures var n := |cell| - 1; EscapeCell(cell) == EscapeCell(cell[..n]) + EscapeOne(cell[n])
  {
    var n := |cell| - 1;
    assert cell == cell[..n] + [cell[n]];
    EscapeAppend(cell[..n], [cell[n]]);
    EscapeSingle(cell[n]);
  }

  lemma {:induction false} EscapedStaysStripped(cell: string)
    requires Strip(cell) == cell
    ensures Strip(EscapeCell(cell)) == EscapeCell(cell)
    ensures EscapeCell(cell) == "" <==> cell == ""
  {
    TrimmedIsStripped(cell);
    if cell != "" {
      EscapeFirst(cell);
      EscapeLast(cell);
      TrimmedIsStripped(EscapeCell(cell));
    }
  }

  /** What the cleaning leaves can be printed once escaped. */
  lemma {:induction false} EscapedIsPrintable(cell: string)
    requires Clean(cell)
    ensures Printable(EscapeCell(cell))
  {
    var sealed := Replace(cell, '|', "\\|");
    BarsAreSealed(cell, false);
    BreaksStaySealed(sealed, false);
    EscapedStaysStripped(cell);
    ReplacedCharacters(cell, '|', "\\|");
    ReplacedCharacters(sealed, '\n', "<br>");
  }

  lemma {:induction false} EscapedRow(row: Row)
    requires forall cell | cell in row :: Clean(cell)
    ensures |EscapeCells(row)| == |row| && AllPrintable(EscapeCells(row))
    ensures forall i | 0 <= i < |row| :: EscapeCells(row)[i] == EscapeCell(row[i])
  {
    if row != [] {
      EscapedIsPrintable(row[0]);
      EscapedRow(row[1..]);
    }
  }

  // ----- a printed row reads as its cells

  /** What stands between the outer bars. */
  function Inner(cells: Cells): string {
    " " + JoinWith(cells, " | ") + " "
  }

  lemma {:induction false} InnerSplits(cells: Cells)
    requires |cells| > 1
    ensures Inner(cells) == (" " + cells[0] + " ") + ("|" + Inner(cells[1..]))
  {
  }

  lemma {:induction false} SealedHidesBars(text: string, escaping: bool, rest: string)
    requires Sealed(text, escaping) && (text == "" ==> !escaping) && (text != "" ==> text[|text| - 1] != '\\')
    ensures FirstBar(text, escaping) == |text|
    ensures FirstBar(text + ("|" + rest), escaping) == |text|
  {
    if text == "" {
      assert text + ("|" + rest) == "|" + rest;
    } else {
      assert (text + ("|" + rest))[1..] == text[1..] + ("|" + rest);
      SealedHidesBars(text[1..], text[0] == '\\', rest);
    }
  }

  lemma {:induction false} SealedAppend(text: string, escaping: bool)
    requires Sealed(text, escaping)
    ensures Sealed(text + " ", escaping)
  {
    if text != "" {
      assert (text + " ")[1..] == text[1..] + " ";
      SealedAppend(text[1..], text[0] == '\\');
    } else {
      assert text + " " == " " && " "[1..] == "";
    }
  }

  lemma {:induction false} PaddedIsSealed(cell: string)
    requires Sealed(cell, false)
    ensures Sealed(" " + cell + " ", false)
  {
    SealedAppend(cell, false);
    assert (" " + cell + " ")[1..] == cell + " ";
  }

  lemma {:induction false} PaddedStrips(cell: string)
    requires Strip(cell) == cell
    ensures Strip(" " + cell + " ") == cell
  {
    TrimmedIsStripped(cell);
    var padded := " " + cell + " ";
    assert padded[1..] == cell + " ";
    if cell == "" {
      assert padded[1..] == " " && " "[1..] == "";
      assert TrimLeft(padded, IsSpace) == TrimLeft(padded[1..], IsSpace) == TrimLeft("", IsSpace);
    } else {
      assert TrimLeft(padded, IsSpace) == TrimLeft(cell + " ", IsSpace) == cell + " ";
      assert (cell + " ")[..|cell|] == cell;
      assert TrimRight(cell + " ", IsSpace) == TrimRight(cell, IsSpace);
    }
  }

  lemma {:induction false} SplitsAtFirst(first: string, rest: string)
    requires Sealed(first, false) && first != "" && first[|first| - 1] != '\\'
    ensures SplitAtBars(first + ("|" + rest)) == [first] + SplitAtBars(rest)
  {
    SealedHidesBars(first, false, rest);
    var whole := first + ("|" + rest);
    assert whole[..|first|] == first && whole[|first| + 1..] == rest;
  }

  /** A padded cell in front of what reads as `others`. */
  lemma {:induction false} CellReads(cell: string, rest: string, others: Cells)
    requires Printable(cell) && StripEach(SplitAtBars(rest)) == others
    ensures StripEach(SplitAtBars((" " + cell + " ") + ("|" + rest))) == [cell] + others
  {
    var first := " " + cell + " ";
    PaddedIsSealed(cell);
    PaddedStrips(cell);
    SplitsAtFirst(first, rest);
    assert ([first] + SplitAtBars(rest))[1..] == SplitAtBars(rest);
  }

  lemma {:induction false} LastCellReads(cell: string)
    requires Printable(cell)
    ensures StripEach(SplitAtBars(" " + cell + " ")) == [cell]
  {
    var last := " " + cell + " ";
    PaddedIsSealed(cell);
    PaddedStrips(cell);
    SealedHidesBars(last, false, "");
    assert SplitAtBars(last) == [last] && [last][1..] == [];
  }

  lemma {:induction false} InnerReads(cells: Cells)
    requires cells != [] && AllPrintable(cells)
    ensures StripEach(SplitAtBars(Inner(cells))) == cells
  {
    assert Printable(cells[0]);
    if |cells| == 1 {
      LastCellReads(cells[0]);
      assert cells == [cells[0]];
    } else {
      InnerReads(cells[1..]);
      InnerSplits(cells);
      CellReads(cells[0], Inner(cells[1..]), cells[1..]);
      assert cells == [cells[0]] + cells[1..];
    }
  }

  /** Printing a row and reading it gives its cells. */
  lemma {:induction false} RowReads(cells: Cells)
    requires cells != [] && AllPrintable(cells)
    ensures ReadCells(RowLine(cells)) == Some(cells)
  {
    var line := RowLine(cells);
    assert line == "|" + Inner(cells) + "|";
    TrimmedIsStripped(line);
    assert line[1..|line| - 1] == Inner(cells);
    InnerReads(cells);
  }

  // ----- a printed table reads as its rows

  lemma {:induction false} LineStops(line: string, rest: string)
    requires OneLine(line)
    ensures EndOfLine(line) == |line| && EndOfLine(line + ("\n" + rest)) == |line|
  {
    if line == "" {
      assert line + ("\n" + rest) == "\n" + rest;
    } else {
      assert (line + ("\n" + rest))[1..] == line[1..] + ("\n" + rest);
      LineStops(line[1..], rest);
    }
  }

  lemma {:induction false} FirstLine(line: string, rest: string)
    requires OneLine(line)
    ensures Lines(line + ("\n" + rest)) == [line] + Lines(rest)
  {
    LineStops(line, rest);
    var whole := line + ("\n" + rest);
    assert whole[..|line|] == line && whole[|line| + 1..] == rest && whole[|line|] == '\n';
  }

  lemma {:induction false} LinesOfJoin(lines: seq<string>)
    requires forall line | line in lines :: line != "" && OneLine(line)
    ensures Lines(JoinWith(lines, "\n")) == lines
  {
    if lines == [] {
    } else if |lines| == 1 {
      LineStops(lines[0], "");
      assert lines == [lines[0]];
    } else {
      var rest := JoinWith(lines[1..], "\n");
      forall line | line in lines[1..]
        ensures line != "" && OneLine(line)
      {
        assert line in lines;
      }
      LinesOfJoin(lines[1..]);
      FirstLine(lines[0], rest);
      Regroup(lines[0], "\n", rest);
      assert lines == [lines[0]] + lines[1..];
    }
  }

  lemma {:induction false} JoinIsOneLine(cells: Cells, separator: string)
    requires (forall cell | cell in cells :: OneLine(cell)) && OneLine(separator)
    ensures OneLine(JoinWith(cells, separator))
  {
    if |cells| > 1 {
      JoinIsOneLine(cells[1..], separator);
      assert OneLine(cells[0]);
    } else if |cells| == 1 {
      assert OneLine(cells[0]);
    }
  }

  lemma {:induction false} RowIsOneLine(cells: Cells)
    requires AllPrintable(cells)
    ensures OneLine(RowLine(cells)) && RowLine(cells) != ""
  {
    forall cell | cell in cells
      ensures OneLine(cell)
    {
      assert Printable(cell);
    }
    JoinIsOneLine(cells, " | ");
  }

  lemma {:induction false} DashesArePrintable(columns: nat)
    ensures AllPrintable(Dashes(columns)) && |Dashes(columns)| == columns
    ensures forall cell | cell in Dashes(columns) :: cell == "---"
  {
    assert Printable("---") by {
      TrimmedIsStripped("---");
      assert "---"[1..] == "--" && "--"[1..] == "-" && "-"[1..] == "";
      assert Sealed("-", false) && Sealed("--", false);
    }
    if columns > 0 {
      DashesArePrintable(columns - 1);
    }
  }

  /** The rows as they should be read: the first, the separator, the others. */
  function Expected(rows: seq<Row>): seq<Option<Cells>> {
    var read := EscapedRows(rows);
    if |rows| > 1 then [read[0], Some(Dashes(|rows[0]|))] + read[1..] else read
  }

  function EscapedRows(rows: seq<Row>): (read: seq<Option<Cells>>)
    ensures |read| == |rows| && forall i | 0 <= i < |rows| :: read[i] == Some(EscapeCells(rows[i]))
  {
    if rows == [] then [] else [Some(EscapeCells(rows[0]))] + EscapedRows(rows[1..])
  }

  lemma {:induction false} RowLinesRead(rows: seq<Row>)
    requires forall row | row in rows :: CleanRow(row)
    ensures ReadEach(RowLines(rows)) == EscapedRows(rows)
    ensures forall line | line in RowLines(rows) :: line != "" && OneLine(line)
  {
    if rows != [] {
      assert CleanRow(rows[0]);
      EscapedRow(rows[0]);
      RowReads(EscapeCells(rows[0]));
      RowIsOneLine(EscapeCells(rows[0]));
      RowLinesRead(rows[1..]);
    }
  }

  lemma {:induction false} ReadTwo(first: string, second: string, rest: seq<string>)
    ensures ReadEach([first, second] + rest) == [ReadCells(first), ReadCells(second)] + ReadEach(rest)
  {
    var lines := [first, second] + rest;
    assert lines[1..] == [second] + rest && lines[1..][1..] == rest;
  }

  lemma {:induction false} DashesRead(columns: nat)
    requires columns > 0
    ensures ReadCells(RowLine(Dashes(columns))) == Some(Dashes(columns))
    ensures RowLine(Dashes(columns)) != "" && OneLine(RowLine(Dashes(columns)))
  {
    DashesArePrintable(columns);
    RowReads(Dashes(columns));
    RowIsOneLine(Dashes(columns));
  }

  /** Reading the printed Markdown of a clean table gives every cell, escaped, in its place. */
  lemma {:induction false} TableReads(rows: seq<Row>)
    requires rows != [] && forall row | row in rows :: CleanRow(row)
    ensures ReadRows(TableMarkdown(rows)) == Expected(rows)
  {
    RowLinesRead(rows);
    var lines := RowLines(rows);
    if |rows| > 1 {
      assert CleanRow(rows[0]);
      DashesRead(|rows[0]|);
      var dashes := RowLine(Dashes(|rows[0]|));
      ReadTwo(lines[0], dashes, lines[1..]);
      assert ReadEach(lines) == [ReadCells(lines[0])] + ReadEach(lines[1..]);
      assert ReadEach(lines[1..]) == EscapedRows(rows)[1..];
      TableIsOneLineEach(lines, dashes);
    }
    LinesOfJoin(TableLines(rows));
  }

  lemma {:induction false} TableIsOneLineEach(lines: seq<string>, dashes: string)
    requires lines != [] && (forall line | line in lines :: line != "" && OneLine(line))
             && dashes != "" && OneLine(dashes)
    ensures forall line | line in [lines[0], dashes] + lines[1..] :: line != "" && OneLine(line)
  {
    forall line | line in [lines[0], dashes] + lines[1..]
      ensures line != "" && OneLine(line)
    {
      assert line in lines || line == dashes;
    }
  }

  // ----- which tables do not read as their rows

  predicate Stripped(row: Row) {
    forall cell | cell in row :: Strip(cell) == cell
  }

  /** A text that ends in its line. */
  predicate Ended(text: string) {
    text != "" && !LineEnd(text[|text| - 1])
  }

  lemma {:induction false} EndOfLineIn(text: string, rest: string)
    ensures EndOfLine(text) < |text| ==> EndOfLine(text + rest) == EndOfLine(text)
    ensures EndOfLine(text) == |text| <==> OneLine(text)
  {
    if text != "" && !LineEnd(text[0]) {
      assert (text + rest)[1..] == text[1..] + rest;
      EndOfLineIn(text[1..], rest);
      assert forall c :: c in text <==> c == text[0] || c in text[1..];
    }
  }

  /** Where the next line begins. */
  function NextLine(text: string): (k: nat)
    ensures k <= |text| && (text != "" ==> 0 < k)
  {
    var k := EndOfLine(text);
    if k == |text| then k else if text[k] == '\r' && k + 1 < |text| && text[k + 1] == '\n' then k + 2 else k + 1
  }

  lemma {:induction false} LinesStep(text: string)
    requires text != ""
    ensures Lines(text) == [text[..EndOfLine(text)]] + Lines(text[NextLine(text)..])
  {
    var k := EndOfLine(text);
    if k == |text| {
      assert text[..k] == text && text[k..] == "";
    }
  }

  /** Lines of a text that ends in its line, and then others. */
  lemma {:induction false} LinesAppend(text: string, rest: string)
    requires Ended(text)
    ensures Lines(text + ("\n" + rest)) == Lines(text) + Lines(rest)
    decreases |text|
  {
    var k, more := EndOfLine(text), "\n" + rest;
    EndOfLineIn(text, more);
    if k == |text| {
      FirstLine(text, rest);
      LinesStep(text);
      assert text[k..] == "" && text[..k] == text;
    } else {
      var next := NextLine(text);
      assert next < |text|;
      assert (text + more)[..k] == text[..k] && (text + more)[next..] == text[next..] + more;
      assert NextLine(text + more) == next;
      LinesStep(text);
      LinesStep(text + more);
      LinesAppend(text[next..], rest);
      LinesRegroup([text[..k]], Lines(text[next..]), Lines(rest));
    }
  }

  lemma {:induction false} LinesRegroup(a: seq<string>, b: seq<string>, c: seq<string>)
    ensures a + (b + c) == (a + b) + c
  {
  }

  lemma {:induction false} OneLineExactly(text: string)
    requires Ended(text)
    ensures |Lines(text)| >= 1 && (|Lines(text)| == 1 <==> OneLine(text))
    decreases |text|
  {
    EndOfLineIn(text, "");
    if EndOfLine(text) < |text| {
      MoreLines(text);
    } else {
      LinesStep(text);
      assert text[|text|..] == "";
    }
  }

  lemma {:induction false} MoreLines(text: string)
    requires Ended(text) && EndOfLine(text) < |text|
    ensures |Lines(text)| >= 2
  {
    var rest := text[NextLine(text)..];
    LinesStep(text);
    assert rest != "" by {
      assert !LineEnd(text[|text| - 1]);
    }
    LinesStep(rest);
  }

  /** Joined lines read as that many lines exactly if none holds a line end. */
  lemma {:induction false} JoinedLinesExactly(lines: seq<string>)
    requires lines != [] && forall line | line in lines :: Ended(line)
    ensures var n := |Lines(JoinWith(lines, "\n"))|;
            n >= |lines| && (n == |lines| <==> forall line | line in lines :: OneLine(line))
  {
    var first, others := lines[0], lines[1..];
    assert Ended(first);
    OneLineExactly(first);
    assert lines == [first] + others;
    if others != [] {
      forall line | line in others
        ensures Ended(line)
      {
        assert line in lines;
      }
      JoinedLinesExactly(others);
      Regroup(first, "\n", JoinWith(others, "\n"));
      LinesAppend(first, JoinWith(others, "\n"));
    }
  }

  lemma {:induction false} JoinIsOneLineExactly(cells: Cells, separator: string)
    requires OneLine(separator)
    ensures OneLine(JoinWith(cells, separator)) <==> forall cell | cell in cells :: OneLine(cell)
  {
    if |cells| == 1 {
      assert cells == [cells[0]];
    } else if |cells| > 1 {
      var rest := JoinWith(cells[1..], separator);
      JoinIsOneLineExactly(cells[1..], separator);
      OneLineAppend(cells[0] + separator, rest);
      OneLineAppend(cells[0], separator);
      assert cells == [cells[0]] + cells[1..];
    }
  }

  lemma {:induction false} OneLineAppend(a: string, b: string)
    ensures OneLine(a + b) <==> OneLine(a) && OneLine(b)
  {
    assert forall c :: c in a + b <==> c in a || c in b;
  }

  /** Escaping leaves line ends alone, but for `\n`. */
  lemma {:induction false} EscapedIsOneLine(cell: string)
    ensures OneLine(EscapeCell(cell)) <==> forall c | c in cell :: LineEnd(c) ==> c == '\n'
  {
    if cell != "" {
      EscapeFirst(cell);
      EscapedIsOneLine(cell[1..]);
      OneLineAppend(EscapeOne(cell[0]), EscapeCell(cell[1..]));
      assert OneLine(EscapeOne(cell[0])) <==> (LineEnd(cell[0]) ==> cell[0] == '\n') by {
        assert cell[0] in [cell[0]];
      }
      assert forall c :: c in cell <==> c == cell[0] || c in cell[1..];
    }
  }

  lemma {:induction false} EscapedRowIsOneLine(row: Row)
    requires Stripped(row)
    ensures (forall cell | cell in EscapeCells(row) :: OneLine(cell)) <==> forall cell | cell in row :: Clean(cell)
  {
    if row != [] {
      var (first, others) := (EscapeCell(row[0]), EscapeCells(row[1..]));
      EscapedIsOneLine(row[0]);
      EscapedRowIsOneLine(row[1..]);
      assert row == [row[0]] + row[1..] && EscapeCells(row) == [first] + others;
      assert Strip(row[0]) == row[0];
      assert OneLine(first) <==> Clean(row[0]);
      assert (forall cell | cell in EscapeCells(row) :: OneLine(cell))
        <==> OneLine(first) && forall cell | cell in others :: OneLine(cell);
    }
  }

  /** A printed row is one line exactly if its cells are clean. */
  lemma {:induction false} RowIsOneLineExactly(row: Row)
    requires Stripped(row)
    ensures Ended(RowLine(EscapeCells(row)))
    ensures OneLine(RowLine(EscapeCells(row))) <==> forall cell | cell in row :: Clean(cell)
  {
    var cells := EscapeCells(row);
    EscapedRowIsOneLine(row);
    JoinIsOneLineExactly(cells, " | ");
    OneLineAppend("| " + JoinWith(cells, " | "), " |");
    OneLineAppend("| ", JoinWith(cells, " | "));
  }

  lemma {:induction false} RowLinesExactly(rows: seq<Row>)
    requires forall row | row in rows :: Stripped(row)
    ensures |RowLines(rows)| == |rows| && forall i | 0 <= i < |rows| ::
            RowLines(rows)[i] == RowLine(EscapeCells(rows[i]))
    ensures forall line | line in RowLines(rows) :: Ended(line)
    ensures (forall line | line in RowLines(rows) :: OneLine(line)) <==>
            forall row, cell | row in rows && cell in row :: Clean(cell)
  {
    if rows != [] {
      assert rows == [rows[0]] + rows[1..];
      RowIsOneLineExactly(rows[0]);
      RowLinesExactly(rows[1..]);
    }
  }

  lemma {:induction false} DashesAreOneLine(columns: nat)
    ensures OneLine(RowLine(Dashes(columns))) && Ended(RowLine(Dashes(columns)))
  {
    DashesArePrintable(columns);
    RowIsOneLine(Dashes(columns));
  }

  lemma {:induction false} TableLinesExactly(rows: seq<Row>)
    requires rows != [] && forall row | row in rows :: Stripped(row)
    ensures |TableLines(rows)| == |Expected(rows)| && forall line | line in TableLines(rows) :: Ended(line)
    ensures (forall line | line in TableLines(rows) :: OneLine(line)) <==>
            forall row, cell | row in rows && cell in row :: Clean(cell)
  {
    RowLinesExactly(rows);
    DashesAreOneLine(|rows[0]|);
    var lines := RowLines(rows);
    assert lines == [lines[0]] + lines[1..];
  }

  lemma {:induction false} ReadEachAt(lines: seq<string>)
    ensures |ReadEach(lines)| == |lines| && forall i | 0 <= i < |lines| :: ReadEach(lines)[i] == ReadCells(lines[i])
  {
    if lines != [] {
      ReadEachAt(lines[1..]);
    }
  }

  /** A row without cells reads as one with an empty cell. */
  lemma {:induction false} EmptyRowReads()
    ensures ReadCells(RowLine([])) == Some([""])
  {
    assert Printable("");
    RowReads([""]);
  }

  /** Where a row stands in its table. */
  function PlaceOf(rows: seq<Row>, i: nat): nat {
    if i > 0 then i + 1 else 0
  }

  lemma {:induction false} RowsInPlace(rows: seq<Row>, i: nat)
    requires i < |rows| && forall row | row in rows :: Stripped(row)
    ensures var at := PlaceOf(rows, i);
            && at < |TableLines(rows)| && TableLines(rows)[at] == RowLine(EscapeCells(rows[i]))
            && at < |Expected(rows)| && Expected(rows)[at] == Some(EscapeCells(rows[i]))
  {
    RowLinesExactly(rows);
  }

  lemma {:induction false} EmptyRowBreaks(rows: seq<Row>, i: nat)
    requires i < |rows| && rows[i] == [] && forall row | row in rows :: Stripped(row)
    ensures ReadEach(TableLines(rows)) != Expected(rows)
  {
    var at := PlaceOf(rows, i);
    EmptyRowReads();
    RowsInPlace(rows, i);
    ReadEachAt(TableLines(rows));
    assert Expected(rows)[at] == Some([]) != ReadEach(TableLines(rows))[at];
  }

  /** For cells without white space around them, the printed table reads as its rows if and only if
      every row has a cell and no cell holds a line end other than `\n`. */
  lemma {:induction false} TableReadsExactly(rows: seq<Row>)
    requires rows != [] && forall row | row in rows :: Stripped(row)
    ensures ReadRows(TableMarkdown(rows)) == Expected(rows) <==> forall row | row in rows :: CleanRow(row)
  {
    var lines := TableLines(rows);
    TableLinesExactly(rows);
    JoinedLinesExactly(lines);
    ReadEachAt(Lines(TableMarkdown(rows)));
    if forall row | row in rows :: CleanRow(row) {
      TableReads(rows);
    } else if forall row, cell | row in rows && cell in row :: Clean(cell) {
      var i :| 0 <= i < |rows| && rows[i] == [];
      EmptyRowBreaks(rows, i);
      LinesOfJoin(lines);
    } else {
      assert |ReadRows(TableMarkdown(rows))| > |Expected(rows)|;
    }
  }

  /** A cell that is printed as it is. */
  predicate Simple(cell: string) {
    Strip(cell) == cell && cell != "" && OneLine(cell) && '|' !in cell
  }

  /** What a row of two columns is read as whose second cell holds such a line end: two lines that
      are no rows. */
  lemma {:induction false} BrokenRow(a: string, b: string, end: char, c: string)
    requires Simple(a) && Simple(b) && Simple(c) && LineEnd(end) && end != '\n' && end != '\r'
    ensures ReadRows(TableMarkdown([[a, b + [end] + c]])) == [None, None]
  {
    var first, second := "| " + a + " | " + b, c + " |";
    PrintedPair(a, b + [end] + c);
    assert "| " + a + " | " + (b + [end] + c) + " |" == first + ([end] + second);
    TrimmedIsStripped(b);
    TrimmedIsStripped(c);
    NoRowBefore("| " + a + " | ", b);
    NoRowAfter(c, " |");
    ReadsAsNothing(first, end, second);
  }

  lemma {:induction false} NoRowBefore(start: string, b: string)
    requires start != "" && !IsSpace(start[0])
    requires b != "" && '|' !in b && OneLine(b) && !IsSpace(b[|b| - 1])
    ensures ReadCells(start + b) == None
  {
    var line := start + b;
    assert line[|line| - 1] == b[|b| - 1] && b[|b| - 1] in b;
    NoRow(line);
  }

  lemma {:induction false} NoRowAfter(c: string, end: string)
    requires end != "" && !LineEnd(end[|end| - 1]) && !IsSpace(end[|end| - 1])
    requires c != "" && '|' !in c && !IsSpace(c[0])
    ensures ReadCells(c + end) == None
  {
    var line := c + end;
    assert line[0] == c[0] && c[0] in c && line[|line| - 1] == end[|end| - 1];
    NoRow(line);
  }

  lemma {:induction false} RowLinesOfOne(row: Row)
    ensures TableLines([row]) == [RowLine(EscapeCells(row))]
  {
    assert [row][1..] == [];
    assert RowLines([row]) == [RowLine(EscapeCells(row))] + RowLines([row][1..]);
  }

  lemma {:induction false} PrintedPair(a: string, b: string)
    requires '|' !in a && '\n' !in a && '|' !in b && '\n' !in b
    ensures TableMarkdown([[a, b]]) == "| " + a + " | " + b + " |"
  {
    var row: Row := [a, b];
    EscapeClean(a);
    EscapeClean(b);
    assert row[1..] == [b] && [b][1..] == [];
    assert EscapeCells([b]) == [EscapeCell(b)] + EscapeCells([]);
    assert EscapeCells(row) == [EscapeCell(a)] + EscapeCells([b]);
    assert JoinWith([b], " | ") == b;
    assert EscapeCells(row) == row;
    RowLinesOfOne(row);
  }

  lemma {:induction false} ReadsAsNothing(first: string, end: char, second: string)
    requires OneLine(first) && OneLine(second) && second != ""
    requires LineEnd(end) && end != '\r' && ReadCells(first) == ReadCells(second) == None
    ensures ReadRows(first + ([end] + second)) == [None, None]
  {
    var text := first + ([end] + second);
    StopsAt(first, end, second);
    assert text[..|first|] == first && text[|first| + 1..] == second && text[|first|] == end;
    LineStops(second, "");
    assert Lines(text) == [first] + [second];
    ReadEachAt(Lines(text));
  }

  lemma {:induction false} EscapeClean(cell: string)
    requires '|' !in cell && '\n' !in cell
    ensures EscapeCell(cell) == cell
  {
    if cell != "" {
      EscapeFirst(cell);
      EscapeClean(cell[1..]);
    }
  }

  lemma {:induction false} NoRow(line: string)
    requires Ended(line) && !IsSpace(line[0]) && !IsSpace(line[|line| - 1])
    requires line[0] != '|' || line[|line| - 1] != '|'
    ensures ReadCells(line) == None
  {
    TrimmedIsStripped(line);
  }

  lemma {:induction false} StopsAt(line: string, end: char, rest: string)
    requires OneLine(line) && LineEnd(end)
    ensures EndOfLine(line + ([end] + rest)) == |line|
  {
    if line == "" {
      assert line + ([end] + rest) == [end] + rest;
    } else {
      assert (line + ([end] + rest))[1..] == line[1..] + ([end] + rest);
      StopsAt(line[1..], end, rest);
    }
  }
}

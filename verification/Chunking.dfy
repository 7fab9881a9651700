/** Turning parsed elements into indexed chunks: paragraphs gathered under their heading,
    tables grouped by rows under a repeated header, small chunks merged
    (`chunk_document` in `src/zhiqing_rag/document_processing/chunking.py`). */
module Chunking {
  import opened Text
  import opened TextSplitting

  datatype Kind = Heading | Paragraph | ListItem | Code | Table

  type Row = seq<string>

  datatype Element = Element(kind: Kind, text: string, headingPath: HeadingPath, page: Option<nat>,
      sourceRef: Option<string>,
                             rows: seq<Row>, caption: Option<string>, onSheet: bool)

  // ----- tables as Markdown

  /** `text` with every occurrence of one character replaced. */
  function Replace(text: string, c: char, replacement: string): string {
    if text == "" then "" else (if text[0] == c then replacement else [text[0]]) + Replace(text[1..], c, replacement)
  }

  function EscapeCell(cell: string): string {
    Replace(Replace(cell, '|', "\\|"), '\n', "<br>")
  }

  function EscapeCells(row: Row): Row {
    if row == [] then [] else [EscapeCell(row[0])] + EscapeCells(row[1..])
  }

  function RowLine(cells: Row): string {
    "| " + JoinWith(cells, " | ") + " |"
  }

  function Dashes(columns: nat): Row {
    if columns == 0 then [] else ["---"] + Dashes(columns - 1)
  }

  function RowLines(rows: seq<Row>): seq<string> {
    if rows == [] then [] else [RowLine(EscapeCells(rows[0]))] + RowLines(rows[1..])
  }

  /** `_table_markdown`: a separator line follows the first row if there is another. */
  function TableLines(rows: seq<Row>): seq<string> {
    var lines := RowLines(rows);
    if |rows| > 1 then [lines[0], RowLine(Dashes(|rows[0]|))] + lines[1..] else lines
  }

  function TableMarkdown(rows: seq<Row>): string {
    JoinWith(TableLines(rows), "\n")
  }

  function Filled(row: Row): nat {
    if row == [] then 0 else (if Strip(row[0]) != "" then 1 else 0) + Filled(row[1..])
  }

  function FilledCells(row: Row): seq<string> {
    if row == [] then [] else (if Strip(row[0]) != "" then [Strip(row[0])] else []) + FilledCells(row[1..])
  }

  /** Where the column names of a sheet stand: after a title and an instruction row, if the
      rows before them hold at most one value each and they name every column. */
  function HeaderIndex(instruction: string -> bool, e: Element): (index: nat)
    ensures index == 0 || (2 <= index < 5 && index < |e.rows| - 1)
  {
    if !e.onSheet || |e.rows| < 4 || |e.rows[0]| < 2 || !instruction(JoinWith(FilledCells(e.rows[1]), " ")) then 0
    else FirstHeader(e.rows, 2)
  }

  predicate NamesEveryColumn(rows: seq<Row>, index: nat)
    requires index < |rows|
  {
    && (forall i | 0 <= i < index :: Filled(rows[i]) <= 1)
    && Filled(rows[index]) == |rows[index]|
  }

  function FirstHeader(rows: seq<Row>, index: nat): (found: nat)
    requires index > 0
    ensures found == 0 || (index <= found < 5 && found < |rows| - 1 && NamesEveryColumn(rows, found))
    ensures found == 0 ==> forall i | index <= i < 5 && i < |rows| - 1 :: !NamesEveryColumn(rows, i)
    decreases 5 - index
  {
    if index >= 5 || index >= |rows| - 1 then 0
    else if NamesEveryColumn(rows, index) then index
    else FirstHeader(rows, index + 1)
  }

  // ----- grouping table rows

  /** Rows `first` to `last` (counted from 0, `last` excluded) under the header. */
  datatype Group = Group(first: nat, last: nat)

  function GroupText(rows: seq<Row>, header: nat, prefix: string, g: Group): string
    requires header < |rows| && g.first <= g.last <= |rows|
  {
    prefix + TableMarkdown([rows[header]] + rows[g.first..g.last])
  }

  /** The groups follow each other without gap or overlap, from one row to another. */
  predicate Consecutive(groups: seq<Group>, from: nat, upto: nat) {
    if groups == [] then from == upto
    else
      var g := groups[|groups| - 1];
      g.first < g.last == upto && Consecutive(groups[..|groups| - 1], from, g.first)
  }

  /** A group of two or more rows was only formed because it is within the budget. */
  predicate Within(size: Group -> nat, budget: int, g: Group) {
    g.first < g.last && (g.last - g.first >= 2 ==> size(g) <= budget)
  }

  /** A group only ended because its next row would have been too much. */
  predicate Full(size: Group -> nat, budget: int, g: Group) {
    size(g.(last := g.last + 1)) > budget
  }

  /** The loop over the rows after the header; each row goes into the running group or
      starts the next one. */
  method GroupRows(size: Group -> nat, budget: int, header: nat, rows: nat) returns (groups: seq<Group>)
    requires header + 1 < rows
    ensures Consecutive(groups, header + 1, rows) && groups != []
    ensures forall i | 0 <= i < |groups| :: Within(size, budget, groups[i])
    ensures forall i | 0 <= i < |groups| - 1 :: Full(size, budget, groups[i])
  {
    groups := [];
    var start, row := header + 1, header + 1;
    while row < rows
      invariant header < start <= row <= rows
      invariant start < row || row == header + 1
      invariant start < row ==> Within(size, budget, Group(start, row))
      invariant Consecutive(groups, header + 1, start)
      invariant forall i | 0 <= i < |groups| :: Within(size, budget, groups[i]) && Full(size, budget, groups[i])
    {
      if start < row && size(Group(start, row + 1)) > budget {
        ConsecutiveGrows(groups, header + 1, start, row);
        groups := groups + [Group(start, row)];
        start := row;
      }
      row := row + 1;
    }
    ConsecutiveGrows(groups, header + 1, start, row);
    groups := groups + [Group(start, row)];
  }

  lemma {:induction false} ConsecutiveGrows(groups: seq<Group>, from: nat, start: nat, end: nat)
    requires Consecutive(groups, from, start) && start < end
    ensures Consecutive(groups + [Group(start, end)], from, end)
  {
    assert (groups + [Group(start, end)])[..|groups|] == groups;
  }

  /** Consecutive groups hold every row exactly once. */
  lemma {:induction false} EveryRowOnce(groups: seq<Group>, from: nat, upto: nat, row: nat) returns (i: nat)
    requires Consecutive(groups, from, upto) && from <= row < upto
    ensures i < |groups| && groups[i].first <= row < groups[i].last
    ensures forall j | 0 <= j < |groups| && groups[j].first <= row < groups[j].last :: j == i
  {
    var n := |groups| - 1;
    GroupsBelow(groups[..n], from, groups[n].first);
    if row >= groups[n].first {
      i := n;
      forall j | 0 <= j < n
        ensures groups[j].last <= groups[n].first
      {
        assert groups[..n][j] == groups[j];
      }
    } else {
      i := EveryRowOnce(groups[..n], from, groups[n].first, row);
      forall j | 0 <= j < |groups| && groups[j].first <= row < groups[j].last
        ensures j == i
      {
        assert groups[..n][j] == groups[j];
      }
    }
  }

  lemma {:induction false} GroupsBelow(groups: seq<Group>, from: nat, upto: nat)
    requires Consecutive(groups, from, upto)
    ensures from <= upto && forall j | 0 <= j < |groups| :: groups[j].last <= upto
  {
    if groups != [] {
      var n := |groups| - 1;
      GroupsBelow(groups[..n], from, groups[n].first);
      forall j | 0 <= j < |groups|
        ensures groups[j].last <= upto
      {
        if j < n {
          assert groups[..n][j] == groups[j];
        }
      }
    }
  }

  // ----- blocks

  /** A stretch of the document that is emitted under one heading: gathered paragraphs, one
      element on its own, one table in groups, or headings with nothing under them. */
  datatype Block =
    | Gathered(elements: seq<Element>)
    | Single(element: Element)
    | Grouped(element: Element, header: nat, groups: seq<Group>)
    | Headings(elements: seq<Element>)

  function ElementsOf(blocks: seq<Block>): seq<Element> {
    if blocks == [] then []
    else
      ElementsOf(blocks[..|blocks| - 1]) +
      match blocks[|blocks| - 1]
      case Gathered(elements) => elements
      case Single(element) => [element]
      case Grouped(element, _, _) => [element]
      case Headings(elements) => elements
  }

  /** Headings stay out of the text of their section; only those at the very end remain. */
  function Bodies(elements: seq<Element>): seq<Element> {
    if elements == [] then []
    else
      var last := elements[|elements| - 1];
      Bodies(elements[..|elements| - 1]) + if last.kind == Heading then [] else [last]
  }

  function TrailingHeadings(elements: seq<Element>): seq<Element> {
    if elements == [] || elements[|elements| - 1].kind != Heading then []
    else TrailingHeadings(elements[..|elements| - 1]) + [elements[|elements| - 1]]
  }

  function Texts(elements: seq<Element>): seq<string> {
    if elements == [] then [] else Texts(elements[..|elements| - 1]) + [elements[|elements| - 1].text]
  }

  function GatheredText(elements: seq<Element>): string {
    JoinWith(Texts(elements), "\n\n")
  }

  function CaptionLine(e: Element): string {
    if e.caption.Some? && e.caption.value != "" then e.caption.value + "\n" else ""
  }

  /** A table is kept whole when it fits its budget or has a single row. */
  predicate KeptWhole(t: Config, e: Element) {
    e.rows == [] || |e.rows| == 1 || t.count(CaptionLine(e) + TableMarkdown(e.rows)) <= ContentBudget(t, e.headingPath)
  }

  function RepeatedPrefix(e: Element, header: nat): string {
    if header > 0 then "" else CaptionLine(e)
  }

  /** The token count of a group of a table. */
  function GroupSize(t: Config, e: Element, header: nat, g: Group): nat {
    if header < |e.rows| && g.first <= g.last <= |e.rows|
        then t.count(GroupText(e.rows, header, RepeatedPrefix(e, header), g)) else 0
  }

  /** What the planning of blocks asks of the token counter. */
  datatype Rules = Rules(
    fits: (string, HeadingPath) -> bool,
    keptWhole: Element -> bool,
    header: Element -> nat,
    size: Element -> Group -> nat,
    budget: Element -> int)

  function RulesOf(t: Config, instruction: string -> bool): Rules {
    Rules((text, path) => Fits(t, text, path),
          e => KeptWhole(t, e),
          e => HeaderIndex(instruction, e),
          e => g => GroupSize(t, e, HeaderIndex(instruction, e), g),
          (e: Element) => ContentBudget(t, e.headingPath))
  }

  /** A table that is split has a row after its header. */
  ghost predicate Sensible(rules: Rules) {
    forall e: Element :: !rules.keptWhole(e) ==> rules.header(e) + 1 < |e.rows|
  }

  lemma {:induction false} RulesAreSensible(t: Config, instruction: string -> bool)
    ensures Sensible(RulesOf(t, instruction))
  {
  }

  /** Gathered paragraphs share page and heading, and fit together. */
  predicate GathersWell(rules: Rules, elements: seq<Element>) {
    && elements != []
    && (forall e | e in elements :: e.page == elements[0].page && e.headingPath == elements[0].headingPath)
    && rules.fits(GatheredText(elements), elements[0].headingPath)
  }

  predicate GroupsWell(rules: Rules, e: Element, header: nat, groups: seq<Group>) {
    && e.kind == Table && !rules.keptWhole(e) && header == rules.header(e)
    && Consecutive(groups, header + 1, |e.rows|)
    && (forall i | 0 <= i < |groups| :: Within(rules.size(e), rules.budget(e), groups[i]))
    && (forall i | 0 <= i < |groups| - 1 :: Full(rules.size(e), rules.budget(e), groups[i]))
  }

  predicate WellFormed(rules: Rules, b: Block) {
    match b
    case Gathered(elements) => GathersWell(rules, elements)
    case Single(element) => element.kind == Table ==> rules.keptWhole(element)
    case Grouped(element, header, groups) => GroupsWell(rules, element, header, groups)
    case Headings(elements) => elements != []
  }

  predicate AllWellFormed(rules: Rules, blocks: seq<Block>) {
    forall b | b in blocks :: WellFormed(rules, b)
  }

  /** One table: whole, or in groups of rows. */
  method PlanTable(rules: Rules, e: Element) returns (b: Block)
    requires e.kind == Table && Sensible(rules)
    ensures WellFormed(rules, b) && (b.Single? || b.Grouped?) && b.element == e
  {
    if rules.keptWhole(e) {
      return Single(e);
    }
    var groups := GroupRows(rules.size(e), rules.budget(e), rules.header(e), |e.rows|);
    return Grouped(e, rules.header(e), groups);
  }

  lemma {:induction false} AppendBlock(rules: Rules, blocks: seq<Block>, last: Block)
    requires AllWellFormed(rules, blocks) && WellFormed(rules, last)
    ensures AllWellFormed(rules, blocks + [last])
    ensures ElementsOf(blocks + [last]) == ElementsOf(blocks) + if last.Gathered? || last.Headings?
            then last.elements else [last.element]
  {
    assert (blocks + [last])[..|blocks|] == blocks;
  }

  method Flush(rules: Rules, blocks: seq<Block>, pending: seq<Element>) returns (flushed: seq<Block>)
    requires (pending != [] ==> GathersWell(rules, pending)) && AllWellFormed(rules, blocks)
    ensures ElementsOf(flushed) == ElementsOf(blocks) + pending && AllWellFormed(rules, flushed)
  {
    if pending == [] {
      return blocks;
    }
    AppendBlock(rules, blocks, Gathered(pending));
    return blocks + [Gathered(pending)];
  }

  /** Whether an element ends the paragraphs gathered so far. */
  predicate Interrupts(rules: Rules, pending: seq<Element>, e: Element) {
    || e.kind == Heading || e.kind == Table || e.kind == Code
    || !rules.fits(e.text, e.headingPath)
    || (pending != [] && (|| pending[0].page != e.page || pending[0].headingPath != e.headingPath
                          || !rules.fits(GatheredText(pending + [e]), e.headingPath)))
  }

  lemma {:induction false} GatherFirst(rules: Rules, e: Element)
    requires !Interrupts(rules, [], e)
    ensures GathersWell(rules, [e])
  {
    assert [e][..0] == [];
    assert Texts([e]) == [e.text];
  }

  lemma {:induction false} GatherMore(rules: Rules, pending: seq<Element>, e: Element)
    requires GathersWell(rules, pending) && !Interrupts(rules, pending, e)
    ensures GathersWell(rules, pending + [e])
  {
    var more := pending + [e];
    assert more[0] == pending[0];
    forall other | other in more
      ensures other.page == more[0].page && other.headingPath == more[0].headingPath
    {
      assert other in pending || other == e;
    }
  }

  lemma {:induction false} GatherOne(rules: Rules, pending: seq<Element>, e: Element)
    requires pending != [] ==> GathersWell(rules, pending)
    requires !Interrupts(rules, pending, e)
    ensures GathersWell(rules, pending + [e])
  {
    if pending == [] {
      assert pending + [e] == [e];
      GatherFirst(rules, e);
    } else {
      GatherMore(rules, pending, e);
    }
  }

  lemma {:induction false} TakeOne(elements: seq<Element>, k: nat)
    requires k < |elements|
    ensures Bodies(elements[..k + 1]) == Bodies(elements[..k]) + if elements[k].kind == Heading
            then [] else [elements[k]]
    ensures TrailingHeadings(elements[..k + 1]) == if elements[k].kind == Heading
            then TrailingHeadings(elements[..k]) + [elements[k]] else []
  {
    assert elements[..k + 1][..k] == elements[..k];
  }

  /** One element: close what it interrupts, then gather it, plan it or remember it. */
  method PlanElement(rules: Rules, given: seq<Block>, gathered: seq<Element>, e: Element)
      returns (blocks: seq<Block>, pending: seq<Element>)
    requires Sensible(rules) && AllWellFormed(rules, given) && (gathered != [] ==> GathersWell(rules, gathered))
    ensures AllWellFormed(rules, blocks) && (pending != [] ==> GathersWell(rules, pending))
    ensures ElementsOf(blocks) + pending == ElementsOf(given) + gathered + if e.kind == Heading then [] else [e]
  {
    blocks, pending := given, gathered;
    if !Interrupts(rules, pending, e) {
      GatherOne(rules, pending, e);
      return blocks, pending + [e];
    }
    blocks := Flush(rules, blocks, pending);
    pending := [];
    if e.kind == Table {
      var b := PlanTable(rules, e);
      AppendBlock(rules, blocks, b);
      return blocks + [b], pending;
    }
    if e.kind == Code || (e.kind != Heading && !rules.fits(e.text, e.headingPath)) {
      AppendBlock(rules, blocks, Single(e));
      return blocks + [Single(e)], pending;
    }
    if e.kind != Heading {
      GatherOne(rules, [], e);
      return blocks, [e];
    }
  }

  /** The loop over the elements of a document. Every element that is not a heading ends up
      in exactly one block, in order; headings remain only at the end. */
  method PlanBlocks(rules: Rules, elements: seq<Element>) returns (blocks: seq<Block>)
    requires Sensible(rules)
    ensures ElementsOf(blocks) == Bodies(elements) + TrailingHeadings(elements)
    ensures AllWellFormed(rules, blocks)
  {
    blocks := [];
    var pending, unmatched: seq<Element> := [], [];
    for k := 0 to |elements|
      invariant ElementsOf(blocks) + pending == Bodies(elements[..k])
      invariant unmatched == TrailingHeadings(elements[..k])
      invariant (pending != [] ==> GathersWell(rules, pending)) && AllWellFormed(rules, blocks)
    {
      TakeOne(elements, k);
      blocks, pending := PlanElement(rules, blocks, pending, elements[k]);
      unmatched := if elements[k].kind == Heading then unmatched + [elements[k]] else [];
    }
    assert elements[..|elements|] == elements;
    blocks := Flush(rules, blocks, pending);
    if unmatched != [] {
      AppendBlock(rules, blocks, Headings(unmatched));
      blocks := blocks + [Headings(unmatched)];
    }
  }

  // ----- chunks

  datatype Chunk = Chunk(index: nat, content: string, embedded: string, tokens: nat, page: Option<nat>,
      headingPath: HeadingPath,
                         refs: seq<string>, kind: string, split: bool, joinsSections: bool)

  /** A chunk that counts what it says and stays within the limit. */
  predicate Sound(t: Config, c: Chunk) {
    && c.embedded == Embedding(t, c.content, c.headingPath)
    && c.tokens == t.count(c.embedded) <= t.maxTokens
  }

  predicate AllSound(t: Config, chunks: seq<Chunk>) {
    forall c | c in chunks :: Sound(t, c)
  }

  function ContentsOf(chunks: seq<Chunk>): (contents: seq<string>)
    ensures |contents| == |chunks| && forall i | 0 <= i < |chunks| :: contents[i] == chunks[i].content
  {
    if chunks == [] then [] else [chunks[0].content] + ContentsOf(chunks[1..])
  }

  function RefsOf(elements: seq<Element>): seq<string> {
    if elements == [] then []
    else
      var e := elements[|elements| - 1];
      RefsOf(elements[..|elements| - 1]) + if e.sourceRef.Some? && e.sourceRef.value != ""
          then [e.sourceRef.value] else []
  }

  function KindName(kind: Kind): string {
    match kind
    case Heading => "heading"
    case Paragraph => "paragraph"
    case ListItem => "list"
    case Code => "code"
    case Table => "table"
  }

  /** One text to emit, with the elements it comes from. */
  datatype Emission = Emission(content: string, elements: seq<Element>, kind: string)

  function PreambleLine(row: Row): string {
    JoinWith(NonEmpty(row), " ")
  }

  function NonEmpty(cells: seq<string>): seq<string> {
    if cells == [] then [] else (if cells[0] != "" then [cells[0]] else []) + NonEmpty(cells[1..])
  }

  function PreambleLines(rows: seq<Row>): seq<string> {
    if rows == [] then [] else [PreambleLine(rows[0])] + PreambleLines(rows[1..])
  }

  function GroupEmissions(e: Element, header: nat, groups: seq<Group>): (emissions: seq<Emission>)
    requires header < |e.rows| && forall i | 0 <= i < |groups| :: groups[i].first <= groups[i].last <= |e.rows|
    ensures forall m | m in emissions :: m.elements == [e]
  {
    if groups == [] then []
    else
      [Emission(GroupText(e.rows, header, RepeatedPrefix(e, header), groups[0]), [e], "table")]
          + GroupEmissions(e, header, groups[1..])
  }

  /** What a block emits: a split table first its sparse title rows, if it has any, then
      every group under the repeated header. */
  function Emissions(b: Block): (emissions: seq<Emission>)
    requires b.Gathered? || b.Headings? ==> b.elements != []
    requires b.Grouped? ==> b.header < |b.element.rows| && forall i | 0 <= i < |b.groups| ::
             b.groups[i].first <= b.groups[i].last <= |b.element.rows|
    ensures forall m | m in emissions :: m.elements != []
  {
    match b
    case Gathered(elements) => [Emission(GatheredText(elements), elements, "text")]
    case Headings(elements) => [Emission(JoinWith(Texts(elements), "\n"), elements, "heading")]
    case Single(e) =>
      var content := if e.kind != Table then e.text else if e.rows == [] then CaptionLine(e) + e.text
          else CaptionLine(e) + TableMarkdown(e.rows);
      [Emission(content, [e], KindName(e.kind))]
    case Grouped(e, header, groups) =>
      (if header == 0 then []
          else [Emission(CaptionLine(e) + JoinWith(PreambleLines(e.rows[..header]), "\n"), [e], "table")])
      + GroupEmissions(e, header, groups)
  }

  /** The chunk of one piece of an emission. */
  function ChunkOf(t: Config, m: Emission, index: nat, piece: string, several: bool): Chunk
    requires m.elements != []
  {
    var first := m.elements[0];
    var value := Embedding(t, piece, first.headingPath);
    Chunk(index, piece, value, t.count(value), first.page, first.headingPath, Distinct(RefsOf(m.elements)), m.kind,
        several, false)
  }

  /** The pieces numbered and guarded. */
  method Number(t: Config, m: Emission, chunks: seq<Chunk>, pieces: seq<string>) returns (r: Result<seq<Chunk>>)
    requires m.elements != [] && AllSound(t, chunks)
    ensures r.Ok? ==> chunks <= r.value && AllSound(t, r.value) && ContentsOf(r.value[|chunks|..]) == pieces
    ensures r.Err? ==>
            r.error == ChunkTooLarge && exists piece | piece in pieces :: !Fits(t, piece, m.elements[0].headingPath)
  {
    var result := chunks;
    for k := 0 to |pieces|
      invariant chunks <= result && AllSound(t, result)
      invariant |result| == |chunks| + k
      invariant forall i | 0 <= i < k :: result[|chunks| + i].content == pieces[i]
    {
      var piece := pieces[k];
      if !Fits(t, piece, m.elements[0].headingPath) {
        assert piece in pieces;
        return Err(ChunkTooLarge);
      }
      result := result + [ChunkOf(t, m, |result|, piece, |pieces| > 1)];
    }
    assert ContentsOf(result[|chunks|..]) == pieces;
    return Ok(result);
  }

  /** `emit`: strip, split and number. The over-limit guard never fires if stripping never
      raises a count. */
  method Emit(t: Config, m: Emission, chunks: seq<Chunk>) returns (r: Result<seq<Chunk>>, ghost novel: seq<string>)
    requires m.elements != [] && AllSound(t, chunks)
    ensures r.Ok? ==> chunks <= r.value && AllSound(t, r.value)
    ensures r.Ok? ==> CarriesFresh(ContentsOf(r.value[|chunks|..]), novel) && Concat(novel) == Ink(m.content)
    ensures r.Err? && r.error == ChunkTooLarge ==> !StripNeverRaises(t)
    ensures r.Err? && r.error == HeadingTooLarge ==> !(t.Valid() && t.count("") == 0)
  {
    var content := Strip(m.content);
    WithoutTrim(m.content, IsSpace);
    novel := [];
    if content == "" {
      assert chunks[|chunks|..] == [];
      return Ok(chunks), novel;
    }
    var pieces, added := SplitText(t, content, m.elements[0].headingPath, m.kind != "table");
    if pieces.Err? {
      return Err(pieces.error), novel;
    }
    r := Number(t, m, chunks, pieces.value);
    novel := added;
  }

  // ----- merging small chunks

  predicate IsProse(kind: string) {
    kind == "text" || kind == "paragraph" || kind == "list"
  }

  predicate Siblings(a: HeadingPath, b: HeadingPath) {
    |a| > 1 && |b| > 0 && a != b && a[..|a| - 1] == b[..|b| - 1]
  }

  predicate CanMerge(t: Config, previous: Chunk, c: Chunk) {
    && t.minTokens > 0
    && Least(previous.tokens, c.tokens) < Least(t.minTokens, t.maxTokens)
    && previous.page == c.page
    && IsProse(previous.kind) && IsProse(c.kind)
    && !previous.split && !c.split && !previous.joinsSections
    && (previous.headingPath == c.headingPath || Siblings(previous.headingPath, c.headingPath))
  }

  function Title(c: Chunk): string {
    if c.headingPath == [] then "" else c.headingPath[|c.headingPath| - 1]
  }

  /** Both chunks in one, under their common heading. */
  function Merged(t: Config, previous: Chunk, c: Chunk): Chunk
    requires CanMerge(t, previous, c)
  {
    var siblings := previous.headingPath != c.headingPath;
    var path := if siblings then previous.headingPath[..|previous.headingPath| - 1] else previous.headingPath;
    var content := if siblings then Title(previous) + "\n" + previous.content + "\n\n" + Title(c) + "\n" + c.content
                   else previous.content + "\n\n" + c.content;
    var embedded := Embedding(t, content, path);
    Chunk(previous.index, content, embedded, t.count(embedded), previous.page, path, Distinct(previous.refs + c.refs),
        "text", false, siblings)
  }

  lemma {:induction false} HoldsBoth(before: string, first: string, between: string, second: string)
    ensures Contains(before + first + between + second, first) && Contains(before + first + between + second, second)
  {
    var whole := before + first + between + second;
    assert OccursAt(whole, first, |before|);
    assert OccursAt(whole, second, |before| + |first| + |between|);
  }

  /** A merged chunk holds both contents, and the references of both and no others. */
  lemma {:induction false} MergedHoldsBoth(t: Config, previous: Chunk, c: Chunk)
    requires CanMerge(t, previous, c)
    ensures Contains(Merged(t, previous, c).content, previous.content)
            && Contains(Merged(t, previous, c).content, c.content)
    ensures forall ref :: ref in Merged(t, previous, c).refs <==> ref in previous.refs || ref in c.refs
  {
    DistinctKeeps(previous.refs + c.refs);
    if previous.headingPath != c.headingPath {
      HoldsBoth(Title(previous) + "\n", previous.content, "\n\n" + Title(c) + "\n", c.content);
      RegroupMiddle(Title(previous) + "\n" + previous.content, "\n\n", Title(c), "\n", c.content);
    } else {
      HoldsBoth("", previous.content, "\n\n", c.content);
      assert "" + previous.content == previous.content;
    }
  }

  lemma {:induction false} RegroupMiddle(a: string, b: string, c: string, d: string, e: string)
    ensures a + b + c + d + e == a + (b + c + d) + e
  {
    assert a + (b + c + d) == a + b + c + d;
  }

  /** Chunk `c` went, with its text and its references, into chunk `m`. */
  predicate HeldBy(c: Chunk, m: Chunk) {
    Contains(m.content, c.content) && forall ref | ref in c.refs :: ref in m.refs
  }

  /** Every chunk is held by the one at its new place, and the places keep the order. */
  predicate Housed(chunks: seq<Chunk>, merged: seq<Chunk>, home: seq<nat>) {
    && |home| == |chunks|
    && (forall i | 0 <= i < |chunks| :: home[i] < |merged| && HeldBy(chunks[i], merged[home[i]]))
    && forall i, j | 0 <= i < j < |chunks| :: home[i] <= home[j]
  }

  lemma {:induction false} HouseNew(chunks: seq<Chunk>, merged: seq<Chunk>, home: seq<nat>, c: Chunk)
    requires Housed(chunks, merged, home)
    ensures Housed(chunks + [c], merged + [c], home + [|merged|])
  {
    ContainsSlice(c.content, 0, |c.content|);
    assert c.content[0..|c.content|] == c.content;
  }

  lemma {:induction false} HouseTogether(t: Config, chunks: seq<Chunk>, merged: seq<Chunk>, home: seq<nat>, c: Chunk)
    requires Housed(chunks, merged, home) && merged != [] && CanMerge(t, merged[|merged| - 1], c)
    ensures Housed(chunks + [c], merged[..|merged| - 1] + [Merged(t, merged[|merged| - 1], c)], home + [|merged| - 1])
  {
    var last := |merged| - 1;
    var both := Merged(t, merged[last], c);
    MergedHoldsBoth(t, merged[last], c);
    forall i | 0 <= i < |chunks| && home[i] == last
      ensures HeldBy(chunks[i], both)
    {
      ContainsTransitive(both.content, merged[last].content, chunks[i].content);
    }
  }

  /** The merging loop at the end of `chunk_document`: no chunk and no reference is lost,
      the order stays, and merged chunks are within the limit too. */
  method MergeSmall(t: Config, chunks: seq<Chunk>) returns (merged: seq<Chunk>, ghost home: seq<nat>)
    requires AllSound(t, chunks)
    ensures AllSound(t, merged) && Housed(chunks, merged, home)
  {
    merged, home := [], [];
    for k := 0 to |chunks|
      invariant AllSound(t, merged) && Housed(chunks[..k], merged, home)
    {
      var c := chunks[k];
      assert chunks[..k + 1] == chunks[..k] + [c] && c in chunks;
      var last := |merged| - 1;
      if merged != [] && CanMerge(t, merged[last], c)
          && Fits(t, Merged(t, merged[last], c).content, Merged(t, merged[last], c).headingPath) {
        HouseTogether(t, chunks[..k], merged, home, c);
        merged, home := merged[..last] + [Merged(t, merged[last], c)], home + [last];
      } else {
        HouseNew(chunks[..k], merged, home, c);
        merged, home := merged + [c], home + [|merged|];
      }
    }
    assert chunks[..|chunks|] == chunks;
  }

  function Renumber(chunks: seq<Chunk>): (numbered: seq<Chunk>)
    ensures |numbered| == |chunks| && forall i | 0 <= i < |chunks| :: numbered[i] == chunks[i].(index := i)
  {
    if chunks == [] then []
    else Renumber(chunks[..|chunks| - 1]) + [chunks[|chunks| - 1].(index := |chunks| - 1)]
  }

  // ----- the whole document

  function AllEmissions(rules: Rules, blocks: seq<Block>): (emissions: seq<Emission>)
    requires AllWellFormed(rules, blocks) && Sensible(rules)
    ensures forall m | m in emissions :: m.elements != []
  {
    if blocks == [] then []
    else
      var b := blocks[0];
      assert WellFormed(rules, b);
      if b.Grouped? then
        GroupsInRange(rules, b);
        Emissions(b) + AllEmissions(rules, blocks[1..])
      else Emissions(b) + AllEmissions(rules, blocks[1..])
  }

  lemma {:induction false} GroupsInRange(rules: Rules, b: Block)
    requires b.Grouped? && WellFormed(rules, b) && Sensible(rules)
    ensures b.header < |b.element.rows| && forall i | 0 <= i < |b.groups| ::
            b.groups[i].first <= b.groups[i].last <= |b.element.rows|
  {
    GroupsBelow(b.groups, b.header + 1, |b.element.rows|);
  }

  function EmittedText(emissions: seq<Emission>): string {
    if emissions == [] then "" else EmittedText(emissions[..|emissions| - 1]) + emissions[|emissions| - 1].content
  }

  /** What the emissions so far have become: sound chunks that carry their text once. */
  ghost predicate Carried(t: Config, chunks: seq<Chunk>, novel: seq<string>, emissions: seq<Emission>) {
    AllSound(t, chunks) && CarriesFresh(ContentsOf(chunks), novel) && Concat(novel) == Ink(EmittedText(emissions))
  }

  lemma {:induction false} ContentsSplit(chunks: seq<Chunk>, more: seq<Chunk>)
    requires chunks <= more
    ensures ContentsOf(more) == ContentsOf(chunks) + ContentsOf(more[|chunks|..])
  {
    var whole, parts := ContentsOf(more), ContentsOf(chunks) + ContentsOf(more[|chunks|..]);
    forall i | 0 <= i < |more|
      ensures whole[i] == parts[i]
    {
      assert whole[i] == more[i].content;
    }
  }

  lemma {:induction false} EmittedMore(emissions: seq<Emission>, m: Emission)
    ensures Ink(EmittedText(emissions + [m])) == Ink(EmittedText(emissions)) + Ink(m.content)
  {
    assert (emissions + [m])[..|emissions|] == emissions;
    WithoutAppend(EmittedText(emissions), m.content, IsSpace);
  }

  lemma {:induction false} CarryMore(t: Config, chunks: seq<Chunk>, novel: seq<string>, emissions: seq<Emission>,
                                     m: Emission, more: seq<Chunk>, added: seq<string>)
    requires Carried(t, chunks, novel, emissions) && chunks <= more && AllSound(t, more)
    requires CarriesFresh(ContentsOf(more[|chunks|..]), added) && Concat(added) == Ink(m.content)
    ensures Carried(t, more, novel + added, emissions + [m])
  {
    EmittedMore(emissions, m);
    ConcatAppend(novel, added);
    ContentsSplit(chunks, more);
    CarriesAppend(ContentsOf(chunks), novel, ContentsOf(more[|chunks|..]), added);
  }

  method EmitAll(t: Config, emissions: seq<Emission>) returns (r: Result<seq<Chunk>>, ghost novel: seq<string>)
    requires forall m | m in emissions :: m.elements != []
    ensures r.Ok? ==> Carried(t, r.value, novel, emissions)
    ensures r.Err? && r.error == ChunkTooLarge ==> !StripNeverRaises(t)
    ensures r.Err? && r.error == HeadingTooLarge ==> !(t.Valid() && t.count("") == 0)
  {
    var chunks := [];
    novel := [];
    for k := 0 to |emissions|
      invariant Carried(t, chunks, novel, emissions[..k])
    {
      var m := emissions[k];
      assert emissions[..k + 1] == emissions[..k] + [m] && m in emissions;
      var more, added := Emit(t, m, chunks);
      if more.Err? {
        return more, novel;
      }
      CarryMore(t, chunks, novel, emissions[..k], m, more.value, added);
      chunks, novel := more.value, novel + added;
    }
    assert emissions[..|emissions|] == emissions;
    return Ok(chunks), novel;
  }

  /** `chunk_document`. Every chunk is within the limit, counts what it says and bears its
      position. Every element but the headings above it is in exactly one block; the
      chunks emitted for the blocks read, part by fresh part, as their texts but for white
      space; and each of them is held, in order, by a final chunk. The over-limit guard
      needs a counter that stripping can raise, the heading guard an invalid setup. */
  method ChunkDocument(t: Config, instruction: string -> bool, elements: seq<Element>)
    returns (r: Result<seq<Chunk>>, ghost blocks: seq<Block>, ghost emitted: seq<Chunk>,
        ghost novel: seq<string>, ghost home: seq<nat>)
    ensures r.Ok? ==> AllSound(t, r.value) && forall i | 0 <= i < |r.value| :: r.value[i].index == i
    ensures Sensible(RulesOf(t, instruction)) && AllWellFormed(RulesOf(t, instruction), blocks)
    ensures ElementsOf(blocks) == Bodies(elements) + TrailingHeadings(elements)
    ensures r.Ok? ==>
            CarriesFresh(ContentsOf(emitted), novel)
            && Concat(novel) == Ink(EmittedText(AllEmissions(RulesOf(t, instruction), blocks)))
    ensures r.Ok? ==> Housed(emitted, r.value, home)
    ensures r.Err? && r.error == ChunkTooLarge ==> !StripNeverRaises(t)
    ensures r.Err? && r.error == HeadingTooLarge ==> !(t.Valid() && t.count("") == 0)
  {
    var rules := RulesOf(t, instruction);
    RulesAreSensible(t, instruction);
    var planned := PlanBlocks(rules, elements);
    blocks, emitted, home := planned, [], [];
    var chunks, parts := EmitAll(t, AllEmissions(rules, planned));
    novel := parts;
    if chunks.Err? {
      return chunks, blocks, emitted, novel, home;
    }
    var merged, places := MergeSmall(t, chunks.value);
    emitted, home := chunks.value, places;
    var numbered := Renumber(merged);
    assert AllSound(t, numbered) by {
      forall c | c in numbered
        ensures Sound(t, c)
      {
        var i :| 0 <= i < |numbered| && numbered[i] == c;
        assert merged[i] in merged;
      }
    }
    return Ok(numbered), blocks, emitted, novel, home;
  }
}

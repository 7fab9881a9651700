/** Cutting a text into pieces that fit a token budget
    (`src/zhiqing_rag/document_processing/chunking.py`). The token counter is any function
    of the text: nothing is assumed of it unless a lemma says so. */
module TextSplitting {
  import opened Text

  datatype Config = Config(count: string -> nat, maxTokens: nat, overlap: nat, minTokens: nat) {
    /** What the constructor of the source insists on. */
    predicate Valid() {
      maxTokens >= 32 && overlap < maxTokens / 2
    }
  }

  /** The `ValueError`s of the chunker. */
  datatype Error = CharacterTooLarge | HeadingTooLarge | ChunkTooLarge

  datatype Result<+T> = Ok(value: T) | Err(error: Error)

  type HeadingPath = seq<string>

  // ----- heading context

  function JoinWith(parts: seq<string>, separator: string): string {
    if parts == [] then "" else if |parts| == 1 then parts[0]
        else parts[0] + separator + JoinWith(parts[1..], separator)
  }

  /** The longest tail of the title within the cap. */
  function Shorten(count: string -> nat, title: string, cap: nat): (t: string)
    ensures t == "" || count(t) <= cap
  {
    if title != "" && count(title) > cap then Shorten(count, title[1..], cap) else title
  }

  function Least(a: nat, b: nat): nat {
    if a <= b then a else b
  }

  function Context(t: Config, path: HeadingPath): string {
    Shorten(t.count, JoinWith(path, " / "), Least(96, t.maxTokens / 4))
  }

  function Embedding(t: Config, content: string, path: HeadingPath): string {
    var prefix := Context(t, path);
    if prefix != "" then prefix + "\n" + content else content
  }

  predicate Fits(t: Config, content: string, path: HeadingPath) {
    t.count(Embedding(t, content, path)) <= t.maxTokens
  }

  function ContentBudget(t: Config, path: HeadingPath): int {
    var prefix := Context(t, path);
    var left := t.maxTokens - t.count(prefix) - (if prefix != "" then 1 else 0);
    if left >= 1 then left else 1
  }

  // ----- splitting at a separator

  lemma {:induction false} CutPiece(pieces: seq<string>, text: string, start: nat, end: nat)
    requires start <= end <= |text| && Concat(pieces) == text[..start]
    ensures Concat(pieces + [text[start..end]]) == text[..end]
  {
    ConcatOne(pieces, text[start..end]);
    assert text[..start] + text[start..end] == text[..end];
  }

  lemma {:induction false} PieceEnds(text: string, separator: string, start: nat, index: nat)
    requires start <= index && OccursAt(text, separator, index)
    ensures EndsWith(text[start..index + |separator|], separator)
  {
    assert text[start..index + |separator|] == text[start..index] + separator;
  }

  /** Every piece but possibly the last ends with the separator. */
  method PiecesWithSeparator(text: string, separator: string) returns (pieces: seq<string>)
    requires separator != ""
    ensures Concat(pieces) == text
    ensures forall piece | piece in pieces :: piece != ""
    ensures forall i | 0 <= i < |pieces| - 1 :: EndsWith(pieces[i], separator)
  {
    pieces := [];
    var start := 0;
    var index := Find(text, separator, 0);
    while index >= 0
      invariant 0 <= start <= |text| && index == Find(text, separator, start)
      invariant Concat(pieces) == text[..start]
      invariant forall piece | piece in pieces :: piece != "" && EndsWith(piece, separator)
      decreases |text| - start
    {
      var end := index + |separator|;
      PieceEnds(text, separator, start, index);
      CutPiece(pieces, text, start, end);
      pieces := pieces + [text[start..end]];
      start := end;
      index := Find(text, separator, start);
    }
    assert text[..|text|] == text;
    if start < |text| {
      CutPiece(pieces, text, start, |text|);
      assert text[start..|text|] == text[start..];
      pieces := pieces + [text[start..]];
    }
  }

  ghost predicate EndsWith(text: string, end: string) {
    exists before :: text == before + end
  }

  // ----- splitting anywhere

  /** The binary search for the longest prefix it can find that fits; it may miss a longer
      one, but it fails only if not even one character fits. */
  method LongestFound(text: string, start: nat, fits: string -> bool) returns (end: nat)
    requires start < |text|
    ensures start <= end <= |text|
    ensures end > start ==> fits(text[start..end])
    ensures end == start ==> !fits(text[start..start + 1])
  {
    var low, high := start + 1, |text|;
    end := start;
    while low <= high
      invariant start < low && high <= |text| && low <= high + 1
      invariant start <= end <= |text|
      invariant end == start ==> low == start + 1
      invariant end == start ==> high == |text| || !fits(text[start..high + 1])
      invariant end > start ==> fits(text[start..end])
      decreases high + 1 - low
    {
      var middle := (low + high) / 2;
      if fits(text[start..middle]) {
        end, low := middle, middle + 1;
      } else {
        high := middle - 1;
      }
    }
  }

  /** Greedy pieces, each the longest prefix found. */
  method SplitAnywhere(text: string, fits: string -> bool) returns (r: Result<seq<string>>)
    ensures r.Ok? ==> Concat(r.value) == text && forall piece | piece in r.value :: piece != "" && fits(piece)
    ensures r.Err? ==> r.error == CharacterTooLarge && exists i | 0 <= i < |text| :: !fits([text[i]])
  {
    var pieces := [];
    var start := 0;
    while start < |text|
      invariant 0 <= start <= |text| && Concat(pieces) == text[..start]
      invariant forall piece | piece in pieces :: piece != "" && fits(piece)
    {
      var end := LongestFound(text, start, fits);
      if end == start {
        assert text[start..start + 1] == [text[start]];
        return Err(CharacterTooLarge);
      }
      ConcatOne(pieces, text[start..end]);
      assert text[..start] + text[start..end] == text[..end];
      pieces := pieces + [text[start..end]];
      start := end;
    }
    assert text[..start] == text;
    return Ok(pieces);
  }

  // ----- splitting recursively

  function CountWhere(text: string, test: char -> bool): nat {
    if text == "" then 0 else (if test(text[0]) then 1 else 0) + CountWhere(text[1..], test)
  }

  predicate IsChinese(c: char) {
    '\U{3400}' <= c <= '\U{9FFF}'
  }

  predicate IsLatin(c: char) {
    'A' <= c <= 'Z' || 'a' <= c <= 'z'
  }

  const COMMON_SEPARATORS := ["\n\n", "\n"]
  const CHINESE_SEPARATORS := ["。", "！", "？", "；", "，", "、"]
  const LATIN_SEPARATORS := [". ", "! ", "? ", "; ", ", ", " "]

  function Separators(text: string): (separators: seq<string>)
    ensures "" !in separators
  {
    var chinese, latin := CountWhere(text, IsChinese), CountWhere(text, IsLatin);
    if chinese >= latin * 3 then COMMON_SEPARATORS + CHINESE_SEPARATORS + [" "]
    else if latin >= chinese * 4 then COMMON_SEPARATORS + LATIN_SEPARATORS
    else COMMON_SEPARATORS + CHINESE_SEPARATORS + LATIN_SEPARATORS
  }

  /** Some single character of the text does not pass the test. */
  predicate HasLargeCharacter(text: string, fits: string -> bool) {
    exists i | 0 <= i < |text| :: !fits([text[i]])
  }

  lemma {:induction false} LargeCharacterOfPiece(pieces: seq<string>, k: nat, fits: string -> bool)
    requires k < |pieces| && HasLargeCharacter(pieces[k], fits)
    ensures HasLargeCharacter(Concat(pieces), fits)
  {
    if k == 0 {
      var i :| 0 <= i < |pieces[0]| && !fits([pieces[0][i]]);
      assert Concat(pieces)[i] == pieces[0][i];
    } else {
      LargeCharacterOfPiece(pieces[1..], k - 1, fits);
      var rest := Concat(pieces[1..]);
      var i :| 0 <= i < |rest| && !fits([rest[i]]);
      assert Concat(pieces)[|pieces[0]| + i] == rest[i];
    }
  }

  function WithinBudget(count: string -> nat, budget: nat): string -> bool {
    text => count(text) <= budget
  }

  predicate AllWithin(count: string -> nat, budget: nat, pieces: seq<string>) {
    forall piece | piece in pieces :: count(piece) <= budget
  }

  /** The pieces at one separator, gathered up to the budget; a piece over it is cut further. */
  method GatherPieces(t: Config, pieces: seq<string>, budget: nat, remaining: seq<string>)
      returns (r: Result<seq<string>>)
    requires "" !in remaining
    ensures r.Ok? ==> Concat(r.value) == Concat(pieces) && AllWithin(t.count, budget, r.value)
    ensures r.Err? ==> r.error == CharacterTooLarge && HasLargeCharacter(Concat(pieces), WithinBudget(t.count, budget))
    decreases |remaining|, 1
  {
    var result, pending := [], "";
    for k := 0 to |pieces|
      invariant Concat(result) + pending == Concat(pieces[..k])
      invariant AllWithin(t.count, budget, result) && (pending != "" ==> t.count(pending) <= budget)
    {
      var piece := pieces[k];
      assert pieces[..k + 1] == pieces[..k] + [piece];
      ConcatOne(pieces[..k], piece);
      if t.count(piece) > budget {
        if pending != "" {
          ConcatOne(result, pending);
          result, pending := result + [pending], "";
        }
        var inner := RecursiveSplit(t, piece, budget, remaining);
        if inner.Err? {
          LargeCharacterOfPiece(pieces, k, WithinBudget(t.count, budget));
          return inner;
        }
        ConcatAppend(result, inner.value);
        result := result + inner.value;
      } else if pending != "" && t.count(pending + piece) > budget {
        ConcatOne(result, pending);
        result, pending := result + [pending], piece;
      } else {
        Regroup(Concat(result), pending, piece);
        assert pending == "" ==> pending + piece == piece;
        pending := pending + piece;
      }
    }
    assert pieces[..|pieces|] == pieces;
    if pending != "" {
      ConcatOne(result, pending);
      result := result + [pending];
    }
    return Ok(result);
  }

  /** `recursive_split`: nothing is lost, every piece is within the budget, and it fails
      only if a single character is over it. No property of the counter is used. */
  method RecursiveSplit(t: Config, text: string, budget: nat, separators: seq<string>) returns (r: Result<seq<string>>)
    requires "" !in separators
    ensures r.Ok? ==> Concat(r.value) == text && AllWithin(t.count, budget, r.value)
    ensures r.Err? ==> r.error == CharacterTooLarge && HasLargeCharacter(text, WithinBudget(t.count, budget))
    decreases |separators|, 0
  {
    if t.count(text) <= budget {
      assert Concat([text]) == text + "";
      return Ok([text]);
    }
    if separators == [] {
      r := SplitAnywhere(text, WithinBudget(t.count, budget));
      return;
    }
    var separator, remaining := separators[0], separators[1..];
    assert separator in separators && "" !in remaining;
    if !Contains(text, separator) {
      r := RecursiveSplit(t, text, budget, remaining);
      return;
    }
    var pieces := PiecesWithSeparator(text, separator);
    r := GatherPieces(t, pieces, budget, remaining);
  }

  /** If no part of a text counts more than the text, a text cannot be cut exactly when
      some character of it is over the budget. */
  lemma {:induction false} CannotCutLargeCharacter(count: string -> nat, budget: nat, pieces: seq<string>)
    requires forall text, i | 0 <= i < |text| :: count([text[i]]) <= count(text)
    requires HasLargeCharacter(Concat(pieces), WithinBudget(count, budget))
    ensures exists piece | piece in pieces :: count(piece) > budget
  {
    var i :| 0 <= i < |Concat(pieces)| && !WithinBudget(count, budget)([Concat(pieces)[i]]);
    var k, j := PieceAt(pieces, i);
    assert count([pieces[k][j]]) <= count(pieces[k]);
    assert pieces[k] in pieces;
  }

  lemma {:induction false} PieceAt(pieces: seq<string>, i: nat) returns (k: nat, j: nat)
    requires i < |Concat(pieces)|
    ensures k < |pieces| && j < |pieces[k]| && pieces[k][j] == Concat(pieces)[i]
  {
    if i < |pieces[0]| {
      k, j := 0, i;
    } else {
      k, j := PieceAt(pieces[1..], i - |pieces[0]|);
      k := k + 1;
    }
  }

  // ----- splitting a text under its heading

  /** Each piece ends with its fresh part but for white space; what comes before is overlap. */
  ghost predicate CarriesFresh(pieces: seq<string>, novel: seq<string>) {
    |novel| == |pieces| && forall i | 0 <= i < |pieces| :: EndsWith(Ink(pieces[i]), novel[i])
  }

  /** Short pieces join the piece before them where that still fits. */
  method JoinShort(t: Config, pieces: seq<string>, path: HeadingPath) returns (joined: seq<string>)
    ensures Concat(joined) == Concat(pieces)
  {
    joined := [];
    for k := 0 to |pieces|
      invariant Concat(joined) == Concat(pieces[..k])
    {
      assert pieces[..k + 1] == pieces[..k] + [pieces[k]];
      ConcatOne(pieces[..k], pieces[k]);
      var last := |joined| - 1;
      if joined != [] && t.count(pieces[k]) < Least(t.minTokens, t.maxTokens)
          && Fits(t, joined[last] + pieces[k], path) {
        assert joined == joined[..last] + [joined[last]];
        ConcatOne(joined[..last], joined[last]);
        ConcatOne(joined[..last], joined[last] + pieces[k]);
        Regroup(Concat(joined[..last]), joined[last], pieces[k]);
        joined := joined[..last] + [joined[last] + pieces[k]];
      } else {
        ConcatOne(joined, pieces[k]);
        joined := joined + [pieces[k]];
      }
    }
    assert pieces[..|pieces|] == pieces;
  }

  /** The end of the previous piece that is repeated before `base`, as far as it fits. */
  method WithOverlap(t: Config, previous: string, base: string, path: HeadingPath) returns (candidate: string)
    requires Fits(t, base, path)
    ensures Fits(t, candidate, path) && EndsWith(candidate, base)
    ensures exists prefix :: candidate == prefix + base && (prefix == "" || EndsWith(previous + "\n", prefix))
  {
    var start := |previous|;
    while start > 0 && t.count(previous[start - 1..]) <= t.overlap
      invariant 0 <= start <= |previous|
    {
      start := start - 1;
    }
    var prefix := previous[start..];
    assert previous == previous[..start] + prefix;
    candidate := if prefix != "" then prefix + "\n" + base else base;
    while prefix != "" && !Fits(t, candidate, path)
      invariant EndsWith(previous, prefix)
      invariant candidate == if prefix != "" then prefix + "\n" + base else base
      decreases |prefix|
    {
      DropFromEnd(previous, prefix);
      prefix := prefix[1..];
      candidate := if prefix != "" then prefix + "\n" + base else base;
    }
    var added := if prefix != "" then prefix + "\n" else "";
    assert candidate == added + base;
    ghost var before :| previous == before + prefix;
    if prefix != "" {
      assert previous + "\n" == before + added;
    }
  }

  lemma {:induction false} DropFromEnd(text: string, end: string)
    requires EndsWith(text, end) && end != ""
    ensures EndsWith(text, end[1..])
  {
    var before :| text == before + end;
    assert text == (before + [end[0]]) + end[1..];
  }

  /** If stripping never raises a count, whatever fits still fits once stripped. */
  ghost predicate StripNeverRaises(t: Config) {
    forall prefix, text :: t.count(prefix + Strip(text)) <= t.count(prefix + text)
  }

  lemma {:induction false} StrippedFits(t: Config, text: string, path: HeadingPath)
    requires StripNeverRaises(t) && Fits(t, text, path)
    ensures Fits(t, Strip(text), path)
  {
    var prefix := Context(t, path);
    if prefix != "" {
      assert Embedding(t, text, path) == (prefix + "\n") + text;
      assert Embedding(t, Strip(text), path) == (prefix + "\n") + Strip(text);
    } else {
      assert "" + text == text && "" + Strip(text) == Strip(text);
      assert t.count("" + Strip(text)) <= t.count("" + text);
    }
  }

  // ----- `split_text`

  predicate AllFit(t: Config, pieces: seq<string>, path: HeadingPath) {
    forall piece | piece in pieces :: Fits(t, piece, path)
  }

  function UnderHeading(t: Config, path: HeadingPath): string -> bool {
    text => Fits(t, text, path)
  }

  /** Some character of the text does not fit, alone or within the reduced budget. */
  predicate TooLargeFor(t: Config, text: string, path: HeadingPath, budget: int) {
    || (budget >= 0 && HasLargeCharacter(text, WithinBudget(t.count, budget)))
    || HasLargeCharacter(text, UnderHeading(t, path))
  }

  lemma {:induction false} CarriesAppend(a: seq<string>, m: seq<string>, b: seq<string>, n: seq<string>)
    requires CarriesFresh(a, m) && CarriesFresh(b, n)
    ensures CarriesFresh(a + b, m + n)
    ensures WhollyNovel(a, m) && WhollyNovel(b, n) ==> WhollyNovel(a + b, m + n)
  {
  }

  lemma {:induction false} SelfCarries(pieces: seq<string>)
    ensures CarriesFresh(pieces, Inks(pieces)) && WhollyNovel(pieces, Inks(pieces))
  {
    forall i | 0 <= i < |pieces|
      ensures EndsWith(Ink(pieces[i]), Inks(pieces)[i])
    {
      assert Ink(pieces[i]) == "" + Inks(pieces)[i];
    }
  }

  /** The pieces for one base: hard cuts if it does not fit, else the base with its overlap. */
  method CutBase(t: Config, previous: Option<string>, base: string, path: HeadingPath, reserved: nat)
    returns (r: Result<seq<string>>, ghost novel: seq<string>)
    ensures r.Ok? ==> AllFit(t, r.value, path) && CarriesFresh(r.value, novel) && Concat(novel) == Ink(base)
    ensures r.Ok? && reserved == 0 ==> WhollyNovel(r.value, novel)
    ensures r.Err? ==> r.error == CharacterTooLarge && HasLargeCharacter(base, UnderHeading(t, path))
  {
    if !Fits(t, base, path) {
      r := SplitAnywhere(base, UnderHeading(t, path));
      novel := [];
      if r.Ok? {
        InkOfPieces(r.value);
        SelfCarries(r.value);
        novel := Inks(r.value);
        forall piece | piece in r.value
          ensures Fits(t, piece, path)
        {
          assert UnderHeading(t, path)(piece);
        }
      }
      return;
    }
    var piece := base;
    assert Ink(base) == "" + Ink(base);
    if previous.Some? && reserved > 0 {
      piece := WithOverlap(t, previous.value, base, path);
      InkKeepsEnd(piece, base);
    }
    assert Concat([Ink(base)]) == Ink(base) + "";
    return Ok([piece]), [Ink(base)];
  }

  predicate WhollyNovel(pieces: seq<string>, novel: seq<string>) {
    |novel| == |pieces| && forall i | 0 <= i < |pieces| :: novel[i] == Ink(pieces[i])
  }

  /** The pieces of `split_text` before they are stripped: all of them fit. `novel` is what
      each piece adds to the ones before it. */
  method CutUnderHeading(t: Config, joined: seq<string>, path: HeadingPath, reserved: nat)
    returns (r: Result<seq<string>>, ghost novel: seq<string>)
    ensures r.Ok? ==> AllFit(t, r.value, path)
    ensures r.Ok? ==> CarriesFresh(r.value, novel) && Concat(novel) == Ink(Concat(joined))
    ensures r.Ok? && reserved == 0 ==> WhollyNovel(r.value, novel)
    ensures r.Err? ==> r.error == CharacterTooLarge && HasLargeCharacter(Concat(joined), UnderHeading(t, path))
  {
    var result := [];
    novel := [];
    for k := 0 to |joined|
      invariant AllFit(t, result, path)
      invariant CarriesFresh(result, novel) && Concat(novel) == Ink(Concat(joined[..k]))
      invariant reserved == 0 ==> WhollyNovel(result, novel)
    {
      assert joined[..k + 1] == joined[..k] + [joined[k]];
      ConcatOne(joined[..k], joined[k]);
      WithoutAppend(Concat(joined[..k]), joined[k], IsSpace);
      var pieces, added := CutBase(t, if k > 0 then Some(joined[k - 1]) else None, joined[k], path, reserved);
      if pieces.Err? {
        LargeCharacterOfPiece(joined, k, UnderHeading(t, path));
        return pieces, novel;
      }
      ConcatAppend(novel, added);
      CarriesAppend(result, novel, pieces.value, added);
      result, novel := result + pieces.value, novel + added;
    }
    assert joined[..|joined|] == joined;
    return Ok(result), novel;
  }

  function Inks(pieces: seq<string>): (inks: seq<string>)
    ensures |inks| == |pieces| && forall i | 0 <= i < |pieces| :: inks[i] == Ink(pieces[i])
  {
    if pieces == [] then [] else [Ink(pieces[0])] + Inks(pieces[1..])
  }

  lemma {:induction false} InkOfPieces(pieces: seq<string>)
    ensures Concat(Inks(pieces)) == Ink(Concat(pieces))
  {
    if pieces != [] {
      InkOfPieces(pieces[1..]);
      WithoutAppend(pieces[0], Concat(pieces[1..]), IsSpace);
    }
  }

  lemma {:induction false} InkKeepsEnd(text: string, end: string)
    requires EndsWith(text, end)
    ensures EndsWith(Ink(text), Ink(end))
  {
    var before :| text == before + end;
    WithoutAppend(before, end, IsSpace);
  }

  /** Stripping every piece and dropping the blank ones. */
  function StripAll(pieces: seq<string>): seq<string> {
    if pieces == [] then []
    else (if Strip(pieces[0]) != "" then [Strip(pieces[0])] else []) + StripAll(pieces[1..])
  }

  lemma {:induction false} StripAllFits(t: Config, pieces: seq<string>, path: HeadingPath)
    requires StripNeverRaises(t) && AllFit(t, pieces, path)
    ensures AllFit(t, StripAll(pieces), path)
  {
    if pieces != [] {
      StrippedFits(t, pieces[0], path);
      StripAllFits(t, pieces[1..], path);
    }
  }

  lemma {:induction false} EndOfNothing(end: string)
    requires EndsWith("", end)
    ensures end == ""
  {
    var before :| "" == before + end;
    assert |before + end| == 0;
  }

  /** Stripping loses nothing: what the pieces add stays, and is all of them if it was. */
  lemma {:induction false} StripAllKeeps(pieces: seq<string>, novel: seq<string>) returns (kept: seq<string>)
    requires CarriesFresh(pieces, novel)
    ensures CarriesFresh(StripAll(pieces), kept) && Concat(kept) == Concat(novel)
    ensures WhollyNovel(pieces, novel) ==> WhollyNovel(StripAll(pieces), kept)
  {
    if pieces == [] {
      kept := [];
    } else {
      var tail := StripAllKeeps(pieces[1..], novel[1..]);
      var piece := Strip(pieces[0]);
      WithoutTrim(pieces[0], IsSpace);
      assert EndsWith(Ink(piece), novel[0]);
      if piece != "" {
        kept := [novel[0]] + tail;
        CarriesAppend([piece], [novel[0]], StripAll(pieces[1..]), tail);
      } else {
        kept := tail;
        EndOfNothing(novel[0]);
        assert Concat(novel) == Concat(novel[1..]);
        assert StripAll(pieces) == StripAll(pieces[1..]);
      }
    }
  }

  /** `split_text`: the fresh parts of the pieces read as the text but for white space, so
      nothing is lost; without overlap the pieces themselves do. If stripping never
      raises a count, every piece fits. */
  method SplitText(t: Config, text: string, path: HeadingPath, overlap: bool)
      returns (r: Result<seq<string>>, ghost novel: seq<string>)
    ensures r.Ok? ==> CarriesFresh(r.value, novel) && Concat(novel) == Ink(text)
    ensures r.Ok? && (!overlap || Fits(t, text, path)) ==> WhollyNovel(r.value, novel)
    ensures r.Ok? && StripNeverRaises(t) ==> AllFit(t, r.value, path)
    ensures r.Err? && r.error == CharacterTooLarge ==>
      TooLargeFor(t, text, path, ContentBudget(t, path) - (if overlap then t.overlap else 0) - 2)
    ensures r.Err? ==> r.error == CharacterTooLarge || r.error == HeadingTooLarge
    ensures t.Valid() && t.count("") == 0 ==> r != Err(HeadingTooLarge)
  {
    novel := [];
    if Fits(t, text, path) {
      assert Concat([Ink(text)]) == Ink(text) + "";
      assert Ink(text) == "" + Ink(text);
      return Ok([text]), [Ink(text)];
    }
    var reserved := if overlap then t.overlap else 0;
    var budget := ContentBudget(t, path) - reserved - 2;
    if budget < 1 {
      return Err(HeadingTooLarge), novel;
    }
    var bases := RecursiveSplit(t, text, budget, Separators(text));
    if bases.Err? {
      return bases, novel;
    }
    var joined := JoinShort(t, bases.value, path);
    var cut, cutNovel := CutUnderHeading(t, joined, path, reserved);
    if cut.Err? {
      return cut, novel;
    }
    ghost var kept := StripAllKeeps(cut.value, cutNovel);
    if StripNeverRaises(t) {
      StripAllFits(t, cut.value, path);
    }
    return Ok(StripAll(cut.value)), kept;
  }
}

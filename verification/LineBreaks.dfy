/** Restoring the line breaks a model left out of a quote
    (`_restore_line_breaks` in `src/zhiqing_rag/query_answering/service.py`). */
module LineBreaks {
  import opened Text

  predicate IsLineBreak(c: char) {
    c == '\r' || c == '\n'
  }

  function WithoutBreaks(text: string): string {
    Without(text, IsLineBreak)
  }

  /** The positions of the characters of `text` that are not line breaks, in order. */
  function Offsets(text: string): (offsets: seq<nat>)
    ensures forall k | 0 <= k < |offsets| :: offsets[k] < |text| && !IsLineBreak(text[offsets[k]])
  {
    if text == "" then []
    else
      var n := |text| - 1;
      Offsets(text[..n]) + (if IsLineBreak(text[n]) then [] else [n])
  }

  const SHORTEST_NEEDLE := 8

  function RestoreLineBreaks(quote: string, content: string): Option<string> {
    var needle := WithoutBreaks(quote);
    if |needle| < SHORTEST_NEEDLE then None
    else
      var offsets, flat := Offsets(content), WithoutBreaks(content);
      var start := Find(flat, needle, 0);
      if start < 0 || Find(flat, needle, start + 1) >= 0 then None
      else
        OccurrenceIsSlice(content, needle, start);
        Some(content[offsets[start]..offsets[start + |needle| - 1] + 1])
  }

  /** The slice from `i` to `j` reads as `needle` but for line breaks, and begins and ends with a kept character. */
  predicate TightSlice(content: string, needle: string, i: int, j: int) {
    && 0 <= i < j <= |content|
    && !IsLineBreak(content[i]) && !IsLineBreak(content[j - 1])
    && WithoutBreaks(content[i..j]) == needle
  }

  // ----- positions in the text and in the text without its breaks

  lemma {:induction false} OffsetsLength(text: string)
    ensures |Offsets(text)| == |WithoutBreaks(text)|
  {
    if text != "" {
      OffsetsLength(text[..|text| - 1]);
      LastKept(text);
    }
  }

  lemma {:induction false} LastKept(text: string)
    requires text != ""
    ensures var n := |text| - 1; WithoutBreaks(text) == WithoutBreaks(text[..n]) + if IsLineBreak(text[n])
            then "" else [text[n]]
  {
    var n := |text| - 1;
    assert text == text[..n] + [text[n]];
    WithoutAppend(text[..n], [text[n]], IsLineBreak);
  }

  /** Before the offset `k` lie the first `k` kept characters. */
  lemma {:induction false} OffsetFlattens(text: string, k: nat)
    requires k < |Offsets(text)|
    ensures k < |WithoutBreaks(text)| && WithoutBreaks(text[..Offsets(text)[k]]) == WithoutBreaks(text)[..k]
  {
    var n := |text| - 1;
    OffsetsLength(text);
    OffsetsLength(text[..n]);
    LastKept(text);
    if k < |Offsets(text[..n])| {
      OffsetFlattens(text[..n], k);
      assert text[..Offsets(text)[k]] == text[..n][..Offsets(text[..n])[k]];
    }
  }

  lemma {:induction false} OffsetOf(text: string, i: nat)
    requires i < |text| && !IsLineBreak(text[i])
    ensures var k := |WithoutBreaks(text[..i])|; k < |Offsets(text)| && Offsets(text)[k] == i
  {
    var n := |text| - 1;
    if i < n {
      OffsetOf(text[..n], i);
      assert text[..n][..i] == text[..i];
    } else {
      OffsetsLength(text[..n]);
    }
  }

  /** The text up to and with the character at an offset. */
  lemma {:induction false} UptoOffset(text: string, k: nat)
    requires k < |Offsets(text)|
    ensures k < |WithoutBreaks(text)|
    ensures WithoutBreaks(text[..Offsets(text)[k] + 1]) == WithoutBreaks(text)[..k + 1]
  {
    OffsetFlattens(text, k);
    var i := Offsets(text)[k];
    assert text[..i + 1][..i] == text[..i];
    LastKept(text[..i + 1]);
    assert text == text[..i + 1] + text[i + 1..];
    WithoutAppend(text[..i + 1], text[i + 1..], IsLineBreak);
    PrefixOfSum(WithoutBreaks(text[..i + 1]), WithoutBreaks(text[i + 1..]), k + 1);
  }

  lemma {:induction false} PrefixOfSum(a: string, b: string, n: nat)
    requires |a| == n
    ensures (a + b)[..n] == a
  {
  }

  lemma {:induction false} PrefixKeeps(text: string, i: nat, j: nat)
    requires i <= j <= |text|
    ensures WithoutBreaks(text[..j]) == WithoutBreaks(text[..i]) + WithoutBreaks(text[i..j])
  {
    assert text[..j] == text[..i] + text[i..j];
    WithoutAppend(text[..i], text[i..j], IsLineBreak);
  }

  lemma {:induction false} OffsetsIncrease(text: string, a: nat, b: nat)
    requires a < b < |Offsets(text)|
    ensures Offsets(text)[a] < Offsets(text)[b]
  {
    OffsetFlattens(text, a);
    OffsetFlattens(text, b);
    var i, j := Offsets(text)[a], Offsets(text)[b];
    if j <= i {
      PrefixKeeps(text, j, i);
    }
  }

  /** Between two offsets lies what the text without breaks has there. */
  lemma {:induction false} SliceBetween(content: string, at: nat, last: nat)
    requires at <= last < |Offsets(content)|
    ensures Offsets(content)[at] <= Offsets(content)[last] && last < |WithoutBreaks(content)|
    ensures WithoutBreaks(content[Offsets(content)[at]..Offsets(content)[last] + 1])
            == WithoutBreaks(content)[at..last + 1]
  {
    var i, j := Offsets(content)[at], Offsets(content)[last] + 1;
    if at < last {
      OffsetsIncrease(content, at, last);
    }
    OffsetFlattens(content, at);
    UptoOffset(content, last);
    PrefixKeeps(content, i, j);
    MiddleIs(WithoutBreaks(content), at, last + 1, WithoutBreaks(content[i..j]));
  }

  lemma {:induction false} MiddleIs(flat: string, at: nat, end: nat, middle: string)
    requires at <= end <= |flat| && flat[..end] == flat[..at] + middle
    ensures middle == flat[at..end]
  {
    assert flat[..end] == flat[..at] + flat[at..end];
    CancelPrefix(flat[..at], middle, flat[at..end]);
  }

  lemma {:induction false} CancelPrefix(a: string, b: string, c: string)
    requires a + b == a + c
    ensures b == c
  {
    assert (a + b)[|a|..] == b && (a + c)[|a|..] == c;
  }

  /** An occurrence in the text without breaks is a tight slice of the text. */
  lemma {:induction false} OccurrenceIsSlice(content: string, needle: string, at: nat)
    requires needle != "" && OccursAt(WithoutBreaks(content), needle, at)
    ensures at + |needle| <= |Offsets(content)|
    ensures TightSlice(content, needle, Offsets(content)[at], Offsets(content)[at + |needle| - 1] + 1)
  {
    OffsetsLength(content);
    SliceBetween(content, at, at + |needle| - 1);
  }

  /** What a slice reads as stands in the whole text without breaks. */
  lemma {:induction false} SliceReads(content: string, i: nat, j: nat)
    requires i <= j <= |content|
    ensures OccursAt(WithoutBreaks(content), WithoutBreaks(content[i..j]), |WithoutBreaks(content[..i])|)
  {
    var before, middle, after := WithoutBreaks(content[..i]), WithoutBreaks(content[i..j]), WithoutBreaks(content[j..]);
    PrefixKeeps(content, i, j);
    assert content[..|content|] == content && content[j..|content|] == content[j..];
    PrefixKeeps(content, j, |content|);
    assert WithoutBreaks(content) == (before + middle) + after;
    assert ((before + middle) + after)[|before|..|before| + |middle|] == middle;
  }

  /** Every tight slice is found that way. */
  lemma {:induction false} SliceIsOccurrence(content: string, needle: string, i: nat, j: nat)
    requires needle != "" && TightSlice(content, needle, i, j)
    ensures var at := |WithoutBreaks(content[..i])|;
            && OccursAt(WithoutBreaks(content), needle, at) && at + |needle| <= |Offsets(content)|
            && i == Offsets(content)[at] && j == Offsets(content)[at + |needle| - 1] + 1
  {
    OffsetsLength(content);
    SliceReads(content, i, j);
    OffsetOf(content, i);
    OffsetOf(content, j - 1);
    LastOfSlice(content, i, j);
  }

  lemma {:induction false} LastOfSlice(content: string, i: nat, j: nat)
    requires i < j <= |content| && !IsLineBreak(content[j - 1])
    ensures |WithoutBreaks(content[..j - 1])| == |WithoutBreaks(content[..i])| + |WithoutBreaks(content[i..j])| - 1
  {
    PrefixKeeps(content, i, j);
    LastKept(content[..j]);
    assert content[..j][..j - 1] == content[..j - 1];
  }

  /** The only tight slice of the content, if there is exactly one. */
  ghost predicate OnlySlice(content: string, needle: string, i: int, j: int) {
    TightSlice(content, needle, i, j) && forall k, l :: TightSlice(content, needle, k, l) ==> k == i && l == j
  }

  /** A restored quote is the one and only slice of the content that reads as the quote
      but for line breaks. */
  lemma {:induction false} RestoredIsTheOnlySlice(quote: string, content: string) returns (i: int, j: int)
    requires RestoreLineBreaks(quote, content).Some?
    ensures OnlySlice(content, WithoutBreaks(quote), i, j)
    ensures RestoreLineBreaks(quote, content).value == content[i..j]
  {
    var needle, flat, offsets := WithoutBreaks(quote), WithoutBreaks(content), Offsets(content);
    var start := Find(flat, needle, 0);
    OccurrenceIsSlice(content, needle, start);
    i, j := offsets[start], offsets[start + |needle| - 1] + 1;
    forall k, l | TightSlice(content, needle, k, l)
      ensures k == i && l == j
    {
      OnlyOneSlice(content, needle, start, k, l);
    }
  }

  /** If nothing is found after the first occurrence, every tight slice is there. */
  lemma {:induction false} OnlyOneSlice(content: string, needle: string, start: nat, k: nat, l: nat)
    requires needle != "" && TightSlice(content, needle, k, l)
    requires start == Find(WithoutBreaks(content), needle, 0) && Find(WithoutBreaks(content), needle, start + 1) < 0
    ensures start + |needle| <= |Offsets(content)|
    ensures k == Offsets(content)[start] && l == Offsets(content)[start + |needle| - 1] + 1
  {
    SliceIsOccurrence(content, needle, k, l);
    assert |WithoutBreaks(content[..k])| == start;
  }

  /** Nothing is restored exactly when the quote is too short, or no slice or more than
      one slice of the content reads as the quote but for line breaks. */
  lemma {:induction false} NothingRestored(quote: string, content: string)
    ensures RestoreLineBreaks(quote, content).None?
       <==> |WithoutBreaks(quote)| < SHORTEST_NEEDLE || forall i, j :: !OnlySlice(content, WithoutBreaks(quote), i, j)
  {
    var needle, flat, offsets := WithoutBreaks(quote), WithoutBreaks(content), Offsets(content);
    if RestoreLineBreaks(quote, content).Some? {
      var i, j := RestoredIsTheOnlySlice(quote, content);
    } else if |needle| >= SHORTEST_NEEDLE {
      forall i, j | OnlySlice(content, needle, i, j)
        ensures false
      {
        SliceIsOccurrence(content, needle, i, j);
        var start := Find(flat, needle, 0);
        var again := Find(flat, needle, start + 1);
        OccurrenceIsSlice(content, needle, start);
        OccurrenceIsSlice(content, needle, again);
        OffsetsIncrease(content, start, again);
      }
    }
  }

  lemma {:induction false} FlatIsFlat(text: string)
    ensures WithoutBreaks(WithoutBreaks(text)) == WithoutBreaks(text)
  {
    if text != "" {
      var rest := WithoutBreaks(text[1..]);
      FlatIsFlat(text[1..]);
      if IsLineBreak(text[0]) {
        assert WithoutBreaks(text) == rest;
      } else {
        var flat := [text[0]] + rest;
        assert flat[1..] == rest;
        assert WithoutBreaks(flat) == [text[0]] + rest;
      }
    }
  }

  /** A content that begins and ends with a kept character. */
  predicate Framed(content: string) {
    content != "" && !IsLineBreak(content[0]) && !IsLineBreak(content[|content| - 1])
  }

  /** The whole content is restored from all its characters but the line breaks. */
  lemma {:induction false} WholeIsRestored(content: string)
    requires Framed(content) && |WithoutBreaks(content)| >= SHORTEST_NEEDLE
    ensures RestoreLineBreaks(WithoutBreaks(content), content) == Some(content)
  {
    var flat, n := WithoutBreaks(content), |content| - 1;
    FlatIsFlat(content);
    assert OccursAt(flat, flat, 0);
    OffsetOf(content, 0);
    OffsetOf(content, n);
    LastKept(content);
    assert content[0..n + 1] == content;
  }

  /** Its characters without the line breaks do not stand in it, if there are any. */
  lemma {:induction false} FlatDoesNotOccur(content: string)
    requires Framed(content) && |WithoutBreaks(content)| < |content|
    ensures !Contains(content, WithoutBreaks(content))
  {
    var flat := WithoutBreaks(content);
    forall at | OccursAt(content, flat, at)
      ensures false
    {
      NothingAround(content, at, at + |flat|);
    }
  }

  /** A slice that holds all kept characters is the whole content. */
  lemma {:induction false} NothingAround(content: string, at: nat, end: nat)
    requires Framed(content) && at <= end <= |content| && content[at..end] == WithoutBreaks(content)
    ensures end - at == |content|
  {
    FlatIsFlat(content);
    PrefixKeeps(content, at, end);
    PrefixKeeps(content, end, |content|);
    assert content[..|content|] == content;
    assert WithoutBreaks(content[..at]) == "" == WithoutBreaks(content[end..|content|]);
    if end < |content| {
      LastKept(content[end..|content|]);
    }
  }
}

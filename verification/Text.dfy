/** Strings as sequences of characters: occurrences, and what deleting or trimming
    characters keeps of them. */
module Text {

  datatype Option<+T> = None | Some(value: T) {
    function GetOr(default: T): T {
      if Some? then value else default
    }
  }

  // ----- sequences without duplicates

  /** The elements of `s` in order of their first occurrence. */
  function Distinct<T(==)>(s: seq<T>): seq<T> {
    if s == [] then []
    else
      var before, last := Distinct(s[..|s| - 1]), s[|s| - 1];
      if last in before then before else before + [last]
  }

  lemma DistinctGrows<T>(s: seq<T>, x: T)
    ensures Distinct(s + [x]) == if x in Distinct(s) then Distinct(s) else Distinct(s) + [x]
  {
    assert (s + [x])[..|s|] == s;
  }

  lemma {:induction false} DistinctKeeps<T>(s: seq<T>)
    ensures forall x :: x in Distinct(s) <==> x in s
    ensures forall i, j | 0 <= i < j < |Distinct(s)| :: Distinct(s)[i] != Distinct(s)[j]
    ensures |Distinct(s)| <= |s| && (s != [] ==> Distinct(s) != [])
  {
    if s != [] {
      var before, last := s[..|s| - 1], s[|s| - 1];
      DistinctKeeps(before);
      assert s == before + [last];
    }
  }

  // ----- occurrences

  /** `part` occurs in `whole` at `at`. */
  predicate OccursAt(whole: string, part: string, at: int) {
    0 <= at <= |whole| - |part| && whole[at..at + |part|] == part
  }

  /** The `in` of Python and the `includes` of JavaScript on strings. */
  predicate Contains(whole: string, part: string) {
    exists at | 0 <= at <= |whole| :: OccursAt(whole, part, at)
  }

  /** The smallest position at or after `from` where `part` occurs, as `str.find`; -1 if there is none. */
  function Find(whole: string, part: string, from: nat): (at: int)
    ensures at == -1 || (from <= at && OccursAt(whole, part, at))
    ensures forall k | from <= k && OccursAt(whole, part, k) :: 0 <= at <= k
    decreases |whole| - from
  {
    if from > |whole| then -1
    else if OccursAt(whole, part, from) then from
    else Find(whole, part, from + 1)
  }

  lemma ContainsSlice(whole: string, i: nat, j: nat)
    requires i <= j <= |whole|
    ensures Contains(whole, whole[i..j])
  {
    assert OccursAt(whole, whole[i..j], i);
  }

  lemma ContainsLength(whole: string, part: string)
    requires Contains(whole, part)
    ensures |part| <= |whole|
  {
  }

  lemma ContainsTransitive(a: string, b: string, c: string)
    requires Contains(a, b) && Contains(b, c)
    ensures Contains(a, c)
  {
    var i :| 0 <= i <= |a| && OccursAt(a, b, i);
    var j :| 0 <= j <= |b| && OccursAt(b, c, j);
    assert a == a[..i] + b + a[i + |b|..];
    assert b == b[..j] + c + b[j + |c|..];
    assert OccursAt(a, c, i + j);
  }

  // ----- pieces of a text

  function Concat(pieces: seq<string>): string {
    if pieces == [] then "" else pieces[0] + Concat(pieces[1..])
  }

  lemma {:induction false} ConcatAppend(a: seq<string>, b: seq<string>)
    ensures Concat(a + b) == Concat(a) + Concat(b)
  {
    if a == [] {
      assert a + b == b;
    } else {
      assert (a + b)[1..] == a[1..] + b;
      ConcatAppend(a[1..], b);
      Regroup(a[0], Concat(a[1..]), Concat(b));
    }
  }

  lemma ConcatOne(pieces: seq<string>, last: string)
    ensures Concat(pieces + [last]) == Concat(pieces) + last
  {
    ConcatAppend(pieces, [last]);
    assert Concat([last]) == last + "";
  }

  lemma Regroup(a: string, b: string, c: string)
    ensures a + (b + c) == (a + b) + c
  {
  }

  // ----- whitespace

  /** White space for `str.isspace`, `str.strip` and `\s` in Python. */
  predicate IsSpace(c: char) {
    || '\t' <= c <= '\r' || '\U{1C}' <= c <= ' ' || c == '\U{85}' || c == '\U{A0}' || c == '\U{1680}'
    || '\U{2000}' <= c <= '\U{200A}' || c == '\U{2028}' || c == '\U{2029}' || c == '\U{202F}'
         || c == '\U{205F}' || c == '\U{3000}'
  }

  // ----- deleting characters

  /** `text` without the characters `drop` selects. */
  function Without(text: string, drop: char -> bool): (kept: string)
    ensures |kept| <= |text|
  {
    if text == "" then "" else (if drop(text[0]) then "" else [text[0]]) + Without(text[1..], drop)
  }

  lemma {:induction false} WithoutAppend(a: string, b: string, drop: char -> bool)
    ensures Without(a + b, drop) == Without(a, drop) + Without(b, drop)
  {
    if a == "" {
      assert a + b == b;
    } else {
      assert (a + b)[1..] == a[1..] + b;
      WithoutAppend(a[1..], b, drop);
    }
  }

  lemma WithoutKeepsContains(whole: string, part: string, drop: char -> bool)
    requires Contains(whole, part)
    ensures Contains(Without(whole, drop), Without(part, drop))
  {
    var left, right := ContainsSplits(whole, part);
    WithoutAppend(left, part + right, drop);
    WithoutAppend(part, right, drop);
    ContainsMiddle(Without(left, drop), Without(part, drop), Without(right, drop));
  }

  lemma ContainsMiddle(left: string, part: string, right: string)
    ensures Contains(left + (part + right), part)
  {
    assert OccursAt(left + (part + right), part, |left|);
  }

  // ----- trimming both ends

  function TrimLeft(text: string, drop: char -> bool): (t: string)
    ensures |t| <= |text| && (t != "" ==> !drop(t[0]))
  {
    if text != "" && drop(text[0]) then TrimLeft(text[1..], drop) else text
  }

  function TrimRight(text: string, drop: char -> bool): (t: string)
    ensures |t| <= |text| && (t != "" ==> !drop(t[|t| - 1]))
  {
    if text != "" && drop(text[|text| - 1]) then TrimRight(text[..|text| - 1], drop) else text
  }

  /** `text` without the characters `drop` selects at its two ends. */
  function Trim(text: string, drop: char -> bool): string {
    TrimRight(TrimLeft(text, drop), drop)
  }

  lemma {:induction false} TrimLeftStops(left: string, rest: string, drop: char -> bool) returns (l: string)
    requires rest != "" && !drop(rest[0])
    ensures TrimLeft(left + rest, drop) == l + rest
  {
    if left != "" && drop(left[0]) {
      assert (left + rest)[1..] == left[1..] + rest;
      l := TrimLeftStops(left[1..], rest, drop);
    } else {
      l := left;
    }
  }

  lemma {:induction false} TrimRightStops(rest: string, right: string, drop: char -> bool) returns (r: string)
    requires rest != "" && !drop(rest[|rest| - 1])
    ensures TrimRight(rest + right, drop) == rest + r
  {
    if right != "" && drop(right[|right| - 1]) {
      assert (rest + right)[..|rest + right| - 1] == rest + right[..|right| - 1];
      r := TrimRightStops(rest, right[..|right| - 1], drop);
    } else {
      r := right;
    }
  }

  lemma {:induction false} TrimLeftIsSuffix(text: string, drop: char -> bool)
    ensures text == text[..|text| - |TrimLeft(text, drop)|] + TrimLeft(text, drop)
  {
    if text != "" && drop(text[0]) {
      TrimLeftIsSuffix(text[1..], drop);
    }
  }

  lemma {:induction false} TrimRightIsPrefix(text: string, drop: char -> bool)
    ensures text == TrimRight(text, drop) + text[|TrimRight(text, drop)|..]
  {
    if text != "" && drop(text[|text| - 1]) {
      TrimRightIsPrefix(text[..|text| - 1], drop);
    }
  }

  lemma {:induction false} TrimRightKeepsStart(text: string, drop: char -> bool)
    requires text != "" && !drop(text[0])
    ensures TrimRight(text, drop) != "" && TrimRight(text, drop)[0] == text[0]
  {
    if drop(text[|text| - 1]) {
      TrimRightKeepsStart(text[..|text| - 1], drop);
    }
  }

  lemma TrimEnds(text: string, drop: char -> bool)
    ensures var t := Trim(text, drop); t != "" ==> !drop(t[0]) && !drop(t[|t| - 1])
  {
    var tail := TrimLeft(text, drop);
    if tail != "" {
      TrimRightKeepsStart(tail, drop);
    }
  }

  /** What trimming takes away, on both sides. */
  lemma TrimParts(text: string, drop: char -> bool) returns (left: string, right: string)
    ensures text == left + (Trim(text, drop) + right)
  {
    var tail := TrimLeft(text, drop);
    TrimLeftIsSuffix(text, drop);
    TrimRightIsPrefix(tail, drop);
    left, right := text[..|text| - |tail|], tail[|Trim(text, drop)|..];
  }

  /** Trimming stops at characters it keeps. */
  lemma TrimReaches(left: string, core: string, right: string, drop: char -> bool)
    requires core != "" && !drop(core[0]) && !drop(core[|core| - 1])
    ensures Contains(Trim(left + (core + right), drop), core)
  {
    var l := TrimLeftStops(left, core + right, drop);
    Regroup(l, core, right);
    var r := TrimRightStops(l + core, right, drop);
    Regroup(l, core, r);
    ContainsMiddle(l, core, r);
  }

  /** Trimming both keeps one string inside the other. */
  lemma TrimKeepsContains(whole: string, part: string, drop: char -> bool)
    requires Contains(whole, part)
    ensures Contains(Trim(whole, drop), Trim(part, drop))
  {
    var core := Trim(part, drop);
    if core == "" {
      assert OccursAt(Trim(whole, drop), core, 0);
    } else {
      var left, right := ContainsSplits(whole, part);
      var l, r := TrimParts(part, drop);
      Regroup(l, core + r, right);
      Regroup(core, r, right);
      Regroup(left, l, core + (r + right));
      TrimEnds(part, drop);
      TrimReaches(left + l, core, r + right, drop);
    }
  }

  lemma ContainsSplits(whole: string, part: string) returns (left: string, right: string)
    requires Contains(whole, part)
    ensures whole == left + (part + right)
  {
    var at :| 0 <= at <= |whole| && OccursAt(whole, part, at);
    left, right := whole[..at], whole[at + |part|..];
  }

  /** The `strip` of Python. */
  function Strip(text: string): string {
    Trim(text, IsSpace)
  }

  /** A text that neither begins nor ends with white space is its own trimming, and back. */
  lemma {:induction false} TrimmedIsStripped(text: string)
    ensures Strip(text) == text <==> (text != "" ==> !IsSpace(text[0]) && !IsSpace(text[|text| - 1]))
  {
    TrimEnds(text, IsSpace);
  }

  /** Trimming leaves nothing exactly of a text that is all to be trimmed. */
  lemma {:induction false} TrimToNothing(text: string, drop: char -> bool)
    ensures Trim(text, drop) == "" <==> forall c | c in text :: drop(c)
  {
    TrimLeftToNothing(text, drop);
    var tail := TrimLeft(text, drop);
    if tail != "" {
      TrimRightKeepsStart(tail, drop);
    }
  }

  lemma {:induction false} TrimLeftToNothing(text: string, drop: char -> bool)
    ensures TrimLeft(text, drop) == "" <==> forall c | c in text :: drop(c)
  {
    if text != "" && drop(text[0]) {
      TrimLeftToNothing(text[1..], drop);
      assert forall c :: c in text <==> c == text[0] || c in text[1..];
    } else if text != "" {
      assert text[0] in text;
    }
  }

  /** Trimming takes away nothing that deleting would keep. */
  lemma WithoutTrim(text: string, drop: char -> bool)
    ensures Without(Trim(text, drop), drop) == Without(text, drop)
  {
    WithoutTrimLeft(text, drop);
    WithoutTrimRight(TrimLeft(text, drop), drop);
  }

  lemma {:induction false} WithoutTrimLeft(text: string, drop: char -> bool)
    ensures Without(TrimLeft(text, drop), drop) == Without(text, drop)
  {
    if text != "" && drop(text[0]) {
      WithoutTrimLeft(text[1..], drop);
    }
  }

  lemma {:induction false} WithoutTrimRight(text: string, drop: char -> bool)
    ensures Without(TrimRight(text, drop), drop) == Without(text, drop)
  {
    if text != "" && drop(text[|text| - 1]) {
      var n := |text| - 1;
      WithoutTrimRight(text[..n], drop);
      assert text == text[..n] + [text[n]];
      WithoutAppend(text[..n], [text[n]], drop);
    }
  }

  /** The characters of a text that are not white space. */
  function Ink(text: string): string {
    Without(text, IsSpace)
  }
}

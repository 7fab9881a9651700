/** What an upload stores of a document's name, type and code: `upload` in
    `src/zhiqing_rag/modules/documents/service.py`, `validate_document_format` in
    `src/zhiqing_rag/document_processing/format_validation.py`, and the document code in
    `src/zhiqing_rag/modules/documents/schemas.py`. */
module StoredDocuments {
  import opened Text

  // ----- the suffix of a file name

  /** The place of the last dot, -1 if there is none. */
  function LastDot(name: string): (i: int)
    ensures -1 <= i < |name| && (i >= 0 ==> name[i] == '.')
  {
    if name == "" then -1
    else if name[|name| - 1] == '.' then |name| - 1
    else LastDot(name[..|name| - 1])
  }

  /** `Path(name).suffix`: from the last dot on, unless that begins or ends the name. */
  function Suffix(name: string): string {
    var i := LastDot(name);
    if 0 < i < |name| - 1 then name[i..] else ""
  }

  /** `lower`, as far as it makes Latin letters. */
  function LatinLower(c: char): char {
    if 'A' <= c <= 'Z' then ((c as int) - ('A' as int) + ('a' as int)) as char
    else if c == '\U{212A}' then 'k'
    else c
  }

  function LatinLowered(text: string): (lowered: string)
    ensures |lowered| == |text|
  {
    if text == "" then "" else [LatinLower(text[0])] + LatinLowered(text[1..])
  }

  // ----- the six types

  const PDF := "application/pdf"
  const MARKDOWN := "text/markdown"
  const TXT := "text/plain"
  const DOCX := "application/vnd.openxmlformats-officedocument.wordprocessingml.document"
  const XLSX := "application/vnd.openxmlformats-officedocument.spreadsheetml.sheet"
  const XLS := "application/vnd.ms-excel"

  const TYPES: set<string> := {PDF, MARKDOWN, TXT, DOCX, XLSX, XLS}

  /** The type that is stored for a suffix. */
  function TypeOfSuffix(suffix: string): (t: Option<string>)
    ensures t.Some? ==> t.value in TYPES
  {
    if suffix == ".pdf" then Some(PDF)
    else if suffix == ".md" || suffix == ".markdown" then Some(MARKDOWN)
    else if suffix == ".txt" then Some(TXT)
    else if suffix == ".docx" then Some(DOCX)
    else if suffix == ".xlsx" then Some(XLSX)
    else if suffix == ".xls" then Some(XLS)
    else None
  }

  function TypeOf(name: string): (t: Option<string>)
    ensures t.Some? ==> t.value in TYPES
  {
    TypeOfSuffix(LatinLowered(Suffix(name)))
  }

  // ----- names and codes

  const LONGEST_NAME := 500
  const LONGEST_CODE := 100

  predicate Control(c: char) {
    c < ' '
  }

  /** A file name that an upload accepts. */
  predicate StoredName(name: string) {
    |name| <= LONGEST_NAME && TypeOf(name).Some? && forall c | c in name :: !Control(c) && c != '/' && c != '\\'
  }

  /** A document code that an upload or an edit accepts, as it is stored. */
  predicate StoredCode(code: string) {
    0 < |code| <= LONGEST_CODE && Strip(code) == code && forall c | c in code :: !Control(c)
  }

  // ----- there are names of every type, and codes, of many lengths

  /** `n` letters. */
  function Letters(n: nat): (text: string)
    ensures |text| == n && forall c | c in text :: c == 'x'
  {
    seq(n, _ => 'x')
  }

  function SuffixOf(t: string): string {
    if t == PDF then ".pdf"
    else if t == MARKDOWN then ".md"
    else if t == TXT then ".txt"
    else if t == DOCX then ".docx"
    else if t == XLSX then ".xlsx"
    else ".xls"
  }

  lemma {:induction false} LastDotIs(stem: string, rest: string)
    requires '.' !in rest
    ensures LastDot(stem + ("." + rest)) == |stem|
  {
    var name := stem + ("." + rest);
    if rest != "" {
      var n := |rest| - 1;
      assert name[|name| - 1] == rest[n] && rest[n] in rest;
      assert name[..|name| - 1] == stem + ("." + rest[..n]);
      LastDotIs(stem, rest[..n]);
    }
  }

  lemma {:induction false} LoweredIs(text: string)
    requires forall c | c in text :: LatinLower(c) == c
    ensures LatinLowered(text) == text
  {
    if text != "" {
      LoweredIs(text[1..]);
    }
  }

  /** A stem of letters with the suffix of a type is a name of that type. */
  lemma {:induction false} NameOfType(stem: string, t: string)
    requires t in TYPES && 0 < |stem| <= LONGEST_NAME - 5
    requires forall c | c in stem :: !Control(c) && c != '/' && c != '\\'
    ensures var name := stem + SuffixOf(t); StoredName(name) && TypeOf(name) == Some(t)
  {
    SuffixIsPlain(t);
    NameWithSuffix(stem, SuffixOf(t));
    SuffixTells(t);
  }

  /** A dot and then lower case letters. */
  predicate PlainSuffix(suffix: string) {
    && 2 <= |suffix| <= 5 && suffix[0] == '.'
    && forall c | c in suffix[1..] :: 'a' <= c <= 'z'
  }

  lemma {:induction false} SuffixIsPlain(t: string)
    requires t in TYPES
    ensures PlainSuffix(SuffixOf(t))
  {
  }

  lemma {:induction false} NameWithSuffix(stem: string, suffix: string)
    requires PlainSuffix(suffix) && stem != ""
    ensures LatinLowered(Suffix(stem + suffix)) == suffix
    ensures forall c | c in suffix :: !Control(c) && c != '/' && c != '\\'
  {
    var name := stem + suffix;
    assert suffix == "." + suffix[1..];
    LastDotIs(stem, suffix[1..]);
    assert name[|stem|..] == suffix;
    LoweredIs(suffix);
  }

  lemma {:induction false} SuffixTells(t: string)
    requires t in TYPES
    ensures TypeOfSuffix(SuffixOf(t)) == Some(t)
  {
  }

  lemma {:induction false} CodeOfLetters(n: nat)
    requires 0 < n <= LONGEST_CODE
    ensures StoredCode(Letters(n))
  {
    var code := Letters(n);
    assert code[0] in code && code[|code| - 1] in code;
    TrimmedIsStripped(code);
  }

  /** Among the first numbers there is one that is not taken. */
  lemma {:induction false} FreeNumber(taken: set<int>, limit: nat) returns (n: nat)
    requires |taken| < limit
    ensures 1 <= n <= limit && n !in taken
  {
    if limit in taken {
      n := FreeNumber(taken - {limit}, limit - 1);
    } else {
      n := limit;
    }
  }
}

/** The incremental reader of an event stream (`frontend/src/services/query.ts` and
    `frontend/src/services/chat.ts` hold the same loop): it cuts a growing text
    buffer into lines, groups lines into frames and hands each frame to a dispatcher.
    The network may deliver the text in any pieces. */
module EventStream {
  import opened Text

  /** What a blank line hands to the dispatcher. */
  datatype Frame = Frame(event: string, data: seq<string>)

  /** The dispatcher either goes on with a new client state or ends the stream. */
  datatype Verdict<+S, +R> = Continue(client: S) | Stop(client: S, result: R)

  /** How reading a stream ends: the dispatcher stopped it, a frame grew past the
      limit, or the connection closed before the dispatcher stopped it. */
  datatype End<+R> = Stopped(result: R) | TooLarge | Interrupted

  datatype Fields = Fields(event: string, data: seq<string>, size: nat)

  /** The variables the loop keeps between two arrived. */
  datatype Reader<+S> = Reader(buffer: string, fields: Fields, client: S)

  datatype Progress<+S, +R> = Reading(reader: Reader<S>) | Ended(client: S, end: End<R>)

  const NO_FIELDS := Fields("", [], 0)

  const MAX_FRAME_SIZE: nat := 1_000_000

  function Fresh<S>(client: S): Reader<S> {
    Reader("", NO_FIELDS, client)
  }

  // ----- lines

  predicate IsBreak(c: char) {
    c == '\r' || c == '\n'
  }

  /** No line break among the first `n` characters. */
  predicate Unbroken(text: string, n: nat)
    requires n <= |text|
  {
    forall i | 0 <= i < n :: !IsBreak(text[i])
  }

  /** Where the first line of `text` ends: at its first break, or at its end. */
  function LineLength(text: string): (n: nat)
    ensures n <= |text| && Unbroken(text, n)
    ensures n < |text| ==> IsBreak(text[n])
  {
    if text == [] || IsBreak(text[0]) then 0 else 1 + LineLength(text[1..])
  }

  lemma {:induction false} LineLengthIs(text: string, n: nat)
    requires n <= |text| && Unbroken(text, n)
    requires n < |text| ==> IsBreak(text[n])
    ensures LineLength(text) == n
  {
    if n > 0 {
      LineLengthIs(text[1..], n - 1);
    }
  }

  /** Where the line after the first break starts: CRLF is one break. */
  function NextLine(text: string): (n: nat)
    requires LineLength(text) < |text|
    ensures LineLength(text) < n <= |text|
  {
    var i := LineLength(text);
    if text[i] == '\r' && i + 1 < |text| && text[i + 1] == '\n' then i + 2 else i + 1
  }

  /** A carriage return at the end of what has arrived may be half of a CRLF. */
  predicate HoldsReturn(text: string) {
    var i := LineLength(text);
    i + 1 == |text| && text[i] == '\r'
  }

  // ----- one line

  /** A line that is not blank: a comment, or a field with an optional value. */
  function TakeField(fields: Fields, line: string): (f: Fields)
    requires line != ""
    ensures f.size == fields.size
  {
    if line[0] == ':' then fields
    else
      var colon := ColonAt(line);
      var name := line[..colon];
      var raw := if colon < |line| then line[colon + 1..] else "";
      var value := if raw != "" && raw[0] == ' ' then raw[1..] else raw;
      if name == "event" then fields.(event := value)
      else if name == "data" then fields.(data := fields.data + [value])
      else fields
  }

  function ColonAt(line: string): (n: nat)
    ensures n <= |line| && (n < |line| ==> line[n] == ':')
    ensures forall i | 0 <= i < n :: line[i] != ':'
  {
    if line == "" || line[0] == ':' then 0 else 1 + ColonAt(line[1..])
  }

  /** One complete line: count it, then dispatch a blank line or take a field. */
  function TakeLine<S, R>(limit: nat, dispatch: (S, Frame) -> Verdict<S, R>, r: Reader<S>, line: string,
                          rest: string): Progress<S, R>
  {
    var size := r.fields.size + |line|;
    if size > limit then Ended(r.client, TooLarge)
    else if line == "" then
      match dispatch(r.client, Frame(r.fields.event, r.fields.data))
      case Continue(client) => Reading(Reader(rest, NO_FIELDS, client))
      case Stop(client, result) => Ended(client, Stopped(result))
    else Reading(Reader(rest, TakeField(r.fields.(size := size), line), r.client))
  }

  // ----- the loop

  /** The inner loop: take complete lines while there are any. */
  function Drain<S, R>(limit: nat, dispatch: (S, Frame) -> Verdict<S, R>, r: Reader<S>,
                       closed: bool): (p: Progress<S, R>)
    ensures p.Reading? ==> LineLength(p.reader.buffer) == |p.reader.buffer| || (!closed && HoldsReturn(p.reader.buffer))
    decreases |r.buffer|
  {
    var i := LineLength(r.buffer);
    if i == |r.buffer| || (!closed && HoldsReturn(r.buffer)) then Reading(r)
    else
      match TakeLine(limit, dispatch, r, r.buffer[..i], r.buffer[NextLine(r.buffer)..])
      case Reading(next) => Drain(limit, dispatch, next, closed)
      case Ended(client, end) => Ended(client, end)
  }

  /** One turn of the outer loop, on what one read brought. */
  function Feed<S, R>(limit: nat, dispatch: (S, Frame) -> Verdict<S, R>, r: Reader<S>, chunk: string,
                      closed: bool): Progress<S, R> {
    match Drain(limit, dispatch, r.(buffer := r.buffer + chunk), closed)
    case Ended(client, end) => Ended(client, end)
    case Reading(next) =>
      if next.fields.size + |next.buffer| > limit then Ended(next.client, TooLarge)
      else if closed then Ended(next.client, Interrupted)
      else Reading(next)
  }

  /** Reading the chunks one by one; the last read reports that the stream closed. */
  function ReadAll<S, R>(limit: nat, dispatch: (S, Frame) -> Verdict<S, R>, r: Reader<S>,
                         chunks: seq<string>): (S, End<R>)
    decreases |chunks|
  {
    var closed := chunks == [];
    match Feed(limit, dispatch, r, if closed then "" else chunks[0], closed)
    case Ended(client, end) => (client, end)
    case Reading(next) => if closed then (next.client, Interrupted) else ReadAll(limit, dispatch, next, chunks[1..])
  }

  /** The inner `while` of `streamAnswerQuery`, on its local variables. */
  method TakeLines<S, R>(limit: nat, dispatch: (S, Frame) -> Verdict<S, R>, r: Reader<S>, closed: bool)
    returns (result: Progress<S, R>)
    ensures result == Drain(limit, dispatch, r, closed)
  {
    var buffer, fields, client := r.buffer, r.fields, r.client;
    var i := LineLength(buffer);
    while i < |buffer| && (closed || !HoldsReturn(buffer))
      invariant i == LineLength(buffer)
      invariant Drain(limit, dispatch, r, closed) == Drain(limit, dispatch, Reader(buffer, fields, client), closed)
      decreases |buffer|
    {
      var line := buffer[..i];
      ghost var p := TakeLine(limit, dispatch, Reader(buffer, fields, client), line, buffer[NextLine(buffer)..]);
      DrainTakesLine(limit, dispatch, Reader(buffer, fields, client), closed, line, buffer[NextLine(buffer)..]);
      buffer := buffer[NextLine(buffer)..];
      fields := fields.(size := fields.size + |line|);
      if fields.size > limit {
        return Ended(client, TooLarge);
      }
      if line == "" {
        var verdict := dispatch(client, Frame(fields.event, fields.data));
        client, fields := verdict.client, NO_FIELDS;
        if verdict.Stop? {
          return Ended(client, Stopped(verdict.result));
        }
      } else {
        fields := TakeField(fields, line);
      }
      assert p == Reading(Reader(buffer, fields, client));
      i := LineLength(buffer);
    }
    return Reading(Reader(buffer, fields, client));
  }

  /** The outer loop of `streamAnswerQuery`: one turn a read, the last one reporting the close. */
  method ReadStream<S, R>(limit: nat, dispatch: (S, Frame) -> Verdict<S, R>, start: S, chunks: seq<string>)
    returns (client: S, end: End<R>)
    ensures (client, end) == ReadAll(limit, dispatch, Fresh(start), chunks)
  {
    var r := Fresh(start);
    var arrived := 0;
    while true
      invariant arrived <= |chunks|
      invariant ReadAll(limit, dispatch, Fresh(start), chunks) == ReadAll(limit, dispatch, r, chunks[arrived..])
      decreases |chunks| - arrived
    {
      var closed := arrived == |chunks|;
      var p := TakeLines(limit, dispatch, r.(buffer := r.buffer + if closed then "" else chunks[arrived]), closed);
      if p.Ended? {
        return p.client, p.end;
      }
      r := p.reader;
      if r.fields.size + |r.buffer| > limit {
        return r.client, TooLarge;
      }
      if closed {
        return r.client, Interrupted;
      }
      assert chunks[arrived..][1..] == chunks[arrived + 1..];
      arrived := arrived + 1;
    }
  }

  // ----- the reference: the whole text, cut into lines once

  datatype Lines = Lines(complete: seq<string>, rest: string)

  function SplitLines(text: string): (l: Lines)
    decreases |text|
  {
    var i := LineLength(text);
    if i == |text| then Lines([], text)
    else
      var tail := SplitLines(text[NextLine(text)..]);
      Lines([text[..i]] + tail.complete, tail.rest)
  }

  /** Interpreting the lines of a whole stream, with no buffer in sight. */
  function Interpret<S, R>(limit: nat, dispatch: (S, Frame) -> Verdict<S, R>, fields: Fields, client: S,
                           lines: Lines): (S, End<R>)
    decreases |lines.complete|
  {
    if lines.complete == [] then
      (client, if fields.size + |lines.rest| > limit then TooLarge else Interrupted)
    else
      match TakeLine(limit, dispatch, Reader("", fields, client), lines.complete[0], "")
      case Ended(c, end) => (c, end)
      case Reading(next) => Interpret(limit, dispatch, next.fields, next.client, Lines(lines.complete[1..], lines.rest))
  }

  /** What the stream `text` means, however it is delivered. */
  function Meaning<S, R>(limit: nat, dispatch: (S, Frame) -> Verdict<S, R>, start: S, text: string): (S, End<R>) {
    Interpret(limit, dispatch, NO_FIELDS, start, SplitLines(text))
  }

  /** Some line the reader reaches ends in a carriage return and fills its frame to
      exactly the limit. Only then does the place of a cut matter. */
  ghost predicate ReturnAtLimit<S, R>(limit: nat, dispatch: (S, Frame) -> Verdict<S, R>, r: Reader<S>)
    decreases |r.buffer|
  {
    var i := LineLength(r.buffer);
    i < |r.buffer| &&
    (|| (r.buffer[i] == '\r' && r.fields.size + i == limit)
     || (var p := TakeLine(limit, dispatch, r, r.buffer[..i], r.buffer[NextLine(r.buffer)..]);
         p.Reading? && ReturnAtLimit(limit, dispatch, p.reader)))
  }

  // ----- chunk independence

  /** Closing the stream on a buffer means what interpreting its lines means. */
  lemma {:induction false} ClosingInterprets<S, R>(limit: nat, dispatch: (S, Frame) -> Verdict<S, R>, r: Reader<S>)
    ensures Feed(limit, dispatch, r, "", true)
         == (var m := Interpret(limit, dispatch, r.fields, r.client, SplitLines(r.buffer)); Ended(m.0, m.1))
    decreases |r.buffer|
  {
    assert r.(buffer := r.buffer + "") == r by { assert r.buffer + "" == r.buffer; }
    var i := LineLength(r.buffer);
    if i < |r.buffer| {
      var line, rest := r.buffer[..i], r.buffer[NextLine(r.buffer)..];
      var p := TakeLine(limit, dispatch, r, line, rest);
      var q := TakeLine(limit, dispatch, Reader("", r.fields, r.client), line, "");
      assert SplitLines(r.buffer).complete[1..] == SplitLines(rest).complete;
      if p.Reading? {
        assert q.reader == p.reader.(buffer := "");
        assert p.reader.buffer + "" == p.reader.buffer;
        ClosingInterprets(limit, dispatch, p.reader);
      }
    }
  }

  /** Text that arrives later does not change a line that is already complete. */
  lemma {:induction false} CompleteLineStays(buffer: string, more: string)
    requires LineLength(buffer) < |buffer| && !HoldsReturn(buffer)
    ensures LineLength(buffer + more) == LineLength(buffer)
    ensures NextLine(buffer + more) == NextLine(buffer)
    ensures (buffer + more)[NextLine(buffer)..] == buffer[NextLine(buffer)..] + more
    ensures (buffer + more)[..LineLength(buffer)] == buffer[..LineLength(buffer)]
  {
    var i := LineLength(buffer);
    LineLengthIs(buffer + more, i);
  }

  /** Draining what has arrived and then the rest is draining all of it. */
  lemma {:induction false} DrainInTwo<S, R>(limit: nat, dispatch: (S, Frame) -> Verdict<S, R>, r: Reader<S>,
                                            more: string, closed: bool)
    ensures var p := Drain(limit, dispatch, r, false);
            Drain(limit, dispatch, r.(buffer := r.buffer + more), closed)
            == if p.Reading? then Drain(limit, dispatch, p.reader.(buffer := p.reader.buffer + more), closed) else p
    decreases |r.buffer|
  {
    var i := LineLength(r.buffer);
    if i < |r.buffer| && !HoldsReturn(r.buffer) {
      CompleteLineStays(r.buffer, more);
      var whole := r.(buffer := r.buffer + more);
      assert !HoldsReturn(whole.buffer);
      var rest := r.buffer[NextLine(r.buffer)..];
      var p := TakeLine(limit, dispatch, r, r.buffer[..i], rest);
      var q := TakeLine(limit, dispatch, whole, whole.buffer[..i], whole.buffer[NextLine(whole.buffer)..]);
      if p.Reading? {
        assert q.reader == p.reader.(buffer := p.reader.buffer + more);
        DrainInTwo(limit, dispatch, p.reader, more, closed);
      }
    }
  }

  lemma {:induction false} ReturnAtLimitInTwo<S, R>(limit: nat, dispatch: (S, Frame) -> Verdict<S, R>,
                                                    r: Reader<S>, more: string)
    requires !ReturnAtLimit(limit, dispatch, r.(buffer := r.buffer + more))
    ensures var p := Drain(limit, dispatch, r, false);
            p.Reading? ==> !ReturnAtLimit(limit, dispatch, p.reader.(buffer := p.reader.buffer + more))
    decreases |r.buffer|
  {
    var i := LineLength(r.buffer);
    if i < |r.buffer| && !HoldsReturn(r.buffer) {
      CompleteLineStays(r.buffer, more);
      var whole := r.(buffer := r.buffer + more);
      var p := TakeLine(limit, dispatch, r, r.buffer[..i], r.buffer[NextLine(r.buffer)..]);
      var q := TakeLine(limit, dispatch, whole, whole.buffer[..i], whole.buffer[NextLine(whole.buffer)..]);
      if p.Reading? {
        assert q.reader == p.reader.(buffer := p.reader.buffer + more);
        ReturnAtLimitInTwo(limit, dispatch, p.reader, more);
      }
    }
  }

  lemma {:induction false} LongerLine(line: string, more: string)
    requires LineLength(line) == |line|
    ensures LineLength(line + more) >= |line|
  {
    if line != "" {
      assert (line + more)[1..] == line[1..] + more;
      LongerLine(line[1..], more);
    }
  }

  /** A frame that is already too large stays so, whatever still arrives. */
  lemma {:induction false} StaysTooLarge<S, R>(limit: nat, dispatch: (S, Frame) -> Verdict<S, R>,
                                               r: Reader<S>, more: string)
    requires LineLength(r.buffer) == |r.buffer| || HoldsReturn(r.buffer)
    requires r.fields.size + |r.buffer| > limit
    requires !ReturnAtLimit(limit, dispatch, r.(buffer := r.buffer + more))
    ensures Feed(limit, dispatch, r.(buffer := r.buffer + more), "", true) == Ended(r.client, TooLarge)
  {
    var whole := r.buffer + more;
    assert whole + "" == whole;
    var i := LineLength(r.buffer);
    if i < |r.buffer| {
      assert whole[..i] == r.buffer[..i];
      LineLengthIs(whole, i);
    } else {
      LongerLine(r.buffer, more);
    }
  }

  /** What a text means whose first chunk has arrived: what feeding it that chunk says, or what its
      rest then means. */
  ghost predicate FedFirst<S, R>(limit: nat, dispatch: (S, Frame) -> Verdict<S, R>, r: Reader<S>,
                                             chunk: string, more: string) {
    var meaning := Interpret(limit, dispatch, r.fields, r.client, SplitLines(r.buffer + (chunk + more)));
    match Feed(limit, dispatch, r, chunk, false)
    case Ended(client, end) => meaning == (client, end)
    case Reading(next) =>
      && meaning == Interpret(limit, dispatch, next.fields, next.client, SplitLines(next.buffer + more))
      && !ReturnAtLimit(limit, dispatch, next.(buffer := next.buffer + more))
  }

  lemma {:induction false} FirstChunk<S, R>(limit: nat, dispatch: (S, Frame) -> Verdict<S, R>, r: Reader<S>,
                                            chunk: string, more: string)
    requires !ReturnAtLimit(limit, dispatch, r.(buffer := r.buffer + (chunk + more)))
    ensures FedFirst(limit, dispatch, r, chunk, more)
  {
    var all, r1 := r.(buffer := r.buffer + (chunk + more)), r.(buffer := r.buffer + chunk);
    ClosingInterprets(limit, dispatch, all);
    assert r1.buffer + more == all.buffer && all.buffer + "" == all.buffer;
    DrainInTwo(limit, dispatch, r1, more, true);
    ReturnAtLimitInTwo(limit, dispatch, r1, more);
    var p := Drain(limit, dispatch, r1, false);
    if p.Reading? {
      var next := p.reader.(buffer := p.reader.buffer + more);
      assert next.buffer + "" == next.buffer;
      if p.reader.fields.size + |p.reader.buffer| > limit {
        StaysTooLarge(limit, dispatch, p.reader, more);
      } else {
        ClosingInterprets(limit, dispatch, next);
      }
    }
  }

  /** The outcome of a stream and the frames dispatched on the way depend on its text
      alone, unless a line ending in a carriage return fills a frame to the limit. */
  lemma {:induction false} ChunkIndependence<S, R>(limit: nat, dispatch: (S, Frame) -> Verdict<S, R>,
                                                   r: Reader<S>, chunks: seq<string>)
    requires !ReturnAtLimit(limit, dispatch, r.(buffer := r.buffer + Concat(chunks)))
    ensures ReadAll(limit, dispatch, r, chunks)
         == Interpret(limit, dispatch, r.fields, r.client, SplitLines(r.buffer + Concat(chunks)))
    decreases |chunks|
  {
    if chunks == [] {
      ClosingInterprets(limit, dispatch, r);
      assert r.buffer + "" == r.buffer;
    } else {
      FirstChunk(limit, dispatch, r, chunks[0], Concat(chunks[1..]));
      var p := Feed(limit, dispatch, r, chunks[0], false);
      if p.Reading? {
        ChunkIndependence(limit, dispatch, p.reader, chunks[1..]);
      }
    }
  }

  /** Whether this very line is the one at the limit. */
  ghost predicate LineAtLimit<S>(limit: nat, r: Reader<S>) {
    var i := LineLength(r.buffer);
    i < |r.buffer| && r.buffer[i] == '\r' && r.fields.size + i == limit
  }

  /** The cut that breaks independence: right after the carriage return. */
  ghost function CutAtLimit<S, R>(limit: nat, dispatch: (S, Frame) -> Verdict<S, R>, r: Reader<S>): (cut: nat)
    requires ReturnAtLimit(limit, dispatch, r)
    ensures 0 < cut <= |r.buffer|
    decreases |r.buffer|
  {
    var i := LineLength(r.buffer);
    if LineAtLimit(limit, r) then i + 1
    else
      var p := TakeLine(limit, dispatch, r, r.buffer[..i], r.buffer[NextLine(r.buffer)..]);
      NextLine(r.buffer) + CutAtLimit(limit, dispatch, p.reader)
  }

  /** Draining what is there leaves a frame that reads as too large. */
  ghost predicate Overflows<S, R>(limit: nat, dispatch: (S, Frame) -> Verdict<S, R>, r: Reader<S>) {
    var p := Drain(limit, dispatch, r, false);
    p.Reading? && p.reader.fields.size + |p.reader.buffer| > limit
  }

  lemma {:induction false} LineOverflows<S, R>(limit: nat, dispatch: (S, Frame) -> Verdict<S, R>, r: Reader<S>,
                                               first: Reader<S>)
    requires LineAtLimit(limit, r) && first == r.(buffer := r.buffer[..LineLength(r.buffer) + 1])
    ensures Overflows(limit, dispatch, first)
  {
    var i := LineLength(r.buffer);
    LineLengthIs(first.buffer, i);
    assert HoldsReturn(first.buffer);
  }

  /** A cut past the first line leaves that line as it is. */
  lemma {:induction false} CutPastLine(buffer: string, n: nat, cut: nat)
    requires LineLength(buffer) < |buffer| && n == NextLine(buffer) < cut <= |buffer|
    ensures LineLength(buffer[..cut]) == LineLength(buffer)
    ensures NextLine(buffer[..cut]) == n && !HoldsReturn(buffer[..cut])
    ensures buffer[..cut][..LineLength(buffer)] == buffer[..LineLength(buffer)]
    ensures buffer[..cut][n..] == buffer[n..][..cut - n]
  {
    LineLengthIs(buffer[..cut], LineLength(buffer));
  }

  /** Taking a line looks at the text behind it only to keep it. */
  lemma {:induction false} TakeLineKeepsRest<S, R>(limit: nat, dispatch: (S, Frame) -> Verdict<S, R>, r: Reader<S>,
                                                   line: string, rest: string, buffer: string, other: string)
    requires TakeLine(limit, dispatch, r, line, rest).Reading?
    ensures TakeLine(limit, dispatch, r.(buffer := buffer), line, other)
         == Reading(TakeLine(limit, dispatch, r, line, rest).reader.(buffer := other))
    ensures TakeLine(limit, dispatch, r, line, rest).reader.buffer == rest
  {
  }

  /** Draining starts by taking the first line. */
  lemma {:induction false} DrainTakesLine<S, R>(limit: nat, dispatch: (S, Frame) -> Verdict<S, R>, r: Reader<S>,
                                                closed: bool, line: string, rest: string)
    requires LineLength(r.buffer) < |r.buffer| && (closed || !HoldsReturn(r.buffer))
    requires line == r.buffer[..LineLength(r.buffer)] && rest == r.buffer[NextLine(r.buffer)..]
    ensures var p := TakeLine(limit, dispatch, r, line, rest);
            Drain(limit, dispatch, r, closed) == if p.Reading? then Drain(limit, dispatch, p.reader, closed) else p
  {
  }

  /** Draining a cut stream past its first line is draining the rest of the cut. */
  lemma {:induction false} DrainCutLine<S, R>(limit: nat, dispatch: (S, Frame) -> Verdict<S, R>, r: Reader<S>, n: nat,
                                              next: Reader<S>, inner: nat, first: Reader<S>, second: Reader<S>)
    requires LineLength(r.buffer) < |r.buffer| && n == NextLine(r.buffer)
    requires TakeLine(limit, dispatch, r, r.buffer[..LineLength(r.buffer)], r.buffer[n..]) == Reading(next)
    requires 0 < inner && n + inner <= |r.buffer| && |next.buffer| == |r.buffer| - n
    requires first == r.(buffer := r.buffer[..n + inner]) && second == next.(buffer := next.buffer[..inner])
    ensures Drain(limit, dispatch, first, false) == Drain(limit, dispatch, second, false)
  {
    var line, rest := r.buffer[..LineLength(r.buffer)], r.buffer[n..];
    CutPastLine(r.buffer, n, n + inner);
    DrainTakesLine(limit, dispatch, first, false, line, rest[..inner]);
    TakeLineKeepsRest(limit, dispatch, r, line, rest, first.buffer, rest[..inner]);
  }

  /** If the first line is not the one at the limit, it is taken, and the cut is further on. */
  lemma {:induction false} LimitIsFurther<S, R>(limit: nat, dispatch: (S, Frame) -> Verdict<S, R>, r: Reader<S>)
    returns (next: Reader<S>, n: nat, inner: nat)
    requires ReturnAtLimit(limit, dispatch, r) && !LineAtLimit(limit, r)
    ensures LineLength(r.buffer) < |r.buffer| && n == NextLine(r.buffer)
    ensures TakeLine(limit, dispatch, r, r.buffer[..LineLength(r.buffer)], r.buffer[n..]) == Reading(next)
    ensures ReturnAtLimit(limit, dispatch, next) && inner == CutAtLimit(limit, dispatch, next)
    ensures |next.buffer| == |r.buffer| - n && 0 < n && CutAtLimit(limit, dispatch, r) == n + inner
  {
    n := NextLine(r.buffer);
    next := TakeLine(limit, dispatch, r, r.buffer[..LineLength(r.buffer)], r.buffer[n..]).reader;
    inner := CutAtLimit(limit, dispatch, next);
  }

  /** Cut there, the stream overflows. */
  lemma {:induction false} CutIsTooLarge<S, R>(limit: nat, dispatch: (S, Frame) -> Verdict<S, R>, r: Reader<S>,
                                               first: Reader<S>)
    requires ReturnAtLimit(limit, dispatch, r) && first == r.(buffer := r.buffer[..CutAtLimit(limit, dispatch, r)])
    ensures Overflows(limit, dispatch, first)
    decreases |r.buffer|
  {
    if LineAtLimit(limit, r) {
      LineOverflows(limit, dispatch, r, first);
    } else {
      var next, n, inner := LimitIsFurther(limit, dispatch, r);
      var second := next.(buffer := next.buffer[..inner]);
      CutIsTooLarge(limit, dispatch, next, second);
      DrainCutLine(limit, dispatch, r, n, next, inner, first, second);
    }
  }

  lemma {:induction false} ConcatTwo(text: string, cut: nat)
    requires cut <= |text|
    ensures Concat([text[..cut], text[cut..]]) == text
  {
    var chunks := [text[..cut], text[cut..]];
    assert chunks[1..] == [text[cut..]] && chunks[1..][1..] == [];
    assert Concat(chunks[1..]) == text[cut..];
    assert text[..cut] + text[cut..] == text;
  }

  /** However the network cuts it, a stream delivers its meaning. */
  ghost predicate Independent<S(!new), R(!new)>(limit: nat, dispatch: (S, Frame) -> Verdict<S, R>,
                                                start: S, text: string) {
    forall chunks | Concat(chunks) == text ::
        ReadAll(limit, dispatch, Fresh(start), chunks) == Meaning(limit, dispatch, start, text)
  }

  /** Cut there, the first chunk alone is refused. */
  lemma {:induction false} CutIsRefused<S, R>(limit: nat, dispatch: (S, Frame) -> Verdict<S, R>, start: S, text: string)
    requires ReturnAtLimit(limit, dispatch, Reader(text, NO_FIELDS, start))
    ensures var cut := CutAtLimit(limit, dispatch, Reader(text, NO_FIELDS, start));
            var p := Feed(limit, dispatch, Fresh(start), text[..cut], false);
            p.Ended? && p.end == TooLarge
  {
    var r := Reader(text, NO_FIELDS, start);
    var cut := CutAtLimit(limit, dispatch, r);
    CutIsTooLarge(limit, dispatch, r, r.(buffer := text[..cut]));
    assert "" + text[..cut] == text[..cut];
  }

  lemma {:induction false} CutDiffers<S(!new), R(!new)>(limit: nat, dispatch: (S, Frame) -> Verdict<S, R>,
                                                        start: S, text: string)
    requires Meaning(limit, dispatch, start, text).1.Stopped?
    requires ReturnAtLimit(limit, dispatch, Reader(text, NO_FIELDS, start))
    ensures !Independent(limit, dispatch, start, text)
  {
    var cut := CutAtLimit(limit, dispatch, Reader(text, NO_FIELDS, start));
    var chunks := [text[..cut], text[cut..]];
    ConcatTwo(text, cut);
    CutIsRefused(limit, dispatch, start, text);
    assert ReadAll(limit, dispatch, Fresh(start), chunks).1 == TooLarge;
  }

  /** A stream that succeeds when it arrives uncut succeeds alike however it is cut
      if and only if no line of it ends in a carriage return at the size limit. */
  lemma {:induction false} ChunkIndependenceExactly<S(!new), R(!new)>(limit: nat, dispatch: (S, Frame) -> Verdict<S, R>,
      start: S, text: string)
    requires Meaning(limit, dispatch, start, text).1.Stopped?
    ensures Independent(limit, dispatch, start, text) <==>
            !ReturnAtLimit(limit, dispatch, Reader(text, NO_FIELDS, start))
  {
    if ReturnAtLimit(limit, dispatch, Reader(text, NO_FIELDS, start)) {
      CutDiffers(limit, dispatch, start, text);
    } else {
      forall chunks | Concat(chunks) == text
        ensures ReadAll(limit, dispatch, Fresh(start), chunks) == Meaning(limit, dispatch, start, text)
      {
        assert "" + Concat(chunks) == text;
        ChunkIndependence(limit, dispatch, Fresh(start), chunks);
      }
    }
  }

  /** Such streams exist at every limit: a comment line of exactly `limit` characters. */
  lemma {:induction false} CutCanMatter(limit: nat)
    requires limit > 0
    ensures var dispatch := (client: bool, frame: Frame) => Stop(true, frame);
            var text := seq(limit, _ => ':') + "\r\n\r\n";
            Meaning(limit, dispatch, false, text) == (true, Stopped(Frame("", [])))
                && !Independent(limit, dispatch, false, text)
  {
    var dispatch := (client: bool, frame: Frame) => Stop(true, frame);
    var line := seq(limit, _ => ':');
    var text := line + "\r\n\r\n";
    LineLengthIs(text, limit);
    assert text[..limit] == line && NextLine(text) == limit + 2;
    var blank := text[limit + 2..];
    assert blank == "\r\n" && LineLength(blank) == 0 && NextLine(blank) == 2 && blank[2..] == "";
    assert SplitLines(blank) == Lines([""], "");
    assert SplitLines(text) == Lines([line, ""], "");
    var r := Reader(text, NO_FIELDS, false);
    assert ReturnAtLimit(limit, dispatch, r);
    assert [line, ""][1..] == [""] && [""][1..] == [];
    var fields := TakeField(NO_FIELDS.(size := limit), line);
    assert Interpret(limit, dispatch, NO_FIELDS, false, Lines([line, ""], "")) == Interpret(limit, dispatch, fields,
        false, Lines([""], ""));
    CutDiffers(limit, dispatch, false, text);
  }
}

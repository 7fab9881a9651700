/** What a server writes on an event stream (section 9.2.5 of the WHATWG HTML Standard,
    "Parsing an event stream", read from the writer's side) and the proof that the
    reader of `EventStream` hears exactly that, for every line end and every cutting. */
module EventWire {
  import opened EventStream
  import opened Text

  /** A message with its data lines, or a comment such as a heartbeat. */
  datatype Item = Message(event: string, data: seq<string>) | Comment(text: string)

  datatype LineEnd = Lf | Cr | CrLf

  function Eol(e: LineEnd): string {
    match e
    case Lf => "\n"
    case Cr => "\r"
    case CrLf => "\r\n"
  }

  function DataLines(data: seq<string>): seq<string> {
    if data == [] then [] else ["data: " + data[0]] + DataLines(data[1..])
  }

  function ItemLines(item: Item): seq<string> {
    match item
    case Message(event, data) => ["event: " + event] + DataLines(data) + [""]
    case Comment(text) => [":" + text, ""]
  }

  function AllLines(items: seq<Item>): seq<string> {
    if items == [] then [] else ItemLines(items[0]) + AllLines(items[1..])
  }

  function WriteLines(lines: seq<string>, e: LineEnd): string {
    if lines == [] then "" else lines[0] + (Eol(e) + WriteLines(lines[1..], e))
  }

  /** The text a server sends for `items`. */
  function Write(items: seq<Item>, e: LineEnd): string {
    WriteLines(AllLines(items), e)
  }

  function SizeOf(lines: seq<string>): nat {
    if lines == [] then 0 else |lines[0]| + SizeOf(lines[1..])
  }

  predicate Clean(text: string) {
    Unbroken(text, |text|)
  }

  /** No line break inside a name, a data line or a comment, and a frame below the limit. */
  predicate Sendable(item: Item, limit: nat) {
    && SizeOf(ItemLines(item)) < limit
    && match item
       case Message(event, data) => Clean(event) && (forall d | d in data :: Clean(d))
       case Comment(text) => Clean(text)
  }

  function FrameOf(item: Item): Frame {
    match item
    case Message(event, data) => Frame(event, data)
    case Comment(_) => Frame("", [])
  }

  /** The dispatcher run on the items themselves: what a receiver should experience. */
  function Deliver<S, R>(dispatch: (S, Frame) -> Verdict<S, R>, client: S, items: seq<Item>): (S, End<R>) {
    if items == [] then (client, Interrupted)
    else
      match dispatch(client, FrameOf(items[0]))
      case Continue(c) => Deliver(dispatch, c, items[1..])
      case Stop(c, result) => (c, Stopped(result))
  }

  // ----- writing and splitting lines are inverse

  predicate AllClean(lines: seq<string>) {
    forall line | line in lines :: Clean(line)
  }

  /** The break that follows a clean line is read back whole. */
  lemma {:induction false} LineThenBreak(line: string, e: LineEnd, tail: string)
    requires Clean(line) && (tail == "" || tail[0] != '\n' || e != Cr)
    ensures var text := line + (Eol(e) + tail);
            && LineLength(text) == |line| < |text| && text[..|line|] == line
            && text[NextLine(text)..] == tail && text[|line|] == Eol(e)[0]
  {
    var text, n := line + (Eol(e) + tail), |line|;
    assert forall i | 0 <= i < n :: text[i] == line[i];
    LineLengthIs(text, n);
    assert text[n] == Eol(e)[0];
    if e == Cr && tail != "" {
      assert text[n + 1] == tail[0];
    } else if e == CrLf {
      assert text[n + 1] == '\n';
    }
    assert text == line + Eol(e) + tail;
  }

  lemma {:induction false} FirstLine(lines: seq<string>, e: LineEnd)
    requires lines != [] && AllClean(lines)
    ensures var text := WriteLines(lines, e);
            && LineLength(text) == |lines[0]| < |text| && text[..|lines[0]|] == lines[0]
            && text[NextLine(text)..] == WriteLines(lines[1..], e)
            && text[|lines[0]|] == Eol(e)[0]
  {
    if e == Cr && lines[1..] != [] {
      assert lines[1] in lines && Clean(lines[1]);
    }
    LineThenBreak(lines[0], e, WriteLines(lines[1..], e));
  }

  lemma {:induction false} SplitInvertsWrite(lines: seq<string>, e: LineEnd)
    requires AllClean(lines)
    ensures SplitLines(WriteLines(lines, e)) == Lines(lines, "")
  {
    if lines != [] {
      FirstLine(lines, e);
      SplitInvertsWrite(lines[1..], e);
    }
  }

  // ----- sizes stay below the limit

  /** Counting frame by frame from `size`, no line reaches the limit. */
  predicate BelowLimit(lines: seq<string>, size: nat, limit: nat) {
    lines == []
        || (size + |lines[0]| < limit && BelowLimit(lines[1..], if lines[0] == "" then 0 else size + |lines[0]|, limit))
  }

  lemma {:induction false} NeverAtLimit<S, R>(limit: nat, dispatch: (S, Frame) -> Verdict<S, R>,
                                              fields: Fields, client: S,
                                              lines: seq<string>, e: LineEnd)
    requires AllClean(lines) && BelowLimit(lines, fields.size, limit)
    ensures !ReturnAtLimit(limit, dispatch, Reader(WriteLines(lines, e), fields, client))
    decreases |lines|
  {
    if lines != [] {
      FirstLine(lines, e);
      var text := WriteLines(lines, e);
      var p := TakeLine(limit, dispatch, Reader(text, fields, client), lines[0], text[NextLine(text)..]);
      if p.Reading? {
        NeverAtLimit(limit, dispatch, p.reader.fields, p.reader.client, lines[1..], e);
      }
    }
  }

  lemma {:induction false} PrefixBelowLimit(head: seq<string>, tail: seq<string>, size: nat, limit: nat)
    requires "" !in head && size + SizeOf(head) < limit
    requires BelowLimit(tail, size + SizeOf(head), limit)
    ensures BelowLimit(head + tail, size, limit)
    decreases |head|
  {
    if head == [] {
      assert head + tail == tail;
    } else {
      assert (head + tail)[1..] == head[1..] + tail;
      PrefixBelowLimit(head[1..], tail, size + |head[0]|, limit);
    }
  }

  lemma {:induction false} SizeOfAppend(head: seq<string>, tail: seq<string>)
    ensures SizeOf(head + tail) == SizeOf(head) + SizeOf(tail)
  {
    if head == [] {
      assert head + tail == tail;
    } else {
      assert (head + tail)[1..] == head[1..] + tail;
      SizeOfAppend(head[1..], tail);
    }
  }

  lemma {:induction false} DataLinesClean(data: seq<string>)
    requires forall d | d in data :: Clean(d)
    ensures AllClean(DataLines(data)) && "" !in DataLines(data)
  {
    if data != [] {
      DataLinesClean(data[1..]);
      assert data[0] in data && Clean(data[0]);
    }
  }

  /** The non-blank lines of an item. */
  function Head(item: Item): seq<string> {
    match item
    case Message(event, data) => ["event: " + event] + DataLines(data)
    case Comment(text) => [":" + text]
  }

  lemma {:induction false} ItemLinesClean(item: Item, limit: nat)
    requires Sendable(item, limit)
    ensures ItemLines(item) == Head(item) + [""] && "" !in Head(item)
    ensures AllClean(ItemLines(item)) && SizeOf(Head(item)) < limit
  {
    if item.Message? {
      DataLinesClean(item.data);
    }
    SizeOfAppend(Head(item), [""]);
  }

  lemma {:induction false} ItemBelowLimit(item: Item, tail: seq<string>, limit: nat)
    requires Sendable(item, limit) && BelowLimit(tail, 0, limit) && AllClean(tail)
    ensures BelowLimit(ItemLines(item) + tail, 0, limit) && AllClean(ItemLines(item) + tail)
  {
    ItemLinesClean(item, limit);
    var head := Head(item);
    assert ([""] + tail)[1..] == tail;
    PrefixBelowLimit(head, [""] + tail, 0, limit);
    assert head + ([""] + tail) == ItemLines(item) + tail;
  }

  lemma {:induction false} ItemsBelowLimit(items: seq<Item>, limit: nat)
    requires forall item | item in items :: Sendable(item, limit)
    ensures AllClean(AllLines(items)) && BelowLimit(AllLines(items), 0, limit)
  {
    if items != [] {
      ItemsBelowLimit(items[1..], limit);
      ItemBelowLimit(items[0], AllLines(items[1..]), limit);
    }
  }

  // ----- each item arrives as its frame

  lemma {:induction false} EventLine(fields: Fields, event: string)
    ensures TakeField(fields, "event: " + event) == fields.(event := event)
  {
    var line := "event: " + event;
    assert line[..5] == "event" && line[5..] == ": " + event;
    assert line[0] == 'e' && line[1] == 'v' && line[2] == 'e' && line[3] == 'n' && line[4] == 't' && line[5] == ':';
    assert ColonAt(line) == 5;
    assert line[6..] == " " + event && line[6..][1..] == event;
  }

  lemma {:induction false} DataLine(fields: Fields, data: string)
    ensures TakeField(fields, "data: " + data) == fields.(data := fields.data + [data])
  {
    var line := "data: " + data;
    assert line[..4] == "data";
    assert line[0] == 'd' && line[1] == 'a' && line[2] == 't' && line[3] == 'a' && line[4] == ':';
    assert ColonAt(line) == 4;
    assert line[5..] == " " + data && line[5..][1..] == data;
  }

  lemma {:induction false} DataArrives<S, R>(limit: nat, dispatch: (S, Frame) -> Verdict<S, R>,
                                             fields: Fields, client: S,
                                             data: seq<string>, rest: seq<string>)
    requires fields.size + SizeOf(DataLines(data)) < limit
    ensures Interpret(limit, dispatch, fields, client, Lines(DataLines(data) + rest, ""))
         == Interpret(limit, dispatch, Fields(fields.event, fields.data + data, fields.size + SizeOf(DataLines(data))),
             client, Lines(rest, ""))
    decreases |data|
  {
    if data == [] {
      assert DataLines(data) + rest == rest && fields.data + data == fields.data;
    } else {
      var lines := DataLines(data) + rest;
      var sized := fields.(size := fields.size + |lines[0]|);
      DataLine(sized, data[0]);
      assert lines[1..] == DataLines(data[1..]) + rest;
      assert sized.data + [data[0]] + data[1..] == fields.data + data;
      DataArrives(limit, dispatch, sized.(data := sized.data + [data[0]]), client, data[1..], rest);
    }
  }

  /** The blank line after an item hands over its frame. */
  lemma {:induction false} BlankLineDispatches<S, R>(limit: nat, dispatch: (S, Frame) -> Verdict<S, R>, fields: Fields,
                                                     client: S, rest: seq<string>)
    requires fields.size <= limit
    ensures Interpret(limit, dispatch, fields, client, Lines([""] + rest, ""))
         == (var v := dispatch(client, Frame(fields.event, fields.data));
             if v.Stop? then (v.client, Stopped(v.result))
                 else Interpret(limit, dispatch, NO_FIELDS, v.client, Lines(rest, "")))
  {
    assert ([""] + rest)[1..] == rest;
  }

  /** The first line of a message names its event. */
  lemma {:induction false} EventLineTaken<S, R>(limit: nat, dispatch: (S, Frame) -> Verdict<S, R>, client: S,
                                                event: string, rest: seq<string>)
    requires |"event: " + event| <= limit
    ensures Interpret(limit, dispatch, NO_FIELDS, client, Lines(["event: " + event] + rest, ""))
         == Interpret(limit, dispatch, Fields(event, [], |"event: " + event|), client, Lines(rest, ""))
  {
    var line := "event: " + event;
    assert ([line] + rest)[1..] == rest;
    EventLine(NO_FIELDS.(size := |line|), event);
  }

  lemma {:induction false} MessageArrives<S, R>(limit: nat, dispatch: (S, Frame) -> Verdict<S, R>, client: S,
                                                event: string, data: seq<string>, rest: seq<string>)
    requires |"event: " + event| + SizeOf(DataLines(data)) < limit
    ensures Interpret(limit, dispatch, NO_FIELDS, client,
            Lines(["event: " + event] + (DataLines(data) + ([""] + rest)), ""))
         == (var v := dispatch(client, Frame(event, data));
             if v.Stop? then (v.client, Stopped(v.result))
                 else Interpret(limit, dispatch, NO_FIELDS, v.client, Lines(rest, "")))
  {
    var size := |"event: " + event|;
    EventLineTaken(limit, dispatch, client, event, DataLines(data) + ([""] + rest));
    DataArrives(limit, dispatch, Fields(event, [], size), client, data, [""] + rest);
    assert [] + data == data;
    BlankLineDispatches(limit, dispatch, Fields(event, data, size + SizeOf(DataLines(data))), client, rest);
  }

  lemma {:induction false} CommentArrives<S, R>(limit: nat, dispatch: (S, Frame) -> Verdict<S, R>, client: S,
                                                text: string, rest: seq<string>)
    requires |":" + text| < limit
    ensures Interpret(limit, dispatch, NO_FIELDS, client, Lines([":" + text] + ([""] + rest), ""))
         == (var v := dispatch(client, Frame("", []));
             if v.Stop? then (v.client, Stopped(v.result))
                 else Interpret(limit, dispatch, NO_FIELDS, v.client, Lines(rest, "")))
  {
    assert ([":" + text] + ([""] + rest))[1..] == [""] + rest;
    BlankLineDispatches(limit, dispatch, NO_FIELDS.(size := |":" + text|), client, rest);
  }

  lemma {:induction false} ItemLinesThen(item: Item, rest: seq<string>)
    ensures ItemLines(item) + rest
         == match item
            case Message(event, data) => ["event: " + event] + (DataLines(data) + ([""] + rest))
            case Comment(text) => [":" + text] + ([""] + rest)
  {
    match item
    case Message(event, data) =>
      LinesRegroup(["event: " + event], DataLines(data), [""], rest);
    case Comment(_) =>
  }

  lemma {:induction false} LinesRegroup(a: seq<string>, b: seq<string>, c: seq<string>, d: seq<string>)
    ensures ((a + b) + c) + d == a + (b + (c + d))
    ensures (a + (b + c)) + d == a + (b + (c + d))
  {
  }

  lemma {:induction false} ItemArrives<S, R>(limit: nat, dispatch: (S, Frame) -> Verdict<S, R>, client: S,
                                             item: Item, rest: seq<string>)
    requires Sendable(item, limit)
    ensures Interpret(limit, dispatch, NO_FIELDS, client, Lines(ItemLines(item) + rest, ""))
         == (var v := dispatch(client, FrameOf(item));
             if v.Stop? then (v.client, Stopped(v.result))
                 else Interpret(limit, dispatch, NO_FIELDS, v.client, Lines(rest, "")))
  {
    ItemLinesClean(item, limit);
    ItemLinesThen(item, rest);
    match item
    case Message(event, data) => MessageArrives(limit, dispatch, client, event, data, rest);
    case Comment(text) => CommentArrives(limit, dispatch, client, text, rest);
  }

  lemma {:induction false} ItemsArrive<S, R>(limit: nat, dispatch: (S, Frame) -> Verdict<S, R>,
                                             client: S, items: seq<Item>)
    requires forall item | item in items :: Sendable(item, limit)
    ensures Interpret(limit, dispatch, NO_FIELDS, client, Lines(AllLines(items), ""))
            == Deliver(dispatch, client, items)
    decreases |items|
  {
    if items != [] {
      ItemArrives(limit, dispatch, client, items[0], AllLines(items[1..]));
      var v := dispatch(client, FrameOf(items[0]));
      ItemsArrive(limit, dispatch, v.client, items[1..]);
    }
  }

  /** Whatever the line end and however the network cuts the text, the dispatcher
      gets exactly the frames that were written, in order. */
  lemma {:induction false} WireDelivers<S, R>(limit: nat, dispatch: (S, Frame) -> Verdict<S, R>, start: S,
                                              items: seq<Item>, e: LineEnd, chunks: seq<string>)
    requires forall item | item in items :: Sendable(item, limit)
    requires Concat(chunks) == Write(items, e)
    ensures ReadAll(limit, dispatch, Fresh(start), chunks) == Deliver(dispatch, start, items)
  {
    var lines := AllLines(items);
    ItemsBelowLimit(items, limit);
    NeverAtLimit(limit, dispatch, NO_FIELDS, start, lines, e);
    assert "" + Concat(chunks) == Write(items, e);
    ChunkIndependence(limit, dispatch, Fresh(start), chunks);
    SplitInvertsWrite(lines, e);
    ItemsArrive(limit, dispatch, start, items);
  }
}

/** The log pump of a job (`pump_logs` in exec.rs): output arrives in chunks, is cut into lines, and is
    written to the `logs` table in batches. Text is taken as decoded. */
module LogPump {
  import opened Wrappers
  import opened Redaction
  import opened LogLines
  import opened ControlLines

  /** What the container sends. */
  datatype Output = StdOut(text: string) | StdErr(text: string) | Console(text: string) | StdIn(text: string)

  /** One item of the stream: a chunk, the container gone (404), or another error. */
  datatype Item = Chunk(output: Output) | Gone | Broken(message: string)

  const BATCH := 256

  function StreamOf(o: Output): StreamName {
    if o.StdErr? then Stderr else Stdout
  }

  /** How many items are read before the stream ends or fails. */
  function Chunks(items: seq<Item>): (n: nat)
    ensures n <= |items| && (n < |items| ==> !items[n].Chunk?)
    ensures forall i :: 0 <= i < n ==> items[i].Chunk?
  {
    if items == [] || !items[0].Chunk? then 0 else 1 + Chunks(items[1..])
  }

  lemma ChunksEnd(items: seq<Item>, n: nat)
    requires n <= |items| && (forall i :: 0 <= i < n ==> items[i].Chunk?) && (n < |items| ==> !items[n].Chunk?)
    ensures n == Chunks(items)
  {
  }

  /** What one item adds to a stream: all but stderr goes to stdout, and errors carry no text. */
  function Share(item: Item, stream: StreamName): string {
    match (item, stream)
    case (Chunk(StdErr(text)), Stderr) => text
    case (Chunk(StdOut(text)), Stdout) => text
    case (Chunk(Console(text)), Stdout) => text
    case (Chunk(StdIn(text)), Stdout) => text
    case _ => ""
  }

  /** All that one stream carries in the first `n` items. */
  function TextOf(items: seq<Item>, n: nat, stream: StreamName): string
    requires n <= |items|
  {
    if n == 0 then "" else TextOf(items, n - 1, stream) + Share(items[n - 1], stream)
  }

  /** A row of `logs`, without its sequence number. */
  datatype LogRow = LogRow(stream: StreamName, line: string)

  type LogTable = map<int, LogRow>

  /** The lines of one stream, oldest first. */
  function LinesOf(log: seq<LogRow>, stream: StreamName): seq<string> {
    if log == [] then []
    else
      var n := |log| - 1;
      LinesOf(log[..n], stream) + (if log[n].stream == stream then [log[n].line] else [])
  }

  /** `lines` are the lines of one stream in the log, in order. */
  ghost predicate StreamLines(log: seq<LogRow>, stream: StreamName, lines: seq<string>) {
    exists places :: RowPlaces(log, stream, places) && LinesAt(log, places, lines)
  }

  ghost predicate RowPlaces(log: seq<LogRow>, stream: StreamName, places: seq<int>) {
    Rising(places, |log|) && forall i :: 0 <= i < |log| ==> (i in places <==> log[i].stream == stream)
  }

  ghost predicate LinesAt(log: seq<LogRow>, places: seq<int>, lines: seq<string>) {
    |lines| == |places| && forall k :: 0 <= k < |places| ==> 0 <= places[k] < |log| && lines[k] == log[places[k]].line
  }

  lemma {:induction false} LinesOfAreStreamLines(log: seq<LogRow>, stream: StreamName)
    ensures StreamLines(log, stream, LinesOf(log, stream))
  {
    if log == [] {
      var none: seq<int> := [];
      assert RowPlaces(log, stream, none) && LinesAt(log, none, []);
    } else {
      LinesOfAreStreamLines(log[..|log| - 1], stream);
      LinesOfMorePlaces(log, stream, LinesOf(log[..|log| - 1], stream));
    }
  }

  lemma LinesOfMorePlaces(log: seq<LogRow>, stream: StreamName, lines: seq<string>)
    requires log != [] && StreamLines(log[..|log| - 1], stream, lines)
    ensures var n := |log| - 1;
            StreamLines(log, stream, if log[n].stream == stream then lines + [log[n].line] else lines)
  {
    var places :| RowPlaces(log[..|log| - 1], stream, places) && LinesAt(log[..|log| - 1], places, lines);
    MorePlaces(log, stream, places, lines);
  }

  lemma MorePlaces(log: seq<LogRow>, stream: StreamName, places: seq<int>, lines: seq<string>)
    requires log != [] && RowPlaces(log[..|log| - 1], stream, places) && LinesAt(log[..|log| - 1], places, lines)
    ensures var n := |log| - 1;
            StreamLines(log, stream, if log[n].stream == stream then lines + [log[n].line] else lines)
  {
    var n := |log| - 1;
    assert forall i :: 0 <= i < n ==> log[..n][i] == log[i];
    assert n !in places;
    if log[n].stream == stream {
      OnePlaceMore(log, stream, places, lines);
    } else {
      assert RowPlaces(log, stream, places) && LinesAt(log, places, lines);
    }
  }

  lemma OnePlaceMore(log: seq<LogRow>, stream: StreamName, places: seq<int>, lines: seq<string>)
    requires log != [] && RowPlaces(log[..|log| - 1], stream, places) && LinesAt(log[..|log| - 1], places, lines)
    requires log[|log| - 1].stream == stream
    ensures var n := |log| - 1; RowPlaces(log, stream, places + [n]) && LinesAt(log, places + [n], lines + [log[n].line])
  {
    var n := |log| - 1;
    assert forall i :: 0 <= i < n ==> log[..n][i] == log[i];
  }

  /** The rows of `log` stand in the table after what was there, numbered from `first + 1` on, and nothing else does. */
  ghost predicate RowsFollow(before: LogTable, first: int, log: seq<LogRow>, table: LogTable) {
    && (forall s :: s in table <==> s in before || first < s <= first + |log|)
    && (forall s :: s in before ==> s in table && table[s] == before[s])
    && (forall k :: 0 <= k < |log| ==> first + 1 + k in table && table[first + 1 + k] == log[k])
  }

  /** The table with `log` written after sequence number `first`, row by row. */
  function Appended(table: LogTable, first: int, log: seq<LogRow>): LogTable {
    if log == [] then table
    else Appended(table, first, log[..|log| - 1])[first + |log| := log[|log| - 1]]
  }

  /** Nothing that was in the table is touched, and the new rows are numbered without a gap. */
  lemma {:induction false} AppendedRows(table: LogTable, first: int, log: seq<LogRow>)
    requires forall s :: s in table ==> s <= first
    ensures forall s :: s in Appended(table, first, log) <==> s in table || first < s <= first + |log|
    ensures forall s :: s in table ==> Appended(table, first, log)[s] == table[s]
    ensures forall k :: 0 <= k < |log| ==> Appended(table, first, log)[first + 1 + k] == log[k]
  {
    if log != [] {
      AppendedRows(table, first, log[..|log| - 1]);
    }
  }

  /** `max(seq)`, or 0. */
  ghost predicate IsMaxSeq(table: LogTable, m: int) {
    (forall s :: s in table ==> s <= m) && (m in table || (table == map[] && m == 0))
  }

  method MaxLogSeq(table: LogTable) returns (m: int)
    ensures IsMaxSeq(table, m)
  {
    m := 0;
    var rest := table.Keys;
    while rest != {}
      invariant rest <= table.Keys
      invariant rest == table.Keys ==> m == 0
      invariant rest != table.Keys ==> m in table && forall s :: s in table && s !in rest ==> s <= m
      decreases rest
    {
      var s := AnyOf(rest);
      if rest == table.Keys || m < s { m := s; }
      rest := rest - {s};
    }
  }

  datatype Numbered = Numbered(seqNo: int, row: LogRow)

  /** A buffered batch: the rows of `log` from place `from` on, with their numbers. */
  ghost predicate Buffered(batch: seq<Numbered>, first: int, log: seq<LogRow>) {
    |batch| <= |log|
    && forall k :: 0 <= k < |batch| ==>
         batch[k] == Numbered(first + 1 + |log| - |batch| + k, log[|log| - |batch| + k])
  }

  /** The written rows and the batch together are `log`, numbered from `first` on. */
  ghost predicate Written(before: LogTable, first: int, log: seq<LogRow>, table: LogTable, batch: seq<Numbered>, seqNo: int) {
    && IsMaxSeq(before, first) && seqNo == first + |log|
    && Buffered(batch, first, log) && table == Appended(before, first, log[..|log| - |batch|])
  }

  lemma WriteOne(before: LogTable, first: int, log: seq<LogRow>, n: nat, table: LogTable)
    requires IsMaxSeq(before, first) && n < |log| && table == Appended(before, first, log[..n])
    ensures first + 1 + n !in table && table[first + 1 + n := log[n]] == Appended(before, first, log[..n + 1])
  {
    AppendedRows(before, first, log[..n]);
    assert log[..n + 1][..n] == log[..n];
  }

  lemma BufferOne(before: LogTable, first: int, log: seq<LogRow>, table: LogTable, batch: seq<Numbered>, seqNo: int, row: LogRow)
    requires Written(before, first, log, table, batch, seqNo)
    ensures Written(before, first, log + [row], table, batch + [Numbered(seqNo + 1, row)], seqNo + 1)
  {
    assert (log + [row])[..|log| - |batch|] == log[..|log| - |batch|];
  }

  /** The stdout and stderr lines cut off so far, control lines included, and the lines logged for them. */
  datatype Story = Story(out: seq<string>, err: seq<string>, log: seq<LogRow>) {
    function Cut(stream: StreamName): seq<string> {
      if stream.Stdout? then out else err
    }
  }

  /** What the story so far has come to. */
  ghost predicate Summed(ws: Space, secrets: seq<string>, st: Story, result: Option<string>, progress: Option<string>,
                         progress0: Option<string>)
  {
    NoneEmpty(secrets) && forall s :: SummedFor(ws, secrets, st, s, result, progress, progress0)
  }

  /** The log has the lines of the stream that are kept; stdout also gives result and progress. */
  ghost predicate SummedFor(ws: Space, secrets: seq<string>, st: Story, s: StreamName, result: Option<string>,
                            progress: Option<string>, progress0: Option<string>)
    requires NoneEmpty(secrets)
  {
    && LinesOf(st.log, s) == Kept(ws, secrets, s, st.Cut(s))
    && (s.Stdout? ==> result == LastResult(ws, st.out) && progress == LastProgress(ws, st.out, progress0))
  }

  function CutStory(st: Story, stream: StreamName, line: string): Story {
    if stream.Stdout? then st.(out := st.out + [line]) else st.(err := st.err + [line])
  }

  function LogStory(st: Story, stream: StreamName, line: string, masked: string): Story {
    CutStory(st, stream, line).(log := st.log + [LogRow(stream, masked)])
  }

  lemma SumControlLine(ws: Space, secrets: seq<string>, st: Story, result: Option<string>, progress: Option<string>,
                       progress0: Option<string>, stream: StreamName, line: string)
    requires Summed(ws, secrets, st, result, progress, progress0)
    ensures match KindOf(ws, stream, line)
            case ResultLine(p) => Summed(ws, secrets, CutStory(st, stream, line), Some(p), progress, progress0)
            case ProgressLine(p) => Summed(ws, secrets, CutStory(st, stream, line), result, Some(p), progress0)
            case LogLine => true
  {
    var st' := CutStory(st, stream, line);
    match KindOf(ws, stream, line)
    case ResultLine(p) =>
      forall s ensures SummedFor(ws, secrets, st', s, Some(p), progress, progress0) {
        assert SummedFor(ws, secrets, st, s, result, progress, progress0);
        ControlLineFor(ws, secrets, st, s, result, progress, progress0, stream, line);
      }
    case ProgressLine(p) =>
      forall s ensures SummedFor(ws, secrets, st', s, result, Some(p), progress0) {
        assert SummedFor(ws, secrets, st, s, result, progress, progress0);
        ControlLineFor(ws, secrets, st, s, result, progress, progress0, stream, line);
      }
    case LogLine =>
  }

  /** A control line changes the result or the progress, and adds a line to those cut. */
  ghost predicate ControlSums(ws: Space, secrets: seq<string>, st: Story, s: StreamName, result: Option<string>,
                              progress: Option<string>, progress0: Option<string>, stream: StreamName, line: string)
    requires NoneEmpty(secrets)
  {
    match KindOf(ws, stream, line)
    case ResultLine(p) => SummedFor(ws, secrets, CutStory(st, stream, line), s, Some(p), progress, progress0)
    case ProgressLine(p) => SummedFor(ws, secrets, CutStory(st, stream, line), s, result, Some(p), progress0)
    case LogLine => true
  }

  lemma ControlLineFor(ws: Space, secrets: seq<string>, st: Story, s: StreamName, result: Option<string>, progress: Option<string>,
                       progress0: Option<string>, stream: StreamName, line: string)
    requires NoneEmpty(secrets) && SummedFor(ws, secrets, st, s, result, progress, progress0)
    ensures ControlSums(ws, secrets, st, s, result, progress, progress0, stream, line)
  {
    if !KindOf(ws, stream, line).LogLine? { ControlMore(ws, secrets, st.out, line, progress0); }
  }

  lemma ControlMore(ws: Space, secrets: seq<string>, lines: seq<string>, line: string, progress0: Option<string>)
    requires NoneEmpty(secrets) && !KindOf(ws, Stdout, line).LogLine?
    ensures Kept(ws, secrets, Stdout, lines + [line]) == Kept(ws, secrets, Stdout, lines)
    ensures LastResult(ws, lines + [line])
         == match KindOf(ws, Stdout, line) case ResultLine(p) => Some(p) case _ => LastResult(ws, lines)
    ensures LastProgress(ws, lines + [line], progress0)
         == match KindOf(ws, Stdout, line) case ProgressLine(p) => Some(p) case _ => LastProgress(ws, lines, progress0)
  {
    assert (lines + [line])[..|lines|] == lines;
  }

  lemma LinesOfMore(log: seq<LogRow>, row: LogRow, s: StreamName)
    ensures LinesOf(log + [row], s) == LinesOf(log, s) + (if row.stream == s then [row.line] else [])
  {
    assert (log + [row])[..|log|] == log;
  }

  lemma MoreLines(ws: Space, secrets: seq<string>, stream: StreamName, lines: seq<string>, line: string)
    requires NoneEmpty(secrets) && KindOf(ws, stream, line).LogLine?
    ensures Kept(ws, secrets, stream, lines + [line]) == Kept(ws, secrets, stream, lines) + [Redact(line, secrets)]
    ensures stream.Stdout? ==> LastResult(ws, lines + [line]) == LastResult(ws, lines)
    ensures stream.Stdout? ==> forall p :: LastProgress(ws, lines + [line], p) == LastProgress(ws, lines, p)
  {
    assert (lines + [line])[..|lines|] == lines;
  }

  lemma SumLogLine(ws: Space, secrets: seq<string>, st: Story, result: Option<string>, progress: Option<string>,
                   progress0: Option<string>, stream: StreamName, line: string)
    requires Summed(ws, secrets, st, result, progress, progress0) && KindOf(ws, stream, line).LogLine?
    ensures Summed(ws, secrets, LogStory(st, stream, line, Redact(line, secrets)), result, progress, progress0)
  {
    var st' := LogStory(st, stream, line, Redact(line, secrets));
    forall s ensures SummedFor(ws, secrets, st', s, result, progress, progress0) {
      assert SummedFor(ws, secrets, st, s, result, progress, progress0);
      LinesOfMore(st.log, LogRow(stream, Redact(line, secrets)), s);
      MoreLines(ws, secrets, stream, st.Cut(stream), line);
    }
  }

  function Other(s: StreamName): StreamName {
    if s.Stdout? then Stderr else Stdout
  }

  /** Cutting the first line off a buffer. */
  lemma CutOne(done: seq<string>, buf: string, i: nat)
    requires FindNewline(buf) == Some(i)
    ensures done + TrimAll(Complete(buf)) == (done + [TrimCr(buf[..i])]) + TrimAll(Complete(buf[i + 1..]))
    ensures Tail(buf) == Tail(buf[i + 1..])
  {
    TrimAllJoin([buf[..i]], Complete(buf[i + 1..]));
    assert TrimAll([buf[..i]]) == [TrimCr(buf[..i])];
    Regroup(done, [TrimCr(buf[..i])], TrimAll(Complete(buf[i + 1..])));
  }

  /** What one more chunk adds to the text of its stream, and to that of the other: nothing. */
  lemma ReadMore(items: seq<Item>, n: nat, o: Output)
    requires n < |items| && items[n] == Chunk(o)
    ensures var text, text' := TextOf(items, n, StreamOf(o)), TextOf(items, n + 1, StreamOf(o));
            && Tail(text') == Tail(Tail(text) + o.text)
            && TrimAll(Complete(text')) == TrimAll(Complete(text)) + TrimAll(Complete(Tail(text) + o.text))
    ensures TextOf(items, n + 1, Other(StreamOf(o))) == TextOf(items, n, Other(StreamOf(o)))
  {
    var text := TextOf(items, n, StreamOf(o));
    FeedingMore(text, o.text);
    TrimAllJoin(Complete(text), Complete(Tail(text) + o.text));
    assert TextOf(items, n, Other(StreamOf(o))) + "" == TextOf(items, n, Other(StreamOf(o)));
  }

  lemma TrimAllJoin(a: seq<string>, b: seq<string>)
    ensures TrimAll(a + b) == TrimAll(a) + TrimAll(b)
  {
  }

  class Pump {
    const secrets: seq<string>
    const ws: Space
    var table: LogTable
    var progress: Option<string>
    var seqNo: int
    var bufOut: string
    var bufErr: string
    var result: Option<string>
    var batch: seq<Numbered>
    ghost const before: LogTable
    ghost const progress0: Option<string>
    ghost const first: int
    ghost var story: Story

    /** A pump on a run's log and progress, about to read the first item. */
    constructor (table: LogTable, progress: Option<string>, secrets: seq<string>, ws: Space)
      requires NoneEmpty(secrets)
      ensures Valid() && Starting()
      ensures this.table == before == table && this.progress == progress0 == progress
      ensures this.secrets == secrets && this.ws == ws && IsMaxSeq(table, first)
    {
      var m := MaxLogSeq(table);
      this.table, this.progress, this.secrets, this.ws := table, progress, secrets, ws;
      before, progress0 := table, progress;
      bufOut, bufErr, result, batch := "", "", None, [];
      story := Story([], [], []);
      seqNo, first := m, m;
    }

    ghost predicate Starting()
      reads this
    {
      story == Story([], [], []) && bufOut == "" && bufErr == "" && batch == []
    }

    ghost predicate Valid()
      reads this
    {
      && Written(before, first, story.log, table, batch, seqNo) && |batch| < BATCH
      && Summed(ws, secrets, story, result, progress, progress0)
    }

    /** `append_logs_batch`, then clear. No number is taken yet, so ON CONFLICT DO NOTHING skips no row. */
    method Flush()
      requires Written(before, first, story.log, table, batch, seqNo)
      modifies `table, `batch
      ensures Written(before, first, story.log, table, batch, seqNo) && batch == []
    {
      ghost var log := story.log;
      ghost var n := |log| - |batch|;
      for k := 0 to |batch|
        invariant batch == old(batch)
        invariant table == Appended(before, first, log[..n + k])
      {
        WriteOne(before, first, log, n + k, table);
        WriteRow(batch[k]);
      }
      batch := [];
      AllWritten(log, n + |old(batch)|);
    }

    lemma AllWritten(log: seq<LogRow>, n: nat)
      requires n == |log| && log == story.log && batch == [] && IsMaxSeq(before, first) && seqNo == first + |log|
      requires table == Appended(before, first, log[..n])
      ensures Written(before, first, log, table, [], seqNo)
    {
    }

    /** INSERT ... ON CONFLICT DO NOTHING */
    method WriteRow(row: Numbered)
      modifies `table
      ensures table == if row.seqNo in old(table) then old(table) else old(table)[row.seqNo := row.row]
    {
      if row.seqNo !in table { table := table[row.seqNo := row.row]; }
    }

    /** One more line for the log. */
    method Push(stream: StreamName, line: string, ghost story': Story)
      requires Written(before, first, story.log, table, batch, seqNo)
      requires story'.log == story.log + [LogRow(stream, line)]
      modifies `seqNo, `batch, `table, `story
      ensures Written(before, first, story.log, table, batch, seqNo) && |batch| < BATCH && story == story'
    {
      BufferOne(before, first, story.log, table, batch, seqNo, LogRow(stream, line));
      seqNo := seqNo + 1;
      batch := batch + [Numbered(seqNo, LogRow(stream, line))];
      story := story';
      if |batch| >= BATCH { Flush(); }
    }

    /** A line of either stream: a control line is taken out, any other is masked and logged. */
    method HandleLine(stream: StreamName, line: string)
      requires Valid()
      modifies `seqNo, `batch, `table, `result, `progress, `story
      ensures Valid() && story.(log := []) == CutStory(old(story), stream, line).(log := [])
      ensures forall p :: GivesResult(ws, stream, line, p) ==>
                result == Some(p) && progress == old(progress) && story.log == old(story.log)
      ensures forall p :: GivesProgress(ws, stream, line, p) ==>
                progress == Some(p) && result == old(result) && story.log == old(story.log)
      ensures IsLogged(ws, stream, line) ==>
                && result == old(result) && progress == old(progress) && NoneEmpty(secrets)
                && story.log == old(story.log) + [LogRow(stream, Redact(line, secrets))]
    {
      KindIsRight(ws, stream, line);
      SumControlLine(ws, secrets, story, result, progress, progress0, stream, line);
      match KindOf(ws, stream, line) {
        case ResultLine(payload) =>
          result, story := Some(payload), CutStory(story, stream, line);
        case ProgressLine(payload) =>
          progress, story := Some(payload), CutStory(story, stream, line);
        case LogLine =>
          LogOne(stream, line);
      }
    }

    /** A line that is no control line. */
    method LogOne(stream: StreamName, line: string)
      requires Valid() && KindOf(ws, stream, line).LogLine?
      modifies `seqNo, `batch, `table, `story
      ensures Valid() && story == LogStory(old(story), stream, line, Redact(line, secrets))
    {
      SumLogLine(ws, secrets, story, result, progress, progress0, stream, line);
      var masked := RedactSecrets(line, secrets);
      Push(stream, masked, LogStory(story, stream, line, masked));
    }

    function Buffer(stream: StreamName): string
      reads this
    {
      if stream.Stdout? then bufOut else bufErr
    }

    method SetBuffer(stream: StreamName, text: string)
      modifies `bufOut, `bufErr
      ensures Buffer(stream) == text && Buffer(Other(stream)) == old(Buffer(Other(stream)))
    {
      if stream.Stdout? { bufOut := text; } else { bufErr := text; }
    }

    /** Nothing of the other stream has moved. */
    twostate predicate OnlyStream(stream: StreamName)
      reads this
    {
      && Buffer(Other(stream)) == old(Buffer(Other(stream)))
      && story.Cut(Other(stream)) == old(story.Cut(Other(stream)))
    }

    /** Take the first line off a buffer and deal with it. */
    method CutLine(stream: StreamName, i: nat)
      requires Valid() && FindNewline(Buffer(stream)) == Some(i)
      modifies this
      ensures Valid() && OnlyStream(stream)
      ensures Buffer(stream) == old(Buffer(stream))[i + 1..]
      ensures story.Cut(stream) == old(story.Cut(stream)) + [TrimCr(old(Buffer(stream))[..i])]
    {
      var line := TrimCr(Buffer(stream)[..i]);
      SetBuffer(stream, Buffer(stream)[i + 1..]);
      HandleLine(stream, line);
    }

    /** Cut off every line that is complete. */
    method CutLines(stream: StreamName)
      requires Valid()
      modifies this
      ensures Valid() && OnlyStream(stream)
      ensures Buffer(stream) == Tail(old(Buffer(stream)))
      ensures story.Cut(stream) == old(story.Cut(stream)) + TrimAll(Complete(old(Buffer(stream))))
    {
      ghost var whole, cut := Buffer(stream), story.Cut(stream);
      var nl := FindNewline(Buffer(stream));
      while nl.Some?
        invariant Valid() && OnlyStream(stream) && nl == FindNewline(Buffer(stream))
        invariant Tail(whole) == Tail(Buffer(stream))
        invariant cut + TrimAll(Complete(whole)) == story.Cut(stream) + TrimAll(Complete(Buffer(stream)))
        decreases |Buffer(stream)|
      {
        CutOne(story.Cut(stream), Buffer(stream), nl.value);
        CutLine(stream, nl.value);
        nl := FindNewline(Buffer(stream));
      }
    }

    /** One chunk: append it, cut off every line it completes, and flush. */
    method Feed(stream: StreamName, text: string)
      requires Valid()
      modifies this
      ensures Valid() && batch == [] && OnlyStream(stream)
      ensures Buffer(stream) == Tail(old(Buffer(stream)) + text)
      ensures story.Cut(stream) == old(story.Cut(stream)) + TrimAll(Complete(old(Buffer(stream)) + text))
    {
      SetBuffer(stream, Buffer(stream) + text);
      CutLines(stream);
      Flush();
    }

    /** The first `n` items have been read. */
    ghost predicate ReadUpTo(items: seq<Item>, n: nat)
      requires n <= |items|
      reads this
    {
      StreamRead(items, n, Stdout) && StreamRead(items, n, Stderr)
    }

    ghost predicate StreamRead(items: seq<Item>, n: nat, s: StreamName)
      requires n <= |items|
      reads this
    {
      Buffer(s) == Tail(TextOf(items, n, s)) && story.Cut(s) == TrimAll(Complete(TextOf(items, n, s)))
    }

    /** Read one more chunk. */
    method ReadChunk(ghost items: seq<Item>, ghost n: nat, o: Output)
      requires Valid() && n < |items|
      requires items[n] == Chunk(o) && ReadUpTo(items, n)
      modifies this
      ensures Valid() && batch == [] && ReadUpTo(items, n + 1)
    {
      ReadMore(items, n, o);
      Feed(StreamOf(o), o.text);
      assert StreamRead(items, n + 1, StreamOf(o)) && StreamRead(items, n + 1, Other(StreamOf(o)));
    }

    /** At the end of the stream: what is left in a buffer is a last line. */
    method FinishStream(stream: StreamName)
      requires Valid()
      modifies `seqNo, `batch, `table, `result, `progress, `story
      ensures Valid() && story.Cut(Other(stream)) == old(story.Cut(Other(stream)))
      ensures story.Cut(stream) == old(story.Cut(stream)) + (if Buffer(stream) == "" then [] else [Buffer(stream)])
    {
      if Buffer(stream) != "" { HandleLine(stream, Buffer(stream)); }
    }

    /** All lines of `out` and `err` have been written, numbered without a gap after what was there. */
    ghost predicate Persisted(out: seq<string>, err: seq<string>)
      requires NoneEmpty(secrets)
      reads this
    {
      && IsMaxSeq(before, first) && seqNo == first + |story.log| && table == Appended(before, first, story.log)
      && LinesOf(story.log, Stdout) == Kept(ws, secrets, Stdout, out)
      && LinesOf(story.log, Stderr) == Kept(ws, secrets, Stderr, err)
      && result == LastResult(ws, out) && progress == LastProgress(ws, out, progress0)
    }

    /** The log rows are the lines of either stream that are to be logged, masked, and result and progress are the
        last ones that stdout carries. */
    ghost predicate Reports(out: seq<string>, err: seq<string>)
      requires NoneEmpty(secrets)
      reads this
    {
      && IsMaxSeq(before, first) && seqNo == first + |story.log| && RowsFollow(before, first, story.log, table)
      && (exists lines :: StreamLines(story.log, Stdout, lines) && LoggedOf(ws, secrets, Stdout, out, lines))
      && (exists lines :: StreamLines(story.log, Stderr, lines) && LoggedOf(ws, secrets, Stderr, err, lines))
      && ResultOf(ws, out, result) && ProgressOf(ws, out, progress0, progress)
    }

    lemma PersistedReports(out: seq<string>, err: seq<string>)
      requires NoneEmpty(secrets) && Persisted(out, err)
      ensures Reports(out, err)
    {
      AppendedRows(before, first, story.log);
      LinesOfAreStreamLines(story.log, Stdout);
      LinesOfAreStreamLines(story.log, Stderr);
      KeptIsLogged(ws, secrets, Stdout, out);
      KeptIsLogged(ws, secrets, Stderr, err);
      LastResultIsRight(ws, out);
      LastProgressIsRight(ws, out, progress0);
    }

    /** The reported lines are those of the text of each stream, the last unfinished one included at its end. */
    ghost predicate ReportsText(items: seq<Item>, n: nat, ended: bool)
      requires NoneEmpty(secrets) && n <= |items|
      reads this
    {
      exists out, err :: TextLines(TextOf(items, n, Stdout), out, ended) && TextLines(TextOf(items, n, Stderr), err, ended)
                         && Reports(out, err)
    }

    lemma PumpedReports(items: seq<Item>, n: nat, ended: bool)
      requires NoneEmpty(secrets) && n <= |items|
      requires Pumped(items, n, ended)
      ensures ReportsText(items, n, ended)
    {
      var out, err := TextOf(items, n, Stdout), TextOf(items, n, Stderr);
      LinesAreRight(out);
      LinesAreRight(err);
      if ended {
        PersistedReports(FinalLines(out), FinalLines(err));
      } else {
        PersistedReports(TrimAll(Complete(out)), TrimAll(Complete(err)));
      }
    }

    lemma WholeLog()
      requires Valid() && batch == []
      ensures Persisted(story.out, story.err)
    {
      assert story.log[..|story.log|] == story.log;
      assert SummedFor(ws, secrets, story, Stdout, result, progress, progress0);
      assert SummedFor(ws, secrets, story, Stderr, result, progress, progress0);
    }

    /** What the first `n` items leave in the database: at the end of the stream every line counts, after a
        stream error only those that were complete. */
    ghost predicate Pumped(items: seq<Item>, n: nat, ended: bool)
      requires NoneEmpty(secrets) && n <= |items|
      reads this
    {
      var out, err := TextOf(items, n, Stdout), TextOf(items, n, Stderr);
      if ended then Persisted(FinalLines(out), FinalLines(err))
      else Persisted(TrimAll(Complete(out)), TrimAll(Complete(err)))
    }

    /** `pump_logs`: however the output is cut into chunks, what is logged for each stream, the result and
        the progress are those of the whole text of that stream. */
    method PumpLogs(items: seq<Item>) returns (r: Result<(int, Option<string>), string>)
      requires Valid() && Starting()
      modifies this
      ensures var n := Chunks(items); r.Err? <==> n < |items| && items[n].Broken?
      ensures NoneEmpty(secrets) && Pumped(items, Chunks(items), r.Ok?) && ReportsText(items, Chunks(items), r.Ok?)
      ensures r.Ok? ==> r.value == (seqNo, result)
    {
      var broken := ReadAll(items);
      if broken.Some? {
        WholeLog();
        PumpedReports(items, Chunks(items), false);
        return Err(broken.value);
      }
      FinishBoth(items, Chunks(items));
      PumpedReports(items, Chunks(items), true);
      return Ok((seqNo, result));
    }

    lemma ReadNothing(items: seq<Item>)
      requires Starting()
      ensures ReadUpTo(items, 0)
    {
    }

    /** Read until the stream ends, the container is gone, or another error comes. */
    method ReadAll(items: seq<Item>) returns (broken: Option<string>)
      requires Valid() && Starting()
      modifies this
      ensures Valid() && batch == [] && ReadUpTo(items, Chunks(items))
      ensures var n := Chunks(items); broken.Some? <==> n < |items| && items[n].Broken?
    {
      ReadNothing(items);
      var n := ReadChunks(items);
      return if n < |items| && items[n].Broken? then Some(items[n].message) else None;
    }

    /** Read chunk after chunk. */
    method ReadChunks(items: seq<Item>) returns (n: nat)
      requires Valid() && batch == [] && ReadUpTo(items, 0)
      modifies this
      ensures n == Chunks(items)
      ensures Valid()
      ensures batch == [] && ReadUpTo(items, n)
    {
      n := 0;
      while n < |items| && items[n].Chunk?
        invariant n <= Chunks(items)
        invariant Valid()
        invariant batch == [] && ReadUpTo(items, n)
      {
        ReadChunk(items, n, items[n].output);
        n := n + 1;
      }
    }

    /** The last line of one stream: then all its lines have been dealt with. */
    method FinishOne(ghost items: seq<Item>, ghost n: nat, stream: StreamName)
      requires Valid() && n <= |items|
      requires StreamRead(items, n, stream)
      modifies `seqNo, `batch, `table, `result, `progress, `story
      ensures Valid() && story.Cut(Other(stream)) == old(story.Cut(Other(stream)))
      ensures story.Cut(stream) == FinalLines(TextOf(items, n, stream))
    {
      FinishStream(stream);
    }

    method FinishStreams(ghost items: seq<Item>, ghost n: nat)
      requires Valid() && n <= |items| && ReadUpTo(items, n)
      modifies `seqNo, `batch, `table, `result, `progress, `story
      ensures Valid()
      ensures story.out == FinalLines(TextOf(items, n, Stdout)) && story.err == FinalLines(TextOf(items, n, Stderr))
    {
      FinishOne(items, n, Stdout);
      FinishOne(items, n, Stderr);
    }

    /** The last lines of both streams, and the last flush. */
    method FinishBoth(ghost items: seq<Item>, ghost n: nat)
      requires Valid() && n <= |items| && ReadUpTo(items, n)
      modifies this
      ensures NoneEmpty(secrets) && Pumped(items, n, true)
    {
      FinishStreams(items, n);
      Flush();
      WholeLog();
    }
  }

  /** Two streams that carry the same text, however differently they were cut, leave the same log lines per
      stream and the same result and progress. */
  lemma ChunkIndependence(p: Pump, items: seq<Item>, q: Pump, items': seq<Item>, stream: StreamName)
    requires p.secrets == q.secrets && p.ws == q.ws && NoneEmpty(p.secrets)
    requires p.Pumped(items, Chunks(items), true) && q.Pumped(items', Chunks(items'), true)
    requires TextOf(items, Chunks(items), Stdout) == TextOf(items', Chunks(items'), Stdout)
    requires TextOf(items, Chunks(items), Stderr) == TextOf(items', Chunks(items'), Stderr)
    ensures LinesOf(p.story.log, stream) == LinesOf(q.story.log, stream) && p.result == q.result
    ensures p.progress0 == q.progress0 ==> p.progress == q.progress
  {
  }
}

/** Lines of a text stream, and which of them a job's log keeps (exec.rs). */
module LogLines {
  import opened Wrappers
  import opened Text
  import opened Redaction

  const RESULT_MARKER := "::dokan:result::"
  const PROGRESS_MARKER := "::dokan:progress::"

  // ---- splitting ---------------------------------------------------------------------------------

  lemma NewlineAt(t: string, i: int)
    ensures OccursAt("\n", t, i) <==> 0 <= i < |t| && t[i] == '\n'
  {
    if 0 <= i < |t| { assert t[i..i + 1] == [t[i]]; }
  }

  /** `t.find('\n')` */
  function FindNewline(t: string): (r: Option<nat>)
    ensures r.Some? ==> r.value < |t| && t[r.value] == '\n'
    ensures forall k :: 0 <= k < (if r.Some? then r.value else |t|) ==> t[k] != '\n'
  {
    assert forall k :: OccursAt("\n", t, k) <==> 0 <= k < |t| && t[k] == '\n' by {
      forall k ensures OccursAt("\n", t, k) <==> 0 <= k < |t| && t[k] == '\n' { NewlineAt(t, k); }
    }
    FindFrom(t, "\n", 0)
  }

  /** The lines of `t` that a newline ends, without it. */
  function Complete(t: string): seq<string>
    decreases |t|
  {
    match FindNewline(t)
    case None => []
    case Some(i) => [t[..i]] + Complete(t[i + 1..])
  }

  /** What follows the last newline of `t`. */
  function Tail(t: string): string
    decreases |t|
  {
    match FindNewline(t)
    case None => t
    case Some(i) => Tail(t[i + 1..])
  }

  function Unlines(lines: seq<string>): string {
    if lines == [] then "" else lines[0] + "\n" + Unlines(lines[1..])
  }

  lemma UnlinesCons(t: string, i: nat, lines: seq<string>, tail: string)
    requires i < |t| && t[i] == '\n' && Unlines(lines) + tail == t[i + 1..]
    ensures Unlines([t[..i]] + lines) + tail == t
  {
    assert ([t[..i]] + lines)[1..] == lines;
    assert Unlines([t[..i]] + lines) + tail == (t[..i] + "\n") + (Unlines(lines) + tail);
  }

  /** Splitting loses nothing and repeats nothing ... */
  lemma {:induction false} SplittingIsExact(t: string)
    ensures Unlines(Complete(t)) + Tail(t) == t
    decreases |t|
  {
    var found := FindNewline(t);
    if found.Some? {
      var rest := t[found.value + 1..];
      SplittingIsExact(rest);
      UnlinesCons(t, found.value, Complete(rest), Tail(rest));
    }
  }

  /** ... and no part has a newline left in it. */
  lemma {:induction false} NoNewlineIsLeft(t: string)
    ensures '\n' !in Tail(t) && forall k :: 0 <= k < |Complete(t)| ==> '\n' !in Complete(t)[k]
    decreases |t|
  {
    var found := FindNewline(t);
    if found.Some? {
      var i, lines := found.value, Complete(t[found.value + 1..]);
      NoNewlineIsLeft(t[i + 1..]);
      assert '\n' !in t[..i];
      assert Complete(t) == [t[..i]] + lines;
    }
  }

  /** The next newline of a longer text, when the shorter one has one. */
  lemma SameNewline(a: string, b: string, i: nat)
    requires FindNewline(a) == Some(i)
    ensures FindNewline(a + b) == Some(i) && (a + b)[..i] == a[..i] && (a + b)[i + 1..] == a[i + 1..] + b
  {
    assert (a + b)[i] == a[i];
    assert forall k :: 0 <= k < i ==> (a + b)[k] == a[k];
  }

  lemma Regroup<T>(head: seq<T>, lines: seq<T>, more: seq<T>)
    ensures head + (lines + more) == (head + lines) + more
  {
  }

  /** Feeding more text: the lines so far stay, and the tail takes up the rest. */
  lemma {:induction false} FeedingMore(a: string, b: string)
    ensures Complete(a + b) == Complete(a) + Complete(Tail(a) + b)
    ensures Tail(a + b) == Tail(Tail(a) + b)
    decreases |a|
  {
    var found := FindNewline(a);
    if found.Some? {
      var rest := a[found.value + 1..];
      SameNewline(a, b, found.value);
      FeedingMore(rest, b);
      Regroup([a[..found.value]], Complete(rest), Complete(Tail(rest) + b));
    }
  }

  // ---- control lines -------------------------------------------------------------------------------

  datatype StreamName = Stdout | Stderr

  /** What `char::is_whitespace` says. */
  type Space = char -> bool

  function TrimStart(ws: Space, s: string): string {
    if s != "" && ws(s[0]) then TrimStart(ws, s[1..]) else s
  }

  function TrimEnd(ws: Space, s: string): string {
    if s != "" && ws(s[|s| - 1]) then TrimEnd(ws, s[..|s| - 1]) else s
  }

  function Trim(ws: Space, s: string): string {
    TrimEnd(ws, TrimStart(ws, s))
  }

  function TrimCr(line: string): string {
    TrimEnd(c => c == '\r', line)
  }

  /** The payload of a stdout line that starts, after white space, with `marker`. */
  function Payload(ws: Space, stream: StreamName, line: string, marker: string): Option<string> {
    var l := TrimStart(ws, line);
    if stream.Stdout? && marker <= l then Some(Trim(ws, l[|marker|..])) else None
  }

  datatype LineKind = ResultLine(payload: string) | ProgressLine(payload: string) | LogLine

  function KindOf(ws: Space, stream: StreamName, line: string): LineKind {
    match Payload(ws, stream, line, RESULT_MARKER)
    case Some(p) => ResultLine(p)
    case None =>
      match Payload(ws, stream, line, PROGRESS_MARKER)
      case Some(p) => ProgressLine(p)
      case None => LogLine
  }

  // ---- what a whole stream comes to -----------------------------------------------------------------

  function TrimAll(lines: seq<string>): seq<string> {
    seq(|lines|, i requires 0 <= i < |lines| => TrimCr(lines[i]))
  }

  /** The lines of a stream at its end: a last line without a newline counts, and keeps its `\r`. */
  function FinalLines(text: string): seq<string> {
    TrimAll(Complete(text)) + (if Tail(text) == "" then [] else [Tail(text)])
  }

  /** The lines that go to the log, masked. */
  function Kept(ws: Space, secrets: seq<string>, stream: StreamName, lines: seq<string>): seq<string>
    requires NoneEmpty(secrets)
  {
    if lines == [] then []
    else
      var n := |lines| - 1;
      Kept(ws, secrets, stream, lines[..n])
      + (if KindOf(ws, stream, lines[n]).LogLine? then [Redact(lines[n], secrets)] else [])
  }

  /** The last result marker wins. */
  function LastResult(ws: Space, lines: seq<string>): Option<string> {
    if lines == [] then None
    else
      var n := |lines| - 1;
      match KindOf(ws, Stdout, lines[n])
      case ResultLine(p) => Some(p)
      case _ => LastResult(ws, lines[..n])
  }

  /** The last progress marker wins over what was there before. */
  function LastProgress(ws: Space, lines: seq<string>, before: Option<string>): Option<string> {
    if lines == [] then before
    else
      var n := |lines| - 1;
      match KindOf(ws, Stdout, lines[n])
      case ProgressLine(p) => Some(p)
      case _ => LastProgress(ws, lines[..n], before)
  }
}

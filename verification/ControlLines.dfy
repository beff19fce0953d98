/** What a job's output lines come to (`pump_logs` in exec.rs), in terms of the texts of the lines: which carry a
    result or a progress, and which are logged. */
module ControlLines {
  import opened Wrappers
  import opened Text
  import opened Redaction
  import opened LogLines

  // ---- white space --------------------------------------------------------------------------------

  predicate Blank(ws: Space, s: string) {
    forall i :: 0 <= i < |s| ==> ws(s[i])
  }

  /** No white space at either end. */
  predicate Bare(ws: Space, s: string) {
    s == "" || (!ws(s[0]) && !ws(s[|s| - 1]))
  }

  lemma {:induction false} TrimStartOf(ws: Space, lead: string, rest: string)
    requires Blank(ws, lead) && (rest == "" || !ws(rest[0]))
    ensures TrimStart(ws, lead + rest) == rest
  {
    if lead == "" {
      assert lead + rest == rest;
    } else {
      assert (lead + rest)[1..] == lead[1..] + rest && (lead + rest)[0] == lead[0];
      TrimStartOf(ws, lead[1..], rest);
    }
  }

  lemma {:induction false} TrimEndOf(ws: Space, front: string, trail: string)
    requires Blank(ws, trail) && (front == "" || !ws(front[|front| - 1]))
    ensures TrimEnd(ws, front + trail) == front
  {
    if trail == "" {
      assert front + trail == front;
    } else {
      var n := |trail| - 1;
      assert (front + trail)[..|front| + n] == front + trail[..n] && (front + trail)[|front| + n] == trail[n];
      TrimEndOf(ws, front, trail[..n]);
    }
  }

  lemma TrimOf(ws: Space, pad: string, p: string, trail: string)
    requires Blank(ws, pad) && Blank(ws, trail) && Bare(ws, p)
    ensures Trim(ws, pad + p + trail) == p
  {
    if p == "" {
      assert pad + p + trail == (pad + trail) + "";
      TrimStartOf(ws, pad + trail, "");
    } else {
      assert pad + p + trail == pad + (p + trail) && (p + trail)[0] == p[0];
      TrimStartOf(ws, pad, p + trail);
      TrimEndOf(ws, p, trail);
    }
  }

  lemma {:induction false} LeadOf(ws: Space, s: string) returns (lead: string)
    ensures Blank(ws, lead) && s == lead + TrimStart(ws, s) && (TrimStart(ws, s) == "" || !ws(TrimStart(ws, s)[0]))
  {
    lead := "";
    if s != "" && ws(s[0]) {
      var more := LeadOf(ws, s[1..]);
      lead := [s[0]] + more;
      assert s == [s[0]] + s[1..];
    }
  }

  lemma {:induction false} TrailOf(ws: Space, s: string) returns (trail: string)
    ensures Blank(ws, trail) && s == TrimEnd(ws, s) + trail && (TrimEnd(ws, s) == "" || !ws(TrimEnd(ws, s)[|TrimEnd(ws, s)| - 1]))
  {
    trail := "";
    if s != "" && ws(s[|s| - 1]) {
      var n := |s| - 1;
      var more := TrailOf(ws, s[..n]);
      trail := more + [s[n]];
      assert s == s[..n] + [s[n]];
    }
  }

  lemma EndsOf(ws: Space, s: string) returns (pad: string, trail: string)
    ensures Blank(ws, pad) && Blank(ws, trail) && Bare(ws, Trim(ws, s)) && s == pad + Trim(ws, s) + trail
  {
    pad := LeadOf(ws, s);
    var t := TrimStart(ws, s);
    trail := TrailOf(ws, t);
    var p := Trim(ws, s);
    assert p != "" ==> p[0] == t[0];
    assert pad + (p + trail) == pad + p + trail;
  }

  /** A carriage return at the end of a line is no part of it. */
  lemma LineOf(line: string, n: nat)
    requires line == "" || line[|line| - 1] != '\r'
    ensures TrimCr(line + seq(n, _ => '\r')) == line
  {
    TrimEndOf(c => c == '\r', line, seq(n, _ => '\r'));
  }

  // ---- what a line carries --------------------------------------------------------------------------

  ghost predicate CarriesIn(ws: Space, line: string, marker: string, p: string, lead: string, pad: string, trail: string) {
    line == lead + (marker + (pad + p + trail)) && Blank(ws, lead) && Blank(ws, pad) && Blank(ws, trail) && Bare(ws, p)
  }

  /** After white space comes the marker, and after the marker `p`, trimmed. No marker begins with white space. */
  ghost predicate Carries(ws: Space, line: string, marker: string, p: string) {
    marker != "" && !ws(marker[0]) && exists lead, pad, trail :: CarriesIn(ws, line, marker, p, lead, pad, trail)
  }

  ghost predicate Marked(ws: Space, line: string, marker: string) {
    exists p :: Carries(ws, line, marker, p)
  }

  lemma PayloadIsCarried(ws: Space, line: string, marker: string)
    requires marker != "" && Payload(ws, Stdout, line, marker).Some?
    ensures Carries(ws, line, marker, Payload(ws, Stdout, line, marker).value)
  {
    var l := TrimStart(ws, line);
    var lead := LeadOf(ws, line);
    var rest := l[|marker|..];
    var pad, trail := EndsOf(ws, rest);
    assert l == marker + rest && l[0] == marker[0];
    assert CarriesIn(ws, line, marker, Trim(ws, rest), lead, pad, trail);
  }

  lemma CarriedIsPayload(ws: Space, line: string, marker: string, p: string)
    requires Carries(ws, line, marker, p)
    ensures Payload(ws, Stdout, line, marker) == Some(p)
  {
    var lead, pad, trail :| CarriesIn(ws, line, marker, p, lead, pad, trail);
    var rest := pad + p + trail;
    assert (marker + rest)[0] == marker[0] && (marker + rest)[|marker|..] == rest;
    TrimStartOf(ws, lead, marker + rest);
    TrimOf(ws, pad, p, trail);
  }

  lemma PayloadIff(ws: Space, line: string, marker: string)
    requires marker != ""
    ensures forall p :: Payload(ws, Stdout, line, marker) == Some(p) <==> Carries(ws, line, marker, p)
    ensures Payload(ws, Stdout, line, marker).Some? <==> Marked(ws, line, marker)
  {
    forall p ensures Payload(ws, Stdout, line, marker) == Some(p) <==> Carries(ws, line, marker, p) {
      if Payload(ws, Stdout, line, marker) == Some(p) { PayloadIsCarried(ws, line, marker); }
      if Carries(ws, line, marker, p) { CarriedIsPayload(ws, line, marker, p); }
    }
    if Payload(ws, Stdout, line, marker).Some? { PayloadIsCarried(ws, line, marker); }
  }

  ghost predicate GivesResult(ws: Space, stream: StreamName, line: string, p: string) {
    stream == Stdout && Carries(ws, line, "::dokan:result::", p)
  }

  ghost predicate GivesProgress(ws: Space, stream: StreamName, line: string, p: string) {
    stream == Stdout && Carries(ws, line, "::dokan:progress::", p)
  }

  /** Every line on stderr, and every line on stdout with neither marker. */
  ghost predicate IsLogged(ws: Space, stream: StreamName, line: string) {
    stream == Stderr || (!Marked(ws, line, "::dokan:result::") && !Marked(ws, line, "::dokan:progress::"))
  }

  lemma NotBoth(l: string)
    ensures !("::dokan:result::" <= l && "::dokan:progress::" <= l)
  {
    assert "::dokan:result::"[8] == 'r' && "::dokan:progress::"[8] == 'p';
  }

  /** Which marker makes which line. */
  lemma KindIsRight(ws: Space, stream: StreamName, line: string)
    ensures forall p :: KindOf(ws, stream, line) == ResultLine(p) <==> GivesResult(ws, stream, line, p)
    ensures forall p :: KindOf(ws, stream, line) == ProgressLine(p) <==> GivesProgress(ws, stream, line, p)
    ensures KindOf(ws, stream, line) == LogLine <==> IsLogged(ws, stream, line)
    ensures stream.Stdout? ==> (KindOf(ws, stream, line).ResultLine? <==> Marked(ws, line, "::dokan:result::"))
    ensures stream.Stdout? ==> (KindOf(ws, stream, line).ProgressLine? <==> Marked(ws, line, "::dokan:progress::"))
  {
    PayloadIff(ws, line, "::dokan:result::");
    PayloadIff(ws, line, "::dokan:progress::");
    NotBoth(TrimStart(ws, line));
  }

  // ---- what a stream comes to -------------------------------------------------------------------------

  /** The last line that carries a result carries this one; there is none if no line does. */
  ghost predicate ResultOf(ws: Space, lines: seq<string>, result: Option<string>) {
    match result
    case None => forall i :: 0 <= i < |lines| ==> !Marked(ws, lines[i], "::dokan:result::")
    case Some(p) => exists i :: LastIn(ws, lines, "::dokan:result::", i, p)
  }

  ghost predicate LastIn(ws: Space, lines: seq<string>, marker: string, i: int, p: string) {
    0 <= i < |lines| && Carries(ws, lines[i], marker, p) && forall j :: i < j < |lines| ==> !Marked(ws, lines[j], marker)
  }

  /** The last line that carries a progress carries this one; if no line does, it is what it was before. */
  ghost predicate ProgressOf(ws: Space, lines: seq<string>, before: Option<string>, progress: Option<string>) {
    || (progress == before && forall i :: 0 <= i < |lines| ==> !Marked(ws, lines[i], "::dokan:progress::"))
    || (progress.Some? && exists i :: LastIn(ws, lines, "::dokan:progress::", i, progress.value))
  }

  lemma MarkedOnce(ws: Space, line: string, marker: string, p: string)
    requires Carries(ws, line, marker, p)
    ensures Marked(ws, line, marker)
  {
  }

  lemma LastInMore(ws: Space, lines: seq<string>, marker: string, i: int, p: string)
    requires lines != [] && LastIn(ws, lines[..|lines| - 1], marker, i, p) && !Marked(ws, lines[|lines| - 1], marker)
    ensures LastIn(ws, lines, marker, i, p)
  {
    assert forall j :: 0 <= j < |lines| - 1 ==> lines[..|lines| - 1][j] == lines[j];
  }

  lemma {:induction false} LastResultIsRight(ws: Space, lines: seq<string>)
    ensures ResultOf(ws, lines, LastResult(ws, lines))
  {
    if lines != [] {
      var n := |lines| - 1;
      KindIsRight(ws, Stdout, lines[n]);
      LastResultIsRight(ws, lines[..n]);
      ResultOfMore(ws, lines, LastResult(ws, lines[..n]));
      if KindOf(ws, Stdout, lines[n]).ResultLine? {
        assert LastIn(ws, lines, "::dokan:result::", n, KindOf(ws, Stdout, lines[n]).payload);
      }
    }
  }

  lemma ResultOfMore(ws: Space, lines: seq<string>, result: Option<string>)
    requires lines != [] && ResultOf(ws, lines[..|lines| - 1], result)
    ensures !Marked(ws, lines[|lines| - 1], "::dokan:result::") ==> ResultOf(ws, lines, result)
  {
    var n := |lines| - 1;
    assert forall j :: 0 <= j < n ==> lines[..n][j] == lines[j];
    if result.Some? && !Marked(ws, lines[n], "::dokan:result::") {
      var i :| LastIn(ws, lines[..n], "::dokan:result::", i, result.value);
      LastInMore(ws, lines, "::dokan:result::", i, result.value);
    }
  }

  lemma {:induction false} LastProgressIsRight(ws: Space, lines: seq<string>, before: Option<string>)
    ensures ProgressOf(ws, lines, before, LastProgress(ws, lines, before))
  {
    if lines != [] {
      var n := |lines| - 1;
      KindIsRight(ws, Stdout, lines[n]);
      LastProgressIsRight(ws, lines[..n], before);
      ProgressOfMore(ws, lines, before, LastProgress(ws, lines[..n], before));
      if KindOf(ws, Stdout, lines[n]).ProgressLine? {
        assert LastIn(ws, lines, "::dokan:progress::", n, KindOf(ws, Stdout, lines[n]).payload);
      }
    }
  }

  lemma ProgressOfMore(ws: Space, lines: seq<string>, before: Option<string>, progress: Option<string>)
    requires lines != [] && ProgressOf(ws, lines[..|lines| - 1], before, progress)
    ensures !Marked(ws, lines[|lines| - 1], "::dokan:progress::") ==> ProgressOf(ws, lines, before, progress)
  {
    var n := |lines| - 1;
    assert forall j :: 0 <= j < n ==> lines[..n][j] == lines[j];
    if !Marked(ws, lines[n], "::dokan:progress::") && progress.Some? {
      if i :| LastIn(ws, lines[..n], "::dokan:progress::", i, progress.value) {
        LastInMore(ws, lines, "::dokan:progress::", i, progress.value);
      }
    }
  }

  // ---- what is logged ---------------------------------------------------------------------------------

  ghost predicate Rising(ks: seq<int>, n: int) {
    (forall i :: 0 <= i < |ks| ==> 0 <= ks[i] < n) && forall i, j :: 0 <= i < j < |ks| ==> ks[i] < ks[j]
  }

  /** `picks` are the places of the lines that are logged. */
  ghost predicate LoggedPlaces(ws: Space, stream: StreamName, lines: seq<string>, picks: seq<int>) {
    Rising(picks, |lines|) && forall i :: 0 <= i < |lines| ==> (i in picks <==> IsLogged(ws, stream, lines[i]))
  }

  ghost predicate MaskedAt(secrets: seq<string>, lines: seq<string>, picks: seq<int>, logged: seq<string>)
    requires NoneEmpty(secrets)
  {
    |logged| == |picks| && forall k :: 0 <= k < |picks| ==> 0 <= picks[k] < |lines| && logged[k] == Redact(lines[picks[k]], secrets)
  }

  /** The lines that are to be logged, each once, in order, masked. */
  ghost predicate LoggedOf(ws: Space, secrets: seq<string>, stream: StreamName, lines: seq<string>, logged: seq<string>)
    requires NoneEmpty(secrets)
  {
    exists picks :: LoggedPlaces(ws, stream, lines, picks) && MaskedAt(secrets, lines, picks, logged)
  }

  lemma PlacesOfMore(ws: Space, stream: StreamName, lines: seq<string>, picks: seq<int>)
    requires lines != [] && LoggedPlaces(ws, stream, lines[..|lines| - 1], picks)
    ensures var n := |lines| - 1;
            LoggedPlaces(ws, stream, lines, if IsLogged(ws, stream, lines[n]) then picks + [n] else picks)
  {
    var n := |lines| - 1;
    assert forall i :: 0 <= i < n ==> lines[..n][i] == lines[i];
    assert n !in picks;
  }

  lemma {:induction false} KeptIsLogged(ws: Space, secrets: seq<string>, stream: StreamName, lines: seq<string>)
    requires NoneEmpty(secrets)
    ensures LoggedOf(ws, secrets, stream, lines, Kept(ws, secrets, stream, lines))
  {
    if lines == [] {
      var none: seq<int> := [];
      assert LoggedPlaces(ws, stream, lines, none) && MaskedAt(secrets, lines, none, []);
    } else {
      var n := |lines| - 1;
      KeptIsLogged(ws, secrets, stream, lines[..n]);
      KindIsRight(ws, stream, lines[n]);
      LoggedMore(ws, secrets, stream, lines, Kept(ws, secrets, stream, lines[..n]));
    }
  }

  lemma LoggedMore(ws: Space, secrets: seq<string>, stream: StreamName, lines: seq<string>, logged: seq<string>)
    requires NoneEmpty(secrets) && lines != [] && LoggedOf(ws, secrets, stream, lines[..|lines| - 1], logged)
    ensures var n := |lines| - 1;
            LoggedOf(ws, secrets, stream, lines, if IsLogged(ws, stream, lines[n]) then logged + [Redact(lines[n], secrets)] else logged)
  {
    var n := |lines| - 1;
    var picks :| LoggedPlaces(ws, stream, lines[..n], picks) && MaskedAt(secrets, lines[..n], picks, logged);
    PlacesOfMore(ws, stream, lines, picks);
    MaskedMore(secrets, lines, picks, logged);
  }

  lemma MaskedMore(secrets: seq<string>, lines: seq<string>, picks: seq<int>, logged: seq<string>)
    requires NoneEmpty(secrets) && lines != [] && MaskedAt(secrets, lines[..|lines| - 1], picks, logged)
    ensures var n := |lines| - 1;
            MaskedAt(secrets, lines, picks, logged) && MaskedAt(secrets, lines, picks + [n], logged + [Redact(lines[n], secrets)])
  {
    var n := |lines| - 1;
    assert forall i :: 0 <= i < n ==> lines[..n][i] == lines[i];
  }

  // ---- the lines of a text --------------------------------------------------------------------------------

  /** `line` with carriage returns after it. */
  ghost predicate EndsAs(raw: string, line: string) {
    && line <= raw && (line == "" || line[|line| - 1] != '\r')
    && forall i :: |line| <= i < |raw| ==> raw[i] == '\r'
  }

  ghost predicate CutInto(text: string, raws: seq<string>, tail: string) {
    Unlines(raws) + tail == text && '\n' !in tail && forall i :: 0 <= i < |raws| ==> '\n' !in raws[i]
  }

  /** Each line that a newline ends, without carriage returns, and what follows the last newline, as it is, unless it
      is empty. */
  ghost predicate TextLines(text: string, lines: seq<string>, withTail: bool) {
    exists raws, tail :: CutInto(text, raws, tail) && LinesFrom(raws, tail, lines, withTail)
  }

  ghost predicate LinesFrom(raws: seq<string>, tail: string, lines: seq<string>, withTail: bool) {
    && |lines| == |raws| + (if withTail && tail != "" then 1 else 0)
    && (forall i :: 0 <= i < |raws| ==> EndsAs(raws[i], lines[i]))
    && (withTail && tail != "" ==> lines[|raws|] == tail)
  }

  lemma TrimmedLine(raw: string)
    ensures EndsAs(raw, TrimCr(raw))
  {
    var trail := TrailOf(c => c == '\r', raw);
  }

  /** The lines the pump deals with are the lines of the text. */
  lemma LinesAreRight(text: string)
    ensures TextLines(text, FinalLines(text), true) && TextLines(text, TrimAll(Complete(text)), false)
  {
    SplittingIsExact(text);
    NoNewlineIsLeft(text);
    var raws, tail := Complete(text), Tail(text);
    assert CutInto(text, raws, tail);
    forall i | 0 <= i < |raws| ensures EndsAs(raws[i], TrimAll(raws)[i]) { TrimmedLine(raws[i]); }
    assert LinesFrom(raws, tail, FinalLines(text), true) && LinesFrom(raws, tail, TrimAll(raws), false);
  }
}

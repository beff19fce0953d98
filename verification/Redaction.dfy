/** Masking of secret values in log lines (`redact_secrets` in exec.rs). */
module Redaction {
  import opened Wrappers
  import opened Text

  const MASK := "***"

  /** `s.replace(t, "***")`: every occurrence, leftmost first, without overlaps. */
  function ReplaceAll(s: string, t: string): string
    requires t != ""
    decreases |s|
  {
    match FindFrom(s, t, 0)
    case None => s
    case Some(i) => s[..i] + MASK + ReplaceAll(s[i + |t|..], t)
  }

  ghost predicate NoneEmpty(secrets: seq<string>) {
    forall i :: 0 <= i < |secrets| ==> secrets[i] != ""
  }

  function Redact(line: string, secrets: seq<string>): string
    requires NoneEmpty(secrets)
  {
    if secrets == [] then line
    else ReplaceAll(Redact(line, secrets[..|secrets| - 1]), secrets[|secrets| - 1])
  }

  lemma NothingToReplace(s: string, t: string)
    requires t != "" && !Contains(s, t)
    ensures ReplaceAll(s, t) == s
  {
    var i := FindFrom(s, t, 0);
    assert i.Some? ==> OccursAt(t, s, i.value);
  }

  method RedactSecrets(line: string, secrets: seq<string>) returns (out: string)
    requires NoneEmpty(secrets)
    ensures out == Redact(line, secrets)
  {
    out := line;
    for i := 0 to |secrets|
      invariant out == Redact(line, secrets[..i])
    {
      assert secrets[..i + 1][..i] == secrets[..i];
      if Contains(out, secrets[i]) {
        out := ReplaceAll(out, secrets[i]);
      } else {
        NothingToReplace(out, secrets[i]);
      }
    }
    assert secrets[..|secrets|] == secrets;
  }

  // ---- what a replacement is -------------------------------------------------------------------------

  function Joined(pieces: seq<string>, sep: string): string {
    if pieces == [] then "" else if |pieces| == 1 then pieces[0] else pieces[0] + sep + Joined(pieces[1..], sep)
  }

  /** `t` occurs behind the piece and no earlier. */
  ghost predicate FirstBehind(piece: string, t: string) {
    forall k :: 0 <= k < |piece| ==> !OccursAt(t, piece + t, k)
  }

  /** `s` is taken apart at each `t`, leftmost first, and put together again with three stars in its place. */
  ghost predicate Masks(s: string, t: string, r: string, pieces: seq<string>) {
    && pieces != [] && Joined(pieces, t) == s && Joined(pieces, "***") == r
    && (forall i :: 0 <= i < |pieces| - 1 ==> FirstBehind(pieces[i], t))
    && !Contains(pieces[|pieces| - 1], t)
  }

  lemma {:induction false} ReplacementIsExact(s: string, t: string) returns (pieces: seq<string>)
    requires t != ""
    ensures Masks(s, t, ReplaceAll(s, t), pieces)
    decreases |s|
  {
    match FindFrom(s, t, 0)
    case None =>
      pieces := [s];
    case Some(i) =>
      var rest := ReplacementIsExact(s[i + |t|..], t);
      MasksFirst(s, t, i, rest, ReplaceAll(s[i + |t|..], t));
      pieces := [s[..i]] + rest;
  }

  lemma MasksFirst(s: string, t: string, i: nat, rest: seq<string>, r: string)
    requires OccursAt(t, s, i) && (forall k :: 0 <= k < i ==> !OccursAt(t, s, k)) && Masks(s[i + |t|..], t, r, rest)
    ensures Masks(s, t, s[..i] + "***" + r, [s[..i]] + rest)
  {
    var pieces := [s[..i]] + rest;
    assert pieces[1..] == rest && s == s[..i] + t + s[i + |t|..];
    forall k | 0 <= k < i ensures !OccursAt(t, s[..i] + t, k) { NotBefore(s, t, i, k); }
  }

  lemma NotBefore(s: string, t: string, i: nat, k: nat)
    requires OccursAt(t, s, i) && k < i && !OccursAt(t, s, k)
    ensures !OccursAt(t, s[..i] + t, k)
  {
    assert (s[..i] + t)[k..k + |t|] == s[k..k + |t|] by {
      assert s[..i] + t == s[..i + |t|];
    }
  }

  /** One text after the other, each masked by the next secret. */
  ghost predicate MaskedOneByOne(line: string, secrets: seq<string>, texts: seq<string>) {
    && |texts| == |secrets| + 1 && texts[0] == line
    && forall i :: 0 <= i < |secrets| ==> MasksSomehow(texts[i], secrets[i], texts[i + 1])
  }

  ghost predicate MasksSomehow(s: string, t: string, r: string) {
    exists pieces :: Masks(s, t, r, pieces)
  }

  /** Redacting a line is masking its secrets, one after the other, in what the one before has left. */
  lemma {:induction false} RedactionIsExact(line: string, secrets: seq<string>) returns (texts: seq<string>)
    requires NoneEmpty(secrets)
    ensures MaskedOneByOne(line, secrets, texts) && texts[|secrets|] == Redact(line, secrets)
  {
    if secrets == [] {
      texts := [line];
    } else {
      var n := |secrets| - 1;
      texts := RedactionIsExact(line, secrets[..n]);
      var pieces := ReplacementIsExact(texts[n], secrets[n]);
      texts := texts + [Redact(line, secrets)];
      assert forall i :: 0 <= i < n ==> secrets[..n][i] == secrets[i];
    }
  }

  ghost predicate StarFree(t: string) {
    t != "" && '*' !in t
  }

  /** No mask can supply a part of `t`: `t` has no star at either end and no three in a row. */
  ghost predicate MaskProof(t: string) {
    t != "" && t[0] != '*' && t[|t| - 1] != '*' && !Contains(t, MASK)
  }

  lemma StarFreeIsMaskProof(t: string)
    requires StarFree(t)
    ensures MaskProof(t)
  {
    forall i | 0 <= i <= |t| ensures !OccursAt(MASK, t, i) {
      if OccursAt(MASK, t, i) { MaskHasStars(t, i); }
    }
  }

  lemma MaskHasStars(t: string, i: int)
    requires OccursAt(MASK, t, i)
    ensures '*' in t
  {
    assert t[i..i + 3][0] == t[i];
  }

  /** Where such a string can occur in a text with the mask in it: before it or after it. */
  lemma AroundTheMask(a: string, rest: string, t: string, k: nat)
    requires MaskProof(t) && OccursAt(t, a + MASK + rest, k)
    ensures OccursAt(t, a, k) || (k >= |a| + 3 && OccursAt(t, rest, k - |a| - 3))
  {
    var r := a + MASK + rest;
    assert r[|a|] == '*' && r[|a| + 1] == '*' && r[|a| + 2] == '*';
    assert r[k..k + |t|][0] == r[k] && r[k..k + |t|][|t| - 1] == r[k + |t| - 1];
    assert !(k < |a| && k + |t| >= |a| + 3) by { MaskInside(r, t, k, |a|); }
    if k + |t| <= |a| {
      assert a[k..k + |t|] == r[k..k + |t|];
    } else if k >= |a| + 3 {
      assert rest[k - |a| - 3..k - |a| - 3 + |t|] == r[k..k + |t|];
    }
  }

  lemma MaskInside(r: string, t: string, k: nat, m: nat)
    requires OccursAt(t, r, k) && m + 3 <= |r| && r[m] == '*' && r[m + 1] == '*' && r[m + 2] == '*'
    requires !Contains(t, MASK)
    ensures !(k < m && k + |t| >= m + 3)
  {
    if k < m && k + |t| >= m + 3 {
      var u := r[k..k + |t|];
      assert u[m - k] == '*' && u[m - k + 1] == '*' && u[m - k + 2] == '*';
      assert t[m - k..m - k + 3] == MASK;
      assert OccursAt(MASK, t, m - k);
    }
  }

  lemma OccursInPart(a: string, part: string, b: string, t: string, k: int)
    requires OccursAt(t, part, k)
    ensures OccursAt(t, a + part + b, |a| + k)
  {
    assert (a + part + b)[|a| + k..|a| + k + |t|] == part[k..k + |t|];
  }

  /** A replacement brings in nothing but stars: a string no mask can complete was in the line before,
      and is not what was replaced. */
  lemma {:induction false} ReplacementAddsOnlyStars(s: string, p: string, t: string)
    requires p != "" && MaskProof(t) && Contains(ReplaceAll(s, p), t)
    ensures Contains(s, t) && t != p
    decreases |s|
  {
    match FindFrom(s, p, 0)
    case None =>
    case Some(i) =>
      var rest := s[i + |p|..];
      if Contains(ReplaceAll(rest, p), t) {
        ReplacementAddsOnlyStars(rest, p, t);
        OccursAfter(s, t, i + |p|);
      } else {
        NotAfterTheMask(s[..i], ReplaceAll(rest, p), t);
        OccursBefore(s, p, t, i);
      }
  }

  lemma NotAfterTheMask(a: string, rest: string, t: string)
    requires MaskProof(t) && Contains(a + MASK + rest, t) && !Contains(rest, t)
    ensures Contains(a, t)
  {
    var k :| 0 <= k <= |a + MASK + rest| && OccursAt(t, a + MASK + rest, k);
    AroundTheMask(a, rest, t, k);
  }

  lemma OccursBefore(s: string, p: string, t: string, i: nat)
    requires i <= |s| && t != "" && Contains(s[..i], t)
    requires forall j :: 0 <= j < i ==> !OccursAt(p, s, j)
    ensures Contains(s, t) && t != p
  {
    var k :| 0 <= k <= i && OccursAt(t, s[..i], k);
    OccursInPart("", s[..i], s[i..], t, k);
    assert s == "" + s[..i] + s[i..];
  }

  lemma OccursAfter(s: string, t: string, i: nat)
    requires i <= |s| && Contains(s[i..], t)
    ensures Contains(s, t)
  {
    var j :| 0 <= j <= |s[i..]| && OccursAt(t, s[i..], j);
    OccursInPart(s[..i], s[i..], "", t, j);
    assert s == s[..i] + s[i..] + "";
  }

  lemma ReplacementKeepsOut(s: string, p: string, t: string)
    requires p != "" && MaskProof(t) && (t == p || !Contains(s, t))
    ensures !Contains(ReplaceAll(s, p), t)
  {
    if Contains(ReplaceAll(s, p), t) { ReplacementAddsOnlyStars(s, p, t); }
  }

  /** No mask-proof secret survives, whatever the other secrets are, in whatever order, and however
      they overlap: later replacements never bring an earlier secret back. */
  lemma {:induction false} MaskProofSecretsDoNotSurvive(line: string, secrets: seq<string>, t: string)
    requires NoneEmpty(secrets) && t in secrets && MaskProof(t)
    ensures !Contains(Redact(line, secrets), t)
  {
    var before, last := secrets[..|secrets| - 1], secrets[|secrets| - 1];
    assert secrets == before + [last];
    if t != last { MaskProofSecretsDoNotSurvive(line, before, t); }
    ReplacementKeepsOut(Redact(line, before), last, t);
  }

  /** In particular, no star-free secret does. */
  lemma SecretsDoNotSurvive(line: string, secrets: seq<string>, t: string)
    requires NoneEmpty(secrets) && t in secrets && StarFree(t)
    ensures !Contains(Redact(line, secrets), t)
  {
    StarFreeIsMaskProof(t);
    MaskProofSecretsDoNotSurvive(line, secrets, t);
  }

  /** A line that contains no secret is logged as it is. */
  lemma {:induction false} CleanLinesAreKept(line: string, secrets: seq<string>)
    requires NoneEmpty(secrets) && forall s :: s in secrets ==> !Contains(line, s)
    ensures Redact(line, secrets) == line
  {
    if secrets != [] {
      CleanLinesAreKept(line, secrets[..|secrets| - 1]);
      NothingToReplace(line, secrets[|secrets| - 1]);
    }
  }

  // ---- the secrets that can come back ----------------------------------------------------------

  function Stars(s: string): nat {
    if s == "" then 0 else (if s[0] == '*' then 1 else 0) + Stars(s[1..])
  }

  lemma {:induction false} StarsAppend(a: string, b: string)
    ensures Stars(a + b) == Stars(a) + Stars(b)
  {
    if a == "" {
      assert a + b == b;
    } else {
      assert (a + b)[1..] == a[1..] + b;
      StarsAppend(a[1..], b);
    }
  }

  /** A text has at least the stars of what occurs in it. */
  lemma FewerStars(s: string, t: string)
    requires Stars(s) < Stars(t)
    ensures !Contains(s, t)
  {
    forall k | 0 <= k <= |s| ensures !OccursAt(t, s, k) {
      if OccursAt(t, s, k) {
        assert s == s[..k] + t + s[k + |t|..];
        StarsAppend(s[..k] + t, s[k + |t|..]);
        StarsAppend(s[..k], t);
      }
    }
  }

  /** `n` times the character `c`. */
  function Filler(c: char, n: nat): (s: string)
    ensures |s| == n && forall k :: 0 <= k < n ==> s[k] == c
  {
    seq(n, _ => c)
  }

  lemma {:induction false} StarsOfRun(s: string, c: char)
    requires forall k :: 0 <= k < |s| ==> s[k] == c
    ensures Stars(s) == if c == '*' then |s| else 0
  {
    if s != "" { StarsOfRun(s[1..], c); }
  }

  /** A filler that the text before it does not end in is found where it was put, and only there. */
  lemma FillerIsReplaced(a: string, p: string, c: char, b: string)
    requires p != "" && (forall k :: 0 <= k < |p| ==> p[k] == c) && (a != "" ==> a[|a| - 1] != c)
    requires |p| > |a| && |p| > |b|
    ensures ReplaceAll(a + p + b, p) == a + MASK + b
  {
    var line := a + p + b;
    FillerIsFound(a, p, c, b);
    assert line[..|a|] == a && line[|a| + |p|..] == b;
    assert !Contains(b, p);
    NothingToReplace(b, p);
  }

  lemma FillerIsFound(a: string, p: string, c: char, b: string)
    requires p != "" && (forall k :: 0 <= k < |p| ==> p[k] == c) && (a != "" ==> a[|a| - 1] != c) && |p| > |a|
    ensures FindFrom(a + p + b, p, 0) == Some(|a|)
  {
    var line := a + p + b;
    assert line[|a|..|a| + |p|] == p;
    forall k | 0 <= k < |a| ensures !OccursAt(p, line, k) {
      NotEarlier(line, p, c, k, |a| - 1);
    }
    assert OccursAt(p, line, |a|);
  }

  lemma NotEarlier(line: string, p: string, c: char, k: nat, m: nat)
    requires (forall j :: 0 <= j < |p| ==> p[j] == c) && k <= m < k + |p| && m < |line| && line[m] != c
    ensures !OccursAt(p, line, k)
  {
    if k + |p| <= |line| { assert line[k..k + |p|][m - k] == line[m]; }
  }

  /** Stars i..j of `t` are left out of the line; the mask of a second secret puts them back. */
  lemma PutBack(t: string, i: nat, j: nat) returns (line: string, secrets: seq<string>)
    requires i < j <= |t| && (forall k :: i <= k < j ==> t[k] == '*') && Contains(t[..i] + MASK + t[j..], t)
    ensures Leaks(line, secrets, t)
  {
    var c := if i > 0 && t[i - 1] == 'a' then 'b' else 'a';
    var p := Filler(c, |t| + 1);
    line, secrets := t[..i] + p + t[j..], [t, p];
    LineHasFewerStars(t, i, j, p, c);
    FillerIsReplaced(t[..i], p, c, t[j..]);
    RedactTwo(line, t, p);
  }

  lemma RedactTwo(line: string, t: string, p: string)
    requires t != "" && p != "" && !Contains(line, t)
    ensures Redact(line, [t, p]) == ReplaceAll(line, p)
  {
    NothingToReplace(line, t);
    assert [t, p][..1] == [t] && [t][..0] == [];
    assert Redact(line, [t]) == ReplaceAll(line, t);
  }

  lemma LineHasFewerStars(t: string, i: nat, j: nat, p: string, c: char)
    requires i < j <= |t| && (forall k :: i <= k < j ==> t[k] == '*')
    requires c != '*' && forall k :: 0 <= k < |p| ==> p[k] == c
    ensures !Contains(t[..i] + p + t[j..], t)
  {
    assert t == t[..i] + t[i..j] + t[j..];
    StarsAppend(t[..i] + t[i..j], t[j..]);
    StarsAppend(t[..i], t[i..j]);
    StarsOfRun(t[i..j], '*');
    StarsAppend(t[..i] + p, t[j..]);
    StarsAppend(t[..i], p);
    StarsOfRun(p, c);
    FewerStars(t[..i] + p + t[j..], t);
  }

  /** The secret `t` is in the list and still in the redacted line. */
  ghost predicate Leaks(line: string, secrets: seq<string>, t: string) {
    NoneEmpty(secrets) && t in secrets && Contains(Redact(line, secrets), t)
  }

  /** Any other secret can be put back together by the mask of a later one. */
  lemma StarredSecretCanSurvive(t: string) returns (line: string, secrets: seq<string>)
    requires t != "" && !MaskProof(t)
    ensures Leaks(line, secrets, t)
  {
    var n := |t|;
    if t[0] == '*' {
      var r := t[..0] + MASK + t[1..];
      assert r[2..2 + n] == t;
      assert OccursAt(t, r, 2);
      line, secrets := PutBack(t, 0, 1);
    } else if t[n - 1] == '*' {
      var r := t[..n - 1] + MASK + t[n..];
      assert r[0..n] == t;
      assert OccursAt(t, r, 0);
      line, secrets := PutBack(t, n - 1, n);
    } else {
      var i :| 0 <= i <= n && OccursAt(MASK, t, i);
      assert t[i..i + 3] == MASK;
      assert forall k :: i <= k < i + 3 ==> t[k] == t[i..i + 3][k - i];
      var r := t[..i] + MASK + t[i + 3..];
      assert r == t && OccursAt(t, r, 0);
      line, secrets := PutBack(t, i, i + 3);
    }
  }

  /** Exactly which secrets are always masked: those without a star at either end and without three in a row. */
  lemma AlwaysMaskedIff(t: string)
    requires t != ""
    ensures MaskProof(t) <==> forall line, secrets {:trigger Leaks(line, secrets, t)} :: !Leaks(line, secrets, t)
  {
    if MaskProof(t) {
      forall line, secrets ensures !Leaks(line, secrets, t) {
        if NoneEmpty(secrets) && t in secrets { MaskProofSecretsDoNotSurvive(line, secrets, t); }
      }
    } else {
      var line, secrets := StarredSecretCanSurvive(t);
    }
  }
}

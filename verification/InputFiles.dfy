/** How a run's input files are rendered (`canonical_input_blobs` in mcp.rs), and when that determines them. */
module InputFiles {
  import opened Wrappers
  import opened Hex
  import opened Text
  import opened Json
  import opened JsonText
  import opened Bytes

  // ---- input files ----------------------------------------------------------------------------

  function Pair(name: string, sha: Value): string {
    name + ":" + sha.AsStr().GetOr("")
  }

  function Pairs(fields: map<string, Value>, names: seq<string>): (ps: seq<string>)
    requires forall n :: n in names ==> n in fields
    ensures |ps| == |names| && forall i :: 0 <= i < |ps| ==> ps[i] == Pair(names[i], fields[names[i]])
  {
    if names == [] then [] else [Pair(names[0], fields[names[0]])] + Pairs(fields, names[1..])
  }

  function InsertString(x: string, s: seq<string>): (r: seq<string>)
    ensures |r| == |s| + 1
  {
    if s == [] || Leq(x, s[0]) then [x] + s else [s[0]] + InsertString(x, s[1..])
  }

  /** `pairs.sort()` */
  function SortStrings(s: seq<string>): (r: seq<string>)
    ensures |r| == |s|
  {
    if s == [] then [] else InsertString(s[0], SortStrings(s[1..]))
  }

  function Join(parts: seq<string>): string {
    if parts == [] then "" else if |parts| == 1 then parts[0] else parts[0] + "," + Join(parts[1..])
  }

  /** The files of a run: none, or a JSON object from names to hashes. */
  function FilesOf(blobs: Option<Value>): map<string, Value> {
    match blobs
    case Some(Obj(fields)) => fields
    case _ => map[]
  }

  function CanonicalInputBlobs(blobs: Option<Value>): string {
    var fields := FilesOf(blobs);
    Join(SortStrings(Pairs(fields, SortedKeys(fields.Keys))))
  }

  const HASH_DIGITS: nat := 64 // SHA-256 in hexadecimal

  ghost predicate IsHash(s: string) {
    |s| == HASH_DIGITS && forall i :: 0 <= i < |s| ==> IsHexDigit(s[i])
  }

  /** A colon, a hash and a comma: what ends one pair and begins the next. */
  ghost predicate BreaksAt(s: string, i: int, j: int) {
    0 <= i < j < |s| && s[i] == ':' && s[j] == ',' && IsHash(s[i + 1..j])
  }

  /** The rendering cannot tell whether such a text is one name or the end of one pair and the start of another. */
  ghost predicate Ambiguous(s: string) {
    exists i, j :: BreaksAt(s, i, j)
  }

  /** What uploading gives for a file: the name under which its bytes are stored. */
  ghost predicate IsHandle(sha: Value) {
    sha.Str? && IsHash(sha.s)
  }

  ghost predicate Handles(fields: map<string, Value>) {
    forall n :: n in fields ==> IsHandle(fields[n])
  }

  /** Unambiguous names. A comma alone does no harm. */
  ghost predicate PlainNames(fields: map<string, Value>) {
    forall n :: n in fields ==> !Ambiguous(n)
  }

  ghost predicate HashFrom(p: string, i: int) {
    0 <= i < |p| && p[i] == ':' && IsHash(p[i + 1..])
  }

  ghost predicate IsPart(p: string) {
    exists i :: HashFrom(p, i)
  }

  lemma PairIsPart(name: string, sha: Value)
    requires IsHandle(sha)
    ensures IsPart(Pair(name, sha)) && (!Ambiguous(name) ==> !Ambiguous(Pair(name, sha)))
  {
    var p, h := Pair(name, sha), sha.s;
    assert p[|name| + 1..] == h;
    assert HashFrom(p, |name|);
    forall i, j | BreaksAt(p, i, j) ensures BreaksAt(name, i, j) { BreakIsInName(name, h, i, j); }
  }

  /** A hash has neither colon nor comma, so what breaks a pair breaks its name. */
  lemma BreakIsInName(name: string, h: string, i: int, j: int)
    requires IsHash(h) && BreaksAt(name + ":" + h, i, j)
    ensures BreaksAt(name, i, j)
  {
    var p := name + ":" + h;
    assert forall k :: |name| < k < |p| ==> p[k] == h[k - |name| - 1];
    assert p[|name|] == ':';
    assert j < |name|;
    assert p[i + 1..j] == name[i + 1..j];
  }

  /** A name may contain a colon, a hash may not. */
  lemma PairDetermines(n: string, v: Value, n': string, v': Value)
    requires IsHandle(v) && IsHandle(v') && Pair(n, v) == Pair(n', v')
    ensures n == n' && v == v'
  {
    assert ':' !in v.s by { assert IsHash(v.s); }
    assert ':' !in v'.s by { assert IsHash(v'.s); }
    LastSeparator(n, ':', v.s, n', v'.s);
  }

  lemma {:induction false} InsertKeeps(x: string, s: seq<string>)
    ensures forall y :: y in InsertString(x, s) <==> y == x || y in s
  {
    if s != [] && !Leq(x, s[0]) {
      InsertKeeps(x, s[1..]);
      assert s == [s[0]] + s[1..];
    }
  }

  lemma {:induction false} SortKeeps(s: seq<string>)
    ensures forall y :: y in SortStrings(s) <==> y in s
  {
    if s != [] {
      SortKeeps(s[1..]);
      InsertKeeps(s[0], SortStrings(s[1..]));
      assert s == [s[0]] + s[1..];
    }
  }

  /** Parts without a break in them are the finest reading of a text: any other one has fewer parts. */
  lemma {:induction false} UnbrokenIsFinest(a: seq<string>, b: seq<string>)
    requires (forall p :: p in a ==> IsPart(p) && !Ambiguous(p)) && (forall p :: p in b ==> IsPart(p))
    requires Join(a) == Join(b)
    ensures |b| <= |a| && (|b| == |a| ==> b == a)
    decreases |a|
  {
    if a != [] && b != [] {
      assert a[0] in a && b[0] in b;
      assert (forall p :: p in a[1..] ==> p in a) && (forall p :: p in b[1..] ==> p in b);
      NoShorterFirst(b, a);
      if |a[0]| == |b[0]| {
        SameFirst(a, b);
        if |a| > 1 { UnbrokenIsFinest(a[1..], b[1..]); }
        assert a == [a[0]] + a[1..] && b == [b[0]] + b[1..];
      } else {
        var r := LongerFirst(a, b);
        UnbrokenIsFinest(a[1..], [r] + b[1..]);
      }
    } else {
      JoinIsEmpty(a);
      JoinIsEmpty(b);
    }
  }

  /** What stands behind a comma in a part is a part: there is no comma in its hash. */
  lemma RestIsPart(q: string, c: int, r: string)
    requires IsPart(q) && 0 <= c < |q| && q[c] == ',' && r == q[c + 1..]
    ensures IsPart(r)
  {
    var i :| HashFrom(q, i);
    assert forall k :: i < k < |q| ==> q[k] == q[i + 1..][k - i - 1];
    assert r[i - c..] == q[i + 1..];
    assert HashFrom(r, i - c - 1);
  }

  /** A longer first part begins with the shorter one; what is left of it is a part. */
  lemma LongerFirst(a: seq<string>, b: seq<string>) returns (r: string)
    requires a != [] && b != [] && Join(a) == Join(b) && IsPart(b[0]) && |a[0]| < |b[0]|
    ensures IsPart(r) && |a| > 1 && Join(a[1..]) == Join([r] + b[1..])
  {
    JoinStarts(a);
    JoinStarts(b);
    var n := |a[0]|;
    assert b[0][n] == Join(b)[n];
    r := b[0][n + 1..];
    RestIsPart(b[0], n, r);
    JoinAfter(r, b);
    assert Join(b)[n + 1..] == Join([r] + b[1..]);
  }

  lemma JoinAfter(r: string, b: seq<string>)
    requires b != []
    ensures Join([r] + b[1..]) == if |b| == 1 then r else r + "," + Join(b[1..])
  {
    assert ([r] + b[1..])[1..] == b[1..];
  }

  lemma JoinIsEmpty(parts: seq<string>)
    requires forall p :: p in parts ==> IsPart(p)
    ensures Join(parts) == "" <==> parts == []
  {
    if parts != [] { assert IsPart(parts[0]); }
  }

  lemma JoinStarts(parts: seq<string>)
    requires parts != []
    ensures parts[0] <= Join(parts)
    ensures |parts| > 1 ==> |Join(parts)| > |parts[0]| && Join(parts)[|parts[0]|] == ','
                            && Join(parts)[|parts[0]| + 1..] == Join(parts[1..])
    ensures |parts| == 1 ==> Join(parts) == parts[0]
  {
  }

  /** A first part is no proper prefix of an unbroken one: the comma after it would break that. */
  lemma NoShorterFirst(a: seq<string>, b: seq<string>)
    requires a != [] && b != [] && IsPart(a[0]) && !Ambiguous(b[0]) && Join(a) == Join(b)
    ensures |a[0]| >= |b[0]|
  {
    JoinStarts(a);
    JoinStarts(b);
    var p, q := a[0], b[0];
    if |p| < |q| {
      assert q[..|p|] == p && q[|p|] == ',';
      CommaBreaks(p, q);
    }
  }

  lemma CommaBreaks(p: string, q: string)
    requires IsPart(p) && |p| < |q| && q[..|p|] == p && q[|p|] == ','
    ensures Ambiguous(q)
  {
    var i :| HashFrom(p, i);
    assert q[i + 1..|p|] == p[i + 1..];
    assert q[i] == q[..|p|][i];
    assert BreaksAt(q, i, |p|);
  }

  lemma SameFirst(a: seq<string>, b: seq<string>)
    requires a != [] && b != [] && |a[0]| == |b[0]| && Join(a) == Join(b)
    ensures a[0] == b[0] && (|a| == 1 <==> |b| == 1) && (|a| > 1 ==> Join(a[1..]) == Join(b[1..]))
  {
    JoinStarts(a);
    JoinStarts(b);
  }

  /** The rendered pairs of some files, in some order. */
  ghost predicate PairsOf(fields: map<string, Value>, ps: seq<string>) {
    && (forall n :: n in fields ==> Pair(n, fields[n]) in ps)
    && (forall p :: p in ps ==> exists n :: n in fields && p == Pair(n, fields[n]))
  }

  /** The sorted pairs of some files. */
  function PartsOf(fields: map<string, Value>): seq<string> {
    SortStrings(Pairs(fields, SortedKeys(fields.Keys)))
  }

  lemma PairsCome(fields: map<string, Value>)
    ensures PairsOf(fields, PartsOf(fields)) && |PartsOf(fields)| == |fields|
  {
    var names := SortedKeys(fields.Keys);
    SortKeeps(Pairs(fields, names));
    assert |fields| == |fields.Keys|;
    PairsAreOf(fields, names);
  }

  lemma PairsAreOf(fields: map<string, Value>, names: seq<string>)
    requires forall n :: n in names <==> n in fields
    ensures PairsOf(fields, Pairs(fields, names))
  {
    var pairs := Pairs(fields, names);
    forall n | n in fields ensures Pair(n, fields[n]) in pairs {
      var i :| 0 <= i < |names| && names[i] == n;
      assert pairs[i] == Pair(n, fields[n]);
    }
    forall p | p in pairs ensures exists n :: n in fields && p == Pair(n, fields[n]) {
      var i :| 0 <= i < |pairs| && pairs[i] == p;
      assert names[i] in names;
    }
  }

  lemma FileInBoth(a: map<string, Value>, b: map<string, Value>, n: string)
    requires Handles(a) && Handles(b) && n in a
    requires exists m :: m in b && Pair(n, a[n]) == Pair(m, b[m])
    ensures n in b && b[n] == a[n]
  {
    var m :| m in b && Pair(n, a[n]) == Pair(m, b[m]);
    PairDetermines(n, a[n], m, b[m]);
  }

  lemma SamePairs(f: map<string, Value>, g: map<string, Value>, ps: seq<string>)
    requires Handles(f) && Handles(g) && PairsOf(f, ps) && PairsOf(g, ps)
    ensures f == g
  {
    forall n | n in f ensures n in g && g[n] == f[n] { FileInBoth(f, g, n); }
    forall n | n in g ensures n in f && f[n] == g[n] { FileInBoth(g, f, n); }
  }

  lemma PairsAreParts(fields: map<string, Value>, ps: seq<string>)
    requires Handles(fields) && PairsOf(fields, ps)
    ensures forall p :: p in ps ==> IsPart(p) && (PlainNames(fields) ==> !Ambiguous(p))
  {
    forall p | p in ps ensures IsPart(p) && (PlainNames(fields) ==> !Ambiguous(p)) {
      var n :| n in fields && p == Pair(n, fields[n]);
      PairIsPart(n, fields[n]);
    }
  }

  /** The rendering of a set of files. */
  function Rendering(fields: map<string, Value>): string {
    CanonicalInputBlobs(Some(Obj(fields)))
  }

  /** Among all sets of files that are rendered alike, one with unambiguous names has the most files, and no other
      has as many. */
  lemma PlainNamesAreFinest(f: map<string, Value>, g: map<string, Value>)
    requires Handles(f) && Handles(g) && PlainNames(f) && Rendering(f) == Rendering(g)
    ensures |g| <= |f| && (|g| == |f| ==> g == f)
  {
    PairsCome(f);
    PairsCome(g);
    PairsAreParts(f, PartsOf(f));
    PairsAreParts(g, PartsOf(g));
    UnbrokenIsFinest(PartsOf(f), PartsOf(g));
    if |g| == |f| { SamePairs(f, g, PartsOf(f)); }
  }

  /** With unambiguous names on both sides, the rendering of the input files determines them, whatever the order of
      the map. */
  lemma BlobsInjective(a: Option<Value>, b: Option<Value>)
    requires Handles(FilesOf(a)) && Handles(FilesOf(b)) && PlainNames(FilesOf(a)) && PlainNames(FilesOf(b))
    requires CanonicalInputBlobs(a) == CanonicalInputBlobs(b)
    ensures FilesOf(a) == FilesOf(b)
  {
    PlainNamesAreFinest(FilesOf(a), FilesOf(b));
    PlainNamesAreFinest(FilesOf(b), FilesOf(a));
  }

  // ---- characters that stay out ------------------------------------------------------------------

  /** A character that names may lack and that the rendering does not add. */
  predicate Foreign(c: char) {
    c != ':' && c != ',' && !IsHexDigit(c)
  }

  ghost predicate NamesLack(fields: map<string, Value>, c: char) {
    forall n :: n in fields ==> c !in n
  }

  lemma {:induction false} JoinLacks(parts: seq<string>, c: char)
    requires c != ',' && forall p :: p in parts ==> c !in p
    ensures c !in Join(parts)
  {
    if |parts| > 1 {
      assert forall p :: p in parts[1..] ==> p in parts;
      JoinLacks(parts[1..], c);
    }
  }

  lemma PairLacks(name: string, sha: Value, c: char)
    requires IsHandle(sha) && Foreign(c) && c !in name
    ensures c !in Pair(name, sha)
  {
    assert IsHash(sha.s);
    assert c !in sha.s;
  }

  lemma BlobsLack(blobs: Option<Value>, c: char)
    requires Handles(FilesOf(blobs)) && NamesLack(FilesOf(blobs), c) && Foreign(c)
    ensures c !in CanonicalInputBlobs(blobs)
  {
    var f := FilesOf(blobs);
    PairsCome(f);
    forall p | p in PartsOf(f) ensures c !in p {
      var n :| n in f && p == Pair(n, f[n]);
      PairLacks(n, f[n], c);
    }
    JoinLacks(PartsOf(f), c);
  }
}

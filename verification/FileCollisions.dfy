/** Which sets of input files are rendered like another one, and what an ambiguous name adds to that. */
module FileCollisions {
  import opened Wrappers
  import opened Hex
  import opened Text
  import opened Json
  import opened JsonText
  import opened Bytes
  import opened InputFiles

  // ---- order ------------------------------------------------------------------------------------

  lemma {:induction false} LeqReflexive(x: string)
    ensures Leq(x, x)
  {
    if x != "" { LeqReflexive(x[1..]); }
  }

  lemma {:induction false} LeqExtend(x: string, y: string, z: string)
    requires Leq(x, y)
    ensures Leq(x, y + z)
  {
    if x != "" && x[0] == y[0] {
      LeqExtend(x[1..], y[1..], z);
      assert (y + z)[1..] == y[1..] + z;
    }
  }

  /** A common beginning does not matter. */
  lemma {:induction false} LeqAfter(p: string, x: string, y: string)
    ensures Leq(p + x, p + y) <==> Leq(x, y)
  {
    if p == "" {
      assert p + x == x && p + y == y;
    } else {
      LeqAfter(p[1..], x, y);
      assert (p + x)[1..] == p[1..] + x && (p + y)[1..] == p[1..] + y;
    }
  }

  lemma {:induction false} InsertAscends(x: string, s: seq<string>)
    requires Ascending(s) && x !in s
    ensures Ascending(InsertString(x, s))
  {
    if s != [] {
      LeqTotal(x, s[0]);
      if Leq(x, s[0]) {
        forall j | 0 <= j < |s| ensures Leq(x, s[j]) && x != s[j] {
          if j > 0 { LeqTransitive(x, s[0], s[j]); }
        }
      } else {
        assert Ascending(s[1..]);
        InsertAscends(x, s[1..]);
        InsertKeeps(x, s[1..]);
        AscendsAfter(s[0], InsertString(x, s[1..]));
      }
    }
  }

  ghost predicate Distinct(s: seq<string>) {
    forall i, j :: 0 <= i < j < |s| ==> s[i] != s[j]
  }

  lemma {:induction false} SortAscends(s: seq<string>)
    requires Distinct(s)
    ensures Ascending(SortStrings(s))
  {
    if s != [] {
      SortAscends(s[1..]);
      SortKeeps(s[1..]);
      InsertAscends(s[0], SortStrings(s[1..]));
    }
  }

  /** The pairs of a set of files, sorted, are all different. */
  lemma PartsAscend(fields: map<string, Value>)
    requires Handles(fields)
    ensures Ascending(PartsOf(fields))
  {
    var names := SortedKeys(fields.Keys);
    var pairs := Pairs(fields, names);
    SortedKeysAscend(fields.Keys);
    forall i, j | 0 <= i < j < |pairs| ensures pairs[i] != pairs[j] {
      assert names[i] in names && names[j] in names;
      if pairs[i] == pairs[j] { PairDetermines(names[i], fields[names[i]], names[j], fields[names[j]]); }
    }
    SortAscends(pairs);
  }

  // ---- names without commas ---------------------------------------------------------------------

  lemma {:induction false} SplitOfJoin(parts: seq<string>)
    requires parts != [] && forall p :: p in parts ==> ',' !in p
    ensures Split(Join(parts), ',') == parts
  {
    if |parts| == 1 {
      SplitNone(parts[0], ',');
    } else {
      assert forall p :: p in parts[1..] ==> p in parts;
      SplitOfJoin(parts[1..]);
      SplitFirst(parts[0], ',', Join(parts[1..]));
      assert parts == [parts[0]] + parts[1..];
    }
  }

  /** Names without commas are read off by splitting at the commas: the pairs of name and hash, each once, in ascending
      order. */
  lemma RenderingSplits(fields: map<string, Value>)
    requires Handles(fields) && fields != map[] && forall n :: n in fields ==> ',' !in n
    ensures var ps := Split(Rendering(fields), ',');
            Ascending(ps) && forall p :: p in ps <==> exists n :: n in fields && p == n + ":" + fields[n].s
  {
    var ps := PartsOf(fields);
    PairsCome(fields);
    PartsAscend(fields);
    assert |fields| > 0 by { assert fields.Keys != {}; }
    forall p | p in ps ensures ',' !in p {
      var n :| n in fields && p == Pair(n, fields[n]);
      CommaIsForeign(n, fields[n]);
    }
    SplitOfJoin(ps);
    RenderingIsJoin(fields);
    forall p ensures p in ps <==> exists n :: n in fields && p == n + ":" + fields[n].s {
      if n :| n in fields && p == n + ":" + fields[n].s { assert p == Pair(n, fields[n]); }
    }
  }

  lemma CommaIsForeign(n: string, sha: Value)
    requires IsHandle(sha) && ',' !in n
    ensures ',' !in Pair(n, sha)
  {
    assert IsHash(sha.s);
    assert ',' !in sha.s;
  }

  // ---- sets of one and two files ------------------------------------------------------------------

  /** `files` have handles and are rendered as `text`. */
  ghost predicate RenderedAs(files: map<string, Value>, text: string) {
    Handles(files) && Rendering(files) == text
  }

  lemma SortOfOne(x: string)
    ensures SortStrings([x]) == [x]
  {
  }

  ghost predicate IsOne(files: map<string, Value>, n: string, h: string) {
    files.Keys == {n} && |files| == 1 && files[n] == Str(h) && IsHash(h)
  }

  ghost predicate AreTwo(files: map<string, Value>, p: string, g: string, q: string, h: string) {
    && files.Keys == {p, q} && p != q && |files| == 2
    && files[p] == Str(g) && files[q] == Str(h) && IsHash(g) && IsHash(h)
  }

  lemma MakeOne(n: string, h: string) returns (files: map<string, Value>)
    requires IsHash(h)
    ensures IsOne(files, n, h)
  {
    files := map[n := Str(h)];
  }

  lemma MakeTwo(p: string, g: string, q: string, h: string) returns (files: map<string, Value>)
    requires IsHash(g) && IsHash(h) && p != q
    ensures AreTwo(files, p, g, q, h)
  {
    files := map[p := Str(g), q := Str(h)];
    assert |files.Keys| == 2;
  }

  lemma OneFile(files: map<string, Value>, n: string, h: string)
    requires IsOne(files, n, h)
    ensures RenderedAs(files, n + ":" + h)
  {
    SortedKeysIsTheSort(files.Keys, [n]);
    assert Pairs(files, [n]) == [Pair(n, Str(h))];
    SortOfOne(Pair(n, Str(h)));
  }

  /** Two files are rendered in the order of their pairs. */
  lemma TwoFiles(files: map<string, Value>, p: string, g: string, q: string, h: string, x: string, y: string)
    requires AreTwo(files, p, g, q, h) && x == p + ":" + g && y == q + ":" + h && Leq(x, y)
    ensures RenderedAs(files, x + "," + y)
  {
    LeqTotal(p, q);
    if Leq(p, q) {
      TwoPairs(files, p, q, x, y);
    } else {
      TwoPairs(files, q, p, y, x);
    }
    JoinSorted(x, y);
  }

  lemma TwoPairs(files: map<string, Value>, p: string, q: string, x: string, y: string)
    requires files.Keys == {p, q} && p != q && Leq(p, q) && x == Pair(p, files[p]) && y == Pair(q, files[q])
    ensures Rendering(files) == Join(SortStrings([x, y]))
  {
    SortedKeysIsTheSort(files.Keys, [p, q]);
    PairsOfTwo(files, p, q, x, y);
  }

  lemma PairsOfTwo(files: map<string, Value>, p: string, q: string, x: string, y: string)
    requires p in files && q in files && x == Pair(p, files[p]) && y == Pair(q, files[q])
    ensures Pairs(files, [p, q]) == [x, y]
  {
  }

  lemma JoinSorted(x: string, y: string)
    requires Leq(x, y)
    ensures Join(SortStrings([x, y])) == x + "," + y && Join(SortStrings([y, x])) == x + "," + y
  {
    LeqTotal(x, y);
    SortOfOne(x);
    SortOfOne(y);
    assert [x, y][1..] == [y] && [y, x][1..] == [x];
    assert Join([x, y]) == x + "," + y;
  }

  // ---- exactly which uploads are rendered like another one -------------------------------------------

  /** No slash and no two dots in a row. */
  ghost predicate Flat(n: string) {
    '/' !in n && !Contains(n, "..")
  }

  /** The file names the upload check lets through. */
  ghost predicate UploadName(n: string) {
    n != "" && Flat(n)
  }

  ghost predicate Uploads(fields: map<string, Value>) {
    Handles(fields) && forall n :: n in fields ==> UploadName(n)
  }

  ghost predicate RenderedLikeAnother(f: map<string, Value>) {
    exists g :: Uploads(g) && g != f && Rendering(g) == Rendering(f)
  }

  /** The file `n` with hash `h` reads as two: the parts around the break are names, not the same, and in order. */
  ghost predicate SplitsAt(n: string, h: string, i: int, j: int) {
    BreaksAt(n, i, j) && i > 0 && j + 1 < |n| && n[..i] != n[j + 1..] && Leq(n[..j], n[j + 1..] + ":" + h)
  }

  ghost predicate Splits(n: string, h: string) {
    exists i, j :: SplitsAt(n, h, i, j)
  }

  ghost predicate TwoDots(s: string) {
    exists i :: 0 <= i < |s| - 1 && s[i] == '.' && s[i + 1] == '.'
  }

  lemma DotsAt(s: string)
    ensures Contains(s, "..") <==> TwoDots(s)
  {
    if Contains(s, "..") {
      var i :| 0 <= i <= |s| && OccursAt("..", s, i);
      assert s[i] == s[i..i + 2][0] && s[i + 1] == s[i..i + 2][1];
    }
    if TwoDots(s) {
      var i :| 0 <= i < |s| - 1 && s[i] == '.' && s[i + 1] == '.';
      assert s[i..i + 2] == "..";
      assert OccursAt("..", s, i);
    }
  }

  lemma DotsStay(x: string, s: string, k: nat)
    requires TwoDots(x) && k + |x| <= |s| && s[k..k + |x|] == x
    ensures TwoDots(s)
  {
    var i :| 0 <= i < |x| - 1 && x[i] == '.' && x[i + 1] == '.';
    assert s[k + i] == s[k..k + |x|][i] && s[k + i + 1] == s[k..k + |x|][i + 1];
  }

  lemma DotsComeFrom(x: string, c: char, y: string)
    requires c != '.' && TwoDots(x + [c] + y)
    ensures TwoDots(x) || TwoDots(y)
  {
    var s := x + [c] + y;
    var i :| 0 <= i < |s| - 1 && s[i] == '.' && s[i + 1] == '.';
    if i + 1 < |x| {
      assert x[i] == '.' && x[i + 1] == '.';
    } else {
      var k := i - |x| - 1;
      assert y[k] == s[i] && y[k + 1] == s[i + 1];
    }
  }

  lemma FlatJoin(x: string, c: char, y: string)
    requires c != '.' && c != '/'
    ensures Flat(x + [c] + y) <==> Flat(x) && Flat(y)
  {
    var s := x + [c] + y;
    DotsAt(x);
    DotsAt(y);
    DotsAt(s);
    assert s[0..0 + |x|] == x && s[|x| + 1..|x| + 1 + |y|] == y;
    if TwoDots(x) { DotsStay(x, s, 0); }
    if TwoDots(y) { DotsStay(y, s, |x| + 1); }
    if TwoDots(s) { DotsComeFrom(x, c, y); }
  }

  lemma HashIsFlat(h: string)
    requires IsHash(h)
    ensures Flat(h)
  {
    DotsAt(h);
  }

  /** A name with a break in it is an upload name like its halves. */
  lemma BrokenIsFlat(a: string, g: string, b: string)
    requires IsHash(g)
    ensures Flat(a + ":" + g + "," + b) <==> Flat(a) && Flat(b)
  {
    HashIsFlat(g);
    FlatJoin(a + ":" + g, ',', b);
    FlatJoin(a, ':', g);
  }

  /** A rendered upload, taken apart. */
  ghost predicate IsUpload(p: string, n: string, h: string) {
    p == n + ":" + h && UploadName(n) && IsHash(h)
  }

  lemma UploadsArePairs(fields: map<string, Value>, ps: seq<string>)
    requires Uploads(fields) && PairsOf(fields, ps)
    ensures forall p :: p in ps ==> exists n, h :: IsUpload(p, n, h)
  {
    forall p | p in ps ensures exists n, h :: IsUpload(p, n, h) {
      var n :| n in fields && p == Pair(n, fields[n]);
      assert IsUpload(p, n, fields[n].s);
    }
  }

  /** Any number of rendered uploads put together read as a single one. */
  lemma {:induction false} ReadAsOne(ps: seq<string>) returns (n: string, h: string)
    requires ps != [] && forall p :: p in ps ==> exists m, k :: IsUpload(p, m, k)
    ensures IsUpload(Join(ps), n, h)
  {
    assert ps[0] in ps;
    var m, k :| IsUpload(ps[0], m, k);
    if |ps| == 1 {
      n, h := m, k;
    } else {
      assert forall p :: p in ps[1..] ==> p in ps;
      var n', h' := ReadAsOne(ps[1..]);
      BrokenIsFlat(m, k, n');
      n, h := m + ":" + k + "," + n', h';
      assert (m + ":" + k) + "," + (n' + ":" + h') == n + ":" + h;
    }
  }

  lemma UploadReadsAsOne(f: map<string, Value>) returns (n: string, h: string)
    requires Uploads(f) && |f| > 0
    ensures IsUpload(Rendering(f), n, h)
  {
    PairsCome(f);
    UploadsArePairs(f, PartsOf(f));
    n, h := ReadAsOne(PartsOf(f));
    RenderingIsJoin(f);
  }

  lemma RenderingIsJoin(f: map<string, Value>)
    ensures Rendering(f) == Join(PartsOf(f))
  {
  }

  /** Two or more files always read as one. */
  lemma ManyReadAsOne(f: map<string, Value>)
    requires Uploads(f) && |f| > 1
    ensures RenderedLikeAnother(f)
  {
    var n, h := UploadReadsAsOne(f);
    var g := MakeOne(n, h);
    OneFile(g, n, h);
    LikeThis(f, g);
  }

  lemma LikeThis(f: map<string, Value>, g: map<string, Value>)
    requires Uploads(g) && g != f && Rendering(g) == Rendering(f)
    ensures RenderedLikeAnother(f)
  {
  }

  /** One pair that is two. */
  lemma OneText(a: string, g: string, b: string, h: string)
    ensures (a + ":" + g) + "," + (b + ":" + h) == (a + ":" + g + "," + b) + ":" + h
  {
  }

  lemma SplitReadsAsTwo(f: map<string, Value>, n: string, h: string)
    requires IsOne(f, n, h) && UploadName(n) && Splits(n, h)
    ensures RenderedLikeAnother(f)
  {
    var i, j :| SplitsAt(n, h, i, j);
    Around(n, i, j);
    TwoReadAsOne(f, n, h, n[..i], n[i + 1..j], n[j + 1..]);
  }

  lemma TwoReadAsOne(f: map<string, Value>, n: string, h: string, a: string, g: string, b: string)
    requires IsOne(f, n, h) && UploadName(n) && n == a + ":" + g + "," + b && IsHash(g)
    requires a != "" && b != "" && a != b && Leq(a + ":" + g, b + ":" + h)
    ensures RenderedLikeAnother(f)
  {
    BrokenIsFlat(a, g, b);
    OneFile(f, n, h);
    var two := MakeTwo(a, g, b, h);
    TwoFiles(two, a, g, b, h, a + ":" + g, b + ":" + h);
    OneText(a, g, b, h);
    LikeTheTwo(f, two, a, g, b, h);
  }

  lemma LikeTheTwo(f: map<string, Value>, two: map<string, Value>, a: string, g: string, b: string, h: string)
    requires AreTwo(two, a, g, b, h) && UploadName(a) && UploadName(b) && |f| == 1 && Rendering(two) == Rendering(f)
    ensures RenderedLikeAnother(f)
  {
    LikeThis(f, two);
  }

  lemma Around(n: string, i: int, j: int)
    requires BreaksAt(n, i, j)
    ensures n == n[..i] + ":" + n[i + 1..j] + "," + n[j + 1..] && n[..j] == n[..i] + ":" + n[i + 1..j]
  {
    assert n[..j] == n[..i] + ":" + n[i + 1..j];
    assert n == n[..j] + "," + n[j + 1..];
  }

  /** The first of several parts and the rest of them are two names, not the same and in order. */
  lemma SeveralPartsSplit(qs: seq<string>, n: string, h: string)
    requires |qs| > 1 && Ascending(qs) && IsHash(h) && Join(qs) == n + ":" + h
    requires forall p :: p in qs ==> exists m, k :: IsUpload(p, m, k)
    requires NamesDistinct(qs)
    ensures Splits(n, h)
  {
    assert qs[0] in qs && qs[1] in qs && forall p :: p in qs[1..] ==> p in qs;
    var a, g :| IsUpload(qs[0], a, g);
    var b, h' := ReadAsOne(qs[1..]);
    OneText(a, g, b, h');
    SameEnding(a + ":" + g + "," + b, h', n, h);
    JoinStarts(qs[1..]);
    RestIsLater(qs[0], qs[1], Join(qs[1..]));
    assert |qs| == 2 ==> Join(qs[1..]) == qs[1] && IsUpload(qs[1], b, h');
    if a == b && |qs| > 2 { FirstIsNoExtension(qs[0], qs[1], Join(qs[1..]), a, g, h); }
    SplitsAtTheSeam(a, g, b, h);
  }

  lemma SplitsAtTheSeam(a: string, g: string, b: string, h: string)
    requires UploadName(a) && UploadName(b) && IsHash(g) && IsHash(h) && a != b && Leq(a + ":" + g, b + ":" + h)
    ensures Splits(a + ":" + g + "," + b, h)
  {
    var n := a + ":" + g + "," + b;
    Seam(a, g, b, n);
    assert SplitsAt(n, h, |a|, |a| + 1 + |g|);
  }

  lemma Seam(a: string, g: string, b: string, n: string)
    requires n == a + ":" + g + "," + b
    ensures var i, j := |a|, |a| + 1 + |g|;
            && j < |n| && n[i] == ':' && n[j] == ',' && n[j + 1..] == b && n[..j] == a + ":" + g
            && n[..i] == a && n[i + 1..j] == g
  {
    var i, j := |a|, |a| + 1 + |g|;
    assert n[..j] == a + ":" + g && n[j..] == "," + b;
    assert n[..i] == n[..j][..i] && n[i + 1..j] == n[..j][i + 1..];
  }

  ghost predicate NamesDistinct(qs: seq<string>) {
    forall p, q, m, k, k' :: p in qs && q in qs && IsUpload(p, m, k) && IsUpload(q, m, k') ==> p == q
  }

  lemma SameEnding(n': string, h': string, n: string, h: string)
    requires IsHash(h') && IsHash(h) && n' + ":" + h' == n + ":" + h
    ensures n' == n && h' == h
  {
    assert ':' !in h && ':' !in h';
    LastSeparator(n', ':', h', n, h);
  }

  lemma RestIsLater(p: string, q: string, rest: string)
    requires Leq(p, q) && q <= rest
    ensures Leq(p, rest)
  {
    LeqExtend(p, q, rest[|q|..]);
    assert rest == q + rest[|q|..];
  }

  /** The rest of the parts is no longer spelling of the first part's name: its own first part would come first. */
  lemma FirstIsNoExtension(p: string, q: string, rest: string, a: string, g: string, h: string)
    requires p == a + ":" + g && rest == a + ":" + h && |g| == |h| && q < rest && rest[|q|] == ','
    requires IsHash(h) && Leq(p, q)
    ensures p == q
  {
    assert |q| < |a| by {
      assert rest[|a|] == ':' && forall k :: |a| < k < |rest| ==> rest[k] == h[k - |a| - 1];
    }
    assert q == p[..|q|];
    LeqReflexive(q);
    LeqExtend(q, q, p[|q|..]);
    assert p == q + p[|q|..];
    LeqTotal(p, q);
  }

  lemma NamesAreDistinct(g: map<string, Value>, qs: seq<string>)
    requires Uploads(g) && PairsOf(g, qs)
    ensures NamesDistinct(qs)
  {
    forall p, q, m, k, k' | p in qs && q in qs && IsUpload(p, m, k) && IsUpload(q, m, k') ensures p == q {
      var x :| x in g && p == Pair(x, g[x]);
      var y :| y in g && q == Pair(y, g[y]);
      SameEnding(x, g[x].s, m, k);
      SameEnding(y, g[y].s, m, k');
    }
  }

  /** What is rendered like a single file is that file, or the file splits. */
  lemma LikeOneFile(n: string, h: string, g: map<string, Value>)
    requires IsHash(h) && Uploads(g) && Rendering(g) == n + ":" + h
    ensures IsOne(g, n, h) || Splits(n, h)
  {
    var qs := PartsOf(g);
    PairsCome(g);
    if |qs| == 1 {
      assert qs[0] in qs;
      var m :| m in g && qs[0] == Pair(m, g[m]);
      SameEnding(m, g[m].s, n, h);
      OneKey(g, n);
    } else if |qs| > 1 {
      UploadsArePairs(g, qs);
      NamesAreDistinct(g, qs);
      PartsAscend(g);
      SeveralPartsSplit(qs, n, h);
    }
  }

  lemma OneKey(g: map<string, Value>, n: string)
    requires |g| == 1 && n in g
    ensures g.Keys == {n}
  {
    assert |g.Keys - {n}| == 0;
  }

  lemma LikeNoFile(f: map<string, Value>, g: map<string, Value>)
    requires |f| == 0 && Handles(g) && Rendering(g) == Rendering(f)
    ensures g == f
  {
    PairsCome(f);
    PairsCome(g);
    PairsAreParts(g, PartsOf(g));
    JoinIsEmpty(PartsOf(g));
  }

  lemma OneFileIff(f: map<string, Value>, n: string, h: string)
    requires Uploads(f) && IsOne(f, n, h)
    ensures RenderedLikeAnother(f) <==> Splits(n, h)
  {
    OneFile(f, n, h);
    if Splits(n, h) { SplitReadsAsTwo(f, n, h); }
    if RenderedLikeAnother(f) {
      var g :| Uploads(g) && g != f && Rendering(g) == Rendering(f);
      LikeOneFile(n, h, g);
      SameOne(f, g, n, h);
    }
  }

  lemma SameOne(f: map<string, Value>, g: map<string, Value>, n: string, h: string)
    requires IsOne(f, n, h)
    ensures IsOne(g, n, h) ==> g == f
  {
  }

  /** Exactly which uploads can be mistaken for others: any two files or more, and a single file whose name reads as
      another file, its hash and a later file's name. */
  lemma RenderedLikeAnotherIff(f: map<string, Value>)
    requires Uploads(f)
    ensures RenderedLikeAnother(f) <==> |f| > 1 || exists n :: n in f && Splits(n, f[n].s)
  {
    if |f| > 1 {
      ManyReadAsOne(f);
    } else if |f| == 1 {
      var n :| n in f;
      OneKey(f, n);
      OneFileIff(f, n, f[n].s);
    } else if RenderedLikeAnother(f) {
      var g :| Uploads(g) && g != f && Rendering(g) == Rendering(f);
      LikeNoFile(f, g);
    }
  }

  // ---- exactly which names make for it -----------------------------------------------------------------

  /** Two sets of files, not equal, that are rendered the same. */
  ghost predicate Collide(one: map<string, Value>, two: map<string, Value>) {
    one != two && Handles(one) && Handles(two) && Rendering(one) == Rendering(two)
  }

  /** `one` is taken for a set of no fewer files, and no name in it but `n` is ambiguous. */
  ghost predicate TornAt(n: string, one: map<string, Value>, two: map<string, Value>) {
    Collide(one, two) && n in one && |two| >= |one| && forall m :: m in one && m != n ==> !Ambiguous(m)
  }

  /** A name and its last break. */
  ghost predicate LastBreak(n: string, a: string, g: string, b: string) {
    n == a + ":" + g + "," + b && IsHash(g) && !Ambiguous(b)
  }

  lemma {:induction false} LastBreakExists(n: string) returns (a: string, g: string, b: string)
    requires Ambiguous(n)
    ensures LastBreak(n, a, g, b)
    decreases |n|
  {
    var i, j :| BreaksAt(n, i, j);
    Around(n, i, j);
    a, g, b := n[..i], n[i + 1..j], n[j + 1..];
    if Ambiguous(b) {
      var a', g', b' := LastBreakExists(b);
      BreakFurther(a, g, a', g', b');
      a, g, b := a + ":" + g + "," + a', g', b';
    }
  }

  lemma BreakFurther(a: string, g: string, a': string, g': string, b': string)
    ensures a + ":" + g + "," + (a' + ":" + g' + "," + b') == (a + ":" + g + "," + a') + ":" + g' + "," + b'
  {
  }

  /** One file that looks like two, when the two parts stand in order. */
  lemma TornInOrder(n: string, a: string, g: string, b: string, z: string)
    returns (one: map<string, Value>, two: map<string, Value>)
    requires LastBreak(n, a, g, b) && IsHash(z) && a != b && Leq(a + ":" + g, b + ":" + z)
    ensures TornAt(n, one, two)
  {
    one := MakeOne(n, z);
    two := MakeTwo(a, g, b, z);
    OneFile(one, n, z);
    TwoFiles(two, a, g, b, z, a + ":" + g, b + ":" + z);
    OneText(a, g, b, z);
    assert TornAt(n, one, two);
  }

  /** When they do not, a file named `b` beside it takes the first place. */
  lemma TornOutOfOrder(n: string, a: string, g: string, b: string, z: string, o: string)
    returns (one: map<string, Value>, two: map<string, Value>)
    requires LastBreak(n, a, g, b) && IsHash(z) && IsHash(o) && z[0] < o[0] && Leq(b + ":" + z, a + ":" + g)
    ensures TornAt(n, one, two)
  {
    var m := b + ":" + z + "," + a;
    one := FirstReading(n, a, g, b, z, o);
    two := SecondReading(m, a, g, b, z, o);
    SameText(b + ":" + z, a, g, b, o);
    TornFrom(n, b, m, g, z, o, one, two, (b + ":" + z) + "," + (n + ":" + o));
  }

  lemma FirstReading(n: string, a: string, g: string, b: string, z: string, o: string) returns (one: map<string, Value>)
    requires n == a + ":" + g + "," + b && IsHash(z) && IsHash(o) && Leq(b + ":" + z, a + ":" + g)
    ensures AreTwo(one, b, z, n, o) && RenderedAs(one, (b + ":" + z) + "," + (n + ":" + o))
  {
    assert |n| > |b|;
    one := MakeTwo(b, z, n, o);
    Prefixed(a + ":" + g, b, o);
    RestIsLater(b + ":" + z, a + ":" + g, n + ":" + o);
    TwoFiles(one, b, z, n, o, b + ":" + z, n + ":" + o);
  }

  lemma SecondReading(m: string, a: string, g: string, b: string, z: string, o: string) returns (two: map<string, Value>)
    requires m == b + ":" + z + "," + a && IsHash(g) && IsHash(z) && IsHash(o) && z[0] < o[0]
    ensures AreTwo(two, m, g, b, o) && RenderedAs(two, (m + ":" + g) + "," + (b + ":" + o))
  {
    assert |m| > |b|;
    two := MakeTwo(m, g, b, o);
    TwoIsInOrder(b, z, a, g, m, o);
    TwoFiles(two, m, g, b, o, m + ":" + g, b + ":" + o);
  }

  lemma TornFrom(n: string, b: string, m: string, g: string, z: string, o: string,
                one: map<string, Value>, two: map<string, Value>, text: string)
    requires RenderedAs(one, text) && RenderedAs(two, text) && AreTwo(one, b, z, n, o) && AreTwo(two, m, g, b, o)
    requires z != o && !Ambiguous(b)
    ensures TornAt(n, one, two)
  {
    assert one[b] != two[b];
  }

  lemma TwoIsInOrder(b: string, z: string, a: string, g: string, m: string, o: string)
    requires m == b + ":" + z + "," + a && z != "" && o != "" && z[0] < o[0]
    ensures Leq(m + ":" + g, b + ":" + o)
  {
    var rest := "," + a + ":" + g;
    LowerFirst(z, rest, o);
    LeqAfter(b + ":", z + rest, o);
    Shifted(b + ":", z, a, g);
  }

  lemma Prefixed(x: string, b: string, o: string)
    ensures x <= (x + "," + b) + ":" + o
  {
  }

  lemma Shifted(x: string, z: string, a: string, g: string)
    ensures (x + z + "," + a) + ":" + g == x + (z + ("," + a + ":" + g))
  {
  }

  lemma SameText(x: string, a: string, g: string, b: string, o: string)
    ensures x + "," + ((a + ":" + g + "," + b) + ":" + o) == ((x + "," + a) + ":" + g) + "," + (b + ":" + o)
  {
  }

  lemma LowerFirst(z: string, rest: string, o: string)
    requires z != "" && o != "" && z[0] < o[0]
    ensures Leq(z + rest, o)
  {
    assert (z + rest)[0] == z[0];
  }

  lemma {:induction false} ZerosAreLeast(z: string, g: string)
    requires |z| == |g| && forall i :: 0 <= i < |z| ==> z[i] == '0' <= g[i]
    ensures Leq(z, g)
  {
    if z != "" { ZerosAreLeast(z[1..], g[1..]); }
  }

  /** Every ambiguous name tears some set of otherwise unambiguous files. */
  lemma AmbiguousNameTears(n: string) returns (one: map<string, Value>, two: map<string, Value>)
    requires Ambiguous(n)
    ensures TornAt(n, one, two)
  {
    var a, g, b := LastBreakExists(n);
    var z, o := seq(HASH_DIGITS, _ => '0'), seq(HASH_DIGITS, _ => '1');
    LeqTotal(b + ":" + z, a + ":" + g);
    if Leq(b + ":" + z, a + ":" + g) {
      one, two := TornOutOfOrder(n, a, g, b, z, o);
    } else {
      if a == b {
        ZerosAreLeast(z, g);
        LeqAfter(a + ":", z, g);
      }
      one, two := TornInOrder(n, a, g, b, z);
    }
  }

  /** A name can be the only reason why some set of files is taken for another one of no fewer files if and only if a
      comma follows a colon and a hash in it. */
  lemma AmbiguousIffItTears(n: string)
    ensures Ambiguous(n) <==> exists one, two :: TornAt(n, one, two)
  {
    if Ambiguous(n) {
      var one, two := AmbiguousNameTears(n);
    } else {
      forall one, two ensures !TornAt(n, one, two) {
        if TornAt(n, one, two) { PlainNamesAreFinest(one, two); }
      }
    }
  }
}

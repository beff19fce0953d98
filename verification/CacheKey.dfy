/** What the run cache hashes (`run_cache_key` in mcp.rs): equal byte strings mean
    equal runs. SHA-256 itself is not part of this model. */
module CacheKey {
  import opened Wrappers
  import opened Hex
  import opened Text
  import opened Json
  import opened JsonText
  import opened CanonicalText
  import opened JsonReader
  import opened Bytes
  import opened InputFiles
  import opened FileCollisions

  const UNIT_CHAR: char := '\U{1f}' // the separator between the parts
  const UNIT: Byte := 0x1f

  // ---- canonical JSON never contains the separator -------------------------------------------------

  ghost predicate CleanEscape(e: Escape) {
    forall c :: UNIT_CHAR !in e(c)
  }

  lemma JsonEscapeIsClean()
    ensures CleanEscape(JsonEscape)
  {
    forall c ensures UNIT_CHAR !in JsonEscape(c) {
      if c < ' ' { assert IsHexDigit(HexDigit(c as int / 16)) && IsHexDigit(HexDigit(c as int % 16)); }
    }
  }

  lemma DebugEscapeIsClean(printable: char -> bool)
    requires !printable(UNIT_CHAR)
    ensures CleanEscape(DebugKeys(printable))
  {
    forall c ensures UNIT_CHAR !in DebugKeys(printable)(c) {
      var h := HexNumeral(c as int);
      assert forall i :: 0 <= i < |h| ==> h[i] != UNIT_CHAR;
    }
  }

  lemma {:induction false} EscapedIsClean(e: Escape, s: string)
    requires CleanEscape(e)
    ensures UNIT_CHAR !in Escaped(e, s)
  {
    if s != [] { EscapedIsClean(e, s[1..]); }
  }

  lemma {:induction false} RenderIsClean(e: Escape, v: Value)
    requires CleanEscape(e) && WellFormed(v)
    ensures UNIT_CHAR !in Render(e, v)
    decreases v
  {
    match v
    case Null =>
    case Bool(_) =>
    case Num(n) => NumberChars(n);
    case Str(s) =>
      JsonEscapeIsClean();
      EscapedIsClean(JsonEscape, s);
    case Arr(items) => ItemsAreClean(e, items);
    case Obj(fields) => FieldsAreClean(e, v, SortedKeys(fields.Keys));
  }

  lemma {:induction false} ItemsAreClean(e: Escape, items: seq<Value>)
    requires CleanEscape(e) && forall i :: 0 <= i < |items| ==> WellFormed(items[i])
    ensures UNIT_CHAR !in RenderItems(e, items)
    decreases items
  {
    if items != [] {
      RenderIsClean(e, items[0]);
      ItemsAreClean(e, items[1..]);
    }
  }

  lemma {:induction false} FieldsAreClean(e: Escape, v: Value, keys: seq<string>)
    requires CleanEscape(e) && v.Obj? && WellFormed(v) && forall k :: k in keys ==> k in v.fields
    ensures UNIT_CHAR !in RenderFields(e, v, keys)
    decreases v, |keys|
  {
    if keys != [] {
      EscapedIsClean(e, keys[0]);
      RenderIsClean(e, v.fields[keys[0]]);
      FieldsAreClean(e, v, keys[1..]);
    }
  }

  // ---- the preimage -------------------------------------------------------------------------------

  /** What a cache key is computed from. */
  datatype Run = Run(runtime: string, digest: string, source: string, input: Value, generation: int, files: Option<Value>)

  /** Runtime and digest without the separator, uploaded files and unambiguous file names; the source is arbitrary. */
  ghost predicate Plain(r: Run) {
    && UNIT_CHAR !in r.runtime && UNIT_CHAR !in r.digest && WellFormed(r.input) && IsI64(r.generation)
    && Handles(FilesOf(r.files)) && PlainNames(FilesOf(r.files))
  }

  ghost predicate NoSeparatorInNames(r: Run) {
    NamesLack(FilesOf(r.files), UNIT_CHAR)
  }

  const NUL: char := '\U{0}'
  const GENERATION_LIMIT := 0x100_0000_0000_0000 // seven bytes' worth

  /** File names that a jsonb column can hold, and a generation that a counter of changes can reach. */
  ghost predicate Storable(r: Run) {
    NamesLack(FilesOf(r.files), NUL) && 0 <= r.generation < GENERATION_LIMIT
  }

  function Head(r: Run): seq<Byte> {
    Encode(r.runtime) + [UNIT] + (Encode(r.digest) + [UNIT] + Encode(r.source))
  }

  /** The bytes fed to the hasher, in the order they are fed. */
  function Preimage(printable: char -> bool, r: Run): seq<Byte>
    requires IsI64(r.generation)
  {
    Encode(r.runtime) + [UNIT] + Encode(r.digest) + [UNIT] + Encode(r.source) + [UNIT]
    + Encode(CanonicalJson(printable, r.input)) + [UNIT] + I64Bytes(r.generation) + [UNIT]
    + Encode(CanonicalInputBlobs(r.files))
  }

  lemma RegroupHead(a: seq<Byte>, b: seq<Byte>, c: seq<Byte>)
    ensures a + [UNIT] + b + [UNIT] + c == a + [UNIT] + (b + [UNIT] + c)
  {
  }

  /** Read from the back, once it is known where the files begin: eight bytes, then the canonical input. */
  lemma TailParts(h: seq<Byte>, j: seq<Byte>, g: seq<Byte>, f: seq<Byte>, h': seq<Byte>, j': seq<Byte>, g': seq<Byte>, f': seq<Byte>)
    requires |f| == |f'| && UNIT !in j && UNIT !in j' && |g| == |g'|
    requires h + [UNIT] + j + [UNIT] + g + [UNIT] + f == h' + [UNIT] + j' + [UNIT] + g' + [UNIT] + f'
    ensures h == h' && j == j' && g == g' && f == f'
  {
    SameEnd(h + [UNIT] + j + [UNIT] + g + [UNIT], f, h' + [UNIT] + j' + [UNIT] + g' + [UNIT], f');
    SameEnd(h + [UNIT] + j + [UNIT] + g, [UNIT], h' + [UNIT] + j' + [UNIT] + g', [UNIT]);
    SameEnd(h + [UNIT] + j + [UNIT], g, h' + [UNIT] + j' + [UNIT], g');
    SameEnd(h + [UNIT] + j, [UNIT], h' + [UNIT] + j', [UNIT]);
    LastSeparator(h, UNIT, j, h', j');
  }

  /** The last zero byte is the last of the generation. */
  lemma LastZero(p: seq<Byte>, g: seq<Byte>, f: seq<Byte>, p': seq<Byte>, g': seq<Byte>, f': seq<Byte>)
    requires |g| == |g'| == 8 && g[7] == g'[7] == 0 && 0 !in f && 0 !in f'
    requires p + g + [UNIT] + f == p' + g' + [UNIT] + f'
    ensures |f| == |f'|
  {
    AtSeven(p, g, f);
    AtSeven(p', g', f');
    LastSeparator(p + g[..7], 0, [UNIT] + f, p' + g'[..7], [UNIT] + f');
  }

  lemma AtSeven(p: seq<Byte>, g: seq<Byte>, f: seq<Byte>)
    requires |g| == 8 && g[7] == 0
    ensures p + g + [UNIT] + f == (p + g[..7]) + [0] + ([UNIT] + f)
  {
    assert g == g[..7] + [0];
  }

  lemma {:induction false} TopByteIsZero(n: nat, k: nat)
    requires k > 0 && n < Power256(k - 1)
    ensures LittleEndian(n, k)[k - 1] == 0
  {
    if k > 1 {
      TopByteIsZero(n / 256, k - 1);
    }
  }

  lemma GenerationEndsInZero(n: int)
    requires 0 <= n < GENERATION_LIMIT
    ensures IsI64(n) && I64Bytes(n)[7] == 0
  {
    EightBytes();
    assert Power256(8) == 256 * Power256(7);
    TopByteIsZero(n, 8);
  }

  lemma SameEnd(a: seq<Byte>, b: seq<Byte>, a': seq<Byte>, b': seq<Byte>)
    requires |b| == |b'| && a + b == a' + b'
    ensures a == a' && b == b'
  {
    assert |a + b| == |a' + b'|;
    SameLength(a, b, a', b');
  }

  /** Read from the front: runtime and digest end at the first separators. */
  lemma HeadInjective(r: Run, r': Run)
    requires Plain(r) && Plain(r') && Head(r) == Head(r')
    ensures r.runtime == r'.runtime && r.digest == r'.digest && r.source == r'.source
  {
    AsciiStaysOut(r.runtime, UNIT_CHAR);
    AsciiStaysOut(r'.runtime, UNIT_CHAR);
    AsciiStaysOut(r.digest, UNIT_CHAR);
    AsciiStaysOut(r'.digest, UNIT_CHAR);
    var s, s' := Encode(r.digest) + [UNIT] + Encode(r.source), Encode(r'.digest) + [UNIT] + Encode(r'.source);
    FirstSeparator(Encode(r.runtime), UNIT, s, Encode(r'.runtime), s');
    FirstSeparator(Encode(r.digest), UNIT, Encode(r.source), Encode(r'.digest), Encode(r'.source));
    EncodeInjective(r.runtime, r'.runtime);
    EncodeInjective(r.digest, r'.digest);
    EncodeInjective(r.source, r'.source);
  }

  lemma InputIsClean(printable: char -> bool, r: Run)
    requires Plain(r) && !printable(UNIT_CHAR)
    ensures UNIT !in Encode(CanonicalJson(printable, r.input))
  {
    DebugEscapeIsClean(printable);
    RenderIsClean(DebugKeys(printable), r.input);
    AsciiStaysOut(CanonicalJson(printable, r.input), UNIT_CHAR);
  }

  /** Everything up to the generation, and the files. */
  function Front(printable: char -> bool, r: Run): seq<Byte> {
    Encode(r.runtime) + [UNIT] + Encode(r.digest) + [UNIT] + Encode(r.source) + [UNIT]
    + Encode(CanonicalJson(printable, r.input)) + [UNIT]
  }

  function FilesText(r: Run): seq<Byte> {
    Encode(CanonicalInputBlobs(r.files))
  }

  lemma FilesLack(r: Run, c: char)
    requires Plain(r) && NamesLack(FilesOf(r.files), c) && Foreign(c) && c as int < 0x80
    ensures c as int !in FilesText(r)
  {
    BlobsLack(r.files, c);
    AsciiStaysOut(CanonicalInputBlobs(r.files), c);
  }

  /** The last separator, or the last zero byte, tells where the files begin. */
  lemma FilesBeginAlike(printable: char -> bool, r: Run, r': Run)
    requires Plain(r) && Plain(r') && Preimage(printable, r) == Preimage(printable, r')
    requires (NoSeparatorInNames(r) && NoSeparatorInNames(r')) || (Storable(r) && Storable(r'))
    ensures |FilesText(r)| == |FilesText(r')|
  {
    var g, g' := I64Bytes(r.generation), I64Bytes(r'.generation);
    if NoSeparatorInNames(r) && NoSeparatorInNames(r') {
      FilesLack(r, UNIT_CHAR);
      FilesLack(r', UNIT_CHAR);
      LastSeparator(Front(printable, r) + g, UNIT, FilesText(r), Front(printable, r') + g', FilesText(r'));
    } else {
      FilesLack(r, NUL);
      FilesLack(r', NUL);
      GenerationEndsInZero(r.generation);
      GenerationEndsInZero(r'.generation);
      LastZero(Front(printable, r), g, FilesText(r), Front(printable, r'), g', FilesText(r'));
    }
  }

  /** Equal preimages come from the same runtime, image digest, source, input (up to key order), secrets
      generation and input files. */
  lemma PreimageInjective(printable: char -> bool, r: Run, r': Run)
    requires Plain(r) && Plain(r') && !printable(UNIT_CHAR)
    requires (NoSeparatorInNames(r) && NoSeparatorInNames(r')) || (Storable(r) && Storable(r'))
    requires Preimage(printable, r) == Preimage(printable, r')
    ensures r.(files := None) == r'.(files := None) && FilesOf(r.files) == FilesOf(r'.files)
  {
    FilesBeginAlike(printable, r, r');
    InputIsClean(printable, r);
    InputIsClean(printable, r');
    RegroupHead(Encode(r.runtime), Encode(r.digest), Encode(r.source));
    RegroupHead(Encode(r'.runtime), Encode(r'.digest), Encode(r'.source));
    var j, j' := CanonicalJson(printable, r.input), CanonicalJson(printable, r'.input);
    TailParts(Head(r), Encode(j), I64Bytes(r.generation), FilesText(r), Head(r'), Encode(j'), I64Bytes(r'.generation), FilesText(r'));
    HeadInjective(r, r');
    EncodeInjective(j, j');
    CanonicalJsonDeterminesValue(printable, r.input, r'.input);
    I64BytesInjective(r.generation, r'.generation);
    EncodeInjective(CanonicalInputBlobs(r.files), CanonicalInputBlobs(r'.files));
    BlobsInjective(r.files, r'.files);
  }

  // ---- reading the preimage back -----------------------------------------------------------------

  /** What stands before the first separator and what after it. */
  function CutFirst(bs: seq<Byte>): Option<(seq<Byte>, seq<Byte>)> {
    if bs == [] then None
    else if bs[0] == 0x1f then Some(([], bs[1..]))
    else match CutFirst(bs[1..]) case Some((a, b)) => Some(([bs[0]] + a, b)) case None => None
  }

  /** What stands before the last separator and what after it. */
  function CutLast(bs: seq<Byte>): Option<(seq<Byte>, seq<Byte>)> {
    if bs == [] then None
    else
      var n := |bs| - 1;
      if bs[n] == 0x1f then Some((bs[..n], []))
      else match CutLast(bs[..n]) case Some((a, b)) => Some((a, b + [bs[n]])) case None => None
  }

  lemma {:induction false} FirstIsCut(a: seq<Byte>, b: seq<Byte>)
    requires UNIT !in a
    ensures CutFirst(a + [UNIT] + b) == Some((a, b))
  {
    var bs := a + [UNIT] + b;
    if a == [] {
      assert bs[0] == UNIT && bs[1..] == b;
    } else {
      assert bs[0] == a[0] && bs[1..] == a[1..] + [UNIT] + b;
      FirstIsCut(a[1..], b);
      assert a == [a[0]] + a[1..];
    }
  }

  lemma {:induction false} LastIsCut(a: seq<Byte>, b: seq<Byte>)
    requires UNIT !in b
    ensures CutLast(a + [UNIT] + b) == Some((a, b))
  {
    var bs, n := a + [UNIT] + b, |b| - 1;
    if b == [] {
      assert bs[|bs| - 1] == UNIT && bs[..|bs| - 1] == a;
    } else {
      assert bs[|bs| - 1] == b[n] && bs[..|bs| - 1] == a + [UNIT] + b[..n];
      LastIsCut(a, b[..n]);
      assert b == b[..n] + [b[n]];
    }
  }

  datatype Parts = Parts(runtime: seq<Byte>, digest: seq<Byte>, source: seq<Byte>, input: seq<Byte>, generation: seq<Byte>,
                         files: seq<Byte>)

  /** The six parts: runtime and digest from the front; files, eight bytes and canonical input from the back; the source
      is what is left. */
  function ReadParts(bs: seq<Byte>): Option<Parts> {
    match CutFirst(bs)
    case None => None
    case Some((runtime, rest)) =>
      match CutFirst(rest)
      case None => None
      case Some((digest, tail)) =>
        match CutLast(tail)
        case None => None
        case Some((body, files)) =>
          if |body| < 9 || body[|body| - 9] != 0x1f then None
          else
            match CutLast(body[..|body| - 9])
            case None => None
            case Some((source, input)) => Some(Parts(runtime, digest, source, input, body[|body| - 8..], files))
  }

  lemma PartsAreRead(t: seq<Byte>, d: seq<Byte>, s: seq<Byte>, j: seq<Byte>, g: seq<Byte>, f: seq<Byte>)
    requires UNIT !in t && UNIT !in d && UNIT !in j && |g| == 8 && UNIT !in f
    ensures ReadParts(t + [UNIT] + (d + [UNIT] + (s + [UNIT] + j + [UNIT] + g + [UNIT] + f))) == Some(Parts(t, d, s, j, g, f))
  {
    var body := s + [UNIT] + j + [UNIT] + g;
    FirstIsCut(t, d + [UNIT] + (body + [UNIT] + f));
    FirstIsCut(d, body + [UNIT] + f);
    LastIsCut(body, f);
    assert body[..|body| - 9] == s + [UNIT] + j && body[|body| - 8..] == g && body[|body| - 9] == UNIT;
    LastIsCut(s, j);
  }

  lemma RegroupAll(t: seq<Byte>, d: seq<Byte>, s: seq<Byte>, j: seq<Byte>, g: seq<Byte>, f: seq<Byte>)
    ensures t + [UNIT] + d + [UNIT] + s + [UNIT] + j + [UNIT] + g + [UNIT] + f
         == t + [UNIT] + (d + [UNIT] + (s + [UNIT] + j + [UNIT] + g + [UNIT] + f))
  {
  }

  /** The hashed bytes of a run are its runtime, image digest, source, canonical input, generation and files, and can be
      taken apart into them. */
  lemma PreimageIsRead(printable: char -> bool, r: Run)
    requires Plain(r) && NoSeparatorInNames(r) && !printable(UNIT_CHAR)
    ensures match ReadParts(Preimage(printable, r))
            case Some(Parts(t, d, s, j, g, f)) =>
              && ReadText(t) == Some(r.runtime) && ReadText(d) == Some(r.digest) && ReadText(s) == Some(r.source)
              && ReadText(j) == Some(CanonicalJson(printable, r.input)) && FromI64(g) == r.generation
              && ReadText(f) == Some(CanonicalInputBlobs(r.files))
            case None => false
  {
    AsciiStaysOut(r.runtime, UNIT_CHAR);
    AsciiStaysOut(r.digest, UNIT_CHAR);
    InputIsClean(printable, r);
    FilesLack(r, UNIT_CHAR);
    var t, d, s, j, g, f := Encode(r.runtime), Encode(r.digest), Encode(r.source), Encode(CanonicalJson(printable, r.input)),
                            I64Bytes(r.generation), FilesText(r);
    RegroupAll(t, d, s, j, g, f);
    PartsAreRead(t, d, s, j, g, f);
    EncodingIsRead(r.runtime);
    EncodingIsRead(r.digest);
    EncodingIsRead(r.source);
    EncodingIsRead(CanonicalJson(printable, r.input));
    EncodingIsRead(CanonicalInputBlobs(r.files));
    I64IsRead(r.generation);
  }

  // ---- a separator in a file name ------------------------------------------------------------------

  /** A generation whose bytes are letters. */
  const LETTERS := "aaaaaaaa"
  const LETTERED: int := 0x6161_6161_6161_6161

  function AllLetters(k: nat): nat {
    if k == 0 then 0 else 0x61 + 256 * AllLetters(k - 1)
  }

  lemma {:induction false} LettersEncode(s: string)
    requires forall i :: 0 <= i < |s| ==> s[i] == 'a'
    ensures Encode(s) == LittleEndian(AllLetters(|s|), |s|)
  {
    if s != "" {
      LettersEncode(s[1..]);
      var n := AllLetters(|s|);
      assert n % 256 == 0x61 && n / 256 == AllLetters(|s| - 1);
    }
  }

  lemma LettersAreAGeneration()
    ensures IsI64(LETTERED) && I64Bytes(LETTERED) == Encode(LETTERS)
  {
    assert AllLetters(4) == 0x6161_6161;
    assert AllLetters(8) == LETTERED;
    LettersEncode(LETTERS);
  }

  /** What a file name must begin with to be taken for the end of a source, an input and a generation. */
  const FALSE_TAIL: string := "null" + [UNIT_CHAR] + LETTERS

  function SplitRun(runtime: string, digest: string, source: string, file: string, h: string): Run {
    Run(runtime, digest, source, Null, LETTERED, Some(Obj(map[file := Str(h)])))
  }

  /** With other generations than `Storable` ones, separators in names do harm: runs of two different sources, with
      differently named files, are hashed alike. */
  lemma SeparatorInNameCollides(printable: char -> bool, runtime: string, digest: string, source: string, file: string, h: string)
    requires UploadName(file) && IsHash(h)
    ensures var r := SplitRun(runtime, digest, source + [UNIT_CHAR] + FALSE_TAIL, file, h);
            var r' := SplitRun(runtime, digest, source, FALSE_TAIL + [UNIT_CHAR] + file, h);
            && IsI64(LETTERED) && Preimage(printable, r) == Preimage(printable, r') && r.source != r'.source
            && UploadName(FALSE_TAIL + [UNIT_CHAR] + file)
  {
    LettersAreAGeneration();
    assert |source + [UNIT_CHAR] + FALSE_TAIL| > |source|;
    TailIsFlat(file);
    SplitAlike(printable, runtime, digest, source, "null", LETTERS, FALSE_TAIL, file, h);
  }

  lemma SplitAlike(printable: char -> bool, runtime: string, digest: string, source: string,
                   input: string, letters: string, tail: string, file: string, h: string)
    requires IsHash(h) && input == CanonicalJson(printable, Null) && tail == input + [UNIT_CHAR] + letters
    requires IsI64(LETTERED) && I64Bytes(LETTERED) == Encode(letters)
    ensures Preimage(printable, SplitRun(runtime, digest, source + [UNIT_CHAR] + tail, file, h))
         == Preimage(printable, SplitRun(runtime, digest, source, tail + [UNIT_CHAR] + file, h))
  {
    var t, d, s, j, g, f := Encode(runtime), Encode(digest), Encode(source), Encode(input), Encode(letters), Encode(file + ":" + h);
    SplitPreimage(printable, runtime, digest, source + [UNIT_CHAR] + tail, file, h);
    SplitPreimage(printable, runtime, digest, source, tail + [UNIT_CHAR] + file, h);
    EncodeAround(source, tail);
    EncodeAround(input, letters);
    EncodeAround(tail, file + ":" + h);
    NameFirst(tail, file, h);
    SamePreimage(t, d, s, j, g, f);
  }

  lemma NameFirst(tail: string, file: string, h: string)
    ensures (tail + [UNIT_CHAR] + file) + ":" + h == tail + [UNIT_CHAR] + (file + ":" + h)
  {
  }

  lemma SplitPreimage(printable: char -> bool, runtime: string, digest: string, source: string, file: string, h: string)
    requires IsHash(h) && IsI64(LETTERED)
    ensures Preimage(printable, SplitRun(runtime, digest, source, file, h))
         == Encode(runtime) + [UNIT] + Encode(digest) + [UNIT] + Encode(source) + [UNIT]
            + Encode(CanonicalJson(printable, Null)) + [UNIT] + I64Bytes(LETTERED) + [UNIT] + Encode(file + ":" + h)
  {
    RenderedAsItself(file, h);
  }

  lemma RenderedAsItself(file: string, h: string)
    requires IsHash(h)
    ensures CanonicalInputBlobs(Some(Obj(map[file := Str(h)]))) == file + ":" + h
  {
    var one := MakeOne(file, h);
    OneFile(one, file, h);
    assert one == map[file := Str(h)];
  }

  lemma TailIsFlat(file: string)
    requires Flat(file)
    ensures Flat(FALSE_TAIL + [UNIT_CHAR] + file)
  {
    DotsAt(FALSE_TAIL);
    FlatJoin(FALSE_TAIL, UNIT_CHAR, file);
  }

  lemma EncodeAround(a: string, b: string)
    ensures Encode(a + [UNIT_CHAR] + b) == Encode(a) + [UNIT] + Encode(b)
  {
    EncodeJoin(a + [UNIT_CHAR], b);
    EncodeJoin(a, [UNIT_CHAR]);
    assert Encode([UNIT_CHAR]) == [UNIT];
  }

  lemma SamePreimage(t: seq<Byte>, d: seq<Byte>, s: seq<Byte>, j: seq<Byte>, g: seq<Byte>, f: seq<Byte>)
    ensures t + [UNIT] + d + [UNIT] + (s + [UNIT] + (j + [UNIT] + g)) + [UNIT] + j + [UNIT] + g + [UNIT] + f
         == t + [UNIT] + d + [UNIT] + s + [UNIT] + j + [UNIT] + g + [UNIT] + ((j + [UNIT] + g) + [UNIT] + f)
  {
  }

  /** Two sets of files that look alike give two runs the same key. */
  lemma CollisionReachesTheKey(printable: char -> bool, r: Run, one: Value, two: Value)
    requires IsI64(r.generation) && CanonicalInputBlobs(Some(one)) == CanonicalInputBlobs(Some(two))
    ensures Preimage(printable, r.(files := Some(one))) == Preimage(printable, r.(files := Some(two)))
  {
  }
}

/** A strict reader of JSON text (RFC 8259), written independently of how values are rendered: it reads back what
    `to_string` and `canonical_json` write. It accepts no white space, no leading zero, the short escapes where there
    are such, and object keys in ascending order only. */
module JsonReader {
  import opened Wrappers
  import opened Decimal
  import opened Hex
  import opened Text
  import opened Json
  import opened JsonText

  // ---- runs of characters ---------------------------------------------------------------------------

  function TakeRun(p: char -> bool, s: string): (run: string)
    ensures run <= s
  {
    if s != "" && p(s[0]) then [s[0]] + TakeRun(p, s[1..]) else ""
  }

  lemma {:induction false} RunOf(p: char -> bool, run: string, x: string)
    requires (forall i :: 0 <= i < |run| ==> p(run[i])) && (x == "" || !p(x[0]))
    ensures TakeRun(p, run + x) == run
  {
    if run == "" {
      assert run + x == x;
    } else {
      assert (run + x)[0] == run[0] && (run + x)[1..] == run[1..] + x;
      RunOf(p, run[1..], x);
    }
  }

  // ---- characters -------------------------------------------------------------------------------------

  /** Reads one character of a string, as it is or escaped. */
  type CharReader = string -> Option<(char, string)>

  /** The escapes of section 7 of RFC 8259 that are a backslash and a letter, without the optional one of the slash. */
  function Unescape(c: char): Option<char> {
    if c == '"' then Some('"')
    else if c == '\\' then Some('\\')
    else if c == 'b' then Some('\U{8}')
    else if c == 'f' then Some('\U{C}')
    else if c == 'n' then Some('\U{A}')
    else if c == 'r' then Some('\U{D}')
    else if c == 't' then Some('\U{9}')
    else None
  }

  /** A control character without such an escape. */
  predicate LongControl(n: int) {
    0 <= n < 32 && n != 8 && n != 9 && n != 10 && n != 12 && n != 13
  }

  function ReadJsonChar(s: string): Option<(char, string)> {
    if s == "" then None
    else if s[0] != '\\' then (if s[0] == '"' || s[0] as int < 32 then None else Some((s[0], s[1..])))
    else if |s| >= 2 && Unescape(s[1]).Some? then Some((Unescape(s[1]).value, s[2..]))
    else if |s| >= 6 && s[1..4] == "u00" && IsHexDigit(s[4]) && IsHexDigit(s[5]) then
      var n := 16 * HexValue(s[4]) + HexValue(s[5]);
      if LongControl(n) then Some((n as char, s[6..])) else None
    else None
  }

  /** The number a hexadecimal numeral stands for. */
  function HexNumber(s: string): nat
    requires forall i :: 0 <= i < |s| ==> IsHexDigit(s[i])
  {
    if s == "" then 0 else 16 * HexNumber(s[..|s| - 1]) + HexValue(s[|s| - 1])
  }

  lemma {:induction false} HexNumberOfNumeral(n: nat)
    ensures HexNumber(HexNumeral(n)) == n
  {
    var s := HexNumeral(n);
    if n < 16 {
      assert s[..0] == "";
    } else {
      HexNumberOfNumeral(n / 16);
      assert s[..|s| - 1] == HexNumeral(n / 16);
    }
  }

  /** The escapes of Rust's `{:?}` in a string. */
  function ReadDebugChar(s: string): Option<(char, string)> {
    if s == "" then None
    else if s[0] != '\\' then (if s[0] == '"' then None else Some((s[0], s[1..])))
    else if |s| < 2 then None
    else if s[1] == '0' then Some(('\U{0}', s[2..]))
    else if s[1] == 't' then Some(('\U{9}', s[2..]))
    else if s[1] == 'r' then Some(('\U{D}', s[2..]))
    else if s[1] == 'n' then Some(('\U{A}', s[2..]))
    else if s[1] == '\\' || s[1] == '"' then Some((s[1], s[2..]))
    else if s[1] == 'u' && |s| >= 3 && s[2] == '{' then ReadCodePoint(s[3..])
    else None
  }

  /** Hexadecimal digits and a closing brace. */
  function ReadCodePoint(s: string): Option<(char, string)> {
    var run := TakeRun(IsHexDigit, s);
    RunHasDigits(IsHexDigit, s);
    var n := HexNumber(run);
    if |run| < |s| && s[|run|] == '}' && (n < 0xD800 || 0xE000 <= n < 0x11_0000) then Some((n as char, s[|run| + 1..])) else None
  }

  lemma {:induction false} RunHasDigits(p: char -> bool, s: string)
    ensures forall i :: 0 <= i < |TakeRun(p, s)| ==> p(TakeRun(p, s)[i])
  {
    if s != "" && p(s[0]) { RunHasDigits(p, s[1..]); }
  }

  /** A reader undoes an escape, whatever comes after, and an escape never begins with a quote. */
  ghost predicate Undoes(read: CharReader, e: Escape) {
    forall c, x :: UndoesAt(read, e, c, x)
  }

  ghost predicate UndoesAt(read: CharReader, e: Escape, c: char, x: string) {
    e(c) != "" && e(c)[0] != '"' && read(e(c) + x) == Some((c, x))
  }

  lemma ControlIsRead(c: char, x: string)
    requires LongControl(c as int)
    ensures ReadJsonChar("\\u00" + [HexDigit(c as int / 16), HexDigit(c as int % 16)] + x) == Some((c, x))
  {
    var h, l := HexDigit(c as int / 16), HexDigit(c as int % 16);
    var s := "\\u00" + [h, l] + x;
    assert s[0] == '\\' && s[1] == 'u' && s[1..4] == "u00" && s[4] == h && s[5] == l && s[6..] == x;
    assert 16 * (c as int / 16) + c as int % 16 == c as int;
  }

  lemma PlainIsRead(c: char, x: string)
    ensures ([c] + x)[0] == c && ([c] + x)[1..] == x
  {
  }

  lemma PairIsRead(a: char, b: char, x: string)
    ensures ([a, b] + x)[0] == a && ([a, b] + x)[1] == b && ([a, b] + x)[2..] == x
  {
  }

  lemma JsonCharIsRead(c: char, x: string)
    ensures UndoesAt(ReadJsonChar, JsonEscape, c, x)
  {
    PlainIsRead(c, x);
    if LongControl(c as int) {
      ControlIsRead(c, x);
    } else if |JsonEscape(c)| == 2 {
      PairIsRead('\\', JsonEscape(c)[1], x);
      assert JsonEscape(c) + x == ['\\', JsonEscape(c)[1]] + x;
    }
  }

  lemma JsonReaderUndoes()
    ensures Undoes(ReadJsonChar, JsonEscape)
  {
    forall c, x ensures UndoesAt(ReadJsonChar, JsonEscape, c, x) { JsonCharIsRead(c, x); }
  }

  lemma CodePointIsRead(c: char, x: string)
    ensures ReadCodePoint(HexNumeral(c as int) + ("}" + x)) == Some((c, x))
  {
    var h := HexNumeral(c as int);
    RunOf(IsHexDigit, h, "}" + x);
    HexNumberOfNumeral(c as int);
    assert (h + ("}" + x))[|h|] == '}' && (h + ("}" + x))[|h| + 1..] == x;
  }

  lemma DebugCharIsRead(printable: char -> bool, c: char, x: string)
    ensures UndoesAt(ReadDebugChar, DebugKeys(printable), c, x)
  {
    var p := DebugEscape(printable, c);
    PlainIsRead(c, x);
    if |p| == 2 {
      PairIsRead('\\', p[1], x);
      assert p == ['\\', p[1]];
    } else if p != [c] {
      BracedIsRead(c, x);
    }
  }

  lemma BracedIsRead(c: char, x: string)
    ensures var p := "\\u{" + HexNumeral(c as int) + "}"; p != "" && p[0] != '"' && ReadDebugChar(p + x) == Some((c, x))
  {
    var p, rest := "\\u{" + HexNumeral(c as int) + "}", HexNumeral(c as int) + ("}" + x);
    CodePointIsRead(c, x);
    Opened(HexNumeral(c as int), x);
    assert (p + x)[3..] == rest && (p + x)[0] == '\\' && (p + x)[1] == 'u' && (p + x)[2] == '{';
  }

  lemma Opened(h: string, x: string)
    ensures "\\u{" + h + "}" + x == "\\u{" + (h + ("}" + x))
  {
  }

  lemma DebugReaderUndoes(printable: char -> bool)
    ensures Undoes(ReadDebugChar, DebugKeys(printable))
  {
    forall c, x ensures UndoesAt(ReadDebugChar, DebugKeys(printable), c, x) { DebugCharIsRead(printable, c, x); }
  }

  // ---- strings --------------------------------------------------------------------------------------------

  /** Reads up to the closing quote. */
  function ReadChars(read: CharReader, s: string): (r: Option<(string, string)>)
    ensures r.Some? ==> |r.value.1| < |s|
    decreases |s|
  {
    if s == "" then None
    else if s[0] == '"' then Some(("", s[1..]))
    else
      match read(s)
      case None => None
      case Some((c, rest)) =>
        if |rest| >= |s| then None
        else match ReadChars(read, rest) case None => None case Some((t, x)) => Some(([c] + t, x))
  }

  lemma {:induction false} CharsAreRead(read: CharReader, e: Escape, s: string, x: string)
    requires Undoes(read, e)
    ensures ReadChars(read, Escaped(e, s) + "\"" + x) == Some((s, x))
  {
    if s == "" {
      assert ("" + "\"" + x)[0] == '"' && ("" + "\"" + x)[1..] == x;
    } else {
      var more := Escaped(e, s[1..]) + "\"" + x;
      CharsAreRead(read, e, s[1..], x);
      assert UndoesAt(read, e, s[0], more);
      OneCharIsRead(read, e(s[0]), s[0], s[1..], more, x);
      assert Escaped(e, s) + "\"" + x == e(s[0]) + more;
      assert s == [s[0]] + s[1..];
    }
  }

  lemma OneCharIsRead(read: CharReader, p: string, c: char, s: string, more: string, x: string)
    requires p != "" && p[0] != '"' && read(p + more) == Some((c, more)) && ReadChars(read, more) == Some((s, x))
    ensures ReadChars(read, p + more) == Some(([c] + s, x))
  {
    assert (p + more)[0] == p[0];
  }

  // ---- numbers ----------------------------------------------------------------------------------------------

  /** Digits, without a leading zero. */
  predicate ShortNumeral(s: string) {
    Numeral(s) && (s[0] == '0' ==> |s| == 1)
  }

  /** An integer, or else a float, whose text stands for itself. */
  function ReadNumber(run: string): Option<Number> {
    if run == "" then None
    else if Numeral(run) then (if ShortNumeral(run) then Some(PosInt(Decimal.Value(run))) else None)
    else if run[0] == '-' && Numeral(run[1..]) then
      if ShortNumeral(run[1..]) && Decimal.Value(run[1..]) > 0 then Some(NegInt(Decimal.Value(run[1..]) - 1)) else None
    else Some(Float(run))
  }

  lemma {:induction false} NoLeadingZero(n: nat)
    ensures ShortNumeral(Dec(n))
  {
    if n >= 10 {
      NoLeadingZero(n / 10);
      assert Dec(n)[0] == Dec(n / 10)[0];
      if n / 10 < 10 { assert Dec(n / 10) == [Digit(n / 10)]; }
      DigitIsZero(n / 10);
    }
  }

  lemma {:induction false} DigitIsZero(n: nat)
    ensures n > 0 ==> Dec(n)[0] != '0'
  {
    if n >= 10 { DigitIsZero(n / 10); }
  }

  /** What a number may be. */
  ghost predicate GoodNumber(n: Number) {
    n.Float? ==> FloatText(n.text)
  }

  lemma NumberIsRead(n: Number)
    requires GoodNumber(n)
    ensures ReadNumber(NumberText(n)) == Some(n)
  {
    match n
    case PosInt(k) =>
      NoLeadingZero(k);
      ValueOfDec(k);
    case NegInt(k) =>
      NoLeadingZero(k + 1);
      ValueOfDec(k + 1);
      assert ("-" + Dec(k + 1))[1..] == Dec(k + 1) && ("-" + Dec(k + 1))[0] == '-';
    case Float(t) => FloatIsNoNumeral(t);
  }

  lemma FloatIsNoNumeral(t: string)
    requires FloatText(t)
    ensures t != "" && !Numeral(t) && !(t[0] == '-' && Numeral(t[1..]))
  {
    var i :| 0 <= i < |t| && t[i] in ".e";
    if i > 0 { assert t[1..][i - 1] == t[i]; }
  }

  lemma NumberChars(n: Number)
    requires GoodNumber(n)
    ensures NumberText(n) != "" && (NumberText(n)[0] == '-' || IsDigit(NumberText(n)[0]))
    ensures forall i :: 0 <= i < |NumberText(n)| ==> NumberChar(NumberText(n)[i])
  {
  }

  // ---- values -------------------------------------------------------------------------------------------------

  /** One value from the front of a text. `read` reads the characters of object keys. */
  ghost function ReadValue(read: CharReader, s: string): (r: Option<(Value, string)>)
    ensures r.Some? ==> |r.value.1| < |s|
    decreases |s|, 0
  {
    if s == "" then None
    else if s[0] == '"' then ReadString(s[1..])
    else if s[0] == '[' then
      if |s| >= 2 && s[1] == ']' then Some((Arr([]), s[2..]))
      else (match ReadItems(read, s[1..]) case Some((items, x)) => Some((Arr(items), x)) case None => None)
    else if s[0] == '{' then
      if |s| >= 2 && s[1] == '}' then Some((Obj(map[]), s[2..]))
      else (match ReadFields(read, s[1..]) case Some((pairs, x)) => ObjectOf(pairs, x) case None => None)
    else if s[0] == 'n' then (if |s| >= 4 && s[1..4] == "ull" then Some((Null, s[4..])) else None)
    else if s[0] == 't' then (if |s| >= 4 && s[1..4] == "rue" then Some((Bool(true), s[4..])) else None)
    else if s[0] == 'f' then (if |s| >= 5 && s[1..5] == "alse" then Some((Bool(false), s[5..])) else None)
    else ReadNumeral(s)
  }

  function ReadString(s: string): (r: Option<(Value, string)>)
    ensures r.Some? ==> |r.value.1| < |s|
  {
    match ReadChars(ReadJsonChar, s) case Some((t, x)) => Some((Str(t), x)) case None => None
  }

  function ReadNumeral(s: string): (r: Option<(Value, string)>)
    ensures r.Some? ==> |r.value.1| < |s|
  {
    var run := TakeRun(NumberChar, s);
    match ReadNumber(run) case Some(n) => Some((Num(n), s[|run|..])) case None => None
  }

  /** Values with commas between them, up to the closing bracket. */
  ghost function ReadItems(read: CharReader, s: string): (r: Option<(seq<Value>, string)>)
    ensures r.Some? ==> |r.value.1| < |s|
    decreases |s|, 1
  {
    match ReadValue(read, s)
    case None => None
    case Some((v, t)) =>
      if t == "" then None
      else if t[0] == ']' then Some(([v], t[1..]))
      else if t[0] == ',' then
        (match ReadItems(read, t[1..]) case Some((vs, x)) => Some(([v] + vs, x)) case None => None)
      else None
  }

  /** Keys and values with commas between them, up to the closing brace. */
  ghost function ReadFields(read: CharReader, s: string): (r: Option<(seq<(string, Value)>, string)>)
    ensures r.Some? ==> |r.value.1| < |s|
    decreases |s|, 1
  {
    if s == "" || s[0] != '"' then None
    else
      match ReadChars(read, s[1..])
      case None => None
      case Some((k, colon)) =>
        if colon == "" || colon[0] != ':' then None
        else
          match ReadValue(read, colon[1..])
          case None => None
          case Some((v, t)) =>
            if t == "" then None
            else if t[0] == '}' then Some(([(k, v)], t[1..]))
            else if t[0] == ',' then
              (match ReadFields(read, t[1..]) case Some((pairs, x)) => Some(([(k, v)] + pairs, x)) case None => None)
            else None
  }

  function KeysOf(pairs: seq<(string, Value)>): seq<string> {
    seq(|pairs|, i requires 0 <= i < |pairs| => pairs[i].0)
  }

  function FromPairs(pairs: seq<(string, Value)>): map<string, Value> {
    if pairs == [] then map[] else FromPairs(pairs[..|pairs| - 1])[pairs[|pairs| - 1].0 := pairs[|pairs| - 1].1]
  }

  /** An object, if its keys came in ascending order. */
  ghost function ObjectOf(pairs: seq<(string, Value)>, x: string): Option<(Value, string)> {
    if Ascending(KeysOf(pairs)) then Some((Obj(FromPairs(pairs)), x)) else None
  }

  // ---- reading undoes rendering -----------------------------------------------------------------------------

  /** What may follow a value. */
  predicate Stops(x: string) {
    x == "" || x[0] == ',' || x[0] == ']' || x[0] == '}'
  }

  lemma NumeralIsRead(n: Number, x: string)
    requires GoodNumber(n) && Stops(x)
    ensures ReadNumeral(NumberText(n) + x) == Some((Num(n), x))
  {
    NumberChars(n);
    RunOf(NumberChar, NumberText(n), x);
    NumberIsRead(n);
    assert (NumberText(n) + x)[|NumberText(n)|..] == x;
  }

  lemma NumIsRead(read: CharReader, n: Number, x: string)
    requires GoodNumber(n) && Stops(x)
    ensures ReadValue(read, NumberText(n) + x) == Some((Num(n), x))
  {
    NumeralIsRead(n, x);
    NumberChars(n);
    assert (NumberText(n) + x)[0] == NumberText(n)[0];
  }

  lemma WordIsRead(read: CharReader, x: string)
    ensures ReadValue(read, "null" + x) == Some((Null, x))
    ensures ReadValue(read, "true" + x) == Some((Bool(true), x))
    ensures ReadValue(read, "false" + x) == Some((Bool(false), x))
  {
    assert ("null" + x)[0] == 'n' && ("null" + x)[1..4] == "ull" && ("null" + x)[4..] == x;
    assert ("true" + x)[0] == 't' && ("true" + x)[1..4] == "rue" && ("true" + x)[4..] == x;
    assert ("false" + x)[0] == 'f' && ("false" + x)[1..5] == "alse" && ("false" + x)[5..] == x;
  }

  lemma StrIsRead(read: CharReader, s: string, x: string)
    ensures ReadValue(read, Quoted(JsonEscape, s) + x) == Some((Str(s), x))
  {
    JsonReaderUndoes();
    CharsAreRead(ReadJsonChar, JsonEscape, s, x);
    Behind('"', Escaped(JsonEscape, s), "\"", x);
  }

  lemma Behind(c: char, s: string, close: string, x: string)
    ensures (([c] + s) + close) + x == [c] + (s + close + x)
    ensures ((([c] + s) + close) + x)[0] == c && ((([c] + s) + close) + x)[1..] == s + close + x
  {
    assert (([c] + s) + close) + x == [c] + (s + close + x);
  }

  /** The first character of a value's text closes nothing. */
  lemma FirstChar(e: Escape, v: Value)
    requires WellFormed(v)
    ensures Render(e, v) != "" && Render(e, v)[0] != ']' && Render(e, v)[0] != '}'
  {
    match v
    case Num(n) => NumberChars(n);
    case _ =>
  }

  /** What follows the first item. */
  function Rest(e: Escape, items: seq<Value>): string
    requires items != []
  {
    if |items| == 1 then "" else "," + RenderItems(e, items[1..])
  }

  lemma RegroupItem(r: string, rest: string, x: string)
    ensures (r + rest) + "]" + x == r + (rest + "]" + x)
  {
  }

  lemma AfterItem(e: Escape, items: seq<Value>, x: string)
    requires items != []
    ensures RenderItems(e, items) + "]" + x == Render(e, items[0]) + (Rest(e, items) + "]" + x)
    ensures var t := Rest(e, items) + "]" + x;
            && t != "" && Stops(t) && t[0] == (if |items| == 1 then ']' else ',')
            && t[1..] == if |items| == 1 then x else RenderItems(e, items[1..]) + "]" + x
  {
    RegroupItem(Render(e, items[0]), Rest(e, items), x);
    TailIs(']', Rest(e, items), if |items| == 1 then "" else RenderItems(e, items[1..]), x);
  }

  /** What follows a part: the closing character, or a comma and more. */
  lemma TailIs(close: char, rest: string, more: string, x: string)
    requires (rest == "" && more == "") || rest == "," + more
    requires close == ']' || close == '}'
    ensures var t := rest + [close] + x;
            && t != "" && Stops(t) && t[0] == (if rest == "" then close else ',')
            && t[1..] == if rest == "" then x else more + [close] + x
  {
    if rest == "" {
      assert rest + [close] + x == [close] + x;
    } else {
      assert rest + [close] + x == "," + (more + [close] + x);
    }
  }

  lemma {:induction false} ValueIsRead(read: CharReader, e: Escape, v: Value, x: string)
    requires Undoes(read, e) && WellFormed(v) && Stops(x)
    ensures ReadValue(read, Render(e, v) + x) == Some((v, x))
    decreases v, 2, 0
  {
    match v
    case Null => WordIsRead(read, x);
    case Bool(_) => WordIsRead(read, x);
    case Num(n) => NumIsRead(read, n, x);
    case Str(s) => StrIsRead(read, s, x);
    case Arr(items) =>
      if items != [] { ItemsAreRead(read, e, items, x); }
      ArrayIsRead(read, e, items, x);
    case Obj(fields) =>
      var keys := SortedKeys(fields.Keys);
      if keys != [] { FieldsAreRead(read, e, v, keys, x); }
      ObjectIsRead(read, e, v, x);
  }

  lemma ArrayIsRead(read: CharReader, e: Escape, items: seq<Value>, x: string)
    requires forall i :: 0 <= i < |items| ==> WellFormed(items[i])
    requires items != [] ==> ReadItems(read, RenderItems(e, items) + "]" + x) == Some((items, x))
    ensures ReadValue(read, ("[" + RenderItems(e, items) + "]") + x) == Some((Arr(items), x))
  {
    Behind('[', RenderItems(e, items), "]", x);
    var s := ("[" + RenderItems(e, items) + "]") + x;
    if items == [] {
      assert s[1] == ']' && s[2..] == x;
    } else {
      FirstChar(e, items[0]);
      AfterItem(e, items, x);
      assert s[1] == (RenderItems(e, items) + "]" + x)[0] == Render(e, items[0])[0];
    }
  }

  lemma {:induction false} ItemsAreRead(read: CharReader, e: Escape, items: seq<Value>, x: string)
    requires Undoes(read, e) && items != [] && forall i :: 0 <= i < |items| ==> WellFormed(items[i])
    ensures ReadItems(read, RenderItems(e, items) + "]" + x) == Some((items, x))
    decreases items, 1, |items|
  {
    var t := Rest(e, items) + "]" + x;
    var s := RenderItems(e, items) + "]" + x;
    AfterItem(e, items, x);
    ValueIsRead(read, e, items[0], t);
    if |items| > 1 { ItemsAreRead(read, e, items[1..], x); }
    ItemIsRead(read, s, items[0], t, items[1..], x);
    FirstAndRest(items);
  }

  lemma FirstAndRest(items: seq<Value>)
    requires items != []
    ensures items == [items[0]] + items[1..]
  {
  }

  lemma ItemIsRead(read: CharReader, s: string, v: Value, t: string, vs: seq<Value>, x: string)
    requires ReadValue(read, s) == Some((v, t)) && t != "" && t[0] == (if vs == [] then ']' else ',')
    requires if vs == [] then t[1..] == x else ReadItems(read, t[1..]) == Some((vs, x))
    ensures ReadItems(read, s) == Some(([v] + vs, x))
  {
    assert vs == [] ==> [v] + vs == [v];
  }

  // ---- objects -------------------------------------------------------------------------------------------------

  function PairsAt(v: Value, keys: seq<string>): (pairs: seq<(string, Value)>)
    requires v.Obj? && forall k :: k in keys ==> k in v.fields
    ensures |pairs| == |keys| && forall i :: 0 <= i < |keys| ==> pairs[i] == (keys[i], v.fields[keys[i]])
  {
    seq(|keys|, i requires 0 <= i < |keys| => (keys[i], v.fields[keys[i]]))
  }

  lemma {:induction false} FromPairsOf(v: Value, keys: seq<string>)
    requires v.Obj? && forall k :: k in keys ==> k in v.fields
    ensures var m := FromPairs(PairsAt(v, keys)); (forall k :: k in m <==> k in keys) && forall k :: k in m ==> m[k] == v.fields[k]
  {
    if keys != [] {
      var n := |keys| - 1;
      FromPairsOf(v, keys[..n]);
      assert PairsAt(v, keys)[..n] == PairsAt(v, keys[..n]) && keys == keys[..n] + [keys[n]];
    }
  }

  lemma SortedPairs(v: Value, x: string)
    requires v.Obj?
    ensures ObjectOf(PairsAt(v, SortedKeys(v.fields.Keys)), x) == Some((v, x))
  {
    var keys := SortedKeys(v.fields.Keys);
    SortedKeysAscend(v.fields.Keys);
    FromPairsOf(v, keys);
    assert KeysOf(PairsAt(v, keys)) == keys;
    assert FromPairs(PairsAt(v, keys)) == v.fields;
  }

  function RestFields(e: Escape, v: Value, keys: seq<string>): string
    requires v.Obj? && keys != [] && forall k :: k in keys ==> k in v.fields
  {
    if |keys| == 1 then "" else "," + RenderFields(e, v, keys[1..])
  }

  lemma RegroupField(k: string, r: string, rest: string, x: string)
    ensures (("\"" + k + "\"") + ":" + r + rest) + "}" + x == "\"" + (k + "\"" + (":" + (r + (rest + "}" + x))))
  {
  }

  lemma AfterField(e: Escape, v: Value, keys: seq<string>, x: string)
    requires v.Obj? && keys != [] && forall k :: k in keys ==> k in v.fields
    ensures var t := RestFields(e, v, keys) + "}" + x;
            && RenderFields(e, v, keys) + "}" + x == "\"" + (Escaped(e, keys[0]) + "\"" + (":" + (Render(e, v.fields[keys[0]]) + t)))
            && t != "" && Stops(t) && t[0] == (if |keys| == 1 then '}' else ',')
            && t[1..] == if |keys| == 1 then x else RenderFields(e, v, keys[1..]) + "}" + x
  {
    RegroupField(Escaped(e, keys[0]), Render(e, v.fields[keys[0]]), RestFields(e, v, keys), x);
    TailIs('}', RestFields(e, v, keys), if |keys| == 1 then "" else RenderFields(e, v, keys[1..]), x);
  }

  lemma ObjectIsRead(read: CharReader, e: Escape, v: Value, x: string)
    requires v.Obj?
    requires var keys := SortedKeys(v.fields.Keys);
             keys != [] ==> ReadFields(read, RenderFields(e, v, keys) + "}" + x) == Some((PairsAt(v, keys), x))
    ensures ReadValue(read, Render(e, v) + x) == Some((v, x))
  {
    var keys := SortedKeys(v.fields.Keys);
    var inner := RenderFields(e, v, keys);
    Behind('{', inner, "}", x);
    SortedPairs(v, x);
    if keys == [] {
      assert v.fields == map[];
      EmptyObjectIsRead(read, x);
      assert ("{" + inner + "}") + x == "{}" + x;
    } else {
      AfterField(e, v, keys, x);
      assert (inner + "}" + x)[0] == '"';
      OpenObjectIsRead(read, ("{" + inner + "}") + x, inner + "}" + x, PairsAt(v, keys), v, x);
    }
  }

  lemma EmptyObjectIsRead(read: CharReader, x: string)
    ensures ReadValue(read, "{}" + x) == Some((Obj(map[]), x))
  {
    assert ("{}" + x)[0] == '{' && ("{}" + x)[1] == '}' && ("{}" + x)[2..] == x;
  }

  lemma OpenObjectIsRead(read: CharReader, s: string, behind: string, pairs: seq<(string, Value)>, v: Value, x: string)
    requires s != "" && s[0] == '{' && s[1..] == behind && behind != "" && behind[0] == '"'
    requires ReadFields(read, behind) == Some((pairs, x)) && ObjectOf(pairs, x) == Some((v, x))
    ensures ReadValue(read, s) == Some((v, x))
  {
    assert s[1] == behind[0];
  }

  lemma {:induction false} FieldsAreRead(read: CharReader, e: Escape, v: Value, keys: seq<string>, x: string)
    requires Undoes(read, e) && v.Obj? && WellFormed(v) && keys != [] && forall k :: k in keys ==> k in v.fields
    ensures ReadFields(read, RenderFields(e, v, keys) + "}" + x) == Some((PairsAt(v, keys), x))
    decreases v, 0, |keys|
  {
    var k, t := keys[0], RestFields(e, v, keys) + "}" + x;
    var text := Render(e, v.fields[k]) + t;
    AfterField(e, v, keys, x);
    CharsAreRead(read, e, k, ":" + text);
    ValueIsRead(read, e, v.fields[k], t);
    if |keys| > 1 { FieldsAreRead(read, e, v, keys[1..], x); }
    PairsBegin(v, keys);
    FieldIsRead(read, Escaped(e, k) + "\"" + (":" + text), k, text, v.fields[k], t, PairsAt(v, keys[1..]), x);
  }

  lemma PairsBegin(v: Value, keys: seq<string>)
    requires v.Obj? && keys != [] && forall k :: k in keys ==> k in v.fields
    ensures PairsAt(v, keys) == [(keys[0], v.fields[keys[0]])] + PairsAt(v, keys[1..])
    ensures PairsAt(v, keys[1..]) == [] <==> |keys| == 1
  {
  }

  lemma FieldIsRead(read: CharReader, behind: string, k: string, text: string, v: Value, t: string,
                    pairs: seq<(string, Value)>, x: string)
    requires ReadChars(read, behind) == Some((k, ":" + text))
    requires ReadValue(read, text) == Some((v, t)) && t != "" && t[0] == (if pairs == [] then '}' else ',')
    requires if pairs == [] then t[1..] == x else ReadFields(read, t[1..]) == Some((pairs, x))
    ensures ReadFields(read, "\"" + behind) == Some(([(k, v)] + pairs, x))
  {
    assert pairs == [] ==> [(k, v)] + pairs == [(k, v)];
    assert ("\"" + behind)[0] == '"' && ("\"" + behind)[1..] == behind;
    assert (":" + text)[0] == ':' && (":" + text)[1..] == text;
  }
}

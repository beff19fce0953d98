/** How JSON values are written out: `to_string` of serde_json, and `canonical_json` of mcp.rs,
    which differs from it in how object keys are quoted. */
module JsonText {
  import opened Decimal
  import opened Hex
  import opened Json
  import opened Text

  // ---- string escapes -------------------------------------------------------------------

  /** serde_json's escape of one character. */
  function JsonEscape(c: char): string {
    if c == '"' then "\\\""
    else if c == '\\' then "\\\\"
    else if c == '\U{8}' then "\\b"
    else if c == '\U{C}' then "\\f"
    else if c == '\n' then "\\n"
    else if c == '\r' then "\\r"
    else if c == '\t' then "\\t"
    else if c < ' ' then "\\u00" + [HexDigit(c as int / 16), HexDigit(c as int % 16)]
    else [c]
  }

  /** Rust's `{:?}` escape of one character of a string. Which characters are shown as they are is
      a Unicode table, given as `printable`. */
  function DebugEscape(printable: char -> bool, c: char): string {
    if c == '\0' then "\\0"
    else if c == '\t' then "\\t"
    else if c == '\r' then "\\r"
    else if c == '\n' then "\\n"
    else if c == '\\' then "\\\\"
    else if c == '"' then "\\\""
    else if printable(c) then [c]
    else "\\u{" + HexNumeral(c as int) + "}"
  }

  type Escape = char -> string

  function DebugKeys(printable: char -> bool): Escape {
    c => DebugEscape(printable, c)
  }

  function Escaped(e: Escape, s: string): string {
    if s == [] then [] else e(s[0]) + Escaped(e, s[1..])
  }

  function Quoted(e: Escape, s: string): string {
    "\"" + Escaped(e, s) + "\""
  }

  // ---- numbers ---------------------------------------------------------------------------

  function NumberText(n: Number): string {
    match n
    case PosInt(n) => Dec(n)
    case NegInt(k) => "-" + Dec(k + 1)
    case Float(text) => text
  }

  predicate NumberChar(c: char) {
    IsDigit(c) || c in "+-.e"
  }

  /** What a finite f64 prints as: never mistaken for an integer. */
  ghost predicate FloatText(t: string) {
    && t != []
    && (t[0] == '-' || IsDigit(t[0]))
    && (forall i :: 0 <= i < |t| ==> NumberChar(t[i]))
    && exists i :: 0 <= i < |t| && t[i] in ".e"
  }

  // ---- values ----------------------------------------------------------------------------

  lemma LeqAntisymmetric()
    ensures forall a, b :: Leq(a, b) && Leq(b, a) ==> a == b
  {
    forall a, b | Leq(a, b) && Leq(b, a) ensures a == b {
      LeqTotal(a, b);
    }
  }

  lemma {:induction false} LeastExists(ks: set<string>)
    requires ks != {}
    ensures exists k :: k in ks && forall j :: j in ks ==> Leq(k, j)
  {
    var k :| k in ks;
    var rest := ks - {k};
    LeqTotal(k, k);
    if rest == {} {
      assert ks == {k};
    } else {
      LeastExists(rest);
      var m :| m in rest && forall j :: j in rest ==> Leq(m, j);
      LeastOfBoth(k, m, rest, ks);
    }
  }

  lemma LeastOfBoth(k: string, m: string, rest: set<string>, ks: set<string>)
    requires ks == rest + {k} && Leq(k, k) && m in rest && forall j :: j in rest ==> Leq(m, j)
    ensures exists l :: l in ks && forall j :: j in ks ==> Leq(l, j)
  {
    LeqTotal(k, m);
    if Leq(k, m) {
      forall j | j in rest ensures Leq(k, j) { LeqTransitive(k, m, j); }
    }
    var l := if Leq(k, m) then k else m;
    assert l in ks && forall j :: j in ks ==> Leq(l, j);
  }

  function Least(ks: set<string>): (k: string)
    requires ks != {}
    ensures k in ks && forall j :: j in ks ==> Leq(k, j)
  {
    LeqAntisymmetric();
    LeastExists(ks);
    var k :| k in ks && forall j :: j in ks ==> Leq(k, j);
    k
  }

  /** The keys of an object, sorted. */
  function SortedKeys(ks: set<string>): (s: seq<string>)
    ensures |s| == |ks| && forall k :: k in s <==> k in ks
  {
    if ks == {} then [] else var k := Least(ks); [k] + SortedKeys(ks - {k})
  }

  ghost predicate Ascending(s: seq<string>) {
    forall i, j :: 0 <= i < j < |s| ==> Leq(s[i], s[j]) && s[i] != s[j]
  }

  lemma AscendsAfter(x: string, s: seq<string>)
    requires Ascending(s) && forall y :: y in s ==> Leq(x, y) && x != y
    ensures Ascending([x] + s)
  {
    var t := [x] + s;
    forall i, j | 0 <= i < j < |t| ensures Leq(t[i], t[j]) && t[i] != t[j] {
      assert t[j] == s[j - 1] && s[j - 1] in s;
      if i > 0 { assert t[i] == s[i - 1]; }
    }
  }

  lemma {:induction false} SortedKeysAscend(ks: set<string>)
    ensures Ascending(SortedKeys(ks))
  {
    if ks != {} {
      var k := Least(ks);
      var rest := SortedKeys(ks - {k});
      SortedKeysAscend(ks - {k});
      assert forall j :: j in rest ==> j in ks - {k};
      AscendsAfter(k, rest);
    }
  }

  /** Sorting the keys in place, from whatever order the map yields them, gives `SortedKeys`. */
  lemma {:induction false} SortedKeysIsTheSort(ks: set<string>, s: seq<string>)
    requires Ascending(s) && forall k :: k in s <==> k in ks
    ensures s == SortedKeys(ks)
  {
    assert s != [] ==> s[0] in s;
    if ks != {} {
      var k := Least(ks);
      var i :| 0 <= i < |s| && s[i] == k;
      LeqTotal(s[0], k);
      assert k == s[0];
      var rest := s[1..];
      assert s == [k] + rest;
      assert k !in rest;
      forall m ensures m in rest <==> m in ks - {k} {
        assert m in s <==> m == k || m in rest;
      }
      SortedKeysIsTheSort(ks - {k}, rest);
    }
  }

  /** Every number in the value is one. */
  ghost predicate WellFormed(v: Value)
    decreases v
  {
    match v
    case Num(Float(text)) => FloatText(text)
    case Arr(items) => forall i :: 0 <= i < |items| ==> WellFormed(items[i])
    case Obj(fields) => forall k :: k in fields ==> WellFormed(fields[k])
    case _ => true
  }

  /** A value as text; `e` says how object keys are escaped. */
  function Render(e: Escape, v: Value): string
    decreases v
  {
    match v
    case Null => "null"
    case Bool(b) => if b then "true" else "false"
    case Num(n) => NumberText(n)
    case Str(s) => Quoted(JsonEscape, s)
    case Arr(items) => "[" + RenderItems(e, items) + "]"
    case Obj(fields) => "{" + RenderFields(e, v, SortedKeys(fields.Keys)) + "}"
  }

  function RenderItems(e: Escape, items: seq<Value>): string
    decreases items
  {
    if items == [] then ""
    else Render(e, items[0]) + (if |items| == 1 then "" else "," + RenderItems(e, items[1..]))
  }

  function RenderFields(e: Escape, v: Value, keys: seq<string>): string
    requires v.Obj? && forall k :: k in keys ==> k in v.fields
    decreases v, |keys|
  {
    if keys == [] then ""
    else
      Quoted(e, keys[0]) + ":" + Render(e, v.fields[keys[0]])
      + (if |keys| == 1 then "" else "," + RenderFields(e, v, keys[1..]))
  }

  /** `Value::to_string` */
  function ToText(v: Value): string {
    Render(JsonEscape, v)
  }

  /** `canonical_json` */
  function CanonicalJson(printable: char -> bool, v: Value): string {
    Render(DebugKeys(printable), v)
  }
}

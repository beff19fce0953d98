/** The text of a JSON value determines the value: `canonical_json` and `to_string` can be read back. */
module CanonicalText {
  import opened Wrappers
  import opened Json
  import opened JsonText
  import opened JsonReader

  /** Reading `to_string` gives the value back. */
  lemma ToTextIsRead(v: Value)
    requires WellFormed(v)
    ensures ReadValue(ReadJsonChar, ToText(v)) == Some((v, ""))
  {
    JsonReaderUndoes();
    ValueIsRead(ReadJsonChar, JsonEscape, v, "");
    assert ToText(v) + "" == ToText(v);
  }

  /** So does reading `canonical_json`, whose keys are escaped as Rust's `{:?}` does. */
  lemma CanonicalJsonIsRead(printable: char -> bool, v: Value)
    requires WellFormed(v)
    ensures ReadValue(ReadDebugChar, CanonicalJson(printable, v)) == Some((v, ""))
  {
    DebugReaderUndoes(printable);
    ValueIsRead(ReadDebugChar, DebugKeys(printable), v, "");
    assert CanonicalJson(printable, v) + "" == CanonicalJson(printable, v);
  }

  /** Two values have the same canonical text exactly when they are the same value (objects being
      maps, that is equality up to key order at every depth). */
  lemma CanonicalJsonDeterminesValue(printable: char -> bool, a: Value, b: Value)
    requires WellFormed(a) && WellFormed(b)
    ensures CanonicalJson(printable, a) == CanonicalJson(printable, b) <==> a == b
  {
    CanonicalJsonIsRead(printable, a);
    CanonicalJsonIsRead(printable, b);
  }

  lemma ToTextDeterminesValue(a: Value, b: Value)
    requires WellFormed(a) && WellFormed(b)
    ensures ToText(a) == ToText(b) <==> a == b
  {
    ToTextIsRead(a);
    ToTextIsRead(b);
  }
}

/** JSON values as serde_json holds them. Its `Map` is a `BTreeMap` (the `preserve_order` feature
    is off), so an object is a finite map and carries no key order of its own. */
module Json {
  import opened Wrappers
  import opened Decimal
  import opened Text

  /** A float is represented by the text serde_json prints for it. */
  datatype Number = PosInt(n: nat) | NegInt(k: nat) | Float(text: string)

  datatype Value =
    | Null
    | Bool(b: bool)
    | Num(num: Number)
    | Str(s: string)
    | Arr(items: seq<Value>)
    | Obj(fields: map<string, Value>)
  {
    /** `Value::get` with a string index. */
    function Get(key: string): Option<Value> {
      if Obj? && key in fields then Some(fields[key]) else None
    }

    function AsStr(): Option<string> {
      if Str? then Some(s) else None
    }

    /** `as_i64` */
    function AsI64(): Option<int> {
      match this
      case Num(PosInt(n)) => if n < 0x8000_0000_0000_0000 then Some(n) else None
      case Num(NegInt(k)) => if k < 0x8000_0000_0000_0000 then Some(-1 - k) else None
      case _ => None
    }
  }
}

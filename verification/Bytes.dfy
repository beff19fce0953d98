/** Bytes, UTF-8, and taking a joined sequence apart at a separator. */
module Bytes {
  import opened Wrappers
  import opened Decimal

  type Byte = n: int | 0 <= n < 256

  // ---- separators -----------------------------------------------------------------------------

  /** The first separator tells where the first part ends. */
  lemma {:induction false} FirstSeparator<T>(a: seq<T>, x: T, b: seq<T>, a': seq<T>, b': seq<T>)
    requires x !in a && x !in a' && a + [x] + b == a' + [x] + b'
    ensures a == a' && b == b'
  {
    var s, s' := a + [x] + b, a' + [x] + b';
    assert s[|a|] == x && s'[|a'|] == x;
    assert forall i :: 0 <= i < |a| ==> s[i] == a[i];
    assert forall i :: 0 <= i < |a'| ==> s'[i] == a'[i];
    assert |a| == |a'|;
    SameLength(a + [x], b, a' + [x], b');
    assert a == (a + [x])[..|a|] && a' == (a' + [x])[..|a'|];
  }

  lemma SameLength<T>(a: seq<T>, b: seq<T>, a': seq<T>, b': seq<T>)
    requires |a| == |a'| && a + b == a' + b'
    ensures a == a' && b == b'
  {
    assert a == (a + b)[..|a|] && a' == (a' + b')[..|a'|];
    assert b == (a + b)[|a|..] && b' == (a' + b')[|a'|..];
  }

  /** The last separator tells where the last part begins. */
  lemma LastSeparator<T>(a: seq<T>, x: T, b: seq<T>, a': seq<T>, b': seq<T>)
    requires x !in b && x !in b' && a + [x] + b == a' + [x] + b'
    ensures a == a' && b == b'
  {
    var s, s' := a + [x] + b, a' + [x] + b';
    assert s[|a|] == x && s'[|a'|] == x;
    forall j | |a| < j < |s| ensures s[j] != x { assert s[j] == b[j - |a| - 1]; }
    forall j | |a'| < j < |s'| ensures s'[j] != x { assert s'[j] == b'[j - |a'| - 1]; }
    assert |a| == |a'|;
    SameLength(a + [x], b, a' + [x], b');
    assert a == (a + [x])[..|a|] && a' == (a' + [x])[..|a'|];
  }

  // ---- UTF-8 ------------------------------------------------------------------------------------

  function EncodeChar(c: char): (bs: seq<Byte>)
    ensures |bs| > 0
  {
    var n := c as int;
    if n < 0x80 then [n]
    else if n < 0x800 then [0xC0 + n / 64, 0x80 + n % 64]
    else if n < 0x10000 then [0xE0 + n / 4096, 0x80 + n / 64 % 64, 0x80 + n % 64]
    else [0xF0 + n / 262144, 0x80 + n / 4096 % 64, 0x80 + n / 64 % 64, 0x80 + n % 64]
  }

  /** `s.as_bytes()` */
  function Encode(s: string): seq<Byte> {
    if s == [] then [] else EncodeChar(s[0]) + Encode(s[1..])
  }

  predicate Continuation(b: int) {
    0x80 <= b < 0xC0
  }

  predicate Scalar(n: int) {
    0 <= n < 0xD800 || 0xE000 <= n < 0x11_0000
  }

  function CharOf(n: int, rest: seq<Byte>): Option<(char, seq<Byte>)> {
    if Scalar(n) then Some((n as char, rest)) else None
  }

  /** Six more bits. */
  function With(high: int, b: int): int {
    high * 64 + (b - 0x80)
  }

  /** One character from the front of a UTF-8 text (RFC 3629, section 3). */
  function ReadChar(bs: seq<Byte>): Option<(char, seq<Byte>)> {
    if bs == [] then None
    else if bs[0] < 0x80 then CharOf(bs[0], bs[1..])
    else if 0xC0 <= bs[0] < 0xE0 && |bs| >= 2 && Continuation(bs[1]) then
      CharOf(With(bs[0] - 0xC0, bs[1]), bs[2..])
    else if 0xE0 <= bs[0] < 0xF0 && |bs| >= 3 && Continuation(bs[1]) && Continuation(bs[2]) then
      CharOf(With(With(bs[0] - 0xE0, bs[1]), bs[2]), bs[3..])
    else if 0xF0 <= bs[0] < 0xF8 && |bs| >= 4 && Continuation(bs[1]) && Continuation(bs[2]) && Continuation(bs[3]) then
      CharOf(With(With(With(bs[0] - 0xF0, bs[1]), bs[2]), bs[3]), bs[4..])
    else None
  }

  function ReadText(bs: seq<Byte>): Option<string>
    decreases |bs|
  {
    if bs == [] then Some("")
    else
      match ReadChar(bs)
      case None => None
      case Some((c, rest)) =>
        if |rest| >= |bs| then None
        else match ReadText(rest) case Some(s) => Some([c] + s) case None => None
  }

  lemma Digits64(n: nat)
    ensures With(n / 64, 0x80 + n % 64) == n
    ensures With(n / 4096, 0x80 + n / 64 % 64) == n / 64
    ensures With(n / 262144, 0x80 + n / 4096 % 64) == n / 4096
  {
    assert n / 64 / 64 == n / 4096 && n / 4096 / 64 == n / 262144;
  }

  lemma CharIsRead(c: char, rest: seq<Byte>)
    ensures ReadChar(EncodeChar(c) + rest) == Some((c, rest))
  {
    var p := EncodeChar(c);
    Digits64(c as int);
    assert forall i :: 0 <= i < |p| ==> (p + rest)[i] == p[i];
    assert (p + rest)[|p|..] == rest;
  }

  /** Reading undoes encoding. */
  lemma {:induction false} EncodingIsRead(s: string)
    ensures ReadText(Encode(s)) == Some(s)
  {
    if s != [] {
      CharIsRead(s[0], Encode(s[1..]));
      EncodingIsRead(s[1..]);
      assert s == [s[0]] + s[1..];
    }
  }

  lemma EncodeInjective(s: string, t: string)
    requires Encode(s) == Encode(t)
    ensures s == t
  {
    EncodingIsRead(s);
    EncodingIsRead(t);
  }

  lemma {:induction false} EncodeJoin(a: string, b: string)
    ensures Encode(a + b) == Encode(a) + Encode(b)
  {
    if a == "" {
      assert a + b == b;
    } else {
      EncodeJoin(a[1..], b);
      assert (a + b)[0] == a[0] && (a + b)[1..] == a[1..] + b;
      Regroup(EncodeChar(a[0]), Encode(a[1..]), Encode(b));
    }
  }

  lemma Regroup(x: seq<Byte>, y: seq<Byte>, z: seq<Byte>)
    ensures x + (y + z) == (x + y) + z
  {
  }

  predicate IsAscii(s: string) {
    forall i :: 0 <= i < |s| ==> s[i] as int < 0x80
  }

  /** ASCII characters are their own bytes. */
  lemma {:induction false} AsciiIsItself(s: string)
    requires IsAscii(s)
    ensures |Encode(s)| == |s| && forall i :: 0 <= i < |s| ==> Encode(s)[i] == s[i] as int
  {
    if s != [] { AsciiIsItself(s[1..]); }
  }

  /** An ASCII byte occurs in the encoding only where its character does. */
  lemma {:induction false} AsciiStaysOut(s: string, c: char)
    requires c as int < 0x80 && c !in s
    ensures c as int !in Encode(s)
  {
    if s != [] {
      AsciiStaysOut(s[1..], c);
      assert s[0] != c;
      assert forall i :: 0 <= i < |EncodeChar(s[0])| ==> EncodeChar(s[0])[i] != c as int;
    }
  }

  // ---- little-endian integers -----------------------------------------------------------------------

  function LittleEndian(n: nat, k: nat): (bs: seq<Byte>)
    ensures |bs| == k
  {
    if k == 0 then [] else [n % 256] + LittleEndian(n / 256, k - 1)
  }

  function Power256(k: nat): nat {
    if k == 0 then 1 else 256 * Power256(k - 1)
  }

  /** The number that bytes stand for, least significant first. */
  function FromLittle(bs: seq<Byte>): nat {
    if bs == [] then 0 else bs[0] + 256 * FromLittle(bs[1..])
  }

  lemma {:induction false} LittleIsRead(n: nat, k: nat)
    requires n < Power256(k)
    ensures FromLittle(LittleEndian(n, k)) == n
  {
    if k > 0 { LittleIsRead(n / 256, k - 1); }
  }

  predicate IsI64(n: int) {
    -0x8000_0000_0000_0000 <= n < 0x8000_0000_0000_0000
  }

  /** `to_le_bytes` of an i64: two's complement. */
  function I64Bytes(n: int): (bs: seq<Byte>)
    requires IsI64(n)
    ensures |bs| == 8
  {
    LittleEndian(if n < 0 then n + U64_LIMIT else n, 8)
  }

  /** The number that eight bytes stand for in two's complement. */
  function FromI64(bs: seq<Byte>): int {
    var n := FromLittle(bs);
    if n < 0x8000_0000_0000_0000 then n else n - 0x1_0000_0000_0000_0000
  }

  lemma I64IsRead(n: int)
    requires IsI64(n)
    ensures FromI64(I64Bytes(n)) == n
  {
    EightBytes();
    LittleIsRead(if n < 0 then n + U64_LIMIT else n, 8);
  }

  lemma I64BytesInjective(m: int, n: int)
    requires IsI64(m) && IsI64(n) && I64Bytes(m) == I64Bytes(n)
    ensures m == n
  {
    I64IsRead(m);
    I64IsRead(n);
  }

  lemma EightBytes()
    ensures Power256(8) == U64_LIMIT
  {
    assert Power256(2) == 0x1_0000;
    assert Power256(4) == 0x1_0000_0000;
    assert Power256(6) == 0x1_0000_0000_0000;
  }
}

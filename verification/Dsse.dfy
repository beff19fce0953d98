/** What the receipts' signatures are computed over (receipt.rs): the DSSE pre-authentication encoding, and
    hexadecimal text. */
module Dsse {
  import opened Wrappers
  import opened Decimal
  import opened Hex
  import opened Bytes

  const SP: Byte := 0x20

  const TAG: string := "DSSEv1"

  function Spaced(tag: seq<Byte>, l: seq<Byte>, t: seq<Byte>, m: seq<Byte>, p: seq<Byte>): seq<Byte> {
    tag + [SP] + l + [SP] + t + [SP] + m + [SP] + p
  }

  /** PAE(type, body), as "Signature Definition" of the DSSE v1 protocol gives it. */
  function Pae(payloadType: string, payload: seq<Byte>): seq<Byte> {
    var t := Encode(payloadType);
    Spaced(Encode(TAG), Encode(Dec(|t|)), t, Encode(Dec(|payload|)), payload)
  }

  /** `dsse_pae`: the encoding, appended piece by piece. */
  method DssePae(payloadType: string, payload: seq<Byte>) returns (out: seq<Byte>)
    ensures out == Pae(payloadType, payload)
  {
    out := Encode(TAG + [' ']);
    EncodeJoin(TAG, [' ']);
    assert Encode([' ']) == [SP];
    out := out + Encode(Dec(|Encode(payloadType)|));
    out := out + [SP];
    out := out + Encode(payloadType);
    out := out + [SP];
    out := out + Encode(Dec(|payload|));
    out := out + [SP];
    out := out + payload;
  }

  // ---- reading it back --------------------------------------------------------------------------

  predicate DigitByte(b: int) {
    0x30 <= b < 0x3A
  }

  /** Decimal digits up to a space: the number and what comes after the space. */
  function ReadLength(bs: seq<Byte>, so: nat): Option<(nat, seq<Byte>)>
    decreases |bs|
  {
    if bs == [] then None
    else if bs[0] == 0x20 then Some((so, bs[1..]))
    else if DigitByte(bs[0]) then ReadLength(bs[1..], 10 * so + (bs[0] - 0x30))
    else None
  }

  /** A length and so many bytes. */
  function ReadSized(bs: seq<Byte>): Option<(seq<Byte>, seq<Byte>)> {
    match ReadLength(bs, 0)
    case None => None
    case Some((n, rest)) => if n <= |rest| then Some((rest[..n], rest[n..])) else None
  }

  /** "DSSEv1" and a space. */
  const HEADER: seq<Byte> := [0x44, 0x53, 0x53, 0x45, 0x76, 0x31, 0x20]

  /** Payload type and payload of an encoding: the header, and two sized texts with a space between them. */
  function ReadPae(bs: seq<Byte>): Option<(seq<Byte>, seq<Byte>)> {
    if !(HEADER <= bs) then None
    else
      match ReadSized(bs[7..])
      case None => None
      case Some((t, rest)) =>
        if rest == [] || rest[0] != 0x20 then None
        else match ReadSized(rest[1..]) case Some((p, end)) => (if end == [] then Some((t, p)) else None) case None => None
  }

  lemma {:induction false} LengthIsRead(s: string, so: nat, n: nat, rest: seq<Byte>)
    requires AllDigits(s) && n == AsNumber(s, so)
    ensures ReadLength(Encode(s) + [0x20] + rest, so) == Some((n, rest))
  {
    if s == "" {
      assert Encode(s) + [0x20] + rest == [0x20] + rest;
    } else {
      var more := Encode(s[1..]) + [0x20] + rest;
      LengthIsRead(s[1..], 10 * so + DigitValue(s[0]), n, rest);
      assert Encode(s) + [0x20] + rest == [s[0] as int] + more;
      DigitIsRead(s[0], so, more, n, rest);
    }
  }

  lemma DigitIsRead(c: char, so: nat, more: seq<Byte>, n: nat, rest: seq<Byte>)
    requires IsDigit(c) && ReadLength(more, 10 * so + DigitValue(c)) == Some((n, rest))
    ensures ReadLength([c as int] + more, so) == Some((n, rest))
  {
    assert ([c as int] + more)[1..] == more;
  }

  /** Digits added to a number on the right. */
  function AsNumber(s: string, so: nat): nat
    requires AllDigits(s)
  {
    if s == "" then so else AsNumber(s[1..], 10 * so + DigitValue(s[0]))
  }

  lemma {:induction false} AsNumberAppend(s: string, c: char, so: nat)
    requires AllDigits(s) && IsDigit(c)
    ensures AsNumber(s + [c], so) == 10 * AsNumber(s, so) + DigitValue(c)
  {
    if s == "" {
      assert s + [c] == [c];
    } else {
      assert (s + [c])[1..] == s[1..] + [c];
      AsNumberAppend(s[1..], c, 10 * so + DigitValue(s[0]));
    }
  }

  lemma {:induction false} NumeralIsNumber(n: nat)
    ensures AsNumber(Dec(n), 0) == n
  {
    if n >= 10 {
      NumeralIsNumber(n / 10);
      AsNumberAppend(Dec(n / 10), Digit(n % 10), 0);
    }
  }

  /** A length and a text of that length. */
  function Sized(bs: seq<Byte>): seq<Byte> {
    Encode(Dec(|bs|)) + [SP] + bs
  }

  lemma SizedIsRead(bs: seq<Byte>, rest: seq<Byte>)
    ensures ReadSized(Sized(bs) + rest) == Some((bs, rest))
  {
    NumeralIsNumber(|bs|);
    LengthIsRead(Dec(|bs|), 0, |bs|, bs + rest);
    assert Sized(bs) + rest == Encode(Dec(|bs|)) + [0x20] + (bs + rest);
  }

  lemma SpacedParts(tag: seq<Byte>, l: seq<Byte>, t: seq<Byte>, m: seq<Byte>, p: seq<Byte>)
    ensures Spaced(tag, l, t, m, p) == (tag + [SP]) + ((l + [SP] + t) + ([SP] + (m + [SP] + p)))
  {
  }

  lemma HeaderIsThat()
    ensures Encode(TAG) + [SP] == HEADER
  {
    AsciiIsItself(TAG);
  }

  /** Reading an encoding gives payload type and payload back. */
  lemma PaeIsRead(payloadType: string, payload: seq<Byte>)
    ensures ReadPae(Pae(payloadType, payload)) == Some((Encode(payloadType), payload))
  {
    var t := Encode(payloadType);
    SpacedParts(Encode(TAG), Encode(Dec(|t|)), t, Encode(Dec(|payload|)), payload);
    HeaderIsThat();
    PartsAreRead(t, payload);
  }

  lemma PartsAreRead(t: seq<Byte>, p: seq<Byte>)
    ensures ReadPae(HEADER + (Sized(t) + ([SP] + Sized(p)))) == Some((t, p))
  {
    var bs := HEADER + (Sized(t) + ([SP] + Sized(p)));
    SizedIsRead(t, [SP] + Sized(p));
    SizedIsRead(p, []);
    assert bs[7..] == Sized(t) + ([SP] + Sized(p)) && ([SP] + Sized(p))[1..] == Sized(p) && Sized(p) + [] == Sized(p);
  }

  /** Different (payload type, payload) pairs never encode to the same bytes. */
  lemma PaeInjective(t: string, p: seq<Byte>, t': string, p': seq<Byte>)
    requires Pae(t, p) == Pae(t', p')
    ensures t == t' && p == p'
  {
    PaeIsRead(t, p);
    PaeIsRead(t', p');
    EncodeInjective(t, t');
  }

  // ---- hexadecimal ------------------------------------------------------------------------------

  /** `{b:02x}` */
  function HexByte(b: Byte): string {
    [HexDigit(b / 16), HexDigit(b % 16)]
  }

  function HexText(bs: seq<Byte>): string {
    if bs == [] then "" else HexText(bs[..|bs| - 1]) + HexByte(bs[|bs| - 1])
  }

  method ToHex(bs: seq<Byte>) returns (s: string)
    ensures s == HexText(bs)
  {
    s := "";
    for i := 0 to |bs|
      invariant s == HexText(bs[..i])
    {
      assert bs[..i + 1][..i] == bs[..i];
      s := s + HexByte(bs[i]);
    }
    assert bs[..|bs|] == bs;
  }

  /** A hexadecimal digit of either case. */
  function AnyHexValue(c: char): Option<nat> {
    if IsHexDigit(c) then Some(HexValue(c))
    else if 'A' <= c <= 'F' then Some(c as int - 'A' as int + 10)
    else None
  }

  /** `u8::from_str_radix(_, 16)` on two characters: it takes a plus sign as well. */
  function HexPair(c: char, d: char): Option<Byte> {
    if c == '+' then (match AnyHexValue(d) case Some(v) => Some(v % 16) case None => None)
    else
      match (AnyHexValue(c), AnyHexValue(d))
      case (Some(h), Some(l)) => Some((16 * h + l) % 256)
      case _ => None
  }

  /** `unhex` on ASCII text. On other text the source may panic, slicing inside a character. */
  function Unhex(s: string): Option<seq<Byte>>
    decreases |s|
  {
    if |s| % 2 != 0 then None
    else if s == "" then Some([])
    else
      match (Unhex(s[..|s| - 2]), HexPair(s[|s| - 2], s[|s| - 1]))
      case (Some(bs), Some(b)) => Some(bs + [b])
      case _ => None
  }

  lemma Twice(n: nat)
    ensures 2 * n % 2 == 0
  {
  }

  lemma UnhexLast(s: string, front: string, n: nat, bs: seq<Byte>, b: Byte)
    requires |s| == 2 * n + 2 && s[..|s| - 2] == front
    requires Unhex(front) == Some(bs) && HexPair(s[|s| - 2], s[|s| - 1]) == Some(b)
    ensures Unhex(s) == Some(bs + [b])
  {
    Twice(n + 1);
  }

  lemma LastTwo(s: string, c: char, d: char)
    ensures var t := s + [c, d]; t[..|t| - 2] == s && t[|t| - 2] == c && t[|t| - 1] == d
  {
  }

  lemma HexPairOfByte(b: Byte)
    ensures HexPair(HexDigit(b / 16), HexDigit(b % 16)) == Some(b)
  {
    assert 16 * (b / 16) + b % 16 == b;
  }

  /** `unhex` undoes `hex`. */
  lemma {:induction false} UnhexUndoesHex(bs: seq<Byte>)
    ensures Unhex(HexText(bs)) == Some(bs)
  {
    if bs != [] {
      var n := |bs| - 1;
      UnhexUndoesHex(bs[..n]);
      EvenLength(bs[..n]);
      UnhexByte(HexText(bs), HexText(bs[..n]), n, bs[..n], bs[n]);
      assert bs == bs[..n] + [bs[n]];
    }
  }

  lemma UnhexByte(s: string, front: string, n: nat, bs: seq<Byte>, b: Byte)
    requires |front| == 2 * n && Unhex(front) == Some(bs) && s == front + HexByte(b)
    ensures Unhex(s) == Some(bs + [b])
  {
    HexPairOfByte(b);
    LastTwo(front, HexDigit(b / 16), HexDigit(b % 16));
    UnhexLast(s, front, n, bs, b);
  }

  lemma {:induction false} EvenLength(bs: seq<Byte>)
    ensures |HexText(bs)| == 2 * |bs|
  {
    if bs != [] { EvenLength(bs[..|bs| - 1]); }
  }
}

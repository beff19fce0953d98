/** Substrings, splitting and the (code-point) lexicographic order of strings. */
module Text {
  import opened Wrappers

  predicate OccursAt(t: string, s: string, i: int) {
    0 <= i <= |s| - |t| && s[i..i + |t|] == t
  }

  /** `s.contains(t)` */
  predicate Contains(s: string, t: string) {
    exists i :: 0 <= i <= |s| && OccursAt(t, s, i)
  }

  /** `s.find(t)` from position `from`: the least occurrence, if any. */
  function FindFrom(s: string, t: string, from: nat): (r: Option<nat>)
    requires from <= |s|
    ensures r.Some? ==> from <= r.value && OccursAt(t, s, r.value)
    ensures forall i :: from <= i < (if r.Some? then r.value else |s| + 1) ==> !OccursAt(t, s, i)
    decreases |s| - from
  {
    if OccursAt(t, s, from) then Some(from)
    else if from == |s| then None
    else FindFrom(s, t, from + 1)
  }

  /** `s.split(c)` */
  function Split(s: string, c: char): (parts: seq<string>)
    ensures |parts| > 0
  {
    if c !in s then [s]
    else
      var i := FindFrom(s, [c], 0);
      if i.None? then [s] else [s[..i.value]] + Split(s[i.value + 1..], c)
  }

  lemma SplitFirst(a: string, c: char, rest: string)
    requires c !in a
    ensures Split(a + [c] + rest, c) == [a] + Split(rest, c)
  {
    var s := a + [c] + rest;
    assert s[|a|] == c;
    assert OccursAt([c], s, |a|) by { assert s[|a|..|a| + 1] == [c]; }
    forall i | 0 <= i < |a| ensures !OccursAt([c], s, i) {
      assert s[i] == a[i] && s[i..i + 1] == [s[i]];
    }
    assert FindFrom(s, [c], 0) == Some(|a|);
    assert s[..|a|] == a && s[|a| + 1..] == rest;
  }

  /** Where the first `c` of a text stands. */
  lemma CutAt(s: string, c: char) returns (before: string, after: string)
    requires c in s
    ensures c !in before && s == before + [c] + after
  {
    var k := FindFrom(s, [c], 0);
    var i :| 0 <= i < |s| && s[i] == c;
    assert OccursAt([c], s, i) by { assert s[i..i + 1] == [s[i]]; }
    before, after := s[..k.value], s[k.value + 1..];
    forall j | 0 <= j < k.value ensures s[j] != c {
      assert !OccursAt([c], s, j) && s[j..j + 1] == [s[j]];
    }
    assert s[k.value..k.value + 1] == [c];
  }

  /** One more part at the end. */
  lemma {:induction false} SplitLast(s: string, c: char, last: string)
    requires c !in last
    ensures Split(s + [c] + last, c) == Split(s, c) + [last]
    decreases |s|
  {
    if c in s {
      var before, after := CutAt(s, c);
      SplitLast(after, c, last);
      SplitBehind(before, c, after, last);
    } else {
      SplitFirst(s, c, last);
      SplitNone(s, c);
      SplitNone(last, c);
    }
  }

  /** The first part stays the first. */
  lemma SplitBehind(before: string, c: char, after: string, last: string)
    requires c !in before && Split(after + [c] + last, c) == Split(after, c) + [last]
    ensures Split(before + [c] + after + [c] + last, c) == Split(before + [c] + after, c) + [last]
  {
    SplitFirst(before, c, after);
    SplitFirst(before, c, after + [c] + last);
    Longer(before + [c], after, [c], last);
    Regroup([before], Split(after, c), [last]);
  }

  lemma Longer(a: string, b: string, c: string, d: string)
    ensures a + b + c + d == a + (b + c + d)
  {
  }

  lemma SplitNone(s: string, c: char)
    requires c !in s
    ensures Split(s, c) == [s]
  {
  }

  lemma SplitThree(s: string, c: char, t: string, u: string)
    requires c !in s && c !in t && c !in u
    ensures Split(s + [c] + t + [c] + u, c) == [s, t, u]
  {
    SplitNone(s, c);
    SplitLast(s, c, t);
    SplitLast(s + [c] + t, c, u);
  }

  lemma Regroup<T>(a: seq<T>, b: seq<T>, c: seq<T>)
    ensures (a + b) + c == a + (b + c)
  {
  }

  /** The part of `s` after its last `c` (all of `s` when it has none): `s.rsplit(c).next()`. */
  function AfterLast(s: string, c: char): (r: string)
    ensures c !in r
  {
    if s == [] then []
    else if s[|s| - 1] == c then []
    else AfterLast(s[..|s| - 1], c) + [s[|s| - 1]]
  }

  lemma {:induction false} AfterLastOfJoin(a: string, c: char, b: string)
    requires c !in b
    ensures AfterLast(a + [c] + b, c) == b
  {
    var s := a + [c] + b;
    if b == [] {
      assert s[|s| - 1] == c;
    } else {
      var b' := b[..|b| - 1];
      assert b == b' + [b[|b| - 1]];
      AfterLastOfJoin(a, c, b');
      assert s[..|s| - 1] == a + [c] + b';
      assert s[|s| - 1] == b[|b| - 1];
    }
  }

  /** `a <= b` in the order of Rust strings: bytewise on UTF-8, which is code-point order. */
  predicate Leq(a: string, b: string) {
    a == [] || (b != [] && (a[0] < b[0] || (a[0] == b[0] && Leq(a[1..], b[1..]))))
  }

  lemma {:induction false} LeqTotal(a: string, b: string)
    ensures Leq(a, b) || Leq(b, a)
    ensures Leq(a, b) && Leq(b, a) ==> a == b
  {
    if a != [] && b != [] && a[0] == b[0] {
      LeqTotal(a[1..], b[1..]);
      assert a == [a[0]] + a[1..] && b == [b[0]] + b[1..];
    }
  }

  lemma {:induction false} LeqTransitive(a: string, b: string, c: string)
    requires Leq(a, b) && Leq(b, c)
    ensures Leq(a, c)
  {
    if a != [] && a[0] == b[0] == c[0] {
      LeqTransitive(a[1..], b[1..], c[1..]);
    }
  }
}

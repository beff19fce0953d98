/** Fan-in of a map step: whatever order the rows are read in, `aggregate_children` sees exactly the
    children of its own parent and puts their outputs in element order. */
module FanOut {
  import opened Wrappers
  import opened Decimal
  import opened Text
  import opened Json
  import opened JsonText
  import opened FlowLedger
  import opened DepGraph

  /** The part of an id before its first `#`. */
  function ParentOf(id: string): string {
    if id == [] || id[0] == '#' then [] else [id[0]] + ParentOf(id[1..])
  }

  function IndexOf(id: string): nat {
    ParseU64(AfterLast(id, '#')).GetOr(0)
  }

  lemma {:induction false} ParentOfPrefix(p: string, rest: string)
    requires NoHash(p)
    ensures ParentOf(p + "#" + rest) == p
  {
    var id := p + "#" + rest;
    if p != [] {
      assert id[1..] == p[1..] + "#" + rest;
      ParentOfPrefix(p[1..], rest);
      assert id[0] == p[0] && p == [p[0]] + p[1..];
    }
  }

  /** A child id reads back as its parent and its index. */
  lemma ChildIdParts(p: string, i: nat)
    requires NoHash(p) && i < U64_LIMIT
    ensures ParentOf(ChildId(p, i)) == p && IndexOf(ChildId(p, i)) == i
    ensures '#' in ChildId(p, i)
  {
    ParentOfPrefix(p, Dec(i));
    AfterLastOfJoin(p, '#', Dec(i));
    ParseOfDec(i);
    assert ChildId(p, i)[|p|] == '#';
  }

  lemma PrefixNamesParent(p: string, id: string)
    requires NoHash(p) && p + "#" <= id
    ensures ParentOf(id) == p
  {
    var rest := id[|p| + 1..];
    assert id == p + "#" + rest;
    ParentOfPrefix(p, rest);
  }

  /** `steps` lists the rows of the ledger, each once, in some order. */
  ghost predicate Enumerates(steps: seq<FlowStep>, rows: Ledger) {
    && (forall i, j :: 0 <= i < j < |steps| ==> steps[i].stepId != steps[j].stepId)
    && (forall s :: s in steps ==> s.stepId in rows && rows[s.stepId] == s)
    && (forall id :: id in rows ==> rows[id].stepId == id && rows[id] in steps)
  }

  /** The rows named after `p` are its children 0..n, and no others. */
  ghost predicate HasChildren(rows: Ledger, p: string, n: nat) {
    && NoHash(p) && 0 < n <= U64_LIMIT
    && (forall i :: 0 <= i < n ==> ChildId(p, i) in rows && rows[ChildId(p, i)].stepId == ChildId(p, i))
    && (forall id :: id in rows && p + "#" <= id ==> exists i :: 0 <= i < n && id == ChildId(p, i))
  }

  ghost predicate DistinctIds(steps: seq<FlowStep>) {
    forall i, j :: 0 <= i < j < |steps| ==> steps[i].stepId != steps[j].stepId
  }

  lemma {:induction false} WithPrefixMembers(steps: seq<FlowStep>, prefix: string)
    requires DistinctIds(steps)
    ensures forall c :: c in WithPrefix(steps, prefix) <==> c in steps && prefix <= c.stepId
    ensures DistinctIds(WithPrefix(steps, prefix))
  {
    if steps != [] {
      var rest := WithPrefix(steps[1..], prefix);
      WithPrefixMembers(steps[1..], prefix);
      assert steps == [steps[0]] + steps[1..];
      assert forall c :: c in rest ==> c.stepId != steps[0].stepId by {
        forall c | c in rest ensures c.stepId != steps[0].stepId {
          var i :| 0 <= i < |steps| - 1 && steps[1..][i] == c;
          assert steps[i + 1] == c;
        }
      }
    }
  }

  ghost predicate Ascending(s: seq<FlowStep>) {
    forall i, j :: 0 <= i < j < |s| ==> IndexKey(s[i]) <= IndexKey(s[j])
  }

  lemma {:induction false} InsertByIndexMembers(c: FlowStep, s: seq<FlowStep>)
    ensures multiset(InsertByIndex(c, s)) == multiset(s) + multiset{c}
    ensures forall d :: d in InsertByIndex(c, s) ==> d == c || d in s
  {
    if s != [] && IndexKey(s[0]) < IndexKey(c) {
      InsertByIndexMembers(c, s[1..]);
      assert s == [s[0]] + s[1..];
    }
  }

  lemma {:induction false} InsertByIndexSorts(c: FlowStep, s: seq<FlowStep>)
    requires Ascending(s)
    ensures Ascending(InsertByIndex(c, s))
  {
    if s != [] && IndexKey(s[0]) < IndexKey(c) {
      var rest := InsertByIndex(c, s[1..]);
      InsertByIndexSorts(c, s[1..]);
      InsertByIndexMembers(c, s[1..]);
      FirstIsLeast(s);
      LeastFirst(s[0], rest);
    }
  }

  lemma FirstIsLeast(s: seq<FlowStep>)
    requires s != [] && Ascending(s)
    ensures forall d :: d in s[1..] ==> IndexKey(s[0]) <= IndexKey(d)
  {
    forall d | d in s[1..] ensures IndexKey(s[0]) <= IndexKey(d) {
      var i :| 0 <= i < |s| - 1 && s[1..][i] == d;
      assert s[i + 1] == d;
    }
  }

  lemma LeastFirst(c: FlowStep, s: seq<FlowStep>)
    requires Ascending(s) && forall d :: d in s ==> IndexKey(c) <= IndexKey(d)
    ensures Ascending([c] + s)
  {
    forall i, j | 0 <= i < j < |s| + 1 ensures IndexKey(([c] + s)[i]) <= IndexKey(([c] + s)[j]) {
      assert s[j - 1] in s;
    }
  }

  lemma FirstAndRest<T>(s: seq<T>)
    requires s != []
    ensures multiset(s) == multiset(s[1..]) + multiset{s[0]}
  {
    assert s == [s[0]] + s[1..];
  }

  lemma {:induction false} SortByIndexMembers(s: seq<FlowStep>)
    ensures multiset(SortByIndex(s)) == multiset(s)
  {
    if s != [] {
      SortByIndexMembers(s[1..]);
      InsertByIndexMembers(s[0], SortByIndex(s[1..]));
      FirstAndRest(s);
    }
  }

  lemma {:induction false} SortByIndexSorts(s: seq<FlowStep>)
    ensures Ascending(SortByIndex(s))
  {
    if s != [] {
      SortByIndexSorts(s[1..]);
      InsertByIndexSorts(s[0], SortByIndex(s[1..]));
    }
  }

  ghost predicate Increasing(keys: seq<nat>) {
    forall i, j :: 0 <= i < j < |keys| ==> keys[i] < keys[j]
  }

  lemma {:induction false} IncreasingKeysGrow(keys: seq<nat>, i: nat)
    requires Increasing(keys) && i < |keys|
    ensures keys[i] >= i
  {
    if i > 0 { IncreasingKeysGrow(keys, i - 1); }
  }

  lemma {:induction false} LongEnough(keys: seq<nat>, n: nat, k: nat)
    requires Increasing(keys) && k <= n
    requires forall m: nat :: m < n ==> m in keys
    ensures |keys| >= k && forall i :: 0 <= i < k ==> keys[i] == i
  {
    if k > 0 {
      LongEnough(keys, n, k - 1);
      assert k - 1 in keys;
      var at :| 0 <= at < |keys| && keys[at] == k - 1;
      IncreasingKeysGrow(keys, at);
      assert at >= k - 1;
    }
  }

  /** A strictly increasing list of numbers that contains exactly 0..n is 0, 1, ..., n-1. */
  lemma CountUp(keys: seq<nat>, n: nat)
    requires Increasing(keys)
    requires forall m: nat :: m < n <==> m in keys
    ensures |keys| == n && forall i :: 0 <= i < n ==> keys[i] == i
  {
    LongEnough(keys, n, n);
    if |keys| > 0 {
      IncreasingKeysGrow(keys, |keys| - 1);
      assert keys[|keys| - 1] in keys;
    }
  }

  lemma DistinctIdsInMultiset(a: seq<FlowStep>, b: seq<FlowStep>)
    requires multiset(a) == multiset(b) && DistinctIds(a)
    ensures DistinctIds(b)
    ensures forall c :: c in a <==> c in b
  {
    forall c ensures c in a <==> c in b {
      assert c in multiset(a) <==> c in multiset(b);
    }
    forall i, j | 0 <= i < j < |b| ensures b[i].stepId != b[j].stepId {
      if b[i].stepId == b[j].stepId {
        assert b[i] in a && b[j] in a;
        assert b[i] == b[j];
        OnceInMultiset(a, b[i]);
        TwiceInMultiset(b, i, j);
      }
    }
  }

  lemma {:induction false} OnceInMultiset(a: seq<FlowStep>, c: FlowStep)
    requires DistinctIds(a)
    ensures multiset(a)[c] <= 1
  {
    if a != [] {
      assert a == [a[0]] + a[1..];
      OnceInMultiset(a[1..], c);
      assert forall i :: 0 <= i < |a| - 1 ==> a[1..][i] == a[i + 1];
      assert a[0] !in a[1..];
    }
  }

  lemma TwiceInMultiset<T>(b: seq<T>, i: nat, j: nat)
    requires i < j < |b| && b[i] == b[j]
    ensures multiset(b)[b[i]] >= 2
  {
    assert b == b[..j] + [b[j]] + b[j + 1..];
    assert b[..j][i] == b[i];
  }

  /** The children of `p`, in element order. */
  ghost function Kids(rows: Ledger, p: string, n: nat): (kids: seq<FlowStep>)
    requires HasChildren(rows, p, n)
    ensures |kids| == n && forall i :: 0 <= i < n ==> kids[i] == rows[ChildId(p, i)]
  {
    seq(n, i requires 0 <= i < n => rows[ChildId(p, i)])
  }

  lemma KidsHaveTheirIndex(rows: Ledger, p: string, n: nat)
    requires HasChildren(rows, p, n)
    ensures forall i :: 0 <= i < n ==> IndexKey(Kids(rows, p, n)[i]) == i
  {
    forall i | 0 <= i < n ensures IndexKey(Kids(rows, p, n)[i]) == i { ChildIdParts(p, i); }
  }

  lemma FoundAreKids(steps: seq<FlowStep>, rows: Ledger, p: string, n: nat)
    requires Enumerates(steps, rows) && HasChildren(rows, p, n)
    ensures var found := WithPrefix(steps, p + "#");
            DistinctIds(found) && forall c :: c in found <==> c in Kids(rows, p, n)
  {
    var kids := Kids(rows, p, n);
    WithPrefixMembers(steps, p + "#");
    forall i | 0 <= i < n ensures kids[i] in steps && p + "#" <= kids[i].stepId {
      assert rows[ChildId(p, i)] in steps;
    }
    forall c | c in steps && p + "#" <= c.stepId ensures c in kids {
      var i :| 0 <= i < n && c.stepId == ChildId(p, i);
      assert c == kids[i];
    }
  }

  /** The sorted children of `p`: the rows of element 0, 1, ..., n-1. */
  lemma ChildrenInOrder(steps: seq<FlowStep>, rows: Ledger, p: string, n: nat)
    requires Enumerates(steps, rows) && HasChildren(rows, p, n)
    ensures SortByIndex(WithPrefix(steps, p + "#")) == Kids(rows, p, n)
  {
    var found := WithPrefix(steps, p + "#");
    FoundAreKids(steps, rows, p, n);
    KidsHaveTheirIndex(rows, p, n);
    SortByIndexSorts(found);
    SortByIndexMembers(found);
    DistinctIdsInMultiset(found, SortByIndex(found));
    InIndexOrder(SortByIndex(found), Kids(rows, p, n));
  }

  /** Sorted by index, each once, and exactly the children: then each stands at its index. */
  lemma InIndexOrder(cs: seq<FlowStep>, kids: seq<FlowStep>)
    requires Ascending(cs) && DistinctIds(cs) && forall c :: c in cs <==> c in kids
    requires forall i :: 0 <= i < |kids| ==> IndexKey(kids[i]) == i
    ensures cs == kids
  {
    var keys: seq<nat> := seq(|cs|, i requires 0 <= i < |cs| => IndexKey(cs[i]));
    forall k | 0 <= k < |cs| ensures keys[k] < |kids| && kids[keys[k]] == cs[k] {
      assert cs[k] in cs;
      var i :| 0 <= i < |kids| && cs[k] == kids[i];
    }
    InKeyOrder(cs, kids, keys);
  }

  lemma InKeyOrder<T>(cs: seq<T>, kids: seq<T>, keys: seq<nat>)
    requires |keys| == |cs| && forall k :: 0 <= k < |cs| ==> keys[k] < |kids| && kids[keys[k]] == cs[k]
    requires forall i, j :: 0 <= i < j < |keys| ==> keys[i] <= keys[j] && cs[i] != cs[j]
    requires forall k, m :: 0 <= k < |cs| && 0 <= m < |kids| && cs[k] == kids[m] ==> keys[k] == m
    requires forall c :: c in kids ==> c in cs
    ensures cs == kids
  {
    forall m: nat ensures m < |kids| <==> m in keys {
      if m < |kids| {
        assert kids[m] in cs;
        var i :| 0 <= i < |cs| && cs[i] == kids[m];
        assert keys[i] == m;
      }
    }
    CountUp(keys, |kids|);
  }

  ghost predicate SomeChild(rows: Ledger, p: string, n: nat, bad: Status -> bool)
    requires HasChildren(rows, p, n)
  {
    exists i :: 0 <= i < n && bad(rows[ChildId(p, i)].status)
  }

  lemma SomeKid(rows: Ledger, p: string, n: nat, bad: Status -> bool)
    requires HasChildren(rows, p, n)
    ensures (exists c :: c in Kids(rows, p, n) && bad(c.status)) <==> SomeChild(rows, p, n, bad)
  {
    if SomeChild(rows, p, n, bad) {
      var i :| 0 <= i < n && bad(rows[ChildId(p, i)].status);
      assert Kids(rows, p, n)[i] in Kids(rows, p, n);
    }
  }

  /** The value a map step hands on: one slot per element, in element order. */
  ghost function ChildSlots(rows: Ledger, p: string, n: nat): seq<Value>
    requires HasChildren(rows, p, n)
  {
    seq(n, i requires 0 <= i < n => Slot(rows[ChildId(p, i)]))
  }

  lemma FanInAnyOrder(steps: seq<FlowStep>, rows: Ledger, p: string, n: nat)
    requires Enumerates(steps, rows) && HasChildren(rows, p, n)
    ensures AggregateChildren(steps, p) ==
            if SomeChild(rows, p, n, Active) then None
            else if SomeChild(rows, p, n, (s: Status) => s.Failed?) then Some(AggFailed)
            else Some(AggSucceeded(ToText(Arr(ChildSlots(rows, p, n)))))
  {
    FoundAreKids(steps, rows, p, n);
    ChildrenInOrder(steps, rows, p, n);
    SomeKid(rows, p, n, Active);
    SomeKid(rows, p, n, (s: Status) => s.Failed?);
    assert Slots(Kids(rows, p, n)) == ChildSlots(rows, p, n);
    AggregateOf(steps, p, Kids(rows, p, n));
  }

  lemma AggregateOf(steps: seq<FlowStep>, p: string, kids: seq<FlowStep>)
    requires kids != [] && SortByIndex(WithPrefix(steps, p + "#")) == kids
    requires forall c :: c in WithPrefix(steps, p + "#") <==> c in kids
    ensures AggregateChildren(steps, p) ==
            if exists c :: c in kids && Active(c.status) then None
            else if exists c :: c in kids && c.status.Failed? then Some(AggFailed)
            else Some(AggSucceeded(ToText(Arr(Slots(kids)))))
  {
    assert kids[0] in kids;
  }

  /** Inserting the same children again changes nothing. */
  lemma ReexpandIsNoOp(rows: Ledger, children: seq<FlowStep>)
    ensures InsertRows(InsertRows(rows, children), children) == InsertRows(rows, children)
  {
    var once := InsertRows(rows, children);
    var twice := InsertRows(once, children);
    InsertRowsEffect(rows, children);
    InsertRowsEffect(once, children);
    assert twice.Keys == once.Keys;
    assert twice == once;
  }
}

/** The sliding window of latency samples and the percentiles that the matcher and the API
    gateway compute from it. */
module Latency {

  const CAPACITY := 1000

  /** LPUSH then LTRIM 0 999: the newest sample comes first. */
  function Record(samples: seq<int>, micros: int): seq<int> {
    var pushed := [micros] + samples;
    if |pushed| > CAPACITY then pushed[..CAPACITY] else pushed
  }

  function RecordAll(history: seq<int>): seq<int> {
    if history == [] then []
    else Record(RecordAll(history[..|history| - 1]), history[|history| - 1])
  }

  /** After any number of recordings the list holds the newest ones, newest first, and no more
      than its capacity. */
  lemma {:induction false} KeepsTheNewest(history: seq<int>)
    ensures var kept := RecordAll(history);
            && |kept| == (if |history| < 1000 then |history| else 1000)
            && forall i | 0 <= i < |kept| :: kept[i] == history[|history| - 1 - i]
  {
    if history == [] {
    } else {
      var last := |history| - 1;
      KeepsTheNewest(history[..last]);
      var before, kept := RecordAll(history[..last]), RecordAll(history);
      var pushed := [history[last]] + before;
      assert |kept| <= |pushed| && kept == pushed[..|kept|];
      forall i | 0 <= i < |kept| ensures kept[i] == history[last - i] {
        assert kept[i] == pushed[i];
        if i > 0 { assert pushed[i] == before[i - 1] == history[..last][last - 1 - (i - 1)]; }
      }
    }
  }

  predicate Sorted(a: seq<int>) {
    forall i, j | 0 <= i <= j < |a| :: a[i] <= a[j]
  }

  /** What a sort leaves: the same samples in ascending order. */
  predicate SortOf(a: seq<int>, samples: seq<int>) {
    Sorted(a) && multiset(a) == multiset(samples)
  }

  lemma FirstIsLeast(a: seq<int>, b: seq<int>)
    requires a != [] && b != [] && Sorted(b) && multiset(a) == multiset(b)
    ensures b[0] <= a[0]
  {
    assert a[0] in multiset(b);
  }

  lemma TailMultiset(a: seq<int>)
    requires a != []
    ensures multiset(a[1..]) == multiset(a) - multiset{a[0]}
  {
    assert a == [a[0]] + a[1..];
  }

  lemma {:induction false} SortIsUnique(a: seq<int>, b: seq<int>)
    requires Sorted(a) && Sorted(b) && multiset(a) == multiset(b)
    ensures a == b
    decreases |a|
  {
    assert |a| == |multiset(a)| == |multiset(b)| == |b|;
    if a == [] {
    } else {
      FirstIsLeast(a, b);
      FirstIsLeast(b, a);
      TailMultiset(a);
      TailMultiset(b);
      SortIsUnique(a[1..], b[1..]);
    }
  }

  lemma PrependSorted(head: int, tail: seq<int>)
    requires Sorted(tail) && forall y <- tail :: head <= y
    ensures Sorted([head] + tail)
    ensures multiset([head] + tail) == multiset{head} + multiset(tail)
  {
    var r := [head] + tail;
    forall i, j | 0 <= i <= j < |r| ensures r[i] <= r[j] {
      if j > 0 { assert r[j] == tail[j - 1] && tail[j - 1] in tail; }
      if i > 0 { assert r[i] == tail[i - 1]; }
    }
  }

  function Insert(x: int, a: seq<int>): (r: seq<int>)
    requires Sorted(a)
    ensures Sorted(r) && multiset(r) == multiset(a) + multiset{x}
    decreases |a|
  {
    if a == [] then [x]
    else
      assert a == [a[0]] + a[1..];
      if x <= a[0] then
        PrependSorted(x, a);
        [x] + a
      else
        var rest := Insert(x, a[1..]);
        InsertedAbove(x, a, rest);
        PrependSorted(a[0], rest);
        [a[0]] + rest
  }

  lemma InsertedAbove(x: int, a: seq<int>, rest: seq<int>)
    requires a != [] && Sorted(a) && a[0] < x && multiset(rest) == multiset(a[1..]) + multiset{x}
    ensures forall y <- rest :: a[0] <= y
  {
    forall y <- rest ensures a[0] <= y {
      assert y in multiset(rest);
    }
  }

  /** sort.Slice and Vec::sort: any sort does, see SortIsUnique. */
  function Ascending(samples: seq<int>): (r: seq<int>)
    ensures SortOf(r, samples)
  {
    if samples == [] then []
    else
      assert samples == [samples[0]] + samples[1..];
      Insert(samples[0], Ascending(samples[1..]))
  }

  function Min(a: nat, b: nat): nat {
    if a < b then a else b
  }

  // matcher/src/store.rs: get_matcher_stats, in microseconds.
  function RustP50(a: seq<int>): int
    requires a != []
  {
    a[|a| / 2]
  }

  function RustP99(a: seq<int>): int
    requires a != []
  {
    a[Min(|a| * 99 / 100, |a| - 1)]
  }

  datatype Percentiles = Percentiles(p50: int, p99: int)

  /** api-gateway/handlers/matcher_stats.go: calcLatency, from the list as read to the two
      percentiles. `parsed` says which entries are numbers. */
  method CalcLatency(entries: seq<int>, parsed: seq<bool>) returns (r: Percentiles)
    requires |parsed| == |entries|
    ensures Numbers(entries, parsed) == [] ==> r == Percentiles(0, 0)
    ensures Numbers(entries, parsed) != [] ==>
              forall a | SortOf(a, Numbers(entries, parsed)) :: a != [] && r == Percentiles(RustP50(a), RustP99(a))
  {
    var values := [];
    for i := 0 to |entries|
      invariant values == Numbers(entries[..i], parsed[..i])
    {
      assert entries[..i + 1][..i] == entries[..i] && parsed[..i + 1][..i] == parsed[..i];
      if parsed[i] {
        values := values + [entries[i]];
      }
    }
    assert entries[..|entries|] == entries && parsed[..|entries|] == parsed;
    if |values| == 0 {
      return Percentiles(0, 0);
    }
    var sorted := Ascending(values);
    assert |sorted| == |multiset(sorted)| == |multiset(values)| == |values|;
    var p50 := sorted[|sorted| / 2];
    var idx := |sorted| * 99 / 100;
    if idx >= |sorted| {
      idx := |sorted| - 1;
    }
    r := Percentiles(p50, sorted[idx]);
    forall a | SortOf(a, values) ensures a != [] && r == Percentiles(RustP50(a), RustP99(a)) {
      SortIsUnique(a, sorted);
    }
  }

  function Numbers(entries: seq<int>, parsed: seq<bool>): seq<int>
    requires |parsed| == |entries|
  {
    if entries == [] then []
    else
      var last := |entries| - 1;
      Numbers(entries[..last], parsed[..last]) + (if parsed[last] then [entries[last]] else [])
  }

  /** How many samples are at most, and how many are below, a value. */
  function AtMost(a: seq<int>, x: int): nat {
    if a == [] then 0 else (if a[0] <= x then 1 else 0) + AtMost(a[1..], x)
  }

  lemma {:induction false} AtMostOfSorted(a: seq<int>, k: nat, x: int)
    requires Sorted(a) && k < |a| && a[k] <= x
    ensures AtMost(a, x) >= k + 1
    decreases |a|
  {
    if k == 0 {
      assert AtMost(a, x) == 1 + AtMost(a[1..], x);
    } else {
      AtMostOfSorted(a[1..], k - 1, x);
    }
  }

  lemma {:induction false} AtMostBelow(a: seq<int>, k: nat, x: int)
    requires Sorted(a) && k < |a| && x < a[k]
    ensures AtMost(a, x) <= k
    decreases |a|
  {
    if k == 0 {
      NoneAtMost(a, x);
    } else {
      AtMostBelow(a[1..], k - 1, x);
    }
  }

  lemma {:induction false} NoneAtMost(a: seq<int>, x: int)
    requires forall i | 0 <= i < |a| :: x < a[i]
    ensures AtMost(a, x) == 0
    decreases |a|
  {
    if a == [] {
    } else {
      NoneAtMost(a[1..], x);
    }
  }

  /** Whatever sorts the two programs use, they select the same order statistics: the clamp on
      the index never acts; p50 and p99 are samples with p50 <= p99; more than half of the samples
      are at most p50 and more than 99% at most p99, and for no smaller value is that so. */
  lemma PercentilesAgree(samples: seq<int>, a: seq<int>, b: seq<int>)
    requires samples != [] && SortOf(a, samples) && SortOf(b, samples)
    ensures a == b && |a| == |samples|
    ensures |a| * 99 / 100 <= |a| - 1
    ensures RustP50(a) <= RustP99(a)
    ensures RustP50(a) in samples && RustP99(a) in samples
    ensures AtMost(a, RustP50(a)) * 2 > |a| && AtMost(a, RustP99(a)) * 100 > |a| * 99
    ensures forall x | x < RustP50(a) :: AtMost(a, x) * 2 <= |a|
    ensures forall x | x < RustP99(a) :: AtMost(a, x) * 100 <= |a| * 99
  {
    SortIsUnique(a, b);
    assert |a| == |multiset(a)| == |multiset(samples)| == |samples|;
    var i, j := |a| / 2, |a| * 99 / 100;
    assert a[i] in multiset(a) && a[j] in multiset(a);
    assert a[i] in multiset(samples) && a[j] in multiset(samples);
    AtMostOfSorted(a, i, a[i]);
    AtMostOfSorted(a, j, a[j]);
    forall x | x < a[i] ensures AtMost(a, x) * 2 <= |a| { AtMostBelow(a, i, x); }
    forall x | x < a[j] ensures AtMost(a, x) * 100 <= |a| * 99 { AtMostBelow(a, j, x); }
  }
}

/** The end of `parse_schedule` (scrape.py): the provisional programmes are
    sorted by start, each stop is set to the next start (the last one to
    the following midnight), degenerate entries are dropped and repeated
    entries removed.

    A programme's dedup key `(start, stop, title)` is all of the model's
    `Programme`, so the set of keys seen is a set of programmes. */
module Finalizer {
  import opened Calendar
  import opened Timeline

  predicate SortedByStart(s: seq<Programme>) {
    forall k, l :: 0 <= k < l < |s| ==> s[k].start <= s[l].start
  }

  /** The entries of `s` that start at `v`, in order. */
  function StartingAt(s: seq<Programme>, v: int): (r: seq<Programme>)
    ensures forall k :: 0 <= k < |r| ==> r[k].start == v
  {
    if |s| == 0 then []
    else (if s[0].start == v then [s[0]] else []) + StartingAt(s[1..], v)
  }

  /** Puts `x` after every entry that starts no later than it. */
  function Insert(x: Programme, s: seq<Programme>): (r: seq<Programme>)
    ensures |r| == |s| + 1
  {
    if |s| == 0 then [x]
    else if x.start < s[0].start then [x] + s
    else [s[0]] + Insert(x, s[1..])
  }

  /** `programmes.sort(key=lambda p: p.start)`: Python's sort is stable, so
      it is modelled as an insertion sort that keeps entries with equal
      starts in their original order. */
  function SortByStart(s: seq<Programme>): (r: seq<Programme>)
    ensures |r| == |s|
  {
    if |s| == 0 then [] else Insert(s[|s| - 1], SortByStart(s[..|s| - 1]))
  }

  lemma {:induction false} InsertPermutation(x: Programme, s: seq<Programme>)
    ensures multiset(Insert(x, s)) == multiset(s) + multiset{x}
  {
    if |s| > 0 && x.start >= s[0].start {
      InsertPermutation(x, s[1..]);
      assert s == [s[0]] + s[1..];
    }
  }

  /** Inserting keeps every start at or above a common lower bound. */
  lemma {:induction false} InsertBound(x: Programme, s: seq<Programme>, b: int)
    requires b <= x.start && forall k :: 0 <= k < |s| ==> b <= s[k].start
    ensures forall k :: 0 <= k < |s| + 1 ==> b <= Insert(x, s)[k].start
  {
    if |s| > 0 && x.start >= s[0].start {
      InsertBound(x, s[1..], b);
    }
  }

  lemma {:induction false} InsertSorted(x: Programme, s: seq<Programme>)
    requires SortedByStart(s)
    ensures SortedByStart(Insert(x, s))
  {
    if |s| > 0 && x.start >= s[0].start {
      var rest := Insert(x, s[1..]);
      InsertSorted(x, s[1..]);
      InsertBound(x, s[1..], s[0].start);
      var r := [s[0]] + rest;
      forall k, l | 0 <= k < l < |r|
        ensures r[k].start <= r[l].start
      {
        if k > 0 {
          assert r[k] == rest[k - 1] && r[l] == rest[l - 1];
        }
      }
    }
  }

  /** The sorted sequence is ordered by start. */
  lemma {:induction false} SortSorted(s: seq<Programme>)
    ensures SortedByStart(SortByStart(s))
  {
    if |s| > 0 {
      SortSorted(s[..|s| - 1]);
      InsertSorted(s[|s| - 1], SortByStart(s[..|s| - 1]));
    }
  }

  lemma MultisetSnoc(s: seq<Programme>)
    requires |s| > 0
    ensures multiset(s) == multiset(s[..|s| - 1]) + multiset{s[|s| - 1]}
  {
    assert s == s[..|s| - 1] + [s[|s| - 1]];
  }

  /** The sorted sequence is a permutation of the input. */
  lemma {:induction false} SortPermutation(s: seq<Programme>)
    ensures multiset(SortByStart(s)) == multiset(s)
  {
    if |s| > 0 {
      var init := s[..|s| - 1];
      SortPermutation(init);
      InsertPermutation(s[|s| - 1], SortByStart(init));
      MultisetSnoc(s);
    }
  }

  lemma {:induction false} StartingAtAppend(a: seq<Programme>, b: seq<Programme>, v: int)
    ensures StartingAt(a + b, v) == StartingAt(a, v) + StartingAt(b, v)
  {
    if |a| > 0 {
      assert (a + b)[0] == a[0];
      assert (a + b)[1..] == a[1..] + b;
      StartingAtAppend(a[1..], b, v);
    } else {
      assert a + b == b;
    }
  }

  lemma {:induction false} StartingAtInsert(x: Programme, s: seq<Programme>, v: int)
    requires SortedByStart(s)
    ensures StartingAt(Insert(x, s), v) == StartingAt(s, v) + (if x.start == v then [x] else [])
  {
    if |s| == 0 {
    } else if x.start < s[0].start {
      if x.start == v {
        StartingAtAbove(s, v);
      }
      assert StartingAt([x] + s, v) == (if x.start == v then [x] else []) + StartingAt(s, v) by {
        assert ([x] + s)[1..] == s;
      }
    } else {
      var rest := Insert(x, s[1..]);
      SortedTail(s);
      StartingAtInsert(x, s[1..], v);
      var head := if s[0].start == v then [s[0]] else [];
      var tail := if x.start == v then [x] else [];
      assert ([s[0]] + rest)[1..] == rest;
      assert StartingAt([s[0]] + rest, v) == head + StartingAt(rest, v);
      assert head + (StartingAt(s[1..], v) + tail) == (head + StartingAt(s[1..], v)) + tail;
    }
  }

  lemma SortedTail(s: seq<Programme>)
    requires SortedByStart(s) && |s| > 0
    ensures SortedByStart(s[1..])
  {
    forall k, l | 0 <= k < l < |s| - 1
      ensures s[1..][k].start <= s[1..][l].start
    {
      assert s[1..][k] == s[k + 1] && s[1..][l] == s[l + 1];
    }
  }

  /** No entry of a sorted sequence starts before its first one. */
  lemma StartingAtAbove(s: seq<Programme>, v: int)
    requires SortedByStart(s) && |s| > 0 && v < s[0].start
    ensures StartingAt(s, v) == []
  {
    if |StartingAt(s, v)| > 0 {
      var e := StartingAt(s, v)[0];
      StartingAtFrom(s, v, e);
      assert false;
    }
  }

  /** Every entry `StartingAt` returns is an entry of `s`. */
  lemma {:induction false} StartingAtFrom(s: seq<Programme>, v: int, e: Programme)
    requires e in StartingAt(s, v)
    ensures e in s
  {
    if |s| > 0 {
      if e !in (if s[0].start == v then [s[0]] else []) {
        StartingAtFrom(s[1..], v, e);
      }
    }
  }

  /** The sort is stable: the entries with any given start keep their
      relative order. */
  lemma {:induction false} SortStable(s: seq<Programme>, v: int)
    ensures StartingAt(SortByStart(s), v) == StartingAt(s, v)
  {
    if |s| > 0 {
      var init, x := s[..|s| - 1], s[|s| - 1];
      SortStable(init, v);
      SortSorted(init);
      StartingAtInsert(x, SortByStart(init), v);
      assert s == init + [x];
      StartingAtAppend(init, [x], v);
      assert StartingAt([x], v) == (if x.start == v then [x] else []) + StartingAt([], v);
    }
  }

  /** The stop the `for idx` loop gives entry `k`: the next entry's start,
      or for the last entry midnight of the day after its start. */
  function StopFor(s: seq<Programme>, k: nat): int
    requires k < |s|
  {
    if k + 1 < |s| then s[k + 1].start else NextMidnight(s[k].start)
  }

  /** The programmes with their stops set. */
  function WithStops(s: seq<Programme>): (r: seq<Programme>)
    ensures |r| == |s|
  {
    seq(|s|, k requires 0 <= k < |s| => s[k].(stop := StopFor(s, k)))
  }

  /** What the filter keeps: a non-empty title and a positive duration. */
  predicate Kept(p: Programme) {
    |p.title| > 0 && p.stop > p.start
  }

  /** `[p for p in programmes if p.title and p.stop > p.start]`. */
  function KeepValid(s: seq<Programme>): (r: seq<Programme>)
    ensures |r| <= |s|
  {
    if |s| == 0 then []
    else
      var earlier := KeepValid(s[..|s| - 1]);
      if Kept(s[|s| - 1]) then earlier + [s[|s| - 1]] else earlier
  }

  function Elements(s: seq<Programme>): set<Programme> {
    set p | p in s
  }

  /** The dedup loop: an entry is appended when its key is not among those
      of the entries kept before it. */
  function Dedup(s: seq<Programme>): (r: seq<Programme>)
    ensures |r| <= |s|
  {
    if |s| == 0 then []
    else
      var earlier := Dedup(s[..|s| - 1]);
      if s[|s| - 1] in Elements(earlier) then earlier else earlier + [s[|s| - 1]]
  }

  /** The finalizing part of `parse_schedule`, with its early return. */
  function Finalize(provisional: seq<Programme>): seq<Programme> {
    var sorted := SortByStart(provisional);
    if |sorted| == 0 then sorted else Dedup(KeepValid(WithStops(sorted)))
  }

  predicate Distinct(s: seq<Programme>) {
    forall k, l :: 0 <= k < l < |s| ==> s[k] != s[l]
  }

  /** `a` is `b` with some entries left out, the rest in order. */
  predicate Subsequence(a: seq<Programme>, b: seq<Programme>)
    decreases |b|
  {
    if |a| == 0 then true
    else if |b| == 0 then false
    else
      var matched := a[|a| - 1] == b[|b| - 1] && Subsequence(a[..|a| - 1], b[..|b| - 1]);
      matched || Subsequence(a, b[..|b| - 1])
  }

  /** The filter keeps exactly the entries with a title and a positive
      duration, in order. */
  lemma KeepValidContents(s: seq<Programme>)
    ensures forall x :: x in KeepValid(s) <==> x in s && Kept(x)
    ensures Subsequence(KeepValid(s), s)
    ensures forall x :: multiset(KeepValid(s))[x] == if Kept(x) then multiset(s)[x] else 0
  {
    KeepValidCounts(s);
    KeepValidOrder(s);
  }

  /** Each entry appears in the filtered sequence as often as in the input
      when it is kept, and not at all otherwise. */
  lemma {:induction false} KeepValidCounts(s: seq<Programme>)
    ensures forall x :: multiset(KeepValid(s))[x] == if Kept(x) then multiset(s)[x] else 0
  {
    if |s| > 0 {
      var init := s[..|s| - 1];
      KeepValidCounts(init);
      MultisetSnoc(s);
      var r := KeepValid(s);
      if Kept(s[|s| - 1]) {
        assert r[..|r| - 1] == KeepValid(init);
        MultisetSnoc(r);
      }
    }
  }

  /** The filtered entries keep their order. */
  lemma {:induction false} KeepValidOrder(s: seq<Programme>)
    ensures Subsequence(KeepValid(s), s)
  {
    if |s| > 0 {
      var init := s[..|s| - 1];
      KeepValidOrder(init);
      assert s == init + [s[|s| - 1]];
    }
  }

  /** The filter changes nothing when every entry passes it. */
  lemma {:induction false} KeepValidAllKept(s: seq<Programme>)
    requires forall k :: 0 <= k < |s| ==> Kept(s[k])
    ensures KeepValid(s) == s
  {
    if |s| > 0 {
      KeepValidAllKept(s[..|s| - 1]);
      assert s == s[..|s| - 1] + [s[|s| - 1]];
    }
  }

  /** Dedup keeps one entry for each key of its input. */
  lemma {:induction false} DedupElements(s: seq<Programme>)
    ensures Elements(Dedup(s)) == Elements(s)
  {
    if |s| > 0 {
      var init, x := s[..|s| - 1], s[|s| - 1];
      DedupElements(init);
      assert s == init + [x];
      assert Elements(s) == Elements(init) + {x};
    }
  }

  /** Dedup never keeps a key twice. */
  lemma {:induction false} DedupDistinct(s: seq<Programme>)
    ensures Distinct(Dedup(s))
  {
    if |s| > 0 {
      var init, x := s[..|s| - 1], s[|s| - 1];
      DedupDistinct(init);
      var earlier := Dedup(init);
      if x !in Elements(earlier) {
        var r := earlier + [x];
        forall k, l | 0 <= k < l < |r|
          ensures r[k] != r[l]
        {
          if l == |r| - 1 {
            assert r[k] == earlier[k];
            assert earlier[k] in Elements(earlier);
          } else {
            assert r[k] == earlier[k] && r[l] == earlier[l];
          }
        }
      }
    }
  }

  /** Dedup's output is its input with entries left out, in order. */
  lemma {:induction false} DedupSubsequence(s: seq<Programme>)
    ensures Subsequence(Dedup(s), s)
  {
    if |s| > 0 {
      var init, x := s[..|s| - 1], s[|s| - 1];
      DedupSubsequence(init);
      var earlier := Dedup(init);
      if x !in Elements(earlier) {
        assert (earlier + [x])[..|earlier|] == earlier;
      }
    }
  }

  /** Dedup keeps the first entry with each key: an entry is appended
      exactly when it did not occur before. */
  lemma DedupKeepsFirst(s: seq<Programme>, x: Programme)
    ensures Dedup(s + [x]) == if x in s then Dedup(s) else Dedup(s) + [x]
  {
    DedupElements(s);
    assert (s + [x])[..|s|] == s;
  }

  /** Dedup removes nothing from a sequence without repeated entries. */
  lemma {:induction false} DedupOfDistinct(s: seq<Programme>)
    requires Distinct(s)
    ensures Dedup(s) == s
  {
    if |s| > 0 {
      var init, x := s[..|s| - 1], s[|s| - 1];
      assert Distinct(init);
      DedupOfDistinct(init);
      assert x !in init;
      assert s == init + [x];
    }
  }

  /** Sorted, and each stop but the last is the next entry's start. */
  predicate Linked(w: seq<Programme>) {
    SortedByStart(w) && forall k :: 0 <= k < |w| - 1 ==> w[k].stop == w[k + 1].start
  }

  /** Each entry stops no later than every later entry starts. */
  predicate Chained(r: seq<Programme>) {
    forall k, l :: 0 <= k < l < |r| ==> r[k].stop <= r[l].start
  }

  predicate StrictlyIncreasing(r: seq<Programme>) {
    forall k, l :: 0 <= k < l < |r| ==> r[k].start < r[l].start
  }

  /** Each entry stops exactly where the next one starts. */
  predicate Contiguous(r: seq<Programme>) {
    forall k :: 0 <= k < |r| - 1 ==> r[k].stop == r[k + 1].start
  }

  /** Setting the stops of a sorted sequence keeps the starts, titles and
      order, links each entry to the next, and ends the last at the
      following midnight. */
  lemma WithStopsLinked(s: seq<Programme>)
    requires SortedByStart(s)
    ensures Linked(WithStops(s))
    ensures forall k :: 0 <= k < |s| ==>
      WithStops(s)[k].start == s[k].start && WithStops(s)[k].title == s[k].title
    ensures |s| > 0 ==> WithStops(s)[|s| - 1].stop == NextMidnight(s[|s| - 1].start)
  {
  }

  /** Among the entries of a linked sequence the filter keeps, each stops
      no later than any later one starts, and no later than the next
      unexamined entry starts. */
  lemma {:induction false} KeptChain(w: seq<Programme>, n: nat)
    requires Linked(w) && n <= |w|
    ensures Chained(KeepValid(w[..n]))
    ensures n < |w| ==> forall k :: 0 <= k < |KeepValid(w[..n])| ==> KeepValid(w[..n])[k].stop <= w[n].start
  {
    if n > 0 {
      KeptChain(w, n - 1);
      assert w[..n][..n - 1] == w[..n - 1];
      var earlier := KeepValid(w[..n - 1]);
      var r := KeepValid(w[..n]);
      if Kept(w[n - 1]) {
        assert r == earlier + [w[n - 1]];
        forall k, l | 0 <= k < l < |r|
          ensures r[k].stop <= r[l].start
        {
          assert r[k] == earlier[k];
          if l < |r| - 1 {
            assert r[l] == earlier[l];
          }
        }
        if n < |w| {
          forall k | 0 <= k < |r|
            ensures r[k].stop <= w[n].start
          {
            if k < |r| - 1 {
              assert r[k] == earlier[k];
            }
          }
        }
      }
    }
  }

  /** Kept entries with chained stops have strictly increasing starts, so
      none repeats. */
  lemma ChainedIncreasing(r: seq<Programme>)
    requires Chained(r) && forall k :: 0 <= k < |r| ==> Kept(r[k])
    ensures StrictlyIncreasing(r) && Distinct(r)
  {
    forall k, l | 0 <= k < l < |r|
      ensures r[k].start < r[l].start
    {
      assert Kept(r[k]);
    }
  }

  /** With every title non-empty, the filter only drops entries that stop
      where they start, which start where the next one does; so what it
      keeps is still contiguous and the last kept entry stops where the
      last examined one does. */
  lemma {:induction false} KeptContiguous(w: seq<Programme>, n: nat)
    requires Linked(w) && n <= |w|
    requires forall k :: 0 <= k < |w| ==> |w[k].title| > 0 && w[k].start <= w[k].stop
    ensures Contiguous(KeepValid(w[..n]))
    ensures n > 0 && |KeepValid(w[..n])| > 0 ==> KeepValid(w[..n])[|KeepValid(w[..n])| - 1].stop == w[n - 1].stop
  {
    if n > 0 {
      KeptContiguous(w, n - 1);
      assert w[..n][..n - 1] == w[..n - 1];
      var earlier := KeepValid(w[..n - 1]);
      var r := KeepValid(w[..n]);
      if Kept(w[n - 1]) {
        assert r == earlier + [w[n - 1]];
        forall k | 0 <= k < |r| - 1
          ensures r[k].stop == r[k + 1].start
        {
          assert r[k] == earlier[k];
          if k + 1 < |r| - 1 {
            assert r[k + 1] == earlier[k + 1];
          }
        }
      } else if |earlier| > 0 {
        assert w[n - 1].stop == w[n - 1].start;
      }
    }
  }

  /** Every returned entry has a title and stops after it starts; starts
      strictly increase, each entry stopping no later than the next starts;
      and the dedup pass removes nothing. */
  lemma FinalizeOrdered(provisional: seq<Programme>)
    ensures var r := Finalize(provisional);
      (forall k :: 0 <= k < |r| ==> Kept(r[k])) && Chained(r) && StrictlyIncreasing(r)
    ensures |provisional| > 0 ==>
      Finalize(provisional) == KeepValid(WithStops(SortByStart(provisional)))
  {
    var sorted := SortByStart(provisional);
    if |sorted| > 0 {
      SortSorted(provisional);
      var w := WithStops(sorted);
      WithStopsLinked(sorted);
      KeptChain(w, |w|);
      assert w[..|w|] == w;
      var kept := KeepValid(w);
      KeepValidContents(w);
      assert forall k :: 0 <= k < |kept| ==> kept[k] in kept;
      ChainedIncreasing(kept);
      DedupOfDistinct(kept);
    }
  }

  /** Filtering and deduplicating the result again changes nothing. */
  lemma FinalizeIdempotent(provisional: seq<Programme>)
    ensures var r := Finalize(provisional); Dedup(KeepValid(r)) == r
  {
    var r := Finalize(provisional);
    FinalizeOrdered(provisional);
    KeepValidAllKept(r);
    ChainedIncreasing(r);
    DedupOfDistinct(r);
  }

  /** Nothing in, nothing out. */
  lemma FinalizeEmpty(provisional: seq<Programme>)
    ensures |provisional| == 0 <==> |SortByStart(provisional)| == 0
    ensures |provisional| == 0 ==> Finalize(provisional) == []
  {
  }

  /** An entry of one of two permutations of each other is an entry of
      the other. */
  lemma SameEntries(a: seq<Programme>, b: seq<Programme>, k: nat) returns (m: nat)
    requires multiset(a) == multiset(b) && k < |a|
    ensures m < |b| && b[m] == a[k]
  {
    assert a[k] in multiset(b);
    m :| 0 <= m < |b| && b[m] == a[k];
  }

  /** Sorting keeps every title non-empty when all were. */
  lemma SortedTitles(provisional: seq<Programme>)
    requires forall k :: 0 <= k < |provisional| ==> |provisional[k].title| > 0
    ensures forall k :: 0 <= k < |SortByStart(provisional)| ==> |SortByStart(provisional)[k].title| > 0
  {
    var sorted := SortByStart(provisional);
    SortPermutation(provisional);
    forall k | 0 <= k < |sorted|
      ensures |sorted[k].title| > 0
    {
      var m := SameEntries(sorted, provisional, k);
    }
  }

  /** For sorted entries with non-empty titles, what the filter keeps of
      the linked sequence is contiguous. */
  lemma KeptLinked(sorted: seq<Programme>)
    requires SortedByStart(sorted)
    requires forall k :: 0 <= k < |sorted| ==> |sorted[k].title| > 0
    ensures Contiguous(KeepValid(WithStops(sorted)))
  {
    var w := WithStops(sorted);
    WithStopsLinked(sorted);
    assert forall k :: 0 <= k < |w| ==> |w[k].title| > 0 && w[k].start <= w[k].stop;
    KeptContiguous(w, |w|);
    assert w[..|w|] == w;
  }

  /** The filter always keeps the last entry, whose stop is the next
      midnight, when its title is non-empty. */
  lemma KeptLast(sorted: seq<Programme>)
    requires |sorted| > 0 && |sorted[|sorted| - 1].title| > 0
    ensures KeepValid(WithStops(sorted)) == KeepValid(WithStops(sorted)[..|sorted| - 1]) + [WithStops(sorted)[|sorted| - 1]]
  {
    var w := WithStops(sorted);
    assert w[|w| - 1].stop == NextMidnight(w[|w| - 1].start);
    assert Kept(w[|w| - 1]);
  }

  /** When every provisional title is non-empty: each returned entry stops
      where the next starts, some entry is returned when any was given, and
      the last one is the last of the sorted entries, stopping at the
      following midnight. */
  lemma FinalizeContiguous(provisional: seq<Programme>)
    requires forall k :: 0 <= k < |provisional| ==> |provisional[k].title| > 0
    ensures Contiguous(Finalize(provisional))
    ensures |provisional| > 0 ==>
      var r := Finalize(provisional);
      var sorted := SortByStart(provisional);
      |r| > 0 && r[|r| - 1].start == sorted[|sorted| - 1].start
      && r[|r| - 1].stop == NextMidnight(r[|r| - 1].start)
  {
    var sorted := SortByStart(provisional);
    if |sorted| > 0 {
      FinalizeOrdered(provisional);
      SortSorted(provisional);
      SortedTitles(provisional);
      KeptLinked(sorted);
      KeptLast(sorted);
      WithStopsLinked(sorted);
    }
  }

  /** The last returned entry is the latest-starting provisional one. */
  lemma FinalizeLatest(provisional: seq<Programme>)
    requires forall k :: 0 <= k < |provisional| ==> |provisional[k].title| > 0
    requires |provisional| > 0
    ensures var r := Finalize(provisional);
      |r| > 0 && forall k :: 0 <= k < |provisional| ==> provisional[k].start <= r[|r| - 1].start
  {
    FinalizeContiguous(provisional);
    SortedLast(provisional);
  }

  /** The last entry of the sorted sequence starts no earlier than any
      provisional entry. */
  lemma SortedLast(provisional: seq<Programme>)
    requires |provisional| > 0
    ensures var sorted := SortByStart(provisional);
      forall k :: 0 <= k < |provisional| ==> provisional[k].start <= sorted[|sorted| - 1].start
  {
    var sorted := SortByStart(provisional);
    SortSorted(provisional);
    SortPermutation(provisional);
    forall k | 0 <= k < |provisional|
      ensures provisional[k].start <= sorted[|sorted| - 1].start
    {
      var m := SameEntries(provisional, sorted, k);
      if m < |sorted| - 1 {
        assert sorted[m].start <= sorted[|sorted| - 1].start;
      }
    }
  }

  /** With non-empty titles, the last returned entry starts where some
      provisional entry does and stops at the following midnight. */
  lemma FinalizeLastFrom(provisional: seq<Programme>) returns (m: nat)
    requires forall k :: 0 <= k < |provisional| ==> |provisional[k].title| > 0
    requires |provisional| > 0
    ensures m < |provisional| && |Finalize(provisional)| > 0
    ensures Finalize(provisional)[|Finalize(provisional)| - 1].start == provisional[m].start
    ensures Finalize(provisional)[|Finalize(provisional)| - 1].stop == NextMidnight(provisional[m].start)
  {
    var sorted := SortByStart(provisional);
    FinalizeContiguous(provisional);
    SortPermutation(provisional);
    m := SameEntries(sorted, provisional, |sorted| - 1);
  }

  /** The last returned entry stops at 00:00 on the calendar day after the
      date it starts on. */
  lemma FinalizeRollover(provisional: seq<Programme>, d: Date, t: TimeOfDay)
    requires forall k :: 0 <= k < |provisional| ==> |provisional[k].title| > 0
    requires |provisional| > 0 && ValidDate(d) && ValidTime(t)
    requires var r := Finalize(provisional); |r| > 0 && r[|r| - 1].start == Combine(d, t)
    ensures var r := Finalize(provisional); r[|r| - 1].stop == Combine(AddDays(d, 1), TimeOfDay(0, 0))
  {
    FinalizeContiguous(provisional);
    NextMidnightIsNextDay(d, t);
  }

  /** The `for idx in range(len(programmes))` loop: each entry's stop is
      set in place, reading the next entry's start before it changes. */
  method SetStops(a: array<Programme>)
    modifies a
    ensures a[..] == WithStops(old(a[..]))
  {
    ghost var before := a[..];
    for idx := 0 to a.Length
      invariant a[..idx] == WithStops(before)[..idx]
      invariant a[idx..] == before[idx..]
    {
      assert a[idx] == before[idx];
      if idx + 1 < a.Length {
        assert a[idx + 1] == before[idx + 1];
        a[idx] := a[idx].(stop := a[idx + 1].start);
      } else {
        a[idx] := a[idx].(stop := NextMidnight(a[idx].start));
      }
      assert a[..idx + 1] == a[..idx] + [a[idx]];
      assert WithStops(before)[..idx + 1] == WithStops(before)[..idx] + [WithStops(before)[idx]];
    }
    assert a[..] == a[..a.Length];
  }

  /** The dedup loop over `programmes` with its `seen` set of keys. */
  method DedupProgrammes(programmes: seq<Programme>) returns (deduped: seq<Programme>)
    ensures deduped == Dedup(programmes)
  {
    deduped := [];
    var seen: set<Programme> := {};
    for i := 0 to |programmes|
      invariant deduped == Dedup(programmes[..i])
      invariant seen == Elements(deduped)
    {
      var p := programmes[i];
      assert programmes[..i + 1][..i] == programmes[..i];
      if p in seen {
        continue;
      }
      seen := seen + {p};
      deduped := deduped + [p];
    }
    assert programmes[..|programmes|] == programmes;
  }

  /** The finalizing part of `parse_schedule`: sort, early return, stop
      assignment, filter and dedup. */
  method FinalizeTimeline(provisional: seq<Programme>) returns (r: seq<Programme>)
    ensures r == Finalize(provisional)
  {
    var sorted := SortByStart(provisional);
    if |sorted| == 0 {
      return sorted;
    }
    var a := new Programme[|sorted|](k requires 0 <= k < |sorted| => sorted[k]);
    assert a[..] == sorted;
    SetStops(a);
    var kept := KeepValid(a[..]);
    r := DedupProgrammes(kept);
  }
}

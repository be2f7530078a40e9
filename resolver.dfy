/** The section date resolver: a page header names a weekday and a day of
    the month but no month, and the resolver picks a nearby date that has
    both, closest to today (scrape.py, `choose_date_for_section`). */
module DateResolver {
  import opened Wrappers
  import opened Calendar

  /** The month offsets tried, in this order. */
  const Offsets: seq<int> := [-1, 0, 1]

  /** The date `first_of_month + timedelta(days=31 * offset)`, whose year
      and month are the ones examined for `offset`. */
  function Probe(today: Date, offset: int): (r: Date)
    requires ValidDate(today)
    ensures ValidDate(r)
  {
    AddDays(Date(today.year, today.month, 1), 31 * offset)
  }

  /** The date examined for `offset`, when it exists and falls on the
      target weekday. */
  function CandidateAt(targetWeekday: int, targetDay: int, today: Date, offset: int): (r: Option<Date>)
    requires ValidDate(today)
    ensures r.Some? ==> ValidDate(r.value) && r.value.day == targetDay && Weekday(r.value) == targetWeekday
    ensures var p := Probe(today, offset);
      ValidDate(Date(p.year, p.month, targetDay)) && Weekday(Date(p.year, p.month, targetDay)) == targetWeekday
      ==> r == Some(Date(p.year, p.month, targetDay))
    ensures r.Some? ==> (r.value.year, r.value.month) == (Probe(today, offset).year, Probe(today, offset).month)
  {
    var probe := Probe(today, offset);
    var d := Date(probe.year, probe.month, targetDay);
    if ValidDate(d) && Weekday(d) == targetWeekday then Some(d) else None
  }

  /** What each offset contributes, in the order the offsets are tried. */
  function Outcomes(targetWeekday: int, targetDay: int, today: Date): seq<Option<Date>>
    requires ValidDate(today)
  {
    seq(|Offsets|, k requires 0 <= k < |Offsets| => CandidateAt(targetWeekday, targetDay, today, Offsets[k]))
  }

  function AsList<T>(o: Option<T>): seq<T> {
    match o
    case Some(x) => [x]
    case None => []
  }

  /** The values present in `opts`, in order: the `candidates` list built by
      appending the date of each offset that has one. */
  function Somes<T>(opts: seq<Option<T>>): seq<T> {
    if opts == [] then [] else Somes(opts[..|opts| - 1]) + AsList(opts[|opts| - 1])
  }

  lemma SomesStep<T>(opts: seq<Option<T>>, k: nat)
    requires k < |opts|
    ensures Somes(opts[..k + 1]) == Somes(opts[..k]) + AsList(opts[k])
  {
    assert opts[..k + 1][..k] == opts[..k];
  }

  /** The value at offset `k` sits in the list at the number of values
      before it. */
  lemma {:induction false} SomesAt<T>(opts: seq<Option<T>>, k: nat)
    requires k < |opts| && opts[k].Some?
    ensures |Somes(opts[..k])| < |Somes(opts)|
    ensures Somes(opts)[|Somes(opts[..k])|] == opts[k].value
    decreases |opts|
  {
    var n := |opts| - 1;
    assert opts[..n + 1] == opts;
    SomesStep(opts, n);
    if k < n {
      SomesAt(opts[..n], k);
      assert opts[..n][..k] == opts[..k];
    }
  }

  /** Later offsets sit later in the list. */
  lemma {:induction false} SomesMonotone<T>(opts: seq<Option<T>>, k: nat, l: nat)
    requires k < l <= |opts| && opts[k].Some?
    ensures |Somes(opts[..k])| < |Somes(opts[..l])|
    decreases l - k
  {
    SomesStep(opts, l - 1);
    if k < l - 1 {
      SomesMonotone(opts, k, l - 1);
    }
  }

  /** Every value in the list comes from some offset. */
  lemma {:induction false} SomesOrigin<T>(opts: seq<Option<T>>, i: nat)
    requires i < |Somes(opts)|
    ensures exists k :: 0 <= k < |opts| && opts[k].Some? && |Somes(opts[..k])| == i
    decreases |opts|
  {
    var n := |opts| - 1;
    assert opts[..n + 1] == opts;
    SomesStep(opts, n);
    if i < |Somes(opts[..n])| {
      SomesOrigin(opts[..n], i);
      var k :| 0 <= k < n && opts[..n][k].Some? && |Somes(opts[..n][..k])| == i;
      assert opts[..n][..k] == opts[..k];
    } else {
      assert opts[n].Some? && |Somes(opts[..n])| == i;
    }
  }

  /** The examined dates that passed both tests. */
  function Candidates(targetWeekday: int, targetDay: int, today: Date): (c: seq<Date>)
    requires ValidDate(today)
    ensures forall i :: 0 <= i < |c| ==> ValidDate(c[i])
    ensures forall i :: 0 <= i < |c| ==> c[i].day == targetDay && Weekday(c[i]) == targetWeekday
  {
    var opts := Outcomes(targetWeekday, targetDay, today);
    var c := Somes(opts);
    forall i | 0 <= i < |c|
      ensures ValidDate(c[i]) && c[i].day == targetDay && Weekday(c[i]) == targetWeekday
    {
      SomesOrigin(opts, i);
      var k :| 0 <= k < |opts| && opts[k].Some? && |Somes(opts[..k])| == i;
      SomesAt(opts, k);
    }
    c
  }

  /** `abs((d - today).days)` */
  function Distance(d: Date, today: Date): nat {
    var delta := ToOrdinal(d) - ToOrdinal(today);
    if delta < 0 then -delta else delta
  }

  /** The sort key `distance` of `choose_date_for_section`. */
  function DistanceFrom(today: Date): Date -> nat {
    d => Distance(d, today)
  }

  /** The key of each element, in order. */
  function KeysOf<T>(xs: seq<T>, key: T -> nat): (keys: seq<nat>)
    ensures |keys| == |xs|
  {
    seq(|xs|, i requires 0 <= i < |xs| => key(xs[i]))
  }

  /** The index of the first least key, which is the element a stable sort
      by that key puts first. */
  function FirstLeast(keys: seq<nat>): (j: nat)
    requires |keys| > 0
    ensures j < |keys|
    ensures forall i :: 0 <= i < |keys| ==> keys[j] <= keys[i]
    ensures forall i :: 0 <= i < j ==> keys[i] > keys[j]
  {
    if |keys| == 1 then 0
    else
      var j := FirstLeast(keys[..|keys| - 1]);
      if keys[|keys| - 1] < keys[j] then |keys| - 1 else j
  }

  /** One more key either takes over as the first least one or does not. */
  lemma FirstLeastStep(keys: seq<nat>, k: nat)
    requires 0 < k < |keys|
    ensures FirstLeast(keys[..k + 1])
         == if keys[k] < keys[FirstLeast(keys[..k])] then k else FirstLeast(keys[..k])
  {
    assert keys[..k + 1][..k] == keys[..k];
  }

  /** The resolver's answer, including the fallback taken when no examined
      month has the target day on the target weekday. */
  function ResolveDate(targetWeekday: int, targetDay: int, today: Date): (r: Date)
    requires ValidDate(today)
    ensures ValidDate(r)
    ensures r.day == targetDay || r == today
  {
    var c := Candidates(targetWeekday, targetDay, today);
    if |c| == 0 then
      var d := Date(today.year, today.month, targetDay);
      if ValidDate(d) then d else today
    else
      c[FirstLeast(KeysOf(c, DistanceFrom(today)))]
  }

  /** The first loop of `choose_date_for_section`: try each offset and
      keep the dates that exist and fall on the target weekday. */
  method CollectCandidates(targetWeekday: int, targetDay: int, today: Date) returns (candidates: seq<Date>)
    requires ValidDate(today)
    ensures candidates == Candidates(targetWeekday, targetDay, today)
  {
    ghost var opts := Outcomes(targetWeekday, targetDay, today);
    candidates := [];
    for k := 0 to |Offsets|
      invariant candidates == Somes(opts[..k])
    {
      SomesStep(opts, k);
      assert opts[k] == CandidateAt(targetWeekday, targetDay, today, Offsets[k]);
      var approx := Probe(today, Offsets[k]);
      var d := Date(approx.year, approx.month, targetDay);
      if !ValidDate(d) {
        assert opts[k] == None;
        continue;
      }
      if Weekday(d) == targetWeekday {
        candidates := candidates + [d];
      }
    }
    assert opts[..|Offsets|] == opts;
  }

  method ChooseDateForSection(targetWeekday: int, targetDay: int, today: Date) returns (r: Date)
    requires ValidDate(today)
    ensures r == ResolveDate(targetWeekday, targetDay, today)
  {
    var candidates := CollectCandidates(targetWeekday, targetDay, today);
    if |candidates| == 0 {
      // Fallback: the current month, even if the weekday does not match.
      var d := Date(today.year, today.month, targetDay);
      if ValidDate(d) {
        return d;
      }
      return today;
    }

    var best := NearestCandidate(candidates, today);
    r := candidates[best];
  }

  /** `candidates.sort(key=distance)` followed by `candidates[0]`: the sort
      is stable, so this is the index of the first candidate of least
      distance from today. */
  method NearestCandidate(candidates: seq<Date>, today: Date) returns (best: nat)
    requires |candidates| > 0
    ensures best == FirstLeast(KeysOf(candidates, DistanceFrom(today)))
  {
    ghost var keys := KeysOf(candidates, DistanceFrom(today));
    best := 0;
    for k := 1 to |candidates|
      invariant best < k
      invariant best == FirstLeast(keys[..k])
    {
      FirstLeastStep(keys, k);
      var dk, dbest := Distance(candidates[k], today), Distance(candidates[best], today);
      assert dk == keys[k] && dbest == keys[best];
      if dk < dbest {
        best := k;
      }
    }
    assert keys[..|candidates|] == keys;
  }

  /** The previous and next calendar months. */
  function PreviousMonth(y: int, m: int): (int, int) {
    if m == 1 then (y - 1, 12) else (y, m - 1)
  }

  function NextMonth(y: int, m: int): (int, int) {
    if m == 12 then (y + 1, 1) else (y, m + 1)
  }

  /** Offset 0 examines the current month. */
  lemma MonthWindowCurrent(today: Date)
    requires ValidDate(today)
    ensures var p := Probe(today, 0); (p.year, p.month) == (today.year, today.month)
  {
  }

  /** Offset +1 examines the next calendar month. */
  lemma MonthWindowNext(today: Date)
    requires ValidDate(today)
    ensures var p := Probe(today, 1); (p.year, p.month) == NextMonth(today.year, today.month)
  {
    var first := Date(today.year, today.month, 1);
    var (ny, nm) := NextMonth(today.year, today.month);
    var len := DaysInMonth(today.year, today.month);
    var next := FirstOfNextMonth(first);
    assert next == Date(ny, nm, 1);
    SameMonthOrdinal(first, len);
    NextMonthOrdinal(first);
    assert ToOrdinal(next) == ToOrdinal(first) + len;
    SameMonthOrdinal(next, 32 - len);
    assert ToOrdinal(Date(ny, nm, 32 - len)) == ToOrdinal(first) + 31;
    AddDaysUnique(first, 31, Date(ny, nm, 32 - len));
  }

  /** Offset -1 examines the month holding the date 31 days before the
      first of this one: the previous month when it has 31 days, otherwise
      the month before that. */
  lemma MonthWindowPrevious(today: Date)
    requires ValidDate(today)
    ensures var p := Probe(today, -1);
      var (py, pm) := PreviousMonth(today.year, today.month);
      (p.year, p.month) == if DaysInMonth(py, pm) == 31 then (py, pm) else PreviousMonth(py, pm)
  {
    var first := Date(today.year, today.month, 1);
    var (py, pm) := PreviousMonth(today.year, today.month);
    var plen := DaysInMonth(py, pm);
    SameMonthOrdinal(Date(py, pm, 1), plen);
    NextMonthOrdinal(Date(py, pm, 1));
    if plen == 31 {
      AddDaysUnique(first, -31, Date(py, pm, 1));
    } else {
      var (qy, qm) := PreviousMonth(py, pm);
      var qlen := DaysInMonth(qy, qm);
      SameMonthOrdinal(Date(qy, qm, 1), qlen);
      NextMonthOrdinal(Date(qy, qm, 1));
      SameMonthOrdinal(Date(qy, qm, qlen), qlen + plen - 30);
      AddDaysUnique(first, -31, Date(qy, qm, qlen + plen - 30));
    }
  }

  /** The offset whose value a stable sort by `key` puts first: its key is
      the least of all, and strictly less than that of every earlier offset
      with a value. */
  lemma FirstLeastOffset<T>(opts: seq<Option<T>>, key: T -> nat) returns (j: nat)
    requires |Somes(opts)| > 0
    ensures j < |opts| && opts[j] == Some(Somes(opts)[FirstLeast(KeysOf(Somes(opts), key))])
    ensures forall k :: 0 <= k < |opts| && opts[k].Some? ==> key(opts[j].value) <= key(opts[k].value)
    ensures forall k :: 0 <= k < j && opts[k].Some? ==> key(opts[j].value) < key(opts[k].value)
  {
    var c := Somes(opts);
    var keys := KeysOf(c, key);
    var first := FirstLeast(keys);
    SomesOrigin(opts, first);
    j :| 0 <= j < |opts| && opts[j].Some? && |Somes(opts[..j])| == first;
    SomesAt(opts, j);
    forall k | 0 <= k < |opts| && opts[k].Some?
      ensures key(opts[j].value) <= key(opts[k].value)
      ensures k < j ==> key(opts[j].value) < key(opts[k].value)
    {
      SomesAt(opts, k);
      if k < j {
        SomesMonotone(opts, k, j);
      }
      var i := |Somes(opts[..k])|;
      assert keys[i] == key(opts[k].value);
    }
  }

  /** The value a stable sort by distance puts first, among the values at
      the offsets, is at least as close to today as every other value and
      closer than every value of an earlier offset. */
  lemma NearestOffset(opts: seq<Option<Date>>, today: Date) returns (j: nat)
    requires |Somes(opts)| > 0
    ensures var c := Somes(opts);
      var r := c[FirstLeast(KeysOf(c, DistanceFrom(today)))];
      j < |opts| && opts[j] == Some(r)
        && (forall k :: 0 <= k < |opts| && opts[k].Some? ==>
              Distance(r, today) <= Distance(opts[k].value, today))
        && (forall k :: 0 <= k < j && opts[k].Some? ==>
              Distance(r, today) < Distance(opts[k].value, today))
  {
    var key := DistanceFrom(today);
    j := FirstLeastOffset(opts, key);
    var r := opts[j].value;
    forall k | 0 <= k < |opts| && opts[k].Some?
      ensures Distance(r, today) <= Distance(opts[k].value, today)
      ensures k < j ==> Distance(r, today) < Distance(opts[k].value, today)
    {
      assert key(r) == Distance(r, today);
      assert key(opts[k].value) == Distance(opts[k].value, today);
    }
  }

  /** The offsets examine months in order, so the candidate of a later
      offset is a later date. */
  lemma CandidatesAscend(targetWeekday: int, targetDay: int, today: Date, j: nat, k: nat)
    requires ValidDate(today)
    requires j < k < |Offsets|
    requires Outcomes(targetWeekday, targetDay, today)[j].Some?
    requires Outcomes(targetWeekday, targetDay, today)[k].Some?
    ensures ToOrdinal(Outcomes(targetWeekday, targetDay, today)[j].value)
          < ToOrdinal(Outcomes(targetWeekday, targetDay, today)[k].value)
  {
    var opts := Outcomes(targetWeekday, targetDay, today);
    var pj, pk := Probe(today, Offsets[j]), Probe(today, Offsets[k]);
    assert opts[j] == CandidateAt(targetWeekday, targetDay, today, Offsets[j]);
    assert opts[k] == CandidateAt(targetWeekday, targetDay, today, Offsets[k]);
    MonthsApart(pj, pk);
    assert MonthIndex(opts[j].value) == MonthIndex(pj);
    assert MonthIndex(opts[k].value) == MonthIndex(pk);
    LaterMonthOrdinal(opts[j].value, opts[k].value);
  }

  /** When some examined month has the target day on the target weekday,
      the result is such a date: the one closest to today, and of those at
      that distance the one of the earliest offset. */
  lemma ResolverMatch(targetWeekday: int, targetDay: int, today: Date)
    requires ValidDate(today)
    requires exists k :: 0 <= k < |Offsets| && Outcomes(targetWeekday, targetDay, today)[k].Some?
    ensures var r := ResolveDate(targetWeekday, targetDay, today);
      var opts := Outcomes(targetWeekday, targetDay, today);
      exists j :: 0 <= j < |Offsets| && opts[j] == Some(r)
        && (forall k :: 0 <= k < |Offsets| && opts[k].Some? ==>
              Distance(r, today) <= Distance(opts[k].value, today))
        && (forall k :: 0 <= k < j && opts[k].Some? ==>
              Distance(r, today) < Distance(opts[k].value, today))
  {
    var opts := Outcomes(targetWeekday, targetDay, today);
    var k0 :| 0 <= k0 < |Offsets| && opts[k0].Some?;
    SomesAt(opts, k0);
    var j := NearestOffset(opts, today);
  }

  /** Of two candidates equally close to today, one before and one after,
      the resolver takes the earlier date. */
  lemma ResolverTie(targetWeekday: int, targetDay: int, today: Date, k: nat)
    requires ValidDate(today)
    requires k < |Offsets| && Outcomes(targetWeekday, targetDay, today)[k].Some?
    requires Distance(Outcomes(targetWeekday, targetDay, today)[k].value, today)
          == Distance(ResolveDate(targetWeekday, targetDay, today), today)
    ensures ToOrdinal(ResolveDate(targetWeekday, targetDay, today))
         <= ToOrdinal(Outcomes(targetWeekday, targetDay, today)[k].value)
  {
    var opts := Outcomes(targetWeekday, targetDay, today);
    SomesAt(opts, k);
    var j := NearestOffset(opts, today);
    if j < k {
      CandidatesAscend(targetWeekday, targetDay, today, j, k);
    }
  }

  /** With no matching candidate the resolver takes the target day of the
      current month, or today itself when that day does not exist. */
  lemma ResolverFallback(targetWeekday: int, targetDay: int, today: Date)
    requires ValidDate(today)
    requires forall k :: 0 <= k < |Offsets| ==> Outcomes(targetWeekday, targetDay, today)[k].None?
    ensures var d := Date(today.year, today.month, targetDay);
      ResolveDate(targetWeekday, targetDay, today) == if ValidDate(d) then d else today
  {
    var opts := Outcomes(targetWeekday, targetDay, today);
    if |Somes(opts)| > 0 {
      SomesOrigin(opts, 0);
      assert false;
    }
  }
}

/** The scan loop of `parse_schedule` (scrape.py): it walks the lines,
    keeping the date of the current section and the start time waiting for
    its title, and emits a provisional programme, whose stop is its start,
    for each title line.

    Each line is first classified the way the loop tests it: a section
    header (with the date it sets), else a time line, else text. The scan
    itself is stated over the classification, so its proofs need neither
    the patterns nor the calendar. */
module Scanner {
  import opened Wrappers
  import opened Calendar
  import opened DateResolver
  import opened Timeline
  import opened LineSyntax

  /** What the loop sees in a line, in the order it looks. */
  datatype LineKind =
    | SectionLine(date: Option<Date>)
    | TimeLine(time: TimeOfDay)
    | TextLine

  /** The date a header sets: its weekday word looked up in `WEEKDAY_ES`,
      then resolved; none when the word is not a weekday. */
  function HeaderDate(h: Header, today: Date): (r: Option<Date>)
    requires ValidDate(today)
    ensures r.Some? <==> Lower(h.word) in WeekdayEs
    ensures r.Some? ==> ValidDate(r.value) && r.value == ResolveDate(WeekdayOf(h.word).value, h.day, today)
    ensures r.Some? ==> r.value.day == h.day || r.value == today
  {
    match WeekdayOf(h.word)
    case None => None
    case Some(wd) => Some(ResolveDate(wd, h.day, today))
  }

  /** `SECTION_RE.search` first, then `TIME_RE.match`. */
  function Classify(line: string, today: Date): (k: LineKind)
    requires ValidDate(today)
    ensures k.SectionLine? <==> SearchHeader(line).Some?
    ensures k.TimeLine? <==> SearchHeader(line).None? && ParseTime(line).Some?
    ensures k.TimeLine? ==> ParseTime(line) == Some(k.time)
    ensures k.SectionLine? ==> k.date == HeaderDate(SearchHeader(line).value, today)
    ensures ParseTime(line).Some? ==> k == TimeLine(ParseTime(line).value)
  {
    match SearchHeader(line)
    case Some(h) =>
      // Looking for a header first never hides a time line.
      assert ParseTime(line).None? by {
        if ParseTime(line).Some? {
          TimeLineIsNotHeader(line);
        }
      }
      SectionLine(HeaderDate(h, today))
    case None =>
      match ParseTime(line)
      case Some(t) => TimeLine(t)
      case None => TextLine
  }

  function Kinds(lines: seq<string>, today: Date): (kinds: seq<LineKind>)
    requires ValidDate(today)
    ensures |kinds| == |lines|
  {
    seq(|lines|, i requires 0 <= i < |lines| => Classify(lines[i], today))
  }

  /** `current_date`, `pending_start_time` and `programmes`. */
  datatype ScanState = ScanState(currentDate: Option<Date>, pending: Option<TimeOfDay>, programmes: seq<Programme>)

  /** `time(hh, mm)` raised ValueError on the time line at index `line`. */
  datatype ScanError = InvalidTime(line: nat, time: TimeOfDay)

  const Initial: ScanState := ScanState(None, None, [])

  /** One turn of the loop on the line at `index`, of kind `kind`. */
  function Step(st: ScanState, kind: LineKind, line: string, index: nat): Result<ScanState, ScanError> {
    match kind
    case SectionLine(date) => Success(ScanState(date, None, st.programmes))
    case _ =>
      if kind.TimeLine? && st.currentDate.Some? then
        if ValidTime(kind.time) then Success(st.(pending := Some(kind.time)))
        else Failure(InvalidTime(index, kind.time))
      else if st.pending.Some? && st.currentDate.Some? then
        if kind.TimeLine? then
          // The guard against a time line taken as a title: a time line
          // inside a dated section was taken by the branch above.
          assert false;
          Success(st)
        else
          var start := Combine(st.currentDate.value, st.pending.value);
          Success(ScanState(st.currentDate, None, st.programmes + [Programme(start, start, line)]))
      else
        Success(st)
  }

  /** The outcome after the first `n` lines. */
  function ScanPrefix(kinds: seq<LineKind>, lines: seq<string>, n: nat): Result<ScanState, ScanError>
    requires |kinds| == |lines| && n <= |lines|
  {
    if n == 0 then Success(Initial)
    else
      match ScanPrefix(kinds, lines, n - 1)
      case Success(st) => Step(st, kinds[n - 1], lines[n - 1], n - 1)
      case Failure(e) => Failure(e)
  }

  /** The programmes of the whole scan, or the error that stopped it. */
  function Scan(lines: seq<string>, today: Date): Result<seq<Programme>, ScanError>
    requires ValidDate(today)
  {
    match ScanPrefix(Kinds(lines, today), lines, |lines|)
    case Success(st) => Success(st.programmes)
    case Failure(e) => Failure(e)
  }

  /** An error stops the loop: nothing after it changes the outcome. */
  lemma {:induction false} FailureStops(kinds: seq<LineKind>, lines: seq<string>, i: nat, n: nat)
    requires |kinds| == |lines| && i <= n <= |lines|
    requires ScanPrefix(kinds, lines, i).Failure?
    ensures ScanPrefix(kinds, lines, n) == ScanPrefix(kinds, lines, i)
    decreases n - i
  {
    if i < n {
      FailureStops(kinds, lines, i, n - 1);
    }
  }

  /** The kind of line `k` is the classification of that line. */
  lemma KindAt(lines: seq<string>, today: Date, k: nat)
    requires ValidDate(today) && k < |lines|
    ensures Kinds(lines, today)[k] == Classify(lines[k], today)
  {
  }

  /** One more line is one more step. */
  lemma StepAt(kinds: seq<LineKind>, lines: seq<string>, i: nat, st: ScanState)
    requires |kinds| == |lines| && i < |lines|
    requires ScanPrefix(kinds, lines, i) == Success(st)
    ensures ScanPrefix(kinds, lines, i + 1) == Step(st, kinds[i], lines[i], i)
  {
  }

  /** The `while i < len(lines)` loop. */
  method ScanLines(lines: seq<string>, today: Date) returns (r: Result<seq<Programme>, ScanError>)
    requires ValidDate(today)
    ensures r == Scan(lines, today)
  {
    ghost var kinds := Kinds(lines, today);
    var programmes: seq<Programme> := [];
    var currentDate: Option<Date> := None;
    var pending: Option<TimeOfDay> := None;
    var i := 0;
    while i < |lines|
      invariant 0 <= i <= |lines|
      invariant ScanPrefix(kinds, lines, i) == Success(ScanState(currentDate, pending, programmes))
    {
      var ln := lines[i];
      ghost var st := ScanState(currentDate, pending, programmes);
      StepAt(kinds, lines, i, st);
      KindAt(lines, today, i);

      // A new section?
      var m := SearchHeader(ln);
      if m.Some? {
        assert kinds[i] == SectionLine(HeaderDate(m.value, today));
        var wd := WeekdayOf(m.value.word);
        if wd.None? {
          currentDate := None;
        } else {
          var d := ChooseDateForSection(wd.value, m.value.day, today);
          currentDate := Some(d);
        }
        assert currentDate == kinds[i].date;
        pending := None;
        i := i + 1;
        continue;
      }

      // A time line?
      var mt := ParseTime(ln);
      assert mt.Some? ==> kinds[i] == TimeLine(mt.value);
      assert mt.None? ==> kinds[i] == TextLine;
      if mt.Some? && currentDate.Some? {
        if !ValidTime(mt.value) {
          r := Failure(InvalidTime(i, mt.value));
          FailureStops(kinds, lines, i + 1, |lines|);
          return;
        }
        pending := mt;
        i := i + 1;
        continue;
      }

      // The title after a time line.
      if pending.Some? && currentDate.Some? {
        var title := ln;
        if ParseTime(title).Some? {
          // Never taken: a time line inside a dated section was read as a
          // time above.
          assert false;
          i := i + 1;
          continue;
        }
        var start := Combine(currentDate.value, pending.value);
        programmes := programmes + [Programme(start, start, title)];
        pending := None;
        i := i + 1;
        continue;
      }

      i := i + 1;
    }
    r := Success(programmes);
  }

  // An independent account of what the scan computes.

  /** The date in force after the first `n` lines: the one set by the last
      header among them, none before any header. */
  function SectionDate(kinds: seq<LineKind>, n: nat): Option<Date>
    requires n <= |kinds|
  {
    if n == 0 then None
    else if kinds[n - 1].SectionLine? then kinds[n - 1].date
    else SectionDate(kinds, n - 1)
  }

  /** The start time waiting after the first `n` lines: the time of the
      last of them, when it is a time line read inside a dated section. */
  function PendingAfter(kinds: seq<LineKind>, n: nat): Option<TimeOfDay>
    requires n <= |kinds|
  {
    if n > 0 && kinds[n - 1].TimeLine? && SectionDate(kinds, n).Some? then Some(kinds[n - 1].time)
    else None
  }

  /** Line `j` is a title: a text line right after a time line, inside a
      dated section. */
  predicate TitleAt(kinds: seq<LineKind>, j: nat)
    requires j < |kinds|
  {
    1 <= j && kinds[j].TextLine? && kinds[j - 1].TimeLine? && SectionDate(kinds, j).Some?
  }

  /** The programme a title line gives: the section's date combined with
      the time just above it, stopping where it starts. */
  function TitleProgramme(kinds: seq<LineKind>, lines: seq<string>, j: nat): (p: Programme)
    requires |kinds| == |lines| && j < |kinds| && TitleAt(kinds, j)
    ensures p.stop == p.start && p.title == lines[j]
  {
    var start := Combine(SectionDate(kinds, j).value, kinds[j - 1].time);
    Programme(start, start, lines[j])
  }

  /** The programmes of the title lines among the first `n`, in order. */
  function Titles(kinds: seq<LineKind>, lines: seq<string>, n: nat): seq<Programme>
    requires |kinds| == |lines| && n <= |kinds|
  {
    if n == 0 then []
    else
      var earlier := Titles(kinds, lines, n - 1);
      if TitleAt(kinds, n - 1) then earlier + [TitleProgramme(kinds, lines, n - 1)] else earlier
  }

  /** Line `j` is a time line out of range read inside a dated section. */
  predicate BadTimeAt(kinds: seq<LineKind>, j: nat)
    requires j < |kinds|
  {
    kinds[j].TimeLine? && !ValidTime(kinds[j].time) && SectionDate(kinds, j).Some?
  }

  /** The scan succeeds exactly when no bad time line occurs; then its
      state is the one described above, and otherwise the error names the
      first bad time line. */
  lemma {:induction false} ScanReference(kinds: seq<LineKind>, lines: seq<string>, n: nat)
    requires |kinds| == |lines| && n <= |lines|
    ensures ScanPrefix(kinds, lines, n).Success? <==> forall j :: 0 <= j < n ==> !BadTimeAt(kinds, j)
    ensures ScanPrefix(kinds, lines, n).Success? ==>
      ScanPrefix(kinds, lines, n).value == ScanState(SectionDate(kinds, n), PendingAfter(kinds, n), Titles(kinds, lines, n))
    ensures ScanPrefix(kinds, lines, n).Failure? ==>
      var e := ScanPrefix(kinds, lines, n).error;
      e.line < n && BadTimeAt(kinds, e.line) && e.time == kinds[e.line].time
      && forall j :: 0 <= j < e.line ==> !BadTimeAt(kinds, j)
  {
    if n > 0 {
      ScanReference(kinds, lines, n - 1);
      var k := n - 1;
      match ScanPrefix(kinds, lines, k)
      case Failure(e) =>
      case Success(st) =>
        assert st.currentDate == SectionDate(kinds, k) && st.pending == PendingAfter(kinds, k);
        assert st.pending.Some? ==> st.currentDate.Some?;
        if kinds[k].SectionLine? {
        } else if kinds[k].TimeLine? {
          assert SectionDate(kinds, n) == SectionDate(kinds, k);
          assert BadTimeAt(kinds, k) <==> st.currentDate.Some? && !ValidTime(kinds[k].time);
        } else {
          assert SectionDate(kinds, n) == SectionDate(kinds, k);
          assert TitleAt(kinds, k) <==> st.pending.Some? && st.currentDate.Some?;
        }
    }
  }

  /** A header line always clears the waiting start time and sets the date
      its weekday word gives, none for an unknown word. */
  lemma HeaderResets(kinds: seq<LineKind>, lines: seq<string>, n: nat)
    requires |kinds| == |lines| && 0 < n <= |lines| && kinds[n - 1].SectionLine?
    requires ScanPrefix(kinds, lines, n).Success?
    ensures ScanPrefix(kinds, lines, n).value.pending.None?
    ensures ScanPrefix(kinds, lines, n).value.currentDate == kinds[n - 1].date
  {
    ScanReference(kinds, lines, n);
  }

  /** After a header with an unknown weekday word no programme is emitted
      until the next header. */
  lemma {:induction false} UnknownWeekdaySilences(kinds: seq<LineKind>, lines: seq<string>, h: nat, n: nat)
    requires |kinds| == |lines| && h < n <= |lines|
    requires kinds[h] == SectionLine(None)
    requires forall k :: h < k < n ==> !kinds[k].SectionLine?
    ensures SectionDate(kinds, n).None?
    ensures Titles(kinds, lines, n) == Titles(kinds, lines, h + 1)
    decreases n - h
  {
    if n > h + 1 {
      UnknownWeekdaySilences(kinds, lines, h, n - 1);
      assert !TitleAt(kinds, n - 1);
    }
  }

  /** A line whose header names a word that is not in `WEEKDAY_ES` closes
      the current section without opening a dated one. */
  lemma UnknownHeaderLine(line: string, today: Date)
    requires ValidDate(today) && SearchHeader(line).Some?
    requires Lower(SearchHeader(line).value.word) !in WeekdayEs
    ensures Classify(line, today) == SectionLine(None)
  {
  }

  /** After a header line with an unknown weekday word, the lines up to the
      next header add no programme and leave no date in force. */
  lemma UnknownHeaderSilences(lines: seq<string>, today: Date, h: nat, n: nat)
    requires ValidDate(today) && h < n <= |lines|
    requires SearchHeader(lines[h]).Some? && Lower(SearchHeader(lines[h]).value.word) !in WeekdayEs
    requires forall k :: h < k < n ==> SearchHeader(lines[k]).None?
    ensures SectionDate(Kinds(lines, today), n).None?
    ensures Titles(Kinds(lines, today), lines, n) == Titles(Kinds(lines, today), lines, h + 1)
  {
    var kinds := Kinds(lines, today);
    KindAt(lines, today, h);
    UnknownHeaderLine(lines[h], today);
    forall k | h < k < n
      ensures !kinds[k].SectionLine?
    {
      KindAt(lines, today, k);
    }
    UnknownWeekdaySilences(kinds, lines, h, n);
  }

  /** Every emitted programme comes from a title line. */
  lemma {:induction false} TitlesOrigin(kinds: seq<LineKind>, lines: seq<string>, n: nat, i: nat) returns (j: nat)
    requires |kinds| == |lines| && n <= |lines| && i < |Titles(kinds, lines, n)|
    ensures j < n && TitleAt(kinds, j) && Titles(kinds, lines, n)[i] == TitleProgramme(kinds, lines, j)
    decreases n
  {
    var earlier := Titles(kinds, lines, n - 1);
    if i < |earlier| {
      j := TitlesOrigin(kinds, lines, n - 1, i);
    } else {
      j := n - 1;
    }
  }

  /** Every date a header line carries is a real date. */
  predicate HeaderDatesValid(kinds: seq<LineKind>) {
    forall i :: 0 <= i < |kinds| && kinds[i].SectionLine? && kinds[i].date.Some? ==> ValidDate(kinds[i].date.value)
  }

  /** The resolver only gives real dates, so every classified header
      carries one. */
  lemma KindsDatesValid(lines: seq<string>, today: Date)
    requires ValidDate(today)
    ensures HeaderDatesValid(Kinds(lines, today))
  {
    var kinds := Kinds(lines, today);
    forall i | 0 <= i < |kinds| && kinds[i].SectionLine? && kinds[i].date.Some?
      ensures ValidDate(kinds[i].date.value)
    {
      KindAt(lines, today, i);
    }
  }

  /** Dates set by headers are real dates. */
  lemma {:induction false} SectionDateValid(kinds: seq<LineKind>, n: nat)
    requires HeaderDatesValid(kinds) && n <= |kinds|
    ensures var d := SectionDate(kinds, n); d.Some? ==> ValidDate(d.value)
    decreases n
  {
    if n > 0 && !kinds[n - 1].SectionLine? {
      SectionDateValid(kinds, n - 1);
    }
  }

  /** Each programme of a successful scan comes from a title line whose
      time line read a valid time. */
  lemma ScannedProgramme(kinds: seq<LineKind>, lines: seq<string>, i: nat) returns (j: nat)
    requires |kinds| == |lines| && ScanPrefix(kinds, lines, |lines|).Success?
    requires i < |ScanPrefix(kinds, lines, |lines|).value.programmes|
    ensures 1 <= j < |lines| && kinds[j].TextLine? && kinds[j - 1].TimeLine? && ValidTime(kinds[j - 1].time)
    ensures SectionDate(kinds, j).Some?
    ensures ScanPrefix(kinds, lines, |lines|).value.programmes[i] == TitleProgramme(kinds, lines, j)
  {
    var n := |lines|;
    ScanReference(kinds, lines, n);
    j := TitlesOrigin(kinds, lines, n, i);
    assert SectionDate(kinds, j) == SectionDate(kinds, j - 1);
    assert !BadTimeAt(kinds, j - 1);
  }

  /** What each programme of a successful scan is: its title is a line
      of kind text, the line above it is a time line with a valid time, and
      the start is the date of the section in force combined with that
      time. */
  lemma ScanOutput(lines: seq<string>, today: Date, i: nat) returns (j: nat, t: TimeOfDay)
    requires ValidDate(today) && Scan(lines, today).Success? && i < |Scan(lines, today).value|
    ensures 1 <= j < |lines|
    ensures Kinds(lines, today)[j] == TextLine
    ensures Kinds(lines, today)[j - 1] == TimeLine(t) && ValidTime(t)
    ensures Scan(lines, today).value[i].title == lines[j]
    ensures SectionDate(Kinds(lines, today), j).Some? && ValidDate(SectionDate(Kinds(lines, today), j).value)
    ensures Scan(lines, today).value[i].start == Combine(SectionDate(Kinds(lines, today), j).value, t)
    ensures Scan(lines, today).value[i].stop == Scan(lines, today).value[i].start
  {
    var kinds := Kinds(lines, today);
    var st := ScanPrefix(kinds, lines, |lines|);
    assert Scan(lines, today).value == st.value.programmes;
    j := ScannedProgramme(kinds, lines, i);
    t := kinds[j - 1].time;
    KindsDatesValid(lines, today);
    SectionDateValid(kinds, j);
  }

  /** A line of kind text matches neither the section pattern nor the
      time pattern. */
  lemma TextKind(lines: seq<string>, today: Date, j: nat)
    requires ValidDate(today) && j < |lines| && Kinds(lines, today)[j] == TextLine
    ensures SearchHeader(lines[j]).None? && ParseTime(lines[j]).None?
  {
    KindAt(lines, today, j);
  }

  /** A line of kind time matches no section pattern and the time pattern
      reads its time from it. */
  lemma TimeKind(lines: seq<string>, today: Date, j: nat, t: TimeOfDay)
    requires ValidDate(today) && j < |lines| && Kinds(lines, today)[j] == TimeLine(t)
    ensures SearchHeader(lines[j]).None? && ParseTime(lines[j]) == Some(t)
  {
    KindAt(lines, today, j);
  }

  /** The text of a programme's title line: it matches neither the
      section pattern nor the time pattern. */
  lemma ScanTitleText(lines: seq<string>, today: Date, i: nat) returns (j: nat)
    requires ValidDate(today) && Scan(lines, today).Success? && i < |Scan(lines, today).value|
    ensures 1 <= j < |lines| && Scan(lines, today).value[i].title == lines[j]
    ensures SearchHeader(lines[j]).None? && ParseTime(lines[j]).None?
  {
    var t;
    j, t := ScanOutput(lines, today, i);
    TextKind(lines, today, j);
  }
}

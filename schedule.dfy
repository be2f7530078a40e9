/** `parse_schedule` (scrape.py) as a whole: the scan of the page's lines
    followed by the finalizer. The lines and today's date are parameters;
    a time line out of range ends the whole parse with the error `time()`
    raises. */
module Schedule {
  import opened Wrappers
  import opened Calendar
  import opened Timeline
  import opened Scanner
  import opened Finalizer
  import opened LineSyntax

  function ParseResult(lines: seq<string>, today: Date): Result<seq<Programme>, ScanError>
    requires ValidDate(today)
  {
    match Scan(lines, today)
    case Success(provisional) => Success(Finalize(provisional))
    case Failure(e) => Failure(e)
  }

  method ParseSchedule(lines: seq<string>, today: Date) returns (r: Result<seq<Programme>, ScanError>)
    requires ValidDate(today)
    ensures r == ParseResult(lines, today)
  {
    var scanned := ScanLines(lines, today);
    match scanned
    case Failure(e) =>
      r := Failure(e);
    case Success(provisional) =>
      var timeline := FinalizeTimeline(provisional);
      r := Success(timeline);
  }

  /** The parse fails exactly when some time line in a dated section is
      out of range, and then names the first such line and its time. */
  lemma ParseFailure(lines: seq<string>, today: Date)
    requires ValidDate(today)
    ensures ParseResult(lines, today).Failure? <==>
      exists k :: 0 <= k < |lines| && BadTimeAt(Kinds(lines, today), k)
    ensures ParseResult(lines, today).Failure? ==>
      var e := ParseResult(lines, today).error;
      e.line < |lines| && BadTimeAt(Kinds(lines, today), e.line)
      && e.time == Kinds(lines, today)[e.line].time
      && forall k :: 0 <= k < e.line ==> !BadTimeAt(Kinds(lines, today), k)
  {
    ScanReference(Kinds(lines, today), lines, |lines|);
  }

  /** Without a section header no line is ever read in a dated section. */
  lemma {:induction false} NoSectionNoDate(kinds: seq<LineKind>, n: nat)
    requires n <= |kinds| && forall k :: 0 <= k < |kinds| ==> !kinds[k].SectionLine?
    ensures SectionDate(kinds, n).None?
  {
    if n > 0 {
      NoSectionNoDate(kinds, n - 1);
    }
  }

  lemma {:induction false} NoSectionNoTitles(kinds: seq<LineKind>, lines: seq<string>, n: nat)
    requires |kinds| == |lines| && n <= |kinds|
    requires forall k :: 0 <= k < |kinds| ==> !kinds[k].SectionLine?
    ensures Titles(kinds, lines, n) == []
  {
    if n > 0 {
      NoSectionNoTitles(kinds, lines, n - 1);
      NoSectionNoDate(kinds, n - 1);
    }
  }

  /** A page in which no line holds a section header parses, without
      error, to no programmes at all: the result the caller reports as a
      changed page layout. */
  lemma NoHeaderNoProgrammes(lines: seq<string>, today: Date)
    requires ValidDate(today)
    requires forall k :: 0 <= k < |lines| ==> SearchHeader(lines[k]).None?
    ensures ParseResult(lines, today) == Success([])
  {
    var kinds := Kinds(lines, today);
    forall j | 0 <= j < |kinds|
      ensures !kinds[j].SectionLine? && !BadTimeAt(kinds, j)
    {
      KindAt(lines, today, j);
      NoSectionNoDate(kinds, j);
    }
    NoSectionNoTitles(kinds, lines, |lines|);
    ScanReference(kinds, lines, |lines|);
    FinalizeEmpty([]);
  }

  /** Every programme of a successful parse has a title and a positive
      duration, and the starts strictly increase. */
  lemma ParseOrdered(lines: seq<string>, today: Date)
    requires ValidDate(today) && ParseResult(lines, today).Success?
    ensures var r := ParseResult(lines, today).value;
      (forall k :: 0 <= k < |r| ==> Kept(r[k])) && StrictlyIncreasing(r) && Chained(r)
  {
    FinalizeOrdered(Scan(lines, today).value);
  }

  /** Lines as `extract_lines` gives them are never blank, so no
      provisional programme has an empty title. */
  lemma ScanTitlesNonEmpty(lines: seq<string>, today: Date)
    requires ValidDate(today) && Scan(lines, today).Success?
    requires forall k :: 0 <= k < |lines| ==> |lines[k]| > 0
    ensures forall i :: 0 <= i < |Scan(lines, today).value| ==> |Scan(lines, today).value[i].title| > 0
  {
    forall i | 0 <= i < |Scan(lines, today).value|
      ensures |Scan(lines, today).value[i].title| > 0
    {
      var j, t := ScanOutput(lines, today, i);
    }
  }

  /** With non-blank lines, the programmes of a successful parse follow
      each other without gaps. */
  lemma ParseContiguous(lines: seq<string>, today: Date)
    requires ValidDate(today) && ParseResult(lines, today).Success?
    requires forall k :: 0 <= k < |lines| ==> |lines[k]| > 0
    ensures Contiguous(ParseResult(lines, today).value)
  {
    ScanTitlesNonEmpty(lines, today);
    FinalizeContiguous(Scan(lines, today).value);
  }

  /** With non-blank lines and at least one provisional programme, the
      last programme of a successful parse starts on a date `d` at a time
      `t` (those of its section and time line) and stops at 00:00 on the
      day after `d`. */
  lemma ParseRollover(lines: seq<string>, today: Date) returns (d: Date, t: TimeOfDay)
    requires ValidDate(today) && ParseResult(lines, today).Success?
    requires forall k :: 0 <= k < |lines| ==> |lines[k]| > 0
    requires |Scan(lines, today).value| > 0
    ensures |ParseResult(lines, today).value| > 0
    ensures ValidDate(d) && ValidTime(t)
    ensures ParseResult(lines, today).value[|ParseResult(lines, today).value| - 1].start == Combine(d, t)
    ensures ParseResult(lines, today).value[|ParseResult(lines, today).value| - 1].stop == Combine(AddDays(d, 1), TimeOfDay(0, 0))
  {
    var provisional := Scan(lines, today).value;
    ScanTitlesNonEmpty(lines, today);
    var m := FinalizeLastFrom(provisional);
    var j;
    j, t := ScanOutput(lines, today, m);
    d := SectionDate(Kinds(lines, today), j).value;
    NextMidnightIsNextDay(d, t);
  }
}

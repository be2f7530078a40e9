/** Worked pages for `parse_schedule` (scrape.py): a Thursday section with
    two programmes, one in which two time lines follow each other, and one
    whose header names no weekday.
    The date the header resolves to is left symbolic, as whatever the
    resolver gives for Thursday the 1st and the day the page is read. */
module Scenarios {
  import opened Wrappers
  import opened Calendar
  import opened DateResolver
  import opened Timeline
  import opened LineSyntax
  import opened Scanner
  import opened Finalizer
  import opened Schedule

  /** The page's header for Thursday the 1st sets the resolver's date. */
  lemma ThursdayHeader(today: Date)
    requires ValidDate(today)
    ensures Classify("Programación de Jueves 1", today) == SectionLine(Some(ResolveDate(3, 1, today)))
  {
    JuevesHeader();
    JuevesWeekday();
  }

  lemma JuevesHeader()
    ensures SearchHeader("Programación de Jueves 1") == Some(Header("Jueves", 1))
  {
    assert IsWordLetter('J') && IsWordLetter('u') && IsWordLetter('e') && IsWordLetter('v') && IsWordLetter('s');
    HeaderRoundTrip("Jueves", 1);
    ThursdayHeaderText();
  }

  lemma JuevesWeekday()
    ensures WeekdayOf("Jueves") == Some(3)
  {
    assert Lower("Jueves") == "jueves";
  }

  lemma ThursdayHeaderText()
    ensures HeaderText("Jueves", 1) == "Programación de Jueves 1"
  {
    assert DayText(1) == "1";
  }

  /** A clock line is a time line with its time. */
  lemma ClockLine(t: TimeOfDay, today: Date)
    requires ValidDate(today) && 0 <= t.hour <= 99 && 0 <= t.minute <= 99
    ensures Classify(TimeText(t), today) == TimeLine(t)
  {
    ParseTimeComplete("", t, "");
    assert "" + TimeText(t) + "" == TimeText(t);
  }

  /** A line with no character that folds to 'p' and no clock time is a
      text line. */
  lemma PlainLine(s: string, today: Date)
    requires ValidDate(today) && ParseTime(s).None?
    requires forall k :: 0 <= k < |s| ==> LowerChar(s[k]) != 'p'
    ensures Classify(s, today) == TextLine
  {
    NoKeywordNoHeader(s);
  }

  lemma TitleLines(today: Date)
    requires ValidDate(today)
    ensures Classify("Morning News", today) == TextLine
    ensures Classify("Talk Show", today) == TextLine
  {
    MorningNews(today);
    TalkShow(today);
  }

  lemma MorningNews(today: Date)
    requires ValidDate(today)
    ensures Classify("Morning News", today) == TextLine
  {
    assert ParseTime("Morning News").None?;
    assert forall k :: 0 <= k < |"Morning News"| ==> LowerChar("Morning News"[k]) != 'p';
    PlainLine("Morning News", today);
  }

  lemma TalkShow(today: Date)
    requires ValidDate(today)
    ensures Classify("Talk Show", today) == TextLine
  {
    assert ParseTime("Talk Show").None?;
    assert forall k :: 0 <= k < |"Talk Show"| ==> LowerChar("Talk Show"[k]) != 'p';
    PlainLine("Talk Show", today);
  }

  /** The two clock lines of the pages below. */
  lemma ClockLines(today: Date)
    requires ValidDate(today)
    ensures Classify("08:00", today) == TimeLine(TimeOfDay(8, 0))
    ensures Classify("09:30", today) == TimeLine(TimeOfDay(9, 30))
  {
    assert TimeText(TimeOfDay(8, 0)) == "08:00";
    assert TimeText(TimeOfDay(9, 30)) == "09:30";
    ClockLine(TimeOfDay(8, 0), today);
    ClockLine(TimeOfDay(9, 30), today);
  }

  /** Header, 08:00, "Morning News", 09:30, "Talk Show": two programmes,
      08:00 to 09:30 and 09:30 to midnight, on the resolved date. */
  lemma TwoProgrammes(today: Date)
    requires ValidDate(today)
    ensures var d := ResolveDate(3, 1, today);
      var news := Combine(d, TimeOfDay(8, 0));
      var talk := Combine(d, TimeOfDay(9, 30));
      ParseResult(["Programación de Jueves 1", "08:00", "Morning News", "09:30", "Talk Show"], today)
      == Success([Programme(news, talk, "Morning News"), Programme(talk, NextMidnight(talk), "Talk Show")])
  {
    ThursdayHeader(today);
    ClockLines(today);
    TitleLines(today);
    TwoProgrammesPage("Programación de Jueves 1", "08:00", "Morning News", "09:30", "Talk Show",
                      today, ResolveDate(3, 1, today), TimeOfDay(8, 0), TimeOfDay(9, 30));
  }

  /** The page of `TwoProgrammes` with its lines already classified. */
  lemma TwoProgrammesPage(l0: string, l1: string, l2: string, l3: string, l4: string,
                          today: Date, d: Date, t1: TimeOfDay, t2: TimeOfDay)
    requires ValidDate(today) && ValidTime(t1) && ValidTime(t2)
    requires t1.hour * 60 + t1.minute < t2.hour * 60 + t2.minute
    requires Classify(l0, today) == SectionLine(Some(d))
    requires Classify(l1, today) == TimeLine(t1) && Classify(l2, today) == TextLine
    requires Classify(l3, today) == TimeLine(t2) && Classify(l4, today) == TextLine
    requires |l2| > 0 && |l4| > 0
    ensures var a := Combine(d, t1);
      var b := Combine(d, t2);
      ParseResult([l0, l1, l2, l3, l4], today) == Success([Programme(a, b, l2), Programme(b, NextMidnight(b), l4)])
  {
    var lines := [l0, l1, l2, l3, l4];
    var kinds := Kinds(lines, today);
    KindAt(lines, today, 0);
    KindAt(lines, today, 1);
    KindAt(lines, today, 2);
    KindAt(lines, today, 3);
    KindAt(lines, today, 4);
    ScanTwo(lines, kinds, d, t1, t2);
    FinalizeTwo(Combine(d, t1), Combine(d, t2), l2, l4);
  }

  /** Header, 08:00, 09:30, "Talk Show": the later time line replaces the
      earlier one, so there is one programme, from 09:30 to midnight, and
      no zero-length entry at 08:00. */
  lemma RepeatedTimeLine(today: Date)
    requires ValidDate(today)
    ensures var talk := Combine(ResolveDate(3, 1, today), TimeOfDay(9, 30));
      ParseResult(["Programación de Jueves 1", "08:00", "09:30", "Talk Show"], today)
      == Success([Programme(talk, NextMidnight(talk), "Talk Show")])
  {
    ThursdayHeader(today);
    ClockLines(today);
    TalkShow(today);
    RepeatedPage("Programación de Jueves 1", "08:00", "09:30", "Talk Show",
                 today, ResolveDate(3, 1, today), TimeOfDay(8, 0), TimeOfDay(9, 30));
  }

  /** The page of `RepeatedTimeLine` with its lines already classified. */
  lemma RepeatedPage(l0: string, l1: string, l2: string, l3: string,
                     today: Date, d: Date, t1: TimeOfDay, t2: TimeOfDay)
    requires ValidDate(today) && ValidTime(t1) && ValidTime(t2)
    requires Classify(l0, today) == SectionLine(Some(d))
    requires Classify(l1, today) == TimeLine(t1) && Classify(l2, today) == TimeLine(t2)
    requires Classify(l3, today) == TextLine && |l3| > 0
    ensures var b := Combine(d, t2);
      ParseResult([l0, l1, l2, l3], today) == Success([Programme(b, NextMidnight(b), l3)])
  {
    var lines := [l0, l1, l2, l3];
    var kinds := Kinds(lines, today);
    KindAt(lines, today, 0);
    KindAt(lines, today, 1);
    KindAt(lines, today, 2);
    KindAt(lines, today, 3);
    ScanRepeated(lines, kinds, d, t1, t2);
    FinalizeOne(Combine(d, t2), l3);
  }

  /** Section, time, title, time, title. */
  lemma ScanTwo(lines: seq<string>, kinds: seq<LineKind>, d: Date, t1: TimeOfDay, t2: TimeOfDay)
    requires |lines| == 5 && |kinds| == 5 && ValidTime(t1) && ValidTime(t2)
    requires kinds[0] == SectionLine(Some(d)) && kinds[1] == TimeLine(t1) && kinds[2] == TextLine
    requires kinds[3] == TimeLine(t2) && kinds[4] == TextLine
    ensures ScanPrefix(kinds, lines, 5)
      == Success(ScanState(Some(d), None, [Programme(Combine(d, t1), Combine(d, t1), lines[2]),
                                           Programme(Combine(d, t2), Combine(d, t2), lines[4])]))
  {
    var p1 := Programme(Combine(d, t1), Combine(d, t1), lines[2]);
    var p2 := Programme(Combine(d, t2), Combine(d, t2), lines[4]);
    StepAt(kinds, lines, 0, Initial);
    StepAt(kinds, lines, 1, ScanState(Some(d), None, []));
    StepAt(kinds, lines, 2, ScanState(Some(d), Some(t1), []));
    assert [] + [p1] == [p1];
    StepAt(kinds, lines, 3, ScanState(Some(d), None, [p1]));
    StepAt(kinds, lines, 4, ScanState(Some(d), Some(t2), [p1]));
    assert [p1] + [p2] == [p1, p2];
  }

  /** Section, time, time, title. */
  lemma ScanRepeated(lines: seq<string>, kinds: seq<LineKind>, d: Date, t1: TimeOfDay, t2: TimeOfDay)
    requires |lines| == 4 && |kinds| == 4 && ValidTime(t1) && ValidTime(t2)
    requires kinds[0] == SectionLine(Some(d)) && kinds[1] == TimeLine(t1)
    requires kinds[2] == TimeLine(t2) && kinds[3] == TextLine
    ensures ScanPrefix(kinds, lines, 4)
      == Success(ScanState(Some(d), None, [Programme(Combine(d, t2), Combine(d, t2), lines[3])]))
  {
    var p := Programme(Combine(d, t2), Combine(d, t2), lines[3]);
    StepAt(kinds, lines, 0, Initial);
    StepAt(kinds, lines, 1, ScanState(Some(d), None, []));
    StepAt(kinds, lines, 2, ScanState(Some(d), Some(t1), []));
    StepAt(kinds, lines, 3, ScanState(Some(d), Some(t2), []));
    assert [] + [p] == [p];
  }

  /** Two entries in start order, both titled: each runs to the next start,
      the last to midnight, and nothing is dropped. */
  lemma FinalizeTwo(a: int, b: int, x: string, y: string)
    requires a < b && |x| > 0 && |y| > 0
    ensures Finalize([Programme(a, a, x), Programme(b, b, y)])
      == [Programme(a, b, x), Programme(b, NextMidnight(b), y)]
  {
    var p1 := Programme(a, a, x);
    var p2 := Programme(b, b, y);
    SortedPair(p1, p2);
    var linked := [Programme(a, b, x), Programme(b, NextMidnight(b), y)];
    assert WithStops([p1, p2]) == linked;
    KeptPair(linked);
  }

  lemma SortedPair(p1: Programme, p2: Programme)
    requires p1.start < p2.start
    ensures SortByStart([p1, p2]) == [p1, p2]
  {
    assert [p1, p2][..1] == [p1];
    assert [p1][..0] == [];
    assert SortByStart([p1]) == [p1];
    assert Insert(p2, [p1]) == [p1, p2] by {
      assert [p1][1..] == [];
    }
  }

  /** Two distinct kept entries pass the filter and the dedup unchanged. */
  lemma KeptPair(linked: seq<Programme>)
    requires |linked| == 2 && Kept(linked[0]) && Kept(linked[1]) && linked[0] != linked[1]
    ensures Dedup(KeepValid(linked)) == linked
  {
    assert linked[..1] == [linked[0]];
    assert [linked[0]][..0] == [];
    assert KeepValid([linked[0]]) == [linked[0]];
    assert KeepValid(linked) == [linked[0]] + [linked[1]] == linked;
    assert Dedup([linked[0]]) == [linked[0]];
    assert Elements([linked[0]]) == {linked[0]};
    assert Dedup(linked) == linked;
  }

  lemma FinalizeOne(a: int, y: string)
    requires |y| > 0
    ensures Finalize([Programme(a, a, y)]) == [Programme(a, NextMidnight(a), y)]
  {
    var p := Programme(a, a, y);
    var last := Programme(a, NextMidnight(a), y);
    assert [p][..0] == [];
    assert SortByStart([p]) == [p];
    assert WithStops([p]) == [last];
    assert [last][..0] == [];
    assert KeepValid([last]) == [last];
    assert Dedup([last]) == [last];
  }

  /** A header whose word is not a weekday, e.g. "Programación de Feriado
      3", then 08:00 and "Morning News": the section has no date, so the
      time line and the title are skipped and the page gives no
      programmes. */
  lemma UnknownWordHeader(today: Date)
    requires ValidDate(today)
    ensures ParseResult(["Programación de Feriado 3", "08:00", "Morning News"], today) == Success([])
  {
    FeriadoHeader(today);
    ClockLines(today);
    MorningNews(today);
    UnknownPage("Programación de Feriado 3", "08:00", "Morning News", today);
  }

  lemma FeriadoHeader(today: Date)
    requires ValidDate(today)
    ensures Classify("Programación de Feriado 3", today) == SectionLine(None)
  {
    FeriadoFound();
    FeriadoWord();
    UnknownHeaderLine("Programación de Feriado 3", today);
  }

  lemma FeriadoWord()
    ensures Lower("Feriado") !in WeekdayEs
  {
    UnknownWeekday();
  }

  lemma FeriadoFound()
    ensures SearchHeader("Programación de Feriado 3") == Some(Header("Feriado", 3))
  {
    FeriadoLetters();
    HeaderRoundTrip("Feriado", 3);
    FeriadoHeaderText();
  }

  lemma FeriadoLetters()
    ensures forall k :: 0 <= k < |"Feriado"| ==> IsWordLetter("Feriado"[k])
  {
    assert IsWordLetter('F') && IsWordLetter('e') && IsWordLetter('r') && IsWordLetter('i');
    assert IsWordLetter('a') && IsWordLetter('d') && IsWordLetter('o');
  }

  lemma FeriadoHeaderText()
    ensures HeaderText("Feriado", 3) == "Programación de Feriado 3"
  {
    assert DayText(3) == "3";
  }

  /** The page of `UnknownWordHeader` with its lines already classified. */
  lemma UnknownPage(l0: string, l1: string, l2: string, today: Date)
    requires ValidDate(today)
    requires Classify(l0, today) == SectionLine(None)
    requires Classify(l1, today).TimeLine? && Classify(l2, today) == TextLine
    ensures ParseResult([l0, l1, l2], today) == Success([])
  {
    var lines := [l0, l1, l2];
    var kinds := Kinds(lines, today);
    KindAt(lines, today, 0);
    KindAt(lines, today, 1);
    KindAt(lines, today, 2);
    StepAt(kinds, lines, 0, Initial);
    StepAt(kinds, lines, 1, Initial);
    StepAt(kinds, lines, 2, Initial);
    FinalizeEmpty([]);
  }
}

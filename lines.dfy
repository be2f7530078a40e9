/** The line classifiers of scrape.py: the section header pattern
    `SECTION_RE` (found anywhere in a line, ignoring case), the time line
    pattern `TIME_RE` (the whole line) and the Spanish weekday table
    `WEEKDAY_ES`. Regular expressions are written out as the deterministic
    scans they amount to: every repetition in them is followed by a
    character class disjoint from its own, so each can only match its
    longest run. */
module LineSyntax {
  import opened Wrappers
  import opened Timeline

  /** `\s` on a `str` pattern: the characters for which `str.isspace()`
      holds. */
  predicate IsSpace(c: char) {
    var n := c as int;
    (0x09 <= n <= 0x0D) || (0x1C <= n <= 0x20) || n == 0x85 || n == 0xA0
    || n == 0x1680 || (0x2000 <= n <= 0x200A) || n == 0x2028 || n == 0x2029
    || n == 0x202F || n == 0x205F || n == 0x3000
  }

  /** `\d`, restricted to ASCII digits. */
  predicate IsDigit(c: char) {
    '0' <= c <= '9'
  }

  function DigitValue(c: char): (v: int)
    requires IsDigit(c)
    ensures 0 <= v <= 9
  {
    c as int - '0' as int
  }

  function DigitChar(v: int): (c: char)
    requires 0 <= v <= 9
    ensures IsDigit(c) && DigitValue(c) == v
  {
    (v + '0' as int) as char
  }

  /** `int()` of one or two ASCII digits. */
  function DigitsValue(t: string): (v: int)
    requires 1 <= |t| <= 2 && forall k :: 0 <= k < |t| ==> IsDigit(t[k])
    ensures 0 <= v <= 99
  {
    if |t| == 1 then DigitValue(t[0]) else 10 * DigitValue(t[0]) + DigitValue(t[1])
  }

  /** The accented capitals of the word class: Á, É, Í, Ó, Ú and Ñ. */
  predicate IsAccentedCapital(c: char) {
    c == 'Á' || c == 'É' || c == 'Í' || c == 'Ó' || c == 'Ú' || c == 'Ñ'
  }

  /** Their small letters: á, é, í, ó, ú and ñ. */
  predicate IsAccentedSmall(c: char) {
    c == 'á' || c == 'é' || c == 'í' || c == 'ó' || c == 'ú' || c == 'ñ'
  }

  /** The weekday word class `[A-Za-zÁÉÍÓÚáéíóúñÑ]`. */
  predicate IsWordLetter(c: char) {
    ('A' <= c <= 'Z') || ('a' <= c <= 'z') || IsAccentedCapital(c) || IsAccentedSmall(c)
  }

  /** `str.lower()` on the letters the patterns mention: ASCII capitals and
      ÁÉÍÓÚÑ map to their small letters, everything else is left alone. */
  function LowerChar(c: char): (r: char)
    ensures IsWordLetter(c) <==> IsWordLetter(r)
    ensures !IsWordLetter(c) ==> r == c
  {
    if ('A' <= c <= 'Z') || IsAccentedCapital(c) then (c as int + 32) as char else c
  }

  function Lower(s: string): (r: string)
    ensures |r| == |s|
    ensures forall k :: 0 <= k < |s| ==> r[k] == LowerChar(s[k])
  {
    seq(|s|, k requires 0 <= k < |s| => LowerChar(s[k]))
  }

  /** The end of the longest run of whitespace starting at `i`. */
  function SpaceRun(s: string, i: nat): (j: nat)
    requires i <= |s|
    ensures i <= j <= |s|
    ensures forall k :: i <= k < j ==> IsSpace(s[k])
    ensures j == |s| || !IsSpace(s[j])
    decreases |s| - i
  {
    if i < |s| && IsSpace(s[i]) then SpaceRun(s, i + 1) else i
  }

  /** The end of the longest run of weekday-word letters starting at `i`. */
  function LetterRun(s: string, i: nat): (j: nat)
    requires i <= |s|
    ensures i <= j <= |s|
    ensures forall k :: i <= k < j ==> IsWordLetter(s[k])
    ensures j == |s| || !IsWordLetter(s[j])
    decreases |s| - i
  {
    if i < |s| && IsWordLetter(s[i]) then LetterRun(s, i + 1) else i
  }

  /** `lit` (written in small letters) occurs at `i`, ignoring case. */
  predicate FoldedAt(s: string, i: nat, lit: string) {
    i + |lit| <= |s| && forall k :: 0 <= k < |lit| ==> LowerChar(s[i + k]) == lit[k]
  }

  const Keyword: string := "programación"
  const Of: string := "de"

  /** The two groups of a header match: the weekday word and the day. */
  datatype Header = Header(word: string, day: int)

  /** The end of `\d{1,2}` at `f`: it takes a second digit when there is
      one. */
  function DigitsEnd(s: string, f: nat): (g: nat)
    requires f < |s| && IsDigit(s[f])
    ensures f < g <= f + 2 && g <= |s|
    ensures forall k :: 0 <= k < g - f ==> IsDigit(s[f..g][k])
    ensures g == f + 2 || g == |s| || !IsDigit(s[g])
  {
    if f + 1 < |s| && IsDigit(s[f + 1]) then f + 2 else f + 1
  }

  /** `SECTION_RE.match(s, i)`:
      `Programación\s+de\s+([A-Za-zÁÉÍÓÚáéíóúñÑ]+)\s+(\d{1,2})`. */
  function MatchHeaderAt(s: string, i: nat): (r: Option<Header>)
    requires i <= |s|
    ensures r.Some? ==> FoldedAt(s, i, Keyword)
    ensures r.Some? ==> |r.value.word| > 0 && forall k :: 0 <= k < |r.value.word| ==> IsWordLetter(r.value.word[k])
    ensures r.Some? ==> 0 <= r.value.day <= 99
  {
    if !FoldedAt(s, i, Keyword) then None
    else
      var a := i + |Keyword|;
      var b := SpaceRun(s, a);
      if b == a || !FoldedAt(s, b, Of) then None
      else WordAndDay(s, b + |Of|)
  }

  /** The `\s+([letters]+)\s+(\d{1,2})` part of the header, from `c`. */
  function WordAndDay(s: string, c: nat): (r: Option<Header>)
    requires c <= |s|
    ensures r.Some? ==> |r.value.word| > 0 && forall k :: 0 <= k < |r.value.word| ==> IsWordLetter(r.value.word[k])
    ensures r.Some? ==> 0 <= r.value.day <= 99
  {
    var d := SpaceRun(s, c);
    var e := LetterRun(s, d);
    if d == c || e == d then None
    else
      var f := SpaceRun(s, e);
      if f == e || f == |s| || !IsDigit(s[f]) then None
      else
        var g := DigitsEnd(s, f);
        Some(Header(s[d..e], DigitsValue(s[f..g])))
  }

  /** The first position from `i` to `n` where `P` holds: how `search`
      tries each start position in turn. */
  function FirstFrom(P: nat -> bool, i: nat, n: nat): (r: Option<nat>)
    requires i <= n
    ensures r.Some? ==> i <= r.value <= n && P(r.value)
    decreases n - i
  {
    if P(i) then Some(i)
    else if i == n then None
    else FirstFrom(P, i + 1, n)
  }

  /** No position before the one found, and none at all when nothing is
      found, satisfies `P`. */
  lemma {:induction false} FirstFromLeftmost(P: nat -> bool, i: nat, n: nat, p: nat)
    requires i <= p <= n
    requires FirstFrom(P, i, n).None? || p < FirstFrom(P, i, n).value
    ensures !P(p)
    decreases p - i
  {
    if i < p {
      FirstFromLeftmost(P, i + 1, n, p);
    }
  }

  /** The positions of `s` where a header match starts. */
  function HeaderHere(s: string): nat -> bool {
    (p: nat) => p <= |s| && MatchHeaderAt(s, p).Some?
  }

  /** `SECTION_RE.search(s)`, giving the groups of the leftmost match. */
  function SearchHeader(s: string): Option<Header> {
    match FirstFrom(HeaderHere(s), 0, |s|)
    case Some(p) => MatchHeaderAt(s, p)
    case None => None
  }

  /** A header found is the match at some position, and no position
      before it starts a match. */
  lemma SearchHeaderLeftmost(s: string) returns (q: nat)
    requires SearchHeader(s).Some?
    ensures q <= |s| && MatchHeaderAt(s, q) == SearchHeader(s)
    ensures forall p :: 0 <= p < q ==> MatchHeaderAt(s, p).None?
  {
    q := FirstFrom(HeaderHere(s), 0, |s|).value;
    forall p | 0 <= p < q
      ensures MatchHeaderAt(s, p).None?
    {
      FirstFromLeftmost(HeaderHere(s), 0, |s|, p);
    }
  }

  /** No header is found only when no position starts a match. */
  lemma SearchHeaderNone(s: string, p: nat)
    requires SearchHeader(s).None? && p <= |s|
    ensures MatchHeaderAt(s, p).None?
  {
    FirstFromLeftmost(HeaderHere(s), 0, |s|, p);
  }

  /** `TIME_RE.match(s)` for `^\s*(\d{2}:\d{2})\s*$`, with the two numbers
      of group 1 as `map(int, group.split(":"))` gives them. */
  function ParseTime(s: string): (r: Option<TimeOfDay>)
    ensures r.Some? ==> 0 <= r.value.hour <= 99 && 0 <= r.value.minute <= 99
  {
    var a := SpaceRun(s, 0);
    if a + 5 <= |s| && IsDigit(s[a]) && IsDigit(s[a + 1]) && s[a + 2] == ':'
       && IsDigit(s[a + 3]) && IsDigit(s[a + 4]) && SpaceRun(s, a + 5) == |s|
    then Some(TimeOfDay(10 * DigitValue(s[a]) + DigitValue(s[a + 1]),
                        10 * DigitValue(s[a + 3]) + DigitValue(s[a + 4])))
    else None
  }

  /** `WEEKDAY_ES`: Spanish weekday names, with and without accents, to
      `date.weekday()` numbers. */
  const WeekdayEs: map<string, int> := map[
    "lunes" := 0, "martes" := 1, "miércoles" := 2, "miercoles" := 2,
    "jueves" := 3, "viernes" := 4, "sábado" := 5, "sabado" := 5,
    "domingo" := 6]

  /** `WEEKDAY_ES.get(word.lower())`. */
  function WeekdayOf(word: string): (r: Option<int>)
    ensures r.Some? ==> 0 <= r.value <= 6
    ensures Lower(word) !in WeekdayEs ==> r.None?
    ensures Lower(word) in WeekdayEs ==> r == Some(WeekdayEs[Lower(word)])
  {
    var key := Lower(word);
    if key in WeekdayEs then Some(WeekdayEs[key]) else None
  }

  /** Folding a folded character again changes nothing. */
  lemma LowerCharIdempotent(c: char)
    ensures LowerChar(LowerChar(c)) == LowerChar(c)
  {
  }

  /** The lookup already ignores case: a word and its small-letter form find
      the same weekday. */
  lemma WeekdayOfLower(word: string)
    ensures WeekdayOf(Lower(word)) == WeekdayOf(word)
  {
    forall k | 0 <= k < |word|
      ensures Lower(Lower(word))[k] == Lower(word)[k]
    {
      LowerCharIdempotent(word[k]);
    }
    assert Lower(Lower(word)) == Lower(word);
  }

  /** Every name in the table is written in small letters, so each is
      found as itself, with its own number. */
  lemma WeekdayTable()
    ensures forall w :: w in WeekdayEs ==> WeekdayOf(w) == Some(WeekdayEs[w])
  {
    SmallNames();
    forall w | w in WeekdayEs
      ensures WeekdayOf(w) == Some(WeekdayEs[w])
    {
      assert Lower(w) == w;
    }
  }

  lemma SmallNames()
    ensures forall w :: w in WeekdayEs ==> Lower(w) == w
  {
    SmallWeekdays();
    SmallWeekend();
  }

  lemma SmallWeekdays()
    ensures Lower("lunes") == "lunes"
    ensures Lower("martes") == "martes"
    ensures Lower("miércoles") == "miércoles"
    ensures Lower("miercoles") == "miercoles"
    ensures Lower("jueves") == "jueves"
  {
  }

  lemma SmallWeekend()
    ensures Lower("viernes") == "viernes"
    ensures Lower("sábado") == "sábado"
    ensures Lower("sabado") == "sabado"
    ensures Lower("domingo") == "domingo"
  {
  }

  /** Every ASCII capital folds to its own small letter. */
  lemma CapitalAlphabet()
    ensures Lower("ABCDEFGHIJKLM") == "abcdefghijklm"
    ensures Lower("NOPQRSTUVWXYZ") == "nopqrstuvwxyz"
  {
    FirstCapitals();
  }

  lemma FirstCapitals()
    ensures Lower("ABCDEFGHIJKLM") == "abcdefghijklm"
  {
  }

  /** Every accented capital of the word class folds to its own small
      letter. */
  lemma AccentedCapitals()
    ensures Lower("ÁÉÍÓÚÑ") == "áéíóúñ"
  {
  }

  /** Every name of the table written in capitals is found, with the
      name's number. */
  lemma CapitalWeekdays()
    ensures WeekdayOf("LUNES") == Some(0) && WeekdayOf("MARTES") == Some(1)
    ensures WeekdayOf("MIÉRCOLES") == Some(2) && WeekdayOf("MIERCOLES") == Some(2)
    ensures WeekdayOf("JUEVES") == Some(3)
  {
    assert Lower("LUNES") == "lunes";
    assert Lower("MARTES") == "martes";
    assert Lower("MIÉRCOLES") == "miércoles";
    assert Lower("MIERCOLES") == "miercoles";
    assert Lower("JUEVES") == "jueves";
  }

  lemma CapitalWeekend()
    ensures WeekdayOf("VIERNES") == Some(4) && WeekdayOf("SÁBADO") == Some(5)
    ensures WeekdayOf("SABADO") == Some(5) && WeekdayOf("DOMINGO") == Some(6)
  {
    assert Lower("VIERNES") == "viernes";
    assert Lower("SÁBADO") == "sábado";
    assert Lower("SABADO") == "sabado";
    assert Lower("DOMINGO") == "domingo";
  }

  /** Every name of the table with a capital initial is found, with the
      name's number. */
  lemma CapitalisedWeekdays()
    ensures WeekdayOf("Lunes") == Some(0) && WeekdayOf("Martes") == Some(1)
    ensures WeekdayOf("Miercoles") == Some(2) && WeekdayOf("Jueves") == Some(3)
  {
    assert Lower("Lunes") == "lunes";
    assert Lower("Martes") == "martes";
    assert Lower("Miercoles") == "miercoles";
    assert Lower("Jueves") == "jueves";
  }

  lemma CapitalisedWeekend()
    ensures WeekdayOf("Viernes") == Some(4) && WeekdayOf("Sábado") == Some(5)
    ensures WeekdayOf("Sabado") == Some(5) && WeekdayOf("Domingo") == Some(6)
  {
    assert Lower("Viernes") == "viernes";
    assert Lower("Sábado") == "sábado";
    assert Lower("Sabado") == "sabado";
    assert Lower("Domingo") == "domingo";
  }

  /** A word whose small-letter form is not a name of the table is no
      weekday, e.g. "Feriado". */
  lemma UnknownWeekday()
    ensures WeekdayOf("Feriado").None? && WeekdayOf("ESPECIAL").None?
  {
    assert Lower("Feriado") == "feriado";
    assert Lower("ESPECIAL") == "especial";
  }

  /** A capitalised accented weekday word and an upper-case unaccented one
      are both found in the table. */
  lemma WeekdayWords()
    ensures WeekdayOf("Miércoles") == Some(2)
    ensures WeekdayOf("SABADO") == Some(5)
  {
    assert Lower("Miércoles") == "miércoles";
    assert Lower("SABADO") == "sabado";
  }

  predicate AllSpace(s: string) {
    forall k :: 0 <= k < |s| ==> IsSpace(s[k])
  }

  /** `HH:MM` with two digits each. */
  function TimeText(t: TimeOfDay): (r: string)
    requires 0 <= t.hour <= 99 && 0 <= t.minute <= 99
    ensures |r| == 5
  {
    [DigitChar(t.hour / 10), DigitChar(t.hour % 10), ':',
     DigitChar(t.minute / 10), DigitChar(t.minute % 10)]
  }

  lemma {:induction false} SpaceRunOver(s: string, i: nat, j: nat)
    requires i <= j <= |s|
    requires forall k :: i <= k < j ==> IsSpace(s[k])
    ensures SpaceRun(s, i) == SpaceRun(s, j)
    decreases j - i
  {
    if i < j {
      SpaceRunOver(s, i + 1, j);
    }
  }

  /** Every line of the time-line shape is recognised, with its numbers. */
  lemma ParseTimeComplete(pre: string, t: TimeOfDay, post: string)
    requires AllSpace(pre) && AllSpace(post)
    requires 0 <= t.hour <= 99 && 0 <= t.minute <= 99
    ensures ParseTime(pre + TimeText(t) + post) == Some(t)
  {
    var s := pre + TimeText(t) + post;
    var a := |pre|;
    SpaceRunOver(s, 0, a);
    assert s[a..a + 5] == TimeText(t);
    assert s[a] == DigitChar(t.hour / 10);
    assert !IsSpace(s[a]);
    SpaceRunOver(s, a + 5, |s|);
  }

  /** Two digits read as a number and printed again give back the digits. */
  lemma DigitPair(hi: char, lo: char)
    requires IsDigit(hi) && IsDigit(lo)
    ensures var v := 10 * DigitValue(hi) + DigitValue(lo);
      DigitChar(v / 10) == hi && DigitChar(v % 10) == lo
  {
    var v := 10 * DigitValue(hi) + DigitValue(lo);
    assert v / 10 == DigitValue(hi) && v % 10 == DigitValue(lo);
  }

  /** Every recognised line has the time-line shape. */
  lemma ParseTimeSound(s: string) returns (pre: string, post: string)
    requires ParseTime(s).Some?
    ensures AllSpace(pre) && AllSpace(post)
    ensures s == pre + TimeText(ParseTime(s).value) + post
  {
    var a := SpaceRun(s, 0);
    var t := ParseTime(s).value;
    TimeAt(s);
    pre, post := s[..a], s[a + 5..];
    var w := s[a..a + 5];
    SpaceSlice(s, 0, a);
    SpaceSlice(s, a + 5, |s|);
    DigitsText(w);
    assert w == TimeText(t);
    SplitThree(s, a, a + 5);
  }

  lemma SplitThree(s: string, i: nat, j: nat)
    requires i <= j <= |s|
    ensures s == s[..i] + s[i..j] + s[j..]
  {
    assert s[..j] == s[..i] + s[i..j];
  }

  lemma SpaceSlice(s: string, i: nat, j: nat)
    requires i <= |s| && j == SpaceRun(s, i)
    ensures AllSpace(s[i..j])
  {
  }

  /** What a recognised line holds after its leading whitespace. */
  lemma TimeAt(s: string)
    requires ParseTime(s).Some?
    ensures SpaceRun(s, 0) + 5 <= |s|
    ensures var w := s[SpaceRun(s, 0)..SpaceRun(s, 0) + 5];
      IsDigit(w[0]) && IsDigit(w[1]) && w[2] == ':' && IsDigit(w[3]) && IsDigit(w[4])
      && ParseTime(s).value == TimeOfDay(10 * DigitValue(w[0]) + DigitValue(w[1]),
                                         10 * DigitValue(w[3]) + DigitValue(w[4]))
    ensures SpaceRun(s, SpaceRun(s, 0) + 5) == |s|
  {
  }

  /** Five characters `DD:DD` are the printed form of the time they read as. */
  lemma DigitsText(w: string)
    requires |w| == 5 && IsDigit(w[0]) && IsDigit(w[1]) && w[2] == ':'
    requires IsDigit(w[3]) && IsDigit(w[4])
    ensures w == TimeText(TimeOfDay(10 * DigitValue(w[0]) + DigitValue(w[1]),
                                    10 * DigitValue(w[3]) + DigitValue(w[4])))
  {
    DigitPair(w[0], w[1]);
    DigitPair(w[3], w[4]);
  }

  lemma {:induction false} LetterRunOver(s: string, i: nat, j: nat)
    requires i <= j <= |s|
    requires forall k :: i <= k < j ==> IsWordLetter(s[k])
    ensures LetterRun(s, i) == LetterRun(s, j)
    decreases j - i
  {
    if i < j {
      LetterRunOver(s, i + 1, j);
    }
  }

  /** The day as `int()` reads it back: one digit below 10, two above. */
  function DayText(day: int): (r: string)
    requires 0 <= day <= 99
    ensures 1 <= |r| <= 2
  {
    if day < 10 then [DigitChar(day)] else [DigitChar(day / 10), DigitChar(day % 10)]
  }

  /** A header as the page prints it, e.g. "Programación de Jueves 1". */
  function HeaderText(word: string, day: int): string
    requires 0 <= day <= 99
  {
    "Programación" + " " + "de" + " " + word + " " + DayText(day)
  }

  lemma LetterIsNotSpace(c: char)
    requires IsWordLetter(c)
    ensures !IsSpace(c) && !IsDigit(c)
  {
  }

  /** Matching a literal only looks at the characters it covers. */
  lemma FoldedAtSlice(s: string, i: nat, t: string, lit: string)
    requires i + |lit| <= |s| && |lit| <= |t| && s[i..i + |lit|] == t[..|lit|]
    requires FoldedAt(t, 0, lit)
    ensures FoldedAt(s, i, lit)
  {
    forall k | 0 <= k < |lit|
      ensures LowerChar(s[i + k]) == lit[k]
    {
      assert s[i + k] == s[i..i + |lit|][k] == t[k];
    }
  }

  lemma DayTextValue(day: int)
    requires 0 <= day <= 99
    ensures forall k :: 0 <= k < |DayText(day)| ==> IsDigit(DayText(day)[k])
    ensures DigitsValue(DayText(day)) == day
  {
  }

  /** A text whose small-letter form is `lit` matches `lit` ignoring case. */
  lemma FoldedLower(t: string, lit: string)
    requires Lower(t) == lit
    ensures |t| == |lit| && FoldedAt(t, 0, lit)
  {
  }

  /** A printed header is found, with its weekday word and day. */
  lemma HeaderRoundTrip(word: string, day: int)
    requires |word| > 0 && forall k :: 0 <= k < |word| ==> IsWordLetter(word[k])
    requires 0 <= day <= 99
    ensures SearchHeader(HeaderText(word, day)) == Some(Header(word, day))
  {
    FoldedLower("Programación", Keyword);
    FoldedLower("de", Of);
    assert AllSpace(" ");
    DayTextValue(day);
    HeaderFound("", "Programación", " ", "de", " ", word, " ", DayText(day), "");
    assert "" + "Programación" == "Programación";
    assert HeaderText(word, day) + "" == HeaderText(word, day);
  }

  /** A header in capitals with a zero-padded day is found. */
  lemma HeaderInCapitals()
    ensures SearchHeader("PROGRAMACIÓN DE MIÉRCOLES 05") == Some(Header("MIÉRCOLES", 5))
  {
    FoldedLower("PROGRAMACIÓN", Keyword);
    FoldedLower("DE", Of);
    assert AllSpace(" ");
    assert DigitsValue("05") == 5;
    HeaderFound("", "PROGRAMACIÓN", " ", "DE", " ", "MIÉRCOLES", " ", "05", "");
    CapitalsText();
  }

  lemma CapitalsText()
    ensures "" + "PROGRAMACIÓN" + " " + "DE" + " " + "MIÉRCOLES" + " " + "05" + ""
         == "PROGRAMACIÓN DE MIÉRCOLES 05"
  {
  }

  /** A header after other text, with doubled and tab whitespace and a
      three-digit number, of which the pattern takes the first two digits,
      is found. */
  lemma HeaderInText()
    ensures SearchHeader("xx Programación  de\tSábado 123 yy") == Some(Header("Sábado", 12))
  {
    FoldedLower("Programación", Keyword);
    FoldedLower("de", Of);
    assert AllSpace(" ") && AllSpace("  ") && AllSpace("\t");
    assert DigitsValue("12") == 12;
    HeaderFound("xx ", "Programación", "  ", "de", "\t", "Sábado", " ", "12", "3 yy");
    InTextText();
  }

  lemma InTextText()
    ensures "xx " + "Programación" + "  " + "de" + "\t" + "Sábado" + " " + "12" + "3 yy"
         == "xx Programación  de\tSábado 123 yy"
  {
  }

  /** A character that folds to a letter of the word class is such a
      letter itself, so it is neither whitespace nor a digit. */
  lemma FoldsToLetter(c: char)
    requires IsWordLetter(LowerChar(c))
    ensures IsWordLetter(c) && !IsSpace(c) && !IsDigit(c)
  {
  }

  lemma SpaceIsNotLetter(c: char)
    requires IsSpace(c)
    ensures !IsWordLetter(c) && !IsDigit(c)
  {
  }

  /** `search` tries the positions in order, so it stops at the first one
      where a match starts. */
  lemma {:induction false} FirstFromFinds(P: nat -> bool, i: nat, n: nat, p: nat)
    requires i <= p <= n && P(p)
    requires forall q :: i <= q < p ==> !P(q)
    ensures FirstFrom(P, i, n) == Some(p)
    decreases p - i
  {
    if i < p {
      FirstFromFinds(P, i + 1, n, p);
    }
  }

  /** Nothing is found when no position in range satisfies `P`. */
  lemma {:induction false} FirstFromNone(P: nat -> bool, i: nat, n: nat)
    requires i <= n && forall q :: i <= q <= n ==> !P(q)
    ensures FirstFrom(P, i, n).None?
    decreases n - i
  {
    if i < n {
      FirstFromNone(P, i + 1, n);
    }
  }

  /** A line in which no character folds to 'p' holds no header. */
  lemma NoKeywordNoHeader(s: string)
    requires forall k :: 0 <= k < |s| ==> LowerChar(s[k]) != 'p'
    ensures SearchHeader(s).None?
  {
    NoHeaderIn(s, |s|);
    assert !FoldedAt(s, |s|, Keyword);
    FirstFromNone(HeaderHere(s), 0, |s|);
  }

  /** A header pattern match at `p0`: the keyword, whitespace up to `b`,
      "de" and the word and day `h`. */
  lemma MatchAtParts(s: string, p0: nat, b: nat, c: nat, h: Header)
    requires p0 + |Keyword| <= b <= |s|
    requires FoldedAt(s, p0, Keyword) && SpaceRun(s, p0 + |Keyword|) == b && b != p0 + |Keyword|
    requires FoldedAt(s, b, Of) && c == b + |Of| && WordAndDay(s, c) == Some(h)
    ensures MatchHeaderAt(s, p0) == Some(h)
  {
  }

  /** The whitespace after the keyword runs up to the "de" at `b`. */
  lemma KeywordSpace(s: string, a: nat, b: nat)
    requires a < b <= |s| && forall k :: a <= k < b ==> IsSpace(s[k])
    requires FoldedAt(s, b, Of)
    ensures SpaceRun(s, a) == b
  {
    SpaceRunOver(s, a, b);
    assert LowerChar(s[b + 0]) == Of[0] == 'd';
    FoldsToLetter(s[b]);
  }

  /** The `\s+([letters]+)\s+(\d{1,2})` part: whitespace from `c` to `d`,
      the word to `e`, whitespace to `f` and the digits to `g`. */
  lemma WordAndDayParts(s: string, c: nat, d: nat, e: nat, f: nat, g: nat, h: Header)
    requires c < d < e < f < g <= |s|
    requires forall k :: c <= k < d ==> IsSpace(s[k])
    requires forall k :: d <= k < e ==> IsWordLetter(s[k])
    requires forall k :: e <= k < f ==> IsSpace(s[k])
    requires g <= f + 2 && forall k :: f <= k < g ==> IsDigit(s[k])
    requires g == f + 2 || g == |s| || !IsDigit(s[g])
    requires h == Header(s[d..e], DigitsValue(s[f..g]))
    ensures WordAndDay(s, c) == Some(h)
  {
    SpaceRunOver(s, c, d);
    LetterIsNotSpace(s[d]);
    assert SpaceRun(s, c) == d;
    LetterRunOver(s, d, e);
    SpaceIsNotLetter(s[e]);
    assert LetterRun(s, d) == e;
    SpaceRunOver(s, e, f);
    assert SpaceRun(s, e) == f;
    assert DigitsEnd(s, f) == g;
  }

  /** `s` holds `x` from position `i` on. */
  predicate PieceAt(s: string, i: nat, x: string) {
    i + |x| <= |s| && s[i..i + |x|] == x
  }

  lemma PieceChars(s: string, i: nat, x: string)
    requires PieceAt(s, i, x)
    ensures forall k :: i <= k < i + |x| ==> s[k] == x[k - i]
  {
    forall k | i <= k < i + |x|
      ensures s[k] == x[k - i]
    {
      assert s[k] == s[i..i + |x|][k - i];
    }
  }

  /** A header is found wherever it sits in a line: after any text in which
      no character folds to 'p', with the keyword and "de" in any mix of
      cases, any runs of whitespace between the parts and a day of one or
      two digits (a one-digit day not followed by another digit). The
      groups are the weekday word and the value of the digits. */
  lemma HeaderFound(pre: string, kw: string, s1: string, de: string, s2: string,
                    word: string, s3: string, digits: string, post: string)
    requires forall k :: 0 <= k < |pre| ==> LowerChar(pre[k]) != 'p'
    requires |kw| == |Keyword| && FoldedAt(kw, 0, Keyword)
    requires |de| == |Of| && FoldedAt(de, 0, Of)
    requires |s1| > 0 && AllSpace(s1) && |s2| > 0 && AllSpace(s2) && |s3| > 0 && AllSpace(s3)
    requires |word| > 0 && forall k :: 0 <= k < |word| ==> IsWordLetter(word[k])
    requires 1 <= |digits| <= 2 && forall k :: 0 <= k < |digits| ==> IsDigit(digits[k])
    requires |digits| == 2 || |post| == 0 || !IsDigit(post[0])
    ensures SearchHeader(pre + kw + s1 + de + s2 + word + s3 + digits + post)
         == Some(Header(word, DigitsValue(digits)))
  {
    var t := HeaderParts(pre, kw, s1, de, s2, word, s3, digits, post);
    assert PartsMatch(t);
    HeaderPieces(t);
    HeaderFoundIn(t.Text(), t);
  }

  /** A line cut into the parts of a header match: text before it, the
      keyword, whitespace, "de", whitespace, the word, whitespace, the day's
      digits and text after it. */
  datatype HeaderParts = HeaderParts(pre: string, kw: string, s1: string, de: string, s2: string,
                                     word: string, s3: string, digits: string, post: string)
  {
    function Text(): string {
      pre + kw + s1 + de + s2 + word + s3 + digits + post
    }

    /** Where the keyword, the word, the second whitespace and the digits
        start. */
    function KeywordStart(): nat { |pre| }
    function SecondSpace(): nat { |pre| + |kw| + |s1| + |de| }
    function WordStart(): nat { SecondSpace() + |s2| }
    function ThirdSpace(): nat { WordStart() + |word| }
    function DigitsStart(): nat { ThirdSpace() + |s3| }
    function PostStart(): nat { DigitsStart() + |digits| }
  }

  /** The parts read as a header match, the text before it holding no
      character that folds to 'p': `HeaderShape` with that condition on
      `pre`, written out flat so that each fact is one step away. */
  predicate PartsMatch(t: HeaderParts) {
    (forall k :: 0 <= k < |t.pre| ==> LowerChar(t.pre[k]) != 'p')
    && |t.kw| == |Keyword| && FoldedAt(t.kw, 0, Keyword)
    && |t.de| == |Of| && FoldedAt(t.de, 0, Of)
    && |t.s1| > 0 && AllSpace(t.s1) && |t.s2| > 0 && AllSpace(t.s2) && |t.s3| > 0 && AllSpace(t.s3)
    && |t.word| > 0 && (forall k :: 0 <= k < |t.word| ==> IsWordLetter(t.word[k]))
    && 1 <= |t.digits| <= 2 && (forall k :: 0 <= k < |t.digits| ==> IsDigit(t.digits[k]))
    && (|t.digits| == 2 || |t.post| == 0 || !IsDigit(t.post[0]))
  }

  /** The parts after `pre` have the shape of `SECTION_RE`: the keyword and
      "de" in any case, non-empty whitespace runs between the parts, a
      non-empty weekday word, one or two digits, and no digit right after a
      single one. */
  predicate HeaderShape(t: HeaderParts) {
    |t.kw| == |Keyword| && FoldedAt(t.kw, 0, Keyword)
    && |t.de| == |Of| && FoldedAt(t.de, 0, Of)
    && |t.s1| > 0 && AllSpace(t.s1) && |t.s2| > 0 && AllSpace(t.s2) && |t.s3| > 0 && AllSpace(t.s3)
    && |t.word| > 0 && (forall k :: 0 <= k < |t.word| ==> IsWordLetter(t.word[k]))
    && 1 <= |t.digits| <= 2 && (forall k :: 0 <= k < |t.digits| ==> IsDigit(t.digits[k]))
    && (|t.digits| == 2 || |t.post| == 0 || !IsDigit(t.post[0]))
  }

  /** The positions where the match at `i` passes from one part of the
      pattern to the next: the end of the keyword, of the first whitespace,
      of "de", of the second whitespace, of the word, of the third
      whitespace and of the digits. */
  predicate CutPoints(s: string, i: nat, a: nat, b: nat, c: nat, d: nat, e: nat, f: nat, g: nat) {
    i <= |s| && a == i + |Keyword| && a <= |s|
    && b == SpaceRun(s, a) && b != a && c == b + |Of| && c <= |s|
    && d == SpaceRun(s, c) && d != c && e == LetterRun(s, d) && e != d
    && f == SpaceRun(s, e) && f != e && f < |s| && IsDigit(s[f]) && g == DigitsEnd(s, f)
  }

  /** The line cut at the given positions. */
  function CutAt(s: string, i: nat, a: nat, b: nat, c: nat, d: nat, e: nat, f: nat, g: nat): HeaderParts
    requires CutPoints(s, i, a, b, c, d, e, f, g)
  {
    HeaderParts(s[..i], s[i..a], s[a..b], s[b..c], s[c..d], s[d..e], s[e..f], s[f..g], s[g..])
  }

  /** A match found at `i` has the shape of the pattern: the line cuts into
      header parts with `i` characters before the keyword, and the groups are
      the word and the value of the digits. */
  lemma MatchHeaderShape(s: string, i: nat) returns (t: HeaderParts)
    requires i <= |s| && MatchHeaderAt(s, i).Some?
    ensures t.Text() == s && |t.pre| == i && HeaderShape(t)
    ensures MatchHeaderAt(s, i) == Some(Header(t.word, DigitsValue(t.digits)))
  {
    var b := KeywordCuts(s, i);
    t := WordShape(s, i, b);
  }

  /** The cut of a line whose keyword sits at `i` and whose "de" sits at
      `b`, followed by a word and a day. */
  lemma WordShape(s: string, i: nat, b: nat) returns (t: HeaderParts)
    requires i <= |s| && FoldedAt(s, i, Keyword) && i + |Keyword| <= b
    requires b == SpaceRun(s, i + |Keyword|) && b != i + |Keyword|
    requires FoldedAt(s, b, Of) && WordAndDay(s, b + |Of|).Some?
    ensures t.Text() == s && |t.pre| == i && HeaderShape(t)
    ensures WordAndDay(s, b + |Of|) == Some(Header(t.word, DigitsValue(t.digits)))
  {
    var a := i + |Keyword|;
    var c := b + |Of|;
    var d, e, f, g := WordCuts(s, i, b);
    t := CutAt(s, i, a, b, c, d, e, f, g);
    SlicedText(s, i, a, b, c, d, e, f, g);
    CutShape(s, i, a, b, c, d, e, f, g);
  }

  /** The keyword, whitespace up to `b` and "de" of the match at `i`. */
  lemma KeywordCuts(s: string, i: nat) returns (b: nat)
    requires i <= |s| && MatchHeaderAt(s, i).Some?
    ensures FoldedAt(s, i, Keyword) && b == SpaceRun(s, i + |Keyword|) && b != i + |Keyword|
    ensures FoldedAt(s, b, Of) && WordAndDay(s, b + |Of|) == MatchHeaderAt(s, i)
  {
    b := SpaceRun(s, i + |Keyword|);
  }

  /** The whitespace, word, whitespace and digits read after the "de" at
      `b`. */
  lemma WordCuts(s: string, i: nat, b: nat) returns (d: nat, e: nat, f: nat, g: nat)
    requires i + |Keyword| <= |s|
    requires b == SpaceRun(s, i + |Keyword|) && b != i + |Keyword|
    requires b + |Of| <= |s| && WordAndDay(s, b + |Of|).Some?
    ensures CutPoints(s, i, i + |Keyword|, b, b + |Of|, d, e, f, g)
    ensures WordAndDay(s, b + |Of|) == Some(Header(s[d..e], DigitsValue(s[f..g])))
  {
    var c := b + |Of|;
    d := SpaceRun(s, c);
    e := LetterRun(s, d);
    f := SpaceRun(s, e);
    g := DigitsEnd(s, f);
  }

  /** The cut has the shape of the pattern. */
  lemma CutShape(s: string, i: nat, a: nat, b: nat, c: nat, d: nat, e: nat, f: nat, g: nat)
    requires CutPoints(s, i, a, b, c, d, e, f, g) && FoldedAt(s, i, Keyword) && FoldedAt(s, b, Of)
    ensures HeaderShape(CutAt(s, i, a, b, c, d, e, f, g))
    ensures CutAt(s, i, a, b, c, d, e, f, g).word == s[d..e] && CutAt(s, i, a, b, c, d, e, f, g).digits == s[f..g]
  {
    CutKeyword(s, i, a, b, c, d, e, f, g);
    CutSpaces(s, i, a, b, c, d, e, f, g);
    CutGroups(s, i, a, b, c, d, e, f, g);
  }

  /** The keyword and "de" of the cut fold to their literals. */
  lemma CutKeyword(s: string, i: nat, a: nat, b: nat, c: nat, d: nat, e: nat, f: nat, g: nat)
    requires CutPoints(s, i, a, b, c, d, e, f, g) && FoldedAt(s, i, Keyword) && FoldedAt(s, b, Of)
    ensures var t := CutAt(s, i, a, b, c, d, e, f, g);
      |t.kw| == |Keyword| && FoldedAt(t.kw, 0, Keyword) && |t.de| == |Of| && FoldedAt(t.de, 0, Of)
  {
    KeywordShape(s, i, b);
  }

  /** The three whitespace parts of the cut are non-empty runs of
      whitespace. */
  lemma CutSpaces(s: string, i: nat, a: nat, b: nat, c: nat, d: nat, e: nat, f: nat, g: nat)
    requires CutPoints(s, i, a, b, c, d, e, f, g)
    ensures var t := CutAt(s, i, a, b, c, d, e, f, g);
      |t.s1| > 0 && AllSpace(t.s1) && |t.s2| > 0 && AllSpace(t.s2) && |t.s3| > 0 && AllSpace(t.s3)
  {
    SpaceSlice(s, a, b);
    SpaceSlice(s, c, d);
    SpaceSlice(s, e, f);
  }

  /** The word of the cut is a non-empty run of letters and its digits are
      one or two digits, not followed by a digit when there is one; they are
      the text the match reads its groups from. */
  lemma CutGroups(s: string, i: nat, a: nat, b: nat, c: nat, d: nat, e: nat, f: nat, g: nat)
    requires CutPoints(s, i, a, b, c, d, e, f, g)
    ensures var t := CutAt(s, i, a, b, c, d, e, f, g);
      |t.word| > 0 && (forall k :: 0 <= k < |t.word| ==> IsWordLetter(t.word[k]))
      && 1 <= |t.digits| <= 2 && (forall k :: 0 <= k < |t.digits| ==> IsDigit(t.digits[k]))
      && (|t.digits| == 2 || |t.post| == 0 || !IsDigit(t.post[0]))
      && t.word == s[d..e] && t.digits == s[f..g]
  {
  }

  /** The keyword at `i` and the "de" at `b` read as those literals. */
  lemma KeywordShape(s: string, i: nat, b: nat)
    requires FoldedAt(s, i, Keyword) && FoldedAt(s, b, Of)
    ensures FoldedAt(s[i..i + |Keyword|], 0, Keyword) && FoldedAt(s[b..b + |Of|], 0, Of)
  {
    forall k | 0 <= k < |Keyword|
      ensures LowerChar(s[i..i + |Keyword|][k]) == Keyword[k]
    {
      assert s[i..i + |Keyword|][k] == s[i + k];
    }
    forall k | 0 <= k < |Of|
      ensures LowerChar(s[b..b + |Of|][k]) == Of[k]
    {
      assert s[b..b + |Of|][k] == s[b + k];
    }
  }

  /** Consecutive slices put back together give the line. */
  lemma SlicedText(s: string, i: nat, a: nat, b: nat, c: nat, d: nat, e: nat, f: nat, g: nat)
    requires CutPoints(s, i, a, b, c, d, e, f, g)
    ensures CutAt(s, i, a, b, c, d, e, f, g).Text() == s && |CutAt(s, i, a, b, c, d, e, f, g).pre| == i
  {
    assert s[..a] == s[..i] + s[i..a];
    assert s[..b] == s[..a] + s[a..b];
    assert s[..c] == s[..b] + s[b..c];
    assert s[..d] == s[..c] + s[c..d];
    assert s[..e] == s[..d] + s[d..e];
    assert s[..f] == s[..e] + s[e..f];
    assert s[..g] == s[..f] + s[f..g];
    assert s == s[..g] + s[g..];
  }

  /** The header `search` reports has the shape of the pattern, at the
      first position where a match starts. */
  lemma SearchHeaderShape(s: string) returns (t: HeaderParts)
    requires SearchHeader(s).Some?
    ensures t.Text() == s && HeaderShape(t)
    ensures SearchHeader(s) == Some(Header(t.word, DigitsValue(t.digits)))
    ensures forall p :: 0 <= p < |t.pre| ==> MatchHeaderAt(s, p).None?
  {
    var q := SearchHeaderLeftmost(s);
    t := MatchHeaderShape(s, q);
  }

  /** Conversely, parts of the pattern's shape make a match at the keyword,
      so a match starts at `i` exactly when the line cuts into header parts
      with `i` characters before the keyword. */
  lemma ShapeMatches(t: HeaderParts)
    requires HeaderShape(t)
    ensures MatchHeaderAt(t.Text(), |t.pre|) == Some(Header(t.word, DigitsValue(t.digits)))
  {
    HeaderPieces(t);
    PartsMatchAt(t.Text(), t, Header(t.word, DigitsValue(t.digits)));
  }

  /** Parts of the pattern's shape with no match starting before the
      keyword are what `search` reports: the converse of
      `SearchHeaderShape`. */
  lemma ShapeSearched(t: HeaderParts)
    requires HeaderShape(t)
    requires forall p :: 0 <= p < |t.pre| ==> MatchHeaderAt(t.Text(), p).None?
    ensures SearchHeader(t.Text()) == Some(Header(t.word, DigitsValue(t.digits)))
  {
    var s := t.Text();
    ShapeMatches(t);
    forall q | 0 <= q < |t.pre|
      ensures !HeaderHere(s)(q)
    {
    }
    SearchFinds(s, |t.pre|, Header(t.word, DigitsValue(t.digits)));
  }

  /** `s` is laid out as the parts of `t`. */
  predicate PartsAt(s: string, t: HeaderParts) {
    |s| == t.PostStart() + |t.post| && PieceAt(s, 0, t.pre) && PieceAt(s, t.KeywordStart(), t.kw)
    && PieceAt(s, t.KeywordStart() + |t.kw|, t.s1) && PieceAt(s, t.KeywordStart() + |t.kw| + |t.s1|, t.de)
    && PieceAt(s, t.SecondSpace(), t.s2) && PieceAt(s, t.WordStart(), t.word)
    && PieceAt(s, t.ThirdSpace(), t.s3) && PieceAt(s, t.DigitsStart(), t.digits)
    && PieceAt(s, t.PostStart(), t.post)
  }

  /** `HeaderFound` for a line `s` known only through where its parts sit. */
  lemma HeaderFoundIn(s: string, t: HeaderParts)
    requires PartsMatch(t) && PartsAt(s, t)
    ensures SearchHeader(s) == Some(Header(t.word, DigitsValue(t.digits)))
  {
    var h := Header(t.word, DigitsValue(t.digits));
    PartsPrefix(s, t);
    PartsMatchAt(s, t, h);
    SearchFinds(s, t.KeywordStart(), h);
  }

  lemma PartsPrefix(s: string, t: HeaderParts)
    requires PartsMatch(t) && PartsAt(s, t)
    ensures forall q :: 0 <= q < t.KeywordStart() ==> !HeaderHere(s)(q)
  {
    PrefixNoHeader(s, t.pre);
  }

  /** The parts make a header match at the keyword. */
  lemma PartsMatchAt(s: string, t: HeaderParts, h: Header)
    requires HeaderShape(t) && PartsAt(s, t) && h == Header(t.word, DigitsValue(t.digits))
    ensures MatchHeaderAt(s, t.KeywordStart()) == Some(h)
  {
    WordAndDayPieces(s, t, h);
    KeywordPieces(s, t, h);
  }

  /** A match at `p0` and none before it is what the search returns. */
  lemma SearchFinds(s: string, p0: nat, h: Header)
    requires p0 <= |s| && MatchHeaderAt(s, p0) == Some(h)
    requires forall q :: 0 <= q < p0 ==> !HeaderHere(s)(q)
    ensures SearchHeader(s) == Some(h)
  {
    FirstFromFinds(HeaderHere(s), 0, |s|, p0);
  }

  /** No header match starts inside a prefix in which no character folds
      to 'p'. */
  lemma PrefixNoHeader(s: string, pre: string)
    requires PieceAt(s, 0, pre) && forall k :: 0 <= k < |pre| ==> LowerChar(pre[k]) != 'p'
    ensures forall q :: 0 <= q < |pre| ==> !HeaderHere(s)(q)
  {
    PieceChars(s, 0, pre);
    NoHeaderIn(s, |pre|);
  }

  /** No header match starts among the first `n` characters when none of
      them folds to 'p'. */
  lemma NoHeaderIn(s: string, n: nat)
    requires n <= |s| && forall k :: 0 <= k < n ==> LowerChar(s[k]) != 'p'
    ensures forall q :: 0 <= q < n ==> !HeaderHere(s)(q)
  {
    forall q | 0 <= q < n
      ensures !HeaderHere(s)(q)
    {
      assert Keyword[0] == 'p';
      assert LowerChar(s[q + 0]) != Keyword[0];
    }
  }

  /** The keyword, whitespace and "de" of `t`, followed by a word and a day
      that read as `h`, make a header match at the keyword. */
  lemma KeywordPieces(s: string, t: HeaderParts, h: Header)
    requires |t.kw| == |Keyword| && FoldedAt(t.kw, 0, Keyword) && |t.de| == |Of| && FoldedAt(t.de, 0, Of)
    requires |t.s1| > 0 && AllSpace(t.s1)
    requires PieceAt(s, t.KeywordStart(), t.kw) && PieceAt(s, t.KeywordStart() + |t.kw|, t.s1)
    requires PieceAt(s, t.KeywordStart() + |t.kw| + |t.s1|, t.de)
    requires WordAndDay(s, t.SecondSpace()) == Some(h)
    ensures MatchHeaderAt(s, t.KeywordStart()) == Some(h)
  {
    KeywordAt(s, t.KeywordStart(), t.kw, t.s1, t.de, t.SecondSpace(), h);
  }

  /** `KeywordPieces` with the pieces' positions written out. */
  lemma KeywordAt(s: string, p0: nat, kw: string, s1: string, de: string, c: nat, h: Header)
    requires |kw| == |Keyword| && FoldedAt(kw, 0, Keyword) && |de| == |Of| && FoldedAt(de, 0, Of)
    requires |s1| > 0 && AllSpace(s1)
    requires PieceAt(s, p0, kw) && PieceAt(s, p0 + |kw|, s1) && PieceAt(s, p0 + |kw| + |s1|, de)
    requires c == p0 + |kw| + |s1| + |de| && WordAndDay(s, c) == Some(h)
    ensures MatchHeaderAt(s, p0) == Some(h)
  {
    var b := p0 + |kw| + |s1|;
    LiteralPiece(s, p0, kw, Keyword);
    LiteralPiece(s, b, de, Of);
    SpacePiece(s, p0 + |kw|, s1);
    MatchAtParts(s, p0, b, c, h);
  }

  /** A piece that folds to a literal of its own length makes the literal
      fold where the piece sits. */
  lemma LiteralPiece(s: string, i: nat, x: string, lit: string)
    requires |x| == |lit| && FoldedAt(x, 0, lit) && PieceAt(s, i, x)
    ensures FoldedAt(s, i, lit)
  {
    assert x[..|lit|] == x;
    FoldedAtSlice(s, i, x, lit);
  }

  /** A whitespace piece at `a` followed by "de" is the whole whitespace
      run from `a`. */
  lemma SpacePiece(s: string, a: nat, sp: string)
    requires |sp| > 0 && AllSpace(sp) && PieceAt(s, a, sp)
    requires FoldedAt(s, a + |sp|, Of)
    ensures SpaceRun(s, a) == a + |sp|
  {
    PieceChars(s, a, sp);
    forall k | a <= k < a + |sp|
      ensures IsSpace(s[k])
    {
      assert s[k] == sp[k - a];
    }
    KeywordSpace(s, a, a + |sp|);
  }

  /** The whitespace, weekday word, whitespace and digits of `t` read as
      that word and the digits' value. */
  lemma WordAndDayPieces(s: string, t: HeaderParts, h: Header)
    requires HeaderShape(t) && PartsAt(s, t) && h == Header(t.word, DigitsValue(t.digits))
    ensures WordAndDay(s, t.SecondSpace()) == Some(h)
  {
    var c := t.SecondSpace();
    var d := t.WordStart();
    var e := t.ThirdSpace();
    var f := t.DigitsStart();
    var g := t.PostStart();
    PieceChars(s, c, t.s2);
    PieceChars(s, d, t.word);
    PieceChars(s, e, t.s3);
    PieceChars(s, f, t.digits);
    if g < |s| && |t.digits| == 1 {
      PieceChars(s, g, t.post);
    }
    WordAndDayParts(s, c, d, e, f, g, h);
  }

  /** Where each part of a header line sits. */
  lemma HeaderPieces(t: HeaderParts)
    ensures PartsAt(t.Text(), t)
  {
    LeadPieces(t);
    MiddlePieces(t);
    TailPieces(t);
  }

  lemma LeadPieces(t: HeaderParts)
    ensures var s := t.Text();
      PieceAt(s, 0, t.pre) && PieceAt(s, t.KeywordStart(), t.kw) && PieceAt(s, t.KeywordStart() + |t.kw|, t.s1)
  {
    PrePiece(t);
    KeywordPiece(t);
    FirstSpacePiece(t);
  }

  lemma MiddlePieces(t: HeaderParts)
    ensures var s := t.Text();
      PieceAt(s, t.KeywordStart() + |t.kw| + |t.s1|, t.de) && PieceAt(s, t.SecondSpace(), t.s2)
      && PieceAt(s, t.WordStart(), t.word)
  {
    OfPiece(t);
    SecondSpacePiece(t);
    WordPiece(t);
  }

  lemma TailPieces(t: HeaderParts)
    ensures var s := t.Text();
      |s| == t.PostStart() + |t.post| && PieceAt(s, t.ThirdSpace(), t.s3)
      && PieceAt(s, t.DigitsStart(), t.digits) && PieceAt(s, t.PostStart(), t.post)
  {
    ThirdSpacePiece(t);
    DigitsPiece(t);
    PostPiece(t);
  }

  lemma PrePiece(t: HeaderParts)
    ensures PieceAt(t.Text(), 0, t.pre)
  {
  }

  lemma KeywordPiece(t: HeaderParts)
    ensures PieceAt(t.Text(), t.KeywordStart(), t.kw)
  {
  }

  lemma FirstSpacePiece(t: HeaderParts)
    ensures PieceAt(t.Text(), t.KeywordStart() + |t.kw|, t.s1)
  {
  }

  lemma OfPiece(t: HeaderParts)
    ensures PieceAt(t.Text(), t.KeywordStart() + |t.kw| + |t.s1|, t.de)
  {
  }

  lemma SecondSpacePiece(t: HeaderParts)
    ensures PieceAt(t.Text(), t.SecondSpace(), t.s2)
  {
  }

  lemma WordPiece(t: HeaderParts)
    ensures PieceAt(t.Text(), t.WordStart(), t.word)
  {
  }

  lemma ThirdSpacePiece(t: HeaderParts)
    ensures PieceAt(t.Text(), t.ThirdSpace(), t.s3)
  {
  }

  lemma DigitsPiece(t: HeaderParts)
    ensures PieceAt(t.Text(), t.DigitsStart(), t.digits)
  {
  }

  lemma PostPiece(t: HeaderParts)
    ensures |t.Text()| == t.PostStart() + |t.post| && PieceAt(t.Text(), t.PostStart(), t.post)
  {
  }

  /** A time line holds only whitespace, digits and one colon, so no header
      can start anywhere in it. */
  lemma TimeLineIsNotHeader(s: string)
    requires ParseTime(s).Some?
    ensures SearchHeader(s).None?
  {
    var a := SpaceRun(s, 0);
    forall p | 0 <= p <= |s|
      ensures MatchHeaderAt(s, p).None?
    {
      if MatchHeaderAt(s, p).Some? {
        assert false;
      }
    }
  }
}

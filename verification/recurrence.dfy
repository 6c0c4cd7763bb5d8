/**
 Printing and reading the recurrences of a Schedule (`toCron` and `fromCron` in `recurrence.ts`).
 Numbers are whole; a number out of range is the source's `RangeError`, here `None`.
 */
module Recurrences {
  import opened Sequences
  import opened Wrappers

  datatype Recurrence =
    | EveryNMinutes(n: int)
    | Hourly(minute: int)
    | Daily(hour: int, minute: int)
    | Weekdays(hour: int, minute: int)
    | Weekly(weekdays: seq<int>, hour: int, minute: int)
    | Monthly(day: int, hour: int, minute: int)

  predicate IsTime(hour: int, minute: int) {
    0 <= hour <= 23 && 0 <= minute <= 59
  }

  predicate AreWeekdays(days: seq<int>) {
    forall i :: 0 <= i < |days| ==> 0 <= days[i] <= 6
  }

  // -------------------------------------------------------------- numbers

  function Digit(d: nat): char
    requires d < 10
  {
    '0' + d as char
  }

  predicate IsDigit(c: char) {
    '0' <= c <= '9'
  }

  function Value(c: char): nat
    requires IsDigit(c)
  {
    c as int - '0' as int
  }

  predicate AllDigits(s: string) {
    forall i :: 0 <= i < |s| ==> IsDigit(s[i])
  }

  function Print(n: nat): string {
    if n < 10 then [Digit(n)] else Print(n / 10) + [Digit(n % 10)]
  }

  function Number(s: string): nat
    requires AllDigits(s)
  {
    if s == "" then 0 else 10 * Number(s[..|s| - 1]) + Value(s[|s| - 1])
  }

  lemma {:induction false} NumberOfPrint(n: nat)
    ensures Print(n) != "" && AllDigits(Print(n)) && Number(Print(n)) == n
  {
    if n < 10 {
      assert Print(n)[..0] == "";
      assert Number("") == 0;
    } else {
      NumberOfPrint(n / 10);
      assert Print(n)[..|Print(n)| - 1] == Print(n / 10);
    }
  }

  function ParseNumber(field: string, minimum: int, maximum: int): Option<int> {
    if field == "" || !AllDigits(field) then None
    else if minimum <= Number(field) <= maximum then Some(Number(field))
    else None
  }

  // -------------------------------------------------------------- fields

  /** What `trim` removes and `\s` matches. */
  predicate IsSpace(c: char) {
    || '\t' <= c <= '\r' || c == ' ' || c == '\U{A0}' || c == '\U{1680}' || '\U{2000}' <= c <= '\U{200A}'
    || c == '\U{2028}' || c == '\U{2029}' || c == '\U{202F}' || c == '\U{205F}' || c == '\U{3000}' || c == '\U{FEFF}'
  }

  predicate NoSpace(s: string) {
    forall i :: 0 <= i < |s| ==> !IsSpace(s[i])
  }

  function TrimStart(s: string): string {
    if s != "" && IsSpace(s[0]) then TrimStart(s[1..]) else s
  }

  function TrimEnd(s: string): string {
    if s != "" && IsSpace(s[|s| - 1]) then TrimEnd(s[..|s| - 1]) else s
  }

  /** The length of the first word. */
  function WordLength(s: string): (n: nat)
    ensures n <= |s| && NoSpace(s[..n]) && (n < |s| ==> IsSpace(s[n]))
  {
    if s == "" || IsSpace(s[0]) then 0 else 1 + WordLength(s[1..])
  }

  function Split(s: string): seq<string>
    decreases |s|
  {
    var n := WordLength(s);
    if n == |s| then [s]
    else
      Shorter(s[n + 1..]);
      [s[..n]] + Split(TrimStart(s[n + 1..]))
  }

  lemma Shorter(s: string)
    ensures |TrimStart(s)| <= |s|
  {
  }

  function Fields(cron: string): seq<string> {
    Split(TrimEnd(TrimStart(cron)))
  }

  // -------------------------------------------------------------- printing

  function Line(minute: string, hour: string, day: string, weekday: string): string {
    minute + " " + hour + " " + day + " * " + weekday
  }

  function PrintDays(days: seq<int>): string
    requires AreWeekdays(days)
  {
    if days == [] then ""
    else if |days| == 1 then Print(days[0])
    else Print(days[0]) + "," + PrintDays(days[1..])
  }

  function ToCron(r: Recurrence): Option<string> {
    match r
    case EveryNMinutes(n) =>
      if 1 <= n <= 59 then Some(Line("*/" + Print(n), "*", "*", "*")) else None
    case Hourly(minute) =>
      if 0 <= minute <= 59 then Some(Line(Print(minute), "*", "*", "*")) else None
    case Daily(hour, minute) =>
      if IsTime(hour, minute) then Some(Line(Print(minute), Print(hour), "*", "*")) else None
    case Weekdays(hour, minute) =>
      if IsTime(hour, minute) then Some(Line(Print(minute), Print(hour), "*", "1-5")) else None
    case Weekly(days, hour, minute) =>
      if !IsTime(hour, minute) then None
      else if days == [] || !Distinct(days) then None
      else if !AreWeekdays(days) then None
      else Some(Line(Print(minute), Print(hour), "*", PrintDays(days)))
    case Monthly(day, hour, minute) =>
      if IsTime(hour, minute) && 1 <= day <= 31 then Some(Line(Print(minute), Print(hour), Print(day), "*")) else None
  }

  // -------------------------------------------------------------- reading

  predicate IsDay(c: char) {
    '0' <= c <= '6'
  }

  /** Days from 0 to 6 with commas between them. */
  function ParseDays(field: string): Option<seq<int>> {
    if |field| == 1 && IsDay(field[0]) then Some([Value(field[0])])
    else if |field| >= 3 && IsDay(field[0]) && field[1] == ',' then
      match ParseDays(field[2..])
      case Some(days) => Some([Value(field[0])] + days)
      case None => None
    else None
  }

  predicate IsInterval(field: string) {
    |field| >= 3 && field[..2] == "*/" && AllDigits(field[2..])
  }

  function FromFields(minuteField: string, hourField: string, dayField: string, monthField: string,
                      weekdayField: string): Option<Recurrence> {
    if monthField != "*" then None
    else if IsInterval(minuteField) && hourField == "*" && dayField == "*" && weekdayField == "*" then
      match ParseNumber(minuteField[2..], 1, 59)
      case Some(n) => Some(EveryNMinutes(n))
      case None => None
    else match ParseNumber(minuteField, 0, 59)
      case None => None
      case Some(minute) =>
        if hourField == "*" && dayField == "*" && weekdayField == "*" then Some(Hourly(minute))
        else match ParseNumber(hourField, 0, 23)
          case None => None
          case Some(hour) => FromDate(dayField, weekdayField, hour, minute)
  }

  function FromDate(dayField: string, weekdayField: string, hour: int, minute: int): Option<Recurrence> {
    if dayField == "*" && weekdayField == "*" then Some(Daily(hour, minute))
    else if dayField == "*" && weekdayField == "1-5" then Some(Weekdays(hour, minute))
    else if dayField == "*" && ParseDays(weekdayField).Some? then
      var days := ParseDays(weekdayField).value;
      if Distinct(days) then Some(Weekly(days, hour, minute)) else None
    else if weekdayField == "*" then
      match ParseNumber(dayField, 1, 31)
      case Some(day) => Some(Monthly(day, hour, minute))
      case None => None
    else None
  }

  function FromCron(cron: string): Option<Recurrence> {
    var f := Fields(cron);
    if |f| != 5 then None else FromFields(f[0], f[1], f[2], f[3], f[4])
  }

  // -------------------------------------------------------------- round trips

  predicate IsWord(s: string) {
    s != "" && NoSpace(s)
  }

  lemma {:induction false} WordEndsAt(s: string, k: nat)
    requires k <= |s| && NoSpace(s[..k]) && (k < |s| ==> IsSpace(s[k]))
    ensures WordLength(s) == k
  {
    hide IsSpace;
    if k > 0 {
      assert s[0] == s[..k][0] && s[1..][..k - 1] == s[..k][1..];
      WordEndsAt(s[1..], k - 1);
    }
  }

  lemma SplitFirst(word: string, rest: string)
    requires IsWord(word) && rest != "" && !IsSpace(rest[0])
    ensures Split(word + " " + rest) == [word] + Split(rest)
  {
    var s := word + " " + rest;
    assert s[..|word|] == word && s[|word| + 1..] == rest;
    WordEndsAt(s, |word|);
  }

  lemma SplitLast(word: string)
    requires IsWord(word)
    ensures Split(word) == [word]
  {
    assert word[..|word|] == word;
    WordEndsAt(word, |word|);
  }

  ghost predicate AllSpace(s: string) {
    forall i :: 0 <= i < |s| ==> IsSpace(s[i])
  }

  lemma {:induction false} TrimmedStart(spaces: string, rest: string)
    requires AllSpace(spaces) && (rest == "" || !IsSpace(rest[0]))
    ensures TrimStart(spaces + rest) == rest
  {
    hide IsSpace;
    if spaces == "" {
      assert spaces + rest == rest;
    } else {
      assert (spaces + rest)[0] == spaces[0] && (spaces + rest)[1..] == spaces[1..] + rest;
      TrimmedStart(spaces[1..], rest);
    }
  }

  lemma {:induction false} TrimmedEnd(text: string, spaces: string)
    requires AllSpace(spaces) && (text == "" || !IsSpace(text[|text| - 1]))
    ensures TrimEnd(text + spaces) == text
  {
    hide IsSpace;
    if spaces == "" {
      assert text + spaces == text;
    } else {
      var k := |spaces| - 1;
      var all := text + spaces;
      assert all[|all| - 1] == spaces[k] && all[..|all| - 1] == text + spaces[..k];
      TrimmedEnd(text, spaces[..k]);
    }
  }

  ghost predicate Words(words: seq<string>) {
    words != [] && forall i :: 0 <= i < |words| ==> IsWord(words[i])
  }

  ghost predicate Gaps(gaps: seq<string>) {
    forall i :: 0 <= i < |gaps| ==> gaps[i] != "" && AllSpace(gaps[i])
  }

  /** The words with the gaps between them. */
  function Layout(words: seq<string>, gaps: seq<string>): string
    requires |words| == |gaps| + 1
  {
    if gaps == [] then words[0] else words[0] + gaps[0] + Layout(words[1..], gaps[1..])
  }

  lemma SplitAtGap(word: string, gap: string, rest: string)
    requires IsWord(word) && gap != "" && AllSpace(gap) && rest != "" && !IsSpace(rest[0])
    ensures Split(word + gap + rest) == [word] + Split(rest)
  {
    hide IsSpace;
    var s := word + gap + rest;
    assert s[..|word|] == word && s[|word|] == gap[0] && s[|word| + 1..] == gap[1..] + rest;
    WordEndsAt(s, |word|);
    TrimmedStart(gap[1..], rest);
  }

  lemma {:induction false} SplitLayout(words: seq<string>, gaps: seq<string>)
    requires Words(words) && Gaps(gaps) && |words| == |gaps| + 1
    ensures Split(Layout(words, gaps)) == words
    ensures var text := Layout(words, gaps);
            text != "" && !IsSpace(text[0]) && !IsSpace(text[|text| - 1])
  {
    hide IsSpace, Split, AllSpace;
    assert IsWord(words[0]);
    WordEnds(words[0]);
    if gaps == [] {
      SplitLast(words[0]);
    } else {
      SplitLayout(words[1..], gaps[1..]);
      var rest := Layout(words[1..], gaps[1..]);
      SplitAtGap(words[0], gaps[0], rest);
      assert words == [words[0]] + words[1..];
      var text := words[0] + gaps[0] + rest;
      assert text[0] == words[0][0] && text[|text| - 1] == rest[|rest| - 1];
    }
  }

  /** The fields of a text are its words, whatever the white space before, between and after them. */
  lemma FieldsAreWords(words: seq<string>, gaps: seq<string>, before: string, after: string)
    requires Words(words) && Gaps(gaps) && |words| == |gaps| + 1 && AllSpace(before) && AllSpace(after)
    ensures Fields(before + Layout(words, gaps) + after) == words
  {
    hide IsSpace, AllSpace, Layout, Split, Words, Gaps;
    SplitLayout(words, gaps);
    var text := Layout(words, gaps);
    assert before + text + after == before + (text + after);
    TrimmedStart(before, text + after);
    TrimmedEnd(text, after);
  }

  lemma Literals()
    ensures IsWord("*") && IsWord("1-5") && !IsSpace('*') && !IsSpace(',')
  {
  }

  lemma WordEnds(word: string)
    requires IsWord(word)
    ensures !IsSpace(word[0]) && !IsSpace(word[|word| - 1])
  {
  }

  lemma FieldsOfLine(minute: string, hour: string, day: string, weekday: string)
    requires IsWord(minute) && IsWord(hour) && IsWord(day) && IsWord(weekday)
    ensures Fields(Line(minute, hour, day, weekday)) == [minute, hour, day, "*", weekday]
  {
    hide Split, NoSpace, IsSpace;
    Literals();
    WordEnds(minute);
    WordEnds(weekday);
    assert " "[0] == ' ';
    var line := Line(minute, hour, day, weekday);
    assert line[0] == minute[0] && line[|line| - 1] == weekday[|weekday| - 1];
    assert TrimEnd(TrimStart(line)) == line;
    var monthAndAfter := "*" + " " + weekday;
    var dayAndAfter := day + " " + monthAndAfter;
    var hourAndAfter := hour + " " + dayAndAfter;
    assert line == minute + " " + hourAndAfter;
    WordEnds(hour);
    WordEnds(day);
    SplitFirst(minute, hourAndAfter);
    SplitFirst(hour, dayAndAfter);
    SplitFirst(day, monthAndAfter);
    SplitFirst("*", weekday);
    SplitLast(weekday);
  }

  lemma PrintIsWord(n: nat)
    ensures IsWord(Print(n)) && Print(n)[0] != '*'
  {
    NumberOfPrint(n);
    assert IsDigit(Print(n)[0]);
    forall i | 0 <= i < |Print(n)| ensures !IsSpace(Print(n)[i]) {
      assert IsDigit(Print(n)[i]);
    }
  }

  lemma PrintedDay(day: int)
    requires 0 <= day <= 6
    ensures Print(day) == [Digit(day)] && IsDay(Digit(day)) && Value(Digit(day)) == day && !IsSpace(Digit(day))
  {
  }

  lemma {:induction false} DaysRoundTrip(days: seq<int>)
    requires days != [] && AreWeekdays(days)
    ensures ParseDays(PrintDays(days)) == Some(days)
    ensures IsWord(PrintDays(days)) && PrintDays(days)[0] != '*'
    ensures |PrintDays(days)| > 1 ==> PrintDays(days)[1] == ','
  {
    PrintedDay(days[0]);
    if |days| == 1 {
      assert days == [days[0]];
    } else {
      DaysRoundTrip(days[1..]);
      PrependDay(days[0], days[1..], PrintDays(days[1..]));
      assert [days[0]] + days[1..] == days;
    }
  }

  lemma PrependDay(day: int, days: seq<int>, field: string)
    requires 0 <= day <= 6 && ParseDays(field) == Some(days) && IsWord(field)
    ensures ParseDays(Print(day) + "," + field) == Some([day] + days)
    ensures IsWord(Print(day) + "," + field)
    ensures (Print(day) + "," + field)[0] != '*' && (Print(day) + "," + field)[1] == ','
  {
    hide IsSpace;
    Literals();
    PrintedDay(day);
    var more := Print(day) + "," + field;
    assert more[2..] == field;
  }

  // ------------------------------------------------- what is printed and what is read, exactly

  /** A recurrence can be printed exactly if its numbers are in range and its weekdays are some, and
      different. */
  lemma PrintableExactly(r: Recurrence)
    ensures ToCron(r).Some? <==>
              match r
              case EveryNMinutes(n) => 1 <= n <= 59
              case Hourly(minute) => 0 <= minute <= 59
              case Daily(hour, minute) => 0 <= hour <= 23 && 0 <= minute <= 59
              case Weekdays(hour, minute) => 0 <= hour <= 23 && 0 <= minute <= 59
              case Weekly(days, hour, minute) =>
                && 0 <= hour <= 23 && 0 <= minute <= 59 && days != []
                && (forall i :: 0 <= i < |days| ==> 0 <= days[i] <= 6)
                && forall i, j :: 0 <= i < j < |days| ==> days[i] != days[j]
              case Monthly(day, hour, minute) => 1 <= day <= 31 && 0 <= hour <= 23 && 0 <= minute <= 59
  {
    hide Line, Print, PrintDays;
  }

  /** The field is the number in decimal, perhaps with zeros before it. */
  predicate Says(field: string, n: int) {
    field != "" && AllDigits(field) && Number(field) == n
  }

  /** The field lists these days with commas between them. */
  ghost predicate Lists(field: string, days: seq<int>) {
    && days != [] && |field| == 2 * |days| - 1
    && (forall i :: 0 <= i < |days| ==> 0 <= days[i] <= 6 && field[2 * i] == Digit(days[i]))
    && forall i :: 0 <= i < |days| - 1 ==> field[2 * i + 1] == ','
  }

  lemma {:induction false} ParsedDays(field: string, days: seq<int>)
    ensures ParseDays(field) == Some(days) <==> Lists(field, days)
  {
    if ParseDays(field) == Some(days) {
      DaysAreListed(field);
    }
    if Lists(field, days) {
      ListIsParsed(field, days);
    }
  }

  lemma {:induction false} DaysAreListed(field: string)
    requires ParseDays(field).Some?
    ensures Lists(field, ParseDays(field).value)
  {
    if |field| > 1 {
      var rest := ParseDays(field[2..]).value;
      var days := [Value(field[0])] + rest;
      DaysAreListed(field[2..]);
      forall i | 0 <= i < |days|
        ensures 0 <= days[i] <= 6 && field[2 * i] == Digit(days[i])
      {
        if i > 0 {
          assert field[2..][2 * (i - 1)] == field[2 * i] && days[i] == rest[i - 1];
        }
      }
      forall i | 0 <= i < |days| - 1
        ensures field[2 * i + 1] == ','
      {
        if i > 0 {
          assert field[2..][2 * (i - 1) + 1] == field[2 * i + 1];
        }
      }
    }
  }

  lemma {:induction false} ListIsParsed(field: string, days: seq<int>)
    requires Lists(field, days)
    ensures ParseDays(field) == Some(days)
  {
    assert field[2 * 0] == Digit(days[0]) && Value(Digit(days[0])) == days[0];
    if |days| == 1 {
      assert days == [days[0]];
    } else {
      var rest := days[1..];
      assert field[2 * 0 + 1] == ',';
      forall i | 0 <= i < |rest|
        ensures 0 <= rest[i] <= 6 && field[2..][2 * i] == Digit(rest[i])
      {
        assert field[2 * (i + 1)] == Digit(days[i + 1]);
      }
      forall i | 0 <= i < |rest| - 1
        ensures field[2..][2 * i + 1] == ','
      {
        assert field[2 * (i + 1) + 1] == ',';
      }
      ListIsParsed(field[2..], rest);
      assert [days[0]] + rest == days;
    }
  }

  /** Five fields say this recurrence. */
  ghost predicate SaysRecurrence(f: seq<string>, r: Recurrence) {
    && |f| == 5 && f[3] == "*"
    && match r
       case EveryNMinutes(n) =>
         && |f[0]| > 2 && f[0][..2] == "*/" && Says(f[0][2..], n) && 1 <= n <= 59
         && f[1] == "*" && f[2] == "*" && f[4] == "*"
       case Hourly(minute) => Says(f[0], minute) && minute <= 59 && f[1] == "*" && f[2] == "*" && f[4] == "*"
       case Daily(hour, minute) => SaysTime(f, hour, minute) && f[2] == "*" && f[4] == "*"
       case Weekdays(hour, minute) => SaysTime(f, hour, minute) && f[2] == "*" && f[4] == "1-5"
       case Weekly(days, hour, minute) =>
         && SaysTime(f, hour, minute) && f[2] == "*" && Lists(f[4], days)
         && forall i, j :: 0 <= i < j < |days| ==> days[i] != days[j]
       case Monthly(day, hour, minute) =>
         SaysTime(f, hour, minute) && Says(f[2], day) && 1 <= day <= 31 && f[4] == "*"
  }

  ghost predicate SaysTime(f: seq<string>, hour: int, minute: int)
    requires |f| == 5
  {
    Says(f[0], minute) && minute <= 59 && Says(f[1], hour) && hour <= 23
  }

  /** Main result: a text is read as a recurrence exactly if it has five fields that say it. */
  lemma ReadsExactly(cron: string, r: Recurrence)
    ensures FromCron(cron) == Some(r) <==> SaysRecurrence(Fields(cron), r)
  {
    hide Fields, Number, ParseDays, Lists;
    var f := Fields(cron);
    if |f| == 5 {
      if r.Weekly? {
        ParsedDays(f[4], r.weekdays);
      }
      NotBoth(f[0]);
      NotBoth(f[1]);
      NotBoth(f[2]);
      NotDays();
    }
  }

  /** A field that says a number is no star and no interval. */
  lemma NotBoth(field: string)
    ensures field != "" && AllDigits(field) ==> field != "*" && !IsInterval(field)
  {
    assert field != "" && AllDigits(field) ==> IsDigit(field[0]);
  }

  lemma NotDays()
    ensures ParseDays("*").None? && ParseDays("1-5").None?
  {
  }

  /** Main result: what is printed is read back as what it was. */
  lemma RoundTrip(r: Recurrence)
    requires ToCron(r).Some?
    ensures FromCron(ToCron(r).value) == Some(r)
  {
    hide Fields, Print, ParseDays, PrintDays, Number, IsSpace, NoSpace, Line, AllDigits;
    Literals();
    match r
    case EveryNMinutes(n) => IntervalRoundTrip(n);
    case Hourly(minute) => PrintedNumber(minute); FieldsOfLine(Print(minute), "*", "*", "*");
    case Daily(hour, minute) =>
      PrintedNumber(minute); PrintedNumber(hour);
      FieldsOfLine(Print(minute), Print(hour), "*", "*");
    case Weekdays(hour, minute) =>
      PrintedNumber(minute); PrintedNumber(hour);
      FieldsOfLine(Print(minute), Print(hour), "*", "1-5");
    case Weekly(days, hour, minute) =>
      PrintedNumber(minute); PrintedNumber(hour); DaysRoundTrip(days);
      assert PrintDays(days) != "1-5";
      FieldsOfLine(Print(minute), Print(hour), "*", PrintDays(days));
    case Monthly(day, hour, minute) =>
      PrintedNumber(minute); PrintedNumber(hour); PrintedNumber(day);
      FieldsOfLine(Print(minute), Print(hour), Print(day), "*");
  }

  lemma PrintedNumber(n: nat)
    ensures IsWord(Print(n)) && Print(n) != "*" && !IsInterval(Print(n))
    ensures forall lo, hi :: lo <= n <= hi ==> ParseNumber(Print(n), lo, hi) == Some(n)
  {
    PrintIsWord(n);
    NumberOfPrint(n);
  }

  lemma IntervalRoundTrip(n: int)
    requires 1 <= n <= 59
    ensures FromCron(Line("*/" + Print(n), "*", "*", "*")) == Some(EveryNMinutes(n))
  {
    var field := "*/" + Print(n);
    PrintIsWord(n);
    NumberOfPrint(n);
    assert IsWord(field);
    hide Print, Fields, IsSpace, NoSpace, Line, Number;
    Literals();
    assert field[2..] == Print(n);
    FieldsOfLine(field, "*", "*", "*");
  }

  lemma {:induction false} DaysAreDays(field: string)
    ensures ParseDays(field).Some? ==> ParseDays(field).value != [] && AreWeekdays(ParseDays(field).value)
  {
    if |field| >= 3 {
      DaysAreDays(field[2..]);
    }
  }

  /** Whatever is read can be printed, and reads back as the same recurrence. */
  lemma ReadsBack(cron: string)
    requires FromCron(cron).Some?
    ensures ToCron(FromCron(cron).value).Some?
    ensures FromCron(ToCron(FromCron(cron).value).value) == FromCron(cron)
  {
    hide Fields, Print, ParseDays, PrintDays, Number, Line, AllDigits, Distinct;
    var f := Fields(cron);
    DaysAreDays(f[4]);
    RoundTrip(FromCron(cron).value);
  }

  /** Different recurrences are printed differently. */
  lemma PrintingIsInjective(r: Recurrence, s: Recurrence)
    requires ToCron(r).Some? && ToCron(r) == ToCron(s)
    ensures r == s
  {
    RoundTrip(r);
    RoundTrip(s);
  }

  function Normal(cron: string): Option<string> {
    match FromCron(cron)
    case Some(r) => ToCron(r)
    case None => None
  }

  /** Reading and printing again settles a text in one step, and two texts settle alike exactly when
      they are read alike. */
  lemma NormalIsIdempotent(a: string, b: string)
    requires FromCron(a).Some? && FromCron(b).Some?
    ensures Normal(a).Some? && Normal(Normal(a).value) == Normal(a)
    ensures Normal(a) == Normal(b) <==> FromCron(a) == FromCron(b)
  {
    hide FromCron, ToCron;
    ReadsBack(a);
    ReadsBack(b);
  }

  // -------------------------------------------------------------- what a cron line means

  /** A minute of the calendar. */
  datatype Moment = Moment(minute: nat, hour: nat, day: nat, month: nat, weekday: nat)

  /** When a recurrence is due. */
  predicate Due(r: Recurrence, m: Moment) {
    match r
    case EveryNMinutes(n) => n > 0 && m.minute % n == 0
    case Hourly(minute) => m.minute == minute
    case Daily(hour, minute) => m.hour == hour && m.minute == minute
    case Weekdays(hour, minute) => m.hour == hour && m.minute == minute && 1 <= m.weekday <= 5
    case Weekly(days, hour, minute) => m.hour == hour && m.minute == minute && m.weekday in days
    case Monthly(day, hour, minute) => m.hour == hour && m.minute == minute && m.day == day
  }

  function Find(s: string, c: char): (n: nat)
    ensures n <= |s| && (n < |s| ==> s[n] == c) && forall i :: 0 <= i < n ==> s[i] != c
  {
    if s == "" || s[0] == c then 0 else 1 + Find(s[1..], c)
  }

  predicate IsNumber(s: string) {
    s != "" && AllDigits(s)
  }

  /** One item of a cron field: every value, every n-th value, one value, or a range. */
  predicate ItemCovers(item: string, least: nat, value: nat) {
    var dash := Find(item, '-');
    || item == "*"
    || (IsInterval(item) && Number(item[2..]) > 0 && (value - least) % Number(item[2..]) == 0)
    || (IsNumber(item) && Number(item) == value)
    || (dash < |item| && IsNumber(item[..dash]) && IsNumber(item[dash + 1..])
        && Number(item[..dash]) <= value <= Number(item[dash + 1..]))
  }

  predicate Covers(field: string, least: nat, value: nat)
    decreases |field|
  {
    var comma := Find(field, ',');
    ItemCovers(field[..comma], least, value) || (comma < |field| && Covers(field[comma + 1..], least, value))
  }

  /** The usual reading of five fields: a day of the month and a weekday that are both restricted
      are alternatives. */
  predicate Matches(cron: string, m: Moment) {
    var f := Fields(cron);
    && |f| == 5 && Covers(f[0], 0, m.minute) && Covers(f[1], 0, m.hour) && Covers(f[3], 1, m.month)
    && if f[2] == "*" || f[4] == "*" then Covers(f[2], 1, m.day) && Covers(f[4], 0, m.weekday)
       else Covers(f[2], 1, m.day) || Covers(f[4], 0, m.weekday)
  }

  lemma StarCovers(least: nat, value: nat)
    ensures Covers("*", least, value)
  {
    assert Find("*", ',') == 1 by { assert "*"[1..] == ""; }
    assert "*"[..1] == "*";
  }

  lemma NumberCovers(field: string, least: nat, value: nat)
    requires IsNumber(field)
    ensures Covers(field, least, value) <==> Number(field) == value
  {
    assert IsDigit(field[0]);
    assert Find(field, ',') == |field| && Find(field, '-') == |field|;
    assert field[..|field|] == field;
  }

  lemma IntervalCovers(field: string, value: nat)
    requires IsInterval(field) && Number(field[2..]) > 0
    ensures Covers(field, 0, value) <==> value % Number(field[2..]) == 0
  {
    forall i | 0 <= i < |field| ensures field[i] != ',' && field[i] != '-' {
      if i < 2 {
        assert field[..2][i] == field[i];
      } else {
        assert IsDigit(field[2..][i - 2]);
      }
    }
    assert Find(field, ',') == |field| && Find(field, '-') == |field|;
    assert field[..|field|] == field;
    assert field[..2][0] == field[0];
    assert !IsDigit(field[0]);
  }

  lemma DigitNumber(c: char)
    requires IsDigit(c)
    ensures IsNumber([c]) && Number([c]) == Value(c)
  {
    assert [c][..0] == "";
    assert Number("") == 0;
  }

  lemma WeekdaysCovers(value: nat)
    ensures Covers("1-5", 0, value) <==> 1 <= value <= 5
  {
    var field := "1-5";
    assert Find(field, ',') == 3;
    assert field[..3] == field;
    assert Find(field, '-') == 1;
    assert field[..1] == ['1'] && field[2..] == ['5'];
    DigitNumber('1');
    DigitNumber('5');
    assert field[0] != '*' && !IsDigit(field[1]);
    assert field[..2][0] == '1';
  }

  lemma {:induction false} DaysCover(field: string, value: nat)
    requires ParseDays(field).Some?
    ensures Covers(field, 0, value) <==> value in ParseDays(field).value
  {
    DigitNumber(field[0]);
    if |field| == 1 {
      assert field == [field[0]];
      NumberCovers(field, 0, value);
    } else {
      assert Find(field, ',') == 1;
      assert field[..1] == [field[0]];
      NumberCovers([field[0]], 0, value);
      assert Find([field[0]], ',') == 1 && [field[0]][..1] == [field[0]];
      DaysCover(field[2..], value);
    }
  }

  /** Main result: a line that is read as a recurrence matches exactly the minutes at which that
      recurrence is due. */
  lemma ReadingKeepsMeaning(cron: string, m: Moment)
    requires FromCron(cron).Some?
    ensures Matches(cron, m) <==> Due(FromCron(cron).value, m)
  {
    hide Fields, Covers, ParseDays, Number, AllDigits, Distinct;
    var f := Fields(cron);
    StarCovers(0, m.hour);
    StarCovers(1, m.day);
    StarCovers(1, m.month);
    StarCovers(0, m.weekday);
    FieldCovers(f[0], 0, 59, 0, m.minute);
    FieldCovers(f[1], 0, 23, 0, m.hour);
    FieldCovers(f[2], 1, 31, 1, m.day);
    WeekdaysCovers(m.weekday);
    if FromCron(cron).value.EveryNMinutes? {
      IntervalCovers(f[0], m.minute);
    }
    if ParseDays(f[4]).Some? {
      DaysCover(f[4], m.weekday);
    }
  }

  lemma FieldCovers(field: string, minimum: int, maximum: int, least: nat, value: nat)
    ensures ParseNumber(field, minimum, maximum).Some? ==>
              (Covers(field, least, value) <==> ParseNumber(field, minimum, maximum) == Some(value))
  {
    if ParseNumber(field, minimum, maximum).Some? {
      NumberCovers(field, least, value);
    }
  }

  /** So does a printed one. */
  lemma PrintingKeepsMeaning(r: Recurrence, m: Moment)
    requires ToCron(r).Some?
    ensures Matches(ToCron(r).value, m) <==> Due(r, m)
  {
    hide FromCron, ToCron, Matches, Due;
    RoundTrip(r);
    ReadingKeepsMeaning(ToCron(r).value, m);
  }
}

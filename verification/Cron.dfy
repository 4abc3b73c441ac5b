/** Friendly schedules and cron strings (interfaces/slack_home/cron.py). ValueError is `None`. */
module Cron {
  import opened Wrappers
  import opened Text
  import opened Frontmatter

  // ---- Python's int() on ASCII text ----

  /** Digits, single underscores allowed between them. */
  predicate IsNumeral(s: string) {
    && s != "" && IsDigit(s[0])
    && (|s| == 1 || IsNumeral(if s[1] == '_' then s[2..] else s[1..]))
  }

  function WithoutUnderscores(s: string): (r: string)
    requires IsNumeral(s)
    ensures AllDigits(r)
  {
    if |s| == 1 then s else [s[0]] + WithoutUnderscores(if s[1] == '_' then s[2..] else s[1..])
  }

  predicate IsSign(c: char) { c == '+' || c == '-' }

  function ParseInt(s: string): Option<int> {
    var t := Trim(s, PySpace);
    var digits := if t != "" && IsSign(t[0]) then t[1..] else t;
    if !IsNumeral(digits) then None
    else
      var n: int := DigitsValue(WithoutUnderscores(digits));
      Some(if t[0] == '-' then -n else n)
  }

  /** `f"{n:02d}"`. */
  function Pad2(n: int): string {
    if n < 0 then "-" + Dec(-n) else if n < 10 then "0" + Dec(n) else Dec(n)
  }

  // ---- clock times ----

  /** `s.split(":")`, when it has two parts. */
  function SplitPair(s: string): Option<(string, string)> {
    var i := FirstColon(s);
    if i == |s| || ':' in s[i + 1..] then None else Some((s[..i], s[i + 1..]))
  }

  datatype Clock = Clock(hour: int, minute: int)

  predicate OnDial(hour: int, minute: int) { 0 <= hour <= 23 && 0 <= minute <= 59 }

  /** `_parse_hhmm`. */
  function ParseTime(s: string): (r: Option<Clock>)
    ensures r.Some? ==> OnDial(r.value.hour, r.value.minute)
  {
    var parts := SplitPair(s);
    if parts.None? then None
    else
      var hour, minute := ParseInt(parts.value.0), ParseInt(parts.value.1);
      if hour.None? || minute.None? || !OnDial(hour.value, minute.value) then None
      else Some(Clock(hour.value, minute.value))
  }

  /** Minutes after midnight, moved back within the day. */
  function Back(minutes: int, minus: int): (r: int)
    ensures 0 <= r < 1440
  {
    (minutes - minus) % 1440
  }

  function MinutesOf(c: Clock): int { c.hour * 60 + c.minute }

  function ShiftClock(c: Clock, minus: int): Clock {
    var total := Back(MinutesOf(c), minus);
    Clock(total / 60, total % 60)
  }

  function Write(c: Clock): string { Pad2(c.hour) + ":" + Pad2(c.minute) }

  /** `shift_time`. */
  function ShiftTime(s: string, minus: int): Option<string> {
    var t := ParseTime(s);
    if t.None? then None else Some(Write(ShiftClock(t.value, minus)))
  }

  function Suffix(hour: int): string { if hour < 12 then "AM" else "PM" }

  function Hour12(hour: int): nat
    requires 0 <= hour
  {
    if hour % 12 == 0 then 12 else hour % 12
  }

  function Time12(t: Clock): string
    requires OnDial(t.hour, t.minute)
  {
    Dec(Hour12(t.hour)) + ":" + (Pad2(t.minute) + " " + Suffix(t.hour))
  }

  /** `time_to_12h`. */
  function TimeTo12h(s: string): Option<string> {
    var t := ParseTime(s);
    if t.None? then None else Some(Time12(t.value))
  }

  // ---- rendered numbers parse back ----

  lemma {:induction false} NoUnderscores(s: string)
    requires s != "" && AllDigits(s)
    ensures IsNumeral(s) && WithoutUnderscores(s) == s
  {
    if |s| > 1 {
      DigitIsPlain(s[1]);
      NoUnderscores(s[1..]);
    }
  }

  lemma DigitIsPlain(c: char)
    requires IsDigit(c)
    ensures !PySpace(c) && c != ':' && c != '_' && !IsSign(c)
  {
  }

  lemma ParseDigits(s: string)
    requires s != "" && AllDigits(s)
    ensures ParseInt(s) == Some(DigitsValue(s))
  {
    NoUnderscores(s);
    DigitIsPlain(s[0]);
    DigitIsPlain(s[|s| - 1]);
    assert Trim(s, PySpace) == s;
  }

  lemma LeadingZero(n: nat)
    requires n < 10
    ensures AllDigits("0" + Dec(n)) && DigitsValue("0" + Dec(n)) == n
  {
    var s := "0" + Dec(n);
    assert Dec(n) == [Digit(n)];
    assert s == ['0', Digit(n)];
    assert s[..1] == ['0'] && ['0'][..0] == [];
    assert DigitsValue(['0']) == 0;
  }

  /** A padded number is digits and reads back as itself. */
  lemma PadParses(n: nat)
    ensures AllDigits(Pad2(n)) && Pad2(n) != "" && ParseInt(Pad2(n)) == Some(n) && DigitsValue(Pad2(n)) == n
  {
    if n < 10 {
      LeadingZero(n);
    } else {
      DecRoundTrip(n);
    }
    ParseDigits(Pad2(n));
  }

  lemma DecParses(n: nat)
    ensures ParseInt(Dec(n)) == Some(n)
  {
    DecRoundTrip(n);
    ParseDigits(Dec(n));
  }

  lemma ColonBehindDigits(a: string, b: string)
    requires AllDigits(a)
    ensures FirstColon(a + ":" + b) == |a|
  {
    var s := a + ":" + b;
    forall j | 0 <= j < |a| ensures s[j] != ':' {
      DigitIsPlain(a[j]);
    }
    FirstColonAt(s, |a|);
  }

  lemma DigitsHoldNoColon(s: string)
    requires AllDigits(s)
    ensures ':' !in s
  {
  }

  lemma PairParses(a: string, b: string, hour: int, minute: int)
    requires AllDigits(a) && AllDigits(b) && OnDial(hour, minute)
    requires ParseInt(a) == Some(hour) && ParseInt(b) == Some(minute)
    ensures ParseTime(a + ":" + b) == Some(Clock(hour, minute))
  {
    var s := a + ":" + b;
    ColonBehindDigits(a, b);
    DigitsHoldNoColon(b);
    assert s[..|a|] == a && s[|a| + 1..] == b;
    assert SplitPair(s) == Some((a, b));
  }

  /** "HH:MM" parses to the hour and minute it was written from. */
  lemma ClockRoundTrip(c: Clock)
    requires OnDial(c.hour, c.minute)
    ensures ParseTime(Write(c)) == Some(c)
  {
    PadParses(c.hour);
    PadParses(c.minute);
    PairParses(Pad2(c.hour), Pad2(c.minute), c.hour, c.minute);
  }

  lemma WrittenLength(c: Clock)
    requires OnDial(c.hour, c.minute)
    ensures |Write(c)| == 5
  {
    TwoDigits(c.hour);
    TwoDigits(c.minute);
  }

  // ---- shifting ----

  lemma ShiftedClock(c: Clock, minus: int)
    ensures var d := ShiftClock(c, minus);
            OnDial(d.hour, d.minute) && MinutesOf(d) == Back(MinutesOf(c), minus)
  {
  }

  lemma SameMinutes(c: Clock, d: Clock)
    requires OnDial(c.hour, c.minute) && OnDial(d.hour, d.minute) && MinutesOf(c) == MinutesOf(d)
    ensures c == d
  {
  }

  lemma TwoDigits(n: nat)
    requires n < 100
    ensures |Pad2(n)| == 2
  {
    if n >= 10 {
      assert Dec(n) == Dec(n / 10) + [Digit(n % 10)];
    }
  }

  lemma BackTwice(x: int, a: int, b: int)
    ensures Back(Back(x, a), b) == Back(x, a + b)
  {
    var q := (x - a) / 1440;
    assert x - a == 1440 * q + Back(x, a);
    BackDays(x - b, a, q);
    assert x - b - (a + 1440 * q) == Back(x, a) - b;
    assert Back(x - b, a) == Back(x, a + b);
  }

  lemma BackDays(x: int, a: int, days: int)
    ensures Back(x, a + 1440 * days) == Back(x, a)
  {
    var r := (x - a) / 1440;
    assert x - (a + 1440 * days) == 1440 * (r - days) + Back(x, a);
  }

  lemma ShiftClockTwice(c: Clock, a: int, b: int)
    ensures ShiftClock(ShiftClock(c, a), b) == ShiftClock(c, a + b)
  {
    ShiftedClock(c, a);
    BackTwice(MinutesOf(c), a, b);
  }

  lemma ShiftClockDays(c: Clock, a: int, days: int)
    ensures ShiftClock(c, a + 1440 * days) == ShiftClock(c, a)
  {
    BackDays(MinutesOf(c), a, days);
  }

  lemma BackUndone(x: int, a: int)
    requires 0 <= x < 1440
    ensures Back(Back(x, a), -a) == x
  {
    BackTwice(x, a, -a);
    assert a + -a == 0 && Back(x, 0) == x;
  }

  lemma ShiftClockUndone(c: Clock, a: int)
    requires OnDial(c.hour, c.minute)
    ensures ShiftClock(ShiftClock(c, a), -a) == c
  {
    var d := ShiftClock(c, a);
    ShiftedClock(c, a);
    ShiftedClock(d, -a);
    BackUndone(MinutesOf(c), a);
    SameMinutes(ShiftClock(d, -a), c);
  }

  /** A time that reads as c shifts to one that is written HH:MM and reads as c moved back, modulo a day. */
  lemma ShiftReads(s: string, c: Clock, minus: int) returns (d: Clock)
    requires ParseTime(s) == Some(c)
    ensures d == ShiftClock(c, minus) && OnDial(d.hour, d.minute)
    ensures MinutesOf(d) == (MinutesOf(c) - minus) % 1440
    ensures ShiftTime(s, minus) == Some(Write(d)) && ParseTime(Write(d)) == Some(d) && |Write(d)| == 5
  {
    d := ShiftClock(c, minus);
    ShiftedClock(c, minus);
    ClockRoundTrip(d);
    WrittenLength(d);
  }

  lemma ShiftTwice(s: string, a: int, b: int)
    requires ParseTime(s).Some?
    ensures ShiftTime(s, a).Some? && ShiftTime(ShiftTime(s, a).value, b) == ShiftTime(s, a + b)
  {
    var c := ParseTime(s).value;
    var d := ShiftReads(s, c, a);
    var e := ShiftReads(Write(d), d, b);
    var f := ShiftReads(s, c, a + b);
    ShiftClockTwice(c, a, b);
  }

  lemma ShiftUndone(s: string, a: int)
    requires ParseTime(s).Some?
    ensures ShiftTime(s, a).Some? && ShiftTime(ShiftTime(s, a).value, -a) == Some(Write(ParseTime(s).value))
  {
    var c := ParseTime(s).value;
    var d := ShiftReads(s, c, a);
    var e := ShiftReads(Write(d), d, -a);
    ShiftClockUndone(c, a);
  }

  /** Shifting acts like the integers modulo 1440: twice is once by the sum, whole days change nothing, and the
      opposite shift gives the time back, written HH:MM. */
  lemma ShiftIsAnAction(s: string, a: int, b: int, days: int)
    requires ParseTime(s).Some?
    ensures ShiftTime(s, a).Some? && ShiftTime(ShiftTime(s, a).value, b) == ShiftTime(s, a + b)
    ensures ShiftTime(s, a + 1440 * days) == ShiftTime(s, a)
    ensures ShiftTime(ShiftTime(s, a).value, -a) == Some(Write(ParseTime(s).value))
  {
    ShiftTwice(s, a, b);
    ShiftUndone(s, a);
    ShiftClockDays(ParseTime(s).value, a, days);
  }

  // ---- cron strings ----

  const EVERY_MINUTE := "* * * * *"

  function Dow(frequency: string): Option<string> {
    if frequency == "daily" then Some("*")
    else if frequency == "weekdays" then Some("1-5")
    else if frequency == "weekly" then Some("1")
    else None
  }

  /** `f"{mm} {hh} * * {dow}"`. */
  function CronLine(t: Clock, dow: string): string
    requires OnDial(t.hour, t.minute)
  {
    Dec(t.minute) + " " + (Dec(t.hour) + " " + ("*" + " " + ("*" + " " + dow)))
  }

  /** `to_cron`; the frequency is stripped and lower-cased first. */
  function ToCron(frequency: string, time: string): Option<string> {
    var freq := Lower(Trim(frequency, PySpace));
    if freq == "minutely" then Some(EVERY_MINUTE)
    else
      var t := ParseTime(time);
      if t.None? || Dow(freq).None? then None else Some(CronLine(t.value, Dow(freq).value))
  }

  /** `to_cron_weekday`. */
  function ToCronWeekday(dow: int, time: string): Option<string> {
    var t := ParseTime(time);
    if t.None? || !(0 <= dow <= 6) then None else Some(CronLine(t.value, Dec(dow)))
  }

  function TakeWord(s: string): (k: nat)
    ensures k <= |s|
  {
    if s == "" || PySpace(s[0]) then 0 else 1 + TakeWord(s[1..])
  }

  /** `s.split()`. */
  function Words(s: string): seq<string>
    decreases |s|
  {
    if s == "" then []
    else if PySpace(s[0]) then Words(s[1..])
    else
      var k := TakeWord(s);
      assert k > 0;
      [s[..k]] + Words(s[k..])
  }

  function Label(dow: string): string {
    if dow == "*" then "Daily" else if dow == "1-5" then "Weekdays" else if dow == "1" then "Weekly"
    else if dow != "" && AllDigits(dow) then WeekdayLabel(DigitsValue(dow) % 7)
    else dow
  }

  function WeekdayLabel(day: nat): string
    requires day < 7
  {
    ["Sundays", "Mondays", "Tuesdays", "Wednesdays", "Thursdays", "Fridays", "Saturdays"][day]
  }

  /** `cron_to_friendly`. */
  function CronToFriendly(cron: string): string {
    if Trim(cron, PySpace) == EVERY_MINUTE then "Every minute"
    else
      var parts := Words(cron);
      if |parts| != 5 then (if cron == "" then "?" else cron)
      else
        var when := FieldsTime(parts[0], parts[1]);
        if when.None? then cron else Label(parts[4]) + " " + when.value
  }

  /** The time of a cron line's first two fields, in 12-hour form. */
  function FieldsTime(minute: string, hour: string): Option<string> {
    var m, h := ParseInt(minute), ParseInt(hour);
    if m.None? || h.None? then None else TimeTo12h(Write(Clock(h.value, m.value)))
  }

  lemma FieldsTimeOf(t: Clock)
    requires OnDial(t.hour, t.minute)
    ensures FieldsTime(Dec(t.minute), Dec(t.hour)) == Some(Time12(t))
  {
    DecParses(t.minute);
    DecParses(t.hour);
    ClockRoundTrip(t);
  }

  predicate IsWord(s: string) { s != "" && forall i | 0 <= i < |s| :: !PySpace(s[i]) }

  lemma {:induction false} TakeWordStops(w: string, rest: string)
    requires forall i | 0 <= i < |w| :: !PySpace(w[i])
    requires rest == "" || PySpace(rest[0])
    ensures TakeWord(w + rest) == |w|
  {
    if w == "" {
      assert w + rest == rest;
    } else {
      assert (w + rest)[1..] == w[1..] + rest;
      TakeWordStops(w[1..], rest);
    }
  }

  lemma FirstWord(w: string, rest: string)
    requires IsWord(w)
    ensures Words(w + " " + rest) == [w] + Words(rest)
  {
    var s := w + " " + rest;
    assert s == w + (" " + rest);
    TakeWordStops(w, " " + rest);
    assert s[0] == w[0] && s[..|w|] == w && s[|w|..] == " " + rest && (" " + rest)[1..] == rest;
  }

  lemma LastWord(w: string)
    requires IsWord(w)
    ensures Words(w) == [w]
  {
    assert w + "" == w;
    TakeWordStops(w, "");
    assert w[..|w|] == w && w[|w|..] == "";
  }

  lemma DigitsAreWord(s: string)
    requires s != "" && AllDigits(s)
    ensures IsWord(s)
  {
    forall i | 0 <= i < |s| ensures !PySpace(s[i]) { DigitIsPlain(s[i]); }
  }

  lemma MoreWords(w: string, rest: string, words: seq<string>) returns (s: string)
    requires IsWord(w) && Words(rest) == words
    ensures s == w + " " + rest && Words(s) == [w] + words
  {
    s := w + " " + rest;
    FirstWord(w, rest);
  }

  lemma FiveWords(a: string, b: string, c: string, d: string, e: string)
    requires IsWord(a) && IsWord(b) && IsWord(c) && IsWord(d) && IsWord(e)
    ensures Words(a + " " + (b + " " + (c + " " + (d + " " + e)))) == [a, b, c, d, e]
  {
    LastWord(e);
    var s4 := MoreWords(d, e, [e]);
    var s3 := MoreWords(c, s4, [d, e]);
    var s2 := MoreWords(b, s3, [c, d, e]);
    var s1 := MoreWords(a, s2, [b, c, d, e]);
  }

  /** A line is its words, with white space of any kind and length between and around them. */
  lemma WordsExactly(w: string, space: char, rest: string)
    requires PySpace(space)
    ensures Words("") == [] && Words([space] + rest) == Words(rest)
    ensures IsWord(w) ==> Words(w + ([space] + rest)) == [w] + Words(rest) && Words(w) == [w]
  {
    assert ([space] + rest)[1..] == rest;
    if IsWord(w) {
      var s := w + ([space] + rest);
      TakeWordStops(w, [space] + rest);
      assert s[0] == w[0] && s[..|w|] == w && s[|w|..] == [space] + rest;
      LastWord(w);
    }
  }

  /** A generated line splits into its five fields. */
  lemma LineFields(t: Clock, dow: string)
    requires OnDial(t.hour, t.minute) && IsWord(dow)
    ensures Words(CronLine(t, dow)) == [Dec(t.minute), Dec(t.hour), "*", "*", dow]
  {
    DigitsAreWord(Dec(t.minute));
    DigitsAreWord(Dec(t.hour));
    FiveWords(Dec(t.minute), Dec(t.hour), "*", "*", dow);
  }

  lemma LineIsNotEveryMinute(t: Clock, dow: string)
    requires OnDial(t.hour, t.minute) && IsWord(dow)
    ensures Trim(CronLine(t, dow), PySpace) != EVERY_MINUTE
  {
    var line := CronLine(t, dow);
    var d := Dec(t.minute);
    assert line[0] == d[0] && line[|line| - 1] == dow[|dow| - 1];
    DigitIsPlain(d[0]);
    assert Trim(line, PySpace) == line;
    assert EVERY_MINUTE[0] == '*';
  }

  /** A generated line displays as its day label and its time. */
  lemma FriendlyLine(t: Clock, dow: string)
    requires OnDial(t.hour, t.minute) && IsWord(dow)
    ensures CronToFriendly(CronLine(t, dow)) == Label(dow) + " " + Time12(t)
  {
    LineIsNotEveryMinute(t, dow);
    LineFields(t, dow);
    FieldsTimeOf(t);
  }

  function FrequencyLabel(frequency: string): string {
    if frequency == "daily" then "Daily" else if frequency == "weekdays" then "Weekdays" else "Weekly"
  }

  /** What a user picks is what a user sees: the frequency's label and the time in 12-hour form. */
  lemma FriendlySchedule(frequency: string, time: string)
    ensures var freq, cron := Lower(Trim(frequency, PySpace)), ToCron(frequency, time);
            && (cron.Some? <==> freq == "minutely" || (ParseTime(time).Some? && freq in {"daily", "weekdays", "weekly"}))
            && (cron.Some? && freq == "minutely" ==> cron.value == "* * * * *" && CronToFriendly(cron.value) == "Every minute")
            && (cron.Some? && freq != "minutely" ==>
                  CronToFriendly(cron.value) == (if freq == "daily" then "Daily" else if freq == "weekdays" then "Weekdays" else "Weekly")
                                                + " " + TimeTo12h(time).value)
  {
    var freq := Lower(Trim(frequency, PySpace));
    var t := ParseTime(time);
    if freq == "minutely" {
      assert Trim(EVERY_MINUTE, PySpace) == EVERY_MINUTE;
    } else if t.Some? && Dow(freq).Some? {
      DowIsWord(freq);
      FriendlyLine(t.value, Dow(freq).value);
    }
  }

  lemma DowIsWord(frequency: string)
    requires Dow(frequency).Some?
    ensures IsWord(Dow(frequency).value) && Label(Dow(frequency).value) == FrequencyLabel(frequency)
  {
  }

  lemma LabelOfDigit(text: string, dow: nat)
    requires dow < 7 && |text| == 1 && AllDigits(text) && DigitsValue(text) == dow
    ensures Label(text) == if dow == 1 then "Weekly" else WeekdayLabel(dow)
  {
    assert text[..0] == [] && text[0] as int == '0' as int + dow;
    SingleCharacter(text);
    if dow != 1 {
      assert text != "1" && DigitsValue(text) % 7 == dow;
    }
  }

  lemma SingleCharacter(text: string)
    requires |text| == 1 && IsDigit(text[0])
    ensures text != "*" && text != "1-5" && (text == "1" <==> text[0] == '1')
  {
  }

  lemma LabelOfDay(dow: nat)
    requires dow < 7
    ensures IsWord(Dec(dow)) && Label(Dec(dow)) == if dow == 1 then "Weekly" else WeekdayLabel(dow)
  {
    DecRoundTrip(dow);
    DigitsAreWord(Dec(dow));
    LabelOfDigit(Dec(dow), dow);
  }

  /** A schedule pinned to one weekday displays that day, except that Monday displays as "Weekly". */
  lemma FriendlyWeekday(dow: int, time: string)
    requires ToCronWeekday(dow, time).Some?
    ensures CronToFriendly(ToCronWeekday(dow, time).value)
         == ["Sundays", "Weekly", "Tuesdays", "Wednesdays", "Thursdays", "Fridays", "Saturdays"][dow] + " " + TimeTo12h(time).value
  {
    LabelOfDay(dow);
    DayNames(dow);
    FriendlyLine(ParseTime(time).value, Dec(dow));
  }

  lemma DayNames(dow: nat)
    requires dow < 7
    ensures (if dow == 1 then "Weekly" else WeekdayLabel(dow))
         == ["Sundays", "Weekly", "Tuesdays", "Wednesdays", "Thursdays", "Fridays", "Saturdays"][dow]
  {
  }

  // ---- the 12-hour form loses nothing ----

  lemma ThreeParts(a: string, b: string, c: string)
    requires AllDigits(a) && |b| == 2
    ensures var s := a + ":" + (b + " " + c);
            && FirstColon(s) == |a| && s[..|a|] == a
            && |s| == |a| + 4 + |c| && s[|a| + 1..|a| + 3] == b && s[|a| + 4..] == c
  {
    var tail := b + " " + c;
    var s := a + ":" + tail;
    ColonBehindDigits(a, tail);
    assert s[..|a|] == a && s[|a| + 1..] == tail;
    assert tail[..2] == b && tail[3..] == c;
    assert s[|a| + 1..|a| + 3] == s[|a| + 1..][..2] && s[|a| + 4..] == s[|a| + 1..][3..];
  }

  lemma Time12Parts(t: Clock)
    requires OnDial(t.hour, t.minute)
    ensures var s, i := Time12(t), |Dec(Hour12(t.hour))|;
            && FirstColon(s) == i && s[..i] == Dec(Hour12(t.hour))
            && |s| == i + 6 && s[i + 1..i + 3] == Pad2(t.minute) && s[i + 4..] == Suffix(t.hour)
  {
    TwoDigits(t.minute);
    ThreeParts(Dec(Hour12(t.hour)), Pad2(t.minute), Suffix(t.hour));
  }

  lemma HourFromParts(a: int, b: int)
    requires 0 <= a < 24 && 0 <= b < 24 && Hour12(a) == Hour12(b) && Suffix(a) == Suffix(b)
    ensures a == b
  {
    assert "AM"[0] != "PM"[0];
  }

  lemma SameTime12(a: Clock, b: Clock)
    requires OnDial(a.hour, a.minute) && OnDial(b.hour, b.minute) && Time12(a) == Time12(b)
    ensures a == b
  {
    Time12Parts(a);
    Time12Parts(b);
    DecInjective(Hour12(a.hour), Hour12(b.hour));
    HourFromParts(a.hour, b.hour);
    PadParses(a.minute);
    PadParses(b.minute);
  }

  /** Two times display alike exactly when they are the same time of day. */
  lemma TwelveHourIsFaithful(s: string, u: string)
    requires ParseTime(s).Some? && ParseTime(u).Some?
    ensures TimeTo12h(s) == TimeTo12h(u) <==> ParseTime(s) == ParseTime(u)
  {
    var a, b := ParseTime(s).value, ParseTime(u).value;
    if Time12(a) == Time12(b) {
      SameTime12(a, b);
    }
  }

  /** The display read back: an hour from 1 to 12, two digits of minutes, and AM or PM for the half of the day. */
  lemma TwelveHourReads(s: string, c: Clock) returns (hour: nat, afternoon: bool, minutes: string)
    requires ParseTime(s) == Some(c)
    ensures 1 <= hour <= 12 && c.hour == hour % 12 + if afternoon then 12 else 0
    ensures |minutes| == 2 && AllDigits(minutes) && DigitsValue(minutes) == c.minute
    ensures TimeTo12h(s) == Some(Dec(hour) + ":" + (minutes + " " + if afternoon then "PM" else "AM"))
  {
    hour, afternoon, minutes := Hour12(c.hour), c.hour >= 12, Pad2(c.minute);
    PadParses(c.minute);
    TwoDigits(c.minute);
    HalfOfDay(c.hour);
  }

  lemma HalfOfDay(hour: int)
    requires 0 <= hour <= 23
    ensures 1 <= Hour12(hour) <= 12 && hour == Hour12(hour) % 12 + if hour >= 12 then 12 else 0
    ensures Suffix(hour) == if hour >= 12 then "PM" else "AM"
  {
  }

  // ---- what reads as a time, and what a cron line says ----

  lemma PadReads(n: int)
    ensures ParseInt(Pad2(n)) == Some(n) && ':' !in Pad2(n)
  {
    if n >= 0 {
      PadParses(n);
      DigitsHoldNoColon(Pad2(n));
    } else {
      NegativeReads(-n);
    }
  }

  lemma NegativeReads(n: nat)
    ensures ParseInt("-" + Dec(n)).Some? && ParseInt("-" + Dec(n)).value == 0 - n && ':' !in "-" + Dec(n)
  {
    var s := "-" + Dec(n);
    DigitsHoldNoColon(Dec(n));
    NoUnderscores(Dec(n));
    DecRoundTrip(n);
    assert s[1..] == Dec(n) && s[|s| - 1] == Dec(n)[|Dec(n)| - 1];
    DigitIsPlain(s[|s| - 1]);
    TrimFixes(s, PySpace);
  }

  lemma ColonBetween(a: string, b: string)
    requires ':' !in a && ':' !in b
    ensures SplitPair(a + ":" + b) == Some((a, b))
  {
    var s := a + ":" + b;
    assert forall j | 0 <= j < |a| :: s[j] == a[j];
    FirstColonAt(s, |a|);
    assert s[..|a|] == a && s[|a| + 1..] == b;
  }

  /** A written time reads back exactly when it is a time of day. */
  lemma ClockReadsExactly(c: Clock)
    ensures ParseTime(Write(c)) == if 0 <= c.hour <= 23 && 0 <= c.minute <= 59 then Some(c) else None
  {
    PadReads(c.hour);
    PadReads(c.minute);
    ColonBetween(Pad2(c.hour), Pad2(c.minute));
  }

  /** `s` is two integers with a colon between them. */
  predicate ReadsAs(s: string, c: Clock, hour: string, minute: string) {
    && s == hour + ":" + minute && ':' !in hour && ':' !in minute
    && ParseInt(hour) == Some(c.hour) && ParseInt(minute) == Some(c.minute)
  }

  /** What reads as a time: two integers on the dial with the only colon between them. */
  lemma TimeExactly(s: string, c: Clock)
    ensures ParseTime(s) == Some(c) <==>
              0 <= c.hour <= 23 && 0 <= c.minute <= 59 && exists hour, minute :: ReadsAs(s, c, hour, minute)
  {
    if ParseTime(s) == Some(c) {
      var i := FirstColon(s);
      FirstColonIs(s);
      assert s == s[..i] + ":" + s[i + 1..];
      assert ReadsAs(s, c, s[..i], s[i + 1..]);
    } else if hour, minute :| ReadsAs(s, c, hour, minute) {
      ColonBetween(hour, minute);
    }
  }

  /** A schedule is a line of five fields: the minute, the hour, two stars and the days. */
  lemma ToCronExactly(frequency: string, time: string, c: Clock)
    requires ParseTime(time) == Some(c) && Lower(Trim(frequency, PySpace)) in {"daily", "weekdays", "weekly"}
    ensures var freq := Lower(Trim(frequency, PySpace));
            ToCron(frequency, time).Some? && var words := Words(ToCron(frequency, time).value);
            && |words| == 5 && words[2] == words[3] == "*"
            && AllDigits(words[0]) && DigitsValue(words[0]) == c.minute
            && AllDigits(words[1]) && DigitsValue(words[1]) == c.hour
            && words[4] == if freq == "daily" then "*" else if freq == "weekdays" then "1-5" else "1"
  {
    var freq := Lower(Trim(frequency, PySpace));
    DowIsWord(freq);
    LineFields(c, Dow(freq).value);
    DecRoundTrip(c.minute);
    DecRoundTrip(c.hour);
  }

  /** A schedule of one weekday has that day, from 0 to 6, as its last field. */
  lemma ToCronWeekdayExactly(dow: int, time: string)
    ensures ToCronWeekday(dow, time).Some? <==> ParseTime(time).Some? && 0 <= dow <= 6
    ensures ToCronWeekday(dow, time).Some? ==>
              var words, c := Words(ToCronWeekday(dow, time).value), ParseTime(time).value;
              && |words| == 5 && words[2] == words[3] == "*"
              && AllDigits(words[0]) && DigitsValue(words[0]) == c.minute
              && AllDigits(words[1]) && DigitsValue(words[1]) == c.hour
              && AllDigits(words[4]) && DigitsValue(words[4]) == dow
  {
    if ToCronWeekday(dow, time).Some? {
      var c := ParseTime(time).value;
      DecRoundTrip(dow);
      DigitsAreWord(Dec(dow));
      LineFields(c, Dec(dow));
      DecRoundTrip(c.minute);
      DecRoundTrip(c.hour);
    }
  }

  /** Any line without five fields, or without a time of day in its first two, is shown as it is. */
  lemma OtherLinesAreShownRaw(cron: string)
    requires cron != "" && Trim(cron, PySpace) != EVERY_MINUTE
    ensures var words := Words(cron);
            var minute, hour := if |words| == 5 then ParseInt(words[0]) else None, if |words| == 5 then ParseInt(words[1]) else None;
            if minute.None? || hour.None? || !(0 <= hour.value <= 23) || !(0 <= minute.value <= 59) then CronToFriendly(cron) == cron
            else CronToFriendly(cron) == Label(words[4]) + " " + Time12(Clock(hour.value, minute.value))
  {
    var words := Words(cron);
    if |words| == 5 && ParseInt(words[0]).Some? && ParseInt(words[1]).Some? {
      ClockReadsExactly(Clock(ParseInt(words[1]).value, ParseInt(words[0]).value));
    }
  }

  // ---- what int() reads ----

  /** The characters of `s` that are digits, in order. */
  function DigitsOf(s: string): (r: string)
    ensures AllDigits(r)
  {
    if s == "" then "" else (if IsDigit(s[0]) then [s[0]] else "") + DigitsOf(s[1..])
  }

  /** A numeral is digits with single underscores between them, and reads as its digits. */
  lemma {:induction false} NumeralExactly(s: string)
    ensures IsNumeral(s) <==>
              && s != "" && IsDigit(s[0]) && IsDigit(s[|s| - 1])
              && (forall i | 0 <= i < |s| :: IsDigit(s[i]) || s[i] == '_')
              && (forall i | 0 <= i < |s| - 1 :: IsDigit(s[i]) || IsDigit(s[i + 1]))
    ensures IsNumeral(s) ==> WithoutUnderscores(s) == DigitsOf(s)
    decreases |s|
  {
    if |s| >= 2 && IsDigit(s[0]) {
      var rest := if s[1] == '_' then s[2..] else s[1..];
      var skipped := |s| - |rest|;
      NumeralExactly(rest);
      assert forall i | 0 <= i < |rest| :: rest[i] == s[i + skipped];
      assert forall i | skipped <= i < |s| :: s[i] == rest[i - skipped];
      if s[1] == '_' {
        assert s[1..][1..] == s[2..];
      }
    }
  }

  /** White space around a number and a sign in front of it are read, anything else is refused. */
  lemma IntExactly(s: string)
    ensures var text := Trim(s, PySpace);
            var signed := text != "" && (text[0] == '+' || text[0] == '-');
            var numeral := if signed then text[1..] else text;
            ParseInt(s) == if !IsNumeral(numeral) then None
                           else Some(if text[0] == '-' then 0 - DigitsValue(DigitsOf(numeral)) else DigitsValue(DigitsOf(numeral)))
  {
    var text := Trim(s, PySpace);
    NumeralExactly(if text != "" && (text[0] == '+' || text[0] == '-') then text[1..] else text);
  }
}

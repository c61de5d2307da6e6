/** The CDR log (src/cdr_writer.cpp) as text, and a parser that reads it back. The file is one
    string of newline-terminated lines; the calendar conversion of gmtime and strftime is a
    parameter from whole seconds to date text. */
module Cdr {
  import opened Imsi
  import opened Sessions

  const HEADER: string := "# CDR Log - Format: timestamp,IMSI,action"

  // ------------------------------------------------------------------------- printing

  function ActionText(a: SessionAction): string
  {
    match a
    case CREATED => "CREATED"
    case REJECTED => "REJECTED"
    case TIMEOUT => "TIMEOUT"
    case GRACEFUL_SHUTDOWN => "GRACEFUL_SHUTDOWN"
  }

  /** std::to_string of a non-negative number, and of any number. */
  function NatText(n: nat): string
  {
    if n < 10 then [NibbleChar(n)] else NatText(n / 10) + [NibbleChar(n % 10)]
  }

  function IntText(n: int): string { if n < 0 then "-" + NatText(-n) else NatText(n) }

  /** C++ division and remainder truncate toward zero. */
  function TruncDiv(n: int, d: int): int
    requires d > 0
  {
    if n >= 0 then n / d else -((-n) / d)
  }

  function TruncRem(n: int, d: int): int
    requires d > 0
  {
    n - TruncDiv(n, d) * d
  }

  /** A system-clock time point in nanoseconds: its whole seconds, and the milliseconds after. */
  function Seconds(tp: int): int { TruncDiv(tp, 1_000_000_000) }
  function Millis(tp: int): int { TruncRem(TruncDiv(tp, 1_000_000), 1000) }

  /** Together they are the time point to the millisecond, cut off toward the epoch. */
  lemma SecondsAndMillis(tp: int)
    ensures -1000 < Millis(tp) < 1000
    ensures tp >= 0 ==>
              && 0 <= Millis(tp) && Seconds(tp) * 1_000_000_000 <= tp < (Seconds(tp) + 1) * 1_000_000_000
              && 0 <= tp - (Seconds(tp) * 1_000_000_000 + Millis(tp) * 1_000_000) < 1_000_000
    ensures tp <= 0 ==>
              && Millis(tp) <= 0 && (Seconds(tp) - 1) * 1_000_000_000 < tp <= Seconds(tp) * 1_000_000_000
              && -1_000_000 < tp - (Seconds(tp) * 1_000_000_000 + Millis(tp) * 1_000_000) <= 0
  {
    var n := if tp >= 0 then tp else -tp;
    assert n / 1_000_000 / 1000 == n / 1_000_000_000;
    if tp < 0 { assert TruncDiv(tp, 1_000_000) == -(n / 1_000_000); }
  }

  function MillisText(ms: int): string
  {
    (if ms < 100 then "0" else "") + (if ms < 10 then "0" else "") + IntText(ms)
  }

  type Calendar = int -> string

  function FormatTimestamp(cal: Calendar, tp: int): string { cal(Seconds(tp)) + "." + MillisText(Millis(tp)) }

  function FormatRecord(cal: Calendar, e: SessionEvent): string
  {
    FormatTimestamp(cal, e.timestamp) + "," + e.imsi + "," + ActionText(e.action)
  }

  function Texts(cal: Calendar, events: seq<SessionEvent>): seq<string>
  {
    seq(|events|, i requires 0 <= i < |events| => FormatRecord(cal, events[i]))
  }

  /** Each piece followed by the separator. */
  function Joined(pieces: seq<string>, sep: char): string
  {
    if pieces == [] then "" else pieces[0] + [sep] + Joined(pieces[1..], sep)
  }

  /** A file that starts with this header line. */
  function FileWith(header: string, cal: Calendar, events: seq<SessionEvent>): string
  {
    Joined([header] + Texts(cal, events), '\n')
  }

  /** The whole file after these events. */
  function FileText(cal: Calendar, events: seq<SessionEvent>): string { FileWith(HEADER, cal, events) }

  lemma {:induction false} JoinedSnoc(pieces: seq<string>, sep: char, p: string)
    ensures Joined(pieces + [p], sep) == Joined(pieces, sep) + p + [sep]
  {
    if pieces == [] {
      assert Joined([p], sep) == p + [sep] + Joined([], sep);
    } else {
      JoinedSnoc(pieces[1..], sep, p);
      assert (pieces + [p])[1..] == pieces[1..] + [p];
    }
  }

  lemma TextsSnoc(cal: Calendar, events: seq<SessionEvent>, e: SessionEvent)
    ensures Texts(cal, events + [e]) == Texts(cal, events) + [FormatRecord(cal, e)]
  {
  }

  lemma FileWithNone(header: string, cal: Calendar)
    ensures FileWith(header, cal, []) == header + ['\n']
  {
    assert [header] + Texts(cal, []) == [header];
    assert Joined([header], '\n') == header + ['\n'] + Joined([], '\n');
  }

  lemma FileWithSnoc(header: string, cal: Calendar, events: seq<SessionEvent>, e: SessionEvent)
    ensures FileWith(header, cal, events + [e]) == FileWith(header, cal, events) + FormatRecord(cal, e) + ['\n']
  {
    var pieces, line := [header] + Texts(cal, events), FormatRecord(cal, e);
    TextsSnoc(cal, events, e);
    assert [header] + (Texts(cal, events) + [line]) == pieces + [line];
    JoinedSnoc(pieces, '\n', line);
  }

  /** CDRWriter: every record appends one line and is counted. */
  class CdrWriter {
    const calendar: Calendar
    const header: string := HEADER
    var file: string
    var totalRecords: nat
    ghost var records: seq<SessionEvent>

    ghost predicate Valid()
      reads this
    {
      file == FileWith(header, calendar, records) && totalRecords == |records|
    }

    constructor (cal: Calendar)
      ensures Valid() && records == [] && calendar == cal
    {
      calendar := cal;
      file := HEADER + ['\n'];
      FileWithNone(HEADER, cal);
      totalRecords := 0;
      records := [];
    }

    method WriteRecord(e: SessionEvent)
      requires Valid()
      modifies this
      ensures Valid() && records == old(records) + [e]
      ensures file == old(file) + FormatRecord(calendar, e) + ['\n'] && totalRecords == old(totalRecords) + 1
      ensures CleanCalendar(calendar) && Printable(e) ==>
                var r := ParseLine(FormatRecord(calendar, e)); r.Some? && Tells(calendar, r.value, e)
    {
      if CleanCalendar(calendar) && Printable(e) { LineRoundTrip(calendar, e); }
      FileWithSnoc(header, calendar, records, e);
      file := file + FormatRecord(calendar, e) + ['\n'];
      totalRecords := totalRecords + 1;
      records := records + [e];
    }
  }

  // ------------------------------------------------------------------------- parsing

  /** The pieces of s between occurrences of sep. */
  function Split(s: string, sep: char): (r: seq<string>)
    ensures r != []
  {
    if s == "" then [""]
    else
      var r := Split(s[1..], sep);
      if s[0] == sep then [""] + r else [[s[0]] + r[0]] + r[1..]
  }

  lemma {:induction false} SplitNone(s: string, sep: char)
    requires sep !in s
    ensures Split(s, sep) == [s]
  {
    if s != "" {
      SplitNone(s[1..], sep);
      assert [s[0]] + s[1..] == s;
    }
  }

  lemma {:induction false} SplitFirst(s: string, sep: char, rest: string)
    requires sep !in s
    ensures Split(s + [sep] + rest, sep) == [s] + Split(rest, sep)
  {
    var t := s + [sep] + rest;
    if s == "" {
      assert t[1..] == rest;
    } else {
      SplitFirst(s[1..], sep, rest);
      assert t[1..] == s[1..] + [sep] + rest;
      assert [s[0]] + s[1..] == s;
      assert Split(t[1..], sep)[0] == s[1..] && Split(t[1..], sep)[1..] == Split(rest, sep);
    }
  }

  /** One line read back: date text, milliseconds, IMSI and action. */
  datatype Record = Record(date: string, millis: nat, imsi: string, action: SessionAction)

  function ParseAction(s: string): Option<SessionAction>
  {
    if s == "CREATED" then Some(CREATED)
    else if s == "REJECTED" then Some(REJECTED)
    else if s == "TIMEOUT" then Some(TIMEOUT)
    else if s == "GRACEFUL_SHUTDOWN" then Some(GRACEFUL_SHUTDOWN)
    else None
  }

  function ParseMillis(s: string): Option<nat>
  {
    if |s| == 3 && AllDigits(s) then Some(100 * DigitValue(s[0]) + 10 * DigitValue(s[1]) + DigitValue(s[2])) else None
  }

  function ParseLine(line: string): Option<Record>
  {
    var f := Split(line, ',');
    if |f| != 3 || |f[0]| < 4 || f[0][|f[0]| - 4] != '.' then None
    else
      var stamp := f[0];
      match (ParseMillis(stamp[|stamp| - 3..]), ParseAction(f[2]))
      case (Some(ms), Some(a)) => if ValidImsi(f[1]) then Some(Record(stamp[..|stamp| - 4], ms, f[1], a)) else None
      case _ => None
  }

  function ParseLines(lines: seq<string>): Option<seq<Record>>
  {
    if lines == [] then Some([])
    else
      match (ParseLine(lines[0]), ParseLines(lines[1..]))
      case (Some(r), Some(rs)) => Some([r] + rs)
      case _ => None
  }

  /** A file: the header line, then one record a line, each line terminated. */
  function ParseFile(text: string): Option<seq<Record>>
  {
    var lines := Split(text, '\n');
    if |lines| >= 2 && lines[0] == HEADER && lines[|lines| - 1] == "" then ParseLines(lines[1..|lines| - 1]) else None
  }

  // ------------------------------------------------------------------------- round trip

  lemma MillisTextShape(ms: int)
    requires -1000 < ms < 1000
    ensures |MillisText(ms)| == 3 && AllDigits(MillisText(ms)) <==> ms >= 0
    ensures ms >= 0 ==> ParseMillis(MillisText(ms)) == Some(ms)
  {
    if ms >= 100 {
      var t := NatText(ms);
      assert NatText(ms / 10) == NatText(ms / 100) + [NibbleChar(ms / 10 % 10)];
      assert t == [NibbleChar(ms / 100)] + [NibbleChar(ms / 10 % 10)] + [NibbleChar(ms % 10)];
      assert ms / 10 / 10 == ms / 100;
    } else if ms >= 10 {
      assert NatText(ms) == [NibbleChar(ms / 10)] + [NibbleChar(ms % 10)];
    } else if ms < 0 {
      assert MillisText(ms)[2] == '-';
    }
  }

  /** The milliseconds are three digits exactly for a time point not before the epoch, or
      before it by a whole number of seconds (to the millisecond). */
  lemma PaddedToThreeDigits(tp: int)
    ensures |MillisText(Millis(tp))| == 3 && AllDigits(MillisText(Millis(tp))) <==> Millis(tp) >= 0
    ensures tp >= 0 ==> Millis(tp) >= 0
    ensures tp < 0 ==> (Millis(tp) >= 0 <==> (-tp) / 1_000_000 % 1000 == 0)
  {
    assert -1000 < Millis(tp) < 1000;
    MillisTextShape(Millis(tp));
  }

  ghost predicate CleanCalendar(cal: Calendar)
  {
    forall t :: ',' !in cal(t) && '\n' !in cal(t)
  }

  /** A valid IMSI, and a time point whose millisecond remainder is not negative: any time past
      the epoch. */
  predicate Printable(e: SessionEvent) { ValidImsi(e.imsi) && Millis(e.timestamp) >= 0 }

  /** The event at millisecond precision. */
  function ToRecord(cal: Calendar, e: SessionEvent): Record
    requires Printable(e)
  {
    Record(cal(Seconds(e.timestamp)), Millis(e.timestamp), e.imsi, e.action)
  }

  /** The record is dated with second s, and s and its milliseconds are tp to the millisecond, cut
      off toward the epoch. */
  predicate Stamps(cal: Calendar, r: Record, s: int, tp: int)
  {
    && r.date == cal(s) && r.millis < 1000
    && var rest := tp - (s * 1_000_000_000 + r.millis * 1_000_000);
       if tp >= 0 then 0 <= rest < 1_000_000 else -1_000_000 < rest <= 0
  }

  /** The record says who, what and when. */
  ghost predicate Tells(cal: Calendar, r: Record, e: SessionEvent)
  {
    r.imsi == e.imsi && r.action == e.action && exists s :: Stamps(cal, r, s, e.timestamp)
  }

  /** For a calendar that gives different seconds different dates, two events that leave the same
      record are the same but for less than a millisecond, or two around the epoch. */
  lemma SameRecordSameTime(cal: Calendar, e: SessionEvent, f: SessionEvent)
    requires forall s, t :: cal(s) == cal(t) ==> s == t
    requires Printable(e) && Printable(f) && ToRecord(cal, e) == ToRecord(cal, f)
    ensures e.imsi == f.imsi && e.action == f.action
    ensures -2_000_000 < e.timestamp - f.timestamp < 2_000_000
    ensures e.timestamp >= 0 && f.timestamp >= 0 ==> -1_000_000 < e.timestamp - f.timestamp < 1_000_000
  {
    SecondsAndMillis(e.timestamp);
    SecondsAndMillis(f.timestamp);
    assert Seconds(e.timestamp) == Seconds(f.timestamp);
  }

  lemma DigitsAreClean(s: string)
    requires AllDigits(s)
    ensures ',' !in s && '\n' !in s
  {
  }

  lemma ActionsParse(a: SessionAction)
    ensures ParseAction(ActionText(a)) == Some(a)
    ensures ',' !in ActionText(a) && '\n' !in ActionText(a)
  {
  }

  lemma {:induction false} NatTextDigits(n: nat)
    ensures AllDigits(NatText(n)) && NatText(n) != []
    ensures n < 10 ==> |NatText(n)| == 1
    ensures 10 <= n < 100 ==> |NatText(n)| == 2
    ensures 100 <= n < 1000 ==> |NatText(n)| == 3
  {
    if n >= 10 {
      NatTextDigits(n / 10);
      AllDigitsConcat(NatText(n / 10), [NibbleChar(n % 10)]);
    }
  }

  lemma MillisTextClean(ms: int)
    ensures ',' !in MillisText(ms) && '\n' !in MillisText(ms)
  {
    NatTextDigits(if ms < 0 then -ms else ms);
    DigitsAreClean(NatText(if ms < 0 then -ms else ms));
  }

  lemma TimestampIsClean(cal: Calendar, tp: int)
    requires CleanCalendar(cal)
    ensures ',' !in FormatTimestamp(cal, tp) && '\n' !in FormatTimestamp(cal, tp)
  {
    MillisTextClean(Millis(tp));
    assert ',' !in cal(Seconds(tp)) && '\n' !in cal(Seconds(tp));
  }

  /** Every record line splits at its commas into timestamp, IMSI and action, and is one line. */
  lemma RecordFields(cal: Calendar, e: SessionEvent)
    requires CleanCalendar(cal) && ValidImsi(e.imsi)
    ensures Split(FormatRecord(cal, e), ',') == [FormatTimestamp(cal, e.timestamp), e.imsi, ActionText(e.action)]
    ensures '\n' !in FormatRecord(cal, e)
  {
    var stamp, act := FormatTimestamp(cal, e.timestamp), ActionText(e.action);
    TimestampIsClean(cal, e.timestamp);
    DigitsAreClean(e.imsi);
    ActionsParse(e.action);
    assert FormatRecord(cal, e) == stamp + [','] + (e.imsi + [','] + act);
    SplitFirst(stamp, ',', e.imsi + [','] + act);
    SplitFirst(e.imsi, ',', act);
    SplitNone(act, ',');
  }

  /** The line of a record parses back to it, and its date and milliseconds are those of its
      event's time stamp: the event happened less than a millisecond after them. */
  lemma LineRoundTrip(cal: Calendar, e: SessionEvent)
    requires CleanCalendar(cal) && Printable(e)
    ensures ParseLine(FormatRecord(cal, e)) == Some(ToRecord(cal, e))
    ensures '\n' !in FormatRecord(cal, e)
    ensures Tells(cal, ToRecord(cal, e), e)
  {
    SecondsAndMillis(e.timestamp);
    assert Stamps(cal, ToRecord(cal, e), Seconds(e.timestamp), e.timestamp);
    var stamp, ms := FormatTimestamp(cal, e.timestamp), MillisText(Millis(e.timestamp));
    RecordFields(cal, e);
    ActionsParse(e.action);
    MillisTextShape(Millis(e.timestamp));
    assert stamp[|stamp| - 3..] == ms && stamp[..|stamp| - 4] == cal(Seconds(e.timestamp));
  }

  lemma ThreeDigits()
    ensures MillisText(123) == "123"
  {
    MillisTextShape(123);
    assert NatText(123) == NatText(12) + ['3'] && NatText(12) == NatText(1) + ['2'];
  }

  /** The line of a session created 123.456789 ms into the second 1700000000. */
  lemma SampleLine(cal: Calendar)
    ensures FormatRecord(cal, SessionEvent("001010123456789", CREATED, 1_700_000_000_123_456_789))
            == cal(1_700_000_000) + "." + "123" + "," + "001010123456789" + "," + "CREATED"
  {
    ThreeDigits();
    assert Seconds(1_700_000_000_123_456_789) == 1_700_000_000 && Millis(1_700_000_000_123_456_789) == 123;
    assert FormatTimestamp(cal, 1_700_000_000_123_456_789) == cal(1_700_000_000) + "." + "123";
  }

  /** A negative remainder prints with a minus sign among the last four characters. */
  lemma NegativeMillisText(ms: int)
    requires -1000 < ms < 0
    ensures var t := MillisText(ms);
            |t| >= 4 && (t[|t| - 4] == '-' || !AllDigits(t[|t| - 3..]))
  {
    var t := MillisText(ms);
    NatTextDigits(-ms);
    assert t == "00" + "-" + NatText(-ms);
    assert t[2] == '-';
    if |t| < 6 { assert t[|t| - 3..][2 - (|t| - 3)] == '-'; }
  }

  /** The line of a valid IMSI reads back if and only if the millisecond remainder is not
      negative. */
  lemma LineReadsBackIff(cal: Calendar, e: SessionEvent)
    requires CleanCalendar(cal) && ValidImsi(e.imsi)
    ensures ParseLine(FormatRecord(cal, e)) != None <==> Millis(e.timestamp) >= 0
  {
    if Millis(e.timestamp) >= 0 {
      LineRoundTrip(cal, e);
    } else {
      var stamp, t := FormatTimestamp(cal, e.timestamp), MillisText(Millis(e.timestamp));
      RecordFields(cal, e);
      NegativeMillisText(Millis(e.timestamp));
      assert stamp[|stamp| - 4] == t[|t| - 4] && stamp[|stamp| - 3..] == t[|t| - 3..];
    }
  }

  function ToRecords(cal: Calendar, events: seq<SessionEvent>): (r: seq<Record>)
    requires forall e :: e in events ==> Printable(e)
    ensures |r| == |events|
  {
    seq(|events|, i requires 0 <= i < |events| => ToRecord(cal, events[i]))
  }

  lemma {:induction false} SplitJoined(pieces: seq<string>, sep: char)
    requires forall p :: p in pieces ==> sep !in p
    ensures Split(Joined(pieces, sep), sep) == pieces + [""]
  {
    if pieces != [] {
      var rest := Joined(pieces[1..], sep);
      SplitFirst(pieces[0], sep, rest);
      SplitJoined(pieces[1..], sep);
      assert [pieces[0]] + (pieces[1..] + [""]) == pieces + [""];
    }
  }

  lemma RecordsCons(cal: Calendar, events: seq<SessionEvent>)
    requires events != [] && forall e :: e in events ==> Printable(e)
    ensures ToRecords(cal, events) == [ToRecord(cal, events[0])] + ToRecords(cal, events[1..])
    ensures Texts(cal, events)[1..] == Texts(cal, events[1..])
  {
  }

  lemma {:induction false} TextsParse(cal: Calendar, events: seq<SessionEvent>)
    requires CleanCalendar(cal) && forall e :: e in events ==> Printable(e)
    ensures ParseLines(Texts(cal, events)) == Some(ToRecords(cal, events))
    decreases |events|
  {
    if events != [] {
      LineRoundTrip(cal, events[0]);
      RecordsCons(cal, events);
      TextsParse(cal, events[1..]);
    }
  }

  lemma TextsAreClean(cal: Calendar, events: seq<SessionEvent>)
    requires CleanCalendar(cal) && forall e :: e in events ==> ValidImsi(e.imsi)
    ensures forall p :: p in Texts(cal, events) ==> '\n' !in p
  {
    forall p | p in Texts(cal, events) ensures '\n' !in p {
      var i :| 0 <= i < |events| && Texts(cal, events)[i] == p;
      RecordFields(cal, events[i]);
    }
  }

  /** Whatever the header line, the lines after it are the texts of the records. */
  lemma SplitFile(header: string, cal: Calendar, events: seq<SessionEvent>)
    requires '\n' !in header
    requires CleanCalendar(cal) && forall e :: e in events ==> ValidImsi(e.imsi)
    ensures Split(FileWith(header, cal, events), '\n') == [header] + Texts(cal, events) + [""]
  {
    TextsAreClean(cal, events);
    SplitJoined([header] + Texts(cal, events), '\n');
  }

  /** Reading the file is reading its record lines. */
  lemma FileIsItsLines(cal: Calendar, events: seq<SessionEvent>)
    requires CleanCalendar(cal) && forall e :: e in events ==> ValidImsi(e.imsi)
    ensures ParseFile(FileText(cal, events)) == ParseLines(Texts(cal, events))
  {
    SplitFile(HEADER, cal, events);
    var lines := [HEADER] + Texts(cal, events) + [""];
    assert lines[1..|lines| - 1] == Texts(cal, events);
  }

  /** The file parses back to the list of events, at millisecond precision. */
  lemma FileRoundTrip(cal: Calendar, events: seq<SessionEvent>)
    requires CleanCalendar(cal) && forall e :: e in events ==> Printable(e)
    ensures ParseFile(FileText(cal, events)) == Some(ToRecords(cal, events))
    ensures forall i :: 0 <= i < |events| ==> Tells(cal, ToRecords(cal, events)[i], events[i])
  {
    FileIsItsLines(cal, events);
    TextsParse(cal, events);
    RecordsTell(cal, events);
  }

  lemma RecordsTell(cal: Calendar, events: seq<SessionEvent>)
    requires CleanCalendar(cal) && forall e :: e in events ==> Printable(e)
    ensures forall i :: 0 <= i < |events| ==> Tells(cal, ToRecords(cal, events)[i], events[i])
  {
    forall i | 0 <= i < |events| ensures Tells(cal, ToRecords(cal, events)[i], events[i]) {
      LineRoundTrip(cal, events[i]);
    }
  }

  lemma {:induction false} OneBadLine(lines: seq<string>, i: nat)
    requires i < |lines| && ParseLine(lines[i]) == None
    ensures ParseLines(lines) == None
  {
    if i > 0 { OneBadLine(lines[1..], i - 1); }
  }

  /** A file of records of valid IMSIs reads back if and only if every time stamp in it has a
      non-negative millisecond remainder. */
  lemma FileReadsBackIff(cal: Calendar, events: seq<SessionEvent>)
    requires CleanCalendar(cal) && forall e :: e in events ==> ValidImsi(e.imsi)
    ensures ParseFile(FileText(cal, events)) != None <==> forall e :: e in events ==> Printable(e)
  {
    if forall e :: e in events ==> Printable(e) {
      FileRoundTrip(cal, events);
    } else {
      var e :| e in events && !Printable(e);
      var i :| 0 <= i < |events| && events[i] == e;
      FileIsItsLines(cal, events);
      LineReadsBackIff(cal, e);
      OneBadLine(Texts(cal, events), i);
    }
  }
}

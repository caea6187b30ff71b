/**
 * Log records and the line layout the file handlers write:
 * `%(asctime)s,%(name)s,%(levelname)s,%(message)s` with the date format
 * `%m/%d/%Y,%H:%M:%S`, one record per line.
 */
module Records {
  import opened Wrappers
  import opened Text

  /** The two logging levels the workers use. */
  datatype Level = Debug | Error

  /** Local wall-clock time at second resolution, as `strftime` sees it. */
  datatype Timestamp = Timestamp(month: nat, day: nat, year: nat, hour: nat, minute: nat, second: nat)

  /** The field ranges `strftime` prints with a fixed width (`%S` allows leap seconds up to 61). */
  predicate ValidTimestamp(t: Timestamp) {
    1 <= t.month <= 12 && 1 <= t.day <= 31 && 1000 <= t.year <= 9999
    && t.hour < 24 && t.minute < 60 && t.second <= 61
  }

  /** A timestamp a clock can actually report. */
  type Stamp = t: Timestamp | ValidTimestamp(t) witness Timestamp(1, 1, 1970, 0, 0, 0)

  datatype Record = Record(stamp: Stamp, name: string, level: Level, message: string)

  function LevelName(level: Level): string {
    match level
    case Debug => "DEBUG"
    case Error => "ERROR"
  }

  function Pow10(width: nat): (p: nat)
    ensures p >= 1
  {
    if width == 0 then 1 else 10 * Pow10(width - 1)
  }

  predicate IsDigit(c: char) {
    '0' <= c <= '9'
  }

  /** `n` in decimal, zero-padded to `width` digits (the low digits when `n` is wider). */
  function Decimal(n: nat, width: nat): (s: string)
    ensures |s| == width
    ensures forall k :: 0 <= k < |s| ==> IsDigit(s[k])
  {
    if width == 0 then [] else Decimal(n / 10, width - 1) + [(48 + n % 10) as char]
  }

  /** The value of a string of decimal digits; `None` when some character is not a digit. */
  function DecimalValue(s: string): Option<nat> {
    if s == [] then Some(0)
    else
      var high :- DecimalValue(s[..|s| - 1]);
      var c := s[|s| - 1];
      if IsDigit(c) then Some(10 * high + (c as int - 48)) else None
  }

  lemma {:induction false} DecimalRoundTrip(n: nat, width: nat)
    requires n < Pow10(width)
    ensures DecimalValue(Decimal(n, width)) == Some(n)
  {
    if width > 0 {
      DecimalRoundTrip(n / 10, width - 1);
      var s := Decimal(n, width);
      assert s[..|s| - 1] == Decimal(n / 10, width - 1);
    }
  }

  /** `%m/%d/%Y` */
  function DateText(t: Timestamp): string {
    Decimal(t.month, 2) + "/" + Decimal(t.day, 2) + "/" + Decimal(t.year, 4)
  }

  /** `%H:%M:%S` */
  function TimeText(t: Timestamp): string {
    Decimal(t.hour, 2) + ":" + Decimal(t.minute, 2) + ":" + Decimal(t.second, 2)
  }

  /** One record as the formatter lays it out, without the line terminator. */
  function FormatRecord(r: Record): string {
    Join([DateText(r.stamp), TimeText(r.stamp), r.name, LevelName(r.level), r.message], ',')
  }

  /** The text the file handler appends for a sequence of records, one per line. */
  function Render(records: seq<Record>): string {
    if records == [] then [] else FormatRecord(records[0]) + "\n" + Render(records[1..])
  }

  /** Appending records only appends text: what the file held before is kept as a prefix. */
  lemma {:induction false} RenderAppend(a: seq<Record>, b: seq<Record>)
    ensures Render(a + b) == Render(a) + Render(b)
  {
    if a == [] {
      assert a + b == b;
    } else {
      assert (a + b)[1..] == a[1..] + b;
      RenderAppend(a[1..], b);
      var head := FormatRecord(a[0]) + "\n";
      assert Render(a + b) == head + Render(a[1..] + b);
      assert Render(a) + Render(b) == head + (Render(a[1..]) + Render(b));
    }
  }

  function ParseLevel(s: string): Option<Level> {
    if s == "DEBUG" then Some(Debug) else if s == "ERROR" then Some(Error) else None
  }

  /** Reads three `sep`-separated fixed-width numbers of widths 2, 2 and `w`. */
  function ParseTriple(s: string, sep: char, w: nat): Option<(nat, nat, nat)> {
    if |s| == 6 + w && s[2] == sep && s[5] == sep then
      var a :- DecimalValue(s[..2]);
      var b :- DecimalValue(s[3..5]);
      var c :- DecimalValue(s[6..]);
      Some((a, b, c))
    else None
  }

  /** Reads a record line back into its timestamp, name, level and message. */
  function ParseRecord(line: string): Option<Record> {
    var fields := Split(line, ',');
    if |fields| < 5 then None
    else
      var date :- ParseTriple(fields[0], '/', 4);
      var time :- ParseTriple(fields[1], ':', 2);
      var level :- ParseLevel(fields[3]);
      var stamp := Timestamp(date.0, date.1, date.2, time.0, time.1, time.2);
      if ValidTimestamp(stamp) then Some(Record(stamp, fields[2], level, Join(fields[4..], ',')))
      else None
  }

  lemma TripleRoundTrip(a: nat, b: nat, c: nat, sep: char, w: nat)
    requires a < 100 && b < 100 && c < Pow10(w) && !IsDigit(sep)
    ensures ParseTriple(Decimal(a, 2) + [sep] + Decimal(b, 2) + [sep] + Decimal(c, w), sep, w) == Some((a, b, c))
  {
    var s := Decimal(a, 2) + [sep] + Decimal(b, 2) + [sep] + Decimal(c, w);
    assert s[..2] == Decimal(a, 2);
    assert s[3..5] == Decimal(b, 2);
    assert s[6..] == Decimal(c, w);
    DecimalRoundTrip(a, 2);
    DecimalRoundTrip(b, 2);
    DecimalRoundTrip(c, w);
  }

  lemma StampFieldsFreeOfComma(t: Timestamp)
    ensures ',' !in DateText(t) && ',' !in TimeText(t)
  {
    var date, time := DateText(t), TimeText(t);
    assert forall k :: 0 <= k < |date| ==> date[k] != ',';
    assert forall k :: 0 <= k < |time| ==> time[k] != ',';
  }

  lemma StampRoundTrip(t: Timestamp)
    requires ValidTimestamp(t)
    ensures ParseTriple(DateText(t), '/', 4) == Some((t.month, t.day, t.year))
    ensures ParseTriple(TimeText(t), ':', 2) == Some((t.hour, t.minute, t.second))
  {
    assert Pow10(4) == 10000 && Pow10(2) == 100;
    TripleRoundTrip(t.month, t.day, t.year, '/', 4);
    TripleRoundTrip(t.hour, t.minute, t.second, ':', 2);
  }

  /** The first four fields of a record line are the stamp's two halves, the name and the level. */
  lemma RecordFields(r: Record)
    requires ',' !in r.name
    ensures Split(FormatRecord(r), ',')
         == [DateText(r.stamp), TimeText(r.stamp), r.name, LevelName(r.level)] + Split(r.message, ',')
  {
    var fields := [DateText(r.stamp), TimeText(r.stamp), r.name, LevelName(r.level), r.message];
    StampFieldsFreeOfComma(r.stamp);
    assert ',' !in LevelName(r.level);
    assert fields[..4] == [DateText(r.stamp), TimeText(r.stamp), r.name, LevelName(r.level)];
    SplitJoinLast(fields, ',');
  }

  /**
   * Re-reading a written record line recovers the record exactly, provided the
   * logger name holds no comma; the message may hold any number of commas.
   */
  lemma FormatParse(r: Record)
    requires ',' !in r.name
    ensures ParseRecord(FormatRecord(r)) == Some(r)
  {
    StampRoundTrip(r.stamp);
    RecordFields(r);
    var msgFields := Split(r.message, ',');
    var fields := Split(FormatRecord(r), ',');
    assert fields[4..] == msgFields;
    JoinSplit(r.message, ',');
  }
}

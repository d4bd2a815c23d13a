/** The forecast rows the planner builds from the upstream air-pollution
    forecast (app.py, lines 37-45): only the first 24 records are used, and
    each becomes a row holding a 12-hour time label, the AQI ordinal and the
    AQI category name. The upstream fetch is not modelled: the records are
    given, each as the local hour of day and the AQI ordinal. */
module Forecast {
  import opened Options
  import opened Text
  import opened Seqs

  /** One upstream record: local hour of day (0..23) and AQI ordinal. */
  datatype Record = Record(hour: int, aqi: int)

  /** One normalised forecast row. */
  datatype Row = Row(time: string, aqi: int, level: string)

  /** Only this many upstream records are looked at. */
  const MaxRows: nat := 24

  const LevelNames: seq<string> := ["Good", "Fair", "Moderate", "Poor", "Very Poor"]

  predicate ValidAqi(aqi: int) {
    1 <= aqi <= 5
  }

  predicate ValidHour(h: int) {
    0 <= h < 24
  }

  predicate ValidRecord(r: Record) {
    ValidHour(r.hour) && ValidAqi(r.aqi)
  }

  // ---------------------------------------------------------------------
  // AQI categories
  // ---------------------------------------------------------------------

  /** The ordinal a category name stands for; `None` for any other text. */
  function AqiOfLevel(name: string): Option<int> {
    if name == "Good" then Some(1)
    else if name == "Fair" then Some(2)
    else if name == "Moderate" then Some(3)
    else if name == "Poor" then Some(4)
    else if name == "Very Poor" then Some(5)
    else None
  }

  /** The category name of an AQI ordinal. Reading the name back gives the
      ordinal, and the two safe ordinals are exactly Good and Fair. */
  function Level(aqi: int): (name: string)
    requires ValidAqi(aqi)
    ensures name in LevelNames
    ensures AqiOfLevel(name) == Some(aqi)
    ensures aqi <= 2 <==> (name == "Good" || name == "Fair")
  {
    LevelNames[aqi - 1]
  }

  /** Python's `xs[i]` on a list: negative indices count from the end, and an
      index outside `-|xs| .. |xs| - 1` raises `IndexError` (here `None`). */
  function PyIndex<T>(xs: seq<T>, i: int): Option<T> {
    if 0 <= i < |xs| then Some(xs[i])
    else if -|xs| <= i < 0 then Some(xs[|xs| + i])
    else None
  }

  /** The lookup `names[aqi - 1]` exactly as Python evaluates it, for any
      integer: ordinals 1..5 give their category, ordinals -4..0 wrap round
      to the end of the list, and everything else raises. */
  function LevelIndexed(aqi: int): (r: Option<string>)
    ensures r.Some? <==> -4 <= aqi <= 5
    ensures ValidAqi(aqi) ==> r == Some(Level(aqi))
    ensures -4 <= aqi <= 0 ==> r == Some(Level(aqi + 5))
  {
    PyIndex(LevelNames, aqi - 1)
  }

  /** An ordinal of 0 is reported as the worst category rather than rejected. */
  lemma ZeroAqiReadsAsVeryPoor()
    ensures LevelIndexed(0) == Some("Very Poor")
  {
  }

  // ---------------------------------------------------------------------
  // 12-hour time labels
  // ---------------------------------------------------------------------

  /** The hour on a 12-hour clock: 1..12, with midnight and noon as 12. */
  function Twelve(h: int): (n: int)
    requires ValidHour(h)
    ensures 1 <= n <= 12
  {
    if h == 0 then 12 else if h <= 12 then h else h - 12
  }

  /** The clock hour agrees with the hour of day modulo 12, and together
      with AM or PM it determines the hour of day. */
  lemma TwelveAgrees(h: int)
    requires ValidHour(h)
    ensures Twelve(h) % 12 == h % 12
    ensures h == Twelve(h) % 12 + (if h < 12 then 0 else 12)
  {
  }

  /** `strftime("%p")` in the C locale. */
  function Meridiem(h: int): string
    requires ValidHour(h)
  {
    if h < 12 then "AM" else "PM"
  }

  /** `strftime("%I")`: the 12-hour clock hour as two digits. */
  function Pad2(n: int): string
    requires 1 <= n <= 12
  {
    if n < 10 then ['0', Digit(n)] else ['1', Digit(n - 10)]
  }

  /** `strftime("%I %p").lstrip("0")` for a time in hour `h`. */
  function HourLabel(h: int): string
    requires ValidHour(h)
  {
    LStrip(Pad2(Twelve(h)) + " " + Meridiem(h), '0')
  }

  /** The label is the 12-hour clock hour in decimal without a leading
      zero, a space, then AM before noon and PM from noon on. */
  lemma HourLabelSpec(h: int)
    requires ValidHour(h)
    ensures HourLabel(h) == Decimal(Twelve(h)) + " " + Meridiem(h)
    ensures HourLabel(h)[0] != '0'
  {
    var n := Twelve(h);
    var rest := " " + Meridiem(h);
    var padded := Pad2(n) + " " + Meridiem(h);
    var shown := Decimal(n) + " " + Meridiem(h);
    if n < 10 {
      var d := Digit(n);
      assert d != '0';
      assert Decimal(n) == [d];
      assert padded == ['0'] + shown;
      assert padded[0] == '0' && padded[1..] == shown;
      assert shown[0] == d;
      LStripKeeps(shown, '0');
    } else {
      assert Decimal(n) == Decimal(1) + [Digit(n % 10)];
      assert Decimal(1) == ['1'];
      assert Pad2(n) == Decimal(n);
      assert padded == shown && shown[0] == '1';
      LStripKeeps(shown, '0');
    }
  }

  /** Reads a label back: the decimal hour 1..12, a space, then AM or PM. */
  function HourOfLabel(text: string): Option<int> {
    if |text| < 4 then None
    else ReadHour(text[..|text| - 3], text[|text| - 3..])
  }

  /** The hour of day named by a 12-hour clock numeral and " AM" or " PM". */
  function ReadHour(digits: string, suffix: string): Option<int> {
    if suffix != " AM" && suffix != " PM" then None
    else match ParseDecimal(digits)
      case None => None
      case Some(n) =>
        if 1 <= n <= 12 then Some(n % 12 + (if suffix == " PM" then 12 else 0)) else None
  }

  /** The reader recovers the hour from its clock numeral and suffix. */
  lemma ReadHourOfParts(h: int)
    requires ValidHour(h)
    ensures ReadHour(Decimal(Twelve(h)), " " + Meridiem(h)) == Some(h)
  {
    var n := Twelve(h);
    DecimalRoundTrip(n);
    if h < 12 {
      assert " " + Meridiem(h) == " AM";
    } else {
      assert " " + Meridiem(h) == " PM";
    }
  }

  /** Every label reads back as the hour it was made from. */
  lemma LabelRoundTrip(h: int)
    requires ValidHour(h)
    ensures HourOfLabel(HourLabel(h)) == Some(h)
  {
    var ds := Decimal(Twelve(h));
    var suffix := " " + Meridiem(h);
    var text := HourLabel(h);
    HourLabelSpec(h);
    assert text == ds + suffix;
    assert text[..|text| - 3] == ds;
    assert text[|text| - 3..] == suffix;
    ReadHourOfParts(h);
  }

  /** Different hours of the day get different labels. */
  lemma LabelInjective(h1: int, h2: int)
    requires ValidHour(h1) && ValidHour(h2)
    requires HourLabel(h1) == HourLabel(h2)
    ensures h1 == h2
  {
    LabelRoundTrip(h1);
    LabelRoundTrip(h2);
  }

  /** A label is never empty, starts with a non-zero digit and holds no comma. */
  lemma LabelShape(h: int)
    requires ValidHour(h)
    ensures |HourLabel(h)| > 0 && '1' <= HourLabel(h)[0] <= '9'
    ensures ',' !in HourLabel(h)
  {
    var ds := Decimal(Twelve(h));
    var suffix := " " + Meridiem(h);
    var t := HourLabel(h);
    HourLabelSpec(h);
    assert t == ds + suffix;
    assert t[0] == ds[0];
    assert ',' !in ds by {
      forall k | 0 <= k < |ds| ensures ds[k] != ',' {
        assert IsDigit(ds[k]);
      }
    }
    assert ',' !in suffix;
  }

  /** Midnight and noon are both hour 12 on the clock. */
  lemma MidnightAndNoonLabels()
    ensures HourLabel(0) == "12 AM" && HourLabel(12) == "12 PM"
  {
    assert Decimal(12) == "12" by { assert Decimal(1) == "1"; }
    HourLabelSpec(0);
    HourLabelSpec(12);
  }

  /** Clock hours 1..9 are written with one digit, before and after noon. */
  lemma SingleDigitLabels(h: int)
    requires 1 <= h <= 9 || 13 <= h <= 21
    ensures HourLabel(h) == [Digit(h % 12)] + (if h < 12 then " AM" else " PM")
  {
    HourLabelSpec(h);
  }

  // ---------------------------------------------------------------------
  // Rows
  // ---------------------------------------------------------------------

  /** What row `i` of the forecast holds when built from `record`. */
  predicate RowFrom(row: Row, record: Record) {
    && ValidRecord(record)
    && row.time == HourLabel(record.hour)
    && row.aqi == record.aqi
    && row.level == Level(record.aqi)
  }

  /** The row built from one well-formed record. */
  function MakeRow(d: Record): (row: Row)
    requires ValidRecord(d)
    ensures RowFrom(row, d)
  {
    Row(HourLabel(d.hour), d.aqi, Level(d.aqi))
  }

  /** The loop over `data[:24]` building one row per record. Only the first
      24 records are read, so only they need to be well-formed. */
  method Normalise(records: seq<Record>) returns (rows: seq<Row>)
    requires forall i :: 0 <= i < |records| && i < MaxRows ==> ValidRecord(records[i])
    ensures |rows| == if |records| < MaxRows then |records| else MaxRows
    ensures forall i :: 0 <= i < |rows| ==> RowFrom(rows[i], records[i])
  {
    var data := Prefix(records, MaxRows);
    rows := [];
    var i := 0;
    while i < |data|
      invariant 0 <= i <= |data|
      invariant |rows| == i
      invariant forall j :: 0 <= j < i ==> RowFrom(rows[j], data[j])
    {
      var d := data[i];
      assert d == records[i];
      var row := MakeRow(d);
      ghost var before := rows;
      rows := rows + [row];
      assert forall j :: 0 <= j < i ==> rows[j] == before[j];
      i := i + 1;
    }
  }
}

/** The planner's recommender (app.py, lines 48-58): each activity is
    classified as outdoor when its lower-cased text contains one of nine
    keywords, outdoor activities are given the forecast hours whose AQI is
    at most 2 (Good or Fair), and every other activity is given "Any time". */
module Recommend {
  import opened Options
  import opened Text
  import opened Seqs
  import opened Forecast

  /** The nine keywords that mark an activity as outdoor. */
  const Keywords: seq<string> := ["outdoor", "run", "jog", "cycle", "bike", "picnic", "hike", "walk", "garden"]

  const Separator: string := ", "
  const NoSafeTime: string := "No safe time"
  const AnyTime: string := "Any time"

  // ---------------------------------------------------------------------
  // Classification
  // ---------------------------------------------------------------------

  /** `any(w in text for w in Keywords[k:])`, scanning the keywords in
      order from the k-th. */
  function AnyKeywordFrom(text: string, k: nat): bool
    decreases |Keywords| - k
  {
    if k >= |Keywords| then false
    else Contains(text, Keywords[k]) || AnyKeywordFrom(text, k + 1)
  }

  /** The scan holds exactly when some keyword from the k-th on occurs in
      the text. */
  lemma {:induction false} AnyKeywordFromSpec(text: string, k: nat)
    ensures AnyKeywordFrom(text, k) <==> exists j :: k <= j < |Keywords| && Contains(text, Keywords[j])
    decreases |Keywords| - k
  {
    if k < |Keywords| {
      AnyKeywordFromSpec(text, k + 1);
    }
  }

  /** An activity is outdoor exactly when some keyword occurs somewhere in
      its lower-cased text, inside a longer word as well as on its own. */
  predicate IsOutdoor(activity: string) {
    AnyKeywordFrom(Lower(activity), 0)
  }

  /** An activity is outdoor exactly when some keyword occurs at some
      position of its lower-cased text. */
  lemma OutdoorMeansKeyword(activity: string)
    ensures IsOutdoor(activity) <==>
      exists k, i :: 0 <= k < |Keywords| && OccursAt(Lower(activity), Keywords[k], i)
  {
    var text := Lower(activity);
    AnyKeywordFromSpec(text, 0);
    forall k | 0 <= k < |Keywords| {
      ContainsSpec(text, Keywords[k]);
    }
  }

  /** One keyword found in the lower-cased text makes an activity outdoor. */
  lemma OutdoorByKeyword(activity: string, k: int, i: int)
    requires 0 <= k < |Keywords| && OccursAt(Lower(activity), Keywords[k], i)
    ensures IsOutdoor(activity)
  {
    OutdoorMeansKeyword(activity);
  }

  /** Changing the case of letters never changes the classification. */
  lemma OutdoorIgnoresCase(a: string, b: string)
    requires SameUpToCase(a, b)
    ensures IsOutdoor(a) == IsOutdoor(b)
  {
    LowerIgnoresCase(a, b);
  }

  /** The match is on substrings, not words: "bicycle" holds "cycle" and
      "brunch" holds "run". */
  lemma SubstringMatches()
    ensures IsOutdoor("Bicycle") && IsOutdoor("Sunday brunch")
  {
    BicycleHoldsCycle();
    BrunchHoldsRun();
  }

  /** "bicycle" holds "cycle" from position 2. */
  lemma BicycleHoldsCycle()
    ensures IsOutdoor("Bicycle")
  {
    assert Lower("Bicycle") == "bicycle";
    assert OccursAt("bicycle", Keywords[3], 2);
    OutdoorByKeyword("Bicycle", 3, 2);
  }

  /** "sunday brunch" holds "run" from position 8. */
  lemma BrunchHoldsRun()
    ensures IsOutdoor("Sunday brunch")
  {
    assert Lower("Sunday brunch") == "sunday brunch";
    assert OccursAt("sunday brunch", Keywords[1], 8);
    OutdoorByKeyword("Sunday brunch", 1, 8);
  }

  // ---------------------------------------------------------------------
  // Safe windows
  // ---------------------------------------------------------------------

  /** A forecast row in which an outdoor activity is advised: Good or Fair. */
  predicate IsSafe(row: Row) {
    row.aqi <= 2
  }

  function TimeOf(row: Row): string {
    row.time
  }

  /** `df[df["aqi"] <= 2]["time"].tolist()`: the time labels of the safe
      rows, in forecast order. */
  function SafeTimes(rows: seq<Row>): (times: seq<string>)
    ensures |times| <= |rows|
    ensures times == [] <==> forall i :: 0 <= i < |rows| ==> !IsSafe(rows[i])
  {
    FilterMapEmpty(rows, IsSafe, TimeOf);
    FilterMap(rows, IsSafe, TimeOf)
  }

  /** The safe times are the labels of the safe rows taken at their positions
      in ascending order, and every listed time is the label of a safe row. */
  lemma SafeTimesInForecastOrder(rows: seq<Row>)
    ensures |SafeTimes(rows)| == |Positions(rows, IsSafe)|
    ensures forall k :: 0 <= k < |SafeTimes(rows)| ==>
      SafeTimes(rows)[k] == rows[Positions(rows, IsSafe)[k]].time
    ensures forall i :: 0 <= i < |rows| && IsSafe(rows[i]) ==> i in Positions(rows, IsSafe)
    ensures forall t :: t in SafeTimes(rows) ==> exists i :: 0 <= i < |rows| && IsSafe(rows[i]) && rows[i].time == t
  {
    FilterMapAtPositions(rows, IsSafe, TimeOf);
    forall t | t in SafeTimes(rows)
      ensures exists i :: 0 <= i < |rows| && IsSafe(rows[i]) && rows[i].time == t
    {
      var x :| x in rows && IsSafe(x) && t == TimeOf(x);
      var i :| 0 <= i < |rows| && rows[i] == x;
    }
  }

  // ---------------------------------------------------------------------
  // Advice and its text
  // ---------------------------------------------------------------------

  /** What the planner advises for one activity. */
  datatype Advice = SafeWindow(times: seq<string>) | NoSafeWindow | Indoor

  function Advise(activity: string, rows: seq<Row>): (advice: Advice)
    ensures advice.Indoor? <==> !IsOutdoor(activity)
    ensures advice.NoSafeWindow? <==> IsOutdoor(activity) && forall i :: 0 <= i < |rows| ==> !IsSafe(rows[i])
    ensures advice.SafeWindow? ==> advice.times == SafeTimes(rows) && advice.times != []
  {
    if !IsOutdoor(activity) then Indoor
    else if SafeTimes(rows) == [] then NoSafeWindow
    else SafeWindow(SafeTimes(rows))
  }

  /** The "Best Time" cell for a piece of advice. */
  function Render(advice: Advice): string {
    match advice
    case SafeWindow(times) => Join(times, Separator)
    case NoSafeWindow => NoSafeTime
    case Indoor => AnyTime
  }

  /** Reads a "Best Time" cell back into advice. */
  function ReadBestTime(text: string): Advice {
    if text == AnyTime then Indoor
    else if text == NoSafeTime then NoSafeWindow
    else SafeWindow(SplitOn(text, Separator))
  }

  /** A time label as the forecast makes them: starts with a digit and
      holds no comma. */
  predicate LabelLike(t: string) {
    |t| > 0 && IsDigit(t[0]) && ',' !in t
  }

  predicate WellFormedAdvice(advice: Advice) {
    advice.SafeWindow? ==>
      |advice.times| > 0 && forall k :: 0 <= k < |advice.times| ==> LabelLike(advice.times[k])
  }

  /** The cell text is unambiguous: reading it back gives the advice. */
  lemma RenderRoundTrip(advice: Advice)
    requires WellFormedAdvice(advice)
    ensures ReadBestTime(Render(advice)) == advice
  {
    if advice.SafeWindow? {
      var ts := advice.times;
      JoinEdges(ts, Separator);
      var text := Join(ts, Separator);
      assert IsDigit(text[0]);
      assert text != AnyTime && text != NoSafeTime by {
        assert AnyTime[0] == 'A' && NoSafeTime[0] == 'N';
      }
      SplitJoin(ts, Separator);
    }
  }

  /** The "Best Time" cell of one activity. */
  function BestTime(activity: string, rows: seq<Row>): (text: string)
    ensures !IsOutdoor(activity) ==> text == AnyTime
    ensures IsOutdoor(activity) && (forall i :: 0 <= i < |rows| ==> !IsSafe(rows[i])) ==> text == NoSafeTime
    ensures IsOutdoor(activity) && (exists i :: 0 <= i < |rows| && IsSafe(rows[i])) ==>
      text == Join(SafeTimes(rows), Separator)
  {
    Render(Advise(activity, rows))
  }

  /** For an outdoor activity with a safe hour, the cell lists exactly the
      safe rows' labels, in forecast order, and nothing else. */
  lemma BestTimeListsSafeRows(activity: string, rows: seq<Row>)
    requires IsOutdoor(activity)
    requires exists i :: 0 <= i < |rows| && IsSafe(rows[i])
    requires forall i :: 0 <= i < |rows| ==> LabelLike(rows[i].time)
    ensures SplitOn(BestTime(activity, rows), Separator) == SafeTimes(rows)
    ensures forall t :: t in SplitOn(BestTime(activity, rows), Separator) ==>
      exists i :: 0 <= i < |rows| && IsSafe(rows[i]) && rows[i].time == t
  {
    SafeTimesInForecastOrder(rows);
    var times := SafeTimes(rows);
    forall k | 0 <= k < |times| ensures LabelLike(times[k]) {
      assert times[k] in times;
    }
    RenderRoundTrip(SafeWindow(times));
  }

  /** Reading the cell back recovers the advice it was rendered from. */
  lemma BestTimeReadsBack(activity: string, rows: seq<Row>)
    requires forall i :: 0 <= i < |rows| ==> LabelLike(rows[i].time)
    ensures ReadBestTime(BestTime(activity, rows)) == Advise(activity, rows)
  {
    var advice := Advise(activity, rows);
    if advice.SafeWindow? {
      SafeTimesInForecastOrder(rows);
      forall k | 0 <= k < |advice.times| ensures LabelLike(advice.times[k]) {
        assert advice.times[k] in SafeTimes(rows);
      }
    }
    RenderRoundTrip(advice);
  }

  /** The rows the forecast builds carry label-like times. */
  lemma ForecastRowsLabelLike(rows: seq<Row>, records: seq<Record>)
    requires |rows| <= |records|
    requires forall i :: 0 <= i < |rows| ==> ValidRecord(records[i]) && RowFrom(rows[i], records[i])
    ensures forall i :: 0 <= i < |rows| ==> LabelLike(rows[i].time)
  {
    forall i | 0 <= i < |rows| ensures LabelLike(rows[i].time) {
      LabelShape(records[i].hour);
    }
  }

  /** The cell as the body of `recommend` computes it inline. */
  lemma BestTimeInline(activity: string, rows: seq<Row>)
    ensures BestTime(activity, rows) ==
      if !IsOutdoor(activity) then AnyTime
      else if SafeTimes(rows) != [] then Join(SafeTimes(rows), Separator)
      else NoSafeTime
  {
  }

  // ---------------------------------------------------------------------
  // The plan
  // ---------------------------------------------------------------------

  /** One row of the plan table: the activity and its "Best Time" cell. */
  datatype PlanRow = PlanRow(activity: string, bestTime: string)

  /** `recommend(acts, df)`: one plan row per activity, in input order. */
  method Recommend(acts: seq<string>, rows: seq<Row>) returns (plan: seq<PlanRow>)
    ensures |plan| == |acts|
    ensures forall i :: 0 <= i < |acts| ==> plan[i].activity == acts[i]
    ensures forall i :: 0 <= i < |acts| ==> plan[i].bestTime == BestTime(acts[i], rows)
  {
    plan := [];
    var n := 0;
    while n < |acts|
      invariant 0 <= n <= |acts|
      invariant |plan| == n
      invariant forall i :: 0 <= i < n ==> plan[i].activity == acts[i] && plan[i].bestTime == BestTime(acts[i], rows)
    {
      var act := acts[n];
      var times: string;
      if IsOutdoor(act) {
        var good := SafeTimes(rows);
        times := if good != [] then Join(good, Separator) else NoSafeTime;
      } else {
        times := AnyTime;
      }
      BestTimeInline(act, rows);
      ghost var before := plan;
      plan := plan + [PlanRow(act, times)];
      assert forall i :: 0 <= i < n ==> plan[i] == before[i];
      n := n + 1;
    }
  }

  // ---------------------------------------------------------------------
  // The empty forecast, as the data frame code behaves
  // ---------------------------------------------------------------------

  /** The columns of `pd.DataFrame(rows)`: a frame built from a list of
      dicts takes its columns from their keys, so an empty list gives a
      frame with no columns at all. */
  function FrameColumns(rows: seq<Row>): set<string> {
    if rows == [] then {} else {"time", "aqi", "level"}
  }

  /** The "Best Time" cell as the code computes it through the data frame
      (app.py, lines 51-56): the lookup `df["aqi"]` raises `KeyError` (here
      `None`) when the frame has no "aqi" column. It fails exactly for an
      outdoor activity against an empty forecast, and otherwise agrees with
      `BestTime`. */
  function FrameBestTime(activity: string, rows: seq<Row>): (cell: Option<string>)
    ensures cell.None? <==> IsOutdoor(activity) && rows == []
    ensures cell.Some? ==> cell.value == BestTime(activity, rows)
  {
    if !IsOutdoor(activity) then Some(AnyTime)
    else if "aqi" !in FrameColumns(rows) then None
    else Some(if SafeTimes(rows) != [] then Join(SafeTimes(rows), Separator) else NoSafeTime)
  }

  /** `recommend(acts, df)` as written: the plan, or `None` when one of the
      activities makes the frame lookup raise. It fails exactly when the
      forecast is empty and some activity is outdoor; otherwise it holds
      the corrected cell for every activity, in input order. */
  function FramePlan(acts: seq<string>, rows: seq<Row>): (plan: Option<seq<PlanRow>>)
    ensures plan.None? <==> rows == [] && exists i :: 0 <= i < |acts| && IsOutdoor(acts[i])
    ensures plan.Some? ==>
      && |plan.value| == |acts|
      && (forall i :: 0 <= i < |acts| ==> plan.value[i] == PlanRow(acts[i], BestTime(acts[i], rows)))
    decreases |acts|
  {
    if acts == [] then Some([])
    else
      assert forall i :: 1 <= i < |acts| ==> acts[i] == acts[1..][i - 1];
      match FrameBestTime(acts[0], rows)
      case None => None
      case Some(cell) =>
        assert cell == BestTime(acts[0], rows);
        match FramePlan(acts[1..], rows)
        case None =>
          assert !IsOutdoor(acts[0]) || rows != [];
          None
        case Some(rest) => Some([PlanRow(acts[0], cell)] + rest)
  }

  /** An outdoor activity against an empty forecast: the frame code raises,
      while the evidently intended answer is "No safe time". */
  lemma EmptyForecastRaises()
    ensures FrameBestTime("Running outdoors", []) == None
    ensures FramePlan(["Running outdoors"], []) == None
    ensures BestTime("Running outdoors", []) == NoSafeTime
  {
    RunningIsOutdoor();
    assert ["Running outdoors"][0] == "Running outdoors";
  }

  // ---------------------------------------------------------------------
  // Scenarios
  // ---------------------------------------------------------------------

  /** Good at 9, Moderate at 10, Fair at 11: the safe hours are 9 and 11. */
  lemma MixedForecastScenario()
    ensures BestTime("Running outdoors", [Row("9 AM", 1, "Good"), Row("10 AM", 3, "Moderate"), Row("11 AM", 2, "Fair")])
         == "9 AM" + Separator + "11 AM"
  {
    var rows := [Row("9 AM", 1, "Good"), Row("10 AM", 3, "Moderate"), Row("11 AM", 2, "Fair")];
    RunningIsOutdoor();
    MixedSafeTimes(rows);
    JoinCons("9 AM", ["11 AM"], Separator);
    assert ["9 AM", "11 AM"] == ["9 AM"] + ["11 AM"];
  }

  /** "running outdoors" starts with "run". */
  lemma RunningIsOutdoor()
    ensures IsOutdoor("Running outdoors")
  {
    assert Lower("Running outdoors") == "running outdoors";
    assert OccursAt("running outdoors", Keywords[1], 0);
    OutdoorByKeyword("Running outdoors", 1, 0);
  }

  /** Only the Good and Fair rows of the mixed forecast are safe. */
  lemma MixedSafeTimes(rows: seq<Row>)
    requires rows == [Row("9 AM", 1, "Good"), Row("10 AM", 3, "Moderate"), Row("11 AM", 2, "Fair")]
    ensures SafeTimes(rows) == ["9 AM", "11 AM"]
  {
    assert rows[1..][1..] == [rows[2]];
    assert FilterMap([rows[2]], IsSafe, TimeOf) == ["11 AM"];
    assert FilterMap(rows[1..], IsSafe, TimeOf) == ["11 AM"];
  }

  /** Poor at 9, Very Poor at 10: no safe hour. */
  lemma NoSafeWindowScenario()
    ensures BestTime("Running outdoors", [Row("9 AM", 4, "Poor"), Row("10 AM", 5, "Very Poor")]) == NoSafeTime
  {
    RunningIsOutdoor();
  }

  /** A word with a letter the text lacks occurs nowhere in the text. */
  lemma AbsentLetterNoOccurrence(s: string, w: string, i: int, c: char)
    requires c in w && c !in s
    ensures !OccursAt(s, w, i)
  {
  }

  /** "Indoor yoga" holds no keyword, so it may be done at any time. */
  lemma IndoorScenario(rows: seq<Row>)
    ensures BestTime("Indoor yoga", rows) == AnyTime
  {
    var text := Lower("Indoor yoga");
    assert text == "indoor yoga";
    // each keyword holds a letter that "indoor yoga" lacks
    var missing := "uujcbphwe";
    forall k, i | 0 <= k < |Keywords| ensures !OccursAt(text, Keywords[k], i) {
      assert missing[k] in Keywords[k] && missing[k] !in text;
      AbsentLetterNoOccurrence(text, Keywords[k], i, missing[k]);
    }
    OutdoorMeansKeyword("Indoor yoga");
  }
}

/** The activity list the planner reads from its text area: the whole text
    is stripped and split into lines, each line is stripped, and lines that
    strip to nothing are dropped (app.py, lines 17-22). */
module Activities {
  import opened Text
  import opened Seqs

  const Newline: string := "\n"

  /** The pieces of `raw.strip().split("\n")`. */
  function Lines(raw: string): seq<string> {
    SplitOn(Strip(raw), Newline)
  }

  predicate NotBlank(line: string) {
    Strip(line) != ""
  }

  /** Every parsed activity is non-empty, has no surrounding whitespace and
      lies within one line. */
  predicate WellFormedActivity(a: string) {
    a != "" && NoEdgeSpace(a) && '\n' !in a
  }

  /** `[a.strip() for a in raw.strip().split("\n") if a.strip()]`. */
  function ParseActivities(raw: string): (acts: seq<string>)
    ensures forall k :: 0 <= k < |acts| ==> WellFormedActivity(acts[k])
    ensures |acts| <= |Lines(raw)|
  {
    var lines := Lines(raw);
    var acts := FilterMap(lines, NotBlank, Strip);
    SplitPiecesLackSep(Strip(raw), '\n');
    forall k | 0 <= k < |acts| ensures WellFormedActivity(acts[k]) {
      assert acts[k] in acts;
      var line :| line in lines && NotBlank(line) && acts[k] == Strip(line);
      if '\n' in acts[k] {
        StripChars(line, '\n');
        assert false;
      }
    }
    acts
  }

  /** The k-th activity is the stripped text of the k-th non-blank line:
      activities keep the order of their lines, and every non-blank line
      gives exactly one activity. */
  lemma ParseFollowsLines(raw: string)
    ensures |ParseActivities(raw)| == |Positions(Lines(raw), NotBlank)|
    ensures forall k :: 0 <= k < |ParseActivities(raw)| ==>
      Positions(Lines(raw), NotBlank)[k] < |Lines(raw)| &&
      ParseActivities(raw)[k] == Strip(Lines(raw)[Positions(Lines(raw), NotBlank)[k]])
    ensures forall i :: 0 <= i < |Lines(raw)| && NotBlank(Lines(raw)[i]) ==>
      i in Positions(Lines(raw), NotBlank)
  {
    FilterMapAtPositions(Lines(raw), NotBlank, Strip);
  }

  /** Well-formed activities joined by newlines need no stripping. */
  lemma JoinedNeedsNoStrip(acts: seq<string>)
    requires |acts| >= 1
    requires forall k :: 0 <= k < |acts| ==> WellFormedActivity(acts[k])
    ensures Strip(Join(acts, Newline)) == Join(acts, Newline)
  {
    var text := Join(acts, Newline);
    JoinEdges(acts, Newline);
    var first, last := acts[0], acts[|acts| - 1];
    assert WellFormedActivity(first) && WellFormedActivity(last);
    assert text[0] == first[0] && !IsSpace(first[0]);
    assert text[|text| - 1] == last[|last| - 1] && !IsSpace(last[|last| - 1]);
    StripOfStripped(text);
  }

  /** Well-formed activities pass the comprehension unchanged. */
  lemma WellFormedKept(acts: seq<string>)
    requires forall k :: 0 <= k < |acts| ==> WellFormedActivity(acts[k])
    ensures FilterMap(acts, NotBlank, Strip) == acts
  {
    forall k | 0 <= k < |acts| ensures NotBlank(acts[k]) && Strip(acts[k]) == acts[k] {
      StripOfStripped(acts[k]);
    }
    FilterMapKeepsAll(acts, NotBlank, Strip);
  }

  /** Writing well-formed activities one per line and parsing the text gives
      the same activities back. */
  lemma ParseJoinRoundTrip(acts: seq<string>)
    requires forall k :: 0 <= k < |acts| ==> WellFormedActivity(acts[k])
    ensures ParseActivities(Join(acts, Newline)) == acts
  {
    var text := Join(acts, Newline);
    if acts == [] {
      BlankTextHasNoActivities(text);
    } else {
      JoinedNeedsNoStrip(acts);
      SplitJoin(acts, Newline);
      assert Lines(text) == acts;
      WellFormedKept(acts);
    }
  }

  /** A text of blank lines holds no activity. */
  lemma BlankTextHasNoActivities(raw: string)
    requires AllSpace(raw)
    ensures ParseActivities(raw) == []
  {
    StripEmptyIffBlank(raw);
    assert Lines(raw) == [""];
    StripOfStripped("");
    assert FilterMap(Lines(raw), NotBlank, Strip) == FilterMap([], NotBlank, Strip);
  }

  /** The default contents of the text area, four lines, parse to those
      four activities. */
  lemma DefaultActivities()
    ensures ParseActivities("Running outdoors" + Newline + "Picnic" + Newline
                            + "Indoor yoga" + Newline + "Cycling")
         == ["Running outdoors", "Picnic", "Indoor yoga", "Cycling"]
  {
    var acts := ["Running outdoors", "Picnic", "Indoor yoga", "Cycling"];
    var t3 := "Indoor yoga" + Newline + "Cycling";
    var t2 := "Picnic" + Newline + t3;
    assert Join(acts[2..], Newline) == t3;
    assert Join(acts[1..], Newline) == t2;
    assert Join(acts, Newline) == "Running outdoors" + Newline + t2;
    forall k | 0 <= k < |acts| ensures WellFormedActivity(acts[k]) {
    }
    assert "Running outdoors" + Newline + t2 == "Running outdoors" + Newline + "Picnic" + Newline
                            + "Indoor yoga" + Newline + "Cycling";
    ParseJoinRoundTrip(acts);
  }
}

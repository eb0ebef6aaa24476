/**
 * The display formatter of src/utils/lametricFormatter.ts: departures are
 * grouped by line label in a plain object, and each entry of the object
 * becomes one frame showing the label and at most two of its times.
 */
module LametricFormatter {
  import opened Types
  import opened Sequences
  import opened EcmaObject

  /** The icon identifier every departure frame carries. */
  const BusIcon := "a6175"

  /** How many times of one line a frame shows at most. */
  const TimesShown := 2

  /** The line label of each departure, in input order. */
  function Lines(departures: seq<BusDeparture>): seq<string> {
    seq(|departures|, i requires 0 <= i < |departures| => departures[i].line)
  }

  /** The set of line labels occurring in the input. */
  function LineSet(departures: seq<BusDeparture>): set<string> {
    set d | d in departures :: d.line
  }

  /** The times of the departures on `line`, in input order. */
  function TimesOf(departures: seq<BusDeparture>, line: string): seq<string> {
    if departures == [] then []
    else
      var last := departures[|departures| - 1];
      TimesOf(departures[..|departures| - 1], line) + (if last.line == line then [last.time] else [])
  }

  /** Taking one more departure extends the times of its own line only. */
  lemma {:induction false} TimesOfExtend(departures: seq<BusDeparture>, i: nat, line: string)
    requires i < |departures|
    ensures TimesOf(departures[..i + 1], line)
      == TimesOf(departures[..i], line) + (if departures[i].line == line then [departures[i].time] else [])
  {
    assert departures[..i + 1][..i] == departures[..i];
  }

  /** A line that no departure is on has no times. */
  lemma {:induction false} TimesOfAbsentLine(departures: seq<BusDeparture>, line: string)
    requires line !in Lines(departures)
    ensures TimesOf(departures, line) == []
  {
    if departures != [] {
      var n := |departures| - 1;
      assert Lines(departures[..n]) == Lines(departures)[..n];
      assert Lines(departures)[n] == departures[n].line;
      TimesOfAbsentLine(departures[..n], line);
    }
  }

  /** The indices of the departures on `line`, ascending. */
  function Positions(departures: seq<BusDeparture>, line: string): (p: seq<nat>)
    ensures forall k | 0 <= k < |p| :: p[k] < |departures| && departures[p[k]].line == line
  {
    if departures == [] then []
    else
      var n := |departures| - 1;
      var prefix := departures[..n];
      var p := Positions(prefix, line);
      assert forall i | 0 <= i < n :: prefix[i] == departures[i];
      p + (if departures[n].line == line then [n] else [])
  }

  /** The positions ascend, and every departure on the line has its index among them. */
  lemma {:induction false} PositionsAscendingAndComplete(departures: seq<BusDeparture>, line: string)
    ensures var p := Positions(departures, line);
      && (forall k, m | 0 <= k < m < |p| :: p[k] < p[m])
      && (forall i | 0 <= i < |departures| && departures[i].line == line :: i in p)
  {
    if departures != [] {
      var n := |departures| - 1;
      var prefix := departures[..n];
      PositionsAscendingAndComplete(prefix, line);
      var p := Positions(prefix, line);
      assert Positions(departures, line) == p + (if departures[n].line == line then [n] else []);
      forall i | 0 <= i < n && departures[i].line == line
        ensures i in p
      {
        assert prefix[i] == departures[i];
      }
    }
  }

  /** The times of a line are the times at its positions, in the same order. */
  lemma {:induction false} TimesAtPositions(departures: seq<BusDeparture>, line: string)
    ensures |TimesOf(departures, line)| == |Positions(departures, line)|
    ensures forall k | 0 <= k < |TimesOf(departures, line)| ::
      TimesOf(departures, line)[k] == departures[Positions(departures, line)[k]].time
  {
    if departures != [] {
      var n := |departures| - 1;
      TimesAtPositions(departures[..n], line);
      assert forall i | 0 <= i < n :: departures[..n][i] == departures[i];
    }
  }

  /** `parts.join(separator)`. */
  function Join(parts: seq<string>, separator: string): string {
    if |parts| == 0 then ""
    else if |parts| == 1 then parts[0]
    else parts[0] + separator + Join(parts[1..], separator)
  }

  /** One frame: the line label, ": ", then the first two times joined by a space. */
  function MakeFrame(line: string, times: seq<string>): LaMetricFrame {
    var shown := if |times| <= TimesShown then times else times[..TimesShown];
    LaMetricFrame(line + ": " + Join(shown, " "), BusIcon)
  }

  /** The line labels in the order `Object.entries` reports the grouping object's keys. */
  function FrameLines(departures: seq<BusDeparture>): seq<string> {
    OrdinaryOwnPropertyKeys(Distinct(Lines(departures)))
  }

  /** The entries of the grouping object: each frame line with its times. */
  function GroupedEntries(departures: seq<BusDeparture>): seq<(string, seq<string>)> {
    var lines := FrameLines(departures);
    seq(|lines|, k requires 0 <= k < |lines| => (lines[k], TimesOf(departures, lines[k])))
  }

  /** The `map` over the entries: one frame per entry. */
  function FramesOf(entries: seq<(string, seq<string>)>): seq<LaMetricFrame> {
    seq(|entries|, k requires 0 <= k < |entries| => MakeFrame(entries[k].0, entries[k].1))
  }

  /** The payload `formatForLametric` returns for `departures`. */
  function Formatted(departures: seq<BusDeparture>): LaMetricResponse {
    LaMetricResponse(FramesOf(GroupedEntries(departures)))
  }

  /** `groups` is the grouping object after the first `i` departures. */
  ghost predicate GroupedUpTo(departures: seq<BusDeparture>, i: nat, groups: PlainObject<seq<string>>)
    requires i <= |departures|
  {
    && groups.Valid()
    && groups.creationOrder == Distinct(Lines(departures[..i]))
    && forall line | line in groups.props :: groups.props[line] == TimesOf(departures[..i], line)
  }

  /** One step of the `reduce`, once the line's key exists: its time is appended. */
  lemma {:induction false} GroupStep(departures: seq<BusDeparture>, i: nat, started: PlainObject<seq<string>>)
    requires i < |departures| && started.Valid() && departures[i].line in started.props
    requires started.creationOrder == Distinct(Lines(departures[..i + 1]))
    requires forall l | l in started.props :: started.props[l] == TimesOf(departures[..i], l)
    ensures GroupedUpTo(departures, i + 1,
                        started.Put(departures[i].line, started.props[departures[i].line] + [departures[i].time]))
  {
    AppendTimes(departures, i, started);
    var departure := departures[i];
    var after := started.Put(departure.line, started.props[departure.line] + [departure.time]);
    forall l | l in after.props
      ensures after.props[l] == TimesOf(departures[..i + 1], l)
    {
      assert l in started.props;
    }
  }

  /** After `acc[line] = acc[line] || []` the keys are those of the first i + 1 departures. */
  lemma {:induction false} StartEntry(departures: seq<BusDeparture>, i: nat, groups: PlainObject<seq<string>>,
                                      started: PlainObject<seq<string>>)
    requires i < |departures| && GroupedUpTo(departures, i, groups)
    requires started == if departures[i].line in groups.props then groups else groups.Put(departures[i].line, [])
    ensures started.Valid() && departures[i].line in started.props
    ensures started.creationOrder == Distinct(Lines(departures[..i + 1]))
    ensures forall l | l in started.props :: started.props[l] == TimesOf(departures[..i], l)
  {
    var line := departures[i].line;
    var lines := Lines(departures[..i + 1]);
    assert lines[..i] == Lines(departures[..i]) && lines[i] == line;
    if line !in groups.props {
      TimesOfAbsentLine(departures[..i], line);
    }
  }

  /** Appending the i-th time to its line's entry gives the times of the first i + 1 departures. */
  lemma {:induction false} AppendTimes(departures: seq<BusDeparture>, i: nat, started: PlainObject<seq<string>>)
    requires i < |departures| && departures[i].line in started.props
    requires forall line | line in started.props :: started.props[line] == TimesOf(departures[..i], line)
    ensures forall l | l in started.props ::
      TimesOf(departures[..i + 1], l)
        == if l == departures[i].line then started.props[l] + [departures[i].time] else started.props[l]
  {
    forall l | l in started.props
      ensures TimesOf(departures[..i + 1], l)
        == if l == departures[i].line then started.props[l] + [departures[i].time] else started.props[l]
    {
      TimesOfExtend(departures, i, l);
    }
  }

  /**
   * The `reduce` that groups departures by line: the object's keys are the
   * line labels in first-appearance order, and each key holds that line's
   * times in input order.
   */
  method GroupByLine(departures: seq<BusDeparture>) returns (groups: PlainObject<seq<string>>)
    ensures groups.Valid()
    ensures groups.creationOrder == Distinct(Lines(departures))
    ensures forall line | line in groups.props :: groups.props[line] == TimesOf(departures, line)
  {
    groups := EmptyObject();
    for i := 0 to |departures|
      invariant GroupedUpTo(departures, i, groups)
    {
      var departure := departures[i];
      ghost var before := groups;
      if departure.line !in groups.props {
        groups := groups.Put(departure.line, []);
      }
      StartEntry(departures, i, before, groups);
      GroupStep(departures, i, groups);
      groups := groups.Put(departure.line, groups.props[departure.line] + [departure.time]);
    }
    assert departures[..|departures|] == departures;
  }

  /** `formatForLametric`: group, then build one frame per entry of the grouping object. */
  method FormatForLametric(departures: seq<BusDeparture>) returns (response: LaMetricResponse)
    ensures response == Formatted(departures)
  {
    var groups := GroupByLine(departures);
    var entries := groups.Entries();
    assert entries == GroupedEntries(departures);
    response := LaMetricResponse(FramesOf(entries));
  }

  /** The frame labels are the input's line labels, each exactly once. */
  lemma {:induction false} FrameLinesAreTheLines(departures: seq<BusDeparture>)
    ensures NoDuplicates(FrameLines(departures))
    ensures forall line :: line in FrameLines(departures) <==> line in LineSet(departures)
  {
    OwnPropertyKeysPermutation(Distinct(Lines(departures)));
    forall line
      ensures line in Lines(departures) <==> line in LineSet(departures)
    {
      if line in Lines(departures) {
        var i := IndexOf(Lines(departures), line);
        assert departures[i] in departures;
      }
      if line in LineSet(departures) {
        var d :| d in departures && d.line == line;
        var i :| 0 <= i < |departures| && departures[i] == d;
        assert Lines(departures)[i] == line;
      }
    }
  }

  /**
   * There is one frame per distinct line label, so the payload is empty
   * exactly when the input is.
   */
  lemma {:induction false} FrameCount(departures: seq<BusDeparture>)
    ensures |Formatted(departures).frames| == |LineSet(departures)|
    ensures Formatted(departures).frames == [] <==> departures == []
  {
    var lines := Lines(departures);
    OwnPropertyKeysPermutation(Distinct(lines));
    DistinctCardinality(lines);
    FrameLinesAreTheLines(departures);
    assert Elements(lines) == LineSet(departures);
    if departures != [] {
      assert departures[0].line in LineSet(departures);
    }
  }

  /** A frame shows the label, ": ", the first time and, if there is one, a space and the second. */
  lemma {:induction false} FrameShowsFirstTwo(line: string, times: seq<string>)
    requires |times| >= 1
    ensures MakeFrame(line, times).icon == BusIcon
    ensures MakeFrame(line, times).text
      == line + ": " + times[0] + (if |times| >= 2 then " " + times[1] else "")
  {
    var shown := if |times| <= TimesShown then times else times[..TimesShown];
    if |times| >= 2 {
      assert shown == [times[0], times[1]] && shown[1..] == [times[1]];
      assert Join(shown, " ") == times[0] + " " + times[1];
      assert (line + ": ") + (times[0] + " " + times[1]) == line + ": " + times[0] + (" " + times[1]);
    }
  }

  /**
   * Frame k shows its line label, ": ", then the time of the first departure
   * on that line and, when there is one, a space and the time of the second;
   * its icon is the bus icon.
   */
  lemma {:induction false} FrameText(departures: seq<BusDeparture>, k: nat)
    requires k < |Formatted(departures).frames|
    ensures var line := FrameLines(departures)[k];
      var p := Positions(departures, line);
      && |p| >= 1
      && Formatted(departures).frames[k].icon == BusIcon
      && Formatted(departures).frames[k].text
           == line + ": " + departures[p[0]].time + (if |p| >= 2 then " " + departures[p[1]].time else "")
  {
    var line := FrameLines(departures)[k];
    FrameLinesAreTheLines(departures);
    assert line in LineSet(departures);
    var d :| d in departures && d.line == line;
    var i :| 0 <= i < |departures| && departures[i] == d;
    var p := Positions(departures, line);
    PositionsAscendingAndComplete(departures, line);
    assert i in p;
    TimesAtPositions(departures, line);
    var times := TimesOf(departures, line);
    assert Formatted(departures).frames[k] == MakeFrame(line, times);
    FrameShowsFirstTwo(line, times);
    assert times[0] == departures[p[0]].time;
    assert |p| >= 2 ==> times[1] == departures[p[1]].time;
  }

  /**
   * Frame order: labels that are array indices come first, in ascending
   * numeric order; the other labels follow in the order of their first
   * departure in the input.
   */
  lemma {:induction false} FrameOrder(departures: seq<BusDeparture>, i: nat, j: nat)
    requires i < j < |Formatted(departures).frames|
    ensures var lines, a, b := Lines(departures), FrameLines(departures)[i], FrameLines(departures)[j];
      && a in lines && b in lines
      && (IsArrayIndex(b) ==> IsArrayIndex(a))
      && (IsArrayIndex(a) && IsArrayIndex(b) ==> NumeralValue(a) < NumeralValue(b))
      && (!IsArrayIndex(a) && !IsArrayIndex(b) ==> IndexOf(lines, a) < IndexOf(lines, b))
  {
    var lines := Lines(departures);
    var a, b := FrameLines(departures)[i], FrameLines(departures)[j];
    OwnPropertyKeysOrder(Distinct(lines), i, j);
    DistinctKeepsFirstAppearanceOrder(lines, a, b);
  }

  /** Four departures on lines 12, 12, 5 and 12. */
  const Example := [
    BusDeparture("12", "10:01"), BusDeparture("12", "10:07"),
    BusDeparture("5", "10:02"), BusDeparture("12", "10:15")]

  lemma {:induction false} ExampleLineOrder()
    ensures Distinct(Lines(Example)) == ["12", "5"]
  {
    var lines := Lines(Example);
    assert lines == ["12", "12", "5", "12"];
    assert Distinct(["12"]) == ["12"] by {
      assert ["12"][..0] == [];
    }
    assert Distinct(["12", "12"]) == ["12"] by {
      assert ["12", "12"][..1] == ["12"];
    }
    assert Distinct(["12", "12", "5"]) == ["12", "5"] by {
      assert ["12", "12", "5"][..2] == ["12", "12"];
    }
    assert lines[..3] == ["12", "12", "5"];
  }

  lemma {:induction false} ExampleIndices()
    ensures IsArrayIndex("12") && NumeralValue("12") == 12
    ensures IsArrayIndex("5") && NumeralValue("5") == 5
  {
  }

  lemma {:induction false} ExampleKeyOrder()
    ensures OrdinaryOwnPropertyKeys(["12", "5"]) == ["5", "12"]
  {
    ExampleIndices();
    assert Filter(["12", "5"], IsArrayIndex, true) == ["12", "5"];
    assert Filter(["12", "5"], IsArrayIndex, false) == [];
    assert SortBy(["5"], NumeralValue) == ["5"];
  }

  lemma {:induction false} ExampleFrameLines()
    ensures FrameLines(Example) == ["5", "12"]
    ensures |Formatted(Example).frames| == 2
  {
    ExampleLineOrder();
    ExampleKeyOrder();
  }

  lemma {:induction false} ExampleTimesOf5()
    ensures TimesOf(Example, "5") == ["10:02"]
  {
    assert Example[..0] == [] && Example[..4] == Example;
    TimesOfExtend(Example, 0, "5");
    TimesOfExtend(Example, 1, "5");
    TimesOfExtend(Example, 2, "5");
    TimesOfExtend(Example, 3, "5");
  }

  lemma {:induction false} ExampleTimesOf12()
    ensures TimesOf(Example, "12") == ["10:01", "10:07", "10:15"]
  {
    assert Example[..0] == [] && Example[..4] == Example;
    TimesOfExtend(Example, 0, "12");
    TimesOfExtend(Example, 1, "12");
    TimesOfExtend(Example, 2, "12");
    TimesOfExtend(Example, 3, "12");
  }

  lemma {:induction false} ExampleFrame5()
    ensures MakeFrame("5", TimesOf(Example, "5")) == LaMetricFrame("5: 10:02", BusIcon)
  {
    ExampleTimesOf5();
    FrameShowsFirstTwo("5", ["10:02"]);
    assert "5" + ": " + "10:02" == "5: 10:02";
  }

  lemma {:induction false} ExampleFrame12()
    ensures MakeFrame("12", TimesOf(Example, "12")) == LaMetricFrame("12: 10:01 10:07", BusIcon)
  {
    ExampleTimesOf12();
    var times := ["10:01", "10:07", "10:15"];
    FrameShowsFirstTwo("12", times);
    assert times[0] == "10:01" && times[1] == "10:07";
    assert "12" + ": " + "10:01" + (" " + "10:07") == "12: 10:01 10:07";
  }

  /**
   * Lines 12, 12, 5, 12: "5" is an array index smaller than 12, so its frame
   * comes first although line 12 appears first; line 12 shows only its first
   * two times.
   */
  lemma {:induction false} NumericLabelsComeFirst()
    ensures var frames := Formatted(Example).frames;
      && |frames| == 2
      && frames[0] == LaMetricFrame("5: 10:02", BusIcon)
      && frames[1] == LaMetricFrame("12: 10:01 10:07", BusIcon)
  {
    ExampleFrameLines();
    ExampleFrame5();
    ExampleFrame12();
  }
}

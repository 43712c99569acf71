/**
 * `compare_strings` of compare_strings.py: walks the tagged lines that
 * `difflib.Differ` produces for two texts, numbers each line on the side or
 * sides it belongs to, and classifies the difference.
 *
 * The Differ itself is not modelled: its output is the input here, a
 * sequence of lines tagged "  " (in both), "- " (left only), "+ " (right
 * only) or "? " (a hint line).
 */
module CompareStrings {
  import opened PyStr

  /** `DiffResult`. */
  datatype DiffResult = NoDifference | BlankLines | ContentDifference

  /** The value of each `DiffResult` member. */
  function Description(d: DiffResult): string {
    match d
    case NoDifference => "No difference"
    case BlankLines => "Only blank lines added/subtracted"
    case ContentDifference => "Content difference"
  }

  /** `CompareResult`. */
  datatype CompareResult = CompareResult(result: DiffResult, diffs: seq<string>)

  /** A line present in both texts. */
  predicate IsCommon(line: string) {
    StartsWith(line, "  ")
  }

  /** A line of the first text only. */
  predicate IsRemoved(line: string) {
    !IsCommon(line) && StartsWith(line, "- ")
  }

  /** A line of the second text only. */
  predicate IsAdded(line: string) {
    !IsCommon(line) && !IsRemoved(line) && StartsWith(line, "+ ")
  }

  /** A line the loop reports; the Differ's "? " hints are not. */
  predicate IsReported(line: string) {
    IsCommon(line) || IsRemoved(line) || IsAdded(line)
  }

  /** The reported form of a tagged line, numbered with the left counter `n1` and the right counter `n2`. */
  function Format(line: string, n1: int, n2: int): string {
    if IsCommon(line) then "  " + Pad4(n1) + " " + Pad4(n2) + " " + line
    else if IsRemoved(line) then "- " + Pad4(n1) + "      " + line
    else "+      " + Pad4(n2) + " " + line
  }

  /** How a "- " or "+ " line updates the classification. */
  function Classify(result: DiffResult, line: string): DiffResult {
    var r := if result == NoDifference then BlankLines else result;
    if !IsSpace(line) then ContentDifference else r
  }

  /** The loop's variables: both counters, the lines reported so far and the classification. */
  datatype Tally = Tally(n1: int, n2: int, diffs: seq<string>, result: DiffResult)

  /** One iteration of the loop on `line`. */
  function Step(t: Tally, line: string): Tally {
    if IsCommon(line) then Tally(t.n1 + 1, t.n2 + 1, t.diffs + [Format(line, t.n1, t.n2)], t.result)
    else if IsRemoved(line) then Tally(t.n1 + 1, t.n2, t.diffs + [Format(line, t.n1, t.n2)], Classify(t.result, line))
    else if IsAdded(line) then Tally(t.n1, t.n2 + 1, t.diffs + [Format(line, t.n1, t.n2)], Classify(t.result, line))
    else t
  }

  /** The variables after the loop has run over `lines`, starting from `n1 = n2 = 1`. */
  function Run(lines: seq<string>): Tally
    decreases |lines|
  {
    if lines == [] then Tally(1, 1, [], NoDifference)
    else Step(Run(lines[..|lines| - 1]), lines[|lines| - 1])
  }

  /** `compare_strings`, given the Differ's output for the two texts' lines. */
  method Compare(differ: seq<string>) returns (r: CompareResult)
    ensures r == CompareResult(Run(differ).result, Run(differ).diffs)
  {
    var n1, n2 := 1, 1;
    var differences: seq<string> := [];
    var result := NoDifference;
    for i := 0 to |differ|
      invariant Tally(n1, n2, differences, result) == Run(differ[..i])
    {
      var line := differ[i];
      assert differ[..i + 1][..i] == differ[..i];
      if StartsWith(line, "  ") {
        differences := differences + ["  " + Pad4(n1) + " " + Pad4(n2) + " " + line];
        n1 := n1 + 1;
        n2 := n2 + 1;
      } else if StartsWith(line, "- ") {
        differences := differences + ["- " + Pad4(n1) + "      " + line];
        n1 := n1 + 1;
        if result == NoDifference {
          result := BlankLines;
        }
        if !IsSpace(line) {
          result := ContentDifference;
        }
      } else if StartsWith(line, "+ ") {
        differences := differences + ["+      " + Pad4(n2) + " " + line];
        n2 := n2 + 1;
        if result == NoDifference {
          result := BlankLines;
        }
        if !IsSpace(line) {
          result := ContentDifference;
        }
      }
    }
    assert differ[..|differ|] == differ;
    r := CompareResult(result, differences);
  }

  // ---------------------------------------------------------------- sides and reports

  /** The lines of the first text as the Differ reports them: "  " and "- " lines with the tag removed. */
  function Left(lines: seq<string>): seq<string>
    decreases |lines|
  {
    if lines == [] then []
    else
      var last := lines[|lines| - 1];
      Left(lines[..|lines| - 1]) + if IsCommon(last) || IsRemoved(last) then [last[2..]] else []
  }

  /** The lines of the second text as the Differ reports them: "  " and "+ " lines with the tag removed. */
  function Right(lines: seq<string>): seq<string>
    decreases |lines|
  {
    if lines == [] then []
    else
      var last := lines[|lines| - 1];
      Right(lines[..|lines| - 1]) + if IsCommon(last) || IsAdded(last) then [last[2..]] else []
  }

  /** The reported lines, in order. */
  function Reported(lines: seq<string>): seq<string>
    decreases |lines|
  {
    if lines == [] then []
    else
      var last := lines[|lines| - 1];
      Reported(lines[..|lines| - 1]) + if IsReported(last) then [last] else []
  }

  // ---------------------------------------------------------------- properties

  /**
   * The left counter moves only on "  " and "- " lines and the right one
   * only on "  " and "+ " lines: each stands one past the number of lines
   * seen of its text.
   */
  lemma {:induction false} Counters(lines: seq<string>)
    ensures Run(lines).n1 == 1 + |Left(lines)|
    ensures Run(lines).n2 == 1 + |Right(lines)|
    decreases |lines|
  {
    if lines != [] {
      Counters(lines[..|lines| - 1]);
    }
  }

  /**
   * When the Differ's output accounts for every line of both texts, the
   * counters end one past the number of lines of each text.
   */
  lemma FinalCounters(str1: string, str2: string, differ: seq<string>)
    requires Left(differ) == SplitLines(str1) && Right(differ) == SplitLines(str2)
    ensures Run(differ).n1 == 1 + |SplitLines(str1)|
    ensures Run(differ).n2 == 1 + |SplitLines(str2)|
  {
    Counters(differ);
  }

  /**
   * One line is reported per "  ", "- " or "+ " input line, in order, and
   * each report begins with its input line's tag and ends with that line.
   */
  lemma {:induction false} Reports(lines: seq<string>)
    ensures |Run(lines).diffs| == |Reported(lines)|
    ensures forall j :: 0 <= j < |Reported(lines)| ==>
      |Reported(lines)[j]| >= 2 && StartsWith(Run(lines).diffs[j], Reported(lines)[j][..2])
      && EndsWith(Run(lines).diffs[j], Reported(lines)[j])
    decreases |lines|
  {
    if lines != [] {
      var init := lines[..|lines| - 1];
      var last := lines[|lines| - 1];
      Reports(init);
      if IsReported(last) {
        var t := Run(init);
        FormatShape(last, t.n1, t.n2);
        assert Run(lines).diffs == t.diffs + [Format(last, t.n1, t.n2)];
        assert Reported(lines) == Reported(init) + [last];
      } else {
        assert Reported(lines) == Reported(init) + [];
      }
    }
  }

  /** A report begins with the tag of the line it reports and ends with the line. */
  lemma FormatShape(line: string, n1: int, n2: int)
    requires IsReported(line)
    ensures |line| >= 2 && StartsWith(Format(line, n1, n2), line[..2])
    ensures EndsWith(Format(line, n1, n2), line)
  {
    var tag := line[..2];
    var head: string;
    if IsCommon(line) {
      var h1 := tag + Pad4(n1);
      PrefixOfConcat(tag, Pad4(n1));
      PrefixExtends(h1, " ", tag);
      PrefixExtends(h1 + " ", Pad4(n2), tag);
      PrefixExtends(h1 + " " + Pad4(n2), " ", tag);
      head := h1 + " " + Pad4(n2) + " ";
    } else if IsRemoved(line) {
      PrefixOfConcat(tag, Pad4(n1));
      PrefixExtends(tag + Pad4(n1), "      ", tag);
      head := tag + Pad4(n1) + "      ";
    } else {
      assert "+      " == tag + "     ";
      PrefixOfConcat(tag, "     ");
      PrefixOfConcat("+      ", Pad4(n2));
      PrefixTransitive("+      " + Pad4(n2), "+      ", tag);
      PrefixExtends("+      " + Pad4(n2), " ", tag);
      head := "+      " + Pad4(n2) + " ";
    }
    assert Format(line, n1, n2) == head + line;
    PrefixExtends(head, line, tag);
    SuffixOfConcat(head, line);
  }

  /** Running over more lines only appends reports. */
  lemma {:induction false} ReportsOnlyGrow(lines: seq<string>, k: nat)
    requires k <= |lines|
    ensures Run(lines[..k]).diffs <= Run(lines).diffs
    decreases |lines|
  {
    if k == |lines| {
      assert lines[..k] == lines;
    } else {
      var init := lines[..|lines| - 1];
      ReportsOnlyGrow(init, k);
      assert init[..k] == lines[..k];
      StepAppends(Run(init), lines[|lines| - 1]);
      PrefixChain(Run(lines[..k]).diffs, Run(init).diffs, Run(lines).diffs);
    }
  }

  /** One iteration appends at most one report and changes none. */
  lemma StepAppends(t: Tally, line: string)
    ensures t.diffs <= Step(t, line).diffs
  {
  }

  /**
   * The report of the input line at `i` carries the counters as they stood
   * before it: one past the number of lines of each text seen so far.
   */
  lemma Numbering(lines: seq<string>, i: nat)
    requires i < |lines| && IsReported(lines[i])
    ensures |Reported(lines[..i])| < |Run(lines).diffs|
    ensures Run(lines).diffs[|Reported(lines[..i])|]
         == Format(lines[i], 1 + |Left(lines[..i])|, 1 + |Right(lines[..i])|)
  {
    var before := lines[..i];
    assert lines[..i + 1][..i] == before;
    assert lines[..i + 1][i] == lines[i];
    Counters(before);
    Reports(before);
    ReportsOnlyGrow(lines, i + 1);
  }

  /**
   * The result is NONE exactly when no "- " or "+ " line occurs; otherwise it
   * is CONTENT, because `isspace` is asked of the tagged line, whose first
   * character is never whitespace. BLANK_LINES is never the final result.
   */
  lemma {:induction false} Classification(lines: seq<string>)
    ensures Run(lines).result == NoDifference <==>
      forall i :: 0 <= i < |lines| ==> !IsRemoved(lines[i]) && !IsAdded(lines[i])
    ensures Run(lines).result != BlankLines
    decreases |lines|
  {
    if lines != [] {
      var init := lines[..|lines| - 1];
      var last := lines[|lines| - 1];
      Classification(init);
      if IsRemoved(last) || IsAdded(last) {
        VisibleAsciiNotSpace(last[0]);
        assert !IsSpace(last);
      }
      assert forall i :: 0 <= i < |init| ==> lines[i] == init[i];
    }
  }

  /** Once the result has left NONE it never returns to it: any longer run ends as CONTENT. */
  lemma ResultSticky(lines: seq<string>, k: nat)
    requires k <= |lines| && Run(lines[..k]).result != NoDifference
    ensures Run(lines).result == ContentDifference
  {
    var i := ChangedLine(lines[..k]);
    assert lines[..k][i] == lines[i];
    Classification(lines);
  }

  /** A run whose result has left NONE has seen a "- " or "+ " line. */
  lemma ChangedLine(lines: seq<string>) returns (i: nat)
    requires Run(lines).result != NoDifference
    ensures i < |lines| && (IsRemoved(lines[i]) || IsAdded(lines[i]))
  {
    Classification(lines);
    i :| 0 <= i < |lines| && (IsRemoved(lines[i]) || IsAdded(lines[i]));
  }
}

/**
 * The body of the `insert-cycle-check` command (main.ts): parse the week, trim
 * the cycle label, pick one of eight fixed status lines or the fallback, and
 * either hand the line to the editor or produce a notice.
 */
module CycleCheck {
  import opened Wrappers
  import opened Ecma

  // ---------------------------------------------------------------------------
  // Fixed texts
  // ---------------------------------------------------------------------------

  /** The line produced for any week outside 1..8. */
  const Fallback: string := "Invalid week number. Please enter a number between 1 and 8."

  /** The notice shown when no Markdown view is active. */
  const NoMarkdownNotice: string := "No active Markdown file to insert text."

  const Prefix: string := "Cycle Check: "

  /** Progress-bar symbols: a finished or pending working week, a cooldown week other than the current one. */
  const Green: char := '\U{1F7E9}'
  const Blue: char := '\U{1F7E6}'
  /** The mark on the current week: a check mark in weeks 1..6, a diamond in cooldown. */
  const Check: char := '\U{2705}'
  const Diamond: char := '\U{1F537}'

  predicate IsMarker(c: char) {
    c == Check || c == Diamond
  }

  predicate IsWeek(n: int) {
    1 <= n <= 8
  }

  /**
   * Symbol `i` (from 0) of week `n`'s progress bar: the week's own position
   * carries the marker (a check mark for weeks 1..6, a diamond for the two
   * cooldown weeks); the other positions of the six working weeks are green
   * and the other positions of the two cooldown weeks are blue.
   */
  function GlyphAt(n: int, i: int): char {
    if i == n - 1 then (if n <= 6 then Check else Diamond)
    else if i < 6 then Green
    else Blue
  }

  /** The eight-symbol progress bar printed for week `n`; none of its symbols is a space. */
  function Glyphs(n: int): (g: string)
    requires IsWeek(n)
    ensures |g| == 8
    ensures forall i :: 0 <= i < 8 ==> g[i] != ' '
  {
    seq(8, i => GlyphAt(n, i))
  }

  /** Each progress bar carries exactly one marker, at the position of its week. */
  lemma GlyphsMarker(n: int, i: int)
    requires IsWeek(n) && 0 <= i < 8
    ensures IsMarker(Glyphs(n)[i]) <==> i == n - 1
  {
    assert Glyphs(n)[i] == GlyphAt(n, i);
  }

  // ---------------------------------------------------------------------------
  // The line generator
  // ---------------------------------------------------------------------------

  /** The status line for the raw week and cycle strings typed into the form. */
  function CycleLine(week: string, cycle: string): (line: string)
  {
    SwitchLine(ParseInt10(week), Trim(cycle))
  }

  /** The switch on the parsed week number: eight fixed sentences or the fallback. */
  function SwitchLine(weekNum: Option<int>, cycleStr: string): (line: string)
  {
    match weekNum
    case Some(1) => "Cycle Check: " + Glyphs(1) + " We are in week 1 of Cycle " + cycleStr + "."
    case Some(2) => "Cycle Check: " + Glyphs(2) + " We are in week 2 of Cycle " + cycleStr + "."
    case Some(3) => "Cycle Check: " + Glyphs(3) + " We are in week 3 of Cycle " + cycleStr + "."
    case Some(4) => "Cycle Check: " + Glyphs(4) + " We are in week 4 of Cycle " + cycleStr + "."
    case Some(5) => "Cycle Check: " + Glyphs(5) + " We are in week 5 of Cycle " + cycleStr + "."
    case Some(6) => "Cycle Check: " + Glyphs(6) + " We are in week 6 of Cycle " + cycleStr + "."
    case Some(7) => "Cycle Check: " + Glyphs(7) + " We are in the first week of cooldown for Cycle " + cycleStr + "."
    case Some(8) => "Cycle Check: " + Glyphs(8) + " We are in the second week of cooldown for Cycle " + cycleStr + "."
    case _ => Fallback
  }

  /**
   * The sentence between the progress bar and the cycle label, written once
   * for all weeks: the week's one decimal digit for weeks 1..6, the first and
   * the second week of cooldown for weeks 7 and 8.
   */
  function Sentence(n: int): string
    requires IsWeek(n)
  {
    if n <= 6 then " We are in week " + [DigitChar(n)] + " of Cycle "
    else if n == 7 then " We are in the first week of cooldown for Cycle "
    else " We are in the second week of cooldown for Cycle "
  }

  /** The reference line for week `n` and an already-trimmed cycle label. */
  function WeekLine(n: int, cycleStr: string): string
    requires IsWeek(n)
  {
    Prefix + Glyphs(n) + Sentence(n) + cycleStr + "."
  }

  // ---------------------------------------------------------------------------
  // The insert-or-notice decision
  // ---------------------------------------------------------------------------

  /** What the command does with the line: insert text in the editor, or show a notice. */
  datatype Outcome = Insert(text: string) | Notice(message: string)

  /**
   * With an active Markdown view the editor's selection is replaced by the
   * line and a line break; otherwise nothing is inserted and the fixed notice
   * is shown.
   */
  function Deliver(line: string, hasMarkdownView: bool): (o: Outcome)
    ensures o.Insert? <==> hasMarkdownView
    ensures o.Insert? ==> |o.text| == |line| + 1 && o.text[..|line|] == line && o.text[|line|] == '\n'
    ensures o.Notice? ==> o.message == NoMarkdownNotice
  {
    if hasMarkdownView then Insert(line + "\n") else Notice(NoMarkdownNotice)
  }

  /** The whole command once the form has returned its two strings. */
  function RunCommand(week: string, cycle: string, hasMarkdownView: bool): Outcome {
    Deliver(CycleLine(week, cycle), hasMarkdownView)
  }

  // ---------------------------------------------------------------------------
  // Properties of the line generator
  // ---------------------------------------------------------------------------

  /** The week string selects one of the eight table entries. */
  predicate SelectsWeek(week: string) {
    var w := ParseInt10(week);
    w.Some? && IsWeek(w.value)
  }

  /** For weeks 1..3 the switch's sentence is the numbered reference sentence. */
  lemma SwitchLineEarlyWeek(n: int, cycleStr: string)
    requires 1 <= n <= 3
    ensures SwitchLine(Some(n), cycleStr) == WeekLine(n, cycleStr)
  {
    if n == 1 {
      assert Sentence(1) == " We are in week 1 of Cycle ";
    } else if n == 2 {
      assert Sentence(2) == " We are in week 2 of Cycle ";
    } else {
      assert Sentence(3) == " We are in week 3 of Cycle ";
    }
  }

  /** For weeks 4..6 the switch's sentence is the numbered reference sentence. */
  lemma SwitchLineLateWeek(n: int, cycleStr: string)
    requires 4 <= n <= 6
    ensures SwitchLine(Some(n), cycleStr) == WeekLine(n, cycleStr)
  {
    if n == 4 {
      assert Sentence(4) == " We are in week 4 of Cycle ";
    } else if n == 5 {
      assert Sentence(5) == " We are in week 5 of Cycle ";
    } else {
      assert Sentence(6) == " We are in week 6 of Cycle ";
    }
  }

  /** The switch picks, for each of the weeks 1..6, the reference line of that week. */
  lemma SwitchLineActiveWeek(n: int, cycleStr: string)
    requires 1 <= n <= 6
    ensures SwitchLine(Some(n), cycleStr) == WeekLine(n, cycleStr)
  {
    if n <= 3 {
      SwitchLineEarlyWeek(n, cycleStr);
    } else {
      SwitchLineLateWeek(n, cycleStr);
    }
  }

  /** Weeks 7 and 8 of the switch are the reference lines, around any label. */
  lemma SwitchLineCooldown(cycleStr: string)
    ensures SwitchLine(Some(7), cycleStr) == WeekLine(7, cycleStr)
    ensures SwitchLine(Some(8), cycleStr) == WeekLine(8, cycleStr)
  {
    assert Sentence(7) == " We are in the first week of cooldown for Cycle ";
    assert Sentence(8) == " We are in the second week of cooldown for Cycle ";
  }

  /** Every other parsed value, NaN included, selects the fallback. */
  lemma SwitchLineInvalid(weekNum: Option<int>, cycleStr: string)
    requires !(weekNum.Some? && IsWeek(weekNum.value))
    ensures SwitchLine(weekNum, cycleStr) == Fallback
  {
  }

  /** On every parsed value the switch agrees with the reference line or gives the fallback. */
  lemma SwitchLineMatchesWeekLine(weekNum: Option<int>, cycleStr: string)
    ensures SwitchLine(weekNum, cycleStr)
         == if weekNum.Some? && IsWeek(weekNum.value) then WeekLine(weekNum.value, cycleStr) else Fallback
  {
    if weekNum.Some? && 1 <= weekNum.value <= 6 {
      SwitchLineActiveWeek(weekNum.value, cycleStr);
    } else if weekNum == Some(7) || weekNum == Some(8) {
      SwitchLineCooldown(cycleStr);
    } else {
      SwitchLineInvalid(weekNum, cycleStr);
    }
  }

  /** The line generator agrees with the reference line for every input. */
  lemma CycleLineMatchesWeekLine(week: string, cycle: string)
    ensures CycleLine(week, cycle)
         == if SelectsWeek(week) then WeekLine(ParseInt10(week).value, Trim(cycle)) else Fallback
  {
    SwitchLineMatchesWeekLine(ParseInt10(week), Trim(cycle));
  }

  /** Weeks 1..6 give the numbered sentence around the trimmed cycle label. */
  lemma CycleLineActiveWeek(week: string, cycle: string, n: int)
    requires ParseInt10(week) == Some(n) && 1 <= n <= 6
    ensures CycleLine(week, cycle)
         == "Cycle Check: " + Glyphs(n) + (" We are in week " + [DigitChar(n)] + " of Cycle ") + Trim(cycle) + "."
  {
    SwitchLineActiveWeek(n, Trim(cycle));
  }

  /** Week 7 gives the first and week 8 the second cooldown sentence. */
  lemma CycleLineCooldownWeek(week: string, cycle: string)
    ensures ParseInt10(week) == Some(7) ==>
              CycleLine(week, cycle)
              == "Cycle Check: " + Glyphs(7) + " We are in the first week of cooldown for Cycle " + Trim(cycle) + "."
    ensures ParseInt10(week) == Some(8) ==>
              CycleLine(week, cycle)
              == "Cycle Check: " + Glyphs(8) + " We are in the second week of cooldown for Cycle " + Trim(cycle) + "."
  {
    SwitchLineCooldown(Trim(cycle));
    assert Sentence(7) == " We are in the first week of cooldown for Cycle ";
    assert Sentence(8) == " We are in the second week of cooldown for Cycle ";
    assert CycleLine(week, cycle) == SwitchLine(ParseInt10(week), Trim(cycle));
  }

  /** NaN and every integer outside 1..8 give the fallback, whatever the cycle is. */
  lemma CycleLineInvalidWeek(week: string, cycle: string)
    requires !SelectsWeek(week)
    ensures CycleLine(week, cycle) == Fallback
  {
    SwitchLineInvalid(ParseInt10(week), Trim(cycle));
  }

  /** Indexing into the second of five concatenated strings. */
  lemma IndexSecond(a: string, b: string, c: string, d: string, e: string, i: int)
    requires 0 <= i < |b|
    ensures |a + b + c + d + e| > |a| + i && (a + b + c + d + e)[|a| + i] == b[i]
  {
    assert a + b + c + d + e == (a + b) + (c + d + e);
    assert (a + b)[|a| + i] == b[i];
  }

  /** The glyph at position i of week n's line is a marker exactly when i is n - 1. */
  lemma WeekLineMarker(n: int, cycleStr: string, i: int)
    requires IsWeek(n) && 0 <= i < 8
    ensures |WeekLine(n, cycleStr)| > |Prefix| + i
    ensures IsMarker(WeekLine(n, cycleStr)[|Prefix| + i]) <==> i == n - 1
  {
    IndexSecond(Prefix, Glyphs(n), Sentence(n), cycleStr, ".", i);
    GlyphsMarker(n, i);
  }

  /** For a fixed cycle the eight table lines are pairwise distinct. */
  lemma WeekLinesDistinct(m: int, n: int, cycleStr: string)
    requires IsWeek(m) && IsWeek(n) && m != n
    ensures WeekLine(m, cycleStr) != WeekLine(n, cycleStr)
  {
    WeekLineMarker(m, cycleStr, m - 1);
    WeekLineMarker(n, cycleStr, m - 1);
  }

  /** No table line is the fallback line: they differ in their 21st character. */
  lemma WeekLineNotFallback(n: int, cycleStr: string)
    requires IsWeek(n)
    ensures WeekLine(n, cycleStr) != Fallback
  {
    IndexSecond(Prefix, Glyphs(n), Sentence(n), cycleStr, ".", 7);
    assert WeekLine(n, cycleStr)[20] == Glyphs(n)[7] != ' ';
    assert Fallback[20] == ' ';
  }

  /** The fallback is produced exactly when the week does not select a table entry. */
  lemma CycleLineIsFallbackIff(week: string, cycle: string)
    ensures CycleLine(week, cycle) == Fallback <==> !SelectsWeek(week)
  {
    CycleLineMatchesWeekLine(week, cycle);
    if SelectsWeek(week) {
      WeekLineNotFallback(ParseInt10(week).value, Trim(cycle));
    }
  }

  /** For a fixed cycle, two valid week strings give the same line exactly when they select the same week. */
  lemma CycleLineSameIffSameWeek(week1: string, week2: string, cycle: string)
    requires SelectsWeek(week1) && SelectsWeek(week2)
    ensures CycleLine(week1, cycle) == CycleLine(week2, cycle) <==> ParseInt10(week1) == ParseInt10(week2)
  {
    CycleLineMatchesWeekLine(week1, cycle);
    CycleLineMatchesWeekLine(week2, cycle);
    if ParseInt10(week1) != ParseInt10(week2) {
      WeekLinesDistinct(ParseInt10(week1).value, ParseInt10(week2).value, Trim(cycle));
    }
  }

  /**
   * The line depends on nothing but the parsed week and the trimmed cycle:
   * no field or global state is read.
   */
  lemma CycleLineDependsOnlyOnInputs(week1: string, cycle1: string, week2: string, cycle2: string)
    requires ParseInt10(week1) == ParseInt10(week2) && Trim(cycle1) == Trim(cycle2)
    ensures CycleLine(week1, cycle1) == CycleLine(week2, cycle2)
  {
  }

  /** A cycle label without surrounding white space appears in the line verbatim. */
  lemma CycleLineVerbatimCycle(week: string, cycle: string)
    requires SelectsWeek(week) && Unpadded(cycle)
    ensures CycleLine(week, cycle) == WeekLine(ParseInt10(week).value, cycle)
  {
    CycleLineMatchesWeekLine(week, cycle);
    TrimUnpadded(cycle);
  }

  /**
   * An empty or blank cycle is not special-cased: the label contributes
   * nothing, and the line closes with the sentence's "Cycle " and the period.
   */
  lemma CycleLineBlankCycle(week: string, cycle: string)
    requires AllStrWhiteSpace(cycle)
    ensures CycleLine(week, cycle) == CycleLine(week, "")
    ensures SelectsWeek(week) ==>
              CycleLine(week, cycle) == Prefix + Glyphs(ParseInt10(week).value) + Sentence(ParseInt10(week).value) + "."
  {
    TrimAllWhiteSpace(cycle);
    CycleLineMatchesWeekLine(week, cycle);
    if SelectsWeek(week) {
      var n := ParseInt10(week).value;
      assert Prefix + Glyphs(n) + Sentence(n) + [] == Prefix + Glyphs(n) + Sentence(n);
    }
  }

  /** Week "9" lies just above the table: whatever the cycle, here "x", the fallback is produced. */
  lemma WeekNineExample(week: string, cycle: string)
    requires week == "9" && cycle == "x"
    ensures CycleLine(week, cycle) == Fallback
  {
    ParseIntExampleNine(week);
    CycleLineInvalidWeek(week, cycle);
  }

  // ---------------------------------------------------------------------------
  // Properties of the insert-or-notice decision
  // ---------------------------------------------------------------------------

  /** Without an active Markdown view nothing is inserted and the fixed notice is shown, whatever was typed. */
  lemma NoViewGivesNotice(week: string, cycle: string)
    ensures RunCommand(week, cycle, false) == Notice(NoMarkdownNotice)
  {
  }

  /**
   * With an active Markdown view the editor receives the line and a line
   * break, and that text is the fallback line exactly when the week is invalid.
   */
  lemma InsertedFallbackIff(week: string, cycle: string)
    ensures RunCommand(week, cycle, true) == Insert(CycleLine(week, cycle) + "\n")
    ensures RunCommand(week, cycle, true) == Insert(Fallback + "\n") <==> !SelectsWeek(week)
  {
    var line := CycleLine(week, cycle);
    CycleLineIsFallbackIff(week, cycle);
    if line + "\n" == Fallback + "\n" {
      assert line == (line + "\n")[..|line|];
      assert Fallback == (Fallback + "\n")[..|Fallback|];
    }
  }
}

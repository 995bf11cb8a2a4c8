# Cycle Check line generator

This project models the `insert-cycle-check` command of the Cycle Check
Obsidian plugin. The user types a week number and a cycle label into a form.
The command then reads the week with `parseInt(week, 10)` and trims the cycle
label with `String.prototype.trim`. It picks one of eight fixed status lines
("Cycle Check: <progress bar> We are in week n of Cycle <label>.", and two
cooldown sentences for weeks 7 and 8), or the fallback "Invalid week number.
Please enter a number between 1 and 8." Finally, it either inserts the line and
a line break into the active Markdown editor or shows the notice "No active
Markdown file to insert text."

The project has three files:

- `wrappers.dfy` has the `Option` type. `None` stands for the NaN that
  `parseInt` returns.
- `ecma.dfy` (module `Ecma`) models the two ECMA-262 built-ins the command uses:
  - `TrimStart`, `TrimEnd` and `Trim` follow TrimString, section 22.1.3.30.1.
    They strip the characters of StrWhiteSpaceChar: WhiteSpace from section 12.2
    and LineTerminator from section 12.3.
  - `ParseInt10` follows `parseInt` with radix 10, section 19.2.5. It skips
    leading white space, takes an optional `+` or `-`, and reads the longest
    run of decimal digits. With no digits the result is NaN.
- `cycle_check.dfy` (module `CycleCheck`) models the command body:
  - `CycleLine(week, cycle)` is the line produced for the two typed strings.
    `SwitchLine` is the switch itself, over the parsed number and the trimmed
    label, with the eight source sentences spelled out.
  - `WeekLine(n, label)` is an independent reference for that switch:
    prefix + `Glyphs(n)` + `Sentence(n)` + label + ".". `Glyphs(n)` is the
    progress bar, built by one rule. `Sentence(n)` is built from the week's
    decimal digit for weeks 1..6.
  - `Deliver` and `RunCommand` model the insert-or-notice decision. Its result
    is an `Outcome` (`Insert(text)` or `Notice(message)`), and whether a
    Markdown view is active is a boolean parameter.

The progress bar is eight symbols:

- weeks 1..6: the current position carries a check mark U+2705, the other
  positions 1..6 are green squares U+1F7E9, and positions 7 and 8 are blue
  squares U+1F7E6;
- week 7: six green squares, a blue diamond U+1F537, a blue square;
- week 8: six green squares, a blue square, a blue diamond.

The proofs use three facts about these symbols: each bar has length eight, a
marker (check mark or diamond) sits exactly at the week's own position, and no
symbol is a space. The last one separates every table line from the fallback,
whose 21st character is a space where the lines have their last bar symbol.

## Model

| member | source | states |
|---|---|---|
| Ecma.IsStrWhiteSpace | main.ts:64-65 | the characters both trim and parseInt skip: WhiteSpace and LineTerminator of ECMA-262; its meaning is carried by the contracts of TrimStart, TrimEnd, Trim and ParseIntOf, which are stated in terms of it |
| Ecma.TrimStart | main.ts:65 | the result is a suffix of the input, everything dropped in front is white space or a line terminator, and the result does not start with one |
| Ecma.TrimEnd | main.ts:65 | the result is a prefix of the input, everything dropped at the end is white space or a line terminator, and the result does not end with one |
| Ecma.Trim | main.ts:65 | the trimmed label has no white space at either end, and it is a contiguous piece of the input with only white space cut away on both sides |
| Ecma.TrimOfPadded | main.ts:65 | any white space around a core with unpadded ends trims to exactly that core, so trim is determined by its padding |
| Ecma.TrimIdempotent | main.ts:65 | trimming the label twice gives the same as trimming it once |
| Ecma.TrimUnpadded | main.ts:65 | a label with no surrounding white space passes through trim unchanged |
| Ecma.TrimAllWhiteSpace | main.ts:65 | an empty or all-white-space label trims to the empty string |
| Ecma.LeadingDigits | main.ts:64 | the digit run parseInt reads is a prefix of its input, all decimal digits, and followed by the end or a non-digit |
| Ecma.DecimalString | main.ts:64 | the decimal numeral of a natural number is a non-empty digit string with no leading zero except for 0 itself |
| Ecma.DigitsValue | main.ts:64 | the mathematical value of a digit run; DecimalStringValue and LeadingZeroValue state what it means |
| Ecma.DecimalStringValue | main.ts:64 | the digit run of the decimal numeral of n has value n, so DigitsValue inverts DecimalString |
| Ecma.LeadingZeroValue | main.ts:64 | a zero in front of a digit run does not change its value |
| Ecma.DropSign | main.ts:64 | at most the first character is removed; DropSignOf states that exactly the optional sign in front of the digits is removed |
| Ecma.DropSignOf | main.ts:64 | removing the optional sign leaves exactly what follows it, and the value is negative exactly after a minus |
| Ecma.Signed | main.ts:64 | the digits' value, negated after a minus; its use is stated by ParseIntOf and ParseIntDecimalRoundTrip |
| Ecma.ParseInt10 | main.ts:64 | parseInt yields a number only when the week string contains a decimal digit; its value on every string is given by ParseIntOf, ParseIntCases and ParseIntNaN |
| Ecma.ParseIntOf | main.ts:64 | white space, an optional sign, a non-empty digit run, then anything that does not continue the run, parses to the run's value, negated after a minus |
| Ecma.ParseIntCases | main.ts:64 | the converse of ParseIntOf: whenever parseInt yields a number, the input splits into white space, an optional sign, a non-empty digit run and a rest not starting with a digit, and the number is the run's value, negated after a minus |
| Ecma.ParseIntNaN | main.ts:64 | white space and an optional sign followed by no digit is NaN |
| Ecma.ParseIntSkipsWhiteSpace | main.ts:64 | leading white space never changes the parsed week |
| Ecma.ParseIntDecimalRoundTrip | main.ts:64 | parseInt reads back every decimal numeral, bare, after `+`, and after `-` as its negation |
| Ecma.ParseIntLeadingZero | main.ts:64 | a zero in front of the digits does not change the parsed value |
| Ecma.ParseIntExamplePlain | main.ts:64 | "3" parses to 3 |
| Ecma.ParseIntExampleFraction | main.ts:64 | "3.9" parses to 3 |
| Ecma.ParseIntExampleBlank | main.ts:64 | " 3" parses to 3 |
| Ecma.ParseIntExampleTrailing | main.ts:64 | "3abc" parses to 3 |
| Ecma.ParseIntExampleLeadingZero | main.ts:64 | "03" parses to 3 |
| Ecma.ParseIntExampleZero | main.ts:64 | "0" parses to 0, outside the table |
| Ecma.ParseIntExampleNine | main.ts:64 | "9" parses to 9, outside the table |
| Ecma.ParseIntExampleMinus | main.ts:64 | "-3" parses to -3, outside the table |
| Ecma.ParseIntExampleLetters | main.ts:64 | "abc" is NaN |
| Ecma.ParseIntExampleEmpty | main.ts:64 | the empty week string is NaN |
| CycleCheck.Glyphs | main.ts:69-76 | every progress bar has eight symbols, none of them a space |
| CycleCheck.GlyphsMarker | main.ts:69-76 | position i of week n's bar holds a marker exactly when i is n - 1 |
| CycleCheck.SwitchLine | main.ts:68-78 | the switch on the parsed week; its contract is stated by SwitchLineMatchesWeekLine (reference line or fallback on every value), SwitchLineActiveWeek and SwitchLineInvalid |
| CycleCheck.WeekLine | main.ts:69-76 | the reference line prefix + bar + sentence + label + "."; WeekLineMarker, WeekLinesDistinct and WeekLineNotFallback state its properties |
| CycleCheck.CycleLine | main.ts:64-78 | the line for the typed strings; its contract is stated by CycleLineMatchesWeekLine, CycleLineIsFallbackIff and CycleLineSameIffSameWeek |
| CycleCheck.SwitchLineEarlyWeek | main.ts:69-71 | the switch's lines for weeks 1..3 are the reference lines with the week's digit |
| CycleCheck.SwitchLineLateWeek | main.ts:72-74 | the switch's lines for weeks 4..6 are the reference lines with the week's digit |
| CycleCheck.SwitchLineActiveWeek | main.ts:69-74 | for each week 1..6 the switch gives that week's reference line |
| CycleCheck.SwitchLineInvalid | main.ts:77 | NaN and every integer outside 1..8 reach the default branch |
| CycleCheck.SwitchLineMatchesWeekLine | main.ts:68-78 | on every parsed value the switch gives the reference line of the week, or the fallback when the value is not in 1..8 |
| CycleCheck.CycleLineMatchesWeekLine | main.ts:64-78 | for all typed strings the line is the reference line of the parsed week around the trimmed label, or the fallback |
| CycleCheck.CycleLineActiveWeek | main.ts:69-74 | a week parsing to n in 1..6 gives "Cycle Check: " + bar + " We are in week " + the digit of n + " of Cycle " + trimmed label + "." |
| CycleCheck.CycleLineCooldownWeek | main.ts:75-76 | week 7 gives the first-week-of-cooldown sentence and week 8 the second, each around the trimmed label |
| CycleCheck.CycleLineInvalidWeek | main.ts:64-77 | when the week does not parse to a number in 1..8, the line is the fallback whatever the cycle is |
| CycleCheck.WeekLineMarker | main.ts:69-76 | symbol i of a week line's bar is a marker exactly when i is the week's position |
| CycleCheck.WeekLinesDistinct | main.ts:69-76 | for a fixed label the eight week lines are pairwise different |
| CycleCheck.WeekLineNotFallback | main.ts:69-77 | no week line equals the fallback |
| CycleCheck.CycleLineIsFallbackIff | main.ts:64-78 | the fallback is produced if and only if the week does not select a table entry |
| CycleCheck.CycleLineSameIffSameWeek | main.ts:64-76 | two valid week strings give the same line for a label if and only if they parse to the same week |
| CycleCheck.CycleLineDependsOnlyOnInputs | main.ts:62-78 | the line depends only on the parsed week and the trimmed label, with no other state read |
| CycleCheck.CycleLineVerbatimCycle | main.ts:65-76 | an unpadded cycle label appears in the line verbatim |
| CycleCheck.CycleLineBlankCycle | main.ts:65-76 | an empty or all-white-space label is not special-cased: the line reads as for "" and ends "... Cycle ." |
| CycleCheck.WeekNineExample | main.ts:64-77 | week "9" with cycle "x" gives the fallback |
| CycleCheck.Deliver | main.ts:80-89 | text is inserted if and only if a Markdown view is active; the text is the line followed by one line break; otherwise the message is the fixed notice |
| CycleCheck.RunCommand | main.ts:62-89 | the whole command; its contract is stated by NoViewGivesNotice and InsertedFallbackIff |
| CycleCheck.NoViewGivesNotice | main.ts:87-89 | without a Markdown view the command shows the fixed notice and inserts nothing, whatever was typed |
| CycleCheck.InsertedFallbackIff | main.ts:80-86 | with a Markdown view the editor receives the line plus a line break, and that text is the fallback plus a line break if and only if the week is invalid |

## Left out

- `MultiPromptModal` (main.ts:4-46) and `multiPromptUser` (main.ts:49-55) are left out. They are Obsidian form widgets, change callbacks and a promise bridge. The model takes the two strings the form returns as its inputs.
- The command registration through `addCommand` (main.ts:58-61) is a host framework call and is not modelled.
- `workspace.activeLeaf`, `instanceof MarkdownView`, `editor.replaceSelection` and `new Notice` (main.ts:80-89) are host calls. Whether a Markdown view is active is the boolean parameter `hasMarkdownView`. Inserting and notifying are the `Insert` and `Notice` outcomes. The editor's selection and cursor are not modelled.
- Each `?? ""` (main.ts:64-65) is not modelled. Dafny strings are never missing, and a week the user never typed is the empty string, as the form's initial value is.
- ParseInt10: the result is an unbounded integer, not a JavaScript Number. Three details are therefore not modelled: the loss of precision on digit strings longer than about 16 digits, the value -0 for "-0" (modelled as 0), and comparison against 1..8 in floating point. The switch only asks whether the value is one of 1..8. A huge digit string rounds to a value of at least 9 and `-0 === 0`, so that answer is the same.
- Strings are sequences of Unicode scalar values, not UTF-16 code units. Every character that trim and parseInt inspect lies in the Basic Multilingual Plane, so their results are the same. Line lengths counted in code units (each bar symbol except the check mark U+2705 takes two) are not modelled.
- Glyphs: the progress-bar symbols appear mis-encoded in main.ts:69-76. The model reads them as the UTF-8 bytes of the characters listed above, displayed in another code page. The check mark shows only its first byte there, so U+2705 for it is a reading of the context. No property depends on the exact code points, only on the length eight, the marker positions and the absence of spaces.


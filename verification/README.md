# Control plane, fair-share split and benchmark backend: a verified model

obleth admits requests to model servers by weighted fair share. This project
models the pure decisions its control plane makes around that (the launch form
and its deploy file, the job script, reasoning levels, access hours, reports,
the audit trail, the fair-share page), the apportionment of slots and shares the
gateway itself computes, and the concurrent benchmark backend. Each file is one
module, named after what it models.

| module | what it models |
|---|---|
| Spelling | the edit distance behind "Did you mean", and the suggestion |
| Json, CanonicalText, Reasoning | JSON printing and parsing, the canonical text that decides whether two values are equal, and the reasoning-level editor built on it |
| DeployFile | the launch form written as a deploy file, and the file read back |
| Tokens, Template, Rendering | template tokens replaced in one pass, the recipe script filled with inputs and cluster values, and what each token becomes |
| Directives, DirectiveLines, JobScript | `#SBATCH` lines read and stripped, and the script submitted with its guard and exports |
| AccessHours, ZonedTime | weekly hours as windows and as a grid, and wall-clock times in a zone |
| Calendar, DayRanges, Chart, ChartRows | days, report ranges, totals and the split chart, the last also in the rows' own fields |
| Audit, AuditCsv | bursts of audit events, and their CSV export |
| History, FairShares, FairShareRows | the retained fair-share history, and shares, lines and previews on the fair-share page |
| SlotCaps, SlotLevels, SlotChoices, KeyedCaps, SlotQuotas | whole slots split by largest remainder, which splits there are, and what they promise |
| PoolShares, Previews | each group's, tenant's and key's share of a pool, and the page's weight preview against it |
| Backend | the benchmark backend's faults, counters and slots under every interleaving |
| Text, Sorting, Wrappers | strings, stable sorting and optional values shared by the others |

Loops and objects that change state are methods and a class proved against a
specification function; what is promised about that function is proved as
lemmas. Where the code does not do what one would expect, the model keeps the
code, a lemma names an input, and another says exactly when it does:

- A tenant a whole slot short of its share in a full pool need not be seen as
  waiting below it, although the comment at control-plane/lib/fairshare.ts:17-25
  reads as if a borrower were always seen. It is seen for certain exactly when
  it has at most one other tenant beside it (`FairShares.SeenForCertain`, from
  `FairShares.SpreadExcessIsUnseen`), and always where shares are whole numbers
  (`FairShares.WholeSharesAreSeen`).
- A weight preview stays within the tenant's group, so under the weighted split
  it is not the share the gateway would give: the only tenant of its group is
  told that nothing moves (`Previews.AloneInGroupMoves`). It is right exactly
  where `Previews.PreviewIsGatewayShare` says.
- Largest-remainder apportionment can give an item raised to one slot a spare
  one too, so with four slots for weights 9, 13 and 18 the lightest gets two and
  the others one each (`SlotQuotas.LightestGetsMost`). `SlotQuotas.HeavierAndLighter`
  says from the slots and the weights when a lighter item is ahead, and
  `SlotQuotas.UpperQuota` when someone gets more than their quota rounded up.
- A number past the range, such as 1e400, is read as an infinity and prints as
  null. What is built from it does not read back (`Reasoning.BuildWellFormed`),
  and typed over a stored null it counts as nothing changed
  (`Reasoning.NullHidesOverflow`). Changes are missed exactly in that way
  (`Reasoning.DirtyMisses`, `Reasoning.TouchedMisses`).
- An action whose effort is not trimmed does not come back from its row
  (`Reasoning.LevelRoundTrip`).
- A shown tenant or model spelled like the legend's rest, `__rest`, stands in
  the legend twice when others are folded, and a stack over the legend then
  counts its part twice (`Chart.LegendAddsUp`, `Chart.ShownIsItsOwn`).
- A directive without a flag, one whose number is unusable, and a log file in no
  directory are neither applied nor warned of, and no other directive is
  (`Directives.EachDirectivesFate`).
- A range that ends on 9999-12-31 lists 400 days whatever its length
  (`DayRanges.EachDayListsRange`).
- The guard's `cd` can go elsewhere for a relative directory, by CDPATH, and
  takes a leading dash as the directory before or an option
  (`JobScript.GuardEnters`).
- A time in a year of other than four digits is shown as a text the form cannot
  read (`ZonedTime.FormTextReads`).
- A report of the benchmark backend loads its counters one by one, requests
  first, so it can show more streaming requests than requests
  (`Backend.ReportFallsShort`, `Backend.ReportCovers`).
- A token limit of 2^32 or more is cut to 32 bits before it is clamped
  (`Backend.LimitIsClamped`).
- A fault lookup depends on the map's reading order exactly when two matching
  keys disagree and nothing faults every model (`Backend.OrderNeverShows`).

Weekly hours that fit the grid always survive it (`AccessHours.FittingHoursSurvive`).
Only empty windows would not (`AccessHours.GridKeepsHours`,
`AccessHours.EmptyWindowOpensCell`), and those never get in: the form refuses
them at control-plane/app/actions.ts:274 and the admin API at
obleth/crates/obleth-admin/src/lib.rs:1774. A schedule that ends before it
starts is refused at lib.rs:1761-1767 there.

## Model

| member | source | states |
|---|---|---|
| Spelling.EditDistance | control-plane/lib/deploy-form.ts:177-189 | the one-row table, overwritten in place, ends with the recursive Levenshtein distance |
| Spelling.LevIsLeastEdits | control-plane/lib/deploy-form.ts:177-189 | that distance is the least number of single inserts, deletes and substitutions from one string to the other: some path has that length and none is shorter |
| Spelling.LevZero | control-plane/lib/deploy-form.ts:177-189 | it is zero exactly for equal strings |
| Spelling.LevSymmetric | control-plane/lib/deploy-form.ts:177-189 | it is the same both ways |
| Spelling.LevTriangle | control-plane/lib/deploy-form.ts:177-189 | a detour over a third string is never shorter |
| Spelling.Suggest | control-plane/lib/deploy-form.ts:171-175 | the suggestion is the first of the nearest options and is within reach; none means every option is out of reach |
| Text.LowerIs | control-plane/lib/deploy-form.ts:172-173 | lower case replaces each capital letter by its small one and nothing else |
| Json.ParseStringify | control-plane/lib/models-model.ts:700-735 | JSON printed on one line or indented by any white space parses back to the same value, for values of any depth |
| Json.ParseParsed | control-plane/lib/models-model.ts:729-735 | what parses has distinct keys at every depth and numbers as printed, or past the range |
| Json.ReadsBack | control-plane/lib/models-model.ts:729-735 | a parsed value printed reads back as itself exactly when no number in it is past the range; otherwise those numbers come back as null |
| Json.NumberIs | control-plane/lib/models-model.ts:729-735 | a number is exactly what section 6 of RFC 8259 spells: a sign, digits without a spare zero, a fraction, an exponent |
| Json.EscapedAs | control-plane/lib/models-model.ts:700-700 | how a character is printed: quotes, backslashes and control characters escaped, the rest as they are |
| Json.EscapeStandsFor | control-plane/lib/models-model.ts:729-735 | what each escape stands for, by section 7 of RFC 8259 |
| Json.ObjectPrints | control-plane/lib/models-model.ts:700-700 | an object prints on one line, or on lines with its field one gap further in |
| Json.MoreFieldsPrint | control-plane/lib/models-model.ts:700-700 | a further field follows a comma, on a line of its own when printed on lines |
| Json.MoreItemsPrint | control-plane/lib/models-model.ts:700-700 | and so does a further item |
| CanonicalText.CanonicalDecidesMeaning | control-plane/lib/models-model.ts:790-795 | two values with every number in range print the same canonical text exactly when they are equal as nested maps and lists |
| CanonicalText.CanonicalDecidesPrinted | control-plane/lib/models-model.ts:790-795 | two parsed values print the same canonical text exactly when they are equal once numbers past the range are null |
| CanonicalText.CanonicalMistakes | control-plane/lib/models-model.ts:790-795 | against a value in range the canonical text is right exactly unless the other holds a number past the range and differs in nothing but the nulls those print as |
| CanonicalText.CanonicalIsNormText | control-plane/lib/models-model.ts:790-795 | the canonical text is the plain text of the value with its keys sorted at every depth |
| CanonicalText.NormKeepsMeaning | control-plane/lib/models-model.ts:790-795 | sorting keys at every depth changes no value |
| Reasoning.LevelRoundTrip | control-plane/lib/models-model.ts:694-739 | a stored action turned into a row and back is itself exactly when its sent effort is trimmed and not blank |
| Reasoning.UnsetStartsAsItsName | control-plane/lib/models-model.ts:684-701 | a level with nothing stored starts as reasoning_effort under its own name, with the next level as its first other choice |
| Reasoning.StoredRowKeepsInputs | control-plane/lib/models-model.ts:694-710 | a stored action's row keeps the inputs its preset does not use at their first choice and its fields as JSON |
| Reasoning.PresetsBuild | control-plane/lib/models-model.ts:713-739 | what each preset builds, spelled out, and the only three ways a row does not build |
| Reasoning.BuildWellFormed | control-plane/lib/models-model.ts:713-739 | whatever is typed in a row, what it builds has distinct keys and numbers as printed or past the range; it is well-formed, and a send reads back as JSON, exactly when no typed number is past the range |
| Reasoning.MappedAccepted | control-plane/lib/models-model.ts:746-771 | a translated map is accepted exactly when the model is a chat model, every send is allowed, and every level sends or uses one that sends |
| Reasoning.OtherModesAccepted | control-plane/lib/models-model.ts:746-771 | in the other modes a map is accepted exactly when the mode suits the model's type, its sends are allowed and no level names itself |
| Reasoning.ProblemIsTrue | control-plane/lib/models-model.ts:746-771 | the problem reported is one the map has: its kind, its level and its figure |
| Reasoning.ReasoningFromDraft | control-plane/lib/models-model.ts:811-831 | the loop over the level rows saves what the specification saves, with the same first error |
| Reasoning.SavesTheDraft | control-plane/lib/models-model.ts:811-831 | a section that is saved has its own mode and default level, and each level is what its row builds when translating or touched and the stored one otherwise; it is saved exactly when every row it writes builds and the map is accepted |
| Reasoning.SavesOrRefuses | control-plane/lib/models-model.ts:817-830 | where the rows build, the save is that map or the reason it is refused |
| Reasoning.NamesTheFirstBadRow | control-plane/lib/models-model.ts:817-823 | a row that does not build stops the save with its own error, the first of them from none up to high |
| Reasoning.UntouchedSavesStored | control-plane/lib/models-model.ts:781-838 | an accepted map opened and saved untouched is written back as it was exactly when its efforts are trimmed (or it is not translated), and is then not dirty |
| Reasoning.UntouchedIsDirtyWhenResaved | control-plane/lib/models-model.ts:781-838 | an accepted section opened and left alone is dirty exactly when saving it would write another map |
| Reasoning.DirtyIsDifferent | control-plane/lib/models-model.ts:833-838 | a section that can be saved is dirty exactly when what it would save, as it prints, is a different map |
| Reasoning.DirtyMisses | control-plane/lib/models-model.ts:833-838 | so dirty tells whether it would save a different map exactly unless a number past the range prints as a null already stored |
| Reasoning.UnsavableIsDirtyWhenEdited | control-plane/lib/models-model.ts:833-838 | a section that cannot be saved is dirty exactly when anything in it was edited |
| Reasoning.TouchedIsDifferent | control-plane/lib/models-model.ts:812-816 | the rows count as touched exactly when one builds something that prints as something else |
| Reasoning.TouchedMisses | control-plane/lib/models-model.ts:812-816 | so touched tells whether a row builds something else exactly unless a number past the range is typed and every row prints as what is stored |
| Reasoning.NullHidesOverflow | control-plane/lib/models-model.ts:790-816 | with a null stored, typing 1e400 over it builds an infinity and counts as nothing touched |
| Reasoning.StoredMeaning | control-plane/lib/models-model.ts:797-801 | stored maps compare equal as JSON exactly when mode, default and each level's action are the same |
| Reasoning.SavedShape | control-plane/lib/models-model.ts:797-801 | a map is compared in the shape it is saved in: mode, default level where there is one, levels in order where there are any |
| Reasoning.LevelShape | control-plane/lib/models-model.ts:797-801 | each level in that shape holds what it sends or the name it uses |
| DeployFile.YamlToForm | control-plane/lib/deploy-form.ts:244-314 | reading entry by entry and line by line gives the specified form and problems in order, and no form when there is a problem |
| DeployFile.ALineDoes | control-plane/lib/deploy-form.ts:281-312 | one line of a block sets exactly its own leaf, removes a blank variable, or adds one problem: a key outside its section's list, a nested value, or no number where one is due; the lists and the numeric keys are spelled out |
| DeployFile.AnEntryDoes | control-plane/lib/deploy-form.ts:257-280 | an unknown key, a section that holds no keys and another recipe add one problem each, a blank section does nothing, and the name is taken |
| DeployFile.FileIsItsLines | control-plane/lib/deploy-form.ts:258-314 | a file does what its entries do in order, and a block what its lines do in order |
| DeployFile.LooksNumericIs | control-plane/lib/deploy-form.ts:203-203 | an input looks like a number when it is a decimal, or a minus sign and one |
| DeployFile.WrittenAs | control-plane/lib/deploy-form.ts:200-205 | a value is written as a number where one is due or an input looks like one, as a flag where an input is true or false, and else as it is |
| DeployFile.LinesWritten | control-plane/lib/deploy-form.ts:213-222 | a block's lines are of the leaves the form has, all of them or those that differ from the baseline, an absent leaf counting as blank |
| DeployFile.FileHolds | control-plane/lib/deploy-form.ts:213-229 | a file names the recipe and the name, then each section that has lines |
| DeployFile.ReadWritten | control-plane/lib/deploy-form.ts:200-205 | reading one written leaf sets it, drops it or reports it, case by case |
| DeployFile.FourBlocks | control-plane/lib/deploy-form.ts:213-229 | each block of a written file changes only its own written keys, and the file has a problem exactly when a written leaf has |
| DeployFile.DeployFileRoundTrip | control-plane/lib/deploy-form.ts:91-314 | a form written (changes only, or everything) and read onto its baseline is itself exactly when it survives: known keys, canonical numbers, no blank or dropped variable, the same recipe |
| Tokens.OneReading | control-plane/lib/recipe-inputs.ts:52-53 | a text has one left-to-right reading as plain text and tokens |
| Tokens.ReadingIsPieces | control-plane/lib/recipe-inputs.ts:52-53 | the pieces a left-to-right scan yields are a reading of the text, and the only one |
| Tokens.FoundAre | control-plane/lib/recipe-inputs.ts:79-79 | the tokens a text holds are those of its reading, in order |
| Text.TrimIs | control-plane/lib/recipe-inputs.ts:176-176 | trimming takes off white space and nothing else |
| Tokens.ReplaceFillsReading | control-plane/lib/recipe-inputs.ts:73-73 | a global replacement fills each token of that reading once and keeps the rest in order |
| Template.InputTokensFound | control-plane/lib/recipe-inputs.ts:53-53 | the matcher finds a text's input tokens and nothing else |
| Template.ClusterTokensFound | control-plane/lib/recipe-inputs.ts:52-52 | the matcher finds a text's cluster tokens and nothing else |
| Rendering.CharactersAre | control-plane/lib/recipe-inputs.ts:52-53 | the characters of names, cluster keys and what follows a key, spelled out |
| Rendering.InputTokenIs | control-plane/lib/recipe-inputs.ts:53-53 | braces around a name are the token of that name, wherever they stand |
| Rendering.ClusterTokenBecomes | control-plane/lib/recipe-inputs.ts:56-74 | each of cluster.cache, images, logs, setup and image.x takes its own field when that is not blank, setup blank or not, an image under the images folder unless it is a path or an address; otherwise the token stays and is missing |
| Template.RenderScript | control-plane/lib/recipe-inputs.ts:167-196 | the loop that fills the values renders what the specification renders, or fails with the same error |
| Template.RenderFillsOnce | control-plane/lib/recipe-inputs.ts:189-195 | the script is the body with its input tokens filled once, then that with its cluster tokens filled once, for any reading of each |
| Template.ResolvedNames | control-plane/lib/recipe-inputs.ts:174-186 | exactly the inputs that do not lack a required value have a text, and only strict mode fails, exactly when one lacks it |
| Template.ResolvedTexts | control-plane/lib/recipe-inputs.ts:174-186 | a name's text is that of the last input of that name that does not lack a value: empty, or its value rendered with the cluster's values filled in |
| Rendering.TypedIsUsed | control-plane/lib/recipe-inputs.ts:119-177 | a typed value that is not blank is used trimmed, whatever the default; a flag gives its addition exactly for true, on, 1 and yes |
| Rendering.DefaultIsUsed | control-plane/lib/recipe-inputs.ts:95-185 | with nothing typed an input takes its entry for the node count, else its default, else off for a flag; an optional one that still names a cluster default is empty; and when an input lacks a value |
| Template.BuiltinsFill | control-plane/lib/recipe-inputs.ts:187-188 | a builtin fills exactly the names no input supplies, the first non-blank one of the name, and changes no other |
| Template.StrictReturnsWhenComplete | control-plane/lib/recipe-inputs.ts:159-196 | strict rendering returns exactly when no required input lacks a value and no unset cluster token is left, and then returns what loose rendering does, which always returns |
| Template.DeclaredTokensFilled | control-plane/lib/recipe-inputs.ts:159-189 | each input token becomes the text of the input that supplies its name, else of the builtin of that name, and passes through exactly when there is neither |
| Rendering.DeclaredTokenText | control-plane/lib/recipe-inputs.ts:174-189 | a declared token becomes the text of the last input of its name that does not lack a value |
| Rendering.FirstLackingIsNamed | control-plane/lib/recipe-inputs.ts:178-180 | strict rendering stops at the first input that lacks its required value, and names it |
| Rendering.UnsetAreNamed | control-plane/lib/recipe-inputs.ts:76-83 | and else where cluster tokens are left without a value, and names exactly those |
| Directives.KeptExactly | control-plane/lib/sbatch-directives.ts:78-91 | stripping removes exactly the directive lines and keeps the others in order |
| Directives.StripTwice | control-plane/lib/sbatch-directives.ts:87-91 | a stripped script has no directive, so stripping again changes nothing |
| Directives.ParseSbatchDirectives | control-plane/lib/sbatch-directives.ts:129-189 | every setting holds the last value written for it, and every unknown or unreadable directive is warned of, in order |
| Directives.EachDirectivesFate | control-plane/lib/sbatch-directives.ts:132-185 | a directive is never both applied and warned of, and it is neither exactly when it has no flag, is a CPU or node count with no usable number, or is a log file in no directory |
| DirectiveLines.DirectiveIs | control-plane/lib/sbatch-directives.ts:77-78 | a directive is a line that starts with `#SBATCH`, after white space or not |
| DirectiveLines.CommentDropped | control-plane/lib/sbatch-directives.ts:65-69 | a comment, and the white space before it, is no part of a directive |
| DirectiveLines.EqualsForm | control-plane/lib/sbatch-directives.ts:40-47 | `--key=value` is that key with that value trimmed, whatever comment follows |
| DirectiveLines.WordsForm | control-plane/lib/sbatch-directives.ts:48-52 | `--key` and words is that key with the words |
| DirectiveLines.ShortForm | control-plane/lib/sbatch-directives.ts:48-56 | a short flag and words is its long name, each spelled out, with the words, or the flag itself when it has none |
| DirectiveLines.KeysSet | control-plane/lib/sbatch-directives.ts:129-189 | each key sets its own setting, as written |
| DirectiveLines.OthersWarn | control-plane/lib/sbatch-directives.ts:183-186 | every other key sets nothing and is warned of by its flag |
| DirectiveLines.LogFolder | control-plane/lib/sbatch-directives.ts:57-63 | a log file's folder is the log folder: the path before its last slashes, or the root |
| DirectiveLines.NoLogFolder | control-plane/lib/sbatch-directives.ts:57-63 | a log file in no folder sets nothing |
| Directives.StrippedSetsNothing | control-plane/lib/sbatch-directives.ts:87-189 | parsing a stripped script sets and warns of nothing |
| JobScript.ReadBack | control-plane/lib/sbatch-recipes.ts:387-396 | a quoted value reads back unchanged as one shell word, under sections 2.2.1 and 2.2.2 of the POSIX Shell Command Language |
| JobScript.ExportsReadBack | control-plane/lib/sbatch-recipes.ts:384-391 | the export lines read back as the variables' values, whatever quotes or line breaks they hold |
| JobScript.ExportedAre | control-plane/lib/sbatch-recipes.ts:383-385 | exactly the variables whose name is not blank are exported, in order |
| JobScript.GuardReadsBack | control-plane/lib/sbatch-recipes.ts:393-402 | the guard's operand reads back as exactly the declared directory |
| JobScript.GuardEnters | control-plane/lib/sbatch-recipes.ts:393-402 | wherever the shell stands, and whatever CDPATH holds, the guard tries the declared directory and no other exactly when it is absolute or starts with a dot component |
| JobScript.InsertPieces | control-plane/lib/sbatch-recipes.ts:388-401 | inserting a block after the shebang puts it between the first line and the rest |
| JobScript.ShebangIs | control-plane/lib/sbatch-recipes.ts:389-389 | a shebang is a first line that starts with `#!` |
| JobScript.Layout | control-plane/lib/sbatch-recipes.ts:441-453 | the submitted script is the shebang, the guard, the exports, then the other lines that are not directives, in order |
| AccessHours.WindowsToGrid | control-plane/lib/access-model.ts:137-146 | a cell is on exactly when some window of that day overlaps its half hour |
| AccessHours.GridToWindows | control-plane/lib/access-model.ts:149-163 | the windows are sorted, disjoint, do not touch, lie on half hours, and cover exactly the cells that are on |
| AccessHours.GridRoundTrip | control-plane/lib/access-model.ts:137-163 | a grid read as windows and drawn again is the same grid |
| AccessHours.WindowsRoundTrip | control-plane/lib/access-model.ts:137-163 | windows drawn and read back are the one tidy list of the cells they reach into |
| AccessHours.TidyUnique | control-plane/lib/access-model.ts:148-163 | two tidy lists of the same cells are equal |
| AccessHours.CellHoldsOpenMinute | control-plane/lib/access-model.ts:137-146 | for windows that are not empty a cell is on exactly when some minute in it is open: the least half-hour superset |
| AccessHours.StateMeans | control-plane/lib/access-model.ts:87-96 | which of always, open, closed, not yet and ended a tenant is, by its dates first and then its windows |
| AccessHours.EmptyWindowOpensCell | control-plane/lib/access-model.ts:142-142 | a cell is on without an open minute exactly when an empty window, which the form and the API refuse, stands inside it and only empty ones reach it |
| AccessHours.FittingMinute | control-plane/lib/access-model.ts:94-168 | when windows fit the grid a minute is open exactly when its cell is on |
| AccessHours.FittingHoursSurvive | control-plane/lib/access-model.ts:87-168 | hours that fit the grid, with windows as the form and the admin API take them, open and close at the same minutes after a round trip over it |
| AccessHours.GridKeepsHours | control-plane/lib/access-model.ts:87-168 | with empty windows too, the hours stay the same exactly unless the windows are all empty while their dates ever let them open |
| ZonedTime.ZonedToUtc | control-plane/lib/access-model.ts:48-63 | the two corrections end at the reading less the offset seen at the first correction |
| ZonedTime.ReadingIs | control-plane/lib/access-model.ts:48-53 | a clock reading counts its minutes from 1970-01-01, whole days by the calendar |
| ZonedTime.TwoCorrectionsEnough | control-plane/lib/access-model.ts:54-63 | with one change of offset nearby, the result shows the requested reading exactly when some instant does |
| ZonedTime.MissesExactlyTheGap | control-plane/lib/access-model.ts:54-63 | it misses exactly the readings a forward change skips |
| ZonedTime.FormTimeRoundTrip | control-plane/lib/access-model.ts:48-73 | a time set on the form shows there again exactly when it is not in the skipped gap, for changes of a minute or more; its text does so only in the years 1000 to 9999 |
| ZonedTime.FormTextReads | control-plane/lib/access-model.ts:49-73 | the form's text reads back as the time it shows exactly in the years 1000 to 9999, and otherwise not at all |
| ZonedTime.WallShownForAMinute | control-plane/lib/access-model.ts:65-73 | the zone's clock shows a date, hour and minute exactly during that minute |
| Calendar.NextCountsOne | control-plane/lib/reports-model.ts:38-42 | stepping a day over month and year ends is always the next valid date, one more in the day count |
| Calendar.MonthsAre | control-plane/lib/reports-model.ts:38-42 | the days of each month, February by the Gregorian rule |
| Calendar.CountKeepsOrder | control-plane/lib/reports-model.ts:33-42 | day counts order dates as the calendar does and tell all dates apart |
| Calendar.IsoOrderIsDayOrder | control-plane/lib/reports-model.ts:28-31 | in the years 1000 to 9999 the order of the printed days as strings is the order of the days |
| DayRanges.EachDay | control-plane/lib/reports-model.ts:85-89 | the loop comparing strings lists the stated number of days, consecutive from the start |
| DayRanges.EachDayListsRange | control-plane/lib/reports-model.ts:84-89 | those are exactly the range's days exactly when there are at most 400 and the range does not end on the last day of 9999 (unless it has just 400) |
| DayRanges.DaysBetweenExact | control-plane/lib/reports-model.ts:44-46 | the rounded difference counts the days exactly when the zone offset moved by less than half a day between the ends |
| DayRanges.BeforeRangeAdjoins | control-plane/lib/reports-model.ts:74-75 | the period before ends the day before and has as many days as were counted, which is as many as the range exactly while the zone offset moves by less than half a day |
| DayRanges.BeforeMonthAdjoins | control-plane/lib/reports-model.ts:65-73 | a month is compared with the month before: the whole of it, or up to the same day or its last |
| Chart.TotalsOf | control-plane/lib/reports-model.ts:114-138 | every figure is the sum over the rows, and both averages are the success-weighted means, 0 without a success |
| Chart.OneRowTotals | control-plane/lib/reports-model.ts:114-138 | the totals of one row are its own figures |
| Chart.TotalsAdd | control-plane/lib/reports-model.ts:114-138 | totals of two lists together are the sums, and the joint mean times its successes is the sum of each part's |
| Chart.MeanWithin | control-plane/lib/reports-model.ts:110-111 | an average lies between the least and greatest of the rows it averages |
| Chart.MeasureOf | control-plane/lib/reports-model.ts:165-168 | a measure of rows is its sum, or the mean for first token |
| Chart.OneRowMeasures | control-plane/lib/reports-model.ts:165-168 | a measure of one row is its requests, tokens, spend or time to first token |
| Chart.SeriesTotals | control-plane/lib/reports-model.ts:206-215 | one entry per key in order of first appearance, with its first row's label and its rows' sum |
| Chart.Parts | control-plane/lib/reports-model.ts:228-233 | a day's parts hold exactly the series with rows that day, each the sum of its rows |
| Chart.BuildChart | control-plane/lib/reports-model.ts:192-247 | one entry per listed day of the range, in order, with its measure, its counterpart in the previous period by position and its parts; series and parts only when split by something other than first token |
| ChartRows.ChartIs | control-plane/lib/reports-model.ts:192-247 | the chart shows the days from the first of the range on, is split only by tenant or model and never by first token, and compares by position |
| ChartRows.DayValue | control-plane/lib/reports-model.ts:226-240 | a day's figure sums the rows of that day |
| ChartRows.DayBefore | control-plane/lib/reports-model.ts:236-241 | a day is compared with the last row of the day at its place in the period before, with zero where that day has none, and with nothing past that period |
| ChartRows.ShownPart | control-plane/lib/reports-model.ts:208-233 | a shown tenant's part sums the rows of that day with that tenant, a shown model's those with that model |
| ChartRows.RestPart | control-plane/lib/reports-model.ts:230-233 | the rest sums the rows of that day whose tenant, or model, is not shown |
| ChartRows.LegendIs | control-plane/lib/reports-model.ts:208-223 | the legend names the four tenants, or models, of the largest sums, largest first, labelled by their first row and toned by place, and counts the others under the rest |
| Text.DecimalIs | control-plane/lib/reports-model.ts:219-219 | a number is printed in decimal digits without a leading zero, and they stand for it |
| ChartRows.OthersAreNoLarger | control-plane/lib/reports-model.ts:216-221 | a tenant or model left out sums no more than any shown |
| Chart.PartsAddUp | control-plane/lib/reports-model.ts:226-234 | over any distinct ids that cover a day's parts, the stacked parts sum to the measure of that day's split rows |
| Chart.LegendAddsUp | control-plane/lib/reports-model.ts:216-234 | over the legend's own ids they do exactly unless a shown key is spelled like the rest while others are folded and its part is not zero |
| Chart.EqualEntriesKeepOrder | control-plane/lib/reports-model.ts:216-216 | keys of equal totals are ranked in order of first appearance |
| Chart.PartsAreSeries | control-plane/lib/reports-model.ts:216-234 | every part belongs to a listed series |
| Chart.FoldedAreNoLarger | control-plane/lib/reports-model.ts:216-221 | a key is folded into the rest only when four keys are shown, none smaller |
| Chart.SeriesAddsUp | control-plane/lib/reports-model.ts:208-234 | when the days cover the rows, a series' parts over the days sum to the total it is ranked by |
| Chart.ShownIsItsOwn | control-plane/lib/reports-model.ts:230-231 | a shown series sums its own key's rows exactly when the key is not spelled like the rest or nothing is folded |
| Audit.GroupBursts | control-plane/lib/audit-model.ts:194-206 | the groups flatten to the entries; each has one actor, action and type with neighbours within a minute, and no two adjacent groups could be one |
| Audit.GroupsMean | control-plane/lib/audit-model.ts:190-206 | within a group neighbours share actor, action and type and are at most a minute apart; where a group ends the next event is not so |
| Audit.GreedyUnique | control-plane/lib/audit-model.ts:190-206 | no other grouping of the entries is like that |
| Audit.OlderEntriesExtend | control-plane/lib/audit-model.ts:190-206 | appending older entries leaves every group but the last as it was, and the last only grows |
| AuditCsv.CsvRoundTrip | control-plane/lib/audit-model.ts:363-367 | a reader after section 2 of RFC 4180, with LF line ends, recovers the header and every field of every row, whatever the text |
| AuditCsv.ColumnsAre | control-plane/lib/audit-model.ts:363-367 | the row read for an event holds its own nine fields in the order of the header |
| AuditCsv.KindsAre | control-plane/lib/audit-model.ts:363-367 | the kind column names each type's kind |
| AuditCsv.ReadEscapedField | control-plane/lib/audit-model.ts:364-364 | an escaped field reads back as itself wherever a field may end |
| History.AppendKeepsOrder | control-plane/lib/fairshare-model.ts:172-186 | an append keeps times strictly increasing, and one that adds ends with the newest point and keeps all within retention of it |
| History.AppendIsExactly | control-plane/lib/fairshare-model.ts:172-186 | an append that adds leaves exactly the points, old or newer, that are within retention of the newest; one that adds none changes nothing |
| History.TwoPolls | control-plane/lib/fairshare-model.ts:172-186 | polling a stretch and then an overlapping one is polling once to the further end |
| History.RunIsOnePoll | control-plane/lib/fairshare-model.ts:172-186 | over any run of polls without gaps the history is that of one poll of the whole stretch, however it was cut or repeated |
| History.ThinHistory | control-plane/lib/fairshare-model.ts:143-156 | thinning keeps a subsequence of at most `max` rows, evenly spaced, ending with the last |
| History.StepIsLeast | control-plane/lib/fairshare-model.ts:147-149 | the spacing is the least that takes at most `max` rows |
| FairShares.OthersBorrow | control-plane/lib/fairshare.ts:12-32 | with slots in use at least the sum of shares and one tenant a whole slot short, the others hold at least one slot too many together |
| FairShares.OneOtherIsSeen | control-plane/lib/fairshare.ts:26-32 | with at most one other tenant, a queued tenant that is short is seen waiting below its share |
| FairShares.SpreadExcessIsUnseen | control-plane/lib/fairshare.ts:17-32 | for every number of others from two up there is a full pool in which a short tenant is not seen |
| FairShares.SeenForCertain | control-plane/lib/fairshare.ts:12-32 | so a short tenant of a full pool is seen whatever the shares exactly when it has at most one other tenant |
| FairShares.WholeSharesAreSeen | control-plane/lib/fairshare.ts:12-32 | where every share is a whole number, a short tenant of a full pool is always seen |
| FairShareRows.BelowShareMeans | control-plane/lib/fairshare.ts:13-32 | a tenant is waiting below its share exactly with something queued, a whole slot missing, and another tenant of the pool a whole slot above its own |
| FairShares.RowLeqOrder | control-plane/lib/fairshare-model.ts:296-301 | the row comparator is total and transitive, even where two absent places compare as NaN |
| FairShares.RowLeqMeans | control-plane/lib/fairshare-model.ts:292-301 | it orders by standing, then place with absent last, then most in flight, then name |
| FairShares.LineIsSorted | control-plane/lib/fairshare-model.ts:282-285 | the line holds exactly the waiting tenants, once each, least served first and longer queues first between equals |
| FairShares.LineKeepsOrder | control-plane/lib/fairshare-model.ts:284-284 | tenants that rank equal stand in line in the order they came |
| FairShares.RowsAreOrdered | control-plane/lib/fairshare-model.ts:287-302 | the rows are a sorted permutation of the active tenants, the places are exactly 1 to k over the waiting ones in line order, and rows next in line come first, none of them a whole slot above its share |
| FairShareRows.StandingMeans | control-plane/lib/fairshare-model.ts:287-292 | a row's standing, in order of rank: next, in line, above, within |
| FairShareRows.AboveMeans | control-plane/lib/fairshare-model.ts:295-295 | the slots shown above a share are the whole ones held above it |
| FairShareRows.RowsAreOfActive | control-plane/lib/fairshare-model.ts:293-294 | the rows are of exactly the tenants with a request running or waiting |
| FairShares.PreviewTenantWeight | control-plane/lib/fairshare-model.ts:333-347 | one preview for every pool the tenant is active in, the most moved first and equal moves by model name |
| FairShareRows.PeersMean | control-plane/lib/fairshare-model.ts:337-338 | the peers are the other tenants of the group with a request running or waiting |
| FairShareRows.PreviewMeans | control-plane/lib/fairshare-model.ts:333-345 | a preview starts from the tenant's own figure, out of the pool's configured slots where there are any; an idle tenant has none |
| FairShareRows.NoPreview | control-plane/lib/fairshare-model.ts:335-336 | a pool without the tenant previews nothing |
| FairShareRows.MovedMeans | control-plane/lib/fairshare-model.ts:346-346 | previews are ordered by the distance moved |
| FairShares.SameWeightSameShare | control-plane/lib/fairshare-model.ts:341-344 | previewing the current weight changes nothing |
| FairShares.HeavierNeverLess | control-plane/lib/fairshare-model.ts:341-344 | a heavier weight never previews fewer slots |
| FairShares.PreviewConserves | control-plane/lib/fairshare-model.ts:324-344 | when the group's slots are split by weight, a preview is that split at the new weight, and with the peers' parts it gives out exactly those slots |
| Previews.PreviewIsGatewayShare | control-plane/lib/fairshare-model.ts:324-344 | when a tenant's figure is the gateway's share of the slots, its preview is the gateway's share recomputed at the new weight exactly under the hierarchical split, without slots, without a change, or while every active tenant is in its group; otherwise a raised weight is previewed too little and a lowered one too much |
| Previews.HierarchicalPreview | control-plane/lib/fairshare-model.ts:324-344 | under the hierarchical split it always is |
| Previews.AloneInGroupMoves | control-plane/lib/fairshare-model.ts:341-344 | under the weighted split a group's only tenant is previewed no move at twice its weight, while its share goes from one half to two thirds |
| FairShares.GroupSharesFillPool | control-plane/lib/fairshare-model.ts:357-366 | group shares add to the whole pool, unless nothing counted has weight |
| FairShareRows.GroupSharesMean | control-plane/lib/fairshare-model.ts:357-366 | while some group is active only active groups have a share, and counted groups' shares stand as their weights |
| FairShareRows.GroupsWithWeightShare | control-plane/lib/fairshare-model.ts:357-366 | every active group with weight has a share, or every group with weight while none is active, and the shares add to the whole pool |
| FairShares.ReplicaShareIsLeast | control-plane/lib/fairshare-model.ts:38-41 | the replicas' parts cover the limit, and no smaller part of at least one would; no replica counts as one |
| SlotCaps.Split | obleth/crates/obleth-fairshare/src/algorithm.rs:123-203 | the caps end as specified: everything given out, spare slots by largest remainder with ties left open, overdrafts paid back by the largest |
| SlotQuotas.QuotaIs | obleth/crates/obleth-fairshare/src/algorithm.rs:123-148 | an item's quota is `max` times its weight over the total weight, a weight below 1 counting as 1: whole slots and a remainder |
| SlotQuotas.TotalIs | obleth/crates/obleth-fairshare/src/algorithm.rs:133-140 | the total adds every weight, those below 1 as 1 |
| KeyedCaps.WeightedCaps | obleth/crates/obleth-fairshare/src/algorithm.rs:127-203 | the caps by key, none for no slots or no items |
| SlotCaps.PayBack | obleth/crates/obleth-fairshare/src/algorithm.rs:160-180 | paying back ends at `max` with nobody at zero; nobody is left more than one above someone who paid, and one above only with as large a remainder |
| SlotLevels.PaidToLevel | obleth/crates/obleth-fairshare/src/algorithm.rs:160-180 | paying back cuts everyone down to the lowest level that still uses `max` slots, or to one below it; who is under the level keeps all |
| SlotLevels.LastByRemainder | obleth/crates/obleth-fairshare/src/algorithm.rs:164-172 | of those who reach the level the smallest remainders end one below: certain with no more remainders up to one's own than slots still due, possible only with fewer below |
| SlotChoices.SomeSplit | obleth/crates/obleth-fairshare/src/algorithm.rs:123-203 | for any way of breaking ties between equal remainders there is a split that breaks them so |
| SlotCaps.HandOut | obleth/crates/obleth-fairshare/src/algorithm.rs:181-197 | each spare slot goes to a different item, and whoever takes one has at least the remainder of everyone who does not |
| SlotQuotas.NobodyStarves | obleth/crates/obleth-fairshare/src/algorithm.rs:123-203 | the caps sum to `max`, and everyone has at least one while there are enough |
| SlotQuotas.LowerQuota | obleth/crates/obleth-fairshare/src/algorithm.rs:141-180 | nobody gets less than their whole quota exactly when the raises to one are not overdrawn |
| SlotQuotas.UpperQuota | obleth/crates/obleth-fairshare/src/algorithm.rs:141-197 | by the slots and the weights alone: every split keeps everyone within their quota rounded up exactly when as many remainders as spare slots are above each raised item's, and some split does exactly when as many items that were not raised have remainders from there up |
| SlotQuotas.SpareByRemainder | obleth/crates/obleth-fairshare/src/algorithm.rs:181-197 | whoever takes a spare slot has fewer items of larger remainder than there are spare slots; and when no raises are overdrawn, whoever has so few of at least its remainder takes one |
| SlotQuotas.SpareGoesTo | obleth/crates/obleth-fairshare/src/algorithm.rs:181-197 | some split gives an item a spare slot exactly when fewer remainders are above its own than there are spare slots, and every split exactly when no more are from its own up |
| SlotQuotas.HeavierAndLighter | obleth/crates/obleth-fairshare/src/algorithm.rs:141-197 | a lighter item never gets more than one slot above a heavier one; by the slots and the weights alone, exactly when some split puts it ahead, and exactly when every split does: by the counts of remainders against the spare slots, or against the slots due at the level when the raises are overdrawn |
| SlotQuotas.NoTiesDecide | obleth/crates/obleth-fairshare/src/algorithm.rs:141-197 | where no two remainders are equal the two conditions are one, so every split agrees |
| SlotQuotas.HeavierNeverLess | obleth/crates/obleth-fairshare/src/algorithm.rs:141-197 | when nothing was raised, a heavier item never gets less than a lighter one |
| SlotQuotas.LightestGetsMost | obleth/crates/obleth-fairshare/src/algorithm.rs:150-197 | with raises it can: weights 9, 13, 18 and four slots give 2, 1, 1 |
| PoolShares.Split | obleth/crates/obleth-fairshare/src/algorithm.rs:64-116 | exactly the active groups, tenants and keys have a share, each by its weight in what it splits |
| PoolShares.GroupsInProportion | obleth/crates/obleth-fairshare/src/algorithm.rs:64-88 | two active groups' shares stand as their configured weights; a group without one counts as 100, a weight below 1 as 1 |
| PoolShares.TenantsInProportion | obleth/crates/obleth-fairshare/src/algorithm.rs:90-100 | two active tenants' shares stand as their own weights, within a group or, weighted, in the whole pool |
| PoolShares.KeysInProportion | obleth/crates/obleth-fairshare/src/algorithm.rs:102-115 | a tenant's active keys' shares stand as their own weights |
| PoolShares.IdleTenantsKeys | obleth/crates/obleth-fairshare/src/algorithm.rs:106-115 | an active key of a tenant that is not active has no share |
| PoolShares.GroupsFillPool | obleth/crates/obleth-fairshare/src/algorithm.rs:64-88 | while anyone is active the groups' shares add to the whole pool |
| PoolShares.MembersFillGroup | obleth/crates/obleth-fairshare/src/algorithm.rs:90-100 | hierarchical: a group's active tenants share exactly the group's share |
| PoolShares.TenantsFillPool | obleth/crates/obleth-fairshare/src/algorithm.rs:90-100 | under either algorithm the active tenants' shares add to the whole pool |
| PoolShares.KeysFillTenant | obleth/crates/obleth-fairshare/src/algorithm.rs:102-115 | a tenant's active keys share exactly the tenant's share |
| Backend.MapIsLastWord | benchmark-backend/src/main.rs:83-104 | after any run of commands the map holds exactly each key's last word, never a recovery |
| Backend.ModesAre | benchmark-backend/src/main.rs:70-80 | the words of a control command: ok and recover clear, fail, stall and slow set |
| Backend.FaultForModel | benchmark-backend/src/main.rs:106-122 | a lookup answers a fault some reading order of the map may answer, and none exactly when no key matches |
| Backend.AnswersMean | benchmark-backend/src/main.rs:106-122 | a lookup answers the fault of `*` first, then that of a key that hits, and else none |
| Backend.HitsMeans | benchmark-backend/src/main.rs:114-120 | a key hits a model whose name holds it somewhere, whatever the case; `*` is no name |
| Backend.OrderNeverShows | benchmark-backend/src/main.rs:106-122 | the reading order never shows exactly when every model is faulted or the matching keys agree |
| Backend.StepAccounted | benchmark-backend/src/main.rs:254-353 | every atomic step of a request and every command keeps the counters and slots equal to what the requests have raised and hold |
| Backend.AlwaysAccounted | benchmark-backend/src/main.rs:254-353 | so they are in every interleaving |
| Backend.SlotsConserved | benchmark-backend/src/main.rs:294-338 | free and held slots always make up the slot count |
| Backend.RequestsCoverKinds | benchmark-backend/src/main.rs:270-325 | at any one moment requests are never below streaming and non-streaming together, and equal them exactly when no request is between the two counters |
| Backend.ReportCovers | benchmark-backend/src/main.rs:219-229 | of a report whose counters are read at moments of a run: its requests cover its kinds exactly when the kinds rose by no more since the requests were read than there were requests between the two counters; always when the requests are read last |
| Backend.ReportFallsShort | benchmark-backend/src/main.rs:219-229 | a streaming request that arrives between the loads is reported as streaming and not as a request |
| Backend.SlotTakenOnce | benchmark-backend/src/main.rs:285-338 | a request takes a slot at most once, and never when the injected failure answered it |
| Backend.FaultsAreCommands | benchmark-backend/src/main.rs:234-326 | only commands change the fault map |
| Backend.FaultWasMet | benchmark-backend/src/main.rs:285-327 | the fault a request met could be answered at some moment of the run |
| Backend.FailureWasCommanded | benchmark-backend/src/main.rs:90-292 | every failed answer goes back to a fail command in force at some moment, whose key hits the model |
| Backend.StepsAre | benchmark-backend/src/main.rs:254-353 | which step a request may take next: count while counters are left, look, take a slot when one is free, answer or go |
| Backend.NothingIsStuck | benchmark-backend/src/main.rs:254-353 | no run gets stuck: with any slots at all, while a request is not over some request can go on without anyone going away |
| Backend.NothingLeaks | benchmark-backend/src/main.rs:254-353 | once every request is over every slot is free and every request was counted |
| Backend.CountersAreRequests | benchmark-backend/src/main.rs:270-325 | once every request is over the counters are the requests of each kind and their tokens |
| Backend.Backend.Command | benchmark-backend/src/main.rs:232-252 | a known mode applies to the named model, or to every model; an unknown one is refused and changes nothing |
| Backend.Backend.Accept | benchmark-backend/src/main.rs:254-259 | a new request has raised no counter and holds no slot |
| Backend.Backend.CountOne | benchmark-backend/src/main.rs:272-325 | a request raises its next counter and nothing else |
| Backend.Backend.Look | benchmark-backend/src/main.rs:285-292 | a request meets a fault the map may answer; a failure ends it without a slot |
| Backend.Backend.Take | benchmark-backend/src/main.rs:294-295 | a waiting request takes a free slot |
| Backend.Backend.Answer | benchmark-backend/src/main.rs:338-386 | an answered request gives its slot back |
| Backend.Backend.Abandon | benchmark-backend/src/main.rs:295-416 | an abandoned request gives back a slot it held |
| Backend.LimitIsClamped | benchmark-backend/src/main.rs:261-268 | the token limit is the asked one clamped exactly when it is below 2^32 or its low 32 bits reach the clamp |
| Backend.LimitIs | benchmark-backend/src/main.rs:261-268 | the limit is `max_tokens` where given, else `max_completion_tokens`, else the default, cut to 32 bits and clamped to 1 to 4096 |
| Backend.StreamResponse | benchmark-backend/src/main.rs:406-457 | a stream sends the role, one chunk per output token, the usage with their sum and the end mark; a stalled one only the role |

## Left out

Kept outside as parameters or laws:

- How JavaScript prints and reads numbers: `show` and `finite` stand for it. `show` gives no text for a number past the range, which prints as null, and the only law on it is that a printed text is a number and prints as itself (`Json.LawAllowsOverflow` shows a printer that meets it); numbers in JSON are kept as printed.
- `localeCompare`: a rank per name. `Intl` zones: an offset per instant, in whole seconds.
- The YAML text: deploy files are modelled as the tree the parser gives, so line numbers, comments and syntax errors are not part of this model; nor are the messages' wording.
- Times of day, random ids, HTTP, streaming transport and delays of the benchmark backend; its latency profiles and token estimates are parameters.
- Floating point: shares, averages and spend are exact reals, and quotas exact fractions. Equal remainders take spare slots in any order, since rounding breaks such ties in the code.

Narrower than the code:

- Spelling.Suggest: lower-casing and white space are ASCII throughout, as in every module that trims or folds case.
- Json.ParseStringify: strings are sequences of characters; escaped surrogate pairs and the order of integer-like keys are not modelled.
- ZonedTime.ZonedToUtc: takes the reading already parsed; a date that does not exist, and years below 100, which the runtime reads as 1900 and later, are not modelled.
- ZonedTime.TwoCorrectionsEnough: the zone takes at most two offsets at the instants a reading could stand for; two changes within a day are not covered.
- DayRanges.EachDay: years 1000 to 9999; a zone that skips a whole local day is not modelled.
- Chart.TotalsAdd: rows count at least zero successes, as the rollup stores them.
- DeployFile.YamlToForm: the line numbers of problems and keys are not returned. A top-level key spelled like an inherited property, such as `constructor`, is taken as known by the code and can make it throw; the model reports it as no setting.
- DeployFile.DeployFileRoundTrip: text of a number is what the runtime prints for it; aliases and repeated keys of a YAML map are not modelled.
- SlotCaps.Split: the sum of the weights does not overflow.
- Previews.PreviewIsGatewayShare: weights of at least 1, as the panel (control-plane/components/fairshare/tenant-panel.tsx:65) and the store (obleth/crates/obleth-store/src/lib.rs:356 and 428) keep them.
- Chart.Parts: a model or tenant named like an inherited property, such as `constructor` or `__proto__`, is an ordinary key here; the code's plain object reads the inherited value. The same holds for `Chart.LegendAddsUp`, for the names looked up in the CSV export (AuditCsv) and for the values looked up by name in Template.
- PoolShares.Split: tenants and keys have distinct ids where their shares are stated.
- Backend.AlwaysAccounted: counters do not wrap at 2^64, and the order in which waiting requests get a slot is free; the real semaphore is first come, first served.

Not modelled, as it would add only easy or unrelated members: React components, network, database and cache code, wording and formatting helpers, `formProblems`, `familyGroups`, `changedFields`, the recipe front matter and header text, the log search, the overview series, the failure trend, wall times, the compressor, and the gateway's scheduler loop, budgets, router and telemetry.

# IPK planner: verified model of the GPA bookkeeping

The IPK planner is a single-page React application. Indonesian university
students use it to track their cumulative grade point average (IPK), their
per-semester averages (IPS) and a graduation target.

This project models the bookkeeping behind it in Dafny, one module per
source file:

- `Types`: the course row, the grading-scale entry and the default scale.
- `Dashboard`: the active grade map and the cumulative standing (total SKS, graded SKS, points and IPK).
- `GpaChart`: the per-semester history, the width of the semester axis and the projected segments.
- `App`: the course-list handlers.
- `GradeTable`: the table's sort order, weight cell, red flag, grade options and numeric cells.
- `GradingSettings`: the in-place scale editors and the scale state kept by the application.
- `FileUpload`: the MIME check, the import normalisation and the panel state.
- `TargetCalculator`: the result-panel decisions.

`Lists` holds the generic order-preserving filter the list handlers share.
The scale entry's `label` field is called `letter` here, because `label`
is a reserved word in Dafny.

SKS (credit units) and semesters are `int`. Grade values, points and IPS
are `real`. Code that the source writes as a loop over mutable
accumulators is a `method` with loop invariants, proved against a
specification function. For `CalculateStats`, `BuildGradeMap` and
`GroupBySemester` that function is recursive. For `ComputeHistory` it is
the sequence comprehension `History`. For `ProjectedSegments` it is the
closed-form count `Fitting`. The grading-scale objects that the settings handlers
mutate are a `class` held in arrays. The list handlers, the table
derivations and the result-panel logic build new values, so they are
functions.

## Model

| member | source | states |
|---|---|---|
| Types.DefaultScale | types.ts:17-28 | the default scale has ten entries, and entry 7 is `C-` at 1.5, disabled |
| Types.CountsTowardGpa | App.tsx:36 | the rule used when a grade is set: `-`, `BL` and the empty grade never count, and a counting grade is non-empty |
| Types.DefaultLettersDistinct | types.ts:17-28 | the ten default entries carry pairwise distinct letters |
| Types.DefaultValuesDecreasing | types.ts:17-28 | the default values lie in [0, 4] and strictly decrease from A = 4.0 to E = 0.0 |
| Types.DefaultEnabledEntries | types.ts:25 | only the `C-` entry (index 7) is disabled, and neither `-` nor `BL` is a default letter |
| Dashboard.BuildGradeMap | components/Dashboard.tsx:12-17 | the reduce over the scale yields the grade map `ActiveMap` of the enabled entries, later entries overwriting earlier ones |
| Dashboard.ActiveMapKeys | components/Dashboard.tsx:13-16 | a letter is a key of the grade map exactly when some enabled entry carries it |
| Dashboard.ActiveMapValue | components/Dashboard.tsx:13-16 | the value stored for a letter is that of its last enabled entry |
| Dashboard.DisablingRemovesLetter | components/Dashboard.tsx:14 | with distinct letters, disabling an entry removes exactly its letter from the map |
| Dashboard.CalculateStats | components/Dashboard.tsx:19-40 | total SKS, graded SKS and IPK equal the accumulation over the whole list; with no graded SKS the IPK is 0 and no division happens |
| Dashboard.AccumulateCourses | components/Dashboard.tsx:24-35 | after the loop, the three accumulators equal the specification `Accumulate` of the whole list |
| Dashboard.AddsToGpaIffGraded | components/Dashboard.tsx:24-35 | each course adds its SKS to the total; it adds points and graded SKS if and only if its flag is set and its grade resolves |
| Dashboard.TotalSksIgnoresGrades | components/Dashboard.tsx:34 | total SKS does not depend on the grade map |
| Dashboard.AccumulateOrderIndependent | components/Dashboard.tsx:24-35 | the three results are the same for any permutation of the course list |
| Dashboard.CompletedWithinTotal | components/Dashboard.tsx:26-34 | with non-negative SKS, 0 <= graded SKS <= total SKS |
| Dashboard.NothingGradedGivesZero | components/Dashboard.tsx:37 | when no course is graded, points and graded SKS are 0 and the IPK is 0 |
| Dashboard.PointsWithinBounds | components/Dashboard.tsx:29-31 | with non-negative SKS, the points lie between lo and hi times the graded SKS whenever every grade value a graded course resolves to lies in [lo, hi] |
| Dashboard.IpkWithinBounds | components/Dashboard.tsx:29-37 | the IPK is a weighted average: with non-negative SKS and some graded SKS, it lies between the lowest and the highest value the graded courses resolve to |
| Dashboard.IpkWithinMapBounds | components/Dashboard.tsx:29-37 | in particular it lies within the bounds of all values of the grade map |
| Dashboard.DefaultAbIpkAtLeastB | components/Dashboard.tsx:29-37 | under the default scale, a list graded only A and B has an IPK in [3.0, 4.0], although E = 0.0 is in the map |
| Dashboard.DefaultMapLookups | types.ts:17-28 | under the default scale `C-`, `-`, `BL` and the empty grade do not resolve, `A` resolves to 4.0, and every value is in [0, 4] |
| Dashboard.DisabledGradeOnlyInTotal | components/Dashboard.tsx:26-34 | a flagged course graded with the disabled default `C-` adds only to the total SKS |
| Dashboard.SingleCourseIpk | components/Dashboard.tsx:19-40 | one flagged 3-SKS course graded A = 4.0 gives 3 graded SKS and IPK 4 |
| GpaChart.MaxSemester | components/GpaChart.tsx:21-25 | `maxS` is never negative, and it is 0 for an empty list |
| GpaChart.History | components/GpaChart.tsx:41-47 | at least one point and at least `maxS` points, with point j carrying semester j + 1, so there are no gaps |
| GpaChart.MaxSemesterIsMax | components/GpaChart.tsx:21-25 | `maxS` bounds the semester of every course, graded or not, and is 0 or attained by some course |
| GpaChart.GroupBySemester | components/GpaChart.tsx:20-36 | after the `forEach`, `maxS` is the maximum semester and `semMap` holds exactly the graded points and SKS of each semester that received a graded course |
| GpaChart.ComputeHistory | components/GpaChart.tsx:14-48 | the data has max(maxS, 1) points, the i-th point is semester i + 1 with that semester's IPS, with no gaps; `maxSem` is the number of points |
| GpaChart.UngradedKeepsIps | components/GpaChart.tsx:26-29 | a course that is not flagged or whose grade does not resolve changes no semester's IPS |
| GpaChart.UngradedKeepsHistory | components/GpaChart.tsx:24-45 | such a course in a semester already on the axis leaves the whole history unchanged |
| GpaChart.NothingGradedInSemester | components/GpaChart.tsx:42-43 | a semester with no graded course has no graded SKS and IPS 0 |
| GpaChart.SemesterBelowOneIgnored | components/GpaChart.tsx:31-35 | appending a course with semester below 1 leaves the history unchanged |
| GpaChart.SemestersSumToTotal | components/GpaChart.tsx:31-35 | when every semester lies in 1..n, the semesters' graded SKS, points and SKS add up to Dashboard's totals |
| GpaChart.ChartCoversAllGraded | components/GpaChart.tsx:31-41 | with every semester at least 1, semesters 1..maxS account for all of Dashboard's graded SKS and points |
| GpaChart.TotalSemestersToShow | components/GpaChart.tsx:58-59 | the axis is max(8, maxSem + 2) wide with a projection and max(8, maxSem) without |
| GpaChart.ProjectedSegments | components/GpaChart.tsx:73-88 | the loop draws to positions len, len + 1, ... below the axis width, as many as fit up to 3, and nothing without a projection or history |
| GpaChart.ProjectionGeometry | components/GpaChart.tsx:83-87 | with a projection and a history of length len >= 1 there are 3 segments when len < 6 and 2 otherwise, and the projected dot at len is on the axis |
| App.Patch | App.tsx:33-37 | the updated field takes the new value and every other field is kept; a grade update re-derives the flag from the new grade, so the row is consistent |
| App.GradeUpdateDerivesFlag | App.tsx:35-37 | setting the grade sets the flag to "grade is none of `-`, `BL`, empty" |
| App.OtherUpdateKeepsFlag | App.tsx:33-37 | updating any other field keeps the flag and the grade |
| App.UpdateCourse | App.tsx:30-42 | length and order are kept, matching rows are patched and every other row is unchanged |
| App.UpdateUnknownId | App.tsx:31-40 | an id no row carries leaves the list unchanged |
| App.UpdatePreservesConsistency | App.tsx:35-37 | every update the table issues keeps each row's flag in agreement with its grade |
| App.LabelEditKeepsStanding | App.tsx:31-40 | editing an id, code or name leaves Dashboard's totals unchanged |
| App.DeleteCourse | App.tsx:44-46 | exactly the rows with another id survive, none with the deleted id |
| App.DeleteSplits | App.tsx:45 | deletion works row by row, so survivors keep their relative order |
| App.DeleteIdempotent | App.tsx:45 | deleting the same id again removes nothing more |
| App.DeletePreservesConsistency | App.tsx:45 | deletion keeps the flag invariant |
| App.AddCourse | App.tsx:48-61 | the old rows followed by one blank row: 3 SKS, grade `-`, flag off, the last row's semester or 1 |
| App.AddPreservesConsistency | App.tsx:49-59 | adding keeps the flag invariant |
| App.AddKeepsIpk | App.tsx:49-59 | a new row adds 3 to the total SKS and leaves graded SKS and IPK unchanged |
| App.DeleteUndoesAdd | App.tsx:45-59 | deleting a freshly added row by its fresh id gives back the original list |
| App.DataExtracted | App.tsx:63-68 | the imported rows come last, in their order; a previous row is kept exactly when its code or its name is non-empty |
| App.DataExtractedSplits | App.tsx:64-66 | previous rows are filtered one by one, so the survivors keep their relative order and multiplicity |
| App.DataExtractedKeepsFilledRows | App.tsx:64-66 | when no previous row is blank, the import is the previous list followed by the imported rows |
| App.DataExtractedPreservesConsistency | App.tsx:64-67 | merging consistent rows keeps the flag invariant |
| App.SeedCourses | App.tsx:15-26 | an empty list becomes one blank row with id `1`, grade `-`, flag off, semester 1 |
| App.ImportReplacesSeedRow | App.tsx:15-26 | importing right after mounting drops the seeded row and leaves exactly the imported rows |
| GradeTable.SortCourses | components/GradeTable.tsx:21-25 | the displayed rows are a permutation of the courses, adjacent rows ordered by semester and then by code |
| GradeTable.SortedSemestersAscend | components/GradeTable.tsx:22-23 | semesters never decrease anywhere down the sorted table |
| GradeTable.Point | components/GradeTable.tsx:71-74 | the weight cell exists iff the grade resolves and the flag is set, and then equals value times SKS |
| GradeTable.WeightsSumToPoints | components/GradeTable.tsx:71-74 | the weight cells add up to Dashboard's total points |
| GradeTable.SortedTableWeights | components/GradeTable.tsx:22-74 | the same holds for the table in its sorted order |
| GradeTable.RedFlag | components/GradeTable.tsx:115 | a red-flagged row never adds points, and `-` and `BL` are never flagged |
| GradeTable.RedFlagMarksUngradable | components/GradeTable.tsx:115 | for a consistent row with a non-empty grade, the red flag marks exactly the flagged rows whose grade does not resolve |
| GradeTable.DefaultScaleFlags | components/GradeTable.tsx:115 | under the default scale the empty grade and `C-` are flagged; `-`, `BL` and `A` are not |
| GradeTable.EnabledLetters | components/GradeTable.tsx:119-121 | the option letters are exactly the enabled entries' letters |
| GradeTable.EnabledLettersAppend | components/GradeTable.tsx:119-121 | the letters of two scale parts are those of the first part followed by those of the second, so `filter` keeps the scale order |
| GradeTable.EnabledLettersSingle | components/GradeTable.tsx:119-121 | a single entry contributes its letter exactly when it is enabled |
| GradeTable.GradeOptions | components/GradeTable.tsx:118-122 | `-` first, then the enabled letters in scale order, then `BL` |
| GradeTable.OptionsResolve | components/GradeTable.tsx:118-122 | a letter other than the sentinels is offered exactly when it resolves in the grade map |
| GradeTable.DefaultOptionsOmitDisabled | components/GradeTable.tsx:119 | the default scale does not offer `C-` |
| GradeTable.SemesterEdit | components/GradeTable.tsx:82 | a parse giving 0 or NaN stores 1; the stored semester is never 0 |
| GradeTable.SksEdit | components/GradeTable.tsx:106 | a parse giving NaN stores 0; any other parse is stored |
| GradingSettings.CopyScale | components/GradingSettings.tsx:15 | the copy is a fresh array holding the same object references |
| GradingSettings.HandleToggle | components/GradingSettings.tsx:20-24 | the returned array holds the same objects, and only the entry at the index has its flag flipped in place; the old array sees the change |
| GradingSettings.HandleValueChange | components/GradingSettings.tsx:14-18 | the same for the value, set to the parse or 0 |
| GradingSettings.ParsedValue | components/GradingSettings.tsx:16 | an unparsable value is stored as 0 |
| GradingSettings.ToggleTwice | components/GradingSettings.tsx:22 | toggling the same entry twice restores it |
| GradingSettings.ScaleState.Toggle | App.tsx:119-121 | the stored scale holds the same objects and the toggled one has changed |
| GradingSettings.ScaleState.Reset | App.tsx:122 | reset stores the default array itself |
| GradingSettings.ResetAfterToggle | App.tsx:12 | toggling `C-` and then resetting leaves `C-` enabled, so the default scale is not restored |
| GradingSettings.HandleToggleCopying | components/GradingSettings.tsx:20-24 | a toggle that replaces the entry with a fresh object changes exactly that entry of the result and no existing object |
| GradingSettings.CorrectedScaleState.Reset | App.tsx:122 | with copying toggles the default array keeps the default scale, and reset restores it |
| GradingSettings.CorrectedResetAfterToggle | App.tsx:12 | toggling `C-` and resetting gives the default scale back |
| FileUpload.IsImageType | components/FileUpload.tsx:19 | accepted exactly when the MIME type has the prefix `image/` |
| FileUpload.Normalise | components/FileUpload.tsx:35-43 | missing or empty fields get `UNK`, `Unknown Course`, 0, `-`, 1, and the flag comes from the raw grade |
| FileUpload.NormalisedRowShape | components/FileUpload.tsx:37-41 | an imported row never has an empty code, name or grade, and never semester 0 |
| FileUpload.NormalisedConsistency | components/FileUpload.tsx:40-42 | an imported row's flag agrees with its grade exactly when the raw record carried a grade; a missing grade gives `-` with the flag set |
| FileUpload.SentinelGradeExcluded | components/FileUpload.tsx:42 | a raw grade `-`, `BL` or empty gives the flag off |
| FileUpload.NormaliseAll | components/FileUpload.tsx:35-43 | one row per raw record, in the same order |
| FileUpload.NormaliseAllConsistent | components/FileUpload.tsx:35-43 | when every record has a grade, all imported rows are consistent |
| FileUpload.UploadPanel.HandleFileChange | components/FileUpload.tsx:14-27 | no file does nothing; a non-image only sets the type error; otherwise processing starts with the error cleared, or stops with the read error if reading fails |
| FileUpload.UploadPanel.OnLoadEnd | components/FileUpload.tsx:29-51 | after a failed read nothing changes and nothing is delivered; after a successful extraction the normalised rows are delivered; after a failed extraction only the recognition error is set; processing ends in the last two cases only |
| FileUpload.UploadPanel.OnLoadEndGuarded | components/FileUpload.tsx:29-56 | the same handler with the failed read reported by the read error: processing ends after every outcome |
| FileUpload.ReadFailureLeavesSpinner | components/FileUpload.tsx:24-51 | an image whose read fails leaves the panel processing, with no error shown |
| FileUpload.GuardedReadFailureEndsProcessing | components/FileUpload.tsx:24-56 | with the guarded handler the same failed read ends processing with the read error |
| FileUpload.RejectNonImage | components/FileUpload.tsx:19-22 | a non-image file never starts an extraction and leaves the type error |
| TargetCalculator.Decrement | components/TargetCalculator.tsx:79 | the stepper never goes below 0 and takes one off a positive count |
| TargetCalculator.StepperRoundTrip | components/TargetCalculator.tsx:79-84 | "-" undoes "+" on a non-negative count, and "-" at 0 stays 0 |
| TargetCalculator.Increment | components/TargetCalculator.tsx:84 | "+" adds one extended semester |
| TargetCalculator.RequiredSksInput | components/TargetCalculator.tsx:71 | an integer parse is stored as `max(0, v)`: kept when non-negative, 0 when negative; an unparsable input stays unparsable |
| TargetCalculator.HeadlineOf | components/TargetCalculator.tsx:110-114 | "IPS Target" iff a result exists with required IPS in [0, 4], showing that IPS; "Mustahil" otherwise |
| TargetCalculator.TercapaiUnreachable | components/TargetCalculator.tsx:111-113 | "Tercapai" is never shown; a required IPS of 0 shows "IPS Target" |
| TargetCalculator.GreenStyle | components/TargetCalculator.tsx:92-101 | a green box needs a feasible result; a missing result or a negative required IPS gives the amber box |
| TargetCalculator.HeaderGreen | components/TargetCalculator.tsx:104-106 | the header is green exactly for a feasible result, whatever its required IPS |
| TargetCalculator.GreenBoxHasGreenHeader | components/TargetCalculator.tsx:92-106 | a green box implies a green header; they differ exactly for a feasible result with negative required IPS |
| TargetCalculator.RemainingDisplay | components/TargetCalculator.tsx:120-122 | the line appears iff a result exists with remaining SKS > 0; the figure is `max(0, required - (remaining - 24 * extended))`: never negative, at least the expression, and equal to 0 or to it |

## Left out

- The required-IPS solver is not part of this model. The result panel only renders the `result` it is given, so `result` is an input.
- services/geminiService.ts is not part of this model. It is a network call to an OCR service. Its outcome is the `Extraction` parameter of `OnLoadEnd`.
- streamlit_app.py is not part of this model. It is deployment plumbing.
- FileReader and base64 handling are not modelled. Whether starting the reader throws is the `readerThrows` parameter.
- `crypto.randomUUID` is not modelled. Fresh ids are parameters.
- React hooks, re-render scheduling and memoisation are not modelled. Each handler is modelled as the next-state function it passes to `setCourses`, or as a method on the state.
- `parseInt` and `parseFloat` are given as `Option` values, with `None` standing for NaN. Other floating-point behaviour, `toFixed` formatting, the SVG scaling `getX`/`getY` and the path strings are not modelled. Values are exact reals.
- `localeCompare` is the parameter `codeLe`, any relation that compares every pair of codes one way or the other.
- GradeTable.SortCourses: the JavaScript engine's sort algorithm is not modelled. An insertion sort with the same comparator stands for it, specified by its postcondition (a sorted permutation). `Array.prototype.sort` is stable, so rows that tie on semester and code keep their list order, for example several blank rows added in one semester. The contract does not state the order of tied rows.
- Markup, CSS, icons, the info dialog and the slider are not modelled.
- TargetCalculator.RemainingDisplay: the required-SKS total is taken as an integer. The NaN that an unparsable input leaves behind is not carried into the figure.
- GradingSettings.HandleToggle: an index outside the array is excluded by its precondition. The source only passes indices of rendered entries.
- `FileUpload.tsx:42` computes `includedInGpa` from the raw grade, not from the defaulted one. A record without a grade therefore becomes grade `-` with the flag set. The model follows the code (`FileUpload.NormalisedConsistency`). For such a row the flag disagrees with the grade, but the row still counts only towards total SKS, because `-` never resolves.
- FileUpload.UploadPanel.OnLoadEnd: models the handler as written, so a failed read leaves `isProcessing` set. `OnLoadEndGuarded` is the variant in which every outcome ends processing (see Findings).
- Dashboard.ActiveMap: the source's grade map is a plain object, so a lookup such as `gradeMap["constructor"]` also finds an inherited member (Dashboard.tsx:28, GpaChart.tsx:28, GradeTable.tsx:71). An imported grade that names one would resolve to a function, turn points and IPK into NaN, count its SKS as graded and escape the red flag. A Dafny map holds only the scale's letters, so the model does not capture this.
- FileUpload.RawCourse: the extraction schema declares `sks` and `semester` as numbers (services/geminiService.ts:48 and :50), so imported values may be fractional. The model takes them as integers. With a fractional semester, a graded course counts in the IPK, but the chart loop (GpaChart.tsx:41-42) never reads its semester. GpaChart.ChartCoversAllGraded therefore holds only for integer semesters.
- App.tsx:145 renders the target panel with only `courses` and `gradingScale`, not the props declared at TargetCalculator.tsx:4-12. As wired, `targetGPA` is undefined, `targetGPA.toFixed(2)` (TargetCalculator.tsx:45) throws during render, and `result` is never supplied. The TargetCalculator members model the panel as declared, for a caller that passes its props.
- App.tsx neither imports nor renders GpaChart (App.tsx:2-7 and :119-145), and `projectedIPS` is never supplied. The GpaChart members model the component as written, for a caller that renders it. The history, axis width and projected segments never appear in the app as wired.
- When there are no courses, the chart still shows one point, semester 1 with IPS 0, because the loop runs to max(maxS, 1) (`GpaChart.ComputeHistory`).

## Findings

| source | as written | input that shows it | evidently intended | confidence | as-written member | corrected member |
|---|---|---|---|---|---|---|
| components/GradingSettings.tsx:21-22 with App.tsx:12 and App.tsx:122 | the handlers copy the scale array, then write `enabled` and `value` into the shared entry objects; the state starts as the default array and reset hands that same array back | toggle `C-` (index 7) on, then press "Reset Default": `C-` stays enabled | reset restores the default scale | high, not executed | GradingSettings.ResetAfterToggle | GradingSettings.CorrectedResetAfterToggle |
| components/FileUpload.tsx:29-51 | `onloadend` splits `reader.result` before its inner `try`, and only that `try`'s `finally` clears `isProcessing` | an image whose read fails: `reader.result` is null, the split throws out of the handler, and the spinner (FileUpload.tsx:67) stays for good | a failed read ends processing with an error, as a reader that fails to start does (FileUpload.tsx:53-55) | medium, not executed | FileUpload.ReadFailureLeavesSpinner | FileUpload.GuardedReadFailureEndsProcessing |

# KWKM-Seminar survey analysis, modelled in Dafny

KWKM-Seminar analyses two LimeSurvey exports of one questionnaire about
large language models at work: one from a younger cohort and one from an
older cohort. It does the following:

- Normalises Likert answers to numbers.
- Averages item columns into construct scores: motivation regulations,
  usefulness, upskilling and reskilling.
- Estimates scale reliability (Cronbach's alpha).
- Builds a p-value matrix of pairwise Pearson tests.
- Reports descriptive statistics per cohort.
- Reports demographic summaries: age, gender, school education and
  vocational education.

The model treats a survey table as named columns of cells. A cell is
`Missing` (NaN), `Num(x)` or `Str(s)`. Rows are positional. Each source
file becomes one module:

| module | source file | form |
|---|---|---|
| `SurveyAnalysis` | src/survey_analysis.py | functions for the Likert rules; class `SurveyAnalyzer` for the configured analyser |
| `Correlation` | correlation.py (helpers, item lists, `corr_pvalues`) | functions; `corr_pvalues` is a method with nested loops over a 2-D array |
| `CorrelationScript` | correlation.py:146-164 | methods that add columns to a `DataFrame` one after another, proved against a pure `Constructs` run |
| `Group` | src/group.py | construct registry as constants; `group_data` is a method that coerces the caller's frame in place and builds the scales in a loop |
| `SurveyStatistics` | src/survey_statistics.py | functions |
| `SurveyStatisticsCsv` | survey_statistics.py | functions |
| `Descriptives` | src/descriptives.py | functions; `descriptives_by_group` and its `summarize` are methods with loops |
| `Cohorts` | main.py:40-63 | functions, and one method for the script body |

These shared modules are not tied to a single file:

- `Wrappers`: `Option`, `Result` and `Outcome`.
- `Text`: strip, lower-case and digit runs.
- `Stats`: sums, means, sample variance, median, truncation and histograms.
- `Frame`: the table, the pandas operations the scripts use, and the mutable `DataFrame` class.
- `Questionnaire`: item names such as `G05Q18[3]`.
- `Tally`: dictionaries of counts, `value_counts`, coalescing and code labels.

## Model

| member | source | states |
|---|---|---|
| SurveyAnalysis.WordScore | src/survey_analysis.py:55-63 | each of the seven phrases maps to its score 1..7, and exactly those phrases have a score |
| SurveyAnalysis.LikertText | src/survey_analysis.py:52-67 | a score, when there is one, is never negative |
| SurveyAnalysis.LikertCell | src/survey_analysis.py:51-68 | a missing cell has no score; text goes through the text rule; a number has a score iff it is non-negative, and the score is its whole part |
| SurveyAnalysis.LikertLeadingInteger | src/survey_analysis.py:52-67 | when the stripped text starts with a run of digits, the score is that integer, whatever follows |
| SurveyAnalysis.LikertPaddedInteger | src/survey_analysis.py:52-53 | surrounding blanks do not change the score of a number written in digits |
| SurveyAnalysis.LikertPhrase | src/survey_analysis.py:64-67 | text without leading digits scores as its lower-cased, stripped phrase in the word map |
| SurveyAnalysis.LikertNan | src/survey_analysis.py:52-68 | NaN, which becomes the text "nan", has no score |
| SurveyAnalysis.NanIsStripped | src/survey_analysis.py:52 | stripping leaves "nan" as it is |
| SurveyAnalysis.NanHasNoDigits | src/survey_analysis.py:53 | "nan" has no leading digits |
| SurveyAnalysis.NanIsLower | src/survey_analysis.py:64 | lower-casing leaves "nan" as it is |
| SurveyAnalysis.NanIsNoPhrase | src/survey_analysis.py:55-63 | "nan" is not one of the seven phrases |
| SurveyAnalysis.LikertRow | src/survey_analysis.py:75 | one score per item column of a row, each the cell's Likert score |
| SurveyAnalysis.LikertScale | src/survey_analysis.py:75 | one scale value per row |
| SurveyAnalysis.LikertScaleRow | src/survey_analysis.py:75 | a row's scale is the mean of its scored items; it is missing iff no item of the row has a score |
| SurveyAnalysis.LikertScaleBounds | src/survey_analysis.py:75 | a scale value lies within any bounds that hold for every scored item of its row |
| SurveyAnalysis.PrefixColumns | src/survey_analysis.py:71 | exactly the column names that start with the prefix |
| SurveyAnalysis.WithScale | src/survey_analysis.py:70-76 | an error naming the prefix iff no column matches; otherwise the table with the scale of exactly the matching columns under the new name and every other column unchanged |
| SurveyAnalysis.CopyAutonomous | src/survey_analysis.py:91 | `upskill_orientation` becomes a copy of `autonomous_use`; nothing else changes |
| SurveyAnalysis.SurveyAnalyzer.Default | src/survey_analysis.py:12-26 | the default group column `young_group` with cohort values 1 and 0 |
| SurveyAnalysis.SurveyAnalyzer.constructor | src/survey_analysis.py:12-26 | stores the given group column and cohort values |
| SurveyAnalysis.SurveyAnalyzer.ComputeScale | src/survey_analysis.py:70-76 | on the caller's frame: leaves it unchanged and reports the error when no column matches, otherwise replaces it by `WithScale` |
| SurveyAnalysis.SurveyAnalyzer.LoadTwoGroups | src/survey_analysis.py:81-84 | the stacked table has the rows of both cohorts and the union of their columns plus the group column |
| SurveyAnalysis.SurveyAnalyzer.YoungRowsFirst | src/survey_analysis.py:82-84 | the first rows are the young cohort's, tagged with its value, with their cells unchanged |
| SurveyAnalysis.SurveyAnalyzer.OlderRowsLast | src/survey_analysis.py:83-84 | the remaining rows are the older cohort's, tagged with its value, with their cells unchanged |
| SurveyAnalysis.SurveyAnalyzer.CleanColumns | src/survey_analysis.py:96-97 | the four kept columns are distinct when the group column is not a scale name |
| SurveyAnalysis.SurveyAnalyzer.Scored | src/survey_analysis.py:86-94 | when the three scales can be computed, the result keeps all stacked rows and has the four kept columns |
| SurveyAnalysis.SurveyAnalyzer.KeepClean | src/survey_analysis.py:96-98 | exactly the four kept columns, each filtered to the rows where none of the four is missing; no missing cell left; the upskill column still equals the autonomous column |
| SurveyAnalysis.SurveyAnalyzer.PrepareCleanDataset | src/survey_analysis.py:86-100 | the first failing scale's error, or the clean projection of the scored table |
| SurveyAnalysis.SurveyAnalyzer.UpskillCopiesAutonomous | src/survey_analysis.py:89-94 | in the scored table, upskill orientation equals autonomous use in every row |
| Correlation.Shown | correlation.py:37 | the first fifteen column names, or all of them when there are fewer |
| Correlation.RequireColumns | correlation.py:31-38 | passes iff every listed column exists; otherwise the error carries the label, the first fifteen names and exactly the absent columns, in list order |
| Correlation.RowMean | correlation.py:40-45 | the column check's error, or per row the mean of the numerically readable items, skipping missing ones |
| Correlation.RowMeanMissing | correlation.py:44-45 | a row mean is missing iff no item of that row reads as a number |
| Correlation.RowMeanBounds | correlation.py:44-45 | a row mean lies within any bounds that hold for the readable items |
| Correlation.NumericItems | correlation.py:53 | each listed column coerced to numbers, all of the table's height |
| Correlation.DropAllMissing | correlation.py:60 | keeps exactly the rows where some item is present, in every item column |
| Correlation.RowSums | correlation.py:65 | per row, the sum of the present items |
| Correlation.CronbachAlpha | correlation.py:47-72 | the column check's error, or alpha computed on the coerced items |
| Correlation.AlphaUndefined | correlation.py:55-68 | alpha is NaN iff there are fewer than two items, fewer than three answered rows, or all row sums are equal |
| Correlation.AlphaOf | correlation.py:55-72 | alpha is only defined for at least two items and at least three answered rows |
| Correlation.AlphaAtMost | correlation.py:70-72 | a defined alpha never exceeds k/(k-1) |
| Correlation.DropKeepsItemVariance | correlation.py:60-64 | dropping all-missing rows does not change any item's variance |
| Correlation.IdenticalItems | correlation.py:47-72 | two identical items have alpha 1 when at least three answers vary, and NaN otherwise |
| Correlation.PairMask | correlation.py:92 | a row is valid for a pair iff both of its values are present |
| Correlation.PairedValues | correlation.py:90-96 | item `a`'s answer on each row where both items are answered, in row order |
| Correlation.PairedRowsSymmetric | correlation.py:90-92 | the rows valid for (a, b) are those valid for (b, a) |
| Correlation.PValueCellShape | correlation.py:87-97 | the diagonal is NaN; an off-diagonal cell is NaN iff fewer than three rows pair up; otherwise it is a Pearson test on equally long paired samples; no cell keeps the initial 1 |
| Correlation.PairCell | correlation.py:87-97 | computes one cell of the matrix as the cell rule prescribes |
| Correlation.PValueTableCell | correlation.py:84-98 | the reference table holds the cell rule at every position |
| Correlation.FillRow | correlation.py:86-97 | fills row i with the cell rule and leaves the other rows untouched |
| Correlation.PValueMatrix | correlation.py:84-98 | a square matrix whose every cell is the cell rule for its pair |
| Correlation.CorrPValues | correlation.py:76-98 | a KeyError naming the absent columns iff some listed column is absent; otherwise the p-value matrix of the coerced columns |
| Correlation.MotivationItemsDisjoint | correlation.py:109-129 | no item is both autonomous and controlled; six and ten items |
| Correlation.MotivationItemsOmit | correlation.py:105-107 | the attention check [9] and the amotivation items [4], [11] and [17] are in neither list |
| Correlation.RangeItemLists | correlation.py:131-139 | the upskilling, reskilling and usefulness lists are exactly the items 1..5, 1..6 and 1..10 |
| Correlation.AgeBand | correlation.py:160-164 | younger iff the age is present and within 18..35, older iff it is at least 45, otherwise the text "nan" |
| Correlation.AgeBandSelected | correlation.py:160-164 | a row gets a band iff its age lies in 18..35 or is at least 45 |
| CorrelationScript.ScoreCells | correlation.py:149-153 | a row mean written as a column: missing where the mean is undefined |
| CorrelationScript.AgeGroups | correlation.py:161-164 | the band of each row's age |
| CorrelationScript.SetScore | correlation.py:149-153 | one score assignment on the frame, as the pure step prescribes |
| CorrelationScript.SetControls | correlation.py:155-164 | the control check and the three control columns, as the pure step prescribes |
| CorrelationScript.AddConstructs | correlation.py:146-164 | the frame and outcome after the script body are those of the pure run |
| CorrelationScript.Stopped | correlation.py:31-38 | after a failed check no later step changes the table |
| CorrelationScript.ScoreStepFacts | correlation.py:149-153 | a score step passes iff its items exist, and then it sets exactly its column to the row means of the original survey columns |
| CorrelationScript.ControlsStepFacts | correlation.py:155-164 | the controls step passes iff age and frequency exist; it then sets age, frequency and age band from the original columns |
| CorrelationScript.ScoresFacts | correlation.py:149-153 | the five score steps pass iff all five item lists are present; they then add exactly the five score columns |
| CorrelationScript.ConstructsOutcome | correlation.py:146-164 | the run passes iff every item list and both controls are present; it then adds exactly the eight computed columns and leaves the survey columns as they were |
| CorrelationScript.AddedScores | correlation.py:149-153 | each score column holds, row by row, the row mean of its item list |
| CorrelationScript.AddedControls | correlation.py:156-164 | age and frequency are the numeric readings of their columns; the band is that of the numeric age |
| CorrelationScript.SameRowMeans | correlation.py:40-45 | adding non-survey columns does not change any row mean over survey items |
| Group.Flatten | src/group.py:54 | every item of every scale, and nothing else |
| Group.ScaleKeysDistinct | src/group.py:4-50 | twelve distinct scale names, none of them a composite's name |
| Group.RegulationKeys | src/group.py:33-37 | the five regulation scales sit at positions 4..8 of the registry |
| Group.ControlledScore | src/group.py:78 | defined iff its three regulations are; the material and social regulations weigh one quarter each, the introjected one half |
| Group.AutonomousScore | src/group.py:80 | defined iff both regulations are; their mean |
| Group.ControlledBetween | src/group.py:78 | the controlled composite stays within any bounds of its parts |
| Group.AutonomousBetween | src/group.py:80 | the autonomous composite stays within any bounds of its parts |
| Group.ControlledIsWeighted | src/group.py:78 | the controlled composite is not the plain mean of the three regulations |
| Group.MeanColumn | src/group.py:70 | one value per row |
| Group.MeanColumnRow | src/group.py:70 | a scale is missing iff none of its items of that row is numeric, and otherwise lies within bounds of its items |
| Group.SingleItemScale | src/group.py:70 | a one-item scale is that item read as a number |
| Group.FlattenPresent | src/group.py:54-60 | if no flattened item is absent, every scale's items are present |
| Group.BuildStep | src/group.py:63-70 | adding the next scale's column extends the built prefix by one scale |
| Group.BuildScales | src/group.py:62-70 | a fresh frame with one column per scale, in registry order, each the scale's row mean |
| Group.GroupData | src/group.py:53-83 | a KeyError naming the absent items, with the caller's frame unchanged; otherwise the caller's items coerced in place and the grouped table |
| Group.WithComposites | src/group.py:78-80 | adding the two composites to the built scales gives the grouped table |
| Group.GroupedOfOriginal | src/group.py:58-70 | the scales equal those computed from the caller's original cells |
| Group.RegulationIndicesDisjoint | src/group.py:33-37 | the five regulations share no item and leave out items 4, 9, 11 and 17 |
| Group.RegulationMatchesCorrelation | src/group.py:33-37 | the controlled regulations hold exactly the controlled items of correlation.py, and the autonomous ones the autonomous items |
| Tally.ValueCounts | src/survey_statistics.py:46 | each present value once, with the number of its occurrences; the counts add up to the present values |
| Tally.Add | src/survey_statistics.py:52 | adding to a key raises exactly that key's count and the total |
| Tally.Put | src/survey_statistics.py:52 | writing a key: the key is present afterwards, no other key appears, and distinct keys stay distinct |
| Tally.PutNewIsAdd | src/survey_statistics.py:52 | on a key not yet present, writing and adding give the same dictionary |
| Tally.FillBlank | src/survey_statistics.py:43 | missing becomes the empty text; anything else is kept |
| Tally.FilledTruthy | src/survey_statistics.py:43-45 | after filling blanks, a cell is truthy iff it is a non-zero number or non-empty text |
| Tally.CoalesceAsWritten | src/survey_statistics.py:45 | the row lambda as written raises IndexError iff only one column was found and its cell is blank or zero |
| Tally.Coalesce | src/survey_statistics.py:45 | the first answer when it is truthy, otherwise the second, or the blank when there is no second column |
| Tally.CoalesceAgrees | src/survey_statistics.py:45 | the corrected rule gives the written rule's value wherever that does not raise, and always when both columns are present |
| Tally.CoalesceSingleBlank | src/survey_statistics.py:45 | one found column with a blank answer: the written rule raises, the corrected rule yields the blank |
| Tally.Found | src/survey_statistics.py:39 | exactly the listed columns the table has |
| Tally.FoundPair | src/survey_statistics.py:39 | the found columns keep the listed order |
| Tally.Combined | src/survey_statistics.py:43-45 | one coalesced answer per row, none missing |
| Tally.CodeLabel | src/survey_statistics.py:48-52 | a code 1..n, as text or as number, gets its name; any other key is labelled unknown with that key |
| Tally.MapLabelsAsWritten | src/survey_statistics.py:52 | the dictionary comprehension as written: one entry per label |
| Tally.MapLabels | src/survey_statistics.py:52 | one entry per label, and the counts still add up to the total |
| Tally.MapLabelsCollision | src/survey_statistics.py:48-52 | the codes "1" and 1 both become Male: as written one count is lost, corrected the two are summed |
| Tally.MapLabelsKeys | src/survey_statistics.py:52 | the labels of the mapped counts are exactly the labels of the raw keys |
| Tally.MapLabelsAgree | src/survey_statistics.py:52 | when no two raw keys get the same label, the comprehension as written and the corrected summing agree |
| Stats.Histogram | src/survey_statistics.py:23 | ascending distinct values, each with its number of occurrences |
| Stats.MeanSkipNa | correlation.py:45 | the row mean skipping NaN is missing iff every value is missing |
| Stats.MeanSkipNaBounds | correlation.py:45 | the row mean lies within any bounds that hold for every present value |
| Stats.MeanBounds | src/descriptives.py:40 | a mean lies between any bounds of the values |
| Stats.MedianBounds | src/descriptives.py:41 | the median lies between the smallest and the largest value |
| Stats.SampleVar | src/descriptives.py:42 | the sample variance (`ddof=1`) exists iff there are at least two values |
| Stats.SampleVarSign | correlation.py:64-65 | the sample variance is non-negative, and positive when two values differ |
| Stats.SampleVarZero | correlation.py:65-67 | the sample variance is zero iff all values are equal |
| SurveyStatistics.PerAgeAsWritten | src/survey_statistics.py:31 | the comprehension as written: one entry per whole age |
| SurveyStatistics.PerAge | src/survey_statistics.py:31 | strictly ascending whole ages whose counts add up to the number of ages |
| SurveyStatistics.PerAgeAccumulates | src/survey_statistics.py:31 | each age bin adds its count to its whole age |
| SurveyStatistics.PerAgeCollision | src/survey_statistics.py:23-31 | ages 30.2 and 30.7: as written the whole age 30 counts 1, corrected it counts 2 |
| SurveyStatistics.PerAgeAgrees | src/survey_statistics.py:31 | when no two ages share a whole part, the comprehension as written and the corrected summing agree |
| SurveyStatistics.PutAppends | src/survey_statistics.py:31 | writing a whole age above every key of the ascending dictionary appends it |
| SurveyStatistics.AgeStatistics | src/survey_statistics.py:19-34 | the not-found message iff the age column is absent; a ValueError iff no age is numeric; otherwise the count, the truncated extremes, the mean, median and sample variance of the numeric ages (mean and median between the extremes), and the summed per-age counts, which add up to the count |
| SurveyStatistics.CategoryStatistics | src/survey_statistics.py:36-57 | the message iff neither column exists; otherwise per-category counts with distinct labels that add up to the number of rows |
| SurveyStatistics.GenderStatistics | src/survey_statistics.py:36-57 | the gender case of the category rule |
| SurveyStatistics.SchoolEducationStatistics | src/survey_statistics.py:59-78 | the school-education case of the category rule |
| SurveyStatistics.VocationalEducationStatistics | src/survey_statistics.py:80-99 | the vocational-education case of the category rule |
| SurveyStatistics.SummaryOf | src/survey_statistics.py:101-107 | the four results, each as its own method computes it; the age error propagates |
| SurveyStatisticsCsv.AgeStatistics | survey_statistics.py:12-27 | the not-found message iff the age column is absent; otherwise the count, NaN statistics for too few ages, the extremes, mean, median and sample variance of the numeric ages (mean and median between the extremes), and ascending per-age counts equal to the ages' multiplicities |
| SurveyStatisticsCsv.AgeReportsAgree | survey_statistics.py:12-27 | the package's age summary is this one with truncated extremes and per-age counts merged by whole year |
| SurveyStatisticsCsv.CategoryStatistics | survey_statistics.py:29-44 | the message iff neither column exists; otherwise the found columns in order, and each raw answer's count equals its occurrences among the coalesced answers |
| SurveyStatisticsCsv.GenderStatistics | survey_statistics.py:29-44 | the gender case, with its message |
| SurveyStatisticsCsv.SchoolEducationStatistics | survey_statistics.py:46-59 | the school-education case, with its message |
| SurveyStatisticsCsv.VocationalEducationStatistics | survey_statistics.py:61-74 | the vocational-education case, with its message |
| SurveyStatisticsCsv.NamedCountsAreRawCounts | src/survey_statistics.py:46-57 | the package's category counts are these raw counts under their category names |
| SurveyStatisticsCsv.SummaryOf | survey_statistics.py:76-82 | the four results, each as its own method computes it |
| Descriptives.Values | src/descriptives.py:10 | exactly the values of the cells that read as numbers |
| Descriptives.MeanCI | src/descriptives.py:8-19 | NaN bounds iff fewer than two values; otherwise an interval symmetric about the mean, twice the half width wide |
| Descriptives.MeanCIContainsMean | src/descriptives.py:15-19 | a non-negative half width gives an interval containing the mean |
| Descriptives.Describe | src/descriptives.py:37-57 | n is the number of numeric values; mean and median exist iff n > 0, are the mean and median of those values and lie between the extremes; the spread is their sample variance and exists iff n > 1 |
| Descriptives.Block | src/descriptives.py:35-58 | one summary row per target, in target order, labelled with the group |
| Descriptives.Summarize | src/descriptives.py:35-58 | the loop builds exactly that block |
| Descriptives.Groups | src/descriptives.py:65 | the group values in strictly ascending order, each numeric value of the column once |
| Descriptives.GroupRows | src/descriptives.py:66 | exactly the rows whose group cell is the value, in order, every column filtered alike |
| Descriptives.GroupLabel | src/descriptives.py:66 | the group column, "=", then the value truncated to an integer |
| Descriptives.GroupBlockList | src/descriptives.py:64-66 | one block per group value, over that group's rows |
| Descriptives.SummarizeGroups | src/descriptives.py:64-66 | the loop builds exactly those blocks |
| Descriptives.FirstAbsent | src/descriptives.py:31-33 | the position of the first missing target, if any |
| Descriptives.FirstAbsentAt | src/descriptives.py:31-33 | a missing target after present ones is the one reported |
| Descriptives.DescriptivesOf | src/descriptives.py:22-68 | a KeyError for the first absent target; success iff every target and the group column exist and no group value is text |
| Descriptives.DescriptivesByGroup | src/descriptives.py:22-68 | the method returns exactly the function's result |
| Descriptives.DescriptivesShape | src/descriptives.py:60-68 | the result is the overall block followed, block by block, by one block per group in ascending order |
| Cohorts.CheckAge | main.py:40-41 | a KeyError without the age column; otherwise the rows whose age lies in the band, all columns kept |
| Cohorts.CheckAgeKeepsBand | main.py:40-41 | a row is kept iff its age lies in the band, and every column is filtered the same way |
| Cohorts.BandsShareOnlyThirtyFive | main.py:45-51 | only age 35 belongs to both the young and the old band |
| Cohorts.MinCount | main.py:57-58 | the threshold is 80 % of the rows, rounded down |
| Cohorts.FinishedRows | main.py:61 | a KeyError without the submit column; otherwise exactly the rows with a submit date |
| Cohorts.Stacked | main.py:45-53 | succeeds iff both band filters do; the stacked table has both filtered cohorts' rows |
| Cohorts.StackedOrder | main.py:45-53 | young rows first with tag 1, older rows after with tag 0, cells unchanged |
| Cohorts.Prepared | main.py:44-63 | after the row filters, exactly the columns with at least the threshold of answers, unchanged |
| Cohorts.FullColumnsKeptIff | main.py:57-63 | the cohort tag and submit columns survive iff enough finished rows remain |
| Cohorts.Prepare | main.py:44-63 | the script body computes exactly the prepared table |
| Frame.Coerce | correlation.py:157 | numbers unchanged, text parsed or made missing; the numeric reading is kept |
| Frame.ToNumericOfWord | correlation.py:157 | text that cannot start a number (no sign, digit or point first) reads as missing |
| Frame.ParseNumberOfNat | correlation.py:157 | a whole number's decimal text, as a cell, reads back as that number |
| Frame.CoerceIdempotent | correlation.py:157 | coercing twice is coercing once |
| Frame.CoerceItems | src/group.py:58-60 | listed columns are coerced; all other columns and the shape are unchanged |
| Frame.CoerceItemsIdempotent | src/group.py:58-60 | coercing the items twice is coercing them once |
| Frame.CoerceItemsKeepsRowMeans | src/group.py:58-70 | coercion does not change any row mean |
| Frame.DataFrame.CoerceColumns | src/group.py:58-60 | the frame's items are coerced in place |
| Frame.DataFrame.SetColumn | src/group.py:70 | the frame gains, or replaces, exactly one column |
| Frame.RowMeans | correlation.py:44-45 | per row, the mean of the numeric items, skipping missing ones |
| Frame.AbsentColumns | correlation.py:33 | exactly the listed columns the table lacks, in list order |
| Frame.Assign | src/survey_analysis.py:82-83 | a column holding the constant on every row is added or replaced; the height is unchanged |
| Frame.Project | src/survey_analysis.py:96-97 | exactly the listed columns, in the listed order, with their cells unchanged |
| Frame.SelectRows | main.py:61 | the rows selected by the mask, every column filtered alike |
| Frame.Concat | main.py:53 | rows of both tables, columns of either, with missing cells where a table lacks a column |
| Frame.ConcatParts | main.py:53 | the first rows of each stacked column come from the first table, the rest from the second |
| Frame.TaggedConcatFirst | src/survey_analysis.py:82-84 | tagging then stacking puts the first table's rows first with its tag |
| Frame.TaggedConcatSecond | src/survey_analysis.py:82-84 | the second table's rows follow with its tag |
| Frame.DropIncomplete | src/survey_analysis.py:96-98 | exactly the rows without a missing cell |
| Frame.DropSparseColumns | main.py:63 | exactly the columns with at least the threshold of present cells, in order and unchanged |
| Questionnaire.Items | correlation.py:132-139 | the item names of a question for the given numbers |
| Questionnaire.ItemNameInjective | correlation.py:132-139 | different numbers give different item names |
| Questionnaire.ItemsMember | correlation.py:132-139 | an item name is listed iff its number is |
| Text.Strip | src/survey_analysis.py:52 | the text without leading or trailing blanks |
| Text.StripPadded | src/survey_analysis.py:52 | stripping removes exactly the added blank padding |
| Text.LeadingDigits | src/survey_analysis.py:53 | the longest leading run of digits |

## Left out

- Reading and writing CSV files (`read_csv`, `to_csv`) is left out. Tables are parameters. The same holds for the file paths of the constructors and scripts.
- Plots, `print`/`print_summary` output and formatting are left out.
- The question-text helpers `creat_head_dict_from_csv` and `get_full_question` are left out. They only rename columns after reading a file.
- The t-test, ANCOVA, regression and plotting methods of `SurveyAnalyzer` are left out. So are main.py after line 63 and correlation.py after line 164. They hand the tables to statsmodels, scipy and pingouin.
- Correlation.PValueMatrix: the p-value of `pearsonr` is not computed. A cell records the two paired samples the test receives. The correlation matrix `sub.corr()` is not modelled.
- Group.GroupData leaves out the optional Cronbach's alpha print of `group_data` (`print_cronbach`). It is off by default and calls `pingouin`.
- Descriptives.Describe reports the sample variance instead of its square root, because square roots of reals are not modelled. Its spread is present iff the standard deviation is.
- Descriptives.MeanCI takes the half width `t.ppf(...) * sem(x)` as a function parameter. The t quantile and the standard error are library calls.
- SurveyStatisticsCsv.AgeStatistics reports the sample variance for `std`, for the same reason.
- Frame.ToNumeric reads only plain decimal numerals with an optional sign. Text that pandas also reads, such as surrounding blanks, an exponent (`1e3`), `inf` or `nan`, becomes missing here.
- Frame.Coerce inherits the simplification of Frame.ToNumeric.
- SurveyAnalysis.LikertCell scores a non-negative number by its whole part. Python's `str` writes numbers below 0.0001 (other than 0) and from 1e16 on in scientific notation, and the source then scores the mantissa's leading digits (`1e-05` scores 1). Answer codes are 1 to 7, far from both ranges.
- Tally.CodeLabel keeps an unknown key as the raw cell. The source labels it by the text `Unknown (k)`, so a number and a text with the same rendering (`1.5` and "1.5") share one label there and have two here.
- Tally.MapLabelsAsWritten inherits that difference of Tally.CodeLabel: such unknown keys collide in the source but not here.
- Tally.Combined applies the corrected coalescing rule Tally.Coalesce. With a single found column, a blank answer becomes the empty text, where the source's lambda raises IndexError (Tally.CoalesceSingleBlank). With both columns present the two rules agree (Tally.CoalesceAgrees).
- SurveyStatistics.AgeStatistics sums the counts of ages with the same whole part (SurveyStatistics.PerAge); the source keeps only the later count. The two agree when no two ages share a whole part (SurveyStatistics.PerAgeAgrees).
- SurveyStatistics.CategoryStatistics is built on the corrected Tally.Combined and Tally.MapLabels. It sums the counts of raw keys with the same label, where the source keeps only the later one. It yields the blank answer where the source raises IndexError. The two agree when both columns are present and no two raw keys share a label (Tally.CoalesceAgrees, Tally.MapLabelsAgree).
- SurveyStatistics.GenderStatistics computes the corrected category rule, as SurveyStatistics.CategoryStatistics does.
- SurveyStatistics.SchoolEducationStatistics computes the corrected category rule, as SurveyStatistics.CategoryStatistics does.
- SurveyStatistics.VocationalEducationStatistics computes the corrected category rule, as SurveyStatistics.CategoryStatistics does.
- SurveyStatistics.SummaryOf combines the corrected results above.
- SurveyStatisticsCsv.CategoryStatistics is built on the corrected Tally.Combined. With a single found column it yields the blank answer where the script's lambda at survey_statistics.py:38 raises IndexError.
- SurveyStatisticsCsv.GenderStatistics computes the corrected category rule, as SurveyStatisticsCsv.CategoryStatistics does.
- SurveyStatisticsCsv.SchoolEducationStatistics computes the corrected category rule, as SurveyStatisticsCsv.CategoryStatistics does.
- SurveyStatisticsCsv.VocationalEducationStatistics computes the corrected category rule, as SurveyStatisticsCsv.CategoryStatistics does.
- SurveyStatisticsCsv.SummaryOf combines the corrected results above.
- SurveyStatisticsCsv.AgeReportsAgree relates this script's age summary to the corrected SurveyStatistics.PerAge, not to the comprehension as written. The two agree when no two ages share a whole part (SurveyStatistics.PerAgeAgrees).
- SurveyStatisticsCsv.NamedCountsAreRawCounts relates the raw counts to the corrected Tally.MapLabels. The comprehension as written agrees when no two raw keys share a label (Tally.MapLabelsAgree).
- Floating point is modelled as exact reals. Cohorts.MinCount is ⌊4n/5⌋ computed exactly. This equals `int(0.8 * n)` for every realistic row count: the double nearest 0.8 lies just above 4/5, and a non-integral 4n/5 is at least 1/5 away from the next integer.
- Dictionary key order of `value_counts()` in the raw counts is modelled as first appearance. pandas orders by count. Only the set of keys and their counts are stated.
- SurveyStatisticsCsv.CategoryStatistics reads `row[0]` positionally. This is the fallback that older pandas applies to a label-indexed row; newer pandas raises instead.
- survey_statistics.py:88 calls a method `bildungsstand_statistics` that the class does not define. The script's main block is not modelled.
- Descriptives.DescriptivesOf rejects every text value in the group column, as a simplification. The source accepts a group column made only of texts that `int` can read, such as "1" (sorted as text, labelled through `int`); it raises for text mixed with numbers (`sorted`) or for text `int` cannot read.
- Cohorts.CheckAge rejects a text age as a comparison error, which pandas raises when text is compared with a number.
- main.py's imports of modules not part of this model (src.correlation_matrix, src.ttest, src.linear_regression) are left out.
- Pandas index labels are not modelled. Rows are positional, which is what `ignore_index=True` produces.

## Findings

| source | as written | input that shows it | evidently intended | confidence | as-written member | corrected member |
|---|---|---|---|---|---|---|
| src/survey_statistics.py:52 (also 73, 94) | the dictionary comprehension maps each raw key to its label; two raw keys with the same label keep only the later count | a coded answer 1 in `G02Q05` and a free-text "1" in `G02Q05[other]` of a row whose coded answer is blank | counts of keys with the same label are summed, so the counts add up to the total | medium, not executed | Tally.MapLabelsAsWritten, Tally.MapLabelsCollision | Tally.MapLabels |
| src/survey_statistics.py:45 and survey_statistics.py:38 | the row lambda reads the second column when the first answer is blank or zero, even when only one column was found | only `G02Q05` present and one row has no answer | fall back to the blank answer when there is no second column | high, not executed | Tally.CoalesceAsWritten, Tally.CoalesceSingleBlank | Tally.Coalesce |
| src/survey_statistics.py:31 | `{int(k): int(v) ...}` truncates ages; two ages with the same whole part keep only the later count | ages 30.2 and 30.7 | counts of ages with the same whole year are summed | medium, not executed | SurveyStatistics.PerAgeAsWritten, SurveyStatistics.PerAgeCollision | SurveyStatistics.PerAge |

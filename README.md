# Athlete tracker core, modelled in Dafny

This project models the computational core of an athletics training app,
in which an athlete logs workouts, sleep and body data:

- **The power-to-weight index** of the edge function `get_indice_poids_puissance`,
  the app's one real algorithm. It computes:
  - a body-composition sub-score, from the body-fat tiers with BMI as the fallback;
  - a benchmark normaliser, which maps each record over body weight to a score from 0 to 100;
  - the best score per exercise category;
  - a strength score, weighted 0.35/0.35/0.20/0.10 and renormalised over the categories present;
  - the rounded 40/60 blend of the two sub-scores.

  The aggregation loop and the weighting loop are methods. Each is proved equal to a fold
  function, and the bounds, monotonicity and "maximum, not average" facts are proved
  about those folds.
- **Smaller pieces of logic taken from the UI components:**
  - the sprint-time text field (`ChronoInput`): digit stripping, the dotted display, and
    reading back and writing out `ss.hh`;
  - the chrono grid of a running block (`CourseBlockForm`). It is a class whose state
    fields are updated by its methods; the resize effect pushes and pops rows and cells
    in loops;
  - the sleep log's arithmetic (`SleepTracker`): the `HH:MM` clock, the wrap past
    midnight, hours to two decimals, `7h30`, and the bedtime rebuilt from a stored
    duration;
  - the workout form's list operations, exercise selection, catalogue search and the
    record built on submit (`NewWorkoutForm`);
  - the height-edit rules (`EditAthleticDataModal`): a 30-day lock, 100–250 cm, and the
    update set built field by field;
  - the plus/minus stepper (`NumberSelector`).

Two support modules model the JavaScript built-ins these rely on:

- `JsMath`: `Math.floor`, `Math.round`, truncation and `% 1`, over exact reals.
- `Text`: `replace(/[^0-9]/g, '')`, `toString`, `padStart`, `parseInt` and `parseFloat` on
  plain decimal text.

`Wrappers` holds `Option` and `Result`. Numbers are `real` and are exact. Dates are
milliseconds given by the caller. Database rows are inputs.

## Model

| member | source | states |
|---|---|---|
| PowerIndex.Poids | supabase/functions/get_indice_poids_puissance/index.ts:56 | A missing or zero weight becomes 70 kg, a truthy weight is kept, and a non-negative stored weight gives a positive weight |
| PowerIndex.TailleM | supabase/functions/get_indice_poids_puissance/index.ts:57 | The height used is never 0: a missing or zero height becomes 180 cm, so BMI never divides by zero |
| PowerIndex.BodyFatScore | supabase/functions/get_indice_poids_puissance/index.ts:60-67 | The body-fat score lies in [30, 100] |
| PowerIndex.BodyFatScoreAntitone | supabase/functions/get_indice_poids_puissance/index.ts:60-67 | More body fat never scores higher |
| PowerIndex.BodyFatScoreTiers | supabase/functions/get_indice_poids_puissance/index.ts:61-67 | The six tiers 100/95/85/75/65/50 at the boundaries 10…20 %, and the floor of 30 from 30 % upwards |
| PowerIndex.Imc | supabase/functions/get_indice_poids_puissance/index.ts:70 | The BMI times the squared height in metres is the weight |
| PowerIndex.BmiScore | supabase/functions/get_indice_poids_puissance/index.ts:69-74 | The BMI score lies in [30, 90] |
| PowerIndex.ScoreCompo | supabase/functions/get_indice_poids_puissance/index.ts:55-75 | The composition score lies in [30, 100] |
| PowerIndex.BodyFatOverridesBmi | supabase/functions/get_indice_poids_puissance/index.ts:60-67 | A truthy body fat alone decides the composition score; weight and height are then irrelevant |
| PowerIndex.BmiFallback | supabase/functions/get_indice_poids_puissance/index.ts:56-75 | A missing or zero body fat falls back to BMI of the defaulted weight (70 kg) and height, and only those matter |
| PowerIndex.Normalize | supabase/functions/get_indice_poids_puissance/index.ts:84-96 | The score lies in [0, 100]. It is 100 iff ratio ≥ elite. The advanced tier gives [80, 100), the intermediate tier [60, 80), and below that at most 59 |
| PowerIndex.NormalizeTiers | supabase/functions/get_indice_poids_puissance/index.ts:87-96 | With ordered thresholds, score ≥ 80 iff ratio ≥ advanced, and score ≥ 60 iff ratio ≥ intermediate |
| PowerIndex.NormalizeMonotone | supabase/functions/get_indice_poids_puissance/index.ts:87-96 | With ordered thresholds, a better ratio never scores lower |
| PowerIndex.ExerciseMap | supabase/functions/get_indice_poids_puissance/index.ts:78 | The map's keys are exactly the ids of the reference rows, and each maps to one of those rows with that id |
| PowerIndex.ExerciseMapLastWins | supabase/functions/get_indice_poids_puissance/index.ts:78 | When several reference rows share an id, the map holds the last of them |
| PowerIndex.Merge | supabase/functions/get_indice_poids_puissance/index.ts:98-100 | Adds the record's category and leaves the others alone. An absent or zero entry is replaced by the score, and a non-zero entry keeps the larger of the two |
| PowerIndex.CategoryScores | supabase/functions/get_indice_poids_puissance/index.ts:80-101 | Every category score lies in [0, 100] |
| PowerIndex.CategoryScoresKeys | supabase/functions/get_indice_poids_puissance/index.ts:80-82 | The categories reported are exactly those of records whose exercise is in the reference table; unknown exercises are skipped |
| PowerIndex.CategoryScoresUpperBound | supabase/functions/get_indice_poids_puissance/index.ts:98-100 | Each category's value is at least the score of every one of its records |
| PowerIndex.CategoryScoresAttained | supabase/functions/get_indice_poids_puissance/index.ts:98-100 | Each category's value is the score of one of its records, so it is a maximum and never an average |
| PowerIndex.ScoreAt | supabase/functions/get_indice_poids_puissance/index.ts:81-96 | The score of a known record lies in [0, 100] |
| PowerIndex.AggregateCategories | supabase/functions/get_indice_poids_puissance/index.ts:80-101 | The loop that updates the map in place builds exactly the fold `CategoryScores` |
| PowerIndex.ScoreForce | supabase/functions/get_indice_poids_puissance/index.ts:110-124 | The accumulating loop and the division (0 when no weight is taken) give exactly the weighted mean `ScoreForceOf` |
| PowerIndex.WeightedSumBounds | supabase/functions/get_indice_poids_puissance/index.ts:113-118 | Partial weighted sums lie between lo and hi times the weight taken |
| PowerIndex.ScoreForceBounds | supabase/functions/get_indice_poids_puissance/index.ts:120-124 | The strength score lies between the lowest and the highest present score, and is 0 when no weighted category is present |
| PowerIndex.ScoreForceOnlyWeighted | supabase/functions/get_indice_poids_puissance/index.ts:113-118 | Categories outside the weight table, and entries of exactly 0, never change the strength score |
| PowerIndex.WeightsUnfolded | supabase/functions/get_indice_poids_puissance/index.ts:103-108 | The weighted sum and the total weight are the four terms for halterophilie, muscu_bas, muscu_haut and unilateral at 0.35/0.35/0.20/0.10 |
| PowerIndex.ScoreForceRenormalised | supabase/functions/get_indice_poids_puissance/index.ts:113-121 | With only halterophilie and muscu_haut present, their weights are renormalised by 0.55 |
| PowerIndex.Indice | supabase/functions/get_indice_poids_puissance/index.ts:126 | The index is within half a point of 0.4 × composition + 0.6 × strength, and lies in [12, 100] for a composition score in [30, 100] and a strength score in [0, 100] |
| PowerIndex.PowerIndexOf | supabase/functions/get_indice_poids_puissance/index.ts:126-134 | The response holds the category maxima, the index of the unrounded scores, both scores rounded, and the defaulted weight, the height in cm and the stored body fat |
| PowerIndex.ComputePowerIndex | supabase/functions/get_indice_poids_puissance/index.ts:55-134 | The whole computation equals `PowerIndexOf` and the index lies in [12, 100] |
| PowerIndex.IndiceBounds | supabase/functions/get_indice_poids_puissance/index.ts:126-132 | For non-negative records, the index lies in [12, 100] (never 0), the reported composition score in [30, 100] and the strength score in [0, 100] |
| PowerIndex.IndiceUsesUnroundedScores | supabase/functions/get_indice_poids_puissance/index.ts:126-133 | The index blends the unrounded scores. At 20.75 % body fat the reported score is 49 and the index is 19, whereas blending 49 would give 20. |
| PowerIndex.WorkedExample | supabase/functions/get_indice_poids_puissance/index.ts:60-126 | 9 % body fat, halterophilie 90 and muscu_bas 80 give a strength score of 85 and an index of 91 |
| ChronoInput.FormatChrono | src/components/workouts/ChronoInput.tsx:10-15 | Null is written as '' and only null is; any time is written in at least 5 characters |
| ChronoInput.FormatOfHundredths | src/components/workouts/ChronoInput.tsx:12-14 | A time of q seconds and r < 100 hundredths is written as padded q, '.', padded r |
| ChronoInput.ParseChrono | src/components/workouts/ChronoInput.tsx:17-28 | The result is the time the input's digit string stands for, and it is null iff the input has no digit |
| ChronoInput.ParseChronoOnlyDigits | src/components/workouts/ChronoInput.tsx:18 | The parse depends on the digit characters alone |
| ChronoInput.ShortChrono | src/components/workouts/ChronoInput.tsx:21-23 | One or two digits after "0." are decimal text that reads as that many decimal places |
| ChronoInput.DottedChrono | src/components/workouts/ChronoInput.tsx:25-27 | The digits with '.' before the last two are decimal text with the same digits, read as whole seconds plus two hundredths |
| ChronoInput.ParseChronoExamples | src/components/workouts/ChronoInput.tsx:17-28 | "5" reads as 0.5, "05" as 0.05, "1234" as 12.34, and "abc" as null |
| ChronoInput.HandleChange | src/components/workouts/ChronoInput.tsx:39-56 | The text shown is empty iff the emitted value is null. Otherwise the value is exactly what the shown text reads as, and the shown text keeps the typed digits |
| ChronoInput.DisplayIdempotent | src/components/workouts/ChronoInput.tsx:41-54 | Re-typing the shown text shows the same text |
| ChronoInput.FormatParseRoundTrip | src/components/workouts/ChronoInput.tsx:10-28 | Reading back what is written for a non-negative time in whole hundredths gives the time |
| ChronoInput.CarryCounterexample | src/components/workouts/ChronoInput.tsx:12-14 | As written, 9.996 s is shown as "09.100", which reads back as 91 s |
| ChronoInput.FormatChronoRounded | src/components/workouts/ChronoInput.tsx:10-15 | Corrected formatting: null iff '', otherwise the time rounded to hundredths first, so that 100 hundredths carry into the seconds |
| ChronoInput.FormatRoundedRoundTrip | src/components/workouts/ChronoInput.tsx:10-28 | Every non-negative time, written with the carry, reads back as itself rounded to the nearest hundredth |
| ChronoInput.FormatRoundedAgrees | src/components/workouts/ChronoInput.tsx:10-15 | On times in whole hundredths the corrected format writes what the original writes |
| CourseBlockForm.FitRow | src/components/workouts/CourseBlockForm.tsx:48-53 | The row has `reps` cells; the old cells are kept and the new cells are null |
| CourseBlockForm.Resized | src/components/workouts/CourseBlockForm.tsx:36-57 | `series` rows of `reps` cells; every old cell inside the new shape is kept, and every new cell is null |
| CourseBlockForm.ResizeShaped | src/components/workouts/CourseBlockForm.tsx:36-57 | A grid that already has the shape is left unchanged |
| CourseBlockForm.ResizeIdempotent | src/components/workouts/CourseBlockForm.tsx:36-57 | Resizing twice to the same counts gives the same grid as resizing once |
| CourseBlockForm.ResizeGrid | src/components/workouts/CourseBlockForm.tsx:37-55 | The push/pop loops over rows, then over the cells of each row, produce exactly `Resized` |
| CourseBlockForm.ChronoOfText | src/components/workouts/CourseBlockForm.tsx:62 | An empty input gives null, and any other input gives its parsed number |
| CourseBlockForm.SetCell | src/components/workouts/CourseBlockForm.tsx:61-63 | The shape is kept, cell (i, j) takes the new value, and every other cell is unchanged |
| CourseBlockForm.EditSurvivesResize | src/components/workouts/CourseBlockForm.tsx:36-65 | An edited grid keeps its shape, so the resize effect leaves the edit in place |
| CourseBlockForm.CountFromText | src/components/workouts/CourseBlockForm.tsx:83 | Series and reps are at least 1; a count below 1 or a failed parse gives 1 |
| CourseBlockForm.DistanceFromText | src/components/workouts/CourseBlockForm.tsx:101 | The distance is the parsed integer, or 0 on a failed parse |
| CourseBlockForm.CountTextRoundTrip | src/components/workouts/CourseBlockForm.tsx:82-83 | The text shown for a count ≥ 1 reads back as that count |
| CourseBlockForm.DistanceTextRoundTrip | src/components/workouts/CourseBlockForm.tsx:100-101 | The text shown for a distance reads back as that distance |
| CourseBlockForm.CourseBlock.constructor | src/components/workouts/CourseBlockForm.tsx:22-58 | The state is the block's fields, with the grid resized once to its series and reps |
| CourseBlockForm.CourseBlock.ChangeSeries | src/components/workouts/CourseBlockForm.tsx:83 | Series becomes the clamped count and the grid is resized to it; nothing else changes and the grid has the new shape |
| CourseBlockForm.CourseBlock.ChangeReps | src/components/workouts/CourseBlockForm.tsx:92 | Reps becomes the clamped count and every row is resized to it; nothing else changes |
| CourseBlockForm.CourseBlock.ChangeDistance | src/components/workouts/CourseBlockForm.tsx:101 | Only the distance changes, to the parsed integer or 0 |
| CourseBlockForm.CourseBlock.ChangeRestBetweenReps | src/components/workouts/CourseBlockForm.tsx:111 | Only the rest between repetitions changes, to the typed text |
| CourseBlockForm.CourseBlock.ChangeRestBetweenSeries | src/components/workouts/CourseBlockForm.tsx:121 | Only the rest between series changes, to the typed text |
| CourseBlockForm.CourseBlock.HandleChronoChange | src/components/workouts/CourseBlockForm.tsx:60-65 | Only cell (serieIndex, repIndex) changes: to null for an empty input, otherwise to the parsed time |
| SleepTracker.ClockMinutes | src/components/sleep/SleepTracker.tsx:64-68 | H·60 + M of an `HH:MM` time lies in [0, 1440) |
| SleepTracker.FormatClock | src/components/sleep/SleepTracker.tsx:53-54 | The clock text written for a minute of the day is `HH:MM` text that reads back as that minute |
| SleepTracker.ClockTextRoundTrip | src/components/sleep/SleepTracker.tsx:53-54 | Every `HH:MM` text is what is written for its minutes |
| SleepTracker.SleepMinutes | src/components/sleep/SleepTracker.tsx:67-74 | The wake time is taken on the next day when not after bedtime. The result is the one duration in (0, 1440] congruent to the clock difference, and it is 1440 iff the times are equal |
| SleepTracker.CalculateDuree | src/components/sleep/SleepTracker.tsx:63-76 | Hours in [0.02, 24], exactly 24 for equal times, within 0.005 of minutes/60, and a whole number of hundredths |
| SleepTracker.DureeMinutes | src/components/sleep/SleepTracker.tsx:122-123 | The minutes shown lie in [0, 60], and whole hours plus these minutes are within half a minute of the duration |
| SleepTracker.FormatDureeOfHundredths | src/components/sleep/SleepTracker.tsx:121-125 | For k hundredths of an hour the text is k/100, 'h', then the minutes padded to two digits. The minutes are omitted exactly on whole hours and never reach 60 |
| SleepTracker.FormatDuree | src/components/sleep/SleepTracker.tsx:121-125 | The text starts with '-' iff the hours are negative, with a digit otherwise, and ends in 'h' iff the rounded minutes are 0 (a digit otherwise) |
| SleepTracker.FieldMinutes | src/components/sleep/SleepTracker.tsx:64-68 | A cleared time field has no minute count (NaN); a filled one reads as its minutes since midnight |
| SleepTracker.DureeOfFields | src/components/sleep/SleepTracker.tsx:63-77 | The duration is NaN iff either field is cleared; otherwise it is `calculateDuree` of the two times, in [0.02, 24] |
| SleepTracker.ShownDuree | src/components/sleep/SleepTracker.tsx:121-125 | A NaN duration reads "NaNh", and a number is formatted by `formatDuree` |
| SleepTracker.ClearedFieldShowsNaN | src/components/sleep/SleepTracker.tsx:63-77 | The card shows "NaNh" iff a time field is cleared; two filled fields show text starting with a digit |
| SleepTracker.BedtimeMinutes | src/components/sleep/SleepTracker.tsx:49-51 | The rebuilt bedtime is a minute of the day, wrapping across midnight |
| SleepTracker.LoadedTimes | src/components/sleep/SleepTracker.tsx:45-54 | Both loaded texts are `HH:MM` times, and the wake time is 07:30 |
| SleepTracker.MinutesBack | src/components/sleep/SleepTracker.tsx:50-51 | For a stored duration in [0.02, 24] the step back lies in [1, 1440] minutes and within half a minute of the duration |
| SleepTracker.WrapBack | src/components/sleep/SleepTracker.tsx:49-51 | Stepping back from 07:30 and sleeping until 07:30 again lasts exactly the step |
| SleepTracker.ReloadKeepsDuration | src/components/sleep/SleepTracker.tsx:45-54 | Saving a night and loading it back shows times whose duration is within a minute of the saved one |
| NumberSelector.PropOrDefault | src/components/NumberSelector.tsx:16-17 | A prop that is left out takes its default, and a prop that is given is used as is |
| NumberSelector.HandleDecrement | src/components/NumberSelector.tsx:21-25 | Emits iff value > min, and then emits value − 1 |
| NumberSelector.HandleIncrement | src/components/NumberSelector.tsx:27-31 | Emits iff value < max, and then emits value + 1 |
| NumberSelector.DisabledMatchesGuards | src/components/NumberSelector.tsx:44 | Each button is disabled exactly when its handler would emit nothing |
| NumberSelector.StepsStayInRange | src/components/NumberSelector.tsx:21-31 | From a whole value in whole bounds, every emitted value stays in [min, max] |
| NumberSelector.StepsUndo | src/components/NumberSelector.tsx:21-31 | Inside the bounds, a step up then down (or down then up) returns the value |
| NumberSelector.DefaultRange | src/components/NumberSelector.tsx:16-17 | With the defaults 1 and 99, emitted values stay in [1, 99] |
| AthleticData.CheckTailleModification | src/components/profile/EditAthleticDataModal.tsx:31-49 | No recorded change means not blocked. Otherwise the height is blocked iff fewer than 30 whole days have passed, and the next date is last change + 30 days |
| AthleticData.WholeDaysBelow | src/components/profile/EditAthleticDataModal.tsx:39-41 | Fewer than 30 whole days have passed iff less than 30 days of time has passed |
| AthleticData.HandleSave | src/components/profile/EditAthleticDataModal.tsx:51-76 | See below the table |
| NewWorkoutForm.RemoveAt | src/components/workouts/NewWorkoutForm.tsx:45-47 | Removes exactly the entry at the index and keeps the others in order; an index outside the list removes nothing |
| NewWorkoutForm.RemoveLastAppended | src/components/workouts/NewWorkoutForm.tsx:38-47 | Removing the entry just appended gives back the list |
| NewWorkoutForm.AddCourse | src/components/workouts/NewWorkoutForm.tsx:38-43 | Appends one default run (60m, manuel, pointes, piste). Removing it gives back the old list |
| NewWorkoutForm.AddMuscu | src/components/workouts/NewWorkoutForm.tsx:55-60 | Appends one default exercise (empty, all 0). Removing it gives back the old list |
| NewWorkoutForm.ReplaceAt | src/components/workouts/NewWorkoutForm.tsx:50-51 | The copy has the same length, the new value at the index, and every other entry unchanged |
| NewWorkoutForm.UpdateCourse | src/components/workouts/NewWorkoutForm.tsx:49-53 | Only the run at the index changes, and only in the given field |
| NewWorkoutForm.UpdateMuscu | src/components/workouts/NewWorkoutForm.tsx:66-70 | Only the exercise at the index changes, and only in the given field |
| NewWorkoutForm.FindExercice | src/components/workouts/NewWorkoutForm.tsx:73 | Null iff no entry has the id; otherwise the first entry with that id |
| NewWorkoutForm.SelectExercice | src/components/workouts/NewWorkoutForm.tsx:72-83 | A known id sets the exercise id and name together at the index and leaves every other entry alone; an unknown id leaves the list unchanged |
| NewWorkoutForm.ToLower | src/components/workouts/NewWorkoutForm.tsx:131-132 | Lower-casing keeps the length and lower-cases each character |
| NewWorkoutForm.ToLowerIdempotent | src/components/workouts/NewWorkoutForm.tsx:131-132 | Lower-casing twice is lower-casing once |
| NewWorkoutForm.IncludesIff | src/components/workouts/NewWorkoutForm.tsx:131-132 | `includes` holds iff the term occurs at some offset |
| NewWorkoutForm.MatchingExercices | src/components/workouts/NewWorkoutForm.tsx:130-133 | An entry is in the result iff it is in the catalogue and its name or category contains the term, ignoring case |
| NewWorkoutForm.MatchingExercicesAppend | src/components/workouts/NewWorkoutForm.tsx:130-133 | The filter keeps catalogue order: filtering two parts one after the other gives the matches of the first, then those of the second |
| NewWorkoutForm.FilteredExercices | src/components/workouts/NewWorkoutForm.tsx:129-134 | An empty search gives the whole catalogue; otherwise exactly the matching entries |
| NewWorkoutForm.SearchIgnoresCase | src/components/workouts/NewWorkoutForm.tsx:129-134 | Searching for a term or its lower-case form finds the same entries |
| NewWorkoutForm.TextOrUndefined | src/components/workouts/NewWorkoutForm.tsx:105 | An empty text becomes undefined, and any other text is kept |
| NewWorkoutForm.IntOrUndefined | src/components/workouts/NewWorkoutForm.tsx:106 | An empty input or an effort of 0 becomes undefined |
| NewWorkoutForm.RealOrUndefined | src/components/workouts/NewWorkoutForm.tsx:109 | An empty input or a temperature of 0 becomes undefined |
| NewWorkoutForm.HandleSubmit | src/components/workouts/NewWorkoutForm.tsx:85-127 | Rejected with the alert iff there is no session type. Otherwise the title is "Séance <tag> - <date>", the lists are as they are, the duration is 60, each empty or zero optional field is undefined, and each defined optional field is the form's value |
| NewWorkoutForm.FormOf | src/components/workouts/NewWorkoutForm.tsx:18-31 | The date is the workout's, or today's when it has none. The type and lists are kept, undefined texts show as empty, and an undefined or zero effort or temperature shows as an empty input |
| NewWorkoutForm.ResubmitUnchanged | src/components/workouts/NewWorkoutForm.tsx:18-31 | Opening a saved workout for editing and submitting it unchanged saves the same record |
| Text.Digits | src/components/workouts/ChronoInput.tsx:18 | Stripping keeps only digits and never lengthens the text |
| Text.DigitsAppend | src/components/workouts/ChronoInput.tsx:18 | Stripping distributes over concatenation |
| Text.DigitsOfDigits | src/components/workouts/ChronoInput.tsx:18 | A digit string is unchanged by stripping |
| Text.NatToString | src/components/workouts/ChronoInput.tsx:14 | `toString` of a natural number is a digit string that reads back as the number, with one digit below 10 and at most two below 100 |
| Text.PadStart | src/components/workouts/ChronoInput.tsx:14 | `padStart` gives the longer of the two lengths, ending in the text and filled in front with the pad character |
| Text.Pad2 | src/components/workouts/ChronoInput.tsx:14 | Padding a digit string to 2 keeps its digits and value |
| Text.PadTwoDigits | src/components/workouts/ChronoInput.tsx:14 | Any two digits are what padding writes for the number they stand for |
| Text.DigitsValueAppend | src/components/workouts/ChronoInput.tsx:25-27 | Reading `a + b` shifts the value of `a` by the length of `b` |
| Text.ParseInt | src/components/profile/EditAthleticDataModal.tsx:66-67 | `parseInt` is NaN iff no digit follows the optional sign |
| Text.ParseIntOfToString | src/components/workouts/CourseBlockForm.tsx:83 | `parseInt` reads back what `toString` writes for every integer |
| Text.IntToString | src/components/sleep/SleepTracker.tsx:124 | `toString` of an integer starts with '-' iff it is negative, and with a digit otherwise |
| Text.ParseFloat | src/components/workouts/CourseBlockForm.tsx:62 | `parseFloat` of text with a leading '-' is at most 0, and of other decimal text at least 0 |
| Text.ParseFloatNegate | src/components/workouts/CourseBlockForm.tsx:62 | A leading '-' negates the value |
| JsMath.Floor | src/components/sleep/SleepTracker.tsx:122 | `Math.floor` is the integer n with n ≤ x < n + 1 |
| JsMath.Round | supabase/functions/get_indice_poids_puissance/index.ts:126 | `Math.round` is within half of x, and halves round up |
| JsMath.RoundHundredths | src/components/sleep/SleepTracker.tsx:75 | Rounding to hundredths moves x by at most 0.005 and gives a whole number of hundredths |
| JsMath.FracPart | src/components/sleep/SleepTracker.tsx:50 | `x % 1` lies in (-1, 1), is non-negative for non-negative x, and x minus it is an integer |
| Text.ParseFloatOfParts | src/components/workouts/ChronoInput.tsx:22-27 | `a.b`, with a and b digit strings not both empty, is decimal text that reads as a + b/10^|b| |

`AthleticData.HandleSave` states:

- The save fails iff the height is to be written and is not an integer in [100, 250], or
  there is no birth date and no height to write. Each case has its own message.
- The birth date is written iff it is non-empty.
- The height is written iff it is non-empty and not blocked. It is written as the parsed
  integer, which lies in [100, 250].
- `taille_derniere_modif` is stamped iff the height is written.
- No other key is written.

## Left out

- **The HTTP layer of the edge function.** CORS, the auth lookup, the four queries and the
  500 path are not modelled. The fetched rows are the input of `PowerIndex.PowerIndexOf`.
- **Authentication and network calls in the components.** The `Non authentifié` error, the
  Supabase writes, `onSave`, and the error alerts after a failed save are left out.
- **React state plumbing.** The `saving` flags, the `useEffect` that sends the block to
  the parent through `onChange`, and rendering are left out.
- **Floating point.** Numbers are exact reals, so IEEE rounding artefacts (such as
  0.1 + 0.2) are not modelled.
- **Wall-clock and calendar time.** `new Date()`, `toISOString` and `toTimeString` are
  parameters. Daylight-saving shifts in `setHours` and `setDate` are not modelled, and a
  day is always 86 400 000 ms.
- **AthleticData.CheckTailleModification:**
  - It returns the next allowed date as a timestamp, because its `toLocaleDateString('fr-FR')`
    text is not modelled.
  - When not blocked it returns no date, whereas the component keeps the previous
    `nextModifDate` (which it does not display then).
- **PowerIndex.Normalize** requires a non-negative ratio. **PowerIndex.ComputePowerIndex**
  requires a non-negative stored weight and non-negative record values. With a negative
  ratio, a zero intermediate threshold makes the source divide by zero.
- **Readiness and evolution scores.** They are only displayed by the app, and the code
  that computes them is not part of this model.
- **Empty arrays and logging in the saved workout.** The always-empty arrays of the saved
  workout (`sauts_json`, `runs`, …) and the console logging are left out.
- **Text.ParseInt** does not skip leading white space and knows no radix prefix.
- **Text.ParseFloat** is only defined on `digits.digits` text with an optional minus
  sign. Exponent text such as `1e2`, which a number input also accepts, is not modelled.
- **CourseBlockForm.CourseBlock.HandleChronoChange** requires the value to be empty or
  decimal text. Exponent text in the number input is not modelled. It also requires indices inside
  the grid, which is what the rendered inputs pass.
- **CourseBlockForm.CourseBlockData** has natural series and reps. Counts only ever come
  from the clamped inputs, which are at least 1.
- **Index assignment out of range.** NewWorkoutForm.UpdateCourse, NewWorkoutForm.UpdateMuscu
  and NewWorkoutForm.SelectExercice require an index inside the list, which is what the
  rendered rows pass. JavaScript would instead grow the array with a hole.
- **NewWorkoutForm.ToLower** lower-cases ASCII letters only.
- **ChronoInput.FormatChrono** states only the empty case and the length for every real.
  The exact text is stated for whole hundredths by ChronoInput.FormatOfHundredths and
  ChronoInput.FormatParseRoundTrip.
- **SleepTracker.FormatDuree** states the sign, the leading digit and the trailing 'h' for
  every real. The exact text is stated by SleepTracker.FormatDureeOfHundredths for the
  values `calculateDuree` returns.
- **SleepTracker.CalculateDuree** requires two `HH:MM` times. A cleared field is modelled by
  SleepTracker.DureeOfFields. Time text with seconds (`HH:MM:SS`) is not modelled.
- **Saving a NaN duration.** With a cleared field the save sends NaN as `duree_heures`.
  How the client serialises it and what the database then stores are not modelled.

## Findings

| source | as written | input that shows it | evidently intended | confidence | as-written member | corrected member |
|---|---|---|---|---|---|---|
| src/components/workouts/ChronoInput.tsx:12-14 | The hundredths are `Math.round` of the fraction × 100 and are never carried into the seconds | 9.996 is shown as "09.100", which the field reads back as 91 s | Round to hundredths first, so that 9.996 is shown as "10.00" | low (only times not in whole hundredths reach it; typed times never do), not executed | ChronoInput.CarryCounterexample | ChronoInput.FormatRoundedRoundTrip |

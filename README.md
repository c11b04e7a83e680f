# Free-viewing experiment: a verified model of its core logic

This project models the sequential logic of a browser experiment in which participants look at image sets while a pointer-driven spotlight sensor records where they look. Three parts are modelled:

- **ExperimentUtils** (`js/experiment-utils.js`). It covers:
  - the quadrant dwell-time analysis of a trial's pointer samples;
  - the in-place Fisher–Yates shuffle;
  - the hand-off of the sensor's sample buffer;
  - the countdown bookkeeping in the `activeIntervals` / `activeTimeouts` maps;
  - the screen-switch rule.
- **ExperimentController** (`js/experiment.js`). It covers:
  - the trial sequencer `runTrial` over the filler pattern, with its three counters;
  - the start, restart, exit and finish transitions;
  - the participant form check;
  - the keyboard dispatch.
- **AdminManager** (`js/admin-manager.js`). It covers:
  - the credential check;
  - the seven-day retention rule;
  - the dashboard's size, age and expiry labels;
  - the two storage clean-up passes.

Modules, one per file:

- `JsValues` (`js_values.dfy`):
  - the JavaScript values a sample carries (`undefined`, `NaN`, numbers);
  - `||` and `??` chains over property names;
  - decimal rendering of numbers.
- `Quadrants` (`quadrants.dfy`):
  - `CalculateQuadrantTimes` is a loop with four accumulators;
  - it takes the lookup operator as a parameter: `LogicalOr` is the code as written, `NullishCoalescing` the corrected lookup of the finding below;
  - it is proved equal to the specification function `QuadrantTimesOf`;
  - lemmas about that function state the analyser's properties.
- `ExperimentUtils` (`experiment_utils.dfy`):
  - the shuffle on an `array`;
  - the sensor and its data logger as classes;
  - the `Timers` class holding the two maps;
  - `ShowScreen`.
- `ParticipantForm` (`participant_form.dfy`):
  - `String.prototype.trim` and `\s` over JavaScript's whitespace set;
  - the e-mail regex as a split predicate, proved equal to a direct check;
  - the form validator.
- `Trials` (`trials.dfy`):
  - the sequencer as functions on a `Progress` snapshot: `TrialStep` for one pass and `RunFrom` for the whole recursion;
  - reference definitions: `ExpectedRecords`, the `Consistent` invariant and `Exact`;
  - the lemmas that connect them.
- `Experiment` (`experiment.dfy`):
  - the `ExperimentController` class, whose fields its methods update;
  - `RunTrial` is the tail recursion written as a loop;
  - it is proved to end in `RunFrom(Env(), old(Snapshot()), runs)`.
- `AdminManager` (`admin_manager.dfy`):
  - the retention and dashboard helpers, taking the clock as an integer millisecond parameter;
  - the `filesToDelete` construction;
  - the clean-up loops that count `filesCleanedCount`.

Inputs the model takes as parameters instead of computing them:

- **Sample values:** `parseFloat` is applied to values that are already numbers, `NaN` or missing.
- **Viewport:** `window.innerWidth` and `window.innerHeight` are parameters.
- **Random choice:** `Math.random` becomes a free choice of index.
- **Clock:** it is an integer parameter.
- **Per-trial outcomes:** each trial is described by a `TrialRun`:
  - whether it throws, and where;
  - whether an Escape is confirmed while it runs;
  - the samples the sensor hands back.
- **Image manager:** it decides the filler pattern and the number of neutral fillers.
- **Page:** it gives the set of screens present.
- **Data manager:** it is represented by the records handed to it.
- **Sensor failures:** whether `startTracking` or `stopTracking` throws is a boolean parameter.
- **Sensor recording:** the library appends samples to its logger while tracking; `MouseView.Record` stands in for that, so the trial-tracking scenarios can run samples through the buffer.
- **Storage failures:** in the expiry clean-up, `throwing` names the paths whose removal call throws. In delete-all, `removeFails[i]` says whether row i's batch removal reported an error or threw; the code treats both the same way.
- **Countdown arguments:** `createCountdown`'s defaults (`'trial-countdown'` and 15000 ms) are not modelled. The caller always passes the name and the duration.

Behaviour worth knowing:

- **Centre line:** a point exactly on the horizontal centre line counts as *bottom*, because top is `y < centerY`.
- **Sum of quadrant times:** it is not bounded by last time minus first time, because pairs whose time runs backwards are skipped, not subtracted.
- **Zero values:** a field whose value is 0 is treated as missing by the `||` chains.

## Model

| member | source | states |
|---|---|---|
| JsValues.ChainIsFirstPassing | js/experiment-utils.js:354-365 | an `\|\|` chain yields the first name whose value is truthy, else the value of the last name; a `??` chain yields the first non-nullish value |
| JsValues.ParseFloat | js/experiment-utils.js:354-365 | a number parses to itself; `NaN` and missing values parse to `NaN` |
| Quadrants.CalculateQuadrantTimes | js/experiment-utils.js:335-389 | the four-accumulator loop returns exactly the pairwise accumulation over the samples, and every total is non-negative; mode LogicalOr is the code as written |
| Quadrants.AccumulateNonNegative | js/experiment-utils.js:367-374 | skipped pairs and non-negative deltas keep every total at 0 or above |
| Quadrants.NoPairNoTime | js/experiment-utils.js:336-338 | a missing list, an empty one or a single sample gives all four totals 0 |
| Quadrants.AddTimeChangesOne | js/experiment-utils.js:376-385 | a credit adds its delta to exactly one quadrant and leaves the other three unchanged |
| Quadrants.CreditOfLaterSample | js/experiment-utils.js:344-385 | a credited pair has both samples readable; its quadrant is the later sample's; its delta is that sample's time minus the previous one and is non-negative |
| Quadrants.CreditIgnoresEarlierPosition | js/experiment-utils.js:344-365 | the earlier sample's position never affects which quadrant is credited |
| Quadrants.ClassifyHalves | js/experiment-utils.js:341-342 | top exactly when 2y < height, right exactly when 2x >= width, so a point on the vertical centre line is right and one on the horizontal centre line is bottom |
| Quadrants.TotalIsSpan | js/experiment-utils.js:344-386 | when all samples are readable and times never decrease, the four totals sum to the last time minus the first |
| Quadrants.TotalCanExceedSpan | js/experiment-utils.js:367-370 | with times 10, 30, 20 the totals sum to 20, which is more than last minus first |
| Quadrants.ZeroCoordinateReadsAsNaN | js/experiment-utils.js:354-355 | a sample whose only x is 0 reads x as `NaN`, so the pair ending there is skipped |
| Quadrants.ZeroInLastNameIsKept | js/experiment-utils.js:354 | a 0 under the last name of the chain (`pageX`) is read as 0 |
| Quadrants.NullishReadsSample | js/experiment-utils.js:354-365 | with `??` lookups, x, y and t read back as stored, zeros included |
| Quadrants.ZeroCoordinateCounted | js/experiment-utils.js:354-385 | with `??` lookups, a pair ending at x == 0 credits its delta to that sample's quadrant |
| Quadrants.EdgeScenarioAsWritten | js/experiment-utils.js:354-385 | samples (0,0,0), (0,0,10), (100,0,40) on a 100×100 viewport give all totals 0 |
| Quadrants.EdgeScenarioNullish | js/experiment-utils.js:354-385 | with `??` lookups the same samples give 10 to top-left and 30 to top-right |
| ExperimentUtils.ShuffleArray | js/experiment-utils.js:25-30 | the array is permuted in place: its multiset of elements is unchanged |
| ExperimentUtils.StartMouseViewTracking | js/experiment-utils.js:143-157 | returns true exactly when the sensor exists and its start does not throw; it is then tracking; a throwing start returns false and leaves the sensor as it was |
| ExperimentUtils.StopMouseViewTracking | js/experiment-utils.js:162-190 | returns the buffered samples and leaves the buffer empty; returns [] when the sensor or its logger is absent; a throwing stop returns [] and leaves the buffer as it was |
| ExperimentUtils.TrackTrial | js/experiment-utils.js:143-190 | one trial's stop returns the samples left in the buffer before the trial, followed by that trial's samples; after a throwing stop they all stay in the buffer |
| ExperimentUtils.TwoTrials | js/experiment-utils.js:162-190 | with a working first stop, the second trial returns only its own samples; after a throwing first stop, the second returns both trials' samples |
| ExperimentUtils.CountdownSeconds | js/experiment-utils.js:267 | the countdown starts at ceil(duration / 1000) seconds |
| ExperimentUtils.Timers.constructor | js/experiment-utils.js:7-10 | both maps start empty |
| ExperimentUtils.Timers.CreateCountdown | js/experiment-utils.js:266-283 | starts at ceil(duration / 1000) and records the interval id under the countdown's name; timeouts are untouched |
| ExperimentUtils.Timers.CountdownTick | js/experiment-utils.js:270-279 | one second less; at zero or below, the name is removed from `activeIntervals` |
| ExperimentUtils.Timers.HideCountdown | js/experiment-utils.js:294-299 | removes that name only; every other entry keeps its id |
| ExperimentUtils.Timers.Cleanup | js/experiment-utils.js:311-324 | both maps are empty afterwards |
| ExperimentUtils.ShowScreenIdempotent | js/experiment-utils.js:197-219 | an existing screen is shown and becomes the state; a missing screen is not shown and changes nothing; switching twice equals switching once |
| ParticipantForm.TrimStartBlank | js/experiment.js:151 | left-trimming gives "" exactly when every character is whitespace |
| ParticipantForm.TrimBlank | js/experiment.js:151-159 | `!s.trim()` holds exactly when every character of s is JavaScript whitespace |
| ParticipantForm.IndexOf | js/experiment.js:162-163 | the first index of a character, or -1 when it does not occur |
| ParticipantForm.EmailRegexTestCorrect | js/experiment.js:162-163 | the direct check accepts exactly the strings `part@part.part` whose parts are non-empty and contain no whitespace and no '@' (both directions) |
| ParticipantForm.ValidateParticipantForm | js/experiment.js:151-169 | accepted exactly when the id and the e-mail are both non-blank and the e-mail matches the pattern; the values are kept untrimmed; a blank id is reported first, then a blank e-mail |
| ParticipantForm.AcceptedEmailHasNoWhitespace | js/experiment.js:162-166 | an accepted e-mail contains no whitespace at all, since the regex tests the untrimmed value |
| Trials.ViewingPolicy | js/experiment.js:543-552 | a timed delay of imageViewingTime exactly when it is positive, otherwise a manual wait |
| Trials.ProgressionPoint | js/experiment.js:626-651 | a manual wait ends at the first click on the continue button or the first Space or Enter key, and at no earlier event |
| Trials.ProgressionIgnoresOtherKeys | js/experiment.js:639-646 | any other key leaves the wait as it was |
| Trials.CountTrue | js/experiment.js:415 | the number of filler positions in a prefix, at most its length |
| Trials.CountTrueStep | js/experiment.js:415 | one more position adds one exactly when it is a filler |
| Trials.ExpectedRecordsAt | js/experiment.js:526-531 | the k-th reference record is the record of trial k |
| Trials.TrialStepEffect | js/experiment.js:396-447 | a trial advances the trial number by one, even when it throws, so it is not retried; only a fault-free trial adds a record, at index number − 1, of the pattern's kind, with image set = image counter before the increment or filler = filler counter mod the filler count; only the matching counter moves, by one; the flag is cleared exactly by a confirmed exit |
| Trials.TrialStepConsistent | js/experiment.js:396-447 | one trial preserves the invariant: counters within the pattern prefix, record indices strictly increasing and below the trial number, each of its position's kind |
| Trials.TrialStepExact | js/experiment.js:396-447 | an undisturbed trial keeps the counters and records equal to their reference values |
| Trials.RunFromConsistent | js/experiment.js:386-447 | the recursion keeps the invariant and always ends with the experiment no longer running |
| Trials.RunFromExact | js/experiment.js:386-447 | undisturbed trials play every pattern position and finish (processing, then thank-you) with the reference records and counters |
| Trials.CompleteExperiment | js/experiment.js:330-447 | a full undisturbed run has images + fillers == trial number == pattern length, fillers == number of true entries, and records indexed 0..N−1 in order, each the reference record |
| Trials.ExitStopsRun | js/experiment.js:438-440 | an exit confirmed during trial k ends the recursion with trial number k + 1, not running, on the end screen's state |
| Experiment.KeyDispatch | js/experiment.js:984-1025 | Space starts, resumes or continues depending on the screen; Escape exits only when running and confirmed; Ctrl/Cmd+D toggles debug; Ctrl+Shift+A opens admin on the thank-you screen; other keys do nothing |
| Experiment.ExperimentController.constructor | js/experiment.js:8-41 | the controller starts on 'welcome' with all counters 0, not started, not running, debug off |
| Experiment.ExperimentController.ShowScreen | js/experiment.js:1056-1061 | the state follows the shared screen rule; nothing else changes |
| Experiment.ExperimentController.HandleStartExperiment | js/experiment.js:140-142 | switches to the participant screen |
| Experiment.ExperimentController.HandleParticipantForm | js/experiment.js:144-173 | participant information is set and loading shown exactly when the form is accepted; otherwise nothing changes |
| Experiment.ExperimentController.EmergencyExit | js/experiment.js:1027-1041 | clears the running flag and shows the end screen |
| Experiment.ExperimentController.FinishExperiment | js/experiment.js:695-738 | clears the running flag; the processing screen then the thank-you screen |
| Experiment.ExperimentController.ToggleDebugMode | js/experiment.js:1044-1053 | flips the debug flag and nothing else |
| Experiment.ExperimentController.ShowImageTrial | js/experiment.js:525-572 | follows the image-trial step: image set read before the counter is incremented, record at index number − 1 |
| Experiment.ExperimentController.ShowFillerTrial | js/experiment.js:574-624 | follows the filler-trial step: filler index = counter mod filler count, read before the increment |
| Experiment.ExperimentController.PlayTrial | js/experiment.js:398-433 | one pass of the loop body is the reference trial step: number advanced, the pattern's kind shown, a confirmed Escape exits |
| Experiment.ExperimentController.RunTrial | js/experiment.js:386-449 | the loop leaves the controller in the state the recursion defines |
| Experiment.ExperimentController.StartExperiment | js/experiment.js:330-384 | sets the flags, resets the counters and data, shows the experiment screen and runs the recursion from there |
| Experiment.ExperimentController.StartMainExperiment | js/experiment.js:314-328 | the counters are reset, then the run is the same as from startExperiment |
| Experiment.ExperimentController.RestartExperiment | js/experiment.js:961-982 | all counters 0, both flags cleared, data cleared; the state is 'welcome' even without a welcome screen |
| Experiment.ExperimentController.HandleKeyPress | js/experiment.js:984-1025 | performs the dispatched action: exit, debug toggle, screen switch or main-experiment run; the other keys leave the sequencer state alone; only the main-experiment run changes the started flag and the current trial, setting them to true and 0 |
| AdminManager.ValidateAdminCredentials | js/admin-manager.js:128-131 | true exactly when both the username and the password equal the stored pair |
| AdminManager.OnlyStoredPairAccepted | js/admin-manager.js:128-131 | any other pair is rejected |
| AdminManager.CeilDays | js/admin-manager.js:967 | Math.ceil of a millisecond count over a day |
| AdminManager.FloorDays | js/admin-manager.js:979 | Math.floor of a millisecond count over a day |
| AdminManager.GetDaysUntilExpiry | js/admin-manager.js:961-968 | never negative; 0 exactly once the seven days have passed; otherwise the rounded-up number of days left |
| AdminManager.DaysAtCompletion | js/admin-manager.js:17 | 7 at the moment of completion, never more afterwards |
| AdminManager.DaysNonIncreasing | js/admin-manager.js:961-968 | the count never goes up as time passes |
| AdminManager.ExpiredIsLabelledExpired | js/admin-manager.js:722-730 | a row cleanup deletes shows 0 days; at exactly completed + period a row shows 0 days but is kept, and only then |
| AdminManager.ExpiryText | js/admin-manager.js:255 | 'Expired' exactly when no day is left; otherwise "n days" |
| AdminManager.ExpiryColor | js/admin-manager.js:256 | green above 3 days, orange from 1 to 3, red at 0 or below |
| AdminManager.ExpiryLabelAgrees | js/admin-manager.js:254-256 | red exactly when the text says 'Expired' |
| AdminManager.CalculateTotalDataSize | js/admin-manager.js:957-959 | 0 for no entries; non-negative when every size is |
| AdminManager.TotalDataSizeSingle | js/admin-manager.js:957-959 | one entry's total is its size, or 0 when the size is missing; with additivity this pins the total to the sum of the sizes |
| AdminManager.TotalDataSizeAppend | js/admin-manager.js:957-959 | the total of a concatenation is the sum of the totals, with each entry counting once (a missing size as 0) |
| AdminManager.OldestIndex | js/admin-manager.js:972-976 | the reduce keeps an entry with the least completedAt, and the first one on ties |
| AdminManager.DaysAgoText | js/admin-manager.js:980 | 'Today' exactly for 0 days |
| AdminManager.DaysAgoWording | js/admin-manager.js:980 | "1 day ago" for 1; "n days ago" above 1; a negative count reads "-n day ago", singular |
| AdminManager.DaysAgoNotNone | js/admin-manager.js:978-980 | an age text is never 'None', so 'None' means no data |
| AdminManager.EarliestShareAge | js/admin-manager.js:972-980 | every earliest entry reads the same age |
| AdminManager.GetOldestDataDate | js/admin-manager.js:970-981 | 'None' exactly for no data; otherwise the floored age in days of an earliest entry |
| AdminManager.OldestDataDateWording | js/admin-manager.js:980 | one day reads "1 day ago"; two days read "2 days ago" |
| AdminManager.FormatDate | js/admin-manager.js:983-993 | 'Today' under a day, 'Yesterday' under two, "n days ago" under seven, the locale date from seven days on; a time stamp in the future gives "-n days ago", with n the distance into the future in whole days, rounded up |
| AdminManager.FormatDateFuture | js/admin-manager.js:986-990 | a time stamp in the future reads as a negative count, e.g. "-1 days ago" |
| AdminManager.Keep | js/admin-manager.js:881-883 | at most one path; one exactly when the path is truthy, and then it is that non-empty path |
| AdminManager.PathsOf | js/admin-manager.js:879-883 | only non-empty paths; empty exactly when the row has no truthy path |
| AdminManager.FilesToDelete | js/admin-manager.js:879-883 | the pushed list equals the row's truthy paths in the order trial, mouse, heatmap, at most three |
| AdminManager.PathsOfOrder | js/admin-manager.js:881-883 | with all three present the list is exactly [trial, mouse, heatmap] |
| AdminManager.ExpiredRowsExactly | js/admin-manager.js:722-730 | the select returns every copy of each row past the strict cutoff, and no other row |
| AdminManager.SurvivingRowsExactly | js/admin-manager.js:803-807 | the delete leaves every copy of each row within the cutoff, and no other row |
| AdminManager.CleanupPartitions | js/admin-manager.js:722-807 | a row is selected exactly when expired and kept exactly when not; as multisets, selected plus kept is the table; with none selected the table is unchanged |
| AdminManager.SurvivorsAreAll | js/admin-manager.js:740-748 | with nothing expired the table stays as it was |
| AdminManager.UntilThrow | js/admin-manager.js:754-796 | the removals that return are a prefix of the row's paths, none of them throwing, and they stop only at a path whose removal throws |
| AdminManager.UntilThrowAppend | js/admin-manager.js:754-796 | the second group of removals is reached only when no removal in the first group throws |
| AdminManager.NoThrowRemovesAll | js/admin-manager.js:754-794 | when nothing throws, every path is removed |
| AdminManager.CountCleanedRows | js/admin-manager.js:751-796 | never more than the rows with stored files |
| AdminManager.NoThrowCountsStored | js/admin-manager.js:752-794 | when no removal throws, every row with stored files is counted, whatever its removals report |
| AdminManager.StoredPathsNonEmpty | js/admin-manager.js:754-786 | no storage removal names an empty path |
| AdminManager.RemoveIfPresent | js/admin-manager.js:755-764 | a truthy path is removed unless an earlier removal has thrown; a removal that throws stops the rest |
| AdminManager.CleanRowFiles | js/admin-manager.js:753-796 | the removals that return are the row's truthy paths, in trial, mouse, heatmap order, up to the first that throws; the row is counted exactly when none throws |
| AdminManager.CleanupExpiredData | js/admin-manager.js:711-832 | counts the expired rows; counts each expired row with stored files unless one of its removals throws; removes their truthy paths one call at a time; keeps exactly the unexpired rows |
| AdminManager.BatchesExactly | js/admin-manager.js:876-889 | one batch per row with stored files and a truthy path; the batches are exactly those rows' path lists |
| AdminManager.ClearedAtMostBatched | js/admin-manager.js:885-895 | never more rows counted than batches; every batch is counted when no removal fails |
| AdminManager.ClearRow | js/admin-manager.js:877-899 | a row yields its path list as one batch exactly when its files are stored and it has a truthy path; it is counted exactly when that removal does not fail |
| AdminManager.ClearAllFiles | js/admin-manager.js:873-900 | the storage loop's count and batches are those of the whole table |
| AdminManager.ClearAllData | js/admin-manager.js:837-927 | nothing happens without both confirmations; otherwise one batch per row with stored files and a path, counting those whose removal neither reported an error nor threw, then delete-all |
| AdminManager.ClearAllKeepsOnlyPlaceholder | js/admin-manager.js:906-909 | delete-all keeps every copy of each row whose id is the placeholder, and no other row |

## Left out

- **DOM work:** styles, buttons, progress bars, canvases, `alert` and `confirm` are not modelled. A confirmation becomes a boolean parameter.
- **Timers and promises:** `setTimeout`, `setInterval`, promises and the readiness polling are not modelled. Delays and clicks are abstract events. A wait that never resolves is not modelled either: each trial either completes or throws.
- **The sensor library:** only its tracking flag and its logger's buffer are modelled. `configureMouseView` and `cleanupMouseView` are not part of this model.
- **Unseen managers:** the image manager, data manager and practice manager are not part of this model. Practice, loading (`loadImages`, past the loading screen) and heatmap generation are left out with them.
- **Network I/O:** Supabase storage and database calls, e-mail sending and CSV/ZIP export are left out. The clean-up passes assume the database queries succeed, and their error paths only alert and return. A storage removal that throws is modelled; a failing query is not.
- **SQL `NULL`:** `.lt('completed_at', …)` and `.neq('participant_id', …)` never match `NULL`, so a row with a null completion time or a null id survives the respective pass. The model's rows have no null fields, so both passes decide every row.
- **Number representation:** sample values and quadrant totals are exact reals (`Num(real)`), while the code adds IEEE doubles. Quadrants.TotalIsSpan holds exactly over the reals only; with doubles the sum may differ from last minus first by rounding. `Num(real)` also has no ±Infinity: in the code an infinite time passes the `isNaN` check, and two infinite times give a `NaN` difference that `timeDiff < 0` does not reject, so `NaN` is added to a total; the model has no such run.
- Trials.WellFormed: it requires at least one neutral filler and one run per pattern position. With no neutral fillers the code computes `counter % 0` when it reaches a filler position, which gives `NaN`, and then asks the image manager for filler `NaN`; the model does not describe that run. The requirement also excludes a harmless case: a pattern with no filler positions and an empty filler list, which the code runs normally.
- Experiment.ExperimentController.RestartExperiment: `participantInfo` is kept as it was. The participant information is stored in the data manager, and what `dataManager.clearData()` does to it is not part of this model.
- ExperimentUtils.ShowScreen: it does not model the hiding of every screen, which happens whether or not the target exists.
- **Countdowns during trials:** they are shown only when `showTimer` is set, and it is off. `hideTrialCountdown` acts on the shared utilities instance, which the controller model does not hold.
- **Parsing and time formatting:** `parseFloat` string coercion, `Date`, `toISOString` and `toLocaleDateString` are left out. The locale date is a parameter of `FormatDate`.
- **Login state:** hard-coded credentials and the `sessionStorage` login state are left out. The stored pair is a parameter.
- **Duplicate definitions** of `delay` and `waitForMouseViewReady`: the later definitions win, and neither affects modelled state.
- **`currentTrial`:** it is reset but never advanced by the code. The model keeps it at 0, as the code does.
- Quadrants.CalculateQuadrantTimes: samples are maps to already-numeric values, so JavaScript's string-to-number coercion inside `parseFloat` is not modelled.
- ExperimentUtils.ShuffleArray: it states a permutation, not the uniformity of the distribution, which depends on `Math.random`.
- Trials.TrialStep: it does not model an exception thrown after `recordTrialData`. Its effect on modelled state is the same as a trial without a fault.

## Findings

| source | as written | input that shows it | evidently intended | confidence | as-written member | corrected member |
|---|---|---|---|---|---|---|
| js/experiment-utils.js:354-365 | coordinates and times are read with `\|\|`, so a value of 0 counts as missing and the pair is skipped | samples (0,0,0), (0,0,10), (100,0,40) on a 100×100 viewport give all totals 0 | a sample at the left or top edge, or at time 0, is counted (`??` lookup, mode NullishCoalescing of CalculateQuadrantTimes, for which every lemma of Quadrants that takes a mode also holds), giving 10 top-left and 30 top-right | not executed | Quadrants.ZeroCoordinateReadsAsNaN | Quadrants.ZeroCoordinateCounted |

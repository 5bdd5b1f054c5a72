# Heavy-metal water report: a Dafny model

This project models the core of a water-quality reporting service. A user
submits heavy-metal readings for a location. The Node.js server converts them
to mg/L and computes four pollution indices against a fixed table of
permissible limits:

- the contamination degree (cd);
- the heavy-metal evaluation index (hei);
- the heavy-metal pollution index (hmpi);
- a critical-to-drink flag.

The server then asks collaborators for location data, trend and heatmap
predictions, and an AI analysis. It stores the assembled report for its owner
and later serves it back only to that owner.

The Python prediction server contains `validate_sample`, a rule-based screen
for a sample of readings. It applies hard rules per metal, an anomaly detector and a
regression consistency check, and returns a decision (`accept`, `warn` or
`reject`) with its reasons.

Files:

- `wrappers.dfy` (`Wrappers`): `Option`.
- `metals.dfy` (`Metals`): the nine metals; `Num`, a real or NaN.
- `calculations.dfy` (`Calculations`): `server/middlewares/calculations.js`.
  The three accumulating loops are methods proved equal to recursive
  specification functions. Properties of the indices are proved about those
  functions. So is the example report that the front end ships.
- `report.dfy` (`ReportRoutes`): from `server/routes/report.js`, the unit
  normalisation loop, `POST /new`, and the owner check of `GET /get/:id` and
  `POST /chat/:id`.
- `accs.dfy` (`SampleValidator`): `validate_sample` from
  `prediction_server/api/accs.py`. Its loops are methods proved equal to the
  specification function `Validate`. The lemmas state how the decision
  depends on the sample.

Collaborators are parameters of the model:

- user lookup: a found/not-found flag;
- report lookup: an `Option`;
- `predictAsss`, `predictFutureTrend`, `predictHeatmapCoords`,
  `analyseWithAI`, `getAiReplies`: total functions returning `Option`, where
  `None` is the `undefined` those wrappers return on failure;
- `Reports.create`: a success predicate;
- the isolation forest: a boolean `anomaly`;
- the per-metal regressors: a function `preds` from the metal to its
  prediction.

The code has no error paths for these cases; the model follows the code:

- On an empty list, `findHmpi` returns NaN (0 / 0) rather than failing, and
  `isCriticalToDrink` then returns 0. `Calculations.FindHmpi` and
  `Calculations.IsCriticalToDrink` model exactly that.
- A unit other than `"g/L"` leaves the value unchanged, whatever the string.
  This covers `"mg/L"`, `"ppm"` and unrecognised units alike; there is no
  invalid-unit error.
- A metal missing from the limit table does not raise an error in the code:
  it produces NaN arithmetic. The model's `Metal` type has only the nine
  metals of the table, so that case cannot be expressed.

## Model

| member | source | states |
|---|---|---|
| Calculations.Permissible | server/middlewares/calculations.js:2-12 | Each of the nine metals has a positive permissible limit, with the table's values. |
| Calculations.GLToMgL | server/middlewares/calculations.js:15-17 | The mg/L value divided by 1000 is the g/L value; a positive concentration grows; zero stays zero. |
| Calculations.GLToMgLStrictlyIncreasing | server/middlewares/calculations.js:15-17 | The conversion preserves strict order. |
| Calculations.RatioStrictlyIncreasing | server/middlewares/calculations.js:35 | For a fixed metal, a larger concentration gives a strictly larger C_i / S_i. |
| Calculations.RatioNonnegative | server/middlewares/calculations.js:35 | A non-negative concentration has a non-negative ratio. |
| Calculations.QMeaning | server/middlewares/calculations.js:70 | Q_i times the limit is 100 C_i, so Q_i exceeds 100 exactly when the reading exceeds its limit. |
| Calculations.WMeaning | server/middlewares/calculations.js:71 | W_i times the limit is 1, so a stricter limit gives a larger weight, and conversely. |
| Calculations.FindCd | server/middlewares/calculations.js:19-29 | The loop returns Cd, the sum over the list of C_i / S_i - 1. |
| Calculations.FindHei | server/middlewares/calculations.js:31-40 | The loop returns Hei, the sum over the list of C_i / S_i. |
| Calculations.CdOfEmpty | server/middlewares/calculations.js:19-40 | On an empty list, cd and hei are both 0. |
| Calculations.CdIsHeiMinusCount | server/middlewares/calculations.js:19-40 | cd equals hei minus the number of readings. |
| Calculations.HeiNonnegative | server/middlewares/calculations.js:31-40 | With non-negative concentrations, hei is non-negative. |
| Calculations.HeiUpdate | server/middlewares/calculations.js:31-40 | Replacing one reading changes hei by exactly the new ratio minus the old one. |
| Calculations.HeiStrictlyIncreasing | server/middlewares/calculations.js:31-40 | Raising one concentration, with the others fixed, strictly raises hei. |
| Calculations.CdStrictlyIncreasing | server/middlewares/calculations.js:19-29 | Raising one concentration, with the others fixed, strictly raises cd. |
| Calculations.FindSafetyDeg | server/middlewares/calculations.js:42-52 | The degree is 0, 1 or 2. It is 0 iff cd < 1, 1 iff 1 <= cd < 3, and 2 iff cd >= 3. |
| Calculations.FindPoluDeg | server/middlewares/calculations.js:54-64 | The degree is 0, 1 or 2. It is 0 iff hei < 10, 1 iff 10 <= hei < 20, and 2 iff hei >= 20. |
| Calculations.SafetyDegMonotone | server/middlewares/calculations.js:42-52 | Raising one concentration never lowers the safety degree. |
| Calculations.PoluDegMonotone | server/middlewares/calculations.js:54-64 | Raising one concentration never lowers the pollution degree. |
| Calculations.Li | server/middlewares/calculations.js:71-74 | The weight sum is non-negative; it is 0 exactly on an empty list and positive otherwise, so the hmpi division is defined exactly on a non-empty list. |
| Calculations.UiSnoc | server/middlewares/calculations.js:70-73 | Appending a reading adds W_i * Q_i = (1 / S_i) * (100 C_i / S_i) to the numerator. |
| Calculations.LiStep | server/middlewares/calculations.js:71-74 | Extending the prefix by one reading adds 1 / S_i to the denominator. |
| Calculations.FindHmpi | server/middlewares/calculations.js:66-79 | The loop returns NaN on an empty list and otherwise the finite weighted mean of the Q_i. |
| Calculations.UiLowerBound | server/middlewares/calculations.js:66-79 | If every Q_i is at least b, the numerator is at least b times the denominator. |
| Calculations.UiUpperBound | server/middlewares/calculations.js:66-79 | If every Q_i is at most b, the numerator is at most b times the denominator. |
| Calculations.HmpiLowerBound | server/middlewares/calculations.js:66-79 | A common lower bound of the Q_i is a lower bound of hmpi. |
| Calculations.HmpiUpperBound | server/middlewares/calculations.js:66-79 | A common upper bound of the Q_i is an upper bound of hmpi. |
| Calculations.HmpiBetweenMinAndMaxQ | server/middlewares/calculations.js:66-79 | hmpi is a weighted mean: it lies between the smallest and the largest Q_i. |
| Calculations.HmpiOfOne | server/middlewares/calculations.js:66-79 | For a single reading, hmpi is that reading's Q_i. |
| Calculations.IsCriticalToDrink | server/middlewares/calculations.js:81-85 | The flag is 0 or 1. It is 1 iff the list is non-empty and hmpi > 100. An hmpi of exactly 100 gives 0. |
| Calculations.AllAboveLimitIsCritical | server/middlewares/calculations.js:81-85 | If every reading exceeds its permissible limit, the flag is 1. |
| Calculations.AllWithinLimitIsNotCritical | server/middlewares/calculations.js:81-85 | If no reading exceeds its permissible limit, the flag is 0; this includes the empty list. |
| Calculations.StoredSampleDegrees | frontend/app/check_temp/page.tsx:49-53 | For the stored report's readings, exactly: hei = 8557/750 and cd = 1807/750, which agree with the stored 11.409… and 2.409…; sd = pd = 1. |
| Calculations.StoredSampleUi | frontend/app/check_temp/page.tsx:202-248 | For the stored readings, the hmpi numerator is exactly 5760104/45. |
| Calculations.StoredSampleLi | frontend/app/check_temp/page.tsx:202-248 | For the stored readings, the hmpi denominator is exactly 477. |
| Calculations.StoredSampleHmpi | frontend/app/check_temp/page.tsx:51-54 | hmpi is exactly 5760104/21465, between 268.34 and 268.35, which agrees with the stored 268.3486…; isCritical = 1. |
| ReportRoutes.Normalized | server/routes/report.js:35-47 | Normalisation keeps the length, the order and the names. A value in exactly "g/L" is multiplied by 1000; a value in any other unit is unchanged. |
| ReportRoutes.Normalize | server/routes/report.js:35-47 | The `push` loop builds exactly `Normalized(hms)`. |
| ReportRoutes.GramsPerLitreExample | server/routes/report.js:38-39 | A reading of 0.0001 g/L becomes 0.1 mg/L. |
| ReportRoutes.NormalizedMgL | server/routes/report.js:35-47 | On readings that are all in mg/L, normalisation changes no value. |
| ReportRoutes.PredictionInput | server/routes/report.js:61-70 | The prediction sample carries the coordinates, year 2025, the safety degree as `state`, the three assessed fields, and the source. |
| ReportRoutes.AssembledReport | server/routes/report.js:49-91 | The report object built by the route: the owner, cd, hei, hmpi (NaN on an empty list), both degrees and the flag of the normalised readings, the predictions of the built sample, the analysis, and those readings as `hmcs`. |
| ReportRoutes.NewReport | server/routes/report.js:25-101 | 400 "User not found!" iff the owner is unknown. A known owner with no assessment gets 500 "Server error.". With an assessment, the reply is 200 carrying exactly `AssembledReport` iff the store accepts it, and 500 "Server error." otherwise. |
| ReportRoutes.GetReport | server/routes/report.js:104-124 | Success iff the user exists, the report exists and the user owns it. Otherwise: 400 for an unknown user; exactly 404 "Not found!" with no payload for a missing report; 200 "Not authenicated" for another owner's report. |
| ReportRoutes.ChatReport | server/routes/report.js:159-182 | The same owner check. Exactly 400 "User not found!" for an unknown user and 404 "Not found!" for a missing report, both without payload. Only the owner gets the model's reply; every refusal has no payload. |
| ReportRoutes.OneOwner | server/routes/report.js:116 | The owner check of both routes (also line 171) is passed by the report's recorded owner and by no other user id. |
| ReportRoutes.CreatorCanReadBack | server/routes/report.js:104-119 | A report built for a user can be fetched and chatted about by that user, and by no other user. |
| SampleValidator.PollutantsEnumerate | prediction_server/api/accs.py:5 | `POLLUTANTS` lists each of the nine metals exactly once. |
| SampleValidator.Guide | prediction_server/api/accs.py:7-10 | Each metal has a positive guide value, with the table's values. |
| SampleValidator.InsaneRange | prediction_server/api/accs.py:23-26 | The plausible range of a metal runs from 10 to 100 times its guide value, a non-empty range of positive values. |
| SampleValidator.CheckMetal | prediction_server/api/accs.py:36-49 | Fatal iff the metal is missing, empty, negative or above 100 times its guide. Warning iff it is above its guide but within 100 times it. Each fatal case has its own reason (missing, empty, negative with the value, implausible with the value and the bound); a warning's reason carries the value and the guide. |
| SampleValidator.RejectionIsFinal | prediction_server/api/accs.py:36-46 | A rejection at some metal is the outcome of the whole hard-rule loop. |
| SampleValidator.HardRulesFirstFailure | prediction_server/api/accs.py:36-46 | The hard rules reject iff some metal fails one, with the reason of the first metal that fails. |
| SampleValidator.HardRulesPassedValues | prediction_server/api/accs.py:36-46 | After the hard rules pass, no metal is fatal, and every metal is present, numeric and within the plausible range. |
| SampleValidator.HardRulesWarnings | prediction_server/api/accs.py:36-49 | After the hard rules pass, the warnings are exactly the guide excesses, in the order of the metals. Each one is the reason of a metal that warns, and every warning metal's reason is there. |
| SampleValidator.Denominator | prediction_server/api/accs.py:70 | The denominator is max(abs(pred), 1e-9). |
| SampleValidator.RelDiffMeaning | prediction_server/api/accs.py:70-73 | rel_diff is non-negative, and rel_diff times the denominator is abs(pred - y). A metal is flagged iff abs(pred - y) exceeds 3 times the denominator. |
| SampleValidator.InconsistentWithoutDivision | prediction_server/api/accs.py:70-73 | When abs(pred) >= 1e-9, the test is abs(pred - y) > 3 abs(pred). |
| SampleValidator.RegressionReason | prediction_server/api/accs.py:69-76 | At most one reason per metal, present iff the relative difference exceeds 3. |
| SampleValidator.RegressionReasonsFlag | prediction_server/api/accs.py:62-76 | A metal's "inconsistent" reason appears iff its regression test fails. Some reason names the metal iff the test fails, and every reason naming it carries its prediction, value and rel_diff. |
| SampleValidator.HardRulesStep | prediction_server/api/accs.py:36-49 | One iteration: once the earlier metals have passed, a fatal rule decides the whole loop. Otherwise the metal's guide excess, if any, is appended to the warnings. |
| SampleValidator.ApplyHardRules | prediction_server/api/accs.py:36-49 | The first loop with early returns: the rejection is reported iff the hard rules reject; otherwise the collected warnings are returned. |
| SampleValidator.CheckRegressions | prediction_server/api/accs.py:62-76 | The third loop appends exactly the "inconsistent" reasons, in `POLLUTANTS` order. |
| SampleValidator.ValidateSample | prediction_server/api/accs.py:31-82 | The method as written returns exactly `Validate`, the verdict the lemmas below describe. |
| SampleValidator.ValidateCases | prediction_server/api/accs.py:78-82 | A rejection carries its one reason. Otherwise the verdict is accept with "passed" when nothing was collected, and warn with the collected reasons when something was. |
| SampleValidator.RejectOnFirstFailure | prediction_server/api/accs.py:36-46 | The verdict is a rejection whose only reason is that of the first failing metal; earlier warnings are dropped. |
| SampleValidator.HardFailureRejects | prediction_server/api/accs.py:37-46 | A missing, empty, negative or implausible value rejects the sample with exactly one reason. |
| SampleValidator.RejectIffHardFailure | prediction_server/api/accs.py:36-46 | The decision is reject iff some metal fails a hard rule. |
| SampleValidator.AcceptOrWarn | prediction_server/api/accs.py:56-82 | Once the hard rules pass, the decision is never reject. It is accept, with the single "passed" reason, iff nothing was collected, and warn with the collected reasons otherwise. |
| SampleValidator.ExceedingGuideWarns | prediction_server/api/accs.py:47-49 | A value above its guide but plausible makes the decision warn and is reported with its value and the guide. |
| SampleValidator.AnomalyWarns | prediction_server/api/accs.py:56-59 | When the hard rules pass, a flagged anomaly makes the decision warn and is reported. |
| SampleValidator.AnomalyReportedIff | prediction_server/api/accs.py:56-57 | When the hard rules pass, the anomaly reason is in the verdict iff the detector flags the sample. |
| SampleValidator.AcceptIffClean | prediction_server/api/accs.py:47-80 | When the hard rules pass, the verdict is accept with the single "passed" reason iff no metal exceeds its guide, the detector does not flag the sample, and no present metal fails its regression test. |
| SampleValidator.InconsistencyReported | prediction_server/api/accs.py:73-76 | When the hard rules pass, some "inconsistent" reason of the verdict names a metal iff its relative difference exceeds 3. Each such reason carries the metal's own prediction, value and rel_diff. |

## Left out

- Numbers are exact reals. IEEE double rounding is not modelled. For example, the stored report's cd is 2.409333333333334, while the double nearest the exact value 1807/750 is 2.4093333333333335. NaN appears only where the code produces it from 0 / 0 or from an empty cell.
- Concentrations are not checked for sign or type on the server. A non-numeric `val` (JavaScript coercion) is not modelled.
- In `calculations.js`, `ci`, `cif`, `ri`, `qi`, `wi`, `res` and `li` are assigned without a declaration, so they are implicit globals. The functions are synchronous, so this has no effect on results and is not modelled.
- The comment "g/L" above the limit table is not followed. The limits are read, as the code uses them, against values already converted to mg/L.
- A metal name outside the limit table, and the NaN and `undefined` degrees it would cause, cannot be expressed with the closed `Metal` type.
- Calls to the user store and the report store are parameters. An exception thrown by those lookups (a malformed id, for example) would give 500; that is not modelled for `POST /new`, `GET /get/:id` and `POST /chat/:id`.
- The store's identity fields (`_id`, `__v`) are not modelled. `NewReport` returns the assembled report in place of the saved document.
- Successful replies carry no `msg` in the source (`{ flag: "success", report: … }` and `{ flag: "success", rep: … }`). The model's `msg` is `""` there. The `report`/`rep` key names are not modelled; a success carries its payload in `body`.
- ReportRoutes.NewReport: a request body without `hms`, with a `null` entry in `hms`, or without `coords` makes the route throw (in the normalisation loop or at `coords.lat`), and the reply is 500 "Server error.". The typed `seq<RawMetal>` and `Coords` parameters cannot express a missing or `null` field, so this error path is not modelled.
- Authentication (`fetchUser`), `GET /getall` and `GET /count` are not part of this model. Neither are the user routes, the mailer, the front end, or the prediction server's HTTP layer in `main.py`.
- The internals of `predictAsss`, `predictFutureTrend`, `predictHeatmapCoords`, `analyseWithAI` and `getAiReplies` (HTTP calls, prompts, their own error handling) are not modelled. Each is a parameter returning `None` on failure.
- Loading the joblib models, the isolation forest and the regressors is not modelled. Their outputs are the inputs `anomaly` and `preds`. `preds(t)` stands for the regressor of `t` applied to the other eight metals of the first row.
- The text of each reason (f-strings with `.4g` and `.2f` formatting) is not modelled. Each `Reason` constructor carries the values that its message quotes.
- `SAFE_MEANS`, `SAFE_STDS` and `LOGNORMAL_MEANS` are not used by `validate_sample`, so they are not modelled. `validate_sample` checks only the upper end of `INSANE_RANGES`; `InsaneRange` keeps the lower end only to match the table.
- SampleValidator.ApplyHardRules: the first loop of `validate_sample` is a separate method, and the rejection it finds is returned by the caller. The source returns at five points (four rejections in the loop and the final verdict). `ValidateSample` returns at two: the four rejections come back as `ApplyHardRules`' result and are returned at once, and the final verdict is the second.
- SampleValidator.CheckRegressions: the regression loop is a separate method that returns the reasons it finds. `ValidateSample` appends them and sets `decision` to `warn` when there are any, as the loop body does.
- Only the value columns of the first row of the sample frame are modelled, as a map from metal to value. Columns other than the nine metals are not modelled.

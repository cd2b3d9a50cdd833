# Breakdown-recovery dispatch: a verified model of the planners and their services

This project models the decision logic of a breakdown-recovery dispatch backend.
The backend assigns recovery and repair jobs to a fleet of vehicles. The model covers:

- **optimize-v2** (`OptimizeV2`, in `optimize_v2.dfy`). Per job it does the following:
  - It picks a drop site through the preferred garage → secondary garage → customer home cascade. A garage qualifies while it still takes drop-offs before today's intake cutoff.
  - It filters the vehicles able to do the job.
  - It lets every vehicle that passes the last-minutes-of-shift rule and the first-leg mileage limit propose a route: direct, or a meet-and-swap hand-off at the coordinate midpoint.
  - It keeps the proposal with the lowest total ETA, the first such proposal winning ties.
- **The first optimizer** (`OptimizeOld`). A primary garage with one fallback. Vehicles with no route, or whose arrival runs past their shift, are dropped. The lowest pickup plus drop-off ETA wins.
- **The demonstration optimizer** (`OptimizePlain`). Fixed 8 and 22 minute ETAs and a 16:30 cutoff. The first feasible vehicle wins.
- **The opening-hours service** (`PlacesHours`). It turns provider "periods" into the weekly table. When a place has no usable hours it falls back to Monday 09:00–17:00 with a 30-minute cutoff.
- **The ETA matrix service** (`EtaMatrix`). Provider seconds become whole minutes of at least one. 9999 marks "unreachable".
- **The pending-vehicle pool** (`VehiclePool.Pool`). Add merges and replaces earlier entries by id; clear empties the pool.
- **The vehicle-shortage request log** (`VehicleRequests.RequestLog`). It infers the vehicle type, records the postcode area, appends the entry and builds the alert text.

Shared parts:

- `Clock`: instants as integer milliseconds on the local clock.
- `Fleet`: coordinates, vehicles, jobs, the travel oracle and the last-minutes rule.
- `Intake`: "HH:MM" parsing, today's intake cutoff and the garage map.
- `Greedy`: the two selection loops, "strictly lower key replaces `best`" and "first candidate wins", and the assignments/unassigned partition.
- `Text`: the JavaScript string operations used.
- `Options`.

Modelling choices:

- The routing service is a deterministic oracle `TravelOracle = (Coord, Coord) -> Travel(minutes, miles)`.
- "now", the geocode result, the place-details answers, the provider's matrix reply and the webhook outcome are all parameters.
- Instants are integers. The local epoch is a Thursday midnight. `getDay` and `setHours` become arithmetic.
- An unparseable time gives JavaScript's invalid date, modelled as `None`. Every comparison against it is false, as in the source.
- Each loop of the source is a method with loop invariants. Each method is proved equal to a specification function, for example `AssignJob` to `PlanJob` and `Optimize` to `Run`. The properties are lemmas about those functions.
- The two module-level mutable lists are classes whose `seq` field the handlers reassign: the vehicle pool in `add.ts`/`clear.ts` and `requests` in `request.ts`.

## Behaviour of the code worth knowing

- **Empty routes.** In optimize-v2 the leg list starts empty (api/optimize-v2.ts:231). It stays empty in three cases when a swap is needed: `enableMeetAndSwap` is off (line 253); no second vehicle is within the mileage limit (lines 263-274); or a second vehicle exists but the pickup-to-midpoint or midpoint-to-drop leg is over `maxLegMiles` (line 283). The vehicle still proposes an assignment with that empty list, and its total ETA is 0. Lines 344-349 keep the lowest total, so with travel times of at least a minute it beats every real route (`OptimizeV2.SwapRoute`, `OptimizeV2.EmptyRouteWins`). A non-empty route always ends at the drop (`OptimizeV2.RouteShape`, `OptimizeV2.RunAssignmentsKeepLimits`).
- **Shift flag.** `willExceedShift` is computed once per vehicle, from leg 1 plus the service minutes plus the direct pickup-to-drop minutes (api/optimize-v2.ts:322-329). A swap route gets the same flag (`OptimizeV2.ShiftFlagFromDirectMinutes`).
- **Second vehicle.** The loop choosing the swap's second vehicle checks only its mileage to the midpoint, and picks strictly the lowest minutes (api/optimize-v2.ts:263-272). The last-minutes-of-shift rule and the first-leg check apply to the first vehicle only (`OptimizeV2.SecondVehicleChoice`).
- **Swap flag.** The policies are the defaults overwritten by the caller's object (api/optimize-v2.ts:133-140). `enableMeetAndSwap` is then read with no `??` fallback, so a caller's `null` switches swaps off. The numeric fields are read with `??`, so a `null` there gives the default (`OptimizeV2.PolicyResolution`).
- **Requested vehicle type.** The shortage log's type comes from the free-text reason and the hint (api/vehicles/request.ts:37-42): HIAB when "hiab" occurs in any letter case or the hint is `hiab_grabber`, else Tow Van when "tow" or "recovery" occurs, else Van (`VehicleRequests.SuggestedTypeOrder`).
- **Matrix minutes.** The matrix service replies with a `minutes` table only (api/eta/matrix.ts:41-52). The optimizers' mileage reads are modelled through the travel oracle.
- **Empty lists.** optimize-v2 and the demonstration optimizer take a missing job or vehicle list as empty (api/optimize-v2.ts:129-131, api/optimize.ts:21-22), and an empty job list gives them two empty lists. optimize.old fails on an empty job list instead (see `OptimizeOld.OptimizeOld` under "## Left out").

## Model

| member | source | states |
|---|---|---|
| Clock.DayOfWeek | api/optimize-v2.ts:79 | the day of the week is in 0..6 |
| Clock.DayOfWeekSteps | api/optimize-v2.ts:79 | the epoch's day is a Thursday (4), and one day later is the next day of the week, Saturday wrapping to Sunday |
| Clock.StartOfDay | api/optimize-v2.ts:73-74 | local midnight is at or before the instant, less than a day before it, and on a day boundary |
| Clock.StartOfDayOf | api/optimize-v2.ts:73-74 | any instant of a date has that date's midnight and its day of the week |
| Clock.AtLocalTimeSameDate | api/optimize-v2.ts:71-76 | `setHours(h, m)` with a time inside 00:00-23:59 stays on the base date and weekday, h*60+m minutes after midnight |
| Fleet.NoNewJobInMilliseconds | api/optimize-v2.ts:212-217 | the last-minutes rule skips a vehicle exactly when at most `noNewJobLastMinutes` minutes (in ms) remain and overtime is not allowed |
| Text.NatToStringRoundTrip | api/vehicles/request.ts:56 | the decimal rendering of a count is a non-empty digit string that reads back as that count |
| Text.NumberOf | api/optimize-v2.ts:72 | `Number(s)` is a value exactly for digit strings, and that value is the string's decimal value |
| Text.NumberOfRendering | api/optimize-v2.ts:72 | `Number` of a count's decimal rendering is that count |
| Text.Slice | api/vehicles/request.ts:31 | `slice(a, b)` is the substring a..b when in range, the rest of the string from a when b runs past the end, empty when b <= a or a is past the end |
| Text.Upper | api/vehicles/request.ts:31 | upper-casing keeps the length, leaves no lower-case ASCII letter, and lower-cases back to the original's lower case, so each character is its own upper case |
| Text.ContainsIgnoreCaseSpec | api/vehicles/request.ts:38-40 | the case-insensitive literal regex test succeeds exactly when some window of the text, lower-cased, equals the pattern |
| Greedy.FirstMin | api/optimize-v2.ts:344-349 | the `best` loop yields nothing exactly when there are no candidates, and otherwise one of the candidates |
| Greedy.FirstMinIsFirstMinimum | api/optimize-v2.ts:344-349 | with `<` replacing `best`, the result has the lowest key and every earlier candidate has a strictly higher key |
| Greedy.FirstMinIsLowest | api/optimize-v2.ts:344-349 | no candidate's key is below the result's |
| Greedy.FirstSomeIsFirst | api/optimize.ts:66 | `if (!best) best = c` yields the first candidate, and nothing exactly when there are none |
| Greedy.PartitionStep | api/optimize-v2.ts:352-360 | each job's outcome pushes its result onto `assignments` or its id onto `unassigned`, after the earlier jobs' entries |
| Greedy.PartitionSize | api/optimize-v2.ts:352-360 | the assignments and unassigned lists together have one entry per job |
| Greedy.AssignedMembers | api/optimize-v2.ts:352-353 | every planned job's result is in `assignments`, and nothing else is |
| Greedy.UnassignedMembers | api/optimize-v2.ts:357-358 | every unplanned job's id is in `unassigned`, and nothing else is |
| Greedy.PartitionComplete | api/optimize-v2.ts:352-360 | both lists are complete and sound, and of total size the job count |
| Greedy.ExactlyOneList | api/optimize-v2.ts:352-360 | with distinct ids, a job's id is unassigned iff it has no result, and an assignment carries it iff it has one |
| Greedy.NothingAssigned | api/optimize.ts:69 | when no job has a result, `assignments` is empty and `unassigned` is every id in order |
| Intake.BeforeColon | api/optimize-v2.ts:72 | the first `split(":")` field has no colon and is a prefix of the string |
| Intake.AfterColon | api/optimize-v2.ts:72 | there is a rest after a colon exactly when the string has one |
| Intake.SplitAtColon | api/optimize-v2.ts:72 | splitting "a:b" with a colon-free `a` gives back `a` and `b` |
| Intake.BeforeColonOfPlain | api/optimize-v2.ts:72 | a colon-free string is its own first field |
| Intake.ParseDigitsHHMM | api/optimize-v2.ts:72 | "hh:mm" written in digits parses to its two numbers |
| Intake.HhmmToDate | api/optimize-v2.ts:71-76 | the date is valid exactly when the time parses; it is h*60+m minutes after the base date's midnight, past 23:59 included, and a time inside 00:00-23:59 stays on the base date |
| Intake.FirstOnDay | api/optimize-v2.ts:80 | `find` gives the first row for the day, and nothing exactly when no row has that day |
| Intake.TodaysCutoff | api/optimize-v2.ts:78-84 | closed today gives one ms before `date`; otherwise the first row's closing time less the cutoff minutes, invalid exactly when that time does not parse |
| Intake.ClosedDayAlwaysMissed | api/optimize.old.ts:41-44 | on a day without a row the garage never takes a drop-off |
| Intake.IntakeWindow | api/optimize-v2.ts:82-83 | a garage closing at HH:MM takes drop-offs exactly while the time of day is at most the cutoff minutes before HH:MM |
| Intake.MondayCutoffExample | api/optimize.old.ts:38-47 | a Monday 09:00-17:00 garage with a 30-minute cutoff cuts off at 16:30: open at 16:25, closed at 16:35 |
| Intake.CutoffOnMonday | api/optimize.old.ts:38-47 | on a Monday, a one-row Monday table closing 17:00 gives the cutoff 16:30 that day |
| Intake.GarageMapLookup | api/optimize-v2.ts:143 | the map's keys are exactly the garages' ids, each mapping to the last garage with that id |
| Intake.BuildGarageMap | api/optimize-v2.ts:142-143 | the loop builds exactly GarageMap |
| OptimizeV2.PolicyResolution | api/optimize-v2.ts:132-140 | defaults 30/60/0/10/30/true; an absent or null numeric field reads as its default; swaps are on iff the flag is absent or true |
| OptimizeV2.DropCascade | api/optimize-v2.ts:157-195 | preferred iff it takes the drop, else secondary iff it does, else home; the drop is that tier's coordinates; a garage's own cutoff minutes override the policy's |
| OptimizeV2.ChooseDrop | api/optimize-v2.ts:153-195 | the handler's cascade computes exactly SelectDrop |
| OptimizeV2.Eligible | api/optimize-v2.ts:197-206 | a vehicle is kept iff the job is a repair or the vehicle is recovery-capable; repairs keep the whole list |
| OptimizeV2.EligibleAppend | api/optimize-v2.ts:198-206 | the filter keeps order: it distributes over concatenation |
| OptimizeV2.EligibleOne | api/optimize-v2.ts:198-206 | a single vehicle is kept exactly when it can take the job |
| OptimizeV2.SecondVehicleChoice | api/optimize-v2.ts:260-272 | the second vehicle is an eligible vehicle other than `v` within the mileage limit of the midpoint, with the lowest minutes to it, the first such winning; there is none iff no other eligible vehicle is within the limit |
| OptimizeV2.PickSecondVehicle | api/optimize-v2.ts:260-272 | the inner loop computes exactly SecondVehicle |
| OptimizeV2.CandidateGates | api/optimize-v2.ts:210-222 | a vehicle proposes iff it passes the shift rule and its leg to the pickup is within the mileage limit; the proposal carries the job id and drop decision |
| OptimizeV2.RouteShape | api/optimize-v2.ts:224-320 | a route has 0, 2 or 4 legs, 2 iff pickup to drop is within the limit; every leg is within the limit; a non-empty route starts with `v` to the pickup and ends at the drop |
| OptimizeV2.DirectRoute | api/optimize-v2.ts:231-252 | within the limit the route is exactly the two direct legs driven by `v` |
| OptimizeV2.SwapRoute | api/optimize-v2.ts:253-320 | beyond the limit a route exists iff swaps are on, a second vehicle exists, and both midpoint legs are within the limit; it is v→pickup→mid, then the second vehicle →mid→drop |
| OptimizeV2.ShiftFlagFromDirectMinutes | api/optimize-v2.ts:322-329 | the shift flag compares now + leg1 + service + direct leg2 with shift end plus overtime, whatever route was planned |
| OptimizeV2.ReasonChoice | api/optimize-v2.ts:331-342 | the home-fallback text, else the swap text exactly for 4-leg routes, else the direct text |
| OptimizeV2.EvaluateVehicle | api/optimize-v2.ts:210-342 | the vehicle loop's body computes exactly Candidate |
| OptimizeV2.EtaSumAtLeastLength | api/optimize-v2.ts:346-347 | legs of at least a minute each sum to at least one minute per leg |
| OptimizeV2.BestProposal | api/optimize-v2.ts:344-349 | no proposal iff every eligible vehicle is skipped; otherwise the first proposal with the lowest total ETA, for this job and drop decision |
| OptimizeV2.PlanJobChoice | api/optimize-v2.ts:152-350 | a job is unplanned iff no eligible vehicle proposes, else it gets the lowest-ETA proposal for the cascade's drop |
| OptimizeV2.NoRecoveryVehicleNoAssignment | api/optimize-v2.ts:197-206 | a job needing recovery is never planned without a recovery-capable vehicle |
| OptimizeV2.EmptyRouteWins | api/optimize-v2.ts:344-349 | with travel times of at least a minute, an empty-route proposal makes the job's plan an empty route |
| OptimizeV2.LegsTakeTravelMinutes | api/optimize-v2.ts:231-318 | with oracle minutes of at least one, every leg of a proposal takes at least one minute |
| OptimizeV2.AssignJob | api/optimize-v2.ts:208-350 | the vehicle loop computes exactly PlanJob |
| OptimizeV2.PlanAll | api/optimize-v2.ts:152-361 | the job loop pushes exactly the plans and the unplanned ids, in job order |
| OptimizeV2.Optimize | api/optimize-v2.ts:129-361 | the handler's result is exactly Run of its inputs |
| OptimizeV2.RunPartition | api/optimize-v2.ts:352-360 | a run has one entry per job; with distinct ids a job is unassigned iff unplanned and assigned iff planned |
| OptimizeV2.RunAssignmentsKeepLimits | api/optimize-v2.ts:344-360 | every assignment is some job's plan, every leg within the mileage limit, and a non-empty route ends at that job's drop |
| OptimizeOld.ResolveOld | api/optimize.old.ts:83 | no policies give 60/0; a given field is used; a missing field reads 60 or 0 |
| OptimizeOld.NoPrimaryCoordsNoCandidate | api/optimize.old.ts:105-144 | without the primary garage's coordinates the ETA stays 9999 and every vehicle is skipped |
| OptimizeOld.CandidateOldGates | api/optimize.old.ts:95-156 | a candidate iff the shift rule passes, the primary arrival is within shift plus overtime, and the chosen ETA is below 9999; the candidate is not flagged for the shift |
| OptimizeOld.FallbackRule | api/optimize.old.ts:125-142 | the first fallback replaces the primary exactly when the primary arrival misses its cutoff and the fallback is known, has coordinates and meets its own cutoff |
| OptimizeOld.FallbackNeverThePrimary | api/optimize.old.ts:126-142 | a fallback id equal to the primary's is never chosen |
| OptimizeOld.EvaluateVehicleOld | api/optimize.old.ts:95-156 | the vehicle loop's body computes exactly CandidateOld |
| OptimizeOld.PlanJobOldChoice | api/optimize.old.ts:158-160 | unassigned iff every vehicle is skipped; otherwise the first candidate with the lowest pickup plus drop-off ETA |
| OptimizeOld.AssignJobOld | api/optimize.old.ts:93-161 | the vehicle loop computes exactly PlanJobOld |
| OptimizeOld.PlanAllOld | api/optimize.old.ts:92-164 | the job loop pushes exactly the plans and the unplanned ids, in job order |
| OptimizeOld.OptimizeOld | api/optimize.old.ts:80-164 | the handler's result is exactly RunOld of its inputs and the hours reply |
| OptimizeOld.RunOldPartition | api/optimize.old.ts:163 | one entry per job; with distinct ids a job is unassigned iff unplanned and assigned iff planned |
| OptimizePlain.PlainCutoffWindow | api/optimize.ts:46-51 | the arrival is now + 40 minutes, the cutoff 16:30 that date, and the cutoff is missed iff the time of day is past 15:50 |
| OptimizePlain.CandidatePlainGates | api/optimize.ts:33-64 | a candidate iff the shift rule passes and the arrival meets the cutoff; ETAs 8 and 22; the shift flag is recorded, not blocking |
| OptimizePlain.FirstFeasibleWins | api/optimize.ts:66 | the job gets the first vehicle's candidate that passes both gates, and nothing iff none does |
| OptimizePlain.AssignJobPlain | api/optimize.ts:30-67 | the vehicle loop computes exactly PlanJobPlain |
| OptimizePlain.OptimizePlain | api/optimize.ts:20-70 | the handler's result is exactly RunPlain of its inputs |
| OptimizePlain.LateRunAssignsNothing | api/optimize.ts:51-53 | after 15:50 local time nothing is assigned and every job id is unassigned, in order |
| OptimizePlain.RunPlainPartition | api/optimize.ts:69 | one entry per job; with distinct ids a job is unassigned iff no vehicle qualifies |
| PlacesHours.Pad2TwoDigits | api/places/hours.ts:6 | `pad2` of 0..99 is two digits spelling the number |
| PlacesHours.JsRem | api/places/hours.ts:9 | JavaScript's `%` is the mathematical remainder for a non-negative operand, and minus the remainder of the magnitude for a negative one |
| PlacesHours.SecToHHMMParsesBack | api/places/hours.ts:7-11 | for under 100 hours, `secToHHMM` writes a time that parses back to the hours and left-over minutes |
| PlacesHours.SecToHHMMAsTimeOfDay | api/places/hours.ts:7-11 | within a day, that time is the start of the minute the seconds fall in |
| PlacesHours.WeeklyRowsAppend | api/places/hours.ts:18-29 | the conversion works period by period: it distributes over concatenation |
| PlacesHours.WeeklyRowsMembers | api/places/hours.ts:18-29 | the rows are exactly those of the valid periods, at most one per period, none iff no period is valid |
| PlacesHours.ColonTimeReadsBack | api/places/hours.ts:26-27 | a four-digit "HHMM" becomes "HH:MM", which parses to its hours and minutes |
| PlacesHours.PeriodsToWeekly | api/places/hours.ts:15-31 | undefined iff no array or no valid period; otherwise the valid periods' rows in order |
| PlacesHours.RecordForFacts | api/places/hours.ts:47-69 | each record names its place, has a non-empty table and a 30-minute cutoff; a failed fetch or no valid period gets Monday 09:00-17:00 |
| PlacesHours.HoursHandler | api/places/hours.ts:38-72 | 400 iff no place ids; otherwise one record per id, in order |
| EtaMatrix.WholeMinutes | api/eta/matrix.ts:48 | the minutes are at least one |
| EtaMatrix.WholeMinutesIsNearest | api/eta/matrix.ts:48 | from 30 s on, the nearest minute with halves up; below 90 s, one minute |
| EtaMatrix.WholeMinutesOfWholeSeconds | api/eta/matrix.ts:48 | for whole seconds it is max(1, (secs + 30) div 60) |
| EtaMatrix.ElementMinutes | api/eta/matrix.ts:43-48 | an element's minutes are at least one |
| EtaMatrix.ElementMinutesChoice | api/eta/matrix.ts:43-48 | the traffic duration is preferred, then the plain one; without either the entry is 9999 |
| EtaMatrix.Matrix | api/eta/matrix.ts:17-21 | the 400 is returned exactly when origins or destinations are empty |
| EtaMatrix.MatrixShape | api/eta/matrix.ts:41-50 | one output row per provider row, one entry per element, each entry that element's minutes and at least one |
| EtaMatrix.EmptyInputIgnoresProvider | api/eta/matrix.ts:19-21 | empty input is refused whatever the provider would answer |
| VehiclePool.Survivors | api/vehicles/add.ts:62 | an old vehicle survives iff no new vehicle has its id; never more than the old ones |
| VehiclePool.SurvivorsAppend | api/vehicles/add.ts:62 | the filter keeps order: it distributes over concatenation |
| VehiclePool.MergeSpec | api/vehicles/add.ts:60-64 | the new vehicles end the pool in order; old ones stay iff no new one shares their id; nothing else is in it |
| VehiclePool.MergeSize | api/vehicles/add.ts:61-64 | the pool has at least the new vehicles and at most old plus new |
| VehiclePool.SurvivorsOfSelf | api/vehicles/add.ts:62 | a list filtered by itself is empty |
| VehiclePool.SurvivorsTwice | api/vehicles/add.ts:62 | filtering twice by the same list removes nothing more |
| VehiclePool.MergeIdempotent | api/vehicles/add.ts:59-66 | adding the same list again leaves the pool as it is |
| VehiclePool.MessagePlurals | api/vehicles/add.ts:69 | the add message is plural only above one vehicle; the clear message (clear.ts line 29) for every count but one |
| VehiclePool.Pool.constructor | api/vehicles/add.ts:57 | a pool never written reads as empty |
| VehiclePool.Pool.Add | api/vehicles/add.ts:43-73 | 405 and 400 leave the pool unchanged; otherwise the pool becomes the merge and the reply reports the count added, the new size and the pool |
| VehiclePool.Pool.Clear | api/vehicles/clear.ts:17-31 | 405 leaves the pool unchanged; otherwise the pool is emptied and the reply reports how many were dropped |
| VehicleRequests.SuggestedTypeOrder | api/vehicles/request.ts:37-42 | HIAB iff "hiab" occurs in any letter case or the hint is hiab_grabber; else Tow Van iff "tow" or "recovery" occurs; else Van |
| VehicleRequests.SuggestedTypeExamples | api/vehicles/request.ts:37-42 | "HIAB" gives HIAB, "Tow" gives Tow Van, the hint alone gives HIAB, nothing gives Van |
| VehicleRequests.PostcodeAreaSpec | api/vehicles/request.ts:23-34 | "Unknown" when the lookup throws; "" without a postal code; otherwise its first three characters upper-cased |
| VehicleRequests.Lines | api/vehicles/request.ts:49-53 | one summary line per request, in order |
| VehicleRequests.SummaryAppend | api/vehicles/request.ts:49-54 | a new request's line is appended to the summary, after "; " unless it is the first |
| VehicleRequests.RequestLog.constructor | api/vehicles/request.ts:14 | the log starts empty |
| VehicleRequests.RequestLog.Request | api/vehicles/request.ts:16-67 | non-POST gives 405 and no entry; a POST appends exactly one entry, leaving earlier ones unchanged, and replies with the alert over the whole log, or the failure when the webhook call throws |

## Left out

- OptimizeOld.OptimizeOld: the 500 reply for an empty job list is not modelled, because the hours reply is a parameter. With no jobs, `placeIds` is empty (api/optimize.old.ts:89), the hours service answers 400 (api/places/hours.ts:40), `fetchHours` throws (api/optimize.old.ts:68) and the catch answers 500 (api/optimize.old.ts:167-169). The model returns two empty lists instead.
- HTTP plumbing is not modelled: request parsing, the `typeof req.body` / `JSON.parse` step, status codes other than those in the reply datatypes, response notes, `console.log`, and the missing-API-key 500 replies of the hours and matrix services.
- Network calls are parameters: the matrix calls of the optimizers, `fetchHours`, the place-details fetch, the distance-matrix fetch, the reverse geocode and the alert webhook. The optimizers' routing is the total oracle `TravelOracle`.
- A lookup that throws aborts a whole optimizer run with a 500; the model's oracle always answers, so that path is not modelled.
- The 500 replies of the hours, add and clear handlers on an unexpected exception are not modelled.
- An invalid `shiftEnd` string (NaN) is not modelled: shift ends are integers, or `None` for a missing one in the two older optimizers.
- Time zones and daylight-saving changes are not modelled: the clock is one fixed local time line.
- Floating point is not modelled: minutes and milliseconds are exact integers, miles and coordinates exact reals, and the midpoint is exact.
- The placeId de-duplication in optimize.old.ts (line 89) and the request it sends to the hours service are not modelled: `OptimizeOld.OptimizeOld` takes the hours reply as a parameter.
- Text.Upper and Text.ContainsIgnoreCase: case mapping covers ASCII letters only, not JavaScript's full Unicode `toUpperCase` and `/i` folding.
- Text.NumberOf: `Number(s)` is modelled for digit strings only, every other string being NaN. Signs, spaces, decimals and exponents are not handled.
- The unused `vehicleSize`, `priority` and `capabilities` fields and the helper `joinLatLng` (which only builds the provider URL) are left out.
- The `utc_offset_minutes` the hours service requests and ignores is left out.
- api/vehicles/list.ts, update.ts and add-and-rerun.ts are not part of this model, nor is anything else outside the files cited above.
- The optimize-v2 crash on missing miles is not modelled, because the oracle supplies mileage instead. The matrix service replies with `minutes` only (api/eta/matrix.ts:52), so `matrix()` returns `miles: []` (api/optimize-v2.ts:110). Reading `m1.miles[0][0]` (api/optimize-v2.ts:221) then throws a TypeError, and the catch (lines 373-375) answers with a 500. So with the matrix service as written, every optimize-v2 run in which some vehicle passes the last-minutes rule returns a 500.
- VehicleRequests.RequestLog.Request: `shiftRisk` is modelled as a JSON value with JavaScript truthiness, but NaN is not a value of it. A `reason` that is not a string is not modelled.

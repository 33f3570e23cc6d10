# Vehicular Proof-of-Authority ledger — Dafny model

A model of the application logic of the `VehicleContract` chaincode
(`vehicleContract.js`). Vehicles submit event reports tagged with a place
and time. A registry of Road-Side Units (RSUs) holds the only identities
allowed to adjudicate a report VALID or FALSE, and each decision moves the
submitting vehicle's reputation.

The ledger's world state is one map from keys to records
(`State.Store = map<string, Record>`). Vehicles, reports and the singleton
`RSU_REGISTRY` record share that one keyspace. Each contract invocation is
a pure function from a store to `Result<Store>`. A failed invocation
returns an error and no store, so a failure never changes anything.

Modules, following the contract's parts:

- `State`: records, errors, the store, and the left-to-right first-match scan.
- `Invariants`: the well-formedness invariant of reachable states (`WellFormed`) and the "only moves forward" relation between a state and a later one (`Extends`).
- `Authorities`: `initAuthorities`, `registerRSU`, `deactivateRSU`, `isAuthority`, `getRSUFromCaller`, `requireAuthority`.
- `Matcher`: the corroboration test, `findSimilarReports`, and the `getPendingReports` filter.
- `Reports`: `vehicleExists`, `registerVehicle`, `submitReport` (corrected, plus the code as written; see Findings).
- `Validation`: `validateReportByRSU`.
- `Advisor`: `getValidationRecommendation`.
- `Ledger`: invocations as transactions, and reachability, monotonicity and the worked scenarios.
- `Fixtures`: the small example ledgers and the flat distance the worked examples use.

Parameters stand in for what the contract gets from its environment:

- `now: int`: the clock, in milliseconds.
- `caller: string`: the client identity.
- `scan: seq<string>`: the key order of the full range scan.
- `dist: (Coord, Coord) -> real`: great-circle distance in km.

The time window compares integer milliseconds. `|Δt| / 60000 <= 30` in the
source is exactly `|Δt| <= 1_800_000`.

Registry entries are kept as a sequence in registration order. This is the
iteration order of the JS object. `rsus[id]` is the entry whose `rsuId` is
`id`. Registration sets `identity` to the `rsuId`, so in a well-formed
registry the caller's ACTIVE entry is the one keyed by the caller
(`Authorities.DeciderIsKeyedByCaller`). `ValidateReportByRSU` therefore
credits the entry the identity scan found. The source looks that entry up
again by `rsu.rsuId`, which reaches the same entry.

## Model

| member | source | states |
|---|---|---|
| State.FirstIndex | vehicleContract.js:120-125 | The scan returns the first entry satisfying the test, none before it satisfies it, and None exactly when no entry does |
| Authorities.InitAuthorities | vehicleContract.js:8-29 | Fails AlreadyInitialized iff any record exists under RSU_REGISTRY; otherwise adds an empty registry (no RSUs, count 0) and changes no other key |
| Authorities.IndexOfRsu | vehicleContract.js:48 | Finds the entry stored under an rsuId; None exactly when no entry carries that id |
| Authorities.AuthorityIndex | vehicleContract.js:120-125 | Finds the first ACTIVE entry whose identity is the caller's; None exactly when there is none |
| Authorities.RegisterRSU | vehicleContract.js:32-71 | Fails NotInitialized without a registry and DuplicateRsu for a present rsuId, succeeding exactly otherwise; then appends an ACTIVE entry with identity = rsuId and validationCount 0, raises count by exactly 1, and leaves earlier entries and all other keys unchanged |
| Authorities.DeactivateRSU | vehicleContract.js:79-99 | Fails NotInitialized / RsuNotFound, succeeding exactly when the rsuId is registered, including when it is already INACTIVE; then only that entry changes, to INACTIVE with a deactivation stamp, and count is kept |
| Authorities.IsAuthority | vehicleContract.js:107-128 | True exactly when a registry exists and some entry has identity = caller and status ACTIVE |
| Authorities.GetRSUFromCaller | vehicleContract.js:131-151 | Returns an RSU exactly when IsAuthority holds, and that RSU is an ACTIVE registry entry whose identity is the caller's |
| Authorities.RequireAuthority | vehicleContract.js:154-160 | Passes exactly when the caller is an active authority, and otherwise fails Unauthorized |
| Authorities.DeciderIsKeyedByCaller | vehicleContract.js:53-56 | Because registration sets identity = rsuId, the caller's ACTIVE entry is the one keyed by the caller: the identity scan and the keyed lookup agree |
| Authorities.RegisteredRsuIsAuthority | vehicleContract.js:53-63 | A freshly registered RSU passes the authority check under its own id |
| Authorities.DeactivationRevokesAuthority | vehicleContract.js:93 | After deactivation, the RSU's identity no longer passes the authority check |
| Authorities.DeactivateAgainSucceeds | vehicleContract.js:83-95 | Deactivating twice succeeds both times and leaves the entry INACTIVE |
| Authorities.InitPreservesWellFormed | vehicleContract.js:21-27 | Initialization keeps the ledger well formed and only extends it |
| Authorities.RegisterRsuPreservesWellFormed | vehicleContract.js:53-69 | Registration keeps ids distinct, identity = rsuId and count = table size |
| Authorities.DeactivatePreservesWellFormed | vehicleContract.js:93-97 | Deactivation keeps the registry well formed; an INACTIVE entry stays INACTIVE |
| Reports.VehicleExistsIsKeyPresence | vehicleContract.js:588-591 | `vehicleExists` tests the key alone: a vehicle id, a report id and the registry key all pass. Vehicle registration refuses exactly the ids it accepts, and the submission as written accepts exactly those |
| Reports.RegisterVehicle | vehicleContract.js:178-193 | Fails DuplicateVehicle iff the key holds any record; otherwise stores reputation 50, totalReports 0, falseReports 0 and changes nothing else |
| Matcher.Collect | vehicleContract.js:306-348 | The scan keeps exactly what the test picks from each visited key's record: everything kept comes from a scanned record, and every scanned record that passes is kept |
| Matcher.FindSimilarReports | vehicleContract.js:302-349 | Every returned id belongs to a scanned report with a non-empty, different reportId, the same eventType, a different vehicleId, distance ≤ 0.5 km and time difference ≤ 30 minutes; every scanned report meeting these is returned |
| Matcher.GetPendingReports | vehicleContract.js:423-449 | Returns exactly the scanned reports with a non-empty reportId whose status is PENDING |
| Matcher.CorroborationSymmetric | vehicleContract.js:317-336 | With a symmetric distance, corroboration between two stored reports does not depend on which is the newer one |
| Matcher.FullScanFindsAllCorroborators | vehicleContract.js:306 | A range scan over every key misses no corroborating report |
| Reports.SubmitReport | vehicleContract.js:195-243 | Fails VehicleNotFound unless a vehicle is stored under vehicleId and DuplicateReport if reportId is taken (see Findings); otherwise stores the report PENDING with no verdict, corroborating = exactly the scanned reports that corroborate it, corroborationCount = its length, raises the vehicle's totalReports by exactly 1 and changes nothing else |
| Reports.SubmitReportAsWritten | vehicleContract.js:195-236 | The code as written: fails only when no record exists under vehicleId. Otherwise it writes under reportId, whatever that key held, the same report the corrected submission files: the given fields, stamped now, PENDING with no verdict, and exactly the corroborating scanned reports, counted. It then writes back the record under vehicleId (a vehicle with totalReports + 1) and changes no other key |
| Reports.CorrectedSubmissionAgrees | vehicleContract.js:195-236 | Where the corrected guards pass, the corrected and the as-written submission give the same ledger |
| Reports.ReportIdOverwritesRegistry | vehicleContract.js:235-236 | The as-written submission of a report under the id RSU_REGISTRY replaces the registry and removes every authority; the corrected one fails DuplicateReport |
| Reports.NonVehicleSubmitterAccepted | vehicleContract.js:197-200 | The as-written submission accepts a report whose vehicleId names another report, leaving a report without a vehicle; the corrected one fails VehicleNotFound |
| Reports.RegisterVehiclePreservesWellFormed | vehicleContract.js:184-191 | Vehicle registration keeps the ledger well formed and only extends it |
| Reports.SubmitPreservesWellFormed | vehicleContract.js:202-236 | A submitted report never lists itself or a report of its own vehicle, lists only stored reports of its event type, and names a stored vehicle |
| Validation.ValidateReportByRSU | vehicleContract.js:352-405 | Fails Unauthorized unless an ACTIVE entry has identity = caller, then ReportNotFound, then AlreadyValidated unless the record is a PENDING report, and succeeds exactly otherwise; then the report goes to VALID (+5 reputation) or FALSE (−10, falseReports +1), records the deciding RSU, that RSU's validationCount grows by exactly 1 with no other entry changed, and only the registry, report and vehicle keys change |
| Validation.ValidationIsFinal | vehicleContract.js:364-367 | Once a report is decided, any later validation of it fails, whatever the caller or decision |
| Validation.NoMissingVehicle | vehicleContract.js:369-370 | On a well-formed ledger the report's vehicle is always present, so the unchecked vehicle read cannot fail |
| Validation.CallerIsCredited | vehicleContract.js:389-395 | On a well-formed ledger the credited entry is the one registered under the caller's id, and the verdict names the caller |
| Validation.ValidatePreservesWellFormed | vehicleContract.js:372-398 | Adjudication keeps the ledger well formed; the report makes its single move out of PENDING and counters only grow |
| Advisor.GetValidationRecommendation | vehicleContract.js:508-560 | HIGH reputation (+2) is listed iff reputation ≥ 70, LOW (−2) iff it is < 30, and the false-report history (−3) iff falseReports > 3. The last reason is Isolated (−1) with no corroborators and Single (+1) with one. With two or more it is Trustworthy(n) (+3) when n ≥ 2 of them are trustworthy, and Mixed (+1) otherwise. The score is the total weight of the listed reasons and lies in [−6, 5]. There are 1 to 3 reasons, in evaluation order. The label is LIKELY VALID iff score ≥ 3, LIKELY FALSE iff score ≤ −2, NEUTRAL otherwise |
| Advisor.MoreCorroborationNeverHurts | vehicleContract.js:527-544 | One more corroborating report never lowers the score |
| Advisor.ScoreMonotoneInReputation | vehicleContract.js:512-519 | A higher reputation never lowers the score |
| Advisor.ScoreAntitoneInFalseReports | vehicleContract.js:521-525 | More false reports never raise the score |
| Advisor.TrustedCorroborationExample | vehicleContract.js:528-548 | Reputation 80, no false reports and two trustworthy corroborators give score 5 and LIKELY VALID |
| Ledger.CommitPreservesWellFormed | vehicleContract.js:178-405 | In the transition system built on the corrected submission (see Findings), every transaction, committed or failed, keeps the ledger well formed and only extends it |
| Ledger.RunPreservesWellFormed | vehicleContract.js:178-405 | With the corrected submission, over any sequence of transactions no key disappears or changes kind, totalReports/falseReports/validationCount never fall, INACTIVE stays INACTIVE, and reports only move PENDING → VALID/FALSE |
| Ledger.ReachableIsWellFormed | vehicleContract.js:178-405 | With the corrected submission, every ledger reachable from the empty one is well formed |
| Ledger.DecidedReportIsFrozen | vehicleContract.js:364-367 | With the corrected submission, a VALID or FALSE report stays exactly as it is under any later transactions. The code as written does not keep this (Ledger.DecisionReopenedAsWritten) |
| Ledger.DecisionReopenedAsWritten | vehicleContract.js:235-236 | With the submission as written, a new report filed under a VALID report's id stores it PENDING again. The same RSU can then decide it FALSE, so reputation moves 50 → 55 → 45. The corrected submission fails DuplicateReport |
| Ledger.CorroborationScenario | vehicleContract.js:302-349 | Two vehicles report the same accident at the same spot 5 minutes apart: the second lists the first, and the first is not linked back |
| Ledger.ValidationScenario | vehicleContract.js:352-405 | An RSU validates a pending report: VALID, reputation 50 → 55, validationCount 1; a later rejection fails AlreadyValidated |

## Left out

- Haversine distance (vehicleContract.js:282-299) is floating-point trigonometry. It is the `dist` parameter, and only its comparison with 0.5 km is modelled. Coordinates that `parseFloat` cannot read are not modelled. They become NaN, `JSON.stringify` stores NaN as `null`, and the distance arithmetic reads a stored `null` as 0. So a stored report with unreadable coordinates sits at latitude or longitude 0 and can corroborate a new report there.
- Coordinates are opaque pairs of reals. Parsing is not modelled.
- Timestamps are integer milliseconds passed in as `now`. The separate `new Date()` calls in one invocation are one instant.
- The range scan's key order is the `scan` parameter. Properties are stated for the keys it visits. `Matcher.Enumerates` says when it visits every key. The range scan visits each key once. A `scan` that repeats a key makes the model list that report twice, and `corroborationCount` counts it twice, so the scans of interest are free of duplicates.
- Fabric plumbing is not modelled: buffers, JSON (de)serialisation, client identity objects and their MSP ids, returned message strings (`getStatusMessage`, `securityNote`, `note`, `confidence`). The Fabric rule that rejects an empty key is also out.
- `initAuthorities` reads the submitter's MSP id and id but never stores them, so the model has nothing to keep.
- Legacy wrappers are pure delegation or overridden code: `addAuthority`, `removeAuthority`, `listAuthorities`, `validateReportByAuthority`, `reviewPendingReport`, `getReportsNeedingReview`, and both `verifyReport` definitions. The later `verifyReport` (line 413) replaces the earlier one (line 245) and delegates to `validateReportByRSU`.
- `getReportValidationInfo`, `getReport`, `getVehicle` and `listRSUs` are lookup plumbing. The advisor receives already-resolved corroborator details. The `|| 0` defaults for a missing corroborating vehicle are left to whoever builds those details.
- Validation.ValidateReportByRSU: fails VehicleNotFound whenever the report's vehicleId holds no vehicle. The source differs in two ways:
  - An absent key cannot arise, even in the code as written. No operation deletes a key, and submission requires the vehicleId key to exist. The source would crash parsing empty bytes, which is unreachable.
  - When the key holds another kind of record, the source goes ahead and treats that record as the vehicle. It writes a NaN (stored as `null`) reputation and then overwrites the key (vehicleContract.js:369-398). For vehicleId `RSU_REGISTRY`, this write replaces the registry with the copy read before the validationCount bump, undoing it.

  The second state comes only from the uncorrected submission (Reports.NonVehicleSubmitterAccepted). `Validation.NoMissingVehicle` shows that neither arises on a well-formed ledger.
- Validation.ValidateReportByRSU: `isValid` is a boolean. The source (vehicleContract.js:372) accepts `true` or the string `'true'`, and any other value rejects the report with −10, including the strings "True" or "1". A caller passing strings must map them this way first.
- JS prototype keys such as `constructor` or `__proto__` as an rsuId are not modelled. Nor is the ordering rule that puts integer-like object keys first. Neither affects which entry matches in a well-formed registry.
- Numbers are unbounded integers. The source's doubles agree with them for any realistic count or reputation.
- Concurrency and transaction isolation belong to the ledger platform. Each invocation is one atomic step.

## Findings

| source | as written | input that shows it | evidently intended | confidence | as-written member | corrected member |
|---|---|---|---|---|---|---|
| vehicleContract.js:235-236 | `submitReport` writes the report under `reportId` without checking whether the key is already in use | With a registry and vehicle V1, submit a report with reportId `RSU_REGISTRY` by V1: the registry is replaced and no RSU can validate again. Submitting under the id of a VALID report reopens it as PENDING, so it can be decided a second time | Refuse a report id that is already a key (DuplicateReport) | high (not executed) | Reports.SubmitReportAsWritten, Reports.ReportIdOverwritesRegistry, Ledger.DecisionReopenedAsWritten | Reports.SubmitReport |
| vehicleContract.js:197-200 | The submitter check `vehicleExists` accepts a key holding any kind of record | With vehicle V1 and report R1, submit R2 with vehicleId `R1`: it is stored, and its vehicleId names no vehicle | Require a vehicle record under vehicleId (VehicleNotFound otherwise) | high (not executed) | Reports.SubmitReportAsWritten, Reports.NonVehicleSubmitterAccepted | Reports.SubmitReport |

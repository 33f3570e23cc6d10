/**
  The world state of the vehicular Proof-of-Authority ledger.

  Vehicles, reports and the singleton RSU registry share one keyspace: the
  ledger is a single map from keys to records. A vehicle is stored under its
  vehicleId, a report under its reportId and the registry under the fixed
  key "RSU_REGISTRY". Timestamps are integer milliseconds supplied by the
  caller, and coordinates are kept as opaque pairs of reals.
 */
module State {

  datatype Option<+T> = None | Some(value: T)

  /** The error conditions the contract raises, one per thrown error. */
  datatype Error =
    | AlreadyInitialized
    | NotInitialized
    | RegistryCorrupt     // the registry key holds a record of another kind
    | DuplicateRsu
    | RsuNotFound
    | Unauthorized
    | DuplicateVehicle
    | VehicleNotFound
    | DuplicateReport
    | ReportNotFound
    | AlreadyValidated

  datatype Result<+T> = Ok(value: T) | Err(error: Error)

  /** A pass/fail answer for checks that produce no value. */
  datatype Outcome = Pass | Fail(error: Error)

  datatype Coord = Coord(latitude: real, longitude: real)

  datatype RsuStatus = Active | Inactive

  /** A Road-Side Unit: the authority allowed to adjudicate reports. */
  datatype Rsu = Rsu(
    rsuId: string,
    mspId: string,
    identity: string,            // the caller identity that authenticates this RSU
    location: string,
    coord: Coord,
    registeredAt: int,
    registeredBy: string,
    validationCount: int,
    status: RsuStatus,
    deactivatedAt: Option<int>,
    lastValidation: Option<int>)

  /** The singleton registry; `rsus` lists the entries in registration order. */
  datatype Registry = Registry(rsus: seq<Rsu>, count: int, lastUpdated: int)

  datatype Vehicle = Vehicle(vehicleId: string, reputation: int, totalReports: int, falseReports: int)

  /** `False` is the status of a report an authority rejected. */
  datatype ReportStatus = Pending | Valid | False

  /** Who adjudicated a report, where, and when (validatedBy/rejectedBy and friends). */
  datatype Verdict = Verdict(rsuId: string, rsuLocation: string, at: int)

  datatype Report = Report(
    reportId: string,
    vehicleId: string,
    eventType: string,
    location: string,
    coord: Coord,
    timeStamp: int,
    status: ReportStatus,
    corroborating: seq<string>,  // ids of the reports that matched at submission time
    corroborationCount: int,
    verdict: Option<Verdict>)

  datatype Record =
    | VehicleRecord(vehicle: Vehicle)
    | ReportRecord(report: Report)
    | RegistryRecord(registry: Registry)

  type Store = map<string, Record>

  const RegistryKey: string := "RSU_REGISTRY"
  const InitialReputation: int := 50
  const ValidReward: int := 5
  const FalsePenalty: int := 10

  predicate IsVehicleAt(s: Store, k: string) {
    k in s && s[k].VehicleRecord?
  }

  predicate IsReportAt(s: Store, k: string) {
    k in s && s[k].ReportRecord?
  }

  predicate IsPendingAt(s: Store, k: string) {
    IsReportAt(s, k) && s[k].report.status == Pending
  }

  predicate HasRegistry(s: Store) {
    RegistryKey in s && s[RegistryKey].RegistryRecord?
  }

  function RegistryIn(s: Store): Registry
    requires HasRegistry(s)
  {
    s[RegistryKey].registry
  }

  /** Every key of `s` outside `changed` still holds the same record in `s'`. */
  ghost predicate UnchangedExcept(s: Store, s': Store, changed: set<string>) {
    forall k :: k in s && k !in changed ==> k in s' && s'[k] == s[k]
  }

  /** Some entry of the table carries the given rsuId (the JS `rsus[rsuId]` test). */
  ghost predicate Registered(reg: Registry, rsuId: string) {
    exists i :: 0 <= i < |reg.rsus| && reg.rsus[i].rsuId == rsuId
  }

  /** Entry `i` is an active RSU whose identity is the caller's. */
  predicate IsDecider(reg: Registry, caller: string, i: int) {
    0 <= i < |reg.rsus| && reg.rsus[i].identity == caller && reg.rsus[i].status == Active
  }

  /**
    The first position of `rsus` satisfying `p`: a left-to-right scan that
    stops at the first hit, as the registry lookups do.
   */
  function FirstIndex(rsus: seq<Rsu>, p: Rsu -> bool): (r: Option<nat>)
    ensures r.Some? ==> r.value < |rsus| && p(rsus[r.value])
    ensures r.Some? ==> forall j :: 0 <= j < r.value ==> !p(rsus[j])
    ensures r.None? <==> forall j :: 0 <= j < |rsus| ==> !p(rsus[j])
    decreases |rsus|
  {
    if |rsus| == 0 then None
    else if p(rsus[0]) then Some(0)
    else match FirstIndex(rsus[1..], p)
      case None => None
      case Some(i) => Some(i + 1)
  }
}

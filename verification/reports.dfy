/**
  Vehicle registration and report submission.

  A submitted report is always stored PENDING: corroboration is recorded
  for the authorities' reference and never decides anything by itself.
  `SubmitReport` is the submission the rest of the model uses; it refuses a
  report id that is already a key and a vehicle id that does not name a
  vehicle. `SubmitReportAsWritten` is the contract's code as it stands,
  kept to exhibit what those two guards prevent.
 */
module Reports {
  import opened State
  import opened Invariants
  import opened Matcher
  import Authorities
  import opened Fixtures

  /** Existence is by key alone: a record of any kind under the id counts. */
  predicate VehicleExists(s: Store, vehicleId: string) {
    vehicleId in s
  }

  /** Creates a vehicle with the initial reputation and no reports, under a fresh key. */
  function RegisterVehicle(s: Store, vehicleId: string): (r: Result<Store>)
    ensures r.Err? <==> vehicleId in s
    ensures r.Err? ==> r.error == DuplicateVehicle
    ensures r.Ok? ==> && r.value.Keys == s.Keys + {vehicleId}
                      && UnchangedExcept(s, r.value, {vehicleId})
                      && IsVehicleAt(r.value, vehicleId)
                      && r.value[vehicleId].vehicle == Vehicle(vehicleId, InitialReputation, 0, 0)
  {
    if VehicleExists(s, vehicleId) then Err(DuplicateVehicle)
    else Ok(s[vehicleId := VehicleRecord(Vehicle(vehicleId, InitialReputation, 0, 0))])
  }

  /** A fresh PENDING report carrying the given corroboration snapshot. */
  function NewReport(reportId: string, vehicleId: string, eventType: string, location: string,
                     coord: Coord, now: int, corroborating: seq<string>): Report
  {
    Report(reportId, vehicleId, eventType, location, coord, now, Pending,
           corroborating, |corroborating|, None)
  }

  /**
    `rep` is the report a submission files: the given fields, stamped
    `now`, PENDING with no verdict, and a corroboration list holding exactly
    the reports of the scan over `s` that corroborate it, counted by its length.
   */
  ghost predicate Filed(s: Store, scan: seq<string>, dist: (Coord, Coord) -> real, rep: Report,
                        reportId: string, vehicleId: string, eventType: string,
                        location: string, coord: Coord, now: int)
  {
    && rep.reportId == reportId && rep.vehicleId == vehicleId && rep.eventType == eventType
    && rep.location == location && rep.coord == coord && rep.timeStamp == now
    && rep.status == Pending && rep.verdict == None
    && rep.corroborationCount == |rep.corroborating|
    && (forall id :: id in rep.corroborating ==>
          exists k :: && k in scan && IsReportAt(s, k)
                      && s[k].report.reportId == id
                      && Corroborates(dist, s[k].report, rep))
    && (forall k :: k in scan && IsReportAt(s, k) && Corroborates(dist, s[k].report, rep) ==>
          s[k].report.reportId in rep.corroborating)
  }

  /**
    The state after a successful submission: the new report is filed under
    its id, the submitter's totalReports grows by one, and nothing else
    changes.
   */
  ghost predicate Submitted(s: Store, s': Store, scan: seq<string>, dist: (Coord, Coord) -> real,
                            reportId: string, vehicleId: string, eventType: string,
                            location: string, coord: Coord, now: int)
  {
    && IsVehicleAt(s, vehicleId)
    && s'.Keys == s.Keys + {reportId}
    && UnchangedExcept(s, s', {reportId, vehicleId})
    && IsVehicleAt(s', vehicleId)
    && s'[vehicleId].vehicle
       == s[vehicleId].vehicle.(totalReports := s[vehicleId].vehicle.totalReports + 1)
    && IsReportAt(s', reportId)
    && Filed(s, scan, dist, s'[reportId].report, reportId, vehicleId, eventType, location, coord, now)
  }

  /** Submits a report by a registered vehicle under a new report id. */
  function SubmitReport(s: Store, scan: seq<string>, dist: (Coord, Coord) -> real,
                        reportId: string, vehicleId: string, eventType: string,
                        location: string, coord: Coord, now: int): (r: Result<Store>)
    ensures !IsVehicleAt(s, vehicleId) ==> r == Err(VehicleNotFound)
    ensures IsVehicleAt(s, vehicleId) && reportId in s ==> r == Err(DuplicateReport)
    ensures r.Ok? <==> IsVehicleAt(s, vehicleId) && reportId !in s
    ensures r.Ok? ==> Submitted(s, r.value, scan, dist, reportId, vehicleId, eventType, location, coord, now)
  {
    if !IsVehicleAt(s, vehicleId) then Err(VehicleNotFound)
    else if reportId in s then Err(DuplicateReport)
    else
      var cand := NewReport(reportId, vehicleId, eventType, location, coord, now, []);
      var ids := FindSimilarReports(s, scan, dist, cand);
      var rep := NewReport(reportId, vehicleId, eventType, location, coord, now, ids);
      var v := s[vehicleId].vehicle;
      Ok(s[reportId := ReportRecord(rep)][vehicleId := VehicleRecord(v.(totalReports := v.totalReports + 1))])
  }

  /**
    The record written back under the submitter's key: a vehicle counts the
    report; any other kind of record is written back as it was read (the
    increment only adds a meaningless non-numeric field to it).
   */
  function CountSubmission(rec: Record): Record {
    match rec
    case VehicleRecord(v) => VehicleRecord(v.(totalReports := v.totalReports + 1))
    case _ => rec
  }

  /**
    Submission as the contract's code does it: the only guard is that some
    record exists under `vehicleId`; the report is written under `reportId`
    whatever that key held, and then the submitter's record is written back.
   */
  function SubmitReportAsWritten(s: Store, scan: seq<string>, dist: (Coord, Coord) -> real,
                                 reportId: string, vehicleId: string, eventType: string,
                                 location: string, coord: Coord, now: int): (r: Result<Store>)
    ensures r.Err? <==> vehicleId !in s
    ensures r.Err? ==> r.error == VehicleNotFound
    ensures r.Ok? ==> && r.value.Keys == s.Keys + {reportId}
                      && UnchangedExcept(s, r.value, {reportId, vehicleId})
                      && r.value[vehicleId] == CountSubmission(s[vehicleId])
                      && (reportId != vehicleId ==>
                            && IsReportAt(r.value, reportId)
                            && Filed(s, scan, dist, r.value[reportId].report,
                                     reportId, vehicleId, eventType, location, coord, now))
  {
    if !VehicleExists(s, vehicleId) then Err(VehicleNotFound)
    else
      var cand := NewReport(reportId, vehicleId, eventType, location, coord, now, []);
      var ids := FindSimilarReports(s, scan, dist, cand);
      var rep := NewReport(reportId, vehicleId, eventType, location, coord, now, ids);
      Ok(s[reportId := ReportRecord(rep)][vehicleId := CountSubmission(s[vehicleId])])
  }

  /**
    The existence check looks at the key alone: on a well-formed ledger a
    report id and the registry key pass it as readily as a vehicle id. It
    is the guard both vehicle registration and the submission as written
    rest on: one refuses exactly the ids it accepts, the other accepts
    exactly those.
   */
  lemma VehicleExistsIsKeyPresence(s: Store, scan: seq<string>, dist: (Coord, Coord) -> real,
                                   reportId: string, vehicleId: string, eventType: string,
                                   location: string, coord: Coord, now: int)
    ensures IsVehicleAt(s, vehicleId) ==> VehicleExists(s, vehicleId)
    ensures IsReportAt(s, vehicleId) ==> VehicleExists(s, vehicleId)
    ensures HasRegistry(s) ==> VehicleExists(s, RegistryKey)
    ensures VehicleExists(s, vehicleId) <==> RegisterVehicle(s, vehicleId) == Err(DuplicateVehicle)
    ensures VehicleExists(s, vehicleId)
            <==> SubmitReportAsWritten(s, scan, dist, reportId, vehicleId, eventType, location, coord, now).Ok?
  {
  }

  /** Where the two guards pass, the corrected submission is the written one. */
  lemma CorrectedSubmissionAgrees(s: Store, scan: seq<string>, dist: (Coord, Coord) -> real,
                                  reportId: string, vehicleId: string, eventType: string,
                                  location: string, coord: Coord, now: int)
    requires IsVehicleAt(s, vehicleId) && reportId !in s
    ensures SubmitReportAsWritten(s, scan, dist, reportId, vehicleId, eventType, location, coord, now)
            == SubmitReport(s, scan, dist, reportId, vehicleId, eventType, location, coord, now)
  {
  }

  /**
    A report id equal to an existing key overwrites that record: submitting
    report "RSU_REGISTRY" replaces the registry, and with it every
    authority, while the corrected submission refuses the id.
   */
  lemma ReportIdOverwritesRegistry()
    ensures WellFormed(ExampleLedger())
    ensures Authorities.IsAuthority(ExampleLedger(), "RSU1")
    ensures var r := SubmitReportAsWritten(ExampleLedger(), [], Flat, RegistryKey, "V1",
                                           "ACCIDENT", "Main St", Coord(0.0, 0.0), 1000);
            && r.Ok?
            && !HasRegistry(r.value)
            && !Authorities.IsAuthority(r.value, "RSU1")
    ensures SubmitReport(ExampleLedger(), [], Flat, RegistryKey, "V1",
                         "ACCIDENT", "Main St", Coord(0.0, 0.0), 1000) == Err(DuplicateReport)
  {
    var s := ExampleLedger();
    assert IsDecider(RegistryIn(s), "RSU1", 0);
  }

  /**
    Any existing key passes the vehicle check: a report filed under the id of
    another report is accepted and names no vehicle, breaking the ledger's
    invariant, while the corrected submission refuses it.
   */
  lemma NonVehicleSubmitterAccepted()
    ensures WellFormed(ExampleLedgerWithReport())
    ensures var r := SubmitReportAsWritten(ExampleLedgerWithReport(), [], Flat, "R2", "R1",
                                           "ACCIDENT", "Main St", Coord(0.0, 0.0), 2000);
            && r.Ok?
            && IsReportAt(r.value, "R2")
            && !IsVehicleAt(r.value, r.value["R2"].report.vehicleId)
            && !WellFormed(r.value)
    ensures SubmitReport(ExampleLedgerWithReport(), [], Flat, "R2", "R1",
                         "ACCIDENT", "Main St", Coord(0.0, 0.0), 2000) == Err(VehicleNotFound)
  {
    var s := ExampleLedgerWithReport();
    assert IsReportAt(s, "R1");
    var s' := SubmitReportAsWritten(s, [], Flat, "R2", "R1", "ACCIDENT", "Main St", Coord(0.0, 0.0), 2000).value;
    assert IsReportAt(s', "R2") && !ReportInvariant(s', "R2");
  }

  lemma RegisterVehiclePreservesWellFormed(s: Store, vehicleId: string)
    requires WellFormed(s)
    requires RegisterVehicle(s, vehicleId).Ok?
    ensures Extends(s, RegisterVehicle(s, vehicleId).value)
    ensures WellFormed(RegisterVehicle(s, vehicleId).value)
  {
    var s' := RegisterVehicle(s, vehicleId).value;
    WellFormedAfterExtension(s, s');
  }

  lemma SubmitPreservesWellFormed(s: Store, scan: seq<string>, dist: (Coord, Coord) -> real,
                                  reportId: string, vehicleId: string, eventType: string,
                                  location: string, coord: Coord, now: int)
    requires WellFormed(s)
    requires SubmitReport(s, scan, dist, reportId, vehicleId, eventType, location, coord, now).Ok?
    ensures Extends(s, SubmitReport(s, scan, dist, reportId, vehicleId, eventType, location, coord, now).value)
    ensures WellFormed(SubmitReport(s, scan, dist, reportId, vehicleId, eventType, location, coord, now).value)
  {
    var s' := SubmitReport(s, scan, dist, reportId, vehicleId, eventType, location, coord, now).value;
    var rep := s'[reportId].report;
    forall id | id in rep.corroborating
      ensures Corroborator(s', rep, id)
    {
      var k :| k in scan && IsReportAt(s, k) && s[k].report.reportId == id
               && Corroborates(dist, s[k].report, rep);
      assert ReportInvariant(s, k);
    }
    assert ReportInvariant(s', reportId);
    WellFormedAfterExtension(s, s');
  }
}

/**
  The ledger as a transition system: each contract invocation is one
  atomic transaction that either commits all its writes or none. Every
  state reachable from the empty ledger is well formed, and later states
  only extend earlier ones.
 */
module Ledger {
  import opened State
  import opened Invariants
  import Authorities
  import Reports
  import Validation
  import Fixtures
  import Matcher

  /** The state-changing invocations of the contract. */
  datatype Op =
    | InitRegistry(now: int)
    | EnrolRsu(rsuId: string, mspId: string, location: string, coord: Coord, caller: string, now: int)
    | RetireRsu(rsuId: string, now: int)
    | EnrolVehicle(vehicleId: string)
    | Submit(scan: seq<string>, reportId: string, vehicleId: string, eventType: string,
             location: string, coord: Coord, now: int)
    | Adjudicate(caller: string, reportId: string, isValid: bool, now: int)

  function Apply(s: Store, dist: (Coord, Coord) -> real, op: Op): Result<Store> {
    match op
    case InitRegistry(now) => Authorities.InitAuthorities(s, now)
    case EnrolRsu(rsuId, mspId, location, coord, caller, now) =>
      Authorities.RegisterRSU(s, rsuId, mspId, location, coord, caller, now)
    case RetireRsu(rsuId, now) => Authorities.DeactivateRSU(s, rsuId, now)
    case EnrolVehicle(vehicleId) => Reports.RegisterVehicle(s, vehicleId)
    case Submit(scan, reportId, vehicleId, eventType, location, coord, now) =>
      Reports.SubmitReport(s, scan, dist, reportId, vehicleId, eventType, location, coord, now)
    case Adjudicate(caller, reportId, isValid, now) =>
      Validation.ValidateReportByRSU(s, caller, reportId, isValid, now)
  }

  /** A failed transaction leaves the ledger as it was. */
  function Commit(s: Store, dist: (Coord, Coord) -> real, op: Op): Store {
    match Apply(s, dist, op)
    case Ok(s') => s'
    case Err(_) => s
  }

  function Run(s: Store, dist: (Coord, Coord) -> real, ops: seq<Op>): Store
    decreases |ops|
  {
    if |ops| == 0 then s else Run(Commit(s, dist, ops[0]), dist, ops[1..])
  }

  /** Every successful transaction keeps the ledger well formed and only extends it. */
  lemma CommitPreservesWellFormed(s: Store, dist: (Coord, Coord) -> real, op: Op)
    requires WellFormed(s)
    ensures WellFormed(Commit(s, dist, op))
    ensures Extends(s, Commit(s, dist, op))
  {
    if Apply(s, dist, op).Err? {
      ExtendsReflexive(s);
    } else {
      match op
      case InitRegistry(now) => Authorities.InitPreservesWellFormed(s, now);
      case EnrolRsu(rsuId, mspId, location, coord, caller, now) =>
        Authorities.RegisterRsuPreservesWellFormed(s, rsuId, mspId, location, coord, caller, now);
      case RetireRsu(rsuId, now) => Authorities.DeactivatePreservesWellFormed(s, rsuId, now);
      case EnrolVehicle(vehicleId) => Reports.RegisterVehiclePreservesWellFormed(s, vehicleId);
      case Submit(scan, reportId, vehicleId, eventType, location, coord, now) =>
        Reports.SubmitPreservesWellFormed(s, scan, dist, reportId, vehicleId, eventType, location, coord, now);
      case Adjudicate(caller, reportId, isValid, now) =>
        Validation.ValidatePreservesWellFormed(s, caller, reportId, isValid, now);
    }
  }

  /**
    Any sequence of transactions keeps the ledger well formed and only
    extends it: no record disappears or changes kind, vehicle counters and
    RSU validation counts never fall, INACTIVE units stay INACTIVE, and a
    decided report is never touched again.
   */
  lemma {:induction false} RunPreservesWellFormed(s: Store, dist: (Coord, Coord) -> real, ops: seq<Op>)
    requires WellFormed(s)
    ensures WellFormed(Run(s, dist, ops))
    ensures Extends(s, Run(s, dist, ops))
    decreases |ops|
  {
    if |ops| == 0 {
      ExtendsReflexive(s);
    } else {
      var s1 := Commit(s, dist, ops[0]);
      CommitPreservesWellFormed(s, dist, ops[0]);
      RunPreservesWellFormed(s1, dist, ops[1..]);
      ExtendsTransitive(s, s1, Run(s1, dist, ops[1..]));
    }
  }

  /** Every state reachable from the empty ledger is well formed. */
  lemma ReachableIsWellFormed(dist: (Coord, Coord) -> real, ops: seq<Op>)
    ensures WellFormed(Run(map[], dist, ops))
  {
    RunPreservesWellFormed(map[], dist, ops);
  }

  /** VALID and FALSE are terminal: a decided report stays exactly as it is. */
  lemma DecidedReportIsFrozen(s: Store, dist: (Coord, Coord) -> real, ops: seq<Op>, k: string)
    requires WellFormed(s)
    requires IsReportAt(s, k) && s[k].report.status != Pending
    ensures IsReportAt(Run(s, dist, ops), k)
    ensures Run(s, dist, ops)[k] == s[k]
  {
    RunPreservesWellFormed(s, dist, ops);
  }

  const Spot: Coord := Coord(40.0, -73.0)

  /** The report "R1" by "V1" as filed at time 0 with no corroboration. */
  function FirstAccident(): Report {
    Report("R1", "V1", "ACCIDENT", "Main St", Spot, 0, Pending, [], 0, None)
  }

  function TwoVehicles(): Store {
    map["V1" := VehicleRecord(Vehicle("V1", 50, 0, 0))]["V2" := VehicleRecord(Vehicle("V2", 50, 0, 0))]
  }

  /** Two registered vehicles, one of which has filed `FirstAccident`. */
  function TwoVehiclesOneReport(): Store {
    TwoVehicles()["R1" := ReportRecord(FirstAccident())]["V1" := VehicleRecord(Vehicle("V1", 50, 1, 0))]
  }

  lemma FirstReportFiled()
    ensures var s0 := Reports.RegisterVehicle(map[], "V1").value;
            Reports.RegisterVehicle(s0, "V2") == Ok(TwoVehicles())
    ensures Reports.SubmitReport(TwoVehicles(), ["V1", "V2"], Fixtures.Flat, "R1", "V1", "ACCIDENT", "Main St", Spot, 0)
            == Ok(TwoVehiclesOneReport())
  {
    var cand := Reports.NewReport("R1", "V1", "ACCIDENT", "Main St", Spot, 0, []);
    assert Matcher.FindSimilarReports(TwoVehicles(), ["V1", "V2"], Fixtures.Flat, cand) == [];
  }

  /** The second report "R2" by "V2", five minutes later, corroborated by "R1". */
  function SecondAccident(): Report {
    Report("R2", "V2", "ACCIDENT", "Main St", Spot, 5 * 60 * 1000, Pending, ["R1"], 1, None)
  }

  lemma SecondReportFiled()
    ensures Reports.SubmitReport(TwoVehiclesOneReport(), ["R1", "V1", "V2"], Fixtures.Flat, "R2", "V2", "ACCIDENT",
                                 "Main St", Spot, 5 * 60 * 1000)
            == Ok(TwoVehiclesOneReport()["R2" := ReportRecord(SecondAccident())]
                                        ["V2" := VehicleRecord(Vehicle("V2", 50, 1, 0))])
  {
    var cand := Reports.NewReport("R2", "V2", "ACCIDENT", "Main St", Spot, 5 * 60 * 1000, []);
    var s := TwoVehiclesOneReport();
    assert s["R1"] == ReportRecord(FirstAccident()) && !IsReportAt(s, "V1") && !IsReportAt(s, "V2");
    assert ["R1", "V1", "V2"][1..] == ["V1", "V2"];
    Matcher.SoleCorroborator(s, ["R1", "V1", "V2"], Fixtures.Flat, cand);
  }

  /**
    Two vehicles report the same accident at the same spot five minutes
    apart: the second report lists the first as corroboration, while the
    first, stored earlier, is not linked back.
   */
  lemma CorroborationScenario()
    ensures var s0 := Reports.RegisterVehicle(map[], "V1").value;
            var s1 := Reports.RegisterVehicle(s0, "V2").value;
            var r1 := Reports.SubmitReport(s1, ["V1", "V2"], Fixtures.Flat, "R1", "V1", "ACCIDENT", "Main St", Spot, 0);
            r1.Ok? &&
            var s2 := r1.value;
            var r2 := Reports.SubmitReport(s2, ["R1", "V1", "V2"], Fixtures.Flat, "R2", "V2", "ACCIDENT", "Main St",
                                           Spot, 5 * 60 * 1000);
            && r2.Ok?
            && r2.value["R2"].report.corroborating == ["R1"]
            && r2.value["R1"].report.corroborating == []
  {
    FirstReportFiled();
    SecondReportFiled();
  }

  function OneVehicleOneReport(): Store {
    map["V1" := VehicleRecord(Vehicle("V1", 50, 0, 0))]["R1" := ReportRecord(FirstAccident())]
                                                        ["V1" := VehicleRecord(Vehicle("V1", 50, 1, 0))]
  }

  /** `OneVehicleOneReport` with a registry holding one fresh unit. */
  function OneUnitOneReport(): Store {
    OneVehicleOneReport()[RegistryKey := RegistryRecord(Registry(
      [Rsu("RSU1", "Org1MSP", "RSU1", "Junction 4", Spot, 2, "admin", 0, Active, None, None)], 1, 2))]
  }

  lemma UnitEnrolled()
    ensures var s0 := Reports.RegisterVehicle(map[], "V1").value;
            Reports.SubmitReport(s0, ["V1"], Fixtures.Flat, "R1", "V1", "ACCIDENT", "Main St", Spot, 0)
            == Ok(OneVehicleOneReport())
    ensures var s2 := Authorities.InitAuthorities(OneVehicleOneReport(), 1).value;
            Authorities.RegisterRSU(s2, "RSU1", "Org1MSP", "Junction 4", Spot, "admin", 2) == Ok(OneUnitOneReport())
  {
    var s0 := map["V1" := VehicleRecord(Vehicle("V1", 50, 0, 0))];
    var cand := Reports.NewReport("R1", "V1", "ACCIDENT", "Main St", Spot, 0, []);
    assert Matcher.FindSimilarReports(s0, ["V1"], Fixtures.Flat, cand) == [];
    var s2 := OneVehicleOneReport()[RegistryKey := RegistryRecord(Registry([], 0, 1))];
    assert Authorities.InitAuthorities(OneVehicleOneReport(), 1) == Ok(s2);
    var entry := Rsu("RSU1", "Org1MSP", "RSU1", "Junction 4", Spot, 2, "admin", 0, Active, None, None);
    assert [] + [entry] == [entry];
    var reg := RegistryRecord(Registry([entry], 1, 2));
    assert s2[RegistryKey := reg] == OneVehicleOneReport()[RegistryKey := reg];
  }

  /**
    An initialized registry with one RSU validates a pending report: the
    report becomes VALID, the vehicle's reputation goes from 50 to 55 and
    the unit's validation count to 1; rejecting it afterwards fails.
   */
  lemma ValidationScenario()
    ensures var s0 := Reports.RegisterVehicle(map[], "V1").value;
            var s1 := Reports.SubmitReport(s0, ["V1"], Fixtures.Flat, "R1", "V1", "ACCIDENT", "Main St", Spot, 0).value;
            var s2 := Authorities.InitAuthorities(s1, 1).value;
            var s3 := Authorities.RegisterRSU(s2, "RSU1", "Org1MSP", "Junction 4", Spot, "admin", 2).value;
            var r := Validation.ValidateReportByRSU(s3, "RSU1", "R1", true, 3);
            && r.Ok?
            && r.value["R1"].report.status == Valid
            && r.value["V1"].vehicle.reputation == 55
            && RegistryIn(r.value).rsus[0].validationCount == 1
            && Validation.ValidateReportByRSU(r.value, "RSU1", "R1", false, 4) == Err(AlreadyValidated)
  {
    UnitEnrolled();
    var s3 := OneUnitOneReport();
    assert IsDecider(RegistryIn(s3), "RSU1", 0);
    var r := Validation.ValidateReportByRSU(s3, "RSU1", "R1", true, 3);
    assert r.Ok?;
    assert !IsPendingAt(r.value, "R1");
  }

  /**
    With the submission as written, a decided report is not final: filing
    a new report under the decided report's id stores it PENDING again, and
    the same unit can then decide it a second time, moving the vehicle's
    reputation twice. The corrected submission refuses the id.
   */
  lemma DecisionReopenedAsWritten()
    ensures var s := Fixtures.ExampleLedgerWithReport();
            var r1 := Validation.ValidateReportByRSU(s, "RSU1", "R1", true, 2000);
            && r1.Ok?
            && r1.value["R1"].report.status == Valid
            && r1.value["V1"].vehicle.reputation == 55
            && Reports.SubmitReport(r1.value, [], Fixtures.Flat, "R1", "V1", "ACCIDENT", "Main St",
                                    Coord(0.0, 0.0), 3000) == Err(DuplicateReport)
            && var r2 := Reports.SubmitReportAsWritten(r1.value, [], Fixtures.Flat, "R1", "V1", "ACCIDENT",
                                                        "Main St", Coord(0.0, 0.0), 3000);
            && r2.Ok?
            && r2.value["R1"].report.status == Pending
            && var r3 := Validation.ValidateReportByRSU(r2.value, "RSU1", "R1", false, 4000);
            && r3.Ok?
            && r3.value["R1"].report.status == False
            && r3.value["V1"].vehicle.reputation == 45
            && r3.value["V1"].vehicle.falseReports == 1
  {
  }
}

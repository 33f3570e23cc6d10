/**
  The validation engine: the only way a report leaves PENDING. An ACTIVE
  RSU decides a PENDING report VALID or FALSE, the submitting vehicle's
  reputation moves accordingly, and the deciding unit's counter grows.
 */
module Validation {
  import opened State
  import opened Invariants
  import opened Authorities

  /** A VALID decision rewards the vehicle; a FALSE one penalises it and counts the false report. */
  function ApplyAdjudication(v: Vehicle, isValid: bool): Vehicle {
    if isValid then v.(reputation := v.reputation + ValidReward)
    else v.(reputation := v.reputation - FalsePenalty, falseReports := v.falseReports + 1)
  }

  function Decide(rep: Report, isValid: bool, rsu: Rsu, now: int): Report {
    rep.(status := if isValid then Valid else False,
         verdict := Some(Verdict(rsu.rsuId, rsu.location, now)))
  }

  function RecordValidation(reg: Registry, i: nat, now: int): Registry
    requires i < |reg.rsus|
  {
    var e := reg.rsus[i];
    reg.(rsus := reg.rsus[i := e.(validationCount := e.validationCount + 1, lastValidation := Some(now))])
  }

  /**
    The state after a successful adjudication of `reportId` by `caller`:
    the report moves from PENDING to VALID or FALSE and records the deciding
    unit; the vehicle gains the reward, or takes the penalty and one more
    false report; the deciding unit, an ACTIVE entry with the caller's
    identity, counts one more validation and no other entry changes; every
    other key is untouched.
   */
  ghost predicate Adjudicated(s: Store, s': Store, caller: string, reportId: string, isValid: bool, now: int) {
    && HasRegistry(s) && HasRegistry(s')
    && IsPendingAt(s, reportId) && IsReportAt(s', reportId)
    && var vehicleId := s[reportId].report.vehicleId;
    && IsVehicleAt(s, vehicleId) && IsVehicleAt(s', vehicleId)
    && s'.Keys == s.Keys
    && UnchangedExcept(s, s', {RegistryKey, reportId, vehicleId})
    && Standing(s[vehicleId].vehicle, s'[vehicleId].vehicle, isValid)
    && Decided(RegistryIn(s), RegistryIn(s'), s[reportId].report, s'[reportId].report, caller, isValid, now)
  }

  /** The vehicle gains the reward, or takes the penalty and one more false report. */
  ghost predicate Standing(v: Vehicle, v': Vehicle, isValid: bool) {
    && v'.vehicleId == v.vehicleId
    && v'.totalReports == v.totalReports
    && (isValid ==> v'.reputation == v.reputation + 5 && v'.falseReports == v.falseReports)
    && (!isValid ==> v'.reputation == v.reputation - 10 && v'.falseReports == v.falseReports + 1)
  }

  /**
    The report takes the decision and names the deciding unit, an ACTIVE
    entry with the caller's identity, which counts one more validation;
    no other entry changes.
   */
  ghost predicate Decided(reg: Registry, reg': Registry, rep: Report, rep': Report,
                          caller: string, isValid: bool, now: int) {
    && rep'.status == (if isValid then Valid else False)
    && reg'.count == reg.count
    && reg'.lastUpdated == reg.lastUpdated
    && exists i :: && IsDecider(reg, caller, i)
                   && rep' == rep.(status := rep'.status,
                                   verdict := Some(Verdict(reg.rsus[i].rsuId, reg.rsus[i].location, now)))
                   && reg'.rsus == reg.rsus[i := reg.rsus[i].(validationCount := reg.rsus[i].validationCount + 1,
                                                              lastValidation := Some(now))]
  }

  lemma DecisionRecorded(reg: Registry, rep: Report, caller: string, i: nat, isValid: bool, now: int)
    requires IsDecider(reg, caller, i)
    ensures Decided(reg, RecordValidation(reg, i, now), rep, Decide(rep, isValid, reg.rsus[i], now),
                    caller, isValid, now)
  {
  }

  /**
    The writes of a successful adjudication: the decided report, the
    vehicle's new standing, and the registry with the deciding unit's
    counter raised.
   */
  function Adjudicate(s: Store, caller: string, reportId: string, isValid: bool, now: int): Store
    requires IsAuthority(s, caller) && IsPendingAt(s, reportId)
    requires IsVehicleAt(s, s[reportId].report.vehicleId)
  {
    var rsu := GetRSUFromCaller(s, caller).value;
    var rep := s[reportId].report;
    var reg := RegistryIn(s);
    var i := AuthorityIndex(reg, caller).value;
    assert rsu == reg.rsus[i];
    s[RegistryKey := RegistryRecord(RecordValidation(reg, i, now))]
     [reportId := ReportRecord(Decide(rep, isValid, rsu, now))]
     [rep.vehicleId := VehicleRecord(ApplyAdjudication(s[rep.vehicleId].vehicle, isValid))]
  }

  /** The three writes land on three distinct keys, so each record read back is the one written. */
  lemma AdjudicateWrites(s: Store, caller: string, reportId: string, isValid: bool, now: int)
    requires IsAuthority(s, caller) && IsPendingAt(s, reportId)
    requires IsVehicleAt(s, s[reportId].report.vehicleId)
    ensures var s', rep, reg := Adjudicate(s, caller, reportId, isValid, now), s[reportId].report, RegistryIn(s);
            var i := AuthorityIndex(reg, caller).value;
            && IsDecider(reg, caller, i)
            && s'.Keys == s.Keys
            && UnchangedExcept(s, s', {RegistryKey, reportId, rep.vehicleId})
            && s'[RegistryKey] == RegistryRecord(RecordValidation(reg, i, now))
            && s'[reportId] == ReportRecord(Decide(rep, isValid, reg.rsus[i], now))
            && s'[rep.vehicleId] == VehicleRecord(ApplyAdjudication(s[rep.vehicleId].vehicle, isValid))
  {
    var rep := s[reportId].report;
    assert RegistryKey != reportId && RegistryKey != rep.vehicleId && reportId != rep.vehicleId;
  }

  lemma AdjudicateMeetsSpec(s: Store, caller: string, reportId: string, isValid: bool, now: int)
    requires IsAuthority(s, caller) && IsPendingAt(s, reportId)
    requires IsVehicleAt(s, s[reportId].report.vehicleId)
    ensures Adjudicated(s, Adjudicate(s, caller, reportId, isValid, now), caller, reportId, isValid, now)
  {
    var reg := RegistryIn(s);
    AdjudicateWrites(s, caller, reportId, isValid, now);
    DecisionRecorded(reg, s[reportId].report, caller, AuthorityIndex(reg, caller).value, isValid, now);
  }

  /**
    Adjudicates a report on behalf of the caller. Fails, changing nothing,
    unless the caller is an ACTIVE RSU, the report exists and is PENDING,
    and its vehicle is on the ledger.
   */
  function ValidateReportByRSU(s: Store, caller: string, reportId: string, isValid: bool, now: int)
    : (r: Result<Store>)
    ensures !IsAuthority(s, caller) ==> r == Err(Unauthorized)
    ensures IsAuthority(s, caller) && reportId !in s ==> r == Err(ReportNotFound)
    ensures IsAuthority(s, caller) && reportId in s && !IsPendingAt(s, reportId) ==> r == Err(AlreadyValidated)
    ensures (IsAuthority(s, caller) && IsPendingAt(s, reportId)
             && !IsVehicleAt(s, s[reportId].report.vehicleId)) ==> r == Err(VehicleNotFound)
    ensures r.Ok? <==> && IsAuthority(s, caller)
                       && IsPendingAt(s, reportId)
                       && IsVehicleAt(s, s[reportId].report.vehicleId)
    ensures r.Ok? ==> Adjudicated(s, r.value, caller, reportId, isValid, now)
  {
    match RequireAuthority(s, caller)
    case Fail(e) => Err(e)
    case Pass =>
      if reportId !in s then Err(ReportNotFound)
      else if !IsPendingAt(s, reportId) then Err(AlreadyValidated)
      else if !IsVehicleAt(s, s[reportId].report.vehicleId) then Err(VehicleNotFound)
      else
        AdjudicateMeetsSpec(s, caller, reportId, isValid, now);
        Ok(Adjudicate(s, caller, reportId, isValid, now))
  }

  /** A decided report can never be decided again, by any caller. */
  lemma ValidationIsFinal(s: Store, caller: string, reportId: string, isValid: bool, now: int,
                          caller2: string, isValid2: bool, later: int)
    requires ValidateReportByRSU(s, caller, reportId, isValid, now).Ok?
    ensures var s' := ValidateReportByRSU(s, caller, reportId, isValid, now).value;
            var r := ValidateReportByRSU(s', caller2, reportId, isValid2, later);
            r == Err(Unauthorized) || r == Err(AlreadyValidated)
  {
    var s' := ValidateReportByRSU(s, caller, reportId, isValid, now).value;
    assert !IsPendingAt(s', reportId);
  }

  /** On a well-formed ledger the missing-vehicle failure cannot happen. */
  lemma NoMissingVehicle(s: Store, caller: string, reportId: string, isValid: bool, now: int)
    requires WellFormed(s)
    ensures ValidateReportByRSU(s, caller, reportId, isValid, now) != Err(VehicleNotFound)
  {
    if IsAuthority(s, caller) && IsPendingAt(s, reportId) {
      assert ReportInvariant(s, reportId);
    }
  }

  /**
    On a well-formed ledger the deciding unit is the entry registered under
    the caller's own id: that entry is the one credited and named in the verdict.
   */
  lemma CallerIsCredited(s: Store, caller: string, reportId: string, isValid: bool, now: int)
    requires WellFormed(s)
    requires ValidateReportByRSU(s, caller, reportId, isValid, now).Ok?
    ensures var s' := ValidateReportByRSU(s, caller, reportId, isValid, now).value;
            var i := IndexOfRsu(RegistryIn(s), caller);
            && i.Some?
            && RegistryIn(s').rsus[i.value].validationCount == RegistryIn(s).rsus[i.value].validationCount + 1
            && s'[reportId].report.verdict.Some?
            && s'[reportId].report.verdict.value.rsuId == caller
  {
    var reg := RegistryIn(s);
    var i := AuthorityIndex(reg, caller).value;
    DeciderIsKeyedByCaller(reg, caller, i);
  }

  lemma ValidatePreservesWellFormed(s: Store, caller: string, reportId: string, isValid: bool, now: int)
    requires WellFormed(s)
    requires ValidateReportByRSU(s, caller, reportId, isValid, now).Ok?
    ensures Extends(s, ValidateReportByRSU(s, caller, reportId, isValid, now).value)
    ensures WellFormed(ValidateReportByRSU(s, caller, reportId, isValid, now).value)
  {
    AdjudicatePreservesWellFormed(s, caller, reportId, isValid, now);
  }

  lemma AdjudicatePreservesWellFormed(s: Store, caller: string, reportId: string, isValid: bool, now: int)
    requires WellFormed(s)
    requires IsAuthority(s, caller) && IsPendingAt(s, reportId)
    requires IsVehicleAt(s, s[reportId].report.vehicleId)
    ensures Extends(s, Adjudicate(s, caller, reportId, isValid, now))
    ensures WellFormed(Adjudicate(s, caller, reportId, isValid, now))
  {
    var s' := Adjudicate(s, caller, reportId, isValid, now);
    var reg := RegistryIn(s);
    var i := AuthorityIndex(reg, caller).value;
    AdjudicateWrites(s, caller, reportId, isValid, now);
    RecordValidationGrows(reg, i, now);
    assert ReportInvariant(s, reportId);
    WellFormedAfterExtension(s, s');
  }

  lemma RecordValidationGrows(reg: Registry, i: nat, now: int)
    requires RegistryInvariant(reg) && i < |reg.rsus|
    ensures RegistryInvariant(RecordValidation(reg, i, now))
    ensures RegistryGrows(reg, RecordValidation(reg, i, now))
  {
  }
}

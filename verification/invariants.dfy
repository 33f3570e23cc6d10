/**
  The invariant every reachable ledger state keeps, and the "only moves
  forward" relation between a state and any later one.
 */
module Invariants {
  import opened State

  /**
    Registration keys each entry by its rsuId and uses that id as the
    entry's identity, so ids are distinct and `count` tracks the table.
   */
  ghost predicate RegistryInvariant(reg: Registry) {
    && reg.count == |reg.rsus|
    && (forall i :: 0 <= i < |reg.rsus| ==>
          reg.rsus[i].identity == reg.rsus[i].rsuId && reg.rsus[i].validationCount >= 0)
    && (forall i, j :: 0 <= i < j < |reg.rsus| ==> reg.rsus[i].rsuId != reg.rsus[j].rsuId)
  }

  ghost predicate VehicleInvariant(s: Store, k: string)
    requires IsVehicleAt(s, k)
  {
    var v := s[k].vehicle;
    v.vehicleId == k && v.totalReports >= 0 && v.falseReports >= 0
  }

  /** `c` names a stored report by another vehicle about the same kind of event. */
  ghost predicate Corroborator(s: Store, r: Report, c: string) {
    && IsReportAt(s, c)
    && c != r.reportId
    && s[c].report.vehicleId != r.vehicleId
    && s[c].report.eventType == r.eventType
  }

  ghost predicate ReportInvariant(s: Store, k: string)
    requires IsReportAt(s, k)
  {
    var r := s[k].report;
    && r.reportId == k
    && IsVehicleAt(s, r.vehicleId)
    && r.corroborationCount == |r.corroborating|
    && (r.status == Pending <==> r.verdict.None?)
    && forall c :: c in r.corroborating ==> Corroborator(s, r, c)
  }

  /** The invariant of every state reachable from the empty ledger. */
  ghost predicate WellFormed(s: Store) {
    && (HasRegistry(s) ==> RegistryInvariant(RegistryIn(s)))
    && (forall k :: IsVehicleAt(s, k) ==> VehicleInvariant(s, k))
    && (forall k :: IsReportAt(s, k) ==> ReportInvariant(s, k))
  }

  ghost predicate SameKind(a: Record, b: Record) {
    a.VehicleRecord? == b.VehicleRecord? && a.ReportRecord? == b.ReportRecord?
  }

  ghost predicate VehicleGrows(v: Vehicle, v': Vehicle) {
    && v'.vehicleId == v.vehicleId
    && v'.totalReports >= v.totalReports
    && v'.falseReports >= v.falseReports
  }

  /**
    A report either stays as it is or makes its single move from PENDING
    to a decided status, gaining a verdict and changing nothing else.
   */
  ghost predicate ReportEvolves(r: Report, r': Report) {
    || r' == r
    || (&& r.status == Pending
        && r'.status != Pending
        && r'.verdict.Some?
        && r' == r.(status := r'.status, verdict := r'.verdict))
  }

  ghost predicate RsuGrows(a: Rsu, b: Rsu) {
    && b.rsuId == a.rsuId
    && b.identity == a.identity
    && b.validationCount >= a.validationCount
    && (a.status == Inactive ==> b.status == Inactive)
  }

  ghost predicate RegistryGrows(reg: Registry, reg': Registry) {
    && |reg.rsus| <= |reg'.rsus|
    && reg.count <= reg'.count
    && forall i :: 0 <= i < |reg.rsus| ==> RsuGrows(reg.rsus[i], reg'.rsus[i])
  }

  /**
    `s'` is a possible future of `s`: no key disappears or changes kind,
    counters never fall, decided reports are frozen, and the RSU table
    only grows, with INACTIVE entries staying INACTIVE.
   */
  ghost predicate Extends(s: Store, s': Store) {
    && (forall k :: k in s ==> k in s' && SameKind(s[k], s'[k]))
    && (forall k :: IsVehicleAt(s, k) ==> VehicleGrows(s[k].vehicle, s'[k].vehicle))
    && (forall k :: IsReportAt(s, k) ==> ReportEvolves(s[k].report, s'[k].report))
    && (HasRegistry(s) ==> HasRegistry(s') && RegistryGrows(RegistryIn(s), RegistryIn(s')))
  }

  lemma ExtendsReflexive(s: Store)
    ensures Extends(s, s)
  {
  }

  lemma ExtendsTransitive(a: Store, b: Store, c: Store)
    requires Extends(a, b) && Extends(b, c)
    ensures Extends(a, c)
  {
    forall k | IsReportAt(a, k)
      ensures ReportEvolves(a[k].report, c[k].report)
    {
      assert IsReportAt(b, k);
    }
    if HasRegistry(a) {
      var ra, rb, rc := RegistryIn(a), RegistryIn(b), RegistryIn(c);
      forall i | 0 <= i < |ra.rsus|
        ensures RsuGrows(ra.rsus[i], rc.rsus[i])
      {
        assert RsuGrows(ra.rsus[i], rb.rsus[i]);
        assert RsuGrows(rb.rsus[i], rc.rsus[i]);
      }
    }
  }

  /**
    Well-formedness carries over to any extension, provided the records the
    extension adds, and the registry it ends with, are well formed.
   */
  lemma WellFormedAfterExtension(s: Store, s': Store)
    requires WellFormed(s) && Extends(s, s')
    requires HasRegistry(s') ==> RegistryInvariant(RegistryIn(s'))
    requires forall k :: IsVehicleAt(s', k) && k !in s ==> VehicleInvariant(s', k)
    requires forall k :: IsReportAt(s', k) && k !in s ==> ReportInvariant(s', k)
    ensures WellFormed(s')
  {
    forall k | IsVehicleAt(s', k)
      ensures VehicleInvariant(s', k)
    {
      if k in s {
        assert IsVehicleAt(s, k) && VehicleInvariant(s, k);
      }
    }
    forall k | IsReportAt(s', k)
      ensures ReportInvariant(s', k)
    {
      if k in s {
        assert IsReportAt(s, k) && ReportInvariant(s, k);
        var r, r' := s[k].report, s'[k].report;
        assert IsVehicleAt(s, r.vehicleId);
        forall c | c in r'.corroborating
          ensures Corroborator(s', r', c)
        {
          assert Corroborator(s, r, c);
          assert ReportEvolves(s[c].report, s'[c].report);
        }
      }
    }
  }
}

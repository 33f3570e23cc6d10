/**
  Small ledgers and a trivial distance used by the worked examples.
 */
module Fixtures {
  import opened State

  /** A distance under which every point is at the same spot. */
  function Flat(a: Coord, b: Coord): real {
    0.0
  }

  /** An initialized registry with one ACTIVE unit, and one registered vehicle. */
  function ExampleLedger(): Store {
    map[RegistryKey := RegistryRecord(Registry(
          [Rsu("RSU1", "Org1MSP", "RSU1", "Junction 4", Coord(0.0, 0.0), 0, "admin", 0, Active, None, None)],
          1, 0)),
        "V1" := VehicleRecord(Vehicle("V1", 50, 0, 0))]
  }

  /** The example ledger with one PENDING report "R1" by "V1". */
  function ExampleLedgerWithReport(): Store {
    ExampleLedger()["R1" := ReportRecord(
      Report("R1", "V1", "ACCIDENT", "Main St", Coord(0.0, 0.0), 1000, Pending, [], 0, None))]
  }
}

/**
  The RSU registry: the singleton record under "RSU_REGISTRY" listing the
  Road-Side Units allowed to adjudicate reports, and the authority checks
  that scan it for an ACTIVE unit whose identity is the caller's.
 */
module Authorities {
  import opened State
  import opened Invariants

  /**
    Reading the registry record: absent means not initialized; a record of
    another kind under the registry key makes the contract fail when it
    dereferences the missing `rsus` table.
   */
  function LookupRegistry(s: Store): Result<Registry> {
    if RegistryKey !in s then Err(NotInitialized)
    else if !s[RegistryKey].RegistryRecord? then Err(RegistryCorrupt)
    else Ok(s[RegistryKey].registry)
  }

  /** Creates the empty registry, once. */
  function InitAuthorities(s: Store, now: int): (r: Result<Store>)
    ensures r.Err? <==> RegistryKey in s
    ensures r.Err? ==> r.error == AlreadyInitialized
    ensures r.Ok? ==> && HasRegistry(r.value)
                      && RegistryIn(r.value) == Registry([], 0, now)
                      && r.value.Keys == s.Keys + {RegistryKey}
                      && UnchangedExcept(s, r.value, {RegistryKey})
  {
    if RegistryKey in s then Err(AlreadyInitialized)
    else Ok(s[RegistryKey := RegistryRecord(Registry([], 0, now))])
  }

  /** The entry stored under `rsuId`, if any. */
  function IndexOfRsu(reg: Registry, rsuId: string): (r: Option<nat>)
    ensures r.None? <==> !Registered(reg, rsuId)
    ensures r.Some? ==> r.value < |reg.rsus| && reg.rsus[r.value].rsuId == rsuId
    ensures r.Some? ==> forall j :: 0 <= j < r.value ==> reg.rsus[j].rsuId != rsuId
  {
    FirstIndex(reg.rsus, (rsu: Rsu) => rsu.rsuId == rsuId)
  }

  /** The first ACTIVE entry whose identity is the caller's. */
  function AuthorityIndex(reg: Registry, caller: string): (r: Option<nat>)
    ensures r.None? <==> forall j :: 0 <= j < |reg.rsus| ==> !IsDecider(reg, caller, j)
    ensures r.Some? ==> IsDecider(reg, caller, r.value)
    ensures r.Some? ==> forall j :: 0 <= j < r.value ==> !IsDecider(reg, caller, j)
  {
    var acts := (rsu: Rsu) => rsu.identity == caller && rsu.status == Active;
    assert forall j :: 0 <= j < |reg.rsus| ==> (acts(reg.rsus[j]) <==> IsDecider(reg, caller, j));
    FirstIndex(reg.rsus, acts)
  }

  /** Registry after appending a new RSU entry under `rsuId`. */
  ghost predicate Enrolled(s: Store, s': Store, rsuId: string, mspId: string, location: string,
                           coord: Coord, caller: string, now: int)
  {
    && HasRegistry(s) && HasRegistry(s')
    && s'.Keys == s.Keys
    && UnchangedExcept(s, s', {RegistryKey})
    && var reg, reg' := RegistryIn(s), RegistryIn(s');
    && |reg'.rsus| == |reg.rsus| + 1
    && reg'.rsus[..|reg.rsus|] == reg.rsus
    && reg'.rsus[|reg.rsus|]
       == Rsu(rsuId, mspId, rsuId, location, coord, now, caller, 0, Active, None, None)
    && reg'.count == reg.count + 1
    && reg'.lastUpdated == now
  }

  /**
    Registers a new ACTIVE authority whose identity is its own rsuId; the
    registry must exist and the id must be new.
   */
  function RegisterRSU(s: Store, rsuId: string, mspId: string, location: string, coord: Coord,
                       caller: string, now: int): (r: Result<Store>)
    ensures RegistryKey !in s ==> r == Err(NotInitialized)
    ensures RegistryKey in s && !HasRegistry(s) ==> r == Err(RegistryCorrupt)
    ensures HasRegistry(s) && Registered(RegistryIn(s), rsuId) ==> r == Err(DuplicateRsu)
    ensures r.Ok? <==> HasRegistry(s) && !Registered(RegistryIn(s), rsuId)
    ensures r.Ok? ==> Enrolled(s, r.value, rsuId, mspId, location, coord, caller, now)
  {
    match LookupRegistry(s)
    case Err(e) => Err(e)
    case Ok(reg) =>
      if IndexOfRsu(reg, rsuId).Some? then Err(DuplicateRsu)
      else
        var entry := Rsu(rsuId, mspId, rsuId, location, coord, now, caller, 0, Active, None, None);
        Ok(s[RegistryKey := RegistryRecord(Registry(reg.rsus + [entry], reg.count + 1, now))])
  }

  /** Registry after marking the entry under `rsuId` INACTIVE. */
  ghost predicate Retired(s: Store, s': Store, rsuId: string, now: int) {
    && HasRegistry(s) && HasRegistry(s')
    && s'.Keys == s.Keys
    && UnchangedExcept(s, s', {RegistryKey})
    && var reg, reg' := RegistryIn(s), RegistryIn(s');
    && reg'.count == reg.count
    && reg'.lastUpdated == now
    && exists i :: && 0 <= i < |reg.rsus|
                   && reg.rsus[i].rsuId == rsuId
                   && reg'.rsus == reg.rsus[i := reg.rsus[i].(status := Inactive, deactivatedAt := Some(now))]
  }

  /**
    Deactivates a registered RSU. An RSU that is already INACTIVE is not
    rejected: it is simply stamped again.
   */
  function DeactivateRSU(s: Store, rsuId: string, now: int): (r: Result<Store>)
    ensures RegistryKey !in s ==> r == Err(NotInitialized)
    ensures RegistryKey in s && !HasRegistry(s) ==> r == Err(RegistryCorrupt)
    ensures HasRegistry(s) && !Registered(RegistryIn(s), rsuId) ==> r == Err(RsuNotFound)
    ensures r.Ok? <==> HasRegistry(s) && Registered(RegistryIn(s), rsuId)
    ensures r.Ok? ==> Retired(s, r.value, rsuId, now)
  {
    match LookupRegistry(s)
    case Err(e) => Err(e)
    case Ok(reg) =>
      match IndexOfRsu(reg, rsuId)
      case None => Err(RsuNotFound)
      case Some(i) =>
        var entry := reg.rsus[i].(status := Inactive, deactivatedAt := Some(now));
        Ok(s[RegistryKey := RegistryRecord(reg.(rsus := reg.rsus[i := entry], lastUpdated := now))])
  }

  /** Whether the caller is an ACTIVE RSU; false when there is no usable registry. */
  function IsAuthority(s: Store, caller: string): (b: bool)
    ensures b <==> HasRegistry(s) && exists i :: IsDecider(RegistryIn(s), caller, i)
  {
    HasRegistry(s) && AuthorityIndex(RegistryIn(s), caller).Some?
  }

  /** The ACTIVE RSU entry acting for the caller, if there is one. */
  function GetRSUFromCaller(s: Store, caller: string): (r: Option<Rsu>)
    ensures r.Some? <==> IsAuthority(s, caller)
    ensures r.Some? ==> && r.value in RegistryIn(s).rsus
                        && r.value.identity == caller
                        && r.value.status == Active
  {
    if !HasRegistry(s) then None
    else
      var reg := RegistryIn(s);
      match AuthorityIndex(reg, caller)
      case None => None
      case Some(i) => Some(reg.rsus[i])
  }

  function RequireAuthority(s: Store, caller: string): (r: Outcome)
    ensures r.Pass? <==> IsAuthority(s, caller)
    ensures r.Fail? ==> r.error == Unauthorized
  {
    if IsAuthority(s, caller) then Pass else Fail(Unauthorized)
  }

  /**
    In a well-formed registry the caller's ACTIVE entry is the one keyed by
    the caller, so the identity scan and the keyed lookup agree.
   */
  lemma DeciderIsKeyedByCaller(reg: Registry, caller: string, i: int)
    requires RegistryInvariant(reg)
    requires IsDecider(reg, caller, i)
    ensures reg.rsus[i].rsuId == caller
    ensures IndexOfRsu(reg, caller) == Some(i)
    ensures AuthorityIndex(reg, caller) == Some(i)
  {
    assert reg.rsus[i].rsuId == caller;
  }

  /** A freshly registered RSU may act as an authority at once. */
  lemma RegisteredRsuIsAuthority(s: Store, rsuId: string, mspId: string, location: string,
                                  coord: Coord, caller: string, now: int)
    requires RegisterRSU(s, rsuId, mspId, location, coord, caller, now).Ok?
    ensures IsAuthority(RegisterRSU(s, rsuId, mspId, location, coord, caller, now).value, rsuId)
  {
    var s' := RegisterRSU(s, rsuId, mspId, location, coord, caller, now).value;
    assert IsDecider(RegistryIn(s'), rsuId, |RegistryIn(s).rsus|);
  }

  /** Deactivation revokes the unit's authority: its identity no longer passes the check. */
  lemma DeactivationRevokesAuthority(s: Store, rsuId: string, now: int)
    requires HasRegistry(s) ==> RegistryInvariant(RegistryIn(s))
    requires DeactivateRSU(s, rsuId, now).Ok?
    ensures !IsAuthority(DeactivateRSU(s, rsuId, now).value, rsuId)
  {
    var s' := DeactivateRSU(s, rsuId, now).value;
    var reg, reg' := RegistryIn(s), RegistryIn(s');
    var i :| 0 <= i < |reg.rsus| && reg.rsus[i].rsuId == rsuId
             && reg'.rsus == reg.rsus[i := reg.rsus[i].(status := Inactive, deactivatedAt := Some(now))];
  }

  /** Deactivating twice succeeds both times and the unit stays INACTIVE. */
  lemma DeactivateAgainSucceeds(s: Store, rsuId: string, now: int, later: int)
    requires DeactivateRSU(s, rsuId, now).Ok?
    ensures DeactivateRSU(DeactivateRSU(s, rsuId, now).value, rsuId, later).Ok?
    ensures var reg := RegistryIn(DeactivateRSU(DeactivateRSU(s, rsuId, now).value, rsuId, later).value);
            exists i :: 0 <= i < |reg.rsus| && reg.rsus[i].rsuId == rsuId && reg.rsus[i].status == Inactive
  {
    var s1 := DeactivateRSU(s, rsuId, now).value;
    var reg, reg1 := RegistryIn(s), RegistryIn(s1);
    var i :| 0 <= i < |reg.rsus| && reg.rsus[i].rsuId == rsuId
             && reg1.rsus == reg.rsus[i := reg.rsus[i].(status := Inactive, deactivatedAt := Some(now))];
    assert reg1.rsus[i].rsuId == rsuId;
    var s2 := DeactivateRSU(s1, rsuId, later).value;
    var reg2 := RegistryIn(s2);
    var i2 :| 0 <= i2 < |reg1.rsus| && reg1.rsus[i2].rsuId == rsuId
              && reg2.rsus == reg1.rsus[i2 := reg1.rsus[i2].(status := Inactive, deactivatedAt := Some(later))];
    assert reg2.rsus[i2].status == Inactive;
  }

  lemma InitPreservesWellFormed(s: Store, now: int)
    requires WellFormed(s)
    requires InitAuthorities(s, now).Ok?
    ensures Extends(s, InitAuthorities(s, now).value)
    ensures WellFormed(InitAuthorities(s, now).value)
  {
    var s' := InitAuthorities(s, now).value;
    WellFormedAfterExtension(s, s');
  }

  lemma RegisterRsuPreservesWellFormed(s: Store, rsuId: string, mspId: string, location: string,
                                  coord: Coord, caller: string, now: int)
    requires WellFormed(s)
    requires RegisterRSU(s, rsuId, mspId, location, coord, caller, now).Ok?
    ensures Extends(s, RegisterRSU(s, rsuId, mspId, location, coord, caller, now).value)
    ensures WellFormed(RegisterRSU(s, rsuId, mspId, location, coord, caller, now).value)
  {
    var s' := RegisterRSU(s, rsuId, mspId, location, coord, caller, now).value;
    var reg, reg' := RegistryIn(s), RegistryIn(s');
    var n := |reg.rsus|;
    forall i | 0 <= i < n
      ensures reg'.rsus[i] == reg.rsus[i]
    {
      assert reg'.rsus[..n][i] == reg'.rsus[i];
    }
    forall i, j | 0 <= i < j < |reg'.rsus|
      ensures reg'.rsus[i].rsuId != reg'.rsus[j].rsuId
    {
      if j == n {
        assert reg.rsus[i].rsuId != rsuId;
      }
    }
    assert RegistryInvariant(reg');
    WellFormedAfterExtension(s, s');
  }

  lemma DeactivatePreservesWellFormed(s: Store, rsuId: string, now: int)
    requires WellFormed(s)
    requires DeactivateRSU(s, rsuId, now).Ok?
    ensures Extends(s, DeactivateRSU(s, rsuId, now).value)
    ensures WellFormed(DeactivateRSU(s, rsuId, now).value)
  {
    var s' := DeactivateRSU(s, rsuId, now).value;
    var reg, reg' := RegistryIn(s), RegistryIn(s');
    var i :| 0 <= i < |reg.rsus| && reg.rsus[i].rsuId == rsuId
             && reg'.rsus == reg.rsus[i := reg.rsus[i].(status := Inactive, deactivatedAt := Some(now))];
    RetiredEntryGrows(reg, reg', i, now);
    WellFormedAfterExtension(s, s');
  }

  lemma RetiredEntryGrows(reg: Registry, reg': Registry, i: nat, now: int)
    requires RegistryInvariant(reg) && i < |reg.rsus| && reg'.count == reg.count
    requires reg'.rsus == reg.rsus[i := reg.rsus[i].(status := Inactive, deactivatedAt := Some(now))]
    ensures RegistryInvariant(reg') && RegistryGrows(reg, reg')
  {
  }
}

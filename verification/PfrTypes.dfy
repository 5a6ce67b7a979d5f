/** The state, events and persisted data of the platform state machine
    (AspeedStateMachine.c) in its Cerberus configuration: no attestation, no
    seamless update, no CPLD update. Flag bytes are given bit by bit. */
module PfrTypes {
  import opened Options

  datatype State =
    | Boot
    | Init
    | RotRecovery
    | FirmwareVerify
    | FirmwareRecovery
    | FirmwareUpdate
    | Unprovisioned
    | Runtime
    | SystemLockdown
    | SystemReboot
  {
    /** Children of TMIN1 and of TZERO in the state hierarchy. */
    predicate InTmin1() {
      FirmwareVerify? || FirmwareRecovery? || FirmwareUpdate? || SystemLockdown?
    }

    predicate InTzero() {
      Unprovisioned? || Runtime?
    }
  }

  datatype Kind =
    | StartStateMachine
    | InitDone
    | InitRotSecondaryBooted
    | VerifyUnprovisioned
    | VerifyFailed
    | VerifyDone
    | RecoveryFailed
    | RecoveryDone
    | ResetDetected
    | UpdateRequested
    | WdtCheckpoint
    | WdtTimeout
    | UpdateDone
    | UpdateFailed
    | ProvisionCmd
    | UpdateIntent2Requested
    | HandshakeFailed
    | BmcResetCommRequested

  datatype RegionId = Rot | Bmc | Pch

  /** One value for each region. */
  datatype PerRegion<+T> = PerRegion(rot: T, bmc: T, pch: T) {
    function Get(r: RegionId): T {
      match r case Rot => rot case Bmc => bmc case Pch => pch
    }

    function Set(r: RegionId, v: T): PerRegion<T> {
      match r case Rot => this.(rot := v) case Bmc => this.(bmc := v) case Pch => this.(pch := v)
    }
  }

  const NONE_OF_THEM := PerRegion(false, false, false)

  /** The low six bits of an update intent byte: which active and recovery images. */
  datatype Regions = Regions(active: PerRegion<bool>, recovery: PerRegion<bool>) {
    predicate Any() {
      this != NO_REGIONS
    }

    function Without(r: RegionId): Regions {
      this.(active := active.Set(r, false))
    }

    function WithoutRecovery(r: RegionId): Regions {
      this.(recovery := recovery.Set(r, false))
    }

    function Count(): nat {
      Ones(active) + Ones(recovery)
    }
  }

  const NO_REGIONS := Regions(NONE_OF_THEM, NONE_OF_THEM)

  function Ones(p: PerRegion<bool>): nat {
    (if p.rot then 1 else 0) + (if p.bmc then 1 else 0) + (if p.pch then 1 else 0)
  }

  /** Byte 1 of an event, the update intent, and byte 3, the handled regions. */
  datatype Intent = Intent(regions: Regions, dynamicUpdate: bool, atReset: bool)

  const NO_INTENT := Intent(NO_REGIONS, false, false)

  /** Byte 2 of an event: other information. */
  datatype Flags = Flags(bmcOnlyReset: bool, pchOnlyReset: bool, bootDone: bool)

  const NO_FLAGS := Flags(false, false, false)

  /** An event with the four bytes of its in-place data. Byte 0 is the mailbox
      register of a request, or the component of a boot timer. */
  datatype Event = Event(kind: Kind, source: nat, intent: Intent, flags: Flags, handled: Intent)

  function NoData(kind: Kind): Event {
    Event(kind, 0, NO_INTENT, NO_FLAGS, NO_INTENT)
  }

  const PCH_UPDATE_INTENT := 0x12
  const BMC_UPDATE_INTENT := 0x13
  const BMC_EVENT := 1
  const PCH_EVENT := 2

  // Values of a region's persisted update fields; 0 is none.
  const BMC_INTENT_UPDATE_AT_RESET := 1
  const BMC_INTENT_RECOVERY_PENDING := 2
  const PCH_INTENT_UPDATE_AT_RESET := 3
  const PCH_INTENT_RECOVERY_PENDING := 4
  const RECOVERY_PENDING_REQUEST_HANDLED := 5

  predicate Pending(recovery: nat) {
    recovery == BMC_INTENT_RECOVERY_PENDING || recovery == PCH_INTENT_RECOVERY_PENDING
  }

  /** A region's persisted active-update field: a request code and its dynamic bit. */
  datatype ActiveField = ActiveField(code: nat, dynamicUpdate: bool)

  const NO_ACTIVE := ActiveField(0, false)

  /** `CPLD_STATUS`, without the fields this configuration never reads. */
  datatype UpdateStatus = UpdateStatus(rotRequested: bool, bmcRequested: bool, pchRequested: bool,
                                       active: PerRegion<ActiveField>, recovery: PerRegion<nat>,
                                       bmcToPch: bool, rotRecovery: bool)

  /** A 48-byte staging hash as a number. */
  type Hash = nat

  /** What `get_staging_hash` gives: whether it succeeded and the hash buffer after it.
      The callers look at the buffer only. */
  datatype Reading = Reading(ok: bool, buffer: Hash)

  /** The update-status flash: the status and one cached hash for each region. */
  datatype Persisted = Persisted(status: UpdateStatus, hashes: PerRegion<Hash>)

  /** Verification status of one platform image: the active-object bits. */
  datatype Image = Image(activeOk: bool, recoveryOk: bool, restrictActive: bool)

  datatype Flash = Primary | Secondary

  /** How a pending recovery update came about: the reading of the staging region
      cached with the request, and whether the request's active update succeeded. */
  datatype Origin = Origin(reading: Reading, activeOk: bool)

  type Origins = PerRegion<Option<Origin>>

  /** An image update carried out. */
  datatype Dispatch = Dispatch(region: RegionId, flash: Flash)
}

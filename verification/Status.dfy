/** The status of a tracked connection: one 64-bit word that packs the time of
    its last activity with an "active" flag in the top bit (ConnTracker.h). */
module Status {

  const ACTIVE_FLAG: int := 0x8000_0000_0000_0000

  type UInt64 = x: int | 0 <= x < 2 * ACTIVE_FLAG

  type Int64 = x: int | -ACTIVE_FLAG <= x < ACTIVE_FLAG

  /** A reading of the clock, in microseconds since the epoch. */
  type Micros = x: Int64 | 0 <= x

  /** The cast of a signed to an unsigned 64-bit number. */
  function ToUnsigned(x: Int64): UInt64 {
    if x < 0 then x + 2 * ACTIVE_FLAG else x
  }

  /** The word without its top bit. */
  function WithoutFlag(data: UInt64): (r: UInt64)
    ensures r < ACTIVE_FLAG
  {
    if data >= ACTIVE_FLAG then data - ACTIVE_FLAG else data
  }

  function MakeActive(data: UInt64, active: bool): UInt64 {
    if active then WithoutFlag(data) + ACTIVE_FLAG else WithoutFlag(data)
  }

  datatype ConnStatus = Packed(data: UInt64) {
    function LastActiveTime(): (t: int)
      ensures 0 <= t < ACTIVE_FLAG
    {
      WithoutFlag(data)
    }

    predicate IsActive() {
      data >= ACTIVE_FLAG
    }

    function WithStatus(active: bool): ConnStatus {
      Packed(MakeActive(data, active))
    }

    /** Merging takes the larger word. */
    function MergeFrom(other: ConnStatus): ConnStatus {
      if data < other.data then other else this
    }

    predicate IsInAfterglowPeriod(time: int, period: int) {
      time - LastActiveTime() < period
    }

    predicate WasRecentlyActive(time: int, period: int) {
      IsActive() || IsInAfterglowPeriod(time, period)
    }
  }

  function NewStatus(microtimestamp: Int64, active: bool): ConnStatus {
    Packed(MakeActive(ToUnsigned(microtimestamp), active))
  }

  lemma PackingKeepsBoth(time: int, active: bool)
    requires 0 <= time <= 0x7FFF_FFFF_FFFF_FFFF
    ensures NewStatus(time, active).LastActiveTime() == time
    ensures NewStatus(time, active).IsActive() == active
  {
  }

  lemma WithStatusChangesFlagOnly(s: ConnStatus, active: bool)
    ensures s.WithStatus(active).IsActive() == active
    ensures s.WithStatus(active).LastActiveTime() == s.LastActiveTime()
    ensures s.IsActive() == active ==> s.WithStatus(active) == s
    ensures NewStatus(s.LastActiveTime(), active) == s.WithStatus(active)
  {
  }

  /** The larger word is the active one, and among equal flags the later one. */
  lemma MergePrefersActiveThenLater(s: ConnStatus, r: ConnStatus)
    ensures s.data <= r.data <==>
              if s.IsActive() == r.IsActive() then s.LastActiveTime() <= r.LastActiveTime() else r.IsActive()
  {
  }
}

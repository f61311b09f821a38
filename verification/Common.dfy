/** Shared value types: the option, instants, addresses and byte strings. */
module Common {
  datatype Option<+T> = None | Some(value: T) {
    function UnwrapOr(default: T): T { if Some? then value else default }
  }

  /** Nanoseconds since an origin. The value 0 is the unset instant. */
  type Time = nat

  newtype byte = x: int | 0 <= x < 0x100

  type Bytes = seq<byte>

  function Pow2(n: nat): (p: nat)
    ensures p > 0
  {
    if n == 0 then 1 else 2 * Pow2(n - 1)
  }
}

/** The durations of core/timing/timing.go that the proofs rely on. */
module Timing {
  const SECOND: nat := 1_000_000_000
  const MINUTE: nat := 60 * SECOND
  const HOUR: nat := 60 * MINUTE

  const HOST_ABSENCE_LIMIT: nat := 20 * MINUTE
  const HOST_SILENCE_LIMIT: nat := 6 * MINUTE
  const RECONNECT_LIMIT: nat := 10 * MINUTE
  const CREDENTIAL_TTL: nat := 24 * HOUR
  const ARRIVAL_GRACE: nat := 10 * MINUTE
  const KICK_GRACE: nat := 30 * SECOND
  const ROOM_TTL: nat := 21 * 24 * HOUR
}

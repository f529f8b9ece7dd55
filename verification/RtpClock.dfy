/** The RTP clock: microseconds since a shared origin turned into media ticks. */
module RtpClock {
  import opened Arithmetic

  /** Microseconds from the clock origin to a capture stamp; stamps before the origin count as 0. */
  function CaptureUs(origin: int, stamp: int): nat { Max(0, TruncDiv(stamp - origin, 1000)) }

  /** Media ticks before wrapping to the 32-bit timestamp of the wire. */
  function Ticks(origin: int, stamp: int, rate: nat): nat { CaptureUs(origin, stamp) * rate / 1_000_000 }

  function Timestamp(origin: int, stamp: int, rate: nat): uint32 { ToU32(Ticks(origin, stamp, rate)) }
}

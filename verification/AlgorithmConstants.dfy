/** The planner's parameters, and the arithmetic that uses two of them at a time. */
module AlgorithmConstants {
  const TH_SAFE := 0.60
  const MAX_LOAD := 103324.0
  const BUFFER_SIZE := 100000000.0
  const SFMT := 42.160
  const LA_PROCESS := 50.0
  const MIGTIME_GAMMA := 39.205
  const MIGTIME_ETA := 2.9545
  const PENALTY_ALPHA := 1.0
  const MAX_COST := 2147483647.0
  const PICKED := -2147483648.0

  /** The load that is safe, as a rate. */
  const SAFE_LOAD := MAX_LOAD * TH_SAFE

  /** The time for which packets are buffered while flows move in SFMT. */
  const BUFFERED_TIME := SFMT + 2.0 * LA_PROCESS

  /** A rate as a part of the load an instance can carry. */
  function Share(rate: real): (load: real)
  {
    rate / MAX_LOAD
  }

  /** The time to migrate n flows. */
  function MigTime(n: int): (t: real)
  {
    MIGTIME_GAMMA + n as real * MIGTIME_ETA
  }

  /** The time for which packets are buffered while n flows move. */
  function BufferTime(n: int): (t: real)
  {
    MigTime(n) + 2.0 * LA_PROCESS
  }

  /** Penalties charged for the time a flow is delayed. */
  function Charged(penalties: real): (c: real)
  {
    penalties * SFMT * PENALTY_ALPHA
  }
}

/** The worker's configuration. */
module Settings {
  import Backoff

  /** Durations are nanoseconds. The poll interval and the default timeout only bound how long things take. */
  datatype Config = Config(
    batchSize: int,
    pollInterval: int,
    baseBackoff: int,
    maxBackoff: int,
    staleAfter: int,
    circuitThreshold: int,
    circuitCooldown: int,
    defaultTimeout: int,
    defaultMaxAttempts: int)

  const SECOND: int := 1_000_000_000
  const MINUTE: int := 60 * SECOND
  const MILLISECOND: int := 1_000_000

  /** What NewDeliveryWorker leaves in every field. */
  predicate Normal(cfg: Config) {
    && cfg.batchSize > 0
    && cfg.pollInterval > 0
    && cfg.baseBackoff > 0
    && cfg.maxBackoff > 0
    && cfg.staleAfter > 0
    && cfg.circuitThreshold > 0
    && cfg.circuitCooldown > 0
    && cfg.defaultTimeout > 0
    && cfg.defaultMaxAttempts > 0
  }

  /** The fields that are 64-bit durations in the source hold 64-bit values. */
  predicate Typed(cfg: Config) {
    && cfg.baseBackoff <= Backoff.MAX_INT64
    && cfg.maxBackoff <= Backoff.MAX_INT64
  }

  /** The longest delay does not wrap around, so that no delay is negative. */
  predicate Forward(cfg: Config) {
    Normal(cfg) && Backoff.Longest(cfg.maxBackoff) <= Backoff.MAX_INT64
  }

  /** The backoff of every attempt that can be retried is computed without overflow. */
  predicate Sound(cfg: Config) {
    Forward(cfg) && cfg.baseBackoff * 262144 <= Backoff.MAX_INT64  // 2^18, for the nineteenth attempt
  }

  /** The age at which a claim counts as stale: StaleAfter.Milliseconds() drops the sub-millisecond part. */
  function StaleWindow(cfg: Config): int {
    cfg.staleAfter / MILLISECOND * MILLISECOND
  }

  function RetryDelay(cfg: Config, k: int): int
    requires k >= 1
  {
    Backoff.Delay(cfg.baseBackoff, cfg.maxBackoff, k)
  }

  lemma {:induction false} DelayIsForward(cfg: Config, k: int, d: int)
    requires Forward(cfg) && 1 <= k && Backoff.MayReturn(cfg.baseBackoff, cfg.maxBackoff, k, d)
    ensures 1 <= d
  {
    var base := Backoff.Float(cfg.baseBackoff);
    Backoff.FloatPositive(cfg.baseBackoff);
    Backoff.ScaledPositive(base, k - 1);
    if base * Backoff.Pow2(k - 1) <= Backoff.MAX_INT64 {
      var delay := Backoff.Delay(base, cfg.maxBackoff, k);
      if d != delay {
        var jitter :| 0 <= jitter < delay / 2 && d == Backoff.Jittered(delay, jitter);
      }
    }
  }

  /** For every attempt count a retry can have, a sound configuration gives the intended delay. */
  lemma {:induction false} RetryDelayInRange(cfg: Config, k: int, d: int)
    requires Sound(cfg) && 1 <= k <= 19
    requires Backoff.MayReturn(cfg.baseBackoff, cfg.maxBackoff, k, d)
    ensures 1 <= RetryDelay(cfg, k) && Backoff.InRange(RetryDelay(cfg, k), d)
  {
    Backoff.Pow2Of18();
    Backoff.ScaledMonotone(cfg.baseBackoff, k - 1, 18);
    Backoff.ScaledPositive(cfg.baseBackoff, k - 1);
    Backoff.ShortBaseIsExactlyWhen(cfg.baseBackoff, cfg.maxBackoff, k);
  }

  /** The configuration that the gateway starts its worker with, up to the two values read from the file. */
  function Shipped(defaultTimeout: int, defaultMaxAttempts: int): Config {
    Config(20, SECOND, SECOND, 5 * MINUTE, 2 * MINUTE, 5, MINUTE, defaultTimeout, defaultMaxAttempts)
  }

  lemma {:induction false} ShippedIsSound(defaultTimeout: int, defaultMaxAttempts: int)
    requires defaultTimeout > 0 && defaultMaxAttempts > 0
    ensures Sound(Shipped(defaultTimeout, defaultMaxAttempts))
    ensures StaleWindow(Shipped(defaultTimeout, defaultMaxAttempts)) == 2 * MINUTE
  {
  }
}

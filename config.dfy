/** Build-time constants of the gate firmware and the fixed-width integer
    arithmetic its C++ code relies on (32-bit `unsigned long` on the ESP32,
    `uint8_t` counters). */
module Config {

  /** 2^32: `unsigned long` and `uint32_t` wrap at this modulus. */
  const U32Modulus: int := 0x1_0000_0000
  /** ULONG_MAX / 2: the largest cap for which doubling cannot overflow. */
  const HalfULongMax: int := 0x7FFF_FFFF

  type U32 = x: int | 0 <= x < U32Modulus
  type U8 = x: int | 0 <= x < 256

  // Recovery thresholds and backoff configuration
  const MqttFailsBeforePppRebuild: U8 := 3
  const PppFailsBeforeModemReset: U8 := 2
  const BackoffBaseMs: U32 := 1000
  const BackoffMaxMs: U32 := 60000

  // Timeouts and intervals (milliseconds)
  const AtCmdTimeoutMs: U32 := 5000
  const AtInitTimeoutMs: U32 := 30000
  const StatusIntervalMs: U32 := 5000
  /** The literal boot-settle delay of the modem's WAIT_POWER stage. */
  const ModemBootSettleMs: U32 := 5000

  const CellularApn: string := "internetg"
  const MqttCmdTopic: string := "pgr/mitspe6/gate/cmd"

  /** `now - since` computed on unsigned 32-bit values, as `millis()`
      differences are: the difference wraps when the clock has wrapped. */
  function Elapsed(now: U32, since: U32): (d: U32)
    ensures since <= now ==> d == now - since
    ensures now < since ==> d == now - since + U32Modulus
  {
    (now - since) % U32Modulus
  }

  /** Post-increment of a `uint8_t` counter. */
  function IncU8(x: U8): (y: U8)
    ensures x < 255 ==> y == x + 1
    ensures x == 255 ==> y == 0
  {
    (x + 1) % 256
  }

  /** What `strncpy(dst, src, n); dst[n] = '\0'` leaves in `dst`: the
      first `n` characters of the C string `src`. */
  function Truncate(s: string, n: nat): (t: string)
    ensures |t| <= n && t <= s
    ensures |s| <= n ==> t == s
    ensures |s| > n ==> |t| == n
  {
    if |s| <= n then s else s[..n]
  }

  function Min(a: int, b: int): int { if a <= b then a else b }
  function Max(a: int, b: int): int { if a <= b then b else a }

  // Ring-index arithmetic used by the ring buffers

  lemma MulAtLeast(d: int, n: int)
    requires d >= 1 && n > 0
    ensures d * n >= n
  {
    assert d * n == n + (d - 1) * n;
  }

  /** The remainder is determined by any quotient/remainder decomposition. */
  lemma ModUnique(x: int, q: int, r: int, n: int)
    requires n > 0 && 0 <= r < n && x == q * n + r
    ensures x % n == r
  {
    var q' := x / n;
    var r' := x % n;
    assert x == q' * n + r';
    assert (q - q') * n == r' - r;
    if q > q' {
      MulAtLeast(q - q', n);
    } else if q < q' {
      MulAtLeast(q' - q, n);
    }
  }

  lemma ModShift(x: int, n: int)
    requires n > 0
    ensures (x + n) % n == x % n
  {
    var q := x / n;
    var r := x % n;
    assert x == q * n + r;
    assert x + n == (q + 1) * n + r;
    ModUnique(x + n, q + 1, r, n);
  }

  /** Stepping a reduced index is stepping the unreduced one. */
  lemma ModStep(x: int, n: int)
    requires n > 0
    ensures (x % n + 1) % n == (x + 1) % n
  {
    var q := x / n;
    var r := x % n;
    assert x == q * n + r;
    if r + 1 < n {
      ModUnique(x + 1, q, r + 1, n);
      ModUnique(r + 1, 0, r + 1, n);
    } else {
      assert x + 1 == (q + 1) * n + 0;
      ModUnique(x + 1, q + 1, 0, n);
      ModUnique(r + 1, 1, 0, n);
    }
  }

  /** Two positions fewer than `n` apart fall in different slots. */
  lemma ModDistinct(a: nat, k: nat, n: nat)
    requires 0 < k < n
    ensures a % n != (a + k) % n
  {
    var q := a / n;
    var r := a % n;
    assert a == q * n + r;
    if r + k < n {
      ModUnique(a + k, q, r + k, n);
    } else {
      assert a + k == (q + 1) * n + (r + k - n);
      ModUnique(a + k, q + 1, r + k - n, n);
    }
  }

  /** Reducing the left operand first does not change a sum's remainder. */
  lemma ModAdd(x: int, y: int, n: int)
    requires n > 0
    ensures (x % n + y) % n == (x + y) % n
  {
    var q := x / n;
    var r := x % n;
    assert x == q * n + r;
    var q2 := (r + y) / n;
    var r2 := (r + y) % n;
    assert r + y == q2 * n + r2;
    assert x + y == (q + q2) * n + r2;
    ModUnique(x + y, q + q2, r2, n);
  }
}

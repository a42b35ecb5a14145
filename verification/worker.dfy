/**
 The activation worker: the dwell delay, `hot_corner_fn`, and one pass of the
 worker thread's loop (wait for the flag, run `hot_corner_fn`, clear the flag).
 Sleeping is not modelled as time: the delay is carried as a number of
 milliseconds, and the cursor position read after the sleep is an input.
 */
module Worker {
  import opened Wrappers
  import opened Geometry
  import opened Keys

  /** Unsigned 64-bit integers, the type of the configured `delay`. */
  type u64 = x: int | 0 <= x < 0x1_0000_0000_0000_0000

  /** How long the cursor must stay in the corner when no delay is configured. */
  const DEFAULT_HOT_DELAY_MS: nat := 100

  /** A configured delay replaces the default; without one the default stands. */
  function HotDelay(configured: Option<u64>): (ms: nat)
    ensures configured.Some? ==> ms == configured.value
    ensures configured.None? ==> ms == DEFAULT_HOT_DELAY_MS
  {
    match configured
    case Some(d) => d
    case None => DEFAULT_HOT_DELAY_MS
  }

  /**
   What `hot_corner_fn` does after its sleep. `cursor` is the result of
   `GetCursorPos` (`None` when it fails) and `accepted` the count `SendInput`
   would report. The batch is sent only when the cursor could be read and is
   still in the corner; a diagnostic is printed only when a sent batch was not
   fully accepted.
   */
  datatype Injection = Injection(sent: seq<KeyboardInput>, diagnostic: bool)

  function HotCornerFn(cursor: Option<Point>, accepted: nat): (r: Injection)
    ensures r.sent == [] || r.sent == HOT_CORNER_INPUT
    ensures r.sent != [] <==> cursor.Some? && Contains(HOT_CORNER, cursor.value)
    ensures r.diagnostic <==> r.sent != [] && accepted != |HOT_CORNER_INPUT|
  {
    match cursor
    case None => Injection([], false)
    case Some(p) =>
      if Contains(HOT_CORNER, p) then Injection(HOT_CORNER_INPUT, accepted != |HOT_CORNER_INPUT|)
      else Injection([], false)
  }

  /** One pass of the worker loop, observed from the flag it found. */
  datatype Pass = Pass(ran: bool, sleptMs: nat, injection: Injection, flag: bool)

  /**
   The worker stays parked while the flag is down. Once it is up, the worker
   runs `hot_corner_fn` (which sleeps for the delay, then reads the cursor and
   perhaps sends the batch), and then clears the flag whether or
   not anything was sent.
   */
  function WorkerPass(flag: bool, delayMs: nat, cursor: Option<Point>, accepted: nat): (r: Pass)
    ensures !r.flag
    ensures r.ran <==> flag
    ensures r.ran ==> r.sleptMs == delayMs
    ensures !r.ran ==> r.sleptMs == 0 && r.injection.sent == [] && !r.injection.diagnostic
    ensures r.injection.sent != [] <==> flag && cursor.Some? && Contains(HOT_CORNER, cursor.value)
    ensures r.injection.sent != [] ==> r.injection.sent == HOT_CORNER_INPUT
  {
    if flag then Pass(true, delayMs, HotCornerFn(cursor, accepted), false)
    else Pass(false, 0, Injection([], false), false)
  }

  /** A woken worker sleeps for the configured delay when there is one, and 100 ms otherwise. */
  lemma ConfiguredDelayIsSlept(configured: Option<u64>, cursor: Option<Point>, accepted: nat)
    ensures var slept := WorkerPass(true, HotDelay(configured), cursor, accepted).sleptMs;
            (configured.Some? ==> slept == configured.value) && (configured.None? ==> slept == 100)
  {
  }
}

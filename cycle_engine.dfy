// The raw cyclic exchange with the I/O board: an absolute-time wake-up
// schedule advanced by `sleep_until`, and a loop that per pass waits,
// receives, toggles a blink pattern, writes the nine output entries, reads
// the twelve input entries and sends, until a stop signal is seen at the
// loop head.

module CycleEngine {

  /** The cycle period, in microseconds. */
  const CycleUs: int := 4000

  const NsPerSec: int := 1000000000

  /** Passes between two toggles of the blink pattern. */
  const BlinkPeriod: int := 500

  // ---------------------------------------------------------------------
  // Absolute wake-up times.

  /** A `struct timespec` value: seconds and nanoseconds. */
  datatype Instant = Instant(sec: int, nsec: int)

  /** The instant counted in nanoseconds. */
  function Nanos(t: Instant): int
  {
    t.sec * NsPerSec + t.nsec
  }

  predicate Normalized(t: Instant)
  {
    0 <= t.nsec < NsPerSec
  }

  /** The `struct timespec` that `sleep_until` updates through its pointer. */
  class Timespec {
    var tvSec: int
    var tvNsec: int

    constructor (t: Instant)
      ensures Value() == t
    {
      tvSec := t.sec;
      tvNsec := t.nsec;
    }

    function Value(): Instant
      reads this
    {
      Instant(tvSec, tvNsec)
    }
  }

  /** The instant `sleep_until` leaves behind: `delayUs` microseconds later,
      with whole seconds carried out of the nanoseconds field. */
  function Advance(t: Instant, delayUs: int): (r: Instant)
    // the time accounting is exact
    ensures Nanos(r) == Nanos(t) + delayUs * 1000
    // the nanoseconds end below one second, and are normalised whenever the
    // sum the carry loop starts from is not negative
    ensures r.nsec < NsPerSec
    ensures 0 <= t.nsec + delayUs * 1000 ==> Normalized(r)
    // seconds only grow, and only when the nanoseconds overflow
    ensures t.sec <= r.sec
    ensures r.sec == t.sec <==> t.nsec + delayUs * 1000 < NsPerSec
  {
    var n := t.nsec + delayUs * 1000;
    if n < NsPerSec then Instant(t.sec, n) else Instant(t.sec + n / NsPerSec, n % NsPerSec)
  }

  /** `sleep_until(ts, delay_us)`: advance the wake-up time by the delay and
      carry whole seconds, one per loop iteration. The absolute sleep itself
      is a real-time effect and is represented by the caller's Wait event. */
  method SleepUntil(ts: Timespec, delayUs: int)
    modifies ts
    ensures ts.Value() == Advance(old(ts.Value()), delayUs)
  {
    ghost var sec0 := ts.tvSec;
    ghost var n := ts.tvNsec + delayUs * 1000;
    ts.tvNsec := ts.tvNsec + delayUs * 1000;
    while ts.tvNsec >= NsPerSec
      invariant ts.tvSec * NsPerSec + ts.tvNsec == sec0 * NsPerSec + n
      invariant (ts.tvSec == sec0 && ts.tvNsec == n) || (sec0 < ts.tvSec && 0 <= ts.tvNsec)
      decreases ts.tvNsec
    {
      ts.tvNsec := ts.tvNsec - NsPerSec;
      ts.tvSec := ts.tvSec + 1;
    }
    if ts.tvSec != sec0 {
      DivModUnique(n, ts.tvSec - sec0, ts.tvNsec);
    }
  }

  lemma DivModUnique(n: int, q: int, r: int)
    requires q * NsPerSec + r == n && 0 <= r < NsPerSec
    ensures n / NsPerSec == q && n % NsPerSec == r
  {
  }

  /** With a normalised time and the 4 ms period the carry loop runs at most
      once: the seconds grow by at most one. */
  lemma SingleCarry(t: Instant)
    requires Normalized(t)
    ensures t.sec <= Advance(t, CycleUs).sec <= t.sec + 1
    ensures Advance(t, CycleUs).sec == t.sec + 1 <==> NsPerSec <= t.nsec + CycleUs * 1000
  {
    var n := t.nsec + CycleUs * 1000;
    if n >= NsPerSec {
      DivModUnique(n, 1, n - NsPerSec);
    }
  }

  /** The wake-up time after `k` passes: the start reading advanced by one
      period per pass, never re-read from the clock. */
  function Schedule(start: Instant, k: nat): Instant
  {
    if k == 0 then start else Advance(Schedule(start, k - 1), CycleUs)
  }

  /** Drift-free schedule: after k passes the wake-up time is exactly the
      start reading plus k periods, and stays normalised. */
  lemma {:induction false} DriftFree(start: Instant, k: nat)
    requires Normalized(start)
    ensures Nanos(Schedule(start, k)) == Nanos(start) + k * CycleUs * 1000
    ensures Normalized(Schedule(start, k))
  {
    if k > 0 {
      DriftFree(start, k - 1);
    }
  }

  // ---------------------------------------------------------------------
  // The blink pattern.

  /** `output_val` after `k` passes: pass j + 1 toggles it exactly when the
      counter value it reads, j, is a multiple of the blink period. */
  function BlinkAfter(k: nat): (v: int)
    ensures v == 0x0000 || v == 0xFFFF
  {
    if k == 0 then 0x0000
    else
      var prev := BlinkAfter(k - 1);
      if (k - 1) % BlinkPeriod == 0 then (if prev == 0x0000 then 0xFFFF else 0x0000) else prev
  }

  /** The pattern toggles exactly on the passes that read a counter value
      divisible by 500, and the first pass switches the outputs on. */
  lemma BlinkToggles(k: nat)
    ensures BlinkAfter(k + 1) != BlinkAfter(k) <==> k % BlinkPeriod == 0
    ensures BlinkAfter(1) == 0xFFFF
  {
  }

  /** Closed form: the outputs are on after k passes exactly when an odd
      number of toggles, ceil(k / 500), has happened. */
  lemma {:induction false} BlinkClosedForm(k: nat)
    ensures BlinkAfter(k) == if ((k + BlinkPeriod - 1) / BlinkPeriod) % 2 == 1 then 0xFFFF else 0x0000
  {
    if k > 0 {
      BlinkClosedForm(k - 1);
      var j := k - 1;
      var q := j / BlinkPeriod;
      var r := j % BlinkPeriod;
      assert j == q * BlinkPeriod + r;
      if r == 0 {
        assert (j + BlinkPeriod - 1) / BlinkPeriod == q;
        assert (k + BlinkPeriod - 1) / BlinkPeriod == q + 1;
      } else {
        assert (j + BlinkPeriod - 1) / BlinkPeriod == q + 1;
        assert (k + BlinkPeriod - 1) / BlinkPeriod == q + 1;
      }
    }
  }

  // ---------------------------------------------------------------------
  // The process-data image of the I/O board.

  /** What the loop does, in order, as seen from outside. */
  datatype Event =
    | Wait(until: Instant)            // clock_nanosleep to the absolute wake-up time
    | Receive                         // ecrt_master_receive
    | Process                         // ecrt_domain_process
    | Write(entry: nat, value: int)   // EC_WRITE_U16/U32 to output entry 0x7000:entry
    | Read(entry: nat)                // EC_READ_U16/U32 of input entry 0x6000 + entry
    | Queue                           // ecrt_domain_queue
    | Send                            // ecrt_master_send

  /** Declared bit lengths of the mapped entries: output entries
      0x7000:01..09 of RxPDO 0x1600, and input entries 0x6000..0x600b of
      TxPDO 0x1A00. */
  const OutputWidths: seq<nat> := [32, 32, 16, 16, 32, 16, 16, 16, 32]
  const InputWidths: seq<nat> := [32, 32, 16, 16, 32, 16, 16, 16, 32, 32, 32, 32]

  /** The number of values a field of the given width holds (the loop uses
      16- and 32-bit fields only). */
  function FieldLimit(width: nat): int
  {
    if width == 16 then 0x1_0000 else 0x1_0000_0000
  }

  /** The value a field of the given width can hold: `v` cut to its low bits. */
  function Truncate(v: int, width: nat): (r: int)
    ensures 0 <= r < FieldLimit(width)
    ensures 0 <= v < FieldLimit(width) ==> r == v
  {
    v % FieldLimit(width)
  }

  /** The twelve input words of one exchange, as the board reports them. */
  type InputFrame = s: seq<int> | |s| == 12 witness [0, 0, 0, 0, 0, 0, 0, 0, 0, 0, 0, 0]

  /** The domain's process data: one slot per registered entry, and the
      events of the loop so far. */
  class Domain {
    const outputs: array<int>
    const inputs: array<int>
    var trace: seq<Event>

    ghost predicate Valid()
    {
      outputs.Length == 9 && inputs.Length == 12 && outputs != inputs
    }

    constructor ()
      ensures Valid() && fresh(outputs) && fresh(inputs) && trace == []
    {
      outputs := new int[9](_ => 0);
      inputs := new int[12](_ => 0);
      trace := [];
    }

    method Receive()
      modifies this
      ensures trace == old(trace) + [Event.Receive]
    {
      trace := trace + [Event.Receive];
    }

    /** Brings the input words of the received frame into the image. */
    method Process(frame: InputFrame)
      requires Valid()
      modifies this, inputs
      ensures inputs[..] == frame && outputs[..] == old(outputs[..])
      ensures trace == old(trace) + [Event.Process]
    {
      forall k | 0 <= k < 12 {
        inputs[k] := frame[k];
      }
      trace := trace + [Event.Process];
    }

    /** Writes output entry 0x7000:entry with an access of `width` bits
      (EC_WRITE_U16 or EC_WRITE_U32). */
    method Write(entry: nat, width: nat, value: int)
      requires Valid() && 1 <= entry <= 9
      modifies this, outputs
      ensures outputs[..] == old(outputs[..])[entry - 1 := Truncate(value, width)]
      ensures trace == old(trace) + [Event.Write(entry, Truncate(value, width))]
    {
      var stored := Truncate(value, width);
      outputs[entry - 1] := stored;
      trace := trace + [Event.Write(entry, stored)];
    }

    /** Reads input entry 0x6000 + entry with an access of `width` bits
      (EC_READ_U16 or EC_READ_U32). */
    method Read(entry: nat, width: nat) returns (v: int)
      requires Valid() && entry < 12
      modifies this
      ensures v == Truncate(inputs[entry], width)
      ensures trace == old(trace) + [Event.Read(entry)]
    {
      v := Truncate(inputs[entry], width);
      trace := trace + [Event.Read(entry)];
    }

    method Queue()
      modifies this
      ensures trace == old(trace) + [Event.Queue]
    {
      trace := trace + [Event.Queue];
    }

    method Send()
      modifies this
      ensures trace == old(trace) + [Event.Send]
    {
      trace := trace + [Event.Send];
    }
  }

  /** The words the loop writes to output entries 0x7000:01..09 while the blink
      pattern is `outputVal`: fixed constants except the digital outputs. */
  function OutputImage(outputVal: int): seq<int>
  {
    [0x32002EE0, 0x32002EE0, 0x0000, 0x0000, 0x0000, Truncate(outputVal, 16), 0x07FF, 0x0FFF, 0x00000000]
  }

  /** Every word of the output image fits the bit length its output entry is
      declared with, so cutting it to that length keeps it unchanged. */
  lemma OutputImageFitsDeclaration(outputVal: int)
    requires outputVal == 0x0000 || outputVal == 0xFFFF
    ensures forall k :: 0 <= k < 9 ==> 0 <= OutputImage(outputVal)[k] < FieldLimit(OutputWidths[k])
  {
    var img := OutputImage(outputVal);
    assert img[5] == outputVal;
    forall k | 0 <= k < 9
      ensures 0 <= img[k] < FieldLimit(OutputWidths[k])
    {
    }
  }

  /** The nine output writes of a pass, entry 0x7000:01 first. */
  function WriteEvents(outputVal: int): (r: seq<Event>)
    ensures |r| == 9
  {
    var img := OutputImage(outputVal);
    [Event.Write(1, img[0]), Event.Write(2, img[1]), Event.Write(3, img[2]), Event.Write(4, img[3]),
     Event.Write(5, img[4]), Event.Write(6, img[5]), Event.Write(7, img[6]), Event.Write(8, img[7]),
     Event.Write(9, img[8])]
  }

  /** The twelve input reads of a pass, entry 0x6000 first. */
  function ReadEvents(): (r: seq<Event>)
    ensures |r| == 12
  {
    seq(12, k requires 0 <= k < 12 => Event.Read(k))
  }

  /** The events of one pass that wakes at `wake` with blink value `outputVal`. */
  function PassEvents(wake: Instant, outputVal: int): (r: seq<Event>)
    ensures |r| == 26
  {
    [Wait(wake), Event.Receive, Event.Process] + WriteEvents(outputVal) + ReadEvents() + [Event.Queue, Event.Send]
  }

  /** A pass starts with its wait, writes the blink value to output entry 6
      and ends with the send. */
  lemma PassEventsShape(wake: Instant, outputVal: int)
    requires outputVal == 0x0000 || outputVal == 0xFFFF
    ensures PassEvents(wake, outputVal)[0] == Wait(wake)
    ensures PassEvents(wake, outputVal)[8] == Event.Write(6, outputVal)
    ensures PassEvents(wake, outputVal)[25] == Event.Send
  {
    var w := WriteEvents(outputVal);
    assert w[5] == Event.Write(6, outputVal);
  }

  /** The events of the first `n` passes: 26 per pass. */
  function Trace(start: Instant, n: nat): (r: seq<Event>)
    ensures |r| == 26 * n
  {
    if n == 0 then [] else Trace(start, n - 1) + PassEvents(Schedule(start, n), BlinkAfter(n))
  }

  /** Every pass contributes its 26 events in a fixed order: it starts with
      the wait for its wake-up time, writes the blink value to output entry 6,
      and ends with the send. */
  lemma {:induction false} TraceShape(start: Instant, n: nat, k: nat)
    requires k < n
    ensures Trace(start, n)[26 * k] == Wait(Schedule(start, k + 1))
    ensures Trace(start, n)[26 * k + 8] == Event.Write(6, BlinkAfter(k + 1))
    ensures Trace(start, n)[26 * k + 25] == Event.Send
  {
    var prefix := Trace(start, n - 1);
    var pass := PassEvents(Schedule(start, n), BlinkAfter(n));
    assert Trace(start, n) == prefix + pass;
    if k < n - 1 {
      TraceShape(start, n - 1, k);
      assert 26 * k + 25 < |prefix|;
    } else {
      PassEventsShape(Schedule(start, n), BlinkAfter(n));
      assert 26 * k == |prefix|;
    }
  }

  /** The wake-up of pass k + 1 lies exactly (k + 1) periods after the start
      reading, however long the passes before it took. */
  lemma WaitTimes(start: Instant, n: nat, k: nat)
    requires Normalized(start) && k < n
    ensures var e := Trace(start, n)[26 * k];
            e.Wait? && Normalized(e.until) && Nanos(e.until) == Nanos(start) + (k + 1) * CycleUs * 1000
  {
    TraceShape(start, n, k);
    DriftFree(start, k + 1);
  }

  // ---------------------------------------------------------------------
  // The loop.

  /** What the environment contributes to one pass: the input words the board
      reports, and whether a stop signal arrives during the pass. */
  datatype PassEnv = PassEnv(inputs: InputFrame, stopRequested: bool)

  /** No stop signal arrived during the first `n` passes. */
  predicate NoStopDuring(env: seq<PassEnv>, n: nat)
    requires n <= |env|
  {
    forall j :: 0 <= j < n ==> !env[j].stopRequested
  }

  /** The `while (run)` loop from the first clock reading `start` on;
      `stopBeforeLoop` says whether a stop signal arrived during set-up. */
  method CyclicExchange(d: Domain, start: Instant, stopBeforeLoop: bool, env: seq<PassEnv>)
    returns (passes: nat, counter: int, outputVal: int, wakeup: Instant)
    requires d.Valid()
    modifies d, d.outputs, d.inputs
    ensures passes <= |env|
    // the stop flag is polled only at the loop head: every pass runs to its
    // end, and the loop ends right after the pass during which it was cleared
    ensures 0 < passes ==> NoStopDuring(env, passes - 1)
    ensures passes < |env| ==> if passes == 0 then stopBeforeLoop else env[passes - 1].stopRequested
    ensures stopBeforeLoop ==> passes == 0
    ensures counter == passes && outputVal == BlinkAfter(passes)
    ensures wakeup == Schedule(start, passes)
    ensures d.trace == old(d.trace) + Trace(start, passes)
    ensures 0 < passes ==> d.outputs[..] == OutputImage(outputVal) && d.inputs[..] == env[passes - 1].inputs
  {
    var wakeupTime := new Timespec(start);
    counter, outputVal := 0, 0x0000;
    var run := !stopBeforeLoop;
    passes := 0;
    while run && passes < |env|
      invariant passes <= |env| && (stopBeforeLoop ==> passes == 0)
      invariant 0 < passes ==> NoStopDuring(env, passes - 1)
      invariant run <==> if passes == 0 then !stopBeforeLoop else !env[passes - 1].stopRequested
      invariant counter == passes && outputVal == BlinkAfter(passes)
      invariant wakeupTime.Value() == Schedule(start, passes)
      invariant d.trace == old(d.trace) + Trace(start, passes)
      invariant 0 < passes ==> d.outputs[..] == OutputImage(outputVal) && d.inputs[..] == env[passes - 1].inputs
    {
      ghost var done := d.trace;
      counter, outputVal := ExchangePass(d, wakeupTime, counter, outputVal, env[passes].inputs, start, passes);
      TraceStep(old(d.trace), start, passes);
      if env[passes].stopRequested {
        run := false;
      }
      passes := passes + 1;
    }
    wakeup := wakeupTime.Value();
  }

  lemma TraceStep(before: seq<Event>, start: Instant, n: nat)
    ensures before + Trace(start, n) + PassEvents(Schedule(start, n + 1), BlinkAfter(n + 1))
         == before + Trace(start, n + 1)
  {
  }

  /** Pass n + 1 of the loop body: wait for the next wake-up time, exchange,
      toggle the blink pattern when the counter is a multiple of 500, write,
      read, queue and send. */
  method ExchangePass(d: Domain, wakeupTime: Timespec, counter: int, outputVal: int, frame: InputFrame,
                      ghost start: Instant, ghost n: nat)
    returns (counter': int, outputVal': int)
    requires d.Valid()
    requires counter == n && outputVal == BlinkAfter(n) && wakeupTime.Value() == Schedule(start, n)
    modifies d, d.outputs, d.inputs, wakeupTime
    ensures counter' == n + 1 && outputVal' == BlinkAfter(n + 1)
    ensures wakeupTime.Value() == Schedule(start, n + 1)
    ensures d.trace == old(d.trace) + PassEvents(Schedule(start, n + 1), BlinkAfter(n + 1))
    ensures d.outputs[..] == OutputImage(outputVal') && d.inputs[..] == frame
  {
    ghost var t0 := d.trace;
    SleepUntil(wakeupTime, CycleUs);
    d.trace := d.trace + [Wait(wakeupTime.Value())];

    d.Receive();
    d.Process(frame);

    outputVal' := outputVal;
    if counter % BlinkPeriod == 0 {
      outputVal' := if outputVal == 0x0000 then 0xFFFF else 0x0000;
    }
    counter' := counter + 1;

    WriteOutputs(d, outputVal');
    var _ := ReadInputs(d);

    d.Queue();
    d.Send();
    PassInOrder(t0, wakeupTime.Value(), outputVal');
  }

  /** Appending a pass's events one call at a time appends `PassEvents`. */
  lemma PassInOrder(t: seq<Event>, wake: Instant, outputVal: int)
    ensures t + [Wait(wake)] + [Event.Receive] + [Event.Process] + WriteEvents(outputVal) + ReadEvents()
              + [Event.Queue] + [Event.Send]
         == t + PassEvents(wake, outputVal)
  {
  }

  /** The nine output writes of one pass. */
  method WriteOutputs(d: Domain, outputVal: int)
    requires d.Valid()
    modifies d, d.outputs
    ensures d.outputs[..] == OutputImage(outputVal) && d.inputs[..] == old(d.inputs[..])
    ensures d.trace == old(d.trace) + WriteEvents(outputVal)
  {
    ghost var t0 := d.trace;
    d.Write(1, 32, 0x32002EE0);
    d.Write(2, 32, 0x32002EE0);
    d.Write(3, 16, 0x0000);
    d.Write(4, 16, 0x0000);
    d.Write(5, 32, 0x0000);
    d.Write(6, 16, outputVal);
    d.Write(7, 16, 0x07FF);
    d.Write(8, 16, 0x0FFF);
    d.Write(9, 32, 0x00000000);
    WritesInOrder(t0, outputVal);
  }

  lemma WritesInOrder(t: seq<Event>, outputVal: int)
    ensures var img := OutputImage(outputVal);
      t + [Event.Write(1, img[0])] + [Event.Write(2, img[1])] + [Event.Write(3, img[2])] + [Event.Write(4, img[3])]
        + [Event.Write(5, img[4])] + [Event.Write(6, img[5])] + [Event.Write(7, img[6])] + [Event.Write(8, img[7])]
        + [Event.Write(9, img[8])]
      == t + WriteEvents(outputVal)
  {
  }

  /** The values the reads of a pass return for the input image `image`,
      with the access width each read uses; every access width is the bit
      length the entry is declared with. */
  function InputValues(image: seq<int>): (r: seq<int>)
    requires |image| == 12
    ensures |r| == 12
    ensures forall k :: 0 <= k < 12 ==> r[k] == Truncate(image[k], InputWidths[k])
  {
    [Truncate(image[0], 32), Truncate(image[1], 32), Truncate(image[2], 16), Truncate(image[3], 16),
     Truncate(image[4], 32), Truncate(image[5], 16), Truncate(image[6], 16), Truncate(image[7], 16),
     Truncate(image[8], 32), Truncate(image[9], 32), Truncate(image[10], 32), Truncate(image[11], 32)]
  }

  /** The twelve input reads of one pass, entry 0x6000 first; the values
      read only feed diagnostics. */
  method ReadInputs(d: Domain) returns (vals: seq<int>)
    requires d.Valid()
    modifies d
    ensures |vals| == 12
    ensures vals == InputValues(d.inputs[..])
    ensures d.trace == old(d.trace) + ReadEvents()
  {
    ghost var t0 := d.trace;
    var v0 := d.Read(0, 32);
    var v1 := d.Read(1, 32);
    var v2 := d.Read(2, 16);
    var v3 := d.Read(3, 16);
    var v4 := d.Read(4, 32);
    var v5 := d.Read(5, 16);
    var v6 := d.Read(6, 16);
    var v7 := d.Read(7, 16);
    var v8 := d.Read(8, 32);
    var v9 := d.Read(9, 32);
    var v10 := d.Read(10, 32);
    var v11 := d.Read(11, 32);
    vals := [v0, v1, v2, v3, v4, v5, v6, v7, v8, v9, v10, v11];
    ReadsInOrder(t0);
  }

  lemma ReadsInOrder(t: seq<Event>)
    ensures t + [Event.Read(0)] + [Event.Read(1)] + [Event.Read(2)] + [Event.Read(3)] + [Event.Read(4)]
              + [Event.Read(5)] + [Event.Read(6)] + [Event.Read(7)] + [Event.Read(8)] + [Event.Read(9)]
              + [Event.Read(10)] + [Event.Read(11)]
         == t + ReadEvents()
  {
  }
}

# Verified model of the fieldbus demo's control logic

This project models two pieces of sequential control logic of the EtherCAT
motion demo, and proves what they promise.

1. **The pick-and-place example** (`doc/example_complex.c`).
   - `move_axis` is an incremental interpolator. Once per 4 ms cycle it either snaps the tracked position onto the target and stops the axis, or moves it one velocity step (`max_vel * 0.004`) toward the target and sends an enabled command of magnitude `(int)step`.
   - `main`'s `while (!g_stop)` loop runs the state machine IDLE → MOVE_TO_PICK → ARM_DOWN → GRIP_CLOSE → ARM_UP → DONE. `tick` provides the dwell: IDLE is left on the 102nd pass, the one that sees `tick == 101`, so after 101 passes the state is still IDLE (`IdleDwell`, `LeavesIdleOnPass102`). Axis arrival and input bit 0 of I/O board 1 gate the moves. Y2 follows Y1 mirrored.
   - Modules:
     - `MotorApi` models the motion library's handle as a log of the calls made through it. The input words of each exchange come from the environment.
     - `Interpolator` holds `move_axis`: a step function `MoveStep` and the method `MoveAxis` over a `Position` cell (the `double *` argument).
     - `PickSequence` holds the loop. `LoopPass` is one pass over the loop's own variables. `ControlLoop` runs passes until the stop flag is up. Both are proved against specification functions:
       - `Dispatch` is the `switch (state)` at `doc/example_complex.c:160-223`;
       - `Pass` is the loop body: `run_once`, the switch, then `tick++` (lines 158-225);
       - `After` is a pass together with a signal arriving during it;
       - `Run` is the loop over a sequence of cycles.
       Their properties are the lemmas `PassForward`, `MoveToPickGate` and `ArmAndGripperGates`.
2. **The raw I/O cycle test** (`test/src/test_io_raw.c`), in module `CycleEngine`.
   - `sleep_until` advances an absolute `timespec` wake-up time and carries whole seconds in a loop. `SleepUntil` updates a `Timespec` object in place and is proved against the function `Advance`.
   - The `while (run)` loop (`CyclicExchange`, one pass being `ExchangePass`) does the following:
     - waits for the next wake-up time;
     - receives and processes the domain;
     - toggles the blink value every 500 passes;
     - writes the nine output entries and reads the twelve input entries of the domain image (two arrays of `Domain`);
     - queues and sends.
   - Every pass's events are recorded in order in `Domain.trace`.

A signal is modelled as data. For each pass, the environment says whether a
stop signal arrives during it, and a separate flag says whether one arrived
before the first loop test. The environment is a finite sequence of passes.

Positions and velocities are exact reals. The C conversion `(int)step` is
truncation toward zero (`Trunc`). A 16-bit write keeps the low 16 bits of
its value (`Truncate`).

The code and its comments disagree in a few places. The model follows the code:

- The header comment's step 6 at `doc/example_complex.c:17` moves the gantry to the place position. The code never does: MOVE_TO_PLACE has no handler in the switch, no state leads to it, and the sequence ends in DONE (`MoveToPlaceUnreachable`).
- The blink comment at `test/src/test_io_raw.c:217` says every 250 cycles (1 s), but the code toggles every 500 passes.
- The header comment says 0x00 ↔ 0xFF, but the code alternates 0x0000 and 0xFFFF.
- The comment at `doc/example_complex.c:174` says Y2 gets the opposite of Y1's command. The code instead runs the interpolator for Y2 from `-pos_gantry_y` after Y1's step, so Y2's command is the mirror of Y1's command on the following pass. Y2 is therefore stopped one pass before Y1: on the pass that moves Y1 from 199600 to 199800, Y2 already gets its stop (`FollowerStopsOnePassEarly`). Over MOVE_TO_PICK, Y1 gets 999 steps of 200 and Y2 gets 998. This count follows from `Convergence` for Y1 (first arrival on call 1000) together with `MoveToPickGate`, which gives Y2 on each pass the mirror of Y1's next call; no single lemma states it.

## Model

| member | source | states |
|---|---|---|
| Interpolator.Trunc | doc/example_complex.c:123 | `(int)` of a real truncates toward zero: the result is the integer part, below the value by less than one in magnitude |
| Interpolator.MoveStep | doc/example_complex.c:67-125 | arrival exactly when the remaining distance is at most `max_vel*0.004`; then the position is exactly the target and a stop command (disabled, dir 0, magnitude 0) is issued; otherwise an enabled command with `dir = (diff > 0) ? 1 : -1` and magnitude `(int)step`, and the position moves by `dir*step` |
| Interpolator.NoOvershoot | doc/example_complex.c:68-120 | for a positive velocity the new position lies between the old one and the target, the distance never grows, and a non-arriving step points at the target (`dir = sign(diff)`) and shortens the distance by exactly one step |
| Interpolator.MoveAxis | doc/example_complex.c:67-125 | one call updates `*curr_pos`, returns the arrival flag and issues exactly the command `MoveStep` describes, through the handle |
| Interpolator.ArrivalIsStable | doc/example_complex.c:73-116 | after an arriving call, calling again with the same target keeps the position, stops the axis again and returns 1 |
| Interpolator.MirrorSymmetry | doc/example_complex.c:182-183 | driving the negated position toward the negated target gives the negated position, the mirrored command (opposite direction, same magnitude) and the same arrival flag |
| Interpolator.CallsToArriveBounds | doc/example_complex.c:67-124 | max(1, ceil(distance/step)) is the call count n for which the distance exceeds n−1 steps and fits into n steps |
| Interpolator.Moving | doc/example_complex.c:119-120 | while no arrival is due, k calls have moved the position k whole steps toward the target without passing it |
| Interpolator.StaysOnTarget | doc/example_complex.c:73-116 | once on target, every further call keeps the position, stops the axis and reports arrival |
| Interpolator.Convergence | doc/example_complex.c:67-124 | for a positive velocity the calls before number max(1, ceil(distance/step)) return 0, that call returns 1 with the position exactly on target, and the position stays there |
| Interpolator.GantryXArrivesOnCall500 | doc/example_complex.c:169 | X from 0 to 100000 at 50000/s (step 200) returns 0 on calls 1..499 and first returns 1 on call 500, exactly at 100000 |
| Interpolator.IssuedWhileMoving | doc/example_complex.c:119-123 | every call before the arriving one commands one truncated step toward the target |
| Interpolator.MovedTotalWhileMoving | doc/example_complex.c:119-123 | the summed signed command magnitudes of the first k non-arriving calls point toward the target and are at most k steps |
| Interpolator.MovedTotalAfterArrival | doc/example_complex.c:115-116 | from the arriving call on, the calls add nothing to the summed commanded motion |
| Interpolator.CommandedNeverOvershoots | doc/example_complex.c:73-124 | after any number of calls the summed signed command magnitudes never exceed the distance from start to target and never point away from it |
| PickSequence.PassForward | doc/example_complex.c:157-225 | every pass exchanges first and increments `tick` once; the state stays or moves to its one successor, never backwards; MOVE_TO_PLACE is entered by no edge; the stop flag is raised by DONE and by nothing else |
| PickSequence.RunForward | doc/example_complex.c:157-227 | along any run the state never moves backwards, `tick` equals the number of passes run, a stopped loop runs no pass, and MOVE_TO_PLACE is reached only from itself |
| PickSequence.MoveToPlaceUnreachable | doc/example_complex.c:160-223 | starting from the loop's initial variables the declared MOVE_TO_PLACE state is never reached |
| PickSequence.StoppedRunIsFinal | doc/example_complex.c:157 | once the stop flag is up at the loop head, no further pass runs and the variables no longer change |
| PickSequence.StoppedTraceIsFinal | doc/example_complex.c:157 | once the stop flag is up at the loop head, no further library call is made |
| PickSequence.IdleDwell | doc/example_complex.c:142-162 | during the first 101 passes the state stays IDLE, and without a signal every one of them runs and `tick` equals the pass count |
| PickSequence.LeavesIdleOnPass102 | doc/example_complex.c:162 | without a signal IDLE is left on the 102nd pass, the one that sees `tick == 101` |
| PickSequence.MoveToPickGate | doc/example_complex.c:165-190 | MOVE_TO_PICK steps X and Y1 once each and advances exactly when both arrive, ignoring Y2's result; Y2's command is the mirror of the one Y1 would receive from its new position (its command on the following pass), with Y2 driven from `-pos_gantry_y` after Y1's step |
| PickSequence.ArmAndGripperGates | doc/example_complex.c:192-217 | ARM_DOWN advances exactly when J1 arrives at 90000; GRIP_CLOSE writes mask 0x0001 every pass and advances exactly when input bit 0 is set; ARM_UP advances exactly when J1 arrives at 0 |
| PickSequence.LoopPass | doc/example_complex.c:157-227 | one pass of the loop over `state`, `tick`, the three tracked positions and the stop flag ends in the state `After` describes and makes exactly the calls `Pass` lists |
| PickSequence.RunPass | doc/example_complex.c:157-227 | a pass run at a loop head that `Run` describes leaves the variables and the call log `Run` and `RunTrace` describe one cycle later |
| PickSequence.ControlLoop | doc/example_complex.c:141-227 | the loop ends with the variables and the call log of the run over the environment from the initial variables, with the stop flag as a signal before the loop left it |
| PickSequence.PickAndPlace | doc/example_complex.c:131-230 | a failed handle creation exits with 1; otherwise errors are cleared on all axes, the loop runs, the handle is destroyed and the exit status is 0 |
| CycleEngine.Advance | test/src/test_io_raw.c:138-143 | the time accounting is exact (`sec*10^9 + nsec` grows by `delay_us*1000`), nanoseconds end below 10^9 and at or above 0 whenever the carry loop starts from a non-negative sum, and seconds grow exactly when nanoseconds overflow |
| CycleEngine.SleepUntil | test/src/test_io_raw.c:138-145 | the carry loop terminates and leaves the `timespec` that `Advance` describes |
| CycleEngine.SingleCarry | test/src/test_io_raw.c:139-143 | from a normalised time with the 4000 µs period the seconds grow by at most one, exactly when the nanoseconds overflow |
| CycleEngine.DriftFree | test/src/test_io_raw.c:203-211 | after k passes the wake-up time is exactly the start reading plus k·4,000,000 ns, and is normalised |
| CycleEngine.BlinkAfter | test/src/test_io_raw.c:207-221 | `output_val` is always 0x0000 or 0xFFFF |
| CycleEngine.BlinkToggles | test/src/test_io_raw.c:218-219 | the value flips exactly on passes whose pre-increment counter is a multiple of 500, and the first pass sets 0xFFFF |
| CycleEngine.BlinkClosedForm | test/src/test_io_raw.c:218-219 | after k passes the outputs are on exactly when ceil(k/500) toggles, an odd number, have happened |
| CycleEngine.Domain.Process | test/src/test_io_raw.c:215 | processing the domain brings the received frame's twelve input words into the input image and leaves the output image unchanged |
| CycleEngine.Domain.Write | test/src/test_io_raw.c:225-236 | a write of output entry 0x7000:n stores the value cut to the access width (U16 or U32) into that slot alone |
| CycleEngine.Domain.Read | test/src/test_io_raw.c:238-249 | a read of input entry n yields the image word cut to the access width (U16 or U32) |
| CycleEngine.InputValues | test/src/test_io_raw.c:103-116 | the access width of each of the twelve `EC_READ_U16/U32` reads (lines 238-249) is the bit length the entry is declared with in TxPDO 0x1A00, so each value read is the input word cut to its declared length |
| CycleEngine.OutputImageFitsDeclaration | test/src/test_io_raw.c:90-99 | every word the loop writes (lines 225-236), the blink value included, fits the bit length its output entry is declared with in RxPDO 0x1600 |
| CycleEngine.WriteOutputs | test/src/test_io_raw.c:225-236 | the nine writes leave the output image of fixed constants with the blink value in entry 6, in entry order, and do not touch the inputs |
| CycleEngine.ReadInputs | test/src/test_io_raw.c:238-249 | the twelve reads happen in entry order and return the input words cut to their widths |
| CycleEngine.PassEventsShape | test/src/test_io_raw.c:211-269 | a pass starts with its wait, writes the blink value to output entry 6 and ends with the send |
| CycleEngine.TraceShape | test/src/test_io_raw.c:210-270 | in the whole event log, pass k + 1 occupies 26 events that start with the wait for its own wake-up time, carry that pass's blink value in output entry 6 and end with the send |
| CycleEngine.WaitTimes | test/src/test_io_raw.c:203-211 | pass k + 1 waits until exactly (k + 1) periods after the start reading, however long the passes before it took |
| CycleEngine.ExchangePass | test/src/test_io_raw.c:211-269 | one pass advances the wake-up time by one period, increments the counter, toggles the blink value when due, and appends wait, receive, process, nine writes, twelve reads, queue and send |
| CycleEngine.CyclicExchange | test/src/test_io_raw.c:203-270 | the stop flag is polled only at the loop head; every pass runs to its end; the loop ends right after the pass during which a signal arrived; counter, blink value and wake-up time after the loop are the pass count's; the event log is that of that many passes |

## Left out

- The EtherCAT master set-up of the I/O test is not modelled (`test/src/test_io_raw.c:147-199`). This covers the master request, domain creation, slave and PDO configuration, entry registration, activation and the domain data pointer, whose failures each return -1. The same goes for `ecrt_release_master` and the final `return 0`. All of these are foreign library calls.
- `test/include/test_all.h` is not part of this model. It holds the static PDO and sync tables, which are device data with no behaviour.
- The byte layout of `EC_READ_*`/`EC_WRITE_*` comes from a header that is not part of this model. Entries are addressed by their index in the domain image. Only the access width is kept.
- The receive, process, queue and send calls of the EtherCAT master, and the motion library's calls, are abstract events in a log. This covers `motor_api_create_from_config` (JSON parsing), `clear_error`, `run_once`, `set_axis_command`, `set_io_output`, `get_io_input` and `destroy`.
- A failed `motor_api_create_from_config` appears only as a null handle.
- Signal handlers, `signal()`, `clock_gettime`, `clock_nanosleep`, `usleep(4000)` and `sleep(1)` are real-time effects and are not modelled.
  - Signals are flags supplied by the environment, one per pass plus one before the loop.
  - The first clock reading is a parameter.
  - The absolute sleep appears as a `Wait` event.
- All `printf`/`fprintf` output is not modelled, including the float voltage conversion of two input words. So the values the I/O test reads are returned but not used.
- The unit-scale discussion in the comment block of `move_axis` is configuration advice with no behaviour.
- Interpolator.MoveStep: positions are exact reals, not IEEE doubles, so rounding of `*curr_pos += dir * step` is not modelled. `(int)step` does not overflow, because integers are unbounded.
- Interpolator.Convergence: proved only for a positive velocity limit. With `max_vel` zero the step is zero and the position never moves; with a negative one the position moves away from the target. Neither case is stated.
- CycleEngine.SleepUntil: `long` overflow of `tv_sec`/`tv_nsec` is not modelled. When `tv_nsec` starts so negative that the sum stays negative, the result keeps the negative nanoseconds, as the source does; no normalisation is claimed for it.
- CycleEngine.CyclicExchange: the environment is a finite sequence of passes, so the loop also ends when it runs out; the source runs until a signal. `counter` is unbounded, so its `int` overflow after 2^31 passes is not modelled.
- PickSequence.ControlLoop: the environment is a finite sequence of cycles, so the loop also ends when it runs out. `tick`'s `int` overflow is not modelled.
- PickSequence.PickAndPlace: starts from the handle `motor_api_create_from_config` returned; how `main` picks the configuration path (`argv[1]`, else `complex_config.json`, `doc/example_complex.c:128-129`) is not modelled, since the path only feeds that foreign call.
- PickSequence.PickAndPlace: the delay `sleep(1)` after clearing errors is left out, and so is the "Start control loop" message.
- Axes J2 to J6 and I/O board 2 are configured but never driven by the sequence, so they do not appear.

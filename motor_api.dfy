// The motion/IO library the pick-and-place example drives through a handle.
// Only its interface is modelled: every call appends an effect to the
// handle's trace, and `run_once` delivers the input words the devices
// reported in that cycle (supplied by the environment).

module MotorApi {

  /** One observable call into the motion/IO library. */
  datatype Effect =
    | Cleared(axis: int)                                          // motor_api_clear_error
    | Exchanged                                                   // motor_api_run_once
    | Commanded(axis: int, enable: bool, dir: int, magnitude: int) // motor_api_set_axis_command
    | OutputSet(channel: int, mask: bv32)                         // motor_api_set_io_output
    | InputRead(channel: int)                                     // motor_api_get_io_input
    | Destroyed                                                   // motor_api_destroy

  /** The word `get_io_input` yields for a channel: the one the last exchange
      delivered, or the caller's initial 0 when the channel delivered none. */
  function InputWord(inputs: map<int, bv32>, channel: int): bv32
  {
    if channel in inputs then inputs[channel] else 0
  }

  /** The library handle: the calls made through it, in order, and the input
      image of the last exchange. */
  class Handle {
    var trace: seq<Effect>
    var inputs: map<int, bv32>

    constructor ()
      ensures trace == [] && inputs == map[]
    {
      trace := [];
      inputs := map[];
    }

    method ClearError(axis: int)
      modifies this
      ensures trace == old(trace) + [Cleared(axis)] && inputs == old(inputs)
    {
      trace := trace + [Cleared(axis)];
    }

    /** One receive/send exchange; `frame` is what the devices reported. */
    method RunOnce(frame: map<int, bv32>)
      modifies this
      ensures trace == old(trace) + [Exchanged] && inputs == frame
    {
      trace := trace + [Exchanged];
      inputs := frame;
    }

    method SetAxisCommand(axis: int, enable: bool, dir: int, magnitude: int)
      modifies this
      ensures trace == old(trace) + [Commanded(axis, enable, dir, magnitude)]
      ensures inputs == old(inputs)
    {
      trace := trace + [Commanded(axis, enable, dir, magnitude)];
    }

    method SetIoOutput(channel: int, mask: bv32)
      modifies this
      ensures trace == old(trace) + [OutputSet(channel, mask)] && inputs == old(inputs)
    {
      trace := trace + [OutputSet(channel, mask)];
    }

    method GetIoInput(channel: int) returns (word: bv32)
      modifies this
      ensures word == InputWord(inputs, channel)
      ensures trace == old(trace) + [InputRead(channel)] && inputs == old(inputs)
    {
      trace := trace + [InputRead(channel)];
      word := InputWord(inputs, channel);
    }

    method Destroy()
      modifies this
      ensures trace == old(trace) + [Destroyed] && inputs == old(inputs)
    {
      trace := trace + [Destroyed];
    }
  }
}

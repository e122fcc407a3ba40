/** What the acquisition engine hands to a writer: the sequence description at run
    start, and one (frame, event) pair per acquired image. */
module Acquisition {

  /** An acquisition event: its index maps each axis letter it carries (t, p, c,
      z, ...) to a zero-based coordinate along that axis. */
  datatype Event = Event(index: map<char, nat>)

  /** The parts of an MDASequence the writers use: its declared axis order (a
      string of axis letters), its shape, the events it emits in order, and its
      serialised JSON text. */
  datatype Sequence = Sequence(axisOrder: string, shape: seq<nat>, events: seq<Event>, json: string)

  /** A 2-D image: its height and width and its pixel values, read as an opaque
      payload. */
  datatype Frame = Frame(height: nat, width: nat, pixels: seq<int>)
}

/** The quality levels a stream is offered at. */
module Levels {
  const MAX_FPS := 60

  /** What the stream gives up: frames per second, the second 4:2:0 stream,
      resolution. */
  datatype Level = Level(fpsCap: nat, aux: bool, scale: real)

  const UNLIMITED := 0xFFFF_FFFF

  const LEVELS: seq<Level> := [
    Level(UNLIMITED, true, 1.0),
    Level(30, true, 1.0),
    Level(15, true, 1.0),
    Level(15, false, 1.0),
    Level(10, false, 1.0),
    Level(10, false, 0.5),
    Level(5, false, 0.5)]

  const RUNGS: nat := 7

  const START_LEVEL: nat := 1

  function FpsCap(level: nat): nat
    requires level < |LEVELS|
  {
    if LEVELS[level].fpsCap > MAX_FPS then MAX_FPS else LEVELS[level].fpsCap
  }
}

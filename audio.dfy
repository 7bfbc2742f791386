/**
 * A sound clip reduced to what the game logic can observe of it: how many times it
 * has been asked to play and to stop. Playback itself (and `isRunning`, which
 * depends on playback time) is outside the model; callers receive `isRunning` as input.
 */
module Audio {
  class SoundClip {
    var plays: nat
    var stops: nat

    constructor ()
      ensures plays == 0 && stops == 0
    {
      plays, stops := 0, 0;
    }

    method Play()
      modifies this`plays
      ensures plays == old(plays) + 1
    {
      plays := plays + 1;
    }

    method Stop()
      modifies this`stops
      ensures stops == old(stops) + 1
    {
      stops := stops + 1;
    }
  }
}

/** CinematicTrigger (Assets/Scripts/Cinematics/CinematicTrigger.cs): a
    one-shot latch that plays a timeline the first time the player walks in. */
module Cinematics {
  import opened Common
  import opened Json
  import opened Serialization

  /** The parts of a PlayableDirector the trigger uses. `plays` counts the
      calls of Play. */
  class PlayableDirector {
    var playing: bool
    var time: real
    const duration: real
    ghost var plays: nat

    constructor (duration: real)
      ensures this.duration == duration && !playing && time == 0.0 && plays == 0
    {
      this.duration := duration;
      playing := false;
      time := 0.0;
      plays := 0;
    }

    method Play()
      modifies this
      ensures playing && plays == old(plays) + 1 && time == old(time)
    {
      playing := true;
      plays := plays + 1;
    }
  }

  class CinematicTrigger {
    var triggered: bool
    const director: PlayableDirector

    /** Awake: the director is the one on the same game object. */
    constructor Awake(director: PlayableDirector)
      ensures this.director == director && !triggered
    {
      this.director := director;
      triggered := false;
    }

    /** OnTriggerEnter: contacts by anything not tagged "Player", and every
        contact once triggered, change nothing; the first player contact sets
        the latch and plays the timeline once. */
    method OnTriggerEnter(otherTag: string)
      modifies this, director
      ensures old(triggered) || otherTag != "Player" ==> unchanged(this, director)
      ensures !old(triggered) && otherTag == "Player" ==>
                triggered && director.playing && director.plays == old(director.plays) + 1 &&
                director.time == old(director.time)
    {
      if triggered || otherTag != "Player" {
        return;
      }
      triggered := true;
      director.Play();
    }

    /** CaptureState: the latch, boxed. */
    function CaptureState(): (state: SaveObject)
      reads this
      ensures state.SBool? && state.b == triggered
    {
      SBool(triggered)
    }

    /** What RestoreState(state) leaves when the cast succeeds: the saved flag;
        when it is true the timeline is played and moved to its end. */
    twostate predicate RestoredFrom(state: SaveObject)
      reads this, director
    {
      state.SBool? && triggered == state.b &&
      if state.b then director.playing && director.plays == old(director.plays) + 1 &&
                      director.time == director.duration
      else director.playing == old(director.playing) && director.time == old(director.time) &&
           director.plays == old(director.plays)
    }

    /** RestoreState: `(bool)state` throws for anything but a boxed bool (`ok`
        false, nothing changed). */
    method RestoreState(state: SaveObject, version: int) returns (ok: bool)
      modifies this, director
      ensures ok <==> state.SBool?
      ensures ok ==> RestoredFrom(state)
      ensures !ok ==> unchanged(this, director)
    {
      if !state.SBool? {
        return false;
      }
      ok := true;
      triggered := state.b;
      if !triggered {
        return;
      }
      director.Play();
      director.time := director.duration;
    }

    /** CaptureAsJToken: the JSON capture is switched off and returns null. */
    function CaptureAsJToken(): (t: Option<JToken>)
      ensures t.None?
    {
      None
    }

    /** RestoreFromJToken: switched off, it does nothing. */
    method RestoreFromJToken(state: Option<JToken>, version: int)
    {
    }
  }
}

/** The Attributes flavour of Experience (Assets/Scripts/Attributes/Experience.cs):
    a plain accumulator with a fixed experience-per-level of 100. */
module Attributes {
  import opened Common
  import opened Json

  class Experience {
    var value: real
    /** ExperienceToNextLevel: 100, and never set anywhere else. */
    const experienceToNextLevel: real := 100.0

    constructor (value: real)
      ensures this.value == value
    {
      this.value := value;
    }

    /** GainExperience adds exactly `amount`. */
    method GainExperience(amount: real)
      modifies this
      ensures value == old(value) + amount
    {
      value := value + amount;
    }

    /** GetPercentage: the share of the next level's experience gathered, so
        that percentage times ExperienceToNextLevel gives the value back. */
    function GetPercentage(): (p: real)
      reads this
      ensures p * experienceToNextLevel == value
      ensures 0.0 <= value <= experienceToNextLevel ==> 0.0 <= p <= 1.0
    {
      value / experienceToNextLevel
    }

    /** CaptureAsJToken: the value as a JSON number. */
    function CaptureAsJToken(): (t: JToken)
      reads this
      ensures ToFloat(t) == Some(value)
    {
      JFloat(value)
    }

    /** What RestoreFromJToken(state) leaves: a null state or one that does not
        convert keeps the value, any other state's number replaces it. */
    twostate predicate RestoredFrom(state: Option<JToken>)
      reads this
    {
      if state.Some? && ToFloat(state.value).Some? then value == ToFloat(state.value).value
      else value == old(value)
    }

    /** RestoreFromJToken: null is ignored; a token that does not convert to a
        float throws (`ok` false). */
    method RestoreFromJToken(state: Option<JToken>, version: int) returns (ok: bool)
      modifies this
      ensures ok <==> state.None? || ToFloat(state.value).Some?
      ensures RestoredFrom(state)
    {
      if state.None? {
        return true;
      }
      var restored := ToFloat(state.value);
      if restored.None? {
        return false;
      }
      value := restored.value;
      ok := true;
    }
  }
}

/** Values shared by every part of the model: optional values, Unity's Vector3
    (floats modelled as reals) and elapsed-time counters that may be +infinity. */
module Common {

  datatype Option<+T> = None | Some(value: T)

  /** UnityEngine.Vector3; `new Vector3()` is Zero. */
  datatype Vector3 = Vector3(x: real, y: real, z: real)

  const Zero: Vector3 := Vector3(0.0, 0.0, 0.0)

  /** A "time since" counter. Several counters start at math.INFINITY and grow by
      Time.deltaTime; +infinity plus a finite delta stays +infinity. */
  datatype Duration = Finite(seconds: real) | Infinite {

    /** `counter += Time.deltaTime` */
    function Advance(deltaTime: real): (d: Duration)
      ensures d.Infinite? <==> Infinite?
      ensures Finite? ==> d.seconds == seconds + deltaTime
    {
      match this
      case Infinite => Infinite
      case Finite(s) => Finite(s + deltaTime)
    }

    /** `counter < bound`; never true of +infinity. */
    predicate Below(bound: real)
    {
      Finite? && seconds < bound
    }

    /** Advancing by a non-negative delta never moves a counter below a bound it was not below. */
    lemma AdvanceNeverDecreases(deltaTime: real, bound: real)
      requires deltaTime >= 0.0
      ensures Advance(deltaTime).Below(bound) ==> Below(bound)
    {
    }
  }

  /** The counter after a sequence of ticks with the given deltas. */
  function AdvanceAll(d: Duration, deltas: seq<real>): Duration
    decreases |deltas|
  {
    if deltas == [] then d else AdvanceAll(d.Advance(deltas[0]), deltas[1..])
  }

  /** A counter that starts at +infinity is +infinity after any ticks, so a
      guard `counter < bound` is never true of it. */
  lemma {:induction false} InfiniteStaysInfinite(deltas: seq<real>, bound: real)
    ensures AdvanceAll(Infinite, deltas) == Infinite
    ensures !AdvanceAll(Infinite, deltas).Below(bound)
  {
    if deltas != [] {
      InfiniteStaysInfinite(deltas[1..], bound);
    }
  }

  /** char.IsWhiteSpace: the Unicode White_Space characters as .NET classifies them. */
  predicate IsWhiteSpace(c: char)
  {
    ('\U{9}' <= c <= '\U{D}') || c == ' ' || c == '\U{85}' || c == '\U{A0}' ||
    c == '\U{1680}' || ('\U{2000}' <= c <= '\U{200A}') || c == '\U{2028}' ||
    c == '\U{2029}' || c == '\U{202F}' || c == '\U{205F}' || c == '\U{3000}'
  }

  /** string.IsNullOrWhiteSpace (a Dafny string is never null). */
  predicate IsBlank(s: string)
  {
    forall i :: 0 <= i < |s| ==> IsWhiteSpace(s[i])
  }

  /** A string containing one non-white-space character is not blank. */
  lemma NotBlankWith(s: string, i: nat)
    requires i < |s| && !IsWhiteSpace(s[i])
    ensures !IsBlank(s)
  {
  }
}

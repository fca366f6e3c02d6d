/** Progression (Assets/Scripts/Stats/Progression.cs): per character class, a
    list of stats each with a level formula, and the (class, stat) lookup. */
module Progressions {
  import opened Common

  /** The Stat and CharacterClass enums are identified by number; only
      ExperienceToLevel is named because BaseStats asks for it. */
  datatype Stat = ExperienceToLevel | OtherStat(id: nat)
  datatype CharacterClass = CharacterClass(id: nat)

  /** An AnimationCurve is its list of key frames; evaluating it is a parameter
      of Calculate (`evaluate`). */
  datatype Keyframe = Keyframe(time: real, value: real, inTangent: real, outTangent: real)
  datatype AnimationCurve = AnimationCurve(keys: seq<Keyframe>)

  datatype ProgressionFormula = ProgressionFormula(startingValue: real, percentageAdded: real,
                                                   absoluteAdded: real, useCurve: bool,
                                                   curve: AnimationCurve)

  datatype ProgressionStat = ProgressionStat(stat: Stat, progression: ProgressionFormula)

  datatype ProgressionCharacterClass = ProgressionCharacterClass(characterClass: CharacterClass,
                                                                 stats: seq<ProgressionStat>)

  datatype Progression = Progression(characterClasses: seq<ProgressionCharacterClass>)

  /** The inspector ranges: startingValue in [1, 1000], percentageAdded in
      [0, 1], absoluteAdded in [0, 1000]. */
  predicate InDeclaredRanges(f: ProgressionFormula)
  {
    1.0 <= f.startingValue <= 1000.0 && 0.0 <= f.percentageAdded <= 1.0 &&
    0.0 <= f.absoluteAdded <= 1000.0
  }

  /** Calculate(level): startingValue up to level 1; above it the previous
      level's value c grows by c * percentageAdded + absoluteAdded, plus
      c * curve(1 / level) when the curve is used. Without the curve and with
      non-negative parameters a level is never worth less than the first. */
  function Calculate(f: ProgressionFormula, level: int, evaluate: (AnimationCurve, real) -> real): (v: real)
    ensures level <= 1 ==> v == f.startingValue
    ensures (!f.useCurve && 0.0 <= f.startingValue && 0.0 <= f.percentageAdded &&
             0.0 <= f.absoluteAdded) ==> f.startingValue <= v
    decreases level
  {
    if level <= 1 then f.startingValue
    else
      var c := Calculate(f, level - 1, evaluate);
      var value := c + c * f.percentageAdded + f.absoluteAdded;
      if !f.useCurve then value else value + c * evaluate(f.curve, 1.0 / level as real)
  }

  /** One level up adds at least absoluteAdded (declared ranges, no curve). */
  lemma CalculateStep(f: ProgressionFormula, level: int, evaluate: (AnimationCurve, real) -> real)
    requires InDeclaredRanges(f) && !f.useCurve && 1 <= level
    ensures Calculate(f, level, evaluate) + f.absoluteAdded <= Calculate(f, level + 1, evaluate)
  {
    var c := Calculate(f, level, evaluate);
    assert 0.0 <= c;
    assert 0.0 <= c * f.percentageAdded;
  }

  /** With the declared ranges and no curve, Calculate is non-decreasing in the
      level. */
  lemma {:induction false} CalculateMonotonic(f: ProgressionFormula, i: int, j: int,
                                              evaluate: (AnimationCurve, real) -> real)
    requires InDeclaredRanges(f) && !f.useCurve && i <= j
    ensures Calculate(f, i, evaluate) <= Calculate(f, j, evaluate)
    decreases j - i
  {
    if i < j {
      CalculateMonotonic(f, i, j - 1, evaluate);
      if j - 1 >= 1 {
        CalculateStep(f, j - 1, evaluate);
      }
    }
  }

  /** Each level adds at least absoluteAdded: level n is worth at least
      startingValue + (n - 1) * absoluteAdded. */
  lemma {:induction false} CalculateLowerBound(f: ProgressionFormula, level: int,
                                               evaluate: (AnimationCurve, real) -> real)
    requires InDeclaredRanges(f) && !f.useCurve && 1 <= level
    ensures f.startingValue + (level - 1) as real * f.absoluteAdded <= Calculate(f, level, evaluate)
    decreases level
  {
    if level > 1 {
      CalculateLowerBound(f, level - 1, evaluate);
      CalculateStep(f, level - 1, evaluate);
    }
  }

  /** With no percentage and no curve the growth is linear. */
  lemma {:induction false} CalculateLinear(f: ProgressionFormula, level: int,
                                           evaluate: (AnimationCurve, real) -> real)
    requires f.percentageAdded == 0.0 && !f.useCurve && 1 <= level
    ensures Calculate(f, level, evaluate) == f.startingValue + (level - 1) as real * f.absoluteAdded
    decreases level
  {
    if level > 1 {
      CalculateLinear(f, level - 1, evaluate);
    }
  }

  /** The indexer of ProgressionCharacterClass (FindStat): the formula of the
      first entry for `stat`; None stands for the ArgumentOutOfRangeException
      thrown when there is none. */
  function FindStat(stats: seq<ProgressionStat>, stat: Stat): (r: Option<ProgressionFormula>)
    ensures r.None? <==> forall i :: 0 <= i < |stats| ==> stats[i].stat != stat
    ensures r.Some? ==> exists i :: 0 <= i < |stats| && stats[i].stat == stat && stats[i].progression == r.value &&
                                    forall k :: 0 <= k < i ==> stats[k].stat != stat
  {
    if stats == [] then None
    else if stats[0].stat == stat then Some(stats[0].progression)
    else
      var r := FindStat(stats[1..], stat);
      assert forall i :: 1 <= i < |stats| ==> stats[i] == stats[1..][i - 1];
      if r.Some? then
        ghost var i :| 0 <= i < |stats[1..]| && stats[1..][i].stat == stat && stats[1..][i].progression == r.value &&
                       forall k :: 0 <= k < i ==> stats[1..][k].stat != stat;
        assert stats[i + 1].stat == stat && stats[i + 1].progression == r.value;
        r
      else r
  }

  /** Why a (class, stat) lookup throws: no entry for the class at all, or
      `entries` entries for the class and none with the stat (the message
      says "Multiple progressions" when there are several). */
  datatype LookupError =
    | NoProgression(characterClass: CharacterClass)
    | StatNotFound(characterClass: CharacterClass, stat: Stat, entries: nat)

  datatype Lookup = Found(formula: ProgressionFormula) | Failed(error: LookupError)

  /** Whether entry `i` is for class `cc` and lists `stat`. */
  predicate Provides(classes: seq<ProgressionCharacterClass>, i: int, cc: CharacterClass, stat: Stat)
    requires 0 <= i < |classes|
  {
    classes[i].characterClass == cc && FindStat(classes[i].stats, stat).Some?
  }

  function CountClass(classes: seq<ProgressionCharacterClass>, cc: CharacterClass): nat
  {
    if classes == [] then 0
    else (if classes[0].characterClass == cc then 1 else 0) + CountClass(classes[1..], cc)
  }

  /** The search over the entries still to visit, `searched` entries for the
      class having been found without the stat. */
  function LookupFrom(classes: seq<ProgressionCharacterClass>, cc: CharacterClass, stat: Stat,
                      searched: nat): Lookup
  {
    if classes == [] then
      if searched == 0 then Failed(NoProgression(cc)) else Failed(StatNotFound(cc, stat, searched))
    else if classes[0].characterClass != cc then LookupFrom(classes[1..], cc, stat, searched)
    else
      match FindStat(classes[0].stats, stat)
      case Some(f) => Found(f)
      case None => LookupFrom(classes[1..], cc, stat, searched + 1)
  }

  /** The search finds the formula of the first entry that is for the class and
      lists the stat; it reports "no progression" exactly when no entry was
      for the class, and otherwise counts the class entries it went through. */
  lemma LookupFromCharacterized(classes: seq<ProgressionCharacterClass>, cc: CharacterClass,
                                stat: Stat, searched: nat)
    ensures var r := LookupFrom(classes, cc, stat, searched);
            (r.Found? <==> exists i :: 0 <= i < |classes| && Provides(classes, i, cc, stat)) &&
            (r.Found? ==> exists i :: 0 <= i < |classes| && Provides(classes, i, cc, stat) &&
                                      FindStat(classes[i].stats, stat) == Some(r.formula) &&
                                      forall k :: 0 <= k < i ==> !Provides(classes, k, cc, stat)) &&
            (r == Failed(NoProgression(cc)) <==>
               searched == 0 && forall i :: 0 <= i < |classes| ==> classes[i].characterClass != cc) &&
            (r.Failed? && r.error.StatNotFound? ==>
               r.error == StatNotFound(cc, stat, searched + CountClass(classes, cc)) && 0 < r.error.entries)
  {
    LookupFromFound(classes, cc, stat, searched);
    LookupFromFailed(classes, cc, stat, searched);
  }

  /** The Found half: found exactly when some entry provides the stat... */
  lemma {:induction false} LookupFromFound(classes: seq<ProgressionCharacterClass>, cc: CharacterClass,
                                           stat: Stat, searched: nat)
    ensures var r := LookupFrom(classes, cc, stat, searched);
            (r.Found? <==> exists i :: 0 <= i < |classes| && Provides(classes, i, cc, stat)) &&
            (r.Found? ==> exists i :: 0 <= i < |classes| && Provides(classes, i, cc, stat) &&
                                      FindStat(classes[i].stats, stat) == Some(r.formula) &&
                                      forall k :: 0 <= k < i ==> !Provides(classes, k, cc, stat))
  {
    LookupFromFoundIff(classes, cc, stat, searched);
    LookupFromFirst(classes, cc, stat, searched);
  }

  lemma {:induction false} LookupFromFoundIff(classes: seq<ProgressionCharacterClass>, cc: CharacterClass,
                                              stat: Stat, searched: nat)
    ensures LookupFrom(classes, cc, stat, searched).Found? <==>
            exists i :: 0 <= i < |classes| && Provides(classes, i, cc, stat)
  {
    if classes != [] {
      var rest := classes[1..];
      var next := if classes[0].characterClass == cc then searched + 1 else searched;
      LookupFromFoundIff(rest, cc, stat, next);
      if Provides(classes, 0, cc, stat) {
        assert LookupFrom(classes, cc, stat, searched) == Found(FindStat(classes[0].stats, stat).value);
      } else {
        assert LookupFrom(classes, cc, stat, searched) == LookupFrom(rest, cc, stat, next);
        forall i | 1 <= i < |classes|
          ensures Provides(classes, i, cc, stat) == Provides(rest, i - 1, cc, stat)
        {
          assert classes[i] == rest[i - 1];
        }
        if exists i :: 0 <= i < |classes| && Provides(classes, i, cc, stat) {
          var i :| 0 <= i < |classes| && Provides(classes, i, cc, stat);
          assert Provides(rest, i - 1, cc, stat);
        }
        if exists i :: 0 <= i < |rest| && Provides(rest, i, cc, stat) {
          var i :| 0 <= i < |rest| && Provides(rest, i, cc, stat);
          assert Provides(classes, i + 1, cc, stat);
        }
      }
    }
  }

  /** ...and then it is the formula of the first providing entry. */
  lemma {:induction false} LookupFromFirst(classes: seq<ProgressionCharacterClass>, cc: CharacterClass,
                                           stat: Stat, searched: nat)
    ensures var r := LookupFrom(classes, cc, stat, searched);
            r.Found? ==> exists i :: 0 <= i < |classes| && Provides(classes, i, cc, stat) &&
                                     FindStat(classes[i].stats, stat) == Some(r.formula) &&
                                     forall k :: 0 <= k < i ==> !Provides(classes, k, cc, stat)
  {
    if classes != [] {
      var rest := classes[1..];
      var next := if classes[0].characterClass == cc then searched + 1 else searched;
      var r := LookupFrom(classes, cc, stat, searched);
      if Provides(classes, 0, cc, stat) {
        assert FindStat(classes[0].stats, stat) == Some(r.formula);
      } else {
        LookupFromFirst(rest, cc, stat, next);
        assert r == LookupFrom(rest, cc, stat, next);
        if r.Found? {
          var i :| 0 <= i < |rest| && Provides(rest, i, cc, stat) &&
                   FindStat(rest[i].stats, stat) == Some(r.formula) &&
                   forall k :: 0 <= k < i ==> !Provides(rest, k, cc, stat);
          assert classes[i + 1] == rest[i];
          forall k | 0 <= k < i + 1
            ensures !Provides(classes, k, cc, stat)
          {
            if k > 0 {
              assert classes[k] == rest[k - 1];
            }
          }
          assert Provides(classes, i + 1, cc, stat);
        }
      }
    }
  }

  /** The Failed half: "no progression" exactly when nothing was searched and
      no entry is for the class; otherwise the count of class entries. */
  lemma {:induction false} LookupFromFailed(classes: seq<ProgressionCharacterClass>, cc: CharacterClass,
                                            stat: Stat, searched: nat)
    ensures var r := LookupFrom(classes, cc, stat, searched);
            (r == Failed(NoProgression(cc)) <==>
               searched == 0 && forall i :: 0 <= i < |classes| ==> classes[i].characterClass != cc) &&
            (r.Failed? && r.error.StatNotFound? ==>
               r.error == StatNotFound(cc, stat, searched + CountClass(classes, cc)) && 0 < r.error.entries)
  {
    if classes != [] {
      var rest := classes[1..];
      var next := if classes[0].characterClass == cc then searched + 1 else searched;
      LookupFromFailed(rest, cc, stat, next);
      assert forall i :: 1 <= i < |classes| ==> classes[i] == rest[i - 1];
    }
  }

  /** The indexer `progression[cc, stat]`: the first entry for the class that
      lists the stat, falling through later entries for the same class. */
  function LookupStat(progression: Progression, cc: CharacterClass, stat: Stat): Lookup
  {
    LookupFrom(progression.characterClasses, cc, stat, 0)
  }

  /** FindProgressionCharacterClassWithStat: the loop with its `ccFound` flag
      and the count of class entries that lacked the stat. */
  method FindProgressionCharacterClassWithStat(progression: Progression, cc: CharacterClass, stat: Stat)
    returns (r: Lookup)
    ensures r == LookupStat(progression, cc, stat)
  {
    var classes := progression.characterClasses;
    var ccFound := false;
    var searched: nat := 0;
    var i := 0;
    while i < |classes|
      invariant 0 <= i <= |classes|
      invariant ccFound <==> searched > 0
      invariant LookupFrom(classes, cc, stat, 0) == LookupFrom(classes[i..], cc, stat, searched)
    {
      assert classes[i..][1..] == classes[i + 1..];
      var pcc := classes[i];
      if pcc.characterClass != cc {
        i := i + 1;
        continue;
      }
      var found := FindStat(pcc.stats, stat);
      if found.Some? {
        return Found(found.value);
      }
      ccFound := true;
      searched := searched + 1;
      i := i + 1;
    }
    if !ccFound {
      return Failed(NoProgression(cc));
    }
    return Failed(StatNotFound(cc, stat, searched));
  }

  /** A lookup fails with "no progression" exactly when no entry is for the
      class, and otherwise fails only when no entry for the class lists the
      stat. */
  lemma LookupFailures(progression: Progression, cc: CharacterClass, stat: Stat)
    ensures var classes := progression.characterClasses;
            (LookupStat(progression, cc, stat) == Failed(NoProgression(cc)) <==>
               forall i :: 0 <= i < |classes| ==> classes[i].characterClass != cc) &&
            (LookupStat(progression, cc, stat).Failed? <==>
               forall i :: 0 <= i < |classes| ==> !Provides(classes, i, cc, stat))
  {
    LookupFromCharacterized(progression.characterClasses, cc, stat, 0);
  }

  /** A later entry for the same class is used when the earlier one lacks the stat. */
  lemma LookupFallsThrough(first: ProgressionCharacterClass, second: ProgressionCharacterClass, stat: Stat)
    requires first.characterClass == second.characterClass
    requires FindStat(first.stats, stat).None? && FindStat(second.stats, stat).Some?
    ensures LookupStat(Progression([first, second]), first.characterClass, stat) ==
            Found(FindStat(second.stats, stat).value)
  {
    var cc := first.characterClass;
    var classes := [first, second];
    assert classes[1..] == [second];
    assert [second][1..] == [];
    assert LookupFrom(classes, cc, stat, 0) == LookupFrom([second], cc, stat, 1);
  }
}

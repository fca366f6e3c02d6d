/** Experience points and levels (Assets/Scripts/Stats/Experience.cs and
    Assets/Scripts/Stats/BaseStats.cs). Events are left out: a broadcast is
    returned as the value it would carry. */
module Stats {
  import opened Common
  import opened Json
  import opened Progressions

  /** The experience a level needs; +infinity (Mathf.Infinity) when the
      progression cannot say. */
  datatype Threshold = Needed(amount: real) | Infinity
  {
    /** `threshold < experience`; never true of +infinity. */
    predicate Below(experience: real)
    {
      Needed? && amount < experience
    }
  }

  /** Experience.cs: the points a character has gathered. */
  class Experience {
    /** The game object the component sits on. */
    const gameObject: object
    /** Whether the onExperiencedChanged event asset is assigned. */
    const onExperiencedChanged: bool
    var value: real

    constructor (gameObject: object, onExperiencedChanged: bool)
      ensures this.gameObject == gameObject && this.onExperiencedChanged == onExperiencedChanged
      ensures value == 0.0
    {
      this.gameObject := gameObject;
      this.onExperiencedChanged := onExperiencedChanged;
      value := 0.0;
    }

    /** GainExperience, the listener of characterDied: a death sent by this very
        game object is ignored; any other adds `amount` and broadcasts the new
        total when the event is assigned. */
    method GainExperience(sender: object, amount: real) returns (broadcast: Option<real>)
      modifies this
      ensures sender == gameObject ==> value == old(value) && broadcast == None
      ensures sender != gameObject ==> value == old(value) + amount
      ensures broadcast.Some? <==> sender != gameObject && onExperiencedChanged
      ensures broadcast.Some? ==> broadcast.value == value
    {
      if sender == gameObject {
        return None;
      }
      value := value + amount;
      broadcast := if onExperiencedChanged then Some(value) else None;
    }

    /** CaptureAsJToken: the value as a JSON number. */
    function CaptureAsJToken(): (t: JToken)
      reads this
      ensures ToFloat(t) == Some(value)
    {
      JFloat(value)
    }

    /** What RestoreFromJToken(state) leaves: a null state or one that does not
        convert keeps the value, any other state's number replaces it. */
    twostate predicate RestoredFrom(state: Option<JToken>)
      reads this
    {
      if state.Some? && ToFloat(state.value).Some? then value == ToFloat(state.value).value
      else value == old(value)
    }

    /** RestoreFromJToken: null is ignored; a token that does not convert to a
        float throws (`ok` false). */
    method RestoreFromJToken(state: Option<JToken>, version: int) returns (ok: bool)
      modifies this
      ensures ok <==> state.None? || ToFloat(state.value).Some?
      ensures RestoredFrom(state)
    {
      if state.None? {
        return true;
      }
      var restored := ToFloat(state.value);
      if restored.None? {
        return false;
      }
      value := restored.value;
      ok := true;
    }
  }

  /** BaseStats.cs: the level of a character, from its class's progression and
      its experience. */
  class BaseStats {
    const startingLevel: int
    const characterClass: CharacterClass
    /** The progression asset; None when none is assigned. */
    const progression: Option<Progression>
    /** The Experience component found by Awake, if any. */
    const experience: Experience?
    const gameObject: object
    /** AnimationCurve.Evaluate. */
    const evaluate: (AnimationCurve, real) -> real
    var experienceToNextLevel: Threshold
    var currentLevel: int

    /** Awake: the Experience component is looked up once; the level and the
        threshold start at their defaults. */
    constructor Awake(startingLevel: int, characterClass: CharacterClass, progression: Option<Progression>,
                      experience: Experience?, gameObject: object, evaluate: (AnimationCurve, real) -> real)
      ensures this.startingLevel == startingLevel && this.characterClass == characterClass
      ensures this.progression == progression && this.experience == experience
      ensures this.gameObject == gameObject && this.evaluate == evaluate
      ensures currentLevel == 0 && experienceToNextLevel == Needed(0.0)
    {
      this.startingLevel := startingLevel;
      this.characterClass := characterClass;
      this.progression := progression;
      this.experience := experience;
      this.gameObject := gameObject;
      this.evaluate := evaluate;
      currentLevel := 0;
      experienceToNextLevel := Needed(0.0);
    }

    /** The `progression[characterClass, stat]` lookup; a missing asset fails
        like a missing entry. */
    function Formula(stat: Stat): Lookup
    {
      if progression.None? then Failed(NoProgression(characterClass))
      else LookupStat(progression.value, characterClass, stat)
    }

    /** GetExperienceNeeded: the ExperienceToLevel formula at `level`; a failed
        lookup is caught and gives +infinity. */
    function GetExperienceNeeded(level: int): (t: Threshold)
      ensures t.Infinity? <==> Formula(ExperienceToLevel).Failed?
      ensures t.Needed? ==> t.amount == Calculate(Formula(ExperienceToLevel).formula, level, evaluate)
    {
      match Formula(ExperienceToLevel)
      case Found(f) => Needed(Calculate(f, level, evaluate))
      case Failed(_) => Infinity
    }

    /** GetStatValue: the stat's formula at the current level; a failed lookup
        is caught and gives 0. */
    function GetStatValue(stat: Stat): (v: real)
      reads this
      ensures Formula(stat).Failed? ==> v == 0.0
      ensures Formula(stat).Found? ==> v == Calculate(Formula(stat).formula, currentLevel, evaluate)
    {
      match Formula(stat)
      case Found(f) => Calculate(f, currentLevel, evaluate)
      case Failed(_) => 0.0
    }

    /** `level` is the least level from startingLevel on whose requirement is
        not below `xp`. */
    ghost predicate IsLevelFor(level: int, xp: real)
    {
      startingLevel <= level && !GetExperienceNeeded(level).Below(xp) &&
      forall k :: startingLevel <= k < level ==> GetExperienceNeeded(k).Below(xp)
    }

    /** Some level from startingLevel on needs at least `xp`, so the search in
        CalculateLevel stops. */
    ghost predicate CanLevelOut(xp: real)
    {
      exists k :: startingLevel <= k && !GetExperienceNeeded(k).Below(xp)
    }

    /** CalculateLevel: startingLevel without an Experience component;
        otherwise the least level from startingLevel on whose requirement is not
        below the experience, with that requirement kept in
        experienceToNextLevel. */
    method CalculateLevel() returns (level: int)
      requires experience != null ==> CanLevelOut(experience.value)
      modifies this
      ensures experience == null ==> level == startingLevel && experienceToNextLevel == old(experienceToNextLevel)
      ensures experience != null ==> IsLevelFor(level, experience.value) &&
                                     experienceToNextLevel == GetExperienceNeeded(level)
      ensures currentLevel == old(currentLevel)
    {
      if experience == null {
        return startingLevel;
      }
      ghost var exit :| startingLevel <= exit && !GetExperienceNeeded(exit).Below(experience.value);
      level := startingLevel;
      experienceToNextLevel := GetExperienceNeeded(level);
      while experienceToNextLevel.Below(experience.value)
        invariant startingLevel <= level <= exit
        invariant currentLevel == old(currentLevel)
        invariant experienceToNextLevel == GetExperienceNeeded(level)
        invariant forall k :: startingLevel <= k < level ==> GetExperienceNeeded(k).Below(experience.value)
        decreases exit - level
      {
        level := level + 1;
        experienceToNextLevel := GetExperienceNeeded(level);
      }
    }

    /** Start: the current level is calculated once. */
    method Start()
      requires experience != null ==> CanLevelOut(experience.value)
      modifies this
      ensures experience == null ==> currentLevel == startingLevel
      ensures experience != null ==> IsLevelFor(currentLevel, experience.value) &&
                                     experienceToNextLevel == GetExperienceNeeded(currentLevel)
    {
      currentLevel := CalculateLevel();
    }

    /** UpdateLevel, the listener of onExperienceChanged: events from other game
        objects are ignored; the level is recalculated and adopted only when it
        is higher, which is exactly when a level-up is announced. The
        recalculation always stores the calculated level's requirement in
        experienceToNextLevel, also when no level-up follows. */
    method UpdateLevel(sender: object, amount: real) returns (leveledUp: bool)
      requires experience != null ==> CanLevelOut(experience.value)
      modifies this
      ensures sender != gameObject ==> !leveledUp && unchanged(this)
      ensures old(currentLevel) <= currentLevel
      ensures leveledUp <==> old(currentLevel) < currentLevel
      ensures leveledUp && experience == null ==> currentLevel == startingLevel
      ensures leveledUp && experience != null ==> IsLevelFor(currentLevel, experience.value)
      ensures sender == gameObject && !leveledUp && experience == null ==> startingLevel <= currentLevel
      ensures sender == gameObject && !leveledUp && experience != null ==>
                exists level :: IsLevelFor(level, experience.value) && level <= currentLevel
      ensures sender == gameObject && experience == null ==>
                experienceToNextLevel == old(experienceToNextLevel) &&
                currentLevel == (if old(currentLevel) < startingLevel then startingLevel else old(currentLevel))
      ensures sender == gameObject && experience != null ==>
                exists level :: IsLevelFor(level, experience.value) &&
                                experienceToNextLevel == GetExperienceNeeded(level) &&
                                currentLevel == (if old(currentLevel) < level then level else old(currentLevel))
    {
      if sender != gameObject {
        return false;
      }
      var newLevel := CalculateLevel();
      if newLevel <= currentLevel {
        return false;
      }
      currentLevel := newLevel;
      leveledUp := true;
    }
  }

  /** There is one least level for a given experience. */
  lemma LevelForUnique(b: BaseStats, xp: real, l1: int, l2: int)
    requires b.IsLevelFor(l1, xp) && b.IsLevelFor(l2, xp)
    ensures l1 == l2
  {
  }

  /** More experience never means a lower level. */
  lemma LevelMonotonic(b: BaseStats, xp1: real, xp2: real, l1: int, l2: int)
    requires xp1 <= xp2 && b.IsLevelFor(l1, xp1) && b.IsLevelFor(l2, xp2)
    ensures l1 <= l2
  {
  }

  /** A failed lookup gives +infinity at the starting level, which ends the
      search at once; a formula in the declared ranges that adds a positive
      absolute amount per level eventually exceeds any experience. */
  lemma CanLevelOutWhen(b: BaseStats, xp: real)
    requires b.Formula(ExperienceToLevel).Failed? ||
             (var f := b.Formula(ExperienceToLevel).formula;
              InDeclaredRanges(f) && !f.useCurve && 0.0 < f.absoluteAdded)
    ensures b.CanLevelOut(xp)
    ensures b.Formula(ExperienceToLevel).Failed? ==> b.IsLevelFor(b.startingLevel, xp)
  {
    if b.Formula(ExperienceToLevel).Failed? {
      assert !b.GetExperienceNeeded(b.startingLevel).Below(xp);
    } else {
      var f := b.Formula(ExperienceToLevel).formula;
      var a := f.absoluteAdded;
      var n := MultipleReaching(xp, a);
      var base := if b.startingLevel < 1 then 1 else b.startingLevel;
      var k := base + n;
      CalculateLowerBound(f, k, b.evaluate);
      ScaleMonotonic(n as real, (k - 1) as real, a);
      var v := Calculate(f, k, b.evaluate);
      var reached := n as real * a;
      var added := (k - 1) as real * a;
      assert xp <= reached <= added && f.startingValue + added <= v && 1.0 <= f.startingValue;
      assert b.GetExperienceNeeded(k) == Needed(v);
    }
  }

  /** Some whole multiple of a positive `a` reaches `x`. */
  lemma MultipleReaching(x: real, a: real) returns (n: nat)
    requires 0.0 < a
    ensures x <= n as real * a
  {
    if x <= 0.0 {
      return 0;
    }
    var q := x / a;
    assert q * a == x;
    n := q.Floor + 1;
    ScaleMonotonic(q, n as real, a);
  }

  lemma ScaleMonotonic(x: real, y: real, a: real)
    requires x <= y && 0.0 <= a
    ensures x * a <= y * a
  {
    assert y * a - x * a == (y - x) * a;
  }

  /** Within the declared ranges the search can run forever: with no
      percentage, no absolute amount and startingValue 1, every level needs 1,
      so no level is reached once the experience exceeds 1. */
  lemma CalculateLevelCanDiverge(b: BaseStats, xp: real)
    requires b.progression == Some(Progression([ProgressionCharacterClass(b.characterClass,
               [ProgressionStat(ExperienceToLevel, ProgressionFormula(1.0, 0.0, 0.0, false, AnimationCurve([])))])]))
    requires 1.0 < xp
    ensures !b.CanLevelOut(xp)
  {
    var f := ProgressionFormula(1.0, 0.0, 0.0, false, AnimationCurve([]));
    LookupFallsThroughOne(b.characterClass, f);
    forall k | b.startingLevel <= k
      ensures b.GetExperienceNeeded(k).Below(xp)
    {
      if 1 <= k {
        CalculateLinear(f, k, b.evaluate);
      }
    }
  }

  /** A progression with one class entry that lists only ExperienceToLevel
      finds that formula for it. */
  lemma LookupFallsThroughOne(cc: CharacterClass, f: ProgressionFormula)
    ensures LookupStat(Progression([ProgressionCharacterClass(cc, [ProgressionStat(ExperienceToLevel, f)])]),
                       cc, ExperienceToLevel) == Found(f)
  {
    var classes := [ProgressionCharacterClass(cc, [ProgressionStat(ExperienceToLevel, f)])];
    assert FindStat(classes[0].stats, ExperienceToLevel) == Some(f);
  }

  /** With one class entry for the class that does not list the stat, the
      lookup fails with that one entry counted, and GetExperienceNeeded is
      +infinity at every level. */
  lemma LookupMissingStatOne(b: BaseStats, stats: seq<ProgressionStat>, level: int)
    requires b.progression == Some(Progression([ProgressionCharacterClass(b.characterClass, stats)]))
    requires FindStat(stats, ExperienceToLevel).None?
    ensures b.Formula(ExperienceToLevel) == Failed(StatNotFound(b.characterClass, ExperienceToLevel, 1))
    ensures b.GetExperienceNeeded(level) == Infinity
  {
    var classes := [ProgressionCharacterClass(b.characterClass, stats)];
    assert classes[1..] == [];
    assert LookupFrom(classes, b.characterClass, ExperienceToLevel, 0) ==
           LookupFrom([], b.characterClass, ExperienceToLevel, 1);
  }
}

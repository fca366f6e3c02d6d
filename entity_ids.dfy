/** The unique-id rule shared by SavableEntity and JsonSavableEntity
    (Assets/Scripts/Saving/SavableEntity.cs and
    Assets/Scripts/Saving/JsonSavableEntity.cs, IsUnique and the edit-mode
    Update): both keep a static GlobalLookup from id to entity and decide the
    same way. */
module EntityIds {
  import opened Common

  /** What GlobalLookup holds under a candidate id, seen by the entity asking:
      nothing, the entity itself, a destroyed entity (Unity's `== null`), or
      another live entity whose own id is now `currentId`. */
  datatype Holder = Unregistered | Itself | Destroyed | Another(currentId: string)

  /** IsUnique's answer, and whether it removes the candidate's entry. */
  datatype Verdict = Verdict(unique: bool, release: bool)

  /** IsUnique: a blank id is never unique; otherwise an id is unique unless a
      live other entity still carries it. Entries of destroyed entities and of
      entities that were renamed since are released. */
  function Decide(candidate: string, holder: Holder): (v: Verdict)
    ensures IsBlank(candidate) ==> v == Verdict(false, false)
    ensures !IsBlank(candidate) ==> (v.unique <==> !(holder.Another? && holder.currentId == candidate))
    ensures v.release <==> !IsBlank(candidate) && (holder.Destroyed? || (holder.Another? && holder.currentId != candidate))
    ensures v.release ==> v.unique
  {
    if IsBlank(candidate) then Verdict(false, false)
    else
      match holder
      case Unregistered => Verdict(true, false)
      case Itself => Verdict(true, false)
      case Destroyed => Verdict(true, true)
      case Another(id) => if id == candidate then Verdict(false, false) else Verdict(true, true)
  }

  /** The lookup after IsUnique: the candidate's entry is dropped when released. */
  function AfterDecision<E>(entries: map<string, E>, candidate: string, v: Verdict): (r: map<string, E>)
    ensures r.Keys <= entries.Keys
    ensures forall k :: k in r ==> r[k] == entries[k]
    ensures forall k :: k in entries && k != candidate ==> k in r
    ensures candidate in r <==> candidate in entries && !v.release
  {
    if v.release then entries - {candidate} else entries
  }

  /** `$"{name}-{Guid.NewGuid()}"`; the GUID text is given. The hyphen alone
      makes it non-blank. */
  function FreshId(name: string, guid: string): (id: string)
    ensures !IsBlank(id)
    ensures |id| == |name| + 1 + |guid| && id[..|name|] == name && id[|name|] == '-'
  {
    var id := name + "-" + guid;
    NotBlankWith(id, |name|);
    id
  }

  /** The id the edit-mode Update keeps or assigns: the current one when it is
      unique, a fresh one otherwise. */
  function ChosenId(current: string, holder: Holder, name: string, guid: string): (id: string)
    ensures !IsBlank(id)
    ensures Decide(current, holder).unique ==> id == current
  {
    if Decide(current, holder).unique then current else FreshId(name, guid)
  }
}

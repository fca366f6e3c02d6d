/** The values the binary save pipeline stores: SerializableVector3
    (Assets/Scripts/Saving/SerializableVector3.cs) and the boxed objects that the
    BinaryFormatter-based components return from CaptureState. */
module Serialization {
  import opened Common

  /** A serializable copy of a Vector3: exactly the three components. */
  datatype SerializableVector3 = SerializableVector3(x: real, y: real, z: real)

  /** `new SerializableVector3(vector)`: copies the components unchanged. */
  function FromVector(v: Vector3): (s: SerializableVector3)
    ensures s.x == v.x && s.y == v.y && s.z == v.z
  {
    SerializableVector3(v.x, v.y, v.z)
  }

  /** `ToVector()`: a Vector3 with the stored components. */
  function ToVector(s: SerializableVector3): (v: Vector3)
    ensures v.x == s.x && v.y == s.y && v.z == s.z
  {
    Vector3(s.x, s.y, s.z)
  }

  /** ToVector inverts FromVector, and wrappers of equal vectors are equal. */
  lemma RoundTrip(v: Vector3, w: Vector3)
    ensures ToVector(FromVector(v)) == v
    ensures FromVector(v) == FromVector(w) <==> v == w
  {
  }

  /** A boxed `object` as stored by the binary pipeline. Only the shapes the core
      stores are distinguished: null, a bool, an int, a SerializableVector3 and a
      Dictionary<string, object>. */
  datatype SaveObject =
    | SNull
    | SBool(b: bool)
    | SInt(i: int)
    | SVector(v: SerializableVector3)
    | SDictionary(entries: map<string, SaveObject>)

  /** The unboxing cast `(int)state`: fails (None) on anything but a boxed int. */
  function AsInt(o: SaveObject): (r: Option<int>)
    ensures r.Some? <==> o.SInt?
    ensures o.SInt? ==> r.value == o.i
  {
    if o.SInt? then Some(o.i) else None
  }
}

/** The fragment of Json.NET's token model the saving code relies on (JToken,
    JObject, the explicit numeric conversions), and the Vector3 helpers of
    Assets/Scripts/Saving/JsonStatics.cs. */
module Json {
  import opened Common

  /** A JToken. A JObject is a map from property name to token; property order,
      which only matters when printing, is not modelled. */
  datatype JToken =
    | JNull
    | JBool(b: bool)
    | JInteger(i: int)
    | JFloat(f: real)
    | JString(s: string)
    | JObject(properties: map<string, JToken>)

  const EmptyObject: JToken := JObject(map[])

  /** The range of a C# `int`. */
  const Int32Min: int := -0x8000_0000
  const Int32Max: int := 0x7FFF_FFFF

  /** The rounding of .NET's Convert.ToInt32(double): the nearest integer, and
      at a tie the even one. */
  function RoundHalfEven(r: real): (n: int)
    ensures r - 0.5 <= n as real <= r + 0.5
    ensures n as real == r - 0.5 || n as real == r + 0.5 ==> n % 2 == 0
  {
    var f := r.Floor;
    var fraction := r - f as real;
    if fraction < 0.5 then f
    else if fraction > 0.5 then f + 1
    else if f % 2 == 0 then f
    else f + 1
  }

  /** Convert.ToInt32(double) accepts exactly the floats that round into the
      `int` range. */
  predicate FloatFitsInt32(f: real)
  {
    -2147483648.5 <= f < 2147483647.5
  }

  /** `(int)token`: Json.NET accepts integer, float and boolean tokens and
      throws (None) on null, objects and, in this model, strings. The number
      goes through Convert.ToInt32, which throws (None) on an OverflowException
      when it does not fit in an `int`. */
  function ToInt(t: JToken): (r: Option<int>)
    ensures t.JInteger? ==> (r.Some? <==> Int32Min <= t.i <= Int32Max)
    ensures t.JInteger? && r.Some? ==> r.value == t.i
    ensures t.JFloat? && r.Some? ==> t.f - 0.5 <= r.value as real <= t.f + 0.5
    ensures r.Some? ==> Int32Min <= r.value <= Int32Max
    ensures r.None? <==> !((t.JInteger? && Int32Min <= t.i <= Int32Max) ||
                          (t.JFloat? && FloatFitsInt32(t.f)) || t.JBool?)
  {
    match t
    case JInteger(i) => if Int32Min <= i <= Int32Max then Some(i) else None
    case JFloat(f) =>
      if FloatFitsInt32(f) then
        Some(RoundHalfEven(f))
      else None
    case JBool(b) => Some(if b then 1 else 0)
    case _ => None
  }

  /** `token.ToObject<float>()`: the same token kinds convert; others throw (None). */
  function ToFloat(t: JToken): (r: Option<real>)
    ensures t.JFloat? ==> r == Some(t.f)
    ensures t.JInteger? ==> r == Some(t.i as real)
    ensures r.None? <==> !(t.JInteger? || t.JFloat? || t.JBool?)
  {
    match t
    case JInteger(i) => Some(i as real)
    case JFloat(f) => Some(f)
    case JBool(b) => Some(if b then 1.0 else 0.0)
    case _ => None
  }

  /** JsonStatics.ToToken: a JObject holding the three components under "x", "y", "z". */
  function ToToken(v: Vector3): (t: JToken)
    ensures t.JObject? && t.properties.Keys == {"x", "y", "z"}
    ensures t.properties["x"] == JFloat(v.x)
    ensures t.properties["y"] == JFloat(v.y)
    ensures t.properties["z"] == JFloat(v.z)
  {
    JObject(map["x" := JFloat(v.x), "y" := JFloat(v.y), "z" := JFloat(v.z)])
  }

  /** One component read by ToVector3: absent keys leave 0, present ones must convert. */
  function Component(properties: map<string, JToken>, key: string): Option<real>
  {
    if key in properties then ToFloat(properties[key]) else Some(0.0)
  }

  /** JsonStatics.ToVector3: a non-object token gives the zero vector; in an object,
      each of "x", "y", "z" that is present is converted (a conversion that throws is
      None) and every other property is ignored. */
  function ToVector3(state: JToken): (r: Option<Vector3>)
    ensures !state.JObject? ==> r == Some(Zero)
    ensures state.JObject? && state.properties.Keys !! {"x", "y", "z"} ==> r == Some(Zero)
  {
    match state
    case JObject(properties) =>
      var x := Component(properties, "x");
      var y := Component(properties, "y");
      var z := Component(properties, "z");
      if x.Some? && y.Some? && z.Some? then Some(Vector3(x.value, y.value, z.value)) else None
    case _ => Some(Zero)
  }

  /** ToVector3 inverts ToToken. */
  lemma ToVector3OfToToken(v: Vector3)
    ensures ToVector3(ToToken(v)) == Some(v)
  {
  }

  /** Properties other than "x", "y" and "z" do not affect ToVector3. */
  lemma ToVector3IgnoresOtherKeys(properties: map<string, JToken>, key: string, extra: JToken)
    requires key !in {"x", "y", "z"}
    ensures ToVector3(JObject(properties[key := extra])) == ToVector3(JObject(properties))
  {
    var p := properties[key := extra];
    assert Component(p, "x") == Component(properties, "x");
    assert Component(p, "y") == Component(properties, "y");
    assert Component(p, "z") == Component(properties, "z");
  }

  /** In an object, each of "x", "y", "z" is read on its own: a missing key
      leaves its component at 0, a present one is its token's float, and the
      result fails exactly when some present component does not convert. */
  lemma ToVector3MissingComponent(properties: map<string, JToken>)
    ensures var r := ToVector3(JObject(properties));
            (r.None? <==> ("x" in properties && ToFloat(properties["x"]).None?) ||
                          ("y" in properties && ToFloat(properties["y"]).None?) ||
                          ("z" in properties && ToFloat(properties["z"]).None?)) &&
            (r.Some? && "x" !in properties ==> r.value.x == 0.0) &&
            (r.Some? && "y" !in properties ==> r.value.y == 0.0) &&
            (r.Some? && "z" !in properties ==> r.value.z == 0.0) &&
            (r.Some? && "x" in properties ==> ToFloat(properties["x"]) == Some(r.value.x)) &&
            (r.Some? && "y" in properties ==> ToFloat(properties["y"]) == Some(r.value.y)) &&
            (r.Some? && "z" in properties ==> ToFloat(properties["z"]) == Some(r.value.z))
  {
  }
}

/**
 * `SingleOrListConverter<T>`: a JSON converter that lets a list field be written
 * either as an array or as a single value. Reading only; writing is not supported.
 * The JSON library's conversion of one token to a `T` is the parameter `convert`.
 */
module JsonConverter {
  import opened Wrappers

  /** The JSON token kinds the converter distinguishes, with the values they carry. */
  datatype JToken =
    | JNull
    | JArray(elements: seq<JToken>)
    | JObject(properties: seq<(string, JToken)>)
    | JString(s: string)
    | JInteger(n: int)
    | JBoolean(b: bool)

  /** A .NET type, as far as `CanConvert` looks at it: a `List<T>` or any other type. */
  datatype TypeRef = ListOf(element: TypeRef) | Named(name: string)

  /** How deeply list types are nested. */
  function Depth(t: TypeRef): nat {
    match t
    case ListOf(e) => 1 + Depth(e)
    case Named(_) => 0
  }

  /** `CanConvert(objectType)`: exactly `List<T>` for the converter's own `T`; never `T` itself. */
  predicate CanConvert(objectType: TypeRef, t: TypeRef): (b: bool)
    ensures b <==> objectType.ListOf? && objectType.element == t
    ensures objectType == t ==> !b
  {
    assert Depth(ListOf(t)) == Depth(t) + 1;
    objectType == ListOf(t)
  }

  /** `token.ToObject<List<T>>()` on an array: every element converted, in order. */
  function ConvertAll<T>(elements: seq<JToken>, convert: JToken -> T): (r: seq<T>)
    ensures |r| == |elements|
    ensures forall i :: 0 <= i < |elements| ==> r[i] == convert(elements[i])
    decreases |elements|
  {
    if |elements| == 0 then [] else [convert(elements[0])] + ConvertAll(elements[1..], convert)
  }

  /**
   * `ReadJson`: null reads as null (None), an array as the list of its converted
   * elements, and any other token as a one-element list.
   */
  function ReadJson<T>(token: JToken, convert: JToken -> T): (r: Option<seq<T>>)
    ensures r.None? <==> token.JNull?
    ensures token.JArray? ==> |r.value| == |token.elements| && forall i :: 0 <= i < |token.elements| ==> r.value[i] == convert(token.elements[i])
    ensures !token.JNull? && !token.JArray? ==> r.value == [convert(token)]
  {
    match token
    case JNull => None
    case JArray(elements) => Some(ConvertAll(elements, convert))
    case _ => Some([convert(token)])
  }

  /** `CanWrite` is false. */
  const CanWrite: bool := false

  /** `WriteJson` always throws `NotImplementedException`. */
  function WriteJson<T>(value: Option<seq<T>>): (r: Result<JToken, string>)
    ensures r.Failure?
  {
    Failure("NotImplementedException")
  }

  /** A single value reads like an array holding only it. */
  lemma ReadJsonCases<T>(token: JToken, convert: JToken -> T)
    ensures !token.JNull? && !token.JArray? ==> ReadJson(token, convert) == ReadJson(JArray([token]), convert)
  {
    var single := ConvertAll([token], convert);
    assert single == [convert(token)];
  }
}

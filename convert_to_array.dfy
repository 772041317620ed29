/** util/convert-to-array.ts: wraps a single value in a list. */
module ArrayConversion {
  import opened JsValues

  /** `convertToArray(data, defaultValue = [])`: an array is returned as it is, a
      present scalar becomes a one-element list, null and undefined give the default. */
  function ConvertToArray(data: JsValue, defaultValue: seq<JsValue> := []): (r: seq<JsValue>)
    ensures data.Arr? ==> r == data.items
    ensures !data.Arr? && !IsNullish(data) ==> r == [data]
    ensures IsNullish(data) ==> r == defaultValue
  {
    if data.Arr? then data.items
    else if !IsNullish(data) then [data]
    else defaultValue
  }

  /** Converting the result again changes nothing. */
  lemma ConvertToArrayIdempotent(data: JsValue, defaultValue: seq<JsValue>)
    ensures ConvertToArray(Arr(ConvertToArray(data, defaultValue))) == ConvertToArray(data, defaultValue)
  {
  }

  /** The result is empty exactly when the input is an empty array or is null or
      undefined without a (non-empty) default. */
  lemma ConvertToArrayEmpty(data: JsValue)
    ensures ConvertToArray(data) == [] <==> data == Arr([]) || IsNullish(data)
  {
  }
}

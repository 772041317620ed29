/** util/convert-to-string.ts: null-safe string conversion and two-character padding. */
module StringConversion {
  import opened JsValues

  /** `convertToString(data, defaultStringValue = '')`: the default for null and
      undefined, otherwise the value's own `toString()`. */
  function ConvertToString(data: JsValue, defaultStringValue: string := ""): (r: string)
    ensures IsNullish(data) ==> r == defaultStringValue
    ensures data.Str? ==> r == data.s
    ensures data.Num? ==> r == IntToDecimal(data.n)
  {
    if IsNullish(data) then defaultStringValue else ToJsString(data)
  }

  /** `toString2(value)`: pads a string form shorter than two characters with one
      leading '0'. */
  function ToString2(value: JsValue): (r: string)
    ensures var s := ConvertToString(value);
      && |s| <= |r| && r[|r| - |s|..] == s
      && (|s| < 2 ==> |r| == |s| + 1 && r[0] == '0')
      && (|s| >= 2 ==> r == s)
  {
    var numberAsString := ConvertToString(value);
    if |numberAsString| < 2 then "0" + numberAsString else numberAsString
  }

  /** A null or undefined value pads to "0". */
  lemma ToString2OfNullish(value: JsValue)
    requires IsNullish(value)
    ensures ToString2(value) == "0"
  {
  }

  /** The numbers 0..99 come out as exactly two digits that read back as the number,
      which is what the helper is used for (hours, minutes, days, months). */
  lemma {:induction false} ToString2TwoDigits(n: nat)
    requires n < 100
    ensures |ToString2(Num(n))| == 2
    ensures AllDecimalDigits(ToString2(Num(n)))
    ensures DecimalValue(ToString2(Num(n))) == n
  {
    var s := NatToDecimal(n);
    DecimalRoundTrip(n);
    if n < 10 {
      var r := ToString2(Num(n));
      assert r == "0" + s;
      assert r[..1] == "0";
      assert DecimalValue(r[..1]) == 0 by {
        assert r[..1][..0] == [];
      }
      assert r[..|r| - 1] == r[..1];
    } else {
      assert n / 10 < 10;
    }
  }
}

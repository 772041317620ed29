/**
 * phone-input/phone-input-fill.service.ts: formats the text of a phone field and
 * predicts where the caret belongs in the newly formatted text (the index-shift
 * heuristic). The field is a record; the external formatter is a parameter.
 */
module PhoneFillService {
  import opened Wrappers
  import opened JsValues
  import opened StringConversion
  import opened PhoneText

  /** `!countryCode`: the code is absent or empty. */
  predicate IsFalsyCountry(countryCode: Option<CountryCode>) {
    countryCode.None? || countryCode.value == ""
  }

  function Min(a: int, b: int): int {
    if a < b then a else b
  }

  function Max(a: int, b: int): int {
    if a < b then b else a
  }

  /** The display text `formatPhoneNumber` computes for a non-empty country code
      (lines 33-42), given the normalised prefix. */
  function FormattedText(originalValue: string, countryCode: Option<CountryCode>,
                         prefix: string, format: Formatter): (t: string)
    // '#' and '*' bypass the formatter: the cleaned text, without the prefix
    ensures HasDialSymbol(originalValue) ==> t == ClearInvalidCharacters(originalValue)
    // a formatter that throws leaves the whole pure number, prefix included
    ensures var pureNumber := prefix + ClearInvalidCharacters(originalValue);
      !HasDialSymbol(originalValue) && format(pureNumber, countryCode).None? ==> t == pureNumber
    // otherwise the formatter's text without its first |prefix| characters, trimmed
    ensures var pureNumber := prefix + ClearInvalidCharacters(originalValue);
      !HasDialSymbol(originalValue) && format(pureNumber, countryCode).Some? ==>
        var f := format(pureNumber, countryCode).value;
        t == Trim(f[Min(|prefix|, |f|)..])
  {
    var cleared := ClearInvalidCharacters(originalValue);
    var pureNumber := prefix + cleared;
    if HasDialSymbol(originalValue) then
      assert pureNumber[|prefix|..] == cleared;
      TrimClearedText(originalValue);
      Trim(pureNumber[|prefix|..])
    else
      match format(pureNumber, countryCode)
      case None => pureNumber
      case Some(f) => Trim(f[Min(|prefix|, |f|)..])
  }

  /** `formatPhoneNumber(originalValue, countryCode, ignoredPrefix)`. */
  function FormatPhoneNumber(originalValue: string, countryCode: Option<CountryCode>,
                             ignoredPrefix: JsValue, format: Formatter): (r: PhoneValue)
    // without a country code the text is passed through
    ensures IsFalsyCountry(countryCode) ==> r == PhoneValue(originalValue, originalValue)
    // an input without digits, '#' or '*' (a lone '+' aside) clears the value
    ensures !IsFalsyCountry(countryCode) && ClearInvalidCharacters(originalValue) == "" ==> r == PhoneValue("", "")
    // otherwise the number is the prefix and the cleaned text, shown as FormattedText
    ensures !IsFalsyCountry(countryCode) && ClearInvalidCharacters(originalValue) != "" ==>
      var prefix := ConvertToString(ignoredPrefix);
      && r.number == prefix + ClearInvalidCharacters(originalValue)
      && r.numberFormatted == FormattedText(originalValue, countryCode, prefix, format)
  {
    if IsFalsyCountry(countryCode) then
      PhoneValue(originalValue, originalValue)
    else
      var prefix := ConvertToString(ignoredPrefix);
      var pureNumber := prefix + ClearInvalidCharacters(originalValue);
      var numberFormatted := FormattedText(originalValue, countryCode, prefix, format);
      assert pureNumber == prefix <==> ClearInvalidCharacters(originalValue) == "" by {
        assert |pureNumber| == |prefix| + |ClearInvalidCharacters(originalValue)|;
      }
      if pureNumber == prefix then PhoneValue("", "") else PhoneValue(pureNumber, numberFormatted)
  }

  /** Where caret offset `k` of `value` falls once the formatting characters are
      removed: `k` minus the formatting characters in front of it. */
  function PureOffset(value: string, k: int): int {
    k - FormattingBefore(value, k)
  }

  /** The caret offset, in a text without formatting characters, equals the number of
      content characters in front of the caret. */
  lemma PureOffsetCountsContent(value: string, k: nat)
    requires k <= |value|
    ensures PureOffset(value, k) == ContentCount(value[..k])
    ensures 0 <= PureOffset(value, k) <= k
  {
  }

  /** `getCursorPositionWithoutFormatting(elementRef)`: the selection moved into the
      coordinates of the text without formatting characters. */
  method GetCursorPositionWithoutFormatting(field: TextField) returns (c: Caret)
    ensures c.NoCaret? <==> field.selectionStart.None?
    ensures c.Sel? ==> c.start == c.end == PureOffset(field.value, field.selectionStart.value)
    ensures c.Sel? && field.selectionStart.value >= 0 ==> 0 <= c.start <= field.selectionStart.value
  {
    c := GetInputSelection(field);
    var currentInputValue := field.value;
    if c.Sel? {
      var selectionStart, selectionEnd := c.start, c.end;
      var initialSelectionStart, initialSelectionEnd := selectionStart, selectionEnd;
      for i := 0 to |currentInputValue|
        invariant selectionStart == selectionEnd
        invariant selectionStart == initialSelectionStart - FormattingCount(currentInputValue[..Clamp(initialSelectionStart, i)])
      {
        FormattingCountStep(currentInputValue, Clamp(initialSelectionStart, i));
        assert currentInputValue[..Clamp(initialSelectionStart, i + 1)]
            == (if 0 <= i < initialSelectionStart then currentInputValue[..Clamp(initialSelectionStart, i) + 1]
                else currentInputValue[..Clamp(initialSelectionStart, i)]);
        var isFormattingChar := IsFormattingCharacter(currentInputValue[i]);
        if isFormattingChar && initialSelectionStart > i {
          selectionStart := selectionStart - 1;
          selectionEnd := selectionEnd - 1;
        } else if isFormattingChar && initialSelectionEnd > i {
          selectionEnd := selectionEnd - 1;
        }
      }
      c := Sel(selectionStart, selectionEnd);
    }
  }

  /** The offset in `v` that content offset `p` maps to: the first position with `p`
      content characters in front of it, or, past the content, `p` plus every
      formatting character of `v`. */
  function Projected(v: string, p: int): int
    decreases |v|
  {
    if p <= 0 || v == [] then p
    else if IsFormattingCharacter(v[0]) then 1 + Projected(v[1..], p)
    else 1 + Projected(v[1..], p - 1)
  }

  /** Within the content, the projected offset is the least position of `v` that has
      exactly `p` content characters in front of it. */
  lemma {:induction false} ProjectedIsFirstPositionAfterContent(v: string, p: nat)
    requires p <= ContentCount(v)
    ensures var e := Projected(v, p);
      && 0 <= e <= |v|
      && ContentCount(v[..e]) == p
      && (forall j :: 0 <= j < e ==> ContentCount(v[..j]) < p)
      && (e == 0 || !IsFormattingCharacter(v[e - 1]))
    decreases |v|
  {
    if p > 0 {
      ContentCountFront(v);
      var fmt := IsFormattingCharacter(v[0]);
      var q := if fmt then p else p - 1;
      ProjectedIsFirstPositionAfterContent(v[1..], q);
      var e' := Projected(v[1..], q);
      var e := Projected(v, p);
      assert e == 1 + e';
      ContentCountPrefixFront(v, e);
      assert e' > 0 ==> v[e - 1] == v[1..][e' - 1];
      forall j | 0 <= j < e ensures ContentCount(v[..j]) < p {
        if j > 0 {
          ContentCountPrefixFront(v, j);
        }
      }
    }
  }

  /** Past the content, the projected offset is `p` plus all formatting characters. */
  lemma {:induction false} ProjectedPastContent(v: string, p: int)
    requires p > ContentCount(v)
    ensures Projected(v, p) == p + FormattingCount(v)
    decreases |v|
  {
    if v != [] {
      ContentCountFront(v);
      FormattingCountFront(v);
      if IsFormattingCharacter(v[0]) {
        ProjectedPastContent(v[1..], p);
      } else {
        ProjectedPastContent(v[1..], p - 1);
      }
    }
  }

  /** The direction the caret skips over formatting characters: back after Backspace
      (or when no key is known), forward otherwise. */
  function MoveDirection(lastPressedKey: string): (d: int)
    ensures d == -1 <==> lastPressedKey == "Backspace" || lastPressedKey == ""
    ensures d == 1 <==> !(lastPressedKey == "Backspace" || lastPressedKey == "")
  {
    if lastPressedKey == "Backspace" || lastPressedKey == "" then -1 else 1
  }

  /** The number of consecutive formatting characters of `v` starting at index `k`
      and walking in direction `dir`. */
  function RunLength(v: string, k: int, dir: int): nat
    requires dir == 1 || dir == -1
    decreases if dir == 1 then |v| - k else k + 1
  {
    if 0 <= k < |v| && IsFormattingCharacter(v[k]) then 1 + RunLength(v, k + dir, dir) else 0
  }

  predicate AllFormatting(v: string, lo: int, hi: int)
    requires 0 <= lo <= hi <= |v|
  {
    forall j :: lo <= j < hi ==> IsFormattingCharacter(v[j])
  }

  /** The run is exactly a maximal block of formatting characters: all of it is
      formatting and the position after it (in the walking direction) is outside `v`
      or holds a content character. */
  lemma {:induction false} RunLengthIsMaximalRun(v: string, k: int, dir: int)
    requires dir == 1 || dir == -1
    ensures var n := RunLength(v, k, dir);
      var stop := k + dir * n;
      && (n > 0 && dir == 1 ==> 0 <= k && stop <= |v| && AllFormatting(v, k, stop))
      && (n > 0 && dir == -1 ==> -1 <= stop && k < |v| && AllFormatting(v, stop + 1, k + 1))
      && !(0 <= stop < |v| && IsFormattingCharacter(v[stop]))
    decreases if dir == 1 then |v| - k else k + 1
  {
    if 0 <= k < |v| && IsFormattingCharacter(v[k]) {
      RunLengthIsMaximalRun(v, k + dir, dir);
    }
  }

  /** The selection that `predictCursorPositionInValue` computes. */
  function PredictedCaret(field: TextField, valueToSet: string, lastPressedKey: string): Caret {
    match GetInputSelection(field)
    case NoCaret => NoCaret
    case Sel(s, _) =>
      var projected := Projected(valueToSet, PureOffset(field.value, s));
      var dir := MoveDirection(lastPressedKey);
      var moved := projected + dir * RunLength(valueToSet, Max(projected - 1, 0), dir);
      Sel(moved, moved)
  }

  /** The predicted caret from its two parts: the re-projected offset and the
      length of the run of formatting characters skipped from it. */
  lemma PredictedCaretOf(field: TextField, valueToSet: string, lastPressedKey: string, projected: int, steps: int)
    requires field.selectionStart.Some?
    requires projected == Projected(valueToSet, PureOffset(field.value, field.selectionStart.value))
    requires steps == RunLength(valueToSet, Max(projected - 1, 0), MoveDirection(lastPressedKey))
    ensures var moved := projected + MoveDirection(lastPressedKey) * steps;
      PredictedCaret(field, valueToSet, lastPressedKey) == Sel(moved, moved)
  {
  }

  /** `predictCursorPositionInValue(elementRef, valueToSet, lastPressedKey)`. */
  method PredictCursorPositionInValue(field: TextField, valueToSet: string, lastPressedKey: string)
    returns (c: Caret)
    ensures c == PredictedCaret(field, valueToSet, lastPressedKey)
  {
    var pure := GetCursorPositionWithoutFormatting(field);
    if pure.NoCaret? {
      return pure;
    }
    var selectionStart, selectionEnd := pure.start, pure.end;
    ghost var p := selectionEnd;
    var i := 0;
    // re-project onto the new text: formatting characters in front of the caret push it right
    while i < |valueToSet| && i <= selectionEnd
      invariant 0 <= i <= |valueToSet|
      invariant selectionStart == selectionEnd
      invariant i <= selectionEnd ==> Projected(valueToSet, p) == i + Projected(valueToSet[i..], selectionEnd - i)
      invariant i > selectionEnd ==> Projected(valueToSet, p) == selectionEnd
    {
      assert valueToSet[i..][1..] == valueToSet[i + 1..];
      var isFormattingChar := IsFormattingCharacter(valueToSet[i]);
      if isFormattingChar && selectionStart > i {
        selectionStart := selectionStart + 1;
        selectionEnd := selectionEnd + 1;
      } else if isFormattingChar && selectionEnd > i {
        selectionEnd := selectionEnd + 1;
      }
      i := i + 1;
    }
    assert i <= selectionEnd ==> valueToSet[i..] == [];
    ghost var projected := selectionEnd;
    // skip the run of formatting characters at the caret
    var isSelectionStartAsSelectionEnd := selectionStart == selectionEnd;
    var moveDirection := if lastPressedKey == "Backspace" || lastPressedKey == "" then -1 else 1;
    var valueIndex := Max(selectionEnd - 1, 0);
    ghost var start := valueIndex;
    ghost var steps := 0;
    while valueIndex >= 0 && valueIndex < |valueToSet| && IsFormattingCharacter(valueToSet[valueIndex])
      invariant valueIndex == start + moveDirection * steps
      invariant selectionEnd == projected + moveDirection * steps
      invariant selectionStart == selectionEnd
      invariant RunLength(valueToSet, start, moveDirection) == steps + RunLength(valueToSet, valueIndex, moveDirection)
      decreases if moveDirection == 1 then |valueToSet| - valueIndex else valueIndex + 1
    {
      selectionEnd := selectionEnd + moveDirection;
      if isSelectionStartAsSelectionEnd {
        selectionStart := selectionStart + moveDirection;
      }
      valueIndex := valueIndex + moveDirection;
      steps := steps + 1;
    }
    assert RunLength(valueToSet, valueIndex, moveDirection) == 0;
    PredictedCaretOf(field, valueToSet, lastPressedKey, projected, steps);
    c := Sel(selectionStart, selectionEnd);
  }

  /** The prediction always yields a collapsed caret, or passes a missing one through. */
  lemma PredictedCaretCollapsed(field: TextField, valueToSet: string, lastPressedKey: string)
    ensures var c := PredictedCaret(field, valueToSet, lastPressedKey);
      (c.NoCaret? <==> field.selectionStart.None?) && (c.Sel? ==> c.start == c.end)
  {
  }

  /** While typing (any key but Backspace) with the caret in front of all content,
      the caret skips the run of formatting characters the new text starts with. */
  lemma TypingAtFrontSkipsFormatting(field: TextField, valueToSet: string, lastPressedKey: string)
    requires field.selectionStart.Some?
    requires !(lastPressedKey == "Backspace" || lastPressedKey == "")
    requires PureOffset(field.value, field.selectionStart.value) == 0
    ensures var n := RunLength(valueToSet, 0, 1);
      PredictedCaret(field, valueToSet, lastPressedKey) == Sel(n, n)
  {
    PredictedCaretOf(field, valueToSet, lastPressedKey, 0, RunLength(valueToSet, 0, 1));
  }

  /** While typing (any key but Backspace) with the caret behind the p-th content
      character, the caret stays right behind that character in the new text, in
      front of any formatting characters that follow it. */
  lemma TypingStaysAfterContent(field: TextField, valueToSet: string, lastPressedKey: string)
    requires field.selectionStart.Some?
    requires !(lastPressedKey == "Backspace" || lastPressedKey == "")
    requires 0 < PureOffset(field.value, field.selectionStart.value) <= ContentCount(valueToSet)
    ensures var c := PredictedCaret(field, valueToSet, lastPressedKey);
      && c.Sel? && c.start == c.end
      && 0 < c.end <= |valueToSet|
      && ContentCount(valueToSet[..c.end]) == PureOffset(field.value, field.selectionStart.value)
      && !IsFormattingCharacter(valueToSet[c.end - 1])
  {
    var p := PureOffset(field.value, field.selectionStart.value);
    var e := Projected(valueToSet, p);
    ProjectedIsFirstPositionAfterContent(valueToSet, p);
    assert e != 0 by {
      assert valueToSet[..0] == [];
    }
    assert RunLength(valueToSet, e - 1, 1) == 0;
    PredictedCaretOf(field, valueToSet, lastPressedKey, e, 0);
  }

  /** Backspace with the caret in front of all content, when the new text starts
      with a formatting character, moves the caret to offset -1. */
  lemma BackspaceAtStartGoesNegative(field: TextField, valueToSet: string)
    requires field.selectionStart.Some?
    requires PureOffset(field.value, field.selectionStart.value) == 0
    requires valueToSet != [] && IsFormattingCharacter(valueToSet[0])
    ensures PredictedCaret(field, valueToSet, "Backspace") == Sel(-1, -1)
  {
    assert RunLength(valueToSet, -1, -1) == 0;
  }

  /** `setInputValue(inputRef, valueToSet, selectionStart, selectionEnd)` on platforms
      other than Android: the value is always written; a selection only when both of
      its ends are known, each clamped to the new length. */
  function SetInputValue(field: TextField, valueToSet: string, caret: Caret): (r: TextField)
    ensures r.value == valueToSet
    ensures caret.NoCaret? ==> r.selectionStart == field.selectionStart && r.selectionEnd == field.selectionEnd
    ensures caret.Sel? ==>
      && r.selectionStart.Some? && r.selectionStart.value <= |valueToSet|
      && r.selectionEnd.Some? && r.selectionEnd.value <= |valueToSet|
      && (caret.start <= |valueToSet| ==> r.selectionStart.value == caret.start)
      && (caret.start > |valueToSet| ==> r.selectionStart.value == |valueToSet|)
      && (caret.end <= |valueToSet| ==> r.selectionEnd.value == caret.end)
      && (caret.end > |valueToSet| ==> r.selectionEnd.value == |valueToSet|)
  {
    match caret
    case NoCaret => field.(value := valueToSet)
    case Sel(s, e) => TextField(valueToSet, Some(Min(|valueToSet|, s)), Some(Min(|valueToSet|, e)))
  }

  /** `setFormattingAndUpdateInput(elementRef, countryCode, ignoredPrefix, lastPressedKey)`:
      formats the field's text, predicts the caret and writes both back. */
  method SetFormattingAndUpdateInput(field: TextField, countryCode: Option<CountryCode>, ignoredPrefix: JsValue,
                                     lastPressedKey: string, format: Formatter)
    returns (updated: TextField, nextValue: PhoneValue)
    ensures nextValue == FormatPhoneNumber(field.value, countryCode, ignoredPrefix, format)
    ensures updated == SetInputValue(field, nextValue.numberFormatted,
                                     PredictedCaret(field, nextValue.numberFormatted, lastPressedKey))
    ensures updated.value == nextValue.numberFormatted
    ensures updated.selectionStart == updated.selectionEnd || field.selectionStart.None?
  {
    var originalValue := ConvertToString(Str(field.value));
    nextValue := FormatPhoneNumber(originalValue, countryCode, ignoredPrefix, format);
    var caret := PredictCursorPositionInValue(field, nextValue.numberFormatted, lastPressedKey);
    PredictedCaretCollapsed(field, nextValue.numberFormatted, lastPressedKey);
    updated := SetInputValue(field, nextValue.numberFormatted, caret);
  }
}

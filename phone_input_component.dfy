/**
 * ngx-infniswiswiss-components phone-input/phone-input.component.ts: the older
 * phone input, which formats the text itself and keeps the caret by walking the old
 * and the new text side by side (the alignment walk). Only the value handling is
 * modelled; the Angular plumbing is not. The component shares `clearInvalidCharacters`,
 * `isFormattingCharacter` and `getInputSelection` with the fill service (PhoneText).
 */
module PhoneInputComponent {
  import opened Wrappers
  import opened JsValues
  import opened PhoneText
  import PhoneFillService

  /** A character that is not inserted by the formatter. */
  predicate IsContentCharacter(c: char) {
    !IsFormattingCharacter(c)
  }

  /** The first index of `ch` in `t`, if any. */
  function FirstIndexOf(t: string, ch: char): (r: Option<nat>)
    ensures r.Some? ==> r.value < |t| && t[r.value] == ch && forall k :: 0 <= k < r.value ==> t[k] != ch
    ensures r.None? ==> forall k :: 0 <= k < |t| ==> t[k] != ch
  {
    if t == [] then None
    else if t[0] == ch then Some(0)
    else match FirstIndexOf(t[1..], ch)
      case None => None
      case Some(j) => Some(j + 1)
  }

  /** Greedy alignment of the text `w` in front of the old caret with the new text `t`:
      each character of `w` is matched with its next occurrence in `t`, characters
      with no such occurrence are skipped, and the result is the offset in `t` just
      after the last match. */
  function Align(w: string, t: string): (e: nat)
    ensures e <= |t|
    decreases |w|
  {
    if w == [] || t == [] then 0
    else match FirstIndexOf(t, w[0])
      case Some(j) => j + 1 + Align(w[1..], t[j + 1..])
      case None => Align(w[1..], t)
  }

  /** When the new text starts with the text in front of the caret (the two agree in
      lockstep), the caret stays where it was. */
  lemma {:induction false} AlignOfPrefix(w: string, t: string)
    requires |w| <= |t| && t[..|w|] == w
    ensures Align(w, t) == |w|
    decreases |w|
  {
    if w != [] {
      assert FirstIndexOf(t, w[0]) == Some(0);
      assert t[1..][..|w| - 1] == w[1..];
      AlignOfPrefix(w[1..], t[1..]);
    }
  }

  lemma {:induction false} KeepMember(s: string, keep: char -> bool, i: nat)
    requires i < |Keep(s, keep)|
    ensures exists k :: 0 <= k < |s| && s[k] == Keep(s, keep)[i]
    decreases |s|
  {
    if keep(s[0]) && i == 0 {
      assert s[0] == Keep(s, keep)[0];
    } else {
      var i' := if keep(s[0]) then i - 1 else i;
      assert Keep(s, keep)[i] == Keep(s[1..], keep)[i'];
      KeepMember(s[1..], keep, i');
      var k :| 0 <= k < |s[1..]| && s[1..][k] == Keep(s[1..], keep)[i'];
      assert s[k + 1] == Keep(s, keep)[i];
    }
  }

  /** When the formatter only inserted formatting characters into a text that had
      none (its content starts with the text in front of the caret), the alignment
      walk puts the caret just where the fill service's re-projection does: right
      after the same number of content characters. */
  lemma {:induction false} AlignAfterInsertedFormatting(w: string, t: string)
    requires !HasFormatting(w)
    requires |w| <= |Keep(t, IsContentCharacter)| && Keep(t, IsContentCharacter)[..|w|] == w
    ensures Align(w, t) == PhoneFillService.Projected(t, |w|)
    decreases |t|
  {
    if w != [] {
      var ch := w[0];
      assert !IsFormattingCharacter(ch);
      if IsFormattingCharacter(t[0]) {
        assert Keep(t, IsContentCharacter) == Keep(t[1..], IsContentCharacter);
        KeepMember(t[1..], IsContentCharacter, 0);
        var k :| 0 <= k < |t[1..]| && t[1..][k] == ch;
        assert FirstIndexOf(t[1..], ch).Some?;
        var j := FirstIndexOf(t[1..], ch).value;
        assert FirstIndexOf(t, ch) == Some(j + 1);
        assert t[j + 2..] == t[1..][j + 1..];
        AlignAfterInsertedFormatting(w, t[1..]);
      } else {
        assert Keep(t, IsContentCharacter) == [t[0]] + Keep(t[1..], IsContentCharacter);
        assert t[0] == ch;
        assert FirstIndexOf(t, ch) == Some(0);
        assert Keep(t[1..], IsContentCharacter)[..|w| - 1] == w[1..];
        assert !HasFormatting(w[1..]) by {
          forall i | 0 <= i < |w[1..]| ensures !IsFormattingCharacter(w[1..][i]) {
            assert w[1..][i] == w[i + 1];
          }
        }
        AlignAfterInsertedFormatting(w[1..], t[1..]);
      }
    }
  }

  /** The caret offset the component reads: `getInputSelection()` takes it from
      `selectionStart`, and `Math.min`/`Math.max` turn a missing (null) offset into 0. */
  function SelectionOffset(field: TextField): int {
    match GetInputSelection(field)
    case NoCaret => 0
    case Sel(s, _) => s
  }

  /** The caret `resetInputFormatting` computes: `c` minus the formatting characters
      at every index `i <= c` (an inclusive comparison). */
  function ResetCaret(currentInputValue: string, c: int): int {
    c - FormattingCount(currentInputValue[..Clamp(c + 1, |currentInputValue|)])
  }

  /** Because of the inclusive comparison, a formatting character right at the caret
      is counted too: the reset caret is one to the left of the caret's content
      offset exactly then, and equal to it otherwise. */
  lemma ResetCaretCountsCharacterAtCaret(currentInputValue: string, c: nat)
    requires c <= |currentInputValue|
    ensures ResetCaret(currentInputValue, c) ==
      PhoneFillService.PureOffset(currentInputValue, c)
      - (if c < |currentInputValue| && IsFormattingCharacter(currentInputValue[c]) then 1 else 0)
  {
    if c < |currentInputValue| {
      FormattingCountStep(currentInputValue, c);
    }
  }

  /** A text starting with a formatting character, caret at the start: the reset
      caret is -1. */
  lemma ResetCaretAtLeadingFormatting(currentInputValue: string)
    requires currentInputValue != [] && IsFormattingCharacter(currentInputValue[0])
    ensures ResetCaret(currentInputValue, 0) == -1
  {
    ResetCaretCountsCharacterAtCaret(currentInputValue, 0);
  }

  /** No index of `v` in `[from, to)` holds `ch`. */
  predicate Absent(v: string, from: int, to: int, ch: Option<char>) {
    forall k :: from <= k < to ==> CharAt(v, k) != ch
  }

  /** One step of the walk: the character at `ii` is next found at `j` of the new text. */
  lemma AlignStepFound(cur: string, v: string, c: int, ii: nat, vi: nat, j: nat)
    requires ii < c <= |cur| && vi <= j
    requires CharAt(v, j) == Some(cur[ii])
    requires Absent(v, vi, j, Some(cur[ii]))
    ensures Align(cur[ii..c], v[vi..]) == (j - vi) + 1 + Align(cur[ii + 1..c], v[j + 1..])
  {
    var w, t := cur[ii..c], v[vi..];
    assert w[0] == cur[ii] && w[1..] == cur[ii + 1..c];
    forall k | 0 <= k < j - vi ensures t[k] != w[0] {
      assert CharAt(v, vi + k) != Some(cur[ii]);
    }
    assert FirstIndexOf(t, w[0]) == Some(j - vi);
    assert t[j - vi + 1..] == v[j + 1..];
  }

  /** One step of the walk: the character at `ii` does not occur in the rest of the new text. */
  lemma AlignStepMissing(cur: string, v: string, c: int, ii: nat, vi: nat)
    requires ii < c <= |cur| && vi <= |v|
    requires Absent(v, vi, |v|, Some(cur[ii]))
    ensures Align(cur[ii..c], v[vi..]) == Align(cur[ii + 1..c], v[vi..])
  {
    var w, t := cur[ii..c], v[vi..];
    assert w[0] == cur[ii] && w[1..] == cur[ii + 1..c];
    forall k | 0 <= k < |t| ensures t[k] != w[0] {
      assert CharAt(v, vi + k) != Some(cur[ii]);
    }
    assert FirstIndexOf(t, w[0]) == None;
  }

  /** The state of the alignment walk after `ii` characters of the old text in front
      of the caret `c`: `vi` characters of the new text are used up, and the caret
      `s` is on track to end at the alignment. */
  ghost predicate Walking(cur: string, v: string, c: int, ii: nat, vi: nat, s: int) {
    && ii <= c <= |cur| && vi <= |v|
    && Align(cur[..c], v) == vi + Align(cur[ii..c], v[vi..])
    && (vi < |v| ==> s == c + vi - ii)
    && (vi == |v| ==> s >= |v|)
  }

  lemma WalkStart(cur: string, v: string, c: int)
    requires 0 <= c <= |cur|
    ensures Walking(cur, v, c, 0, 0, c)
  {
    assert cur[0..c] == cur[..c] && v[0..] == v;
  }

  /** While the new text is not used up, the caret is at or after the walk's
      position in it, and the old text's character is in range. */
  lemma WalkAhead(cur: string, v: string, c: int, ii: nat, vi: nat, s: int)
    requires Walking(cur, v, c, ii, vi, s) && ii < c
    ensures vi < |v| ==> s >= vi
    ensures CharAt(cur, ii) == Some(cur[ii])
  {
  }

  /** The character at `ii` is next found at `j`: both texts advance, and the caret
      moves right by the characters skipped in the new text. */
  lemma WalkFound(cur: string, v: string, c: int, ii: nat, vi: nat, j: nat, s: int, s': int)
    requires Walking(cur, v, c, ii, vi, s) && ii < c && vi <= j < |v|
    requires CharAt(v, j) == Some(cur[ii])
    requires Absent(v, vi, j, Some(cur[ii]))
    requires s' == s + (j - vi)
    ensures Walking(cur, v, c, ii + 1, j + 1, s')
  {
    AlignStepFound(cur, v, c, ii, vi, j);
    assert v[vi..][j - vi + 1..] == v[j + 1..];
  }

  /** The character at `ii` is not in the rest of the new text: the caret moves left. */
  lemma WalkMissing(cur: string, v: string, c: int, ii: nat, vi: nat, s: int)
    requires Walking(cur, v, c, ii, vi, s) && ii < c && vi < |v|
    requires Absent(v, vi, |v|, Some(cur[ii]))
    ensures Walking(cur, v, c, ii + 1, vi, s - 1)
  {
    AlignStepMissing(cur, v, c, ii, vi);
  }

  /** The new text is used up: only the old text advances. */
  lemma WalkExhausted(cur: string, v: string, c: int, ii: nat, vi: nat, s: int)
    requires Walking(cur, v, c, ii, vi, s) && ii < c && vi == |v|
    ensures Walking(cur, v, c, ii + 1, vi, s)
  {
    assert v[vi..] == [];
  }

  /** At the end of the walk the caret, clamped to the new text, is the alignment. */
  lemma WalkDone(cur: string, v: string, c: nat, vi: nat, s: int)
    requires Walking(cur, v, c, c, vi, s)
    ensures PhoneFillService.Min(|v|, s) == Align(cur[..c], v)
  {
    assert cur[c..c] == [];
  }

  /** The model of the phone input: its value, the native text field and the inputs. */
  class PhoneInput {
    var value: PhoneValue
    var input: TextField
    var countryCode: Option<CountryCode>
    /** libphonenumber's `formatIncompletePhoneNumber`, which this model does not see. */
    const format: Formatter

    constructor(format: Formatter, input: TextField, countryCode: Option<CountryCode>)
      ensures value == PhoneValue("", "")
      ensures this.input == input && this.countryCode == countryCode && this.format == format
    {
      this.format := format;
      this.value := PhoneValue("", "");
      this.input := input;
      this.countryCode := countryCode;
    }

    /** The `value` setter: only a string that differs from the current number is
        taken; it becomes the number and its formatting the displayed text.
        `formatPhoneNumber(value)` is the formatter asked with the current country code. */
    method SetValue(data: JsValue) returns (thrown: bool)
      modifies this
      ensures input == old(input) && countryCode == old(countryCode)
      ensures thrown <==> data.Str? && data.s != old(value.number) && format(data.s, countryCode).None?
      ensures !(data.Str? && data.s != old(value.number)) || thrown ==> value == old(value)
      ensures data.Str? && data.s != old(value.number) && !thrown ==>
        value == PhoneValue(data.s, format(data.s, countryCode).value)
    {
      thrown := false;
      if data.Str? && data.s != value.number {
        var formatted := format(data.s, countryCode);
        if formatted.None? {
          thrown := true;
          return;
        }
        value := PhoneValue(data.s, formatted.value);
      }
    }

    /** `setInputValue(valueToSet, selectionStart, selectionEnd)`: writes the text and
        a selection clamped to its length. */
    method SetInputValue(valueToSet: string, selectionStart: int, selectionEnd: int)
      modifies this
      ensures value == old(value) && countryCode == old(countryCode)
      ensures input == TextField(valueToSet, Some(PhoneFillService.Min(|valueToSet|, selectionStart)),
                                 Some(PhoneFillService.Min(|valueToSet|, selectionEnd)))
      ensures input.selectionStart.value <= |valueToSet| && input.selectionEnd.value <= |valueToSet|
      ensures selectionStart <= |valueToSet| ==> input.selectionStart == Some(selectionStart)
    {
      var s := PhoneFillService.Min(|valueToSet|, selectionStart);
      var e := PhoneFillService.Min(|valueToSet|, selectionEnd);
      input := TextField(valueToSet, Some(s), Some(e));
    }

    /** `resetInputFormatting(currentInputValue)`: writes the number without
        formatting, moving the caret left past the formatting characters in front
        of it and at it. */
    method ResetInputFormatting(currentInputValue: string)
      modifies this
      ensures value == old(value) && countryCode == old(countryCode)
      ensures var r := ResetCaret(currentInputValue, SelectionOffset(old(input)));
        input == TextField(value.number, Some(PhoneFillService.Min(|value.number|, r)),
                           Some(PhoneFillService.Min(|value.number|, r)))
    {
      var selectionStart := SelectionOffset(input);
      var selectionEnd := selectionStart;
      var initialSelectionStart := selectionStart;
      var initialSelectionEnd := selectionEnd;
      for i := 0 to |currentInputValue|
        invariant value == old(value) && countryCode == old(countryCode)
        invariant selectionStart == selectionEnd
        invariant selectionStart == initialSelectionStart
          - FormattingCount(currentInputValue[..Clamp(initialSelectionStart + 1, i)])
      {
        FormattingCountStep(currentInputValue, Clamp(initialSelectionStart + 1, i));
        assert currentInputValue[..Clamp(initialSelectionStart + 1, i + 1)]
            == (if 0 <= i <= initialSelectionStart then currentInputValue[..Clamp(initialSelectionStart + 1, i) + 1]
                else currentInputValue[..Clamp(initialSelectionStart + 1, i)]);
        var isFormattingChar := IsFormattingCharacter(currentInputValue[i]);
        if isFormattingChar && initialSelectionStart >= i {
          selectionStart := selectionStart - 1;
          selectionEnd := selectionEnd - 1;
        } else if isFormattingChar && initialSelectionEnd >= i {
          selectionEnd := selectionEnd - 1;
        }
      }
      SetInputValue(value.number, selectionStart, selectionEnd);
    }

    /** `setValueAndRememberCursorPosition(inputCurrentValue, valueToSet)`: writes the
        new text and puts the caret at the greedy alignment of the old text in front
        of the caret with the new text. */
    method SetValueAndRememberCursorPosition(inputCurrentValue: string, valueToSet: string)
      modifies this
      ensures value == old(value) && countryCode == old(countryCode)
      ensures input.value == valueToSet && input.selectionStart == input.selectionEnd
      ensures input.selectionStart.Some? && input.selectionStart.value <= |valueToSet|
      ensures var c := SelectionOffset(old(input));
        0 <= c <= |inputCurrentValue| ==> input.selectionStart == Some(Align(inputCurrentValue[..c], valueToSet))
      ensures var c := SelectionOffset(old(input));
        c <= 0 ==> input.selectionStart == Some(PhoneFillService.Min(|valueToSet|, c))
    {
      var selectionStart := SelectionOffset(input);
      var selectionEnd := WalkCaret(inputCurrentValue, valueToSet, selectionStart);
      SetInputValue(valueToSet, selectionEnd, selectionEnd);
    }

    /** The loop of `setValueAndRememberCursorPosition` from the caret `c` (both ends
        move together): the old text in front of the caret is walked against the new
        text, and the caret ends, once clamped to the new text, at their alignment. */
    static method WalkCaret(inputCurrentValue: string, valueToSet: string, c: int) returns (selectionStart: int)
      ensures 0 <= c <= |inputCurrentValue| ==>
        PhoneFillService.Min(|valueToSet|, selectionStart) == Align(inputCurrentValue[..c], valueToSet)
      ensures c <= 0 ==> selectionStart == c
    {
      selectionStart := c;
      var selectionEnd := c;
      var initialSelectionEnd := c;
      ghost var inRange := 0 <= c <= |inputCurrentValue|;
      if inRange {
        WalkStart(inputCurrentValue, valueToSet, c);
      }
      var inputIndex := 0;
      var valueToSetIndex := 0;
      while inputIndex < initialSelectionEnd
        invariant selectionStart == selectionEnd
        invariant 0 <= inputIndex && (c > 0 ==> inputIndex <= c)
        invariant c <= 0 ==> inputIndex == 0 && selectionStart == c
        invariant inRange ==> Walking(inputCurrentValue, valueToSet, c, inputIndex, valueToSetIndex, selectionStart)
        decreases initialSelectionEnd - inputIndex
      {
        valueToSetIndex, selectionStart, selectionEnd := WalkOneCharacter(
          inputCurrentValue, valueToSet, inputIndex, valueToSetIndex, selectionStart, selectionEnd, c, inRange);
        inputIndex := inputIndex + 1;
      }
      if inRange {
        WalkDone(inputCurrentValue, valueToSet, c, valueToSetIndex, selectionStart);
      }
    }

    /** One round of that loop: the character at `inputIndex` of the old text is
        looked for in the new text from `valueToSetIndex` on. */
    static method WalkOneCharacter(inputCurrentValue: string, valueToSet: string, inputIndex: nat,
                                   valueToSetIndex: nat, selectionStart: int, selectionEnd: int,
                                   ghost c: int, ghost inRange: bool)
      returns (nextIndex: nat, nextStart: int, nextEnd: int)
      requires inRange ==> (0 <= c <= |inputCurrentValue| && inputIndex < c
        && Walking(inputCurrentValue, valueToSet, c, inputIndex, valueToSetIndex, selectionStart))
      ensures selectionStart == selectionEnd ==> nextStart == nextEnd
      ensures inRange ==> Walking(inputCurrentValue, valueToSet, c, inputIndex + 1, nextIndex, nextStart)
    {
      if inRange {
        WalkAhead(inputCurrentValue, valueToSet, c, inputIndex, valueToSetIndex, selectionStart);
      }
      nextIndex, nextStart, nextEnd := valueToSetIndex, selectionStart, selectionEnd;
      var charToCheck := CharAt(inputCurrentValue, inputIndex);
      var shouldUpdateSelectionIndexes := charToCheck != CharAt(valueToSet, valueToSetIndex);
      if !shouldUpdateSelectionIndexes {
        if inRange {
          WalkFound(inputCurrentValue, valueToSet, c, inputIndex, valueToSetIndex, valueToSetIndex,
                    selectionStart, selectionStart);
        }
        nextIndex := valueToSetIndex + 1;
      } else if valueToSetIndex < |valueToSet| {
        var j, possibleNextStart, possibleNextEnd :=
          SearchForward(valueToSet, valueToSetIndex, charToCheck, selectionStart, selectionEnd);
        if CharAt(valueToSet, j) == charToCheck {
          if inRange {
            WalkFound(inputCurrentValue, valueToSet, c, inputIndex, valueToSetIndex, j,
                      selectionStart, possibleNextStart);
          }
          nextStart := possibleNextStart;
          nextEnd := possibleNextEnd;
          nextIndex := j + 1;
        } else {
          if inRange {
            WalkMissing(inputCurrentValue, valueToSet, c, inputIndex, valueToSetIndex, selectionStart);
          }
          nextStart := selectionStart - 1;
          nextEnd := selectionEnd - 1;
        }
      } else if inRange {
        WalkExhausted(inputCurrentValue, valueToSet, c, inputIndex, valueToSetIndex, selectionStart);
      }
    }

    /** The inner search of `setValueAndRememberCursorPosition`: walks forward from
        `from` to the next occurrence of `ch` (or the end), moving each caret end
        one place right for every skipped character at or before it. */
    static method SearchForward(valueToSet: string, from: nat, ch: Option<char>, start: int, end: int)
      returns (j: nat, nextStart: int, nextEnd: int)
      requires from <= |valueToSet|
      ensures from <= j <= |valueToSet|
      ensures Absent(valueToSet, from, j, ch)
      ensures j < |valueToSet| ==> CharAt(valueToSet, j) == ch
      ensures start >= from ==> nextStart == start + (j - from)
      ensures start == end ==> nextStart == nextEnd
    {
      j := from;
      nextStart := start;
      nextEnd := end;
      while j < |valueToSet| && CharAt(valueToSet, j) != ch
        invariant from <= j <= |valueToSet|
        invariant start == end ==> nextStart == nextEnd
        invariant forall k :: from <= k < j ==> CharAt(valueToSet, k) != ch
        invariant start >= from ==> nextStart == start + (j - from)
      {
        if j <= nextStart {
          nextStart := nextStart + 1;
        }
        if j <= nextEnd {
          nextEnd := nextEnd + 1;
        }
        j := j + 1;
      }
    }

    /** `tryToFillWithFormattedValue()`: cleans the field's text into the number,
        formats it, and writes the display text back through one of the two caret
        paths. Returns whether the formatter threw (after the number was set). */
    method TryToFillWithFormattedValue() returns (thrown: bool)
      modifies this
      ensures countryCode == old(countryCode)
      ensures var cur := old(input.value);
        value.number == ClearInvalidCharacters(cur)
        && (thrown <==> format(value.number, countryCode).None?)
      // a throwing formatter leaves the display text and the field as they were
      ensures thrown ==> value.numberFormatted == old(value.numberFormatted) && input == old(input)
      // '#' or '*' in the text: the cleaned number is displayed, caret kept by alignment
      ensures var cur := old(input.value); var c := SelectionOffset(old(input));
        !thrown && HasDialSymbol(cur) ==>
          && value.numberFormatted == value.number
          && input.value == value.number
          && input.selectionEnd == input.selectionStart
          && (0 <= c <= |cur| ==> input.selectionStart == Some(Align(cur[..c], value.number)))
      // the formatter dropped all formatting of a formatted text: the number, caret reset
      ensures var cur := old(input.value); var c := SelectionOffset(old(input));
        !thrown && !HasDialSymbol(cur) && !HasFormatting(value.numberFormatted) && HasFormatting(cur) ==>
          && value.numberFormatted == format(value.number, countryCode).value
          && var r := ResetCaret(cur, c);
             input == TextField(value.number, Some(PhoneFillService.Min(|value.number|, r)),
                                Some(PhoneFillService.Min(|value.number|, r)))
      // otherwise the formatted text is displayed, caret kept by alignment
      ensures var cur := old(input.value); var c := SelectionOffset(old(input));
        !thrown && !HasDialSymbol(cur) && !(!HasFormatting(value.numberFormatted) && HasFormatting(cur)) ==>
          && value.numberFormatted == format(value.number, countryCode).value
          && input.value == value.numberFormatted
          && input.selectionEnd == input.selectionStart
          && (0 <= c <= |cur| ==> input.selectionStart == Some(Align(cur[..c], value.numberFormatted)))
    {
      var currentInputValue := input.value;
      value := value.(number := ClearInvalidCharacters(currentInputValue));
      var formatted := format(value.number, countryCode);
      if formatted.None? {
        return true;
      }
      thrown := false;
      value := value.(numberFormatted := formatted.value);
      var hasAllowedCharactersButInvalidForFormatting := HasDialSymbol(currentInputValue);
      if hasAllowedCharactersButInvalidForFormatting {
        value := value.(numberFormatted := value.number);
        SetValueAndRememberCursorPosition(currentInputValue, value.numberFormatted);
        return;
      }
      var wasNumberFormatted := HasFormatting(value.numberFormatted);
      var inputContainsFormatting := HasFormatting(currentInputValue);
      if !wasNumberFormatted && inputContainsFormatting {
        ResetInputFormatting(currentInputValue);
        return;
      }
      SetValueAndRememberCursorPosition(currentInputValue, value.numberFormatted);
    }
  }

  /** An unchanged text in front of the caret keeps the caret where it was. */
  lemma AlignKeepsUnchangedCaret(inputCurrentValue: string, valueToSet: string, c: nat)
    requires c <= |inputCurrentValue| && c <= |valueToSet|
    requires valueToSet[..c] == inputCurrentValue[..c]
    ensures Align(inputCurrentValue[..c], valueToSet) == c
  {
    AlignOfPrefix(inputCurrentValue[..c], valueToSet);
  }
}

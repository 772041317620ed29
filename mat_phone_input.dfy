/**
 * ngx-mat-components phone-input/phone-input.component.ts: the earliest phone input.
 * It cleans the field's text, formats it, and decides by comparing texts position by
 * position from the end (`diffStrings`) whether the field must be rewritten.
 */
module MatPhoneInput {
  import opened Wrappers
  import opened PhoneText

  /** The characters `/\+|\*|\#|\d+/g` matches. */
  predicate IsPhoneChar(c: char) {
    c == '+' || c == '*' || c == '#' || IsDigit(c)
  }

  /** The characters `/\+|\*|\#|-|\(|\)| |\d+/g` matches: phone characters and the
      formatting characters. */
  predicate IsPhoneOrFormattingChar(c: char) {
    IsPhoneChar(c) || IsFormattingCharacter(c)
  }

  /** `leveOnlyPhoneChars(value)`: every `+`, `*`, `#` and digit, in order, wherever it
      stands. */
  function LeaveOnlyPhoneChars(value: string): (r: string)
    ensures |r| <= |value|
    ensures forall i :: 0 <= i < |r| ==> IsPhoneChar(r[i])
  {
    Keep(value, IsPhoneChar)
  }

  /** The cleaning works character by character: it distributes over concatenation,
      and a single character is kept exactly when it is a phone character. */
  lemma LeaveOnlyPhoneCharsPointwise(a: string, b: string, c: char)
    ensures LeaveOnlyPhoneChars(a + b) == LeaveOnlyPhoneChars(a) + LeaveOnlyPhoneChars(b)
    ensures LeaveOnlyPhoneChars([c]) == if IsPhoneChar(c) then [c] else []
  {
    KeepConcat(a, b, IsPhoneChar);
    assert [c][1..] == [];
  }

  /** Unlike `clearInvalidCharacters` of the other two phone inputs, a `+` is kept at
      any position, not only in front. */
  lemma PlusKeptAfterFront(s: string)
    requires s != [] && s[0] != '+'
    ensures var r := LeaveOnlyPhoneChars(s + "+"); r != [] && r[|r| - 1] == '+'
    ensures '+' !in ClearInvalidCharacters(s + "+")
  {
    LeaveOnlyPhoneCharsPointwise(s, "+", '+');
  }

  /** Cleaning twice is cleaning once, and a text of phone characters only is kept
      as it is. */
  lemma LeaveOnlyPhoneCharsIdempotent(value: string)
    ensures LeaveOnlyPhoneChars(LeaveOnlyPhoneChars(value)) == LeaveOnlyPhoneChars(value)
    ensures (forall i :: 0 <= i < |value| ==> IsPhoneChar(value[i])) ==> LeaveOnlyPhoneChars(value) == value
  {
    KeepIdempotent(value, IsPhoneChar);
    if forall i :: 0 <= i < |value| ==> IsPhoneChar(value[i]) {
      KeepAll(value, IsPhoneChar);
    }
  }

  /** `removeExtraCharacters(value)`: the phone and formatting characters, in order,
      trimmed. */
  function RemoveExtraCharacters(value: string): string {
    Trim(Keep(value, IsPhoneOrFormattingChar))
  }

  /** The cleaned text holds only phone and formatting characters and neither starts
      nor ends with a space; it is all of the value's phone and formatting characters,
      in order, with only the spaces in front and behind cut off. */
  lemma RemoveExtraCharactersShape(value: string)
    ensures var r := RemoveExtraCharacters(value);
      && (forall i :: 0 <= i < |r| ==> IsPhoneOrFormattingChar(r[i]))
      && (r != [] ==> r[0] != ' ' && r[|r| - 1] != ' ')
      // k is the number of characters cut off in front
      && var kept := Keep(value, IsPhoneOrFormattingChar);
         var k := |kept| - |TrimStart(kept)|;
         && 0 <= k <= |kept| - |r|
         && kept[k..k + |r|] == r
         && (forall i :: 0 <= i < k ==> kept[i] == ' ')
         && (forall i :: k + |r| <= i < |kept| ==> kept[i] == ' ')
  {
    TrimKeepsPhoneText(Keep(value, IsPhoneOrFormattingChar));
    TrimCutsOnlySpaces(Keep(value, IsPhoneOrFormattingChar));
  }

  /** Trimming a text of phone and formatting characters keeps such characters only
      and leaves neither a leading nor a trailing space. */
  lemma TrimKeepsPhoneText(s: string)
    requires forall i :: 0 <= i < |s| ==> IsPhoneOrFormattingChar(s[i])
    ensures var r := Trim(s);
      && (forall i :: 0 <= i < |r| ==> IsPhoneOrFormattingChar(r[i]))
      && (r != [] ==> r[0] != ' ' && r[|r| - 1] != ' ')
  {
    var r := Trim(s);
    var k := |s| - |TrimStart(s)|;
    TrimShape(s);
    forall i | 0 <= i < |r| ensures IsPhoneOrFormattingChar(r[i]) {
      assert r[i] == s[k + i];
    }
  }

  /** Trimming a text of phone and formatting characters cuts off only spaces: the
      result stands at offset `k` of the text, with spaces only around it. */
  lemma TrimCutsOnlySpaces(s: string)
    requires forall i :: 0 <= i < |s| ==> IsPhoneOrFormattingChar(s[i])
    ensures var r := Trim(s); var k := |s| - |TrimStart(s)|;
      && 0 <= k <= |s| - |r|
      && s[k..k + |r|] == r
      && (forall i :: 0 <= i < k ==> s[i] == ' ')
      && (forall i :: k + |r| <= i < |s| ==> s[i] == ' ')
  {
    var r := Trim(s);
    var k := |s| - |TrimStart(s)|;
    TrimShape(s);
    forall i | 0 <= i < k ensures s[i] == ' ' {
      SpaceIsOnlyKeptWhitespace(s[i]);
    }
    forall i | k + |r| <= i < |s| ensures s[i] == ' ' {
      SpaceIsOnlyKeptWhitespace(s[i]);
    }
  }

  /** Among the phone and formatting characters the only whitespace is the space. */
  lemma SpaceIsOnlyKeptWhitespace(c: char)
    requires IsPhoneOrFormattingChar(c) && IsJsWhitespace(c)
    ensures c == ' '
  {
  }

  /** The result of `diffStrings`: the differing characters of each side, collected
      from the highest index down, and whether only formatting characters differ. */
  datatype DiffResult = DiffResult(leftDifferentChars: string, rightDifferentChars: string,
                                   onlyFormattingCharactersFound: bool)

  predicate IsFormattingAt(s: string, i: int) {
    0 <= i < |s| && IsFormattingCharacter(s[i])
  }

  /** Position `i` differs (a missing character differs from any present one). */
  predicate DiffersAt(left: string, right: string, i: int) {
    CharAt(left, i) != CharAt(right, i)
  }

  /** Position `i` differs in a way that involves a non-formatting character. */
  predicate BadAt(left: string, right: string, i: int) {
    && DiffersAt(left, right, i)
    && ((0 <= i < |left| && !IsFormattingCharacter(left[i])) || (0 <= i < |right| && !IsFormattingCharacter(right[i])))
  }

  /** The highest position below `hi` that differs in a non-formatting character. */
  function LastBad(left: string, right: string, hi: int): (r: Option<nat>)
    ensures r.Some? ==> (r.value < hi && BadAt(left, right, r.value)
      && forall k :: r.value < k < hi ==> !BadAt(left, right, k))
    ensures r.None? ==> forall k :: 0 <= k < hi ==> !BadAt(left, right, k)
    decreases hi
  {
    if hi <= 0 then None
    else if BadAt(left, right, hi - 1) then Some(hi - 1)
    else LastBad(left, right, hi - 1)
  }

  /** The characters of `s` (one side of the comparison) at the differing positions
      in `[lo, hi)`, from the highest position down. */
  function DiffChars(left: string, right: string, s: string, lo: int, hi: int): (r: string)
    ensures |r| <= if hi <= lo then 0 else hi - lo
    decreases hi - lo
  {
    if hi <= lo then []
    else
      DiffChars(left, right, s, lo + 1, hi) + (if DiffersAt(left, right, lo) && 0 <= lo < |s| then [s[lo]] else [])
  }

  /** Where no position of `[lo, hi)` differs in a non-formatting character, the
      characters collected from either side are all formatting characters. */
  lemma {:induction false} DiffCharsAreFormatting(left: string, right: string, s: string, lo: int, hi: int)
    requires s == left || s == right
    requires forall k :: lo <= k < hi ==> !BadAt(left, right, k)
    ensures forall j :: 0 <= j < |DiffChars(left, right, s, lo, hi)| ==>
      IsFormattingCharacter(DiffChars(left, right, s, lo, hi)[j])
    decreases hi - lo
  {
    if lo < hi {
      DiffCharsAreFormatting(left, right, s, lo + 1, hi);
      assert !BadAt(left, right, lo);
      var rest := DiffChars(left, right, s, lo + 1, hi);
      var here := if DiffersAt(left, right, lo) && 0 <= lo < |s| then [s[lo]] else [];
      assert DiffChars(left, right, s, lo, hi) == rest + here;
      forall j | 0 <= j < |rest + here| ensures IsFormattingCharacter((rest + here)[j]) {
        if j < |rest| {
          assert (rest + here)[j] == rest[j];
        } else {
          assert DiffersAt(left, right, lo) && 0 <= lo < |s| && (rest + here)[j] == s[lo];
          assert !BadAt(left, right, lo);
        }
      }
    }
  }

  /** `diffStrings(leftValue, rightValue)`, stated by what it finds: the scan from the
      top stops at the highest position that differs in a non-formatting character,
      and the differing characters above it are collected. */
  function Diff(left: string, right: string): DiffResult {
    var maxLength := if |left| < |right| then |right| else |left|;
    match LastBad(left, right, maxLength)
    case None =>
      DiffResult(DiffChars(left, right, left, 0, maxLength), DiffChars(left, right, right, 0, maxLength), true)
    case Some(b) =>
      DiffResult(DiffChars(left, right, left, b + 1, maxLength), DiffChars(left, right, right, b + 1, maxLength), false)
  }

  /** `diffStrings(leftValue, rightValue)`: the descending scan with early return. */
  method DiffStrings(leftValue: string, rightValue: string) returns (res: DiffResult)
    ensures res == Diff(leftValue, rightValue)
  {
    var leftDifferentChars := "";
    var rightDifferentChars := "";
    var maxLength := if |leftValue| < |rightValue| then |rightValue| else |leftValue|;
    var i := maxLength - 1;
    while i >= 0
      invariant -1 <= i < maxLength
      invariant forall k :: i < k < maxLength ==> !BadAt(leftValue, rightValue, k)
      invariant leftDifferentChars == DiffChars(leftValue, rightValue, leftValue, i + 1, maxLength)
      invariant rightDifferentChars == DiffChars(leftValue, rightValue, rightValue, i + 1, maxLength)
    {
      if i >= |leftValue| {
        if !IsFormattingCharacter(rightValue[i]) {
          assert BadAt(leftValue, rightValue, i);
          return DiffResult(leftDifferentChars, rightDifferentChars, false);
        }
        rightDifferentChars := rightDifferentChars + [rightValue[i]];
      } else if i >= |rightValue| {
        if !IsFormattingCharacter(leftValue[i]) {
          assert BadAt(leftValue, rightValue, i);
          return DiffResult(leftDifferentChars, rightDifferentChars, false);
        }
        leftDifferentChars := leftDifferentChars + [leftValue[i]];
      } else if leftValue[i] != rightValue[i] {
        if !IsFormattingCharacter(leftValue[i]) || !IsFormattingCharacter(rightValue[i]) {
          assert BadAt(leftValue, rightValue, i);
          return DiffResult(leftDifferentChars, rightDifferentChars, false);
        }
        rightDifferentChars := rightDifferentChars + [rightValue[i]];
        leftDifferentChars := leftDifferentChars + [leftValue[i]];
      }
      i := i - 1;
    }
    return DiffResult(leftDifferentChars, rightDifferentChars, true);
  }

  /** The comparison finds only formatting differences exactly when no position
      differs in a non-formatting character; then every collected character is a
      formatting character. */
  lemma DiffOnlyFormatting(left: string, right: string)
    ensures var maxLength := if |left| < |right| then |right| else |left|;
      Diff(left, right).onlyFormattingCharactersFound <==> forall k :: 0 <= k < maxLength ==> !BadAt(left, right, k)
    ensures Diff(left, right).onlyFormattingCharactersFound ==>
      && (forall j :: 0 <= j < |Diff(left, right).leftDifferentChars| ==>
            IsFormattingCharacter(Diff(left, right).leftDifferentChars[j]))
      && (forall j :: 0 <= j < |Diff(left, right).rightDifferentChars| ==>
            IsFormattingCharacter(Diff(left, right).rightDifferentChars[j]))
  {
    var maxLength := if |left| < |right| then |right| else |left|;
    if Diff(left, right).onlyFormattingCharactersFound {
      assert LastBad(left, right, maxLength).None?;
      DiffCharsAreFormatting(left, right, left, 0, maxLength);
      DiffCharsAreFormatting(left, right, right, 0, maxLength);
    }
  }

  lemma {:induction false} DiffCharsOfEqual(s: string, t: string, lo: int, hi: int)
    ensures DiffChars(s, s, t, lo, hi) == []
    decreases hi - lo
  {
    if lo < hi {
      DiffCharsOfEqual(s, t, lo + 1, hi);
    }
  }

  /** A text compared with itself: only formatting differences, and none at all. */
  lemma DiffOfEqual(s: string)
    ensures Diff(s, s) == DiffResult("", "", true)
  {
    DiffCharsOfEqual(s, s, 0, |s|);
  }

  /** `isFormattedValueDifferent(possibleValueInsideInput, numberFormatted)`. */
  predicate IsFormattedValueDifferent(possibleValueInsideInput: string, numberFormatted: string) {
    var response := Diff(possibleValueInsideInput, numberFormatted);
    if !response.onlyFormattingCharactersFound then true
    else if |response.leftDifferentChars| == 0 && |response.rightDifferentChars| == 0 then false
    else if |response.rightDifferentChars| == 1 && IsFormattingCharacter(response.rightDifferentChars[0]) then false
    else true
  }

  /** The decision, stated by the positions: a difference in a non-formatting
      character always counts; among formatting-only differences, the texts count as
      different unless the right side has exactly one differing character, or no
      position differs at all. */
  lemma IsFormattedValueDifferentIff(left: string, right: string)
    ensures var maxLength := if |left| < |right| then |right| else |left|;
      var d := Diff(left, right);
      IsFormattedValueDifferent(left, right) <==>
        || (exists k :: 0 <= k < maxLength && BadAt(left, right, k))
        || (|d.rightDifferentChars| != 1 && (d.leftDifferentChars != [] || d.rightDifferentChars != []))
  {
    DiffOnlyFormatting(left, right);
  }

  /** Comparing a text with itself never asks for a rewrite. */
  lemma SameTextIsNotDifferent(s: string)
    ensures !IsFormattedValueDifferent(s, s)
  {
    DiffOfEqual(s);
  }

  /** The text the field is rewritten with after an input event, or None when it is
      left alone: the formatted text when it differs from the cleaned text, else the
      cleaned text when it differs from the raw text. */
  function RewriteText(raw: string, possibleValueInsideInput: string, numberFormatted: string): (r: Option<string>)
    ensures r.Some? ==> r.value == numberFormatted || r.value == possibleValueInsideInput
    ensures IsFormattedValueDifferent(possibleValueInsideInput, numberFormatted) ==> r == Some(numberFormatted)
    ensures (!IsFormattedValueDifferent(possibleValueInsideInput, numberFormatted)
      && IsFormattedValueDifferent(raw, possibleValueInsideInput)) ==> r == Some(possibleValueInsideInput)
    ensures r.None? <==> !IsFormattedValueDifferent(possibleValueInsideInput, numberFormatted)
                         && !IsFormattedValueDifferent(raw, possibleValueInsideInput)
  {
    if IsFormattedValueDifferent(possibleValueInsideInput, numberFormatted) then Some(numberFormatted)
    else if IsFormattedValueDifferent(raw, possibleValueInsideInput) then Some(possibleValueInsideInput)
    else None
  }

  /** A raw text that is already clean and that the formatter returns unchanged is
      left alone. */
  lemma CleanFormattedTextIsLeftAlone(raw: string)
    requires RemoveExtraCharacters(raw) == raw
    ensures RewriteText(raw, RemoveExtraCharacters(raw), raw) == None
  {
    SameTextIsNotDifferent(raw);
  }

  /** The field's text after an input event: rewritten as `RewriteText` decides. */
  function NextInputText(raw: string, possibleValueInsideInput: string, numberFormatted: string): (r: string)
    ensures IsFormattedValueDifferent(possibleValueInsideInput, numberFormatted) ==> r == numberFormatted
    ensures (!IsFormattedValueDifferent(possibleValueInsideInput, numberFormatted)
      && IsFormattedValueDifferent(raw, possibleValueInsideInput)) ==> r == possibleValueInsideInput
    ensures (!IsFormattedValueDifferent(possibleValueInsideInput, numberFormatted)
      && !IsFormattedValueDifferent(raw, possibleValueInsideInput)) ==> r == raw
  {
    match RewriteText(raw, possibleValueInsideInput, numberFormatted)
    case None => raw
    case Some(t) => t
  }

  /** The model of the input: its value and the native field's text. */
  class MatPhoneInput {
    var value: PhoneValue
    var inputText: string
    var countryCode: Option<CountryCode>
    /** libphonenumber's `formatIncompletePhoneNumber`, which this model does not see. */
    const format: Formatter

    constructor(format: Formatter, inputText: string, countryCode: Option<CountryCode>)
      ensures value == PhoneValue("", "")
      ensures this.inputText == inputText && this.countryCode == countryCode && this.format == format
    {
      this.format := format;
      this.value := PhoneValue("", "");
      this.inputText := inputText;
      this.countryCode := countryCode;
    }

    /** `handleInputChange()`: sets the number to the phone characters of the field,
        formats the cleaned text and rewrites the field as `RewriteText` decides.
        Returns whether the formatter threw (after the number was set). */
    method HandleInputChange() returns (thrown: bool)
      modifies this
      ensures countryCode == old(countryCode)
      ensures value.number == LeaveOnlyPhoneChars(old(inputText))
      ensures var possible := RemoveExtraCharacters(old(inputText));
        thrown <==> format(possible, countryCode).None?
      ensures thrown ==> value.numberFormatted == old(value.numberFormatted) && inputText == old(inputText)
      ensures var possible := RemoveExtraCharacters(old(inputText));
        !thrown ==>
          && value.numberFormatted == format(possible, countryCode).value
          && inputText == NextInputText(old(inputText), possible, value.numberFormatted)
    {
      var raw := inputText;
      var possibleValueInsideInput := RemoveExtraCharacters(raw);
      value := value.(number := LeaveOnlyPhoneChars(raw));
      var formatted := format(possibleValueInsideInput, countryCode);
      if formatted.None? {
        return true;
      }
      thrown := false;
      value := value.(numberFormatted := formatted.value);
      var rewrite := RewriteText(raw, possibleValueInsideInput, value.numberFormatted);
      if rewrite.Some? {
        inputText := rewrite.value;
      }
    }
  }
}

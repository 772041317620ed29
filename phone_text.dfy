/**
 * Text helpers shared by the phone-input code: the character classes the regular
 * expressions select, filtering, JavaScript `trim()`, and the record of a text field
 * (its value and selection offsets) that the phone-input code reads and writes.
 */
module PhoneText {
  import opened Wrappers

  /** The characters a phone formatter inserts: `)`, `(`, `-` and the space. None of
      them is a character the phone number itself keeps. */
  predicate IsFormattingCharacter(c: char): (b: bool)
    ensures b ==> !IsDialChar(c) && c != '+'
  {
    c == ')' || c == '(' || c == '-' || c == ' '
  }

  /** `\d` of a JavaScript regular expression without the `u` flag. */
  predicate IsDigit(c: char) {
    '0' <= c <= '9'
  }

  /** The characters matched by `/\#|\*|\d/`: digits, `#` and `*`. */
  predicate IsDialChar(c: char) {
    IsDigit(c) || c == '#' || c == '*'
  }

  /** `/\#|\*\/.test(s)` */
  predicate HasDialSymbol(s: string) {
    exists i :: 0 <= i < |s| && (s[i] == '#' || s[i] == '*')
  }

  /** `/\(|\)|-| /.test(s)` */
  predicate HasFormatting(s: string) {
    exists i :: 0 <= i < |s| && IsFormattingCharacter(s[i])
  }

  /** `s[i]` in JavaScript: `undefined` (None) outside the string. */
  function CharAt(s: string, i: int): (r: Option<char>)
    ensures r.Some? <==> 0 <= i < |s|
    ensures 0 <= i < |s| ==> r == Some(s[i])
  {
    if 0 <= i < |s| then Some(s[i]) else None
  }

  /** The characters of `s` that satisfy `keep`, in order: `s.match(/…/g).join('')`
      for a pattern that matches single characters. */
  function Keep(s: string, keep: char -> bool): (r: string)
    ensures |r| <= |s|
    ensures forall i :: 0 <= i < |r| ==> keep(r[i])
  {
    if s == [] then [] else (if keep(s[0]) then [s[0]] else []) + Keep(s[1..], keep)
  }

  /** Filtering distributes over concatenation. */
  lemma {:induction false} KeepConcat(a: string, b: string, keep: char -> bool)
    ensures Keep(a + b, keep) == Keep(a, keep) + Keep(b, keep)
  {
    if a == [] {
      assert a + b == b;
    } else {
      assert (a + b)[1..] == a[1..] + b;
      KeepConcat(a[1..], b, keep);
    }
  }

  /** A string all of whose characters are kept is its own filtering. */
  lemma {:induction false} KeepAll(s: string, keep: char -> bool)
    requires forall i :: 0 <= i < |s| ==> keep(s[i])
    ensures Keep(s, keep) == s
  {
    if s != [] {
      KeepAll(s[1..], keep);
    }
  }

  /** A string none of whose characters are kept filters to nothing. */
  lemma {:induction false} KeepNone(s: string, keep: char -> bool)
    requires forall i :: 0 <= i < |s| ==> !keep(s[i])
    ensures Keep(s, keep) == []
  {
    if s != [] {
      KeepNone(s[1..], keep);
    }
  }

  /** Filtering twice is filtering once. */
  lemma KeepIdempotent(s: string, keep: char -> bool)
    ensures Keep(Keep(s, keep), keep) == Keep(s, keep)
  {
    KeepAll(Keep(s, keep), keep);
  }

  /** `clearInvalidCharacters(value)`: the digits, `#` and `*` of the value, behind a
      single `+` when the value starts with `+`. */
  function ClearInvalidCharacters(value: string): (r: string)
    ensures (|r| > 0 && r[0] == '+') <==> (|value| > 0 && value[0] == '+')
    ensures forall i :: 0 <= i < |r| ==> IsDialChar(r[i]) || (i == 0 && r[i] == '+')
    ensures Keep(r, IsDialChar) == Keep(value, IsDialChar)
    ensures !HasFormatting(r)
  {
    var digits := Keep(value, IsDialChar);
    var r := if |value| > 0 && value[0] == '+' then "+" + digits else digits;
    assert Keep(r, IsDialChar) == digits by {
      KeepIdempotent(value, IsDialChar);
      if |value| > 0 && value[0] == '+' {
        KeepConcat("+", digits, IsDialChar);
      }
    }
    r
  }

  /** Cleaning an already cleaned value changes nothing. */
  lemma ClearInvalidCharactersIdempotent(value: string)
    ensures ClearInvalidCharacters(ClearInvalidCharacters(value)) == ClearInvalidCharacters(value)
  {
    var r := ClearInvalidCharacters(value);
    var digits := Keep(value, IsDialChar);
    KeepIdempotent(value, IsDialChar);
    if |value| > 0 && value[0] == '+' {
      KeepConcat("+", digits, IsDialChar);
      assert r == "+" + digits;
    }
  }

  /** How many formatting characters `s` holds. */
  function FormattingCount(s: string): (n: nat)
    ensures n <= |s|
  {
    |Keep(s, IsFormattingCharacter)|
  }

  /** The formatting count of a prefix grows by one exactly at formatting characters. */
  lemma FormattingCountStep(s: string, i: nat)
    requires i < |s|
    ensures FormattingCount(s[..i + 1]) == FormattingCount(s[..i]) + (if IsFormattingCharacter(s[i]) then 1 else 0)
  {
    assert s[..i + 1] == s[..i] + [s[i]];
    KeepConcat(s[..i], [s[i]], IsFormattingCharacter);
  }

  /** The formatting count of a string seen from its first character. */
  lemma FormattingCountFront(s: string)
    requires s != []
    ensures FormattingCount(s) == FormattingCount(s[1..]) + (if IsFormattingCharacter(s[0]) then 1 else 0)
  {
  }

  /** How many characters of `s` are content, i.e. not formatting characters. */
  function ContentCount(s: string): (n: nat)
    ensures n <= |s|
  {
    |s| - FormattingCount(s)
  }

  /** The content count of a non-empty string seen from its first character. */
  lemma ContentCountFront(s: string)
    requires s != []
    ensures ContentCount(s) == ContentCount(s[1..]) + (if IsFormattingCharacter(s[0]) then 0 else 1)
  {
    FormattingCountFront(s);
  }

  /** The content count of a prefix `s[..j]`, `j >= 1`, seen from its first character. */
  lemma ContentCountPrefixFront(s: string, j: nat)
    requires 1 <= j <= |s|
    ensures ContentCount(s[..j]) == ContentCount(s[1..][..j - 1]) + (if IsFormattingCharacter(s[0]) then 0 else 1)
  {
    assert s[..j][1..] == s[1..][..j - 1];
    ContentCountFront(s[..j]);
  }

  /** `k` clamped into `[0, hi]`. */
  function Clamp(k: int, hi: nat): (r: nat)
    ensures r <= hi && (0 <= k <= hi ==> r == k)
  {
    if k < 0 then 0 else if k > hi then hi else k
  }

  /** The number of formatting characters of `v` at indices below `k`. */
  function FormattingBefore(v: string, k: int): (n: nat)
    ensures n <= Clamp(k, |v|)
  {
    FormattingCount(v[..Clamp(k, |v|)])
  }

  /** Whitespace as JavaScript's `trim()` removes it (WhiteSpace and LineTerminator). */
  predicate IsJsWhitespace(c: char) {
    c == '\t' || c == '\n' || c == '\U{B}' || c == '\U{C}' || c == '\r' || c == ' '
    || c == '\U{A0}' || c == '\U{1680}' || ('\U{2000}' <= c <= '\U{200A}')
    || c == '\U{2028}' || c == '\U{2029}' || c == '\U{202F}' || c == '\U{205F}'
    || c == '\U{3000}' || c == '\U{FEFF}'
  }

  function TrimStart(s: string): (r: string)
    ensures |r| <= |s|
  {
    if s != [] && IsJsWhitespace(s[0]) then TrimStart(s[1..]) else s
  }

  function TrimEnd(s: string): (r: string)
    ensures |r| <= |s|
  {
    if s != [] && IsJsWhitespace(s[|s| - 1]) then TrimEnd(s[..|s| - 1]) else s
  }

  /** `s.trim()`: the middle of `s` left after removing whitespace at both ends. */
  function Trim(s: string): (r: string)
    ensures |r| <= |s|
  {
    TrimEnd(TrimStart(s))
  }

  /** Trimming the start drops a prefix of whitespace and keeps the rest. */
  lemma {:induction false} TrimStartShape(s: string)
    ensures var r := TrimStart(s);
      && r == s[|s| - |r|..]
      && (r == [] || !IsJsWhitespace(r[0]))
      && (forall i :: 0 <= i < |s| - |TrimStart(s)| ==> IsJsWhitespace(s[i]))
    decreases |s|
  {
    if s != [] && IsJsWhitespace(s[0]) {
      TrimStartShape(s[1..]);
      forall i | 0 <= i < |s| - |TrimStart(s)| ensures IsJsWhitespace(s[i]) {
        if i > 0 {
          assert s[i] == s[1..][i - 1];
        }
      }
    }
  }

  /** Trimming the end drops a suffix of whitespace and keeps the rest. */
  lemma {:induction false} TrimEndShape(s: string)
    ensures var r := TrimEnd(s);
      && r == s[..|r|]
      && (r == [] || !IsJsWhitespace(r[|r| - 1]))
      && (forall i :: |TrimEnd(s)| <= i < |s| ==> IsJsWhitespace(s[i]))
    decreases |s|
  {
    if s != [] && IsJsWhitespace(s[|s| - 1]) {
      TrimEndShape(s[..|s| - 1]);
      forall i | |TrimEnd(s)| <= i < |s| ensures IsJsWhitespace(s[i]) {
        if i < |s| - 1 {
          assert s[i] == s[..|s| - 1][i];
        }
      }
    }
  }

  /** The trimmed text is a middle slice of `s` that neither starts nor ends with
      whitespace, and only whitespace was cut off around it. */
  lemma TrimShape(s: string)
    ensures var r := Trim(s); var k := |s| - |TrimStart(s)|;
      && k + |r| <= |s| && r == s[k..k + |r|]
      && (r == [] || (!IsJsWhitespace(r[0]) && !IsJsWhitespace(r[|r| - 1])))
      && (forall i :: 0 <= i < |s| - |TrimStart(s)| ==> IsJsWhitespace(s[i]))
      && (forall i :: |s| - |TrimStart(s)| + |Trim(s)| <= i < |s| ==> IsJsWhitespace(s[i]))
  {
    var t := TrimStart(s);
    TrimStartShape(s);
    TrimEndShape(t);
    var k := |s| - |t|;
    var r := Trim(s);
    assert r == t[..|r|] && t == s[k..];
    assert t[..|r|] == s[k..k + |r|];
    forall i | k + |Trim(s)| <= i < |s| ensures IsJsWhitespace(s[i]) {
      assert s[i] == t[i - k];
    }
  }

  /** A string without whitespace is its own trim. */
  lemma TrimWithoutWhitespace(s: string)
    requires forall i :: 0 <= i < |s| ==> !IsJsWhitespace(s[i])
    ensures Trim(s) == s
  {
    TrimShape(s);
  }

  /** Cleaned text holds no whitespace, so trimming leaves it as it is. */
  lemma TrimClearedText(value: string)
    ensures Trim(ClearInvalidCharacters(value)) == ClearInvalidCharacters(value)
  {
    var r := ClearInvalidCharacters(value);
    forall i | 0 <= i < |r| ensures !IsJsWhitespace(r[i]) {
    }
    TrimWithoutWhitespace(r);
  }

  /** The model value of a phone input: the number as entered and the text displayed. */
  datatype PhoneValue = PhoneValue(number: string, numberFormatted: string)

  /** A country code such as "US"; `None` is an absent one. */
  type CountryCode = string

  /** libphonenumber's `formatIncompletePhoneNumber(number, country)`, which this model
      does not see: it yields the punctuated text, or None when it throws. */
  type Formatter = (string, Option<CountryCode>) -> Option<string>

  /** A text input as the phone-input code reads and writes it: its value and the two
      selection offsets; None is an offset the element does not report. */
  datatype TextField = TextField(value: string, selectionStart: Option<int>, selectionEnd: Option<int>)

  /** A selection as the cursor code computes it; NoCaret is a selection whose offsets
      are not initialised. */
  datatype Caret = NoCaret | Sel(start: int, end: int)

  /** `getInputSelection()` (both copies): both ends are taken from `selectionStart`,
      so the selection is always collapsed and `selectionEnd` is never read. */
  function GetInputSelection(field: TextField): (c: Caret)
    ensures c.NoCaret? <==> field.selectionStart.None?
    ensures c.Sel? ==> c.start == c.end == field.selectionStart.value
  {
    match field.selectionStart
    case None => NoCaret
    case Some(s) => Sel(s, s)
  }
}

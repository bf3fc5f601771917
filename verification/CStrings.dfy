/** The C library's view of a char buffer, as far as the servers use it. */
module CStrings {
  // The string that starts at the head of `memory`.
  function CStr(memory: string): string {
    if memory == "" || memory[0] == '\0' then "" else [memory[0]] + CStr(memory[1..])
  }

  predicate IsSpace(c: char) {
    c == ' ' || c == '\t' || c == '\n' || c == 11 as char || c == 12 as char || c == '\r'
  }

  predicate IsDigit(c: char) {
    '0' <= c <= '9'
  }

  // What strcasecmp compares.
  function ToLower(s: string): string {
    seq(|s|, i requires 0 <= i < |s| => if 'A' <= s[i] <= 'Z' then (s[i] as int + 32) as char else s[i])
  }

  // strcasecmp == 0
  predicate SameIgnoringCase(a: string, b: string) {
    ToLower(a) == ToLower(b)
  }

  // atoi over the mathematical integers.
  function Atoi(memory: string): int {
    if memory == "" then 0
    else if IsSpace(memory[0]) then Atoi(memory[1..])
    else if memory[0] == '-' then 0 - Digits(memory[1..], 0)
    else if memory[0] == '+' then Digits(memory[1..], 0)
    else Digits(memory, 0)
  }

  function Digits(memory: string, value: nat): nat {
    if memory == "" || !IsDigit(memory[0]) then value
    else Digits(memory[1..], 10 * value + (memory[0] as int - '0' as int))
  }

  // printf("%d") of a natural number.
  function Decimal(n: nat): string {
    (if n < 10 then "" else Decimal(n / 10)) + [('0' as int + n % 10) as char]
  }

  lemma {:induction false} CStrStops(text: string, tail: string)
    requires '\0' !in text
    ensures CStr(text + "\0" + tail) == text
  {
    if text != "" {
      assert (text + "\0" + tail)[1..] == text[1..] + "\0" + tail;
      CStrStops(text[1..], tail);
    }
  }

  lemma {:induction false} DigitsStop(text: string, end: char, tail: string, value: nat)
    requires !IsDigit(end)
    ensures Digits(text + [end] + tail, value) == Digits(text, value)
  {
    if text != "" && IsDigit(text[0]) {
      assert (text + [end] + tail)[1..] == text[1..] + [end] + tail;
      DigitsStop(text[1..], end, tail, 10 * value + (text[0] as int - '0' as int));
    }
  }

  // The terminating NUL, or a line feed before it, ends the number.
  lemma {:induction false} AtoiStops(text: string, end: char, tail: string)
    requires end == '\0' || (end == '\n' && (tail == "" || tail[0] == '\0'))
    ensures Atoi(text + [end] + tail) == Atoi(text)
  {
    var all := text + [end] + tail;
    if text == "" {
      if end == '\n' && tail != "" {
        assert all[1..] == tail;
      }
    } else {
      assert all[1..] == text[1..] + [end] + tail;
      if IsSpace(text[0]) {
        AtoiStops(text[1..], end, tail);
      } else if text[0] == '-' || text[0] == '+' {
        DigitsStop(text[1..], end, tail, 0);
      } else {
        DigitsStop(text, end, tail, 0);
      }
    }
  }

  lemma {:induction false} DigitsOfDecimal(n: nat, tail: string)
    ensures Digits(Decimal(n) + tail, 0) == Digits(tail, n)
    ensures Decimal(n) != "" && IsDigit(Decimal(n)[0])
  {
    var last := [('0' as int + n % 10) as char];
    assert Digits(last + tail, n / 10) == Digits(tail, n) by {
      assert (last + tail)[1..] == tail;
    }
    if n >= 10 {
      DigitsOfDecimal(n / 10, last + tail);
      assert Decimal(n) + tail == Decimal(n / 10) + (last + tail);
    } else {
      assert Decimal(n) == last;
    }
  }

  /** A printed number reads back. */
  lemma AtoiOfDecimal(n: nat)
    ensures Atoi(Decimal(n)) == n
  {
    DigitsOfDecimal(n, "");
    assert Decimal(n) + "" == Decimal(n);
  }

  // --- What the comparisons and numbers mean ---

  // The two forms of one letter.
  predicate IsCasePair(upper: char, lower: char) {
    'A' <= upper <= 'Z' && lower as int - 'a' as int == upper as int - 'A' as int
  }

  // The same text but for the case of its letters.
  predicate SpelledAlike(a: string, b: string) {
    |a| == |b| &&
    forall i | 0 <= i < |a| :: a[i] == b[i] || IsCasePair(a[i], b[i]) || IsCasePair(b[i], a[i])
  }

  /** strcasecmp finds two strings equal exactly if they differ in the case of letters only. */
  lemma CaseOnly(a: string, b: string)
    ensures SameIgnoringCase(a, b) <==> SpelledAlike(a, b)
  {
    if SameIgnoringCase(a, b) {
      assert |a| == |ToLower(a)| == |ToLower(b)| == |b|;
      forall i | 0 <= i < |a|
        ensures a[i] == b[i] || IsCasePair(a[i], b[i]) || IsCasePair(b[i], a[i])
      {
        assert ToLower(a)[i] == ToLower(b)[i];
      }
    }
  }

  /** isspace in the C locale, by code: tab, LF, VT, FF, CR and the blank. */
  lemma SpacesByCode(c: char)
    ensures IsSpace(c) <==> 9 <= c as int <= 13 || c as int == 32
  {
  }

  predicate AllDigits(digits: string) {
    forall i | 0 <= i < |digits| :: IsDigit(digits[i])
  }

  predicate AllSpaces(blanks: string) {
    forall i | 0 <= i < |blanks| :: IsSpace(blanks[i])
  }

  // The number that decimal digits spell, by the last digit.
  function NumberOf(digits: string): int {
    if digits == "" then 0
    else 10 * NumberOf(digits[..|digits| - 1]) + (digits[|digits| - 1] as int - '0' as int)
  }

  lemma {:induction false} DigitsAppend(digits: string, rest: string, value: nat)
    requires AllDigits(digits)
    ensures Digits(digits + rest, value) == Digits(rest, Digits(digits, value))
  {
    if digits == "" {
      assert digits + rest == rest;
    } else {
      assert (digits + rest)[1..] == digits[1..] + rest;
      DigitsAppend(digits[1..], rest, 10 * value + (digits[0] as int - '0' as int));
    }
  }

  lemma {:induction false} DigitsAreNumber(digits: string)
    requires AllDigits(digits)
    ensures Digits(digits, 0) == NumberOf(digits)
  {
    if digits != "" {
      var n := |digits| - 1;
      var last := [digits[n]];
      DigitsAreNumber(digits[..n]);
      DigitsAppend(digits[..n], last, 0);
      assert digits == digits[..n] + last;
      assert last[1..] == "";
      assert Digits(last, NumberOf(digits[..n])) == Digits("", NumberOf(digits));
    }
  }

  /** atoi on any text: leading blanks, a sign, digits, and a rest that does not go on with the
      number. Only the digits count, and the minus. */
  lemma {:induction false} AtoiMeaning(blanks: string, sign: string, digits: string, rest: string)
    requires AllSpaces(blanks) && AllDigits(digits) && (sign == "" || sign == "-" || sign == "+")
    requires rest != "" ==> !IsDigit(rest[0])
    requires rest != "" && sign == "" && digits == "" ==> !IsSpace(rest[0]) && rest[0] != '-' && rest[0] != '+'
    ensures Atoi(blanks + (sign + (digits + rest))) == if sign == "-" then -NumberOf(digits) else NumberOf(digits)
  {
    var text := sign + (digits + rest);
    if blanks != "" {
      assert (blanks + text)[1..] == blanks[1..] + text;
      AtoiMeaning(blanks[1..], sign, digits, rest);
    } else {
      assert blanks + text == text;
      DigitsAppend(digits, rest, 0);
      DigitsAreNumber(digits);
      if sign != "" {
        assert text[1..] == digits + rest;
      } else {
        assert text == digits + rest;
      }
    }
  }
}

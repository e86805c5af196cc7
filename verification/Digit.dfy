/**
 * includes/Digit.hpp: conversion between the characters of a board's text form and cell values.
 * '.' stands for an empty cell; for boards larger than 9 the letters continue the digits,
 * as in hexadecimal.
 */
module Digit {

  /** std::isdigit in the "C" locale. */
  predicate IsDigit(c: char)
  {
    '0' <= c <= '9'
  }

  /** std::toupper in the "C" locale: only 'a' .. 'z' change. */
  function ToUpper(c: char): (u: char)
    ensures 'a' <= c <= 'z' ==> u as int == c as int - 32
    ensures !('a' <= c <= 'z') ==> u == c
  {
    if 'a' <= c <= 'z' then (c as int - 32) as char else c
  }

  /** digitToValue<size>(char): the value of one character, or -1 when it is not a digit of the board. */
  function DigitToValue(size: int, digit: char): int
  {
    var d := if digit == '.' then '0' else digit;
    if IsDigit(d) then
      d as int - '0' as int
    else if size > 9 && 'A' as int <= ToUpper(d) as int < 'A' as int + (size - 9) then
      10 + (ToUpper(d) as int - 'A' as int)
    else
      -1
  }

  /** digitToValue<size>(std::string): -1 unless the string has exactly one character. */
  function StringToValue(size: int, digit: string): (v: int)
    ensures |digit| != 1 ==> v == -1
    ensures |digit| == 1 ==> v == DigitToValue(size, digit[0])
  {
    if |digit| != 1 then -1 else DigitToValue(size, digit[0])
  }

  /** valueToDigit<size>: the character of a value, or '?' when the value is outside the board's range. */
  function ValueToDigit(size: int, value: int): char
  {
    if 0 <= value <= 9 then
      ('0' as int + value) as char
    else if size > 9 && 10 <= value <= size then
      // static_cast<char> keeps the low 8 bits
      (('A' as int + (value - 10)) % 256) as char
    else
      '?'
  }

  /** '.' and '0' both read as 0, and '1' .. '9' read as 1 .. 9, whatever the size. */
  lemma DigitsDecode(size: int, c: char)
    ensures DigitToValue(size, '.') == 0
    ensures IsDigit(c) ==> DigitToValue(size, c) == c as int - '0' as int
  {
  }

  /** On a 9x9 board every character other than '.' and the digits reads as -1. */
  lemma NineBoardRejectsOthers(c: char)
    requires c != '.' && !IsDigit(c)
    ensures DigitToValue(9, c) == -1
  {
  }

  /**
   * On a larger board a letter reads, ignoring case, as 10 + its position in the alphabet while
   * that is at most the size, and as -1 from there on.
   */
  lemma LettersDecode(size: int, c: char)
    requires size > 9 && 'A' <= ToUpper(c) <= 'Z'
    ensures 10 + (ToUpper(c) as int - 'A' as int) <= size ==> DigitToValue(size, c) == 10 + (ToUpper(c) as int - 'A' as int)
    ensures 10 + (ToUpper(c) as int - 'A' as int) > size ==> DigitToValue(size, c) == -1
  {
  }

  /** The 16x16 cases: 'G' and 'g' are 16, 'H' is beyond the board. */
  lemma SixteenBoardLetters()
    ensures DigitToValue(16, 'A') == 10 && DigitToValue(16, 'g') == 16
    ensures DigitToValue(16, 'G') == 16 && DigitToValue(16, 'H') == -1
  {
  }

  /** The result is -1 or a value between 0 and the larger of 9 and the size. */
  lemma DigitToValueRange(size: int, c: char)
    ensures var v := DigitToValue(size, c); v == -1 || 0 <= v <= (if size > 9 then size else 9)
  {
  }

  /**
   * Values 0 .. 9 become '0' .. '9', values 10 .. size become 'A' .. on a larger board (up to
   * value 200, the last one whose character fits in 8 bits), and anything else '?'.
   */
  lemma ValueToDigitCases(size: int, v: int)
    ensures 0 <= v <= 9 ==> ValueToDigit(size, v) as int == '0' as int + v
    ensures 9 < size && 10 <= v <= size && v <= 200 ==> ValueToDigit(size, v) as int == 'A' as int + (v - 10)
    ensures (v < 0 || v > 9) && (size <= 9 || v > size) ==> ValueToDigit(size, v) == '?'
  {
  }

  /**
   * Encoding then decoding gives the value back, for every value of the board, on boards of
   * size 9 up to 41. From 42 on, value 42 encodes as 'a', which decodes as 'A' (see LowerCaseClash).
   */
  lemma DigitRoundTrip(size: int, v: int)
    requires 9 <= size <= 41 && 0 <= v <= size
    ensures DigitToValue(size, ValueToDigit(size, v)) == v
  {
    if v >= 10 {
      var c := ValueToDigit(size, v);
      assert c as int == 'A' as int + (v - 10) <= 'A' as int + 31;
      assert ToUpper(c) == c;
    }
  }

  /** On a 49x49 board value 42 is written as 'a', and 'a' is read back as 10. */
  lemma LowerCaseClash()
    ensures ValueToDigit(49, 42) == 'a'
    ensures DigitToValue(49, 'a') == 10
  {
  }
}

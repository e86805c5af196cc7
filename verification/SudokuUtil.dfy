/**
 * includes/SudokuUtil.hpp: the older character codec. It differs from Digit only in that '.'
 * is not a value.
 */
module SudokuUtil {
  import Digit

  /** charToValue<size>: the value of a digit or (on larger boards) a letter, otherwise -1. */
  function CharToValue(size: int, ch: char): int
  {
    if Digit.IsDigit(ch) then
      ch as int - '0' as int
    else if size > 9 && 'A' as int <= Digit.ToUpper(ch) as int < 'A' as int + (size - 9) then
      10 + (Digit.ToUpper(ch) as int - 'A' as int)
    else
      -1
  }

  /** valueToChar<size>: '0' .. '9', then 'A' .. on larger boards, '?' outside the range. */
  function ValueToChar(size: int, val: int): char
  {
    if 0 <= val <= 9 then
      ('0' as int + val) as char
    else if size > 9 && 10 <= val <= size then
      (('A' as int + (val - 10)) % 256) as char
    else
      '?'
  }

  /** '0' .. '9' read as 0 .. 9, and '.' is not a value (unlike Digit.DigitToValue). */
  lemma CharToValueDigits(size: int, ch: char)
    ensures Digit.IsDigit(ch) ==> CharToValue(size, ch) == ch as int - '0' as int
    ensures CharToValue(size, '.') == -1
    ensures ch != '.' ==> CharToValue(size, ch) == Digit.DigitToValue(size, ch)
  {
  }

  /** On a 9x9 board nothing but a digit has a value. */
  lemma CharToValueNineBoard(ch: char)
    requires !Digit.IsDigit(ch)
    ensures CharToValue(9, ch) == -1
  {
  }

  /** Letters, ignoring case, read as 10 .. size on a larger board and -1 after that. */
  lemma CharToValueLetters(size: int, ch: char)
    requires size > 9 && 'A' <= Digit.ToUpper(ch) <= 'Z'
    ensures 10 + (Digit.ToUpper(ch) as int - 'A' as int) <= size ==> CharToValue(size, ch) == 10 + (Digit.ToUpper(ch) as int - 'A' as int)
    ensures 10 + (Digit.ToUpper(ch) as int - 'A' as int) > size ==> CharToValue(size, ch) == -1
  {
  }

  /** valueToChar and Digit's valueToDigit produce the same character for every size and value. */
  lemma ValueToCharAgrees(size: int, val: int)
    ensures ValueToChar(size, val) == Digit.ValueToDigit(size, val)
  {
  }

  /** charToValue undoes valueToChar for every value on boards of size 9 up to 41. */
  lemma CharRoundTrip(size: int, v: int)
    requires 9 <= size <= 41 && 0 <= v <= size
    ensures CharToValue(size, ValueToChar(size, v)) == v
  {
    if v >= 10 {
      var c := ValueToChar(size, v);
      assert c as int == 'A' as int + (v - 10) <= 'A' as int + 31;
      assert Digit.ToUpper(c) == c;
    }
  }
}

/** Minimal stand-ins for the collaborators of the ticket whose code is not
    part of this model: LottoNumber, Count, BonusBall and Regex. */

/** A lotto number is an int in [MIN_NUMBER, MAX_NUMBER]. */
module LottoNumber {
  const MIN_NUMBER: int := 1
  const MAX_NUMBER: int := 45

  predicate IsValidNumber(n: int) {
    MIN_NUMBER <= n <= MAX_NUMBER
  }

  /** A value that passed `LottoNumber.of`. */
  type LottoNumber = n: int | IsValidNumber(n) witness MIN_NUMBER
}

/** A match counter: a natural number with zero, one and addition. */
module Count {
  type Count = nat

  function Zero(): Count { 0 }

  function One(): Count { 1 }

  function Sum(a: Count, b: Count): Count { a + b }
}

/** The bonus ball drawn beside the winning numbers. */
module BonusBall {
  import LottoNumber

  datatype BonusBall = BonusBall(number: LottoNumber.LottoNumber) {
    function GetNumber(): LottoNumber.LottoNumber { number }
  }
}

/** The two patterns the ticket matches text against. */
module Regex {

  /** SPACE: one whitespace character in the sense of Java's `\s`. */
  predicate IsSpace(c: char) {
    c == ' ' || c == '\t' || c == '\n' || c == '\U{B}' || c == '\U{C}' || c == '\r'
  }

  predicate IsDigit(c: char) {
    '0' <= c <= '9'
  }

  /** NUMBER: a whole string of one or more decimal digits. */
  predicate IsNumber(s: string) {
    |s| > 0 && forall k :: 0 <= k < |s| ==> IsDigit(s[k])
  }
}

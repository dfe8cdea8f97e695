/** Properties of the ticket that relate several of its operations. */
module LottoProperties {
  import opened Wrappers
  import opened SeqFacts
  import LottoNumber
  import Regex
  import JavaString
  import BonusBall
  import opened Model

  /** On the six values parsed from six tokens, `isNotDuplicatedNumber` holds
      exactly when no value repeats, and `isValidLottoNumber` exactly when
      every value lies in [MIN_NUMBER, MAX_NUMBER]. */
  lemma SixValuesChecks(values: seq<int>)
    requires |values| == NUMBER_COUNT
    ensures Lotto.IsNotDuplicatedNumber(SetOf(values)) <==> Distinct(values)
    ensures Lotto.IsValidLottoNumber(SetOf(values)) <==>
      forall k :: 0 <= k < |values| ==> LottoNumber.IsValidNumber(values[k])
  {
    SetOfCard(values);
    if forall k :: 0 <= k < |values| ==> LottoNumber.IsValidNumber(values[k]) {
      forall n | n in SetOf(values) ensures LottoNumber.IsValidNumber(n) {
        var k :| 0 <= k < |values| && values[k] == n;
      }
    }
    if Lotto.IsValidLottoNumber(SetOf(values)) {
      forall k | 0 <= k < |values| ensures LottoNumber.IsValidNumber(values[k]) {
        assert values[k] in SetOf(values);
      }
    }
  }

  /** `validate` accepts exactly the texts with six numeric tokens whose values
      are pairwise different lotto numbers. */
  lemma ValidateIff(value: string)
    ensures Lotto.Validate(value) <==>
      var tokens := Lotto.SplitToEachNumber(value);
      && |tokens| == NUMBER_COUNT
      && (forall k :: 0 <= k < |tokens| ==> Regex.IsNumber(tokens[k]))
      && Lotto.ParseTokens(tokens).Some?
      && Distinct(Lotto.ParseTokens(tokens).value)
      && forall k :: 0 <= k < NUMBER_COUNT ==> LottoNumber.IsValidNumber(Lotto.ParseTokens(tokens).value[k])
  {
    var tokens := Lotto.SplitToEachNumber(value);
    if |tokens| == NUMBER_COUNT && forall k :: 0 <= k < |tokens| ==> Regex.IsNumber(tokens[k]) {
      SixValuesChecks(Lotto.ParseTokens(tokens).value);
    }
  }

  /** The decimal texts of the given numbers. */
  function Decimals(xs: seq<int>): (r: seq<string>)
    requires forall k :: 0 <= k < |xs| ==> xs[k] >= 0
    ensures |r| == |xs|
    ensures forall k :: 0 <= k < |xs| ==> r[k] == JavaString.ToDecimal(xs[k])
  {
    if |xs| == 0 then [] else [JavaString.ToDecimal(xs[0])] + Decimals(xs[1..])
  }

  /** Numbers written the way the ticket reads them: decimal, comma-separated. */
  function FormatNumbers(xs: seq<int>): string
    requires |xs| >= 1 && forall k :: 0 <= k < |xs| ==> xs[k] >= 0
  {
    JavaString.Join(Decimals(xs), COMMA)
  }

  /** The decimal texts are numeric tokens: no whitespace, no comma, never empty. */
  lemma DecimalsAreTokens(xs: seq<int>)
    requires forall k :: 0 <= k < |xs| ==> xs[k] >= 0
    ensures forall k :: 0 <= k < |xs| ==> Regex.IsNumber(Decimals(xs)[k])
    ensures forall k, i :: 0 <= k < |xs| && 0 <= i < |Decimals(xs)[k]| ==> !Regex.IsSpace(Decimals(xs)[k][i])
    ensures forall k :: 0 <= k < |xs| ==> COMMA !in Decimals(xs)[k]
  {
  }

  /** Parsing the decimal texts of numbers gives the numbers. */
  lemma ParseDecimals(xs: seq<int>)
    requires forall k :: 0 <= k < |xs| ==> xs[k] >= 0
    ensures Lotto.ParseTokens(Decimals(xs)) == Some(xs)
  {
    var values := Lotto.ParseTokens(Decimals(xs));
    assert values.Some?;
    assert values.value == xs;
  }

  /** Comma text written from numbers splits back into their decimal texts,
      even with trailing commas after the last one. */
  lemma SplitFormatted(xs: seq<int>, trailing: nat)
    requires |xs| >= 1 && forall k :: 0 <= k < |xs| ==> xs[k] >= 0
    ensures Lotto.SplitToEachNumber(FormatNumbers(xs) + seq(trailing, _ => COMMA)) == Decimals(xs)
  {
    var parts := Decimals(xs);
    var text := FormatNumbers(xs) + seq(trailing, _ => COMMA);
    DecimalsAreTokens(xs);
    JavaString.JoinWithoutSpaces(parts, COMMA);
    assert forall i :: 0 <= i < |text| ==> !Regex.IsSpace(text[i]) by {
      forall i | 0 <= i < |text| ensures !Regex.IsSpace(text[i]) {
        if i >= |FormatNumbers(xs)| {
          assert text[i] == COMMA;
        } else {
          assert text[i] == FormatNumbers(xs)[i];
        }
      }
    }
    assert JavaString.RemoveSpaces(text) == text;
    JavaString.SplitJoin(parts, COMMA, trailing);
  }

  /** Writing numbers as comma text and reading the text back (the parsing half
      of `of`) gives the same numbers in the same order, even with trailing
      commas after the last one. */
  lemma TextRoundTrip(xs: seq<int>, trailing: nat)
    requires |xs| >= 1 && forall k :: 0 <= k < |xs| ==> xs[k] >= 0
    ensures Lotto.ParseTokens(Lotto.SplitToEachNumber(FormatNumbers(xs) + seq(trailing, _ => COMMA))) == Some(xs)
  {
    SplitFormatted(xs, trailing);
    ParseDecimals(xs);
  }

  /** Six different lotto numbers written as comma text pass `validate`. */
  lemma ValidateFormatted(xs: seq<LottoNumber.LottoNumber>)
    requires |xs| == NUMBER_COUNT && Distinct(xs)
    ensures Lotto.Validate(FormatNumbers(xs))
  {
    var text := FormatNumbers(xs);
    SplitFormatted(xs, 0);
    assert text + seq(0, _ => COMMA) == text;
    DecimalsAreTokens(xs);
    ParseDecimals(xs);
    ValidateIff(text);
  }

  /** Numbers written as comma text and read back give the same numbers. */
  lemma ParseFormatted(xs: seq<int>)
    requires |xs| >= 1 && forall k :: 0 <= k < |xs| ==> xs[k] >= 0
    ensures Lotto.ParseTokens(Lotto.SplitToEachNumber(FormatNumbers(xs))) == Some(xs)
  {
    TextRoundTrip(xs, 0);
    assert FormatNumbers(xs) + seq(0, _ => COMMA) == FormatNumbers(xs);
  }

  /** A ticket written as comma text and read back by `of` holds the same
      numbers. */
  lemma ManualRoundTrip(lotto: Lotto)
    requires lotto.numbers != {}
    ensures var numbers := lotto.GetNumbers();
      && Lotto.ParseTokens(Lotto.SplitToEachNumber(FormatNumbers(numbers))) == Some(numbers)
      && SetOf(numbers) == lotto.numbers
  {
    var numbers := lotto.GetNumbers();
    assert forall k :: 0 <= k < |numbers| ==> numbers[k] in numbers && numbers[k] in lotto.numbers;
    ParseFormatted(numbers);
  }

  /** A six-number ticket written as comma text passes `validate`. */
  lemma ValidateTicketText(lotto: Lotto)
    requires |lotto.numbers| == NUMBER_COUNT
    ensures Lotto.Validate(FormatNumbers(lotto.GetNumbers()))
  {
    var numbers := lotto.GetNumbers();
    assert forall k :: 0 <= k < |numbers| ==> numbers[k] in numbers && numbers[k] in lotto.numbers;
    ValidateFormatted(numbers);
  }

  /** `of` never checks how many numbers it got: any non-empty list of lotto
      numbers, written as comma text, parses back and passes `createByManual`,
      so a repeated value yields a ticket with fewer numbers than tokens rather
      than an error. */
  lemma OfAcceptsAnyCount(xs: seq<LottoNumber.LottoNumber>)
    requires |xs| >= 1
    ensures Lotto.ParseTokens(Lotto.SplitToEachNumber(FormatNumbers(xs))) == Some(xs)
    ensures Lotto.IsValidLottoNumber(SetOf(xs))
    ensures !Distinct(xs) ==> |SetOf(xs)| < |xs|
  {
    ParseFormatted(xs);
    SetOfCard(xs);
  }

  /** `validate` ignores whitespace: the text and the text with its whitespace
      deleted are judged alike. */
  lemma ValidateIgnoresSpaces(text: string)
    ensures Lotto.Validate(text) == Lotto.Validate(JavaString.RemoveSpaces(text))
  {
    var stripped := JavaString.RemoveSpaces(text);
    assert forall i :: 0 <= i < |stripped| ==> stripped[i] in stripped;
    assert JavaString.RemoveSpaces(stripped) == stripped;
  }

  /** When the bonus ball is not among the winning numbers but is on a ticket,
      that ticket cannot match all of its numbers: the bonus takes a place. */
  lemma BonusBallTakesAPlace(winning: Lotto, ticket: Lotto, bonusBall: BonusBall.BonusBall)
    requires winning.IsNotContain(bonusBall) && ticket.IsMatchBonusBall(bonusBall)
    ensures |winning.numbers * ticket.numbers| < |ticket.numbers|
  {
    var b := bonusBall.number;
    var matched: set<int> := winning.numbers * ticket.numbers;
    var others: set<int> := ticket.numbers - {b};
    assert b in ticket.numbers && b !in winning.numbers;
    assert matched <= others;
    IntersectionBound(others, matched);
    assert others * matched == matched;
  }
}

/** The lottery ticket (`model.Lotto`): six numbers chosen by hand or drawn
    from a shuffled candidate list, text validation and parsing, and the
    comparison of a ticket with the winning numbers and the bonus ball. */
module Model {
  import opened Wrappers
  import opened SeqFacts
  import LottoNumber
  import Count
  import BonusBall
  import Regex
  import JavaString

  const NUMBER_COUNT: nat := 6
  const INDEX_OF_START: nat := 0
  const COMMA: char := ','

  /** What the ticket's factories throw: `Integer.parseInt` on a token that is
      not a number, `LottoNumber.of` on a value outside the range. */
  datatype Error = NumberFormatError | OutOfRangeError

  /** The candidate list as the static initializer builds it: MIN_NUMBER to MAX_NUMBER. */
  function CandidateRange(): (r: seq<int>)
    ensures |r| == LottoNumber.MAX_NUMBER - LottoNumber.MIN_NUMBER + 1
    ensures StrictlyIncreasing(r)
    ensures forall x :: x in r <==> LottoNumber.IsValidNumber(x)
  {
    var r := seq(LottoNumber.MAX_NUMBER - LottoNumber.MIN_NUMBER + 1, i => LottoNumber.MIN_NUMBER + i);
    assert forall x :: LottoNumber.IsValidNumber(x) ==> r[x - LottoNumber.MIN_NUMBER] == x;
    r
  }

  class Lotto {
    /** The ticket's numbers; the Java field is a TreeSet. */
    const numbers: set<LottoNumber.LottoNumber>

    /** `Lotto(List<Integer>)`: each value goes through `LottoNumber.of` and the
        results are collected into a TreeSet. */
    constructor FromList(list: seq<int>)
      requires forall k :: 0 <= k < |list| ==> LottoNumber.IsValidNumber(list[k])
      ensures numbers == SetOf(list)
    {
      numbers := SetOf(list);
    }

    /** `Lotto(Set<LottoNumber>)`: keeps the given set. */
    constructor (numbers: set<LottoNumber.LottoNumber>)
      ensures this.numbers == numbers
    {
      this.numbers := numbers;
    }

    /** `splitToEachNumber`: delete whitespace, then split on commas. */
    static function SplitToEachNumber(text: string): (tokens: seq<string>)
      ensures forall k :: 0 <= k < |tokens| ==> COMMA !in tokens[k]
      ensures forall k, i :: 0 <= k < |tokens| && 0 <= i < |tokens[k]| ==>
        tokens[k][i] in text && !Regex.IsSpace(tokens[k][i])
    {
      JavaString.Split(JavaString.RemoveSpaces(text), COMMA)
    }

    /** `map(Integer::parseInt)` over the tokens; None when some token throws. */
    static function ParseTokens(tokens: seq<string>): (r: Option<seq<int>>)
      ensures r.Some? <==> forall k :: 0 <= k < |tokens| ==> JavaString.ParseInt(tokens[k]).Some?
      ensures r.Some? ==> |r.value| == |tokens|
      ensures r.Some? ==> forall k :: 0 <= k < |tokens| ==> r.value[k] == JavaString.ParseInt(tokens[k]).value
    {
      if |tokens| == 0 then Some([])
      else
        match JavaString.ParseInt(tokens[0])
        case None => None
        case Some(n) =>
          var rest := ParseTokens(tokens[1..]);
          if rest.None? then
            assert exists k :: 1 <= k < |tokens| && JavaString.ParseInt(tokens[k]).None? by {
              var k :| 0 <= k < |tokens[1..]| && JavaString.ParseInt(tokens[1..][k]).None?;
              assert tokens[1..][k] == tokens[k + 1];
            }
            None
          else
            Some([n] + rest.value)
    }

    /** `Lotto.of(numbersWithComma)`: parse every token, collect the values into
        a set, and hand the set to `createByManual`. */
    static method Of(numbersWithComma: string) returns (r: Result<Lotto, Error>)
      ensures var values := ParseTokens(SplitToEachNumber(numbersWithComma));
        && (values.None? ==> r == Failure(NumberFormatError))
        && (values.Some? && !IsValidLottoNumber(SetOf(values.value)) ==> r == Failure(OutOfRangeError))
        && (values.Some? && IsValidLottoNumber(SetOf(values.value)) ==>
              r.Success? && fresh(r.value) && r.value.numbers == SetOf(values.value))
    {
      var values := ParseTokens(SplitToEachNumber(numbersWithComma));
      if values.None? {
        return Failure(NumberFormatError);
      }
      r := CreateByManual(SetOf(values.value));
    }

    /** `createByManual(numbers)`: every value must be a lotto number; the
        size of the set is not checked. */
    static method CreateByManual(numbers: set<int>) returns (r: Result<Lotto, Error>)
      ensures !IsValidLottoNumber(numbers) ==> r == Failure(OutOfRangeError)
      ensures IsValidLottoNumber(numbers) ==> r.Success? && fresh(r.value) && r.value.numbers == numbers
    {
      if !IsValidLottoNumber(numbers) {
        return Failure(OutOfRangeError);
      }
      var lotto := new Lotto(numbers);
      r := Success(lotto);
    }

    static predicate IsNotDuplicatedNumber(numbers: set<int>) {
      |numbers| == NUMBER_COUNT
    }

    /** Every value lies in the range the automatic draw picks from, so a
        valid set holds at most 45 numbers. */
    static predicate IsValidLottoNumber(numbers: set<int>)
      ensures IsValidLottoNumber(numbers) <==> numbers <= SetOf(CandidateRange())
      ensures IsValidLottoNumber(numbers) ==> |numbers| <= LottoNumber.MAX_NUMBER
    {
      var range := CandidateRange();
      SetOfCard(range);
      assert forall n :: n in SetOf(range) <==> LottoNumber.IsValidNumber(n);
      assert (forall n :: n in numbers ==> LottoNumber.IsValidNumber(n)) <==> numbers <= SetOf(range) by {
        if numbers <= SetOf(range) {
          forall n | n in numbers ensures LottoNumber.IsValidNumber(n) {
            assert n in SetOf(range);
          }
        }
        if forall n :: n in numbers ==> LottoNumber.IsValidNumber(n) {
          forall n | n in numbers ensures n in SetOf(range) {
            assert LottoNumber.IsValidNumber(n);
          }
        }
      }
      assert numbers <= SetOf(range) ==> |numbers| <= |SetOf(range)| by {
        if numbers <= SetOf(range) {
          assert SetOf(range) == numbers + (SetOf(range) - numbers);
        }
      }
      forall n :: n in numbers ==> LottoNumber.IsValidNumber(n)
    }

    /** The private `isValidNumber(String[])`: the parsed values, as a set, are
        six lotto numbers. Its caller has already checked that every token is
        numeric, so `parseInt` does not throw. */
    static predicate IsValidNumber(strings: seq<string>)
      requires ParseTokens(strings).Some?
    {
      var numbers := SetOf(ParseTokens(strings).value);
      IsNotDuplicatedNumber(numbers) && IsValidLottoNumber(numbers)
    }

    /** `validate(value)`: the non-throwing check of comma text. */
    static predicate Validate(value: string) {
      var strings := SplitToEachNumber(value);
      if |strings| != NUMBER_COUNT then false
      else (forall k :: 0 <= k < |strings| ==> Regex.IsNumber(strings[k])) && IsValidNumber(strings)
    }

    /** `matchCount(other)`: how many of other's numbers this ticket holds. */
    method MatchCount(other: Lotto) returns (count: Count.Count)
      ensures count == |numbers * other.numbers| == |other.numbers * numbers|
      ensures count <= |numbers| && count <= |other.numbers|
      ensures other.numbers == numbers ==> count == |numbers|
      ensures numbers !! other.numbers ==> count == 0
    {
      count := Count.Zero();
      var rest := other.numbers;
      while rest != {}
        invariant rest <= other.numbers
        invariant count == |numbers * (other.numbers - rest)|
        decreases rest
      {
        var number :| number in rest;
        var done := numbers * (other.numbers - rest);
        if number in numbers {
          assert numbers * (other.numbers - (rest - {number})) == done + {number};
        } else {
          assert numbers * (other.numbers - (rest - {number})) == done;
        }
        count := if number in numbers then Count.Sum(count, Count.One()) else count;
        rest := rest - {number};
      }
      assert other.numbers - rest == other.numbers;
      IntersectionBound(numbers, other.numbers);
      IntersectionBound(other.numbers, numbers);
      assert numbers * other.numbers == other.numbers * numbers;
    }

    /** `isContains(lottoNumber)`: membership in the ticket's numbers. */
    function IsContains(lottoNumber: LottoNumber.LottoNumber): (r: bool)
      ensures r <==> lottoNumber in GetNumbers()
    {
      lottoNumber in numbers
    }

    /** `isMatchBonusBall(bonusBall)`: the ticket holds the bonus number. */
    function IsMatchBonusBall(bonusBall: BonusBall.BonusBall): (r: bool)
      ensures r <==> bonusBall.number in GetNumbers()
    {
      IsContains(bonusBall.GetNumber())
    }

    /** `isNotContain(bonusBall)`: the ticket does not hold the bonus number. */
    function IsNotContain(bonusBall: BonusBall.BonusBall): (r: bool)
      ensures r <==> !IsMatchBonusBall(bonusBall)
      ensures r <==> bonusBall.number !in GetNumbers()
    {
      !IsContains(bonusBall.GetNumber())
    }

    /** `getNumbers()`: the numbers in the TreeSet's iteration order. */
    function GetNumbers(): (r: seq<LottoNumber.LottoNumber>)
      ensures StrictlyIncreasing(r)
      ensures forall x :: x in r <==> x in numbers
      ensures |r| == |numbers|
    {
      var listing := AscendingWithin(numbers, LottoNumber.MIN_NUMBER, LottoNumber.MAX_NUMBER);
      assert SetOf(listing) == numbers;
      SetOfCard(listing);
      assert forall k :: 0 <= k < |listing| ==> listing[k] in listing && LottoNumber.IsValidNumber(listing[k]);
      listing
    }
  }

  /** A set holds at least as many elements as its intersection with another. */
  lemma IntersectionBound(a: set<int>, b: set<int>)
    ensures |a * b| <= |a|
  {
    assert a == (a * b) + (a - b);
  }

  /** `Collections.sort` on the sub-list of the first n entries: sorts them in
      place and leaves the rest of the list alone. */
  method SortPrefix(a: array<int>, n: nat)
    requires n <= a.Length
    modifies a
    ensures Sorted(a[..n])
    ensures multiset(a[..n]) == old(multiset(a[..n]))
    ensures a[n..] == old(a[n..])
  {
    var i := 0;
    while i < n
      invariant 0 <= i <= n
      invariant forall p, q :: 0 <= p < q < i ==> a[p] <= a[q]
      invariant multiset(a[..n]) == old(multiset(a[..n]))
      invariant a[n..] == old(a[n..])
    {
      var j := i;
      while j > 0 && a[j - 1] > a[j]
        invariant 0 <= j <= i
        invariant forall p, q :: 0 <= p < q <= i && p != j && q != j ==> a[p] <= a[q]
        invariant forall q :: j < q <= i ==> a[j] < a[q]
        invariant multiset(a[..n]) == old(multiset(a[..n]))
        invariant a[n..] == old(a[n..])
      {
        SwapInPrefix(a, j - 1, j, n);
        j := j - 1;
      }
      i := i + 1;
    }
  }

  /** Exchanges two entries among the first n, keeping the multiset of the first n. */
  method SwapInPrefix(a: array<int>, i: nat, j: nat, n: nat)
    requires i < j < n <= a.Length
    modifies a
    ensures a[..] == old(a[..])[i := old(a[j])][j := old(a[i])]
    ensures multiset(a[..n]) == old(multiset(a[..n]))
  {
    ghost var before := a[..n];
    a[i], a[j] := a[j], a[i];
    assert a[..n] == before[i := before[j]][j := before[i]];
  }

  /** The static candidate list `numberCandidates`, shared by every automatic draw. */
  class NumberCandidates {
    const candidates: array<int>

    /** The list is always an arrangement of MIN_NUMBER..MAX_NUMBER. */
    ghost predicate Valid()
      reads candidates
    {
      && candidates.Length == |CandidateRange()|
      && multiset(candidates[..]) == multiset(CandidateRange())
    }

    /** The static initializer: `IntStream.rangeClosed(MIN_NUMBER, MAX_NUMBER)`. */
    constructor ()
      ensures Valid() && fresh(candidates)
      ensures candidates[..] == CandidateRange()
    {
      var list := new int[LottoNumber.MAX_NUMBER - LottoNumber.MIN_NUMBER + 1](i => LottoNumber.MIN_NUMBER + i);
      assert list[..] == CandidateRange();
      candidates := list;
    }

    /** `createByAuto()`: shuffle the list into the order `shuffled` (the one
        `Collections.shuffle` picked), sort its first six entries in place, and
        build a ticket from them. */
    method CreateByAuto(shuffled: seq<int>) returns (lotto: Lotto)
      requires Valid()
      requires multiset(shuffled) == multiset(candidates[..])
      modifies candidates
      ensures Valid()
      ensures candidates.Length == |shuffled|
      ensures candidates[NUMBER_COUNT..] == shuffled[NUMBER_COUNT..]
      ensures multiset(candidates[..NUMBER_COUNT]) == multiset(shuffled[..NUMBER_COUNT])
      ensures StrictlyIncreasing(candidates[..NUMBER_COUNT])
      ensures fresh(lotto) && |lotto.numbers| == NUMBER_COUNT
      ensures lotto.GetNumbers() == candidates[..NUMBER_COUNT]
    {
      assert |shuffled| == |multiset(shuffled)| == |CandidateRange()|;
      forall i | 0 <= i < candidates.Length {
        candidates[i] := shuffled[i];
      }
      assert candidates[..] == shuffled;
      SortPrefix(candidates, INDEX_OF_START + NUMBER_COUNT);
      var selectedNumbers := candidates[INDEX_OF_START..INDEX_OF_START + NUMBER_COUNT];

      assert candidates[..] == selectedNumbers + candidates[NUMBER_COUNT..];
      assert shuffled == shuffled[..NUMBER_COUNT] + shuffled[NUMBER_COUNT..];
      assert multiset(candidates[..]) == multiset(shuffled);
      DrawnNumbers(candidates[..]);
      assert forall k :: 0 <= k < NUMBER_COUNT ==> selectedNumbers[k] == candidates[..][k];
      SetOfCard(selectedNumbers);

      lotto := new Lotto.FromList(selectedNumbers);
      StrictlyIncreasingUnique(lotto.GetNumbers(), selectedNumbers);
    }
  }

  /** Every entry of an arrangement of the candidate range is a lotto number,
      and no entry repeats. */
  lemma DrawnNumbers(drawn: seq<int>)
    requires multiset(drawn) == multiset(CandidateRange())
    ensures Distinct(drawn)
    ensures forall k :: 0 <= k < |drawn| ==> LottoNumber.IsValidNumber(drawn[k])
  {
    var range := CandidateRange();
    PermutationDistinct(drawn, range);
    forall k | 0 <= k < |drawn| ensures LottoNumber.IsValidNumber(drawn[k]) {
      assert drawn[k] in multiset(drawn);
      assert drawn[k] in range;
    }
  }
}

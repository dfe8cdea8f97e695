# Lotto ticket model

A Dafny model of the lottery ticket value object `model.Lotto`. A ticket is a set of
lotto numbers (each in [1, 45]) held in a TreeSet. It is built by hand, from a set or
list of numbers or from comma-separated text (`of`). It can also be drawn
automatically: a static list of the candidates 1..45 is shuffled, the first six
entries are sorted in place, and the ticket is built from them. The ticket checks
comma text without throwing (`validate`). It counts how many of another ticket's
numbers it holds (`matchCount`) and tests the bonus ball for membership.

Layout:

- `wrappers.dfy`: `Option` and `Result` for what the Java code throws.
- `standins.dfy`: minimal stand-ins for collaborators whose code is not part of this model.
  - `LottoNumber`: an int in [MIN_NUMBER, MAX_NUMBER] = [1, 45], also as a subset type.
  - `Count`: a nat with zero, one and sum.
  - `BonusBall`: wraps one lotto number.
  - `Regex`: SPACE is Java's `\s`; NUMBER is a non-empty string of ASCII digits.
- `java_string.dfy`: `replaceAll(SPACE, "")`, `String.split` and `Integer.parseInt`.
  - `split` keeps Java's rules: a string without the separator is its own only token, and trailing empty tokens are dropped.
  - `parseInt` accepts one optional `+` or `-` before the digits.
- `seq_facts.dfy`: facts about sequences and sets.
  - Collapsing to a set, repetitions and multisets.
  - Uniqueness of ascending listings.
  - The ascending listing of a bounded set, which is how a TreeSet iterates.
- `lotto.dfy` (module `Model`):
  - Class `Lotto`, whose state is its set of numbers, with its static factories and predicates.
  - Class `NumberCandidates`, the static candidate list, as an array the automatic draw changes in place.
  - `SortPrefix`, the in-place sort of the sub-list.
- `lotto_properties.dfy`: lemmas that relate several operations.
  - The exact condition under which `validate` accepts.
  - Text round trips.
  - The bonus-ball bound.

Two behaviours of the code that the model keeps as written:

- `createByManual` and `of` do not check that six numbers arrive, and have no "duplicate count" failure. A repeated value simply collapses into a smaller ticket (`OfAcceptsAnyCount`). Only `validate` insists on six distinct numbers.
- `createByAuto` works on one shared static candidate list, not on a fresh range per call. The model keeps that list as an object whose invariant (an arrangement of 1..45) every draw preserves.

## Model

| member | source | states |
|---|---|---|
| `Model.Lotto.FromList` | src/main/java/model/Lotto.java:27-31 | the ticket holds exactly the set of the list's values: repetitions collapse and order is irrelevant |
| `Model.Lotto.constructor` | src/main/java/model/Lotto.java:33-35 | the ticket holds the given set of lotto numbers |
| `Model.Lotto.SplitToEachNumber` | src/main/java/model/Lotto.java:115-118 | tokens contain no comma and no whitespace, and every character of a token comes from the text |
| `Model.Lotto.ParseTokens` | src/main/java/model/Lotto.java:38-39 | parsing succeeds iff every token parses; the values are the tokens' values, in token order |
| `Model.Lotto.Of` | src/main/java/model/Lotto.java:37-43 | an unparsable token gives NumberFormatError; otherwise a value out of range gives OutOfRangeError; otherwise a fresh ticket holding exactly the set of parsed values |
| `Model.Lotto.CreateByManual` | src/main/java/model/Lotto.java:54-60 | fails with OutOfRangeError iff some value is not a lotto number, otherwise gives a fresh ticket with exactly that set (size unchecked) |
| `Model.Lotto.MatchCount` | src/main/java/model/Lotto.java:71-79 | the count is the size of the intersection of the two tickets, hence symmetric, at most either size, the full size against itself, 0 against a disjoint ticket |
| `Model.Lotto.IsContains` | src/main/java/model/Lotto.java:89-91 | true iff the number appears among the ticket's listed numbers |
| `Model.Lotto.IsMatchBonusBall` | src/main/java/model/Lotto.java:81-83 | true iff the bonus number appears among the ticket's listed numbers |
| `Model.Lotto.IsNotContain` | src/main/java/model/Lotto.java:85-87 | always the negation of IsMatchBonusBall, i.e. the bonus number is not on the ticket |
| `Model.Lotto.GetNumbers` | src/main/java/model/Lotto.java:120-122 | the TreeSet's iteration order: strictly ascending, exactly the ticket's numbers, one entry per number |
| `Model.CandidateRange` | src/main/java/model/Lotto.java:19-23 | the candidate list MIN_NUMBER..MAX_NUMBER: 45 entries, ascending, exactly the valid lotto numbers |
| `Model.NumberCandidates.constructor` | src/main/java/model/Lotto.java:19-23 | the static list starts as MIN_NUMBER..MAX_NUMBER in order |
| `Model.NumberCandidates.CreateByAuto` | src/main/java/model/Lotto.java:45-52 | for any permutation the shuffle picks: the list stays an arrangement of 1..45; its first six entries are that permutation's first six sorted ascending; the rest are the permutation's; the ticket has six numbers, listed exactly as the sorted prefix |
| `Model.SortPrefix` | src/main/java/model/Lotto.java:48-49 | the first n entries end up sorted and a permutation of what they were; entries after n are untouched |
| `Model.DrawnNumbers` | src/main/java/model/Lotto.java:45-52 | any arrangement of the candidate list holds no repeated entry and only lotto numbers, so a drawn prefix is six distinct lotto numbers |
| `Model.Lotto.IsNotDuplicatedNumber` | src/main/java/model/Lotto.java:62-64 | the set holds six numbers; `LottoProperties.SixValuesChecks` shows that on six parsed values this is true iff no value repeats |
| `Model.Lotto.IsValidLottoNumber` | src/main/java/model/Lotto.java:66-69 | true iff every value is among the automatic draw's candidates MIN_NUMBER..MAX_NUMBER, so a valid set holds at most 45 numbers |
| `Model.Lotto.IsValidNumber` | src/main/java/model/Lotto.java:106-113 | the parsed values form a set of six lotto numbers; `LottoProperties.SixValuesChecks` and `LottoProperties.ValidateIff` state this as "six distinct values, each in range" |
| `Model.Lotto.Validate` | src/main/java/model/Lotto.java:93-104 | the non-throwing check of comma text; its meaning is stated by `LottoProperties.ValidateIff` |
| `LottoProperties.SixValuesChecks` | src/main/java/model/Lotto.java:62-69 | on six parsed values, isNotDuplicatedNumber holds iff no value repeats, and isValidLottoNumber iff every value is in range |
| `LottoProperties.ValidateIff` | src/main/java/model/Lotto.java:93-113 | validate is true iff there are exactly six tokens, all numeric, and their values are pairwise distinct lotto numbers (false whenever the token count is not six) |
| `LottoProperties.ValidateIgnoresSpaces` | src/main/java/model/Lotto.java:93-95 | validate judges a text and the text without whitespace alike |
| `LottoProperties.TextRoundTrip` | src/main/java/model/Lotto.java:37-40 | numbers written as comma text, with any number of trailing commas, parse back to the same numbers in order |
| `LottoProperties.ValidateFormatted` | src/main/java/model/Lotto.java:93-113 | six distinct lotto numbers written as comma text pass validate |
| `LottoProperties.ManualRoundTrip` | src/main/java/model/Lotto.java:37-60 | a ticket's listed numbers written as text read back to the same numbers, which form the ticket's set again |
| `LottoProperties.ValidateTicketText` | src/main/java/model/Lotto.java:93-113 | a six-number ticket written as comma text passes validate |
| `LottoProperties.OfAcceptsAnyCount` | src/main/java/model/Lotto.java:54-60 | any non-empty list of lotto numbers as text parses and passes createByManual's check, and a repetition makes the ticket smaller than the token count |
| `LottoProperties.BonusBallTakesAPlace` | src/main/java/model/Lotto.java:81-87 | if the bonus ball is not among the winning numbers but is on a ticket, that ticket matches fewer winning numbers than it holds |
| `JavaString.RemoveSpaces` | src/main/java/model/Lotto.java:94 | the result holds only the input's non-whitespace characters (each of them at least once), is no longer than the input, and equals the input when it has no whitespace |
| `JavaString.RemoveSpacesAppend` | src/main/java/model/Lotto.java:94 | whitespace deletion is character by character: one character is kept iff it is not whitespace, and a concatenation is cleaned piece by piece, so the kept characters keep their order and repetitions |
| `JavaString.Split` | src/main/java/model/Lotto.java:95 | every token is free of the separator and made of characters of the input |
| `JavaString.SplitJoin` | src/main/java/model/Lotto.java:116-117 | split undoes joining separator-free tokens whose last is non-empty, ignoring trailing separators |
| `JavaString.OnlySeparators` | src/main/java/model/Lotto.java:116-117 | a text made only of separators splits into no token at all |
| `JavaString.ParseInt` | src/main/java/model/Lotto.java:108 | succeeds iff the text is digits with at most one leading sign; for digits alone the value is their decimal value |
| `JavaString.ParseSigned` | src/main/java/model/Lotto.java:108 | a leading '-' negates the decimal value and a leading '+' keeps it |
| `JavaString.ToDecimal` | src/main/java/model/Lotto.java:108 | the decimal text of n is numeric and parses back to n |
| `SeqFacts.SetOfCard` | src/main/java/model/Lotto.java:109-111 | collecting values into a set never increases their count, and keeps it iff no value repeats |
| `SeqFacts.AscendingWithin` | src/main/java/model/Lotto.java:28-30 | the listing is strictly ascending and holds exactly the members within the bounds |

## Left out

- `COST` (line 14): no logic uses it.
- `Collections.shuffle`'s randomness: the shuffle is the permutation `shuffled`, passed into `CreateByAuto`. Uniformity of the draw is not modelled.
- Concurrent calls to `createByAuto` on the shared static list: the model is single-threaded.
- The internals of `LottoNumber`, `Count`, `BonusBall`, `Regex` and `CommonString` are not part of this model. The stand-ins in `standins.dfy` replace them. Regex.SPACE is taken as Java's `\s`, and Regex.NUMBER as one or more ASCII digits.
- JavaString.ParseInt: does not model `Integer.parseInt`'s 32-bit range. A digit string above 2147483647 throws NumberFormatException in Java, but here it parses to its unbounded value. Non-ASCII decimal digits, which Java also accepts, are not modelled either.
- Model.Lotto.FromList: a value outside [1, 45] is a precondition here, where Java's `LottoNumber.of` throws. That error path is modelled as OutOfRangeError in `CreateByManual` and `Of`.
- Exception types become the two `Error` values. Exceptions thrown while a stream is half consumed are not distinguished.
- Model.Lotto.GetNumbers: returns the ascending listing, not the shared `Set` object. Aliasing between the set passed to `Lotto(Set)`, the stored field and the set `getNumbers` hands out is not modelled. A non-TreeSet passed to `Lotto(Set)` would iterate in another order, but only `createByManual` calls that constructor, and it passes a TreeSet.
- Model.Lotto.MatchCount: iterates over the other ticket's numbers in an unspecified order, where Java uses ascending order. The count does not depend on the order.

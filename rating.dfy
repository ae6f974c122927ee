/** `rating_to_number`: the star rating word of a listing as a number from 1 to 5, or 0. */
module Rating {

  /** The lookup table of the transform stage. */
  const RatingMap: map<string, nat> := map["One" := 1, "Two" := 2, "Three" := 3, "Four" := 4, "Five" := 5]

  /** `rating_map.get(s, 0)`: total, and zero exactly for words outside the table. */
  function RatingToNumber(s: string): (n: nat)
    ensures n <= 5
    ensures n == 0 <==> s !in RatingMap
  {
    if s in RatingMap then RatingMap[s] else 0
  }

  /** The word for a number of stars, as the catalog writes it in its rating class. */
  function RatingName(n: nat): (s: string)
    requires 1 <= n <= 5
    ensures s in RatingMap
  {
    ["One", "Two", "Three", "Four", "Five"][n - 1]
  }

  /** The lookup maps each rating word to its number of stars. */
  lemma RatingNameToNumber(n: nat)
    requires 1 <= n <= 5
    ensures RatingToNumber(RatingName(n)) == n
  {
  }

  /** A non-zero result names its word: only the five table words give 1 to 5, one each. */
  lemma RatingNumberDeterminesName(s: string)
    requires RatingToNumber(s) != 0
    ensures s == RatingName(RatingToNumber(s))
  {
  }

  /** `"One"` to `"Five"` give 1 to 5; `"Zero"`, the empty word and other case spellings give 0. */
  lemma RatingExamples()
    ensures RatingToNumber("One") == 1 && RatingToNumber("Two") == 2 && RatingToNumber("Three") == 3
    ensures RatingToNumber("Four") == 4 && RatingToNumber("Five") == 5
    ensures RatingToNumber("Zero") == 0 && RatingToNumber("") == 0 && RatingToNumber("one") == 0
  {
  }
}

/** The seed challenge pool and the experience constants the controller runs on. */
module Constants {
  import opened Types

  /** Experience awarded for each correct answer. */
  const XpPerChallenge: int := 20

  /** Experience needed per level. */
  const XpPerLevel: int := 100

  /** The built-in challenges: every session starts with them, and the first one stands in
      whenever the challenge provider fails. */
  const InitialChallenges: seq<Challenge> := [
    Challenge("1", "Variables", Beginner,
      "What will be the output of this code?",
      "name = \"QuickCode\"\nprint(name)",
      ["\"QuickCode\"", "QuickCode", "name", "Error"],
      "QuickCode",
      "Printing a string variable outputs its contents without quotes."),
    Challenge("2", "Conditions", Beginner,
      "Fill in the blank to check if x is greater than 10.",
      "x = 15\nif x ____ 10:\n    print(\"Large\")",
      ["<", "==", ">", "is"],
      ">",
      "The > operator is used to check if the left value is strictly greater than the right value."),
    Challenge("3", "Lists", Beginner,
      "What is the index of \"Python\" in this list?",
      "languages = [\"C++\", \"Java\", \"Python\"]",
      ["0", "1", "2", "3"],
      "2",
      "In Python, list indexing starts at 0. So \"C++\" is 0, \"Java\" is 1, and \"Python\" is 2."),
    Challenge("4", "Loops", Intermediate,
      "How many times will \"Hello\" be printed?",
      "for i in range(3):\n    print(\"Hello\")",
      ["2", "3", "4", "0"],
      "3",
      "range(3) generates numbers 0, 1, 2, which results in exactly 3 iterations."),
    Challenge("5", "Functions", Intermediate,
      "Complete the function definition.",
      "____ greet(name):\n    return \"Hi \" + name",
      ["func", "define", "def", "function"],
      "def",
      "Python uses the keyword \"def\" to define a function.")
  ]

  /** The seed pool has five entries, so the fallback challenge always exists. */
  lemma SeedPoolSize()
    ensures |InitialChallenges| == 5
  {
  }

  /** The seed identifiers are pairwise distinct. */
  lemma SeedIdsDistinct()
    ensures forall i, j :: 0 <= i < j < |InitialChallenges| ==>
              InitialChallenges[i].id != InitialChallenges[j].id
  {
  }

  /** Every seed challenge has four distinct options, one of which is its (non-empty)
      correct answer. */
  lemma SeedsAnswerable()
    ensures forall c :: c in InitialChallenges ==>
              |c.options| == 4 && Answerable(c) && c.correctAnswer != ""
  {
  }

  /** Both experience constants are positive, so the level formula divides by a positive
      number. */
  lemma XpConstantsPositive()
    ensures XpPerChallenge == 20 && XpPerLevel == 100
    ensures 0 < XpPerChallenge < XpPerLevel
  {
  }
}

/** The fixed selection and scoring rules of a session: how long it lasts, which difficulty
    is requested from the challenge provider, which topics open a lesson, and how the final
    score is classified and shown. */
module Rules {
  import opened Types
  import opened Constants

  /** The number of challenges in one session. */
  const SessionLimit: nat := 8

  /** The topic catalog the challenge provider is asked about, one picked at random. */
  const Topics: seq<string> := ["Loops", "Functions", "Dictionaries", "Classes", "Logic", "Recursion", "Slicing"]

  /** The topics that open a lesson before their challenge. */
  const LessonTopics: seq<string> := ["Functions", "Loops", "Lists", "Dictionaries", "Classes"]

  /** The difficulty requested from the challenge provider for a learner at `level`. */
  function RequestedDifficulty(level: int): (d: Difficulty)
    ensures d == Intermediate <==> level > 3
    ensures d != Advanced
  {
    if level > 3 then Intermediate else Beginner
  }

  /** Whether a challenge on `topic` is preceded by a lesson. */
  predicate OpensLesson(topic: string)
    ensures OpensLesson(topic) <==>
              topic == "Functions" || topic == "Loops" || topic == "Lists" ||
              topic == "Dictionaries" || topic == "Classes"
  {
    topic in LessonTopics
  }

  /** Of the provider's topic catalog, exactly the first four open a lesson; "Lists" opens
      one too but is never requested. */
  lemma CatalogLessons()
    ensures forall i :: 0 <= i < |Topics| ==> (OpensLesson(Topics[i]) <==> i < 4)
    ensures OpensLesson("Lists") && "Lists" !in Topics
  {
  }

  /** Of the seed challenges, the ones on lists, loops and functions open a lesson. */
  lemma SeedLessons()
    ensures forall i :: 0 <= i < |InitialChallenges| ==>
              (OpensLesson(InitialChallenges[i].topic) <==> i >= 2)
  {
  }

  /** The four ordered classes of a final score. */
  datatype Tier = Excellent | VeryGood | NotBad | ReviewNeeded {
    /** Position in the order, best first. */
    function Rank(): nat {
      match this
      case Excellent => 3
      case VeryGood => 2
      case NotBad => 1
      case ReviewNeeded => 0
    }

  }

  /** The tier of a final score of `score` correct answers. */
  function FinalTier(score: int): (t: Tier)
    ensures t == Excellent <==> score == 8
    ensures t == VeryGood <==> score != 8 && score >= 6
    ensures t == NotBad <==> 4 <= score < 6
    ensures t == ReviewNeeded <==> score < 4
  {
    if score == 8 then Excellent
    else if score >= 6 then VeryGood
    else if score >= 4 then NotBad
    else ReviewNeeded
  }

  /** Within a session's range a better score never gets a worse tier. */
  lemma FinalTierMonotone(a: int, b: int)
    requires a <= b <= SessionLimit
    ensures FinalTier(a).Rank() <= FinalTier(b).Rank()
  {
  }

  /** The percentage of correct answers, rounded to the nearest integer with halves rounded
      up: the exact value is a multiple of 12.5, so the binary floating-point computation in
      App.tsx is exact and rounding it half-up is this integer formula. */
  function ScorePercentage(correct: nat): (p: int)
    ensures -(SessionLimit as int) < 2 * SessionLimit * p - 200 * correct <= SessionLimit
    ensures correct <= SessionLimit ==> 0 <= p <= 100
    ensures correct <= SessionLimit ==> (p == 100 <==> correct == SessionLimit)
  {
    (200 * correct + SessionLimit) / (2 * SessionLimit)
  }

  /** The percentage never falls as the score rises. */
  lemma ScorePercentageMonotone(a: nat, b: nat)
    requires a <= b
    ensures ScorePercentage(a) <= ScorePercentage(b)
  {
  }
}

/** The records the quiz controller works on: a challenge, the learner's persisted progress,
    and the outcome of a call to an external provider. */
module Types {

  /** An optional value: a nullable field of App.tsx, or the outcome of a provider call
      (None when the call failed). */
  datatype Option<+T> = None | Some(value: T) {
    /** The carried value, or `default` when there is none. */
    function GetOr(default: T): T {
      match this
      case Some(v) => v
      case None => default
    }
  }

  datatype Difficulty = Beginner | Intermediate | Advanced

  /** One question: a code snippet, its answer options and the authored explanation. */
  datatype Challenge = Challenge(
    id: string,
    topic: string,
    difficulty: Difficulty,
    description: string,
    code: string,
    options: seq<string>,
    correctAnswer: string,
    explanation: string)

  /** The learner's progress record, the only state that outlives a session.
      The numbers are unbounded integers: the record is read back from storage without
      validation, so nothing forces them to be non-negative. */
  datatype UserState = UserState(
    xp: int,
    level: int,
    streak: int,
    lastCompletedDate: Option<string>,
    completedChallenges: seq<string>)

  /** The options of a challenge are pairwise distinct. */
  predicate DistinctOptions(c: Challenge) {
    forall i, j :: 0 <= i < j < |c.options| ==> c.options[i] != c.options[j]
  }

  /** A challenge a learner can answer: its correct answer is one of its options, and no
      option is repeated, so exactly one option is right. */
  predicate Answerable(c: Challenge) {
    c.correctAnswer in c.options && DistinctOptions(c)
  }
}

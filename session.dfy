/** The session controller: a fixed-length run of challenges, the answer check that scores
    them and updates the learner's progress, and the advance step that sources the next
    challenge from the pool, the challenge provider or the fallback seed. */
module Quiz {
  import opened Types
  import opened Constants
  import opened Progress
  import opened Rules

  /** A request made to the challenge provider. */
  datatype ChallengeRequest = ChallengeRequest(topic: string, difficulty: Difficulty)

  /** How the next challenge was found: the challenge, the pool afterwards, and the request
      made to the provider, if one was made. */
  datatype Resolution = Resolution(next: Challenge, pool: seq<Challenge>, request: Option<ChallengeRequest>)

  /** Whether the check handler accepts the current selection: App.tsx tests the
      selected option for truthiness, which rejects both no selection and the empty string. */
  predicate HasSelection(selected: Option<string>)
    ensures HasSelection(selected) <==> selected != None && selected != Some("")
  {
    selected.Some? && selected.value != ""
  }

  function Max(a: int, b: int): int {
    if a < b then b else a
  }

  /** Where the challenge at session index `nextIdx` comes from. A pool entry at that index is
      used as it is. Otherwise the provider is asked for topic `Topics[topicIndex]` at the
      difficulty the learner's level calls for; `generated` is its answer (None when it
      failed). A generated challenge is appended to the pool; on failure the first seed is
      used and the pool stays as it was. */
  function ResolveNext(pool: seq<Challenge>, nextIdx: nat, topicIndex: nat, level: int,
                       generated: Option<Challenge>): (r: Resolution)
    requires topicIndex < |Topics|
    ensures pool <= r.pool && |r.pool| <= |pool| + 1
    ensures |r.pool| == |pool| + 1 <==> nextIdx >= |pool| && generated.Some?
    ensures r.request.Some? <==> nextIdx >= |pool|
    ensures nextIdx >= |pool| ==>
              r.request == Some(ChallengeRequest(Topics[topicIndex], RequestedDifficulty(level)))
    ensures r.request.Some? ==>
              r.request.value.difficulty != Advanced &&
              (r.request.value.difficulty == Intermediate <==> level > 3)
    ensures nextIdx < |pool| ==> r.next == pool[nextIdx] && r.pool == pool
    ensures r.next in r.pool || r.next == InitialChallenges[0]
    ensures generated.Some? && nextIdx >= |pool| ==> r.next == generated.value == r.pool[|pool|]
    ensures generated.None? && nextIdx >= |pool| ==> r.next == InitialChallenges[0] && r.pool == pool
  {
    if nextIdx < |pool| then
      Resolution(pool[nextIdx], pool, None)
    else
      var request := Some(ChallengeRequest(Topics[topicIndex], RequestedDifficulty(level)));
      match generated
      case Some(c) => Resolution(c, pool + [c], request)
      case None => Resolution(InitialChallenges[0], pool, request)
  }

  /** Once the pool is not ahead of the session, it never gets ahead again: the provider is
      asked at the next index too, whatever it answered before. */
  lemma PoolNeverCatchesUp(pool: seq<Challenge>, nextIdx: nat, topicIndex: nat, level: int,
                           generated: Option<Challenge>)
    requires topicIndex < |Topics|
    requires |pool| <= nextIdx
    ensures |ResolveNext(pool, nextIdx, topicIndex, level, generated).pool| <= nextIdx + 1
    ensures ResolveNext(ResolveNext(pool, nextIdx, topicIndex, level, generated).pool,
                        nextIdx + 1, topicIndex, level, generated).request.Some?
  {
  }

  /** After one provider failure the pool no longer lines up with the session: a challenge
      generated for session index 6 lands at pool position 5. */
  lemma FallbackShiftsPool(topicIndex: nat, level: int, c: Challenge)
    requires topicIndex < |Topics|
    ensures var r5 := ResolveNext(InitialChallenges, 5, topicIndex, level, None);
            var r6 := ResolveNext(r5.pool, 6, topicIndex, level, Some(c));
            r5.next == InitialChallenges[0] && |r6.pool| == 6 && r6.pool[5] == c == r6.next
  {
  }

  /** The session state and the learner's progress, as the controller holds them. */
  class Session {
    var user: UserState
    var sessionIndex: nat
    var correctCount: nat
    var sessionChallenges: seq<Challenge>
    var isGameOver: bool
    var currentChallenge: Option<Challenge>
    var showLesson: bool
    var selectedOption: Option<string>
    var showFeedback: bool
    var isCorrect: bool
    var explanation: string

    /** The progress record as it was when this session started. */
    ghost var startUser: UserState

    /** The controller's invariant: the index stays within the session, at most one correct
        answer is counted per index, the session ends only at its last index, the pool is the
        seed pool plus appended challenges and never runs ahead of the session, and the
        record has gained exactly the experience the session has earned. */
    ghost predicate Valid()
      reads this
      ensures Valid() ==> correctCount <= sessionIndex + 1 <= SessionLimit
      ensures Valid() ==> user.xp - startUser.xp == XpEarned(correctCount)
    {
      sessionIndex < SessionLimit &&
      correctCount + (if showFeedback then 0 else 1) <= sessionIndex + 1 &&
      (isGameOver ==> showFeedback && sessionIndex == SessionLimit - 1) &&
      (showFeedback ==> currentChallenge.Some?) &&
      (currentChallenge.Some? <==> sessionChallenges != []) &&
      (sessionChallenges != [] ==>
        |InitialChallenges| <= |sessionChallenges| && sessionChallenges[..|InitialChallenges|] == InitialChallenges) &&
      |sessionChallenges| <= Max(|InitialChallenges|, sessionIndex + 1) &&
      user.xp == startUser.xp + XpEarned(correctCount) &&
      startUser.streak <= user.streak <= startUser.streak + correctCount &&
      (correctCount > 0 ==> LevelConsistent(user)) &&
      (forall x :: x in startUser.completedChallenges ==> x in user.completedChallenges)
    }

    /** The state before the session is initialised: an empty pool and no current challenge. */
    constructor (saved: UserState)
      ensures Valid()
      ensures user == startUser == saved
      ensures sessionIndex == 0 && correctCount == 0 && sessionChallenges == []
      ensures !isGameOver && currentChallenge == None && !showLesson
      ensures selectedOption == None && !showFeedback && !isCorrect && explanation == ""
    {
      user, startUser := saved, saved;
      sessionIndex, correctCount := 0, 0;
      sessionChallenges := [];
      isGameOver := false;
      currentChallenge := None;
      showLesson := false;
      selectedOption := None;
      showFeedback, isCorrect := false, false;
      explanation := "";
    }

    /** Session start: the pool becomes the seed pool, the first seed is presented, and a
        learner who has completed nothing yet gets a lesson first. */
    method InitSession()
      requires Valid()
      modifies this
      ensures Valid()
      ensures sessionChallenges == InitialChallenges
      ensures currentChallenge == Some(InitialChallenges[0])
      ensures showLesson == (old(showLesson) || old(user).completedChallenges == [])
      ensures user == old(user) && startUser == old(startUser)
      ensures sessionIndex == old(sessionIndex) && correctCount == old(correctCount)
      ensures isGameOver == old(isGameOver) && selectedOption == old(selectedOption)
      ensures showFeedback == old(showFeedback) && isCorrect == old(isCorrect)
      ensures explanation == old(explanation)
    {
      sessionChallenges := InitialChallenges;
      currentChallenge := Some(InitialChallenges[0]);
      if |user.completedChallenges| == 0 {
        showLesson := true;
      }
    }

    /** Picking one of the current challenge's options; ignored once the answer is revealed. */
    method SelectOption(option: string)
      requires Valid()
      requires currentChallenge.Some? && option in currentChallenge.value.options
      modifies this
      ensures Valid()
      ensures selectedOption == if old(showFeedback) then old(selectedOption) else Some(option)
      ensures user == old(user) && startUser == old(startUser)
      ensures sessionIndex == old(sessionIndex) && correctCount == old(correctCount)
      ensures sessionChallenges == old(sessionChallenges) && isGameOver == old(isGameOver)
      ensures currentChallenge == old(currentChallenge) && showLesson == old(showLesson)
      ensures showFeedback == old(showFeedback) && isCorrect == old(isCorrect)
      ensures explanation == old(explanation)
    {
      if !showFeedback {
        selectedOption := Some(option);
      }
    }

    /** Checking the selected answer. Without a selection or a current challenge nothing
        happens. Otherwise the answer is revealed and judged; a correct one is counted,
        updates the progress record and shows the authored explanation; a wrong one leaves
        count and record alone and shows the explanation provider's text, or the authored
        explanation when the provider failed (`remedy` is None). */
    method Check(today: string, remedy: Option<string>)
      requires Valid() && !showFeedback
      modifies this
      ensures Valid()
      ensures !HasSelection(old(selectedOption)) || old(currentChallenge).None? ==>
                user == old(user) && correctCount == old(correctCount) && !showFeedback &&
                isCorrect == old(isCorrect) && explanation == old(explanation)
      ensures HasSelection(old(selectedOption)) && old(currentChallenge).Some? ==>
                var c := old(currentChallenge).value;
                var correct := old(selectedOption).value == c.correctAnswer;
                showFeedback && isCorrect == correct &&
                correctCount == old(correctCount) + (if correct then 1 else 0) &&
                user == (if correct then RecordCorrect(old(user), c.id, today) else old(user)) &&
                explanation == (if correct then c.explanation else remedy.GetOr(c.explanation))
      ensures startUser == old(startUser)
      ensures sessionIndex == old(sessionIndex) && sessionChallenges == old(sessionChallenges)
      ensures isGameOver == old(isGameOver) && currentChallenge == old(currentChallenge)
      ensures showLesson == old(showLesson) && selectedOption == old(selectedOption)
    {
      if !HasSelection(selectedOption) || currentChallenge.None? {
        return;
      }
      var c := currentChallenge.value;
      var correct := selectedOption.value == c.correctAnswer;
      isCorrect := correct;
      if correct {
        correctCount := correctCount + 1;
        explanation := c.explanation;
        user := RecordCorrect(user, c.id, today);
      } else {
        match remedy {
          case Some(text) => explanation := text;
          case None => explanation := c.explanation;
        }
      }
      showFeedback := true;
    }

    /** Moving on from a revealed answer. At the last index the session ends and nothing else
        changes. Otherwise the index moves up by one, selection, feedback and explanation are
        cleared, the next challenge is resolved as `ResolveNext` says (`topicIndex` is the
        random topic pick, `generated` the provider's answer), and a lesson is raised when its
        topic calls for one. Returns the request made to the challenge provider, if any. */
    method Advance(topicIndex: nat, generated: Option<Challenge>) returns (request: Option<ChallengeRequest>)
      requires Valid() && showFeedback
      requires topicIndex < |Topics|
      modifies this
      ensures Valid()
      ensures user == old(user) && startUser == old(startUser)
      ensures correctCount == old(correctCount) && isCorrect == old(isCorrect)
      ensures old(sessionIndex) >= SessionLimit - 1 ==>
                isGameOver && request == None && sessionIndex == old(sessionIndex) &&
                sessionChallenges == old(sessionChallenges) &&
                currentChallenge == old(currentChallenge) && showLesson == old(showLesson) &&
                selectedOption == old(selectedOption) && showFeedback &&
                explanation == old(explanation)
      ensures old(sessionIndex) < SessionLimit - 1 ==>
                var r := ResolveNext(old(sessionChallenges), old(sessionIndex) + 1, topicIndex,
                                     old(user).level, generated);
                !isGameOver && sessionIndex == old(sessionIndex) + 1 &&
                selectedOption == None && !showFeedback && explanation == "" &&
                sessionChallenges == r.pool && currentChallenge == Some(r.next) &&
                request == r.request &&
                showLesson == (old(showLesson) || OpensLesson(r.next.topic))
      ensures old(sessionIndex) + 1 >= |InitialChallenges| && old(sessionIndex) < SessionLimit - 1 ==>
                request.Some?
    {
      if sessionIndex >= SessionLimit - 1 {
        isGameOver := true;
        return None;
      }
      request := MoveOn(topicIndex, generated);
    }

    /** The non-final branch of `Advance`: moving to the next index. */
    method MoveOn(topicIndex: nat, generated: Option<Challenge>) returns (request: Option<ChallengeRequest>)
      requires Valid() && showFeedback && sessionIndex < SessionLimit - 1
      requires topicIndex < |Topics|
      modifies this
      ensures Valid()
      ensures user == old(user) && startUser == old(startUser)
      ensures correctCount == old(correctCount) && isCorrect == old(isCorrect)
      ensures var r := ResolveNext(old(sessionChallenges), old(sessionIndex) + 1, topicIndex,
                                   old(user).level, generated);
              !isGameOver && sessionIndex == old(sessionIndex) + 1 &&
              selectedOption == None && !showFeedback && explanation == "" &&
              sessionChallenges == r.pool && currentChallenge == Some(r.next) &&
              request == r.request &&
              showLesson == (old(showLesson) || OpensLesson(r.next.topic))
    {
      selectedOption := None;
      showFeedback := false;
      explanation := "";
      var nextIdx := sessionIndex + 1;
      sessionIndex := nextIdx;

      var next: Challenge;
      if nextIdx < |sessionChallenges| {
        next := sessionChallenges[nextIdx];
        request := None;
      } else {
        request := Some(ChallengeRequest(Topics[topicIndex], RequestedDifficulty(user.level)));
        match generated {
          case Some(c) =>
            next := c;
            assert (sessionChallenges + [c])[..|InitialChallenges|] == sessionChallenges[..|InitialChallenges|];
            sessionChallenges := sessionChallenges + [c];
          case None =>
            next := InitialChallenges[0];
        }
      }
      currentChallenge := Some(next);
      if OpensLesson(next.topic) {
        showLesson := true;
      }
    }

    /** Starting a new session: the session state is rebuilt and initialised, the progress
        record is kept. */
    method Restart()
      modifies this
      ensures Valid()
      ensures user == old(user) && startUser == user
      ensures sessionIndex == 0 && correctCount == 0 && !isGameOver
      ensures sessionChallenges == InitialChallenges && currentChallenge == Some(InitialChallenges[0])
      ensures showLesson == (user.completedChallenges == [])
      ensures selectedOption == None && !showFeedback && !isCorrect && explanation == ""
    {
      startUser := user;
      sessionIndex, correctCount := 0, 0;
      sessionChallenges := [];
      isGameOver := false;
      currentChallenge := None;
      showLesson := false;
      selectedOption := None;
      showFeedback, isCorrect := false, false;
      explanation := "";
      InitSession();
    }
  }

  /** One turn of a learner who always knows the answer: select the correct option of the
      current seed challenge and check it. */
  method AnswerCorrectly(s: Session, today: string)
    requires s.Valid() && !s.showFeedback
    requires s.currentChallenge.Some? && s.currentChallenge.value in InitialChallenges
    modifies s
    ensures s.Valid() && s.showFeedback && s.isCorrect
    ensures s.user == RecordCorrect(old(s.user), old(s.currentChallenge).value.id, today)
    ensures s.correctCount == old(s.correctCount) + 1
    ensures s.startUser == old(s.startUser) && s.sessionIndex == old(s.sessionIndex)
    ensures s.sessionChallenges == old(s.sessionChallenges) && s.isGameOver == old(s.isGameOver)
    ensures s.currentChallenge == old(s.currentChallenge)
  {
    SeedsAnswerable();
    var c := s.currentChallenge.value;
    s.SelectOption(c.correctAnswer);
    s.Check(today, None);
  }

  /** The challenge presented at session index `i` when the challenge provider always fails. */
  function Presented(i: nat): Challenge {
    if i < |InitialChallenges| then InitialChallenges[i] else InitialChallenges[0]
  }

  /** The state of a session for a fresh learner after `turn` correct answers on the day
      `today`, with both providers failing throughout. */
  ghost predicate OnTrack(s: Session, today: string, turn: nat)
    reads s
  {
    s.Valid() && s.startUser == DefaultUser() && turn <= SessionLimit &&
    s.correctCount == turn && s.sessionChallenges == InitialChallenges &&
    s.currentChallenge.Some? && s.currentChallenge.value in InitialChallenges &&
    (turn < SessionLimit ==>
       s.sessionIndex == turn && !s.showFeedback && !s.isGameOver &&
       s.currentChallenge == Some(Presented(turn))) &&
    (turn == SessionLimit ==> s.isGameOver) &&
    (turn == 0 ==> s.user == DefaultUser()) &&
    (turn > 0 ==> s.user.streak == 1 && s.user.lastCompletedDate == Some(today) &&
                  NoDup(s.user.completedChallenges))
  }

  /** One turn of that session: answer the challenge presented at index `turn` correctly,
      then move on with the challenge provider failing. */
  method PlayTurn(s: Session, today: string, turn: nat) returns (presented: Challenge)
    requires OnTrack(s, today, turn) && turn < SessionLimit
    modifies s
    ensures OnTrack(s, today, turn + 1)
    ensures presented == Presented(turn)
  {
    presented := s.currentChallenge.value;
    AnswerCorrectly(s, today);
    var _ := s.Advance(0, None);
  }

  /** A whole session as a client drives it: a learner with a fresh record answers every
      challenge correctly on one day while both providers always fail. Every index past the
      seed pool falls back to the first seed, the session ends after exactly eight checks,
      and the record ends with 160 experience, level 2 and a streak of 1. `shown` lists the
      challenge presented at each index. */
  method PerfectSessionWithoutProvider(today: string)
      returns (record: UserState, score: nat, finished: bool, tier: Tier, percent: int,
               shown: seq<Challenge>)
    ensures finished && score == SessionLimit
    ensures |shown| == SessionLimit && shown[..|InitialChallenges|] == InitialChallenges
    ensures forall i :: |InitialChallenges| <= i < SessionLimit ==> shown[i] == InitialChallenges[0]
    ensures record.xp == XpEarned(score) == 160 && record.level == 2 && record.streak == 1
    ensures record.lastCompletedDate == Some(today) && NoDup(record.completedChallenges)
    ensures tier == Excellent && percent == 100
  {
    var s := new Session(DefaultUser());
    s.InitSession();
    var turn := 0;
    shown := [];
    while turn < SessionLimit
      invariant OnTrack(s, today, turn)
      invariant |shown| == turn
      invariant forall i :: 0 <= i < turn ==> shown[i] == Presented(i)
    {
      var c := PlayTurn(s, today, turn);
      shown := shown + [c];
      turn := turn + 1;
    }
    record, score, finished := s.user, s.correctCount, s.isGameOver;
    tier, percent := FinalTier(score), ScorePercentage(score);
  }
}

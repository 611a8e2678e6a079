# CodeQuiz session controller, in Dafny

CodeQuiz is a quiz application: a learner works through sessions of eight short Python
challenges, picks one of four options, checks the answer, and moves on. Correct answers earn
experience and levels and keep a day streak; wrong answers get a remediation explanation from
a generative-AI service; past the built-in challenges new ones are requested from the same
service. This project models the controller behind that flow — the state and handlers of the
application component in `App.tsx` and the seed data in `constants.tsx` — and proves what it
promises.

- `types.dfy` (module `Types`): the `Challenge` and `UserState` records, `Difficulty`, and an
  `Option` for nullable fields and provider outcomes.
- `constants.dfy` (module `Constants`): the five seed challenges and the experience constants
  (20 per correct answer, 100 per level), with the facts the controller relies on.
- `progress.dfy` (module `Progress`): the pure progress updater applied on each correct answer
  (`RecordCorrect`): experience, level, day streak and the duplicate-free list of completed
  challenges; and what a whole run of correct answers does to the record (`RecordAll`).
- `rules.dfy` (module `Rules`): session length, requested difficulty, the topics that open a
  lesson, the final tier and the score percentage.
- `session.dfy` (module `Quiz`): the class `Session` holding the session state and the
  learner's record, with the handlers as methods: `InitSession` (the mount effect),
  `SelectOption`, `Check`, `Advance` and `Restart`. The pool step of `Advance` is specified by
  the function `ResolveNext`. `PerfectSessionWithoutProvider` drives a whole session as a
  client and proves its outcome.

Each handler is one atomic step. The outcomes of the two AI calls, today's date string and the
random topic index are parameters: `Check(today, remedy)` takes the explanation provider's text
(`None` when it failed), `Advance(topicIndex, generated)` takes the challenge provider's result
(`None` when it failed) and returns the request it would have made.

The class invariant `Session.Valid` keeps: `0 <= sessionIndex < 8`; at most one correct answer
counted per index (so `correctCount <= sessionIndex + 1 <= 8`); the session ends only at index 7;
the pool is the seed pool plus appended challenges and never runs ahead of the session (so
indices 5 to 7 always go to the provider); and the record has gained exactly
`correctCount * 20` experience since the session started, which is the "XP earned" figure shown
at the end.

Behaviour kept as the code has it:
- The streak is never reset; it grows when the date of a correct answer differs from the
  previous one, which counts distinct days only while dates arrive in order.
- A provider failure does not append to the pool, so afterwards pool positions no longer match
  session indices (`FallbackShiftsPool`).
- The check handler has no "already revealed" guard of its own; the interface hides its button
  once feedback shows, which `Check` takes as its precondition. `Advance` likewise requires the
  feedback panel, the only place its button appears.
- `Advance` only raises the lesson flag, never clears it; the mount effect (`InitSession`) raises
  it too. Clearing it is the dismiss button's job, which is left out (see below).
- The check handler tests the selection for truthiness, so an empty-string option is treated
  like no selection (`HasSelection`).
- The completed list is the stored list and the new id with later repeats dropped, in order of
  first occurrence (`DedupKeepsFirstOrder`). A stored
  list with repeats collapses on the next completion and can shrink
  (`AddCompletedCollapsesStoredDuplicates`); lists the controller itself builds have no repeats.
- The record is read back without validation; its numbers are modelled as unbounded integers
  (see "Left out" for the gap to JavaScript numbers). The level
  uses Dafny's `/`, which for the positive divisor 100 rounds down like `Math.floor` in App.tsx.
- The completed challenges are an ordered list, not a set, and the streak counts changes of
  date between consecutive correct answers rather than distinct dates
  (`StreakCountsReturningDates`).

## Model

| member | source | states |
|---|---|---|
| Constants.SeedPoolSize | constants.tsx:4-55 | the seed pool has five challenges, so the fallback seed exists and the pool is shorter than the eight-challenge session |
| Constants.SeedIdsDistinct | constants.tsx:6-46 | the seed identifiers are pairwise distinct |
| Constants.SeedsAnswerable | constants.tsx:11-52 | every seed has four distinct options and its non-empty correct answer is one of them |
| Constants.XpConstantsPositive | constants.tsx:57-58 | 20 xp per correct answer and 100 xp per level, both positive, the reward below the level size |
| Progress.LevelFor | App.tsx:98 | the level is the unique integer with 100 times (level - 1) at most xp and xp below 100 times level |
| Progress.XpEarned | App.tsx:211 | the xp earned is a multiple of 20 whose quotient by 20 is the number of correct answers, non-negative for a non-negative count |
| Progress.AddCompleted | App.tsx:109 | completing an id gives a list without repeats that contains the id |
| Progress.DefaultUser | App.tsx:17-23 | the fresh record has xp 0, a level consistent with it, streak 0, no last date and no completed challenges |
| Progress.Dedup | App.tsx:109 | building a set from a list and listing it gives a duplicate-free list with exactly the same elements, never longer |
| Progress.DedupKeepsFirstOrder | App.tsx:109 | the deduplicated list keeps first-occurrence order: whenever one element precedes another in it, the first occurs in the input before any occurrence of the second |
| Progress.DedupOfNoDup | App.tsx:109 | a list without repeats is unchanged by deduplication |
| Progress.AddCompletedToNoDup | App.tsx:109 | on a list without repeats, completing an id appends it if new and otherwise leaves the list as is, so order is kept and the size never shrinks |
| Progress.AddCompletedIdempotent | App.tsx:109 | completing the same id twice equals completing it once |
| Progress.AddCompletedCollapsesStoredDuplicates | App.tsx:109 | a stored list with the id three times becomes a single entry, so the size can shrink for unvalidated stored data |
| Progress.RecordCorrect | App.tsx:96-111 | a correct answer adds exactly 20 xp, leaves level equal to xp div 100 plus 1, sets the last date to today, raises the streak by one exactly when the last date was not today, and leaves a duplicate-free completed list equal to the old one plus the id |
| Progress.LevelStep | App.tsx:97-98 | from a consistent record, one correct answer raises the level by zero or one |
| Progress.RecordAllEffect | App.tsx:96-111 | after a run of correct answers, xp grew by the xp earned for the run, the streak by the number of date changes, the level matches xp, the last date is the run's last, and the completed list holds exactly the old ids and the run's ids, without repeats |
| Progress.NewDaysAtMostRun | App.tsx:99-101 | the streak never grows by more than the number of correct answers |
| Progress.SameDayNewDays | App.tsx:99-101 | a run of answers on one day counts one date change if the day differs from the last date, none otherwise |
| Progress.SameDayStreak | App.tsx:99-101 | any number of correct answers on one day raise the streak exactly once if the last date was another day and not at all otherwise |
| Progress.StreakCountsReturningDates | App.tsx:99-101 | for two different dates A, B, correct answers on A, B, A raise the streak three times although only two distinct dates occur, or twice when the record's last date already was A |
| Progress.StreakNeverDecreases | App.tsx:100-101 | no run of correct answers lowers the streak: it is never reset |
| Progress.FreshPerfectSession | App.tsx:96-98 | eight correct answers from the fresh record give xp 160 and level 2 |
| Rules.RequestedDifficulty | App.tsx:152 | the provider is asked for Intermediate exactly when the level is above 3 and for Beginner otherwise, never Advanced |
| Rules.OpensLesson | App.tsx:162 | a topic opens a lesson exactly when it is Functions, Loops, Lists, Dictionaries or Classes |
| Rules.CatalogLessons | App.tsx:149-162 | of the seven requestable topics exactly Loops, Functions, Dictionaries and Classes open a lesson; Lists opens one but is never requested |
| Rules.SeedLessons | App.tsx:162 | of the seeds, the Lists, Loops and Functions challenges open a lesson and Variables and Conditions do not |
| Rules.FinalTier | App.tsx:173-184 | the tier is Excellent iff the score is 8, Very Good iff it is not 8 and at least 6, Not Bad iff it is 4 or 5, Review Needed iff below 4 |
| Rules.FinalTierMonotone | App.tsx:173-184 | up to the session length a higher score never gets a lower tier |
| Rules.ScorePercentage | App.tsx:188 | the percentage is within half a point of 100 times correct over 8, halves rounded up; within the session it lies in 0..100 and is 100 iff all 8 were correct |
| Rules.ScorePercentageMonotone | App.tsx:188 | a higher score never shows a lower percentage |
| Quiz.HasSelection | App.tsx:81 | a selection passes the truthiness guard exactly when it is present and not the empty string |
| Quiz.ResolveNext | App.tsx:142-159 | the pool is only appended to, by at most one challenge and only when the provider succeeded for an index past its end; the provider is asked exactly when the index is past the pool's end, for the topic at the drawn index and the level's difficulty, never Advanced; an index inside the pool yields that entry; a provider failure yields the first seed and leaves the pool unchanged |
| Quiz.PoolNeverCatchesUp | App.tsx:144-158 | once the pool is not ahead of the session it stays so, and the provider is asked again at the next index |
| Quiz.FallbackShiftsPool | App.tsx:144-158 | after a failure at index 5, a challenge generated for index 6 lands at pool position 5 |
| Quiz.Session.Valid | App.tsx:26-37 | in a valid session at most one answer per index has been counted, so the count never exceeds the index plus one nor the session length of 8, and the record has gained exactly the xp earned for the count |
| Quiz.Session.constructor | App.tsx:26-37 | the session starts at index 0 with no score, an empty pool, no current challenge, nothing selected or revealed, and the given record |
| Quiz.Session.InitSession | App.tsx:44-57 | the pool becomes the seed pool and the first seed is current; a lesson is raised when nothing has been completed yet; nothing else changes |
| Quiz.Session.SelectOption | App.tsx:308-312 | picking an option of the current challenge selects it unless the answer is already revealed, in which case nothing changes |
| Quiz.Session.Check | App.tsx:80-125 | without a non-empty selection or a current challenge nothing changes; otherwise feedback shows, isCorrect says whether the selection equals the correct answer, a correct answer adds one to the count, applies RecordCorrect and shows the authored explanation, and a wrong one keeps count and record and shows the provider's text or, on failure, the authored explanation |
| Quiz.Session.Advance | App.tsx:127-165 | at the last index only the game-over flag is set; otherwise the index grows by one, selection, feedback and explanation are cleared, pool, current challenge and provider request are those of ResolveNext, and the lesson flag is raised for a lesson topic; moving to indices 5 to 7 always asks the provider; record, count and correctness are kept |
| Quiz.Session.Restart | App.tsx:167-169 | a new session keeps the record and starts again at index 0 with the seed pool, the first seed, no score, and a lesson iff nothing has been completed |
| Quiz.PerfectSessionWithoutProvider | App.tsx:80-188 | with both providers failing, a fresh learner who always answers correctly on one day is shown the five seeds in order and then the first seed at indices 5 to 7 (the returned list of presented challenges), and finishes after eight checks with score 8, xp 160 equal to the xp earned, level 2, streak 1, a duplicate-free completed list, tier Excellent and 100 percent |

## Left out

- Persistence: reading the record from local storage and writing it back after every change
  (App.tsx:15-24, 59-61) is I/O; the constructor takes the loaded record as a parameter.
- The AI services (services/geminiService.ts) are foreign SDK calls; each call's outcome is a
  parameter of `Check` or `Advance`. Their own behaviour (prompt text, the id `ai-<timestamp>`,
  attaching the requested difficulty, the default explanation text) is not part of this model.
- Asynchronous scheduling and the loading flags `isLoading` and `aiLoading` (App.tsx:38-39, 83,
  123, 147, 157), including the disabled state of the check button while loading: each handler
  is one atomic step.
- `Math.random` (App.tsx:150) and `new Date().toDateString()` (App.tsx:99) are parameters: a
  topic index below 7 and a date string.
- The level progress bar `progressPercent` (App.tsx:171) is a floating-point display figure.
- The assistant's mood and message (App.tsx:40-41, 63-77) and the emoji of the final feedback
  are presentation, as are the components RobotBuddy, LessonView, StatBadge and CodeDisplay.
- The lesson buttons that open and dismiss a lesson (App.tsx:267, 295) only toggle the
  displayed view.
- The `Achievement` record in types.ts is not used by the controller.
- The record's xp, level and streak are JavaScript numbers (doubles); they are modelled as
  integers, so fractional or non-numeric stored values and loss of precision above 2^53 are not
  captured.
- Quiz.Session.Restart: models the page reload as a fresh session with the same record; the
  real reload re-reads the record from storage, which holds that same record.

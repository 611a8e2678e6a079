/** The progress policy applied on every correct answer: the pure updater the controller
    hands to its progress-state setter, and what a run of correct answers does to the record. */
module Progress {
  import opened Types
  import opened Constants

  /** The record of a learner who has never played. */
  function DefaultUser(): (u: UserState)
    ensures u.xp == 0 && LevelConsistent(u) && u.streak == 0
    ensures u.lastCompletedDate == None && u.completedChallenges == []
  {
    UserState(0, 1, 0, None, [])
  }

  /** The level that goes with an amount of experience. Dafny's `/` on a positive divisor
      rounds down, as `Math.floor` of the quotient does, negative xp included. */
  function LevelFor(xp: int): (level: int)
    ensures XpPerLevel * (level - 1) <= xp < XpPerLevel * level
  {
    xp / XpPerLevel + 1
  }

  /** The record's level is the one its experience implies. */
  predicate LevelConsistent(u: UserState) {
    u.level == LevelFor(u.xp)
  }

  /** No element occurs twice. */
  predicate NoDup<T(==)>(s: seq<T>) {
    forall i, j :: 0 <= i < j < |s| ==> s[i] != s[j]
  }

  /** The elements of `s` in the order of their first occurrence, each once: what building a
      set from a list and listing it again yields. */
  function Dedup<T(==,!new)>(s: seq<T>): (r: seq<T>)
    ensures NoDup(r)
    ensures forall x :: x in r <==> x in s
    ensures |r| <= |s|
    decreases |s|
  {
    if s == [] then []
    else
      var d := Dedup(s[..|s| - 1]);
      if s[|s| - 1] in d then d else d + [s[|s| - 1]]
  }

  /** The completed-challenge list after completing `id`: the duplicate-free union of the
      list and the new id. */
  function AddCompleted(ids: seq<string>, id: string): (r: seq<string>)
    ensures NoDup(r)
    ensures forall x :: x in r <==> x in ids || x == id
  {
    Dedup(ids + [id])
  }

  /** The record after one correct answer on the day `today`. */
  function RecordCorrect(prev: UserState, id: string, today: string): (u: UserState)
    ensures u.xp == prev.xp + XpPerChallenge
    ensures LevelConsistent(u)
    ensures u.lastCompletedDate == Some(today)
    ensures u.streak == if prev.lastCompletedDate == Some(today) then prev.streak else prev.streak + 1
    ensures u.completedChallenges == AddCompleted(prev.completedChallenges, id)
    ensures NoDup(u.completedChallenges)
  {
    var newXp := prev.xp + XpPerChallenge;
    var newStreak := if prev.lastCompletedDate != Some(today) then prev.streak + 1 else prev.streak;
    prev.(xp := newXp, level := LevelFor(newXp), streak := newStreak,
          lastCompletedDate := Some(today),
          completedChallenges := AddCompleted(prev.completedChallenges, id))
  }

  /** Experience earned by `correct` correct answers. */
  function XpEarned(correct: int): (x: int)
    ensures x % XpPerChallenge == 0
    ensures correct >= 0 ==> x >= 0
    ensures x / XpPerChallenge == correct
  {
    correct * XpPerChallenge
  }

  // ----- the completed-challenge list -----

  /** Deduplicating a list with one more element at the end keeps the old result and adds
      the element only if it was new. */
  lemma DedupSnoc<T(!new)>(s: seq<T>, x: T)
    ensures Dedup(s + [x]) == if x in Dedup(s) then Dedup(s) else Dedup(s) + [x]
  {
  }

  /** `x` occurs in `s` before the first occurrence of `y`. */
  ghost predicate Before<T>(s: seq<T>, x: T, y: T) {
    exists a :: 0 <= a < |s| && s[a] == x && y !in s[..a + 1]
  }

  /** A prefix-extension keeps `Before`: an order seen in `init` still holds in any list
      that starts with `init`. */
  lemma BeforeExtends<T>(init: seq<T>, s: seq<T>, x: T, y: T)
    requires init <= s && Before(init, x, y)
    ensures Before(s, x, y)
  {
    var a :| 0 <= a < |init| && init[a] == x && y !in init[..a + 1];
    assert s[..a + 1] == init[..a + 1];
  }

  /** An element that first appears at the end of `s` comes after everything before it. */
  lemma BeforeLast<T>(s: seq<T>, x: T)
    requires |s| > 0 && x in s[..|s| - 1] && s[|s| - 1] !in s[..|s| - 1]
    ensures Before(s, x, s[|s| - 1])
  {
    var init := s[..|s| - 1];
    var a :| 0 <= a < |init| && init[a] == x;
    assert s[..a + 1] == init[..a + 1];
    assert s[..a + 1] <= init;
  }

  /** Deduplication keeps the order of first occurrences: of any two elements of the result,
      the earlier one occurs in the input before the later one first does. */
  lemma {:induction false} DedupKeepsFirstOrder<T(!new)>(s: seq<T>)
    ensures forall i, j :: 0 <= i < j < |Dedup(s)| ==> Before(s, Dedup(s)[i], Dedup(s)[j])
    decreases |s|
  {
    if s != [] {
      var init := s[..|s| - 1];
      var d := Dedup(init);
      DedupKeepsFirstOrder(init);
      assert init <= s;
      forall i, j | 0 <= i < j < |Dedup(s)|
        ensures Before(s, Dedup(s)[i], Dedup(s)[j])
      {
        if j < |d| {
          BeforeExtends(init, s, d[i], d[j]);
        } else {
          BeforeLast(s, d[i]);
        }
      }
    }
  }

  /** A list without duplicates is its own deduplication. */
  lemma {:induction false} DedupOfNoDup<T(!new)>(s: seq<T>)
    requires NoDup(s)
    ensures Dedup(s) == s
  {
    if s != [] {
      var init := s[..|s| - 1];
      assert NoDup(init);
      DedupOfNoDup(init);
      assert s[|s| - 1] !in init;
      assert init + [s[|s| - 1]] == s;
    }
  }

  /** On a duplicate-free list, completing an id appends it when it is new and leaves the
      list alone when it is already there: order is kept and the size never shrinks. */
  lemma AddCompletedToNoDup(ids: seq<string>, id: string)
    requires NoDup(ids)
    ensures AddCompleted(ids, id) == if id in ids then ids else ids + [id]
    ensures |AddCompleted(ids, id)| >= |ids|
  {
    DedupSnoc(ids, id);
    DedupOfNoDup(ids);
  }

  /** Completing the same id twice is the same as completing it once. */
  lemma AddCompletedIdempotent(ids: seq<string>, id: string)
    ensures AddCompleted(AddCompleted(ids, id), id) == AddCompleted(ids, id)
  {
    AddCompletedToNoDup(AddCompleted(ids, id), id);
  }

  /** A list read back from storage with repeated ids collapses on the next completion: the
      size can shrink when the stored list was not duplicate-free. */
  lemma AddCompletedCollapsesStoredDuplicates(id: string)
    ensures AddCompleted([id, id, id], id) == [id]
  {
    var one := [id];
    DedupOfNoDup(one);
    DedupSnoc(one, id);
    assert one + [id] == [id, id];
    DedupSnoc([id, id], id);
    assert [id, id] + [id] == [id, id, id];
    DedupSnoc([id, id, id], id);
  }

  // ----- the level -----

  /** One correct answer raises the level of a consistent record by at most one. */
  lemma LevelStep(u: UserState, id: string, today: string)
    requires LevelConsistent(u)
    ensures u.level <= RecordCorrect(u, id, today).level <= u.level + 1
  {
  }

  // ----- a run of correct answers -----

  /** One correct answer: the challenge answered and the date it was answered on. */
  datatype Completion = Completion(id: string, date: string)

  /** The record after a run of correct answers, applied in order. */
  function RecordAll(u: UserState, run: seq<Completion>): UserState
    decreases |run|
  {
    if run == [] then u else RecordAll(RecordCorrect(u, run[0].id, run[0].date), run[1..])
  }

  /** The number of answers in a run whose date differs from the date of the answer before
      it (for the first one, from `last`). */
  function NewDays(last: Option<string>, run: seq<Completion>): nat
    decreases |run|
  {
    if run == [] then 0
    else (if last == Some(run[0].date) then 0 else 1) + NewDays(Some(run[0].date), run[1..])
  }

  /** What a run of correct answers does to the record: experience grows by the reward per
      answer, the streak grows once for every change of date, the level follows the
      experience, the last date is the run's last date, and the completed list is the
      duplicate-free union of the old list and the run's ids. */
  lemma {:induction false} RecordAllEffect(u: UserState, run: seq<Completion>)
    ensures RecordAll(u, run).xp == u.xp + XpEarned(|run|)
    ensures RecordAll(u, run).streak == u.streak + NewDays(u.lastCompletedDate, run)
    ensures run != [] ==> LevelConsistent(RecordAll(u, run))
    ensures run != [] ==> RecordAll(u, run).lastCompletedDate == Some(run[|run| - 1].date)
    ensures run != [] ==> NoDup(RecordAll(u, run).completedChallenges)
    ensures forall x :: x in RecordAll(u, run).completedChallenges <==>
              x in u.completedChallenges || exists k :: 0 <= k < |run| && run[k].id == x
    decreases |run|
  {
    if run != [] {
      var u1 := RecordCorrect(u, run[0].id, run[0].date);
      RecordAllEffect(u1, run[1..]);
      forall x
        ensures x in RecordAll(u, run).completedChallenges <==>
                  x in u.completedChallenges || exists k :: 0 <= k < |run| && run[k].id == x
      {
        if exists k :: 0 <= k < |run| && run[k].id == x {
          var k :| 0 <= k < |run| && run[k].id == x;
          if k > 0 { assert run[1..][k - 1].id == x; }
        }
        if exists k :: 0 <= k < |run[1..]| && run[1..][k].id == x {
          var k :| 0 <= k < |run[1..]| && run[1..][k].id == x;
          assert run[k + 1].id == x;
        }
      }
    }
  }

  /** The streak never grows by more than the number of correct answers. */
  lemma {:induction false} NewDaysAtMostRun(last: Option<string>, run: seq<Completion>)
    ensures NewDays(last, run) <= |run|
    decreases |run|
  {
    if run != [] {
      NewDaysAtMostRun(Some(run[0].date), run[1..]);
    }
  }

  /** Any number of correct answers on one day raise the streak at most once: exactly once
      when the record's last date was another day, not at all when it was that day. */
  lemma SameDayStreak(u: UserState, run: seq<Completion>, day: string)
    requires forall k :: 0 <= k < |run| ==> run[k].date == day
    ensures RecordAll(u, run).streak ==
              u.streak + (if run != [] && u.lastCompletedDate != Some(day) then 1 else 0)
  {
    RecordAllEffect(u, run);
    SameDayNewDays(u.lastCompletedDate, run, day);
  }

  /** The date-change count of a run on a single day: one if the day differs from `last`,
      none otherwise. */
  lemma {:induction false} SameDayNewDays(last: Option<string>, run: seq<Completion>, day: string)
    requires forall k :: 0 <= k < |run| ==> run[k].date == day
    ensures NewDays(last, run) == if run != [] && last != Some(day) then 1 else 0
    decreases |run|
  {
    if run != [] {
      SameDayNewDays(Some(day), run[1..], day);
    }
  }

  /** The streak counts changes of date, not distinct dates: answers on day `a`, then `b`,
      then `a` again raise it three times although only two dates occur, or twice when the
      record's last date already was `a`. */
  lemma StreakCountsReturningDates(u: UserState, a: string, b: string)
    requires a != b
    ensures var run := [Completion("1", a), Completion("2", b), Completion("3", a)];
            RecordAll(u, run).streak == u.streak + (if u.lastCompletedDate == Some(a) then 2 else 3)
  {
    var run := [Completion("1", a), Completion("2", b), Completion("3", a)];
    var tail := [Completion("2", b), Completion("3", a)];
    assert run[1..] == tail && tail[1..] == [Completion("3", a)];
    assert NewDays(Some(b), [Completion("3", a)]) == 1;
    assert NewDays(Some(a), tail) == 2;
    RecordAllEffect(u, run);
  }

  /** The streak is never reset: a run of correct answers never lowers it, whatever the
      dates. */
  lemma StreakNeverDecreases(u: UserState, run: seq<Completion>)
    ensures RecordAll(u, run).streak >= u.streak
  {
    RecordAllEffect(u, run);
  }

  /** Eight correct answers from a fresh record give 160 experience and level 2. */
  lemma FreshPerfectSession(run: seq<Completion>)
    requires |run| == 8
    ensures RecordAll(DefaultUser(), run).xp == 160
    ensures RecordAll(DefaultUser(), run).level == 2
  {
    RecordAllEffect(DefaultUser(), run);
  }
}

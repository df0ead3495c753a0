/**
 * The `DailySubmission` collection: one stored record per completion, the schema that
 * decides which documents may be stored, and the `pre('save')` hook that gives a new
 * completed record its streak. Dates are day numbers (midnight of a local calendar
 * day); `submissionTime` is in milliseconds.
 */
module DailySubmission {
  import opened Common

  /** The `difficulty` enum of the schema. */
  datatype Difficulty = Easy | Medium | Hard

  function DifficultyOf(s: string): (d: Option<Difficulty>)
    ensures d.Some? <==> s in {"Easy", "Medium", "Hard"}
  {
    if s == "Easy" then Some(Easy)
    else if s == "Medium" then Some(Medium)
    else if s == "Hard" then Some(Hard)
    else None
  }

  /** A stored document. */
  datatype Record = Record(
    guildId: string,
    userId: string,
    leetcodeUsername: string,
    date: int,
    questionTitle: string,
    questionSlug: string,
    difficulty: Difficulty,
    submissionTime: int,
    completed: bool,
    streakCount: int)

  /** The object handed to `DailySubmission.create`: any field may be missing. */
  datatype Draft = Draft(
    guildId: Option<string>,
    userId: Option<string>,
    leetcodeUsername: Option<string>,
    date: Option<int>,
    questionTitle: Option<string>,
    questionSlug: Option<string>,
    difficulty: Option<string>,
    submissionTime: Option<int>,
    completed: Option<bool>,
    streakCount: Option<int>)

  /** A `required` String path rejects a missing value and the empty string. */
  predicate RequiredString(s: Option<string>) {
    Truthy(s)
  }

  /** The schema's constraints on a draft (after defaults). */
  predicate SatisfiesSchema(d: Draft) {
    && RequiredString(d.guildId)
    && RequiredString(d.userId)
    && RequiredString(d.leetcodeUsername)
    && d.date.Some?
    && RequiredString(d.questionTitle)
    && RequiredString(d.questionSlug)
    && d.difficulty.Some? && d.difficulty.value in {"Easy", "Medium", "Hard"}
    && d.submissionTime.Some?
  }

  /**
   * Mongoose document validation: defaults are applied (`completed` false,
   * `streakCount` 0), then every path is checked in schema order.
   */
  function Validate(d: Draft): (r: Result<Record>)
    ensures r.Ok? <==> SatisfiesSchema(d)
    ensures r.Ok? ==>
      && r.value.guildId == d.guildId.value && r.value.userId == d.userId.value
      && r.value.leetcodeUsername == d.leetcodeUsername.value && r.value.date == d.date.value
      && r.value.questionTitle == d.questionTitle.value && r.value.questionSlug == d.questionSlug.value
      && DifficultyOf(d.difficulty.value) == Some(r.value.difficulty)
      && r.value.submissionTime == d.submissionTime.value
      && r.value.completed == d.completed.GetOr(false)
      && r.value.streakCount == d.streakCount.GetOr(0)
  {
    if !RequiredString(d.guildId) then Err("Path `guildId` is required.")
    else if !RequiredString(d.userId) then Err("Path `userId` is required.")
    else if !RequiredString(d.leetcodeUsername) then Err("Path `leetcodeUsername` is required.")
    else if d.date.None? then Err("Path `date` is required.")
    else if !RequiredString(d.questionTitle) then Err("Path `questionTitle` is required.")
    else if !RequiredString(d.questionSlug) then Err("Path `questionSlug` is required.")
    else if d.difficulty.None? then Err("Path `difficulty` is required.")
    else if DifficultyOf(d.difficulty.value).None? then Err("`" + d.difficulty.value + "` is not a valid enum value for path `difficulty`.")
    else if d.submissionTime.None? then Err("Path `submissionTime` is required.")
    else
      Ok(Record(d.guildId.value, d.userId.value, d.leetcodeUsername.value, d.date.value,
                d.questionTitle.value, d.questionSlug.value, DifficultyOf(d.difficulty.value).value,
                d.submissionTime.value, d.completed.GetOr(false), d.streakCount.GetOr(0)))
  }

  /** Leaving `completed` and `streakCount` out of a valid draft gives `false` and 0. */
  lemma DefaultsApply(d: Draft)
    requires SatisfiesSchema(d) && d.completed.None? && d.streakCount.None?
    ensures Validate(d).Ok? && !Validate(d).value.completed && Validate(d).value.streakCount == 0
  {
  }

  // ---------------------------------------------------------------------------
  // Queries over the stored records

  /**
   * The filter of the existence check before a create: same guild, member, LeetCode
   * user and question, dated inside the 24-hour window of `day`.
   */
  predicate IsDailyMatch(r: Record, guildId: string, userId: string, username: string, slug: string, day: int) {
    r.guildId == guildId && r.userId == userId && r.leetcodeUsername == username
    && r.questionSlug == slug && r.date == day
  }

  predicate HasDailyRecord(rs: seq<Record>, guildId: string, userId: string, username: string, slug: string, day: int) {
    exists i :: 0 <= i < |rs| && IsDailyMatch(rs[i], guildId, userId, username, slug, day)
  }

  /** At most one record per (guild, member, LeetCode user, question, day). */
  predicate OnePerDay(rs: seq<Record>) {
    forall i, j :: 0 <= i < j < |rs| ==>
      !IsDailyMatch(rs[j], rs[i].guildId, rs[i].userId, rs[i].leetcodeUsername, rs[i].questionSlug, rs[i].date)
  }

  /** Inserting a record whose key has no record yet keeps at most one record per key. */
  lemma AppendAbsentKeepsOnePerDay(rs: seq<Record>, r: Record)
    requires OnePerDay(rs)
    requires !HasDailyRecord(rs, r.guildId, r.userId, r.leetcodeUsername, r.questionSlug, r.date)
    ensures OnePerDay(rs + [r])
  {
    var rs' := rs + [r];
    forall i, j | 0 <= i < j < |rs'|
      ensures !IsDailyMatch(rs'[j], rs'[i].guildId, rs'[i].userId, rs'[i].leetcodeUsername, rs'[i].questionSlug, rs'[i].date)
    {
      if j == |rs| {
        assert rs'[i] == rs[i] && rs'[j] == r;
        assert !IsDailyMatch(rs[i], r.guildId, r.userId, r.leetcodeUsername, r.questionSlug, r.date);
      } else {
        assert rs'[i] == rs[i] && rs'[j] == rs[j];
      }
    }
  }

  /** Records are only ever appended, so a record of the day, once stored, stays found. */
  lemma HasDailyRecordGrows(rs: seq<Record>, rs': seq<Record>, guildId: string, userId: string, username: string, slug: string, day: int)
    requires rs <= rs' && HasDailyRecord(rs, guildId, userId, username, slug, day)
    ensures HasDailyRecord(rs', guildId, userId, username, slug, day)
  {
    var i :| 0 <= i < |rs| && IsDailyMatch(rs[i], guildId, userId, username, slug, day);
    assert rs'[i] == rs[i];
  }

  /** The pre-save hook's query: a completed record of the same member and guild dated the day before. */
  predicate IsPreviousDay(p: Record, doc: Record) {
    p.userId == doc.userId && p.guildId == doc.guildId && p.completed && p.date == doc.date - 1
  }

  predicate HasPreviousDay(rs: seq<Record>, doc: Record) {
    exists i :: 0 <= i < |rs| && IsPreviousDay(rs[i], doc)
  }

  /**
   * The streaks the hook may give `doc`: one more than the streak of some record of
   * the previous day (the query has no sort, so any of them), or 1 when there is none.
   */
  predicate WriteTimeStreak(rs: seq<Record>, doc: Record, s: int) {
    if HasPreviousDay(rs, doc) then
      exists i :: 0 <= i < |rs| && IsPreviousDay(rs[i], doc) && s == rs[i].streakCount + 1
    else
      s == 1
  }

  /** Every stored completed record carries a positive streak. */
  predicate StreaksPositive(rs: seq<Record>) {
    forall i :: 0 <= i < |rs| && rs[i].completed ==> rs[i].streakCount >= 1
  }

  /** The hook keeps streaks positive: a new completed record continues a positive streak or starts at 1. */
  lemma WriteTimeStreakPreservesPositive(rs: seq<Record>, doc: Record, s: int)
    requires StreaksPositive(rs) && doc.completed && WriteTimeStreak(rs, doc, s)
    ensures s >= 1
    ensures StreaksPositive(rs + [doc.(streakCount := s)])
  {
    var rs' := rs + [doc.(streakCount := s)];
    forall i | 0 <= i < |rs'| && rs'[i].completed
      ensures rs'[i].streakCount >= 1
    {
      if i < |rs| {
        assert rs'[i] == rs[i];
      }
    }
  }

  /** When every record of the previous day carries streak `prev`, the new streak is `prev + 1`. */
  lemma WriteTimeStreakContinues(rs: seq<Record>, doc: Record, s: int, prev: int)
    requires HasPreviousDay(rs, doc)
    requires forall i :: 0 <= i < |rs| && IsPreviousDay(rs[i], doc) ==> rs[i].streakCount == prev
    requires WriteTimeStreak(rs, doc, s)
    ensures s == prev + 1
  {
  }

  /** The streak a caller puts into a completed draft has no effect on what the hook assigns. */
  lemma WriteTimeStreakIgnoresCaller(rs: seq<Record>, doc: Record, callerStreak: int, s: int)
    ensures WriteTimeStreak(rs, doc.(streakCount := callerStreak), s) <==> WriteTimeStreak(rs, doc, s)
  {
    assert forall p :: IsPreviousDay(p, doc.(streakCount := callerStreak)) <==> IsPreviousDay(p, doc);
  }

  /** The collection, a sequence of records in insertion order. */
  class Store {
    var records: seq<Record>

    constructor ()
      ensures records == []
    {
      records := [];
    }

    /**
     * The `pre('save')` hook: a new completed document gets the streak of a completed
     * record of the same member and guild dated the day before, plus one, or 1; any
     * other save keeps the document's `streakCount`.
     */
    method PreSave(doc: Record, isNew: bool) returns (saved: Record)
      ensures !(isNew && doc.completed) ==> saved == doc
      ensures isNew && doc.completed ==>
        saved == doc.(streakCount := saved.streakCount) && WriteTimeStreak(records, doc, saved.streakCount)
    {
      saved := doc;
      if isNew && doc.completed {
        if i :| 0 <= i < |records| && IsPreviousDay(records[i], doc) {
          saved := doc.(streakCount := records[i].streakCount + 1);
        } else {
          saved := doc.(streakCount := 1);
        }
      }
    }

    /**
     * `DailySubmission.create(draft)`: validation, then the pre-save hook for a new
     * document, then the insert. A draft that fails validation stores nothing.
     */
    method Create(d: Draft) returns (r: Result<Record>)
      modifies this
      ensures Validate(d).Err? ==> r == Validate(d) && records == old(records)
      ensures Validate(d).Ok? ==>
        && r.Ok? && records == old(records) + [r.value]
        && r.value == Validate(d).value.(streakCount := r.value.streakCount)
        && (r.value.completed ==> WriteTimeStreak(old(records), r.value, r.value.streakCount))
        && (!r.value.completed ==> r.value.streakCount == Validate(d).value.streakCount)
      ensures StreaksPositive(old(records)) ==> StreaksPositive(records)
    {
      var v := Validate(d);
      if v.Err? {
        return v;
      }
      var saved := PreSave(v.value, true);
      if saved.completed {
        WriteTimeStreakIgnoresCaller(records, saved, v.value.streakCount, saved.streakCount);
        if StreaksPositive(records) {
          WriteTimeStreakPreservesPositive(records, saved, saved.streakCount);
        }
      }
      records := records + [saved];
      r := Ok(saved);
    }
  }
}

/**
 * The LeetCode-facing helpers: deciding from a member's recent submissions whether
 * today's problem was solved, the write path that records a solve at most once per
 * day, and the on-demand status report that combines the two. The HTTP calls are
 * oracles: the daily slug and the problem details arrive as `Result`s, and each
 * member's submission list as a `Feed`.
 */
module ApiUtils {
  import opened Common
  import opened SubmissionTime
  import opened DailySubmission
  import StatsUtils

  /** One entry of a member's recent submissions. */
  datatype Submission = Submission(titleSlug: string, statusDisplay: string, timestamp: Option<string>)

  /** What `getUserSubmissions(username)` gives: it throws, it returns an empty body, or it returns a list. */
  datatype Feed = FetchFailed | NoBody | Listed(subs: seq<Submission>)

  const Accepted: string := "Accepted"

  /** The test both `checkUser` and the status report apply to a submission. */
  predicate IsAcceptedFor(s: Submission, slug: string) {
    s.titleSlug == slug && s.statusDisplay == Accepted
  }

  predicate HasAccepted(subs: seq<Submission>, slug: string) {
    exists i :: 0 <= i < |subs| && IsAcceptedFor(subs[i], slug)
  }

  /** The first accepted submission of the slug in the list, as the report's search picks it (modules/apiUtils.js:95-98). */
  function FindAccepted(subs: seq<Submission>, slug: string): (f: Option<Submission>)
    ensures f.None? <==> !HasAccepted(subs, slug)
    ensures f.Some? ==> exists i :: (0 <= i < |subs| && subs[i] == f.value && IsAcceptedFor(f.value, slug)
      && forall j :: 0 <= j < i ==> !IsAcceptedFor(subs[j], slug))
  {
    if subs == [] then None
    else if IsAcceptedFor(subs[0], slug) then
      assert subs[0] == subs[0];
      Some(subs[0])
    else
      var rest := FindAccepted(subs[1..], slug);
      assert forall i :: 0 <= i < |subs| - 1 ==> subs[1..][i] == subs[i + 1];
      if rest.Some? then
        var k :| 0 <= k < |subs[1..]| && subs[1..][k] == rest.value && IsAcceptedFor(rest.value, slug)
          && forall j :: 0 <= j < k ==> !IsAcceptedFor(subs[1..][j], slug);
        assert subs[k + 1] == rest.value;
        rest
      else
        rest
  }

  /** The feed lists an accepted submission of the slug. */
  predicate Solved(feed: Feed, slug: string) {
    feed.Listed? && FindAccepted(feed.subs, slug).Some?
  }

  /**
   * `checkUser(username, slug)` given what the submissions request returned: a failed
   * request or an empty body makes it throw, otherwise it is `some` over the list.
   */
  function CheckUser(feed: Feed, slug: string): (r: Result<bool>)
    ensures r.Ok? <==> feed.Listed?
    ensures r.Ok? ==> (r.value <==> HasAccepted(feed.subs, slug))
  {
    match feed
    case FetchFailed => Err("request failed")
    case NoBody => Err("Cannot read properties of null")
    case Listed(subs) => Ok(HasAccepted(subs, slug))
  }

  /** `checkUser`'s test for some accepted submission and the status report's search for the first one agree on every listed feed. */
  lemma CheckUserAgreesWithFind(subs: seq<Submission>, slug: string)
    ensures CheckUser(Listed(subs), slug) == Ok(FindAccepted(subs, slug).Some?)
  {
  }

  // ---------------------------------------------------------------------------
  // The idempotent write path

  /** The fields of the problem-details response the bot reads; `acRate` is the parsed `stats`. */
  datatype ProblemDetails = ProblemDetails(
    title: Option<string>,
    difficulty: Option<string>,
    topicTags: Option<seq<string>>,
    acRate: string,
    url: Option<string>)

  /** When the schema accepts a solve draft: every identifying string non-empty, a title, a known difficulty. */
  predicate Recordable(guildId: string, userId: string, username: string, slug: string, problem: ProblemDetails) {
    guildId != "" && userId != "" && username != "" && slug != ""
    && Truthy(problem.title)
    && problem.difficulty.Some? && problem.difficulty.value in {"Easy", "Medium", "Hard"}
  }

  /**
   * The object both check paths hand to the collection's create (modules/apiUtils.js:123-134):
   * the schema accepts it exactly when it is recordable, the time and streak playing no
   * part, and the record it validates to is a completed record of this member, question
   * and day with the given submission time.
   */
  function SolveDraft(guildId: string, userId: string, username: string, slug: string,
                      problem: ProblemDetails, submissionTime: int, today: int, streak: int): (d: Draft)
    ensures SatisfiesSchema(d) <==> Recordable(guildId, userId, username, slug, problem)
    ensures Validate(d).Ok? ==>
      && IsDailyMatch(Validate(d).value, guildId, userId, username, slug, today)
      && Validate(d).value.completed
      && Validate(d).value.submissionTime == submissionTime
      && Validate(d).value.questionTitle == problem.title.value
  {
    Draft(Some(guildId), Some(userId), Some(username), Some(today), problem.title, Some(slug),
          problem.difficulty, Some(submissionTime), Some(true), Some(streak))
  }

  datatype WriteOutcome = AlreadyRecorded | Recorded(record: Record) | CreateFailed(error: string)

  /**
   * The shared body of both check paths for a member with an accepted submission:
   * look for a record of the day; if there is none, resolve the submission time,
   * compute the read-time streak for the draft and create the record (the hook then
   * replaces that streak). A draft the schema refuses makes `create` throw, which
   * both callers catch.
   */
  method RecordIfAbsent(store: Store, guildId: string, userId: string, username: string, slug: string,
                        problem: ProblemDetails, sub: Submission, today: int, nowMs: int,
                        parseDate: string -> Option<int>)
    returns (outcome: WriteOutcome)
    modifies store
    ensures HasDailyRecord(old(store.records), guildId, userId, username, slug, today) ==>
      outcome == AlreadyRecorded && store.records == old(store.records)
    ensures (!HasDailyRecord(old(store.records), guildId, userId, username, slug, today)
      && !Recordable(guildId, userId, username, slug, problem)) ==>
      outcome.CreateFailed? && store.records == old(store.records)
    ensures (!HasDailyRecord(old(store.records), guildId, userId, username, slug, today)
      && Recordable(guildId, userId, username, slug, problem)) ==>
      && outcome.Recorded?
      && store.records == old(store.records) + [outcome.record]
      && IsDailyMatch(outcome.record, guildId, userId, username, slug, today)
      && outcome.record.completed
      && outcome.record.questionTitle == problem.title.value
      && DifficultyOf(problem.difficulty.value) == Some(outcome.record.difficulty)
      && outcome.record.submissionTime == ParseSubmissionTime(sub.timestamp, nowMs, parseDate)
      && WriteTimeStreak(old(store.records), outcome.record, outcome.record.streakCount)
    ensures old(store.records) <= store.records
    ensures outcome.CreateFailed? || HasDailyRecord(store.records, guildId, userId, username, slug, today)
    ensures OnePerDay(old(store.records)) ==> OnePerDay(store.records)
    ensures StreaksPositive(old(store.records)) ==> StreaksPositive(store.records)
  {
    if i :| 0 <= i < |store.records| && IsDailyMatch(store.records[i], guildId, userId, username, slug, today) {
      return AlreadyRecorded;
    }
    var submissionTime := ParseSubmissionTime(sub.timestamp, nowMs, parseDate);
    var streak := StatsUtils.CalculateStreak(store.records, userId, guildId, today);
    var draft := SolveDraft(guildId, userId, username, slug, problem, submissionTime, today, streak);
    ghost var before := store.records;
    var created := store.Create(draft);
    match created
    case Err(e) =>
      outcome := CreateFailed(e);
    case Ok(r) =>
      assert IsDailyMatch(r, guildId, userId, username, slug, today);
      if OnePerDay(before) {
        AppendAbsentKeepsOnePerDay(before, r);
      }
      assert store.records[|before|] == r;
      outcome := Recorded(r);
  }

  /**
   * The part of a member's callback after the feed is in: when it lists an accepted
   * submission of the slug, the write path runs for that submission; otherwise
   * nothing is written.
   */
  method RecordIfSolved(store: Store, guildId: string, userId: string, username: string, feed: Feed, slug: string,
                        problem: ProblemDetails, today: int, nowMs: int, parseDate: string -> Option<int>)
    modifies store
    ensures old(store.records) <= store.records
    ensures !Solved(feed, slug) ==> store.records == old(store.records)
    ensures forall j :: |old(store.records)| <= j < |store.records| ==>
      IsDailyMatch(store.records[j], guildId, userId, username, slug, today)
    ensures Solved(feed, slug) && Recordable(guildId, userId, username, slug, problem) ==>
      HasDailyRecord(store.records, guildId, userId, username, slug, today)
    ensures OnePerDay(old(store.records)) ==> OnePerDay(store.records)
    ensures StreaksPositive(old(store.records)) ==> StreaksPositive(store.records)
  {
    if feed.Listed? {
      var found := FindAccepted(feed.subs, slug);
      if found.Some? {
        var _ := RecordIfAbsent(store, guildId, userId, username, slug, problem, found.value, today, nowMs, parseDate);
      }
    }
  }

  // ---------------------------------------------------------------------------
  // The status report

  datatype Field = Field(name: string, value: string, inline: bool)

  /** What `enhancedCheck` resolves to: an embed, or plain content when something threw. */
  datatype CheckReply = Embed(title: string, fields: seq<Field>) | Content(text: string)

  const ReportTitle: string := "Daily LeetCode Challenge Status"
  const CheckFailed: string := "Error checking challenge status."
  const CompletedMark: string := "✅ Completed"
  const NotCompletedMark: string := "❌ Not completed"

  /** JavaScript's logical or on an optional string: the value when it is truthy, else the fallback. */
  function OrElse(s: Option<string>, fallback: string): (r: string)
    ensures Truthy(s) ==> r == s.value
    ensures !Truthy(s) ==> r == fallback
  {
    if Truthy(s) then s.value else fallback
  }

  /** The topics line of the problem field: the tag names joined by commas, or "N/A" without tags. */
  function TopicsText(p: ProblemDetails): string {
    if p.topicTags.Some? then Join(p.topicTags.value, ", ") else "N/A"
  }

  /**
   * The "Problem Info" field (modules/apiUtils.js:81-87): it opens with the bold title
   * and the difficulty, then the topics, and closes with the acceptance rate and the
   * link, each with its fallback.
   */
  function ProblemField(p: ProblemDetails): (f: Field)
    ensures f.name == "Problem Info" && !f.inline
    ensures StartsWith(f.value, "**" + OrElse(p.title, "Unknown Problem") + "** (" + OrElse(p.difficulty, "N/A") + ")\nTopics: ")
    ensures EndsWith(f.value, "\nAcceptance Rate: " + p.acRate + "\n[View Problem](" + OrElse(p.url, "N/A") + ")")
    ensures |f.value| == |"**" + OrElse(p.title, "Unknown Problem") + "** (" + OrElse(p.difficulty, "N/A") + ")\nTopics: "|
      + |TopicsText(p)| + |"\nAcceptance Rate: " + p.acRate + "\n[View Problem](" + OrElse(p.url, "N/A") + ")"|
  {
    var head := "**" + OrElse(p.title, "Unknown Problem") + "** (" + OrElse(p.difficulty, "N/A") + ")\nTopics: ";
    var tail := "\nAcceptance Rate: " + p.acRate + "\n[View Problem](" + OrElse(p.url, "N/A") + ")";
    var v := head + TopicsText(p) + tail;
    assert v[..|head|] == head;
    assert v[|v| - |tail|..] == tail;
    Field("Problem Info", v, false)
  }

  function StatusField(username: string, completed: bool): Field {
    Field(username, if completed then CompletedMark else NotCompletedMark, true)
  }

  /** Every member's submissions request returned a list. */
  predicate AllFetched(users: seq<string>, feeds: string -> Feed) {
    forall i :: 0 <= i < |users| ==> feeds(users[i]).Listed?
  }

  /** One status field per member, in order: the member's name and whether the search of its feed finds an accepted submission. */
  function StatusFields(users: seq<string>, feeds: string -> Feed, slug: string): (fs: seq<Field>)
    requires AllFetched(users, feeds)
    ensures |fs| == |users|
    ensures forall i :: 0 <= i < |users| ==>
      && fs[i].name == users[i]
      && fs[i].inline
      && (fs[i].value == CompletedMark || fs[i].value == NotCompletedMark)
      && (fs[i].value == CompletedMark <==> HasAccepted(feeds(users[i]).subs, slug))
  {
    seq(|users|, i requires 0 <= i < |users| => StatusField(users[i], FindAccepted(feeds(users[i]).subs, slug).Some?))
  }

  /** Every one of the first `i + 1` members' requests returned a list exactly when the first `i` did and member `i`'s did. */
  lemma AllFetchedStep(users: seq<string>, feeds: string -> Feed, i: int)
    requires 0 <= i < |users|
    ensures AllFetched(users[..i + 1], feeds) <==> AllFetched(users[..i], feeds) && feeds(users[i]).Listed?
  {
    assert forall j :: 0 <= j < i ==> users[..i + 1][j] == users[..i][j];
    assert users[..i + 1][i] == users[i];
  }

  /** The status fields of one more member end with that member's field. */
  lemma StatusFieldsStep(users: seq<string>, feeds: string -> Feed, slug: string, i: int)
    requires 0 <= i < |users| && AllFetched(users[..i + 1], feeds)
    ensures AllFetched(users[..i], feeds)
    ensures StatusFields(users[..i + 1], feeds, slug)
      == StatusFields(users[..i], feeds, slug) + [StatusField(users[i], FindAccepted(feeds(users[i]).subs, slug).Some?)]
  {
    AllFetchedStep(users, feeds, i);
    var a := StatusFields(users[..i + 1], feeds, slug);
    var b := StatusFields(users[..i], feeds, slug) + [StatusField(users[i], FindAccepted(feeds(users[i]).subs, slug).Some?)];
    assert |a| == |b|;
    forall j | 0 <= j < |a|
      ensures a[j] == b[j]
    {
      if j < i {
        assert users[..i + 1][j] == users[..i][j];
      }
    }
  }

  /**
   * The reply of `enhancedCheck`: plain error content when the slug or the problem
   * could not be fetched, or when any member's callback threw inside `Promise.all`;
   * otherwise the problem field followed by the status fields.
   */
  function StatusReply(users: seq<string>, slug: Result<string>, problem: Result<ProblemDetails>,
                       feeds: string -> Feed): (r: CheckReply)
    ensures r.Content? <==> slug.Err? || problem.Err? || !AllFetched(users, feeds)
    ensures r.Content? ==> r.text == CheckFailed
    ensures r.Embed? ==> (
      && r.title == ReportTitle && |r.fields| == |users| + 1
      && r.fields[0] == ProblemField(problem.value)
      && r.fields[1..] == StatusFields(users, feeds, slug.value))
  {
    if slug.Err? || problem.Err? || !AllFetched(users, feeds) then Content(CheckFailed)
    else Embed(ReportTitle, [ProblemField(problem.value)] + StatusFields(users, feeds, slug.value))
  }

  /** A member's status is what `checkUser` says about the same feed. */
  lemma StatusAgreesWithCheckUser(users: seq<string>, slug: string, problem: ProblemDetails,
                                  feeds: string -> Feed, i: int)
    requires AllFetched(users, feeds) && 0 <= i < |users|
    ensures StatusReply(users, Ok(slug), Ok(problem), feeds).fields[i + 1]
      == StatusField(users[i], CheckUser(feeds(users[i]), slug).value)
  {
    var r := StatusReply(users, Ok(slug), Ok(problem), feeds);
    assert r.fields[i + 1] == StatusFields(users, feeds, slug)[i];
  }

  /** One member whose request fails turns the whole report into the error content. */
  lemma OneFailedFetchFailsReport(users: seq<string>, slug: Result<string>, problem: Result<ProblemDetails>,
                                  feeds: string -> Feed, i: int)
    requires 0 <= i < |users| && !feeds(users[i]).Listed?
    ensures StatusReply(users, slug, problem, feeds) == Content(CheckFailed)
  {
  }

  /** The id the report stores: the Discord member's id when the lookup finds one, else the username (modules/apiUtils.js:106). */
  function ReportUserId(memberIdOf: string -> Option<string>, username: string): (id: string)
    ensures memberIdOf(username).Some? ==> id == memberIdOf(username).value
    ensures memberIdOf(username).None? ==> id == username
  {
    memberIdOf(username).GetOr(username)
  }

  /** `r` is the record of the day of one of the first `n` members, written because that member solved it. */
  predicate WrittenForMember(r: Record, users: seq<string>, n: int, feeds: string -> Feed,
                             memberIdOf: string -> Option<string>, guildId: string, slug: string, today: int) {
    exists k :: 0 <= k < n && k < |users| && Solved(feeds(users[k]), slug)
      && IsDailyMatch(r, guildId, ReportUserId(memberIdOf, users[k]), users[k], slug, today)
  }

  /** Every one of the first `n` members who solved it and whose record the schema accepts has a record of the day in `rs`. */
  predicate SolversRecorded(rs: seq<Record>, users: seq<string>, n: int, feeds: string -> Feed,
                            memberIdOf: string -> Option<string>, guildId: string, slug: string,
                            problem: ProblemDetails, today: int) {
    forall k :: (0 <= k < n && k < |users| && Solved(feeds(users[k]), slug)
      && Recordable(guildId, ReportUserId(memberIdOf, users[k]), users[k], slug, problem)) ==>
      HasDailyRecord(rs, guildId, ReportUserId(memberIdOf, users[k]), users[k], slug, today)
  }

  lemma WrittenForMemberWidens(r: Record, users: seq<string>, n: int, m: int, feeds: string -> Feed,
                               memberIdOf: string -> Option<string>, guildId: string, slug: string, today: int)
    requires n <= m && WrittenForMember(r, users, n, feeds, memberIdOf, guildId, slug, today)
    ensures WrittenForMember(r, users, m, feeds, memberIdOf, guildId, slug, today)
  {
  }

  /** Appending records keeps every earlier solver recorded, and `n` grows by one when member `n` is recorded too. */
  lemma SolversRecordedStep(rs: seq<Record>, rs': seq<Record>, users: seq<string>, n: int, feeds: string -> Feed,
                            memberIdOf: string -> Option<string>, guildId: string, slug: string,
                            problem: ProblemDetails, today: int)
    requires rs <= rs' && 0 <= n < |users|
    requires SolversRecorded(rs, users, n, feeds, memberIdOf, guildId, slug, problem, today)
    requires (Solved(feeds(users[n]), slug)
      && Recordable(guildId, ReportUserId(memberIdOf, users[n]), users[n], slug, problem)) ==>
      HasDailyRecord(rs', guildId, ReportUserId(memberIdOf, users[n]), users[n], slug, today)
    ensures SolversRecorded(rs', users, n + 1, feeds, memberIdOf, guildId, slug, problem, today)
  {
    forall k | 0 <= k < n + 1 && k < |users| && Solved(feeds(users[k]), slug)
      && Recordable(guildId, ReportUserId(memberIdOf, users[k]), users[k], slug, problem)
      ensures HasDailyRecord(rs', guildId, ReportUserId(memberIdOf, users[k]), users[k], slug, today)
    {
      if k < n {
        HasDailyRecordGrows(rs, rs', guildId, ReportUserId(memberIdOf, users[k]), users[k], slug, today);
      }
    }
  }

  /**
   * `enhancedCheck(users, client, channelId)`. Every member's callback runs to the end
   * (a rejection inside `Promise.all` does not cancel the others), one after the other.
   * A callback whose request fails or returns no body throws before writing anything,
   * and the reply becomes the error content. For a solved member the record write runs
   * against the guild of the channel (`channelGuild`, an error when the channel fetch
   * throws); its failures are logged, so each status field depends only on the feed.
   */
  method EnhancedCheck(store: Store, users: seq<string>, slug: Result<string>, problem: Result<ProblemDetails>,
                       feeds: string -> Feed, channelGuild: Result<string>,
                       memberIdOf: string -> Option<string>, today: int, nowMs: int,
                       parseDate: string -> Option<int>)
    returns (reply: CheckReply)
    modifies store
    ensures reply == StatusReply(users, slug, problem, feeds)
    ensures old(store.records) <= store.records
    ensures slug.Err? || problem.Err? || channelGuild.Err? ==> store.records == old(store.records)
    ensures OnePerDay(old(store.records)) ==> OnePerDay(store.records)
    ensures StreaksPositive(old(store.records)) ==> StreaksPositive(store.records)
    ensures slug.Ok? && problem.Ok? && channelGuild.Ok? ==>
      forall j :: |old(store.records)| <= j < |store.records| ==>
        WrittenForMember(store.records[j], users, |users|, feeds, memberIdOf, channelGuild.value, slug.value, today)
    ensures slug.Ok? && problem.Ok? && channelGuild.Ok? ==>
      SolversRecorded(store.records, users, |users|, feeds, memberIdOf, channelGuild.value, slug.value, problem.value, today)
  {
    if slug.Err? || problem.Err? {
      return Content(CheckFailed);
    }
    var s, p := slug.value, problem.value;
    var fields: seq<Field> := [];
    var failed := false;
    var i := 0;
    assert users[..0] == [];
    while i < |users|
      invariant 0 <= i <= |users|
      invariant failed <==> !AllFetched(users[..i], feeds)
      invariant !failed ==> fields == StatusFields(users[..i], feeds, s)
      invariant old(store.records) <= store.records
      invariant channelGuild.Err? ==> store.records == old(store.records)
      invariant OnePerDay(old(store.records)) ==> OnePerDay(store.records)
      invariant StreaksPositive(old(store.records)) ==> StreaksPositive(store.records)
      invariant channelGuild.Ok? ==> forall j :: |old(store.records)| <= j < |store.records| ==>
        WrittenForMember(store.records[j], users, i, feeds, memberIdOf, channelGuild.value, s, today)
      invariant channelGuild.Ok? ==>
        SolversRecorded(store.records, users, i, feeds, memberIdOf, channelGuild.value, s, p, today)
    {
      var u := users[i];
      var feed := feeds(u);
      AllFetchedStep(users, feeds, i);
      if !feed.Listed? {
        failed := true;
      } else {
        var found := FindAccepted(feed.subs, s);
        if channelGuild.Ok? {
          RecordMember(store, users, i, feeds, memberIdOf, channelGuild.value, s, p, today, nowMs, parseDate,
                       |old(store.records)|);
        }
        if !failed {
          StatusFieldsStep(users, feeds, s, i);
        }
        fields := fields + [StatusField(u, found.Some?)];
      }
      i := i + 1;
    }
    assert users[..|users|] == users;
    if failed {
      reply := Content(CheckFailed);
    } else {
      reply := Embed(ReportTitle, [ProblemField(p)] + fields);
    }
  }

  /**
   * The write of one member's callback in the report, against guild `g`: a solve is
   * recorded under the member's id as the member lookup gives it; the facts about the
   * first `i` members are carried over to the first `i + 1`.
   */
  method RecordMember(store: Store, users: seq<string>, i: int, feeds: string -> Feed,
                      memberIdOf: string -> Option<string>, g: string, s: string, p: ProblemDetails,
                      today: int, nowMs: int, parseDate: string -> Option<int>, ghost from: int)
    requires 0 <= i < |users| && 0 <= from <= |store.records|
    requires forall j :: from <= j < |store.records| ==>
      WrittenForMember(store.records[j], users, i, feeds, memberIdOf, g, s, today)
    requires SolversRecorded(store.records, users, i, feeds, memberIdOf, g, s, p, today)
    modifies store
    ensures old(store.records) <= store.records
    ensures OnePerDay(old(store.records)) ==> OnePerDay(store.records)
    ensures StreaksPositive(old(store.records)) ==> StreaksPositive(store.records)
    ensures forall j :: from <= j < |store.records| ==>
      WrittenForMember(store.records[j], users, i + 1, feeds, memberIdOf, g, s, today)
    ensures SolversRecorded(store.records, users, i + 1, feeds, memberIdOf, g, s, p, today)
  {
    var u := users[i];
    ghost var before := store.records;
    RecordIfSolved(store, g, ReportUserId(memberIdOf, u), u, feeds(u), s, p, today, nowMs, parseDate);
    SolversRecordedStep(before, store.records, users, i, feeds, memberIdOf, g, s, p, today);
    forall j | from <= j < |store.records|
      ensures WrittenForMember(store.records[j], users, i + 1, feeds, memberIdOf, g, s, today)
    {
      if j < |before| {
        assert store.records[j] == before[j];
        WrittenForMemberWidens(before[j], users, i, i + 1, feeds, memberIdOf, g, s, today);
      } else {
        assert IsDailyMatch(store.records[j], g, ReportUserId(memberIdOf, users[i]), users[i], s, today);
      }
    }
  }
}

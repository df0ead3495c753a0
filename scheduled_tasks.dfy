/**
 * The scheduler: the table of live cron jobs keyed by `guildId-schedule`, the three
 * operations that stop and arm jobs in it, and the body a job runs when it fires,
 * which classifies every tracked member against the daily problem, records solves
 * once per day and collects the members to remind.
 */
module ScheduledTasks {
  import opened Common
  import opened GuildModel
  import opened DailySubmission
  import opened ApiUtils

  /** The key of a guild's job: the guild id, a dash, then the schedule (modules/scheduledTasks.js:61). */
  function JobKey(guildId: string, schedule: string): (k: string)
    ensures |k| == |guildId| + 1 + |schedule|
  {
    guildId + "-" + schedule
  }

  /** A running cron job: its handle and the guild and schedule it was armed with. */
  datatype Job = Job(id: nat, guildId: string, schedule: string)

  /** The keys the `runCheck` entries of a guild's configuration arm. */
  function ScheduleKeys(guildId: string, entries: seq<CronEntry>): set<string>
    decreases |entries|
  {
    if entries == [] then {}
    else
      var n := |entries| - 1;
      ScheduleKeys(guildId, entries[..n])
        + (if entries[n].task == RunCheckTask then {JobKey(guildId, entries[n].schedule)} else {})
  }

  /** A key is armed for a guild exactly when one of its `runCheck` entries gives it. */
  lemma {:induction false} ScheduleKeysMembers(guildId: string, entries: seq<CronEntry>, k: string)
    ensures k in ScheduleKeys(guildId, entries) <==>
      exists i :: 0 <= i < |entries| && entries[i].task == RunCheckTask && k == JobKey(guildId, entries[i].schedule)
    decreases |entries|
  {
    if entries != [] {
      var n := |entries| - 1;
      var front := entries[..n];
      ScheduleKeysMembers(guildId, front, k);
      assert forall i :: 0 <= i < n ==> front[i] == entries[i];
    }
  }

  /** The keys arming every guild's configuration gives. */
  function AllScheduleKeys(guilds: seq<GuildConfig>): (ks: set<string>)
    decreases |guilds|
  {
    if guilds == [] then {}
    else
      var n := |guilds| - 1;
      var front := guilds[..n];
      assert forall g :: g in guilds ==> g in front || g == guilds[n];
      AllScheduleKeys(front) + ScheduleKeys(guilds[n].guildId, guilds[n].cronJobs)
  }

  /** A key is armed at start-up exactly when some guild's configuration gives it. */
  lemma {:induction false} AllScheduleKeysMembers(guilds: seq<GuildConfig>, k: string)
    ensures k in AllScheduleKeys(guilds) <==>
      exists i :: 0 <= i < |guilds| && k in ScheduleKeys(guilds[i].guildId, guilds[i].cronJobs)
    decreases |guilds|
  {
    if guilds != [] {
      var n := |guilds| - 1;
      var front := guilds[..n];
      AllScheduleKeysMembers(front, k);
      assert forall i :: 0 <= i < n ==> front[i] == guilds[i];
    }
  }

  /** Arming one more entry adds at most its key. */
  lemma ScheduleKeysStep(guildId: string, entries: seq<CronEntry>, i: int)
    requires 0 <= i < |entries|
    ensures ScheduleKeys(guildId, entries[..i + 1]) == ScheduleKeys(guildId, entries[..i])
      + (if entries[i].task == RunCheckTask then {JobKey(guildId, entries[i].schedule)} else {})
  {
    assert entries[..i + 1][..i] == entries[..i];
  }

  /** Arming one more guild adds the keys of its entries. */
  lemma AllScheduleKeysStep(guilds: seq<GuildConfig>, i: int)
    requires 0 <= i < |guilds|
    ensures AllScheduleKeys(guilds[..i + 1]) == AllScheduleKeys(guilds[..i])
      + ScheduleKeys(guilds[i].guildId, guilds[i].cronJobs)
  {
    assert guilds[..i + 1][..i] == guilds[..i];
  }

  /**
   * The key set after reconciling guild `guildId`: every key starting with `prefix`
   * is dropped, then the guild's `runCheck` entries are armed.
   */
  function Reconciled(keys: set<string>, prefix: string, guildId: string, entries: seq<CronEntry>): set<string> {
    (set k | k in keys && !StartsWith(k, prefix)) + ScheduleKeys(guildId, entries)
  }

  /** The reconciliation as written: the prefix is the bare guild id. */
  function KeysAfterReload(keys: set<string>, guildId: string, entries: seq<CronEntry>): set<string> {
    Reconciled(keys, guildId, guildId, entries)
  }

  /** The reconciliation scoped to the guild: the prefix is the guild id and its separator. */
  function KeysAfterScopedReload(keys: set<string>, guildId: string, entries: seq<CronEntry>): set<string> {
    Reconciled(keys, guildId + "-", guildId, entries)
  }

  lemma JobKeyStartsWith(guildId: string, schedule: string, prefix: string)
    requires StartsWith(guildId + "-", prefix)
    ensures StartsWith(JobKey(guildId, schedule), prefix)
  {
    var key := JobKey(guildId, schedule);
    assert key == (guildId + "-") + schedule;
    assert key[..|guildId| + 1] == guildId + "-";
    assert key[..|prefix|] == (guildId + "-")[..|prefix|];
  }

  /** A job key starts with its guild id and a dash, and the rest of it is the schedule. */
  lemma JobKeyLayout(guildId: string, schedule: string)
    ensures StartsWith(JobKey(guildId, schedule), guildId + "-")
    ensures JobKey(guildId, schedule)[|guildId| + 1..] == schedule
  {
    var key := JobKey(guildId, schedule);
    assert key == (guildId + "-") + schedule;
    assert key[..|guildId| + 1] == guildId + "-";
  }

  /** Reconciling twice with the same configuration gives the key set of reconciling once. */
  lemma ReconcileIdempotent(keys: set<string>, prefix: string, guildId: string, entries: seq<CronEntry>)
    requires StartsWith(guildId + "-", prefix)
    ensures Reconciled(Reconciled(keys, prefix, guildId, entries), prefix, guildId, entries)
      == Reconciled(keys, prefix, guildId, entries)
  {
    forall k | k in ScheduleKeys(guildId, entries)
      ensures StartsWith(k, prefix)
    {
      ScheduleKeysMembers(guildId, entries, k);
      var i :| 0 <= i < |entries| && entries[i].task == RunCheckTask && k == JobKey(guildId, entries[i].schedule);
      JobKeyStartsWith(guildId, entries[i].schedule, prefix);
    }
  }

  /** Both forms of `updateGuildCronJobs` are idempotent on the key set. */
  lemma ReloadIdempotent(keys: set<string>, guildId: string, entries: seq<CronEntry>)
    ensures KeysAfterReload(KeysAfterReload(keys, guildId, entries), guildId, entries)
      == KeysAfterReload(keys, guildId, entries)
    ensures KeysAfterScopedReload(KeysAfterScopedReload(keys, guildId, entries), guildId, entries)
      == KeysAfterScopedReload(keys, guildId, entries)
  {
    assert (guildId + "-")[..|guildId|] == guildId;
    ReconcileIdempotent(keys, guildId, guildId, entries);
    assert (guildId + "-")[..|guildId + "-"|] == guildId + "-";
    ReconcileIdempotent(keys, guildId + "-", guildId, entries);
  }

  /**
   * Reloading guild "12" as written drops the job of guild "123", and nothing re-arms
   * it; the scoped reload keeps it.
   */
  lemma PrefixClashDropsOtherGuild()
    ensures JobKey("123", "0 9 * * *") == "123-0 9 * * *"
    ensures KeysAfterReload({"123-0 9 * * *"}, "12", []) == {}
    ensures KeysAfterScopedReload({"123-0 9 * * *"}, "12", []) == {"123-0 9 * * *"}
  {
    assert StartsWith("123-0 9 * * *", "12") by {
      assert "123-0 9 * * *"[..2] == "12";
    }
    assert !StartsWith("123-0 9 * * *", "12-") by {
      assert "123-0 9 * * *"[2] == '3';
    }
  }

  predicate NoSeparator(id: string) {
    forall i :: 0 <= i < |id| ==> id[i] != '-'
  }

  /** For guild ids without a `-`, a key starting with `g-` belongs to guild `g`. */
  lemma KeyOwnedByGuild(g: string, h: string, schedule: string)
    requires NoSeparator(g) && NoSeparator(h)
    ensures StartsWith(JobKey(h, schedule), g + "-") ==> h == g
  {
    var key := JobKey(h, schedule);
    if StartsWith(key, g + "-") {
      assert key[..|g| + 1] == g + "-";
      assert forall i :: 0 <= i < |g| + 1 ==> key[i] == (g + "-")[i];
      assert forall i :: 0 <= i < |h| ==> key[i] == h[i];
      assert key[|h|] == '-';
      assert key[|g|] == '-';
      assert |g| == |h|;
      assert h == key[..|h|];
      assert g == key[..|g| + 1][..|g|];
    }
  }

  /** Keys of two different guilds without a `-` in their ids never coincide. */
  lemma JobKeysOfOtherGuildsDiffer(g: string, h: string, schedule: string, other: string)
    requires NoSeparator(g) && NoSeparator(h) && h != g
    ensures JobKey(h, schedule) != JobKey(g, other)
  {
    assert (g + "-")[..|g + "-"|] == g + "-";
    JobKeyStartsWith(g, other, g + "-");
    KeyOwnedByGuild(g, h, schedule);
  }

  /** The scoped reload of one guild leaves every job key of every other guild as it was. */
  lemma ScopedReloadKeepsOtherGuilds(keys: set<string>, g: string, entries: seq<CronEntry>, h: string, schedule: string)
    requires NoSeparator(g) && NoSeparator(h) && h != g
    ensures JobKey(h, schedule) in KeysAfterScopedReload(keys, g, entries) <==> JobKey(h, schedule) in keys
  {
    KeyOwnedByGuild(g, h, schedule);
    ScheduleKeysMembers(g, entries, JobKey(h, schedule));
    forall i | 0 <= i < |entries|
      ensures JobKey(h, schedule) != JobKey(g, entries[i].schedule)
    {
      JobKeysOfOtherGuildsDiffer(g, h, schedule, entries[i].schedule);
    }
  }

  /** After the scoped reload, the keys of guild `g` are exactly those its configuration arms. */
  lemma ScopedReloadSetsGuildKeys(keys: set<string>, g: string, entries: seq<CronEntry>, k: string)
    ensures (k in KeysAfterScopedReload(keys, g, entries) && StartsWith(k, g + "-")) <==> k in ScheduleKeys(g, entries)
  {
    if k in ScheduleKeys(g, entries) {
      ScheduleKeysMembers(g, entries, k);
      var i :| 0 <= i < |entries| && entries[i].task == RunCheckTask && k == JobKey(g, entries[i].schedule);
      assert (g + "-")[..|g + "-"|] == g + "-";
      JobKeyStartsWith(g, entries[i].schedule, g + "-");
    }
  }

  /**
   * Relative to the table `base` and the counter `baseNext` before start-up arming
   * began, the first `n` guilds' keys were added to `jobs` with fresh handles of one of
   * those guilds, and every other key is as it was.
   */
  ghost predicate GuildsArmed(jobs: map<string, Job>, base: map<string, Job>, baseNext: nat,
                              gs: seq<GuildConfig>, n: nat)
    requires n <= |gs|
  {
    && jobs.Keys == base.Keys + AllScheduleKeys(gs[..n])
    && (forall k :: k in jobs && k in AllScheduleKeys(gs[..n]) ==>
         baseNext <= jobs[k].id && exists j :: 0 <= j < n && jobs[k].guildId == gs[j].guildId)
    && (forall k :: k in jobs && k !in AllScheduleKeys(gs[..n]) ==> k in base && jobs[k] == base[k])
  }

  /** Arming guild `i` over a table armed for the guilds before it gives a table armed for the first `i + 1`. */
  lemma GuildsArmedStep(before: map<string, Job>, after: map<string, Job>, base: map<string, Job>,
                        baseNext: nat, beforeNext: nat, gs: seq<GuildConfig>, i: nat)
    requires i < |gs| && GuildsArmed(before, base, baseNext, gs, i) && baseNext <= beforeNext
    requires after.Keys == before.Keys + ScheduleKeys(gs[i].guildId, gs[i].cronJobs)
    requires forall k :: k in after && k in ScheduleKeys(gs[i].guildId, gs[i].cronJobs) ==>
      after[k].guildId == gs[i].guildId && beforeNext <= after[k].id
    requires forall k :: k in after && k !in ScheduleKeys(gs[i].guildId, gs[i].cronJobs) ==> after[k] == before[k]
    ensures GuildsArmed(after, base, baseNext, gs, i + 1)
  {
    AllScheduleKeysStep(gs, i);
    ArmedKeysStep(before, after, baseNext, beforeNext, gs, i);
    TableStep(before, after, base, AllScheduleKeys(gs[..i]), ScheduleKeys(gs[i].guildId, gs[i].cronJobs));
  }

  /** Adding the keys `added` over a table that differs from `base` only on `armed` gives one that differs only on both. */
  lemma TableStep(before: map<string, Job>, after: map<string, Job>, base: map<string, Job>,
                  armed: set<string>, added: set<string>)
    requires before.Keys == base.Keys + armed
    requires forall k :: k in before && k !in armed ==> k in base && before[k] == base[k]
    requires after.Keys == before.Keys + added
    requires forall k :: k in after && k !in added ==> after[k] == before[k]
    ensures after.Keys == base.Keys + (armed + added)
    ensures forall k :: k in after && k !in armed + added ==> k in base && after[k] == base[k]
  {
  }

  /** The keys armed for the first `i + 1` guilds hold fresh jobs of one of them. */
  lemma ArmedKeysStep(before: map<string, Job>, after: map<string, Job>,
                      baseNext: nat, beforeNext: nat, gs: seq<GuildConfig>, i: nat)
    requires i < |gs| && baseNext <= beforeNext
    requires forall k :: k in before && k in AllScheduleKeys(gs[..i]) ==>
      baseNext <= before[k].id && exists j :: 0 <= j < i && before[k].guildId == gs[j].guildId
    requires forall k :: k in after && k in ScheduleKeys(gs[i].guildId, gs[i].cronJobs) ==>
      after[k].guildId == gs[i].guildId && beforeNext <= after[k].id
    requires forall k :: k in after && k !in ScheduleKeys(gs[i].guildId, gs[i].cronJobs) ==>
      k in before && after[k] == before[k]
    requires AllScheduleKeys(gs[..i + 1]) == AllScheduleKeys(gs[..i]) + ScheduleKeys(gs[i].guildId, gs[i].cronJobs)
    ensures forall k :: k in after && k in AllScheduleKeys(gs[..i + 1]) ==>
      baseNext <= after[k].id && exists j :: 0 <= j < i + 1 && after[k].guildId == gs[j].guildId
  {
    forall k | k in after && k in AllScheduleKeys(gs[..i + 1])
      ensures baseNext <= after[k].id && exists j :: 0 <= j < i + 1 && after[k].guildId == gs[j].guildId
    {
      if k in ScheduleKeys(gs[i].guildId, gs[i].cronJobs) {
        assert after[k].guildId == gs[i].guildId;
      } else {
        var j :| 0 <= j < i && before[k].guildId == gs[j].guildId;
        assert after[k].guildId == gs[j].guildId;
      }
    }
  }

  function LiveIds(jobs: map<string, Job>): set<nat> {
    set k | k in jobs :: jobs[k].id
  }

  /**
   * Every registered job sits under its own key and is running, no two keys share a
   * handle, and every job ever armed is registered or stopped: none is left running
   * out of reach.
   */
  predicate TableValid(jobs: map<string, Job>, stopped: set<nat>, nextId: nat) {
    && (forall k :: k in jobs ==>
         jobs[k].id < nextId && jobs[k].id !in stopped && k == JobKey(jobs[k].guildId, jobs[k].schedule))
    && (forall k1, k2 :: k1 in jobs && k2 in jobs && jobs[k1].id == jobs[k2].id ==> k1 == k2)
    && (forall id :: id in stopped ==> id < nextId)
    && (forall id: nat :: id < nextId ==> id in stopped || id in LiveIds(jobs))
  }

  /** Stopping a registered job and deleting its key keeps the table valid. */
  lemma StopKeepsTableValid(jobs: map<string, Job>, stopped: set<nat>, nextId: nat, key: string)
    requires TableValid(jobs, stopped, nextId) && key in jobs
    ensures TableValid(jobs - {key}, stopped + {jobs[key].id}, nextId)
  {
    var jobs', stopped' := jobs - {key}, stopped + {jobs[key].id};
    forall id: nat | id < nextId
      ensures id in stopped' || id in LiveIds(jobs')
    {
      if id !in stopped' {
        assert id in LiveIds(jobs);
        var k :| k in jobs && jobs[k].id == id;
        assert k != key;
        assert k in jobs' && jobs'[k].id == id;
      }
    }
  }

  /** Arming a new job under a free key with the next handle keeps the table valid. */
  lemma ArmKeepsTableValid(jobs: map<string, Job>, stopped: set<nat>, nextId: nat, guildId: string, schedule: string)
    requires TableValid(jobs, stopped, nextId) && JobKey(guildId, schedule) !in jobs
    ensures TableValid(jobs[JobKey(guildId, schedule) := Job(nextId, guildId, schedule)], stopped, nextId + 1)
  {
    var key := JobKey(guildId, schedule);
    var jobs' := jobs[key := Job(nextId, guildId, schedule)];
    forall k | k in jobs' && k != key
      ensures jobs'[k] == jobs[k] && jobs'[k].id < nextId
    {
    }
    forall k1, k2 | k1 in jobs' && k2 in jobs' && jobs'[k1].id == jobs'[k2].id
      ensures k1 == k2
    {
      if k1 != key && k2 != key {
        assert jobs'[k1] == jobs[k1] && jobs'[k2] == jobs[k2];
      }
    }
    forall id: nat | id < nextId + 1
      ensures id in stopped || id in LiveIds(jobs')
    {
      if id == nextId {
        assert jobs'[key].id == id;
      } else if id !in stopped {
        assert id in LiveIds(jobs);
        var k :| k in jobs && jobs[k].id == id;
        assert jobs'[k].id == id;
      }
    }
  }

  /**
   * `activeCronJobs` together with the handles stopped so far. `nextId` counts the
   * jobs ever armed.
   */
  class CronRegistry {
    var jobs: map<string, Job>
    var stopped: set<nat>
    var nextId: nat

    /** The table is valid: see `TableValid`. */
    predicate Valid()
      reads this
    {
      TableValid(jobs, stopped, nextId)
    }

    constructor ()
      ensures Valid() && jobs == map[] && stopped == {} && nextId == 0
    {
      jobs := map[];
      stopped := {};
      nextId := 0;
    }

    /** The job under `key` is stopped and its key deleted from the table (modules/scheduledTasks.js:64-67). */
    method StopJob(key: string)
      requires Valid() && key in jobs
      modifies this
      ensures Valid()
      ensures jobs == old(jobs) - {key}
      ensures stopped == old(stopped) + {old(jobs)[key].id}
      ensures nextId == old(nextId)
    {
      StopKeepsTableValid(jobs, stopped, nextId, key);
      stopped := stopped + {jobs[key].id};
      jobs := jobs - {key};
    }

    /** A newly armed job is stored under a free key (modules/scheduledTasks.js:210). */
    method ArmJob(guildId: string, schedule: string)
      requires Valid() && JobKey(guildId, schedule) !in jobs
      modifies this
      ensures Valid()
      ensures jobs == old(jobs)[JobKey(guildId, schedule) := Job(old(nextId), guildId, schedule)]
      ensures stopped == old(stopped) && nextId == old(nextId) + 1
    {
      ArmKeepsTableValid(jobs, stopped, nextId, guildId, schedule);
      jobs := jobs[JobKey(guildId, schedule) := Job(nextId, guildId, schedule)];
      nextId := nextId + 1;
    }

    /**
     * `scheduleDailyCheck(client, guildId, channelId, schedule)`: a job already under
     * the key is stopped and replaced by a newly armed one; no other key changes.
     */
    method ScheduleDailyCheck(guildId: string, schedule: string)
      requires Valid()
      modifies this
      ensures Valid()
      ensures jobs == old(jobs)[JobKey(guildId, schedule) := Job(old(nextId), guildId, schedule)]
      ensures JobKey(guildId, schedule) in old(jobs) ==>
        stopped == old(stopped) + {old(jobs)[JobKey(guildId, schedule)].id}
      ensures JobKey(guildId, schedule) !in old(jobs) ==> stopped == old(stopped)
      ensures nextId == old(nextId) + 1
    {
      var key := JobKey(guildId, schedule);
      if key in jobs {
        StopJob(key);
      }
      ArmJob(guildId, schedule);
    }

    /**
     * Relative to the table `base` and the counter `baseNext` before arming began, the
     * keys `armed` so far were added for `guildId` with fresh handles, and every other
     * key is as it was.
     */
    ghost predicate ArmedFrom(base: map<string, Job>, baseNext: nat, guildId: string, armed: set<string>)
      reads this
    {
      && jobs.Keys == base.Keys + armed
      && (forall k :: k in jobs && k in armed ==> jobs[k].guildId == guildId && baseNext <= jobs[k].id)
      && (forall k :: k in jobs && k !in armed ==> k in base && jobs[k] == base[k])
    }

    /** One configured entry of a guild (modules/scheduledTasks.js:48-52, 231-235): a `runCheck` entry is scheduled, any other skipped. */
    method ArmEntry(guildId: string, entry: CronEntry, ghost base: map<string, Job>, ghost baseNext: nat,
                    ghost armed: set<string>)
      returns (ghost armed': set<string>)
      requires Valid() && ArmedFrom(base, baseNext, guildId, armed) && baseNext <= nextId
      modifies this
      ensures Valid() && ArmedFrom(base, baseNext, guildId, armed') && baseNext <= nextId
      ensures armed' == armed + (if entry.task == RunCheckTask then {JobKey(guildId, entry.schedule)} else {})
      ensures old(stopped) <= stopped && old(nextId) <= nextId
      ensures entry.task != RunCheckTask ==> jobs == old(jobs) && stopped == old(stopped) && nextId == old(nextId)
    {
      armed' := armed;
      if entry.task == RunCheckTask {
        ScheduleDailyCheck(guildId, entry.schedule);
        armed' := armed + {JobKey(guildId, entry.schedule)};
      }
    }

    /** Every `runCheck` entry of a guild's configuration is scheduled in turn; others are skipped (modules/scheduledTasks.js:231-235). */
    method ArmSchedules(guildId: string, entries: seq<CronEntry>)
      requires Valid()
      modifies this
      ensures Valid()
      ensures jobs.Keys == old(jobs).Keys + ScheduleKeys(guildId, entries)
      ensures forall k :: k in jobs && k in ScheduleKeys(guildId, entries) ==>
        jobs[k].guildId == guildId && old(nextId) <= jobs[k].id
      ensures forall k :: k in jobs && k !in ScheduleKeys(guildId, entries) ==> jobs[k] == old(jobs)[k]
      ensures old(stopped) <= stopped && old(nextId) <= nextId
    {
      var i := 0;
      ghost var armed: set<string> := {};
      while i < |entries|
        invariant 0 <= i <= |entries|
        invariant Valid()
        invariant armed == ScheduleKeys(guildId, entries[..i])
        invariant ArmedFrom(old(jobs), old(nextId), guildId, armed)
        invariant old(stopped) <= stopped && old(nextId) <= nextId
      {
        ScheduleKeysStep(guildId, entries, i);
        armed := ArmEntry(guildId, entries[i], old(jobs), old(nextId), armed);
        i := i + 1;
      }
      assert entries[..|entries|] == entries;
    }

    /**
     * Relative to the table `base` before stopping began, the keys still `doomed` all
     * start with `prefix` and are registered, the other keys left are those of `base`
     * that do not, and every job left is as it was.
     */
    ghost predicate StoppingFrom(base: map<string, Job>, prefix: string, doomed: set<string>)
      reads this
    {
      && doomed <= jobs.Keys
      && (forall k :: k in doomed ==> StartsWith(k, prefix))
      && jobs.Keys - doomed == (set k | k in base && !StartsWith(k, prefix))
      && (forall k :: k in jobs ==> k in base && jobs[k] == base[k])
    }

    /** One step of the deletion: a doomed key is stopped and deleted. */
    method StopDoomed(key: string, ghost base: map<string, Job>, prefix: string, ghost doomed: set<string>)
      requires Valid() && StoppingFrom(base, prefix, doomed) && key in doomed
      modifies this
      ensures Valid() && StoppingFrom(base, prefix, doomed - {key})
      ensures old(stopped) <= stopped && nextId == old(nextId)
    {
      StopJob(key);
    }

    /** Stops and deletes every job whose key starts with `prefix`, in any order. */
    method StopKeysWithPrefix(prefix: string)
      requires Valid()
      modifies this
      ensures Valid()
      ensures jobs.Keys == set k | k in old(jobs) && !StartsWith(k, prefix)
      ensures forall k :: k in jobs ==> k in old(jobs) && jobs[k] == old(jobs)[k]
      ensures old(stopped) <= stopped && nextId == old(nextId)
    {
      var doomed := set k | k in jobs && StartsWith(k, prefix);
      while doomed != {}
        invariant Valid()
        invariant StoppingFrom(old(jobs), prefix, doomed)
        invariant old(stopped) <= stopped && nextId == old(nextId)
        decreases |doomed|
      {
        var k :| k in doomed;
        StopDoomed(k, old(jobs), prefix, doomed);
        doomed := doomed - {k};
      }
    }

    /**
     * `updateGuildCronJobs(guildId)` as written, with `guild` the stored configuration
     * looked up by guild id: every key starting with the bare guild id is stopped
     * and deleted, then the guild's `runCheck` entries are armed. A missing guild
     * changes nothing.
     */
    method UpdateGuildCronJobsAsWritten(guildId: string, guild: Option<GuildConfig>)
      requires Valid()
      modifies this
      ensures Valid()
      ensures guild.None? ==> jobs == old(jobs) && stopped == old(stopped) && nextId == old(nextId)
      ensures guild.Some? ==> jobs.Keys == KeysAfterReload(old(jobs).Keys, guildId, guild.value.cronJobs)
      ensures guild.Some? ==> forall k :: k in jobs && k !in ScheduleKeys(guildId, guild.value.cronJobs) ==>
        jobs[k] == old(jobs)[k]
      ensures guild.Some? ==> forall k :: k in jobs && k in ScheduleKeys(guildId, guild.value.cronJobs) ==>
        jobs[k].guildId == guildId && old(nextId) <= jobs[k].id
    {
      if guild.None? {
        return;
      }
      StopKeysWithPrefix(guildId);
      ArmSchedules(guildId, guild.value.cronJobs);
    }

    /**
     * `updateGuildCronJobs(guildId)` with the deletion scoped to the keys of this guild
     * (keys starting with the guild id and a dash). The command handlers call the form
     * as written, `UpdateGuildCronJobsAsWritten` (modules/interactionHandler.js:200, 209).
     */
    method UpdateGuildCronJobs(guildId: string, guild: Option<GuildConfig>)
      requires Valid()
      modifies this
      ensures Valid()
      ensures guild.None? ==> jobs == old(jobs) && stopped == old(stopped) && nextId == old(nextId)
      ensures guild.Some? ==> jobs.Keys == KeysAfterScopedReload(old(jobs).Keys, guildId, guild.value.cronJobs)
      ensures guild.Some? ==> forall k :: k in jobs && k !in ScheduleKeys(guildId, guild.value.cronJobs) ==>
        jobs[k] == old(jobs)[k]
      ensures guild.Some? ==> forall k :: k in jobs && k in ScheduleKeys(guildId, guild.value.cronJobs) ==>
        jobs[k].guildId == guildId && old(nextId) <= jobs[k].id
    {
      if guild.None? {
        return;
      }
      StopKeysWithPrefix(guildId + "-");
      ArmSchedules(guildId, guild.value.cronJobs);
    }

    /** One guild of the start-up loop: its `runCheck` entries are armed. */
    method ArmGuild(gs: seq<GuildConfig>, i: nat, ghost base: map<string, Job>, ghost baseNext: nat)
      requires i < |gs|
      requires Valid() && GuildsArmed(jobs, base, baseNext, gs, i) && baseNext <= nextId
      modifies this
      ensures Valid() && GuildsArmed(jobs, base, baseNext, gs, i + 1) && baseNext <= nextId
      ensures old(stopped) <= stopped
    {
      ghost var before, beforeNext := jobs, nextId;
      ArmSchedules(gs[i].guildId, gs[i].cronJobs);
      GuildsArmedStep(before, jobs, base, baseNext, beforeNext, gs, i);
    }

    /**
     * Start-up, with `guilds` the result of the query for every guild's configuration:
     * each guild's `runCheck` entries are armed in turn; a failed query arms nothing
     * (modules/scheduledTasks.js:40-58).
     */
    method InitializeScheduledTasks(guilds: Result<seq<GuildConfig>>)
      requires Valid()
      modifies this
      ensures Valid()
      ensures guilds.Err? ==> jobs == old(jobs) && stopped == old(stopped) && nextId == old(nextId)
      ensures guilds.Ok? ==> jobs.Keys == old(jobs).Keys + AllScheduleKeys(guilds.value)
      ensures guilds.Ok? ==> forall k :: k in jobs && k in AllScheduleKeys(guilds.value) ==>
        old(nextId) <= jobs[k].id
        && exists j :: 0 <= j < |guilds.value| && jobs[k].guildId == guilds.value[j].guildId
      ensures guilds.Ok? ==> forall k :: k in jobs && k !in AllScheduleKeys(guilds.value) ==>
        jobs[k] == old(jobs)[k]
      ensures old(stopped) <= stopped
    {
      if guilds.Err? {
        return;
      }
      var gs := guilds.value;
      var i := 0;
      assert gs[..0] == [];
      while i < |gs|
        invariant 0 <= i <= |gs|
        invariant Valid() && old(nextId) <= nextId
        invariant GuildsArmed(jobs, old(jobs), old(nextId), gs, i)
        invariant old(stopped) <= stopped
      {
        ArmGuild(gs, i, old(jobs), old(nextId));
        i := i + 1;
      }
      assert gs[..|gs|] == gs;
    }
  }

  // ---------------------------------------------------------------------------
  // The body of a fired job

  /** How a tracked member comes out of one run. */
  datatype MemberStatus = Skipped | Incomplete | Completed(sub: Submission)

  /**
   * A failed request only logs (the member is skipped); an empty body or an empty list
   * counts as not done; otherwise the first accepted submission of the slug decides.
   */
  function Classify(feed: Feed, slug: string): (st: MemberStatus)
    ensures st.Skipped? <==> feed.FetchFailed?
    ensures st.Completed? <==> Solved(feed, slug)
    ensures st.Completed? ==> st.sub in feed.subs && IsAcceptedFor(st.sub, slug)
    ensures st.Incomplete? <==> feed.NoBody? || (feed.Listed? && !HasAccepted(feed.subs, slug))
  {
    match feed
    case FetchFailed => Skipped
    case NoBody => Incomplete
    case Listed(subs) =>
      if |subs| == 0 then Incomplete
      else
        match FindAccepted(subs, slug)
        case Some(sub) => Completed(sub)
        case None => Incomplete
  }

  function StatusOf(u: TrackedUser, feeds: string -> Feed, slug: string): MemberStatus {
    Classify(feeds(u.username), slug)
  }

  /** The mentions pushed onto `incompleteUsers`, in tracked-user order. */
  function IncompleteMentions(users: seq<TrackedUser>, feeds: string -> Feed, slug: string): (ms: seq<string>)
    ensures |ms| <= |users|
    decreases |users|
  {
    if users == [] then []
    else
      var n := |users| - 1;
      IncompleteMentions(users[..n], feeds, slug)
        + (if StatusOf(users[n], feeds, slug).Incomplete? then [MentionOf(users[n])] else [])
  }

  /** A mention is in the reminder list exactly when it is the mention of a tracked member still unsolved. */
  lemma {:induction false} IncompleteMentionsMembers(users: seq<TrackedUser>, feeds: string -> Feed, slug: string, m: string)
    ensures m in IncompleteMentions(users, feeds, slug) <==>
      exists i :: 0 <= i < |users| && StatusOf(users[i], feeds, slug).Incomplete? && m == MentionOf(users[i])
    decreases |users|
  {
    if users != [] {
      var n := |users| - 1;
      var front := users[..n];
      IncompleteMentionsMembers(front, feeds, slug, m);
      assert forall i :: 0 <= i < n ==> front[i] == users[i];
    }
  }

  /** Handling one more member adds at most that member's mention at the end. */
  lemma IncompleteMentionsStep(users: seq<TrackedUser>, i: int, feeds: string -> Feed, slug: string)
    requires 0 <= i < |users|
    ensures IncompleteMentions(users[..i + 1], feeds, slug) == IncompleteMentions(users[..i], feeds, slug)
      + (if Classify(feeds(users[i].username), slug).Incomplete? then [MentionOf(users[i])] else [])
  {
    assert users[..i + 1][..i] == users[..i];
  }

  /** The reminder list of a concatenation is the concatenation of the lists: order is kept. */
  lemma {:induction false} IncompleteMentionsAppend(a: seq<TrackedUser>, b: seq<TrackedUser>, feeds: string -> Feed, slug: string)
    ensures IncompleteMentions(a + b, feeds, slug) == IncompleteMentions(a, feeds, slug) + IncompleteMentions(b, feeds, slug)
    decreases |b|
  {
    if b == [] {
      assert a + b == a;
    } else {
      var n := |b| - 1;
      assert (a + b)[..|a| + n] == a + b[..n];
      assert (a + b)[|a| + n] == b[n];
      IncompleteMentionsAppend(a, b[..n], feeds, slug);
    }
  }

  /** A member whose request fails changes nothing in the reminder list of the others. */
  lemma FailedFetchIsolated(users: seq<TrackedUser>, i: int, feeds: string -> Feed, slug: string)
    requires 0 <= i < |users| && feeds(users[i].username).FetchFailed?
    ensures IncompleteMentions(users, feeds, slug) == IncompleteMentions(users[..i] + users[i + 1..], feeds, slug)
  {
    var a, b := users[..i], users[i + 1..];
    assert users == a + ([users[i]] + b);
    assert IncompleteMentions([users[i]], feeds, slug) == [] by {
      assert [users[i]][..0] == [];
    }
    IncompleteMentionsAppend([users[i]], b, feeds, slug);
    IncompleteMentionsAppend(a, [users[i]] + b, feeds, slug);
    IncompleteMentionsAppend(a, b, feeds, slug);
  }

  const ReminderHead: string := "\U{26A0}\U{FE0F} "
  const ReminderTail: string := "\nDon't forget to complete today's LeetCode Daily Challenge!"

  /**
   * The single reminder naming every incomplete member, and none when everyone has
   * solved it: the warning sign, the mentions in order separated by commas, then the
   * reminder line (modules/scheduledTasks.js:179-183).
   */
  function ReminderMessage(mentions: seq<string>): (m: Option<string>)
    ensures m.None? <==> mentions == []
    ensures |mentions| == 1 ==> m == Some(ReminderHead + mentions[0] + ReminderTail)
    ensures m.Some? ==> StartsWith(m.value, ReminderHead) && EndsWith(m.value, ReminderTail)
    ensures m.Some? ==> (|m.value|
      == |ReminderHead| + JoinOffset(mentions, ", ", |mentions| - 1) + |mentions[|mentions| - 1]| + |ReminderTail|)
  {
    if mentions == [] then None
    else
      var text := ReminderHead + Join(mentions, ", ") + ReminderTail;
      JoinLength(mentions, ", ");
      assert text[..|ReminderHead|] == ReminderHead;
      assert text[|text| - |ReminderTail|..] == ReminderTail;
      Some(text)
  }

  /** Every incomplete member's mention is in the reminder, the `i`-th at its place after the first `i`. */
  lemma ReminderMentionsEveryone(mentions: seq<string>, i: nat)
    requires i < |mentions|
    ensures ReminderMessage(mentions).Some?
    ensures OccursAt(mentions[i], ReminderMessage(mentions).value, |ReminderHead| + JoinOffset(mentions, ", ", i))
  {
    JoinPartInFrame(ReminderHead, mentions, ", ", ReminderTail, i);
  }

  /** In the reminder, every mention but the last is followed by a comma and a space. */
  lemma ReminderSeparatesMentions(mentions: seq<string>, i: nat)
    requires i + 1 < |mentions|
    ensures ReminderMessage(mentions).Some?
    ensures OccursAt(", ", ReminderMessage(mentions).value, |ReminderHead| + JoinOffset(mentions, ", ", i) + |mentions[i]|)
  {
    JoinSepInFrame(ReminderHead, mentions, ", ", ReminderTail, i);
  }

  /** How a fired job ended: one of the early exits, or the list of members to remind. */
  datatype RunOutcome =
    | GuildMissing
    | ChannelUnavailable
    | PermissionDenied
    | NoUsers
    | SlugUnavailable
    | ProblemUnavailable
    | Checked(incomplete: seq<string>)

  /** `r` is the record of the day of one of the first `n` tracked members, who solved it. */
  predicate WrittenForTracked(r: Record, users: seq<TrackedUser>, n: int, feeds: string -> Feed,
                              guildId: string, slug: string, today: int) {
    exists k :: 0 <= k < n && k < |users| && Solved(feeds(users[k].username), slug)
      && IsDailyMatch(r, guildId, UserIdOf(users[k]), users[k].username, slug, today)
  }

  /** Every one of the first `n` tracked members who solved it, with a draft the schema accepts, has a record of the day. */
  predicate TrackedSolversRecorded(rs: seq<Record>, users: seq<TrackedUser>, n: int, feeds: string -> Feed,
                                   guildId: string, slug: string, problem: ProblemDetails, today: int) {
    forall k :: (0 <= k < n && k < |users| && Solved(feeds(users[k].username), slug)
      && Recordable(guildId, UserIdOf(users[k]), users[k].username, slug, problem)) ==>
      HasDailyRecord(rs, guildId, UserIdOf(users[k]), users[k].username, slug, today)
  }

  lemma WrittenForTrackedWidens(r: Record, users: seq<TrackedUser>, n: int, m: int, feeds: string -> Feed,
                                guildId: string, slug: string, today: int)
    requires n <= m && WrittenForTracked(r, users, n, feeds, guildId, slug, today)
    ensures WrittenForTracked(r, users, m, feeds, guildId, slug, today)
  {
  }

  lemma TrackedSolversRecordedStep(rs: seq<Record>, rs': seq<Record>, users: seq<TrackedUser>, n: int,
                                   feeds: string -> Feed, guildId: string, slug: string,
                                   problem: ProblemDetails, today: int)
    requires rs <= rs' && 0 <= n < |users|
    requires TrackedSolversRecorded(rs, users, n, feeds, guildId, slug, problem, today)
    requires (Solved(feeds(users[n].username), slug)
      && Recordable(guildId, UserIdOf(users[n]), users[n].username, slug, problem)) ==>
      HasDailyRecord(rs', guildId, UserIdOf(users[n]), users[n].username, slug, today)
    ensures TrackedSolversRecorded(rs', users, n + 1, feeds, guildId, slug, problem, today)
  {
    forall k | 0 <= k < n + 1 && k < |users| && Solved(feeds(users[k].username), slug)
      && Recordable(guildId, UserIdOf(users[k]), users[k].username, slug, problem)
      ensures HasDailyRecord(rs', guildId, UserIdOf(users[k]), users[k].username, slug, today)
    {
      if k < n {
        HasDailyRecordGrows(rs, rs', guildId, UserIdOf(users[k]), users[k].username, slug, today);
      }
    }
  }

  /** Every gate before the member loop passes. */
  predicate ReadyToCheck(guild: Option<GuildConfig>, channelFound: bool, canSend: bool,
                         slug: Result<string>, problem: Result<ProblemDetails>) {
    guild.Some? && channelFound && canSend && |guild.value.users| > 0
    && slug.Ok? && slug.value != ""
    && problem.Ok? && Truthy(problem.value.difficulty)
  }

  /**
   * The member loop of a fired job: each tracked member's feed is classified; an
   * unsolved member's mention is pushed, a solved one goes through the write path and
   * one whose request failed is passed over.
   */
  method CheckMembers(store: Store, guildId: string, users: seq<TrackedUser>, s: string, p: ProblemDetails,
                      feeds: string -> Feed, today: int, nowMs: int, parseDate: string -> Option<int>)
    returns (incomplete: seq<string>)
    modifies store
    ensures incomplete == IncompleteMentions(users, feeds, s)
    ensures old(store.records) <= store.records
    ensures OnePerDay(old(store.records)) ==> OnePerDay(store.records)
    ensures StreaksPositive(old(store.records)) ==> StreaksPositive(store.records)
    ensures forall j :: |old(store.records)| <= j < |store.records| ==>
      WrittenForTracked(store.records[j], users, |users|, feeds, guildId, s, today)
    ensures TrackedSolversRecorded(store.records, users, |users|, feeds, guildId, s, p, today)
  {
    incomplete := [];
    var i := 0;
    while i < |users|
      invariant 0 <= i <= |users|
      invariant incomplete == IncompleteMentions(users[..i], feeds, s)
      invariant old(store.records) <= store.records
      invariant OnePerDay(old(store.records)) ==> OnePerDay(store.records)
      invariant StreaksPositive(old(store.records)) ==> StreaksPositive(store.records)
      invariant forall j :: |old(store.records)| <= j < |store.records| ==>
        WrittenForTracked(store.records[j], users, i, feeds, guildId, s, today)
      invariant TrackedSolversRecorded(store.records, users, i, feeds, guildId, s, p, today)
    {
      var u := users[i];
      var feed := feeds(u.username);
      ghost var before := store.records;
      IncompleteMentionsStep(users, i, feeds, s);
      match Classify(feed, s) {
        case Skipped =>
        case Incomplete =>
          incomplete := incomplete + [MentionOf(u)];
        case Completed(_) =>
          RecordIfSolved(store, guildId, UserIdOf(u), u.username, feed, s, p, today, nowMs, parseDate);
      }
      TrackedSolversRecordedStep(before, store.records, users, i, feeds, guildId, s, p, today);
      forall j | |old(store.records)| <= j < |store.records|
        ensures WrittenForTracked(store.records[j], users, i + 1, feeds, guildId, s, today)
      {
        if j < |before| {
          assert store.records[j] == before[j];
          WrittenForTrackedWidens(before[j], users, i, i + 1, feeds, guildId, s, today);
        } else {
          assert IsDailyMatch(store.records[j], guildId, UserIdOf(users[i]), users[i].username, s, today);
        }
      }
      i := i + 1;
    }
    assert users[..|users|] == users;
  }

  /**
   * The callback of a job armed for `guildId`: `guild` is what `Guild.findOne` gives
   * when it fires, `channelFound` and `canSend` what the channel fetch and the
   * permission test give, `slug` and `problem` the daily-problem requests, `feeds`
   * each member's submissions request. Members are handled in order; a solved member is
   * recorded once per day under `discordId || username`, an unsolved one is listed by
   * mention, and one whose request fails is only logged.
   */
  method RunScheduledCheck(store: Store, guildId: string, guild: Option<GuildConfig>,
                           channelFound: bool, canSend: bool, slug: Result<string>,
                           problem: Result<ProblemDetails>, feeds: string -> Feed,
                           today: int, nowMs: int, parseDate: string -> Option<int>)
    returns (outcome: RunOutcome)
    modifies store
    ensures guild.None? ==> outcome == GuildMissing
    ensures guild.Some? && !channelFound ==> outcome == ChannelUnavailable
    ensures guild.Some? && channelFound && !canSend ==> outcome == PermissionDenied
    ensures guild.Some? && channelFound && canSend && |guild.value.users| == 0 ==> outcome == NoUsers
    ensures (guild.Some? && channelFound && canSend && |guild.value.users| > 0
      && (slug.Err? || slug.value == "")) ==> outcome == SlugUnavailable
    ensures (guild.Some? && channelFound && canSend && |guild.value.users| > 0 && slug.Ok? && slug.value != ""
      && (problem.Err? || !Truthy(problem.value.difficulty))) ==> outcome == ProblemUnavailable
    ensures ReadyToCheck(guild, channelFound, canSend, slug, problem) ==>
      outcome == Checked(IncompleteMentions(guild.value.users, feeds, slug.value))
    ensures !ReadyToCheck(guild, channelFound, canSend, slug, problem) ==> store.records == old(store.records)
    ensures old(store.records) <= store.records
    ensures OnePerDay(old(store.records)) ==> OnePerDay(store.records)
    ensures StreaksPositive(old(store.records)) ==> StreaksPositive(store.records)
    ensures ReadyToCheck(guild, channelFound, canSend, slug, problem) ==>
      forall j :: |old(store.records)| <= j < |store.records| ==>
        WrittenForTracked(store.records[j], guild.value.users, |guild.value.users|, feeds, guildId, slug.value, today)
    ensures ReadyToCheck(guild, channelFound, canSend, slug, problem) ==>
      TrackedSolversRecorded(store.records, guild.value.users, |guild.value.users|, feeds, guildId,
                             slug.value, problem.value, today)
  {
    if guild.None? {
      return GuildMissing;
    }
    if !channelFound {
      return ChannelUnavailable;
    }
    if !canSend {
      return PermissionDenied;
    }
    var users := guild.value.users;
    if |users| == 0 {
      return NoUsers;
    }
    if slug.Err? || slug.value == "" {
      return SlugUnavailable;
    }
    if problem.Err? || !Truthy(problem.value.difficulty) {
      return ProblemUnavailable;
    }
    var incomplete := CheckMembers(store, guildId, users, slug.value, problem.value, feeds, today, nowMs, parseDate);
    return Checked(incomplete);
  }
}

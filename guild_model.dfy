/**
 * The shape of the per-guild configuration documents the core reads (guild id,
 * announcement channel, tracked users, cron entries). How they are stored and edited
 * belongs to the configuration manager and the Guild model, which are not part of
 * this model.
 */
module GuildModel {
  import opened Common

  /** One entry of a guild's `users` map: a LeetCode username and the Discord id it is mapped to, if any. */
  datatype TrackedUser = TrackedUser(username: string, discordId: Option<string>)

  /** One entry of a guild's `cronJobs` list. */
  datatype CronEntry = CronEntry(task: string, schedule: string)

  datatype GuildConfig = GuildConfig(
    guildId: string,
    channelId: Option<string>,
    users: seq<TrackedUser>,
    cronJobs: seq<CronEntry>)

  /** The only task that arms a job. */
  const RunCheckTask: string := "runCheck"

  /** The member id stored in completion records: the Discord id when it is set, else the username (modules/scheduledTasks.js:140). */
  function UserIdOf(u: TrackedUser): (id: string)
    ensures Truthy(u.discordId) ==> id == u.discordId.value
    ensures !Truthy(u.discordId) ==> id == u.username
  {
    if Truthy(u.discordId) then u.discordId.value else u.username
  }

  /** How a member is named in the reminder: a Discord mention when an id is set, else the username (modules/scheduledTasks.js:166). */
  function MentionOf(u: TrackedUser): (m: string)
    ensures Truthy(u.discordId) ==> m == "<@" + u.discordId.value + ">"
    ensures !Truthy(u.discordId) ==> m == u.username
  {
    if Truthy(u.discordId) then "<@" + u.discordId.value + ">" else u.username
  }
}

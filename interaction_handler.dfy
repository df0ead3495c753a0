/**
 * The slash-command front end: which interactions reach a handler, who may add or
 * remove a tracked user, how the tracked-user list is rendered, and in which order the
 * schedule subcommands persist, reply and reload. Each handler is a decision returned
 * as a value; the configuration manager's calls and the replies are named in it.
 */
module InteractionHandler {
  import opened Common
  import opened GuildModel

  datatype Command = Check | AddUser | RemoveUser | ListUsers | SetChannel | ManageCron
                   | BotInfo | Streak | Leaderboard | Stats

  function CommandName(c: Command): string {
    match c
    case Check => "check"
    case AddUser => "adduser"
    case RemoveUser => "removeuser"
    case ListUsers => "listusers"
    case SetChannel => "setchannel"
    case ManageCron => "managecron"
    case BotInfo => "botinfo"
    case Streak => "streak"
    case Leaderboard => "leaderboard"
    case Stats => "stats"
  }

  /** The command names `handleInteraction` dispatches on; any other name is not a command. */
  function ParseCommand(name: string): (c: Option<Command>)
    ensures c.Some? ==> CommandName(c.value) == name
  {
    if name == "check" then Some(Check)
    else if name == "adduser" then Some(AddUser)
    else if name == "removeuser" then Some(RemoveUser)
    else if name == "listusers" then Some(ListUsers)
    else if name == "setchannel" then Some(SetChannel)
    else if name == "managecron" then Some(ManageCron)
    else if name == "botinfo" then Some(BotInfo)
    else if name == "streak" then Some(Streak)
    else if name == "leaderboard" then Some(Leaderboard)
    else if name == "stats" then Some(Stats)
    else None
  }

  /** Every command's name reaches that command's case. */
  lemma CommandNamesRoundTrip(c: Command)
    ensures ParseCommand(CommandName(c)) == Some(c)
  {
  }

  datatype Interaction = Interaction(isCommand: bool, commandName: string, guildId: Option<string>)

  datatype Dispatch = Ignored | Replied(text: string) | Handle(command: Command)

  const ServerOnly: string := "This command can only be used in a server."
  const UnknownCommand: string := "Unknown command."

  /** `handleInteraction`: non-commands are ignored, commands outside a server are refused, then the switch. */
  function HandleInteraction(i: Interaction): (d: Dispatch)
    ensures d == Ignored <==> !i.isCommand
    ensures i.isCommand && !Truthy(i.guildId) ==> d == Replied(ServerOnly)
    ensures d.Handle? <==> i.isCommand && Truthy(i.guildId) && ParseCommand(i.commandName).Some?
    ensures d.Handle? ==> CommandName(d.command) == i.commandName
    ensures d == Replied(UnknownCommand) <==> i.isCommand && Truthy(i.guildId) && ParseCommand(i.commandName).None?
  {
    if !i.isCommand then Ignored
    else if !Truthy(i.guildId) then Replied(ServerOnly)
    else
      match ParseCommand(i.commandName)
      case Some(c) => Handle(c)
      case None => Replied(UnknownCommand)
  }

  /** A command typed in a server reaches its handler. */
  lemma CommandInServerIsHandled(c: Command, guildId: string)
    requires guildId != ""
    ensures HandleInteraction(Interaction(true, CommandName(c), Some(guildId))) == Handle(c)
  {
    CommandNamesRoundTrip(c);
  }

  // ---------------------------------------------------------------------------
  // Permission gates

  /** The member issuing the command. */
  datatype Caller = Caller(id: string, username: string, manageRoles: bool, administrator: bool)

  predicate MayManageUsers(c: Caller) {
    c.manageRoles || c.administrator
  }

  const OnlySelfTarget: string :=
    "You can only add yourself to the tracking list. You need Manage Roles permission to add other users."
  const OnlySelfName: string :=
    "You can only add yourself to the tracking list. Please use your Discord username as the LeetCode username or mention yourself."
  const OnlySelfRemove: string :=
    "You can only remove yourself from the tracking list. You need Manage Roles permission to remove other users."

  /** Either a refusal, or the `addUser(guildId, username, discordId)` call whose result is the reply. */
  datatype AddDecision = AddRefused(reply: string) | CallAddUser(username: string, discordId: Option<string>)

  /**
   * `handleAddUser`: a member without Manage Roles or Administrator may name only
   * themself as the Discord user, or, naming nobody, only a LeetCode username equal to
   * their Discord username up to case. `target` is the id of the `discord_user` option.
   */
  function AddUserGate(caller: Caller, username: string, target: Option<string>): (d: AddDecision)
    ensures d.CallAddUser? <==> (MayManageUsers(caller)
      || (target.Some? && target.value == caller.id)
      || (target.None? && Lower(username) == Lower(caller.username)))
    ensures d.CallAddUser? ==> d.username == username && d.discordId == target
    ensures d.AddRefused? && target.Some? ==> d.reply == OnlySelfTarget
    ensures d.AddRefused? && target.None? ==> d.reply == OnlySelfName
  {
    if !MayManageUsers(caller) && target.Some? && target.value != caller.id then AddRefused(OnlySelfTarget)
    else if !MayManageUsers(caller) && target.None? && Lower(username) != Lower(caller.username) then AddRefused(OnlySelfName)
    else CallAddUser(username, target)
  }

  /** The name test ignores case: a name and its lower-cased form are treated alike. */
  lemma AddUserGateIgnoresCase(caller: Caller, username: string)
    ensures AddUserGate(caller, username, None).CallAddUser?
      <==> AddUserGate(caller, Lower(username), None).CallAddUser?
  {
    LowerIdempotent(username);
  }

  /** The first tracked entry whose LeetCode username is `username` (modules/interactionHandler.js:112). */
  function FindTracked(users: seq<TrackedUser>, username: string): (e: Option<TrackedUser>)
    ensures e.None? <==> forall i :: 0 <= i < |users| ==> users[i].username != username
    ensures e.Some? ==> exists i :: (0 <= i < |users| && users[i] == e.value && e.value.username == username
      && forall j :: 0 <= j < i ==> users[j].username != username)
  {
    if users == [] then None
    else if users[0].username == username then
      assert users[0] == users[0];
      Some(users[0])
    else
      var rest := FindTracked(users[1..], username);
      assert forall i :: 0 <= i < |users| - 1 ==> users[1..][i] == users[i + 1];
      if rest.Some? then
        var k :| 0 <= k < |users[1..]| && users[1..][k] == rest.value && rest.value.username == username
          && forall j :: 0 <= j < k ==> users[1..][j].username != username;
        assert users[k + 1] == rest.value;
        rest
      else
        rest
  }

  datatype RemoveDecision = RemoveRefused(reply: string) | CallRemoveUser(username: string)

  /**
   * `handleRemoveUser`: a member without Manage Roles or Administrator may remove only
   * a tracked username that is mapped to their own id.
   */
  function RemoveUserGate(caller: Caller, username: string, users: seq<TrackedUser>): (d: RemoveDecision)
    ensures d.CallRemoveUser? <==> (MayManageUsers(caller)
      || (FindTracked(users, username).Some? && FindTracked(users, username).value.discordId == Some(caller.id)))
    ensures d.CallRemoveUser? ==> d.username == username
    ensures d.RemoveRefused? ==> d.reply == OnlySelfRemove
  {
    if MayManageUsers(caller) then CallRemoveUser(username)
    else
      var entry := FindTracked(users, username);
      if entry.None? || entry.value.discordId != Some(caller.id) then RemoveRefused(OnlySelfRemove)
      else CallRemoveUser(username)
  }

  /** Without the permission, an untracked username or one mapped to somebody else is refused. */
  lemma RemoveOthersRefused(caller: Caller, username: string, users: seq<TrackedUser>)
    requires !MayManageUsers(caller)
    requires forall i :: 0 <= i < |users| && users[i].username == username ==> users[i].discordId != Some(caller.id)
    ensures RemoveUserGate(caller, username, users) == RemoveRefused(OnlySelfRemove)
  {
    var e := FindTracked(users, username);
    if e.Some? {
      var i :| 0 <= i < |users| && users[i] == e.value && e.value.username == username
        && forall j :: 0 <= j < i ==> users[j].username != username;
      assert users[i].discordId != Some(caller.id);
    }
  }

  /** A member mapped to their own id may remove that entry. */
  lemma RemoveSelfAllowed(caller: Caller, username: string, users: seq<TrackedUser>, i: int)
    requires 0 <= i < |users| && users[i] == TrackedUser(username, Some(caller.id))
    requires forall j :: 0 <= j < i ==> users[j].username != username
    ensures RemoveUserGate(caller, username, users) == CallRemoveUser(username)
  {
    var e := FindTracked(users, username);
    var k :| 0 <= k < |users| && users[k] == e.value && e.value.username == username
      && forall j :: 0 <= j < k ==> users[j].username != username;
    assert k == i;
  }

  // ---------------------------------------------------------------------------
  // The tracked-user list

  /** The bullet the source writes, three code points as they appear in the file. */
  const Bullet: string := "\U{00E2}\U{20AC}\U{00A2} "
  const ListHeader: string := "Currently tracking these users:\n"
  const NoUsersTracked: string := "No users are being tracked in this server."

  function UserLine(u: TrackedUser): string {
    if Truthy(u.discordId) then Bullet + u.username + " (<@" + u.discordId.value + ">)"
    else Bullet + u.username
  }

  function UserLines(users: seq<TrackedUser>): (lines: seq<string>)
    ensures |lines| == |users|
  {
    seq(|users|, i requires 0 <= i < |users| => UserLine(users[i]))
  }

  /** A mapped user is listed with the same mention the reminders use; an unmapped one by name alone. */
  lemma UserLineMentionsIffMapped(u: TrackedUser)
    ensures Truthy(u.discordId) ==> UserLine(u) == Bullet + u.username + " (" + MentionOf(u) + ")"
    ensures !Truthy(u.discordId) ==> UserLine(u) == Bullet + u.username
  {
  }

  /** Each line starts with the bullet, so a non-empty list joins to a non-empty string. */
  lemma UserListNonEmpty(users: seq<TrackedUser>)
    ensures |users| > 0 ==> Join(UserLines(users), "\n") != ""
  {
    if |users| > 0 {
      assert UserLines(users)[0] == UserLine(users[0]);
      assert UserLine(users[0])[0] == Bullet[0];
      JoinNonEmpty(UserLines(users), "\n");
    }
  }

  /** `handleListUsers`: the header and one line per tracked user, or the empty-list reply. */
  function ListUsersReply(users: seq<TrackedUser>): (r: string)
    ensures |users| == 0 <==> r == NoUsersTracked
    ensures |users| > 0 ==> r == ListHeader + Join(UserLines(users), "\n")
  {
    var list := Join(UserLines(users), "\n");
    UserListNonEmpty(users);
    if list != "" then
      assert (ListHeader + list)[0] == 'C';
      ListHeader + list
    else
      NoUsersTracked
  }

  // ---------------------------------------------------------------------------
  // The schedule subcommands

  datatype Subcommand = AddTime(hours: int, minutes: int) | RemoveTime(hours: int, minutes: int) | ListTimes

  /** One effect of the handler, in the order it happens. */
  datatype Step =
    | CallAddCronJob(guildId: string, hours: int, minutes: int)
    | CallRemoveCronJob(guildId: string, hours: int, minutes: int)
    | ReplyWithResult
    | ReplyText(text: string)
    | ReloadGuildJobs(guildId: string)

  /** Steps that change the configuration or the live jobs. */
  predicate Mutates(s: Step) {
    s.CallAddCronJob? || s.CallRemoveCronJob? || s.ReloadGuildJobs?
  }

  predicate Persists(s: Step) {
    s.CallAddCronJob? || s.CallRemoveCronJob?
  }

  /** The bounds the command registration puts on the integer options. */
  predicate TimeInRange(sub: Subcommand) {
    (sub.AddTime? || sub.RemoveTime?) ==> 0 <= sub.hours <= 23 && 0 <= sub.minutes <= 59
  }

  const NeedManageChannels: string := "You need the Manage Channels permission to use this command."

  /**
   * `handleManageCron`: without Manage Channels only the refusal; `add`/`remove`
   * persist through the configuration manager, reply with its result, then reload the
   * guild's jobs; `list` replies with `times` (what `listCronJobs` returns).
   */
  function ManageCronPlan(canManageChannels: bool, guildId: string, sub: Subcommand, times: seq<string>): (plan: seq<Step>)
    requires TimeInRange(sub)
    ensures !canManageChannels ==> plan == [ReplyText(NeedManageChannels)]
    ensures (!canManageChannels || sub.ListTimes?) ==> forall i :: 0 <= i < |plan| ==> !Mutates(plan[i])
    ensures canManageChannels && !sub.ListTimes? ==>
      && |plan| == 3 && Persists(plan[0]) && plan[1] == ReplyWithResult && plan[2] == ReloadGuildJobs(guildId)
      && plan[0].guildId == guildId && plan[0].hours == sub.hours && plan[0].minutes == sub.minutes
      && (plan[0].CallAddCronJob? <==> sub.AddTime?)
    ensures canManageChannels && sub.ListTimes? ==>
      plan == [ReplyText(if |times| == 0 then "No scheduled check times configured."
                         else "Scheduled check times:\n" + Join(times, "\n"))]
  {
    if !canManageChannels then [ReplyText(NeedManageChannels)]
    else
      match sub
      case AddTime(h, m) => [CallAddCronJob(guildId, h, m), ReplyWithResult, ReloadGuildJobs(guildId)]
      case RemoveTime(h, m) => [CallRemoveCronJob(guildId, h, m), ReplyWithResult, ReloadGuildJobs(guildId)]
      case ListTimes =>
        if |times| == 0 then [ReplyText("No scheduled check times configured.")]
        else [ReplyText("Scheduled check times:\n" + Join(times, "\n"))]
  }

  /** Every reload of the guild's jobs comes after the configuration change it picks up. */
  lemma ReloadFollowsPersist(canManageChannels: bool, guildId: string, sub: Subcommand, times: seq<string>, i: int)
    requires TimeInRange(sub)
    requires 0 <= i < |ManageCronPlan(canManageChannels, guildId, sub, times)|
    requires ManageCronPlan(canManageChannels, guildId, sub, times)[i].ReloadGuildJobs?
    ensures exists j :: 0 <= j < i && Persists(ManageCronPlan(canManageChannels, guildId, sub, times)[j])
  {
    var plan := ManageCronPlan(canManageChannels, guildId, sub, times);
    assert Persists(plan[0]);
  }
}

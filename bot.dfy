/**
 * The event handler of the bot: which handler a gateway event reaches, the
 * administrator check guarding the album-changing commands, and the
 * pronoun roles given and taken through reactions.
 */
module Bot {
  import opened Wrappers
  import opened StrOps

  type RoleId = nat
  type UserId = nat

  const GuildId: nat := 416194652744450048
  const PronounMessageId: nat := 606807344759963688
  const PongReply: string := "Pong!"
  const AdminOnlyReply: string := "Seul un\U{B7}e admin peut faire ceci."

  const Sunflower: string := "\U{1F33B}"
  const CherryBlossom: string := "\U{1F338}"
  const FourLeafClover: string := "\U{1F340}"
  const Blossom: string := "\U{1F33C}"

  /** The member who wrote a message, as the message carries it. */
  datatype PartialMember = PartialMember(roles: seq<RoleId>)

  datatype Message = Message(id: nat, channelId: nat, content: string, member: Option<PartialMember>)

  datatype ReactionEmoji = Unicode(name: string) | Custom(id: nat)

  datatype Reaction = Reaction(messageId: nat, userId: UserId, emoji: ReactionEmoji)

  datatype Event =
    | MessageCreate(msg: Message)
    | ReactionAdd(reaction: Reaction)
    | ReactionRemove(reaction: Reaction)
    | ShardConnected
    | OtherEvent

  /** The arm of `handle_event` a new message takes. */
  datatype Route = Pong | AddRoute | DeleteLastRoute | DeletePictureRoute | FindRoute | IgnoreRoute

  datatype Command = PictureAdd | DeleteLast | DeletePicture

  /** What handling an event does. */
  datatype Effect =
    | CreateMessage(channelId: nat, content: string)
    | ReplyTo(channelId: nat, messageId: nat, content: string)
    | RunCommand(command: Command, msg: Message)
    | FindAndSend(msg: Message)
    | AddGuildMemberRole(guildId: nat, userId: UserId, roleId: RoleId)
    | RemoveGuildMemberRole(guildId: nat, userId: UserId, roleId: RoleId)
    | LogConnected(shardId: nat)
    | NoEffect

  lemma CommandPrefixesExclusive(content: string)
    ensures !(StartsWith(content, "!add") && StartsWith(content, "!delete_last"))
    ensures !(StartsWith(content, "!add") && StartsWith(content, "!delete_pic"))
    ensures !(StartsWith(content, "!delete_last") && StartsWith(content, "!delete_pic"))
  {
    if StartsWith(content, "!add") { assert content[1] == 'a'; }
    if StartsWith(content, "!delete_last") { assert content[8] == 'l'; }
  }

  /**
   * The guards of `handle_event` over a new message, first match wins:
   * "patate" anywhere, then the three command prefixes, then any message
   * longer than one byte.
   */
  function RouteMessage(content: string): (r: Route)
    ensures r == Pong <==> Contains(content, "patate")
    ensures r == AddRoute <==> !Contains(content, "patate") && StartsWith(content, "!add")
    ensures r == DeleteLastRoute <==> !Contains(content, "patate") && StartsWith(content, "!delete_last")
    ensures r == DeletePictureRoute <==> !Contains(content, "patate") && StartsWith(content, "!delete_pic")
    ensures r in {AddRoute, DeleteLastRoute, DeletePictureRoute} ==> content[0] == '!'
    ensures r == IgnoreRoute <==>
      && r != Pong && r != AddRoute && r != DeleteLastRoute && r != DeletePictureRoute
      && (content == "" || (|content| == 1 && (content[0] as int) < 0x80))
  {
    CommandPrefixesExclusive(content);
    ByteLenAboveOne(content);
    if Contains(content, "patate") then Pong
    else if StartsWith(content, "!add") then AddRoute
    else if StartsWith(content, "!delete_last") then DeleteLastRoute
    else if StartsWith(content, "!delete_pic") then DeletePictureRoute
    else if ByteLen(content) > 1 then FindRoute
    else IgnoreRoute
  }

  /** `roles[i]` is the first administrator role among `roles`. */
  predicate FirstAdminAt(roles: seq<RoleId>, adminRoles: seq<RoleId>, i: nat) {
    i < |roles| && roles[i] in adminRoles && forall j :: 0 <= j < i ==> roles[j] !in adminRoles
  }

  /** `.iter().find(..)` over the member's roles: the first one that is an administrator role. */
  function FirstAdminRole(roles: seq<RoleId>, adminRoles: seq<RoleId>): (r: Option<RoleId>)
    ensures r.None? <==> forall i :: 0 <= i < |roles| ==> roles[i] !in adminRoles
    ensures r.Some? ==> exists i: nat :: FirstAdminAt(roles, adminRoles, i) && roles[i] == r.value
    decreases |roles|
  {
    if |roles| == 0 then None
    else if roles[0] in adminRoles then Some(roles[0])
    else
      var r := FirstAdminRole(roles[1..], adminRoles);
      assert forall i :: 0 < i < |roles| ==> roles[i] == roles[1..][i - 1];
      assert r.Some? ==> exists i: nat :: FirstAdminAt(roles, adminRoles, i) && roles[i] == r.value by {
        if r.Some? {
          var i: nat :| FirstAdminAt(roles[1..], adminRoles, i) && roles[1..][i] == r.value;
          assert FirstAdminAt(roles, adminRoles, i + 1);
        }
      }
      r
  }

  /** The three outcomes of `admin_guard`: admitted, refused with a reply, refused silently. */
  datatype GuardOutcome = Admitted | RefusedWithReply | NoMember

  /** `admin_guard`: admits a message whose author holds an administrator role. */
  function AdminGuard(member: Option<PartialMember>, adminRoles: seq<RoleId>): (g: GuardOutcome)
    ensures g == Admitted <==> member.Some? && exists role :: role in member.value.roles && role in adminRoles
    ensures g == NoMember <==> member.None?
  {
    match member
    case None => NoMember
    case Some(m) =>
      var first := FirstAdminRole(m.roles, adminRoles);
      assert first.Some? ==> first.value in m.roles;
      if first.Some? then Admitted else RefusedWithReply
  }

  /**
   * `if admin_guard(..) { command }`: the command runs for an administrator,
   * any other member gets the refusal as a reply, and a message without a
   * member gets nothing.
   */
  function Guarded(command: Command, msg: Message, adminRoles: seq<RoleId>): (r: Effect)
    ensures r == RunCommand(command, msg) <==>
      msg.member.Some? && exists role :: role in msg.member.value.roles && role in adminRoles
    ensures r == ReplyTo(msg.channelId, msg.id, AdminOnlyReply) <==>
      msg.member.Some? && forall role :: role in msg.member.value.roles ==> role !in adminRoles
    ensures r == NoEffect <==> msg.member.None?
  {
    match AdminGuard(msg.member, adminRoles)
    case Admitted => RunCommand(command, msg)
    case RefusedWithReply => ReplyTo(msg.channelId, msg.id, AdminOnlyReply)
    case NoMember => NoEffect
  }

  /** `role_from_emoji`: the pronoun role each of four flower emoji stands for. */
  function RoleFromEmoji(name: string): (r: Option<RoleId>)
    ensures r.Some? <==> name in {Sunflower, CherryBlossom, FourLeafClover, Blossom}
  {
    if name == Sunflower then Some(606807806938447872)
    else if name == CherryBlossom then Some(606807957052588042)
    else if name == FourLeafClover then Some(606808023108943872)
    else if name == Blossom then Some(606808071834173451)
    else None
  }

  /** Distinct emoji give distinct roles, so a removal takes back only what its addition gave. */
  lemma RoleFromEmojiInjective(a: string, b: string)
    requires RoleFromEmoji(a).Some? && RoleFromEmoji(a) == RoleFromEmoji(b)
    ensures a == b
  {
  }

  /** The role a reaction is about: only Unicode emoji on the pronoun message count. */
  function ReactionRole(reaction: Reaction): (r: Option<RoleId>)
    ensures r.Some? <==>
      (reaction.messageId == PronounMessageId && reaction.emoji.Unicode?
       && reaction.emoji.name in {Sunflower, CherryBlossom, FourLeafClover, Blossom})
  {
    if reaction.messageId == PronounMessageId && reaction.emoji.Unicode? then RoleFromEmoji(reaction.emoji.name)
    else None
  }

  /**
   * `handle_event` on a new message: "Pong!" in the same channel, one of the
   * guarded commands, a picture lookup, or nothing.
   */
  function HandleMessage(msg: Message, adminRoles: seq<RoleId>): (r: Effect)
    ensures r == CreateMessage(msg.channelId, PongReply) <==> Contains(msg.content, "patate")
    ensures r == FindAndSend(msg) <==>
      && !Contains(msg.content, "patate")
      && !StartsWith(msg.content, "!add")
      && !StartsWith(msg.content, "!delete_last")
      && !StartsWith(msg.content, "!delete_pic")
      && ByteLen(msg.content) > 1
    ensures r.RunCommand? ==> r.msg == msg && StartsWith(msg.content, "!")
    ensures r.ReplyTo? ==> r == ReplyTo(msg.channelId, msg.id, AdminOnlyReply) && StartsWith(msg.content, "!")
    ensures r.CreateMessage? || r.RunCommand? || r.ReplyTo? || r.FindAndSend? || r.NoEffect?
  {
    match RouteMessage(msg.content)
    case Pong => CreateMessage(msg.channelId, PongReply)
    case AddRoute => Guarded(PictureAdd, msg, adminRoles)
    case DeleteLastRoute => Guarded(DeleteLast, msg, adminRoles)
    case DeletePictureRoute => Guarded(DeletePicture, msg, adminRoles)
    case FindRoute => FindAndSend(msg)
    case IgnoreRoute => NoEffect
  }

  /**
   * `handle_event`: dispatches one gateway event. Only new messages lead to
   * messages, commands or lookups; only reactions lead to role changes,
   * always in the one guild, for the reacting user and the role of the
   * reaction.
   */
  function HandleEvent(shardId: nat, event: Event, adminRoles: seq<RoleId>): (r: Effect)
    ensures (r.CreateMessage? || r.ReplyTo? || r.RunCommand? || r.FindAndSend?) ==> event.MessageCreate?
    ensures r.AddGuildMemberRole? <==> event.ReactionAdd? && ReactionRole(event.reaction).Some?
    ensures r.RemoveGuildMemberRole? <==> event.ReactionRemove? && ReactionRole(event.reaction).Some?
    ensures (r.AddGuildMemberRole? || r.RemoveGuildMemberRole?) ==>
      && r.guildId == GuildId
      && r.userId == event.reaction.userId
      && ReactionRole(event.reaction) == Some(r.roleId)
    ensures r == LogConnected(shardId) <==> event.ShardConnected?
  {
    match event
    case MessageCreate(msg) => HandleMessage(msg, adminRoles)
    case ReactionAdd(reaction) =>
      (match ReactionRole(reaction)
       case Some(role) => AddGuildMemberRole(GuildId, reaction.userId, role)
       case None => NoEffect)
    case ReactionRemove(reaction) =>
      (match ReactionRole(reaction)
       case Some(role) => RemoveGuildMemberRole(GuildId, reaction.userId, role)
       case None => NoEffect)
    case ShardConnected => LogConnected(shardId)
    case OtherEvent => NoEffect
  }

  /** A message mentioning "patate" gets "Pong!" and nothing else, whatever command it starts with. */
  lemma PatateAlwaysPongs(shardId: nat, msg: Message, adminRoles: seq<RoleId>)
    requires Contains(msg.content, "patate")
    ensures HandleEvent(shardId, MessageCreate(msg), adminRoles) == CreateMessage(msg.channelId, PongReply)
  {
  }

  /**
   * A command runs exactly when the message starts with its prefix, does
   * not mention "patate", and its author holds an administrator role.
   */
  lemma CommandRunsOnlyForAdmins(shardId: nat, msg: Message, adminRoles: seq<RoleId>, command: Command)
    ensures HandleEvent(shardId, MessageCreate(msg), adminRoles) == RunCommand(command, msg) <==>
      && !Contains(msg.content, "patate")
      && StartsWith(msg.content, match command
                                 case PictureAdd => "!add"
                                 case DeleteLast => "!delete_last"
                                 case DeletePicture => "!delete_pic")
      && msg.member.Some?
      && exists role :: role in msg.member.value.roles && role in adminRoles
  {
  }

  /** Messages of no character, or of one ASCII character, are ignored. */
  lemma ShortMessagesIgnored(shardId: nat, msg: Message, adminRoles: seq<RoleId>)
    requires msg.content == "" || (|msg.content| == 1 && (msg.content[0] as int) < 0x80)
    ensures HandleEvent(shardId, MessageCreate(msg), adminRoles) == NoEffect
  {
    if |msg.content| == 1 {
      assert !Contains(msg.content, "patate") by {
        assert forall i: nat :: !OccursAt(msg.content, "patate", i);
      }
    }
  }

  /** Adding and removing the same reaction give and take the same role of the same user. */
  lemma ReactionsSymmetric(shardId: nat, reaction: Reaction, adminRoles: seq<RoleId>, role: RoleId)
    ensures HandleEvent(shardId, ReactionAdd(reaction), adminRoles) == AddGuildMemberRole(GuildId, reaction.userId, role)
      <==> HandleEvent(shardId, ReactionRemove(reaction), adminRoles) == RemoveGuildMemberRole(GuildId, reaction.userId, role)
  {
  }
}

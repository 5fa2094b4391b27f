/**
 * The values the bot receives from Slack, reduced to the fields bot.go and
 * message.go read or write: users, the bot's own Channel record (which unifies
 * public channels, private groups and direct-message conversations), messages
 * and the real-time events. Converting the library's channel, group and IM
 * records into a Channel happens in a file that is not part of this model, so
 * events carry the converted Channel.
 */
module SlackTypes {
  import opened Optional

  /** slack.User; `email` is Profile.Email. */
  datatype User = User(id: string, name: string, realName: string, email: string, presence: string)

  /** slack.Topic and slack.Purpose: a value, who set it and when (Unix seconds). */
  datatype Topic = Topic(value: string, creator: string, lastSet: int)

  const ZERO_TOPIC := Topic("", "", 0)

  /** slick's Channel: one record for channels, groups and IMs. An IM's Name is its User. */
  datatype Channel = Channel(
    id: string,
    name: string,
    creator: string,
    isChannel: bool,
    isGroup: bool,
    isIM: bool,
    isOpen: bool,
    isArchived: bool,
    isMember: bool,
    user: string,
    members: seq<string>,
    topic: Topic,
    purpose: Topic)

  /** Go's zero value `Channel{}`. */
  const ZERO_CHANNEL := Channel("", "", "", false, false, false, false, false, false, "", [], ZERO_TOPIC, ZERO_TOPIC)

  /** slack.Msg: the fields of a message the bot reads. */
  datatype Msg = Msg(
    subType: string,
    text: string,
    user: string,
    channel: string,
    timestamp: string,
    topic: string,
    purpose: string)

  /** The target of a reaction: a message timestamp or a file id. */
  datatype ReactionItem = ReactionItem(timestamp: string, file: string)

  /** A reaction event as ParseReactionEvent reports it. */
  datatype Reaction = Reaction(user: string, item: ReactionItem, emoji: string)

  /** slack.OutgoingMessage: text bound for a channel id. */
  datatype OutgoingMessage = OutgoingMessage(channel: string, text: string)

  /** What the four bulk fetches on connection return, plus the bot's own user id. */
  datatype ConnectInfo = ConnectInfo(
    self: string,
    channels: seq<Channel>,
    groups: seq<Channel>,
    ims: seq<Channel>,
    users: seq<User>)

  /** The Data of a slack.RTMEvent, one variant per case handleRTMEvent tells apart. */
  datatype Event =
    | LatencyReport(latency: int)
    | RTMError(code: int, message: string)
    | Connected(info: ConnectInfo)
    | Disconnected
    | Connecting(connectionCount: int, attempt: int)
    | Hello
    | MessageEvent(msg: Msg, sub: Option<Msg>)
    | PresenceChange(user: string, presence: string)
    | UserChange(changed: User)
    | ChannelRename(id: string, name: string)
    | ChannelJoined(joined: Channel)
    | ChannelCreated(id: string, name: string, creator: string)
    | ChannelDeleted(id: string)
    | ChannelArchive(id: string)
    | ChannelUnarchive(id: string)
    | GroupRename(id: string, name: string)
    | GroupJoined(joined: Channel)
    | GroupCreated(id: string, name: string, creator: string)
    | GroupClose(id: string)
    | GroupArchive(id: string)
    | GroupUnarchive(id: string)
    | IMCreated(id: string, user: string)
    | IMOpen(id: string, user: string)
    | IMClose(id: string)
    | AckError(code: int, message: string)
    | ReactionAdded(reaction: Reaction)
    | ReactionRemoved(reaction: Reaction)
    | Other(kind: string)

  /** The "message_changed" arm reads the sub-message without a nil check. */
  predicate WellFormed(e: Event)
  {
    e.MessageEvent? && e.msg.subType == "message_changed" ==> e.sub.Some?
  }
}

/**
 * The directory cache of bot.go as values: the `Users` and `Channels` maps
 * keyed by id, how a full reload builds them, how each directory event
 * changes them, what a lookup may answer, and which auto-join requests a
 * connection issues. The Bot class in bot.dfy is proved against these.
 */
module Directory {
  import opened Optional
  import opened Text
  import opened SlackTypes
  import Dates

  // ---------------------------------------------------------------------
  // Full reloads: cacheUsers and cacheChannels

  /** The map that `m[key(x)] = x` for each `x` of `s` in order builds from an empty map. */
  function Index<T>(s: seq<T>, key: T -> string): map<string, T>
    decreases |s|
  {
    if s == [] then map[] else Index(s[..|s| - 1], key)[key(s[|s| - 1]) := s[|s| - 1]]
  }

  /** The reloaded map has exactly the keys of the input, nothing left over from before. */
  lemma {:induction false} IndexKeys<T>(s: seq<T>, key: T -> string)
    ensures Index(s, key).Keys == set i | 0 <= i < |s| :: key(s[i])
    decreases |s|
  {
    if s != [] {
      var init := s[..|s| - 1];
      IndexKeys(init, key);
      assert forall i :: 0 <= i < |init| ==> init[i] == s[i];
      assert (set i | 0 <= i < |s| :: key(s[i]))
          == (set i | 0 <= i < |init| :: key(init[i])) + {key(s[|s| - 1])};
    }
  }

  /** Every entry is stored under its own key. */
  lemma {:induction false} IndexKeyed<T>(s: seq<T>, key: T -> string)
    ensures forall k :: k in Index(s, key) ==> key(Index(s, key)[k]) == k
    decreases |s|
  {
    if s != [] {
      IndexKeyed(s[..|s| - 1], key);
    }
  }

  /** On a key clash the later input wins: the last entry with a key is the one kept. */
  lemma {:induction false} IndexLastWins<T>(s: seq<T>, key: T -> string, j: int)
    requires 0 <= j < |s|
    requires forall i :: j < i < |s| ==> key(s[i]) != key(s[j])
    ensures key(s[j]) in Index(s, key) && Index(s, key)[key(s[j])] == s[j]
    decreases |s|
  {
    if j < |s| - 1 {
      var init := s[..|s| - 1];
      assert init[j] == s[j];
      IndexLastWins(init, key, j);
    }
  }

  function UserKey(u: User): string
  {
    u.id
  }

  function ChannelKey(c: Channel): string
  {
    c.id
  }

  /** cacheUsers: the user map rebuilt from the fetched users. */
  function CachedUsers(users: seq<User>): map<string, User>
  {
    Index(users, UserKey)
  }

  /** cacheChannels: channels, then groups, then IMs, inserted in that order. */
  function CachedChannels(channels: seq<Channel>, groups: seq<Channel>, ims: seq<Channel>): map<string, Channel>
  {
    Index(channels + groups + ims, ChannelKey)
  }

  /** Every channel is stored under its own id. */
  ghost predicate KeysMatchIds(chans: map<string, Channel>)
  {
    forall k :: k in chans ==> chans[k].id == k
  }

  /** Every user is stored under its own id. */
  ghost predicate UsersKeyed(users: map<string, User>)
  {
    forall k :: k in users ==> users[k].id == k
  }

  /** A reload keys the user map by exactly the fetched ids, each under its own id. */
  lemma CachedUsersKeys(users: seq<User>)
    ensures CachedUsers(users).Keys == set i | 0 <= i < |users| :: users[i].id
    ensures UsersKeyed(CachedUsers(users))
  {
    IndexKeys(users, UserKey);
    IndexKeyed(users, UserKey);
  }

  /**
   * A reload keys the channel map by exactly the fetched ids, whatever the
   * map held before, and an IM or group sharing an id with an earlier entry
   * replaces it.
   */
  lemma CachedChannelsKeys(channels: seq<Channel>, groups: seq<Channel>, ims: seq<Channel>)
    ensures var all := channels + groups + ims;
      CachedChannels(channels, groups, ims).Keys == set i | 0 <= i < |all| :: all[i].id
    ensures KeysMatchIds(CachedChannels(channels, groups, ims))
  {
    IndexKeys(channels + groups + ims, ChannelKey);
    IndexKeyed(channels + groups + ims, ChannelKey);
  }

  /** The entry a reload keeps for an id is the last fetched record with that id. */
  lemma CachedChannelsLastWins(channels: seq<Channel>, groups: seq<Channel>, ims: seq<Channel>, j: int)
    requires var all := channels + groups + ims;
      0 <= j < |all| && forall i :: j < i < |all| ==> all[i].id != all[j].id
    ensures var all := channels + groups + ims;
      all[j].id in CachedChannels(channels, groups, ims) && CachedChannels(channels, groups, ims)[all[j].id] == all[j]
  {
    IndexLastWins(channels + groups + ims, ChannelKey, j);
  }

  // ---------------------------------------------------------------------
  // Event-driven changes (handleRTMEvent)

  /** `bot.Channels[id]`: the cached entry, or Go's zero Channel for a missing id. */
  function Cached(chans: map<string, Channel>, id: string): Channel
  {
    if id in chans then chans[id] else ZERO_CHANNEL
  }

  /** The Topic or Purpose a channel_topic or channel_purpose message records. */
  function TopicOf(m: Msg, value: string): Topic
  {
    Topic(value, m.user, Dates.UnixFromTimestamp(m.timestamp))
  }

  /** What one event does to the Channels map. */
  datatype ChannelChange =
    | Reload(channels: seq<Channel>, groups: seq<Channel>, ims: seq<Channel>)  // cacheChannels
    | Put(key: string, entry: Channel)  // one map write
    | Drop(id: string)  // deleteChannel
    | Keep

  /** updateChannel: the entry goes under the id it carries. */
  function Update(c: Channel): ChannelChange
  {
    Put(c.id, c)
  }

  /** The rename, archive and unarchive arms: they edit one field of the cached entry. */
  predicate IsChannelEdit(e: Event)
  {
    e.ChannelRename? || e.GroupRename? || e.ChannelArchive? || e.GroupArchive?
    || e.ChannelUnarchive? || e.GroupUnarchive?
  }

  /** The delete and close arms: they call deleteChannel. */
  predicate IsDrop(e: Event)
  {
    e.ChannelDeleted? || e.GroupClose? || e.IMClose?
  }

  /** The join, create and IM-open arms: they store a channel the event carries or describes. */
  predicate IsStore(e: Event)
  {
    e.ChannelJoined? || e.GroupJoined? || e.ChannelCreated? || e.GroupCreated? || e.IMCreated? || e.IMOpen?
  }

  /** The entry an edit arm stores: the cached one with the new Name or IsArchived. */
  function Edited(c: Channel, e: Event): Channel
    requires IsChannelEdit(e)
  {
    if e.ChannelRename? || e.GroupRename? then c.(name := e.name)
    else c.(isArchived := e.ChannelArchive? || e.GroupArchive?)
  }

  /** The entry a store arm writes: the joined channel, or a zero Channel filled from the event. */
  function Carried(e: Event): Channel
    requires IsStore(e)
  {
    match e
    case ChannelJoined(c) => c
    case GroupJoined(c) => c
    case ChannelCreated(id, name, creator) =>
      ZERO_CHANNEL.(id := id, name := name, creator := creator, isChannel := true)
    case GroupCreated(id, name, creator) =>
      ZERO_CHANNEL.(id := id, name := name, creator := creator, isGroup := true)
    case IMCreated(id, user) => ZERO_CHANNEL.(id := id, user := user, isIM := true)
    case IMOpen(id, user) => ZERO_CHANNEL.(id := id, user := user, isIM := true)
  }

  /** The channel_topic and channel_purpose arms write to a cached channel only. */
  function TopicChange(chans: map<string, Channel>, m: Msg): ChannelChange
  {
    if m.subType == "channel_topic" && m.channel in chans then
      Put(m.channel, chans[m.channel].(topic := TopicOf(m, m.topic)))
    else if m.subType == "channel_purpose" && m.channel in chans then
      Put(m.channel, chans[m.channel].(purpose := TopicOf(m, m.purpose)))
    else Keep
  }

  /** The change handleRTMEvent makes to the Channels map for `e`. */
  function ChangeOf(chans: map<string, Channel>, e: Event): ChannelChange
  {
    if e.Connected? then Reload(e.info.channels, e.info.groups, e.info.ims)
    else if e.MessageEvent? then TopicChange(chans, e.msg)
    else if IsChannelEdit(e) then Update(Edited(Cached(chans, e.id), e))
    else if IsDrop(e) then Drop(e.id)
    else if IsStore(e) then Update(Carried(e))
    else Keep
  }

  function ApplyChange(chans: map<string, Channel>, ch: ChannelChange): map<string, Channel>
  {
    match ch
    case Reload(channels, groups, ims) => CachedChannels(channels, groups, ims)
    case Put(k, c) => chans[k := c]
    case Drop(id) => chans - {id}
    case Keep => chans
  }

  /** The Channels map after handleRTMEvent has processed `e`. */
  function ChannelsAfter(chans: map<string, Channel>, e: Event): map<string, Channel>
  {
    ApplyChange(chans, ChangeOf(chans, e))
  }

  /**
   * The Users map after handleRTMEvent has processed `e`. A presence change
   * writes to a local copy of the user in bot.go, so it leaves the map
   * as it was.
   */
  function UsersAfter(users: map<string, User>, e: Event): map<string, User>
  {
    match e
    case Connected(info) => CachedUsers(info.users)
    case UserChange(u) => users[u.id := u]
    case _ => users
  }

  /** The bot's own id after `e`: a connection reports it. */
  function SelfAfter(self: string, e: Event): string
  {
    if e.Connected? then e.info.self else self
  }

  /** An edit arm stores the edited copy of the cached entry under the id the copy carries. */
  lemma EditAfter(chans: map<string, Channel>, e: Event)
    requires IsChannelEdit(e)
    ensures var c := Edited(Cached(chans, e.id), e);
            ChannelsAfter(chans, e) == chans[c.id := c]
  {
  }

  /** A delete or close arm drops the entry under the id. */
  lemma DropAfter(chans: map<string, Channel>, e: Event)
    requires IsDrop(e)
    ensures ChannelsAfter(chans, e) == chans - {e.id}
  {
  }

  /** A join, create or IM-open arm stores the described channel under its id. */
  lemma StoreAfter(chans: map<string, Channel>, e: Event)
    requires IsStore(e)
    ensures ChannelsAfter(chans, e) == chans[Carried(e).id := Carried(e)]
  {
  }

  /** Every write an event makes puts the entry under its own id, as long as the map already keeps that rule. */
  lemma ChangeOfPutsUnderId(chans: map<string, Channel>, e: Event)
    requires KeysMatchIds(chans)
    ensures ChangeOf(chans, e).Put? ==> ChangeOf(chans, e).entry.id == ChangeOf(chans, e).key
  {
  }

  /** A change that writes entries under their own ids keeps every entry under its own id. */
  lemma ApplyChangeKeepsIds(chans: map<string, Channel>, ch: ChannelChange)
    requires KeysMatchIds(chans)
    requires ch.Put? ==> ch.entry.id == ch.key
    ensures KeysMatchIds(ApplyChange(chans, ch))
  {
    if ch.Reload? {
      CachedChannelsKeys(ch.channels, ch.groups, ch.ims);
    }
  }

  /** Every event keeps each channel stored under its own id. */
  lemma ChannelsAfterKeepsIds(chans: map<string, Channel>, e: Event)
    requires KeysMatchIds(chans)
    ensures KeysMatchIds(ChannelsAfter(chans, e))
  {
    ChangeOfPutsUnderId(chans, e);
    ApplyChangeKeepsIds(chans, ChangeOf(chans, e));
  }

  /** Every event keeps each user stored under its own id. */
  lemma UsersAfterKeepsIds(users: map<string, User>, e: Event)
    requires UsersKeyed(users)
    ensures UsersKeyed(UsersAfter(users, e))
  {
    if e.Connected? {
      CachedUsersKeys(e.info.users);
    }
  }

  /** Renaming a cached channel or group changes its Name and nothing else. */
  lemma RenameChangesOnlyName(chans: map<string, Channel>, e: Event)
    requires KeysMatchIds(chans)
    requires (e.ChannelRename? || e.GroupRename?) && e.id in chans
    ensures ChannelsAfter(chans, e) == chans[e.id := chans[e.id].(name := e.name)]
  {
  }

  /** Archiving or unarchiving a cached channel or group changes its IsArchived and nothing else. */
  lemma ArchiveChangesOnlyFlag(chans: map<string, Channel>, e: Event)
    requires KeysMatchIds(chans)
    requires (e.ChannelArchive? || e.GroupArchive? || e.ChannelUnarchive? || e.GroupUnarchive?) && e.id in chans
    ensures ChannelsAfter(chans, e)
         == chans[e.id := chans[e.id].(isArchived := e.ChannelArchive? || e.GroupArchive?)]
  {
  }

  /**
   * Renaming, archiving or unarchiving an id that is not cached stores a
   * zero Channel carrying only the new Name or IsArchived under the empty key.
   */
  lemma UncachedChangeLandsUnderEmptyKey(chans: map<string, Channel>, e: Event)
    requires e.ChannelRename? || e.GroupRename? || e.ChannelArchive? || e.GroupArchive?
          || e.ChannelUnarchive? || e.GroupUnarchive?
    requires e.id !in chans
    ensures ChannelsAfter(chans, e)
         == chans["" := if e.ChannelRename? || e.GroupRename? then ZERO_CHANNEL.(name := e.name)
                        else ZERO_CHANNEL.(isArchived := e.ChannelArchive? || e.GroupArchive?)]
  {
  }

  // ---------------------------------------------------------------------
  // Lookups

  /** A Go comma-ok map read: the entry under `k`, if any. */
  function Lookup<T>(m: map<string, T>, k: string): Option<T>
  {
    if k in m then Some(m[k]) else None
  }

  /** GetUser's test: the query equals the email, id, name or real name. */
  predicate UserMatches(u: User, find: string)
  {
    u.email == find || u.id == find || u.name == find || u.realName == find
  }

  /** GetIMChannelWith's test: an IM whose User is the given user's id. */
  predicate IsIMWith(c: Channel, userId: string)
  {
    c.isIM && c.user == userId
  }

  /** The name GetChannelByName looks for: the query without its leading '#'s. */
  function ChannelQuery(name: string): (q: string)
    ensures q == [] || q[0] != '#'
    ensures exists k :: 0 <= k <= |name| && q == name[k..] && forall i :: 0 <= i < k ==> name[i] == '#'
  {
    var q := TrimLeft(name, '#');
    assert q == name[|name| - |q|..];
    q
  }

  // ---------------------------------------------------------------------
  // Auto-join on connection

  /**
   * What one configured name may give: the id of a cached non-member
   * channel of that name, or no request when no channel has the name or the
   * one the lookup found is already joined.
   */
  ghost predicate JoinOutcome(chans: map<string, Channel>, name: string, out: seq<string>)
  {
    var q := ChannelQuery(name);
    (exists c :: c in chans.Values && c.name == q && !c.isMember && out == [c.id])
    || (out == [] && ((forall c :: c in chans.Values ==> c.name != q)
                      || (exists c :: c in chans.Values && c.name == q && c.isMember)))
  }

  /** The join requests for `names`, in order, one outcome per name. */
  ghost predicate JoinRequests(chans: map<string, Channel>, names: seq<string>, reqs: seq<string>)
    decreases |names|
  {
    if names == [] then reqs == []
    else
      var init, last := names[..|names| - 1], names[|names| - 1];
      (JoinRequests(chans, init, reqs) && JoinOutcome(chans, last, []))
      || (|reqs| > 0 && JoinRequests(chans, init, reqs[..|reqs| - 1])
          && JoinOutcome(chans, last, [reqs[|reqs| - 1]]))
  }

  /** What the channel lookup may answer decides the name's outcome: a request for a non-member hit, none otherwise. */
  lemma LookupGivesOutcome(chans: map<string, Channel>, name: string, c: Option<Channel>)
    requires c.Some? ==> c.value in chans.Values && c.value.name == ChannelQuery(name)
    requires c.None? ==> forall x :: x in chans.Values ==> x.name != ChannelQuery(name)
    ensures JoinOutcome(chans, name, if c.Some? && !c.value.isMember then [c.value.id] else [])
  {
  }

  /** One more configured name appends its outcome, if any, to the requests. */
  lemma JoinRequestsExtend(chans: map<string, Channel>, names: seq<string>, name: string,
                           reqs: seq<string>, out: seq<string>)
    requires JoinRequests(chans, names, reqs) && JoinOutcome(chans, name, out) && |out| <= 1
    ensures JoinRequests(chans, names + [name], reqs + out)
  {
    var all := names + [name];
    assert all[..|all| - 1] == names && all[|all| - 1] == name;
    if out != [] {
      assert (reqs + out)[..|reqs + out| - 1] == reqs;
    } else {
      assert reqs + out == reqs;
    }
  }

  /** The ids of the cached channels the bot is not a member of. */
  ghost function NonMemberIds(chans: map<string, Channel>): set<string>
  {
    set c | c in chans.Values && !c.isMember :: c.id
  }

  /** At most one request per configured name, each for a cached channel the bot is not in. */
  lemma {:induction false} JoinRequestsTargetNonMembers(chans: map<string, Channel>, names: seq<string>, reqs: seq<string>)
    requires JoinRequests(chans, names, reqs)
    ensures |reqs| <= |names|
    ensures forall i :: 0 <= i < |reqs| ==> reqs[i] in NonMemberIds(chans)
    decreases |names|
  {
    if names != [] {
      var init, last := names[..|names| - 1], names[|names| - 1];
      if JoinRequests(chans, init, reqs) && JoinOutcome(chans, last, []) {
        JoinRequestsTargetNonMembers(chans, init, reqs);
      } else {
        var front := reqs[..|reqs| - 1];
        JoinRequestsTargetNonMembers(chans, init, front);
        assert JoinOutcome(chans, last, [reqs[|reqs| - 1]]);
        forall i | 0 <= i < |reqs|
          ensures reqs[i] in NonMemberIds(chans)
        {
          if i < |reqs| - 1 {
            assert reqs[i] == front[i];
          }
        }
      }
    }
  }
}

/**
 * The Bot of bot.go, run one step at a time: the Users and Channels
 * caches and their upkeep, the lookups, the auto-join requests a
 * connection issues, the listener registry with its add and delete queues,
 * the processing and fan-out of one RTM event, and the outgoing message
 * queue. The Slack connection, goroutines and the handlers' own work are
 * left out: what the bot would send to Slack is recorded in fields.
 */
module Slick {
  import opened Optional
  import opened Text
  import opened SlackTypes
  import opened Messages
  import opened Directory
  import opened Registry

  /** The buffer size of the outgoing message channel made in New. */
  const QUEUE_CAPACITY := 500

  /** The messages in the outgoing queue in order, nil entries skipped. */
  function Present(q: seq<Option<OutgoingMessage>>): seq<OutgoingMessage>
  {
    if q == [] then [] else (if q[0].Some? then [q[0].value] else []) + Present(q[1..])
  }

  /** Appending a message to the queue appends it to what will be sent. */
  lemma {:induction false} PresentAppend(q: seq<Option<OutgoingMessage>>, m: OutgoingMessage)
    ensures Present(q + [Some(m)]) == Present(q) + [m]
  {
    if q != [] {
      assert (q + [Some(m)])[1..] == q[1..] + [Some(m)];
      PresentAppend(q[1..], m);
    }
  }

  /** Which ready case the select of messageHandler takes. */
  datatype Incoming =
    | AddReady  // a listener waits on addListenerCh
    | DeleteReady  // a listener waits on delListenerCh
    | EventReady(event: Event, closes: seq<Listener>)  // an RTM event; `closes` are the Close() calls its handlers make

  class Bot {
    var myself: string
    var users: map<string, User>
    var channels: map<string, Channel>
    /** The JoinChannels setting. */
    const joinChannels: seq<string>
    /** ParseReactionEvent, which lives outside bot.go. */
    const parseReaction: Payload -> Option<Reaction>

    var listeners: seq<Listener>
    /** addListenerCh and delListenerCh, oldest first. */
    var addQueue: seq<Listener>
    var delQueue: seq<Listener>

    /** outgoingMsgCh, oldest first, and what replyHandler has handed to the connection. */
    var outbox: seq<Option<OutgoingMessage>>
    var sent: seq<OutgoingMessage>
    /** Every message ever queued for sending, in order. */
    ghost var enqueued: seq<OutgoingMessage>

    /** The channel ids JoinChannel was called with, in order. */
    var joinRequests: seq<string>
    /** What the listeners were handed, in order. */
    var trace: seq<Delivery>

    /** Caches keyed by id; the outgoing queue within its buffer, delivering in the order of sending. */
    ghost predicate Valid()
      reads this
    {
      KeysMatchIds(channels) && UsersKeyed(users)
      && |outbox| <= QUEUE_CAPACITY
      && enqueued == sent + Present(outbox)
    }

    /** New: empty caches and queues. */
    constructor (joinChannels: seq<string>, parseReaction: Payload -> Option<Reaction>)
      ensures Valid()
      ensures this.joinChannels == joinChannels && this.parseReaction == parseReaction
      ensures myself == "" && users == map[] && channels == map[]
      ensures listeners == [] && addQueue == [] && delQueue == []
      ensures outbox == [] && sent == [] && enqueued == []
      ensures joinRequests == [] && trace == []
    {
      this.joinChannels, this.parseReaction := joinChannels, parseReaction;
      myself, users, channels := "", map[], map[];
      listeners, addQueue, delQueue := [], [], [];
      outbox, sent, enqueued := [], [], [];
      joinRequests, trace := [], [];
    }

    // -------------------------------------------------------------------
    // Directory cache

    /** updateChannel: store the channel under its id; every other entry stays. */
    method UpdateChannel(c: Channel)
      modifies this`channels
      ensures channels == old(channels)[c.id := c]
    {
      channels := channels[c.id := c];
    }

    /** deleteChannel: drop the entry under `id`, if any; every other entry stays. */
    method DeleteChannel(id: string)
      modifies this`channels
      ensures channels == old(channels) - {id}
    {
      channels := channels - {id};
    }

    /** cacheUsers: replace the user map by the fetched users, keyed by id. */
    method CacheUsers(us: seq<User>)
      modifies this`users
      ensures users == CachedUsers(us)
    {
      users := map[];
      for i := 0 to |us|
        invariant users == Index(us[..i], UserKey)
      {
        assert us[..i + 1][..i] == us[..i];
        users := users[us[i].id := us[i]];
      }
      assert us[..|us|] == us;
    }

    /** cacheChannels: replace the channel map by the channels, then groups, then IMs. */
    method CacheChannels(chs: seq<Channel>, groups: seq<Channel>, ims: seq<Channel>)
      modifies this`channels
      ensures channels == CachedChannels(chs, groups, ims)
    {
      channels := map[];
      StoreChannels([], chs);
      assert [] + chs == chs;
      StoreChannels(chs, groups);
      StoreChannels(chs + groups, ims);
    }

    /** One loop of cacheChannels: updateChannel for each of `xs` in order, on top of the map `done` built. */
    method StoreChannels(ghost done: seq<Channel>, xs: seq<Channel>)
      requires channels == Index(done, ChannelKey)
      modifies this`channels
      ensures channels == Index(done + xs, ChannelKey)
    {
      assert done + xs[..0] == done;
      for i := 0 to |xs|
        invariant channels == Index(done + xs[..i], ChannelKey)
      {
        assert (done + xs[..i + 1])[..|done| + i] == done + xs[..i];
        UpdateChannel(xs[i]);
      }
      assert xs[..|xs|] == xs;
    }

    // -------------------------------------------------------------------
    // Lookups: searches over a map whose iteration order is unspecified

    /** GetUser: some cached user matching on email, id, name or real name; None only if none does. */
    method GetUser(find: string) returns (u: Option<User>)
      ensures u.Some? ==> u.value in users.Values && UserMatches(u.value, find)
      ensures u.None? ==> forall x :: x in users.Values ==> !UserMatches(x, find)
    {
      var rest := users.Values;
      while rest != {}
        invariant rest <= users.Values
        invariant forall x :: x in users.Values - rest ==> !UserMatches(x, find)
        decreases |rest|
      {
        var x :| x in rest;
        if x.email == find || x.id == find || x.name == find || x.realName == find {
          return Some(x);
        }
        rest := rest - {x};
      }
      return None;
    }

    /** GetChannelByName: some cached channel named like the query without its leading '#'s; None only if none is. */
    method GetChannelByName(name: string) returns (c: Option<Channel>)
      ensures c.Some? ==> c.value in channels.Values && c.value.name == ChannelQuery(name)
      ensures c.None? ==> forall x :: x in channels.Values ==> x.name != ChannelQuery(name)
    {
      var q := ChannelQuery(name);
      var rest := channels.Values;
      while rest != {}
        invariant rest <= channels.Values
        invariant forall x :: x in channels.Values - rest ==> x.name != q
        decreases |rest|
      {
        var x :| x in rest;
        if x.name == q {
          return Some(x);
        }
        rest := rest - {x};
      }
      return None;
    }

    /** GetIMChannelWith: some cached IM with the user; None only if there is none. */
    method GetIMChannelWith(user: User) returns (c: Option<Channel>)
      ensures c.Some? ==> c.value in channels.Values && IsIMWith(c.value, user.id)
      ensures c.None? ==> forall x :: x in channels.Values ==> !IsIMWith(x, user.id)
    {
      var rest := channels.Values;
      while rest != {}
        invariant rest <= channels.Values
        invariant forall x :: x in channels.Values - rest ==> !IsIMWith(x, user.id)
        decreases |rest|
      {
        var x :| x in rest;
        if !x.isIM {
          rest := rest - {x};
          continue;
        }
        if x.user == user.id {
          return Some(x);
        }
        rest := rest - {x};
      }
      return None;
    }

    /** The auto-join pass on connection: one lookup per configured name, a request per non-member hit. */
    method AutoJoinRequests() returns (reqs: seq<string>)
      ensures JoinRequests(channels, joinChannels, reqs)
    {
      reqs := [];
      for i := 0 to |joinChannels|
        invariant JoinRequests(channels, joinChannels[..i], reqs)
      {
        assert joinChannels[..i + 1] == joinChannels[..i] + [joinChannels[i]];
        reqs := AutoJoinOne(joinChannels[..i], joinChannels[i], reqs);
      }
      assert joinChannels[..|joinChannels|] == joinChannels;
    }

    /** One pass of the auto-join loop: look the name up and request a join when the hit is not joined yet. */
    method AutoJoinOne(ghost done: seq<string>, name: string, reqs: seq<string>) returns (reqs': seq<string>)
      requires JoinRequests(channels, done, reqs)
      ensures JoinRequests(channels, done + [name], reqs')
    {
      var c := GetChannelByName(name);
      var out := if c.Some? && !c.value.isMember then [c.value.id] else [];
      LookupGivesOutcome(channels, name, c);
      JoinRequestsExtend(channels, done, name, reqs, out);
      reqs' := reqs + out;
    }

    // -------------------------------------------------------------------
    // handleRTMEvent

    /** The arms of handleRTMEvent for events other than messages. */
    method ApplyDirectoryEvent(e: Event)
      requires Valid() && !e.MessageEvent?
      modifies this`myself, this`users, this`channels, this`joinRequests
      ensures Valid()
      ensures channels == ChannelsAfter(old(channels), e)
      ensures users == UsersAfter(old(users), e)
      ensures myself == SelfAfter(old(myself), e)
      ensures e.Connected? ==>
                |joinRequests| >= |old(joinRequests)|
                && joinRequests[..|old(joinRequests)|] == old(joinRequests)
                && JoinRequests(channels, joinChannels, joinRequests[|old(joinRequests)|..])
      ensures !e.Connected? ==> joinRequests == old(joinRequests)
    {
      if e.Connected? {
        Connect(e.info);
      } else if e.UserChange? {
        UsersAfterKeepsIds(users, e);
        users := users[e.changed.id := e.changed];
      } else {
        ChannelsAfterKeepsIds(channels, e);
        ApplyChannelChange(e);
      }
    }

    /** The connection arm: record the bot's identity, reload both caches, then request the auto-joins. */
    method Connect(info: ConnectInfo)
      requires Valid()
      modifies this`myself, this`users, this`channels, this`joinRequests
      ensures Valid()
      ensures myself == info.self
      ensures users == CachedUsers(info.users)
      ensures channels == CachedChannels(info.channels, info.groups, info.ims)
      ensures |joinRequests| >= |old(joinRequests)|
      ensures joinRequests[..|old(joinRequests)|] == old(joinRequests)
      ensures JoinRequests(channels, joinChannels, joinRequests[|old(joinRequests)|..])
    {
      CachedUsersKeys(info.users);
      CachedChannelsKeys(info.channels, info.groups, info.ims);
      myself := info.self;
      CacheUsers(info.users);
      CacheChannels(info.channels, info.groups, info.ims);
      var reqs := AutoJoinRequests();
      joinRequests := joinRequests + reqs;
      assert joinRequests[|old(joinRequests)|..] == reqs;
    }

    /**
     * The channel, group and IM arms: an edit of the cached entry (or of a zero
     * Channel when the id is not cached) stored back by updateChannel, a
     * deleteChannel, or an updateChannel of the channel the event describes.
     */
    method ApplyChannelChange(e: Event)
      requires !e.MessageEvent? && !e.Connected? && !e.UserChange?
      modifies this`channels
      ensures channels == ChannelsAfter(old(channels), e)
    {
      if IsChannelEdit(e) {
        EditAfter(channels, e);
        var c := if e.id in channels then channels[e.id] else ZERO_CHANNEL;
        UpdateChannel(Edited(c, e));
      } else if IsDrop(e) {
        DropAfter(channels, e);
        DeleteChannel(e.id);
      } else if IsStore(e) {
        StoreAfter(channels, e);
        UpdateChannel(Carried(e));
      }
    }

    /**
     * The message arm of handleRTMEvent: build the Message, take an edit's
     * text and author from the sub-message, record a topic or purpose change
     * on a cached channel, resolve author and channel, then apply the
     * mention and authorship rules.
     */
    method BuildMessage(m: Msg, sub: Option<Msg>) returns (msg: Message)
      requires Valid() && WellFormed(MessageEvent(m, sub))
      modifies this`channels
      ensures Valid()
      ensures channels == ChannelsAfter(old(channels), MessageEvent(m, sub))
      ensures fresh(msg)
      ensures msg.msg == EditedMsg(m, sub) && msg.subMessage == sub
      ensures msg.isEdit <==> m.subType == "message_changed"
      ensures msg.fromUser == Lookup(users, AuthorId(m, sub))
      ensures msg.fromChannel == Lookup(channels, m.channel)
      ensures msg.mentionsMe == MentionsSelf(msg.msg, myself)
      ensures msg.fromMe == FromSelf(msg.msg, myself)
    {
      if m.subType != "message_changed" {
        RecordTopicChange(m, sub);
      }
      msg := ResolveMessage(m, sub);
    }

    /** The Message for a message event, resolved against the caches as they now are. */
    method ResolveMessage(m: Msg, sub: Option<Msg>) returns (msg: Message)
      requires WellFormed(MessageEvent(m, sub))
      ensures fresh(msg)
      ensures msg.msg == EditedMsg(m, sub) && msg.subMessage == sub
      ensures msg.isEdit <==> m.subType == "message_changed"
      ensures msg.fromUser == Lookup(users, AuthorId(m, sub))
      ensures msg.fromChannel == Lookup(channels, m.channel)
      ensures msg.mentionsMe == MentionsSelf(msg.msg, myself)
      ensures msg.fromMe == FromSelf(msg.msg, myself)
    {
      msg := new Message(m, sub);
      var userId := m.user;
      if m.subType == "message_changed" {
        userId := sub.value.user;
        msg.msg := msg.msg.(text := sub.value.text);
        msg.isEdit := true;
      }
      msg.fromUser := if userId in users then Some(users[userId]) else None;
      msg.fromChannel := if m.channel in channels then Some(channels[m.channel]) else None;
      msg.ApplyMentionsMe(myself);
      msg.ApplyFromMe(myself);
    }

    /** The channel_topic and channel_purpose arms: the change is recorded on a cached channel only. */
    method RecordTopicChange(m: Msg, sub: Option<Msg>)
      requires Valid() && m.subType != "message_changed"
      modifies this`channels
      ensures Valid()
      ensures channels == ChannelsAfter(old(channels), MessageEvent(m, sub))
    {
      ChannelsAfterKeepsIds(channels, MessageEvent(m, sub));
      if m.subType == "channel_topic" {
        if m.channel in channels {
          var c := channels[m.channel].(topic := TopicOf(m, m.topic));
          channels := channels[m.channel := c];
        }
      } else if m.subType == "channel_purpose" {
        if m.channel in channels {
          var c := channels[m.channel].(purpose := TopicOf(m, m.purpose));
          channels := channels[m.channel := c];
        }
      }
    }

    /** The dispatch loop closing handleRTMEvent: every listener in slice order gets its deliveries. */
    method DispatchListeners(msg: Message?, e: Event)
      modifies this`trace
      ensures trace == old(trace) + FanOut(listeners, msg, e, myself, parseReaction)
    {
      var out := [];
      for i := 0 to |listeners|
        invariant out == FanOut(listeners[..i], msg, e, myself, parseReaction)
        invariant trace == old(trace)
      {
        assert listeners[..i + 1][..i] == listeners[..i];
        var ds := Deliveries(listeners[i], msg, e);
        out := out + ds;
      }
      assert listeners[..|listeners|] == listeners;
      trace := trace + out;
    }

    /** One listener's turn in the dispatch loop: the message path, then the event path with the reaction filter. */
    method Deliveries(l: Listener, msg: Message?, e: Event) returns (ds: seq<Delivery>)
      ensures ds == DeliveriesTo(l, msg, e, myself, parseReaction)
    {
      var offered := if msg != null && l.hasMessageHandler then [Offered(l, msg)] else [];
      var handled := [];
      if l.hasEventHandler {
        var p := if msg != null then MessagePayload(msg) else EventPayload(e);
        handled := [Handled(l, p)];
        if l.reaction.Some? {
          var parsed := parseReaction(p);
          if ReactionFires(l.reaction.value, myself, parsed) {
            handled := handled + [Fired(l, parsed.value)];
          }
        }
      }
      ds := offered + handled;
    }

    /** handleRTMEvent: update the caches for the event, then fan it out. */
    method HandleRTMEvent(e: Event) returns (msg: Message?)
      requires Valid() && WellFormed(e)
      modifies this`myself, this`users, this`channels, this`joinRequests, this`trace
      ensures Valid()
      ensures channels == ChannelsAfter(old(channels), e)
      ensures users == UsersAfter(old(users), e)
      ensures myself == SelfAfter(old(myself), e)
      ensures e.Connected? ==>
                |joinRequests| >= |old(joinRequests)|
                && joinRequests[..|old(joinRequests)|] == old(joinRequests)
                && JoinRequests(channels, joinChannels, joinRequests[|old(joinRequests)|..])
      ensures !e.Connected? ==> joinRequests == old(joinRequests)
      ensures msg != null <==> e.MessageEvent?
      ensures msg != null ==>
                fresh(msg)
                && msg.msg == EditedMsg(e.msg, e.sub)
                && (msg.isEdit <==> e.msg.subType == "message_changed")
                && msg.fromUser == Lookup(users, AuthorId(e.msg, e.sub))
                && msg.fromChannel == Lookup(channels, e.msg.channel)
                && msg.mentionsMe == MentionsSelf(msg.msg, myself)
                && msg.fromMe == FromSelf(msg.msg, myself)
      ensures trace == old(trace) + FanOut(listeners, msg, e, myself, parseReaction)
    {
      if e.MessageEvent? {
        msg := BuildMessage(e.msg, e.sub);
      } else {
        msg := null;
        ApplyDirectoryEvent(e);
      }
      DispatchListeners(msg, e);
    }

    // -------------------------------------------------------------------
    // Listener registry and the message loop

    /** Listen: a listener whose parameters check out is queued for adding. */
    method Listen(l: Listener, paramsOk: bool) returns (ok: bool)
      modifies this`addQueue
      ensures ok == paramsOk
      ensures addQueue == old(addQueue) + if ok then [l] else []
    {
      if !paramsOk {
        return false;
      }
      addQueue := addQueue + [l];
      return true;
    }

    /**
     * ListenReaction: a listener whose event handler is the reaction filter
     * for `item`, queued like any other.
     */
    method ListenReaction(item: string, accepts: Reaction -> bool, paramsOk: bool) returns (l: Listener, ok: bool)
      modifies this`addQueue
      ensures fresh(l) && !l.hasMessageHandler && l.hasEventHandler
      ensures l.reaction == Some(ReactionBinding(item, accepts))
      ensures ok == paramsOk
      ensures addQueue == old(addQueue) + if ok then [l] else []
    {
      l := new Listener(false, true, Some(ReactionBinding(item, accepts)));
      ok := Listen(l, paramsOk);
    }

    /** A listener's Close(): its deletion is queued for the loop. */
    method EnqueueRemoval(l: Listener)
      modifies this`delQueue
      ensures delQueue == old(delQueue) + [l]
    {
      delQueue := delQueue + [l];
    }

    /** removeListener: cut out the first occurrence, keeping the others in order. */
    method RemoveListener(l: Listener)
      modifies this`listeners
      ensures listeners == RemoveFirst(old(listeners), l)
    {
      var i := 0;
      while i < |listeners|
        invariant 0 <= i <= |listeners|
        invariant forall j :: 0 <= j < i ==> listeners[j] != l
      {
        if listeners[i] == l {
          RemoveFirstSplices(listeners, l, i);
          listeners := listeners[..i] + listeners[i + 1..];
          return;
        }
        i := i + 1;
      }
      RemoveFirstAbsent(listeners, l);
    }

    /** The inner loop of messageHandler: apply every queued deletion. */
    method Drain()
      modifies this`listeners, this`delQueue
      ensures listeners == DrainAll(old(listeners), old(delQueue))
      ensures delQueue == []
    {
      while delQueue != []
        invariant DrainAll(listeners, delQueue) == DrainAll(old(listeners), old(delQueue))
        decreases |delQueue|
      {
        RemoveListener(delQueue[0]);
        delQueue := delQueue[1..];
      }
    }

    /**
     * One pass of messageHandler: take the chosen ready case, then drain the
     * deletions, including those the event's handlers queued.
     */
    method Step(inc: Incoming) returns (msg: Message?)
      requires Valid()
      requires inc.AddReady? ==> addQueue != []
      requires inc.DeleteReady? ==> delQueue != []
      requires inc.EventReady? ==> WellFormed(inc.event)
      modifies this`myself, this`users, this`channels, this`joinRequests, this`trace
      modifies this`listeners, this`addQueue, this`delQueue
      ensures Valid()
      ensures delQueue == []
      ensures inc.AddReady? ==>
                addQueue == old(addQueue)[1..]
                && listeners == DrainAll(old(listeners) + [old(addQueue)[0]], old(delQueue))
      ensures inc.DeleteReady? ==>
                addQueue == old(addQueue)
                && listeners == DrainAll(old(listeners), old(delQueue))
      ensures inc.EventReady? ==>
                addQueue == old(addQueue)
                && listeners == DrainAll(old(listeners), old(delQueue) + inc.closes)
                && trace == old(trace) + FanOut(old(listeners), msg, inc.event, myself, parseReaction)
      ensures inc.EventReady? ==>
                channels == ChannelsAfter(old(channels), inc.event)
                && users == UsersAfter(old(users), inc.event)
                && myself == SelfAfter(old(myself), inc.event)
      ensures inc.EventReady? && inc.event.Connected? ==>
                |joinRequests| >= |old(joinRequests)|
                && joinRequests[..|old(joinRequests)|] == old(joinRequests)
                && JoinRequests(channels, joinChannels, joinRequests[|old(joinRequests)|..])
      ensures inc.EventReady? ==> (msg != null <==> inc.event.MessageEvent?)
      ensures inc.EventReady? && msg != null ==>
                fresh(msg)
                && msg.msg == EditedMsg(inc.event.msg, inc.event.sub)
                && (msg.isEdit <==> inc.event.msg.subType == "message_changed")
                && msg.fromUser == Lookup(users, AuthorId(inc.event.msg, inc.event.sub))
                && msg.fromChannel == Lookup(channels, inc.event.msg.channel)
                && msg.mentionsMe == MentionsSelf(msg.msg, myself)
                && msg.fromMe == FromSelf(msg.msg, myself)
      ensures !(inc.EventReady? && inc.event.Connected?) ==> joinRequests == old(joinRequests)
      ensures !inc.EventReady? ==>
                msg == null && trace == old(trace)
                && channels == old(channels) && users == old(users) && myself == old(myself)
    {
      msg := null;
      match inc {
        case AddReady =>
          listeners := listeners + [addQueue[0]];
          addQueue := addQueue[1..];
        case DeleteReady =>
          RemoveListener(delQueue[0]);
          delQueue := delQueue[1..];
        case EventReady(e, closes) =>
          msg := HandleRTMEvent(e);
          delQueue := delQueue + closes;
      }
      Drain();
    }

    // -------------------------------------------------------------------
    // Outgoing messages

    /** SendOutgoingMessage: queue a message to `to`; a full buffer would block the sender. */
    method SendOutgoingMessage(text: string, to: string) returns (out: OutgoingMessage)
      requires Valid() && |outbox| < QUEUE_CAPACITY
      modifies this`outbox, this`enqueued
      ensures Valid()
      ensures out == OutgoingMessage(to, text)
      ensures outbox == old(outbox) + [Some(out)]
      ensures enqueued == old(enqueued) + [out]
    {
      out := OutgoingMessage(to, text);
      PresentAppend(outbox, out);
      outbox := outbox + [Some(out)];
      enqueued := enqueued + [out];
    }

    /** One pass of replyHandler: take the oldest entry and send it unless it is nil. */
    method ReplyStep()
      requires Valid() && outbox != []
      modifies this`outbox, this`sent
      ensures Valid()
      ensures outbox == old(outbox)[1..]
      ensures sent == old(sent) + if old(outbox)[0].Some? then [old(outbox)[0].value] else []
    {
      var head := outbox[0];
      outbox := outbox[1..];
      if head.Some? {
        sent := sent + [head.value];
      }
    }

    /** SendToChannel: queue the message to the channel of that name, or nothing when there is none. */
    method SendToChannel(channelName: string, text: string) returns (out: Option<OutgoingMessage>)
      requires Valid()
      requires |outbox| < QUEUE_CAPACITY || forall c :: c in channels.Values ==> c.name != ChannelQuery(channelName)
      modifies this`outbox, this`enqueued
      ensures Valid()
      ensures out.None? <==> forall c :: c in channels.Values ==> c.name != ChannelQuery(channelName)
      ensures out.Some? ==>
                out.value.text == text
                && exists c :: c in channels.Values && c.name == ChannelQuery(channelName) && c.id == out.value.channel
      ensures outbox == old(outbox) + if out.Some? then [Some(out.value)] else []
    {
      var c := GetChannelByName(channelName);
      if c.None? {
        return None;
      }
      var m := SendOutgoingMessage(text, c.value.id);
      return Some(m);
    }

    /** Message.Reply with no format arguments: queue the text to the reply target. */
    method Reply(m: Message, text: string) returns (out: OutgoingMessage)
      requires Valid() && |outbox| < QUEUE_CAPACITY
      modifies this`outbox, this`enqueued
      ensures Valid()
      ensures out == OutgoingMessage(ReplyTarget(m.msg), text)
      ensures outbox == old(outbox) + [Some(out)]
    {
      var to := m.msg.user;
      if m.msg.channel != "" {
        to := m.msg.channel;
      }
      out := SendOutgoingMessage(Format(text), to);
    }

    /** Message.ReplyMention with no format arguments: a public reply to a known author names them first. */
    method ReplyMention(m: Message, text: string) returns (out: OutgoingMessage)
      requires Valid() && |outbox| < QUEUE_CAPACITY
      modifies this`outbox, this`enqueued
      ensures Valid()
      ensures out == OutgoingMessage(ReplyTarget(m.msg), ReplyMentionText(m.msg, m.fromUser, text))
      ensures outbox == old(outbox) + [Some(out)]
    {
      if IsPrivate(m.msg) {
        out := Reply(m, text);
        return;
      }
      var prefix := "";
      if m.fromUser.Some? {
        prefix := "<@" + m.fromUser.value.name + "> ";
      }
      out := Reply(m, prefix + text);
    }
  }
}

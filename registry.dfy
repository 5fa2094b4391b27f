/**
 * The listener registry of bot.go: listeners as objects compared by
 * identity, first-occurrence removal, draining the pending deletions,
 * the fan-out of one processed event to every listener in slice order,
 * and the reaction filter ListenReaction installs. Handler bodies are not
 * modelled; a run records which listener received what in a trace.
 */
module Registry {
  import opened Optional
  import opened SlackTypes
  import opened Messages

  /**
   * What ListenReaction binds a listener to: the message timestamp or file
   * id to watch, and the ReactionListener's own filterReaction test, which
   * lives outside bot.go and is taken as given.
   */
  datatype ReactionBinding = ReactionBinding(item: string, accepts: Reaction -> bool)

  /**
   * A registered Listener. Only which handler functions are set matters to
   * bot.go; the handlers themselves are left out. A listener made by
   * ListenReaction carries its binding.
   */
  class Listener {
    const hasMessageHandler: bool
    const hasEventHandler: bool
    const reaction: Option<ReactionBinding>

    constructor (messageHandler: bool, eventHandler: bool, reaction: Option<ReactionBinding>)
      ensures hasMessageHandler == messageHandler && hasEventHandler == eventHandler
      ensures this.reaction == reaction
    {
      hasMessageHandler, hasEventHandler, this.reaction := messageHandler, eventHandler, reaction;
    }
  }

  // ---------------------------------------------------------------------
  // removeListener and the deletion drain

  /** The slice removeListener leaves: the first occurrence of `x` cut out. */
  function RemoveFirst<T(==)>(s: seq<T>, x: T): seq<T>
  {
    if s == [] then []
    else if s[0] == x then s[1..]
    else [s[0]] + RemoveFirst(s[1..], x)
  }

  /** Removing cuts the slice at the first occurrence and keeps both sides in order. */
  lemma {:induction false} RemoveFirstSplices<T>(s: seq<T>, x: T, i: int)
    requires 0 <= i < |s| && s[i] == x
    requires forall j :: 0 <= j < i ==> s[j] != x
    ensures RemoveFirst(s, x) == s[..i] + s[i + 1..]
  {
    if i > 0 {
      RemoveFirstSplices(s[1..], x, i - 1);
      assert s[1..][..i - 1] == s[1..i];
      assert s[1..][i..] == s[i + 1..];
      assert s[..i] == [s[0]] + s[1..i];
    }
  }

  /** Removing a listener that is not registered leaves the slice as it was. */
  lemma {:induction false} RemoveFirstAbsent<T>(s: seq<T>, x: T)
    requires x !in s
    ensures RemoveFirst(s, x) == s
  {
    if s != [] {
      RemoveFirstAbsent(s[1..], x);
    }
  }

  /** Removing shortens the slice by one exactly when the listener is registered, and drops one copy of it. */
  lemma {:induction false} RemoveFirstCounts<T>(s: seq<T>, x: T)
    ensures |RemoveFirst(s, x)| == if x in s then |s| - 1 else |s|
    ensures multiset(RemoveFirst(s, x)) == multiset(s) - multiset{x}
  {
    if s != [] {
      var h, t := s[0], s[1..];
      assert s == [h] + t;
      assert multiset(s) == multiset{h} + multiset(t);
      if h != x {
        RemoveFirstCounts(t, x);
        assert RemoveFirst(s, x) == [h] + RemoveFirst(t, x);
        assert multiset(RemoveFirst(s, x)) == multiset{h} + multiset(RemoveFirst(t, x));
        assert x in s <==> x in t;
      }
    }
  }

  /** The slice after applying each queued deletion in order. */
  function DrainAll<T(==)>(s: seq<T>, queue: seq<T>): seq<T>
    decreases |queue|
  {
    if queue == [] then s else DrainAll(RemoveFirst(s, queue[0]), queue[1..])
  }

  /** Draining removes one copy per queued deletion and nothing else. */
  lemma {:induction false} DrainAllCounts<T>(s: seq<T>, queue: seq<T>)
    ensures multiset(DrainAll(s, queue)) == multiset(s) - multiset(queue)
    decreases |queue|
  {
    if queue != [] {
      var first, rest := queue[0], queue[1..];
      var s' := RemoveFirst(s, first);
      RemoveFirstCounts(s, first);
      DrainAllCounts(s', rest);
      assert queue == [first] + rest;
      assert multiset(queue) == multiset{first} + multiset(rest);
      SubtractInTurn(multiset(s), multiset{first}, multiset(rest));
    }
  }

  lemma SubtractInTurn<T>(a: multiset<T>, b: multiset<T>, c: multiset<T>)
    ensures (a - b) - c == a - (b + c)
  {
    assert forall x :: ((a - b) - c)[x] == (a - (b + c))[x];
  }

  /** A listener deleted at least as often as it was registered is gone after the drain. */
  lemma DrainedListenerIsGone<T>(s: seq<T>, queue: seq<T>, x: T)
    requires multiset(s)[x] <= multiset(queue)[x]
    ensures x !in DrainAll(s, queue)
  {
    DrainAllCounts(s, queue);
  }

  // ---------------------------------------------------------------------
  // Fan-out (the dispatch loop at the end of handleRTMEvent)

  /** What an EventHandlerFunc receives: the built Message, or the raw event data. */
  datatype Payload = MessagePayload(message: Message) | EventPayload(event: Event)

  /** One thing handed to a listener while an event is dispatched. */
  datatype Delivery =
    | Offered(listener: Listener, message: Message)  // filterAndDispatchMessage(msg)
    | Handled(listener: Listener, payload: Payload)  // EventHandlerFunc(listen, payload)
    | Fired(listener: Listener, reaction: Reaction)  // the ReactionListener's HandlerFunc

  function PayloadOf(msg: Message?, e: Event): (p: Payload)
    ensures p.MessagePayload? <==> msg != null
    ensures p.MessagePayload? ==> p.message == msg
    ensures p.EventPayload? ==> p.event == e
  {
    if msg != null then MessagePayload(msg) else EventPayload(e)
  }

  /**
   * The checks of the closure ListenReaction installs, in order: the payload
   * parses as a reaction, it concerns the bound item, it is not the bot's own,
   * and the ReactionListener's filter accepts it.
   */
  function ReactionFires(b: ReactionBinding, selfId: string, parsed: Option<Reaction>): (fires: bool)
    ensures fires <==> (parsed.Some?
                        && (parsed.value.item.timestamp == b.item || parsed.value.item.file == b.item)
                        && parsed.value.user != selfId
                        && b.accepts(parsed.value))
  {
    if parsed.None? then false
    else if b.item != parsed.value.item.timestamp && b.item != parsed.value.item.file then false
    else if parsed.value.user == selfId then false
    else if !b.accepts(parsed.value) then false
    else true
  }

  /** What one listener gets for one processed event. */
  function DeliveriesTo(l: Listener, msg: Message?, e: Event, selfId: string,
                        parse: Payload -> Option<Reaction>): seq<Delivery>
  {
    var p := PayloadOf(msg, e);
    (if msg != null && l.hasMessageHandler then [Offered(l, msg)] else [])
    + (if !l.hasEventHandler then []
       else [Handled(l, p)]
            + (if l.reaction.Some? && ReactionFires(l.reaction.value, selfId, parse(p))
               then [Fired(l, parse(p).value)] else []))
  }

  /** Every listener in slice order gets its deliveries. */
  function FanOut(ls: seq<Listener>, msg: Message?, e: Event, selfId: string,
                  parse: Payload -> Option<Reaction>): seq<Delivery>
  {
    if ls == [] then []
    else FanOut(ls[..|ls| - 1], msg, e, selfId, parse) + DeliveriesTo(ls[|ls| - 1], msg, e, selfId, parse)
  }

  /** Fan-out over a concatenation is the fan-out over the front followed by the back: listeners are visited in order. */
  lemma {:induction false} FanOutAppend(a: seq<Listener>, b: seq<Listener>, msg: Message?, e: Event,
                                        selfId: string, parse: Payload -> Option<Reaction>)
    ensures FanOut(a + b, msg, e, selfId, parse) == FanOut(a, msg, e, selfId, parse) + FanOut(b, msg, e, selfId, parse)
    decreases |b|
  {
    if b != [] {
      var b', x := b[..|b| - 1], b[|b| - 1];
      assert (a + b)[..|a + b| - 1] == a + b';
      assert (a + b)[|a + b| - 1] == x;
      var dx := DeliveriesTo(x, msg, e, selfId, parse);
      FanOutAppend(a, b', msg, e, selfId, parse);
      assert FanOut(a + b, msg, e, selfId, parse) == FanOut(a + b', msg, e, selfId, parse) + dx;
      assert FanOut(b, msg, e, selfId, parse) == FanOut(b', msg, e, selfId, parse) + dx;
    } else {
      assert a + b == a;
    }
  }

  /** A delivery is in the fan-out exactly when its listener is registered and that listener's own deliveries hold it. */
  lemma {:induction false} InFanOut(ls: seq<Listener>, msg: Message?, e: Event, selfId: string,
                                    parse: Payload -> Option<Reaction>, d: Delivery)
    ensures d in FanOut(ls, msg, e, selfId, parse)
        <==> d.listener in ls && d in DeliveriesTo(d.listener, msg, e, selfId, parse)
    decreases |ls|
  {
    if ls != [] {
      var front, x := ls[..|ls| - 1], ls[|ls| - 1];
      InFanOut(front, msg, e, selfId, parse, d);
      DeliveredOnlyTo(x, msg, e, selfId, parse);
      assert ls == front + [x];
      assert d.listener in ls <==> d.listener in front || d.listener == x;
    }
  }

  /** Only registered listeners receive anything. */
  lemma FanOutReachesOnlyListeners(ls: seq<Listener>, msg: Message?, e: Event,
                                   selfId: string, parse: Payload -> Option<Reaction>)
    ensures forall d :: d in FanOut(ls, msg, e, selfId, parse) ==> d.listener in ls
  {
    forall d | d in FanOut(ls, msg, e, selfId, parse)
      ensures d.listener in ls
    {
      InFanOut(ls, msg, e, selfId, parse, d);
    }
  }

  /** A single listener's deliveries all name that listener. */
  lemma DeliveredOnlyTo(x: Listener, msg: Message?, e: Event, selfId: string,
                        parse: Payload -> Option<Reaction>)
    ensures forall d :: d in DeliveriesTo(x, msg, e, selfId, parse) ==> d.listener == x
  {
  }

  /** The message path runs for exactly the listeners with a message handler, and only when a Message was built. */
  lemma OfferedIff(ls: seq<Listener>, msg: Message?, e: Event, selfId: string,
                   parse: Payload -> Option<Reaction>, l: Listener, m: Message)
    ensures Offered(l, m) in FanOut(ls, msg, e, selfId, parse)
        <==> msg != null && m == msg && l in ls && l.hasMessageHandler
  {
    InFanOut(ls, msg, e, selfId, parse, Offered(l, m));
  }

  /**
   * The event path runs for exactly the listeners with an event handler,
   * and hands them the Message when one was built, the raw event otherwise.
   */
  lemma HandledIff(ls: seq<Listener>, msg: Message?, e: Event, selfId: string,
                   parse: Payload -> Option<Reaction>, l: Listener, p: Payload)
    ensures Handled(l, p) in FanOut(ls, msg, e, selfId, parse)
        <==> l in ls && l.hasEventHandler && p == PayloadOf(msg, e)
  {
    InFanOut(ls, msg, e, selfId, parse, Handled(l, p));
  }

  /** A reaction handler fires exactly when its listener is registered and all four checks pass. */
  lemma FiredIff(ls: seq<Listener>, msg: Message?, e: Event, selfId: string,
                 parse: Payload -> Option<Reaction>, l: Listener, r: Reaction)
    ensures Fired(l, r) in FanOut(ls, msg, e, selfId, parse)
        <==> l in ls && l.hasEventHandler && l.reaction.Some?
             && parse(PayloadOf(msg, e)) == Some(r)
             && ReactionFires(l.reaction.value, selfId, Some(r))
  {
    InFanOut(ls, msg, e, selfId, parse, Fired(l, r));
  }

  /** A listener removed by the drain receives nothing from the next event. */
  lemma ClosedListenerMissesNextEvent(ls: seq<Listener>, queue: seq<Listener>, l: Listener, msg: Message?,
                                      e: Event, selfId: string, parse: Payload -> Option<Reaction>)
    requires multiset(ls)[l] <= multiset(queue)[l]
    ensures forall d :: d in FanOut(DrainAll(ls, queue), msg, e, selfId, parse) ==> d.listener != l
  {
    DrainedListenerIsGone(ls, queue, l);
    FanOutReachesOnlyListeners(DrainAll(ls, queue), msg, e, selfId, parse);
  }
}

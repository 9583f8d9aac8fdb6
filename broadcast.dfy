/** Event delivery (Broadcaster<iterator> in game/events.h) and the message drain
    of UnoGame::EventBroadcaster (game/uno_game.cpp). Listener behaviour is an
    oracle: `chat(t, l, c)` is what listener l says while it handles call c at trace
    position t; only players can say anything, and what they say goes through the
    shared message queue. Every hook and handler call is recorded in a trace. */
module Broadcasting {
  import opened Events
  import opened MessageQueues

  /** A registered listener: a player (with the index it was given on entry) or
      a plain observer, which has no way to speak. */
  datatype Listener = Player(index: int) | Spectator(id: nat)

  /** One entry of the trace: a hook call or a handler call on a listener. */
  datatype Notice =
    | BeforeEach(tag: GameEvent)
    | Delivered(listener: Listener, call: Call)
    | AfterEach(tag: GameEvent)

  /** What each listener says during each handler call, by trace position. */
  type Chat = (nat, Listener, Call) -> seq<string>

  /** The observable state of the broadcaster: the trace and the queue. */
  datatype Hub = Hub(trace: seq<Notice>, queue: QueueState)

  /** No player speaks while handling a PlayerSaid call. */
  ghost predicate QuietOnSaid(chat: Chat) {
    forall t, l, p, m :: chat(t, l, HandlePlayerSaid(p, m)) == []
  }

  /** No listener ever speaks. */
  ghost predicate Silent(chat: Chat) {
    forall t, l, c :: chat(t, l, c) == []
  }

  /** The drain is known to end: the queue is bounded, or replayed messages never
      provoke new ones. */
  ghost predicate Drainable(q: QueueState, chat: Chat) {
    q.maximumCapacity >= 0 || QuietOnSaid(chat)
  }

  function Max(a: int, b: int): int {
    if a < b then b else a
  }

  /** A bound on how long the queue can grow while its capacity stays put. */
  function Room(q: QueueState): int {
    if q.maximumCapacity >= 0 then Max(q.maximumCapacity, |q.entries|) else |q.entries|
  }

  /** The PlayerSaid call that replays a queued entry. */
  function Said(e: Entry): Call {
    HandlePlayerSaid(e.playerIndex, e.message)
  }

  /** The messages of `msgs` offered to the queue in order by player p (say). */
  function SayAll(q: QueueState, p: int, msgs: seq<string>): (r: QueueState)
    ensures r.maximumCapacity == q.maximumCapacity
    ensures q.entries <= r.entries
    ensures q.maximumCapacity >= 0 ==> Room(r) <= Room(q)
    ensures msgs == [] ==> r == q
    decreases |msgs|
  {
    if msgs == [] then q else SayAll(Add(q, Entry(p, msgs[0])).0, p, msgs[1..])
  }

  /** What listener l says while handling c: only players speak. */
  function Speech(chat: Chat, t: nat, l: Listener, c: Call): seq<string> {
    if l.Player? then chat(t, l, c) else []
  }

  /** One listener handles the call: it is recorded, and what it says is queued. */
  function Handle(h: Hub, l: Listener, c: Call, chat: Chat): Hub {
    var msgs := Speech(chat, |h.trace|, l, c);
    Hub(h.trace + [Delivered(l, c)], if l.Player? then SayAll(h.queue, l.index, msgs) else h.queue)
  }

  /** The handler calls for every listener of ls, in list order. */
  function Deliveries(ls: seq<Listener>, c: Call): (r: seq<Notice>)
    ensures |r| == |ls|
  {
    if ls == [] then [] else [Delivered(ls[0], c)] + Deliveries(ls[1..], c)
  }

  /** Listener k of the list receives the k-th handler call, each listener once. */
  lemma {:induction false} DeliveriesInOrder(ls: seq<Listener>, c: Call)
    ensures forall k :: 0 <= k < |ls| ==> Deliveries(ls, c)[k] == Delivered(ls[k], c)
  {
    if ls != [] {
      DeliveriesInOrder(ls[1..], c);
      forall k | 0 <= k < |ls|
        ensures Deliveries(ls, c)[k] == Delivered(ls[k], c)
      {
        if k > 0 {
          assert Deliveries(ls, c)[k] == Deliveries(ls[1..], c)[k - 1];
        }
      }
    }
  }

  /** The listeners ls[k..] handle the call one after the other. */
  function DeliverFrom(h: Hub, ls: seq<Listener>, k: nat, c: Call, chat: Chat): (r: Hub)
    requires k <= |ls|
    ensures r.queue.maximumCapacity == h.queue.maximumCapacity
    ensures h.queue.entries <= r.queue.entries
    ensures h.queue.maximumCapacity >= 0 ==> Room(r.queue) <= Room(h.queue)
    ensures c.HandlePlayerSaid? && QuietOnSaid(chat) ==> r.queue == h.queue
    decreases |ls| - k
  {
    if k == |ls| then h else DeliverFrom(Handle(h, ls[k], c, chat), ls, k + 1, c, chat)
  }

  /** One Broadcaster handler: beforeEach, every listener, afterEach (the hook call
      itself; the drain it may start is in Broadcast). */
  function Dispatch(h: Hub, ls: seq<Listener>, c: Call, chat: Chat): (r: Hub)
    ensures r.queue.maximumCapacity == h.queue.maximumCapacity
    ensures h.queue.entries <= r.queue.entries
    ensures h.queue.maximumCapacity >= 0 ==> Room(r.queue) <= Room(h.queue)
    ensures c.HandlePlayerSaid? && QuietOnSaid(chat) ==> r.queue == h.queue
  {
    var d := DeliverFrom(h.(trace := h.trace + [BeforeEach(Tag(c))]), ls, 0, c, chat);
    d.(trace := d.trace + [AfterEach(Tag(c))])
  }

  /** The replay loop of flushMessages from queue position i on; entries queued
      during the replay are replayed as well. */
  function Replay(h: Hub, ls: seq<Listener>, i: nat, chat: Chat): (r: Hub)
    requires i <= |h.queue.entries|
    requires Drainable(h.queue, chat)
    ensures r.queue.maximumCapacity == h.queue.maximumCapacity
    ensures h.queue.entries <= r.queue.entries
    decreases Room(h.queue) - i
  {
    if i == |h.queue.entries| then h
    else Replay(Dispatch(h, ls, Said(h.queue.entries[i]), chat), ls, i + 1, chat)
  }

  /** flushMessages: replay, then one MessageOverflow if the flag is up, then clear. */
  function Drain(h: Hub, ls: seq<Listener>, chat: Chat): (r: Hub)
    requires Drainable(h.queue, chat)
    ensures r.queue == Cleared(h.queue)
  {
    var replayed := Replay(h, ls, 0, chat);
    var flagged := if replayed.queue.overflow then Dispatch(replayed, ls, HandleMessageOverflow, chat) else replayed;
    flagged.(queue := Cleared(flagged.queue))
  }

  /** afterEach skips the drain for PlayerSaid and MessageOverflow. */
  predicate DrainsAfter(t: GameEvent) {
    t != PlayerSaid && t != MessageOverflow
  }

  /** The complete effect of one EventBroadcaster handler. */
  function Broadcast(h: Hub, ls: seq<Listener>, c: Call, chat: Chat): Hub
    requires Drainable(h.queue, chat)
  {
    var d := Dispatch(h, ls, c, chat);
    if DrainsAfter(Tag(c)) then Drain(d, ls, chat) else d
  }

  /** The notices of one dispatch of c: the hooks around one call per listener. */
  function Block(ls: seq<Listener>, c: Call): seq<Notice> {
    [BeforeEach(Tag(c))] + Deliveries(ls, c) + [AfterEach(Tag(c))]
  }

  /** The notices of replaying the entries es, in FIFO order. */
  function Blocks(ls: seq<Listener>, es: seq<Entry>): seq<Notice> {
    if es == [] then [] else Block(ls, Said(es[0])) + Blocks(ls, es[1..])
  }

  lemma {:induction false} DeliverFromTrace(h: Hub, ls: seq<Listener>, k: nat, c: Call, chat: Chat)
    requires k <= |ls|
    ensures DeliverFrom(h, ls, k, c, chat).trace == h.trace + Deliveries(ls[k..], c)
    decreases |ls| - k
  {
    if k < |ls| {
      DeliverFromTrace(Handle(h, ls[k], c, chat), ls, k + 1, c, chat);
      assert ls[k..][1..] == ls[k + 1..];
    }
  }

  /** Each broadcast calls beforeEach, then every listener exactly once in list
      order, then afterEach, whatever the listeners say. */
  lemma DispatchOrder(h: Hub, ls: seq<Listener>, c: Call, chat: Chat)
    ensures Dispatch(h, ls, c, chat).trace == h.trace + Block(ls, c)
  {
    DeliverFromTrace(h.(trace := h.trace + [BeforeEach(Tag(c))]), ls, 0, c, chat);
    assert ls[0..] == ls;
  }

  /** A plain observer handling a call changes nothing but the trace. */
  lemma SpectatorsAreSilent(h: Hub, id: nat, c: Call, chat: Chat)
    ensures Handle(h, Spectator(id), c, chat) == h.(trace := h.trace + [Delivered(Spectator(id), c)])
  {
  }

  /** Replay hands every entry of the queue to the listeners as PlayerSaid, in FIFO
      order, including entries queued during the replay itself. */
  lemma {:induction false} ReplayTrace(h: Hub, ls: seq<Listener>, i: nat, chat: Chat)
    requires i <= |h.queue.entries|
    requires Drainable(h.queue, chat)
    ensures var r := Replay(h, ls, i, chat);
      i <= |r.queue.entries| && r.trace == h.trace + Blocks(ls, r.queue.entries[i..])
    decreases Room(h.queue) - i
  {
    var r := Replay(h, ls, i, chat);
    if i < |h.queue.entries| {
      var e := h.queue.entries[i];
      var d := ReplayStep(h, ls, i, chat);
      ReplayTrace(d, ls, i + 1, chat);
      var es := r.queue.entries;
      BlocksFrom(ls, es, i);
      assert es[i] == e;
    } else {
      assert r.queue.entries[i..] == [];
    }
  }

  /** One round of the replay loop: entry i is dispatched, and the rest of the
      replay continues from the resulting hub. */
  lemma ReplayStep(h: Hub, ls: seq<Listener>, i: nat, chat: Chat) returns (d: Hub)
    requires i < |h.queue.entries|
    requires Drainable(h.queue, chat)
    ensures d == Dispatch(h, ls, Said(h.queue.entries[i]), chat)
    ensures d.trace == h.trace + Block(ls, Said(h.queue.entries[i]))
    ensures h.queue.entries <= d.queue.entries && Drainable(d.queue, chat)
    ensures Room(d.queue) - (i + 1) < Room(h.queue) - i
    ensures Replay(h, ls, i, chat) == Replay(d, ls, i + 1, chat)
    ensures d.queue.entries <= Replay(d, ls, i + 1, chat).queue.entries
  {
    d := Dispatch(h, ls, Said(h.queue.entries[i]), chat);
    DispatchOrder(h, ls, Said(h.queue.entries[i]), chat);
  }

  lemma BlocksFrom(ls: seq<Listener>, es: seq<Entry>, i: nat)
    requires i < |es|
    ensures Blocks(ls, es[i..]) == Block(ls, Said(es[i])) + Blocks(ls, es[i + 1..])
  {
    assert es[i..][1..] == es[i + 1..];
  }

  /** After every event other than PlayerSaid and MessageOverflow the queue is empty
      and its flag down; the capacity is kept. */
  lemma BroadcastEmptiesQueue(h: Hub, ls: seq<Listener>, c: Call, chat: Chat)
    requires Drainable(h.queue, chat)
    requires DrainsAfter(Tag(c))
    ensures Broadcast(h, ls, c, chat).queue == Fresh(h.queue.maximumCapacity)
  {
  }

  /** PlayerSaid and MessageOverflow are delivered without a drain, so what players
      say while handling them stays queued. */
  lemma ChatEventsDoNotDrain(h: Hub, ls: seq<Listener>, c: Call, chat: Chat)
    requires Drainable(h.queue, chat)
    requires Tag(c) == PlayerSaid || Tag(c) == MessageOverflow
    ensures Broadcast(h, ls, c, chat) == Dispatch(h, ls, c, chat)
  {
  }

  /** With silent listeners the drain replays exactly the queued entries, then one
      MessageOverflow if the flag was up. */
  lemma SilentDrain(h: Hub, ls: seq<Listener>, chat: Chat)
    requires Silent(chat)
    ensures Drainable(h.queue, chat)
    ensures Drain(h, ls, chat).trace ==
      h.trace + Blocks(ls, h.queue.entries) + (if h.queue.overflow then Block(ls, HandleMessageOverflow) else [])
  {
    SilentReplayKeepsQueue(h, ls, 0, chat);
    ReplayTrace(h, ls, 0, chat);
    assert h.queue.entries[0..] == h.queue.entries;
    var replayed := Replay(h, ls, 0, chat);
    if replayed.queue.overflow {
      DispatchOrder(replayed, ls, HandleMessageOverflow, chat);
    }
  }

  lemma {:induction false} SilentReplayKeepsQueue(h: Hub, ls: seq<Listener>, i: nat, chat: Chat)
    requires i <= |h.queue.entries|
    requires Silent(chat)
    ensures Drainable(h.queue, chat)
    ensures Replay(h, ls, i, chat).queue == h.queue
    decreases |h.queue.entries| - i
  {
    if i < |h.queue.entries| {
      var d := Dispatch(h, ls, Said(h.queue.entries[i]), chat);
      SilentReplayKeepsQueue(d, ls, i + 1, chat);
    }
  }

  /** The capacity-2 example: three messages are offered, the third is refused and
      raises the flag; the next drain replays the two stored messages in order and
      then reports the overflow once, leaving the queue empty. */
  lemma CapacityTwoExample(trace: seq<Notice>, ls: seq<Listener>, chat: Chat, a: Entry, b: Entry, c: Entry)
    requires Silent(chat)
    ensures var (q1, ok1) := Add(Fresh(2), a);
      var (q2, ok2) := Add(q1, b);
      var (q3, ok3) := Add(q2, c);
      ok1 && ok2 && !ok3 && q3 == QueueState([a, b], 2, true) &&
      Drain(Hub(trace, q3), ls, chat) == Hub(trace + Block(ls, Said(a)) + Block(ls, Said(b)) + Block(ls, HandleMessageOverflow), Fresh(2))
  {
    var q3 := QueueState([a, b], 2, true);
    SilentDrain(Hub(trace, q3), ls, chat);
    assert Blocks(ls, [a, b]) == Block(ls, Said(a)) + Block(ls, Said(b)) by {
      assert [a, b][1..] == [b];
      assert [b][1..] == [];
      assert Blocks(ls, [b]) == Block(ls, Said(b)) + Blocks(ls, []);
      assert Blocks(ls, [a, b]) == Block(ls, Said(a)) + Blocks(ls, [b]);
    }
  }

  /** The broadcaster of the engine: listeners in registration order, the shared
      queue, and the trace of hook and handler calls. */
  class EventBroadcaster {
    var listeners: seq<Listener>
    var trace: seq<Notice>
    const queue: MessageQueue
    const chat: Chat

    function State(): Hub
      reads this, queue
    {
      Hub(trace, queue.State())
    }

    constructor (queue: MessageQueue, chat: Chat)
      ensures this.queue == queue && this.chat == chat
      ensures listeners == [] && trace == []
    {
      this.queue := queue;
      this.chat := chat;
      listeners := [];
      trace := [];
    }

    /** addListener: the listener is appended to the list. */
    method AddListener(l: Listener)
      modifies this
      ensures listeners == old(listeners) + [l] && trace == old(trace)
    {
      listeners := listeners + [l];
    }

    /** A listener handles the call; a player's messages go to the queue one by one. */
    method HandleBy(l: Listener, c: Call)
      modifies this, queue
      ensures State() == Handle(old(State()), l, c, chat)
      ensures listeners == old(listeners)
    {
      var msgs := Speech(chat, |trace|, l, c);
      trace := trace + [Delivered(l, c)];
      if l.Player? {
        var j := 0;
        while j < |msgs|
          invariant 0 <= j <= |msgs|
          invariant listeners == old(listeners) && trace == old(trace) + [Delivered(l, c)]
          invariant SayAll(queue.State(), l.index, msgs[j..]) == SayAll(old(queue.State()), l.index, msgs)
        {
          assert msgs[j..][1..] == msgs[j + 1..];
          var _ := queue.AddMessage(l.index, msgs[j]);
          j := j + 1;
        }
      }
    }

    /** A Broadcaster handler: beforeEach, each listener in list order, afterEach. */
    method Notify(c: Call)
      requires Drainable(queue.State(), chat)
      modifies this, queue
      ensures State() == Broadcast(old(State()), listeners, c, chat)
      ensures listeners == old(listeners)
      decreases if DrainsAfter(Tag(c)) then 1 else 0, 3
    {
      ghost var h0 := State();
      trace := trace + [BeforeEach(Tag(c))];
      ghost var h1 := State();
      var k := 0;
      while k < |listeners|
        invariant 0 <= k <= |listeners|
        invariant listeners == old(listeners)
        invariant DeliverFrom(State(), listeners, k, c, chat) == DeliverFrom(h1, listeners, 0, c, chat)
      {
        HandleBy(listeners[k], c);
        k := k + 1;
      }
      AfterEachHook(Tag(c));
    }

    /** afterEach: records the hook call and drains the queue unless the event is
        PlayerSaid or MessageOverflow. */
    method AfterEachHook(t: GameEvent)
      requires Drainable(queue.State(), chat)
      modifies this, queue
      ensures var d := old(State()).(trace := old(trace) + [AfterEach(t)]);
        State() == if DrainsAfter(t) then Drain(d, listeners, chat) else d
      ensures listeners == old(listeners)
      decreases if DrainsAfter(t) then 1 else 0, 2
    {
      trace := trace + [AfterEach(t)];
      if DrainsAfter(t) {
        FlushMessages();
      }
    }

    /** flushMessages: replays the queue as PlayerSaid events, reports an overflow
        once, and clears the queue. */
    method FlushMessages()
      requires Drainable(queue.State(), chat)
      modifies this, queue
      ensures State() == Drain(old(State()), listeners, chat)
      ensures listeners == old(listeners)
      decreases 1, 1
    {
      ReplayQueue();
      if queue.overflow {
        Notify(HandleMessageOverflow);
      }
      queue.Clear();
    }

    /** The replay loop of flushMessages: every queued entry, including the ones
        queued while replaying, goes to the listeners as a PlayerSaid event. */
    method ReplayQueue()
      requires Drainable(queue.State(), chat)
      modifies this, queue
      ensures State() == Replay(old(State()), listeners, 0, chat)
      ensures listeners == old(listeners)
      decreases 1, 0
    {
      ghost var h0 := State();
      var i := 0;
      while i < |queue.entries|
        invariant 0 <= i <= |queue.entries|
        invariant listeners == old(listeners)
        invariant queue.maximumCapacity == h0.queue.maximumCapacity
        invariant Drainable(queue.State(), chat)
        invariant Replay(State(), listeners, i, chat) == Replay(h0, listeners, 0, chat)
        decreases Room(queue.State()) - i
      {
        var e := queue.entries[i];
        Notify(Said(e));
        i := i + 1;
      }
    }
  }
}

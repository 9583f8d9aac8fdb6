/** The players' message queue (game/game_components.h, game/game_components.cpp):
    a FIFO of (player index, text) entries with a capacity that can be changed at
    run time (a negative capacity means unlimited) and a sticky overflow flag that
    only `clear` resets. */
module MessageQueues {

  /** One queued message: the index of the player who said it and the text. */
  datatype Entry = Entry(playerIndex: int, message: string)

  /** The value of a queue: its entries in FIFO order, its capacity and its flag. */
  datatype QueueState = QueueState(entries: seq<Entry>, maximumCapacity: int, overflow: bool)

  /** The capacity has been reached: a further message is refused. */
  predicate Full(q: QueueState) {
    q.maximumCapacity >= 0 && |q.entries| >= q.maximumCapacity
  }

  /** The queue holds no more entries than its capacity allows. */
  predicate WithinLimit(q: QueueState) {
    q.maximumCapacity < 0 || |q.entries| <= q.maximumCapacity
  }

  /** A fresh queue: empty, not overflowed, with the given capacity. */
  function Fresh(maximumCapacity: int): (q: QueueState)
    ensures q.entries == [] && !q.overflow && q.maximumCapacity == maximumCapacity
    ensures WithinLimit(q)
  {
    QueueState([], maximumCapacity, false)
  }

  /** addMessage: appends the entry unless the capacity has been reached, in which
      case it raises the overflow flag and reports false. */
  function Add(q: QueueState, e: Entry): (r: (QueueState, bool))
    ensures r.1 <==> !Full(q)
    ensures r.1 ==> r.0 == q.(entries := q.entries + [e])
    ensures !r.1 ==> r.0 == q.(overflow := true)
  {
    if q.maximumCapacity >= 0 && |q.entries| >= q.maximumCapacity then
      (q.(overflow := true), false)
    else
      (q.(entries := q.entries + [e]), true)
  }

  /** setLimit: changes the capacity; a capacity below the current size raises the
      overflow flag but drops no entry. */
  function WithLimit(q: QueueState, newLimit: int): (r: QueueState)
    ensures r.entries == q.entries && r.maximumCapacity == newLimit
    ensures r.overflow <==> q.overflow || (newLimit >= 0 && |q.entries| > newLimit)
  {
    var q' := q.(maximumCapacity := newLimit);
    if newLimit >= 0 && |q.entries| > newLimit then q'.(overflow := true) else q'
  }

  /** clear: empties the queue and resets the overflow flag, keeping the capacity. */
  function Cleared(q: QueueState): (r: QueueState)
    ensures r.entries == [] && !r.overflow && r.maximumCapacity == q.maximumCapacity
  {
    q.(entries := [], overflow := false)
  }

  /** addMessage keeps size <= capacity once it holds. */
  lemma AddKeepsWithinLimit(q: QueueState, e: Entry)
    requires WithinLimit(q)
    ensures WithinLimit(Add(q, e).0)
  {
  }

  /** Neither addMessage nor setLimit ever lowers the overflow flag; only clear does. */
  lemma OverflowIsSticky(q: QueueState, e: Entry, newLimit: int)
    ensures q.overflow ==> Add(q, e).0.overflow
    ensures q.overflow ==> WithLimit(q, newLimit).overflow
  {
  }

  /** A refused message changes no entry, and an accepted one is the last entry. */
  lemma AddIsFifo(q: QueueState, e: Entry)
    ensures Add(q, e).1 ==> Add(q, e).0.entries[|q.entries|] == e && Add(q, e).0.entries[..|q.entries|] == q.entries
    ensures !Add(q, e).1 ==> Add(q, e).0.entries == q.entries
  {
  }

  /** The queue object of the engine: the entries are a list mutated in place. */
  class MessageQueue {
    var entries: seq<Entry>
    var maximumCapacity: int
    var overflow: bool

    /** The value the fields hold. */
    function State(): QueueState
      reads this
    {
      QueueState(entries, maximumCapacity, overflow)
    }

    constructor (maximumCapacity: int)
      ensures State() == Fresh(maximumCapacity)
    {
      this.maximumCapacity := maximumCapacity;
      entries := [];
      overflow := false;
    }

    method AddMessage(playerIndex: int, message: string) returns (ok: bool)
      modifies this
      ensures (State(), ok) == Add(old(State()), Entry(playerIndex, message))
    {
      if maximumCapacity >= 0 && |entries| >= maximumCapacity {
        overflow := true;
        return false;
      }
      entries := entries + [Entry(playerIndex, message)];
      return true;
    }

    method SetLimit(newMessageQueueLimit: int)
      modifies this
      ensures State() == WithLimit(old(State()), newMessageQueueLimit)
    {
      maximumCapacity := newMessageQueueLimit;
      if maximumCapacity >= 0 && |entries| > maximumCapacity {
        overflow := true;
      }
    }

    /** hasOverflow reads the flag and changes nothing. */
    function HasOverflow(): bool
      reads this
    {
      overflow
    }

    method Clear()
      modifies this
      ensures State() == Cleared(old(State()))
    {
      entries := [];
      overflow := false;
    }
  }
}

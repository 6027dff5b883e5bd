/** f/rdc%'s queues as values: what one transaction card does to the two dispatch FIFOs. */
module RdcQueues {
  import opened Basics

  const TX_PUSH: int := 0x00
  const TX_POP: int := 0x01
  const TX_DISPATCH: int := 0x00
  const TX_FREE: int := 0x10
  const TX_INIT1: int := 0xaa
  const TX_COMMIT: int := 0xff

  type Op = x: int | 0 <= x < 256

  datatype Queues<T> = Queues(dispatch: seq<T>, free: seq<T>)

  /** What executing a card leaves: the queues, and the card's own dispatch reference. */
  datatype Effect<T> = Effect(queues: Queues<T>, dispatch: Option<T>)

  predicate IsPush(op: Op) { op % 16 == TX_PUSH }

  predicate IsPop(op: Op) { op % 16 == TX_POP }

  predicate OnDispatch(op: Op) { op / 16 == 0 }

  function Target<T>(q: Queues<T>, op: Op): seq<T> {
    if OnDispatch(op) then q.dispatch else q.free
  }

  function WithTarget<T>(q: Queues<T>, op: Op, s: seq<T>): Queues<T> {
    if OnDispatch(op) then q.(dispatch := s) else q.(free := s)
  }

  /** The operation is the low nibble, the queue the high one; a card with any other operation
      (one that already reads TX_COMMIT, say) leaves everything as it is. */
  function Execute<T>(q: Queues<T>, op: Op, d: Option<T>): Effect<T>
    requires IsPush(op) ==> d.Some?
  {
    var t := Target(q, op);
    if IsPop(op) then
      if t == [] then Effect(q, None)
      else Effect(WithTarget(q, op, t[1..]), Some(t[0]))
    else if IsPush(op) then Effect(WithTarget(q, op, t + [d.value]), d)
    else Effect(q, d)
  }
}

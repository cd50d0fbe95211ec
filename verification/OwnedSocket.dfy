/**
 The store of a socket that keeps whole messages: a bounded queue and the
 waker of the task that waits on it. Each operation runs under the stack's
 lock, so between operations the store is at a lock boundary.
 */
module OwnedSockets {
  import opened Wrappers

  type Task = nat

  datatype StoreError = TypeMismatch | NoSpace | DeserFailed

  datatype Poll<+T> = Ready(value: T) | Pending

  /** The store between operations, and the wakes given out so far. */
  datatype Store<T> = Store(queue: seq<T>, capacity: nat, waiting: Option<Task>, woken: seq<Task>)

  /** What a sender or a receiver does with the socket. An owned message may be
      of another type; a raw one may fail to decode. */
  datatype Op<T> =
    | Owned(value: T, typeMatches: bool)
    | Raw(decoded: Option<T>)
    | Error(value: T)
    | TryRecv
    | Poll(task: Task)

  function Accepted<T>(s: Store<T>, op: Op<T>): seq<T> {
    if |s.queue| >= s.capacity then []
    else match op
         case Owned(v, typeMatches) => if typeMatches then [v] else []
         case Raw(decoded) => if decoded.Some? then [decoded.value] else []
         case Error(v) => [v]
         case TryRecv => []
         case Poll(_) => []
  }

  function Delivered<T>(s: Store<T>, op: Op<T>): seq<T> {
    if (op.TryRecv? || op.Poll?) && s.queue != [] then [s.queue[0]] else []
  }

  /** The wakes of one operation: the waiting task when a message is stored, or
      when a different task takes its place. */
  function Wakes<T>(s: Store<T>, op: Op<T>): seq<Task> {
    if s.waiting.None? then []
    else if Accepted(s, op) != [] then [s.waiting.value]
    else if op.Poll? && s.queue == [] && s.waiting.value != op.task then [s.waiting.value]
    else []
  }

  function After<T>(s: Store<T>, op: Op<T>): Store<T> {
    Store((s.queue + Accepted(s, op))[|Delivered(s, op)|..],
          s.capacity,
          if Accepted(s, op) != [] then None
          else if op.Poll? && s.queue == [] then Some(op.task)
          else s.waiting,
          s.woken + Wakes(s, op))
  }

  class StoreBox<T> {
    var wait: Option<Task>
    var sto: seq<T>
    const capacity: nat
    var woken: seq<Task>

    constructor (capacity: nat)
      ensures State() == Store([], capacity, None, [])
    {
      wait, sto, this.capacity, woken := None, [], capacity, [];
    }

    ghost function State(): Store<T>
      reads this
    {
      Store(sto, capacity, wait, woken)
    }

    /** A message went to the back of the queue, and whoever waited was woken. */
    ghost predicate Stored(queue: seq<T>, waiting: Option<Task>, before: seq<Task>, value: T)
      reads this
    {
      && sto == queue + [value] && wait == None
      && woken == before + (if waiting.Some? then [waiting.value] else [])
    }

    method TryPush(value: T) returns (ok: bool)
      modifies this`sto
      ensures ok <==> |old(sto)| < capacity
      ensures sto == if ok then old(sto) + [value] else old(sto)
    {
      ok := |sto| < capacity;
      if ok {
        sto := sto + [value];
      }
    }

    method TryPop() returns (r: Option<T>)
      modifies this`sto
      ensures old(sto) == [] ==> r == None && sto == []
      ensures old(sto) != [] ==> r == Some(old(sto)[0]) && sto == old(sto)[1..]
    {
      if sto == [] {
        return None;
      }
      r := Some(sto[0]);
      sto := sto[1..];
    }

    method WakeWaiting()
      modifies this`wait, this`woken
      ensures wait == None
      ensures woken == old(woken) + (if old(wait).Some? then [old(wait).value] else [])
    {
      if wait.Some? {
        woken := woken + [wait.value];
      }
      wait := None;
    }

    method RecvErr(err: T)
      modifies this
      ensures State() == After(old(State()), Error(err))
      ensures |old(sto)| < capacity ==> Stored(old(sto), old(wait), old(woken), err)
      ensures |old(sto)| >= capacity ==> sto == old(sto) && wait == old(wait) && woken == old(woken)
    {
      var ok := TryPush(err);
      if ok {
        WakeWaiting();
      }
    }

    method RecvOwned(value: T, typeMatches: bool) returns (r: Result<(), StoreError>)
      modifies this
      ensures State() == After(old(State()), Owned(value, typeMatches))
      ensures r.Ok? <==> typeMatches && |old(sto)| < capacity
      ensures r.Ok? ==> Stored(old(sto), old(wait), old(woken), value)
      ensures r.Err? ==> r.error == (if typeMatches then NoSpace else TypeMismatch)
                         && sto == old(sto) && wait == old(wait) && woken == old(woken)
    {
      if !typeMatches {
        return Err(TypeMismatch);
      }
      var ok := TryPush(value);
      if !ok {
        return Err(NoSpace);
      }
      WakeWaiting();
      r := Ok(());
    }

    /** `decoded` is what the body decodes to, looked at only when there is room. */
    method RecvRaw(decoded: Option<T>) returns (r: Result<(), StoreError>)
      modifies this
      ensures State() == After(old(State()), Raw(decoded))
      ensures r.Ok? <==> |old(sto)| < capacity && decoded.Some?
      ensures r.Ok? ==> Stored(old(sto), old(wait), old(woken), decoded.value)
      ensures r.Err? ==> r.error == (if |old(sto)| < capacity then DeserFailed else NoSpace)
                         && sto == old(sto) && wait == old(wait) && woken == old(woken)
    {
      if |sto| >= capacity {
        return Err(NoSpace);
      }
      if decoded.None? {
        return Err(DeserFailed);
      }
      var _ := TryPush(decoded.value);
      WakeWaiting();
      r := Ok(());
    }

    method TryRecv() returns (r: Option<T>)
      modifies this
      ensures State() == After(old(State()), Op.TryRecv)
      ensures old(sto) == [] ==> r == None && sto == []
      ensures old(sto) != [] ==> r == Some(old(sto)[0]) && sto == old(sto)[1..]
      ensures wait == old(wait) && woken == old(woken)
    {
      r := TryPop();
    }

    /** A task asks for a message, and waits for one if there is none. */
    method Poll(task: Task) returns (r: Poll<T>)
      modifies this
      ensures State() == After(old(State()), Op.Poll(task))
      ensures old(sto) != [] ==>
                && r == Ready(old(sto)[0]) && sto == old(sto)[1..]
                && wait == old(wait) && woken == old(woken)
      ensures old(sto) == [] ==>
                && r == Pending && sto == [] && wait == Some(task)
                && woken == old(woken) + (if old(wait).Some? && old(wait).value != task then [old(wait).value] else [])
    {
      var popped := TryPop();
      if popped.Some? {
        return Ready(popped.value);
      }
      if wait.Some? && wait.value != task {
        WakeWaiting();
      }
      wait := Some(task);
      r := Pending;
    }
  }

  // ------------------------------------------------------------------------
  // Runs
  // ------------------------------------------------------------------------

  function Run<T>(s: Store<T>, ops: seq<Op<T>>): Store<T>
    decreases |ops|
  {
    if ops == [] then s else Run(After(s, ops[0]), ops[1..])
  }

  /** The messages a run was told are stored: there was room, and the type was
      right or the body decoded. An error is not answered; it is stored if there is room. */
  function AllAcknowledged<T>(s: Store<T>, ops: seq<Op<T>>): seq<T>
    decreases |ops|
  {
    if ops == [] then []
    else
      var op, rest := ops[0], AllAcknowledged(After(s, ops[0]), ops[1..]);
      if |s.queue| >= s.capacity then rest
      else if op.Owned? && op.typeMatches then [op.value] + rest
      else if op.Raw? && op.decoded.Some? then [op.decoded.value] + rest
      else if op.Error? then [op.value] + rest
      else rest
  }

  /** The messages the receiver got: the front of a queue that was not empty. */
  function AllDelivered<T>(s: Store<T>, ops: seq<Op<T>>): seq<T>
    decreases |ops|
  {
    if ops == [] then []
    else
      var rest := AllDelivered(After(s, ops[0]), ops[1..]);
      if (ops[0].TryRecv? || ops[0].Poll?) && s.queue != [] then [s.queue[0]] + rest else rest
  }

  /** A registered waker means there is nothing to receive. */
  predicate NobodyParkedOnMail<T>(s: Store<T>) {
    && |s.queue| <= s.capacity
    && (s.waiting.Some? ==> s.queue == [])
  }

  /** No lost wake-up: over any interleaving of senders and receivers the
      invariant holds at every lock boundary. */
  lemma {:induction false} NeverParkedOnMail<T>(s: Store<T>, ops: seq<Op<T>>)
    requires NobodyParkedOnMail(s)
    ensures NobodyParkedOnMail(Run(s, ops))
    decreases |ops|
  {
    if ops != [] {
      NeverParkedOnMail(After(s, ops[0]), ops[1..]);
    }
  }

  /** Exactly once, in order: what was queued and acknowledged is what was
      delivered and is still queued. */
  lemma {:induction false} DeliveredInOrder<T>(s: Store<T>, ops: seq<Op<T>>)
    ensures s.queue + AllAcknowledged(s, ops) == AllDelivered(s, ops) + Run(s, ops).queue
    decreases |ops|
  {
    if ops != [] {
      var op, next, rest := ops[0], After(s, ops[0]), ops[1..];
      DeliveredInOrder(next, rest);
      StepConserves(s, op);
      Unfold(s, ops);
      Pass(s.queue, Accepted(s, op), AllAcknowledged(next, rest), Delivered(s, op), next.queue,
           AllDelivered(next, rest), Run(next, rest).queue);
    }
  }

  lemma {:induction false} Unfold<T>(s: Store<T>, ops: seq<Op<T>>)
    requires ops != []
    ensures var op, next, rest := ops[0], After(s, ops[0]), ops[1..];
            && AllAcknowledged(s, ops) == Accepted(s, op) + AllAcknowledged(next, rest)
            && AllDelivered(s, ops) == Delivered(s, op) + AllDelivered(next, rest)
            && Run(s, ops) == Run(next, rest)
  {}

  lemma {:induction false} StepConserves<T>(s: Store<T>, op: Op<T>)
    ensures s.queue + Accepted(s, op) == Delivered(s, op) + After(s, op).queue
  {}

  /** One step in front of a run that passes `b` through: `a` in, `d` out. */
  lemma {:induction false} Pass<T>(q: seq<T>, a: seq<T>, b: seq<T>, d: seq<T>, r: seq<T>, e: seq<T>, z: seq<T>)
    requires q + a == d + r && r + b == e + z
    ensures q + (a + b) == (d + e) + z
  {
    assert q + (a + b) == (q + a) + b;
    assert (d + r) + b == d + (r + b);
    assert d + (e + z) == (d + e) + z;
  }

  /** A task that went to wait has been woken by the time a message is there
      for it, or another task waits in its place, or it still waits on nothing. */
  lemma {:induction false} WaiterIsWoken<T>(s: Store<T>, task: Task, ops: seq<Op<T>>)
    requires NobodyParkedOnMail(s) && s.waiting == Some(task)
    ensures var end := Run(s, ops);
            && s.woken <= end.woken
            && (task in end.woken[|s.woken|..] || (end.waiting == Some(task) && end.queue == []))
    ensures AllAcknowledged(s, ops) != [] ==> task in Run(s, ops).woken[|s.woken|..]
    decreases |ops|
  {
    if ops != [] {
      var next := After(s, ops[0]);
      if next.waiting == Some(task) && next.woken == s.woken {
        WaiterIsWoken(next, task, ops[1..]);
      } else {
        assert next.woken == s.woken + [task];
        WokenGrows(next, ops[1..]);
        assert Run(s, ops).woken[|s.woken|] == task;
      }
    }
  }

  lemma {:induction false} WokenGrows<T>(s: Store<T>, ops: seq<Op<T>>)
    ensures s.woken <= Run(s, ops).woken
    decreases |ops|
  {
    if ops != [] {
      WokenGrows(After(s, ops[0]), ops[1..]);
    }
  }
}

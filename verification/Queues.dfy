/** The two circular queues: the execution queue of the test engine and the message queue of the logger. */
module Queues {
  import opened JsonTree
  import opened FunctionTable

  const QUEUE_SIZE: nat := 128
  const MESSAGE_SIZE: nat := 1024

  /** The slot `i` places behind `read`. */
  function Slot(read: nat, i: nat): (n: nat)
    ensures n < QUEUE_SIZE
  {
    (read + i) % QUEUE_SIZE
  }

  /** The queued elements in order, starting at index `read`. */
  function Ring<T>(slots: seq<T>, read: nat, count: nat): (q: seq<T>)
    requires |slots| == QUEUE_SIZE && read < QUEUE_SIZE && count <= QUEUE_SIZE
    ensures |q| == count
  {
    seq(count, i requires 0 <= i < count => slots[Slot(read, i)])
  }

  lemma SlotWraps(read: nat, i: nat)
    requires read < QUEUE_SIZE && i <= QUEUE_SIZE
    ensures Slot(read, i) == if read + i < QUEUE_SIZE then read + i else read + i - QUEUE_SIZE
  {
  }

  lemma SlotIs(read: nat, i: nat)
    ensures Slot(read, i) == (read + i) % QUEUE_SIZE
  {
  }

  lemma SlotNext(read: nat, i: nat)
    ensures (Slot(read, i) + 1) % QUEUE_SIZE == Slot(read, i + 1)
  {
  }

  /** Writing behind the last element appends it. */
  lemma RingAppend<T>(slots: seq<T>, read: nat, count: nat, x: T)
    requires |slots| == QUEUE_SIZE && read < QUEUE_SIZE && count < QUEUE_SIZE
    ensures Ring(slots[Slot(read, count) := x], read, count + 1) == Ring(slots, read, count) + [x]
  {
    forall i | 0 <= i < count ensures Slot(read, i) != Slot(read, count) {
      SlotWraps(read, i);
      SlotWraps(read, count);
    }
  }

  /** Moving the read index drops the first element. */
  lemma RingDrop<T>(slots: seq<T>, read: nat, count: nat)
    requires |slots| == QUEUE_SIZE && read < QUEUE_SIZE && 0 < count <= QUEUE_SIZE
    ensures Ring(slots, Slot(read, 1), count - 1) == Ring(slots, read, count)[1..]
    ensures Ring(slots, read, count) == [slots[read]] + Ring(slots, Slot(read, 1), count - 1)
    ensures Slot(Slot(read, 1), count - 1) == Slot(read, count)
  {
    SlotWraps(read, 0);
    forall i | 0 <= i < count ensures Slot(Slot(read, 1), i) == Slot(read, i + 1) {
      SlotWraps(read, 1);
      SlotWraps(Slot(read, 1), i);
      SlotWraps(read, i + 1);
    }
  }

  /** `execution_queue` of the test engine. */
  class ExecutionQueue<T> {
    const slots: array<T>
    var readIndex: nat
    var writeIndex: nat
    var count: nat
    var running: bool
    /** Everything that was ever accepted, and everything that was ever taken out. */
    ghost var accepted: seq<T>
    ghost var delivered: seq<T>

    ghost predicate Valid()
      reads this, slots
    {
      && slots.Length == QUEUE_SIZE && readIndex < QUEUE_SIZE && count <= QUEUE_SIZE
      && writeIndex == Slot(readIndex, count)
      && accepted == delivered + Ring(slots[..], readIndex, count)
    }

    constructor (blank: T)
      ensures Valid() && fresh(slots) && accepted == delivered == [] && count == 0 && running
    {
      slots := new T[QUEUE_SIZE](_ => blank);
      readIndex, writeIndex, count, running := 0, 0, 0, true;
      accepted, delivered := [], [];
    }

    /** `test_engine_queue_push`: refused exactly when the queue is full. */
    method Push(x: T) returns (status: int)
      requires Valid()
      modifies this, slots
      ensures Valid() && delivered == old(delivered) && running == old(running)
      ensures status == 0 || status == -1
      ensures status == 0 <==> old(count) < QUEUE_SIZE
      ensures accepted == if status == 0 then old(accepted) + [x] else old(accepted)
    {
      if count >= QUEUE_SIZE { return -1; }
      RingAppend(slots[..], readIndex, count, x);
      ghost var before := slots[..];
      slots[writeIndex] := x;
      assert slots[..] == before[writeIndex := x];
      SlotWraps(readIndex, count);
      SlotWraps(readIndex, count + 1);
      writeIndex := writeIndex + 1;
      if writeIndex >= QUEUE_SIZE { writeIndex := 0; }
      count := count + 1;
      accepted := accepted + [x];
      return 0;
    }

    /** `test_engine_queue_pop` once it does not wait any more; a stopped engine delivers nothing. */
    method Pop() returns (x: Option<T>)
      requires Valid() && (count > 0 || !running)
      modifies this
      ensures Valid() && accepted == old(accepted) && running == old(running)
      ensures x.Some? <==> running
      ensures delivered == if x.Some? then old(delivered) + [x.value] else old(delivered)
    {
      if !running { return None; }
      hide Ring, Slot;
      RingDrop(slots[..], readIndex, count);
      ghost var next := Slot(readIndex, 1);
      assert next == if readIndex + 1 >= QUEUE_SIZE then 0 else readIndex + 1 by { SlotWraps(readIndex, 1); }
      x := Some(slots[readIndex]);
      readIndex := readIndex + 1;
      if readIndex >= QUEUE_SIZE { readIndex := 0; }
      count := count - 1;
      delivered := delivered + [x.value];
    }
  }

  // ----- the logger

  /** The message queue of the logger; messages are cut to fit their slot. */
  class MessageQueue {
    const slots: array<string>
    var head: nat
    var tail: nat
    var count: nat
    var running: bool
    ghost var accepted: seq<string>
    ghost var delivered: seq<string>

    ghost predicate Valid()
      reads this, slots
    {
      && slots.Length == QUEUE_SIZE && head < QUEUE_SIZE && count <= QUEUE_SIZE
      && tail == Slot(head, count)
      && accepted == delivered + Waiting()
    }

    ghost function Waiting(): (q: seq<string>)
      reads this, slots
      requires slots.Length == QUEUE_SIZE && head < QUEUE_SIZE && count <= QUEUE_SIZE
    {
      Ring(slots[..], head, count)
    }

    constructor ()
      ensures Valid() && fresh(slots) && accepted == delivered == [] && running
    {
      slots := new string[QUEUE_SIZE](_ => "");
      head, tail, count, running := 0, 0, 0, true;
      accepted, delivered := [], [];
    }

    /** `enqueue`. */
    method Enqueue(msg: string) returns (status: int)
      requires Valid()
      modifies this, slots
      ensures Valid() && delivered == old(delivered) && running == old(running)
      ensures (status, Waiting()) == if |old(Waiting())| >= QUEUE_SIZE then (-1, old(Waiting()))
                                     else (0, old(Waiting()) + [Truncated(msg, MESSAGE_SIZE)])
    {
      if count >= QUEUE_SIZE { return -1; }
      hide Ring, Slot, Truncated;
      var cut := Truncated(msg, MESSAGE_SIZE);
      RingAppend(slots[..], head, count, cut);
      SlotNext(head, count);
      ghost var before := slots[..];
      slots[tail] := cut;
      assert slots[..] == before[tail := cut];
      tail := (tail + 1) % QUEUE_SIZE;
      count := count + 1;
      accepted := accepted + [cut];
      return 0;
    }

    /** `dequeue` once it does not wait any more. */
    method Dequeue() returns (msg: Option<string>)
      requires Valid() && (count > 0 || !running)
      modifies this
      ensures Valid() && accepted == old(accepted) && running == old(running)
      ensures msg.Some? <==> old(Waiting()) != []
      ensures msg.Some? ==> msg.value == old(Waiting())[0] && Waiting() == old(Waiting())[1..]
      ensures msg.None? ==> Waiting() == old(Waiting())
    {
      if count == 0 && !running { return None; }
      hide Ring, Slot;
      RingDrop(slots[..], head, count);
      assert (head + 1) % QUEUE_SIZE == Slot(head, 1) by { SlotIs(head, 1); }
      msg := Some(slots[head]);
      head := (head + 1) % QUEUE_SIZE;
      count := count - 1;
      delivered := delivered + [msg.value];
    }

    /** `logger_deinit` under the lock. */
    method Stop()
      requires Valid()
      modifies this`running
      ensures Valid() && !running
    {
      running := false;
    }
  }

  /** Where the worker thread is: evaluating its loop condition, inside `dequeue`, holding a message
      that it is about to print, or gone. */
  datatype Worker = AtLoop | InDequeue | Holding(msg: string) | Returned

  datatype Logger = Logger(queue: seq<string>, running: bool, worker: Worker, accepted: seq<string>, printed: seq<string>)

  const START := Logger([], true, AtLoop, [], [])

  datatype Act = Log(msg: string) | Deinit | Work

  /** One atomic step of a logging thread, of `logger_deinit` or of the worker. */
  function Acts(l: Logger, a: Act): Logger {
    match a
    case Log(msg) =>
      if |l.queue| >= QUEUE_SIZE then l
      else l.(queue := l.queue + [Truncated(msg, MESSAGE_SIZE)], accepted := l.accepted + [Truncated(msg, MESSAGE_SIZE)])
    case Deinit => l.(running := false)
    case Work =>
      match l.worker
      case AtLoop => l.(worker := if l.running || l.queue != [] then InDequeue else Returned)
      case InDequeue =>
        if l.queue != [] then l.(worker := Holding(l.queue[0]), queue := l.queue[1..])
        else if l.running then l
        else l.(worker := AtLoop)
      case Holding(msg) => l.(worker := AtLoop, printed := l.printed + [msg])
      case Returned => l
  }

  function ActAll(l: Logger, acts: seq<Act>): Logger
    decreases |acts|
  {
    if acts == [] then l else ActAll(Acts(l, acts[0]), acts[1..])
  }

  function InHand(w: Worker): seq<string> {
    if w.Holding? then [w.msg] else []
  }

  /** What was accepted was printed, is in the worker's hand, or is queued, in this order. */
  ghost predicate InOrder(l: Logger) {
    l.accepted == l.printed + InHand(l.worker) + l.queue && |l.queue| <= QUEUE_SIZE
  }

  /** The worker has gone only from a stopped and empty logger. */
  ghost predicate GoneClean(l: Logger) {
    l.worker.Returned? ==> !l.running && l.queue == []
  }

  /** After `Deinit` there is no `Log`. */
  predicate QuietAfterDeinit(acts: seq<Act>, running: bool)
    decreases |acts|
  {
    acts == [] ||
    ((acts[0].Log? ==> running) && QuietAfterDeinit(acts[1..], running && !acts[0].Deinit?))
  }

  lemma ActInOrder(l: Logger, a: Act)
    requires InOrder(l)
    ensures InOrder(Acts(l, a))
  {
    hide Truncated;
    match a
    case Log(msg) =>
    case Deinit =>
    case Work =>
      if l.worker.InDequeue? && l.queue != [] { assert l.queue == [l.queue[0]] + l.queue[1..]; }
  }

  lemma {:induction false} RunsInOrder(l: Logger, acts: seq<Act>)
    requires InOrder(l)
    ensures InOrder(ActAll(l, acts))
    decreases |acts|
  {
    hide Acts, InOrder;
    if acts != [] {
      ActInOrder(l, acts[0]);
      RunsInOrder(Acts(l, acts[0]), acts[1..]);
    }
  }

  lemma {:induction false} RunsGoneClean(l: Logger, acts: seq<Act>)
    requires GoneClean(l) && QuietAfterDeinit(acts, l.running)
    ensures GoneClean(ActAll(l, acts))
    decreases |acts|
  {
    if acts != [] { RunsGoneClean(Acts(l, acts[0]), acts[1..]); }
  }

  /** Over every run without a log call after deinit: when the worker has returned, every accepted
      message was printed once, in order. */
  lemma WorkerDrains(acts: seq<Act>)
    requires QuietAfterDeinit(acts, true) && ActAll(START, acts).worker.Returned?
    ensures ActAll(START, acts).printed == ActAll(START, acts).accepted
  {
    RunsInOrder(START, acts);
    RunsGoneClean(START, acts);
    var l := ActAll(START, acts);
    assert l.printed + [] + [] == l.printed;
  }

  /** Steps the worker still needs once the logger is stopped. */
  function StepsLeft(l: Logger): nat {
    match l.worker
    case AtLoop => 3 * |l.queue| + 1
    case InDequeue => if l.queue == [] then 2 else 3 * |l.queue|
    case Holding(_) => 3 * |l.queue| + 2
    case Returned => 0
  }

  function Works(n: nat): seq<Act> {
    seq(n, i => Work)
  }

  /** After deinit the worker returns: each of its own steps brings it closer. */
  lemma {:induction false} WorkerReturns(l: Logger)
    requires !l.running && GoneClean(l)
    ensures ActAll(l, Works(StepsLeft(l))).worker.Returned?
    decreases StepsLeft(l)
  {
    var n := StepsLeft(l);
    if n > 0 {
      var next := Acts(l, Work);
      assert Works(n)[0] == Work && Works(n)[1..] == Works(n - 1);
      assert StepsLeft(next) == n - 1;
      WorkerReturns(next);
    }
  }

  // ----- exactly when nothing is lost

  /** What the callers do, without the steps of the worker in between. */
  function Calls(acts: seq<Act>): seq<Act>
    ensures forall c <- Calls(acts) :: !c.Work?
  {
    if acts == [] then [] else (if acts[0].Work? then [] else [acts[0]]) + Calls(acts[1..])
  }

  /** Whenever the worker returns, it has printed everything: under every interleaving with these calls. */
  ghost predicate NothingLost(calls: seq<Act>) {
    forall acts | Calls(acts) == calls && ActAll(START, acts).worker.Returned? ::
      ActAll(START, acts).printed == ActAll(START, acts).accepted
  }

  /** Nothing is lost under any interleaving if and only if no `Log` follows a `Deinit`. */
  lemma DrainsExactly(calls: seq<Act>)
    requires forall c <- calls :: !c.Work?
    ensures NothingLost(calls) <==> QuietAfterDeinit(calls, true)
  {
    hide ActAll, Calls, QuietAfterDeinit;
    if QuietAfterDeinit(calls, true) {
      forall acts | Calls(acts) == calls && ActAll(START, acts).worker.Returned?
        ensures ActAll(START, acts).printed == ActAll(START, acts).accepted
      {
        QuietCalls(acts, true);
        WorkerDrains(acts);
      }
    } else {
      var acts := LateLost(calls);
    }
  }

  /** An interleaving in which the worker returns before the first late call. */
  lemma LateLost(calls: seq<Act>) returns (acts: seq<Act>)
    requires (forall c <- calls :: !c.Work?) && !QuietAfterDeinit(calls, true)
    ensures Calls(acts) == calls && ActAll(START, acts).worker.Returned? && ActAll(START, acts).printed != ActAll(START, acts).accepted
  {
    hide ActAll, Calls, QuietAfterDeinit, Works, StepsLeft;
    var n := FirstLate(calls, START);
    var pre, post := calls[..n], calls[n+1..];
    var works := StepsLeft(ActAll(START, pre));
    acts := pre + Works(works) + [calls[n]] + post;
    LateMessageLost(pre, calls[n].msg, post);
    CallsAround(pre, works, [calls[n]] + post);
    assert calls == pre + ([calls[n]] + post);
    assert acts == pre + Works(works) + ([calls[n]] + post);
  }

  /** The worker's steps have no say in whether callers keep quiet. */
  lemma {:induction false} QuietCalls(acts: seq<Act>, running: bool)
    ensures QuietAfterDeinit(Calls(acts), running) <==> QuietAfterDeinit(acts, running)
    decreases |acts|
  {
    if acts != [] {
      var next := running && !acts[0].Deinit?;
      QuietCalls(acts[1..], next);
      if acts[0].Work? {
        assert Calls(acts) == Calls(acts[1..]);
      } else {
        assert Calls(acts)[0] == acts[0] && Calls(acts)[1..] == Calls(acts[1..]);
      }
    }
  }

  /** The first call that logs after a deinit. */
  lemma {:induction false} FirstLate(calls: seq<Act>, l: Logger) returns (n: nat)
    requires !QuietAfterDeinit(calls, l.running)
    ensures n < |calls| && calls[n].Log? && QuietAfterDeinit(calls[..n], l.running) && !ActAll(l, calls[..n]).running
    decreases |calls|
  {
    if calls[0].Log? && !l.running {
      n := 0;
    } else {
      var rest := FirstLate(calls[1..], Acts(l, calls[0]));
      n := rest + 1;
      assert calls[..n][0] == calls[0] && calls[..n][1..] == calls[1..][..rest];
    }
  }

  lemma {:induction false} ActConcat(l: Logger, a: seq<Act>, b: seq<Act>)
    ensures ActAll(l, a + b) == ActAll(ActAll(l, a), b)
    decreases |a|
  {
    if a == [] {
      assert a + b == b;
    } else {
      assert (a + b)[1..] == a[1..] + b;
      ActConcat(Acts(l, a[0]), a[1..], b);
    }
  }

  /** After any quiet calls that end the logging, the worker may return; whatever is logged then is lost. */
  lemma LateMessageLost(pre: seq<Act>, msg: string, post: seq<Act>)
    requires QuietAfterDeinit(pre, true) && !ActAll(START, pre).running
    ensures var l := ActAll(START, pre + Works(StepsLeft(ActAll(START, pre))) + [Log(msg)] + post);
      l.worker.Returned? && l.printed != l.accepted
  {
    var stopped := ActAll(START, pre);
    var works := Works(StepsLeft(stopped));
    var gone := ActAll(stopped, works);
    RunsGoneClean(START, pre);
    WorkerReturns(stopped);
    WorksQuiet(StepsLeft(stopped), stopped.running);
    RunsGoneClean(stopped, works);
    RunsInOrder(START, pre);
    RunsInOrder(stopped, works);
    var late := Acts(gone, Log(msg));
    assert [Log(msg)][1..] == [] && ActAll(gone, [Log(msg)]) == late;
    ActConcat(START, pre, works);
    ActConcat(START, pre + works, [Log(msg)]);
    ActConcat(START, pre + works + [Log(msg)], post);
    LateStays(late, post);
  }

  lemma {:induction false} WorksQuiet(n: nat, running: bool)
    ensures QuietAfterDeinit(Works(n), running)
    decreases n
  {
    if n > 0 {
      assert Works(n)[1..] == Works(n - 1);
      WorksQuiet(n - 1, running);
    }
  }

  /** Once the worker has gone, nothing more is printed. */
  lemma {:induction false} LateStays(l: Logger, acts: seq<Act>)
    requires l.worker.Returned? && |l.printed| < |l.accepted|
    ensures var r := ActAll(l, acts); r.worker.Returned? && |r.printed| < |r.accepted|
    decreases |acts|
  {
    if acts != [] { LateStays(Acts(l, acts[0]), acts[1..]); }
  }

  lemma {:induction false} CallsConcat(a: seq<Act>, b: seq<Act>)
    ensures Calls(a + b) == Calls(a) + Calls(b)
    decreases |a|
  {
    if a == [] {
      assert a + b == b;
    } else {
      assert (a + b)[1..] == a[1..] + b;
      CallsConcat(a[1..], b);
    }
  }

  /** Steps of the worker do not show among the calls. */
  lemma CallsAround(pre: seq<Act>, n: nat, post: seq<Act>)
    requires (forall c <- pre :: !c.Work?) && forall c <- post :: !c.Work?
    ensures Calls(pre + Works(n) + post) == pre + post
  {
    hide Calls, Works;
    CallsConcat(pre, Works(n));
    CallsConcat(pre + Works(n), post);
    CallsAlone(pre);
    CallsAlone(post);
    NoCalls(n);
  }

  lemma {:induction false} CallsAlone(calls: seq<Act>)
    requires forall c <- calls :: !c.Work?
    ensures Calls(calls) == calls
    decreases |calls|
  {
    if calls != [] { CallsAlone(calls[1..]); }
  }

  lemma {:induction false} NoCalls(n: nat)
    ensures Calls(Works(n)) == []
    decreases n
  {
    if n > 0 {
      assert Works(n)[1..] == Works(n - 1);
      NoCalls(n - 1);
    }
  }
}

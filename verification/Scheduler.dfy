/** The scheduler: first-fit selection of pending test instances by resource availability. */
module Scheduler {
  import opened JsonTree
  import opened FunctionTable
  import opened ResourceManager

  const MAX_TEST_INSTANCES: nat := 128

  datatype Verdict = Accepted | Pending | Failed

  /** What the scheduler needs of the test manager: the function of an instance's test, or the empty
      name when the test is unknown. */
  type FunctionOf = Instance -> string

  /** `test_scheduler_check_resource`. */
  predicate Runnable(fs: seq<FunctionInfo>, t: Table, of: FunctionOf, inst: Instance) {
    IsAvailable(fs, t, of(inst))
  }

  /** Index of the first runnable instance. */
  function FirstRunnable(fs: seq<FunctionInfo>, t: Table, of: FunctionOf, p: seq<Instance>): (r: Option<nat>)
    ensures r.Some? ==> r.value < |p| && Runnable(fs, t, of, p[r.value])
    ensures r.Some? ==> forall j | 0 <= j < r.value :: !Runnable(fs, t, of, p[j])
    ensures r.None? ==> forall j | 0 <= j < |p| :: !Runnable(fs, t, of, p[j])
  {
    if p == [] then None
    else if Runnable(fs, t, of, p[0]) then Some(0)
    else match FirstRunnable(fs, t, of, p[1..])
      case None => None
      case Some(i) => Some(i + 1)
  }

  /** `test_scheduler_submit`: an instance runs at once only when all slots are taken and its devices are free. */
  function AfterSubmit(p: seq<Instance>, running: nat, max: nat, inst: Instance, runnable: bool): (seq<Instance>, nat, Verdict) {
    if running >= max && runnable then (p, running + 1, Accepted)
    else if |p| >= MAX_TEST_INSTANCES then (p, running, Failed)
    else (p + [inst], running, Pending)
  }

  /** `test_scheduler_get_next_instance`. */
  function AfterNext(p: seq<Instance>, running: nat, max: nat, first: Option<nat>): (seq<Instance>, Option<Instance>)
    requires first.Some? ==> first.value < |p|
  {
    if running >= max || first.None? then (p, None)
    else (Without(p, first.value), Some(p[first.value]))
  }

  /** The first instance of `p` that can run is the one at `i`. */
  ghost predicate FirstToRun(fs: seq<FunctionInfo>, t: Table, of: FunctionOf, p: seq<Instance>, i: int) {
    0 <= i < |p| && Runnable(fs, t, of, p[i]) && forall j | 0 <= j < i :: !Runnable(fs, t, of, p[j])
  }

  /** What `test_scheduler_get_next_instance` leaves waiting and hands out: with a free slot the first instance that can
      run, which alone is taken from the list; nothing without a free slot or without such an instance. */
  ghost predicate HandsOut(fs: seq<FunctionInfo>, t: Table, of: FunctionOf, p: seq<Instance>, running: nat, max: nat,
                           left: seq<Instance>, next: Option<Instance>) {
    && (next.Some? ==> running < max)
    && (next.Some? ==> exists i :: FirstToRun(fs, t, of, p, i) && next == Some(p[i]) && left == p[..i] + p[i+1..])
    && (next.None? ==> left == p && (running >= max || forall i | 0 <= i < |p| :: !Runnable(fs, t, of, p[i])))
  }

  lemma NextExact(fs: seq<FunctionInfo>, t: Table, of: FunctionOf, p: seq<Instance>, running: nat, max: nat)
    ensures var (left, next) := AfterNext(p, running, max, FirstRunnable(fs, t, of, p));
      HandsOut(fs, t, of, p, running, max, left, next)
  {
    hide Runnable;
    var f := FirstRunnable(fs, t, of, p);
    if f.Some? { assert FirstToRun(fs, t, of, p, f.value); }
  }

  /** An instance is accepted at once if and only if all slots are taken and its function can be acquired; otherwise it is
      refused if and only if 128 are waiting, and waits behind them if not. */
  lemma SubmitExact(fs: seq<FunctionInfo>, t: Table, of: FunctionOf, p: seq<Instance>, running: nat, max: nat, inst: Instance)
    ensures var (left, running', v) := AfterSubmit(p, running, max, inst, Runnable(fs, t, of, inst));
      && (v.Accepted? <==> running >= max && DevicesOf(fs, of(inst)).Some? && AfterAcquire(fs, t, of(inst), inst).1 == 0)
      && (v.Accepted? ==> left == p && running' == running + 1)
      && (!v.Accepted? ==> running' == running && (v.Failed? <==> |p| >= 128))
      && (v.Failed? ==> left == p) && (v.Pending? ==> |left| == |p| + 1 && p <= left && left[|p|] == inst)
  {
    AvailableToAcquire(fs, t, of(inst), inst);
    hide AfterAcquire, DevicesOf;
  }

  class Scheduler {
    const manager: Manager
    const of: FunctionOf
    const maxInstances: nat
    const slots: array<Option<Instance>>
    var pendingCount: nat
    var runningInstances: nat

    ghost predicate Valid()
      reads this, slots, manager
    {
      && slots.Length == MAX_TEST_INSTANCES && pendingCount <= MAX_TEST_INSTANCES
      && manager.Valid()
      && forall i | 0 <= i < pendingCount :: slots[i].Some?
    }

    /** The waiting instances in order. */
    ghost function Waiting(): (p: seq<Instance>)
      reads this, slots, manager
      requires Valid()
      ensures |p| == pendingCount && forall i | 0 <= i < pendingCount :: slots[i] == Some(p[i])
    {
      seq(pendingCount, i requires 0 <= i < pendingCount reads this, slots, manager requires Valid() => slots[i].value)
    }

    constructor (manager: Manager, of: FunctionOf, maxInstances: nat)
      requires manager.Valid()
      ensures Valid() && fresh(slots) && Waiting() == [] && runningInstances == 0
      ensures this.manager == manager && this.of == of
    {
      this.manager, this.of := manager, of;
      this.maxInstances := if maxInstances == 0 then 8 else maxInstances;
      slots := new Option<Instance>[MAX_TEST_INSTANCES](_ => None);
      pendingCount, runningInstances := 0, 0;
    }

    method CheckResource(inst: Instance) returns (runnable: bool)
      requires Valid()
      ensures runnable == Runnable(manager.functions, manager.Table(), of, inst)
    {
      runnable := manager.CheckAvailable(of(inst));
    }

    /** `test_scheduler_submit`. */
    method Submit(inst: Instance) returns (v: Verdict)
      requires Valid()
      modifies this, slots
      ensures Valid()
      ensures (Waiting(), runningInstances, v) ==
        AfterSubmit(old(Waiting()), old(runningInstances), maxInstances, inst, Runnable(manager.functions, manager.Table(), of, inst))
      ensures v.Accepted? <==> old(runningInstances) >= maxInstances && Runnable(manager.functions, manager.Table(), of, inst)
      ensures runningInstances == old(runningInstances) + if v.Accepted? then 1 else 0
      ensures Waiting() == if v.Pending? then old(Waiting()) + [inst] else old(Waiting())
      ensures !v.Accepted? ==> (v.Failed? <==> |old(Waiting())| >= 128)
    {
      if runningInstances >= maxInstances {
        var runnable := CheckResource(inst);
        if runnable {
          runningInstances := runningInstances + 1;
          assert Waiting() == old(Waiting());
          return Accepted;
        }
      }
      if pendingCount >= MAX_TEST_INSTANCES { return Failed; }
      slots[pendingCount] := Some(inst);
      pendingCount := pendingCount + 1;
      assert Waiting() == old(Waiting()) + [inst];
      return Pending;
    }

    /** `test_scheduler_remove_pending`: shift the later instances down. */
    method RemovePending(index: nat)
      requires Valid() && index < pendingCount
      modifies this`pendingCount, slots
      ensures Valid() && Waiting() == Without(old(Waiting()), index)
    {
      var i := index;
      ghost var p := Waiting();
      while i < pendingCount - 1
        invariant index <= i < pendingCount == |p| <= slots.Length
        invariant forall j | 0 <= j < index :: slots[j] == Some(p[j])
        invariant forall j | index <= j < i :: slots[j] == Some(p[j+1])
        invariant forall j | i <= j < pendingCount :: slots[j] == Some(p[j])
      {
        slots[i] := slots[i + 1];
        i := i + 1;
      }
      slots[pendingCount - 1] := None;
      pendingCount := pendingCount - 1;
    }

    /** `test_scheduler_get_next_instance`. */
    method GetNextInstance() returns (v: Verdict, inst: Option<Instance>)
      requires Valid()
      modifies this`pendingCount, slots
      ensures Valid() && (v.Accepted? <==> inst.Some?) && !v.Failed?
      ensures (Waiting(), inst) == AfterNext(old(Waiting()), runningInstances, maxInstances,
        FirstRunnable(manager.functions, manager.Table(), of, old(Waiting())))
      ensures HandsOut(manager.functions, manager.Table(), of, old(Waiting()), runningInstances, maxInstances, Waiting(), inst)
    {
      NextExact(manager.functions, manager.Table(), of, Waiting(), runningInstances, maxInstances);
      hide Runnable, FirstRunnable, Without, HandsOut;
      if runningInstances >= maxInstances { return Pending, None; }
      var index := 0;
      while index < pendingCount
        invariant index <= pendingCount && Valid() && pendingCount == old(pendingCount) && Waiting() == old(Waiting())
        invariant forall j | 0 <= j < index :: !Runnable(manager.functions, manager.Table(), of, Waiting()[j])
      {
        var candidate := slots[index].value;
        var runnable := CheckResource(candidate);
        if runnable {
          RemovePending(index);
          return Accepted, Some(candidate);
        }
        index := index + 1;
      }
      return Pending, None;
    }
  }

  /** Acquiring succeeds, and then the instance owns every device of the function. */
  predicate TakesAll(fs: seq<FunctionInfo>, t: Table, name: string, inst: Instance) {
    var (taken, status) := AfterAcquire(fs, t, name, inst);
    var devices := DevicesOf(fs, name);
    && status == 0 && devices.Some?
    && forall d | d in devices.value :: Find(taken, d).Some? && taken[Find(taken, d).value].owner == Some(inst)
  }

  /** The instance that an answered question hands out can really take all its devices, whatever is registered and
      released in between, as long as nobody acquires. */
  lemma HandedOutCanAcquire(fs: seq<FunctionInfo>, t: Table, of: FunctionOf, p: seq<Instance>, running: nat, max: nat,
                            left: seq<Instance>, inst: Instance, steps: seq<Step>)
    requires Owned(t) && t != [] && HandsOut(fs, t, of, p, running, max, left, Some(inst))
    requires forall k | 0 <= k < |steps| :: !steps[k].DoAcquire?
    ensures TakesAll(fs, Run(fs, t, steps), of(inst), inst)
  {
    var devices := DevicesOf(fs, of(inst)).value;
    var later := Run(fs, t, steps);
    forall d | d in devices ensures Available(later, d) { StaysAvailable(fs, t, steps, d); }
    RunOwned(fs, t, steps);
    RunKeepsSome(fs, t, steps);
    AcquireAllOrNothing(fs, later, of(inst), inst);
    var taken := AfterAcquire(fs, later, of(inst), inst).0;
    forall d | d in devices ensures Find(taken, d).Some? && taken[Find(taken, d).value].owner == Some(inst) {
      SameNames(later, taken, d);
    }
  }

  lemma {:induction false} RunKeepsSome(fs: seq<FunctionInfo>, t: Table, steps: seq<Step>)
    requires t != []
    ensures Run(fs, t, steps) != []
    decreases |steps|
  {
    if steps != [] {
      StepNames(fs, t, steps[0]);
      RunKeepsSome(fs, After(fs, t, steps[0]), steps[1..]);
    }
  }

  // ----- every run

  datatype Event =
    | Submitted(inst: Instance)
    | Asked
    | Resources(step: Step)

  /** The scheduler, the table, and the history of verdicts. */
  datatype World = World(table: Table, waiting: seq<Instance>, running: nat,
                         queued: multiset<Instance>, handedOut: multiset<Instance>)

  function Happens(fs: seq<FunctionInfo>, of: FunctionOf, max: nat, w: World, e: Event): World {
    match e
    case Resources(step) => w.(table := After(fs, w.table, step))
    case Submitted(inst) =>
      var (p, running, v) := AfterSubmit(w.waiting, w.running, max, inst, Runnable(fs, w.table, of, inst));
      World(w.table, p, running, w.queued + (if v.Pending? then multiset{inst} else multiset{}), w.handedOut)
    case Asked =>
      var (p, next) := AfterNext(w.waiting, w.running, max, FirstRunnable(fs, w.table, of, w.waiting));
      w.(waiting := p, handedOut := w.handedOut + (if next.Some? then multiset{next.value} else multiset{}))
  }

  function HappenAll(fs: seq<FunctionInfo>, of: FunctionOf, max: nat, w: World, es: seq<Event>): World
    decreases |es|
  {
    if es == [] then w else HappenAll(fs, of, max, Happens(fs, of, max, w, es[0]), es[1..])
  }

  /** Nothing is lost or doubled: whoever was queued is waiting or was handed out. */
  ghost predicate Accounted(w: World) {
    w.queued == w.handedOut + multiset(w.waiting) && |w.waiting| <= MAX_TEST_INSTANCES
  }

  /** In every run: whoever is handed out can take all its devices at that moment. */
  lemma AskedCanAcquire(fs: seq<FunctionInfo>, of: FunctionOf, max: nat, w: World, inst: Instance)
    requires Owned(w.table) && w.table != []
    requires var w' := Happens(fs, of, max, w, Asked); w'.handedOut == w.handedOut + multiset{inst}
    ensures TakesAll(fs, w.table, of(inst), inst) && w.running < max
  {
    var (left, next) := AfterNext(w.waiting, w.running, max, FirstRunnable(fs, w.table, of, w.waiting));
    NextExact(fs, w.table, of, w.waiting, w.running, max);
    hide Runnable, HandsOut, TakesAll, AfterNext;
    var added := if next.Some? then multiset{next.value} else multiset{};
    assert inst in w.handedOut + multiset{inst};
    assert (w.handedOut + added)[inst] == w.handedOut[inst] + 1;
    assert added[inst] == 1;
    assert next == Some(inst);
    HandedOutCanAcquire(fs, w.table, of, w.waiting, w.running, max, left, inst, []);
    assert w.running < max by { OnlyWithSlot(fs, w.table, of, w.waiting, w.running, max, left, next); }
  }

  lemma OnlyWithSlot(fs: seq<FunctionInfo>, t: Table, of: FunctionOf, p: seq<Instance>, running: nat, max: nat,
                     left: seq<Instance>, next: Option<Instance>)
    requires HandsOut(fs, t, of, p, running, max, left, next)
    ensures next.Some? ==> running < max
  {
  }

  lemma WithoutOne(p: seq<Instance>, i: nat)
    requires i < |p|
    ensures multiset(p) == multiset(Without(p, i)) + multiset{p[i]}
  {
    assert p == p[..i] + [p[i]] + p[i+1..];
  }

  lemma StepAccounted(fs: seq<FunctionInfo>, of: FunctionOf, max: nat, w: World, e: Event)
    requires Accounted(w)
    ensures Accounted(Happens(fs, of, max, w, e))
  {
    hide Runnable, After, FirstRunnable, Without;
    match e
    case Asked =>
      var first := FirstRunnable(fs, w.table, of, w.waiting);
      if first.Some? { WithoutOne(w.waiting, first.value); }
    case Submitted(inst) =>
    case Resources(step) =>
  }

  lemma {:induction false} AllAccounted(fs: seq<FunctionInfo>, of: FunctionOf, max: nat, w: World, es: seq<Event>)
    requires Accounted(w)
    ensures Accounted(HappenAll(fs, of, max, w, es))
    decreases |es|
  {
    hide Happens, Accounted;
    if es != [] {
      StepAccounted(fs, of, max, w, es[0]);
      AllAccounted(fs, of, max, Happens(fs, of, max, w, es[0]), es[1..]);
    }
  }
}

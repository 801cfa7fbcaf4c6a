/** The resource manager: who owns which device. */
module ResourceManager {
  import opened JsonTree
  import opened FunctionTable

  const MAX_RESOURCES: nat := 128

  /** A test instance, by identity. */
  type Instance = nat

  datatype State = Free | Busy

  datatype Resource = Resource(name: string, state: State, owner: Option<Instance>)

  type Table = seq<Resource>

  // ----- the table

  /** `resource_manager_find`. */
  function Find(t: Table, name: string): (r: Option<nat>)
    ensures r.Some? ==> r.value < |t| && t[r.value].name == name
    ensures r.Some? ==> forall j | 0 <= j < r.value :: t[j].name != name
    ensures r.None? ==> forall j | 0 <= j < |t| :: t[j].name != name
  {
    FindNamed(t, name, (r: Resource) => r.name)
  }

  /** `resource_manager_register`: the new table and the status. */
  function AfterRegister(t: Table, name: string): (Table, int) {
    if |t| >= MAX_RESOURCES || Find(t, name).Some? then (t, -1)
    else (t + [Resource(Truncated(name, NAME_LENGTH), Free, None)], 0)
  }

  /** A registered and free device. */
  predicate Available(t: Table, device: string) {
    var i := Find(t, device);
    i.Some? && t[i.value].state.Free?
  }

  /** The check loop of acquire and of is_available: an empty table refuses nothing. */
  predicate AllAvailable(t: Table, devices: seq<string>) {
    t == [] || forall d | d in devices :: Available(t, d)
  }

  function Take(t: Table, device: string, inst: Instance): (r: Table)
    ensures |r| == |t| && forall i | 0 <= i < |t| :: r[i].name == t[i].name
  {
    match Find(t, device)
    case Some(i) => t[i := t[i].(state := Busy, owner := Some(inst))]
    case None => t
  }

  /** The marking loop of acquire. */
  function TakeAll(t: Table, devices: seq<string>, inst: Instance): (r: Table)
    ensures |r| == |t| && forall i | 0 <= i < |t| :: r[i].name == t[i].name
    decreases |devices|
  {
    if devices == [] then t else TakeAll(Take(t, devices[0], inst), devices[1..], inst)
  }

  function GiveBack(t: Table, device: string, inst: Instance): (r: Table)
    ensures |r| == |t| && forall i | 0 <= i < |t| :: r[i].name == t[i].name
  {
    match Find(t, device)
    case Some(i) => if t[i].owner == Some(inst) then t[i := t[i].(state := Free, owner := None)] else t
    case None => t
  }

  /** The loop of release. */
  function GiveBackAll(t: Table, devices: seq<string>, inst: Instance): (r: Table)
    ensures |r| == |t| && forall i | 0 <= i < |t| :: r[i].name == t[i].name
    decreases |devices|
  {
    if devices == [] then t else GiveBackAll(GiveBack(t, devices[0], inst), devices[1..], inst)
  }

  /** `resource_manager_acquire`: an unavailable function takes nothing and still reports zero. */
  function AfterAcquire(fs: seq<FunctionInfo>, t: Table, name: string, inst: Instance): (Table, int) {
    match DevicesOf(fs, name)
    case None => (t, 0)
    case Some(devices) => if AllAvailable(t, devices) then (TakeAll(t, devices, inst), 0) else (t, -1)
  }

  /** `resource_manager_release`. */
  function AfterRelease(fs: seq<FunctionInfo>, t: Table, name: string, inst: Instance): Table {
    match DevicesOf(fs, name)
    case None => t
    case Some(devices) => GiveBackAll(t, devices, inst)
  }

  /** `resource_manager_is_available`. */
  predicate IsAvailable(fs: seq<FunctionInfo>, t: Table, name: string) {
    match DevicesOf(fs, name)
    case None => false
    case Some(devices) => AllAvailable(t, devices)
  }

  // ----- the object, with its table updated in place under the lock

  class Manager {
    const functions: seq<FunctionInfo>
    const resources: array<Resource>
    var count: nat

    ghost predicate Valid()
      reads this
    {
      resources.Length == MAX_RESOURCES && count <= MAX_RESOURCES
    }

    ghost function Table(): (t: Table)
      reads this, resources
      requires Valid()
    {
      resources[..count]
    }

    constructor (functions: seq<FunctionInfo>)
      ensures Valid() && fresh(resources) && Table() == [] && this.functions == functions
    {
      this.functions := functions;
      resources := new Resource[MAX_RESOURCES](_ => Resource("", Free, None));
      count := 0;
    }

    method FindIndex(name: string) returns (r: Option<nat>)
      requires Valid()
      ensures r == Find(Table(), name)
    {
      for index := 0 to count
        invariant forall j | 0 <= j < index :: resources[j].name != name
      {
        if resources[index].name == name {
          FindUnique(Table(), name, index);
          return Some(index);
        }
      }
      NotFound(Table(), name);
      return None;
    }

    method Register(name: string) returns (status: int)
      requires Valid()
      modifies this, resources
      ensures Valid() && (Table(), status) == AfterRegister(old(Table()), name)
    {
      if count >= MAX_RESOURCES { return -1; }
      var found := FindIndex(name);
      if found.Some? { return -1; }
      resources[count] := Resource(Truncated(name, NAME_LENGTH), Free, None);
      count := count + 1;
      assert Table() == old(Table()) + [Resource(Truncated(name, NAME_LENGTH), Free, None)];
      return 0;
    }

    /** `resource_manager_is_available`. */
    method CheckAvailable(name: string) returns (available: bool)
      requires Valid()
      ensures available == IsAvailable(functions, Table(), name)
    {
      var devices := DevicesOf(functions, name);
      if devices.None? { return false; }
      available := AllFree(devices.value);
    }

    /** The check loop: the inner loop repeats the same test once per resource. */
    method AllFree(devices: seq<string>) returns (available: bool)
      requires Valid()
      ensures available == AllAvailable(Table(), devices)
    {
      for i := 0 to |devices|
        invariant Table() == [] || forall j | 0 <= j < i :: Available(Table(), devices[j])
      {
        var device := devices[i];
        for index := 0 to count
          invariant index > 0 ==> Available(Table(), device)
        {
          var r := FindIndex(device);
          if r.None? || resources[r.value].state == Busy {
            assert !Available(Table(), device) && device in devices;
            return false;
          }
        }
      }
      return true;
    }

    /** `resource_manager_acquire`: everything is checked before anything is taken. */
    method Acquire(name: string, inst: Instance) returns (status: int)
      requires Valid()
      modifies resources
      ensures Valid() && (Table(), status) == AfterAcquire(functions, old(Table()), name, inst)
    {
      var devices := DevicesOf(functions, name);
      if devices.None? { return 0; }
      var free := AllFree(devices.value);
      if !free { return -1; }
      ghost var all := TakeAll(Table(), devices.value, inst);
      for i := 0 to |devices.value|
        invariant Valid() && TakeAll(Table(), devices.value[i..], inst) == all
      {
        assert devices.value[i..][1..] == devices.value[i+1..];
        MarkBusy(devices.value[i], inst);
      }
      return 0;
    }

    /** The inner marking loop: every pass marks the same resource. */
    method MarkBusy(device: string, inst: Instance)
      requires Valid()
      modifies resources
      ensures Table() == Take(old(Table()), device, inst)
    {
      ghost var t := Table();
      for index := 0 to count
        invariant Table() == if index == 0 then t else Take(t, device, inst)
      {
        SameNames(t, Take(t, device, inst), device);
        var r := FindIndex(device);
        if r.Some? {
          resources[r.value] := resources[r.value].(state := Busy, owner := Some(inst));
        }
        assert Table() == Take(t, device, inst);
      }
    }

    /** `resource_manager_release`. */
    method Release(name: string, inst: Instance)
      requires Valid()
      modifies resources
      ensures Valid() && Table() == AfterRelease(functions, old(Table()), name, inst)
    {
      var devices := DevicesOf(functions, name);
      if devices.None? { return; }
      ghost var all := GiveBackAll(Table(), devices.value, inst);
      for i := 0 to |devices.value|
        invariant Valid() && GiveBackAll(Table(), devices.value[i..], inst) == all
      {
        assert devices.value[i..][1..] == devices.value[i+1..];
        MarkFree(devices.value[i], inst);
      }
    }

    method MarkFree(device: string, inst: Instance)
      requires Valid()
      modifies resources
      ensures Table() == GiveBack(old(Table()), device, inst)
    {
      ghost var t := Table();
      for index := 0 to count
        invariant Table() == if index == 0 then t else GiveBack(t, device, inst)
      {
        SameNames(t, GiveBack(t, device, inst), device);
        var r := FindIndex(device);
        if r.Some? && resources[r.value].owner == Some(inst) {
          resources[r.value] := resources[r.value].(state := Free, owner := None);
        }
        assert Table() == GiveBack(t, device, inst);
      }
    }
  }

  /** Lookups only depend on the names. */
  lemma {:induction false} SameNames(t: Table, u: Table, name: string)
    requires |t| == |u| && forall i | 0 <= i < |t| :: t[i].name == u[i].name
    ensures Find(t, name) == Find(u, name)
  {
    var f := Find(t, name);
    if f.Some? { FindUnique(u, name, f.value); } else { NotFound(u, name); }
  }

  lemma NotFound(t: Table, name: string)
    requires forall j | 0 <= j < |t| :: t[j].name != name
    ensures Find(t, name).None?
  {
  }

  lemma FindUnique(t: Table, name: string, i: nat)
    requires i < |t| && t[i].name == name && forall j | 0 <= j < i :: t[j].name != name
    ensures Find(t, name) == Some(i)
  {
    var f := Find(t, name);
    assert f.Some?;
  }

  // ----- every interleaving

  /** One atomic step: each call holds the table lock. */
  datatype Step =
    | DoRegister(name: string)
    | DoAcquire(name: string, inst: Instance)
    | DoRelease(name: string, inst: Instance)

  function After(fs: seq<FunctionInfo>, t: Table, s: Step): Table {
    match s
    case DoRegister(name) => AfterRegister(t, name).0
    case DoAcquire(name, inst) => AfterAcquire(fs, t, name, inst).0
    case DoRelease(name, inst) => AfterRelease(fs, t, name, inst)
  }

  function Run(fs: seq<FunctionInfo>, t: Table, steps: seq<Step>): Table
    decreases |steps|
  {
    if steps == [] then t else Run(fs, After(fs, t, steps[0]), steps[1..])
  }

  /** BUSY means owned, FREE means unowned. */
  ghost predicate Owned(t: Table) {
    forall i | 0 <= i < |t| :: t[i].state == Busy <==> t[i].owner.Some?
  }

  ghost predicate DistinctNames(names: seq<string>) {
    forall i, j | 0 <= i < j < |names| :: names[i] != names[j]
  }

  function Names(t: Table): (names: seq<string>)
    ensures |names| == |t|
  {
    seq(|t|, i requires 0 <= i < |t| => t[i].name)
  }

  /** What a step does to the names alone. */
  function NamesAfter(names: seq<string>, s: Step): seq<string> {
    if s.DoRegister? && |names| < MAX_RESOURCES && s.name !in names then names + [Truncated(s.name, NAME_LENGTH)] else names
  }

  /** A name that is stored is not stored under the name of another resource. */
  predicate Clear(names: seq<string>, s: Step) {
    s.DoRegister? && |names| < MAX_RESOURCES && s.name !in names ==> Truncated(s.name, NAME_LENGTH) !in names
  }

  predicate AllClear(names: seq<string>, steps: seq<Step>)
    decreases |steps|
  {
    steps != [] ==> Clear(names, steps[0]) && AllClear(NamesAfter(names, steps[0]), steps[1..])
  }

  /** Names below 64 bytes never get into each other's way. */
  lemma {:induction false} ShortNamesClear(names: seq<string>, steps: seq<Step>)
    requires forall i | 0 <= i < |steps| :: steps[i].DoRegister? ==> |steps[i].name| < NAME_LENGTH
    ensures AllClear(names, steps)
    decreases |steps|
  {
    if steps != [] { ShortNamesClear(NamesAfter(names, steps[0]), steps[1..]); }
  }

  lemma StepNames(fs: seq<FunctionInfo>, t: Table, s: Step)
    ensures Names(After(fs, t, s)) == NamesAfter(Names(t), s) && |t| <= |After(fs, t, s)|
    ensures forall i | 0 <= i < |t| :: After(fs, t, s)[i].name == t[i].name
  {
    if s.DoRegister? {
      var f := Find(t, s.name);
      assert f.Some? <==> s.name in Names(t) by {
        if f.Some? { assert Names(t)[f.value] == s.name; }
      }
    }
  }

  lemma {:induction false} TakeAllOwned(t: Table, devices: seq<string>, inst: Instance)
    requires Owned(t)
    ensures Owned(TakeAll(t, devices, inst))
    decreases |devices|
  {
    if devices != [] { TakeAllOwned(Take(t, devices[0], inst), devices[1..], inst); }
  }

  lemma {:induction false} GiveBackAllOwned(t: Table, devices: seq<string>, inst: Instance)
    requires Owned(t)
    ensures Owned(GiveBackAll(t, devices, inst))
    decreases |devices|
  {
    if devices != [] { GiveBackAllOwned(GiveBack(t, devices[0], inst), devices[1..], inst); }
  }

  lemma StepOwned(fs: seq<FunctionInfo>, t: Table, s: Step)
    requires Owned(t)
    ensures Owned(After(fs, t, s))
  {
    match s
    case DoRegister(name) =>
    case DoAcquire(name, inst) =>
      var d := DevicesOf(fs, name);
      if d.Some? { TakeAllOwned(t, d.value, inst); }
    case DoRelease(name, inst) =>
      var d := DevicesOf(fs, name);
      if d.Some? { GiveBackAllOwned(t, d.value, inst); }
  }

  /** Over every run, in every interleaving and for all names, BUSY means owned. */
  lemma {:induction false} RunOwned(fs: seq<FunctionInfo>, t: Table, steps: seq<Step>)
    requires Owned(t)
    ensures Owned(Run(fs, t, steps))
    decreases |steps|
  {
    hide Owned, After;
    if steps != [] {
      StepOwned(fs, t, steps[0]);
      RunOwned(fs, After(fs, t, steps[0]), steps[1..]);
    }
  }

  /** Over every run the names stay distinct if and only if no registration stores a name that is already there: one
      that is new, but cut to 63 bytes is not. */
  lemma {:induction false} RunDistinct(fs: seq<FunctionInfo>, t: Table, steps: seq<Step>)
    requires DistinctNames(Names(t))
    ensures DistinctNames(Names(Run(fs, t, steps))) <==> AllClear(Names(t), steps)
    decreases |steps|
  {
    if steps != [] {
      var u := After(fs, t, steps[0]);
      StepNames(fs, t, steps[0]);
      StepDistinct(Names(t), steps[0]);
      hide DistinctNames, Names, NamesAfter, Clear, After;
      if Clear(Names(t), steps[0]) {
        RunDistinct(fs, u, steps[1..]);
      } else {
        DoubledStays(fs, u, steps[1..]);
      }
    }
  }

  /** BUSY means owned, no name occurs twice, and the table is not overrun. */
  ghost predicate Consistent(t: Table) {
    |t| <= MAX_RESOURCES && Owned(t) && DistinctNames(Names(t))
  }

  /** Over every run, in every interleaving, the table stays consistent if and only if no stored name is there already. */
  lemma RunConsistent(fs: seq<FunctionInfo>, t: Table, steps: seq<Step>)
    requires Consistent(t)
    ensures Consistent(Run(fs, t, steps)) <==> AllClear(Names(t), steps)
  {
    RunOwned(fs, t, steps);
    RunBounded(fs, t, steps);
    RunDistinct(fs, t, steps);
  }

  lemma {:induction false} RunBounded(fs: seq<FunctionInfo>, t: Table, steps: seq<Step>)
    requires |t| <= MAX_RESOURCES
    ensures |Run(fs, t, steps)| <= MAX_RESOURCES
    decreases |steps|
  {
    if steps != [] {
      StepNames(fs, t, steps[0]);
      RunBounded(fs, After(fs, t, steps[0]), steps[1..]);
    }
  }

  /** One registration: refused, or its truncated name must be a new one. */
  lemma RegisterExact(t: Table, name: string)
    requires Consistent(t)
    ensures Consistent(AfterRegister(t, name).0) <==>
      |t| >= MAX_RESOURCES || Find(t, name).Some? || Find(t, Truncated(name, NAME_LENGTH)).None?
  {
    var f, g := Find(t, name), Find(t, Truncated(name, NAME_LENGTH));
    if f.Some? { assert Names(t)[f.value] == name; }
    if g.Some? { assert Names(t)[g.value] == Truncated(name, NAME_LENGTH); }
    StepDistinct(Names(t), DoRegister(name));
    StepNames([], t, DoRegister(name));
  }

  /** A registration succeeds if and only if there is room and no resource has the name; it then adds one free resource,
      under as much of the name as fits, behind the others. */
  lemma RegisterStatus(t: Table, name: string)
    ensures var (u, status) := AfterRegister(t, name);
      && (status == 0 || status == -1)
      && (status == 0 <==> |t| < 128 && forall i | 0 <= i < |t| :: t[i].name != name)
      && (status == -1 ==> u == t)
      && (status == 0 ==> |u| == |t| + 1 && t <= u && u[|t|].state == Free && u[|t|].owner == None)
      && (status == 0 ==> u[|t|].name == if |name| < 64 then name else name[..63])
  {
  }

  predicate FirstResource(t: Table, device: string, i: int) {
    0 <= i < |t| && t[i].name == device && forall j | 0 <= j < i :: t[j].name != device
  }

  /** `resource_manager_is_available`: the function is available, and each of its devices is registered and free, unless
      nothing is registered at all. */
  lemma IsAvailableExact(fs: seq<FunctionInfo>, t: Table, name: string)
    ensures IsAvailable(fs, t, name) <==>
      DevicesOf(fs, name).Some? && (t == [] || forall d | d in DevicesOf(fs, name).value ::
        exists i :: FirstResource(t, d, i) && t[i].state == Free)
  {
    if DevicesOf(fs, name).Some? {
      forall d | d in DevicesOf(fs, name).value ensures Available(t, d) <==> exists i :: FirstResource(t, d, i) && t[i].state == Free {
        var f := Find(t, d);
        if f.Some? { assert FirstResource(t, d, f.value); }
      }
    }
  }

  /** The check promises what acquiring does: it holds if and only if the function is available and acquire does not
      refuse. */
  lemma AvailableToAcquire(fs: seq<FunctionInfo>, t: Table, name: string, inst: Instance)
    ensures IsAvailable(fs, t, name) <==> DevicesOf(fs, name).Some? && AfterAcquire(fs, t, name, inst).1 == 0
  {
  }

  /** Two names: the second one must not be cut to what is stored of the first one. */
  lemma LongNamesCollide(a: string, b: string)
    ensures Consistent(Run([], [], [DoRegister(a), DoRegister(b)])) <==>
      (Truncated(b, NAME_LENGTH) == Truncated(a, NAME_LENGTH) ==> b == Truncated(a, NAME_LENGTH))
  {
    var steps, cut := [DoRegister(a), DoRegister(b)], Truncated(a, NAME_LENGTH);
    RunConsistent([], [], steps);
    assert Names([]) == [];
    assert steps[1..] == [DoRegister(b)] && [DoRegister(b)][1..] == [];
    assert NamesAfter([], DoRegister(a)) == [cut];
    assert AllClear([cut], [DoRegister(b)]) <==> Clear([cut], DoRegister(b));
    assert AllClear([], steps) <==> AllClear([cut], [DoRegister(b)]);
  }

  lemma StepDistinct(names: seq<string>, s: Step)
    requires DistinctNames(names)
    ensures DistinctNames(NamesAfter(names, s)) <==> Clear(names, s)
  {
    if !Clear(names, s) {
      var r, cut := NamesAfter(names, s), Truncated(s.name, NAME_LENGTH);
      var i :| 0 <= i < |names| && names[i] == cut;
      assert r[i] == r[|names|];
    }
  }

  /** Two resources of one name never part again. */
  lemma {:induction false} DoubledStays(fs: seq<FunctionInfo>, t: Table, steps: seq<Step>)
    requires !DistinctNames(Names(t))
    ensures !DistinctNames(Names(Run(fs, t, steps)))
    decreases |steps|
  {
    if steps != [] {
      var u := After(fs, t, steps[0]);
      StepNames(fs, t, steps[0]);
      var i, j :| 0 <= i < j < |t| && Names(t)[i] == Names(t)[j];
      assert Names(u)[i] == Names(u)[j];
      DoubledStays(fs, u, steps[1..]);
    }
  }

  // ----- who may change what

  /** The resource that lookups of its name find. */
  predicate Found(t: Table, i: nat)
    requires i < |t|
  {
    Find(t, t[i].name) == Some(i)
  }

  /** What taking does, resource by resource. */
  lemma {:induction false} TakeAllEffect(t: Table, devices: seq<string>, inst: Instance)
    ensures var u := TakeAll(t, devices, inst); forall i | 0 <= i < |t| ::
      u[i] == if t[i].name in devices && Found(t, i) then t[i].(state := Busy, owner := Some(inst)) else t[i]
    decreases |devices|
  {
    if devices != [] {
      var u := Take(t, devices[0], inst);
      TakeAllEffect(u, devices[1..], inst);
      forall i | 0 <= i < |t| ensures Found(u, i) <==> Found(t, i) { SameNames(t, u, t[i].name); }
    }
  }

  /** What giving back does, resource by resource. */
  lemma {:induction false} GiveBackAllEffect(t: Table, devices: seq<string>, inst: Instance)
    ensures var u := GiveBackAll(t, devices, inst); forall i | 0 <= i < |t| ::
      u[i] == if t[i].name in devices && Found(t, i) && t[i].owner == Some(inst) then t[i].(state := Free, owner := None) else t[i]
    decreases |devices|
  {
    if devices != [] {
      var u := GiveBack(t, devices[0], inst);
      GiveBackAllEffect(u, devices[1..], inst);
      forall i | 0 <= i < |t| ensures Found(u, i) <==> Found(t, i) { SameNames(t, u, t[i].name); }
    }
  }

  /** Acquire is all or nothing; only without any registered resource does it report success without taking. */
  lemma AcquireAllOrNothing(fs: seq<FunctionInfo>, t: Table, name: string, inst: Instance)
    requires Owned(t)
    ensures var (t', status) := AfterAcquire(fs, t, name, inst);
      match DevicesOf(fs, name)
      case None => t' == t && status == 0
      case Some(devices) =>
        && (status == 0 <==> t == [] || forall d | d in devices :: Available(t, d))
        && (status != 0 ==> t' == t)
        && (status == 0 ==> |t'| == |t| && forall i | 0 <= i < |t| ::
              if t[i].name in devices && Found(t, i)
              then t[i].owner == None && t'[i].owner == Some(inst) && t'[i].state == Busy
              else t'[i] == t[i])
  {
    var d := DevicesOf(fs, name);
    if d.Some? && AllAvailable(t, d.value) {
      TakeAllEffect(t, d.value, inst);
      forall i | 0 <= i < |t| && t[i].name in d.value && Found(t, i) ensures t[i].owner == None {
        assert Available(t, t[i].name);
      }
    }
  }

  function Actor(s: Step): Option<Instance> {
    match s
    case DoRegister(_) => None
    case DoAcquire(_, inst) => Some(inst)
    case DoRelease(_, inst) => Some(inst)
  }

  /** No step takes or frees a resource that belongs to another instance. */
  lemma OthersKeep(fs: seq<FunctionInfo>, t: Table, s: Step, i: nat)
    requires Owned(t) && i < |t| && t[i].owner.Some? && Actor(s) != t[i].owner
    ensures i < |After(fs, t, s)| && After(fs, t, s)[i] == t[i]
  {
    match s
    case DoRegister(name) =>
    case DoAcquire(name, inst) =>
      AcquireAllOrNothing(fs, t, name, inst);
    case DoRelease(name, inst) =>
      var d := DevicesOf(fs, name);
      if d.Some? { GiveBackAllEffect(t, d.value, inst); }
  }

  /** No step gives a resource to an instance that does not take this step. */
  lemma NoGain(fs: seq<FunctionInfo>, t: Table, s: Step, inst: Instance)
    requires Owned(t) && Actor(s) != Some(inst)
    ensures var u := After(fs, t, s);
      forall i | 0 <= i < |u| && u[i].owner == Some(inst) :: i < |t| && t[i].owner == Some(inst)
  {
    match s
    case DoRegister(name) =>
    case DoAcquire(name, other) =>
      AcquireAllOrNothing(fs, t, name, other);
    case DoRelease(name, other) =>
      var d := DevicesOf(fs, name);
      if d.Some? { GiveBackAllEffect(t, d.value, other); }
  }

  /** What steps of others leave to an instance: its resources as they are, and no new ones. */
  ghost predicate Kept(t: Table, u: Table, inst: Instance) {
    && |t| <= |u|
    && (forall i | 0 <= i < |t| :: u[i].name == t[i].name)
    && (forall i | 0 <= i < |t| && t[i].owner == Some(inst) :: u[i] == t[i])
    && (forall i | 0 <= i < |u| && u[i].owner == Some(inst) :: i < |t| && t[i].owner == Some(inst))
  }

  lemma StepKept(fs: seq<FunctionInfo>, t: Table, s: Step, inst: Instance)
    requires Owned(t) && Actor(s) != Some(inst)
    ensures Kept(t, After(fs, t, s), inst)
  {
    StepNames(fs, t, s);
    NoGain(fs, t, s, inst);
    forall i | 0 <= i < |t| && t[i].owner == Some(inst) ensures After(fs, t, s)[i] == t[i] {
      OthersKeep(fs, t, s, i);
    }
  }

  /** Nor do any number of such steps. */
  lemma {:induction false} OthersKeepAll(fs: seq<FunctionInfo>, t: Table, steps: seq<Step>, inst: Instance)
    requires Owned(t) && forall k | 0 <= k < |steps| :: Actor(steps[k]) != Some(inst)
    ensures Kept(t, Run(fs, t, steps), inst)
    decreases |steps|
  {
    hide After, Owned, Kept;
    if steps == [] {
      KeptTrans(t, t, t, inst);
    } else {
      var u := After(fs, t, steps[0]);
      StepOwned(fs, t, steps[0]);
      StepKept(fs, t, steps[0], inst);
      OthersKeepAll(fs, u, steps[1..], inst);
      KeptTrans(t, u, Run(fs, u, steps[1..]), inst);
    }
  }

  lemma KeptTrans(t: Table, u: Table, v: Table, inst: Instance)
    ensures Kept(t, u, inst) && Kept(u, v, inst) ==> Kept(t, v, inst)
    ensures Kept(t, t, inst)
  {
  }

  /** Acquire, any steps of others, release: exactly what was taken is given back, and nothing else changes
      in the release. */
  lemma AcquireThenRelease(fs: seq<FunctionInfo>, t: Table, name: string, inst: Instance, steps: seq<Step>)
    requires Owned(t) && forall k | 0 <= k < |steps| :: Actor(steps[k]) != Some(inst)
    requires DevicesOf(fs, name).Some? && AfterAcquire(fs, t, name, inst).1 == 0
    ensures var devices := DevicesOf(fs, name).value;
      var taken := AfterAcquire(fs, t, name, inst).0;
      var later := Run(fs, taken, steps);
      var released := AfterRelease(fs, later, name, inst);
      && |t| == |taken| <= |later| == |released|
      && forall i | 0 <= i < |later| ::
           if i < |t| && t[i].name in devices && Found(t, i)
           then taken[i].owner == Some(inst) == later[i].owner && released[i] == t[i]
           else released[i] == later[i]
  {
    var devices := DevicesOf(fs, name).value;
    var taken := AfterAcquire(fs, t, name, inst).0;
    var later := Run(fs, taken, steps);
    AcquireAllOrNothing(fs, t, name, inst);
    TakeAllOwned(t, devices, inst);
    OthersKeepAll(fs, taken, steps, inst);
    GiveBackAllEffect(later, devices, inst);
    forall i | 0 <= i < |t| ensures Found(later, i) <==> Found(t, i) { FoundBehind(t, later, i); }
  }

  /** What is appended does not change what is found. */
  lemma FoundBehind(t: Table, u: Table, i: nat)
    requires i < |t| <= |u| && forall j | 0 <= j < |t| :: u[j].name == t[j].name
    ensures Found(u, i) <==> Found(t, i)
  {
    var f := Find(t, t[i].name);
    FindUnique(u, t[i].name, f.value);
  }

  /** Without an acquire, a free device stays free: registering only appends, releasing only frees. */
  lemma {:induction false} StaysAvailable(fs: seq<FunctionInfo>, t: Table, steps: seq<Step>, d: string)
    requires Available(t, d) && forall k | 0 <= k < |steps| :: !steps[k].DoAcquire?
    ensures Available(Run(fs, t, steps), d)
    decreases |steps|
  {
    if steps != [] {
      match steps[0] {
        case DoRegister(name) =>
          var u := AfterRegister(t, name).0;
          FindUnique(u, d, Find(t, d).value);
        case DoRelease(name, inst) =>
          var devices := DevicesOf(fs, name);
          if devices.Some? { GiveBackKeepsFree(t, devices.value, inst, d); }
      }
      StaysAvailable(fs, After(fs, t, steps[0]), steps[1..], d);
    }
  }

  lemma {:induction false} GiveBackKeepsFree(t: Table, devices: seq<string>, inst: Instance, d: string)
    requires Available(t, d)
    ensures Available(GiveBackAll(t, devices, inst), d)
    decreases |devices|
  {
    if devices != [] {
      var u := GiveBack(t, devices[0], inst);
      SameNames(t, u, d);
      GiveBackKeepsFree(u, devices[1..], inst, d);
    }
  }
}

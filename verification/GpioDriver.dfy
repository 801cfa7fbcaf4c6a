/** The GPIO driver: which chip and line handles a device holds while it is opened, configured and closed,
    whatever calls of libgpiod fail. */
module GpioDriver {
  import opened JsonTree
  import opened GpioConfig
  import opened FunctionTable

  const INPUT: nat := 0
  const OUTPUT: nat := 1
  const PATH_LENGTH: nat := 64

  datatype Settings = Settings(output: bool, active: bool)

  datatype Entry = Entry(offset: nat, settings: Settings)

  datatype Request = Request(chip: nat, consumer: string, entries: seq<Entry>)

  /** libgpiod: every call may fail. Handles are never used twice; releasing one that is not live is an error. */
  class Gpiod {
    var next: nat
    var chips: map<nat, string>
    var requests: map<nat, Request>
    var requestConfigs: map<nat, string>
    var lineConfigs: map<nat, seq<Entry>>
    var lineSettings: map<nat, Settings>
    var failures: nat

    ghost predicate Valid()
      reads this
    {
      && (forall h <- chips :: h < next)
      && (forall h <- requests :: h < next)
      && (forall h <- requestConfigs :: h < next)
      && (forall h <- lineConfigs :: h < next)
      && (forall h <- lineSettings :: h < next)
    }

    /** The temporary objects that have not been freed. */
    ghost function Temporaries(): (map<nat, string>, map<nat, seq<Entry>>, map<nat, Settings>)
      reads this
    {
      (requestConfigs, lineConfigs, lineSettings)
    }

    method OpenChip(path: string) returns (chip: Option<nat>)
      requires Valid()
      modifies this`next, this`chips, this`failures
      ensures Valid() && old(next) <= next
      ensures chip.None? ==> chips == old(chips) && failures == old(failures) + 1
      ensures chip.Some? ==> chip.value >= old(next) && chips == old(chips)[chip.value := path] && failures == old(failures)
    {
      if * {
        failures := failures + 1;
        return None;
      }
      chip := Some(next);
      chips, next := chips[next := path], next + 1;
    }

    method CloseChip(chip: nat)
      requires Valid() && chip in chips
      modifies this`chips
      ensures Valid() && chips == old(chips) - {chip}
    {
      chips := chips - {chip};
    }

    method NewRequestConfig() returns (h: Option<nat>)
      requires Valid()
      modifies this`next, this`requestConfigs, this`failures
      ensures Valid() && old(next) <= next
      ensures h.None? ==> requestConfigs == old(requestConfigs) && failures == old(failures) + 1
      ensures h.Some? ==> h.value !in old(requestConfigs) && failures == old(failures)
      ensures h.Some? ==> requestConfigs == old(requestConfigs)[h.value := ""]
    {
      if * {
        failures := failures + 1;
        return None;
      }
      h := Some(next);
      requestConfigs, next := requestConfigs[next := ""], next + 1;
    }

    method FreeRequestConfig(h: nat)
      requires Valid() && h in requestConfigs
      modifies this`requestConfigs
      ensures Valid() && requestConfigs == old(requestConfigs) - {h}
    {
      requestConfigs := requestConfigs - {h};
    }

    method NewLineConfig() returns (h: Option<nat>)
      requires Valid()
      modifies this`next, this`lineConfigs, this`failures
      ensures Valid() && old(next) <= next
      ensures h.None? ==> lineConfigs == old(lineConfigs) && failures == old(failures) + 1
      ensures h.Some? ==> h.value !in old(lineConfigs) && failures == old(failures)
      ensures h.Some? ==> lineConfigs == old(lineConfigs)[h.value := []]
    {
      if * {
        failures := failures + 1;
        return None;
      }
      h := Some(next);
      lineConfigs, next := lineConfigs[next := []], next + 1;
    }

    method FreeLineConfig(h: nat)
      requires Valid() && h in lineConfigs
      modifies this`lineConfigs
      ensures Valid() && lineConfigs == old(lineConfigs) - {h}
    {
      lineConfigs := lineConfigs - {h};
    }

    method NewLineSettings() returns (h: Option<nat>)
      requires Valid()
      modifies this`next, this`lineSettings, this`failures
      ensures Valid() && old(next) <= next
      ensures h.None? ==> lineSettings == old(lineSettings) && failures == old(failures) + 1
      ensures h.Some? ==> h.value !in old(lineSettings) && failures == old(failures)
      ensures h.Some? ==> lineSettings == old(lineSettings)[h.value := Settings(false, false)]
    {
      if * {
        failures := failures + 1;
        return None;
      }
      h := Some(next);
      lineSettings, next := lineSettings[next := Settings(false, false)], next + 1;
    }

    method FreeLineSettings(h: nat)
      requires Valid() && h in lineSettings
      modifies this`lineSettings
      ensures Valid() && lineSettings == old(lineSettings) - {h}
    {
      lineSettings := lineSettings - {h};
    }

    method SetConsumer(h: nat, consumer: string)
      requires Valid() && h in requestConfigs
      modifies this`requestConfigs
      ensures Valid() && requestConfigs == old(requestConfigs)[h := consumer]
    {
      requestConfigs := requestConfigs[h := consumer];
    }

    method SetDirection(h: nat, output: bool) returns (ok: bool)
      requires Valid() && h in lineSettings
      modifies this`lineSettings, this`failures
      ensures Valid()
      ensures ok ==> lineSettings == old(lineSettings)[h := old(lineSettings)[h].(output := output)] && failures == old(failures)
      ensures !ok ==> lineSettings == old(lineSettings) && failures == old(failures) + 1
    {
      ok := *;
      if ok {
        lineSettings := lineSettings[h := lineSettings[h].(output := output)];
      } else {
        failures := failures + 1;
      }
    }

    method SetOutputValue(h: nat, active: bool) returns (ok: bool)
      requires Valid() && h in lineSettings
      modifies this`lineSettings, this`failures
      ensures Valid()
      ensures ok ==> lineSettings == old(lineSettings)[h := old(lineSettings)[h].(active := active)] && failures == old(failures)
      ensures !ok ==> lineSettings == old(lineSettings) && failures == old(failures) + 1
    {
      ok := *;
      if ok {
        lineSettings := lineSettings[h := lineSettings[h].(active := active)];
      } else {
        failures := failures + 1;
      }
    }

    method AddLineSettings(h: nat, offset: nat, settings: nat) returns (ok: bool)
      requires Valid() && h in lineConfigs && settings in lineSettings
      modifies this`lineConfigs, this`failures
      ensures Valid()
      ensures ok ==> failures == old(failures)
      ensures ok ==> lineConfigs == old(lineConfigs)[h := old(lineConfigs)[h] + [Entry(offset, lineSettings[settings])]]
      ensures !ok ==> lineConfigs == old(lineConfigs) && failures == old(failures) + 1
    {
      ok := *;
      if ok {
        lineConfigs := lineConfigs[h := lineConfigs[h] + [Entry(offset, lineSettings[settings])]];
      } else {
        failures := failures + 1;
      }
    }

    method RequestLines(chip: nat, config: nat, lines: nat) returns (h: Option<nat>)
      requires Valid() && chip in chips && config in requestConfigs && lines in lineConfigs
      modifies this`next, this`requests, this`failures
      ensures Valid() && old(next) <= next
      ensures h.None? ==> requests == old(requests) && failures == old(failures) + 1
      ensures h.Some? ==> h.value >= old(next) && failures == old(failures)
      ensures h.Some? ==> requests == old(requests)[h.value := Request(chip, requestConfigs[config], lineConfigs[lines])]
    {
      if * {
        failures := failures + 1;
        return None;
      }
      h := Some(next);
      requests, next := requests[next := Request(chip, requestConfigs[config], lineConfigs[lines])], next + 1;
    }

    method ReleaseRequest(h: nat)
      requires Valid() && h in requests
      modifies this`requests
      ensures Valid() && requests == old(requests) - {h}
    {
      requests := requests - {h};
    }
  }

  /** The path under which a chip is opened; none when it does not fit the buffer. */
  function ChipPath(name: string): Option<string> {
    if name != "" && name[0] == '/' then Some(name)
    else if |"/dev/" + name| >= PATH_LENGTH then None
    else Some("/dev/" + name)
  }

  /** A configuration without lines falls back to its single line, if it names a chip. */
  function Effective(g: Gpio): (e: Gpio)
    requires g.Slotted()
    ensures e.Slotted()
  {
    if g.linesCount == 0 && g.chip != "" then g.(lines := g.lines[0 := g.line], linesCount := 1) else g
  }

  function DirectionOfLine(g: Gpio, i: nat): nat
    requires g.Slotted() && i < MAX_LINES
  {
    if i < g.directionsCount then g.directions[i] else g.direction
  }

  /** One line of a chip, requested as output unless it is an input, and inactive. */
  function Wanted(chip: nat, direction: nat, offset: nat): Request {
    Request(chip, "gpio_linux", [Entry(offset, Settings(direction != INPUT, false))])
  }

  /** These handles are an open chip, the one of line `i`, and a request for just that line. */
  predicate ServedBy(g: Gpio, i: nat, chip: Option<nat>, line: Option<nat>, open: map<nat, string>, requests: map<nat, Request>)
    requires g.Slotted() && i < MAX_LINES
  {
    && chip.Some? && line.Some? && chip.value in open && line.value in requests
    && Some(open[chip.value]) == ChipPath(ChipName(g, i))
    && requests[line.value] == Wanted(chip.value, DirectionOfLine(g, i), g.lines[i])
  }

  lemma NewServed(g: Gpio, i: nat, chip: nat, line: nat, open: map<nat, string>, requests: map<nat, Request>)
    requires g.Slotted() && i < MAX_LINES && chip in open && line in requests
    requires Some(open[chip]) == ChipPath(ChipName(g, i)) && requests[line] == Wanted(chip, DirectionOfLine(g, i), g.lines[i])
    ensures ServedBy(g, i, Some(chip), Some(line), open, requests)
  {
  }

  /** New handles do not disturb a line that is served. */
  lemma ServedMore(g: Gpio, k: nat, c: Option<nat>, l: Option<nat>, open: map<nat, string>, requests: map<nat, Request>,
                   chip: nat, path: string, line: nat, request: Request)
    requires g.Slotted() && k < MAX_LINES && ServedBy(g, k, c, l, open, requests) && chip !in open && line !in requests
    ensures ServedBy(g, k, c, l, open[chip := path], requests[line := request])
  {
  }

  /** Every line has a chip with a path that fits. */
  predicate Reachable(g: Gpio)
    requires g.Slotted() && g.linesCount <= MAX_LINES
  {
    forall i: nat | i < g.linesCount :: ChipName(g, i) != "" && ChipPath(ChipName(g, i)).Some?
  }

  /** What a device holds for a line that was configured with the meaning `m`: a request for just that line of its own
      chip, with the offset that `m` gives it; an output if and only if its direction is not 0, where lines without an own
      direction have the first one; never active. */
  lemma LineRequested(m: Meaning, i: nat, chip: Option<nat>, line: Option<nat>, open: map<nat, string>, requests: map<nat, Request>)
    requires var g := Effective(Rebuilt(ZEROED, Slots(Flat(m))));
      i < g.linesCount && i < MAX_LINES && ServedBy(g, i, chip, line, open, requests)
    ensures i < |LinesIn(m)| && chip.Some? && line.Some? && chip.value in open && line.value in requests
    ensures var r := requests[line.value];
      && r.chip == chip.value && r.consumer == "gpio_linux" && |r.entries| == 1
      && r.entries[0].offset == LinesIn(m)[i] && !r.entries[0].settings.active
    ensures var ds := Cut(m).directions;
      requests[line.value].entries[0].settings.output <==> (if i < |ds| then ds[i] != 0 else ds != [] && ds[0] != 0)
    ensures open[chip.value] == PathOf(NameOf(m, i))
  {
    hide Flat, Slots, Rebuilt, Cut, Truncated;
    RebuiltFromTable(m);
    var g := Rebuilt(ZEROED, Slots(Flat(m)));
    assert Effective(g) == g by { EffectiveSame(m); }
    hide LinesIn, Effective;
    assert g.lines[..g.linesCount][i] == g.lines[i];
    DirectionGiven(g, Cut(m), i);
    NameGiven(m, i);
  }

  /** From the configuration file to the request: a configuration in list form that fits the table has its lines requested
      as it says, whatever the order of its members. */
  lemma ConfiguredLine(config: Json, m: Meaning, i: nat, chip: Option<nat>, line: Option<nat>,
                       open: map<nat, string>, requests: map<nat, Request>)
    requires Storable(m) && ListForm(config, m) && m.lines != []
    requires |m.lines| + |m.lineChips| + |m.directions| + |m.activeLow| < 32
    requires var g := Effective(Rebuilt(ZEROED, Slots(Flat(MeaningOf(config)))));
      i < g.linesCount && i < MAX_LINES && ServedBy(g, i, chip, line, open, requests)
    ensures i < |m.lines| && line.Some? && line.value in requests && |requests[line.value].entries| == 1
    ensures var e, ds := requests[line.value].entries[0], m.directions;
      && e.offset == m.lines[i] && !e.settings.active
      && (e.settings.output <==> if i < |ds| then ds[i] != 0 else ds != [] && ds[0] != 0)
  {
    hide Flat, Slots, Rebuilt, Storable, ListForm, MeaningOf, ServedBy, Effective;
    ListFormRead(config, m);
    NothingCut(m);
    LineRequested(m, i, chip, line, open, requests);
  }

  /** The chip that line `i` is requested from: its own one, unless that is blank, cut from the table, or the first line
      chip is blank; else the default one. */
  function NameOf(m: Meaning, i: nat): string {
    var cs := Cut(m).lineChips;
    Truncated(if i < |cs| && cs[i] != "" && cs[0] != "" then cs[i] else m.chip, 63)
  }

  /** Its path: names that are no absolute path are looked up in /dev. */
  function PathOf(name: string): string {
    if name != "" && name[0] == '/' then name else "/dev/" + name
  }

  lemma EffectiveSame(m: Meaning)
    ensures var g := Rebuilt(ZEROED, Slots(Flat(m))); Effective(g) == g
  {
    hide Flat, Slots, Rebuilt, Cut, Truncated;
    RebuiltFromTable(m);
    BlankFits(m.chip);
  }

  lemma DirectionGiven(g: Gpio, m: Meaning, i: nat)
    requires g.Sized() && GivesBack(g, m) && i < g.linesCount
    ensures DirectionOfLine(g, i) == if i < |m.directions| then m.directions[i] else if m.directions != [] then m.directions[0] else 0
  {
    hide RebuiltChip, Fit;
    assert i < |LinesIn(m)|;
    assert i < g.directionsCount ==> g.directions[i] == g.directions[..g.directionsCount][i];
  }

  lemma NameGiven(m: Meaning, i: nat)
    requires var g := Rebuilt(ZEROED, Slots(Flat(m))); i < g.linesCount
    ensures ChipName(Rebuilt(ZEROED, Slots(Flat(m))), i) == NameOf(m, i)
  {
    hide Flat, Slots, Rebuilt, Cut, LinesIn, Truncated;
    RebuiltFromTable(m);
    var cs := Cut(m).lineChips;
    BlankFits(m.chip);
    if i < |cs| { BlankFits(cs[i]); }
    assert Cut(m).chip == m.chip by { CutChip(m); }
  }

  lemma CutChip(m: Meaning)
    ensures Cut(m).chip == m.chip
  {
  }

  /** All lines can be opened if and only if each has a chip, by an absolute path or a name of up to 58 characters. */
  lemma ReachableExact(m: Meaning)
    ensures var g := Effective(Rebuilt(ZEROED, Slots(Flat(m))));
      g.linesCount <= MAX_LINES && (Reachable(g) <==>
        forall i: nat | i < |LinesIn(m)| :: NameOf(m, i) != "" && (NameOf(m, i)[0] == '/' || |NameOf(m, i)| <= 58))
  {
    hide Flat, Slots, Rebuilt, Cut, Truncated;
    RebuiltFromTable(m);
    EffectiveSame(m);
    hide LinesIn, Effective, NameOf, ChipName;
    forall i: nat | i < |LinesIn(m)| ensures ChipName(Rebuilt(ZEROED, Slots(Flat(m))), i) == NameOf(m, i) { NameGiven(m, i); }
  }

  /** The handles in some slots. */
  function Handles(slots: seq<Option<nat>>): set<nat> {
    set i | 0 <= i < |slots| && slots[i].Some? :: slots[i].value
  }

  function Only(slot: Option<nat>): set<nat> {
    if slot.Some? then {slot.value} else {}
  }

  /** One slot more; when no handle is held twice, its handle is a new one. */
  lemma HandlesStep(slots: seq<Option<nat>>, j: nat)
    requires j < |slots|
    ensures Handles(slots[..j+1]) == Handles(slots[..j]) + Only(slots[j])
    ensures slots[j].Some? && (forall i | 0 <= i < j :: slots[i] != slots[j]) ==> slots[j].value !in Handles(slots[..j])
  {
    forall h | h in Handles(slots[..j]) + Only(slots[j])
      ensures h in Handles(slots[..j+1])
    {
      if h in Handles(slots[..j]) {
        var i :| 0 <= i < j && slots[..j][i] == Some(h);
        assert slots[..j+1][i] == Some(h);
      } else {
        assert slots[..j+1][j] == Some(h);
      }
    }
    forall h | h in Handles(slots[..j+1])
      ensures h in Handles(slots[..j]) + Only(slots[j])
    {
      var i :| 0 <= i <= j && slots[..j+1][i] == Some(h);
      if i < j {
        assert slots[..j][i] == Some(h);
      }
    }
  }

  lemma HandlesEnd(slots: seq<Option<nat>>, n: nat)
    requires n <= |slots| && forall i | n <= i < |slots| :: slots[i] == None
    ensures Handles(slots[..n]) == Handles(slots)
  {
    forall h | h in Handles(slots)
      ensures h in Handles(slots[..n])
    {
      var i :| 0 <= i < |slots| && slots[i] == Some(h);
      assert slots[..n][i] == Some(h);
    }
    forall h | h in Handles(slots[..n])
      ensures h in Handles(slots)
    {
      var i :| 0 <= i < n && slots[..n][i] == Some(h);
      assert slots[i] == Some(h);
    }
  }

  lemma HandlesAdd(slots: seq<Option<nat>>, i: nat, h: nat)
    requires i < |slots| && slots[i] == None
    ensures Handles(slots[i := Some(h)]) == Handles(slots) + {h}
  {
    var added := slots[i := Some(h)];
    assert added[i] == Some(h);
    forall k | k in Handles(slots)
      ensures k in Handles(added)
    {
      var j :| 0 <= j < |slots| && slots[j] == Some(k);
      assert added[j] == Some(k);
    }
  }

  lemma NothingHeld(slots: seq<Option<nat>>)
    requires forall i | 0 <= i < |slots| :: slots[i] == None
    ensures Handles(slots) == {}
  {
  }

  lemma NewAside<T>(m: map<nat, T>, held: set<nat>, h: nat, x: T)
    requires h !in m
    ensures m[h := x] - (held + {h}) == m - held
  {
  }

  lemma WithoutBoth<T>(m: map<nat, T>, a: set<nat>, b: set<nat>)
    ensures m - a - b == m - (a + b)
  {
  }

  /** `gpio_device_context_t`. */
  class Device {
    const library: Gpiod
    var configuration: Gpio
    const chips: array<Option<nat>>
    const lines: array<Option<nat>>
    var linesCount: nat
    var activeLow: bool

    ghost predicate Valid()
      reads this, chips, lines, library
    {
      && library.Valid() && chips != lines && chips.Length == lines.Length == MAX_LINES
      && linesCount <= MAX_LINES
      && (forall i | linesCount <= i < MAX_LINES :: chips[i] == None && lines[i] == None)
      && (forall i | 0 <= i < linesCount :: chips[i].Some? && chips[i].value in library.chips)
      && (forall i | 0 <= i < linesCount :: lines[i].Some? && lines[i].value in library.requests)
      && (forall i, j | 0 <= i < j < linesCount :: chips[i] != chips[j] && lines[i] != lines[j])
    }

    /** What is open in the library on behalf of others. */
    ghost function OtherChips(): map<nat, string>
      reads this, chips, library
    {
      library.chips - Handles(chips[..])
    }

    ghost function OtherRequests(): map<nat, Request>
      reads this, lines, library
    {
      library.requests - Handles(lines[..])
    }

    ghost function Held(): (seq<Option<nat>>, seq<Option<nat>>, nat, map<nat, string>, map<nat, Request>)
      reads this, chips, lines, library
    {
      (chips[..], lines[..], linesCount, library.chips, library.requests)
    }

    /** The lines that are held are the first ones of the configuration, each requested as it says. */
    ghost predicate Serves(g: Gpio)
      reads this, chips, lines, library
      requires Valid() && g.Slotted()
    {
      forall i: nat | i < linesCount :: ServedBy(g, i, chips[i], lines[i], library.chips, library.requests)
    }

    /** `gpio_device_open`. */
    constructor (library: Gpiod)
      requires library.Valid()
      ensures Valid() && this.library == library && linesCount == 0 && fresh(chips) && fresh(lines)
      ensures OtherChips() == library.chips && OtherRequests() == library.requests
    {
      this.library := library;
      configuration := ZEROED;
      chips := new Option<nat>[MAX_LINES](_ => None);
      lines := new Option<nat>[MAX_LINES](_ => None);
      linesCount := 0;
      activeLow := false;
    }

    /** Releases the request and the chip of every slot. */
    method ReleaseAll()
      requires Valid()
      modifies this`linesCount, chips, lines, library`chips, library`requests
      ensures Valid() && linesCount == 0
      ensures library.chips == old(OtherChips()) && library.requests == old(OtherRequests())
    {
      ghost var cs, ls, n := chips[..], lines[..], linesCount;
      assert Handles(cs[..0]) == Handles(ls[..0]) == {};
      hide Handles, Only;
      for j := 0 to linesCount
        modifies chips, lines, library`chips, library`requests
        invariant library.Valid()
        invariant forall i | 0 <= i < j :: chips[i] == None && lines[i] == None
        invariant forall i | j <= i < MAX_LINES :: chips[i] == cs[i] && lines[i] == ls[i]
        invariant library.chips == old(library.chips) - Handles(cs[..j])
        invariant library.requests == old(library.requests) - Handles(ls[..j])
      {
        HandlesStep(cs, j);
        HandlesStep(ls, j);
        WithoutBoth(old(library.chips), Handles(cs[..j]), Only(cs[j]));
        WithoutBoth(old(library.requests), Handles(ls[..j]), Only(ls[j]));
        ReleaseSlot(j);
      }
      linesCount := 0;
      HandlesEnd(cs, n);
      HandlesEnd(ls, n);
    }

    method ReleaseSlot(j: nat)
      requires j < chips.Length == lines.Length && chips != lines && library.Valid()
      requires lines[j].Some? ==> lines[j].value in library.requests
      requires chips[j].Some? ==> chips[j].value in library.chips
      modifies chips, lines, library`chips, library`requests
      ensures library.Valid()
      ensures chips[j] == None && lines[j] == None
      ensures forall i | 0 <= i < chips.Length && i != j :: chips[i] == old(chips[i]) && lines[i] == old(lines[i])
      ensures library.chips == old(library.chips) - Only(old(chips[j]))
      ensures library.requests == old(library.requests) - Only(old(lines[j]))
    {
      if lines[j].Some? {
        library.ReleaseRequest(lines[j].value);
        lines[j] := None;
      }
      if chips[j].Some? {
        library.CloseChip(chips[j].value);
        chips[j] := None;
      }
    }

    /** `gpio_device_close`: nothing of this device stays open. */
    method Close()
      requires Valid()
      modifies this`linesCount, chips, lines, library`chips, library`requests
      ensures Valid() && linesCount == 0
      ensures library.chips == old(OtherChips()) && library.requests == old(OtherRequests())
    {
      ReleaseAll();
    }

    /** The temporary objects of a request; when one of them cannot be had, the others are freed. */
    method NewTemporaries() returns (t: Option<(nat, nat, nat)>)
      requires library.Valid()
      modifies library`next, library`requestConfigs, library`lineConfigs, library`lineSettings, library`failures
      ensures library.Valid() && old(library.next) <= library.next
      ensures t.None? ==> library.Temporaries() == old(library.Temporaries()) && library.failures > old(library.failures)
      ensures t.Some? ==> library.failures == old(library.failures)
      ensures t.Some? ==> t.value.0 in library.requestConfigs && library.requestConfigs - {t.value.0} == old(library.requestConfigs)
      ensures t.Some? ==> t.value.1 in library.lineConfigs && library.lineConfigs - {t.value.1} == old(library.lineConfigs)
      ensures t.Some? ==> t.value.2 in library.lineSettings && library.lineSettings - {t.value.2} == old(library.lineSettings)
      ensures t.Some? ==> library.lineConfigs[t.value.1] == [] && !library.lineSettings[t.value.2].active
    {
      var requestConfig := library.NewRequestConfig();
      var lineConfig := library.NewLineConfig();
      var lineSettings := library.NewLineSettings();
      if requestConfig.None? || lineConfig.None? || lineSettings.None? {
        if requestConfig.Some? { library.FreeRequestConfig(requestConfig.value); }
        if lineConfig.Some? { library.FreeLineConfig(lineConfig.value); }
        if lineSettings.Some? { library.FreeLineSettings(lineSettings.value); }
        assert library.requestConfigs == old(library.requestConfigs);
        assert library.lineConfigs == old(library.lineConfigs);
        assert library.lineSettings == old(library.lineSettings);
        return None;
      }
      assert library.requestConfigs - {requestConfig.value} == old(library.requestConfigs);
      assert library.lineConfigs - {lineConfig.value} == old(library.lineConfigs);
      assert library.lineSettings - {lineSettings.value} == old(library.lineSettings);
      return Some((requestConfig.value, lineConfig.value, lineSettings.value));
    }

    /** Writes into the temporary objects what is requested. */
    method Describe(requestConfig: nat, lineConfig: nat, lineSettings: nat, direction: nat, offset: nat) returns (ok: bool)
      requires library.Valid() && requestConfig in library.requestConfigs
      requires lineConfig in library.lineConfigs && library.lineConfigs[lineConfig] == []
      requires lineSettings in library.lineSettings && !library.lineSettings[lineSettings].active
      modifies library`requestConfigs, library`lineConfigs, library`lineSettings, library`failures
      ensures library.Valid()
      ensures requestConfig in library.requestConfigs && lineConfig in library.lineConfigs && lineSettings in library.lineSettings
      ensures library.requestConfigs - {requestConfig} == old(library.requestConfigs) - {requestConfig}
      ensures library.lineConfigs - {lineConfig} == old(library.lineConfigs) - {lineConfig}
      ensures library.lineSettings - {lineSettings} == old(library.lineSettings) - {lineSettings}
      ensures if ok then library.failures == old(library.failures) else library.failures > old(library.failures)
      ensures ok ==> library.requestConfigs[requestConfig] == "gpio_linux"
      ensures ok ==> library.lineConfigs[lineConfig] == [Entry(offset, Settings(direction != INPUT, false))]
    {
      library.SetConsumer(requestConfig, "gpio_linux");
      ok := library.SetDirection(lineSettings, direction != INPUT);
      if ok && direction == OUTPUT {
        ok := library.SetOutputValue(lineSettings, false);
      }
      if ok {
        ok := library.AddLineSettings(lineConfig, offset, lineSettings);
      }
    }

    /** Requests one line of an open chip; every temporary object is freed on the way, whatever fails. */
    method RequestLine(chip: nat, direction: nat, offset: nat) returns (request: Option<nat>)
      requires library.Valid() && chip in library.chips
      modifies library`next, library`requests, library`requestConfigs, library`lineConfigs, library`lineSettings, library`failures
      ensures library.Valid() && library.Temporaries() == old(library.Temporaries()) && old(library.next) <= library.next
      ensures request.None? ==> library.requests == old(library.requests) && library.failures > old(library.failures)
      ensures request.Some? ==> request.value >= old(library.next) && library.failures == old(library.failures)
      ensures request.Some? ==> library.requests == old(library.requests)[request.value := Wanted(chip, direction, offset)]
    {
      var objects := NewTemporaries();
      if objects.None? { return None; }
      var (requestConfig, lineConfig, lineSettings) := objects.value;
      var ok := Describe(requestConfig, lineConfig, lineSettings, direction, offset);
      request := None;
      if ok {
        request := library.RequestLines(chip, requestConfig, lineConfig);
      }
      library.FreeRequestConfig(requestConfig);
      library.FreeLineConfig(lineConfig);
      library.FreeLineSettings(lineSettings);
    }

    /** Opens the chip of line `i` and requests the line; keeps nothing open when either fails. */
    method OpenLine(i: nat) returns (handles: Option<(nat, nat)>)
      requires library.Valid() && configuration.Slotted() && i < MAX_LINES
      modifies library
      ensures library.Valid() && library.Temporaries() == old(library.Temporaries())
      ensures handles.Some? <==> ChipPath(ChipName(configuration, i)).Some? && library.failures == old(library.failures)
      ensures handles.None? ==> library.chips == old(library.chips) && library.requests == old(library.requests)
      ensures handles.None? ==> library.failures >= old(library.failures)
      ensures handles.Some? ==> var (chip, line) := handles.value;
        && chip !in old(library.chips) && line !in old(library.requests)
        && library.chips == old(library.chips)[chip := ChipPath(ChipName(configuration, i)).value]
        && library.requests == old(library.requests)[line := Wanted(chip, DirectionOfLine(configuration, i), configuration.lines[i])]
    {
      var path := ChipPath(ChipName(configuration, i));
      var chip := None;
      if path.Some? {
        chip := library.OpenChip(path.value);
      }
      if chip.None? { return None; }
      var request := RequestLine(chip.value, DirectionOfLine(configuration, i), configuration.lines[i]);
      if request.None? {
        library.CloseChip(chip.value);
        assert library.chips == old(library.chips);
        return None;
      }
      return Some((chip.value, request.value));
    }

    /** The next line of the configuration: its chip and its request get the next slot, or nothing is kept. */
    method AddLine() returns (ok: bool)
      requires Valid() && configuration.Slotted() && linesCount < configuration.linesCount <= MAX_LINES
      requires Serves(configuration) && ChipName(configuration, linesCount) != ""
      modifies this`linesCount, chips, lines, library
      ensures Valid() && library.Temporaries() == old(library.Temporaries()) && Serves(configuration)
      ensures OtherChips() == old(OtherChips()) && OtherRequests() == old(OtherRequests())
      ensures linesCount == if ok then old(linesCount) + 1 else old(linesCount)
      ensures library.failures >= old(library.failures)
      ensures ok <==> ChipPath(ChipName(configuration, old(linesCount))).Some? && library.failures == old(library.failures)
    {
      hide Handles, ChipPath, DirectionOfLine, ChipName, ServedBy, Wanted;
      var i := linesCount;
      var handles := OpenLine(i);
      if handles.None? { return false; }
      var (chip, request) := handles.value;
      HandlesAdd(chips[..], i, chip);
      HandlesAdd(lines[..], i, request);
      NewAside(old(library.chips), Handles(chips[..]), chip, library.chips[chip]);
      NewAside(old(library.requests), Handles(lines[..]), request, library.requests[request]);
      NewServed(configuration, i, chip, request, library.chips, library.requests);
      forall k: nat | k < i
        ensures ServedBy(configuration, k, chips[k], lines[k], library.chips, library.requests)
      {
        ServedMore(configuration, k, chips[k], lines[k], old(library.chips), old(library.requests),
                   chip, library.chips[chip], request, library.requests[request]);
      }
      chips[i] := Some(chip);
      lines[i] := Some(request);
      linesCount := i + 1;
      assert chips[..] == old(chips[..])[i := Some(chip)] && lines[..] == old(lines[..])[i := Some(request)];
      return true;
    }

    /** `gpio_device_control` with `GPIO_COMMAND_SET_CONFIGURATION`. */
    method SetConfiguration(g: Gpio) returns (status: int)
      requires Valid() && g.Slotted()
      modifies this, chips, lines, library
      ensures Valid() && configuration == Effective(g) && library.Temporaries() == old(library.Temporaries())
      ensures OtherChips() == old(OtherChips()) && OtherRequests() == old(OtherRequests())
      ensures status == 0 || status == -1
      ensures configuration.linesCount > MAX_LINES ==> status == -1 && Held() == old(Held())
      ensures configuration.linesCount <= MAX_LINES ==> Serves(configuration) && linesCount <= configuration.linesCount
      ensures status == 0 ==> linesCount == configuration.linesCount && activeLow == configuration.activeLow
      ensures status == 0 <==> configuration.linesCount <= MAX_LINES && Reachable(configuration) && library.failures == old(library.failures)
      ensures status == -1 && configuration.linesCount <= MAX_LINES && linesCount > 0 ==>
        linesCount < configuration.linesCount && ChipName(configuration, linesCount) == ""
    {
      hide ServedBy, ChipPath, ChipName, Effective, Handles;
      configuration := Effective(g);
      if configuration.linesCount > MAX_LINES {
        return -1;
      }
      ReleaseAll();
      NothingHeld(chips[..]);
      NothingHeld(lines[..]);
      status := AddLines();
      if status == 0 { activeLow := configuration.activeLow; }
    }

    /** The loop over the lines of a configuration. */
    method AddLines() returns (status: int)
      requires Valid() && linesCount == 0 && configuration.Slotted() && configuration.linesCount <= MAX_LINES
      modifies this`linesCount, chips, lines, library
      ensures Valid() && library.Temporaries() == old(library.Temporaries())
      ensures OtherChips() == old(OtherChips()) && OtherRequests() == old(OtherRequests())
      ensures Serves(configuration) && linesCount <= configuration.linesCount
      ensures status == 0 || status == -1
      ensures status == 0 ==> linesCount == configuration.linesCount
      ensures status == 0 <==> Reachable(configuration) && library.failures == old(library.failures)
      ensures status == -1 && linesCount > 0 ==>
        linesCount < configuration.linesCount && ChipName(configuration, linesCount) == ""
    {
      hide Handles, ServedBy, ChipPath, DirectionOfLine;
      for i := 0 to configuration.linesCount
        modifies this`linesCount, chips, lines, library
        invariant Valid() && linesCount == i
        invariant library.Temporaries() == old(library.Temporaries()) && library.failures == old(library.failures)
        invariant OtherChips() == old(OtherChips()) && OtherRequests() == old(OtherRequests())
        invariant Serves(configuration)
        invariant forall k: nat | k < i :: ChipName(configuration, k) != "" && ChipPath(ChipName(configuration, k)).Some?
      {
        if ChipName(configuration, i) == "" {
          return -1;
        }
        var ok := AddLine();
        if !ok {
          ReleaseAll();
          NothingHeld(chips[..]);
          NothingHeld(lines[..]);
          return -1;
        }
      }
      return 0;
    }

    /** `gpio_device_control`. */
    method Control(command: Command) returns (status: int)
      requires Valid() && (command.SetConfiguration? && command.argument.Some? ==> command.argument.value.Slotted())
      modifies this, chips, lines, library
      ensures Valid() && library.Temporaries() == old(library.Temporaries())
      ensures OtherChips() == old(OtherChips()) && OtherRequests() == old(OtherRequests())
      ensures command.Other? || command.argument.None? ==> status == -1 && Held() == old(Held()) && configuration == old(configuration)
    {
      match command
      case SetConfiguration(Some(g)) =>
        status := SetConfiguration(g);
      case _ =>
        status := -1;
    }
  }

  datatype Command = SetConfiguration(argument: Option<Gpio>) | Other

  /** The life of a device: however many configurations it is given, and whatever fails on the way, everything it
      obtained is released in the end, and nothing that others hold is touched. */
  method OpenControlClose(library: Gpiod, commands: seq<Command>)
    requires library.Valid()
    requires forall c <- commands :: c.SetConfiguration? && c.argument.Some? ==> c.argument.value.Slotted()
    modifies library
    ensures library.Valid() && library.Temporaries() == old(library.Temporaries())
    ensures library.chips == old(library.chips) && library.requests == old(library.requests)
  {
    var device := new Device(library);
    for i := 0 to |commands|
      modifies library, device, device.chips, device.lines
      invariant device.Valid() && device.library == library
      invariant library.Temporaries() == old(library.Temporaries())
      invariant device.OtherChips() == old(library.chips) && device.OtherRequests() == old(library.requests)
    {
      assert commands[i] in commands;
      var _ := device.Control(commands[i]);
    }
    device.Close();
  }
}

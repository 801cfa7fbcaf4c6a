/** GPIO configuration: flattened into the parameter table of a binding (`get_gpio`), rebuilt from it
    when a device is opened (`validation_runtime_open_gpio`). */
module GpioConfig {
  import opened JsonTree
  import opened FunctionTable
  import opened Compare

  const MAX_PARAMETERS: nat := 32
  const MAX_LINES: nat := 8
  const KEY_LENGTH: nat := 64
  const STRING_LENGTH: nat := 128
  const UINT_RANGE: nat := 0x1_0000_0000

  /** A key of the table with its value. */
  datatype Parameter =
    | Chip(chip: string)
    | Line(line: nat)
    | LineChip(name: string)
    | Direction(direction: nat)
    | ActiveLow(active: bool)

  // ----- flattening

  function GetItem(config: Json, name: string): Option<Json> {
    if !config.Object? then None
    else match FindMember(config.members, name, true)
      case None => None
      case Some(i) => Some(config.members[i].value)
  }

  function Uint(n: int): nat { n % UINT_RANGE }

  /** `get_string`, `get_int` and `get_bool` into a zeroed slot. */
  function StringOr(j: Option<Json>, size: nat): string
    requires size > 0
  {
    if j.Some? && j.value.String? then Truncated(j.value.valuestring, size) else ""
  }

  function IntOr(j: Option<Json>): nat {
    if j.Some? && j.value.Number? then Uint(j.value.valueint) else 0
  }

  function BoolOr(j: Option<Json>): bool {
    j == Some(True)
  }

  function Numbers(items: seq<Json>): seq<nat> {
    if items == [] then []
    else Numbers(items[..|items|-1]) + (if Last(items).Number? then [Uint(Last(items).valueint)] else [])
  }

  function Names(items: seq<Json>): seq<string> {
    if items == [] then []
    else Names(items[..|items|-1]) + (if Last(items).String? then [Truncated(Last(items).valuestring, KEY_LENGTH - 1)] else [])
  }

  function Flags(items: seq<Json>): seq<bool> {
    if items == [] then []
    else Flags(items[..|items|-1]) + (if Last(items).True? || Last(items).False? then [Last(items).True?] else [])
  }

  function Last<T>(s: seq<T>): T
    requires s != []
  {
    s[|s|-1]
  }

  /** A missing list falls back to the single number. */
  function NumbersOf(list: Option<Json>, single: Option<Json>): seq<nat> {
    if list.Some? && list.value.Array? then Numbers(list.value.items) else [IntOr(single)]
  }

  function NamesOf(j: Option<Json>): seq<string> {
    if j.Some? && j.value.Array? then Names(j.value.items)
    else if j.Some? && j.value.String? then [Truncated(j.value.valuestring, KEY_LENGTH - 1)]
    else []
  }

  function FlagsOf(j: Option<Json>): seq<bool> {
    if j.Some? && j.value.Array? then Flags(j.value.items) else [BoolOr(j)]
  }

  /** What a GPIO configuration says. */
  datatype Meaning = Meaning(chip: string, lines: seq<nat>, lineChips: seq<string>, directions: seq<nat>, activeLow: seq<bool>)

  function MeaningOf(config: Json): Meaning {
    Meaning(
      StringOr(GetItem(config, "chip"), STRING_LENGTH),
      NumbersOf(GetItem(config, "lines"), GetItem(config, "line")),
      NamesOf(GetItem(config, "lines_chip")),
      NumbersOf(GetItem(config, "directions"), GetItem(config, "direction")),
      FlagsOf(GetItem(config, "active_low")))
  }

  function Each<A, B>(s: seq<A>, f: A -> B): (r: seq<B>)
    ensures |r| == |s|
  {
    seq(|s|, i requires 0 <= i < |s| => f(s[i]))
  }

  lemma EachOne<A, B>(x: A, f: A -> B)
    ensures Each([x], f) == [f(x)]
  {
  }

  function LineOf(n: nat): Parameter { Line(n) }

  function LineChipOf(s: string): Parameter { LineChip(s) }

  function DirectionOf(d: nat): Parameter { Direction(d) }

  function ActiveLowOf(a: bool): Parameter { ActiveLow(a) }

  /** The table in the order in which it is filled. */
  function Flat(m: Meaning): seq<Parameter> {
    [Chip(m.chip)] + Each(m.lines, LineOf) + Each(m.lineChips, LineChipOf) +
    Each(m.directions, DirectionOf) + Each(m.activeLow, ActiveLowOf)
  }

  lemma EachSnoc<A, B>(s: seq<A>, x: A, f: A -> B)
    ensures Each(s + [x], f) == Each(s, f) + [f(x)]
  {
  }

  lemma EachPrefix<A, B>(s: seq<A>, t: seq<A>, f: A -> B)
    requires s <= t
    ensures Each(s, f) <= Each(t, f)
  {
  }

  /** What there are slots for. */
  function Slots<T>(s: seq<T>): (r: seq<T>)
    ensures |r| <= MAX_PARAMETERS && (|s| <= MAX_PARAMETERS ==> r == s)
  {
    if |s| <= MAX_PARAMETERS then s else s[..MAX_PARAMETERS]
  }

  lemma SlotsTwice<T>(a: seq<T>, b: seq<T>)
    ensures Slots(Slots(a) + b) == Slots(a + b)
  {
  }

  lemma StartList<A>(t: seq<Parameter>, f: A -> Parameter)
    requires |t| <= MAX_PARAMETERS
    ensures Slots(t + Each([], f)) == t
  {
    assert Each([], f) == [];
  }

  /** One value more, while there is a slot. */
  lemma NextSlot<A>(t: seq<Parameter>, xs: seq<A>, x: A, f: A -> Parameter)
    requires |Slots(t + Each(xs, f))| < MAX_PARAMETERS
    ensures Slots(t + Each(xs + [x], f)) == Slots(t + Each(xs, f)) + [f(x)]
  {
    EachSnoc(xs, x, f);
  }

  /** A full table stays as it is. */
  lemma FullStays<A>(t: seq<Parameter>, xs: seq<A>, all: seq<A>, f: A -> Parameter)
    requires xs <= all && |Slots(t + Each(xs, f))| == MAX_PARAMETERS
    ensures Slots(t + Each(all, f)) == Slots(t + Each(xs, f))
  {
    EachPrefix(xs, all, f);
  }

  function IsList(j: Option<Json>): bool {
    j.Some? && j.value.Array?
  }

  /** Writing behind `t`: the loop over a list stops at a full table, the branch for a missing list does not look. */
  function Behind(t: seq<Parameter>, xs: seq<Parameter>, isList: bool): seq<Parameter> {
    if !isList || |t| + |xs| <= MAX_PARAMETERS then t + xs
    else if |t| >= MAX_PARAMETERS then t
    else t + xs[..MAX_PARAMETERS-|t|]
  }

  /** Everything that `get_gpio` writes, slot by slot, also past the end of the table. */
  function Written(config: Json): seq<Parameter> {
    var m := MeaningOf(config);
    var lines := Behind([Chip(m.chip)], Each(m.lines, LineOf), IsList(GetItem(config, "lines")));
    var chips := Behind(lines, Each(m.lineChips, LineChipOf), true);
    var directions := Behind(chips, Each(m.directions, DirectionOf), IsList(GetItem(config, "directions")));
    Behind(directions, Each(m.activeLow, ActiveLowOf), IsList(GetItem(config, "active_low")))
  }

  /** A list of directions or flags is missing, and what comes before it fills the table. */
  predicate Overruns(config: Json) {
    var m := MeaningOf(config);
    var before := 1 + |m.lines| + |m.lineChips|;
    || (!IsList(GetItem(config, "directions")) && before >= MAX_PARAMETERS)
    || (!IsList(GetItem(config, "active_low")) && before + |m.directions| >= MAX_PARAMETERS)
  }

  /** `get_gpio` writes past the last slot exactly then; otherwise it writes what there are slots for. */
  lemma OverrunExactly(config: Json)
    ensures |Written(config)| > MAX_PARAMETERS <==> Overruns(config)
    ensures !Overruns(config) ==> Written(config) == Slots(Flat(MeaningOf(config)))
  {
    hide GetItem, StringOr, NumbersOf, NamesOf, FlagsOf, Each, Behind, Slots;
    var m := MeaningOf(config);
    var ls, cs, ds, fs := Each(m.lines, LineOf), Each(m.lineChips, LineChipOf), Each(m.directions, DirectionOf), Each(m.activeLow, ActiveLowOf);
    var list1, list2, list3 := IsList(GetItem(config, "lines")), IsList(GetItem(config, "directions")), IsList(GetItem(config, "active_low"));
    OneWithoutList(config);
    var a := [Chip(m.chip)];
    var b := Behind(a, ls, list1);
    var c := Behind(b, cs, true);
    var d := Behind(c, ds, list2);
    BehindLength(a, ls, list1);
    BehindLength(b, cs, true);
    BehindLength(c, ds, list2);
    BehindLength(d, fs, list3);
    BehindSlots(a, ls, list1, a);
    BehindSlots(b, cs, true, a + ls);
    if |d| <= MAX_PARAMETERS {
      BehindSlots(c, ds, list2, a + ls + cs);
      BehindSlots(d, fs, list3, a + ls + cs + ds);
    }
  }

  lemma BehindLength(t: seq<Parameter>, xs: seq<Parameter>, isList: bool)
    ensures |Behind(t, xs, isList)| ==
      if !isList || |t| + |xs| <= MAX_PARAMETERS then |t| + |xs| else if |t| >= MAX_PARAMETERS then |t| else MAX_PARAMETERS
  {
  }

  /** Without a list there is one value. */
  lemma OneWithoutList(config: Json)
    ensures var m := MeaningOf(config);
      && (!IsList(GetItem(config, "lines")) ==> |m.lines| == 1)
      && (!IsList(GetItem(config, "directions")) ==> |m.directions| == 1)
      && (!IsList(GetItem(config, "active_low")) ==> |m.activeLow| == 1)
  {
  }

  /** One part of the table, as long as it stays inside. */
  lemma BehindSlots(t: seq<Parameter>, xs: seq<Parameter>, isList: bool, all: seq<Parameter>)
    requires t == Slots(all)
    ensures isList || |t| + |xs| <= MAX_PARAMETERS ==> Behind(t, xs, isList) == Slots(all + xs)
  {
  }

  function Copies<T>(x: T, n: nat): (r: seq<T>)
    ensures |r| == n
  {
    seq(n, _ => x)
  }

  lemma NoCopies<T>(x: T)
    ensures Copies(x, 0) == []
  {
  }

  lemma CopiesMore<T>(x: T, n: nat)
    ensures Copies(x, n + 1) == Copies(x, n) + [x]
  {
  }

  // ----- rebuilding

  /** `gpio_configuration_t`. */
  datatype Gpio = Gpio(chip: string, line: nat, linesCount: nat, lines: seq<nat>, linesChip: seq<string>,
                       direction: nat, activeLow: bool, directionsCount: nat, directions: seq<nat>,
                       activeLowCount: nat, activeLowLines: seq<bool>)
  {
    predicate Slotted() {
      |lines| == |linesChip| == |directions| == |activeLowLines| == MAX_LINES
    }

    predicate Sized() {
      Slotted() && linesCount <= MAX_LINES
    }
  }

  const ZEROED := Gpio("", 0, 0, Copies(0, MAX_LINES), Copies("", MAX_LINES), 0, false, 0, Copies(0, MAX_LINES),
                       0, Copies(false, MAX_LINES))

  /** The configuration with the four running indices of the rebuilding loop. */
  datatype Building = Building(g: Gpio, line: nat, chip: nat, direction: nat, active: nat) {
    predicate Sized() {
      g.Sized() && line <= MAX_LINES && chip <= MAX_LINES && direction <= MAX_LINES && active <= MAX_LINES
    }
  }

  function Fit(s: string): string { Truncated(s, KEY_LENGTH - 1) }

  /** One turn of the rebuilding loop. */
  function Place(b: Building, p: Parameter): (r: Building)
    requires b.Sized()
    ensures r.Sized()
  {
    var g := b.g;
    match p
    case Chip(s) => if g.chip == "" then b.(g := g.(chip := Fit(s))) else b
    case Line(n) =>
      if b.line < MAX_LINES then
        var own := if g.linesChip[b.line] == "" && g.chip != "" then Fit(g.chip) else g.linesChip[b.line];
        b.(g := g.(lines := g.lines[b.line := n], linesChip := g.linesChip[b.line := own]), line := b.line + 1)
      else b
    case LineChip(s) =>
      if b.chip < MAX_LINES then b.(g := g.(linesChip := g.linesChip[b.chip := Fit(s)]), chip := b.chip + 1) else b
    case Direction(d) =>
      if b.direction < MAX_LINES then
        b.(g := g.(directions := g.directions[b.direction := d], direction := if b.direction == 0 then d else g.direction),
           direction := b.direction + 1)
      else b
    case ActiveLow(a) =>
      if b.active < MAX_LINES then
        b.(g := g.(activeLowLines := g.activeLowLines[b.active := a], activeLow := if b.active == 0 then a else g.activeLow),
           active := b.active + 1)
      else b
  }

  function PlaceAll(b: Building, ps: seq<Parameter>): (r: Building)
    requires b.Sized()
    ensures r.Sized()
    decreases |ps|
  {
    if ps == [] then b else PlaceAll(Place(b, ps[0]), ps[1..])
  }

  /** The defaults for the lines and their chips that are filled in behind the loop. */
  function LineDefaults(b: Building): (r: Gpio)
    requires b.Sized()
    ensures r.Sized()
  {
    var g1 := b.g.(linesCount := if b.line > b.g.linesCount then b.line else b.g.linesCount,
                   directionsCount := b.direction, activeLowCount := b.active);
    var g2 := if g1.linesCount == 0 && g1.chip != "" then g1.(lines := g1.lines[0 := g1.line], linesCount := 1) else g1;
    var g3 := if g2.linesCount > 0 then g2.(line := g2.lines[0]) else g2;
    if g3.linesCount > 0 && g3.linesChip[0] == ""
    then g3.(linesChip := Copies(Fit(g3.chip), g3.linesCount) + g3.linesChip[g3.linesCount..])
    else g3
  }

  /** The defaults for directions and active-low flags. */
  function FlagDefaults(g: Gpio): (r: Gpio)
    requires g.Sized()
    ensures r.Sized()
  {
    var g1 := if g.directionsCount == 0 && g.linesCount > 0
              then g.(directions := g.directions[0 := g.direction], directionsCount := 1) else g;
    if g1.activeLowCount == 0 && g1.linesCount > 0
    then g1.(activeLowLines := g1.activeLowLines[0 := g1.activeLow], activeLowCount := 1) else g1
  }

  function Rebuilt(g: Gpio, ps: seq<Parameter>): (r: Gpio)
    requires g.Sized()
    ensures r.Sized()
  {
    FlagDefaults(LineDefaults(PlaceAll(Building(g, g.linesCount, 0, 0, 0), ps)))
  }

  // ----- both as the source runs them

  /** The parameter table of one binding. */
  class ParameterTable {
    const parameters: array<Parameter>
    var count: nat

    ghost predicate Valid()
      reads this
    {
      parameters.Length == MAX_PARAMETERS && count <= MAX_PARAMETERS
    }

    ghost function Table(): seq<Parameter>
      reads this, parameters
      requires Valid()
    {
      parameters[..count]
    }

    constructor ()
      ensures Valid() && fresh(parameters) && Table() == []
    {
      parameters := new Parameter[MAX_PARAMETERS](_ => Chip(""));
      count := 0;
    }

    method Add(p: Parameter)
      requires Valid() && count < MAX_PARAMETERS
      modifies this, parameters
      ensures Valid() && Table() == old(Table()) + [p]
    {
      parameters[count] := p;
      count := count + 1;
    }

    /** An array of numbers, as one parameter each; a full table ends the loop. */
    method AddNumbers(items: seq<Json>, f: nat -> Parameter)
      requires Valid()
      modifies this, parameters
      ensures Valid() && Table() == Slots(old(Table()) + Each(Numbers(items), f))
    {
      assert Numbers(items[..0]) == [];
      hide Slots, Each, Numbers, Truncated, Uint;
      ghost var before := Table();
      StartList(before, f);
      for i := 0 to |items|
        invariant Valid() && Table() == Slots(before + Each(Numbers(items[..i]), f))
      {
        NumbersNext(items, i);
        if items[i].Number? {
          if count >= MAX_PARAMETERS {
            NumbersGrow(items, i);
            FullStays(before, Numbers(items[..i]), Numbers(items), f);
            break;
          }
          NextSlot(before, Numbers(items[..i]), Uint(items[i].valueint), f);
          Add(f(Uint(items[i].valueint)));
        }
      }
      assert items[..|items|] == items;
    }

    method AddNames(items: seq<Json>, f: string -> Parameter)
      requires Valid()
      modifies this, parameters
      ensures Valid() && Table() == Slots(old(Table()) + Each(Names(items), f))
    {
      assert Names(items[..0]) == [];
      hide Slots, Each, Names, Truncated, Uint;
      ghost var before := Table();
      StartList(before, f);
      for i := 0 to |items|
        invariant Valid() && Table() == Slots(before + Each(Names(items[..i]), f))
      {
        NamesNext(items, i);
        if items[i].String? {
          if count >= MAX_PARAMETERS {
            NamesGrow(items, i);
            FullStays(before, Names(items[..i]), Names(items), f);
            break;
          }
          NextSlot(before, Names(items[..i]), Truncated(items[i].valuestring, KEY_LENGTH - 1), f);
          Add(f(Truncated(items[i].valuestring, KEY_LENGTH - 1)));
        }
      }
      assert items[..|items|] == items;
    }

    method AddFlags(items: seq<Json>, f: bool -> Parameter)
      requires Valid()
      modifies this, parameters
      ensures Valid() && Table() == Slots(old(Table()) + Each(Flags(items), f))
    {
      assert Flags(items[..0]) == [];
      hide Slots, Each, Flags, Truncated, Uint;
      ghost var before := Table();
      StartList(before, f);
      for i := 0 to |items|
        invariant Valid() && Table() == Slots(before + Each(Flags(items[..i]), f))
      {
        FlagsNext(items, i);
        if items[i].True? || items[i].False? {
          if count >= MAX_PARAMETERS {
            FlagsGrow(items, i);
            FullStays(before, Flags(items[..i]), Flags(items), f);
            break;
          }
          NextSlot(before, Flags(items[..i]), items[i].True?, f);
          Add(f(items[i].True?));
        }
      }
      assert items[..|items|] == items;
    }

    /** A missing list falls back to the number under another key. */
    method AddNumberOrList(list: Option<Json>, single: Option<Json>, f: nat -> Parameter)
      requires Valid() && (!IsList(list) ==> count < MAX_PARAMETERS)
      modifies this, parameters
      ensures Valid() && Table() == Slots(old(Table()) + Each(NumbersOf(list, single), f))
    {
      if list.Some? && list.value.Array? {
        AddNumbers(list.value.items, f);
      } else {
        EachOne(IntOr(single), f);
        Add(f(IntOr(single)));
      }
    }

    method AddLineChips(chips: Option<Json>)
      requires Valid()
      modifies this, parameters
      ensures Valid() && Table() == Slots(old(Table()) + Each(NamesOf(chips), LineChipOf))
    {
      if chips.Some? && chips.value.Array? {
        AddNames(chips.value.items, LineChipOf);
      } else if chips.Some? && chips.value.String? {
        EachOne(Truncated(chips.value.valuestring, KEY_LENGTH - 1), LineChipOf);
        if count < MAX_PARAMETERS { Add(LineChip(Truncated(chips.value.valuestring, KEY_LENGTH - 1))); }
      }
    }

    method AddActiveLow(active: Option<Json>)
      requires Valid() && (!IsList(active) ==> count < MAX_PARAMETERS)
      modifies this, parameters
      ensures Valid() && Table() == Slots(old(Table()) + Each(FlagsOf(active), ActiveLowOf))
    {
      if active.Some? && active.value.Array? {
        AddFlags(active.value.items, ActiveLowOf);
      } else {
        EachOne(BoolOr(active), ActiveLowOf);
        Add(ActiveLow(BoolOr(active)));
      }
    }

    /** `get_gpio`, for every configuration that does not make it write past the table. */
    method GetGpio(config: Json)
      requires Valid() && count == 0 && !Overruns(config)
      modifies this, parameters
      ensures Valid() && Table() == Slots(Flat(MeaningOf(config)))
    {
      hide NumbersOf, NamesOf, FlagsOf, Truncated, GetItem, StringOr, IntOr, BoolOr, Slots, Each;
      ghost var m := MeaningOf(config);
      ghost var a, ls, cs, ds, fs := [Chip(m.chip)], Each(m.lines, LineOf), Each(m.lineChips, LineChipOf),
        Each(m.directions, DirectionOf), Each(m.activeLow, ActiveLowOf);
      Add(Chip(StringOr(GetItem(config, "chip"), STRING_LENGTH)));
      assert Table() == a;
      AddNumberOrList(GetItem(config, "lines"), GetItem(config, "line"), LineOf);
      AddLineChips(GetItem(config, "lines_chip"));
      SlotsTwice(a + ls, cs);
      AddNumberOrList(GetItem(config, "directions"), GetItem(config, "direction"), DirectionOf);
      SlotsTwice(a + ls + cs, ds);
      AddActiveLow(GetItem(config, "active_low"));
      SlotsTwice(a + ls + cs + ds, fs);
    }
  }

  /** The configuration that the caller hands over to be filled. */
  class GpioConfiguration {
    var chip: string
    var line: nat
    var linesCount: nat
    const lines: array<nat>
    const linesChip: array<string>
    var direction: nat
    var activeLow: bool
    var directionsCount: nat
    const directions: array<nat>
    var activeLowCount: nat
    const activeLowLines: array<bool>

    ghost predicate Valid()
      reads this
    {
      && lines.Length == linesChip.Length == directions.Length == activeLowLines.Length == MAX_LINES
      && lines != directions
      && linesCount <= MAX_LINES
    }

    ghost function Snapshot(): (g: Gpio)
      reads this, lines, linesChip, directions, activeLowLines
      requires Valid()
      ensures g.Sized()
    {
      Gpio(chip, line, linesCount, lines[..], linesChip[..], direction, activeLow, directionsCount, directions[..],
           activeLowCount, activeLowLines[..])
    }

    /** `memset(configuration, 0, sizeof(*configuration))`. */
    constructor ()
      ensures Valid() && Snapshot() == ZEROED
      ensures fresh(lines) && fresh(linesChip) && fresh(directions) && fresh(activeLowLines)
    {
      chip, line, linesCount, direction, activeLow, directionsCount, activeLowCount := "", 0, 0, 0, false, 0, 0;
      lines := new nat[MAX_LINES](_ => 0);
      linesChip := new string[MAX_LINES](_ => "");
      directions := new nat[MAX_LINES](_ => 0);
      activeLowLines := new bool[MAX_LINES](_ => false);
    }

    /** `validation_runtime_open_gpio`, from the resolved parameters to the filled configuration. */
    method Open(parameters: seq<Parameter>)
      requires Valid()
      modifies this, lines, linesChip, directions, activeLowLines
      ensures Valid() && Snapshot() == Rebuilt(old(Snapshot()), parameters)
    {
      hide Truncated;
      var lineIndex: nat, chipIndex: nat, directionIndex: nat, activeLowIndex: nat := linesCount, 0, 0, 0;
      ghost var all := PlaceAll(Building(Snapshot(), linesCount, 0, 0, 0), parameters);
      for index := 0 to |parameters|
        invariant Valid() && lineIndex <= MAX_LINES && chipIndex <= MAX_LINES
        invariant directionIndex <= MAX_LINES && activeLowIndex <= MAX_LINES
        invariant PlaceAll(Building(Snapshot(), lineIndex, chipIndex, directionIndex, activeLowIndex), parameters[index..]) == all
      {
        lineIndex, chipIndex, directionIndex, activeLowIndex :=
          PlaceOne(parameters[index], lineIndex, chipIndex, directionIndex, activeLowIndex);
        assert parameters[index..][1..] == parameters[index+1..];
      }
      FillLineDefaults(lineIndex, chipIndex, directionIndex, activeLowIndex);
      FillFlagDefaults();
    }

    /** One turn of the loop: a parameter and the four indices. */
    method PlaceOne(p: Parameter, lineIndex: nat, chipIndex: nat, directionIndex: nat, activeLowIndex: nat)
      returns (lineIndex': nat, chipIndex': nat, directionIndex': nat, activeLowIndex': nat)
      requires Valid() && Building(Snapshot(), lineIndex, chipIndex, directionIndex, activeLowIndex).Sized()
      modifies this, lines, linesChip, directions, activeLowLines
      ensures Valid()
      ensures Building(Snapshot(), lineIndex', chipIndex', directionIndex', activeLowIndex')
           == Place(old(Building(Snapshot(), lineIndex, chipIndex, directionIndex, activeLowIndex)), p)
    {
      hide Truncated;
      lineIndex', chipIndex', directionIndex', activeLowIndex' := lineIndex, chipIndex, directionIndex, activeLowIndex;
      match p {
        case Chip(s) =>
          if chip == "" { chip := Fit(s); }
        case Line(n) =>
          if lineIndex' < MAX_LINES {
            lines[lineIndex'] := n;
            if linesChip[lineIndex'] == "" && chip != "" { linesChip[lineIndex'] := Fit(chip); }
            lineIndex' := lineIndex' + 1;
          }
        case LineChip(s) =>
          if chipIndex' < MAX_LINES {
            linesChip[chipIndex'] := Fit(s);
            chipIndex' := chipIndex' + 1;
          }
        case Direction(d) =>
          if directionIndex' < MAX_LINES {
            directions[directionIndex'] := d;
            if directionIndex' == 0 { direction := directions[0]; }
            directionIndex' := directionIndex' + 1;
          }
        case ActiveLow(a) =>
          if activeLowIndex' < MAX_LINES {
            activeLowLines[activeLowIndex'] := a;
            if activeLowIndex' == 0 { activeLow := activeLowLines[0]; }
            activeLowIndex' := activeLowIndex' + 1;
          }
      }
    }

    method FillLineDefaults(lineIndex: nat, ghost chipIndex: nat, directionIndex: nat, activeLowIndex: nat)
      requires Valid() && Building(Snapshot(), lineIndex, chipIndex, directionIndex, activeLowIndex).Sized()
      modifies this, lines, linesChip
      ensures Valid()
      ensures Snapshot() == LineDefaults(old(Building(Snapshot(), lineIndex, chipIndex, directionIndex, activeLowIndex)))
    {
      if lineIndex > linesCount { linesCount := lineIndex; }
      directionsCount := directionIndex;
      activeLowCount := activeLowIndex;
      if linesCount == 0 && chip != "" {
        lines[0] := line;
        linesCount := 1;
      }
      if linesCount > 0 { line := lines[0]; }
      if linesCount > 0 && linesChip[0] == "" { SpreadChip(); }
    }

    method FillFlagDefaults()
      requires Valid()
      modifies this, directions, activeLowLines
      ensures Valid() && Snapshot() == FlagDefaults(old(Snapshot()))
    {
      if directionsCount == 0 && linesCount > 0 {
        directions[0] := direction;
        directionsCount := 1;
      }
      if activeLowCount == 0 && linesCount > 0 {
        activeLowLines[0] := activeLow;
        activeLowCount := 1;
      }
    }

    /** Every line gets the chip of the configuration. */
    method SpreadChip()
      requires Valid()
      modifies linesChip
      ensures linesChip[..] == Copies(Fit(chip), linesCount) + old(linesChip[..])[linesCount..]
    {
      hide Copies, Fit;
      ghost var was, own := linesChip[..], Fit(chip);
      NoCopies(own);
      for i := 0 to linesCount
        invariant linesChip[..] == Copies(own, i) + was[i..]
      {
        CopiesMore(own, i);
        linesChip[i] := Fit(chip);
        assert linesChip[..] == (Copies(own, i) + was[i..])[i := own];
      }
    }
  }

  lemma NumbersNext(items: seq<Json>, i: nat)
    requires i < |items|
    ensures Numbers(items[..i+1]) == if items[i].Number? then Numbers(items[..i]) + [Uint(items[i].valueint)] else Numbers(items[..i])
  {
    assert items[..i+1][..i] == items[..i];
    hide Truncated;
  }

  lemma {:induction false} NumbersGrow(items: seq<Json>, i: nat)
    requires i <= |items|
    ensures Numbers(items[..i]) <= Numbers(items)
    decreases |items| - i
  {
    if i == |items| {
      assert items[..i] == items;
    } else {
      assert items[..i+1][..i] == items[..i];
      NumbersGrow(items, i + 1);
    }
  }

  lemma NamesNext(items: seq<Json>, i: nat)
    requires i < |items|
    ensures Names(items[..i+1]) == if items[i].String? then Names(items[..i]) + [Truncated(items[i].valuestring, KEY_LENGTH - 1)] else Names(items[..i])
  {
    assert items[..i+1][..i] == items[..i];
    hide Truncated;
  }

  lemma {:induction false} NamesGrow(items: seq<Json>, i: nat)
    requires i <= |items|
    ensures Names(items[..i]) <= Names(items)
    decreases |items| - i
  {
    if i == |items| {
      assert items[..i] == items;
    } else {
      assert items[..i+1][..i] == items[..i];
      NamesGrow(items, i + 1);
    }
  }

  lemma FlagsNext(items: seq<Json>, i: nat)
    requires i < |items|
    ensures Flags(items[..i+1]) == if items[i].True? || items[i].False? then Flags(items[..i]) + [items[i].True?] else Flags(items[..i])
  {
    assert items[..i+1][..i] == items[..i];
    hide Truncated;
  }

  lemma {:induction false} FlagsGrow(items: seq<Json>, i: nat)
    requires i <= |items|
    ensures Flags(items[..i]) <= Flags(items)
    decreases |items| - i
  {
    if i == |items| {
      assert items[..i] == items;
    } else {
      assert items[..i+1][..i] == items[..i];
      FlagsGrow(items, i + 1);
    }
  }

  // ----- rebuilding undoes flattening

  /** How many of `count` values the slots from `at` on have room for. */
  function Room(count: nat, at: nat): (n: nat)
    requires at <= MAX_LINES
    ensures n <= count && at + n <= MAX_LINES
  {
    if at + count <= MAX_LINES then count else MAX_LINES - at
  }

  /** `slots` with `xs` from `at` on, as far as they fit. */
  ghost predicate Filled<T>(filled: seq<T>, slots: seq<T>, at: nat, xs: seq<T>)
    requires |filled| == |slots| == MAX_LINES && at <= MAX_LINES
  {
    forall i | 0 <= i < MAX_LINES :: filled[i] == if at <= i < at + Room(|xs|, at) then xs[i-at] else slots[i]
  }

  /** Filling the first slot and then the others. */
  lemma FilledStep<T>(filled: seq<T>, slots: seq<T>, at: nat, xs: seq<T>)
    requires |filled| == |slots| == MAX_LINES && at <= MAX_LINES && xs != []
    requires if at == MAX_LINES then Filled(filled, slots, at, xs[1..])
             else Filled(filled, slots[at := xs[0]], at + 1, xs[1..])
    ensures Filled(filled, slots, at, xs)
  {
  }

  lemma {:induction false} PlaceConcat(b: Building, ps: seq<Parameter>, qs: seq<Parameter>)
    requires b.Sized()
    ensures PlaceAll(b, ps + qs) == PlaceAll(PlaceAll(b, ps), qs)
    decreases |ps|
  {
    if ps == [] {
      assert ps + qs == qs;
    } else {
      assert (ps + qs)[1..] == ps[1..] + qs;
      PlaceConcat(Place(b, ps[0]), ps[1..], qs);
    }
  }

  lemma EachStep<A, B>(s: seq<A>, f: A -> B)
    requires s != []
    ensures Each(s, f)[0] == f(s[0]) && Each(s, f)[1..] == Each(s[1..], f)
  {
  }

  lemma PlaceFirst(b: Building, ps: seq<Parameter>)
    requires b.Sized() && ps != []
    ensures PlaceAll(b, ps) == PlaceAll(Place(b, ps[0]), ps[1..])
  {
  }

  lemma {:induction false} PlaceLines(b: Building, ns: seq<nat>) returns (r: Building)
    requires b.Sized() && forall i | b.line <= i < MAX_LINES :: b.g.linesChip[i] == ""
    ensures r == PlaceAll(b, Each(ns, LineOf)) && r.Sized() && r.line == b.line + Room(|ns|, b.line)
    ensures r == b.(line := r.line, g := b.g.(lines := r.g.lines, linesChip := r.g.linesChip))
    ensures Filled(r.g.lines, b.g.lines, b.line, ns)
    ensures Filled(r.g.linesChip, b.g.linesChip, b.line, Copies(Fit(b.g.chip), |ns|))
    decreases |ns|
  {
    if ns == [] {
      r := b;
    } else {
      var next := Place(b, Line(ns[0]));
      EachStep(ns, LineOf);
      PlaceFirst(b, Each(ns, LineOf));
      r := PlaceLines(next, ns[1..]);
      hide PlaceAll, Each, Truncated, Filled;
      CopiesStep(Fit(b.g.chip), |ns|);
      BlankFits(b.g.chip);
      FilledStep(r.g.lines, b.g.lines, b.line, ns);
      FilledStep(r.g.linesChip, b.g.linesChip, b.line, Copies(Fit(b.g.chip), |ns|));
    }
  }

  lemma CopiesStep<T>(x: T, n: nat)
    requires n > 0
    ensures Copies(x, n)[0] == x && Copies(x, n)[1..] == Copies(x, n - 1)
  {
  }

  lemma PlaceOneChip(b: Building, s: string)
    requires b.Sized()
    ensures Place(b, LineChip(s)) == if b.chip == MAX_LINES then b
      else b.(chip := b.chip + 1, g := b.g.(linesChip := b.g.linesChip[b.chip := Fit(s)]))
  {
  }

  lemma {:induction false} PlaceChips(b: Building, names: seq<string>) returns (r: Building)
    requires b.Sized()
    ensures r == PlaceAll(b, Each(names, LineChipOf)) && r.Sized() && r.chip == b.chip + Room(|names|, b.chip)
    ensures r == b.(chip := r.chip, g := b.g.(linesChip := r.g.linesChip))
    ensures Filled(r.g.linesChip, b.g.linesChip, b.chip, Each(names, Fit))
    decreases |names|
  {
    if names == [] {
      r := b;
    } else {
      hide PlaceAll, Place, Each, Fit, Filled;
      var next := Place(b, LineChip(names[0]));
      PlaceOneChip(b, names[0]);
      EachStep(names, LineChipOf);
      PlaceFirst(b, Each(names, LineChipOf));
      r := PlaceChips(next, names[1..]);
      EachStep(names, Fit);
      FilledStep(r.g.linesChip, b.g.linesChip, b.chip, Each(names, Fit));
    }
  }

  lemma {:induction false} PlaceDirections(b: Building, ds: seq<nat>) returns (r: Building)
    requires b.Sized()
    ensures r == PlaceAll(b, Each(ds, DirectionOf)) && r.Sized() && r.direction == b.direction + Room(|ds|, b.direction)
    ensures r == b.(direction := r.direction, g := b.g.(directions := r.g.directions, direction := r.g.direction))
    ensures Filled(r.g.directions, b.g.directions, b.direction, ds)
    ensures r.g.direction == if b.direction == 0 && ds != [] then ds[0] else b.g.direction
    decreases |ds|
  {
    if ds == [] {
      r := b;
    } else {
      var next := Place(b, Direction(ds[0]));
      EachStep(ds, DirectionOf);
      PlaceFirst(b, Each(ds, DirectionOf));
      r := PlaceDirections(next, ds[1..]);
      hide PlaceAll, Each, Truncated, Filled;
      FilledStep(r.g.directions, b.g.directions, b.direction, ds);
    }
  }

  lemma {:induction false} PlaceFlags(b: Building, flags: seq<bool>) returns (r: Building)
    requires b.Sized()
    ensures r == PlaceAll(b, Each(flags, ActiveLowOf)) && r.Sized() && r.active == b.active + Room(|flags|, b.active)
    ensures r == b.(active := r.active, g := b.g.(activeLowLines := r.g.activeLowLines, activeLow := r.g.activeLow))
    ensures Filled(r.g.activeLowLines, b.g.activeLowLines, b.active, flags)
    ensures r.g.activeLow == if b.active == 0 && flags != [] then flags[0] else b.g.activeLow
    decreases |flags|
  {
    if flags == [] {
      r := b;
    } else {
      var next := Place(b, ActiveLow(flags[0]));
      EachStep(flags, ActiveLowOf);
      PlaceFirst(b, Each(flags, ActiveLowOf));
      r := PlaceFlags(next, flags[1..]);
      hide PlaceAll, Each, Truncated, Filled;
      FilledStep(r.g.activeLowLines, b.g.activeLowLines, b.active, flags);
    }
  }

  /** The chip of a slot behind the loop: listed, else the default one of a line, else none. */
  function PlacedChip(m: Meaning, i: nat): string {
    if i < |m.lineChips| then Fit(m.lineChips[i]) else if i < |m.lines| then Fit(m.chip) else ""
  }

  function FirstOr<T>(s: seq<T>, x: T): T {
    if s != [] then s[0] else x
  }

  /** The loop, run over a flattened configuration, puts every list into its slots in order. */
  lemma PlacedFromFlat(m: Meaning)
    ensures var b := PlaceAll(Building(ZEROED, 0, 0, 0, 0), Flat(m));
      && b.line == Room(|m.lines|, 0) && b.g.linesCount == 0 && b.g.line == 0 && b.g.chip == Fit(m.chip)
      && Filled(b.g.lines, ZEROED.lines, 0, m.lines)
      && (forall i: nat | i < MAX_LINES :: b.g.linesChip[i] == PlacedChip(m, i))
      && b.direction == Room(|m.directions|, 0) && Filled(b.g.directions, ZEROED.directions, 0, m.directions)
      && b.g.direction == FirstOr(m.directions, 0)
      && b.active == Room(|m.activeLow|, 0) && Filled(b.g.activeLowLines, ZEROED.activeLowLines, 0, m.activeLow)
      && b.g.activeLow == FirstOr(m.activeLow, false)
  {
    var b0 := Building(ZEROED, 0, 0, 0, 0);
    var b1 := b0.(g := ZEROED.(chip := Fit(m.chip)));
    assert b1 == PlaceAll(b0, [Chip(m.chip)]);
    assert forall i | 0 <= i < MAX_LINES :: b1.g.linesChip[i] == "";
    hide PlaceAll, Place, Truncated, Each, Filled;
    var ls, cs, ds, fs := Each(m.lines, LineOf), Each(m.lineChips, LineChipOf), Each(m.directions, DirectionOf), Each(m.activeLow, ActiveLowOf);
    PlaceConcat(b0, [Chip(m.chip)], ls);
    PlaceConcat(b0, [Chip(m.chip)] + ls, cs);
    PlaceConcat(b0, [Chip(m.chip)] + ls + cs, ds);
    PlaceConcat(b0, [Chip(m.chip)] + ls + cs + ds, fs);
    var b2 := PlaceLines(b1, m.lines);
    var b3 := PlaceChips(b2, m.lineChips);
    var b4 := PlaceDirections(b3, m.directions);
    var b5 := PlaceFlags(b4, m.activeLow);
    ChipsFilled(m, b2.g.linesChip, b3.g.linesChip);
  }

  lemma ChipsFilled(m: Meaning, chips: seq<string>, chips': seq<string>)
    requires |chips| == |chips'| == MAX_LINES
    requires Filled(chips, ZEROED.linesChip, 0, Copies(Fit(m.chip), |m.lines|))
    requires Filled(chips', chips, 0, Each(m.lineChips, Fit))
    ensures forall i: nat | i < MAX_LINES :: chips'[i] == PlacedChip(m, i)
  {
  }

  /** The values for which there are slots. */
  function Fitting<T>(s: seq<T>): seq<T> {
    s[..Room(|s|, 0)]
  }

  /** The lines of a configuration: with an empty list, line 0 of the default chip, if there is one. */
  function LinesIn(m: Meaning): seq<nat> {
    if m.lines == [] && m.chip != "" then [0] else Fitting(m.lines)
  }

  /** Directions or flags: with an empty list, one default for the first line. */
  function OneFor<T>(m: Meaning, s: seq<T>, x: T): seq<T> {
    if s == [] && LinesIn(m) != [] then [x] else Fitting(s)
  }

  /** A rebuilt configuration gives back the lines, directions and flags in order; a line keeps its own chip, and gets
      the default chip when it has none, or when the list of line chips starts with a blank. */
  ghost predicate GivesBack(g: Gpio, m: Meaning)
    requires g.Sized()
  {
    && g.chip == Fit(m.chip)
    && g.lines[..g.linesCount] == LinesIn(m) && g.line == FirstOr(LinesIn(m), 0)
    && g.directionsCount <= MAX_LINES && g.directions[..g.directionsCount] == OneFor(m, m.directions, 0)
    && g.direction == FirstOr(m.directions, 0)
    && g.activeLowCount <= MAX_LINES && g.activeLowLines[..g.activeLowCount] == OneFor(m, m.activeLow, false)
    && g.activeLow == FirstOr(m.activeLow, false)
    && forall i | 0 <= i < g.linesCount :: g.linesChip[i] == RebuiltChip(m, i)
  }

  /** Rebuilding from a zeroed configuration undoes flattening. */
  lemma RebuiltFromFlat(m: Meaning)
    ensures GivesBack(Rebuilt(ZEROED, Flat(m)), m)
  {
    hide PlaceAll, Truncated, Flat;
    PlacedFromFlat(m);
    var b := PlaceAll(Building(ZEROED, 0, 0, 0, 0), Flat(m));
    BlankFits(m.chip);
    FitTwice(m.chip);
    if m.lineChips != [] { BlankFits(m.lineChips[0]); }
    DefaultLines(b);
    var g := LineDefaults(b);
    hide LineDefaults, Fit;
    assert g.lines[..g.linesCount] == LinesIn(m);
    forall i | 0 <= i < g.linesCount
      ensures g.linesChip[i] == RebuiltChip(m, i)
    {
      assert b.g.linesChip[i] == PlacedChip(m, i) && b.g.linesChip[0] == PlacedChip(m, 0);
    }
    assert FlagDefaults(g).directions[..FlagDefaults(g).directionsCount] == OneFor(m, m.directions, 0);
    assert FlagDefaults(g).activeLowLines[..FlagDefaults(g).activeLowCount] == OneFor(m, m.activeLow, false);
  }

  /** What the line defaults do to a configuration that came without lines. */
  lemma DefaultLines(b: Building)
    requires b.Sized() && b.g.linesCount == 0
    ensures var g := LineDefaults(b);
      && g.linesCount == (if b.line == 0 && b.g.chip != "" then 1 else b.line) <= MAX_LINES
      && g.lines == (if b.line == 0 && b.g.chip != "" then b.g.lines[0 := b.g.line] else b.g.lines)
      && g.line == (if g.linesCount > 0 then g.lines[0] else b.g.line)
      && g == b.g.(linesCount := g.linesCount, lines := g.lines, line := g.line, linesChip := g.linesChip,
                   directionsCount := b.direction, activeLowCount := b.active)
      && forall i | 0 <= i < g.linesCount ::
           g.linesChip[i] == if b.g.linesChip[0] == "" then Fit(b.g.chip) else b.g.linesChip[i]
  {
    hide Truncated;
  }

  lemma FitTwice(s: string)
    ensures Fit(Fit(s)) == Fit(s)
  {
  }

  predicate StartsBlank(m: Meaning) { m.lineChips != [] && m.lineChips[0] == "" }

  function RebuiltChip(m: Meaning, i: nat): string {
    if StartsBlank(m) then Fit(m.chip)
    else if i < |m.lineChips| then Fit(m.lineChips[i])
    else Fit(m.chip)
  }

  lemma BlankFits(s: string)
    ensures Fit(s) == "" <==> s == ""
  {
  }

  // ----- chips in tables of any order

  /** The default chip is the first one that is not blank, wherever it stands among the parameters. */
  lemma {:induction false} FirstChipWins(b: Building, ps: seq<Parameter>, i: nat)
    requires b.Sized() && b.g.chip == "" && i < |ps| && ps[i].Chip? && ps[i].chip != ""
    requires forall j | 0 <= j < i :: ps[j].Chip? ==> ps[j].chip == ""
    ensures PlaceAll(b, ps).g.chip == Fit(ps[i].chip)
    decreases |ps|
  {
    hide Fit;
    BlankFits("");
    BlankFits(ps[i].chip);
    var next := Place(b, ps[0]);
    if i == 0 {
      ChipStays(next, ps[1..]);
    } else {
      assert ps[0].Chip? ==> ps[0].chip == "";
      assert ps[1..][i-1] == ps[i] && forall j | 0 <= j < i - 1 :: ps[1..][j] == ps[j+1];
      FirstChipWins(next, ps[1..], i - 1);
    }
  }

  lemma {:induction false} ChipStays(b: Building, ps: seq<Parameter>)
    requires b.Sized() && b.g.chip != ""
    ensures PlaceAll(b, ps).g.chip == b.g.chip
    decreases |ps|
  {
    if ps != [] { ChipStays(Place(b, ps[0]), ps[1..]); }
  }

  function ChipsAmong(ps: seq<Parameter>): seq<string> {
    if ps == [] then [] else (if ps[0].LineChip? then [ps[0].name] else []) + ChipsAmong(ps[1..])
  }

  /** A line chip that is not blank stands at its place, wherever it stands among the lines and the default chip. */
  lemma {:induction false} OwnChipKept(b: Building, ps: seq<Parameter>, i: nat)
    requires b.Sized() && b.chip <= i < MAX_LINES && i - b.chip < |ChipsAmong(ps)| && ChipsAmong(ps)[i-b.chip] != ""
    ensures PlaceAll(b, ps).g.linesChip[i] == Fit(ChipsAmong(ps)[i-b.chip])
    decreases |ps|
  {
    hide Fit;
    var next := Place(b, ps[0]);
    BlankFits(ChipsAmong(ps)[i-b.chip]);
    if ps[0].LineChip? && i == b.chip {
      LineChipStays(next, ps[1..], i);
    } else {
      OwnChipKept(next, ps[1..], i);
    }
  }

  lemma {:induction false} LineChipStays(b: Building, ps: seq<Parameter>, i: nat)
    requires b.Sized() && i < b.chip && i < MAX_LINES && b.g.linesChip[i] != ""
    ensures PlaceAll(b, ps).g.linesChip[i] == b.g.linesChip[i]
    decreases |ps|
  {
    if ps != [] {
      hide Fit;
      LineChipStays(Place(b, ps[0]), ps[1..], i);
    }
  }

  /** The chip whose line the driver requests: the line's own one, else the default one. */
  function ChipName(g: Gpio, i: nat): string
    requires g.Slotted() && i < MAX_LINES
  {
    if g.linesChip[i] != "" then g.linesChip[i] else g.chip
  }

  /** The chip the configuration names for a line: its own one when given and not blank, else the default one. */
  function ChipFor(m: Meaning, i: nat): string {
    if i < |m.lineChips| && m.lineChips[i] != "" then m.lineChips[i] else m.chip
  }

  // ----- what a configuration means

  /** The configuration is an object with this member, anywhere among others with other keys. */
  predicate Given(config: Json, key: string, v: Json) {
    config.Object? && Member(key, v) in config.members
    && forall i | 0 <= i < |config.members| && config.members[i].key == key :: config.members[i].value == v
  }

  predicate NotGiven(config: Json, key: string) {
    config.Object? && forall i | 0 <= i < |config.members| :: config.members[i].key != key
  }

  lemma GivenRead(config: Json, key: string, v: Json)
    ensures Given(config, key, v) ==> GetItem(config, key) == Some(v)
    ensures NotGiven(config, key) ==> GetItem(config, key) == None
  {
  }

  function JsonNumbers(ns: seq<nat>): (r: seq<Json>)
    ensures |r| == |ns| && forall i | 0 <= i < |ns| :: r[i] == Number(ns[i])
  {
    seq(|ns|, i requires 0 <= i < |ns| => Number(ns[i]))
  }

  function JsonStrings(names: seq<string>): (r: seq<Json>)
    ensures |r| == |names| && forall i | 0 <= i < |names| :: r[i] == String(names[i])
  {
    seq(|names|, i requires 0 <= i < |names| => String(names[i]))
  }

  function JsonFlags(flags: seq<bool>): (r: seq<Json>)
    ensures |r| == |flags| && forall i | 0 <= i < |flags| :: r[i] == if flags[i] then True else False
  {
    seq(|flags|, i requires 0 <= i < |flags| => if flags[i] then True else False)
  }

  lemma {:induction false} NumbersRead(ns: seq<nat>)
    requires forall i | 0 <= i < |ns| :: ns[i] < 0x1_0000_0000
    ensures Numbers(JsonNumbers(ns)) == ns
  {
    if ns != [] {
      var rest := ns[..|ns|-1];
      NumbersRead(rest);
      assert JsonNumbers(ns)[..|ns|-1] == JsonNumbers(rest);
      assert ns == rest + [ns[|ns|-1]];
    }
  }

  lemma {:induction false} NamesRead(names: seq<string>)
    requires forall i | 0 <= i < |names| :: |names[i]| < 63
    ensures Names(JsonStrings(names)) == names
  {
    if names != [] {
      var rest := names[..|names|-1];
      NamesRead(rest);
      assert JsonStrings(names)[..|names|-1] == JsonStrings(rest);
      assert names == rest + [names[|names|-1]];
    }
  }

  lemma {:induction false} FlagsRead(flags: seq<bool>)
    ensures Flags(JsonFlags(flags)) == flags
  {
    if flags != [] {
      var rest := flags[..|flags|-1];
      FlagsRead(rest);
      assert JsonFlags(flags)[..|flags|-1] == JsonFlags(rest);
      assert flags == rest + [flags[|flags|-1]];
    }
  }

  /** What fits the fields of the program: numbers of 32 bits, names of up to 62 and a chip of up to 127 characters. */
  predicate Storable(m: Meaning) {
    && |m.chip| < 128 && (forall i | 0 <= i < |m.lineChips| :: |m.lineChips[i]| < 63)
    && (forall i | 0 <= i < |m.lines| :: m.lines[i] < 0x1_0000_0000)
    && (forall i | 0 <= i < |m.directions| :: m.directions[i] < 0x1_0000_0000)
  }

  predicate ListForm(config: Json, m: Meaning) {
    && Given(config, "chip", String(m.chip)) && Given(config, "lines", Array(JsonNumbers(m.lines)))
    && Given(config, "lines_chip", Array(JsonStrings(m.lineChips))) && Given(config, "directions", Array(JsonNumbers(m.directions)))
    && Given(config, "active_low", Array(JsonFlags(m.activeLow)))
  }

  /** A configuration in list form means its own chip, lines, line chips, directions and flags. */
  lemma ListFormRead(config: Json, m: Meaning)
    requires Storable(m) && ListForm(config, m)
    ensures MeaningOf(config) == m
  {
    hide GetItem, Given, NotGiven, Numbers, Names, Flags;
    GivenRead(config, "chip", String(m.chip));
    GivenRead(config, "lines", Array(JsonNumbers(m.lines)));
    GivenRead(config, "lines_chip", Array(JsonStrings(m.lineChips)));
    GivenRead(config, "directions", Array(JsonNumbers(m.directions)));
    GivenRead(config, "active_low", Array(JsonFlags(m.activeLow)));
    NumbersRead(m.lines);
    NamesRead(m.lineChips);
    NumbersRead(m.directions);
    FlagsRead(m.activeLow);
  }

  /** A configuration in single form means one line with its direction and flag, and a single line chip if it has one. */
  lemma SingleFormRead(config: Json, chip: string, line: nat, direction: nat, active: bool, lineChip: Option<string>)
    requires |chip| < 128 && line < 0x1_0000_0000 && direction < 0x1_0000_0000 && (lineChip.Some? ==> |lineChip.value| < 63)
    requires Given(config, "chip", String(chip)) && Given(config, "line", Number(line)) && Given(config, "direction", Number(direction))
    requires Given(config, "active_low", if active then True else False) && NotGiven(config, "lines") && NotGiven(config, "directions")
    requires if lineChip.Some? then Given(config, "lines_chip", String(lineChip.value)) else NotGiven(config, "lines_chip")
    ensures MeaningOf(config) == Meaning(chip, [line], if lineChip.Some? then [lineChip.value] else [], [direction], [active])
  {
    hide GetItem, Given, NotGiven, Numbers, Names, Flags;
    GivenRead(config, "chip", String(chip));
    GivenRead(config, "line", Number(line));
    GivenRead(config, "direction", Number(direction));
    GivenRead(config, "active_low", if active then True else False);
    GivenRead(config, "lines", Null);
    GivenRead(config, "directions", Null);
    GivenRead(config, "lines_chip", if lineChip.Some? then String(lineChip.value) else Null);
  }

  /** Single values of any kind: text is cut to what the program stores, numbers are taken modulo 2^32, and what has another
      kind counts as missing. */
  lemma AnySingleRead(config: Json, chip: Json, line: Json, lineChip: Json, direction: Json, flag: Json)
    requires Given(config, "chip", chip) && Given(config, "line", line) && Given(config, "lines_chip", lineChip)
    requires Given(config, "direction", direction) && Given(config, "active_low", flag) && !lineChip.Array? && !flag.Array?
    requires NotGiven(config, "lines") && NotGiven(config, "directions")
    ensures MeaningOf(config) == Meaning(
      if !chip.String? then "" else if |chip.valuestring| < 128 then chip.valuestring else chip.valuestring[..127],
      [if line.Number? then line.valueint % 0x1_0000_0000 else 0],
      if !lineChip.String? then [] else [if |lineChip.valuestring| < 63 then lineChip.valuestring else lineChip.valuestring[..62]],
      [if direction.Number? then direction.valueint % 0x1_0000_0000 else 0],
      [flag.True?])
  {
    hide GetItem, Given, NotGiven, Numbers, Names, Flags;
    GivenRead(config, "chip", chip);
    GivenRead(config, "line", line);
    GivenRead(config, "lines_chip", lineChip);
    GivenRead(config, "direction", direction);
    GivenRead(config, "active_low", flag);
    GivenRead(config, "lines", Null);
    GivenRead(config, "directions", Null);
  }

  /** What is not given is zero, empty or false. */
  lemma DefaultsRead(config: Json)
    requires NotGiven(config, "chip") && NotGiven(config, "line") && NotGiven(config, "direction") && NotGiven(config, "active_low")
    requires NotGiven(config, "lines") && NotGiven(config, "directions") && NotGiven(config, "lines_chip")
    ensures MeaningOf(config) == Meaning("", [0], [], [0], [false])
  {
    hide GetItem, Given, NotGiven, Numbers, Names, Flags;
    GivenRead(config, "chip", Null);
    GivenRead(config, "line", Null);
    GivenRead(config, "direction", Null);
    GivenRead(config, "active_low", Null);
    GivenRead(config, "lines", Null);
    GivenRead(config, "directions", Null);
    GivenRead(config, "lines_chip", Null);
  }

  /** Elements of another type are passed over, wherever they stand. */
  lemma {:induction false} ListsConcat(a: seq<Json>, b: seq<Json>)
    ensures Numbers(a + b) == Numbers(a) + Numbers(b) && Names(a + b) == Names(a) + Names(b) && Flags(a + b) == Flags(a) + Flags(b)
    decreases |b|
  {
    if b == [] {
      assert a + b == a;
    } else {
      var b', c := b[..|b|-1], a + b;
      assert c[..|c|-1] == a + b' && c[|c|-1] == b[|b|-1];
      ListsConcat(a, b');
    }
  }

  lemma ListOfOne(x: Json)
    ensures !x.Number? ==> Numbers([x]) == []
    ensures !x.String? ==> Names([x]) == []
    ensures !x.True? && !x.False? ==> Flags([x]) == []
    ensures x.Number? ==> Numbers([x]) == [x.valueint % 0x1_0000_0000]
    ensures x.String? ==> Names([x]) == [if |x.valuestring| < 63 then x.valuestring else x.valuestring[..62]]
  {
    assert [x][..0] == [];
  }

  /** The entries of the table: the chip first, then lines, line chips, directions and flags. */
  lemma FlatLayout(m: Meaning)
    ensures var t, a, b, c := Flat(m), 1 + |m.lines|, 1 + |m.lines| + |m.lineChips|, 1 + |m.lines| + |m.lineChips| + |m.directions|;
      && |t| == c + |m.activeLow| && t[0] == Chip(m.chip)
      && (forall i | 0 <= i < |m.lines| :: t[1+i] == Line(m.lines[i]))
      && (forall i | 0 <= i < |m.lineChips| :: t[a+i] == LineChip(m.lineChips[i]))
      && (forall i | 0 <= i < |m.directions| :: t[b+i] == Direction(m.directions[i]))
      && (forall i | 0 <= i < |m.activeLow| :: t[c+i] == ActiveLow(m.activeLow[i]))
  {
    hide Each;
    var ls, cs, ds, fs := Each(m.lines, LineOf), Each(m.lineChips, LineChipOf), Each(m.directions, DirectionOf), Each(m.activeLow, ActiveLowOf);
    EachAt(m.lines, LineOf);
    EachAt(m.lineChips, LineChipOf);
    EachAt(m.directions, DirectionOf);
    EachAt(m.activeLow, ActiveLowOf);
    FiveParts([Chip(m.chip)], ls, cs, ds, fs);
  }

  lemma EachAt<A, B>(s: seq<A>, f: A -> B)
    ensures forall i | 0 <= i < |s| :: Each(s, f)[i] == f(s[i])
  {
  }

  lemma FiveParts<T>(a: seq<T>, b: seq<T>, c: seq<T>, d: seq<T>, e: seq<T>)
    requires |a| == 1
    ensures var t, p, q, r := a + b + c + d + e, 1 + |b|, 1 + |b| + |c|, 1 + |b| + |c| + |d|;
      && t[0] == a[0] && (forall i | 0 <= i < |b| :: t[1+i] == b[i]) && (forall i | 0 <= i < |c| :: t[p+i] == c[i])
      && (forall i | 0 <= i < |d| :: t[q+i] == d[i]) && (forall i | 0 <= i < |e| :: t[r+i] == e[i])
  {
  }

  // ----- the table with as many entries as it has slots

  function Upto<T>(s: seq<T>, n: nat): (r: seq<T>)
    ensures |r| <= n && r <= s
  {
    if |s| <= n then s else s[..n]
  }

  /** What the slots hold of a configuration: the default chip, then as much of the four lists as there is room for. */
  function Cut(m: Meaning): Meaning {
    var lines := Upto(m.lines, MAX_PARAMETERS - 1);
    var chips := Upto(m.lineChips, MAX_PARAMETERS - 1 - |lines|);
    var directions := Upto(m.directions, MAX_PARAMETERS - 1 - |lines| - |chips|);
    var flags := Upto(m.activeLow, MAX_PARAMETERS - 1 - |lines| - |chips| - |directions|);
    Meaning(m.chip, lines, chips, directions, flags)
  }

  /** A configuration that fits the table is not cut. */
  lemma NothingCut(m: Meaning)
    requires |m.lines| + |m.lineChips| + |m.directions| + |m.activeLow| < 32
    ensures Cut(m) == m
  {
  }

  lemma SlotsBehind<A>(t: seq<Parameter>, all: seq<Parameter>, xs: seq<A>, f: A -> Parameter)
    requires t == Slots(all)
    ensures |t| <= MAX_PARAMETERS && t + Each(Upto(xs, MAX_PARAMETERS - |t|), f) == Slots(all + Each(xs, f))
  {
  }

  lemma CutFlat(m: Meaning)
    ensures Slots(Flat(m)) == Flat(Cut(m))
  {
    hide Slots, Each, Upto;
    var c := Cut(m);
    var a := [Chip(m.chip)];
    SlotsBehind(a, a, m.lines, LineOf);
    SlotsBehind(a + Each(c.lines, LineOf), a + Each(m.lines, LineOf), m.lineChips, LineChipOf);
    SlotsBehind(a + Each(c.lines, LineOf) + Each(c.lineChips, LineChipOf), a + Each(m.lines, LineOf) + Each(m.lineChips, LineChipOf),
                m.directions, DirectionOf);
    SlotsBehind(a + Each(c.lines, LineOf) + Each(c.lineChips, LineChipOf) + Each(c.directions, DirectionOf),
                a + Each(m.lines, LineOf) + Each(m.lineChips, LineChipOf) + Each(m.directions, DirectionOf), m.activeLow, ActiveLowOf);
  }

  /** From the configuration to the opened device: what is rebuilt from the table that `get_gpio` fills is what the slots
      hold, and no line that could be opened is cut. */
  lemma RebuiltFromTable(m: Meaning)
    ensures var g := Rebuilt(ZEROED, Slots(Flat(m)));
      GivesBack(g, Cut(m)) && g.lines[..g.linesCount] == LinesIn(m) && g.linesCount == |LinesIn(m)|
  {
    CutFlat(m);
    RebuiltFromFlat(Cut(m));
    hide Flat, Rebuilt;
    assert Fitting(m.lines) == Fitting(Cut(m).lines);
  }

  /** The driver requests every line from the chip that the configuration names for it, if and only if the line chips
      that were cut from the table, or that follow a blank first one, name the default chip. */
  lemma ChipsSurvive(m: Meaning)
    ensures var g := Rebuilt(ZEROED, Slots(Flat(m)));
      |LinesIn(m)| <= MAX_LINES &&
      ((forall i: nat | i < |LinesIn(m)| :: ChipName(g, i) == Fit(ChipFor(m, i)))
       <==> forall i: nat | i < |LinesIn(m)| && i < |m.lineChips| && m.lineChips[i] != "" ::
             StartsBlank(Cut(m)) || i >= |Cut(m).lineChips| ==> Fit(m.lineChips[i]) == Fit(m.chip))
  {
    hide Flat, Truncated, PlaceAll, LineDefaults, FlagDefaults, Slots, Upto;
    RebuiltFromTable(m);
    var g, c := Rebuilt(ZEROED, Slots(Flat(m))), Cut(m);
    hide Rebuilt;
    BlankFits(m.chip);
    forall i: nat | i < |LinesIn(m)|
      ensures ChipName(g, i) == Fit(ChipFor(m, i)) <==>
        (i < |m.lineChips| && m.lineChips[i] != "" && (StartsBlank(c) || i >= |c.lineChips|) ==> Fit(m.lineChips[i]) == Fit(m.chip))
    {
      assert g.linesChip[i] == RebuiltChip(c, i);
      assert c.lineChips <= m.lineChips;
      if i < |m.lineChips| { BlankFits(m.lineChips[i]); }
    }
  }

  /** A configuration with a blank first line chip sends its second line to the default chip. */
  lemma BlankFirstChip()
    ensures var m := Meaning("a", [1, 2], ["", "b"], [0, 0], [false, false]);
      ChipFor(m, 1) == "b" && ChipName(Rebuilt(ZEROED, Slots(Flat(m))), 1) == "a"
  {
    var m := Meaning("a", [1, 2], ["", "b"], [0, 0], [false, false]);
    hide Flat, PlaceAll, LineDefaults, FlagDefaults;
    RebuiltFromTable(m);
    assert Cut(m) == m && |LinesIn(m)| == 2;
    assert RebuiltChip(m, 1) == "a";
  }
}

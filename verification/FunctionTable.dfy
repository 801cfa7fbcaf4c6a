/** The lookups of the function manager that the other services rely on. */
module FunctionTable {
  import opened JsonTree

  const NAME_LENGTH: nat := 64

  /** `safe_string_copy` into a buffer of the given size: as much of the string as fits before the terminating NUL. */
  function Truncated(s: string, size: nat): (r: string)
    requires size > 0
    ensures r <= s && |r| < size && (r != s ==> |r| == size - 1)
  {
    if |s| >= size then s[..size-1] else s
  }

  datatype FunctionInfo = FunctionInfo(name: string, available: bool, devices: seq<string>)

  /** Index of the first element with this name. */
  function FindNamed<T>(s: seq<T>, name: string, nameOf: T -> string): (r: Option<nat>)
    ensures r.Some? ==> r.value < |s| && nameOf(s[r.value]) == name
    ensures r.Some? ==> forall j | 0 <= j < r.value :: nameOf(s[j]) != name
    ensures r.None? ==> forall j | 0 <= j < |s| :: nameOf(s[j]) != name
  {
    if s == [] then None
    else if nameOf(s[0]) == name then Some(0)
    else match FindNamed(s[1..], name, nameOf)
      case None => None
      case Some(i) => Some(i + 1)
  }

  function FindFunction(fs: seq<FunctionInfo>, name: string): (r: Option<nat>)
    ensures r.Some? ==> r.value < |fs| && fs[r.value].name == name
    ensures r.Some? ==> forall j | 0 <= j < r.value :: fs[j].name != name
    ensures r.None? ==> forall j | 0 <= j < |fs| :: fs[j].name != name
  {
    FindNamed(fs, name, (f: FunctionInfo) => f.name)
  }

  /** The devices of an available function: what `function_manager_is_available` and
      `function_manager_get_device_count` let through, and `function_manager_get_device_by_index` lists. */
  function DevicesOf(fs: seq<FunctionInfo>, name: string): Option<seq<string>> {
    match FindFunction(fs, name)
    case Some(i) => if fs[i].available then Some(fs[i].devices) else None
    case None => None
  }

  predicate FirstNamed(fs: seq<FunctionInfo>, name: string, i: int) {
    0 <= i < |fs| && fs[i].name == name && forall j | 0 <= j < i :: fs[j].name != name
  }

  /** The first function of a name decides: its devices if it is available, none otherwise. */
  lemma DevicesOfExact(fs: seq<FunctionInfo>, name: string, devices: seq<string>)
    ensures DevicesOf(fs, name) == Some(devices) <==>
      exists i :: FirstNamed(fs, name, i) && fs[i].available && fs[i].devices == devices
  {
    var f := FindFunction(fs, name);
    if f.Some? { assert FirstNamed(fs, name, f.value); }
  }

  /** A function of this name has a device at this index. */
  predicate HasDevice(f: FunctionInfo, name: string, index: nat) {
    f.name == name && index < |f.devices|
  }

  predicate FirstWithDevice(fs: seq<FunctionInfo>, name: string, index: nat, i: int) {
    0 <= i < |fs| && HasDevice(fs[i], name, index) && forall j | 0 <= j < i :: !HasDevice(fs[j], name, index)
  }

  /** `function_manager_get_device_by_index`: the first function of this name whose list is long enough, available or not. */
  method GetDeviceByIndex(fs: seq<FunctionInfo>, name: string, index: nat) returns (device: Option<string>)
    ensures device.None? ==> forall i | 0 <= i < |fs| :: !HasDevice(fs[i], name, index)
    ensures device.Some? ==> exists i :: FirstWithDevice(fs, name, index, i) && device.value == fs[i].devices[index]
  {
    for i := 0 to |fs|
      invariant forall j | 0 <= j < i :: !HasDevice(fs[j], name, index)
    {
      if fs[i].name == name {
        if index < |fs[i].devices| {
          assert FirstWithDevice(fs, name, index, i);
          return Some(fs[i].devices[index]);
        }
      }
    }
    return None;
  }

  /** With distinct names the lookup by index lists exactly the devices of the function of this name. */
  lemma DevicesByIndex(fs: seq<FunctionInfo>, name: string, index: nat, i: nat)
    requires i < |fs| && HasDevice(fs[i], name, index)
    requires forall j, k | 0 <= j < k < |fs| :: fs[j].name != fs[k].name
    ensures FindFunction(fs, name) == Some(i) && (fs[i].available ==> DevicesOf(fs, name) == Some(fs[i].devices))
  {
    var f := FindFunction(fs, name);
    assert f.Some? && fs[f.value].name == fs[i].name;
  }
}

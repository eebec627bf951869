/**
 The scene as values: devices with their two parallel chip lists, and the Bluetooth emulator's copy of the radio
 state. `None` is a process abort: the bounds check of `mutable_chips()->at(chip_index)`, or `chips[c]` out of range.
 */
module SceneModel {
  import opened Bytes
  import opened Messages

  datatype Phy = LowEnergy | Classic

  /** A call of `UpdatePhy`: `AddDeviceToPhy` or `DelDeviceFromPhy`. */
  datatype PhyCall = PhyCall(connection: nat, phy: Phy, attach: bool)

  /** The emulator: PHY membership, open capture files, the calls made so far and the next connection id. */
  datatype Emulator = Emulator(attached: set<(nat, Phy)>, capturing: set<nat>, calls: seq<PhyCall>, next: nat)

  /** A `BluetoothChip` object: its `chip_index` into the parent's model and its rootcanal connection. */
  datatype Handle = Handle(index: nat, connection: nat)

  datatype Dev = Dev(model: Device, chips: seq<Handle>)

  datatype World = World(devices: seq<Dev>, emulator: Emulator)

  const EMPTY_WORLD := World([], Emulator({}, {}, [], 0))

  // ---------------------------------------------------------------- keys

  datatype ChipCase = NotSet | BtCase | UwbCase | WifiCase

  function CaseOf(m: Chip): ChipCase {
    match m.kind
    case None => NotSet
    case Some(Bt(_)) => BtCase
    case Some(Uwb(_)) => UwbCase
    case Some(Wifi(_)) => WifiCase
  }

  datatype Key = Key(chipCase: ChipCase, chipId: Text)

  function KeyOf(m: Chip): Key { Key(CaseOf(m), m.chipId) }

  // ---------------------------------------------------------------- one chip

  function BtOf(m: Chip): Bluetooth {
    match m.kind case Some(Bt(b)) => b case _ => NEW_BLUETOOTH
  }

  function LeOf(m: Chip): Radio { GetOr(BtOf(m).lowEnergy, NEW_RADIO) }

  function ClassicOf(m: Chip): Radio { GetOr(BtOf(m).classic, NEW_RADIO) }

  predicate ChangedState(a: State, b: State) { b != UNKNOWN && a != b }

  function UpdatePhy(e: Emulator, connection: nat, add: bool, phy: Phy): Emulator {
    e.(attached := if add then e.attached + {(connection, phy)} else e.attached - {(connection, phy)},
       calls := e.calls + [PhyCall(connection, phy, add)])
  }

  function SetPacketCapture(e: Emulator, connection: nat, on: bool): Emulator {
    e.(capturing := if on then e.capturing + {connection} else e.capturing - {connection})
  }

  /** `Chip::Update`. */
  function BaseUpdate(m: Chip, r: Chip): Chip {
    m.(manufacturer := if r.manufacturer != [] then r.manufacturer else m.manufacturer,
       model := if r.model != [] then r.model else m.model)
  }

  function UpdateCapture(m: Chip, r: Chip, connection: nat, e: Emulator): (Chip, Emulator) {
    if ChangedState(m.capture, r.capture)
    then (m.(capture := r.capture), SetPacketCapture(e, connection, r.capture == ON))
    else (m, e)
  }

  /** `mutable_bt()->mutable_low_energy()` makes both messages present even when nothing changes. */
  function UpdateLe(m: Chip, r: Chip, connection: nat, e: Emulator): (Chip, Emulator) {
    var s := LeOf(r).state;
    if ChangedState(LeOf(m).state, s)
    then (m.(kind := Some(Bt(BtOf(m).(lowEnergy := Some(LeOf(m).(state := s)))))), UpdatePhy(e, connection, s == ON, LowEnergy))
    else (m.(kind := Some(Bt(BtOf(m).(lowEnergy := Some(LeOf(m)))))), e)
  }

  function UpdateClassic(m: Chip, r: Chip, connection: nat, e: Emulator): (Chip, Emulator) {
    var s := ClassicOf(r).state;
    if ChangedState(ClassicOf(m).state, s)
    then (m.(kind := Some(Bt(BtOf(m).(classic := Some(ClassicOf(m).(state := s)))))), UpdatePhy(e, connection, s == ON, Classic))
    else (m.(kind := Some(Bt(BtOf(m).(classic := Some(ClassicOf(m)))))), e)
  }

  /** `BluetoothChip::Update`. */
  function ChipUpdate(m: Chip, r: Chip, connection: nat, e: Emulator): (Chip, Emulator) {
    var (m1, e1) := UpdateCapture(BaseUpdate(m, r), r, connection, e);
    var (m2, e2) := UpdateLe(m1, r, connection, e1);
    UpdateClassic(m2, r, connection, e2)
  }

  /** The request of `BluetoothChip::Reset`, and the model of a new connection: both radios on, no capture. */
  const INITIAL_CHIP: Chip :=
    NEW_CHIP.(kind := Some(Bt(Bluetooth(Some(NEW_RADIO.(state := ON)), Some(NEW_RADIO.(state := ON)), 0))), capture := OFF)

  // ---------------------------------------------------------------- Device

  datatype Lookup = Aborts | Missing | Found(pos: nat)

  /** The inner loop of `Device::Update`, from position `i`: the first chip whose `KeyComp` holds. */
  function FindChip(d: Dev, key: Key, i: nat): (r: Lookup)
    requires i <= |d.chips|
    ensures r.Found? ==> i <= r.pos < |d.chips| && d.chips[r.pos].index < |d.model.chips|
    decreases |d.chips| - i
  {
    if i == |d.chips| then Missing
    else if d.chips[i].index >= |d.model.chips| then Aborts
    else if KeyOf(d.model.chips[d.chips[i].index]) == key then Found(i)
    else FindChip(d, key, i + 1)
  }

  function UpdateOneChip(d: Dev, r: Chip, e: Emulator): Option<(Dev, Emulator)> {
    match FindChip(d, KeyOf(r), 0)
    case Aborts => None
    case Missing => Some((d, e))
    case Found(p) =>
      var h := d.chips[p];
      var (m, e') := ChipUpdate(d.model.chips[h.index], r, h.connection, e);
      Some((d.(model := d.model.(chips := d.model.chips[h.index := m])), e'))
  }

  function UpdateChips(d: Dev, rs: seq<Chip>, e: Emulator): Option<(Dev, Emulator)>
    decreases |rs|
  {
    if rs == [] then Some((d, e))
    else match UpdateOneChip(d, rs[0], e)
      case None => None
      case Some((d', e')) => UpdateChips(d', rs[1..], e')
  }

  function UpdatePlacement(m: Device, r: Device): Device {
    m.(position := if r.position.Some? then r.position else m.position,
       orientation := if r.orientation.Some? then r.orientation else m.orientation,
       name := if r.name != [] then r.name else m.name)
  }

  function DeviceUpdate(d: Dev, r: Device, e: Emulator): Option<(Dev, Emulator)> {
    UpdateChips(d.(model := UpdatePlacement(d.model, r)), r.chips, e)
  }

  function AddChip(d: Dev, connection: nat, m: Chip): Option<Dev> {
    match FindChip(d, KeyOf(m), 0)
    case Aborts => None
    case Found(_) => Some(d)
    case Missing => Some(Dev(d.model.(chips := d.model.chips + [m]), d.chips + [Handle(|d.chips|, connection)]))
  }

  /** Position of the first model chip with the key, or the number of chips. */
  function FindModel(ms: seq<Chip>, key: Key): (p: nat)
    ensures p <= |ms| && (p < |ms| ==> KeyOf(ms[p]) == key)
    ensures forall i :: 0 <= i < p ==> KeyOf(ms[i]) != key
  {
    if ms == [] then 0 else if KeyOf(ms[0]) == key then 0 else 1 + FindModel(ms[1..], key)
  }

  function Without<T>(s: seq<T>, p: nat): seq<T>
    requires p < |s|
  {
    s[..p] + s[p + 1..]
  }

  /** The handles after the erased one keep their `chip_index`. The flag says that no chips are left. */
  function DeviceRemoveChip(d: Dev, key: Key): Option<(Dev, bool)> {
    var p := FindModel(d.model.chips, key);
    if p == |d.model.chips| then Some((d, |d.chips| == 0))
    else if p >= |d.chips| then None
    else
      var chips := Without(d.chips, p);
      Some((Dev(d.model.(chips := Without(d.model.chips, p)), chips), |chips| == 0))
  }

  function DeviceReset(d: Dev): Dev {
    d.(model := d.model.(visible := true, position := Some(NEW_POSITION), orientation := Some(NEW_ORIENTATION)))
  }

  // ---------------------------------------------------------------- SceneController

  /** Position of the first device with exactly this serial, or the number of devices. */
  function GetDevice(ds: seq<Dev>, serial: Text): (k: nat)
    ensures k <= |ds| && (k < |ds| ==> ds[k].model.deviceSerial == serial)
    ensures forall i :: 0 <= i < k ==> ds[i].model.deviceSerial != serial
  {
    if ds == [] then 0 else if ds[0].model.deviceSerial == serial then 0 else 1 + GetDevice(ds[1..], serial)
  }

  function GetOrCreate(ds: seq<Dev>, serial: Text): (r: seq<Dev>)
    ensures GetDevice(ds, serial) < |r| && r[GetDevice(ds, serial)].model.deviceSerial == serial
  {
    if GetDevice(ds, serial) < |ds| then ds else ds + [Dev(NEW_DEVICE.(deviceSerial := serial), [])]
  }

  /** `AddHciConnection`: rootcanal attaches a new connection to both PHYs. */
  function AddHciConnection(w: World, serial: Text): Option<World> {
    var c := w.emulator.next;
    var e := w.emulator.(attached := w.emulator.attached + {(c, LowEnergy), (c, Classic)}, next := c + 1);
    var k := GetDevice(w.devices, serial);
    var ds := GetOrCreate(w.devices, serial);
    match AddChip(ds[k], c, INITIAL_CHIP)
    case None => None
    case Some(d) => Some(World(ds[k := d], e))
  }

  function RemoveChip(w: World, serial: Text, key: Key): Option<World> {
    var k := GetDevice(w.devices, serial);
    if k == |w.devices| then Some(w)
    else match DeviceRemoveChip(w.devices[k], key)
      case None => None
      case Some((d, empty)) => Some(w.(devices := if empty then Without(w.devices, k) else w.devices[k := d]))
  }

  /** `std::string::find` succeeds. */
  predicate Contains(s: seq<byte>, p: seq<byte>) {
    exists i :: 0 <= i <= |s| && OccursAt(s, p, i)
  }

  predicate Matches(d: Dev, serial: Text, name: Text) {
    if serial == [] then Contains(d.model.name, name) else Contains(d.model.deviceSerial, serial)
  }

  /** The loop of `MatchDevice` from position `i`, where `found` is the match so far. */
  function MatchFrom(ds: seq<Dev>, serial: Text, name: Text, i: nat, found: Option<nat>): (r: Option<nat>)
    requires i <= |ds| && (found.Some? ==> found.value < i)
    ensures r.Some? ==> r.value < |ds|
    decreases |ds| - i
  {
    if i == |ds| then found
    else if !Matches(ds[i], serial, name) then MatchFrom(ds, serial, name, i + 1, found)
    else if found.Some? then None
    else MatchFrom(ds, serial, name, i + 1, Some(i))
  }

  function MatchDevice(ds: seq<Dev>, serial: Text, name: Text): (r: Option<nat>)
    ensures r.Some? ==> r.value < |ds|
  {
    if serial == [] && name == [] then None else MatchFrom(ds, serial, name, 0, None)
  }

  predicate OnlyMatch(ds: seq<Dev>, serial: Text, name: Text, k: nat) {
    k < |ds| && Matches(ds[k], serial, name) && forall j :: 0 <= j < |ds| && j != k ==> !Matches(ds[j], serial, name)
  }

  function UpdateDevice(w: World, r: Device): Option<(World, bool)> {
    if r.deviceSerial == [] then Some((w, false))
    else match MatchDevice(w.devices, r.deviceSerial, r.name)
      case None => Some((w, false))
      case Some(k) =>
        match DeviceUpdate(w.devices[k], r, w.emulator)
          case None => None
          case Some((d, e)) => Some((World(w.devices[k := d], e), true))
  }

  function Reset(w: World): World {
    w.(devices := seq(|w.devices|, i requires 0 <= i < |w.devices| => DeviceReset(w.devices[i])))
  }

  /** `BluetoothChip::Reset` of the chip at position `p` of device `k`. */
  function ResetChip(w: World, k: nat, p: nat): Option<World>
    requires k < |w.devices| && p < |w.devices[k].chips|
  {
    var d := w.devices[k];
    var h := d.chips[p];
    if h.index >= |d.model.chips| then None
    else
      var (m, e) := ChipUpdate(d.model.chips[h.index], INITIAL_CHIP, h.connection, w.emulator);
      Some(World(w.devices[k := d.(model := d.model.(chips := d.model.chips[h.index := m]))], e))
  }
}

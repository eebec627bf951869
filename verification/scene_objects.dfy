/**
 The scene as the objects of the original: a controller with a device list, devices whose chips point back at them
 and hold an index into the device's model, and the emulator. Each method is proved against the value-level scene.
 `aborted` reports the process abort of an out-of-range index; what the objects hold then is not specified.
 */
module SceneObjects {
  import opened Bytes
  import opened Messages
  import opened SceneModel

  class ChipEmulator {
    var attached: set<(nat, Phy)>
    var capturing: set<nat>
    var calls: seq<PhyCall>
    var next: nat
    var idToChip: map<nat, BluetoothChip>

    ghost function Value(): Emulator
      reads this
    {
      Emulator(attached, capturing, calls, next)
    }

    constructor ()
      ensures Value() == EMPTY_WORLD.emulator && idToChip == map[]
    {
      attached, capturing, calls, next, idToChip := {}, {}, [], 0, map[];
    }

    method UpdatePhyOf(connection: nat, add: bool, phy: Phy)
      modifies this
      ensures Value() == UpdatePhy(old(Value()), connection, add, phy) && idToChip == old(idToChip)
    {
      if add {
        attached := attached + {(connection, phy)};
      } else {
        attached := attached - {(connection, phy)};
      }
      calls := calls + [PhyCall(connection, phy, add)];
    }

    method SetCapture(connection: nat, on: bool)
      modifies this
      ensures Value() == SetPacketCapture(old(Value()), connection, on) && idToChip == old(idToChip)
    {
      if on {
        capturing := capturing + {connection};
      } else {
        capturing := capturing - {connection};
      }
    }

    /** rootcanal's `AddHciConnection`: a fresh id, attached to both PHYs. */
    method NewConnection() returns (c: nat)
      modifies this
      ensures c == old(next)
      ensures Value() == old(Value()).(attached := old(attached) + {(c, LowEnergy), (c, Classic)}, next := c + 1)
      ensures idToChip == old(idToChip)
    {
      c := next;
      attached := attached + {(c, LowEnergy), (c, Classic)};
      next := next + 1;
    }

    /** `id_to_chip_[device_id] = chip`. */
    method SetChip(chip: BluetoothChip)
      modifies this`idToChip
      ensures idToChip == old(idToChip)[chip.connection := chip] && Value() == old(Value())
    {
      idToChip := idToChip[chip.connection := chip];
    }
  }

  /** `BluetoothChip`: back-pointer, index into the parent's model, rootcanal connection. */
  class BluetoothChip {
    var parent: SceneDevice?
    var chipIndex: nat
    const connection: nat
    const emulator: ChipEmulator

    constructor (emulator: ChipEmulator, connection: nat)
      ensures this.emulator == emulator && this.connection == connection && parent == null
    {
      this.emulator, this.connection := emulator, connection;
      parent, chipIndex := null, 0;
    }

    method Init(parent: SceneDevice, chipIndex: nat)
      modifies this
      ensures this.parent == parent && this.chipIndex == chipIndex
    {
      this.parent, this.chipIndex := parent, chipIndex;
    }

    /** Writes the chip's entry in the parent's model. */
    method SetModel(m: Chip)
      requires parent != null && chipIndex < |parent.model.chips|
      modifies parent`model
      ensures parent.model == old(parent.model).(chips := old(parent.model.chips)[chipIndex := m])
    {
      parent.model := parent.model.(chips := parent.model.chips[chipIndex := m]);
    }

    // The three guarded blocks of `Update`; `m` stands for the reference to the model.

    method UpdateCaptureState(m: Chip, r: Chip) returns (m': Chip)
      modifies emulator
      ensures (m', emulator.Value()) == UpdateCapture(m, r, connection, old(emulator.Value()))
    {
      m' := m;
      if ChangedState(m.capture, r.capture) {
        m' := m'.(capture := r.capture);
        emulator.SetCapture(connection, r.capture == ON);
      }
    }

    method UpdateLeState(m: Chip, r: Chip) returns (m': Chip)
      modifies emulator
      ensures (m', emulator.Value()) == UpdateLe(m, r, connection, old(emulator.Value()))
    {
      var requestState := LeOf(r).state;
      var le := LeOf(m);
      if ChangedState(le.state, requestState) {
        le := le.(state := requestState);
        emulator.UpdatePhyOf(connection, requestState == ON, LowEnergy);
      }
      m' := m.(kind := Some(Bt(BtOf(m).(lowEnergy := Some(le)))));
    }

    method UpdateClassicState(m: Chip, r: Chip) returns (m': Chip)
      modifies emulator
      ensures (m', emulator.Value()) == UpdateClassic(m, r, connection, old(emulator.Value()))
    {
      var requestState := ClassicOf(r).state;
      var classic := ClassicOf(m);
      if ChangedState(classic.state, requestState) {
        classic := classic.(state := requestState);
        emulator.UpdatePhyOf(connection, requestState == ON, Classic);
      }
      m' := m.(kind := Some(Bt(BtOf(m).(classic := Some(classic)))));
    }

    method Update(r: Chip) returns (aborted: bool)
      requires parent != null
      modifies parent`model, emulator
      ensures aborted <==> chipIndex >= |old(parent.model.chips)|
      ensures !aborted ==>
                var (m, e) := ChipUpdate(old(parent.model.chips)[chipIndex], r, connection, old(emulator.Value()));
                && parent.model == old(parent.model).(chips := old(parent.model.chips)[chipIndex := m])
                && emulator.Value() == e
    {
      hide UpdateCapture, UpdateLe, UpdateClassic, ChipEmulator.Value;
      if chipIndex >= |parent.model.chips| { return true; }
      aborted := false;
      var m := parent.model.chips[chipIndex];
      if r.manufacturer != [] { m := m.(manufacturer := r.manufacturer); }
      if r.model != [] { m := m.(model := r.model); }
      assert m == BaseUpdate(parent.model.chips[chipIndex], r);
      m := UpdateCaptureState(m, r);
      m := UpdateLeState(m, r);
      m := UpdateClassicState(m, r);
      SetModel(m);
    }
  }

  class SceneDevice {
    var model: Device
    var chips: seq<BluetoothChip>

    constructor (serial: Text)
      ensures model == NEW_DEVICE.(deviceSerial := serial) && chips == []
    {
      model, chips := NEW_DEVICE.(deviceSerial := serial), [];
    }

    ghost function Handles(): (r: seq<Handle>)
      reads this, chips
      ensures |r| == |chips| && forall i :: 0 <= i < |chips| ==> r[i] == Handle(chips[i].chipIndex, chips[i].connection)
    {
      seq(|chips|, i requires 0 <= i < |chips| reads this, chips => Handle(chips[i].chipIndex, chips[i].connection))
    }

    ghost function Value(): Dev
      reads this, chips
    {
      Dev(model, Handles())
    }

    ghost predicate Valid(emulator: ChipEmulator)
      reads this`chips, chips
    {
      forall i :: 0 <= i < |chips| ==> chips[i].parent == this && chips[i].emulator == emulator
    }

    /** `KeyComp` over the chips in order, up to the first that holds. */
    method FindKey(key: Key) returns (r: Lookup)
      ensures r == FindChip(Value(), key, 0)
    {
      for i := 0 to |chips|
        invariant FindChip(Value(), key, 0) == FindChip(Value(), key, i)
      {
        if chips[i].chipIndex >= |model.chips| { return Aborts; }
        if KeyOf(model.chips[chips[i].chipIndex]) == key { return Found(i); }
      }
      r := Missing;
    }

    /** One turn of the outer loop of `Update`. */
    method UpdateByKey(r: Chip, emulator: ChipEmulator) returns (aborted: bool)
      requires Valid(emulator)
      modifies this`model, emulator
      ensures match UpdateOneChip(old(Value()), r, old(emulator.Value()))
              case None => aborted
              case Some((d, e)) => !aborted && Value() == d && emulator.Value() == e
    {
      hide ChipUpdate, KeyOf, FindChip, ChipEmulator.Value;
      var at := FindKey(KeyOf(r));
      match at {
        case Aborts => aborted := true;
        case Missing => aborted := false;
        case Found(p) =>
          ghost var before := Handles();
          aborted := chips[p].Update(r);
          assert Handles() == before;
      }
    }

    method UpdatePlacementFields(r: Device)
      modifies this`model
      ensures Value() == old(Value()).(model := UpdatePlacement(old(Value()).model, r))
    {
      if r.position.Some? { model := model.(position := r.position); }
      if r.orientation.Some? { model := model.(orientation := r.orientation); }
      if r.name != [] { model := model.(name := r.name); }
    }

    method Update(r: Device, emulator: ChipEmulator) returns (aborted: bool)
      requires Valid(emulator)
      modifies this`model, emulator
      ensures match DeviceUpdate(old(Value()), r, old(emulator.Value()))
              case None => aborted
              case Some((d, e)) => !aborted && Value() == d && emulator.Value() == e
    {
      hide UpdateOneChip, ChipEmulator.Value, SceneDevice.Value, UpdatePlacement, KeyOf;
      UpdatePlacementFields(r);
      ghost var d0, e0 := Value(), emulator.Value();
      for i := 0 to |r.chips|
        invariant UpdateChips(d0, r.chips, e0) == UpdateChips(Value(), r.chips[i..], emulator.Value())
      {
        assert r.chips[i..][0] == r.chips[i] && r.chips[i..][1..] == r.chips[i + 1..];
        aborted := UpdateByKey(r.chips[i], emulator);
        if aborted { return; }
      }
      aborted := false;
    }

    method AddNewChip(chip: BluetoothChip, m: Chip, emulator: ChipEmulator) returns (aborted: bool)
      requires Valid(emulator) && chip.emulator == emulator && chip !in chips
      modifies this, chip
      ensures match AddChip(old(Value()), chip.connection, m)
              case None => aborted
              case Some(d) => !aborted && Valid(emulator) && Value() == d
    {
      var at := FindKey(KeyOf(m));
      match at {
        case Aborts => return true;
        case Found(_) => return false;
        case Missing =>
          ghost var handles := Handles();
          chip.Init(this, |chips|);
          model := model.(chips := model.chips + [m]);
          chips := chips + [chip];
          aborted := false;
          assert Handles() == handles + [Handle(|handles|, chip.connection)];
      }
    }

    /** The loop over `model.chips`; on a match both lists lose that position. */
    method RemoveChipByKey(key: Key) returns (aborted: bool, empty: bool)
      modifies this
      ensures match DeviceRemoveChip(old(Value()), key)
              case None => aborted
              case Some((d, e)) => !aborted && Value() == d && empty == e
      ensures forall i :: 0 <= i < |chips| ==> chips[i] in old(chips)
    {
      aborted, empty := false, false;
      for c := 0 to |model.chips|
        invariant model == old(model) && chips == old(chips) && !aborted
        invariant forall j :: 0 <= j < c ==> KeyOf(model.chips[j]) != key
      {
        if KeyOf(model.chips[c]) == key {
          FindModelIs(model.chips, key, c);
          if c >= |chips| { return true, false; }
          ghost var handles := Handles();
          chips := Without(chips, c);
          model := model.(chips := Without(model.chips, c));
          assert Handles() == Without(handles, c);
          return false, |chips| == 0;
        }
      }
      FindModelIs(model.chips, key, |model.chips|);
      empty := |chips| == 0;
    }

    method ResetPlacement()
      modifies this`model
      ensures Value() == DeviceReset(old(Value()))
    {
      model := model.(visible := true);
      model := model.(position := Some(NEW_POSITION));
      model := model.(orientation := Some(NEW_ORIENTATION));
    }
  }

  lemma FindModelIs(ms: seq<Chip>, key: Key, p: nat)
    requires p <= |ms| && forall j :: 0 <= j < p ==> KeyOf(ms[j]) != key
    requires p < |ms| ==> KeyOf(ms[p]) == key
    ensures FindModel(ms, key) == p
  {
  }

  /** The observers of the scene, counting how often they have all been called back. */
  class Observers {
    var rounds: nat

    constructor ()
      ensures rounds == 0
    {
      rounds := 0;
    }

    method Notify()
      modifies this
      ensures rounds == old(rounds) + 1
    {
      rounds := rounds + 1;
    }
  }

  class SceneController {
    var devices: seq<SceneDevice>
    const emulator: ChipEmulator
    const observers: Observers

    constructor (emulator: ChipEmulator, observers: Observers)
      ensures this.emulator == emulator && this.observers == observers && devices == []
    {
      this.emulator, this.observers := emulator, observers;
      devices := [];
    }

    ghost function Chips(): set<BluetoothChip>
      reads this, devices
      ensures forall k, i :: 0 <= k < |devices| && 0 <= i < |devices[k].chips| ==> devices[k].chips[i] in Chips()
    {
      set k, i | 0 <= k < |devices| && 0 <= i < |devices[k].chips| :: devices[k].chips[i]
    }

    ghost predicate Valid()
      reads this, devices, Chips()
    {
      && (forall k :: 0 <= k < |devices| ==> devices[k].Valid(emulator))
      && (forall j, k :: 0 <= j < k < |devices| ==> devices[j] != devices[k])
    }

    ghost function Devs(): (r: seq<Dev>)
      reads this, devices, Chips()
      ensures |r| == |devices| && forall k :: 0 <= k < |devices| ==> r[k] == devices[k].Value()
    {
      seq(|devices|, k requires 0 <= k < |devices| reads this, devices, Chips() => devices[k].Value())
    }

    ghost function Value(): World
      reads this, devices, Chips(), emulator
    {
      World(Devs(), emulator.Value())
    }

    /** `GetDevice`: the first device with exactly this serial. */
    method FindSerial(serial: Text) returns (k: nat)
      ensures k == GetDevice(Devs(), serial) && Devs() == old(Devs())
    {
      k := 0;
      while k < |devices|
        invariant k <= |devices|
        invariant forall j :: 0 <= j < k ==> devices[j].model.deviceSerial != serial
      {
        if devices[k].model.deviceSerial == serial {
          GetDeviceIs(Devs(), serial, k);
          return;
        }
        k := k + 1;
      }
      GetDeviceIs(Devs(), serial, k);
    }

    method Match(serial: Text, name: Text) returns (found: Option<nat>)
      ensures found == MatchDevice(Devs(), serial, name) && Devs() == old(Devs())
    {
      found := None;
      if serial == [] && name == [] { return; }
      for i := 0 to |devices|
        invariant found.Some? ==> found.value < i
        invariant MatchFrom(Devs(), serial, name, 0, None) == MatchFrom(Devs(), serial, name, i, found)
      {
        var hit := if serial == [] then Contains(devices[i].model.name, name) else Contains(devices[i].model.deviceSerial, serial);
        assert hit == Matches(Devs()[i], serial, name);
        if hit {
          if found != None { return None; }
          found := Some(i);
        }
      }
    }

    method Update(r: Device) returns (aborted: bool, ok: bool)
      requires Valid()
      modifies devices, emulator, observers
      ensures match UpdateDevice(old(Value()), r)
              case None => aborted
              case Some((w, b)) => !aborted && ok == b && Valid() && Value() == w
      ensures observers.rounds == old(observers.rounds) + (if !aborted && ok then 1 else 0)
    {
      hide DeviceUpdate, ChipEmulator.Value, SceneDevice.Value, MatchDevice;
      ghost var before := Devs();
      if r.deviceSerial == [] { return false, false; }
      var k := Match(r.deviceSerial, r.name);
      if k == None { return false, false; }
      aborted := devices[k.value].Update(r, emulator);
      ok := !aborted;
      if !aborted {
        assert forall j :: 0 <= j < |devices| && j != k.value ==> devices[j].Value() == before[j];
        assert Devs() == before[k.value := devices[k.value].Value()];
        observers.Notify();
      }
    }

    /** The loop over the devices; a device without chips is erased from the list. */
    method RemoveChipFrom(serial: Text, key: Key) returns (aborted: bool)
      requires Valid()
      modifies this`devices, devices
      ensures match RemoveChip(old(Value()), serial, key)
              case None => aborted
              case Some(w) => !aborted && Valid() && Value() == w
    {
      hide DeviceRemoveChip, ChipEmulator.Value, SceneDevice.Value, GetDevice;
      ghost var before := Devs();
      var k := FindSerial(serial);
      GetDeviceBound(before, serial);
      if k == |devices| { return false; }
      var empty;
      aborted, empty := devices[k].RemoveChipByKey(key);
      if !aborted {
        assert forall j :: 0 <= j < |devices| && j != k ==> devices[j].Value() == before[j];
        ghost var after := Devs();
        assert after == before[k := devices[k].Value()];
        if empty { EraseDevice(k); }
      }
    }

    method EraseDevice(k: nat)
      requires Valid() && k < |devices|
      modifies this`devices
      ensures Valid() && Devs() == Without(old(Devs()), k)
    {
      hide ChipEmulator.Value, SceneDevice.Value, SceneDevice.Valid;
      ghost var before, objects := Devs(), devices;
      devices := Without(devices, k);
      assert forall j :: 0 <= j < |devices| ==> devices[j] == objects[if j < k then j else j + 1];
      assert forall j :: 0 <= j < |devices| ==> devices[j].Value() == before[if j < k then j else j + 1];
    }

    method ResetScene()
      requires Valid()
      modifies devices, observers
      ensures Valid() && Value() == Reset(old(Value())) && observers.rounds == old(observers.rounds) + 1
    {
      hide DeviceReset, ChipEmulator.Value, SceneDevice.Value;
      ghost var before := Devs();
      for i := 0 to |devices|
        invariant Valid()
        invariant forall j :: 0 <= j < |devices| ==> devices[j].Value() == if j < i then DeviceReset(before[j]) else before[j]
        invariant observers.rounds == old(observers.rounds)
      {
        devices[i].ResetPlacement();
      }
      assert Devs() == Reset(World(before, emulator.Value())).devices;
      observers.Notify();
    }

    method GetOrCreateDevice(serial: Text) returns (k: nat)
      requires Valid()
      modifies this`devices
      ensures Valid() && k == GetDevice(old(Devs()), serial) && Devs() == GetOrCreate(old(Devs()), serial)
      ensures k < |devices| && (devices[k] in old(devices) || fresh(devices[k]))
      ensures forall j :: 0 <= j < |devices| ==> devices[j].chips == [] || devices[j] in old(devices)
    {
      hide SceneController.Devs;
      k := FindSerial(serial);
      if k == |devices| { CreateDevice(serial); }
    }

    method CreateDevice(serial: Text)
      requires Valid()
      modifies this`devices
      ensures Valid() && Devs() == old(Devs()) + [Dev(NEW_DEVICE.(deviceSerial := serial), [])]
      ensures |devices| == |old(devices)| + 1 && devices[..|old(devices)|] == old(devices)
      ensures fresh(devices[|old(devices)|]) && devices[|old(devices)|].chips == []
    {
      var device := new SceneDevice(serial);
      assert device.Handles() == [];
      AppendDevice(device);
    }

    method AppendDevice(device: SceneDevice)
      requires Valid() && device.Valid(emulator) && device !in devices
      modifies this`devices
      ensures Valid() && devices == old(devices) + [device] && Devs() == old(Devs()) + [device.Value()]
    {
      hide ChipEmulator.Value, SceneDevice.Value, SceneDevice.Valid;
      ghost var before := Devs();
      devices := devices + [device];
      assert forall j :: 0 <= j < |before| ==> devices[j].Value() == before[j];
    }

    method AddChipTo(k: nat, chip: BluetoothChip) returns (aborted: bool)
      requires Valid() && k < |devices| && chip.emulator == emulator
      requires forall j, i :: 0 <= j < |devices| && 0 <= i < |devices[j].chips| ==> devices[j].chips[i] != chip
      modifies devices[k], chip
      ensures match AddChip(old(Devs())[k], chip.connection, INITIAL_CHIP)
              case None => aborted
              case Some(d) => !aborted && Valid() && Devs() == old(Devs())[k := d]
    {
      hide AddChip, SceneDevice.Value;
      ghost var before := Devs();
      aborted := devices[k].AddNewChip(chip, INITIAL_CHIP, emulator);
      if !aborted {
        assert forall j :: 0 <= j < |devices| && j != k ==> devices[j].Value() == before[j];
      }
    }

    method AddHci(serial: Text) returns (aborted: bool)
      requires Valid()
      modifies this`devices, devices, emulator
      ensures match AddHciConnection(old(Value()), serial)
              case None => aborted
              case Some(w) => !aborted && Valid() && Value() == w
      ensures !aborted ==>
                var c, ids := old(emulator.next), emulator.idToChip;
                c in ids && fresh(ids[c]) && ids[c].connection == c && ids == old(emulator.idToChip)[c := ids[c]]
    {
      hide AddChip, SceneDevice.Value, SceneDevice.Valid, GetOrCreate, GetDevice, SceneController.Valid, SceneController.Devs;
      var chip := CreateChip();
      var k := GetOrCreateDevice(serial);
      aborted := AddChipTo(k, chip);
      if !aborted { RecordChip(chip); }
    }

    method RecordChip(chip: BluetoothChip)
      requires Valid()
      modifies emulator`idToChip
      ensures Valid() && Value() == old(Value())
      ensures emulator.idToChip == old(emulator.idToChip)[chip.connection := chip]
    {
      hide SceneDevice.Value, SceneDevice.Valid;
      ghost var before := Devs();
      emulator.SetChip(chip);
      assert forall j :: 0 <= j < |devices| ==> devices[j].Value() == before[j];
    }

    method CreateChip() returns (chip: BluetoothChip)
      requires Valid()
      modifies emulator
      ensures fresh(chip) && chip.emulator == emulator && chip.connection == old(emulator.next)
      ensures Valid() && Devs() == old(Devs()) && emulator.idToChip == old(emulator.idToChip)
      ensures emulator.Value() == old(emulator.Value()).(
                attached := old(emulator.attached) + {(chip.connection, LowEnergy), (chip.connection, Classic)}, next := chip.connection + 1)
    {
      hide SceneDevice.Value, SceneDevice.Valid;
      ghost var before := Devs();
      var c := emulator.NewConnection();
      chip := new BluetoothChip(emulator, c);
      assert forall j :: 0 <= j < |devices| ==> devices[j].Value() == before[j];
    }
  }

  lemma GetDeviceBound(ds: seq<Dev>, serial: Text)
    ensures GetDevice(ds, serial) <= |ds|
  {
  }

  lemma GetDeviceIs(ds: seq<Dev>, serial: Text, k: nat)
    requires k <= |ds| && forall j :: 0 <= j < k ==> ds[j].model.deviceSerial != serial
    requires k < |ds| ==> ds[k].model.deviceSerial == serial
    ensures GetDevice(ds, serial) == k
  {
  }
}

/** What each operation of the scene does, field by field. */
module SceneEffects {
  import opened Bytes
  import opened Messages
  import opened SceneModel
  import opened SceneTheorems

  // ---------------------------------------------------------------- keys and patterns

  predicate SameVariant(a: Option<ChipKind>, b: Option<ChipKind>) {
    match (a, b)
    case (None, None) => true
    case (Some(x), Some(y)) => (x.Bt? && y.Bt?) || (x.Uwb? && y.Uwb?) || (x.Wifi? && y.Wifi?)
    case _ => false
  }

  /** `KeyComp`: the same variant of the oneof, and the same chip id. */
  lemma KeysAreVariantAndId(a: Chip, b: Chip)
    ensures KeyOf(a) == KeyOf(b) <==> SameVariant(a.kind, b.kind) && a.chipId == b.chipId
  {
  }

  /** `find` succeeds: the pattern with something before it and something after it. */
  ghost predicate Substring(s: seq<byte>, p: seq<byte>) { exists a, b :: s == a + p + b }

  lemma ContainsIsSubstring(s: seq<byte>, p: seq<byte>)
    ensures Contains(s, p) <==> Substring(s, p)
  {
    if Contains(s, p) {
      var i :| 0 <= i <= |s| && OccursAt(s, p, i);
      assert s == s[..i] + p + s[i + |p|..];
    }
    if Substring(s, p) {
      var a, b :| s == a + p + b;
      assert OccursAt(s, p, |a|);
    }
  }

  /** A device matches by its serial if the request has one, otherwise by its name. */
  lemma MatchesByField(d: Dev, serial: Text, name: Text)
    ensures serial != [] ==> (Matches(d, serial, name) <==> Substring(d.model.deviceSerial, serial))
    ensures serial == [] ==> (Matches(d, serial, name) <==> Substring(d.model.name, name))
  {
    ContainsIsSubstring(d.model.deviceSerial, serial);
    ContainsIsSubstring(d.model.name, name);
    hide Contains, Substring;
  }

  // ---------------------------------------------------------------- updates

  /** The state a request leaves: its own unless that is UNKNOWN. */
  function Chosen(was: State, requested: State): State { if requested == UNKNOWN then was else requested }

  /** The call made for one radio, if its state is to change. */
  function CallsFor(c: nat, phy: Phy, was: State, requested: State): seq<PhyCall> {
    if requested != UNKNOWN && requested != was then [PhyCall(c, phy, requested == ON)] else []
  }

  /** `BluetoothChip::Update`, field by field: what the request names is set, everything else stays. */
  lemma ChipUpdateFields(m: Chip, r: Chip, c: nat, e: Emulator)
    ensures var m' := ChipUpdate(m, r, c, e).0;
            && m'.chipId == m.chipId && m'.cachedSize == m.cachedSize
            && m'.manufacturer == (if |r.manufacturer| > 0 then r.manufacturer else m.manufacturer)
            && m'.model == (if |r.model| > 0 then r.model else m.model)
            && m'.capture == Chosen(m.capture, r.capture)
            && m'.kind.Some? && m'.kind.value.Bt?
            && LeOf(m') == LeOf(m).(state := Chosen(LeOf(m).state, LeOf(r).state))
            && ClassicOf(m') == ClassicOf(m).(state := Chosen(ClassicOf(m).state, ClassicOf(r).state))
    ensures var e' := ChipUpdate(m, r, c, e).1;
            && e'.next == e.next
            && e'.calls == e.calls + CallsFor(c, LowEnergy, LeOf(m).state, LeOf(r).state) + CallsFor(c, Classic, ClassicOf(m).state, ClassicOf(r).state)
            && (r.capture != UNKNOWN && r.capture != m.capture ==> (c in e'.capturing <==> r.capture == ON))
            && (r.capture == UNKNOWN || r.capture == m.capture ==> e'.capturing == e.capturing)
  {
    var (m1, e1) := UpdateCapture(BaseUpdate(m, r), r, c, e);
    assert LeOf(m1) == LeOf(m) && ClassicOf(m1) == ClassicOf(m) && e1.calls == e.calls;
    var (m2, e2) := UpdateLe(m1, r, c, e1);
    assert ClassicOf(m2) == ClassicOf(m);
    assert e2.calls == e1.calls + CallsFor(c, LowEnergy, LeOf(m).state, LeOf(r).state);
  }

  lemma {:induction false} UpdateChipsFrame(d: Dev, rs: seq<Chip>, e: Emulator)
    requires UpdateChips(d, rs, e).Some?
    ensures var d' := UpdateChips(d, rs, e).value.0;
            d'.chips == d.chips && d'.model == d.model.(chips := d'.model.chips) && |d'.model.chips| == |d.model.chips|
    decreases |rs|
  {
    hide ChipUpdate, FindChip, KeyOf;
    if rs != [] {
      var p := UpdateOneChip(d, rs[0], e).value;
      UpdateChipsFrame(p.0, rs[1..], p.1);
    }
  }

  /** `Device::Update`: position, orientation and name are the request's where it has them, the rest of the device stays. */
  lemma DeviceUpdateFields(d: Dev, r: Device, e: Emulator)
    requires DeviceUpdate(d, r, e).Some?
    ensures var d' := DeviceUpdate(d, r, e).value.0;
            && d'.model.position == (match r.position case None => d.model.position case Some(p) => Some(p))
            && d'.model.orientation == (match r.orientation case None => d.model.orientation case Some(o) => Some(o))
            && d'.model.name == (if |r.name| > 0 then r.name else d.model.name)
            && d'.model.deviceSerial == d.model.deviceSerial && d'.model.visible == d.model.visible
            && d'.chips == d.chips && |d'.model.chips| == |d.model.chips|
  {
    UpdateChipsFrame(d.(model := UpdatePlacement(d.model, r)), r.chips, e);
    hide UpdateChips;
  }

  // ---------------------------------------------------------------- resets

  /** `SceneController::Reset`: every device is visible and placed at the origin; chips, names and radios stay. */
  lemma ResetEffect(w: World)
    ensures Reset(w).emulator == w.emulator && |Reset(w).devices| == |w.devices|
    ensures forall k :: 0 <= k < |w.devices| ==>
              var d, d' := w.devices[k], Reset(w).devices[k];
              && d'.model.visible
              && d'.model.position == Some(Position(0, 0, 0, 0)) && d'.model.orientation == Some(Orientation(0, 0, 0, 0))
              && d'.model.deviceSerial == d.model.deviceSerial && d'.model.name == d.model.name
              && d'.model.chips == d.model.chips && d'.chips == d.chips
  {
  }

  /** `BluetoothChip::Reset`: both radios on and attached, no capture; nothing else of the chip or of another changes. */
  lemma ResetChipEffect(w: World, k: nat, p: nat)
    requires SceneInv(w) && k < |w.devices| && p < |w.devices[k].chips| && p < |w.devices[k].model.chips|
    ensures ResetChip(w, k, p).Some?
    ensures var w' := ResetChip(w, k, p).value;
            && k < |w'.devices| && p < |w'.devices[k].model.chips|
            && var m, m', c := w.devices[k].model.chips[p], w'.devices[k].model.chips[p], w.devices[k].chips[p].connection;
               && LeOf(m') == LeOf(m).(state := ON) && ClassicOf(m') == ClassicOf(m).(state := ON) && m'.capture == OFF
               && m'.(kind := None, capture := UNKNOWN) == m.(kind := None, capture := UNKNOWN)
               && (c, LowEnergy) in w'.emulator.attached && (c, Classic) in w'.emulator.attached && c !in w'.emulator.capturing
               && w'.devices == w.devices[k := w.devices[k].(model := w.devices[k].model.(chips := w.devices[k].model.chips[p := m']))]
  {
    SceneSound(w, k);
    SoundChip(w.devices[k], w.emulator, p);
    var m, c := w.devices[k].model.chips[p], w.devices[k].chips[p].connection;
    ChipUpdateAgrees(m, INITIAL_CHIP, c, w.emulator);
    ChipUpdateFields(m, INITIAL_CHIP, c, w.emulator);
    hide SceneInv, EmulatorInv, ChipUpdate;
  }

  // ---------------------------------------------------------------- adding and removing chips

  /** The chip of a new connection. */
  function NewBluetoothChip(): Chip {
    Chip([], [], [], OFF, Some(Bt(Bluetooth(Some(Radio(ON, 0, 0, 0, 0)), Some(Radio(ON, 0, 0, 0, 0)), 0))), 0)
  }

  /** Some chip of the device is a Bluetooth chip with the empty id. */
  ghost predicate HasUnnamedBluetooth(d: Dev) {
    exists i :: 0 <= i < |d.model.chips| && d.model.chips[i].kind.Some? && d.model.chips[i].kind.value.Bt? && d.model.chips[i].chipId == []
  }

  predicate Serves(w: World, serial: Text, k: nat) { k < |w.devices| && w.devices[k].model.deviceSerial == serial }

  /** `AddHciConnection`: the new connection is attached to both PHYs, and nothing else changes in the emulator. */
  lemma AddHciConnectionToEmulator(w: World, serial: Text)
    requires SceneInv(w)
    ensures AddHciConnection(w, serial).Some?
    ensures var e, e', c := w.emulator, AddHciConnection(w, serial).value.emulator, w.emulator.next;
            && e'.next == c + 1 && e'.attached == e.attached + {(c, LowEnergy), (c, Classic)}
            && e'.capturing == e.capturing && e'.calls == e.calls
  {
    ConnectedChips(w, serial);
    hide SceneInv, AddChip, AddHciConnection;
  }

  /** A serial that no device has becomes a device with the one chip, at the end of the list. */
  lemma AddHciConnectionToNew(w: World, serial: Text)
    requires SceneInv(w) && forall k: nat :: !Serves(w, serial, k)
    ensures AddHciConnection(w, serial).Some?
    ensures AddHciConnection(w, serial).value.devices
            == w.devices + [Dev(Device(serial, [], false, None, None, [NewBluetoothChip()], 0), [Handle(0, w.emulator.next)])]
  {
    var k, ds := GetDevice(w.devices, serial), GetOrCreate(w.devices, serial);
    assert !Serves(w, serial, k);
    ConnectedChips(w, serial);
    AppendedChip(ds[k], w.emulator.next);
    hide SceneInv, AddChip;
  }

  lemma AppendedChip(d: Dev, c: nat)
    requires d.chips == [] && d.model.chips == []
    ensures AddChip(d, c, INITIAL_CHIP) == Some(Dev(d.model.(chips := [NewBluetoothChip()]), [Handle(0, c)]))
  {
    assert d.model.chips + [INITIAL_CHIP] == [NewBluetoothChip()] && d.chips + [Handle(0, c)] == [Handle(0, c)];
  }

  /** A device with the serial gets the chip at the end of both lists, unless it has one already. */
  lemma AddHciConnectionToKnown(w: World, serial: Text, k: nat)
    requires SceneInv(w) && Serves(w, serial, k)
    ensures AddHciConnection(w, serial).Some?
    ensures var d, c := w.devices[k], w.emulator.next;
            AddHciConnection(w, serial).value.devices
            == if HasUnnamedBluetooth(d) then w.devices
               else w.devices[k := Dev(d.model.(chips := d.model.chips + [NewBluetoothChip()]), d.chips + [Handle(|d.chips|, c)])]
  {
    var d, c := w.devices[k], w.emulator.next;
    assert GetDevice(w.devices, serial) == k;
    ConnectedChips(w, serial);
    AddedChipDevice(d, w.emulator);
    assert INITIAL_CHIP == NewBluetoothChip();
    UnnamedBluetooth(d);
    hide KeyOf, EmulatorInv, Agrees, ConnectionsDistinct, AddChip;
    var d' := AddChip(d, c, INITIAL_CHIP).value;
    assert AddHciConnection(w, serial).value.devices == w.devices[k := d'];
    if d' == d {
      assert w.devices[k := d] == w.devices;
    } else {
      assert d'.model == d.model.(chips := d'.model.chips);
    }
  }

  lemma UnnamedBluetooth(d: Dev)
    requires |d.chips| == |d.model.chips|
    ensures (exists i :: 0 <= i < |d.chips| && KeyOf(d.model.chips[i]) == KeyOf(INITIAL_CHIP)) <==> HasUnnamedBluetooth(d)
  {
  }

  /** The chip at position `p` of device `k` is the one that serial and key name. */
  predicate Named(w: World, serial: Text, key: Key, k: nat, p: nat) {
    Serves(w, serial, k) && p < |w.devices[k].model.chips| && KeyOf(w.devices[k].model.chips[p]) == key
  }

  /** `RemoveChip`: the named chip goes from both lists, and with the last one the device. */
  lemma RemoveChipEffect(w: World, serial: Text, key: Key, k: nat, p: nat)
    requires SceneInv(w) && Named(w, serial, key, k, p)
    ensures RemoveChip(w, serial, key).Some?
    ensures var d, w' := w.devices[k], RemoveChip(w, serial, key).value;
            && w'.emulator == w.emulator && p < |d.chips|
            && w'.devices
               == if |d.chips| == 1 then w.devices[..k] + w.devices[k + 1..]
                  else w.devices[k := Dev(d.model.(chips := d.model.chips[..p] + d.model.chips[p + 1..]), d.chips[..p] + d.chips[p + 1..])]
  {
    hide KeyOf, EmulatorInv, Agrees, ConnectionsDistinct;
    var d := w.devices[k];
    assert DeviceInv(d);
    assert GetDevice(w.devices, serial) == k && FindModel(d.model.chips, key) == p;
  }

  /** Without a named chip nothing changes. */
  lemma RemoveUnknownChip(w: World, serial: Text, key: Key)
    requires SceneInv(w) && forall k: nat, p: nat :: !Named(w, serial, key, k, p)
    ensures RemoveChip(w, serial, key) == Some(w)
  {
    hide KeyOf, EmulatorInv, Agrees, ConnectionsDistinct;
    var k := GetDevice(w.devices, serial);
    if k < |w.devices| {
      var d := w.devices[k];
      assert DeviceInv(d) && w.devices[k := d] == w.devices;
      assert !Named(w, serial, key, k, FindModel(d.model.chips, key));
    }
  }
}

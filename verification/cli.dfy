/** The command line client's requests, and what they do when they reach the scene. */
module Cli {
  import opened Bytes
  import opened Wire
  import opened Messages
  import opened Codec
  import CodecMethods
  import opened SceneModel
  import opened SceneTheorems

  datatype BtType = Ble | ClassicRadio

  datatype UpDownStatus = Up | Down

  function ChipState(status: UpDownStatus): State {
    match status case Up => ON case Down => OFF
  }

  function RadioChip(bt: BtType, status: UpDownStatus): Chip {
    var radio := NEW_RADIO.(state := ChipState(status));
    NEW_CHIP.(kind := Some(Bt(match bt
                             case Ble => NEW_BLUETOOTH.(lowEnergy := Some(radio))
                             case ClassicRadio => NEW_BLUETOOTH.(classic := Some(radio)))))
  }

  function RadioRequest(serial: Text, bt: BtType, status: UpDownStatus): UpdateDeviceRequest {
    NEW_UPDATE_DEVICE_REQUEST.(device := Some(NEW_DEVICE.(deviceSerial := serial, chips := [RadioChip(bt, status)])))
  }

  function MoveRequest(serial: Text, x: f32, y: f32, z: Option<f32>): UpdateDeviceRequest {
    NEW_UPDATE_DEVICE_REQUEST.(device := Some(NEW_DEVICE.(deviceSerial := serial, position := Some(Position(x, y, GetOr(z, 0), 0)))))
  }

  /** `Command::get_request_bytes` for Radio: the message is built through its setters, then written. */
  method GetRadioRequestBytes(serial: Text, bt: BtType, status: UpDownStatus) returns (bytes: seq<byte>)
    ensures var r := RadioRequest(serial, bt, status); |RequestBytes(r)| < U32 ==> bytes == RequestBytes(r)
  {
    var result := NEW_UPDATE_DEVICE_REQUEST;
    var device := GetOr(result.device, NEW_DEVICE);
    device := device.(deviceSerial := serial);
    device := device.(chips := device.chips + [NEW_CHIP]);
    var btChip := NEW_BLUETOOTH;
    var chipState;
    match status {
      case Up => chipState := ON;
      case Down => chipState := OFF;
    }
    if bt == Ble {
      btChip := btChip.(lowEnergy := Some(NEW_RADIO.(state := chipState)));
    } else {
      btChip := btChip.(classic := Some(NEW_RADIO.(state := chipState)));
    }
    device := device.(chips := device.chips[0 := device.chips[0].(kind := Some(Bt(btChip)))]);
    result := result.(device := Some(device));
    assert device.chips == [RadioChip(bt, status)];
    bytes := CodecMethods.RequestWriteToBytes(result);
  }

  /** What the server's `UpdateDevice` handler does with the bytes of a request. */
  function ServeUpdate(w: World, bytes: seq<byte>): Option<(World, bool)> {
    match Merge(StepRequest, NEW_UPDATE_DEVICE_REQUEST, bytes)
    case None => Some((w, false))
    case Some(r) => UpdateDevice(w, GetOr(r.device, NEW_DEVICE))
  }

  const BT_KEY := Key(BtCase, [])

  lemma RadioRequestDecodes(serial: Text, bt: BtType, status: UpDownStatus)
    requires |RequestBytes(RadioRequest(serial, bt, status))| < U32
    ensures Merge(StepRequest, NEW_UPDATE_DEVICE_REQUEST, RequestBytes(RadioRequest(serial, bt, status)))
         == Some(RadioRequest(serial, bt, status))
  {
    var r := RadioRequest(serial, bt, status);
    RequestRoundTrip(r);
    assert MapSeq(CanonChip, r.device.value.chips) == r.device.value.chips;
    hide Merge, RequestBytes;
  }

  /** The radio the command does not name. */
  function OtherRadio(bt: BtType, m: Chip): Radio { match bt case Ble => ClassicOf(m) case ClassicRadio => LeOf(m) }

  function NamedRadio(bt: BtType, m: Chip): Radio { match bt case Ble => LeOf(m) case ClassicRadio => ClassicOf(m) }

  function NamedPhy(bt: BtType): Phy { match bt case Ble => LowEnergy case ClassicRadio => Classic }

  lemma RadioOverride(m: Chip, bt: BtType, status: UpDownStatus)
    requires KeyOf(m) == BT_KEY
    ensures var m' := Override(m, RadioChip(bt, status));
            && NamedRadio(bt, m') == NamedRadio(bt, m).(state := ChipState(status))
            && OtherRadio(bt, m') == OtherRadio(bt, m)
            && m'.(kind := None) == m.(kind := None) && KeyOf(m') == BT_KEY
  {
  }

  /** What the Radio command does to the world, where device `k` is the one that matches. */
  ghost predicate RadioDone(w: World, w': World, bt: BtType, status: UpDownStatus, k: nat)
    requires k < |w.devices| && |w.devices[k].chips| == |w.devices[k].model.chips|
  {
    && SceneInv(w') && |w'.devices| == |w.devices|
    && (forall j :: 0 <= j < |w.devices| && j != k ==> w'.devices[j] == w.devices[j])
    && RadioSet(w.devices[k], w'.devices[k], bt, status)
    && PhySet(w.devices[k], w.emulator, w'.emulator, bt, status)
  }

  /**
   End to end: encoding the Radio command, decoding it and updating a scene in which one serial matches sets that
   radio of that device's Bluetooth chip. Every other radio, capture, placement, name and device stays as it was,
   and so does every other PHY membership.
   */
  lemma RadioCommand(w: World, serial: Text, bt: BtType, status: UpDownStatus, k: nat)
    requires SceneInv(w) && serial != [] && OnlyMatch(w.devices, serial, [], k)
    ensures |w.devices[k].chips| == |w.devices[k].model.chips|
    ensures |RequestBytes(RadioRequest(serial, bt, status))| < U32 ==>
              var r := ServeUpdate(w, RequestBytes(RadioRequest(serial, bt, status)));
              r.Some? && r.value.1 && RadioDone(w, r.value.0, bt, status, k)
  {
    hide Merge, RequestBytes, SceneInv, RadioSet, PhySet;
    SceneSound(w, k);
    SoundDevice(w.devices[k], w.emulator);
    if |RequestBytes(RadioRequest(serial, bt, status))| < U32 {
      RadioRequestDecodes(serial, bt, status);
      var r := RadioRequest(serial, bt, status).device.value;
      MatchDeviceIsUnique(w.devices, serial, [], k);
      UpdateDeviceInv(w, r);
      RadioOnDevice(w.devices[k], serial, bt, status, w.emulator);
    }
  }

  /** On the device: the Bluetooth chip's named radio has the new state, everything else is unchanged. */
  ghost predicate RadioSet(d: Dev, d': Dev, bt: BtType, status: UpDownStatus) {
    && d'.chips == d.chips
    && d'.model == d.model.(chips := d'.model.chips)
    && |d'.model.chips| == |d.model.chips|
    && forall i :: 0 <= i < |d.model.chips| ==>
         var m, m' := d.model.chips[i], d'.model.chips[i];
         if KeyOf(m) != BT_KEY then m' == m
         else && NamedRadio(bt, m') == NamedRadio(bt, m).(state := ChipState(status))
              && OtherRadio(bt, m') == OtherRadio(bt, m)
              && m'.(kind := None) == m.(kind := None)
  }

  /** In the emulator: the connection of that chip is on the named PHY iff the command says Up. */
  ghost predicate PhySet(d: Dev, e: Emulator, e': Emulator, bt: BtType, status: UpDownStatus)
    requires |d.chips| == |d.model.chips|
  {
    && e'.capturing == e.capturing
    && forall c: nat, phy ::
         if phy == NamedPhy(bt) && exists i :: 0 <= i < |d.chips| && d.chips[i].connection == c && KeyOf(d.model.chips[i]) == BT_KEY
         then (c, phy) in e'.attached <==> status == Up
         else (c, phy) in e'.attached <==> (c, phy) in e.attached
  }

  lemma RadioOnDevice(d: Dev, serial: Text, bt: BtType, status: UpDownStatus, e: Emulator)
    requires Sound(d, e)
    ensures var r := RadioRequest(serial, bt, status).device.value;
            && DeviceUpdate(d, r, e).Some?
            && var (d', e') := DeviceUpdate(d, r, e).value;
               RadioSet(d, d', bt, status) && PhySet(d, e, e', bt, status)
  {
    var r := RadioRequest(serial, bt, status).device.value;
    var chip := RadioChip(bt, status);
    DeviceUpdateInv(d, r, e);
    var (d', e') := DeviceUpdate(d, r, e).value;
    forall i | 0 <= i < |d.chips|
      ensures d'.model.chips[i] == if KeyOf(d.model.chips[i]) == BT_KEY then Override(d.model.chips[i], chip) else d.model.chips[i]
    {
      OverrideByOne(d.model.chips[i], chip);
      assert KeyOf(chip) == BT_KEY;
    }
    forall i | 0 <= i < |d.chips| && KeyOf(d.model.chips[i]) == BT_KEY
      ensures var m' := d'.model.chips[i];
              NamedRadio(bt, m') == NamedRadio(bt, d.model.chips[i]).(state := ChipState(status))
    {
      RadioOverride(d.model.chips[i], bt, status);
    }
    hide Override, KeyOf, DeviceUpdate;
    assert RadioSet(d, d', bt, status) by {
      forall i | 0 <= i < |d.chips| && KeyOf(d.model.chips[i]) == BT_KEY { RadioOverride(d.model.chips[i], bt, status); }
    }
    RadioPhys(d, d', e, e', bt, status);
  }

  lemma OverrideByOne(m: Chip, r: Chip)
    ensures OverrideAll(m, [r]) == if KeyOf(r) == KeyOf(m) then Override(m, r) else m
  {
  }

  lemma RadioPhys(d: Dev, d': Dev, e: Emulator, e': Emulator, bt: BtType, status: UpDownStatus)
    requires Sound(d, e) && Sound(d', e') && SameOutside(e, e', d) && RadioSet(d, d', bt, status)
    ensures PhySet(d, e, e', bt, status)
  {
    hide Sound, KeyOf;
    forall c: nat | Owns(d, c) ensures c in e'.capturing <==> c in e.capturing {
      var p := OwnedConnectionAgrees(d, e, c);
      SoundChip(d', e', p);
    }
    forall c: nat ensures c in e'.capturing <==> c in e.capturing {
      if Owns(d, c) {}
    }
    assert DeviceInv(d) by { assert Sound(d, e); SoundDevice(d, e); }
    forall c: nat, phy: Phy
      ensures var named := phy == NamedPhy(bt) && exists i :: 0 <= i < |d.chips| && d.chips[i].connection == c && KeyOf(d.model.chips[i]) == BT_KEY;
              if named then (c, phy) in e'.attached <==> status == Up else (c, phy) in e'.attached <==> (c, phy) in e.attached
    {
      if Owns(d, c) {
        var p := OwnedConnectionAgrees(d, e, c);
        SoundChip(d', e', p);
        forall i | 0 <= i < |d.chips| && d.chips[i].connection == c ensures i == p { SameChip(d, e, i, p); }
        match phy case LowEnergy => case Classic =>
      }
    }
  }

  lemma SoundDevice(d: Dev, e: Emulator)
    requires Sound(d, e)
    ensures DeviceInv(d)
  {
  }

  /** Bytes that do not decode change nothing. */
  lemma BadRequestChangesNothing(w: World, bytes: seq<byte>)
    ensures Merge(StepRequest, NEW_UPDATE_DEVICE_REQUEST, bytes) == None ==> ServeUpdate(w, bytes) == Some((w, false))
    ensures Merge(StepCapture, NEW_CAPTURE_REQUEST, bytes) == None ==> ServeCapture(w, bytes) == Some((w, false))
  {
    hide Merge;
  }

  // ---------------------------------------------------------------- Move

  method GetMoveRequestBytes(serial: Text, x: f32, y: f32, z: Option<f32>) returns (bytes: seq<byte>)
    ensures var r := MoveRequest(serial, x, y, z); |RequestBytes(r)| < U32 ==> bytes == RequestBytes(r)
  {
    var result := NEW_UPDATE_DEVICE_REQUEST;
    var device := GetOr(result.device, NEW_DEVICE);
    device := device.(deviceSerial := serial);
    device := device.(position := Some(NEW_POSITION.(x := x, y := y, z := GetOr(z, 0))));
    result := result.(device := Some(device));
    bytes := CodecMethods.RequestWriteToBytes(result);
  }

  lemma MoveRequestDecodes(serial: Text, x: f32, y: f32, z: Option<f32>)
    requires |RequestBytes(MoveRequest(serial, x, y, z))| < U32
    ensures Merge(StepRequest, NEW_UPDATE_DEVICE_REQUEST, RequestBytes(MoveRequest(serial, x, y, z)))
         == Some(MoveRequest(serial, CanonFloat(x), CanonFloat(y), Some(CanonFloat(GetOr(z, 0)))))
  {
    RequestRoundTrip(MoveRequest(serial, x, y, z));
    hide Merge, RequestBytes;
  }

  /**
   End to end: the Move command places exactly the one matching device, at the given position but for -0.0 turned into
   +0.0, and changes nothing else in the world.
   */
  lemma MoveCommand(w: World, serial: Text, x: f32, y: f32, z: Option<f32>, k: nat)
    requires serial != [] && OnlyMatch(w.devices, serial, [], k)
    requires |RequestBytes(MoveRequest(serial, x, y, z))| < U32
    ensures var p := Position(CanonFloat(x), CanonFloat(y), CanonFloat(GetOr(z, 0)), 0);
            var d := w.devices[k];
            ServeUpdate(w, RequestBytes(MoveRequest(serial, x, y, z)))
            == Some((w.(devices := w.devices[k := d.(model := d.model.(position := Some(p)))]), true))
  {
    hide Merge, RequestBytes;
    MoveRequestDecodes(serial, x, y, z);
    MatchDeviceIsUnique(w.devices, serial, [], k);
  }

  // ---------------------------------------------------------------- Capture

  method GetCaptureRequestBytes(serial: Text, on: bool) returns (bytes: seq<byte>)
    ensures |CaptureBytes(CaptureRequest(on, serial, 0))| < U32 ==> bytes == CaptureBytes(CaptureRequest(on, serial, 0))
  {
    var result := NEW_CAPTURE_REQUEST;
    result := result.(deviceSerial := serial);
    result := result.(capture := on);
    bytes := CodecMethods.CaptureWriteToBytes(result);
  }

  /** The chip in the server's own update request: a Bluetooth chip with nothing but the capture state. */
  function CaptureChip(on: bool): Chip {
    NEW_CHIP.(capture := if on then ON else OFF, kind := Some(Bt(NEW_BLUETOOTH)))
  }

  function CaptureUpdate(m: CaptureRequest): Device {
    NEW_DEVICE.(deviceSerial := m.deviceSerial, chips := [CaptureChip(m.capture)])
  }

  /** What the server's `SetPacketCapture` handler does with the bytes of a request. */
  function ServeCapture(w: World, bytes: seq<byte>): Option<(World, bool)> {
    match Merge(StepCapture, NEW_CAPTURE_REQUEST, bytes)
    case None => Some((w, false))
    case Some(r) => UpdateDevice(w, CaptureUpdate(r))
  }

  lemma CaptureOverride(m: Chip, on: bool)
    requires KeyOf(m) == BT_KEY
    ensures var m' := Override(m, CaptureChip(on));
            && m'.capture == (if on then ON else OFF)
            && LeOf(m') == LeOf(m) && ClassicOf(m') == ClassicOf(m)
            && m'.(kind := None, capture := m.capture) == m.(kind := None) && KeyOf(m') == BT_KEY
  {
  }

  /** The Bluetooth chip has the capture state, and its radios and everything else are unchanged. */
  ghost predicate CaptureSet(d: Dev, d': Dev, on: bool) {
    && d'.chips == d.chips
    && d'.model == d.model.(chips := d'.model.chips)
    && |d'.model.chips| == |d.model.chips|
    && forall i :: 0 <= i < |d.model.chips| ==>
         var m, m' := d.model.chips[i], d'.model.chips[i];
         if KeyOf(m) != BT_KEY then m' == m
         else && m'.capture == (if on then ON else OFF)
              && LeOf(m') == LeOf(m) && ClassicOf(m') == ClassicOf(m)
              && m'.(kind := None, capture := m.capture) == m.(kind := None)
  }

  /** The connection of the device's Bluetooth chip. */
  ghost predicate IsBtConnection(d: Dev, c: nat)
    requires |d.chips| == |d.model.chips|
  {
    exists i :: 0 <= i < |d.chips| && d.chips[i].connection == c && KeyOf(d.model.chips[i]) == BT_KEY
  }

  lemma CaptureOnDevice(d: Dev, serial: Text, on: bool, e: Emulator)
    requires Sound(d, e)
    ensures var r := CaptureUpdate(CaptureRequest(on, serial, 0));
            && DeviceUpdate(d, r, e).Some?
            && var (d', e') := DeviceUpdate(d, r, e).value;
               && CaptureSet(d, d', on) && e'.attached == e.attached
               && forall c: nat :: c in e'.capturing <==> if IsBtConnection(d, c) then on else c in e.capturing
  {
    var r := CaptureUpdate(CaptureRequest(on, serial, 0));
    DeviceUpdateInv(d, r, e);
    var (d', e') := DeviceUpdate(d, r, e).value;
    assert CaptureSet(d, d', on) by {
      forall i | 0 <= i < |d.chips| && KeyOf(d.model.chips[i]) == BT_KEY { CaptureOverride(d.model.chips[i], on); }
      forall i | 0 <= i < |d.chips| { OverrideByOne(d.model.chips[i], CaptureChip(on)); }
      assert KeyOf(CaptureChip(on)) == BT_KEY;
      hide Override, KeyOf, DeviceUpdate;
    }
    hide Override, KeyOf, DeviceUpdate, CaptureChip;
    CaptureMembership(d, d', e, e', on);
  }

  lemma CaptureMembership(d: Dev, d': Dev, e: Emulator, e': Emulator, on: bool)
    requires Sound(d, e) && Sound(d', e') && SameOutside(e, e', d) && CaptureSet(d, d', on) && |d.chips| == |d.model.chips|
    ensures e'.attached == e.attached
    ensures forall c: nat :: c in e'.capturing <==> if IsBtConnection(d, c) then on else c in e.capturing
  {
    hide Sound, KeyOf;
    forall x: (nat, Phy) ensures x in e'.attached <==> x in e.attached {
      var c := x.0;
      assert x == (c, x.1);
      if Owns(d, c) {
        var p := OwnedConnectionAgrees(d, e, c);
        SoundChip(d', e', p);
        match x.1 case LowEnergy => case Classic =>
      }
    }
    forall c: nat ensures c in e'.capturing <==> if IsBtConnection(d, c) then on else c in e.capturing {
      if Owns(d, c) {
        var p := OwnedConnectionAgrees(d, e, c);
        SoundChip(d', e', p);
        forall i | 0 <= i < |d.chips| && d.chips[i].connection == c ensures i == p { SameChip(d, e, i, p); }
      }
    }
  }

  /**
   End to end: the Capture command switches packet capture of exactly the matching device's Bluetooth chip, and leaves
   every radio, PHY membership, other chip and other device alone.
   */
  lemma CaptureCommand(w: World, serial: Text, on: bool, k: nat)
    requires SceneInv(w) && serial != [] && OnlyMatch(w.devices, serial, [], k)
    requires |CaptureBytes(CaptureRequest(on, serial, 0))| < U32
    ensures |w.devices[k].chips| == |w.devices[k].model.chips|
    ensures ServeCapture(w, CaptureBytes(CaptureRequest(on, serial, 0))).Some?
    ensures var (w', ok) := ServeCapture(w, CaptureBytes(CaptureRequest(on, serial, 0))).value;
            && ok && SceneInv(w') && |w'.devices| == |w.devices|
            && (forall j :: 0 <= j < |w.devices| && j != k ==> w'.devices[j] == w.devices[j])
            && CaptureSet(w.devices[k], w'.devices[k], on) && w'.emulator.attached == w.emulator.attached
            && forall c: nat :: c in w'.emulator.capturing
                                <==> if IsBtConnection(w.devices[k], c) then on else c in w.emulator.capturing
  {
    hide Merge, CaptureBytes, SceneInv;
    CaptureRoundTrip(CaptureRequest(on, serial, 0));
    MatchDeviceIsUnique(w.devices, serial, [], k);
    UpdateDeviceInv(w, CaptureUpdate(CaptureRequest(on, serial, 0)));
    SceneSound(w, k);
    SoundDevice(w.devices[k], w.emulator);
    CaptureOnDevice(w.devices[k], serial, on, w.emulator);
  }
}

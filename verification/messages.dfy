/**
 The messages of model.proto with the generated codec of each: `Written*` is what `write_to_with_cached_sizes` emits
 (length prefixes come from the caches), `Step*` is one turn of the `merge_from` loop, `Fill*` is the message after
 `compute_size`. Unknown fields and unknown enum values are passed over.
 */
module Messages {
  import opened Bytes
  import opened Wire

  datatype State = UNKNOWN | ON | OFF

  function StateValue(s: State): u64 {
    match s case UNKNOWN => 0 case ON => 1 case OFF => 2
  }

  function StateFromI32(v: i32): Option<State> {
    match v case 0 => Some(UNKNOWN) case 1 => Some(ON) case 2 => Some(OFF) case _ => None
  }

  datatype Position = Position(x: f32, y: f32, z: f32, cachedSize: nat)
  datatype Orientation = Orientation(yaw: f32, pitch: f32, roll: f32, cachedSize: nat)
  datatype Radio = Radio(state: State, range: f32, txCount: i32, rxCount: i32, cachedSize: nat)
  datatype Bluetooth = Bluetooth(lowEnergy: Option<Radio>, classic: Option<Radio>, cachedSize: nat)
  datatype ChipKind = Bt(bt: Bluetooth) | Uwb(uwb: Radio) | Wifi(wifi: Radio)
  datatype Chip = Chip(chipId: Text, manufacturer: Text, model: Text, capture: State, kind: Option<ChipKind>, cachedSize: nat)
  datatype Device = Device(deviceSerial: Text, name: Text, visible: bool, position: Option<Position>,
                           orientation: Option<Orientation>, chips: seq<Chip>, cachedSize: nat)
  datatype Scene = Scene(devices: seq<Device>, cachedSize: nat)
  datatype UpdateDeviceRequest = UpdateDeviceRequest(device: Option<Device>, cachedSize: nat)
  datatype CaptureRequest = CaptureRequest(capture: bool, deviceSerial: Text, cachedSize: nat)

  const NEW_POSITION := Position(0, 0, 0, 0)
  const NEW_ORIENTATION := Orientation(0, 0, 0, 0)
  const NEW_RADIO := Radio(UNKNOWN, 0, 0, 0, 0)
  const NEW_BLUETOOTH := Bluetooth(None, None, 0)
  const NEW_CHIP := Chip([], [], [], UNKNOWN, None, 0)
  const NEW_DEVICE := Device([], [], false, None, None, [], 0)
  const NEW_SCENE := Scene([], 0)
  const NEW_UPDATE_DEVICE_REQUEST := UpdateDeviceRequest(None, 0)
  const NEW_CAPTURE_REQUEST := CaptureRequest(false, [], 0)

  function GetOr<T>(o: Option<T>, d: T): T { match o case None => d case Some(v) => v }

  function MapOption<T>(f: T -> T, o: Option<T>): Option<T> { match o case None => None case Some(v) => Some(f(v)) }

  /** Applies `f` to every element; defined from the back, as loops and writers build lists. */
  function MapSeq<T>(f: T -> T, xs: seq<T>): (r: seq<T>)
    ensures |r| == |xs| && forall i :: 0 <= i < |xs| ==> r[i] == f(xs[i])
  {
    if xs == [] then [] else MapSeq(f, xs[..|xs| - 1]) + [f(xs[|xs| - 1])]
  }

  // ---------------------------------------------------------------- field readers of the protobuf run time

  /** `read_proto3_enum_with_unknown_fields_into`: an unknown value leaves the field as it was. */
  function ReadState(r: Record, old_: State): Option<State> {
    if r.Varint? then Some(GetOr(StateFromI32(Int32OfWire(r.value)), old_)) else None
  }

  function ReadFloat(r: Record): Option<f32> { if r.Fixed32? then Some(r.bits) else None }

  function ReadInt32(r: Record): Option<i32> { if r.Varint? then Some(Int32OfWire(r.value)) else None }

  function ReadBool(r: Record): Option<bool> { if r.Varint? then Some(BoolOfWire(r.value)) else None }

  function ReadText(r: Record): Option<Text> { if r.Len? && ValidUtf8(r.payload) then Some(r.payload) else None }

  function ReadMessage<M>(step: (M, Record) -> Option<M>, m: M, r: Record): Option<M> {
    if r.Len? then Merge(step, m, r.payload) else None
  }

  // ---------------------------------------------------------------- Position

  function WrittenPosition(m: Position): seq<byte> {
    [] + Opt(!IsZero(m.x), Fixed32(1, m.x)) + Opt(!IsZero(m.y), Fixed32(2, m.y)) + Opt(!IsZero(m.z), Fixed32(3, m.z))
  }

  function StepPosition(m: Position, r: Record): Option<Position> {
    match r.num
    case 1 => (match ReadFloat(r) case None => None case Some(v) => Some(m.(x := v)))
    case 2 => (match ReadFloat(r) case None => None case Some(v) => Some(m.(y := v)))
    case 3 => (match ReadFloat(r) case None => None case Some(v) => Some(m.(z := v)))
    case _ => Some(m)
  }

  function FillPosition(m: Position): Position { m.(cachedSize := |WrittenPosition(m)|) }

  function CanonPosition(m: Position): Position { Position(CanonFloat(m.x), CanonFloat(m.y), CanonFloat(m.z), 0) }

  lemma PositionRoundTrip(m: Position)
    ensures Merge(StepPosition, NEW_POSITION, WrittenPosition(m)) == Some(CanonPosition(m))
  {
    var c := CanonPosition(m);
    var w1 := [] + Opt(!IsZero(m.x), Fixed32(1, m.x));
    var w2 := w1 + Opt(!IsZero(m.y), Fixed32(2, m.y));
    MergeOpt(StepPosition, NEW_POSITION, [], NEW_POSITION, !IsZero(m.x), Fixed32(1, m.x), Position(c.x, 0, 0, 0));
    MergeOpt(StepPosition, NEW_POSITION, w1, Position(c.x, 0, 0, 0), !IsZero(m.y), Fixed32(2, m.y), Position(c.x, c.y, 0, 0));
    MergeOpt(StepPosition, NEW_POSITION, w2, Position(c.x, c.y, 0, 0), !IsZero(m.z), Fixed32(3, m.z), c);
  }

  // ---------------------------------------------------------------- Orientation

  function WrittenOrientation(m: Orientation): seq<byte> {
    [] + Opt(!IsZero(m.yaw), Fixed32(1, m.yaw)) + Opt(!IsZero(m.pitch), Fixed32(2, m.pitch)) + Opt(!IsZero(m.roll), Fixed32(3, m.roll))
  }

  function StepOrientation(m: Orientation, r: Record): Option<Orientation> {
    match r.num
    case 1 => (match ReadFloat(r) case None => None case Some(v) => Some(m.(yaw := v)))
    case 2 => (match ReadFloat(r) case None => None case Some(v) => Some(m.(pitch := v)))
    case 3 => (match ReadFloat(r) case None => None case Some(v) => Some(m.(roll := v)))
    case _ => Some(m)
  }

  function FillOrientation(m: Orientation): Orientation { m.(cachedSize := |WrittenOrientation(m)|) }

  function CanonOrientation(m: Orientation): Orientation {
    Orientation(CanonFloat(m.yaw), CanonFloat(m.pitch), CanonFloat(m.roll), 0)
  }

  lemma OrientationRoundTrip(m: Orientation)
    ensures Merge(StepOrientation, NEW_ORIENTATION, WrittenOrientation(m)) == Some(CanonOrientation(m))
  {
    var c := CanonOrientation(m);
    var w1 := [] + Opt(!IsZero(m.yaw), Fixed32(1, m.yaw));
    var w2 := w1 + Opt(!IsZero(m.pitch), Fixed32(2, m.pitch));
    var c1, c2 := Orientation(c.yaw, 0, 0, 0), Orientation(c.yaw, c.pitch, 0, 0);
    MergeOpt(StepOrientation, NEW_ORIENTATION, [], NEW_ORIENTATION, !IsZero(m.yaw), Fixed32(1, m.yaw), c1);
    MergeOpt(StepOrientation, NEW_ORIENTATION, w1, c1, !IsZero(m.pitch), Fixed32(2, m.pitch), c2);
    MergeOpt(StepOrientation, NEW_ORIENTATION, w2, c2, !IsZero(m.roll), Fixed32(3, m.roll), c);
  }

  // ---------------------------------------------------------------- Chip.Radio

  function WrittenRadio(m: Radio): seq<byte> {
    [] + Opt(m.state != UNKNOWN, Varint(1, StateValue(m.state)))
    + Opt(!IsZero(m.range), Fixed32(2, m.range))
    + Opt(m.txCount != 0, Varint(3, Int32Wire(m.txCount)))
    + Opt(m.rxCount != 0, Varint(4, Int32Wire(m.rxCount)))
  }

  function StepRadio(m: Radio, r: Record): Option<Radio> {
    match r.num
    case 1 => (match ReadState(r, m.state) case None => None case Some(v) => Some(m.(state := v)))
    case 2 => (match ReadFloat(r) case None => None case Some(v) => Some(m.(range := v)))
    case 3 => (match ReadInt32(r) case None => None case Some(v) => Some(m.(txCount := v)))
    case 4 => (match ReadInt32(r) case None => None case Some(v) => Some(m.(rxCount := v)))
    case _ => Some(m)
  }

  function FillRadio(m: Radio): Radio { m.(cachedSize := |WrittenRadio(m)|) }

  function CanonRadio(m: Radio): Radio { m.(range := CanonFloat(m.range), cachedSize := 0) }

  lemma RadioRoundTrip(m: Radio)
    ensures Merge(StepRadio, NEW_RADIO, WrittenRadio(m)) == Some(CanonRadio(m))
  {
    hide Merge, EncodeRecord;
    MergeNothing(StepRadio, NEW_RADIO);
    var c := CanonRadio(m);
    var r1, r2 := Varint(1, StateValue(m.state)), Fixed32(2, m.range);
    var r3, r4 := Varint(3, Int32Wire(m.txCount)), Varint(4, Int32Wire(m.rxCount));
    Int32RoundTrip(m.txCount);
    Int32RoundTrip(m.rxCount);
    var w1 := [] + Opt(m.state != UNKNOWN, r1);
    var w2 := w1 + Opt(!IsZero(m.range), r2);
    var w3 := w2 + Opt(m.txCount != 0, r3);
    var c1, c2, c3 := Radio(c.state, 0, 0, 0, 0), Radio(c.state, c.range, 0, 0, 0), Radio(c.state, c.range, c.txCount, 0, 0);
    MergeOpt(StepRadio, NEW_RADIO, [], NEW_RADIO, m.state != UNKNOWN, r1, c1);
    MergeOpt(StepRadio, NEW_RADIO, w1, c1, !IsZero(m.range), r2, c2);
    MergeOpt(StepRadio, NEW_RADIO, w2, c2, m.txCount != 0, r3, c3);
    MergeOpt(StepRadio, NEW_RADIO, w3, c3, m.rxCount != 0, r4, c);
  }

  // ---------------------------------------------------------------- Chip.Bluetooth

  function WrittenRadioField(num: nat, o: Option<Radio>): seq<byte> {
    match o case None => [] case Some(v) => EncodeLen(num, v.cachedSize, WrittenRadio(v))
  }

  function WrittenBluetooth(m: Bluetooth): seq<byte> {
    [] + WrittenRadioField(1, m.lowEnergy) + WrittenRadioField(2, m.classic)
  }

  function StepBluetooth(m: Bluetooth, r: Record): Option<Bluetooth> {
    match r.num
    case 1 => (match ReadMessage(StepRadio, GetOr(m.lowEnergy, NEW_RADIO), r)
               case None => None case Some(v) => Some(m.(lowEnergy := Some(v))))
    case 2 => (match ReadMessage(StepRadio, GetOr(m.classic, NEW_RADIO), r)
               case None => None case Some(v) => Some(m.(classic := Some(v))))
    case _ => Some(m)
  }

  /** Every cache below the message holds the size of what its own message writes. */
  predicate SizedRadio(m: Radio) { m.cachedSize == |WrittenRadio(m)| }

  predicate SizedBluetooth(m: Bluetooth) {
    && (m.lowEnergy.Some? ==> SizedRadio(m.lowEnergy.value))
    && (m.classic.Some? ==> SizedRadio(m.classic.value))
    && m.cachedSize == |WrittenBluetooth(m)|
  }

  function FillBluetooth(m: Bluetooth): Bluetooth {
    var f := m.(lowEnergy := MapOption(FillRadio, m.lowEnergy), classic := MapOption(FillRadio, m.classic));
    f.(cachedSize := |WrittenBluetooth(f)|)
  }

  function CanonBluetooth(m: Bluetooth): Bluetooth {
    Bluetooth(MapOption(CanonRadio, m.lowEnergy), MapOption(CanonRadio, m.classic), 0)
  }

  /** A nested message whose cache is right is one length-delimited record. */
  lemma MergeNested<M>(step: (M, Record) -> Option<M>, m: M, x: seq<byte>, mx: M, num: nat, payload: seq<byte>, my: M)
    requires Merge(step, m, x) == Some(mx) && 0 < num < 16 && |payload| < U32
    requires step(mx, Len(num, payload)) == Some(my)
    ensures Merge(step, m, x + EncodeLen(num, |payload|, payload)) == Some(my)
  {
    MergeField(step, m, x, mx, Len(num, payload));
  }

  lemma BluetoothRoundTrip(m: Bluetooth)
    requires SizedBluetooth(m) && |WrittenBluetooth(m)| < U32
    ensures Merge(StepBluetooth, NEW_BLUETOOTH, WrittenBluetooth(m)) == Some(CanonBluetooth(m))
  {
    var w1 := [] + WrittenRadioField(1, m.lowEnergy);
    var c1 := NEW_BLUETOOTH.(lowEnergy := MapOption(CanonRadio, m.lowEnergy));
    if m.lowEnergy.Some? {
      RadioRoundTrip(m.lowEnergy.value);
      MergeNested(StepBluetooth, NEW_BLUETOOTH, [], NEW_BLUETOOTH, 1, WrittenRadio(m.lowEnergy.value), c1);
    }
    assert Merge(StepBluetooth, NEW_BLUETOOTH, w1) == Some(c1);
    if m.classic.Some? {
      RadioRoundTrip(m.classic.value);
      MergeNested(StepBluetooth, NEW_BLUETOOTH, w1, c1, 2, WrittenRadio(m.classic.value), CanonBluetooth(m));
    } else {
      assert WrittenBluetooth(m) == w1;
    }
  }

  // ---------------------------------------------------------------- Chip

  function WrittenKind(k: Option<ChipKind>): seq<byte> {
    match k
    case None => []
    case Some(Bt(v)) => EncodeLen(5, v.cachedSize, WrittenBluetooth(v))
    case Some(Uwb(v)) => EncodeLen(6, v.cachedSize, WrittenRadio(v))
    case Some(Wifi(v)) => EncodeLen(7, v.cachedSize, WrittenRadio(v))
  }

  function WrittenChip(m: Chip): seq<byte> {
    [] + Opt(m.chipId != [], Len(1, m.chipId))
    + Opt(m.manufacturer != [], Len(2, m.manufacturer))
    + Opt(m.model != [], Len(3, m.model))
    + Opt(m.capture != UNKNOWN, Varint(4, StateValue(m.capture)))
    + WrittenKind(m.kind)
  }

  /** A oneof variant is read into a new message, so it replaces what the oneof held. */
  function StepChip(m: Chip, r: Record): Option<Chip> {
    match r.num
    case 1 => (match ReadText(r) case None => None case Some(v) => Some(m.(chipId := v)))
    case 2 => (match ReadText(r) case None => None case Some(v) => Some(m.(manufacturer := v)))
    case 3 => (match ReadText(r) case None => None case Some(v) => Some(m.(model := v)))
    case 4 => (match ReadState(r, m.capture) case None => None case Some(v) => Some(m.(capture := v)))
    case 5 => (match ReadMessage(StepBluetooth, NEW_BLUETOOTH, r) case None => None case Some(v) => Some(m.(kind := Some(Bt(v)))))
    case 6 => (match ReadMessage(StepRadio, NEW_RADIO, r) case None => None case Some(v) => Some(m.(kind := Some(Uwb(v)))))
    case 7 => (match ReadMessage(StepRadio, NEW_RADIO, r) case None => None case Some(v) => Some(m.(kind := Some(Wifi(v)))))
    case _ => Some(m)
  }

  predicate SizedKind(k: ChipKind) {
    match k
    case Bt(v) => SizedBluetooth(v)
    case Uwb(v) => SizedRadio(v)
    case Wifi(v) => SizedRadio(v)
  }

  predicate SizedChip(m: Chip) {
    (m.kind.Some? ==> SizedKind(m.kind.value)) && m.cachedSize == |WrittenChip(m)|
  }

  function FillKind(k: ChipKind): ChipKind {
    match k
    case Bt(v) => Bt(FillBluetooth(v))
    case Uwb(v) => Uwb(FillRadio(v))
    case Wifi(v) => Wifi(FillRadio(v))
  }

  function FillChip(m: Chip): Chip {
    var f := m.(kind := MapOption(FillKind, m.kind));
    f.(cachedSize := |WrittenChip(f)|)
  }

  function CanonKind(k: ChipKind): ChipKind {
    match k
    case Bt(v) => Bt(CanonBluetooth(v))
    case Uwb(v) => Uwb(CanonRadio(v))
    case Wifi(v) => Wifi(CanonRadio(v))
  }

  function CanonChip(m: Chip): Chip { m.(kind := MapOption(CanonKind, m.kind), cachedSize := 0) }

  lemma ChipRoundTrip(m: Chip)
    requires SizedChip(m) && |WrittenChip(m)| < U32
    ensures Merge(StepChip, NEW_CHIP, WrittenChip(m)) == Some(CanonChip(m))
  {
    hide Merge, ReadMessage, EncodeRecord, WrittenKind;
    MergeNothing(StepChip, NEW_CHIP);
    var w1 := [] + Opt(m.chipId != [], Len(1, m.chipId));
    var w2 := w1 + Opt(m.manufacturer != [], Len(2, m.manufacturer));
    var w3 := w2 + Opt(m.model != [], Len(3, m.model));
    var w4 := w3 + Opt(m.capture != UNKNOWN, Varint(4, StateValue(m.capture)));
    var c1 := NEW_CHIP.(chipId := m.chipId);
    var c2 := c1.(manufacturer := m.manufacturer);
    var c3 := c2.(model := m.model);
    var c4 := c3.(capture := m.capture);
    assert WrittenChip(m) == w4 + WrittenKind(m.kind);
    assert |w1| <= |w2| <= |w3| <= |w4| <= |WrittenChip(m)|;
    OptLenSize(m.chipId != [], 1, m.chipId);
    OptLenSize(m.manufacturer != [], 2, m.manufacturer);
    OptLenSize(m.model != [], 3, m.model);
    MergeOpt(StepChip, NEW_CHIP, [], NEW_CHIP, m.chipId != [], Len(1, m.chipId), c1);
    MergeOpt(StepChip, NEW_CHIP, w1, c1, m.manufacturer != [], Len(2, m.manufacturer), c2);
    MergeOpt(StepChip, NEW_CHIP, w2, c2, m.model != [], Len(3, m.model), c3);
    MergeOpt(StepChip, NEW_CHIP, w3, c3, m.capture != UNKNOWN, Varint(4, StateValue(m.capture)), c4);
    MergeKind(m.kind, w4, c4);
  }

  lemma MergeKind(k: Option<ChipKind>, w: seq<byte>, c: Chip)
    requires Merge(StepChip, NEW_CHIP, w) == Some(c) && c.kind == None
    requires k.Some? ==> SizedKind(k.value)
    requires |WrittenKind(k)| < U32
    ensures Merge(StepChip, NEW_CHIP, w + WrittenKind(k)) == Some(c.(kind := MapOption(CanonKind, k)))
  {
    if k == None {
      assert w + [] == w;
    } else {
      StepKind(k.value, c);
      var r := KindRecord(k.value);
      MergeNested(StepChip, NEW_CHIP, w, c, r.num, r.payload, c.(kind := MapOption(CanonKind, k)));
    }
  }

  function KindRecord(k: ChipKind): (r: Record)
    ensures r.Len?
  {
    match k
    case Bt(v) => Len(5, WrittenBluetooth(v))
    case Uwb(v) => Len(6, WrittenRadio(v))
    case Wifi(v) => Len(7, WrittenRadio(v))
  }

  lemma StepKind(k: ChipKind, c: Chip)
    requires SizedKind(k) && |KindRecord(k).payload| < U32
    ensures StepChip(c, KindRecord(k)) == Some(c.(kind := Some(CanonKind(k))))
  {
    hide Merge;
    match k
    case Bt(v) => BluetoothRoundTrip(v);
    case Uwb(v) => RadioRoundTrip(v);
    case Wifi(v) => RadioRoundTrip(v);
  }

  // ---------------------------------------------------------------- Device

  function WrittenChips(cs: seq<Chip>): seq<byte> {
    if cs == [] then []
    else var c := cs[|cs| - 1]; WrittenChips(cs[..|cs| - 1]) + EncodeLen(6, c.cachedSize, WrittenChip(c))
  }

  function WrittenPositionField(o: Option<Position>): seq<byte> {
    match o case None => [] case Some(v) => EncodeLen(4, v.cachedSize, WrittenPosition(v))
  }

  function WrittenOrientationField(o: Option<Orientation>): seq<byte> {
    match o case None => [] case Some(v) => EncodeLen(5, v.cachedSize, WrittenOrientation(v))
  }

  function WrittenDevice(m: Device): seq<byte> {
    [] + Opt(m.deviceSerial != [], Len(1, m.deviceSerial))
    + Opt(m.name != [], Len(2, m.name))
    + Opt(m.visible, Varint(3, BoolWire(m.visible)))
    + WrittenPositionField(m.position)
    + WrittenOrientationField(m.orientation)
    + WrittenChips(m.chips)
  }

  function StepDevice(m: Device, r: Record): Option<Device> {
    match r.num
    case 1 => (match ReadText(r) case None => None case Some(v) => Some(m.(deviceSerial := v)))
    case 2 => (match ReadText(r) case None => None case Some(v) => Some(m.(name := v)))
    case 3 => (match ReadBool(r) case None => None case Some(v) => Some(m.(visible := v)))
    case 4 => (match ReadMessage(StepPosition, GetOr(m.position, NEW_POSITION), r)
               case None => None case Some(v) => Some(m.(position := Some(v))))
    case 5 => (match ReadMessage(StepOrientation, GetOr(m.orientation, NEW_ORIENTATION), r)
               case None => None case Some(v) => Some(m.(orientation := Some(v))))
    case 6 => (match ReadMessage(StepChip, NEW_CHIP, r) case None => None case Some(v) => Some(m.(chips := m.chips + [v])))
    case _ => Some(m)
  }

  predicate SizedDevice(m: Device) {
    && (m.position.Some? ==> m.position.value.cachedSize == |WrittenPosition(m.position.value)|)
    && (m.orientation.Some? ==> m.orientation.value.cachedSize == |WrittenOrientation(m.orientation.value)|)
    && (forall i :: 0 <= i < |m.chips| ==> SizedChip(m.chips[i]))
    && m.cachedSize == |WrittenDevice(m)|
  }

  function FillDevice(m: Device): Device {
    var f := m.(position := MapOption(FillPosition, m.position),
                orientation := MapOption(FillOrientation, m.orientation),
                chips := MapSeq(FillChip, m.chips));
    f.(cachedSize := |WrittenDevice(f)|)
  }

  function CanonDevice(m: Device): Device {
    m.(position := MapOption(CanonPosition, m.position),
       orientation := MapOption(CanonOrientation, m.orientation),
       chips := MapSeq(CanonChip, m.chips), cachedSize := 0)
  }

  // What one nested record does to a device, given what its payload decodes to.
  lemma StepNested(d: Device, payload: seq<byte>)
    ensures forall v :: d.position == None && Merge(StepPosition, NEW_POSITION, payload) == Some(v)
                    ==> StepDevice(d, Len(4, payload)) == Some(d.(position := Some(v)))
    ensures forall v :: d.orientation == None && Merge(StepOrientation, NEW_ORIENTATION, payload) == Some(v)
                    ==> StepDevice(d, Len(5, payload)) == Some(d.(orientation := Some(v)))
    ensures forall v :: Merge(StepChip, NEW_CHIP, payload) == Some(v)
                    ==> StepDevice(d, Len(6, payload)) == Some(d.(chips := d.chips + [v]))
  {
  }

  lemma {:induction false} MergeChips(cs: seq<Chip>, w: seq<byte>, d: Device)
    requires Merge(StepDevice, NEW_DEVICE, w) == Some(d) && d.chips == []
    requires |WrittenChips(cs)| < U32
    requires forall i :: 0 <= i < |cs| ==> SizedChip(cs[i])
    ensures Merge(StepDevice, NEW_DEVICE, w + WrittenChips(cs)) == Some(d.(chips := MapSeq(CanonChip, cs)))
  {
    hide Merge, StepDevice, WrittenChip;
    if cs == [] {
      assert w + [] == w;
    } else {
      var init, c := cs[..|cs| - 1], cs[|cs| - 1];
      MergeChips(init, w, d);
      var di := d.(chips := MapSeq(CanonChip, init));
      var dc := d.(chips := MapSeq(CanonChip, cs));
      ChipRoundTrip(c);
      StepNested(di, WrittenChip(c));
      MergeNested(StepDevice, NEW_DEVICE, w + WrittenChips(init), di, 6, WrittenChip(c), dc);
      assert w + WrittenChips(cs) == w + WrittenChips(init) + EncodeLen(6, c.cachedSize, WrittenChip(c));
    }
  }

  lemma MergePosition(o: Option<Position>, w: seq<byte>, d: Device)
    requires o.Some? ==> o.value.cachedSize == |WrittenPosition(o.value)|
    requires |WrittenPositionField(o)| < U32
    requires Merge(StepDevice, NEW_DEVICE, w) == Some(d) && d.position == None
    ensures Merge(StepDevice, NEW_DEVICE, w + WrittenPositionField(o)) == Some(d.(position := MapOption(CanonPosition, o)))
  {
    hide Merge, StepDevice, WrittenPosition;
    if o.Some? {
      var p := WrittenPosition(o.value);
      PositionRoundTrip(o.value);
      StepNested(d, p);
      MergeNested(StepDevice, NEW_DEVICE, w, d, 4, p, d.(position := MapOption(CanonPosition, o)));
    } else {
      assert w + [] == w;
    }
  }

  lemma MergeOrientation(o: Option<Orientation>, w: seq<byte>, d: Device)
    requires o.Some? ==> o.value.cachedSize == |WrittenOrientation(o.value)|
    requires |WrittenOrientationField(o)| < U32
    requires Merge(StepDevice, NEW_DEVICE, w) == Some(d) && d.orientation == None
    ensures Merge(StepDevice, NEW_DEVICE, w + WrittenOrientationField(o)) == Some(d.(orientation := MapOption(CanonOrientation, o)))
  {
    hide Merge, StepDevice, WrittenOrientation;
    if o.Some? {
      var p := WrittenOrientation(o.value);
      OrientationRoundTrip(o.value);
      StepNested(d, p);
      MergeNested(StepDevice, NEW_DEVICE, w, d, 5, p, d.(orientation := MapOption(CanonOrientation, o)));
    } else {
      assert w + [] == w;
    }
  }

  lemma DeviceRoundTrip(m: Device)
    requires SizedDevice(m) && |WrittenDevice(m)| < U32
    ensures Merge(StepDevice, NEW_DEVICE, WrittenDevice(m)) == Some(CanonDevice(m))
  {
    hide Merge, ReadMessage, EncodeRecord, WrittenChips;
    MergeNothing(StepDevice, NEW_DEVICE);
    var w1 := [] + Opt(m.deviceSerial != [], Len(1, m.deviceSerial));
    var w2 := w1 + Opt(m.name != [], Len(2, m.name));
    var w3 := w2 + Opt(m.visible, Varint(3, BoolWire(m.visible)));
    var w4 := w3 + WrittenPositionField(m.position);
    var w5 := w4 + WrittenOrientationField(m.orientation);
    var c1 := NEW_DEVICE.(deviceSerial := m.deviceSerial);
    var c2 := c1.(name := m.name);
    var c3 := c2.(visible := m.visible);
    assert WrittenDevice(m) == w5 + WrittenChips(m.chips);
    assert |w1| <= |w2| <= |w3| <= |w4| <= |w5| <= |WrittenDevice(m)|;
    OptLenSize(m.deviceSerial != [], 1, m.deviceSerial);
    OptLenSize(m.name != [], 2, m.name);
    MergeOpt(StepDevice, NEW_DEVICE, [], NEW_DEVICE, m.deviceSerial != [], Len(1, m.deviceSerial), c1);
    MergeOpt(StepDevice, NEW_DEVICE, w1, c1, m.name != [], Len(2, m.name), c2);
    MergeOpt(StepDevice, NEW_DEVICE, w2, c2, m.visible, Varint(3, BoolWire(m.visible)), c3);
    MergePosition(m.position, w3, c3);
    var c4 := c3.(position := MapOption(CanonPosition, m.position));
    MergeOrientation(m.orientation, w4, c4);
    var c5 := c4.(orientation := MapOption(CanonOrientation, m.orientation));
    MergeChips(m.chips, w5, c5);
  }

  // ---------------------------------------------------------------- Scene

  function WrittenDevices(ds: seq<Device>): seq<byte> {
    if ds == [] then []
    else var d := ds[|ds| - 1]; WrittenDevices(ds[..|ds| - 1]) + EncodeLen(1, d.cachedSize, WrittenDevice(d))
  }

  function WrittenScene(m: Scene): seq<byte> { WrittenDevices(m.devices) }

  function StepScene(m: Scene, r: Record): Option<Scene> {
    match r.num
    case 1 => (match ReadMessage(StepDevice, NEW_DEVICE, r) case None => None case Some(v) => Some(m.(devices := m.devices + [v])))
    case _ => Some(m)
  }

  predicate SizedScene(m: Scene) {
    (forall i :: 0 <= i < |m.devices| ==> SizedDevice(m.devices[i])) && m.cachedSize == |WrittenScene(m)|
  }

  function FillScene(m: Scene): Scene {
    var f := m.(devices := MapSeq(FillDevice, m.devices));
    f.(cachedSize := |WrittenScene(f)|)
  }

  function CanonScene(m: Scene): Scene { Scene(MapSeq(CanonDevice, m.devices), 0) }

  lemma {:induction false} MergeDevices(ds: seq<Device>)
    requires forall i :: 0 <= i < |ds| ==> SizedDevice(ds[i])
    ensures |WrittenDevices(ds)| < U32 ==>
              Merge(StepScene, NEW_SCENE, WrittenDevices(ds)) == Some(Scene(MapSeq(CanonDevice, ds), 0))
  {
    hide Merge, WrittenDevice;
    MergeNothing(StepScene, NEW_SCENE);
    if ds != [] && |WrittenDevices(ds)| < U32 {
      var init, d := ds[..|ds| - 1], ds[|ds| - 1];
      MergeDevices(init);
      var si, sd := Scene(MapSeq(CanonDevice, init), 0), Scene(MapSeq(CanonDevice, ds), 0);
      DeviceRoundTrip(d);
      MergeNested(StepScene, NEW_SCENE, WrittenDevices(init), si, 1, WrittenDevice(d), sd);
    }
  }

  // ---------------------------------------------------------------- UpdateDeviceRequest

  function WrittenRequest(m: UpdateDeviceRequest): seq<byte> {
    match m.device case None => [] case Some(d) => EncodeLen(2, d.cachedSize, WrittenDevice(d))
  }

  function StepRequest(m: UpdateDeviceRequest, r: Record): Option<UpdateDeviceRequest> {
    match r.num
    case 2 => (match ReadMessage(StepDevice, GetOr(m.device, NEW_DEVICE), r)
               case None => None case Some(v) => Some(m.(device := Some(v))))
    case _ => Some(m)
  }

  function FillRequest(m: UpdateDeviceRequest): UpdateDeviceRequest {
    var f := m.(device := MapOption(FillDevice, m.device));
    f.(cachedSize := |WrittenRequest(f)|)
  }

  function CanonRequest(m: UpdateDeviceRequest): UpdateDeviceRequest {
    UpdateDeviceRequest(MapOption(CanonDevice, m.device), 0)
  }

  // ---------------------------------------------------------------- SetPacketCaptureRequest

  function WrittenCapture(m: CaptureRequest): seq<byte> {
    [] + Opt(m.capture, Varint(1, BoolWire(m.capture))) + Opt(m.deviceSerial != [], Len(2, m.deviceSerial))
  }

  function StepCapture(m: CaptureRequest, r: Record): Option<CaptureRequest> {
    match r.num
    case 1 => (match ReadBool(r) case None => None case Some(v) => Some(m.(capture := v)))
    case 2 => (match ReadText(r) case None => None case Some(v) => Some(m.(deviceSerial := v)))
    case _ => Some(m)
  }

  function FillCapture(m: CaptureRequest): CaptureRequest { m.(cachedSize := |WrittenCapture(m)|) }
}

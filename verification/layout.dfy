/**
 The bytes of every message, written out tag by tag as model.proto and frontend.proto number their fields, and what the
 readers do with records that the writers do not produce.
 */
module Layout {
  import opened Bytes
  import opened Wire
  import opened Messages

  /** A field that is there only if `c` holds: its tag byte and what follows it. */
  function Tagged(c: bool, tag: byte, value: seq<byte>): seq<byte> {
    if c then [tag] + value else []
  }

  /** Length prefix and payload. */
  function Sized(size: nat, payload: seq<byte>): seq<byte> { EncodeVarint(size) + payload }

  function FourBytes(x: f32): seq<byte> { [x % 256, x / 256 % 256, x / 65536 % 256, x / 16777216] }

  /** ON is 1 and OFF is 2. */
  function StateByte(s: State): seq<byte> { if s == ON then [1] else [2] }

  /** Two's complement in 64 bits. */
  function CountBytes(v: i32): seq<byte> { EncodeVarint(if v < 0 then 0x1_0000_0000_0000_0000 + v else v) }

  lemma TagByte(num: nat)
    requires 0 < num < 16
    ensures EncodeTag(num, WireTypeVarint) == [8 * num]
    ensures EncodeTag(num, WireTypeLengthDelimited) == [8 * num + 2]
    ensures EncodeTag(num, WireTypeFixed32) == [8 * num + 5]
  {
  }

  lemma OptVarint(c: bool, num: nat, v: u64)
    requires 0 < num < 16
    ensures Opt(c, Varint(num, v)) == Tagged(c, 8 * num, EncodeVarint(v))
  {
    TagByte(num);
  }

  lemma OptFloat(num: nat, x: f32)
    requires 0 < num < 16
    ensures Opt(!IsZero(x), Fixed32(num, x)) == Tagged(x % 0x8000_0000 != 0, 8 * num + 5, FourBytes(x))
  {
    TagByte(num);
  }

  lemma OptText(num: nat, t: Text)
    requires 0 < num < 16
    ensures Opt(t != [], Len(num, t)) == Tagged(|t| > 0, 8 * num + 2, Sized(|t|, t))
  {
    TagByte(num);
  }

  lemma NestedBytes(num: nat, size: nat, payload: seq<byte>)
    requires 0 < num < 16
    ensures EncodeLen(num, size, payload) == [8 * num + 2] + Sized(size, payload)
  {
    TagByte(num);
  }

  /** Fields one after the other. */
  function Fields(a: seq<byte>, b: seq<byte>, c: seq<byte>, d: seq<byte>): seq<byte> { [] + a + b + c + d }

  // ---------------------------------------------------------------- what is written

  lemma PositionLayout(m: Position)
    ensures WrittenPosition(m)
            == [] + Tagged(m.x % 0x8000_0000 != 0, 0x0D, FourBytes(m.x)) + Tagged(m.y % 0x8000_0000 != 0, 0x15, FourBytes(m.y))
             + Tagged(m.z % 0x8000_0000 != 0, 0x1D, FourBytes(m.z))
  {
    hide Opt, Tagged, FourBytes, IsZero;
    OptFloat(1, m.x);
    OptFloat(2, m.y);
    OptFloat(3, m.z);
  }

  lemma OrientationLayout(m: Orientation)
    ensures WrittenOrientation(m)
            == [] + Tagged(m.yaw % 0x8000_0000 != 0, 0x0D, FourBytes(m.yaw)) + Tagged(m.pitch % 0x8000_0000 != 0, 0x15, FourBytes(m.pitch))
             + Tagged(m.roll % 0x8000_0000 != 0, 0x1D, FourBytes(m.roll))
  {
    hide Opt, Tagged, FourBytes, IsZero;
    OptFloat(1, m.yaw);
    OptFloat(2, m.pitch);
    OptFloat(3, m.roll);
  }

  lemma OptState(num: nat, s: State)
    requires 0 < num < 16
    ensures Opt(s != UNKNOWN, Varint(num, StateValue(s))) == Tagged(s != UNKNOWN, 8 * num, StateByte(s))
  {
    OptVarint(s != UNKNOWN, num, StateValue(s));
  }

  lemma OptCount(num: nat, v: i32)
    requires 0 < num < 16
    ensures Opt(v != 0, Varint(num, Int32Wire(v))) == Tagged(v != 0, 8 * num, CountBytes(v))
  {
    OptVarint(v != 0, num, Int32Wire(v));
  }

  lemma OptTrue(num: nat, b: bool)
    requires 0 < num < 16
    ensures Opt(b, Varint(num, BoolWire(b))) == Tagged(b, 8 * num, [1])
  {
    OptVarint(b, num, BoolWire(b));
  }

  lemma RadioFields(m: Radio)
    ensures WrittenRadio(m)
            == Fields(Opt(m.state != UNKNOWN, Varint(1, StateValue(m.state))), Opt(!IsZero(m.range), Fixed32(2, m.range)),
                      Opt(m.txCount != 0, Varint(3, Int32Wire(m.txCount))), Opt(m.rxCount != 0, Varint(4, Int32Wire(m.rxCount))))
  {
    hide Opt, IsZero, Int32Wire, StateValue;
  }

  lemma RadioLayout(m: Radio)
    ensures WrittenRadio(m)
            == Fields(Tagged(m.state != UNKNOWN, 0x08, StateByte(m.state)), Tagged(m.range % 0x8000_0000 != 0, 0x15, FourBytes(m.range)),
                      Tagged(m.txCount != 0, 0x18, CountBytes(m.txCount)), Tagged(m.rxCount != 0, 0x20, CountBytes(m.rxCount)))
  {
    hide *;
    RadioFields(m);
    OptState(1, m.state);
    OptFloat(2, m.range);
    OptCount(3, m.txCount);
    OptCount(4, m.rxCount);
  }

  /** A negative count takes eleven bytes, tag included, in what is written and in the size. */
  lemma NegativeCounts(m: Radio)
    ensures m.txCount < 0 ==> |WrittenRadio(m)| == |WrittenRadio(m.(txCount := 0))| + 11
    ensures m.rxCount < 0 ==> |WrittenRadio(m)| == |WrittenRadio(m.(rxCount := 0))| + 11
    ensures m.txCount < 0 ==> FillRadio(m).cachedSize == FillRadio(m.(txCount := 0)).cachedSize + 11
    ensures m.rxCount < 0 ==> FillRadio(m).cachedSize == FillRadio(m.(rxCount := 0)).cachedSize + 11
  {
    Int32IsSignExtended(m.txCount);
    Int32IsSignExtended(m.rxCount);
    OptVarint(m.txCount != 0, 3, Int32Wire(m.txCount));
    OptVarint(m.rxCount != 0, 4, Int32Wire(m.rxCount));
    hide Int32Wire, EncodeVarint, StateValue, IsZero;
  }

  function RadioField(tag: byte, o: Option<Radio>): seq<byte> {
    match o case None => [] case Some(v) => [tag] + Sized(v.cachedSize, WrittenRadio(v))
  }

  lemma NestedRadio(num: nat, o: Option<Radio>)
    requires 0 < num < 16
    ensures WrittenRadioField(num, o) == RadioField(8 * num + 2, o)
  {
    hide WrittenRadio, EncodeLen, Sized;
    if o.Some? { NestedBytes(num, o.value.cachedSize, WrittenRadio(o.value)); }
  }

  lemma BluetoothLayout(m: Bluetooth)
    ensures WrittenBluetooth(m) == [] + RadioField(0x0A, m.lowEnergy) + RadioField(0x12, m.classic)
  {
    hide RadioField, WrittenRadioField;
    NestedRadio(1, m.lowEnergy);
    NestedRadio(2, m.classic);
  }

  lemma KindLayout(k: Option<ChipKind>)
    ensures WrittenKind(k)
            == match k
               case None => []
               case Some(Bt(v)) => [0x2A] + Sized(v.cachedSize, WrittenBluetooth(v))
               case Some(Uwb(v)) => [0x32] + Sized(v.cachedSize, WrittenRadio(v))
               case Some(Wifi(v)) => [0x3A] + Sized(v.cachedSize, WrittenRadio(v))
  {
    hide EncodeLen, WrittenBluetooth, WrittenRadio, Sized;
    match k
    case Some(Bt(v)) => NestedBytes(5, v.cachedSize, WrittenBluetooth(v));
    case Some(Uwb(v)) => NestedBytes(6, v.cachedSize, WrittenRadio(v));
    case Some(Wifi(v)) => NestedBytes(7, v.cachedSize, WrittenRadio(v));
    case None =>
  }

  lemma ChipFields(m: Chip)
    ensures WrittenChip(m)
            == Fields(Opt(m.chipId != [], Len(1, m.chipId)), Opt(m.manufacturer != [], Len(2, m.manufacturer)),
                      Opt(m.model != [], Len(3, m.model)), Opt(m.capture != UNKNOWN, Varint(4, StateValue(m.capture))))
             + WrittenKind(m.kind)
  {
    hide Opt, StateValue, WrittenKind;
  }

  lemma ChipLayout(m: Chip)
    ensures WrittenChip(m)
            == Fields(Tagged(|m.chipId| > 0, 0x0A, Sized(|m.chipId|, m.chipId)),
                      Tagged(|m.manufacturer| > 0, 0x12, Sized(|m.manufacturer|, m.manufacturer)),
                      Tagged(|m.model| > 0, 0x1A, Sized(|m.model|, m.model)),
                      Tagged(m.capture != UNKNOWN, 0x20, StateByte(m.capture)))
             + WrittenKind(m.kind)
  {
    hide *;
    ChipFields(m);
    OptText(1, m.chipId);
    OptText(2, m.manufacturer);
    OptText(3, m.model);
    OptState(4, m.capture);
  }

  function PositionField(o: Option<Position>): seq<byte> {
    match o case None => [] case Some(v) => [0x22] + Sized(v.cachedSize, WrittenPosition(v))
  }

  function OrientationField(o: Option<Orientation>): seq<byte> {
    match o case None => [] case Some(v) => [0x2A] + Sized(v.cachedSize, WrittenOrientation(v))
  }

  lemma PositionFieldLayout(o: Option<Position>)
    ensures WrittenPositionField(o) == PositionField(o)
  {
    hide EncodeLen, WrittenPosition, Sized;
    if o.Some? { NestedBytes(4, o.value.cachedSize, WrittenPosition(o.value)); }
  }

  lemma OrientationFieldLayout(o: Option<Orientation>)
    ensures WrittenOrientationField(o) == OrientationField(o)
  {
    hide EncodeLen, WrittenOrientation, Sized;
    if o.Some? { NestedBytes(5, o.value.cachedSize, WrittenOrientation(o.value)); }
  }

  lemma DeviceFields(m: Device)
    ensures WrittenDevice(m)
            == Fields(Opt(m.deviceSerial != [], Len(1, m.deviceSerial)), Opt(m.name != [], Len(2, m.name)),
                      Opt(m.visible, Varint(3, BoolWire(m.visible))), WrittenPositionField(m.position))
             + WrittenOrientationField(m.orientation) + WrittenChips(m.chips)
  {
    hide Opt, BoolWire, WrittenPositionField, WrittenOrientationField, WrittenChips;
  }

  lemma DeviceLayout(m: Device)
    ensures WrittenDevice(m)
            == Fields(Tagged(|m.deviceSerial| > 0, 0x0A, Sized(|m.deviceSerial|, m.deviceSerial)),
                      Tagged(|m.name| > 0, 0x12, Sized(|m.name|, m.name)),
                      Tagged(m.visible, 0x18, [1]), PositionField(m.position))
             + OrientationField(m.orientation) + WrittenChips(m.chips)
  {
    hide *;
    DeviceFields(m);
    OptText(1, m.deviceSerial);
    OptText(2, m.name);
    OptTrue(3, m.visible);
    PositionFieldLayout(m.position);
    OrientationFieldLayout(m.orientation);
  }

  /** Repeated messages lie one after the other, in order. */
  lemma RepeatedLayout(cs: seq<Chip>, c: Chip, ds: seq<Device>, d: Device)
    ensures WrittenChips([]) == [] && WrittenChips(cs + [c]) == WrittenChips(cs) + ([0x32] + Sized(c.cachedSize, WrittenChip(c)))
    ensures WrittenDevices([]) == [] && WrittenDevices(ds + [d]) == WrittenDevices(ds) + ([0x0A] + Sized(d.cachedSize, WrittenDevice(d)))
  {
    hide EncodeLen, Sized, WrittenChip, WrittenDevice;
    NestedBytes(6, c.cachedSize, WrittenChip(c));
    NestedBytes(1, d.cachedSize, WrittenDevice(d));
    assert (cs + [c])[..|cs|] == cs && (ds + [d])[..|ds|] == ds;
  }

  lemma RequestLayout(m: UpdateDeviceRequest)
    ensures WrittenRequest(m) == match m.device case None => [] case Some(d) => [0x12] + Sized(d.cachedSize, WrittenDevice(d))
  {
    hide EncodeLen, Sized, WrittenDevice;
    if m.device.Some? { NestedBytes(2, m.device.value.cachedSize, WrittenDevice(m.device.value)); }
  }

  lemma CaptureLayout(m: CaptureRequest)
    ensures WrittenCapture(m)
            == [] + Tagged(m.capture, 0x08, [1]) + Tagged(|m.deviceSerial| > 0, 0x12, Sized(|m.deviceSerial|, m.deviceSerial))
  {
    hide Opt, Tagged, Sized, BoolWire;
    OptTrue(1, m.capture);
    OptText(2, m.deviceSerial);
  }

  // ---------------------------------------------------------------- what is read

  /** A field of another wire type is an error, an unknown field or enum value is passed over. */
  lemma RadioReads(m: Radio, r: Record)
    ensures StepRadio(m, r) == None <==> (r.num in {1, 3, 4} && !r.Varint?) || (r.num == 2 && !r.Fixed32?)
    ensures r.num !in {1, 2, 3, 4} ==> StepRadio(m, r) == Some(m)
    ensures forall v: u64 :: v % U32 > 2 ==> StepRadio(m, Varint(1, v)) == Some(m)
  {
  }

  lemma PlacementReads(p: Position, o: Orientation, r: Record)
    ensures StepPosition(p, r) == None <==> r.num in {1, 2, 3} && !r.Fixed32?
    ensures StepOrientation(o, r) == None <==> r.num in {1, 2, 3} && !r.Fixed32?
    ensures r.num !in {1, 2, 3} ==> StepPosition(p, r) == Some(p) && StepOrientation(o, r) == Some(o)
  {
  }

  predicate GoodText(r: Record) { r.Len? && ValidUtf8(r.payload) }

  lemma BluetoothReads(m: Bluetooth, r: Record)
    ensures StepBluetooth(m, r) == None
            <==> || (r.num == 1 && !(r.Len? && Merge(StepRadio, GetOr(m.lowEnergy, NEW_RADIO), r.payload).Some?))
                 || (r.num == 2 && !(r.Len? && Merge(StepRadio, GetOr(m.classic, NEW_RADIO), r.payload).Some?))
    ensures r.num !in {1, 2} ==> StepBluetooth(m, r) == Some(m)
  {
    hide Merge;
  }

  lemma ChipReads(m: Chip, r: Record)
    ensures StepChip(m, r) == None
            <==> || (r.num in {1, 2, 3} && !GoodText(r))
                 || (r.num == 4 && !r.Varint?)
                 || (r.num == 5 && !(r.Len? && Merge(StepBluetooth, NEW_BLUETOOTH, r.payload).Some?))
                 || (r.num in {6, 7} && !(r.Len? && Merge(StepRadio, NEW_RADIO, r.payload).Some?))
    ensures r.num !in {1, 2, 3, 4, 5, 6, 7} ==> StepChip(m, r) == Some(m)
    ensures forall v: u64 :: v % U32 > 2 ==> StepChip(m, Varint(4, v)) == Some(m)
  {
    hide Merge;
  }

  lemma DeviceReads(m: Device, r: Record)
    ensures StepDevice(m, r) == None
            <==> || (r.num in {1, 2} && !GoodText(r))
                 || (r.num == 3 && !r.Varint?)
                 || (r.num == 4 && !(r.Len? && Merge(StepPosition, GetOr(m.position, NEW_POSITION), r.payload).Some?))
                 || (r.num == 5 && !(r.Len? && Merge(StepOrientation, GetOr(m.orientation, NEW_ORIENTATION), r.payload).Some?))
                 || (r.num == 6 && !(r.Len? && Merge(StepChip, NEW_CHIP, r.payload).Some?))
    ensures r.num !in {1, 2, 3, 4, 5, 6} ==> StepDevice(m, r) == Some(m)
    ensures forall v: u64 :: v < U32 ==> StepDevice(m, Varint(3, v)) == Some(m.(visible := v > 0))
  {
    hide Merge;
  }

  lemma TopLevelReads(s: Scene, q: UpdateDeviceRequest, c: CaptureRequest, r: Record)
    ensures StepScene(s, r) == None <==> r.num == 1 && !(r.Len? && Merge(StepDevice, NEW_DEVICE, r.payload).Some?)
    ensures StepRequest(q, r) == None <==> r.num == 2 && !(r.Len? && Merge(StepDevice, GetOr(q.device, NEW_DEVICE), r.payload).Some?)
    ensures StepCapture(c, r) == None <==> (r.num == 1 && !r.Varint?) || (r.num == 2 && !GoodText(r))
    ensures (r.num != 1 ==> StepScene(s, r) == Some(s)) && (r.num != 2 ==> StepRequest(q, r) == Some(q))
    ensures r.num !in {1, 2} ==> StepCapture(c, r) == Some(c)
  {
    hide Merge;
  }
}

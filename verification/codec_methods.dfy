/**
 The generated methods themselves. A message is an owned value in the original, so `&mut self` is an in-out
 parameter here; the streams are objects. Sizes wrap at 32 bits as `my_size: u32` does.
 */
module CodecMethods {
  import opened Bytes
  import opened Wire
  import opened Messages
  import opened Codec
  import opened Streams

  function Add32(a: nat, b: nat): (r: nat)
    ensures a + b < U32 ==> r == a + b
  {
    (a + b) % U32
  }

  /** `string_size`: tag, length prefix and bytes. */
  function TextSize(t: Text): nat { 1 + VarintSize(|t|) + |t| }

  /** `enum_size` and `value_size`. */
  function ValueSize(w: u64): nat { 1 + VarintSize(w) }

  /** What a nested message of `len` bytes adds. */
  function NestedSize(len: nat): (r: nat)
    ensures 1 + VarintSize(len) + len < U32 ==> r == 1 + VarintSize(len) + len
  {
    Add32(1 + VarintSize(len), len)
  }

  lemma Assoc(a: seq<byte>, b: seq<byte>, c: seq<byte>)
    ensures a + b + c == a + (b + c)
  {
  }

  /** `w` followed by `piece`: after `o`, it lies there whichever way it is read. */
  ghost function Append(o: seq<byte>, w: seq<byte>, piece: seq<byte>): (r: seq<byte>)
    ensures r == w + piece && o + r == o + w + piece
  {
    Assoc(o, w, piece);
    w + piece
  }

  lemma NestedPiece(o: seq<byte>, num: nat, size: nat, payload: seq<byte>)
    ensures o + EncodeTag(num, WireTypeLengthDelimited) + EncodeVarint(size) + payload == o + EncodeLen(num, size, payload)
  {
  }

  // ---------------------------------------------------------------- compute_size

  /** Bytes of a nested record whose cache is right, and of the payload in it. */
  lemma NestedBytes(num: nat, payload: seq<byte>)
    requires 0 < num < 16
    ensures |EncodeLen(num, |payload|, payload)| >= |payload|
    ensures |payload| < U32 ==> |EncodeLen(num, |payload|, payload)| == 1 + VarintSize(|payload|) + |payload|
  {
    if |payload| < U32 { EncodeRecordSize(Len(num, payload)); }
  }

  method ComputeSizePosition(m: Position) returns (r: Position, mySize: nat)
    ensures FillPosition(m).cachedSize < U32 ==> r == FillPosition(m) && mySize == r.cachedSize
  {
    OptSize(!IsZero(m.x), Fixed32(1, m.x));
    OptSize(!IsZero(m.y), Fixed32(2, m.y));
    OptSize(!IsZero(m.z), Fixed32(3, m.z));
    hide Opt, Add32;
    mySize := 0;
    if !IsZero(m.x) { mySize := Add32(mySize, 5); }
    if !IsZero(m.y) { mySize := Add32(mySize, 5); }
    if !IsZero(m.z) { mySize := Add32(mySize, 5); }
    r := m.(cachedSize := mySize);
  }

  method ComputeSizeOrientation(m: Orientation) returns (r: Orientation, mySize: nat)
    ensures FillOrientation(m).cachedSize < U32 ==> r == FillOrientation(m) && mySize == r.cachedSize
  {
    OptSize(!IsZero(m.yaw), Fixed32(1, m.yaw));
    OptSize(!IsZero(m.pitch), Fixed32(2, m.pitch));
    OptSize(!IsZero(m.roll), Fixed32(3, m.roll));
    hide Opt, Add32;
    mySize := 0;
    if !IsZero(m.yaw) { mySize := Add32(mySize, 5); }
    if !IsZero(m.pitch) { mySize := Add32(mySize, 5); }
    if !IsZero(m.roll) { mySize := Add32(mySize, 5); }
    r := m.(cachedSize := mySize);
  }

  // Each helper below is one guarded block of `compute_size`: it adds the field's bytes if the field is written.

  method AddText(mySize0: nat, num: nat, t: Text) returns (mySize: nat)
    requires 0 < num < 16
    ensures var bytes := |Opt(t != [], Len(num, t))|; mySize0 + bytes < U32 ==> mySize == mySize0 + bytes
  {
    OptLenSize(t != [], num, t);
    if |t| < U32 { OptSize(t != [], Len(num, t)); }
    hide Opt, VarintSize;
    mySize := mySize0;
    if t != [] { mySize := Add32(mySize, TextSize(t)); }
  }

  method AddVarint(mySize0: nat, num: nat, written: bool, w: u64) returns (mySize: nat)
    requires 0 < num < 16
    ensures var bytes := |Opt(written, Varint(num, w))|; mySize0 + bytes < U32 ==> mySize == mySize0 + bytes
  {
    OptSize(written, Varint(num, w));
    hide Opt, VarintSize;
    mySize := mySize0;
    if written { mySize := Add32(mySize, ValueSize(w)); }
  }

  method ComputeSizeRadio(m: Radio) returns (r: Radio, mySize: nat)
    ensures FillRadio(m).cachedSize < U32 ==> r == FillRadio(m) && mySize == r.cachedSize
  {
    OptSize(!IsZero(m.range), Fixed32(2, m.range));
    hide Opt, Add32, Int32Wire, StateValue;
    mySize := 0;
    mySize := AddVarint(mySize, 1, m.state != UNKNOWN, StateValue(m.state));
    if !IsZero(m.range) { mySize := Add32(mySize, 5); }
    mySize := AddVarint(mySize, 3, m.txCount != 0, Int32Wire(m.txCount));
    mySize := AddVarint(mySize, 4, m.rxCount != 0, Int32Wire(m.rxCount));
    r := m.(cachedSize := mySize);
  }

  method AddRadio(mySize0: nat, num: nat, o: Option<Radio>) returns (r: Option<Radio>, mySize: nat)
    requires 0 < num < 16
    ensures var bytes := |WrittenRadioField(num, MapOption(FillRadio, o))|;
            mySize0 + bytes < U32 ==> r == MapOption(FillRadio, o) && mySize == mySize0 + bytes
  {
    r, mySize := o, mySize0;
    if o.Some? {
      FilledRadio(o.value);
      NestedBytes(num, WrittenRadio(FillRadio(o.value)));
      hide WrittenRadio, VarintSize, EncodeLen;
      var v, len := ComputeSizeRadio(o.value);
      r := Some(v);
      mySize := Add32(mySize, NestedSize(len));
    }
  }

  method ComputeSizeBluetooth(m: Bluetooth) returns (r: Bluetooth, mySize: nat)
    ensures FillBluetooth(m).cachedSize < U32 ==> r == FillBluetooth(m) && mySize == r.cachedSize
  {
    hide WrittenRadioField, FillRadio;
    var le, cl;
    mySize := 0;
    le, mySize := AddRadio(mySize, 1, m.lowEnergy);
    cl, mySize := AddRadio(mySize, 2, m.classic);
    r := Bluetooth(le, cl, mySize);
  }

  method AddKind(mySize0: nat, k: Option<ChipKind>) returns (r: Option<ChipKind>, mySize: nat)
    ensures var bytes := |WrittenKind(MapOption(FillKind, k))|;
            mySize0 + bytes < U32 ==> r == MapOption(FillKind, k) && mySize == mySize0 + bytes
  {
    hide WrittenRadio, WrittenBluetooth, EncodeLen, VarintSize;
    match k {
      case None => r, mySize := None, mySize0;
      case Some(Bt(v)) =>
        FilledBluetooth(v);
        NestedBytes(5, WrittenBluetooth(FillBluetooth(v)));
        var b, len := ComputeSizeBluetooth(v);
        r, mySize := Some(Bt(b)), Add32(mySize0, NestedSize(len));
      case Some(Uwb(v)) =>
        FilledRadio(v);
        NestedBytes(6, WrittenRadio(FillRadio(v)));
        var b, len := ComputeSizeRadio(v);
        r, mySize := Some(Uwb(b)), Add32(mySize0, NestedSize(len));
      case Some(Wifi(v)) =>
        FilledRadio(v);
        NestedBytes(7, WrittenRadio(FillRadio(v)));
        var b, len := ComputeSizeRadio(v);
        r, mySize := Some(Wifi(b)), Add32(mySize0, NestedSize(len));
    }
  }

  method ComputeSizeChip(m: Chip) returns (r: Chip, mySize: nat)
    ensures FillChip(m).cachedSize < U32 ==> r == FillChip(m) && mySize == r.cachedSize
  {
    hide Opt, WrittenKind, FillKind;
    var kind;
    mySize := 0;
    mySize := AddText(mySize, 1, m.chipId);
    mySize := AddText(mySize, 2, m.manufacturer);
    mySize := AddText(mySize, 3, m.model);
    mySize := AddVarint(mySize, 4, m.capture != UNKNOWN, StateValue(m.capture));
    kind, mySize := AddKind(mySize, m.kind);
    r := m.(kind := kind, cachedSize := mySize);
  }

  method AddPosition(mySize0: nat, o: Option<Position>) returns (r: Option<Position>, mySize: nat)
    ensures var bytes := |WrittenPositionField(MapOption(FillPosition, o))|;
            mySize0 + bytes < U32 ==> r == MapOption(FillPosition, o) && mySize == mySize0 + bytes
  {
    r, mySize := o, mySize0;
    if o.Some? {
      NestedBytes(4, WrittenPosition(FillPosition(o.value)));
      assert WrittenPosition(FillPosition(o.value)) == WrittenPosition(o.value);
      hide WrittenPosition, VarintSize, EncodeLen;
      var v, len := ComputeSizePosition(o.value);
      r := Some(v);
      mySize := Add32(mySize, NestedSize(len));
    }
  }

  method AddOrientation(mySize0: nat, o: Option<Orientation>) returns (r: Option<Orientation>, mySize: nat)
    ensures var bytes := |WrittenOrientationField(MapOption(FillOrientation, o))|;
            mySize0 + bytes < U32 ==> r == MapOption(FillOrientation, o) && mySize == mySize0 + bytes
  {
    r, mySize := o, mySize0;
    if o.Some? {
      NestedBytes(5, WrittenOrientation(FillOrientation(o.value)));
      assert WrittenOrientation(FillOrientation(o.value)) == WrittenOrientation(o.value);
      hide WrittenOrientation, VarintSize, EncodeLen;
      var v, len := ComputeSizeOrientation(o.value);
      r := Some(v);
      mySize := Add32(mySize, NestedSize(len));
    }
  }

  lemma ChipRecordSize(c: Chip)
    ensures var f := FillChip(c);
            var record, len := EncodeLen(6, f.cachedSize, WrittenChip(f)), f.cachedSize;
            |record| >= len && (len < U32 ==> |record| == 1 + VarintSize(len) + len)
  {
    FilledChip(c);
    hide FillChip, WrittenChip, EncodeLen, VarintSize;
    NestedBytes(6, WrittenChip(FillChip(c)));
  }

  /** The chips written so far are a part of all chips, and the next one adds one nested record. */
  lemma {:induction false} ChipsSize(cs: seq<Chip>, i: nat)
    requires i < |cs|
    ensures var w, w' := WrittenChips(MapSeq(FillChip, cs[..i])), WrittenChips(MapSeq(FillChip, cs[..i + 1]));
            var len := FillChip(cs[i]).cachedSize;
            && MapSeq(FillChip, cs[..i + 1]) == MapSeq(FillChip, cs[..i]) + [FillChip(cs[i])]
            && |w'| <= |WrittenChips(MapSeq(FillChip, cs))|
            && |w'| >= |w| + len && (len < U32 ==> |w'| == |w| + 1 + VarintSize(len) + len)
    decreases |cs| - i
  {
    hide FillChip, WrittenChip, EncodeLen, VarintSize;
    var next, f := cs[..i + 1], FillChip(cs[i]);
    assert next[..i] == cs[..i];
    assert MapSeq(FillChip, next) == MapSeq(FillChip, cs[..i]) + [f];
    assert MapSeq(FillChip, next)[..i] == MapSeq(FillChip, cs[..i]);
    ChipRecordSize(cs[i]);
    if i + 1 < |cs| {
      ChipsSize(cs, i + 1);
    } else {
      assert next == cs;
    }
  }

  /** The loop over the chips, with `i` of them done. */
  ghost predicate ChipsAdded(cs: seq<Chip>, i: nat, r: seq<Chip>, start: nat, mySize: nat)
    requires i <= |cs|
  {
    r == MapSeq(FillChip, cs[..i]) && mySize == start + |WrittenChips(r)|
  }

  lemma ChipsAddedNext(cs: seq<Chip>, i: nat, r: seq<Chip>, start: nat, mySize: nat)
    requires i < |cs| && ChipsAdded(cs, i, r, start, mySize)
    requires start + |WrittenChips(MapSeq(FillChip, cs))| < U32
    ensures var v := FillChip(cs[i]);
            v.cachedSize < U32 && ChipsAdded(cs, i + 1, r + [v], start, Add32(mySize, NestedSize(v.cachedSize)))
  {
    hide MapSeq, WrittenChips, FillChip, VarintSize;
    ChipsSize(cs, i);
  }

  lemma ChipsAddedEnds(cs: seq<Chip>, start: nat)
    ensures ChipsAdded(cs, 0, [], start, start)
    ensures forall r, mySize :: ChipsAdded(cs, |cs|, r, start, mySize) ==> r == MapSeq(FillChip, cs) && mySize == start + |WrittenChips(r)|
  {
  }

  /** The `for` loop over the chips. */
  method AddChips(mySize0: nat, cs: seq<Chip>) returns (r: seq<Chip>, mySize: nat)
    ensures mySize0 + |WrittenChips(MapSeq(FillChip, cs))| < U32 ==>
              r == MapSeq(FillChip, cs) && mySize == mySize0 + |WrittenChips(r)|
  {
    ghost var fits := mySize0 + |WrittenChips(MapSeq(FillChip, cs))| < U32;
    hide MapSeq, WrittenChips, FillChip, ChipsAdded, Add32, NestedSize;
    ChipsAddedEnds(cs, mySize0);
    r := [];
    mySize := mySize0;
    for i := 0 to |cs|
      invariant fits ==> ChipsAdded(cs, i, r, mySize0, mySize)
    {
      if fits { ChipsAddedNext(cs, i, r, mySize0, mySize); }
      var v, len := ComputeSizeChip(cs[i]);
      r := r + [v];
      mySize := Add32(mySize, NestedSize(len));
    }
  }

  method ComputeSizeDevice(m: Device) returns (r: Device, mySize: nat)
    ensures FillDevice(m).cachedSize < U32 ==> r == FillDevice(m) && mySize == r.cachedSize
  {
    hide Opt, WrittenPositionField, WrittenOrientationField, WrittenChips, FillPosition, FillOrientation, FillChip;
    var position, orientation, chips;
    mySize := 0;
    mySize := AddText(mySize, 1, m.deviceSerial);
    mySize := AddText(mySize, 2, m.name);
    OptSize(m.visible, Varint(3, BoolWire(m.visible)));
    if m.visible { mySize := Add32(mySize, 2); }
    position, mySize := AddPosition(mySize, m.position);
    orientation, mySize := AddOrientation(mySize, m.orientation);
    chips, mySize := AddChips(mySize, m.chips);
    r := m.(position := position, orientation := orientation, chips := chips, cachedSize := mySize);
  }

  lemma DeviceRecordSize(d: Device)
    ensures var f := FillDevice(d);
            var record, len := EncodeLen(1, f.cachedSize, WrittenDevice(f)), f.cachedSize;
            |record| >= len && (len < U32 ==> |record| == 1 + VarintSize(len) + len)
  {
    FilledDevice(d);
    hide FillDevice, WrittenDevice, EncodeLen, VarintSize;
    NestedBytes(1, WrittenDevice(FillDevice(d)));
  }

  lemma {:induction false} DevicesSize(ds: seq<Device>, i: nat)
    requires i < |ds|
    ensures var w, w' := WrittenDevices(MapSeq(FillDevice, ds[..i])), WrittenDevices(MapSeq(FillDevice, ds[..i + 1]));
            var len := FillDevice(ds[i]).cachedSize;
            && MapSeq(FillDevice, ds[..i + 1]) == MapSeq(FillDevice, ds[..i]) + [FillDevice(ds[i])]
            && |w'| <= |WrittenDevices(MapSeq(FillDevice, ds))|
            && |w'| >= |w| + len && (len < U32 ==> |w'| == |w| + 1 + VarintSize(len) + len)
    decreases |ds| - i
  {
    hide FillDevice, WrittenDevice, EncodeLen, VarintSize;
    var next, f := ds[..i + 1], FillDevice(ds[i]);
    assert next[..i] == ds[..i];
    assert MapSeq(FillDevice, next) == MapSeq(FillDevice, ds[..i]) + [f];
    assert MapSeq(FillDevice, next)[..i] == MapSeq(FillDevice, ds[..i]);
    DeviceRecordSize(ds[i]);
    if i + 1 < |ds| {
      DevicesSize(ds, i + 1);
    } else {
      assert next == ds;
    }
  }

  method ComputeSizeScene(m: Scene) returns (r: Scene, mySize: nat)
    ensures FillScene(m).cachedSize < U32 ==> r == FillScene(m) && mySize == r.cachedSize
  {
    ghost var fits := FillScene(m).cachedSize < U32;
    var ds := m.devices;
    assert MapSeq(FillDevice, ds[..0]) == [] && WrittenDevices([]) == [];
    hide MapSeq, WrittenDevices, FillDevice, VarintSize;
    var out := [];
    mySize := 0;
    for i := 0 to |ds|
      invariant fits ==> out == MapSeq(FillDevice, ds[..i]) && mySize == |WrittenDevices(out)|
    {
      DevicesSize(ds, i);
      var v, len := ComputeSizeDevice(ds[i]);
      out := out + [v];
      mySize := Add32(mySize, NestedSize(len));
    }
    assert ds[..|ds|] == ds;
    r := Scene(out, mySize);
  }

  method ComputeSizeRequest(m: UpdateDeviceRequest) returns (r: UpdateDeviceRequest, mySize: nat)
    ensures FillRequest(m).cachedSize < U32 ==> r == FillRequest(m) && mySize == r.cachedSize
  {
    var f := m;
    mySize := 0;
    if m.device.Some? {
      FilledDevice(m.device.value);
      NestedBytes(2, WrittenDevice(FillDevice(m.device.value)));
      hide FillDevice, WrittenDevice, EncodeLen, VarintSize;
      var v, len := ComputeSizeDevice(m.device.value);
      f := f.(device := Some(v));
      mySize := Add32(mySize, NestedSize(len));
    }
    r := f.(cachedSize := mySize);
  }

  // ---------------------------------------------------------------- write_to_bytes and parse_from_bytes

  method SceneWriteToBytes(m: Scene) returns (bytes: seq<byte>)
    ensures |SceneBytes(m)| < U32 ==> bytes == SceneBytes(m)
  {
    var sized, len := ComputeSizeScene(m);
    var os := new CodedOutputStream();
    WriteScene(sized, os);
    bytes := os.written;
    FilledScene(m);
  }

  method RequestWriteToBytes(m: UpdateDeviceRequest) returns (bytes: seq<byte>)
    ensures |RequestBytes(m)| < U32 ==> bytes == RequestBytes(m)
  {
    var sized, len := ComputeSizeRequest(m);
    var os := new CodedOutputStream();
    WriteRequest(sized, os);
    bytes := os.written;
  }

  method SceneParseFromBytes(bytes: seq<byte>) returns (r: Option<Scene>)
    ensures r == Merge(StepScene, NEW_SCENE, bytes)
  {
    var input := new CodedInputStream(bytes);
    r := MergeFromScene(NEW_SCENE, input);
  }

  // ---------------------------------------------------------------- write_to_with_cached_sizes

  method WritePosition(m: Position, os: CodedOutputStream)
    modifies os
    ensures os.written == old(os.written) + WrittenPosition(m)
  {
    hide EncodeRecord, EncodeTag, EncodeVarint, EncodeLen;
    ghost var o, w := os.written, [];
    assert os.written == o + w;
    if !IsZero(m.x) { os.WriteRecord(Fixed32(1, m.x)); }
    w := Append(o, w, Opt(!IsZero(m.x), Fixed32(1, m.x)));
    assert os.written == o + w;
    if !IsZero(m.y) { os.WriteRecord(Fixed32(2, m.y)); }
    w := Append(o, w, Opt(!IsZero(m.y), Fixed32(2, m.y)));
    assert os.written == o + w;
    if !IsZero(m.z) { os.WriteRecord(Fixed32(3, m.z)); }
    w := Append(o, w, Opt(!IsZero(m.z), Fixed32(3, m.z)));
    assert os.written == o + w;
  }

  method WriteOrientation(m: Orientation, os: CodedOutputStream)
    modifies os
    ensures os.written == old(os.written) + WrittenOrientation(m)
  {
    hide EncodeRecord, EncodeTag, EncodeVarint, EncodeLen;
    ghost var o, w := os.written, [];
    assert os.written == o + w;
    if !IsZero(m.yaw) { os.WriteRecord(Fixed32(1, m.yaw)); }
    w := Append(o, w, Opt(!IsZero(m.yaw), Fixed32(1, m.yaw)));
    assert os.written == o + w;
    if !IsZero(m.pitch) { os.WriteRecord(Fixed32(2, m.pitch)); }
    w := Append(o, w, Opt(!IsZero(m.pitch), Fixed32(2, m.pitch)));
    assert os.written == o + w;
    if !IsZero(m.roll) { os.WriteRecord(Fixed32(3, m.roll)); }
    w := Append(o, w, Opt(!IsZero(m.roll), Fixed32(3, m.roll)));
    assert os.written == o + w;
  }

  method WriteRadio(m: Radio, os: CodedOutputStream)
    modifies os
    ensures os.written == old(os.written) + WrittenRadio(m)
  {
    hide EncodeRecord, EncodeTag, EncodeVarint, EncodeLen;
    ghost var o, w := os.written, [];
    assert os.written == o + w;
    if m.state != UNKNOWN { os.WriteRecord(Varint(1, StateValue(m.state))); }
    w := Append(o, w, Opt(m.state != UNKNOWN, Varint(1, StateValue(m.state))));
    assert os.written == o + w;
    if !IsZero(m.range) { os.WriteRecord(Fixed32(2, m.range)); }
    w := Append(o, w, Opt(!IsZero(m.range), Fixed32(2, m.range)));
    assert os.written == o + w;
    if m.txCount != 0 { os.WriteRecord(Varint(3, Int32Wire(m.txCount))); }
    w := Append(o, w, Opt(m.txCount != 0, Varint(3, Int32Wire(m.txCount))));
    assert os.written == o + w;
    if m.rxCount != 0 { os.WriteRecord(Varint(4, Int32Wire(m.rxCount))); }
    w := Append(o, w, Opt(m.rxCount != 0, Varint(4, Int32Wire(m.rxCount))));
    assert os.written == o + w;
  }

  method WriteBluetooth(m: Bluetooth, os: CodedOutputStream)
    modifies os
    ensures os.written == old(os.written) + WrittenBluetooth(m)
  {
    hide EncodeRecord, EncodeTag, EncodeVarint, EncodeLen, WrittenRadio;
    ghost var o, w := os.written, [];
    assert os.written == o + w;
    if m.lowEnergy.Some? {
      var v := m.lowEnergy.value;
      os.WriteTag(1, WireTypeLengthDelimited);
      os.WriteRawVarint(v.cachedSize);
      WriteRadio(v, os);
      NestedPiece(o + w, 1, v.cachedSize, WrittenRadio(v));
    }
    w := Append(o, w, WrittenRadioField(1, m.lowEnergy));
    assert os.written == o + w;
    if m.classic.Some? {
      var v := m.classic.value;
      os.WriteTag(2, WireTypeLengthDelimited);
      os.WriteRawVarint(v.cachedSize);
      WriteRadio(v, os);
      NestedPiece(o + w, 2, v.cachedSize, WrittenRadio(v));
    }
    w := Append(o, w, WrittenRadioField(2, m.classic));
    assert os.written == o + w;
  }

  method WriteChip(m: Chip, os: CodedOutputStream)
    modifies os
    ensures os.written == old(os.written) + WrittenChip(m)
  {
    hide EncodeRecord, EncodeTag, EncodeVarint, EncodeLen, WrittenBluetooth, WrittenRadio;
    ghost var o, w := os.written, [];
    assert os.written == o + w;
    if m.chipId != [] { os.WriteRecord(Len(1, m.chipId)); }
    w := Append(o, w, Opt(m.chipId != [], Len(1, m.chipId)));
    assert os.written == o + w;
    if m.manufacturer != [] { os.WriteRecord(Len(2, m.manufacturer)); }
    w := Append(o, w, Opt(m.manufacturer != [], Len(2, m.manufacturer)));
    assert os.written == o + w;
    if m.model != [] { os.WriteRecord(Len(3, m.model)); }
    w := Append(o, w, Opt(m.model != [], Len(3, m.model)));
    assert os.written == o + w;
    if m.capture != UNKNOWN { os.WriteRecord(Varint(4, StateValue(m.capture))); }
    w := Append(o, w, Opt(m.capture != UNKNOWN, Varint(4, StateValue(m.capture))));
    assert os.written == o + w;
    match m.kind {
    case None =>
    case Some(Bt(v)) =>
      os.WriteTag(5, WireTypeLengthDelimited);
      os.WriteRawVarint(v.cachedSize);
      WriteBluetooth(v, os);
      NestedPiece(o + w, 5, v.cachedSize, WrittenBluetooth(v));
    case Some(Uwb(v)) =>
      os.WriteTag(6, WireTypeLengthDelimited);
      os.WriteRawVarint(v.cachedSize);
      WriteRadio(v, os);
      NestedPiece(o + w, 6, v.cachedSize, WrittenRadio(v));
    case Some(Wifi(v)) =>
      os.WriteTag(7, WireTypeLengthDelimited);
      os.WriteRawVarint(v.cachedSize);
      WriteRadio(v, os);
      NestedPiece(o + w, 7, v.cachedSize, WrittenRadio(v));
    }
    w := Append(o, w, WrittenKind(m.kind));
    assert os.written == o + w;
  }

  method WriteChips(xs: seq<Chip>, os: CodedOutputStream)
    modifies os
    ensures os.written == old(os.written) + WrittenChips(xs)
  {
    hide EncodeTag, EncodeVarint, EncodeLen, WrittenChip;
    ghost var o := os.written;
    for i := 0 to |xs|
      invariant os.written == o + WrittenChips(xs[..i])
    {
      ghost var before, size, payload := WrittenChips(xs[..i]), xs[i].cachedSize, WrittenChip(xs[i]);
      os.WriteTag(6, WireTypeLengthDelimited);
      os.WriteRawVarint(xs[i].cachedSize);
      WriteChip(xs[i], os);
      NestedPiece(o + before, 6, size, payload);
      assert xs[..i + 1][..i] == xs[..i];
      Assoc(o, before, EncodeLen(6, size, payload));
    }
    assert xs[..|xs|] == xs;
  }

  method WriteDevice(m: Device, os: CodedOutputStream)
    modifies os
    ensures os.written == old(os.written) + WrittenDevice(m)
  {
    hide EncodeRecord, EncodeTag, EncodeVarint, EncodeLen, WrittenPosition, WrittenOrientation, WrittenChip;
    ghost var o, w := os.written, [];
    assert os.written == o + w;
    if m.deviceSerial != [] { os.WriteRecord(Len(1, m.deviceSerial)); }
    w := Append(o, w, Opt(m.deviceSerial != [], Len(1, m.deviceSerial)));
    assert os.written == o + w;
    if m.name != [] { os.WriteRecord(Len(2, m.name)); }
    w := Append(o, w, Opt(m.name != [], Len(2, m.name)));
    assert os.written == o + w;
    if m.visible { os.WriteRecord(Varint(3, BoolWire(m.visible))); }
    w := Append(o, w, Opt(m.visible, Varint(3, BoolWire(m.visible))));
    assert os.written == o + w;
    if m.position.Some? {
      var v := m.position.value;
      os.WriteTag(4, WireTypeLengthDelimited);
      os.WriteRawVarint(v.cachedSize);
      WritePosition(v, os);
      NestedPiece(o + w, 4, v.cachedSize, WrittenPosition(v));
    }
    w := Append(o, w, WrittenPositionField(m.position));
    assert os.written == o + w;
    if m.orientation.Some? {
      var v := m.orientation.value;
      os.WriteTag(5, WireTypeLengthDelimited);
      os.WriteRawVarint(v.cachedSize);
      WriteOrientation(v, os);
      NestedPiece(o + w, 5, v.cachedSize, WrittenOrientation(v));
    }
    w := Append(o, w, WrittenOrientationField(m.orientation));
    assert os.written == o + w;
    WriteChips(m.chips, os);
    w := Append(o, w, WrittenChips(m.chips));
    assert os.written == o + w;
  }

  method WriteDevices(xs: seq<Device>, os: CodedOutputStream)
    modifies os
    ensures os.written == old(os.written) + WrittenDevices(xs)
  {
    hide EncodeTag, EncodeVarint, EncodeLen, WrittenDevice;
    ghost var o := os.written;
    for i := 0 to |xs|
      invariant os.written == o + WrittenDevices(xs[..i])
    {
      ghost var before, size, payload := WrittenDevices(xs[..i]), xs[i].cachedSize, WrittenDevice(xs[i]);
      os.WriteTag(1, WireTypeLengthDelimited);
      os.WriteRawVarint(xs[i].cachedSize);
      WriteDevice(xs[i], os);
      NestedPiece(o + before, 1, size, payload);
      assert xs[..i + 1][..i] == xs[..i];
      Assoc(o, before, EncodeLen(1, size, payload));
    }
    assert xs[..|xs|] == xs;
  }

  method WriteScene(m: Scene, os: CodedOutputStream)
    modifies os
    ensures os.written == old(os.written) + WrittenScene(m)
  {
    hide EncodeRecord, EncodeTag, EncodeVarint, EncodeLen, WrittenDevice;
    ghost var o, w := os.written, [];
    assert os.written == o + w;
    WriteDevices(m.devices, os);
    w := Append(o, w, WrittenDevices(m.devices));
    assert os.written == o + w;
  }

  method WriteRequest(m: UpdateDeviceRequest, os: CodedOutputStream)
    modifies os
    ensures os.written == old(os.written) + WrittenRequest(m)
  {
    hide EncodeRecord, EncodeTag, EncodeVarint, EncodeLen, WrittenDevice;
    ghost var o, w := os.written, [];
    assert os.written == o + w;
    if m.device.Some? {
      var v := m.device.value;
      os.WriteTag(2, WireTypeLengthDelimited);
      os.WriteRawVarint(v.cachedSize);
      WriteDevice(v, os);
      NestedPiece(o + w, 2, v.cachedSize, WrittenDevice(v));
    }
    w := Append(o, w, WrittenRequest(m));
    assert os.written == o + w;
  }

  // ---------------------------------------------------------------- merge_from

  // Reading the value of a field whose tag is known: the wire type is checked before anything is consumed.

  method ReadVarintOf(tag: Tag, input: CodedInputStream) returns (r: Option<u64>)
    modifies input
    ensures match ReadPayload(tag, old(input.rest))
            case None => r == None
            case Some(p) => if p.value.Varint? then r == Some(p.value.value) && input.rest == p.rest else r == None
  {
    if tag.wireType != WireTypeVarint { return None; }
    r := input.ReadRawVarint64();
  }

  method ReadFloatOf(tag: Tag, input: CodedInputStream) returns (r: Option<f32>)
    modifies input
    ensures match ReadPayload(tag, old(input.rest))
            case None => r == None
            case Some(p) => r == ReadFloat(p.value) && (r.Some? ==> input.rest == p.rest)
  {
    if tag.wireType != WireTypeFixed32 { return None; }
    r := input.ReadFloat();
  }

  method ReadPayloadOf(tag: Tag, input: CodedInputStream) returns (r: Option<seq<byte>>)
    modifies input
    ensures match ReadPayload(tag, old(input.rest))
            case None => r == None
            case Some(p) => if p.value.Len? then r == Some(p.value.payload) && input.rest == p.rest else r == None
  {
    if tag.wireType != WireTypeLengthDelimited { return None; }
    r := input.ReadBytes();
  }

  method ReadTextOf(tag: Tag, input: CodedInputStream) returns (r: Option<Text>)
    modifies input
    ensures match ReadPayload(tag, old(input.rest))
            case None => r == None
            case Some(p) => r == ReadText(p.value) && (r.Some? ==> input.rest == p.rest)
  {
    var v := ReadPayloadOf(tag, input);
    if v == None || !ValidUtf8(v.value) { return None; }
    r := Some(v.value);
  }

  method MergeFromPosition(m0: Position, input: CodedInputStream) returns (r: Option<Position>)
    modifies input
    ensures r == Merge(StepPosition, m0, old(input.rest))
  {
    hide Merge, ReadTag, ReadPayload;
    var m := m0;
    var eof := input.Eof();
    while !eof
      invariant eof <==> input.rest == []
      invariant Merge(StepPosition, m, input.rest) == Merge(StepPosition, m0, old(input.rest))
      decreases |input.rest|
    {
      MergeTurn(StepPosition, m, input.rest);
      var t := input.ReadTagUnpack();
      if t == None { return None; }
      var tag := t.value;
      match tag.num {
      case 1 =>
        var v := ReadFloatOf(tag, input);
        if v == None { return None; }
        m := m.(x := v.value);
      case 2 =>
        var v := ReadFloatOf(tag, input);
        if v == None { return None; }
        m := m.(y := v.value);
      case 3 =>
        var v := ReadFloatOf(tag, input);
        if v == None { return None; }
        m := m.(z := v.value);
      case _ =>
        var ok := input.SkipUnknown(tag);
        if !ok { return None; }
      }
      eof := input.Eof();
    }
    MergeNothing(StepPosition, m);
    r := Some(m);
  }

  method MergeFromOrientation(m0: Orientation, input: CodedInputStream) returns (r: Option<Orientation>)
    modifies input
    ensures r == Merge(StepOrientation, m0, old(input.rest))
  {
    hide Merge, ReadTag, ReadPayload;
    var m := m0;
    var eof := input.Eof();
    while !eof
      invariant eof <==> input.rest == []
      invariant Merge(StepOrientation, m, input.rest) == Merge(StepOrientation, m0, old(input.rest))
      decreases |input.rest|
    {
      MergeTurn(StepOrientation, m, input.rest);
      var t := input.ReadTagUnpack();
      if t == None { return None; }
      var tag := t.value;
      match tag.num {
      case 1 =>
        var v := ReadFloatOf(tag, input);
        if v == None { return None; }
        m := m.(yaw := v.value);
      case 2 =>
        var v := ReadFloatOf(tag, input);
        if v == None { return None; }
        m := m.(pitch := v.value);
      case 3 =>
        var v := ReadFloatOf(tag, input);
        if v == None { return None; }
        m := m.(roll := v.value);
      case _ =>
        var ok := input.SkipUnknown(tag);
        if !ok { return None; }
      }
      eof := input.Eof();
    }
    MergeNothing(StepOrientation, m);
    r := Some(m);
  }

  method MergeFromRadio(m0: Radio, input: CodedInputStream) returns (r: Option<Radio>)
    modifies input
    ensures r == Merge(StepRadio, m0, old(input.rest))
  {
    hide Merge, ReadTag, ReadPayload;
    var m := m0;
    var eof := input.Eof();
    while !eof
      invariant eof <==> input.rest == []
      invariant Merge(StepRadio, m, input.rest) == Merge(StepRadio, m0, old(input.rest))
      decreases |input.rest|
    {
      MergeTurn(StepRadio, m, input.rest);
      var t := input.ReadTagUnpack();
      if t == None { return None; }
      var tag := t.value;
      match tag.num {
      case 1 =>
        var v := ReadVarintOf(tag, input);
        if v == None { return None; }
        m := m.(state := GetOr(StateFromI32(Int32OfWire(v.value)), m.state));
      case 2 =>
        var v := ReadFloatOf(tag, input);
        if v == None { return None; }
        m := m.(range := v.value);
      case 3 =>
        var v := ReadVarintOf(tag, input);
        if v == None { return None; }
        m := m.(txCount := Int32OfWire(v.value));
      case 4 =>
        var v := ReadVarintOf(tag, input);
        if v == None { return None; }
        m := m.(rxCount := Int32OfWire(v.value));
      case _ =>
        var ok := input.SkipUnknown(tag);
        if !ok { return None; }
      }
      eof := input.Eof();
    }
    MergeNothing(StepRadio, m);
    r := Some(m);
  }

  method MergeFromBluetooth(m0: Bluetooth, input: CodedInputStream) returns (r: Option<Bluetooth>)
    modifies input
    ensures r == Merge(StepBluetooth, m0, old(input.rest))
  {
    hide Merge, ReadTag, ReadPayload;
    var m := m0;
    var eof := input.Eof();
    while !eof
      invariant eof <==> input.rest == []
      invariant Merge(StepBluetooth, m, input.rest) == Merge(StepBluetooth, m0, old(input.rest))
      decreases |input.rest|
    {
      MergeTurn(StepBluetooth, m, input.rest);
      var t := input.ReadTagUnpack();
      if t == None { return None; }
      var tag := t.value;
      match tag.num {
      case 1 =>
        var p := ReadPayloadOf(tag, input);
        if p == None { return None; }
        var nested := new CodedInputStream(p.value);
        var v := MergeFromRadio(GetOr(m.lowEnergy, NEW_RADIO), nested);
        if v == None { return None; }
        m := m.(lowEnergy := v);
      case 2 =>
        var p := ReadPayloadOf(tag, input);
        if p == None { return None; }
        var nested := new CodedInputStream(p.value);
        var v := MergeFromRadio(GetOr(m.classic, NEW_RADIO), nested);
        if v == None { return None; }
        m := m.(classic := v);
      case _ =>
        var ok := input.SkipUnknown(tag);
        if !ok { return None; }
      }
      eof := input.Eof();
    }
    MergeNothing(StepBluetooth, m);
    r := Some(m);
  }

  method MergeFromChip(m0: Chip, input: CodedInputStream) returns (r: Option<Chip>)
    modifies input
    ensures r == Merge(StepChip, m0, old(input.rest))
  {
    hide Merge, ReadTag, ReadPayload;
    var m := m0;
    var eof := input.Eof();
    while !eof
      invariant eof <==> input.rest == []
      invariant Merge(StepChip, m, input.rest) == Merge(StepChip, m0, old(input.rest))
      decreases |input.rest|
    {
      MergeTurn(StepChip, m, input.rest);
      var t := input.ReadTagUnpack();
      if t == None { return None; }
      var tag := t.value;
      match tag.num {
      case 1 =>
        var v := ReadTextOf(tag, input);
        if v == None { return None; }
        m := m.(chipId := v.value);
      case 2 =>
        var v := ReadTextOf(tag, input);
        if v == None { return None; }
        m := m.(manufacturer := v.value);
      case 3 =>
        var v := ReadTextOf(tag, input);
        if v == None { return None; }
        m := m.(model := v.value);
      case 4 =>
        var v := ReadVarintOf(tag, input);
        if v == None { return None; }
        m := m.(capture := GetOr(StateFromI32(Int32OfWire(v.value)), m.capture));
      case 5 =>
        var p := ReadPayloadOf(tag, input);
        if p == None { return None; }
        var nested := new CodedInputStream(p.value);
        var v := MergeFromBluetooth(NEW_BLUETOOTH, nested);
        if v == None { return None; }
        m := m.(kind := Some(Bt(v.value)));
      case 6 =>
        var p := ReadPayloadOf(tag, input);
        if p == None { return None; }
        var nested := new CodedInputStream(p.value);
        var v := MergeFromRadio(NEW_RADIO, nested);
        if v == None { return None; }
        m := m.(kind := Some(Uwb(v.value)));
      case 7 =>
        var p := ReadPayloadOf(tag, input);
        if p == None { return None; }
        var nested := new CodedInputStream(p.value);
        var v := MergeFromRadio(NEW_RADIO, nested);
        if v == None { return None; }
        m := m.(kind := Some(Wifi(v.value)));
      case _ =>
        var ok := input.SkipUnknown(tag);
        if !ok { return None; }
      }
      eof := input.Eof();
    }
    MergeNothing(StepChip, m);
    r := Some(m);
  }

  method MergeFromDevice(m0: Device, input: CodedInputStream) returns (r: Option<Device>)
    modifies input
    ensures r == Merge(StepDevice, m0, old(input.rest))
  {
    hide Merge, ReadTag, ReadPayload;
    var m := m0;
    var eof := input.Eof();
    while !eof
      invariant eof <==> input.rest == []
      invariant Merge(StepDevice, m, input.rest) == Merge(StepDevice, m0, old(input.rest))
      decreases |input.rest|
    {
      MergeTurn(StepDevice, m, input.rest);
      var t := input.ReadTagUnpack();
      if t == None { return None; }
      var tag := t.value;
      match tag.num {
      case 1 =>
        var v := ReadTextOf(tag, input);
        if v == None { return None; }
        m := m.(deviceSerial := v.value);
      case 2 =>
        var v := ReadTextOf(tag, input);
        if v == None { return None; }
        m := m.(name := v.value);
      case 3 =>
        var v := ReadVarintOf(tag, input);
        if v == None { return None; }
        m := m.(visible := BoolOfWire(v.value));
      case 4 =>
        var p := ReadPayloadOf(tag, input);
        if p == None { return None; }
        var nested := new CodedInputStream(p.value);
        var v := MergeFromPosition(GetOr(m.position, NEW_POSITION), nested);
        if v == None { return None; }
        m := m.(position := v);
      case 5 =>
        var p := ReadPayloadOf(tag, input);
        if p == None { return None; }
        var nested := new CodedInputStream(p.value);
        var v := MergeFromOrientation(GetOr(m.orientation, NEW_ORIENTATION), nested);
        if v == None { return None; }
        m := m.(orientation := v);
      case 6 =>
        var p := ReadPayloadOf(tag, input);
        if p == None { return None; }
        var nested := new CodedInputStream(p.value);
        var v := MergeFromChip(NEW_CHIP, nested);
        if v == None { return None; }
        m := m.(chips := m.chips + [v.value]);
      case _ =>
        var ok := input.SkipUnknown(tag);
        if !ok { return None; }
      }
      eof := input.Eof();
    }
    MergeNothing(StepDevice, m);
    r := Some(m);
  }

  method MergeFromScene(m0: Scene, input: CodedInputStream) returns (r: Option<Scene>)
    modifies input
    ensures r == Merge(StepScene, m0, old(input.rest))
  {
    hide Merge, ReadTag, ReadPayload;
    var m := m0;
    var eof := input.Eof();
    while !eof
      invariant eof <==> input.rest == []
      invariant Merge(StepScene, m, input.rest) == Merge(StepScene, m0, old(input.rest))
      decreases |input.rest|
    {
      MergeTurn(StepScene, m, input.rest);
      var t := input.ReadTagUnpack();
      if t == None { return None; }
      var tag := t.value;
      match tag.num {
      case 1 =>
        var p := ReadPayloadOf(tag, input);
        if p == None { return None; }
        var nested := new CodedInputStream(p.value);
        var v := MergeFromDevice(NEW_DEVICE, nested);
        if v == None { return None; }
        m := m.(devices := m.devices + [v.value]);
      case _ =>
        var ok := input.SkipUnknown(tag);
        if !ok { return None; }
      }
      eof := input.Eof();
    }
    MergeNothing(StepScene, m);
    r := Some(m);
  }

  method MergeFromRequest(m0: UpdateDeviceRequest, input: CodedInputStream) returns (r: Option<UpdateDeviceRequest>)
    modifies input
    ensures r == Merge(StepRequest, m0, old(input.rest))
  {
    hide Merge, ReadTag, ReadPayload;
    var m := m0;
    var eof := input.Eof();
    while !eof
      invariant eof <==> input.rest == []
      invariant Merge(StepRequest, m, input.rest) == Merge(StepRequest, m0, old(input.rest))
      decreases |input.rest|
    {
      MergeTurn(StepRequest, m, input.rest);
      var t := input.ReadTagUnpack();
      if t == None { return None; }
      var tag := t.value;
      match tag.num {
      case 2 =>
        var p := ReadPayloadOf(tag, input);
        if p == None { return None; }
        var nested := new CodedInputStream(p.value);
        var v := MergeFromDevice(GetOr(m.device, NEW_DEVICE), nested);
        if v == None { return None; }
        m := m.(device := v);
      case _ =>
        var ok := input.SkipUnknown(tag);
        if !ok { return None; }
      }
      eof := input.Eof();
    }
    MergeNothing(StepRequest, m);
    r := Some(m);
  }

  // ---------------------------------------------------------------- SetPacketCaptureRequest

  method ComputeSizeCapture(m: CaptureRequest) returns (r: CaptureRequest, mySize: nat)
    ensures FillCapture(m).cachedSize < U32 ==> r == FillCapture(m) && mySize == r.cachedSize
  {
    OptSize(m.capture, Varint(1, BoolWire(m.capture)));
    hide Opt, VarintSize, Add32;
    mySize := 0;
    if m.capture { mySize := Add32(mySize, 2); }
    mySize := AddText(mySize, 2, m.deviceSerial);
    r := m.(cachedSize := mySize);
  }

  method WriteCapture(m: CaptureRequest, os: CodedOutputStream)
    modifies os
    ensures os.written == old(os.written) + WrittenCapture(m)
  {
    hide EncodeRecord, EncodeTag, EncodeVarint, EncodeLen;
    ghost var o, w := os.written, [];
    assert os.written == o + w;
    if m.capture { os.WriteRecord(Varint(1, BoolWire(m.capture))); }
    w := Append(o, w, Opt(m.capture, Varint(1, BoolWire(m.capture))));
    assert os.written == o + w;
    if m.deviceSerial != [] { os.WriteRecord(Len(2, m.deviceSerial)); }
    w := Append(o, w, Opt(m.deviceSerial != [], Len(2, m.deviceSerial)));
    assert os.written == o + w;
  }

  method CaptureWriteToBytes(m: CaptureRequest) returns (bytes: seq<byte>)
    ensures |CaptureBytes(m)| < U32 ==> bytes == CaptureBytes(m)
  {
    var sized, len := ComputeSizeCapture(m);
    var os := new CodedOutputStream();
    WriteCapture(sized, os);
    bytes := os.written;
  }

  method MergeFromCapture(m0: CaptureRequest, input: CodedInputStream) returns (r: Option<CaptureRequest>)
    modifies input
    ensures r == Merge(StepCapture, m0, old(input.rest))
  {
    hide Merge, ReadTag, ReadPayload;
    var m := m0;
    var eof := input.Eof();
    while !eof
      invariant eof <==> input.rest == []
      invariant Merge(StepCapture, m, input.rest) == Merge(StepCapture, m0, old(input.rest))
      decreases |input.rest|
    {
      MergeTurn(StepCapture, m, input.rest);
      var t := input.ReadTagUnpack();
      if t == None { return None; }
      var tag := t.value;
      match tag.num {
      case 1 =>
        var v := ReadVarintOf(tag, input);
        if v == None { return None; }
        m := m.(capture := BoolOfWire(v.value));
      case 2 =>
        var v := ReadTextOf(tag, input);
        if v == None { return None; }
        m := m.(deviceSerial := v.value);
      case _ =>
        var ok := input.SkipUnknown(tag);
        if !ok { return None; }
      }
      eof := input.Eof();
    }
    MergeNothing(StepCapture, m);
    r := Some(m);
  }
}

/** What the codecs promise: round trips, exact cached sizes, and merging as a homomorphism on byte strings. */
module Codec {
  import opened Bytes
  import opened Wire
  import opened Messages

  // ---------------------------------------------------------------- cached sizes

  lemma FilledRadio(m: Radio)
    ensures SizedRadio(FillRadio(m)) && CanonRadio(FillRadio(m)) == CanonRadio(m)
  {
  }

  lemma FilledBluetooth(m: Bluetooth)
    ensures SizedBluetooth(FillBluetooth(m)) && CanonBluetooth(FillBluetooth(m)) == CanonBluetooth(m)
  {
  }

  lemma FilledChip(m: Chip)
    ensures SizedChip(FillChip(m)) && CanonChip(FillChip(m)) == CanonChip(m)
  {
    hide EncodeRecord, EncodeLen, Opt, WrittenBluetooth;
    match m.kind
    case Some(Bt(v)) => FilledBluetooth(v);
    case _ =>
  }

  /** After `compute_size` every cache, at every depth, is the number of bytes its own message writes. */
  lemma FilledDevice(m: Device)
    ensures SizedDevice(FillDevice(m)) && CanonDevice(FillDevice(m)) == CanonDevice(m)
  {
    hide EncodeRecord, EncodeLen, Opt, WrittenChips, SizedChip, FillChip;
    var f := FillDevice(m);
    forall i | 0 <= i < |m.chips| ensures SizedChip(f.chips[i]) && CanonChip(f.chips[i]) == CanonChip(m.chips[i]) {
      FilledChip(m.chips[i]);
    }
    assert MapSeq(CanonChip, f.chips) == MapSeq(CanonChip, m.chips);
  }

  lemma FilledScene(m: Scene)
    ensures SizedScene(FillScene(m)) && CanonScene(FillScene(m)) == CanonScene(m)
  {
    hide WrittenDevices, SizedDevice, FillDevice, CanonDevice;
    var f := FillScene(m);
    forall i | 0 <= i < |m.devices|
      ensures SizedDevice(f.devices[i]) && CanonDevice(f.devices[i]) == CanonDevice(m.devices[i])
    {
      FilledDevice(m.devices[i]);
    }
    assert MapSeq(CanonDevice, f.devices) == MapSeq(CanonDevice, m.devices);
  }

  // ---------------------------------------------------------------- round trips

  /** `write_to_bytes` of a scene. */
  function SceneBytes(m: Scene): seq<byte> { WrittenScene(FillScene(m)) }

  function RequestBytes(m: UpdateDeviceRequest): seq<byte> { WrittenRequest(FillRequest(m)) }

  lemma SceneRoundTrip(m: Scene)
    ensures |SceneBytes(m)| < U32 ==> Merge(StepScene, NEW_SCENE, SceneBytes(m)) == Some(CanonScene(m))
  {
    FilledScene(m);
    MergeDevices(FillScene(m).devices);
  }

  lemma RequestRoundTrip(m: UpdateDeviceRequest)
    requires |RequestBytes(m)| < U32
    ensures Merge(StepRequest, NEW_UPDATE_DEVICE_REQUEST, RequestBytes(m)) == Some(CanonRequest(m))
  {
    hide Merge, WrittenDevice;
    MergeNothing(StepRequest, NEW_UPDATE_DEVICE_REQUEST);
    if m.device.Some? {
      var d := FillDevice(m.device.value);
      FilledDevice(m.device.value);
      DeviceRoundTrip(d);
      MergeNested(StepRequest, NEW_UPDATE_DEVICE_REQUEST, [], NEW_UPDATE_DEVICE_REQUEST, 2, WrittenDevice(d), CanonRequest(m));
      assert [] + RequestBytes(m) == RequestBytes(m);
    }
  }

  // ---------------------------------------------------------------- merging concatenations

  /** The devices already in a scene do not influence what is appended to it, nor whether parsing succeeds. */
  lemma SceneMergeAppends(ds: seq<Device>, c: nat, s: seq<byte>)
    ensures match Merge(StepScene, NEW_SCENE, s)
            case None => Merge(StepScene, Scene(ds, c), s) == None
            case Some(m) => Merge(StepScene, Scene(ds, c), s) == Some(Scene(ds + m.devices, c))
    ensures Merge(StepScene, NEW_SCENE, s).Some? ==> Merge(StepScene, NEW_SCENE, s).value.cachedSize == 0
  {
    SceneMergeShift(ds, [], c, 0, s);
    assert ds + [] == ds;
  }

  lemma {:induction false} SceneMergeShift(ds: seq<Device>, es: seq<Device>, c: nat, c': nat, s: seq<byte>)
    ensures match Merge(StepScene, Scene(es, c'), s)
            case None => Merge(StepScene, Scene(ds + es, c), s) == None
            case Some(m) => m.cachedSize == c' && Merge(StepScene, Scene(ds + es, c), s) == Some(Scene(ds + m.devices, c))
    decreases |s|
  {
    if s != [] && ReadRecord(s).Some? {
      var p := ReadRecord(s).value;
      match StepScene(Scene(es, c'), p.value)
      case None =>
      case Some(m) =>
        if p.value.num == 1 {
          var d := ReadMessage(StepDevice, NEW_DEVICE, p.value).value;
          assert ds + (es + [d]) == ds + es + [d];
          SceneMergeShift(ds, es + [d], c, c', p.rest);
        } else {
          SceneMergeShift(ds, es, c, c', p.rest);
        }
    }
  }

  /** Concatenating two encoded scenes concatenates their device lists. */
  lemma SceneConcat(a: seq<byte>, b: seq<byte>, ma: Scene, mb: Scene)
    requires Merge(StepScene, NEW_SCENE, a) == Some(ma) && Merge(StepScene, NEW_SCENE, b) == Some(mb)
    ensures Merge(StepScene, NEW_SCENE, a + b) == Some(Scene(ma.devices + mb.devices, 0))
  {
    MergeConcat(StepScene, NEW_SCENE, a, b);
    SceneMergeAppends([], 0, a);
    SceneMergeAppends(ma.devices, 0, b);
  }

  /** A singular message sent in two pieces is the message sent whole. */
  lemma SplitField(m: Bluetooth, num: nat, a: seq<byte>, b: seq<byte>)
    requires num in {1, 2} && StepBluetooth(m, Len(num, a)).Some?
    ensures StepBluetooth(StepBluetooth(m, Len(num, a)).value, Len(num, b)) == StepBluetooth(m, Len(num, a + b))
  {
    MergeConcat(StepRadio, GetOr(if num == 1 then m.lowEnergy else m.classic, NEW_RADIO), a, b);
  }

  /** The same for the position and the orientation of a device. */
  lemma SplitPlacement(m: Device, num: nat, a: seq<byte>, b: seq<byte>)
    requires num in {4, 5} && StepDevice(m, Len(num, a)).Some?
    ensures StepDevice(StepDevice(m, Len(num, a)).value, Len(num, b)) == StepDevice(m, Len(num, a + b))
  {
    hide Merge;
    if num == 4 {
      MergeConcat(StepPosition, GetOr(m.position, NEW_POSITION), a, b);
    } else {
      MergeConcat(StepOrientation, GetOr(m.orientation, NEW_ORIENTATION), a, b);
    }
  }

  /** And for the device of a request. */
  lemma SplitDevice(m: UpdateDeviceRequest, a: seq<byte>, b: seq<byte>)
    requires StepRequest(m, Len(2, a)).Some?
    ensures StepRequest(StepRequest(m, Len(2, a)).value, Len(2, b)) == StepRequest(m, Len(2, a + b))
  {
    hide Merge;
    MergeConcat(StepDevice, GetOr(m.device, NEW_DEVICE), a, b);
  }

  // ---------------------------------------------------------------- oneofs

  /** No record of `s` belongs to the oneof. */
  predicate NoVariant(s: seq<byte>)
    decreases |s|
  {
    s == [] || ReadRecord(s) == None
    || (var p := ReadRecord(s).value; p.value.num !in {5, 6, 7} && NoVariant(p.rest))
  }

  lemma {:induction false} NoVariantKeepsKind(m: Chip, s: seq<byte>)
    requires NoVariant(s) && Merge(StepChip, m, s).Some?
    ensures Merge(StepChip, m, s).value.kind == m.kind
    decreases |s|
  {
    hide ReadRecord, ReadMessage, ReadText, ReadState;
    if s != [] {
      var p := ReadRecord(s).value;
      NoVariantKeepsKind(StepChip(m, p.value).value, p.rest);
    }
  }

  lemma VariantReplaces(m: Chip, r: Record)
    requires r.num in {5, 6, 7}
    ensures match StepChip(m, r)
            case None => StepChip(NEW_CHIP, r) == None
            case Some(v) => v.kind.Some? && StepChip(NEW_CHIP, r).Some? && StepChip(NEW_CHIP, r).value.kind == v.kind
  {
  }

  /** The last variant on the wire decides the oneof, whatever the message and the earlier bytes held. */
  lemma LastVariantWins(m: Chip, a: seq<byte>, r: Record, b: seq<byte>)
    requires Printable(r) && r.num in {5, 6, 7} && NoVariant(b)
    ensures var whole, alone := Merge(StepChip, m, a + EncodeRecord(r) + b), StepChip(NEW_CHIP, r);
            Merge(StepChip, m, a).Some? && whole.Some? ==>
              alone.Some? && alone.value.kind.Some? && whole.value.kind == alone.value.kind
  {
    hide Merge, StepChip, EncodeRecord;
    if Merge(StepChip, m, a).Some? {
      var ma := Merge(StepChip, m, a).value;
      assert a + EncodeRecord(r) + b == a + (EncodeRecord(r) + b);
      MergeConcat(StepChip, m, a, EncodeRecord(r) + b);
      MergeRecord(StepChip, ma, r, b);
      VariantReplaces(ma, r);
      if StepChip(ma, r).Some? && Merge(StepChip, StepChip(ma, r).value, b).Some? {
        NoVariantKeepsKind(StepChip(ma, r).value, b);
      }
    }
  }

  /** A variant with an empty payload is present. */
  lemma EmptyVariantIsPresent(m: Chip)
    ensures StepChip(m, Len(5, [])) == Some(m.(kind := Some(Bt(NEW_BLUETOOTH))))
    ensures StepChip(m, Len(6, [])) == Some(m.(kind := Some(Uwb(NEW_RADIO))))
    ensures StepChip(m, Len(7, [])) == Some(m.(kind := Some(Wifi(NEW_RADIO))))
  {
  }

  lemma PiecesOfBluetooth()
    ensures var a, b := EncodeRecord(Len(1, [])), EncodeRecord(Len(2, []));
            && Merge(StepBluetooth, NEW_BLUETOOTH, a) == Some(Bluetooth(Some(NEW_RADIO), None, 0))
            && Merge(StepBluetooth, NEW_BLUETOOTH, b) == Some(Bluetooth(None, Some(NEW_RADIO), 0))
            && Merge(StepBluetooth, NEW_BLUETOOTH, a + b) == Some(Bluetooth(Some(NEW_RADIO), Some(NEW_RADIO), 0))
  {
    hide Merge, EncodeRecord;
    var a, b := EncodeRecord(Len(1, [])), EncodeRecord(Len(2, []));
    MergeNothing(StepRadio, NEW_RADIO);
    MergeNothing(StepBluetooth, NEW_BLUETOOTH);
    assert [] + a == a && [] + b == b;
    MergeField(StepBluetooth, NEW_BLUETOOTH, [], NEW_BLUETOOTH, Len(1, []));
    MergeField(StepBluetooth, NEW_BLUETOOTH, [], NEW_BLUETOOTH, Len(2, []));
    MergeField(StepBluetooth, NEW_BLUETOOTH, a, Bluetooth(Some(NEW_RADIO), None, 0), Len(2, []));
  }

  /**
   The "Last One Wins" section of the Encoding document asks that pieces of an embedded message be merged. The oneof
   branches read into a new message, so of two pieces only the second survives.
   */
  lemma SplitVariantLosesFirstPiece()
    ensures var a, b := EncodeRecord(Len(1, [])), EncodeRecord(Len(2, []));
            && StepChip(NEW_CHIP, Len(5, a + b)) == Some(NEW_CHIP.(kind := Some(Bt(Bluetooth(Some(NEW_RADIO), Some(NEW_RADIO), 0)))))
            && StepChip(NEW_CHIP, Len(5, a)).Some?
            && StepChip(StepChip(NEW_CHIP, Len(5, a)).value, Len(5, b))
               == Some(NEW_CHIP.(kind := Some(Bt(Bluetooth(None, Some(NEW_RADIO), 0)))))
  {
    PiecesOfBluetooth();
    hide Merge, EncodeRecord, StepBluetooth;
  }

  /** The payload of a variant decodes to the default message. */
  predicate DecodesToDefault(num: nat, payload: seq<byte>) {
    if num == 5 then Merge(StepBluetooth, NEW_BLUETOOTH, payload) == Some(NEW_BLUETOOTH)
    else Merge(StepRadio, NEW_RADIO, payload) == Some(NEW_RADIO)
  }

  /** Sending the variant `num` in two pieces, `a` first, is sending it whole, for every second piece. */
  ghost predicate SplitIsHarmless(m: Chip, num: nat, a: seq<byte>)
    requires StepChip(m, Len(num, a)).Some?
  {
    forall b: seq<byte> :: StepChip(StepChip(m, Len(num, a)).value, Len(num, b)) == StepChip(m, Len(num, a + b))
  }

  lemma DefaultSplits(m: Chip, num: nat, a: seq<byte>, b: seq<byte>)
    requires num in {5, 6, 7} && StepChip(m, Len(num, a)).Some? && DecodesToDefault(num, a)
    ensures StepChip(StepChip(m, Len(num, a)).value, Len(num, b)) == StepChip(m, Len(num, a + b))
  {
    hide Merge;
    if num == 5 { MergeConcat(StepBluetooth, NEW_BLUETOOTH, a, b); } else { MergeConcat(StepRadio, NEW_RADIO, a, b); }
  }

  /** With an empty second piece, what the first one held is gone. */
  lemma EmptySecondPiece(m: Chip, num: nat, a: seq<byte>)
    requires num in {5, 6, 7} && StepChip(m, Len(num, a)).Some?
    requires StepChip(StepChip(m, Len(num, a)).value, Len(num, [])) == StepChip(m, Len(num, a + []))
    ensures DecodesToDefault(num, a)
  {
    hide Merge;
    assert a + [] == a;
    MergeNothing(StepBluetooth, NEW_BLUETOOTH);
    MergeNothing(StepRadio, NEW_RADIO);
  }

  /**
   A oneof message may be sent in two pieces, as "Last One Wins" asks for, if and only if its first piece decodes to the
   default message: that is when replacing and merging are the same.
   */
  lemma SplitVariantIffFirstPieceIsDefault(m: Chip, num: nat, a: seq<byte>)
    requires num in {5, 6, 7} && StepChip(m, Len(num, a)).Some?
    ensures SplitIsHarmless(m, num, a) <==> DecodesToDefault(num, a)
  {
    hide Merge, StepChip, DecodesToDefault;
    if DecodesToDefault(num, a) {
      forall b: seq<byte> ensures StepChip(StepChip(m, Len(num, a)).value, Len(num, b)) == StepChip(m, Len(num, a + b)) {
        DefaultSplits(m, num, a, b);
      }
    }
    if SplitIsHarmless(m, num, a) {
      var none: seq<byte> := [];
      assert StepChip(StepChip(m, Len(num, a)).value, Len(num, none)) == StepChip(m, Len(num, a + none));
      EmptySecondPiece(m, num, a);
    }
  }

  function CaptureBytes(m: CaptureRequest): seq<byte> { WrittenCapture(FillCapture(m)) }

  lemma CaptureRoundTrip(m: CaptureRequest)
    requires |CaptureBytes(m)| < U32
    ensures Merge(StepCapture, NEW_CAPTURE_REQUEST, CaptureBytes(m)) == Some(m.(cachedSize := 0))
  {
    hide Merge;
    OptLenSize(m.deviceSerial != [], 2, m.deviceSerial);
    var m1 := NEW_CAPTURE_REQUEST.(capture := m.capture);
    var w1 := [] + Opt(m.capture, Varint(1, BoolWire(m.capture)));
    assert Merge(StepCapture, NEW_CAPTURE_REQUEST, []) == Some(NEW_CAPTURE_REQUEST) by { MergeNothing(StepCapture, NEW_CAPTURE_REQUEST); }
    MergeOpt(StepCapture, NEW_CAPTURE_REQUEST, [], NEW_CAPTURE_REQUEST, m.capture, Varint(1, BoolWire(m.capture)), m1);
    MergeOpt(StepCapture, NEW_CAPTURE_REQUEST, w1, m1, m.deviceSerial != [], Len(2, m.deviceSerial), m.(cachedSize := 0));
  }
}

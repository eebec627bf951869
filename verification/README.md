# netsim, modelled and proved

netsim is a simulator of radio networks for emulated phones. This project models the parts of it in which state,
bytes and threads interact, and proves what they promise:

- **wire, messages, codec, codec_methods, streams**: the generated protobuf codec of the scene, from the wire format of
  the Protocol Buffers Encoding document (Base 128 Varints, Length-Delimited Records, Last One Wins) up to the three
  generated methods of each message. A message is a value; `merge_from` is proved to be a fold of one step function over
  the records on the wire, `compute_size` to fill every cache with the exact length, and the two together to round-trip.
- **layout**: the bytes of each message with its tag bytes written out, and exactly which records the readers refuse.
- **scene, scene_theorems, scene_effects, scene_objects**: the device list, its two parallel chip lists, the indices into
  them and the emulator's second copy of the radio state, as values with theorems over every run and the effect of each
  operation field by field, and as objects proved against them.
- **cli**: the bytes of the Radio, Move and Capture commands, carried through decoding and the update they cause.
- **thread_pool**, **blocking_queue**, **transport**: three concurrent protocols as step machines. A check outside a lock
  and the action it guards are separate steps; theorems are about every interleaving.
- **text, http**: the HTTP request parser and response printer against RFC 9112.
- **ini**: the `.ini` reader and writer with the string functions they rest on.
- **sessions**: observer ids that wrap around, and the HTTP sessions that register them.

`dafny verify dfyconfig.toml` checks the whole project.

Modelling conventions. Strings are byte sequences; `Text` is valid UTF-8. Floats are 32-bit patterns, since the code only
tests them against zero and copies them. What the operating system, the network, rootcanal or libwebsockets decide is a
parameter of the step or method it affects. A process abort is an absent result on values and a flag on objects.

Where code and documentation disagree, the model follows the code:

- the HTTP sources cite RFC 5322; the syntax they parse is that of RFC 9112;
- the repository's test `test_parse_without_content_length` expects the bytes after the headers as the body, but `parse`
  reads no body without a Content-Length and leaves those bytes for the next request (`Http.ParseOne`);
- the Encoding document asks for pieces of an embedded message to be merged; the oneof branches replace
  (`Codec.SplitVariantIffFirstPieceIsDefault` says exactly when that is the same);
- `Done` means to run the close callback once; two overlapping calls can run it twice or call an empty function
  (`Transport.OverlapBreaksTheCallback`, with the exact condition in `Transport.ExactlyOnceIffNoOverlap`);
- `chip_index` is meant to be the position of a chip; erasing any but the last chip breaks that
  (`SceneTheorems.RemoveChipKeepsIndexIffLast`), and what requests do then is `SceneTheorems.RequestAfterRemovalAborts`
  and `SceneTheorems.RequestActsOnNeighbour`;
- a request body that comes in chunks is overwritten by its last one (`Sessions.WholeBodyIffOneChunk`).

Main results: `Codec.SceneRoundTrip`, `Codec.FilledScene`, `Wire.MergeConcat`,
`Codec.SplitVariantIffFirstPieceIsDefault`, `CodecMethods.ComputeSizeScene`, `CodecMethods.MergeFromScene`,
`Layout.ChipLayout`, `Layout.NegativeCounts`, `SceneTheorems.EveryRunIsSound`, `SceneTheorems.UpdateDeviceFrame`,
`SceneTheorems.DeviceUpdateIdempotent`, `SceneTheorems.RequestAfterRemovalAborts`, `SceneObjects.SceneDevice.Update`,
`SceneEffects.RemoveChipEffect`, `Cli.RadioCommand`, `ThreadPool.ExactlyOnce`, `ThreadPool.ShutdownEnds`,
`BlockingQueue.NoLostWakeup`, `BlockingQueue.OrderedDelivery`, `Transport.ExactlyOnceIffNoOverlap`,
`Transport.WriterIsWoken`, `Http.RepeatedParsing`, `Http.ContentLengthIsDeclared`, `Http.ResponseReadBack`,
`Ini.RoundTrip`, `Sessions.RegisteredAreOpenObservers`, `Sessions.SecondHttpLeaksAnId`.

## Model

| member | source | states |
|---|---|---|
| Wire.VarintSizeExact | rust/frontend-proto/src/model.rs:807-840 | the size function used by `compute_size` is the exact number of bytes the varint printer emits |
| Wire.ReadVarintEncoded | rust/frontend-proto/src/model.rs:1132-1147 | a printed varint below 2^64 is read back, whatever follows it; below 2^32 also by the 32-bit reader |
| Wire.ReadTagEncoded | rust/frontend-proto/src/model.rs:1738-1765 | every tag with a legal field number is read back with its number and wire type, and the rest is untouched |
| Wire.EncodeRecordSize | rust/frontend-proto/src/model.rs:807-840 | the size formulas, with 1 for a tag below field number 16, are the exact lengths of what is printed |
| Wire.ReadEncodedRecord | rust/frontend-proto/src/model.rs:763-804 | every record the writers emit is read back, and reading stops at its end |
| Wire.SkipGroupExtends | rust/frontend-proto/src/model.rs:798-801 | skipping an unknown group consumes the same bytes whatever follows the group |
| Wire.MergeConcat | rust/frontend-proto/src/model.rs:1924-1938 | merging is a homomorphism: for any step function and any bytes that decode, merging a concatenation is merging the parts in turn, failures of the second part included |
| Wire.MergeRecord | rust/frontend-proto/src/model.rs:1674-1706 | one turn of the loop on a printed record is one application of the step, then the rest |
| Wire.Int32RoundTrip | rust/frontend-proto/src/model.rs:1113-1147 | every int32 survives the wire |
| Wire.Int32IsSignExtended | rust/frontend-proto/src/model.rs:1121-1126 | a negative int32 is sign-extended to 64 bits and printed in ten bytes, any other in at most five; reading keeps the low 32 bits of any varint |
| Wire.VarintIsBase128 | rust/frontend-proto/src/model.rs:1132-1147 | seven bits to a byte, the low ones first, the top bit on every byte but the last, no superfluous byte: the printer against an independent reading of its bytes |
| Wire.GroupEnds | rust/frontend-proto/src/model.rs:798-801 | the end tag of a group ends the group of the same number; the end of another one is an error |
| Wire.ZeroIgnoresSign | rust/frontend-proto/src/model.rs:134-148 | the guard of a float field treats exactly +0.0 and -0.0 as absent |
| Messages.PositionRoundTrip | rust/frontend-proto/src/model.rs:99-162 | what a position writes merges into a new position as the same one, -0.0 turned into +0.0 |
| Messages.OrientationRoundTrip | rust/frontend-proto/src/model.rs:321-384 | the same for orientations |
| Messages.RadioRoundTrip | rust/frontend-proto/src/model.rs:1075-1147 | the same for radios: enum, float and two int32 fields |
| Messages.BluetoothRoundTrip | rust/frontend-proto/src/model.rs:1342-1388 | the same for a Bluetooth chip whose caches are right: two optional nested radios |
| Messages.ChipRoundTrip | rust/frontend-proto/src/model.rs:763-876 | the same for a chip whose caches are right, for every variant of the oneof and none |
| Messages.DeviceRoundTrip | rust/frontend-proto/src/model.rs:1674-1767 | the same for a device whose caches are right, with any number of chips |
| Messages.MergeDevices | rust/frontend-proto/src/model.rs:1925-1960 | the same for a list of devices, by induction on the list |
| Codec.FilledChip | rust/frontend-proto/src/model.rs:807-876 | the same for a chip and its variant |
| Codec.FilledDevice | rust/frontend-proto/src/model.rs:1710-1767 | the same for a device: every cache at every depth is the exact number of bytes written there |
| Codec.FilledScene | rust/frontend-proto/src/model.rs:1942-1960 | the same for a whole scene, so every length prefix is right |
| Codec.SceneRoundTrip | rust/frontend-proto/src/model.rs:1924-1960 | `merge_from` on the bytes of any scene below 2^32 bytes gives the scene back, up to -0.0 becoming +0.0 |
| Codec.RequestRoundTrip | rust/frontend-proto/src/frontend.rs:516-552 | what `write_to_bytes` prints of any UpdateDeviceRequest below 2^32 bytes decodes to it, up to -0.0 becoming +0.0 |
| Codec.CaptureRoundTrip | rust/frontend-proto/src/frontend.rs:1184-1230 | what is printed of any SetPacketCaptureRequest below 2^32 bytes decodes to it |
| Codec.SceneMergeAppends | rust/frontend-proto/src/model.rs:1925-1938 | devices already present influence neither what is appended nor whether parsing fails |
| Codec.SceneConcat | rust/frontend-proto/src/frontend.rs:848-861 | the concatenation of two encodings decodes to the concatenation of the two device lists (Scene and GetDevicesResponse have the same generated code) |
| Codec.SplitField | rust/frontend-proto/src/model.rs:1342-1360 | if the run time merges a singular message read twice, as the Encoding document asks (its code is not in the repository), a nested radio sent in two pieces is the radio sent whole |
| Codec.SplitPlacement | rust/frontend-proto/src/model.rs:1674-1706 | under the same assumption, a position or orientation in two pieces is the whole one |
| Codec.SplitDevice | rust/frontend-proto/src/frontend.rs:516-530 | under the same assumption, the device of an update request in two pieces is the whole one |
| Codec.LastVariantWins | rust/frontend-proto/src/model.rs:763-804 | the last variant on the wire decides the oneof, whatever the earlier bytes and the message held |
| Codec.NoVariantKeepsKind | rust/frontend-proto/src/model.rs:763-804 | bytes without a variant leave the oneof as it was |
| Codec.VariantReplaces | rust/frontend-proto/src/model.rs:763-804 | a variant is read into a new message, so the old one has no influence on it nor on failure |
| Codec.EmptyVariantIsPresent | rust/frontend-proto/src/model.rs:763-804 | a variant with an empty payload is present |
| Codec.SplitVariantIffFirstPieceIsDefault | rust/frontend-proto/src/model.rs:763-804 | exactly when the oneof branches meet "Last One Wins": for every variant and every first piece, replacing is merging for all second pieces iff the first piece decodes to the default message |
| Codec.SplitVariantLosesFirstPiece | rust/frontend-proto/src/model.rs:763-804 | a witness that the condition above can fail: of these two pieces of a oneof message only the second survives |
| CodecMethods.ComputeSizePosition | rust/frontend-proto/src/model.rs:134-148 | 32-bit sum of the field sizes; below 2^32 it fills every cache with the exact length |
| CodecMethods.WritePosition | rust/frontend-proto/src/model.rs:150-162 | appends exactly the specified bytes, length prefixes taken from the caches |
| CodecMethods.MergeFromPosition | rust/frontend-proto/src/model.rs:99-132 | the tag-dispatched loop computes the merge of all records, errors included |
| CodecMethods.ComputeSizeOrientation | rust/frontend-proto/src/model.rs:356-370 | 32-bit sum of the field sizes; below 2^32 it fills every cache with the exact length |
| CodecMethods.WriteOrientation | rust/frontend-proto/src/model.rs:372-384 | appends exactly the specified bytes, length prefixes taken from the caches |
| CodecMethods.MergeFromOrientation | rust/frontend-proto/src/model.rs:321-354 | the tag-dispatched loop computes the merge of all records, errors included |
| CodecMethods.ComputeSizeRadio | rust/frontend-proto/src/model.rs:1113-1130 | 32-bit sum of the field sizes; below 2^32 it fills every cache with the exact length |
| CodecMethods.WriteRadio | rust/frontend-proto/src/model.rs:1132-1147 | appends exactly the specified bytes, length prefixes taken from the caches |
| CodecMethods.MergeFromRadio | rust/frontend-proto/src/model.rs:1075-1110 | the tag-dispatched loop computes the merge of all records, errors included |
| CodecMethods.ComputeSizeBluetooth | rust/frontend-proto/src/model.rs:1362-1375 | 32-bit sum of the field sizes; below 2^32 it fills every cache with the exact length |
| CodecMethods.WriteBluetooth | rust/frontend-proto/src/model.rs:1377-1388 | appends exactly the specified bytes, length prefixes taken from the caches |
| CodecMethods.MergeFromBluetooth | rust/frontend-proto/src/model.rs:1342-1360 | the tag-dispatched loop computes the merge of all records, errors included |
| CodecMethods.ComputeSizeChip | rust/frontend-proto/src/model.rs:807-840 | 32-bit sum of the field sizes; below 2^32 it fills every cache with the exact length |
| CodecMethods.WriteChip | rust/frontend-proto/src/model.rs:842-876 | appends exactly the specified bytes, length prefixes taken from the caches |
| CodecMethods.MergeFromChip | rust/frontend-proto/src/model.rs:763-804 | the tag-dispatched loop computes the merge of all records, errors included |
| CodecMethods.ComputeSizeDevice | rust/frontend-proto/src/model.rs:1710-1736 | 32-bit sum of the field sizes; below 2^32 it fills every cache with the exact length |
| CodecMethods.WriteDevice | rust/frontend-proto/src/model.rs:1738-1767 | appends exactly the specified bytes, length prefixes taken from the caches |
| CodecMethods.MergeFromDevice | rust/frontend-proto/src/model.rs:1674-1706 | the tag-dispatched loop computes the merge of all records, errors included |
| CodecMethods.ComputeSizeScene | rust/frontend-proto/src/model.rs:1942-1951 | 32-bit sum of the field sizes; below 2^32 it fills every cache with the exact length |
| CodecMethods.WriteScene | rust/frontend-proto/src/model.rs:1953-1960 | appends exactly the specified bytes, length prefixes taken from the caches |
| CodecMethods.MergeFromScene | rust/frontend-proto/src/model.rs:1925-1938 | the tag-dispatched loop computes the merge of all records, errors included |
| CodecMethods.ComputeSizeRequest | rust/frontend-proto/src/frontend.rs:533-542 | 32-bit sum of the field sizes; below 2^32 it fills the caches with the exact lengths |
| CodecMethods.WriteRequest | rust/frontend-proto/src/frontend.rs:544-552 | appends exactly the bytes of the round trip theorem, length prefixes taken from the caches |
| CodecMethods.MergeFromRequest | rust/frontend-proto/src/frontend.rs:516-530 | the tag-dispatched loop computes the merge of all records, errors included |
| CodecMethods.ComputeSizeCapture | rust/frontend-proto/src/frontend.rs:1208-1219 | 32-bit sum of the field sizes; below 2^32 it fills the caches with the exact lengths |
| CodecMethods.WriteCapture | rust/frontend-proto/src/frontend.rs:1221-1230 | appends exactly the bytes of the round trip theorem, length prefixes taken from the caches |
| CodecMethods.MergeFromCapture | rust/frontend-proto/src/frontend.rs:1184-1204 | the tag-dispatched loop computes the merge of all records, errors included |
| CodecMethods.SceneWriteToBytes | rust/frontend-proto/src/model.rs:1942-1960 | size pass then write pass produce the bytes of the round trip theorem |
| CodecMethods.SceneParseFromBytes | rust/frontend-proto/src/model.rs:1925-1938 | parsing into a new scene is the merge of the round trip theorem |
| Layout.PositionLayout | rust/frontend-proto/src/model.rs:150-162 | the bytes of a position, tag bytes written out, a field present iff its float is not zero of either sign |
| Layout.OrientationLayout | rust/frontend-proto/src/model.rs:372-384 | the bytes of an orientation in the same way |
| Layout.RadioLayout | rust/frontend-proto/src/model.rs:1132-1147 | the bytes of a radio: state byte, range, and both counts in two's complement of 64 bits |
| Layout.NegativeCounts | rust/frontend-proto/src/model.rs:1113-1147 | a negative count adds eleven bytes both to what is written and to the size |
| Layout.BluetoothLayout | rust/frontend-proto/src/model.rs:1377-1388 | the bytes of a Bluetooth chip: low energy under tag byte 0x0A, classic under 0x12 |
| Layout.KindLayout | rust/frontend-proto/src/model.rs:842-876 | the tag byte of each variant of the oneof, its length and its message; nothing for none |
| Layout.ChipLayout | rust/frontend-proto/src/model.rs:842-876 | the bytes of a chip field by field |
| Layout.DeviceLayout | rust/frontend-proto/src/model.rs:1738-1767 | the bytes of a device field by field |
| Layout.RepeatedLayout | rust/frontend-proto/src/model.rs:1953-1960 | chips and devices lie one after the other, in order, each under its tag byte and length |
| Layout.RequestLayout | rust/frontend-proto/src/frontend.rs:544-552 | the bytes of an update request |
| Layout.CaptureLayout | rust/frontend-proto/src/frontend.rs:1221-1230 | the bytes of a capture request |
| Layout.RadioReads | rust/frontend-proto/src/model.rs:1075-1110 | reading a record of a radio fails iff a known field has another wire type; unknown fields and unknown states change nothing |
| Layout.PlacementReads | rust/frontend-proto/src/model.rs:99-132 | the same for positions and orientations |
| Layout.BluetoothReads | rust/frontend-proto/src/model.rs:1342-1360 | reading fails iff a known field is not a message that can be merged |
| Layout.ChipReads | rust/frontend-proto/src/model.rs:763-804 | reading a record of a chip fails iff a text is not UTF-8, a wire type differs or a variant cannot be decoded |
| Layout.DeviceReads | rust/frontend-proto/src/model.rs:1674-1706 | the same for devices; any non-zero varint makes the device visible |
| Layout.TopLevelReads | rust/frontend-proto/src/model.rs:1925-1938 | the same for scenes and the two requests |
| SceneTheorems.MatchDeviceIsUnique | src/controller/scene_controller.cc:78-99 | `MatchDevice` returns a device iff it is the only one containing the pattern in the chosen field |
| SceneTheorems.UpdateDeviceFrame | src/controller/scene_controller.cc:100-109 | an update succeeds iff there is a unique match; it then changes that device only, and otherwise nothing |
| SceneTheorems.UpdatePhyInv | src/hci/bluetooth_facade.cc:191-198 | a membership-changing call keeps attach and detach strictly alternating per connection and PHY |
| SceneTheorems.ChipUpdateModel | src/hci/bluetooth_facade.cc:247-275 | field by field, what an update makes of a chip's model: UNKNOWN and empty fields change nothing |
| SceneTheorems.ChipUpdateAgrees | src/hci/bluetooth_facade.cc:247-275 | an update keeps the key, keeps PHY membership and capture in agreement with the model, and touches no other connection |
| SceneTheorems.ChipUpdateIdempotent | src/hci/bluetooth_facade.cc:247-275 | the same update again changes neither model nor emulator |
| SceneTheorems.UpdateChipsInv | src/controller/device.cc:59-71 | a list of chip requests never aborts on a sound device, and each chip sees exactly the requests with its key, in order |
| SceneTheorems.OverrideAllIsOne | src/controller/device.cc:59-71 | a list of requests for one chip amounts to a single request |
| SceneTheorems.DeviceUpdateInv | src/controller/device.cc:49-72 | `Device::Update`: no abort, both lists keep their lengths, every chip is its own update by the requests with its key, emulator in agreement |
| SceneTheorems.DeviceUpdateIdempotent | src/controller/device.cc:49-72 | `Device::Update` twice is `Device::Update` once: model, PHYs and captures |
| SceneTheorems.RemoveChipKeepsIndexIffLast | src/controller/device.cc:74-91 | `chip_index` still equals position after a removal iff the last chip was removed |
| SceneTheorems.RequestAfterRemovalAborts | src/controller/device.cc:59-71 | after erasing any chip but the last of any number, a request for one chip aborts iff its key is on no remaining chip other than the one now at the erased position |
| SceneTheorems.RequestActsOnNeighbour | src/controller/device.cc:74-91 | for a chip further back, the request updates its model but calls the PHYs of the chip before it |
| SceneTheorems.UnknownChipAfterRemovalAborts | src/controller/device.cc:59-71 | a request whose first chip is on no chip of the device, ignored before such a removal, aborts after it |
| SceneTheorems.RemoveFirstOfTwoAborts | src/controller/device.cc:84-85 | on a device of two chips, erasing the first makes every later request that carries a chip abort |
| SceneTheorems.UpdateDeviceInv | src/controller/scene_controller.cc:100-109 | `UpdateDevice` keeps the scene invariant, every chip key and both list lengths |
| SceneTheorems.ResetChipInv | src/hci/bluetooth_facade.cc:238-245 | `BluetoothChip::Reset` keeps the scene invariant and the keys |
| SceneTheorems.ResetInv | src/controller/scene_controller.cc:119-125 | `SceneController::Reset` keeps the scene invariant and the chips |
| SceneTheorems.RemoveChipInv | src/controller/scene_controller.cc:54-68 | `RemoveChip` with any arguments keeps the scene invariant on one-chip devices; a device left chipless goes |
| SceneTheorems.AddHciConnectionInv | src/hci/bluetooth_facade.cc:344-369 | a new connection keeps the scene invariant, whether its serial is new, known or already has the chip |
| SceneTheorems.AddedChipDevice | src/controller/device.cc:93-104 | a chip is appended to both lists at the same position iff its key is new to the device |
| SceneTheorems.RunInv | src/controller/scene_controller.cc:42-125 | every run of the operations from a sound scene succeeds and stays sound |
| SceneTheorems.EveryRunIsSound | src/controller/scene_controller.cc:42-125 | over every run from the empty scene: no abort, distinct serials, no chipless device, index equals position, unique keys, radios agree with PHY membership, calls alternate |
| SceneEffects.KeysAreVariantAndId | src/controller/chip.cc:49-53 | two chips have the same key iff they have the same variant and the same id |
| SceneEffects.MatchesByField | src/controller/scene_controller.cc:78-99 | a device matches iff its serial contains that of the request, or without one its name the name of the request |
| SceneEffects.ChipUpdateFields | src/hci/bluetooth_facade.cc:247-275 | every field of the chip after an update in terms of the old chip and the request, and exactly the calls made to the emulator, in order |
| SceneEffects.DeviceUpdateFields | src/controller/device.cc:49-72 | position and orientation are the request's where present, the name unless empty; serial, visibility and chip list stay |
| SceneEffects.ResetEffect | src/controller/scene_controller.cc:119-125 | after a reset every device is visible and at the origin; serials, names, chips and emulator stay |
| SceneEffects.ResetChipEffect | src/hci/bluetooth_facade.cc:238-245 | after a chip reset both radios are on and attached and capture is off; no other field, chip or device changes |
| SceneEffects.AddHciConnectionToEmulator | src/hci/bluetooth_facade.cc:344-369 | the new connection is attached to both PHYs; captures and calls stay |
| SceneEffects.AddHciConnectionToNew | src/controller/scene_controller.cc:42-52 | an unknown serial is appended as a device with the one chip, at index 0 |
| SceneEffects.AddHciConnectionToKnown | src/controller/device.cc:93-104 | a device with that serial gets the chip at the end of both lists, unless it has an unnamed Bluetooth chip |
| SceneEffects.RemoveChipEffect | src/controller/scene_controller.cc:54-68 | the named chip goes from both lists, with the last one the device, and nothing else changes |
| SceneEffects.RemoveUnknownChip | src/controller/scene_controller.cc:54-68 | without such a chip nothing changes |
| SceneObjects.BluetoothChip.Update | src/hci/bluetooth_facade.cc:247-275 | through the index into the parent's model, exactly the value-level update; aborts iff the index is out of range |
| SceneObjects.SceneDevice.FindKey | src/controller/chip.cc:49-53 | the `KeyComp` loop finds the first chip with the key |
| SceneObjects.SceneDevice.UpdateByKey | src/controller/device.cc:59-71 | one requested chip updates the first chip with its key, or none |
| SceneObjects.SceneDevice.Update | src/controller/device.cc:49-72 | the whole update on the objects is the value-level update, emulator included |
| SceneObjects.SceneDevice.AddNewChip | src/controller/device.cc:93-104 | initialises and appends the chip unless its key is known |
| SceneObjects.SceneDevice.RemoveChipByKey | src/controller/device.cc:74-91 | erases the chip at the first position with the key from both lists, later indices unchanged; aborts where `chips[c]` is out of range |
| SceneObjects.SceneDevice.ResetPlacement | src/controller/device.cc:105-110 | visible, position and orientation cleared, chips untouched |
| SceneObjects.SceneController.Match | src/controller/scene_controller.cc:78-99 | the loop with `found` computes the unique match |
| SceneObjects.SceneController.Update | src/controller/scene_controller.cc:100-109 | `UpdateDevice` on the objects is the value-level one, and the observers are notified once iff it succeeds |
| SceneObjects.SceneController.RemoveChipFrom | src/controller/scene_controller.cc:54-68 | removes the chip and, if it was the last, the device |
| SceneObjects.SceneController.ResetScene | src/controller/scene_controller.cc:119-125 | resets every device, notifies the observers once, and changes nothing else |
| SceneObjects.SceneController.GetOrCreateDevice | src/controller/scene_controller.cc:42-52 | finds the device with the serial or appends a new one |
| SceneObjects.SceneController.AddHci | src/hci/bluetooth_facade.cc:344-369 | connection, chip object and device together are the value-level operation, and the new connection is entered in `id_to_chip_` with that chip |
| Cli.GetRadioRequestBytes | rust/netsim-cli/src/args.rs:53-71 | the message built through the setters is written as the request of the theorem below |
| Cli.GetMoveRequestBytes | rust/netsim-cli/src/args.rs:72-82 | the same for Move |
| Cli.GetCaptureRequestBytes | rust/netsim-cli/src/args.rs:84-89 | the same for Capture |
| Cli.RadioRequestDecodes | rust/netsim-cli/src/args.rs:53-71 | the bytes of the Radio command decode to the request |
| Cli.MoveRequestDecodes | rust/netsim-cli/src/args.rs:72-82 | the bytes of the Move command decode to the request, -0.0 turned into +0.0 |
| Cli.RadioCommand | rust/netsim-cli/src/args.rs:53-71 | end to end: encode, decode, update; the named radio and its PHY follow the command, every other radio, PHY, capture, name, position and device is unchanged |
| Cli.RadioOnDevice | src/controller/device.cc:49-72 | the same on the one device |
| Cli.MoveCommand | rust/netsim-cli/src/args.rs:72-82 | end to end: the whole world after the command equals the old one with that one position replaced |
| Cli.CaptureCommand | src/frontend/frontend_server.cc:66-79 | end to end: only the matching device's Bluetooth capture is switched; no radio or PHY membership changes |
| Cli.BadRequestChangesNothing | src/frontend/frontend_server.cc:54-79 | bytes that do not decode change nothing in the world |
| ThreadPool.ExactlyOnce | rust/netsim-cxx/src/frontend_http_server/thread_pool.rs:37-82 | in every interleaving the jobs of the run's `execute` calls are taken in order and are those taken and those queued, save the one a failed `send` has lost; those taken are in a worker's hands, done or crashed, as multisets |
| ThreadPool.LockDiscipline | rust/netsim-cxx/src/frontend_http_server/thread_pool.rs:66-82 | at most one worker is in `recv`, and none holds the lock while it runs a job |
| ThreadPool.DropReturnsAfterAllJobs | rust/netsim-cxx/src/frontend_http_server/thread_pool.rs:47-59 | when `drop` has returned, every job given to `execute` in the run has been taken and is done, and none has panicked |
| ThreadPool.SubmittedIsWhatWasGiven | rust/netsim-cxx/src/frontend_http_server/thread_pool.rs:37-45 | the channel's log is the list of jobs in the run's `execute` calls, up to the one whose `send` failed |
| ThreadPool.ExecutePanicsIffNoWorkerLeft | rust/netsim-cxx/src/frontend_http_server/thread_pool.rs:37-45 | `execute` panics iff every worker has panicked |
| ThreadPool.ShutdownProgress | rust/netsim-cxx/src/frontend_http_server/thread_pool.rs:47-82 | once the sender is dropped, some step is enabled until every worker has exited and the owner is through |
| ThreadPool.ShutdownDecreases | rust/netsim-cxx/src/frontend_http_server/thread_pool.rs:47-82 | every step after that lowers a measure over queue, worker phases and joins |
| ThreadPool.ShutdownIsBounded | rust/netsim-cxx/src/frontend_http_server/thread_pool.rs:47-82 | no run of the shutdown has more steps than the measure at its start |
| ThreadPool.ShutdownEnds | rust/netsim-cxx/src/frontend_http_server/thread_pool.rs:47-82 | where such a run can go no further all workers have ended, and if no job given to `execute` panics, `drop` has returned with every one of them done |
| BlockingQueue.QueueStepInv | src/util/blocking_queue.h:54-103 | each step of any thread keeps mutual exclusion, the order of items and the wake-up invariant |
| BlockingQueue.NoLostWakeup | src/util/blocking_queue.h:54-103 | in every reachable state, however often the consumer has come back, a consumer asleep on a stopped or non-empty queue has a thread that will still notify |
| BlockingQueue.NotificationArrives | src/util/blocking_queue.h:54-86 | that thread's own next one or two steps are enabled and wake the consumer |
| BlockingQueue.OrderedDelivery | src/util/blocking_queue.h:67-103 | in every reachable state the values of the run's `Push` calls are those `WaitAndPop` has returned, the one in hand and those queued, in order; `stopped` never goes back; `front` never meets an empty queue |
| BlockingQueue.PushedIsWhatWasPushed | src/util/blocking_queue.h:67-86 | from any state the queue's log grows by exactly the values of the pushes of the run |
| BlockingQueue.StoppedQueueTakesNothing | src/util/blocking_queue.h:67-86 | a stopped queue with no `Push` under way takes no value any more |
| BlockingQueue.AnyListCanBeDelivered | src/util/blocking_queue.h:67-103 | the consumer can call `WaitAndPop` again and again: from rest, any list of values can be pushed and popped one after the other |
| BlockingQueue.StoppedCheckDeliversNothing | src/util/blocking_queue.h:95-103 | once the predicate check has seen `stopped`, nothing is delivered, whatever others do in between |
| Transport.ExecInv | src/backend/backend_server_hci_transport.cc:96-184 | the invariant tying both threads' positions in `Done` to queue, flags and callback holds over every run |
| Transport.Shutdown | src/backend/backend_server_hci_transport.cc:148-156 | when both threads have finished `Done`: queue stopped, reading off, callback reset, invoked twice if the two overlapped and once otherwise |
| Transport.ExactlyOnceIffNoOverlap | src/backend/backend_server_hci_transport.cc:148-156 | one invocation and no call of an empty function iff neither thread tested the callback between the other's test and reset |
| Transport.OverlapBreaksTheCallback | src/backend/backend_server_hci_transport.cc:151-154 | concrete reachable runs in which the callback is invoked twice, and in which an empty `std::function` is called |
| Transport.WriterIsWoken | src/backend/backend_server_hci_transport.cc:178-184 | in every reachable state of the transport, its writer popping in a loop, a writer asleep on a stopped or non-empty queue has a notification coming from another thread |
| Transport.WrittenInOrder | src/backend/backend_server_hci_transport.cc:178-184 | over every run, what the write steps put on the stream is a prefix of what the push steps enqueued; before the writer is done only the queue and at most one packet in its hands lie between |
| Transport.LogsAreTheRun | src/backend/backend_server_hci_transport.cc:158-184 | the logs of enqueued and written packets are what the steps of the run push and write |
| Transport.FailureEndsLoop | src/backend/backend_server_hci_transport.cc:96-184 | after a failed read no packet is read, after a failed write or a pop without a packet none is written |
| Transport.CloseStopsReading | src/backend/backend_server_hci_transport.cc:110-156 | after reading is switched off at most the read under way comes back, and reading is never switched on again |
| Transport.DoneIsNeverStuck | src/backend/backend_server_hci_transport.cc:148-156 | a thread in `Done` can always step, or waits for a lock whose holder can step |
| TextUtil.DecimalRoundTrip | rust/netsim-cxx/src/frontend_http_server/http_request.rs:146-154 | what `to_string` prints, `parse::<usize>` reads back, for every usize |
| TextUtil.TrimPadded | rust/netsim-cxx/src/frontend_http_server/http_request.rs:134 | `trim` removes exactly the white space put around trimmed text |
| TextUtil.NextWordIs | rust/netsim-cxx/src/frontend_http_server/http_request.rs:117-121 | `split_whitespace` yields a word up to the white space after it |
| TextUtil.NextWordAfterSpaces | rust/netsim-cxx/src/frontend_http_server/http_request.rs:117-121 | white space before the word is passed over |
| TextUtil.SpaceIsWhiteSpace | rust/netsim-cxx/src/frontend_http_server/http_request.rs:117-134 | on valid UTF-8, white space is the code points of Unicode's White_Space |
| TextUtil.WordInChars | rust/netsim-cxx/src/frontend_http_server/http_request.rs:117-121 | a word is text none of whose code points is white space |
| TextUtil.TrimmedInChars | rust/netsim-cxx/src/frontend_http_server/http_request.rs:134 | trimmed text is text whose first and last code points are no white space |
| TextUtil.ParseUsizeIsDecimal | rust/netsim-cxx/src/frontend_http_server/http_request.rs:146-154 | `parse::<usize>` accepts exactly the non-empty digit strings, with or without a plus sign, whose value is below 2^64, and gives that value |
| TextUtil.DecimalIsDecimal | rust/netsim-cxx/src/frontend_http_server/http_response.rs:35-44 | `to_string` of a number: digits only, the right value, no leading zero |
| Bytes.Utf8HeadDecodes | rust/netsim-cxx/src/frontend_http_server/http_request.rs:111-122 | what is accepted as one code point is its UTF-8 encoding (RFC 3629 section 3) |
| Bytes.Utf8HeadRecognises | rust/netsim-cxx/src/frontend_http_server/http_request.rs:111-122 | the UTF-8 encoding of every scalar value is accepted and decoded to it |
| Http.Lookup | rust/netsim-cxx/src/frontend_http_server/http_request.rs:45-53 | the first header of that name without regard to ASCII case, none iff there is none |
| Http.HttpHeaders.Get | rust/netsim-cxx/src/frontend_http_server/http_request.rs:45-53 | the loop computes that lookup |
| Http.ReadRequestLine | rust/netsim-cxx/src/frontend_http_server/http_request.rs:111-122 | three words of one line, or the error of the first that is missing |
| Http.ReadHeaderSection | rust/netsim-cxx/src/frontend_http_server/http_request.rs:126-144 | the loop over the lines: headers in order, stopping after the empty line, at the end of input, or at an error |
| Http.Parse | rust/netsim-cxx/src/frontend_http_server/http_request.rs:95-108 | the request and the position after it, or the error |
| Http.RequestLineOf | rust/netsim-cxx/src/frontend_http_server/http_request.rs:111-122 | a request line of RFC 9112 section 3 is parsed to its three parts |
| Http.HeaderSectionOf | rust/netsim-cxx/src/frontend_http_server/http_request.rs:126-144 | a header section of RFC 9112 section 5 is parsed to exactly its fields, optional white space removed |
| Http.ParseOne | rust/netsim-cxx/src/frontend_http_server/http_request.rs:95-108 | a request of tokens, clean header texts and as many body bytes as its first Content-Length header announces is parsed to itself, and parsing stops at the first byte after it (RFC 9112 section 6.3) |
| Http.ContentLengthIsDeclared | rust/netsim-cxx/src/frontend_http_server/http_request.rs:146-154 | the length is the decimal value of the first header that spells Content-Length in any mixture of case, letter by letter; none without such a header or with any other value |
| Http.ShortBodyIsRefused | rust/netsim-cxx/src/frontend_http_server/http_request.rs:95-108 | with fewer bytes than announced the request is refused |
| Http.BadTextIsRefused | rust/netsim-cxx/src/frontend_http_server/http_request.rs:111-131 | a line that is not UTF-8 is refused, as request line and as header |
| Http.BlankLineIsRefused | rust/netsim-cxx/src/frontend_http_server/http_request.rs:111-122 | a request line of white space only lacks the method |
| Http.OneWordIsRefused | rust/netsim-cxx/src/frontend_http_server/http_request.rs:111-122 | a request line of one word lacks the URI |
| Http.TwoWordsAreRefused | rust/netsim-cxx/src/frontend_http_server/http_request.rs:111-122 | a request line of two words lacks the version |
| Http.NoColonIsRefused | rust/netsim-cxx/src/frontend_http_server/http_request.rs:133-141 | a header line of two bytes or more without a colon is refused, with its text |
| Http.HeaderSectionToTheEnd | rust/netsim-cxx/src/frontend_http_server/http_request.rs:126-144 | a header section that ends with the input yields its fields like one with an empty line |
| Http.BareLineFeed | rust/netsim-cxx/src/frontend_http_server/http_request.rs:126-131 | a line feed alone ends a line as well |
| Http.RequestText | rust/netsim-cxx/src/frontend_http_server/http_request.rs:26-27 | the well-formed requests of these theorems in letters |
| Http.RepeatedParsing | rust/netsim-cxx/src/frontend_http_server/http_request.rs:26-27 | `parse` called repeatedly on a concatenation of such requests returns exactly that list and leaves what follows |
| Http.OneByteLineEndsHeaders | rust/netsim-cxx/src/frontend_http_server/http_request.rs:133-141 | a line of one byte without a colon ends the header section like an empty line |
| Http.WriteResponse | rust/netsim-cxx/src/frontend_http_server/http_response.rs:35-44 | the buffer is status line, headers, empty line and body |
| Http.ResponseReadBack | rust/netsim-cxx/src/frontend_http_server/http_response.rs:35-55 | a printed 200 response reads back, headers, length and body exact, iff the content type is clean: no white space at either end, no line feed, valid UTF-8 |
| Http.Response200Text | rust/netsim-cxx/src/frontend_http_server/http_response.rs:35-55 | the bytes of a 200 response, letter by letter |
| Http.Response404Text | rust/netsim-cxx/src/frontend_http_server/http_response.rs:56-62 | the bytes of the 404 response, letter by letter |
| Ini.Trim | src/util/string_utils.cc:32-42 | a stretch of the text with no white space at either end, everything outside it white space |
| Ini.TrimLeavesAlone | src/util/string_utils.cc:32-42 | exactly trimmed text is left alone |
| Ini.SplitString | src/util/string_utils.cc:44-53 | the two-cursor loop ends for every non-empty delimiter and cuts the specified pieces |
| Ini.PiecesAreRuns | src/util/string_utils.cc:44-53 | for a one-byte delimiter the pieces are exactly the maximal delimiter-free runs, in order, none missing |
| Ini.EmptyDelimiterStands | src/util/string_utils.cc:44-53 | with an empty delimiter neither cursor ever moves, which is why the loop needs a non-empty one |
| Ini.IniFile.Read | src/util/ini_file.cc:26-50 | what is read replaces the data; without a file name or file the data is cleared all the same |
| Ini.IniFile.Write | src/util/ini_file.cc:52-70 | one line per entry in the order the map is walked |
| Ini.IniLetters | src/util/string_utils.cc:27 | the separator and the six white-space characters by name |
| Ini.FirstEntryStays | src/util/ini_file.cc:45-48 | whatever is read, a key that is present keeps its value |
| Ini.FirstOfTwoEntries | src/util/ini_file.cc:42-48 | of two lines with the same key the first counts |
| Ini.LastLineNeedsNoLf | src/util/ini_file.cc:41-42 | a last line without line feed is read like one with it |
| Ini.LineWithoutSeparator | src/util/ini_file.cc:43-45 | a line without `=` adds nothing |
| Ini.LineOfThreeParts | src/util/ini_file.cc:43-45 | a line with three or more parts between separators adds nothing |
| Ini.ReadIsClean | src/util/ini_file.cc:37-48 | whatever a file holds, the keys and values read from it are trimmed and free of `=` and line feed |
| Ini.ReadWritten | src/util/ini_file.cc:26-70 | writing clean data and reading it gives the entries whose key and value are not empty |
| Ini.RoundTrip | src/util/ini_file.cc:26-70 | `Read` after `Write` restores the map in every walking order iff all keys and values are non-empty, trimmed and free of `=` and line feed |
| Sessions.DeviceNotifyManager.Register | src/controller/device_notify_manager.cc:21-27 | the next id, skipping 0 at the wrap, and the observer under it |
| Sessions.DeviceNotifyManager.Notify | src/controller/device_notify_manager.cc:34-37 | calls every observer exactly once, in the order in which the map is walked |
| Sessions.NthIdIs | src/controller/device_notify_manager.cc:21-27 | the n-th registration gets ((n - 1) mod (2^32 - 1)) + 1 |
| Sessions.SameId | src/controller/device_notify_manager.cc:21-27 | two registrations share an id iff a multiple of 2^32 - 1 lies between them |
| Sessions.HttpSession.Callback | src/frontend/http_server.cc:137-244 | the event switch computes the specified session, manager, wake-up request and return code |
| Sessions.Routes | src/frontend/http_server.cc:176-197 | which path makes which call to the controller |
| Sessions.Codes | src/frontend/http_server.cc:71-86 | 400 exactly for a failed device update, 404 exactly for an unknown path, 200 otherwise |
| Sessions.WakesAndResults | src/frontend/http_server.cc:137-244 | exactly which events ask for a write, abort the session or complete it |
| Sessions.EventFields | src/frontend/http_server.cc:137-244 | path and body change with their events only, and nothing is called or sent outside a write event |
| Sessions.TwoWriteablesAnswer | src/frontend/http_server.cc:173-231 | two write events answer a request: one call with the stored path and body, header with its code, its text as body |
| Sessions.AtMostOnceInOrder | src/frontend/http_server.cc:173-231 | whatever events come, in whatever order, a session calls the controller, sends its header and sends its body at most once each, in that order, with the code and the text of that one call |
| Sessions.WholeBodyIffOneChunk | src/frontend/http_server.cc:164-167 | each body event overwrites the one before, so a body in several chunks reaches the controller whole iff all but the last are empty |
| Sessions.RegisteredAreOpenObservers | src/frontend/http_server.cc:153-238 | over every run with one HTTP and one CLOSED event per session and no registration 2^32 - 1 younger ones old, the registered ids are exactly those of the open register-updates sessions, never 0 |
| Sessions.SecondHttpLeaksAnId | src/frontend/http_server.cc:152-157 | why one HTTP event is assumed: whatever else a session saw and whoever else is registered, its close leaves nothing of it registered iff it registered at most once |

## Left out

- Unknown fields: skipped but not stored, so the round trips are about messages without them; encodings of 2^32 bytes or more and the run time's recursion limit are outside the theorems.
- Messages.StateFromI32: the State enum is closed as in the Rust code; an unknown number leaves the field as it was, where the C++ side would keep the number.
- Codec.SplitField: how the protobuf run time reads a singular message twice is not part of the repository; merging is taken from the Encoding document.
- The codecs of packet_streamer.proto, startup.proto and hci_packet.proto, and of the remaining messages of frontend.proto, repeat the same field kinds and loops and would add only easy members. GetDevicesResponse has the generated code of Scene.
- Sharing: messages are owned values in Rust, so methods take and return them; the C++ objects keep their aliasing, but a shared_ptr that outlives the device list is not modelled.
- SceneObjects.BluetoothChip.Update: what the objects hold after an abort is not specified.
- SceneTheorems.EveryRunIsSound: chips come from `AddHciConnection` only, as in the program; a second connection of a serial leaves its chip without a parent, and a later packet through it is not modelled.
- SceneTheorems.RemoveChipInv: stated for one-chip devices, because with more chips the property fails (`SceneTheorems.RemoveChipKeepsIndexIffLast`, `SceneTheorems.RemoveFirstOfTwoAborts`).
- Cli.RadioCommand: the server decodes with the C++ run time, whose generated code is not part of the repository; the decoder of the end to end theorems is the Rust one.
- Packet counters, capture file names, distances and signal strength: side data or floating-point results of library functions.
- rootcanal: PHY membership is a set, connection ids are fresh numbers, and a new connection starts attached to both PHYs.
- Transport.Shutdown: says nothing of a reader that stays blocked in `Read`, and packets read are passed to rootcanal without further effect.
- ThreadPool.ShutdownEnds: after a panicking job only the ending of the workers is claimed; unwinding of the owner is not modelled.
- Concurrency is sequentially consistent: a racy plain read or write is one atomic step.
- Sessions.HttpSession.Callback: the JSON text of a response is a parameter of the event, and libwebsockets' own scheduling of events is left out.
- Ini.SplitString: an empty delimiter is excluded, since the loop does not end for it (`Ini.EmptyDelimiterStands`).
- Http.Parse: errors of the underlying reader, and running out of memory for a huge Content-Length, are not modelled.
- JSON conversion, reflection, regular-expression routing, static files, gRPC and socket set-up, command-line parsing, logging, HCI name tables and the web user interface.

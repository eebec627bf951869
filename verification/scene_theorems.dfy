/** Invariants of the scene over every run, and what an update does. */
module SceneTheorems {
  import opened Bytes
  import opened Messages
  import opened SceneModel

  // ---------------------------------------------------------------- matching

  lemma {:induction false} MatchFromIsUnique(ds: seq<Dev>, serial: Text, name: Text, i: nat, found: Option<nat>)
    requires i <= |ds|
    requires forall j :: 0 <= j < i ==> (Matches(ds[j], serial, name) <==> found == Some(j))
    requires found.Some? ==> found.value < i
    ensures forall k: nat :: MatchFrom(ds, serial, name, i, found) == Some(k) <==> OnlyMatch(ds, serial, name, k)
    decreases |ds| - i
  {
    if i < |ds| {
      if !Matches(ds[i], serial, name) {
        MatchFromIsUnique(ds, serial, name, i + 1, found);
      } else if found == None {
        MatchFromIsUnique(ds, serial, name, i + 1, Some(i));
      } else {
        assert Matches(ds[found.value], serial, name);
      }
    }
  }

  /** `MatchDevice` returns a device exactly when it is the only one with the pattern in the chosen field. */
  lemma MatchDeviceIsUnique(ds: seq<Dev>, serial: Text, name: Text, k: nat)
    ensures MatchDevice(ds, serial, name) == Some(k) <==> !(serial == [] && name == []) && OnlyMatch(ds, serial, name, k)
  {
    MatchFromIsUnique(ds, serial, name, 0, None);
  }

  /** An update changes the one matching device and nothing else; without one it is refused and the scene stays. */
  lemma UpdateDeviceFrame(w: World, r: Device)
    requires UpdateDevice(w, r).Some?
    ensures var (w', ok) := UpdateDevice(w, r).value;
            && |w'.devices| == |w.devices|
            && (ok <==> r.deviceSerial != [] && exists k :: OnlyMatch(w.devices, r.deviceSerial, r.name, k))
            && (!ok ==> w' == w)
            && forall k: nat :: ok && OnlyMatch(w.devices, r.deviceSerial, r.name, k) ==>
                 && DeviceUpdate(w.devices[k], r, w.emulator) == Some((w'.devices[k], w'.emulator))
                 && forall j :: 0 <= j < |w.devices| && j != k ==> w'.devices[j] == w.devices[j]
  {
    if r.deviceSerial != [] {
      forall k: nat ensures MatchDevice(w.devices, r.deviceSerial, r.name) == Some(k) <==> OnlyMatch(w.devices, r.deviceSerial, r.name, k) {
        MatchDeviceIsUnique(w.devices, r.deviceSerial, r.name, k);
      }
    }
  }

  // ---------------------------------------------------------------- the invariant

  ghost predicate IndexInv(d: Dev) {
    |d.chips| == |d.model.chips| && forall i :: 0 <= i < |d.chips| ==> d.chips[i].index == i
  }

  ghost predicate DeviceInv(d: Dev) {
    && IndexInv(d)
    && |d.chips| > 0
    && (forall i :: 0 <= i < |d.chips| ==> CaseOf(d.model.chips[i]) == BtCase)
    && (forall i, j :: 0 <= i < j < |d.chips| ==> KeyOf(d.model.chips[i]) != KeyOf(d.model.chips[j]))
  }

  /** The emulator's copy of a chip's radios and capture agrees with the model. */
  ghost predicate Agrees(m: Chip, c: nat, e: Emulator) {
    && c < e.next
    && ((c, LowEnergy) in e.attached <==> LeOf(m).state == ON)
    && ((c, Classic) in e.attached <==> ClassicOf(m).state == ON)
    && (c in e.capturing <==> m.capture == ON)
    && LeOf(m).state != UNKNOWN && ClassicOf(m).state != UNKNOWN && m.capture != UNKNOWN
  }

  ghost predicate DeviceAgrees(d: Dev, e: Emulator)
    requires IndexInv(d)
  {
    forall i :: 0 <= i < |d.chips| ==> Agrees(d.model.chips[i], d.chips[i].connection, e)
  }

  /** Whether a connection is attached after these calls, having started attached. */
  function AttachedAfter(calls: seq<PhyCall>, c: nat, phy: Phy): bool {
    if calls == [] then true
    else
      var last := calls[|calls| - 1];
      if last.connection == c && last.phy == phy then last.attach else AttachedAfter(calls[..|calls| - 1], c, phy)
  }

  /** Every call flips the membership it finds: attach and detach alternate per connection and PHY. */
  ghost predicate Alternating(calls: seq<PhyCall>) {
    forall i :: 0 <= i < |calls| ==> calls[i].attach != AttachedAfter(calls[..i], calls[i].connection, calls[i].phy)
  }

  ghost predicate EmulatorInv(e: Emulator) {
    && Alternating(e.calls)
    && (forall c: nat, phy :: c < e.next ==> (AttachedAfter(e.calls, c, phy) <==> (c, phy) in e.attached))
    && (forall i :: 0 <= i < |e.calls| ==> e.calls[i].connection < e.next)
    && (forall c :: c in e.capturing ==> c < e.next)
  }

  ghost predicate SceneInv(w: World) {
    && EmulatorInv(w.emulator)
    && (forall k :: 0 <= k < |w.devices| ==> DeviceInv(w.devices[k]) && DeviceAgrees(w.devices[k], w.emulator))
    && (forall j, k :: 0 <= j < k < |w.devices| ==> w.devices[j].model.deviceSerial != w.devices[k].model.deviceSerial)
    && ConnectionsDistinct(w.devices)
  }

  ghost predicate ConnectionsDistinct(ds: seq<Dev>) {
    forall j, p, k, q :: 0 <= j < |ds| && 0 <= k < |ds| && 0 <= p < |ds[j].chips| && 0 <= q < |ds[k].chips|
                         && ds[j].chips[p].connection == ds[k].chips[q].connection
                         ==> j == k && p == q
  }

  // ---------------------------------------------------------------- one chip

  lemma AttachedAfterOne(calls: seq<PhyCall>, call: PhyCall, c: nat, phy: Phy)
    ensures AttachedAfter(calls + [call], c, phy)
         == if call.connection == c && call.phy == phy then call.attach else AttachedAfter(calls, c, phy)
  {
  }

  lemma AlternatingOne(calls: seq<PhyCall>, call: PhyCall)
    requires Alternating(calls) && call.attach != AttachedAfter(calls, call.connection, call.phy)
    ensures Alternating(calls + [call])
  {
    hide AttachedAfter;
    var all := calls + [call];
    assert all[..|calls|] == calls;
    forall i | 0 <= i < |all| ensures all[i].attach != AttachedAfter(all[..i], all[i].connection, all[i].phy) {
      if i < |calls| { assert all[..i] == calls[..i]; }
    }
  }

  /** A PHY call that changes the membership keeps the emulator's invariant. */
  lemma UpdatePhyInv(e: Emulator, c: nat, add: bool, phy: Phy)
    requires EmulatorInv(e) && c < e.next && (add <==> (c, phy) !in e.attached)
    ensures EmulatorInv(UpdatePhy(e, c, add, phy))
  {
    var e' := UpdatePhy(e, c, add, phy);
    var call := PhyCall(c, phy, add);
    AlternatingOne(e.calls, call);
    forall k: nat, p | k < e'.next ensures AttachedAfter(e'.calls, k, p) <==> (k, p) in e'.attached {
      AttachedAfterOne(e.calls, call, k, p);
    }
  }

  /** The emulator's record of every connection but `c`. */
  ghost predicate SameElsewhere(e: Emulator, e': Emulator, c: nat) {
    && e'.next == e.next
    && (forall k: nat, phy :: k != c ==> ((k, phy) in e'.attached <==> (k, phy) in e.attached))
    && (forall k: nat :: k != c ==> (k in e'.capturing <==> k in e.capturing))
  }

  /** The model of a chip after an update: named fields are replaced, UNKNOWN and empty ones change nothing. */
  function Override(m: Chip, r: Chip): Chip {
    var le, cl := LeOf(m), ClassicOf(m);
    BaseUpdate(m, r).(
      capture := if r.capture != UNKNOWN then r.capture else m.capture,
      kind := Some(Bt(BtOf(m).(
        lowEnergy := Some(if LeOf(r).state != UNKNOWN then le.(state := LeOf(r).state) else le),
        classic := Some(if ClassicOf(r).state != UNKNOWN then cl.(state := ClassicOf(r).state) else cl)))))
  }

  lemma ChipUpdateModel(m: Chip, r: Chip, c: nat, e: Emulator)
    ensures ChipUpdate(m, r, c, e).0 == Override(m, r)
  {
  }

  lemma UpdateCaptureAgrees(m: Chip, r: Chip, c: nat, e: Emulator)
    requires Agrees(m, c, e) && EmulatorInv(e)
    ensures var (m', e') := UpdateCapture(BaseUpdate(m, r), r, c, e);
            && Agrees(m', c, e') && EmulatorInv(e') && SameElsewhere(e, e', c) && KeyOf(m') == KeyOf(m) && CaseOf(m') == CaseOf(m)
  {
  }

  lemma UpdateLeEffect(m: Chip, r: Chip, c: nat, e: Emulator)
    requires CaseOf(m) == BtCase
    ensures var (m', e') := UpdateLe(m, r, c, e);
            var s, changed := LeOf(r).state, ChangedState(LeOf(m).state, LeOf(r).state);
            && KeyOf(m') == KeyOf(m) && CaseOf(m') == BtCase && ClassicOf(m') == ClassicOf(m) && m'.capture == m.capture
            && LeOf(m').state == (if changed then s else LeOf(m).state)
            && e' == if changed then UpdatePhy(e, c, s == ON, LowEnergy) else e
  {
  }

  lemma UpdateLeAgrees(m: Chip, r: Chip, c: nat, e: Emulator)
    requires Agrees(m, c, e) && EmulatorInv(e) && CaseOf(m) == BtCase
    ensures var (m', e') := UpdateLe(m, r, c, e);
            && Agrees(m', c, e') && EmulatorInv(e') && SameElsewhere(e, e', c) && KeyOf(m') == KeyOf(m) && CaseOf(m') == BtCase
  {
    var s := LeOf(r).state;
    if ChangedState(LeOf(m).state, s) { UpdatePhyInv(e, c, s == ON, LowEnergy); }
    UpdateLeEffect(m, r, c, e);
    hide EmulatorInv, UpdateLe, KeyOf, CaseOf, LeOf, ClassicOf;
  }

  lemma UpdateClassicEffect(m: Chip, r: Chip, c: nat, e: Emulator)
    requires CaseOf(m) == BtCase
    ensures var (m', e') := UpdateClassic(m, r, c, e);
            var s, changed := ClassicOf(r).state, ChangedState(ClassicOf(m).state, ClassicOf(r).state);
            && KeyOf(m') == KeyOf(m) && CaseOf(m') == BtCase && LeOf(m') == LeOf(m) && m'.capture == m.capture
            && ClassicOf(m').state == (if changed then s else ClassicOf(m).state)
            && e' == if changed then UpdatePhy(e, c, s == ON, Classic) else e
  {
  }

  lemma UpdateClassicAgrees(m: Chip, r: Chip, c: nat, e: Emulator)
    requires Agrees(m, c, e) && EmulatorInv(e) && CaseOf(m) == BtCase
    ensures var (m', e') := UpdateClassic(m, r, c, e);
            && Agrees(m', c, e') && EmulatorInv(e') && SameElsewhere(e, e', c) && KeyOf(m') == KeyOf(m) && CaseOf(m') == BtCase
  {
    var s := ClassicOf(r).state;
    if ChangedState(ClassicOf(m).state, s) { UpdatePhyInv(e, c, s == ON, Classic); }
    UpdateClassicEffect(m, r, c, e);
    hide EmulatorInv, UpdateClassic, KeyOf, CaseOf, LeOf, ClassicOf;
  }

  /** An update keeps the chip's key and keeps the emulator in agreement with the model. */
  lemma ChipUpdateAgrees(m: Chip, r: Chip, c: nat, e: Emulator)
    requires Agrees(m, c, e) && EmulatorInv(e) && CaseOf(m) == BtCase
    ensures var (m', e') := ChipUpdate(m, r, c, e);
            && Agrees(m', c, e') && EmulatorInv(e') && SameElsewhere(e, e', c) && KeyOf(m') == KeyOf(m)
  {
    hide EmulatorInv, Agrees, UpdateLe, UpdateClassic, UpdateCapture, KeyOf;
    var (m1, e1) := UpdateCapture(BaseUpdate(m, r), r, c, e);
    var (m2, e2) := UpdateLe(m1, r, c, e1);
    UpdateCaptureAgrees(m, r, c, e);
    UpdateLeAgrees(m1, r, c, e1);
    UpdateClassicAgrees(m2, r, c, e2);
  }

  // ---------------------------------------------------------------- one device

  /** The connections of a device are its own. */
  ghost predicate Distinct(d: Dev) {
    forall p, q :: 0 <= p < q < |d.chips| ==> d.chips[p].connection != d.chips[q].connection
  }

  ghost predicate Owns(d: Dev, c: nat) {
    exists i :: 0 <= i < |d.chips| && d.chips[i].connection == c
  }

  /** The emulator's record of connections that are not the device's. */
  ghost predicate SameOutside(e: Emulator, e': Emulator, d: Dev) {
    && e'.next == e.next
    && (forall c: nat, phy :: !Owns(d, c) ==> ((c, phy) in e'.attached <==> (c, phy) in e.attached))
    && (forall c: nat :: !Owns(d, c) ==> (c in e'.capturing <==> c in e.capturing))
  }

  ghost predicate Sound(d: Dev, e: Emulator) {
    DeviceInv(d) && Distinct(d) && DeviceAgrees(d, e) && EmulatorInv(e)
  }

  /** What the requests of a list that carry the chip's key do to its model, in order. */
  function OverrideAll(m: Chip, rs: seq<Chip>): Chip
    decreases |rs|
  {
    if rs == [] then m else OverrideAll(if KeyOf(rs[0]) == KeyOf(m) then Override(m, rs[0]) else m, rs[1..])
  }

  lemma {:induction false} FindChipFinds(d: Dev, key: Key, i: nat)
    requires IndexInv(d) && i <= |d.chips|
    requires forall j :: 0 <= j < i ==> KeyOf(d.model.chips[j]) != key
    ensures match FindChip(d, key, i)
            case Aborts => false
            case Missing => forall j :: 0 <= j < |d.chips| ==> KeyOf(d.model.chips[j]) != key
            case Found(p) => KeyOf(d.model.chips[p]) == key && forall j :: 0 <= j < p ==> KeyOf(d.model.chips[j]) != key
    decreases |d.chips| - i
  {
    if i < |d.chips| && KeyOf(d.model.chips[i]) != key {
      FindChipFinds(d, key, i + 1);
    }
  }

  /** One request updates the chip that carries its key and leaves the others, and their radios, alone. */
  lemma UpdateOneChipInv(d: Dev, r: Chip, e: Emulator)
    requires Sound(d, e)
    ensures UpdateOneChip(d, r, e).Some?
    ensures var (d', e') := UpdateOneChip(d, r, e).value;
            && Sound(d', e') && SameOutside(e, e', d) && d'.chips == d.chips
            && d'.model == d.model.(chips := d'.model.chips)
            && forall i :: 0 <= i < |d.chips| ==>
                 && KeyOf(d'.model.chips[i]) == KeyOf(d.model.chips[i])
                 && d'.model.chips[i] == if KeyOf(r) == KeyOf(d.model.chips[i]) then Override(d.model.chips[i], r) else d.model.chips[i]
  {
    assert IndexInv(d);
    FindChipFinds(d, KeyOf(r), 0);
    match FindChip(d, KeyOf(r), 0)
    case Missing =>
    case Found(p) =>
      hide EmulatorInv, Agrees, ChipUpdate, Override, KeyOf, CaseOf, Sound, SameOutside;
      var c := d.chips[p].connection;
      var (m, e') := ChipUpdate(d.model.chips[p], r, c, e);
      SoundChip(d, e, p);
      ChipUpdateAgrees(d.model.chips[p], r, c, e);
      ChipUpdateModel(d.model.chips[p], r, c, e);
      ReplaceChip(d, e, p, m, e');
  }

  lemma SoundChip(d: Dev, e: Emulator, p: nat)
    requires Sound(d, e) && p < |d.chips|
    ensures d.chips[p].index == p < |d.model.chips| && EmulatorInv(e)
    ensures Agrees(d.model.chips[p], d.chips[p].connection, e) && CaseOf(d.model.chips[p]) == BtCase
    ensures forall j :: 0 <= j < |d.chips| && j != p ==> KeyOf(d.model.chips[j]) != KeyOf(d.model.chips[p])
  {
  }

  /** Replacing one chip's model together with its emulator record. */
  lemma ReplaceChip(d: Dev, e: Emulator, p: nat, m: Chip, e': Emulator)
    requires Sound(d, e) && p < |d.chips| && p < |d.model.chips| && KeyOf(m) == KeyOf(d.model.chips[p])
    requires var c := d.chips[p].connection; Agrees(m, c, e') && SameElsewhere(e, e', c) && EmulatorInv(e')
    ensures Sound(d.(model := d.model.(chips := d.model.chips[p := m])), e') && SameOutside(e, e', d)
  {
    hide EmulatorInv, KeyOf, CaseOf, Agrees;
    var c := d.chips[p].connection;
    var d' := d.(model := d.model.(chips := d.model.chips[p := m]));
    KeyDecidesCase(m, d.model.chips[p]);
    forall i | 0 <= i < |d.chips| ensures Agrees(d'.model.chips[i], d.chips[i].connection, e') {
      if i != p { AgreesElsewhere(d.model.chips[i], d.chips[i].connection, c, e, e'); }
    }
    assert Owns(d, c);
  }

  lemma KeyDecidesCase(m: Chip, n: Chip)
    requires KeyOf(m) == KeyOf(n)
    ensures CaseOf(m) == CaseOf(n)
  {
  }

  lemma AgreesElsewhere(m: Chip, k: nat, c: nat, e: Emulator, e': Emulator)
    requires Agrees(m, k, e) && SameElsewhere(e, e', c) && k != c
    ensures Agrees(m, k, e')
  {
  }

  /** The nested loops of `Device::Update`: no abort, the same chips, and each model overridden by its own requests. */
  lemma {:induction false} UpdateChipsInv(d: Dev, rs: seq<Chip>, e: Emulator)
    requires Sound(d, e)
    ensures UpdateChips(d, rs, e).Some?
    ensures var (d', e') := UpdateChips(d, rs, e).value;
            && Sound(d', e') && SameOutside(e, e', d) && d'.chips == d.chips
            && d'.model == d.model.(chips := d'.model.chips)
            && forall i :: 0 <= i < |d.chips| ==>
                 && KeyOf(d'.model.chips[i]) == KeyOf(d.model.chips[i])
                 && d'.model.chips[i] == OverrideAll(d.model.chips[i], rs)
    decreases |rs|
  {
    hide UpdateOneChip, EmulatorInv, DeviceInv, DeviceAgrees, KeyOf, Override;
    if rs != [] {
      UpdateOneChipInv(d, rs[0], e);
      var (d1, e1) := UpdateOneChip(d, rs[0], e).value;
      UpdateChipsInv(d1, rs[1..], e1);
      forall c: nat | !Owns(d, c) ensures !Owns(d1, c) {}
    }
  }

  // ---------------------------------------------------------------- updating twice

  /** Sending the same request to a chip again changes nothing and makes no PHY call. */
  lemma ChipUpdateIdempotent(m: Chip, r: Chip, c: nat, e: Emulator)
    ensures var (m1, e1) := ChipUpdate(m, r, c, e); ChipUpdate(m1, r, c, e1) == (m1, e1)
  {
    ChipUpdateModel(m, r, c, e);
    OverrideSettles(m, r);
    hide Settled, ChipUpdate, Override;
    SettledStays(ChipUpdate(m, r, c, e).0, r, c, ChipUpdate(m, r, c, e).1);
  }

  /** The chip has both radios and already is as the request wants it. */
  predicate Settled(m: Chip, r: Chip) {
    && m.kind.Some? && m.kind.value.Bt? && BtOf(m).lowEnergy.Some? && BtOf(m).classic.Some?
    && BaseUpdate(m, r) == m
    && !ChangedState(m.capture, r.capture)
    && !ChangedState(LeOf(m).state, LeOf(r).state) && !ChangedState(ClassicOf(m).state, ClassicOf(r).state)
  }

  lemma OverrideSettles(m: Chip, r: Chip)
    ensures Settled(Override(m, r), r)
  {
  }

  lemma SettledStays(m: Chip, r: Chip, c: nat, e: Emulator)
    requires Settled(m, r)
    ensures ChipUpdate(m, r, c, e) == (m, e)
  {
  }

  function Later(a: State, b: State): State { if b != UNKNOWN then b else a }

  /** The single request that does what `a` followed by `b` does. */
  function Combine(a: Chip, b: Chip): Chip {
    b.(manufacturer := if b.manufacturer != [] then b.manufacturer else a.manufacturer,
       model := if b.model != [] then b.model else a.model,
       capture := Later(a.capture, b.capture),
       kind := Some(Bt(Bluetooth(
         Some(NEW_RADIO.(state := Later(LeOf(a).state, LeOf(b).state))),
         Some(NEW_RADIO.(state := Later(ClassicOf(a).state, ClassicOf(b).state))), 0))))
  }

  lemma CombineOverrides(m: Chip, a: Chip, b: Chip)
    ensures Override(Override(m, a), b) == Override(m, Combine(a, b))
    ensures Override(Override(m, a), a) == Override(m, a)
  {
  }

  function Summary(key: Key, rs: seq<Chip>): Option<Chip>
    decreases |rs|
  {
    if rs == [] then None
    else
      var rest := Summary(key, rs[1..]);
      if KeyOf(rs[0]) != key then rest
      else if rest == None then Some(rs[0])
      else Some(Combine(rs[0], rest.value))
  }

  /** All requests of a list with the chip's key amount to one request. */
  lemma {:induction false} OverrideAllIsOne(m: Chip, rs: seq<Chip>)
    requires CaseOf(m) == BtCase
    ensures OverrideAll(m, rs) == match Summary(KeyOf(m), rs) case None => m case Some(r) => Override(m, r)
    decreases |rs|
  {
    if rs != [] {
      var m' := if KeyOf(rs[0]) == KeyOf(m) then Override(m, rs[0]) else m;
      assert KeyOf(m') == KeyOf(m);
      OverrideAllIsOne(m', rs[1..]);
      var rest := Summary(KeyOf(m), rs[1..]);
      if rest.Some? { CombineOverrides(m, rs[0], rest.value); }
      hide Override, Combine, KeyOf;
    }
  }

  lemma OverrideAllTwice(m: Chip, rs: seq<Chip>)
    requires CaseOf(m) == BtCase
    ensures KeyOf(OverrideAll(m, rs)) == KeyOf(m)
    ensures OverrideAll(OverrideAll(m, rs), rs) == OverrideAll(m, rs)
  {
    OverrideAllIsOne(m, rs);
    var s := Summary(KeyOf(m), rs);
    if s.Some? {
      OverrideAllIsOne(Override(m, s.value), rs);
      CombineOverrides(m, s.value, s.value);
    }
  }

  /** `Device::Update` with its placement fields: no abort, keys kept, emulator in agreement. */
  lemma DeviceUpdateInv(d: Dev, r: Device, e: Emulator)
    requires Sound(d, e)
    ensures DeviceUpdate(d, r, e).Some?
    ensures var (d', e') := DeviceUpdate(d, r, e).value;
            && Sound(d', e') && SameOutside(e, e', d) && d'.chips == d.chips
            && d'.model == UpdatePlacement(d.model, r).(chips := d'.model.chips)
            && forall i :: 0 <= i < |d.chips| ==>
                 && KeyOf(d'.model.chips[i]) == KeyOf(d.model.chips[i])
                 && d'.model.chips[i] == OverrideAll(d.model.chips[i], r.chips)
  {
    var d1 := d.(model := UpdatePlacement(d.model, r));
    assert Sound(d1, e);
    UpdateChipsInv(d1, r.chips, e);
    var (d2, e2) := UpdateChips(d1, r.chips, e).value;
    assert forall c: nat :: Owns(d, c) <==> Owns(d1, c);
    hide OverrideAll, KeyOf, EmulatorInv, Agrees;
  }

  lemma OwnedConnectionAgrees(d: Dev, e: Emulator, c: nat) returns (p: nat)
    requires Sound(d, e) && Owns(d, c)
    ensures p < |d.chips| && d.chips[p].connection == c && p < |d.model.chips| && Agrees(d.model.chips[p], c, e)
  {
    p :| 0 <= p < |d.chips| && d.chips[p].connection == c;
    SoundChip(d, e, p);
  }

  /** Same chips, same models and the same record of other connections: the emulator has the same memberships. */
  lemma AgreementDecides(d: Dev, e: Emulator, e': Emulator)
    requires Sound(d, e) && Sound(d, e') && SameOutside(e, e', d)
    ensures e'.attached == e.attached && e'.capturing == e.capturing
  {
    hide Sound;
    forall x: (nat, Phy) ensures x in e'.attached <==> x in e.attached {
      var c := x.0;
      assert x == (c, x.1);
      if Owns(d, c) {
        var p := OwnedConnectionAgrees(d, e, c);
        var q := OwnedConnectionAgrees(d, e', c);
        assert p == q by { SameChip(d, e, p, q); }
        match x.1 case LowEnergy => case Classic =>
      }
    }
    forall c: nat ensures c in e'.capturing <==> c in e.capturing {
      if Owns(d, c) {
        var p := OwnedConnectionAgrees(d, e, c);
        var q := OwnedConnectionAgrees(d, e', c);
        assert p == q by { SameChip(d, e, p, q); }
      }
    }
  }

  lemma SameChip(d: Dev, e: Emulator, p: nat, q: nat)
    requires Sound(d, e) && p < |d.chips| && q < |d.chips| && d.chips[p].connection == d.chips[q].connection
    ensures p == q
  {
  }

  /** `Device::Update` is idempotent: model, PHY membership and captures are as after the first update. */
  lemma DeviceUpdateIdempotent(d: Dev, r: Device, e: Emulator)
    requires Sound(d, e)
    ensures DeviceUpdate(d, r, e).Some?
    ensures var (d1, e1) := DeviceUpdate(d, r, e).value;
            && DeviceUpdate(d1, r, e1).Some?
            && var (d2, e2) := DeviceUpdate(d1, r, e1).value;
               d2 == d1 && e2.attached == e1.attached && e2.capturing == e1.capturing && e2.next == e1.next
  {
    DeviceUpdateInv(d, r, e);
    var (d1, e1) := DeviceUpdate(d, r, e).value;
    DeviceUpdateInv(d1, r, e1);
    var (d2, e2) := DeviceUpdate(d1, r, e1).value;
    forall i | 0 <= i < |d.chips| ensures d2.model.chips[i] == d1.model.chips[i] {
      SoundChip(d, e, i);
      OverrideAllTwice(d.model.chips[i], r.chips);
    }
    assert d2.model.chips == d1.model.chips;
    AgreementDecides(d1, e1, e2);
  }

  // ---------------------------------------------------------------- removing a chip

  /** Erasing a chip leaves `chip_index` equal to position exactly when the last chip goes. */
  lemma RemoveChipKeepsIndexIffLast(d: Dev, key: Key)
    requires IndexInv(d) && FindModel(d.model.chips, key) < |d.model.chips|
    ensures DeviceRemoveChip(d, key).Some?
    ensures IndexInv(DeviceRemoveChip(d, key).value.0) <==> FindModel(d.model.chips, key) == |d.chips| - 1
  {
    var p := FindModel(d.model.chips, key);
    var d' := DeviceRemoveChip(d, key).value.0;
    if p < |d.chips| - 1 {
      assert d'.chips[p] == d.chips[p + 1];
    }
  }

  /** With the chip at `p` erased, and not the last: the handles from `p` on are one too high. */
  ghost predicate Shifted(d: Dev, p: nat) {
    && |d.chips| == |d.model.chips| && p < |d.chips|
    && forall i :: 0 <= i < |d.chips| ==> d.chips[i].index == if i < p then i else i + 1
  }

  lemma RemovalShifts(d: Dev, key: Key)
    requires IndexInv(d) && FindModel(d.model.chips, key) < |d.chips| - 1
    ensures var p := FindModel(d.model.chips, key);
            var after := DeviceRemoveChip(d, key);
            && after.Some? && Shifted(after.value.0, p)
            && after.value.0.model == d.model.(chips := Without(d.model.chips, p)) && after.value.0.chips == Without(d.chips, p)
  {
  }

  /** Some chip that a handle still points at has the key; the one now at `p` is pointed at by none. */
  ghost predicate Reached(d: Dev, p: nat, key: Key) {
    exists j :: 0 <= j < |d.model.chips| && j != p && KeyOf(d.model.chips[j]) == key
  }

  lemma {:induction false} FindShifted(d: Dev, p: nat, key: Key, i: nat)
    requires Shifted(d, p) && i <= |d.chips|
    requires forall q :: 0 <= q < i ==> d.chips[q].index < |d.model.chips| && KeyOf(d.model.chips[d.chips[q].index]) != key
    ensures FindChip(d, key, i) == Aborts <==> !Reached(d, p, key)
    decreases |d.chips| - i
  {
    var n := |d.chips|;
    assert d.chips[n - 1].index == n;
    var index := d.chips[i].index;
    if index == n {
      forall j | 0 <= j < n && j != p ensures KeyOf(d.model.chips[j]) != key {
        var q := if j < p then j else j - 1;
        assert d.chips[q].index == j;
      }
    } else if KeyOf(d.model.chips[index]) != key {
      FindShifted(d, p, key, i + 1);
    }
  }

  /**
   After the removal of any chip but the last, a request for one chip aborts if and only if its key is that of no
   remaining chip other than the one that moved to the erased position.
   */
  lemma RequestAfterRemovalAborts(d: Dev, key: Key, r: Chip, e: Emulator)
    requires IndexInv(d) && FindModel(d.model.chips, key) < |d.chips| - 1
    ensures var p, after := FindModel(d.model.chips, key), DeviceRemoveChip(d, key);
            after.Some? && (UpdateOneChip(after.value.0, r, e) == None <==> !Reached(after.value.0, p, KeyOf(r)))
  {
    RemovalShifts(d, key);
    var d' := DeviceRemoveChip(d, key).value.0;
    FindShifted(d', FindModel(d.model.chips, key), KeyOf(r), 0);
    hide DeviceRemoveChip, KeyOf, ChipUpdate;
  }

  /** What a request finds behind the erased position: the model of one chip, with the connection of the one before it. */
  lemma RequestActsOnNeighbour(d: Dev, key: Key, r: Chip, e: Emulator, j: nat)
    requires DeviceInv(d) && FindModel(d.model.chips, key) + 1 < j < |d.chips| && KeyOf(r) == KeyOf(d.model.chips[j])
    ensures var after := DeviceRemoveChip(d, key);
            && after.Some?
            && var d' := after.value.0;
               var (m, e') := ChipUpdate(d.model.chips[j], r, d.chips[j - 1].connection, e);
               UpdateOneChip(d', r, e) == Some((d'.(model := d'.model.(chips := d'.model.chips[j - 1 := m])), e'))
  {
    RemovalShifts(d, key);
    hide DeviceRemoveChip;
    NeighbourAnswers(d, DeviceRemoveChip(d, key).value.0, FindModel(d.model.chips, key), r, e, j);
  }

  lemma NeighbourAnswers(d: Dev, d': Dev, p: nat, r: Chip, e: Emulator, j: nat)
    requires DeviceInv(d) && p + 1 < j < |d.chips| && KeyOf(r) == KeyOf(d.model.chips[j])
    requires Shifted(d', p) && d'.model.chips == Without(d.model.chips, p) && d'.chips == Without(d.chips, p)
    ensures var (m, e') := ChipUpdate(d.model.chips[j], r, d.chips[j - 1].connection, e);
            UpdateOneChip(d', r, e) == Some((d'.(model := d'.model.(chips := d'.model.chips[j - 1 := m])), e'))
  {
    hide ChipUpdate, KeyOf, FindChip;
    assert d'.model.chips[j - 1] == d.model.chips[j] && d'.chips[j - 2] == d.chips[j - 1];
    FindNeighbour(d, d', p, KeyOf(r), j, 0);
  }

  lemma {:induction false} FindNeighbour(d: Dev, d': Dev, p: nat, key: Key, j: nat, i: nat)
    requires DeviceInv(d) && p + 1 < j < |d.chips| && key == KeyOf(d.model.chips[j]) && i <= j - 2
    requires Shifted(d', p) && d'.model.chips == Without(d.model.chips, p)
    ensures FindChip(d', key, i) == Found(j - 2)
    decreases j - i
  {
    hide KeyOf;
    var index := d'.chips[i].index;
    var was := if index < p then index else index + 1;
    assert d'.model.chips[index] == d.model.chips[was];
    if i < j - 2 { FindNeighbour(d, d', p, key, j, i + 1); }
  }

  /** So with the first of several chips erased, a request whose key is on no chip aborts instead of being ignored. */
  lemma UnknownChipAfterRemovalAborts(d: Dev, key: Key, r: Device, e: Emulator)
    requires IndexInv(d) && FindModel(d.model.chips, key) < |d.chips| - 1 && r.chips != []
    requires forall j :: 0 <= j < |d.model.chips| ==> KeyOf(d.model.chips[j]) != KeyOf(r.chips[0])
    ensures var after := DeviceRemoveChip(d, key);
            after.Some? && DeviceUpdate(after.value.0, r, e) == None
  {
    RemovalShifts(d, key);
    var p, d' := FindModel(d.model.chips, key), DeviceRemoveChip(d, key).value.0;
    hide DeviceRemoveChip, KeyOf, ChipUpdate;
    var d1 := d'.(model := UpdatePlacement(d'.model, r));
    FindShifted(d1, p, KeyOf(r.chips[0]), 0);
    forall j | 0 <= j < |d'.model.chips| ensures KeyOf(d'.model.chips[j]) != KeyOf(r.chips[0]) {
      assert d'.model.chips[j] == d.model.chips[if j < p then j else j + 1];
    }
  }

  /** With the first of two chips erased, any request for the device that carries a chip aborts. */
  lemma RemoveFirstOfTwoAborts(d: Dev, r: Device, e: Emulator)
    requires DeviceInv(d) && |d.chips| == 2 && r.chips != []
    ensures var after := DeviceRemoveChip(d, KeyOf(d.model.chips[0]));
            after.Some? && DeviceUpdate(after.value.0, r, e) == None
  {
  }

  // ---------------------------------------------------------------- the whole scene

  lemma SceneSound(w: World, k: nat)
    requires SceneInv(w) && k < |w.devices|
    ensures Sound(w.devices[k], w.emulator)
  {
  }

  lemma NotOwned(w: World, k: nat, j: nat, p: nat)
    requires SceneInv(w) && k < |w.devices| && j < |w.devices| && j != k && p < |w.devices[j].chips|
    ensures !Owns(w.devices[k], w.devices[j].chips[p].connection)
  {
  }

  lemma AgreesOutside(m: Chip, c: nat, d: Dev, e: Emulator, e': Emulator)
    requires Agrees(m, c, e) && SameOutside(e, e', d) && !Owns(d, c)
    ensures Agrees(m, c, e')
  {
  }

  /** A device changed together with the emulator's record of it. */
  lemma ReplaceDevice(w: World, k: nat, d: Dev, e: Emulator)
    requires SceneInv(w) && k < |w.devices| && Sound(d, e) && SameOutside(w.emulator, e, w.devices[k])
    requires d.chips == w.devices[k].chips && d.model.deviceSerial == w.devices[k].model.deviceSerial
    ensures SceneInv(World(w.devices[k := d], e))
  {
    hide EmulatorInv, Agrees, SameOutside;
    var ds := w.devices[k := d];
    forall j | 0 <= j < |ds| && j != k ensures DeviceAgrees(ds[j], e) {
      forall p | 0 <= p < |ds[j].chips| ensures Agrees(ds[j].model.chips[p], ds[j].chips[p].connection, e) {
        NotOwned(w, k, j, p);
        AgreesOutside(ds[j].model.chips[p], ds[j].chips[p].connection, w.devices[k], w.emulator, e);
      }
    }
  }

  lemma UpdateDeviceInv(w: World, r: Device)
    requires SceneInv(w)
    ensures UpdateDevice(w, r).Some? && SceneInv(UpdateDevice(w, r).value.0)
    ensures var w' := UpdateDevice(w, r).value.0;
            |w'.devices| == |w.devices| && forall k :: 0 <= k < |w.devices| ==>
              && w'.devices[k].chips == w.devices[k].chips
              && |w'.devices[k].model.chips| == |w.devices[k].model.chips|
              && forall i :: 0 <= i < |w.devices[k].model.chips| ==> KeyOf(w'.devices[k].model.chips[i]) == KeyOf(w.devices[k].model.chips[i])
  {
    hide KeyOf, EmulatorInv, Agrees;
    if r.deviceSerial != [] {
      match MatchDevice(w.devices, r.deviceSerial, r.name)
      case None =>
      case Some(k) =>
        SceneSound(w, k);
        DeviceUpdateInv(w.devices[k], r, w.emulator);
        var (d, e) := DeviceUpdate(w.devices[k], r, w.emulator).value;
        ReplaceDevice(w, k, d, e);
    }
  }

  lemma ResetChipInv(w: World, k: nat, p: nat)
    requires SceneInv(w) && k < |w.devices| && p < |w.devices[k].chips|
    ensures ResetChip(w, k, p).Some? && SceneInv(ResetChip(w, k, p).value)
    ensures var w' := ResetChip(w, k, p).value;
            && |w'.devices| == |w.devices| && w'.devices[k].chips == w.devices[k].chips
            && (forall j :: 0 <= j < |w.devices| && j != k ==> w'.devices[j] == w.devices[j])
            && |w'.devices[k].model.chips| == |w.devices[k].model.chips|
            && forall i :: 0 <= i < |w.devices[k].model.chips| ==> KeyOf(w'.devices[k].model.chips[i]) == KeyOf(w.devices[k].model.chips[i])
  {
    hide KeyOf, EmulatorInv, Agrees, ChipUpdate;
    var d := w.devices[k];
    SceneSound(w, k);
    SoundChip(d, w.emulator, p);
    var c := d.chips[p].connection;
    var (m, e) := ChipUpdate(d.model.chips[p], INITIAL_CHIP, c, w.emulator);
    ChipUpdateAgrees(d.model.chips[p], INITIAL_CHIP, c, w.emulator);
    ReplaceChip(d, w.emulator, p, m, e);
    ReplaceDevice(w, k, d.(model := d.model.(chips := d.model.chips[p := m])), e);
  }

  /** `SceneController::Reset` touches placement and visibility only. */
  lemma ResetInv(w: World)
    requires SceneInv(w)
    ensures SceneInv(Reset(w)) && |Reset(w).devices| == |w.devices|
    ensures forall k :: 0 <= k < |w.devices| ==>
              Reset(w).devices[k].chips == w.devices[k].chips && Reset(w).devices[k].model.chips == w.devices[k].model.chips
  {
    hide KeyOf, EmulatorInv, Agrees;
    assert forall k :: 0 <= k < |w.devices| ==> Reset(w).devices[k] == DeviceReset(w.devices[k]);
  }

  /** Removing the last chip of a device, or one it does not have, keeps the scene's invariant. */
  lemma RemoveChipInv(w: World, serial: Text, key: Key)
    requires SceneInv(w)
    requires var k := GetDevice(w.devices, serial);
             k < |w.devices| ==> FindModel(w.devices[k].model.chips, key) >= |w.devices[k].chips| - 1
    ensures RemoveChip(w, serial, key).Some? && SceneInv(RemoveChip(w, serial, key).value)
  {
    hide KeyOf, EmulatorInv, Agrees, FindModel;
    var k := GetDevice(w.devices, serial);
    if k < |w.devices| {
      var d := w.devices[k];
      SceneSound(w, k);
      var p := FindModel(d.model.chips, key);
      FindModelBound(d.model.chips, key);
      if p < |d.chips| {
        var (d', empty) := DeviceRemoveChip(d, key).value;
        assert d'.chips == d.chips[..p] && d'.model.chips == d.model.chips[..p];
        if empty {
          WithoutKeepsInv(w, k);
        } else {
          ShrinkDevice(w, k, d', p);
        }
      } else {
        assert w.devices[k := d] == w.devices;
      }
    }
  }

  lemma FindModelBound(ms: seq<Chip>, key: Key)
    ensures FindModel(ms, key) <= |ms|
  {
  }

  lemma WithoutKeepsInv(w: World, k: nat)
    requires SceneInv(w) && k < |w.devices|
    ensures SceneInv(w.(devices := Without(w.devices, k)))
  {
    hide KeyOf, EmulatorInv, DeviceInv, Agrees;
    var ds := Without(w.devices, k);
    assert forall j :: 0 <= j < |ds| ==> ds[j] == w.devices[if j < k then j else j + 1];
  }

  lemma ShrinkDevice(w: World, k: nat, d: Dev, n: nat)
    requires SceneInv(w) && k < |w.devices| && 0 < n <= |w.devices[k].chips|
    requires d == Dev(w.devices[k].model.(chips := w.devices[k].model.chips[..n]), w.devices[k].chips[..n])
    ensures SceneInv(w.(devices := w.devices[k := d]))
  {
    hide KeyOf, EmulatorInv, Agrees, CaseOf;
    var ds := w.devices[k := d];
    assert forall j :: 0 <= j < |ds| && j != k ==> ds[j] == w.devices[j];
    assert forall p :: 0 <= p < n ==> d.chips[p] == w.devices[k].chips[p];
  }

  function NextConnection(e: Emulator): Emulator {
    e.(attached := e.attached + {(e.next, LowEnergy), (e.next, Classic)}, next := e.next + 1)
  }

  lemma {:induction false} NoCallsStaysAttached(calls: seq<PhyCall>, c: nat, phy: Phy)
    requires forall i :: 0 <= i < |calls| ==> calls[i].connection < c
    ensures AttachedAfter(calls, c, phy)
    decreases |calls|
  {
    if calls != [] { NoCallsStaysAttached(calls[..|calls| - 1], c, phy); }
  }

  lemma NextConnectionInv(e: Emulator)
    requires EmulatorInv(e)
    ensures EmulatorInv(NextConnection(e)) && Agrees(INITIAL_CHIP, e.next, NextConnection(e))
    ensures forall m, c :: Agrees(m, c, e) ==> Agrees(m, c, NextConnection(e))
  {
    var e' := NextConnection(e);
    forall c: nat, phy | c < e'.next ensures AttachedAfter(e'.calls, c, phy) <==> (c, phy) in e'.attached {
      if c == e.next {
        NoCallsStaysAttached(e.calls, c, phy);
        match phy case LowEnergy => case Classic =>
      }
    }
  }

  /** The device with the serial: an existing one, or a new one at the end. */
  lemma SerialsStayDistinct(ds: seq<Dev>, serial: Text)
    requires forall j, k :: 0 <= j < k < |ds| ==> ds[j].model.deviceSerial != ds[k].model.deviceSerial
    ensures var es := GetOrCreate(ds, serial);
            forall j, k :: 0 <= j < k < |es| ==> es[j].model.deviceSerial != es[k].model.deviceSerial
  {
  }

  lemma AddedChipDevice(d: Dev, e: Emulator)
    requires IndexInv(d) && DeviceAgrees(d, e) && EmulatorInv(e)
    requires d.chips == [] || DeviceInv(d)
    ensures var r := AddChip(d, e.next, INITIAL_CHIP);
            && r.Some? && DeviceInv(r.value) && DeviceAgrees(r.value, NextConnection(e))
            && r.value.model.(chips := []) == d.model.(chips := [])
            && (r.value == d || (r.value.chips == d.chips + [Handle(|d.chips|, e.next)] && r.value.model.chips == d.model.chips + [INITIAL_CHIP]))
            && (r.value == d <==> exists i :: 0 <= i < |d.chips| && KeyOf(d.model.chips[i]) == KeyOf(INITIAL_CHIP))
  {
    NextConnectionInv(e);
    FindChipFinds(d, KeyOf(INITIAL_CHIP), 0);
    assert CaseOf(INITIAL_CHIP) == BtCase;
    hide Agrees, EmulatorInv, KeyOf, CaseOf;
    var r := AddChip(d, e.next, INITIAL_CHIP).value;
    match FindChip(d, KeyOf(INITIAL_CHIP), 0)
    case Found(p) => assert KeyOf(d.model.chips[p]) == KeyOf(INITIAL_CHIP);
    case Missing =>
      assert r != d by { assert |r.chips| != |d.chips|; }
  }

  /** The devices after a new connection. */
  function Connected(w: World, serial: Text): (r: seq<Dev>)
    requires AddHciConnection(w, serial).Some?
  {
    AddHciConnection(w, serial).value.devices
  }

  lemma ConnectedChips(w: World, serial: Text)
    requires SceneInv(w)
    ensures var k, ds, e := GetDevice(w.devices, serial), GetOrCreate(w.devices, serial), w.emulator;
            && AddChip(ds[k], e.next, INITIAL_CHIP).Some?
            && var d := AddChip(ds[k], e.next, INITIAL_CHIP).value;
               && DeviceInv(d) && DeviceAgrees(d, NextConnection(e))
               && AddHciConnection(w, serial) == Some(World(ds[k := d], NextConnection(e)))
               && d.model.deviceSerial == ds[k].model.deviceSerial
               && (d.chips == ds[k].chips || d.chips == ds[k].chips + [Handle(|ds[k].chips|, e.next)])
  {
    var k, ds := GetDevice(w.devices, serial), GetOrCreate(w.devices, serial);
    assert k < |w.devices| ==> ds[k] == w.devices[k];
    AddedChipDevice(ds[k], w.emulator);
    hide AddChip, EmulatorInv, KeyOf, CaseOf, Agrees;
  }

  lemma ConnectedDistinct(w: World, serial: Text)
    requires SceneInv(w)
    ensures AddHciConnection(w, serial).Some? && ConnectionsDistinct(Connected(w, serial))
  {
    ConnectedChips(w, serial);
    var k, ds := GetDevice(w.devices, serial), GetOrCreate(w.devices, serial);
    var d := AddChip(ds[k], w.emulator.next, INITIAL_CHIP).value;
    hide AddChip, EmulatorInv, DeviceInv, DeviceAgrees;
    forall j, p | 0 <= j < |ds| && 0 <= p < |ds[j].chips| ensures ds[j].chips[p].connection < w.emulator.next {
      assert ds[j] == w.devices[j];
      ConnectionsBelowNext(w, j, p);
    }
    CreatedStaysDistinct(w.devices, serial);
    FreshConnection(ds, k, d, w.emulator.next);
  }

  lemma ConnectedSerials(w: World, serial: Text)
    requires SceneInv(w)
    ensures AddHciConnection(w, serial).Some?
    ensures var ds := Connected(w, serial);
            forall j, k :: 0 <= j < k < |ds| ==> ds[j].model.deviceSerial != ds[k].model.deviceSerial
  {
    ConnectedChips(w, serial);
    SerialsStayDistinct(w.devices, serial);
    hide AddChip, AddHciConnection, DeviceInv, DeviceAgrees, EmulatorInv, ConnectionsDistinct;
  }

  /** The other devices are as they were, and a new connection is none of theirs. */
  lemma OtherDeviceStaysSound(w: World, serial: Text, j: nat)
    requires SceneInv(w) && j < |GetOrCreate(w.devices, serial)| && j != GetDevice(w.devices, serial)
    ensures var d := GetOrCreate(w.devices, serial)[j]; DeviceInv(d) && DeviceAgrees(d, NextConnection(w.emulator))
  {
    assert GetOrCreate(w.devices, serial)[j] == w.devices[j];
    NextConnectionInv(w.emulator);
    hide NextConnection, EmulatorInv, Agrees, ConnectionsDistinct;
  }

  lemma ConnectedDevices(w: World, serial: Text)
    requires SceneInv(w)
    ensures AddHciConnection(w, serial).Some?
    ensures var w' := AddHciConnection(w, serial).value;
            forall j :: 0 <= j < |w'.devices| ==> DeviceInv(w'.devices[j]) && DeviceAgrees(w'.devices[j], w'.emulator)
  {
    ConnectedChips(w, serial);
    var k, ds := GetDevice(w.devices, serial), GetOrCreate(w.devices, serial);
    hide AddChip, AddHciConnection, NextConnection, SceneInv, DeviceInv, DeviceAgrees;
    forall j | 0 <= j < |ds| && j != k ensures DeviceInv(ds[j]) && DeviceAgrees(ds[j], NextConnection(w.emulator)) {
      OtherDeviceStaysSound(w, serial, j);
    }
  }

  /** A new connection keeps the invariant, whether its serial is new, known, or already has this chip. */
  lemma AddHciConnectionInv(w: World, serial: Text)
    requires SceneInv(w)
    ensures AddHciConnection(w, serial).Some? && SceneInv(AddHciConnection(w, serial).value)
  {
    NextConnectionInv(w.emulator);
    ConnectedChips(w, serial);
    ConnectedSerials(w, serial);
    ConnectedDevices(w, serial);
    ConnectedDistinct(w, serial);
    hide AddChip, AddHciConnection, NextConnection, EmulatorInv, DeviceInv, DeviceAgrees, ConnectionsDistinct;
  }

  lemma CreatedStaysDistinct(ds: seq<Dev>, serial: Text)
    requires ConnectionsDistinct(ds)
    ensures ConnectionsDistinct(GetOrCreate(ds, serial))
  {
  }

  lemma ConnectionsBelowNext(w: World, j: nat, p: nat)
    requires SceneInv(w) && j < |w.devices| && p < |w.devices[j].chips|
    ensures w.devices[j].chips[p].connection < w.emulator.next
  {
  }

  /** Appending a chip with a fresh connection to one device. */
  lemma FreshConnection(es: seq<Dev>, k: nat, d: Dev, next: nat)
    requires ConnectionsDistinct(es) && k < |es|
    requires forall j, p :: 0 <= j < |es| && 0 <= p < |es[j].chips| ==> es[j].chips[p].connection < next
    requires d.chips == es[k].chips || d.chips == es[k].chips + [Handle(|es[k].chips|, next)]
    ensures ConnectionsDistinct(es[k := d])
  {
  }

  // ---------------------------------------------------------------- runs

  datatype Op =
    | AddOp(serial: Text)
    | RemoveOp(serial: Text, key: Key)
    | UpdateOp(request: Device)
    | ResetOp
    | ResetChipOp(device: nat, chip: nat)

  function Apply(w: World, op: Op): Option<World> {
    match op
    case AddOp(serial) => AddHciConnection(w, serial)
    case RemoveOp(serial, key) => RemoveChip(w, serial, key)
    case UpdateOp(r) => (match UpdateDevice(w, r) case None => None case Some((w', _)) => Some(w'))
    case ResetOp => Some(Reset(w))
    case ResetChipOp(k, p) => if k < |w.devices| && p < |w.devices[k].chips| then ResetChip(w, k, p) else Some(w)
  }

  function Run(w: World, ops: seq<Op>): Option<World>
    decreases |ops|
  {
    if ops == [] then Some(w)
    else match Apply(w, ops[0]) case None => None case Some(w') => Run(w', ops[1..])
  }

  /** Chips come from `AddHciConnection` only, so a device has one chip: Bluetooth, with the empty id. */
  ghost predicate OneChipEach(w: World) {
    forall k :: 0 <= k < |w.devices| ==>
      |w.devices[k].chips| == 1 && |w.devices[k].model.chips| == 1 && w.devices[k].model.chips[0].chipId == []
  }

  lemma AddHciConnectionOneChip(w: World, serial: Text)
    requires SceneInv(w) && OneChipEach(w)
    ensures AddHciConnection(w, serial).Some? && OneChipEach(AddHciConnection(w, serial).value)
  {
    AddHciConnectionInv(w, serial);
    var k := GetDevice(w.devices, serial);
    var ds := GetOrCreate(w.devices, serial);
    AddedChipDevice(ds[k], w.emulator);
    if k < |w.devices| {
      assert CaseOf(ds[k].model.chips[0]) == BtCase;
      assert KeyOf(ds[k].model.chips[0]) == KeyOf(INITIAL_CHIP);
    }
    hide EmulatorInv, Agrees, KeyOf;
  }

  /** Operations that keep every chip's key keep the one-chip shape. */
  lemma SameKeysOneChip(w: World, w': World)
    requires OneChipEach(w) && |w'.devices| == |w.devices|
    requires forall k :: 0 <= k < |w.devices| ==>
               && w'.devices[k].chips == w.devices[k].chips
               && |w'.devices[k].model.chips| == |w.devices[k].model.chips|
               && forall i :: 0 <= i < |w.devices[k].model.chips| ==> KeyOf(w'.devices[k].model.chips[i]) == KeyOf(w.devices[k].model.chips[i])
    ensures OneChipEach(w')
  {
  }

  lemma RemoveChipOneChip(w: World, serial: Text, key: Key)
    requires SceneInv(w) && OneChipEach(w)
    ensures RemoveChip(w, serial, key).Some? && SceneInv(RemoveChip(w, serial, key).value)
    ensures OneChipEach(RemoveChip(w, serial, key).value)
  {
    hide SceneInv, KeyOf, FindModel;
    RemoveChipInv(w, serial, key);
  }

  lemma ApplyInv(w: World, op: Op)
    requires SceneInv(w) && OneChipEach(w)
    ensures Apply(w, op).Some? && SceneInv(Apply(w, op).value) && OneChipEach(Apply(w, op).value)
  {
    hide SceneInv, OneChipEach, KeyOf, UpdateDevice, ResetChip, RemoveChip, Reset, AddHciConnection;
    match op
    case AddOp(serial) =>
      AddHciConnectionInv(w, serial);
      AddHciConnectionOneChip(w, serial);
    case RemoveOp(serial, key) =>
      RemoveChipOneChip(w, serial, key);
    case UpdateOp(r) =>
      UpdateDeviceInv(w, r);
      SameKeysOneChip(w, UpdateDevice(w, r).value.0);
    case ResetOp =>
      ResetInv(w);
      SameKeysOneChip(w, Reset(w));
    case ResetChipOp(k, p) =>
      if k < |w.devices| && p < |w.devices[k].chips| {
        ResetChipInv(w, k, p);
        SameKeysOneChip(w, ResetChip(w, k, p).value);
      }
  }

  lemma {:induction false} RunInv(w: World, ops: seq<Op>)
    requires SceneInv(w) && OneChipEach(w)
    ensures Run(w, ops).Some? && SceneInv(Run(w, ops).value) && OneChipEach(Run(w, ops).value)
    decreases |ops|
  {
    hide SceneInv, OneChipEach, Apply;
    if ops != [] {
      ApplyInv(w, ops[0]);
      RunInv(Apply(w, ops[0]).value, ops[1..]);
    }
  }

  /**
   Over every run from the empty scene nothing aborts; serials are distinct, no device is chipless, both chip lists
   agree in length and index, keys are unique, and PHY membership and captures agree with the model.
   */
  lemma EveryRunIsSound(ops: seq<Op>)
    ensures Run(EMPTY_WORLD, ops).Some? && SceneInv(Run(EMPTY_WORLD, ops).value)
  {
    assert SceneInv(EMPTY_WORLD);
    RunInv(EMPTY_WORLD, ops);
  }
}

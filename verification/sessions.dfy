/**
 The observers of `DeviceNotifyManager` and the sessions of `callback_http` that register them. A connection (`wsi`) is
 a number; what libwebsockets and the controller answer comes with the event.
 */
module Sessions {
  const UINT_MAX: nat := 0xFFFF_FFFF

  // ------------------------------------------------------------ device_notify_manager

  /** The counter before and after a registration. */
  function NextId(counter: nat): nat { (if counter == UINT_MAX then 0 else counter) + 1 }

  /** An order in which the keys of an unordered map may be walked: every one, once. */
  ghost predicate Walks(order: seq<nat>, keys: set<nat>) {
    && (forall id :: id in order <==> id in keys)
    && (forall i, j :: 0 <= i < j < |order| ==> order[i] != order[j])
  }

  lemma {:induction false} WalkLength(order: seq<nat>, keys: set<nat>)
    requires Walks(order, keys)
    ensures |order| == |keys|
    decreases |order|
  {
    if order == [] {
      assert keys == {};
    } else {
      assert order[0] in keys;
      assert forall id :: id in order <==> id == order[0] || id in order[1..];
      WalkLength(order[1..], keys - {order[0]});
    }
  }

  /** The observer that is called back is a connection, to be woken up for writing. */
  class DeviceNotifyManager {
    var counter: nat
    var registered: map<nat, nat>

    constructor ()
      ensures counter == 0 && registered == map[]
    {
      counter := 0;
      registered := map[];
    }

    method Register(wsi: nat) returns (id: nat)
      modifies this
      ensures id == counter == NextId(old(counter)) && registered == old(registered)[id := wsi]
    {
      if counter == UINT_MAX { counter := 0; }
      counter := counter + 1;
      registered := registered[counter := wsi];
      id := counter;
    }

    method Unregister(id: nat)
      modifies this
      ensures counter == old(counter) && registered == old(registered) - {id}
    {
      registered := registered - {id};
    }

    /** Calls every observer back, in the order in which the unordered map is walked. */
    method Notify(order: seq<nat>) returns (woken: seq<nat>)
      requires Walks(order, registered.Keys)
      ensures |woken| == |order| == |registered| && forall k :: 0 <= k < |order| ==> woken[k] == registered[order[k]]
    {
      woken := [];
      for k := 0 to |order|
        invariant |woken| == k && forall j :: 0 <= j < k ==> woken[j] == registered[order[j]]
      {
        woken := woken + [registered[order[k]]];
      }
      WalkLength(order, registered.Keys);
    }
  }

  /** The id given by the `n`-th registration; 0 before any. */
  function NthId(n: nat): nat {
    if n == 0 then 0 else NextId(NthId(n - 1))
  }

  /** Ids count from 1 to 2^32 - 1 and start again at 1. */
  lemma {:induction false} NthIdIs(n: nat)
    requires n > 0
    ensures NthId(n) == (n - 1) % UINT_MAX + 1
  {
    if n == 1 {
      assert NthId(0) == 0;
    } else {
      NthIdIs(n - 1);
      ModNext(n - 2);
    }
  }

  lemma ModNext(k: nat)
    ensures (k + 1) % UINT_MAX == if k % UINT_MAX == UINT_MAX - 1 then 0 else k % UINT_MAX + 1
  {
  }

  /** Two registrations have the same id if and only if a multiple of 2^32 - 1 lies between them. */
  lemma SameId(m: nat, n: nat)
    requires 0 < m <= n
    ensures NthId(m) == NthId(n) <==> (n - m) % UINT_MAX == 0
  {
    NthIdIs(m);
    NthIdIs(n);
    hide NthId;
    SameRemainder(m, n);
  }

  lemma SameRemainder(m: nat, n: nat)
    requires 0 < m <= n
    ensures (m - 1) % UINT_MAX + 1 == (n - 1) % UINT_MAX + 1 <==> (n - m) % UINT_MAX == 0
  {
  }

  // ------------------------------------------------------------ callback_http

  datatype Call = GetVersion | GetDevices | Reset | UpdateDevice | SetPacketCapture | InvalidUrl

  /** Which controller function a path stands for; register-updates answers with the devices. */
  function CallOf(path: string): Call {
    if path == "/get-version" then GetVersion
    else if path == "/get-devices" then GetDevices
    else if path == "/reset" then Reset
    else if path == "/update-device" then UpdateDevice
    else if path == "/set-packet-capture" then SetPacketCapture
    else if path == REGISTER_UPDATES then GetDevices
    else InvalidUrl
  }

  const REGISTER_UPDATES := "/register-updates"

  /** 200, but 400 for a device that is not found and 404 for an unknown path. */
  function CodeOf(path: string, found: bool): nat {
    match CallOf(path)
    case UpdateDevice => if found then 200 else 400
    case InvalidUrl => 404
    case _ => 200
  }

  /** What the controller made of a request: whether a device was found, and the text of the answer or of the error. */
  datatype Reply = Reply(found: bool, text: string)

  /** What a session has done to the outside. */
  datatype Did = Called(call: Call, requestBody: string, code: nat, text: string) | SentHeader(code: nat) | SentBody(text: string)

  datatype Session = Session(path: string, requestBody: string, calledController: bool, sentHeader: bool, sentBody: bool, code: nat,
                             response: string, registeredId: nat, did: seq<Did>)

  const NEW_SESSION := Session("", "", false, false, false, 0, "", 0, [])

  datatype Manager = Manager(counter: nat, registered: map<nat, nat>)

  /** `completed` is the answer of `lws_http_transaction_completed`, non-zero to close the connection. */
  datatype Event =
    | Http(path: string, get: bool)
    | HttpBody(data: string)
    | HttpBodyCompletion
    | HttpWriteable(reply: Reply, headerFits: bool, completed: bool)
    | ClosedHttp

  /** `wake` asks libwebsockets for a WRITEABLE event; `result` is what the callback returns. */
  datatype After = After(session: Session, manager: Manager, wake: bool, result: int)

  function CallController(s: Session, reply: Reply): Session {
    if s.calledController then s else
      var code := CodeOf(s.path, reply.found);
      s.(calledController := true, code := code, response := reply.text,
         did := s.did + [Called(CallOf(s.path), s.requestBody, code, reply.text)])
  }

  function OnWriteable(s: Session, m: Manager, reply: Reply, headerFits: bool, completed: bool): After {
    var s1 := CallController(s, reply);
    if !s1.sentHeader && !headerFits then After(s1, m, false, 1)
    else if !s1.sentHeader then After(s1.(sentHeader := true, did := s1.did + [SentHeader(s1.code)]), m, true, 0)
    else if !s1.sentBody then
      After(s1.(sentBody := true, did := s1.did + [SentBody(s1.response)]), m, false, if completed then -1 else 0)
    else After(s1, m, false, if completed then -1 else 0)
  }

  function OnEvent(wsi: nat, s: Session, m: Manager, e: Event): After {
    match e
    case Http(path, get) =>
      var s1 := s.(path := path);
      if path == REGISTER_UPDATES then
        After(s1.(registeredId := NextId(m.counter)), Manager(NextId(m.counter), m.registered[NextId(m.counter) := wsi]), false, 0)
      else After(s1, m, get, 0)
    case HttpBody(data) => After(s.(requestBody := data), m, false, 0)
    case HttpBodyCompletion => After(s, m, true, 0)
    case HttpWriteable(reply, headerFits, completed) => OnWriteable(s, m, reply, headerFits, completed)
    case ClosedHttp => After(s, if s.registeredId > 0 then m.(registered := m.registered - {s.registeredId}) else m, false, 0)
  }

  class HttpSession {
    const wsi: nat
    var path: string
    var requestBody: string
    var calledController: bool
    var sentHeader: bool
    var sentBody: bool
    var code: nat
    var response: string
    var registeredId: nat
    var did: seq<Did>

    function State(): Session
      reads this
    {
      Session(path, requestBody, calledController, sentHeader, sentBody, code, response, registeredId, did)
    }

    constructor (wsi: nat)
      ensures State() == NEW_SESSION && this.wsi == wsi
    {
      this.wsi := wsi;
      path, requestBody, code, response, registeredId, did := "", "", 0, "", 0, [];
      calledController, sentHeader, sentBody := false, false, false;
    }

    method Callback(manager: DeviceNotifyManager, e: Event) returns (wake: bool, result: int)
      modifies this, manager
      ensures After(State(), Manager(manager.counter, manager.registered), wake, result)
              == OnEvent(wsi, old(State()), old(Manager(manager.counter, manager.registered)), e)
    {
      wake, result := false, 0;
      match e
      case Http(p, get) =>
        path := p;
        if path == REGISTER_UPDATES {
          registeredId := manager.Register(wsi);
          return;
        }
        wake := get;
      case HttpBody(data) => requestBody := data;
      case HttpBodyCompletion => wake := true;
      case HttpWriteable(reply, headerFits, completed) =>
        if !calledController {
          code := CodeOf(path, reply.found);
          response := reply.text;
          did := did + [Called(CallOf(path), requestBody, code, response)];
          calledController := true;
        }
        if !sentHeader {
          if !headerFits { return false, 1; }
          did := did + [SentHeader(code)];
          sentHeader := true;
          return true, 0;
        }
        if !sentBody {
          did := did + [SentBody(response)];
          sentBody := true;
        }
        if completed { result := -1; }
      case ClosedHttp =>
        if registeredId > 0 { manager.Unregister(registeredId); }
    }
  }

  // ------------------------------------------------------------ one event

  /** Each path has its controller function; any other is an invalid URL. */
  lemma Routes(path: string)
    ensures CallOf(path) == GetVersion <==> path == "/get-version"
    ensures CallOf(path) == GetDevices <==> path in {"/get-devices", "/register-updates"}
    ensures CallOf(path) == Reset <==> path == "/reset"
    ensures CallOf(path) == UpdateDevice <==> path == "/update-device"
    ensures CallOf(path) == SetPacketCapture <==> path == "/set-packet-capture"
  {
  }

  /** 400 for an update without its device, 404 for an invalid URL, 200 for everything else. */
  lemma Codes(path: string, found: bool)
    ensures CodeOf(path, found) in {200, 400, 404}
    ensures CodeOf(path, found) == 400 <==> path == "/update-device" && !found
    ensures CodeOf(path, found) == 404
            <==> path !in {"/get-version", "/get-devices", "/reset", "/update-device", "/set-packet-capture", "/register-updates"}
  {
  }

  /** When the next WRITEABLE event is asked for, and when the connection is to be closed. */
  lemma WakesAndResults(wsi: nat, s: Session, m: Manager, e: Event)
    ensures var a := OnEvent(wsi, s, m, e);
            && (a.wake <==> || (e.Http? && e.get && e.path != "/register-updates")
                            || e.HttpBodyCompletion?
                            || (e.HttpWriteable? && !s.sentHeader && e.headerFits))
            && (a.result == 1 <==> e.HttpWriteable? && !s.sentHeader && !e.headerFits)
            && (a.result == -1 <==> e.HttpWriteable? && s.sentHeader && e.completed)
            && a.result in {-1, 0, 1}
  {
  }

  /** The HTTP event brings the path and the body events the body; nothing else does, and only WRITEABLE events do anything. */
  lemma EventFields(wsi: nat, s: Session, m: Manager, e: Event)
    ensures var t := OnEvent(wsi, s, m, e).session;
            && t.path == (if e.Http? then e.path else s.path)
            && t.requestBody == (if e.HttpBody? then e.data else s.requestBody)
            && (!e.HttpWriteable? ==> t.did == s.did && t.sentHeader == s.sentHeader && t.sentBody == s.sentBody)
  {
  }

  /** A request is answered by two WRITEABLE events: the first calls the controller and sends the header, the second the body. */
  lemma TwoWriteablesAnswer(wsi: nat, s: Session, m: Manager, first: Reply, second: Reply, c1: bool, c2: bool)
    requires !s.calledController && !s.sentHeader && !s.sentBody
    ensures var a := OnEvent(wsi, s, m, HttpWriteable(first, true, c1));
            var b := OnEvent(wsi, a.session, a.manager, HttpWriteable(second, true, c2));
            && a.wake && b.manager == m
            && b.session.did == s.did + [Called(CallOf(s.path), s.requestBody, CodeOf(s.path, first.found), first.text),
                                         SentHeader(CodeOf(s.path, first.found)), SentBody(first.text)]
  {
    hide CallOf, CodeOf;
  }

  // ------------------------------------------------------------ one session

  function OneSession(wsi: nat, s: Session, m: Manager, events: seq<Event>): After
    decreases |events|
  {
    if events == [] then After(s, m, false, 0) else
      var a := OnEvent(wsi, s, m, events[0]);
      OneSession(wsi, a.session, a.manager, events[1..])
  }

  /** What the flags say about what was done. */
  predicate FlagsInv(s: Session) {
    && (s.sentHeader ==> s.calledController) && (s.sentBody ==> s.sentHeader)
    && |s.did| == (if s.sentBody then 3 else if s.sentHeader then 2 else if s.calledController then 1 else 0)
    && (s.calledController ==> s.did[0].Called? && s.did[0].code == s.code && s.did[0].text == s.response)
    && (s.sentHeader ==> s.did[1] == SentHeader(s.code))
    && (s.sentBody ==> s.did[2] == SentBody(s.response))
  }

  lemma {:induction false} FlagsStay(wsi: nat, s: Session, m: Manager, events: seq<Event>)
    requires FlagsInv(s)
    ensures FlagsInv(OneSession(wsi, s, m, events).session) && s.did <= OneSession(wsi, s, m, events).session.did
    decreases |events|
  {
    if events != [] {
      var a := OnEvent(wsi, s, m, events[0]);
      FlagsStay(wsi, a.session, a.manager, events[1..]);
    }
  }

  /**
   Whatever events a session sees, in whatever order and however often, it calls the controller, sends its header and
   sends its body at most once each, in that order; header and body carry the code and the text of that one call.
   */
  lemma AtMostOnceInOrder(wsi: nat, m: Manager, events: seq<Event>)
    ensures var did := OneSession(wsi, NEW_SESSION, m, events).session.did;
            && |did| <= 3
            && (|did| > 0 ==> did[0].Called?)
            && (|did| > 1 ==> did[1] == SentHeader(did[0].code))
            && (|did| > 2 ==> did[2] == SentBody(did[0].text))
  {
    FlagsStay(wsi, NEW_SESSION, m, events);
  }

  function Concat(chunks: seq<string>): string {
    if chunks == [] then "" else chunks[0] + Concat(chunks[1..])
  }

  /** A request body as it comes, in one piece or in several. */
  function BodyEvents(chunks: seq<string>): (r: seq<Event>)
    ensures |r| == |chunks|
  {
    seq(|chunks|, k requires 0 <= k < |chunks| => HttpBody(chunks[k]))
  }

  lemma {:induction false} LastChunkStays(wsi: nat, s: Session, m: Manager, chunks: seq<string>)
    ensures OneSession(wsi, s, m, BodyEvents(chunks)).manager == m
    ensures OneSession(wsi, s, m, BodyEvents(chunks)).session
            == if chunks == [] then s else s.(requestBody := chunks[|chunks| - 1])
    decreases |chunks|
  {
    if chunks != [] {
      assert BodyEvents(chunks)[1..] == BodyEvents(chunks[1..]);
      LastChunkStays(wsi, s.(requestBody := chunks[0]), m, chunks[1..]);
    }
  }

  lemma {:induction false} ConcatLast(chunks: seq<string>)
    requires chunks != []
    ensures Concat(chunks) == Concat(chunks[..|chunks| - 1]) + chunks[|chunks| - 1]
    decreases |chunks|
  {
    var n := |chunks| - 1;
    if n > 0 {
      var tail := chunks[1..];
      ConcatLast(tail);
      assert chunks[..n][1..] == tail[..n - 1] && chunks[..n][0] == chunks[0] && tail[n - 1] == chunks[n];
      var first, middle, last := chunks[0], Concat(tail[..n - 1]), chunks[n];
      assert first + (middle + last) == first + middle + last;
    } else {
      assert Concat(chunks[1..]) == "" && Concat(chunks[..0]) == "";
    }
  }

  lemma {:induction false} ConcatEmpty(chunks: seq<string>)
    ensures Concat(chunks) == "" <==> forall k :: 0 <= k < |chunks| ==> chunks[k] == ""
    decreases |chunks|
  {
    if chunks != [] {
      ConcatEmpty(chunks[1..]);
      assert |Concat(chunks)| == |chunks[0]| + |Concat(chunks[1..])|;
      assert forall k :: 0 < k < |chunks| ==> chunks[k] == chunks[1..][k - 1];
    }
  }

  /** The request body replaces what came before, so it reaches the controller whole iff all chunks but the last are empty. */
  lemma WholeBodyIffOneChunk(wsi: nat, m: Manager, chunks: seq<string>)
    requires chunks != []
    ensures OneSession(wsi, NEW_SESSION, m, BodyEvents(chunks)).session.requestBody == Concat(chunks)
            <==> forall k :: 0 <= k < |chunks| - 1 ==> chunks[k] == ""
  {
    var init, last := chunks[..|chunks| - 1], chunks[|chunks| - 1];
    LastChunkStays(wsi, NEW_SESSION, m, chunks);
    ConcatLast(chunks);
    ConcatEmpty(init);
    assert Concat(init) + last == last <==> |Concat(init)| == 0;
    assert forall k :: 0 <= k < |init| ==> init[k] == chunks[k];
  }

  // ------------------------------------------------------------ all sessions and the manager

  /** `numbers` and `total` count registrations; a session in `closed` has seen its last event. */
  datatype World = World(sessions: map<nat, Session>, closed: set<nat>, manager: Manager, numbers: map<nat, nat>, total: nat)

  const NO_SESSIONS := World(map[], {}, Manager(0, map[]), map[], 0)

  predicate Open(w: World, wsi: nat) { wsi in w.sessions && wsi !in w.closed }

  predicate Observer(w: World, wsi: nat) { Open(w, wsi) && w.sessions[wsi].path == REGISTER_UPDATES }

  /** No open registration is 2^32 - 1 or more registrations old when the next one is made. */
  ghost predicate NoneOutlives(w: World) {
    forall wsi :: Observer(w, wsi) && wsi in w.numbers ==> w.total + 1 - w.numbers[wsi] < UINT_MAX
  }

  /** libwebsockets gives a session its HTTP event first, once, and its CLOSED event last. */
  ghost predicate Expected(w: World, wsi: nat, e: Event) {
    match e
    case Http(path, _) => wsi !in w.sessions && (path == REGISTER_UPDATES ==> NoneOutlives(w))
    case _ => Open(w, wsi)
  }

  function Happen(w: World, wsi: nat, e: Event): World {
    var a := OnEvent(wsi, if wsi in w.sessions then w.sessions[wsi] else NEW_SESSION, w.manager, e);
    var w1 := w.(sessions := w.sessions[wsi := a.session], manager := a.manager);
    match e
    case Http(path, _) => if path == REGISTER_UPDATES then w1.(numbers := w.numbers[wsi := w.total + 1], total := w.total + 1) else w1
    case ClosedHttp => w1.(closed := w.closed + {wsi})
    case _ => w1
  }

  ghost predicate IdsInv(w: World) {
    && w.manager.counter == NthId(w.total) && w.closed <= w.sessions.Keys
    && (forall wsi :: wsi in w.sessions ==> (w.sessions[wsi].registeredId > 0 <==> w.sessions[wsi].path == REGISTER_UPDATES))
    && (forall wsi :: Observer(w, wsi) ==> wsi in w.numbers && 0 < w.numbers[wsi] <= w.total
                                           && w.sessions[wsi].registeredId == NthId(w.numbers[wsi]))
    && (forall wsi :: Observer(w, wsi) ==> Registered(w.manager, w.sessions[wsi].registeredId, wsi))
    && (forall id :: id in w.manager.registered ==> HeldBy(w, id, w.manager.registered[id]))
  }

  predicate HeldBy(w: World, id: nat, wsi: nat) { Observer(w, wsi) && w.sessions[wsi].registeredId == id }

  predicate Registered(m: Manager, id: nat, wsi: nat) { id in m.registered && m.registered[id] == wsi }

  lemma FreshId(w: World, other: nat)
    requires IdsInv(w) && NoneOutlives(w) && Observer(w, other)
    ensures w.sessions[other].registeredId != NextId(w.manager.counter)
  {
    assert NthId(w.total + 1) == NextId(w.manager.counter);
    SameId(w.numbers[other], w.total + 1);
  }

  /** A world with one more observer, under an id that no other holds. */
  lemma NewObserverInv(w: World, wsi: nat, s: Session, id: nat)
    requires IdsInv(w) && wsi !in w.sessions && s.path == REGISTER_UPDATES && s.registeredId == id == NthId(w.total + 1) > 0
    requires forall x :: Observer(w, x) ==> w.sessions[x].registeredId != id
    ensures IdsInv(World(w.sessions[wsi := s], w.closed, Manager(id, w.manager.registered[id := wsi]), w.numbers[wsi := w.total + 1], w.total + 1))
  {
    hide NthId;
    var w' := World(w.sessions[wsi := s], w.closed, Manager(id, w.manager.registered[id := wsi]), w.numbers[wsi := w.total + 1], w.total + 1);
    assert forall x :: x != wsi ==> (Observer(w', x) <==> Observer(w, x));
    forall x | Observer(w', x) ensures Registered(w'.manager, w'.sessions[x].registeredId, x) {
      if x != wsi { assert Registered(w.manager, w.sessions[x].registeredId, x); }
    }
    forall i | i in w'.manager.registered ensures HeldBy(w', i, w'.manager.registered[i]) {
      if i != id { assert HeldBy(w, i, w.manager.registered[i]); }
    }
  }

  lemma RegisterInv(w: World, wsi: nat, get: bool)
    requires IdsInv(w) && Expected(w, wsi, Http(REGISTER_UPDATES, get))
    ensures IdsInv(Happen(w, wsi, Http(REGISTER_UPDATES, get)))
  {
    var id := NextId(w.manager.counter);
    assert id == NthId(w.total + 1) > 0;
    forall other | Observer(w, other) ensures w.sessions[other].registeredId != id { FreshId(w, other); }
    NewObserverInv(w, wsi, NEW_SESSION.(path := REGISTER_UPDATES, registeredId := id), id);
    hide IdsInv, NthId, NextId;
  }

  lemma CloseInv(w: World, wsi: nat)
    requires IdsInv(w) && Open(w, wsi)
    ensures IdsInv(Happen(w, wsi, ClosedHttp))
  {
    hide NthId;
    var w' := Happen(w, wsi, ClosedHttp);
    assert w'.sessions == w.sessions;
    assert forall x :: Observer(w', x) <==> Observer(w, x) && x != wsi;
    assert forall x :: Observer(w, x) ==> Registered(w.manager, w.sessions[x].registeredId, x);
    forall x | Observer(w', x) ensures Registered(w'.manager, w.sessions[x].registeredId, x) {
      assert Registered(w.manager, w.sessions[x].registeredId, x);
    }
  }

  lemma HappenInv(w: World, wsi: nat, e: Event)
    requires IdsInv(w) && Expected(w, wsi, e)
    ensures IdsInv(Happen(w, wsi, e))
  {
    if Registers(e) {
      RegisterInv(w, wsi, e.get);
    } else if e.ClosedHttp? {
      CloseInv(w, wsi);
    } else {
      OtherInv(w, wsi, e);
    }
  }

  predicate SameObserver(s: Session, t: Session) { s.path == t.path && s.registeredId == t.registeredId }

  predicate Registers(e: Event) { e.Http? && e.path == REGISTER_UPDATES }

  lemma WritingKeepsId(s: Session, m: Manager, reply: Reply, headerFits: bool, completed: bool)
    ensures SameObserver(OnWriteable(s, m, reply, headerFits, completed).session, s)
    ensures OnWriteable(s, m, reply, headerFits, completed).manager == m
  {
  }

  /** Nothing that matters to the ids has changed, but for sessions that register nothing. */
  lemma UnconcernedInv(w: World, w': World)
    requires IdsInv(w) && w' == w.(sessions := w'.sessions)
    requires forall x :: x in w.sessions ==> x in w'.sessions && SameObserver(w'.sessions[x], w.sessions[x])
    requires forall x :: x in w'.sessions && x !in w.sessions ==> w'.sessions[x].path != REGISTER_UPDATES && w'.sessions[x].registeredId == 0
    ensures IdsInv(w')
  {
    hide NthId;
    assert forall x :: Observer(w', x) <==> Observer(w, x);
    forall id | id in w'.manager.registered ensures HeldBy(w', id, w'.manager.registered[id]) {
      assert HeldBy(w, id, w.manager.registered[id]);
    }
  }

  lemma OtherInv(w: World, wsi: nat, e: Event)
    requires IdsInv(w) && Expected(w, wsi, e) && !e.ClosedHttp? && !Registers(e)
    ensures IdsInv(Happen(w, wsi, e))
  {
    if e.HttpWriteable? { WritingKeepsId(w.sessions[wsi], w.manager, e.reply, e.headerFits, e.completed); }
    hide IdsInv, OnWriteable;
    UnconcernedInv(w, Happen(w, wsi, e));
  }

  datatype Happening = Happening(wsi: nat, event: Event)

  ghost predicate AllExpected(w: World, run: seq<Happening>)
    decreases |run|
  {
    run == [] || (Expected(w, run[0].wsi, run[0].event) && AllExpected(Happen(w, run[0].wsi, run[0].event), run[1..]))
  }

  function RunAll(w: World, run: seq<Happening>): World
    decreases |run|
  {
    if run == [] then w else RunAll(Happen(w, run[0].wsi, run[0].event), run[1..])
  }

  lemma {:induction false} RunIdsInv(w: World, run: seq<Happening>)
    requires IdsInv(w) && AllExpected(w, run)
    ensures IdsInv(RunAll(w, run))
    decreases |run|
  {
    hide Happen, Expected, IdsInv;
    if run != [] {
      HappenInv(w, run[0].wsi, run[0].event);
      RunIdsInv(Happen(w, run[0].wsi, run[0].event), run[1..]);
    }
  }

  /** At every moment the registered ids are exactly those of the open register-updates sessions, each with its own. */
  lemma RegisteredAreOpenObservers(run: seq<Happening>, id: nat, wsi: nat)
    requires AllExpected(NO_SESSIONS, run)
    ensures var w := RunAll(NO_SESSIONS, run);
            Registered(w.manager, id, wsi) <==> Observer(w, wsi) && w.sessions[wsi].registeredId == id
    ensures !(0 in RunAll(NO_SESSIONS, run).manager.registered)
  {
    assert IdsInv(NO_SESSIONS);
    RunIdsInv(NO_SESSIONS, run);
  }

  // ------------------------------------------------------------ what one HTTP event is needed for

  /** How many of the events register an observer. */
  function Registrations(events: seq<Event>): nat {
    if events == [] then 0 else (if Registers(events[0]) then 1 else 0) + Registrations(events[1..])
  }

  /** After `k` registrations of a session, it knows the last id only. */
  ghost predicate AfterRegistrations(wsi: nat, s: Session, m: Manager, k: nat) {
    if k == 0 then s.registeredId == 0 && forall id :: !Registered(m, id, wsi)
    else
      && s.registeredId == m.counter > 0
      && (k == 1 ==> forall id :: Registered(m, id, wsi) ==> id == m.counter)
      && (k > 1 ==> exists id :: id != m.counter && Registered(m, id, wsi))
      && Registered(m, m.counter, wsi)
  }

  lemma RegistrationCounts(wsi: nat, s: Session, m: Manager, k: nat, id: nat)
    requires AfterRegistrations(wsi, s, m, k) && id == NextId(m.counter)
    ensures AfterRegistrations(wsi, s.(path := REGISTER_UPDATES, registeredId := id), Manager(id, m.registered[id := wsi]), k + 1)
  {
    var m' := Manager(id, m.registered[id := wsi]);
    assert Registered(m', id, wsi) && id != m.counter;
    if k > 0 {
      assert Registered(m', m.counter, wsi);
    } else {
      forall x | Registered(m', x, wsi) ensures x == id {
        assert Registered(m, x, wsi) || x == id;
      }
    }
  }

  lemma EventCounts(wsi: nat, s: Session, m: Manager, e: Event, k: nat)
    requires AfterRegistrations(wsi, s, m, k) && !e.ClosedHttp?
    ensures var a := OnEvent(wsi, s, m, e);
            AfterRegistrations(wsi, a.session, a.manager, if Registers(e) then k + 1 else k)
  {
    if Registers(e) {
      RegistrationCounts(wsi, s, m, k, NextId(m.counter));
      hide AfterRegistrations;
    } else if e.HttpWriteable? {
      WritingKeepsId(s, m, e.reply, e.headerFits, e.completed);
      hide OnWriteable;
    }
  }

  lemma {:induction false} EventsCount(wsi: nat, s: Session, m: Manager, events: seq<Event>, k: nat)
    requires AfterRegistrations(wsi, s, m, k) && forall e :: e in events ==> !e.ClosedHttp?
    ensures var a := OneSession(wsi, s, m, events);
            AfterRegistrations(wsi, a.session, a.manager, k + Registrations(events))
    decreases |events|
  {
    hide AfterRegistrations, OnEvent;
    if events != [] {
      var a := OnEvent(wsi, s, m, events[0]);
      EventCounts(wsi, s, m, events[0], k);
      EventsCount(wsi, a.session, a.manager, events[1..], if Registers(events[0]) then k + 1 else k);
    }
  }

  /**
   Closing a session leaves nothing of it registered if and only if it has registered at most once, whatever other
   events it saw and whoever else is registered.
   */
  lemma SecondHttpLeaksAnId(wsi: nat, m: Manager, events: seq<Event>)
    requires forall e :: e in events ==> !e.ClosedHttp?
    requires forall id :: !Registered(m, id, wsi)
    ensures var a := OneSession(wsi, NEW_SESSION, m, events);
            (forall id :: !Registered(OnEvent(wsi, a.session, a.manager, ClosedHttp).manager, id, wsi)) <==> Registrations(events) <= 1
  {
    EventsCount(wsi, NEW_SESSION, m, events, 0);
    var a := OneSession(wsi, NEW_SESSION, m, events);
    var k, m' := Registrations(events), OnEvent(wsi, a.session, a.manager, ClosedHttp).manager;
    if k > 1 {
      var id :| id != a.manager.counter && Registered(a.manager, id, wsi);
      assert Registered(m', id, wsi);
    } else {
      forall id ensures !Registered(m', id, wsi) {
        assert Registered(m', id, wsi) ==> Registered(a.manager, id, wsi);
      }
    }
  }
}

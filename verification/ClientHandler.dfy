/** One connection of a TAK client or server (internal/client/client_handler.go):
    version negotiation, the bounded send queue, contacts and Stop. Every read
    step, send, write and stop is atomic. */
module ClientHandler {
  import opened Wrappers
  import opened Strings
  import opened XmlNode
  import opened CotMessages
  import opened Converter

  const QUEUE_SIZE: nat := 50

  datatype Device = Device(scope: string, readScope: seq<string>)

  predicate CanSeeScope(u: Option<Device>, scope: string) {
    if u.None? then scope == ""
    else u.value.scope == scope || exists s | s in u.value.readScope :: s == "*" || s == scope
  }

  function ScopeOf(u: Option<Device>): string {
    if u.None? then "" else u.value.scope
  }

  /** What is on the wire: an XML event, a frame with a protobuf message, or an XML
      document of another tag (or an <event> that does not decode). */
  datatype Frame = Xml(ev: Event) | Proto(event: CotEvent) | Bare(tag: string)

  /** The documents that a reader passes over; any other that is no event is an error. */
  predicate PassedOver(f: Frame) {
    f.Bare? && (f.tag == "?xml" || f.tag == "auth")
  }

  /** What a handler is configured with, and the clock, map order and float
      parser that its messages depend on. */
  datatype Env = Env(addr: string, device: Option<Device>, isClient: bool, uidAllowed: string -> bool,
                     hasNewContactCb: bool,
                     ord: Order, parse: string -> Option<int>, now: Time)

  // ---- control messages (pkg/cot/xmlevent.go, messages.go, util.go) ----

  function Control(typ: string, child: string, attr: string, value: string, now: Time): Event {
    var leaf := Node(child, [Attr(attr, value)], "", []);
    Event("2.0", typ, "", "", "", "protouid", now, now, now + 60 * SECOND, "m-g", 0.0, 0.0, 0.0, 999999.0, 999999.0,
          Some(DetailElement([], "", [Node("TakControl", [], "", [leaf])])))
  }

  function VersionSupportMsg(now: Time): Event {
    Control("t-x-takp-v", "TakProtocolSupport", "version", "1", now)
  }

  function VersionReqMsg(now: Time): Event {
    Control("t-x-takp-q", "TakRequest", "version", "1", now)
  }

  function ProtoChangeOkMsg(now: Time): Event {
    Control("t-x-takp-r", "TakResponse", "status", "true", now)
  }

  function BasicMsg(typ: string, uid: string, stale: int, how: string, now: Time): CotEvent {
    CotEvent(typ, "", "", "", "", "", uid, TimeToMillis(now), TimeToMillis(now), TimeToMillis(now + stale), how,
             0.0, 0.0, 999999.0, 999999.0, 999999.0, None)
  }

  function MakePong(now: Time): CotEvent {
    BasicMsg("t-x-c-t-r", "takPong", 20 * SECOND, "h-g-i-g-o", now)
  }

  /** GetFirst("TakControl").GetFirst(child) of an event. */
  function ControlNode(ev: Event, child: string): Option<Node> {
    GetFirst(GetFirst(DetailNode(ev), "TakControl"), child)
  }

  predicate IsVersionRequest(ev: Event) {
    ev.typ == "t-x-takp-q" && GetAttr(ControlNode(ev, "TakRequest"), "version") == "1"
  }

  predicate IsOkResponse(ev: Event) {
    ev.typ == "t-x-takp-r" && GetAttr(ControlNode(ev, "TakResponse"), "status") == "true"
  }

  // ---- the state of a handler ----

  /** The connection side of a handler, and what has happened there so far: frames
      offered while it was active, accepted into the queue, dropped because it was
      full, written, and lost in a failed write; the calls of removeCb. */
  datatype Wire = Wire(
    ver: int, active: bool, queue: seq<Frame>, writing: bool, offered: seq<Frame>, accepted: seq<Frame>,
    dropped: seq<Frame>, written: seq<Frame>, failed: seq<Frame>, removeCalls: nat)

  /** The message side: the contact map, the messages read, those passed on to
      messageCb, and the calls of newContactCb. */
  datatype Book = Book(uids: map<string, string>, received: seq<CotMessage>, passed: seq<CotMessage>,
                       newContacts: seq<(string, string)>)

  const NEW_WIRE := Wire(0, true, [], true, [], [], [], [], [], 0)
  const NEW_BOOK := Book(map[], [], [], [])

  function TryAdd(w: Wire, f: Frame): Wire {
    if !w.active then w
    else if |w.queue| < QUEUE_SIZE then
      w.(offered := w.offered + [f], queue := w.queue + [f], accepted := w.accepted + [f])
    else w.(offered := w.offered + [f], dropped := w.dropped + [f])
  }

  /** sendEvent; it succeeds on an active handler of version 0, even if the queue is full. */
  function SendEventOn(w: Wire, ev: Event): Wire {
    if w.ver != 0 then w else TryAdd(w, Xml(ev))
  }

  ghost function Encoded(ver: int, event: CotEvent, env: Env): Frame
    requires IsOrder(env.ord)
  {
    if ver == 0 then Xml(EventSpec(event, env.ord)) else Proto(event)
  }

  ghost function SendCotOn(w: Wire, event: CotEvent, env: Env): Wire
    requires IsOrder(env.ord)
  {
    if w.ver == 0 || w.ver == 1 then TryAdd(w, Encoded(w.ver, event, env)) else w
  }

  ghost function SendMsgOn(w: Wire, msg: CotMessage, env: Env): Wire
    requires IsOrder(env.ord)
  {
    if IsLocal(msg) || CanSeeScope(env.device, msg.scope) then SendCotOn(w, msg.event, env) else w
  }

  function StopOn(w: Wire): Wire {
    if w.active then w.(active := false, removeCalls := w.removeCalls + 1) else w
  }

  /** What an XML event does before it is treated as a message: the new state,
      the message if it is one, and whether reading fails. */
  function XmlReadOn(w: Wire, ev: Event, env: Env): (Wire, Option<CotMessage>, bool) {
    if IsVersionRequest(ev) then
      if w.ver == 0 && w.active then (SendEventOn(w, ProtoChangeOkMsg(env.now)).(ver := 1), None, false)
      else (w, None, true)
    else if env.isClient && ev.typ == "t-x-takp-v" then
      if GetAttr(ControlNode(ev, "TakProtocolSupport"), "version") == "1"
          then (SendEventOn(w, VersionReqMsg(env.now)), None, false)
      else (w, None, false)
    else if env.isClient && ev.typ == "t-x-takp-r" then
      (if IsOkResponse(ev) then w.(ver := 1) else w, None, false)
    else (w, Some(ProtoSpec(ev, env.parse)), false)
  }

  /** The uid under which a contact message registers its sender. */
  function AddsUid(m: CotMessage): Option<string> {
    if IsContact(m) then Some(TrimSuffix(m.event.uid, "-ping")) else None
  }

  function RemovesUid(m: CotMessage): Option<string> {
    if m.event.typ == "t-x-d-d" && Has(m.detail, "link") then Some(GetAttr(GetFirst(m.detail, "link"), "uid")) else None
  }

  /** The message as handleRead sees it, with its sender and scope filled in. */
  function Stamped(m: CotMessage, env: Env): CotMessage {
    m.(from := env.addr, scope := ScopeOf(env.device))
  }

  predicate Blacklisted(msg: CotMessage, env: Env) {
    AddsUid(msg).Some? && !env.uidAllowed(AddsUid(msg).value)
  }

  /** What a message makes the handler send: a blacklisted one stops it, a ping is answered. */
  ghost function MessageOnWire(w: Wire, msg: CotMessage, env: Env): Wire
    requires IsOrder(env.ord)
  {
    if Blacklisted(msg, env) then StopOn(w)
    else if msg.event.typ == "t-x-c-t" then SendCotOn(w, MakePong(env.now), env)
    else w
  }

  /** The effect of a message on the contacts, and whether it is passed on. */
  function MessageOnBook(b: Book, msg: CotMessage, env: Env): Book {
    if Blacklisted(msg, env) then b
    else
      var b1 := b.(received := b.received + [msg]);
      var b2 := if AddsUid(msg).Some? then WithContact(b1, AddsUid(msg).value, GetCallsign(msg), env) else b1;
      var b3 := if RemovesUid(msg).Some? then b2.(uids := b2.uids - {RemovesUid(msg).value}) else b2;
      if msg.event.typ == "t-x-c-t" || msg.event.typ == "t-x-c-t-r" then b3 else b3.(passed := b3.passed + [msg])
  }

  function WithContact(b: Book, uid: string, callsign: string, env: Env): Book {
    b.(uids := b.uids[uid := callsign],
       newContacts := if uid !in b.uids && env.hasNewContactCb then b.newContacts + [(uid, callsign)]
                      else b.newContacts)
  }

  /** The message that one pass of the loop of handleRead gets from a frame, if any. */
  function MessageOf(w: Wire, f: Frame, env: Env): Option<CotMessage> {
    var m := FrameReadOn(w, f, env).1;
    if w.active && m.Some? then Some(Stamped(m.value, env)) else None
  }

  /** The frame as the reader of this version takes it: the new state, the message if
      it is one, and whether reading fails, as it does on the other encoding. */
  function FrameReadOn(w: Wire, f: Frame, env: Env): (Wire, Option<CotMessage>, bool) {
    if w.ver == 0 && f.Xml? then XmlReadOn(w, f.ev, env)
    else if w.ver == 0 && PassedOver(f) then (w, None, false)
    else if w.ver == 1 && f.Proto? then (w, Some(CotFromProto(f.event, "", "")), false)
    else (w, None, true)
  }

  /** One pass of the loop of handleRead. */
  ghost function ReadOnWire(w: Wire, f: Frame, env: Env): Wire
    requires IsOrder(env.ord)
  {
    if !w.active then w
    else
      var r := FrameReadOn(w, f, env);
      var m := MessageOf(w, f, env);
      if r.2 then StopOn(r.0) else if m.Some? then MessageOnWire(r.0, m.value, env) else r.0
  }

  function ReadOnBook(w: Wire, b: Book, f: Frame, env: Env): Book {
    var m := MessageOf(w, f, env);
    if m.Some? then MessageOnBook(b, m.value, env) else b
  }

  /** One pass of the loop of handleWrite; `ok` says whether conn.Write works,
      which it does not once Stop has closed the connection. */
  function WriteOn(w: Wire, ok: bool): Wire {
    if !w.writing || w.queue == [] then w
    else
      var w1 := w.(queue := w.queue[1..]);
      if ok && w.active then w1.(written := w.written + [w.queue[0]])
      else StopOn(w1.(failed := w.failed + [w.queue[0]], writing := false))
  }

  class ConnClientHandler {
    const env: Env
    var ver: int
    var active: bool
    var uids: map<string, string>
    var sendChan: seq<Frame>
    var writing: bool
    var passed: seq<CotMessage>
    var newContacts: seq<(string, string)>
    var removeCalls: nat
    ghost var offered: seq<Frame>
    ghost var accepted: seq<Frame>
    ghost var dropped: seq<Frame>
    ghost var written: seq<Frame>
    ghost var failed: seq<Frame>
    ghost var received: seq<CotMessage>

    ghost function Wires(): Wire
      reads this
    {
      Wire(ver, active, sendChan, writing, offered, accepted, dropped, written, failed, removeCalls)
    }

    ghost function Books(): Book
      reads this
    {
      Book(uids, received, passed, newContacts)
    }

    constructor (env: Env)
      ensures this.env == env && Wires() == NEW_WIRE && Books() == NEW_BOOK
    {
      this.env := env;
      ver, active, uids, sendChan, writing := 0, true, map[], [], true;
      passed, newContacts, removeCalls := [], [], 0;
      offered, accepted, dropped, written, failed, received := [], [], [], [], [], [];
    }

    method TryAddPacket(f: Frame) returns (ok: bool)
      modifies this
      ensures Books() == old(Books()) && Wires() == TryAdd(old(Wires()), f) && ok == old(active)
    {
      if !active { return false; }
      offered := offered + [f];
      if |sendChan| < QUEUE_SIZE {
        sendChan := sendChan + [f];
        accepted := accepted + [f];
      } else {
        dropped := dropped + [f];
      }
      return true;
    }

    method SendEvent(ev: Event) returns (ok: bool)
      modifies this
      ensures Books() == old(Books()) && Wires() == SendEventOn(old(Wires()), ev)
              && ok == (old(ver) == 0 && old(active))
    {
      if ver != 0 { return false; }
      ok := TryAddPacket(Xml(ev));
    }

    method SendCot(event: CotEvent) returns (ok: bool)
      requires IsOrder(env.ord)
      modifies this
      ensures Books() == old(Books()) && Wires() == SendCotOn(old(Wires()), event, env)
      ensures ok == (old(active) && (old(ver) == 0 || old(ver) == 1))
    {
      if ver == 0 {
        var ev := CotToEvent(event, env.ord);
        ok := TryAddPacket(Xml(ev));
      } else if ver == 1 {
        ok := TryAddPacket(Proto(event));
      } else {
        ok := false;
      }
    }

    method SendMsg(msg: CotMessage) returns (ok: bool)
      requires IsOrder(env.ord)
      modifies this
      ensures Books() == old(Books()) && Wires() == SendMsgOn(old(Wires()), msg, env)
    {
      if IsLocal(msg) || CanSeeScope(env.device, msg.scope) {
        ok := SendCot(msg.event);
      } else {
        ok := true;
      }
    }

    method Stop()
      modifies this
      ensures Books() == old(Books()) && Wires() == StopOn(old(Wires()))
    {
      if active {
        active := false;
        removeCalls := removeCalls + 1;
      }
    }

    method ProcessXMLRead(ev: Event) returns (msg: Option<CotMessage>, err: bool)
      modifies this
      ensures Books() == old(Books()) && (Wires(), msg, err) == XmlReadOn(old(Wires()), ev, env)
    {
      if ev.typ == "t-x-takp-q" {
        var v := GetAttr(ControlNode(ev, "TakRequest"), "version");
        if v == "1" {
          var ok := SendEvent(ProtoChangeOkMsg(env.now));
          if ok {
            ver := 1;
            return None, false;
          }
          return None, true;
        }
      }
      if env.isClient && ev.typ == "t-x-takp-v" {
        var ps := ControlNode(ev, "TakProtocolSupport");
        if ps.Some? {
          if GetAttr(ps, "version") == "1" {
            var _ := SendEvent(VersionReqMsg(env.now));
          }
        }
        return None, false;
      }
      if env.isClient && ev.typ == "t-x-takp-r" {
        var n := ControlNode(ev, "TakResponse");
        if n.Some? {
          if GetAttr(n, "status") == "true" {
            ver := 1;
          }
        }
        return None, false;
      }
      var m := EventToProto(ev, env.parse);
      return Some(m), false;
    }

    method Register(uid: string, callsign: string)
      modifies this
      ensures Wires() == old(Wires()) && received == old(received) && passed == old(passed)
      ensures uids == old(uids)[uid := callsign]
      ensures newContacts == old(newContacts)
                             + if uid !in old(uids) && env.hasNewContactCb then [(uid, callsign)] else []
    {
      if uid !in uids && env.hasNewContactCb {
        newContacts := newContacts + [(uid, callsign)];
      }
      uids := uids[uid := callsign];
    }

    /** The rest of the loop body of handleRead, for one message. */
    method ProcessMessage(m: CotMessage)
      requires IsOrder(env.ord)
      modifies this
      ensures Wires() == MessageOnWire(old(Wires()), Stamped(m, env), env)
      ensures Books() == MessageOnBook(old(Books()), Stamped(m, env), env)
    {
      var msg := Stamped(m, env);
      if IsContact(msg) {
        var uid := TrimSuffix(msg.event.uid, "-ping");
        if !env.uidAllowed(uid) {
          Stop();
          return;
        }
        Register(uid, GetCallsign(msg));
      }
      received := received + [msg];
      if msg.event.typ == "t-x-d-d" && Has(msg.detail, "link") {
        uids := uids - {GetAttr(GetFirst(msg.detail, "link"), "uid")};
      }
      if msg.event.typ == "t-x-c-t" {
        var _ := SendCot(MakePong(env.now));
        return;
      }
      if msg.event.typ == "t-x-c-t-r" { return; }
      passed := passed + [msg];
    }

    /** One pass of the loop of handleRead. */
    method ReadFrame(f: Frame)
      requires IsOrder(env.ord)
      modifies this
      ensures Wires() == ReadOnWire(old(Wires()), f, env)
      ensures Books() == ReadOnBook(old(Wires()), old(Books()), f, env)
    {
      if !active { return; }
      if ver == 0 && f.Xml? {
        var msg, err := ProcessXMLRead(f.ev);
        assert !err; // the reply is sent in the same atomic step as the checks
        if msg.Some? {
          ProcessMessage(msg.value);
        }
      } else if ver == 0 && PassedOver(f) {
        return;
      } else if ver == 1 && f.Proto? {
        ProcessMessage(CotFromProto(f.event, "", ""));
      } else {
        Stop();
      }
    }

    /** handleRead on an input that ends after these frames. */
    method HandleRead(frames: seq<Frame>)
      requires IsOrder(env.ord)
      modifies this
      ensures Wires() == StopOn(ReadsOnWire(old(Wires()), frames, env)) && !active
      ensures Books() == ReadsOnBook(old(Wires()), old(Books()), frames, env)
    {
      var i := 0;
      while i < |frames| && active
        invariant 0 <= i <= |frames|
        invariant ReadsOnWire(Wires(), frames[i..], env) == ReadsOnWire(old(Wires()), frames, env)
        invariant ReadsOnBook(Wires(), Books(), frames[i..], env)
                  == ReadsOnBook(old(Wires()), old(Books()), frames, env)
      {
        assert frames[i..][1..] == frames[i + 1..];
        ReadFrame(frames[i]);
        i := i + 1;
      }
      if i < |frames| {
        StoppedReads(Wires(), Books(), frames[i..], env);
      }
      Stop();
    }

    /** One pass of the loop of handleWrite. */
    method WriteFrame(ok: bool)
      modifies this
      ensures Books() == old(Books()) && Wires() == WriteOn(old(Wires()), ok)
    {
      if !writing || sendChan == [] { return; }
      var msg := sendChan[0];
      sendChan := sendChan[1..];
      if ok && active {
        written := written + [msg];
      } else {
        failed := failed + [msg];
        Stop();
        writing := false;
      }
    }
  }

  ghost function ReadsOnWire(w: Wire, frames: seq<Frame>, env: Env): Wire
    requires IsOrder(env.ord)
    decreases |frames|
  {
    if frames == [] then w else ReadsOnWire(ReadOnWire(w, frames[0], env), frames[1..], env)
  }

  ghost function ReadsOnBook(w: Wire, b: Book, frames: seq<Frame>, env: Env): Book
    requires IsOrder(env.ord)
    decreases |frames|
  {
    if frames == [] then b
    else ReadsOnBook(ReadOnWire(w, frames[0], env), ReadOnBook(w, b, frames[0], env), frames[1..], env)
  }

  lemma {:induction false} StoppedReads(w: Wire, b: Book, frames: seq<Frame>, env: Env)
    requires IsOrder(env.ord) && !w.active
    ensures ReadsOnWire(w, frames, env) == w && ReadsOnBook(w, b, frames, env) == b
    decreases |frames|
  {
    if frames != [] {
      StoppedReads(w, b, frames[1..], env);
    }
  }

  // ---- runs of one handler ----

  /** Start's version offer, a message to send, a ping, a frame or an error read, a write, a stop. */
  datatype Step =
    | Offer
    | Send(msg: CotMessage)
    | Ping(event: CotEvent)
    | Read(f: Frame)
    | ReadError
    | Write(ok: bool)
    | StopCall

  ghost function NextWire(w: Wire, step: Step, env: Env): Wire
    requires IsOrder(env.ord)
  {
    match step
    case Offer => SendEventOn(w, VersionSupportMsg(env.now))
    case Send(msg) => SendMsgOn(w, msg, env)
    case Ping(event) => SendCotOn(w, event, env)
    case Read(f) => ReadOnWire(w, f, env)
    case ReadError => StopOn(w)
    case Write(ok) => WriteOn(w, ok)
    case StopCall => StopOn(w)
  }

  function NextBook(w: Wire, b: Book, step: Step, env: Env): Book {
    if step.Read? then ReadOnBook(w, b, step.f, env) else b
  }

  ghost function RunWire(w: Wire, steps: seq<Step>, env: Env): Wire
    requires IsOrder(env.ord)
    decreases |steps|
  {
    if steps == [] then w else NextWire(RunWire(w, steps[..|steps| - 1], env), steps[|steps| - 1], env)
  }

  ghost function RunBook(w: Wire, b: Book, steps: seq<Step>, env: Env): Book
    requires IsOrder(env.ord)
    decreases |steps|
  {
    if steps == [] then b
    else
      var init := steps[..|steps| - 1];
      NextBook(RunWire(w, init, env), RunBook(w, b, init, env), steps[|steps| - 1], env)
  }

  /** The books of the queue balance, in order: every frame accepted was written,
      lost in the one failed write, or is still queued. */
  ghost predicate Balanced(w: Wire) {
    && w.accepted == w.written + w.failed + w.queue
    && |w.queue| <= QUEUE_SIZE
    && |w.failed| <= 1 && (w.failed == [] <==> w.writing)
    && (!w.writing ==> !w.active)
    && w.removeCalls == (if w.active then 0 else 1)
    && (w.ver == 0 || w.ver == 1)
  }

  lemma {:induction false} TryAddBalanced(w: Wire, f: Frame)
    requires Balanced(w)
    ensures Balanced(TryAdd(w, f))
  {
    assert w.written + w.failed + (w.queue + [f]) == (w.written + w.failed + w.queue) + [f];
  }

  lemma {:induction false} XmlReadBalanced(w: Wire, ev: Event, env: Env)
    requires Balanced(w)
    ensures Balanced(XmlReadOn(w, ev, env).0)
  {
    TryAddBalanced(w, Xml(ProtoChangeOkMsg(env.now)));
    TryAddBalanced(w, Xml(VersionReqMsg(env.now)));
  }

  lemma {:induction false} MessageBalanced(w: Wire, msg: CotMessage, env: Env)
    requires IsOrder(env.ord) && Balanced(w)
    ensures Balanced(MessageOnWire(w, msg, env))
  {
    TryAddBalanced(w, Encoded(w.ver, MakePong(env.now), env));
  }

  lemma {:induction false} ReadBalanced(w: Wire, f: Frame, env: Env)
    requires IsOrder(env.ord) && Balanced(w)
    ensures Balanced(ReadOnWire(w, f, env))
  {
    if w.active {
      var w1 := FrameReadOn(w, f, env).0;
      if f.Xml? {
        XmlReadBalanced(w, f.ev, env);
      }
      var m := MessageOf(w, f, env);
      if m.Some? {
        MessageBalanced(w1, m.value, env);
      }
    }
  }

  lemma {:induction false} MoveHead(w: seq<Frame>, q: seq<Frame>)
    requires q != []
    ensures w + [] + q == (w + [q[0]]) + [] + q[1..]
    ensures w + [] + q == w + [q[0]] + q[1..]
  {
  }

  lemma {:induction false} WriteBalanced(w: Wire, ok: bool)
    requires Balanced(w)
    ensures Balanced(WriteOn(w, ok))
  {
    if w.writing && w.queue != [] {
      MoveHead(w.written, w.queue);
    }
  }

  lemma {:induction false} NextBalanced(w: Wire, step: Step, env: Env)
    requires IsOrder(env.ord) && Balanced(w)
    ensures Balanced(NextWire(w, step, env))
  {
    match step
    case Offer => TryAddBalanced(w, Xml(VersionSupportMsg(env.now)));
    case Send(msg) => TryAddBalanced(w, Encoded(w.ver, msg.event, env));
    case Ping(event) => TryAddBalanced(w, Encoded(w.ver, event, env));
    case Read(f) => ReadBalanced(w, f, env);
    case Write(ok) => WriteBalanced(w, ok);
    case ReadError =>
    case StopCall =>
  }

  /** In every run the queue is first in, first out, holds at most 50 frames, loses
      at most one frame to a failed write, and removeCb is called once, by the
      first Stop, however many there are. */
  lemma {:induction false} RunBalanced(steps: seq<Step>, env: Env)
    requires IsOrder(env.ord)
    ensures Balanced(RunWire(NEW_WIRE, steps, env))
  {
    if steps != [] {
      RunBalanced(steps[..|steps| - 1], env);
      NextBalanced(RunWire(NEW_WIRE, steps[..|steps| - 1], env), steps[|steps| - 1], env);
    }
  }

  /** The frames offered are those accepted and those dropped, merged in order: each is
      the next of the one or of the other. */
  ghost predicate IsMerge(offered: seq<Frame>, accepted: seq<Frame>, dropped: seq<Frame>)
    decreases |offered|
  {
    if offered == [] then accepted == [] && dropped == []
    else
      var init, f := offered[..|offered| - 1], offered[|offered| - 1];
      || (accepted != [] && accepted[|accepted| - 1] == f && IsMerge(init, accepted[..|accepted| - 1], dropped))
      || (dropped != [] && dropped[|dropped| - 1] == f && IsMerge(init, accepted, dropped[..|dropped| - 1]))
  }

  /** A step offers at most one frame, which is accepted if the queue has room and
      dropped if it is full. */
  ghost predicate OffersAtMostOne(w: Wire, w1: Wire) {
    || (w1.offered == w.offered && w1.accepted == w.accepted && w1.dropped == w.dropped)
    || exists f :: w1.offered == w.offered + [f] &&
         if |w.queue| < QUEUE_SIZE then w1.accepted == w.accepted + [f] && w1.dropped == w.dropped
         else |w.queue| == QUEUE_SIZE && w1.accepted == w.accepted && w1.dropped == w.dropped + [f]
  }

  lemma {:induction false} TryAddOffers(w: Wire, f: Frame)
    requires |w.queue| <= QUEUE_SIZE
    ensures OffersAtMostOne(w, TryAdd(w, f))
  {
    if w.active {
      assert TryAdd(w, f).offered == w.offered + [f];
    }
  }

  /** Only control events, which are not messages, make XmlReadOn send anything. */
  lemma {:induction false} FrameReadOffers(w: Wire, f: Frame, env: Env)
    requires |w.queue| <= QUEUE_SIZE
    ensures var r := FrameReadOn(w, f, env); OffersAtMostOne(w, r.0) && (r.1.Some? ==> r.0 == w)
  {
    TryAddOffers(w, Xml(ProtoChangeOkMsg(env.now)));
    TryAddOffers(w, Xml(VersionReqMsg(env.now)));
  }

  lemma {:induction false} ReadOffers(w: Wire, f: Frame, env: Env)
    requires IsOrder(env.ord) && |w.queue| <= QUEUE_SIZE
    ensures OffersAtMostOne(w, ReadOnWire(w, f, env))
  {
    if w.active {
      FrameReadOffers(w, f, env);
      var m := MessageOf(w, f, env);
      if m.Some? {
        TryAddOffers(w, Encoded(w.ver, MakePong(env.now), env));
        assert OffersAtMostOne(w, MessageOnWire(w, m.value, env));
      }
    }
  }

  lemma {:induction false} NextOffers(w: Wire, step: Step, env: Env)
    requires IsOrder(env.ord) && |w.queue| <= QUEUE_SIZE
    ensures OffersAtMostOne(w, NextWire(w, step, env))
  {
    match step
    case Offer => TryAddOffers(w, Xml(VersionSupportMsg(env.now)));
    case Send(msg) => TryAddOffers(w, Encoded(w.ver, msg.event, env));
    case Ping(event) => TryAddOffers(w, Encoded(w.ver, event, env));
    case Read(f) => ReadOffers(w, f, env);
    case Write(ok) =>
    case ReadError =>
    case StopCall =>
  }

  /** Every step of the run offers at most one frame, and drops it only at a full queue. */
  ghost predicate EachOffersAtMostOne(steps: seq<Step>, env: Env)
    requires IsOrder(env.ord)
  {
    steps != [] ==>
      var init := steps[..|steps| - 1];
      EachOffersAtMostOne(init, env) && OffersAtMostOne(RunWire(NEW_WIRE, init, env), RunWire(NEW_WIRE, steps, env))
  }

  /** In every run each frame offered while the handler is active is the next one
      accepted or the next one dropped, and is dropped exactly when the queue is full. */
  lemma {:induction false} RunAccounted(steps: seq<Step>, env: Env)
    requires IsOrder(env.ord)
    ensures var w := RunWire(NEW_WIRE, steps, env); IsMerge(w.offered, w.accepted, w.dropped)
    ensures EachOffersAtMostOne(steps, env)
  {
    if steps != [] {
      var init := steps[..|steps| - 1];
      RunAccounted(init, env);
      RunBalanced(init, env);
      NextOffers(RunWire(NEW_WIRE, init, env), steps[|steps| - 1], env);
      MergeMore(RunWire(NEW_WIRE, init, env), RunWire(NEW_WIRE, steps, env));
    }
  }

  lemma {:induction false} MergeMore(w: Wire, w1: Wire)
    requires IsMerge(w.offered, w.accepted, w.dropped) && OffersAtMostOne(w, w1)
    ensures IsMerge(w1.offered, w1.accepted, w1.dropped)
  {
    if w1.offered != w.offered {
      var f :| w1.offered == w.offered + [f];
      assert w1.offered[..|w1.offered| - 1] == w.offered;
      assert (w.accepted + [f])[..|w.accepted|] == w.accepted;
      assert (w.dropped + [f])[..|w.dropped|] == w.dropped;
    }
  }

  /** After Stop nothing is offered, accepted, dropped or written any more, and
      removeCb is not called again. */
  lemma {:induction false} NothingSentAfterStop(w: Wire, steps: seq<Step>, env: Env)
    requires IsOrder(env.ord) && !w.active
    ensures var g := RunWire(w, steps, env);
            !g.active && g.offered == w.offered && g.accepted == w.accepted && g.dropped == w.dropped &&
            g.written == w.written && g.removeCalls == w.removeCalls
    decreases |steps|
  {
    if steps != [] {
      NothingSentAfterStop(w, steps[..|steps| - 1], env);
    }
  }

  /** Nor is anything read or passed on, and the contacts stay as they are. */
  lemma {:induction false} NothingReadAfterStop(w: Wire, b: Book, steps: seq<Step>, env: Env)
    requires IsOrder(env.ord) && !w.active
    ensures RunBook(w, b, steps, env) == b
    decreases |steps|
  {
    if steps != [] {
      NothingReadAfterStop(w, b, steps[..|steps| - 1], env);
      NothingSentAfterStop(w, steps[..|steps| - 1], env);
    }
  }

  // ---- contacts ----

  /** The callsign given by the last of the messages that registered or removed the uid. */
  function LastCallsign(got: seq<CotMessage>, uid: string): Option<string>
    decreases |got|
  {
    if got == [] then None
    else
      var m := got[|got| - 1];
      if RemovesUid(m) == Some(uid) then None
      else if AddsUid(m) == Some(uid) then Some(GetCallsign(m))
      else LastCallsign(got[..|got| - 1], uid)
  }

  /** The registrations of a uid that was not registered when they came. */
  function FirstContacts(got: seq<CotMessage>): seq<(string, string)>
    decreases |got|
  {
    if got == [] then []
    else
      var init, m := got[..|got| - 1], got[|got| - 1];
      if AddsUid(m).Some? && LastCallsign(init, AddsUid(m).value).None?
      then FirstContacts(init) + [(AddsUid(m).value, GetCallsign(m))]
      else FirstContacts(init)
  }

  /** The contact map is what the messages read so far say, and the new-contact
      callback was called for the first registrations, in order. */
  ghost predicate ContactsAgree(b: Book, env: Env) {
    && (forall uid :: LastCallsign(b.received, uid) == if uid in b.uids then Some(b.uids[uid]) else None)
    && b.newContacts == (if env.hasNewContactCb then FirstContacts(b.received) else [])
  }

  lemma {:induction false} AddOrRemove(m: CotMessage)
    ensures AddsUid(m).None? || RemovesUid(m).None?
  {
    if AddsUid(m).Some? {
      assert m.event.typ[0] == 'a' && "t-x-d-d"[0] == 't';
    }
  }

  lemma {:induction false} MessageContacts(b: Book, msg: CotMessage, env: Env)
    requires ContactsAgree(b, env)
    ensures ContactsAgree(MessageOnBook(b, msg, env), env)
  {
    if !Blacklisted(msg, env) {
      var g, got := MessageOnBook(b, msg, env), b.received + [msg];
      assert g.received == got && got[..|got| - 1] == b.received;
      AddOrRemove(msg);
      forall uid ensures LastCallsign(got, uid) == if uid in g.uids then Some(g.uids[uid]) else None {
        assert LastCallsign(b.received, uid) == if uid in b.uids then Some(b.uids[uid]) else None;
      }
      if AddsUid(msg).Some? {
        var uid := AddsUid(msg).value;
        assert LastCallsign(b.received, uid) == if uid in b.uids then Some(b.uids[uid]) else None;
      }
    }
  }

  /** In every run the contact map equals the fold of the messages read, and the
      new-contact callback fires exactly when a uid goes from absent to present. */
  lemma {:induction false} RunContacts(steps: seq<Step>, env: Env)
    requires IsOrder(env.ord)
    ensures ContactsAgree(RunBook(NEW_WIRE, NEW_BOOK, steps, env), env)
  {
    if steps != [] {
      var init, step := steps[..|steps| - 1], steps[|steps| - 1];
      RunContacts(init, env);
      if step.Read? {
        var m := MessageOf(RunWire(NEW_WIRE, init, env), step.f, env);
        if m.Some? {
          MessageContacts(RunBook(NEW_WIRE, NEW_BOOK, init, env), m.value, env);
        }
      }
    }
  }
}

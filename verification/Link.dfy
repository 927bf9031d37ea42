/** A server-role and a client-role handler joined by two in-order channels:
    version negotiation of a streaming connection ("Streaming Connection Protocol
    Negotiation", steps 3 to 7, in protobuf/protocol.txt). */
module Link {
  import opened Wrappers
  import opened CotMessages
  import opened Converter
  import opened ClientHandler
  import Filter
  import XmlNode

  /** The two handlers, the frames on their way, and those the client has read. */
  datatype LinkState = LinkState(server: Wire, client: Wire, toClient: seq<Frame>, toServer: seq<Frame>,
                                 clientReads: seq<Frame>)

  const START := LinkState(NEW_WIRE, NEW_WIRE, [], [], [])

  datatype Envs = Envs(server: Env, client: Env)

  ghost predicate Roles(e: Envs) {
    !e.server.isClient && e.client.isClient && XmlNode.IsOrder(e.server.ord) && XmlNode.IsOrder(e.client.ord)
  }

  /** One atomic step of either side. A frame in the wrong encoding is skipped by
      the server's reader, or breaks it. */
  datatype Move =
    | ServerOffer
    | ServerSend(event: CotEvent)
    | ServerWrite(ok: bool)
    | ServerRead(breaks: bool)
    | ServerStop
    | ClientSend(event: CotEvent)
    | ClientWrite(ok: bool)
    | ClientRead
    | ClientStop

  /** The frames that a write puts on the wire. */
  function Sent(before: Wire, after: Wire): seq<Frame> {
    if |after.written| > |before.written| then after.written[|before.written|..] else []
  }

  predicate Matches(ver: int, f: Frame) {
    (ver == 0 && f.Xml?) || (ver == 1 && f.Proto?)
  }

  ghost function Next(l: LinkState, m: Move, e: Envs): LinkState
    requires Roles(e)
  {
    match m
    case ServerOffer => l.(server := SendEventOn(l.server, VersionSupportMsg(e.server.now)))
    case ServerSend(event) => l.(server := SendCotOn(l.server, event, e.server))
    case ServerWrite(ok) =>
      var s := WriteOn(l.server, ok);
      l.(server := s, toClient := l.toClient + Sent(l.server, s))
    case ServerRead(breaks) =>
      if l.toServer == [] || !l.server.active then l
      else
        var f, rest := l.toServer[0], l.toServer[1..];
        if Matches(l.server.ver, f) then l.(server := ReadOnWire(l.server, f, e.server), toServer := rest)
        else l.(server := if breaks then StopOn(l.server) else l.server, toServer := rest)
    case ServerStop => l.(server := StopOn(l.server))
    case ClientSend(event) => l.(client := SendCotOn(l.client, event, e.client))
    case ClientWrite(ok) =>
      var c := WriteOn(l.client, ok);
      l.(client := c, toServer := l.toServer + Sent(l.client, c))
    case ClientRead =>
      if l.toClient == [] || !l.client.active then l
      else
        var f := l.toClient[0];
        l.(client := ReadOnWire(l.client, f, e.client), toClient := l.toClient[1..], clientReads := l.clientReads + [f])
    case ClientStop => l.(client := StopOn(l.client))
  }

  /** An event that makes a client switch on its own. */
  predicate Disrupts(ev: Event) {
    IsVersionRequest(ev) || IsOkResponse(ev)
  }

  /** The moves after which the client can no longer follow the server: a message that
      the client will take for a negotiation message is queued as XML, or a request is
      answered when the queue has no room for the answer. */
  ghost predicate Spoils(l: LinkState, m: Move, e: Envs)
    requires Roles(e)
  {
    var s := l.server;
    match m
    case ServerSend(event) =>
      s.active && |s.queue| < QUEUE_SIZE && s.ver == 0 && Disrupts(EventSpec(event, e.server.ord))
    case ServerRead(_) =>
      && l.toServer != [] && s.active && s.ver == 0 && l.toServer[0].Xml? && IsVersionRequest(l.toServer[0].ev)
      && |s.queue| >= QUEUE_SIZE
    case _ => false
  }

  /** The version of a client that starts at `ver` and reads these frames, if each
      is in the encoding it then expects and no request is among them. */
  function After(ver: int, frames: seq<Frame>): Option<int>
    decreases |frames|
  {
    if frames == [] then Some(ver)
    else
      var before, f := After(ver, frames[..|frames| - 1]), frames[|frames| - 1];
      if before.None? then None
      else if before.value == 0 && f.Xml? && !IsVersionRequest(f.ev) then Some(if IsOkResponse(f.ev) then 1 else 0)
      else if before.value == 1 && f.Proto? then Some(1)
      else None
  }

  /** The server has queued nothing that the client could not read; what is
      written and not yet read is on its way; and the client is where its reads
      have brought it. */
  ghost predicate Negotiated(l: LinkState) {
    && Balanced(l.server) && Balanced(l.client)
    && l.server.written == l.clientReads + l.toClient
    && After(0, l.server.accepted) == Some(l.server.ver)
    && After(0, l.clientReads) == Some(l.client.ver)
  }

  // ---- After ----

  lemma {:induction false} AfterAppend(ver: int, frames: seq<Frame>, f: Frame)
    requires After(ver, frames).Some?
    ensures After(ver, frames + [f]) ==
            var v := After(ver, frames).value;
            if v == 0 && f.Xml? && !IsVersionRequest(f.ev) then Some(if IsOkResponse(f.ev) then 1 else 0)
            else if v == 1 && f.Proto? then Some(1) else None
  {
    assert (frames + [f])[..|frames + [f]| - 1] == frames;
  }

  /** Prefixes of what can be read can be read, and versions only grow on the way. */
  lemma {:induction false} AfterPrefix(ver: int, a: seq<Frame>, b: seq<Frame>)
    requires After(ver, a + b).Some?
    ensures After(ver, a).Some?
    ensures After(ver, a).value == 1 ==> After(ver, a + b).value == 1
    decreases |b|
  {
    if b == [] {
      assert a + b == a;
    } else {
      var init := b[..|b| - 1];
      assert (a + b)[..|a + b| - 1] == a + init;
      AfterPrefix(ver, a, init);
    }
  }

  lemma {:induction false} AfterIsVersion(frames: seq<Frame>)
    ensures After(0, frames).Some? ==> After(0, frames).value in {0, 1}
  {
    if frames != [] {
      AfterIsVersion(frames[..|frames| - 1]);
    }
  }

  // ---- the server's queue ----

  lemma {:induction false} OkReplySwitches(now: Time)
    ensures IsOkResponse(ProtoChangeOkMsg(now)) && !IsVersionRequest(ProtoChangeOkMsg(now))
    ensures !Disrupts(VersionSupportMsg(now))
  {
    var ev := ProtoChangeOkMsg(now);
    assert DetailNode(ev).value.nodes[0].name == "TakControl";
    assert DetailNode(ev).value.nodes[0].nodes[0].name == "TakResponse";
    assert ControlNode(ev, "TakResponse")
        == Some(XmlNode.Node("TakResponse", [XmlNode.Attr("status", "true")], "", []));
  }

  /** A frame in the current encoding keeps the server's queue readable exactly if
      it is not an event that the client would take for a negotiation message. */
  lemma {:induction false} EncodedKeepsReadable(h: Wire, event: CotEvent, env: Env)
    requires XmlNode.IsOrder(env.ord) && Balanced(h) && After(0, h.accepted) == Some(h.ver)
    ensures var g := SendCotOn(h, event, env);
            After(0, g.accepted) == Some(g.ver)
            <==> !(h.active && |h.queue| < QUEUE_SIZE && h.ver == 0 && Disrupts(EventSpec(event, env.ord)))
  {
    AfterAppend(0, h.accepted, Encoded(h.ver, event, env));
  }

  lemma {:induction false} PongIsHarmless(now: Time, ord: XmlNode.Order)
    requires XmlNode.IsOrder(ord)
    ensures !Disrupts(EventSpec(MakePong(now), ord))
  {
  }

  /** What the server does with a message it has read leaves its queue readable. */
  lemma {:induction false} MessageKeepsReadable(h: Wire, msg: CotMessage, env: Env)
    requires XmlNode.IsOrder(env.ord) && Balanced(h) && After(0, h.accepted) == Some(h.ver)
    ensures var g := MessageOnWire(h, msg, env); After(0, g.accepted) == Some(g.ver)
  {
    PongIsHarmless(env.now, env.ord);
    EncodedKeepsReadable(h, MakePong(env.now), env);
  }

  /** Answering a version request keeps the server's queue readable exactly if
      there is room for the reply: tryAddPacket reports success even when it drops
      the packet, and the server switches all the same. */
  lemma {:induction false} RequestExactlyWhen(h: Wire, ev: Event, env: Env)
    requires XmlNode.IsOrder(env.ord) && Balanced(h) && After(0, h.accepted) == Some(h.ver)
    requires h.active && h.ver == 0 && IsVersionRequest(ev)
    ensures var g := ReadOnWire(h, Xml(ev), env);
            && g.ver == 1
            && (After(0, g.accepted) == Some(g.ver) <==> |h.queue| < QUEUE_SIZE)
  {
    OkReplySwitches(env.now);
    AfterAppend(0, h.accepted, Xml(ProtoChangeOkMsg(env.now)));
  }

  lemma {:induction false} ServerReadKeepsReadable(h: Wire, f: Frame, env: Env)
    requires XmlNode.IsOrder(env.ord) && !env.isClient && Balanced(h) && After(0, h.accepted) == Some(h.ver)
    ensures var g := ReadOnWire(h, f, env);
            After(0, g.accepted) == Some(g.ver)
            <==> !(h.active && h.ver == 0 && f.Xml? && IsVersionRequest(f.ev) && |h.queue| >= QUEUE_SIZE)
  {
    var m := MessageOf(h, f, env);
    if h.active && h.ver == 0 && f.Xml? && IsVersionRequest(f.ev) {
      RequestExactlyWhen(h, f.ev, env);
    } else if m.Some? {
      MessageKeepsReadable(h, m.value, env);
    }
  }

  // ---- the client ----

  /** A client that reads a frame it expects ends at the version After gives. */
  lemma {:induction false} ClientReadVersion(h: Wire, f: Frame, env: Env)
    requires XmlNode.IsOrder(env.ord) && env.isClient && h.active
    requires (h.ver == 0 && f.Xml? && !IsVersionRequest(f.ev)) || (h.ver == 1 && f.Proto?)
    ensures ReadOnWire(h, f, env).ver == if h.ver == 0 && !IsOkResponse(f.ev) then 0 else 1
  {
  }

  /** The next frame for the client is one it expects. */
  lemma {:induction false} HeadIsReadable(l: LinkState)
    requires Negotiated(l) && l.toClient != []
    ensures var f, c := l.toClient[0], l.client.ver;
            && ((c == 0 && f.Xml? && !IsVersionRequest(f.ev)) || (c == 1 && f.Proto?))
            && After(0, l.clientReads + [f]) == Some(if c == 0 && !IsOkResponse(f.ev) then 0 else 1)
  {
    var f, rest := l.toClient[0], l.toClient[1..] + l.server.failed + l.server.queue;
    assert l.toClient == [f] + l.toClient[1..];
    assert l.server.accepted == (l.clientReads + [f]) + rest;
    AfterPrefix(0, l.clientReads + [f], rest);
    AfterAppend(0, l.clientReads, f);
  }

  lemma {:induction false} WriteSends(h: Wire, ok: bool)
    requires Balanced(h)
    ensures WriteOn(h, ok).written == h.written + Sent(h, WriteOn(h, ok))
    ensures WriteOn(h, ok).accepted == h.accepted && WriteOn(h, ok).ver == h.ver
  {
  }

  lemma {:induction false} ServerMoveKeeps(l: LinkState, m: Move, e: Envs)
    requires Roles(e) && Negotiated(l)
    requires m.ServerOffer? || m.ServerSend? || m.ServerRead? || m.ServerStop?
    ensures var s := Next(l, m, e).server;
            Balanced(s) && s.written == l.server.written && (After(0, s.accepted) == Some(s.ver) <==> !Spoils(l, m, e))
  {
    var h, env := l.server, e.server;
    match m
    case ServerOffer =>
      TryAddBalanced(h, Xml(VersionSupportMsg(env.now)));
      OkReplySwitches(env.now);
      AfterAppend(0, h.accepted, Xml(VersionSupportMsg(env.now)));
    case ServerSend(event) =>
      TryAddBalanced(h, Encoded(h.ver, event, env));
      EncodedKeepsReadable(h, event, env);
    case ServerRead(_) =>
      if l.toServer != [] && h.active && Matches(h.ver, l.toServer[0]) {
        ReadBalanced(h, l.toServer[0], env);
        ServerReadKeepsReadable(h, l.toServer[0], env);
        ReadWritesNothing(h, l.toServer[0], env);
      }
    case ServerStop =>
  }

  lemma {:induction false} ReadWritesNothing(h: Wire, f: Frame, env: Env)
    requires XmlNode.IsOrder(env.ord)
    ensures ReadOnWire(h, f, env).written == h.written
  {
    var m := MessageOf(h, f, env);
    assert FrameReadOn(h, f, env).0.written == h.written;
    if m.Some? {
      MessageWritesNothing(FrameReadOn(h, f, env).0, m.value, env);
    }
  }

  lemma {:induction false} MessageWritesNothing(h: Wire, msg: CotMessage, env: Env)
    requires XmlNode.IsOrder(env.ord)
    ensures MessageOnWire(h, msg, env).written == h.written
  {
  }

  lemma {:induction false} ClientMoveKeeps(l: LinkState, m: Move, e: Envs)
    requires Roles(e) && Negotiated(l)
    requires m.ClientSend? || m.ClientWrite? || m.ClientRead? || m.ClientStop?
    ensures Negotiated(Next(l, m, e))
  {
    var h, env := l.client, e.client;
    match m
    case ClientSend(event) => TryAddBalanced(h, Encoded(h.ver, event, env));
    case ClientWrite(ok) =>
      WriteBalanced(h, ok);
      WriteSends(h, ok);
    case ClientRead =>
      if l.toClient != [] && h.active {
        ClientReadKeeps(l, e);
      }
    case ClientStop =>
  }

  lemma {:induction false} ClientReadKeeps(l: LinkState, e: Envs)
    requires Roles(e) && Negotiated(l) && l.toClient != [] && l.client.active
    ensures Negotiated(Next(l, ClientRead, e))
  {
    var f := l.toClient[0];
    HeadIsReadable(l);
    ClientReadDoes(l.client, f, e.client);
    assert l.clientReads + l.toClient == (l.clientReads + [f]) + l.toClient[1..];
  }

  lemma {:induction false} ClientReadDoes(h: Wire, f: Frame, env: Env)
    requires XmlNode.IsOrder(env.ord) && env.isClient && h.active && Balanced(h)
    requires (h.ver == 0 && f.Xml? && !IsVersionRequest(f.ev)) || (h.ver == 1 && f.Proto?)
    ensures Balanced(ReadOnWire(h, f, env))
    ensures ReadOnWire(h, f, env).ver == if h.ver == 0 && !IsOkResponse(f.ev) then 0 else 1
  {
    ReadBalanced(h, f, env);
    ClientReadVersion(h, f, env);
  }

  /** A move of either side keeps the link negotiated exactly if it does not spoil it. */
  lemma {:induction false} MoveKeepsExactlyWhen(l: LinkState, m: Move, e: Envs)
    requires Roles(e) && Negotiated(l)
    ensures Negotiated(Next(l, m, e)) <==> !Spoils(l, m, e)
  {
    if m.ServerWrite? {
      WriteBalanced(l.server, m.ok);
      WriteSends(l.server, m.ok);
      assert l.clientReads + (l.toClient + Sent(l.server, WriteOn(l.server, m.ok)))
          == l.clientReads + l.toClient + Sent(l.server, WriteOn(l.server, m.ok));
    } else if m.ServerOffer? || m.ServerSend? || m.ServerRead? || m.ServerStop? {
      ServerMoveKeeps(l, m, e);
    } else {
      ClientMoveKeeps(l, m, e);
    }
  }

  // ---- runs ----

  /** Each state follows from the one before by any move. */
  ghost predicate Continues(states: seq<LinkState>, moves: seq<Move>, e: Envs)
    requires Roles(e)
  {
    |states| == |moves| + 1 && forall i: nat :: i < |moves| ==> Follows(states, moves, e, i)
  }

  ghost predicate Follows(states: seq<LinkState>, moves: seq<Move>, e: Envs, i: nat)
    requires Roles(e) && i < |moves| && |states| == |moves| + 1
  {
    states[i + 1] == Next(states[i], moves[i], e)
  }

  ghost predicate IsRun(states: seq<LinkState>, moves: seq<Move>, e: Envs)
    requires Roles(e)
  {
    Continues(states, moves, e) && states[0] == START
  }

  /** None of the first n moves spoils the negotiation. */
  ghost predicate Unspoiled(states: seq<LinkState>, moves: seq<Move>, e: Envs, n: nat)
    requires Roles(e) && n <= |moves| <= |states|
  {
    forall j :: 0 <= j < n ==> !Spoils(states[j], moves[j], e)
  }

  /** In every run, whatever the moves, the link is negotiated all the way to state i
      exactly if no move before it spoils it. */
  lemma {:induction false} RunNegotiatedExactlyWhen(states: seq<LinkState>, moves: seq<Move>, e: Envs, i: nat)
    requires Roles(e) && IsRun(states, moves, e) && i < |states|
    ensures (forall j :: 0 <= j <= i ==> Negotiated(states[j])) <==> Unspoiled(states, moves, e, i)
  {
    if Unspoiled(states, moves, e, i) {
      forall j | 0 <= j <= i ensures Negotiated(states[j]) {
        UnspoiledNegotiated(states, moves, e, j);
      }
    }
    if forall j :: 0 <= j <= i ==> Negotiated(states[j]) {
      forall j | 0 <= j < i ensures !Spoils(states[j], moves[j], e) {
        assert Follows(states, moves, e, j);
        assert Negotiated(states[j]) && Negotiated(states[j + 1]);
        NegotiatedNext(states, moves, e, j);
      }
    }
  }

  lemma {:induction false} UnspoiledNegotiated(states: seq<LinkState>, moves: seq<Move>, e: Envs, i: nat)
    requires Roles(e) && IsRun(states, moves, e) && i < |states| && Unspoiled(states, moves, e, i)
    ensures Negotiated(states[i])
  {
    if i == 0 {
      StartNegotiated();
    } else {
      UnspoiledNegotiated(states, moves, e, i - 1);
      assert Follows(states, moves, e, i - 1);
      NegotiatedNext(states, moves, e, i - 1);
    }
  }

  lemma {:induction false} StartNegotiated()
    ensures Negotiated(START)
  {
  }

  lemma {:induction false} NegotiatedNext(states: seq<LinkState>, moves: seq<Move>, e: Envs, i: nat)
    requires Roles(e) && i < |moves| && |states| == |moves| + 1
    requires Follows(states, moves, e, i) && Negotiated(states[i])
    ensures Negotiated(states[i + 1]) <==> !Spoils(states[i], moves[i], e)
  {
    MoveKeepsExactlyWhen(states[i], moves[i], e);
  }

  /** In every state of every run that is not spoiled before it: both versions are 0 or
      1, the client is at 1 only if the server is, and the next frame for the client is
      in the encoding that the client's reader expects. */
  lemma {:induction false} ClientReadsWhatServerWrote(states: seq<LinkState>, moves: seq<Move>, e: Envs, i: nat)
    requires Roles(e) && IsRun(states, moves, e) && i < |states| && Unspoiled(states, moves, e, i)
    ensures var l := states[i];
            && l.server.ver in {0, 1} && l.client.ver in {0, 1}
            && (l.client.ver == 1 ==> l.server.ver == 1)
            && (l.toClient != [] ==> Matches(l.client.ver, l.toClient[0]))
  {
    var l := states[i];
    UnspoiledNegotiated(states, moves, e, i);
    AfterIsVersion(l.clientReads);
    assert l.server.accepted == l.clientReads + (l.toClient + l.server.failed + l.server.queue);
    AfterPrefix(0, l.clientReads, l.toClient + l.server.failed + l.server.queue);
    if l.toClient != [] {
      HeadIsReadable(l);
    }
  }

  /** Step 7a, in every state of every run that is not spoiled before it: everything the
      server has queued up to and including the "true" response is XML, everything
      after it is not; and the response is there exactly if the server has switched. */
  lemma {:induction false} XmlUpToTheResponse(states: seq<LinkState>, moves: seq<Move>, e: Envs, i: nat)
    returns (k: nat)
    requires Roles(e) && IsRun(states, moves, e) && i < |states| && Unspoiled(states, moves, e, i)
    ensures var frames := states[i].server.accepted;
            && k <= |frames| && (forall j :: 0 <= j < k ==> frames[j].Xml?)
            && (forall j :: k <= j < |frames| ==> frames[j].Proto?)
            && (if states[i].server.ver == 1 then k > 0 && IsOkResponse(frames[k - 1].ev) else k == |frames|)
            && (forall j :: 0 <= j < k - (if states[i].server.ver == 1 then 1 else 0) ==> !IsOkResponse(frames[j].ev))
  {
    UnspoiledNegotiated(states, moves, e, i);
    k := SplitAtResponse(states[i].server.accepted);
  }

  lemma {:induction false} SplitAtResponse(frames: seq<Frame>) returns (k: nat)
    requires After(0, frames).Some?
    ensures After(0, frames).value in {0, 1}
    ensures k <= |frames| && (forall i :: 0 <= i < k ==> frames[i].Xml? && !IsVersionRequest(frames[i].ev))
    ensures forall i :: k <= i < |frames| ==> frames[i].Proto?
    ensures if After(0, frames).value == 1 then k > 0 && IsOkResponse(frames[k - 1].ev) else k == |frames|
    ensures forall i :: 0 <= i < k - After(0, frames).value ==> !IsOkResponse(frames[i].ev)
    decreases |frames|
  {
    if frames == [] {
      k := 0;
    } else {
      var init := frames[..|frames| - 1];
      AfterIsVersion(init);
      AfterIsVersion(frames);
      k := SplitAtResponse(init);
      assert forall i :: 0 <= i < |init| ==> frames[i] == init[i];
      if After(0, init).value == 0 {
        k := |frames|;
      }
    }
  }

  /** Versions never go back, in any run. */
  lemma {:induction false} VersionsOnlyGrow(states: seq<LinkState>, moves: seq<Move>, e: Envs, i: nat)
    requires Roles(e) && IsRun(states, moves, e) && i + 1 < |states|
    ensures states[i].server.ver <= states[i + 1].server.ver && states[i].client.ver <= states[i + 1].client.ver
  {
    var l, m := states[i], moves[i];
    assert Follows(states, moves, e, i);
    RunBothBalanced(states, moves, e, i);
    if m.ServerRead? && l.toServer != [] && l.server.active {
      VersionGrows(l.server, l.toServer[0], e.server);
    }
    if m.ClientRead? && l.toClient != [] && l.client.active {
      VersionGrows(l.client, l.toClient[0], e.client);
    }
  }

  lemma {:induction false} VersionGrows(h: Wire, f: Frame, env: Env)
    requires XmlNode.IsOrder(env.ord) && Balanced(h)
    ensures h.ver <= ReadOnWire(h, f, env).ver
  {
  }

  lemma {:induction false} RunBothBalanced(states: seq<LinkState>, moves: seq<Move>, e: Envs, i: nat)
    requires Roles(e) && IsRun(states, moves, e) && i < |states|
    ensures Balanced(states[i].server) && Balanced(states[i].client)
  {
    if i > 0 {
      RunBothBalanced(states, moves, e, i - 1);
      assert Follows(states, moves, e, i - 1);
      MoveBalanced(states[i - 1], moves[i - 1], e);
    }
  }

  lemma {:induction false} MoveBalanced(l: LinkState, m: Move, e: Envs)
    requires Roles(e) && Balanced(l.server) && Balanced(l.client)
    ensures Balanced(Next(l, m, e).server) && Balanced(Next(l, m, e).client)
  {
    match m
    case ServerOffer => TryAddBalanced(l.server, Xml(VersionSupportMsg(e.server.now)));
    case ServerSend(event) => TryAddBalanced(l.server, Encoded(l.server.ver, event, e.server));
    case ServerWrite(ok) => WriteBalanced(l.server, ok);
    case ServerRead(_) =>
      if l.toServer != [] {
        ReadBalanced(l.server, l.toServer[0], e.server);
      }
    case ServerStop =>
    case ClientSend(event) => TryAddBalanced(l.client, Encoded(l.client.ver, event, e.client));
    case ClientWrite(ok) => WriteBalanced(l.client, ok);
    case ClientRead =>
      if l.toClient != [] {
        ReadBalanced(l.client, l.toClient[0], e.client);
      }
    case ClientStop =>
  }

  // ---- what the server's filter lets through ----

  /** filterProcessor: control messages are not routed. */
  predicate PassesFilter(event: CotEvent) {
    !IsControl(CotMessage("", "", event, None))
  }

  /** Of the negotiation messages the filter stops the requests only: a message that
      passes it spoils the link exactly if it is a "true" response, and is queued as XML. */
  lemma {:induction false} ForwardedSpoilsExactlyWhen(l: LinkState, event: CotEvent, e: Envs)
    requires Roles(e) && PassesFilter(event)
    ensures Spoils(l, ServerSend(event), e)
       <==> && l.server.active && |l.server.queue| < QUEUE_SIZE && l.server.ver == 0
            && IsOkResponse(EventSpec(event, e.server.ord))
  {
    assert Filter.MatchPattern("t-x-takp-q", "t-x-takp-q");
    assert event.typ == "t-x-takp-q" ==> IsControl(CotMessage("", "", event, None));
  }

  /** A "true" response of the wrong sender, as a client can send one to the server. */
  function StrayResponse(now: Time): CotEvent {
    var leaf := XmlNode.Node("TakResponse", [XmlNode.Attr("status", "true")], "", []);
    BasicMsg("t-x-takp-r", "protouid", 60 * SECOND, "m-g", now).(
      detail := Some(Detail(XmlText("", [XmlNode.Node("TakControl", [], "", [leaf])]),
                            None, None, None, None, None, None)))
  }

  /** It passes the filter, which stops eight types and no other. */
  lemma {:induction false} StrayPassesFilter(now: Time)
    ensures PassesFilter(StrayResponse(now))
  {
    ResponseIsNoControl();
  }

  lemma {:induction false} ResponseIsNoControl()
    ensures !IsControlType("t-x-takp-r")
  {
    var typ := "t-x-takp-r";
    Filter.PlainMatch(typ, "t-b");
    Filter.PlainMatch(typ, "t-b-a");
    Filter.PlainMatch(typ, "t-b-c");
    Filter.PlainMatch(typ, "t-b-q");
    Filter.PlainMatch(typ, "t-x-takp-q");
    Filter.PlainMatch(typ, "t-x-c-m");
    Filter.PlainMatch(typ, "t-x-c-i-e");
    Filter.PlainMatch(typ, "t-x-c-i-d");
  }

  lemma {:induction false} StrayIsResponse(now: Time, ord: XmlNode.Order)
    requires XmlNode.IsOrder(ord)
    ensures IsOkResponse(EventSpec(StrayResponse(now), ord))
  {
    var event := StrayResponse(now);
    var ev := EventSpec(event, ord);
    assert MergedNodes(event.detail.value, ord) == event.detail.value.xml.nodes;
    assert DetailNode(ev).value.nodes[0].name == "TakControl";
    assert DetailNode(ev).value.nodes[0].nodes[0].name == "TakResponse";
  }

  /** Three moves after such a message is sent the client has switched and the server
      has not. */
  lemma {:induction false} StraySwitchesClient(e: Envs, event: CotEvent)
    requires Roles(e) && IsOkResponse(EventSpec(event, e.server.ord))
    ensures var sent := Next(Next(START, ServerSend(event), e), ServerWrite(true), e);
            var end := Next(sent, ClientRead, e);
            end.client.ver == 1 && end.server.ver == 0 && end.server.active && end.client.active
  {
    var f := Xml(EventSpec(event, e.server.ord));
    var send := Next(START, ServerSend(event), e);
    assert send.server == TryAdd(NEW_WIRE, f) && send.server.queue == [f] && send.server.written == [];
    var sent := Next(send, ServerWrite(true), e);
    assert sent.server.written == [f] && sent.toClient == [f] && sent.client == NEW_WIRE;
    StrayRead(f.ev, e.client);
  }

  /** The input: the stray response passes the filter, and the client switches alone. */
  lemma {:induction false} StrayResponseWitness(e: Envs, now: Time)
    requires Roles(e)
    ensures PassesFilter(StrayResponse(now)) && Spoils(START, ServerSend(StrayResponse(now)), e)
    ensures var sent := Next(Next(START, ServerSend(StrayResponse(now)), e), ServerWrite(true), e);
            var end := Next(sent, ClientRead, e);
            end.client.ver == 1 && end.server.ver == 0 && end.server.active && end.client.active
  {
    StrayPassesFilter(now);
    StrayIsResponse(now, e.server.ord);
    StraySwitchesClient(e, StrayResponse(now));
  }

  lemma {:induction false} StrayRead(ev: Event, env: Env)
    requires XmlNode.IsOrder(env.ord) && env.isClient && IsOkResponse(ev)
    ensures ReadOnWire(NEW_WIRE, Xml(ev), env) == NEW_WIRE.(ver := 1)
  {
  }

  // ---- a dropped answer ----

  /** The server has switched, the client has not, and nothing is on its way or queued
      that could tell it. */
  ghost predicate Unheard(l: LinkState) {
    && l.server.ver == 1 && l.client.ver == 0
    && (forall f <- l.toClient :: Harmless(f)) && (forall f <- l.server.queue :: Harmless(f))
  }

  predicate Harmless(f: Frame) {
    f.Xml? ==> !Disrupts(f.ev)
  }

  /** A request that is answered when the queue is full leaves the client unheard. */
  lemma {:induction false} DroppedAnswerIsUnheard(l: LinkState, breaks: bool, e: Envs)
    requires Roles(e) && Negotiated(l) && Spoils(l, ServerRead(breaks), e)
    ensures Unheard(Next(l, ServerRead(breaks), e))
  {
    var rest := l.toClient + l.server.failed + l.server.queue;
    assert l.server.accepted == l.clientReads + rest;
    AfterPrefix(0, l.clientReads, rest);
    AfterIsVersion(l.clientReads);
    var k := SplitAtResponse(l.server.accepted);
    forall f | f in rest ensures Harmless(f) {
      var i :| 0 <= i < |rest| && rest[i] == f;
      assert l.server.accepted[|l.clientReads| + i] == f;
    }
  }

  /** And it stays so: whatever either side does afterwards, the client never switches. */
  lemma {:induction false} UnheardForEver(states: seq<LinkState>, moves: seq<Move>, e: Envs, i: nat)
    requires Roles(e) && Continues(states, moves, e) && i < |states| && Unheard(states[0])
    ensures Unheard(states[i])
  {
    if i > 0 {
      UnheardForEver(states, moves, e, i - 1);
      assert Follows(states, moves, e, i - 1);
      StaysUnheard(states[i - 1], moves[i - 1], e);
    }
  }

  lemma {:induction false} StaysUnheard(l: LinkState, m: Move, e: Envs)
    requires Roles(e) && Unheard(l)
    ensures Unheard(Next(l, m, e))
  {
    match m
    case ServerRead(_) =>
      if l.toServer != [] && l.server.active && l.toServer[0].Proto? {
        ReadAtOne(l.server, l.toServer[0], e.server);
      }
    case ClientRead =>
      if l.toClient != [] {
        ReadHarmless(l.client, l.toClient[0], e.client);
      }
    case ClientSend(event) =>
    case _ =>
  }

  /** A handler that has switched queues frames of the new encoding only. */
  lemma {:induction false} ReadAtOne(h: Wire, f: Frame, env: Env)
    requires XmlNode.IsOrder(env.ord) && h.ver == 1 && f.Proto?
    ensures var g := ReadOnWire(h, f, env);
            g.ver == 1 && g.written == h.written && forall x <- g.queue :: x in h.queue || x.Proto?
  {
  }

  lemma {:induction false} ReadHarmless(h: Wire, f: Frame, env: Env)
    requires XmlNode.IsOrder(env.ord) && env.isClient && h.ver == 0 && Harmless(f)
    ensures ReadOnWire(h, f, env).ver == 0
  {
  }

  // ---- what a spoiled link can come to ----

  /** The client has switched alone, or the next frame for it is in the wrong encoding. */
  predicate Broken(l: LinkState) {
    || (l.client.ver == 1 && l.server.ver == 0)
    || (l.client.active && l.toClient != [] && !Matches(l.client.ver, l.toClient[0]))
  }

  /** What the server has queued or written and the client has not read, in order. */
  function Pipe(l: LinkState): seq<Frame> {
    l.toClient + l.server.queue
  }

  predicate IsQuiet(f: Frame) {
    f.Xml? && !Disrupts(f.ev)
  }

  /** After k frames that do nothing the client meets one that breaks the link. */
  ghost predicate BreaksAfter(l: LinkState, k: nat, env: Env) {
    && l.server.active && l.server.writing && l.client.active && l.client.ver == 0 && l.server.ver in {0, 1}
    && k < |Pipe(l)| && (forall j :: 0 <= j < k ==> IsQuiet(Pipe(l)[j]) && !Stops(Pipe(l)[j], env))
    && if l.server.ver == 0 then Pipe(l)[k].Xml? && Disrupts(Pipe(l)[k].ev) else !Pipe(l)[k].Xml?
  }

  /** The client stops on this event: its message is from a uid that is not allowed. */
  predicate Stops(f: Frame, env: Env) {
    f.Xml? && var m := XmlReadOn(NEW_WIRE, f.ev, env).1; m.Some? && Blacklisted(Stamped(m.value, env), env)
  }

  ghost predicate NoneStops(frames: seq<Frame>, env: Env) {
    forall f <- frames :: !Stops(f, env)
  }

  lemma {:induction false} ReadQuiet(h: Wire, f: Frame, env: Env)
    requires XmlNode.IsOrder(env.ord) && env.isClient && h.active && h.ver == 0 && IsQuiet(f)
    ensures ReadOnWire(h, f, env).ver == 0
    ensures ReadOnWire(h, f, env).active <==> !Stops(f, env)
  {
  }

  lemma {:induction false} ReadDisrupting(h: Wire, f: Frame, env: Env)
    requires XmlNode.IsOrder(env.ord) && env.isClient && h.active && h.ver == 0 && f.Xml? && Disrupts(f.ev)
    ensures ReadOnWire(h, f, env).ver == 1
  {
  }

  lemma {:induction false} ClientReadNears(l: LinkState, e: Envs, k: nat)
    requires Roles(e) && BreaksAfter(l, k, e.client) && l.toClient != [] && k > 0
    ensures BreaksAfter(Next(l, ClientRead, e), k - 1, e.client)
  {
    assert l.toClient[0] == Pipe(l)[0];
    ReadQuiet(l.client, l.toClient[0], e.client);
    assert Pipe(Next(l, ClientRead, e)) == Pipe(l)[1..];
  }

  lemma {:induction false} ClientReadBreaks(l: LinkState, e: Envs)
    requires Roles(e) && BreaksAfter(l, 0, e.client) && l.toClient != [] && !Broken(l)
    ensures Broken(Next(l, ClientRead, e))
  {
    assert l.toClient[0] == Pipe(l)[0];
    ReadDisrupting(l.client, l.toClient[0], e.client);
  }

  lemma {:induction false} PipeWhenWritten(l: LinkState, e: Envs)
    requires Roles(e) && l.server.active && l.server.writing && l.server.queue != []
    ensures var l' := Next(l, ServerWrite(true), e);
            && Pipe(l') == Pipe(l) && l'.client == l.client && l'.server.queue == l.server.queue[1..]
            && l'.server.active && l'.server.writing && l'.server.ver == l.server.ver
  {
    var l' := Next(l, ServerWrite(true), e);
    assert l'.server.written == l.server.written + [l.server.queue[0]];
    assert Sent(l.server, l'.server) == [l.server.queue[0]];
  }

  lemma {:induction false} ServerWriteNears(l: LinkState, e: Envs, k: nat)
    requires Roles(e) && BreaksAfter(l, k, e.client) && l.toClient == []
    ensures BreaksAfter(Next(l, ServerWrite(true), e), k, e.client)
    ensures |Next(l, ServerWrite(true), e).server.queue| < |l.server.queue|
  {
    PipeWhenWritten(l, e);
  }

  /** The run from `l` by these moves, none of which spoils the link, ends broken. */
  ghost predicate BreaksBy(states: seq<LinkState>, moves: seq<Move>, e: Envs, l: LinkState)
    requires Roles(e)
  {
    && Continues(states, moves, e) && states[0] == l && Unspoiled(states, moves, e, |moves|)
    && Broken(states[|moves|])
  }

  ghost predicate CanBreak(l: LinkState, e: Envs)
    requires Roles(e)
  {
    exists states, moves :: BreaksBy(states, moves, e, l)
  }

  lemma {:induction false} BreaksSooner(states: seq<LinkState>, moves: seq<Move>, e: Envs, l: LinkState, m: Move)
    requires Roles(e) && BreaksBy(states, moves, e, Next(l, m, e)) && !Spoils(l, m, e)
    ensures BreaksBy([l] + states, [m] + moves, e, l)
  {
    var states', moves' := [l] + states, [m] + moves;
    forall i | 0 <= i < |moves'|
      ensures states'[i + 1] == Next(states'[i], moves'[i], e) && !Spoils(states'[i], moves'[i], e)
    {
      if i > 0 {
        assert Follows(states, moves, e, i - 1);
      }
    }
  }

  lemma {:induction false} ReachesBreak(l: LinkState, e: Envs, k: nat)
    returns (states: seq<LinkState>, moves: seq<Move>)
    requires Roles(e) && BreaksAfter(l, k, e.client)
    ensures BreaksBy(states, moves, e, l)
    decreases k, |l.server.queue|
  {
    if Broken(l) {
      states, moves := [l], [];
    } else if l.toClient == [] {
      ServerWriteNears(l, e, k);
      states, moves := ReachesBreak(Next(l, ServerWrite(true), e), e, k);
      BreaksSooner(states, moves, e, l, ServerWrite(true));
      states, moves := [l] + states, [ServerWrite(true)] + moves;
    } else {
      var next := Next(l, ClientRead, e);
      if k == 0 {
        ClientReadBreaks(l, e);
        states, moves := [next], [];
      } else {
        ClientReadNears(l, e, k);
        states, moves := ReachesBreak(next, e, k - 1);
      }
      BreaksSooner(states, moves, e, l, ClientRead);
      states, moves := [l] + states, [ClientRead] + moves;
    }
  }

  /** As long as the server has not switched, all that it has under way is quiet. */
  lemma {:induction false} PipeIsQuiet(l: LinkState)
    requires Negotiated(l) && l.server.ver == 0
    ensures l.client.ver == 0 && forall f <- Pipe(l) :: IsQuiet(f)
  {
    var frames := l.server.accepted;
    var rest := l.toClient + l.server.failed + l.server.queue;
    assert frames == l.clientReads + rest;
    AfterPrefix(0, l.clientReads, rest);
    AfterIsVersion(l.clientReads);
    var k := SplitAtResponse(frames);
    forall f | f in Pipe(l) ensures IsQuiet(f) {
      assert f in rest;
      var i :| 0 <= i < |rest| && rest[i] == f;
      assert frames[|l.clientReads| + i] == f;
    }
  }

  lemma {:induction false} StraySendBreaks(l: LinkState, event: CotEvent, e: Envs)
    returns (states: seq<LinkState>, moves: seq<Move>)
    requires Roles(e) && Negotiated(l) && Spoils(l, ServerSend(event), e)
    requires l.server.writing && l.client.active && NoneStops(Pipe(l), e.client)
    ensures BreaksBy(states, moves, e, Next(l, ServerSend(event), e))
  {
    var l' := Next(l, ServerSend(event), e);
    var bad := Xml(EventSpec(event, e.server.ord));
    PipeIsQuiet(l);
    assert l'.server.queue == l.server.queue + [bad];
    assert Pipe(l') == Pipe(l) + [bad];
    forall j | 0 <= j < |Pipe(l)| ensures IsQuiet(Pipe(l')[j]) && !Stops(Pipe(l')[j], e.client) {
      assert Pipe(l')[j] == Pipe(l)[j] && Pipe(l)[j] in Pipe(l);
    }
    states, moves := ReachesBreak(l', e, |Pipe(l)|);
  }

  lemma {:induction false} DroppedAnswerBreaks(l: LinkState, breaks: bool, e: Envs)
    returns (states: seq<LinkState>, moves: seq<Move>)
    requires Roles(e) && Negotiated(l) && Spoils(l, ServerRead(breaks), e)
    requires l.server.writing && l.client.active && NoneStops(Pipe(l), e.client)
    ensures BreaksBy(states, moves, e, Next(l, ServerRead(breaks), e))
  {
    var l1 := Next(l, ServerRead(breaks), e);
    PipeIsQuiet(l);
    assert l1.server.ver == 1 && l1.server.active && l1.server.writing && l1.server.queue == l.server.queue;
    var l2 := Next(l1, ServerWrite(true), e);
    var event := MakePong(0);
    var l3 := Next(l2, ServerSend(event), e);
    QuietThenProto(l1, event, e);
    states, moves := ReachesBreak(l3, e, |Pipe(l1)|);
    BreaksSooner(states, moves, e, l2, ServerSend(event));
    states, moves := [l2] + states, [ServerSend(event)] + moves;
    BreaksSooner(states, moves, e, l1, ServerWrite(true));
    states, moves := [l1] + states, [ServerWrite(true)] + moves;
  }

  lemma {:induction false} QuietThenProto(l: LinkState, event: CotEvent, e: Envs)
    requires Roles(e) && l.server.ver == 1 && l.client.ver == 0 && l.server.active && l.server.writing
             && l.client.active
    requires |l.server.queue| == QUEUE_SIZE && (forall f <- Pipe(l) :: IsQuiet(f))
    requires NoneStops(Pipe(l), e.client)
    ensures BreaksAfter(Next(Next(l, ServerWrite(true), e), ServerSend(event), e), |Pipe(l)|, e.client)
  {
    var l2 := Next(l, ServerWrite(true), e);
    var l3 := Next(l2, ServerSend(event), e);
    PipeWhenWritten(l, e);
    assert l3.server.queue == l2.server.queue + [Proto(event)];
    assert Pipe(l3) == Pipe(l) + [Proto(event)];
    forall j | 0 <= j < |Pipe(l)| ensures IsQuiet(Pipe(l3)[j]) && !Stops(Pipe(l3)[j], e.client) {
      assert Pipe(l3)[j] == Pipe(l)[j] && Pipe(l)[j] in Pipe(l);
    }
  }

  /** An active server has a running writer. */
  lemma {:induction false} ActiveWrites(states: seq<LinkState>, moves: seq<Move>, e: Envs, i: nat)
    requires Roles(e) && IsRun(states, moves, e) && i < |states|
    ensures states[i].server.active ==> states[i].server.writing
  {
    if i > 0 {
      ActiveWrites(states, moves, e, i - 1);
      assert Follows(states, moves, e, i - 1);
      KeepsWriting(states[i - 1], moves[i - 1], e);
    }
  }

  lemma {:induction false} KeepsWriting(l: LinkState, m: Move, e: Envs)
    requires Roles(e) && (l.server.active ==> l.server.writing)
    ensures Next(l, m, e).server.active ==> Next(l, m, e).server.writing
  {
    if m.ServerRead? && l.toServer != [] {
      ReadKeepsWriting(l.server, l.toServer[0], e.server);
    }
  }

  lemma {:induction false} ReadKeepsWriting(h: Wire, f: Frame, env: Env)
    requires XmlNode.IsOrder(env.ord)
    ensures ReadOnWire(h, f, env).writing == h.writing && (ReadOnWire(h, f, env).active ==> h.active)
  {
    var m := MessageOf(h, f, env);
    assert FrameReadOn(h, f, env).0.writing == h.writing;
    if m.Some? {
      MessageKeepsWriting(FrameReadOn(h, f, env).0, m.value, env);
    }
  }

  lemma {:induction false} MessageKeepsWriting(h: Wire, msg: CotMessage, env: Env)
    requires XmlNode.IsOrder(env.ord)
    ensures MessageOnWire(h, msg, env).writing == h.writing && (MessageOnWire(h, msg, env).active ==> h.active)
  {
  }

  /** From a link that no unspoiled run has broken, unspoiled moves break nothing. */
  lemma {:induction false} NegotiatedNeverBreaks(states: seq<LinkState>, moves: seq<Move>, e: Envs, i: nat)
    requires Roles(e) && Continues(states, moves, e) && i < |states| && Negotiated(states[0])
    requires Unspoiled(states, moves, e, |moves|)
    ensures Negotiated(states[i]) && !Broken(states[i])
  {
    if i > 0 {
      NegotiatedNeverBreaks(states, moves, e, i - 1);
      assert Follows(states, moves, e, i - 1);
      MoveKeepsExactlyWhen(states[i - 1], moves[i - 1], e);
    }
    NegotiatedIsNotBroken(states[i]);
  }

  lemma {:induction false} NegotiatedIsNotBroken(l: LinkState)
    requires Negotiated(l)
    ensures !Broken(l)
  {
    AfterIsVersion(l.server.accepted);
    if l.server.ver == 0 {
      PipeIsQuiet(l);
    }
    if l.toClient != [] {
      HeadIsReadable(l);
    }
  }

  lemma {:induction false} NegotiatedCannotBreak(l: LinkState, e: Envs)
    requires Roles(e) && Negotiated(l)
    ensures !CanBreak(l, e)
  {
    forall states, moves | BreaksBy(states, moves, e, l) ensures false {
      NegotiatedNeverBreaks(states, moves, e, |moves|);
    }
  }

  // ---- when nothing can break any more ----

  /** A client at version 0 that reads these stops on one, or is through with them when
      no more can come; none before that does anything to it. */
  predicate Held(frames: seq<Frame>, closed: bool, env: Env) {
    if frames == [] then closed
    else IsQuiet(frames[0]) && (Stops(frames[0], env) || Held(frames[1..], closed, env))
  }

  lemma {:induction false} HeldMore(a: seq<Frame>, b: seq<Frame>, closed: bool, env: Env)
    requires Held(a, false, env)
    ensures Held(a + b, closed, env)
  {
    assert (a + b)[1..] == a[1..] + b;
    if !Stops(a[0], env) {
      HeldMore(a[1..], b, closed, env);
    }
  }

  lemma {:induction false} HeldLess(a: seq<Frame>, b: seq<Frame>, closed: bool, env: Env)
    requires Held(a + b, closed, env)
    ensures Held(a, true, env)
  {
    if a != [] {
      assert (a + b)[1..] == a[1..] + b;
      if !Stops(a[0], env) {
        HeldLess(a[1..], b, closed, env);
      }
    }
  }

  lemma {:induction false} HeldBy(frames: seq<Frame>, env: Env)
    requires (forall f <- frames :: IsQuiet(f)) && !NoneStops(frames, env)
    ensures Held(frames, false, env)
  {
    if !Stops(frames[0], env) {
      assert forall f <- frames :: f == frames[0] || f in frames[1..];
      HeldBy(frames[1..], env);
    }
  }

  /** What can still reach the client. */
  function Coming(l: LinkState): seq<Frame> {
    if l.server.active then Pipe(l) else l.toClient
  }

  ghost predicate Safe(l: LinkState, e: Envs) {
    l.client.ver == 0 && (l.client.active ==> Held(Coming(l), !l.server.active, e.client))
  }

  lemma {:induction false} SafeIsNotBroken(l: LinkState, e: Envs)
    requires Safe(l, e)
    ensures !Broken(l)
  {
    if l.client.active && l.toClient != [] {
      assert Coming(l)[0] == l.toClient[0];
    }
  }

  lemma {:induction false} QueueGrows(h: Wire, f: Frame, env: Env)
    requires XmlNode.IsOrder(env.ord)
    ensures h.queue <= ReadOnWire(h, f, env).queue && (ReadOnWire(h, f, env).active ==> h.active)
  {
    var w, m := FrameReadOn(h, f, env).0, MessageOf(h, f, env);
    FrameQueueGrows(h, f, env);
    if m.Some? {
      MessageQueueGrows(w, m.value, env);
    }
  }

  lemma {:induction false} FrameQueueGrows(h: Wire, f: Frame, env: Env)
    ensures h.queue <= FrameReadOn(h, f, env).0.queue && (FrameReadOn(h, f, env).0.active ==> h.active)
  {
  }

  lemma {:induction false} MessageQueueGrows(h: Wire, msg: CotMessage, env: Env)
    requires XmlNode.IsOrder(env.ord)
    ensures h.queue <= MessageOnWire(h, msg, env).queue && (MessageOnWire(h, msg, env).active ==> h.active)
  {
  }

  /** A server that queues more, or stops, leaves a safe link safe. */
  lemma {:induction false} SafeWhenServerGrows(l: LinkState, l': LinkState, e: Envs)
    requires Safe(l, e) && l'.client == l.client && l'.toClient == l.toClient
    requires l.server.queue <= l'.server.queue && (l'.server.active ==> l.server.active)
    ensures Safe(l', e)
  {
    if l.client.active && l.server.active {
      if l'.server.active {
        ComingGrows(l, l');
        HeldMore(Coming(l), l'.server.queue[|l.server.queue|..], false, e.client);
      } else {
        HeldLess(l.toClient, l.server.queue, false, e.client);
      }
    }
  }

  lemma {:induction false} ComingGrows(l: LinkState, l': LinkState)
    requires l'.toClient == l.toClient && l.server.active && l'.server.active && l.server.queue <= l'.server.queue
    ensures Coming(l') == Coming(l) + l'.server.queue[|l.server.queue|..]
  {
  }

  lemma {:induction false} ComingWhenWritten(l: LinkState, ok: bool, e: Envs)
    requires Roles(e)
    ensures var l' := Next(l, ServerWrite(ok), e);
            if l'.server.active then l.server.active && Coming(l') == Coming(l) else Coming(l') == l.toClient
  {
    if ok && l.server.active && l.server.writing && l.server.queue != [] {
      PipeWhenWritten(l, e);
    } else {
      assert Sent(l.server, WriteOn(l.server, ok)) == [] && l.toClient + [] == l.toClient;
    }
  }

  lemma {:induction false} SafeWhenServerWrites(l: LinkState, ok: bool, e: Envs)
    requires Roles(e) && Safe(l, e)
    ensures Safe(Next(l, ServerWrite(ok), e), e)
  {
    ComingWhenWritten(l, ok, e);
    if l.client.active && l.server.active {
      HeldLess(l.toClient, l.server.queue, false, e.client);
    }
  }

  lemma {:induction false} SafeWhenClientReads(l: LinkState, e: Envs)
    requires Roles(e) && Safe(l, e)
    ensures Safe(Next(l, ClientRead, e), e)
  {
    if l.client.active && l.toClient != [] {
      ComingWhenRead(l, e);
      ReadQuiet(l.client, l.toClient[0], e.client);
    }
  }

  lemma {:induction false} ComingWhenRead(l: LinkState, e: Envs)
    requires Roles(e) && l.client.active && l.toClient != []
    ensures Coming(l) != [] && Coming(l)[0] == l.toClient[0] && Coming(Next(l, ClientRead, e)) == Coming(l)[1..]
  {
  }

  lemma {:induction false} StaysSafe(l: LinkState, m: Move, e: Envs)
    requires Roles(e) && Safe(l, e)
    ensures Safe(Next(l, m, e), e)
  {
    match m
    case ServerWrite(ok) => SafeWhenServerWrites(l, ok, e);
    case ClientRead => SafeWhenClientReads(l, e);
    case ServerRead(_) =>
      if l.toServer != [] {
        QueueGrows(l.server, l.toServer[0], e.server);
      }
      SafeWhenServerGrows(l, Next(l, m, e), e);
    case ServerOffer => SafeWhenServerGrows(l, Next(l, m, e), e);
    case ServerSend(_) => SafeWhenServerGrows(l, Next(l, m, e), e);
    case ServerStop => SafeWhenServerGrows(l, Next(l, m, e), e);
    case ClientSend(_) =>
    case ClientWrite(_) =>
    case ClientStop =>
  }

  lemma {:induction false} SafeForEver(states: seq<LinkState>, moves: seq<Move>, e: Envs, i: nat)
    requires Roles(e) && Continues(states, moves, e) && i < |states| && Safe(states[0], e)
    ensures Safe(states[i], e)
  {
    if i > 0 {
      SafeForEver(states, moves, e, i - 1);
      assert Follows(states, moves, e, i - 1);
      StaysSafe(states[i - 1], moves[i - 1], e);
    }
  }

  lemma {:induction false} SafeCannotBreak(l: LinkState, e: Envs)
    requires Roles(e) && Safe(l, e)
    ensures !CanBreak(l, e)
  {
    forall states, moves | BreaksBy(states, moves, e, l) ensures false {
      SafeForEver(states, moves, e, |moves|);
      SafeIsNotBroken(states[|moves|], e);
    }
  }

  /** A link that is spoiled when the client has stopped, or is going to, is safe. */
  lemma {:induction false} SpoiledButSafe(l: LinkState, m: Move, e: Envs)
    requires Roles(e) && Negotiated(l) && Spoils(l, m, e)
    requires !l.client.active || !NoneStops(Pipe(l), e.client)
    ensures Safe(Next(l, m, e), e)
  {
    PipeIsQuiet(l);
    if l.client.active {
      HeldBy(Pipe(l), e.client);
    }
    if m.ServerRead? {
      QueueGrows(l.server, l.toServer[0], e.server);
    }
    SafeWhenServerGrows(l, Next(l, m, e), e);
  }

  /** After a move of an unspoiled run, unspoiled moves can bring the client to a version
      or a frame that does not fit exactly if that move spoiled the link, and the client
      is running and will not be stopped by a frame that was already under way. */
  lemma {:induction false} CanBreakExactlyWhen(states: seq<LinkState>, moves: seq<Move>, e: Envs, i: nat)
    requires Roles(e) && IsRun(states, moves, e) && i < |moves| && Unspoiled(states, moves, e, i)
    ensures CanBreak(states[i + 1], e)
       <==> && Spoils(states[i], moves[i], e)
            && states[i].client.active && NoneStops(Pipe(states[i]), e.client)
  {
    var l, m := states[i], moves[i];
    UnspoiledNegotiated(states, moves, e, i);
    assert Follows(states, moves, e, i);
    ActiveWrites(states, moves, e, i);
    if !Spoils(l, m, e) {
      MoveKeepsExactlyWhen(l, m, e);
      NegotiatedCannotBreak(states[i + 1], e);
    } else if !l.client.active || !NoneStops(Pipe(l), e.client) {
      SpoiledButSafe(l, m, e);
      SafeCannotBreak(states[i + 1], e);
    } else {
      SpoiledBreaks(l, m, e);
    }
  }

  lemma {:induction false} SpoiledBreaks(l: LinkState, m: Move, e: Envs)
    requires Roles(e) && Negotiated(l) && Spoils(l, m, e)
    requires l.server.writing && l.client.active && NoneStops(Pipe(l), e.client)
    ensures CanBreak(Next(l, m, e), e)
  {
    if m.ServerSend? {
      var rest, more := StraySendBreaks(l, m.event, e);
    } else {
      var rest, more := DroppedAnswerBreaks(l, m.breaks, e);
    }
  }
}

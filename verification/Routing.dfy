/** Live routing of messages to the connected handlers (cmd/goatak_server/main.go). */
module Routing {
  import opened Wrappers
  import opened XmlNode
  import opened CotMessages
  import Converter
  import opened ClientHandler

  /** A handler as routing sees it: its contacts, its device and the messages that
      passed the scope check of its SendMsg. */
  datatype Peer = Peer(uids: map<string, string>, device: Option<Device>, offered: seq<CotMessage>)

  predicate Sees(p: Peer, msg: CotMessage) {
    IsLocal(msg) || CanSeeScope(p.device, msg.scope)
  }

  predicate HasCallsign(p: Peer, callsign: string) {
    exists uid <- p.uids :: p.uids[uid] == callsign
  }

  predicate HasUid(p: Peer, uid: string) {
    uid in p.uids
  }

  function Offered(p: Peer, msg: CotMessage): Peer {
    if Sees(p, msg) then p.(offered := p.offered + [msg]) else p
  }

  function Missions(msg: CotMessage): seq<string> {
    GetDestFor(msg.detail, "mission")
  }

  function Callsigns(msg: CotMessage): seq<string> {
    GetDestFor(msg.detail, "callsign")
  }

  function Uids(msg: CotMessage): seq<string> {
    GetDestFor(msg.detail, "uid")
  }

  // ---- how many copies ----

  function CallsignHits(p: Peer, dests: seq<string>): nat {
    if dests == [] then 0 else (if HasCallsign(p, dests[0]) then 1 else 0) + CallsignHits(p, dests[1..])
  }

  function UidHits(p: Peer, dests: seq<string>): nat {
    if dests == [] then 0 else (if HasUid(p, dests[0]) then 1 else 0) + UidHits(p, dests[1..])
  }

  /** The number of copies of a message that live routing offers to a handler. */
  function Copies(p: Peer, name: string, msg: CotMessage): nat {
    if !Sees(p, msg) || Missions(msg) != [] then 0
    else if Callsigns(msg) != [] then CallsignHits(p, Callsigns(msg))
    else if Uids(msg) != [] then UidHits(p, Uids(msg))
    else if name != msg.from then 1
    else 0
  }

  function Repeated(msg: CotMessage, k: nat): (r: seq<CotMessage>)
    ensures |r| == k && forall m <- r :: m == msg
  {
    if k == 0 then [] else [msg] + Repeated(msg, k - 1)
  }

  // ---- the handlers after a message is routed ----

  function SentTo(hs: map<string, Peer>, chosen: set<string>, msg: CotMessage): map<string, Peer> {
    map n | n in hs :: if n in chosen then Offered(hs[n], msg) else hs[n]
  }

  function WithCallsign(hs: map<string, Peer>, callsign: string): set<string> {
    set n | n in hs && HasCallsign(hs[n], callsign)
  }

  function WithUid(hs: map<string, Peer>, uid: string): set<string> {
    set n | n in hs && HasUid(hs[n], uid)
  }

  function SentToCallsigns(hs: map<string, Peer>, dest: seq<string>, msg: CotMessage): map<string, Peer> {
    if dest == [] then hs else SentToCallsigns(SentTo(hs, WithCallsign(hs, dest[0]), msg), dest[1..], msg)
  }

  function SentToUids(hs: map<string, Peer>, dest: seq<string>, msg: CotMessage): map<string, Peer> {
    if dest == [] then hs else SentToUids(SentTo(hs, WithUid(hs, dest[0]), msg), dest[1..], msg)
  }

  function Routed(hs: map<string, Peer>, msg: CotMessage): map<string, Peer> {
    if Missions(msg) != [] then hs
    else if Callsigns(msg) != [] then SentToCallsigns(hs, Callsigns(msg), msg)
    else if Uids(msg) != [] then SentToUids(hs, Uids(msg), msg)
    else SentTo(hs, hs.Keys - {msg.from}, msg)
  }

  /** The application's handlers and its message channel. */
  class Router {
    var handlers: map<string, Peer>
    var ch: seq<CotMessage>
    var generated: seq<CotMessage>

    constructor ()
      ensures handlers == map[] && ch == [] && generated == []
    {
      handlers, ch, generated := map[], [], [];
    }

    /** ForAllClients with SendMsg for the handlers in `chosen`; the order of the map is arbitrary. */
    method SendTo(chosen: set<string>, msg: CotMessage)
      modifies this`handlers
      ensures handlers == SentTo(old(handlers), chosen, msg)
    {
      var todo := handlers.Keys;
      while todo != {}
        invariant todo <= handlers.Keys == old(handlers).Keys
        invariant forall n <- todo :: handlers[n] == old(handlers)[n]
        invariant forall n | n in handlers && n !in todo ::
          handlers[n] == if n in chosen then Offered(old(handlers)[n], msg) else old(handlers)[n]
        decreases |todo|
      {
        var n :| n in todo;
        if n in chosen {
          handlers := handlers[n := Offered(handlers[n], msg)];
        }
        todo := todo - {n};
      }
    }

    method SendBroadcast(msg: CotMessage)
      modifies this`handlers
      ensures handlers == SentTo(old(handlers), old(handlers).Keys - {msg.from}, msg)
    {
      SendTo(handlers.Keys - {msg.from}, msg);
    }

    method SendToCallsign(callsign: string, msg: CotMessage)
      modifies this`handlers
      ensures handlers == SentTo(old(handlers), WithCallsign(old(handlers), callsign), msg)
    {
      SendTo(WithCallsign(handlers, callsign), msg);
    }

    method SendToUid(uid: string, msg: CotMessage)
      modifies this`handlers
      ensures handlers == SentTo(old(handlers), WithUid(old(handlers), uid), msg)
    {
      SendTo(WithUid(handlers, uid), msg);
    }

    /** The part of route for a message without a mission. */
    method Deliver(msg: CotMessage)
      requires Missions(msg) == []
      modifies this`handlers
      ensures handlers == Routed(old(handlers), msg)
    {
      var callsigns, uids := Callsigns(msg), Uids(msg);
      if |callsigns| > 0 {
        SendToCallsignsLoop(callsigns, msg);
      } else if |uids| > 0 {
        SendToUidsLoop(uids, msg);
      } else {
        SendBroadcast(msg);
      }
    }

    method SendToCallsignsLoop(dest: seq<string>, msg: CotMessage)
      modifies this`handlers
      ensures handlers == SentToCallsigns(old(handlers), dest, msg)
    {
      var i := 0;
      while i < |dest|
        invariant 0 <= i <= |dest|
        invariant SentToCallsigns(handlers, dest[i..], msg) == SentToCallsigns(old(handlers), dest, msg)
      {
        assert dest[i..][1..] == dest[i + 1..];
        SendToCallsign(dest[i], msg);
        i := i + 1;
      }
    }

    method SendToUidsLoop(dest: seq<string>, msg: CotMessage)
      modifies this`handlers
      ensures handlers == SentToUids(old(handlers), dest, msg)
    {
      var i := 0;
      while i < |dest|
        invariant 0 <= i <= |dest|
        invariant SentToUids(handlers, dest[i..], msg) == SentToUids(old(handlers), dest, msg)
      {
        assert dest[i..][1..] == dest[i + 1..];
        SendToUid(dest[i], msg);
        i := i + 1;
      }
    }

    /** NewCotMessage: the channel holds 128 messages; what does not fit is dropped. */
    method NewCotMessage(msg: CotMessage)
      modifies this`ch, this`generated
      ensures generated == old(generated) + [msg]
      ensures ch == if |old(ch)| < CHANNEL_SIZE then old(ch) + [msg] else old(ch)
    {
      generated := generated + [msg];
      if |ch| < CHANNEL_SIZE {
        ch := ch + [msg];
      }
    }

    method RemoveClientHandler(name: string)
      modifies this`handlers
      ensures handlers == old(handlers) - {name}
    {
      handlers := handlers - {name};
    }
  }

  const CHANNEL_SIZE: nat := 128

  function WithCopies(p: Peer, msg: CotMessage, k: nat): Peer {
    p.(offered := p.offered + Repeated(msg, k))
  }

  lemma {:induction false} OfferedOnce(p: Peer, msg: CotMessage, k: nat)
    ensures Sees(p, msg) ==> WithCopies(Offered(p, msg), msg, k) == WithCopies(p, msg, k + 1)
    ensures WithCopies(p, msg, 0) == p
    ensures Offered(p, msg).uids == p.uids && Offered(p, msg).device == p.device
  {
    assert p.offered + [msg] + Repeated(msg, k) == p.offered + ([msg] + Repeated(msg, k));
    assert p.offered + [] == p.offered;
  }

  lemma {:induction false} CallsignCopies(hs: map<string, Peer>, dest: seq<string>, msg: CotMessage, n: string)
    requires n in hs
    ensures n in SentToCallsigns(hs, dest, msg)
    ensures SentToCallsigns(hs, dest, msg)[n]
            == WithCopies(hs[n], msg, if Sees(hs[n], msg) then CallsignHits(hs[n], dest) else 0)
    decreases |dest|
  {
    var p := hs[n];
    OfferedOnce(p, msg, 0);
    if dest != [] {
      var hs1 := SentTo(hs, WithCallsign(hs, dest[0]), msg);
      CallsignCopies(hs1, dest[1..], msg, n);
      SameHits(p, hs1[n], dest[1..]);
      OfferedOnce(p, msg, CallsignHits(p, dest[1..]));
    }
  }

  lemma {:induction false} UidCopies(hs: map<string, Peer>, dest: seq<string>, msg: CotMessage, n: string)
    requires n in hs
    ensures n in SentToUids(hs, dest, msg)
    ensures SentToUids(hs, dest, msg)[n] == WithCopies(hs[n], msg, if Sees(hs[n], msg) then UidHits(hs[n], dest) else 0)
    decreases |dest|
  {
    var p := hs[n];
    OfferedOnce(p, msg, 0);
    if dest != [] {
      var hs1 := SentTo(hs, WithUid(hs, dest[0]), msg);
      UidCopies(hs1, dest[1..], msg, n);
      SameHits(p, hs1[n], dest[1..]);
      OfferedOnce(p, msg, UidHits(p, dest[1..]));
    }
  }

  lemma {:induction false} CallsignKeys(hs: map<string, Peer>, dest: seq<string>, msg: CotMessage)
    ensures SentToCallsigns(hs, dest, msg).Keys == hs.Keys
    decreases |dest|
  {
    if dest != [] {
      CallsignKeys(SentTo(hs, WithCallsign(hs, dest[0]), msg), dest[1..], msg);
    }
  }

  lemma {:induction false} UidKeys(hs: map<string, Peer>, dest: seq<string>, msg: CotMessage)
    ensures SentToUids(hs, dest, msg).Keys == hs.Keys
    decreases |dest|
  {
    if dest != [] {
      UidKeys(SentTo(hs, WithUid(hs, dest[0]), msg), dest[1..], msg);
    }
  }

  lemma {:induction false} RoutedKeys(hs: map<string, Peer>, msg: CotMessage)
    ensures Routed(hs, msg).Keys == hs.Keys
  {
    CallsignKeys(hs, Callsigns(msg), msg);
    UidKeys(hs, Uids(msg), msg);
  }

  lemma {:induction false} SameHits(p: Peer, q: Peer, dest: seq<string>)
    requires p.uids == q.uids
    ensures CallsignHits(p, dest) == CallsignHits(q, dest) && UidHits(p, dest) == UidHits(q, dest)
  {
    if dest != [] {
      SameHits(p, q, dest[1..]);
    }
  }

  /** Each handler is offered exactly Copies copies of a routed message: none for
      mission destinations; else one per callsign destination that one of its
      contacts has; else one per uid destination that is one of its contacts; else
      one unless it is the sender; and none at all outside its scopes. */
  lemma {:induction false} RoutedCopies(hs: map<string, Peer>, msg: CotMessage, n: string)
    requires n in hs
    ensures n in Routed(hs, msg)
    ensures Routed(hs, msg)[n] == WithCopies(hs[n], msg, Copies(hs[n], n, msg))
  {
    OfferedOnce(hs[n], msg, 0);
    if Callsigns(msg) != [] {
      CallsignCopies(hs, Callsigns(msg), msg, n);
    } else if Uids(msg) != [] {
      UidCopies(hs, Uids(msg), msg, n);
    }
  }

  lemma {:induction false} CallsignHitsPositive(p: Peer, dest: seq<string>)
    ensures CallsignHits(p, dest) > 0 <==> exists s <- dest :: HasCallsign(p, s)
  {
    if dest != [] {
      CallsignHitsPositive(p, dest[1..]);
      assert forall s :: s in dest <==> s == dest[0] || s in dest[1..];
    }
  }

  lemma {:induction false} UidHitsPositive(p: Peer, dest: seq<string>)
    ensures UidHits(p, dest) > 0 <==> exists s <- dest :: HasUid(p, s)
  {
    if dest != [] {
      UidHitsPositive(p, dest[1..]);
      assert forall s :: s in dest <==> s == dest[0] || s in dest[1..];
    }
  }

  // ---- offline messages ----

  ghost function LinkNodes(uid: string, ord: Order): seq<Node>
    requires IsOrder(ord)
  {
    WithChild([], "link", LinkParams(uid), "", ord)
  }

  /** The parameters of AddPpLink(uid, "", ""). */
  function LinkParams(uid: string): map<string, string> {
    if uid != "" then map["uid" := uid, "relation" := "p-p"] else map["relation" := "p-p"]
  }

  ghost function OfflineEvent(uid: string, ord: Order, now: Time, id: string): CotEvent
    requires IsOrder(ord)
  {
    BasicMsg("t-x-d-d", id, 180 * SECOND, "h-g-i-g-o", now).(
      detail := Some(Detail(XmlText("", LinkNodes(uid, ord)), None, None, None, None, None, None)))
  }

  method MakeOfflineMsg(uid: string, ord: Order, now: Time, id: string) returns (event: CotEvent)
    requires IsOrder(ord)
    ensures event == OfflineEvent(uid, ord, now, id)
  {
    event := BasicMsg("t-x-d-d", id, 180 * SECOND, "h-g-i-g-o", now);
    var xd := new Element("detail", [], "", []);
    xd.AddChild("link", LinkParams(uid), "", ord);
    event := event.(detail := Some(Detail(XmlText("", xd.nodes), None, None, None, None, None, None)));
  }

  ghost function OfflineMsgs(uids: seq<string>, name: string, scope: string, ord: Order, now: Time, id: nat -> string):
    seq<CotMessage>
    requires IsOrder(ord)
  {
    if uids == [] then []
    else OfflineMsgs(uids[..|uids| - 1], name, scope, ord, now, id)
         + [CotMessage(name, scope, OfflineEvent(uids[|uids| - 1], ord, now, id(|uids| - 1)), None)]
  }

  lemma {:induction false} OneMoreOffline(uids: seq<string>, i: nat, name: string, scope: string, ord: Order,
                                          now: Time, id: nat -> string)
    requires IsOrder(ord) && i < |uids|
    ensures OfflineMsgs(uids[..i + 1], name, scope, ord, now, id)
         == OfflineMsgs(uids[..i], name, scope, ord, now, id)
            + [CotMessage(name, scope, OfflineEvent(uids[i], ord, now, id(i)), None)]
  {
    assert uids[..i + 1][..i] == uids[..i];
  }

  /** On a client that reads it, in either encoding, an offline message takes exactly
      its uid out of the contacts. */
  lemma {:induction false} OfflineRemovesUid(uid: string, ord: Order, now: Time, id: string, env: Env)
    requires IsOrder(ord) && IsOrder(env.ord)
    ensures var event := OfflineEvent(uid, ord, now, id);
            && RemovesUid(CotFromProto(event, "", "")) == Some(uid)
            && RemovesUid(Converter.ProtoSpec(Converter.EventSpec(event, env.ord), env.parse)) == Some(uid)
  {
    var nodes := LinkNodes(uid, ord);
    LinkNamesUid(uid, ord);
    FirstWithout(nodes, Converter.TagsToRemove(false), "link");
  }

  lemma {:induction false} LinkNamesUid(uid: string, ord: Order)
    requires IsOrder(ord)
    ensures First(LinkNodes(uid, ord), "link").Some? && GetAttr(First(LinkNodes(uid, ord), "link"), "uid") == uid
    ensures First(LinkNodes(uid, ord), "contact").None?
  {
    NewChildAttr("link", LinkParams(uid), "", ord, "uid");
    assert First(LinkNodes(uid, ord), "link") == Some(LinkNodes(uid, ord)[0]);
  }

  /** After a disconnect live routing offers the offline message of a uid to exactly
      the other handlers that see the scope, once. */
  lemma {:induction false} OfflineIsBroadcast(p: Peer, n: string, name: string, scope: string, uid: string,
                                              ord: Order, now: Time, id: string)
    requires IsOrder(ord)
    ensures var msg := CotMessage(name, scope, OfflineEvent(uid, ord, now, id), None);
            Copies(p, n, msg) == if n != name && Sees(p, msg) then 1 else 0
  {
  }
}

/** Stored chat messages and their replay to new contacts (pkg/chat/storage.go,
    processNewContact in cmd/goatak_server/processors.go). */
module ChatStorage {
  import opened Wrappers
  import opened CotMessages
  import opened Routing

  datatype ChatMessage = ChatMessage(msg: CotMessage, received: int)

  function StaleTime(c: ChatMessage): int {
    TimeFromMillis(c.msg.event.staleTime)
  }

  /** Received since the contact was last seen (or within a day, for a contact never
      seen before), and not stale. */
  predicate Fresh(c: ChatMessage, lastSeen: Option<int>, now: int) {
    c.received >= lastSeen.UnwrapOr(now - DAY) && StaleTime(c) >= now
  }

  /** The addressing test of GetFor. */
  predicate Addressed(msg: CotMessage, uid: string, callsign: string) {
    if Missions(msg) != [] then false
    else if Callsigns(msg) != [] then callsign in Callsigns(msg)
    else if Uids(msg) != [] then uid in Uids(msg)
    else true
  }

  predicate Selected(c: ChatMessage, uid: string, callsign: string, lastSeen: Option<int>, now: int) {
    Fresh(c, lastSeen, now) && Addressed(c.msg, uid, callsign)
  }

  /** Those of the keys whose message passes the tests, in visiting order. */
  function PickedKeys(m: map<string, ChatMessage>, keys: seq<string>, uid: string, callsign: string,
                      lastSeen: Option<int>, now: int): (r: seq<string>)
    requires forall k <- keys :: k in m
    ensures forall k <- r :: k in m
  {
    if keys == [] then []
    else
      var rest, k := PickedKeys(m, keys[..|keys| - 1], uid, callsign, lastSeen, now), keys[|keys| - 1];
      if Selected(m[k], uid, callsign, lastSeen, now) then rest + [k] else rest
  }

  function MsgsOf(m: map<string, ChatMessage>, keys: seq<string>): (r: seq<CotMessage>)
    requires forall k <- keys :: k in m
    ensures |r| == |keys| && forall i :: 0 <= i < |r| ==> r[i] == m[keys[i]].msg
  {
    seq(|keys|, i requires 0 <= i < |keys| => m[keys[i]].msg)
  }

  function Picked(m: map<string, ChatMessage>, keys: seq<string>, uid: string, callsign: string,
                  lastSeen: Option<int>, now: int): seq<CotMessage>
    requires forall k <- keys :: k in m
  {
    MsgsOf(m, PickedKeys(m, keys, uid, callsign, lastSeen, now))
  }

  lemma {:induction false} PickedMore(m: map<string, ChatMessage>, keys: seq<string>, k: string, uid: string,
                                      callsign: string,
                                      lastSeen: Option<int>, now: int)
    requires k in m && forall x <- keys :: x in m
    ensures forall x <- keys + [k] :: x in m
    ensures Picked(m, keys + [k], uid, callsign, lastSeen, now)
         == if Selected(m[k], uid, callsign, lastSeen, now)
             then Picked(m, keys, uid, callsign, lastSeen, now) + [m[k].msg]
            else Picked(m, keys, uid, callsign, lastSeen, now)
  {
    assert (keys + [k])[..|keys|] == keys;
  }

  /** keys lists the set s, each element once. */
  ghost predicate Enumerates(keys: seq<string>, s: set<string>)
    decreases |keys|
  {
    if keys == [] then s == {}
    else
      var k := keys[|keys| - 1];
      k in s && Enumerates(keys[..|keys| - 1], s - {k})
  }

  lemma {:induction false} EnumeratesMore(keys: seq<string>, s: set<string>, k: string)
    requires Enumerates(keys, s) && k !in s
    ensures Enumerates(keys + [k], s + {k})
  {
    assert (keys + [k])[..|keys|] == keys;
    assert s + {k} - {k} == s;
  }

  lemma {:induction false} EnumeratesIn(keys: seq<string>, s: set<string>)
    requires Enumerates(keys, s)
    ensures forall k :: k in keys <==> k in s
    decreases |keys|
  {
    if keys != [] {
      var k := keys[|keys| - 1];
      EnumeratesIn(keys[..|keys| - 1], s - {k});
      assert keys == keys[..|keys| - 1] + [k];
    }
  }

  class Storage {
    var msg: map<string, ChatMessage>

    constructor ()
      ensures msg == map[]
    {
      msg := map[];
    }

    /** A later message with the same uid replaces an earlier one. */
    method Add(c: ChatMessage)
      modifies this
      ensures msg == old(msg)[c.msg.event.uid := c]
    {
      msg := msg[c.msg.event.uid := c];
    }

    /** Every message is filed under its own uid. */
    ghost predicate Filed()
      reads this
    {
      forall k <- msg :: msg[k].msg.event.uid == k
    }

    /** One pass of the cleaner: exactly the stale messages go. */
    method Clean(now: int)
      requires Filed()
      modifies this
      ensures Filed()
      ensures msg == map k | k in old(msg) && StaleTime(old(msg)[k]) >= now :: old(msg)[k]
    {
      var todo := msg.Keys;
      while todo != {}
        invariant Filed() && todo <= msg.Keys
        invariant forall k :: k in msg <==> k in old(msg) && (k in todo || StaleTime(old(msg)[k]) >= now)
        invariant forall k <- msg :: msg[k] == old(msg)[k]
        decreases |todo|
      {
        var k :| k in todo;
        var c := msg[k];
        if StaleTime(c) < now {
          msg := msg - {c.msg.event.uid};
        }
        todo := todo - {k};
      }
    }

    method GetFor(uid: string, callsign: string, lastSeen: Option<int>, now: int)
      returns (res: seq<CotMessage>, ghost visited: seq<string>)
      ensures Enumerates(visited, msg.Keys) && forall k <- visited :: k in msg
      ensures res == Picked(msg, visited, uid, callsign, lastSeen, now)
      ensures forall x :: x in res
                          <==> exists k :: k in msg && Selected(msg[k], uid, callsign, lastSeen, now) && msg[k].msg == x
    {
      res, visited := [], [];
      var t1 := if lastSeen.None? then now - DAY else lastSeen.value;
      var todo := msg.Keys;
      while todo != {}
        invariant todo <= msg.Keys
        invariant Enumerates(visited, msg.Keys - todo) && forall k <- visited :: k in msg
        invariant res == Picked(msg, visited, uid, callsign, lastSeen, now)
        decreases |todo|
      {
        var k :| k in todo;
        var c := msg[k];
        EnumeratesMore(visited, msg.Keys - todo, k);
        assert msg.Keys - todo + {k} == msg.Keys - (todo - {k});
        PickedMore(msg, visited, k, uid, callsign, lastSeen, now);
        visited := visited + [k];
        todo := todo - {k};
        var take := Takes(c, uid, callsign, t1, now);
        if take {
          res := res + [c.msg];
        }
      }
      assert msg.Keys - todo == msg.Keys;
      SelectedReturned(msg, visited, uid, callsign, lastSeen, now);
    }
  }

  /** The tests that GetFor makes on one message. */
  method Takes(c: ChatMessage, uid: string, callsign: string, t1: int, now: int) returns (take: bool)
    ensures take == (c.received >= t1 && StaleTime(c) >= now && Addressed(c.msg, uid, callsign))
  {
    if c.received < t1 || StaleTime(c) < now { return false; }
    if |Missions(c.msg)| > 0 { return false; }
    if |Callsigns(c.msg)| > 0 { return callsign in Callsigns(c.msg); }
    if |Uids(c.msg)| > 0 { return uid in Uids(c.msg); }
    return true;
  }

  function SelectedKeys(m: map<string, ChatMessage>, s: set<string>, uid: string, callsign: string,
                        lastSeen: Option<int>, now: int): set<string>
    requires s <= m.Keys
  {
    set k | k in s && Selected(m[k], uid, callsign, lastSeen, now)
  }

  /** GetFor returns each selected message once, whatever the visiting order. */
  lemma {:induction false} PickedExactly(m: map<string, ChatMessage>, keys: seq<string>, s: set<string>, uid: string,
                                         callsign: string,
                                         lastSeen: Option<int>, now: int)
    requires Enumerates(keys, s) && s <= m.Keys
    ensures forall k <- keys :: k in m
    ensures Enumerates(PickedKeys(m, keys, uid, callsign, lastSeen, now),
                       SelectedKeys(m, s, uid, callsign, lastSeen, now))
    decreases |keys|
  {
    EnumeratesIn(keys, s);
    if keys != [] {
      var init, last := keys[..|keys| - 1], keys[|keys| - 1];
      PickedExactly(m, init, s - {last}, uid, callsign, lastSeen, now);
      var before := SelectedKeys(m, s - {last}, uid, callsign, lastSeen, now);
      var all := SelectedKeys(m, s, uid, callsign, lastSeen, now);
      assert all == if Selected(m[last], uid, callsign, lastSeen, now) then before + {last} else before;
      if Selected(m[last], uid, callsign, lastSeen, now) {
        EnumeratesMore(PickedKeys(m, init, uid, callsign, lastSeen, now), before, last);
      }
    }
  }

  /** Exactly the selected messages are returned. */
  lemma {:induction false} SelectedReturned(m: map<string, ChatMessage>, keys: seq<string>, uid: string,
                                            callsign: string,
                                            lastSeen: Option<int>, now: int)
    requires Enumerates(keys, m.Keys) && forall k <- keys :: k in m
    ensures forall x :: x in Picked(m, keys, uid, callsign, lastSeen, now)
                        <==> exists k :: k in m && Selected(m[k], uid, callsign, lastSeen, now) && m[k].msg == x
  {
    var picked := PickedKeys(m, keys, uid, callsign, lastSeen, now);
    PickedExactly(m, keys, m.Keys, uid, callsign, lastSeen, now);
    EnumeratesIn(picked, SelectedKeys(m, m.Keys, uid, callsign, lastSeen, now));
    forall x | x in MsgsOf(m, picked)
      ensures exists k :: k in m && Selected(m[k], uid, callsign, lastSeen, now) && m[k].msg == x
    {
      var i :| 0 <= i < |picked| && m[picked[i]].msg == x;
      assert picked[i] in picked;
    }
    forall k | k in m && Selected(m[k], uid, callsign, lastSeen, now) ensures m[k].msg in MsgsOf(m, picked) {
      assert k in SelectedKeys(m, m.Keys, uid, callsign, lastSeen, now);
      var i :| 0 <= i < |picked| && picked[i] == k;
      assert MsgsOf(m, picked)[i] == m[k].msg;
    }
  }

  // ---- the two implementations of "who should get this message" ----

  /** For a handler whose only contact is the item, replay and live routing address
      the same messages, except that replay also addresses a sender's own messages
      without destinations. */
  lemma {:induction false} ReplayMatchesLive(p: Peer, name: string, msg: CotMessage, uid: string, callsign: string)
    requires p.uids == map[uid := callsign] && Sees(p, msg)
    ensures (Addressed(msg, uid, callsign) <==> Copies(p, name, msg) > 0)
       <==> (name != msg.from || Missions(msg) != [] || Callsigns(msg) != [] || Uids(msg) != [])
  {
    assert forall s :: HasCallsign(p, s) <==> s == callsign by {
      assert p.uids[uid] == callsign;
    }
    CallsignHitsPositive(p, Callsigns(msg));
    UidHitsPositive(p, Uids(msg));
  }

  /** A contact never seen before is greeted, if its scope has a welcome message. */
  function Greeting(lastSeen: Option<int>, welcome: Option<CotMessage>): seq<CotMessage> {
    if lastSeen.None? && welcome.Some? then [welcome.value] else []
  }

  /** processNewContact: the greeting and the selected messages are sent to the handlers
      that have the item's uid, each once and in the same order. */
  method Replay(app: Router, storage: Storage, uid: string, callsign: string, lastSeen: Option<int>,
                welcome: Option<CotMessage>, now: int)
    returns (msgs: seq<CotMessage>, ghost visited: seq<string>)
    modifies app`handlers
    ensures Enumerates(visited, storage.msg.Keys) && forall k <- visited :: k in storage.msg
    ensures msgs == Picked(storage.msg, visited, uid, callsign, lastSeen, now)
    ensures app.handlers == Replayed(old(app.handlers), Greeting(lastSeen, welcome) + msgs, uid)
  {
    if lastSeen.None? && welcome.Some? {
      app.SendToUid(uid, welcome.value);
    }
    msgs, visited := storage.GetFor(uid, callsign, lastSeen, now);
    GreetedFirst(old(app.handlers), Greeting(lastSeen, welcome), msgs, uid);
    SendAll(app, msgs, uid);
  }

  method SendAll(app: Router, msgs: seq<CotMessage>, uid: string)
    modifies app`handlers
    ensures app.handlers == Replayed(old(app.handlers), msgs, uid)
  {
    var i := 0;
    while i < |msgs|
      invariant 0 <= i <= |msgs|
      invariant Replayed(app.handlers, msgs[i..], uid) == Replayed(old(app.handlers), msgs, uid)
    {
      assert msgs[i..][1..] == msgs[i + 1..];
      app.SendToUid(uid, msgs[i]);
      i := i + 1;
    }
  }

  lemma {:induction false} GreetedFirst(hs: map<string, Peer>, greeting: seq<CotMessage>, msgs: seq<CotMessage>,
                                        uid: string)
    requires |greeting| <= 1
    ensures Replayed(hs, greeting + msgs, uid)
         == Replayed(if greeting == [] then hs else SentTo(hs, WithUid(hs, uid), greeting[0]), msgs, uid)
  {
    if greeting == [] {
      assert greeting + msgs == msgs;
    } else {
      assert (greeting + msgs)[1..] == msgs;
    }
  }

  function Replayed(hs: map<string, Peer>, msgs: seq<CotMessage>, uid: string): map<string, Peer> {
    if msgs == [] then hs else Replayed(SentTo(hs, WithUid(hs, uid), msgs[0]), msgs[1..], uid)
  }

  function Visible(p: Peer, msgs: seq<CotMessage>): seq<CotMessage> {
    if msgs == [] then []
    else if Sees(p, msgs[0]) then [msgs[0]] + Visible(p, msgs[1..])
    else Visible(p, msgs[1..])
  }

  lemma {:induction false} VisibleSame(p: Peer, q: Peer, msgs: seq<CotMessage>)
    requires p.device == q.device
    ensures Visible(p, msgs) == Visible(q, msgs)
  {
    if msgs != [] {
      VisibleSame(p, q, msgs[1..]);
    }
  }

  lemma {:induction false} ReplayedTo(hs: map<string, Peer>, msgs: seq<CotMessage>, uid: string, n: string)
    requires n in hs
    ensures n in Replayed(hs, msgs, uid)
    ensures Replayed(hs, msgs, uid)[n] ==
            if HasUid(hs[n], uid) then hs[n].(offered := hs[n].offered + Visible(hs[n], msgs)) else hs[n]
    decreases |msgs|
  {
    var p := hs[n];
    assert p.offered + [] == p.offered;
    if msgs != [] {
      var hs1 := SentTo(hs, WithUid(hs, uid), msgs[0]);
      ReplayedTo(hs1, msgs[1..], uid, n);
      VisibleSame(p, hs1[n], msgs[1..]);
      assert p.offered + [msgs[0]] + Visible(p, msgs[1..]) == p.offered + ([msgs[0]] + Visible(p, msgs[1..]));
    }
  }

  lemma {:induction false} VisibleHas(p: Peer, msgs: seq<CotMessage>, x: CotMessage)
    ensures x in Visible(p, msgs) <==> x in msgs && Sees(p, x)
  {
    if msgs != [] {
      VisibleHas(p, msgs[1..], x);
    }
  }

  /** A new contact on its own connection is replayed a stored chat message of
      somebody else exactly if the message is fresh and live routing would have
      offered it to that connection. */
  lemma {:induction false} ReplayIsLateRouting(hs: map<string, Peer>, stored: map<string, ChatMessage>,
                                               keys: seq<string>,
                                               n: string, uid: string, callsign: string, lastSeen: Option<int>,
                                               now: int, k: string)
    requires n in hs && hs[n].uids == map[uid := callsign]
    requires Enumerates(keys, stored.Keys) && forall x <- keys :: x in stored
    requires (forall x <- stored :: stored[x].msg.event.uid == x) && k in stored && stored[k].msg.from != n
    ensures var got := Replayed(hs, Picked(stored, keys, uid, callsign, lastSeen, now), uid);
            && n in got && hs[n].offered <= got[n].offered
            && (stored[k].msg in got[n].offered[|hs[n].offered|..]
                <==> Fresh(stored[k], lastSeen, now) && Copies(hs[n], n, stored[k].msg) > 0)
  {
    var msgs, msg := Picked(stored, keys, uid, callsign, lastSeen, now), stored[k].msg;
    ReplayedTo(hs, msgs, uid, n);
    VisibleHas(hs[n], msgs, msg);
    assert (hs[n].offered + Visible(hs[n], msgs))[|hs[n].offered|..] == Visible(hs[n], msgs);
    PickedExactly(stored, keys, stored.Keys, uid, callsign, lastSeen, now);
    var picked := PickedKeys(stored, keys, uid, callsign, lastSeen, now);
    EnumeratesIn(picked, SelectedKeys(stored, stored.Keys, uid, callsign, lastSeen, now));
    if msg in msgs {
      var i :| 0 <= i < |msgs| && msgs[i] == msg;
      assert picked[i] in picked && stored[picked[i]].msg == msg;
    }
    if k in picked {
      var i :| 0 <= i < |picked| && picked[i] == k;
      assert msgs[i] == msg;
    }
    if Sees(hs[n], msg) {
      ReplayMatchesLive(hs[n], n, msg, uid, callsign);
    }
  }
}

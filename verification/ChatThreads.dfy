/** Chat threads of the web client (pkg/model/chat.go). */
module ChatThreads {
  import opened Wrappers

  const ALL_ROOMS := "All Chat Rooms"

  datatype ChatMessage = ChatMessage(id: string, time: int, parent: string, chatroom: string, from: string,
                                     fromUid: string, toUid: string, direct: bool, text: string)

  /** A thread: its title, and its messages, newest first. */
  datatype Thread = Thread(from: string, messages: seq<ChatMessage>)

  /** The thread under which `me` files a message: a direct message to me goes under
      its sender, and any other under its addressee. */
  function FilingKey(me: string, msg: ChatMessage): string {
    if msg.direct && msg.toUid == me then msg.fromUid else msg.toUid
  }

  function Title(me: string, msg: ChatMessage): string {
    if msg.direct && msg.toUid == me then (if msg.from != "" then msg.from else msg.fromUid) else msg.chatroom
  }

  predicate HasId(s: seq<ChatMessage>, id: string) {
    exists m <- s :: m.id == id
  }

  function Started(): map<string, Thread> {
    map[ALL_ROOMS := Thread(ALL_ROOMS, [])]
  }

  function Added(chats: map<string, Thread>, me: string, msg: ChatMessage): map<string, Thread> {
    Filed(chats, FilingKey(me, msg), Title(me, msg), msg)
  }

  function Filed(chats: map<string, Thread>, key: string, title: string, msg: ChatMessage): map<string, Thread> {
    if key in chats then
      var t := chats[key];
      chats[key := Thread(if t.from == "" then title else t.from,
                          if HasId(t.messages, msg.id) then t.messages else [msg] + t.messages)]
    else chats[key := Thread(title, [msg])]
  }

  class Chat {
    var from: string
    const uid: string
    var messages: seq<ChatMessage>

    constructor (from: string, uid: string, messages: seq<ChatMessage>)
      ensures this.from == from && this.uid == uid && this.messages == messages
    {
      this.from, this.uid, this.messages := from, uid, messages;
    }

    method GetMsg(id: string) returns (m: Option<ChatMessage>)
      ensures m.Some? <==> HasId(messages, id)
      ensures m.Some? ==> m.value in messages && m.value.id == id
    {
      var i := 0;
      while i < |messages|
        invariant 0 <= i <= |messages| && forall j :: 0 <= j < i ==> messages[j].id != id
      {
        if messages[i].id == id { return Some(messages[i]); }
        i := i + 1;
      }
      return None;
    }

    method Add(msg: ChatMessage) returns (added: bool)
      modifies this`messages
      ensures added <==> !HasId(old(messages), msg.id)
      ensures messages == if added then [msg] + old(messages) else old(messages)
    {
      var m := GetMsg(msg.id);
      added := m.None?;
      if added {
        messages := [msg] + messages;
      }
    }

    /** What ChatMessages.Add does with a thread that is there already. */
    method Receive(msg: ChatMessage, callsign: string)
      modifies this
      ensures from == if old(from) == "" then callsign else old(from)
      ensures messages == if HasId(old(messages), msg.id) then old(messages) else [msg] + old(messages)
    {
      var _ := Add(msg);
      if from == "" {
        from := callsign;
      }
    }
  }

  class ChatMessages {
    const uid: string
    var chats: map<string, Chat>

    ghost predicate Valid()
      reads this
    {
      forall k <- chats :: chats[k].uid == k
    }

    ghost function View(): map<string, Thread>
      reads this, chats.Values
    {
      map k | k in chats :: Thread(chats[k].from, chats[k].messages)
    }

    constructor (myUid: string)
      ensures Valid() && uid == myUid && View() == Started()
    {
      uid := myUid;
      var all := new Chat(ALL_ROOMS, ALL_ROOMS, []);
      chats := map[ALL_ROOMS := all];
    }

    method Add(msg: ChatMessage)
      requires Valid()
      modifies this, chats.Values
      ensures Valid() && View() == Added(old(View()), uid, msg)
    {
      var key, callsign := msg.toUid, msg.chatroom;
      if msg.direct && msg.toUid == uid {
        key, callsign := msg.fromUid, msg.from;
        if callsign == "" {
          callsign := msg.fromUid;
        }
      }
      File(key, callsign, msg);
    }

    method File(key: string, callsign: string, msg: ChatMessage)
      requires Valid()
      modifies this, chats.Values
      ensures Valid() && View() == Filed(old(View()), key, callsign, msg)
    {
      if key in chats {
        var c := chats[key];
        assert forall k <- chats :: k != key ==> chats[k] != c;
        c.Receive(msg, callsign);
      } else {
        var c := new Chat(callsign, key, [msg]);
        chats := chats[key := c];
      }
    }
  }

  // ---- threads and the history of arrivals ----

  function After(history: seq<ChatMessage>, me: string): map<string, Thread> {
    if history == [] then Started() else Added(After(history[..|history| - 1], me), me, history[|history| - 1])
  }

  /** Message i is the first of its ID among those filed under the same key. */
  ghost predicate IsFirst(history: seq<ChatMessage>, me: string, i: nat)
    requires i < |history|
  {
    forall j :: 0 <= j < i && FilingKey(me, history[j]) == FilingKey(me, history[i]) ==> history[j].id != history[i].id
  }

  /** The places in the history, in order, of the messages filed under a key that
      are the first of their ID there. */
  ghost function Firsts(history: seq<ChatMessage>, me: string, key: string, n: nat): seq<nat>
    requires n <= |history|
  {
    if n == 0 then []
    else if FilingKey(me, history[n - 1]) == key && IsFirst(history, me, n - 1) then
      Firsts(history, me, key, n - 1) + [n - 1]
    else Firsts(history, me, key, n - 1)
  }

  function MessagesOf(chats: map<string, Thread>, key: string): seq<ChatMessage> {
    if key in chats then chats[key].messages else []
  }

  /** The thread, read from its end, is the history at the given places. */
  ghost predicate ReadsAs(thread: seq<ChatMessage>, history: seq<ChatMessage>, places: seq<nat>) {
    && |thread| == |places|
    && forall k :: 0 <= k < |places| ==> places[k] < |history| && thread[|thread| - 1 - k] == history[places[k]]
  }

  /** Each thread, read oldest first, is the history of arrivals restricted to its key,
      without what repeats an ID. */
  lemma {:induction false} ThreadIsHistory(history: seq<ChatMessage>, me: string, key: string)
    ensures ReadsAs(MessagesOf(After(history, me), key), history, Firsts(history, me, key, |history|))
  {
    if history != [] {
      var n := |history| - 1;
      var before, msg := history[..n], history[n];
      ThreadIsHistory(before, me, key);
      FirstsOfPrefix(history, me, key, n);
      ThreadHasId(before, me, key, msg.id);
      IsFirstByHistory(history, me);
      ReadsAsMore(history, MessagesOf(After(before, me), key), Firsts(before, me, key, n));
    }
  }

  lemma {:induction false} ReadsAsMore(history: seq<ChatMessage>, thread: seq<ChatMessage>, places: seq<nat>)
    requires history != [] && ReadsAs(thread, history[..|history| - 1], places)
    ensures ReadsAs(thread, history, places)
    ensures ReadsAs([history[|history| - 1]] + thread, history, places + [|history| - 1])
  {
    var n := |history| - 1;
    var more, last := [history[n]] + thread, places + [n];
    forall k | 0 <= k < |last| ensures last[k] < |history| && more[|more| - 1 - k] == history[last[k]] {
      if k < |places| {
        assert more[|more| - 1 - k] == thread[|thread| - 1 - k];
      }
    }
  }

  lemma {:induction false} IsFirstByHistory(history: seq<ChatMessage>, me: string)
    requires history != []
    ensures var n := |history| - 1;
            IsFirst(history, me, n) <==> !Arrived(history[..n], me, FilingKey(me, history[n]), history[n].id)
  {
    var n := |history| - 1;
    var before, key, id := history[..n], FilingKey(me, history[n]), history[n].id;
    if Arrived(before, me, key, id) {
      var j :| 0 <= j < |before| && FilingKey(me, before[j]) == key && before[j].id == id;
      assert history[j] == before[j];
    }
    if !IsFirst(history, me, n) {
      var j :| 0 <= j < n && FilingKey(me, history[j]) == key && history[j].id == id;
      assert before[j] == history[j];
    }
  }

  /** A message with this ID has arrived and was filed under this key. */
  ghost predicate Arrived(history: seq<ChatMessage>, me: string, key: string, id: string) {
    exists j :: 0 <= j < |history| && FilingKey(me, history[j]) == key && history[j].id == id
  }

  lemma {:induction false} FirstsOfPrefix(history: seq<ChatMessage>, me: string, key: string, n: nat)
    requires n < |history|
    ensures Firsts(history[..|history| - 1], me, key, n) == Firsts(history, me, key, n)
  {
    if n > 0 {
      var before := history[..|history| - 1];
      FirstsOfPrefix(history, me, key, n - 1);
      assert forall j :: 0 <= j < n ==> before[j] == history[j];
      assert IsFirst(before, me, n - 1) <==> IsFirst(history, me, n - 1);
    }
  }

  /** A thread holds an ID exactly when a message with that ID was filed there. */
  lemma {:induction false} ThreadHasId(history: seq<ChatMessage>, me: string, key: string, id: string)
    ensures HasId(MessagesOf(After(history, me), key), id) <==> Arrived(history, me, key, id)
  {
    if history != [] {
      var n := |history| - 1;
      var before, msg := history[..n], history[n];
      ThreadHasId(before, me, key, id);
      ThreadHasId(before, me, key, msg.id);
      ArrivedMore(history, me, key, id);
      HasIdMore(msg, MessagesOf(After(before, me), key), id);
    }
  }

  lemma {:induction false} ArrivedMore(history: seq<ChatMessage>, me: string, key: string, id: string)
    requires history != []
    ensures var n := |history| - 1;
            Arrived(history, me, key, id)
            <==> Arrived(history[..n], me, key, id) || (FilingKey(me, history[n]) == key && history[n].id == id)
  {
    var n := |history| - 1;
    var before := history[..n];
    if Arrived(before, me, key, id) {
      var j :| 0 <= j < |before| && FilingKey(me, before[j]) == key && before[j].id == id;
      assert history[j] == before[j];
    }
    if Arrived(history, me, key, id) {
      var j :| 0 <= j < |history| && FilingKey(me, history[j]) == key && history[j].id == id;
      assert j < n ==> before[j] == history[j];
    }
  }

  lemma {:induction false} HasIdMore(msg: ChatMessage, s: seq<ChatMessage>, id: string)
    ensures HasId([msg] + s, id) <==> msg.id == id || HasId(s, id)
  {
    assert msg in [msg] + s;
  }

  /** Adding a message changes the messages of a thread exactly when it is filed there
      and its ID has not arrived there before; so a redelivery changes none. */
  lemma {:induction false} AddChangesExactlyWhen(history: seq<ChatMessage>, me: string, msg: ChatMessage, key: string)
    ensures MessagesOf(After(history + [msg], me), key) != MessagesOf(After(history, me), key)
       <==> key == FilingKey(me, msg) && !Arrived(history, me, key, msg.id)
  {
    assert (history + [msg])[..|history|] == history;
    ThreadHasId(history, me, key, msg.id);
    var old_, new_ := MessagesOf(After(history, me), key), MessagesOf(After(history + [msg], me), key);
    assert new_ == [msg] + old_ ==> |new_| == |old_| + 1;
  }

  /** Every message that has arrived is, by ID, in the thread of its key; a thread
      holds only messages of its own key, and no ID twice. */
  lemma {:induction false} EachInItsThread(history: seq<ChatMessage>, me: string, key: string)
    ensures forall m <- history :: HasId(MessagesOf(After(history, me), FilingKey(me, m)), m.id)
    ensures forall m <- MessagesOf(After(history, me), key) :: m in history && FilingKey(me, m) == key
    ensures DistinctIds(MessagesOf(After(history, me), key))
  {
    forall m | m in history ensures HasId(MessagesOf(After(history, me), FilingKey(me, m)), m.id) {
      var i :| 0 <= i < |history| && history[i] == m;
      assert Arrived(history, me, FilingKey(me, m), m.id);
      ThreadHasId(history, me, FilingKey(me, m), m.id);
    }
    ThreadHolds(history, me, key);
  }

  lemma {:induction false} ThreadHolds(history: seq<ChatMessage>, me: string, key: string)
    ensures forall m <- MessagesOf(After(history, me), key) :: m in history && FilingKey(me, m) == key
    ensures DistinctIds(MessagesOf(After(history, me), key))
  {
    if history != [] {
      var before, msg := history[..|history| - 1], history[|history| - 1];
      assert history == before + [msg];
      ThreadHolds(before, me, key);
      DistinctMore(MessagesOf(After(before, me), key), msg);
    }
  }

  predicate DistinctIds(t: seq<ChatMessage>) {
    forall i, j :: 0 <= i < j < |t| ==> t[i].id != t[j].id
  }

  lemma {:induction false} DistinctMore(t: seq<ChatMessage>, msg: ChatMessage)
    requires DistinctIds(t)
    ensures DistinctIds([msg] + t) <==> !HasId(t, msg.id)
  {
    var more := [msg] + t;
    forall j | 0 <= j < |t| ensures more[j + 1] == t[j] && t[j] in t {}
    if HasId(t, msg.id) {
      var m :| m in t && m.id == msg.id;
      var j :| 0 <= j < |t| && t[j] == m;
      assert more[0].id == more[j + 1].id;
    }
  }

  /** Both directions of a direct conversation with a peer share one thread. */
  lemma {:induction false} BothDirectionsShareAThread(history: seq<ChatMessage>, me: string, peer: string,
                                                      received: ChatMessage, sent: ChatMessage)
    requires received in history && received.direct && received.toUid == me && received.fromUid == peer
    requires sent in history && sent.toUid == peer && (peer == me ==> sent.fromUid == peer)
    ensures HasId(MessagesOf(After(history, me), peer), received.id)
            && HasId(MessagesOf(After(history, me), peer), sent.id)
  {
    EachInItsThread(history, me, peer);
  }

  /** The title of a thread is the first title that is not empty among all messages
      filed there, repeated ones too; the common room keeps its own. */
  function FirstTitle(history: seq<ChatMessage>, me: string, key: string, n: nat): string
    requires n <= |history|
    decreases |history| - n
  {
    if n == |history| then ""
    else if FilingKey(me, history[n]) == key && Title(me, history[n]) != "" then Title(me, history[n])
    else FirstTitle(history, me, key, n + 1)
  }

  lemma {:induction false} TitleIsFirst(history: seq<ChatMessage>, me: string, key: string)
    requires key in After(history, me)
    ensures After(history, me)[key].from == if key == ALL_ROOMS then ALL_ROOMS else FirstTitle(history, me, key, 0)
  {
    if history != [] {
      var n := |history| - 1;
      var before := history[..n];
      FirstTitleMore(history, me, key, 0);
      AllRoomsStays(before, me);
      if key in After(before, me) {
        TitleIsFirst(before, me, key);
      } else {
        NoThread(before, me, key, 0);
      }
    }
  }

  lemma {:induction false} AllRoomsStays(history: seq<ChatMessage>, me: string)
    ensures ALL_ROOMS in After(history, me)
  {
    if history != [] {
      AllRoomsStays(history[..|history| - 1], me);
    }
  }

  lemma {:induction false} FirstTitleMore(history: seq<ChatMessage>, me: string, key: string, i: nat)
    requires i < |history|
    ensures var n := |history| - 1;
            FirstTitle(history, me, key, i)
            == if FirstTitle(history[..n], me, key, i) != "" then FirstTitle(history[..n], me, key, i)
               else if FilingKey(me, history[n]) == key then Title(me, history[n]) else ""
    decreases |history| - i
  {
    if i < |history| - 1 {
      assert history[..|history| - 1][i] == history[i];
      FirstTitleMore(history, me, key, i + 1);
    }
  }

  lemma {:induction false} NoThread(history: seq<ChatMessage>, me: string, key: string, i: nat)
    requires key !in After(history, me) && i <= |history|
    ensures FirstTitle(history, me, key, i) == ""
    decreases |history| - i
  {
    if i < |history| {
      NotFiled(history, me, key, i);
      NoThread(history, me, key, i + 1);
    }
  }

  lemma {:induction false} NotFiled(history: seq<ChatMessage>, me: string, key: string, i: nat)
    requires key !in After(history, me) && i < |history|
    ensures FilingKey(me, history[i]) != key
  {
    var before := history[..|history| - 1];
    if i < |before| {
      assert before[i] == history[i];
      NotFiled(before, me, key, i);
    }
  }
}

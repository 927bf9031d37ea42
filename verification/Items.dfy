/** The life of map items on the server (pkg/model/unit.go,
    internal/repository/items_repo.go, and the item processors in
    cmd/goatak_server/processors.go). The clock is a
    parameter. */
module Items {
  import opened Wrappers
  import opened Strings
  import opened XmlNode
  import opened CotMessages
  import Filter

  datatype Class = Point | Unit | Contact | NoClass

  const MAX_TRACK_POINTS: nat := 5000
  const STALE_CONTACT_DELETE: int := DAY

  datatype Pos = Pos(time: Time, lat: real, lon: real, alt: real, ce: real, speed: int, course: int)

  function GetClass(msg: CotMessage): Class {
    if HasPrefix(msg.event.typ, "a-") then (if GetEndpoint(msg) != "" then Class.Contact else Class.Unit)
    else if Filter.MatchAnyPattern(msg.event.typ, ["b-", "u-"]) then Class.Point
    else NoClass
  }

  function PosOf(msg: CotMessage): Pos {
    var e := msg.event;
    var track := if e.detail.Some? && e.detail.value.track.Some? then e.detail.value.track.value else Track(0, 0);
    Pos(TimeFromMillis(e.sendTime), e.lat, e.lon, e.hae, e.ce, track.speed, track.course)
  }

  predicate HasPosition(msg: CotMessage) {
    (GetClass(msg) == Class.Unit || GetClass(msg) == Class.Contact) && (msg.event.lat != 0.0 || msg.event.lon != 0.0)
  }

  /** The positions a message adds to a track: at most one. */
  function NewPositions(msg: CotMessage): seq<Pos> {
    if HasPosition(msg) then [PosOf(msg)] else []
  }

  function Last(s: seq<Pos>, n: nat): seq<Pos> {
    if |s| > n then s[|s| - n..] else s
  }

  datatype ItemState = ItemState(uid: string, class_: Class, online: bool, lastSeen: int, track: seq<Pos>,
                                 msg: CotMessage)

  function Created(msg: CotMessage, now: int): ItemState {
    ItemState(msg.event.uid, GetClass(msg), true, now, NewPositions(msg), msg)
  }

  function Updated(i: ItemState, msg: CotMessage, now: int): ItemState {
    i.(class_ := GetClass(msg), online := GetClass(msg) == Class.Unit || GetClass(msg) == Class.Contact || i.online,
       lastSeen := now, msg := msg,
       track := if HasPosition(msg) then Last(i.track + [PosOf(msg)], MAX_TRACK_POINTS) else i.track)
  }

  predicate IsOld(i: ItemState, now: int) {
    if i.class_ == Class.Contact then !i.online && now - i.lastSeen > STALE_CONTACT_DELETE
    else TimeFromMillis(i.msg.event.staleTime) < now
  }

  /** What the cleaner removes. */
  predicate Gone(i: ItemState, now: int) {
    i.class_ != NoClass && IsOld(i, now)
  }

  /** What the cleaner leaves of an item that it keeps. */
  function Faded(i: ItemState, now: int, timeout: int): ItemState {
    if i.class_ == Class.Contact && i.online && now - i.lastSeen > timeout then i.(online := false) else i
  }

  /** The items when the cleaner's loop still has `todo` to visit. */
  function Halfway(v: map<string, ItemState>, todo: set<string>, now: int, timeout: int): map<string, ItemState> {
    map uid | uid in v :: if uid in todo then v[uid] else Faded(v[uid], now, timeout)
  }

  ghost predicate Collected(toDelete: seq<string>, v: map<string, ItemState>, todo: set<string>, now: int) {
    forall uid :: uid in toDelete <==> uid in v && uid !in todo && Gone(v[uid], now)
  }

  function Spared(v: map<string, ItemState>, uids: seq<string>): map<string, ItemState> {
    map uid | uid in v && uid !in uids :: v[uid]
  }

  lemma {:induction false} CleanedIs(v: map<string, ItemState>, toDelete: seq<string>, now: int, timeout: int)
    requires Collected(toDelete, v, {}, now)
    ensures Spared(Halfway(v, {}, now, timeout), toDelete) == Cleaned(v, now, timeout)
  {
  }

  lemma {:induction false} HalfwayMore(v: map<string, ItemState>, todo: set<string>, uid: string, now: int,
                                       timeout: int)
    requires todo <= v.Keys && uid in todo
    ensures Halfway(v, todo, now, timeout)[uid] == v[uid]
    ensures Halfway(v, todo - {uid}, now, timeout) == Halfway(v, todo, now, timeout)[uid := Faded(v[uid], now, timeout)]
  {
  }

  lemma {:induction false} VisitOne(v: map<string, ItemState>, todo: set<string>, uid: string, toDelete: seq<string>,
                                    now: int, timeout: int)
    requires todo <= v.Keys && uid in todo && Collected(toDelete, v, todo, now)
    ensures Halfway(v, todo, now, timeout)[uid] == v[uid]
    ensures Halfway(v, todo - {uid}, now, timeout) == Halfway(v, todo, now, timeout)[uid := Faded(v[uid], now, timeout)]
    ensures Collected(if Gone(v[uid], now) then toDelete + [uid] else toDelete, v, todo - {uid}, now)
  {
    HalfwayMore(v, todo, uid, now, timeout);
  }

  class Item {
    const uid: string
    var class_: Class
    var online: bool
    var lastSeen: int
    var track: seq<Pos>
    var msg: CotMessage

    ghost function State(): ItemState
      reads this
    {
      ItemState(uid, class_, online, lastSeen, track, msg)
    }

    constructor (msg: CotMessage, now: int)
      ensures State() == Created(msg, now)
    {
      uid, class_, lastSeen, online, track := msg.event.uid, GetClass(msg), now, true, [];
      this.msg := msg;
      new;
      if class_ == Class.Unit || class_ == Class.Contact {
        if msg.event.lat != 0.0 || msg.event.lon != 0.0 {
          track := [PosOf(msg)];
        }
      }
    }

    method Update(msg: CotMessage, now: int)
      modifies this
      ensures State() == Updated(old(State()), msg, now)
    {
      lastSeen := now;
      class_ := GetClass(msg);
      this.msg := msg;
      if class_ == Class.Unit || class_ == Class.Contact {
        online := true;
        if msg.event.lat != 0.0 || msg.event.lon != 0.0 {
          AddPosition(PosOf(msg));
        }
      }
    }

    method AddPosition(pos: Pos)
      modifies this`track
      ensures track == Last(old(track) + [pos], MAX_TRACK_POINTS)
    {
      track := track + [pos];
      if |track| > MAX_TRACK_POINTS {
        track := track[|track| - MAX_TRACK_POINTS..];
      }
    }

    predicate Old(now: int): (old_: bool)
      reads this
      ensures old_ == IsOld(State(), now)
    {
      if class_ == Class.Contact then !online && now - lastSeen > STALE_CONTACT_DELETE
      else TimeFromMillis(msg.event.staleTime) < now
    }

    method SetOffline()
      modifies this
      ensures State() == old(State()).(online := false)
    {
      online := false;
    }

    method SetOnline(now: int)
      modifies this
      ensures State() == old(State()).(online := true, lastSeen := now)
    {
      online := true;
      lastSeen := now;
    }
  }

  /** A message without a class makes no item. */
  method FromMsg(msg: CotMessage, now: int) returns (i: Item?)
    ensures i == null <==> GetClass(msg) == NoClass
    ensures i != null ==> fresh(i) && i.State() == Created(msg, now)
  {
    if GetClass(msg) == NoClass { return null; }
    i := new Item(msg, now);
  }

  // ---- the repository ----

  datatype Callback = Changed(uid: string) | Deleted(uid: string)

  /** The uids that a subscriber of both callbacks knows. */
  function Known(events: seq<Callback>): set<string> {
    if events == [] then {}
    else
      var before, e := Known(events[..|events| - 1]), events[|events| - 1];
      if e.Changed? then before + {e.uid} else before - {e.uid}
  }

  lemma {:induction false} KnownMore(events: seq<Callback>, e: Callback)
    ensures Known(events + [e]) == if e.Changed? then Known(events) + {e.uid} else Known(events) - {e.uid}
  {
    assert (events + [e])[..|events|] == events;
  }

  function Saved(v: map<string, ItemState>, msg: CotMessage, now: int): map<string, ItemState> {
    if !IsMapItem(msg) then v
    else v[msg.event.uid := if msg.event.uid in v then Updated(v[msg.event.uid], msg, now) else Created(msg, now)]
  }

  function UidToRemove(msg: CotMessage): string {
    GetAttr(GetFirstLink(msg, "p-p"), "uid")
  }

  function RemovedBy(v: map<string, ItemState>, msg: CotMessage): map<string, ItemState> {
    var uid := UidToRemove(msg);
    if uid == "" || uid !in v then v
    else if v[uid].class_ == Class.Contact then v[uid := v[uid].(online := false)]
    else if v[uid].class_ == Class.Unit || v[uid].class_ == Class.Point then v - {uid}
    else v
  }

  function Marked(v: map<string, ItemState>, uid: string): map<string, ItemState> {
    if uid in v then v[uid := v[uid].(online := false)] else v
  }

  function Cleaned(v: map<string, ItemState>, now: int, timeout: int): map<string, ItemState> {
    map uid | uid in v && !Gone(v[uid], now) :: Faded(v[uid], now, timeout)
  }

  class ItemsRepo {
    var items: map<string, Item>
    const timeout: int
    var events: seq<Callback>

    /** Each key is its item's uid, tracks are within the limit, and the callbacks
        so far, replayed, give the stored uids. */
    ghost predicate Valid()
      reads this, items.Values
    {
      && Keyed()
      && (forall k <- items :: |items[k].track| <= MAX_TRACK_POINTS)
      && Known(events) == items.Keys
    }

    ghost predicate Keyed()
      reads this
    {
      forall k <- items :: items[k].uid == k
    }

    ghost function View(): map<string, ItemState>
      reads this, items.Values
    {
      map k | k in items :: items[k].State()
    }

    constructor (timeout: int)
      ensures Valid() && View() == map[] && this.timeout == timeout
    {
      this.timeout := timeout;
      items, events := map[], [];
    }

    method Store(i: Item?)
      modifies this
      ensures i == null ==> items == old(items) && events == old(events)
      ensures i != null ==> items == old(items)[i.uid := i] && events == old(events) + [Changed(i.uid)]
      ensures i != null ==> Known(events) == Known(old(events)) + {i.uid}
    {
      if i != null {
        items := items[i.uid := i];
        KnownMore(events, Changed(i.uid));
        events := events + [Changed(i.uid)];
      }
    }

    method Remove(uid: string)
      requires Valid()
      modifies this
      ensures Valid() && items == old(items) - {uid}
      ensures events == if uid in old(items) then old(events) + [Deleted(uid)] else old(events)
    {
      if uid in items {
        items := items - {uid};
        KnownMore(events, Deleted(uid));
        events := events + [Deleted(uid)];
      }
    }

    /** saveItemProcessor; `isNew` says that processNewContact is called, with the
        time the contact was last seen, if ever. */
    method SaveItem(msg: CotMessage, now: int) returns (isNew: bool, lastSeen: Option<int>)
      requires Valid()
      modifies this, items.Values
      ensures Valid() && View() == Saved(old(View()), msg, now)
      ensures events == if IsMapItem(msg) then old(events) + [Changed(msg.event.uid)] else old(events)
      ensures var uid := msg.event.uid;
              isNew == (IsMapItem(msg) && GetClass(msg) == Class.Contact
                        && (uid in old(View()) ==> !old(View())[uid].online))
      ensures isNew ==> lastSeen == if msg.event.uid in old(View()) then Some(old(View())[msg.event.uid].lastSeen)
              else None
    {
      isNew, lastSeen := false, None;
      if !IsMapItem(msg) { return; }
      var cl, uid := GetClass(msg), msg.event.uid;
      if uid in items {
        var online, seen := items[uid].online, items[uid].lastSeen;
        Refresh(items[uid], msg, now);
        if cl == Class.Contact && !online {
          isNew, lastSeen := true, Some(seen);
        }
      } else {
        MapItemHasClass(msg);
        var item := FromMsg(msg, now);
        Introduce(item);
        if cl == Class.Contact {
          isNew := true;
        }
      }
    }

    method Introduce(i: Item)
      requires Valid() && i.uid !in items && |i.track| <= MAX_TRACK_POINTS
      modifies this
      ensures Valid() && events == old(events) + [Changed(i.uid)]
      ensures View() == old(View())[i.uid := i.State()]
    {
      Store(i);
    }

    method Refresh(c: Item, msg: CotMessage, now: int)
      requires Valid() && c.uid in items && items[c.uid] == c
      modifies this, c
      ensures Valid() && items == old(items) && events == old(events) + [Changed(c.uid)]
      ensures View() == old(View())[c.uid := Updated(old(c.State()), msg, now)]
    {
      assert forall k <- items :: k != c.uid ==> items[k] != c;
      c.Update(msg, now);
      Store(c);
      assert items == old(items);
    }

    /** removeItemProcessor. */
    method RemoveByMessage(msg: CotMessage)
      requires Valid()
      modifies this, items.Values
      ensures Valid() && View() == RemovedBy(old(View()), msg)
      ensures var uid := UidToRemove(msg);
              events == if uid == "" || uid !in old(View()) || old(View())[uid].class_ == NoClass then old(events)
                        else if old(View())[uid].class_ == Class.Contact then old(events) + [Changed(uid)]
                        else old(events) + [Deleted(uid)]
    {
      ghost var before := View();
      var link := GetFirstLink(msg, "p-p");
      if link.None? { return; }
      var uid := GetAttr(link, "uid");
      if uid == "" { return; }
      if uid in items {
        var v := items[uid];
        if v.class_ == Class.Contact {
          TakeOffline(v);
        } else if v.class_ == Class.Unit || v.class_ == Class.Point {
          Remove(uid);
          assert View() == before - {uid};
        }
      }
    }

    method TakeOffline(c: Item)
      requires Valid() && c.uid in items && items[c.uid] == c
      modifies this, c
      ensures Valid() && items == old(items) && events == old(events) + [Changed(c.uid)]
      ensures View() == old(View())[c.uid := old(c.State()).(online := false)]
    {
      assert forall k <- items :: k != c.uid ==> items[k] != c;
      c.SetOffline();
      Store(c);
      assert items == old(items);
    }

    /** The offline mark that RemoveHandlerCb sets for the uids of a closed connection. */
    method MarkOffline(uid: string)
      requires Valid()
      modifies items.Values
      ensures Valid() && View() == Marked(old(View()), uid)
    {
      if uid in items {
        items[uid].SetOffline();
      }
    }

    /** The online mark that metricsProcessor sets for a contact. */
    method MarkOnline(uid: string, now: int)
      requires Valid()
      modifies items.Values
      ensures Valid()
      ensures View() == if uid in old(View()) && old(View())[uid].class_ == Class.Contact
                        then old(View())[uid := old(View())[uid].(online := true, lastSeen := now)] else old(View())
    {
      if uid in items && items[uid].class_ == Class.Contact {
        items[uid].SetOnline(now);
      }
    }

    /** cleanOldUnits, in any order of the map. */
    method CleanOldUnits(now: int)
      requires Valid()
      modifies this, items.Values
      ensures Valid() && View() == Cleaned(old(View()), now, timeout)
    {
      ghost var before := View();
      var toDelete := Sweep(now);
      RemoveAll(toDelete);
      CleanedIs(before, toDelete, now, timeout);
    }

    method RemoveAll(uids: seq<string>)
      requires Valid()
      modifies this
      ensures Valid()
      ensures View() == Spared(old(View()), uids)
    {
      var i := 0;
      while i < |uids|
        invariant 0 <= i <= |uids| && Valid()
        invariant forall k :: k in items <==> k in old(items) && k !in uids[..i]
        invariant forall k <- items :: items[k] == old(items)[k]
      {
        Remove(uids[i]);
        assert uids[..i + 1] == uids[..i] + [uids[i]];
        i := i + 1;
      }
      assert uids[..i] == uids;
    }

    /** The loop that marks contacts offline and collects what is to be deleted. */
    method Sweep(now: int) returns (toDelete: seq<string>)
      requires Valid()
      modifies this`events, items.Values
      ensures Valid() && items == old(items)
      ensures Collected(toDelete, old(View()), {}, now) && View() == Halfway(old(View()), {}, now, timeout)
    {
      ghost var before := View();
      toDelete := [];
      var todo := items.Keys;
      assert View() == Halfway(before, todo, now, timeout);
      while todo != {}
        invariant items == old(items) && todo <= items.Keys && Valid()
        invariant View() == Halfway(before, todo, now, timeout) && Collected(toDelete, before, todo, now)
        decreases |todo|
      {
        var uid :| uid in todo;
        VisitOne(before, todo, uid, toDelete, now, timeout);
        var delete := SweepOne(uid, now);
        if delete {
          toDelete := toDelete + [uid];
        }
        todo := todo - {uid};
      }
    }

    method FadeOut(c: Item)
      requires Valid() && c.uid in items && items[c.uid] == c
      modifies this`events, c
      ensures Valid() && items == old(items) && events == old(events) + [Changed(c.uid)]
      ensures View() == old(View())[c.uid := old(c.State()).(online := false)]
    {
      assert forall k <- items :: k != c.uid ==> items[k] != c;
      c.SetOffline();
      KnownMore(events, Changed(c.uid));
      events := events + [Changed(c.uid)];
    }

    method SweepOne(uid: string, now: int) returns (delete: bool)
      requires Valid() && uid in items
      modifies this`events, items[uid]
      ensures Valid() && items == old(items)
      ensures View() == old(View())[uid := Faded(old(View())[uid], now, timeout)]
      ensures delete <==> Gone(old(View())[uid], now)
      ensures events == if old(View())[uid].online != View()[uid].online then old(events) + [Changed(uid)]
              else old(events)
    {
      delete := false;
      var item := items[uid];
      if item.class_ == Class.Unit || item.class_ == Class.Point {
        delete := item.Old(now);
      } else if item.class_ == Class.Contact {
        if item.Old(now) {
          delete := true;
        } else if item.online && now - item.lastSeen > timeout {
          FadeOut(item);
        }
      }
    }
  }

  /** Map items always have a class, so saveItemProcessor never stores a nil item. */
  lemma {:induction false} MapItemHasClass(msg: CotMessage)
    requires IsMapItem(msg)
    ensures GetClass(msg) != NoClass
  {
    var t := msg.event.typ;
    assert Filter.MatchPattern(t, "a-") ==> HasPrefix(t, "a-");
    assert Filter.MatchAnyPattern(t, ["a-", "u-"]) ==> Filter.MatchPattern(t, "a-") || Filter.MatchPattern(t, "u-");
    assert Filter.MatchAnyPattern(t, ["b-"]) ==> Filter.MatchPattern(t, "b-");
    assert "b-" in ["b-", "u-"] && "u-" in ["b-", "u-"];
  }

  // ---- runs ----

  /** The cleaner runs beside the handlers: `Visit` is its look at one item, `Drop` its
      removal of one uid that a visit has collected, and anything may come between. */
  datatype Op =
    | Save(msg: CotMessage, now: int)
    | RemoveMsg(msg: CotMessage)
    | Visit(uid: string, now: int)
    | Drop(uid: string)
    | Offline(uid: string)
    | Online(uid: string, now: int)

  /** The items, the positions recorded for each since it was created, and the uids
      that the cleaner has still to remove. */
  datatype RepoState = RepoState(items: map<string, ItemState>, recorded: map<string, seq<Pos>>, doomed: set<string>)

  function NextItems(r: RepoState, op: Op, timeout: int): map<string, ItemState> {
    var v := r.items;
    match op
    case Save(msg, now) => Saved(v, msg, now)
    case RemoveMsg(msg) => RemovedBy(v, msg)
    case Visit(uid, now) => if uid in v then v[uid := Faded(v[uid], now, timeout)] else v
    case Drop(uid) => if uid in r.doomed then v - {uid} else v
    case Offline(uid) => Marked(v, uid)
    case Online(uid, now) =>
      if uid in v && v[uid].class_ == Class.Contact then v[uid := v[uid].(online := true, lastSeen := now)] else v
  }

  /** A saved message adds its position to what its item has recorded; an item that
      goes takes its record with it. */
  function NextRecorded(r: RepoState, op: Op, timeout: int): map<string, seq<Pos>> {
    var after := NextItems(r, op, timeout);
    map uid | uid in after ::
      (if uid in r.items && uid in r.recorded then r.recorded[uid] else [])
      + if op.Save? && IsMapItem(op.msg) && op.msg.event.uid == uid then NewPositions(op.msg) else []
  }

  predicate Collects(v: map<string, ItemState>, op: Op, uid: string) {
    op.Visit? && op.uid == uid && uid in v && Gone(v[uid], op.now)
  }

  function NextDoomed(r: RepoState, op: Op): set<string> {
    match op
    case Visit(uid, now) => if Collects(r.items, op, uid) then r.doomed + {uid} else r.doomed
    case Drop(uid) => r.doomed - {uid}
    case _ => r.doomed
  }

  function Next(r: RepoState, op: Op, timeout: int): RepoState {
    RepoState(NextItems(r, op, timeout), NextRecorded(r, op, timeout), NextDoomed(r, op))
  }

  const EMPTY := RepoState(map[], map[], {})

  /** Each state follows from the one before by any operation. */
  ghost predicate IsRun(states: seq<RepoState>, ops: seq<Op>, timeout: int) {
    && |states| == |ops| + 1 && states[0] == EMPTY
    && forall i: nat :: i < |ops| ==> Follows(states, ops, timeout, i)
  }

  ghost predicate Follows(states: seq<RepoState>, ops: seq<Op>, timeout: int, i: nat)
    requires i < |ops| && |states| == |ops| + 1
  {
    states[i + 1] == Next(states[i], ops[i], timeout)
  }

  ghost predicate WellKept(r: RepoState) {
    && r.recorded.Keys == r.items.Keys
    && (forall uid <- r.items :: r.items[uid].uid == uid)
    && (forall uid <- r.items :: r.items[uid].track == Last(r.recorded[uid], MAX_TRACK_POINTS))
  }

  lemma {:induction false} LastOfLast(s: seq<Pos>, t: seq<Pos>, n: nat)
    ensures Last(Last(s, n) + t, n) == Last(s + t, n)
  {
    var a, b := Last(s, n) + t, s + t;
    assert |a| <= |b| && a == b[|b| - |a|..];
    if |a| > n {
      assert a[|a| - n..] == b[|b| - n..];
    }
  }

  /** In every run each key is its item's uid, and each track is the last 5000 of
      the positions other than (0, 0) that were recorded for the item. */
  lemma {:induction false} RunWellKept(states: seq<RepoState>, ops: seq<Op>, timeout: int, i: nat)
    requires IsRun(states, ops, timeout) && i < |states|
    ensures WellKept(states[i])
  {
    if i > 0 {
      RunWellKept(states, ops, timeout, i - 1);
      assert Follows(states, ops, timeout, i - 1);
      StepWellKept(states[i - 1], ops[i - 1], timeout);
    }
  }

  lemma {:induction false} StepWellKept(r: RepoState, op: Op, timeout: int)
    requires WellKept(r)
    ensures WellKept(Next(r, op, timeout))
  {
    forall uid | uid in NextItems(r, op, timeout)
      ensures NextItems(r, op, timeout)[uid].uid == uid
      ensures NextItems(r, op, timeout)[uid].track == Last(NextRecorded(r, op, timeout)[uid], MAX_TRACK_POINTS)
    {
      KeptOne(r, op, timeout, uid);
    }
  }

  lemma {:induction false} KeptOne(r: RepoState, op: Op, timeout: int, uid: string)
    requires WellKept(r) && uid in NextItems(r, op, timeout)
    ensures NextItems(r, op, timeout)[uid].uid == uid
    ensures NextItems(r, op, timeout)[uid].track == Last(NextRecorded(r, op, timeout)[uid], MAX_TRACK_POINTS)
  {
    if uid in r.items {
      assert r.recorded[uid] + [] == r.recorded[uid];
      assert Last(r.recorded[uid], MAX_TRACK_POINTS) == r.items[uid].track;
      if op.Save? && op.msg.event.uid == uid && IsMapItem(op.msg) {
        LastOfLast(r.recorded[uid], NewPositions(op.msg), MAX_TRACK_POINTS);
      }
    } else {
      assert [] + NewPositions(op.msg) == NewPositions(op.msg);
    }
  }

  // ---- when a contact was last seen ----

  /** The operation is a sign of life of the item: a message of its own, or metrics when
      it is a stored contact. */
  predicate IsHeard(v: map<string, ItemState>, op: Op, uid: string) {
    match op
    case Save(msg, now) => IsMapItem(msg) && msg.event.uid == uid
    case Online(u, now) => u == uid && uid in v && v[uid].class_ == Class.Contact
    case _ => false
  }

  predicate Hears(states: seq<RepoState>, ops: seq<Op>, uid: string, i: nat)
    requires i < |ops| <= |states|
  {
    IsHeard(states[i].items, ops[i], uid)
  }

  lemma {:induction false} SeenWhenHeard(r: RepoState, op: Op, timeout: int, uid: string)
    requires uid in NextItems(r, op, timeout)
    ensures var after := NextItems(r, op, timeout)[uid];
            if IsHeard(r.items, op, uid) then after.lastSeen == op.now
            else uid in r.items && after.lastSeen == r.items[uid].lastSeen && after.class_ == r.items[uid].class_
  {
  }

  /** Of the first n operations, the one at i is the newest sign of life. */
  ghost predicate LastHeard(states: seq<RepoState>, ops: seq<Op>, uid: string, n: nat, i: nat)
    requires n <= |ops| <= |states|
  {
    i < n && Hears(states, ops, uid, i) && forall j :: i < j < n ==> !Hears(states, ops, uid, j)
  }

  lemma {:induction false} SeenNext(states: seq<RepoState>, ops: seq<Op>, timeout: int, uid: string, n: nat)
    requires IsRun(states, ops, timeout) && n < |ops| && uid in states[n + 1].items
    ensures if Hears(states, ops, uid, n) then states[n + 1].items[uid].lastSeen == ops[n].now
            else && uid in states[n].items && states[n + 1].items[uid].lastSeen == states[n].items[uid].lastSeen
                 && states[n + 1].items[uid].class_ == states[n].items[uid].class_
  {
    assert Follows(states, ops, timeout, n);
    SeenWhenHeard(states[n], ops[n], timeout, uid);
  }

  /** In every run lastSeen is the time of the item's newest sign of life. */
  lemma {:induction false} LastSeenIsNewest(states: seq<RepoState>, ops: seq<Op>, timeout: int, uid: string, n: nat)
    returns (i: nat)
    requires IsRun(states, ops, timeout) && n < |states| && uid in states[n].items
    ensures LastHeard(states, ops, uid, n, i) && states[n].items[uid].lastSeen == ops[i].now
  {
    assert n != 0;
    SeenNext(states, ops, timeout, uid, n - 1);
    if Hears(states, ops, uid, n - 1) {
      i := n - 1;
    } else {
      i := LastSeenIsNewest(states, ops, timeout, uid, n - 1);
      StillLast(states, ops, uid, n, i);
    }
  }

  lemma {:induction false} StillLast(states: seq<RepoState>, ops: seq<Op>, uid: string, n: nat, i: nat)
    requires 0 < n <= |ops| <= |states| && LastHeard(states, ops, uid, n - 1, i) && !Hears(states, ops, uid, n - 1)
    ensures LastHeard(states, ops, uid, n, i)
  {
  }

  /** The clock does not go back. */
  ghost predicate InTimeOrder(ops: seq<Op>) {
    forall i: nat, j: nat :: i < j && TimedAt(ops, i) && TimedAt(ops, j) ==> ops[i].now <= ops[j].now
  }

  predicate TimedAt(ops: seq<Op>, i: nat) {
    i < |ops| && (ops[i].Save? || ops[i].Visit? || ops[i].Online?)
  }

  lemma {:induction false} HeardIsTimed(states: seq<RepoState>, ops: seq<Op>, uid: string, i: nat)
    requires i < |ops| <= |states| && Hears(states, ops, uid, i)
    ensures TimedAt(ops, i) && !ops[i].Visit?
  {
  }

  // ---- when a contact is removed ----

  predicate Drops(op: Op, uid: string) {
    op.Drop? && op.uid == uid
  }

  /** Before the operation at n the visit at k collected the uid, and it has not been
      removed since. */
  ghost predicate CollectedAt(states: seq<RepoState>, ops: seq<Op>, uid: string, n: nat, k: nat)
    requires n <= |ops| <= |states|
  {
    && k < n && Collects(states[k].items, ops[k], uid)
    && forall j :: k < j < n ==> !Drops(ops[j], uid)
  }

  lemma {:induction false} DoomedExactlyWhen(states: seq<RepoState>, ops: seq<Op>, timeout: int, uid: string, n: nat)
    requires IsRun(states, ops, timeout) && n < |states|
    ensures uid in states[n].doomed <==> exists k: nat :: CollectedAt(states, ops, uid, n, k)
  {
    if n > 0 {
      assert Follows(states, ops, timeout, n - 1);
      DoomedExactlyWhen(states, ops, timeout, uid, n - 1);
      DoomedNext(states[n - 1], ops[n - 1], timeout, uid);
      forall k: nat {
        CollectedNext(states, ops, uid, n, k);
      }
    }
  }

  lemma {:induction false} CollectedNext(states: seq<RepoState>, ops: seq<Op>, uid: string, n: nat, k: nat)
    requires 0 < n <= |ops| <= |states|
    ensures CollectedAt(states, ops, uid, n, k)
       <==> if k == n - 1 then Collects(states[k].items, ops[k], uid)
            else CollectedAt(states, ops, uid, n - 1, k) && !Drops(ops[n - 1], uid)
  {
  }

  lemma {:induction false} DoomedNext(r: RepoState, op: Op, timeout: int, uid: string)
    ensures uid in Next(r, op, timeout).doomed
       <==> Collects(r.items, op, uid) || (uid in r.doomed && !Drops(op, uid))
  {
  }

  /** In every run a stored contact goes exactly when the cleaner removes its uid and
      some earlier visit collected it; nothing else removes it. */
  lemma {:induction false} ContactRemovedExactlyWhen(states: seq<RepoState>, ops: seq<Op>, timeout: int, uid: string,
                                                     n: nat)
    requires IsRun(states, ops, timeout) && n < |ops|
    requires uid in states[n].items && states[n].items[uid].class_ == Class.Contact
    ensures uid !in states[n + 1].items
       <==> Drops(ops[n], uid) && exists k: nat :: CollectedAt(states, ops, uid, n, k)
  {
    DoomedExactlyWhen(states, ops, timeout, uid, n);
    assert Follows(states, ops, timeout, n);
    ContactGoesExactlyWhen(states[n], ops[n], timeout, uid);
  }

  lemma {:induction false} ContactGoesExactlyWhen(r: RepoState, op: Op, timeout: int, uid: string)
    requires uid in r.items && r.items[uid].class_ == Class.Contact
    ensures uid !in Next(r, op, timeout).items <==> Drops(op, uid) && uid in r.doomed
  {
  }

  /** A visit collects a stored contact exactly when it is offline and all its signs of
      life are more than 24 hours old. */
  lemma {:induction false} ContactCollectedExactlyWhen(states: seq<RepoState>, ops: seq<Op>, timeout: int, uid: string,
                                                       n: nat)
    requires IsRun(states, ops, timeout) && InTimeOrder(ops) && n < |ops|
    requires uid in states[n].items && states[n].items[uid].class_ == Class.Contact
    ensures Collects(states[n].items, ops[n], uid)
       <==> && ops[n].Visit? && ops[n].uid == uid && !states[n].items[uid].online
            && forall i: nat :: i < n && Hears(states, ops, uid, i) ==> ops[n].now - ops[i].now > STALE_CONTACT_DELETE
  {
    var i := LastSeenIsNewest(states, ops, timeout, uid, n);
    HeardIsTimed(states, ops, uid, i);
    forall j: nat | j < n && Hears(states, ops, uid, j) ensures ops[j].now <= ops[i].now {
      HeardIsTimed(states, ops, uid, j);
      assert j <= i;
    }
  }

  /** An item that is not heard after k operations is then already what it is after n. */
  lemma {:induction false} SilentSince(states: seq<RepoState>, ops: seq<Op>, timeout: int, uid: string, n: nat, k: nat)
    requires IsRun(states, ops, timeout) && k <= n < |states| && uid in states[n].items
    requires forall j :: k <= j < n ==> !Hears(states, ops, uid, j)
    ensures uid in states[k].items && states[k].items[uid].lastSeen == states[n].items[uid].lastSeen
    ensures states[k].items[uid].class_ == states[n].items[uid].class_
  {
    if k < n {
      assert !Hears(states, ops, uid, n - 1);
      SeenNext(states, ops, timeout, uid, n - 1);
      SilentSince(states, ops, timeout, uid, n - 1, k);
    }
  }

  /** A contact that is about to be removed, collected by the visit at k, is lost although
      it was alive no more than 24 hours before that visit, or since, exactly when its
      newest sign of life came after the visit. */
  lemma {:induction false} LostAliveExactlyWhen(states: seq<RepoState>, ops: seq<Op>, timeout: int, uid: string, n: nat,
                                                k: nat, i: nat)
    requires IsRun(states, ops, timeout) && InTimeOrder(ops) && n < |states|
    requires uid in states[n].items && states[n].items[uid].class_ == Class.Contact
    requires CollectedAt(states, ops, uid, n, k) && LastHeard(states, ops, uid, n, i)
    ensures ops[k].now - ops[i].now <= STALE_CONTACT_DELETE <==> k < i
  {
    HeardIsTimed(states, ops, uid, i);
    assert TimedAt(ops, k);
    if i < k {
      SilentSince(states, ops, timeout, uid, n, k);
      var newest := LastSeenIsNewest(states, ops, timeout, uid, n);
      assert newest == i;
    }
  }

  /** The input for it: a contact that went offline, was collected a day later, and sent
      a message just before the removal. */
  function LateReturn(msg: CotMessage, t: int): seq<Op> {
    [Save(msg, t), Offline(msg.event.uid), Visit(msg.event.uid, t + STALE_CONTACT_DELETE + 1),
     Save(msg, t + STALE_CONTACT_DELETE + 1), Drop(msg.event.uid)]
  }

  function LateStates(msg: CotMessage, t: int, timeout: int): seq<RepoState> {
    var ops := LateReturn(msg, t);
    var r1 := Next(EMPTY, ops[0], timeout);
    var r2 := Next(r1, ops[1], timeout);
    var r3 := Next(r2, ops[2], timeout);
    var r4 := Next(r3, ops[3], timeout);
    [EMPTY, r1, r2, r3, r4, Next(r4, ops[4], timeout)]
  }

  lemma {:induction false} LateIsRun(msg: CotMessage, t: int, timeout: int)
    ensures IsRun(LateStates(msg, t, timeout), LateReturn(msg, t), timeout) && InTimeOrder(LateReturn(msg, t))
  {
    var states, ops := LateStates(msg, t, timeout), LateReturn(msg, t);
    forall i: nat | i < |ops| ensures Follows(states, ops, timeout, i) {
      assert i == 0 || i == 1 || i == 2 || i == 3 || i == 4;
    }
  }

  lemma {:induction false} FreshContactLost(msg: CotMessage, t: int, timeout: int)
    requires IsMapItem(msg) && GetClass(msg) == Class.Contact
    ensures IsRun(LateStates(msg, t, timeout), LateReturn(msg, t), timeout) && InTimeOrder(LateReturn(msg, t))
    ensures var states, uid := LateStates(msg, t, timeout), msg.event.uid;
            var v := states[4].items;
            && uid in v && v[uid].class_ == Class.Contact && v[uid].online
            && v[uid].lastSeen == t + STALE_CONTACT_DELETE + 1 && uid !in states[5].items
  {
    var states := LateStates(msg, t, timeout);
    assert msg.event.uid in states[3].doomed by {
      OfflineAfterSave(EMPTY, msg, t, timeout);
      CollectedWhenOffline(states[2], msg.event.uid, t + STALE_CONTACT_DELETE + 1, timeout);
    }
    BackWhenDoomed(states[3], msg, t + STALE_CONTACT_DELETE + 1, timeout);
    LateIsRun(msg, t, timeout);
  }

  lemma {:induction false} OfflineAfterSave(r: RepoState, msg: CotMessage, t: int, timeout: int)
    requires IsMapItem(msg) && GetClass(msg) == Class.Contact
    ensures var v, uid := Next(Next(r, Save(msg, t), timeout), Offline(msg.event.uid), timeout).items, msg.event.uid;
            uid in v && v[uid].class_ == Class.Contact && v[uid].lastSeen == t && !v[uid].online
  {
  }

  lemma {:induction false} CollectedWhenOffline(r: RepoState, uid: string, now: int, timeout: int)
    requires uid in r.items && r.items[uid].class_ == Class.Contact && !r.items[uid].online
    requires now - r.items[uid].lastSeen > STALE_CONTACT_DELETE
    ensures uid in Next(r, Visit(uid, now), timeout).doomed
  {
  }

  lemma {:induction false} BackWhenDoomed(r: RepoState, msg: CotMessage, now: int, timeout: int)
    requires IsMapItem(msg) && GetClass(msg) == Class.Contact && msg.event.uid in r.doomed
    ensures var r', uid := Next(r, Save(msg, now), timeout), msg.event.uid;
            && uid in r'.items && r'.items[uid].class_ == Class.Contact && r'.items[uid].online
            && r'.items[uid].lastSeen == now && uid !in Next(r', Drop(uid), timeout).items
  {
  }

  /** Whatever else happens, an item comes only with a message of its own, and a unit
      or point goes only by a message that names it or by the removal of a uid that a
      visit has collected. */
  lemma {:induction false} ItemsComeAndGo(r: RepoState, op: Op, timeout: int, uid: string)
    ensures uid !in r.items && uid in NextItems(r, op, timeout)
            <==> uid !in r.items && op.Save? && IsMapItem(op.msg) && op.msg.event.uid == uid
    ensures uid in r.items && (r.items[uid].class_ == Class.Unit || r.items[uid].class_ == Class.Point) ==>
              (uid !in NextItems(r, op, timeout)
               <==> (op.RemoveMsg? && uid != "" && UidToRemove(op.msg) == uid) ||
                    (Drops(op, uid) && uid in r.doomed))
  {
  }

  // ---- a pass that nothing interrupts ----

  predicate Distinct(uids: seq<string>) {
    forall i, j :: 0 <= i < j < |uids| ==> uids[i] != uids[j]
  }

  function Elements(uids: seq<string>): set<string> {
    set uid <- uids
  }

  lemma {:induction false} OneMore(uids: seq<string>, k: nat)
    requires Distinct(uids) && k < |uids|
    ensures uids[k] !in Elements(uids[..k]) && Elements(uids[..k + 1]) == Elements(uids[..k]) + {uids[k]}
    ensures uids[k] in Elements(uids)
  {
    assert uids[..k + 1] == uids[..k] + [uids[k]];
  }

  /** The operations from a on visit these uids, or remove them, one after the other. */
  predicate VisitsFrom(ops: seq<Op>, a: nat, uids: seq<string>, now: int) {
    a + |uids| <= |ops| && forall i :: 0 <= i < |uids| ==> IsVisit(ops[a + i], uids[i], now)
  }

  predicate IsVisit(op: Op, uid: string, now: int) {
    op.Visit? && op.uid == uid && op.now == now
  }

  predicate DropsFrom(ops: seq<Op>, a: nat, uids: seq<string>) {
    a + |uids| <= |ops| && forall i :: 0 <= i < |uids| ==> Drops(ops[a + i], uids[i])
  }

  ghost predicate Underway(r: RepoState, v: map<string, ItemState>, done: set<string>, now: int, timeout: int) {
    r.items.Keys == v.Keys && forall uid <- v :: UnderwayAt(r, v, done, now, timeout, uid)
  }

  ghost predicate UnderwayAt(r: RepoState, v: map<string, ItemState>, done: set<string>, now: int, timeout: int,
                             uid: string)
    requires r.items.Keys == v.Keys && uid in v
  {
    && r.items[uid] == (if uid in done then Faded(v[uid], now, timeout) else v[uid])
    && (uid in r.doomed <==> uid in done && Gone(v[uid], now))
  }

  lemma {:induction false} VisitStep(r: RepoState, v: map<string, ItemState>, done: set<string>, op: Op, now: int,
                                     timeout: int)
    requires Underway(r, v, done, now, timeout) && op.Visit? && op.now == now && op.uid in v && op.uid !in done
    ensures Underway(Next(r, op, timeout), v, done + {op.uid}, now, timeout)
  {
    var r' := Next(r, op, timeout);
    assert UnderwayAt(r, v, done, now, timeout, op.uid);
    forall uid | uid in v ensures UnderwayAt(r', v, done + {op.uid}, now, timeout, uid) {
      assert UnderwayAt(r, v, done, now, timeout, uid);
    }
  }

  lemma {:induction false} AllVisited(r: RepoState, v: map<string, ItemState>, done: set<string>, gone: seq<string>,
                                      now: int, timeout: int)
    requires Underway(r, v, done, now, timeout) && v.Keys == done && r.doomed == Elements(gone)
    requires forall uid :: uid in r.doomed ==> uid in v
    ensures r.items == Halfway(v, {}, now, timeout) && Collected(gone, v, {}, now)
  {
    forall uid | uid in v
      ensures r.items[uid] == Halfway(v, {}, now, timeout)[uid] && (uid in gone <==> Gone(v[uid], now))
    {
      assert UnderwayAt(r, v, done, now, timeout, uid);
    }
  }

  lemma {:induction false} VisitsHalfway(states: seq<RepoState>, ops: seq<Op>, timeout: int, a: nat, uids: seq<string>,
                                         k: nat, now: int)
    requires IsRun(states, ops, timeout) && VisitsFrom(ops, a, uids, now) && k <= |uids|
    requires states[a].doomed == {} && Distinct(uids) && Elements(uids) == states[a].items.Keys
    ensures Underway(states[a + k], states[a].items, Elements(uids[..k]), now, timeout)
    ensures states[a + k].doomed <= states[a].items.Keys
  {
    var v := states[a].items;
    if k == 0 {
      NoneVisited(states[a], now, timeout);
      assert Elements(uids[..0]) == {};
    } else {
      VisitsHalfway(states, ops, timeout, a, uids, k - 1, now);
      OneMore(uids, k - 1);
      VisitNext(states, ops, timeout, a, uids, k - 1, now, v, Elements(uids[..k - 1]));
    }
  }

  lemma {:induction false} VisitNext(states: seq<RepoState>, ops: seq<Op>, timeout: int, a: nat, uids: seq<string>,
                                     k: nat, now: int, v: map<string, ItemState>, done: set<string>)
    requires IsRun(states, ops, timeout) && VisitsFrom(ops, a, uids, now) && k < |uids|
    requires Underway(states[a + k], v, done, now, timeout) && uids[k] in v && uids[k] !in done
    requires states[a + k].doomed <= v.Keys
    ensures Underway(states[a + k + 1], v, done + {uids[k]}, now, timeout) && states[a + k + 1].doomed <= v.Keys
  {
    assert IsVisit(ops[a + k], uids[k], now) && Follows(states, ops, timeout, a + k);
    VisitStep(states[a + k], v, done, ops[a + k], now, timeout);
  }

  lemma {:induction false} NoneVisited(r: RepoState, now: int, timeout: int)
    requires r.doomed == {}
    ensures Underway(r, r.items, {}, now, timeout)
  {
    forall uid | uid in r.items ensures UnderwayAt(r, r.items, {}, now, timeout, uid) {
    }
  }

  ghost predicate Sparing(r: RepoState, v: map<string, ItemState>, uids: seq<string>, k: nat)
    requires k <= |uids|
  {
    r.items == Spared(v, uids[..k]) && r.doomed == Elements(uids) - Elements(uids[..k])
  }

  lemma {:induction false} DropStep(r: RepoState, v: map<string, ItemState>, uids: seq<string>, k: nat, op: Op,
                                    timeout: int)
    requires Distinct(uids) && k < |uids| && Sparing(r, v, uids, k) && Drops(op, uids[k])
    ensures Sparing(Next(r, op, timeout), v, uids, k + 1)
  {
    OneMore(uids, k);
    assert forall uid :: uid in uids[..k + 1] <==> uid in uids[..k] || uid == uids[k];
    assert uids[k] in r.doomed;
    assert Spared(v, uids[..k + 1]) == Spared(v, uids[..k]) - {uids[k]};
  }

  lemma {:induction false} DropsSpare(states: seq<RepoState>, ops: seq<Op>, timeout: int, a: nat, uids: seq<string>,
                                      k: nat)
    requires IsRun(states, ops, timeout) && DropsFrom(ops, a, uids) && k <= |uids|
    requires states[a].doomed == Elements(uids) && Distinct(uids)
    ensures Sparing(states[a + k], states[a].items, uids, k)
  {
    if k == 0 {
      assert Spared(states[a].items, uids[..0]) == states[a].items;
    } else {
      DropsSpare(states, ops, timeout, a, uids, k - 1);
      assert Drops(ops[a + (k - 1)], uids[k - 1]);
      assert Follows(states, ops, timeout, a + (k - 1));
      DropStep(states[a + (k - 1)], states[a].items, uids, k - 1, ops[a + (k - 1)], timeout);
    }
  }

  /** With nothing in between, the visits to all items and the removals, each in any
      order, do what the method CleanOldUnits does. */
  lemma {:induction false} UninterruptedPass(states: seq<RepoState>, ops: seq<Op>, timeout: int, a: nat, now: int,
                                             uids: seq<string>, gone: seq<string>)
    requires IsRun(states, ops, timeout) && VisitsFrom(ops, a, uids, now) && DropsFrom(ops, a + |uids|, gone)
    requires states[a].doomed == {} && Distinct(uids) && Elements(uids) == states[a].items.Keys
    requires states[a + |uids|].doomed == Elements(gone) && Distinct(gone)
    ensures var r := states[a + |uids| + |gone|];
            r.items == Cleaned(states[a].items, now, timeout) && r.doomed == {}
  {
    var v := states[a].items;
    VisitsHalfway(states, ops, timeout, a, uids, |uids|, now);
    assert uids[..|uids|] == uids;
    AllVisited(states[a + |uids|], v, Elements(uids), gone, now, timeout);
    DropsSpare(states, ops, timeout, a + |uids|, gone, |gone|);
    assert gone[..|gone|] == gone;
    CleanedIs(v, gone, now, timeout);
  }
}

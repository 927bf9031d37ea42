/** The server's state as a whole (cmd/goatak_server/main.go): what routing a message
    does to the missions it names, whom it tells, and what a closed connection leaves. */
module Server {
  import opened Wrappers
  import opened XmlNode
  import opened CotMessages
  import opened ClientHandler
  import opened Routing
  import opened MissionSync
  import Items
  import Numbers

  /** A row of the missions table. */
  datatype MissionRow = MissionRow(id: nat, name: string, scope: string)

  /** The row passes a query for a scope and a name; scope "*" is no filter. */
  predicate IsMission(m: MissionRow, name: string, scope: string) {
    m.name == name && (scope == "*" || m.scope == scope)
  }

  /** A row of the subscriptions table. */
  datatype Subscription = Subscription(missionId: nat, clientUid: string)

  /** A logged change, the uids it is sent to, and the message that tells it. */
  datatype News = News(row: MissionRow, change: Change, to: seq<string>, msg: CotMessage)

  // ---- subscribers ----

  /** The subscribers of a mission, in the order of the table. */
  function AllSubscribers(subs: seq<Subscription>, id: nat): seq<string> {
    if subs == [] then []
    else
      var rest := AllSubscribers(subs[1..], id);
      if id == 0 || subs[0].missionId == id then [subs[0].clientUid] + rest else rest
  }

  /** The query has the limit that every query has. */
  function FirstSubscribers(subs: seq<Subscription>, id: nat): seq<string> {
    var all := AllSubscribers(subs, id);
    if |all| > LIMIT then all[..LIMIT] else all
  }

  // ---- the notification ----

  const LOCAL_FROM := "local"

  function TypeName(t: ChangeType): string {
    match t
    case AddContent => "ADD_CONTENT"
    case RemoveContent => "REMOVE_CONTENT"
    case CreateMission => "CREATE_MISSION"
  }

  function Leaf(name: string, text: string): Node {
    Node(name, [], text, [])
  }

  /** The time in seconds, as a decimal number. */
  function Seconds(t: Time): string {
    if t < 0 then "-" + Numbers.Itoa(-(t / SECOND)) else Numbers.Itoa(t / SECOND)
  }

  function ChangeNode(name: string, c: Change, ord: Order): Node
    requires IsOrder(ord)
  {
    var params := map["type" := "CHANGE", "name" := name];
    var leaves := [Leaf("contentUid", c.contentUid), Leaf("type", TypeName(c.typ)), Leaf("isFederatedChange", "false"),
                   Leaf("missionName", name), Leaf("timestamp", Seconds(c.createdAt))];
    Node("mission", AttrsOf(params, ord(params), false), "",
         [Node("MissionChanges", [], "", [Node("MissionChange", [], "", leaves)])])
  }

  /** MissionChangeNotificationMsg. */
  function Notification(row: MissionRow, c: Change, id: string, now: Time, ord: Order): CotMessage
    requires IsOrder(ord)
  {
    var nodes := [ChangeNode(row.name, c, ord)];
    var event := BasicMsg("t-x-m-c", id, 5 * SECOND, "h-g-i-g-o", now).(
      detail := Some(Detail(XmlText("", nodes), None, None, None, None, None, None)));
    CotMessage(LOCAL_FROM, row.scope, event, Some(Node("detail", [], "", nodes)))
  }

  // ---- the handlers after the news ----

  function Informed(hs: map<string, Peer>, news: seq<News>): map<string, Peer> {
    if news == [] then hs
    else SentToUids(Informed(hs, news[..|news| - 1]), news[|news| - 1].to, news[|news| - 1].msg)
  }

  /** The copies of one piece of news that a handler is offered. */
  function NewsCopies(p: Peer, w: News): nat {
    if Sees(p, w.msg) then UidHits(p, w.to) else 0
  }

  function WithNews(p: Peer, news: seq<News>): Peer {
    if news == [] then p
    else
      var w := news[|news| - 1];
      WithCopies(WithNews(p, news[..|news| - 1]), w.msg, NewsCopies(p, w))
  }

  lemma {:induction false} SamePeer(p: Peer, news: seq<News>)
    ensures WithNews(p, news).uids == p.uids && WithNews(p, news).device == p.device
  {
    if news != [] {
      SamePeer(p, news[..|news| - 1]);
    }
  }

  /** Each handler is offered the news in order, every piece once for each of the
      subscribers told that is a contact of its, if it sees the mission's scope. */
  lemma {:induction false} InformedEach(hs: map<string, Peer>, news: seq<News>, n: string)
    requires n in hs
    ensures n in Informed(hs, news) && Informed(hs, news)[n] == WithNews(hs[n], news)
  {
    if news != [] {
      var init, w := news[..|news| - 1], news[|news| - 1];
      InformedEach(hs, init, n);
      SamePeer(hs[n], init);
      UidCopies(Informed(hs, init), w.to, w.msg, n);
      SameHits(hs[n], WithNews(hs[n], init), w.to);
    }
  }

  lemma {:induction false} InformedKeys(hs: map<string, Peer>, news: seq<News>)
    ensures Informed(hs, news).Keys == hs.Keys
  {
    if news != [] {
      InformedKeys(hs, news[..|news| - 1]);
      UidKeys(Informed(hs, news[..|news| - 1]), news[|news| - 1].to, news[|news| - 1].msg);
    }
  }

  /** A handler is told exactly if it sees the mission's scope and one of the first 100
      subscribers is a contact of its. */
  lemma {:induction false} ToldExactlyWhen(p: Peer, w: News)
    ensures NewsCopies(p, w) > 0 <==> Sees(p, w.msg) && exists uid <- w.to :: HasUid(p, uid)
  {
    UidHitsPositive(p, w.to);
  }

  /** Every handler that has a subscriber and sees the scope is told exactly if the mission
      has no more subscribers than the limit of the query. */
  lemma {:induction false} AllToldExactlyWhen(subs: seq<Subscription>, w: News)
    requires w.to == FirstSubscribers(subs, w.row.id) && Items.Distinct(AllSubscribers(subs, w.row.id))
    ensures (forall p: Peer | Sees(p, w.msg) && HasOneOf(p, AllSubscribers(subs, w.row.id)) :: NewsCopies(p, w) > 0)
       <==> |AllSubscribers(subs, w.row.id)| <= LIMIT
  {
    var all := AllSubscribers(subs, w.row.id);
    if |all| > LIMIT {
      var p := Peer(map[all[LIMIT] := ""], Some(Device(w.msg.scope, [])), []);
      assert HasUid(p, all[LIMIT]) && all[LIMIT] in all;
      assert Sees(p, w.msg) && HasOneOf(p, all);
      ToldExactlyWhen(p, w);
    } else {
      forall p: Peer | Sees(p, w.msg) && HasOneOf(p, all) ensures NewsCopies(p, w) > 0 {
        ToldExactlyWhen(p, w);
      }
    }
  }

  predicate HasOneOf(p: Peer, uids: seq<string>) {
    exists uid <- uids :: HasUid(p, uid)
  }

  function ChangesOf(news: seq<News>): (r: seq<Change>)
    ensures |r| == |news| && forall i :: 0 <= i < |r| ==> r[i] == news[i].change
  {
    seq(|news|, i requires 0 <= i < |news| => news[i].change)
  }

  // ---- what the mission calls do to the tables ----

  /** processMissionPoint on the mission found, if any; `row` is the point that an
      addition writes, and `noRow` says that there is none to write. */
  function Called(t: Tables, found: Option<MissionRow>, row: string, msg: CotMessage, noRow: bool, now: Time): Tables {
    if found.None? then t
    else
      var id := found.value.id;
      var loaded := Members(t.points, id);
      if msg.event.typ == "t-x-d-d" then PointDeleted(t, id, loaded, GetParent(msg), "", now)
      else if noRow then t
      else PointAdded(t, id, loaded, msg.event.uid, row, GetParent(msg), now)
  }

  function CalledAll(t: Tables, found: seq<Option<MissionRow>>, rows: seq<string>, msg: CotMessage, noRow: bool,
                     now: nat -> Time): Tables
    requires |found| == |rows|
  {
    if found == [] then t
    else
      var n := |found| - 1;
      Called(CalledAll(t, found[..n], rows[..n], msg, noRow, now), found[n], rows[n], msg, noRow, now(n))
  }

  /** A message with a uid, routed to any missions, keeps the contents of every mission
      what its log says. */
  lemma {:induction false} RoutingKeepsInSync(t: Tables, found: seq<Option<MissionRow>>, rows: seq<string>,
                                              msg: CotMessage, now: nat -> Time)
    requires |found| == |rows| && msg.event.uid != "" && forall row <- rows :: row == msg.event.uid
    requires InSync(t.points, t.log, Points) && InSync(t.files, t.log, Files)
    requires forall p <- t.points :: p.1 != ""
    ensures var after := CalledAll(t, found, rows, msg, false, now);
            && InSync(after.points, after.log, Points) && InSync(after.files, after.log, Files)
            && forall p <- after.points :: p.1 != ""
  {
    if found != [] {
      var n := |found| - 1;
      assert rows[n] in rows && forall row <- rows[..n] :: row in rows;
      RoutingKeepsInSync(t, found[..n], rows[..n], msg, now);
      CallKeepsInSync(CalledAll(t, found[..n], rows[..n], msg, false, now), found[n], rows[n], msg, now(n));
    }
  }

  lemma {:induction false} CallKeepsInSync(t: Tables, found: Option<MissionRow>, row: string, msg: CotMessage,
                                           now: Time)
    requires msg.event.uid != "" && row == msg.event.uid
    requires InSync(t.points, t.log, Points) && InSync(t.files, t.log, Files)
    requires forall p <- t.points :: p.1 != ""
    ensures var after := Called(t, found, row, msg, false, now);
            && InSync(after.points, after.log, Points) && InSync(after.files, after.log, Files)
            && forall p <- after.points :: p.1 != ""
  {
    var after := Called(t, found, row, msg, false, now);
    if after != t {
      var c := after.log[|t.log|];
      var loaded := Members(t.points, found.value.id);
      assert after.log == t.log + [c];
      OtherKindKeeps(t.files, t.log, Files, c);
      if msg.event.typ == "t-x-d-d" {
        DeleteKeeps(t.points, t.log, Points, c);
      } else {
        assert forall k <- loaded :: (found.value.id, k) in t.points;
        AppendKeepsExactlyWhen(t.points, t.log, Points, loaded, c);
      }
    }
  }

  // ---- what was found and what is told ----

  /** The rows that routing reads: any number of missions and subscriptions. */
  datatype Catalog = Catalog(missions: set<MissionRow>, subscriptions: seq<Subscription>)

  /** The mission, or that there is none, for a name and a scope. */
  ghost predicate Found(found: Option<MissionRow>, c: Catalog, name: string, scope: string) {
    if found.Some? then found.value in c.missions && IsMission(found.value, name, scope)
    else forall m <- c.missions :: !IsMission(m, name, scope)
  }

  ghost predicate Finds(found: seq<Option<MissionRow>>, c: Catalog, names: seq<string>, scope: string)
    requires |found| == |names|
  {
    forall i :: 0 <= i < |found| ==> Found(found[i], c, names[i], scope)
  }

  ghost predicate IsNews(w: News, c: Catalog, name: string, scope: string, id: string, now: Time, ord: Order)
    requires IsOrder(ord)
  {
    && w.row in c.missions && IsMission(w.row, name, scope)
    && w.change.missionId == w.row.id
    && w.to == FirstSubscribers(c.subscriptions, w.row.id)
    && w.msg == Notification(w.row, w.change, id, now, ord)
  }

  ghost predicate Tells(w: News, c: Catalog, names: seq<string>, scope: string, id: nat -> string, now: nat -> Time,
                        ord: Order)
    requires IsOrder(ord)
  {
    exists i :: 0 <= i < |names| && IsNews(w, c, names[i], scope, id(i), now(i), ord)
  }

  /** What the call on one named mission did: to the tables, which is at most one change
      logged, and to the handlers, which are told of that change and nothing else. */
  ghost predicate Processed(e: Effect, c: Catalog, name: string, msg: CotMessage, noRow: bool, id: string, now: Time,
                            ord: Order, t: Tables, hs: map<string, Peer>, after: Tables, told: map<string, Peer>)
    requires IsOrder(ord)
  {
    && Found(e.found, c, name, msg.scope)
    && (msg.event.uid != "" ==> e.row == msg.event.uid)
    && after == Called(t, e.found, e.row, msg, noRow, now)
    && after.log == t.log + ChangesOf(e.news) && |e.news| <= 1
    && (forall w <- e.news :: IsNews(w, c, name, msg.scope, id, now, ord))
    && told == Informed(hs, e.news)
  }

  /** The mission found, the uid of the row that an addition writes, and the news. */
  datatype Effect = Effect(found: Option<MissionRow>, row: string, news: seq<News>)

  datatype Effects = Effects(found: seq<Option<MissionRow>>, rows: seq<string>, news: seq<News>)

  const NO_EFFECTS := Effects([], [], [])

  function Also(es: Effects, e: Effect): Effects {
    Effects(es.found + [e.found], es.rows + [e.row], es.news + e.news)
  }

  /** What the calls on all the named missions did: everything logged is told, in order,
      and nothing else is. */
  ghost predicate AllProcessed(es: Effects, c: Catalog, names: seq<string>, msg: CotMessage, noRow: bool,
                               id: nat -> string, now: nat -> Time, ord: Order,
                               t: Tables, hs: map<string, Peer>, after: Tables, told: map<string, Peer>)
    requires IsOrder(ord)
  {
    && |es.found| == |es.rows| == |names| && Finds(es.found, c, names, msg.scope)
    && (msg.event.uid != "" ==> forall row <- es.rows :: row == msg.event.uid)
    && after == CalledAll(t, es.found, es.rows, msg, noRow, now)
    && after.log == t.log + ChangesOf(es.news)
    && (forall w <- es.news :: Tells(w, c, names, msg.scope, id, now, ord))
    && told == Informed(hs, es.news)
  }

  lemma {:induction false} OneMoreProcessed(es: Effects, e: Effect, c: Catalog, names: seq<string>, msg: CotMessage,
                                            noRow: bool, id: nat -> string, now: nat -> Time, ord: Order,
                                            t: Tables, hs: map<string, Peer>, t1: Tables, hs1: map<string, Peer>,
                                            after: Tables, told: map<string, Peer>)
    requires IsOrder(ord) && names != []
    requires var n := |names| - 1;
             && AllProcessed(es, c, names[..n], msg, noRow, id, now, ord, t, hs, t1, hs1)
             && Processed(e, c, names[n], msg, noRow, id(n), now(n), ord, t1, hs1, after, told)
    ensures AllProcessed(Also(es, e), c, names, msg, noRow, id, now, ord, t, hs, after, told)
  {
    var n := |names| - 1;
    FindsMore(es.found, e.found, c, names, msg.scope);
    CalledMore(t, es.found, es.rows, e.found, e.row, msg, noRow, now);
    LogMore(t.log, es.news, e.news);
    InformedMore(hs, es.news, e.news);
    TellsMore(es.news, e.news, c, names, msg.scope, id, now, ord);
  }

  lemma {:induction false} FindsMore(found: seq<Option<MissionRow>>, f: Option<MissionRow>, c: Catalog,
                                     names: seq<string>, scope: string)
    requires |names| == |found| + 1 && Finds(found, c, names[..|found|], scope) && Found(f, c, names[|found|], scope)
    ensures Finds(found + [f], c, names, scope)
  {
  }

  lemma {:induction false} CalledMore(t: Tables, found: seq<Option<MissionRow>>, rows: seq<string>,
                                      f: Option<MissionRow>, row: string, msg: CotMessage, noRow: bool,
                                      now: nat -> Time)
    requires |found| == |rows|
    ensures CalledAll(t, found + [f], rows + [row], msg, noRow, now)
         == Called(CalledAll(t, found, rows, msg, noRow, now), f, row, msg, noRow, now(|found|))
  {
    assert (found + [f])[..|found|] == found && (rows + [row])[..|found|] == rows;
  }

  lemma {:induction false} LogMore(log: seq<Change>, news: seq<News>, more: seq<News>)
    ensures log + ChangesOf(news) + ChangesOf(more) == log + ChangesOf(news + more)
  {
    assert ChangesOf(news + more) == ChangesOf(news) + ChangesOf(more);
  }

  lemma {:induction false} TellsMore(news: seq<News>, more: seq<News>, c: Catalog, names: seq<string>, scope: string,
                                     id: nat -> string, now: nat -> Time, ord: Order)
    requires IsOrder(ord) && names != []
    requires var n := |names| - 1;
             && (forall w <- news :: Tells(w, c, names[..n], scope, id, now, ord))
             && (forall w <- more :: IsNews(w, c, names[n], scope, id(n), now(n), ord))
    ensures forall w <- news + more :: Tells(w, c, names, scope, id, now, ord)
  {
  }

  // ---- the application ----

  class App {
    const router: Router
    const dbm: DatabaseManager
    const items: Items.ItemsRepo
    var catalog: Catalog

    constructor (router: Router, dbm: DatabaseManager, items: Items.ItemsRepo, catalog: Catalog)
      ensures this.router == router && this.dbm == dbm && this.items == items && this.catalog == catalog
    {
      this.router, this.dbm, this.items, this.catalog := router, dbm, items, catalog;
    }

    /** MissionQuery with a scope and a name: any row that passes. */
    method FindMission(scope: string, name: string) returns (found: Option<MissionRow>)
      ensures Found(found, catalog, name, scope)
    {
      if m :| m in catalog.missions && IsMission(m, name, scope) {
        return Some(m);
      }
      return None;
    }

    /** A subscription query for one mission, with the limit of 100. */
    method GetSubscribers(missionId: nat) returns (res: seq<string>)
      ensures res == FirstSubscribers(catalog.subscriptions, missionId)
    {
      var subscriptions := catalog.subscriptions;
      ghost var all := AllSubscribers(subscriptions, missionId);
      res := [];
      var i := 0;
      while i < |subscriptions| && |res| < LIMIT
        invariant 0 <= i <= |subscriptions| && |res| <= LIMIT
        invariant res + AllSubscribers(subscriptions[i..], missionId) == all
      {
        assert subscriptions[i..][1..] == subscriptions[i + 1..];
        var s := subscriptions[i];
        if missionId == 0 || s.missionId == missionId {
          assert res + ([s.clientUid] + AllSubscribers(subscriptions[i + 1..], missionId))
              == res + [s.clientUid] + AllSubscribers(subscriptions[i + 1..], missionId);
          res := res + [s.clientUid];
        }
        i := i + 1;
      }
    }

    /** processMissionPoint: the call on the mission with that name in the scope of the
        message, if there is one; what it logs, and only that, is told to the subscribers. */
    method ProcessMissionPoint(name: string, msg: CotMessage, id: string, now: Time, ord: Order)
      returns (ghost e: Effect)
      requires dbm.Valid() && IsOrder(ord)
      modifies router`handlers, dbm
      ensures dbm.Valid()
      ensures Processed(e, catalog, name, msg, NoRow(old(dbm.points), msg), id, now, ord,
                        old(dbm.View()), old(router.handlers), dbm.View(), router.handlers)
      ensures e.news == [] <==> dbm.View() == old(dbm.View())
      ensures NoRow(dbm.points, msg) == NoRow(old(dbm.points), msg)
    {
      var mission := FindMission(msg.scope, name);
      e := Effect(mission, msg.event.uid, []);
      if mission.None? { return; }
      var change, row := dbm.ProcessMissionPoint(mission.value.id, mission.value.scope, msg, now);
      e := Effect(mission, row, []);
      if change.Some? {
        ghost var news := NotifyMissionSubscribers(mission.value, change.value, id, now, ord);
        e := Effect(mission, row, news);
      }
    }

    /** notifyMissionSubscribers. */
    method NotifyMissionSubscribers(mission: MissionRow, c: Change, id: string, now: Time, ord: Order)
      returns (ghost news: seq<News>)
      requires IsOrder(ord)
      modifies router`handlers
      ensures news == [News(mission, c, FirstSubscribers(catalog.subscriptions, mission.id),
                            Notification(mission, c, id, now, ord))]
      ensures router.handlers == Informed(old(router.handlers), news)
    {
      var msg := Notification(mission, c, id, now, ord);
      var uids := GetSubscribers(mission.id);
      router.SendToUidsLoop(uids, msg);
      news := [News(mission, c, uids, msg)];
      assert Informed(old(router.handlers), news[..0]) == old(router.handlers);
    }

    /** The loop of route over the missions that a message names. */
    method ProcessMissions(names: seq<string>, msg: CotMessage, id: nat -> string, now: nat -> Time, ord: Order)
      returns (ghost es: Effects)
      requires dbm.Valid() && IsOrder(ord)
      modifies router`handlers, dbm
      ensures dbm.Valid()
      ensures AllProcessed(es, catalog, names, msg, NoRow(old(dbm.points), msg), id, now, ord,
                           old(dbm.View()), old(router.handlers), dbm.View(), router.handlers)
    {
      es := NO_EFFECTS;
      ghost var noRow := NoRow(dbm.points, msg);
      var i := 0;
      while i < |names|
        invariant 0 <= i <= |names| && dbm.Valid() && NoRow(dbm.points, msg) == noRow
        invariant AllProcessed(es, catalog, names[..i], msg, noRow, id, now, ord,
                               old(dbm.View()), old(router.handlers), dbm.View(), router.handlers)
      {
        ghost var t, hs := dbm.View(), router.handlers;
        ghost var e := ProcessMissionPoint(names[i], msg, id(i), now(i), ord);
        assert names[..i + 1][..i] == names[..i];
        OneMoreProcessed(es, e, catalog, names[..i + 1], msg, noRow, id, now, ord, old(dbm.View()),
                         old(router.handlers), t, hs, dbm.View(), router.handlers);
        es := Also(es, e);
        i := i + 1;
      }
      assert names[..i] == names;
    }

    /** route: what the calls on the named missions log is told, each change once, and
        nothing else is; and each handler is offered exactly the number of copies that
        Copies gives. */
    method Route(msg: CotMessage, id: nat -> string, now: nat -> Time, ord: Order)
      returns (ok: bool, ghost es: Effects)
      requires dbm.Valid() && IsOrder(ord)
      modifies router`handlers, dbm
      ensures ok && dbm.Valid()
      ensures AllProcessed(es, catalog, Missions(msg), msg, NoRow(old(dbm.points), msg), id, now, ord,
                           old(dbm.View()), old(router.handlers), dbm.View(), Informed(old(router.handlers), es.news))
      ensures router.handlers.Keys == old(router.handlers).Keys
      ensures forall n <- old(router.handlers) ::
                var p := old(router.handlers)[n];
                router.handlers[n] == WithNews(WithCopies(p, msg, Copies(p, n, msg)), es.news)
    {
      ghost var hs := router.handlers;
      var missions := Missions(msg);
      if |missions| > 0 {
        es := ProcessMissions(missions, msg, id, now, ord);
        AllInformed(hs, es.news, msg);
        return true, es;
      }
      es := NO_EFFECTS;
      RoutedKeys(hs, msg);
      forall n <- hs {
        RoutedCopies(hs, msg, n);
      }
      router.Deliver(msg);
      return true, es;
    }

    method AllGone(uids: seq<string>, name: string, scope: string, ord: Order, now: Time, id: nat -> string)
      requires IsOrder(ord) && items.Valid()
      modifies router`ch, router`generated, items.items.Values
      ensures items.Valid() && items.View() == MarkedEach(old(items.View()), uids)
      ensures router.generated == old(router.generated) + OfflineMsgs(uids, name, scope, ord, now, id)
    {
      ghost var v, g := items.View(), router.generated;
      var i := 0;
      while i < |uids|
        invariant 0 <= i <= |uids| && items.Valid() && items.items == old(items.items)
        invariant AreGone(v, g, uids[..i], name, scope, ord, now, id, items.View(), router.generated)
      {
        GoneMore(v, g, uids, i, name, scope, ord, now, id, items.View(), router.generated);
        UidGone(uids[i], name, scope, ord, now, id(i));
        i := i + 1;
      }
      assert uids[..i] == uids;
    }

    method UidGone(uid: string, name: string, scope: string, ord: Order, now: Time, id: string)
      requires IsOrder(ord) && items.Valid()
      modifies router`ch, router`generated, items.items.Values
      ensures items.Valid() && router.handlers == old(router.handlers)
      ensures items.View() == Items.Marked(old(items.View()), uid)
      ensures router.generated == old(router.generated)
                                  + [CotMessage(name, scope, OfflineEvent(uid, ord, now, id), None)]
    {
      items.MarkOffline(uid);
      var event := MakeOfflineMsg(uid, ord, now, id);
      router.NewCotMessage(CotMessage(name, scope, event, None));
    }

    /** RemoveHandlerCb: the handler goes, and for each uid still registered on it the item
        is marked offline and one offline message, with an id of its own, is generated. */
    method RemoveHandlerCb(name: string, uids: map<string, string>, device: Option<Device>, ord: Order, now: Time,
                           id: nat -> string)
      returns (ghost visited: seq<string>)
      requires IsOrder(ord) && items.Valid()
      modifies router, items.items.Values
      ensures items.Valid() && items.View() == MarkedOffline(old(items.View()), uids.Keys)
      ensures router.handlers == old(router.handlers) - {name}
      ensures Visits(visited, uids)
      ensures router.generated == old(router.generated) + OfflineMsgs(visited, name, ScopeOf(device), ord, now, id)
    {
      router.RemoveClientHandler(name);
      var keys := ord(uids);
      visited := keys;
      assert Visits(keys, uids);
      assert MarkedEach(items.View(), keys) == MarkedOffline(items.View(), uids.Keys) by {
        assert Items.Elements(keys) == uids.Keys;
        MarkedEachIs(items.View(), keys);
      }
      AllGone(keys, name, ScopeOf(device), ord, now, id);
    }
  }

  /** A message without a uid, and no point at all that a query without a filter finds. */
  ghost predicate NoRow(points: map<string, Point>, msg: CotMessage) {
    msg.event.uid == "" && points.Keys == {}
  }

  lemma {:induction false} AllInformed(hs: map<string, Peer>, news: seq<News>, msg: CotMessage)
    requires Missions(msg) != []
    ensures Informed(hs, news).Keys == hs.Keys
    ensures forall n <- hs :: Informed(hs, news)[n] == WithNews(WithCopies(hs[n], msg, Copies(hs[n], n, msg)), news)
  {
    InformedKeys(hs, news);
    forall n | n in hs ensures Informed(hs, news)[n] == WithNews(WithCopies(hs[n], msg, Copies(hs[n], n, msg)), news) {
      InformedEach(hs, news, n);
      OfferedOnce(hs[n], msg, 0);
    }
  }

  lemma {:induction false} InformedMore(hs: map<string, Peer>, news: seq<News>, more: seq<News>)
    requires |more| <= 1
    ensures Informed(hs, news + more) == Informed(Informed(hs, news), more)
  {
    if more == [] {
      assert news + more == news;
    } else {
      assert (news + more)[..|news|] == news;
      assert more[..0] == [];
    }
  }

  // ---- disconnects ----

  function MarkedOffline(v: map<string, Items.ItemState>, uids: set<string>): map<string, Items.ItemState> {
    map uid | uid in v :: if uid in uids then v[uid].(online := false) else v[uid]
  }

  lemma {:induction false} OfflineAppended(sent: seq<CotMessage>, uids: seq<string>, i: nat, name: string,
                                           scope: string, ord: Order, now: Time, id: nat -> string)
    requires IsOrder(ord) && i < |uids|
    ensures sent + OfflineMsgs(uids[..i], name, scope, ord, now, id)
            + [CotMessage(name, scope, OfflineEvent(uids[i], ord, now, id(i)), None)]
         == sent + OfflineMsgs(uids[..i + 1], name, scope, ord, now, id)
  {
    OneMoreOffline(uids, i, name, scope, ord, now, id);
  }

  ghost predicate AreGone(v: map<string, Items.ItemState>, sent: seq<CotMessage>, uids: seq<string>, name: string,
                          scope: string, ord: Order, now: Time, id: nat -> string,
                          v': map<string, Items.ItemState>, sent': seq<CotMessage>)
    requires IsOrder(ord)
  {
    v' == MarkedEach(v, uids) && sent' == sent + OfflineMsgs(uids, name, scope, ord, now, id)
  }

  lemma {:induction false} GoneMore(v: map<string, Items.ItemState>, sent: seq<CotMessage>, uids: seq<string>, i: nat,
                                    name: string, scope: string, ord: Order, now: Time, id: nat -> string,
                                    v': map<string, Items.ItemState>, sent': seq<CotMessage>)
    requires IsOrder(ord) && i < |uids| && AreGone(v, sent, uids[..i], name, scope, ord, now, id, v', sent')
    ensures AreGone(v, sent, uids[..i + 1], name, scope, ord, now, id, Items.Marked(v', uids[i]),
                    sent' + [CotMessage(name, scope, OfflineEvent(uids[i], ord, now, id(i)), None)])
  {
    assert uids[..i + 1][..i] == uids[..i];
    OfflineAppended(sent, uids, i, name, scope, ord, now, id);
  }

  function MarkedEach(v: map<string, Items.ItemState>, uids: seq<string>): map<string, Items.ItemState> {
    if uids == [] then v else Items.Marked(MarkedEach(v, uids[..|uids| - 1]), uids[|uids| - 1])
  }

  lemma {:induction false} MarkedEachIs(v: map<string, Items.ItemState>, uids: seq<string>)
    ensures MarkedEach(v, uids) == MarkedOffline(v, Items.Elements(uids))
  {
    if uids != [] {
      var init := uids[..|uids| - 1];
      MarkedEachIs(v, init);
      assert uids == init + [uids[|uids| - 1]];
    }
  }
}

/** Mission data-sync (internal/database/manager.go, change_query.go): the join
    tables of missions with points and with files, and the change log beside
    them. Each call of the database manager is one step. */
module MissionSync {
  import opened Wrappers
  import opened CotMessages

  datatype ChangeType = AddContent | RemoveContent | CreateMission

  datatype Change = Change(createdAt: int, typ: ChangeType, missionId: nat, creatorUid: string,
                           contentUid: string, contentHash: string)

  /** A row of the points table; its uid is unique, and every other column is taken
      from the message that wrote it last. */
  datatype Point = Point(uid: string, source: CotMessage)

  /** A row of the resources table; a hash names one row of each scope. */
  datatype Resource = Resource(scope: string, hash: string)

  /** The two kinds of content: a change names a point by uid or a file by hash. */
  datatype Kind = Points | Files

  /** Join tables hold (mission id, uid) and (mission id, hash). */
  type Join = set<(nat, string)>

  datatype Tables = Tables(points: Join, files: Join, log: seq<Change>)

  function Named(c: Change, kind: Kind): string {
    if kind == Points then c.contentUid else c.contentHash
  }

  /** The newest change of a key in a mission. */
  function Newest(log: seq<Change>, m: nat, kind: Kind, key: string): Option<ChangeType> {
    if log == [] then None
    else
      var c := log[|log| - 1];
      if c.missionId == m && Named(c, kind) == key then Some(c.typ) else Newest(log[..|log| - 1], m, kind, key)
  }

  /** A key is in a mission iff the newest change of the key there is an addition. */
  ghost predicate InSync(join: Join, log: seq<Change>, kind: Kind) {
    forall m: nat, key: string :: key != "" ==> ((m, key) in join <==> Newest(log, m, kind, key) == Some(AddContent))
  }

  predicate Increasing(log: seq<Change>) {
    forall i, j :: 0 <= i < j < |log| ==> log[i].createdAt < log[j].createdAt
  }

  // ---- the four calls, on tables ----

  /** Association.Append: join rows for all that the mission object holds and for
      the new key; rows that exist already stay. */
  function Appended(join: Join, m: nat, loaded: set<string>, key: string): Join {
    join + (set k | k in loaded :: (m, k)) + {(m, key)}
  }

  /** `row` is the uid of the row that the message was written to. */
  function PointAdded(t: Tables, m: nat, loaded: set<string>, uid: string, row: string, creator: string,
                      now: int): Tables {
    if uid in loaded then t
    else Tables(Appended(t.points, m, loaded, row), t.files, t.log + [Change(now, AddContent, m, creator, uid, "")])
  }

  function PointDeleted(t: Tables, m: nat, loaded: set<string>, uid: string, author: string, now: int): Tables {
    if uid == "" || uid !in loaded then t
    else Tables(t.points - {(m, uid)}, t.files, t.log + [Change(now, RemoveContent, m, author, uid, "")])
  }

  function FileAdded(t: Tables, m: nat, loaded: set<string>, hash: string, exists_: bool, author: string,
                     now: int): Tables {
    if hash == "" || hash in loaded || !exists_ then t
    else Tables(t.points, Appended(t.files, m, loaded, hash), t.log + [Change(now, AddContent, m, author, "", hash)])
  }

  function FileDeleted(t: Tables, m: nat, loaded: set<string>, hash: string, author: string, now: int): Tables {
    if hash == "" || hash !in loaded then t
    else Tables(t.points, t.files - {(m, hash)}, t.log + [Change(now, RemoveContent, m, author, "", hash)])
  }

  // ---- what one call keeps ----

  lemma {:induction false} NewestAfter(log: seq<Change>, c: Change, m: nat, kind: Kind, key: string)
    ensures Newest(log + [c], m, kind, key)
         == if c.missionId == m && Named(c, kind) == key then Some(c.typ) else Newest(log, m, kind, key)
  {
    assert (log + [c])[..|log|] == log;
  }

  /** A logged call keeps a kind of content in sync exactly when what it did to the
      join table is what it logged. */
  lemma {:induction false} LoggedInSync(join: Join, log: seq<Change>, kind: Kind, c: Change, after: Join)
    requires InSync(join, log, kind)
    requires c.typ != CreateMission || Named(c, kind) == ""
    ensures InSync(after, log + [c], kind)
       <==> forall m: nat, key: string :: key != "" ==>
              ((m, key) in after
               <==> if c.missionId == m && Named(c, kind) == key then c.typ == AddContent else (m, key) in join)
  {
    forall m: nat, key: string
      ensures Newest(log + [c], m, kind, key)
           == if c.missionId == m && Named(c, kind) == key then Some(c.typ) else Newest(log, m, kind, key)
    {
      NewestAfter(log, c, m, kind, key);
    }
  }

  /** An addition that logs what it stores keeps the table in sync exactly when the
      mission object held nothing that the table does not. */
  lemma {:induction false} AppendKeepsExactlyWhen(join: Join, log: seq<Change>, kind: Kind, loaded: set<string>,
                                                  c: Change)
    requires InSync(join, log, kind) && c.typ == AddContent && Named(c, kind) != "" && "" !in loaded
    ensures InSync(Appended(join, c.missionId, loaded, Named(c, kind)), log + [c], kind)
       <==> forall k <- loaded :: k == Named(c, kind) || (c.missionId, k) in join
  {
    var m, key := c.missionId, Named(c, kind);
    var after := Appended(join, m, loaded, key);
    LoggedInSync(join, log, kind, c, after);
    assert forall k <- loaded :: (m, k) in after;
  }

  lemma {:induction false} DeleteKeeps(join: Join, log: seq<Change>, kind: Kind, c: Change)
    requires InSync(join, log, kind) && c.typ == RemoveContent
    ensures InSync(join - {(c.missionId, Named(c, kind))}, log + [c], kind)
  {
    LoggedInSync(join, log, kind, c, join - {(c.missionId, Named(c, kind))});
  }

  lemma {:induction false} OtherKindKeeps(join: Join, log: seq<Change>, kind: Kind, c: Change)
    requires InSync(join, log, kind) && Named(c, kind) == ""
    ensures InSync(join, log + [c], kind)
  {
    LoggedInSync(join, log, kind, c, join);
  }

  /** A message without a uid: the lookup by uid then finds some row, and that row's
      point enters the mission, while the log names none. The mission stays in sync
      exactly when that point was in it already. With a uid, the row is the
      message's own. */
  lemma {:induction false} EmptyUidKeepsExactlyWhen(t: Tables, m: nat, loaded: set<string>, row: string,
                                                    creator: string, now: int)
    requires InSync(t.points, t.log, Points) && row != "" && "" !in loaded
    requires forall k <- loaded :: (m, k) in t.points
    ensures var after := PointAdded(t, m, loaded, "", row, creator, now);
            InSync(after.points, after.log, Points) <==> (m, row) in t.points
  {
    var c := Change(now, AddContent, m, creator, "", "");
    LoggedInSync(t.points, t.log, Points, c, Appended(t.points, m, loaded, row));
    assert (m, row) in Appended(t.points, m, loaded, row);
  }

  // ---- runs ----

  datatype Op =
    | AddPoint(m: nat, loaded: set<string>, uid: string, creator: string, now: int)
    | DeletePoint(m: nat, loaded: set<string>, uid: string, creator: string, now: int)
    | AddFile(m: nat, loaded: set<string>, hash: string, exists_: bool, creator: string, now: int)
    | DeleteFile(m: nat, loaded: set<string>, hash: string, creator: string, now: int)
    | NewMission(m: nat, creator: string, now: int)

  function Next(t: Tables, op: Op): Tables {
    match op
    case AddPoint(m, loaded, uid, creator, now) => PointAdded(t, m, loaded, uid, uid, creator, now)
    case DeletePoint(m, loaded, uid, creator, now) => PointDeleted(t, m, loaded, uid, creator, now)
    case AddFile(m, loaded, hash, ex, creator, now) => FileAdded(t, m, loaded, hash, ex, creator, now)
    case DeleteFile(m, loaded, hash, creator, now) => FileDeleted(t, m, loaded, hash, creator, now)
    case NewMission(m, creator, now) => t.(log := t.log + [Change(now, CreateMission, m, creator, "", "")])
  }

  function Run(ops: seq<Op>): Tables {
    if ops == [] then Tables({}, {}, []) else Next(Run(ops[..|ops| - 1]), ops[|ops| - 1])
  }

  /** What a call may assume: a later clock, a message with a uid, and a mission
      object that holds nothing beyond the table (all of it, or nothing). */
  ghost predicate Admitted(t: Tables, op: Op) {
    && (forall c <- t.log :: c.createdAt < op.now)
    && (op.AddPoint? ==> op.uid != "")
    && (op.AddPoint? || op.DeletePoint? ==> forall k <- op.loaded :: k != "" && (op.m, k) in t.points)
    && (op.AddFile? || op.DeleteFile? ==> forall k <- op.loaded :: k != "" && (op.m, k) in t.files)
  }

  ghost predicate Honest(ops: seq<Op>) {
    ops == [] || (Honest(ops[..|ops| - 1]) && Admitted(Run(ops[..|ops| - 1]), ops[|ops| - 1]))
  }

  lemma {:induction false} StepInSync(t: Tables, op: Op)
    requires InSync(t.points, t.log, Points) && InSync(t.files, t.log, Files) && Admitted(t, op)
    ensures InSync(Next(t, op).points, Next(t, op).log, Points) && InSync(Next(t, op).files, Next(t, op).log, Files)
  {
    var after := Next(t, op);
    if after != t {
      var c := after.log[|t.log|];
      assert after.log == t.log + [c];
      match op
      case AddPoint(m, loaded, uid, creator, now) =>
        AppendKeepsExactlyWhen(t.points, t.log, Points, loaded, c);
        OtherKindKeeps(t.files, t.log, Files, c);
      case DeletePoint(m, loaded, uid, creator, now) =>
        DeleteKeeps(t.points, t.log, Points, c);
        OtherKindKeeps(t.files, t.log, Files, c);
      case AddFile(m, loaded, hash, ex, creator, now) =>
        AppendKeepsExactlyWhen(t.files, t.log, Files, loaded, c);
        OtherKindKeeps(t.points, t.log, Points, c);
      case DeleteFile(m, loaded, hash, creator, now) =>
        DeleteKeeps(t.files, t.log, Files, c);
        OtherKindKeeps(t.points, t.log, Points, c);
      case NewMission(m, creator, now) =>
        OtherKindKeeps(t.points, t.log, Points, c);
        OtherKindKeeps(t.files, t.log, Files, c);
    }
  }

  /** Over every run, a uid or hash is in a mission iff its newest change there is an
      addition, and the log is in order of time. */
  lemma {:induction false} RunInSync(ops: seq<Op>)
    requires Honest(ops)
    ensures InSync(Run(ops).points, Run(ops).log, Points) && InSync(Run(ops).files, Run(ops).log, Files)
    ensures Increasing(Run(ops).log)
  {
    if ops != [] {
      RunInSync(ops[..|ops| - 1]);
      StepInSync(Run(ops[..|ops| - 1]), ops[|ops| - 1]);
    }
  }

  function LogOf(log: seq<Change>, m: nat): seq<Change> {
    if log == [] then []
    else
      var before, c := LogOf(log[..|log| - 1], m), log[|log| - 1];
      if c.missionId == m then before + [c] else before
  }

  function Members(join: Join, m: nat): set<string> {
    set p | p in join && p.0 == m :: p.1
  }

  lemma {:induction false} LogOfAfter(log: seq<Change>, c: Change, m: nat)
    ensures LogOf(log + [c], m) == if c.missionId == m then LogOf(log, m) + [c] else LogOf(log, m)
  {
    assert (log + [c])[..|log|] == log;
  }

  /** A call on one mission changes neither the contents nor the log of another. */
  lemma {:induction false} OtherMissionsUntouched(t: Tables, op: Op, m: nat)
    requires m != op.m
    ensures Members(Next(t, op).points, m) == Members(t.points, m)
    ensures Members(Next(t, op).files, m) == Members(t.files, m)
    ensures LogOf(Next(t, op).log, m) == LogOf(t.log, m)
  {
    var after := Next(t, op);
    if after.log != t.log {
      var c := after.log[|t.log|];
      assert after.log == t.log + [c];
      LogOfAfter(t.log, c, m);
    }
    assert forall k :: (m, k) in after.points <==> (m, k) in t.points;
    assert forall k :: (m, k) in after.files <==> (m, k) in t.files;
    MembersSame(t.points, after.points, m);
    MembersSame(t.files, after.files, m);
  }

  lemma {:induction false} MembersSame(a: Join, b: Join, m: nat)
    requires forall k :: (m, k) in a <==> (m, k) in b
    ensures Members(a, m) == Members(b, m)
  {
    forall k | k in Members(a, m) + Members(b, m) ensures k in Members(a, m) && k in Members(b, m) {
      assert (m, k) in a && (m, k) in b;
    }
  }

  // ---- the change query and the squashed view ----

  const LIMIT: nat := 100

  /** The where clause: mission 0 and no time mean no filter. */
  predicate Passes(c: Change, missionId: nat, after: Option<int>) {
    && (missionId != 0 ==> c.missionId == missionId)
    && (after.Some? ==> c.createdAt > after.value)
  }

  /** The rows that pass, newest first. */
  function Passing(log: seq<Change>, missionId: nat, after: Option<int>): (r: seq<Change>)
    ensures forall c :: c in r <==> c in log && Passes(c, missionId, after)
  {
    if log == [] then []
    else
      var before, c := Passing(log[..|log| - 1], missionId, after), log[|log| - 1];
      assert log == log[..|log| - 1] + [c];
      if Passes(c, missionId, after) then [c] + before else before
  }

  function Limited(s: seq<Change>, n: nat): seq<Change> {
    if 0 < n < |s| then s[..n] else s
  }

  function Window(log: seq<Change>, missionId: nat, after: Option<int>): seq<Change> {
    Limited(Passing(log, missionId, after), LIMIT)
  }

  /** A query on the changes table: the builder methods set its fields. */
  class ChangeQuery {
    const log: seq<Change>
    var missionId: nat
    var after: Option<int>
    var limit: nat

    constructor (log: seq<Change>)
      ensures this.log == log && missionId == 0 && after == None && limit == LIMIT
    {
      this.log, missionId, after, limit := log, 0, None, LIMIT;
    }

    method Mission(id: nat)
      modifies this`missionId
      ensures missionId == id
    {
      missionId := id;
    }

    method After(t: Option<int>)
      modifies this`after
      ensures after == t
    {
      after := t;
    }

    /** The rows in descending order of creation, up to the limit, if there is one. */
    method Get() returns (res: seq<Change>)
      ensures res == Limited(Passing(log, missionId, after), limit)
    {
      ghost var all := Passing(log, missionId, after);
      assert log[..|log|] == log;
      res := [];
      var i := |log|;
      while i > 0 && (limit == 0 || |res| < limit)
        invariant 0 <= i <= |log| && (limit > 0 ==> |res| <= limit)
        invariant res + Passing(log[..i], missionId, after) == all
      {
        assert log[..i][..i - 1] == log[..i - 1];
        if Passes(log[i - 1], missionId, after) {
          assert res + ([log[i - 1]] + Passing(log[..i - 1], missionId, after))
              == res + [log[i - 1]] + Passing(log[..i - 1], missionId, after);
          res := res + [log[i - 1]];
        }
        i := i - 1;
      }
    }
  }

  /** The key of the squashed view: the uid, or else the hash. */
  function KeyOf(c: Change): string {
    if c.contentUid != "" then c.contentUid else c.contentHash
  }

  /** A pass from the newest change on: the first change of each key decides. */
  function Squashed(ch: seq<Change>, seen: set<string>): seq<Change> {
    if ch == [] then []
    else
      var rest := Squashed(ch[1..], seen + {KeyOf(ch[0])});
      if KeyOf(ch[0]) in seen || ch[0].typ == RemoveContent then rest else [ch[0]] + rest
  }

  method GetChanges(log: seq<Change>, missionId: nat, after: Option<int>, squashed: bool) returns (r: seq<Change>)
    ensures r == if squashed then Squashed(Window(log, missionId, after), {}) else Window(log, missionId, after)
  {
    var q := new ChangeQuery(log);
    q.Mission(missionId);
    q.After(after);
    var ch := q.Get();
    if !squashed { return ch; }
    var uids: set<string> := {};
    r := [];
    var i := 0;
    while i < |ch|
      invariant 0 <= i <= |ch|
      invariant r + Squashed(ch[i..], uids) == Squashed(ch, {})
    {
      var c := ch[i];
      assert ch[i..][1..] == ch[i + 1..];
      var key := KeyOf(c);
      if key in uids {
        assert uids + {key} == uids;
      } else {
        uids := uids + {key};
        if c.typ != RemoveContent {
          assert r + ([c] + Squashed(ch[i + 1..], uids)) == (r + [c]) + Squashed(ch[i + 1..], uids);
          r := r + [c];
        }
      }
      i := i + 1;
    }
  }

  /** The window: of the mission's own changes, newest first, exactly those that are
      later than the given time and among the first 100. */
  lemma {:induction false} WindowExactly(log: seq<Change>, missionId: nat, after: Option<int>, j: nat)
    requires Increasing(log) && j < |Passing(log, missionId, None)|
    ensures var own := Passing(log, missionId, None);
            own[j] in Window(log, missionId, after)
            <==> j < LIMIT && (after.Some? ==> own[j].createdAt > after.value)
  {
    var own, p, w := Passing(log, missionId, None), Passing(log, missionId, after), Window(log, missionId, after);
    PassingIsPrefix(log, missionId, after);
    PassingNewestFirst(log, missionId, None);
    assert w <= own;
    assert own[j] in own && (own[j] in p <==> after.Some? ==> own[j].createdAt > after.value);
    if own[j] in p {
      var i :| 0 <= i < |p| && p[i] == own[j];
      assert own[i] == own[j];
    }
    if own[j] in w {
      var i :| 0 <= i < |w| && w[i] == own[j];
      assert own[i] == own[j] && p[i] == w[i];
    }
    assert j < |w| ==> w[j] == own[j];
  }

  /** Rows come newest first. */
  lemma {:induction false} PassingNewestFirst(log: seq<Change>, missionId: nat, after: Option<int>)
    requires Increasing(log)
    ensures Decreasing(Passing(log, missionId, after))
  {
    if log != [] {
      var before, c := log[..|log| - 1], log[|log| - 1];
      PassingNewestFirst(before, missionId, after);
      forall d | d in Passing(before, missionId, after) ensures d.createdAt < c.createdAt {
        var i :| 0 <= i < |before| && before[i] == d;
        assert log[i] == d;
      }
    }
  }

  predicate Decreasing(ch: seq<Change>) {
    forall i, j :: 0 <= i < j < |ch| ==> ch[i].createdAt > ch[j].createdAt
  }

  /** What passes the time filter comes first in the mission's own log. */
  lemma {:induction false} PassingIsPrefix(log: seq<Change>, missionId: nat, after: Option<int>)
    requires Increasing(log)
    ensures Passing(log, missionId, after) <= Passing(log, missionId, None)
  {
    if log != [] {
      var before, c := log[..|log| - 1], log[|log| - 1];
      PassingIsPrefix(before, missionId, after);
      if Passes(c, missionId, None) && !Passes(c, missionId, after) {
        forall d | d in before ensures d.createdAt <= after.value {
          var i :| 0 <= i < |before| && before[i] == d;
          assert log[i] == d;
        }
        NoneLater(before, missionId, after);
      }
    }
  }

  lemma {:induction false} NoneLater(log: seq<Change>, missionId: nat, after: Option<int>)
    requires after.Some? && forall c <- log :: c.createdAt <= after.value
    ensures Passing(log, missionId, after) == []
  {
    if log != [] {
      assert log[|log| - 1] in log;
      NoneLater(log[..|log| - 1], missionId, after);
    }
  }

  /** The newest change of a key, in a log that is newest first. */
  function NewestOf(own: seq<Change>, key: string): Option<Change> {
    if own == [] then None
    else if KeyOf(own[0]) == key then Some(own[0])
    else NewestOf(own[1..], key)
  }

  /** The squashed view lists exactly the newest changes of their keys in the
      mission's whole log that lie in the window and are not removals. */
  lemma {:induction false} SquashedExactly(log: seq<Change>, missionId: nat, after: Option<int>, c: Change)
    requires Increasing(log)
    ensures var own, w := Passing(log, missionId, None), Window(log, missionId, after);
            c in Squashed(w, {}) <==> NewestOf(own, KeyOf(c)) == Some(c) && c in w && c.typ != RemoveContent
  {
    var own, w := Passing(log, missionId, None), Window(log, missionId, after);
    PassingIsPrefix(log, missionId, after);
    SquashedMembers(w, {}, c);
    assert w == own[..|w|];
    NewestInPrefix(own, |w|, c);
  }

  lemma {:induction false} NewestInPrefix(own: seq<Change>, n: nat, c: Change)
    requires n <= |own|
    ensures NewestOf(own[..n], KeyOf(c)) == Some(c) <==> NewestOf(own, KeyOf(c)) == Some(c) && c in own[..n]
  {
    if n > 0 {
      assert own[..n][1..] == own[1..][..n - 1];
      NewestInPrefix(own[1..], n - 1, c);
    }
  }

  lemma {:induction false} SquashedMembers(ch: seq<Change>, seen: set<string>, c: Change)
    ensures c in Squashed(ch, seen)
       <==> NewestOf(ch, KeyOf(c)) == Some(c) && KeyOf(c) !in seen && c.typ != RemoveContent
  {
    if ch != [] {
      SquashedMembers(ch[1..], seen + {KeyOf(ch[0])}, c);
    }
  }

  /** The squashed view has each key at most once, newest first. */
  lemma {:induction false} SquashedOnce(log: seq<Change>, missionId: nat, after: Option<int>)
    requires Increasing(log)
    ensures var s := Squashed(Window(log, missionId, after), {});
            Decreasing(s) && forall i, j :: 0 <= i < j < |s| ==> KeyOf(s[i]) != KeyOf(s[j])
  {
    PassingNewestFirst(log, missionId, after);
    SquashedDecreasing(Window(log, missionId, after), {});
  }

  lemma {:induction false} SquashedDecreasing(ch: seq<Change>, seen: set<string>)
    requires Decreasing(ch)
    ensures var s := Squashed(ch, seen);
            Decreasing(s) && forall i, j :: 0 <= i < j < |s| ==> KeyOf(s[i]) != KeyOf(s[j])
  {
    if ch != [] {
      var first, tail := ch[0], ch[1..];
      var rest := Squashed(tail, seen + {KeyOf(first)});
      SquashedDecreasing(tail, seen + {KeyOf(first)});
      forall c | c in rest ensures KeyOf(c) != KeyOf(first) && c.createdAt < first.createdAt {
        SquashedMembers(tail, seen + {KeyOf(first)}, c);
        NewestOfIn(tail, KeyOf(c));
        var i :| 0 <= i < |tail| && tail[i] == c;
        assert ch[i + 1] == c;
      }
    }
  }

  /** No string is both the uid of a point and the hash of a file. */
  ghost predicate NoCollision(log: seq<Change>) {
    forall c, d :: c in log && d in log && c.contentUid != "" && d.contentHash != "" ==> c.contentUid != d.contentHash
  }

  /** When the window covers the mission's log, the squashed view lists exactly the
      mission's contents (and, under no key, its creation). */
  lemma {:induction false} SquashedIsContents(t: Tables, missionId: nat, after: Option<int>, key: string)
    requires missionId != 0 && key != "" && Increasing(t.log) && NoCollision(t.log)
    requires InSync(t.points, t.log, Points) && InSync(t.files, t.log, Files)
    requires forall c <- t.log :: c.typ == CreateMission ==> KeyOf(c) == ""
    requires forall c <- t.log :: c.contentUid == "" || c.contentHash == ""
    requires |Passing(t.log, missionId, None)| <= LIMIT
             && (after.Some? ==> forall c <- t.log :: c.createdAt > after.value)
    ensures (exists c :: c in Squashed(Window(t.log, missionId, after), {}) && KeyOf(c) == key)
       <==> (missionId, key) in t.points || (missionId, key) in t.files
  {
    var own, w := Passing(t.log, missionId, None), Window(t.log, missionId, after);
    var kind := if forall c <- t.log :: c.contentUid != key then Files else Points;
    NewestOfIsNewest(t.log, missionId, kind, key);
    NewestOfIn(own, key);
    forall c | KeyOf(c) == key && c in own
      ensures c in w && (c in Squashed(w, {}) <==> NewestOf(own, key) == Some(c) && c.typ != RemoveContent)
    {
      var j :| 0 <= j < |own| && own[j] == c;
      WindowExactly(t.log, missionId, after, j);
      SquashedExactly(t.log, missionId, after, c);
    }
    forall c | c in Squashed(w, {}) && KeyOf(c) == key ensures NewestOf(own, key) == Some(c) && c.typ != RemoveContent {
      SquashedExactly(t.log, missionId, after, c);
    }
  }

  lemma {:induction false} NewestOfIn(own: seq<Change>, key: string)
    ensures NewestOf(own, key).Some? ==> NewestOf(own, key).value in own && KeyOf(NewestOf(own, key).value) == key
  {
    if own != [] {
      NewestOfIn(own[1..], key);
    }
  }

  function Other(kind: Kind): Kind {
    if kind == Points then Files else Points
  }

  /** The newest change of a squashing key is the newest change of that uid or hash. */
  lemma {:induction false} NewestOfIsNewest(log: seq<Change>, m: nat, kind: Kind, key: string)
    requires m != 0 && key != ""
    requires forall c <- log :: Named(c, Other(kind)) != key && (c.contentUid == "" || c.contentHash == "")
    ensures var n := NewestOf(Passing(log, m, None), key);
            Newest(log, m, kind, key) == if n.Some? then Some(n.value.typ) else None
    ensures Newest(log, m, Other(kind), key) == None
  {
    if log != [] {
      var before, c := log[..|log| - 1], log[|log| - 1];
      assert log == before + [c] && c in log;
      NewestOfIsNewest(before, m, kind, key);
      var own := Passing(before, m, None);
      assert ([c] + own)[1..] == own;
    }
  }

  lemma {:induction false} RunLogShape(ops: seq<Op>)
    ensures forall c <- Run(ops).log ::
              && (c.contentUid == "" || c.contentHash == "")
              && (c.typ == CreateMission ==> KeyOf(c) == "")
  {
    if ops != [] {
      RunLogShape(ops[..|ops| - 1]);
    }
  }

  /** After every run: when the window covers the mission's log, its squashed changes
      name exactly its contents. */
  lemma {:induction false} RunSquashedIsContents(ops: seq<Op>, missionId: nat, after: Option<int>, key: string)
    requires Honest(ops) && missionId != 0 && key != "" && NoCollision(Run(ops).log)
    requires |Passing(Run(ops).log, missionId, None)| <= LIMIT
    requires after.Some? ==> forall c <- Run(ops).log :: c.createdAt > after.value
    ensures (exists c :: c in Squashed(Window(Run(ops).log, missionId, after), {}) && KeyOf(c) == key)
       <==> (missionId, key) in Run(ops).points || (missionId, key) in Run(ops).files
  {
    RunInSync(ops);
    RunLogShape(ops);
    SquashedIsContents(Run(ops), missionId, after, key);
  }

  // ---- the database manager ----

  function UidsOf(points: seq<Point>): set<string> {
    set p | p in points :: p.uid
  }

  function HashesOf(resources: seq<Resource>): set<string> {
    set r | r in resources :: r.hash
  }

  function WithoutUid(points: seq<Point>, uid: string): seq<Point> {
    if points == [] then []
    else if points[0].uid == uid then WithoutUid(points[1..], uid)
    else [points[0]] + WithoutUid(points[1..], uid)
  }

  function WithoutHash(resources: seq<Resource>, hash: string): seq<Resource> {
    if resources == [] then []
    else if resources[0].hash == hash then WithoutHash(resources[1..], hash)
    else [resources[0]] + WithoutHash(resources[1..], hash)
  }

  /** A resource query by scope and hash; scope "*" is no filter. */
  predicate HasFile(resources: set<Resource>, scope: string, hash: string) {
    exists r <- resources :: r.hash == hash && (scope == "*" || r.scope == scope)
  }

  /** A mission row, with the contents that were loaded with it. */
  class Mission {
    const id: nat
    const scope: string
    var points: seq<Point>
    var resources: seq<Resource>

    constructor (id: nat, scope: string, points: seq<Point>, resources: seq<Resource>)
      ensures this.id == id && this.scope == scope && this.points == points && this.resources == resources
    {
      this.id, this.scope, this.points, this.resources := id, scope, points, resources;
    }

    method IndexOfPoint(uid: string) returns (i: nat)
      ensures i <= |points| && (i < |points| ==> points[i].uid == uid)
      ensures uid in UidsOf(points) <==> i < |points|
    {
      i := 0;
      while i < |points| && points[i].uid != uid
        invariant i <= |points| && forall j :: 0 <= j < i ==> points[j].uid != uid
      {
        i := i + 1;
      }
      assert i < |points| ==> points[i] in points;
    }

    method IndexOfResource(hash: string) returns (i: nat)
      ensures i <= |resources| && (i < |resources| ==> resources[i].hash == hash)
      ensures hash in HashesOf(resources) <==> i < |resources|
    {
      i := 0;
      while i < |resources| && resources[i].hash != hash
        invariant i <= |resources| && forall j :: 0 <= j < i ==> resources[j].hash != hash
      {
        i := i + 1;
      }
      assert i < |resources| ==> resources[i] in resources;
    }
  }

  class DatabaseManager {
    var points: map<string, Point>
    var resources: set<Resource>
    var missionPoints: Join
    var missionResources: Join
    var changes: seq<Change>

    ghost predicate Valid()
      reads this
    {
      && "" !in points && (forall uid <- points :: points[uid].uid == uid)
      && (forall p <- missionPoints :: p.1 in points)
    }

    ghost function View(): Tables
      reads this
    {
      Tables(missionPoints, missionResources, changes)
    }

    /** Without a uid there is no filter, and the first row that the database has is
        taken. */
    method FindPoint(uid: string) returns (p: Option<Point>)
      requires Valid()
      ensures p.Some? ==> p.value.uid in points && points[p.value.uid] == p.value && (uid != "" ==> p.value.uid == uid)
      ensures p.None? <==> if uid != "" then uid !in points else points.Keys == {}
    {
      if uid != "" {
        return if uid in points then Some(points[uid]) else None;
      }
      if points.Keys == {} { return None; }
      var u :| u in points;
      return Some(points[u]);
    }

    /** Save, with the hook that refuses an empty uid. */
    method SavePoint(p: Point) returns (ok: bool)
      requires Valid()
      modifies this`points
      ensures Valid() && ok == (p.uid != "")
      ensures points == if ok then old(points)[p.uid := p] else old(points)
    {
      ok := p.uid != "";
      if ok {
        points := points[p.uid := p];
      }
    }

    /** The points that are loaded with a mission: the preload of a full query. */
    method LoadPoints(id: nat) returns (loaded: seq<Point>)
      requires Valid()
      ensures UidsOf(loaded) == Members(missionPoints, id)
    {
      loaded := [];
      var todo := Members(missionPoints, id);
      while todo != {}
        invariant todo <= Members(missionPoints, id) && UidsOf(loaded) == Members(missionPoints, id) - todo
        decreases |todo|
      {
        var uid :| uid in todo;
        assert (id, uid) in missionPoints;
        UidsAppended(loaded, points[uid]);
        loaded := loaded + [points[uid]];
        todo := todo - {uid};
      }
    }

    /** processMissionPoint, when the mission exists: on t-x-d-d the named point goes,
        and otherwise the message's point is added. */
    method ProcessMissionPoint(id: nat, scope: string, msg: CotMessage, now: int)
      returns (change: Option<Change>, ghost row: string)
      requires Valid()
      modifies this
      ensures Valid() && (msg.event.uid != "" ==> row == msg.event.uid)
      ensures var loaded := Members(old(missionPoints), id);
              View() == if msg.event.typ == "t-x-d-d"
                  then PointDeleted(old(View()), id, loaded, GetParent(msg), "", now)
                        else if msg.event.uid == "" && old(points).Keys == {} then old(View())
                        else PointAdded(old(View()), id, loaded, msg.event.uid, row, GetParent(msg), now)
      ensures change.Some? <==> View() != old(View())
      ensures changes == old(changes) + if change.Some? then [change.value] else []
      ensures change.Some? ==> change.value.missionId == id
      ensures points.Keys == {} <==> old(points).Keys == {} && (msg.event.typ == "t-x-d-d" || msg.event.uid == "")
    {
      var loaded := LoadPoints(id);
      var mission := new Mission(id, scope, loaded, []);
      row := msg.event.uid;
      if msg.event.typ == "t-x-d-d" {
        change := None;
        var uid := GetParent(msg);
        if uid != "" {
          change := DeleteMissionPoint(mission, uid, "", now);
        }
      } else {
        var ok: bool;
        assert Members(missionPoints, id) <= points.Keys;
        change, ok, row := AddMissionPoint(mission, msg, now);
      }
    }

    method AddMissionPoint(mission: Mission, msg: CotMessage, now: int)
      returns (change: Option<Change>, ok: bool, ghost row: string)
      requires Valid() && UidsOf(mission.points) <= points.Keys
      modifies this, mission`points
      ensures Valid() && resources == old(resources)
      ensures !ok <==> msg.event.uid == "" && old(points).Keys == {}
      ensures !ok ==>
                && change == None && View() == old(View()) && points == old(points)
                && mission.points == old(mission.points)
      ensures ok ==>
                && View() == PointAdded(old(View()), mission.id, old(UidsOf(mission.points)), msg.event.uid, row,
                                        GetParent(msg), now)
                && (msg.event.uid != "" ==> row == msg.event.uid) && row != ""
                && (msg.event.uid == "" ==> row in old(points))
                && points == old(points)[row := Point(row, msg)]
                && UidsOf(mission.points) == old(UidsOf(mission.points)) + {row}
                && change == if msg.event.uid in old(UidsOf(mission.points)) then None else Some(changes[|changes| - 1])
    {
      var uid := msg.event.uid;
      var i := mission.IndexOfPoint(uid);
      if i < |mission.points| {
        row := uid;
        UidsUpdated(mission.points, i, Point(uid, msg));
        mission.points := mission.points[i := Point(uid, msg)];
        ok := SavePoint(Point(uid, msg));
        return None, ok, row;
      }
      var found := FindPoint(uid);
      var point := Point(if found.Some? then found.value.uid else uid, msg);
      row := point.uid;
      ok := SavePoint(point);
      if !ok { return None, false, row; }
      missionPoints := Appended(missionPoints, mission.id, UidsOf(mission.points), point.uid);
      UidsAppended(mission.points, point);
      mission.points := mission.points + [point];
      var c := Change(now, AddContent, mission.id, GetParent(msg), uid, "");
      changes := changes + [c];
      change := Some(c);
    }

    method DeleteMissionPoint(mission: Mission, uid: string, author: string, now: int) returns (change: Option<Change>)
      requires Valid()
      modifies this, mission`points
      ensures Valid() && points == old(points) && resources == old(resources)
      ensures View() == PointDeleted(old(View()), mission.id, old(UidsOf(mission.points)), uid, author, now)
      ensures change == if uid == "" || uid !in old(UidsOf(mission.points)) then None else Some(changes[|changes| - 1])
      ensures UidsOf(mission.points) == if uid == "" then old(UidsOf(mission.points))
              else old(UidsOf(mission.points)) - {uid}
    {
      if uid == "" { return None; }
      var i := mission.IndexOfPoint(uid);
      if i == |mission.points| { return None; }
      missionPoints := missionPoints - {(mission.id, uid)};
      UidsWithout(mission.points, uid);
      mission.points := WithoutUid(mission.points, uid);
      var c := Change(now, RemoveContent, mission.id, author, uid, "");
      changes := changes + [c];
      return Some(c);
    }

    method AddMissionResource(mission: Mission, hash: string, author: string, now: int) returns (change: Option<Change>)
      requires Valid()
      modifies this, mission`resources
      ensures Valid() && points == old(points) && resources == old(resources)
      ensures View() == FileAdded(old(View()), mission.id, old(HashesOf(mission.resources)), hash,
                                  HasFile(resources, mission.scope, hash), author, now)
      ensures change == if View() == old(View()) then None else Some(changes[|changes| - 1])
      ensures HashesOf(mission.resources) == old(HashesOf(mission.resources)) + if change.Some? then {hash} else {}
    {
      if hash == "" { return None; }
      var i := mission.IndexOfResource(hash);
      if i < |mission.resources| { return None; }
      if !HasFile(resources, mission.scope, hash) { return None; }
      var res :| res in resources && res.hash == hash && (mission.scope == "*" || res.scope == mission.scope);
      missionResources := Appended(missionResources, mission.id, HashesOf(mission.resources), hash);
      mission.resources := mission.resources + [res];
      var c := Change(now, AddContent, mission.id, author, "", hash);
      changes := changes + [c];
      return Some(c);
    }

    method DeleteMissionContent(mission: Mission, hash: string, author: string, now: int)
      returns (change: Option<Change>)
      requires Valid()
      modifies this, mission`resources
      ensures Valid() && points == old(points) && resources == old(resources)
      ensures View() == FileDeleted(old(View()), mission.id, old(HashesOf(mission.resources)), hash, author, now)
      ensures change == if hash == "" || hash !in old(HashesOf(mission.resources)) then None
              else Some(changes[|changes| - 1])
      ensures HashesOf(mission.resources) == if hash == "" then old(HashesOf(mission.resources))
              else old(HashesOf(mission.resources)) - {hash}
    {
      if hash == "" { return None; }
      var i := mission.IndexOfResource(hash);
      if i == |mission.resources| { return None; }
      missionResources := missionResources - {(mission.id, hash)};
      HashesWithout(mission.resources, hash);
      mission.resources := WithoutHash(mission.resources, hash);
      var c := Change(now, RemoveContent, mission.id, author, "", hash);
      changes := changes + [c];
      return Some(c);
    }
  }

  lemma {:induction false} UidsUpdated(points: seq<Point>, i: nat, p: Point)
    requires i < |points| && points[i].uid == p.uid
    ensures UidsOf(points[i := p]) == UidsOf(points)
  {
    var after := points[i := p];
    forall j | 0 <= j < |points| ensures points[j].uid in UidsOf(after) && after[j].uid in UidsOf(points) {
      assert after[j] in after && points[j] in points && after[j].uid == points[j].uid;
    }
  }

  lemma {:induction false} UidsAppended(points: seq<Point>, p: Point)
    ensures UidsOf(points + [p]) == UidsOf(points) + {p.uid}
  {
    assert p in points + [p];
  }

  lemma {:induction false} UidsPrepended(p: Point, points: seq<Point>)
    ensures UidsOf([p] + points) == {p.uid} + UidsOf(points)
  {
    assert p in [p] + points;
    assert forall q :: q in [p] + points <==> q == p || q in points;
  }

  lemma {:induction false} HashesPrepended(r: Resource, resources: seq<Resource>)
    ensures HashesOf([r] + resources) == {r.hash} + HashesOf(resources)
  {
    assert r in [r] + resources;
    assert forall q :: q in [r] + resources <==> q == r || q in resources;
  }

  lemma {:induction false} UidsWithout(points: seq<Point>, uid: string)
    ensures UidsOf(WithoutUid(points, uid)) == UidsOf(points) - {uid}
  {
    if points != [] {
      UidsWithout(points[1..], uid);
      assert points == [points[0]] + points[1..];
      UidsPrepended(points[0], points[1..]);
      UidsPrepended(points[0], WithoutUid(points[1..], uid));
    }
  }

  lemma {:induction false} HashesWithout(resources: seq<Resource>, hash: string)
    ensures HashesOf(WithoutHash(resources, hash)) == HashesOf(resources) - {hash}
  {
    if resources != [] {
      HashesWithout(resources[1..], hash);
      assert resources == [resources[0]] + resources[1..];
      HashesPrepended(resources[0], resources[1..]);
      HashesPrepended(resources[0], WithoutHash(resources[1..], hash));
    }
  }
}

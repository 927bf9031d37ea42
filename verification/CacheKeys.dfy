/** When two threads can run the loader for one key of the cache at once, and which
    entry a deletion takes out of it (internal/cache/cache.go). */
module CacheKeys {
  import opened Wrappers
  import opened Cache

  // ---- threads in Load whose entry is not the key's any more ----

  /** The thread is in Load on the key, has its entry, and may still run the loader. */
  predicate InLoad<T>(pc: Pc<T>, key: string) {
    (pc.Got? || pc.Locked? || pc.Loading?) && pc.key == key
  }

  predicate LoadOn<T>(s: State<T>, t: nat, key: string) {
    t in s.pcs && InLoad(s.pcs[t], key)
  }

  predicate Orphaned<T>(s: State<T>, t: nat, key: string) {
    LoadOn(s, t, key) && (key in s.m ==> s.m[key] != s.pcs[t].e)
  }

  ghost predicate Orphan<T>(s: State<T>, key: string) {
    exists t :: Orphaned(s, t, key)
  }

  /** Clean deletes this key in this step. */
  predicate Deletes<T>(s: State<T>, step: Step<T>, key: string) {
    step.Delete? && step.t in s.pcs && s.pcs[step.t].Deleting? && s.pcs[step.t].key == key
  }

  /** The deletion finds a Load on the key, and it is the first to. */
  ghost predicate Harms<T>(s: State<T>, step: Step<T>, key: string) {
    !Orphan(s, key) && Deletes(s, step, key) && exists t :: LoadOn(s, t, key)
  }

  /** A step orphans a Load exactly if it is a deletion that finds one on the key. */
  lemma {:induction false} StepOrphansExactlyWhen<T>(s: State<T>, step: Step<T>, ttl: nat, key: string)
    requires Inv(s, ttl) && Enabled(s, step) && !Orphan(s, key)
    ensures Orphan(Next(s, step, ttl), key) <==> Harms(s, step, key)
  {
    var after := Next(s, step, ttl);
    if Harms(s, step, key) {
      var t :| LoadOn(s, t, key);
      assert t != step.t;
      assert Orphaned(after, t, key);
    } else {
      forall t ensures !Orphaned(after, t, key) {
        assert !Orphaned(s, t, key);
        NotOrphaned(s, step, ttl, key, t);
      }
    }
  }

  lemma {:induction false} NotOrphaned<T>(s: State<T>, step: Step<T>, ttl: nat, key: string, t: nat)
    requires Inv(s, ttl) && Enabled(s, step) && !Orphaned(s, t, key)
    requires Deletes(s, step, key) ==> !LoadOn(s, t, key)
    ensures !Orphaned(Next(s, step, ttl), t, key)
  {
    if t in s.pcs {
      assert ThreadOk(s, t, ttl);
    }
  }

  /** No step of the run so far is such a deletion. */
  ghost predicate Unharmed<T>(start: State<T>, steps: seq<Step<T>>, ttl: nat, n: nat, key: string)
    requires n <= |steps|
  {
    forall j :: 0 <= j < n ==> !HarmsAt(start, steps, ttl, j, key)
  }

  ghost predicate HarmsAt<T>(start: State<T>, steps: seq<Step<T>>, ttl: nat, j: nat, key: string)
    requires j < |steps|
  {
    var s := After(start, steps, ttl, j);
    s.Some? && Harms(s.value, steps[j], key)
  }

  ghost predicate OrphanAt<T>(start: State<T>, steps: seq<Step<T>>, ttl: nat, j: nat, key: string)
    requires j <= |steps|
  {
    var s := After(start, steps, ttl, j);
    s.Some? && Orphan(s.value, key)
  }

  lemma {:induction false} AfterInv<T>(start: State<T>, steps: seq<Step<T>>, ttl: nat, n: nat)
    requires Inv(start, ttl) && n <= |steps| && After(start, steps, ttl, n).Some?
    ensures Inv(After(start, steps, ttl, n).value, ttl)
  {
    if n > 0 {
      AfterInv(start, steps, ttl, n - 1);
      StepKeepsInv(After(start, steps, ttl, n - 1).value, steps[n - 1], ttl);
    }
  }

  /** From a state without orphans, there is none all along a run exactly if no deletion
      in it finds a Load on the key. */
  lemma {:induction false} NoOrphanExactlyWhen<T>(start: State<T>, steps: seq<Step<T>>, ttl: nat, n: nat, key: string)
    requires Inv(start, ttl) && !Orphan(start, key) && n <= |steps| && After(start, steps, ttl, n).Some?
    ensures (forall j :: 0 <= j <= n ==> !OrphanAt(start, steps, ttl, j, key)) <==> Unharmed(start, steps, ttl, n, key)
  {
    if n > 0 {
      var s := After(start, steps, ttl, n - 1).value;
      NoOrphanExactlyWhen(start, steps, ttl, n - 1, key);
      AfterInv(start, steps, ttl, n - 1);
      if !Orphan(s, key) {
        StepOrphansExactlyWhen(s, steps[n - 1], ttl, key);
        assert HarmsAt(start, steps, ttl, n - 1, key) <==> OrphanAt(start, steps, ttl, n, key);
      } else {
        assert OrphanAt(start, steps, ttl, n - 1, key);
        assert !Unharmed(start, steps, ttl, n - 1, key);
      }
    }
  }

  // ---- two loaders of one key ----

  predicate Loads<T>(s: State<T>, t: nat, key: string) {
    t in s.pcs && s.pcs[t].Loading? && s.pcs[t].key == key
  }

  ghost predicate TwoLoaders<T>(s: State<T>, key: string) {
    exists t, u :: t != u && Loads(s, t, key) && Loads(s, u, key)
  }

  lemma {:induction false} TwoLoadersOrphan<T>(s: State<T>, ttl: nat, key: string)
    requires Inv(s, ttl) && TwoLoaders(s, key)
    ensures Orphan(s, key)
  {
    var t, u :| t != u && Loads(s, t, key) && Loads(s, u, key);
    assert ThreadOk(s, t, ttl) && ThreadOk(s, u, ttl);
    assert Orphaned(s, t, key) || Orphaned(s, u, key);
  }

  /** In a run in which no deletion finds a Load on the key, no two threads run its loader
      at once, whatever entries they hold. */
  lemma {:induction false} OneLoaderPerKey<T>(now: int, steps: seq<Step<T>>, ttl: nat, n: nat, key: string)
    requires n <= |steps| && After(Start(now), steps, ttl, n).Some? && Unharmed(Start(now), steps, ttl, n, key)
    ensures !TwoLoaders(After(Start(now), steps, ttl, n).value, key)
  {
    var s := After(Start(now), steps, ttl, n).value;
    StartFree<T>(now, ttl, key);
    NoOrphanExactlyWhen(Start(now), steps, ttl, n, key);
    assert !OrphanAt(Start(now), steps, ttl, n, key);
    RunInv(now, steps, ttl, n);
    if TwoLoaders(s, key) {
      TwoLoadersOrphan(s, ttl, key);
    }
  }

  lemma {:induction false} StartFree<T>(now: int, ttl: nat, key: string)
    ensures Inv(Start<T>(now), ttl) && !Orphan(Start<T>(now), key)
  {
  }

  // ---- an orphan lets a second loader in ----

  /** Some continuation, in which no deletion is the first to find a Load on the key,
      reaches two loaders of it. */
  ghost predicate CanMeet<T(!new)>(s: State<T>, ttl: nat, key: string) {
    exists more, n: nat :: MeetsBy(s, more, ttl, n, key)
  }

  ghost predicate MeetsBy<T>(s: State<T>, more: seq<Step<T>>, ttl: nat, n: nat, key: string) {
    && n <= |more| && Unharmed(s, more, ttl, n, key)
    && var end := After(s, more, ttl, n);
    end.Some? && TwoLoaders(end.value, key)
  }

  lemma {:induction false} AfterFirst<T>(s: State<T>, x: Step<T>, more: seq<Step<T>>, ttl: nat, n: nat)
    requires Enabled(s, x) && n <= |more|
    ensures After(s, [x] + more, ttl, n + 1) == After(Next(s, x, ttl), more, ttl, n)
  {
    if n > 0 {
      AfterFirst(s, x, more, ttl, n - 1);
      assert ([x] + more)[n] == more[n - 1];
    } else {
      assert After(s, [x] + more, ttl, 0) == Some(s);
      assert ([x] + more)[0] == x;
    }
  }

  lemma {:induction false} UnharmedFirst<T>(s: State<T>, x: Step<T>, more: seq<Step<T>>, ttl: nat, n: nat, key: string)
    requires Enabled(s, x) && n <= |more| && Orphan(s, key) && Unharmed(Next(s, x, ttl), more, ttl, n, key)
    ensures Unharmed(s, [x] + more, ttl, n + 1, key)
  {
    forall j | 0 <= j < n + 1 ensures !HarmsAt(s, [x] + more, ttl, j, key) {
      if j > 0 {
        AfterFirst(s, x, more, ttl, j - 1);
        assert ([x] + more)[j] == more[j - 1];
        assert !HarmsAt(Next(s, x, ttl), more, ttl, j - 1, key);
      }
    }
  }

  /** A state with an orphan from which a step leads on. */
  lemma {:induction false} MeetsAfter<T(!new)>(s: State<T>, x: Step<T>, ttl: nat, key: string)
    requires Enabled(s, x) && Orphan(s, key) && CanMeet(Next(s, x, ttl), ttl, key)
    ensures CanMeet(s, ttl, key)
  {
    var more, n: nat :| MeetsBy(Next(s, x, ttl), more, ttl, n, key);
    AfterFirst(s, x, more, ttl, n);
    UnharmedFirst(s, x, more, ttl, n, key);
    assert MeetsBy(s, [x] + more, ttl, n + 1, key);
  }

  /** How far a thread in Load is from the loader: it may have to wait for the lock, and
      for the value to get stale. */
  function Distance<T>(s: State<T>, ttl: nat, t: nat, key: string): nat
    requires Inv(s, ttl) && LoadOn(s, t, key)
  {
    var pc := s.pcs[t];
    assert ThreadOk(s, t, ttl);
    if pc.Loading? then 0
    else if pc.Locked? then (if OlderThan(s.entries[pc.e], s.now, ttl) then 1 else 2)
    else
      var h := s.entries[pc.e].holder;
      assert HolderOk(s, pc.e);
      if h.None? then 3 else 4 + ToRelease(s.pcs[h.value])
  }

  /** The steps that the holder of a lock has to go before it is free. */
  function ToRelease<T>(pc: Pc<T>): nat {
    if pc.Locked? then 5
    else if pc.Loading? then 4
    else if pc.Unstamped? || pc.Cleaning? then 3
    else if pc.Deleting? then 2
    else 1
  }

  /** What brings a thread in Load nearer to the loader: its own step, the next step of
      whoever holds its entry, or the clock. None if the holder will load itself. */
  function Approach<T>(s: State<T>, ttl: nat, t: nat, key: string): Option<Step<T>>
    requires Inv(s, ttl) && LoadOn(s, t, key) && !Loads(s, t, key)
  {
    var pc := s.pcs[t];
    assert ThreadOk(s, t, ttl);
    if pc.Locked? then
      var entry := s.entries[pc.e];
      Some(if OlderThan(entry, s.now, ttl) then CheckFresh(t) else Tick(entry.ts.value + ttl + 1))
    else
      var h := s.entries[pc.e].holder;
      assert HolderOk(s, pc.e);
      if h.None? then Some(Step.Lock(t)) else Release(s.pcs[h.value], h.value)
  }

  function Release<T>(pc: Pc<T>, h: nat): Option<Step<T>> {
    if pc.Unstamped? then Some(Stamp(h))
    else if pc.Ready? then Some(Return(h))
    else if pc.Cleaning? then Some(CheckAge(h))
    else if pc.Deleting? then Some(Delete(h))
    else if pc.Unlocking? then Some(Unlock(h))
    else None
  }

  lemma {:induction false} ApproachEnabled<T>(s: State<T>, ttl: nat, t: nat, key: string)
    requires Inv(s, ttl) && LoadOn(s, t, key) && !Loads(s, t, key) && Approach(s, ttl, t, key).Some?
    ensures Enabled(s, Approach(s, ttl, t, key).value)
  {
    var pc := s.pcs[t];
    assert ThreadOk(s, t, ttl);
    assert HolderOk(s, pc.e);
    if pc.Got? && s.entries[pc.e].holder.Some? {
      assert ThreadOk(s, s.entries[pc.e].holder.value, ttl);
    }
  }

  /** The thread stays on its entry and gets nearer. */
  lemma {:induction false} ApproachHelps<T>(s: State<T>, ttl: nat, t: nat, key: string)
    requires Inv(s, ttl) && LoadOn(s, t, key) && !Loads(s, t, key) && Approach(s, ttl, t, key).Some?
    requires Enabled(s, Approach(s, ttl, t, key).value)
    ensures var after := Next(s, Approach(s, ttl, t, key).value, ttl);
            && Inv(after, ttl) && LoadOn(after, t, key) && after.pcs[t].e == s.pcs[t].e
            && Distance(after, ttl, t, key) < Distance(s, ttl, t, key)
  {
    var pc := s.pcs[t];
    StepKeepsInv(s, Approach(s, ttl, t, key).value, ttl);
    assert ThreadOk(s, t, ttl);
    assert HolderOk(s, pc.e);
    if pc.Got? && s.entries[pc.e].holder.Some? {
      assert ThreadOk(s, s.entries[pc.e].holder.value, ttl);
    }
  }

  /** A thread on another entry stays where it is. */
  lemma {:induction false} ApproachSpares<T>(s: State<T>, ttl: nat, t: nat, key: string, u: nat)
    requires Inv(s, ttl) && LoadOn(s, t, key) && !Loads(s, t, key) && Approach(s, ttl, t, key).Some?
    requires Enabled(s, Approach(s, ttl, t, key).value)
    requires LoadOn(s, u, key) && s.pcs[u].e != s.pcs[t].e
    ensures var after := Next(s, Approach(s, ttl, t, key).value, ttl);
            && Inv(after, ttl) && LoadOn(after, u, key) && after.pcs[u] == s.pcs[u]
            && Distance(after, ttl, u, key) <= Distance(s, ttl, u, key)
  {
    var pc := s.pcs[t];
    StepKeepsInv(s, Approach(s, ttl, t, key).value, ttl);
    assert ThreadOk(s, t, ttl) && ThreadOk(s, u, ttl);
    assert HolderOk(s, pc.e) && HolderOk(s, s.pcs[u].e);
    if pc.Got? && s.entries[pc.e].holder.Some? {
      assert ThreadOk(s, s.entries[pc.e].holder.value, ttl);
    }
  }

  /** Two threads in Load on different entries of a key can both get to the loader. */
  lemma {:induction false} BothLoad<T(!new)>(s: State<T>, ttl: nat, key: string, t: nat, u: nat)
    requires Inv(s, ttl) && LoadOn(s, t, key) && LoadOn(s, u, key) && s.pcs[t].e != s.pcs[u].e
    ensures CanMeet(s, ttl, key)
    decreases Distance(s, ttl, t, key) + Distance(s, ttl, u, key)
  {
    assert Orphaned(s, t, key) || Orphaned(s, u, key);
    if Loads(s, t, key) && Loads(s, u, key) {
      assert TwoLoaders(s, key);
      assert MeetsBy(s, [], ttl, 0, key);
    } else if Loads(s, t, key) {
      Nearer(s, ttl, key, u, t);
    } else {
      Nearer(s, ttl, key, t, u);
    }
  }

  lemma {:induction false} Nearer<T(!new)>(s: State<T>, ttl: nat, key: string, t: nat, u: nat)
    requires Inv(s, ttl) && LoadOn(s, t, key) && LoadOn(s, u, key) && s.pcs[t].e != s.pcs[u].e && !Loads(s, t, key)
    ensures CanMeet(s, ttl, key)
    decreases Distance(s, ttl, t, key) + Distance(s, ttl, u, key), 0
  {
    assert Orphaned(s, t, key) || Orphaned(s, u, key);
    var x := Approach(s, ttl, t, key);
    if x.Some? {
      ApproachEnabled(s, ttl, t, key);
      ApproachHelps(s, ttl, t, key);
      ApproachSpares(s, ttl, t, key, u);
      BothLoad(Next(s, x.value, ttl), ttl, key, t, u);
      MeetsAfter(s, x.value, ttl, key);
    } else {
      var h := s.entries[s.pcs[t].e].holder.value;
      HolderLoads(s, ttl, key, t);
      BothLoad(s, ttl, key, h, u);
    }
  }

  lemma {:induction false} HolderLoads<T>(s: State<T>, ttl: nat, key: string, t: nat)
    requires Inv(s, ttl) && LoadOn(s, t, key) && !Loads(s, t, key) && Approach(s, ttl, t, key).None?
    ensures var e := s.pcs[t].e;
            && e < |s.entries| && s.entries[e].holder.Some?
            && var h := s.entries[e].holder.value;
            LoadOn(s, h, key) && s.pcs[h].e == e && Distance(s, ttl, h, key) < Distance(s, ttl, t, key)
  {
    assert ThreadOk(s, t, ttl);
    assert HolderOk(s, s.pcs[t].e);
    assert ThreadOk(s, s.entries[s.pcs[t].e].holder.value, ttl);
  }

  lemma {:induction false} NewThread(ts: set<nat>) returns (u: nat)
    ensures forall t <- ts :: t < u
  {
    u := 0;
    if ts != {} {
      var t :| t in ts;
      var v := NewThread(ts - {t});
      u := if t < v then v else t + 1;
      assert forall x <- ts :: x == t || x in ts - {t};
    }
  }

  /** From every state with an orphan, a Load that comes now can meet it in the loader. */
  lemma {:induction false} OrphanCanMeet<T(!new)>(s: State<T>, ttl: nat, key: string)
    requires Inv(s, ttl) && Orphan(s, key)
    ensures CanMeet(s, ttl, key)
  {
    var t :| Orphaned(s, t, key);
    var u := NewThread(s.pcs.Keys);
    assert ThreadOk(s, t, ttl);
    var s1 := Next(s, Lookup(u, key), ttl);
    StepKeepsInv(s, Lookup(u, key), ttl);
    assert Orphaned(s1, t, key);
    if key in s.m {
      BothLoad(s1, ttl, key, t, u);
    } else {
      var s2 := Next(s1, LoadOrStore(u), ttl);
      StepKeepsInv(s1, LoadOrStore(u), ttl);
      BothLoad(s2, ttl, key, t, u);
      MeetsAfter(s1, LoadOrStore(u), ttl, key);
    }
    MeetsAfter(s, Lookup(u, key), ttl, key);
  }

  /** The exact condition: two loaders of the key can be reached from a state, without a
      further deletion that finds a Load on the key, if and only if it has an orphan. */
  lemma {:induction false} CanMeetExactlyWhen<T(!new)>(s: State<T>, ttl: nat, key: string)
    requires Inv(s, ttl)
    ensures CanMeet(s, ttl, key) <==> Orphan(s, key)
  {
    if Orphan(s, key) {
      OrphanCanMeet(s, ttl, key);
    } else if CanMeet(s, ttl, key) {
      var more, n: nat :| MeetsBy(s, more, ttl, n, key);
      NoOrphanExactlyWhen(s, more, ttl, n, key);
      assert !OrphanAt(s, more, ttl, n, key);
      AfterInv(s, more, ttl, n);
      TwoLoadersOrphan(After(s, more, ttl, n).value, ttl, key);
    }
  }

  /** Over runs: up to here no state could lead to two loaders of the key without such a
      deletion, exactly if no deletion so far found a Load on the key. */
  lemma {:induction false} OneLoaderExactlyWhen<T(!new)>(now: int, steps: seq<Step<T>>, ttl: nat, n: nat, key: string)
    requires n <= |steps| && After(Start(now), steps, ttl, n).Some?
    ensures (forall j :: 0 <= j <= n ==> !CanMeetAt(now, steps, ttl, j, key))
            <==> Unharmed(Start(now), steps, ttl, n, key)
  {
    StartFree<T>(now, ttl, key);
    NoOrphanExactlyWhen(Start(now), steps, ttl, n, key);
    forall j | 0 <= j <= n ensures CanMeetAt(now, steps, ttl, j, key) <==> OrphanAt(Start(now), steps, ttl, j, key) {
      if After(Start(now), steps, ttl, j).Some? {
        AfterInv(Start(now), steps, ttl, j);
        CanMeetExactlyWhen(After(Start(now), steps, ttl, j).value, ttl, key);
      }
    }
  }

  ghost predicate CanMeetAt<T(!new)>(now: int, steps: seq<Step<T>>, ttl: nat, j: nat, key: string)
    requires j <= |steps|
  {
    var s := After(Start(now), steps, ttl, j);
    s.Some? && CanMeet(s.value, ttl, key)
  }

  // ---- what a deletion takes out ----

  ghost predicate DeletesAt<T>(start: State<T>, steps: seq<Step<T>>, ttl: nat, j: nat, key: string)
    requires j < |steps|
  {
    var s := After(start, steps, ttl, j);
    s.Some? && Deletes(s.value, steps[j], key)
  }

  predicate Bound<T>(s: State<T>, key: string, e: nat) {
    key in s.m && s.m[key] == e
  }

  /** An entry stays bound to its key exactly until the key is deleted, and never comes
      back. */
  lemma {:induction false} StaysBoundExactlyWhen<T>(start: State<T>, steps: seq<Step<T>>, ttl: nat, v: nat, n: nat,
                                                    key: string, e: nat)
    requires Inv(start, ttl) && v <= n <= |steps| && After(start, steps, ttl, n).Some?
    requires After(start, steps, ttl, v).Some? && Bound(After(start, steps, ttl, v).value, key, e)
    ensures var s := After(start, steps, ttl, n).value;
            e < |s.entries| && (Bound(s, key, e) <==> forall j :: v <= j < n ==> !DeletesAt(start, steps, ttl, j, key))
  {
    if n == v {
      AfterInv(start, steps, ttl, v);
    } else {
      StaysBoundExactlyWhen(start, steps, ttl, v, n - 1, key, e);
      AfterInv(start, steps, ttl, n - 1);
      BoundAfter(After(start, steps, ttl, n - 1).value, steps[n - 1], ttl, key, e);
      assert DeletesAt(start, steps, ttl, n - 1, key)
        <==> Deletes(After(start, steps, ttl, n - 1).value, steps[n - 1], key);
    }
  }

  lemma {:induction false} BoundAfter<T>(s: State<T>, step: Step<T>, ttl: nat, key: string, e: nat)
    requires Inv(s, ttl) && Enabled(s, step) && e < |s.entries|
    ensures e < |Next(s, step, ttl).entries|
    ensures Bound(Next(s, step, ttl), key, e) <==> Bound(s, key, e) && !Deletes(s, step, key)
  {
  }

  /** In every interleaving a thread of Clean that is about to delete takes out the entry
      that it visited - never loaded, or older than ten times the ttl - exactly if nobody
      has deleted the key since that visit; otherwise it takes out a later one, or none. */
  lemma {:induction false} DeletesVisitedExactlyWhen<T>(now: int, steps: seq<Step<T>>, ttl: nat, v: nat, n: nat, t: nat)
    requires v < n <= |steps| && After(Start(now), steps, ttl, v).Some? && After(Start(now), steps, ttl, n).Some?
    requires var a, s := After(Start(now), steps, ttl, v).value, After(Start(now), steps, ttl, n).value;
             && t in s.pcs && s.pcs[t].Deleting?
             && steps[v] == Visit(t, s.pcs[t].key) && Bound(a, s.pcs[t].key, s.pcs[t].e)
    ensures var s := After(Start(now), steps, ttl, n).value;
            var key, e := s.pcs[t].key, s.pcs[t].e;
            && e < |s.entries| && OlderThan(s.entries[e], s.now, ttl * 10)
            && (Bound(s, key, e) <==> forall j :: v <= j < n ==> !DeletesAt(Start(now), steps, ttl, j, key))
  {
    var s := After(Start(now), steps, ttl, n).value;
    RunInv(now, steps, ttl, n);
    assert ThreadOk(s, t, ttl);
    StartFree<T>(now, ttl, s.pcs[t].key);
    StaysBoundExactlyWhen(Start(now), steps, ttl, v, n, s.pcs[t].key, s.pcs[t].e);
  }

  /** Two threads of Clean visit an entry; the first deletes it, a Load stores and stamps
      another, and the second is about to delete that. */
  function TwoCleans(key: string, value: int): (steps: seq<Step<int>>)
    ensures |steps| == 17
  {
    [Lookup(0, key), LoadOrStore(0), Visit(1, key), Visit(2, key), TryLock(1), CheckAge(1), Delete(1), Step.Unlock(1),
     Lookup(3, key), LoadOrStore(3), Step.Lock(3), CheckFresh(3), LoaderReturns(3, value), Stamp(3), Return(3),
     TryLock(2), CheckAge(2)]
  }

  lemma {:induction false} FirstDeleted(key: string, value: int, ttl: nat) returns (s: State<int>)
    ensures After(Start(0), TwoCleans(key, value), ttl, 8) == Some(s)
    ensures key !in s.m && 2 in s.pcs && s.pcs[2] == Visiting(key, 0) && 3 !in s.pcs
    ensures |s.entries| == 1 && s.entries[0] == Entry(key, None, None, None) && s.now == 0
  {
    var steps := TwoCleans(key, value);
    s := Start(0);
    var n := 0;
    while n < 8
      invariant 0 <= n <= 8 && After(Start(0), steps, ttl, n) == Some(s) && s.now == 0
      invariant |s.entries| == (if n < 2 then 0 else 1) && (0 in s.pcs <==> n > 0)
      invariant (1 in s.pcs <==> n > 2) && (2 in s.pcs <==> n > 3) && 3 !in s.pcs
      invariant key in s.m <==> 2 <= n < 7
      invariant key in s.m ==> s.m[key] == 0
      invariant n >= 2 ==> s.entries[0] == Entry(key, None, None, if n < 5 || n == 8 then None else Some(1))
      invariant n == 1 ==> s.pcs[0] == Missed(key)
      invariant n >= 3 ==> s.pcs[1] == if n < 5 then Visiting(key, 0) else if n == 5 then Cleaning(key, 0)
                                       else if n == 6 then Deleting(key, 0) else if n == 7 then Unlocking(key, 0)
                                       else Cleaned
      invariant n >= 4 ==> s.pcs[2] == Visiting(key, 0)
    {
      AfterNext(Start(0), steps, ttl, n, s);
      s := Next(s, steps[n], ttl);
      n := n + 1;
    }
  }

  lemma {:induction false} SecondStored(key: string, value: int, ttl: nat) returns (s: State<int>)
    ensures After(Start(0), TwoCleans(key, value), ttl, 15) == Some(s)
    ensures key in s.m && s.m[key] == 1 && 2 in s.pcs && s.pcs[2] == Visiting(key, 0)
    ensures |s.entries| == 2 && s.entries[0] == Entry(key, None, None, None) && s.now == 0
    ensures s.entries[1] == Entry(key, Some(value), Some(0), None)
  {
    var steps := TwoCleans(key, value);
    s := FirstDeleted(key, value, ttl);
    var n := 8;
    while n < 15
      invariant 8 <= n <= 15 && After(Start(0), steps, ttl, n) == Some(s) && s.now == 0
      invariant 2 in s.pcs && s.pcs[2] == Visiting(key, 0) && (3 in s.pcs <==> n > 8)
      invariant |s.entries| == (if n < 10 then 1 else 2) && s.entries[0] == Entry(key, None, None, None)
      invariant key in s.m <==> n >= 10
      invariant key in s.m ==> s.m[key] == 1
      invariant n >= 10 ==> s.entries[1] == Entry(key, if n < 13 then None else Some(value),
                                                  if n < 14 then None else Some(0),
                                                  if n == 10 || n == 15 then None else Some(3))
      invariant n >= 9 ==> s.pcs[3] == if n == 9 then Missed(key) else if n == 10 then Got(key, 1)
                                       else if n == 11 then Locked(key, 1) else if n == 12 then Loading(key, 1, 0)
                                       else if n == 13 then Unstamped(key, 1, 0, 0)
                                       else if n == 14 then Ready(key, 1, 0)
                                       else Done(key, Some(value), 0)
    {
      AfterNext(Start(0), steps, ttl, n, s);
      s := Next(s, steps[n], ttl);
      n := n + 1;
    }
  }

  /** So Clean can take out an entry that was stamped at this very moment, for every ttl. */
  lemma {:induction false} FreshEntryDeleted(key: string, value: int, ttl: nat)
    ensures var end := After(Start(0), TwoCleans(key, value), ttl, 17);
            && end.Some? && 2 in end.value.pcs && end.value.pcs[2] == Deleting(key, 0)
            && Bound(end.value, key, 1) && |end.value.entries| == 2 && end.value.entries[1].ts == Some(end.value.now)
  {
    var steps := TwoCleans(key, value);
    var s := SecondStored(key, value, ttl);
    AfterNext(Start(0), steps, ttl, 15, s);
    s := Next(s, TryLock(2), ttl);
    AfterNext(Start(0), steps, ttl, 16, s);
    s := Next(s, CheckAge(2), ttl);
  }

  // ---- two loaders of one key ----

  function DeletionInBetween(key: string): (steps: seq<Step<int>>)
    ensures |steps| == 13
  {
    [Lookup(0, key), LoadOrStore(0), Visit(1, key), TryLock(1), CheckAge(1), Delete(1), Unlock(1),
     Lock(0), CheckFresh(0), Lookup(2, key), LoadOrStore(2), Lock(2), CheckFresh(2)]
  }

  lemma {:induction false} EntryDeleted(key: string, ttl: nat) returns (s: State<int>)
    ensures After(Start(0), DeletionInBetween(key), ttl, 6) == Some(s)
    ensures key !in s.m && 0 in s.pcs && 1 in s.pcs && 2 !in s.pcs && s.pcs[0] == Got(key, 0)
            && s.pcs[1] == Unlocking(key, 0)
    ensures |s.entries| == 1 && s.entries[0] == Entry(key, None, None, Some(1)) && s.now == 0
  {
    var steps := DeletionInBetween(key);
    s := Start(0);
    var n := 0;
    while n < 6
      invariant 0 <= n <= 6 && After(Start(0), steps, ttl, n) == Some(s) && s.now == 0
      invariant |s.entries| == (if n < 2 then 0 else 1) && (0 in s.pcs <==> n > 0) && (1 in s.pcs <==> n > 2)
                && 2 !in s.pcs
      invariant key in s.m <==> 2 <= n < 6
      invariant key in s.m ==> s.m[key] == 0
      invariant n >= 2 ==> s.entries[0] == Entry(key, None, None, if n < 4 then None else Some(1))
      invariant n >= 1 ==> s.pcs[0] == if n == 1 then Missed(key) else Got(key, 0)
      invariant n >= 3 ==> s.pcs[1] == if n == 3 then Visiting(key, 0) else if n == 4 then Cleaning(key, 0)
                                       else if n == 5 then Deleting(key, 0) else Unlocking(key, 0)
    {
      AfterNext(Start(0), steps, ttl, n, s);
      s := Next(s, steps[n], ttl);
      n := n + 1;
    }
  }

  lemma {:induction false} FirstLoaderRuns(key: string, ttl: nat) returns (s: State<int>)
    ensures After(Start(0), DeletionInBetween(key), ttl, 9) == Some(s)
    ensures key !in s.m && 0 in s.pcs && 1 in s.pcs && 2 !in s.pcs && s.pcs[0] == Loading(key, 0, 0)
            && s.pcs[1] == Cleaned
    ensures |s.entries| == 1 && s.now == 0
  {
    var steps := DeletionInBetween(key);
    s := EntryDeleted(key, ttl);
    AfterNext(Start(0), steps, ttl, 6, s);
    s := Next(s, Unlock(1), ttl);
    AfterNext(Start(0), steps, ttl, 7, s);
    s := Next(s, Lock(0), ttl);
    AfterNext(Start(0), steps, ttl, 8, s);
    s := Next(s, CheckFresh(0), ttl);
  }

  /** But two threads can run the loader for one key at once, on two entries: here Clean
      removes the entry that a Load has just stored and not yet locked, and a
      second Load stores another. */
  lemma {:induction false} TwoLoadersOfOneKey(key: string, ttl: nat)
    ensures var end := After(Start(0), DeletionInBetween(key), ttl, 13);
            && end.Some? && 0 in end.value.pcs && 2 in end.value.pcs
            && end.value.pcs[0] == Loading(key, 0, 0) && end.value.pcs[2] == Loading(key, 1, 0)
  {
    var steps := DeletionInBetween(key);
    var s := FirstLoaderRuns(key, ttl);
    var n := 9;
    while n < 13
      invariant 9 <= n <= 13 && After(Start(0), steps, ttl, n) == Some(s) && s.now == 0
      invariant |s.entries| == (if n < 11 then 1 else 2) && 0 in s.pcs && (2 in s.pcs <==> n > 9)
      invariant s.pcs[0] == Loading(key, 0, 0)
      invariant n < 11 ==> key !in s.m
      invariant n >= 11 ==> s.entries[1] == Entry(key, None, None, if n == 11 then None else Some(2))
      invariant n >= 10 ==> s.pcs[2] == if n == 10 then Missed(key) else if n == 11 then Got(key, 1)
                                        else if n == 12 then Locked(key, 1) else Loading(key, 1, 0)
    {
      AfterNext(Start(0), steps, ttl, n, s);
      s := Next(s, steps[n], ttl);
      n := n + 1;
    }
  }
}

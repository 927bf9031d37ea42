/** The cache with a time to live (internal/cache/cache.go). Any number of threads
    call Load and Clean; each access to the shared map, to a lock or to the clock is
    one step, and steps of different threads interleave freely. */
module Cache {
  import opened Wrappers

  /** An entry; `ts` is None for the zero time of an entry never loaded. */
  datatype Entry<T> = Entry(key: string, value: Option<T>, ts: Option<int>, holder: Option<nat>)

  /** A finished run of the loader: when it returned and when that was stamped. */
  datatype Loaded<T> = Loaded(key: string, value: T, finished: int, stamped: int)

  /** Where a thread is: in Load from Missed to Done, in Clean from Visiting on. */
  datatype Pc<T> =
    | Missed(key: string)
    | Got(key: string, e: nat)
    | Locked(key: string, e: nat)
    | Loading(key: string, e: nat, check: int)
    | Unstamped(key: string, e: nat, check: int, finished: int)
    | Ready(key: string, e: nat, check: int)
    | Done(key: string, value: Option<T>, check: int)
    | Visiting(key: string, e: nat)
    | Cleaning(key: string, e: nat)
    | Deleting(key: string, e: nat)
    | Unlocking(key: string, e: nat)
    | Cleaned

  datatype State<T> = State(now: int, m: map<string, nat>, entries: seq<Entry<T>>, pcs: map<nat, Pc<T>>,
                            loads: seq<Loaded<T>>)

  datatype Step<T> =
    | Tick(to: int)
    | Lookup(t: nat, key: string)
    | LoadOrStore(t: nat)
    | Lock(t: nat)
    | CheckFresh(t: nat)
    | LoaderReturns(t: nat, value: T)
    | Stamp(t: nat)
    | Return(t: nat)
    | Visit(t: nat, key: string)
    | TryLock(t: nat)
    | CheckAge(t: nat)
    | Delete(t: nat)
    | Unlock(t: nat)

  function Start<T>(now: int): State<T> {
    State(now, map[], [], map[], [])
  }

  predicate Idle<T>(s: State<T>, t: nat) {
    t in s.pcs ==> s.pcs[t].Done? || s.pcs[t].Cleaned?
  }

  predicate HasEntry<T>(pc: Pc<T>) {
    !pc.Missed? && !pc.Done? && !pc.Cleaned?
  }

  /** The thread has the lock of its entry. */
  predicate Holds<T>(pc: Pc<T>) {
    pc.Locked? || pc.Loading? || pc.Unstamped? || pc.Ready? || pc.Cleaning? || pc.Deleting? || pc.Unlocking?
  }

  predicate Enabled<T>(s: State<T>, step: Step<T>) {
    match step
    case Tick(to) => to >= s.now
    case Lookup(t, key) => Idle(s, t)
    case LoadOrStore(t) => t in s.pcs && s.pcs[t].Missed?
    case Lock(t) => t in s.pcs && s.pcs[t].Got? && s.pcs[t].e < |s.entries| && s.entries[s.pcs[t].e].holder.None?
    case CheckFresh(t) => t in s.pcs && s.pcs[t].Locked? && s.pcs[t].e < |s.entries|
    case LoaderReturns(t, value) => t in s.pcs && s.pcs[t].Loading? && s.pcs[t].e < |s.entries|
    case Stamp(t) => t in s.pcs && s.pcs[t].Unstamped? && s.pcs[t].e < |s.entries| && s.entries[s.pcs[t].e].value.Some?
    case Return(t) => t in s.pcs && s.pcs[t].Ready? && s.pcs[t].e < |s.entries|
    case Visit(t, key) => Idle(s, t) && key in s.m
    case TryLock(t) => t in s.pcs && s.pcs[t].Visiting? && s.pcs[t].e < |s.entries|
    case CheckAge(t) => t in s.pcs && s.pcs[t].Cleaning? && s.pcs[t].e < |s.entries|
    case Delete(t) => t in s.pcs && s.pcs[t].Deleting?
    case Unlock(t) => t in s.pcs && s.pcs[t].Unlocking? && s.pcs[t].e < |s.entries|
  }

  function At<T>(s: State<T>, t: nat, pc: Pc<T>): State<T> {
    s.(pcs := s.pcs[t := pc])
  }

  /** The thread moves on, and its entry changes. */
  function With<T>(s: State<T>, t: nat, pc: Pc<T>, e: nat, entry: Entry<T>): State<T>
    requires e < |s.entries|
  {
    s.(pcs := s.pcs[t := pc], entries := s.entries[e := entry])
  }

  function Next<T>(s: State<T>, step: Step<T>, ttl: nat): State<T>
    requires Enabled(s, step)
  {
    match step
    case Tick(to) => s.(now := to)
    case Lookup(t, key) => At(s, t, if key in s.m then Got(key, s.m[key]) else Missed(key))
    case LoadOrStore(t) =>
      var key := s.pcs[t].key;
      if key in s.m then At(s, t, Got(key, s.m[key]))
      else
        var n := |s.entries|;
        At(s.(m := s.m[key := n], entries := s.entries + [Entry(key, None, None, None)]), t, Got(key, n))
    case Lock(t) =>
      var e := s.pcs[t].e;
      With(s, t, Locked(s.pcs[t].key, e), e, s.entries[e].(holder := Some(t)))
    case CheckFresh(t) =>
      var key, e := s.pcs[t].key, s.pcs[t].e;
      var ts := s.entries[e].ts;
      At(s, t, if ts.None? || s.now - ts.value > ttl then Loading(key, e, s.now) else Ready(key, e, s.now))
    case LoaderReturns(t, value) =>
      var pc := s.pcs[t];
      With(s, t, Unstamped(pc.key, pc.e, pc.check, s.now), pc.e, s.entries[pc.e].(value := Some(value)))
    case Stamp(t) =>
      var pc := s.pcs[t];
      var entry := s.entries[pc.e];
      With(s.(loads := s.loads + [Loaded(pc.key, entry.value.value, pc.finished, s.now)]),
           t, Ready(pc.key, pc.e, pc.check), pc.e, entry.(ts := Some(s.now)))
    case Return(t) =>
      var pc := s.pcs[t];
      With(s, t, Done(pc.key, s.entries[pc.e].value, pc.check), pc.e, s.entries[pc.e].(holder := None))
    case Visit(t, key) => At(s, t, Visiting(key, s.m[key]))
    case TryLock(t) =>
      var key, e := s.pcs[t].key, s.pcs[t].e;
      if s.entries[e].holder.None? then With(s, t, Cleaning(key, e), e, s.entries[e].(holder := Some(t)))
      else At(s, t, Cleaned)
    case CheckAge(t) =>
      var key, e := s.pcs[t].key, s.pcs[t].e;
      var ts := s.entries[e].ts;
      At(s, t, if ts.None? || s.now - ts.value > ttl * 10 then Deleting(key, e) else Unlocking(key, e))
    case Delete(t) => At(s.(m := s.m - {s.pcs[t].key}), t, Unlocking(s.pcs[t].key, s.pcs[t].e))
    case Unlock(t) =>
      var e := s.pcs[t].e;
      With(s, t, Cleaned, e, s.entries[e].(holder := None))
  }

  // ---- the invariant ----

  ghost predicate IsLoad<T>(r: Loaded<T>, key: string, value: Option<T>) {
    r.key == key && Some(r.value) == value && r.finished <= r.stamped
  }

  /** The value was produced by the loader for this key, and stamped at this time. */
  ghost predicate Produced<T>(loads: seq<Loaded<T>>, key: string, value: Option<T>, stamped: int) {
    exists r <- loads :: IsLoad(r, key, value) && r.stamped == stamped
  }

  ghost predicate ProducedWithin<T>(loads: seq<Loaded<T>>, key: string, value: Option<T>, check: int, ttl: nat) {
    exists r <- loads :: IsLoad(r, key, value) && check - r.stamped <= ttl
  }

  predicate MapOk<T>(s: State<T>) {
    forall k <- s.m :: s.m[k] < |s.entries| && s.entries[s.m[k]].key == k
  }

  /** A loader has returned on this entry and the time is not yet stamped. */
  predicate InBetween<T>(s: State<T>, e: nat)
    requires e < |s.entries|
  {
    var h := s.entries[e].holder;
    h.Some? && h.value in s.pcs && s.pcs[h.value].Unstamped? && s.pcs[h.value].e == e
  }

  ghost predicate EntryOk<T>(s: State<T>, e: nat)
    requires e < |s.entries|
  {
    s.entries[e].ts.Some? && !InBetween(s, e) ==>
      Produced(s.loads, s.entries[e].key, s.entries[e].value, s.entries[e].ts.value)
  }

  /** Never loaded, or stamped longer ago than this. */
  predicate OlderThan<T>(entry: Entry<T>, now: int, age: nat) {
    entry.ts.None? || now - entry.ts.value > age
  }

  ghost predicate ThreadOk<T>(s: State<T>, t: nat, ttl: nat)
    requires t in s.pcs
  {
    var pc := s.pcs[t];
    && (HasEntry(pc) ==> pc.e < |s.entries| && s.entries[pc.e].key == pc.key)
    && (Holds(pc) ==> s.entries[pc.e].holder == Some(t))
    && (pc.Loading? ==> pc.check <= s.now && OlderThan(s.entries[pc.e], pc.check, ttl))
    && (pc.Deleting? ==> OlderThan(s.entries[pc.e], s.now, ttl * 10))
    && (pc.Unstamped? ==> pc.check <= s.now && pc.finished <= s.now && s.entries[pc.e].value.Some?)
    && (pc.Ready? ==> s.entries[pc.e].ts.Some? && pc.check - s.entries[pc.e].ts.value <= ttl)
    && (pc.Done? ==> ProducedWithin(s.loads, pc.key, pc.value, pc.check, ttl))
  }

  /** Who an entry names as its holder does hold it. */
  predicate HolderOk<T>(s: State<T>, e: nat)
    requires e < |s.entries|
  {
    var h := s.entries[e].holder;
    h.Some? ==> h.value in s.pcs && Holds(s.pcs[h.value]) && s.pcs[h.value].e == e
  }

  ghost predicate Inv<T>(s: State<T>, ttl: nat) {
    && MapOk(s)
    && (forall e: nat :: e < |s.entries| ==> EntryOk(s, e) && HolderOk(s, e))
    && (forall t <- s.pcs :: ThreadOk(s, t, ttl))
  }

  lemma {:induction false} MovingThreadKept<T>(s: State<T>, step: Step<T>, ttl: nat)
    requires Inv(s, ttl) && Enabled(s, step) && !step.Tick? && !ChangesEntry(step)
    ensures ThreadOk(Next(s, step, ttl), step.t, ttl)
  {
    if step.t in s.pcs {
      assert ThreadOk(s, step.t, ttl);
    }
  }

  lemma {:induction false} LockingThreadKept<T>(s: State<T>, step: Step<T>, ttl: nat)
    requires Inv(s, ttl) && Enabled(s, step) && ChangesEntry(step) && !step.Return?
    ensures ThreadOk(Next(s, step, ttl), step.t, ttl)
  {
    assert ThreadOk(s, step.t, ttl);
  }

  lemma {:induction false} ReturningThreadKept<T>(s: State<T>, t: nat, ttl: nat)
    requires Inv(s, ttl) && Enabled(s, Return(t))
    ensures ThreadOk(Next(s, Return(t), ttl), t, ttl)
  {
    assert ThreadOk(s, t, ttl) && EntryOk(s, s.pcs[t].e);
  }

  lemma {:induction false} OtherThreadKept<T>(s: State<T>, step: Step<T>, ttl: nat, u: nat)
    requires Inv(s, ttl) && Enabled(s, step) && u in s.pcs && (step.Tick? || u != step.t)
    ensures ThreadOk(Next(s, step, ttl), u, ttl)
  {
    var after := Next(s, step, ttl);
    assert ThreadOk(s, u, ttl);
    assert after.pcs[u] == s.pcs[u];
    if ChangesEntry(step) {
      EntryOfOthers(s, step, ttl, u);
    }
  }

  /** The steps that change the entry of their thread. */
  predicate ChangesEntry<T>(step: Step<T>) {
    step.Lock? || step.LoaderReturns? || step.Stamp? || step.Return? || step.TryLock? || step.Unlock?
  }

  /** They leave alone the entry that another thread holds, and the key of every entry. */
  lemma {:induction false} EntryOfOthers<T>(s: State<T>, step: Step<T>, ttl: nat, u: nat)
    requires Inv(s, ttl) && Enabled(s, step) && u in s.pcs && ChangesEntry(step) && u != step.t
    ensures var pc, after := s.pcs[u], Next(s, step, ttl);
            && |after.entries| == |s.entries| && after.now == s.now && s.loads <= after.loads
            && (HasEntry(pc) ==> pc.e < |s.entries| && after.entries[pc.e].key == s.entries[pc.e].key)
            && (Holds(pc) ==> after.entries[pc.e] == s.entries[pc.e])
  {
    assert ThreadOk(s, u, ttl) && ThreadOk(s, step.t, ttl);
  }

  lemma {:induction false} EntryKept<T>(s: State<T>, step: Step<T>, ttl: nat, e: nat)
    requires Inv(s, ttl) && Enabled(s, step) && e < |Next(s, step, ttl).entries|
    ensures EntryOk(Next(s, step, ttl), e)
  {
    var after := Next(s, step, ttl);
    assert forall r :: r in s.loads ==> r in after.loads;
    if e < |s.entries| {
      assert EntryOk(s, e);
    }
    if step.Stamp? && s.pcs[step.t].e == e {
      assert ThreadOk(s, step.t, ttl);
      assert after.loads[|s.loads|] in after.loads;
    }
  }

  lemma {:induction false} HolderKept<T>(s: State<T>, step: Step<T>, ttl: nat, e: nat)
    requires Inv(s, ttl) && Enabled(s, step) && e < |Next(s, step, ttl).entries|
    ensures HolderOk(Next(s, step, ttl), e)
  {
    if e < |s.entries| {
      assert HolderOk(s, e);
    }
    if !step.Tick? && step.t in s.pcs {
      assert ThreadOk(s, step.t, ttl);
    }
  }

  lemma {:induction false} StepKeepsInv<T>(s: State<T>, step: Step<T>, ttl: nat)
    requires Inv(s, ttl) && Enabled(s, step)
    ensures Inv(Next(s, step, ttl), ttl)
  {
    var after := Next(s, step, ttl);
    forall t | t in after.pcs ensures ThreadOk(after, t, ttl) {
      if step.Tick? || t != step.t {
        OtherThreadKept(s, step, ttl, t);
      } else if step.Return? {
        ReturningThreadKept(s, t, ttl);
      } else if ChangesEntry(step) {
        LockingThreadKept(s, step, ttl);
      } else {
        MovingThreadKept(s, step, ttl);
      }
    }
    forall e: nat | e < |after.entries| ensures EntryOk(after, e) && HolderOk(after, e) {
      EntryKept(s, step, ttl, e);
      HolderKept(s, step, ttl, e);
    }
    if step.LoadOrStore? || step.Lock? || step.Stamp? {
      assert ThreadOk(s, step.t, ttl);
    }
  }

  // ---- runs ----

  /** The state after the first n steps of a run; a step that is not enabled ends it. */
  function After<T>(start: State<T>, steps: seq<Step<T>>, ttl: nat, n: nat): Option<State<T>>
    requires n <= |steps|
  {
    if n == 0 then Some(start)
    else
      var s := After(start, steps, ttl, n - 1);
      if s.Some? && Enabled(s.value, steps[n - 1]) then Some(Next(s.value, steps[n - 1], ttl)) else None
  }

  lemma {:induction false} RunInv<T>(now: int, steps: seq<Step<T>>, ttl: nat, n: nat)
    requires n <= |steps| && After(Start(now), steps, ttl, n).Some?
    ensures Inv(After(Start(now), steps, ttl, n).value, ttl)
  {
    if n > 0 {
      RunInv(now, steps, ttl, n - 1);
      StepKeepsInv(After(Start(now), steps, ttl, n - 1).value, steps[n - 1], ttl);
    }
  }

  /** The value that thread t returns was produced by the loader for its key, in a run
      that was stamped no more than ttl before the freshness check of the thread. */
  ghost predicate ReturnsFresh<T>(s: State<T>, t: nat, ttl: nat)
    requires t in s.pcs && s.pcs[t].Done?
  {
    exists r <- s.loads ::
      && r.key == s.pcs[t].key && Some(r.value) == s.pcs[t].value && r.finished <= r.stamped
      && s.pcs[t].check - r.stamped <= ttl
  }

  /** In every interleaving a value that Load returns is fresh, whatever Clean removed
      meanwhile. */
  lemma {:induction false} LoadReturnsFresh<T>(now: int, steps: seq<Step<T>>, ttl: nat, n: nat, s: State<T>, t: nat)
    requires n <= |steps| && After(Start(now), steps, ttl, n) == Some(s) && t in s.pcs && s.pcs[t].Done?
    ensures ReturnsFresh(s, t, ttl)
  {
    RunInv(now, steps, ttl, n);
    assert ThreadOk(s, t, ttl);
    var r :| r in s.loads && IsLoad(r, s.pcs[t].key, s.pcs[t].value) && s.pcs[t].check - r.stamped <= ttl;
  }

  /** No two threads run the loader on one entry at once. */
  lemma {:induction false} OneLoaderPerEntry<T>(now: int, steps: seq<Step<T>>, ttl: nat, n: nat, s: State<T>,
                                                t: nat, u: nat)
    requires n <= |steps| && After(Start(now), steps, ttl, n) == Some(s) && t in s.pcs && u in s.pcs
    requires s.pcs[t].Loading? && s.pcs[u].Loading? && s.pcs[t].e == s.pcs[u].e
    ensures t == u
  {
    RunInv(now, steps, ttl, n);
    assert ThreadOk(s, t, ttl) && ThreadOk(s, u, ttl);
  }

  /** The loader runs only on an entry that was stale at the check, and Clean deletes
      only after finding an entry ten times as old. */
  lemma {:induction false} OnlyStaleIsReplaced<T>(now: int, steps: seq<Step<T>>, ttl: nat, n: nat, s: State<T>, t: nat)
    requires n <= |steps| && After(Start(now), steps, ttl, n) == Some(s) && t in s.pcs
    requires s.pcs[t].Loading? || s.pcs[t].Deleting?
    ensures s.pcs[t].e < |s.entries| && s.entries[s.pcs[t].e].key == s.pcs[t].key
    ensures s.pcs[t].Loading? ==> OlderThan(s.entries[s.pcs[t].e], s.pcs[t].check, ttl)
    ensures s.pcs[t].Deleting? ==> OlderThan(s.entries[s.pcs[t].e], s.now, ttl * 10)
  {
    RunInv(now, steps, ttl, n);
    assert ThreadOk(s, t, ttl);
  }

  // ---- runs given step by step ----

  /** A run goes on by any step that is enabled. */
  lemma {:induction false} AfterNext<T>(start: State<T>, steps: seq<Step<T>>, ttl: nat, n: nat, s: State<T>)
    requires n < |steps| && After(start, steps, ttl, n) == Some(s) && Enabled(s, steps[n])
    ensures After(start, steps, ttl, n + 1) == Some(Next(s, steps[n], ttl))
  {
  }
}

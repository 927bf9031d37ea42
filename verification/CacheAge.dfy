/** How old a value that the cache returns can be (internal/cache/cache.go). */
module CacheAge {
  import opened Wrappers
  import opened Cache

  /** Every load so far was stamped at most `lag` after the loader returned. */
  ghost predicate LagsAtMost<T>(s: State<T>, lag: int) {
    forall r <- s.loads :: r.stamped - r.finished <= lag
  }

  /** Every value returned came from a loader that returned at most `bound` before the
      freshness check of the Load that returned it. */
  ghost predicate AgesAtMost<T>(s: State<T>, bound: int) {
    forall t <- s.pcs :: s.pcs[t].Done? ==>
      exists r <- s.loads ::
        r.key == s.pcs[t].key && Some(r.value) == s.pcs[t].value && s.pcs[t].check - r.finished <= bound
  }

  /** The age is counted from the stamp, which is taken after the loader returns: the
      delay in between is added to the ttl. */
  lemma {:induction false} AgeIsTtlAndLag<T>(now: int, steps: seq<Step<T>>, ttl: nat, n: nat, lag: int)
    requires n <= |steps| && After(Start(now), steps, ttl, n).Some?
             && LagsAtMost(After(Start(now), steps, ttl, n).value, lag)
    ensures AgesAtMost(After(Start(now), steps, ttl, n).value, ttl + lag)
  {
    var s := After(Start(now), steps, ttl, n).value;
    forall t | t in s.pcs && s.pcs[t].Done?
      ensures exists r <- s.loads ::
                r.key == s.pcs[t].key && Some(r.value) == s.pcs[t].value && s.pcs[t].check - r.finished <= ttl + lag
    {
      LoadReturnsFresh(now, steps, ttl, n, s, t);
      assert ReturnsFresh(s, t, ttl);
    }
  }

  /** A loader whose thread is held up before the stamp, and a Load that checks exactly
      ttl after it. */
  function HeldUp(key: string, value: int, ttl: nat, lag: nat): (steps: seq<Step<int>>)
    ensures |steps| == 13
  {
    [Lookup(0, key), LoadOrStore(0), Lock(0), CheckFresh(0), LoaderReturns(0, value), Tick(lag), Stamp(0), Return(0),
     Tick(lag + ttl), Lookup(1, key), Lock(1), CheckFresh(1), Return(1)]
  }

  lemma {:induction false} LoaderCalled(key: string, value: int, ttl: nat, lag: nat) returns (s: State<int>)
    ensures After(Start(0), HeldUp(key, value, ttl, lag), ttl, 4) == Some(s) && s.now == 0
    ensures key in s.m && s.m[key] == 0 && |s.entries| == 1 && s.entries[0] == Entry(key, None, None, Some(0))
    ensures 0 in s.pcs && 1 !in s.pcs && s.pcs[0] == Loading(key, 0, 0) && s.loads == []
  {
    var steps := HeldUp(key, value, ttl, lag);
    s := Start<int>(0);
    var n := 0;
    while n < 4
      invariant 0 <= n <= 4 && After(Start(0), steps, ttl, n) == Some(s) && s.now == 0 && s.loads == []
      invariant |s.entries| == (if n < 2 then 0 else 1) && (0 in s.pcs <==> n > 0) && 1 !in s.pcs
      invariant key in s.m <==> n >= 2
      invariant key in s.m ==> s.m[key] == 0
      invariant n >= 2 ==> s.entries[0] == Entry(key, None, None, if n == 2 then None else Some(0))
      invariant n >= 1 ==> s.pcs[0] == if n == 1 then Missed(key) else if n == 2 then Got(key, 0)
                                       else if n == 3 then Locked(key, 0) else Loading(key, 0, 0)
    {
      AfterNext(Start(0), steps, ttl, n, s);
      s := Next(s, steps[n], ttl);
      n := n + 1;
    }
  }

  lemma {:induction false} StampedLate(key: string, value: int, ttl: nat, lag: nat) returns (s: State<int>)
    ensures After(Start(0), HeldUp(key, value, ttl, lag), ttl, 8) == Some(s) && s.now == lag
    ensures key in s.m && s.m[key] == 0 && |s.entries| == 1 && s.entries[0] == Entry(key, Some(value), Some(lag), None)
    ensures 1 !in s.pcs && s.loads == [Loaded(key, value, 0, lag)]
  {
    var steps := HeldUp(key, value, ttl, lag);
    s := LoaderCalled(key, value, ttl, lag);
    var n := 4;
    while n < 8
      invariant 4 <= n <= 8 && After(Start(0), steps, ttl, n) == Some(s) && s.now == if n < 6 then 0 else lag
      invariant |s.entries| == 1 && 0 in s.pcs && 1 !in s.pcs && key in s.m && s.m[key] == 0
      invariant s.entries[0] == Entry(key, if n == 4 then None else Some(value), if n < 7 then None else Some(lag),
                                      if n == 8 then None else Some(0))
      invariant s.pcs[0] == if n == 4 then Loading(key, 0, 0) else if n < 7 then Unstamped(key, 0, 0, 0)
                            else if n == 7 then Ready(key, 0, 0) else Done(key, Some(value), 0)
      invariant s.loads == if n < 7 then [] else [Loaded(key, value, 0, lag)]
    {
      AfterNext(Start(0), steps, ttl, n, s);
      s := Next(s, steps[n], ttl);
      n := n + 1;
    }
  }

  /** For every ttl and delay some run attains their sum. */
  lemma {:induction false} HeldUpAttains(key: string, value: int, ttl: nat, lag: nat)
    ensures var end := After(Start(0), HeldUp(key, value, ttl, lag), ttl, 13);
            && end.Some? && 1 in end.value.pcs && end.value.pcs[1] == Done(key, Some(value), lag + ttl)
            && end.value.loads == [Loaded(key, value, 0, lag)]
  {
    var steps := HeldUp(key, value, ttl, lag);
    var s := StampedLate(key, value, ttl, lag);
    var n := 8;
    while n < 13
      invariant 8 <= n <= 13 && After(Start(0), steps, ttl, n) == Some(s) && s.now == if n == 8 then lag else lag + ttl
      invariant key in s.m && s.m[key] == 0 && |s.entries| == 1 && (1 in s.pcs <==> n > 9)
      invariant s.entries[0] == Entry(key, Some(value), Some(lag), if n == 11 || n == 12 then Some(1) else None)
      invariant n >= 10 ==> s.pcs[1] == if n == 10 then Got(key, 0) else if n == 11 then Locked(key, 0)
                                        else if n == 12 then Ready(key, 0, lag + ttl)
                                            else Done(key, Some(value), lag + ttl)
      invariant s.loads == [Loaded(key, value, 0, lag)]
    {
      AfterNext(Start(0), steps, ttl, n, s);
      s := Next(s, steps[n], ttl);
      n := n + 1;
    }
  }

  /** If no load of the run is stamped more than `lag` late, no age is over `bound`. */
  ghost predicate RunKeepsAge(now: int, steps: seq<Step<int>>, ttl: nat, n: nat, lag: nat, bound: int) {
    n <= |steps| ==>
      var s := After(Start(now), steps, ttl, n);
      s.Some? && LagsAtMost(s.value, lag) ==> AgesAtMost(s.value, bound)
  }

  /** The exact bound: an age limit holds in all runs whose stamps are at most `lag` late
      if and only if it is at least the ttl and the delay together. */
  lemma {:induction false} AgeBoundExactly(ttl: nat, lag: nat, bound: int)
    ensures (forall now, steps, n: nat :: RunKeepsAge(now, steps, ttl, n, lag, bound)) <==> bound >= ttl + lag
  {
    if bound >= ttl + lag {
      forall now, steps, n: nat ensures RunKeepsAge(now, steps, ttl, n, lag, bound) {
        if n <= |steps| && After(Start(now), steps, ttl, n).Some?
            && LagsAtMost(After(Start(now), steps, ttl, n).value, lag) {
          AgeIsTtlAndLag(now, steps, ttl, n, lag);
        }
      }
    } else {
      HeldUpAttains("", 0, ttl, lag);
      var s := After(Start(0), HeldUp("", 0, ttl, lag), ttl, 13).value;
      assert s.loads == [Loaded("", 0, 0, lag)];
      assert !AgesAtMost(s, bound);
      assert !RunKeepsAge(0, HeldUp("", 0, ttl, lag), ttl, 13, lag, bound);
    }
  }
}

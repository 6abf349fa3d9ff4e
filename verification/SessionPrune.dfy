/** The exact effect of the expiry loop in pruneSessions, which skips the entry after each removal. */
module SessionPrune {
  import opened SessionModel

  /** The expiry loop at a clock that stands still. */
  function SteadySweep(a: seq<Entry>, now: int): seq<Entry>
    decreases |a|
  {
    if a == [] then []
    else if !Expired(a[0], now) then [a[0]] + SteadySweep(a[1..], now)
    else if |a| == 1 then []
    else [a[1]] + SteadySweep(a[2..], now)
  }

  ghost predicate Steady(clock: Clock, now: int) {
    forall j :: clock(j) == now
  }

  lemma {:induction false} SweepSteadily(a: seq<Entry>, clock: Clock, n: nat, now: int)
    requires Steady(clock, now)
    ensures Sweep(a, clock, n) == SteadySweep(a, now)
    decreases |a|
  {
    assert clock(n) == now;
    if a == [] {
    } else if !Expired(a[0], now) {
      SweepSteadily(a[1..], clock, n + 1, now);
    } else if |a| >= 2 {
      SweepSteadily(a[2..], clock, n + 1, now);
    }
  }

  ghost predicate AllExpired(a: seq<Entry>, now: int) {
    forall i :: 0 <= i < |a| ==> Expired(a[i], now)
  }

  ghost predicate NoneExpired(a: seq<Entry>, now: int) {
    forall i :: 0 <= i < |a| ==> !Expired(a[i], now)
  }

  /** Every second element, starting with the second. */
  function Odds(a: seq<Entry>): seq<Entry> {
    seq(|a| / 2, j requires 0 <= j < |a| / 2 => a[2 * j + 1])
  }

  /** A run of expired entries keeps exactly its second, fourth, ... entries. */
  lemma {:induction false} SweepRun(run: seq<Entry>, now: int)
    requires AllExpired(run, now)
    ensures SteadySweep(run, now) == Odds(run)
    decreases |run|
  {
    if |run| >= 2 {
      SweepRun(run[2..], now);
      assert Odds(run) == [run[1]] + Odds(run[2..]);
    }
  }

  /** A maximal run of k expired entries shrinks to its k/2 entries at odd places; the unexpired
      entry that ends the run stays, and the loop goes on behind it as if it started there. */
  lemma {:induction false} SweepSplits(run: seq<Entry>, live: Entry, rest: seq<Entry>, now: int)
    requires AllExpired(run, now) && !Expired(live, now)
    ensures SteadySweep(run + [live] + rest, now) == Odds(run) + [live] + SteadySweep(rest, now)
    decreases |run|
  {
    var a := run + [live] + rest;
    if |run| == 0 {
      assert a[1..] == rest && Odds(run) == [];
    } else if |run| == 1 {
      assert a[1] == live && a[2..] == rest && Odds(run) == [];
    } else {
      SweepSplits(run[2..], live, rest, now);
      assert a[2..] == run[2..] + [live] + rest;
      assert Odds(run) == [run[1]] + Odds(run[2..]);
    }
  }

  function Unexpired(a: seq<Entry>, now: int): seq<Entry> {
    if a == [] then [] else (if Expired(a[0], now) then [] else [a[0]]) + Unexpired(a[1..], now)
  }

  /** The lengths of the runs of expired entries before, between and after the unexpired ones. */
  function Runs(a: seq<Entry>, now: int): (r: seq<nat>)
    ensures |r| >= 1
  {
    if a == [] then [0]
    else
      var r := Runs(a[1..], now);
      if Expired(a[0], now) then [r[0] + 1] + r[1..] else [0] + r
  }

  function Half(r: seq<nat>): seq<nat> {
    seq(|r|, i requires 0 <= i < |r| => r[i] / 2)
  }

  lemma RunsOfPair(a: seq<Entry>, now: int)
    requires |a| >= 2 && Expired(a[0], now)
    ensures var r := Runs(a[2..], now);
      Runs(a, now) == if Expired(a[1], now) then [r[0] + 2] + r[1..] else [1] + r
  {
    var r := Runs(a[2..], now);
    assert a[1..][1..] == a[2..];
    if Expired(a[1], now) {
      assert Runs(a[1..], now) == [r[0] + 1] + r[1..];
    } else {
      assert Runs(a[1..], now) == [0] + r;
    }
  }

  /** One call removes no unexpired entry and keeps their order. */
  lemma {:induction false} SweepKeepsUnexpired(a: seq<Entry>, now: int)
    ensures Unexpired(SteadySweep(a, now), now) == Unexpired(a, now)
    decreases |a|
  {
    if a != [] {
      if !Expired(a[0], now) {
        SweepKeepsUnexpired(a[1..], now);
        assert SteadySweep(a, now)[1..] == SteadySweep(a[1..], now);
      } else if |a| >= 2 {
        SweepKeepsUnexpired(a[2..], now);
        assert SteadySweep(a, now)[1..] == SteadySweep(a[2..], now);
        assert a[1..][1..] == a[2..];
      }
    }
  }

  lemma RunsOfCons(e: Entry, a: seq<Entry>, now: int)
    ensures var r := Runs(a, now);
      Runs([e] + a, now) == if Expired(e, now) then [r[0] + 1] + r[1..] else [0] + r
  {
    assert ([e] + a)[1..] == a;
  }

  lemma HalfOfPair(r: seq<nat>)
    requires |r| >= 1
    ensures Half([r[0] + 2] + r[1..]) == [Half(r)[0] + 1] + Half(r)[1..]
    ensures Half([1] + r) == [0] + Half(r)
    ensures Half([0] + r) == [0] + Half(r)
  {
  }

  lemma HalvesPair(x: Entry, rest: seq<Entry>, runs: seq<nat>, r: seq<nat>, now: int)
    requires |r| >= 1 && Runs(rest, now) == Half(r)
    requires runs == if Expired(x, now) then [r[0] + 2] + r[1..] else [1] + r
    ensures Runs([x] + rest, now) == Half(runs)
  {
    RunsOfCons(x, rest, now);
    HalfOfPair(r);
  }

  /** One call halves every run of expired entries. */
  lemma {:induction false} SweepHalvesRuns(a: seq<Entry>, now: int)
    ensures Runs(SteadySweep(a, now), now) == Half(Runs(a, now))
    decreases |a|
  {
    if a == [] {
    } else if !Expired(a[0], now) {
      SweepHalvesRuns(a[1..], now);
      RunsOfCons(a[0], SteadySweep(a[1..], now), now);
      HalfOfPair(Runs(a[1..], now));
    } else if |a| == 1 {
      OneExpired(a, now);
    } else {
      SweepHalvesRuns(a[2..], now);
      RunsOfPair(a, now);
      HalvesPair(a[1], SteadySweep(a[2..], now), Runs(a, now), Runs(a[2..], now), now);
    }
  }

  lemma OneExpired(a: seq<Entry>, now: int)
    requires |a| == 1 && Expired(a[0], now)
    ensures SteadySweep(a, now) == [] && Runs(a, now) == [1]
    ensures Half(Runs(a, now)) == [0] == Runs([], now)
  {
    assert a[1..] == [];
    assert Half([1]) == [0];
  }

  function Halved(k: nat, n: nat): nat {
    if n == 0 then k else Halved(k / 2, n - 1)
  }

  function FloorLog2(k: nat): nat
    requires k >= 1
  {
    if k == 1 then 0 else 1 + FloorLog2(k / 2)
  }

  function Pow2(n: nat): nat {
    if n == 0 then 1 else 2 * Pow2(n - 1)
  }

  lemma {:induction false} FloorLog2IsFloor(k: nat)
    requires k >= 1
    ensures Pow2(FloorLog2(k)) <= k < Pow2(FloorLog2(k) + 1)
    decreases k
  {
    if k > 1 {
      FloorLog2IsFloor(k / 2);
    }
  }

  lemma {:induction false} HalvedToZero(k: nat, n: nat)
    ensures Halved(k, n) == 0 <==> k < Pow2(n)
    decreases n
  {
    if n > 0 {
      HalvedToZero(k / 2, n - 1);
    }
  }

  lemma {:induction false} Pow2Grows(m: nat, n: nat)
    requires m <= n
    ensures Pow2(m) <= Pow2(n)
    decreases n
  {
    if m < n {
      Pow2Grows(m, n - 1);
    }
  }

  /** n halvings bring k to zero if and only if n exceeds floor(log2 k). */
  lemma ClearsAfterLog(k: nat, n: nat)
    ensures Halved(k, n) == 0 <==> k == 0 || n >= FloorLog2(k) + 1
  {
    HalvedToZero(k, n);
    if k == 0 {
      Pow2Grows(0, n);
    } else {
      FloorLog2IsFloor(k);
      if n >= FloorLog2(k) + 1 {
        Pow2Grows(FloorLog2(k) + 1, n);
      } else {
        Pow2Grows(n, FloorLog2(k));
      }
    }
  }

  function HalvedAll(r: seq<nat>, n: nat): seq<nat> {
    seq(|r|, i requires 0 <= i < |r| => Halved(r[i], n))
  }

  function Sweeps(a: seq<Entry>, now: int, n: nat): seq<Entry>
    decreases n
  {
    if n == 0 then a else Sweeps(SteadySweep(a, now), now, n - 1)
  }

  lemma {:induction false} SweepsHalveRuns(a: seq<Entry>, now: int, n: nat)
    ensures Unexpired(Sweeps(a, now, n), now) == Unexpired(a, now)
    ensures Runs(Sweeps(a, now, n), now) == HalvedAll(Runs(a, now), n)
    decreases n
  {
    if n > 0 {
      SweepHalvesRuns(a, now);
      SweepKeepsUnexpired(a, now);
      SweepsHalveRuns(SteadySweep(a, now), now, n - 1);
      assert HalvedAll(Half(Runs(a, now)), n - 1) == HalvedAll(Runs(a, now), n);
    }
  }

  ghost predicate AllZero(r: seq<nat>) {
    forall i :: 0 <= i < |r| ==> r[i] == 0
  }

  lemma ZeroCons(r: seq<nat>)
    ensures AllZero([0] + r) <==> AllZero(r)
  {
    var s := [0] + r;
    assert forall i :: 0 <= i < |r| ==> s[i + 1] == r[i];
  }

  lemma NoneExpiredCons(e: Entry, a: seq<Entry>, now: int)
    ensures NoneExpired([e] + a, now) <==> !Expired(e, now) && NoneExpired(a, now)
  {
    var b := [e] + a;
    assert b[0] == e;
    assert forall i :: 0 <= i < |a| ==> b[i + 1] == a[i];
  }

  lemma {:induction false} NoRunsIffNoneExpired(a: seq<Entry>, now: int)
    ensures NoneExpired(a, now) <==> AllZero(Runs(a, now))
    decreases |a|
  {
    if a != [] {
      NoRunsIffNoneExpired(a[1..], now);
      assert a == [a[0]] + a[1..];
      NoneExpiredCons(a[0], a[1..], now);
      ZeroCons(Runs(a[1..], now));
      assert Expired(a[0], now) ==> Runs(a, now)[0] > 0;
    }
  }

  /** n calls at one clock reading leave no expired entry if and only if n > floor(log2 k) for every
      run of k >= 1 expired entries. */
  lemma CallsToClear(a: seq<Entry>, now: int, n: nat)
    ensures NoneExpired(Sweeps(a, now, n), now) <==>
            forall k :: k in Runs(a, now) && k >= 1 ==> n >= FloorLog2(k) + 1
  {
    var r := Runs(a, now);
    SweepsHalveRuns(a, now, n);
    NoRunsIffNoneExpired(Sweeps(a, now, n), now);
    var r' := Runs(Sweeps(a, now, n), now);
    forall i | 0 <= i < |r| ensures r'[i] == 0 <==> r[i] == 0 || n >= FloorLog2(r[i]) + 1 {
      ClearsAfterLog(r[i], n);
    }
    forall i | 0 <= i < |r| ensures r[i] in r {}
    if AllZero(r') {
      forall k | k in r && k >= 1 ensures n >= FloorLog2(k) + 1 {
        var i :| 0 <= i < |r| && r[i] == k;
        assert r'[i] == 0;
      }
    }
  }

  /** How many expired entries stand at the end. */
  function TrailingRun(a: seq<Entry>, now: int): nat {
    Runs(a, now)[|Runs(a, now)| - 1]
  }

  lemma TrailingRunPairs(a: seq<Entry>, now: int)
    requires |a| >= 2 && Expired(a[0], now)
    ensures TrailingRun(a, now) % 2 == TrailingRun(a[2..], now) % 2
  {
    RunsOfPair(a, now);
  }

  /** An entry that stands behind `a` is passed over: the loop's last turn in `a` removes its last entry. */
  predicate PassedOver(a: seq<Entry>, clock: Clock, n: nat)
    decreases |a|
  {
    if a == [] then false
    else if !Expired(a[0], clock(n)) then PassedOver(a[1..], clock, n + 1)
    else |a| == 1 || PassedOver(a[2..], clock, n + 1)
  }

  /** The fate of the newest entry, for any clock: unless it is passed over, it is looked at in the turn
      that comes after one turn for every entry kept, and goes exactly when it is expired then. */
  lemma {:induction false} SweepNewest(a: seq<Entry>, e: Entry, clock: Clock, n: nat)
    ensures var kept := Sweep(a, clock, n);
      Sweep(a + [e], clock, n) ==
      if !PassedOver(a, clock, n) && Expired(e, clock(n + |kept|)) then kept else kept + [e]
    decreases |a|
  {
    var b := a + [e];
    if a == [] {
      assert b[1..] == [];
    } else if !Expired(a[0], clock(n)) {
      SweepNewest(a[1..], e, clock, n + 1);
      assert b[1..] == a[1..] + [e] && b[0] == a[0];
    } else if |a| == 1 {
      assert b[2..] == [];
    } else {
      SweepNewest(a[2..], e, clock, n + 1);
      assert b[2..] == a[2..] + [e];
    }
  }

  /** At a clock that stands still, an entry is passed over exactly behind an odd run of expired ones. */
  lemma {:induction false} PassedOverIsOdd(a: seq<Entry>, clock: Clock, n: nat, now: int)
    requires Steady(clock, now)
    ensures PassedOver(a, clock, n) <==> TrailingRun(a, now) % 2 == 1
    decreases |a|
  {
    assert clock(n) == now;
    if a == [] {
    } else if !Expired(a[0], now) {
      PassedOverIsOdd(a[1..], clock, n + 1, now);
      assert Runs(a, now) == [0] + Runs(a[1..], now);
    } else if |a| == 1 {
      assert Runs(a[1..], now) == [0];
    } else {
      PassedOverIsOdd(a[2..], clock, n + 1, now);
      TrailingRunPairs(a, now);
    }
  }
}

/** The reconnect delays, and how the timeout option ends a run that never opens. */
module WebSocketBackoff {
  import opened WebSocketModel
  import opened WebSocketTimers
  import opened WebSocketOnce

  /** The delay before the (n+1)-th firing of one reconnect loop. */
  function Delay(n: nat): nat {
    if n == 0 then FIRST_DELAY else NextDelay(Delay(n - 1))
  }

  /** Delays start at 1000, never decrease, never exceed 60000, and reach 60000 at the twelfth. */
  lemma {:induction false} DelayShape(m: nat, n: nat)
    requires m <= n
    ensures FIRST_DELAY <= Delay(m) <= Delay(n) <= MAX_DELAY
    ensures Delay(n) == MAX_DELAY <==> n >= 11
    decreases n
  {
    FirstDelays();
    if n > 11 {
      DelayShape(if m < n then m else n - 1, n - 1);
    } else if m < n {
      DelayShape(m, n - 1);
    }
  }

  lemma FirstDelays()
    ensures Delay(0) == 1000 && Delay(1) == 1500 && Delay(2) == 2250 && Delay(3) == 3375 && Delay(4) == 5063
    ensures Delay(5) == 7595 && Delay(6) == 11393 && Delay(7) == 17090 && Delay(8) == 25635
    ensures Delay(9) == 38453 && Delay(10) == 57680 && Delay(11) == 60000
  {
    assert Delay(1) == NextDelay(Delay(0));
    assert Delay(2) == NextDelay(Delay(1));
    assert Delay(3) == NextDelay(Delay(2));
    assert Delay(4) == NextDelay(Delay(3));
    assert Delay(5) == NextDelay(Delay(4));
    assert Delay(6) == NextDelay(Delay(5));
    assert Delay(7) == NextDelay(Delay(6));
    assert Delay(8) == NextDelay(Delay(7));
    assert Delay(9) == NextDelay(Delay(8));
    assert Delay(10) == NextDelay(Delay(9));
    assert Delay(11) == NextDelay(Delay(10));
  }

  /** Nothing opens the wrapper and nobody but the timeout destroys it. */
  predicate Unopened(e: Event) {
    match e
    case TimerFires(_, _, k) => NoDestroy(k)
    case SocketOpens(_, _) => false
    case SocketCloses(_, k) => NoDestroy(k)
    case SocketFails(_, k) => NoDestroy(k)
    case MessageArrives(_, _, _) => false
    case FlushTick(k) => NoDestroy(k)
    case PauseCalled => true
    case UnpauseCalled(k) => NoDestroy(k)
    case DestroyCalled(_) => false
  }

  /** How often a reconnect timer fires in a run. */
  ghost function Firings(w: Wrapper, es: seq<Event>): nat
    decreases |es|
  {
    if es == [] then 0
    else (if es[0].TimerFires? && Enabled(w, es[0]) then 1 else 0) + Firings(Step(w, es[0]), es[1..])
  }

  /** After r redials: all the delays waited for so far were within the timeout. */
  ghost predicate Tried(w: Wrapper, r: int) {
    && 0 <= r && w.core.connects == r + 1
    && (forall j: nat {:trigger Delay(j)} :: j < r ==> !TimedOut(w.cfg, Delay(j)))
  }

  ghost predicate Waiting(w: Wrapper) {
    && w.core.options && w.core.phase !in {Open, Destroyed}
    && Tried(w, w.core.connects - 1)
    && (if w.core.attempt.None? then w.core.timers == map[] && w.core.connects == 1
        else w.core.timers == map[w.core.attempt.value := Delay(w.core.connects - 1)])
  }

  /** The timeout has destroyed the wrapper. Late close events of superseded sockets may still come. */
  ghost predicate GaveUp(w: Wrapper) {
    !w.core.options && Tried(w, w.core.connects - 1) && TimedOut(w.cfg, Delay(w.core.connects - 1))
  }

  lemma QuietReact(w: Wrapper, q: Queue, k: Script)
    requires Running(w.core) && NoDestroy(k)
    ensures React(w, q, k).core == w.core && React(w, q, k).cfg == w.cfg
  {
    ReactCore(w, q, k);
    NoDestroyNeverReenters(k, w.buffer != []);
    if w.core.phase != Destroyed {
      ReactBalance(w, q, k);
    }
  }

  lemma QuietFlush(w: Wrapper, k: Script)
    requires Running(w.core) && NoDestroy(k)
    ensures Flush(w, k).core == w.core && Flush(w, k).cfg == w.cfg
  {
    if !w.paused && w.buffer != [] {
      QuietReact(Handed(w, FirstBatch(w)), Remaining(w), k);
    }
  }

  lemma QuietStep(w: Wrapper, e: Event)
    requires Inv(w) && w.cfg.reconnect && Unopened(e) && (Waiting(w) || GaveUp(w))
    ensures var w' := Step(w, e);
      && Inv(w') && w'.cfg == w.cfg && (Waiting(w') || GaveUp(w')) && (GaveUp(w) ==> GaveUp(w'))
      && (Waiting(w') ==> w'.core.connects == w.core.connects + (if e.TimerFires? && Enabled(w, e) then 1 else 0))
  {
    StepKeepsInv(w, e);
    InvIsRunning(w.core);
    if Enabled(w, e) {
      match e
      case TimerFires(t, ok, k) => QuietAttempt(w, t, ok, k);
      case SocketCloses(s, k) => QuietReact(w.(core := Shut(w.core, s)), NO_QUEUE, k);
      case SocketFails(s, k) => QuietReact(w.(core := w.core.(phase := Error)), NO_QUEUE, k);
      case FlushTick(k) => QuietFlush(w, k);
      case PauseCalled =>
      case UnpauseCalled(k) => QuietFlush(w.(paused := false), k);
    }
  }

  lemma QuietAttempt(w: Wrapper, t: nat, ok: bool, k: Script)
    requires Inv(w) && w.cfg.reconnect && NoDestroy(k) && (Waiting(w) || GaveUp(w)) && t in w.core.timers
    ensures var w' := Attempt(w, t, ok, k);
      && w'.cfg == w.cfg && (GaveUp(w) ==> GaveUp(w'))
      && (Waiting(w) ==> if TimedOut(w.cfg, w.core.timers[t]) then GaveUp(w')
                         else Waiting(w') && w'.core.connects == w.core.connects + 1)
  {
    if Waiting(w) {
      assert t == w.core.attempt.value && w.core.timers - {t} == map[];
      if TimedOut(w.cfg, w.core.timers[t]) {
        QuietGiveUp(w, t, ok, k);
      }
    }
  }

  lemma QuietGiveUp(w: Wrapper, t: nat, ok: bool, k: Script)
    requires Waiting(w) && w.cfg.reconnect && t in w.core.timers && TimedOut(w.cfg, w.core.timers[t])
    requires w.core.timers - {t} == map[]
    ensures GaveUp(Attempt(w, t, ok, k)) && Attempt(w, t, ok, k).cfg == w.cfg
  {
    var c := Disarm(w.core.(timers := w.core.timers - {t}));
    DestroyCore(w.(core := c), k);
    assert Torn(c).connects == w.core.connects && !Torn(c).options;
  }

  lemma {:induction false} QuietTrace(w: Wrapper, es: seq<Event>)
    requires Inv(w) && w.cfg.reconnect && (Waiting(w) || GaveUp(w)) && forall e :: e in es ==> Unopened(e)
    ensures var w' := Trace(w, es);
      && w'.cfg == w.cfg && (Waiting(w') || GaveUp(w')) && (GaveUp(w) ==> GaveUp(w'))
      && (Waiting(w') ==> w'.core.connects == w.core.connects + Firings(w, es))
    decreases |es|
  {
    if es != [] {
      QuietStep(w, es[0]);
      QuietTrace(Step(w, es[0]), es[1..]);
    }
  }

  /** Reconnect on, nothing ever opens, nobody calls destroy. A timeout T with 0 < T < 60000 destroys
      the wrapper at the first delay above T, after at most 11 reconnects and 12 timer firings; with
      T >= 60000, or no timeout, it is never destroyed and every firing reconnects. */
  lemma TimeoutDestroys(cfg: Config, ok: bool, es: seq<Event>)
    requires cfg.reconnect && forall e :: e in es ==> Unopened(e)
    ensures var w := Trace(New(cfg, ok), es); var reconnects := w.core.connects - 1;
      && (w.core.options ==> reconnects == Firings(New(cfg, ok), es))
      && (!w.core.options ==> reconnects >= 0 && TimedOut(cfg, Delay(reconnects))
                              && forall j: nat :: j < reconnects ==> !TimedOut(cfg, Delay(j)))
      && (0 < cfg.timeout < MAX_DELAY ==> 0 <= reconnects <= 11)
      && (0 < cfg.timeout < MAX_DELAY && Firings(New(cfg, ok), es) >= 12 ==> !w.core.options)
      && (cfg.timeout >= MAX_DELAY || cfg.timeout == 0 ==> w.core.options)
  {
    QuietTrace(New(cfg, ok), es);
    ReconnectsBounded(Trace(New(cfg, ok), es));
  }

  lemma ReconnectsBounded(w: Wrapper)
    requires Waiting(w) || GaveUp(w)
    ensures var r := w.core.connects - 1;
      && (0 < w.cfg.timeout < MAX_DELAY ==> r <= 11)
      && (GaveUp(w) ==> w.cfg.timeout != 0 && w.cfg.timeout < MAX_DELAY)
  {
    var r: nat := w.core.connects - 1;
    DelayShape(r, r);
    DelayShape(11, 11);
    assert r > 11 ==> !TimedOut(w.cfg, Delay(11));
  }
}

/** How often the destroy event is delivered over a whole run, and when a destroyed wrapper stays as it
    is. Both depend on the sockets that `_connect` has replaced: whether one of them calls back after a
    destroy. */
module WebSocketOnce {
  import opened Options
  import opened WebSocketModel
  import opened WebSocketTimers

  /** A socket that was replaced earlier opens, closes or fails after the wrapper was destroyed. */
  predicate CallsBack(w: Wrapper, e: Event) {
    && w.core.phase == Destroyed && Enabled(w, e)
    && (e.SocketOpens? || e.SocketCloses? || e.SocketFails?)
  }

  /** Replaced sockets may stay connecting or up; after a destroy none of them calls back. */
  ghost predicate StraysSilent(w: Wrapper, es: seq<Event>)
    decreases |es|
  {
    es != [] ==> !CallsBack(w, es[0]) && StraysSilent(Step(w, es[0]), es[1..])
  }

  /** Of the handlers that run in this step, none that belong to a destroy reach another destroy. */
  predicate OnceIn(w: Wrapper, e: Event) {
    var full := w.buffer != [];
    w.core.phase != Destroyed && Enabled(w, e) ==>
      match e
      case TimerFires(t, _, k) =>
        w.core.options && w.cfg.reconnect && w.core.phase != Open && TimedOut(w.cfg, w.core.timers[t]) ==>
          !Reenters(k, full)
      case SocketOpens(_, k) => Once(k, full)
      case SocketCloses(_, k) => Once(k, full)
      case SocketFails(_, k) => Once(k, full)
      case MessageArrives(_, m, k) => m.Some? && w.cfg.bufferMax == 0 ==> Once(k, full)
      case FlushTick(k) => !w.paused && full ==> Once(k, true)
      case PauseCalled => true
      case UnpauseCalled(k) => full ==> Once(k, true)
      case DestroyCalled(k) => !Reenters(k, full)
  }

  ghost predicate OnceEach(w: Wrapper, es: seq<Event>)
    decreases |es|
  {
    es != [] ==> OnceIn(w, es[0]) && OnceEach(Step(w, es[0]), es[1..])
  }

  /** A destroyed wrapper has an empty buffer. */
  ghost predicate Settled(w: Wrapper) {
    Inv(w) && (w.core.phase == Destroyed ==> w.buffer == [])
  }

  /** One step never lowers the excess, and keeps it exactly when no replaced socket calls back and no
      destroy reaches another. */
  ghost predicate Balanced(w: Wrapper, w': Wrapper, once: bool) {
    && (w'.core.phase == Destroyed ==> w'.buffer == [])
    && Excess(w) <= Excess(w') && (Excess(w') == Excess(w) <==> once)
  }

  /** Handlers that run after the connection half was given a live phase. */
  lemma LiveReact(w: Wrapper, p: Wrapper, k: Script)
    requires p.core.phase != Destroyed && p.log.destroys == w.log.destroys && p.buffer == w.buffer
    ensures var r := React(p, NO_QUEUE, k);
      && (r.core.phase == Destroyed ==> r.buffer == [])
      && Balanced(w, r, w.core.phase != Destroyed && Once(k, w.buffer != []))
  {
    ReactBalance(p, NO_QUEUE, k);
  }

  lemma FlushStep(w: Wrapper, k: Script)
    requires Settled(w)
    ensures var full := w.buffer != [];
      Balanced(w, Flush(w, k), w.core.phase == Destroyed || (!w.paused && full ==> Once(k, true)))
  {
    if !w.paused {
      FlushBalance(w, k);
    }
  }

  lemma DestroyStep(w: Wrapper, c: Core, k: Script)
    requires w.core.phase != Destroyed && c.phase == w.core.phase
    ensures Balanced(w, DestroyCall(w.(core := c), k), !Reenters(k, w.buffer != []))
  {
    DestroyBalance(w.(core := c), k);
  }

  lemma AttemptStep(w: Wrapper, t: nat, ok: bool, k: Script)
    requires Settled(w) && t in w.core.timers
    ensures Balanced(w, Attempt(w, t, ok, k), OnceIn(w, TimerFires(t, ok, k)))
  {
    if w.core.options && w.cfg.reconnect && w.core.phase != Open && TimedOut(w.cfg, w.core.timers[t]) {
      DestroyStep(w, Disarm(w.core.(timers := w.core.timers - {t})), k);
    }
  }

  lemma MessageStep(w: Wrapper, s: nat, m: Msg, k: Script)
    requires Settled(w) && s in w.core.sockets
    ensures Balanced(w, OnMessage(w, m, k), OnceIn(w, MessageArrives(s, Some(m), k)))
  {
    if w.core.phase != Destroyed && w.cfg.bufferMax == 0 {
      LiveReact(w, PassedOn(w.(core := w.core.(phase := if w.core.phase == Closed then Closed else Open)), m), k);
    }
  }

  /** What comes after the handlers of open and close touches neither phase, buffer nor count. */
  lemma SocketStep(w: Wrapper, s: nat, k: Script)
    requires Settled(w) && s in w.core.sockets
    ensures var once := w.core.phase != Destroyed && Once(k, w.buffer != []);
      && Balanced(w, OnOpen(w, s, k), once) && Balanced(w, OnClose(w, s, k), once) && Balanced(w, OnError(w, k), once)
  {
    LiveReact(w, w.(core := Opened(w.core, s)), k);
    LiveReact(w, w.(core := Shut(w.core, s)), k);
    LiveReact(w, w.(core := w.core.(phase := Error)), k);
  }

  lemma StepBalance(w: Wrapper, e: Event)
    requires Settled(w)
    ensures Balanced(w, Step(w, e), !CallsBack(w, e) && OnceIn(w, e))
  {
    if Enabled(w, e) {
      match e
      case TimerFires(t, ok, k) => AttemptStep(w, t, ok, k);
      case SocketOpens(s, k) => SocketStep(w, s, k);
      case SocketCloses(s, k) => SocketStep(w, s, k);
      case SocketFails(s, k) => SocketStep(w, s, k);
      case MessageArrives(s, m, k) => if m.Some? { MessageStep(w, s, m.value, k); }
      case FlushTick(k) => FlushStep(w, k);
      case PauseCalled =>
      case UnpauseCalled(k) => FlushStep(w.(paused := false), k);
      case DestroyCalled(k) => if w.core.phase != Destroyed { DestroyStep(w, w.core, k); }
    }
  }

  lemma {:induction false} TraceBalance(w: Wrapper, es: seq<Event>)
    requires Settled(w)
    ensures Settled(Trace(w, es))
    ensures Balanced(w, Trace(w, es), StraysSilent(w, es) && OnceEach(w, es))
    decreases |es|
  {
    if es != [] {
      StepBalance(w, es[0]);
      StepKeepsInv(w, es[0]);
      TraceBalance(Step(w, es[0]), es[1..]);
    }
  }

  /** Over every run from construction: the destroy event has been delivered once if the wrapper is
      destroyed, and never if it is not, if and only if no replaced socket called back after a destroy
      and no destroy handler reached another destroy. */
  lemma DestroyedOnceExactly(cfg: Config, ok: bool, es: seq<Event>)
    ensures var w := Trace(New(cfg, ok), es);
      w.log.destroys == (if w.core.phase == Destroyed then 1 else 0) <==>
      StraysSilent(New(cfg, ok), es) && OnceEach(New(cfg, ok), es)
  {
    TraceBalance(New(cfg, ok), es);
  }

  // ---- when a destroyed wrapper stays as it is ----

  lemma DeadStep(w: Wrapper, e: Event)
    requires Inv(w) && Dead(w) && !CallsBack(w, e)
    ensures Step(w, e).(paused := w.paused) == w
  {
  }

  /** Run by run: nothing but the pause flag ever differs from a destroyed wrapper if and only if no
      replaced socket calls back in that run. */
  lemma {:induction false} UnmovedExactly(w: Wrapper, es: seq<Event>)
    requires Inv(w) && Dead(w)
    ensures Unmoved(w, es) <==> StraysSilent(w, es)
    decreases |es|
  {
    if es != [] {
      TraceBalance(w, es);
      if !CallsBack(w, es[0]) {
        DeadStep(w, es[0]);
        StepKeepsInv(w, es[0]);
        UnmovedExactly(Step(w, es[0]), es[1..]);
      }
    }
  }

  // ---- runs with polite handlers ----

  predicate NoDestroy(k: Script) {
    match k
    case Done => true
    case Return(next) => NoDestroy(next)
    case Pause(next) => NoDestroy(next)
    case Unpause(during, next) => NoDestroy(during) && NoDestroy(next)
    case Destroy(_, _) => false
  }

  /** Handlers may call destroy, but destroy handlers do not. */
  predicate Polite(k: Script) {
    match k
    case Done => true
    case Return(next) => Polite(next)
    case Pause(next) => Polite(next)
    case Unpause(during, next) => Polite(during) && Polite(next)
    case Destroy(during, next) => NoDestroy(during) && Polite(next)
  }

  predicate PoliteEvent(e: Event) {
    match e
    case TimerFires(_, _, k) => NoDestroy(k)
    case SocketOpens(_, k) => Polite(k)
    case SocketCloses(_, k) => Polite(k)
    case SocketFails(_, k) => Polite(k)
    case MessageArrives(_, _, k) => Polite(k)
    case FlushTick(k) => Polite(k)
    case PauseCalled => true
    case UnpauseCalled(k) => Polite(k)
    case DestroyCalled(k) => NoDestroy(k)
  }

  lemma {:induction false} NoDestroyNeverReenters(k: Script, full: bool)
    requires NoDestroy(k)
    ensures !Reenters(k, full)
    decreases k
  {
    match k
    case Done =>
    case Return(next) => NoDestroyNeverReenters(next, full);
    case Pause(next) => NoDestroyNeverReenters(next, full);
    case Unpause(during, next) =>
      NoDestroyNeverReenters(during, true);
      NoDestroyNeverReenters(next, false);
  }

  lemma {:induction false} PoliteIsOnce(k: Script, full: bool)
    requires Polite(k)
    ensures Once(k, full)
    decreases k
  {
    match k
    case Done =>
    case Return(next) => PoliteIsOnce(next, full);
    case Pause(next) => PoliteIsOnce(next, full);
    case Unpause(during, next) =>
      PoliteIsOnce(during, true);
      PoliteIsOnce(next, false);
    case Destroy(during, _) => NoDestroyNeverReenters(during, full);
  }

  lemma {:induction false} PoliteRunIsOnce(w: Wrapper, es: seq<Event>)
    requires forall e :: e in es ==> PoliteEvent(e)
    ensures OnceEach(w, es)
    decreases |es|
  {
    if es != [] {
      var e, full := es[0], w.buffer != [];
      assert PoliteEvent(e);
      if e.TimerFires? || e.DestroyCalled? {
        NoDestroyNeverReenters(e.k, full);
      } else if !e.PauseCalled? {
        PoliteIsOnce(e.k, full);
      }
      PoliteRunIsOnce(Step(w, e), es[1..]);
    }
  }

  /** From construction, over every run in which destroy handlers do not call destroy and no replaced
      socket calls back after a destroy: the destroy event has been delivered once if the wrapper is
      destroyed and never before, and from then on nothing but the pause flag changes for as long as
      the replaced sockets stay silent, and no longer. */
  lemma DestroyedOncePerRun(cfg: Config, ok: bool, es: seq<Event>)
    requires StraysSilent(New(cfg, ok), es) && forall e :: e in es ==> PoliteEvent(e)
    ensures var w := Trace(New(cfg, ok), es);
      && w.log.destroys == (if w.core.phase == Destroyed then 1 else 0)
      && (w.core.phase == Destroyed ==> forall later :: Unmoved(w, later) <==> StraysSilent(w, later))
  {
    var w := Trace(New(cfg, ok), es);
    DestroyedOnceExactly(cfg, ok, es);
    PoliteRunIsOnce(New(cfg, ok), es);
    TraceBalance(New(cfg, ok), es);
    if w.core.phase == Destroyed {
      forall later ensures Unmoved(w, later) <==> StraysSilent(w, later) {
        UnmovedExactly(w, later);
      }
    }
  }

  // ---- runs that replace only sockets that are down ----

  /** The event does not replace a current socket that is still connecting or up. */
  predicate ReplacesOnlyDown(w: Wrapper, e: Event) {
    (e.TimerFires? && e.t in w.core.timers && Redials(w, e.t) && w.core.ws.Some? && w.core.ws.value in w.core.sockets)
    ==> w.core.sockets[w.core.ws.value] == Down
  }

  ghost predicate Orderly(w: Wrapper, es: seq<Event>)
    decreases |es|
  {
    es != [] ==> ReplacesOnlyDown(w, es[0]) && Orderly(Step(w, es[0]), es[1..])
  }

  lemma NoStrayTorn(c: Core, c': Core)
    requires NoStray(c) && (c' == c || c' == Torn(c))
    ensures NoStray(c')
  {
  }

  lemma NoStrayReact(w: Wrapper, c: Core, k: Script)
    requires NoStray(c) && Running(c)
    ensures NoStray(React(w.(core := c), NO_QUEUE, k).core)
  {
    ReactCore(w.(core := c), NO_QUEUE, k);
    NoStrayTorn(c, React(w.(core := c), NO_QUEUE, k).core);
  }

  lemma NoStrayFlush(w: Wrapper, k: Script)
    requires NoStray(w.core) && Running(w.core)
    ensures NoStray(Flush(w, k).core)
  {
    FlushCore(w, k);
    NoStrayTorn(w.core, Flush(w, k).core);
  }

  lemma NoStrayDestroy(w: Wrapper, c: Core, k: Script)
    requires NoStray(c) && Running(c)
    ensures NoStray(DestroyCall(w.(core := c), k).core)
  {
    DestroyCore(w.(core := c), k);
    NoStrayTorn(c, DestroyCall(w.(core := c), k).core);
  }

  lemma OrderlyStep(w: Wrapper, e: Event)
    requires Inv(w) && NoStray(w.core) && ReplacesOnlyDown(w, e)
    ensures NoStray(Step(w, e).core) && !CallsBack(w, e)
  {
    InvIsRunning(w.core);
    if Enabled(w, e) {
      match e
      case TimerFires(t, ok, k) => NoStrayDestroy(w, Disarm(w.core.(timers := w.core.timers - {t})), k);
      case SocketOpens(s, k) => NoStrayReact(w, Opened(w.core, s), k);
      case SocketCloses(s, k) => NoStrayReact(w, Shut(w.core, s), k);
      case SocketFails(s, k) => NoStrayReact(w, w.core.(phase := Error), k);
      case MessageArrives(s, m, k) => if m.Some? { OrderlyMessage(w, m.value, k); }
      case FlushTick(k) => NoStrayFlush(w, k);
      case PauseCalled =>
      case UnpauseCalled(k) => NoStrayFlush(w.(paused := false), k);
      case DestroyCalled(k) => NoStrayDestroy(w, w.core, k);
    }
  }

  lemma OrderlyMessage(w: Wrapper, m: Msg, k: Script)
    requires Inv(w) && NoStray(w.core)
    ensures NoStray(OnMessage(w, m, k).core)
  {
    var c := w.core.(phase := if w.core.phase == Closed then Closed else Open);
    NoStrayReact(PassedOn(w, m), c, k);
  }

  lemma {:induction false} OrderlyTrace(w: Wrapper, es: seq<Event>)
    requires Inv(w) && NoStray(w.core) && Orderly(w, es)
    ensures Inv(Trace(w, es)) && NoStray(Trace(w, es).core) && StraysSilent(w, es)
    decreases |es|
  {
    if es != [] {
      StepKeepsInv(w, es[0]);
      OrderlyStep(w, es[0]);
      OrderlyTrace(Step(w, es[0]), es[1..]);
    }
  }

  /** If only sockets that are down are ever replaced, no replaced socket calls back, and a destroyed
      wrapper never moves again, whatever the browser or its users do next. With polite handlers the
      destroy event is then delivered once. */
  lemma OrderlyIsFinal(cfg: Config, ok: bool, es: seq<Event>)
    requires Orderly(New(cfg, ok), es)
    ensures var w := Trace(New(cfg, ok), es);
      && StraysSilent(New(cfg, ok), es)
      && (w.core.phase == Destroyed ==> forall later :: Unmoved(w, later))
      && ((forall e :: e in es ==> PoliteEvent(e)) ==>
            w.log.destroys == if w.core.phase == Destroyed then 1 else 0)
  {
    var w := Trace(New(cfg, ok), es);
    OrderlyTrace(New(cfg, ok), es);
    TraceBalance(New(cfg, ok), es);
    if w.core.phase == Destroyed {
      DestroyedIsFinal(w);
    }
    if forall e :: e in es ==> PoliteEvent(e) {
      DestroyedOncePerRun(cfg, ok, es);
    }
  }
}

/** When messages move: pausing and unpausing, the flush interval, and the phase each socket event leaves. */
module WebSocketFlow {
  import opened Options
  import opened WebSocketModel
  import opened WebSocketTimers
  import opened WebSocketOnce
  import opened WebSocketStream

  // ---- pausing ----

  /** A pause changes nothing but the flag. In buffered mode nothing is delivered from then on, over any
      run without an unpause, by users or by handlers, and the wrapper is still paused at its end. */
  lemma PauseStops(w: Wrapper, es: seq<Event>)
    requires w.cfg.bufferMax > 0 && forall e :: e in es ==> StaysPaused(e)
    ensures Trace(w, [PauseCalled]).(paused := w.paused) == w
    ensures var after := Trace(w, [PauseCalled] + es);
      after.paused && after.log.delivered == w.log.delivered && after.log.at == w.log.at
  {
    assert Trace(w, [PauseCalled]) == Step(w, PauseCalled);
    assert ([PauseCalled] + es)[1..] == es;
    PausedIsSilent(Step(w, PauseCalled), es);
  }

  /** These handlers pause, and nothing they call afterwards unpauses. */
  predicate PausesLast(k: Script) {
    match k
    case Done => false
    case Return(next) => PausesLast(next)
    case Pause(next) => NoUnpause(next) || PausesLast(next)
    case Unpause(_, next) => PausesLast(next)
    case Destroy(_, next) => PausesLast(next)
  }

  lemma {:induction false} StillPaused(w: Wrapper, q: Queue, k: Script)
    requires w.paused && NoUnpause(k)
    ensures React(w, q, k).paused
    decreases k
  {
    match k
    case Done =>
    case Return(next) =>
      if q.messages == [] {
        StillPaused(w, q, next);
      } else {
        StillPaused(Handed(w, Head(q)), Tail(q), next);
      }
    case Pause(next) => StillPaused(w.(paused := true), q, next);
    case Destroy(during, next) =>
      StillPaused(Announced(w), NO_QUEUE, during);
      StillPaused(DestroyCall(w, during), q, next);
  }

  /** A pause by a handler holds too, whatever was called before it. */
  lemma {:induction false} LastPauseHolds(w: Wrapper, q: Queue, k: Script)
    requires PausesLast(k)
    ensures React(w, q, k).paused
    decreases k
  {
    match k
    case Return(next) =>
      if q.messages == [] {
        LastPauseHolds(w, q, next);
      } else {
        LastPauseHolds(Handed(w, Head(q)), Tail(q), next);
      }
    case Pause(next) =>
      if NoUnpause(next) {
        StillPaused(w.(paused := true), q, next);
      } else {
        LastPauseHolds(w.(paused := true), q, next);
      }
    case Unpause(during, next) => LastPauseHolds(Flush(w.(paused := false), during), q, next);
    case Destroy(during, next) => LastPauseHolds(DestroyCall(w, during), q, next);
  }

  /** Handlers of a socket event that pause last stop the deliveries of every run without an unpause. */
  lemma HandlersPause(w: Wrapper, e: Event, es: seq<Event>)
    requires w.cfg.bufferMax > 0 && Enabled(w, e) && (e.SocketOpens? || e.SocketCloses? || e.SocketFails?)
    requires PausesLast(e.k) && forall x :: x in es ==> StaysPaused(x)
    ensures var after := Trace(w, [e] + es);
      after.paused && after.log.delivered == Trace(w, [e]).log.delivered && after.log.at == Trace(w, [e]).log.at
  {
    match e {
      case SocketOpens(s, k) => LastPauseHolds(w.(core := Opened(w.core, s)), NO_QUEUE, k);
      case SocketCloses(s, k) => LastPauseHolds(w.(core := Shut(w.core, s)), NO_QUEUE, k);
      case SocketFails(s, k) => LastPauseHolds(w.(core := w.core.(phase := Error)), NO_QUEUE, k);
    }
    assert Trace(w, [e]) == Step(w, e);
    assert ([e] + es)[1..] == es;
    StepKeepsCfg(w, e);
    PausedIsSilent(Step(w, e), es);
  }

  // ---- unpausing ----

  predicate NoPause(k: Script) {
    match k
    case Done => true
    case Return(next) => NoPause(next)
    case Pause(_) => false
    case Unpause(during, next) => NoPause(during) && NoPause(next)
    case Destroy(during, next) => NoPause(during) && NoPause(next)
  }

  lemma {:induction false} NeverPauses(w: Wrapper, q: Queue, k: Script)
    requires !w.paused && NoPause(k)
    ensures !React(w, q, k).paused
    decreases k, 0
  {
    match k
    case Done =>
    case Return(next) =>
      if q.messages == [] {
        NeverPauses(w, q, next);
      } else {
        NeverPauses(Handed(w, Head(q)), Tail(q), next);
      }
    case Unpause(during, next) =>
      FlushNeverPauses(w.(paused := false), during);
      NeverPauses(Flush(w.(paused := false), during), q, next);
    case Destroy(during, next) =>
      NeverPauses(Announced(w), NO_QUEUE, during);
      NeverPauses(DestroyCall(w, during), q, next);
  }

  lemma {:induction false} FlushNeverPauses(w: Wrapper, k: Script)
    requires !w.paused && NoPause(k)
    ensures !Flush(w, k).paused
    decreases k, 1
  {
    if w.buffer != [] {
      NeverPauses(Handed(w, FirstBatch(w)), Remaining(w), k);
    }
  }

  /** `after` has an empty buffer: everything that was in it was delivered, and nothing was lost. */
  ghost predicate HandsOver(w: Wrapper, after: Wrapper) {
    && after.buffer == [] && after.log.received == w.log.received && after.log.lost == w.log.lost
    && w.log.delivered <= after.log.delivered
    && (forall p :: |w.log.received| - |w.buffer| <= p < |w.log.received| ==> p in after.log.at)
  }

  lemma FlushHandsOver(w: Wrapper, k: Script)
    requires AnyInv(w) && !w.paused
    ensures HandsOver(w, Flush(w, k)) && AnyInv(Flush(w, k))
  {
    if w.buffer != [] {
      FlushLosesNothing(w, k);
      FlushGrows(w, k, First(w));
    }
  }

  /** After any run from construction an unpause hands over everything that was buffered. If its handlers
      do not pause again, the wrapper is no longer paused; if they stay calm, each message comes once and
      in order. */
  lemma UnpauseDelivers(cfg: Config, ok: bool, es: seq<Event>, k: Script)
    ensures var w, after := Trace(New(cfg, ok), es), Trace(New(cfg, ok), es + [UnpauseCalled(k)]);
      && HandsOver(w, after)
      && (NoPause(k) || w.buffer == [] ==> !after.paused)
      && (Calm(k) ==> after.log.delivered == w.log.delivered + w.buffer)
  {
    var w := Trace(New(cfg, ok), es);
    var u := w.(paused := false);
    TraceExtends(New(cfg, ok), es, UnpauseCalled(k));
    TraceKeepsAny(New(cfg, ok), es);
    FlushHandsOver(u, k);
    if NoPause(k) {
      FlushNeverPauses(u, k);
    }
    if Calm(k) && w.buffer != [] {
      CalmFlush(u, k);
    }
  }

  // ---- the flush interval ----

  /** The interval runs for a buffered wrapper from construction to the first destroy, and never after. */
  ghost predicate Ticking(w: Wrapper) {
    w.core.interval <==> w.cfg.bufferMax > 0 && w.log.destroys == 0
  }

  lemma {:induction false} ReactKeepsTicking(w: Wrapper, q: Queue, k: Script)
    requires Ticking(w)
    ensures Ticking(React(w, q, k)) && React(w, q, k).cfg == w.cfg
    decreases k, 0
  {
    match k
    case Done =>
    case Return(next) =>
      if q.messages == [] {
        ReactKeepsTicking(w, q, next);
      } else {
        ReactKeepsTicking(Handed(w, Head(q)), Tail(q), next);
      }
    case Pause(next) => ReactKeepsTicking(w.(paused := true), q, next);
    case Unpause(during, next) =>
      FlushKeepsTicking(w.(paused := false), during);
      ReactKeepsTicking(Flush(w.(paused := false), during), q, next);
    case Destroy(during, next) =>
      ReactKeepsTicking(Announced(w), NO_QUEUE, during);
      ReactKeepsTicking(DestroyCall(w, during), q, next);
  }

  lemma {:induction false} FlushKeepsTicking(w: Wrapper, k: Script)
    requires Ticking(w)
    ensures Ticking(Flush(w, k)) && Flush(w, k).cfg == w.cfg
    decreases k, 1
  {
    if !w.paused && w.buffer != [] {
      ReactKeepsTicking(Handed(w, FirstBatch(w)), Remaining(w), k);
    }
  }

  lemma DestroyKeepsTicking(w: Wrapper, k: Script)
    requires Ticking(w)
    ensures Ticking(DestroyCall(w, k))
  {
    ReactKeepsTicking(Announced(w), NO_QUEUE, k);
  }

  lemma MessageKeepsTicking(w: Wrapper, m: Msg, k: Script)
    requires Ticking(w)
    ensures Ticking(OnMessage(w, m, k))
  {
    var w' := if w.core.phase in {Destroyed, Closed} then w else w.(core := w.core.(phase := Open));
    ReactKeepsTicking(PassedOn(w', m), NO_QUEUE, k);
  }

  lemma StepKeepsTicking(w: Wrapper, e: Event)
    requires Ticking(w)
    ensures Ticking(Step(w, e))
  {
    if Enabled(w, e) {
      match e
      case TimerFires(t, ok, k) => DestroyKeepsTicking(w.(core := Disarm(w.core.(timers := w.core.timers - {t}))), k);
      case SocketOpens(s, k) => ReactKeepsTicking(w.(core := Opened(w.core, s)), NO_QUEUE, k);
      case SocketCloses(s, k) => ReactKeepsTicking(w.(core := Shut(w.core, s)), NO_QUEUE, k);
      case SocketFails(s, k) => ReactKeepsTicking(w.(core := w.core.(phase := Error)), NO_QUEUE, k);
      case MessageArrives(s, m, k) => if m.Some? { MessageKeepsTicking(w, m.value, k); }
      case FlushTick(k) => FlushKeepsTicking(w, k);
      case PauseCalled =>
      case UnpauseCalled(k) => FlushKeepsTicking(w.(paused := false), k);
      case DestroyCalled(k) => DestroyKeepsTicking(w, k);
    }
  }

  lemma {:induction false} TraceKeepsTicking(w: Wrapper, es: seq<Event>)
    requires Ticking(w)
    ensures Ticking(Trace(w, es))
    decreases |es|
  {
    if es != [] {
      StepKeepsTicking(w, es[0]);
      TraceKeepsTicking(Step(w, es[0]), es[1..]);
    }
  }

  /** Over every run from construction the flush interval is live exactly if there is a buffer and the
      wrapper was never destroyed. */
  lemma IntervalRuns(cfg: Config, ok: bool, es: seq<Event>)
    ensures var w := Trace(New(cfg, ok), es);
      w.core.interval <==> cfg.bufferMax > 0 && w.log.destroys == 0
  {
    TraceKeepsTicking(New(cfg, ok), es);
    TraceKeepsCfg(New(cfg, ok), es);
  }

  /** After every run from construction: unless the wrapper is paused, unbuffered, or was destroyed before,
      its next tick hands over the whole buffer, whatever the handlers do, so that every message received
      has been delivered or was dropped. Otherwise the tick does nothing. */
  lemma TickDelivers(cfg: Config, ok: bool, es: seq<Event>, k: Script)
    ensures var w, after := Trace(New(cfg, ok), es), Trace(New(cfg, ok), es + [FlushTick(k)]);
      if cfg.bufferMax > 0 && w.log.destroys == 0 && !w.paused then
        && HandsOver(w, after)
        && (forall p :: 0 <= p < |w.log.received| ==> p in after.log.at || p in after.log.lost)
      else after == w
  {
    var w := Trace(New(cfg, ok), es);
    IntervalRuns(cfg, ok, es);
    TraceExtends(New(cfg, ok), es, FlushTick(k));
    TraceKeepsAny(New(cfg, ok), es);
    if w.core.interval && !w.paused {
      FlushHandsOver(w, k);
    }
  }

  // ---- the phase after a socket event ----

  /** An open leaves the wrapper open, a close closed and an error failed, unless its handlers reach a call
      to destroy, and then it is destroyed. */
  lemma PhaseAfter(w: Wrapper, e: Event)
    requires Inv(w) && Enabled(w, e) && (e.SocketOpens? || e.SocketCloses? || e.SocketFails?)
    ensures Step(w, e).core.phase ==
            if Reenters(e.k, w.buffer != []) then Destroyed
            else if e.SocketOpens? then Open else if e.SocketCloses? then Closed else Error
  {
    match e
    case SocketOpens(s, k) => PhaseAfterHandlers(w, Opened(w.core, s), k);
    case SocketCloses(s, k) => PhaseAfterHandlers(w, Shut(w.core, s), k);
    case SocketFails(s, k) => PhaseAfterHandlers(w, w.core.(phase := Error), k);
  }

  lemma PhaseAfterHandlers(w: Wrapper, c: Core, k: Script)
    requires c.phase != Destroyed && Running(c)
    ensures React(w.(core := c), NO_QUEUE, k).core.phase == if Reenters(k, w.buffer != []) then Destroyed else c.phase
  {
    ReactCore(w.(core := c), NO_QUEUE, k);
    ReactBalance(w.(core := c), NO_QUEUE, k);
  }

  // ---- a message ----

  /** What an arriving message does. A text that does not parse, or a destroyed wrapper: nothing. Otherwise
      it is received, and the wrapper looks open unless it is closed. With a buffer it goes to the end, the
      oldest is dropped if there are too many, and no handler runs; without one it is delivered at once. */
  lemma MessageExactly(w: Wrapper, s: nat, text: Option<Msg>, k: Script)
    requires Inv(w) && AnyInv(w) && s in w.core.sockets
    ensures var r := Step(w, MessageArrives(s, text, k));
      var phase := if w.core.phase == Closed then Closed else Open;
      if text.None? || w.core.phase == Destroyed then r == w
      else
        && r.log.received == w.log.received + [text.value]
        && if w.cfg.bufferMax > 0 then
             && r.core == w.core.(phase := phase) && r.paused == w.paused && r.log.delivered == w.log.delivered
             && r.buffer == (if |w.buffer| < w.cfg.bufferMax then w.buffer else w.buffer[1..]) + [text.value]
           else
             && r.log.delivered == w.log.delivered + [text.value]
             && r.core.phase == if Reenters(k, false) then Destroyed else phase
  {
    if text.Some? && w.core.phase != Destroyed {
      if w.cfg.bufferMax == 0 {
        DeliveredAtOnce(w, text.value, k);
      } else {
        assert w.buffer != [] ==> (w.buffer + [text.value])[1..] == w.buffer[1..] + [text.value];
      }
    }
  }

  lemma DeliveredAtOnce(w: Wrapper, m: Msg, k: Script)
    requires Inv(w) && w.buffer == [] && w.core.phase != Destroyed && w.cfg.bufferMax == 0
    ensures var r := OnMessage(w, m, k);
      && r.log.received == w.log.received + [m] && r.log.delivered == w.log.delivered + [m]
      && r.core.phase == if Reenters(k, false) then Destroyed else if w.core.phase == Closed then Closed else Open
  {
    var c := w.core.(phase := if w.core.phase == Closed then Closed else Open);
    var p := PassedOn(w.(core := c), m);
    IdleReact(p, NO_QUEUE, k);
    PhaseAfterHandlers(p, c, k);
  }

  // ---- dialing ----

  /** A new wrapper has a connecting socket, or, if that could not be created, a timer to try again after
      the first delay. */
  lemma FirstDial(cfg: Config, ok: bool)
    ensures var c := New(cfg, ok).core;
      && c.phase == Init && !New(cfg, ok).paused
      && if ok then c.timers == map[] && exists s :: c.ws == Some(s) && c.sockets == map[s := Connecting]
         else c.sockets == map[] && c.ws == None && exists t :: c.attempt == Some(t) && c.timers == map[t := 1000]
  {
    var c := New(cfg, ok).core;
    if ok {
      assert c.ws == Some(0) && c.sockets == map[0 := Connecting];
    } else {
      assert c.attempt == Some(0) && c.timers == map[0 := 1000];
    }
  }

  /** What a reconnect timer does: it throws if the options are gone, stops if the wrapper is open or does
      not reconnect, destroys after the timeout, and otherwise replaces the current socket by a new one, if
      it can, and sets the next timer. */
  lemma FiringExactly(w: Wrapper, t: nat, ok: bool, k: Script)
    requires Inv(w) && t in w.core.timers
    ensures var r := Step(w, TimerFires(t, ok, k)); var c := r.core;
      if w.core.options && w.cfg.reconnect && w.core.phase != Open then
        if w.cfg.timeout != 0 && w.core.timers[t] > w.cfg.timeout then
          c.phase == Destroyed && c.timers == map[] && r.log.destroys > w.log.destroys
        else
          && c.phase == Init && r.buffer == []
          && c.attempt.Some? && c.timers == map[c.attempt.value := NextDelay(w.core.timers[t])]
          && if ok then c.ws.Some? && c.ws.value !in w.core.sockets
                        && c.sockets == w.core.sockets[c.ws.value := Connecting]
             else c.ws == w.core.ws && c.sockets == w.core.sockets
      else
        && r.(core := w.core) == w && c.timers == map[] && c.sockets == w.core.sockets && c.phase == w.core.phase
        && c.attempt == if w.core.options then None else w.core.attempt
  {
    var fired := w.core.(timers := w.core.timers - {t});
    assert fired.timers == map[] && fired.timers - Held(fired) == map[];
    if w.core.options && w.cfg.reconnect && w.core.phase != Open && TimedOut(w.cfg, w.core.timers[t]) {
      var d := w.(core := Disarm(fired));
      DestroyBalance(d, k);
      StepKeepsInv(w, TimerFires(t, ok, k));
    }
  }

  // ---- the life of a socket ----

  function Rank(l: Link): nat {
    match l
    case Connecting => 0
    case Up => 1
    case Down => 2
  }

  /** No socket goes back to an earlier state, and none that was detached returns. */
  ghost predicate Rises(c: Core, c': Core) {
    && c.nextSocket <= c'.nextSocket
    && forall s :: s in c'.sockets && s < c.nextSocket ==> s in c.sockets && Rank(c.sockets[s]) <= Rank(c'.sockets[s])
  }

  lemma ReactRises(w: Wrapper, c: Core, k: Script)
    requires Running(c) && Rises(w.core, c)
    ensures Rises(w.core, React(w.(core := c), NO_QUEUE, k).core)
  {
    ReactCore(w.(core := c), NO_QUEUE, k);
  }

  lemma TornRises(c: Core, c': Core)
    requires c' == c || c' == Torn(c)
    ensures Rises(c, c')
  {
  }

  lemma AttemptRises(w: Wrapper, t: nat, ok: bool, k: Script)
    requires Inv(w) && t in w.core.timers
    ensures Rises(w.core, Attempt(w, t, ok, k).core)
  {
    var c := Disarm(w.core.(timers := w.core.timers - {t}));
    if w.core.options && w.cfg.reconnect && w.core.phase != Open && TimedOut(w.cfg, w.core.timers[t]) {
      DestroyCore(w.(core := c), k);
      TornRises(c, Torn(c));
    }
  }

  lemma MessageRises(w: Wrapper, m: Msg, k: Script)
    requires Inv(w)
    ensures Rises(w.core, OnMessage(w, m, k).core)
  {
    InvIsRunning(w.core);
    var c := if w.core.phase in {Destroyed, Closed} then w.core else w.core.(phase := Open);
    ReactRises(PassedOn(w, m), c, k);
  }

  lemma StepRises(w: Wrapper, e: Event)
    requires Inv(w)
    ensures Rises(w.core, Step(w, e).core)
  {
    InvIsRunning(w.core);
    if Enabled(w, e) {
      match e
      case TimerFires(t, ok, k) => AttemptRises(w, t, ok, k);
      case SocketOpens(s, k) => ReactRises(w, Opened(w.core, s), k);
      case SocketCloses(s, k) => ReactRises(w, Shut(w.core, s), k);
      case SocketFails(s, k) => ReactRises(w, w.core.(phase := Error), k);
      case MessageArrives(s, m, k) => if m.Some? { MessageRises(w, m.value, k); }
      case FlushTick(k) =>
        FlushCore(w, k);
        TornRises(w.core, Flush(w, k).core);
      case PauseCalled =>
      case UnpauseCalled(k) =>
        FlushCore(w.(paused := false), k);
        TornRises(w.core, Flush(w.(paused := false), k).core);
      case DestroyCalled(k) =>
        DestroyCore(w, k);
        TornRises(w.core, Torn(w.core));
    }
  }

  lemma {:induction false} TraceRises(w: Wrapper, es: seq<Event>)
    requires Inv(w)
    ensures Rises(w.core, Trace(w, es).core)
    decreases |es|
  {
    if es != [] {
      StepKeepsInv(w, es[0]);
      StepRises(w, es[0]);
      TraceRises(Step(w, es[0]), es[1..]);
    }
  }

  /** As far as it is still there. */
  ghost predicate LinkIs(c: Core, s: nat, l: Link) {
    s in c.sockets ==> c.sockets[s] == l
  }

  lemma LinkAfter(w: Wrapper, e: Event)
    requires Inv(w) && Enabled(w, e) && (e.SocketOpens? || e.SocketCloses?)
    ensures LinkIs(Step(w, e).core, e.s, if e.SocketOpens? then Up else Down)
  {
    match e
    case SocketOpens(s, k) => ReactCore(w.(core := Opened(w.core, s)), NO_QUEUE, k);
    case SocketCloses(s, k) => ReactCore(w.(core := Shut(w.core, s)), NO_QUEUE, k);
  }

  /** A socket opens at most once, and after its close it neither opens, fails nor closes again: over any
      run that follows, with any handlers, the browser has no such event to deliver. */
  lemma SocketEndsOnce(w: Wrapper, e: Event, later: seq<Event>, k: Script)
    requires Inv(w) && Enabled(w, e) && (e.SocketOpens? || e.SocketCloses?)
    ensures var after := Trace(Step(w, e), later);
      && !Enabled(after, SocketOpens(e.s, k))
      && (e.SocketCloses? ==> !Enabled(after, SocketCloses(e.s, k)) && !Enabled(after, SocketFails(e.s, k)))
  {
    var w' := Step(w, e);
    LinkAfter(w, e);
    StepKeepsInv(w, e);
    StepRises(w, e);
    TraceRises(w', later);
    assert e.s < w'.core.nextSocket;
  }
}

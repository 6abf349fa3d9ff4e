/** Timers, sockets and the finality of destroy, over every run of the wrapper. */
module WebSocketTimers {
  import opened Options
  import opened WebSocketModel

  /** At most one reconnect timer is live and it is the one held in `_connectionAttempt`. While the
      object has never been destroyed, a held id is a live timer; while it is destroyed, none is live. */
  ghost predicate TimerInv(c: Core) {
    && (forall t :: t in c.timers ==> c.attempt == Some(t))
    && (c.options ==> forall t :: c.attempt == Some(t) ==> t in c.timers)
    && (c.phase == Destroyed ==> !c.options && !c.interval && c.timers == map[] && c.ws == None)
    && (forall t :: c.attempt == Some(t) ==> t < c.nextTimer)
    && (forall s :: s in c.sockets ==> s < c.nextSocket)
    && (forall s :: c.ws == Some(s) ==> s in c.sockets)
  }

  /** With reconnect on, a closed wrapper that was not destroyed always has a reconnect scheduled. */
  ghost predicate WillRetry(w: Wrapper) {
    w.cfg.reconnect && w.core.options && w.core.phase == Closed ==> w.core.attempt.Some?
  }

  ghost predicate Inv(w: Wrapper) {
    TimerInv(w.core) && WillRetry(w)
  }

  /** The whole effect of destroy on the connection half. */
  function Torn(c: Core): Core {
    Tearing(c).(phase := Destroyed, options := false)
  }

  /** The weaker invariant that holds while destroy handlers run: the held id may be dead. */
  ghost predicate Running(c: Core) {
    && (forall t :: t in c.timers ==> c.attempt == Some(t))
    && (c.phase == Destroyed ==> c == Torn(c))
  }

  /** Whatever handlers call, the connection half is either untouched or torn down completely. */
  lemma {:induction false} ReactCore(w: Wrapper, q: Queue, k: Script)
    requires Running(w.core)
    ensures React(w, q, k).cfg == w.cfg
    ensures React(w, q, k).core == w.core || React(w, q, k).core == Torn(w.core)
    decreases k, 0
  {
    match k
    case Done =>
    case Return(next) =>
      if q.messages == [] {
        ReactCore(w, q, next);
      } else {
        ReactCore(Handed(w, Head(q)), Tail(q), next);
      }
    case Pause(next) => ReactCore(w.(paused := true), q, next);
    case Unpause(during, next) =>
      FlushCore(w.(paused := false), during);
      ReactCore(Flush(w.(paused := false), during), q, next);
    case Destroy(during, next) =>
      DestroyCore(w, during);
      ReactCore(DestroyCall(w, during), q, next);
  }

  lemma {:induction false} FlushCore(w: Wrapper, k: Script)
    requires Running(w.core)
    ensures Flush(w, k).cfg == w.cfg
    ensures Flush(w, k).core == w.core || Flush(w, k).core == Torn(w.core)
    decreases k, 1
  {
    if !w.paused && w.buffer != [] {
      ReactCore(Handed(w, FirstBatch(w)), Remaining(w), k);
    }
  }

  lemma {:induction false} DestroyCore(w: Wrapper, k: Script)
    requires Running(w.core)
    ensures DestroyCall(w, k).cfg == w.cfg
    ensures DestroyCall(w, k).core == Torn(w.core)
    decreases k, 1
  {
    if w.core.phase != Destroyed {
      var torn := Announced(w);
      ReactCore(torn, NO_QUEUE, k);
      TornTwice(w.core);
    }
  }

  lemma TornTwice(c: Core)
    ensures Torn(Tearing(c)) == Torn(c) && Torn(Torn(c)) == Torn(c)
  {
    assert c.timers - Held(c) - Held(c) == c.timers - Held(c);
    assert Tearing(c).sockets - {} == Tearing(c).sockets;
  }

  lemma StepKeepsInv(w: Wrapper, e: Event)
    requires Inv(w)
    ensures Inv(Step(w, e))
    ensures Step(w, e).cfg == w.cfg
  {
    if Enabled(w, e) {
      match e
      case TimerFires(t, ok, k) => AttemptKeepsInv(w, t, ok, k);
      case SocketOpens(s, k) => OpenKeepsInv(w, s, k);
      case SocketCloses(s, k) => CloseKeepsInv(w, s, k);
      case SocketFails(s, k) => ErrorKeepsInv(w, k);
      case MessageArrives(s, m, k) => if m.Some? { MessageKeepsInv(w, m.value, k); }
      case FlushTick(k) => FlushKeepsInv(w, k);
      case PauseCalled =>
      case UnpauseCalled(k) => FlushKeepsInv(w.(paused := false), k);
      case DestroyCalled(k) => DestroyKeepsInv(w, k);
    }
  }

  lemma InvIsRunning(c: Core)
    requires TimerInv(c)
    ensures Running(c)
  {
    DestroyedIsTorn(c);
  }

  lemma TornKeepsInv(c: Core)
    requires Running(c)
    requires (forall t :: c.attempt == Some(t) ==> t < c.nextTimer) && (forall s :: s in c.sockets ==> s < c.nextSocket)
    ensures TimerInv(Torn(c))
  {
    assert c.timers - Held(c) == map[];
  }

  lemma AttemptKeepsInv(w: Wrapper, t: nat, ok: bool, k: Script)
    requires Inv(w) && t in w.core.timers
    ensures Inv(Attempt(w, t, ok, k)) && Attempt(w, t, ok, k).cfg == w.cfg
  {
    var c := Disarm(w.core.(timers := w.core.timers - {t}));
    if w.core.options && w.cfg.reconnect && w.core.phase != Open && TimedOut(w.cfg, w.core.timers[t]) {
      DestroyCore(w.(core := c), k);
      TornKeepsInv(c);
    }
  }

  lemma OpenKeepsInv(w: Wrapper, s: nat, k: Script)
    requires Inv(w) && s in w.core.sockets
    ensures Inv(OnOpen(w, s, k)) && OnOpen(w, s, k).cfg == w.cfg
  {
    var c := Opened(w.core, s);
    ReactCore(w.(core := c), NO_QUEUE, k);
    TornKeepsInv(c);
    assert c.timers - Held(c) == map[];
    assert Torn(c).timers - Held(Torn(c)) == map[];
  }

  lemma CloseKeepsInv(w: Wrapper, s: nat, k: Script)
    requires Inv(w) && s in w.core.sockets
    ensures Inv(OnClose(w, s, k)) && OnClose(w, s, k).cfg == w.cfg
  {
    var c := Shut(w.core, s);
    ReactCore(w.(core := c), NO_QUEUE, k);
    TornKeepsInv(c);
  }

  lemma ErrorKeepsInv(w: Wrapper, k: Script)
    requires Inv(w)
    ensures Inv(OnError(w, k)) && OnError(w, k).cfg == w.cfg
  {
    var c := w.core.(phase := Error);
    ReactCore(w.(core := c), NO_QUEUE, k);
    TornKeepsInv(c);
  }

  lemma MessageKeepsInv(w: Wrapper, m: Msg, k: Script)
    requires Inv(w)
    ensures Inv(OnMessage(w, m, k)) && OnMessage(w, m, k).cfg == w.cfg
  {
    if w.core.phase != Destroyed && w.cfg.bufferMax == 0 {
      var c := w.core.(phase := if w.core.phase == Closed then Closed else Open);
      ReactCore(PassedOn(w.(core := c), m), NO_QUEUE, k);
      TornKeepsInv(c);
    }
  }

  lemma FlushKeepsInv(w: Wrapper, k: Script)
    requires Inv(w)
    ensures Inv(Flush(w, k)) && Flush(w, k).cfg == w.cfg
  {
    InvIsRunning(w.core);
    FlushCore(w, k);
    TornKeepsInv(w.core);
  }

  lemma DestroyKeepsInv(w: Wrapper, k: Script)
    requires Inv(w)
    ensures Inv(DestroyCall(w, k)) && DestroyCall(w, k).cfg == w.cfg
  {
    InvIsRunning(w.core);
    DestroyCore(w, k);
    TornKeepsInv(w.core);
  }

  lemma DestroyedIsTorn(c: Core)
    requires TimerInv(c)
    ensures c.phase == Destroyed ==> c == Torn(c)
  {
    if c.phase == Destroyed {
      assert c.timers - Held(c) == c.timers;
      assert c.sockets - {} == c.sockets;
    }
  }

  lemma {:induction false} TraceKeepsInv(w: Wrapper, es: seq<Event>)
    requires Inv(w)
    ensures Inv(Trace(w, es))
    decreases |es|
  {
    if es != [] {
      StepKeepsInv(w, es[0]);
      TraceKeepsInv(Step(w, es[0]), es[1..]);
    }
  }

  /** Over every run from construction, with handlers that call whatever they like: at most one
      reconnect timer is live, it is the held one, and a closed wrapper that is still meant to
      reconnect has exactly one. */
  lemma SingleReconnectTimer(cfg: Config, ok: bool, es: seq<Event>)
    ensures var w := Trace(New(cfg, ok), es);
      && |w.core.timers| <= 1
      && (forall t :: t in w.core.timers ==> w.core.attempt == Some(t))
      && (w.core.phase == Destroyed ==> w.core.timers == map[])
      && (cfg.reconnect && w.core.options && w.core.phase == Closed ==> |w.core.timers| == 1)
  {
    var w := Trace(New(cfg, ok), es);
    TraceKeepsInv(New(cfg, ok), es);
    TraceKeepsCfg(New(cfg, ok), es);
    if w.core.attempt.Some? {
      var t := w.core.attempt.value;
      assert w.core.timers.Keys <= {t};
      assert w.core.timers.Keys == {t} || w.core.timers.Keys == {};
      if w.core.options {
        assert w.core.timers.Keys == {t};
        assert |w.core.timers| == |w.core.timers.Keys|;
      }
    } else {
      assert w.core.timers == map[];
    }
  }

  lemma {:induction false} ReactKeepsCfg(w: Wrapper, q: Queue, k: Script)
    ensures React(w, q, k).cfg == w.cfg
    decreases k, 0
  {
    match k
    case Done =>
    case Return(next) =>
      if q.messages == [] {
        ReactKeepsCfg(w, q, next);
      } else {
        ReactKeepsCfg(Handed(w, Head(q)), Tail(q), next);
      }
    case Pause(next) => ReactKeepsCfg(w.(paused := true), q, next);
    case Unpause(during, next) =>
      FlushKeepsCfg(w.(paused := false), during);
      ReactKeepsCfg(Flush(w.(paused := false), during), q, next);
    case Destroy(during, next) =>
      DestroyKeepsCfg(w, during);
      ReactKeepsCfg(DestroyCall(w, during), q, next);
  }

  lemma {:induction false} FlushKeepsCfg(w: Wrapper, k: Script)
    ensures Flush(w, k).cfg == w.cfg
    decreases k, 1
  {
    if !w.paused && w.buffer != [] {
      ReactKeepsCfg(Handed(w, FirstBatch(w)), Remaining(w), k);
    }
  }

  lemma {:induction false} DestroyKeepsCfg(w: Wrapper, k: Script)
    ensures DestroyCall(w, k).cfg == w.cfg
    decreases k, 1
  {
    ReactKeepsCfg(Announced(w), NO_QUEUE, k);
  }

  lemma StepKeepsCfg(w: Wrapper, e: Event)
    ensures Step(w, e).cfg == w.cfg
  {
    if Enabled(w, e) {
      match e
      case TimerFires(t, ok, k) => DestroyKeepsCfg(w.(core := Disarm(w.core.(timers := w.core.timers - {t}))), k);
      case SocketOpens(s, k) => ReactKeepsCfg(w.(core := Opened(w.core, s)), NO_QUEUE, k);
      case SocketCloses(s, k) => ReactKeepsCfg(w.(core := Shut(w.core, s)), NO_QUEUE, k);
      case SocketFails(s, k) => ReactKeepsCfg(w.(core := w.core.(phase := Error)), NO_QUEUE, k);
      case MessageArrives(s, m, k) => if m.Some? { MessageKeepsCfg(w, m.value, k); }
      case FlushTick(k) => FlushKeepsCfg(w, k);
      case PauseCalled =>
      case UnpauseCalled(k) => FlushKeepsCfg(w.(paused := false), k);
      case DestroyCalled(k) => DestroyKeepsCfg(w, k);
    }
  }

  lemma MessageKeepsCfg(w: Wrapper, m: Msg, k: Script)
    ensures OnMessage(w, m, k).cfg == w.cfg
  {
    var w' := w.(core := w.core.(phase := if w.core.phase == Closed then Closed else Open));
    ReactKeepsCfg(PassedOn(w', m), NO_QUEUE, k);
  }

  lemma {:induction false} TraceKeepsCfg(w: Wrapper, es: seq<Event>)
    ensures Trace(w, es).cfg == w.cfg
    decreases |es|
  {
    if es != [] {
      StepKeepsCfg(w, es[0]);
      TraceKeepsCfg(Step(w, es[0]), es[1..]);
    }
  }

  /** Opening ends the retrying: no reconnect timer is left, whatever the open handlers do. */
  lemma OpenStopsRetrying(w: Wrapper, s: nat, k: Script)
    requires Inv(w) && s in w.core.sockets
    ensures OnOpen(w, s, k).core.timers == map[]
  {
    var c := Opened(w.core, s);
    ReactCore(w.(core := c), NO_QUEUE, k);
    assert c.timers - Held(c) == map[];
    assert Torn(c).timers - Held(Torn(c)) == map[];
  }

  /** Closing starts it: unless handlers destroyed the wrapper, a timer is live after every close, and
      a newly started one fires after the first delay. */
  lemma CloseStartsRetrying(w: Wrapper, s: nat, k: Script)
    requires Inv(w) && w.core.options && s in w.core.sockets
    ensures var c := OnClose(w, s, k).core;
      c.phase == Destroyed ||
      (&& c.attempt.Some?
       && c.timers == if w.core.attempt.Some? then w.core.timers else map[c.attempt.value := FIRST_DELAY])
  {
    var c := Shut(w.core, s);
    ReactCore(w.(core := c), NO_QUEUE, k);
    assert w.core.attempt.None? ==> w.core.timers == map[];
  }

  /** Messages that arrive late never make a closed wrapper look open. */
  lemma {:induction false} LateMessagesKeepClosed(w: Wrapper, es: seq<Event>)
    requires Inv(w) && w.core.phase == Closed && forall e :: e in es ==> e.MessageArrives?
    ensures Trace(w, es).core.phase in {Closed, Destroyed}
    decreases |es|
  {
    if es != [] {
      var e := es[0];
      StepKeepsInv(w, e);
      if Enabled(w, e) && e.m.Some? && w.cfg.bufferMax == 0 {
        ReactCore(PassedOn(w, e.m.value), NO_QUEUE, e.k);
      }
      if Step(w, e).core.phase == Closed {
        LateMessagesKeepClosed(Step(w, e), es[1..]);
      } else {
        MessagesKeepDestroyed(Step(w, e), es[1..]);
      }
    }
  }

  lemma {:induction false} MessagesKeepDestroyed(w: Wrapper, es: seq<Event>)
    requires w.core.phase == Destroyed && forall e :: e in es ==> e.MessageArrives?
    ensures Trace(w, es) == w
    decreases |es|
  {
    if es != [] {
      assert es[0].MessageArrives?;
      MessagesKeepDestroyed(Step(w, es[0]), es[1..]);
    }
  }

  // ---- destroyed is final exactly when no live socket was left behind ----

  /** No socket that still has callbacks can open, fail or close any more. */
  ghost predicate NoLiveSocket(c: Core) {
    forall s :: s in c.sockets ==> c.sockets[s] == Down
  }

  /** Destroyed, and nothing left that could deliver, fire or connect. */
  ghost predicate Dead(w: Wrapper) {
    w.core.phase == Destroyed && w.core.timers == map[] && !w.core.interval && w.buffer == []
  }

  /** A run after which nothing differs but possibly the pause flag. */
  ghost predicate Unmoved(w: Wrapper, es: seq<Event>) {
    Trace(w, es).(paused := w.paused) == w
  }

  lemma {:induction false} DeadStaysDead(w: Wrapper, es: seq<Event>)
    requires Inv(w) && Dead(w) && NoLiveSocket(w.core)
    ensures Unmoved(w, es)
    decreases |es|
  {
    if es != [] {
      DeadStaysDead(Step(w, es[0]), es[1..]);
    }
  }

  /** For a destroyed wrapper, "nothing ever changes again but the pause flag" holds if and only if
      no live socket still has callbacks. */
  lemma DestroyedIsFinal(w: Wrapper)
    requires Inv(w) && Dead(w)
    ensures (forall es :: Unmoved(w, es)) <==> NoLiveSocket(w.core)
  {
    if NoLiveSocket(w.core) {
      forall es ensures Unmoved(w, es) {
        DeadStaysDead(w, es);
      }
    } else {
      var s :| s in w.core.sockets && w.core.sockets[s] != Down;
      var es := [SocketFails(s, Done)];
      assert Trace(w, es) == Step(w, es[0]);
      assert Step(w, es[0]).core.phase == Error;
      assert !Unmoved(w, es);
    }
  }

  /** The same, asked before destroy is called: every socket but the current one must be down. */
  ghost predicate NoStray(c: Core) {
    forall s :: s in c.sockets && c.ws != Some(s) ==> c.sockets[s] == Down
  }

  lemma DestroyIsFinalExactly(w: Wrapper, k: Script)
    requires Inv(w) && w.core.phase != Destroyed
    ensures var d := DestroyCall(w, k);
      && Dead(d)
      && ((forall es :: Unmoved(d, es)) <==> NoStray(w.core))
  {
    var d := DestroyCall(w, k);
    DestroyCore(w, k);
    StepKeepsInv(w, DestroyCalled(k));
    DestroyedIsFinal(d);
    assert NoLiveSocket(d.core) <==> NoStray(w.core) by {
      forall s ensures s in d.core.sockets <==> s in w.core.sockets && w.core.ws != Some(s) {}
    }
  }

  /** No buffer, reconnect on, no timeout. */
  const CFG := Config(0, true, 0, false)

  /** A run that breaks finality: the first socket closes, its replacement is still connecting when
      the timer fires again, destroy detaches only the third, and the second then opens. */
  lemma DestroyedCanReturn(w: Wrapper, es: seq<Event>)
    requires w == New(CFG, true)
    requires es == [SocketCloses(0, Done), TimerFires(0, true, Done), TimerFires(1, true, Done)]
    ensures Trace(w, es + [DestroyCalled(Done)]).core.phase == Destroyed
    ensures Trace(w, es + [DestroyCalled(Done)] + [SocketOpens(1, Done)]).core.phase == Open
  {
    var w3 := StrayAfterThree();
    TraceExtends(w, es, DestroyCalled(Done));
    TraceExtends(w, es + [DestroyCalled(Done)], SocketOpens(1, Done));
    StrayOpens(w3);
  }

  lemma StrayOpens(w: Wrapper)
    requires w.core.phase == Init && w.core.ws == Some(2)
    requires w.core.sockets == map[0 := Down, 1 := Connecting, 2 := Connecting]
    ensures var d := Step(w, DestroyCalled(Done));
      d.core.phase == Destroyed && Step(d, SocketOpens(1, Done)).core.phase == Open
  {
    var d := Step(w, DestroyCalled(Done));
    assert 1 in d.core.sockets && d.core.sockets[1] == Connecting;
  }

  lemma StrayAfterThree() returns (w: Wrapper)
    ensures w == Trace(New(CFG, true),
                       [SocketCloses(0, Done), TimerFires(0, true, Done), TimerFires(1, true, Done)])
    ensures w.core.phase == Init && w.core.ws == Some(2)
    ensures w.core.sockets == map[0 := Down, 1 := Connecting, 2 := Connecting]
  {
    var w0 := New(CFG, true);
    var w1 := Step(w0, SocketCloses(0, Done));
    assert w1.core == Core(Closed, Some(0), Some(0), true, false, map[0 := 1000], map[0 := Down], 1, 1, 1);
    var w2 := Step(w1, TimerFires(0, true, Done));
    assert w2.core ==
           Core(Init, Some(1), Some(1), true, false, map[1 := 1500], map[0 := Down, 1 := Connecting], 2, 2, 2);
    w := Step(w2, TimerFires(1, true, Done));
    TraceExtends(w0, [], SocketCloses(0, Done));
    TraceExtends(w0, [SocketCloses(0, Done)], TimerFires(0, true, Done));
    TraceExtends(w0, [SocketCloses(0, Done), TimerFires(0, true, Done)], TimerFires(1, true, Done));
  }

  lemma {:induction false} TraceExtends(w: Wrapper, es: seq<Event>, e: Event)
    ensures Trace(w, es + [e]) == Step(Trace(w, es), e)
    decreases |es|
  {
    if es == [] {
      assert Trace(w, [e]) == Trace(Step(w, e), []);
    } else {
      assert (es + [e])[1..] == es[1..] + [e];
      TraceExtends(Step(w, es[0]), es[1..], e);
    }
  }

  // ---- how often the destroy event is delivered ----

  /** Whether handlers running with a full (or empty) buffer reach a call to destroy. A nested
      unpause runs handlers only if there is something to flush. */
  predicate Reenters(k: Script, full: bool) {
    match k
    case Done => false
    case Return(next) => Reenters(next, full)
    case Pause(next) => Reenters(next, full)
    case Unpause(during, next) => (full && Reenters(during, true)) || Reenters(next, false)
    case Destroy(_, _) => true
  }

  /** No destroy that these handlers reach has handlers that reach another one. What comes after a nested
      flush that destroyed the wrapper no longer matters. */
  predicate Once(k: Script, full: bool) {
    match k
    case Done => true
    case Return(next) => Once(next, full)
    case Pause(next) => Once(next, full)
    case Unpause(during, next) =>
      (full ==> Once(during, true)) && ((full && Reenters(during, true)) || Once(next, false))
    case Destroy(during, _) => !Reenters(during, full)
  }

  lemma {:induction false} NeverReentersOnce(k: Script, full: bool)
    ensures !Reenters(k, full) ==> Once(k, full)
    decreases k
  {
    match k
    case Done =>
    case Return(next) => NeverReentersOnce(next, full);
    case Pause(next) => NeverReentersOnce(next, full);
    case Unpause(during, next) =>
      NeverReentersOnce(during, true);
      NeverReentersOnce(next, false);
    case Destroy(_, _) =>
  }

  /** The destroy events delivered so far, leaving out the one of the present destruction. */
  function Excess(w: Wrapper): int {
    w.log.destroys - (if w.core.phase == Destroyed then 1 else 0)
  }

  /** Handlers destroy a live wrapper if and only if they reach a call to destroy, and deliver one destroy
      event for it if and only if no destroy they reach has handlers that reach another. To a destroyed
      wrapper they deliver none. */
  lemma {:induction false} ReactBalance(w: Wrapper, q: Queue, k: Script)
    ensures React(w, q, k).core.phase == Destroyed <==> w.core.phase == Destroyed || Reenters(k, w.buffer != [])
    ensures Excess(w) <= Excess(React(w, q, k))
    ensures Excess(React(w, q, k)) == Excess(w) <==> w.core.phase == Destroyed || Once(k, w.buffer != [])
    ensures w.buffer == [] || (React(w, q, k).core.phase == Destroyed && w.core.phase != Destroyed) ==>
              React(w, q, k).buffer == []
    decreases k, 0
  {
    match k
    case Done =>
    case Return(next) =>
      if q.messages == [] {
        ReactBalance(w, q, next);
      } else {
        ReactBalance(Handed(w, Head(q)), Tail(q), next);
      }
    case Pause(next) => ReactBalance(w.(paused := true), q, next);
    case Unpause(during, next) =>
      FlushBalance(w.(paused := false), during);
      ReactBalance(Flush(w.(paused := false), during), q, next);
    case Destroy(during, next) =>
      if w.core.phase != Destroyed {
        DestroyBalance(w, during);
      }
      ReactBalance(DestroyCall(w, during), q, next);
  }

  lemma {:induction false} FlushBalance(w: Wrapper, k: Script)
    requires !w.paused
    ensures var f := Flush(w, k); var full := w.buffer != [];
      && f.buffer == [] && Excess(w) <= Excess(f)
      && (f.core.phase == Destroyed <==> w.core.phase == Destroyed || (full && Reenters(k, true)))
      && (Excess(f) == Excess(w) <==> w.core.phase == Destroyed || (full ==> Once(k, true)))
    decreases k, 1
  {
    if w.buffer != [] {
      ReactBalance(Handed(w, FirstBatch(w)), Remaining(w), k);
    }
  }

  lemma {:induction false} DestroyBalance(w: Wrapper, k: Script)
    requires w.core.phase != Destroyed
    ensures var d := DestroyCall(w, k);
      && d.core.phase == Destroyed && d.buffer == [] && Excess(w) <= Excess(d)
      && (Excess(d) == Excess(w) <==> !Reenters(k, w.buffer != []))
    decreases k, 1
  {
    ReactBalance(Announced(w), NO_QUEUE, k);
    NeverReentersOnce(k, w.buffer != []);
  }

  /** One call to destroy delivers the destroy event exactly once if and only if no destroy handler
      calls destroy again. */
  lemma DestroyEventOnce(w: Wrapper, k: Script)
    requires w.core.phase != Destroyed
    ensures DestroyCall(w, k).log.destroys == w.log.destroys + 1 <==> !Reenters(k, w.buffer != [])
  {
    DestroyBalance(w, k);
  }
}

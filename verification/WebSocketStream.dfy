/** What happens to messages: the bounded drop-oldest buffer, delivery order, pausing, and loss. */
module WebSocketStream {
  import opened WebSocketModel
  import opened WebSocketTimers
  import opened WebSocketOnce

  function LastN<T>(s: seq<T>, n: nat): seq<T> {
    if |s| <= n then s else s[|s| - n..]
  }

  ghost predicate Increasing(s: seq<int>) {
    forall i, j :: 0 <= i < j < |s| ==> s[i] < s[j]
  }

  /** Every delivery is the received message at its position, below `bound`. */
  ghost predicate Positioned(log: Log, bound: int) {
    && |log.at| == |log.delivered| && bound <= |log.received|
    && (forall i :: 0 <= i < |log.at| ==> 0 <= log.at[i] < bound && log.delivered[i] == log.received[log.at[i]])
  }

  /** Every received position before `bound` was either delivered or lost, never both. */
  ghost predicate Accounted(log: Log, bound: int) {
    && (forall p :: p in log.lost ==> 0 <= p < bound)
    && (forall p {:trigger p in log.lost} :: 0 <= p < bound ==> (p in log.at) != (p in log.lost))
  }

  /** The buffer is the last bufferMax messages received since it was last emptied. */
  ghost predicate Windowed(w: Wrapper) {
    && w.log.emptied <= |w.log.received|
    && w.buffer == LastN(w.log.received[w.log.emptied..], w.cfg.bufferMax)
    && (w.core.phase == Destroyed ==> w.buffer == [])
    && (w.cfg.bufferMax == 0 ==> w.log.delivered == w.log.received)
  }

  /** While handlers run. */
  ghost predicate Mid(w: Wrapper) {
    Windowed(w) && Positioned(w.log, |w.log.received|) && Accounted(w.log, First(w))
  }

  /** Between events: nothing that is still buffered has been delivered. */
  ghost predicate AnyInv(w: Wrapper) {
    Windowed(w) && Positioned(w.log, w.log.emptied) && Accounted(w.log, First(w))
  }

  ghost predicate StreamInv(w: Wrapper) {
    AnyInv(w) && Increasing(w.log.at)
  }

  // ---- what holds whatever handlers do ----

  ghost predicate ValidQueue(w: Wrapper, q: Queue) {
    && 0 <= q.from && q.from + |q.messages| <= |w.log.received|
    && q.messages == w.log.received[q.from..q.from + |q.messages|]
    && (w.cfg.bufferMax == 0 ==> q.messages == [])
  }

  lemma InPositions(q: Queue, p: int)
    ensures p in Positions(q) <==> q.from <= p < q.from + |q.messages|
  {
    if q.from <= p < q.from + |q.messages| {
      assert Positions(q)[p - q.from] == p;
    }
  }

  lemma HandedKeepsMid(w: Wrapper, q: Queue)
    requires Mid(w) && ValidQueue(w, q)
    ensures Mid(Handed(w, q))
  {
    var log, n := Handed(w, q).log, |w.log.at|;
    forall i | n <= i < |log.at|
      ensures log.at[i] == q.from + (i - n) && log.delivered[i] == log.received[log.at[i]]
    {
    }
    forall p | 0 <= p < First(w) ensures (p in log.at) != (p in log.lost) {
      assert p in log.at <==> p in w.log.at || p in Positions(q);
      assert p in w.log.lost || p in w.log.at;
    }
  }

  lemma EmptiedKeepsAny(w: Wrapper)
    requires Mid(w)
    ensures AnyInv(Emptied(w)) && Mid(Emptied(w))
  {
  }

  lemma PartsAreValid(w: Wrapper, q: Queue)
    requires ValidQueue(w, q) && q.messages != []
    ensures ValidQueue(w, Head(q)) && ValidQueue(w, Tail(q))
  {
    var r, n := w.log.received, q.from + |q.messages|;
    assert r[q.from..n][..1] == r[q.from..q.from + 1] && r[q.from..n][1..] == r[q.from + 1..n];
  }

  lemma BufferedIsValid(w: Wrapper)
    requires Windowed(w) && w.buffer != []
    ensures ValidQueue(w, FirstBatch(w)) && ValidQueue(w, Remaining(w))
  {
    assert w.buffer == w.log.received[First(w)..];
    PartsAreValid(w, Buffered(w));
  }

  lemma {:induction false} ReactKeepsMid(w: Wrapper, q: Queue, k: Script)
    requires Mid(w) && ValidQueue(w, q)
    ensures Mid(React(w, q, k)) && React(w, q, k).log.received == w.log.received && React(w, q, k).cfg == w.cfg
    decreases k, 0
  {
    match k
    case Done => HandedKeepsMid(w, q);
    case Return(next) =>
      if q.messages == [] {
        ReactKeepsMid(w, q, next);
      } else {
        PartsAreValid(w, q);
        HandedKeepsMid(w, Head(q));
        ReactKeepsMid(Handed(w, Head(q)), Tail(q), next);
      }
    case Pause(next) => ReactKeepsMid(w.(paused := true), q, next);
    case Unpause(during, next) =>
      FlushKeepsMid(w.(paused := false), during);
      ReactKeepsMid(Flush(w.(paused := false), during), q, next);
    case Destroy(during, next) =>
      DestroyKeepsMid(w, during);
      ReactKeepsMid(DestroyCall(w, during), q, next);
  }

  lemma {:induction false} FlushKeepsMid(w: Wrapper, k: Script)
    requires Mid(w)
    ensures Mid(Flush(w, k)) && Flush(w, k).log.received == w.log.received && Flush(w, k).cfg == w.cfg
    ensures !w.paused && w.buffer != [] ==> AnyInv(Flush(w, k))
    decreases k, 1
  {
    if !w.paused && w.buffer != [] {
      var h := Handed(w, FirstBatch(w));
      BufferedIsValid(w);
      HandedKeepsMid(w, FirstBatch(w));
      ReactKeepsMid(h, Remaining(w), k);
      EmptiedKeepsAny(React(h, Remaining(w), k));
    }
  }

  lemma {:induction false} DestroyKeepsMid(w: Wrapper, k: Script)
    requires Mid(w)
    ensures Mid(DestroyCall(w, k)) && DestroyCall(w, k).log.received == w.log.received && DestroyCall(w, k).cfg == w.cfg
    ensures w.core.phase != Destroyed ==> AnyInv(DestroyCall(w, k))
    decreases k, 1
  {
    if w.core.phase != Destroyed {
      ReactKeepsMid(Announced(w), NO_QUEUE, k);
      EmptiedKeepsAny(React(Announced(w), NO_QUEUE, k));
    }
  }

  lemma {:induction false} ReactKeepsAny(w: Wrapper, k: Script)
    requires AnyInv(w)
    ensures AnyInv(React(w, NO_QUEUE, k))
    decreases k
  {
    match k
    case Done =>
    case Return(next) => ReactKeepsAny(w, next);
    case Pause(next) => ReactKeepsAny(w.(paused := true), next);
    case Unpause(during, next) =>
      FlushKeepsMid(w.(paused := false), during);
      ReactKeepsAny(Flush(w.(paused := false), during), next);
    case Destroy(during, next) =>
      DestroyKeepsMid(w, during);
      ReactKeepsAny(DestroyCall(w, during), next);
  }

  lemma PushedKeepsAny(w: Wrapper, m: Msg)
    requires AnyInv(w) && w.core.phase != Destroyed && w.cfg.bufferMax > 0
    ensures AnyInv(Pushed(w, m))
    ensures Pushed(w, m).log.lost == w.log.lost <==> |w.buffer| < w.cfg.bufferMax
  {
    var w' := Pushed(w, m);
    assert w'.log.received[w.log.emptied..] == w.log.received[w.log.emptied..] + [m];
    assert |w.buffer| == w.cfg.bufferMax ==> First(w) !in w.log.lost;
  }

  lemma PassedOnKeepsAny(w: Wrapper, m: Msg)
    requires AnyInv(w) && w.cfg.bufferMax == 0
    ensures AnyInv(PassedOn(w, m)) && PassedOn(w, m).log.emptied == |PassedOn(w, m).log.received|
    ensures Increasing(w.log.at) ==> Increasing(PassedOn(w, m).log.at)
  {
    var log := PassedOn(w, m).log;
    assert w.buffer == [] && log.received[log.emptied..] == [];
    PassedOnLog(w.log, m, log);
  }

  lemma PassedOnLog(before: Log, m: Msg, log: Log)
    requires Positioned(before, before.emptied) && before.emptied <= |before.received|
    requires Accounted(before, |before.received|)
    requires log.received == before.received + [m] && log.delivered == before.delivered + [m]
    requires log.at == before.at + [|before.received|] && log.lost == before.lost
    ensures Positioned(log, |log.received|) && Accounted(log, |log.received|)
    ensures Increasing(before.at) ==> Increasing(log.at)
  {
    var n := |before.received|;
    assert log.at[|before.at|] == n;
    forall p | 0 <= p < n ensures p in log.at <==> p in before.at {
      if p in log.at {
        var i :| 0 <= i < |log.at| && log.at[i] == p;
        assert before.at[i] == p;
      }
    }
  }

  lemma MessageKeepsAny(w: Wrapper, m: Msg, k: Script)
    requires AnyInv(w)
    ensures AnyInv(OnMessage(w, m, k))
  {
    if w.core.phase != Destroyed {
      var w' := if w.core.phase == Closed then w else w.(core := w.core.(phase := Open));
      if w.cfg.bufferMax > 0 {
        PushedKeepsAny(w', m);
      } else {
        PassedOnKeepsAny(w', m);
        ReactKeepsAny(PassedOn(w', m), k);
      }
    }
  }

  lemma AttemptKeepsAny(w: Wrapper, t: nat, ok: bool, k: Script)
    requires AnyInv(w) && t in w.core.timers
    ensures AnyInv(Attempt(w, t, ok, k))
  {
    if Redials(w, t) {
      EmptiedKeepsAny(w);
    } else if w.core.options && w.cfg.reconnect && w.core.phase != Open {
      DestroyKeepsMid(w.(core := Disarm(w.core.(timers := w.core.timers - {t}))), k);
    }
  }

  lemma StepKeepsAny(w: Wrapper, e: Event)
    requires AnyInv(w)
    ensures AnyInv(Step(w, e))
  {
    if Enabled(w, e) {
      match e
      case TimerFires(t, ok, k) => AttemptKeepsAny(w, t, ok, k);
      case SocketOpens(s, k) => ReactKeepsAny(w.(core := Opened(w.core, s)), k);
      case SocketCloses(s, k) => ReactKeepsAny(w.(core := Shut(w.core, s)), k);
      case SocketFails(s, k) => ReactKeepsAny(w.(core := w.core.(phase := Error)), k);
      case MessageArrives(s, m, k) => if m.Some? { MessageKeepsAny(w, m.value, k); }
      case FlushTick(k) => FlushKeepsMid(w, k);
      case PauseCalled =>
      case UnpauseCalled(k) => FlushKeepsMid(w.(paused := false), k);
      case DestroyCalled(k) => DestroyKeepsMid(w, k);
    }
  }

  lemma {:induction false} TraceKeepsAny(w: Wrapper, es: seq<Event>)
    requires AnyInv(w)
    ensures AnyInv(Trace(w, es)) && Trace(w, es).cfg == w.cfg
    decreases |es|
  {
    if es != [] {
      StepKeepsAny(w, es[0]);
      StepKeepsCfg(w, es[0]);
      TraceKeepsAny(Step(w, es[0]), es[1..]);
    }
  }

  // ---- a flush hands over everything and loses nothing, whatever handlers do ----

  ghost predicate NewFrom(before: seq<int>, after: seq<int>, lo: int) {
    before <= after && forall i :: |before| <= i < |after| ==> lo <= after[i]
  }

  lemma NewFromTwice(a: seq<int>, b: seq<int>, c: seq<int>, lo: int)
    requires NewFrom(a, b, lo) && NewFrom(b, c, lo)
    ensures NewFrom(a, c, lo)
  {
    forall i | |a| <= i < |c| ensures lo <= c[i] {
      assert i < |b| ==> c[i] == b[i];
    }
  }

  lemma HandedIsNew(w: Wrapper, q: Queue, lo: int)
    requires q.messages != [] ==> lo <= q.from
    ensures NewFrom(w.log.at, Handed(w, q).log.at, lo) && w.log.delivered <= Handed(w, q).log.delivered
  {
  }

  /** Deliveries are only ever added at the end, and only of positions in the queue or in the buffer. */
  lemma {:induction false} DeliveriesGrow(w: Wrapper, q: Queue, k: Script, lo: int)
    requires lo <= First(w) && (q.messages != [] ==> lo <= q.from)
    ensures NewFrom(w.log.at, React(w, q, k).log.at, lo)
    ensures w.log.delivered <= React(w, q, k).log.delivered
    ensures React(w, q, k).log.received == w.log.received && First(w) <= First(React(w, q, k))
    ensures w.core.phase == Destroyed ==> React(w, q, k).core.phase == Destroyed
    decreases k, 0
  {
    match k
    case Done => HandedIsNew(w, q, lo);
    case Return(next) =>
      if q.messages == [] {
        DeliveriesGrow(w, q, next, lo);
      } else {
        var h := Handed(w, Head(q));
        HandedIsNew(w, Head(q), lo);
        DeliveriesGrow(h, Tail(q), next, lo);
        NewFromTwice(w.log.at, h.log.at, React(w, q, k).log.at, lo);
      }
    case Pause(next) => DeliveriesGrow(w.(paused := true), q, next, lo);
    case Unpause(during, next) =>
      var f := Flush(w.(paused := false), during);
      FlushGrows(w.(paused := false), during, lo);
      DeliveriesGrow(f, q, next, lo);
      NewFromTwice(w.log.at, f.log.at, React(w, q, k).log.at, lo);
    case Destroy(during, next) =>
      var d := DestroyCall(w, during);
      DeliveriesGrow(Announced(w), NO_QUEUE, during, lo);
      DeliveriesGrow(d, q, next, lo);
      NewFromTwice(w.log.at, d.log.at, React(w, q, k).log.at, lo);
  }

  lemma {:induction false} FlushGrows(w: Wrapper, k: Script, lo: int)
    requires lo <= First(w)
    ensures NewFrom(w.log.at, Flush(w, k).log.at, lo)
    ensures w.log.delivered <= Flush(w, k).log.delivered
    ensures Flush(w, k).log.received == w.log.received && First(w) <= First(Flush(w, k))
    ensures w.core.phase == Destroyed ==> Flush(w, k).core.phase == Destroyed
    decreases k, 1
  {
    if !w.paused && w.buffer != [] {
      var h := Handed(w, FirstBatch(w));
      HandedIsNew(w, FirstBatch(w), lo);
      DeliveriesGrow(h, Remaining(w), k, lo);
      NewFromTwice(w.log.at, h.log.at, Flush(w, k).log.at, lo);
    }
  }

  function Lowest(w: Wrapper, q: Queue): int {
    if First(w) <= q.from then First(w) else q.from
  }

  lemma {:induction false} QueueArrives(w: Wrapper, q: Queue, k: Script)
    ensures forall p :: p in Positions(q) ==> p in React(w, q, k).log.at
    decreases k
  {
    match k
    case Done =>
    case Return(next) =>
      if q.messages == [] {
        QueueArrives(w, q, next);
      } else {
        var h := Handed(w, Head(q));
        DeliveriesGrow(h, Tail(q), next, Lowest(h, Tail(q)));
        QueueArrives(h, Tail(q), next);
        assert Positions(q) == [q.from] + Positions(Tail(q));
        assert h.log.at[|w.log.at|] == q.from;
      }
    case Pause(next) => QueueArrives(w.(paused := true), q, next);
    case Unpause(during, next) => QueueArrives(Flush(w.(paused := false), during), q, next);
    case Destroy(during, next) => QueueArrives(DestroyCall(w, during), q, next);
  }

  lemma StaysIn(a: seq<int>, b: seq<int>, p: int)
    requires a <= b && p in a
    ensures p in b
  {
    var i :| 0 <= i < |a| && a[i] == p;
    assert b[i] == p;
  }

  lemma NotNew(a: seq<int>, b: seq<int>, lo: int, p: int)
    requires NewFrom(a, b, lo) && p < lo
    ensures p in b <==> p in a
  {
    if p in a {
      StaysIn(a, b, p);
    }
    if p in b {
      var i :| 0 <= i < |b| && b[i] == p;
      assert i < |a| ==> a[i] == p;
    }
  }

  /** Whatever its handlers do, a flush hands over every buffered message at least once, and loses
      nothing. */
  lemma FlushLosesNothing(w: Wrapper, k: Script)
    requires AnyInv(w) && !w.paused && w.buffer != []
    ensures var f := Flush(w, k);
      && AnyInv(f) && f.buffer == [] && f.log.emptied == |w.log.received| == |f.log.received|
      && w.log.delivered <= f.log.delivered && NewFrom(w.log.at, f.log.at, First(w))
      && (forall p :: First(w) <= p < |w.log.received| ==> p in f.log.at)
      && f.log.lost == w.log.lost
  {
    var f := Flush(w, k);
    FlushKeepsMid(w, k);
    FlushGrows(w, k, First(w));
    BufferArrives(w, k);
    LostStays(w.log, f.log, First(w));
  }

  lemma BufferArrives(w: Wrapper, k: Script)
    requires !w.paused && w.buffer != []
    ensures forall p :: First(w) <= p < |w.log.received| ==> p in Flush(w, k).log.at
  {
    var h, q, r := Handed(w, FirstBatch(w)), Remaining(w), Flush(w, k).log.at;
    DeliveriesGrow(h, q, k, Lowest(h, q));
    QueueArrives(h, q, k);
    forall p | First(w) <= p < |w.log.received| ensures p in r {
      InPositions(FirstBatch(w), p);
      InPositions(q, p);
      if p in Positions(FirstBatch(w)) {
        StaysIn(h.log.at, r, p);
      }
    }
  }

  lemma LostStays(before: Log, after: Log, first: int)
    requires 0 <= first <= |after.received| && Accounted(before, first) && Accounted(after, |after.received|)
    requires NewFrom(before.at, after.at, first)
    requires forall p :: first <= p < |after.received| ==> p in after.at
    ensures after.lost == before.lost
  {
    forall p ensures p in after.lost <==> p in before.lost {
      if 0 <= p < first {
        NotNew(before.at, after.at, first, p);
      }
    }
  }

  // ---- handlers that stay calm ----

  /** Handlers of a flush must not unpause before the buffer is emptied: an unpause would flush
      the same buffer again. After a destroy the buffer is empty and anything goes. */
  predicate Calm(k: Script) {
    match k
    case Done => true
    case Return(next) => Calm(next)
    case Pause(next) => Calm(next)
    case Unpause(_, _) => false
    case Destroy(during, _) => Calm(during)
  }

  /** Outside a flush handlers may unpause, if the handlers of that flush are calm. */
  predicate Tame(k: Script) {
    match k
    case Done => true
    case Return(next) => Tame(next)
    case Pause(next) => Tame(next)
    case Unpause(during, next) => Calm(during) && Tame(next)
    case Destroy(during, next) => Tame(during) && Tame(next)
  }

  predicate TameEvent(e: Event) {
    match e
    case TimerFires(_, _, k) => Tame(k)
    case SocketOpens(_, k) => Tame(k)
    case SocketCloses(_, k) => Tame(k)
    case SocketFails(_, k) => Tame(k)
    case MessageArrives(_, _, _) => true
    case FlushTick(k) => Calm(k)
    case PauseCalled => true
    case UnpauseCalled(k) => Calm(k)
    case DestroyCalled(k) => Tame(k)
  }

  lemma HandedTwice(w: Wrapper, q: Queue)
    requires q.messages != []
    ensures Handed(Handed(w, Head(q)), Tail(q)) == Handed(w, q)
  {
    assert Positions(q) == Positions(Head(q)) + Positions(Tail(q));
    assert q.messages == Head(q).messages + Tail(q).messages;
    assert Places(q) == Places(Head(q)) + Places(Tail(q));
    var log := w.log;
    assert log.delivered + Head(q).messages + Tail(q).messages == log.delivered + q.messages;
    assert log.at + Positions(Head(q)) + Positions(Tail(q)) == log.at + Positions(q);
    assert log.lost - Places(Head(q)) - Places(Tail(q)) == log.lost - Places(q);
  }

  ghost predicate SameDeliveries(w: Wrapper, w': Wrapper) {
    w'.log.received == w.log.received && w'.log.delivered == w.log.delivered && w'.log.at == w.log.at
  }

  /** With an empty buffer handlers cannot touch the stream: the queue is handed over and that is all. */
  lemma {:induction false} IdleReact(w: Wrapper, q: Queue, k: Script)
    requires w.buffer == []
    ensures var r := React(w, q, k);
      && r.buffer == [] && SameDeliveries(Handed(w, q), r) && r.log.lost == w.log.lost - Places(q)
      && (w.core.phase == Destroyed ==> r.core.phase == Destroyed)
    decreases k
  {
    match k
    case Done =>
    case Return(next) =>
      if q.messages == [] {
        IdleReact(w, q, next);
      } else {
        HandedTwice(w, q);
        IdleReact(Handed(w, Head(q)), Tail(q), next);
      }
    case Pause(next) => IdleReact(w.(paused := true), q, next);
    case Unpause(_, next) => IdleReact(w.(paused := false), q, next);
    case Destroy(during, next) =>
      if w.core.phase != Destroyed {
        IdleReact(Announced(w), NO_QUEUE, during);
        GoneFromEmpty(React(Announced(w), NO_QUEUE, during));
      }
      IdleReact(DestroyCall(w, during), q, next);
  }

  lemma GoneFromEmpty(w: Wrapper)
    requires w.buffer == []
    ensures Gone(w) == {}
  {
  }

  /** Calm handlers deliver nothing but the queue. They may empty the buffer, by a destroy; what was not
      delivered by then counts as lost until the queue hands it over. */
  lemma {:induction false} CalmReact(w: Wrapper, q: Queue, k: Script)
    requires Calm(k) && (w.core.phase == Destroyed ==> w.buffer == [])
    ensures var r := React(w, q, k);
      && SameDeliveries(Handed(w, q), r)
      && ((r.buffer == w.buffer && r.log.lost == w.log.lost - Places(q)) ||
          (r.buffer == [] && r.log.lost == w.log.lost + Gone(w) - Places(q)))
    decreases k, 0
  {
    match k
    case Done =>
    case Return(next) =>
      if q.messages == [] {
        CalmReact(w, q, next);
      } else {
        HandedTwice(w, q);
        CalmReact(Handed(w, Head(q)), Tail(q), next);
        assert Places(q) == Places(Head(q)) + Places(Tail(q)) by {
          assert Positions(q) == Positions(Head(q)) + Positions(Tail(q));
        }
      }
    case Pause(next) => CalmReact(w.(paused := true), q, next);
    case Destroy(during, next) => CalmDestroy(w, q, during, next);
  }

  lemma {:induction false} CalmDestroy(w: Wrapper, q: Queue, during: Script, next: Script)
    requires Calm(during) && (w.core.phase == Destroyed ==> w.buffer == [])
    ensures var r := React(DestroyCall(w, during), q, next);
      && SameDeliveries(Handed(w, q), r) && r.buffer == []
      && r.log.lost == w.log.lost + Gone(w) - Places(q)
    decreases during, 1
  {
    if w.core.phase != Destroyed {
      CalmReact(Announced(w), NO_QUEUE, during);
    }
    IdleReact(DestroyCall(w, during), q, next);
  }

  lemma BufferSplits(w: Wrapper)
    requires w.buffer != []
    ensures Handed(Handed(w, FirstBatch(w)), Remaining(w)) == Handed(w, Buffered(w))
    ensures Positions(Buffered(w)) == Positions(FirstBatch(w)) + Positions(Remaining(w))
  {
    if !w.cfg.bulk {
      HandedTwice(w, Buffered(w));
    }
  }

  /** A flush with calm handlers hands over the whole buffer, once and in order, and loses nothing. */
  lemma CalmFlush(w: Wrapper, k: Script)
    requires AnyInv(w) && Calm(k) && !w.paused && w.buffer != []
    ensures var f := Flush(w, k);
      && f.log.delivered == w.log.delivered + w.buffer && f.log.at == w.log.at + Positions(Buffered(w))
      && f.log.received == w.log.received && f.log.lost == w.log.lost && f.buffer == []
  {
    BufferSplits(w);
    CalmReact(Handed(w, FirstBatch(w)), Remaining(w), k);
    FlushLosesNothing(w, k);
  }

  lemma CalmFlushKeepsStream(w: Wrapper, k: Script)
    requires StreamInv(w) && Calm(k)
    ensures StreamInv(Flush(w, k))
  {
    if !w.paused && w.buffer != [] {
      CalmFlush(w, k);
      FlushLosesNothing(w, k);
    }
  }

  lemma {:induction false} TameReact(w: Wrapper, k: Script)
    requires StreamInv(w) && Tame(k)
    ensures StreamInv(React(w, NO_QUEUE, k))
    decreases k, 0
  {
    match k
    case Done =>
    case Return(next) => TameReact(w, next);
    case Pause(next) => TameReact(w.(paused := true), next);
    case Unpause(during, next) =>
      CalmFlushKeepsStream(w.(paused := false), during);
      TameReact(Flush(w.(paused := false), during), next);
    case Destroy(during, next) =>
      DestroyKeepsMid(w, during);
      TameDestroy(w, during);
      TameReact(DestroyCall(w, during), next);
  }

  lemma {:induction false} TameDestroy(w: Wrapper, k: Script)
    requires StreamInv(w) && Tame(k)
    ensures Increasing(DestroyCall(w, k).log.at)
    decreases k, 1
  {
    if w.core.phase != Destroyed {
      TameReact(Announced(w), k);
    }
  }

  lemma StepKeepsStream(w: Wrapper, e: Event)
    requires StreamInv(w) && TameEvent(e)
    ensures StreamInv(Step(w, e))
  {
    StepKeepsAny(w, e);
    if Enabled(w, e) {
      match e
      case TimerFires(t, ok, k) =>
        if w.core.options && !Redials(w, t) {
          TameDestroy(w.(core := Disarm(w.core.(timers := w.core.timers - {t}))), k);
        }
      case SocketOpens(s, k) => TameReact(w.(core := Opened(w.core, s)), k);
      case SocketCloses(s, k) => TameReact(w.(core := Shut(w.core, s)), k);
      case SocketFails(s, k) => TameReact(w.(core := w.core.(phase := Error)), k);
      case MessageArrives(s, m, k) => if m.Some? { MessageKeepsStream(w, m.value, k); }
      case FlushTick(k) => CalmFlushKeepsStream(w, k);
      case PauseCalled =>
      case UnpauseCalled(k) => CalmFlushKeepsStream(w.(paused := false), k);
      case DestroyCalled(k) => TameDestroy(w, k);
    }
  }

  lemma MessageKeepsStream(w: Wrapper, m: Msg, k: Script)
    requires StreamInv(w)
    ensures Increasing(OnMessage(w, m, k).log.at)
  {
    if w.core.phase != Destroyed && w.cfg.bufferMax == 0 {
      var w' := if w.core.phase == Closed then w else w.(core := w.core.(phase := Open));
      PassedOnKeepsAny(w', m);
      IdleReact(PassedOn(w', m), NO_QUEUE, k);
    }
  }

  lemma {:induction false} TraceKeepsStream(w: Wrapper, es: seq<Event>)
    requires StreamInv(w) && forall e :: e in es ==> TameEvent(e)
    ensures StreamInv(Trace(w, es))
    decreases |es|
  {
    if es != [] {
      StepKeepsStream(w, es[0]);
      TraceKeepsStream(Step(w, es[0]), es[1..]);
    }
  }

  /** Over every run, whatever handlers do: the buffer is the last min(n, bufferMax) of the n messages
      received since it was last emptied; everything delivered was received, and before that; every
      message is delivered, lost or still buffered, exactly one of the three; with no buffer every
      message is delivered at once. If handlers do not unpause in the middle of a flush, deliveries are
      an order-preserving subsequence of what was received, with no position taken twice. */
  lemma BufferedStream(cfg: Config, ok: bool, es: seq<Event>)
    ensures var w := Trace(New(cfg, ok), es);
      && w.log.emptied <= |w.log.received|
      && |w.buffer| <= cfg.bufferMax
      && w.buffer == LastN(w.log.received[w.log.emptied..], cfg.bufferMax)
      && Positioned(w.log, w.log.emptied)
      && Accounted(w.log, |w.log.received| - |w.buffer|)
      && (cfg.bufferMax == 0 ==> w.log.delivered == w.log.received)
      && ((forall e :: e in es ==> TameEvent(e)) ==> Increasing(w.log.at))
  {
    TraceKeepsAny(New(cfg, ok), es);
    if forall e :: e in es ==> TameEvent(e) {
      TraceKeepsStream(New(cfg, ok), es);
    }
  }

  // ---- delivered once, exactly when handlers stay calm ----

  /** Handlers that are not calm deliver the first buffered position again. */
  lemma {:induction false} UncalmRepeats(w: Wrapper, q: Queue, k: Script)
    requires w.buffer != [] && w.core.phase != Destroyed && !Calm(k)
    ensures w.log.at <= React(w, q, k).log.at && First(w) in React(w, q, k).log.at[|w.log.at|..]
    decreases k
  {
    var lo := Lowest(w, q);
    DeliveriesGrow(w, q, k, lo);
    match k
    case Return(next) =>
      if q.messages == [] {
        UncalmRepeats(w, q, next);
      } else {
        UncalmRepeats(Handed(w, Head(q)), Tail(q), next);
      }
    case Pause(next) => UncalmRepeats(w.(paused := true), q, next);
    case Unpause(during, next) =>
      var u := w.(paused := false);
      var h := Handed(u, FirstBatch(u));
      assert h.log.at[|w.log.at|] == First(w);
      DeliveriesGrow(h, Remaining(u), during, First(w));
      DeliveriesGrow(Flush(u, during), q, next, lo);
      assert React(w, q, k).log.at[|w.log.at|] == First(w);
    case Destroy(during, next) =>
      UncalmRepeats(Announced(w), NO_QUEUE, during);
      DeliveriesGrow(Announced(w), NO_QUEUE, during, lo);
      DeliveriesGrow(DestroyCall(w, during), q, next, lo);
  }

  lemma UncalmFlush(w: Wrapper, k: Script)
    requires !w.paused && w.buffer != [] && w.core.phase != Destroyed && !Calm(k)
    ensures !Increasing(Flush(w, k).log.at)
  {
    var h := Handed(w, FirstBatch(w));
    UncalmRepeats(h, Remaining(w), k);
    assert h.log.at[|w.log.at|] == First(w);
    TwiceIsNotIncreasing(h.log.at, Flush(w, k).log.at, |w.log.at|);
  }

  lemma TwiceIsNotIncreasing(before: seq<int>, after: seq<int>, n: nat)
    requires before <= after && n < |before| && before[n] in after[|before|..]
    ensures !Increasing(after)
  {
    var j :| |before| <= j < |after| && after[j] == before[n];
    assert after[n] == before[n];
  }

  /** A flush that delivers something delivers every message once if and only if its handlers stay calm. */
  lemma FlushDeliversOnce(w: Wrapper, k: Script)
    requires StreamInv(w) && !w.paused && w.buffer != []
    ensures Increasing(Flush(w, k).log.at) <==> Calm(k)
  {
    if Calm(k) {
      CalmFlushKeepsStream(w, k);
    } else {
      UncalmFlush(w, k);
    }
  }

  // ---- pausing ----

  predicate NoUnpause(k: Script) {
    match k
    case Done => true
    case Return(next) => NoUnpause(next)
    case Pause(next) => NoUnpause(next)
    case Unpause(_, _) => false
    case Destroy(during, next) => NoUnpause(during) && NoUnpause(next)
  }

  predicate StaysPaused(e: Event) {
    match e
    case TimerFires(_, _, k) => NoUnpause(k)
    case SocketOpens(_, k) => NoUnpause(k)
    case SocketCloses(_, k) => NoUnpause(k)
    case SocketFails(_, k) => NoUnpause(k)
    case MessageArrives(_, _, k) => NoUnpause(k)
    case FlushTick(k) => NoUnpause(k)
    case PauseCalled => true
    case UnpauseCalled(_) => false
    case DestroyCalled(k) => NoUnpause(k)
  }

  ghost predicate Silent(w: Wrapper, w': Wrapper) {
    w'.paused && w'.cfg == w.cfg && w'.log.delivered == w.log.delivered && w'.log.at == w.log.at
  }

  lemma {:induction false} PausedReact(w: Wrapper, k: Script)
    requires w.paused && NoUnpause(k)
    ensures Silent(w, React(w, NO_QUEUE, k))
    decreases k
  {
    match k
    case Done =>
    case Return(next) => PausedReact(w, next);
    case Pause(next) => PausedReact(w, next);
    case Destroy(during, next) =>
      PausedReact(Announced(w), during);
      PausedReact(DestroyCall(w, during), next);
  }

  lemma PausedStep(w: Wrapper, e: Event)
    requires w.cfg.bufferMax > 0 && w.paused && StaysPaused(e)
    ensures Silent(w, Step(w, e))
  {
    if Enabled(w, e) {
      match e
      case TimerFires(t, ok, k) =>
        PausedReact(Announced(w.(core := Disarm(w.core.(timers := w.core.timers - {t})))), k);
      case SocketOpens(s, k) => PausedReact(w.(core := Opened(w.core, s)), k);
      case SocketCloses(s, k) => PausedReact(w.(core := Shut(w.core, s)), k);
      case SocketFails(s, k) => PausedReact(w.(core := w.core.(phase := Error)), k);
      case DestroyCalled(k) => PausedReact(Announced(w), k);
      case _ =>
    }
  }

  /** In buffered mode nothing is delivered while paused: over any run without an unpause, by users or
      by handlers, a paused wrapper delivers nothing. */
  lemma {:induction false} PausedIsSilent(w: Wrapper, es: seq<Event>)
    requires w.cfg.bufferMax > 0 && w.paused && forall e :: e in es ==> StaysPaused(e)
    ensures Silent(w, Trace(w, es))
    decreases |es|
  {
    if es != [] {
      PausedStep(w, es[0]);
      PausedIsSilent(Step(w, es[0]), es[1..]);
    }
  }

  // ---- when nothing is lost ----

  /** No destroy and no reconnect: handlers do not destroy, and a firing timer only stops itself. */
  predicate Steady(w: Wrapper, e: Event) {
    match e
    case TimerFires(_, _, _) => !w.core.options || !w.cfg.reconnect || w.core.phase == Open
    case SocketOpens(_, k) => NoDestroy(k)
    case SocketCloses(_, k) => NoDestroy(k)
    case SocketFails(_, k) => NoDestroy(k)
    case MessageArrives(_, _, k) => NoDestroy(k)
    case FlushTick(k) => NoDestroy(k)
    case PauseCalled => true
    case UnpauseCalled(k) => NoDestroy(k)
    case DestroyCalled(_) => false
  }

  ghost predicate SteadyRun(w: Wrapper, es: seq<Event>)
    decreases |es|
  {
    es != [] ==> Steady(w, es[0]) && SteadyRun(Step(w, es[0]), es[1..])
  }

  /** Messages received since the buffer was last emptied. */
  function Window(w: Wrapper): int {
    |w.log.received| - w.log.emptied
  }

  ghost predicate WindowsFit(w: Wrapper, es: seq<Event>)
    decreases |es|
  {
    Window(w) <= w.cfg.bufferMax && (es != [] ==> WindowsFit(Step(w, es[0]), es[1..]))
  }

  lemma SteadyFlush(w: Wrapper, k: Script)
    requires AnyInv(w)
    ensures Flush(w, k).log.lost == w.log.lost
    ensures Window(w) <= w.cfg.bufferMax ==> Window(Flush(w, k)) <= w.cfg.bufferMax
  {
    if !w.paused && w.buffer != [] {
      FlushLosesNothing(w, k);
    }
  }

  lemma {:induction false} SteadyReact(w: Wrapper, k: Script)
    requires AnyInv(w) && NoDestroy(k)
    ensures React(w, NO_QUEUE, k).log.lost == w.log.lost
    ensures Window(w) <= w.cfg.bufferMax ==> Window(React(w, NO_QUEUE, k)) <= w.cfg.bufferMax
    decreases k
  {
    match k
    case Done =>
    case Return(next) => SteadyReact(w, next);
    case Pause(next) => SteadyReact(w.(paused := true), next);
    case Unpause(during, next) =>
      FlushKeepsMid(w.(paused := false), during);
      SteadyFlush(w.(paused := false), during);
      SteadyReact(Flush(w.(paused := false), during), next);
  }

  /** Nothing that was lost comes back, and something new is lost only when a window gets too large. */
  ghost predicate LosesBySize(w: Wrapper, w': Wrapper) {
    && w.log.lost <= w'.log.lost
    && (Window(w) <= w.cfg.bufferMax ==> (w'.log.lost == w.log.lost <==> Window(w') <= w.cfg.bufferMax))
  }

  lemma SteadyStep(w: Wrapper, e: Event)
    requires AnyInv(w) && Steady(w, e)
    ensures LosesBySize(w, Step(w, e))
  {
    if Enabled(w, e) {
      match e
      case TimerFires(t, ok, k) =>
      case SocketOpens(s, k) => SteadySocket(w, Opened(w.core, s), k);
      case SocketCloses(s, k) => SteadySocket(w, Shut(w.core, s), k);
      case SocketFails(s, k) => SteadySocket(w, w.core.(phase := Error), k);
      case MessageArrives(s, m, k) => if m.Some? { SteadyMessage(w, m.value, k); }
      case FlushTick(k) => SteadyFlush(w, k);
      case PauseCalled =>
      case UnpauseCalled(k) => SteadyFlush(w.(paused := false), k);
    }
  }

  lemma SteadySocket(w: Wrapper, c: Core, k: Script)
    requires AnyInv(w) && NoDestroy(k) && c.phase != Destroyed
    ensures LosesBySize(w, React(w.(core := c), NO_QUEUE, k))
  {
    SteadyReact(w.(core := c), k);
  }

  lemma SteadyMessage(w: Wrapper, m: Msg, k: Script)
    requires AnyInv(w) && NoDestroy(k)
    ensures LosesBySize(w, OnMessage(w, m, k))
  {
    if w.core.phase != Destroyed {
      var w' := if w.core.phase == Closed then w else w.(core := w.core.(phase := Open));
      if w.cfg.bufferMax > 0 {
        PushedKeepsAny(w', m);
      } else {
        PassedOnKeepsAny(w', m);
        SteadyReact(PassedOn(w', m), k);
      }
    }
  }

  lemma {:induction false} SteadyTrace(w: Wrapper, es: seq<Event>)
    requires AnyInv(w) && SteadyRun(w, es)
    ensures w.log.lost <= Trace(w, es).log.lost
    ensures Window(w) <= w.cfg.bufferMax ==> (Trace(w, es).log.lost == w.log.lost <==> WindowsFit(w, es))
    decreases |es|
  {
    if es != [] {
      var w' := Step(w, es[0]);
      SteadyStep(w, es[0]);
      StepKeepsAny(w, es[0]);
      StepKeepsCfg(w, es[0]);
      SteadyTrace(w', es[1..]);
      assert WindowsFit(w', es[1..]) ==> Window(w') <= w'.cfg.bufferMax;
    }
  }

  /** If nothing was lost, what was delivered followed by what is buffered is what was received. */
  lemma LosslessIsComplete(w: Wrapper)
    requires StreamInv(w) && w.log.lost == {}
    ensures w.log.delivered + w.buffer == w.log.received
  {
    var at := w.log.at;
    LosslessAt(w, |at|);
    var n := |at|;
    assert n <= First(w) by {
      assert n > 0 ==> at[n - 1] < w.log.emptied;
    }
    assert n == First(w) by {
      assert n !in w.log.lost && n !in at;
    }
    PrefixDelivered(w.log, n);
    assert w.buffer == w.log.received[First(w)..];
  }

  lemma PrefixDelivered(log: Log, n: nat)
    requires Positioned(log, log.emptied) && n == |log.at| && forall i :: 0 <= i < n ==> log.at[i] == i
    ensures n <= |log.received| && log.delivered == log.received[..n]
  {
    assert n > 0 ==> log.at[n - 1] == n - 1;
  }

  lemma {:induction false} LosslessAt(w: Wrapper, n: nat)
    requires StreamInv(w) && w.log.lost == {} && n <= |w.log.at|
    ensures forall i :: 0 <= i < n ==> w.log.at[i] == i
    decreases n
  {
    if n > 0 {
      LosslessAt(w, n - 1);
      var i := n - 1;
      assert w.log.at[i] >= i by {
        assert i > 0 ==> w.log.at[i - 1] == i - 1;
      }
      assert 0 <= i < First(w) ==> i !in w.log.lost && i in w.log.at;
    }
  }

  /** From construction, over any steady run: nothing is lost if and only if no window between two
      emptyings receives more than bufferMax messages. If handlers do not unpause in the middle of a flush
      either, the deliveries then are exactly the received messages up to the buffer, in order. */
  lemma NothingLost(cfg: Config, ok: bool, es: seq<Event>)
    requires SteadyRun(New(cfg, ok), es)
    ensures var w := Trace(New(cfg, ok), es); var fits := WindowsFit(New(cfg, ok), es);
      && (w.log.lost == {} <==> fits)
      && (fits && (forall e :: e in es ==> TameEvent(e)) ==> w.log.delivered + w.buffer == w.log.received)
  {
    SteadyTrace(New(cfg, ok), es);
    if WindowsFit(New(cfg, ok), es) && (forall e :: e in es ==> TameEvent(e)) {
      TraceKeepsStream(New(cfg, ok), es);
      LosslessIsComplete(Trace(New(cfg, ok), es));
    }
  }
}

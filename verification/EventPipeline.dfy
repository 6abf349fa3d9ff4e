/** The event list behind the wrapper's own 500-message buffer: when a burst makes the buffer drop its
    oldest messages, the shown list does not change, exactly when the kept messages are newer. */
module EventPipeline {
  import opened Sorting
  import opened EventStreamModel
  import opened EventStreamLaws
  import W = WebSocketModel
  import WebSocketStream
  import WebSocketTimers

  /** Every message that is kept of a window stands before every one that is dropped, in the order of the
      list: it reports a later time, or at the same time an object with an earlier name. A window that
      fits the buffer drops none. */
  ghost predicate KeptAreNewer(es: seq<KubeEvent>) {
    forall i, j :: 0 <= i < |es| - MAX_MESSAGES <= j < |es| ==> Strictly(es[j], es[i], NEWEST_FIRST)
  }

  /** It makes no difference to the list whether it sees a whole window or only what was kept of it. */
  ghost predicate Harmless(past: seq<KubeEvent>, window: seq<KubeEvent>) {
    Take(SortMessages(past + WebSocketStream.LastN(window, MAX_MESSAGES)), MAX_MESSAGES)
    == Take(SortMessages(past + window), MAX_MESSAGES)
  }

  /** Of one window the wrapper hands over the last 500 messages: the rest cannot reach the list. */
  lemma WindowCutIsHarmless(past: seq<KubeEvent>, window: seq<KubeEvent>)
    requires KeptAreNewer(window)
    ensures Harmless(past, window)
  {
    var dropped, ahead := CutWindow(window);
    assert past + window == past + dropped + ahead;
    BeforeIsWeakOrder(past + window);
    forall x, d | x in ahead && d in dropped ensures Strictly(x, d, NEWEST_FIRST) {
      var i :| 0 <= i < |ahead| && ahead[i] == x;
      var j :| 0 <= j < |dropped| && dropped[j] == d;
      assert window[|dropped| + i] == x && window[j] == d;
    }
    DropMany(past, dropped, ahead, MAX_MESSAGES, NEWEST_FIRST);
  }

  lemma CutWindow(window: seq<KubeEvent>) returns (dropped: seq<KubeEvent>, ahead: seq<KubeEvent>)
    ensures ahead == WebSocketStream.LastN(window, MAX_MESSAGES) && window == dropped + ahead
    ensures dropped == [] || (|ahead| == MAX_MESSAGES && |dropped| == |window| - MAX_MESSAGES)
  {
    ahead := WebSocketStream.LastN(window, MAX_MESSAGES);
    dropped := window[..|window| - |ahead|];
  }

  /** The cut is harmless whatever the list has seen before if and only if the kept messages are newer. */
  lemma CutIsHarmlessExactly(window: seq<KubeEvent>)
    requires DistinctUids(window)
    ensures (forall past :: Harmless(past, window)) <==> KeptAreNewer(window)
  {
    if KeptAreNewer(window) {
      forall past ensures Harmless(past, window) {
        WindowCutIsHarmless(past, window);
      }
    }
    if forall past :: Harmless(past, window) {
      assert Harmless([], window);
      HarmlessKeepsNewer(window);
    }
  }

  lemma HarmlessKeepsNewer(window: seq<KubeEvent>)
    requires DistinctUids(window) && Harmless([], window)
    ensures KeptAreNewer(window)
  {
    var dropped, kept := CutWindow(window);
    if dropped != [] {
      var first := FrontOfList(window, kept);
      MessagesAreSorted(window);
      MessagesAreSorted(kept);
      forall i, j | 0 <= i < |window| - MAX_MESSAGES <= j < |window|
        ensures Strictly(window[j], window[i], NEWEST_FIRST)
      {
        assert window[i] == dropped[i] && window[j] == kept[j - |dropped|];
        KeptStandsBefore(dropped, kept, SortMessages(window), first, window[i], window[j]);
      }
    }
  }

  lemma FrontOfList(window: seq<KubeEvent>, kept: seq<KubeEvent>) returns (first: seq<KubeEvent>)
    requires Harmless([], window) && kept == WebSocketStream.LastN(window, MAX_MESSAGES)
    ensures first == SortMessages(kept) <= SortMessages(window)
  {
    first := SortMessages(kept);
    assert [] + window == window && [] + kept == kept;
    assert Take(first, MAX_MESSAGES) == first;
  }

  /** If the list of the kept messages is the front of the list of all, a kept message stands neither
      behind a dropped one nor level with it: of two level ones the dropped would come first, as it was
      received first. */
  lemma KeptStandsBefore(dropped: seq<KubeEvent>, kept: seq<KubeEvent>, all: seq<KubeEvent>,
                         first: seq<KubeEvent>, d: KubeEvent, x: KubeEvent)
    requires DistinctUids(dropped + kept) && d in dropped && x in kept && first <= all
    requires NewestFirst(all) && multiset(all) == multiset(dropped + kept) && multiset(first) == multiset(kept)
    requires Ties(all, d, NEWEST_FIRST) == Ties(dropped + kept, d, NEWEST_FIRST)
    requires Ties(first, d, NEWEST_FIRST) == Ties(kept, d, NEWEST_FIRST)
    ensures Strictly(x, d, NEWEST_FIRST)
  {
    var tail := all[|first|..];
    assert all == first + tail;
    StandsInFront(dropped, kept, first, tail, d, x);
    Apart(dropped, kept);
    FrontHasNoTies(dropped, kept, first, tail, d, x, NEWEST_FIRST);
  }

  lemma StandsInFront(dropped: seq<KubeEvent>, kept: seq<KubeEvent>, first: seq<KubeEvent>, tail: seq<KubeEvent>,
                      d: KubeEvent, x: KubeEvent)
    requires NewestFirst(first + tail) && multiset(first + tail) == multiset(dropped + kept)
    requires multiset(first) == multiset(kept) && DistinctUids(dropped + kept) && d in dropped && x in kept
    ensures Before(x, d)
  {
    SameMembers(first + tail, dropped + kept);
    SameMembers(first, kept);
    Apart(dropped, kept);
    assert d in first + tail && x in first;
    var i :| 0 <= i < |first| && first[i] == x;
    var j :| 0 <= j < |tail| && tail[j] == d;
    assert (first + tail)[i] == x && (first + tail)[|first| + j] == d;
  }

  lemma Apart(dropped: seq<KubeEvent>, kept: seq<KubeEvent>)
    requires DistinctUids(dropped + kept)
    ensures forall e, f :: e in dropped && f in kept ==> e.uid != f.uid
  {
    forall e, f | e in dropped && f in kept ensures e.uid != f.uid {
      var i :| 0 <= i < |dropped| && dropped[i] == e;
      var j :| 0 <= j < |kept| && kept[j] == f;
      assert (dropped + kept)[i] == e && (dropped + kept)[|dropped| + j] == f;
    }
  }

  // ---- the wrapper and the component together ----

  /** How the component reads a message; each is taken to report a new event. */
  type Reader = W.Msg -> KubeEvent

  function ReadAll(texts: seq<W.Msg>, read: Reader): seq<KubeEvent> {
    seq(|texts|, i requires 0 <= i < |texts| => read(texts[i]))
  }

  /** The wrapper, the component behind it, and two records for the statements below: the windows that
      ended in a flush since the list was last reset, each with everything the wrapper received in it, and
      the position at which the first of them starts. */
  datatype Pipe = Pipe(w: W.Wrapper, v: View, windows: seq<seq<KubeEvent>>, since: nat)

  function Window(w: W.Wrapper): seq<W.Msg> {
    if w.log.emptied <= |w.log.received| then w.log.received[w.log.emptied..] else []
  }

  /** The messages handed to the bulk handler in this step. */
  function Delivery(before: W.Wrapper, after: W.Wrapper): seq<W.Msg> {
    var n := |before.log.delivered|;
    if n <= |after.log.delivered| then after.log.delivered[n..] else []
  }

  /** The component's handlers for open, close and error reset its list; the one for bulk messages takes
      the batch. None of them calls the wrapper. */
  function Advance(p: Pipe, e: W.Event, read: Reader, keeps: Keeps): Pipe {
    var w := W.Step(p.w, e);
    if W.Enabled(p.w, e) && (e.SocketOpens? || e.SocketCloses? || e.SocketFails?) then
      Pipe(w, Reset(p.v), [], w.log.emptied)
    else if Delivery(p.w, w) != [] then
      Pipe(w, Receive(p.v, keeps, Adds(ReadAll(Delivery(p.w, w), read))),
           p.windows + [ReadAll(Window(p.w), read)], p.since)
    else p.(w := w)
  }

  function RunPipe(p: Pipe, es: seq<W.Event>, read: Reader, keeps: Keeps): Pipe
    decreases |es|
  {
    if es == [] then p else RunPipe(Advance(p, es[0], read, keeps), es[1..], read, keeps)
  }

  predicate CallsNothing(e: W.Event) {
    !e.PauseCalled? ==> e.k == W.Done
  }

  /** Events have distinct uids, and what a window keeps is newer than what it drops. */
  ghost predicate InOrder(windows: seq<seq<KubeEvent>>) {
    && DistinctUids(Flat(windows))
    && forall i :: 0 <= i < |windows| ==> KeptAreNewer(windows[i])
  }

  ghost predicate Shows(v: View, es: seq<KubeEvent>) {
    v.messages == v.sorted == Take(SortMessages(es), MAX_MESSAGES)
  }

  ghost predicate PipeInv(p: Pipe) {
    && WebSocketStream.AnyInv(p.w) && p.w.cfg.bufferMax == MAX_MESSAGES && p.w.cfg.bulk
    && (InOrder(p.windows) ==> Shows(p.v, Flat(p.windows)))
  }

  /** One step of the wrapper delivers nothing, or the last 500 messages of the window, which it ends. */
  lemma StepDelivers(w: W.Wrapper, e: W.Event)
    requires WebSocketStream.AnyInv(w) && w.cfg.bufferMax > 0 && w.cfg.bulk && CallsNothing(e)
    ensures var w' := W.Step(w, e);
      || w'.log.delivered == w.log.delivered
      || (&& (e.FlushTick? || e.UnpauseCalled?)
          && w'.log.delivered == w.log.delivered + WebSocketStream.LastN(Window(w), w.cfg.bufferMax)
          && w'.log.received == w.log.received && w'.log.emptied == |w.log.received|)
  {
    if W.Enabled(w, e) {
      match e
      case TimerFires(t, ok, k) => DestroyDelivers(w.(core := W.Disarm(w.core.(timers := w.core.timers - {t}))));
      case FlushTick(k) => FlushDelivers(w);
      case UnpauseCalled(k) => FlushDelivers(w.(paused := false));
      case DestroyCalled(k) => DestroyDelivers(w);
      case _ =>
    }
  }

  lemma DestroyDelivers(w: W.Wrapper)
    ensures W.DestroyCall(w, W.Done).log.delivered == w.log.delivered
  {
  }

  lemma FlushDelivers(w: W.Wrapper)
    requires WebSocketStream.AnyInv(w) && w.cfg.bulk
    ensures var f := W.Flush(w, W.Done);
      || f == w
      || (&& f.log.delivered == w.log.delivered + WebSocketStream.LastN(Window(w), w.cfg.bufferMax)
          && f.log.received == w.log.received && f.log.emptied == |w.log.received|)
  {
  }

  lemma AdvanceKeepsInv(p: Pipe, e: W.Event, read: Reader, keeps: Keeps)
    requires PipeInv(p) && CallsNothing(e)
    ensures PipeInv(Advance(p, e, read, keeps))
  {
    var w := W.Step(p.w, e);
    WebSocketStream.StepKeepsAny(p.w, e);
    WebSocketTimers.StepKeepsCfg(p.w, e);
    StepDelivers(p.w, e);
    if Delivery(p.w, w) != [] {
      DeliveryIs(p.w, w, WebSocketStream.LastN(Window(p.w), MAX_MESSAGES));
      LastNReads(Window(p.w), read);
      WindowShows(p.v, keeps, p.windows, ReadAll(Window(p.w), read));
    }
  }

  lemma DeliveryIs(before: W.Wrapper, after: W.Wrapper, batch: seq<W.Msg>)
    requires after.log.delivered == before.log.delivered + batch
    ensures Delivery(before, after) == batch
  {
  }

  lemma LastNReads(texts: seq<W.Msg>, read: Reader)
    ensures ReadAll(WebSocketStream.LastN(texts, MAX_MESSAGES), read) ==
            WebSocketStream.LastN(ReadAll(texts, read), MAX_MESSAGES)
  {
  }

  /** The list after a flush, of which it saw only the last 500 messages. */
  lemma WindowShows(v: View, keeps: Keeps, windows: seq<seq<KubeEvent>>, window: seq<KubeEvent>)
    requires InOrder(windows) ==> Shows(v, Flat(windows))
    ensures InOrder(windows + [window]) ==>
              Shows(Receive(v, keeps, Adds(WebSocketStream.LastN(window, MAX_MESSAGES))), Flat(windows + [window]))
  {
    var all := windows + [window];
    if InOrder(all) {
      FlatSnoc(windows, window);
      PrefixIsDistinct(Flat(windows), window);
      assert forall i :: 0 <= i < |windows| ==> windows[i] == all[i];
      assert all[|windows|] == window;
      SuffixIsDistinct(Flat(windows), window);
      OneMoreBatch(v, keeps, Flat(windows), WebSocketStream.LastN(window, MAX_MESSAGES));
      WindowCutIsHarmless(Flat(windows), window);
    }
  }

  lemma FlatSnoc(windows: seq<seq<KubeEvent>>, window: seq<KubeEvent>)
    ensures Flat(windows + [window]) == Flat(windows) + window
  {
    assert (windows + [window])[..|windows|] == windows;
  }

  lemma {:induction false} RunKeepsInv(p: Pipe, es: seq<W.Event>, read: Reader, keeps: Keeps)
    requires PipeInv(p) && forall e :: e in es ==> CallsNothing(e)
    ensures PipeInv(RunPipe(p, es, read, keeps))
    ensures RunPipe(p, es, read, keeps).w == W.Trace(p.w, es)
    decreases |es|
  {
    if es != [] {
      AdvanceKeepsInv(p, es[0], read, keeps);
      RunKeepsInv(Advance(p, es[0], read, keeps), es[1..], read, keeps);
    }
  }

  /** The windows that ended since the reset leave nothing out. */
  ghost predicate Whole(p: Pipe, read: Reader) {
    var log := p.w.log;
    p.since <= log.emptied <= |log.received| && Flat(p.windows) == ReadAll(log.received[p.since..log.emptied], read)
  }

  lemma AdvanceKeepsWhole(p: Pipe, e: W.Event, read: Reader, keeps: Keeps)
    requires PipeInv(p) && CallsNothing(e) && WebSocketStream.Steady(p.w, e) && Whole(p, read)
    ensures Whole(Advance(p, e, read, keeps), read)
  {
    var before, after := p.w.log, W.Step(p.w, e).log;
    StepDelivers(p.w, e);
    WindowStaysOpen(p.w, e);
    var p' := Advance(p, e, read, keeps);
    if W.Enabled(p.w, e) && (e.SocketOpens? || e.SocketCloses? || e.SocketFails?) {
      NoWindows(after.received, after.emptied, read);
    } else if Delivery(p.w, p'.w) != [] {
      OneMoreWindow(p.windows, before.received, p.since, before.emptied, read);
    } else {
      LongerPrefix(before.received, after.received, p.since, before.emptied);
    }
  }

  lemma NoWindows(texts: seq<W.Msg>, n: nat, read: Reader)
    requires n <= |texts|
    ensures Flat([]) == ReadAll(texts[n..n], read)
  {
  }

  lemma OneMoreWindow(windows: seq<seq<KubeEvent>>, texts: seq<W.Msg>, since: nat, emptied: nat, read: Reader)
    requires since <= emptied <= |texts| && Flat(windows) == ReadAll(texts[since..emptied], read)
    ensures Flat(windows + [ReadAll(texts[emptied..], read)]) == ReadAll(texts[since..|texts|], read)
  {
    FlatSnoc(windows, ReadAll(texts[emptied..], read));
    assert texts[since..] == texts[since..emptied] + texts[emptied..];
  }

  lemma LongerPrefix(a: seq<W.Msg>, b: seq<W.Msg>, since: nat, emptied: nat)
    requires a <= b && since <= emptied <= |a|
    ensures a[since..emptied] == b[since..emptied]
  {
  }

  /** A steady step that delivers nothing leaves the window open. */
  lemma WindowStaysOpen(w: W.Wrapper, e: W.Event)
    requires WebSocketStream.AnyInv(w) && w.cfg.bufferMax > 0 && w.cfg.bulk
    requires CallsNothing(e) && WebSocketStream.Steady(w, e)
    ensures var w' := W.Step(w, e);
      && w.log.received <= w'.log.received && w'.log.emptied <= |w'.log.received|
      && (w'.log.delivered == w.log.delivered ==> w'.log.emptied == w.log.emptied)
  {
    WebSocketStream.StepKeepsAny(w, e);
    if W.Enabled(w, e) {
      match e
      case FlushTick(k) => FlushEnds(w);
      case UnpauseCalled(k) => FlushEnds(w.(paused := false));
      case _ =>
    }
  }

  lemma FlushEnds(w: W.Wrapper)
    requires WebSocketStream.AnyInv(w) && w.cfg.bulk
    ensures var f := W.Flush(w, W.Done);
      f.log.received == w.log.received && (f.log.delivered == w.log.delivered ==> f == w)
  {
    if !w.paused && w.buffer != [] {
      FlushDelivers(w);
      assert |W.Flush(w, W.Done).log.delivered| > |w.log.delivered|;
    }
  }

  lemma {:induction false} RunKeepsWhole(p: Pipe, es: seq<W.Event>, read: Reader, keeps: Keeps)
    requires PipeInv(p) && (forall e :: e in es ==> CallsNothing(e)) && WebSocketStream.SteadyRun(p.w, es)
    requires Whole(p, read)
    ensures Whole(RunPipe(p, es, read, keeps), read)
    decreases |es|
  {
    if es != [] {
      AdvanceKeepsInv(p, es[0], read, keeps);
      AdvanceKeepsWhole(p, es[0], read, keeps);
      RunKeepsWhole(Advance(p, es[0], read, keeps), es[1..], read, keeps);
    }
  }

  /** The wrapper with its 500-message buffer, run from construction, and the component behind it. However
      many messages a window receives: if the events since the last reset have distinct uids and every
      window keeps the newer ones, the list shown is the first 500, newest first, of all events of all the
      windows, the dropped ones included. While the wrapper neither reconnects nor is
      destroyed, these are all the messages it received from the reset's window on to the last flush. */
  lemma BurstsLoseNothing(cfg: W.Config, ok: bool, es: seq<W.Event>, v: View, read: Reader, keeps: Keeps)
    requires cfg.bufferMax == 500 && cfg.bulk && forall e :: e in es ==> CallsNothing(e)
    requires v.messages == [] && v.sorted == []
    ensures var p := RunPipe(Pipe(W.New(cfg, ok), v, [], 0), es, read, keeps); var log := p.w.log;
      && p.w == W.Trace(W.New(cfg, ok), es)
      && (InOrder(p.windows) ==> p.v.messages == p.v.sorted == Take(SortMessages(Flat(p.windows)), 500))
      && (WebSocketStream.SteadyRun(W.New(cfg, ok), es) ==>
            && p.since <= log.emptied <= |log.received|
            && Flat(p.windows) == ReadAll(log.received[p.since..log.emptied], read))
  {
    var p := Pipe(W.New(cfg, ok), v, [], 0);
    RunKeepsInv(p, es, read, keeps);
    if WebSocketStream.SteadyRun(p.w, es) {
      RunKeepsWhole(p, es, read, keeps);
    }
  }

  lemma PrefixIsDistinct(past: seq<KubeEvent>, window: seq<KubeEvent>)
    requires DistinctUids(past + window)
    ensures DistinctUids(past)
  {
    assert forall i :: 0 <= i < |past| ==> past[i] == (past + window)[i];
  }

  lemma SuffixIsDistinct(past: seq<KubeEvent>, window: seq<KubeEvent>)
    requires DistinctUids(past + window)
    ensures DistinctUids(past + WebSocketStream.LastN(window, MAX_MESSAGES))
  {
    var batch := WebSocketStream.LastN(window, MAX_MESSAGES);
    var d := |window| - |batch|;
    forall i | 0 <= i < |past| + |batch|
      ensures (past + batch)[i] == (past + window)[if i < |past| then i else i + d]
    {
    }
  }

  /** One more batch of new events on a list that is already the first 500 of the past. */
  lemma OneMoreBatch(w: View, keeps: Keeps, past: seq<KubeEvent>, batch: seq<KubeEvent>)
    requires w.messages == w.sorted == Take(SortMessages(past), MAX_MESSAGES)
    requires DistinctUids(past + batch)
    ensures var w' := Receive(w, keeps, Adds(batch));
      w'.sorted == Take(SortMessages(past + batch), MAX_MESSAGES) && w'.messages == w'.sorted
  {
    TakeKeepsDistinct(past, batch, MAX_MESSAGES);
    AddsAppend(w.messages, batch);
    BeforeIsWeakOrder(past);
    TruncateEarly(past, batch, MAX_MESSAGES, NEWEST_FIRST);
    SortKeepsDistinct(w.messages + batch);
    var kept := Take(SortMessages(w.messages + batch), MAX_MESSAGES);
    KeyByDistinct(kept);
    if w.messages + batch == [] {
      assert w.messages == [] && batch == [];
    }
  }
}

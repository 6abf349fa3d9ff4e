/** The reconnecting, buffering WebSocket wrapper as a state machine over values.
    A `Wrapper` holds the fields of the JavaScript object, the browser's side (live timers and
    sockets that still have callbacks attached) and a log of what happened to every message.
    The class in WSFactory.dfy performs the same steps on mutable fields. */
module WebSocketModel {
  import opened Options

  type Msg = string

  datatype Phase = Init | Open | Closed | Error | Destroyed

  /** What the browser knows about one socket. `Down` sockets have fired their close event. */
  datatype Link = Connecting | Up | Down

  /** `bulk` says whether a handler for bulk messages is registered. */
  datatype Config = Config(bufferMax: nat, reconnect: bool, timeout: int, bulk: bool)

  /** The connection half: the object's own fields, then the browser's live timers (each with the
      `delay` its closure holds) and the sockets whose callbacks are still attached. */
  datatype Core = Core(
    phase: Phase, attempt: Option<nat>, ws: Option<nat>, options: bool, interval: bool,
    timers: map<nat, nat>, sockets: map<nat, Link>,
    nextTimer: nat, nextSocket: nat, connects: nat)

  /** History. `at` gives the position in `received` of each delivered message; `lost` collects the
      positions thrown away undelivered; `emptied` is |received| when the buffer was last emptied. */
  datatype Log = Log(
    received: seq<Msg>, delivered: seq<Msg>, at: seq<int>, lost: set<int>, emptied: nat, destroys: nat)

  datatype Wrapper = Wrapper(cfg: Config, core: Core, paused: bool, buffer: seq<Msg>, log: Log)

  /** The calls that registered handlers make on the wrapper while one event is delivered to them.
      `during` is what handlers do in turn while that nested call delivers something. `Return` separates
      the calls for one message from those for the next, when a flush hands messages over one by one. */
  datatype Script =
    | Done
    | Return(next: Script)
    | Pause(next: Script)
    | Unpause(during: Script, next: Script)
    | Destroy(during: Script, next: Script)

  const FIRST_DELAY: nat := 1000
  const MAX_DELAY: nat := 60000

  /** Math.round(Math.min(1.5 * d, 60000)) on a whole number of milliseconds. */
  function NextDelay(d: nat): nat {
    if 3 * d <= 2 * MAX_DELAY then (3 * d + 1) / 2 else MAX_DELAY
  }

  // ---- the stream half ----

  function First(w: Wrapper): int {
    |w.log.received| - |w.buffer|
  }

  /** The buffered positions that were never delivered. */
  function Gone(w: Wrapper): set<int> {
    set p | First(w) <= p < |w.log.received| && p !in w.log.at
  }

  /** Assigning a new empty buffer: whatever was in it and not delivered is lost. */
  function Emptied(w: Wrapper): Wrapper {
    w.(buffer := [], log := w.log.(lost := w.log.lost + Gone(w), emptied := |w.log.received|))
  }

  /** Messages that a flush still has to hand over, received from position `from` on. The loop runs over
      the old array even when the field has been given a new one. */
  datatype Queue = Queue(from: int, messages: seq<Msg>)

  const NO_QUEUE := Queue(0, [])

  function Positions(q: Queue): seq<int> {
    seq(|q.messages|, i => q.from + i)
  }

  function Places(q: Queue): set<int> {
    set p | p in Positions(q)
  }

  /** Handlers are called with all of the queue. */
  function Handed(w: Wrapper, q: Queue): Wrapper {
    w.(log := w.log.(delivered := w.log.delivered + q.messages, at := w.log.at + Positions(q),
                     lost := w.log.lost - Places(q)))
  }

  function Buffered(w: Wrapper): Queue {
    Queue(First(w), w.buffer)
  }

  function Head(q: Queue): Queue
    requires q.messages != []
  {
    q.(messages := q.messages[..1])
  }

  function Tail(q: Queue): Queue
    requires q.messages != []
  {
    Queue(q.from + 1, q.messages[1..])
  }

  /** _triggerEvent('message') in buffered mode: push, then shift the oldest if over the limit. */
  function Pushed(w: Wrapper, m: Msg): Wrapper {
    var received := w.log.received + [m];
    var buffer := w.buffer + [m];
    if |buffer| > w.cfg.bufferMax then
      w.(buffer := buffer[1..],
         log := w.log.(received := received, lost := w.log.lost + {|received| - |buffer|}))
    else
      w.(buffer := buffer, log := w.log.(received := received))
  }

  /** _triggerEvent('message') with no buffer: straight to the handlers. */
  function PassedOn(w: Wrapper, m: Msg): Wrapper {
    var n := |w.log.received|;
    w.(log := w.log.(received := w.log.received + [m], delivered := w.log.delivered + [m],
                     at := w.log.at + [n], emptied := n + 1))
  }

  // ---- the connection half ----

  function Held(c: Core): set<nat> {
    if c.attempt.Some? then {c.attempt.value} else {}
  }

  function Current(c: Core): set<nat> {
    if c.ws.Some? then {c.ws.value} else {}
  }

  /** clearTimeout(_connectionAttempt); _connectionAttempt = null */
  function Disarm(c: Core): Core {
    c.(timers := c.timers - Held(c), attempt := None)
  }

  function Arm(c: Core, delay: nat): Core {
    c.(timers := c.timers[c.nextTimer := delay], attempt := Some(c.nextTimer), nextTimer := c.nextTimer + 1)
  }

  function Reconnect(c: Core): Core {
    if c.attempt.Some? || c.phase == Destroyed then c else Arm(c, FIRST_DELAY)
  }

  /** _connect on the connection half; `ok` says whether `new WebSocket` returned. */
  function Dial(c: Core, ok: bool): Core {
    var c' := c.(phase := Init, connects := c.connects + 1);
    if ok then
      c'.(sockets := c.sockets[c.nextSocket := Connecting], ws := Some(c.nextSocket), nextSocket := c.nextSocket + 1)
    else Reconnect(c')
  }

  /** The part of destroy before its event: stop both timers, detach and forget the current socket. */
  function Tearing(c: Core): Core {
    c.(interval := false, timers := c.timers - Held(c), sockets := c.sockets - Current(c), ws := None)
  }

  function Opened(c: Core, s: nat): Core {
    c.(phase := Open, sockets := c.sockets[s := Up])
  }

  function Shut(c: Core, s: nat): Core {
    c.(phase := Closed, sockets := c.sockets[s := Down])
  }

  // ---- calls ----

  /** destroy up to its event, with the event on record. */
  function Announced(w: Wrapper): Wrapper {
    w.(core := Tearing(w.core), log := w.log.(destroys := w.log.destroys + 1))
  }

  /** Handlers run; whenever those of one message have returned, the next message of q is handed over. */
  function React(w: Wrapper, q: Queue, k: Script): Wrapper
    decreases k, 0
  {
    match k
    case Done => Handed(w, q)
    case Return(next) => if q.messages == [] then React(w, q, next) else React(Handed(w, Head(q)), Tail(q), next)
    case Pause(next) => React(w.(paused := true), q, next)
    case Unpause(during, next) => React(Flush(w.(paused := false), during), q, next)
    case Destroy(during, next) => React(DestroyCall(w, during), q, next)
  }

  /** What a flush hands over first, and what it still has to: everything at once with a bulk handler,
      else one message and the rest. */
  function FirstBatch(w: Wrapper): Queue
    requires w.buffer != []
  {
    if w.cfg.bulk then Buffered(w) else Head(Buffered(w))
  }

  function Remaining(w: Wrapper): Queue
    requires w.buffer != []
  {
    if w.cfg.bulk then NO_QUEUE else Tail(Buffered(w))
  }

  function Flush(w: Wrapper, k: Script): Wrapper
    decreases k, 1
  {
    if w.paused || w.buffer == [] then w
    else Emptied(React(Handed(w, FirstBatch(w)), Remaining(w), k))
  }

  function DestroyCall(w: Wrapper, k: Script): Wrapper
    decreases k, 1
  {
    if w.core.phase == Destroyed then w
    else
      var after := Emptied(React(Announced(w), NO_QUEUE, k));
      after.(core := after.core.(phase := Destroyed, options := false))
  }

  // ---- events ----

  /** A message without a value is one whose text is to be parsed as JSON and is not. */
  datatype Event =
    | TimerFires(t: nat, ok: bool, k: Script)
    | SocketOpens(s: nat, k: Script)
    | SocketCloses(s: nat, k: Script)
    | SocketFails(s: nat, k: Script)
    | MessageArrives(s: nat, m: Option<Msg>, k: Script)
    | FlushTick(k: Script)
    | PauseCalled
    | UnpauseCalled(k: Script)
    | DestroyCalled(k: Script)

  /** What the browser can deliver. A message may come from any socket that still has callbacks, even one
      already closed (the source allows for that). */
  predicate Enabled(w: Wrapper, e: Event) {
    match e
    case TimerFires(t, _, _) => t in w.core.timers
    case SocketOpens(s, _) => s in w.core.sockets && w.core.sockets[s] == Connecting
    case SocketCloses(s, _) => s in w.core.sockets && w.core.sockets[s] != Down
    case SocketFails(s, _) => s in w.core.sockets && w.core.sockets[s] != Down
    case MessageArrives(s, _, _) => s in w.core.sockets
    case FlushTick(_) => w.core.interval
    case _ => true
  }

  predicate TimedOut(cfg: Config, delay: nat) {
    cfg.timeout != 0 && delay > cfg.timeout
  }

  /** True when the firing timer dials again, rather than giving up, stopping or throwing. */
  predicate Redials(w: Wrapper, t: nat)
    requires t in w.core.timers
  {
    w.core.options && w.cfg.reconnect && w.core.phase != Open && !TimedOut(w.cfg, w.core.timers[t])
  }

  function Attempt(w: Wrapper, t: nat, ok: bool, k: Script): Wrapper
    requires t in w.core.timers
  {
    var fired := w.core.(timers := w.core.timers - {t});
    if !w.core.options then w.(core := fired)   // reading this.options.reconnect throws
    else if !w.cfg.reconnect || w.core.phase == Open then w.(core := Disarm(fired))
    else if TimedOut(w.cfg, w.core.timers[t]) then DestroyCall(w.(core := Disarm(fired)), k)
    else
      Emptied(w).(core := Arm(Dial(fired, ok), NextDelay(w.core.timers[t])))
  }

  function OnOpen(w: Wrapper, s: nat, k: Script): Wrapper {
    var w' := React(w.(core := Opened(w.core, s)), NO_QUEUE, k);
    w'.(core := Disarm(w'.core))
  }

  function OnClose(w: Wrapper, s: nat, k: Script): Wrapper {
    var w' := React(w.(core := Shut(w.core, s)), NO_QUEUE, k);
    w'.(core := Reconnect(w'.core))
  }

  function OnError(w: Wrapper, k: Script): Wrapper {
    React(w.(core := w.core.(phase := Error)), NO_QUEUE, k)
  }

  function OnMessage(w: Wrapper, m: Msg, k: Script): Wrapper {
    var w' := if w.core.phase in {Destroyed, Closed} then w else w.(core := w.core.(phase := Open));
    if w.core.phase == Destroyed then w'
    else if w.cfg.bufferMax > 0 then Pushed(w', m)
    else React(PassedOn(w', m), NO_QUEUE, k)
  }

  function Step(w: Wrapper, e: Event): Wrapper {
    if !Enabled(w, e) then w
    else match e
      case TimerFires(t, ok, k) => Attempt(w, t, ok, k)
      case SocketOpens(s, k) => OnOpen(w, s, k)
      case SocketCloses(s, k) => OnClose(w, s, k)
      case SocketFails(_, k) => OnError(w, k)
      case MessageArrives(_, m, k) => if m.None? then w else OnMessage(w, m.value, k)
      case FlushTick(k) => Flush(w, k)
      case PauseCalled => w.(paused := true)
      case UnpauseCalled(k) => Flush(w.(paused := false), k)
      case DestroyCalled(k) => DestroyCall(w, k)
  }

  function Trace(w: Wrapper, es: seq<Event>): Wrapper
    decreases |es|
  {
    if es == [] then w else Trace(Step(w, es[0]), es[1..])
  }

  /** The constructor: connect, then start the flush interval if there is a buffer. */
  function New(cfg: Config, ok: bool): Wrapper {
    var blank := Core(Init, None, None, true, false, map[], map[], 0, 0, 0);
    var core := Dial(blank, ok).(interval := cfg.bufferMax > 0);
    Wrapper(cfg, core, false, [], Log([], [], [], {}, 0, 0))
  }
}

/** The mutable wrapper. Each method performs the source's statements on fields and is proved to
    take exactly the corresponding step of WebSocketModel. */
module WebSocketWrapper {
  import opened Options
  import opened WebSocketModel

  class WSFactory {
    const cfg: Config
    var phase: Phase
    var paused: bool
    var messageBuffer: seq<Msg>
    var connectionAttempt: Option<nat>
    var ws: Option<nat>
    var hasOptions: bool
    var flushInterval: bool

    // The browser's side: live timers with the delay their closure holds, sockets with callbacks.
    var timers: map<nat, nat>
    var sockets: map<nat, Link>
    var nextTimer: nat
    var nextSocket: nat

    ghost var connects: nat
    ghost var log: Log

    ghost function Connection(): Core
      reads this
    {
      Core(phase, connectionAttempt, ws, hasOptions, flushInterval, timers, sockets, nextTimer, nextSocket, connects)
    }

    ghost function View(): Wrapper
      reads this
    {
      Wrapper(cfg, Connection(), paused, messageBuffer, log)
    }

    constructor (cfg: Config, ok: bool)
      ensures View() == New(cfg, ok)
      ensures phase == Init && !paused && messageBuffer == [] && (flushInterval <==> cfg.bufferMax > 0)
      ensures if ok then sockets == map[0 := Connecting] && ws == Some(0) && timers == map[]
              else sockets == map[] && ws == None && timers == map[0 := 1000]
    {
      this.cfg := cfg;
      phase, paused, messageBuffer := Init, false, [];
      connectionAttempt, ws, hasOptions, flushInterval := None, None, true, false;
      timers, sockets, nextTimer, nextSocket := map[], map[], 0, 0;
      connects, log := 0, Log([], [], [], {}, 0, 0);
      new;
      Connect(ok);
      if cfg.bufferMax > 0 {
        flushInterval := true;
      }
    }

    method SetTimeout(delay: nat)
      modifies this
      ensures View() == old(View()).(core := Arm(old(Connection()), delay))
    {
      timers := timers[nextTimer := delay];
      connectionAttempt := Some(nextTimer);
      nextTimer := nextTimer + 1;
    }

    method ClearTimeout()
      modifies this`timers
      ensures timers == old(timers) - Held(old(Connection()))
    {
      if connectionAttempt.Some? {
        timers := timers - {connectionAttempt.value};
      }
    }

    method ClearAttempt()
      modifies this
      ensures View() == old(View()).(core := Disarm(old(Connection())))
    {
      ClearTimeout();
      connectionAttempt := None;
    }

    /** The end of onopen: only if an attempt is held. */
    method StopAttempt()
      modifies this
      ensures View() == old(View()).(core := Disarm(old(Connection())))
    {
      assert timers - {} == timers;
      if connectionAttempt.Some? {
        ClearAttempt();
      }
    }

    method EmptyBuffer()
      modifies this
      ensures View() == Emptied(old(View()))
    {
      log := Emptied(View()).log;
      messageBuffer := [];
    }

    method ScheduleReconnect()
      modifies this
      ensures View() == old(View()).(core := Reconnect(old(Connection())))
    {
      if connectionAttempt.Some? || phase == Destroyed {
        return;
      }
      SetTimeout(FIRST_DELAY);
    }

    method Connect(ok: bool)
      modifies this
      ensures View() == Emptied(old(View())).(core := Dial(old(Connection()), ok))
    {
      phase := Init;
      connects := connects + 1;
      EmptyBuffer();
      if !ok {
        ScheduleReconnect();
        return;
      }
      OpenSocket();
    }

    /** `new WebSocket` returned: a further socket with callbacks; the old one is not detached. */
    method OpenSocket()
      modifies this`sockets, this`ws, this`nextSocket
      ensures sockets == old(sockets)[old(nextSocket) := Connecting]
      ensures ws == Some(old(nextSocket)) && nextSocket == old(nextSocket) + 1
    {
      sockets := sockets[nextSocket := Connecting];
      ws := Some(nextSocket);
      nextSocket := nextSocket + 1;
    }

    /** The timer callback: the closure's `delay` is the one the fired timer was set with. */
    method OnTimer(t: nat, ok: bool, k: Script)
      requires t in timers
      modifies this
      ensures View() == Attempt(old(View()), t, ok, k)
    {
      var delay := timers[t];
      timers := timers - {t};
      if !hasOptions {
        return;
      }
      if !cfg.reconnect || phase == Open {
        ClearAttempt();
        return;
      }
      if cfg.timeout != 0 && delay > cfg.timeout {
        ClearAttempt();
        DestroyNow(k);
        return;
      }
      Connect(ok);
      delay := NextDelay(delay);
      SetTimeout(delay);
    }

    /** Registered handlers run and call back into the wrapper. When those of one message have returned,
        the next message of the loop over the flushed array is handed over. */
    method InvokeHandlers(waiting: seq<Msg>, ghost from: int, k: Script)
      modifies this
      ensures View() == React(old(View()), Queue(from, waiting), k)
      decreases k, 0
    {
      match k
      case Done => HandOver(waiting, from);
      case Return(next) =>
        if |waiting| == 0 {
          InvokeHandlers(waiting, from, next);
        } else {
          HandOver(waiting[..1], from);
          InvokeHandlers(waiting[1..], from + 1, next);
        }
      case Pause(next) =>
        PauseNow();
        InvokeHandlers(waiting, from, next);
      case Unpause(during, next) =>
        UnpauseNow(during);
        InvokeHandlers(waiting, from, next);
      case Destroy(during, next) =>
        DestroyNow(during);
        InvokeHandlers(waiting, from, next);
    }

    /** Handlers are called with these messages, the first of which was received at position `from`. */
    method HandOver(messages: seq<Msg>, ghost from: int)
      modifies this`log
      ensures View() == Handed(old(View()), Queue(from, messages))
    {
      log := Handed(View(), Queue(from, messages)).log;
    }

    method FlushMessageBuffer(k: Script)
      modifies this
      ensures View() == Flush(old(View()), k)
      decreases k, 1
    {
      if paused {
        return;
      }
      if |messageBuffer| == 0 {
        return;
      }
      ghost var from := First(View());
      var flushed := messageBuffer;
      if cfg.bulk {
        HandOver(flushed, from);
        InvokeHandlers([], 0, k);
      } else {
        HandOver(flushed[..1], from);
        InvokeHandlers(flushed[1..], from + 1, k);
      }
      EmptyBuffer();
    }

    method PauseNow()
      modifies this
      ensures View() == old(View()).(paused := true)
    {
      paused := true;
    }

    method UnpauseNow(k: Script)
      modifies this
      ensures View() == Flush(old(View()).(paused := false), k)
      decreases k, 2
    {
      paused := false;
      FlushMessageBuffer(k);
    }

    /** destroy up to its event: stop both timers, detach the current socket and forget it. */
    method TearDown()
      modifies this
      ensures View() == old(View()).(core := Tearing(old(Connection())))
    {
      flushInterval := false;
      ClearTimeout();
      assert sockets - {} == sockets;
      if ws.Some? {
        sockets := sockets - {ws.value};
        ws := None;
      }
    }

    method DestroyNow(k: Script)
      modifies this
      ensures View() == DestroyCall(old(View()), k)
      decreases k, 1
    {
      if phase == Destroyed {
        return;
      }
      TearDown();
      log := log.(destroys := log.destroys + 1);
      InvokeHandlers([], 0, k);
      Finish();
    }

    /** The end of destroy. */
    method Finish()
      modifies this
      ensures View() == Emptied(old(View())).(core := old(Connection()).(phase := Destroyed, options := false))
    {
      EmptyBuffer();
      phase := Destroyed;
      hasOptions := false;
    }

    /** The first statements of onopen and onclose. */
    method Become(p: Phase, s: nat, link: Link)
      modifies this`sockets, this`phase
      ensures sockets == old(sockets)[s := link] && phase == p
    {
      sockets := sockets[s := link];
      phase := p;
    }

    method OnSocketOpen(s: nat, k: Script)
      modifies this
      ensures View() == OnOpen(old(View()), s, k)
    {
      Become(Open, s, Up);
      InvokeHandlers([], 0, k);
      StopAttempt();
    }

    method OnSocketClose(s: nat, k: Script)
      modifies this
      ensures View() == OnClose(old(View()), s, k)
    {
      Become(Closed, s, Down);
      InvokeHandlers([], 0, k);
      ScheduleReconnect();
    }

    method OnSocketError(k: Script)
      modifies this
      ensures View() == OnError(old(View()), k)
    {
      phase := Error;
      InvokeHandlers([], 0, k);
    }

    /** onmessage: parsing comes first, and a text that does not parse throws before anything changes. */
    method OnSocketMessage(text: Option<Msg>, k: Script)
      modifies this
      ensures View() == if text.None? then old(View()) else OnMessage(old(View()), text.value, k)
    {
      if text.None? {
        return;
      }
      var m := text.value;
      if phase != Destroyed && phase != Closed {
        phase := Open;
      }
      if phase == Destroyed {
        return;
      }
      if cfg.bufferMax > 0 {
        PushMessage(m);
        return;
      }
      log := PassedOn(View(), m).log;
      InvokeHandlers([], 0, k);
    }

    method PushMessage(m: Msg)
      modifies this`messageBuffer, this`log
      ensures View() == Pushed(old(View()), m)
    {
      log := Pushed(View(), m).log;
      messageBuffer := messageBuffer + [m];
      if |messageBuffer| > cfg.bufferMax {
        messageBuffer := messageBuffer[1..];
      }
    }

    /** One turn of the event loop. */
    method Handle(e: Event)
      requires Enabled(View(), e)
      modifies this
      ensures View() == Step(old(View()), e)
    {
      match e
      case TimerFires(t, ok, k) => OnTimer(t, ok, k);
      case SocketOpens(s, k) => OnSocketOpen(s, k);
      case SocketCloses(s, k) => OnSocketClose(s, k);
      case SocketFails(_, k) => OnSocketError(k);
      case MessageArrives(_, m, k) => OnSocketMessage(m, k);
      case FlushTick(k) => FlushMessageBuffer(k);
      case PauseCalled => PauseNow();
      case UnpauseCalled(k) => UnpauseNow(k);
      case DestroyCalled(k) => DestroyNow(k);
    }
  }
}

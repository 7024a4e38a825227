/** The auto-reconnecting realtime client of apps/mobile/lib/messaging-ws.ts.

    `Step` is the client together with the host it runs on: WebSocket objects whose close event is
    still to come, and timers that are still to fire. The class below performs the same steps on
    fields; the theorems are about every run of steps. */
module MessagingSockets {
  import opened Int32
  import opened Options

  const INITIAL_RECONNECT_DELAY_MS: nat := 1000
  const MAX_RECONNECT_DELAY_MS: nat := 30_000

  datatype ConnectionState = Connecting | Open | Reconnecting | Closed

  /** What the client can cause and observe in its host. Sockets and timers are numbered in the
      order of their creation. */
  datatype Host = Host(
    tokens: seq<string>,         // of the sockets constructed so far, the token in the URL
    unclosed: set<nat>,          // sockets whose close event has not been delivered
    mayOpen: set<nat>,           // of those, the ones that may still deliver an open event
    armed: nat,                  // timers armed so far
    timers: map<nat, nat>)       // pending timers and their delays
  {
    function NewSocket(token: string): Host {
      this.(tokens := tokens + [token],
            unclosed := unclosed + {|tokens|},
            mayOpen := mayOpen + {|tokens|})
    }

    /** `socket.close()`: the close event comes later, an open event no longer. */
    function CloseSocket(s: nat): Host {
      this.(mayOpen := mayOpen - {s})
    }

    function SetTimeout(delay: nat): Host {
      this.(armed := armed + 1, timers := timers[armed := delay])
    }

    function ClearTimeout(t: nat): Host {
      this.(timers := timers - {t})
    }
  }

  datatype Client = Client(
    socket: Option<nat>,
    accessToken: Option<string>,
    intentionalDisconnect: bool,
    reconnectDelayMs: nat,
    reconnectTimer: Option<nat>,
    state: ConnectionState)

  datatype World = World(client: Client, host: Host)

  const INITIAL: World :=
    World(Client(None, None, false, INITIAL_RECONNECT_DELAY_MS, None, Closed), Host([], {}, {}, 0, map[]))

  datatype Event =
    | Connect(token: string)
    | Disconnect
    | SocketOpened(socket: nat)
    | SocketClosed(socket: nat)
    | TimerFired(timer: nat)

  /** Callers pass a token (the one caller checks it first); the host delivers each open and close
      event at most once, no open event after `close()` or after the close event, and fires only
      pending timers. */
  predicate Enabled(w: World, e: Event) {
    match e
    case Connect(token) => token != ""
    case Disconnect => true
    case SocketOpened(s) => s in w.host.mayOpen
    case SocketClosed(s) => s in w.host.unclosed
    case TimerFired(t) => t in w.host.timers
  }

  function Min(a: nat, b: nat): nat {
    if a <= b then a else b
  }

  function ClearReconnectTimer(w: World): World {
    if w.client.reconnectTimer.Some? then
      World(w.client.(reconnectTimer := None), w.host.ClearTimeout(w.client.reconnectTimer.value))
    else w
  }

  /** The private `open()`. */
  function OpenSocket(w: World): World {
    if w.client.accessToken.None? || w.client.accessToken.value == "" then w
    else World(w.client.(socket := Some(|w.host.tokens|)), w.host.NewSocket(w.client.accessToken.value))
  }

  function Step(w: World, e: Event): World {
    match e
    case Connect(token) =>
      var w1 := ClearReconnectTimer(w);
      OpenSocket(World(w1.client.(accessToken := Some(token),
                                  intentionalDisconnect := false,
                                  reconnectDelayMs := INITIAL_RECONNECT_DELAY_MS,
                                  state := Connecting), w1.host))
    case Disconnect =>
      var w1 := ClearReconnectTimer(w);
      World(w1.client.(intentionalDisconnect := true, socket := None, state := Closed),
            if w.client.socket.Some? then w1.host.CloseSocket(w.client.socket.value) else w1.host)
    case SocketOpened(s) =>
      World(w.client.(reconnectDelayMs := INITIAL_RECONNECT_DELAY_MS, state := Open),
            w.host.(mayOpen := w.host.mayOpen - {s}))
    case SocketClosed(s) =>
      var h := w.host.(unclosed := w.host.unclosed - {s}, mayOpen := w.host.mayOpen - {s});
      if w.client.intentionalDisconnect then World(w.client.(state := Closed), h)
      else World(w.client.(state := Reconnecting, reconnectTimer := Some(h.armed)),
                 h.SetTimeout(w.client.reconnectDelayMs))
    case TimerFired(t) =>
      OpenSocket(World(w.client.(reconnectDelayMs := Min(w.client.reconnectDelayMs * 2, MAX_RECONNECT_DELAY_MS)),
                       w.host.(timers := w.host.timers - {t})))
  }

  // ---------------------------------------------------------------------------------------------
  // The class

  class MessagingSocket {
    var socket: Option<nat>
    var accessToken: Option<string>
    var intentionalDisconnect: bool
    var reconnectDelayMs: nat
    var reconnectTimer: Option<nat>
    var state: ConnectionState
    var host: Host

    ghost function View(): World
      reads this
    {
      World(Client(socket, accessToken, intentionalDisconnect, reconnectDelayMs, reconnectTimer, state), host)
    }

    constructor ()
      ensures View() == INITIAL
    {
      socket, accessToken, intentionalDisconnect := None, None, false;
      reconnectDelayMs, reconnectTimer, state := INITIAL_RECONNECT_DELAY_MS, None, Closed;
      host := Host([], {}, {}, 0, map[]);
    }

    method Connect(token: string)
      modifies this
      ensures View() == Step(old(View()), Event.Connect(token))
    {
      accessToken := Some(token);
      intentionalDisconnect := false;
      reconnectDelayMs := INITIAL_RECONNECT_DELAY_MS;
      if reconnectTimer.Some? {
        host := host.ClearTimeout(reconnectTimer.value);
        reconnectTimer := None;
      }
      state := Connecting;
      OpenNew();
    }

    method OpenNew()
      modifies this
      ensures View() == OpenSocket(old(View()))
    {
      if accessToken.None? || accessToken.value == "" { return; }
      var id := |host.tokens|;
      host := host.NewSocket(accessToken.value);
      socket := Some(id);
    }

    method OnOpen(s: nat)
      requires Enabled(View(), SocketOpened(s))
      modifies this
      ensures View() == Step(old(View()), SocketOpened(s))
    {
      host := host.(mayOpen := host.mayOpen - {s});
      reconnectDelayMs := INITIAL_RECONNECT_DELAY_MS;
      state := Open;
    }

    method OnClose(s: nat)
      requires Enabled(View(), SocketClosed(s))
      modifies this
      ensures View() == Step(old(View()), SocketClosed(s))
    {
      host := host.(unclosed := host.unclosed - {s}, mayOpen := host.mayOpen - {s});
      if intentionalDisconnect {
        state := Closed;
        return;
      }
      state := Reconnecting;
      reconnectTimer := Some(host.armed);
      host := host.SetTimeout(reconnectDelayMs);
    }

    method OnReconnectTimer(t: nat)
      requires Enabled(View(), TimerFired(t))
      modifies this
      ensures View() == Step(old(View()), TimerFired(t))
    {
      host := host.(timers := host.timers - {t});
      reconnectDelayMs := Min(reconnectDelayMs * 2, MAX_RECONNECT_DELAY_MS);
      OpenNew();
    }

    method Disconnect()
      modifies this
      ensures View() == Step(old(View()), Event.Disconnect)
    {
      intentionalDisconnect := true;
      if reconnectTimer.Some? {
        host := host.ClearTimeout(reconnectTimer.value);
        reconnectTimer := None;
      }
      if socket.Some? {
        host := host.CloseSocket(socket.value);
      }
      socket := None;
      state := Closed;
    }
  }

  // ---------------------------------------------------------------------------------------------
  // Runs

  function Run(es: seq<Event>): World {
    if es == [] then INITIAL else Step(Run(es[..|es| - 1]), es[|es| - 1])
  }

  /** The host and the callers could produce these events in this order. */
  predicate Feasible(es: seq<Event>) {
    es == [] || (Feasible(es[..|es| - 1]) && Enabled(Run(es[..|es| - 1]), es[|es| - 1]))
  }

  /** `connect` is called only when no earlier socket still owes its close event. */
  predicate Disciplined(es: seq<Event>) {
    es == [] ||
    (&& Disciplined(es[..|es| - 1])
     && (es[|es| - 1].Connect? ==> Run(es[..|es| - 1]).host.unclosed == {}))
  }

  /** Sockets and timers through which the client may still act. */
  function Alive(w: World): nat {
    |w.host.unclosed| + |w.host.timers|
  }

  // ---------------------------------------------------------------------------------------------
  // What each reported state says about the host

  /** One open connection attempt or connection: the client's own, and no timer. */
  predicate OnlySocket(w: World, established: bool) {
    && w.client.socket.Some?
    && w.host.unclosed == {w.client.socket.value}
    && w.host.mayOpen == (if established then {} else w.host.unclosed)
    && w.host.timers == map[]
  }

  /** One pending timer, the one the client holds, and no socket. */
  predicate OnlyTimer(w: World) {
    && w.client.reconnectTimer.Some?
    && w.host.timers.Keys == {w.client.reconnectTimer.value}
    && w.host.unclosed == {} && w.host.mayOpen == {}
  }

  predicate HasToken(c: Client) {
    c.accessToken.Some? && c.accessToken.value != ""
  }

  /** Nothing left that could act: no timer, no socket that may open. */
  predicate Quiet(w: World) {
    w.host.timers == map[] && w.host.mayOpen == {} && w.client.state == Closed
  }

  predicate Situation(w: World) {
    && (w.client.intentionalDisconnect ==> w.client.state == Closed && w.client.socket.None?)
    && (!w.client.intentionalDisconnect && w.client.state == Closed ==>
          w.client.accessToken.None? && w.host.unclosed == {})
    && (w.client.state != Closed ==> HasToken(w.client))
    && match w.client.state
       case Closed => Quiet(w)
       case Connecting => OnlySocket(w, false)
       case Open => OnlySocket(w, true)
       case Reconnecting => OnlyTimer(w) || OnlySocket(w, false)
  }

  /** Created numbers are below the counters, and only the newest socket can be unclosed. */
  predicate Numbered(h: Host) {
    && (forall s <- h.unclosed :: s + 1 == |h.tokens|)
    && (forall t <- h.timers :: t < h.armed)
    && h.mayOpen <= h.unclosed
  }

  lemma SituationStep(w: World, e: Event)
    requires Situation(w) && Numbered(w.host) && Enabled(w, e)
    requires e.Connect? ==> w.host.unclosed == {}
    ensures Situation(Step(w, e)) && Numbered(Step(w, e).host)
  {
  }

  /** In every disciplined run each reported state means one situation of the host: "connecting" an
      unopened socket, "open" an opened one, "reconnecting" the held timer or an unopened socket,
      "closed" nothing that can still act. */
  lemma {:induction false} StateMeansSituation(es: seq<Event>)
    requires Feasible(es) && Disciplined(es)
    ensures Situation(Run(es)) && Numbered(Run(es).host)
  {
    if es != [] {
      StateMeansSituation(es[..|es| - 1]);
      SituationStep(Run(es[..|es| - 1]), es[|es| - 1]);
    }
  }

  lemma AliveInSituation(w: World)
    requires Situation(w) && Numbered(w.host)
    ensures Alive(w) <= 1
    ensures forall t <- w.host.timers :: w.client.reconnectTimer == Some(t)
    ensures w.client.accessToken.Some? && !w.client.intentionalDisconnect ==> Alive(w) == 1
  {
    assert |w.host.timers| == |w.host.timers.Keys|;
    if w.host.unclosed != {} {
      var s :| s in w.host.unclosed;
      assert w.host.unclosed == {s};
    }
  }

  /** Never stuck, never doubled: once connected and not deliberately disconnected, exactly one
      socket or timer is alive, and a pending timer is always the one `reconnectTimer` holds. */
  lemma {:induction false} ExactlyOneAlive(es: seq<Event>)
    requires Feasible(es) && Disciplined(es)
    ensures Alive(Run(es)) <= 1
    ensures forall t <- Run(es).host.timers :: Run(es).client.reconnectTimer == Some(t)
    ensures (exists i :: 0 <= i < |es| && es[i].Connect?) && !Run(es).client.intentionalDisconnect
            ==> Alive(Run(es)) == 1
  {
    StateMeansSituation(es);
    AliveInSituation(Run(es));
    if exists i :: 0 <= i < |es| && es[i].Connect? { TokenOnceConnected(es); }
  }

  lemma {:induction false} TokenOnceConnected(es: seq<Event>)
    requires exists i :: 0 <= i < |es| && es[i].Connect?
    ensures Run(es).client.accessToken.Some?
  {
    var i :| 0 <= i < |es| && es[i].Connect?;
    if i < |es| - 1 {
      assert es[..|es| - 1][i].Connect?;
      TokenOnceConnected(es[..|es| - 1]);
    }
  }

  /** At most one socket or timer is alive at every moment of a run if and only if every `connect`
      of the run came when no socket owed its close event. */
  lemma {:induction false} AtMostOneIffDisciplined(es: seq<Event>)
    requires Feasible(es)
    ensures (forall i | 0 <= i <= |es| :: Alive(Run(es[..i])) <= 1) <==> Disciplined(es)
  {
    hide Step, Situation, Enabled;
    assert es[..|es|] == es;
    if es == [] {
    } else {
      var init, e := es[..|es| - 1], es[|es| - 1];
      AtMostOneIffDisciplined(init);
      assert forall i | 0 <= i <= |init| :: init[..i] == es[..i];
      if Disciplined(es) {
        ExactlyOneAlive(es);
      } else if Disciplined(init) {
        StateMeansSituation(init);
        DoubledByConnect(Run(init), e);
      }
    }
  }

  lemma DoubledByConnect(w: World, e: Event)
    requires Numbered(w.host) && Enabled(w, e)
    requires e.Connect? && w.host.unclosed != {}
    ensures Alive(Step(w, e)) >= 2
  {
    var s :| s in w.host.unclosed;
    var two := {s, |w.host.tokens|};
    assert two <= Step(w, e).host.unclosed;
    SubsetSize(two, Step(w, e).host.unclosed);
  }

  lemma SubsetSize<T>(a: set<T>, b: set<T>)
    requires a <= b
    ensures |a| <= |b|
  {
    assert b == a + (b - a);
  }

  /** A run in which `connect` comes before the old socket's close event; that event then counts as
      an unexpected close and brings up a second connection. */
  const DOUBLED_RUN: seq<Event> := [
    Event.Connect("t"), Event.Disconnect, Event.Connect("t"), SocketClosed(0), TimerFired(0),
    SocketOpened(1), SocketOpened(2)
  ]

  /** It ends with two open connections. */
  lemma DoubledRun()
    ensures Feasible(DOUBLED_RUN) && !Disciplined(DOUBLED_RUN)
    ensures var w := Run(DOUBLED_RUN);
            w.host.unclosed == {1, 2} && w.host.mayOpen == {} && w.client.state == Open
  {
    hide Run, Feasible, Disciplined;
    var es := DoubledConnect();
    var all := DoubledEnd(es);
    assert all == DOUBLED_RUN;
    assert all[..3] == es;
    if Disciplined(all) { DisciplinedPrefix(all, 3); }
  }

  lemma DoubledConnect() returns (es: seq<Event>)
    ensures es == [Event.Connect("t"), Event.Disconnect, Event.Connect("t")]
    ensures Feasible(es) && !Disciplined(es)
    ensures Run(es).host == Host(["t", "t"], {0, 1}, {1}, 0, map[])
    ensures !Run(es).client.intentionalDisconnect && HasToken(Run(es).client)
  {
    hide Run, Feasible;
    EmptyRun();
    es := Extend([], Event.Connect("t"));
    assert Run(es).host == Host(["t"], {0}, {0}, 0, map[]) && Run(es).client.socket == Some(0);
    es := Extend(es, Event.Disconnect);
    assert Run(es).host == Host(["t"], {0}, {}, 0, map[]);
    ghost var before := es;
    es := Extend(es, Event.Connect("t"));
    assert es[..|es| - 1] == before;
    assert Run(es).host == Host(["t", "t"], {0, 1}, {1}, 0, map[]);
  }

  lemma DoubledEnd(es: seq<Event>) returns (all: seq<Event>)
    requires Feasible(es) && Run(es).host == Host(["t", "t"], {0, 1}, {1}, 0, map[])
    requires !Run(es).client.intentionalDisconnect && HasToken(Run(es).client)
    ensures all == es + [SocketClosed(0), TimerFired(0), SocketOpened(1), SocketOpened(2)]
    ensures Feasible(all)
    ensures Run(all).host.unclosed == {1, 2} && Run(all).host.mayOpen == {} && Run(all).client.state == Open
  {
    hide Run, Feasible;
    all := Extend(es, SocketClosed(0));
    var h := Run(all).host;
    assert |h.tokens| == 2 && h.unclosed == {1} && h.mayOpen == {1} && h.timers.Keys == {0};
    all := Extend(all, TimerFired(0));
    h := Run(all).host;
    assert h.unclosed == {1, 2} && h.mayOpen == {1, 2};
    all := Extend(all, SocketOpened(1));
    all := Extend(all, SocketOpened(2));
  }

  lemma {:induction false} DisciplinedPrefix(es: seq<Event>, n: nat)
    requires n <= |es| && Disciplined(es)
    ensures Disciplined(es[..n])
  {
    if n < |es| {
      DisciplinedPrefix(es[..|es| - 1], n);
      assert es[..|es| - 1][..n] == es[..n];
    } else {
      assert es[..n] == es;
    }
  }

  lemma EmptyRun()
    ensures Feasible([]) && Run([]) == INITIAL
  {
  }

  lemma Extend(es: seq<Event>, e: Event) returns (es': seq<Event>)
    requires Feasible(es) && Enabled(Run(es), e)
    ensures es' == es + [e] && Feasible(es') && Run(es') == Step(Run(es), e)
  {
    FeasibleAppend(es, e);
    es' := es + [e];
  }

  lemma FeasibleAppend(es: seq<Event>, e: Event)
    requires Feasible(es) && Enabled(Run(es), e)
    ensures Feasible(es + [e]) && Run(es + [e]) == Step(Run(es), e)
  {
    assert (es + [e])[..|es|] == es;
  }

  // ---------------------------------------------------------------------------------------------
  // The fields, read off the events

  /** The token of the last `connect`. */
  function LastToken(es: seq<Event>): Option<string> {
    if es == [] then None
    else if es[|es| - 1].Connect? then Some(es[|es| - 1].token)
    else LastToken(es[..|es| - 1])
  }

  /** The last call of `connect` or `disconnect` was a `disconnect`. */
  predicate Disconnected(es: seq<Event>) {
    es != [] &&
    (es[|es| - 1].Disconnect? || (!es[|es| - 1].Connect? && Disconnected(es[..|es| - 1])))
  }

  /** What the last event other than a timer's made the client report. */
  function Reported(es: seq<Event>): ConnectionState {
    if es == [] then Closed
    else
      var init := es[..|es| - 1];
      match es[|es| - 1]
      case Connect(_) => Connecting
      case Disconnect => Closed
      case SocketOpened(_) => Open
      case SocketClosed(_) => if Disconnected(init) then Closed else Reconnecting
      case TimerFired(_) => Reported(init)
  }

  /** One socket for every `connect` and every timer that fires, with the token of the last
      `connect` up to then. */
  function SocketTokens(es: seq<Event>): seq<string> {
    if es == [] then []
    else
      var (init, e) := (es[..|es| - 1], es[|es| - 1]);
      SocketTokens(init)
      + (if e.Connect? then [e.token]
         else if e.TimerFired? && LastToken(init).Some? then [LastToken(init).value] else [])
  }

  /** The newest socket, unless `disconnect` came after it. */
  function HeldSocket(es: seq<Event>): Option<nat> {
    if es == [] then None
    else
      var (init, e) := (es[..|es| - 1], es[|es| - 1]);
      if e.Disconnect? then None
      else if e.Connect? || (e.TimerFired? && LastToken(init).Some?) then Some(|SocketTokens(init)|)
      else HeldSocket(init)
  }

  /** In every feasible run the token is that of the last `connect`, the reported state is the one of
      the last event that reports one, and closes are expected exactly after a `disconnect`. */
  lemma {:induction false} FieldsFollowEvents(es: seq<Event>)
    requires Feasible(es)
    ensures var c := Run(es).client;
            && c.accessToken == LastToken(es)
            && c.intentionalDisconnect == Disconnected(es)
            && c.state == Reported(es)
    ensures LastToken(es) != Some("")
  {
    if es != [] {
      FieldsFollowEvents(es[..|es| - 1]);
    }
  }

  /** In every feasible run each socket was constructed by a `connect` or a firing timer, with the
      token of the last `connect` up to then, and the client holds the newest socket or, after a
      `disconnect`, none. */
  lemma {:induction false} SocketsFollowEvents(es: seq<Event>)
    requires Feasible(es)
    ensures Run(es).host.tokens == SocketTokens(es)
    ensures Run(es).client.socket == HeldSocket(es)
  {
    if es != [] {
      hide Reported, Disconnected, LastToken, Step;
      var (init, e) := (es[..|es| - 1], es[|es| - 1]);
      SocketsFollowEvents(init);
      FieldsFollowEvents(init);
      NextSocket(Run(init), e);
    }
  }

  lemma NextSocket(w: World, e: Event)
    requires Enabled(w, e) && w.client.accessToken != Some("")
    ensures Step(w, e).host.tokens
            == w.host.tokens + (if e.Connect? then [e.token]
                                else if e.TimerFired? && w.client.accessToken.Some?
                                then [w.client.accessToken.value] else [])
    ensures Step(w, e).client.socket
            == if e.Disconnect? then None
               else if e.Connect? || (e.TimerFired? && w.client.accessToken.Some?) then Some(|w.host.tokens|)
               else w.client.socket
  {
  }

  /** A timer is armed only by a close event, so a `connect` came before it fires. */
  lemma {:induction false} TimersFollowConnect(es: seq<Event>)
    requires Feasible(es)
    ensures Run(es).host.unclosed != {} || Run(es).host.timers != map[] ==> LastToken(es).Some?
  {
    if es != [] {
      TimersFollowConnect(es[..|es| - 1]);
    }
  }

  /** A `disconnect` closed the socket while the client held it. */
  predicate ClosedByClient(es: seq<Event>, s: nat) {
    es != [] &&
    var (init, e) := (es[..|es| - 1], es[|es| - 1]);
    ClosedByClient(init, s) || (e.Disconnect? && HeldSocket(init) == Some(s))
  }

  /** In every feasible run the sockets that owe a close event are the constructed ones that have not
      delivered it, and of those the ones that may open have not opened and were not closed by a
      `disconnect`: nothing else closes a socket, not even another `connect`. */
  lemma {:induction false} SocketsOwe(es: seq<Event>, s: nat)
    requires Feasible(es)
    ensures s in Run(es).host.unclosed <==> s < |SocketTokens(es)| && SocketClosed(s) !in es
    ensures s in Run(es).host.mayOpen <==>
              && s < |SocketTokens(es)| && SocketOpened(s) !in es && SocketClosed(s) !in es
              && !ClosedByClient(es, s)
    ensures SocketOpened(s) in es || SocketClosed(s) in es || ClosedByClient(es, s) ==> s < |SocketTokens(es)|
    ensures HeldSocket(es) == Some(s) ==> s < |SocketTokens(es)|
  {
    if es != [] {
      hide Step, LastToken, Enabled;
      var (init, e) := (es[..|es| - 1], es[|es| - 1]);
      SocketsOwe(init, s);
      SocketsFollowEvents(init);
      SocketsFollowEvents(es);
      FieldsFollowEvents(init);
      NextSocket(Run(init), e);
      NextOwed(Run(init), e, s);
      assert es == init + [e];
    }
  }

  lemma NextOwed(w: World, e: Event, s: nat)
    requires Enabled(w, e)
    ensures s in Step(w, e).host.unclosed <==>
              && (s in w.host.unclosed || (s == |w.host.tokens| && |Step(w, e).host.tokens| > |w.host.tokens|))
              && e != SocketClosed(s)
    ensures s in Step(w, e).host.mayOpen <==>
              && (s in w.host.mayOpen || (s == |w.host.tokens| && |Step(w, e).host.tokens| > |w.host.tokens|))
              && e != SocketClosed(s) && e != SocketOpened(s)
              && !(e.Disconnect? && w.client.socket == Some(s))
    ensures e == SocketClosed(s) ==> s in w.host.unclosed
    ensures e == SocketOpened(s) ==> s in w.host.mayOpen
  {
  }

  /** How many timers the unexpected close events armed. */
  function Armed(es: seq<Event>): nat {
    if es == [] then 0
    else
      var (init, e) := (es[..|es| - 1], es[|es| - 1]);
      Armed(init) + (if e.SocketClosed? && !Disconnected(init) then 1 else 0)
  }

  /** The timer of the last unexpected close, unless `connect` or `disconnect` came after it. */
  function HeldTimer(es: seq<Event>): Option<nat> {
    if es == [] then None
    else
      var (init, e) := (es[..|es| - 1], es[|es| - 1]);
      if e.Connect? || e.Disconnect? then None
      else if e.SocketClosed? && !Disconnected(init) then Some(Armed(init))
      else HeldTimer(init)
  }

  /** `connect` or `disconnect` cleared the timer while the client held it. */
  predicate Cleared(es: seq<Event>, t: nat) {
    es != [] &&
    var (init, e) := (es[..|es| - 1], es[|es| - 1]);
    Cleared(init, t) || ((e.Connect? || e.Disconnect?) && HeldTimer(init) == Some(t))
  }

  /** In every feasible run the pending timers are the armed ones that neither fired nor were cleared
      while the client held them. */
  lemma {:induction false} TimersFollowEvents(es: seq<Event>, t: nat)
    requires Feasible(es)
    ensures Run(es).host.armed == Armed(es) && Run(es).client.reconnectTimer == HeldTimer(es)
    ensures t in Run(es).host.timers <==> t < Armed(es) && TimerFired(t) !in es && !Cleared(es, t)
    ensures TimerFired(t) in es || HeldTimer(es) == Some(t) || Cleared(es, t) ==> t < Armed(es)
  {
    if es != [] {
      hide Step, LastToken, Enabled, Disconnected;
      var (init, e) := (es[..|es| - 1], es[|es| - 1]);
      TimersFollowEvents(init, t);
      FieldsFollowEvents(init);
      NextTimer(Run(init), e, t);
      assert es == init + [e];
    }
  }

  lemma NextTimer(w: World, e: Event, t: nat)
    requires Enabled(w, e)
    ensures var arms := e.SocketClosed? && !w.client.intentionalDisconnect;
            var clears := e.Connect? || e.Disconnect?;
            && Step(w, e).host.armed == w.host.armed + (if arms then 1 else 0)
            && Step(w, e).client.reconnectTimer
               == (if clears then None else if arms then Some(w.host.armed) else w.client.reconnectTimer)
            && (t in Step(w, e).host.timers <==>
                  && (t in w.host.timers || (arms && t == w.host.armed))
                  && e != TimerFired(t) && !(clears && w.client.reconnectTimer == Some(t)))
            && (e == TimerFired(t) ==> t in w.host.timers)
  {
  }

  /** Every `connect` and every firing timer constructs one socket, and nothing else does. */
  lemma EachConstructsOne(es: seq<Event>)
    requires Feasible(es) && es != []
    ensures var (init, e) := (es[..|es| - 1], es[|es| - 1]);
            |Run(es).host.tokens| == |Run(init).host.tokens| + (if e.Connect? || e.TimerFired? then 1 else 0)
  {
    hide Reported, Disconnected, HeldSocket, Step;
    SocketsFollowEvents(es);
    SocketsFollowEvents(es[..|es| - 1]);
    TimersFollowConnect(es[..|es| - 1]);
  }

  // ---------------------------------------------------------------------------------------------
  // After disconnect()

  /** The events of es one after the other, from any world. */
  function RunFrom(w: World, es: seq<Event>): World {
    if es == [] then w else Step(RunFrom(w, es[..|es| - 1]), es[|es| - 1])
  }

  predicate FeasibleFrom(w: World, es: seq<Event>) {
    es == [] ||
    (FeasibleFrom(w, es[..|es| - 1]) && Enabled(RunFrom(w, es[..|es| - 1]), es[|es| - 1]))
  }

  predicate NoConnect(es: seq<Event>) {
    forall i | 0 <= i < |es| :: !es[i].Connect?
  }

  /** From here on, whatever the host delivers and however often `disconnect` is called, nothing is
      constructed and the state stays "closed", until the next `connect`. */
  ghost predicate StaysQuiet(w: World) {
    forall es: seq<Event> | FeasibleFrom(w, es) && NoConnect(es) ::
      && RunFrom(w, es).host.tokens == w.host.tokens
      && RunFrom(w, es).client.state == Closed
  }

  lemma {:induction false} QuietStays(w: World, es: seq<Event>)
    requires Quiet(w) && w.client.intentionalDisconnect
    requires FeasibleFrom(w, es) && NoConnect(es)
    ensures Quiet(RunFrom(w, es)) && RunFrom(w, es).client.intentionalDisconnect
    ensures RunFrom(w, es).host.tokens == w.host.tokens
  {
    if es != [] {
      QuietStays(w, es[..|es| - 1]);
    }
  }

  /** Exactly when a `disconnect` silences the client: when no timer but the held one is pending and
      no socket but its own may still open. */
  lemma DisconnectSilencesIff(w: World)
    requires HasToken(w.client)
    ensures StaysQuiet(Step(w, Event.Disconnect))
            <==> && (forall t <- w.host.timers :: w.client.reconnectTimer == Some(t))
                 && (forall s <- w.host.mayOpen :: w.client.socket == Some(s))
  {
    var q := Step(w, Event.Disconnect);
    if StaysQuiet(q) {
      forall t <- w.host.timers ensures w.client.reconnectTimer == Some(t) {
        if w.client.reconnectTimer != Some(t) { OneEvent(q, TimerFired(t)); }
      }
      forall s <- w.host.mayOpen ensures w.client.socket == Some(s) {
        if w.client.socket != Some(s) { OneEvent(q, SocketOpened(s)); }
      }
    }
    if Quiet(q) {
      forall es: seq<Event> | FeasibleFrom(q, es) && NoConnect(es)
        ensures RunFrom(q, es).host.tokens == q.host.tokens
        ensures RunFrom(q, es).client.state == Closed
      {
        QuietStays(q, es);
      }
    }
  }

  lemma OneEvent(w: World, e: Event)
    requires Enabled(w, e) && !e.Connect? && StaysQuiet(w)
    ensures Step(w, e).host.tokens == w.host.tokens && Step(w, e).client.state == Closed
  {
    assert [e][..0] == [];
    assert FeasibleFrom(w, [e]) && NoConnect([e]);
    assert RunFrom(w, [e]) == Step(w, e);
  }

  /** In every disciplined run `disconnect` silences the client until the next `connect`. */
  lemma {:induction false} SilentAfterDisconnect(es: seq<Event>)
    requires Feasible(es) && Disciplined(es)
    ensures StaysQuiet(Step(Run(es), Event.Disconnect))
  {
    StateMeansSituation(es);
    var w := Run(es);
    if HasToken(w.client) {
      AliveInSituation(w);
      DisconnectSilencesIff(w);
    } else {
      var q := Step(w, Event.Disconnect);
      assert Quiet(q);
      forall rest: seq<Event> | FeasibleFrom(q, rest) && NoConnect(rest)
        ensures RunFrom(q, rest).host.tokens == q.host.tokens
        ensures RunFrom(q, rest).client.state == Closed
      {
        QuietStays(q, rest);
      }
    }
  }

  /** Without the discipline a timer the client has lost track of reconnects after `disconnect`. */
  lemma LostTimerRun()
    ensures var es := [Event.Connect("t"), Event.Connect("t"), SocketClosed(0), SocketClosed(1)];
            Feasible(es) && !StaysQuiet(Step(Run(es), Event.Disconnect))
  {
    hide Run, Feasible, StaysQuiet;
    EmptyRun();
    var es := Extend([], Event.Connect("t"));
    assert Run(es).host == Host(["t"], {0}, {0}, 0, map[]) && !Run(es).client.intentionalDisconnect;
    es := Extend(es, Event.Connect("t"));
    assert Run(es).host == Host(["t", "t"], {0, 1}, {0, 1}, 0, map[]) && !Run(es).client.intentionalDisconnect;
    es := Extend(es, SocketClosed(0));
    assert Run(es).host.unclosed == {1} && Run(es).host.armed == 1 && 0 in Run(es).host.timers;
    es := Extend(es, SocketClosed(1));
    assert es == [Event.Connect("t"), Event.Connect("t"), SocketClosed(0), SocketClosed(1)];
    var w := Run(es);
    assert w.client.reconnectTimer == Some(1) && 0 in w.host.timers;
    DisconnectSilencesIff(w);
  }

  // ---------------------------------------------------------------------------------------------
  // Backoff

  /** Timer firings since the last `connect` or successful open. */
  function FiringsSinceReset(es: seq<Event>): nat {
    if es == [] then 0
    else
      match es[|es| - 1]
      case Connect(_) => 0
      case SocketOpened(_) => 0
      case TimerFired(_) => 1 + FiringsSinceReset(es[..|es| - 1])
      case Disconnect => FiringsSinceReset(es[..|es| - 1])
      case SocketClosed(_) => FiringsSinceReset(es[..|es| - 1])
  }

  /** Truncated binary exponential backoff (section 7.2.3 of RFC 6455). */
  function Backoff(k: nat): nat {
    Min(INITIAL_RECONNECT_DELAY_MS * Pow2(k), MAX_RECONNECT_DELAY_MS)
  }

  /** In every run, disciplined or not, the delay is the backoff of the firings since the last
      reset. */
  lemma {:induction false} DelayIsBackoff(es: seq<Event>)
    ensures Run(es).client.reconnectDelayMs == Backoff(FiringsSinceReset(es))
    ensures Run(es).client.reconnectDelayMs == Min(1000 * Pow2(FiringsSinceReset(es)), 30_000)
  {
    if es != [] {
      DelayIsBackoff(es[..|es| - 1]);
    }
  }

  /** Every unexpected close arms one new timer with that delay; an expected one arms none. */
  lemma {:induction false} CloseArmsBackoff(es: seq<Event>, s: nat)
    requires Feasible(es) && Enabled(Run(es), SocketClosed(s))
    ensures var (w, w') := (Run(es), Run(es + [SocketClosed(s)]));
            if w.client.intentionalDisconnect then w'.host.timers == w.host.timers && w'.client.state == Closed
            else && w'.client.reconnectTimer == Some(w.host.armed)
                 && w'.host.timers == w.host.timers[w.host.armed := Backoff(FiringsSinceReset(es))]
                 && w'.client.state == Reconnecting
  {
    DelayIsBackoff(es);
    FeasibleAppend(es, SocketClosed(s));
  }
}

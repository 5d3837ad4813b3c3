/**
 amqpctl.Client: one connection with one publish channel, reopened on demand, closed once and for all.

 The broker library is a table of every connection and channel ever opened. What the network answers (does the dial
 succeed, can a channel be opened, ...) is a parameter of every operation, and between operations the environment may
 kill any connection or channel.
 */
module AmqpClient {
  import opened Basics

  /** `closed` means this client has called Close on it; `alive`, that the broker has not dropped it. */
  datatype Conn = Conn(alive: bool, closed: bool)

  datatype Role = Publishing | Consuming

  datatype Chan = Chan(conn: nat, role: Role, alive: bool, closed: bool, declared: bool)

  datatype Net = Net(conns: seq<Conn>, chans: seq<Chan>)

  /** The fields of the client, and the network they point into. */
  datatype State = State(net: Net, conn: Option<nat>, pubCh: Option<nat>, closed: bool)

  /** The answers to a dial, to opening a channel and to declaring the exchange on it. */
  datatype Answers = Answers(dial: bool, channel: bool, declare: bool)

  /** What a publish on an open channel returns: nil, an error that means the channel is gone, or another error. */
  datatype Sent = Delivered | Gone | Failed

  /** One publish the client tried: on which channel, and what came back. */
  datatype Attempt = Attempt(chan: nat, sent: Sent)

  /******* The library *******/

  function ConnDown(net: Net, i: nat): bool
    requires i < |net.conns|
  {
    !net.conns[i].alive || net.conns[i].closed
  }

  function ChanDown(net: Net, j: nat): bool
    requires j < |net.chans|
  {
    var ch := net.chans[j];
    !ch.alive || ch.closed || ch.conn >= |net.conns| || ConnDown(net, ch.conn)
  }

  function Dialled(net: Net): Net {
    net.(conns := net.conns + [Conn(true, false)])
  }

  function OpenedOn(net: Net, i: nat, role: Role): Net {
    net.(chans := net.chans + [Chan(i, role, true, false, false)])
  }

  function Declared(net: Net, j: nat): Net
    requires j < |net.chans|
  {
    net.(chans := net.chans[j := net.chans[j].(declared := true)])
  }

  function ConnClosed(net: Net, i: nat): Net
    requires i < |net.conns|
  {
    net.(conns := net.conns[i := net.conns[i].(closed := true)])
  }

  function ChanClosed(net: Net, j: nat): Net
    requires j < |net.chans|
  {
    net.(chans := net.chans[j := net.chans[j].(closed := true)])
  }

  /******* The client's operations on its state *******/

  ghost predicate InRange(s: State) {
    && (s.conn.Some? ==> s.conn.value < |s.net.conns|)
    && (s.pubCh.Some? ==> s.pubCh.value < |s.net.chans|)
  }

  function Connected(s: State, a: Answers): (State, bool) {
    if !a.dial then (s, false) else
    var i := |s.net.conns|;
    var dialled := Dialled(s.net);
    if !a.channel then (s.(net := ConnClosed(dialled, i)), false) else
    var j := |s.net.chans|;
    var grown := OpenedOn(dialled, i, Publishing);
    if !a.declare then (s.(net := ConnClosed(ChanClosed(grown, j), i)), false) else
    (s.(net := Declared(grown, j), conn := Some(i), pubCh := Some(j)), true)
  }

  function PubChDropped(s: State): State
    requires InRange(s)
  {
    if s.pubCh.None? then s else s.(net := ChanClosed(s.net, s.pubCh.value), pubCh := None)
  }

  function Disconnected(s: State): State
    requires InRange(s)
  {
    var s := PubChDropped(s);
    if s.conn.None? then s else s.(net := ConnClosed(s.net, s.conn.value), conn := None)
  }

  function PubChReset(s: State, a: Answers): (State, bool)
    requires InRange(s) && s.conn.Some?
  {
    var s := PubChDropped(s);
    if !a.channel then (Disconnected(s), false) else
    var j := |s.net.chans|;
    var grown := OpenedOn(s.net, s.conn.value, Publishing);
    if !a.declare then (Disconnected(s.(net := ChanClosed(grown, j))), false) else
    (s.(net := Declared(grown, j), pubCh := Some(j)), true)
  }

  function EnsuredConnected(s: State, a: Answers): (State, bool)
    requires InRange(s)
  {
    if s.closed then (s, false)
    else if s.conn.Some? && !ConnDown(s.net, s.conn.value) then
      if s.pubCh.Some? && !ChanDown(s.net, s.pubCh.value) then (s, true) else PubChReset(s, a)
    else Connected(Disconnected(s), a)
  }

  /** Publishing: the new state, the publishes tried, and whether nil is returned. */
  function Published(s: State, a: Answers, first: Sent, again: Answers, second: Sent): (State, seq<Attempt>, bool)
    requires Sound(s)
  {
    SoundInRange(s);
    EnsureSound(s, a);
    var (s1, ready) := EnsuredConnected(s, a);
    if !ready then (s1, [], false) else
    var try1 := Attempt(s1.pubCh.value, first);
    if first.Delivered? then (s1, [try1], true)
    else if first.Failed? then (s1, [try1], false)
    else
      var (s2, reconnected) := Connected(Disconnected(s1), again);
      if !reconnected then (s2, [try1], false)
      else (s2, [try1, Attempt(s2.pubCh.value, second)], second.Delivered?)
  }

  /** A consumer's own channel, on a connection made ready first. */
  function ConsumerOpened(s: State, a: Answers, channel: bool): (State, bool)
    requires Sound(s)
  {
    SoundInRange(s);
    EnsureSound(s, a);
    var (s1, ready) := EnsuredConnected(s, a);
    if !ready || !channel then (s1, false)
    else (s1.(net := OpenedOn(s1.net, s1.conn.value, Consuming)), true)
  }

  /** The consume loop's reconnect. */
  function Reconnected(s: State, a: Answers): State
    requires InRange(s)
  {
    if s.closed then s else Connected(Disconnected(s), a).0
  }

  function Closed(s: State): State
    requires InRange(s)
  {
    Disconnected(s.(closed := true))
  }

  /******* Safety *******/

  /**
   The client holds a publish channel only together with the connection it was opened on, and only once the exchange
   has been declared on it; every other connection it ever dialled, and every other publish channel, it has closed; and
   a closed client holds nothing.
   */
  ghost predicate Sound(s: State) {
    && InRange(s)
    && (s.pubCh.Some? ==>
          var ch := s.net.chans[s.pubCh.value];
          s.conn == Some(ch.conn) && ch.role.Publishing? && ch.declared && !ch.closed)
    && (s.conn.Some? ==> !s.net.conns[s.conn.value].closed)
    && (forall i: nat :: i < |s.net.conns| && s.conn != Some(i) ==> s.net.conns[i].closed)
    && (forall j: nat :: j < |s.net.chans| && s.pubCh != Some(j) && s.net.chans[j].role.Publishing? ==>
          s.net.chans[j].closed)
    && (s.closed ==> s.conn.None?)
  }

  lemma SoundInRange(s: State)
    requires Sound(s)
    ensures InRange(s)
  {
  }

  lemma DisconnectSound(s: State)
    requires Sound(s) || (InRange(s) && s.closed && Sound(s.(closed := false)))
    ensures Sound(Disconnected(s)) && Disconnected(s).conn.None? && Disconnected(s).pubCh.None?
  {
  }

  lemma ConnectSound(s: State, a: Answers)
    requires Sound(s) && s.conn.None? && !s.closed
    ensures Sound(Connected(s, a).0)
    ensures Connected(s, a).1 <==> Connected(s, a).0.pubCh.Some?
    ensures Connected(s, a).1 ==> Connected(s, a).0.pubCh == Some(|s.net.chans|)
    ensures Connected(s, a).1 ==> Connected(s, a).0.conn == Some(|s.net.conns|)
  {
  }

  lemma ResetSound(s: State, a: Answers)
    requires Sound(s) && s.conn.Some?
    ensures Sound(PubChReset(s, a).0)
    ensures PubChReset(s, a).1 <==> PubChReset(s, a).0.pubCh.Some?
  {
  }

  lemma EnsureSound(s: State, a: Answers)
    requires Sound(s)
    ensures InRange(s) && Sound(EnsuredConnected(s, a).0)
    ensures EnsuredConnected(s, a).1 ==> EnsuredConnected(s, a).0.pubCh.Some? && EnsuredConnected(s, a).0.conn.Some?
    ensures EnsuredConnected(s, a).1 ==> !s.closed && !EnsuredConnected(s, a).0.closed
  {
    if !s.closed {
      if s.conn.Some? && !ConnDown(s.net, s.conn.value) {
        ResetSound(s, a);
      } else {
        DisconnectSound(s);
        ConnectSound(Disconnected(s), a);
      }
    }
  }

  /** Everything that can happen to a client, in any order: its own locked sections, and the environment's doing. */
  datatype Event =
    | Publish(a: Answers, first: Sent, again: Answers, second: Sent)
    | OpenConsumer(a: Answers, channel: bool)
    | Reconnect(a: Answers)
    | Close
    | ConnDies(conn: nat)
    | ChanDies(chan: nat)
    | ConsumerCloses(chan: nat)

  function Step(s: State, e: Event): State
    requires Sound(s)
  {
    SoundInRange(s);
    match e
    case Publish(a, first, again, second) => Published(s, a, first, again, second).0
    case OpenConsumer(a, channel) => ConsumerOpened(s, a, channel).0
    case Reconnect(a) => Reconnected(s, a)
    case Close => Closed(s)
    case ConnDies(i) =>
      if i < |s.net.conns| then s.(net := s.net.(conns := s.net.conns[i := s.net.conns[i].(alive := false)])) else s
    case ChanDies(j) =>
      if j < |s.net.chans| then s.(net := s.net.(chans := s.net.chans[j := s.net.chans[j].(alive := false)])) else s
    case ConsumerCloses(j) =>
      if j < |s.net.chans| && s.net.chans[j].role.Consuming? then s.(net := ChanClosed(s.net, j)) else s
  }

  lemma PublishSound(s: State, a: Answers, first: Sent, again: Answers, second: Sent)
    requires Sound(s)
    ensures Sound(Published(s, a, first, again, second).0)
  {
    hide EnsuredConnected, Connected, Disconnected, Sound;
    SoundInRange(s);
    EnsureSound(s, a);
    var (s1, ready) := EnsuredConnected(s, a);
    if ready && first.Gone? {
      DisconnectSound(s1);
      DisconnectKeepsOpen(s1);
      ConnectSound(Disconnected(s1), again);
    }
  }

  lemma DisconnectKeepsOpen(s: State)
    requires InRange(s)
    ensures Disconnected(s).closed == s.closed && Disconnected(s).conn.None?
    ensures |Disconnected(s).net.conns| == |s.net.conns| && |Disconnected(s).net.chans| == |s.net.chans|
  {
  }

  /** Every locked section and every failure of the network keeps the client sound. */
  lemma StepSound(s: State, e: Event)
    requires Sound(s)
    ensures Sound(Step(s, e))
  {
    SoundInRange(s);
    match e
    case Publish(a, first, again, second) => PublishSound(s, a, first, again, second);
    case OpenConsumer(a, _) => EnsureSound(s, a);
    case Reconnect(a) =>
      if !s.closed {
        DisconnectSound(s);
        ConnectSound(Disconnected(s), a);
      }
    case Close => DisconnectSound(s.(closed := true));
    case _ =>
  }

  function Run(s: State, events: seq<Event>): State
    requires Sound(s)
    decreases |events|
  {
    if events == [] then s
    else
      StepSound(s, events[0]);
      Run(Step(s, events[0]), events[1..])
  }

  /** Connection safety over whole runs: whatever the client does and whatever the network does to it. */
  lemma {:induction false} RunSound(s: State, events: seq<Event>)
    requires Sound(s)
    ensures Sound(Run(s, events))
    decreases |events|
  {
    hide Sound, Step;
    if events != [] {
      StepSound(s, events[0]);
      RunSound(Step(s, events[0]), events[1..]);
    }
  }

  /** A closed client stays closed: it holds no handle, and it dials and publishes no more. */
  lemma {:induction false} ClosedForever(s: State, events: seq<Event>)
    requires Sound(s) && s.closed
    ensures var s' := Run(s, events);
      s'.closed && s'.conn.None? && s'.pubCh.None? && |s'.net.conns| == |s.net.conns|
    decreases |events|
  {
    if events != [] {
      StepSound(s, events[0]);
      ClosedStep(s, events[0]);
      ClosedForever(Step(s, events[0]), events[1..]);
    }
  }

  lemma ClosedStep(s: State, e: Event)
    requires Sound(s) && s.closed
    ensures Step(s, e).closed && |Step(s, e).net.conns| == |s.net.conns|
    ensures e.Publish? ==> Published(s, e.a, e.first, e.again, e.second) == (s, [], false)
  {
    SoundInRange(s);
  }

  /** Closing, then anything. */
  lemma NothingAfterClose(s: State, events: seq<Event>)
    requires Sound(s)
    ensures Run(s, [Close] + events).conn.None? && Run(s, [Close] + events).pubCh.None?
    ensures |Run(s, [Close] + events).net.conns| == |s.net.conns|
  {
    SoundInRange(s);
    StepSound(s, Close);
    assert ([Close] + events)[1..] == events;
    ClosedForever(Step(s, Close), events);
  }

  /**
   A publish is tried at most twice, the second time only because the first found its channel gone and then on a
   connection dialled for it, always on a publish channel with the exchange declared; nil is returned exactly when the
   last try succeeded.
   */
  lemma PublishOutcome(s: State, a: Answers, first: Sent, again: Answers, second: Sent)
    requires Sound(s)
    ensures var (s', tries, ok) := Published(s, a, first, again, second);
      && |tries| <= 2
      && (ok <==> tries != [] && tries[|tries| - 1].sent.Delivered?)
      && (|tries| == 2 ==> tries[0].sent.Gone?)
      && (forall t :: t in tries ==>
            t.chan < |s'.net.chans| && s'.net.chans[t.chan].role.Publishing? && s'.net.chans[t.chan].declared)
      && (|tries| == 2 ==> s'.pubCh == Some(tries[1].chan) && s'.net.chans[tries[1].chan].conn >= |s.net.conns|)
  {
    SoundInRange(s);
    EnsureSound(s, a);
    EnsureGrows(s, a);
    var (s1, ready) := EnsuredConnected(s, a);
    hide EnsuredConnected;
    if ready && first.Gone? {
      DisconnectKeeps(s1);
      DisconnectSound(s1);
      ConnectSound(Disconnected(s1), again);
      ConnectKeeps(Disconnected(s1), again);
    }
  }

  /** Nothing forgets which channels are publish channels, nor that the exchange was declared on one. */
  ghost predicate Grows(net: Net, net': Net) {
    && |net.conns| <= |net'.conns| && |net.chans| <= |net'.chans|
    && forall j: nat :: j < |net.chans| ==>
         && net'.chans[j].conn == net.chans[j].conn && net'.chans[j].role == net.chans[j].role
         && (net.chans[j].declared ==> net'.chans[j].declared)
  }

  lemma DisconnectKeeps(s: State)
    requires InRange(s)
    ensures Grows(s.net, Disconnected(s).net)
  {
  }

  lemma ConnectKeeps(s: State, a: Answers)
    ensures Grows(s.net, Connected(s, a).0.net)
    ensures Connected(s, a).1 ==> var s' := Connected(s, a).0;
      s'.net.chans[|s.net.chans|].declared && s'.net.chans[|s.net.chans|].conn == |s.net.conns|
  {
  }

  lemma EnsureGrows(s: State, a: Answers)
    requires Sound(s)
    ensures InRange(s) && |s.net.conns| <= |EnsuredConnected(s, a).0.net.conns|
  {
  }

  /** A dropped connection costs nothing but a retry: while the network answers, publishing on an open client works. */
  lemma PublishRecovers(s: State, a: Answers, first: Sent, again: Answers, second: Sent)
    requires Sound(s) && !s.closed
    requires a == Answers(true, true, true) && again == Answers(true, true, true)
    requires first.Delivered? || (first.Gone? && second.Delivered?)
    ensures Published(s, a, first, again, second).2
  {
    SoundInRange(s);
    EnsureSound(s, a);
  }

  /******* Which connections are used *******/

  /** The client holds a live connection with a live publish channel on it, with the exchange declared. */
  ghost predicate Ready(s: State) {
    && s.conn.Some? && s.pubCh.Some?
    && s.conn.value < |s.net.conns| && s.pubCh.value < |s.net.chans|
    && s.net.conns[s.conn.value].alive && !s.net.conns[s.conn.value].closed
    && var ch := s.net.chans[s.pubCh.value];
       ch.alive && !ch.closed && ch.conn == s.conn.value && ch.declared && ch.role.Publishing?
  }

  /**
   What being ready means: a live publish channel on a live connection. What was so before is left alone; a dead channel
   alone is replaced on the same connection; a dead connection is replaced by one dialled for it.
   */
  lemma ReadyIsAlive(s: State, a: Answers)
    requires Sound(s)
    ensures InRange(s)
    ensures EnsuredConnected(s, a).1 ==> Ready(EnsuredConnected(s, a).0)
    ensures var (s', ok) := EnsuredConnected(s, a);
      && (!s.closed && Ready(s) ==> ok && s' == s)
      && (ok && !Ready(s) ==> s'.pubCh.value >= |s.net.chans|)
      && (ok && s.conn.Some? && s.net.conns[s.conn.value].alive ==> s'.conn == s.conn)
      && (ok && (s.conn.None? || !s.net.conns[s.conn.value].alive) ==> s'.conn.value >= |s.net.conns|)
  {
    SoundInRange(s);
    EnsureSound(s, a);
  }

  /** Nothing but a closed client, or a dial, channel or exchange that fails, keeps it from being ready. */
  lemma ReadyUnless(s: State, a: Answers)
    requires Sound(s)
    ensures InRange(s)
    ensures !s.closed && a == Answers(true, true, true) ==> EnsuredConnected(s, a).1
    ensures s.closed ==> EnsuredConnected(s, a) == (s, false)
  {
    SoundInRange(s);
  }

  /** A reconnect leaves an open client with a live connection dialled for it, if the network answers, or with none. */
  lemma ReconnectOutcome(s: State, a: Answers)
    requires Sound(s) && !s.closed
    ensures InRange(s)
    ensures var s' := Reconnected(s, a);
      && (a == Answers(true, true, true) ==> Ready(s') && s'.conn.value >= |s.net.conns|)
      && (a != Answers(true, true, true) ==> s'.conn.None? && s'.pubCh.None?)
      && (s.conn.Some? ==> s'.net.conns[s.conn.value].closed)
  {
    SoundInRange(s);
  }

  /** Publishing tries first on a channel that is alive at that moment, on a live connection: one held before, if both
   were alive, else one opened for it. */
  lemma FirstTryIsAlive(s: State, a: Answers, first: Sent, again: Answers, second: Sent)
    requires Sound(s)
    ensures InRange(s)
    ensures var tries := Published(s, a, first, again, second).1; var ready := EnsuredConnected(s, a).0;
      tries != [] ==> Ready(ready) && ready.pubCh == Some(tries[0].chan) && tries[0].sent == first
    ensures var tries := Published(s, a, first, again, second).1;
      tries != [] && tries[0].chan < |s.net.chans| ==> Ready(s) && s.pubCh == Some(tries[0].chan)
    ensures !s.closed && Ready(s) ==> Published(s, a, first, again, second).1 != []
    ensures |Published(s, a, first, again, second).1| == 2 ==>
      var (s', tries, ok) := Published(s, a, first, again, second);
      Ready(s') && s'.pubCh == Some(tries[1].chan) && tries[1].sent == second && s'.conn.value >= |s.net.conns|
  {
    SoundInRange(s);
    EnsureSound(s, a);
    ReadyIsAlive(s, a);
    EnsureGrows(s, a);
    hide EnsuredConnected, Ready;
    var s1 := EnsuredConnected(s, a).0;
    if EnsuredConnected(s, a).1 && first.Gone? {
      AgainIsAlive(s1, again);
    }
  }

  lemma LastTryHeld(s: State, a: Answers, first: Sent, again: Answers, second: Sent)
    requires Sound(s)
    ensures InRange(s)
    ensures var (s', tries, ok) := Published(s, a, first, again, second);
      && (ok ==> tries != [] && Ready(s') && s'.pubCh == Some(tries[|tries| - 1].chan))
      && (EnsuredConnected(s, a).1 ==> tries != [])
  {
    SoundInRange(s);
    EnsureSound(s, a);
    ReadyIsAlive(s, a);
    hide EnsuredConnected, Ready;
    if EnsuredConnected(s, a).1 && first.Gone? {
      AgainIsAlive(EnsuredConnected(s, a).0, again);
    }
  }

  lemma AgainIsAlive(s: State, a: Answers)
    requires InRange(s)
    ensures var (s', ok) := Connected(Disconnected(s), a);
      ok ==> Ready(s') && s'.conn.value >= |s.net.conns|
  {
  }

  /** A consumer's channel is opened on a live connection: the one held, if it is alive, else one dialled for it. */
  lemma ConsumerIsAlive(s: State, a: Answers, channel: bool)
    requires Sound(s)
    ensures var (s', ok) := ConsumerOpened(s, a, channel);
      ok ==>
        && s'.net.chans != [] && s'.conn.Some? && s'.conn.value < |s'.net.conns|
        && s'.net.conns[s'.conn.value].alive && !s'.net.conns[s'.conn.value].closed
        && s'.net.chans[|s'.net.chans| - 1] == Chan(s'.conn.value, Consuming, true, false, false)
        && (s'.conn.value < |s.net.conns| ==> s.conn == s'.conn && s.net.conns[s.conn.value].alive)
  {
    SoundInRange(s);
    EnsureSound(s, a);
    ReadyIsAlive(s, a);
    hide EnsuredConnected;
  }

  /******* Consuming *******/

  /** A delivery, what its handler returns, and whether acknowledging it fails. */
  datatype Delivery = Delivery(empty: bool, handlerOk: bool, ackFails: bool)

  datatype Settlement = Ack(delivery: nat) | Nack(delivery: nat)

  datatype SessionError = NoChannel | NoQueue | AckFailed | ContextDone | ChannelClosed

  /** Some acknowledgement fails; the first one to do so ends the session. */
  ghost predicate FirstRefused(deliveries: seq<Delivery>, n: nat) {
    && n < |deliveries| && !deliveries[n].empty && deliveries[n].handlerOk && deliveries[n].ackFails
    && forall k :: 0 <= k < n ==> deliveries[k].empty || !deliveries[k].handlerOk || !deliveries[k].ackFails
  }

  /** How a session over these deliveries ends: each delivery taken is settled, and a refused acknowledgement is the
   last thing that happens, or else all are taken. */
  ghost predicate SessionRight(
    deliveries: seq<Delivery>, contextDone: bool, settled: seq<Settlement>, err: SessionError) {
    && |settled| <= |deliveries|
    && (forall k :: 0 <= k < |settled| ==>
          settled[k] == if !deliveries[k].empty && deliveries[k].handlerOk then Ack(k) else Nack(k))
    && (err.AckFailed? ==> settled != [] && FirstRefused(deliveries, |settled| - 1))
    && (!err.AckFailed? ==>
          && |settled| == |deliveries| && (forall n: nat :: !FirstRefused(deliveries, n))
          && err == if contextDone then ContextDone else ChannelClosed)
  }

  /**
   One consumer session over the deliveries that arrive before its channel closes. Each delivery taken is settled once,
   in order: acknowledged exactly when it has a body and its handler returned nil, else rejected.
   */
  method ConsumeDeliveries(deliveries: seq<Delivery>, contextDone: bool)
    returns (settled: seq<Settlement>, err: SessionError)
    ensures SessionRight(deliveries, contextDone, settled, err)
    ensures !err.NoChannel? && !err.NoQueue?
  {
    settled := [];
    for i := 0 to |deliveries|
      invariant |settled| == i
      invariant forall k :: 0 <= k < i ==>
        settled[k] == if !deliveries[k].empty && deliveries[k].handlerOk then Ack(k) else Nack(k)
      invariant forall k :: 0 <= k < i ==>
        deliveries[k].empty || !deliveries[k].handlerOk || !deliveries[k].ackFails
    {
      var d := deliveries[i];
      if d.empty {
        settled := settled + [Nack(i)];
        continue;
      }
      if !d.handlerOk {
        settled := settled + [Nack(i)];
        continue;
      }
      settled := settled + [Ack(i)];
      if d.ackFails {
        return settled, AckFailed;
      }
    }
    err := if contextDone then ContextDone else ChannelClosed;
  }

  /** One turn of the consume loop: the session, and whether the context ends during it or during the pause after it. */
  datatype Round = Round(
    a: Answers, channel: bool, queue: bool, deliveries: seq<Delivery>, doneInSession: bool, doneInPause: bool,
    reconnect: Answers)

  /** What one session came to. */
  datatype Session = Session(settled: seq<Settlement>, err: SessionError)

  /** The session of a turn, on a client that is closed or not. */
  ghost predicate SessionOf(r: Round, closed: bool, x: Session) {
    && (x.err.NoChannel? ==> x.settled == [] && (closed || r.a != Answers(true, true, true) || !r.channel))
    && (!x.err.NoChannel? ==> !closed && r.channel && (x.err.NoQueue? <==> !r.queue))
    && (x.err.NoQueue? ==> x.settled == [])
    && (!x.err.NoChannel? && !x.err.NoQueue? ==> SessionRight(r.deliveries, r.doneInSession, x.settled, x.err))
  }

  datatype LoopEnd = StillRunning | Cancelled | ReturnedNil

  /** The client's state after one session: connected if need be, its consumer channel opened and closed again. */
  function SessionState(s: State, r: Round): State
    requires Sound(s)
  {
    var (after, ok) := ConsumerOpened(s, r.a, r.channel);
    if ok && after.net.chans != [] then after.(net := ChanClosed(after.net, |after.net.chans| - 1)) else after
  }

  /** A new consumer channel is the last one opened. */
  lemma OpenedLast(s: State, a: Answers, channel: bool)
    requires Sound(s)
    ensures var (s', ok) := ConsumerOpened(s, a, channel);
      ok ==> s'.net.chans != [] && s'.net.chans[|s'.net.chans| - 1].role.Consuming?
  {
    hide EnsuredConnected;
    SoundInRange(s);
    EnsureSound(s, a);
  }

  lemma SessionSound(s: State, r: Round)
    requires Sound(s)
    ensures Sound(SessionState(s, r))
  {
    hide ConsumerOpened;
    StepSound(s, OpenConsumer(r.a, r.channel));
    OpenedLast(s, r.a, r.channel);
    var (s', ok) := ConsumerOpened(s, r.a, r.channel);
    if ok {
      StepSound(s', ConsumerCloses(|s'.net.chans| - 1));
    }
  }

  lemma ReconnectSound(s: State, a: Answers)
    requires Sound(s)
    ensures InRange(s) && Sound(Reconnected(s, a))
  {
    SoundInRange(s);
    StepSound(s, Event.Reconnect(a));
  }

  /** A session leaves the client closed or open as it was. */
  lemma StaysOpen(s: State, r: Round)
    requires Sound(s)
    ensures SessionState(s, r).closed == s.closed
  {
    SoundInRange(s);
  }

  /** An open client gets its consumer channel unless something fails; a closed one gets none. */
  lemma OpensUnless(s: State, a: Answers, channel: bool)
    requires Sound(s)
    ensures ConsumerOpened(s, a, channel).1 ==> !s.closed && channel
    ensures !s.closed && a == Answers(true, true, true) && channel ==> ConsumerOpened(s, a, channel).1
  {
    SoundInRange(s);
    EnsureSound(s, a);
    ReadyUnless(s, a);
  }

  /** The state after the turns of the loop, up to the one in which the context ends. */
  function AfterRounds(s: State, rounds: seq<Round>): State
    requires Sound(s)
    decreases |rounds|
  {
    if rounds == [] then s
    else
      SessionSound(s, rounds[0]);
      var s1 := SessionState(s, rounds[0]);
      if rounds[0].doneInSession || rounds[0].doneInPause then s1
      else
        ReconnectSound(s1, rounds[0].reconnect);
        AfterRounds(Reconnected(s1, rounds[0].reconnect), rounds[1..])
  }

  lemma NoRounds(s: State, rounds: seq<Round>)
    requires Sound(s) && rounds == []
    ensures AfterRounds(s, rounds) == s
  {
  }

  lemma RoundStep(s: State, rounds: seq<Round>, i: nat)
    requires Sound(s) && i < |rounds|
    ensures var s1 := SessionState(s, rounds[i]);
      Sound(s1) && InRange(s1) && Sound(Reconnected(s1, rounds[i].reconnect)) &&
      AfterRounds(s, rounds[i..]) ==
        if rounds[i].doneInSession || rounds[i].doneInPause then s1
        else AfterRounds(Reconnected(s1, rounds[i].reconnect), rounds[i + 1..])
  {
    hide Sound, SessionState, Reconnected;
    SessionSound(s, rounds[i]);
    ReconnectSound(SessionState(s, rounds[i]), rounds[i].reconnect);
    assert rounds[i..][1..] == rounds[i + 1..];
  }

  lemma ClosedStays(s: State, a: Answers)
    requires Sound(s) && s.closed
    ensures InRange(s) && Reconnected(s, a) == s
  {
  }

  /** Every consumer channel open in `s'` was open in `s`. */
  ghost predicate NoNewConsumer(s: State, s': State) {
    forall j: nat :: j < |s'.net.chans| && s'.net.chans[j].role.Consuming? && !s'.net.chans[j].closed ==>
      j < |s.net.chans| && s.net.chans[j].role.Consuming? && !s.net.chans[j].closed
  }

  /** The consumer loop leaks nothing: whatever happens in it, every channel it opened it has also closed, and a closed
   client is left as it is. */
  lemma {:induction false} LoopLeaksNothing(s: State, rounds: seq<Round>)
    requires Sound(s)
    ensures var s' := AfterRounds(s, rounds);
      Sound(s') && (s.closed ==> s' == s) && NoNewConsumer(s, s')
    decreases |rounds|
  {
    hide Sound, SessionState, Reconnected;
    if rounds != [] {
      var s1 := SessionState(s, rounds[0]);
      RoundStep(s, rounds, 0);
      assert rounds[0..] == rounds;
      SessionOpens(s, rounds[0]);
      if !rounds[0].doneInSession && !rounds[0].doneInPause {
        ReconnectOpens(s1, rounds[0].reconnect);
        LoopLeaksNothing(Reconnected(s1, rounds[0].reconnect), rounds[1..]);
      }
    }
  }

  lemma EnsureOpens(s: State, a: Answers)
    requires Sound(s)
    ensures InRange(s) && NoNewConsumer(s, EnsuredConnected(s, a).0)
  {
  }

  lemma SessionOpens(s: State, r: Round)
    requires Sound(s)
    ensures NoNewConsumer(s, SessionState(s, r))
    ensures s.closed ==> SessionState(s, r) == s
  {
    hide EnsuredConnected;
    SoundInRange(s);
    EnsureSound(s, r.a);
    EnsureOpens(s, r.a);
    if s.closed {
      ClosedUntouched(s, r.a);
    }
  }

  lemma ClosedUntouched(s: State, a: Answers)
    requires Sound(s) && s.closed
    ensures InRange(s) && EnsuredConnected(s, a) == (s, false)
  {
  }

  lemma ReconnectOpens(s: State, a: Answers)
    requires Sound(s)
    ensures InRange(s) && NoNewConsumer(s, Reconnected(s, a))
    ensures s.closed ==> Reconnected(s, a) == s
  {
  }

  /******* The client *******/

  class Client {
    var net: Net
    var conn: Option<nat>
    var pubCh: Option<nat>
    var closed: bool

    ghost function View(): State
      reads this
    {
      State(net, conn, pubCh, closed)
    }

    /** Connect: a new client holds a connection, or there is no client at all. */
    constructor (a: Answers)
      ensures Sound(View()) && !closed
      ensures conn.Some? <==> a == Answers(true, true, true)
    {
      net, conn, pubCh, closed := Net([], []), None, None, false;
      new;
      var _ := ConnectLocked(a);
    }

    method ConnectLocked(a: Answers) returns (ok: bool)
      requires conn.None? && pubCh.None?
      modifies this
      ensures (View(), ok) == Connected(old(View()), a)
    {
      if !a.dial {
        return false;
      }
      var i := |net.conns|;
      net := Dialled(net);
      if !a.channel {
        net := ConnClosed(net, i);
        return false;
      }
      var j := |net.chans|;
      net := OpenedOn(net, i, Publishing);
      if !a.declare {
        net := ChanClosed(net, j);
        net := ConnClosed(net, i);
        return false;
      }
      net := Declared(net, j);
      conn := Some(i);
      pubCh := Some(j);
      ok := true;
    }

    method CloseConnLocked()
      requires InRange(View())
      modifies this
      ensures View() == Disconnected(old(View()))
    {
      if pubCh.Some? {
        net := ChanClosed(net, pubCh.value);
        pubCh := None;
      }
      if conn.Some? {
        net := ConnClosed(net, conn.value);
        conn := None;
      }
    }

    method ResetPubChLocked(a: Answers) returns (ok: bool)
      requires InRange(View()) && conn.Some?
      modifies this
      ensures (View(), ok) == PubChReset(old(View()), a)
    {
      if pubCh.Some? {
        net := ChanClosed(net, pubCh.value);
        pubCh := None;
      }
      if !a.channel {
        CloseConnLocked();
        return false;
      }
      var j := |net.chans|;
      net := OpenedOn(net, conn.value, Publishing);
      if !a.declare {
        net := ChanClosed(net, j);
        CloseConnLocked();
        return false;
      }
      net := Declared(net, j);
      pubCh := Some(j);
      ok := true;
    }

    method EnsureConnectedLocked(a: Answers) returns (ok: bool)
      requires Sound(View())
      modifies this
      ensures Sound(View()) && (View(), ok) == EnsuredConnected(old(View()), a)
      ensures ok ==> Ready(View())
      ensures !old(closed) && a == Answers(true, true, true) ==> ok
      ensures old(Ready(View())) && !old(closed) ==> ok && View() == old(View())
    {
      EnsureSound(View(), a);
      ReadyIsAlive(View(), a);
      ReadyUnless(View(), a);
      if closed {
        return false;
      }
      if conn.Some? && !ConnDown(net, conn.value) {
        if pubCh.Some? && !ChanDown(net, pubCh.value) {
          return true;
        }
        ok := ResetPubChLocked(a);
        return;
      }
      CloseConnLocked();
      ok := ConnectLocked(a);
    }

    /** Publishes one message; `tries` records the publishes made on the wire. */
    method PublishLocked(a: Answers, first: Sent, again: Answers, second: Sent) returns (ok: bool, tries: seq<Attempt>)
      requires Sound(View())
      modifies this
      ensures Sound(View()) && (View(), tries, ok) == Published(old(View()), a, first, again, second)
      ensures tries != [] && tries[0].chan < |old(net).chans| ==>
        old(Ready(View())) && old(pubCh) == Some(tries[0].chan)
      ensures !old(closed) && a == Answers(true, true, true) ==> tries != []
      ensures ok ==> Ready(View()) && pubCh == Some(tries[|tries| - 1].chan)
    {
      FirstTryIsAlive(View(), a, first, again, second);
      ReadyUnless(View(), a);
      LastTryHeld(View(), a, first, again, second);
      hide EnsuredConnected, Connected, Disconnected, Ready;
      PublishSound(View(), a, first, again, second);
      tries := [];
      var ready := EnsureConnectedLocked(a);
      if !ready {
        return false, tries;
      }
      tries := [Attempt(pubCh.value, first)];
      if first.Delivered? {
        return true, tries;
      }
      if first.Failed? {
        return false, tries;
      }
      DisconnectSound(View());
      DisconnectKeepsOpen(View());
      ghost var torn := Disconnected(View());
      CloseConnLocked();
      ConnectSound(torn, again);
      var reconnected := ConnectLocked(again);
      if !reconnected {
        return false, tries;
      }
      assert tries + [Attempt(pubCh.value, second)] == [tries[0], Attempt(pubCh.value, second)];
      tries := tries + [Attempt(pubCh.value, second)];
      ok := second.Delivered?;
    }

    method OpenChannel(a: Answers, channel: bool) returns (ch: Option<nat>)
      requires Sound(View())
      modifies this
      ensures Sound(View()) && (View(), ch.Some?) == ConsumerOpened(old(View()), a, channel)
      ensures ch.Some? ==> ch.value == |net.chans| - 1 && net.chans[ch.value].role.Consuming? && !old(closed)
      ensures ch.Some? ==>
        var i := net.chans[ch.value].conn;
        i < |net.conns| && net.conns[i].alive && !net.conns[i].closed && conn == Some(i)
    {
      ConsumerIsAlive(View(), a, channel);
      StepSound(View(), OpenConsumer(a, channel));
      EnsureSound(View(), a);
      var ready := EnsureConnectedLocked(a);
      if !ready || !channel {
        return None;
      }
      ch := Some(|net.chans|);
      net := OpenedOn(net, conn.value, Consuming);
    }

    /** One consumer session, which returns nil (None) or an error: never nil. Its own channel is closed at the end. */
    method ConsumeJSONOnce(r: Round) returns (settled: seq<Settlement>, err: Option<SessionError>)
      requires Sound(View())
      modifies this
      ensures Sound(View()) && View() == SessionState(old(View()), r)
      ensures err.Some?
      ensures var opens := ConsumerOpened(old(View()), r.a, r.channel).1;
        if !opens then settled == [] && err.value.NoChannel?
        else if !r.queue then settled == [] && err.value.NoQueue?
        else SessionRight(r.deliveries, r.doneInSession, settled, err.value)
      ensures SessionOf(r, old(closed), Session(settled, err.value))
    {
      OpensUnless(View(), r.a, r.channel);
      hide ConsumerOpened, SessionRight, Ready, Sound;
      SessionSound(View(), r);
      OpenedLast(View(), r.a, r.channel);
      var ch := OpenChannel(r.a, r.channel);
      if ch.None? {
        return [], Some(NoChannel);
      }
      var ended: SessionError;
      settled, ended := RunSession(ch.value, r);
      err := Some(ended);
    }

    /** The session on a channel that is open; the channel is closed at the end. */
    method RunSession(ch: nat, r: Round) returns (settled: seq<Settlement>, err: SessionError)
      requires ch < |net.chans|
      modifies this`net
      ensures View() == old(View()).(net := ChanClosed(old(net), ch))
      ensures !err.NoChannel? && (err.NoQueue? <==> !r.queue)
      ensures if r.queue then SessionRight(r.deliveries, r.doneInSession, settled, err) else settled == []
    {
      hide SessionRight;
      if r.queue {
        settled, err := ConsumeDeliveries(r.deliveries, r.doneInSession);
      } else {
        settled, err := [], NoQueue;
      }
      net := ChanClosed(net, ch);
    }

    /** Runs sessions until the context is done, reconnecting in between; nothing else makes it return. */
    method ConsumeLoop(rounds: seq<Round>) returns (end: LoopEnd, sessions: seq<Session>)
      requires Sound(View())
      modifies this
      ensures Sound(View()) && View() == AfterRounds(old(View()), rounds)
      ensures !end.ReturnedNil?
      ensures end.Cancelled? <==> exists r :: r in rounds && (r.doneInSession || r.doneInPause)
      ensures |sessions| <= |rounds| && (end.StillRunning? ==> |sessions| == |rounds|)
      ensures end.Cancelled? ==>
        sessions != [] && (rounds[|sessions| - 1].doneInSession || rounds[|sessions| - 1].doneInPause)
      ensures forall k :: 0 <= k < |sessions| ==> SessionOf(rounds[k], old(closed), sessions[k])
      ensures forall k :: 0 <= k < |sessions| - 1 ==> !rounds[k].doneInSession && !rounds[k].doneInPause
    {
      hide Sound, SessionState, Reconnected, AfterRounds, SessionOf, Ready;
      ghost var whole := AfterRounds(View(), rounds);
      assert rounds[0..] == rounds;
      sessions := [];
      for i := 0 to |rounds|
        invariant Sound(View()) && AfterRounds(View(), rounds[i..]) == whole
        invariant closed == old(closed)
        invariant forall k :: 0 <= k < i ==> !rounds[k].doneInSession && !rounds[k].doneInPause
        invariant |sessions| == i
        invariant forall k :: 0 <= k < i ==> SessionOf(rounds[k], closed, sessions[k])
      {
        RoundStep(View(), rounds, i);
        StaysOpen(View(), rounds[i]);
        var settled, err := ConsumeJSONOnce(rounds[i]);
        sessions := sessions + [Session(settled, if err.Some? then err.value else ContextDone)];
        if rounds[i].doneInSession {
          return Cancelled, sessions;
        }
        if err.None? {
          return ReturnedNil, sessions;
        }
        if rounds[i].doneInPause {
          return Cancelled, sessions;
        }
        if !closed {
          Reconnect(rounds[i].reconnect);
        } else {
          ClosedStays(View(), rounds[i].reconnect);
        }
      }
      NoRounds(View(), rounds[|rounds|..]);
      end := StillRunning;
    }

    method Reconnect(a: Answers)
      requires Sound(View()) && !closed
      modifies this
      ensures Sound(View()) && View() == Reconnected(old(View()), a) && !closed
      ensures if a == Answers(true, true, true) then Ready(View()) else conn.None? && pubCh.None?
    {
      ReconnectOutcome(View(), a);
      hide Ready;
      DisconnectSound(View());
      DisconnectKeepsOpen(View());
      ConnectSound(Disconnected(View()), a);
      CloseConnLocked();
      var _ := ConnectLocked(a);
    }

    method Shutdown()
      requires Sound(View())
      modifies this
      ensures Sound(View()) && View() == Closed(old(View()))
      ensures closed && conn.None? && pubCh.None?
    {
      StepSound(View(), Close);
      closed := true;
      CloseConnLocked();
    }
  }
}

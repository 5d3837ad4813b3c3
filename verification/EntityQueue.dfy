/**
 The broker queue, the consuming client and the sink as one system of steps: messages are delivered in order, settled
 in order, and put back in order when the channel is lost, at whatever point that happens. A handler may fail on a
 message for any reason, and the message is then dropped.

 Messages are known by their position in the stream.
 */
module EntityQueue {
  import opened Basics
  import opened MySqlSink
  import opened Replay
  import opened FaultyReplay

  /** What becomes of an acknowledgement (or rejection) the client sends: the broker processes it; the channel dies
   first although the call returned nil; or the call itself returns an error. */
  datatype Settlement = Reaches | Vanishes | Refused

  datatype Step =
    | Publish(body: Body)
    | Open
    | Deliver
    | Handle(settlement: Settlement)
    | Fail(left: Database, settlement: Settlement)
    | Crash(left: Database)
    | Lose

  /**
   `inbox` holds the delivered messages the client has not taken yet; `lost` means no settlement gets through any more
   on this channel; `mark` is the first message no handler has started on. `returned` are the messages whose latest
   handling returned nil, `stored` those whose latest handling did all of its work, reported or not; `effects` lists the
   handlings that did, by message, in order. `failed` are the messages on which a handler ever returned an error with
   its work not all done, or died with unwanted columns added.
   */
  datatype System = System(
    published: seq<Body>, queue: seq<nat>, unsettled: seq<nat>, inbox: seq<nat>, open: bool, lost: bool,
    acked: seq<nat>, dropped: seq<nat>, mark: nat, returned: set<nat>, stored: set<nat>, effects: seq<nat>,
    failed: set<nat>, db: Database)

  function Start(init: Database): System {
    System([], [], [], [], false, false, [], [], 0, {}, {}, [], {}, init)
  }

  /** Losing the channel puts every unsettled message back at the front, in order. */
  function Requeued(s: System): System {
    s.(queue := s.unsettled + s.queue, unsettled := [], inbox := [], open := false, lost := false)
  }

  /** The client can take a delivery. */
  predicate Takes(s: System) {
    s.open && s.inbox != [] && s.inbox[0] < |s.published|
  }

  /** A message that the handler accepts, or refuses before any statement, can be handled that way; where statements
   are sent, it can also fail. */
  ghost predicate Enabled(s: System, step: Step) {
    match step
    case Publish(_) => true
    case Open => !s.open
    case Deliver => s.open && s.queue != []
    case Handle(settlement) =>
      && Takes(s) && (settlement.Reaches? ==> !s.lost)
      && (HandlerOk(s.published[s.inbox[0]]) || !Tried(s.published[s.inbox[0]]))
    case Fail(left, settlement) =>
      && Takes(s) && (settlement.Reaches? ==> !s.lost)
      && Tried(s.published[s.inbox[0]]) && Failure(s.db, s.published[s.inbox[0]], left)
    case Crash(left) => Takes(s) && Failure(s.db, s.published[s.inbox[0]], left)
    case Lose => s.open
  }

  function With(i: nat, some: set<nat>, now: bool): set<nat> {
    if now then some + {i} else some - {i}
  }

  /** The next delivery has been worked on, which left `left`; `ok` says whether the handler returned nil. */
  ghost function Worked(s: System, ok: bool, left: Database, harmless: bool): System
    requires Takes(s)
  {
    var i := s.inbox[0];
    var took := Took(s.db, s.published[i], left);
    s.(
      db := left, mark := Max(s.mark, i + 1),
      returned := With(i, s.returned, ok), stored := With(i, s.stored, took),
      effects := if took then s.effects + [i] else s.effects,
      failed := if harmless then s.failed else s.failed + {i})
  }

  /** The client takes the next delivery, runs the handler and settles: an ack when the handler returned nil, else a
   nack that drops the message. A refused ack ends the session; a refused nack does not. */
  ghost function Finished(s: System, ok: bool, left: Database, settlement: Settlement): System
    requires Takes(s)
  {
    var i := s.inbox[0];
    var after := Worked(s, ok, left, left == Effect(s.db, s.published[i])).(inbox := s.inbox[1..]);
    match settlement
    case Reaches =>
      var settled := after.(unsettled := Filter(j => j != i, s.unsettled));
      if ok then settled.(acked := s.acked + [i]) else settled.(dropped := s.dropped + [i])
    case Vanishes => after.(lost := true)
    case Refused => if ok then Requeued(after) else after.(lost := true)
  }

  ghost function Next(s: System, step: Step): System
    requires Enabled(s, step)
  {
    match step
    case Publish(body) => s.(published := s.published + [body], queue := s.queue + [|s.published|])
    case Open => s.(open := true)
    case Deliver =>
      s.(queue := s.queue[1..], unsettled := s.unsettled + [s.queue[0]], inbox := s.inbox + [s.queue[0]])
    case Handle(settlement) =>
      var body := s.published[s.inbox[0]];
      Finished(s, HandlerOk(body), Effect(s.db, body), settlement)
    case Fail(left, settlement) => Finished(s, false, left, settlement)
    case Crash(left) => Requeued(Worked(s, false, left, HandlerOk(s.published[s.inbox[0]]) || left == s.db))
    case Lose => Requeued(s)
  }

  /** The state after a run, if every step of it was possible. */
  ghost function After(init: Database, run: seq<Step>): Option<System> {
    if run == [] then Some(Start(init))
    else
      match After(init, run[..|run| - 1])
      case None => None
      case Some(s) => if Enabled(s, run[|run| - 1]) then Some(Next(s, run[|run| - 1])) else None
  }

  /******* Accounting *******/

  ghost predicate Consecutive(s: seq<nat>, from: nat) {
    forall i :: 0 <= i < |s| ==> s[i] == from + i
  }

  function Settled(s: System): nat {
    |s.acked| + |s.dropped|
  }

  /** The next message the client will take. */
  function Position(s: System): int {
    Settled(s) + |s.unsettled| - |s.inbox|
  }

  /** The stream is cut, in order, into what is settled, what is delivered but unsettled, and what is queued; the client
   has yet to take the tail of what is delivered, all of it as long as no settlement was lost. */
  ghost predicate Cut(s: System) {
    && Consecutive(s.unsettled, Settled(s))
    && Consecutive(s.queue, Settled(s) + |s.unsettled|)
    && Settled(s) + |s.unsettled| + |s.queue| == |s.published|
    && |s.inbox| <= |s.unsettled| && Consecutive(s.inbox, Settled(s) + |s.unsettled| - |s.inbox|)
    && (!s.open ==> s.unsettled == [] && !s.lost)
    && (!s.lost ==> |s.inbox| == |s.unsettled|)
  }

  function Range(from: nat, to: nat): seq<nat>
    requires from <= to
  {
    seq(to - from, i => from + i)
  }

  /** Each of the first messages was settled once: acked if its handler returned nil, else dropped. */
  ghost predicate SettledOnce(s: System) {
    && multiset(s.acked) + multiset(s.dropped) == multiset(Range(0, Settled(s)))
    && (forall i :: i in s.acked ==> i in s.returned)
    && (forall i :: i in s.dropped ==> i !in s.returned)
    && (forall i :: i in s.returned ==> i < |s.published| && HandlerOk(s.published[i]))
  }

  ghost predicate Accounted(s: System) {
    Cut(s) && SettledOnce(s)
  }

  lemma {:induction false} RemoveFirst(s: seq<nat>, from: nat)
    requires s != [] && Consecutive(s, from)
    ensures Filter(j => j != from, s) == s[1..]
  {
    KeepAll(s[1..], from);
  }

  lemma {:induction false} KeepAll(s: seq<nat>, x: nat)
    requires forall i :: 0 <= i < |s| ==> s[i] != x
    ensures Filter(j => j != x, s) == s
  {
    if s != [] {
      KeepAll(s[1..], x);
    }
  }

  lemma FinishedCut(s: System, ok: bool, left: Database, settlement: Settlement)
    requires Cut(s) && Takes(s) && (settlement.Reaches? ==> !s.lost)
    ensures Cut(Finished(s, ok, left, settlement))
  {
    hide Filter, Took, Effect;
    if settlement.Reaches? {
      RemoveFirst(s.unsettled, s.inbox[0]);
    }
  }

  lemma StepCut(s: System, step: Step)
    requires Cut(s) && Enabled(s, step)
    ensures Cut(Next(s, step))
  {
    hide HandlerOk, Effect, Failure, Finished, Tried;
    match step
    case Handle(settlement) =>
      var body := s.published[s.inbox[0]];
      FinishedCut(s, HandlerOk(body), Effect(s.db, body), settlement);
    case Fail(left, settlement) =>
      FinishedCut(s, false, left, settlement);
    case _ =>
  }

  lemma RangeGrows(k: nat)
    ensures multiset(Range(0, k + 1)) == multiset(Range(0, k)) + multiset{k}
  {
    assert Range(0, k + 1) == Range(0, k) + [k];
  }

  lemma CountNext(acked: seq<nat>, dropped: seq<nat>)
    requires multiset(acked) + multiset(dropped) == multiset(Range(0, |acked| + |dropped|))
    ensures var k := |acked| + |dropped|;
      && multiset(acked + [k]) + multiset(dropped) == multiset(Range(0, k + 1))
      && multiset(acked) + multiset(dropped + [k]) == multiset(Range(0, k + 1))
  {
    hide Range;
    var k := |acked| + |dropped|;
    RangeGrows(k);
    assert multiset(acked + [k]) == multiset(acked) + multiset{k};
    assert multiset(dropped + [k]) == multiset(dropped) + multiset{k};
  }

  /** What is settled are the first messages. */
  lemma SettledAreFirst(s: System, i: nat)
    requires multiset(s.acked) + multiset(s.dropped) == multiset(Range(0, Settled(s)))
    ensures i in s.acked || i in s.dropped <==> i < Settled(s)
  {
    hide Range;
    RangeHolds(Settled(s), i);
    assert i in multiset(Range(0, Settled(s))) <==> i in Range(0, Settled(s));
    assert i in multiset(s.acked) + multiset(s.dropped) <==> i in s.acked || i in s.dropped;
  }

  lemma RangeHolds(k: nat, i: nat)
    ensures i in Range(0, k) <==> i < k
  {
    if i < k {
      assert Range(0, k)[i] == i;
    }
  }

  /** The latest handling of message `i`, which is not settled, returned nil or not. */
  ghost predicate Noted(s: System, i: nat, ok: bool, s': System) {
    && Settled(s) <= i < |s.published| && s.published <= s'.published
    && (ok ==> HandlerOk(s.published[i]))
    && s'.returned == With(i, s.returned, ok)
  }

  lemma NotedReturned(s: System, i: nat, ok: bool, s': System)
    requires SettledOnce(s) && Noted(s, i, ok, s')
    ensures forall j :: j in s'.returned ==> j < |s'.published| && HandlerOk(s'.published[j])
    ensures forall j :: j in s.acked ==> j in s'.returned
    ensures forall j :: j in s.dropped ==> j !in s'.returned
  {
    hide HandlerOk, Range;
    forall j | j in s.acked || j in s.dropped
      ensures j != i
    {
      SettledAreFirst(s, j);
    }
  }

  /** It is acked. */
  lemma SettleAck(s: System, s': System)
    requires SettledOnce(s) && Noted(s, Settled(s), true, s')
    requires s'.acked == s.acked + [Settled(s)] && s'.dropped == s.dropped
    ensures SettledOnce(s')
  {
    hide HandlerOk, Range;
    NotedReturned(s, Settled(s), true, s');
    CountNext(s.acked, s.dropped);
  }

  /** It is dropped. */
  lemma SettleNack(s: System, s': System)
    requires SettledOnce(s) && Noted(s, Settled(s), false, s')
    requires s'.acked == s.acked && s'.dropped == s.dropped + [Settled(s)]
    ensures SettledOnce(s')
  {
    hide HandlerOk, Range;
    NotedReturned(s, Settled(s), false, s');
    CountNext(s.acked, s.dropped);
  }

  /** It is not settled for now. */
  lemma SettleLater(s: System, i: nat, ok: bool, s': System)
    requires SettledOnce(s) && Noted(s, i, ok, s') && s'.acked == s.acked && s'.dropped == s.dropped
    ensures SettledOnce(s')
  {
    hide HandlerOk, Range;
    NotedReturned(s, i, ok, s');
  }

  /** Nothing is handled, at most something is published. */
  lemma SettleNothing(s: System, s': System)
    requires SettledOnce(s) && s'.acked == s.acked && s'.dropped == s.dropped
    requires s.published <= s'.published && s'.returned == s.returned
    ensures SettledOnce(s')
  {
    hide HandlerOk, Range;
  }

  lemma FinishedLists(s: System, ok: bool, left: Database, settlement: Settlement)
    requires Takes(s)
    ensures var i := s.inbox[0]; var s' := Finished(s, ok, left, settlement);
      && s'.published == s.published && s'.returned == With(i, s.returned, ok)
      && s'.acked == (if settlement.Reaches? && ok then s.acked + [i] else s.acked)
      && s'.dropped == (if settlement.Reaches? && !ok then s.dropped + [i] else s.dropped)
  {
    hide Filter, Took, Effect, With;
  }

  /** The client takes messages from behind the settled ones, and the very next one unless a settlement was lost. */
  lemma TakesNext(s: System)
    requires Cut(s) && Takes(s)
    ensures Settled(s) <= s.inbox[0] && (!s.lost ==> s.inbox[0] == Settled(s))
  {
  }

  lemma FinishedNotes(s: System, ok: bool, left: Database, settlement: Settlement)
    requires Cut(s) && Takes(s) && (settlement.Reaches? ==> !s.lost)
    requires ok ==> HandlerOk(s.published[s.inbox[0]])
    ensures var s' := Finished(s, ok, left, settlement);
      && Noted(s, s.inbox[0], ok, s')
      && (settlement.Reaches? ==> s.inbox[0] == Settled(s))
      && s'.acked == (if settlement.Reaches? && ok then s.acked + [s.inbox[0]] else s.acked)
      && s'.dropped == (if settlement.Reaches? && !ok then s.dropped + [s.inbox[0]] else s.dropped)
  {
    hide HandlerOk, Finished, Cut, With;
    FinishedLists(s, ok, left, settlement);
    TakesNext(s);
  }

  lemma FinishedSettledOnce(
    s: System, ok: bool, left: Database, settlement: Settlement)
    requires Cut(s) && SettledOnce(s) && Takes(s) && (settlement.Reaches? ==> !s.lost)
    requires ok ==> HandlerOk(s.published[s.inbox[0]])
    ensures SettledOnce(Finished(s, ok, left, settlement))
  {
    hide HandlerOk, SettledOnce, Finished, Cut, Noted;
    FinishedNotes(s, ok, left, settlement);
    var i, s' := s.inbox[0], Finished(s, ok, left, settlement);
    if !settlement.Reaches? {
      SettleLater(s, i, ok, s');
    } else if ok {
      SettleAck(s, s');
    } else {
      SettleNack(s, s');
    }
  }

  lemma StepSettledOnce(s: System, step: Step)
    requires Cut(s) && SettledOnce(s) && Enabled(s, step)
    ensures SettledOnce(Next(s, step))
  {
    hide HandlerOk, Effect, Failure, Finished, SettledOnce, Tried, Range;
    match step
    case Handle(settlement) =>
      var body := s.published[s.inbox[0]];
      FinishedSettledOnce(s, HandlerOk(body), Effect(s.db, body), settlement);
    case Fail(left, settlement) =>
      FinishedSettledOnce(s, false, left, settlement);
    case Crash(_) =>
      assert Noted(s, s.inbox[0], false, Next(s, step));
      SettleLater(s, s.inbox[0], false, Next(s, step));
    case _ =>
      SettleNothing(s, Next(s, step));
  }

  lemma {:induction false} RunAccounted(init: Database, run: seq<Step>)
    requires After(init, run).Some?
    ensures Accounted(After(init, run).value)
  {
    hide Enabled, Next, Cut, SettledOnce;
    if run == [] {
      StartAccounted(init);
    } else {
      var s := After(init, run[..|run| - 1]).value;
      RunAccounted(init, run[..|run| - 1]);
      StepCut(s, run[|run| - 1]);
      StepSettledOnce(s, run[|run| - 1]);
    }
  }

  lemma StartAccounted(init: Database)
    ensures Accounted(Start(init))
  {
  }

  lemma RangeSplits(k: nat, u: nat, n: nat)
    requires k <= u <= n
    ensures multiset(Range(0, n)) == multiset(Range(0, k)) + multiset(Range(k, u)) + multiset(Range(u, n))
  {
    assert Range(0, n) == Range(0, k) + Range(k, u) + Range(u, n);
  }

  lemma ConsecutiveIsRange(s: seq<nat>, from: nat)
    requires Consecutive(s, from)
    ensures s == Range(from, from + |s|)
  {
  }

  /** No message is lost or counted twice, whatever fails: each is queued, unsettled, acked or dropped. */
  lemma Conservation(init: Database, run: seq<Step>)
    requires After(init, run).Some?
    ensures var s := After(init, run).value;
      multiset(s.queue) + multiset(s.unsettled) + multiset(s.acked) + multiset(s.dropped)
        == multiset(Range(0, |s.published|))
  {
    RunAccounted(init, run);
    AccountedAddsUp(After(init, run).value);
  }

  lemma AccountedAddsUp(s: System)
    requires Accounted(s)
    ensures multiset(s.queue) + multiset(s.unsettled) + multiset(s.acked) + multiset(s.dropped)
         == multiset(Range(0, |s.published|))
  {
    hide Range, HandlerOk, Consecutive;
    var k, u, n := Settled(s), Settled(s) + |s.unsettled|, |s.published|;
    ConsecutiveIsRange(s.unsettled, k);
    ConsecutiveIsRange(s.queue, u);
    calc {
      multiset(s.queue) + multiset(s.unsettled) + multiset(s.acked) + multiset(s.dropped);
      multiset(Range(u, n)) + multiset(Range(k, u)) + (multiset(s.acked) + multiset(s.dropped));
      multiset(Range(0, k)) + multiset(Range(k, u)) + multiset(Range(u, n));
      { RangeSplits(k, u, n); }
      multiset(Range(0, n));
    }
  }

  /******* Convergence *******/

  /** The sink as far as it is known at any time; exactly, as long as nothing has failed. */
  ghost predicate Known(init: Database, s: System, pos: int) {
    && 0 <= pos
    && Tracked(init, s.published, pos, s.mark, s.stored, s.db)
    && Made(init, s.published, s.effects, s.db)
    && s.returned <= s.stored
    && (s.failed == {} ==> OnTrack(init, s.published, pos, s.mark, s.db))
  }

  ghost predicate Consistent(init: Database, s: System) {
    Accounted(s) && Known(init, s, Position(s))
  }

  lemma PositionsInOrder(init: Database, s: System)
    requires Consistent(init, s)
    ensures 0 <= Position(s) <= s.mark <= |s.published|
  {
    hide Columns, Hashes, Cell, ValidDatabase, OnePass, OnTrack, Kept, AllHeld, CellsRight;
  }

  /** The two states know the same. */
  ghost predicate SameSink(s: System, s': System) {
    && s'.published == s.published && s'.mark == s.mark && s'.db == s.db
    && s'.returned == s.returned && s'.stored == s.stored && s'.effects == s.effects && s'.failed == s.failed
  }

  /** Falling back. */
  lemma KnownBack(init: Database, s: System, pos: int, s': System, back: int)
    requires Known(init, s, pos) && 0 <= back <= pos && SameSink(s, s')
    ensures Known(init, s', back)
  {
    hide Tracked, OnTrack, Made;
    RestartTracked(init, s.published, pos, s.mark, s.stored, s.db, back);
    if s.failed == {} {
      RestartKeeps(init, s.published, pos, s.mark, s.db, back);
    }
  }

  lemma MarkMoves(init: Database, s: System, pos: int)
    requires Known(init, s, pos)
    ensures 0 <= pos <= s.mark <= |s.published|
    ensures Further(pos, s.mark) == Max(s.mark, pos + 1)
    ensures ValidDatabase(s.db) && ValidDatabase(init)
  {
    hide Columns, Hashes, Cell, ValidDatabase, OnePass, OnTrack, Kept, AllHeld, CellsRight, Made;
  }

  /** How the work enters what is noted. */
  lemma WorkedNotes(s: System, ok: bool, left: Database, harmless: bool)
    requires Takes(s) && s.returned <= s.stored && (ok ==> Took(s.db, s.published[s.inbox[0]], left))
    ensures var i := s.inbox[0]; var s' := Worked(s, ok, left, harmless);
      && s'.published == s.published && s'.db == left && s'.mark == Max(s.mark, i + 1)
      && Outcome(s.db, s.published, i, s.stored, left, s'.stored)
      && s'.effects == (if Took(s.db, s.published[i], left) then s.effects + [i] else s.effects)
      && s'.returned <= s'.stored
  {
    hide Effect, HandlerOk;
  }

  /** Working on the next delivery, however it ends, is known once the client is past it. */
  lemma WorkedTracked(init: Database, s: System, ok: bool, left: Database, harmless: bool)
    requires Takes(s) && Known(init, s, s.inbox[0])
    requires var body := s.published[s.inbox[0]];
      && (left == Effect(s.db, body) || Failure(s.db, body, left))
      && (ok ==> Took(s.db, body, left))
    ensures var s' := Worked(s, ok, left, harmless);
      && Tracked(init, s'.published, s.inbox[0] + 1, s'.mark, s'.stored, s'.db)
      && Made(init, s'.published, s'.effects, s'.db)
      && s'.returned <= s'.stored
  {
    hide Tracked, OnTrack, Took, Effect, Touches, Failure, Made, Worked, Outcome;
    var pos, body := s.inbox[0], s.published[s.inbox[0]];
    WorkedNotes(s, ok, left, harmless);
    MarkMoves(init, s, pos);
    if left == Effect(s.db, body) {
      EffectTouches(s.db, body);
    } else {
      FailureTouches(s.db, body, left);
    }
    StepTracked(init, s.published, pos, s.mark, s.stored, s.db, left, Worked(s, ok, left, harmless).stored);
    HandlingMade(init, s.published, s.effects, s.db, pos, left);
  }

  /** Past a delivery whose work was done, or whose failure is noted. */
  lemma KnownWorked(init: Database, s: System, ok: bool, left: Database)
    requires Takes(s) && Known(init, s, s.inbox[0])
    requires var body := s.published[s.inbox[0]];
      && (left == Effect(s.db, body) || Failure(s.db, body, left))
      && (ok ==> Took(s.db, body, left))
    ensures Known(init, Worked(s, ok, left, left == Effect(s.db, s.published[s.inbox[0]])), s.inbox[0] + 1)
  {
    hide Tracked, OnTrack, HandlerOk, Effect, Failure, Made, Took;
    var pos, body := s.inbox[0], s.published[s.inbox[0]];
    WorkedTracked(init, s, ok, left, left == Effect(s.db, body));
    MarkMoves(init, s, pos);
    if s.failed == {} && left == Effect(s.db, body) {
      TakeKeeps(init, s.published, pos, s.mark, s.db);
    }
  }

  /** The handler dies. */
  lemma KnownCrashed(init: Database, s: System, left: Database)
    requires Takes(s) && Known(init, s, s.inbox[0])
    requires Failure(s.db, s.published[s.inbox[0]], left)
    ensures var harmless := HandlerOk(s.published[s.inbox[0]]) || left == s.db;
      Known(init, Worked(s, false, left, harmless), s.inbox[0])
  {
    hide Tracked, OnTrack, Effect, EnvelopeOk, Clean, Leftover, Made, Took;
    var pos, body := s.inbox[0], s.published[s.inbox[0]];
    var harmless := HandlerOk(body) || left == s.db;
    WorkedTracked(init, s, false, left, harmless);
    MarkMoves(init, s, pos);
    var s' := Worked(s, false, left, harmless);
    RestartTracked(init, s.published, pos + 1, s'.mark, s'.stored, left, pos);
    if s'.failed == {} {
      if HandlerOk(body) {
        CrashKeeps(init, s.published, pos, s.mark, s.db, left);
      } else {
        NoEffect(s.db, body);
        TakeKeeps(init, s.published, pos, s.mark, s.db);
        RestartKeeps(init, s.published, pos + 1, s'.mark, left, pos);
      }
    }
  }

  lemma NoEffect(db: Database, b: Body)
    requires !HandlerOk(b)
    ensures Effect(db, b) == db
  {
  }

  lemma KnownPublished(init: Database, s: System, pos: int, s': System, body: Body)
    requires Known(init, s, pos) && s'.published == s.published + [body]
    requires SameSink(s, s'.(published := s.published))
    ensures Known(init, s', pos)
  {
    hide Tracked, OnTrack, Made;
    PublishTracked(init, s.published, [body], pos, s.mark, s.stored, s.db);
    PublishMade(init, s.published, [body], s.effects, s.db);
    if s.failed == {} {
      PublishKeeps(init, s.published, [body], pos, s.mark, s.db);
    }
  }

  /** The client's place after a delivery is finished. */
  lemma FinishedPosition(s: System, ok: bool, left: Database, settlement: Settlement)
    requires Cut(s) && Takes(s) && (settlement.Reaches? ==> !s.lost)
    ensures s.inbox[0] == Position(s)
    ensures 0 <= Position(Finished(s, ok, left, settlement)) <= Position(s) + 1
  {
    hide Filter, Took, Effect;
    if settlement.Reaches? {
      RemoveFirst(s.unsettled, s.inbox[0]);
    }
  }

  lemma FinishedSink(s: System, ok: bool, left: Database, settlement: Settlement)
    requires Takes(s)
    ensures SameSink(
      Worked(s, ok, left, left == Effect(s.db, s.published[s.inbox[0]])), Finished(s, ok, left, settlement))
  {
    hide Filter, Took, Effect;
  }

  lemma FinishedKnown(init: Database, s: System, ok: bool, left: Database, settlement: Settlement)
    requires Cut(s) && Takes(s) && (settlement.Reaches? ==> !s.lost) && Known(init, s, Position(s))
    requires var body := s.published[s.inbox[0]];
      && (left == Effect(s.db, body) || Failure(s.db, body, left))
      && (ok ==> Took(s.db, body, left))
    ensures var s' := Finished(s, ok, left, settlement); Known(init, s', Position(s'))
  {
    hide Known, Took, Effect, Failure, Cut, Finished, Worked;
    FinishedPosition(s, ok, left, settlement);
    FinishedSink(s, ok, left, settlement);
    var pos, s' := s.inbox[0], Finished(s, ok, left, settlement);
    KnownWorked(init, s, ok, left);
    KnownBack(init, Worked(s, ok, left, left == Effect(s.db, s.published[pos])), pos + 1, s', Position(s'));
  }

  lemma QuietKnown(init: Database, s: System, step: Step)
    requires Cut(s) && Known(init, s, Position(s)) && Enabled(s, step) && !step.Handle? && !step.Fail?
    ensures Known(init, Next(s, step), Position(Next(s, step)))
  {
    hide Known, HandlerOk, Effect, Failure, Tried, Took;
    MarkMoves(init, s, Position(s));
    var s' := Next(s, step);
    match step
    case Publish(body) =>
      KnownPublished(init, s, Position(s), s', body);
    case Crash(left) =>
      KnownCrashed(init, s, left);
      var worked := Worked(s, false, left, HandlerOk(s.published[s.inbox[0]]) || left == s.db);
      KnownBack(init, worked, Position(s), s', Position(s'));
    case _ =>
      KnownBack(init, s, Position(s), s', Position(s'));
  }

  lemma StepConsistent(init: Database, s: System, step: Step)
    requires Consistent(init, s) && Enabled(s, step)
    ensures Consistent(init, Next(s, step))
  {
    hide Cut, SettledOnce, Known, HandlerOk, Effect, Failure, Finished, Tried;
    StepCut(s, step);
    StepSettledOnce(s, step);
    match step
    case Handle(settlement) =>
      var body := s.published[s.inbox[0]];
      FinishedKnown(init, s, HandlerOk(body), Effect(s.db, body), settlement);
    case Fail(left, settlement) =>
      FinishedKnown(init, s, false, left, settlement);
    case _ =>
      QuietKnown(init, s, step);
  }

  lemma {:induction false} RunConsistent(init: Database, run: seq<Step>)
    requires ValidDatabase(init) && After(init, run).Some?
    ensures Consistent(init, After(init, run).value)
  {
    hide Enabled, Next, Accounted, OnTrack, Tracked, Made;
    if run == [] {
      StartAccounted(init);
      StartsOnTrack(init, []);
      StartsTracked(init, []);
      StartsMade(init);
    } else {
      RunConsistent(init, run[..|run| - 1]);
      StepConsistent(init, After(init, run[..|run| - 1]).value, run[|run| - 1]);
    }
  }

  /******* What the sink holds *******/

  /** The messages in the order in which handlings of them took effect. */
  ghost function EffectLog(s: System): seq<Body>
    requires Within(s.published, s.effects)
  {
    Pick(s.published, s.effects)
  }

  lemma RunMade(init: Database, run: seq<Step>)
    requires ValidDatabase(init) && After(init, run).Some?
    ensures var s := After(init, run).value;
      && 0 <= Position(s) <= s.mark <= |s.published|
      && Within(s.published, s.effects) && Made(init, s.published, s.effects, s.db)
      && Tracked(init, s.published, Position(s), s.mark, s.stored, s.db)
  {
    RunConsistent(init, run);
    PositionsInOrder(init, After(init, run).value);
    hide After, Tracked, Accounted, OnTrack, SameContents, HandlerOk;
  }

  /** At any time, in the middle of a replay too, a cell holds what the last handling to take effect on it wrote, and a
   row is there if some handling wrote it or it was there at first, whatever the handlers reported. */
  lemma SinkExactly(init: Database, run: seq<Step>)
    requires ValidDatabase(init) && After(init, run).Some?
    ensures var s := After(init, run).value;
      && Within(s.published, s.effects)
      && (forall n, h, c :: Cell(s.db, n, h, c) == LastWrite(init, EffectLog(s), |s.effects|, n, h, c))
      && (forall n, h :: h in Hashes(s.db, n) <==> h in Hashes(init, n) || RowIn(EffectLog(s), |s.effects|, n, h))
  {
    RunMade(init, run);
    var s := After(init, run).value;
    hide After, Tracked, Made, HandlerOk, LastWrite, RowIn, Hashes, Cell;
    MadeExactly(init, s.published, s.effects, s.db);
  }

  /** So a row is there exactly when it was before or a handling of a message of that row took effect. */
  lemma RowPresentIff(init: Database, run: seq<Step>, name: string, hash: string)
    requires ValidDatabase(init) && After(init, run).Some?
    ensures var s := After(init, run).value;
      hash in Hashes(s.db, name) <==>
        || hash in Hashes(init, name)
        || exists i :: i in s.effects && i < |s.published| && RowOf(s.published[i], name, hash)
  {
    SinkExactly(init, run);
    var s := After(init, run).value;
    hide After, RowOf, Hashes, HandlerOk, Cell, LastWrite;
    if i :| i in s.effects && i < |s.published| && RowOf(s.published[i], name, hash) {
      var k :| 0 <= k < |s.effects| && s.effects[k] == i;
      assert RowOf(EffectLog(s)[k], name, hash);
    }
  }

  /** And a cell holds its one-pass value, over however many of the messages, exactly when the last message to take
   effect on it wrote what the last of them to write it would have. */
  lemma CellRightIff(init: Database, run: seq<Step>, k: nat, name: string, hash: string, col: string)
    requires ValidDatabase(init) && After(init, run).Some? && k <= |After(init, run).value.published|
    ensures var s := After(init, run).value;
      && Within(s.published, s.effects)
      && (Cell(s.db, name, hash, col) == Cell(OnePass(init, s.published, k), name, hash, col) <==>
            LastWrite(init, EffectLog(s), |s.effects|, name, hash, col)
              == LastWrite(init, s.published, k, name, hash, col))
  {
    SinkExactly(init, run);
    var s := After(init, run).value;
    hide After, Cell, LastWrite, OnePass, RowIn, Hashes, HandlerOk;
    OnePassCell(init, s.published, k, name, hash, col);
  }

  /** What the messages before position `k` say about rows and cells is what those that took effect say. */
  ghost predicate SameSayings(init: Database, log: seq<Body>, k: nat, effects: seq<Body>)
    requires k <= |log|
  {
    && (forall n, h :: RowIn(log, k, n, h) ==> h in Hashes(init, n) || RowIn(effects, |effects|, n, h))
    && (forall n, h, c :: LastWrite(init, effects, |effects|, n, h, c) == LastWrite(init, log, k, n, h, c))
  }

  /** Exactly when the sink has the rows and cells of one pass over the messages that handlers have started on. */
  lemma ContentsRightIff(init: Database, run: seq<Step>)
    requires ValidDatabase(init) && After(init, run).Some?
    ensures var s := After(init, run).value;
      && 0 <= Position(s) <= s.mark <= |s.published| && Within(s.published, s.effects)
      && (SameData(OnePass(init, s.published, s.mark), s.db) <==>
            SameSayings(init, s.published, s.mark, EffectLog(s)))
  {
    RunMade(init, run);
    SinkExactly(init, run);
    var s := After(init, run).value;
    var o := OnePass(init, s.published, s.mark);
    RowsBelow(init, s.published, Position(s), s.mark, s.stored, s.db);
    hide After, Cell, LastWrite, OnePass, RowIn, Hashes, HandlerOk, Tracked, Made;
    forall n, h
      ensures h in Hashes(o, n) <==> h in Hashes(init, n) || RowIn(s.published, s.mark, n, h)
    {
      OnePassRow(init, s.published, s.mark, n, h);
    }
    forall n, h, c
      ensures Cell(o, n, h, c) == LastWrite(init, s.published, s.mark, n, h, c)
    {
      OnePassCell(init, s.published, s.mark, n, h, c);
    }
    DataIff(init, s, o);
  }

  lemma RowsBelow(init: Database, log: seq<Body>, pos: nat, mark: nat, stored: set<nat>, db: Database)
    requires Tracked(init, log, pos, mark, stored, db)
    ensures forall n, h :: h in Hashes(db, n) ==> h in Hashes(OnePass(init, log, mark), n)
  {
    hide Columns, Hashes, Cell, ValidDatabase, OnePass, Kept, AllHeld, CellsRight;
  }

  lemma DataIff(init: Database, s: System, o: Database)
    requires Within(s.published, s.effects) && s.mark <= |s.published|
    requires forall n, h, c :: Cell(s.db, n, h, c) == LastWrite(init, EffectLog(s), |s.effects|, n, h, c)
    requires forall n, h ::
      h in Hashes(s.db, n) <==> h in Hashes(init, n) || RowIn(EffectLog(s), |s.effects|, n, h)
    requires forall n, h, c :: Cell(o, n, h, c) == LastWrite(init, s.published, s.mark, n, h, c)
    requires forall n, h :: h in Hashes(o, n) <==> h in Hashes(init, n) || RowIn(s.published, s.mark, n, h)
    requires forall n, h :: h in Hashes(s.db, n) ==> h in Hashes(o, n)
    ensures SameData(o, s.db) <==> SameSayings(init, s.published, s.mark, EffectLog(s))
  {
    hide Cell, LastWrite, RowIn, Hashes, Pick, HandlerOk;
    if SameSayings(init, s.published, s.mark, EffectLog(s)) {
      forall n
        ensures Hashes(o, n) == Hashes(s.db, n)
      {
        assert forall h :: h in Hashes(o, n) <==> h in Hashes(s.db, n);
      }
    }
  }

  /**
   At-least-once delivery converges. After any run, whenever the client is back at the first message it has never
   started on: a cell holds its one-pass value exactly when the last handling to take effect on it wrote that, and does
   so if the latest handling of the last message to write it took effect; if that holds of every acceptable message,
   the sink has the rows and cells of one pass; and if no handler ever failed with its work undone, the sink is the
   one-pass sink.
   */
  lemma ReplayConverges(init: Database, run: seq<Step>)
    requires ValidDatabase(init) && After(init, run).Some?
    requires Position(After(init, run).value) == After(init, run).value.mark
    ensures var s := After(init, run).value;
      && 0 <= s.mark <= |s.published| && Within(s.published, s.effects)
      && var o := OnePass(init, s.published, s.mark);
      && (forall n, h, c :: Cell(s.db, n, h, c) == Cell(o, n, h, c) <==>
            LastWrite(init, EffectLog(s), |s.effects|, n, h, c) == LastWrite(init, s.published, s.mark, n, h, c))
      && (forall n, h, c :: Lasting(s.published, s.mark, s.stored, n, h, c) ==> Cell(s.db, n, h, c) == Cell(o, n, h, c))
      && ((forall i :: 0 <= i < s.mark && HandlerOk(s.published[i]) ==> i in s.stored) ==> SameContents(o, s.db))
      && (s.failed == {} ==> s.db == o)
  {
    RunConsistent(init, run);
    RunMade(init, run);
    var s := After(init, run).value;
    hide After, OnePass, Accounted, HandlerOk, SameContents, Cell, Lasting, OnTrack, Columns, Hashes, Kept, AllHeld;
    hide ValidDatabase, Writes?, LastWrite, Pick;
    forall n, h, c
      ensures !WrittenIn(s.published, s.mark, s.mark, n, h, c)
      ensures Cell(s.db, n, h, c) == Cell(OnePass(init, s.published, s.mark), n, h, c) <==>
        LastWrite(init, EffectLog(s), |s.effects|, n, h, c) == LastWrite(init, s.published, s.mark, n, h, c)
    {
      CellRightIff(init, run, s.mark, n, h, c);
    }
    if forall i :: 0 <= i < s.mark && HandlerOk(s.published[i]) ==> i in s.stored {
      AllStored(init, s.published, s.mark, s.stored, s.db);
    }
    if s.failed == {} {
      Converged(init, s.published, s.mark, s.db);
    }
  }

  /**
   Once every message is acked or dropped: a cell holds its one-pass value exactly when the last handling to take effect
   on it wrote that, and does so if its last writer was acked, or dropped although its work was done; if that holds of
   every acceptable message, the sink has the rows and cells of one pass; if no handler ever failed with its work
   undone, it is the one-pass sink.
   */
  lemma SettledMeansOnePass(init: Database, run: seq<Step>)
    requires ValidDatabase(init) && After(init, run).Some?
    requires Settled(After(init, run).value) == |After(init, run).value.published|
    ensures var s := After(init, run).value;
      && var n := |s.published|;
      && var o := OnePass(init, s.published, n);
      && Within(s.published, s.effects)
      && (forall i :: i in s.acked ==> i in s.stored)
      && (forall t, h, c :: Cell(s.db, t, h, c) == Cell(o, t, h, c) <==>
            LastWrite(init, EffectLog(s), |s.effects|, t, h, c) == LastWrite(init, s.published, n, t, h, c))
      && (forall t, h, c :: Lasting(s.published, n, s.stored, t, h, c) ==> Cell(s.db, t, h, c) == Cell(o, t, h, c))
      && (forall t, h, c :: Lasting(s.published, n, Elements(s.acked), t, h, c) ==>
            Cell(s.db, t, h, c) == Cell(o, t, h, c))
      && ((forall i :: i in s.dropped ==> i in s.stored || (i < n && !HandlerOk(s.published[i]))) ==>
            SameContents(o, s.db))
      && (s.failed == {} ==> s.db == o)
  {
    RunConsistent(init, run);
    var s := After(init, run).value;
    hide After, OnePass, OnTrack, HandlerOk, SameContents, Cell, Lasting, Range, Tracked, LastWrite, Made, Pick;
    PositionsInOrder(init, s);
    ReplayConverges(init, run);
    forall i | 0 <= i < |s.published|
      ensures i in s.acked || i in s.dropped
    {
      SettledAreFirst(s, i);
    }
    forall t, h, c | Lasting(s.published, |s.published|, Elements(s.acked), t, h, c)
      ensures Lasting(s.published, |s.published|, s.stored, t, h, c)
    {
      LastingMore(s.published, |s.published|, Elements(s.acked), s.stored, t, h, c);
    }
  }

  function Elements(s: seq<nat>): set<nat> {
    set i | i in s
  }

  lemma LastingMore(
    log: seq<Body>, upto: nat, some: set<nat>, more: set<nat>, name: string, hash: string, col: string)
    requires upto <= |log| && some <= more && Lasting(log, upto, some, name, hash, col)
    ensures Lasting(log, upto, more, name, hash, col)
  {
    hide Writes?;
  }

  /** At any time at all, every cell that the replay will not write again is right, if the latest handling of its last
   writer took effect. */
  lemma UntouchedCellsAreRight(init: Database, run: seq<Step>, name: string, hash: string, col: string)
    requires ValidDatabase(init) && After(init, run).Some?
    ensures var s := After(init, run).value;
      0 <= Position(s) <= s.mark <= |s.published| &&
      (!WrittenIn(s.published, Position(s), s.mark, name, hash, col) &&
       Lasting(s.published, s.mark, s.stored, name, hash, col) ==>
        Cell(s.db, name, hash, col) == Cell(OnePass(init, s.published, s.mark), name, hash, col))
  {
    RunMade(init, run);
    hide After, OnePass, Cell, Writes?, Columns, Hashes, Lasting, Kept, AllHeld, ValidDatabase, Made;
  }

  /** The condition is needed: an entity whose handler fails once is acked by no one and missing for good. */
  lemma FailureLosesEntity(init: Database, msg: Message)
    returns (run: seq<Step>)
    requires ValidDatabase(init) && Accepted(msg) && msg.meta.hashValue !in Hashes(init, TableOf(msg))
    ensures After(init, run).Some?
    ensures var s := After(init, run).value;
      && s.published == [Entity(msg)] && Settled(s) == 1 && s.dropped == [0]
      && s.db == init != OnePass(init, s.published, 1)
  {
    hide After, OnePass, Hashes, TableOf, ValidDatabase, Accepted;
    run := [Publish(Entity(msg)), Open, Deliver, Fail(init, Reaches)];
    FailingRun(init, msg, run);
    OnePassAddsRow(init, msg);
  }

  lemma OnePassAddsRow(init: Database, msg: Message)
    requires ValidDatabase(init) && Accepted(msg) && msg.meta.hashValue !in Hashes(init, TableOf(msg))
    ensures OnePass(init, [Entity(msg)], 1) != init
  {
    hide OnePass, Hashes, TableOf, ValidDatabase, Accepted;
    OnePassHasRow(init, msg);
  }

  lemma OnePassHasRow(init: Database, msg: Message)
    requires ValidDatabase(init) && Accepted(msg)
    ensures msg.meta.hashValue in Hashes(OnePass(init, [Entity(msg)], 1), TableOf(msg))
  {
    hide EnvelopeOk, Clean, Apply, TableOf, Columns, Cell, ValidDatabase, Hashes, Types, Writes;
    OneMorePass(init, [Entity(msg)], 0);
    ApplyView(init, msg);
  }

  lemma FailingRun(init: Database, msg: Message, run: seq<Step>)
    requires Accepted(msg) && run == [Publish(Entity(msg)), Open, Deliver, Fail(init, Reaches)]
    ensures After(init, run).Some?
    ensures var s := After(init, run).value;
      s.published == [Entity(msg)] && s.acked == [] && s.dropped == [0] && s.db == init
  {
    hide EnvelopeOk, Clean, Filter;
    assert run[..3][..2] == run[..2] && run[..2][..1] == run[..1] && run[..1][..0] == [];
    var s1 := Next(Start(init), run[0]);
    assert After(init, []) == Some(Start(init));
    assert After(init, run[..1]) == Some(s1);
    var s2 := Next(s1, run[1]);
    assert After(init, run[..2]) == Some(s2);
    var s3 := Next(s2, run[2]);
    assert After(init, run[..3]) == Some(s3);
    assert s3.inbox == [0] && s3.published == [Entity(msg)];
    assert Enabled(s3, run[3]);
    assert After(init, run) == Some(Next(s3, run[3]));
  }
}

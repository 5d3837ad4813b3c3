/**
 The heartbeat throttle under concurrency: accepting a heartbeat and recording it are two critical sections, so
 heartbeats may be recorded in another order than they were accepted in.
 */
module Throttle {
  import opened Basics
  import opened ActivityRing

  datatype Heartbeat = Heartbeat(service: string, unixMs: int)

  /** `accepted` in order of acceptance; `recorded` lists, in order of recording, which of them have been recorded. */
  datatype State = State(last: map<string, int>, accepted: seq<Heartbeat>, recorded: seq<nat>)

  datatype Step = Accept(hb: Heartbeat) | Record(which: nat)

  /** A heartbeat may be recorded once it has been accepted, and only once. */
  predicate Enabled(s: State, step: Step) {
    match step
    case Accept(_) => true
    case Record(which) => which < |s.accepted| && which !in s.recorded
  }

  function Next(s: State, step: Step, gap: int): State {
    match step
    case Accept(hb) =>
      if Accepts(s.last, hb.service, hb.unixMs, gap)
      then s.(last := s.last[hb.service := hb.unixMs], accepted := s.accepted + [hb])
      else s
    case Record(which) => s.(recorded := s.recorded + [which])
  }

  function After(run: seq<Step>, gap: int): Option<State> {
    if run == [] then Some(State(map[], [], []))
    else
      match After(run[..|run| - 1], gap)
      case None => None
      case Some(s) => if Enabled(s, run[|run| - 1]) then Some(Next(s, run[|run| - 1], gap)) else None
  }

  /** The heartbeats in the feed's history. */
  function Recorded(s: State): (r: seq<Heartbeat>)
    requires forall i :: 0 <= i < |s.recorded| ==> s.recorded[i] < |s.accepted|
    ensures |r| == |s.recorded| && forall i :: 0 <= i < |r| ==> r[i] == s.accepted[s.recorded[i]]
  {
    seq(|s.recorded|, i requires 0 <= i < |s.recorded| => s.accepted[s.recorded[i]])
  }

  ghost predicate Safe(s: State, gap: int) {
    && (forall i :: 0 <= i < |s.recorded| ==> s.recorded[i] < |s.accepted|)
    && Distinct(s.recorded)
    && (forall i :: 0 <= i < |s.accepted| ==>
          s.accepted[i].service in s.last && s.accepted[i].unixMs <= s.last[s.accepted[i].service])
    && (forall i, j :: 0 <= i < j < |s.accepted| && s.accepted[i].service == s.accepted[j].service ==>
          s.accepted[j].unixMs - s.accepted[i].unixMs >= gap)
  }

  lemma {:induction false} RunSafe(run: seq<Step>, gap: int)
    requires gap > 0 && After(run, gap).Some?
    ensures Safe(After(run, gap).value, gap)
  {
    if run != [] {
      RunSafe(run[..|run| - 1], gap);
      StepSafe(After(run[..|run| - 1], gap).value, run[|run| - 1], gap);
    }
  }

  lemma StepSafe(s: State, step: Step, gap: int)
    requires gap > 0 && Safe(s, gap) && Enabled(s, step)
    ensures Safe(Next(s, step, gap), gap)
  {
  }

  /** Under every interleaving, two recorded heartbeats of one service are at least the gap apart. */
  lemma RecordedApart(run: seq<Step>, gap: int, i: nat, j: nat)
    requires gap > 0 && After(run, gap).Some?
    requires i < j < |After(run, gap).value.recorded|
    ensures Safe(After(run, gap).value, gap)
    ensures var r := Recorded(After(run, gap).value);
      r[i].service == r[j].service ==> r[i].unixMs - r[j].unixMs >= gap || r[j].unixMs - r[i].unixMs >= gap
  {
    RunSafe(run, gap);
    var s := After(run, gap).value;
    assert s.recorded[i] != s.recorded[j];
  }

  /******* Which heartbeats are accepted *******/

  /** The i-th accepted heartbeat is the one remembered for the service. */
  ghost predicate LastOf(s: State, service: string, i: nat)
    requires i < |s.accepted| && service in s.last
  {
    s.accepted[i] == Heartbeat(service, s.last[service])
  }

  /** What is remembered of a service is a heartbeat accepted of it. */
  ghost predicate Remembers(s: State) {
    forall service :: service in s.last ==> exists i :: 0 <= i < |s.accepted| && LastOf(s, service, i)
  }

  lemma StepRemembers(s: State, step: Step, gap: int)
    requires Remembers(s)
    ensures Remembers(Next(s, step, gap))
  {
    var s' := Next(s, step, gap);
    forall service | service in s'.last
      ensures exists i :: 0 <= i < |s'.accepted| && LastOf(s', service, i)
    {
      if s'.accepted != s.accepted && service == step.hb.service {
        assert LastOf(s', service, |s.accepted|);
      } else {
        var i :| 0 <= i < |s.accepted| && LastOf(s, service, i);
        assert LastOf(s', service, i);
      }
    }
  }

  lemma {:induction false} RunRemembers(run: seq<Step>, gap: int)
    requires After(run, gap).Some?
    ensures Remembers(After(run, gap).value)
  {
    hide Remembers, Next;
    if run == [] {
      NothingToRemember();
    } else {
      RunRemembers(run[..|run| - 1], gap);
      StepRemembers(After(run[..|run| - 1], gap).value, run[|run| - 1], gap);
    }
  }

  lemma NothingToRemember()
    ensures Remembers(State(map[], [], []))
  {
  }

  /** The heartbeat is at least the gap behind every one accepted of its service. */
  ghost predicate Late(s: State, hb: Heartbeat, gap: int) {
    forall i :: 0 <= i < |s.accepted| && s.accepted[i].service == hb.service ==>
      hb.unixMs - s.accepted[i].unixMs >= gap
  }

  /** After any run a heartbeat is accepted exactly when it is at least the gap behind all those accepted of its
   service; else one of them is stamped later than the gap before it, and nothing changes. */
  lemma AcceptedIff(run: seq<Step>, gap: int, hb: Heartbeat)
    requires gap > 0 && After(run, gap).Some?
    ensures var s := After(run, gap).value; var s' := Next(s, Accept(hb), gap);
      if Late(s, hb, gap) then s'.accepted == s.accepted + [hb] && s'.recorded == s.recorded else s' == s
  {
    hide After;
    RunSafe(run, gap);
    RunRemembers(run, gap);
    var s := After(run, gap).value;
    if hb.service in s.last {
      var i :| 0 <= i < |s.accepted| && LastOf(s, hb.service, i);
      assert s.accepted[i].service == hb.service;
    }
  }

  /** An accepted heartbeat is recorded once, whenever that happens. */
  lemma RecordedOnce(s: State, which: nat, gap: int)
    requires Enabled(s, Record(which))
    ensures var s' := Next(s, Record(which), gap);
      s'.recorded == s.recorded + [which] && s'.accepted == s.accepted && s'.last == s.last
    ensures !Enabled(Next(s, Record(which), gap), Record(which))
  {
  }

  function Accepts?(hbs: seq<Heartbeat>): (r: seq<Step>)
    ensures |r| == |hbs| && forall i :: 0 <= i < |r| ==> r[i] == Accept(hbs[i])
  {
    seq(|hbs|, i requires 0 <= i < |hbs| => Accept(hbs[i]))
  }

  /** Heartbeats that are each at least the gap behind the earlier ones of their service are all accepted. */
  lemma {:induction false} SpacedAreAccepted(hbs: seq<Heartbeat>, gap: int)
    requires gap > 0
    requires forall i, j :: 0 <= i < j < |hbs| && hbs[i].service == hbs[j].service ==>
      hbs[j].unixMs - hbs[i].unixMs >= gap
    ensures After(Accepts?(hbs), gap).Some? && After(Accepts?(hbs), gap).value.accepted == hbs
  {
    if hbs != [] {
      var n := |hbs| - 1;
      SpacedAreAccepted(hbs[..n], gap);
      assert Accepts?(hbs)[..n] == Accepts?(hbs[..n]);
      AcceptedIff(Accepts?(hbs[..n]), gap, hbs[n]);
      assert hbs == hbs[..n] + [hbs[n]];
    }
  }

  /******* Counting *******/

  ghost predicate Apart(ts: seq<int>, gap: int) {
    forall i, j :: 0 <= i < j < |ts| ==> ts[i] - ts[j] >= gap || ts[j] - ts[i] >= gap
  }

  /** Which slot of length `gap` a time falls in, counted from `from`. */
  function Slot(t: int, from: int, gap: int): int
    requires gap > 0
  {
    (t - from) / gap
  }

  lemma Sign(g: int, x: int)
    requires g > 0
    ensures x <= 0 ==> g * x <= 0
  {
  }

  lemma SlotsDiffer(t: int, u: int, from: int, gap: int)
    requires gap > 0 && t - u >= gap
    ensures Slot(t, from, gap) > Slot(u, from, gap)
  {
    var a, b := t - from, u - from;
    assert a == gap * (a / gap) + a % gap && b == gap * (b / gap) + b % gap;
    assert gap * (a / gap - b / gap) == gap * (a / gap) - gap * (b / gap) > 0;
    Sign(gap, a / gap - b / gap);
  }

  lemma SlotInRange(t: int, from: int, window: nat, gap: int)
    requires gap > 0 && from <= t <= from + window
    ensures 0 <= Slot(t, from, gap) <= window / gap
  {
    var a := t - from;
    assert a == gap * (a / gap) + a % gap && window == gap * (window / gap) + window % gap;
    assert gap * (window / gap - a / gap + 1) == gap * (window / gap) - gap * (a / gap) + gap > 0;
    Sign(gap, window / gap - a / gap + 1);
  }

  /** Times pairwise a gap apart within a window: at most one more of them than whole gaps fit in. */
  lemma AtMost(ts: seq<int>, from: int, window: nat, gap: int)
    requires gap > 0 && Apart(ts, gap)
    requires forall i :: 0 <= i < |ts| ==> from <= ts[i] <= from + window
    ensures |ts| <= window / gap + 1
  {
    var slots := seq(|ts|, i requires 0 <= i < |ts| => Slot(ts[i], from, gap));
    forall i, j | 0 <= i < j < |ts|
      ensures slots[i] != slots[j]
    {
      if ts[i] - ts[j] >= gap {
        SlotsDiffer(ts[i], ts[j], from, gap);
      } else {
        SlotsDiffer(ts[j], ts[i], from, gap);
      }
    }
    DistinctSize(slots);
    var n := window / gap + 1;
    forall x | x in slots
      ensures 0 <= x < n
    {
      var i :| 0 <= i < |ts| && slots[i] == x;
      SlotInRange(ts[i], from, window, gap);
    }
    SubsetSize((set x | x in slots), UpTo(n));
  }

  /** The recorded heartbeats of one service stamped within a window. */
  function InWindow(r: seq<Heartbeat>, service: string, from: int, window: nat): seq<int> {
    if r == [] then []
    else
      var last := r[|r| - 1];
      InWindow(r[..|r| - 1], service, from, window) +
      (if last.service == service && from <= last.unixMs <= from + window then [last.unixMs] else [])
  }

  lemma {:induction false} WindowApart(r: seq<Heartbeat>, service: string, from: int, window: nat, gap: int)
    requires forall i, j :: 0 <= i < j < |r| && r[i].service == r[j].service ==>
      r[i].unixMs - r[j].unixMs >= gap || r[j].unixMs - r[i].unixMs >= gap
    ensures Apart(InWindow(r, service, from, window), gap)
    ensures forall t :: t in InWindow(r, service, from, window) ==>
      from <= t <= from + window && exists k :: 0 <= k < |r| && r[k].service == service && r[k].unixMs == t
  {
    if r != [] {
      var n := |r| - 1;
      WindowApart(r[..n], service, from, window, gap);
      var before := InWindow(r[..n], service, from, window);
      forall t | t in before
        ensures exists k :: 0 <= k < n && r[k].service == service && r[k].unixMs == t
      {
        var k :| 0 <= k < n && r[..n][k].service == service && r[..n][k].unixMs == t;
        assert r[k].service == service;
      }
      forall i | 0 <= i < |before|
        ensures r[n].service == service ==> before[i] - r[n].unixMs >= gap || r[n].unixMs - before[i] >= gap
      {
        assert before[i] in before;
      }
    }
  }

  /** However the heartbeats interleave, a window holds at most floor(window / gap) + 1 recorded ones of a service. */
  lemma ThrottleBound(run: seq<Step>, gap: int, service: string, from: int, window: nat)
    requires gap > 0 && After(run, gap).Some?
    ensures Safe(After(run, gap).value, gap)
    ensures |InWindow(Recorded(After(run, gap).value), service, from, window)| <= window / gap + 1
  {
    hide After;
    RunSafe(run, gap);
    var r := Recorded(After(run, gap).value);
    forall i, j | 0 <= i < j < |r| && r[i].service == r[j].service
      ensures r[i].unixMs - r[j].unixMs >= gap || r[j].unixMs - r[i].unixMs >= gap
    {
      RecordedApart(run, gap, i, j);
    }
    WindowApart(r, service, from, window, gap);
    var ts := InWindow(r, service, from, window);
    assert forall i :: 0 <= i < |ts| ==> ts[i] in ts;
    AtMost(ts, from, window, gap);
  }
}

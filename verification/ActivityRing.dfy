/**
 The controller's activity feed: a ring buffer that stands for a plain history of events, newest last, of which only
 the newest are kept.
 */
module ActivityRing {
  import opened Basics
  import opened Text

  const DEFAULT_CAPACITY := 200
  const DEFAULT_LIST_LIMIT := 50
  const MAX_LIST_LIMIT := 100
  const HEARTBEAT_GAP_MS := 10_000
  const UINT64 := 0x1_0000_0000_0000_0000

  datatype Kind = HeartbeatReceived | CollectionEnqueued | CollectionRun

  datatype Event = Event(
    id: string, kind: Kind, summary: string, service: string, collectorType: string, sourceId: string,
    success: Option<bool>, unixMs: int)

  /******* The plain history *******/

  /** Every event ever recorded, and the sequence counter. */
  datatype Log = Log(history: seq<Event>, counter: nat)

  function Bumped(counter: nat): nat {
    (counter + 1) % UINT64
  }

  /** Recording fills in the time and the id when they are not given; only a missing id takes a number. */
  function Appended(l: Log, e: Event, nowMs: int): Log {
    var timed := if e.unixMs <= 0 then e.(unixMs := nowMs) else e;
    if e.id == "" then Log(l.history + [timed.(id := Decimal(Bumped(l.counter)))], Bumped(l.counter))
    else Log(l.history + [timed], l.counter)
  }

  function ClampListLimit(limit: int): (r: nat)
    ensures 1 <= r <= MAX_LIST_LIMIT
  {
    if limit <= 0 then DEFAULT_LIST_LIMIT
    else if limit > MAX_LIST_LIMIT then MAX_LIST_LIMIT
    else limit
  }

  /** The last `n` events, or all of them if there are fewer, newest first. */
  function Newest(history: seq<Event>, n: nat): (r: seq<Event>)
    ensures |r| == Min(n, |history|)
    ensures forall i :: 0 <= i < |r| ==> r[i] == history[|history| - 1 - i]
  {
    seq(Min(n, |history|), i requires 0 <= i < Min(n, |history|) => history[|history| - 1 - i])
  }

  function AppendedAll(l: Log, events: seq<(Event, int)>): Log {
    if events == [] then l
    else Appended(AppendedAll(l, events[..|events| - 1]), events[|events| - 1].0, events[|events| - 1].1)
  }

  /** Events recorded without an id are numbered in order. */
  lemma {:induction false} IdsAreConsecutive(events: seq<(Event, int)>)
    requires forall e :: e in events ==> e.0.id == ""
    ensures var l := AppendedAll(Log([], 0), events);
      && |l.history| == |events| && l.counter == |events| % UINT64
      && forall i :: 0 <= i < |events| ==> l.history[i].id == Decimal((i + 1) % UINT64)
  {
    hide Decimal, Appended;
    if events != [] {
      var n := |events| - 1;
      IdsAreConsecutive(events[..n]);
      assert events[n] in events;
      NumberedNext(AppendedAll(Log([], 0), events[..n]), events[n].0, events[n].1);
      NextNumber(n);
    }
  }

  /** An event without an id takes the next number. */
  lemma NumberedNext(l: Log, e: Event, nowMs: int)
    requires e.id == ""
    ensures var l' := Appended(l, e, nowMs);
      && |l'.history| == |l.history| + 1 && l'.history[..|l.history|] == l.history
      && l'.counter == Bumped(l.counter) && l'.history[|l.history|].id == Decimal(Bumped(l.counter))
  {
    hide Decimal;
  }

  lemma NextNumber(n: nat)
    ensures Bumped(n % UINT64) == (n + 1) % UINT64
  {
  }

  /** The feed shows them descending from the counter. */
  lemma ListedIdsDescend(events: seq<(Event, int)>, n: nat, i: nat)
    requires forall e :: e in events ==> e.0.id == ""
    requires i < |Newest(AppendedAll(Log([], 0), events).history, n)|
    ensures var l := AppendedAll(Log([], 0), events);
      Newest(l.history, n)[i].id == Decimal((|events| - i) % UINT64)
    ensures var l := AppendedAll(Log([], 0), events);
      i == 0 ==> Newest(l.history, n)[i].id == Decimal(l.counter)
  {
    hide Decimal;
    IdsAreConsecutive(events);
  }

  /** Whether a heartbeat is accepted: it is the service's first, or far enough behind the last accepted one. */
  predicate Accepts(last: map<string, int>, service: string, unixMs: int, gapMs: int) {
    service !in last || unixMs - last[service] >= gapMs
  }

  /** A limit from 1 to 100 is kept; none given means 50, more than 100 means 100. */
  lemma ClampIs(limit: int)
    ensures 1 <= limit <= 100 ==> ClampListLimit(limit) == limit
    ensures limit <= 0 ==> ClampListLimit(limit) == 50
    ensures limit > 100 ==> ClampListLimit(limit) == 100
  {
  }

  /** What recording changes of an event: a missing time, a missing id and nothing else. */
  lemma RecordedEvent(l: Log, e: Event, nowMs: int)
    ensures var l' := Appended(l, e, nowMs);
      && |l'.history| == |l.history| + 1 && l'.history[..|l.history|] == l.history
      && var x := l'.history[|l.history|];
         && x == e.(id := x.id, unixMs := x.unixMs)
         && x.unixMs == (if e.unixMs > 0 then e.unixMs else nowMs)
         && (e.id != "" ==> x.id == e.id && l'.counter == l.counter)
         && (e.id == "" ==> l'.counter == (l.counter + 1) % 0x1_0000_0000_0000_0000 && NumberOf(x.id) == l'.counter)
  {
    hide Decimal;
    DecimalIsRead(Bumped(l.counter));
  }

  lemma SmallMod(x: nat, m: nat)
    requires 0 < m && x < 2 * m
    ensures x % m == if x < m then x else x - m
  {
    if x >= m {
      assert x == 1 * m + (x - m);
      assert x / m == 1;
    }
  }

  /******* The ring *******/

  /** Where the k-th newest event is, when the next one goes to `next`. */
  function SlotOf(next: nat, cap: nat, k: int): int {
    if k < next then next - 1 - k else next - 1 - k + cap
  }

  class Ring {
    const cap: nat
    const gapMs: int
    var buf: array<Event>
    var next: nat
    var full: bool
    var counter: nat
    var lastHeartbeat: map<string, int>
    /** Everything ever recorded; the buffer holds its end. */
    ghost var history: seq<Event>

    ghost predicate Valid()
      reads this, buf
    {
      && 0 < cap == buf.Length && next < cap
      && (full ==> |history| >= cap)
      && (!full ==> |history| == next)
      && forall k :: 0 <= k < (if full then cap else next) ==>
           buf[SlotOf(next, cap, k)] == history[|history| - 1 - k]
    }

    function FilledCount(): nat
      reads this
    {
      if full then cap else next
    }

    ghost function View(): Log
      reads this
    {
      Log(history, counter)
    }

    constructor (capacity: int, nothing: Event)
      ensures Valid() && fresh(buf)
      ensures cap == if capacity < 1 then DEFAULT_CAPACITY else capacity
      ensures View() == Log([], 0) && lastHeartbeat == map[] && gapMs == HEARTBEAT_GAP_MS
    {
      var size := if capacity < 1 then DEFAULT_CAPACITY else capacity;
      cap := size;
      gapMs := HEARTBEAT_GAP_MS;
      buf := new Event[size](i => nothing);
      next, full, counter := 0, false, 0;
      lastHeartbeat := map[];
      history := [];
    }

    method AppendLocked(e: Event)
      requires Valid()
      modifies this`next, this`full, this`history, buf
      ensures Valid() && history == old(history) + [e]
    {
      buf[next] := e;
      SmallMod(next + 1, cap);
      next := (next + 1) % cap;
      if next == 0 {
        full := true;
      }
      history := history + [e];
      forall k | 1 <= k < (if full then cap else next)
        ensures buf[SlotOf(next, cap, k)] == history[|history| - 1 - k]
      {
        assert SlotOf(next, cap, k) == SlotOf(old(next), cap, k - 1) != old(next);
      }
    }

    method Record(e: Event, nowMs: int)
      requires Valid()
      modifies this`next, this`full, this`history, this`counter, buf
      ensures Valid() && View() == Appended(old(View()), e, nowMs)
    {
      hide Decimal;
      var event := e;
      if event.unixMs <= 0 {
        event := event.(unixMs := nowMs);
      }
      if event.id == "" {
        counter := Bumped(counter);
        event := event.(id := Decimal(counter));
      }
      AppendLocked(event);
    }

    method AcceptHeartbeat(service: string, unixMs: int) returns (ok: bool)
      modifies this`lastHeartbeat
      ensures ok == Accepts(old(lastHeartbeat), service, unixMs, gapMs)
      ensures ok <==> service !in old(lastHeartbeat) || unixMs - old(lastHeartbeat)[service] >= gapMs
      ensures lastHeartbeat == if ok then old(lastHeartbeat)[service := unixMs] else old(lastHeartbeat)
    {
      if service in lastHeartbeat && unixMs - lastHeartbeat[service] < gapMs {
        return false;
      }
      lastHeartbeat := lastHeartbeat[service := unixMs];
      ok := true;
    }

    /** Records a heartbeat, unless its service is blank or has been heard from too recently. */
    method RecordHeartbeat(serviceName: string, summary: string, unixMs: int, nowMs: int)
      requires Valid()
      modifies this`next, this`full, this`history, this`counter, this`lastHeartbeat, buf
      ensures Valid()
      ensures var service, ms := Trim(serviceName), if unixMs <= 0 then nowMs else unixMs;
        if service == "" || (service in old(lastHeartbeat) && ms - old(lastHeartbeat)[service] < gapMs) then
          View() == old(View()) && lastHeartbeat == old(lastHeartbeat)
        else
          && lastHeartbeat == old(lastHeartbeat)[service := ms]
          && View() == Appended(old(View()), Event("", HeartbeatReceived, summary, service, "", "", None, ms), nowMs)
    {
      var service := Trim(serviceName);
      if service == "" {
        return;
      }
      var ms := if unixMs <= 0 then nowMs else unixMs;
      var ok := AcceptHeartbeat(service, ms);
      if !ok {
        return;
      }
      Record(Event("", HeartbeatReceived, summary, service, "", "", None, ms), nowMs);
    }

    method NewestSlice(limit: nat) returns (r: seq<Event>)
      requires Valid()
      ensures r == Newest(history, Min(limit, cap))
    {
      var n := FilledCount();
      if n == 0 {
        return [];
      }
      var count := if limit > n then n else limit;
      r := [];
      for i := 0 to count
        invariant |r| == i
        invariant forall k :: 0 <= k < i ==> r[k] == history[|history| - 1 - k]
      {
        SmallMod(next - 1 - i + cap, cap);
        var idx := (next - 1 - i + cap) % cap;
        assert idx == SlotOf(next, cap, i);
        r := r + [buf[idx]];
      }
    }

    /** Up to `limit` events, newest first: exactly the end of the history, reversed. */
    method List(limit: int) returns (r: seq<Event>)
      requires Valid()
      ensures r == Newest(history, Min(ClampListLimit(limit), cap))
    {
      r := NewestSlice(ClampListLimit(limit));
    }
  }
}

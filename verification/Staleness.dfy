/**
 Pipeline health: whether a collection source counts as stale, as the metrics gauge and as the RPC see it.

 Times and durations are nanoseconds; stored times are milliseconds. The age of the last success is exact for the
 gauge and in whole seconds, never negative, for the RPC. Floating-point rounding of the exact age is not modelled.
 */
module Staleness {
  import opened Basics
  import opened Text
  import opened CollectionSources

  const MS := 1_000_000
  const SECOND := 1_000_000_000
  const HOUR := 3600 * SECOND

  /** The zero time that a schedule without further activations answers with; before every real time. */
  const ZERO_TIME := -62135596800 * SECOND

  /** What the cron parser makes of a line: an error, or when the schedule is next active after a time. */
  datatype Cron = Unparsable | Schedule(next: int -> int)

  predicate HasSuccess(row: Row) {
    row.lastSuccess.Some? && row.lastSuccess.value > 0
  }

  /** Go rounds a duration towards zero when it is made a whole number of seconds. */
  function WholeSeconds(d: int): int {
    if d >= 0 then d / SECOND else -((-d) / SECOND)
  }

  /** The time between the next two activations, or an hour if there are none. */
  function CronInterval(next: int -> int, now: int): (interval: int)
    ensures interval > 0
  {
    var first := next(now);
    var following := next(first);
    if following > first then following - first else HOUR
  }

  function SourceIsStale(row: Row, now: int, successAge: int, interval: int): bool {
    if !HasSuccess(row) then true
    else if successAge < 0 then true
    else if successAge > 2 * interval then true
    else
      && row.lastRun.Some? && row.lastRun.value > 0
      && now - row.lastRun.value * MS <= 2 * interval
      && successAge > (2 * interval) / 2
  }

  function ExactAge(row: Row, now: int): int {
    if HasSuccess(row) then now - row.lastSuccess.value * MS else -SECOND
  }

  /** SecondsSinceLastSuccess, as a duration. */
  function RpcAge(row: Row, now: int): int {
    if HasSuccess(row) then Max(WholeSeconds(now - row.lastSuccess.value * MS), 0) * SECOND else 0
  }

  /** The verdict with a given age: disabled sources are never stale, unscheduled ones until they first succeed. */
  function Verdict(row: Row, cron: Cron, now: int, age: int): bool {
    if !row.settings.enabled then false
    else if Trim(row.settings.cronLine) == "" then !HasSuccess(row)
    else
      match cron
      case Unparsable => true
      case Schedule(next) => SourceIsStale(row, now, age, CronInterval(next, now))
  }

  function GaugeVerdict(row: Row, cron: Cron, now: int): bool {
    Verdict(row, cron, now, ExactAge(row, now))
  }

  function RpcVerdict(row: Row, cron: Cron, now: int): bool {
    Verdict(row, cron, now, RpcAge(row, now))
  }

  /** The scheduled, enabled sources with a success: the only ones whose age decides. */
  predicate AgeDecides(row: Row, cron: Cron) {
    row.settings.enabled && Trim(row.settings.cronLine) != "" && cron.Schedule? && HasSuccess(row)
  }

  /**
   On the rows that reports can produce, twice the interval never decides anything: a source is stale exactly when its
   last success is more than one interval old.
   */
  lemma StaleIffOneInterval(first: Settings, events: seq<Event>, now: int, interval: int)
    requires InOrder(Reports(events)) && HasSuccess(RowAfter(first, events)) && interval > 0
    requires ExactAge(RowAfter(first, events), now) >= 0
    ensures var row := RowAfter(first, events);
      SourceIsStale(row, now, ExactAge(row, now), interval) <==> ExactAge(row, now) > interval
  {
    ReachableIsNormal(first, events);
    hide RowAfter;
    assert Normal(RowAfter(first, events));
  }

  /** Between reports a source only becomes stale, as long as its interval stays the same. */
  lemma StaleStays(first: Settings, events: seq<Event>, now: int, later: int, interval: int)
    requires InOrder(Reports(events)) && HasSuccess(RowAfter(first, events)) && interval > 0
    requires ExactAge(RowAfter(first, events), now) >= 0 && now <= later
    requires SourceIsStale(RowAfter(first, events), now, ExactAge(RowAfter(first, events), now), interval)
    ensures SourceIsStale(RowAfter(first, events), later, ExactAge(RowAfter(first, events), later), interval)
  {
    hide RowAfter, Reports, SourceIsStale;
    StaleIffOneInterval(first, events, now, interval);
    StaleIffOneInterval(first, events, later, interval);
  }

  /**
   Exactly when the gauge and the RPC disagree about a reachable row: when the clock is behind the last success; within
   the second after one interval has passed; and within the second after two have, if the last run is that old too.
   */
  lemma VerdictsDifferIff(first: Settings, events: seq<Event>, cron: Cron, now: int)
    requires InOrder(Reports(events))
    ensures var row := RowAfter(first, events);
      GaugeVerdict(row, cron, now) != RpcVerdict(row, cron, now) <==>
        && AgeDecides(row, cron)
        && var age, interval := ExactAge(row, now), CronInterval(cron.next, now);
           || age < 0
           || (interval < age && RpcAge(row, now) <= interval)
           || (2 * interval < age && RpcAge(row, now) <= 2 * interval && RpcAge(row, now) > interval &&
               row.lastRun.Some? && now - row.lastRun.value * MS > 2 * interval)
  {
    ReachableIsNormal(first, events);
    var row := RowAfter(first, events);
    hide RowAfter, CronInterval, Trim;
    if AgeDecides(row, cron) {
      WholeSecondsBelow(ExactAge(row, now));
      NormalVerdicts(row, now, CronInterval(cron.next, now));
    }
  }

  /** The sources whose age does not count: disabled ones are never stale, a line that cannot be parsed always is, and
   without a line or a success a source is stale exactly until it first succeeds. */
  lemma AgelessVerdicts(row: Row, cron: Cron, now: int)
    requires !AgeDecides(row, cron)
    ensures GaugeVerdict(row, cron, now) == RpcVerdict(row, cron, now)
    ensures var succeeded := row.lastSuccess.Some? && row.lastSuccess.value > 0;
      GaugeVerdict(row, cron, now) <==>
        && row.settings.enabled
        && if Trim(row.settings.cronLine) == "" then !succeeded else cron.Unparsable? || !succeeded
  {
    hide Trim, CronInterval;
  }

  /** The interval is the time between the next two activations, if there are two more; else an hour. */
  lemma IntervalIs(next: int -> int, now: int)
    ensures next(next(now)) > next(now) ==> CronInterval(next, now) == next(next(now)) - next(now)
    ensures next(next(now)) <= next(now) ==> CronInterval(next, now) == 3_600_000_000_000
  {
  }

  /** Both verdicts on a reachable row whose age counts, from its times in milliseconds and the clock in nanoseconds. */
  lemma VerdictsAre(first: Settings, events: seq<Event>, next: int -> int, now: int)
    requires InOrder(Reports(events)) && AgeDecides(RowAfter(first, events), Schedule(next))
    ensures var row := RowAfter(first, events);
      && row.lastSuccess.Some? && row.lastRun.Some?
      && var age, interval := now - row.lastSuccess.value * 1_000_000, CronInterval(next, now);
         var seconds := if age >= 0 then age / 1_000_000_000 else 0;
         && (GaugeVerdict(row, Schedule(next), now) <==> age < 0 || age > interval)
         && (RpcVerdict(row, Schedule(next), now) <==>
               || seconds * 1_000_000_000 > 2 * interval
               || (seconds * 1_000_000_000 > interval && now - row.lastRun.value * 1_000_000 <= 2 * interval))
  {
    ReachableIsNormal(first, events);
    var row := RowAfter(first, events);
    hide RowAfter, CronInterval, Trim;
    NormalVerdictsAre(row, now, CronInterval(next, now));
  }

  lemma NormalVerdictsAre(row: Row, now: int, interval: int)
    requires Normal(row) && HasSuccess(row) && interval > 0
    ensures var age := now - row.lastSuccess.value * 1_000_000;
      var seconds := if age >= 0 then age / 1_000_000_000 else 0;
      && RpcAge(row, now) == seconds * 1_000_000_000
      && (SourceIsStale(row, now, ExactAge(row, now), interval) <==> age < 0 || age > interval)
      && (SourceIsStale(row, now, RpcAge(row, now), interval) <==>
            || seconds * 1_000_000_000 > 2 * interval
            || (seconds * 1_000_000_000 > interval && now - row.lastRun.value * 1_000_000 <= 2 * interval))
  {
    WholeSecondsBelow(ExactAge(row, now));
    assert (2 * interval) / 2 == interval;
  }

  lemma WholeSecondsBelow(d: int)
    ensures d >= 0 ==> WholeSeconds(d) * SECOND <= d < WholeSeconds(d) * SECOND + SECOND
    ensures d < 0 ==> WholeSeconds(d) <= 0
  {
  }

  lemma NormalVerdicts(row: Row, now: int, interval: int)
    requires Normal(row) && HasSuccess(row) && interval > 0
    ensures var age, rpc := ExactAge(row, now), RpcAge(row, now);
      SourceIsStale(row, now, age, interval) != SourceIsStale(row, now, rpc, interval) <==>
        || age < 0
        || (interval < age && rpc <= interval)
        || (2 * interval < age && rpc <= 2 * interval && rpc > interval && now - row.lastRun.value * MS > 2 * interval)
  {
    WholeSecondsBelow(ExactAge(row, now));
    assert (2 * interval) / 2 == interval;
  }

  /** For an interval of whole seconds, as every cron schedule has, those are the first second after the threshold. */
  lemma WithinOneSecond(row: Row, now: int, threshold: int)
    requires HasSuccess(row) && ExactAge(row, now) >= 0 && threshold >= 0 && threshold % SECOND == 0
    ensures threshold < ExactAge(row, now) && RpcAge(row, now) <= threshold <==>
      threshold < ExactAge(row, now) < threshold + SECOND
  {
    var age := ExactAge(row, now);
    WholeSecondsBelow(age);
    assert threshold == threshold / SECOND * SECOND;
  }
}

/**
 The collector's poller: which sources a tick starts, and how the due time each run reports spaces the runs of one
 source along the activations of its schedule.

 Times are nanoseconds; due times are stored in milliseconds.
 */
module Scheduler {
  import opened Basics
  import opened Text
  import opened CollectionSources
  import opened Staleness

  /** collectionSourceDue: never without a cron line, always without a due time, else once that time has come. */
  predicate Due(row: Row, now: int) {
    && Trim(row.settings.cronLine) != ""
    && (row.nextDue.None? || row.nextDue.value <= 0 || now >= row.nextDue.value * MS)
  }

  /** nextDueForReport, in milliseconds; Go's UnixMilli rounds down. */
  function NextDue(next: int -> int, base: int, runNowOnly: bool): int {
    if runNowOnly then 0 else next(base) / MS
  }

  /** One tick: the enabled sources that are due, in order. */
  method PollTick(sources: seq<Row>, now: int) returns (started: seq<Row>)
    ensures started == Filter((row: Row) => row.settings.enabled && Due(row, now), sources)
    ensures forall row :: row in started ==> Trim(row.settings.cronLine) != "" && row.settings.enabled
  {
    hide Due;
    started := [];
    ghost var starts := (row: Row) => row.settings.enabled && Due(row, now);
    for i := 0 to |sources|
      invariant started == Filter(starts, sources[..i])
    {
      var src := sources[i];
      FilterAppend(starts, sources[..i], [src]);
      assert sources[..i + 1] == sources[..i] + [src];
      if !src.settings.enabled {
        continue;
      }
      if !Due(src, now) {
        continue;
      }
      started := started + [src];
    }
    assert sources[..|sources|] == sources;
    forall row | row in started
      ensures Trim(row.settings.cronLine) != "" && row.settings.enabled
    {
      FilterKeeps(starts, sources, row);
      DueHasCron(row, now);
    }
  }

  lemma DueHasCron(row: Row, now: int)
    ensures Due(row, now) ==> Trim(row.settings.cronLine) != ""
  {
  }

  /******* The runs of one source *******/

  /** A run begun at `now` and reported at `end`. A run that fails early reports the due time computed when it began. */
  datatype Run = Run(polled: bool, now: int, end: int, early: bool, success: bool)

  /** The time the reported due time is computed from. */
  function Base(r: Run): int {
    if r.early then r.now else r.end
  }

  function ReportOfRun(r: Run, next: int -> int, runNowOnly: bool): Report {
    Report(r.end / MS, r.success, "", NextDue(next, Base(r), runNowOnly))
  }

  /** The row once the runs have been reported; settings stay as they are. */
  function RowAfterRuns(row: Row, runs: seq<Run>, next: int -> int): Row {
    if runs == [] then row
    else
      var last := runs[|runs| - 1];
      Reported(RowAfterRuns(row, runs[..|runs| - 1], next), ReportOfRun(last, next, Trim(row.settings.cronLine) == ""))
  }

  /** Runs one after the other, manual ones too; the poller starts one only when the source is due. */
  ghost predicate Sequential(row: Row, runs: seq<Run>, next: int -> int) {
    && (forall i :: 0 <= i < |runs| ==> 0 <= runs[i].now <= runs[i].end)
    && (forall i :: 0 < i < |runs| ==> runs[i - 1].end <= runs[i].now)
    && (forall i :: 0 <= i < |runs| && runs[i].polled ==> Due(RowAfterRuns(row, runs[..i], next), runs[i].now))
  }

  /** Activations come after the time asked about, at whole milliseconds. */
  ghost predicate Advances(next: int -> int) {
    forall t {:trigger next(t)} :: 0 <= t ==> t < next(t) && next(t) % MS == 0
  }

  ghost predicate IsActivation(next: int -> int, t: int) {
    exists s {:trigger next(s)} :: next(s) == t
  }

  lemma {:induction false} SettingsStay(row: Row, runs: seq<Run>, next: int -> int)
    ensures RowAfterRuns(row, runs, next).settings == row.settings
  {
    if runs != [] {
      SettingsStay(row, runs[..|runs| - 1], next);
    }
  }

  lemma {:induction false} EndsInOrder(row: Row, runs: seq<Run>, next: int -> int, i: nat, j: nat)
    requires Sequential(row, runs, next) && i < j < |runs|
    ensures runs[i].end <= runs[j].now
    decreases j
  {
    if i < j - 1 {
      EndsInOrder(row, runs, next, i, j - 1);
    }
  }

  /** Between two runs that the poller starts lies an activation of the schedule. */
  lemma ActivationBetween(row: Row, runs: seq<Run>, next: int -> int, i: nat, j: nat) returns (a: int)
    requires Sequential(row, runs, next) && Advances(next) && i < j < |runs| && runs[j].polled
    ensures IsActivation(next, a) && runs[i].now < a <= runs[j].now
  {
    hide Trim;
    var before := runs[..j];
    var last := runs[j - 1];
    assert before[j - 1] == last && before[..j - 1] == runs[..j - 1];
    SettingsStay(row, before, next);
    a := next(Base(last));
    assert a / MS * MS == a;
    if i < j - 1 {
      EndsInOrder(row, runs, next, i, j - 1);
    }
  }

  /** A source without a cron line is never started by the poller. */
  lemma NeverPolled(row: Row, runs: seq<Run>, next: int -> int, i: nat)
    requires Sequential(row, runs, next) && Trim(row.settings.cronLine) == "" && i < |runs|
    ensures !runs[i].polled
  {
    hide Trim;
    SettingsStay(row, runs[..i], next);
  }

  /** The activations within a window. */
  ghost function Activations(next: int -> int, from: int, to: int): set<int> {
    set t | from <= t <= to && IsActivation(next, t)
  }

  /** `polls` are polled runs of the sequence, in order, begun within the window. */
  ghost predicate PollsWithin(runs: seq<Run>, polls: seq<nat>, from: int, to: int) {
    && (forall k :: 0 <= k < |polls| ==>
          polls[k] < |runs| && runs[polls[k]].polled && from <= runs[polls[k]].now <= to)
    && (forall k :: 0 < k < |polls| ==> polls[k - 1] < polls[k])
  }

  /** For each poll after the first an activation of its own, ascending. */
  lemma {:induction false} ActivationsOf(
    row: Row, runs: seq<Run>, next: int -> int, polls: seq<nat>, from: int, to: int) returns (found: seq<int>)
    requires Sequential(row, runs, next) && Advances(next) && PollsWithin(runs, polls, from, to) && polls != []
    ensures |found| == |polls| - 1
    ensures forall k :: 0 <= k < |found| ==>
      IsActivation(next, found[k]) && from <= found[k] <= runs[polls[|polls| - 1]].now
    ensures forall k, l :: 0 <= k < l < |found| ==> found[k] < found[l]
  {
    hide Sequential, Advances, IsActivation;
    if |polls| == 1 {
      found := [];
    } else {
      var n := |polls| - 1;
      found := ActivationsOf(row, runs, next, polls[..n], from, to);
      var a := ActivationBetween(row, runs, next, polls[n - 1], polls[n]);
      assert runs[polls[n - 1]].now <= runs[polls[n]].now;
      found := found + [a];
    }
  }

  /** In any window the poller starts a source at most once more than its schedule is active. */
  lemma PolledRunsBounded(row: Row, runs: seq<Run>, next: int -> int, polls: seq<nat>, from: int, to: int)
    requires Sequential(row, runs, next) && Advances(next) && PollsWithin(runs, polls, from, to)
    ensures |polls| <= |Activations(next, from, to)| + 1
  {
    hide Sequential, Advances, IsActivation;
    if polls != [] {
      var found := ActivationsOf(row, runs, next, polls, from, to);
      DistinctSize(found);
      var all := set a | a in found;
      forall a | a in all
        ensures a in Activations(next, from, to)
      {
        var k :| 0 <= k < |found| && found[k] == a;
      }
      SubsetSize(all, Activations(next, from, to));
    }
  }

  /** A source that has not reported a due time yet is due at once, if it has a cron line. */
  lemma DueAtFirst(row: Row, now: int)
    requires row.nextDue.None?
    ensures Due(row, now) <==> Trim(row.settings.cronLine) != ""
  {
    hide Trim;
  }

  /** What a run reports: its end in milliseconds, its outcome, and, for a scheduled source, the next activation after
   its end, or after its beginning if it failed early. */
  lemma ReportedDue(row: Row, next: int -> int, run: Run)
    ensures var row' := RowAfterRuns(row, [run], next);
      var due := next(if run.early then run.now else run.end) / 1_000_000;
      && row'.lastRun == Some(run.end / 1_000_000)
      && (run.success ==> row'.lastSuccess == row'.lastRun) && (!run.success ==> row'.lastSuccess == row.lastSuccess)
      && row'.nextDue == if Trim(row.settings.cronLine) != "" && due > 0 then Some(due) else None
  {
    hide Trim;
    assert [run][..0] == [];
    assert RowAfterRuns(row, [], next) == row;
  }

  /** Exactly when a source is due after a run: when the due time reported is none at all, or has come. */
  lemma DueAgainIff(row: Row, next: int -> int, run: Run, now: int)
    requires Trim(row.settings.cronLine) != ""
    ensures Due(RowAfterRuns(row, [run], next), now) <==>
      var due := next(if run.early then run.now else run.end) / 1_000_000; due <= 0 || now >= due * 1_000_000
  {
    hide Trim;
    assert [run][..0] == [];
    assert RowAfterRuns(row, [], next) == row;
    assert RowAfterRuns(row, [run], next) == Reported(row, ReportOfRun(run, next, false));
  }

  /** So every tick starts the source exactly when the schedule's answer lies before the first millisecond of 1970. */
  lemma AlwaysDueIff(row: Row, next: int -> int, run: Run)
    requires Trim(row.settings.cronLine) != ""
    ensures (forall now :: now >= 0 ==> Due(RowAfterRuns(row, [run], next), now)) <==> next(Base(run)) < MS
  {
    hide Trim, Due, RowAfterRuns;
    var due := next(Base(run)) / MS;
    DueAgainIff(row, next, run, 0);
    forall now: int | due <= 0
      ensures Due(RowAfterRuns(row, [run], next), now)
    {
      DueAgainIff(row, next, run, now);
    }
    assert next(Base(run)) < MS <==> due <= 0;
  }

  /** A schedule that is never active again answers with the zero time, which is stored as no due time at all. */
  lemma ExhaustedIsAlwaysDue(row: Row, next: int -> int, run: Run, now: int)
    requires Trim(row.settings.cronLine) != "" && next(Base(run)) == ZERO_TIME
    ensures Due(RowAfterRuns(row, [run], next), now)
  {
    hide Trim, Due, RowAfterRuns;
    DueAgainIff(row, next, run, now);
  }
}

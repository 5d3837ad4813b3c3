/**
 The controller's table of collection sources: rows created and changed by upserts, updated by the reports of
 collection runs, and deleted. Times are Unix milliseconds.
 */
module CollectionSources {
  import opened Basics
  import opened Text

  datatype Settings = Settings(collectorType: string, sourceSpec: string, cronLine: string, enabled: bool)

  datatype Row = Row(
    settings: Settings, lastRun: Option<int>, lastSuccess: Option<int>, lastError: Option<string>, nextDue: Option<int>)

  datatype Error =
    | TypeRequired | SpecRequired | BadCron | NoRandomId | EmptyId | InvalidRun | NotFound

  datatype Result<+T> = Ok(value: T) | Err(error: Error)

  datatype Report = Report(runMs: int, success: bool, error: string, nextDueMs: int)

  function TrimmedSettings(s: Settings): Settings {
    Settings(Trim(s.collectorType), Trim(s.sourceSpec), Trim(s.cronLine), s.enabled)
  }

  /** An empty cron line is allowed: the source is only run on request. */
  predicate CronAccepted(line: string, parses: bool) {
    line == "" || (|line| <= 256 && parses)
  }

  function SettingsError(s: Settings, parses: bool): Option<Error> {
    if s.collectorType == "" then Some(TypeRequired)
    else if s.sourceSpec == "" then Some(SpecRequired)
    else if !CronAccepted(s.cronLine, parses) then Some(BadCron)
    else None
  }

  /** An insert starts without any run; an update of an existing row keeps everything but the settings. */
  function Upserted(row: Option<Row>, s: Settings): Row {
    if row.Some? then row.value.(settings := s) else Row(s, None, None, None, None)
  }

  function Reported(row: Row, r: Report): Row {
    var nextDue := if r.nextDueMs > 0 then Some(r.nextDueMs) else None;
    if r.success then
      row.(lastRun := Some(r.runMs), lastSuccess := Some(r.runMs), lastError := None, nextDue := nextDue)
    else
      row.(lastRun := Some(r.runMs), lastError := Some(r.error), nextDue := nextDue)
  }

  class Store {
    var rows: map<string, Row>

    constructor ()
      ensures rows == map[]
    {
      rows := map[];
    }

    /** `parses` is the verdict of the cron parser on the line, `random` an id to use when none is given. */
    method Upsert(id: string, settings: Settings, parses: bool, random: Option<string>) returns (r: Result<Row>)
      modifies this
      ensures var kind, spec, cron := Trim(settings.collectorType), Trim(settings.sourceSpec), Trim(settings.cronLine);
        var badCron := cron != "" && (|cron| > 256 || !parses);
        && (r.Ok? <==> kind != "" && spec != "" && !badCron && (Trim(id) != "" || random.Some?))
        && (r.Err? ==>
              && rows == old(rows)
              && r.error == if kind == "" then TypeRequired else if spec == "" then SpecRequired
                            else if badCron then BadCron else NoRandomId)
        && (r.Ok? ==>
              && r.value.settings == Settings(kind, spec, cron, settings.enabled)
              && var key := if Trim(id) != "" then Trim(id) else random.value;
              && rows == old(rows)[key := r.value]
              && (key in old(rows) ==> r.value == old(rows)[key].(settings := r.value.settings))
              && (key !in old(rows) ==> r.value == Row(r.value.settings, None, None, None, None)))
      ensures var s := TrimmedSettings(settings);
        var key := if Trim(id) != "" then Some(Trim(id)) else random;
        if SettingsError(s, parses).Some? then r == Err(SettingsError(s, parses).value) && rows == old(rows)
        else if key.None? then r == Err(NoRandomId) && rows == old(rows)
        else
          var before := if key.value in old(rows) then Some(old(rows)[key.value]) else None;
          r == Ok(Upserted(before, s)) && rows == old(rows)[key.value := Upserted(before, s)]
    {
      hide Trim;
      var s := TrimmedSettings(settings);
      if s.collectorType == "" {
        return Err(TypeRequired);
      }
      if s.sourceSpec == "" {
        return Err(SpecRequired);
      }
      if !CronAccepted(s.cronLine, parses) {
        return Err(BadCron);
      }
      var key := Trim(id);
      if key == "" {
        if random.None? {
          return Err(NoRandomId);
        }
        key := random.value;
      }
      if key in rows {
        rows := rows[key := rows[key].(settings := s)];
      } else {
        rows := rows[key := Row(s, None, None, None, None)];
      }
      r := Ok(rows[key]);
    }

    /**
     Records a run. The server counts the rows a statement has changed, not those it has matched, so a report that
     changes nothing is answered like one for a row that is not there; the row is as reported all the same.
     */
    method ReportRun(id: string, report: Report) returns (r: Result<()>)
      modifies this
      ensures Trim(id) == "" ==> r == Err(EmptyId) && rows == old(rows)
      ensures Trim(id) != "" && report.runMs <= 0 ==> r == Err(InvalidRun) && rows == old(rows)
      ensures Trim(id) != "" && report.runMs > 0 && Trim(id) in old(rows) ==>
        && rows == old(rows)[Trim(id) := Reported(old(rows)[Trim(id)], report)]
        && var before, now := old(rows)[Trim(id)], rows[Trim(id)];
           && now.settings == before.settings && now.lastRun == Some(report.runMs)
           && now.lastSuccess == (if report.success then Some(report.runMs) else before.lastSuccess)
           && now.lastError == (if report.success then None else Some(report.error))
           && now.nextDue == (if report.nextDueMs > 0 then Some(report.nextDueMs) else None)
      ensures Trim(id) != "" && report.runMs > 0 && Trim(id) !in old(rows) ==> rows == old(rows)
      ensures Trim(id) != "" && report.runMs > 0 ==>
        && (r.Ok? <==>
              Trim(id) in old(rows) && Reported(old(rows)[Trim(id)], report) != old(rows)[Trim(id)])
        && (r.Err? ==> r.error.NotFound? && rows == old(rows))
    {
      hide Trim;
      var key := Trim(id);
      if key == "" {
        return Err(EmptyId);
      }
      if report.runMs <= 0 {
        return Err(InvalidRun);
      }
      var nextDue := None;
      if report.nextDueMs > 0 {
        nextDue := Some(report.nextDueMs);
      }
      var changed := 0;
      if key in rows {
        var row := rows[key];
        if report.success {
          row := row.(
            lastRun := Some(report.runMs), lastSuccess := Some(report.runMs), lastError := None, nextDue := nextDue);
        } else {
          row := row.(lastRun := Some(report.runMs), lastError := Some(report.error), nextDue := nextDue);
        }
        if row != rows[key] {
          changed := 1;
        }
        rows := rows[key := row];
      }
      if changed == 0 {
        return Err(NotFound);
      }
      r := Ok(());
    }

    method Delete(id: string) returns (r: Result<()>)
      modifies this
      ensures Trim(id) == "" ==> r == Err(EmptyId) && rows == old(rows)
      ensures Trim(id) != "" ==>
        rows == old(rows) - {Trim(id)} && r == if Trim(id) in old(rows) then Ok(()) else Err(NotFound)
    {
      hide Trim;
      var key := Trim(id);
      if key == "" {
        return Err(EmptyId);
      }
      if key !in rows {
        assert rows - {key} == rows;
        return Err(NotFound);
      }
      rows := rows - {key};
      r := Ok(());
    }
  }

  /** So a report that is sent twice is refused the second time, whatever it says, for a row that is there. */
  lemma RepeatedReportChangesNothing(row: Row, report: Report)
    ensures Reported(Reported(row, report), report) == Reported(row, report)
  {
  }

  /******* The life of a row *******/

  datatype Event = Changed(settings: Settings) | Ran(report: Report)

  /** A row that was inserted with some settings and has then been through `events`. */
  function RowAfter(first: Settings, events: seq<Event>): Row {
    if events == [] then Upserted(None, first)
    else
      var before := RowAfter(first, events[..|events| - 1]);
      match events[|events| - 1]
      case Changed(s) => Upserted(Some(before), s)
      case Ran(r) => Reported(before, r)
  }

  function ReportOf(e: Event): seq<Report> {
    if e.Ran? then [e.report] else []
  }

  function Reports(events: seq<Event>): seq<Report> {
    if events == [] then [] else Reports(events[..|events| - 1]) + ReportOf(events[|events| - 1])
  }

  function LastSuccess(reports: seq<Report>): Option<int> {
    if reports == [] then None
    else if reports[|reports| - 1].success then Some(reports[|reports| - 1].runMs)
    else LastSuccess(reports[..|reports| - 1])
  }

  /** The settings last given. */
  function LastSettings(first: Settings, events: seq<Event>): Settings {
    if events == [] then first
    else if events[|events| - 1].Changed? then events[|events| - 1].settings
    else LastSettings(first, events[..|events| - 1])
  }

  /** A row holds the times of its last run and last success, an error exactly when its last run failed, and the next
   due time its last report gave; changing its settings touches none of them. */
  lemma {:induction false} RowHoldsReports(first: Settings, events: seq<Event>)
    ensures var row, rs := RowAfter(first, events), Reports(events);
      && row.lastRun == (if rs == [] then None else Some(rs[|rs| - 1].runMs))
      && row.lastSuccess == LastSuccess(rs)
      && (row.lastError.None? <==> rs == [] || rs[|rs| - 1].success)
      && (row.lastError.Some? ==> row.lastError == Some(rs[|rs| - 1].error))
      && row.settings == LastSettings(first, events)
      && row.nextDue == (if rs != [] && rs[|rs| - 1].nextDueMs > 0 then Some(rs[|rs| - 1].nextDueMs) else None)
  {
    if events != [] {
      RowHoldsReports(first, events[..|events| - 1]);
      var before := Reports(events[..|events| - 1]);
      if events[|events| - 1].Ran? {
        assert (before + [events[|events| - 1].report])[..|before|] == before;
      } else {
        assert before + [] == before;
      }
    }
  }

  /** Run times are positive (anything else is refused) and never go back. */
  ghost predicate InOrder(reports: seq<Report>) {
    && (forall i :: 0 <= i < |reports| ==> reports[i].runMs > 0)
    && (forall i, j :: 0 <= i < j < |reports| ==> reports[i].runMs <= reports[j].runMs)
  }

  /** No success is later than the last run. */
  ghost predicate Normal(row: Row) {
    && (row.lastRun.Some? ==> row.lastRun.value > 0)
    && (row.lastSuccess.Some? ==> row.lastRun.Some? && 0 < row.lastSuccess.value <= row.lastRun.value)
  }

  lemma ReachableIsNormal(first: Settings, events: seq<Event>)
    requires InOrder(Reports(events))
    ensures Normal(RowAfter(first, events))
  {
    RowHoldsReports(first, events);
    if LastSuccess(Reports(events)).Some? {
      LastSuccessInOrder(Reports(events));
    }
  }

  lemma {:induction false} LastSuccessInOrder(reports: seq<Report>)
    requires InOrder(reports) && LastSuccess(reports).Some?
    ensures reports != [] && 0 < LastSuccess(reports).value <= reports[|reports| - 1].runMs
  {
    if !reports[|reports| - 1].success {
      LastSuccessInOrder(reports[..|reports| - 1]);
    }
  }
}

/**
 The issue cache against the remote issue list it stands for, over whole runs: the remote list changes, collections
 probe it, fetch what changed lately, merge and save.
 */
module IssueSync {
  import opened Basics
  import opened Text
  import opened IssueCache

  /** What the disk and the API answer during one collection. `listing` is asked with the time to list from, 0 for none;
   None is an error. */
  datatype Answers = Answers(
    loads: bool, page: Option<seq<Option<Issue>>>, listing: int -> Option<seq<Option<Issue>>>, saves: bool)

  datatype Outcome = Hit(cached: nat) | FetchFailed | Collected(publish: seq<Issue>, skipped: nat)

  /** The time from which changes are asked for: a little before the newest one known. */
  function Since(cache: Option<CacheFile>): int {
    if cache.Some? && cache.value.latestAt != 0 then cache.value.latestAt - OVERLAP else 0
  }

  function Loaded(file: Option<CacheFile>, a: Answers): Option<CacheFile> {
    if a.loads then file else None
  }

  /** The probe finds the newest remote issue to be the newest cached one. */
  predicate ProbeHits(cache: Option<CacheFile>, a: Answers) {
    && cache.Some? && cache.value.issues != map[]
    && a.page.Some? && FirstNonPR(a.page.value).Some?
    && ListUnchanged(cache.value, FirstNonPR(a.page.value).value)
  }

  /** One collection, as a relation between the cache file before and after it. */
  ghost predicate CollectRelation(
    file: Option<CacheFile>, repoUid: string, a: Answers, file': Option<CacheFile>, r: Outcome) {
    var cache := Loaded(file, a);
    if ProbeHits(cache, a) then file' == file && r == Hit(|cache.value.issues|)
    else if a.listing(Since(cache)).None? then file' == file && r.FetchFailed?
    else
      var m := MergeAll(Entries(cache), repoUid, a.listing(Since(cache)).value);
      && r == Collected(m.publish, m.skipped)
      && if a.saves
         then file'.Some? && file'.value.issues == m.issues && MarkerRight(file'.value) && "" !in file'.value.issues
         else file' == file
  }

  /** The file is read, holds issues, and its marker is the probed issue, with its time. */
  ghost predicate HitsOn(file: Option<CacheFile>, a: Answers) {
    && a.loads && file.Some? && file.value.issues != map[] && a.page.Some? && FirstNonPR(a.page.value).Some?
    && var p := FirstNonPR(a.page.value).value;
       p.nodeId != "" && p.nodeId == file.value.latestId && p.updatedAt == file.value.latestAt != 0
  }

  /** Two minutes before the marker of the file, if it is read and has one; else from the beginning. */
  function ListedFrom(file: Option<CacheFile>, a: Answers): int {
    if a.loads && file.Some? && file.value.latestAt != 0 then file.value.latestAt - 120 else 0
  }

  class IssueCollector {
    var file: Option<CacheFile>

    constructor (initial: Option<CacheFile>)
      ensures file == initial
    {
      file := initial;
    }

    method Collect(repoUid: string, a: Answers) returns (r: Outcome)
      requires file.Some? ==> "" !in file.value.issues
      modifies this
      ensures CollectRelation(old(file), repoUid, a, file, r)
      ensures file.Some? ==> "" !in file.value.issues
      ensures r.Hit? <==> HitsOn(old(file), a)
      ensures r.FetchFailed? <==> !HitsOn(old(file), a) && a.listing(ListedFrom(old(file), a)).None?
      ensures r.Hit? ==> r.cached == |old(file).value.issues|
      ensures r.Collected? ==>
        var prior, fetched := if a.loads then Entries(old(file)) else map[], a.listing(ListedFrom(old(file), a)).value;
        r.publish == News(prior, repoUid, fetched) && r.skipped == NoNews(prior, repoUid, fetched)
      ensures file != old(file) ==> r.Collected? && a.saves
    {
      hide MergeAll, MarkerRight, News, NoNews;
      var cache := if a.loads then file else None;
      if cache.Some? && |cache.value.issues| > 0 {
        if a.page.Some? {
          var probe := FirstNonPR(a.page.value);
          if probe.Some? && ListUnchanged(cache.value, probe.value) {
            return Hit(|cache.value.issues|);
          }
        }
      }
      var since := 0;
      if cache.Some? && cache.value.latestAt != 0 {
        since := cache.value.latestAt - OVERLAP;
      }
      var fetched := a.listing(since);
      if fetched.None? {
        return FetchFailed;
      }
      var publish, merged, skipped := MergeIssueCache(cache, fetched.value, repoUid);
      if a.saves {
        file := Some(merged);
      }
      r := Collected(publish, skipped);
    }
  }

  /******* The remote side *******/

  /** `remote` are the repository's issues (no pull requests) by key; `clock` is the newest time it has ever stamped. */
  datatype World = World(remote: map<string, Issue>, clock: nat, file: Option<CacheFile>)

  ghost predicate ValidIssue(repoUid: string, key: string, issue: Issue) {
    && !issue.pullRequest && IssueKey(repoUid, issue) == key != "" && issue.updatedAt != 0 && issue.marshals
  }

  ghost predicate ValidRemote(repoUid: string, remote: map<string, Issue>) {
    forall key :: key in remote ==> ValidIssue(repoUid, key, remote[key])
  }

  ghost predicate Wanted(issue: Issue, since: int) {
    since == 0 || issue.updatedAt >= since
  }

  /** Every usable issue listed is one of the remote ones, as it is now. */
  ghost predicate FetchesFrom(repoUid: string, remote: map<string, Issue>, fetched: seq<Option<Issue>>) {
    forall f :: f in fetched && Usable(repoUid, f) ==>
      IssueKey(repoUid, f.value) in remote && remote[IssueKey(repoUid, f.value)] == f.value
  }

  /** A complete listing: exactly the remote issues changed since then, among pull requests and issues without a key. */
  ghost predicate Lists(repoUid: string, remote: map<string, Issue>, since: int, fetched: seq<Option<Issue>>) {
    && FetchesFrom(repoUid, remote, fetched)
    && (forall key :: key in remote && Wanted(remote[key], since) ==> Some(remote[key]) in fetched)
  }

  /** The first issue on the probed page, if there is one, is a newest one. */
  ghost predicate ProbesNewest(repoUid: string, remote: map<string, Issue>, page: seq<Option<Issue>>) {
    FirstNonPR(page).Some? ==>
      var p := FirstNonPR(page).value;
      && (IssueKey(repoUid, p) != "" ==> IssueKey(repoUid, p) in remote && remote[IssueKey(repoUid, p)] == p)
      && (forall key :: key in remote ==> remote[key].updatedAt <= p.updatedAt)
  }

  /** The answers are those of this remote list, and no page of it is cut off. */
  ghost predicate Truthful(repoUid: string, remote: map<string, Issue>, a: Answers, since: int) {
    && (a.page.Some? ==> ProbesNewest(repoUid, remote, a.page.value))
    && (a.listing(since).Some? ==> Lists(repoUid, remote, since, a.listing(since).value))
  }

  ghost predicate Collects(repoUid: string, w: World, a: Answers, r: Outcome, w': World) {
    && Truthful(repoUid, w.remote, a, Since(Loaded(w.file, a)))
    && CollectRelation(w.file, repoUid, a, w'.file, r)
    && w'.remote == w.remote && w'.clock == w.clock
  }

  /** An issue appears or changes, stamped no earlier than the overlap before the newest time the cache knows. */
  ghost predicate Changes(repoUid: string, w: World, key: string, issue: Issue, w': World) {
    && ValidIssue(repoUid, key, issue)
    && (w.file.Some? && w.file.value.latestAt != 0 ==> issue.updatedAt >= w.file.value.latestAt - OVERLAP)
    && w'.remote == w.remote[key := issue] && w'.clock == Max(w.clock, issue.updatedAt) && w'.file == w.file
  }

  /** The key's cached time is not the remote one. */
  ghost predicate Disagrees(w: World, key: string) {
    key in w.remote && (w.file.None? || Stamp(w.file.value.issues, key) != Some(w.remote[key].updatedAt))
  }

  /** The cached times are the remote times, for every key there is. */
  ghost predicate InStep(w: World) {
    && w.file.Some?
    && forall key :: Stamp(w.file.value.issues, key) ==
         if key in w.remote then Some(w.remote[key].updatedAt) else None
  }

  /** Every disagreement is recent enough for the next incremental fetch to see it. */
  ghost predicate Agreement(repoUid: string, w: World) {
    && ValidRemote(repoUid, w.remote)
    && (forall key :: key in w.remote ==> w.remote[key].updatedAt <= w.clock)
    && (w.file.Some? ==>
          var c := w.file.value;
          && "" !in c.issues && MarkerRight(c) && c.latestAt <= w.clock
          && (forall key :: key in c.issues ==> key in w.remote)
          && (c.latestAt != 0 ==>
                forall key :: Disagrees(w, key) ==> w.remote[key].updatedAt >= c.latestAt - OVERLAP))
  }

  lemma {:induction false} FetchedStampIs(
    repoUid: string, remote: map<string, Issue>, since: int, fetched: seq<Option<Issue>>, key: string)
    requires ValidRemote(repoUid, remote)
    requires forall f :: f in fetched && Usable(repoUid, f) ==>
      IssueKey(repoUid, f.value) in remote && remote[IssueKey(repoUid, f.value)] == f.value
    ensures FetchedStamp(repoUid, fetched, key).Some? ==>
      key in remote && FetchedStamp(repoUid, fetched, key).value == remote[key].updatedAt
    ensures key in remote && Some(remote[key]) in fetched ==> FetchedStamp(repoUid, fetched, key).Some?
  {
    hide IssueKey;
    if fetched != [] {
      FetchedStampIs(repoUid, remote, since, fetched[..|fetched| - 1], key);
      assert fetched == fetched[..|fetched| - 1] + [fetched[|fetched| - 1]];
    }
  }

  /** A collection that fetches and saves brings the cache in step, exactly as fetching everything would. */
  lemma CollectBringsInStep(repoUid: string, w: World, a: Answers, r: Outcome, w': World)
    requires Agreement(repoUid, w) && Collects(repoUid, w, a, r, w') && r.Collected? && a.saves
    ensures InStep(w')
  {
    hide IssueKey, MergeAll, FetchedStamp, MarkerRight, FirstNonPR, ListUnchanged;
    var cache := Loaded(w.file, a);
    var since := Since(cache);
    var fetched := a.listing(since).value;
    forall f | f in fetched && Usable(repoUid, f)
      ensures f.value.marshals
    {
      assert ValidIssue(repoUid, IssueKey(repoUid, f.value), w.remote[IssueKey(repoUid, f.value)]);
    }
    forall key
      ensures Stamp(w'.file.value.issues, key) == if key in w.remote then Some(w.remote[key].updatedAt) else None
    {
      FetchedStampIs(repoUid, w.remote, since, fetched, key);
      MergedStamps(Entries(cache), repoUid, fetched, key);
      if key in w.remote && !Wanted(w.remote[key], since) {
        assert !Disagrees(w, key);
      }
    }
  }

  lemma ChangeKeeps(repoUid: string, w: World, key: string, issue: Issue, w': World)
    requires Agreement(repoUid, w) && Changes(repoUid, w, key, issue, w')
    ensures Agreement(repoUid, w')
  {
    hide IssueKey, MarkerRight;
    forall k | Disagrees(w', k) && k != key
      ensures Disagrees(w, k)
    {
    }
  }

  lemma CollectKeeps(repoUid: string, w: World, a: Answers, r: Outcome, w': World)
    requires Agreement(repoUid, w) && Collects(repoUid, w, a, r, w')
    ensures Agreement(repoUid, w')
  {
    hide IssueKey, MergeAll;
    if r.Collected? && a.saves {
      CollectBringsInStep(repoUid, w, a, r, w');
      InStepAgrees(repoUid, w, w');
    }
  }

  lemma InStepAgrees(repoUid: string, w: World, w': World)
    requires Agreement(repoUid, w) && w'.remote == w.remote && w'.clock == w.clock && InStep(w')
    requires "" !in w'.file.value.issues && MarkerRight(w'.file.value)
    ensures Agreement(repoUid, w')
  {
    hide IssueKey;
    var c := w'.file.value;
    forall key | key in c.issues
      ensures key in w.remote && c.issues[key].updatedAt == w.remote[key].updatedAt
    {
      assert Stamp(c.issues, key).Some?;
    }
    forall key
      ensures !Disagrees(w', key)
    {
    }
  }

  /******* Runs *******/

  ghost predicate Steps(repoUid: string, w: World, w': World) {
    || (exists key, issue :: Changes(repoUid, w, key, issue, w'))
    || (exists a, r :: Collects(repoUid, w, a, r, w'))
  }

  /** A history of the world from an empty cache. */
  ghost predicate IsRun(repoUid: string, ws: seq<World>) {
    && ws != [] && ws[0].file.None? && ValidRemote(repoUid, ws[0].remote)
    && (forall key :: key in ws[0].remote ==> ws[0].remote[key].updatedAt <= ws[0].clock)
    && forall i :: 0 <= i < |ws| - 1 ==> Steps(repoUid, ws[i], ws[i + 1])
  }

  /** Cache agreement: in every reachable state, what the cache has wrong lies within reach of the next fetch. */
  lemma {:induction false} RunAgrees(repoUid: string, ws: seq<World>)
    requires IsRun(repoUid, ws)
    ensures Agreement(repoUid, ws[|ws| - 1])
  {
    hide ValidRemote, Changes, Collects;
    if |ws| == 1 {
      FirstAgrees(repoUid, ws[0]);
    } else {
      RunAgrees(repoUid, ws[..|ws| - 1]);
      var w, w' := ws[|ws| - 2], ws[|ws| - 1];
      assert Steps(repoUid, w, w') by {
        assert Steps(repoUid, ws[|ws| - 2], ws[|ws| - 2 + 1]);
      }
      if key, issue :| Changes(repoUid, w, key, issue, w') {
        ChangeKeeps(repoUid, w, key, issue, w');
      } else {
        var a, r :| Collects(repoUid, w, a, r, w');
        CollectKeeps(repoUid, w, a, r, w');
      }
    }
  }

  lemma FirstAgrees(repoUid: string, w: World)
    requires w.file.None? && ValidRemote(repoUid, w.remote)
    requires forall key :: key in w.remote ==> w.remote[key].updatedAt <= w.clock
    ensures Agreement(repoUid, w)
  {
  }

  /** After any run, a collection that fetches and saves leaves exactly the remote times in the cache. */
  lemma RunThenCollect(repoUid: string, ws: seq<World>, a: Answers, r: Outcome, w': World)
    requires IsRun(repoUid, ws) && Collects(repoUid, ws[|ws| - 1], a, r, w') && r.Collected? && a.saves
    ensures InStep(w')
  {
    hide Steps, Collects, Agreement;
    RunAgrees(repoUid, ws);
    CollectBringsInStep(repoUid, ws[|ws| - 1], a, r, w');
  }

  /** A hit proves only this much: an issue the cache has wrong is stamped within the overlap, and no later than the
   newest time known. */
  lemma HitWindow(repoUid: string, w: World, a: Answers, r: Outcome, w': World, key: string)
    requires Agreement(repoUid, w) && Collects(repoUid, w, a, r, w') && r.Hit? && Disagrees(w, key)
    ensures w.file.value.latestAt - OVERLAP <= w.remote[key].updatedAt <= w.file.value.latestAt
  {
    hide IssueKey, MergeAll, FirstNonPR;
  }

  /** Two issues of the same second. */
  const ONE := Issue("A", 1, "", "", 500, false, true)
  const TWO := Issue("B", 2, "", "", 500, false, true)
  const FILE := CacheFile("A", 500, map["A" := Entry(500, ONE)])

  lemma ExampleKeys()
    ensures IssueKey("", ONE) == "A" && IssueKey("", TWO) == "B"
    ensures ValidIssue("", "A", ONE) && ValidIssue("", "B", TWO)
  {
    TrimOfTrimmed("A");
    TrimOfTrimmed("B");
  }

  lemma ExampleCollect(w: World, a: Answers, w': World)
    requires w == World(map["A" := ONE], 500, None) && w' == w.(file := Some(FILE))
    requires a == Answers(true, None, a.listing, true) && a.listing(0) == Some([Some(ONE)])
    ensures Collects("", w, a, Collected([ONE], 0), w')
  {
    ExampleKeys();
    hide IssueKey;
    assert MergeAll(map[], "", [Some(ONE)]) == Merge(map["A" := Entry(500, ONE)], [ONE], 0) by {
      assert [Some(ONE)][..0] == [];
    }
    assert "A" in FILE.issues;
  }

  lemma ExampleProbe(remote: map<string, Issue>)
    requires remote == map["A" := ONE, "B" := TWO]
    ensures FirstNonPR([Some(ONE), Some(TWO)]) == Some(ONE)
    ensures ProbesNewest("", remote, [Some(ONE), Some(TWO)])
  {
    ExampleKeys();
    hide IssueKey;
    assert FirstNonPR([Some(ONE), Some(TWO)]) == Some(ONE);
  }

  lemma ExampleUnchanged()
    ensures ListUnchanged(FILE, ONE) && FILE.issues != map[] && Since(Some(FILE)) == 380
    ensures Stamp(FILE.issues, "B") == None
  {
    assert "A" in FILE.issues;
    assert "B" != "A";
  }

  lemma ExampleHit(w: World, a: Answers)
    requires w == World(map["A" := ONE, "B" := TWO], 500, Some(FILE))
    requires a == Answers(true, Some([Some(ONE), Some(TWO)]), a.listing, true) && a.listing(380).None?
    ensures Collects("", w, a, Hit(1), w) && Disagrees(w, "B")
  {
    ExampleProbe(w.remote);
    ExampleUnchanged();
    assert |FILE.issues| == 1;
    hide IssueKey, FirstNonPR, ProbesNewest, ListUnchanged, Since, FILE, ONE, TWO, Stamp, MergeAll, Lists, MarkerRight;
    assert ProbeHits(Loaded(w.file, a), a);
    assert Truthful("", w.remote, a, 380);
  }

  lemma ExampleStart(w: World)
    requires w == World(map["A" := ONE], 500, None)
    ensures ValidRemote("", w.remote) && forall key :: key in w.remote ==> w.remote[key].updatedAt <= w.clock
  {
    ExampleKeys();
    hide IssueKey;
    forall key | key in w.remote
      ensures key == "A" && ValidIssue("", key, w.remote[key])
    {
    }
  }

  lemma ExampleChange(w: World, w': World)
    requires w == World(map["A" := ONE], 500, Some(FILE)) && w' == w.(remote := map["A" := ONE, "B" := TWO])
    ensures Changes("", w, "B", TWO, w')
  {
    ExampleKeys();
    hide IssueKey;
  }

  lemma ExampleRun(w0: World, w1: World, w2: World)
    requires w0 == World(map["A" := ONE], 500, None) && w1 == w0.(file := Some(FILE))
    requires w2 == w1.(remote := map["A" := ONE, "B" := TWO])
    ensures IsRun("", [w0, w1, w2])
  {
    hide Collects, Changes, ValidRemote, ONE, TWO, FILE;
    var first := Answers(true, None, since => Some([Some(ONE)]), true);
    ExampleStart(w0);
    ExampleCollect(w0, first, w1);
    ExampleChange(w1, w2);
    assert Steps("", w0, w1) && Steps("", w1, w2);
  }

  /** A hit can lie: an issue changes in the second in which the newest known one did, after that one was collected. */
  lemma HitCanLie() returns (ws: seq<World>, a: Answers, key: string)
    ensures IsRun("", ws) && Collects("", ws[|ws| - 1], a, Hit(1), ws[|ws| - 1]) && Disagrees(ws[|ws| - 1], key)
  {
    hide Collects, Steps, ValidRemote, Disagrees, IsRun;
    var w0 := World(map["A" := ONE], 500, None);
    var w1 := w0.(file := Some(FILE));
    var w2 := w1.(remote := map["A" := ONE, "B" := TWO]);
    ws := [w0, w1, w2];
    ExampleRun(w0, w1, w2);
    a, key := Answers(true, Some([Some(ONE), Some(TWO)]), since => None, true), "B";
    ExampleHit(w2, a);
  }

  /******* When a hit is right *******/

  /** What the cache has wrong is newer than anything it knows. */
  ghost predicate WrongIsNewer(w: World) {
    w.file.Some? ==> forall key :: Disagrees(w, key) ==> w.remote[key].updatedAt > w.file.value.latestAt
  }

  lemma NewestHitAgrees(repoUid: string, w: World, a: Answers, r: Outcome, w': World)
    requires Agreement(repoUid, w) && WrongIsNewer(w) && Collects(repoUid, w, a, r, w') && r.Hit?
    ensures InStep(w') && w' == w
  {
    hide IssueKey, MergeAll, FirstNonPR;
    forall key
      ensures !Disagrees(w, key)
    {
      if Disagrees(w, key) {
        HitWindow(repoUid, w, a, r, w', key);
      }
    }
    forall key
      ensures Stamp(w.file.value.issues, key) == if key in w.remote then Some(w.remote[key].updatedAt) else None
    {
      assert !Disagrees(w, key);
    }
  }

  lemma HitKeepsWorld(repoUid: string, w: World, a: Answers, r: Outcome, w': World)
    requires Collects(repoUid, w, a, r, w') && r.Hit?
    ensures w' == w && w.file.Some?
  {
    hide IssueKey, MergeAll, FirstNonPR, ListUnchanged, MarkerRight;
  }

  /** A hit is right exactly when what the cache has wrong is newer than anything it knows. */
  lemma HitRightIff(repoUid: string, w: World, a: Answers, r: Outcome, w': World)
    requires Agreement(repoUid, w) && Collects(repoUid, w, a, r, w') && r.Hit?
    ensures InStep(w') <==> WrongIsNewer(w)
  {
    HitKeepsWorld(repoUid, w, a, r, w');
    hide Agreement, Collects;
    if WrongIsNewer(w) {
      NewestHitAgrees(repoUid, w, a, r, w');
    }
  }

  /** The file is the one that the collection ending at moment `k` saved, which brought it in step. */
  ghost predicate SavedAt(ws: seq<World>, k: nat) {
    k < |ws| && InStep(ws[k]) && ws[k].file == ws[|ws| - 1].file
  }

  lemma StepSaves(repoUid: string, w: World, w': World)
    requires Agreement(repoUid, w) && Steps(repoUid, w, w')
    ensures w'.file == w.file || InStep(w')
  {
    hide IssueKey, MergeAll, ValidRemote, Truthful, MarkerRight, ListUnchanged, FirstNonPR, InStep, Agreement;
    if a, r :| Collects(repoUid, w, a, r, w') {
      if r.Collected? && a.saves {
        CollectBringsInStep(repoUid, w, a, r, w');
      }
    }
  }

  /** Some collection saved the file there is. */
  lemma {:induction false} FileWasSaved(repoUid: string, ws: seq<World>) returns (k: nat)
    requires IsRun(repoUid, ws) && ws[|ws| - 1].file.Some?
    ensures SavedAt(ws, k)
  {
    hide Steps, ValidRemote, Agreement, InStep;
    var before := ws[..|ws| - 1];
    RunAgrees(repoUid, before);
    assert Steps(repoUid, ws[|ws| - 2], ws[|ws| - 2 + 1]);
    StepSaves(repoUid, ws[|ws| - 2], ws[|ws| - 1]);
    if ws[|ws| - 1].file == ws[|ws| - 2].file {
      k := FileWasSaved(repoUid, before);
    } else {
      k := |ws| - 1;
    }
  }

  /** Whatever is stamped no later than the time `upto` was already so at the earlier moment. */
  ghost predicate NothingSlipsUnder(earlier: map<string, Issue>, now: map<string, Issue>, upto: nat) {
    forall key :: key in now && now[key].updatedAt <= upto ==>
      key in earlier && earlier[key].updatedAt == now[key].updatedAt
  }

  lemma WrongSinceSaved(w: World, now: World)
    requires InStep(w) && now.file == w.file
    ensures WrongIsNewer(now) <==> NothingSlipsUnder(w.remote, now.remote, w.file.value.latestAt)
  {
    hide Stamp;
    var c := w.file.value;
    forall key
      ensures Disagrees(now, key) <==>
        key in now.remote && !(key in w.remote && w.remote[key].updatedAt == now.remote[key].updatedAt)
    {
      assert Stamp(c.issues, key) == if key in w.remote then Some(w.remote[key].updatedAt) else None;
    }
  }

  /**
   Exactly when a hit after any run is right: when nothing that has changed since the last collection saved is stamped
   at or before the marker saved then, except with the stamp it had.
   */
  lemma HitRightSinceSaved(repoUid: string, ws: seq<World>, a: Answers, r: Outcome, w': World) returns (k: nat)
    requires IsRun(repoUid, ws) && Collects(repoUid, ws[|ws| - 1], a, r, w') && r.Hit?
    ensures SavedAt(ws, k)
    ensures InStep(w') <==>
      NothingSlipsUnder(ws[k].remote, ws[|ws| - 1].remote, ws[k].file.value.latestAt)
  {
    hide Steps, ValidRemote, Collects, Agreement, InStep, WrongIsNewer, NothingSlipsUnder;
    RunAgrees(repoUid, ws);
    HitKeepsWorld(repoUid, ws[|ws| - 1], a, r, w');
    k := FileWasSaved(repoUid, ws);
    HitRightIff(repoUid, ws[|ws| - 1], a, r, w');
    WrongSinceSaved(ws[k], ws[|ws| - 1]);
  }

  /******* Listings that are cut off *******/

  /** A collection of what the remote list has, but perhaps not of all that was wanted. */
  ghost predicate CollectsSome(repoUid: string, w: World, a: Answers, r: Outcome, w': World) {
    && ValidRemote(repoUid, w.remote)
    && CollectRelation(w.file, repoUid, a, w'.file, r)
    && w'.remote == w.remote && w'.clock == w.clock
    && r.Collected? && a.saves && FetchesFrom(repoUid, w.remote, a.listing(Since(Loaded(w.file, a))).value)
  }

  /** What a collection leaves wrong: exactly what it did not fetch and did not have right before. */
  lemma LeftWrongIff(repoUid: string, w: World, a: Answers, r: Outcome, w': World, key: string)
    requires CollectsSome(repoUid, w, a, r, w')
    ensures var cache := Loaded(w.file, a);
      Disagrees(w', key) <==>
        && key in w.remote
        && FetchedStamp(repoUid, a.listing(Since(cache)).value, key).None?
        && Stamp(Entries(cache), key) != Some(w.remote[key].updatedAt)
  {
    hide IssueKey, MergeAll, FetchedStamp, MarkerRight, FirstNonPR, ListUnchanged;
    var cache := Loaded(w.file, a);
    var fetched := a.listing(Since(cache)).value;
    forall f | f in fetched && Usable(repoUid, f)
      ensures f.value.marshals
    {
      assert ValidIssue(repoUid, IssueKey(repoUid, f.value), w.remote[IssueKey(repoUid, f.value)]);
    }
    FetchedStampIs(repoUid, w.remote, Since(cache), fetched, key);
    MergedStamps(Entries(cache), repoUid, fetched, key);
  }

  /** After a first collection cut off at the cap, the agreement holds exactly if all the issues left out are stamped
   within the overlap before the newest one fetched. */
  lemma CutOffAgreesIff(repoUid: string, w: World, a: Answers, r: Outcome, w': World)
    requires Agreement(repoUid, w) && w.file.None? && CollectsSome(repoUid, w, a, r, w')
    ensures Agreement(repoUid, w') <==>
      var latest := w'.file.value.latestAt;
      latest != 0 ==> forall key ::
        key in w.remote && FetchedStamp(repoUid, a.listing(0).value, key).None? ==>
        w.remote[key].updatedAt >= latest - OVERLAP
  {
    hide IssueKey, MergeAll, FetchedStamp, FirstNonPR, ListUnchanged;
    FirstCollection(repoUid, w, a, r, w');
    forall key
      ensures Disagrees(w', key) <==> key in w.remote && FetchedStamp(repoUid, a.listing(0).value, key).None?
    {
      LeftWrongIff(repoUid, w, a, r, w', key);
    }
    hide Disagrees, CollectsSome, MarkerRight, ValidRemote, Stamp;
  }

  lemma FirstCollection(repoUid: string, w: World, a: Answers, r: Outcome, w': World)
    requires Agreement(repoUid, w) && w.file.None? && CollectsSome(repoUid, w, a, r, w')
    ensures w'.file.Some? && Since(Loaded(w.file, a)) == 0 && Entries(Loaded(w.file, a)) == map[]
    ensures var c := w'.file.value;
      && "" !in c.issues && MarkerRight(c) && c.latestAt <= w.clock
      && forall key :: key in c.issues ==> key in w.remote
  {
    hide IssueKey, MergeAll, FirstNonPR, ListUnchanged, FetchedStamp;
    var fetched := a.listing(0).value;
    var c := w'.file.value;
    forall key | key in c.issues
      ensures key in w.remote && c.issues[key].updatedAt == w.remote[key].updatedAt
    {
      MergedFrom(map[], repoUid, fetched, key);
    }
  }

  /** Such an issue stays missing: a later collection that finds the file asks only for issues stamped later. */
  lemma CutOffStaysWrong(repoUid: string, w: World, a: Answers, r: Outcome, w': World, key: string)
    requires CollectsSome(repoUid, w, a, r, w') && a.loads && Disagrees(w, key)
    requires w.file.Some? && w.file.value.latestAt != 0
    requires w.remote[key].updatedAt < w.file.value.latestAt - OVERLAP
    requires forall f :: f in a.listing(Since(w.file)).value && f.Some? ==> f.value.updatedAt >= Since(w.file)
    ensures Disagrees(w', key)
  {
    hide IssueKey, MergeAll, FirstNonPR, ListUnchanged, FetchedStamp, MarkerRight, Disagrees;
    LeftWrongIff(repoUid, w, a, r, w', key);
    StillWrong(w, key);
    OldNotFetched(repoUid, w.remote, Since(w.file), a.listing(Since(w.file)).value, key);
  }

  lemma StillWrong(w: World, key: string)
    requires Disagrees(w, key) && w.file.Some?
    ensures key in w.remote && Stamp(w.file.value.issues, key) != Some(w.remote[key].updatedAt)
  {
  }

  lemma {:induction false} OldNotFetched(
    repoUid: string, remote: map<string, Issue>, since: int, fetched: seq<Option<Issue>>, key: string)
    requires FetchesFrom(repoUid, remote, fetched) && key in remote && remote[key].updatedAt < since
    requires forall f :: f in fetched && f.Some? ==> f.value.updatedAt >= since
    ensures FetchedStamp(repoUid, fetched, key).None?
  {
    hide IssueKey;
    if fetched != [] {
      OldNotFetched(repoUid, remote, since, fetched[..|fetched| - 1], key);
      assert fetched == fetched[..|fetched| - 1] + [fetched[|fetched| - 1]];
    }
  }

  /******* Strictly increasing stamps *******/

  /** Every change is stamped later than anything before it. */
  ghost predicate Ticks(w: World, w': World) {
    w'.remote == w.remote || w'.clock > w.clock
  }

  ghost predicate IsTickingRun(repoUid: string, ws: seq<World>) {
    IsRun(repoUid, ws) && forall i :: 0 <= i < |ws| - 1 ==> Ticks(ws[i], ws[i + 1])
  }

  lemma StepKeepsNewer(repoUid: string, w: World, w': World)
    requires Agreement(repoUid, w) && WrongIsNewer(w) && Ticks(w, w') && Steps(repoUid, w, w')
    ensures WrongIsNewer(w')
  {
    hide IssueKey, MergeAll, ValidRemote, Truthful;
    if key, issue :| Changes(repoUid, w, key, issue, w') {
      forall k | Disagrees(w', k) && k != key
        ensures Disagrees(w, k)
      {
      }
    } else {
      var a, r :| Collects(repoUid, w, a, r, w');
      if r.Collected? && a.saves {
        CollectBringsInStep(repoUid, w, a, r, w');
        forall key
          ensures !Disagrees(w', key)
        {
        }
      }
    }
  }

  lemma {:induction false} TickingRunNewer(repoUid: string, ws: seq<World>)
    requires IsTickingRun(repoUid, ws)
    ensures WrongIsNewer(ws[|ws| - 1])
  {
    hide Steps, ValidRemote, Agreement, Ticks;
    if |ws| > 1 {
      var before := ws[..|ws| - 1];
      RunAgrees(repoUid, before);
      TickingRunNewer(repoUid, before);
      assert Steps(repoUid, ws[|ws| - 2], ws[|ws| - 2 + 1]) && Ticks(ws[|ws| - 2], ws[|ws| - 2 + 1]);
      StepKeepsNewer(repoUid, ws[|ws| - 2], ws[|ws| - 1]);
    }
  }

  /** Cache-hit soundness: when no two changes share a stamp, a hit means that the cache has no time wrong. */
  lemma HitMeansInStep(repoUid: string, ws: seq<World>, a: Answers, r: Outcome, w': World)
    requires IsTickingRun(repoUid, ws) && Collects(repoUid, ws[|ws| - 1], a, r, w') && r.Hit?
    ensures InStep(w') && w' == ws[|ws| - 1]
  {
    hide Steps, Collects, Agreement, WrongIsNewer, InStep;
    RunAgrees(repoUid, ws);
    TickingRunNewer(repoUid, ws);
    NewestHitAgrees(repoUid, ws[|ws| - 1], a, r, w');
  }

  /** An issue cached with the remote time is the remote issue. */
  ghost predicate SameTimeSameIssue(w: World) {
    w.file.Some? ==> forall key :: key in w.file.value.issues && key in w.remote ==>
      w.file.value.issues[key].updatedAt == w.remote[key].updatedAt ==>
      w.file.value.issues[key].issue == w.remote[key]
  }

  /** The cache holds exactly the remote issues. */
  ghost predicate Mirrors(w: World) {
    && w.file.Some? && w.file.value.issues.Keys == w.remote.Keys
    && forall key :: key in w.remote ==>
         w.file.value.issues[key] == Entry(w.remote[key].updatedAt, w.remote[key])
  }

  lemma InStepMirrors(w: World)
    requires InStep(w) && SameTimeSameIssue(w)
    ensures Mirrors(w)
  {
    var c := w.file.value;
    forall key
      ensures key in c.issues <==> key in w.remote
      ensures key in w.remote ==> c.issues[key].updatedAt == w.remote[key].updatedAt
    {
      assert Stamp(c.issues, key) == if key in w.remote then Some(w.remote[key].updatedAt) else None;
    }
  }

  /** No cached time is later than the clock. */
  lemma CachedBeforeClock(repoUid: string, w: World)
    requires Agreement(repoUid, w) && w.file.Some?
    ensures forall key :: key in w.file.value.issues ==> w.file.value.issues[key].updatedAt <= w.clock
  {
    hide ValidRemote;
  }

  lemma ChangeKeepsIssues(repoUid: string, w: World, key: string, issue: Issue, w': World)
    requires Agreement(repoUid, w) && SameTimeSameIssue(w) && Ticks(w, w') && Changes(repoUid, w, key, issue, w')
    ensures SameTimeSameIssue(w')
  {
    if w.file.Some? && w'.remote != w.remote {
      CachedBeforeClock(repoUid, w);
    }
  }

  lemma CollectKeepsIssues(repoUid: string, w: World, a: Answers, r: Outcome, w': World)
    requires SameTimeSameIssue(w) && Collects(repoUid, w, a, r, w')
    ensures SameTimeSameIssue(w')
  {
    hide IssueKey, MergeAll, FirstNonPR, ListUnchanged, MarkerRight;
    if r.Collected? && a.saves {
      var cache := Loaded(w.file, a);
      var fetched := a.listing(Since(cache)).value;
      forall key | key in w'.file.value.issues && key in w.remote
        ensures w'.file.value.issues[key].updatedAt == w.remote[key].updatedAt ==>
          w'.file.value.issues[key].issue == w.remote[key]
      {
        MergedFrom(Entries(cache), repoUid, fetched, key);
      }
    }
  }

  lemma {:induction false} TickingRunSameIssues(repoUid: string, ws: seq<World>)
    requires IsTickingRun(repoUid, ws)
    ensures SameTimeSameIssue(ws[|ws| - 1])
  {
    hide ValidRemote, Agreement, Ticks, Changes, Collects;
    if |ws| > 1 {
      var before := ws[..|ws| - 1];
      RunAgrees(repoUid, before);
      TickingRunSameIssues(repoUid, before);
      var w, w' := ws[|ws| - 2], ws[|ws| - 1];
      assert Steps(repoUid, ws[|ws| - 2], ws[|ws| - 2 + 1]) && Ticks(ws[|ws| - 2], ws[|ws| - 2 + 1]);
      if key, issue :| Changes(repoUid, w, key, issue, w') {
        ChangeKeepsIssues(repoUid, w, key, issue, w');
      } else {
        var a, r :| Collects(repoUid, w, a, r, w');
        CollectKeepsIssues(repoUid, w, a, r, w');
      }
    }
  }

  /** When no two changes share a stamp, a hit, like a collection that fetches and saves, means that the cache holds
   exactly the remote issues. */
  lemma CollectedIsMirror(repoUid: string, ws: seq<World>, a: Answers, r: Outcome, w': World)
    requires IsTickingRun(repoUid, ws) && Collects(repoUid, ws[|ws| - 1], a, r, w')
    requires r.Hit? || (r.Collected? && a.saves)
    ensures Mirrors(w')
  {
    hide Steps, Collects, Agreement, WrongIsNewer, InStep, SameTimeSameIssue, Mirrors;
    TickingRunSameIssues(repoUid, ws);
    CollectKeepsIssues(repoUid, ws[|ws| - 1], a, r, w');
    if r.Hit? {
      HitMeansInStep(repoUid, ws, a, r, w');
    } else {
      RunThenCollect(repoUid, ws, a, r, w');
    }
    InStepMirrors(w');
  }
}

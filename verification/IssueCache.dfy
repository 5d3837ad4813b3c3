/**
 collector-github's issue cache: what one collection does to the cache file and what it hands on for publishing.

 Times are whole seconds, with 0 for Go's zero time; the RFC 3339 text the file holds is read back as the same time,
 and an empty or unreadable text as 0. A nil issue pointer is None.
 */
module IssueCache {
  import opened Basics
  import opened Text

  const OVERLAP := 120

  datatype Issue = Issue(
    nodeId: string, number: nat, url: string, urlDigest: string, updatedAt: nat, pullRequest: bool, marshals: bool)

  datatype Entry = Entry(updatedAt: nat, issue: Issue)

  datatype CacheFile = CacheFile(latestId: string, latestAt: nat, issues: map<string, Entry>)

  /** githubIssueSourceUniqueID: the node id if there is one, else a key built from the repository; empty if neither. */
  function IssueKey(repoUid: string, issue: Issue): string {
    if Trim(issue.nodeId) != "" then Trim(issue.nodeId)
    else if Trim(repoUid) == "" then ""
    else if issue.number != 0 then Trim(repoUid) + ":issue:" + Decimal(issue.number)
    else if Trim(issue.url) == "" then ""
    else Trim(repoUid) + ":issue:url:" + issue.urlDigest
  }

  /** The issues a collection looks at: not nil, not a pull request, and with a key. */
  predicate Usable(repoUid: string, fetched: Option<Issue>) {
    fetched.Some? && !fetched.value.pullRequest && IssueKey(repoUid, fetched.value) != ""
  }

  /******* Merging *******/

  /** What merging has come to: the entries, the issues to publish and the number skipped as unchanged. */
  datatype Merge = Merge(issues: map<string, Entry>, publish: seq<Issue>, skipped: nat)

  function MergeOne(m: Merge, repoUid: string, fetched: Option<Issue>): Merge {
    if !Usable(repoUid, fetched) then m else
    var issue, key := fetched.value, IssueKey(repoUid, fetched.value);
    if key in m.issues && m.issues[key].updatedAt == issue.updatedAt then m.(skipped := m.skipped + 1)
    else if !issue.marshals then m
    else m.(issues := m.issues[key := Entry(issue.updatedAt, issue)], publish := m.publish + [issue])
  }

  function MergeAll(prior: map<string, Entry>, repoUid: string, fetched: seq<Option<Issue>>): Merge {
    if fetched == [] then Merge(prior, [], 0)
    else MergeOne(MergeAll(prior, repoUid, fetched[..|fetched| - 1]), repoUid, fetched[|fetched| - 1])
  }

  /** The entries with `issues` written over them, in order. */
  function Overwritten(prior: map<string, Entry>, repoUid: string, issues: seq<Issue>): map<string, Entry> {
    if issues == [] then prior
    else
      var last := issues[|issues| - 1];
      Overwritten(prior, repoUid, issues[..|issues| - 1])[IssueKey(repoUid, last) := Entry(last.updatedAt, last)]
  }

  /** What is written to the cache is exactly what is published, in order. */
  lemma {:induction false} WrittenIsPublished(prior: map<string, Entry>, repoUid: string, fetched: seq<Option<Issue>>)
    ensures var m := MergeAll(prior, repoUid, fetched); m.issues == Overwritten(prior, repoUid, m.publish)
  {
    hide IssueKey;
    if fetched != [] {
      var before := MergeAll(prior, repoUid, fetched[..|fetched| - 1]);
      WrittenIsPublished(prior, repoUid, fetched[..|fetched| - 1]);
      var issue := fetched[|fetched| - 1];
      if MergeAll(prior, repoUid, fetched).publish != before.publish {
        assert (before.publish + [issue.value])[..|before.publish|] == before.publish;
      }
    }
  }

  /** Every usable issue is published or skipped, as long as it can be marshalled. */
  lemma {:induction false} PublishedOrSkipped(prior: map<string, Entry>, repoUid: string, fetched: seq<Option<Issue>>)
    requires forall f :: f in fetched && Usable(repoUid, f) ==> f.value.marshals
    ensures var m := MergeAll(prior, repoUid, fetched);
      |m.publish| + m.skipped == |Filter((f: Option<Issue>) => Usable(repoUid, f), fetched)|
  {
    hide IssueKey, Usable;
    if fetched != [] {
      var init, last := fetched[..|fetched| - 1], fetched[|fetched| - 1];
      PublishedOrSkipped(prior, repoUid, init);
      FilterAppend((f: Option<Issue>) => Usable(repoUid, f), init, [last]);
      assert fetched == init + [last];
      UsableHasValue(repoUid, last);
    }
  }

  lemma UsableHasValue(repoUid: string, f: Option<Issue>)
    ensures Usable(repoUid, f) ==> f.Some? && !f.value.pullRequest && IssueKey(repoUid, f.value) != ""
  {
  }

  /** The time the cache holds for a key. */
  function Stamp(issues: map<string, Entry>, key: string): Option<nat> {
    if key in issues then Some(issues[key].updatedAt) else None
  }

  /** The time a key was last fetched with. */
  function FetchedStamp(repoUid: string, fetched: seq<Option<Issue>>, key: string): Option<nat> {
    if fetched == [] then None
    else
      var last := fetched[|fetched| - 1];
      if Usable(repoUid, last) && IssueKey(repoUid, last.value) == key then Some(last.value.updatedAt)
      else FetchedStamp(repoUid, fetched[..|fetched| - 1], key)
  }

  /** After a merge a fetched key holds the time it was last fetched with, and every other key the time it held. */
  lemma {:induction false} MergedStamps(
    prior: map<string, Entry>, repoUid: string, fetched: seq<Option<Issue>>, key: string)
    requires forall f :: f in fetched && Usable(repoUid, f) ==> f.value.marshals
    ensures Stamp(MergeAll(prior, repoUid, fetched).issues, key) ==
      match FetchedStamp(repoUid, fetched, key)
      case Some(t) => Some(t)
      case None => Stamp(prior, key)
  {
    hide IssueKey, Usable;
    if fetched != [] {
      MergedStamps(prior, repoUid, fetched[..|fetched| - 1], key);
      UsableHasValue(repoUid, fetched[|fetched| - 1]);
    }
  }

  /** After a merge an entry is the one that was there or holds an issue fetched with its key. */
  lemma {:induction false} MergedFrom(
    prior: map<string, Entry>, repoUid: string, fetched: seq<Option<Issue>>, key: string)
    requires key in MergeAll(prior, repoUid, fetched).issues
    ensures var e := MergeAll(prior, repoUid, fetched).issues[key];
      || (key in prior && e == prior[key])
      || (Some(e.issue) in fetched && Usable(repoUid, Some(e.issue)) && IssueKey(repoUid, e.issue) == key &&
          e.updatedAt == e.issue.updatedAt)
  {
    hide IssueKey, Usable;
    if fetched != [] {
      var init, last := fetched[..|fetched| - 1], fetched[|fetched| - 1];
      var before := MergeAll(prior, repoUid, init);
      assert fetched == init + [last];
      UsableHasValue(repoUid, last);
      if key in before.issues && MergeAll(prior, repoUid, fetched).issues[key] == before.issues[key] {
        MergedFrom(prior, repoUid, init, key);
      }
    }
  }

  /******* What is published *******/

  /** The time held for a key once `fetched` has been gone through: that of the last issue fetched with the key that can
   be marshalled, else the one held before. */
  function HeldTime(prior: map<string, Entry>, repoUid: string, fetched: seq<Option<Issue>>, key: string): Option<nat> {
    if fetched == [] then if key in prior then Some(prior[key].updatedAt) else None
    else
      var last := fetched[|fetched| - 1];
      if last.Some? && !last.value.pullRequest && last.value.marshals && IssueKey(repoUid, last.value) == key
      then Some(last.value.updatedAt)
      else HeldTime(prior, repoUid, fetched[..|fetched| - 1], key)
  }

  /** The i-th issue fetched is one to look at. */
  predicate Counts(repoUid: string, fetched: seq<Option<Issue>>, i: nat) {
    i < |fetched| && fetched[i].Some? && !fetched[i].value.pullRequest && IssueKey(repoUid, fetched[i].value) != ""
  }

  /** It has another time than the one held for its key just before. */
  predicate NewAt(prior: map<string, Entry>, repoUid: string, fetched: seq<Option<Issue>>, i: nat)
    requires i < |fetched| && fetched[i].Some?
  {
    HeldTime(prior, repoUid, fetched[..i], IssueKey(repoUid, fetched[i].value)) != Some(fetched[i].value.updatedAt)
  }

  /** The issues that are news and can be marshalled, in order. */
  function News(prior: map<string, Entry>, repoUid: string, fetched: seq<Option<Issue>>): seq<Issue> {
    if fetched == [] then []
    else
      var n := |fetched| - 1;
      News(prior, repoUid, fetched[..n]) +
      (if Counts(repoUid, fetched, n) && fetched[n].value.marshals && NewAt(prior, repoUid, fetched, n)
       then [fetched[n].value] else [])
  }

  /** How many of the issues are no news. */
  function NoNews(prior: map<string, Entry>, repoUid: string, fetched: seq<Option<Issue>>): nat {
    if fetched == [] then 0
    else
      var n := |fetched| - 1;
      NoNews(prior, repoUid, fetched[..n]) +
      (if Counts(repoUid, fetched, n) && !NewAt(prior, repoUid, fetched, n) then 1 else 0)
  }

  /** An issue is among the news exactly if it was fetched somewhere with another time than the one held just before. */
  lemma {:induction false} NewsAre(prior: map<string, Entry>, repoUid: string, fetched: seq<Option<Issue>>, x: Issue)
    ensures x in News(prior, repoUid, fetched) <==> exists i: nat :: NewsAt(prior, repoUid, fetched, x, i)
  {
    hide IssueKey, HeldTime;
    if fetched != [] {
      var n := |fetched| - 1;
      var init := fetched[..n];
      NewsAre(prior, repoUid, init, x);
      hide Counts, NewAt;
      forall i: nat
        ensures NewsAt(prior, repoUid, fetched, x, i) <==>
          NewsAt(prior, repoUid, init, x, i) || (i == n && NewsAt(prior, repoUid, fetched, x, n))
      {
        SameNews(prior, repoUid, fetched, x, i);
      }
      LastNews(prior, repoUid, fetched, x);
    }
  }

  /** The i-th issue fetched is `x`, and news that can be marshalled. */
  ghost predicate NewsAt(prior: map<string, Entry>, repoUid: string, fetched: seq<Option<Issue>>, x: Issue, i: nat) {
    && Counts(repoUid, fetched, i) && fetched[i].value == x && x.marshals
    && NewAt(prior, repoUid, fetched, i)
  }

  lemma SameNews(prior: map<string, Entry>, repoUid: string, fetched: seq<Option<Issue>>, x: Issue, i: nat)
    requires fetched != []
    ensures var n := |fetched| - 1;
      NewsAt(prior, repoUid, fetched, x, i) <==>
        NewsAt(prior, repoUid, fetched[..n], x, i) || (i == n && NewsAt(prior, repoUid, fetched, x, n))
  {
    hide IssueKey, HeldTime;
    if i < |fetched| - 1 {
      assert fetched[..|fetched| - 1][..i] == fetched[..i];
    }
  }

  lemma LastNews(prior: map<string, Entry>, repoUid: string, fetched: seq<Option<Issue>>, x: Issue)
    requires fetched != []
    ensures var n := |fetched| - 1;
      x in News(prior, repoUid, fetched) <==>
        x in News(prior, repoUid, fetched[..n]) || NewsAt(prior, repoUid, fetched, x, n)
  {
    hide IssueKey, HeldTime;
  }

  lemma {:induction false} MergedHeld(
    prior: map<string, Entry>, repoUid: string, fetched: seq<Option<Issue>>, key: string)
    requires key != ""
    ensures Stamp(MergeAll(prior, repoUid, fetched).issues, key) == HeldTime(prior, repoUid, fetched, key)
  {
    hide IssueKey;
    if fetched != [] {
      MergedHeld(prior, repoUid, fetched[..|fetched| - 1], key);
    }
  }

  /** A merge publishes exactly what is news, and skips what is not. */
  lemma {:induction false} MergePublishesNews(prior: map<string, Entry>, repoUid: string, fetched: seq<Option<Issue>>)
    ensures MergeAll(prior, repoUid, fetched).publish == News(prior, repoUid, fetched)
    ensures MergeAll(prior, repoUid, fetched).skipped == NoNews(prior, repoUid, fetched)
  {
    hide IssueKey, HeldTime, Stamp;
    if fetched != [] {
      var n := |fetched| - 1;
      MergePublishesNews(prior, repoUid, fetched[..n]);
      if Counts(repoUid, fetched, n) {
        MergedHeld(prior, repoUid, fetched[..n], IssueKey(repoUid, fetched[n].value));
        StampOf(MergeAll(prior, repoUid, fetched[..n]).issues, IssueKey(repoUid, fetched[n].value));
      }
    }
  }

  lemma StampOf(issues: map<string, Entry>, key: string)
    ensures Stamp(issues, key) == if key in issues then Some(issues[key].updatedAt) else None
  {
  }

  lemma {:induction false} HeldBefore(
    prior: map<string, Entry>, repoUid: string, fetched: seq<Option<Issue>>, key: string)
    requires forall f :: f in fetched && f.Some? && IssueKey(repoUid, f.value) == key ==>
      key in prior && prior[key].updatedAt == f.value.updatedAt
    ensures HeldTime(prior, repoUid, fetched, key) == if key in prior then Some(prior[key].updatedAt) else None
  {
    hide IssueKey;
    if fetched != [] {
      assert fetched[|fetched| - 1] in fetched;
      HeldBefore(prior, repoUid, fetched[..|fetched| - 1], key);
    }
  }

  /** The first issue fetched with its key is news exactly if the key was not held with that time. */
  lemma FirstOfKeyIsNews(prior: map<string, Entry>, repoUid: string, fetched: seq<Option<Issue>>, i: nat)
    requires Counts(repoUid, fetched, i)
    requires forall j :: 0 <= j < i && fetched[j].Some? ==>
      IssueKey(repoUid, fetched[j].value) != IssueKey(repoUid, fetched[i].value)
    ensures var key := IssueKey(repoUid, fetched[i].value);
      NewAt(prior, repoUid, fetched, i) <==> key !in prior || prior[key].updatedAt != fetched[i].value.updatedAt
  {
    hide IssueKey;
    HeldBefore(prior, repoUid, fetched[..i], IssueKey(repoUid, fetched[i].value));
  }

  /** Fetching again what is cached with its present time publishes nothing and skips it all. */
  lemma {:induction false} NothingNew(prior: map<string, Entry>, repoUid: string, fetched: seq<Option<Issue>>)
    requires forall f :: f in fetched && Usable(repoUid, f) ==>
      IssueKey(repoUid, f.value) in prior && prior[IssueKey(repoUid, f.value)].updatedAt == f.value.updatedAt
    ensures var m := MergeAll(prior, repoUid, fetched);
      m == Merge(prior, [], |Filter((f: Option<Issue>) => Usable(repoUid, f), fetched)|)
  {
    hide IssueKey, Usable;
    if fetched != [] {
      var init, last := fetched[..|fetched| - 1], fetched[|fetched| - 1];
      assert last in fetched;
      NothingNew(prior, repoUid, init);
      FilterAppend((f: Option<Issue>) => Usable(repoUid, f), init, [last]);
      assert fetched == init + [last];
    }
  }

  /******* Keys *******/

  /** An issue with a node id is known by it, however else it changes. */
  lemma NodeIdIsKey(repoUid: string, issue: Issue)
    requires issue.nodeId != "" && Trimmed(issue.nodeId)
    ensures IssueKey(repoUid, issue) == issue.nodeId
  {
    hide Trim, Decimal;
    TrimOfTrimmed(issue.nodeId);
  }

  /** Without one, issues of a repository with different numbers have different keys, in every repository that is known;
   without a number too, different addresses do. */
  lemma NumbersAreKeys(repoUid: string, a: Issue, b: Issue)
    requires repoUid != "" && Trimmed(repoUid) && a.nodeId == "" && b.nodeId == ""
    requires a.number != 0 && b.number != 0
    ensures IssueKey(repoUid, a) != "" && (IssueKey(repoUid, a) == IssueKey(repoUid, b) <==> a.number == b.number)
  {
    hide Trim, Decimal;
    TrimOfTrimmed("");
    TrimOfTrimmed(repoUid);
    DecimalIsRead(a.number);
    DecimalIsRead(b.number);
    SameBehind(repoUid + ":issue:", Decimal(a.number), Decimal(b.number));
  }

  lemma SameBehind(p: string, a: string, b: string)
    ensures p + a == p + b <==> a == b
  {
    if p + a == p + b {
      assert a == (p + a)[|p|..] && b == (p + b)[|p|..];
    }
  }

  /** An issue has no key exactly if it has no node id, and no repository to be counted in, or neither number nor
   address. */
  lemma KeylessIff(repoUid: string, issue: Issue)
    ensures IssueKey(repoUid, issue) == "" <==>
      Trim(issue.nodeId) == "" && (Trim(repoUid) == "" || (issue.number == 0 && Trim(issue.url) == ""))
  {
    hide Trim, Decimal;
  }

  lemma AddressesAreKeys(repoUid: string, a: Issue, b: Issue)
    requires repoUid != "" && Trimmed(repoUid) && a.nodeId == "" && b.nodeId == ""
    requires a.number == 0 && b.number == 0 && Trim(a.url) != "" && Trim(b.url) != ""
    ensures IssueKey(repoUid, a) == IssueKey(repoUid, b) <==> a.urlDigest == b.urlDigest
  {
    hide Trim, Decimal;
    TrimOfTrimmed("");
    TrimOfTrimmed(repoUid);
    SameBehind(repoUid + ":issue:url:", a.urlDigest, b.urlDigest);
  }

  /******* The marker *******/

  /** Some entry has a time. */
  ghost predicate Dated(issues: map<string, Entry>) {
    exists id :: id in issues && issues[id].updatedAt != 0
  }

  /** The marker names a newest entry, and its time. */
  ghost predicate MarksNewest(c: CacheFile) {
    && c.latestId in c.issues && c.issues[c.latestId].updatedAt == c.latestAt != 0
    && forall id :: id in c.issues ==> c.issues[id].updatedAt <= c.latestAt
  }

  /** The marker is what a refresh makes of the entries: a newest one, or nothing at all. */
  ghost predicate MarkerRight(c: CacheFile) {
    if Dated(c.issues) then MarksNewest(c) else c.latestAt == 0
  }

  /**
   refreshLatestIssueMarker, whatever order the map is visited in. The empty string serves as "none yet", so an entry
   under the empty key could lose its place; merging never creates one.
   */
  method RefreshMarker(cache: CacheFile) returns (r: CacheFile)
    ensures r.issues == cache.issues
    ensures cache.issues == map[] ==> r == cache
    ensures "" !in cache.issues && Dated(cache.issues) ==> MarksNewest(r)
    ensures cache.issues != map[] && !Dated(cache.issues) ==> r.latestId == "" && r.latestAt == cache.latestAt
  {
    if cache.issues == map[] {
      return cache;
    }
    var latestId, latestAt := "", 0;
    var todo := cache.issues.Keys;
    while todo != {}
      invariant todo <= cache.issues.Keys
      invariant latestAt == 0 ==> latestId == ""
      invariant latestAt != 0 ==> latestId in cache.issues && cache.issues[latestId].updatedAt == latestAt
      invariant "" !in cache.issues ==>
        forall id :: id in cache.issues.Keys - todo ==> cache.issues[id].updatedAt <= latestAt
      invariant latestAt == 0 ==> forall id :: id in cache.issues.Keys - todo ==> cache.issues[id].updatedAt == 0
      decreases todo
    {
      var id :| id in todo;
      todo := todo - {id};
      var t := cache.issues[id].updatedAt;
      if t == 0 {
        continue;
      }
      if latestId == "" || t > latestAt {
        latestAt, latestId := t, id;
      }
    }
    r := cache.(latestId := latestId);
    if latestAt != 0 {
      r := r.(latestAt := latestAt);
    }
  }

  /** mergeIssueCache: the previous entries with the fetched issues written over them, and a fresh marker. */
  method MergeIssueCache(cache: Option<CacheFile>, fetched: seq<Option<Issue>>, repoUid: string)
    returns (publish: seq<Issue>, merged: CacheFile, skipped: nat)
    requires cache.Some? ==> "" !in cache.value.issues
    ensures Merge(merged.issues, publish, skipped) == MergeAll(Entries(cache), repoUid, fetched)
    ensures "" !in merged.issues && MarkerRight(merged)
    ensures publish == News(Entries(cache), repoUid, fetched) && skipped == NoNews(Entries(cache), repoUid, fetched)
  {
    hide IssueKey, News, NoNews;
    MergePublishesNews(Entries(cache), repoUid, fetched);
    var issues := Entries(cache);
    publish, skipped := [], 0;
    for i := 0 to |fetched|
      invariant Merge(issues, publish, skipped) == MergeAll(Entries(cache), repoUid, fetched[..i])
      invariant "" !in issues
    {
      assert fetched[..i + 1][..i] == fetched[..i];
      var issue := fetched[i];
      if issue.None? || issue.value.pullRequest {
        continue;
      }
      var id := IssueKey(repoUid, issue.value);
      if id == "" {
        continue;
      }
      var updated := issue.value.updatedAt;
      if id in issues && issues[id].updatedAt == updated {
        skipped := skipped + 1;
        continue;
      }
      if !issue.value.marshals {
        continue;
      }
      issues := issues[id := Entry(updated, issue.value)];
      publish := publish + [issue.value];
    }
    assert fetched[..|fetched|] == fetched;
    merged := RefreshMarker(CacheFile("", 0, issues));
  }

  function Entries(cache: Option<CacheFile>): map<string, Entry> {
    if cache.Some? then cache.value.issues else map[]
  }

  /******* The probe *******/

  function FirstNonPR(issues: seq<Option<Issue>>): (r: Option<Issue>)
    ensures r.Some? ==> r in issues && !r.value.pullRequest
  {
    if issues == [] then None
    else if issues[0].Some? && !issues[0].value.pullRequest then issues[0]
    else FirstNonPR(issues[1..])
  }

  /** It is the first: there are only nil issues and pull requests before it, or at all if there is none. */
  lemma {:induction false} FirstNonPRIsFirst(issues: seq<Option<Issue>>) returns (i: nat)
    ensures i <= |issues| && (FirstNonPR(issues).Some? <==> i < |issues|)
    ensures i < |issues| ==> FirstNonPR(issues) == issues[i]
    ensures forall j :: 0 <= j < i && issues[j].Some? ==> issues[j].value.pullRequest
  {
    if issues == [] || (issues[0].Some? && !issues[0].value.pullRequest) {
      i := 0;
    } else {
      var k := FirstNonPRIsFirst(issues[1..]);
      i := k + 1;
    }
  }

  /** In a list sorted newest first, the first issue that is no pull request is a newest of those. */
  lemma {:induction false} FirstNonPRIsNewest(issues: seq<Option<Issue>>, page: nat)
    requires page <= |issues| && FirstNonPR(issues[..page]).Some?
    requires forall i, j :: 0 <= i < j < |issues| && issues[i].Some? && issues[j].Some? ==>
      issues[i].value.updatedAt >= issues[j].value.updatedAt
    ensures forall i :: 0 <= i < |issues| && issues[i].Some? && !issues[i].value.pullRequest ==>
      issues[i].value.updatedAt <= FirstNonPR(issues[..page]).value.updatedAt
  {
    if !(issues[0].Some? && !issues[0].value.pullRequest) {
      assert issues[..page][1..] == issues[1..][..page - 1];
      FirstNonPRIsNewest(issues[1..], page - 1);
      forall i | 0 <= i < |issues| && issues[i].Some? && !issues[i].value.pullRequest
        ensures issues[i].value.updatedAt <= FirstNonPR(issues[..page]).value.updatedAt
      {
        assert issues[i] == issues[1..][i - 1];
      }
    }
  }

  /** issueListUnchanged */
  predicate ListUnchanged(cache: CacheFile, probe: Issue) {
    && probe.nodeId != "" && probe.nodeId == cache.latestId
    && cache.latestAt != 0 && probe.updatedAt == cache.latestAt
  }
}

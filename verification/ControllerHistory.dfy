/**
 The web client's memory of controller addresses: how an address is normalised, and the bounded list of the most recent
 ones in the browser's storage.
 */
module ControllerHistory {
  import opened Basics
  import opened Text

  const HISTORY_LIMIT := 5

  /******* Normalising an address *******/

  function StripSlashes(s: string): (r: string)
    ensures r <= s && (r != [] ==> r[|r| - 1] != '/')
    ensures forall i :: |r| <= i < |s| ==> s[i] == '/'
  {
    if s != [] && s[|s| - 1] == '/' then StripSlashes(s[..|s| - 1]) else s
  }

  predicate IsHttp(s: string) {
    HasPrefix(ToLower(s), "http://") || HasPrefix(ToLower(s), "https://")
  }

  /** normalizeControllerBaseUrl; None for an empty address. */
  function Normalize(raw: string): Option<string> {
    var t := StripSlashes(Trim(raw));
    if t == "" then None
    else if HasPrefix(t, "/") || IsHttp(t) then Some(t)
    else Some(StripSlashes("http://" + t))
  }

  /** What is left of the address once trimmed and stripped of slashes does not end in white space again. */
  predicate EndsClean(raw: string) {
    var t := StripSlashes(Trim(raw));
    t != "" && !IsSpace(t[|t| - 1])
  }

  lemma StripNothing(s: string)
    requires s == [] || s[|s| - 1] != '/'
    ensures StripSlashes(s) == s
  {
  }

  lemma BehindPrefix(p: string, t: string)
    requires t != ""
    ensures (p + t)[..|p|] == p && (p + t)[|p + t| - 1] == t[|t| - 1] && p + t != []
  {
  }

  lemma SchemeLength()
    ensures |"http://"| == 7
  {
  }

  lemma Prefixed(t: string)
    requires t != "" && t[|t| - 1] != '/'
    ensures StripSlashes("http://" + t) == "http://" + t && IsHttp("http://" + t)
  {
    hide IsHttp, StripSlashes;
    BehindPrefix("http://", t);
    SchemeLength();
    StripNothing("http://" + t);
    SchemeIsHttp("http://" + t);
  }

  /** What normalising gives: the stripped address, or that behind "http://". */
  lemma NormalForm(raw: string)
    ensures var t := StripSlashes(Trim(raw));
      Normalize(raw) ==
        if t == "" then None
        else if HasPrefix(t, "/") || IsHttp(t) then Some(t)
        else Some("http://" + t)
  {
    hide Trim, IsHttp, StripSlashes;
    var t := StripSlashes(Trim(raw));
    if t != "" {
      Prefixed(t);
    }
  }

  lemma StripOfTrim(raw: string)
    ensures var t := StripSlashes(Trim(raw)); t != "" ==> !IsSpace(t[0]) && t[|t| - 1] != '/'
  {
    hide Trim;
  }

  /** An address that is clean, slash-free at the end and has a scheme or a leading slash stays as it is. */
  lemma FixedPoint(u: string)
    requires u != "" && !IsSpace(u[0]) && !IsSpace(u[|u| - 1]) && u[|u| - 1] != '/'
    requires HasPrefix(u, "/") || IsHttp(u)
    ensures Normalize(u) == Some(u)
  {
    hide Trim, IsHttp, StripSlashes;
    TrimOfTrimmed(u);
    StripNothing(u);
    NormalForm(u);
  }

  lemma NormalHasScheme(raw: string)
    requires Normalize(raw).Some?
    ensures var n := Normalize(raw).value; n != "" && (HasPrefix(n, "/") || IsHttp(n))
    ensures var n := Normalize(raw).value; var t := StripSlashes(Trim(raw));
      t != "" && n[|n| - 1] == t[|t| - 1] && !IsSpace(n[0])
  {
    hide Trim, IsHttp, StripSlashes;
    NormalForm(raw);
    StripOfTrim(raw);
    var t := StripSlashes(Trim(raw));
    Prefixed(t);
  }

  lemma SpaceInFront(left: string, rest: string, n: string)
    requires n == left + rest && AllSpace(left)
    ensures left == [] || IsSpace(n[0])
  {
    hide IsSpace;
  }

  lemma TrimIsPrefix(n: string)
    requires n != "" && !IsSpace(n[0])
    ensures Trim(n) <= n && (IsSpace(n[|n| - 1]) ==> |Trim(n)| < |n|)
  {
    hide Trim, IsSpace;
    var left, right := TrimSplits(n);
    SpaceInFront(left, Trim(n) + right, n);
    assert n == left + (Trim(n) + right);
  }

  lemma CutAtTheEnd(n: string)
    requires n != "" && !IsSpace(n[0]) && IsSpace(n[|n| - 1])
    ensures var u := StripSlashes(Trim(n)); |u| < |n| && u <= n
  {
    hide Trim, IsSpace, StripSlashes;
    TrimIsPrefix(n);
  }

  /** "http://" before a proper prefix of a text with white space at its end cannot give that text. */
  lemma NotPrefixedAgain(u: string, n: string)
    requires u <= n && |u| < |n| && u != "" && IsSpace(n[|n| - 1])
    requires !IsHttp(u)
    ensures "http://" + u != n
  {
    hide IsHttp, IsSpace;
    var again := "http://" + u;
    assert again[..7] == "http://";
    if |u| >= 7 {
      if u[..7] == "http://" {
        SchemeIsHttp(u);
      } else {
        assert n[..7] == u[..7];
      }
    } else {
      assert again[|again| - 1] == u[|u| - 1] == n[|u| - 1];
      NoSpaceInScheme(|u| - 1);
      assert again[|u| - 1] == "http://"[|u| - 1];
    }
  }

  lemma SchemeIsHttp(u: string)
    requires |u| >= 7 && u[..7] == "http://"
    ensures IsHttp(u)
  {
    assert ToLower(u)[..7] == "http://";
  }

  lemma NoSpaceInScheme(k: nat)
    requires k < 7
    ensures |"http://"| == 7 && !IsSpace("http://"[k])
  {
  }

  /** A scheme counts in any case; both are kept. */
  lemma SchemesAre(s: string)
    ensures IsHttp(s) <==>
      || (|s| >= 7 && ToLower(s)[..7] == "http://")
      || (|s| >= 8 && ToLower(s)[..8] == "https://")
  {
    SchemeLengths();
  }

  lemma SchemeLengths()
    ensures |"http://"| == 7 && |"https://"| == 8
  {
  }

  /** An address with a scheme, or with a slash in front, is kept as it is; any other gets the plain scheme. */
  lemma NormalizeKeepsOrAdds(u: string)
    requires u != "" && !IsSpace(u[0]) && !IsSpace(u[|u| - 1]) && u[|u| - 1] != '/'
    ensures Normalize(u) ==
      if u[0] == '/' || (|u| >= 7 && ToLower(u)[..7] == "http://") || (|u| >= 8 && ToLower(u)[..8] == "https://")
      then Some(u) else Some("http://" + u)
  {
    hide Trim, IsHttp, StripSlashes, ToLower;
    TrimOfTrimmed(u);
    StripNothing(u);
    NormalForm(u);
    SchemesAre(u);
    assert HasPrefix(u, "/") <==> u[..1] == "/";
    assert u[..1] == [u[0]];
  }

  /** Slashes at the end and white space around do not matter. */
  lemma NormalizeStrips(left: string, u: string, slashes: string, right: string)
    requires AllSpace(left) && AllSpace(right) && forall i :: 0 <= i < |slashes| ==> slashes[i] == '/'
    requires u != "" && !IsSpace(u[0]) && !IsSpace(u[|u| - 1]) && u[|u| - 1] != '/'
    ensures Normalize(left + (u + slashes) + right) == Normalize(u)
  {
    hide Trim, IsHttp, StripSlashes;
    TrimOfTrimmed(u);
    StripNothing(u);
    EndsWithSlashes(u, slashes);
    TrimIs(left, u + slashes, right);
    StripAll(u, slashes);
    NormalForm(u);
    NormalForm(left + (u + slashes) + right);
  }

  lemma EndsWithSlashes(u: string, slashes: string)
    requires forall i :: 0 <= i < |slashes| ==> slashes[i] == '/'
    requires u != "" && !IsSpace(u[0]) && !IsSpace(u[|u| - 1])
    ensures Trimmed(u + slashes)
  {
    var s := u + slashes;
    assert s[|s| - 1] == if slashes == "" then u[|u| - 1] else slashes[|slashes| - 1];
  }

  lemma {:induction false} StripAll(u: string, slashes: string)
    requires forall i :: 0 <= i < |slashes| ==> slashes[i] == '/'
    requires u != "" && u[|u| - 1] != '/'
    ensures StripSlashes(u + slashes) == u
  {
    if slashes == "" {
      assert u + slashes == u;
    } else {
      var n := |slashes| - 1;
      assert (u + slashes)[..|u| + n] == u + slashes[..n];
      StripAll(u, slashes[..n]);
    }
  }

  /** Normalising a second time changes nothing exactly when the address ended clean the first time. */
  lemma NormalizeTwiceIff(raw: string)
    requires Normalize(raw).Some?
    ensures Normalize(Normalize(raw).value) == Normalize(raw) <==> EndsClean(raw)
  {
    hide Normalize, StripSlashes, Trim, IsHttp;
    var n := Normalize(raw).value;
    NormalHasScheme(raw);
    StripOfTrim(raw);
    if EndsClean(raw) {
      FixedPoint(n);
    } else {
      var u := StripSlashes(Trim(n));
      CutAtTheEnd(n);
      NormalForm(n);
      if u != "" && !IsHttp(u) {
        NotPrefixedAgain(u, n);
      }
    }
  }

  /** Every address without white space inside ends clean. */
  lemma NoInnerSpaceEndsClean(raw: string)
    requires Normalize(raw).Some?
    requires forall i :: 0 <= i < |Trim(raw)| ==> !IsSpace(Trim(raw)[i])
    ensures EndsClean(raw)
  {
    hide Trim, IsHttp;
  }

  /** An address for which it does: the blank before the slash comes off only the second time. */
  lemma BlankBeforeSlash()
    ensures Normalize("foo /") == Some("http://foo ")
    ensures Normalize("http://foo ") == Some("http://foo")
  {
    BlankBeforeSlashOnce();
    BlankBeforeSlashTwice();
  }

  lemma BlankBeforeSlashOnce()
    ensures Normalize("foo /") == Some("http://foo ")
  {
    hide Trim, StripSlashes, IsHttp;
    TrimOfTrimmed("foo /");
    assert StripSlashes("foo /") == "foo " by {
      var s := "foo /";
      assert s[..4] == "foo ";
      StripLast(s);
      StripNothing("foo ");
    }
    NotHttp("foo ");
    NormalForm("foo /");
    assert !HasPrefix("foo ", "/") by { assert "foo "[0] == 'f'; }
    assert "http://" + "foo " == "http://foo ";
  }

  lemma StripLast(s: string)
    requires s != [] && s[|s| - 1] == '/'
    ensures StripSlashes(s) == StripSlashes(s[..|s| - 1])
  {
  }

  lemma NotHttp(s: string)
    requires s != "" && s[0] == 'f'
    ensures !IsHttp(s)
  {
    assert ToLower(s)[0] == 'f';
  }

  lemma BlankBeforeSlashTwice()
    ensures Normalize("http://foo ") == Some("http://foo")
  {
    hide Trim, StripSlashes, IsHttp;
    TrimIs("", "http://foo", " ");
    assert "" + "http://foo" + " " == "http://foo ";
    StripNothing("http://foo");
    assert "http://" + "foo" == "http://foo";
    Prefixed("foo");
    NormalForm("http://foo ");
  }

  /******* The most recent addresses *******/

  predicate Differs(x: string, y: string) {
    x != y
  }

  function Without(x: string, s: seq<string>): seq<string> {
    Filter(y => Differs(x, y), s)
  }

  /** The distinct addresses of a history (oldest first), the most recently used first. */
  function Recent(history: seq<string>): seq<string> {
    if history == [] then []
    else
      var x := history[|history| - 1];
      [x] + Without(x, Recent(history[..|history| - 1]))
  }

  lemma {:induction false} WithoutKeepsDistinct(x: string, s: seq<string>)
    requires Distinct(s)
    ensures Distinct(Without(x, s)) && x !in Without(x, s)
  {
    if s != [] {
      WithoutKeepsDistinct(x, s[1..]);
      FilterKeeps(y => Differs(x, y), s[1..], s[0]);
      FilterKeeps(y => Differs(x, y), s, x);
      assert s[0] !in s[1..];
    }
  }

  /** The most recent list has no repetitions and exactly the addresses of the history. */
  lemma {:induction false} RecentHolds(history: seq<string>)
    ensures Distinct(Recent(history))
    ensures forall y :: y in Recent(history) <==> y in history
  {
    if history != [] {
      var n := |history| - 1;
      var x := history[n];
      RecentHolds(history[..n]);
      WithoutKeepsDistinct(x, Recent(history[..n]));
      assert history == history[..n] + [x];
      forall y
        ensures y in Recent(history) <==> y in history
      {
        FilterKeeps(z => Differs(x, z), Recent(history[..n]), y);
      }
    }
  }

  function LastUse(history: seq<string>, x: string): (r: int)
    ensures r >= 0 ==> r < |history| && history[r] == x
    ensures forall i :: r < i < |history| ==> i >= 0 ==> history[i] != x
    ensures r >= -1
  {
    if history == [] then -1
    else if history[|history| - 1] == x then |history| - 1
    else LastUse(history[..|history| - 1], x)
  }

  /** Used in the order of last use: `s` lists addresses, the one used last first. */
  ghost predicate ByLastUse(history: seq<string>, s: seq<string>) {
    forall i, j :: 0 <= i < j < |s| ==> LastUse(history, s[i]) > LastUse(history, s[j])
  }

  lemma {:induction false} WithoutKeepsOrder(history: seq<string>, x: string, s: seq<string>)
    requires ByLastUse(history, s)
    ensures ByLastUse(history, Without(x, s))
  {
    hide LastUse;
    if s != [] {
      WithoutKeepsOrder(history, x, s[1..]);
      forall y | y in Without(x, s[1..])
        ensures LastUse(history, s[0]) > LastUse(history, y)
      {
        FilterKeeps(z => Differs(x, z), s[1..], y);
      }
    }
  }

  lemma LaterUses(history: seq<string>, s: seq<string>)
    requires history != []
    requires ByLastUse(history[..|history| - 1], s) && history[|history| - 1] !in s
    ensures ByLastUse(history, [history[|history| - 1]] + s)
  {
    var n := |history| - 1;
    var all := [history[n]] + s;
    forall i, j | 0 <= i < j < |all|
      ensures LastUse(history, all[i]) > LastUse(history, all[j])
    {
      assert LastUse(history, all[j]) == LastUse(history[..n], s[j - 1]);
      if i > 0 {
        assert LastUse(history, all[i]) == LastUse(history[..n], s[i - 1]);
      }
    }
  }

  /** It is ordered by last use. */
  lemma {:induction false} RecentIsByLastUse(history: seq<string>)
    ensures ByLastUse(history, Recent(history))
  {
    if history != [] {
      var n := |history| - 1;
      RecentIsByLastUse(history[..n]);
      RecentHolds(history[..n]);
      WithoutKeepsOrder(history[..n], history[n], Recent(history[..n]));
      WithoutKeepsDistinct(history[n], Recent(history[..n]));
      LaterUses(history, Without(history[n], Recent(history[..n])));
    }
  }

  lemma {:induction false} WithoutAbsent(x: string, s: seq<string>)
    requires x !in s
    ensures Without(x, s) == s
  {
    if s != [] {
      WithoutAbsent(x, s[1..]);
    }
  }

  /** Removing one element of a list without repetitions makes it at most one shorter. */
  lemma {:induction false} WithoutLosesOne(x: string, s: seq<string>)
    requires Distinct(s)
    ensures |Without(x, s)| >= |s| - 1
  {
    if s != [] {
      if s[0] == x {
        WithoutAbsent(x, s[1..]);
      } else {
        WithoutLosesOne(x, s[1..]);
      }
    }
  }

  /** Cutting the list off before putting an address in front gives the same as cutting it off afterwards. */
  lemma CutOnceOrTwice(x: string, s: seq<string>, n: nat)
    requires Distinct(s) && n > 0
    ensures Take([x] + Without(x, Take(s, n)), n) == Take([x] + Without(x, s), n)
  {
    hide Filter;
    if |s| > n {
      var head, tail := s[..n], s[n..];
      assert s == head + tail;
      FilterAppend(y => Differs(x, y), head, tail);
      assert Without(x, s) == Without(x, head) + Without(x, tail) by { WithoutAppend(x, head, tail); }
      assert Distinct(head);
      WithoutLosesOne(x, head);
      assert |[x] + Without(x, head)| >= n;
    }
  }

  lemma {:induction false} WithoutAppend(x: string, a: seq<string>, b: seq<string>)
    ensures Without(x, a + b) == Without(x, a) + Without(x, b)
  {
    if a == [] {
      assert a + b == b;
    } else {
      WithoutAppend(x, a[1..], b);
      assert (a + b)[1..] == a[1..] + b;
    }
  }

  /******* The stored list *******/

  /** The stored text: missing, unreadable, or an array, of which the items that are not strings are None. */
  datatype Raw = Absent | Broken | Items(items: seq<Option<string>>)

  datatype Storage = Storage(local: Raw, session: Option<string>)

  /** What reading keeps of an array: the first distinct normal forms. */
  function ReadItems(items: seq<Option<string>>): (r: seq<string>)
    ensures |r| <= HISTORY_LIMIT
  {
    if items == [] then []
    else
      var out, item := ReadItems(items[..|items| - 1]), items[|items| - 1];
      if |out| >= HISTORY_LIMIT || item.None? || Normalize(Trim(item.value)).None? then out
      else if Normalize(Trim(item.value)).value in out then out
      else out + [Normalize(Trim(item.value)).value]
  }

  function ReadRaw(local: Raw): seq<string> {
    if local.Items? then ReadItems(local.items) else []
  }

  function Somes(urls: seq<string>): (r: seq<Option<string>>)
    ensures |r| == |urls| && forall i :: 0 <= i < |urls| ==> r[i] == Some(urls[i])
  {
    seq(|urls|, i requires 0 <= i < |urls| => Some(urls[i]))
  }

  function Written(urls: seq<string>): Raw {
    if urls == [] then Absent else Items(Somes(Take(urls, HISTORY_LIMIT)))
  }

  /** The address of an older version of the client, kept for the session only. */
  function Legacy(session: Option<string>): Option<string> {
    if session.None? then None else Normalize(Trim(session.value))
  }

  /** What the client shows. */
  function Shown(s: Storage): seq<string> {
    if ReadRaw(s.local) != [] then ReadRaw(s.local)
    else if Legacy(s.session).Some? then [Legacy(s.session).value]
    else []
  }

  /** Storage after the stored list is read; `writes` says whether local storage accepts writes. */
  function AfterRead(s: Storage, writes: bool): Storage {
    if ReadRaw(s.local) != [] || Legacy(s.session).None? then s
    else Storage(if writes then Written([Legacy(s.session).value]) else s.local, None)
  }

  function TrimmedUrl(url: Option<string>): string {
    if url.Some? then Trim(url.value) else ""
  }

  /** Storage after an address is persisted, or the list cleared. */
  function Persisted(s: Storage, url: Option<string>, writes: bool): Storage {
    if TrimmedUrl(url) == "" then Storage(if writes then Absent else s.local, None)
    else if Normalize(TrimmedUrl(url)).None? then s
    else
      var x := Normalize(TrimmedUrl(url)).value;
      Storage(if writes then Written(Take([x] + Without(x, Shown(s)), HISTORY_LIMIT)) else s.local,
              AfterRead(s, writes).session)
  }

  class HistoryStore {
    var local: Raw
    var session: Option<string>

    function View(): Storage
      reads this
    {
      Storage(local, session)
    }

    /** readRawHistory. */
    method ReadRawHistory() returns (out: seq<string>)
      ensures out == ReadRaw(local)
    {
      hide Normalize, Trim;
      out := [];
      if !local.Items? {
        return;
      }
      var items := local.items;
      assert items[..|items|] == items;
      for i := 0 to |items|
        invariant out == ReadItems(items[..i]) && |out| < HISTORY_LIMIT
      {
        assert items[..i + 1][..i] == items[..i];
        if items[i].None? {
          continue;
        }
        var trimmed := Trim(items[i].value);
        if trimmed == "" {
          NothingToNormalize(trimmed);
          continue;
        }
        var canonical := Normalize(trimmed);
        if canonical.None? || canonical.value in out {
          continue;
        }
        out := out + [canonical.value];
        if |out| >= HISTORY_LIMIT {
          ReadStopsFull(items, i + 1);
          return;
        }
      }
    }

    /** writeHistory. A refused write is ignored. */
    method WriteHistory(urls: seq<string>, writes: bool)
      modifies this`local
      ensures local == if writes then Written(urls) else old(local)
      ensures writes && urls == [] ==> local.Absent?
      ensures writes && urls != [] ==>
        && local.Items? && |local.items| == Min(|urls|, 5)
        && forall i :: 0 <= i < |local.items| ==> local.items[i] == Some(urls[i])
    {
      if writes {
        if |urls| == 0 {
          local := Absent;
        } else {
          local := Items(Somes(Take(urls, HISTORY_LIMIT)));
        }
      }
    }

    /** readStoredControllerBaseUrls, with the migration of the session's address. */
    method ReadStored(writes: bool) returns (urls: seq<string>)
      modifies this
      ensures urls == Shown(old(View())) && View() == AfterRead(old(View()), writes)
    {
      hide Normalize, Trim, ReadRaw;
      urls := ReadRawHistory();
      if |urls| > 0 {
        return;
      }
      if session.None? {
        return [];
      }
      var legacy := Trim(session.value);
      if legacy == "" {
        NothingToNormalize(legacy);
        return [];
      }
      var canonical := Normalize(legacy);
      if canonical.None? {
        return [];
      }
      WriteHistory([canonical.value], writes);
      session := None;
      urls := [canonical.value];
    }

    /** persistStoredControllerBaseUrl. */
    method Persist(url: Option<string>, writes: bool)
      modifies this
      ensures View() == Persisted(old(View()), url, writes)
    {
      hide Normalize, Trim, ReadRaw, Written, Legacy, Filter;
      var trimmed := if url.Some? then Trim(url.value) else "";
      if trimmed == "" {
        WriteHistory([], writes);
        WrittenNothing();
        session := None;
        return;
      }
      var normalized := Normalize(trimmed);
      if normalized.None? {
        return;
      }
      ghost var before := View();
      var stored := ReadStored(writes);
      var next := [normalized.value] + Without(normalized.value, stored);
      WriteHistory(Take(next, HISTORY_LIMIT), writes);
      UnwrittenRead(before);
    }
  }

  lemma WrittenNothing()
    ensures Written([]) == Absent
  {
  }

  /** Without writing, reading leaves local storage alone. */
  lemma UnwrittenRead(s: Storage)
    ensures AfterRead(s, false).local == s.local
  {
    hide ReadRaw, Legacy;
  }

  lemma NothingToNormalize(s: string)
    requires s == ""
    ensures Normalize(Trim(s)).None? && Normalize(s).None?
  {
    hide IsHttp;
    TrimOfTrimmed(s);
  }

  lemma {:induction false} ReadStopsFull(items: seq<Option<string>>, k: nat)
    requires k <= |items| && |ReadItems(items[..k])| >= HISTORY_LIMIT
    ensures ReadItems(items) == ReadItems(items[..k])
  {
    hide Normalize, Trim;
    if k == |items| {
      assert items[..k] == items;
    } else {
      var n := |items| - 1;
      assert items[..n][..k] == items[..k];
      ReadStopsFull(items[..n], k);
    }
  }

  /** An address that reading leaves as it is. */
  predicate Stable(x: string) {
    Normalize(Trim(x)) == Some(x)
  }

  /** Reading one stable address more, that is not there yet. */
  lemma ReadOneMore(items: seq<Option<string>>, x: string)
    requires |ReadItems(items)| < HISTORY_LIMIT && x !in ReadItems(items) && Stable(x)
    ensures ReadItems(items + [Some(x)]) == ReadItems(items) + [x]
  {
    hide Normalize, Trim;
    var all := items + [Some(x)];
    assert all[..|all| - 1] == items && all[|all| - 1] == Some(x);
  }

  lemma {:induction false} ReadSomes(urls: seq<string>)
    requires Distinct(urls) && |urls| <= HISTORY_LIMIT
    requires forall x :: x in urls ==> Stable(x)
    ensures ReadItems(Somes(urls)) == urls
  {
    hide Stable;
    if urls == [] {
      NothingRead();
    } else {
      hide ReadItems;
      var n := |urls| - 1;
      ReadSomes(urls[..n]);
      ReadLast(urls);
    }
  }

  lemma ReadLast(urls: seq<string>)
    requires urls != [] && |urls| <= HISTORY_LIMIT
    requires urls[|urls| - 1] !in urls[..|urls| - 1] && Stable(urls[|urls| - 1])
    requires ReadItems(Somes(urls[..|urls| - 1])) == urls[..|urls| - 1]
    ensures ReadItems(Somes(urls)) == urls
  {
    hide Stable, ReadItems;
    var n := |urls| - 1;
    assert Somes(urls) == Somes(urls[..n]) + [Some(urls[n])];
    ReadOneMore(Somes(urls[..n]), urls[n]);
  }

  lemma NothingRead()
    ensures Somes([]) == [] && ReadItems([]) == []
  {
  }

  /** Reading undoes writing, for distinct addresses in their normal form, as many as are kept. */
  lemma ReadUndoesWrite(urls: seq<string>)
    requires Distinct(urls) && |urls| <= HISTORY_LIMIT
    requires forall x :: x in urls ==> Stable(x)
    ensures ReadRaw(Written(urls)) == urls
  {
    hide Stable, ReadItems;
    ReadSomes(urls);
  }

  /** What persisting stores is read back unchanged exactly when the address ended clean. */
  lemma StableIffEndsClean(raw: string)
    requires Normalize(raw).Some?
    ensures Stable(Normalize(raw).value) <==> EndsClean(raw)
  {
    hide Trim, Normalize, StripSlashes;
    var n := Normalize(raw).value;
    assert Normalize(Trim(n)) == Normalize(n) by { NormalizeOfTrim(n); }
    NormalizeTwiceIff(raw);
  }

  lemma NormalizeOfTrim(s: string)
    ensures Normalize(Trim(s)) == Normalize(s)
  {
    hide Trim, StripSlashes, IsHttp;
    TrimOfTrimmed(Trim(s));
  }

  /** No address, or a blank one, clears everything. */
  lemma BlankClears(s: Storage, url: Option<string>)
    requires url.None? || AllSpace(url.value)
    ensures Persisted(s, url, true) == Storage(Absent, None)
    ensures Persisted(s, url, false) == Storage(s.local, None)
  {
    if url.Some? {
      TrimIs(url.value, "", "");
      assert url.value + "" + "" == url.value;
    }
    hide Trim, Normalize, ReadRaw;
  }

  /** What is read of a stored array: normal forms of its strings, none twice, and all of them if there are fewer than
   five. */
  lemma {:induction false} ReadHolds(items: seq<Option<string>>)
    ensures Distinct(ReadItems(items))
    ensures forall x :: x in ReadItems(items) ==>
      exists i :: 0 <= i < |items| && items[i].Some? && Normalize(items[i].value) == Some(x)
    ensures |ReadItems(items)| < 5 ==> forall i ::
      0 <= i < |items| && items[i].Some? && Normalize(items[i].value).Some? ==>
      Normalize(items[i].value).value in ReadItems(items)
  {
    hide Normalize, Trim;
    if items != [] {
      var n := |items| - 1;
      ReadHolds(items[..n]);
      if items[n].Some? {
        NormalizeOfTrim(items[n].value);
      }
      assert forall i :: 0 <= i < n ==> items[..n][i] == items[i];
    }
  }

  /******* Whole runs *******/

  datatype Event = Persist(url: Option<string>, writes: bool)

  function After(s: Storage, events: seq<Event>): Storage {
    if events == [] then s
    else
      var e := events[|events| - 1];
      Persisted(After(s, events[..|events| - 1]), e.url, e.writes)
  }

  /** The normal forms of the addresses whose storing worked, since the list was last cleared. */
  function SinceClear(events: seq<Event>): seq<string> {
    if events == [] then []
    else
      var before, e := SinceClear(events[..|events| - 1]), events[|events| - 1];
      if !e.writes then before
      else if TrimmedUrl(e.url) == "" then []
      else if Normalize(TrimmedUrl(e.url)).None? then before
      else before + [Normalize(TrimmedUrl(e.url)).value]
  }

  ghost predicate CleanEvents(events: seq<Event>) {
    forall e :: e in events && Normalize(TrimmedUrl(e.url)).Some? ==> EndsClean(TrimmedUrl(e.url))
  }

  /** Storage that holds the most recent addresses of a history, and nothing for the session. */
  ghost predicate Holds(s: Storage, history: seq<string>) {
    && s == Storage(Written(Take(Recent(history), HISTORY_LIMIT)), None)
    && forall x :: x in history ==> Stable(x)
  }

  lemma HoldsShows(s: Storage, history: seq<string>)
    requires Holds(s, history)
    ensures Shown(s) == Take(Recent(history), HISTORY_LIMIT)
  {
    hide Recent, Stable, Written, ReadRaw;
    RecentHolds(history);
    var kept := Take(Recent(history), HISTORY_LIMIT);
    assert Distinct(kept);
    assert forall x :: x in kept ==> Stable(x);
    ReadUndoesWrite(kept);
  }

  lemma PersistHolds(s: Storage, history: seq<string>, url: Option<string>, writes: bool)
    requires Holds(s, history) && TrimmedUrl(url) != ""
    requires Normalize(TrimmedUrl(url)).Some? && Stable(Normalize(TrimmedUrl(url)).value)
    ensures Holds(Persisted(s, url, writes), if writes then history + [Normalize(TrimmedUrl(url)).value] else history)
  {
    hide TrimmedUrl, Normalize, Stable, Written, ReadRaw, Legacy, Without, Take;
    var x := Normalize(TrimmedUrl(url)).value;
    HoldsShows(s, history);
    assert AfterRead(s, writes).session.None? by { NoSession(s, writes); }
    if writes {
      var history' := history + [x];
      assert history'[..|history|] == history;
      assert Recent(history') == [x] + Without(x, Recent(history));
      RecentHolds(history);
      CutOnceOrTwice(x, Recent(history), HISTORY_LIMIT);
    }
  }

  lemma NoSession(s: Storage, writes: bool)
    requires s.session.None?
    ensures AfterRead(s, writes) == s
  {
    hide ReadRaw;
  }

  lemma {:induction false} RunHolds(events: seq<Event>)
    requires CleanEvents(events)
    ensures Holds(After(Storage(Absent, None), events), SinceClear(events))
  {
    hide TrimmedUrl, Normalize, Stable, Holds, EndsClean;
    if events == [] {
      EmptyHolds();
    } else {
      var n := |events| - 1;
      var e := events[n];
      RunHolds(events[..n]);
      var s, history := After(Storage(Absent, None), events[..n]), SinceClear(events[..n]);
      if TrimmedUrl(e.url) == "" {
        EmptyHolds();
        ClearHolds(s, history, e.url, e.writes);
      } else if Normalize(TrimmedUrl(e.url)).Some? {
        assert e in events;
        StableIffEndsClean(TrimmedUrl(e.url));
        PersistHolds(s, history, e.url, e.writes);
      }
    }
  }

  lemma EmptyHolds()
    ensures Holds(Storage(Absent, None), [])
  {
    hide Stable;
  }

  lemma ClearHolds(s: Storage, history: seq<string>, url: Option<string>, writes: bool)
    requires Holds(s, history) && TrimmedUrl(url) == ""
    ensures Holds(Persisted(s, url, writes), if writes then [] else history)
  {
    hide Stable, TrimmedUrl, Normalize, Written;
    EmptyHolds();
  }

  /** After any run of persists the client shows the most recent distinct addresses since the last clear, newest first:
   cutting the list off at every step is cutting it off once at the end. */
  lemma ShowsMostRecent(events: seq<Event>)
    requires CleanEvents(events)
    ensures Shown(After(Storage(Absent, None), events)) == Take(Recent(SinceClear(events)), HISTORY_LIMIT)
  {
    hide CleanEvents, SinceClear, After, Shown;
    RunHolds(events);
    HoldsShows(After(Storage(Absent, None), events), SinceClear(events));
  }

  lemma WrittenOnce(x: string)
    ensures ReadRaw(Written([x])) == if Normalize(Trim(x)).Some? then [Normalize(Trim(x)).value] else []
  {
    hide Normalize, Trim;
    NothingRead();
    assert Somes([x]) == [Some(x)];
    assert [Some(x)][..0] == [];
  }

  lemma PersistedFirst(raw: string)
    requires Trim(raw) != "" && Normalize(Trim(raw)).Some?
    ensures After(Storage(Absent, None), [Persist(Some(raw), true)])
         == Storage(Written([Normalize(Trim(raw)).value]), None)
  {
    hide Trim, Normalize, Written, ReadRaw, Filter;
    var nothing, first := Storage(Absent, None), Persist(Some(raw), true);
    var x := Normalize(Trim(raw)).value;
    assert [first][..0] == [];
    AbsentShows(None);
    assert Without(x, []) == [] by { WithoutAbsent(x, []); }
    assert [x] + [] == [x] && Take([x], HISTORY_LIMIT) == [x];
  }

  /** The condition is needed: a first address is shown as it was stored exactly when it ended clean. */
  lemma ShownAtOnceIff(raw: string)
    requires Trim(raw) != "" && Normalize(Trim(raw)).Some?
    ensures Shown(After(Storage(Absent, None), [Persist(Some(raw), true)])) == [Normalize(Trim(raw)).value]
      <==> EndsClean(Trim(raw))
  {
    hide Trim, Normalize, Written, ReadRaw, After, EndsClean;
    var x := Normalize(Trim(raw)).value;
    PersistedFirst(raw);
    WrittenOnce(x);
    StableIffEndsClean(Trim(raw));
  }

  /** An address left by an older client counts as if it had been persisted before the first one. */
  lemma LegacyCountsAsFirst(legacy: string, url: string)
    requires Trim(legacy) != "" && Normalize(Trim(legacy)).Some? && EndsClean(Trim(legacy))
    requires Trim(url) != "" && Normalize(Trim(url)).Some? && EndsClean(Trim(url))
    ensures Persisted(Storage(Absent, Some(legacy)), Some(url), true)
         == After(Storage(Absent, None), [Persist(Some(legacy), true), Persist(Some(url), true)])
  {
    hide Trim, Normalize, Stable, EndsClean, Written, ReadRaw, Filter;
    var first := Persist(Some(legacy), true);
    var events := [first, Persist(Some(url), true)];
    var nothing := Storage(Absent, None);
    assert events[..1] == [first] && [first][..0] == [];
    var x := Normalize(Trim(legacy)).value;
    StableIffEndsClean(Trim(legacy));
    ReadUndoesWrite([x]);
    AbsentShows(Some(legacy));
    PersistedFirst(legacy);
  }

  lemma AbsentShows(session: Option<string>)
    ensures ReadRaw(Absent) == []
    ensures Shown(Storage(Absent, session)) == if Legacy(session).Some? then [Legacy(session).value] else []
    ensures AfterRead(Storage(Absent, session), true).session == if Legacy(session).Some? then None else session
  {
    hide Legacy;
  }

  /** Exactly when it survives its migration: when local storage takes it and it ended clean. */
  lemma LegacyKeptIff(s: Storage, writes: bool)
    requires ReadRaw(s.local) == [] && Legacy(s.session).Some?
    ensures Shown(AfterRead(s, writes)) == Shown(s) <==> writes && EndsClean(Trim(s.session.value))
  {
    var x := Legacy(s.session).value;
    StableIffEndsClean(Trim(s.session.value));
    hide Trim, Normalize, Written, ReadRaw, EndsClean;
    WrittenOnce(x);
  }

  /** It is lost when local storage refuses the write: the session forgets it all the same. */
  lemma LegacyLostOnRefusedWrite(legacy: string)
    requires Normalize(Trim(legacy)).Some?
    ensures Shown(Storage(Absent, Some(legacy))) == [Normalize(Trim(legacy)).value]
    ensures Shown(AfterRead(Storage(Absent, Some(legacy)), false)) == []
  {
    hide Normalize, Trim;
  }
}

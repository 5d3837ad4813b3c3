/**
 Listing a repository's issues page by page, following cursors or page numbers, up to a cap: the loop against the plain
 list of everything the pages hold.
 */
module IssuePages {
  import opened Basics
  import opened IssueCache

  const MAX_ISSUES := 500

  datatype Request = ByPage(page: nat) | ByCursor(after: string)

  /** What the response says about further pages. */
  datatype Links = Links(after: string, nextPage: nat)

  datatype Page = Page(issues: seq<Option<Issue>>, links: Option<Links>)

  datatype Snapshot = Failed | Listed(issues: seq<Issue>, capped: bool)

  /** A cursor goes before a page number; without either the listing ends. */
  function NextRequest(p: Page): Option<Request> {
    if p.links.None? then None
    else if p.links.value.after != "" then Some(ByCursor(p.links.value.after))
    else if p.links.value.nextPage != 0 then Some(ByPage(p.links.value.nextPage))
    else None
  }

  /** The issues proper of a page. */
  function IssuesOf(page: seq<Option<Issue>>): seq<Issue> {
    if page == [] then []
    else
      var last := page[|page| - 1];
      IssuesOf(page[..|page| - 1]) + (if last.Some? && !last.value.pullRequest then [last.value] else [])
  }

  /******* The plain list *******/

  /** From this request the pages end, or fail, within `n` requests. */
  ghost predicate Ends(srv: Request -> Option<Page>, req: Request, n: nat)
    decreases n
  {
    n > 0 &&
    match srv(req)
    case None => true
    case Some(p) => NextRequest(p).None? || Ends(srv, NextRequest(p).value, n - 1)
  }

  /** All the issues of the pages from a request on, up to the first failure, and whether there was one. */
  ghost function Everything(srv: Request -> Option<Page>, req: Request, n: nat): (seq<Issue>, bool)
    requires Ends(srv, req, n)
    decreases n
  {
    match srv(req)
    case None => ([], true)
    case Some(p) =>
      if NextRequest(p).None? then (IssuesOf(p.issues), false)
      else
        var rest := Everything(srv, NextRequest(p).value, n - 1);
        (IssuesOf(p.issues) + rest.0, rest.1)
  }

  /** The first of them up to the cap; a failure counts only if it comes before the cap is reached. */
  ghost function Wanted(all: seq<Issue>, failed: bool): Snapshot {
    if |all| >= MAX_ISSUES then Listed(all[..MAX_ISSUES], true)
    else if failed then Failed
    else Listed(all, false)
  }

  /******* The chain of pages *******/

  /** The links of a page lead to the next request: by cursor if there is one, else by page number if there is one. */
  predicate LeadsTo(links: Option<Links>, next: Request) {
    && links.Some?
    && if links.value.after != "" then next == ByCursor(links.value.after)
       else links.value.nextPage != 0 && next == ByPage(links.value.nextPage)
  }

  /** The links of a page name neither. */
  predicate LeadsNowhere(links: Option<Links>) {
    links.None? || (links.value.after == "" && links.value.nextPage == 0)
  }

  /** `pages` are what the server answers to `requests`, each request following from the page before, until a page that
   leads nowhere, or until one more request, which fails. */
  ghost predicate Chain(
    srv: Request -> Option<Page>, requests: seq<Request>, pages: seq<Page>, failed: bool)
  {
    && requests != []
    && |requests| == |pages| + (if failed then 1 else 0)
    && (forall k :: 0 <= k < |pages| ==> srv(requests[k]) == Some(pages[k]))
    && (forall k :: 0 <= k < |requests| - 1 ==> LeadsTo(pages[k].links, requests[k + 1]))
    && (if failed then srv(requests[|pages|]).None? else LeadsNowhere(pages[|pages| - 1].links))
  }

  /** The non-nil issues of all the pages that are no pull requests, in order. */
  function AllIssues(pages: seq<Page>): seq<Issue> {
    if pages == [] then [] else IssuesOf(pages[0].issues) + AllIssues(pages[1..])
  }

  /** The issues of a page, one after the other: every issue that is there and is no pull request. */
  lemma OneIssue(x: Issue)
    ensures IssuesOf([]) == [] && IssuesOf([None]) == []
    ensures IssuesOf([Some(x)]) == if x.pullRequest then [] else [x]
  {
    var none: Option<Issue> := None;
    assert [none][..0] == [] && [Some(x)][..0] == [];
  }

  lemma {:induction false} IssuesOfAppend(a: seq<Option<Issue>>, b: seq<Option<Issue>>)
    ensures IssuesOf(a + b) == IssuesOf(a) + IssuesOf(b)
  {
    if b == [] {
      assert a + b == a;
    } else {
      var n := |b| - 1;
      IssuesOfAppend(a, b[..n]);
      assert (a + b)[..|a| + n] == a + b[..n] && (a + b)[|a| + n] == b[n];
      var last := if b[n].Some? && !b[n].value.pullRequest then [b[n].value] else [];
      assert IssuesOf(a + b) == IssuesOf(a + b[..n]) + last;
      assert IssuesOf(b) == IssuesOf(b[..n]) + last;
    }
  }

  /** Over such a chain the plain list is all the issues of its pages. */
  lemma {:induction false} ChainIsEverything(
    srv: Request -> Option<Page>, requests: seq<Request>, pages: seq<Page>, failed: bool, n: nat)
    requires Chain(srv, requests, pages, failed) && Ends(srv, requests[0], n)
    ensures Everything(srv, requests[0], n) == (AllIssues(pages), failed)
    decreases |requests|
  {
    hide IssuesOf;
    if |requests| > 1 {
      var rest := requests[1..];
      forall k | 0 <= k < |pages| - 1
        ensures srv(rest[k]) == Some(pages[1..][k])
      {
        assert rest[k] == requests[k + 1];
      }
      forall k | 0 <= k < |rest| - 1
        ensures LeadsTo(pages[1..][k].links, rest[k + 1])
      {
        assert rest[k + 1] == requests[k + 2];
      }
      assert NextRequest(pages[0]) == Some(requests[1]);
      ChainIsEverything(srv, rest, pages[1..], failed, n - 1);
    } else if failed {
      assert pages == [];
    } else {
      assert |pages| == 1 && pages[1..] == [] && NextRequest(pages[0]).None?;
      assert IssuesOf(pages[0].issues) + [] == IssuesOf(pages[0].issues);
    }
  }

  lemma ChainCons(
    srv: Request -> Option<Page>, req: Request, p: Page, requests: seq<Request>, pages: seq<Page>, failed: bool)
    requires Chain(srv, requests, pages, failed) && srv(req) == Some(p) && LeadsTo(p.links, requests[0])
    ensures Chain(srv, [req] + requests, [p] + pages, failed)
  {
    hide LeadsTo, LeadsNowhere;
    var requests', pages' := [req] + requests, [p] + pages;
    forall k | 0 <= k < |pages'|
      ensures srv(requests'[k]) == Some(pages'[k])
    {
      assert k > 0 ==> srv(requests[k - 1]) == Some(pages[k - 1]);
    }
    forall k | 0 <= k < |requests'| - 1
      ensures LeadsTo(pages'[k].links, requests'[k + 1])
    {
      assert k > 0 ==> LeadsTo(pages[k - 1].links, requests[k]);
    }
  }

  /** Every listing that ends is such a chain. */
  lemma {:induction false} ChainExists(srv: Request -> Option<Page>, req: Request, n: nat)
    returns (requests: seq<Request>, pages: seq<Page>, failed: bool)
    requires Ends(srv, req, n)
    ensures requests != [] && requests[0] == req && Chain(srv, requests, pages, failed)
    decreases n
  {
    var p := srv(req);
    if p.None? {
      requests, pages, failed := [req], [], true;
    } else if NextRequest(p.value).None? {
      requests, pages, failed := [req], [p.value], false;
    } else {
      hide Chain;
      var rest, more;
      rest, more, failed := ChainExists(srv, NextRequest(p.value).value, n - 1);
      ChainCons(srv, req, p.value, rest, more, failed);
      requests, pages := [req] + rest, [p.value] + more;
    }
  }

  lemma {:induction false} IssuesOfGrows(page: seq<Option<Issue>>, k: nat)
    requires k <= |page|
    ensures IssuesOf(page[..k]) <= IssuesOf(page)
  {
    if k < |page| {
      IssuesOfGrows(page[..|page| - 1], k);
      assert page[..|page| - 1][..k] == page[..k];
    } else {
      assert page[..k] == page;
    }
  }

  /** One request of the chain: what it answers and where that leaves the rest. */
  lemma OneRequest(srv: Request -> Option<Page>, req: Request, n: nat)
    requires Ends(srv, req, n)
    ensures n > 0
    ensures srv(req).None? ==> Everything(srv, req, n) == ([], true)
    ensures srv(req).Some? && NextRequest(srv(req).value).None? ==>
      Everything(srv, req, n) == (IssuesOf(srv(req).value.issues), false)
    ensures srv(req).Some? && NextRequest(srv(req).value).Some? ==>
      && Ends(srv, NextRequest(srv(req).value).value, n - 1)
      && Everything(srv, req, n).0 ==
        IssuesOf(srv(req).value.issues) + Everything(srv, NextRequest(srv(req).value).value, n - 1).0
      && Everything(srv, req, n).1 == Everything(srv, NextRequest(srv(req).value).value, n - 1).1
  {
    hide IssuesOf, NextRequest;
  }

  /** What a full list so far says about the whole. */
  lemma FullSoFar(all: seq<Issue>, before: seq<Issue>, page: seq<Issue>, rest: seq<Issue>, failed: bool)
    requires |all| == MAX_ISSUES && all <= before + page
    ensures Wanted(before + (page + rest), failed) == Listed(all, true)
  {
    assert before + (page + rest) == all + ((before + page)[|all|..] + rest);
    assert (before + (page + rest))[..MAX_ISSUES] == all;
  }

  /** The first 500 issues; all of them if there are fewer, unless the listing failed before. */
  function FirstOf(all: seq<Issue>, failed: bool): Snapshot {
    if |all| >= 500 then Listed(all[..500], true) else if failed then Failed else Listed(all, false)
  }

  lemma ChainsAgree(srv: Request -> Option<Page>, n: nat)
    requires Ends(srv, ByPage(1), n)
    ensures forall requests, pages, failed :: Chain(srv, requests, pages, failed) && requests[0] == ByPage(1) ==>
      var all := Everything(srv, ByPage(1), n); Wanted(all.0, all.1) == FirstOf(AllIssues(pages), failed)
  {
    hide Ends, Everything, AllIssues;
    forall requests, pages, failed | Chain(srv, requests, pages, failed) && requests[0] == ByPage(1)
      ensures var all := Everything(srv, ByPage(1), n); Wanted(all.0, all.1) == FirstOf(AllIssues(pages), failed)
    {
      ChainIsEverything(srv, requests, pages, failed, n);
    }
  }

  /** fetchIssuesForRepoSince. The chain of pages is finite: it ends within `n` requests. */
  method FetchIssues(srv: Request -> Option<Page>, ghost n: nat) returns (r: Snapshot)
    requires Ends(srv, ByPage(1), n)
    ensures var all := Everything(srv, ByPage(1), n); r == Wanted(all.0, all.1)
    ensures forall requests, pages, failed :: Chain(srv, requests, pages, failed) && requests[0] == ByPage(1) ==>
      r == FirstOf(AllIssues(pages), failed)
  {
    ChainsAgree(srv, n);
    hide Ends, Everything, Chain, AllIssues, FirstOf, Wanted;
    r := FollowPages(srv, n);
  }

  /** The outer loop: page after page, until the cap, a failure or the last page. */
  method FollowPages(srv: Request -> Option<Page>, ghost n: nat) returns (r: Snapshot)
    requires Ends(srv, ByPage(1), n)
    ensures var all := Everything(srv, ByPage(1), n); r == Wanted(all.0, all.1)
  {
    hide IssuesOf, NextRequest, Ends, Everything;
    var all: seq<Issue> := [];
    var req := ByPage(1);
    ghost var left := n;
    ghost var total := Everything(srv, req, n);
    assert total.0 == all + total.0;
    while true
      invariant Ends(srv, req, left) && |all| < MAX_ISSUES
      invariant total.0 == all + Everything(srv, req, left).0 && total.1 == Everything(srv, req, left).1
      decreases left
    {
      OneRequest(srv, req, left);
      var page := srv(req);
      if page.None? {
        return Failed;
      }
      ghost var before := all;
      ghost var here := IssuesOf(page.value.issues);
      var capped: bool;
      all, capped := AppendCapped(all, page.value.issues);
      var next := NextRequest(page.value);
      ghost var rest := if next.None? then [] else Everything(srv, next.value, left - 1).0;
      assert total.0 == before + (here + rest);
      if capped {
        FullSoFar(all, before, here, rest, total.1);
        return Listed(all, true);
      }
      if next.None? {
        return Listed(all, false);
      }
      assert total.0 == all + rest;
      req := next.value;
      left := left - 1;
    }
  }

  /** The inner loop: the issues of one page, until the cap is reached. */
  method AppendCapped(before: seq<Issue>, page: seq<Option<Issue>>) returns (all: seq<Issue>, capped: bool)
    requires |before| < MAX_ISSUES
    ensures capped <==> |before| + |IssuesOf(page)| >= MAX_ISSUES
    ensures !capped ==> all == before + IssuesOf(page)
    ensures capped ==> |all| == MAX_ISSUES && all <= before + IssuesOf(page)
  {
    all, capped := before, false;
    for i := 0 to |page|
      invariant all == before + IssuesOf(page[..i]) && |all| < MAX_ISSUES
    {
      assert page[..i + 1][..i] == page[..i];
      var issue := page[i];
      if issue.None? || issue.value.pullRequest {
        assert IssuesOf(page[..i + 1]) == IssuesOf(page[..i]) + [];
        continue;
      }
      assert all + [issue.value] == before + IssuesOf(page[..i + 1]);
      all := all + [issue.value];
      if |all| >= MAX_ISSUES {
        IssuesOfGrows(page, i + 1);
        return all, true;
      }
    }
    assert page[..|page|] == page;
  }

  /** The cap flag is set exactly when the cap's worth of issues is returned; without it the list is complete. */
  lemma CappedIffFull(srv: Request -> Option<Page>, n: nat)
    requires Ends(srv, ByPage(1), n) && Wanted(Everything(srv, ByPage(1), n).0, Everything(srv, ByPage(1), n).1).Listed?
    ensures var all := Everything(srv, ByPage(1), n); var r := Wanted(all.0, all.1);
      && (r.capped <==> |r.issues| == MAX_ISSUES)
      && r.issues <= all.0
      && (!r.capped ==> r.issues == all.0 && !all.1)
  {
  }

  /** How many requests were allowed does not matter. */
  lemma {:induction false} EnoughIsEnough(srv: Request -> Option<Page>, req: Request, m: nat, n: nat)
    requires Ends(srv, req, m) && Ends(srv, req, n)
    ensures Everything(srv, req, m) == Everything(srv, req, n)
    decreases m
  {
    if srv(req).Some? && NextRequest(srv(req).value).Some? {
      EnoughIsEnough(srv, NextRequest(srv(req).value).value, m - 1, n - 1);
    }
  }
}

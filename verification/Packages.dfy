/**
 GitHub packages: listing a namespace lazily, type by type and page by page, up to a cap; sharing that listing between
 the repositories of a run; and summarising the packages of one repository.
 */
module Packages {
  import opened Basics
  import opened Text

  const MAX_PACKAGES := 100
  const PACKAGE_TYPES: seq<string> := ["container", "docker", "npm", "maven", "rubygems", "nuget"]

  datatype Owner = Owner(login: string, kind: string)

  datatype Package = Package(
    owner: Option<Owner>, repository: Option<string>, name: string, packageType: string, url: string)

  /** One page of packages of one type; a 404 or 403 means there are none of the type here. */
  datatype Answer = Page(pkgs: seq<Package>, more: bool) | Unavailable | Failed

  /** The answers of one namespace, by package type and page number. */
  type Listing = (string, nat) -> Answer

  datatype Loaded = Loaded(pkgs: seq<Package>) | LoadFailed

  /******* The plain list *******/

  /** From this page on, the pages of a type end (or fail) at page `last` at the latest. */
  ghost predicate Ends(listing: Listing, kind: string, page: nat, last: nat)
    decreases last - page
  {
    && page <= last
    && (listing(kind, page).Page? && listing(kind, page).more ==> Ends(listing, kind, page + 1, last))
  }

  /** Everything the pages of a type hold up to the first failure, and whether there was one. */
  ghost function TypeAll(listing: Listing, kind: string, page: nat, last: nat): (seq<Package>, bool)
    requires Ends(listing, kind, page, last)
    decreases last - page
  {
    match listing(kind, page)
    case Failed => ([], true)
    case Unavailable => ([], false)
    case Page(pkgs, more) =>
      if !more then (pkgs, false)
      else
        var rest := TypeAll(listing, kind, page + 1, last);
        (pkgs + rest.0, rest.1)
  }

  ghost predicate AllEnd(listing: Listing, types: seq<string>, last: nat) {
    forall kind :: kind in types ==> Ends(listing, kind, 1, last)
  }

  /** The same over several types in order. */
  ghost function AllTypes(listing: Listing, types: seq<string>, last: nat): (seq<Package>, bool)
    requires AllEnd(listing, types, last)
    decreases |types|
  {
    if types == [] then ([], false)
    else
      var here := TypeAll(listing, types[0], 1, last);
      if here.1 then here
      else
        var rest := AllTypes(listing, types[1..], last);
        (here.0 + rest.0, rest.1)
  }

  /** The first packages up to the cap; a failure counts only if it comes before the cap is reached. */
  ghost function Wanted(all: (seq<Package>, bool)): (r: Loaded)
    ensures r.Loaded? ==> |r.pkgs| <= MAX_PACKAGES && r.pkgs <= all.0
  {
    if |all.0| >= MAX_PACKAGES then Loaded(all.0[..MAX_PACKAGES])
    else if all.1 then LoadFailed
    else Loaded(all.0)
  }

  /******* What that list is *******/

  /** The pages of a type are `pages`, asked for by number from `from` on as long as there are more; then, if `failed`,
   the next one fails. A type that is not available has no further page. */
  ghost predicate TypeHolds(listing: Listing, kind: string, from: nat, pages: seq<seq<Package>>, failed: bool) {
    && (forall k :: 0 <= k < |pages| - 1 ==> listing(kind, from + k) == Page(pages[k], true))
    && if failed then
         && (pages != [] ==> listing(kind, from + |pages| - 1) == Page(pages[|pages| - 1], true))
         && listing(kind, from + |pages|).Failed?
       else
         && pages != []
         && (listing(kind, from + |pages| - 1) == Page(pages[|pages| - 1], false) ||
             (listing(kind, from + |pages| - 1).Unavailable? && pages[|pages| - 1] == []))
  }

  function Joined(parts: seq<seq<Package>>): seq<Package> {
    if parts == [] then [] else parts[0] + Joined(parts[1..])
  }

  lemma {:induction false} TypeAllIs(
    listing: Listing, kind: string, from: nat, last: nat, pages: seq<seq<Package>>, failed: bool)
    requires Ends(listing, kind, from, last) && TypeHolds(listing, kind, from, pages, failed)
    ensures TypeAll(listing, kind, from, last) == (Joined(pages), failed)
    decreases |pages|
  {
    if |pages| > 1 || (failed && pages != []) {
      var rest := pages[1..];
      forall k | 0 <= k < |rest| - 1
        ensures listing(kind, from + 1 + k) == Page(rest[k], true)
      {
        assert listing(kind, from + (k + 1)) == Page(pages[k + 1], true);
      }
      assert listing(kind, from) == Page(pages[0], true) by {
        if |pages| > 1 {
          assert listing(kind, from + 0) == Page(pages[0], true);
        }
      }
      TypeAllIs(listing, kind, from + 1, last, rest, failed);
    } else if pages != [] {
      assert from + |pages| - 1 == from && pages[1..] == [];
      assert Joined(pages) == pages[0] + [] == pages[0];
    }
  }

  /** The types hold `parts`, one after the other; if `failed`, the last of them fails, else they are all there. */
  ghost predicate TypesHold(listing: Listing, types: seq<string>, parts: seq<seq<seq<Package>>>, failed: bool) {
    && |parts| <= |types| && (if failed then parts != [] else |parts| == |types|)
    && forall k :: 0 <= k < |parts| ==> TypeHolds(listing, types[k], 1, parts[k], failed && k == |parts| - 1)
  }

  function JoinedAll(parts: seq<seq<seq<Package>>>): seq<Package> {
    if parts == [] then [] else Joined(parts[0]) + JoinedAll(parts[1..])
  }

  lemma {:induction false} AllTypesAre(
    listing: Listing, types: seq<string>, last: nat, parts: seq<seq<seq<Package>>>, failed: bool)
    requires AllEnd(listing, types, last) && TypesHold(listing, types, parts, failed)
    ensures AllTypes(listing, types, last) == (JoinedAll(parts), failed)
    decreases |types|
  {
    hide TypeHolds, Ends, TypeAll, Joined;
    if parts != [] {
      TypeAllIs(listing, types[0], 1, last, parts[0], failed && |parts| == 1);
      if failed && |parts| == 1 {
        assert Joined(parts[0]) + [] == Joined(parts[0]);
      } else {
        var rest := parts[1..];
        assert forall k :: 0 <= k < |rest| ==> rest[k] == parts[k + 1] && types[1..][k] == types[k + 1];
        AllTypesAre(listing, types[1..], last, rest, failed);
      }
    }
  }

  /** The first 100 packages; all of them if there are fewer, unless the listing failed before. */
  function FirstOf(all: seq<Package>, failed: bool): Loaded {
    if |all| >= 100 then Loaded(all[..100]) else if failed then LoadFailed else Loaded(all)
  }

  lemma TypesAgree(listing: Listing, last: nat)
    requires AllEnd(listing, PACKAGE_TYPES, last)
    ensures forall parts, failed ::
      TypesHold(listing, ["container", "docker", "npm", "maven", "rubygems", "nuget"], parts, failed) ==>
      Wanted(AllTypes(listing, PACKAGE_TYPES, last)) == FirstOf(JoinedAll(parts), failed)
  {
    var types := ["container", "docker", "npm", "maven", "rubygems", "nuget"];
    assert types == PACKAGE_TYPES;
    hide TypesHold, AllEnd, AllTypes, JoinedAll, PACKAGE_TYPES;
    forall parts, failed | TypesHold(listing, types, parts, failed)
      ensures Wanted(AllTypes(listing, types, last)) == FirstOf(JoinedAll(parts), failed)
    {
      AllTypesAre(listing, types, last, parts, failed);
    }
  }

  /******* The lazy loops *******/

  function Answered(a: Answer): Option<(seq<Package>, bool)> {
    match a
    case Page(pkgs, more) => Some((pkgs, more))
    case Unavailable => Some(([], false))
    case Failed => None
  }

  lemma OnePage(listing: Listing, kind: string, page: nat, last: nat)
    requires Ends(listing, kind, page, last)
    ensures var a := Answered(listing(kind, page));
      && page <= last
      && (a.None? ==> TypeAll(listing, kind, page, last) == ([], true))
      && (a.Some? && !a.value.1 ==> TypeAll(listing, kind, page, last) == (a.value.0, false))
      && (a.Some? && a.value.1 ==>
            && Ends(listing, kind, page + 1, last)
            && TypeAll(listing, kind, page, last).0 == a.value.0 + TypeAll(listing, kind, page + 1, last).0
            && TypeAll(listing, kind, page, last).1 == TypeAll(listing, kind, page + 1, last).1)
  {
  }

  /** loadNamespacePackagesOfType: it stops asking once `limit` is reached, so later failures do not show. */
  method LoadOfType(listing: Listing, kind: string, limit: nat, ghost last: nat) returns (r: Loaded)
    requires Ends(listing, kind, 1, last)
    ensures var all := TypeAll(listing, kind, 1, last);
      && (r.LoadFailed? ==> all.1 && |all.0| < limit)
      && (r.Loaded? ==> r.pkgs <= all.0 && (|r.pkgs| >= limit || (r.pkgs == all.0 && !all.1)))
  {
    hide Ends, TypeAll;
    var pkgs: seq<Package> := [];
    var page := 1;
    ghost var all := TypeAll(listing, kind, 1, last);
    assert all.0 == pkgs + all.0;
    while |pkgs| < limit
      invariant Ends(listing, kind, page, last)
      invariant all.0 == pkgs + TypeAll(listing, kind, page, last).0 && all.1 == TypeAll(listing, kind, page, last).1
      decreases last - page
    {
      OnePage(listing, kind, page, last);
      var answer := Answered(listing(kind, page));
      if answer.None? {
        return LoadFailed;
      }
      ghost var before := pkgs;
      pkgs := pkgs + answer.value.0;
      if !answer.value.1 {
        return Loaded(pkgs);
      }
      assert before + (answer.value.0 + TypeAll(listing, kind, page + 1, last).0)
          == pkgs + TypeAll(listing, kind, page + 1, last).0;
      page := page + 1;
    }
    return Loaded(pkgs);
  }

  function CapPackages(all: seq<Package>): seq<Package> {
    if |all| > MAX_PACKAGES then all[..MAX_PACKAGES] else all
  }

  lemma NextType(listing: Listing, types: seq<string>, i: nat, last: nat)
    requires i < |types| && AllEnd(listing, types, last)
    ensures AllEnd(listing, types[i..], last) && AllEnd(listing, types[i + 1..], last)
    ensures Ends(listing, types[i], 1, last)
    ensures var here, rest := TypeAll(listing, types[i], 1, last), AllTypes(listing, types[i + 1..], last);
      AllTypes(listing, types[i..], last) == if here.1 then here else (here.0 + rest.0, rest.1)
  {
    hide Ends, TypeAll;
    assert types[i..][1..] == types[i + 1..];
  }

  /** A prefix that is long enough gives the same packages as the whole. */
  lemma LongEnough(part: seq<Package>, all: (seq<Package>, bool))
    requires part <= all.0 && |part| >= MAX_PACKAGES
    ensures Wanted(all) == Loaded(CapPackages(part))
  {
    assert all.0[..MAX_PACKAGES] == part[..MAX_PACKAGES];
  }

  /** loadNamespacePackages: the lazy loops give the first packages of the plain list. */
  method LoadNamespacePackages(listing: Listing, ghost last: nat) returns (r: Loaded)
    requires AllEnd(listing, PACKAGE_TYPES, last)
    ensures r == Wanted(AllTypes(listing, PACKAGE_TYPES, last))
    ensures forall parts, failed ::
      TypesHold(listing, ["container", "docker", "npm", "maven", "rubygems", "nuget"], parts, failed) ==>
      r == FirstOf(JoinedAll(parts), failed)
  {
    TypesAgree(listing, last);
    hide TypesHold, AllEnd, AllTypes, JoinedAll, Wanted, FirstOf, PACKAGE_TYPES;
    r := LoadTypes(listing, PACKAGE_TYPES, last);
  }

  method LoadTypes(listing: Listing, types: seq<string>, ghost last: nat) returns (r: Loaded)
    requires AllEnd(listing, types, last)
    ensures r == Wanted(AllTypes(listing, types, last))
  {
    hide Ends, TypeAll, AllTypes, AllEnd, CapPackages, Wanted;
    var all: seq<Package> := [];
    ghost var whole := AllTypes(listing, types, last);
    assert types[0..] == types && whole.0 == all + whole.0;
    for i := 0 to |types|
      invariant all <= whole.0
      invariant AllEnd(listing, types[i..], last)
      invariant |all| < MAX_PACKAGES ==>
        whole.0 == all + AllTypes(listing, types[i..], last).0 && whole.1 == AllTypes(listing, types[i..], last).1
    {
      if |all| >= MAX_PACKAGES {
        break;
      }
      NextType(listing, types, i, last);
      var pkgs := LoadOfType(listing, types[i], MAX_PACKAGES - |all|, last);
      Continue(all, TypeAll(listing, types[i], 1, last), AllTypes(listing, types[i + 1..], last), whole, pkgs);
      if pkgs.LoadFailed? {
        return LoadFailed;
      }
      all := all + pkgs.pkgs;
    }
    if |all| >= MAX_PACKAGES {
      LongEnough(all, whole);
    } else {
      assert types[|types|..] == [];
      NothingLeft(listing, last, all, whole);
    }
    return Loaded(CapPackages(all));
  }

  lemma NothingLeft(listing: Listing, last: nat, all: seq<Package>, whole: (seq<Package>, bool))
    requires |all| < MAX_PACKAGES
    requires AllEnd(listing, [], last)
    requires whole.0 == all + AllTypes(listing, [], last).0 && whole.1 == AllTypes(listing, [], last).1
    ensures Wanted(whole) == Loaded(CapPackages(all))
  {
  }

  /** One type more: what the loop has stays a prefix of the whole, and is all of it so far unless long enough. */
  lemma Continue(
    all: seq<Package>, here: (seq<Package>, bool), rest: (seq<Package>, bool), whole: (seq<Package>, bool), r: Loaded)
    requires |all| < MAX_PACKAGES
    requires whole.0 == all + (if here.1 then here else (here.0 + rest.0, rest.1)).0
    requires whole.1 == (if here.1 then here else (here.0 + rest.0, rest.1)).1
    requires r.LoadFailed? ==> here.1 && |here.0| < MAX_PACKAGES - |all|
    requires r.Loaded? ==> r.pkgs <= here.0 && (|r.pkgs| >= MAX_PACKAGES - |all| || (r.pkgs == here.0 && !here.1))
    ensures r.LoadFailed? ==> Wanted(whole) == LoadFailed
    ensures r.Loaded? ==> all + r.pkgs <= whole.0
    ensures r.Loaded? && |all + r.pkgs| < MAX_PACKAGES ==> whole.0 == (all + r.pkgs) + rest.0 && whole.1 == rest.1
  {
  }

  /******* The namespace of a repository *******/

  datatype Repo = Repo(owner: Option<Owner>, fullName: string)

  const ORGANIZATION := "Organization"
  const USER := "User"

  predicate SameFolded(a: string, b: string) {
    ToLower(a) == ToLower(b)
  }

  function OwnerLogin(repo: Repo): string {
    if repo.owner.Some? && repo.owner.value.login != "" then repo.owner.value.login
    else
      var i := Index(repo.fullName, "/", 0);
      if i > 0 then repo.fullName[..i] else ""
  }

  function OwnerType(repo: Repo): (r: string)
    ensures r == ORGANIZATION || r == USER
  {
    if repo.owner.Some? && SameFolded(Trim(repo.owner.value.kind), ORGANIZATION) then ORGANIZATION else USER
  }

  function NamespaceOf(repo: Option<Repo>): (r: Option<Owner>)
    ensures r.Some? ==> repo.Some?
    ensures r.Some? ==> r.value.kind == ORGANIZATION || r.value.kind == USER
  {
    if repo.None? || OwnerLogin(repo.value) == "" then None
    else Some(Owner(OwnerLogin(repo.value), OwnerType(repo.value)))
  }

  function CacheKey(ns: Owner): string {
    ToLower(Trim(ns.kind)) + "\0" + ToLower(Trim(ns.login))
  }

  function PackagesPath(ns: Owner): string {
    (if SameFolded(Trim(ns.kind), ORGANIZATION) then "orgs/" else "users/") + Trim(ns.login) + "/packages"
  }

  /** Packages are listed under orgs/ for an organization and under users/ for anyone else. */
  lemma PathIs(ns: Owner)
    ensures ns.kind == "Organization" ==> PackagesPath(ns) == "orgs/" + Trim(ns.login) + "/packages"
    ensures ns.kind == "User" ==> PackagesPath(ns) == "users/" + Trim(ns.login) + "/packages"
  {
    KindNames();
    KindsDiffer();
    NamesSpelt();
    hide Trim, ToLower, ORGANIZATION, USER;
  }

  lemma NamesSpelt()
    ensures ORGANIZATION == "Organization" && USER == "User" && "organization" != "user"
  {
    KindsDiffer();
  }

  /** The namespace of a repository: its owner's login, else what stands before the first slash of its name; an
   organization only if its owner is one, in whatever case that is written. */
  lemma NamespaceIs(repo: Repo)
    ensures repo.owner.Some? && repo.owner.value.login != "" ==>
      NamespaceOf(Some(repo)).Some? && NamespaceOf(Some(repo)).value.login == repo.owner.value.login
    ensures repo.owner.None? || repo.owner.value.login == "" ==>
      var slash := Index(repo.fullName, "/", 0);
      if slash <= 0 then NamespaceOf(Some(repo)).None?
      else NamespaceOf(Some(repo)).Some? && NamespaceOf(Some(repo)).value.login == repo.fullName[..slash]
    ensures NamespaceOf(Some(repo)).Some? ==>
      (NamespaceOf(Some(repo)).value.kind == "Organization" <==>
        repo.owner.Some? && ToLower(Trim(repo.owner.value.kind)) == "organization")
    ensures NamespaceOf(None).None?
  {
    KindNames();
    NamesSpelt();
    KindsDiffer();
    hide Trim, ToLower, ORGANIZATION, USER;
  }

  lemma LowerOfJoined(a: string, b: string)
    ensures ToLower(a + b) == ToLower(a) + ToLower(b)
  {
  }

  lemma KindNames()
    ensures Trim(ORGANIZATION) == ORGANIZATION && Trim(USER) == USER
    ensures ToLower(ORGANIZATION) == "organization" && ToLower(USER) == "user"
  {
    hide Trim;
    TrimOfTrimmed(ORGANIZATION);
    TrimOfTrimmed(USER);
  }

  lemma KeyParts(k: string, l: string, k': string, l': string)
    requires k == "organization" || k == "user"
    requires k' == "organization" || k' == "user"
    ensures k + "\0" + l == k' + "\0" + l' <==> k == k' && l == l'
  {
    var x, y := k + "\0" + l, k' + "\0" + l';
    if x == y {
      assert x[0] == k[0] && y[0] == k'[0];
      assert k == k';
      assert x[|k| + 1..] == l && y[|k| + 1..] == l';
    }
  }

  lemma PathParts(first: string, m: string, second: string, m': string, tail: string)
    requires first == second
    ensures first + m + tail == second + m' + tail <==> m == m'
  {
    var x, y := first + m + tail, second + m' + tail;
    if x == y {
      assert |m| == |m'|;
      assert x[|first|..|first| + |m|] == m && y[|first|..|first| + |m|] == m';
    }
  }

  lemma PathStart(m: string, m': string, tail: string)
    ensures "orgs/" + m + tail != "users/" + m' + tail
  {
    assert ("orgs/" + m + tail)[0] == 'o' && ("users/" + m' + tail)[0] == 'u';
  }

  lemma LowerPath(ns: Owner)
    requires ns.kind == ORGANIZATION || ns.kind == USER
    ensures ToLower(PackagesPath(ns)) ==
      (if ns.kind == ORGANIZATION then "orgs/" else "users/") + ToLower(Trim(ns.login)) + "/packages"
  {
    hide Trim, ToLower, ORGANIZATION, USER;
    KindNames();
    var first := if ns.kind == ORGANIZATION then "orgs/" else "users/";
    KindsDiffer();
    LowerOfJoined(first + Trim(ns.login), "/packages");
    LowerOfJoined(first, Trim(ns.login));
    PathLiterals();
  }

  lemma KindsDiffer()
    ensures ORGANIZATION != USER && "organization" != "user"
  {
    assert |ORGANIZATION| != |USER|;
    assert |"organization"| != |"user"|;
  }

  lemma PathLiterals()
    ensures ToLower("orgs/") == "orgs/" && ToLower("users/") == "users/" && ToLower("/packages") == "/packages"
  {
  }

  /** Two repositories share a cache entry exactly when their listings are asked for by the same path, but for case. */
  lemma KeysAgreeIffPaths(a: Owner, b: Owner)
    requires a.kind == ORGANIZATION || a.kind == USER
    requires b.kind == ORGANIZATION || b.kind == USER
    ensures CacheKey(a) == CacheKey(b) <==> ToLower(PackagesPath(a)) == ToLower(PackagesPath(b))
  {
    hide Trim, ToLower, ORGANIZATION, USER, PackagesPath;
    KindNames();
    KindsDiffer();
    LowerPath(a);
    LowerPath(b);
    var la, lb := ToLower(Trim(a.login)), ToLower(Trim(b.login));
    KeyParts(ToLower(a.kind), la, ToLower(b.kind), lb);
    if a.kind == b.kind {
      PathParts(if a.kind == ORGANIZATION then "orgs/" else "users/", la,
                if a.kind == ORGANIZATION then "orgs/" else "users/", lb, "/packages");
    } else if a.kind == ORGANIZATION {
      PathStart(la, lb, "/packages");
    } else {
      PathStart(lb, la, "/packages");
    }
  }

  /******* The packages of one repository *******/

  datatype Version = Version(name: string, createdAt: nat, updatedAt: nat)

  datatype Summary = Summary(packageType: string, name: string, latest: string, url: string, latestAt: nat)

  datatype Snapshot = SnapshotFailed | Summarised(summaries: seq<Summary>, capped: bool)

  /** The versions of a package, by owner login, owner type, package type and name; None is an error. */
  type VersionsOf = (string, string, string, string) -> Option<seq<Version>>

  /** Times are seconds; 0 stands for none given. */
  function VersionTime(v: Version): nat {
    if v.updatedAt != 0 then v.updatedAt else v.createdAt
  }

  /** The version named last in time, the first listed of them, and its time. */
  function Latest(versions: seq<Version>): (string, nat) {
    if versions == [] then ("", 0)
    else
      var before, v := Latest(versions[..|versions| - 1]), versions[|versions| - 1];
      if Trim(v.name) != "" && (before.0 == "" || VersionTime(v) > before.1) then (Trim(v.name), VersionTime(v))
      else before
  }

  /** latestPackageVersion. */
  method LatestPackageVersion(versions: seq<Version>) returns (name: string, at: nat)
    ensures (name, at) == Latest(versions)
  {
    hide Trim;
    name, at := "", 0;
    for i := 0 to |versions|
      invariant (name, at) == Latest(versions[..i])
    {
      assert versions[..i + 1][..i] == versions[..i];
      var verName := Trim(versions[i].name);
      if verName == "" {
        continue;
      }
      if name == "" || VersionTime(versions[i]) > at {
        name, at := verName, VersionTime(versions[i]);
      }
    }
    assert versions[..|versions|] == versions;
  }

  ghost predicate Named(versions: seq<Version>, i: nat) {
    i < |versions| && Trim(versions[i].name) != ""
  }

  /** The i-th version is `chosen`: newer than all before it and as new as all after. */
  ghost predicate Newest(versions: seq<Version>, i: nat, chosen: (string, nat)) {
    && Named(versions, i)
    && chosen == (Trim(versions[i].name), VersionTime(versions[i]))
    && forall j: nat :: Named(versions, j) ==>
         && VersionTime(versions[j]) <= chosen.1
         && (j < i ==> VersionTime(versions[j]) < chosen.1)
  }

  /** A version counts from its update; from its creation if it was never updated. */
  lemma VersionTimeIs(v: Version)
    ensures v.updatedAt != 0 ==> VersionTime(v) == v.updatedAt
    ensures v.updatedAt == 0 ==> VersionTime(v) == v.createdAt
  {
  }

  /** Nothing is chosen only if nothing is named. */
  lemma {:induction false} LatestIsNewest(versions: seq<Version>)
    ensures Latest(versions).0 == "" <==> forall i: nat :: !Named(versions, i)
    ensures Latest(versions).0 != "" ==> exists i: nat :: Newest(versions, i, Latest(versions))
  {
    hide Trim, VersionTime;
    if versions != [] {
      var n := |versions| - 1;
      var before := versions[..n];
      LatestIsNewest(before);
      forall i: nat
        ensures i < n ==> Named(before, i) == Named(versions, i)
      {
      }
      if Latest(versions) != Latest(before) || (Named(versions, n) && Latest(before).0 == "") {
        assert Newest(versions, n, Latest(versions));
      } else if Latest(before).0 != "" {
        var i: nat :| Newest(before, i, Latest(before));
        assert Newest(versions, i, Latest(versions));
      }
    }
  }

  predicate Belongs(p: Package, fullName: string) {
    && Trim(fullName) != "" && p.repository.Some?
    && SameFolded(Trim(p.repository.value), Trim(fullName))
  }

  function FirstNonEmpty(values: seq<string>): string {
    if values == [] then ""
    else if Trim(values[0]) != "" then Trim(values[0])
    else FirstNonEmpty(values[1..])
  }

  function OwnerOf(p: Package, ns: Owner): Owner {
    var owner := if p.owner.Some? then p.owner.value else Owner("", "");
    Owner(FirstNonEmpty([owner.login, ns.login]), FirstNonEmpty([owner.kind, ns.kind, "User"]))
  }

  function VersionsFor(p: Package, ns: Owner, api: VersionsOf): Option<seq<Version>> {
    var owner := OwnerOf(p, ns);
    api(owner.login, owner.kind, Trim(p.packageType), Trim(p.name))
  }

  predicate Wants(p: Package, fullName: string) {
    Belongs(p, fullName) && Trim(p.name) != "" && Trim(p.packageType) != ""
  }

  function SummaryOf(p: Package, versions: seq<Version>): Summary {
    Summary(Trim(p.packageType), Trim(p.name), Latest(versions).0, Trim(p.url), Latest(versions).1)
  }

  /** The summaries of all the repository's packages, without a cap; None if the versions of one cannot be had. */
  function Uncapped(pkgs: seq<Package>, fullName: string, ns: Owner, api: VersionsOf): (r: Option<seq<Summary>>)
    ensures r.Some? ==> |r.value| <= |pkgs|
  {
    if pkgs == [] then Some([])
    else
      var before, p := Uncapped(pkgs[..|pkgs| - 1], fullName, ns, api), pkgs[|pkgs| - 1];
      if before.None? || !Wants(p, fullName) then before
      else if VersionsFor(p, ns, api).None? then None
      else Some(before.value + [SummaryOf(p, VersionsFor(p, ns, api).value)])
  }

  /** The package is said to belong to a repository of this name, whatever the case, and has a name and a type. */
  ghost predicate OfRepo(p: Package, fullName: string) {
    && Trim(fullName) != "" && p.repository.Some? && ToLower(Trim(p.repository.value)) == ToLower(Trim(fullName))
    && Trim(p.name) != "" && Trim(p.packageType) != ""
  }

  /** Exactly the packages of the repository are summarised, each by its own name, type, address and latest version. */
  lemma {:induction false} SummariesAre(pkgs: seq<Package>, fullName: string, ns: Owner, api: VersionsOf, x: Summary)
    requires Uncapped(pkgs, fullName, ns, api).Some?
    ensures x in Uncapped(pkgs, fullName, ns, api).value <==> exists p ::
      && p in pkgs && OfRepo(p, fullName)
      && VersionsFor(p, ns, api).Some? && SummaryIs(x, p, VersionsFor(p, ns, api).value)
  {
    hide Trim, ToLower, VersionsFor, Latest;
    if pkgs != [] {
      var n := |pkgs| - 1;
      SummariesAre(pkgs[..n], fullName, ns, api, x);
      assert pkgs == pkgs[..n] + [pkgs[n]];
    }
  }

  /** They come in the order of the packages. */
  lemma {:induction false} SummariesInOrder(
    a: seq<Package>, b: seq<Package>, fullName: string, ns: Owner, api: VersionsOf)
    requires Uncapped(a, fullName, ns, api).Some? && Uncapped(b, fullName, ns, api).Some?
    ensures Uncapped(a + b, fullName, ns, api)
         == Some(Uncapped(a, fullName, ns, api).value + Uncapped(b, fullName, ns, api).value)
  {
    hide Wants, VersionsFor, SummaryOf;
    if b == [] {
      assert a + b == a;
      assert Uncapped(a, fullName, ns, api).value + [] == Uncapped(a, fullName, ns, api).value;
    } else {
      var n := |b| - 1;
      SummariesInOrder(a, b[..n], fullName, ns, api);
      assert (a + b)[..|a| + n] == a + b[..n] && (a + b)[|a| + n] == b[n];
      var x, y := Uncapped(a, fullName, ns, api).value, Uncapped(b[..n], fullName, ns, api).value;
      if Wants(b[n], fullName) {
        var z := [SummaryOf(b[n], VersionsFor(b[n], ns, api).value)];
        assert (x + y) + z == x + (y + z);
      }
    }
  }

  /** There are none exactly if the versions of one of them cannot be had. */
  lemma {:induction false} SummariesUnless(pkgs: seq<Package>, fullName: string, ns: Owner, api: VersionsOf)
    ensures Uncapped(pkgs, fullName, ns, api).None? <==>
      exists p :: p in pkgs && OfRepo(p, fullName) && VersionsFor(p, ns, api).None?
  {
    hide Trim, ToLower, VersionsFor, SummaryOf;
    if pkgs != [] {
      var n := |pkgs| - 1;
      SummariesUnless(pkgs[..n], fullName, ns, api);
      assert pkgs == pkgs[..n] + [pkgs[n]];
    }
  }

  ghost predicate SummaryIs(x: Summary, p: Package, versions: seq<Version>) {
    && x.packageType == Trim(p.packageType) && x.name == Trim(p.name) && x.url == Trim(p.url)
    && (x.latest, x.latestAt) == Latest(versions)
  }

  /** The versions are asked for under the owner named by the package, else under that of the namespace; without any
   type it counts as a user. */
  lemma VersionsAskedFor(p: Package, ns: Owner, api: VersionsOf)
    ensures
      var login :=
        if p.owner.Some? && Trim(p.owner.value.login) != "" then Trim(p.owner.value.login) else Trim(ns.login);
      var kind :=
        if p.owner.Some? && Trim(p.owner.value.kind) != "" then Trim(p.owner.value.kind)
        else if Trim(ns.kind) != "" then Trim(ns.kind) else "User";
      VersionsFor(p, ns, api) == api(login, kind, Trim(p.packageType), Trim(p.name))
  {
    hide Trim;
    TrimOfTrimmed("");
    TrimOfTrimmed("User");
    var owner := if p.owner.Some? then p.owner.value else Owner("", "");
    FirstOfTwo(owner.login, ns.login);
    FirstOfThree(owner.kind, ns.kind, "User");
  }

  lemma FirstOfTwo(a: string, b: string)
    ensures FirstNonEmpty([a, b]) == if Trim(a) != "" then Trim(a) else Trim(b)
  {
    hide Trim;
    assert [a, b][1..] == [b] && [b][1..] == [];
    assert FirstNonEmpty([b]) == Trim(b);
  }

  lemma FirstOfThree(a: string, b: string, c: string)
    ensures FirstNonEmpty([a, b, c]) ==
      if Trim(a) != "" then Trim(a) else if Trim(b) != "" then Trim(b) else Trim(c)
  {
    hide Trim;
    assert [a, b, c][1..] == [b, c];
    FirstOfTwo(b, c);
  }

  lemma {:induction false} UncappedPrefix(pkgs: seq<Package>, k: nat, fullName: string, ns: Owner, api: VersionsOf)
    requires k <= |pkgs| && Uncapped(pkgs[..k], fullName, ns, api).None?
    ensures Uncapped(pkgs, fullName, ns, api).None?
  {
    hide Wants, VersionsFor, SummaryOf;
    if k == |pkgs| {
      assert pkgs[..k] == pkgs;
    } else {
      var n := |pkgs| - 1;
      assert pkgs[..n][..k] == pkgs[..k];
      UncappedPrefix(pkgs[..n], k, fullName, ns, api);
    }
  }

  lemma UncappedStep(pkgs: seq<Package>, i: nat, fullName: string, ns: Owner, api: VersionsOf)
    requires i < |pkgs| && Uncapped(pkgs[..i], fullName, ns, api).Some?
    ensures var p := pkgs[i]; var before := Uncapped(pkgs[..i], fullName, ns, api);
      && (!Wants(p, fullName) ==> Uncapped(pkgs[..i + 1], fullName, ns, api) == before)
      && (Wants(p, fullName) && VersionsFor(p, ns, api).None? ==> Uncapped(pkgs, fullName, ns, api).None?)
      && (Wants(p, fullName) && VersionsFor(p, ns, api).Some? ==>
            Uncapped(pkgs[..i + 1], fullName, ns, api) ==
            Some(before.value + [SummaryOf(p, VersionsFor(p, ns, api).value)]))
  {
    hide Wants, VersionsFor, SummaryOf;
    var upTo := pkgs[..i + 1];
    assert upTo[..i] == pkgs[..i] && upTo[|upTo| - 1] == pkgs[i];
    if Uncapped(upTo, fullName, ns, api).None? {
      UncappedPrefix(pkgs, i + 1, fullName, ns, api);
    }
  }

  /** The summaries end before the k-th package, which still belongs to the repository. */
  ghost predicate CutOff(
    pkgs: seq<Package>, k: nat, summaries: seq<Summary>, fullName: string, ns: Owner, api: VersionsOf) {
    k < |pkgs| && Belongs(pkgs[k], fullName) && Uncapped(pkgs[..k], fullName, ns, api) == Some(summaries)
  }

  /** summarizePackagesForRepo, for any list of packages. */
  method Summarise(pkgs: seq<Package>, repo: Repo, ns: Owner, api: VersionsOf) returns (r: Snapshot)
    ensures r.SnapshotFailed? ==> Uncapped(pkgs, repo.fullName, ns, api).None?
    ensures r.Summarised? && !r.capped ==>
      Uncapped(pkgs, repo.fullName, ns, api) == Some(r.summaries) && |r.summaries| <= MAX_PACKAGES
    ensures r.Summarised? && r.capped ==>
      |r.summaries| == MAX_PACKAGES && exists k: nat :: CutOff(pkgs, k, r.summaries, repo.fullName, ns, api)
  {
    hide Belongs, VersionsFor, Trim, Latest, Uncapped;
    var fullName := repo.fullName;
    var summaries: seq<Summary> := [];
    NoneToSummarise(fullName, ns, api);
    assert pkgs[..0] == [];
    for i := 0 to |pkgs|
      invariant Uncapped(pkgs[..i], fullName, ns, api) == Some(summaries)
      invariant |summaries| <= MAX_PACKAGES && |summaries| <= i
    {
      var p := pkgs[i];
      UncappedStep(pkgs, i, fullName, ns, api);
      if !Belongs(p, fullName) {
        continue;
      }
      if |summaries| >= MAX_PACKAGES {
        assert CutOff(pkgs, i, summaries, fullName, ns, api);
        return Summarised(summaries, true);
      }
      if Trim(p.name) == "" || Trim(p.packageType) == "" {
        continue;
      }
      var versions := VersionsFor(p, ns, api);
      if versions.None? {
        return SnapshotFailed;
      }
      var latest, at := LatestPackageVersion(versions.value);
      summaries := summaries + [Summary(Trim(p.packageType), Trim(p.name), latest, Trim(p.url), at)];
    }
    assert pkgs[..|pkgs|] == pkgs;
    return Summarised(summaries, false);
  }

  lemma NoneToSummarise(fullName: string, ns: Owner, api: VersionsOf)
    ensures Uncapped([], fullName, ns, api) == Some([])
  {
  }

  /******* A run over many repositories *******/

  /** What the services answer during a run. Paths that differ only in case name the same namespace. */
  datatype Api = Api(listing: string -> Listing, versions: VersionsOf)

  ghost predicate CaseBlind(api: Api) {
    forall a, b :: SameFolded(a, b) ==> api.listing(a) == api.listing(b)
  }

  ghost predicate Finite(api: Api, last: nat) {
    forall path :: AllEnd(api.listing(path), PACKAGE_TYPES, last)
  }

  /** A namespace's packages as a fresh listing gives them. */
  ghost function Fresh(api: Api, ns: Owner, last: nat): Loaded
    requires Finite(api, last)
  {
    Wanted(AllTypes(api.listing(PackagesPath(ns)), PACKAGE_TYPES, last))
  }

  /** What a repository's packages come to without cache and without the cap on summaries. */
  ghost function Plain(api: Api, repo: Option<Repo>, last: nat): Snapshot
    requires Finite(api, last)
  {
    if NamespaceOf(repo).None? || Fresh(api, NamespaceOf(repo).value, last).LoadFailed? then SnapshotFailed
    else
      var ns := NamespaceOf(repo).value;
      var all := Uncapped(Fresh(api, ns, last).pkgs, repo.value.fullName, ns, api.versions);
      if all.None? then SnapshotFailed else Summarised(all.value, false)
  }

  ghost predicate RightEntries(entries: map<string, Loaded>, api: Api, last: nat)
    requires Finite(api, last)
  {
    forall repo :: NamespaceOf(repo).Some? && CacheKey(NamespaceOf(repo).value) in entries ==>
      entries[CacheKey(NamespaceOf(repo).value)] == Fresh(api, NamespaceOf(repo).value, last)
  }

  /** The namespaces already listed in this run. */
  class PackageCollector {
    var entries: map<string, Loaded>

    constructor ()
      ensures entries == map[]
    {
      entries := map[];
    }

    /** namespacePackagesFromCache. */
    method NamespacePackages(repo: Option<Repo>, api: Api, ghost last: nat) returns (r: Loaded)
      requires CaseBlind(api) && Finite(api, last) && RightEntries(entries, api, last)
      modifies this
      ensures RightEntries(entries, api, last)
      ensures NamespaceOf(repo).None? ==> r.LoadFailed? && entries == old(entries)
      ensures NamespaceOf(repo).Some? ==>
        && r == Fresh(api, NamespaceOf(repo).value, last)
        && entries == old(entries)[CacheKey(NamespaceOf(repo).value) := r]
    {
      hide NamespaceOf, CacheKey, PackagesPath, AllEnd, AllTypes, CaseBlind, Wanted;
      var ns := NamespaceOf(repo);
      if ns.None? {
        return LoadFailed;
      }
      var key := CacheKey(ns.value);
      if key in entries {
        assert entries == entries[key := entries[key]];
        return entries[key];
      }
      r := LoadNamespacePackages(api.listing(PackagesPath(ns.value)), last);
      EntryStaysRight(entries, api, last, ns.value, r);
      entries := entries[key := r];
    }

    /** fetchPackagesForRepo. */
    method FetchPackages(repo: Option<Repo>, api: Api, ghost last: nat) returns (r: Snapshot)
      requires CaseBlind(api) && Finite(api, last) && RightEntries(entries, api, last)
      modifies this
      ensures RightEntries(entries, api, last)
      ensures r == Plain(api, repo, last)
    {
      hide NamespaceOf, CacheKey, PackagesPath, AllEnd, AllTypes, CaseBlind, Finite, RightEntries, Uncapped, Belongs;
      var entry := NamespacePackages(repo, api, last);
      if entry.LoadFailed? {
        return SnapshotFailed;
      }
      r := Summarise(entry.pkgs, repo.value, NamespaceOf(repo).value, api.versions);
    }
  }

  lemma EntryStaysRight(entries: map<string, Loaded>, api: Api, last: nat, ns: Owner, r: Loaded)
    requires CaseBlind(api) && Finite(api, last) && RightEntries(entries, api, last)
    requires ns.kind == ORGANIZATION || ns.kind == USER
    requires r == Fresh(api, ns, last)
    ensures RightEntries(entries[CacheKey(ns) := r], api, last)
  {
    hide NamespaceOf, CacheKey, PackagesPath, AllEnd, AllTypes, Wanted, Finite, ORGANIZATION, USER;
    forall repo | NamespaceOf(repo).Some? && CacheKey(NamespaceOf(repo).value) == CacheKey(ns)
      ensures Fresh(api, NamespaceOf(repo).value, last) == r
    {
      KeysAgreeIffPaths(ns, NamespaceOf(repo).value);
    }
  }

  /** The package snapshots of one run: the cache saves requests and changes nothing, and no list is ever cut short. */
  method FetchAll(repos: seq<Option<Repo>>, api: Api, ghost last: nat) returns (r: seq<Snapshot>)
    requires CaseBlind(api) && Finite(api, last)
    ensures |r| == |repos|
    ensures forall i :: 0 <= i < |repos| ==> r[i] == Plain(api, repos[i], last)
    ensures forall i :: 0 <= i < |repos| && r[i].Summarised? ==> !r[i].capped
  {
    hide CaseBlind, Finite, RightEntries, Plain;
    var collector := new PackageCollector();
    EmptyCacheRight(api, last);
    r := [];
    for i := 0 to |repos|
      invariant RightEntries(collector.entries, api, last)
      invariant |r| == i && forall j :: 0 <= j < i ==> r[j] == Plain(api, repos[j], last)
      invariant forall j :: 0 <= j < i && r[j].Summarised? ==> !r[j].capped
    {
      var snapshot := collector.FetchPackages(repos[i], api, last);
      PlainIsWhole(api, repos[i], last);
      r := r + [snapshot];
    }
  }

  lemma PlainIsWhole(api: Api, repo: Option<Repo>, last: nat)
    requires Finite(api, last)
    ensures Plain(api, repo, last).Summarised? ==> !Plain(api, repo, last).capped
  {
    hide NamespaceOf, Fresh, Uncapped, Finite;
  }

  lemma EmptyCacheRight(api: Api, last: nat)
    requires Finite(api, last)
    ensures RightEntries(map[], api, last)
  {
    hide NamespaceOf, CacheKey, Fresh, Finite;
  }
}

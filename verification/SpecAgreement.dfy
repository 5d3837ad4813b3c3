/**
 The frontend's form and the Go collector agree: reading a spec into the form and composing it again gives a spec that
 the collector reads as the same source.
 */
module SpecAgreement {
  import opened Basics
  import opened Text
  import G = SourceSpec
  import F = SpecForm

  /** The spec with its modifiers as the collector will lower-case them. */
  ghost predicate LowerCaseModifiers(spec: string) {
    var parts := Split(Trim(spec), G.SEPARATOR);
    forall i :: 1 <= i < |parts| ==> G.Modifier(parts[i]) == Trim(parts[i])
  }

  /******* Both sides cut a spec into the same parts *******/

  lemma {:induction false} ModifiersAre(pieces: seq<string>)
    requires G.ModifiersOf(pieces).Ok?
    ensures |G.ModifiersOf(pieces).value| == |pieces|
    ensures forall i :: 0 <= i < |pieces| ==>
      G.ModifiersOf(pieces).value[i] == G.Modifier(pieces[i]) && Trim(pieces[i]) != ""
  {
    hide G.Modifier, G.OneToken, Trim;
    if pieces != [] {
      ModifiersAre(pieces[..|pieces| - 1]);
    }
  }

  lemma {:induction false} NothingFiltered(parts: seq<string>)
    requires forall i :: 0 <= i < |parts| ==> parts[i] != ""
    ensures Filter(F.NonEmpty, parts) == parts
  {
    if parts != [] {
      NothingFiltered(parts[1..]);
    }
  }

  /** A spec the collector can split has the same primary and the same modifiers in the form. */
  lemma SameParts(spec: string)
    requires G.SplitSourceSpec(spec).Ok? && LowerCaseModifiers(spec)
    ensures var pieces := G.SplitSourceSpec(spec).value; F.PartsOf(spec) == [pieces.primary] + pieces.modifiers
  {
    hide G.Modifier, G.ModifierError, Trim, Split, G.ModifiersOf;
    var parts := Split(Trim(spec), " +");
    ModifiersAre(parts[1..]);
    var pieces := G.SplitSourceSpec(spec).value;
    forall i | 0 <= i < |parts|
      ensures F.TrimAll(parts)[i] == ([pieces.primary] + pieces.modifiers)[i] != ""
    {
      if i > 0 {
        assert parts[1..][i - 1] == parts[i];
      }
    }
    assert F.TrimAll(parts) == [pieces.primary] + pieces.modifiers;
    NothingFiltered(F.TrimAll(parts));
  }

  /******* A composed spec splits back *******/

  /** A token that can stand behind the separator: not empty, no white space, no plus. */
  ghost predicate CleanToken(t: string) {
    t != "" && forall i :: 0 <= i < |t| ==> !IsSpace(t[i]) && t[i] != '+'
  }

  /** Text that ends without white space and does not hold the separator. */
  ghost predicate CleanHead(s: string) {
    s != "" && !IsSpace(s[0]) && !IsSpace(s[|s| - 1]) && !Contains(s, " +")
  }

  lemma TokenIsHead(t: string)
    requires CleanToken(t)
    ensures CleanHead(t)
  {
    forall j: nat
      ensures !OccursAt(t, " +", j)
    {
      if j + 2 <= |t| {
        assert t[j..j + 2][0] == t[j] && !IsSpace(t[j]);
      }
    }
  }

  lemma HeadHoldsNone(s: string)
    requires CleanHead(s)
    ensures !Contains(s, " +")
  {
  }

  /** The separator occurs for the first time right behind a clean head. */
  lemma SplitBehindHead(head: string, rest: string)
    requires CleanHead(head)
    ensures Split(head + " +" + rest, " +") == [head] + Split(rest, " +")
  {
    var s := head + " +" + rest;
    forall j: nat | j < |head|
      ensures !OccursAt(s, " +", j)
    {
      if j + 2 <= |head| {
        assert s[j..j + 2] == head[j..j + 2];
        assert !OccursAt(head, " +", j);
      } else {
        assert s[j..j + 2][0] == head[|head| - 1];
      }
    }
    SplitHead(head, " +", rest);
  }

  /** The suffixes, first token first. */
  ghost function Tail(tokens: seq<string>): string {
    if tokens == [] then "" else " +" + tokens[0] + Tail(tokens[1..])
  }

  lemma {:induction false} TailAppend(tokens: seq<string>, last: string)
    ensures Tail(tokens + [last]) == Tail(tokens) + " +" + last
  {
    if tokens == [] {
      assert ([] + [last])[1..] == [];
      assert Tail([last]) == " +" + last + "";
    } else {
      TailAppend(tokens[1..], last);
      assert (tokens + [last])[1..] == tokens[1..] + [last];
    }
  }

  lemma {:induction false} SuffixesAreTail(tokens: seq<string>)
    ensures F.Suffixes(tokens) == Tail(tokens)
  {
    if tokens != [] {
      var n := |tokens| - 1;
      SuffixesAreTail(tokens[..n]);
      TailAppend(tokens[..n], tokens[n]);
      assert tokens == tokens[..n] + [tokens[n]];
    }
  }

  lemma {:induction false} SplitTail(head: string, tokens: seq<string>)
    requires CleanHead(head) && forall t :: t in tokens ==> CleanToken(t)
    ensures Split(head + Tail(tokens), " +") == [head] + tokens
    decreases |tokens|
  {
    hide Split, CleanHead, CleanToken;
    if tokens == [] {
      assert head + "" == head;
      HeadHoldsNone(head);
      SplitWithout(head, " +");
    } else {
      var rest := tokens[0] + Tail(tokens[1..]);
      TokenIsHead(tokens[0]);
      calc {
        Split(head + Tail(tokens), " +");
        { assert head + (" +" + tokens[0] + Tail(tokens[1..])) == head + " +" + rest; }
        Split(head + " +" + rest, " +");
        { SplitBehindHead(head, rest); }
        [head] + Split(rest, " +");
        { SplitTail(tokens[0], tokens[1..]); }
        [head] + ([tokens[0]] + tokens[1..]);
        [head] + tokens;
      }
    }
  }

  lemma EndBehind(a: string, token: string, tail: string)
    requires a != "" && CleanToken(token) && !IsSpace(a[0]) && Trimmed(token + tail)
    ensures Trimmed(a + (token + tail))
  {
    var s := token + tail;
    assert (a + s)[|a + s| - 1] == s[|s| - 1];
  }

  lemma {:induction false} TailEnd(head: string, tokens: seq<string>)
    requires head != "" && Trimmed(head) && forall t :: t in tokens ==> CleanToken(t)
    ensures Trimmed(head + Tail(tokens))
    decreases |tokens|
  {
    hide IsSpace, CleanToken;
    if tokens == [] {
      assert head + "" == head;
    } else {
      TokenTrims(tokens[0]);
      TailEnd(tokens[0], tokens[1..]);
      var s := tokens[0] + Tail(tokens[1..]);
      assert head + Tail(tokens) == head + " +" + s;
      EndBehind(head + " +", tokens[0], Tail(tokens[1..]));
    }
  }

  lemma TokenTrims(t: string)
    requires CleanToken(t)
    ensures t != "" && Trimmed(t) && Trim(t) == t && G.OneToken(t)
  {
    TrimOfTrimmed(t);
  }

  /** What the collector makes of a clean head followed by lower-case tokens. */
  lemma ComposedPieces(head: string, tokens: seq<string>)
    requires CleanHead(head) && forall t :: t in tokens ==> CleanToken(t) && ToLower(t) == t
    ensures G.SplitSourceSpec(head + F.Suffixes(tokens)) == G.Ok(G.Pieces(head, tokens))
    ensures LowerCaseModifiers(head + F.Suffixes(tokens))
  {
    hide Split, Trim, ToLower, G.OneToken, F.Suffixes, G.ModifiersOf;
    SuffixesAreTail(tokens);
    var s := head + Tail(tokens);
    TailEnd(head, tokens);
    TrimOfTrimmed(s);
    SplitTail(head, tokens);
    TrimOfTrimmed(head);
    assert ([head] + tokens)[1..] == tokens;
    ModifiersOfTokens(tokens);
    forall t | t in tokens
      ensures G.Modifier(t) == Trim(t)
    {
      TokenTrims(t);
    }
  }

  function LowerAll(tokens: seq<string>): (r: seq<string>)
    ensures |r| == |tokens| && forall i :: 0 <= i < |r| ==> r[i] == ToLower(tokens[i])
  {
    seq(|tokens|, i requires 0 <= i < |tokens| => ToLower(tokens[i]))
  }

  lemma {:induction false} ModifiersLowered(tokens: seq<string>)
    requires forall t :: t in tokens ==> CleanToken(t)
    ensures G.ModifiersOf(tokens) == G.Ok(LowerAll(tokens))
  {
    hide Trim, ToLower, G.OneToken;
    if tokens != [] {
      var n := |tokens| - 1;
      ModifiersLowered(tokens[..n]);
      TokenTrims(tokens[n]);
      assert LowerAll(tokens) == LowerAll(tokens[..n]) + [ToLower(tokens[n])];
    }
  }

  /** The collector reads modifiers in any case as the small ones. */
  lemma TokensInAnyCase(head: string, tokens: seq<string>)
    requires CleanHead(head) && forall t :: t in tokens ==> CleanToken(t)
    ensures G.SplitSourceSpec(head + F.Suffixes(tokens)) == G.Ok(G.Pieces(head, LowerAll(tokens)))
  {
    hide Split, Trim, ToLower, G.OneToken, F.Suffixes, G.ModifiersOf;
    SuffixesAreTail(tokens);
    var s := head + Tail(tokens);
    TailEnd(head, tokens);
    TrimOfTrimmed(s);
    SplitTail(head, tokens);
    TrimOfTrimmed(head);
    assert ([head] + tokens)[1..] == tokens;
    ModifiersLowered(tokens);
  }

  lemma {:induction false} ModifiersOfTokens(tokens: seq<string>)
    requires forall t :: t in tokens ==> CleanToken(t) && ToLower(t) == t
    ensures G.ModifiersOf(tokens) == G.Ok(tokens)
  {
    hide Trim, ToLower, G.OneToken;
    if tokens != [] {
      var n := |tokens| - 1;
      ModifiersOfTokens(tokens[..n]);
      TokenTrims(tokens[n]);
      assert tokens[n] in tokens;
      assert tokens == tokens[..n] + [tokens[n]];
    }
  }

  /******* Modifiers *******/

  /** The four options as the form holds them. */
  ghost predicate FlagsAre(b: F.Builder, o: G.Opts) {
    b.modifiers == map["dependabot" := o.dependabot, "pr" := o.prs, "issue" := o.issues, "packages" := o.packages]
  }

  ghost function Picked(o: G.Opts): seq<string> {
    (if o.dependabot then ["dependabot"] else []) + (if o.prs then ["pr"] else []) +
    (if o.issues then ["issue"] else []) + (if o.packages then ["packages"] else [])
  }

  lemma FlagsAppend(ms: seq<F.Modifier>, m: F.Modifier, tokens: set<string>)
    ensures F.ModifierFlags(ms + [m], tokens) == F.ModifierFlags(ms, tokens)[m.id := m.syntaxSuffix in tokens]
  {
    assert (ms + [m])[..|ms|] == ms;
  }

  lemma ChosenAppend(ms: seq<F.Modifier>, m: F.Modifier, b: F.Builder)
    ensures F.Chosen(ms + [m], b) == F.Chosen(ms, b) + if F.Switched(b, m) then [m.syntaxSuffix] else []
  {
    assert (ms + [m])[..|ms|] == ms;
  }

  const DEPENDABOT := F.Modifier("dependabot", "boolean", "dependabot")
  const PR := F.Modifier("pr", "boolean", "pr")
  const ISSUE := F.Modifier("issue", "boolean", "issue")
  const PACKAGES := F.Modifier("packages", "boolean", "packages")

  lemma FlagsFromTokens(modifiers: seq<string>, tokens: set<string>)
    requires G.OptsFromModifiers(modifiers).Ok? && forall t :: t in tokens <==> t in modifiers
    ensures FlagsAre(
      F.Builder("", map[], F.ModifierFlags(F.GITHUB.modifiers, tokens)), G.OptsFromModifiers(modifiers).value)
  {
    hide F.ModifierFlags;
    FlagsAppend([], DEPENDABOT, tokens);
    FlagsAppend([DEPENDABOT], PR, tokens);
    FlagsAppend([DEPENDABOT, PR], ISSUE, tokens);
    FlagsAppend([DEPENDABOT, PR, ISSUE], PACKAGES, tokens);
    NoFlags(tokens);
    assert [] + [DEPENDABOT] == [DEPENDABOT] && [DEPENDABOT] + [PR] == [DEPENDABOT, PR];
    assert [DEPENDABOT, PR] + [ISSUE] == [DEPENDABOT, PR, ISSUE];
    assert [DEPENDABOT, PR, ISSUE] + [PACKAGES] == F.GITHUB.modifiers;
  }

  lemma NoFlags(tokens: set<string>)
    ensures F.ModifierFlags([], tokens) == map[]
  {
  }

  lemma ChosenArePicked(b: F.Builder, o: G.Opts)
    requires FlagsAre(b, o)
    ensures F.Chosen(F.GITHUB.modifiers, b) == Picked(o)
  {
    hide F.Chosen, F.Switched, FlagsAre;
    SwitchedAreFlags(b, o);
    ChosenAppend([], DEPENDABOT, b);
    ChosenAppend([DEPENDABOT], PR, b);
    ChosenAppend([DEPENDABOT, PR], ISSUE, b);
    ChosenAppend([DEPENDABOT, PR, ISSUE], PACKAGES, b);
    NoneChosen(b);
    assert [] + [DEPENDABOT] == [DEPENDABOT] && [DEPENDABOT] + [PR] == [DEPENDABOT, PR];
    assert [DEPENDABOT, PR] + [ISSUE] == [DEPENDABOT, PR, ISSUE];
    assert [DEPENDABOT, PR, ISSUE] + [PACKAGES] == F.GITHUB.modifiers;
  }

  lemma SwitchedAreFlags(b: F.Builder, o: G.Opts)
    requires FlagsAre(b, o)
    ensures F.Switched(b, DEPENDABOT) == o.dependabot && F.Switched(b, PR) == o.prs
    ensures F.Switched(b, ISSUE) == o.issues && F.Switched(b, PACKAGES) == o.packages
  {
  }

  lemma NoneChosen(b: F.Builder)
    ensures F.Chosen([], b) == []
  {
  }

  lemma PickedReadBack(o: G.Opts)
    ensures G.OptsFromModifiers(Picked(o)) == G.Ok(o)
    ensures forall t :: t in Picked(o) ==> t in G.KNOWN
  {
    assert "dependabot" in Picked(o) <==> o.dependabot;
    assert "pr" in Picked(o) <==> o.prs;
    assert "issue" in Picked(o) <==> o.issues;
    assert "packages" in Picked(o) <==> o.packages;
  }

  lemma KnownAreClean(t: string)
    requires t in G.KNOWN
    ensures CleanToken(t) && ToLower(t) == t
  {
  }

  /******* The primary part *******/

  lemma AbsorbSpace(left: string, s: string, right: string)
    requires AllSpace(left) && AllSpace(right)
    ensures Trim(left + s + right) == Trim(s)
  {
    hide Trim;
    var l, r := TrimSplits(s);
    assert left + s + right == (left + l) + Trim(s) + (r + right);
    TrimIs(left + l, Trim(s), r + right);
  }

  /** Where the first slash of `left + s + right` is, when `left` is white space. */
  lemma FirstSlashBehindSpace(left: string, s: string, right: string)
    requires AllSpace(left) && Index(s, "/", 0) >= 0
    ensures Index(left + s + right, "/", 0) == |left| + Index(s, "/", 0)
  {
    SpaceHasNoSlash(left);
    hide AllSpace, Index;
    IndexInFront(s, right, "/");
    IndexBehind(left, s + right, "/");
    assert left + (s + right) == left + s + right;
  }

  lemma SpaceHasNoSlash(left: string)
    requires AllSpace(left)
    ensures '/' !in left && "/"[0] == '/'
  {
  }

  /** The slug the form reads, trimmed, is the slug the collector reads. */
  lemma SlugsAgree(rest: string)
    requires G.ParseSlug(Trim(rest)).Ok? && F.SlugMatch(rest).Some?
    ensures var m := F.SlugMatch(rest).value; var t := G.ParseSlug(Trim(rest)).value;
      t.owner == Trim(m.0) && t.repo == Trim(m.1)
  {
    hide Trim;
    var left, right := TrimSplits(rest);
    var core := Trim(rest);
    var k := Index(core, "/", 0);
    FirstSlashBehindSpace(left, core, right);
    assert rest[..|left| + k] == left + core[..k] + "";
    AbsorbSpace(left, core[..k], "");
    assert rest[|left| + k + 1..] == "" + core[k + 1..] + right;
    AbsorbSpace("", core[k + 1..], right);
  }

  lemma LoginTrims(rest: string)
    requires F.LoginMatch(rest)
    ensures Trim(rest) == rest && '/' !in rest
  {
    TrimOfTrimmed(rest);
  }

  lemma PrefixHead(s: string, prefix: string)
    requires prefix != "" && HasPrefix(s, prefix)
    ensures s != "" && s[0] == prefix[0]
  {
    assert s[..|prefix|][0] == s[0];
  }

  lemma LowerPrefix(s: string, prefix: string)
    requires HasPrefix(s, prefix) && ToLower(prefix) == prefix
    ensures HasPrefix(ToLower(s), prefix)
  {
    assert forall i :: 0 <= i < |prefix| ==> s[i] == s[..|prefix|][i];
    assert ToLower(s)[..|prefix|] == prefix;
  }

  lemma RepoIsNotOrg(s: string)
    requires HasPrefix(s, "repo:")
    ensures HasPrefix(ToLower(s), "repo:") && !HasPrefix(ToLower(s), "org.repos:") && !HasPrefix(s, "org.repos:")
  {
    assert ToLower("repo:") == "repo:";
    LowerPrefix(s, "repo:");
    PrefixHead(s, "repo:");
    PrefixHead(ToLower(s), "repo:");
    if HasPrefix(ToLower(s), "org.repos:") {
      PrefixHead(ToLower(s), "org.repos:");
    }
    if HasPrefix(s, "org.repos:") {
      PrefixHead(s, "org.repos:");
    }
  }

  lemma OrgIsNotRepo(s: string)
    requires HasPrefix(s, "org.repos:")
    ensures HasPrefix(ToLower(s), "org.repos:") && !HasPrefix(s, "repo:")
  {
    assert ToLower("org.repos:") == "org.repos:";
    LowerPrefix(s, "org.repos:");
    PrefixHead(s, "org.repos:");
    if HasPrefix(s, "repo:") {
      PrefixHead(s, "repo:");
    }
  }

  /******* Composing the primary part *******/

  lemma NotInside(s: string, pat: string, a: string, b: string, c: string)
    requires s == a + b + c && !Contains(s, pat)
    ensures !Contains(b, pat)
  {
    forall j: nat
      ensures !OccursAt(b, pat, j)
    {
      if j + |pat| <= |b| {
        assert s[|a| + j..|a| + j + |pat|] == b[j..j + |pat|];
        assert !OccursAt(s, pat, |a| + j);
      }
    }
  }

  /** `pat` does not occur in `a + pat + b` before position `|a|`, if `a` ends with a character that `pat` lacks. */
  lemma FirstPlaceholder(a: string, pat: string, b: string)
    requires pat != "" && !Contains(a, pat)
    requires a != "" && a[|a| - 1] !in pat
    ensures forall j: nat :: j < |a| ==> !OccursAt(a + pat + b, pat, j)
  {
    var s := a + pat + b;
    forall j: nat | j < |a|
      ensures !OccursAt(s, pat, j)
    {
      if j + |pat| <= |a| {
        assert s[j..j + |pat|] == a[j..j + |pat|];
        assert !OccursAt(a, pat, j);
      } else {
        DiffersAt(s, pat, j, |a| - 1 - j);
      }
    }
  }

  lemma WithoutBrace(s: string, pat: string)
    requires pat != "" && pat[0] !in s
    ensures !Contains(s, pat)
  {
    forall j: nat
      ensures !OccursAt(s, pat, j)
    {
      DiffersAt(s, pat, j, 0);
    }
  }

  lemma NothingInEmpty(pat: string)
    requires pat != ""
    ensures !Contains("", pat)
  {
  }

  lemma FillOwner(owner: string)
    ensures ReplaceAll("repo:{owner}/{name}", "{owner}", owner) == "repo:" + owner + "/{name}"
  {
    hide ReplaceAll;
    WithoutBrace("repo:", "{owner}");
    FirstPlaceholder("repo:", "{owner}", "/{name}");
    OwnerNotInName();
    ReplaceOnce("repo:", "{owner}", "/{name}", owner);
    assert "repo:" + "{owner}" + "/{name}" == "repo:{owner}/{name}";
  }

  lemma OwnerNotInName()
    ensures !Contains("/{name}", "{owner}")
  {
    forall j: nat
      ensures !OccursAt("/{name}", "{owner}", j)
    {
      DiffersAt("/{name}", "{owner}", j, 0);
    }
  }

  lemma NameNotInOwner(owner: string)
    requires !Contains(owner, "{name}")
    ensures !Contains("repo:" + owner + "/", "{name}")
  {
    var a := "repo:" + owner + "/";
    forall j: nat
      ensures !OccursAt(a, "{name}", j)
    {
      if j < 5 {
        DiffersAt(a, "{name}", j, 0);
      } else if j + 6 <= 5 + |owner| {
        assert a[j..j + 6] == owner[j - 5..j - 5 + 6];
        assert !OccursAt(owner, "{name}", j - 5);
      } else {
        DiffersAt(a, "{name}", j, 5);
      }
    }
  }

  lemma FillName(owner: string, name: string)
    requires !Contains(owner, "{name}")
    ensures ReplaceAll("repo:" + owner + "/{name}", "{name}", name) == "repo:" + owner + "/" + name
  {
    hide ReplaceAll;
    var a := "repo:" + owner + "/";
    NameNotInOwner(owner);
    FirstPlaceholder(a, "{name}", "");
    NothingInEmpty("{name}");
    ReplaceOnce(a, "{name}", "", name);
    assert a + "{name}" + "" == "repo:" + owner + "/{name}";
    assert a + name + "" == "repo:" + owner + "/" + name;
  }

  lemma FillLogin(login: string)
    ensures ReplaceAll("org.repos:{login}", "{login}", login) == "org.repos:" + login
  {
    hide ReplaceAll;
    WithoutBrace("org.repos:", "{login}");
    FirstPlaceholder("org.repos:", "{login}", "");
    NothingInEmpty("{login}");
    ReplaceOnce("org.repos:", "{login}", "", login);
    assert "org.repos:" + "{login}" + "" == "org.repos:{login}";
    assert "org.repos:" + login + "" == "org.repos:" + login;
  }

  lemma FilledRepo(b: F.Builder, owner: string, name: string)
    requires "owner" in b.args && "name" in b.args
    requires Trim(b.args["owner"]) == owner && Trim(b.args["name"]) == name
    ensures F.Filled(F.REPO.valueTemplate, F.REPO.args, b) == ReplaceAll("repo:" + owner + "/{name}", "{name}", name)
  {
    hide ReplaceAll, Trim;
    var args := F.REPO.args;
    assert args[..1] == ["owner"] && args[..1][..0] == [];
    assert F.Filled(F.REPO.valueTemplate, [], b) == F.REPO.valueTemplate;
    assert "{" + "owner" + "}" == "{owner}" && "{" + "name" + "}" == "{name}";
    FillOwner(owner);
    assert F.Filled(F.REPO.valueTemplate, ["owner"], b) == "repo:" + owner + "/{name}";
  }

  lemma RepoHead(b: F.Builder, owner: string, name: string)
    requires "owner" in b.args && "name" in b.args
    requires Trim(b.args["owner"]) == owner && Trim(b.args["name"]) == name && !Contains(owner, "{name}")
    ensures F.Filled(F.REPO.valueTemplate, F.REPO.args, b) == "repo:" + owner + "/" + name
  {
    FilledRepo(b, owner, name);
    FillName(owner, name);
  }

  lemma OrgHead(b: F.Builder, login: string)
    requires "login" in b.args && Trim(b.args["login"]) == login
    ensures F.Filled(F.ORG.valueTemplate, F.ORG.args, b) == "org.repos:" + login
  {
    hide ReplaceAll, Trim;
    var args := F.ORG.args;
    assert args[..0] == [];
    assert F.Filled(F.ORG.valueTemplate, [], b) == F.ORG.valueTemplate;
    assert "{" + "login" + "}" == "{login}";
    FillLogin(login);
  }

  /******* Reading a composed spec *******/

  /** An owner and a name that survive composing. */
  ghost predicate PlainSlug(owner: string, name: string) {
    && owner != "" && Trimmed(owner) && '/' !in owner && !Contains(owner, " +")
    && name != "" && Trimmed(name) && !Contains(name, " +")
  }

  ghost predicate PlainLogin(login: string) {
    login != "" && forall i :: 0 <= i < |login| ==> !IsSpace(login[i]) && login[i] != '/'
  }

  function RepoPrimary(owner: string, name: string): string {
    "repo:" + owner + "/" + name
  }

  lemma RepoHeadClean(owner: string, name: string)
    requires !Contains(owner, " +") && name != "" && Trimmed(name) && !Contains(name, " +")
    ensures CleanHead(RepoPrimary(owner, name))
  {
    var s := RepoPrimary(owner, name);
    assert s[|s| - 1] == name[|name| - 1];
    forall j: nat
      ensures !OccursAt(s, " +", j)
    {
      if j < 5 || j == 5 + |owner| {
        DiffersAt(s, " +", j, 0);
      } else if j + 2 <= 5 + |owner| {
        assert s[j..j + 2] == owner[j - 5..j - 5 + 2];
        assert !OccursAt(owner, " +", j - 5);
      } else if j < 5 + |owner| {
        DiffersAt(s, " +", j, 1);
      } else {
        var k := j - 6 - |owner|;
        assert j + 2 <= |s| ==> s[j..j + 2] == name[k..k + 2];
        assert !OccursAt(name, " +", k);
      }
    }
  }

  lemma OrgHeadClean(login: string)
    requires PlainLogin(login)
    ensures CleanHead("org.repos:" + login)
  {
    var s := "org.repos:" + login;
    assert s[|s| - 1] == login[|login| - 1];
    forall j: nat
      ensures !OccursAt(s, " +", j)
    {
      DiffersAt(s, " +", j, 0);
    }
  }

  /** The first slash of owner/name is the one between them. */
  lemma SlugSlash(owner: string, name: string)
    requires '/' !in owner
    ensures Index(owner + "/" + name, "/", 0) == |owner|
  {
    var s := owner + "/" + name;
    assert s[|owner|..|owner| + 1] == "/";
    assert OccursAt(s, "/", |owner|);
    forall j: nat | j < |owner|
      ensures !OccursAt(s, "/", j)
    {
      DiffersAt(s, "/", j, 0);
    }
  }

  /** The collector finds the slug behind the prefix. */
  lemma SlugBehindPrefix(owner: string, name: string)
    requires owner != "" && Trimmed(owner) && name != "" && Trimmed(name)
    ensures G.ParseRepoPrimary(RepoPrimary(owner, name)) == G.ParseSlug(owner + "/" + name)
  {
    hide Trim, ToLower, G.ParseSlug;
    var s, slug := RepoPrimary(owner, name), owner + "/" + name;
    RepoHeadTrimmed(owner, name);
    TrimOfTrimmed(s);
    assert s[..5] == "repo:" && s[5..] == slug;
    RepoIsNotOrg(s);
    assert slug[0] == owner[0] && slug[|slug| - 1] == name[|name| - 1];
    TrimOfTrimmed(slug);
  }

  lemma RepoHeadTrimmed(owner: string, name: string)
    requires name != "" && Trimmed(name)
    ensures Trimmed(RepoPrimary(owner, name)) && RepoPrimary(owner, name) != ""
  {
    var s := RepoPrimary(owner, name);
    assert s[|s| - 1] == name[|name| - 1] && s[0] == 'r';
  }

  lemma SlugParses(owner: string, name: string)
    requires PlainSlug(owner, name) && '*' !in name
    ensures G.ParseSlug(owner + "/" + name) == G.Ok(G.Target(owner, name, false))
  {
    hide Trim, Index;
    var slug := owner + "/" + name;
    SlugSlash(owner, name);
    assert slug[..|owner|] == owner && slug[|owner| + 1..] == name;
    TrimOfTrimmed(owner);
    TrimOfTrimmed(name);
  }

  lemma CollectorReadsRepo(owner: string, name: string)
    requires PlainSlug(owner, name) && '*' !in name
    ensures G.ParseRepoPrimary(RepoPrimary(owner, name)) == G.Ok(G.Target(owner, name, false))
  {
    hide Trim, G.ParseRepoPrimary, G.ParseSlug, RepoPrimary;
    SlugBehindPrefix(owner, name);
    SlugParses(owner, name);
  }

  lemma CollectorReadsOrg(login: string)
    requires PlainLogin(login)
    ensures G.ParseRepoPrimary("org.repos:" + login) == G.Ok(G.Target(login, "", true))
  {
    hide Trim, ToLower;
    var s := "org.repos:" + login;
    OrgHeadClean(login);
    TrimOfTrimmed(s);
    assert s[..10] == "org.repos:" && s[10..] == login;
    OrgIsNotRepo(s);
    TrimOfTrimmed(login);
  }

  lemma FormReadsRepo(owner: string, name: string)
    requires PlainSlug(owner, name) && !(exists c :: c in name && F.LineBreak(c))
    ensures F.FirstMatch(F.GITHUB.patterns, RepoPrimary(owner, name))
         == Some((F.REPO, map["owner" := owner, "name" := name]))
  {
    hide Trim, Index;
    var s, slug := RepoPrimary(owner, name), owner + "/" + name;
    assert s[..5] == "repo:" && s[5..] == slug;
    SlugSlash(owner, name);
    assert slug[..|owner|] == owner && slug[|owner| + 1..] == name;
    forall i | |owner| < i < |slug|
      ensures !F.LineBreak(slug[i])
    {
      assert slug[i] == name[i - |owner| - 1] && name[i - |owner| - 1] in name;
    }
    assert F.SlugMatch(slug) == Some((owner, name));
    assert F.ArgsFrom(F.REPO, s) == Some(map["owner" := owner, "name" := name]);
  }

  lemma FormReadsOrg(login: string)
    requires PlainLogin(login)
    ensures F.FirstMatch(F.GITHUB.patterns, "org.repos:" + login) == Some((F.ORG, map["login" := login]))
  {
    var s := "org.repos:" + login;
    assert s[..10] == "org.repos:" && s[10..] == login;
    OrgIsNotRepo(s);
    assert F.LoginMatch(login);
    assert F.ArgsFrom(F.REPO, s) == None;
    assert F.ArgsFrom(F.ORG, s) == Some(map["login" := login]);
    assert F.GITHUB.patterns[1..] == [F.ORG];
  }

  /** A primary part that both sides can read, with options behind it, is read by both as itself. */
  lemma BothReadComposed(head: string, o: G.Opts, target: G.Target, p: F.Pattern, args: map<string, string>)
    requires CleanHead(head) && G.ParseRepoPrimary(head) == G.Ok(target)
    requires F.FirstMatch(F.GITHUB.patterns, head) == Some((p, args))
    ensures G.ParseGitHubSourceSpec(head + F.Suffixes(Picked(o))) == G.Ok(G.Source(target, o))
    ensures var b := F.ParseSpec(F.GITHUB, head + F.Suffixes(Picked(o)));
      b.Some? && b.value.patternId == p.id && b.value.args == args && FlagsAre(b.value, o)
  {
    hide G.ParseRepoPrimary, F.FirstMatch, F.Suffixes, F.PartsOf, F.ModifierFlags, Picked, G.OptsFromModifiers, ToLower;
    PickedReadBack(o);
    forall t | t in Picked(o)
      ensures CleanToken(t) && ToLower(t) == t
    {
      KnownAreClean(t);
    }
    ComposedPieces(head, Picked(o));
    SameParts(head + F.Suffixes(Picked(o)));
    assert ([head] + Picked(o))[1..] == Picked(o);
    FlagsFromTokens(Picked(o), F.Tokens(Picked(o)));
  }

  /******* The agreement *******/

  /** What the form makes of a spec that it can read. */
  function Canonical(spec: string): string
    requires F.ParseSpec(F.GITHUB, spec).Some?
  {
    F.Compose(F.GITHUB, F.ParseSpec(F.GITHUB, spec).value)
  }

  /** How a spec that both sides read looks in the form. */
  lemma ReadByBoth(spec: string)
    requires G.ParseGitHubSourceSpec(spec).Ok? && LowerCaseModifiers(spec) && F.ParseSpec(F.GITHUB, spec).Some?
    ensures var src, b := G.ParseGitHubSourceSpec(spec).value, F.ParseSpec(F.GITHUB, spec).value;
      && FlagsAre(b, src.opts)
      && F.FirstMatch(F.GITHUB.patterns, G.SplitSourceSpec(spec).value.primary).Some?
      && var m := F.FirstMatch(F.GITHUB.patterns, G.SplitSourceSpec(spec).value.primary).value;
         b.patternId == m.0.id && b.args == m.1
  {
    hide G.ParseRepoPrimary, F.FirstMatch, F.PartsOf, F.ModifierFlags, G.OptsFromModifiers, LowerCaseModifiers;
    hide G.SplitSourceSpec;
    SameParts(spec);
    var pieces := G.SplitSourceSpec(spec).value;
    assert ([pieces.primary] + pieces.modifiers)[1..] == pieces.modifiers;
    FlagsFromTokens(pieces.modifiers, F.Tokens(pieces.modifiers));
  }

  /** The primary part does not hold the separator, and neither end of it is white space. */
  lemma PrimaryIsClean(spec: string)
    requires G.SplitSourceSpec(spec).Ok?
    ensures var p := G.SplitSourceSpec(spec).value.primary; p != "" && Trimmed(p) && !Contains(p, " +")
  {
    hide Split, G.ModifiersOf;
    var first := Split(Trim(spec), " +")[0];
    SplitPieces(Trim(spec), " +", first);
    var left, right := TrimSplits(first);
    NotInside(first, " +", left, Trim(first), right);
  }

  /** The two halves of a slug, trimmed, survive composing. */
  lemma SlugHalvesPlain(p: string, before: string, owner: string, name: string)
    requires p == before + owner + "/" + name && !Contains(p, " +")
    requires '/' !in owner && forall c :: c in name ==> !F.LineBreak(c)
    requires Trim(owner) != "" && Trim(name) != ""
    ensures PlainSlug(Trim(owner), Trim(name)) && !(exists c :: c in Trim(name) && F.LineBreak(c))
  {
    hide Trim, Contains, F.LineBreak;
    assert p == before + owner + ("/" + name) && p == (before + owner + "/") + name + "";
    PlainPiece(p, owner, before, "/" + name);
    PlainPiece(p, name, before + owner + "/", "");
    TrimKeepsChars(owner);
    TrimKeepsChars(name);
  }

  /** What both sides make of such a primary. */
  lemma RepoPrimaryRead(p: string)
    requires Trimmed(p) && G.ParseRepoPrimary(p).Ok? && F.ArgsFrom(F.REPO, p).Some?
    ensures HasPrefix(p, "repo:") && |p| >= 5 && F.SlugMatch(p[5..]).Some?
    ensures var t, args, m := G.ParseRepoPrimary(p).value, F.ArgsFrom(F.REPO, p).value, F.SlugMatch(p[5..]).value;
      && args.Keys == {"owner", "name"} && args["owner"] == m.0 && args["name"] == m.1
      && t == G.Target(Trim(m.0), Trim(m.1), false)
      && t.owner != "" && t.repo != "" && '*' !in t.repo
  {
    hide Trim, ToLower, Index, F.SlugMatch;
    TrimOfTrimmed(p);
    RepoIsNotOrg(p);
    SlugsAgree(p[5..]);
    TwoArgs(F.SlugMatch(p[5..]).value.0, F.SlugMatch(p[5..]).value.1);
  }

  lemma TwoArgs(owner: string, name: string)
    ensures var args := map["owner" := owner, "name" := name];
      args.Keys == {"owner", "name"} && args["owner"] == owner && args["name"] == name
  {
  }

  lemma BehindFive(p: string, owner: string, name: string)
    requires |p| >= 5 && p[5..] == owner + "/" + name
    ensures p == p[..5] + owner + "/" + name
  {
    assert p == p[..5] + p[5..];
  }

  /** A repository primary both sides read: the collector's owner and name are the form's, trimmed. */
  lemma RepoPrimaryPlain(p: string)
    requires p != "" && Trimmed(p) && !Contains(p, " +") && G.ParseRepoPrimary(p).Ok?
    requires F.ArgsFrom(F.REPO, p).Some?
    ensures var t, args := G.ParseRepoPrimary(p).value, F.ArgsFrom(F.REPO, p).value;
      && args.Keys == {"owner", "name"}
      && t == G.Target(Trim(args["owner"]), Trim(args["name"]), false)
      && PlainSlug(t.owner, t.repo) && '*' !in t.repo && !(exists c :: c in t.repo && F.LineBreak(c))
  {
    RepoPrimaryRead(p);
    hide Trim, G.ParseRepoPrimary, F.ArgsFrom, F.SlugMatch, F.LineBreak, PlainSlug, F.REPO, Contains, Trimmed;
    hide HasPrefix;
    var m := F.SlugMatch(p[5..]).value;
    SlugShape(p[5..]);
    BehindFive(p, m.0, m.1);
    SlugHalvesPlain(p, p[..5], m.0, m.1);
  }

  lemma SlugShape(rest: string)
    requires F.SlugMatch(rest).Some?
    ensures var m := F.SlugMatch(rest).value;
      rest == m.0 + "/" + m.1 && '/' !in m.0 && forall c :: c in m.1 ==> !F.LineBreak(c)
  {
    var slash := Index(rest, "/", 0);
    assert rest[slash..slash + 1] == "/";
    forall i | 0 <= i < slash
      ensures rest[i] != '/'
    {
      assert !OccursAt(rest, "/", i);
      assert rest[i..i + 1] == [rest[i]];
    }
  }

  lemma TrimKeepsChars(s: string)
    ensures forall c :: c in Trim(s) ==> c in s
  {
    hide Trim;
    var l, r := TrimSplits(s);
    forall c | c in Trim(s)
      ensures c in s
    {
      assert c in l + Trim(s) + r;
    }
  }

  lemma PlainPiece(p: string, piece: string, before: string, behind: string)
    requires p == before + piece + behind && !Contains(p, " +")
    ensures !Contains(Trim(piece), " +")
  {
    hide Trim;
    var l, r := TrimSplits(piece);
    NotInside(p, " +", before, piece, behind);
    NotInside(piece, " +", l, Trim(piece), r);
  }

  lemma OrgPrimaryPlain(p: string)
    requires Trimmed(p) && G.ParseRepoPrimary(p).Ok? && F.ArgsFrom(F.ORG, p).Some?
    ensures var t, args := G.ParseRepoPrimary(p).value, F.ArgsFrom(F.ORG, p).value;
      args.Keys == {"login"} && t == G.Target(Trim(args["login"]), "", true) && PlainLogin(t.owner)
  {
    hide Trim, ToLower;
    TrimOfTrimmed(p);
    OrgIsNotRepo(p);
    LoginTrims(p[10..]);
  }

  lemma MatchCases(p: string)
    ensures F.FirstMatch(F.GITHUB.patterns, p) ==
      if F.ArgsFrom(F.REPO, p).Some? then Some((F.REPO, F.ArgsFrom(F.REPO, p).value))
      else if F.ArgsFrom(F.ORG, p).Some? then Some((F.ORG, F.ArgsFrom(F.ORG, p).value))
      else None
  {
    hide F.ArgsFrom;
    var ps := F.GITHUB.patterns;
    assert ps[1..] == [F.ORG] && [F.ORG][1..] == [];
    assert F.FirstMatch([F.ORG], p) ==
      if F.ArgsFrom(F.ORG, p).Some? then Some((F.ORG, F.ArgsFrom(F.ORG, p).value)) else None;
  }

  lemma FoundPatterns()
    ensures F.FindPattern(F.GITHUB.patterns, "repo") == Some(F.REPO)
    ensures F.FindPattern(F.GITHUB.patterns, "org.repos") == Some(F.ORG)
    ensures F.REPO.id == "repo" && F.ORG.id == "org.repos"
  {
    assert F.GITHUB.patterns[1..] == [F.ORG];
  }

  ghost function Head(t: G.Target): string {
    if t.allRepos then "org.repos:" + t.owner else RepoPrimary(t.owner, t.repo)
  }

  /** A target that both sides read back from its composed primary part. */
  ghost predicate Readable(t: G.Target) {
    if t.allRepos then PlainLogin(t.owner) && t.repo == ""
    else PlainSlug(t.owner, t.repo) && '*' !in t.repo && !(exists c :: c in t.repo && F.LineBreak(c))
  }

  /** The owner is not mistaken for the placeholder of the name. */
  ghost predicate NoPlaceholder(t: G.Target) {
    t.allRepos || !Contains(t.owner, "{name}")
  }

  /** Composing what the form has read gives the canonical text of the collector's target and options. */
  lemma CanonicalText(spec: string)
    requires G.ParseGitHubSourceSpec(spec).Ok? && LowerCaseModifiers(spec) && F.ParseSpec(F.GITHUB, spec).Some?
    ensures Readable(G.ParseGitHubSourceSpec(spec).value.target)
    ensures var src := G.ParseGitHubSourceSpec(spec).value;
      NoPlaceholder(src.target) ==> Canonical(spec) == Head(src.target) + F.Suffixes(Picked(src.opts))
  {
    ReadByBoth(spec);
    PrimaryIsClean(spec);
    var src, b := G.ParseGitHubSourceSpec(spec).value, F.ParseSpec(F.GITHUB, spec).value;
    var p := G.SplitSourceSpec(spec).value.primary;
    TargetOfPrimary(spec);
    hide G.ParseRepoPrimary, F.FirstMatch, F.ParseSpec, G.SplitSourceSpec, G.ParseGitHubSourceSpec, LowerCaseModifiers;
    hide F.Suffixes, F.Filled, F.ArgsFrom, F.Chosen, Picked, FlagsAre, PlainSlug, PlainLogin, F.GITHUB, F.REPO, F.ORG;
    MatchCases(p);
    FoundPatterns();
    ChosenArePicked(b, src.opts);
    if F.ArgsFrom(F.REPO, p).Some? {
      RepoPrimaryPlain(p);
      if NoPlaceholder(src.target) {
        RepoHead(b, src.target.owner, src.target.repo);
      }
    } else {
      OrgPrimaryPlain(p);
      OrgHead(b, src.target.owner);
    }
  }

  lemma TargetOfPrimary(spec: string)
    requires G.ParseGitHubSourceSpec(spec).Ok?
    ensures G.SplitSourceSpec(spec).Ok?
    ensures G.ParseRepoPrimary(G.SplitSourceSpec(spec).value.primary)
         == G.Ok(G.ParseGitHubSourceSpec(spec).value.target)
  {
  }

  /** Both sides read the canonical text of a target as that target. */
  lemma CanonicalIsRead(t: G.Target, o: G.Opts)
    requires Readable(t)
    ensures var text := Head(t) + F.Suffixes(Picked(o));
      && G.ParseGitHubSourceSpec(text) == G.Ok(G.Source(t, o))
      && F.ParseSpec(F.GITHUB, text).Some? && LowerCaseModifiers(text)
  {
    hide F.Suffixes, Picked, F.GITHUB, F.REPO, F.ORG, G.ParseGitHubSourceSpec, F.ParseSpec, F.FirstMatch;
    hide G.ParseRepoPrimary, CleanHead, LowerCaseModifiers;
    if t.allRepos {
      OrgHeadClean(t.owner);
      CollectorReadsOrg(t.owner);
      FormReadsOrg(t.owner);
      BothReadComposed(Head(t), o, t, F.ORG, map["login" := t.owner]);
    } else {
      RepoHeadClean(t.owner, t.repo);
      CollectorReadsRepo(t.owner, t.repo);
      FormReadsRepo(t.owner, t.repo);
      BothReadComposed(Head(t), o, t, F.REPO, map["owner" := t.owner, "name" := t.repo]);
    }
    TextIsLower(Head(t), o);
  }

  lemma TextIsLower(head: string, o: G.Opts)
    requires CleanHead(head)
    ensures LowerCaseModifiers(head + F.Suffixes(Picked(o)))
  {
    hide Picked, F.Suffixes, LowerCaseModifiers, ToLower, G.OptsFromModifiers;
    PickedReadBack(o);
    forall t | t in Picked(o)
      ensures CleanToken(t) && ToLower(t) == t
    {
      KnownAreClean(t);
    }
    ComposedPieces(head, Picked(o));
  }

  /** Canonicalising a spec in the form does not change what the collector collects. */
  lemma CanonicalKeepsMeaning(spec: string)
    requires G.ParseGitHubSourceSpec(spec).Ok? && LowerCaseModifiers(spec) && F.ParseSpec(F.GITHUB, spec).Some?
    requires NoPlaceholder(G.ParseGitHubSourceSpec(spec).value.target)
    ensures G.ParseGitHubSourceSpec(Canonical(spec)) == G.ParseGitHubSourceSpec(spec)
  {
    hide Canonical, G.ParseGitHubSourceSpec, F.ParseSpec, LowerCaseModifiers, Readable, NoPlaceholder, Head, F.Suffixes;
    CanonicalText(spec);
    CanonicalIsRead(G.ParseGitHubSourceSpec(spec).value.target, G.ParseGitHubSourceSpec(spec).value.opts);
  }

  /** Doing it twice changes nothing more. */
  lemma CanonicalIsIdempotent(spec: string)
    requires G.ParseGitHubSourceSpec(spec).Ok? && LowerCaseModifiers(spec) && F.ParseSpec(F.GITHUB, spec).Some?
    requires NoPlaceholder(G.ParseGitHubSourceSpec(spec).value.target)
    ensures F.ParseSpec(F.GITHUB, Canonical(spec)).Some? && Canonical(Canonical(spec)) == Canonical(spec)
  {
    hide Canonical, G.ParseGitHubSourceSpec, F.ParseSpec, LowerCaseModifiers, Readable, NoPlaceholder, Head, F.Suffixes;
    CanonicalText(spec);
    CanonicalIsRead(G.ParseGitHubSourceSpec(spec).value.target, G.ParseGitHubSourceSpec(spec).value.opts);
    CanonicalText(Canonical(spec));
  }

  /******* Which specs the form can read, and where the agreement ends *******/

  /**
   Of the specs the collector accepts, the form can read exactly those that write the prefix in lower case, whose
   repository name (as typed) is one line, or whose login holds no white space and follows the prefix at once.
   */
  lemma FormReadsIff(spec: string)
    requires G.ParseGitHubSourceSpec(spec).Ok? && LowerCaseModifiers(spec)
    ensures var p := G.SplitSourceSpec(spec).value.primary;
      F.ParseSpec(F.GITHUB, spec).Some? <==>
        || (HasPrefix(p, "repo:") && OneLineName(p[5..]))
        || (HasPrefix(p, "org.repos:") && forall i :: 10 <= i < |p| ==> !IsSpace(p[i]))
  {
    TargetOfPrimary(spec);
    SameParts(spec);
    PrimaryIsClean(spec);
    var p := G.SplitSourceSpec(spec).value.primary;
    hide G.SplitSourceSpec, G.ParseGitHubSourceSpec, LowerCaseModifiers, F.PartsOf, F.ModifierFlags, F.FirstMatch;
    hide F.GITHUB, F.ArgsFrom, OneLineName, IsSpace, G.ParseRepoPrimary, HasPrefix, Trimmed, F.REPO, F.ORG;
    MatchCases(p);
    ArgsIff(p);
  }

  /** Exactly which primary parts that the collector reads a pattern of the form reads too. */
  lemma ArgsIff(p: string)
    requires Trimmed(p) && G.ParseRepoPrimary(p).Ok?
    ensures F.ArgsFrom(F.REPO, p).Some? || F.ArgsFrom(F.ORG, p).Some? <==>
      || (HasPrefix(p, "repo:") && OneLineName(p[5..]))
      || (HasPrefix(p, "org.repos:") && forall i :: 10 <= i < |p| ==> !IsSpace(p[i]))
  {
    hide F.ArgsFrom, OneLineName, IsSpace, G.ParseRepoPrimary, F.REPO, F.ORG;
    if HasPrefix(p, "repo:") {
      RepoArgsIff(p);
      OnePrefix(p);
    } else if HasPrefix(p, "org.repos:") {
      OrgArgsIff(p);
    } else {
      NoPrefixNoArgs(p);
    }
  }

  lemma OnePrefix(p: string)
    requires HasPrefix(p, "repo:")
    ensures !HasPrefix(p, "org.repos:")
  {
    assert p[..5][0] == p[0] == 'r';
    assert |p| >= 10 ==> p[..10][0] == p[0];
  }

  lemma NoPrefixNoArgs(p: string)
    requires !HasPrefix(p, "repo:") && !HasPrefix(p, "org.repos:")
    ensures F.ArgsFrom(F.REPO, p).None? && F.ArgsFrom(F.ORG, p).None?
  {
  }

  /** Nothing behind the first slash breaks the line. */
  ghost predicate OneLineName(rest: string) {
    forall i, j :: 0 <= i < j < |rest| && rest[i] == '/' ==> !F.LineBreak(rest[j])
  }

  lemma RepoArgsIff(p: string)
    requires Trimmed(p) && HasPrefix(p, "repo:") && G.ParseRepoPrimary(p).Ok?
    ensures F.ArgsFrom(F.REPO, p).Some? <==> OneLineName(p[5..])
    ensures F.ArgsFrom(F.ORG, p).None?
  {
    hide Trim, ToLower, Index;
    TrimOfTrimmed(p);
    RepoIsNotOrg(p);
    var rest := p[5..];
    var left, right := TrimSplits(rest);
    var core := Trim(rest);
    var k := Index(core, "/", 0);
    FirstSlashBehindSpace(left, core, right);
    SlashNotAtEnds(core);
    var slash := Index(rest, "/", 0);
    FirstSlashOnly(rest);
    assert rest[slash] == '/';
    assert p == p[..5] + rest;
  }

  lemma FirstSlashOnly(s: string)
    requires Index(s, "/", 0) >= 0
    ensures s[Index(s, "/", 0)] == '/' && forall i :: 0 <= i < Index(s, "/", 0) ==> s[i] != '/'
  {
    var slash := Index(s, "/", 0);
    assert s[slash..slash + 1] == "/";
    forall i | 0 <= i < slash
      ensures s[i] != '/'
    {
      assert !OccursAt(s, "/", i);
      assert s[i..i + 1] == [s[i]];
    }
  }

  lemma SlashNotAtEnds(core: string)
    requires G.ParseSlug(core).Ok?
    ensures 0 < Index(core, "/", 0) && Index(core, "/", 0) + 1 < |core|
  {
    var k := Index(core, "/", 0);
    assert k == 0 ==> core[..k] == "";
    assert k + 1 == |core| ==> core[k + 1..] == "";
    TrimOfTrimmed("");
  }

  lemma OrgArgsIff(p: string)
    requires Trimmed(p) && HasPrefix(p, "org.repos:") && G.ParseRepoPrimary(p).Ok?
    ensures F.ArgsFrom(F.ORG, p).Some? <==> forall i :: 10 <= i < |p| ==> !IsSpace(p[i])
    ensures F.ArgsFrom(F.REPO, p).None?
  {
    hide Trim, ToLower;
    TrimOfTrimmed(p);
    OrgIsNotRepo(p);
    var rest := p[10..];
    if forall i :: 10 <= i < |p| ==> !IsSpace(p[i]) {
      forall i | 0 <= i < |rest|
        ensures !IsSpace(rest[i])
      {
        assert rest[i] == p[i + 10];
      }
      TrimOfTrimmed(rest);
    }
    if F.LoginMatch(rest) {
      forall i | 10 <= i < |p|
        ensures !IsSpace(p[i])
      {
        assert p[i] == rest[i - 10];
      }
    }
  }

  const NO_OPTS := G.Opts(false, false, false, false)

  lemma ExampleSlug(owner: string)
    requires owner == "{name}" || owner == "x"
    ensures Readable(G.Target(owner, "x", false))
    ensures Head(G.Target(owner, "x", false)) + F.Suffixes(Picked(NO_OPTS)) == "repo:" + owner + "/x"
  {
    forall j: nat
      ensures !OccursAt(owner, " +", j) && !OccursAt("x", " +", j)
    {
      DiffersAt(owner, " +", j, 0);
    }
    var head := Head(G.Target(owner, "x", false));
    assert Picked(NO_OPTS) == [] && F.Suffixes([]) == "" && head + "" == head;
    assert head == "repo:" + owner + "/" + "x" == "repo:" + owner + "/x";
  }

  lemma ReplaceTwice(a: string, pat: string, m: string, with: string)
    requires pat != "" && !Contains(a, pat) && a != "" && a[|a| - 1] !in pat
    requires !Contains(m, pat) && m != "" && m[|m| - 1] !in pat
    ensures ReplaceAll(a + pat + (m + pat), pat, with) == a + with + (m + with)
  {
    hide Split, Contains;
    FirstPlaceholder(a, pat, m + pat);
    SplitHead(a, pat, m + pat);
    FirstPlaceholder(m, pat, "");
    SplitHead(m, pat, "");
    NothingInEmpty(pat);
    SplitWithout("", pat);
    assert m + pat + "" == m + pat;
    JoinCons(a, [m] + [""], with);
    JoinCons(m, [""], with);
    assert m + with + "" == m + with;
  }

  /** An owner that holds the name's placeholder is changed by the form: the condition above is needed. */
  lemma PlaceholderOwnerChanges(spec: string)
    requires spec == "repo:{name}/x"
    ensures G.ParseGitHubSourceSpec(spec).Ok? && LowerCaseModifiers(spec) && F.ParseSpec(F.GITHUB, spec).Some?
    ensures G.ParseGitHubSourceSpec(Canonical(spec)).Ok?
    ensures G.ParseGitHubSourceSpec(Canonical(spec)) != G.ParseGitHubSourceSpec(spec)
  {
    var t, t' := G.Target("{name}", "x", false), G.Target("x", "x", false);
    assert "repo:" + "{name}" + "/x" == spec && "repo:" + "x" + "/x" == "repo:x/x";
    ExampleSlug("{name}");
    ExampleSlug("x");
    ExampleCanonical(spec);
    hide Canonical, G.ParseGitHubSourceSpec, F.ParseSpec, LowerCaseModifiers, Readable, Head, F.Suffixes, Picked;
    CanonicalIsRead(t, NO_OPTS);
    CanonicalIsRead(t', NO_OPTS);
  }

  lemma ExampleCanonical(spec: string)
    requires spec == "repo:{name}/x"
    ensures F.ParseSpec(F.GITHUB, spec).Some? && Canonical(spec) == "repo:x/x"
  {
    ExampleFields(spec);
    var b := F.ParseSpec(F.GITHUB, spec).value;
    hide F.ParseSpec, ReplaceAll, Trim, F.Chosen, FlagsAre, Picked, F.Filled, F.GITHUB, F.REPO, F.Suffixes;
    FoundPatterns();
    ChosenArePicked(b, NO_OPTS);
    NothingPicked();
    TrimOfTrimmed("{name}");
    TrimOfTrimmed("x");
    FilledRepo(b, "{name}", "x");
    ExampleText();
    assert "repo:x/x" + "" == "repo:x/x";
  }

  lemma ExampleText()
    ensures ReplaceAll("repo:" + "{name}" + "/{name}", "{name}", "x") == "repo:x/x"
  {
    hide ReplaceAll;
    WithoutBrace("repo:", "{name}");
    WithoutBrace("/", "{name}");
    ReplaceTwice("repo:", "{name}", "/", "x");
    assert "repo:" + "{name}" + ("/" + "{name}") == "repo:" + "{name}" + "/{name}";
    assert "repo:" + "x" + ("/" + "x") == "repo:x/x";
  }

  lemma NothingPicked()
    ensures F.Suffixes(Picked(NO_OPTS)) == ""
  {
  }

  lemma ExampleFields(spec: string)
    requires spec == "repo:{name}/x"
    ensures F.ParseSpec(F.GITHUB, spec).Some?
    ensures var b := F.ParseSpec(F.GITHUB, spec).value;
      b.patternId == "repo" && b.args == map["owner" := "{name}", "name" := "x"] && FlagsAre(b, NO_OPTS)
  {
    var t := G.Target("{name}", "x", false);
    assert "repo:" + "{name}" + "/x" == spec;
    ExampleSlug("{name}");
    hide F.Suffixes, Picked, F.GITHUB, F.REPO, G.ParseGitHubSourceSpec, F.ParseSpec, F.FirstMatch, G.ParseRepoPrimary;
    hide FlagsAre;
    RepoHeadClean("{name}", "x");
    CollectorReadsRepo("{name}", "x");
    FormReadsRepo("{name}", "x");
    BothReadComposed(Head(t), NO_OPTS, t, F.REPO, map["owner" := "{name}", "name" := "x"]);
    FoundPatterns();
  }
}

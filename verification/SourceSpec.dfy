/** collector-github's reading of a source_spec: a primary part, then modifiers each announced by a space and a plus. */
module SourceSpec {
  import opened Basics
  import opened Text

  datatype Opts = Opts(dependabot: bool, prs: bool, issues: bool, packages: bool)

  datatype Reason =
    | EmptySpec | EmptyPrimary | EmptyModifier | ModifierNotOneToken | UnknownModifier
    | MissingLogin | LoginHasSlash | MissingSlug | BadSlug | WildcardForAll | WildcardInName | UnsupportedPrimary

  datatype Result<+T> = Ok(value: T) | Err(reason: Reason)

  datatype Target = Target(owner: string, repo: string, allRepos: bool)

  datatype Source = Source(target: Target, opts: Opts)

  const SEPARATOR := " +"
  const REPO_PREFIX := "repo:"
  const ORG_PREFIX := "org.repos:"

  predicate OneToken(m: string) {
    forall i | 0 <= i < |m| :: m[i] !in {' ', '\t', '\n'}
  }

  /** What is wrong with a modifier piece, if anything. */
  function ModifierError(piece: string): Option<Reason> {
    if Trim(piece) == "" then Some(EmptyModifier)
    else if !OneToken(Trim(piece)) then Some(ModifierNotOneToken)
    else None
  }

  function Modifier(piece: string): string {
    ToLower(Trim(piece))
  }

  /** The modifiers of the pieces, lower-cased and in order, or the error of the first bad piece. */
  function ModifiersOf(pieces: seq<string>): Result<seq<string>> {
    if pieces == [] then Ok([])
    else
      match ModifiersOf(pieces[..|pieces| - 1])
      case Err(reason) => Err(reason)
      case Ok(before) =>
        var last := pieces[|pieces| - 1];
        match ModifierError(last)
        case Some(reason) => Err(reason)
        case None => Ok(before + [Modifier(last)])
  }

  datatype Pieces = Pieces(primary: string, modifiers: seq<string>)

  function SplitSourceSpec(spec: string): Result<Pieces> {
    var s := Trim(spec);
    if s == "" then Err(EmptySpec) else
    var parts := Split(s, SEPARATOR);
    var primary := Trim(parts[0]);
    if primary == "" then Err(EmptyPrimary) else
    match ModifiersOf(parts[1..])
    case Err(reason) => Err(reason)
    case Ok(modifiers) => Ok(Pieces(primary, modifiers))
  }

  const KNOWN: set<string> := {"dependabot", "pr", "issue", "packages"}

  /** Each option is on exactly when its modifier is there; any other modifier is an error. */
  function OptsFromModifiers(modifiers: seq<string>): Result<Opts> {
    if forall m | m in modifiers :: m in KNOWN
    then Ok(Opts("dependabot" in modifiers, "pr" in modifiers, "issue" in modifiers, "packages" in modifiers))
    else Err(UnknownModifier)
  }

  function ParseRepoPrimary(primary: string): Result<Target> {
    var s := Trim(primary);
    if s == "" then Err(EmptyPrimary)
    else if HasPrefix(ToLower(s), ORG_PREFIX) then
      var login := Trim(s[|ORG_PREFIX|..]);
      if login == "" then Err(MissingLogin)
      else if '/' in login then Err(LoginHasSlash)
      else Ok(Target(login, "", true))
    else if HasPrefix(ToLower(s), REPO_PREFIX) then ParseSlug(Trim(s[|REPO_PREFIX|..]))
    else Err(UnsupportedPrimary)
  }

  /** owner/name, cut at the first slash. */
  function ParseSlug(rest: string): Result<Target> {
    if rest == "" then Err(MissingSlug) else
    var slash := Index(rest, "/", 0);
    if slash < 0 then Err(BadSlug) else
    var owner := Trim(rest[..slash]);
    var repo := Trim(rest[slash + 1..]);
    if owner == "" || repo == "" then Err(BadSlug)
    else if repo == "*" then Err(WildcardForAll)
    else if '*' in repo then Err(WildcardInName)
    else Ok(Target(owner, repo, false))
  }

  function ParseGitHubSourceSpec(spec: string): Result<Source> {
    match SplitSourceSpec(spec)
    case Err(reason) => Err(reason)
    case Ok(pieces) =>
      match OptsFromModifiers(pieces.modifiers)
      case Err(reason) => Err(reason)
      case Ok(opts) =>
        match ParseRepoPrimary(pieces.primary)
        case Err(reason) => Err(reason)
        case Ok(target) => Ok(Source(target, opts))
  }

  /******* What is accepted *******/

  /** Modifier pieces are accepted exactly if each, trimmed, is not empty and holds no blank, tab or line feed; they are
   then trimmed, in small letters, in order. */
  lemma {:induction false} ModifiersAcceptedIff(pieces: seq<string>)
    ensures ModifiersOf(pieces).Ok? <==> forall i :: 0 <= i < |pieces| ==>
      Trim(pieces[i]) != "" && ' ' !in Trim(pieces[i]) && '\t' !in Trim(pieces[i]) && '\n' !in Trim(pieces[i])
    ensures ModifiersOf(pieces).Ok? ==>
      && |ModifiersOf(pieces).value| == |pieces|
      && forall i :: 0 <= i < |pieces| ==> ModifiersOf(pieces).value[i] == ToLower(Trim(pieces[i]))
  {
    hide Trim, ToLower;
    if pieces != [] {
      var n := |pieces| - 1;
      ModifiersAcceptedIff(pieces[..n]);
      OneTokenIs(Trim(pieces[n]));
    }
  }

  lemma OneTokenIs(m: string)
    ensures OneToken(m) <==> ' ' !in m && '\t' !in m && '\n' !in m
  {
  }

  /** Modifiers are accepted exactly if all are known; each then switches on its option, and nothing else does. */
  lemma OptionsAre(modifiers: seq<string>)
    ensures OptsFromModifiers(modifiers).Ok? <==>
      forall m :: m in modifiers ==> m == "dependabot" || m == "pr" || m == "issue" || m == "packages"
    ensures OptsFromModifiers(modifiers).Ok? ==> var o := OptsFromModifiers(modifiers).value;
      && (o.dependabot <==> "dependabot" in modifiers) && (o.prs <==> "pr" in modifiers)
      && (o.issues <==> "issue" in modifiers) && (o.packages <==> "packages" in modifiers)
  {
  }

  /** The two sides of the first slash. */
  ghost predicate Halves(rest: string, owner: string, name: string) {
    rest == owner + "/" + name && '/' !in owner
  }

  lemma HalvesAt(rest: string, owner: string, name: string)
    requires Halves(rest, owner, name)
    ensures Index(rest, "/", 0) == |owner| && rest[..|owner|] == owner && rest[|owner| + 1..] == name
  {
    assert rest[|owner|..|owner| + 1] == "/";
    assert OccursAt(rest, "/", |owner|);
    forall j: nat | j < |owner|
      ensures !OccursAt(rest, "/", j)
    {
      DiffersAt(rest, "/", j, 0);
    }
    Found(rest, "/", |owner|);
  }

  lemma HalvesOf(rest: string)
    requires Index(rest, "/", 0) >= 0
    ensures var k := Index(rest, "/", 0); Halves(rest, rest[..k], rest[k + 1..])
  {
    var k := Index(rest, "/", 0);
    assert rest[k..k + 1] == "/";
    forall i | 0 <= i < k
      ensures rest[i] != '/'
    {
      assert !OccursAt(rest, "/", i);
      assert rest[i..i + 1] == [rest[i]];
    }
  }

  /** A slug with a slash is accepted exactly if there is something before and behind the first one and no star behind;
   owner and name are what stands there, trimmed. */
  lemma SlugRead(rest: string, owner: string, name: string)
    requires Halves(rest, owner, name)
    ensures ParseSlug(rest).Ok? <==> Trim(owner) != "" && Trim(name) != "" && '*' !in Trim(name)
    ensures ParseSlug(rest).Ok? ==> ParseSlug(rest).value == Target(Trim(owner), Trim(name), false)
  {
    hide Trim, Index, Halves;
    HalvesAt(rest, owner, name);
    HalvesFit(rest, owner, name);
    StarIsIn();
  }

  /** One without is not accepted. */
  lemma SlugAcceptedIff(rest: string)
    ensures ParseSlug(rest).Ok? <==> exists owner, name ::
      Halves(rest, owner, name) && Trim(owner) != "" && Trim(name) != "" && '*' !in Trim(name)
  {
    hide Trim, Index, Halves, ParseSlug;
    if Index(rest, "/", 0) >= 0 {
      var k := Index(rest, "/", 0);
      HalvesOf(rest);
      SlugRead(rest, rest[..k], rest[k + 1..]);
    } else {
      NoSlug(rest);
    }
    forall owner, name | Halves(rest, owner, name)
      ensures ParseSlug(rest).Ok? <==> Trim(owner) != "" && Trim(name) != "" && '*' !in Trim(name)
    {
      SlugRead(rest, owner, name);
    }
  }

  lemma NoSlug(rest: string)
    requires Index(rest, "/", 0) < 0
    ensures ParseSlug(rest).Err?
  {
    hide Trim;
  }

  lemma HalvesFit(rest: string, owner: string, name: string)
    requires Halves(rest, owner, name)
    ensures |owner| < |rest|
  {
  }

  lemma StarIsIn()
    ensures '*' in "*"
  {
  }

  /** The prefix may be in any case; what follows decides. */
  lemma RepoPrefixInAnyCase(prefix: string, rest: string)
    requires ToLower(prefix) == "repo:" && Trimmed(prefix + rest)
    ensures ParseRepoPrimary(prefix + rest) == ParseSlug(Trim(rest))
  {
    hide Trim, ParseSlug;
    TrimOfTrimmed(prefix + rest);
    LowerFront(prefix, rest);
    assert (prefix + rest)[5..] == rest;
    assert ToLower(prefix + rest)[..5] == "repo:";
    NotOrgPrefix(ToLower(prefix + rest));
  }

  lemma LowerFront(a: string, b: string)
    ensures ToLower(a + b)[..|a|] == ToLower(a)
  {
  }

  lemma NotOrgPrefix(s: string)
    requires |s| >= 5 && s[..5] == "repo:"
    ensures !HasPrefix(s, ORG_PREFIX) && HasPrefix(s, REPO_PREFIX)
  {
    assert s[0] == s[..5][0] == 'r';
    assert |s| >= 10 ==> s[..10][0] == s[0];
  }

  /** For a whole owner there must be a login without slash. */
  lemma OrgPrefixInAnyCase(prefix: string, rest: string)
    requires ToLower(prefix) == "org.repos:" && Trimmed(prefix + rest)
    ensures ParseRepoPrimary(prefix + rest).Ok? <==> Trim(rest) != "" && '/' !in Trim(rest)
    ensures ParseRepoPrimary(prefix + rest).Ok? ==>
      ParseRepoPrimary(prefix + rest).value == Target(Trim(rest), "", true)
  {
    hide Trim;
    TrimOfTrimmed(prefix + rest);
    LowerFront(prefix, rest);
    assert (prefix + rest)[10..] == rest;
    assert ToLower(prefix + rest)[..10] == "org.repos:";
  }

  /** The loop of splitSourceSpec. */
  method CollectModifiers(parts: seq<string>) returns (r: Result<seq<string>>)
    requires |parts| >= 1
    ensures r == ModifiersOf(parts[1..])
  {
    hide ModifierError, Modifier;
    var modifiers: seq<string> := [];
    for i := 1 to |parts|
      invariant ModifiersOf(parts[1..i]) == Ok(modifiers)
    {
      assert parts[1..i + 1][..i - 1] == parts[1..i];
      var error := ModifierError(parts[i]);
      if error.Some? {
        assert parts[1..][..i] == parts[1..i + 1];
        ErrorStays(parts[1..], i, error.value);
        return Err(error.value);
      }
      modifiers := modifiers + [Modifier(parts[i])];
    }
    assert parts[1..|parts|] == parts[1..];
    r := Ok(modifiers);
  }

  /** Once a piece is bad, later pieces do not matter. */
  lemma {:induction false} ErrorStays(pieces: seq<string>, i: nat, reason: Reason)
    requires 1 <= i <= |pieces| && ModifiersOf(pieces[..i]) == Err(reason)
    ensures ModifiersOf(pieces) == Err(reason)
  {
    hide ModifierError, Modifier;
    if i == |pieces| {
      assert pieces[..i] == pieces;
    } else {
      assert pieces[..|pieces| - 1][..i] == pieces[..i];
      ErrorStays(pieces[..|pieces| - 1], i, reason);
    }
  }

  /** The loop of githubSourceOptsFromModifiers, which skips repeated modifiers. */
  method ReadOpts(modifiers: seq<string>) returns (r: Result<Opts>)
    ensures r == OptsFromModifiers(modifiers)
  {
    var seen: set<string> := {};
    var out := Opts(false, false, false, false);
    for i := 0 to |modifiers|
      invariant forall m :: m in seen <==> m in modifiers[..i]
      invariant forall m :: m in modifiers[..i] ==> m in KNOWN
      invariant out == Opts("dependabot" in seen, "pr" in seen, "issue" in seen, "packages" in seen)
    {
      var m := modifiers[i];
      assert modifiers[..i + 1] == modifiers[..i] + [m];
      if m in seen {
        continue;
      }
      seen := seen + {m};
      if m == "dependabot" {
        out := out.(dependabot := true);
      } else if m == "pr" {
        out := out.(prs := true);
      } else if m == "issue" {
        out := out.(issues := true);
      } else if m == "packages" {
        out := out.(packages := true);
      } else {
        assert m in modifiers;
        return Err(UnknownModifier);
      }
    }
    assert modifiers[..|modifiers|] == modifiers;
    r := Ok(out);
  }
}

/**
 Where the form and the collector part: the form fills in the owner before the name, so an owner that holds the text of
 the name's placeholder is changed. This is when that matters, exactly.
 */
module SpecPlaceholder {
  import opened Basics
  import opened Text
  import G = SourceSpec
  import F = SpecForm
  import opened SpecAgreement

  const NAME := "{name}"

  /******* Replacing *******/

  lemma ReplaceUnfold(s: string, pat: string, with: string)
    requires pat != "" && Index(s, pat, 0) >= 0
    ensures var i := Index(s, pat, 0);
      ReplaceAll(s, pat, with) == s[..i] + with + ReplaceAll(s[i + |pat|..], pat, with)
  {
    var i := Index(s, pat, 0);
    JoinCons(s[..i], Split(s[i + |pat|..], pat), with);
  }

  lemma NotThere(s: string, pat: string, with: string)
    requires pat != "" && Index(s, pat, 0) < 0
    ensures !Contains(s, pat) && ReplaceAll(s, pat, with) == s
  {
    ReplaceNone(s, pat, with);
  }

  /** Text without the pattern's first character stays as it is in front. */
  lemma ReplaceBehind(a: string, s: string, pat: string, with: string)
    requires pat != "" && pat[0] !in a
    ensures ReplaceAll(a + s, pat, with) == a + ReplaceAll(s, pat, with)
  {
    hide ReplaceAll, OccursAt;
    var i := Index(s, pat, 0);
    if i < 0 {
      forall j: nat
        ensures !OccursAt(a + s, pat, j)
      {
        if j < |a| {
          DiffersAt(a + s, pat, j, 0);
        } else {
          ShiftedOccurs(a, s, pat, j - |a|);
        }
      }
      ReplaceNone(a + s, pat, with);
      NotThere(s, pat, with);
    } else {
      IndexBehind(a, s, pat);
      ReplaceUnfold(s, pat, with);
      ReplaceUnfold(a + s, pat, with);
      OccursFits(s, pat, i);
      SplitsBehind(a, s, i, |pat|);
    }
  }

  lemma SplitsBehind(a: string, s: string, i: nat, n: nat)
    requires i + n <= |s|
    ensures (a + s)[..|a| + i] == a + s[..i] && (a + s)[|a| + i + n..] == s[i + n..]
  {
  }

  lemma ReplaceOnceAtEnd(s: string, pat: string, with: string)
    requires pat != "" && '/' !in pat && Index(s, pat, 0) < 0
    ensures ReplaceAll(s + "/" + pat, pat, with) == s + "/" + with
  {
    hide ReplaceAll, Index, OccursAt;
    var a := s + "/";
    forall j: nat
      ensures !OccursAt(a, pat, j)
    {
      if j + |pat| <= |s| {
        OccursInFront(s, "/", pat, j);
        assert !OccursAt(s, pat, j);
      } else if j <= |s| {
        DiffersAt(a, pat, j, |s| - j);
      } else {
        DiffersAt(a, pat, j, 0);
      }
    }
    FirstPlaceholder(a, pat, "");
    NothingInEmpty(pat);
    ReplaceOnce(a, pat, "", with);
    assert a + pat + "" == s + "/" + pat;
    assert a + with + "" == s + "/" + with;
  }

  /** A last occurrence behind a slash is replaced on its own. */
  lemma {:induction false} ReplaceThenSlash(s: string, pat: string, with: string)
    requires pat != "" && '/' !in pat
    ensures ReplaceAll(s + "/" + pat, pat, with) == ReplaceAll(s, pat, with) + "/" + with
  {
    hide ReplaceAll, OccursAt;
    var i := Index(s, pat, 0);
    if i < 0 {
      NotThere(s, pat, with);
      ReplaceOnceAtEnd(s, pat, with);
    } else {
      assert i + |pat| <= |s| by { OccursFits(s, pat, i); }
      var rest, tail := s[i + |pat|..], "/" + pat;
      ReplaceThenSlash(rest, pat, with);
      IndexInFront(s, tail, pat);
      ReplaceUnfold(s, pat, with);
      ReplaceUnfold(s + tail, pat, with);
      CutInFront(s, tail, i, |pat|);
      assert s + tail == s + "/" + pat && rest + tail == rest + "/" + pat;
      assert s[..i] + with + (ReplaceAll(rest, pat, with) + "/" + with)
          == s[..i] + with + ReplaceAll(rest, pat, with) + "/" + with;
    }
  }

  lemma CutInFront(s: string, tail: string, i: nat, n: nat)
    requires i + n <= |s|
    ensures (s + tail)[..i] == s[..i] && (s + tail)[i + n..] == s[i + n..] + tail
  {
  }

  /** Replacing by something longer never shortens, by something shorter never lengthens. */
  lemma {:induction false} ReplacedLength(s: string, pat: string, with: string)
    requires pat != ""
    ensures |with| >= |pat| ==> |ReplaceAll(s, pat, with)| >= |s|
    ensures |with| <= |pat| ==> |ReplaceAll(s, pat, with)| <= |s|
  {
    hide ReplaceAll, OccursAt;
    var i := Index(s, pat, 0);
    if i < 0 {
      NotThere(s, pat, with);
    } else {
      OccursFits(s, pat, i);
      ReplaceUnfold(s, pat, with);
      ReplacedLength(s[i + |pat|..], pat, with);
    }
  }

  /** Replacing what is there by anything else changes the text. */
  lemma ReplaceChanges(s: string, pat: string, with: string)
    requires pat != "" && Contains(s, pat) && with != pat
    ensures ReplaceAll(s, pat, with) != s
  {
    hide ReplaceAll, OccursAt;
    var i := Index(s, pat, 0);
    assert i >= 0;
    OccursFits(s, pat, i);
    var rest := s[i + |pat|..];
    ReplaceUnfold(s, pat, with);
    ReplacedLength(rest, pat, with);
    DiffersBehind(s[..i], with, ReplaceAll(rest, pat, with), pat, rest);
  }

  lemma DiffersBehind(a: string, x: string, r: string, y: string, t: string)
    requires x != y
    requires |x| >= |y| ==> |r| >= |t|
    requires |x| <= |y| ==> |r| <= |t|
    ensures a + x + r != a + y + t
  {
    var u, v := a + x + r, a + y + t;
    if |x| == |y| {
      assert u[|a|..|a| + |x|] == x && v[|a|..|a| + |y|] == y;
    } else {
      assert |u| != |v|;
    }
  }

  /** Replacing by a trimmed text leaves a trimmed text trimmed. */
  lemma {:induction false} ReplacedEnd(s: string, pat: string, with: string)
    requires pat != "" && s != "" && !IsSpace(s[|s| - 1]) && with != "" && !IsSpace(with[|with| - 1])
    ensures var r := ReplaceAll(s, pat, with); r != "" && !IsSpace(r[|r| - 1])
  {
    hide ReplaceAll, OccursAt, IsSpace;
    var i := Index(s, pat, 0);
    if i < 0 {
      NotThere(s, pat, with);
    } else {
      OccursFits(s, pat, i);
      var rest := s[i + |pat|..];
      ReplaceUnfold(s, pat, with);
      if rest == "" {
        NothingInEmpty(pat);
        ReplaceNone("", pat, with);
      } else {
        ReplacedEnd(rest, pat, with);
      }
    }
  }

  lemma ReplacedStart(s: string, pat: string, with: string)
    requires pat != "" && s != "" && !IsSpace(s[0]) && with != "" && !IsSpace(with[0])
    ensures var r := ReplaceAll(s, pat, with); r != "" && !IsSpace(r[0])
  {
    hide ReplaceAll, OccursAt, IsSpace;
    var i := Index(s, pat, 0);
    if i < 0 {
      NotThere(s, pat, with);
    } else {
      OccursFits(s, pat, i);
      ReplaceUnfold(s, pat, with);
    }
  }

  lemma ReplacedTrimmed(s: string, pat: string, with: string)
    requires pat != "" && s != "" && Trimmed(s) && with != "" && Trimmed(with)
    ensures var r := ReplaceAll(s, pat, with); r != "" && Trimmed(r)
  {
    hide ReplaceAll, IsSpace;
    ReplacedStart(s, pat, with);
    ReplacedEnd(s, pat, with);
  }

  /******* What the form composes in general *******/

  /** The owner as the form writes it. */
  function FilledOwner(t: G.Target): string {
    ReplaceAll(t.owner, NAME, t.repo)
  }

  lemma NameTextFilled(owner: string, name: string)
    ensures ReplaceAll("repo:" + owner + "/{name}", "{name}", name)
         == "repo:" + ReplaceAll(owner, NAME, name) + "/" + name
  {
    hide ReplaceAll;
    NameHasNoSlash();
    assert "repo:" + owner + "/{name}" == "repo:" + (owner + "/" + NAME) by { NameBehindSlash(owner); }
    ReplaceBehind("repo:", owner + "/" + NAME, NAME, name);
    ReplaceThenSlash(owner, NAME, name);
    var filled := ReplaceAll(owner, NAME, name);
    assert "repo:" + (filled + "/" + name) == "repo:" + filled + "/" + name;
  }

  lemma NameBehindSlash(owner: string)
    ensures "repo:" + owner + "/{name}" == "repo:" + (owner + "/" + NAME)
  {
    assert "/{name}" == "/" + NAME;
  }

  lemma NameHasNoSlash()
    ensures NAME != "" && '/' !in NAME && NAME[0] !in "repo:"
  {
  }

  lemma CanonicalFills(spec: string)
    requires G.ParseGitHubSourceSpec(spec).Ok? && LowerCaseModifiers(spec) && F.ParseSpec(F.GITHUB, spec).Some?
    requires !G.ParseGitHubSourceSpec(spec).value.target.allRepos
    ensures var src := G.ParseGitHubSourceSpec(spec).value;
      && Readable(src.target)
      && Canonical(spec) == RepoPrimary(FilledOwner(src.target), src.target.repo) + F.Suffixes(Picked(src.opts))
  {
    CanonicalText(spec);
    ReadByBoth(spec);
    PrimaryIsClean(spec);
    var src, b := G.ParseGitHubSourceSpec(spec).value, F.ParseSpec(F.GITHUB, spec).value;
    var p := G.SplitSourceSpec(spec).value.primary;
    TargetOfPrimary(spec);
    hide G.ParseRepoPrimary, F.FirstMatch, F.ParseSpec, G.SplitSourceSpec, G.ParseGitHubSourceSpec, LowerCaseModifiers;
    hide F.Suffixes, F.Filled, F.ArgsFrom, F.Chosen, Picked, FlagsAre, PlainSlug, PlainLogin, F.GITHUB, F.REPO, F.ORG;
    hide ReplaceAll, Readable, Trim, NAME;
    MatchCases(p);
    FoundPatterns();
    ChosenArePicked(b, src.opts);
    if F.ArgsFrom(F.REPO, p).Some? {
      RepoPrimaryPlain(p);
      FilledRepo(b, src.target.owner, src.target.repo);
      NameTextFilled(src.target.owner, src.target.repo);
    } else {
      OrgPrimaryPlain(p);
    }
  }

  /******* What the collector reads then *******/

  /** A slash behind the first separator makes the collector refuse the spec: no modifier holds one. */
  lemma SlashBehindSeparator(spec: string, i: nat, k: nat)
    requires Trimmed(spec) && OccursAt(spec, " +", i) && i + 2 <= k < |spec| && spec[k] == '/'
    ensures G.ParseGitHubSourceSpec(spec).Err?
  {
    hide Trim, Split, G.ParseRepoPrimary, G.ModifiersOf;
    TrimOfTrimmed(spec);
    var first := Index(spec, " +", 0);
    assert 0 <= first <= i;
    var rest := spec[first + 2..];
    assert rest[k - first - 2] == '/';
    var piece := CharInPiece(rest, " +", '/');
    assert Split(spec, " +") == [spec[..first]] + Split(rest, " +") by { SplitUnfold(spec, " +"); }
    assert Split(spec, " +")[1..] == Split(rest, " +");
    if G.ModifiersOf(Split(rest, " +")).Ok? {
      SlashIsUnknown(Split(rest, " +"), piece);
    }
  }

  lemma {:induction false} CharInPiece(s: string, sep: string, c: char) returns (piece: string)
    requires sep != "" && c in s && c !in sep
    ensures piece in Split(s, sep) && c in piece
  {
    var i := Index(s, sep, 0);
    if i < 0 {
      piece := s;
    } else if c in s[..i] {
      piece := s[..i];
    } else {
      OccursFits(s, sep, i);
      piece := CharInPiece(s[i + |sep|..], sep, c);
    }
  }

  lemma SlashIsUnknown(pieces: seq<string>, piece: string)
    requires piece in pieces && '/' in piece && G.ModifiersOf(pieces).Ok?
    ensures G.OptsFromModifiers(G.ModifiersOf(pieces).value).Err?
  {
    hide G.ModifiersOf, G.Modifier;
    ModifiersAre(pieces);
    var k :| 0 <= k < |pieces| && pieces[k] == piece;
    SlashKept(piece);
    KnownHaveNoSlash(G.Modifier(piece));
    assert G.ModifiersOf(pieces).value[k] in G.ModifiersOf(pieces).value;
  }

  lemma SlashKept(piece: string)
    requires '/' in piece
    ensures '/' in G.Modifier(piece)
  {
    hide Trim;
    var left, right := TrimSplits(piece);
    var t := Trim(piece);
    assert '/' in left + t + right;
    assert '/' in t;
    var i :| 0 <= i < |t| && t[i] == '/';
    assert ToLower(t)[i] == '/';
  }

  lemma KnownHaveNoSlash(m: string)
    requires '/' in m
    ensures m !in G.KNOWN
  {
  }

  lemma SpacesInFront(left: string, rest: string)
    requires AllSpace(left)
    ensures forall i :: 0 <= i < |left| ==> IsSpace((left + rest)[i])
  {
    hide IsSpace;
  }

  lemma SpacesBehind(rest: string, right: string)
    requires AllSpace(right)
    ensures forall i :: |rest| <= i < |rest + right| ==> IsSpace((rest + right)[i])
  {
    hide IsSpace;
  }

  lemma WithinTrim(left: string, core: string, right: string, k: nat)
    requires AllSpace(left) && AllSpace(right) && k < |left + core + right| && !IsSpace((left + core + right)[k])
    ensures |left| <= k < |left| + |core|
  {
    hide IsSpace, AllSpace;
    SpacesInFront(left, core + right);
    assert left + (core + right) == left + core + right;
    SpacesBehind(left + core, right);
  }

  /** A repository name behind more than white space is not what is left of it after trimming. */
  lemma TrimNotTail(x: string, n: string)
    requires n != "" && Trimmed(n)
    ensures Trim(x + "/" + n) != n
  {
    hide Trim;
    var s := x + "/" + n;
    var left, right := TrimSplits(s);
    assert s[|x|] == '/' && s[|s| - 1] == n[|n| - 1];
    WithinTrim(left, Trim(s), right, |x|);
    WithinTrim(left, Trim(s), right, |s| - 1);
  }

  /** Whatever the composed primary part is read as, its owner is the composed one or its name is not. */
  lemma SlugReadBack(owner: string, name: string)
    requires owner != "" && Trimmed(owner) && name != "" && Trimmed(name)
    requires G.ParseSlug(owner + "/" + name).Ok?
    ensures var t := G.ParseSlug(owner + "/" + name).value; t.owner == owner || t.repo != name
  {
    hide Trim, Index;
    var slug := owner + "/" + name;
    if '/' !in owner {
      SlugSlash(owner, name);
      assert slug[..|owner|] == owner;
      TrimOfTrimmed(owner);
    } else {
      var k := FirstSlashWithin(owner, name);
      assert slug[k + 1..] == owner[k + 1..] + "/" + name;
      TrimNotTail(owner[k + 1..], name);
    }
  }

  lemma FirstSlashWithin(owner: string, name: string) returns (k: nat)
    requires '/' in owner
    ensures k < |owner| && Index(owner + "/" + name, "/", 0) == k
  {
    var slug := owner + "/" + name;
    var i :| 0 <= i < |owner| && owner[i] == '/';
    assert slug[i..i + 1] == "/";
    assert OccursAt(slug, "/", i);
    k := Index(slug, "/", 0);
  }

  lemma ComposedDiffers(owner: string, name: string, o: G.Opts, was: string)
    requires owner != "" && Trimmed(owner) && name != "" && Trimmed(name) && !Contains(name, " +") && owner != was
    ensures G.ParseGitHubSourceSpec(RepoPrimary(owner, name) + F.Suffixes(Picked(o)))
         != G.Ok(G.Source(G.Target(was, name, false), o))
  {
    hide F.Suffixes, Picked, G.ParseGitHubSourceSpec, G.ParseRepoPrimary, G.SplitSourceSpec, G.ParseSlug, ToLower;
    PickedReadBack(o);
    forall t | t in Picked(o)
      ensures CleanToken(t) && ToLower(t) == t
    {
      KnownAreClean(t);
    }
    var head := RepoPrimary(owner, name);
    RepoHeadTrimmed(owner, name);
    if Contains(owner, " +") {
      var j: nat :| OccursAt(owner, " +", j);
      SuffixesAreTail(Picked(o));
      TailEnd(head, Picked(o));
      OwnerInSpec(owner, name, F.Suffixes(Picked(o)), j);
      SlashBehindSeparator(head + F.Suffixes(Picked(o)), 5 + j, 5 + |owner|);
    } else {
      RepoHeadClean(owner, name);
      ComposedPieces(head, Picked(o));
      ParsedFromPieces(head + F.Suffixes(Picked(o)), head);
      SlugBehindPrefix(owner, name);
      if G.ParseRepoPrimary(head).Ok? {
        SlugReadBack(owner, name);
      }
    }
  }

  lemma ParsedFromPieces(spec: string, head: string)
    requires G.SplitSourceSpec(spec).Ok? && G.SplitSourceSpec(spec).value.primary == head
    ensures G.ParseGitHubSourceSpec(spec).Ok? ==>
      G.ParseRepoPrimary(head) == G.Ok(G.ParseGitHubSourceSpec(spec).value.target)
  {
    hide G.SplitSourceSpec, G.ParseRepoPrimary;
  }

  lemma OwnerInSpec(owner: string, name: string, tail: string, j: nat)
    requires OccursAt(owner, " +", j)
    ensures var s := RepoPrimary(owner, name) + tail;
      OccursAt(s, " +", 5 + j) && 5 + j + 2 <= 5 + |owner| < |s| && s[5 + |owner|] == '/'
  {
    var s := RepoPrimary(owner, name) + tail;
    OccursFits(owner, " +", j);
    assert s[5 + j..5 + j + 2] == owner[j..j + 2];
  }

  /******* The exact condition *******/

  /** Reading a spec into the form and composing it again keeps what the collector collects exactly when the owner does
   not hold the placeholder of the name, or the name is just that text. */
  lemma MeaningKeptIff(spec: string)
    requires G.ParseGitHubSourceSpec(spec).Ok? && LowerCaseModifiers(spec) && F.ParseSpec(F.GITHUB, spec).Some?
    ensures var t := G.ParseGitHubSourceSpec(spec).value.target;
      G.ParseGitHubSourceSpec(Canonical(spec)) == G.ParseGitHubSourceSpec(spec) <==>
        NoPlaceholder(t) || t.repo == "{name}"
  {
    var src := G.ParseGitHubSourceSpec(spec).value;
    var t := src.target;
    hide G.ParseGitHubSourceSpec, F.ParseSpec, LowerCaseModifiers, Canonical, Picked, F.Suffixes, F.GITHUB, ReplaceAll;
    if NoPlaceholder(t) {
      CanonicalKeepsMeaning(spec);
    } else {
      CanonicalFills(spec);
      assert Contains(t.owner, NAME);
      if t.repo == "{name}" {
        SameText(t.owner);
        CanonicalIsRead(t, src.opts);
      } else {
        ReplaceChanges(t.owner, NAME, t.repo);
        ReplacedTrimmed(t.owner, NAME, t.repo);
        ComposedDiffers(FilledOwner(t), t.repo, src.opts, t.owner);
      }
    }
  }

  lemma SameText(owner: string)
    ensures ReplaceAll(owner, NAME, "{name}") == owner
  {
    SplitJoin(owner, NAME);
  }
}

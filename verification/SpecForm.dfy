/**
 The frontend's form builder for source specs: a schema document describes a collector's specs, a spec is read into
 form fields, and form fields are composed into a spec.
 */
module SpecForm {
  import opened Basics
  import opened Text

  datatype Pattern = Pattern(id: string, syntaxPrefix: string, args: seq<string>, valueTemplate: string)

  datatype Modifier = Modifier(id: string, kind: string, syntaxSuffix: string)

  datatype Doc = Doc(patterns: seq<Pattern>, modifiers: seq<Modifier>)

  datatype Builder = Builder(patternId: string, args: map<string, string>, modifiers: map<string, bool>)

  const REPO := Pattern("repo", "repo:", ["owner", "name"], "repo:{owner}/{name}")
  const ORG := Pattern("org.repos", "org.repos:", ["login"], "org.repos:{login}")
  const GITHUB := Doc([REPO, ORG], [
    Modifier("dependabot", "boolean", "dependabot"), Modifier("pr", "boolean", "pr"),
    Modifier("issue", "boolean", "issue"), Modifier("packages", "boolean", "packages")])

  /******* Reading a spec *******/

  function TrimAll(pieces: seq<string>): (r: seq<string>)
    ensures |r| == |pieces| && forall i :: 0 <= i < |r| ==> r[i] == Trim(pieces[i])
  {
    seq(|pieces|, i requires 0 <= i < |pieces| => Trim(pieces[i]))
  }

  predicate NonEmpty(s: string) {
    s != ""
  }

  /** The spec's parts: trimmed, without the empty ones. */
  function PartsOf(spec: string): seq<string> {
    Filter(NonEmpty, TrimAll(Split(Trim(spec), " +")))
  }

  predicate LineBreak(c: char) {
    c == '\n' || c == '\r'
  }

  /** The match of ^([^/]+)\/(.+)$ : everything before the first slash, and the one line after it. */
  function SlugMatch(rest: string): Option<(string, string)> {
    var slash := Index(rest, "/", 0);
    if slash <= 0 || slash + 1 == |rest| then None
    else if exists i | slash < i < |rest| :: LineBreak(rest[i]) then None
    else Some((rest[..slash], rest[slash + 1..]))
  }

  /** The match of ^[^/\s]+$ */
  predicate LoginMatch(rest: string) {
    rest != "" && forall i | 0 <= i < |rest| :: rest[i] != '/' && !IsSpace(rest[i])
  }

  /** The arguments a pattern reads from the primary part. */
  function ArgsFrom(p: Pattern, primary: string): Option<map<string, string>> {
    if !HasPrefix(primary, p.syntaxPrefix) then None else
    var rest := primary[|p.syntaxPrefix|..];
    if p.id == "repo" then
      match SlugMatch(rest)
      case None => None
      case Some(m) => Some(map["owner" := m.0, "name" := m.1])
    else if p.id == "org.repos" then
      if LoginMatch(rest) then Some(map["login" := rest]) else None
    else if |p.args| == 1 then Some(map[p.args[0] := rest])
    else None
  }

  /** A line ends at a line feed or a carriage return. */
  lemma LineBreaksAre(c: char)
    ensures LineBreak(c) <==> c == '\n' || c == '\r'
  {
  }

  /** A pattern that is neither of the two well-known ones reads what follows its prefix into its one argument, and
   nothing if it has another number of them. */
  lemma OtherPatternReads(p: Pattern, primary: string)
    requires p.id != "repo" && p.id != "org.repos"
    ensures ArgsFrom(p, primary).Some? <==> HasPrefix(primary, p.syntaxPrefix) && |p.args| == 1
    ensures ArgsFrom(p, primary).Some? ==>
      ArgsFrom(p, primary).value == map[p.args[0] := primary[|p.syntaxPrefix|..]]
  {
  }

  function ModifierFlags(modifiers: seq<Modifier>, tokens: set<string>): map<string, bool> {
    if modifiers == [] then map[]
    else
      var last := modifiers[|modifiers| - 1];
      ModifierFlags(modifiers[..|modifiers| - 1], tokens)[last.id := last.syntaxSuffix in tokens]
  }

  /** The first pattern that reads the primary part. */
  function FirstMatch(patterns: seq<Pattern>, primary: string): Option<(Pattern, map<string, string>)> {
    if patterns == [] then None
    else
      match ArgsFrom(patterns[0], primary)
      case Some(args) => Some((patterns[0], args))
      case None => FirstMatch(patterns[1..], primary)
  }

  function Tokens(parts: seq<string>): set<string> {
    set t | t in parts
  }

  function ParseSpec(doc: Doc, spec: string): Option<Builder> {
    var parts := PartsOf(spec);
    if parts == [] then None else
    match FirstMatch(doc.patterns, parts[0])
    case None => None
    case Some(m) => Some(Builder(m.0.id, m.1, ModifierFlags(doc.modifiers, Tokens(parts[1..]))))
  }

  /** parseSpecIntoBuilder */
  method ParseSpecIntoBuilder(doc: Doc, spec: string) returns (b: Option<Builder>)
    ensures b == ParseSpec(doc, spec)
  {
    hide ArgsFrom, PartsOf;
    if Trim(spec) == "" {
      NoParts(spec);
      return None;
    }
    var parts := PartsOf(spec);
    if parts == [] {
      return None;
    }
    var primary, tokens := parts[0], Tokens(parts[1..]);
    for i := 0 to |doc.patterns|
      invariant FirstMatch(doc.patterns, primary) == FirstMatch(doc.patterns[i..], primary)
    {
      var p := doc.patterns[i];
      var args := ArgsFrom(p, primary);
      if args.None? {
        continue;
      }
      var modifiers: map<string, bool> := map[];
      for k := 0 to |doc.modifiers|
        invariant modifiers == ModifierFlags(doc.modifiers[..k], tokens)
      {
        assert doc.modifiers[..k + 1][..k] == doc.modifiers[..k];
        modifiers := modifiers[doc.modifiers[k].id := doc.modifiers[k].syntaxSuffix in tokens];
      }
      assert doc.modifiers[..|doc.modifiers|] == doc.modifiers;
      return Some(Builder(p.id, args.value, modifiers));
    }
    b := None;
  }

  lemma NoParts(spec: string)
    requires Trim(spec) == ""
    ensures PartsOf(spec) == []
  {
    assert !Contains("", " +");
    SplitWithout("", " +");
    TrimOfTrimmed("");
    assert TrimAll([""]) == [""];
    assert [""][1..] == [];
  }

  /******* Composing a spec *******/

  function Arg(b: Builder, id: string): string {
    if id in b.args then Trim(b.args[id]) else ""
  }

  function Filled(template: string, args: seq<string>, b: Builder): string {
    if args == [] then template
    else
      var last := args[|args| - 1];
      ReplaceAll(Filled(template, args[..|args| - 1], b), "{" + last + "}", Arg(b, last))
  }

  predicate Switched(b: Builder, m: Modifier) {
    m.kind == "boolean" && m.id in b.modifiers && b.modifiers[m.id]
  }

  /** The suffixes of the modifiers switched on, in the schema's order. */
  function Chosen(modifiers: seq<Modifier>, b: Builder): seq<string> {
    if modifiers == [] then []
    else
      Chosen(modifiers[..|modifiers| - 1], b) +
      (if Switched(b, modifiers[|modifiers| - 1]) then [modifiers[|modifiers| - 1].syntaxSuffix] else [])
  }

  /** A suffix is chosen exactly if some boolean modifier with it is switched on. */
  lemma {:induction false} ChosenIff(modifiers: seq<Modifier>, b: Builder, suffix: string)
    ensures suffix in Chosen(modifiers, b) <==> exists m ::
      && m in modifiers && m.syntaxSuffix == suffix
      && m.kind == "boolean" && m.id in b.modifiers && b.modifiers[m.id]
  {
    if modifiers != [] {
      var n := |modifiers| - 1;
      ChosenIff(modifiers[..n], b, suffix);
      assert modifiers == modifiers[..n] + [modifiers[n]];
    }
  }

  function Suffixes(tokens: seq<string>): string {
    if tokens == [] then "" else Suffixes(tokens[..|tokens| - 1]) + " +" + tokens[|tokens| - 1]
  }

  function FindPattern(patterns: seq<Pattern>, id: string): (r: Option<Pattern>)
    ensures r.Some? ==> r.value in patterns && r.value.id == id
    ensures r.None? ==> forall p :: p in patterns ==> p.id != id
  {
    if patterns == [] then None
    else if patterns[0].id == id then Some(patterns[0])
    else FindPattern(patterns[1..], id)
  }

  function Compose(doc: Doc, b: Builder): string {
    match FindPattern(doc.patterns, b.patternId)
    case None => ""
    case Some(p) => Filled(p.valueTemplate, p.args, b) + Suffixes(Chosen(doc.modifiers, b))
  }

  /** The first loop of composeSpec: the arguments are filled in one after the other. */
  method FillTemplate(template: string, args: seq<string>, b: Builder) returns (s: string)
    ensures s == Filled(template, args, b)
  {
    hide ReplaceAll, Arg;
    s := template;
    for i := 0 to |args|
      invariant s == Filled(template, args[..i], b)
    {
      assert args[..i + 1][..i] == args[..i];
      s := ReplaceAll(s, "{" + args[i] + "}", Arg(b, args[i]));
    }
    assert args[..|args|] == args;
  }

  /** One modifier more. */
  lemma OneMoreSuffix(head: string, modifiers: seq<Modifier>, i: nat, b: Builder)
    requires i < |modifiers|
    ensures head + Suffixes(Chosen(modifiers[..i + 1], b)) ==
      if Switched(b, modifiers[i]) then head + Suffixes(Chosen(modifiers[..i], b)) + " +" + modifiers[i].syntaxSuffix
      else head + Suffixes(Chosen(modifiers[..i], b))
  {
    hide Suffixes, Switched;
    var before := Chosen(modifiers[..i], b);
    assert modifiers[..i + 1][..i] == modifiers[..i];
    if Switched(b, modifiers[i]) {
      SuffixesAppend(before, modifiers[i].syntaxSuffix);
      JoinsUp(head, Suffixes(before), modifiers[i].syntaxSuffix);
    } else {
      assert before + [] == before;
    }
  }

  lemma JoinsUp(a: string, b: string, c: string)
    ensures a + (b + " +" + c) == a + b + " +" + c
  {
  }

  /** The second loop of composeSpec: the suffixes of the modifiers switched on are appended. */
  method AppendSuffixes(head: string, modifiers: seq<Modifier>, b: Builder) returns (s: string)
    ensures s == head + Suffixes(Chosen(modifiers, b))
  {
    hide Suffixes, Chosen;
    NoSuffix(head, b);
    assert modifiers[..0] == [];
    s := head;
    for i := 0 to |modifiers|
      invariant s == head + Suffixes(Chosen(modifiers[..i], b))
    {
      OneMoreSuffix(head, modifiers, i, b);
      var m := modifiers[i];
      if m.kind == "boolean" && m.id in b.modifiers && b.modifiers[m.id] {
        s := s + " +" + m.syntaxSuffix;
      }
    }
    assert modifiers[..|modifiers|] == modifiers;
  }

  lemma NoSuffix(head: string, b: Builder)
    ensures head + Suffixes(Chosen([], b)) == head
  {
  }

  /** composeSpec */
  method ComposeSpec(doc: Doc, b: Builder) returns (s: string)
    ensures s == Compose(doc, b)
  {
    hide Filled, Suffixes, Chosen;
    var p := FindPattern(doc.patterns, b.patternId);
    if p.None? {
      return "";
    }
    s := FillTemplate(p.value.valueTemplate, p.value.args, b);
    s := AppendSuffixes(s, doc.modifiers, b);
  }

  lemma SuffixesAppend(tokens: seq<string>, token: string)
    ensures Suffixes(tokens + [token]) == Suffixes(tokens) + " +" + token
  {
    assert (tokens + [token])[..|tokens|] == tokens;
  }

  /** builderStateForPattern: the fields of one pattern, carried over from the previous state where it has them. */
  method BuilderForPattern(doc: Doc, patternId: string, prev: Option<Builder>) returns (b: Builder)
    ensures b.patternId == patternId
    ensures var p := FindPattern(doc.patterns, patternId);
      b.args.Keys == (if p.Some? then set a | a in p.value.args else {})
    ensures forall a :: a in b.args ==>
      b.args[a] == if prev.Some? && a in prev.value.args then prev.value.args[a] else ""
    ensures b.modifiers.Keys == set m | m in doc.modifiers :: m.id
    ensures forall m :: m in b.modifiers ==>
      b.modifiers[m] == (prev.Some? && m in prev.value.modifiers && prev.value.modifiers[m])
  {
    var p := FindPattern(doc.patterns, patternId);
    var ids := if p.Some? then p.value.args else [];
    var args: map<string, string> := map[];
    for i := 0 to |ids|
      invariant args.Keys == set a | a in ids[..i]
      invariant forall a :: a in args ==>
        args[a] == if prev.Some? && a in prev.value.args then prev.value.args[a] else ""
    {
      assert ids[..i + 1] == ids[..i] + [ids[i]];
      args := args[ids[i] := if prev.Some? && ids[i] in prev.value.args then prev.value.args[ids[i]] else ""];
    }
    assert ids[..|ids|] == ids;
    var modifiers: map<string, bool> := map[];
    for i := 0 to |doc.modifiers|
      invariant modifiers.Keys == set m | m in doc.modifiers[..i] :: m.id
      invariant forall m :: m in modifiers ==>
        modifiers[m] == (prev.Some? && m in prev.value.modifiers && prev.value.modifiers[m])
    {
      var id := doc.modifiers[i].id;
      assert doc.modifiers[..i + 1] == doc.modifiers[..i] + [doc.modifiers[i]];
      modifiers := modifiers[id := prev.Some? && id in prev.value.modifiers && prev.value.modifiers[id]];
    }
    assert doc.modifiers[..|doc.modifiers|] == doc.modifiers;
    b := Builder(patternId, args, modifiers);
  }
}

/**
 The YAML sink: entities written to files through a temporary file and a rename, and a git sync that commits the files,
 both under one lock.
 */
module YamlStore {
  import opened Basics
  import opened Text

  const YAML := ".yaml"
  const YML := ".yml"
  const TEMP := ".tmp"

  /******* Names *******/

  predicate IsAlphanumeric(c: char) {
    'a' <= c <= 'z' || 'A' <= c <= 'Z' || '0' <= c <= '9'
  }

  predicate IsMark(c: char) {
    c == '.' || c == '_' || c == '-'
  }

  predicate IsSafe(c: char) {
    IsAlphanumeric(c) || IsMark(c)
  }

  /** Letters, digits, dots, underscores and dashes are safe; the last three are trimmed at the ends. */
  lemma CharClasses(c: char)
    ensures IsSafe(c) <==> 'a' <= c <= 'z' || 'A' <= c <= 'Z' || '0' <= c <= '9' || c in {'.', '_', '-'}
    ensures IsMark(c) <==> c in {'.', '_', '-'}
  {
  }

  ghost predicate HasAlphanumeric(s: string) {
    exists i :: 0 <= i < |s| && IsAlphanumeric(s[i])
  }

  /** Every run of unsafe characters becomes one underscore. */
  function Sanitised(s: string): (r: string)
    ensures forall i :: 0 <= i < |r| ==> IsSafe(r[i])
  {
    if s == [] then []
    else
      var n := |s| - 1;
      Sanitised(s[..n]) +
      (if IsSafe(s[n]) then [s[n]] else if n > 0 && !IsSafe(s[n - 1]) then [] else "_")
  }

  function SkipMarks(s: string, from: nat): (n: nat)
    requires from <= |s|
    ensures from <= n <= |s| && (n < |s| ==> !IsMark(s[n]))
    ensures forall i :: from <= i < n ==> IsMark(s[i])
    decreases |s| - from
  {
    if from < |s| && IsMark(s[from]) then SkipMarks(s, from + 1) else from
  }

  function DropMarks(s: string, to: nat): (n: nat)
    requires to <= |s|
    ensures n <= to && (n > 0 ==> !IsMark(s[n - 1]))
    ensures forall i :: n <= i < to ==> IsMark(s[i])
  {
    if to > 0 && IsMark(s[to - 1]) then DropMarks(s, to - 1) else to
  }

  function TrimMarks(s: string): (r: string)
    ensures r == [] <==> forall i :: 0 <= i < |s| ==> IsMark(s[i])
    ensures r != [] ==> !IsMark(r[0]) && !IsMark(r[|r| - 1])
    ensures forall c :: c in r ==> c in s
  {
    var first, last := SkipMarks(s, 0), DropMarks(s, |s|);
    if first < last then s[first..last] else []
  }

  /** entityDirName; None is an error. */
  function EntityDirName(entityType: string): Option<string> {
    var dir := Trim(entityType);
    if dir == "" || dir == "." || dir == ".." || '/' in dir then None else Some(dir)
  }

  function StemOf(uid: string, hash: string): string {
    if Trim(uid) != "" then Trim(uid) else Trim(hash)
  }

  /** entityFileName; None is an error. */
  function EntityFileName(uid: string, hash: string): Option<string> {
    var stem := TrimMarks(Sanitised(StemOf(uid, hash)));
    if stem == "" then None else Some(stem + YAML)
  }

  lemma {:induction false} SanitisedKeeps(s: string)
    ensures HasAlphanumeric(Sanitised(s)) <==> HasAlphanumeric(s)
  {
    if s != [] {
      var n := |s| - 1;
      SanitisedKeeps(s[..n]);
      var before, last := Sanitised(s[..n]), Sanitised(s)[|Sanitised(s[..n])|..];
      assert Sanitised(s) == before + last;
      OneOf(before, last);
      assert s == s[..n] + [s[n]];
      OneOf(s[..n], [s[n]]);
      assert HasAlphanumeric(last) <==> IsAlphanumeric(s[n]) by {
        if IsAlphanumeric(s[n]) {
          assert last[0] == s[n];
        }
      }
      assert HasAlphanumeric([s[n]]) <==> IsAlphanumeric(s[n]) by {
        if IsAlphanumeric(s[n]) {
          assert [s[n]][0] == s[n];
        }
      }
    }
  }

  lemma OneOf(a: string, b: string)
    ensures HasAlphanumeric(a + b) <==> HasAlphanumeric(a) || HasAlphanumeric(b)
  {
    hide IsAlphanumeric;
    if HasAlphanumeric(a) {
      var i :| 0 <= i < |a| && IsAlphanumeric(a[i]);
      assert (a + b)[i] == a[i];
    }
    if HasAlphanumeric(b) {
      var i :| 0 <= i < |b| && IsAlphanumeric(b[i]);
      assert (a + b)[|a| + i] == b[i];
    }
  }

  /** One character more. */
  lemma SanitisedMore(s: string, c: char)
    ensures Sanitised(s + [c]) == Sanitised(s) +
      (if IsSafe(c) then [c] else if s != "" && !IsSafe(s[|s| - 1]) then [] else "_")
  {
    hide IsSafe;
    assert (s + [c])[..|s|] == s && (s + [c])[|s|] == c;
    assert s != "" ==> (s + [c])[|s| - 1] == s[|s| - 1];
  }

  lemma {:induction false} SanitisedUnsafe(a: string, gap: string)
    requires gap != "" && forall i :: 0 <= i < |gap| ==> !IsSafe(gap[i])
    requires a == "" || IsSafe(a[|a| - 1])
    ensures Sanitised(a + gap) == Sanitised(a) + "_"
  {
    hide Sanitised, IsSafe;
    var n := |gap| - 1;
    SanitisedMore(a + gap[..n], gap[n]);
    assert a + gap[..n] + [gap[n]] == a + gap;
    if n > 0 {
      SanitisedUnsafe(a, gap[..n]);
      assert (a + gap[..n])[|a| + n - 1] == gap[n - 1];
    } else {
      assert a + gap[..0] == a;
    }
  }

  /** However long a gap of unsafe characters is, it becomes one underscore, and what follows is treated on its own. */
  lemma {:induction false} GapBecomesOne(a: string, gap: string, b: string)
    requires gap != "" && forall i :: 0 <= i < |gap| ==> !IsSafe(gap[i])
    requires (a == "" || IsSafe(a[|a| - 1])) && (b == "" || IsSafe(b[0]))
    ensures Sanitised(a + gap + b) == Sanitised(a) + "_" + Sanitised(b)
  {
    SanitisedNothing();
    hide Sanitised, IsSafe;
    if b == "" {
      assert a + gap + b == a + gap;
      SanitisedUnsafe(a, gap);
    } else {
      var n := |b| - 1;
      var front := a + gap + b[..n];
      GapBecomesOne(a, gap, b[..n]);
      SanitisedMore(front, b[n]);
      SanitisedMore(b[..n], b[n]);
      assert front + [b[n]] == a + gap + b && b[..n] + [b[n]] == b;
      LastOfFront(a, gap, b[..n]);
    }
  }

  lemma LastOfFront(a: string, gap: string, b: string)
    requires gap != ""
    ensures var s := a + gap + b; s != "" && s[|s| - 1] == if b == "" then gap[|gap| - 1] else b[|b| - 1]
  {
  }

  lemma SanitisedNothing()
    ensures Sanitised("") == ""
  {
  }

  /** The hash names the file only if the id is blank, and the id alone does otherwise. */
  lemma HashOnlyWhenBlank(uid: string, hash: string, other: string)
    ensures Trim(uid) != "" ==> EntityFileName(uid, hash) == EntityFileName(uid, other)
    ensures Trim(uid) == "" && Trim(hash) != "" ==> EntityFileName(uid, hash) == EntityFileName(hash, other)
    ensures Trim(uid) == "" && Trim(hash) == "" ==> EntityFileName(uid, hash).None?
  {
    hide Trim, Sanitised, TrimMarks, YAML;
    NothingNamed();
  }

  lemma NothingNamed()
    ensures TrimMarks(Sanitised("")) == ""
  {
  }

  /** A directory is named by the trimmed type, unless that is empty, a dot name, or holds a slash. */
  lemma DirIs(entityType: string)
    ensures var dir := Trim(entityType);
      EntityDirName(entityType) == if dir == "" || dir == "." || dir == ".." || '/' in dir then None else Some(dir)
  {
  }

  /** A file is named exactly when the id, or the hash if the id is blank, holds a letter or a digit. */
  lemma NamedIff(uid: string, hash: string)
    ensures EntityFileName(uid, hash).Some? <==> HasAlphanumeric(if Trim(uid) != "" then Trim(uid) else Trim(hash))
  {
    hide Trim, Sanitised, TrimMarks, YAML;
    SanitisedKeeps(StemOf(uid, hash));
  }

  /** What a file name looks like: it is no path, no dot name, and no temporary name. */
  lemma NameShape(uid: string, hash: string)
    requires EntityFileName(uid, hash).Some?
    ensures var name := EntityFileName(uid, hash).value;
      && HasSuffix(name, YAML) && |name| > |YAML| && IsAlphanumeric(name[0]) && '/' !in name
      && forall i :: 0 <= i < |name| ==> IsSafe(name[i])
  {
    hide Sanitised, StemOf, TrimMarks;
    var stem := TrimMarks(Sanitised(StemOf(uid, hash)));
    assert stem[0] in Sanitised(StemOf(uid, hash));
    var name := stem + YAML;
    SafeEnd();
    forall i | 0 <= i < |name|
      ensures IsSafe(name[i])
    {
      if i < |stem| {
        assert name[i] in stem;
        assert name[i] in Sanitised(StemOf(uid, hash));
      } else {
        assert name[i] == YAML[i - |stem|];
      }
    }
  }

  lemma SafeEnd()
    ensures forall i :: 0 <= i < |YAML| ==> IsSafe(YAML[i])
  {
  }

  ghost predicate CleanName(s: string) {
    && s != [] && IsAlphanumeric(s[0]) && IsAlphanumeric(s[|s| - 1])
    && forall i :: 0 <= i < |s| ==> IsSafe(s[i])
  }

  lemma {:induction false} SanitisedSafe(s: string)
    requires forall i :: 0 <= i < |s| ==> IsSafe(s[i])
    ensures Sanitised(s) == s
  {
    if s != [] {
      SanitisedSafe(s[..|s| - 1]);
    }
  }

  lemma CleanNameStays(s: string)
    requires CleanName(s)
    ensures TrimMarks(Sanitised(s)) == s && Trim(s) == s
  {
    hide Sanitised, Trim;
    SanitisedSafe(s);
    TrimOfTrimmed(s);
    assert SkipMarks(s, 0) == 0 && DropMarks(s, |s|) == |s|;
  }

  /** The file name without its suffix. */
  function Stem(uid: string, hash: string): string {
    TrimMarks(Sanitised(StemOf(uid, hash)))
  }

  lemma StemIsClean(uid: string, hash: string)
    requires EntityFileName(uid, hash).Some?
    ensures CleanName(Stem(uid, hash))
  {
    hide Sanitised, StemOf, TrimMarks, YAML;
    var stem := Stem(uid, hash);
    forall i | 0 <= i < |stem|
      ensures IsSafe(stem[i])
    {
      assert stem[i] in Sanitised(StemOf(uid, hash));
    }
    assert IsSafe(stem[0]) && IsSafe(stem[|stem| - 1]);
  }

  /** An id keeps its text exactly when it is clean. */
  lemma KeepsTextIff(uid: string, hash: string)
    requires Trim(uid) != ""
    ensures EntityFileName(uid, hash) == Some(uid + YAML) <==> CleanName(uid)
  {
    hide Sanitised, Trim, TrimMarks, YAML, CleanName;
    if CleanName(uid) {
      CleanIdsKeptApart(uid, hash);
    }
    if EntityFileName(uid, hash) == Some(uid + YAML) {
      StemIsClean(uid, hash);
      assert Stem(uid, hash) == uid by { SameBeforeSuffix(Stem(uid, hash), uid, YAML); }
    }
  }

  lemma SameBeforeSuffix(a: string, b: string, suffix: string)
    requires a + suffix == b + suffix
    ensures a == b
  {
    assert a == (a + suffix)[..|a|] && b == (b + suffix)[..|b|];
  }

  /** Every other id that can be named shares its file with a clean one: its own stem. */
  lemma SharesWithStem(uid: string, hash: string, otherHash: string)
    requires EntityFileName(uid, hash).Some?
    ensures CleanName(Stem(uid, hash))
    ensures EntityFileName(Stem(uid, hash), otherHash) == EntityFileName(uid, hash)
    ensures Trim(uid) != "" ==> (Stem(uid, hash) == uid <==> CleanName(uid))
  {
    hide Sanitised, Trim, TrimMarks, YAML, CleanName;
    StemIsClean(uid, hash);
    CleanIdsKeptApart(Stem(uid, hash), otherHash);
    if Trim(uid) != "" {
      KeepsTextIff(uid, hash);
      if Stem(uid, hash) != uid && EntityFileName(uid, hash) == Some(uid + YAML) {
        SameBeforeSuffix(Stem(uid, hash), uid, YAML);
      }
    }
  }

  /** Clean ids keep their text, so entities with different clean ids have different files. */
  lemma CleanIdsKeptApart(uid: string, hash: string)
    requires CleanName(uid)
    ensures EntityFileName(uid, hash) == Some(uid + YAML)
  {
    hide Sanitised, Trim, TrimMarks;
    CleanNameStays(uid);
  }

  /** Others may meet: one file can stand for several entities. */
  lemma NamesCollide()
    ensures EntityFileName("a/b", "") == EntityFileName("a:b", "") == Some("a_b" + YAML)
  {
    hide EntityFileName, YAML;
    CollidesAs('/');
    CollidesAs(':');
    assert "a" + ['/'] + "b" == "a/b" && "a" + [':'] + "b" == "a:b";
  }

  lemma CollidesAs(c: char)
    requires !IsSafe(c) && !IsSpace(c)
    ensures EntityFileName("a" + [c] + "b", "") == Some("a_b" + YAML)
  {
    hide Trim, TrimMarks, YAML;
    var s := "a" + [c] + "b";
    TrimOfTrimmed(s);
    assert Sanitised(s) == "a_b" by { SanitisedMiddle(c); }
    CleanNameStays("a_b");
    SanitisedSafe("a_b");
  }

  lemma SanitisedMiddle(c: char)
    requires !IsSafe(c)
    ensures Sanitised("a" + [c] + "b") == "a_b"
  {
    var s := "a" + [c] + "b";
    assert s[..2] == "a" + [c] && s[..2][..1] == "a" && s[2] == 'b' && s[1] == c;
    SanitisedSafe("a");
    assert Sanitised(s[..2]) == "a" + "_";
  }

  /******* Paths *******/

  datatype Metadata = Metadata(entityType: string, sourceUniqueId: string, hashValue: string, rest: string)

  datatype Message = Message(kind: string, schemaVersion: string, meta: Metadata, structure: string, values: string)

  /** What is written of a message: everything but the structure. */
  datatype Entity = Entity(kind: string, schemaVersion: string, meta: Metadata, values: string)

  function ToPersisted(m: Message): Entity {
    Entity(m.kind, m.schemaVersion, m.meta, m.values)
  }

  /** entityFilePath; None is an error. */
  function EntityFilePath(root: string, meta: Metadata): Option<string> {
    var dir, name := EntityDirName(meta.entityType), EntityFileName(meta.sourceUniqueId, meta.hashValue);
    if dir.None? || name.None? then None else Some(root + "/" + dir.value + "/" + name.value)
  }

  /** The path is that of the directory and the file name under the root. */
  lemma PathIs(root: string, meta: Metadata)
    ensures EntityFilePath(root, meta).Some? <==>
      EntityDirName(meta.entityType).Some? && EntityFileName(meta.sourceUniqueId, meta.hashValue).Some?
    ensures EntityFilePath(root, meta).Some? ==>
      EntityFilePath(root, meta).value ==
      root + "/" + Trim(meta.entityType) + "/" + EntityFileName(meta.sourceUniqueId, meta.hashValue).value
  {
    hide Trim, EntityFileName;
  }

  function TempPath(path: string): string {
    path + TEMP
  }

  predicate IsYaml(path: string) {
    HasSuffix(path, YAML) || HasSuffix(path, YML)
  }

  lemma SlashSplits(a: string, b: string, a': string, b': string)
    requires '/' !in a && '/' !in a'
    ensures a + "/" + b == a' + "/" + b' <==> a == a' && b == b'
  {
    var x, y := a + "/" + b, a' + "/" + b';
    if |a| < |a'| {
      SlashTooSoon(a, b, a', b');
    } else if |a'| < |a| {
      SlashTooSoon(a', b', a, b);
    } else {
      assert x[..|a|] == a && y[..|a|] == a';
      assert x[|a| + 1..] == b && y[|a| + 1..] == b';
    }
  }

  lemma SlashTooSoon(a: string, b: string, a': string, b': string)
    requires |a| < |a'| && '/' !in a'
    ensures a + "/" + b != a' + "/" + b'
  {
    assert (a + "/" + b)[|a|] == '/';
    assert (a' + "/" + b')[|a|] == a'[|a|];
  }

  lemma SamePrefix(p: string, a: string, b: string)
    ensures p + a == p + b <==> a == b
  {
    if p + a == p + b {
      assert (p + a)[|p|..] == a && (p + b)[|p|..] == b;
    }
  }

  /** Two entities share a file exactly when their directories and their file names are the same. */
  lemma SameFileIff(root: string, a: Metadata, b: Metadata)
    requires EntityFilePath(root, a).Some? && EntityFilePath(root, b).Some?
    ensures EntityFilePath(root, a) == EntityFilePath(root, b) <==>
      && Trim(a.entityType) == Trim(b.entityType)
      && EntityFileName(a.sourceUniqueId, a.hashValue) == EntityFileName(b.sourceUniqueId, b.hashValue)
  {
    hide Trim, EntityFileName;
    var d, d' := Trim(a.entityType), Trim(b.entityType);
    var n := EntityFileName(a.sourceUniqueId, a.hashValue).value;
    var n' := EntityFileName(b.sourceUniqueId, b.hashValue).value;
    SlashSplits(d, n, d', n');
    SamePrefix(root + "/", d + "/" + n, d' + "/" + n');
    assert root + "/" + (d + "/" + n) == root + "/" + d + "/" + n;
    assert root + "/" + (d' + "/" + n') == root + "/" + d' + "/" + n';
  }

  lemma SuffixOfSum(a: string, b: string, suffix: string)
    requires HasSuffix(b, suffix)
    ensures HasSuffix(a + b, suffix)
  {
    assert (a + b)[|a + b| - |suffix|..] == b[|b| - |suffix|..];
  }

  lemma EntityPathIsYaml(root: string, meta: Metadata)
    requires EntityFilePath(root, meta).Some?
    ensures HasSuffix(EntityFilePath(root, meta).value, YAML)
  {
    hide EntityFileName, EntityDirName, YAML;
    NameShape(meta.sourceUniqueId, meta.hashValue);
    SuffixOfSum(root + "/" + EntityDirName(meta.entityType).value + "/",
                EntityFileName(meta.sourceUniqueId, meta.hashValue).value, YAML);
  }

  lemma TempIsNotYaml(path: string)
    ensures !IsYaml(TempPath(path))
  {
    var t := TempPath(path);
    assert t[|t| - 1] == 'p';
  }

  /** No entity's file is another's temporary file, and a temporary file is never chosen for a commit. */
  lemma FinalIsNotTemp(root: string, a: Metadata, b: Metadata)
    requires EntityFilePath(root, a).Some? && EntityFilePath(root, b).Some?
    ensures IsYaml(EntityFilePath(root, a).value) && !IsYaml(TempPath(EntityFilePath(root, b).value))
    ensures EntityFilePath(root, a).value != TempPath(EntityFilePath(root, b).value)
  {
    hide EntityFilePath;
    EntityPathIsYaml(root, a);
    TempIsNotYaml(EntityFilePath(root, b).value);
  }

  /******* The store as a machine *******/

  /** The store's fixed surroundings: its directory, and the marshaller (None is an error). */
  datatype Setting = Setting(root: string, marshal: Entity -> Option<string>)

  /** Who holds the lock, if anyone: a write that has got `done` characters into the temporary file, or a sync that has
   chosen its files, or has added them. */
  datatype Phase =
    | Idle
    | Writing(m: Message, path: string, body: string, done: nat)
    | Syncing(chosen: set<string>)
    | Added

  /** `index` is what git has been told to track, with the text added; `renamed` are the messages whose rename went
   through, in order; `commits` what was committed, which is the whole index each time. */
  datatype State = State(
    files: map<string, string>, phase: Phase, index: map<string, string>, renamed: seq<Message>,
    commits: seq<map<string, string>>)

  datatype Step =
    | Begin(m: Message, mkdir: bool)
    | Grow(done: nat)
    | WriteFails
    | Rename
    | RenameFails(removed: bool)
    | Choose(listing: set<string>)
    | Add
    | GitFails
    | Commit
    | Crash

  predicate GoodEnvelope(m: Message) {
    m.kind == "Entity" && m.schemaVersion == "v1"
  }

  function PathOf(c: Setting, m: Message): Option<string> {
    EntityFilePath(c.root, m.meta)
  }

  function BodyOf(c: Setting, m: Message): Option<string> {
    c.marshal(ToPersisted(m))
  }

  predicate Writable(c: Setting, m: Message) {
    GoodEnvelope(m) && PathOf(c, m).Some? && BodyOf(c, m).Some?
  }

  function YamlOf(listing: set<string>): set<string> {
    set p | p in listing && IsYaml(p)
  }

  function Texts(files: map<string, string>, chosen: set<string>): map<string, string> {
    map p | p in chosen && p in files :: files[p]
  }

  /** One step; None if it cannot be taken. Whoever finds the lock taken waits, so that each step but a crash belongs to
   the phase. A crash gives the lock up and leaves the files as they are. */
  function Next(c: Setting, s: State, step: Step): Option<State> {
    match (step, s.phase)
    case (Crash, _) => Some(s.(phase := Idle))
    case (Begin(m, mkdir), Idle) =>
      if !Writable(c, m) || !mkdir then Some(s)
      else
        var path := PathOf(c, m).value;
        Some(s.(files := s.files[TempPath(path) := ""], phase := Writing(m, path, BodyOf(c, m).value, 0)))
    case (Grow(k), Writing(m, path, body, done)) =>
      if done <= k <= |body|
      then Some(s.(files := s.files[TempPath(path) := body[..k]], phase := Writing(m, path, body, k)))
      else None
    case (WriteFails, Writing(_, _, _, _)) => Some(s.(phase := Idle))
    case (Rename, Writing(m, path, body, done)) =>
      if done == |body|
      then Some(s.(files := (s.files - {TempPath(path)})[path := body], phase := Idle, renamed := s.renamed + [m]))
      else None
    case (RenameFails(removed), Writing(m, path, body, done)) =>
      if done == |body|
      then Some(s.(files := if removed then s.files - {TempPath(path)} else s.files, phase := Idle))
      else None
    case (Choose(listing), Idle) =>
      var chosen := YamlOf(listing);
      if !(listing <= s.files.Keys - s.index.Keys) then None
      else if chosen == {} then Some(s)
      else Some(s.(phase := Syncing(chosen)))
    case (Add, Syncing(chosen)) =>
      Some(s.(phase := Added, index := s.index + Texts(s.files, chosen)))
    case (GitFails, Syncing(_)) => Some(s.(phase := Idle))
    case (GitFails, Added) => Some(s.(phase := Idle))
    case (Commit, Added) => Some(s.(phase := Idle, commits := s.commits + [s.index]))
    case (_, _) => None
  }

  function Run(c: Setting, s: State, steps: seq<Step>): Option<State> {
    if steps == [] then Some(s)
    else
      var before := Run(c, s, steps[..|steps| - 1]);
      if before.None? then None else Next(c, before.value, steps[|steps| - 1])
  }

  /******* What every run keeps *******/

  /** The last message that a file was made from. */
  function LastFor(c: Setting, renamed: seq<Message>, path: string): Option<Message> {
    if renamed == [] then None
    else if PathOf(c, renamed[|renamed| - 1]) == Some(path) then Some(renamed[|renamed| - 1])
    else LastFor(c, renamed[..|renamed| - 1], path)
  }

  /** The text is one whole document, of an entity that belongs at this path. */
  ghost predicate Whole(c: Setting, path: string, text: string) {
    exists m: Message :: Writable(c, m) && PathOf(c, m) == Some(path) && BodyOf(c, m) == Some(text)
  }

  /** Of all the YAML files there are exactly those some rename made, each with the body of the last such message. */
  ghost predicate FinalsRight(c: Setting, files: map<string, string>, renamed: seq<Message>) {
    forall p :: IsYaml(p) ==>
      && (p in files <==> LastFor(c, renamed, p).Some?)
      && (p in files ==> BodyOf(c, LastFor(c, renamed, p).value) == Some(files[p]))
  }

  ghost predicate AllWritable(c: Setting, ms: seq<Message>) {
    forall m :: m in ms ==> Writable(c, m)
  }

  ghost predicate WholeCommit(c: Setting, commit: map<string, string>) {
    forall p :: p in commit && IsYaml(p) ==> Whole(c, p, commit[p])
  }

  ghost predicate PhaseRight(c: Setting, s: State) {
    match s.phase
    case Idle => true
    case Writing(m, path, body, done) =>
      && Writable(c, m) && PathOf(c, m) == Some(path) && BodyOf(c, m) == Some(body) && done <= |body|
      && TempPath(path) in s.files && s.files[TempPath(path)] == body[..done]
    case Syncing(chosen) => forall p :: p in chosen ==> p in s.files && IsYaml(p) && p !in s.index
    case Added => true
  }

  ghost predicate Inv(c: Setting, s: State) {
    && FinalsRight(c, s.files, s.renamed)
    && AllWritable(c, s.renamed)
    && PhaseRight(c, s)
    && WholeCommit(c, s.index)
    && (forall i :: 0 <= i < |s.commits| ==> WholeCommit(c, s.commits[i]))
  }

  lemma {:induction false} LastForIs(c: Setting, renamed: seq<Message>, path: string)
    ensures LastFor(c, renamed, path).Some? ==>
      LastFor(c, renamed, path).value in renamed && PathOf(c, LastFor(c, renamed, path).value) == Some(path)
  {
    hide PathOf;
    if renamed != [] && PathOf(c, renamed[|renamed| - 1]) != Some(path) {
      LastForIs(c, renamed[..|renamed| - 1], path);
    }
  }

  /** So a YAML file is always whole. */
  lemma FinalIsWhole(c: Setting, s: State, path: string)
    requires FinalsRight(c, s.files, s.renamed) && AllWritable(c, s.renamed)
    requires path in s.files && IsYaml(path)
    ensures Whole(c, path, s.files[path])
  {
    hide IsYaml, Writable, PathOf, BodyOf, LastFor;
    LastForIs(c, s.renamed, path);
  }

  lemma OtherFiles(c: Setting, files: map<string, string>, files': map<string, string>, renamed: seq<Message>)
    requires FinalsRight(c, files, renamed)
    requires forall p :: IsYaml(p) ==> (p in files <==> p in files') && (p in files ==> files[p] == files'[p])
    ensures FinalsRight(c, files', renamed)
  {
    hide IsYaml, BodyOf, LastFor;
  }

  /** Changing a temporary file leaves the YAML files alone. */
  lemma TempStays(c: Setting, files: map<string, string>, path: string, text: string, renamed: seq<Message>)
    requires FinalsRight(c, files, renamed)
    ensures FinalsRight(c, files[TempPath(path) := text], renamed)
    ensures FinalsRight(c, files - {TempPath(path)}, renamed)
  {
    hide IsYaml, FinalsRight, TempPath;
    TempIsNotYaml(path);
    OtherFiles(c, files, files[TempPath(path) := text], renamed);
    OtherFiles(c, files, files - {TempPath(path)}, renamed);
  }

  lemma LastAfter(c: Setting, renamed: seq<Message>, m: Message, p: string)
    ensures LastFor(c, renamed + [m], p) == if PathOf(c, m) == Some(p) then Some(m) else LastFor(c, renamed, p)
  {
    hide PathOf;
    assert (renamed + [m])[..|renamed|] == renamed;
  }

  lemma RenameStays(
    c: Setting, files: map<string, string>, renamed: seq<Message>, m: Message, path: string, body: string)
    requires FinalsRight(c, files, renamed)
    requires PathOf(c, m) == Some(path) && BodyOf(c, m) == Some(body)
    ensures FinalsRight(c, (files - {TempPath(path)})[path := body], renamed + [m])
  {
    hide IsYaml, PathOf, BodyOf, LastFor, TempPath;
    TempIsNotYaml(path);
    var files' := (files - {TempPath(path)})[path := body];
    forall p | IsYaml(p)
      ensures p in files' <==> LastFor(c, renamed + [m], p).Some?
      ensures p in files' ==> BodyOf(c, LastFor(c, renamed + [m], p).value) == Some(files'[p])
    {
      LastAfter(c, renamed, m, p);
    }
  }

  lemma AddWhole(c: Setting, s: State, chosen: set<string>)
    requires FinalsRight(c, s.files, s.renamed) && AllWritable(c, s.renamed) && WholeCommit(c, s.index)
    ensures WholeCommit(c, s.index + Texts(s.files, chosen))
  {
    hide IsYaml, Whole, FinalsRight, AllWritable;
    forall p | p in chosen && p in s.files && IsYaml(p)
      ensures Whole(c, p, s.files[p])
    {
      FinalIsWhole(c, s, p);
    }
  }

  lemma StepKeeps(c: Setting, s: State, step: Step)
    requires Inv(c, s) && Next(c, s, step).Some?
    ensures Inv(c, Next(c, s, step).value)
  {
    hide FinalsRight, AllWritable, GoodEnvelope, PathOf, BodyOf, IsYaml, TempPath, WholeCommit;
    match (step, s.phase)
    case (Begin(m, mkdir), Idle) => {
      if Writable(c, m) && mkdir {
        TempStays(c, s.files, PathOf(c, m).value, "", s.renamed);
      }
    }
    case (Grow(k), Writing(m, path, body, done)) => {
      TempStays(c, s.files, path, body[..k], s.renamed);
    }
    case (Rename, Writing(m, path, body, done)) => {
      RenameStays(c, s.files, s.renamed, m, path, body);
      OneMoreWritable(c, s.renamed, m);
    }
    case (RenameFails(removed), Writing(m, path, body, done)) => {
      TempStays(c, s.files, path, "", s.renamed);
    }
    case (Add, Syncing(chosen)) => {
      AddWhole(c, s, chosen);
    }
    case (_, _) => {
    }
  }

  lemma OneMoreWritable(c: Setting, ms: seq<Message>, m: Message)
    requires AllWritable(c, ms) && Writable(c, m)
    ensures AllWritable(c, ms + [m])
  {
    hide Writable;
  }

  /** A directory the store starts in: no YAML file, tracked or not, whatever else. */
  ghost predicate Starts(s: State) {
    && s.phase.Idle? && s.renamed == [] && s.commits == []
    && (forall p :: p in s.files || p in s.index ==> !IsYaml(p))
  }

  lemma {:induction false} RunKeeps(c: Setting, s: State, steps: seq<Step>)
    requires Inv(c, s) && Run(c, s, steps).Some?
    ensures Inv(c, Run(c, s, steps).value)
  {
    hide Inv, Next;
    if steps != [] {
      RunKeeps(c, s, steps[..|steps| - 1]);
      StepKeeps(c, Run(c, s, steps[..|steps| - 1]).value, steps[|steps| - 1]);
    }
  }

  lemma StartsRight(c: Setting, s: State)
    requires Starts(s)
    ensures Inv(c, s)
  {
    hide IsYaml;
  }

  /** After any run, at any moment, every YAML file is one whole document that belongs there, the last one renamed to
   it, and so was every file of every commit. */
  lemma SnapshotIntegrity(c: Setting, s: State, steps: seq<Step>)
    requires Starts(s) && Run(c, s, steps).Some?
    ensures var s' := Run(c, s, steps).value;
      && FinalsRight(c, s'.files, s'.renamed)
      && (forall p :: p in s'.files && IsYaml(p) ==> Whole(c, p, s'.files[p]))
      && (forall i :: 0 <= i < |s'.commits| ==> WholeCommit(c, s'.commits[i]))
  {
    hide FinalsRight, AllWritable, Run, IsYaml, Whole, WholeCommit, PhaseRight;
    StartsRight(c, s);
    RunKeeps(c, s, steps);
    var s' := Run(c, s, steps).value;
    forall p | p in s'.files && IsYaml(p)
      ensures Whole(c, p, s'.files[p])
    {
      FinalIsWhole(c, s', p);
    }
  }

  /******* What is committed stays as it was *******/

  lemma StepFreezes(c: Setting, s: State, step: Step, p: string)
    requires PhaseRight(c, s) && Next(c, s, step).Some? && p in s.index
    ensures var s' := Next(c, s, step).value;
      && p in s'.index && s'.index[p] == s.index[p]
      && (s'.commits == s.commits || s'.commits == s.commits + [s.index])
  {
    hide Writable, PathOf, BodyOf, IsYaml, TempPath;
  }

  /** Only untracked files are ever added: a file that git tracks keeps the text it was added with in every later
   commit, however often it is written again. */
  lemma {:induction false} CommittedTextStays(c: Setting, s: State, steps: seq<Step>, k: nat, p: string)
    requires Starts(s) && Run(c, s, steps).Some? && k <= |steps|
    requires Run(c, s, steps[..k]).Some? && p in Run(c, s, steps[..k]).value.index
    ensures var then', now := Run(c, s, steps[..k]).value, Run(c, s, steps).value;
      && p in now.index && now.index[p] == then'.index[p]
      && |then'.commits| <= |now.commits|
      && (forall i :: |then'.commits| <= i < |now.commits| ==>
            p in now.commits[i] && now.commits[i][p] == then'.index[p])
  {
    hide Next, Starts, PhaseRight, FinalsRight, AllWritable, WholeCommit;
    if k == |steps| {
      assert steps[..k] == steps;
    } else {
      var most := steps[..|steps| - 1];
      assert most[..k] == steps[..k];
      CommittedTextStays(c, s, most, k, p);
      StartsRight(c, s);
      RunKeeps(c, s, most);
      StepFreezes(c, Run(c, s, most).value, steps[|steps| - 1], p);
    }
  }

  /******* The writer *******/

  /** What the operating system answers: how much of the text is written, and which calls succeed. */
  datatype Os = Os(mkdir: bool, write: bool, written: nat, rename: bool, remove: bool)

  class Store {
    const root: string
    var files: map<string, string>

    constructor (root: string, files: map<string, string>)
      ensures this.root == root && this.files == files
    {
      this.root := root;
      this.files := files;
    }

    /** writeEntityLocked: a path or nothing. What it does to the files is a run of the machine. */
    method WriteEntityLocked(m: Message, marshal: Entity -> Option<string>, os: Os)
      returns (r: Option<string>, ghost steps: seq<Step>)
      modifies this`files
      ensures var c := Setting(root, marshal);
        && (r.Some? <==>
              && m.kind == "Entity" && m.schemaVersion == "v1" && EntityFilePath(root, m.meta).Some?
              && marshal(Entity(m.kind, m.schemaVersion, m.meta, m.values)).Some?
              && os.mkdir && os.write && os.rename)
        && (r.Some? ==> r == EntityFilePath(root, m.meta))
        && (r.Some? && r.value in files ==>
              Some(files[r.value]) == marshal(Entity(m.kind, m.schemaVersion, m.meta, m.values)))
        && (r.Some? <==> Writable(c, m) && os.mkdir && os.write && os.rename)
        && (r.Some? ==> r == PathOf(c, m) && r.value in files && Some(files[r.value]) == BodyOf(c, m))
        && (forall p :: IsYaml(p) && r != Some(p) ==>
              (p in files <==> p in old(files)) && (p in files ==> files[p] == old(files)[p]))
        && Run(c, State(old(files), Idle, map[], [], []), steps)
             == Some(State(files, Idle, map[], if r.Some? then [m] else [], []))
    {
      hide Next, IsYaml, TempPath, EntityFilePath;
      ghost var c := Setting(root, marshal);
      ghost var s := State(files, Idle, map[], [], []);
      steps := [];
      if !GoodEnvelope(m) {
        return None, steps;
      }
      var path := EntityFilePath(root, m.meta);
      if path.None? {
        return None, steps;
      }
      var body := marshal(ToPersisted(m));
      if body.None? || !os.mkdir {
        return None, steps;
      }
      var tmp := TempPath(path.value);
      TempIsNotYaml(path.value);
      WriteSteps(c, s, m, os);
      if !os.write {
        files := files[tmp := body.value[..Min(os.written, |body.value|)]];
        return None, Written(c, m, os);
      }
      files := files[tmp := body.value];
      if !os.rename {
        if os.remove {
          files := files - {tmp};
        }
        return None, Written(c, m, os);
      }
      files := (files - {tmp})[path.value := body.value];
      assert s.renamed + [m] == [m];
      return path, Written(c, m, os);
    }
  }

  /** The steps of a write that gets as far as opening the temporary file. */
  ghost function Written(c: Setting, m: Message, os: Os): seq<Step>
    requires Writable(c, m)
  {
    var body := BodyOf(c, m).value;
    if !os.write then [Begin(m, true), Grow(Min(os.written, |body|)), WriteFails]
    else if !os.rename then [Begin(m, true), Grow(|body|), RenameFails(os.remove)]
    else [Begin(m, true), Grow(|body|), Rename]
  }

  lemma ThreeSteps(c: Setting, s: State, a: Step, b: Step, d: Step)
    requires Next(c, s, a).Some? && Next(c, Next(c, s, a).value, b).Some?
    ensures Run(c, s, [a, b, d]) == Next(c, Next(c, Next(c, s, a).value, b).value, d)
  {
    hide Next;
    assert [a, b, d][..2] == [a, b] && [a, b][..1] == [a] && [a][..0] == [];
    assert Run(c, s, []) == Some(s);
    assert Run(c, s, [a]) == Next(c, s, a);
    assert Run(c, s, [a, b]) == Next(c, Next(c, s, a).value, b);
  }

  lemma WriteSteps(c: Setting, s: State, m: Message, os: Os)
    requires s.phase.Idle? && Writable(c, m)
    ensures var tmp, path, body := TempPath(PathOf(c, m).value), PathOf(c, m).value, BodyOf(c, m).value;
      Run(c, s, Written(c, m, os)) == Some(
        if !os.write then s.(files := s.files[tmp := body[..Min(os.written, |body|)]])
        else if !os.rename then s.(files := if os.remove then s.files[tmp := body] - {tmp} else s.files[tmp := body])
        else s.(files := (s.files[tmp := body] - {tmp})[path := body], renamed := s.renamed + [m]))
  {
    hide Run, TempPath, PathOf, BodyOf, GoodEnvelope;
    var tmp, path, body := TempPath(PathOf(c, m).value), PathOf(c, m).value, BodyOf(c, m).value;
    var steps := Written(c, m, os);
    var k := if os.write then |body| else Min(os.written, |body|);
    assert s.files[tmp := ""][tmp := body[..k]] == s.files[tmp := body[..k]];
    assert body[..|body|] == body;
    ThreeSteps(c, s, steps[0], steps[1], steps[2]);
    assert steps == [steps[0], steps[1], steps[2]];
  }

  /******* When what is committed is current *******/

  lemma {:induction false} RunAppend(c: Setting, s: State, a: seq<Step>, b: seq<Step>)
    requires Run(c, s, a).Some?
    ensures Run(c, s, a + b) == Run(c, Run(c, s, a).value, b)
  {
    hide Next;
    if b == [] {
      assert a + b == a;
    } else {
      var n := |b| - 1;
      RunAppend(c, s, a, b[..n]);
      assert (a + b)[..|a| + n] == a + b[..n];
    }
  }

  lemma StepRenames(c: Setting, s: State, step: Step)
    requires Next(c, s, step).Some?
    ensures s.renamed <= Next(c, s, step).value.renamed
  {
    hide Writable, PathOf, BodyOf, IsYaml, TempPath;
  }

  lemma {:induction false} RenamedGrows(c: Setting, s: State, steps: seq<Step>, k: nat)
    requires Run(c, s, steps).Some? && k <= |steps|
    ensures Run(c, s, steps[..k]).Some?
    ensures Run(c, s, steps[..k]).value.renamed <= Run(c, s, steps).value.renamed
  {
    hide Next;
    if k == |steps| {
      assert steps[..k] == steps;
    } else {
      var most := steps[..|steps| - 1];
      assert most[..k] == steps[..k];
      RenamedGrows(c, s, most, k);
      StepRenames(c, Run(c, s, most).value, steps[|steps| - 1]);
    }
  }

  lemma {:induction false} LastForMore(c: Setting, some: seq<Message>, more: seq<Message>, path: string)
    requires some <= more && LastFor(c, some, path).Some?
    ensures LastFor(c, more, path).Some?
  {
    hide PathOf;
    if some == more {
      assert some == more;
    } else {
      LastForMore(c, some, more[..|more| - 1], path);
    }
  }

  /** The file is added to the index by the last of these steps, with the text it has. */
  ghost predicate AddedBy(c: Setting, s: State, steps: seq<Step>, p: string) {
    && steps != [] && Run(c, s, steps).Some?
    && var before := Run(c, s, steps[..|steps| - 1]);
       before.Some? && p !in before.value.index && p in Run(c, s, steps).value.index
  }

  lemma StepAdds(c: Setting, s: State, step: Step, p: string)
    requires PhaseRight(c, s) && Next(c, s, step).Some?
    requires p !in s.index && p in Next(c, s, step).value.index
    ensures var s' := Next(c, s, step).value; IsYaml(p) && p in s'.files && s'.index[p] == s'.files[p]
  {
    hide Writable, PathOf, BodyOf, IsYaml, TempPath;
  }

  lemma AddedText(c: Setting, s: State, steps: seq<Step>, p: string)
    requires Starts(s) && AddedBy(c, s, steps, p)
    ensures var added := Run(c, s, steps).value;
      IsYaml(p) && p in added.files && added.index[p] == added.files[p]
  {
    hide Starts, Next, IsYaml, FinalsRight, AllWritable, WholeCommit, PhaseRight;
    var most := steps[..|steps| - 1];
    StartsRight(c, s);
    RunKeeps(c, s, most);
    StepAdds(c, Run(c, s, most).value, steps[|steps| - 1], p);
  }

  lemma FilesAreBodies(c: Setting, s: State, steps: seq<Step>, p: string)
    requires Starts(s) && Run(c, s, steps).Some? && IsYaml(p)
    ensures var now := Run(c, s, steps).value;
      && (p in now.files <==> LastFor(c, now.renamed, p).Some?)
      && (p in now.files ==> BodyOf(c, LastFor(c, now.renamed, p).value) == Some(now.files[p]))
  {
    hide Starts, Run, IsYaml, AllWritable, PhaseRight, WholeCommit, LastFor, BodyOf;
    StartsRight(c, s);
    RunKeeps(c, s, steps);
  }

  /** Exactly when what git has of a file is what the file holds: when the last message written to it by now has the
   same body as the last one written to it when it was added. */
  lemma CommittedCurrentIff(c: Setting, s: State, steps: seq<Step>, k: nat, p: string)
    requires Starts(s) && Run(c, s, steps).Some? && k <= |steps| && AddedBy(c, s, steps[..k], p)
    ensures var added, now := Run(c, s, steps[..k]).value, Run(c, s, steps).value;
      && p in now.index && p in now.files
      && LastFor(c, added.renamed, p).Some? && LastFor(c, now.renamed, p).Some?
      && var same :=
           BodyOf(c, LastFor(c, now.renamed, p).value) == BodyOf(c, LastFor(c, added.renamed, p).value);
         && (now.index[p] == now.files[p] <==> same)
         && (forall i :: |added.commits| <= i < |now.commits| ==>
               p in now.commits[i] && (now.commits[i][p] == now.files[p] <==> same))
  {
    hide Starts, Run, IsYaml, LastFor, BodyOf;
    AddedText(c, s, steps[..k], p);
    CommittedTextStays(c, s, steps, k, p);
    RenamedGrows(c, s, steps, k);
    FilesAreBodies(c, s, steps[..k], p);
    LastForMore(c, Run(c, s, steps[..k]).value.renamed, Run(c, s, steps).value.renamed, p);
    FilesAreBodies(c, s, steps, p);
  }

  lemma ChooseOne(c: Setting, s: State, p: string)
    requires s.phase.Idle? && p in s.files && p !in s.index && IsYaml(p)
    ensures Next(c, s, Choose({p})) == Some(s.(phase := Syncing({p})))
  {
    hide IsYaml;
    assert p in YamlOf({p}) && YamlOf({p}) == {p};
  }

  lemma AddOne(c: Setting, s: State, p: string)
    requires s.phase == Syncing({p}) && p in s.files
    ensures Next(c, s, Add) == Some(s.(phase := Added, index := s.index[p := s.files[p]]))
  {
    assert Texts(s.files, {p}) == map[p := s.files[p]];
    assert s.index + Texts(s.files, {p}) == s.index[p := s.files[p]];
  }

  lemma CommitSteps(c: Setting, s: State, p: string)
    requires s.phase.Idle? && p in s.files && p !in s.index && IsYaml(p)
    ensures var index := s.index[p := s.files[p]];
      Run(c, s, [Choose({p}), Add, Commit]) == Some(s.(index := index, commits := s.commits + [index]))
  {
    hide Run, IsYaml;
    ChooseOne(c, s, p);
    AddOne(c, s.(phase := Syncing({p})), p);
    ThreeSteps(c, s, Choose({p}), Add, Commit);
  }

  /** A write in which nothing fails. */
  const FINE := Os(true, true, 0, true, true)

  lemma WriteFine(c: Setting, s: State, m: Message)
    requires s.phase.Idle? && Writable(c, m)
    ensures var r := Run(c, s, Written(c, m, FINE));
      && r.Some? && r.value.phase.Idle? && r.value.index == s.index && r.value.commits == s.commits
      && PathOf(c, m).value in r.value.files && Some(r.value.files[PathOf(c, m).value]) == BodyOf(c, m)
  {
    hide Run, Writable, BodyOf, PathOf, TempPath, Written;
    assert PathOf(c, m).Some? && BodyOf(c, m).Some? by { WritableParts(c, m); }
    WriteSteps(c, s, m, FINE);
  }

  lemma WritableParts(c: Setting, m: Message)
    requires Writable(c, m)
    ensures PathOf(c, m).Some? && BodyOf(c, m).Some?
  {
  }

  /** A run that leaves a stale commit: written, committed, written again; no sync will ever choose the file again. */
  lemma StaleCommit(c: Setting, m: Message, m': Message) returns (s: State, steps: seq<Step>, p: string)
    requires Writable(c, m) && Writable(c, m') && PathOf(c, m) == PathOf(c, m') && BodyOf(c, m) != BodyOf(c, m')
    ensures Starts(s) && Run(c, s, steps).Some? && PathOf(c, m) == Some(p)
    ensures var now := Run(c, s, steps).value;
      && now.phase.Idle? && p in now.files && Some(now.files[p]) == BodyOf(c, m')
      && |now.commits| == 1 && p in now.commits[0] && Some(now.commits[0][p]) == BodyOf(c, m)
      && p in now.index
  {
    WritableParts(c, m);
    hide Run, Next, Writable, BodyOf, IsYaml, TempPath, Written, FINE, PathOf;
    s, p := State(map[], Idle, map[], [], []), PathOf(c, m).value;
    assert IsYaml(p) by { PathIsYaml(c, m); }
    var write, commit, again := Written(c, m, FINE), [Choose({p}), Add, Commit], Written(c, m', FINE);
    steps := write + commit + again;
    WriteFine(c, s, m);
    var s1 := Run(c, s, write).value;
    CommitSteps(c, s1, p);
    var s2 := Run(c, s1, commit).value;
    WriteFine(c, s2, m');
    RunAppend(c, s, write, commit);
    RunAppend(c, s, write + commit, again);
  }

  lemma PathIsYaml(c: Setting, m: Message)
    requires PathOf(c, m).Some?
    ensures IsYaml(PathOf(c, m).value)
  {
    hide EntityFilePath;
    EntityPathIsYaml(c.root, m.meta);
  }

  /******* Choosing files for a commit *******/

  /** The files to commit are those whose names end in one of the two suffixes. */
  lemma YamlNames(stem: string)
    ensures IsYaml(stem + ".yaml") && IsYaml(stem + ".yml")
    ensures IsYaml(stem) <==> exists front :: stem == front + ".yaml" || stem == front + ".yml"
  {
    assert (stem + ".yaml")[|stem|..] == ".yaml" && (stem + ".yml")[|stem|..] == ".yml";
    if HasSuffix(stem, YAML) {
      assert stem == stem[..|stem| - 5] + ".yaml";
    }
    if HasSuffix(stem, YML) {
      assert stem == stem[..|stem| - 4] + ".yml";
    }
    forall front: string
      ensures HasSuffix(front + ".yaml", YAML) && HasSuffix(front + ".yml", YML)
    {
      assert (front + ".yaml")[|front|..] == ".yaml" && (front + ".yml")[|front|..] == ".yml";
    }
  }

  /** The lines considered are the trimmed, non-blank ones of the output. */
  lemma {:induction false} NonBlankAre(pieces: seq<string>, line: string)
    ensures line in NonBlank(pieces) <==> line != "" && exists i :: 0 <= i < |pieces| && Trim(pieces[i]) == line
  {
    hide Trim;
    if pieces != [] {
      var n := |pieces| - 1;
      NonBlankAre(pieces[..n], line);
      assert line in NonBlank(pieces) <==> line in NonBlank(pieces[..n]) || (line != "" && Trim(pieces[n]) == line);
      assert forall i :: 0 <= i < n ==> pieces[..n][i] == pieces[i];
    }
  }

  /** What git prints for a list of file names. */
  function Printed(lines: seq<string>): string {
    if lines == [] then "" else Join(lines, "\n") + "\n"
  }

  /** listUntrackedYAML over git's output. */
  method ListUntrackedYaml(output: string) returns (files: seq<string>)
    ensures files == Filter(IsYaml, Lines(output))
  {
    hide IsYaml, Trim, Split;
    files := [];
    var lines := Split(Trim(output), "\n");
    var trimmed: seq<string> := [];
    for i := 0 to |lines|
      invariant trimmed == NonBlank(lines[..i]) && files == Filter(IsYaml, trimmed)
    {
      assert lines[..i + 1][..i] == lines[..i];
      var line := Trim(lines[i]);
      if line == "" {
        continue;
      }
      FilterAppend(IsYaml, trimmed, [line]);
      trimmed := trimmed + [line];
      OneFiltered(line);
      if IsYaml(line) {
        files := files + [line];
      }
    }
    assert lines[..|lines|] == lines;
  }

  lemma OneFiltered(line: string)
    ensures Filter(IsYaml, [line]) == if IsYaml(line) then [line] else []
  {
    hide IsYaml;
    assert [line][1..] == [];
  }

  function NonBlank(lines: seq<string>): seq<string> {
    if lines == [] then []
    else
      var line := Trim(lines[|lines| - 1]);
      NonBlank(lines[..|lines| - 1]) + (if line == "" then [] else [line])
  }

  function Lines(output: string): seq<string> {
    NonBlank(Split(Trim(output), "\n"))
  }

  ghost predicate PlainLine(line: string) {
    line != "" && Trimmed(line) && '\n' !in line
  }

  lemma {:induction false} NonBlankAll(lines: seq<string>)
    requires forall line :: line in lines ==> PlainLine(line)
    ensures NonBlank(lines) == lines
  {
    hide Trim;
    if lines != [] {
      var n := |lines| - 1;
      NonBlankAll(lines[..n]);
      assert PlainLine(lines[n]);
      TrimOfTrimmed(lines[n]);
      assert lines == lines[..n] + [lines[n]];
    }
  }

  lemma NoNewline(a: string, rest: string, j: nat)
    requires '\n' !in a && j < |a|
    ensures !OccursAt(a + "\n" + rest, "\n", j)
  {
    assert (a + "\n" + rest)[j] == a[j];
    assert (a + "\n" + rest)[j..j + 1][0] == a[j];
  }

  lemma LoneLine(a: string)
    requires '\n' !in a
    ensures Split(a, "\n") == [a]
  {
    forall j: nat
      ensures !OccursAt(a, "\n", j)
    {
      if j + 1 <= |a| {
        assert a[j..j + 1][0] == a[j];
      }
    }
    SplitWithout(a, "\n");
  }

  /** Splitting undoes joining, for lines without the separator. */
  lemma {:induction false} JoinSplit(lines: seq<string>)
    requires lines != [] && forall line :: line in lines ==> '\n' !in line
    ensures Split(Join(lines, "\n"), "\n") == lines
  {
    hide Split, OccursAt;
    if |lines| == 1 {
      LoneLine(lines[0]);
      assert lines == [lines[0]];
    } else {
      var rest := Join(lines[1..], "\n");
      forall j: nat | j < |lines[0]|
        ensures !OccursAt(lines[0] + "\n" + rest, "\n", j)
      {
        NoNewline(lines[0], rest, j);
      }
      JoinSplit(lines[1..]);
      SplitHead(lines[0], "\n", rest);
      assert lines == [lines[0]] + lines[1..];
    }
  }

  lemma {:induction false} JoinTrimmed(lines: seq<string>)
    requires lines != [] && forall line :: line in lines ==> PlainLine(line)
    ensures var s := Join(lines, "\n"); s != "" && Trimmed(s) && s[0] == lines[0][0]
  {
    assert PlainLine(lines[0]);
    if |lines| > 1 {
      JoinTrimmed(lines[1..]);
      JoinEnds(lines[0], Join(lines[1..], "\n"));
    }
  }

  lemma JoinEnds(a: string, b: string)
    requires a != "" && b != "" && Trimmed(a) && Trimmed(b)
    ensures var s := a + "\n" + b; s != "" && Trimmed(s) && s[0] == a[0]
  {
    hide IsSpace;
    var s := a + "\n" + b;
    assert s[|s| - 1] == b[|b| - 1];
  }

  /** From git's list of untracked files exactly the YAML files are taken, in order. */
  lemma TakesTheYamlFiles(lines: seq<string>)
    requires forall line :: line in lines ==> PlainLine(line)
    ensures Filter(IsYaml, Lines(Printed(lines))) == Filter(IsYaml, lines)
  {
    hide Trim, Split, IsYaml, Filter, Join;
    if lines == [] {
      NothingPrinted();
    } else {
      var s := Join(lines, "\n");
      JoinTrimmed(lines);
      TrimIs("", s, "\n");
      assert "" + s + "\n" == s + "\n";
      JoinSplit(lines);
      NonBlankAll(lines);
    }
  }

  lemma NothingPrinted()
    ensures Lines("") == []
  {
    hide Trim, Split;
    TrimOfTrimmed("");
    LoneLine("");
    assert [""][..0] == [];
    assert NonBlank([]) == [];
  }
}

/** Repository names and the clone directories they denote (internal/git/git.go, ValidateRepoName;
    main.go, safeRepoPath). A cleaned path is kept as its parts. */
module Git {
  import opened Common

  datatype Path = Path(rooted: bool, parts: seq<string>)

  predicate NameChar(c: char) {
    'A' <= c <= 'Z' || 'a' <= c <= 'z' || '0' <= c <= '9' || c == '.' || c == '_' || c == '-'
  }

  predicate ValidRepoName(name: string) {
    name != "." && name != ".." && name != "" && forall i | 0 <= i < |name| :: NameChar(name[i])
  }

  /** filepath.Clean, one component at a time. */
  function Push(rooted: bool, parts: seq<string>, component: string): seq<string> {
    if component == "" || component == "." then parts
    else if component == ".." then
      if parts != [] && Last(parts) != ".." then DropLast(parts)
      else if rooted then parts
      else parts + [".."]
    else parts + [component]
  }

  function Resolve(rooted: bool, start: seq<string>, components: seq<string>): seq<string> {
    if components == [] then start else Push(rooted, Resolve(rooted, start, DropLast(components)), Last(components))
  }

  function Clean(path: string): Path {
    var rooted := path != "" && path[0] == '/';
    Path(rooted, Resolve(rooted, [], Split(path, '/')))
  }

  function Join(dir: string, name: string): Path {
    if dir == "" then Clean(name) else Clean(dir + "/" + name)
  }

  /** The filepath.Rel check: dest lies in or below base. */
  predicate Within(base: Path, dest: Path) {
    base.rooted == dest.rooted && base.parts <= dest.parts
  }

  function SafeRepoPath(cloneDir: string, name: string): Option<Path> {
    if !ValidRepoName(name) then None
    else
      var dest := Join(cloneDir, name);
      if Within(Clean(cloneDir), dest) then Some(dest) else None
  }

  /** A repository has a directory exactly when its name is valid, and that directory sits
      directly inside the clone directory under the repository's own name. */
  lemma RepoDirectory(cloneDir: string, name: string)
    ensures SafeRepoPath(cloneDir, name).Some? <==> ValidRepoName(name)
    ensures ValidRepoName(name) ==>
              var base := Clean(cloneDir);
              SafeRepoPath(cloneDir, name) == Some(Path(base.rooted, base.parts + [name]))
  {
    if ValidRepoName(name) {
      assert '/' !in name;
      SplitWithout(name, '/');
      assert DropLast([name]) == [];
      assert DropLast([""]) == [];
      if cloneDir != "" {
        assert cloneDir + "/" + name == cloneDir + ['/'] + name;
        SplitJoin(cloneDir, '/', name);
        AppendLast(Split(cloneDir, '/'), name);
      }
    }
  }

  /** Distinct valid names never share a directory. */
  lemma DirectoriesDistinct(cloneDir: string, a: string, b: string)
    requires ValidRepoName(a) && ValidRepoName(b) && a != b
    ensures SafeRepoPath(cloneDir, a) != SafeRepoPath(cloneDir, b)
  {
    RepoDirectory(cloneDir, a);
    RepoDirectory(cloneDir, b);
    var parts := Clean(cloneDir).parts;
    assert Last(parts + [a]) == a && Last(parts + [b]) == b;
  }

  // ---- The stacks directory of a repository ----------------------------------------------------

  /** filepath.Join of a directory already cleaned and a relative path. */
  function Below(base: Path, sub: string): Path {
    Path(base.rooted, Resolve(base.rooted, base.parts, Split(sub, '/')))
  }

  lemma {:induction false} ResolveAppend(rooted: bool, start: seq<string>, a: seq<string>, b: seq<string>)
    ensures Resolve(rooted, start, a + b) == Resolve(rooted, Resolve(rooted, start, a), b)
    decreases |b|
  {
    if b == [] {
      assert a + b == a;
    } else {
      assert DropLast(a + b) == a + DropLast(b) && Last(a + b) == Last(b);
      ResolveAppend(rooted, start, a, DropLast(b));
    }
  }

  lemma BelowIsJoin(dir: string, sub: string)
    requires dir != ""
    ensures Join(dir, sub) == Below(Clean(dir), sub)
  {
    var rooted := dir[0] == '/';
    assert dir + "/" + sub == dir + ['/'] + sub;
    SplitJoin(dir, '/', sub);
    ResolveAppend(rooted, [], Split(dir, '/'), Split(sub, '/'));
  }

  /** What a directory entry can be called. */
  predicate EntryName(name: string) {
    name != "" && name != "." && name != ".." && '/' !in name
  }

  /** A repository's stacks directory, by name. */
  function StacksDir(cloneDir: string, repo: string, stacksDir: string): Option<Path> {
    var clone := SafeRepoPath(cloneDir, repo);
    if clone.None? then None else Some(Below(clone.value, stacksDir))
  }

  /** For the destination string the program has, that directory is filepath.Join of the two strings. */
  lemma StacksDirIsJoin(cloneDir: string, repo: string, stacksDir: string, dest: string)
    requires dest != "" && SafeRepoPath(cloneDir, repo) == Some(Clean(dest))
    ensures StacksDir(cloneDir, repo, stacksDir) == Some(Join(dest, stacksDir))
  {
    BelowIsJoin(dest, stacksDir);
  }

  /** Where symbolic links take a directory that is named by path. */
  function LeadsTo(links: map<Path, Path>, path: Path): Path {
    if path in links then links[path] else path
  }

  /** The directory directly inside the clone directory that contains `path`. */
  function CloneOf(cloneDir: string, path: Path): Option<Path> {
    var base := Clean(cloneDir);
    if base.rooted == path.rooted && base.parts < path.parts then Some(Path(path.rooted, path.parts[..|base.parts| + 1]))
    else None
  }

  /** The directory lies in the repository's own clone. */
  predicate InClone(cloneDir: string, repo: string, dir: Path) {
    var clone := SafeRepoPath(cloneDir, repo);
    clone.Some? && Within(clone.value, dir)
  }

  /** The clone that contains the entry `stack` of a directory. */
  function StackClone(cloneDir: string, dir: Path, stack: string): Option<Path> {
    CloneOf(cloneDir, Path(dir.rooted, dir.parts + [stack]))
  }

  lemma PrefixOfEntry(parts: seq<string>, entry: string, prefix: seq<string>)
    requires prefix != [] && Last(prefix) != entry && prefix <= parts + [entry]
    ensures prefix <= parts
  {
    assert Last(prefix) == (parts + [entry])[|prefix| - 1];
  }

  /** A directory inside the clone keeps every entry there; any other one takes every entry out of
      it, but for one named like the repository. */
  lemma StackInside(cloneDir: string, repo: string, dir: Path, stack: string)
    requires ValidRepoName(repo)
    ensures InClone(cloneDir, repo, dir) ==> StackClone(cloneDir, dir, stack) == SafeRepoPath(cloneDir, repo)
    ensures !InClone(cloneDir, repo, dir) && stack != repo ==> StackClone(cloneDir, dir, stack) != SafeRepoPath(cloneDir, repo)
  {
    RepoDirectory(cloneDir, repo);
    var base, clone := Clean(cloneDir), SafeRepoPath(cloneDir, repo).value;
    var n := |base.parts|;
    if InClone(cloneDir, repo, dir) {
      assert (dir.parts + [stack])[..n + 1] == clone.parts;
    } else if stack != repo && clone.parts <= dir.parts + [stack] {
      PrefixOfEntry(dir.parts, stack, clone.parts);
    }
  }

  /** "../b" leads from one clone into its neighbour. */
  lemma NeighbourStacks(cloneDir: string, a: string, b: string)
    requires ValidRepoName(a) && ValidRepoName(b)
    ensures StacksDir(cloneDir, a, "../" + b) == SafeRepoPath(cloneDir, b)
  {
    RepoDirectory(cloneDir, a);
    RepoDirectory(cloneDir, b);
    var base, clone := Clean(cloneDir), SafeRepoPath(cloneDir, a).value;
    assert "../" + b == ".." + ['/'] + b;
    SplitJoin("..", '/', b);
    SplitWithout("..", '/');
    assert '/' !in b;
    SplitWithout(b, '/');
    assert Split("../" + b, '/') == ["..", b];
    assert DropLast(["..", b]) == [".."] && DropLast([".."]) == [];
    AppendLast(base.parts, a);
    assert Resolve(base.rooted, clone.parts, [".."]) == base.parts;
    assert Below(clone, "../" + b).parts == base.parts + [b];
  }

  /** The default stacks directory, ".", is the clone itself, and a plain name is the directory of that
      name in it. */
  lemma OwnStacks(cloneDir: string, repo: string, name: string)
    requires ValidRepoName(repo) && EntryName(name)
    ensures StacksDir(cloneDir, repo, ".") == SafeRepoPath(cloneDir, repo) && StacksDir(cloneDir, repo, "") == SafeRepoPath(cloneDir, repo)
    ensures SafeRepoPath(cloneDir, repo).Some?
    ensures var clone := SafeRepoPath(cloneDir, repo).value;
            StacksDir(cloneDir, repo, name) == Some(Path(clone.rooted, clone.parts + [name]))
  {
    RepoDirectory(cloneDir, repo);
    BelowOne(SafeRepoPath(cloneDir, repo).value, ".");
    BelowOne(SafeRepoPath(cloneDir, repo).value, "");
    BelowOne(SafeRepoPath(cloneDir, repo).value, name);
  }

  lemma BelowOne(base: Path, sub: string)
    requires '/' !in sub
    ensures Below(base, sub) == Path(base.rooted, Push(base.rooted, base.parts, sub))
  {
    SplitWithout(sub, '/');
    assert DropLast([sub]) == [] && Last([sub]) == sub;
    assert Resolve(base.rooted, base.parts, []) == base.parts;
    assert Resolve(base.rooted, base.parts, [sub]) == Push(base.rooted, base.parts, sub);
  }

  /** A name is valid exactly when it is a word over the alphabet of the pattern that is not "." or "..". */
  lemma NameAlphabet(name: string)
    ensures ValidRepoName(name) <==>
            && name != "" && name != "." && name != ".."
            && forall c | c in name ::
                 c in "ABCDEFGHIJKLMNOPQRSTUVWXYZ" || c in "abcdefghijklmnopqrstuvwxyz" || c in "0123456789" || c in "._-"
  {
    forall c: char
      ensures NameChar(c) <==>
              c in "ABCDEFGHIJKLMNOPQRSTUVWXYZ" || c in "abcdefghijklmnopqrstuvwxyz" || c in "0123456789" || c in "._-"
    {
      NameLetter(c);
    }
    hide NameChar;
  }

  lemma LettersFrom(letters: string, first: char, c: char)
    requires forall i | 0 <= i < |letters| :: letters[i] as int == first as int + i
    ensures c in letters <==> first as int <= c as int < first as int + |letters|
  {
    if first as int <= c as int < first as int + |letters| {
      assert letters[c as int - first as int] == c;
    }
  }

  lemma NameLetter(c: char)
    ensures NameChar(c) <==>
            c in "ABCDEFGHIJKLMNOPQRSTUVWXYZ" || c in "abcdefghijklmnopqrstuvwxyz" || c in "0123456789" || c in "._-"
  {
    LettersFrom("ABCDEFGHIJKLMNOPQRSTUVWXYZ", 'A', c);
    LettersFrom("abcdefghijklmnopqrstuvwxyz", 'a', c);
    LettersFrom("0123456789", '0', c);
  }
}

/** cortexgrid/_bundle.py, `bundle` and `BundleDesc`: the local files a module
    reaches and the distributions its imports lead to. */
module Bundle {
  import opened Common
  import opened Graph

  /** A path, by its components; the root directory is the empty path. */
  type Path = seq<string>

  datatype Distribution = Distribution(name: string, version: string)

  /** What the traversal reads: the files, at their real paths, the files each
      .py file's imports resolve to, and the distribution that owns a file. */
  datatype FileSystem = FileSystem(
    files: set<Path>,
    imports: map<Path, seq<Path>>,
    owners: map<Path, Distribution>)
  {
    /** Imports resolve to files, and the root directory is no package: in one,
        climbing the package directories would never end. */
    ghost predicate Valid() {
      && (forall file, i :: file in imports && 0 <= i < |imports[file]| ==> imports[file][i] in files)
      && ["__init__.py"] !in files
    }
  }

  predicate IsLocal(file: Path) {
    forall i :: 0 <= i < |file| ==> file[i] != "site-packages" && file[i] != "dist-packages"
  }

  function Parent(path: Path): Path {
    if path == [] then [] else path[..|path| - 1]
  }

  predicate HasInit(fs: FileSystem, directory: Path) {
    directory + ["__init__.py"] in fs.files
  }

  /** The __init__.py files from `directory` up, while there are any. */
  function InitFiles(fs: FileSystem, directory: Path): (inits: seq<Path>)
    ensures forall i :: 0 <= i < |inits| ==> inits[i] in fs.files
    decreases |directory|
  {
    if directory == [] || !HasInit(fs, directory) then []
    else [directory + ["__init__.py"]] + InitFiles(fs, Parent(directory))
  }

  method InitChain(fs: FileSystem, file: Path) returns (inits: seq<Path>)
    requires fs.Valid()
    ensures inits == InitFiles(fs, Parent(file))
  {
    inits := [];
    var directory := Parent(file);
    while HasInit(fs, directory)
      invariant inits + InitFiles(fs, directory) == InitFiles(fs, Parent(file))
      decreases |directory|
    {
      assert directory != [] by {
        assert [] + ["__init__.py"] == ["__init__.py"];
      }
      inits := inits + [directory + ["__init__.py"]];
      directory := Parent(directory);
    }
  }

  predicate IsPython(file: Path) {
    file != [] && var name := file[|file| - 1]; |name| > 3 && name[|name| - 3..] == ".py"
  }

  function Imported(fs: FileSystem, file: Path): seq<Path> {
    if IsPython(file) && file in fs.imports then fs.imports[file] else []
  }

  /** What a local file leads to; an installed file is not followed. */
  function Needed(fs: FileSystem, file: Path): seq<Path> {
    if IsLocal(file) then InitFiles(fs, Parent(file)) + Imported(fs, file) else []
  }

  ghost function NeededEdges(fs: FileSystem): Edges<Path> {
    map file | file in fs.files :: ToSet(Needed(fs, file))
  }

  datatype BundleDesc = BundleDesc(localFiles: set<Path>, tpDeps: map<string, string>)
  {
    function Merge(other: BundleDesc): BundleDesc {
      BundleDesc(localFiles + other.localFiles, tpDeps + other.tpDeps)
    }
  }

  datatype Answer = Bundled(desc: BundleDesc) | UnownedDependency(file: Path)

  /** Exactly the local files among those visited. */
  ghost predicate HoldsLocal(visited: iset<Path>, desc: BundleDesc) {
    forall file :: file in desc.localFiles <==> file in visited && IsLocal(file)
  }

  /** Exactly the distributions that own the installed files among them. */
  ghost predicate HoldsOwners(fs: FileSystem, visited: iset<Path>, desc: BundleDesc) {
    && (forall file :: file in visited && !IsLocal(file) ==>
          file in fs.owners && fs.owners[file].name in desc.tpDeps)
    && (forall name :: name in desc.tpDeps ==> SomeOwner(fs, visited, Distribution(name, desc.tpDeps[name])))
  }

  ghost predicate SomeOwner(fs: FileSystem, visited: iset<Path>, owner: Distribution) {
    exists file :: file in visited && !IsLocal(file) && file in fs.owners && fs.owners[file] == owner
  }

  ghost function Reached(fs: FileSystem, seeds: set<Path>): iset<Path> {
    iset file | ReachedFrom(NeededEdges(fs), seeds, file)
  }

  ghost predicate IsBundle(fs: FileSystem, seeds: set<Path>, desc: BundleDesc) {
    HoldsLocal(Reached(fs, seeds), desc) && HoldsOwners(fs, Reached(fs, seeds), desc)
  }

  /** A file the seeds lead to that can be neither shipped nor installed. */
  ghost predicate Unowned(fs: FileSystem, seeds: set<Path>, file: Path) {
    file in Reached(fs, seeds) && !IsLocal(file) && file !in fs.owners
  }

  ghost function Visited(visited: set<Path>): iset<Path> {
    iset file | file in visited
  }

  /** The traversal, from one seed. It ends on every file system, import
      cycles included. */
  method BundleOf(fs: FileSystem, seed: Path) returns (answer: Answer)
    requires fs.Valid() && seed in fs.files
    ensures answer.Bundled? ==> IsBundle(fs, {seed}, answer.desc)
    ensures answer.UnownedDependency? ==> Unowned(fs, {seed}, answer.file)
    ensures answer.UnownedDependency? <==> exists file :: Unowned(fs, {seed}, file)
  {
    hide Visiting, HoldsLocal, HoldsOwners, NeededEdges, ReachedFrom, IsLocal, Needed, InitFiles, Imported, Targets,
      Unowned, WithFile, SomeOwner, Reached, Visited;
    var desc := BundleDesc({}, map[]);
    var visited: set<Path> := {};
    var queue := [seed];
    VisitingStarts(NeededEdges(fs), queue);
    NothingVisited(fs);
    assert ToSet(queue) == {seed};
    while queue != []
      invariant Visiting(NeededEdges(fs), {seed}, visited, queue)
      invariant visited <= fs.files && forall file :: file in queue ==> file in fs.files
      invariant HoldsLocal(Visited(visited), desc) && HoldsOwners(fs, Visited(visited), desc)
      decreases |fs.files - visited|, |queue|
    {
      var file, rest := queue[|queue| - 1], queue[..|queue| - 1];
      assert queue == rest + [file];
      if file in visited {
        VisitingSkips(NeededEdges(fs), {seed}, visited, rest, file);
        queue := rest;
      } else {
        var more := NeededBy(fs, file);
        VisitingGoesOn(NeededEdges(fs), {seed}, visited, rest, file, more);
        if !IsLocal(file) && file !in fs.owners {
          FoundUnowned(fs, {seed}, file);
          return UnownedDependency(file);
        }
        NewlyVisited(fs, visited, file, desc);
        OneLessToVisit(fs.files, visited, file);
        desc := WithFile(fs, desc, file);
        visited := visited + {file};
        queue := rest + more;
      }
    }
    AllVisited(fs, {seed}, visited);
    answer := Bundled(desc);
    NoneUnowned(fs, {seed}, desc);
  }

  lemma OneLessToVisit(files: set<Path>, visited: set<Path>, file: Path)
    requires file in files && file !in visited
    ensures |files - (visited + {file})| < |files - visited|
  {
    assert files - (visited + {file}) == files - visited - {file};
  }

  lemma FoundUnowned(fs: FileSystem, seeds: set<Path>, file: Path)
    requires ReachedFrom(NeededEdges(fs), seeds, file) && !IsLocal(file) && file !in fs.owners
    ensures Unowned(fs, seeds, file)
  {
  }

  lemma NoneUnowned(fs: FileSystem, seeds: set<Path>, desc: BundleDesc)
    requires IsBundle(fs, seeds, desc)
    ensures forall file :: !Unowned(fs, seeds, file)
  {
  }

  lemma NothingVisited(fs: FileSystem)
    ensures var desc := BundleDesc({}, map[]);
            HoldsLocal(Visited({}), desc) && HoldsOwners(fs, Visited({}), desc)
  {
  }

  lemma AllVisited(fs: FileSystem, seeds: set<Path>, visited: set<Path>)
    requires Visiting(NeededEdges(fs), seeds, visited, [])
    ensures Visited(visited) == Reached(fs, seeds)
  {
    VisitingEnds(NeededEdges(fs), seeds, visited);
  }

  method NeededBy(fs: FileSystem, file: Path) returns (more: seq<Path>)
    requires fs.Valid() && file in fs.files
    ensures ToSet(more) == Targets(NeededEdges(fs), file)
    ensures forall path :: path in more ==> path in fs.files
  {
    if !IsLocal(file) {
      return [];
    }
    var inits := InitChain(fs, file);
    more := inits + Imported(fs, file);
  }

  function WithFile(fs: FileSystem, desc: BundleDesc, file: Path): BundleDesc
    requires !IsLocal(file) ==> file in fs.owners
  {
    if IsLocal(file) then desc.(localFiles := desc.localFiles + {file})
    else desc.(tpDeps := desc.tpDeps[fs.owners[file].name := fs.owners[file].version])
  }

  lemma NewlyVisited(fs: FileSystem, visited: set<Path>, file: Path, desc: BundleDesc)
    requires HoldsLocal(Visited(visited), desc) && HoldsOwners(fs, Visited(visited), desc)
    requires !IsLocal(file) ==> file in fs.owners
    ensures HoldsLocal(Visited(visited + {file}), WithFile(fs, desc, file))
    ensures HoldsOwners(fs, Visited(visited + {file}), WithFile(fs, desc, file))
  {
    var after := WithFile(fs, desc, file);
    forall name | name in after.tpDeps
      ensures SomeOwner(fs, Visited(visited + {file}), Distribution(name, after.tpDeps[name]))
    {
      if IsLocal(file) || name != fs.owners[file].name {
        assert SomeOwner(fs, Visited(visited), Distribution(name, desc.tpDeps[name]));
        var f :| f in Visited(visited) && !IsLocal(f) && f in fs.owners &&
          fs.owners[f] == Distribution(name, desc.tpDeps[name]);
        assert f in Visited(visited + {file});
      } else {
        assert file in Visited(visited + {file});
      }
    }
  }

  /******* What a bundle is *******/

  /** Merging the bundles of two sets of seeds bundles both. */
  lemma MergeBundlesBoth(fs: FileSystem, a: set<Path>, b: set<Path>, first: BundleDesc, second: BundleDesc)
    requires IsBundle(fs, a, first) && IsBundle(fs, b, second)
    ensures IsBundle(fs, a + b, first.Merge(second))
    ensures forall name :: name in second.tpDeps ==> first.Merge(second).tpDeps[name] == second.tpDeps[name]
  {
    forall file ensures file in Reached(fs, a + b) <==> file in Reached(fs, a) || file in Reached(fs, b) {
      ReachedFromUnion(NeededEdges(fs), a, b, file);
    }
    var merged := first.Merge(second);
    forall name | name in merged.tpDeps
      ensures SomeOwner(fs, Reached(fs, a + b), Distribution(name, merged.tpDeps[name]))
    {
      var (seeds, desc) := if name in second.tpDeps then (b, second) else (a, first);
      assert SomeOwner(fs, Reached(fs, seeds), Distribution(name, desc.tpDeps[name]));
      var file :| file in Reached(fs, seeds) && !IsLocal(file) && file in fs.owners &&
        fs.owners[file] == Distribution(name, desc.tpDeps[name]);
      assert file in Reached(fs, a + b);
    }
  }

  /** What the order can decide: whether two installed files that the seeds
      reach belong to different versions of one distribution. */
  ghost predicate VersionsAgree(fs: FileSystem, seeds: set<Path>) {
    forall f, g :: IsOwned(fs, seeds, f) && IsOwned(fs, seeds, g) && fs.owners[f].name == fs.owners[g].name ==>
      fs.owners[f] == fs.owners[g]
  }

  ghost predicate IsOwned(fs: FileSystem, seeds: set<Path>, file: Path) {
    file in Reached(fs, seeds) && !IsLocal(file) && file in fs.owners
  }

  /** Seeds that have a bundle have only one exactly when these agree. */
  lemma BundleIsUniqueIff(fs: FileSystem, seeds: set<Path>, desc: BundleDesc)
    requires IsBundle(fs, seeds, desc)
    ensures VersionsAgree(fs, seeds) <==> forall other :: IsBundle(fs, seeds, other) ==> other == desc
  {
    hide Reached, IsLocal;
    if VersionsAgree(fs, seeds) {
      forall other | IsBundle(fs, seeds, other) ensures other == desc {
        assert other.localFiles == desc.localFiles;
        SameVersions(fs, seeds, desc, other);
        SameVersions(fs, seeds, other, desc);
        assert other.tpDeps == desc.tpDeps;
      }
    } else {
      var f, g :| IsOwned(fs, seeds, f) && IsOwned(fs, seeds, g) && fs.owners[f].name == fs.owners[g].name &&
        fs.owners[f] != fs.owners[g];
      EitherVersion(fs, seeds, desc, f);
      EitherVersion(fs, seeds, desc, g);
      var name := fs.owners[f].name;
      assert desc.tpDeps[name := fs.owners[f].version][name] != desc.tpDeps[name := fs.owners[g].version][name];
    }
  }

  lemma SameVersions(fs: FileSystem, seeds: set<Path>, first: BundleDesc, second: BundleDesc)
    requires VersionsAgree(fs, seeds) && IsBundle(fs, seeds, first) && IsBundle(fs, seeds, second)
    ensures forall name :: name in first.tpDeps ==> name in second.tpDeps && second.tpDeps[name] == first.tpDeps[name]
  {
    hide Reached, IsLocal;
    forall name | name in first.tpDeps ensures name in second.tpDeps && second.tpDeps[name] == first.tpDeps[name] {
      var f := OwnerOf(fs, seeds, first, name);
      assert name in second.tpDeps;
      var g := OwnerOf(fs, seeds, second, name);
    }
  }

  lemma OwnerOf(fs: FileSystem, seeds: set<Path>, desc: BundleDesc, name: string) returns (file: Path)
    requires IsBundle(fs, seeds, desc) && name in desc.tpDeps
    ensures IsOwned(fs, seeds, file) && fs.owners[file] == Distribution(name, desc.tpDeps[name])
  {
    assert SomeOwner(fs, Reached(fs, seeds), Distribution(name, desc.tpDeps[name]));
    file :| file in Reached(fs, seeds) && !IsLocal(file) && file in fs.owners &&
      fs.owners[file] == Distribution(name, desc.tpDeps[name]);
  }

  lemma EitherVersion(fs: FileSystem, seeds: set<Path>, desc: BundleDesc, file: Path)
    requires IsBundle(fs, seeds, desc) && IsOwned(fs, seeds, file)
    ensures var owner := fs.owners[file];
            IsBundle(fs, seeds, desc.(tpDeps := desc.tpDeps[owner.name := owner.version]))
  {
    hide IsLocal;
    var owner := fs.owners[file];
    var after := desc.tpDeps[owner.name := owner.version];
    forall name | name in after ensures SomeOwner(fs, Reached(fs, seeds), Distribution(name, after[name])) {
      if name != owner.name {
        assert SomeOwner(fs, Reached(fs, seeds), Distribution(name, desc.tpDeps[name]));
      } else {
        assert file in Reached(fs, seeds) && fs.owners[file] == Distribution(name, after[name]);
      }
    }
  }

  /******* Where files are staged *******/

  /** The first directory from `directory` up that is no package. */
  function SysPathRoot(fs: FileSystem, directory: Path): (root: Path)
    ensures root <= directory
    decreases |directory|
  {
    if directory == [] || !HasInit(fs, directory) then directory else SysPathRoot(fs, Parent(directory))
  }

  function ImportPath(fs: FileSystem, file: Path): Path {
    var root := SysPathRoot(fs, Parent(file));
    assert root <= file;
    file[|root|..]
  }

  /** Packages are staged whole: a file's __init__ chain has the file's own
      root, and each __init__ lands in a directory above the file. */
  lemma {:induction false} InitsStageAlongside(fs: FileSystem, directory: Path, i: nat)
    requires i < |InitFiles(fs, directory)|
    ensures var init := InitFiles(fs, directory)[i];
      && SysPathRoot(fs, Parent(init)) == SysPathRoot(fs, directory)
      && Parent(ImportPath(fs, init)) <= directory[|SysPathRoot(fs, directory)|..]
      && Parent(ImportPath(fs, init)) + ["__init__.py"] == ImportPath(fs, init)
    decreases |directory|
  {
    hide HasInit, ImportPath;
    InitFilesStep(fs, directory);
    if i == 0 {
      OwnInitStages(fs, directory);
    } else {
      hide InitFiles;
      var root := SysPathRoot(fs, directory);
      InitsStageAlongside(fs, Parent(directory), i - 1);
      assert Parent(directory)[|root|..] <= directory[|root|..];
    }
  }

  lemma InitFilesStep(fs: FileSystem, directory: Path)
    requires InitFiles(fs, directory) != []
    ensures directory != [] && HasInit(fs, directory)
    ensures InitFiles(fs, directory) == [directory + ["__init__.py"]] + InitFiles(fs, Parent(directory))
    ensures SysPathRoot(fs, directory) == SysPathRoot(fs, Parent(directory))
  {
  }

  lemma OwnInitStages(fs: FileSystem, directory: Path)
    ensures var init, root := directory + ["__init__.py"], SysPathRoot(fs, directory);
      && Parent(init) == directory && ImportPath(fs, init) == directory[|root|..] + ["__init__.py"]
      && Parent(ImportPath(fs, init)) == directory[|root|..]
  {
    hide HasInit;
    assert Parent(directory + ["__init__.py"]) == directory;
  }
}

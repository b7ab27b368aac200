/** cortexgrid/_bundle.py, `bundle`: what a bundle holds, told by the files,
    their imports and the owners of installed files alone. */
module BundleClosure {
  import opened Common
  import opened Graph
  import opened Bundle

  ghost predicate Installed(file: Path) {
    "site-packages" in file || "dist-packages" in file
  }

  ghost predicate PythonSource(file: Path) {
    file != [] && exists stem: string :: stem != [] && file[|file| - 1] == stem + ".py"
  }

  /** A module the file imports. */
  ghost predicate ImportedBy(fs: FileSystem, file: Path, next: Path) {
    PythonSource(file) && file in fs.imports && next in fs.imports[file]
  }

  /** Every directory above the file, from the one `depth` down on, is a
      package. */
  ghost predicate PackagesFrom(fs: FileSystem, file: Path, depth: nat) {
    0 < depth < |file| && forall d :: depth <= d < |file| ==> file[..d] + ["__init__.py"] in fs.files
  }

  /** The __init__.py of one of these packages. */
  ghost predicate PackageInit(fs: FileSystem, file: Path, next: Path) {
    exists depth: nat :: PackagesFrom(fs, file, depth) && next == file[..depth] + ["__init__.py"]
  }

  /** What bundling a file takes along; an installed one is not followed. */
  ghost predicate LeadsTo(fs: FileSystem, file: Path, next: Path) {
    !Installed(file) && (ImportedBy(fs, file, next) || PackageInit(fs, file, next))
  }

  /** The file itself is bundled, or the distribution that owns it. */
  ghost predicate Covered(fs: FileSystem, desc: BundleDesc, file: Path) {
    if Installed(file) then file in fs.owners && fs.owners[file].name in desc.tpDeps else file in desc.localFiles
  }

  /** The seeds are covered, and whatever a bundled file leads to. */
  ghost predicate HoldsAllNeeded(fs: FileSystem, seeds: set<Path>, desc: BundleDesc) {
    && (forall file :: file in seeds ==> Covered(fs, desc, file))
    && (forall file, next :: file in desc.localFiles && LeadsTo(fs, file, next) ==> Covered(fs, desc, next))
  }

  /** A seed, or what some bundled file leads to. */
  ghost predicate CalledFor(fs: FileSystem, seeds: set<Path>, files: set<Path>, file: Path) {
    file in seeds || exists from :: from in files && LeadsTo(fs, from, file)
  }

  /** The local files are the smallest such set, and each distribution owns, at
      its version, an installed file that is called for. */
  ghost predicate HoldsNoMore(fs: FileSystem, seeds: set<Path>, desc: BundleDesc) {
    && (forall file :: file in desc.localFiles ==> !Installed(file))
    && (forall files: set<Path> ::
          (forall file :: CalledFor(fs, seeds, files, file) && !Installed(file) ==> file in files) ==>
          desc.localFiles <= files)
    && (forall name :: name in desc.tpDeps ==>
          OwnsCalledFor(fs, seeds, desc.localFiles, Distribution(name, desc.tpDeps[name])))
  }

  ghost predicate OwnsCalledFor(fs: FileSystem, seeds: set<Path>, files: set<Path>, owner: Distribution) {
    exists file ::
      CalledFor(fs, seeds, files, file) && Installed(file) && file in fs.owners && fs.owners[file] == owner
  }

  lemma InstalledIffNotLocal(file: Path)
    ensures Installed(file) <==> !IsLocal(file)
  {
  }

  lemma SourceIffPython(file: Path)
    ensures PythonSource(file) <==> IsPython(file)
  {
    if IsPython(file) {
      var name := file[|file| - 1];
      assert name == name[..|name| - 3] + ".py";
    }
  }

  lemma {:induction false} InitFilesMeaning(fs: FileSystem, directory: Path, next: Path)
    ensures next in InitFiles(fs, directory) <==>
      exists depth: nat :: 0 < depth <= |directory| && next == directory[..depth] + ["__init__.py"] &&
        forall d :: depth <= d <= |directory| ==> directory[..d] + ["__init__.py"] in fs.files
    decreases |directory|
  {
    assert directory[..|directory|] == directory;
    if directory != [] && HasInit(fs, directory) {
      var above := Parent(directory);
      InitFilesMeaning(fs, above, next);
      assert forall d :: 0 <= d <= |above| ==> above[..d] == directory[..d];
    }
  }

  lemma NeededIffLeadsTo(fs: FileSystem, file: Path, next: Path)
    ensures next in Needed(fs, file) <==> LeadsTo(fs, file, next)
  {
    hide InitFiles, IsPython, PythonSource, IsLocal, Installed;
    InstalledIffNotLocal(file);
    SourceIffPython(file);
    var directory := Parent(file);
    InitFilesMeaning(fs, directory, next);
    assert forall d :: 0 <= d <= |directory| ==> directory[..d] == file[..d];
    if next in InitFiles(fs, directory) {
      var depth: nat :| 0 < depth <= |directory| && next == directory[..depth] + ["__init__.py"] &&
        forall d :: depth <= d <= |directory| ==> directory[..d] + ["__init__.py"] in fs.files;
      assert PackagesFrom(fs, file, depth);
    }
    if PackageInit(fs, file, next) {
      var depth: nat :| PackagesFrom(fs, file, depth) && next == file[..depth] + ["__init__.py"];
      assert 0 < depth <= |directory| && next == directory[..depth] + ["__init__.py"];
    }
  }

  /******* Both readings agree *******/

  lemma EdgesAreLeads(fs: FileSystem, file: Path, next: Path)
    requires fs.Valid() && file in fs.files
    ensures next in Targets(NeededEdges(fs), file) <==> LeadsTo(fs, file, next)
    ensures LeadsTo(fs, file, next) ==> next in fs.files
  {
    hide Needed, LeadsTo;
    NeededIffLeadsTo(fs, file, next);
    NeededExists(fs, file);
  }

  lemma NeededExists(fs: FileSystem, file: Path)
    requires fs.Valid()
    ensures forall next :: next in Needed(fs, file) ==> next in fs.files
  {
  }

  lemma ReachedExists(fs: FileSystem, seeds: set<Path>, file: Path)
    requires fs.Valid() && seeds <= fs.files && file in Reached(fs, seeds)
    ensures file in fs.files
  {
    hide Needed;
    forall f | f in fs.files ensures Targets(NeededEdges(fs), f) <= fs.files {
      NeededExists(fs, f);
    }
    ClosedHoldsReached(NeededEdges(fs), fs.files, seeds, file);
  }

  /** What is reached is a seed or one edge away from what is. */
  lemma ReachedBefore(fs: FileSystem, seeds: set<Path>, file: Path)
    requires file in Reached(fs, seeds) && file !in seeds
    ensures exists from :: from in Reached(fs, seeds) && file in Targets(NeededEdges(fs), from)
  {
    hide NeededEdges;
    var x :| x in seeds && Reachable(NeededEdges(fs), x, file);
    var p :| IsPathFromTo(NeededEdges(fs), p, x, file);
    var q := p[..|p| - 1];
    var from := q[|q| - 1];
    assert p[|q| - 1 + 1] in Targets(NeededEdges(fs), p[|q| - 1]);
    if |q| > 1 {
      assert IsPathFromTo(NeededEdges(fs), q, x, from);
    }
  }

  lemma ReachedIsCalledFor(fs: FileSystem, seeds: set<Path>, desc: BundleDesc, file: Path)
    requires fs.Valid() && seeds <= fs.files && HoldsLocal(Reached(fs, seeds), desc) && file in Reached(fs, seeds)
    ensures CalledFor(fs, seeds, desc.localFiles, file)
  {
    hide Reached, NeededEdges, IsLocal, Installed, ImportedBy, PackageInit;
    if file !in seeds {
      ReachedBefore(fs, seeds, file);
      var from :| from in Reached(fs, seeds) && file in Targets(NeededEdges(fs), from);
      ReachedExists(fs, seeds, from);
      EdgesAreLeads(fs, from, file);
      InstalledIffNotLocal(from);
    }
  }

  lemma CalledForIsReached(fs: FileSystem, seeds: set<Path>, files: set<Path>, file: Path)
    requires fs.Valid() && seeds <= fs.files && CalledFor(fs, seeds, files, file)
    requires forall f :: f in files ==> f in Reached(fs, seeds)
    ensures file in Reached(fs, seeds)
  {
    hide NeededEdges, LeadsTo;
    if file !in seeds {
      var from :| from in files && LeadsTo(fs, from, file);
      ReachedExists(fs, seeds, from);
      EdgesAreLeads(fs, from, file);
      ReachedThenEdge(NeededEdges(fs), seeds, from, file);
    }
  }

  /** Whatever holds the seeds and is closed holds all that is reached. */
  lemma ClosedHoldsAll(fs: FileSystem, seeds: set<Path>, files: set<Path>, file: Path)
    requires fs.Valid() && seeds <= fs.files && file in Reached(fs, seeds) && seeds <= files
    requires forall f, next :: f in files && f in fs.files && LeadsTo(fs, f, next) ==> next in files
    ensures file in files
  {
    hide NeededEdges, LeadsTo;
    var all := files * fs.files;
    forall f | f in all ensures Targets(NeededEdges(fs), f) <= all {
      forall next | next in Targets(NeededEdges(fs), f) ensures next in all {
        EdgesAreLeads(fs, f, next);
      }
    }
    ClosedHoldsReached(NeededEdges(fs), all, seeds, file);
  }

  /** In a bundle the seeds are covered and all that its files lead to. */
  lemma BundleHoldsAllNeeded(fs: FileSystem, seeds: set<Path>, desc: BundleDesc)
    requires fs.Valid() && seeds <= fs.files && IsBundle(fs, seeds, desc)
    ensures HoldsAllNeeded(fs, seeds, desc)
  {
    hide Reached, LeadsTo, IsLocal, Installed;
    forall file | file in seeds ensures Covered(fs, desc, file) {
      SeedIsReached(fs, seeds, file);
      InstalledIffNotLocal(file);
    }
    forall file, next | file in desc.localFiles && LeadsTo(fs, file, next) ensures Covered(fs, desc, next) {
      assert CalledFor(fs, seeds, desc.localFiles, next);
      CalledForIsReached(fs, seeds, desc.localFiles, next);
      InstalledIffNotLocal(next);
    }
  }

  lemma SeedIsReached(fs: FileSystem, seeds: set<Path>, file: Path)
    requires file in seeds
    ensures file in Reached(fs, seeds)
  {
  }

  lemma BundleHoldsNoMore(fs: FileSystem, seeds: set<Path>, desc: BundleDesc)
    requires fs.Valid() && seeds <= fs.files && IsBundle(fs, seeds, desc)
    ensures HoldsNoMore(fs, seeds, desc)
  {
    hide Reached, LeadsTo, IsLocal, Installed, CalledFor;
    forall file: Path ensures Installed(file) <==> !IsLocal(file) {
      InstalledIffNotLocal(file);
    }
    forall files: set<Path> |
      forall file :: CalledFor(fs, seeds, files, file) && !Installed(file) ==> file in files
      ensures desc.localFiles <= files
    {
      forall file | file in desc.localFiles ensures file in files {
        ReachedIsHeld(fs, seeds, files, file);
      }
    }
    forall name | name in desc.tpDeps
      ensures OwnsCalledFor(fs, seeds, desc.localFiles, Distribution(name, desc.tpDeps[name]))
    {
      var file := OwnerOf(fs, seeds, desc, name);
      ReachedIsCalledFor(fs, seeds, desc, file);
    }
  }

  lemma ReachedIsHeld(fs: FileSystem, seeds: set<Path>, files: set<Path>, file: Path)
    requires fs.Valid() && seeds <= fs.files && file in Reached(fs, seeds) && !Installed(file)
    requires forall file :: CalledFor(fs, seeds, files, file) && !Installed(file) ==> file in files
    ensures file in files
  {
    hide Reached, Installed, ImportedBy, PackageInit;
    var held := files + set f | f in fs.files && Installed(f);
    forall f, next | f in held && f in fs.files && LeadsTo(fs, f, next) ensures next in held {
      EdgesAreLeads(fs, f, next);
      assert CalledFor(fs, seeds, files, next);
    }
    forall f | f in seeds ensures f in held {
      assert CalledFor(fs, seeds, files, f);
    }
    ClosedHoldsAll(fs, seeds, held, file);
  }

  lemma HeldIsReached(fs: FileSystem, seeds: set<Path>, desc: BundleDesc, file: Path)
    requires fs.Valid() && seeds <= fs.files && HoldsNoMore(fs, seeds, desc) && file in desc.localFiles
    ensures file in Reached(fs, seeds)
  {
    hide Reached, Installed, LeadsTo;
    var reached := set f | f in fs.files && f in Reached(fs, seeds);
    forall f | CalledFor(fs, seeds, reached, f) && !Installed(f) ensures f in reached {
      CalledForIsReached(fs, seeds, reached, f);
      ReachedExists(fs, seeds, f);
    }
    assert desc.localFiles <= reached;
  }

  lemma ReachedIsCovered(fs: FileSystem, seeds: set<Path>, desc: BundleDesc, file: Path)
    requires fs.Valid() && seeds <= fs.files && HoldsAllNeeded(fs, seeds, desc) && file in Reached(fs, seeds)
    ensures Covered(fs, desc, file)
  {
    hide Reached, Installed, ImportedBy, PackageInit;
    var covered := set f | f in fs.files && Covered(fs, desc, f);
    forall f, next | f in covered && f in fs.files && LeadsTo(fs, f, next) ensures next in covered {
      EdgesAreLeads(fs, f, next);
      assert f in desc.localFiles;
    }
    ClosedHoldsAll(fs, seeds, covered, file);
  }

  /** A bundle of the seeds is exactly what covers them and all that is needed,
      and no more. */
  lemma IsBundleIff(fs: FileSystem, seeds: set<Path>, desc: BundleDesc)
    requires fs.Valid() && seeds <= fs.files
    ensures IsBundle(fs, seeds, desc) <==> HoldsAllNeeded(fs, seeds, desc) && HoldsNoMore(fs, seeds, desc)
  {
    if IsBundle(fs, seeds, desc) {
      BundleHoldsAllNeeded(fs, seeds, desc);
      BundleHoldsNoMore(fs, seeds, desc);
    }
    if HoldsAllNeeded(fs, seeds, desc) && HoldsNoMore(fs, seeds, desc) {
      IsBundleIfHolds(fs, seeds, desc);
    }
  }

  lemma IsBundleIfHolds(fs: FileSystem, seeds: set<Path>, desc: BundleDesc)
    requires fs.Valid() && seeds <= fs.files && HoldsAllNeeded(fs, seeds, desc) && HoldsNoMore(fs, seeds, desc)
    ensures IsBundle(fs, seeds, desc)
  {
    hide Reached, Installed, IsLocal, CalledFor, HoldsAllNeeded;
    forall file: Path ensures Installed(file) <==> !IsLocal(file) {
      InstalledIffNotLocal(file);
    }
    forall file | file in desc.localFiles ensures file in Reached(fs, seeds) {
      HeldIsReached(fs, seeds, desc, file);
    }
    forall file | file in Reached(fs, seeds) ensures Covered(fs, desc, file) {
      ReachedIsCovered(fs, seeds, desc, file);
    }
    forall name | name in desc.tpDeps ensures SomeOwner(fs, Reached(fs, seeds), Distribution(name, desc.tpDeps[name])) {
      var file :| CalledFor(fs, seeds, desc.localFiles, file) && Installed(file) && file in fs.owners &&
        fs.owners[file] == Distribution(name, desc.tpDeps[name]);
      CalledForIsReached(fs, seeds, desc.localFiles, file);
    }
  }

  /** A file that nothing owns leaves the seeds without a bundle. */
  lemma UnownedHasNoBundle(fs: FileSystem, seeds: set<Path>, file: Path, desc: BundleDesc)
    requires fs.Valid() && seeds <= fs.files && Unowned(fs, seeds, file)
    ensures Installed(file) && file !in fs.owners && !HoldsAllNeeded(fs, seeds, desc)
  {
    hide Reached, Installed, IsLocal, HoldsAllNeeded;
    InstalledIffNotLocal(file);
    if HoldsAllNeeded(fs, seeds, desc) {
      ReachedIsCovered(fs, seeds, desc, file);
    }
  }

  /******* Where files are staged *******/

  /** The directory at this depth above the file is no package, and those
      between the two are. */
  ghost predicate IsRootOf(fs: FileSystem, file: Path, depth: nat) {
    && depth < |file|
    && (depth == 0 || file[..depth] + ["__init__.py"] !in fs.files)
    && forall d :: depth < d < |file| ==> file[..d] + ["__init__.py"] in fs.files
  }

  /** A file stages at its path below the first directory above it that is no
      package. */
  lemma ImportPathMeaning(fs: FileSystem, file: Path)
    requires file != []
    ensures exists depth: nat :: IsRootOf(fs, file, depth) && ImportPath(fs, file) == file[depth..]
  {
    var directory := Parent(file);
    RootMeaning(fs, directory);
    var root := SysPathRoot(fs, directory);
    assert forall d :: 0 <= d < |file| ==> directory[..d] == file[..d];
    assert root == file[..|root|] && IsRootOf(fs, file, |root|);
  }

  lemma {:induction false} RootMeaning(fs: FileSystem, directory: Path)
    ensures var root := SysPathRoot(fs, directory);
      && root <= directory && (root == [] || root + ["__init__.py"] !in fs.files)
      && forall d :: |root| < d <= |directory| ==> directory[..d] + ["__init__.py"] in fs.files
    decreases |directory|
  {
    assert directory[..|directory|] == directory;
    if directory != [] && HasInit(fs, directory) {
      var above := Parent(directory);
      RootMeaning(fs, above);
      assert forall d :: 0 <= d <= |above| ==> above[..d] == directory[..d];
    }
  }
}

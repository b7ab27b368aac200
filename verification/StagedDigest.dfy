/** cortexgrid/_bundle.py, `digest` of a set of files: each is hashed at its
    import path, so what counts is the contents at each import path, in the
    order of where their files live, and nothing else. */
module StagedDigest {
  import opened Common
  import opened Sorting
  import opened Decimal
  import opened Bundle
  import opened Digest

  type Contents = map<Path, Bytes>

  /** A path whose components are file names. */
  predicate Named(path: Path) {
    path != [] && forall i :: 0 <= i < |path| ==> IsName(path[i])
  }

  predicate IsName(name: string) {
    forall i :: 0 <= i < |name| ==> name[i] != '/' && name[i] != NUL
  }

  /** as_posix() */
  function Posix(path: Path): Bytes {
    if path == [] then [] else if |path| == 1 then path[0] else path[0] + ("/" + Posix(path[1..]))
  }

  lemma {:induction false} PosixNulFree(path: Path)
    requires Named(path)
    ensures NulFree(Posix(path))
  {
    assert IsName(path[0]);
    if |path| > 1 {
      PosixNulFree(path[1..]);
    }
  }

  /** The text before the first slash is determined. */
  lemma SplitAtSlash(a: string, x: string, b: string, y: string)
    requires IsName(a) && IsName(b) && a + ("/" + x) == b + ("/" + y)
    ensures a == b && x == y
  {
    var p, q := a + ("/" + x), b + ("/" + y);
    assert p[|a|] == '/' && q[|b|] == '/';
    assert forall i :: 0 <= i < |b| ==> q[i] == b[i];
    assert forall i :: 0 <= i < |a| ==> p[i] == a[i];
    assert a == p[..|a|] == q[..|a|] == b;
    assert x == p[|a| + 1..] && y == q[|a| + 1..];
  }

  lemma {:induction false} PosixInjective(p: Path, q: Path)
    requires Named(p) && Named(q) && Posix(p) == Posix(q)
    ensures p == q
  {
    assert IsName(p[0]) && IsName(q[0]);
    SlashIffLonger(p);
    SlashIffLonger(q);
    if |p| > 1 {
      SplitAtSlash(p[0], Posix(p[1..]), q[0], Posix(q[1..]));
      PosixInjective(p[1..], q[1..]);
      assert p == [p[0]] + p[1..] && q == [q[0]] + q[1..];
    }
  }

  lemma SlashIffLonger(p: Path)
    requires Named(p)
    ensures IsName(Posix(p)) <==> |p| == 1
  {
    assert IsName(p[0]);
    if |p| > 1 {
      assert Posix(p)[|p[0]|] == '/';
    }
  }

  /** The pieces of a text between its slashes. */
  function Components(text: string): (pieces: seq<string>)
    ensures pieces != []
  {
    if text == [] then [[]]
    else
      var rest := Components(text[1..]);
      if text[0] == '/' then [[]] + rest else [[text[0]] + rest[0]] + rest[1..]
  }

  lemma {:induction false} ComponentsOfName(name: string, rest: string)
    requires IsName(name)
    ensures Components(name + ("/" + rest)) == [name] + Components(rest)
    ensures Components(name) == [name]
  {
    if name == [] {
      assert name + ("/" + rest) == "/" + rest && ("/" + rest)[1..] == rest;
    } else {
      ComponentsOfName(name[1..], rest);
      assert (name + ("/" + rest))[1..] == name[1..] + ("/" + rest);
      assert name == [name[0]] + name[1..];
    }
  }

  /** The text of a path holds its components, in order, between slashes. */
  lemma {:induction false} ComponentsOfPosix(path: Path)
    requires Named(path)
    ensures Components(Posix(path)) == path
  {
    assert IsName(path[0]);
    if |path| == 1 {
      ComponentsOfName(path[0], "");
    } else {
      ComponentsOfPosix(path[1..]);
      ComponentsOfName(path[0], Posix(path[1..]));
      assert path == [path[0]] + path[1..];
    }
  }

  lemma ImportPathNamed(fs: FileSystem, file: Path)
    requires Named(file)
    ensures Named(ImportPath(fs, file))
  {
  }

  /******* The order of the hash *******/

  /** The order of Python's paths: component by component, a prefix first. */
  predicate PathLe(a: Path, b: Path) {
    if a == [] then true
    else if b == [] then false
    else if a[0] == b[0] then PathLe(a[1..], b[1..])
    else StringLe(a[0], b[0])
  }

  lemma {:induction false} PathLeTotal(a: Path, b: Path)
    ensures PathLe(a, b) || PathLe(b, a)
    ensures PathLe(a, b) && PathLe(b, a) ==> a == b
  {
    if a != [] && b != [] {
      StringLeTotal(a[0], b[0]);
      if a[0] == b[0] {
        PathLeTotal(a[1..], b[1..]);
        assert a == [a[0]] + a[1..] && b == [b[0]] + b[1..];
      }
    }
  }

  lemma {:induction false} PathLeTransitive(a: Path, b: Path, c: Path)
    requires PathLe(a, b) && PathLe(b, c)
    ensures PathLe(a, c)
  {
    if a != [] {
      if a[0] == b[0] == c[0] {
        PathLeTransitive(a[1..], b[1..], c[1..]);
      } else if a[0] != b[0] && b[0] != c[0] {
        StringLeTransitive(a[0], b[0], c[0]);
        StringLeTotal(a[0], b[0]);
      }
    }
  }

  /** Where one path leaves the other the name decides, and a prefix comes
      first. */
  ghost predicate DiffersBefore(a: Path, b: Path, k: nat) {
    k <= |a| && k <= |b| && a[..k] == b[..k] && (k == |a| || (k < |b| && a[k] != b[k] && StringLe(a[k], b[k])))
  }

  lemma {:induction false} PathLeMeaning(a: Path, b: Path)
    ensures PathLe(a, b) <==> exists k: nat :: DiffersBefore(a, b, k)
  {
    hide StringLe;
    if a != [] && b != [] && a[0] == b[0] {
      PathLeMeaning(a[1..], b[1..]);
      if k: nat :| DiffersBefore(a[1..], b[1..], k) {
        assert a[..k + 1] == [a[0]] + a[1..][..k] && b[..k + 1] == [b[0]] + b[1..][..k];
        assert DiffersBefore(a, b, k + 1);
      }
      if k: nat :| DiffersBefore(a, b, k) {
        var n: nat := k - 1;
        assert a[1..][..n] == a[..k][1..] && b[1..][..n] == b[..k][1..];
        assert DiffersBefore(a[1..], b[1..], n);
      }
    } else if PathLe(a, b) {
      assert DiffersBefore(a, b, 0);
    } else if k: nat :| DiffersBefore(a, b, k) {
      SamePrefix(a, b, k);
    }
  }

  lemma PathLePreorder()
    ensures TotalPreorder(PathLe)
  {
    forall a, b ensures PathLe(a, b) || PathLe(b, a) {
      PathLeTotal(a, b);
    }
    forall a, b, c | PathLe(a, b) && PathLe(b, c) ensures PathLe(a, c) {
      PathLeTransitive(a, b, c);
    }
  }

  /** The order of the pairs of import path and file. */
  function HashOrder(fs: FileSystem): (Path, Path) -> bool {
    (a: Path, b: Path) =>
      var x, y := Posix(ImportPath(fs, a)), Posix(ImportPath(fs, b));
      if x == y then PathLe(a, b) else StringLe(x, y)
  }

  lemma HashOrderPreorder(fs: FileSystem)
    ensures TotalPreorder(HashOrder(fs))
  {
    hide Posix, ImportPath;
    var le := HashOrder(fs);
    forall a, b ensures le(a, b) || le(b, a) {
      PathLeTotal(a, b);
      StringLeTotal(Posix(ImportPath(fs, a)), Posix(ImportPath(fs, b)));
    }
    forall a, b, c | le(a, b) && le(b, c) ensures le(a, c) {
      HashOrderTransitive(fs, a, b, c);
    }
  }

  lemma HashOrderTransitive(fs: FileSystem, a: Path, b: Path, c: Path)
    requires HashOrder(fs)(a, b) && HashOrder(fs)(b, c)
    ensures HashOrder(fs)(a, c)
  {
    hide Posix, ImportPath, PathLe, StringLe;
    var x, y, z := Posix(ImportPath(fs, a)), Posix(ImportPath(fs, b)), Posix(ImportPath(fs, c));
    if x == y == z {
      PathLeTransitive(a, b, c);
    } else if x != y && y != z {
      StringLeTransitive(x, y, z);
      StringLeTotal(x, y);
    }
  }

  /******* What is hashed *******/

  /** The files in the order of the hash. */
  ghost predicate IsHashOrder(fs: FileSystem, files: set<Path>, order: seq<Path>) {
    Distinct(order) && ToSet(order) == files && Ascending(order, HashOrder(fs))
  }

  function EntryOf(fs: FileSystem, contents: Contents, file: Path): Entry
    requires file in contents
  {
    Entry(Posix(ImportPath(fs, file)), contents[file])
  }

  function EntriesOf(fs: FileSystem, contents: Contents, order: seq<Path>): seq<Entry>
    requires forall file :: file in order ==> file in contents
  {
    seq(|order|, i requires 0 <= i < |order| => EntryOf(fs, contents, order[i]))
  }

  /** The bytes fed to the hash for these files. */
  ghost predicate IsPreimage(fs: FileSystem, contents: Contents, files: set<Path>, bytes: Bytes)
    requires files <= contents.Keys
  {
    exists order :: IsHashOrder(fs, files, order) && bytes == Stream(EntriesOf(fs, contents, order))
  }

  /** The loop over the sorted files, feeding the hash. */
  method DigestedBytes(fs: FileSystem, contents: Contents, files: set<Path>) returns (bytes: Bytes)
    requires files <= contents.Keys
    ensures IsPreimage(fs, contents, files, bytes)
  {
    hide ImportPath, Posix, HashOrder, Stream, SortBy;
    var listed := Enumerate(files);
    var order := SortBy(listed, HashOrder(fs));
    HashOrderPreorder(fs);
    SortByAscending(listed, HashOrder(fs));
    SortByKeepsDistinct(listed, HashOrder(fs));
    assert forall file :: file in order ==> file in ToSet(order);
    StreamOfNothing();
    bytes := [];
    assert EntriesOf(fs, contents, order[..0]) == [];
    var i := 0;
    while i < |order|
      invariant 0 <= i <= |order|
      invariant bytes == Stream(EntriesOf(fs, contents, order[..i]))
    {
      var path, content := Posix(ImportPath(fs, order[i])), contents[order[i]];
      StreamNext(bytes, EntriesOf(fs, contents, order[..i]), Entry(path, content));
      assert EntriesOf(fs, contents, order[..i + 1]) == EntriesOf(fs, contents, order[..i]) + [Entry(path, content)];
      bytes := bytes + path + [NUL] + Numeral(|content|) + [NUL] + content;
      i := i + 1;
    }
    assert order[..i] == order;
  }

  /******* What stages at a path *******/

  /** The files that stage at `path`, in the order of where they live. */
  ghost predicate IsLocated(fs: FileSystem, files: set<Path>, path: Path, located: seq<Path>) {
    Distinct(located) && Ascending(located, PathLe) &&
    ToSet(located) == set file | file in files && ImportPath(fs, file) == path
  }

  function ContentsOf(contents: Contents, files: seq<Path>): seq<Bytes>
    requires forall file :: file in files ==> file in contents
  {
    seq(|files|, i requires 0 <= i < |files| => contents[files[i]])
  }

  /** The contents that stage at `path`, in the order of where their files
      live: one at most, unless files stage on top of each other. */
  ghost function StagedAt(fs: FileSystem, contents: Contents, files: set<Path>, path: Path): (staged: seq<Bytes>)
    requires files <= contents.Keys
    ensures exists located ::
      (IsLocated(fs, files, path, located) &&
       (forall file :: file in located ==> file in contents) && staged == ContentsOf(contents, located))
  {
    LocatedExists(fs, files, path);
    var located :| IsLocated(fs, files, path, located);
    assert forall file :: file in located ==> file in ToSet(located);
    ContentsOf(contents, located)
  }

  lemma StagedLocated(fs: FileSystem, contents: Contents, files: set<Path>, path: Path) returns (located: seq<Path>)
    requires files <= contents.Keys
    ensures IsLocated(fs, files, path, located) && forall file :: file in located ==> file in contents
    ensures StagedAt(fs, contents, files, path) == ContentsOf(contents, located)
  {
    hide IsLocated;
    var staged := StagedAt(fs, contents, files, path);
    located :| IsLocated(fs, files, path, located) &&
      (forall file :: file in located ==> file in contents) && staged == ContentsOf(contents, located);
  }

  lemma {:induction false} Listed<T>(s: set<T>) returns (xs: seq<T>)
    ensures Distinct(xs) && ToSet(xs) == s
  {
    if s == {} {
      xs := [];
    } else {
      var x :| x in s;
      var rest := Listed(s - {x});
      assert x !in ToSet(rest);
      xs := [x] + rest;
      assert ToSet(xs) == {x} + ToSet(rest);
    }
  }

  lemma LocatedExists(fs: FileSystem, files: set<Path>, path: Path)
    ensures exists located :: IsLocated(fs, files, path, located)
  {
    hide ImportPath, PathLe, SortBy;
    var listed := Listed(set file | file in files && ImportPath(fs, file) == path);
    PathLePreorder();
    SortByAscending(listed, PathLe);
    SortByKeepsDistinct(listed, PathLe);
    assert IsLocated(fs, files, path, SortBy(listed, PathLe));
  }

  lemma LocatedUnique(fs: FileSystem, files: set<Path>, path: Path, xs: seq<Path>, ys: seq<Path>)
    requires IsLocated(fs, files, path, xs) && IsLocated(fs, files, path, ys)
    ensures xs == ys
  {
    hide ImportPath, PathLe;
    forall a, b | PathLe(a, b) && PathLe(b, a) ensures a == b {
      PathLeTotal(a, b);
    }
    AscendingWithoutTies(xs, ys, PathLe);
  }

  function StagesAt(fs: FileSystem, path: Path): Path -> bool {
    (file: Path) => ImportPath(fs, file) == path
  }

  lemma {:induction false} FilterAscending<T>(xs: seq<T>, p: T -> bool, le: (T, T) -> bool)
    requires Ascending(xs, le)
    ensures Ascending(Filter(xs, p), le)
  {
    if xs != [] {
      FilterAscending(xs[1..], p, le);
      var rest := Filter(xs[1..], p);
      forall j | 0 <= j < |rest| && p(xs[0]) ensures le(xs[0], rest[j]) {
        assert rest[j] in rest;
      }
    }
  }

  /** Files of one import path are hashed in the order of where they live. */
  lemma HashedAsLocated(fs: FileSystem, files: set<Path>, order: seq<Path>, path: Path)
    requires IsHashOrder(fs, files, order)
    ensures IsLocated(fs, files, path, Filter(order, StagesAt(fs, path)))
  {
    hide ImportPath, Posix, PathLe;
    var located := Filter(order, StagesAt(fs, path));
    FilterKeepsDistinct(order, StagesAt(fs, path));
    FilterAscending(order, StagesAt(fs, path), HashOrder(fs));
    forall i, j | 0 <= i < j < |located| ensures PathLe(located[i], located[j]) {
      assert located[i] in located && located[j] in located;
      assert HashOrder(fs)(located[i], located[j]);
    }
    assert forall file :: file in located <==> file in ToSet(order) && ImportPath(fs, file) == path;
  }

  /******* Entries by their paths *******/

  function PathsOf(entries: seq<Entry>): (paths: seq<Bytes>)
    ensures |paths| == |entries|
    ensures forall i :: 0 <= i < |entries| ==> paths[i] == entries[i].path
  {
    seq(|entries|, i requires 0 <= i < |entries| => entries[i].path)
  }

  /** The contents under one path, in order. */
  function Under(entries: seq<Entry>, path: Bytes): seq<Bytes> {
    if entries == [] then []
    else (if entries[0].path == path then [entries[0].content] else []) + Under(entries[1..], path)
  }

  lemma {:induction false} UnderOwnPath(entries: seq<Entry>, path: Bytes)
    ensures Under(entries, path) != [] <==> exists i :: 0 <= i < |entries| && entries[i].path == path
  {
    if entries != [] {
      UnderOwnPath(entries[1..], path);
      if i :| 0 < i < |entries| && entries[i].path == path {
        assert entries[1..][i - 1].path == path;
      }
    }
  }

  /** The first path of one is a path of the other, and so is not before its
      first. */
  lemma FirstPathLe(a: seq<Entry>, b: seq<Entry>)
    requires a != [] && Ascending(PathsOf(b), StringLe)
    requires Under(a, a[0].path) == Under(b, a[0].path)
    ensures b != [] && StringLe(b[0].path, a[0].path)
  {
    hide StringLe;
    UnderOwnPath(b, a[0].path);
    var i :| 0 <= i < |b| && b[i].path == a[0].path;
    if i > 0 {
      assert StringLe(PathsOf(b)[0], PathsOf(b)[i]);
    } else {
      StringLeTotal(a[0].path, a[0].path);
    }
  }

  lemma TailAscending(a: seq<Entry>)
    requires a != [] && Ascending(PathsOf(a), StringLe)
    ensures Ascending(PathsOf(a[1..]), StringLe)
  {
    hide StringLe;
    assert PathsOf(a[1..]) == PathsOf(a)[1..];
  }

  /** Entries in the order of their paths are determined by what is under each. */
  lemma {:induction false} SameUnderEach(a: seq<Entry>, b: seq<Entry>)
    requires Ascending(PathsOf(a), StringLe) && Ascending(PathsOf(b), StringLe)
    requires forall path :: Under(a, path) == Under(b, path)
    ensures a == b
  {
    hide StringLe;
    if a != [] {
      FirstPathLe(a, b);
    }
    if b != [] {
      FirstPathLe(b, a);
    }
    if a != [] && b != [] {
      StringLeTotal(a[0].path, b[0].path);
      assert Under(a, a[0].path)[0] == Under(b, a[0].path)[0];
      assert a[0] == b[0];
      forall path ensures Under(a[1..], path) == Under(b[1..], path) {
        SameRest(a, b, path);
      }
      TailAscending(a);
      TailAscending(b);
      SameUnderEach(a[1..], b[1..]);
      assert a == [a[0]] + a[1..] && b == [b[0]] + b[1..];
    }
  }

  lemma SameRest(a: seq<Entry>, b: seq<Entry>, path: Bytes)
    requires a != [] && b != [] && a[0] == b[0] && Under(a, path) == Under(b, path)
    ensures Under(a[1..], path) == Under(b[1..], path)
  {
    var n := if a[0].path == path then 1 else 0;
    assert Under(a, path)[n..] == Under(a[1..], path) && Under(b, path)[n..] == Under(b[1..], path);
  }

  /******* Same bytes, same staging *******/

  lemma {:induction false} UnderIsFiltered(fs: FileSystem, contents: Contents, order: seq<Path>, path: Path)
    requires (forall file :: file in order ==> file in contents && Named(file)) && Named(path)
    ensures Under(EntriesOf(fs, contents, order), Posix(path)) ==
            ContentsOf(contents, Filter(order, StagesAt(fs, path)))
  {
    hide ImportPath, Posix, Named, Filter, EntriesOf, ContentsOf;
    FilterStep(order, StagesAt(fs, path));
    EntriesStep(fs, contents, order);
    if order == [] {
      ContentsOfNothing(contents);
    } else {
      var file, rest := order[0], order[1..];
      UnderIsFiltered(fs, contents, rest, path);
      ImportPathNamed(fs, file);
      if Posix(ImportPath(fs, file)) == Posix(path) {
        PosixInjective(ImportPath(fs, file), path);
      }
      var filtered := Filter(rest, StagesAt(fs, path));
      ContentsOfMore(contents, file, filtered);
      assert [] + filtered == filtered;
    }
  }

  lemma EntriesStep(fs: FileSystem, contents: Contents, order: seq<Path>)
    requires forall file :: file in order ==> file in contents
    ensures order == [] ==> EntriesOf(fs, contents, order) == []
    ensures order != [] ==>
      var entries := EntriesOf(fs, contents, order);
      entries != [] && entries[0] == EntryOf(fs, contents, order[0]) &&
      entries[1..] == EntriesOf(fs, contents, order[1..])
  {
    hide ImportPath, Posix;
  }

  lemma ContentsOfNothing(contents: Contents)
    ensures ContentsOf(contents, []) == []
  {
  }

  lemma ContentsOfMore(contents: Contents, file: Path, rest: seq<Path>)
    requires file in contents && forall f :: f in rest ==> f in contents
    ensures forall f :: f in [file] + rest ==> f in contents
    ensures ContentsOf(contents, [file] + rest) == [contents[file]] + ContentsOf(contents, rest)
  {
  }

  lemma UnderIsStagedAt(fs: FileSystem, contents: Contents, files: set<Path>, order: seq<Path>, path: Path)
    requires files <= contents.Keys && (forall file :: file in files ==> Named(file)) && Named(path)
    requires IsHashOrder(fs, files, order) && forall file :: file in order ==> file in contents
    ensures Under(EntriesOf(fs, contents, order), Posix(path)) == StagedAt(fs, contents, files, path)
  {
    hide ImportPath, Posix, Named, IsLocated;
    assert forall file :: file in order ==> file in ToSet(order);
    UnderIsFiltered(fs, contents, order, path);
    HashedAsLocated(fs, files, order, path);
    var located := StagedLocated(fs, contents, files, path);
    LocatedUnique(fs, files, path, located, Filter(order, StagesAt(fs, path)));
  }

  lemma HashedAscending(fs: FileSystem, contents: Contents, files: set<Path>, order: seq<Path>)
    requires IsHashOrder(fs, files, order) && forall file :: file in order ==> file in contents
    ensures Ascending(PathsOf(EntriesOf(fs, contents, order)), StringLe)
  {
    hide ImportPath, Posix, PathLe, StringLe;
    var paths := PathsOf(EntriesOf(fs, contents, order));
    forall i, j | 0 <= i < j < |paths| ensures StringLe(paths[i], paths[j]) {
      assert HashOrder(fs)(order[i], order[j]);
      StringLeTotal(paths[i], paths[j]);
    }
  }

  lemma HashedNulFree(fs: FileSystem, contents: Contents, order: seq<Path>, i: nat)
    requires (forall file :: file in order ==> file in contents && Named(file)) && i < |order|
    ensures var path := EntriesOf(fs, contents, order)[i].path;
            NulFree(path) && exists named :: Named(named) && Posix(named) == path
  {
    hide ImportPath, Posix, Named, NulFree;
    ImportPathNamed(fs, order[i]);
    PosixNulFree(ImportPath(fs, order[i]));
  }

  /** Two sets of files, anywhere on any disk, feed the hash the same bytes
      exactly when at each import path the same contents stage, in the order
      of where their files live. */
  lemma SameBytesIffSameContents(
    fsA: FileSystem, contentsA: Contents, filesA: set<Path>, bytesA: Bytes,
    fsB: FileSystem, contentsB: Contents, filesB: set<Path>, bytesB: Bytes)
    requires filesA <= contentsA.Keys && (forall file :: file in filesA ==> Named(file))
    requires filesB <= contentsB.Keys && (forall file :: file in filesB ==> Named(file))
    requires IsPreimage(fsA, contentsA, filesA, bytesA) && IsPreimage(fsB, contentsB, filesB, bytesB)
    ensures bytesA == bytesB <==>
      forall path :: Named(path) ==>
        StagedAt(fsA, contentsA, filesA, path) == StagedAt(fsB, contentsB, filesB, path)
  {
    hide Stream, Posix, Named, StagedAt, HashOrder, Under, ImportPath, NulFree;
    var orderA :| IsHashOrder(fsA, filesA, orderA) && bytesA == Stream(EntriesOf(fsA, contentsA, orderA));
    var orderB :| IsHashOrder(fsB, filesB, orderB) && bytesB == Stream(EntriesOf(fsB, contentsB, orderB));
    InOrder(fsA, filesA, orderA);
    InOrder(fsB, filesB, orderB);
    var a, b := EntriesOf(fsA, contentsA, orderA), EntriesOf(fsB, contentsB, orderB);
    forall path | Named(path)
      ensures Under(a, Posix(path)) == StagedAt(fsA, contentsA, filesA, path)
      ensures Under(b, Posix(path)) == StagedAt(fsB, contentsB, filesB, path)
    {
      UnderIsStagedAt(fsA, contentsA, filesA, orderA, path);
      UnderIsStagedAt(fsB, contentsB, filesB, orderB, path);
    }
    forall i: nat | i < |a| ensures NulFree(a[i].path) && exists path :: Named(path) && Posix(path) == a[i].path {
      HashedNulFree(fsA, contentsA, orderA, i);
    }
    forall i: nat | i < |b| ensures NulFree(b[i].path) && exists path :: Named(path) && Posix(path) == b[i].path {
      HashedNulFree(fsB, contentsB, orderB, i);
    }
    if bytesA == bytesB {
      StreamInjective(a, b);
    }
    if forall path :: Named(path) ==>
        StagedAt(fsA, contentsA, filesA, path) == StagedAt(fsB, contentsB, filesB, path) {
      forall text ensures Under(a, text) == Under(b, text) {
        UnderOwnPath(a, text);
        UnderOwnPath(b, text);
      }
      HashedAscending(fsA, contentsA, filesA, orderA);
      HashedAscending(fsB, contentsB, filesB, orderB);
      SameUnderEach(a, b);
    }
  }

  lemma InOrder(fs: FileSystem, files: set<Path>, order: seq<Path>)
    requires IsHashOrder(fs, files, order)
    ensures forall file :: file in order <==> file in files
  {
    assert forall file :: file in order <==> file in ToSet(order);
  }

  /** Files with names, each with a content, no two staged at one path. */
  ghost predicate Stageable(fs: FileSystem, contents: Contents, files: set<Path>) {
    && files <= contents.Keys
    && (forall file :: file in files ==> Named(file))
    && (forall f, g :: f in files && g in files && ImportPath(fs, f) == ImportPath(fs, g) ==> f == g)
  }

  /** What `stage` lays out: the content at each import path. */
  ghost function Staged(fs: FileSystem, contents: Contents, files: set<Path>): map<Path, Bytes>
    requires Stageable(fs, contents, files)
  {
    map file | file in files :: ImportPath(fs, file) := contents[file]
  }

  function ContentAt(staged: map<Path, Bytes>, path: Path): seq<Bytes> {
    if path in staged then [staged[path]] else []
  }

  lemma StagedOnce(fs: FileSystem, contents: Contents, files: set<Path>, path: Path)
    requires Stageable(fs, contents, files)
    ensures StagedAt(fs, contents, files, path) == ContentAt(Staged(fs, contents, files), path)
  {
    hide ImportPath, Named, StagedAt, PathLe;
    var staged := Staged(fs, contents, files);
    var located := StagedLocated(fs, contents, files, path);
    if path in staged {
      var file :| file in files && ImportPath(fs, file) == path;
      assert ToSet([file]) == {file} == set f | f in files && ImportPath(fs, f) == path;
      assert IsLocated(fs, files, path, [file]);
      LocatedUnique(fs, files, path, located, [file]);
    } else {
      assert IsLocated(fs, files, path, []);
      LocatedUnique(fs, files, path, located, []);
    }
  }

  /** Where no two files stage at one path, the bytes are the same exactly when
      the files stage alike, wherever they live. */
  lemma SameBytesIffStagedAlike(
    fsA: FileSystem, contentsA: Contents, filesA: set<Path>, bytesA: Bytes,
    fsB: FileSystem, contentsB: Contents, filesB: set<Path>, bytesB: Bytes)
    requires Stageable(fsA, contentsA, filesA) && Stageable(fsB, contentsB, filesB)
    requires IsPreimage(fsA, contentsA, filesA, bytesA) && IsPreimage(fsB, contentsB, filesB, bytesB)
    ensures bytesA == bytesB <==> Staged(fsA, contentsA, filesA) == Staged(fsB, contentsB, filesB)
  {
    hide ImportPath, Named, StagedAt, IsPreimage, Staged, ContentAt;
    var a, b := Staged(fsA, contentsA, filesA), Staged(fsB, contentsB, filesB);
    SameBytesIffSameContents(fsA, contentsA, filesA, bytesA, fsB, contentsB, filesB, bytesB);
    forall path
      ensures StagedAt(fsA, contentsA, filesA, path) == ContentAt(a, path) && (path in a ==> Named(path))
      ensures StagedAt(fsB, contentsB, filesB, path) == ContentAt(b, path) && (path in b ==> Named(path))
    {
      StagedOnce(fsA, contentsA, filesA, path);
      StagedNamed(fsA, contentsA, filesA, path);
      StagedOnce(fsB, contentsB, filesB, path);
      StagedNamed(fsB, contentsB, filesB, path);
    }
    SameMaps(a, b);
  }

  lemma SameMaps(a: map<Path, Bytes>, b: map<Path, Bytes>)
    requires forall path :: path in a || path in b ==> Named(path)
    ensures a == b <==> forall path :: Named(path) ==> ContentAt(a, path) == ContentAt(b, path)
  {
    hide Named;
    if forall path :: Named(path) ==> ContentAt(a, path) == ContentAt(b, path) {
      forall path | path in a || path in b ensures path in a && path in b && a[path] == b[path] {
        assert ContentAt(a, path) == ContentAt(b, path);
      }
    }
  }

  lemma StagedNamed(fs: FileSystem, contents: Contents, files: set<Path>, path: Path)
    requires Stageable(fs, contents, files)
    ensures path in Staged(fs, contents, files) ==> Named(path)
  {
    hide ImportPath, Named;
    if path in Staged(fs, contents, files) {
      var file :| file in files && ImportPath(fs, file) == path;
      ImportPathNamed(fs, file);
    }
  }

  /** There are such bytes for any files. */
  lemma PreimageExists(fs: FileSystem, contents: Contents, files: set<Path>) returns (bytes: Bytes)
    requires files <= contents.Keys
    ensures IsPreimage(fs, contents, files, bytes)
  {
    hide HashOrder, Stream, SortBy;
    var listed := Listed(files);
    var order := SortBy(listed, HashOrder(fs));
    HashOrderPreorder(fs);
    SortByAscending(listed, HashOrder(fs));
    SortByKeepsDistinct(listed, HashOrder(fs));
    InOrder(fs, files, order);
    bytes := Stream(EntriesOf(fs, contents, order));
  }

  lemma StagedBoth(fs: FileSystem, contents: Contents, here: Path, there: Path, path: Path)
    requires contents.Keys == fs.files == {here, there} && here != there && PathLe(here, there)
    requires ImportPath(fs, here) == ImportPath(fs, there) == path
    ensures StagedAt(fs, contents, fs.files, path) == [contents[here], contents[there]]
  {
    hide ImportPath, StagedAt, PathLe;
    var located := StagedLocated(fs, contents, fs.files, path);
    assert ToSet([here, there]) == fs.files;
    assert IsLocated(fs, fs.files, path, [here, there]);
    LocatedUnique(fs, fs.files, path, located, [here, there]);
  }

  /** Two files of one import path that swap their contents. */
  lemma SwappedBytesDiffer(
    fs: FileSystem, here: Path, there: Path, path: Path,
    contents: Contents, bytes: Bytes, swapped: Contents, swappedBytes: Bytes)
    requires contents.Keys == swapped.Keys == fs.files == {here, there} && here != there && PathLe(here, there)
    requires Named(here) && Named(there)
    requires ImportPath(fs, here) == ImportPath(fs, there) == path
    requires contents[here] == swapped[there] != contents[there] == swapped[here]
    requires IsPreimage(fs, contents, fs.files, bytes) && IsPreimage(fs, swapped, fs.files, swappedBytes)
    ensures bytes != swappedBytes
  {
    hide ImportPath, StagedAt, PathLe, Named, IsPreimage;
    SameBytesIffSameContents(fs, contents, fs.files, bytes, fs, swapped, fs.files, swappedBytes);
    StagedBoth(fs, contents, here, there, path);
    StagedBoth(fs, swapped, here, there, path);
    ImportPathNamed(fs, here);
    assert StagedAt(fs, contents, fs.files, path)[0] != StagedAt(fs, swapped, fs.files, path)[0];
  }

  /** Two scripts of one name, each at the root of its own sys.path entry: when
      they swap their contents, the same contents stage at the one import path,
      and the bytes are others. */
  lemma LocationsCount() returns (
      fs: FileSystem, here: Path, there: Path,
      contents: Contents, bytes: Bytes, swapped: Contents, swappedBytes: Bytes)
    ensures fs.Valid() && contents.Keys == swapped.Keys == fs.files == {here, there} && Named(here) && Named(there)
    ensures here != there && ImportPath(fs, here) == ImportPath(fs, there)
    ensures contents[here] == swapped[there] && contents[there] == swapped[here]
    ensures IsPreimage(fs, contents, fs.files, bytes) && IsPreimage(fs, swapped, fs.files, swappedBytes)
    ensures bytes != swappedBytes
  {
    hide IsPreimage;
    here, there := ["a", "run.py"], ["b", "run.py"];
    fs := FileSystem({here, there}, map[], map[]);
    contents, swapped := map[here := "1", there := "2"], map[here := "2", there := "1"];
    assert contents.Keys == fs.files && swapped.Keys == fs.files;
    RootFile(fs, "a", "run.py");
    RootFile(fs, "b", "run.py");
    bytes := PreimageExists(fs, contents, fs.files);
    swappedBytes := PreimageExists(fs, swapped, fs.files);
    SwappedBytesDiffer(fs, here, there, ["run.py"], contents, bytes, swapped, swappedBytes);
  }

  lemma RootFile(fs: FileSystem, directory: string, name: string)
    requires [directory, "__init__.py"] !in fs.files
    ensures ImportPath(fs, [directory, name]) == [name]
  {
    assert Parent([directory, name]) == [directory];
    assert [directory] + ["__init__.py"] == [directory, "__init__.py"];
    assert SysPathRoot(fs, [directory]) == [directory];
  }
}

/**
  The relocator: category directories, collision-free target names, and the
  move of one file into its category directory. The filesystem is an
  abstract state: the regular files (with their sizes) and the directories
  that exist.
*/
module FileManager {
  import opened Wrappers
  import opened Paths

  datatype FsError =
    | NoSuchDirectory   // os.makedirs('') raises FileNotFoundError
    | NotADirectory     // a regular file already sits where the category directory goes
    | SourceMissing     // shutil.move finds no file to move

  /** `base_k.ext` for the name `base.ext` (splitext semantics). */
  function Suffixed(name: string, k: nat): string {
    var (root, ext) := SplitExt(name);
    root + "_" + Decimal(k) + ext
  }

  /** The k-th candidate tried for a path that already exists: same directory, counter before the extension. */
  function Candidate(p: Path, k: nat): Path {
    Join(Dirname(p), Suffixed(Basename(p), k))
  }

  lemma SuffixedHasNoSeparator(name: string, k: nat)
    requires SEP !in name
    ensures SEP !in Suffixed(name, k)
  {
    var (root, ext) := SplitExt(name);
    assert root + ext == name;
    assert forall c :: c in root + ext ==> c in name;
    var d := Decimal(k);
    assert SEP !in d by {
      forall i | 0 <= i < |d| ensures d[i] != SEP {
        assert IsDigit(d[i]);
      }
    }
  }

  /** Suffixing a name that has an extension: the counter lands just before it. */
  lemma SuffixedSplitExtWithExt(name: string, k: nat)
    requires SEP !in name && SplitExt(name).1 != []
    ensures SplitExt(Suffixed(name, k)) == (SplitExt(name).0 + "_" + Decimal(k), SplitExt(name).1)
  {
    var (root, ext) := SplitExt(name);
    var d := Decimal(k);
    var pre := root + "_" + d;
    var n := pre + ext;
    SuffixedHasNoSeparator(name, k);
    assert n == Suffixed(name, k);
    RFindIs(n, SEP, -1);
    var i := |pre|;
    assert n[i] == EXTSEP;
    forall j | i < j < |n| ensures n[j] != EXTSEP {
      assert n[j] == ext[1..][j - i - 1];
    }
    RFindIs(n, EXTSEP, i);
    assert n[..i] == pre;
    assert pre[|root|] == '_';
    assert HasNonDot(n[0..i]);
    assert n[i..] == ext;
  }

  /** The counter text added by suffixing holds neither a dot nor a separator. */
  lemma CounterTailPlain(k: nat)
    ensures EXTSEP !in "_" + Decimal(k) && SEP !in "_" + Decimal(k)
  {
    var d := Decimal(k);
    forall i | 0 <= i < |d| ensures d[i] != EXTSEP && d[i] != SEP {
      assert IsDigit(d[i]);
    }
  }

  /** Suffixing a name without an extension: the counter goes at the end and no extension appears. */
  lemma SuffixedSplitExtNoExt(name: string, k: nat)
    requires SEP !in name && SplitExt(name).1 == []
    ensures SplitExt(Suffixed(name, k)) == (name + "_" + Decimal(k), [])
  {
    var tail := "_" + Decimal(k);
    var n := name + tail;
    assert n == Suffixed(name, k);
    CounterTailPlain(k);
    RFindAppend(name, tail, SEP);
    RFindAppend(name, tail, EXTSEP);
    var sep := RFind(name, SEP);
    var dot := RFind(name, EXTSEP);
    assert RFind(n, SEP) == sep && RFind(n, EXTSEP) == dot;
    if dot > sep {
      assert !HasNonDot(name[sep + 1..dot]);
      assert n[sep + 1..dot] == name[sep + 1..dot];
    }
    assert SplitExt(n) == (n, []);
    assert name + "_" + Decimal(k) == n;
  }

  /** The counter goes between the root and the extension; the extension itself is unchanged. */
  lemma SuffixedSplitExt(name: string, k: nat)
    requires SEP !in name
    ensures SplitExt(Suffixed(name, k)) == (SplitExt(name).0 + "_" + Decimal(k), SplitExt(name).1)
  {
    if SplitExt(name).1 != [] {
      SuffixedSplitExtWithExt(name, k);
    } else {
      SuffixedSplitExtNoExt(name, k);
    }
  }

  /** Different counters give different names. */
  lemma SuffixedInjective(name: string, j: nat, k: nat)
    requires Suffixed(name, j) == Suffixed(name, k)
    ensures j == k
  {
    var (root, ext) := SplitExt(name);
    var a := root + "_";
    var dj, dk := Decimal(j), Decimal(k);
    var s := Suffixed(name, j);
    assert s == a + dj + ext && s == a + dk + ext;
    assert |dj| == |dk|;
    assert dj == s[|a|..|a| + |dj|];
    assert dk == s[|a|..|a| + |dk|];
    DecimalInjective(j, k);
  }

  /** The file-name part of a candidate is the suffixed name. */
  lemma CandidateBasename(p: Path, k: nat)
    ensures Basename(Candidate(p, k)) == Suffixed(Basename(p), k)
  {
    SuffixedHasNoSeparator(Basename(p), k);
    JoinBasename(Dirname(p), Suffixed(Basename(p), k));
  }

  /** A candidate stays in the directory of the original path. */
  lemma CandidateDirectory(p: Path, k: nat)
    ensures Dirname(Candidate(p, k)) == Dirname(p)
  {
    SuffixedHasNoSeparator(Basename(p), k);
    JoinDirname(Dirname(p), Suffixed(Basename(p), k));
  }

  /** A candidate keeps the extension of the original path. */
  lemma CandidateExtension(p: Path, k: nat)
    ensures SplitExt(Basename(Candidate(p, k))).1 == SplitExt(Basename(p)).1
  {
    CandidateBasename(p, k);
    SuffixedSplitExt(Basename(p), k);
  }

  /** Distinct counters name distinct paths. */
  lemma CandidateInjective(p: Path, j: nat, k: nat)
    requires Candidate(p, j) == Candidate(p, k)
    ensures j == k
  {
    CandidateBasename(p, j);
    CandidateBasename(p, k);
    SuffixedInjective(Basename(p), j, k);
  }

  /** No candidate is the original path. */
  lemma CandidateDiffers(p: Path, k: nat)
    ensures Candidate(p, k) != p
  {
    CandidateBasename(p, k);
    var (root, ext) := SplitExt(Basename(p));
    assert |Suffixed(Basename(p), k)| > |root + ext|;
  }

  /** The names the counter loop tries, indexed by the counter. */
  type Names = nat -> Path

  /** The candidate names for a path that already exists. */
  function CandidateNames(p: Path): Names {
    (k: nat) => Candidate(p, k)
  }

  /** Names that never repeat and never give back the original path. */
  ghost predicate FreshNames(p: Path, names: Names) {
    && (forall j: nat, k: nat :: names(j) == names(k) ==> j == k)
    && (forall k: nat :: names(k) != p)
  }

  lemma CandidateNamesFresh(p: Path)
    ensures FreshNames(p, CandidateNames(p))
  {
    forall j: nat, k: nat | Candidate(p, j) == Candidate(p, k)
      ensures j == k
    {
      CandidateInjective(p, j, k);
    }
    forall k: nat
      ensures Candidate(p, k) != p
    {
      CandidateDiffers(p, k);
    }
  }

  /** Every name before the k-th already exists. */
  ghost predicate TakenBelow(existing: set<Path>, names: Names, k: nat) {
    forall j: nat :: 1 <= j < k ==> names(j) in existing
  }

  /** k is the smallest counter (from 1) whose name is free. */
  ghost predicate FirstFree(existing: set<Path>, names: Names, k: nat) {
    && k >= 1
    && names(k) !in existing
    && TakenBelow(existing, names, k)
  }

  /** What handle_duplicate_filename returns: the path itself when free, otherwise
      the candidate with the smallest free counter. */
  ghost predicate ResolvesCollision(existing: set<Path>, p: Path, r: Path) {
    if p !in existing then r == p
    else exists k: nat :: FirstFree(existing, CandidateNames(p), k) && r == Candidate(p, k)
  }

  /** r is p itself or one of its counter-suffixed candidates. */
  ghost predicate NamedAfter(p: Path, r: Path) {
    r == p || exists k: nat :: k >= 1 && r == Candidate(p, k)
  }

  /** Whatever the existing paths were, a resolved path is named after the requested one. */
  lemma ResolutionIsNamedAfter(existing: set<Path>, p: Path, r: Path)
    requires ResolvesCollision(existing, p, r)
    ensures NamedAfter(p, r)
  {
    if p in existing {
      var k: nat :| FirstFree(existing, CandidateNames(p), k) && r == Candidate(p, k);
      assert k >= 1;
    }
  }

  /** The resolution is determined by the set of existing paths and the path. */
  lemma ResolutionIsUnique(existing: set<Path>, p: Path, r1: Path, r2: Path)
    requires ResolvesCollision(existing, p, r1) && ResolvesCollision(existing, p, r2)
    ensures r1 == r2
  {
    if p in existing {
      var names := CandidateNames(p);
      var k1: nat :| FirstFree(existing, names, k1) && r1 == Candidate(p, k1);
      var k2: nat :| FirstFree(existing, names, k2) && r2 == Candidate(p, k2);
      assert k1 < k2 ==> names(k1) in existing;
      assert k2 < k1 ==> names(k2) in existing;
    }
  }

  /** With fresh names, the first name is free beside the path alone, and the
      second is free once the first is taken too. */
  lemma FirstTwoFree(p: Path, names: Names)
    requires FreshNames(p, names)
    ensures FirstFree({p}, names, 1)
    ensures FirstFree({p, names(1)}, names, 2)
  {
    assert names(1) != p && names(2) != p;
    assert names(2) != names(1);
  }

  /** When only the path exists the result carries counter 1, as `a.pdf` becomes
      `a_1.pdf`; when that one exists too the result carries counter 2. */
  lemma FirstCollisionsCountFromOne(p: Path)
    ensures ResolvesCollision({p}, p, Candidate(p, 1))
    ensures ResolvesCollision({p, Candidate(p, 1)}, p, Candidate(p, 2))
  {
    var names := CandidateNames(p);
    CandidateNamesFresh(p);
    FirstTwoFree(p, names);
    assert names(1) == Candidate(p, 1) && names(2) == Candidate(p, 2);
  }

  /** A resolved path is free, and when it had to move away from the original it keeps
      the original's directory and extension. */
  lemma ResolutionKeepsDirectoryAndExtension(existing: set<Path>, p: Path, r: Path)
    requires ResolvesCollision(existing, p, r)
    ensures r !in existing
    ensures Dirname(r) == Dirname(p)
    ensures SplitExt(Basename(r)).1 == SplitExt(Basename(p)).1
  {
    if p in existing {
      var k: nat :| FirstFree(existing, CandidateNames(p), k) && r == Candidate(p, k);
      CandidateDirectory(p, k);
      CandidateExtension(p, k);
    }
  }

  /** Every path in `visited` is the original or one of the names before the (c-1)-th. */
  ghost predicate TriedBefore(p: Path, names: Names, visited: set<Path>, c: nat) {
    forall x :: x in visited ==> x == p || exists j: nat :: 1 <= j < c - 1 && x == names(j)
  }

  /** The loop state of handle_duplicate_filename after c - 1 turns: `r` is the path
      about to be tested, every path tested before it exists, and `visited` holds them. */
  ghost predicate Searching(existing: set<Path>, p: Path, names: Names, visited: set<Path>, r: Path, c: nat) {
    && c >= 1
    && r == (if c == 1 then p else names(c - 1))
    && TriedBefore(p, names, visited, c)
    && TakenBelow(existing, names, c - 1)
    && visited <= existing && r !in visited
    && |visited| == c - 1
  }

  /** One turn of the loop keeps the state and shrinks the untested part of `existing`. */
  lemma SearchStep(existing: set<Path>, p: Path, names: Names, visited: set<Path>, r: Path, c: nat)
    requires FreshNames(p, names)
    requires Searching(existing, p, names, visited, r, c) && r in existing
    ensures Searching(existing, p, names, visited + {r}, names(c), c + 1)
    ensures existing - (visited + {r}) < existing - visited
  {
    forall x | x in visited + {r}
      ensures x != names(c)
      ensures x == p || exists j: nat :: 1 <= j < c && x == names(j)
    {
      if x != p && x != r {
        var j: nat :| 1 <= j < c - 1 && x == names(j);
        assert 1 <= j < c;
      } else if x == r && c > 1 {
        assert 1 <= c - 1 < c;
      }
    }
    assert r in existing - visited;
  }

  lemma SubsetCardinality<T>(a: set<T>, b: set<T>)
    requires a <= b
    ensures |a| <= |b|
  {
    assert b == a + (b - a);
  }

  /** When the loop stops, the path reached carries the first free counter, and that
      counter is at most the number of existing paths, since that many distinct paths
      were tested. */
  lemma SearchDone(existing: set<Path>, p: Path, names: Names, visited: set<Path>, r: Path, c: nat)
    requires Searching(existing, p, names, visited, r, c) && r !in existing && p in existing
    ensures c > 1 && r == names(c - 1)
    ensures FirstFree(existing, names, c - 1) && c - 1 <= |existing|
  {
    SubsetCardinality(visited, existing);
  }

  /** handle_duplicate_filename over a finite set of existing paths. */
  method HandleDuplicateFilename(existing: set<Path>, targetPath: Path) returns (r: Path)
    ensures r !in existing
    ensures ResolvesCollision(existing, targetPath, r)
    ensures targetPath in existing ==>
      exists k: nat :: 1 <= k <= |existing| && FirstFree(existing, CandidateNames(targetPath), k)
        && r == Candidate(targetPath, k)
  {
    if targetPath !in existing {
      return targetPath;
    }
    ghost var names := CandidateNames(targetPath);
    CandidateNamesFresh(targetPath);
    r := targetPath;
    var counter: nat := 1;
    ghost var visited: set<Path> := {};
    while r in existing
      invariant Searching(existing, targetPath, names, visited, r, counter)
      decreases |existing - visited|
    {
      SearchStep(existing, targetPath, names, visited, r, counter);
      visited := visited + {r};
      r := Candidate(targetPath, counter);
      counter := counter + 1;
    }
    SearchDone(existing, targetPath, names, visited, r, counter);
  }

  /** Moving one entry of a map to a fresh key keeps the number of entries. */
  lemma MoveKeepsCount<V>(m: map<Path, V>, from: Path, to: Path, v: V)
    requires from in m && to !in m
    ensures |(m - {from})[to := v]| == |m|
  {
    var m' := m - {from};
    assert m'.Keys == m.Keys - {from};
    assert |m'.Keys| == |m.Keys| - 1;
    assert (m'[to := v]).Keys == m'.Keys + {to};
  }

  /** The filesystem as the relocator sees it. */
  class FileSystem {
    var files: map<Path, nat>   // regular files and their sizes
    var dirs: set<Path>

    ghost predicate Valid()
      reads this
    {
      files.Keys !! dirs
    }

    /** Everything os.path.exists reports. */
    function Existing(): set<Path>
      reads this
    {
      files.Keys + dirs
    }

    constructor (files: map<Path, nat>, dirs: set<Path>)
      requires files.Keys !! dirs
      ensures Valid() && this.files == files && this.dirs == dirs
    {
      this.files := files;
      this.dirs := dirs;
    }

    /** create_category_directory: join(target_dir, category), created if missing
        (exist_ok, so a second call changes nothing). */
    method CreateCategoryDirectory(targetDir: Path, category: string) returns (r: Result<Path, FsError>)
      requires Valid()
      modifies this`dirs
      ensures Valid()
      ensures Join(targetDir, category) == [] ==> r == Failure(NoSuchDirectory) && dirs == old(dirs)
      ensures Join(targetDir, category) != [] && Join(targetDir, category) in files ==>
        r == Failure(NotADirectory) && dirs == old(dirs)
      ensures r.Success? <==> Join(targetDir, category) != [] && Join(targetDir, category) !in files
      ensures r.Success? ==> r.value == Join(targetDir, category) && dirs == old(dirs) + {r.value}
    {
      var categoryDir := Join(targetDir, category);
      if categoryDir == [] {
        return Failure(NoSuchDirectory);
      }
      if categoryDir in files {
        return Failure(NotADirectory);
      }
      dirs := dirs + {categoryDir};
      return Success(categoryDir);
    }

    /** shutil.move onto a path that does not exist: the entry changes its name and
        keeps its size; a missing source fails and changes nothing. */
    method Move(source: Path, target: Path) returns (r: Result<Path, FsError>)
      requires Valid() && target !in Existing()
      modifies this`files
      ensures Valid()
      ensures source !in old(files) ==> r == Failure(SourceMissing) && files == old(files)
      ensures source in old(files) ==>
        && r == Success(target)
        && files == (old(files) - {source})[target := old(files)[source]]
      ensures |files| == |old(files)|
      ensures forall f :: f in old(files) && f != source ==> f in files && files[f] == old(files)[f]
    {
      if source !in files {
        return Failure(SourceMissing);
      }
      var size := files[source];
      MoveKeepsCount(files, source, target, size);
      files := (files - {source})[target := size];
      return Success(target);
    }

    /** move_file_to_category: the file lands in join(target_dir, category) under its own name
        or the first free counter-suffixed variant; it never replaces an existing path. */
    method MoveFileToCategory(filePath: Path, targetDir: Path, category: string)
      returns (r: Result<Path, FsError>)
      requires Valid()
      modifies this
      ensures Valid()
      ensures |files| == |old(files)|
      ensures forall f :: f in old(files) && f != filePath ==> f in files && files[f] == old(files)[f]
      ensures old(dirs) <= dirs
      ensures var dir := Join(targetDir, category);
        r.Success? <==> dir != [] && dir !in old(files) && filePath in old(files)
      ensures r.Failure? ==> files == old(files)
      ensures var dir := Join(targetDir, category);
        r.Failure? ==> dirs == (if dir == [] || dir in old(files) then old(dirs) else old(dirs) + {dir})
      ensures r.Success? ==>
        var dir := Join(targetDir, category);
        && r.value !in old(Existing())
        && ResolvesCollision(old(Existing()) + {dir}, Join(dir, Basename(filePath)), r.value)
        && files == (old(files) - {filePath})[r.value := old(files)[filePath]]
        && dirs == old(dirs) + {dir}
    {
      var filename := Basename(filePath);
      var made := CreateCategoryDirectory(targetDir, category);
      if made.Failure? {
        return made;
      }
      var categoryDir := made.value;
      ghost var existing := Existing();
      assert existing == old(Existing()) + {categoryDir};
      var targetPath := Join(categoryDir, filename);
      targetPath := HandleDuplicateFilename(Existing(), targetPath);
      r := Move(filePath, targetPath);
    }
  }
}

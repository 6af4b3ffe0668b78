/**
 * The filesystem the scripts work on: a set of directory paths and a map from
 * file path to content. A path is the list of its components, so
 * `os.path.join(root, name)` is `root + [name]`.
 */
module Files {

  type Path = seq<string>

  datatype Snapshot = Snapshot(dirs: set<Path>, files: map<Path, string>)

  /** `os.path.exists(p)`. */
  predicate Exists(s: Snapshot, p: Path)
  {
    p in s.dirs || p in s.files
  }

  /** `p` is `root` itself or lies below it. */
  predicate Within(root: Path, p: Path)
  {
    |root| <= |p| && p[..|root|] == root
  }

  /** `p` lies below `root + [n]` for some `n` in `names`. */
  predicate BelowAny(root: Path, names: set<string>, p: Path)
  {
    |p| > |root| && p[..|root|] == root && p[|root|] in names
  }

  /** Every entry's parent is a directory: the shape of a real directory tree. */
  ghost predicate Tree(s: Snapshot)
  {
    && (forall p :: p in s.dirs && |p| > 1 ==> p[..|p| - 1] in s.dirs)
    && (forall p :: p in s.files && |p| > 1 ==> p[..|p| - 1] in s.dirs)
  }

  /** `listing` is what `os.listdir(root)` returns in `s`: existing children, and every child directory. */
  ghost predicate Lists(s: Snapshot, root: Path, listing: seq<string>)
  {
    && (forall i :: 0 <= i < |listing| ==> Exists(s, root + [listing[i]]))
    && (forall p :: p in s.dirs && |p| == |root| + 1 && p[..|root|] == root ==> p[|root|] in listing)
  }

  /** `os.makedirs(p, exist_ok=True)`: `p` and all its ancestors become directories. */
  function MadeDirs(s: Snapshot, p: Path): (r: Snapshot)
    ensures r.files == s.files
    ensures forall q :: q in r.dirs <==> q in s.dirs || (0 < |q| <= |p| && q == p[..|q|])
  {
    Snapshot(s.dirs + set k | 1 <= k <= |p| :: p[..k], s.files)
  }

  /** `open(p, 'w').write(text)`: the file at `p` holds exactly `text`. */
  function Written(s: Snapshot, p: Path, text: string): Snapshot
  {
    Snapshot(s.dirs, s.files[p := text])
  }

  /** Making directories under one top-level entry leaves paths under another as they were. */
  lemma MadeDirsElsewhere(s: Snapshot, made: Path, p: Path)
    requires made != [] && p != [] && p[0] != made[0]
    ensures var r := MadeDirs(s, made);
            (p in r.dirs <==> p in s.dirs) && (p in r.files <==> p in s.files)
  {
    forall k | 1 <= k <= |made| ensures p != made[..k] {
      assert made[..k][0] == made[0];
    }
  }

  /** `shutil.rmtree(p)`: `p` and everything below it are gone. */
  function Removed(s: Snapshot, p: Path): (r: Snapshot)
    ensures forall q :: q in r.dirs <==> q in s.dirs && !Within(p, q)
    ensures forall q :: q in r.files <==> q in s.files && !Within(p, q)
    ensures forall q :: q in r.files ==> r.files[q] == s.files[q]
  {
    Snapshot(set q | q in s.dirs && !Within(p, q),
             map q | q in s.files && !Within(p, q) :: s.files[q])
  }

  /** The state after removing the subtree `root + [n]` of every `n` in `names`. */
  function Pruned(s: Snapshot, root: Path, names: set<string>): (r: Snapshot)
    ensures forall q :: q in r.dirs <==> q in s.dirs && !BelowAny(root, names, q)
    ensures forall q :: q in r.files <==> q in s.files && !BelowAny(root, names, q)
    ensures forall q :: q in r.files ==> r.files[q] == s.files[q]
  {
    Snapshot(set q | q in s.dirs && !BelowAny(root, names, q),
             map q | q in s.files && !BelowAny(root, names, q) :: s.files[q])
  }

  lemma PrunedNothing(s: Snapshot, root: Path)
    ensures Pruned(s, root, {}) == s
  {
    assert Pruned(s, root, {}).dirs == s.dirs;
    assert Pruned(s, root, {}).files == s.files;
  }

  /** Removing the subtrees one name at a time is removing them all at once. */
  lemma PrunedStep(s: Snapshot, root: Path, names: set<string>, n: string)
    ensures Removed(Pruned(s, root, names), root + [n]) == Pruned(s, root, names + {n})
  {
    var a := Removed(Pruned(s, root, names), root + [n]);
    var b := Pruned(s, root, names + {n});
    forall q ensures Within(root + [n], q) <==> BelowAny(root, {n}, q) {
      if Within(root + [n], q) {
        assert q[..|root|] == (root + [n])[..|root|];
        assert q[|root|] == (root + [n])[|root|];
      }
      if BelowAny(root, {n}, q) {
        assert q[..|root| + 1] == q[..|root|] + [q[|root|]];
      }
    }
    assert a.dirs == b.dirs;
    assert a.files == b.files;
  }

  /**
   * `{name for name in os.listdir(root) if os.path.isdir(os.path.join(root, name))}`,
   * or the empty set when `root` does not exist.
   */
  function ListDirectories(s: Snapshot, root: Path, listing: seq<string>): (r: set<string>)
    ensures !Exists(s, root) ==> r == {}
    ensures forall n :: n in r ==> n in listing && root + [n] in s.dirs
  {
    if !Exists(s, root) then {} else set n | n in listing && root + [n] in s.dirs
  }

  /** With a true listing of an existing root, the enumerator yields exactly the child directories. */
  lemma ListDirectoriesExact(s: Snapshot, root: Path, listing: seq<string>)
    requires root != []
    requires Lists(s, root, listing)
    requires Tree(s)
    ensures forall n :: n in ListDirectories(s, root, listing) <==> root + [n] in s.dirs
  {
    forall n | root + [n] in s.dirs ensures n in ListDirectories(s, root, listing) {
      var p := root + [n];
      assert p[..|root|] == root;
      assert p[|root|] == n;
      assert p[..|p| - 1] == root;
      assert root in s.dirs;
    }
  }

  /** The filesystem the scripts run against. */
  class FileSystem {
    var dirs: set<Path>
    var files: map<Path, string>

    function State(): Snapshot
      reads this
    {
      Snapshot(dirs, files)
    }

    constructor (s: Snapshot)
      ensures State() == s
    {
      dirs := s.dirs;
      files := s.files;
    }

    /** `os.makedirs(p, exist_ok=True)`. */
    method MakeDirs(p: Path)
      modifies this
      ensures State() == MadeDirs(old(State()), p)
    {
      dirs := dirs + set k | 1 <= k <= |p| :: p[..k];
    }

    /** Open `p` for writing and write `text`. */
    method WriteFile(p: Path, text: string)
      modifies this
      ensures State() == Written(old(State()), p, text)
    {
      files := files[p := text];
    }

    /** `shutil.rmtree(p)` on an existing directory. */
    method RemoveTree(p: Path)
      requires p in dirs
      modifies this
      ensures State() == Removed(old(State()), p)
    {
      dirs := set q | q in dirs && !Within(p, q);
      files := map q | q in files && !Within(p, q) :: files[q];
    }
  }
}

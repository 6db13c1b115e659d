/** The directory tree the scanner walks and the delete sweep clears. Each
    directory carries its own full path, the full paths of its files and its
    subdirectories, in the order the file system lists them. */
module FileTree {

  datatype Tree = Dir(path: string, files: seq<string>, subdirs: seq<Tree>)

  /** Every file path in the tree, counted with multiplicity. */
  function FileBag(t: Tree): multiset<string>
    decreases t
  {
    multiset(t.files) + ForestFileBag(t.subdirs)
  }

  function ForestFileBag(ts: seq<Tree>): multiset<string>
    decreases ts
  {
    if |ts| == 0 then multiset{} else FileBag(ts[0]) + ForestFileBag(ts[1..])
  }

  /** Every directory path strictly below the root, counted with multiplicity. */
  function DirBag(t: Tree): multiset<string>
    decreases t
  {
    ForestDirBag(t.subdirs)
  }

  function ForestDirBag(ts: seq<Tree>): multiset<string>
    decreases ts
  {
    if |ts| == 0 then multiset{} else multiset{ts[0].path} + DirBag(ts[0]) + ForestDirBag(ts[1..])
  }

  /** No path names two entries of the tree: what a real file system guarantees. */
  ghost predicate UniquePaths(t: Tree) {
    forall p :: (multiset{t.path} + DirBag(t) + FileBag(t))[p] <= 1
  }

  /** What the file system holds at a path: nothing (`Directory.Exists` is
      false), or the directory tree rooted there. */
  datatype Lookup = Missing | Found(tree: Tree)

  /** `fs` is what the file system shows at `path`. `Directory.Exists("")` is
      false, so an existing directory never has the empty path. */
  predicate Locates(fs: Lookup, path: string) {
    fs.Found? ==> fs.tree.path == path && |path| > 0
  }

  /** `route` names a directory at some depth below `t`: one subdirectory
      index per level, from `t` downwards. */
  predicate IsRoute(t: Tree, route: seq<nat>)
    decreases |route|
  {
    |route| == 0 || (route[0] < |t.subdirs| && IsRoute(t.subdirs[route[0]], route[1..]))
  }

  /** The directory `route` leads to. */
  function Follow(t: Tree, route: seq<nat>): Tree
    requires IsRoute(t, route)
    decreases |route|
  {
    if |route| == 0 then t else Follow(t.subdirs[route[0]], route[1..])
  }

  /** A directory reached along a route lies inside the tree: its files are
      files of the tree and, below the root, it and its subdirectories are
      directories of the tree. */
  lemma {:induction false} FollowWithin(t: Tree, route: seq<nat>)
    requires IsRoute(t, route)
    ensures FileBag(Follow(t, route)) <= FileBag(t)
    ensures |route| > 0 ==> multiset{Follow(t, route).path} + DirBag(Follow(t, route)) <= DirBag(t)
    decreases |route|
  {
    if |route| > 0 {
      var c := t.subdirs[route[0]];
      FollowWithin(c, route[1..]);
      MemberBagsWithinForest(t.subdirs, route[0]);
      assert Follow(t, route) == Follow(c, route[1..]);
    }
  }

  /** A directory with neither files nor subdirectories. */
  predicate IsEmptyDirectory(t: Tree) {
    |t.files| == 0 && |t.subdirs| == 0
  }

  /** The entries of one subdirectory are part of its parent's forest. */
  lemma {:induction false} MemberBagsWithinForest(ts: seq<Tree>, k: nat)
    requires k < |ts|
    ensures FileBag(ts[k]) <= ForestFileBag(ts)
    ensures multiset{ts[k].path} + DirBag(ts[k]) <= ForestDirBag(ts)
    decreases k
  {
    if k > 0 {
      MemberBagsWithinForest(ts[1..], k - 1);
      assert ts[1..][k - 1] == ts[k];
    }
  }

  /** The files of two forests side by side are the files of each. */
  lemma {:induction false} ForestFileBagAppend(a: seq<Tree>, b: seq<Tree>)
    ensures ForestFileBag(a + b) == ForestFileBag(a) + ForestFileBag(b)
    decreases |a|
  {
    if |a| == 0 {
      assert a + b == b;
    } else {
      var ab := a + b;
      assert ab[0] == a[0] && ab[1..] == a[1..] + b;
      ForestFileBagAppend(a[1..], b);
      assert ForestFileBag(ab) == FileBag(a[0]) + ForestFileBag(a[1..] + b);
    }
  }

  /** The directories of two forests side by side are the directories of each. */
  lemma {:induction false} ForestDirBagAppend(a: seq<Tree>, b: seq<Tree>)
    ensures ForestDirBag(a + b) == ForestDirBag(a) + ForestDirBag(b)
    decreases |a|
  {
    if |a| == 0 {
      assert a + b == b;
    } else {
      var ab := a + b;
      assert ab[0] == a[0] && ab[1..] == a[1..] + b;
      ForestDirBagAppend(a[1..], b);
      assert ForestDirBag(ab) == multiset{a[0].path} + DirBag(a[0]) + ForestDirBag(a[1..] + b);
    }
  }
}

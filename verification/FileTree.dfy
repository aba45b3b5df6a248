/**
The part of a POSIX file system that workspace snapshots use: directory trees
of named nodes over a shared heap of inodes, and the effect of each system call
as a function on such a tree.
*/
module FileTree {
  import opened Order

  /** A path relative to the root of a tree, one name per component. */
  type Path = seq<string>

  const META: Path := [".hwr_snapshot_meta"]

  newtype Byte = x: int | 0 <= x < 256

  /** `Special` stands for sockets, pipes and devices. */
  datatype Node = Dir | Link(target: string) | File(ino: nat) | Special

  /** The root directory itself is implicit and has no entry. */
  type Tree = map<Path, Node>

  datatype Blob = Blob(content: seq<Byte>, mtime: int)

  datatype Root = Workspace(host: string) | SnapDir(id: string)

  /** `next` is an inode number that no file has used yet. */
  datatype Disk = Disk(roots: map<Root, Tree>, heap: map<nat, Blob>, next: nat) {
    function Tree(r: Root): Tree {
      if r in roots then roots[r] else map[]
    }

    function Put(r: Root, t: Tree): Disk {
      this.(roots := roots[r := t])
    }
  }

  /** The data of an inode; every inode of a valid disk has some. */
  function BlobOf(heap: map<nat, Blob>, i: nat): Blob {
    if i in heap then heap[i] else Blob([], 0)
  }

  /** What a stat call that follows the symbolic link at a path reports. */
  datatype Stat = Missing | Directory | Regular(size: nat, mtime: int) | Other

  /**
  What a run meets besides the trees: at which paths a system call fails, which
  existing paths cannot be unlinked, and, in `followed`, what stat reports through
  the destination link at a path when the run comes to it. By then the run may have
  changed what the link leads to; `LinkTargets` tells these answers from the trees before.
  */
  datatype Env = Env(followed: map<Path, Stat>, faulty: set<Path>, stuck: set<Path>) {
    function StatThrough(p: Path): Stat {
      if p in followed then followed[p] else Missing
    }
  }

  /** `LeftTree`: the run would continue on the far side of a destination link. */
  datatype Outcome = Done | Failed | LeftTree

  // Paths

  predicate Above(a: Path, p: Path) {
    0 < |a| < |p| && p[..|a|] == a
  }

  function Parent(p: Path): Path {
    if p == [] then [] else p[..|p| - 1]
  }

  function AllAbove(p: Path): (r: set<Path>)
    ensures forall a :: a in r <==> Above(a, p)
  {
    var r := set k | 0 < k < |p| :: p[..k];
    assert forall a :: Above(a, p) ==> a == p[..|a|] && a in r;
    r
  }

  lemma AboveLinear(a: Path, b: Path, c: Path)
    requires Above(a, c) && Above(b, c)
    ensures a == b || Above(a, b) || Above(b, a)
  {
  }

  /** The order in which filepath.Walk visits a tree: siblings by name, parents first. */
  predicate PathLess(a: Path, b: Path) { LexLess(StrLess, a, b) }

  lemma PathLessStrictTotal()
    ensures StrictTotal(PathLess)
  {
    StrLessStrictTotal();
    LexStrictTotal(StrLess, PathLess);
  }

  lemma {:induction false} AboveIsLess(a: Path, p: Path)
    requires |a| < |p| && p[..|a|] == a
    ensures PathLess(a, p)
  {
    if a != [] {
      assert a[0] == p[0] && p[1..][..|a| - 1] == a[1..];
      AboveIsLess(a[1..], p[1..]);
    }
  }

  ghost function Walk(t: Tree): (r: seq<Path>)
    ensures forall p :: p in r <==> p in t
  {
    PathLessStrictTotal();
    Listing(PathLess, t.Keys)
  }

  lemma WalkAscends(t: Tree)
    ensures Ascending(PathLess, Walk(t))
  {
    PathLessStrictTotal();
    ListingAscends(PathLess, t.Keys);
  }

  // Well-formed trees and disks

  ghost predicate WellFormed(t: Tree) {
    && [] !in t
    && forall a, p {:trigger Above(a, p)} :: p in t && Above(a, p) ==> a in t && t[a].Dir?
  }

  ghost predicate InodesIn(t: Tree, heap: map<nat, Blob>) {
    forall p :: p in t && t[p].File? ==> t[p].ino in heap
  }

  ghost predicate Valid(d: Disk) {
    && (forall r :: r in d.roots ==> WellFormed(d.roots[r]) && InodesIn(d.roots[r], d.heap))
    && (forall i :: i in d.heap ==> i < d.next)
  }

  // System calls on one tree

  datatype Way = Clear | ThroughLink | Obstructed

  /** What lies on the way to `p`: only directories, a link, or something else. */
  function WayTo(t: Tree, p: Path): Way {
    if exists a :: a in AllAbove(p) && a in t && t[a].Link? then ThroughLink
    else if exists a :: a in AllAbove(p) && a in t && !t[a].Dir? then Obstructed
    else Clear
  }

  function AddDirs(t: Tree, dirs: set<Path>): Tree {
    t + (map a | a in dirs && a !in t :: Dir)
  }

  /** os.MkdirAll, when the way to `p` is clear. */
  function MkdirAll(t: Tree, p: Path, env: Env): (Tree, Outcome) {
    if p in t then
      (t, if t[p].Dir? || (t[p].Link? && env.StatThrough(p) == Directory) then Done else Failed)
    else
      (AddDirs(t, AllAbove(p) + {p}), Done)
  }

  /** os.RemoveAll: the path and everything below it. */
  function RemoveAll(t: Tree, p: Path): Tree {
    map q | q in t && q != p && !Above(p, q) :: t[q]
  }

  /** The ignored RemoveAll followed by os.Symlink. */
  function PlaceLink(t: Tree, p: Path, target: string, env: Env): (Tree, Outcome) {
    if p in t && p in env.stuck then (t, Failed)
    else
      var cleared := RemoveAll(t, p);
      if |p| > 1 && Parent(p) !in cleared then (cleared, Failed)
      else (cleared[p := Link(target)], Done)
  }

  /** MkdirAll of the parent, the ignored RemoveAll, then os.Link to an existing inode. */
  function PlaceHardLink(t: Tree, p: Path, ino: nat, env: Env): (Tree, Outcome) {
    var ready := AddDirs(t, AllAbove(p));
    if p in t && p in env.stuck then (ready, Failed)
    else (RemoveAll(ready, p)[p := File(ino)], Done)
  }

  /** os.Remove: refuses a directory that still has entries, ignores a missing path. */
  function RemoveOne(t: Tree, p: Path, env: Env): (Tree, Outcome) {
    if p !in t then (t, Done)
    else if p in env.faulty || (t[p].Dir? && exists q :: q in t && Above(p, q)) then (t, Failed)
    else (t - {p}, Done)
  }

  // How the calls keep trees well-formed

  lemma AddDirsKeeps(t: Tree, p: Path, dirs: set<Path>)
    requires WellFormed(t) && p != [] && WayTo(t, p) == Clear
    requires dirs == AllAbove(p) || (dirs == AllAbove(p) + {p} && p !in t)
    ensures WellFormed(AddDirs(t, dirs))
    ensures forall a :: Above(a, p) ==> a in AddDirs(t, dirs) && AddDirs(t, dirs)[a].Dir?
    ensures forall q :: q in AddDirs(t, dirs) && q !in t ==> q in dirs && AddDirs(t, dirs)[q].Dir?
  {
  }

  lemma RemoveAllKeeps(t: Tree, p: Path)
    requires WellFormed(t)
    ensures WellFormed(RemoveAll(t, p))
    ensures forall a :: Above(a, p) && a in t ==> a in RemoveAll(t, p) && RemoveAll(t, p)[a] == t[a]
  {
  }

  lemma PutKeeps(t: Tree, p: Path, n: Node)
    requires WellFormed(t) && p != []
    requires forall a :: Above(a, p) ==> a in t && t[a].Dir?
    requires forall q :: q in t ==> !Above(p, q)
    ensures WellFormed(t[p := n])
  {
  }

  /** A clear way to an existing parent is a way of directories only. */
  lemma ParentIsThere(t: Tree, p: Path)
    requires WellFormed(t) && p != [] && WayTo(t, p) == Clear
    requires |p| == 1 || Parent(p) in t
    ensures forall a :: Above(a, p) ==> a in t && t[a].Dir?
  {
    forall a | Above(a, p) ensures a in t && t[a].Dir? {
      assert a in AllAbove(p);
      if a != Parent(p) {
        AboveLinear(a, Parent(p), p);
      }
    }
  }
}

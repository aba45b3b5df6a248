/**
cloneSnapshotBase and syncTree as functions on disks: hard-linking a base
snapshot into a new directory, and mirroring one tree over another in a copying
pass over the source and a pruning pass over the destination.
*/
module Mirror {
  import opened Order
  import opened FileTree

  /** The test that lets syncTree keep the destination file: it follows links. */
  function KeepsFile(d: Disk, dst: Root, p: Path, info: Blob, env: Env): bool {
    var t := d.Tree(dst);
    p in t && match t[p]
              case File(j) => |BlobOf(d.heap, j).content| == |info.content| && BlobOf(d.heap, j).mtime == info.mtime
              case Link(_) => env.StatThrough(p) == Regular(|info.content|, info.mtime)
              case _ => false
  }

  /** copyRegularFile, once the way to `p` is known to be clear. */
  function CopyFile(d: Disk, dst: Root, p: Path, blob: Blob, env: Env): (Disk, Outcome) {
    var t := AddDirs(d.Tree(dst), AllAbove(p));
    if p in d.Tree(dst) && p in env.stuck then
      // RemoveAll failed, its error was ignored: O_TRUNC writes into what is there.
      match d.Tree(dst)[p]
      case File(j) => (Disk(d.roots[dst := t], d.heap[j := blob], d.next), Done)
      case Link(_) => (d.Put(dst, t), LeftTree)
      case _ => (d.Put(dst, t), Failed)
    else
      (Disk(d.roots[dst := RemoveAll(t, p)[p := File(d.next)]], d.heap[d.next := blob], d.next + 1), Done)
  }

  /** cloneSnapshotBase shares inodes with its source, syncTree copies what differs. */
  datatype Mode = ShareInodes | CopyData

  /** What a callback does with a source node at a destination path that has a clear way. */
  function Place(d: Disk, mode: Mode, node: Node, dst: Root, p: Path, env: Env): (Disk, Outcome) {
    var t := d.Tree(dst);
    match node
    case Dir => var r := MkdirAll(t, p, env); (d.Put(dst, r.0), r.1)
    case Link(target) => var r := PlaceLink(t, p, target, env); (d.Put(dst, r.0), r.1)
    case File(i) =>
      if mode.ShareInodes? then var r := PlaceHardLink(t, p, i, env); (d.Put(dst, r.0), r.1)
      else if KeepsFile(d, dst, p, BlobOf(d.heap, i), env) then (d, Done)
      else CopyFile(d, dst, p, BlobOf(d.heap, i), env)
    case Special => (d, Done)
  }

  /** The callback at source path `p`, of cloneSnapshotBase or of syncTree's first walk. */
  function Visit(d: Disk, mode: Mode, src: Root, dst: Root, p: Path, env: Env): (Disk, Outcome) {
    var t := d.Tree(dst);
    if p == META || p !in d.Tree(src) then (d, Done)
    else if p in env.faulty then (d, Failed)
    else if d.Tree(src)[p].Special? then (d, Done)
    else match WayTo(t, p)
      case ThroughLink => (d, LeftTree)
      case Obstructed => (d, Failed)
      case Clear => Place(d, mode, d.Tree(src)[p], dst, p, env)
  }

  /** The first `n` callbacks of a walk, stopping at the first that does not succeed. */
  function Pass(d: Disk, mode: Mode, src: Root, dst: Root, order: seq<Path>, n: nat, env: Env): (Disk, Outcome)
    requires n <= |order|
  {
    if n == 0 then (d, Done)
    else
      var r := Pass(d, mode, src, dst, order, n - 1, env);
      if r.1 != Done then r else Visit(r.0, mode, src, dst, order[n - 1], env)
  }

  predicate IsStale(p: Path, seen: set<Path>) { p !in seen && p != META }

  /** The stale paths among the first `n` of a walk, in the order they were appended. */
  function Stales(order: seq<Path>, n: nat, seen: set<Path>): seq<Path>
    requires n <= |order|
  {
    if n == 0 then []
    else Stales(order, n - 1, seen) + (if IsStale(order[n - 1], seen) then [order[n - 1]] else [])
  }

  /** The removal loop, which runs from the last stale path down to index `k`. */
  function Prune(t: Tree, stales: seq<Path>, k: nat, env: Env): (Tree, Outcome)
    requires k <= |stales|
    decreases |stales| - k
  {
    if k == |stales| then (t, Done)
    else
      var r := Prune(t, stales, k + 1, env);
      if r.1 != Done then r else RemoveOne(r.0, stales[k], env)
  }

  /** The whole first walk. */
  ghost function CopyPass(d: Disk, mode: Mode, src: Root, dst: Root, env: Env): (Disk, Outcome) {
    var order := Walk(d.Tree(src));
    Pass(d, mode, src, dst, order, |order|, env)
  }

  /** The second walk and the removal loop, keeping the paths in `seen`. */
  ghost function PrunePass(t: Tree, seen: set<Path>, env: Env): (Tree, Outcome) {
    var order := Walk(t);
    Prune(t, Stales(order, |order|, seen), 0, env)
  }

  /** Both passes of syncTree. A missing source makes the first walk report an error. */
  ghost function Sync(d: Disk, src: Root, dst: Root, env: Env): (Disk, Outcome) {
    if src !in d.roots then (d, Failed)
    else
      var copied := CopyPass(d, CopyData, src, dst, env);
      if copied.1 != Done then copied
      else
        var pruned := PrunePass(copied.0.Tree(dst), d.Tree(src).Keys - {META}, env);
        (copied.0.Put(dst, pruned.0), pruned.1)
  }

  /** cloneSnapshotBase: without a base, or with one that is gone, nothing is linked. */
  ghost function CloneBase(d: Disk, base: Root, dst: Root, env: Env): (Disk, Outcome) {
    if base !in d.roots then (d, Done) else CopyPass(d, ShareInodes, base, dst, env)
  }

  // What every run keeps, whatever its outcome

  /** `d'` differs from `d` at most in tree `dst`, in new inodes and, if `kept` is false, in old inodes. */
  ghost predicate Frame(d: Disk, d': Disk, dst: Root, kept: bool) {
    && Valid(d')
    && dst in d.roots
    && d'.roots.Keys == d.roots.Keys
    && (forall r :: r in d.roots && r != dst ==> d'.roots[r] == d.roots[r])
    && d.next <= d'.next
    && d.heap.Keys <= d'.heap.Keys
    && (kept ==> forall i :: i in d.heap ==> d'.heap[i] == d.heap[i])
  }

  lemma FrameTransitive(d: Disk, d1: Disk, d2: Disk, dst: Root, kept: bool)
    requires Frame(d, d1, dst, kept) && Frame(d1, d2, dst, kept)
    ensures Frame(d, d2, dst, kept)
  {
  }

  lemma TreeFrame(d: Disk, dst: Root, t: Tree)
    requires Valid(d) && dst in d.roots && WellFormed(t) && InodesIn(t, d.heap)
    ensures Frame(d, d.Put(dst, t), dst, true)
  {
  }

  lemma StoreFrame(d: Disk, dst: Root, t: Tree, j: nat, blob: Blob, next: nat)
    requires Valid(d) && dst in d.roots && WellFormed(t) && d.next <= next
    requires forall p :: p in t && t[p].File? ==> t[p].ino == j || t[p].ino in d.heap
    requires j < next
    ensures Frame(d, Disk(d.roots[dst := t], d.heap[j := blob], next), dst, j !in d.heap)
  {
  }

  lemma PlaceLinkKeeps(t: Tree, p: Path, target: string, env: Env)
    requires WellFormed(t) && p != [] && WayTo(t, p) == Clear
    ensures WellFormed(PlaceLink(t, p, target, env).0)
  {
    RemoveAllKeeps(t, p);
    var cleared := RemoveAll(t, p);
    if !(p in t && p in env.stuck) && !(|p| > 1 && Parent(p) !in cleared) {
      if |p| > 1 {
        assert Above(Parent(p), p);
      }
      ParentIsThere(t, p);
      PutKeeps(cleared, p, Link(target));
    }
  }

  lemma PlaceFileKeeps(t: Tree, p: Path, ino: nat)
    requires WellFormed(t) && p != [] && WayTo(t, p) == Clear
    ensures WellFormed(AddDirs(t, AllAbove(p)))
    ensures WellFormed(RemoveAll(AddDirs(t, AllAbove(p)), p)[p := File(ino)])
  {
  }

  lemma CopyFileFrame(d: Disk, dst: Root, p: Path, blob: Blob, env: Env)
    requires Valid(d) && dst in d.roots && p != [] && WayTo(d.Tree(dst), p) == Clear
    ensures Frame(d, CopyFile(d, dst, p, blob, env).0, dst, env.stuck == {})
  {
    var t := d.Tree(dst);
    var ready := AddDirs(t, AllAbove(p));
    PlaceFileKeeps(t, p, d.next);
    assert InodesIn(ready, d.heap);
    if p in t && p in env.stuck {
      match t[p]
      case File(j) => StoreFrame(d, dst, ready, j, blob, d.next);
      case _ => TreeFrame(d, dst, ready);
    } else {
      StoreFrame(d, dst, RemoveAll(ready, p)[p := File(d.next)], d.next, blob, d.next + 1);
    }
  }

  lemma PlaceFrame(d: Disk, mode: Mode, node: Node, dst: Root, p: Path, env: Env)
    requires Valid(d) && dst in d.roots && p != [] && WayTo(d.Tree(dst), p) == Clear
    requires node.File? ==> node.ino in d.heap
    ensures Frame(d, Place(d, mode, node, dst, p, env).0, dst, mode.ShareInodes? || env.stuck == {})
  {
    var t := d.Tree(dst);
    match node
    case Dir =>
      if p !in t {
        AddDirsKeeps(t, p, AllAbove(p) + {p});
      }
      TreeFrame(d, dst, MkdirAll(t, p, env).0);
    case Link(target) =>
      PlaceLinkKeeps(t, p, target, env);
      TreeFrame(d, dst, PlaceLink(t, p, target, env).0);
    case File(i) =>
      if mode.ShareInodes? {
        PlaceFileKeeps(t, p, i);
        TreeFrame(d, dst, PlaceHardLink(t, p, i, env).0);
      } else {
        CopyFileFrame(d, dst, p, BlobOf(d.heap, i), env);
      }
    case Special =>
  }

  lemma VisitFrame(d: Disk, mode: Mode, src: Root, dst: Root, p: Path, env: Env)
    requires Valid(d) && src in d.roots && dst in d.roots
    ensures Frame(d, Visit(d, mode, src, dst, p, env).0, dst, mode.ShareInodes? || env.stuck == {})
  {
    if p != META && p in d.Tree(src) && p !in env.faulty && WayTo(d.Tree(dst), p) == Clear {
      assert WellFormed(d.roots[src]) && InodesIn(d.roots[src], d.heap);
      PlaceFrame(d, mode, d.Tree(src)[p], dst, p, env);
    }
  }

  lemma {:induction false} PassFrame(d: Disk, mode: Mode, src: Root, dst: Root, order: seq<Path>, n: nat, env: Env)
    requires Valid(d) && src in d.roots && dst in d.roots && n <= |order|
    ensures Frame(d, Pass(d, mode, src, dst, order, n, env).0, dst, mode.ShareInodes? || env.stuck == {})
  {
    if n > 0 {
      PassFrame(d, mode, src, dst, order, n - 1, env);
      var d1 := Pass(d, mode, src, dst, order, n - 1, env).0;
      VisitFrame(d1, mode, src, dst, order[n - 1], env);
      FrameTransitive(d, d1, Visit(d1, mode, src, dst, order[n - 1], env).0, dst,
                      mode.ShareInodes? || env.stuck == {});
    }
  }

  lemma RemoveOneKeeps(t: Tree, p: Path, env: Env)
    requires WellFormed(t)
    ensures WellFormed(RemoveOne(t, p, env).0)
    ensures forall q :: q in RemoveOne(t, p, env).0 ==> q in t && RemoveOne(t, p, env).0[q] == t[q]
  {
  }

  lemma {:induction false} PruneKeeps(t: Tree, stales: seq<Path>, k: nat, env: Env)
    requires k <= |stales| && WellFormed(t)
    ensures WellFormed(Prune(t, stales, k, env).0)
    ensures forall p :: p in Prune(t, stales, k, env).0 ==> p in t && Prune(t, stales, k, env).0[p] == t[p]
    decreases |stales| - k
  {
    if k < |stales| {
      PruneKeeps(t, stales, k + 1, env);
      RemoveOneKeeps(Prune(t, stales, k + 1, env).0, stales[k], env);
    }
  }

  lemma SyncFrame(d: Disk, src: Root, dst: Root, env: Env)
    requires Valid(d) && dst in d.roots
    ensures Frame(d, Sync(d, src, dst, env).0, dst, env.stuck == {})
  {
    if src in d.roots {
      var order := Walk(d.Tree(src));
      PassFrame(d, CopyData, src, dst, order, |order|, env);
      var d1 := CopyPass(d, CopyData, src, dst, env).0;
      var t := d1.Tree(dst);
      var seen := d.Tree(src).Keys - {META};
      PruneKeeps(t, Stales(Walk(t), |Walk(t)|, seen), 0, env);
      TreeFrame(d1, dst, PrunePass(t, seen, env).0);
      FrameTransitive(d, d1, d1.Put(dst, PrunePass(t, seen, env).0), dst, env.stuck == {});
    }
  }

  lemma CloneBaseFrame(d: Disk, base: Root, dst: Root, env: Env)
    requires Valid(d) && dst in d.roots
    ensures Frame(d, CloneBase(d, base, dst, env).0, dst, true)
  {
    if base in d.roots {
      var order := Walk(d.Tree(base));
      PassFrame(d, ShareInodes, base, dst, order, |order|, env);
    }
  }

  // The first pass, path by path

  ghost predicate SameEntry(t0: Tree, t: Tree, p: Path) {
    (p in t <==> p in t0) && (p in t ==> t[p] == t0[p])
  }

  /** What a successful callback at source path `p` leaves there, in terms of the disk before the run. */
  ghost predicate Settled(d0: Disk, d: Disk, mode: Mode, src: Root, dst: Root, p: Path, env: Env)
    requires p in d0.Tree(src)
  {
    var t0, t := d0.Tree(dst), d.Tree(dst);
    match d0.Tree(src)[p]
    case Special => SameEntry(t0, t, p)
    case Dir => p in t && (t[p].Dir? || t[p].Link?) && t[p] == if p in t0 then t0[p] else Dir
    case Link(target) => p in t && t[p] == Link(target)
    case File(i) =>
      p in t &&
      if mode.ShareInodes? then t[p] == File(i)
      else if KeepsFile(d0, dst, p, BlobOf(d0.heap, i), env) then p in t0 && t[p] == t0[p]
      else t[p].File? && t[p].ino !in d0.heap && BlobOf(d.heap, t[p].ino) == BlobOf(d0.heap, i)
  }

  /** A path the pass has not reached: it may only have gone with a parent that is no longer a directory. */
  ghost predicate Untouched(d0: Disk, d: Disk, src: Root, dst: Root, p: Path) {
    var t0, t := d0.Tree(dst), d.Tree(dst);
    && (p in t ==> p in t0 && t[p] == t0[p])
    && (p in d0.Tree(src) ==> SameEntry(t0, t, p))
  }

  ghost predicate MetaKept(t0: Tree, t: Tree) {
    && (META in t0 ==> META in t && t[META] == t0[META])
    && (META in t && META !in t0 ==> t[META] == Dir)
  }

  ghost predicate Progress(d0: Disk, d: Disk, mode: Mode, src: Root, dst: Root, done: set<Path>, env: Env) {
    && (forall p :: p in done && p in d0.Tree(src) && p != META ==> Settled(d0, d, mode, src, dst, p, env))
    && (forall p :: p !in done && p != META ==> Untouched(d0, d, src, dst, p))
    && MetaKept(d0.Tree(dst), d.Tree(dst))
  }

  /** Away from its own path, a callback only adds missing parents and removes what lay below a file or link. */
  ghost predicate OnlyAround(t: Tree, t': Tree, p: Path, replaced: bool) {
    forall q :: q != p ==>
      && (q in t' ==> (q in t && t'[q] == t[q]) || (q !in t && Above(q, p) && t'[q] == Dir))
      && (q in t && q !in t' ==> replaced && Above(p, q))
  }

  lemma VisitLocal(d: Disk, mode: Mode, src: Root, dst: Root, p: Path, env: Env)
    requires Valid(d) && src in d.roots && dst in d.roots && src != dst && p in d.Tree(src) && p != META
    requires env.stuck == {}
    requires Visit(d, mode, src, dst, p, env).1 == Done
    ensures var d', node := Visit(d, mode, src, dst, p, env).0, d.Tree(src)[p];
            && OnlyAround(d.Tree(dst), d'.Tree(dst), p, node.Link? || node.File?)
            && Settled(d, d', mode, src, dst, p, env)
  {
  }

  lemma PassStep(d0: Disk, d: Disk, mode: Mode, src: Root, dst: Root, done: set<Path>, p: Path, env: Env)
    requires Valid(d0) && src in d0.roots && dst in d0.roots && src != dst && env.stuck == {}
    requires Frame(d0, d, dst, true)
    requires done <= d0.Tree(src).Keys && p in d0.Tree(src) && p !in done
    requires forall a :: Above(a, p) ==> a in done
    requires Progress(d0, d, mode, src, dst, done, env)
    requires Visit(d, mode, src, dst, p, env).1 == Done
    ensures Progress(d0, Visit(d, mode, src, dst, p, env).0, mode, src, dst, done + {p}, env)
  {
    if p != META {
      var d' := Visit(d, mode, src, dst, p, env).0;
      VisitFrame(d, mode, src, dst, p, env);
      VisitLocal(d, mode, src, dst, p, env);
      AfterVisit(d0, d, d', mode, src, dst, done, p, env);
    }
  }

  lemma AfterVisit(d0: Disk, d: Disk, d': Disk, mode: Mode, src: Root, dst: Root, done: set<Path>, p: Path, env: Env)
    requires Valid(d0) && src in d0.roots && dst in d0.roots && src != dst
    requires Frame(d0, d, dst, true) && Frame(d, d', dst, true)
    requires done <= d0.Tree(src).Keys && p in d0.Tree(src) && p !in done && p != META
    requires forall a :: Above(a, p) ==> a in done
    requires Progress(d0, d, mode, src, dst, done, env)
    requires OnlyAround(d.Tree(dst), d'.Tree(dst), p, d.Tree(src)[p].Link? || d.Tree(src)[p].File?)
    requires Settled(d, d', mode, src, dst, p, env)
    ensures Progress(d0, d', mode, src, dst, done + {p}, env)
  {
    assert Untouched(d0, d, src, dst, p);
    assert Settled(d0, d', mode, src, dst, p, env);
    var srcTree, t, t' := d0.Tree(src), d.Tree(dst), d'.Tree(dst);
    forall q | q in done && q != META ensures Settled(d0, d', mode, src, dst, q, env) {
      assert Settled(d0, d, mode, src, dst, q, env);
      assert q in t && q !in t' ==> Above(p, q);
    }
    forall q | q !in done && q != p && q != META ensures Untouched(d0, d', src, dst, q) {
      assert Untouched(d0, d, src, dst, q);
      assert q in srcTree ==> !Above(p, q) || srcTree[p].Dir?;
    }
    assert !Above(p, META);
  }

  ghost function First(order: seq<Path>, n: nat): set<Path>
    requires n <= |order|
  {
    set i | 0 <= i < n :: order[i]
  }

  lemma FirstStep(order: seq<Path>, n: nat)
    requires n < |order|
    ensures First(order, n + 1) == First(order, n) + {order[n]}
  {
  }

  lemma FirstIsAll(t: Tree)
    ensures First(Walk(t), |Walk(t)|) == t.Keys
  {
  }

  /** Every path comes once, after all paths above it. */
  ghost predicate ParentsFirst(order: seq<Path>) {
    forall i {:trigger order[i]} :: 0 <= i < |order| ==>
      order[i] !in First(order, i) && forall a :: Above(a, order[i]) ==> a in First(order, i)
  }

  lemma WalkParentsFirst(t: Tree)
    requires WellFormed(t)
    ensures ParentsFirst(Walk(t))
  {
    var order := Walk(t);
    PathLessStrictTotal();
    WalkAscends(t);
    forall n | 0 <= n < |order|
      ensures order[n] !in First(order, n) && forall a :: Above(a, order[n]) ==> a in First(order, n)
    {
      assert order[n] in order;
      forall i | 0 <= i < n ensures order[i] != order[n] { AscendingAt(PathLess, order, i, n); }
      forall a | Above(a, order[n]) ensures a in First(order, n) {
        assert a in order;
        var i :| 0 <= i < |order| && order[i] == a;
        AboveIsLess(a, order[n]);
        AscendingAt(PathLess, order, i, n);
      }
    }
  }

  lemma {:induction false} PassProgress(d: Disk, mode: Mode, src: Root, dst: Root, order: seq<Path>, n: nat, env: Env)
    requires Valid(d) && src in d.roots && dst in d.roots && src != dst && env.stuck == {}
    requires ParentsFirst(order) && n <= |order| && forall p :: p in order ==> p in d.Tree(src)
    requires Pass(d, mode, src, dst, order, n, env).1 == Done
    ensures First(order, n) <= d.Tree(src).Keys
    ensures Progress(d, Pass(d, mode, src, dst, order, n, env).0, mode, src, dst, First(order, n), env)
  {
    forall p | p in First(order, n) ensures p in d.Tree(src) { assert p in order; }
    if n > 0 {
      PassProgress(d, mode, src, dst, order, n - 1, env);
      PassFrame(d, mode, src, dst, order, n - 1, env);
      var d1 := Pass(d, mode, src, dst, order, n - 1, env).0;
      assert order[n - 1] in order;
      PassStep(d, d1, mode, src, dst, First(order, n - 1), order[n - 1], env);
      FirstStep(order, n - 1);
    }
  }

  lemma CopyPassProgress(d: Disk, mode: Mode, src: Root, dst: Root, env: Env)
    requires Valid(d) && src in d.roots && dst in d.roots && src != dst && env.stuck == {}
    requires CopyPass(d, mode, src, dst, env).1 == Done
    ensures Progress(d, CopyPass(d, mode, src, dst, env).0, mode, src, dst, d.Tree(src).Keys, env)
  {
    var order := Walk(d.Tree(src));
    WalkParentsFirst(d.Tree(src));
    PassProgress(d, mode, src, dst, order, |order|, env);
    FirstIsAll(d.Tree(src));
  }

  // The second pass

  lemma {:induction false} StalesExact(less: (Path, Path) -> bool, order: seq<Path>, n: nat, seen: set<Path>)
    requires n <= |order| && Ascending(less, order)
    ensures Ascending(less, Stales(order, n, seen))
    ensures forall p :: p in Stales(order, n, seen) <==> p in order[..n] && IsStale(p, seen)
  {
    if n > 0 {
      StalesExact(less, order, n - 1, seen);
      assert order[..n] == order[..n - 1] + [order[n - 1]];
      var s := Stales(order, n - 1, seen);
      forall i | 0 <= i < |s| ensures less(s[i], order[n - 1]) {
        assert s[i] in order[..n - 1];
      }
    }
  }

  ghost predicate ClosedBelow(t: Tree, stales: seq<Path>) {
    forall p, q :: p in stales && q in t && Above(p, q) ==> q in stales
  }

  /** Removing in reverse walk order meets only empty directories: it fails only where a call itself fails. */
  lemma {:induction false} PruneExact(t: Tree, stales: seq<Path>, k: nat, env: Env)
    requires k <= |stales| && Ascending(PathLess, stales) && ClosedBelow(t, stales)
    requires forall p :: p in stales ==> p in t
    ensures Prune(t, stales, k, env).1 == Done <==> forall j :: k <= j < |stales| ==> stales[j] !in env.faulty
    ensures Prune(t, stales, k, env).1 == Done ==> Prune(t, stales, k, env).0 == t - (set p | p in stales[k..])
    decreases |stales| - k
  {
    if k < |stales| {
      PruneExact(t, stales, k + 1, env);
      var rest := stales[k + 1..];
      assert stales[k..] == [stales[k]] + rest;
      LaterStales(stales, k);
    }
  }

  lemma LaterStales(stales: seq<Path>, k: nat)
    requires k < |stales| && Ascending(PathLess, stales)
    ensures stales[k] !in stales[k + 1..]
    ensures forall q :: q in stales && Above(stales[k], q) ==> q in stales[k + 1..]
  {
    var rest := stales[k + 1..];
    PathLessStrictTotal();
    forall j | 0 <= j < |rest| ensures stales[k] != rest[j] {
      AscendingAt(PathLess, stales, k, k + 1 + j);
    }
    forall q | q in stales && Above(stales[k], q) ensures q in rest {
      var j :| 0 <= j < |stales| && stales[j] == q;
      AboveIsLess(stales[k], q);
      AscendingAt(PathLess, stales, k, j);
      assert q == rest[j - k - 1];
    }
  }

  /** The destination paths that a mirror of `srcTree` must not have. */
  ghost function Surplus(t: Tree, srcTree: Tree): set<Path> {
    set p | p in t && p !in srcTree && p != META
  }

  /** The second pass removes exactly the surplus paths, and fails only where removing one of them fails. */
  lemma PrunePassExact(srcTree: Tree, t: Tree, env: Env)
    requires WellFormed(srcTree) && WellFormed(t)
    ensures var r := PrunePass(t, srcTree.Keys - {META}, env);
            && (r.1 == Done <==> Surplus(t, srcTree) !! env.faulty)
            && (r.1 == Done ==> r.0 == t - Surplus(t, srcTree))
  {
    var stales := Stales(Walk(t), |Walk(t)|, srcTree.Keys - {META});
    StalesOfWalk(srcTree, t);
    PruneSet(t, stales, Surplus(t, srcTree), env);
  }

  lemma PruneSet(t: Tree, stales: seq<Path>, surplus: set<Path>, env: Env)
    requires Ascending(PathLess, stales) && ClosedBelow(t, stales)
    requires forall p :: p in stales <==> p in surplus
    requires surplus <= t.Keys
    ensures Prune(t, stales, 0, env).1 == Done <==> surplus !! env.faulty
    ensures Prune(t, stales, 0, env).1 == Done ==> Prune(t, stales, 0, env).0 == t - surplus
  {
    PruneExact(t, stales, 0, env);
    assert stales[0..] == stales;
    assert (set p | p in stales) == surplus;
    forall p | p in surplus ensures exists j :: 0 <= j < |stales| && stales[j] == p {
      assert p in stales;
    }
    forall j | 0 <= j < |stales| ensures stales[j] in surplus {
      assert stales[j] in stales;
    }
  }

  lemma StalesOfWalk(srcTree: Tree, t: Tree)
    requires WellFormed(srcTree) && WellFormed(t)
    ensures var stales := Stales(Walk(t), |Walk(t)|, srcTree.Keys - {META});
            && Ascending(PathLess, stales)
            && ClosedBelow(t, stales)
            && (forall p :: p in stales <==> p in Surplus(t, srcTree))
  {
    var order := Walk(t);
    WalkAscends(t);
    StalesExact(PathLess, order, |order|, srcTree.Keys - {META});
    assert order[..|order|] == order;
    assert forall p :: !Above(p, META);
  }
}

/**
What a successful mirror run leaves behind: the source exactly, unless some
path meets a listed obstacle, whatever the destination held before.
*/
module MirrorProofs {
  import opened FileTree
  import opened Mirror

  /** A tree as a reader sees it, without inode numbers. */
  datatype Entry = DirEntry | LinkEntry(target: string) | FileEntry(blob: Blob) | SpecialEntry

  type Contents = map<Path, Entry>

  function EntryOf(n: Node, heap: map<nat, Blob>): Entry {
    match n
    case Dir => DirEntry
    case Link(target) => LinkEntry(target)
    case File(i) => FileEntry(BlobOf(heap, i))
    case Special => SpecialEntry
  }

  function View(d: Disk, r: Root): Contents {
    map p | p in d.Tree(r) :: EntryOf(d.Tree(r)[p], d.heap)
  }

  /** `b` has the entries of `a` and no others, special files and the meta file aside. */
  ghost predicate Mirrors(a: Contents, b: Contents) {
    forall p :: p != META && !(p in a && a[p].SpecialEntry?) ==>
                  (p in a <==> p in b) && (p in a ==> a[p] == b[p])
  }

  /**
  A run of syncTree leaves the destination entry at `p` in place although it
  differs from the source: a file with the same size and modification time but
  other content, or a link where the source has a directory or a file that
  looks the same through the link.
  */
  predicate Blind(srcTree: Tree, dstTree: Tree, heap: map<nat, Blob>, p: Path, env: Env) {
    && p in srcTree && p in dstTree && p != META
    && match srcTree[p]
       case Dir => dstTree[p].Link?
       case File(i) =>
         var info := BlobOf(heap, i);
         (match dstTree[p]
          case File(j) =>
            && |BlobOf(heap, j).content| == |info.content|
            && BlobOf(heap, j).mtime == info.mtime
            && BlobOf(heap, j).content != info.content
          case Link(_) => env.StatThrough(p) == Regular(|info.content|, info.mtime)
          case _ => false)
       case _ => false
  }

  ghost predicate NoneBlind(srcTree: Tree, dstTree: Tree, heap: map<nat, Blob>, env: Env) {
    forall p :: p in srcTree ==> !Blind(srcTree, dstTree, heap, p, env)
  }

  /** Every source path is settled and nothing else is left but the meta file. */
  ghost predicate Synced(d: Disk, d': Disk, src: Root, dst: Root, env: Env) {
    && (forall p :: p in d.Tree(src) && p != META ==> Settled(d, d', CopyData, src, dst, p, env))
    && (forall p :: p !in d.Tree(src) && p != META ==> p !in d'.Tree(dst))
    && MetaKept(d.Tree(dst), d'.Tree(dst))
  }

  lemma SyncSettles(d: Disk, src: Root, dst: Root, env: Env)
    requires Valid(d) && dst in d.roots && src in d.roots && src != dst && env.stuck == {}
    requires Sync(d, src, dst, env).1 == Done
    ensures Synced(d, Sync(d, src, dst, env).0, src, dst, env)
  {
    CopyPassProgress(d, CopyData, src, dst, env);
    var order := Walk(d.Tree(src));
    PassFrame(d, CopyData, src, dst, order, |order|, env);
    var copied := CopyPass(d, CopyData, src, dst, env).0;
    PrunePassExact(d.Tree(src), copied.Tree(dst), env);
    PrunedIsSynced(d, copied, PrunePass(copied.Tree(dst), d.Tree(src).Keys - {META}, env).0, src, dst, env);
  }

  lemma PrunedIsSynced(d: Disk, d1: Disk, t': Tree, src: Root, dst: Root, env: Env)
    requires Progress(d, d1, CopyData, src, dst, d.Tree(src).Keys, env)
    requires t' == d1.Tree(dst) - Surplus(d1.Tree(dst), d.Tree(src))
    ensures Synced(d, d1.Put(dst, t'), src, dst, env)
  {
  }

  /** Mirroring is exact: source and destination agree if and only if no path is blind. */
  lemma SyncExact(d: Disk, src: Root, dst: Root, env: Env)
    requires Valid(d) && dst in d.roots && src in d.roots && src != dst && env.stuck == {}
    requires Sync(d, src, dst, env).1 == Done
    ensures View(Sync(d, src, dst, env).0, src) == View(d, src)
    ensures Mirrors(View(d, src), View(Sync(d, src, dst, env).0, dst))
            <==> NoneBlind(d.Tree(src), d.Tree(dst), d.heap, env)
  {
    SyncSettles(d, src, dst, env);
    SyncFrame(d, src, dst, env);
    ViewKept(d, Sync(d, src, dst, env).0, src);
    SyncedExact(d, Sync(d, src, dst, env).0, src, dst, env);
  }

  lemma ViewKept(d: Disk, d': Disk, r: Root)
    requires Valid(d) && r in d.roots && d'.Tree(r) == d.Tree(r)
    requires forall i :: i in d.heap ==> i in d'.heap && d'.heap[i] == d.heap[i]
    ensures View(d', r) == View(d, r)
  {
  }

  lemma SyncedExact(d: Disk, d': Disk, src: Root, dst: Root, env: Env)
    requires Frame(d, d', dst, true) && Synced(d, d', src, dst, env)
    requires Valid(d) && src in d.roots
    ensures Mirrors(View(d, src), View(d', dst)) <==> NoneBlind(d.Tree(src), d.Tree(dst), d.heap, env)
  {
    var srcTree := d.Tree(src);
    var a, b := View(d, src), View(d', dst);
    forall p | p in srcTree && p != META && !srcTree[p].Special?
      ensures p in b && (a[p] == b[p] <==> !Blind(srcTree, d.Tree(dst), d.heap, p, env))
    {
      SettledMatches(d, d', src, dst, p, env);
    }
    if Mirrors(a, b) {
      forall p | p in srcTree ensures !Blind(srcTree, d.Tree(dst), d.heap, p, env) {
        if p != META && !srcTree[p].Special? { assert a[p] == b[p]; }
      }
    }
  }

  lemma SettledMatches(d: Disk, d': Disk, src: Root, dst: Root, p: Path, env: Env)
    requires Valid(d) && src in d.roots && Frame(d, d', dst, true)
    requires p in d.Tree(src) && p != META && !d.Tree(src)[p].Special?
    requires Settled(d, d', CopyData, src, dst, p, env)
    ensures p in d'.Tree(dst)
    ensures View(d, src)[p] == View(d', dst)[p] <==> !Blind(d.Tree(src), d.Tree(dst), d.heap, p, env)
  {
  }

  /** A run over trees that mirror each other already does nothing at all. */
  lemma MirroredIsIdle(d: Disk, src: Root, dst: Root, env: Env)
    requires Valid(d) && dst in d.roots && src in d.roots && src != dst
    requires env.stuck == {} && env.faulty == {}
    requires Mirrors(View(d, src), View(d, dst))
    ensures Sync(d, src, dst, env) == (d, Done)
  {
    var order := Walk(d.Tree(src));
    PassIdle(d, src, dst, order, |order|, env);
    forall p | p !in d.Tree(src) && p != META ensures p !in d.Tree(dst) {
      assert p !in View(d, src);
      assert p in View(d, dst) <==> p in d.Tree(dst);
    }
    IdleSync(d, src, dst, env);
  }

  /** A run whose first walk does nothing and whose clean-up finds nothing. */
  lemma IdleSync(d: Disk, src: Root, dst: Root, env: Env)
    requires Valid(d) && dst in d.roots && src in d.roots
    requires CopyPass(d, CopyData, src, dst, env) == (d, Done)
    requires forall p :: p !in d.Tree(src) && p != META ==> p !in d.Tree(dst)
    ensures Sync(d, src, dst, env) == (d, Done)
  {
    assert Surplus(d.Tree(dst), d.Tree(src)) == {};
    PrunePassExact(d.Tree(src), d.Tree(dst), env);
    assert d.Tree(dst) - {} == d.Tree(dst) && d.Put(dst, d.Tree(dst)) == d;
  }

  lemma {:induction false} PassIdle(d: Disk, src: Root, dst: Root, order: seq<Path>, n: nat, env: Env)
    requires Valid(d) && dst in d.roots && src in d.roots && src != dst
    requires env.stuck == {} && env.faulty == {}
    requires Mirrors(View(d, src), View(d, dst))
    requires n <= |order|
    ensures Pass(d, CopyData, src, dst, order, n, env) == (d, Done)
  {
    if n > 0 {
      PassIdle(d, src, dst, order, n - 1, env);
      VisitIdle(d, src, dst, order[n - 1], env);
    }
  }

  lemma VisitIdle(d: Disk, src: Root, dst: Root, p: Path, env: Env)
    requires Valid(d) && dst in d.roots && src in d.roots && src != dst
    requires env.stuck == {} && env.faulty == {}
    requires Mirrors(View(d, src), View(d, dst))
    ensures Visit(d, CopyData, src, dst, p, env) == (d, Done)
  {
    var t := d.Tree(dst);
    if p in d.Tree(src) && p != META && !d.Tree(src)[p].Special? {
      assert View(d, src)[p] == View(d, dst)[p];
      assert WayTo(t, p) == Clear;
      assert d.Put(dst, t) == d;
      if d.Tree(src)[p].Link? {
        RemoveAllKeeps(t, p);
        if |p| > 1 { assert Above(Parent(p), p); }
        assert t == RemoveAll(t, p)[p := d.Tree(src)[p]];
      }
    }
  }

  // Snapshots of a workspace

  /** createWorkspaceSnapshot up to the meta file: ensureDir, clone the base if any, mirror the workspace. */
  ghost function Capture(d: Disk, ws: Root, target: Root, base: Root, cloneEnv: Env, env: Env): (Disk, Outcome) {
    var cloned := CloneBase(d.Put(target, d.Tree(target)), base, target, cloneEnv);
    if cloned.1 != Done then cloned else Sync(cloned.0, ws, target, env)
  }

  /** A clone has the base's own inodes at the base's paths. */
  lemma CloneExact(d: Disk, base: Root, target: Root, env: Env)
    requires Valid(d) && base in d.roots && target in d.roots && base != target
    requires d.Tree(target) == map[] && env.stuck == {}
    requires CloneBase(d, base, target, env).1 == Done
    ensures var b, t := d.Tree(base), CloneBase(d, base, target, env).0.Tree(target);
            forall p :: p != META ==>
                          (p in t <==> p in b && !b[p].Special?) && (p in t ==> t[p] == b[p])
  {
    var d' := CloneBase(d, base, target, env).0;
    CopyPassProgress(d, ShareInodes, base, target, env);
    forall p | p != META && p in d.Tree(base) ensures Settled(d, d', ShareInodes, base, target, p, env) {}
    forall p | p != META && p !in d.Tree(base) ensures p !in d'.Tree(target) {
      assert Untouched(d, d', base, target, p);
    }
  }

  lemma NewRoot(d: Disk, target: Root)
    requires Valid(d)
    ensures Valid(d.Put(target, d.Tree(target)))
  {
  }

  /**
  Incremental equals full. A snapshot over any base holds exactly the workspace
  if and only if no workspace path is blind against the base; without a
  base, or with a missing one, it always does.
  */
  lemma IncrementalEqualsFull(d: Disk, ws: Root, target: Root, base: Root, cloneEnv: Env, env: Env)
    requires Valid(d) && ws != target && target !in d.roots && base != target
    requires cloneEnv.stuck == {} && env.stuck == {}
    requires Capture(d, ws, target, base, cloneEnv, env).1 == Done
    ensures ws in d.roots
    ensures Mirrors(View(d, ws), View(Capture(d, ws, target, base, cloneEnv, env).0, target))
            <==> NoneBlind(d.Tree(ws), d.Tree(base), d.heap, env)
  {
    NewRoot(d, target);
    var empty := d.Put(target, map[]);
    CloneBaseFrame(empty, base, target, cloneEnv);
    var cloned := CloneBase(empty, base, target, cloneEnv).0;
    SyncExact(cloned, ws, target, env);
    ViewKept(d, cloned, ws);
    BlindAfterClone(d, ws, target, base, cloneEnv, env);
  }

  lemma BlindAfterClone(d: Disk, ws: Root, target: Root, base: Root, cloneEnv: Env, env: Env)
    requires Valid(d) && ws in d.roots && target !in d.roots && base != target && cloneEnv.stuck == {}
    requires CloneBase(d.Put(target, map[]), base, target, cloneEnv).1 == Done
    ensures var cloned := CloneBase(d.Put(target, map[]), base, target, cloneEnv).0;
            NoneBlind(cloned.Tree(ws), cloned.Tree(target), cloned.heap, env)
            <==> NoneBlind(d.Tree(ws), d.Tree(base), d.heap, env)
  {
    var empty := d.Put(target, map[]);
    NewRoot(d, target);
    CloneBaseFrame(empty, base, target, cloneEnv);
    var cloned := CloneBase(empty, base, target, cloneEnv).0;
    if base in d.roots {
      CloneExact(empty, base, target, cloneEnv);
      BlindAgrees(d, cloned, ws, base, target, env);
    }
  }

  lemma BlindAgrees(d: Disk, cloned: Disk, ws: Root, base: Root, target: Root, env: Env)
    requires Valid(d) && ws in d.roots && base in d.roots && cloned.Tree(ws) == d.Tree(ws)
    requires forall i :: i in d.heap ==> i in cloned.heap && cloned.heap[i] == d.heap[i]
    requires var b, t := d.Tree(base), cloned.Tree(target);
             forall p :: p != META ==> (p in t <==> p in b && !b[p].Special?) && (p in t ==> t[p] == b[p])
    ensures NoneBlind(cloned.Tree(ws), cloned.Tree(target), cloned.heap, env)
            <==> NoneBlind(d.Tree(ws), d.Tree(base), d.heap, env)
  {
  }
}

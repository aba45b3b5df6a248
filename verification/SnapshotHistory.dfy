/**
Runs of the snapshot service: creations, rollbacks, expiries and edits of the
workspaces in any order. A snapshot never changes while it exists, and rolling
back to it brings the workspace back as it was.
*/
module SnapshotHistory {
  import opened FileTree
  import opened Mirror
  import opened MirrorProofs

  // Where the inodes and the data of a run come from

  ghost predicate Owned(t: Tree, i: nat) {
    exists p :: p in t && t[p] == File(i)
  }

  /** Tree `dst` gains only new inodes and those of `lent`; all data was there before. */
  ghost predicate Sources(d: Disk, d': Disk, dst: Root, lent: Tree) {
    && d.next <= d'.next
    && (forall i :: Owned(d'.Tree(dst), i) ==> Owned(d.Tree(dst), i) || Owned(lent, i) || d.next <= i)
    && (forall i :: i in d'.heap ==> d'.heap[i] in d.heap.Values)
  }

  lemma SourcesTransitive(d: Disk, d1: Disk, d2: Disk, dst: Root, lent: Tree)
    requires Sources(d, d1, dst, lent) && Sources(d1, d2, dst, lent)
    ensures Sources(d, d2, dst, lent)
  {
  }

  lemma VisitHeap(d: Disk, mode: Mode, src: Root, dst: Root, p: Path, env: Env)
    requires Valid(d) && src in d.roots && dst in d.roots
    ensures var d' := Visit(d, mode, src, dst, p, env).0;
            d.next <= d'.next && forall i :: i in d'.heap ==> d'.heap[i] in d.heap.Values
  {
  }

  /** The file found at `q` afterwards was there, or `q` is `p` and it is the source's or a new one. */
  lemma VisitFiles(d: Disk, mode: Mode, src: Root, dst: Root, p: Path, env: Env, q: Path)
    requires Valid(d) && src in d.roots && dst in d.roots
    requires var t' := Visit(d, mode, src, dst, p, env).0.Tree(dst); q in t' && t'[q].File?
    ensures var node := Visit(d, mode, src, dst, p, env).0.Tree(dst)[q];
            || (q in d.Tree(dst) && d.Tree(dst)[q] == node)
            || (mode.ShareInodes? && p in d.Tree(src) && d.Tree(src)[p] == node)
            || node.ino == d.next
  {
  }

  lemma VisitSources(d: Disk, mode: Mode, src: Root, dst: Root, p: Path, env: Env)
    requires Valid(d) && src in d.roots && dst in d.roots
    ensures Sources(d, Visit(d, mode, src, dst, p, env).0, dst, Lent(d, mode, src))
  {
    VisitHeap(d, mode, src, dst, p, env);
    var t' := Visit(d, mode, src, dst, p, env).0.Tree(dst);
    forall i | Owned(t', i)
      ensures Owned(d.Tree(dst), i) || Owned(Lent(d, mode, src), i) || d.next <= i
    {
      var q :| q in t' && t'[q] == File(i);
      VisitFiles(d, mode, src, dst, p, env, q);
    }
  }

  /** The tree whose inodes a walk may hand over. */
  function Lent(d: Disk, mode: Mode, src: Root): Tree {
    if mode.ShareInodes? then d.Tree(src) else map[]
  }

  lemma {:induction false} PassSources(d: Disk, mode: Mode, src: Root, dst: Root, order: seq<Path>, n: nat, env: Env)
    requires Valid(d) && src in d.roots && dst in d.roots && src != dst && n <= |order|
    ensures Sources(d, Pass(d, mode, src, dst, order, n, env).0, dst, Lent(d, mode, src))
  {
    if n > 0 {
      PassSources(d, mode, src, dst, order, n - 1, env);
      PassFrame(d, mode, src, dst, order, n - 1, env);
      var d1 := Pass(d, mode, src, dst, order, n - 1, env).0;
      VisitSources(d1, mode, src, dst, order[n - 1], env);
      SourcesTransitive(d, d1, Visit(d1, mode, src, dst, order[n - 1], env).0, dst, Lent(d, mode, src));
    }
  }

  lemma SyncSources(d: Disk, src: Root, dst: Root, env: Env)
    requires Valid(d) && dst in d.roots && src != dst
    ensures Sources(d, Sync(d, src, dst, env).0, dst, map[])
  {
    if src in d.roots {
      var order := Walk(d.Tree(src));
      PassSources(d, CopyData, src, dst, order, |order|, env);
      PassFrame(d, CopyData, src, dst, order, |order|, env);
      var t := CopyPass(d, CopyData, src, dst, env).0.Tree(dst);
      var seen := d.Tree(src).Keys - {META};
      PruneKeeps(t, Stales(Walk(t), |Walk(t)|, seen), 0, env);
      var t' := PrunePass(t, seen, env).0;
      forall i | Owned(t', i) ensures Owned(t, i) {
        var p :| p in t' && t'[p] == File(i);
        assert p in t && t[p] == File(i);
      }
    }
  }

  lemma CaptureSources(d: Disk, ws: Root, target: Root, base: Root, cloneEnv: Env, env: Env)
    requires Valid(d) && ws != target && base != target && target !in d.roots
    ensures Sources(d, Capture(d, ws, target, base, cloneEnv, env).0, target, d.Tree(base))
  {
    var empty := d.Put(target, map[]);
    NewRoot(d, target);
    CloneBaseFrame(empty, base, target, cloneEnv);
    var cloned := CloneBase(empty, base, target, cloneEnv);
    if base in d.roots {
      var order := Walk(d.Tree(base));
      PassSources(empty, ShareInodes, base, target, order, |order|, cloneEnv);
    }
    if cloned.1 == Done {
      SyncSources(cloned.0, ws, target, env);
      SourcesTransitive(empty, cloned.0, Sync(cloned.0, ws, target, env).0, target, d.Tree(base));
    }
  }

  // The service's operations

  /** writeSnapshotMeta: os.WriteFile truncates an existing file and refuses a directory. */
  function WriteMeta(d: Disk, r: Root, meta: Blob): (Disk, Outcome) {
    var t := d.Tree(r);
    if META in t then
      match t[META]
      case File(j) => (d.(heap := d.heap[j := meta]), Done)
      case Link(_) => (d, LeftTree)
      case _ => (d, Failed)
    else
      (Disk(d.roots[r := t[META := File(d.next)]], d.heap[d.next := meta], d.next + 1), Done)
  }

  /** createWorkspaceSnapshot; the base is "" when the sandbox has no workspace snapshot yet. */
  ghost function CreateSnapshot(
    d: Disk, id: string, host: string, base: string, cloneEnv: Env, env: Env, meta: Blob): (Disk, Outcome)
  {
    var captured := Capture(d, Workspace(host), SnapDir(id), SnapDir(base), cloneEnv, env);
    if captured.1 != Done then captured else WriteMeta(captured.0, SnapDir(id), meta)
  }

  /** rollbackWorkspaceSnapshot: recreates the workspace directory first, then needs the snapshot's. */
  ghost function RollbackTo(d: Disk, id: string, host: string, env: Env): (Disk, Outcome) {
    var ready := d.Put(Workspace(host), d.Tree(Workspace(host)));
    Sync(ready, SnapDir(id), Workspace(host), env)
  }

  /** cleanupOneExpiredSnapshot removes the directory; links to inodes go, inodes stay. */
  function RemoveSnapshotDir(d: Disk, id: string): Disk {
    d.(roots := d.roots - {SnapDir(id)})
  }

  /** `rows` maps snapshot ids to the workspace they were taken of; `used` has every id ever given out. */
  datatype World = World(disk: Disk, rows: map<string, string>, used: set<string>)

  datatype Op =
    | Create(id: string, host: string, base: string, cloneEnv: Env, env: Env, meta: Blob, stored: bool)
    | Rollback(id: string, env: Env)
    | Edit(host: string, after: Disk)
    | Expire(id: string, rowDeleted: bool)

  ghost predicate NeverSeen(d: Disk, mtime: int) {
    forall b :: b in d.heap.Values ==> b.mtime != mtime
  }

  /** Only tree `r` changes, only its own inodes are overwritten, and it gains only new ones and those of `lent`. */
  ghost predicate Wrote(d: Disk, d': Disk, r: Root, lent: Tree) {
    && Valid(d')
    && d'.roots.Keys == d.roots.Keys + {r}
    && (forall q :: q in d.roots && q != r ==> d'.roots[q] == d.roots[q])
    && d.next <= d'.next && d.heap.Keys <= d'.heap.Keys
    && (forall i :: i in d.heap ==> d'.heap[i] == d.heap[i] || Owned(d.Tree(r), i))
    && (forall i :: Owned(d'.Tree(r), i) ==> Owned(d.Tree(r), i) || Owned(lent, i) || d.next <= i)
  }

  /** Data is either moved or copied with its time stamp, or written with a time stamp of its own. */
  ghost predicate FreshlyStamped(d: Disk, d': Disk) {
    forall i :: i in d'.heap ==>
                  || d'.heap[i] in d.heap.Values
                  || (NeverSeen(d, d'.heap[i].mtime)
                      && forall k :: k in d'.heap && k != i ==> d'.heap[k].mtime != d'.heap[i].mtime)
  }

  /**
  Any number of edits of one workspace: files written in place, created, removed,
  renamed or hard-linked.
  */
  ghost predicate Edited(d: Disk, d': Disk, ws: Root) {
    Wrote(d, d', ws, map[]) && FreshlyStamped(d, d')
  }

  /** What an operation does, as far as it stays in its own trees; the row of a new snapshot is stored last, or not. */
  ghost predicate Attempt(w: World, op: Op, w': World) {
    match op
    case Create(id, host, base, cloneEnv, env, meta, stored) =>
      var r := CreateSnapshot(w.disk, id, host, base, cloneEnv, env, meta);
      && id != "" && id !in w.used && (base == "" || base in w.rows)
      && cloneEnv.stuck == {} && env.stuck == {} && NeverSeen(w.disk, meta.mtime)
      && w' == World(r.0, if r.1 == Done && stored then w.rows[id := host] else w.rows, w.used + {id})
    case Rollback(id, env) =>
      && id in w.rows && env.stuck == {}
      && w' == w.(disk := RollbackTo(w.disk, id, w.rows[id], env).0)
    case Edit(host, after) =>
      Edited(w.disk, after, Workspace(host)) && w' == w.(disk := after)
    case Expire(id, rowDeleted) =>
      && id in w.rows
      && w' == World(RemoveSnapshotDir(w.disk, id), if rowDeleted then w.rows - {id} else w.rows, w.used)
  }

  /** The operation would go on beyond a destination link, in whatever tree that leads to. */
  ghost predicate Leaves(w: World, op: Op) {
    match op
    case Create(id, host, base, cloneEnv, env, meta, _) =>
      CreateSnapshot(w.disk, id, host, base, cloneEnv, env, meta).1 == LeftTree
    case Rollback(id, env) => id in w.rows && RollbackTo(w.disk, id, w.rows[id], env).1 == LeftTree
    case _ => false
  }

  /** The steps of the runs below: no operation leaves its trees, and no ignored unlink fails. */
  ghost predicate Next(w: World, op: Op, w': World) {
    Attempt(w, op, w') && !Leaves(w, op)
  }

  // What the service and its users do is a step, as long as it stays in its trees

  lemma CreateIsStep(
      w: World, id: string, host: string, base: string, cloneEnv: Env, env: Env, meta: Blob, stored: bool)
    requires id != "" && id !in w.used && (base == "" || base in w.rows)
    requires cloneEnv.stuck == {} && env.stuck == {} && NeverSeen(w.disk, meta.mtime)
    requires CreateSnapshot(w.disk, id, host, base, cloneEnv, env, meta).1 != LeftTree
    ensures var r := CreateSnapshot(w.disk, id, host, base, cloneEnv, env, meta);
            Next(w, Create(id, host, base, cloneEnv, env, meta, stored),
                 World(r.0, if r.1 == Done && stored then w.rows[id := host] else w.rows, w.used + {id}))
  {
  }

  lemma RollbackIsStep(w: World, id: string, env: Env)
    requires id in w.rows && env.stuck == {} && RollbackTo(w.disk, id, w.rows[id], env).1 != LeftTree
    ensures Next(w, Rollback(id, env), World(RollbackTo(w.disk, id, w.rows[id], env).0, w.rows, w.used))
  {
  }

  lemma EditIsStep(w: World, host: string, after: Disk)
    requires Edited(w.disk, after, Workspace(host))
    ensures Next(w, Edit(host, after), World(after, w.rows, w.used))
  {
  }

  lemma ExpireIsStep(w: World, id: string, rowDeleted: bool)
    requires id in w.rows
    ensures Next(w, Expire(id, rowDeleted),
                 World(w.disk.(roots := w.disk.roots - {SnapDir(id)}), if rowDeleted then w.rows - {id} else w.rows, w.used))
  {
  }

  // Snapshots and workspaces share no inode

  ghost predicate Apart(d: Disk) {
    forall s, h, i ::
      SnapDir(s) in d.roots && Workspace(h) in d.roots && Owned(d.Tree(SnapDir(s)), i)
      ==> !Owned(d.Tree(Workspace(h)), i)
  }

  /** Size and modification time determine the content of every file. */
  ghost predicate Stamped(d: Disk) {
    forall i, j :: i in d.heap && j in d.heap
                   && |d.heap[i].content| == |d.heap[j].content| && d.heap[i].mtime == d.heap[j].mtime
                   ==> d.heap[i] == d.heap[j]
  }

  ghost predicate Inv(w: World) {
    && Valid(w.disk) && Apart(w.disk)
    && (forall s :: SnapDir(s) in w.disk.roots ==> s in w.used)
    && "" !in w.used && w.rows.Keys <= w.used
  }

  /** The part of `w` that belongs to snapshots given out before is the same in `w'`, or gone. */
  ghost predicate SnapshotsKept(w: World, w': World) {
    && w.used <= w'.used
    && (forall s :: s in w.used && s in w'.rows ==> s in w.rows && w'.rows[s] == w.rows[s])
    && forall s :: s in w.used && SnapDir(s) in w'.disk.roots ==>
                     SnapDir(s) in w.disk.roots && View(w'.disk, SnapDir(s)) == View(w.disk, SnapDir(s))
  }

  lemma MetaStaysOut(d: Disk, id: string, host: string, base: string, cloneEnv: Env, env: Env)
    requires Valid(d) && SnapDir(id) !in d.roots && id != base
    requires cloneEnv.stuck == {} && env.stuck == {}
    requires Capture(d, Workspace(host), SnapDir(id), SnapDir(base), cloneEnv, env).1 == Done
    ensures var t := Capture(d, Workspace(host), SnapDir(id), SnapDir(base), cloneEnv, env).0.Tree(SnapDir(id));
            META in t ==> t[META].Dir?
  {
    var empty := d.Put(SnapDir(id), map[]);
    NewRoot(d, SnapDir(id));
    CloneBaseFrame(empty, SnapDir(base), SnapDir(id), cloneEnv);
    if SnapDir(base) in d.roots {
      CopyPassProgress(empty, ShareInodes, SnapDir(base), SnapDir(id), cloneEnv);
    }
    var cloned := CloneBase(empty, SnapDir(base), SnapDir(id), cloneEnv).0;
    SyncSettles(cloned, Workspace(host), SnapDir(id), env);
  }

  lemma CaptureWrote(d: Disk, id: string, host: string, base: string, cloneEnv: Env, env: Env)
    requires Valid(d) && SnapDir(id) !in d.roots && id != base && env.stuck == {}
    ensures var d' := Capture(d, Workspace(host), SnapDir(id), SnapDir(base), cloneEnv, env).0;
            && Wrote(d, d', SnapDir(id), d.Tree(SnapDir(base)))
            && forall i :: i in d'.heap ==> d'.heap[i] in d.heap.Values
  {
    CaptureSources(d, Workspace(host), SnapDir(id), SnapDir(base), cloneEnv, env);
    var empty := d.Put(SnapDir(id), map[]);
    NewRoot(d, SnapDir(id));
    CloneBaseFrame(empty, SnapDir(base), SnapDir(id), cloneEnv);
    var cloned := CloneBase(empty, SnapDir(base), SnapDir(id), cloneEnv);
    if cloned.1 == Done {
      SyncFrame(cloned.0, Workspace(host), SnapDir(id), env);
      FrameTransitive(empty, cloned.0, Sync(cloned.0, Workspace(host), SnapDir(id), env).0, SnapDir(id), true);
    }
  }

  lemma MetaWrote(d: Disk, d1: Disk, r: Root, lent: Tree, meta: Blob)
    requires Valid(d) && Wrote(d, d1, r, lent)
    requires META in d1.Tree(r) ==> d1.Tree(r)[META].Dir?
    ensures Wrote(d, WriteMeta(d1, r, meta).0, r, lent)
    ensures forall i :: i in WriteMeta(d1, r, meta).0.heap ==>
                          (i in d1.heap && WriteMeta(d1, r, meta).0.heap[i] == d1.heap[i])
                          || WriteMeta(d1, r, meta).0.heap[i] == meta
  {
    var t := d1.Tree(r);
    if META !in t {
      PutMeta(t, d1.next);
      StoreFrame(d1, r, t[META := File(d1.next)], d1.next, meta, d1.next + 1);
    }
  }

  lemma PutMeta(t: Tree, i: nat)
    requires WellFormed(t) && META !in t
    ensures WellFormed(t[META := File(i)])
    ensures forall j :: Owned(t[META := File(i)], j) ==> j == i || Owned(t, j)
  {
  }

  lemma CreateWrote(d: Disk, id: string, host: string, base: string, cloneEnv: Env, env: Env, meta: Blob)
    requires Valid(d) && SnapDir(id) !in d.roots && id != base && cloneEnv.stuck == {} && env.stuck == {}
    ensures var d' := CreateSnapshot(d, id, host, base, cloneEnv, env, meta).0;
            && Wrote(d, d', SnapDir(id), d.Tree(SnapDir(base)))
            && forall i :: i in d'.heap ==> d'.heap[i] in d.heap.Values || d'.heap[i] == meta
  {
    CaptureWrote(d, id, host, base, cloneEnv, env);
    var captured := Capture(d, Workspace(host), SnapDir(id), SnapDir(base), cloneEnv, env);
    if captured.1 == Done {
      MetaStaysOut(d, id, host, base, cloneEnv, env);
      MetaWrote(d, captured.0, SnapDir(id), d.Tree(SnapDir(base)), meta);
    }
  }

  /** The meta file comes last: a creation ends well if it can be written as a new file, and then it is there beside the rest. */
  lemma CreateEnds(d: Disk, id: string, host: string, base: string, cloneEnv: Env, env: Env, meta: Blob)
    requires Valid(d) && SnapDir(id) !in d.roots && id != base && cloneEnv.stuck == {} && env.stuck == {}
    ensures var c := Capture(d, Workspace(host), SnapDir(id), SnapDir(base), cloneEnv, env);
            var r := CreateSnapshot(d, id, host, base, cloneEnv, env, meta);
            && r.1 == (if c.1 != Done then c.1 else if META in c.0.Tree(SnapDir(id)) then Failed else Done)
            && (r.1 != Done ==> r.0 == c.0)
            && (r.1 == Done ==>
                  var t := r.0.Tree(SnapDir(id));
                  && META in t && t[META].File? && BlobOf(r.0.heap, t[META].ino) == meta && t[META].ino !in c.0.heap
                  && t - {META} == c.0.Tree(SnapDir(id)))
  {
    var c := Capture(d, Workspace(host), SnapDir(id), SnapDir(base), cloneEnv, env);
    if c.1 == Done {
      MetaStaysOut(d, id, host, base, cloneEnv, env);
      CaptureWrote(d, id, host, base, cloneEnv, env);
      MetaEnds(c.0, SnapDir(id), meta);
    }
  }

  lemma MetaEnds(d: Disk, r: Root, meta: Blob)
    requires Valid(d) && (META in d.Tree(r) ==> d.Tree(r)[META].Dir?)
    ensures META in d.Tree(r) ==> WriteMeta(d, r, meta) == (d, Failed)
    ensures META !in d.Tree(r) ==>
              var d', o := WriteMeta(d, r, meta).0, WriteMeta(d, r, meta).1;
              && o == Done && META in d'.Tree(r) && d'.Tree(r)[META].File?
              && BlobOf(d'.heap, d'.Tree(r)[META].ino) == meta && d'.Tree(r)[META].ino !in d.heap
              && d'.Tree(r) - {META} == d.Tree(r)
  {
    assert d.next !in d.heap;
    assert META !in d.Tree(r) ==> d.Tree(r)[META := File(d.next)] - {META} == d.Tree(r);
  }

  lemma RollbackWrote(d: Disk, id: string, host: string, env: Env)
    requires Valid(d) && env.stuck == {}
    ensures var d' := RollbackTo(d, id, host, env).0;
            && Wrote(d, d', Workspace(host), map[])
            && forall i :: i in d'.heap ==> d'.heap[i] in d.heap.Values
  {
    NewRoot(d, Workspace(host));
    var ready := d.Put(Workspace(host), d.Tree(Workspace(host)));
    SyncFrame(ready, SnapDir(id), Workspace(host), env);
    SyncSources(ready, SnapDir(id), Workspace(host), env);
  }

  lemma OwnedInHeap(d: Disk, r: Root, i: nat)
    requires Valid(d) && Owned(d.Tree(r), i)
    ensures r in d.roots && i in d.heap && i < d.next
  {
  }

  lemma WroteKeepsView(d: Disk, d': Disk, r: Root, lent: Tree, q: Root)
    requires Valid(d) && Wrote(d, d', r, lent) && q in d.roots && q != r
    requires forall i :: Owned(d.Tree(q), i) ==> !Owned(d.Tree(r), i)
    ensures View(d', q) == View(d, q)
  {
  }

  /** Writing a workspace leaves every snapshot as it is. */
  lemma WorkspaceStep(w: World, d': Disk, host: string)
    requires Inv(w) && Wrote(w.disk, d', Workspace(host), map[])
    ensures Inv(w.(disk := d')) && SnapshotsKept(w, w.(disk := d'))
  {
    var d := w.disk;
    forall s, h, i | SnapDir(s) in d'.roots && Workspace(h) in d'.roots && Owned(d'.Tree(SnapDir(s)), i)
      ensures !Owned(d'.Tree(Workspace(h)), i)
    {
      OwnedInHeap(d, SnapDir(s), i);
    }
    forall s | SnapDir(s) in d.roots ensures View(d', SnapDir(s)) == View(d, SnapDir(s)) {
      forall i | Owned(d.Tree(SnapDir(s)), i) ensures !Owned(d.Tree(Workspace(host)), i) {
        if Owned(d.Tree(Workspace(host)), i) { OwnedInHeap(d, Workspace(host), i); }
      }
      WroteKeepsView(d, d', Workspace(host), map[], SnapDir(s));
    }
  }

  /** Writing a new snapshot directory, even one that is abandoned half-way, leaves the others as they are. */
  lemma SnapshotStep(w: World, d': Disk, id: string, base: string, rows: map<string, string>)
    requires Inv(w) && id != "" && id !in w.used && Wrote(w.disk, d', SnapDir(id), w.disk.Tree(SnapDir(base)))
    requires forall s :: s in rows && s != id ==> s in w.rows && rows[s] == w.rows[s]
    ensures Inv(World(d', rows, w.used + {id})) && SnapshotsKept(w, World(d', rows, w.used + {id}))
  {
    var d := w.disk;
    forall s, h, i | SnapDir(s) in d'.roots && Workspace(h) in d'.roots && Owned(d'.Tree(SnapDir(s)), i)
      ensures !Owned(d'.Tree(Workspace(h)), i)
    {
      if Owned(d.Tree(Workspace(h)), i) { OwnedInHeap(d, Workspace(h), i); }
      if Owned(d.Tree(SnapDir(base)), i) { OwnedInHeap(d, SnapDir(base), i); }
    }
    forall s | s != id && SnapDir(s) in d.roots ensures View(d', SnapDir(s)) == View(d, SnapDir(s)) {
      WroteKeepsView(d, d', SnapDir(id), d.Tree(SnapDir(base)), SnapDir(s));
    }
  }

  /** No directory goes but that of the snapshot that expires, none of an earlier snapshot comes back, and no row goes but its. */
  ghost predicate OnlyExpires(w: World, op: Op, w': World) {
    && (forall r :: r in w.disk.roots ==>
          (r in w'.disk.roots <==> !(op.Expire? && r == SnapDir(op.id))))
    && (forall s :: s in w.used && SnapDir(s) in w'.disk.roots ==> SnapDir(s) in w.disk.roots)
    && (forall s :: s in w.rows && !(op.Expire? && s == op.id) ==> s in w'.rows && w'.rows[s] == w.rows[s])
  }

  /** One step of the service keeps the invariant and every earlier snapshot, the one that expires excepted. */
  lemma StepKeeps(w: World, op: Op, w': World)
    requires Inv(w) && Next(w, op, w')
    ensures Inv(w') && SnapshotsKept(w, w') && OnlyExpires(w, op, w')
  {
    match op
    case Create(id, host, base, cloneEnv, env, meta, _) =>
      CreateWrote(w.disk, id, host, base, cloneEnv, env, meta);
      SnapshotStep(w, w'.disk, id, base, w'.rows);
    case Rollback(id, env) =>
      RollbackWrote(w.disk, id, w.rows[id], env);
      WorkspaceStep(w, w'.disk, w.rows[id]);
    case Edit(host, after) =>
      WorkspaceStep(w, after, host);
    case Expire(id, rowDeleted) =>
      var d' := RemoveSnapshotDir(w.disk, id);
      assert forall r :: r in d'.roots ==> d'.roots[r] == w.disk.roots[r] && View(d', r) == View(w.disk, r);
  }

  lemma StepKeepsStamps(w: World, op: Op, w': World)
    requires Inv(w) && Stamped(w.disk) && Next(w, op, w')
    ensures Stamped(w'.disk)
  {
    match op
    case Create(id, host, base, cloneEnv, env, meta, _) =>
      CreateWrote(w.disk, id, host, base, cloneEnv, env, meta);
    case Rollback(id, env) =>
      RollbackWrote(w.disk, id, w.rows[id], env);
    case Edit(host, after) =>
    case Expire(id, rowDeleted) =>
  }
}

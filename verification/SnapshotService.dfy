/**
The snapshot code in its own form: walk callbacks that change the tree in
place, a growing set of seen paths, a list of stale ones, and a removal loop
that runs backwards. Each method is proved against the function it computes.
*/
module SnapshotService {
  import opened Order
  import opened Text
  import opened FileTree
  import opened Mirror
  import opened MirrorProofs
  import opened SnapshotHistory
  import opened SnapshotProofs

  /** filepath.Walk, as the list of paths in the order they are visited. */
  method ListWalk(t: Tree) returns (order: seq<Path>)
    ensures order == Walk(t)
  {
    PathLessStrictTotal();
    order := Sorted(PathLess, t.Keys);
  }

  lemma {:induction false} PassStops(d: Disk, mode: Mode, src: Root, dst: Root, order: seq<Path>, n: nat, env: Env)
    requires n <= |order| && Pass(d, mode, src, dst, order, n, env).1 != Done
    ensures Pass(d, mode, src, dst, order, |order|, env) == Pass(d, mode, src, dst, order, n, env)
    decreases |order| - n
  {
    if n < |order| {
      PassStops(d, mode, src, dst, order, n + 1, env);
    }
  }

  lemma {:induction false} PruneStops(t: Tree, stales: seq<Path>, k: nat, env: Env)
    requires k <= |stales| && Prune(t, stales, k, env).1 != Done
    ensures Prune(t, stales, 0, env) == Prune(t, stales, k, env)
  {
    if k > 0 {
      PruneStops(t, stales, k - 1, env);
    }
  }

  lemma SeenStep(order: seq<Path>, i: nat)
    requires i < |order|
    ensures First(order, i + 1) - {META}
            == if order[i] != META then First(order, i) - {META} + {order[i]} else First(order, i) - {META}
  {
  }

  /** The second walk of syncTree. */
  method CollectStales(t: Tree, seen: set<Path>) returns (stales: seq<Path>)
    ensures stales == Stales(Walk(t), |Walk(t)|, seen)
  {
    var order := ListWalk(t);
    stales := [];
    for i := 0 to |order|
      invariant stales == Stales(order, i, seen)
    {
      if order[i] != META && order[i] !in seen {
        stales := stales + [order[i]];
      }
    }
  }

  /** The removal loop of syncTree, last stale path first. */
  method RemoveStales(t0: Tree, stales: seq<Path>, env: Env) returns (t: Tree, o: Outcome)
    ensures (t, o) == Prune(t0, stales, 0, env)
  {
    t, o := t0, Done;
    var k := |stales|;
    while k > 0
      invariant 0 <= k <= |stales| && o == Done && (t, o) == Prune(t0, stales, k, env)
    {
      k := k - 1;
      var r := RemoveOne(t, stales[k], env);
      t, o := r.0, r.1;
      if o != Done {
        PruneStops(t0, stales, k, env);
        return;
      }
    }
  }

  datatype Reply = Ok | BadRequest | NotFound | Error

  /** The answer of the store about the sandbox of a snapshot. */
  datatype Lookup = Found(image: string) | Absent | Unknown

  lemma CreationHolds(d: Disk, id: string, host: string, base: string, cloneEnv: Env, env: Env, meta: Blob)
    requires Valid(d) && SnapDir(id) !in d.roots && id != base && cloneEnv.stuck == {} && env.stuck == {}
    requires CreateSnapshot(d, id, host, base, cloneEnv, env, meta).1 == Done
    ensures var d' := CreateSnapshot(d, id, host, base, cloneEnv, env, meta).0;
            && META in View(d', SnapDir(id)) && View(d', SnapDir(id))[META] == FileEntry(meta)
            && (Stamped(d) && NoLinkInTheWay(d.Tree(Workspace(host)), d.Tree(SnapDir(base)), d.heap, env)
                ==> Mirrors(View(d, Workspace(host)), View(d', SnapDir(id))))
  {
    CreateEnds(d, id, host, base, cloneEnv, env, meta);
    if Stamped(d) && NoLinkInTheWay(d.Tree(Workspace(host)), d.Tree(SnapDir(base)), d.heap, env) {
      StampedBlind(d, Workspace(host), SnapDir(base), env);
      CreatedMirrors(d, Create(id, host, base, cloneEnv, env, meta, true));
    }
  }

  /**
  The state of the service: the disk as three tables of its own, the snapshot
  rows of the store, and every snapshot id handed out so far.
  */
  class Service {
    var roots: map<Root, Tree>
    var heap: map<nat, Blob>
    var next: nat
    var rows: map<string, string>
    ghost var used: set<string>

    function Disk(): Disk
      reads this
    {
      FileTree.Disk(roots, heap, next)
    }

    /** The tree of a root, empty when the root does not exist. */
    function TreeAt(r: Root): Tree
      reads this
    {
      Disk().Tree(r)
    }

    method CopyRegularFile(dst: Root, p: Path, blob: Blob, env: Env) returns (o: Outcome)
      modifies this`roots, this`heap, this`next
      ensures (Disk(), o) == CopyFile(old(Disk()), dst, p, blob, env)
    {
      var before := TreeAt(dst);
      var t := AddDirs(before, AllAbove(p));
      if p in before && p in env.stuck {
        roots := roots[dst := t];
        match before[p] {
          case File(j) => heap := heap[j := blob]; o := Done;
          case Link(_) => o := LeftTree;
          case _ => o := Failed;
        }
        return;
      }
      t := RemoveAll(t, p);
      roots := roots[dst := t[p := File(next)]];
      heap := heap[next := blob];
      next := next + 1;
      o := Done;
    }

    method VisitEntry(mode: Mode, src: Root, dst: Root, p: Path, env: Env) returns (o: Outcome)
      modifies this`roots, this`heap, this`next
      ensures (Disk(), o) == Visit(old(Disk()), mode, src, dst, p, env)
    {
      if p == META || p !in TreeAt(src) { return Done; }
      if p in env.faulty { return Failed; }
      var node := TreeAt(src)[p];
      if node.Special? { return Done; }
      var way := WayTo(TreeAt(dst), p);
      if way.ThroughLink? { return LeftTree; }
      if way.Obstructed? { return Failed; }
      match node
      case Dir =>
        var r := MkdirAll(TreeAt(dst), p, env);
        roots, o := roots[dst := r.0], r.1;
      case Link(target) =>
        var r := PlaceLink(TreeAt(dst), p, target, env);
        roots, o := roots[dst := r.0], r.1;
      case File(i) =>
        if mode.ShareInodes? {
          var r := PlaceHardLink(TreeAt(dst), p, i, env);
          roots, o := roots[dst := r.0], r.1;
        } else if KeepsFile(Disk(), dst, p, BlobOf(heap, i), env) {
          o := Done;
        } else {
          o := CopyRegularFile(dst, p, BlobOf(heap, i), env);
        }
      case Special => o := Done;
    }

    method CloneSnapshotBase(base: Root, target: Root, env: Env) returns (o: Outcome)
      modifies this`roots, this`heap, this`next
      ensures (Disk(), o) == CloneBase(old(Disk()), base, target, env)
    {
      if base !in roots { return Done; }
      var order := ListWalk(TreeAt(base));
      for i := 0 to |order|
        invariant (Disk(), Done) == Pass(old(Disk()), ShareInodes, base, target, order, i, env)
      {
        o := VisitEntry(ShareInodes, base, target, order[i], env);
        if o != Done {
          PassStops(old(Disk()), ShareInodes, base, target, order, i + 1, env);
          return;
        }
      }
      o := Done;
    }

    /** The first walk of syncTree. */
    method CopyWalk(src: Root, dst: Root, env: Env) returns (o: Outcome, seen: set<Path>)
      modifies this`roots, this`heap, this`next
      ensures (Disk(), o) == CopyPass(old(Disk()), CopyData, src, dst, env)
      ensures o == Done ==> seen == old(TreeAt(src)).Keys - {META}
    {
      var order := ListWalk(TreeAt(src));
      seen := {};
      for i := 0 to |order|
        invariant (Disk(), Done) == Pass(old(Disk()), CopyData, src, dst, order, i, env)
        invariant seen == First(order, i) - {META}
      {
        SeenStep(order, i);
        if order[i] != META {
          seen := seen + {order[i]};
        }
        o := VisitEntry(CopyData, src, dst, order[i], env);
        if o != Done {
          PassStops(old(Disk()), CopyData, src, dst, order, i + 1, env);
          return;
        }
      }
      FirstIsAll(old(TreeAt(src)));
      o := Done;
    }

    method SyncTree(src: Root, dst: Root, env: Env) returns (o: Outcome)
      modifies this`roots, this`heap, this`next
      ensures (Disk(), o) == Sync(old(Disk()), src, dst, env)
    {
      if src !in roots { return Failed; }
      var seen: set<Path>;
      o, seen := CopyWalk(src, dst, env);
      if o != Done { return; }
      var t := TreeAt(dst);
      var stales := CollectStales(t, seen);
      t, o := RemoveStales(t, stales, env);
      roots := roots[dst := t];
    }

    ghost function World(): SnapshotHistory.World
      reads this
    {
      SnapshotHistory.World(Disk(), rows, used)
    }

    /**
    CreateSnapshot for a sandbox with a writable mount; `busy` is the answer of ensureSnapshotSafe, `stored`
    that of the insert of the row, which comes last.
    */
    method CreateWorkspaceSnapshot(
      rootDirSet: bool, busy: bool, stored: bool, id: string, host: string, base: string, cloneEnv: Env, env: Env,
      meta: Blob)
      returns (reply: Reply)
      modifies this
      ensures !rootDirSet || busy <==> reply == BadRequest
      ensures reply == BadRequest ==> World() == old(World())
      ensures reply != BadRequest ==>
                var r := CreateSnapshot(old(Disk()), id, host, base, cloneEnv, env, meta);
                && reply == (if r.1 == Done && stored then Ok else Error)
                && World() == SnapshotHistory.World(
                                r.0, if r.1 == Done && stored then old(rows)[id := host] else old(rows), old(used) + {id})
      ensures reply == Ok && old(Inv(World())) && id !in old(used) && id != base && cloneEnv.stuck == {} && env.stuck == {}
              ==> META in View(Disk(), SnapDir(id)) && View(Disk(), SnapDir(id))[META] == FileEntry(meta)
      ensures reply == Ok && old(Inv(World()) && Stamped(Disk())) && id !in old(used) && id != base
              && cloneEnv.stuck == {} && env.stuck == {}
              && old(NoLinkInTheWay(TreeAt(Workspace(host)), TreeAt(SnapDir(base)), heap, env))
              ==> Mirrors(old(View(Disk(), Workspace(host))), View(Disk(), SnapDir(id)))
    {
      if !rootDirSet || busy { return BadRequest; }
      var target := SnapDir(id);
      ghost var before := Disk();
      used := used + {id};
      roots := roots[target := TreeAt(target)];
      var o := CloneSnapshotBase(SnapDir(base), target, cloneEnv);
      if o != Done { return Error; }
      o := SyncTree(Workspace(host), target, env);
      if o != Done { return Error; }
      var r := WriteMeta(Disk(), target, meta);
      roots, heap, next := r.0.roots, r.0.heap, r.0.next;
      if r.1 != Done || !stored { return Error; }
      rows := rows[id := host];
      reply := Ok;
      if old(Inv(World())) && id !in old(used) && id != base && cloneEnv.stuck == {} && env.stuck == {} {
        CreationHolds(before, id, host, base, cloneEnv, env, meta);
      }
    }

    method RollbackWorkspaceSnapshot(busy: bool, id: string, env: Env) returns (reply: Reply)
      modifies this`roots, this`heap, this`next
      ensures id !in rows ==> reply == NotFound
      ensures id in rows && (rows[id] == "" || busy) ==> reply == BadRequest
      ensures id !in rows || rows[id] == "" || busy ==> World() == old(World())
      ensures id in rows && rows[id] != "" && !busy ==>
                var r := RollbackTo(old(Disk()), id, rows[id], env);
                && Disk() == r.0
                && reply == (if SnapDir(id) !in old(roots) then NotFound else if r.1 == Done then Ok else Error)
      ensures reply == Ok && old(Inv(World()) && Stamped(Disk())) && env.stuck == {}
              && old(NoLinkInTheWay(TreeAt(SnapDir(id)), TreeAt(Workspace(rows[id])), heap, env))
              ==> Mirrors(old(View(Disk(), SnapDir(id))), View(Disk(), Workspace(rows[id])))
    {
      if id !in rows { return NotFound; }
      if rows[id] == "" || busy { return BadRequest; }
      var ws := Workspace(rows[id]);
      roots := roots[ws := TreeAt(ws)];
      if SnapDir(id) !in roots { return NotFound; }
      var o := SyncTree(SnapDir(id), ws, env);
      reply := if o == Done then Ok else Error;
      if reply == Ok && old(Inv(World()) && Stamped(Disk())) && env.stuck == {} {
        RolledBack(old(World()), id, rows[id], env);
      }
    }

    /**
    Refusals first: the sandbox cannot be looked up, or runs the image, or there is no snapshot directory. Then
    os.RemoveAll of the directory, then the row; either may fail and leave the rest for the next round.
    */
    method CleanupOneExpiredSnapshot(
      id: string, imageRef: string, sandbox: Lookup, rootDirSet: bool, removeFails: bool, deleteFails: bool)
      returns (reply: Reply)
      modifies this`roots, this`rows
      ensures var refused := sandbox.Unknown? || (sandbox.Found? && Trim(sandbox.image) == Trim(imageRef)) || !rootDirSet;
              if refused || removeFails then World() == old(World()) && reply == Error
              else
                && roots == old(roots) - {SnapDir(id)} && heap == old(heap) && next == old(next)
                && rows == (if deleteFails then old(rows) else old(rows) - {id})
                && reply == (if deleteFails then Error else if id in old(rows) then Ok else NotFound)
      ensures forall r :: r in roots ==> View(Disk(), r) == old(View(Disk(), r))
    {
      match sandbox {
        case Found(image) => if Trim(image) == Trim(imageRef) { return Error; }
        case Absent =>
        case Unknown => return Error;
      }
      if !rootDirSet || removeFails { return Error; }
      roots := roots - {SnapDir(id)};
      assert forall r :: r in roots ==> View(Disk(), r) == old(View(Disk(), r));
      if deleteFails { return Error; }
      reply := if id in rows then Ok else NotFound;
      rows := rows - {id};
    }
  }
}

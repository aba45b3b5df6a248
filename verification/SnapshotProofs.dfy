/**
The snapshot guarantees over whole runs of the service, and the inputs on which
they fail.
*/
module SnapshotProofs {
  import opened FileTree
  import opened Mirror
  import opened MirrorProofs
  import opened MirrorOutcome
  import opened SnapshotHistory

  ghost predicate Run(ws: seq<World>, ops: seq<Op>) {
    && |ws| == |ops| + 1
    && forall i :: 0 <= i < |ops| ==> Next(ws[i], ops[i], ws[i + 1])
  }

  lemma {:induction false} RunKeeps(ws: seq<World>, ops: seq<Op>, i: nat, j: nat)
    requires Run(ws, ops) && i <= j < |ws| && Inv(ws[i])
    ensures Inv(ws[j]) && SnapshotsKept(ws[i], ws[j])
    ensures Stamped(ws[i].disk) ==> Stamped(ws[j].disk)
    decreases j - i
  {
    if i < j {
      RunKeeps(ws, ops, i, j - 1);
      StepKeeps(ws[j - 1], ops[j - 1], ws[j]);
      if Stamped(ws[i].disk) {
        StepKeepsStamps(ws[j - 1], ops[j - 1], ws[j]);
      }
    }
  }

  /** A snapshot directory that still exists holds exactly what it held when its creation ended. */
  lemma SnapshotsNeverChange(ws: seq<World>, ops: seq<Op>, i: nat, j: nat, id: string)
    requires Run(ws, ops) && i <= j < |ws| && Inv(ws[0])
    requires id in ws[i].used && SnapDir(id) in ws[j].disk.roots
    ensures SnapDir(id) in ws[i].disk.roots
    ensures View(ws[j].disk, SnapDir(id)) == View(ws[i].disk, SnapDir(id))
  {
    RunKeeps(ws, ops, 0, i);
    RunKeeps(ws, ops, i, j);
  }

  /** The snapshot expires in the steps from `i` up to `j`. */
  ghost predicate ExpiresBetween(ops: seq<Op>, i: nat, j: nat, id: string)
    requires j <= |ops|
  {
    exists k :: i <= k < j && ops[k].Expire? && ops[k].id == id
  }

  /** A snapshot directory goes when its own snapshot expires, and only then; its row does not go before. */
  lemma {:induction false} LivesUntilExpired(ws: seq<World>, ops: seq<Op>, i: nat, j: nat, id: string)
    requires Run(ws, ops) && i <= j < |ws| && Inv(ws[0]) && SnapDir(id) in ws[i].disk.roots
    ensures SnapDir(id) in ws[j].disk.roots <==> !ExpiresBetween(ops, i, j, id)
    ensures id in ws[i].rows && !ExpiresBetween(ops, i, j, id) ==> id in ws[j].rows && ws[j].rows[id] == ws[i].rows[id]
    decreases j - i
  {
    if i < j {
      LivesUntilExpired(ws, ops, i, j - 1, id);
      RunKeeps(ws, ops, 0, i);
      RunKeeps(ws, ops, i, j - 1);
      StepKeeps(ws[j - 1], ops[j - 1], ws[j]);
      assert ExpiresBetween(ops, i, j, id)
        <==> ExpiresBetween(ops, i, j - 1, id) || (ops[j - 1].Expire? && ops[j - 1].id == id);
    }
  }

  /** A destination link that the mirror leaves where the source has a directory or a file. */
  ghost predicate NoLinkInTheWay(srcTree: Tree, dstTree: Tree, heap: map<nat, Blob>, env: Env) {
    forall p :: p in srcTree && p in dstTree && p != META && dstTree[p].Link? ==>
                  && !srcTree[p].Dir?
                  && (srcTree[p].File? ==>
                        var info := BlobOf(heap, srcTree[p].ino);
                        env.StatThrough(p) != Regular(|info.content|, info.mtime))
  }

  lemma StampedBlind(d: Disk, src: Root, dst: Root, env: Env)
    requires Valid(d) && Stamped(d)
    ensures NoneBlind(d.Tree(src), d.Tree(dst), d.heap, env)
            <==> NoLinkInTheWay(d.Tree(src), d.Tree(dst), d.heap, env)
  {
  }

  lemma MirrorsCompose(a: Contents, b: Contents, c: Contents)
    requires Mirrors(a, b)
    ensures Mirrors(b, c) ==> Mirrors(a, c)
    ensures (forall p :: p in a ==> !a[p].SpecialEntry?) && Mirrors(a, c) ==> Mirrors(b, c)
  {
  }

  lemma CreatedMirrors(d: Disk, op: Op)
    requires Valid(d) && op.Create? && SnapDir(op.id) !in d.roots && op.id != op.base
    requires op.cloneEnv.stuck == {} && op.env.stuck == {}
    requires CreateSnapshot(d, op.id, op.host, op.base, op.cloneEnv, op.env, op.meta).1 == Done
    requires NoneBlind(d.Tree(Workspace(op.host)), d.Tree(SnapDir(op.base)), d.heap, op.env)
    ensures Mirrors(View(d, Workspace(op.host)),
                    View(CreateSnapshot(d, op.id, op.host, op.base, op.cloneEnv, op.env, op.meta).0, SnapDir(op.id)))
  {
    IncrementalEqualsFull(d, Workspace(op.host), SnapDir(op.id), SnapDir(op.base), op.cloneEnv, op.env);
    MetaStaysOut(d, op.id, op.host, op.base, op.cloneEnv, op.env);
    CaptureWrote(d, op.id, op.host, op.base, op.cloneEnv, op.env);
    var captured := Capture(d, Workspace(op.host), SnapDir(op.id), SnapDir(op.base), op.cloneEnv, op.env).0;
    MetaOnly(captured, SnapDir(op.id), op.meta);
  }

  lemma MetaOnly(d: Disk, r: Root, meta: Blob)
    requires Valid(d) && r in d.roots && (META in d.Tree(r) ==> d.Tree(r)[META].Dir?)
    ensures forall p :: p != META ==>
                          (p in View(d, r) <==> p in View(WriteMeta(d, r, meta).0, r))
                          && (p in View(d, r) ==> View(d, r)[p] == View(WriteMeta(d, r, meta).0, r)[p])
  {
  }

  /**
  Rollback restores. Take a snapshot of a workspace, let anything happen, roll
  back to it: the workspace is as it was if no link is in the way, and, when it
  held no special files, only then. What a link shows is what it shows when the
  walk comes to it; `SnapshotForecast` tells that from the trees before.
  */
  lemma RollbackRestores(ws: seq<World>, ops: seq<Op>, i: nat, j: nat)
    requires Run(ws, ops) && i < j < |ops| && Inv(ws[0]) && Stamped(ws[0].disk)
    requires ops[i].Create? && ops[i].id in ws[i + 1].rows
    requires var d := ws[i].disk;
             NoLinkInTheWay(d.Tree(Workspace(ops[i].host)), d.Tree(SnapDir(ops[i].base)), d.heap, ops[i].env)
    requires ops[j].Rollback? && ops[j].id == ops[i].id
    requires RollbackTo(ws[j].disk, ops[i].id, ops[i].host, ops[j].env).1 == Done
    ensures var before, after := View(ws[i].disk, Workspace(ops[i].host)), View(ws[j + 1].disk, Workspace(ops[i].host));
            var unhindered := NoLinkInTheWay(ws[j].disk.Tree(SnapDir(ops[i].id)),
                                             ws[j].disk.Tree(Workspace(ops[i].host)), ws[j].disk.heap, ops[j].env);
            && (unhindered ==> Mirrors(before, after))
            && ((forall p :: p in before ==> !before[p].SpecialEntry?) && Mirrors(before, after) ==> unhindered)
  {
    var id, ws0 := ops[i].id, Workspace(ops[i].host);
    RunKeeps(ws, ops, 0, i);
    assert Next(ws[i], ops[i], ws[i + 1]);
    SnapshotTaken(ws[i], ops[i], ws[i + 1]);
    RunKeeps(ws, ops, 0, i + 1);
    RunKeeps(ws, ops, i + 1, j);
    assert Next(ws[j], ops[j], ws[j + 1]);
    RolledBack(ws[j], id, ops[i].host, ops[j].env);
    MirrorsCompose(View(ws[i].disk, ws0), View(ws[j].disk, SnapDir(id)), View(ws[j + 1].disk, ws0));
  }

  lemma SnapshotTaken(w: World, op: Op, w': World)
    requires Inv(w) && Stamped(w.disk) && Next(w, op, w')
    requires op.Create? && op.id in w'.rows
    requires NoLinkInTheWay(w.disk.Tree(Workspace(op.host)), w.disk.Tree(SnapDir(op.base)), w.disk.heap, op.env)
    ensures op.id in w'.used && w'.rows[op.id] == op.host
    ensures Mirrors(View(w.disk, Workspace(op.host)), View(w'.disk, SnapDir(op.id)))
  {
    StampedBlind(w.disk, Workspace(op.host), SnapDir(op.base), op.env);
    CreatedMirrors(w.disk, op);
  }

  lemma RolledBack(w: World, id: string, host: string, env: Env)
    requires Inv(w) && Stamped(w.disk) && env.stuck == {}
    requires RollbackTo(w.disk, id, host, env).1 == Done
    ensures SnapDir(id) in w.disk.roots
    ensures Mirrors(View(w.disk, SnapDir(id)), View(RollbackTo(w.disk, id, host, env).0, Workspace(host)))
            <==> NoLinkInTheWay(w.disk.Tree(SnapDir(id)), w.disk.Tree(Workspace(host)), w.disk.heap, env)
  {
    var d := w.disk;
    var ready := d.Put(Workspace(host), d.Tree(Workspace(host)));
    NewRoot(d, Workspace(host));
    SyncExact(ready, SnapDir(id), Workspace(host), env);
    StampedBlind(ready, SnapDir(id), Workspace(host), env);
    assert View(ready, SnapDir(id)) == View(d, SnapDir(id));
  }

  // Links

  /** A rollback leaves the workspace exactly when the trees before it say so, given the answers about links. */
  lemma RollbackLeaves(d: Disk, id: string, host: string, env: Env)
    requires Valid(d) && env.stuck == {}
    ensures RollbackTo(d, id, host, env).1 == LeftTree
            <==> SnapDir(id) in d.roots && RunTrouble(d.Tree(SnapDir(id)), d.Tree(Workspace(host)), env) == LeftTree
  {
    NewRoot(d, Workspace(host));
    if SnapDir(id) in d.roots {
      SyncOutcome(d.Put(Workspace(host), d.Tree(Workspace(host))), SnapDir(id), Workspace(host), env);
    }
  }

  /** A creation leaves the new directory exactly when the clone of the base and the workspace say so, given those answers. */
  lemma CreateLeaves(d: Disk, id: string, host: string, base: string, cloneEnv: Env, env: Env, meta: Blob)
    requires Valid(d) && SnapDir(id) !in d.roots && id != base && cloneEnv.stuck == {} && env.stuck == {}
    ensures var cloned := CloneBase(d.Put(SnapDir(id), map[]), SnapDir(base), SnapDir(id), cloneEnv);
            CreateSnapshot(d, id, host, base, cloneEnv, env, meta).1 == LeftTree
            <==> cloned.1 == Done && Workspace(host) in d.roots
                 && RunTrouble(d.Tree(Workspace(host)), cloned.0.Tree(SnapDir(id)), env) == LeftTree
  {
    var empty := d.Put(SnapDir(id), map[]);
    NewRoot(d, SnapDir(id));
    CloneStaysInTree(empty, base, id, cloneEnv);
    CloneBaseFrame(empty, SnapDir(base), SnapDir(id), cloneEnv);
    var cloned := CloneBase(empty, SnapDir(base), SnapDir(id), cloneEnv);
    if cloned.1 == Done {
      if Workspace(host) in d.roots {
        SyncOutcome(cloned.0, Workspace(host), SnapDir(id), env);
      }
      if Capture(d, Workspace(host), SnapDir(id), SnapDir(base), cloneEnv, env).1 == Done {
        MetaStaysOut(d, id, host, base, cloneEnv, env);
      }
    }
  }

  lemma CloneStaysInTree(d: Disk, base: string, id: string, env: Env)
    requires Valid(d) && SnapDir(id) in d.roots && d.Tree(SnapDir(id)) == map[] && id != base && env.stuck == {}
    ensures CloneBase(d, SnapDir(base), SnapDir(id), env).1 != LeftTree
  {
    if SnapDir(base) in d.roots {
      LeavesExactly(d, ShareInodes, SnapDir(base), SnapDir(id), env);
    }
  }

  ghost predicate NoLinks(t: Tree) {
    forall p :: p in t ==> !t[p].Link?
  }

  ghost predicate LinkFree(d: Disk) {
    forall r :: r in d.roots ==> NoLinks(d.roots[r])
  }

  lemma {:induction false} PassMakesNoLinks(d: Disk, mode: Mode, src: Root, dst: Root, order: seq<Path>, n: nat, env: Env)
    requires Valid(d) && src in d.roots && dst in d.roots && src != dst && n <= |order|
    requires NoLinks(d.Tree(src)) && NoLinks(d.Tree(dst))
    ensures NoLinks(Pass(d, mode, src, dst, order, n, env).0.Tree(dst))
  {
    if n > 0 {
      PassMakesNoLinks(d, mode, src, dst, order, n - 1, env);
      PassFrame(d, mode, src, dst, order, n - 1, env);
      VisitMakesNoLinks(Pass(d, mode, src, dst, order, n - 1, env).0, mode, src, dst, order[n - 1], env);
    }
  }

  lemma VisitMakesNoLinks(d: Disk, mode: Mode, src: Root, dst: Root, p: Path, env: Env)
    requires NoLinks(d.Tree(src)) && NoLinks(d.Tree(dst))
    ensures NoLinks(Visit(d, mode, src, dst, p, env).0.Tree(dst))
  {
  }

  lemma SyncMakesNoLinks(d: Disk, src: Root, dst: Root, env: Env)
    requires Valid(d) && dst in d.roots && src != dst && NoLinks(d.Tree(src)) && NoLinks(d.Tree(dst))
    ensures NoLinks(Sync(d, src, dst, env).0.Tree(dst))
  {
    if src in d.roots {
      var order := Walk(d.Tree(src));
      PassMakesNoLinks(d, CopyData, src, dst, order, |order|, env);
      PassFrame(d, CopyData, src, dst, order, |order|, env);
      var t := CopyPass(d, CopyData, src, dst, env).0.Tree(dst);
      PruneKeeps(t, Stales(Walk(t), |Walk(t)|, d.Tree(src).Keys - {META}), 0, env);
    }
  }

  lemma CloneMakesNoLinks(d: Disk, base: Root, target: Root, env: Env)
    requires Valid(d) && target in d.roots && base != target && NoLinks(d.Tree(base)) && NoLinks(d.Tree(target))
    ensures NoLinks(CloneBase(d, base, target, env).0.Tree(target))
  {
    if base in d.roots {
      PassMakesNoLinks(d, ShareInodes, base, target, Walk(d.Tree(base)), |Walk(d.Tree(base))|, env);
    }
  }

  lemma CaptureMakesNoLinks(d: Disk, ws: Root, target: Root, base: Root, cloneEnv: Env, env: Env)
    requires Valid(d) && ws != target && base != target && target !in d.roots && NoLinks(d.Tree(base)) && NoLinks(d.Tree(ws))
    ensures NoLinks(Capture(d, ws, target, base, cloneEnv, env).0.Tree(target))
  {
    var empty := d.Put(target, map[]);
    NewRoot(d, target);
    CloneBaseFrame(empty, base, target, cloneEnv);
    CloneMakesNoLinks(empty, base, target, cloneEnv);
    var cloned := CloneBase(empty, base, target, cloneEnv);
    if cloned.1 == Done {
      SyncMakesNoLinks(cloned.0, ws, target, env);
    }
  }

  lemma MetaMakesNoLinks(d: Disk, r: Root, meta: Blob)
    requires NoLinks(d.Tree(r))
    ensures NoLinks(WriteMeta(d, r, meta).0.Tree(r))
  {
  }

  lemma CreateMakesNoLinks(d: Disk, op: Op)
    requires op.Create? && Valid(d) && SnapDir(op.id) !in d.roots && op.id != op.base && LinkFree(d)
    ensures NoLinks(CreateSnapshot(d, op.id, op.host, op.base, op.cloneEnv, op.env, op.meta).0.Tree(SnapDir(op.id)))
  {
    CaptureMakesNoLinks(d, Workspace(op.host), SnapDir(op.id), SnapDir(op.base), op.cloneEnv, op.env);
    MetaMakesNoLinks(Capture(d, Workspace(op.host), SnapDir(op.id), SnapDir(op.base), op.cloneEnv, op.env).0,
                     SnapDir(op.id), op.meta);
  }

  lemma CreateStays(d: Disk, op: Op)
    requires op.Create? && Valid(d) && SnapDir(op.id) !in d.roots && op.id != op.base && LinkFree(d)
    requires op.cloneEnv.stuck == {} && op.env.stuck == {}
    ensures CreateSnapshot(d, op.id, op.host, op.base, op.cloneEnv, op.env, op.meta).1 != LeftTree
  {
    NewRoot(d, SnapDir(op.id));
    CreateLeaves(d, op.id, op.host, op.base, op.cloneEnv, op.env, op.meta);
    CloneMakesNoLinks(d.Put(SnapDir(op.id), map[]), SnapDir(op.base), SnapDir(op.id), op.cloneEnv);
    NoLinksNoTrouble(d.Tree(Workspace(op.host)),
                     CloneBase(d.Put(SnapDir(op.id), map[]), SnapDir(op.base), SnapDir(op.id), op.cloneEnv).0.Tree(SnapDir(op.id)),
                     op.env);
  }

  lemma RollbackMakesNoLinks(d: Disk, id: string, host: string, env: Env)
    requires Valid(d) && LinkFree(d)
    ensures NoLinks(RollbackTo(d, id, host, env).0.Tree(Workspace(host)))
  {
    NewRoot(d, Workspace(host));
    SyncMakesNoLinks(d.Put(Workspace(host), d.Tree(Workspace(host))), SnapDir(id), Workspace(host), env);
  }

  lemma RollbackStays(d: Disk, id: string, host: string, env: Env)
    requires Valid(d) && LinkFree(d) && env.stuck == {}
    ensures RollbackTo(d, id, host, env).1 != LeftTree
  {
    RollbackLeaves(d, id, host, env);
    NoLinksNoTrouble(d.Tree(SnapDir(id)), d.Tree(Workspace(host)), env);
  }

  lemma OneTreeWithoutLinks(d: Disk, d': Disk, r: Root, lent: Tree)
    requires LinkFree(d) && Wrote(d, d', r, lent) && NoLinks(d'.Tree(r))
    ensures LinkFree(d')
  {
  }

  lemma NoLinksNoTrouble(srcTree: Tree, dstTree: Tree, env: Env)
    requires NoLinks(dstTree)
    ensures RunTrouble(srcTree, dstTree, env) != LeftTree
  {
    FirstTroubleLeaves(srcTree, dstTree, Walk(srcTree), |Walk(srcTree)|, env);
  }

  /** Without links no operation leaves its trees, and only edits bring links in. */
  lemma LinkFreeStep(w: World, op: Op, w': World)
    requires Inv(w) && LinkFree(w.disk) && Attempt(w, op, w')
    requires op.Edit? ==> LinkFree(w'.disk)
    ensures Next(w, op, w') && LinkFree(w'.disk)
  {
    match op
    case Create(id, host, base, cloneEnv, env, meta, _) =>
      CreateMakesNoLinks(w.disk, op);
      CreateStays(w.disk, op);
      CreateWrote(w.disk, id, host, base, cloneEnv, env, meta);
      OneTreeWithoutLinks(w.disk, w'.disk, SnapDir(id), w.disk.Tree(SnapDir(base)));
    case Rollback(id, env) =>
      RollbackMakesNoLinks(w.disk, id, w.rows[id], env);
      RollbackStays(w.disk, id, w.rows[id], env);
      RollbackWrote(w.disk, id, w.rows[id], env);
      OneTreeWithoutLinks(w.disk, w'.disk, Workspace(w.rows[id]), map[]);
    case _ =>
  }

  /** So whatever is attempted is a run to which the guarantees apply, as long as no edit brings in a link. */
  lemma {:induction false} LinkFreeRuns(ws: seq<World>, ops: seq<Op>, i: nat)
    requires |ws| == |ops| + 1 && i < |ws| && Inv(ws[0]) && LinkFree(ws[0].disk)
    requires forall j :: 0 <= j < |ops| ==> Attempt(ws[j], ops[j], ws[j + 1]) && (ops[j].Edit? ==> LinkFree(ws[j + 1].disk))
    ensures Run(ws[..i + 1], ops[..i]) && Inv(ws[i]) && LinkFree(ws[i].disk)
  {
    if i > 0 {
      LinkFreeRuns(ws, ops, i - 1);
      LinkFreeStep(ws[i - 1], ops[i - 1], ws[i]);
      StepKeeps(ws[i - 1], ops[i - 1], ws[i]);
      RunMore(ws, ops, i);
    }
  }

  lemma RunMore(ws: seq<World>, ops: seq<Op>, i: nat)
    requires 0 < i < |ws| && |ws| == |ops| + 1
    requires Run(ws[..i], ops[..i - 1]) && Next(ws[i - 1], ops[i - 1], ws[i])
    ensures Run(ws[..i + 1], ops[..i])
  {
    forall j | 0 <= j < i ensures Next(ws[..i + 1][j], ops[..i][j], ws[..i + 1][j + 1]) {
      if j < i - 1 {
        assert Next(ws[..i][j], ops[..i - 1][j], ws[..i][j + 1]);
      }
    }
  }

  // Where the guarantees stop

  /** The callback would truncate, through an ignored unlink failure, a file that another tree also holds. */
  ghost predicate Clobbers(d: Disk, src: Root, dst: Root, p: Path, env: Env) {
    var s, t := d.Tree(src), d.Tree(dst);
    && p != META && p in s && s[p].File? && p !in env.faulty && WayTo(t, p) == Clear
    && p in t && t[p].File? && p in env.stuck
    && !KeepsFile(d, dst, p, BlobOf(d.heap, s[p].ino), env)
    && exists r :: r in d.roots && r != dst && Owned(d.Tree(r), t[p].ino)
  }

  /** Where a callback of syncTree leaves the destination tree: below a link, or by opening a link that it could not unlink. */
  lemma CallbackLeaves(d: Disk, src: Root, dst: Root, p: Path, env: Env)
    ensures var s, t := d.Tree(src), d.Tree(dst);
            Visit(d, CopyData, src, dst, p, env).1 == LeftTree
            <==> && p != META && p in s && p !in env.faulty && !s[p].Special?
                 && (LinkAbove(t, p)
                     || (WayTo(t, p) == Clear && s[p].File? && p in t && t[p].Link? && p in env.stuck
                         && !KeepsFile(d, dst, p, BlobOf(d.heap, s[p].ino), env)))
  {
  }

  /** A callback that stays in its tree leaves every other tree as it is if and only if it does not clobber. */
  lemma VisitSparesOthers(d: Disk, src: Root, dst: Root, p: Path, env: Env)
    requires Valid(d) && src in d.roots && dst in d.roots && src != dst
    requires Visit(d, CopyData, src, dst, p, env).1 != LeftTree
    ensures (forall r :: r in d.roots && r != dst ==> View(Visit(d, CopyData, src, dst, p, env).0, r) == View(d, r))
            <==> !Clobbers(d, src, dst, p, env)
  {
    var d' := Visit(d, CopyData, src, dst, p, env).0;
    var t := d.Tree(dst);
    VisitFrame(d, CopyData, src, dst, p, env);
    if Clobbers(d, src, dst, p, env) {
      var r :| r in d.roots && r != dst && Owned(d.Tree(r), t[p].ino);
      var q :| q in d.Tree(r) && d.Tree(r)[q] == File(t[p].ino);
      assert View(d', r)[q] == FileEntry(BlobOf(d.heap, d.Tree(src)[p].ino));
      assert View(d, r)[q] == FileEntry(BlobOf(d.heap, t[p].ino));
    } else {
      forall r | r in d.roots && r != dst ensures View(d', r) == View(d, r) {
        OthersKept(d, src, dst, p, env, r);
      }
    }
  }

  /**
  What a callback does at a path that cannot be unlinked. A link fails where it stands. A file to be shared
  fails, too. A file to be copied is written into what is there, unless that looks the same: into the inode of a file,
  beyond a link, and not into anything else.
  */
  lemma StuckPath(d: Disk, mode: Mode, src: Root, dst: Root, p: Path, env: Env)
    requires Valid(d) && src in d.roots && dst in d.roots && src != dst
    requires p != META && p in d.Tree(src) && p !in env.faulty && p in d.Tree(dst) && p in env.stuck
    ensures var t, node, r := d.Tree(dst), d.Tree(src)[p], Visit(d, mode, src, dst, p, env);
            && (node.Link? || (node.File? && mode.ShareInodes?) ==> r == (d, Failed))
            && (node.File? && mode.CopyData? ==>
                  var blob := BlobOf(d.heap, node.ino);
                  r == if KeepsFile(d, dst, p, blob, env) then (d, Done)
                       else if t[p].File? then (d.(heap := d.heap[t[p].ino := blob]), Done)
                       else (d, if t[p].Link? then LeftTree else Failed))
  {
    var t := d.Tree(dst);
    forall a | a in AllAbove(p) ensures a in t && t[a].Dir? {
      assert Above(a, p) && WellFormed(d.roots[dst]);
    }
    assert WayTo(t, p) == Clear;
    assert AddDirs(t, AllAbove(p)) == t && d.Put(dst, t) == d;
  }

  /**
  What the callback does that is below a link: the source goes on with the same calls, and the link takes
  them to the path `q` of the tree `far`.
  */
  function VisitBeyond(d: Disk, src: Root, p: Path, far: Root, q: Path, env: Env): Disk
    requires p in d.Tree(src)
  {
    Place(d, CopyData, d.Tree(src)[p], far, q, env).0
  }

  /** The far end does not have the source's node already. */
  predicate Differs(d: Disk, node: Node, far: Root, q: Path, env: Env) {
    var t := d.Tree(far);
    match node
    case Dir => q !in t
    case Link(target) => (|q| == 1 || Parent(q) in t) && !(q in t && t[q] == Link(target))
    case File(i) => !KeepsFile(d, far, q, BlobOf(d.heap, i), env)
    case Special => false
  }

  /** Beyond a link the callback changes the far tree exactly where it differs from the source, and no other tree. */
  lemma BeyondLinkWrites(d: Disk, src: Root, p: Path, far: Root, q: Path, env: Env)
    requires Valid(d) && src in d.roots && far in d.roots && p in d.Tree(src) && env.stuck == {}
    requires q != [] && WayTo(d.Tree(far), q) == Clear
    ensures View(VisitBeyond(d, src, p, far, q, env), far) == View(d, far) <==> !Differs(d, d.Tree(src)[p], far, q, env)
    ensures forall r :: r in d.roots && r != far ==> View(VisitBeyond(d, src, p, far, q, env), r) == View(d, r)
  {
    var d', t, node := VisitBeyond(d, src, p, far, q, env), d.Tree(far), d.Tree(src)[p];
    assert InodesIn(d.roots[src], d.heap);
    if Differs(d, node, far, q, env) {
      BeyondChanges(d, node, far, q, env);
    } else {
      BeyondKeeps(d, node, far, q, env);
    }
    forall r | r in d.roots && r != far ensures View(d', r) == View(d, r) {
      BeyondSpares(d, node, far, q, env, r);
    }
  }

  lemma BeyondChanges(d: Disk, node: Node, far: Root, q: Path, env: Env)
    requires Valid(d) && far in d.roots && env.stuck == {} && q != [] && Differs(d, node, far, q, env)
    requires node.File? ==> node.ino in d.heap
    ensures var d' := Place(d, CopyData, node, far, q, env).0;
            q in View(d', far) && (q in View(d, far) ==> View(d', far)[q] != View(d, far)[q])
  {
  }

  lemma BeyondSpares(d: Disk, node: Node, far: Root, q: Path, env: Env, r: Root)
    requires Valid(d) && far in d.roots && r in d.roots && r != far && env.stuck == {}
    ensures View(Place(d, CopyData, node, far, q, env).0, r) == View(d, r)
  {
    assert InodesIn(d.roots[r], d.heap);
  }

  lemma BeyondKeeps(d: Disk, node: Node, far: Root, q: Path, env: Env)
    requires Valid(d) && far in d.roots && env.stuck == {} && q != [] && !Differs(d, node, far, q, env)
    ensures Place(d, CopyData, node, far, q, env).0.Tree(far) == d.Tree(far)
    ensures Place(d, CopyData, node, far, q, env).0.heap == d.heap
  {
    var t := d.Tree(far);
    if node.Link? && q in t {
      RemoveAllKeeps(t, q);
      if |q| > 1 { assert Above(Parent(q), q); }
      assert t == RemoveAll(t, q)[q := t[q]];
    } else if node.Link? {
      assert t == RemoveAll(t, q);
    }
  }

  lemma OthersKept(d: Disk, src: Root, dst: Root, p: Path, env: Env, r: Root)
    requires Valid(d) && src in d.roots && dst in d.roots && src != dst
    requires !Clobbers(d, src, dst, p, env) && r in d.roots && r != dst
    ensures View(Visit(d, CopyData, src, dst, p, env).0, r) == View(d, r)
  {
  }

  const A: Path := ["a"]

  /** A snapshot of `a` (one byte, stamped 7) and a workspace whose `a` is `node`; inode 1 has another byte, same stamp. */
  function TwoTrees(node: Node): Disk {
    Disk(map[SnapDir("s") := map[A := File(0)], Workspace("w") := map[A := node]],
         map[0 := Blob([10], 7), 1 := Blob([20], 7)], 2)
  }

  lemma TwoTreesValid(node: Node, env: Env)
    requires node == File(1) || node.Link?
    requires env.faulty == {} && env.stuck == {}
    ensures Valid(TwoTrees(node))
    ensures Sync(TwoTrees(node), SnapDir("s"), Workspace("w"), env).1 == Done
  {
    var d := TwoTrees(node);
    assert A != META;
    assert forall a, p :: p in d.Tree(SnapDir("s")) || p in d.Tree(Workspace("w")) ==> !Above(a, p);
    SyncSucceeds(d, SnapDir("s"), Workspace("w"), env);
  }

  /** A rewrite that keeps size and modification time is not undone, though the run reports success. */
  lemma SameStampIsMissed(env: Env)
    requires env.faulty == {} && env.stuck == {}
    ensures var d := TwoTrees(File(1));
            && Sync(d, SnapDir("s"), Workspace("w"), env).1 == Done
            && !Mirrors(View(d, SnapDir("s")), View(Sync(d, SnapDir("s"), Workspace("w"), env).0, Workspace("w")))
  {
    var d := TwoTrees(File(1));
    TwoTreesValid(File(1), env);
    SyncExact(d, SnapDir("s"), Workspace("w"), env);
    assert Blob([10], 7).content[0] != Blob([20], 7).content[0];
    assert Blind(d.Tree(SnapDir("s")), d.Tree(Workspace("w")), d.heap, A, env);
  }

  /** A link to a file that looks the same survives where the snapshot has a file of its own. */
  lemma LinkIsFollowed(target: string, env: Env)
    requires env.faulty == {} && env.stuck == {} && env.StatThrough(A) == Regular(1, 7)
    ensures var d := TwoTrees(Link(target));
            && Sync(d, SnapDir("s"), Workspace("w"), env).1 == Done
            && !Mirrors(View(d, SnapDir("s")), View(Sync(d, SnapDir("s"), Workspace("w"), env).0, Workspace("w")))
  {
    var d := TwoTrees(Link(target));
    TwoTreesValid(Link(target), env);
    SyncExact(d, SnapDir("s"), Workspace("w"), env);
    assert Blind(d.Tree(SnapDir("s")), d.Tree(Workspace("w")), d.heap, A, env);
  }

  const F: Path := ["f"]
  const AF: Path := ["a", "f"]

  /** Two snapshots, and a workspace in which the directory `a` of the second was replaced by a link to the first. */
  const LINKED: Disk :=
    Disk(map[SnapDir("s0") := map[F := File(0)], SnapDir("s1") := map[A := Dir, AF := File(1)],
             Workspace("w") := map[A := Link("../s0")]],
         map[0 := Blob([10], 7), 1 := Blob([20], 8)], 2)

  lemma LinkedValid()
    ensures Valid(LINKED)
  {
    assert AF[..1] == A && A != META && F != META && AF != META;
    forall a, p | Above(a, p) && (p == A || p == AF || p == F) ensures p == AF && a == A {
      assert |a| == 1;
    }
  }

  /** Rolling back to the second snapshot leaves the workspace, and what it does there rewrites a file of the first. */
  lemma RollbackReachesOtherSnapshot(env: Env)
    requires env.faulty == {} && env.stuck == {} && env.StatThrough(A) == Directory
    ensures Valid(LINKED) && RollbackTo(LINKED, "s1", "w", env).1 == LeftTree
    ensures View(VisitBeyond(LINKED, SnapDir("s1"), AF, SnapDir("s0"), F, env), SnapDir("s0")) != View(LINKED, SnapDir("s0"))
  {
    LinkedValid();
    RollbackMeetsLink(env);
    RollbackLeaves(LINKED, "s1", "w", env);
    FarEndRewritten(env);
  }

  lemma FarEndRewritten(env: Env)
    requires env.faulty == {} && env.stuck == {}
    ensures View(VisitBeyond(LINKED, SnapDir("s1"), AF, SnapDir("s0"), F, env), SnapDir("s0")) != View(LINKED, SnapDir("s0"))
  {
    LinkedValid();
    assert forall a :: a in AllAbove(F) ==> false;
    BeyondLinkWrites(LINKED, SnapDir("s1"), AF, SnapDir("s0"), F, env);
  }

  lemma RollbackMeetsLink(env: Env)
    requires env.faulty == {} && env.StatThrough(A) == Directory
    ensures RunTrouble(LINKED.Tree(SnapDir("s1")), LINKED.Tree(Workspace("w")), env) == LeftTree
  {
    var d, order := LINKED, Walk(LINKED.Tree(SnapDir("s1")));
    assert AF[..1] == A && Above(A, AF) && A in AllAbove(AF);
    assert AF in order;
    var i :| 0 <= i < |order| && order[i] == AF;
    assert MeetsLinkAt(d.Tree(SnapDir("s1")), d.Tree(Workspace("w")), order, i, env);
    forall j | 0 <= j < i
      ensures Trouble(d.Tree(SnapDir("s1")), d.Tree(Workspace("w")), First(order, j), order[j], env) != Failed
    {
      assert order[j] in order && !Above(META, order[j]);
    }
    FirstTroubleLeaves(d.Tree(SnapDir("s1")), d.Tree(Workspace("w")), order, |order|, env);
  }
}

/**
Creations and rollbacks told from the trees before them, links that lead into
the destination included, and the inputs on which such a link misleads a run.
*/
module SnapshotForecast {
  import opened FileTree
  import opened Mirror
  import opened MirrorProofs
  import opened MirrorOutcome
  import opened LinkTargets
  import opened SnapshotHistory
  import opened SnapshotProofs

  // The clone of a base

  /** What cloneSnapshotBase makes of a base in an empty directory. */
  ghost function Cloned(base: Tree): Tree {
    (map p | p in base && p != META && !base[p].Special? :: base[p])
    + (if MakesMeta(base, base.Keys) then map[META := Dir] else map[])
  }

  lemma NothingToWalk(t: Tree, env: Env)
    ensures RunTrouble(map[], t, env) == Done
  {
    if |Walk(map[])| > 0 { WalkedIsThere(map[]); }
  }

  lemma WalkedIsThere(t: Tree)
    requires |Walk(t)| > 0
    ensures t != map[]
  {
    assert Walk(t)[0] in Walk(t);
  }

  lemma {:induction false} SharingKeepsHeap(d: Disk, src: Root, dst: Root, order: seq<Path>, n: nat, env: Env)
    requires n <= |order|
    ensures Pass(d, ShareInodes, src, dst, order, n, env).0.heap == d.heap
  {
    if n > 0 {
      SharingKeepsHeap(d, src, dst, order, n - 1, env);
    }
  }

  /** How a clone ends and what it holds, from the base alone. */
  lemma CloneForeseen(d: Disk, base: Root, target: Root, env: Env)
    requires Valid(d) && target in d.roots && d.Tree(target) == map[] && base != target && env.stuck == {}
    ensures var r := CloneBase(d, base, target, env);
            && r.1 == RunTrouble(d.Tree(base), map[], env)
            && r.0.heap == d.heap
            && (r.1 == Done ==> r.0.Tree(target) == Cloned(d.Tree(base)))
  {
    if base !in d.roots {
      NothingToWalk(map[], env);
      assert Cloned(map[]) == map[];
    } else {
      var order := Walk(d.Tree(base));
      CopyPassOutcome(d, ShareInodes, base, target, env);
      SharingKeepsHeap(d, base, target, order, |order|, env);
      if CloneBase(d, base, target, env).1 == Done {
        CloneExact(d, base, target, env);
        CopyPassProgress(d, ShareInodes, base, target, env);
        PassMeta(d, ShareInodes, base, target, order, |order|, env);
        FirstIsAll(d.Tree(base));
        CloneEquals(d.Tree(base), CloneBase(d, base, target, env).0.Tree(target));
      }
    }
  }

  lemma CloneEquals(b: Tree, t: Tree)
    requires forall p :: p != META ==> (p in t <==> p in b && !b[p].Special?) && (p in t ==> t[p] == b[p])
    requires (META in t <==> MakesMeta(b, b.Keys)) && (META in t ==> t[META] == Dir)
    ensures t == Cloned(b)
  {
  }

  // Creations

  /** The answers about links in the new directory, once the base is cloned, are those of the tree. */
  ghost predicate HonestCreation(
    d: Disk, ws: Root, target: Root, base: Root, cloneEnv: Env, env: Env, outside: map<Path, Stat>)
  {
    var cloned := CloneBase(d.Put(target, map[]), base, target, cloneEnv);
    cloned.1 == Done ==> Honest(cloned.0, ws, target, env, outside)
  }

  /**
  A creation up to its meta file, told from the workspace and the base before
  it: how it ends, and, when it succeeds, whether it holds the workspace.
  */
  lemma CaptureForeseen(
      d: Disk, ws: Root, target: Root, base: Root, cloneEnv: Env, env: Env, outside: map<Path, Stat>)
    requires Valid(d) && ws != target && target !in d.roots && base != target
    requires cloneEnv.stuck == {} && env.stuck == {}
    requires HonestCreation(d, ws, target, base, cloneEnv, env, outside)
    ensures var f := Forecast(d.Tree(ws), Cloned(d.Tree(base)), d.heap, env, outside);
            var cloneEnd := RunTrouble(d.Tree(base), map[], cloneEnv);
            var r := Capture(d, ws, target, base, cloneEnv, env);
            && r.1 == (if cloneEnd != Done then cloneEnd
                       else if ws !in d.roots then Failed
                       else SyncEnd(d.Tree(ws), Cloned(d.Tree(base)), f))
            && (r.1 == Done ==>
                  (Mirrors(View(d, ws), View(r.0, target)) <==> NoneBlind(d.Tree(ws), d.Tree(base), d.heap, f)))
  {
    var empty := d.Put(target, map[]);
    NewRoot(d, target);
    CloneForeseen(empty, base, target, cloneEnv);
    CloneBaseFrame(empty, base, target, cloneEnv);
    var cloned := CloneBase(empty, base, target, cloneEnv);
    if cloned.1 == Done && ws in d.roots {
      SyncOverClone(d, cloned.0, ws, target, base, env, outside);
    }
  }

  lemma SyncOverClone(d: Disk, cloned: Disk, ws: Root, target: Root, base: Root, env: Env, outside: map<Path, Stat>)
    requires Valid(d) && Valid(cloned) && ws in d.roots && ws != target && target in cloned.roots && env.stuck == {}
    requires ws in cloned.roots && cloned.Tree(ws) == d.Tree(ws)
    requires cloned.heap == d.heap && cloned.Tree(target) == Cloned(d.Tree(base))
    requires Honest(cloned, ws, target, env, outside)
    ensures var f := Forecast(d.Tree(ws), Cloned(d.Tree(base)), d.heap, env, outside);
            var r := Sync(cloned, ws, target, env);
            && r.1 == SyncEnd(d.Tree(ws), Cloned(d.Tree(base)), f)
            && (r.1 == Done ==>
                  (Mirrors(View(d, ws), View(r.0, target)) <==> NoneBlind(d.Tree(ws), d.Tree(base), d.heap, f)))
  {
    SyncForeseen(cloned, ws, target, env, outside);
    ViewKept(d, cloned, ws);
    CloneIsAsBlind(d.Tree(ws), d.Tree(base), d.heap, Forecast(d.Tree(ws), Cloned(d.Tree(base)), d.heap, env, outside));
  }

  lemma CloneIsAsBlind(srcTree: Tree, base: Tree, heap: map<nat, Blob>, f: Env)
    ensures NoneBlind(srcTree, Cloned(base), heap, f) <==> NoneBlind(srcTree, base, heap, f)
  {
    forall p ensures Blind(srcTree, Cloned(base), heap, p, f) <==> Blind(srcTree, base, heap, p, f) {}
  }

  /** So a creation leaves the new directory exactly when the workspace and the base say so. */
  lemma CreateLeavesForeseen(
      d: Disk, id: string, host: string, base: string, cloneEnv: Env, env: Env, meta: Blob, outside: map<Path, Stat>)
    requires Valid(d) && SnapDir(id) !in d.roots && id != base && cloneEnv.stuck == {} && env.stuck == {}
    requires HonestCreation(d, Workspace(host), SnapDir(id), SnapDir(base), cloneEnv, env, outside)
    ensures var ws, b := d.Tree(Workspace(host)), d.Tree(SnapDir(base));
            CreateSnapshot(d, id, host, base, cloneEnv, env, meta).1 == LeftTree
            <==> && RunTrouble(b, map[], cloneEnv) == Done && Workspace(host) in d.roots
                 && RunTrouble(ws, Cloned(b), Forecast(ws, Cloned(b), d.heap, env, outside)) == LeftTree
  {
    var empty := d.Put(SnapDir(id), map[]);
    NewRoot(d, SnapDir(id));
    CloneForeseen(empty, SnapDir(base), SnapDir(id), cloneEnv);
    CloneStaysInTree(empty, base, id, cloneEnv);
    CaptureForeseen(d, Workspace(host), SnapDir(id), SnapDir(base), cloneEnv, env, outside);
    if Capture(d, Workspace(host), SnapDir(id), SnapDir(base), cloneEnv, env).1 == Done {
      MetaStaysOut(d, id, host, base, cloneEnv, env);
    }
  }

  // Rollbacks

  ghost predicate HonestRollback(d: Disk, id: string, host: string, env: Env, outside: map<Path, Stat>) {
    Honest(d.Put(Workspace(host), d.Tree(Workspace(host))), SnapDir(id), Workspace(host), env, outside)
  }

  /** The answers that a rollback gets about the links of the workspace. */
  ghost function RollbackForecast(d: Disk, id: string, host: string, env: Env, outside: map<Path, Stat>): Env {
    Forecast(d.Tree(SnapDir(id)), d.Tree(Workspace(host)), d.heap, env, outside)
  }

  /** A rollback, told from the snapshot and the workspace before it. */
  lemma RollbackForeseen(d: Disk, id: string, host: string, env: Env, outside: map<Path, Stat>)
    requires Valid(d) && env.stuck == {} && HonestRollback(d, id, host, env, outside)
    ensures var f, r := RollbackForecast(d, id, host, env, outside), RollbackTo(d, id, host, env);
            var s, t := d.Tree(SnapDir(id)), d.Tree(Workspace(host));
            && r.1 == (if SnapDir(id) !in d.roots then Failed else SyncEnd(s, t, f))
            && (r.1 == Done ==>
                  (Mirrors(View(d, SnapDir(id)), View(r.0, Workspace(host))) <==> NoneBlind(s, t, d.heap, f)))
  {
    var ready := d.Put(Workspace(host), d.Tree(Workspace(host)));
    NewRoot(d, Workspace(host));
    if SnapDir(id) in d.roots {
      SyncForeseen(ready, SnapDir(id), Workspace(host), env, outside);
      assert View(ready, SnapDir(id)) == View(d, SnapDir(id));
    }
  }

  lemma SameLinksInTheWay(srcTree: Tree, dstTree: Tree, heap: map<nat, Blob>, env: Env, f: Env)
    requires forall p :: p in srcTree && Asks(dstTree, p) ==> env.StatThrough(p) == f.StatThrough(p)
    ensures NoLinkInTheWay(srcTree, dstTree, heap, env) <==> NoLinkInTheWay(srcTree, dstTree, heap, f)
  {
  }

  lemma CreationAnswers(d: Disk, op: Op, outside: map<Path, Stat>)
    requires Valid(d) && op.Create? && SnapDir(op.id) !in d.roots && op.id != op.base
    requires op.cloneEnv.stuck == {} && op.env.stuck == {}
    requires HonestCreation(d, Workspace(op.host), SnapDir(op.id), SnapDir(op.base), op.cloneEnv, op.env, outside)
    requires Capture(d, Workspace(op.host), SnapDir(op.id), SnapDir(op.base), op.cloneEnv, op.env).1 == Done
    ensures var ws, b := d.Tree(Workspace(op.host)), d.Tree(SnapDir(op.base));
            NoLinkInTheWay(ws, b, d.heap, op.env)
            <==> NoLinkInTheWay(ws, b, d.heap, Forecast(ws, Cloned(b), d.heap, op.env, outside))
  {
    var empty := d.Put(SnapDir(op.id), map[]);
    NewRoot(d, SnapDir(op.id));
    CloneForeseen(empty, SnapDir(op.base), SnapDir(op.id), op.cloneEnv);
    CloneBaseFrame(empty, SnapDir(op.base), SnapDir(op.id), op.cloneEnv);
    var cloned := CloneBase(empty, SnapDir(op.base), SnapDir(op.id), op.cloneEnv).0;
    var ws, b := d.Tree(Workspace(op.host)), d.Tree(SnapDir(op.base));
    var f := Forecast(ws, Cloned(b), d.heap, op.env, outside);
    forall p | p in ws && Asks(b, p) ensures op.env.StatThrough(p) == f.StatThrough(p) {
      AnswersAsForeseen(cloned, Workspace(op.host), SnapDir(op.id), op.env, outside, p);
    }
    SameLinksInTheWay(ws, b, d.heap, op.env, f);
  }

  lemma RollbackAnswers(d: Disk, id: string, host: string, env: Env, outside: map<Path, Stat>)
    requires Valid(d) && env.stuck == {} && HonestRollback(d, id, host, env, outside)
    requires RollbackTo(d, id, host, env).1 == Done
    ensures var s, t := d.Tree(SnapDir(id)), d.Tree(Workspace(host));
            NoLinkInTheWay(s, t, d.heap, env)
            <==> NoLinkInTheWay(s, t, d.heap, RollbackForecast(d, id, host, env, outside))
  {
    var ready := d.Put(Workspace(host), d.Tree(Workspace(host)));
    NewRoot(d, Workspace(host));
    var s, t, f := d.Tree(SnapDir(id)), d.Tree(Workspace(host)), RollbackForecast(d, id, host, env, outside);
    forall p | p in s && Asks(t, p) ensures env.StatThrough(p) == f.StatThrough(p) {
      AnswersAsForeseen(ready, SnapDir(id), Workspace(host), env, outside, p);
    }
    SameLinksInTheWay(s, t, d.heap, env, f);
  }

  /**
  Rollback restores, with both conditions on links told from the trees before
  the creation and before the rollback.
  */
  lemma RollbackRestoresForeseen(
      ws: seq<World>, ops: seq<Op>, i: nat, j: nat, outside: map<Path, Stat>, outsideThen: map<Path, Stat>)
    requires Run(ws, ops) && i < j < |ops| && Inv(ws[0]) && Stamped(ws[0].disk)
    requires ops[i].Create? && ops[i].id in ws[i + 1].rows
    requires ops[j].Rollback? && ops[j].id == ops[i].id
    requires RollbackTo(ws[j].disk, ops[i].id, ops[i].host, ops[j].env).1 == Done
    requires HonestCreation(ws[i].disk, Workspace(ops[i].host), SnapDir(ops[i].id), SnapDir(ops[i].base),
                            ops[i].cloneEnv, ops[i].env, outside)
    requires HonestRollback(ws[j].disk, ops[i].id, ops[i].host, ops[j].env, outsideThen)
    requires var d, op := ws[i].disk, ops[i];
             var w, b := d.Tree(Workspace(op.host)), d.Tree(SnapDir(op.base));
             NoLinkInTheWay(w, b, d.heap, Forecast(w, Cloned(b), d.heap, op.env, outside))
    ensures var before, after := View(ws[i].disk, Workspace(ops[i].host)), View(ws[j + 1].disk, Workspace(ops[i].host));
            var d := ws[j].disk;
            var unhindered := NoLinkInTheWay(d.Tree(SnapDir(ops[i].id)), d.Tree(Workspace(ops[i].host)), d.heap,
                                             RollbackForecast(d, ops[i].id, ops[i].host, ops[j].env, outsideThen));
            && (unhindered ==> Mirrors(before, after))
            && ((forall p :: p in before ==> !before[p].SpecialEntry?) && Mirrors(before, after) ==> unhindered)
  {
    RunKeeps(ws, ops, 0, i);
    assert Next(ws[i], ops[i], ws[i + 1]);
    CreationAnswers(ws[i].disk, ops[i], outside);
    RunKeeps(ws, ops, 0, j);
    assert Next(ws[j], ops[j], ws[j + 1]);
    RollbackAnswers(ws[j].disk, ops[i].id, ops[i].host, ops[j].env, outsideThen);
    RollbackRestores(ws, ops, i, j);
  }

  // Links that mislead

  const B: Path := ["b"]
  const Z: Path := ["z"]

  lemma NameOrder()
    ensures PathLess(A, B) && PathLess(B, Z)
  {
  }

  /** A disk of trees without directories. */
  lemma FlatValid(d: Disk)
    requires forall r, p :: r in d.roots && p in d.roots[r] ==> |p| == 1
    requires forall r :: r in d.roots ==> InodesIn(d.roots[r], d.heap)
    requires forall i :: i in d.heap ==> i < d.next
    ensures Valid(d)
  {
  }

  /** A snapshot with `b` and a copy `z` of it; in the workspace `b` was edited and `z` is a link to it. */
  const OVERTAKEN: Disk :=
    Disk(map[SnapDir("s") := map[B := File(0), Z := File(1)], Workspace("w") := map[B := File(2), Z := Link("b")]],
         map[0 := Blob([10], 7), 1 := Blob([10], 7), 2 := Blob([30], 3)], 3)

  lemma OvertakenTrees()
    ensures Valid(OVERTAKEN) && SnapDir("s") in OVERTAKEN.roots && Workspace("w") in OVERTAKEN.roots
    ensures var d := OVERTAKEN; var s, t := d.Tree(SnapDir("s")), d.Tree(Workspace("w"));
            && DirsMeetDirs(s, t) && LinkBeside(s, t, "z", "b")
            && (forall p :: p in s && Asks(t, p) ==> p == Z)
            && StampOf(s[B], d.heap) == StampOf(s[Z], d.heap) == Regular(1, 7)
            && StampOf(t[B], d.heap) == Regular(1, 3)
  {
    FlatValid(OVERTAKEN);
  }

  /**
  Before the rollback the link shows the edited file and is not in the way. When
  the walk comes to it, it shows the restored one, and stays.
  */
  lemma LinkIsOvertaken(env: Env, outside: map<Path, Stat>)
    requires env.faulty == {} && env.stuck == {} && Honest(OVERTAKEN, SnapDir("s"), Workspace("w"), env, outside)
    ensures var d := OVERTAKEN;
            var s, t, r := d.Tree(SnapDir("s")), d.Tree(Workspace("w")), Sync(d, SnapDir("s"), Workspace("w"), env);
            && NoLinkInTheWay(s, t, d.heap, AsSeen(t, d.heap, env, outside))
            && r.1 == Done
            && !Mirrors(View(d, SnapDir("s")), View(r.0, Workspace("w")))
  {
    var d := OVERTAKEN;
    OvertakenTrees();
    NameOrder();
    LooksBeside(SightOf(d.Tree(Workspace("w")), d.heap), "z", "b", outside);
    SyncSucceeds(d, SnapDir("s"), Workspace("w"), env);
    OvertakenLinkStays(d, SnapDir("s"), Workspace("w"), env, outside, "z", "b");
  }

  /** A snapshot with `a` and `b`; in the workspace `a` was moved to `b` and replaced by a link to it. */
  const MOVED: Disk :=
    Disk(map[SnapDir("s") := map[A := File(0), B := File(1)], Workspace("w") := map[A := Link("b"), B := File(2)]],
         map[0 := Blob([10], 7), 1 := Blob([20], 9), 2 := Blob([10], 7)], 3)

  lemma MovedTrees()
    ensures Valid(MOVED) && SnapDir("s") in MOVED.roots && Workspace("w") in MOVED.roots
    ensures var d := MOVED; var s, t := d.Tree(SnapDir("s")), d.Tree(Workspace("w"));
            && DirsMeetDirs(s, t) && LinkBeside(s, t, "a", "b")
            && (forall p :: p in s ==> s[p].File? && !Above(META, p))
            && StampOf(s[A], d.heap) == StampOf(t[B], d.heap) == Regular(1, 7)
            && StampOf(s[B], d.heap) == Regular(1, 9)
  {
    FlatValid(MOVED);
  }

  /**
  The first run keeps the link, because it shows the file that was moved, and
  then restores the file it shows. The second run sees another file through the
  link and replaces it: both succeed, and the second changes what the first has left.
  */
  lemma SecondRunChanges(env: Env, again: Env, outside: map<Path, Stat>, outsideThen: map<Path, Stat>)
    requires env.faulty == {} && env.stuck == {} && again.faulty == {} && again.stuck == {}
    requires Honest(MOVED, SnapDir("s"), Workspace("w"), env, outside)
    requires Honest(Sync(MOVED, SnapDir("s"), Workspace("w"), env).0, SnapDir("s"), Workspace("w"), again, outsideThen)
    ensures Sync(MOVED, SnapDir("s"), Workspace("w"), env).1 == Done
    ensures var d' := Sync(MOVED, SnapDir("s"), Workspace("w"), env).0;
            Sync(d', SnapDir("s"), Workspace("w"), again).1 == Done && Sync(d', SnapDir("s"), Workspace("w"), again).0 != d'
  {
    var d' := Sync(MOVED, SnapDir("s"), Workspace("w"), env).0;
    MovedTrees();
    NameOrder();
    SyncSucceeds(MOVED, SnapDir("s"), Workspace("w"), env);
    SyncFrame(MOVED, SnapDir("s"), Workspace("w"), env);
    SyncSucceeds(d', SnapDir("s"), Workspace("w"), again);
    SecondRunTurns(MOVED, SnapDir("s"), Workspace("w"), env, again, outside, outsideThen, "a", "b");
  }
}

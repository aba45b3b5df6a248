/**
How a mirror run ends, told from the trees before it and the answers it gets about
destination links: where it fails, where it leaves its tree through such a link, and
when a run after a successful one does nothing. `LinkTargets` tells the answers, too.
*/
module MirrorOutcome {
  import opened FileTree
  import opened Mirror
  import opened MirrorProofs

  predicate LinkAbove(t: Tree, p: Path) {
    exists a :: a in AllAbove(p) && a in t && t[a].Link?
  }

  /** A directory in the place of the meta file is never visited, only made for what lies below it. */
  ghost predicate MakesMeta(srcTree: Tree, before: set<Path>) {
    exists q :: q in before && q in srcTree && Above(META, q) && (srcTree[q].Dir? || srcTree[q].File?)
  }

  /** What the callback at `p` meets in the trees as they were before the run, when the paths `before` come first. */
  ghost function Trouble(srcTree: Tree, dstTree: Tree, before: set<Path>, p: Path, env: Env): Outcome {
    if p == META || p !in srcTree then Done
    else if p in env.faulty then Failed
    else if srcTree[p].Special? then Done
    else if LinkAbove(dstTree, p) then LeftTree
    else if Above(META, p) && META in dstTree && !dstTree[META].Dir? then Failed
    else match srcTree[p]
      case Dir =>
        if p in dstTree && !dstTree[p].Dir? && !(dstTree[p].Link? && env.StatThrough(p) == Directory) then Failed else Done
      case Link(_) =>
        if |p| > 1 && Parent(p) == META && META !in dstTree && !MakesMeta(srcTree, before) then Failed else Done
      case _ => Done
  }

  /** The first trouble of a walk. */
  ghost function FirstTrouble(srcTree: Tree, dstTree: Tree, order: seq<Path>, n: nat, env: Env): Outcome
    requires n <= |order|
  {
    if n == 0 then Done
    else
      var r := FirstTrouble(srcTree, dstTree, order, n - 1, env);
      if r != Done then r else Trouble(srcTree, dstTree, First(order, n - 1), order[n - 1], env)
  }

  ghost function RunTrouble(srcTree: Tree, dstTree: Tree, env: Env): Outcome {
    FirstTrouble(srcTree, dstTree, Walk(srcTree), |Walk(srcTree)|, env)
  }

  // One callback

  ghost predicate MetaAsExpected(d0: Disk, d: Disk, src: Root, dst: Root, done: set<Path>) {
    META in d.Tree(dst) <==> META in d0.Tree(dst) || MakesMeta(d0.Tree(src), done)
  }

  /** Above a source path the run so far has left links exactly where they were, and otherwise directories. */
  lemma WayAsExpected(d0: Disk, d: Disk, mode: Mode, src: Root, dst: Root, done: set<Path>, p: Path, env: Env)
    requires Valid(d0) && src in d0.roots && dst in d0.roots && src != dst && Frame(d0, d, dst, true)
    requires Progress(d0, d, mode, src, dst, done, env) && p in d0.Tree(src) && forall a :: Above(a, p) ==> a in done
    ensures WayTo(d.Tree(dst), p)
            == if LinkAbove(d0.Tree(dst), p) then ThroughLink
               else if Above(META, p) && META in d0.Tree(dst) && !d0.Tree(dst)[META].Dir? then Obstructed
               else Clear
  {
    var srcTree, t0, t := d0.Tree(src), d0.Tree(dst), d.Tree(dst);
    forall a | Above(a, p)
      ensures a == META || (a in t && (t[a].Dir? || t[a].Link?) && (t[a].Link? <==> a in t0 && t0[a].Link?))
    {
      assert a in done && a in srcTree && srcTree[a].Dir?;
      if a != META { assert Settled(d0, d, mode, src, dst, a, env); }
    }
    if Above(META, p) { assert META in AllAbove(p); }
  }

  lemma CallbackOutcome(d0: Disk, d: Disk, mode: Mode, src: Root, dst: Root, done: set<Path>, p: Path, env: Env)
    requires Valid(d0) && src in d0.roots && dst in d0.roots && src != dst && Frame(d0, d, dst, true) && env.stuck == {}
    requires Progress(d0, d, mode, src, dst, done, env) && MetaAsExpected(d0, d, src, dst, done)
    requires p in d0.Tree(src) && p !in done && forall a :: Above(a, p) ==> a in done
    ensures Visit(d, mode, src, dst, p, env).1 == Trouble(d0.Tree(src), d0.Tree(dst), done, p, env)
  {
    if p != META && p !in env.faulty && !d0.Tree(src)[p].Special? {
      WayAsExpected(d0, d, mode, src, dst, done, p, env);
      assert Untouched(d0, d, src, dst, p);
      if d0.Tree(src)[p].Link? && WayTo(d.Tree(dst), p) == Clear && |p| > 1 {
        ParentAsExpected(d0, d, mode, src, dst, done, p, env);
        RemoveAllKeeps(d.Tree(dst), p);
      }
    }
  }

  lemma ParentAsExpected(d0: Disk, d: Disk, mode: Mode, src: Root, dst: Root, done: set<Path>, p: Path, env: Env)
    requires Valid(d0) && src in d0.roots && dst in d0.roots && src != dst && Frame(d0, d, dst, true)
    requires Progress(d0, d, mode, src, dst, done, env) && MetaAsExpected(d0, d, src, dst, done)
    requires p in d0.Tree(src) && |p| > 1 && forall a :: Above(a, p) ==> a in done
    ensures Above(Parent(p), p)
    ensures Parent(p) in d.Tree(dst)
            <==> Parent(p) != META || META in d0.Tree(dst) || MakesMeta(d0.Tree(src), done)
  {
    assert Above(Parent(p), p) && d0.Tree(src)[Parent(p)].Dir?;
    if Parent(p) != META { assert Settled(d0, d, mode, src, dst, Parent(p), env); }
  }

  lemma MetaStep(d: Disk, mode: Mode, src: Root, dst: Root, p: Path, env: Env)
    requires Valid(d) && src in d.roots && dst in d.roots && src != dst && env.stuck == {} && p in d.Tree(src)
    requires Visit(d, mode, src, dst, p, env).1 == Done
    ensures META in Visit(d, mode, src, dst, p, env).0.Tree(dst)
            <==> META in d.Tree(dst) || (Above(META, p) && (d.Tree(src)[p].Dir? || d.Tree(src)[p].File?))
  {
    var d' := Visit(d, mode, src, dst, p, env).0;
    if p != META {
      VisitLocal(d, mode, src, dst, p, env);
      VisitFrame(d, mode, src, dst, p, env);
      assert !Above(p, META);
      if Above(META, p) && d.Tree(src)[p].Link? {
        LinkMakesNoDirs(d.Tree(dst), p, d.Tree(src)[p].target, env);
      }
    }
  }

  lemma LinkMakesNoDirs(t: Tree, p: Path, target: string, env: Env)
    ensures forall q :: q != p && q in PlaceLink(t, p, target, env).0 ==> q in t
  {
  }

  lemma MakesMetaStep(srcTree: Tree, before: set<Path>, p: Path)
    requires p in srcTree
    ensures MakesMeta(srcTree, before + {p})
            <==> MakesMeta(srcTree, before) || (Above(META, p) && (srcTree[p].Dir? || srcTree[p].File?))
  {
    if Above(META, p) && (srcTree[p].Dir? || srcTree[p].File?) {
      assert p in before + {p};
    }
    if q :| q in before && q in srcTree && Above(META, q) && (srcTree[q].Dir? || srcTree[q].File?) {
      assert q in before + {p};
    }
  }

  // The whole walk

  lemma {:induction false} PassMeta(d: Disk, mode: Mode, src: Root, dst: Root, order: seq<Path>, n: nat, env: Env)
    requires Valid(d) && src in d.roots && dst in d.roots && src != dst && env.stuck == {}
    requires n <= |order| && forall p :: p in order ==> p in d.Tree(src)
    requires Pass(d, mode, src, dst, order, n, env).1 == Done
    ensures MetaAsExpected(d, Pass(d, mode, src, dst, order, n, env).0, src, dst, First(order, n))
  {
    if n > 0 {
      PassMeta(d, mode, src, dst, order, n - 1, env);
      PassFrame(d, mode, src, dst, order, n - 1, env);
      assert order[n - 1] in order;
      MetaStep(Pass(d, mode, src, dst, order, n - 1, env).0, mode, src, dst, order[n - 1], env);
      FirstStep(order, n - 1);
      MakesMetaStep(d.Tree(src), First(order, n - 1), order[n - 1]);
    }
  }

  lemma {:induction false} PassOutcome(d: Disk, mode: Mode, src: Root, dst: Root, order: seq<Path>, n: nat, env: Env)
    requires Valid(d) && src in d.roots && dst in d.roots && src != dst && env.stuck == {}
    requires ParentsFirst(order) && n <= |order| && forall p :: p in order ==> p in d.Tree(src)
    ensures Pass(d, mode, src, dst, order, n, env).1 == FirstTrouble(d.Tree(src), d.Tree(dst), order, n, env)
  {
    if n > 0 {
      PassOutcome(d, mode, src, dst, order, n - 1, env);
      if Pass(d, mode, src, dst, order, n - 1, env).1 == Done {
        PassProgress(d, mode, src, dst, order, n - 1, env);
        PassMeta(d, mode, src, dst, order, n - 1, env);
        PassFrame(d, mode, src, dst, order, n - 1, env);
        assert order[n - 1] in order;
        CallbackOutcome(d, Pass(d, mode, src, dst, order, n - 1, env).0, mode, src, dst, First(order, n - 1), order[n - 1], env);
      }
    }
  }

  /** A walk ends as the trees before it and the answers about links say, whatever it has changed on the way. */
  lemma CopyPassOutcome(d: Disk, mode: Mode, src: Root, dst: Root, env: Env)
    requires Valid(d) && src in d.roots && dst in d.roots && src != dst && env.stuck == {}
    ensures CopyPass(d, mode, src, dst, env).1 == RunTrouble(d.Tree(src), d.Tree(dst), env)
  {
    WalkParentsFirst(d.Tree(src));
    PassOutcome(d, mode, src, dst, Walk(d.Tree(src)), |Walk(d.Tree(src))|, env);
  }

  // Leaving the tree

  /** The callback at position `i` is below a destination link. */
  ghost predicate MeetsLinkAt(srcTree: Tree, dstTree: Tree, order: seq<Path>, i: nat, env: Env)
    requires i < |order|
  {
    var p := order[i];
    p != META && p in srcTree && p !in env.faulty && !srcTree[p].Special? && LinkAbove(dstTree, p)
  }

  ghost predicate NoFailureBefore(srcTree: Tree, dstTree: Tree, order: seq<Path>, n: nat, env: Env)
    requires n <= |order|
  {
    forall j :: 0 <= j < n ==> Trouble(srcTree, dstTree, First(order, j), order[j], env) != Failed
  }

  lemma {:induction false} FirstTroubleLeaves(srcTree: Tree, dstTree: Tree, order: seq<Path>, n: nat, env: Env)
    requires n <= |order|
    ensures FirstTrouble(srcTree, dstTree, order, n, env) == LeftTree
            <==> exists i :: 0 <= i < n && MeetsLinkAt(srcTree, dstTree, order, i, env)
                             && NoFailureBefore(srcTree, dstTree, order, i, env)
    ensures FirstTrouble(srcTree, dstTree, order, n, env) == Done
            <==> forall i :: 0 <= i < n ==> Trouble(srcTree, dstTree, First(order, i), order[i], env) == Done
  {
    if n > 0 {
      FirstTroubleLeaves(srcTree, dstTree, order, n - 1, env);
      var last := Trouble(srcTree, dstTree, First(order, n - 1), order[n - 1], env);
      assert last == LeftTree <==> MeetsLinkAt(srcTree, dstTree, order, n - 1, env);
      if FirstTrouble(srcTree, dstTree, order, n - 1, env) == Done {
        assert NoFailureBefore(srcTree, dstTree, order, n - 1, env);
      } else if FirstTrouble(srcTree, dstTree, order, n - 1, env) == Failed {
        if NoFailureBefore(srcTree, dstTree, order, n - 1, env) {
          FailsSomewhere(srcTree, dstTree, order, n - 1, env);
        }
      }
    }
  }

  lemma {:induction false} FailsSomewhere(srcTree: Tree, dstTree: Tree, order: seq<Path>, n: nat, env: Env)
    requires n <= |order| && FirstTrouble(srcTree, dstTree, order, n, env) == Failed
    ensures !NoFailureBefore(srcTree, dstTree, order, n, env)
  {
    if FirstTrouble(srcTree, dstTree, order, n - 1, env) == Failed {
      FailsSomewhere(srcTree, dstTree, order, n - 1, env);
    } else {
      assert Trouble(srcTree, dstTree, First(order, n - 1), order[n - 1], env) == Failed;
    }
  }

  /**
  A run leaves its tree exactly when a source path that is not special meets a destination link above it, and no
  callback before it fails. There is no such path where no source directory meets a link.
  */
  lemma LeavesExactly(d: Disk, mode: Mode, src: Root, dst: Root, env: Env)
    requires Valid(d) && src in d.roots && dst in d.roots && src != dst && env.stuck == {}
    ensures var srcTree, t, order := d.Tree(src), d.Tree(dst), Walk(d.Tree(src));
            CopyPass(d, mode, src, dst, env).1 == LeftTree
            <==> exists i :: 0 <= i < |order| && MeetsLinkAt(srcTree, t, order, i, env) && NoFailureBefore(srcTree, t, order, i, env)
    ensures (forall a :: a in d.Tree(src) && d.Tree(src)[a].Dir? && a in d.Tree(dst) ==> !d.Tree(dst)[a].Link?) ==>
              CopyPass(d, mode, src, dst, env).1 != LeftTree
  {
    var order := Walk(d.Tree(src));
    CopyPassOutcome(d, mode, src, dst, env);
    FirstTroubleLeaves(d.Tree(src), d.Tree(dst), order, |order|, env);
    if i :| 0 <= i < |order| && MeetsLinkAt(d.Tree(src), d.Tree(dst), order, i, env) {
      var a :| a in AllAbove(order[i]) && a in d.Tree(dst) && d.Tree(dst)[a].Link?;
      assert Above(a, order[i]) && a in d.Tree(src) && d.Tree(src)[a].Dir?;
    }
  }

  /** The topmost link above a path. */
  lemma {:induction false} TopLink(t: Tree, p: Path) returns (a: Path)
    requires LinkAbove(t, p)
    ensures Above(a, p) && a in t && t[a].Link? && !LinkAbove(t, a)
    decreases |p|
  {
    a :| a in AllAbove(p) && a in t && t[a].Link?;
    if LinkAbove(t, a) {
      var b := TopLink(t, a);
      assert p[..|a|][..|b|] == p[..|b|];
      a := b;
    }
  }

  /** The link at which a run leaves its tree leads to a directory, unless it stands in the place of the meta file. */
  lemma LeavesThroughDirectory(srcTree: Tree, dstTree: Tree, i: nat, env: Env) returns (a: Path)
    requires WellFormed(srcTree) && i < |Walk(srcTree)|
    requires MeetsLinkAt(srcTree, dstTree, Walk(srcTree), i, env) && NoFailureBefore(srcTree, dstTree, Walk(srcTree), i, env)
    ensures Above(a, Walk(srcTree)[i]) && a in srcTree && srcTree[a].Dir? && a in dstTree && dstTree[a].Link?
    ensures a == META || env.StatThrough(a) == Directory
  {
    var order := Walk(srcTree);
    WalkParentsFirst(srcTree);
    a := TopLink(dstTree, order[i]);
    assert order[i] in order && a in First(order, i);
    if a != META {
      var j :| 0 <= j < i && order[j] == a;
      assert Trouble(srcTree, dstTree, First(order, j), order[j], env) != Failed;
      if Above(META, a) { assert META in AllAbove(a); }
    }
  }

  // The clean-up

  /** Below something that the callbacks `done` have put a file or a link in place of. */
  predicate GoneAfter(srcTree: Tree, done: set<Path>, p: Path) {
    exists q :: q in AllAbove(p) && q in done && q in srcTree && q != META && (srcTree[q].Link? || srcTree[q].File?)
  }

  predicate Gone(srcTree: Tree, p: Path) {
    GoneAfter(srcTree, srcTree.Keys, p)
  }

  /** The destination paths that are left for the clean-up, told from the trees before the run. */
  function Leftover(srcTree: Tree, dstTree: Tree): set<Path> {
    set p | p in dstTree && p !in srcTree && p != META && !Gone(srcTree, p)
  }

  lemma {:induction false} PassRetains(
      d: Disk, mode: Mode, src: Root, dst: Root, order: seq<Path>, n: nat, env: Env, q: Path)
    requires Valid(d) && src in d.roots && dst in d.roots && src != dst && env.stuck == {}
    requires n <= |order| && forall p :: p in order ==> p in d.Tree(src)
    requires Pass(d, mode, src, dst, order, n, env).1 == Done
    requires q in d.Tree(dst) && q !in d.Tree(src) && !GoneAfter(d.Tree(src), First(order, n), q)
    ensures q in Pass(d, mode, src, dst, order, n, env).0.Tree(dst)
  {
    if n > 0 {
      FirstStep(order, n - 1);
      PassRetains(d, mode, src, dst, order, n - 1, env, q);
      PassFrame(d, mode, src, dst, order, n - 1, env);
      var d1, p := Pass(d, mode, src, dst, order, n - 1, env).0, order[n - 1];
      assert p in order;
      if p != META {
        VisitLocal(d1, mode, src, dst, p, env);
        if Above(p, q) { assert p in AllAbove(q); }
      }
    }
  }

  lemma SurplusAsExpected(d: Disk, src: Root, dst: Root, env: Env)
    requires Valid(d) && src in d.roots && dst in d.roots && src != dst && env.stuck == {}
    requires CopyPass(d, CopyData, src, dst, env).1 == Done
    ensures Surplus(CopyPass(d, CopyData, src, dst, env).0.Tree(dst), d.Tree(src)) == Leftover(d.Tree(src), d.Tree(dst))
  {
    var order, d1 := Walk(d.Tree(src)), CopyPass(d, CopyData, src, dst, env).0;
    CopyPassProgress(d, CopyData, src, dst, env);
    PassFrame(d, CopyData, src, dst, order, |order|, env);
    FirstIsAll(d.Tree(src));
    forall p ensures p in Surplus(d1.Tree(dst), d.Tree(src)) <==> p in Leftover(d.Tree(src), d.Tree(dst)) {
      if p in Leftover(d.Tree(src), d.Tree(dst)) {
        PassRetains(d, CopyData, src, dst, order, |order|, env, p);
      } else if p !in d.Tree(src) && p != META {
        assert Untouched(d, d1, src, dst, p);
        if Gone(d.Tree(src), p) {
          GoneIsGone(d, d1, src, dst, d.Tree(src).Keys, p, env);
        }
      }
    }
  }

  lemma GoneIsGone(d: Disk, d1: Disk, src: Root, dst: Root, done: set<Path>, p: Path, env: Env)
    requires Progress(d, d1, CopyData, src, dst, done, env) && WellFormed(d1.Tree(dst))
    requires GoneAfter(d.Tree(src), done, p)
    ensures p !in d1.Tree(dst)
  {
    var q :| q in AllAbove(p) && q in done && q in d.Tree(src) && q != META
             && (d.Tree(src)[q].Link? || d.Tree(src)[q].File?);
    assert Settled(d, d1, CopyData, src, dst, q, env);
    assert Above(q, p) && q in d1.Tree(dst) && !d1.Tree(dst)[q].Dir?;
  }

  lemma {:induction false} PruneStaysInTree(t: Tree, stales: seq<Path>, k: nat, env: Env)
    requires k <= |stales|
    ensures Prune(t, stales, k, env).1 != LeftTree
    decreases |stales| - k
  {
    if k < |stales| {
      PruneStaysInTree(t, stales, k + 1, env);
    }
  }

  /** The first trouble of the walk, or a leftover path that cannot be removed. */
  ghost function SyncEnd(srcTree: Tree, dstTree: Tree, env: Env): Outcome {
    var trouble := RunTrouble(srcTree, dstTree, env);
    if trouble != Done then trouble else if Leftover(srcTree, dstTree) !! env.faulty then Done else Failed
  }

  /** How syncTree ends, told from the trees before it and the answers about links. */
  lemma SyncOutcome(d: Disk, src: Root, dst: Root, env: Env)
    requires Valid(d) && src in d.roots && dst in d.roots && src != dst && env.stuck == {}
    ensures Sync(d, src, dst, env).1 == SyncEnd(d.Tree(src), d.Tree(dst), env)
  {
    CopyPassOutcome(d, CopyData, src, dst, env);
    if CopyPass(d, CopyData, src, dst, env).1 == Done {
      var t := CopyPass(d, CopyData, src, dst, env).0.Tree(dst);
      PassFrame(d, CopyData, src, dst, Walk(d.Tree(src)), |Walk(d.Tree(src))|, env);
      PrunePassExact(d.Tree(src), t, env);
      SurplusAsExpected(d, src, dst, env);
      PruneStaysInTree(t, Stales(Walk(t), |Walk(t)|, d.Tree(src).Keys - {META}), 0, env);
    }
  }

  ghost predicate DirsMeetDirs(srcTree: Tree, dstTree: Tree) {
    forall p :: p in srcTree ==>
                  !Above(META, p) && (srcTree[p].Dir? && p in dstTree ==> dstTree[p].Dir?)
  }

  /** In particular, without I/O errors a run succeeds when every source directory finds a directory or nothing. */
  lemma SyncSucceeds(d: Disk, src: Root, dst: Root, env: Env)
    requires Valid(d) && dst in d.roots && src in d.roots && src != dst
    requires env.stuck == {} && env.faulty == {}
    requires DirsMeetDirs(d.Tree(src), d.Tree(dst))
    ensures Sync(d, src, dst, env).1 == Done
  {
    var srcTree, order := d.Tree(src), Walk(d.Tree(src));
    forall i | 0 <= i < |order| ensures Trouble(srcTree, d.Tree(dst), First(order, i), order[i], env) == Done {
      assert order[i] in order;
      if |order[i]| > 1 { assert Above(Parent(order[i]), order[i]); }
    }
    FirstTroubleLeaves(srcTree, d.Tree(dst), order, |order|, env);
    SyncOutcome(d, src, dst, env);
  }

  // A second run

  lemma NoTrouble(d: Disk, src: Root, dst: Root, env: Env, p: Path)
    requires Valid(d) && src in d.roots && dst in d.roots && src != dst && env.stuck == {}
    requires Sync(d, src, dst, env).1 == Done && p in d.Tree(src)
    ensures exists before :: Trouble(d.Tree(src), d.Tree(dst), before, p, env) == Done
  {
    var order := Walk(d.Tree(src));
    SyncOutcome(d, src, dst, env);
    FirstTroubleLeaves(d.Tree(src), d.Tree(dst), order, |order|, env);
    assert p in order;
    var i :| 0 <= i < |order| && order[i] == p;
    assert Trouble(d.Tree(src), d.Tree(dst), First(order, i), order[i], env) == Done;
  }

  /** Through a link that stands where the source has a directory or a file, the second run sees the like of it. */
  predicate LinkHolds(srcTree: Tree, dstTree: Tree, heap: map<nat, Blob>, p: Path, env: Env) {
    p in srcTree && p in dstTree && dstTree[p].Link? ==>
      match srcTree[p]
      case Dir => env.StatThrough(p) == Directory
      case File(i) => env.StatThrough(p) == Regular(|BlobOf(heap, i).content|, BlobOf(heap, i).mtime)
      case _ => true
  }

  ghost predicate SecondRunIsQuiet(d': Disk, src: Root, dst: Root, again: Env) {
    forall p :: p in d'.Tree(src) && p != META ==>
                  p !in again.faulty && LinkHolds(d'.Tree(src), d'.Tree(dst), d'.heap, p, again)
  }

  /** What a successful run has settled, a second run leaves alone. */
  lemma SettledIsIdle(d: Disk, d': Disk, src: Root, dst: Root, p: Path, env: Env, again: Env)
    requires Valid(d) && src in d.roots && dst in d.roots && src != dst && env.stuck == {} && again.stuck == {}
    requires Frame(d, d', dst, true) && Synced(d, d', src, dst, env) && SecondRunIsQuiet(d', src, dst, again)
    requires exists before :: Trouble(d.Tree(src), d.Tree(dst), before, p, env) == Done
    requires p in d.Tree(src)
    ensures Visit(d', CopyData, src, dst, p, again) == (d', Done)
  {
    var srcTree, t' := d.Tree(src), d'.Tree(dst);
    var before :| Trouble(srcTree, d.Tree(dst), before, p, env) == Done;
    if p != META && !srcTree[p].Special? {
      SettledWay(d, d', src, dst, p, env);
      assert d'.Tree(src) == srcTree && p in d'.Tree(src);
      assert Settled(d, d', CopyData, src, dst, p, env) && LinkHolds(srcTree, t', d'.heap, p, again);
      assert d'.Put(dst, t') == d';
      match srcTree[p]
      case Link(target) => LinkIsIdle(t', p, target, again);
      case File(i) => FileIsIdle(d, d', src, dst, p, env, again);
      case _ =>
    }
  }

  lemma LinkIsIdle(t: Tree, p: Path, target: string, env: Env)
    requires WellFormed(t) && p in t && t[p] == Link(target) && env.stuck == {}
    ensures PlaceLink(t, p, target, env) == (t, Done)
  {
    RemoveAllKeeps(t, p);
    if |p| > 1 { assert Above(Parent(p), p); }
    assert t == RemoveAll(t, p)[p := t[p]];
  }

  lemma FileIsIdle(d: Disk, d': Disk, src: Root, dst: Root, p: Path, env: Env, again: Env)
    requires Valid(d) && src in d.roots && dst in d.roots && src != dst && Frame(d, d', dst, true)
    requires p in d.Tree(src) && d.Tree(src)[p].File? && Settled(d, d', CopyData, src, dst, p, env)
    requires LinkHolds(d.Tree(src), d'.Tree(dst), d'.heap, p, again)
    ensures KeepsFile(d', dst, p, BlobOf(d'.heap, d.Tree(src)[p].ino), again)
  {
    assert InodesIn(d.roots[src], d.heap) && InodesIn(d.roots[dst], d.heap);
  }

  lemma SettledWay(d: Disk, d': Disk, src: Root, dst: Root, p: Path, env: Env)
    requires Valid(d) && src in d.roots && src != dst && Frame(d, d', dst, true) && Synced(d, d', src, dst, env)
    requires p in d.Tree(src) && p in d'.Tree(dst) && !LinkAbove(d.Tree(dst), p)
    ensures WayTo(d'.Tree(dst), p) == Clear
  {
    forall a | a in AllAbove(p) ensures a in d'.Tree(dst) ==> d'.Tree(dst)[a].Dir? {
      assert Above(a, p);
    }
  }

  lemma {:induction false} PassIsIdle(
      d: Disk, d': Disk, src: Root, dst: Root, order: seq<Path>, n: nat, env: Env, again: Env)
    requires Valid(d) && src in d.roots && dst in d.roots && src != dst && env.stuck == {} && again.stuck == {}
    requires Frame(d, d', dst, true) && Synced(d, d', src, dst, env) && SecondRunIsQuiet(d', src, dst, again)
    requires forall q :: q in d.Tree(src) ==> exists before :: Trouble(d.Tree(src), d.Tree(dst), before, q, env) == Done
    requires n <= |order| && forall p :: p in order ==> p in d.Tree(src)
    ensures Pass(d', CopyData, src, dst, order, n, again) == (d', Done)
  {
    if n > 0 {
      PassIsIdle(d, d', src, dst, order, n - 1, env, again);
      assert order[n - 1] in order;
      SettledIsIdle(d, d', src, dst, order[n - 1], env, again);
    }
  }

  lemma QuietRun(d: Disk, d': Disk, src: Root, dst: Root, env: Env, again: Env)
    requires Valid(d) && src in d.roots && dst in d.roots && src != dst && env.stuck == {} && again.stuck == {}
    requires Frame(d, d', dst, true) && Synced(d, d', src, dst, env) && SecondRunIsQuiet(d', src, dst, again)
    requires forall q :: q in d.Tree(src) ==> exists before :: Trouble(d.Tree(src), d.Tree(dst), before, q, env) == Done
    ensures Sync(d', src, dst, again) == (d', Done)
  {
    PassIsIdle(d, d', src, dst, Walk(d.Tree(src)), |Walk(d.Tree(src))|, env, again);
    assert d'.Tree(src) == d.Tree(src);
    IdleSync(d', src, dst, again);
  }

  /** A run that succeeds and changes nothing has met no faulty path, and through every link the like of the source. */
  lemma IdleRunIsQuiet(d: Disk, src: Root, dst: Root, env: Env, p: Path)
    requires Valid(d) && src in d.roots && dst in d.roots && src != dst && env.stuck == {}
    requires Sync(d, src, dst, env) == (d, Done) && p in d.Tree(src) && p != META
    ensures p !in env.faulty && LinkHolds(d.Tree(src), d.Tree(dst), d.heap, p, env)
  {
    NoTrouble(d, src, dst, env, p);
    SyncSettles(d, src, dst, env);
    assert Settled(d, d, CopyData, src, dst, p, env);
    var before :| Trouble(d.Tree(src), d.Tree(dst), before, p, env) == Done;
    if p in d.Tree(dst) && d.Tree(dst)[p].Link? && d.Tree(src)[p].Dir? {
      DirectoryMeetsLink(d, src, dst, env, p);
    }
  }

  /** A source directory can only be served by a link to a directory, whatever lies above. */
  lemma DirectoryMeetsLink(d: Disk, src: Root, dst: Root, env: Env, p: Path)
    requires Valid(d) && src in d.roots && dst in d.roots && src != dst && env.stuck == {}
    requires Sync(d, src, dst, env).1 == Done && p in d.Tree(src) && p != META && d.Tree(src)[p].Dir?
    requires p in d.Tree(dst) && d.Tree(dst)[p].Link?
    ensures env.StatThrough(p) == Directory
  {
    NoTrouble(d, src, dst, env, p);
  }

  /**
  A run after a successful run. It succeeds and changes nothing, not even inodes, if and only if no source path
  is faulty this time and, through every link that the first run has left in the place of a source directory or
  file, stat still reports the like of it. It need not: the link may lead to what the first run has changed.
  */
  lemma SyncIdempotent(d: Disk, src: Root, dst: Root, env: Env, again: Env)
    requires Valid(d) && dst in d.roots && src in d.roots && src != dst && env.stuck == {} && again.stuck == {}
    requires Sync(d, src, dst, env).1 == Done
    ensures var d' := Sync(d, src, dst, env).0;
            Sync(d', src, dst, again) == (d', Done) <==> SecondRunIsQuiet(d', src, dst, again)
  {
    var d' := Sync(d, src, dst, env).0;
    SyncSettles(d, src, dst, env);
    SyncFrame(d, src, dst, env);
    if SecondRunIsQuiet(d', src, dst, again) {
      forall q | q in d.Tree(src) ensures exists before :: Trouble(d.Tree(src), d.Tree(dst), before, q, env) == Done {
        NoTrouble(d, src, dst, env, q);
      }
      QuietRun(d, d', src, dst, env, again);
    } else if Sync(d', src, dst, again) == (d', Done) {
      forall p | p in d'.Tree(src) && p != META
        ensures p !in again.faulty && LinkHolds(d'.Tree(src), d'.Tree(dst), d'.heap, p, again)
      {
        IdleRunIsQuiet(d', src, dst, again, p);
      }
    }
  }
}

/**
Where the links of a destination tree lead while syncTree changes it. A relative
link that stays in the tree leads to what the walk has made of its target by
then: the source's entry when the target comes earlier in the walk, and what was
there before otherwise. So everything a run depends on can be told before it.
*/
module LinkTargets {
  import opened Order
  import opened Text
  import opened FileTree
  import opened Mirror
  import opened MirrorProofs
  import opened MirrorOutcome

  // Path resolution

  /** An entry as stat and readlink report it. */
  datatype Seen = Nothing | Folder | LinkTo(target: string) | Data(size: nat, mtime: int) | Device

  type Sight = map<Path, Seen>

  function SeenAs(n: Node, heap: map<nat, Blob>): Seen {
    match n
    case Dir => Folder
    case Link(target) => LinkTo(target)
    case File(i) => Data(|BlobOf(heap, i).content|, BlobOf(heap, i).mtime)
    case Special => Device
  }

  function SightOf(t: Tree, heap: map<nat, Blob>): Sight {
    map q | q in t :: SeenAs(t[q], heap)
  }

  function At(s: Sight, q: Path): Seen {
    if q in s then s[q] else Nothing
  }

  /** What path resolution arrives at; `Outside` when it goes above the root of the tree or to an absolute path. */
  datatype Landing = On(seen: Seen) | Outside

  /** The number of links that Linux follows in one resolution. */
  const MAX_LINKS := 40

  /** POSIX path resolution of the names `rest` from the directory `cur`. */
  function Resolve(s: Sight, cur: Path, rest: seq<string>, hops: nat): Landing
    decreases hops, |rest|
  {
    if rest == [] then On(Folder)
    else if rest[0] == "" || rest[0] == "." then Resolve(s, cur, rest[1..], hops)
    else if rest[0] == ".." then
      if cur == [] then Outside else Resolve(s, Parent(cur), rest[1..], hops)
    else
      match At(s, cur + [rest[0]])
      case Nothing => On(Nothing)
      case Folder => Resolve(s, cur + [rest[0]], rest[1..], hops)
      case LinkTo(target) =>
        if hops == 0 || target == "" then On(Nothing)
        else if target[0] == '/' then Outside
        else Resolve(s, cur, Split(target, '/') + rest[1..], hops - 1)
      case seen => if |rest| == 1 then On(seen) else On(Nothing)
  }

  /** What stat reports at `p`, whose parent is a directory; `outside` has the answers for links that lead out. */
  function Look(s: Sight, p: Path, outside: map<Path, Stat>): Stat {
    if p == [] then Directory
    else
      match Resolve(s, Parent(p), [p[|p| - 1]], MAX_LINKS)
      case Outside => if p in outside then outside[p] else Missing
      case On(Folder) => Directory
      case On(Data(size, mtime)) => Regular(size, mtime)
      case On(Device) => Other
      case On(_) => Missing
  }

  predicate Plain(name: string) {
    name != "" && name != "." && name != ".." && '/' !in name
  }

  /** Empty names and dots stay where they are, and two dots go back up, out of the tree from its root. */
  lemma DotsGoUp(s: Sight, cur: Path, name: string, rest: seq<string>, hops: nat)
    ensures Resolve(s, cur, [""] + rest, hops) == Resolve(s, cur, ["."] + rest, hops) == Resolve(s, cur, rest, hops)
    ensures Resolve(s, [], [".."] + rest, hops) == Outside
    ensures Resolve(s, cur + [name], [".."] + rest, hops) == Resolve(s, cur, rest, hops)
    ensures Plain(name) && At(s, cur + [name]) == Folder ==>
              Resolve(s, cur, [name, ".."] + rest, hops) == Resolve(s, cur, rest, hops)
  {
    var none: Path := [];
    assert none == [] && ([""] + rest)[1..] == rest && (["."] + rest)[1..] == rest && ([".."] + rest)[1..] == rest;
    assert Parent(cur + [name]) == cur && ([name, ".."] + rest)[1..] == [".."] + rest;
  }

  /** A relative link puts its target in its place, at the cost of one link; an absolute one leads out of the tree. */
  lemma LinkReplaces(s: Sight, cur: Path, name: string, rest: seq<string>, hops: nat, target: string)
    requires Plain(name) && At(s, cur + [name]) == LinkTo(target) && target != ""
    ensures Resolve(s, cur, [name] + rest, hops + 1)
            == if target[0] == '/' then Outside else Resolve(s, cur, Split(target, '/') + rest, hops)
    ensures Resolve(s, cur, [name] + rest, 0) == On(Nothing)
  {
    assert ([name] + rest)[1..] == rest;
  }

  /** Along directories a path of plain names leads to its own entry. */
  lemma {:induction false} PlainPathResolves(s: Sight, cur: Path, rest: seq<string>, hops: nat)
    requires rest != [] && forall i :: 0 <= i < |rest| ==> Plain(rest[i])
    requires forall i :: 0 < i < |rest| ==> At(s, cur + rest[..i]) == Folder
    requires !At(s, cur + rest).LinkTo?
    ensures Resolve(s, cur, rest, hops) == On(At(s, cur + rest))
    decreases |rest|
  {
    if |rest| == 1 {
      assert cur + rest == cur + [rest[0]];
    } else {
      var next := cur + [rest[0]];
      assert rest[..1] == [rest[0]];
      forall i | 0 < i < |rest| - 1 ensures At(s, next + rest[1..][..i]) == Folder {
        assert next + rest[1..][..i] == cur + rest[..i + 1];
      }
      assert next + rest[1..] == cur + rest;
      PlainPathResolves(s, next, rest[1..], hops);
    }
  }

  /** A link to itself is no file, however many links may be followed. */
  lemma {:induction false} LoopEnds(s: Sight, name: string, hops: nat)
    requires Plain(name) && At(s, [name]) == LinkTo(name) && name[0] != '/'
    ensures Resolve(s, [], [name], hops) == On(Nothing)
  {
    var none: Path := [];
    assert none + [name] == [name] && [name] + [] == [name];
    LinkReplaces(s, none, name, [], if hops == 0 then 0 else hops - 1, name);
    if hops > 0 {
      SplitWhole(name, '/');
      LoopEnds(s, name, hops - 1);
    }
  }

  // What the environment answers during a run

  /** A callback at `p` follows a link of the destination tree. */
  predicate Asks(t: Tree, p: Path) {
    p != META && p in t && t[p].Link?
  }

  /** The answer at the callback `i` is the one that the tree gives at that moment. */
  ghost predicate HonestAt(
    d: Disk, src: Root, dst: Root, order: seq<Path>, i: nat, env: Env, outside: map<Path, Stat>)
    requires i < |order|
  {
    var r := Pass(d, CopyData, src, dst, order, i, env);
    r.1 == Done && Asks(r.0.Tree(dst), order[i]) ==>
      env.StatThrough(order[i]) == Look(SightOf(r.0.Tree(dst), r.0.heap), order[i], outside)
  }

  ghost predicate HonestUpTo(
    d: Disk, src: Root, dst: Root, order: seq<Path>, n: nat, env: Env, outside: map<Path, Stat>)
    requires n <= |order|
  {
    forall i :: 0 <= i < n ==> HonestAt(d, src, dst, order, i, env, outside)
  }

  ghost predicate Honest(d: Disk, src: Root, dst: Root, env: Env, outside: map<Path, Stat>) {
    HonestUpTo(d, src, dst, Walk(d.Tree(src)), |Walk(d.Tree(src))|, env, outside)
  }

  /** Two environments tell a pass the same where it asks. */
  ghost predicate AgreeAt(d: Disk, src: Root, dst: Root, order: seq<Path>, i: nat, env: Env, other: Env)
    requires i < |order|
  {
    var r := Pass(d, CopyData, src, dst, order, i, env);
    r.1 == Done && Asks(r.0.Tree(dst), order[i]) ==> env.StatThrough(order[i]) == other.StatThrough(order[i])
  }

  ghost predicate AgreeUpTo(d: Disk, src: Root, dst: Root, order: seq<Path>, n: nat, env: Env, other: Env)
    requires n <= |order|
  {
    forall i :: 0 <= i < n ==> AgreeAt(d, src, dst, order, i, env, other)
  }

  lemma VisitAgrees(d: Disk, mode: Mode, src: Root, dst: Root, p: Path, env: Env, other: Env)
    requires env.faulty == other.faulty && env.stuck == other.stuck
    requires Asks(d.Tree(dst), p) ==> env.StatThrough(p) == other.StatThrough(p)
    ensures Visit(d, mode, src, dst, p, env) == Visit(d, mode, src, dst, p, other)
  {
  }

  lemma {:induction false} PassAgrees(
      d: Disk, src: Root, dst: Root, order: seq<Path>, n: nat, env: Env, other: Env)
    requires env.faulty == other.faulty && env.stuck == other.stuck && n <= |order|
    requires AgreeUpTo(d, src, dst, order, n, env, other)
    ensures Pass(d, CopyData, src, dst, order, n, env) == Pass(d, CopyData, src, dst, order, n, other)
  {
    if n > 0 {
      PassAgrees(d, src, dst, order, n - 1, env, other);
      var r := Pass(d, CopyData, src, dst, order, n - 1, env);
      if r.1 == Done {
        assert AgreeAt(d, src, dst, order, n - 1, env, other);
        VisitAgrees(r.0, CopyData, src, dst, order[n - 1], env, other);
      }
    }
  }

  lemma {:induction false} PruneAgrees(t: Tree, stales: seq<Path>, k: nat, env: Env, other: Env)
    requires env.faulty == other.faulty && k <= |stales|
    ensures Prune(t, stales, k, env) == Prune(t, stales, k, other)
    decreases |stales| - k
  {
    if k < |stales| {
      PruneAgrees(t, stales, k + 1, env, other);
    }
  }

  lemma SyncAgrees(d: Disk, src: Root, dst: Root, env: Env, other: Env)
    requires env.faulty == other.faulty && env.stuck == other.stuck
    requires AgreeUpTo(d, src, dst, Walk(d.Tree(src)), |Walk(d.Tree(src))|, env, other)
    ensures CopyPass(d, CopyData, src, dst, env) == CopyPass(d, CopyData, src, dst, other)
    ensures Sync(d, src, dst, env) == Sync(d, src, dst, other)
  {
    PassAgrees(d, src, dst, Walk(d.Tree(src)), |Walk(d.Tree(src))|, env, other);
    var t := CopyPass(d, CopyData, src, dst, env).0.Tree(dst);
    PruneAgrees(t, Stales(Walk(t), |Walk(t)|, d.Tree(src).Keys - {META}), 0, env, other);
  }

  // The destination tree during the walk, told from the trees before it

  /** What the destination has at `q` after the callbacks `done`. */
  ghost function SeenThen(
    srcTree: Tree, dstTree: Tree, heap: map<nat, Blob>, done: set<Path>, env: Env, q: Path): Seen
  {
    if q == META then
      if META in dstTree then SeenAs(dstTree[META], heap)
      else if MakesMeta(srcTree, done) then Folder
      else Nothing
    else if q in done && q in srcTree then
      match srcTree[q]
      case Dir => if q in dstTree then SeenAs(dstTree[q], heap) else Folder
      case Link(target) => LinkTo(target)
      case File(i) =>
        var size, mtime := |BlobOf(heap, i).content|, BlobOf(heap, i).mtime;
        if Asks(dstTree, q) && env.StatThrough(q) == Regular(size, mtime) then LinkTo(dstTree[q].target)
        else Data(size, mtime)
      case Special => StillSeen(srcTree, dstTree, heap, done, q)
    else StillSeen(srcTree, dstTree, heap, done, q)
  }

  /** What was there before, unless it has gone. */
  function StillSeen(srcTree: Tree, dstTree: Tree, heap: map<nat, Blob>, done: set<Path>, q: Path): Seen {
    if q in dstTree && !GoneAfter(srcTree, done, q) then SeenAs(dstTree[q], heap) else Nothing
  }

  ghost function Sighting(srcTree: Tree, dstTree: Tree, heap: map<nat, Blob>, done: set<Path>, env: Env): Sight {
    map q | q in srcTree.Keys + dstTree.Keys + {META} && SeenThen(srcTree, dstTree, heap, done, env, q) != Nothing
      :: SeenThen(srcTree, dstTree, heap, done, env, q)
  }

  /** What a link shows at `p` after the callbacks `done`, when those before have been given `answers`. */
  type Telling = (set<Path>, map<Path, Stat>, Path) -> Stat

  ghost function Shows(
    srcTree: Tree, dstTree: Tree, heap: map<nat, Blob>, env: Env, outside: map<Path, Stat>): Telling
  {
    (done, answers, p) => Look(Sighting(srcTree, dstTree, heap, done, env.(followed := answers)), p, outside)
  }

  /** The answers to the first `n` callbacks, each from what the callbacks before it leave. */
  ghost function Told(order: seq<Path>, n: nat, shows: Telling): map<Path, Stat>
    requires n <= |order|
  {
    if n == 0 then map[]
    else
      var answers := Told(order, n - 1, shows);
      answers[order[n - 1] := shows(First(order, n - 1), answers, order[n - 1])]
  }

  /** The environment with the answers about links that a run will get, from the trees before the run. */
  ghost function Forecast(
    srcTree: Tree, dstTree: Tree, heap: map<nat, Blob>, env: Env, outside: map<Path, Stat>): Env
  {
    env.(followed := Told(Walk(srcTree), |Walk(srcTree)|, Shows(srcTree, dstTree, heap, env, outside)))
  }

  /** The run so far has made of the destination what the trees before it say. */
  lemma PassSight(d: Disk, src: Root, dst: Root, order: seq<Path>, n: nat, env: Env)
    requires Valid(d) && src in d.roots && dst in d.roots && src != dst && env.stuck == {}
    requires ParentsFirst(order) && n <= |order| && forall p :: p in order ==> p in d.Tree(src)
    requires Pass(d, CopyData, src, dst, order, n, env).1 == Done
    ensures var d' := Pass(d, CopyData, src, dst, order, n, env).0;
            SightOf(d'.Tree(dst), d'.heap) == Sighting(d.Tree(src), d.Tree(dst), d.heap, First(order, n), env)
  {
    var d' := Pass(d, CopyData, src, dst, order, n, env).0;
    PassFrame(d, CopyData, src, dst, order, n, env);
    PassProgress(d, CopyData, src, dst, order, n, env);
    PassMeta(d, CopyData, src, dst, order, n, env);
    forall q
      ensures At(SightOf(d'.Tree(dst), d'.heap), q)
              == SeenThen(d.Tree(src), d.Tree(dst), d.heap, First(order, n), env, q)
    {
      if q != META && q !in First(order, n) && q !in d.Tree(src) && q in d.Tree(dst)
         && !GoneAfter(d.Tree(src), First(order, n), q)
      {
        PassRetains(d, CopyData, src, dst, order, n, env, q);
      }
      SeenAsExpected(d, d', src, dst, First(order, n), env, q);
    }
    SightsEqual(SightOf(d'.Tree(dst), d'.heap), d.Tree(src), d.Tree(dst), d.heap, First(order, n), env);
  }

  lemma SightsEqual(s: Sight, srcTree: Tree, dstTree: Tree, heap: map<nat, Blob>, done: set<Path>, env: Env)
    requires forall q :: q in s ==> s[q] != Nothing
    requires forall q :: At(s, q) == SeenThen(srcTree, dstTree, heap, done, env, q)
    ensures s == Sighting(srcTree, dstTree, heap, done, env)
  {
    forall q | q in s ensures q in Sighting(srcTree, dstTree, heap, done, env) {
      assert At(s, q) != Nothing;
    }
    forall q | q in Sighting(srcTree, dstTree, heap, done, env) ensures q in s {
      assert At(s, q) != Nothing;
    }
  }

  lemma SeenAsExpected(d: Disk, d': Disk, src: Root, dst: Root, done: set<Path>, env: Env, q: Path)
    requires Valid(d) && src in d.roots && dst in d.roots && src != dst && Frame(d, d', dst, true)
    requires Progress(d, d', CopyData, src, dst, done, env) && MetaAsExpected(d, d', src, dst, done)
    requires done <= d.Tree(src).Keys
    requires (q != META && q !in d.Tree(src) && q in d.Tree(dst) && !GoneAfter(d.Tree(src), done, q)) ==> q in d'.Tree(dst)
    ensures At(SightOf(d'.Tree(dst), d'.heap), q) == SeenThen(d.Tree(src), d.Tree(dst), d.heap, done, env, q)
  {
    assert InodesIn(d.roots[dst], d.heap) && InodesIn(d.roots[src], d.heap);
    var srcTree := d.Tree(src);
    if q == META {
    } else if q in done {
      SourceStays(srcTree, done, q);
      assert Settled(d, d', CopyData, src, dst, q, env);
    } else {
      assert Untouched(d, d', src, dst, q);
      if q in srcTree {
        SourceStays(srcTree, done, q);
      } else if GoneAfter(srcTree, done, q) {
        GoneIsGone(d, d', src, dst, done, q, env);
      }
    }
  }

  /** Above a source path there are only directories. */
  lemma SourceStays(srcTree: Tree, done: set<Path>, q: Path)
    requires WellFormed(srcTree) && q in srcTree
    ensures !GoneAfter(srcTree, done, q)
  {
    forall a | a in AllAbove(q) && a in srcTree ensures srcTree[a].Dir? {
      assert Above(a, q);
    }
  }

  lemma SightingAgrees(
      srcTree: Tree, dstTree: Tree, heap: map<nat, Blob>, done: set<Path>, env: Env, other: Env)
    requires forall p :: p in done && Asks(dstTree, p) ==> env.StatThrough(p) == other.StatThrough(p)
    ensures Sighting(srcTree, dstTree, heap, done, env) == Sighting(srcTree, dstTree, heap, done, other)
  {
    forall q ensures SeenThen(srcTree, dstTree, heap, done, env, q) == SeenThen(srcTree, dstTree, heap, done, other, q) {}
  }

  /** What was told about a callback is not told anew. */
  lemma {:induction false} ToldStays(order: seq<Path>, i: nat, n: nat, shows: Telling)
    requires ParentsFirst(order) && i < n <= |order|
    ensures var answers := Told(order, n, shows);
            order[i] in answers && answers[order[i]] == shows(First(order, i), Told(order, i, shows), order[i])
    decreases n - i
  {
    if i < n - 1 {
      ToldStays(order, i, n - 1, shows);
      assert order[i] in First(order, n - 1);
    }
  }

  lemma ToldSame(order: seq<Path>, i: nat, n: nat, shows: Telling, p: Path)
    requires ParentsFirst(order) && i <= n <= |order| && p in First(order, i)
    ensures p in Told(order, i, shows) && p in Told(order, n, shows)
    ensures Told(order, n, shows)[p] == Told(order, i, shows)[p]
  {
    var j :| 0 <= j < i && order[j] == p;
    ToldStays(order, j, i, shows);
    ToldStays(order, j, n, shows);
  }

  /** `f` answers the callback `i` from what the earlier ones leave under `f` itself. */
  ghost predicate TellsAt(
    srcTree: Tree, dstTree: Tree, heap: map<nat, Blob>, order: seq<Path>, i: nat, f: Env, outside: map<Path, Stat>)
    requires i < |order|
  {
    f.StatThrough(order[i]) == Look(Sighting(srcTree, dstTree, heap, First(order, i), f), order[i], outside)
  }

  /** So does a forecast at every callback. */
  lemma ForecastAt(
      srcTree: Tree, dstTree: Tree, heap: map<nat, Blob>, i: nat, env: Env, outside: map<Path, Stat>)
    requires ParentsFirst(Walk(srcTree)) && i < |Walk(srcTree)|
    ensures TellsAt(srcTree, dstTree, heap, Walk(srcTree), i, Forecast(srcTree, dstTree, heap, env, outside), outside)
  {
    var order, shows := Walk(srcTree), Shows(srcTree, dstTree, heap, env, outside);
    var f, e := Forecast(srcTree, dstTree, heap, env, outside), env.(followed := Told(order, i, shows));
    ToldStays(order, i, |order|, shows);
    forall p | p in First(order, i) ensures e.StatThrough(p) == f.StatThrough(p) {
      ToldSame(order, i, |order|, shows, p);
    }
    SightingAgrees(srcTree, dstTree, heap, First(order, i), e, f);
  }

  // Honest runs are the foreseen ones

  lemma {:induction false} DoneBefore(
      d: Disk, src: Root, dst: Root, order: seq<Path>, i: nat, n: nat, env: Env)
    requires i <= n <= |order| && Pass(d, CopyData, src, dst, order, n, env).1 == Done
    ensures Pass(d, CopyData, src, dst, order, i, env).1 == Done
    decreases n - i
  {
    if i < n {
      DoneBefore(d, src, dst, order, i, n - 1, env);
    }
  }

  /** A callback asks where the destination had a link before the run. */
  lemma AsksAsBefore(d: Disk, src: Root, dst: Root, order: seq<Path>, i: nat, env: Env)
    requires Valid(d) && src in d.roots && dst in d.roots && src != dst && env.stuck == {}
    requires ParentsFirst(order) && i < |order| && forall p :: p in order ==> p in d.Tree(src)
    requires Pass(d, CopyData, src, dst, order, i, env).1 == Done
    ensures Asks(Pass(d, CopyData, src, dst, order, i, env).0.Tree(dst), order[i]) <==> Asks(d.Tree(dst), order[i])
  {
    PassProgress(d, CopyData, src, dst, order, i, env);
    assert order[i] in order && order[i] !in First(order, i);
    if order[i] != META {
      assert Untouched(d, Pass(d, CopyData, src, dst, order, i, env).0, src, dst, order[i]);
    }
  }

  /** Where the answers so far were as foreseen, the callback `i` sees what the forecast says. */
  lemma SightAsForeseen(
      d: Disk, src: Root, dst: Root, order: seq<Path>, i: nat, env: Env, f: Env)
    requires Valid(d) && src in d.roots && dst in d.roots && src != dst && env.stuck == {}
    requires ParentsFirst(order) && i < |order| && forall p :: p in order ==> p in d.Tree(src)
    requires AgreeUpTo(d, src, dst, order, i, env, f) && Pass(d, CopyData, src, dst, order, i, env).1 == Done
    ensures var d' := Pass(d, CopyData, src, dst, order, i, env).0;
            SightOf(d'.Tree(dst), d'.heap) == Sighting(d.Tree(src), d.Tree(dst), d.heap, First(order, i), f)
  {
    PassSight(d, src, dst, order, i, env);
    forall p | p in First(order, i) && Asks(d.Tree(dst), p) ensures env.StatThrough(p) == f.StatThrough(p) {
      var j :| 0 <= j < i && order[j] == p;
      DoneBefore(d, src, dst, order, j, i, env);
      AsksAsBefore(d, src, dst, order, j, env);
      assert AgreeAt(d, src, dst, order, j, env, f);
    }
    SightingAgrees(d.Tree(src), d.Tree(dst), d.heap, First(order, i), env, f);
  }

  /** If the answers so far were as foreseen, an honest answer at this callback is the foreseen one. */
  lemma HonestStep(
      d: Disk, src: Root, dst: Root, order: seq<Path>, i: nat, env: Env, f: Env, outside: map<Path, Stat>)
    requires Valid(d) && src in d.roots && dst in d.roots && src != dst && env.stuck == {}
    requires ParentsFirst(order) && i < |order| && forall p :: p in order ==> p in d.Tree(src)
    requires TellsAt(d.Tree(src), d.Tree(dst), d.heap, order, i, f, outside)
    requires AgreeUpTo(d, src, dst, order, i, env, f)
    ensures HonestAt(d, src, dst, order, i, env, outside) <==> AgreeAt(d, src, dst, order, i, env, f)
  {
    if Pass(d, CopyData, src, dst, order, i, env).1 == Done {
      SightAsForeseen(d, src, dst, order, i, env, f);
    }
  }

  lemma {:induction false} HonestAgrees(
      d: Disk, src: Root, dst: Root, order: seq<Path>, n: nat, env: Env, f: Env, outside: map<Path, Stat>)
    requires Valid(d) && src in d.roots && dst in d.roots && src != dst && env.stuck == {}
    requires ParentsFirst(order) && n <= |order| && forall p :: p in order ==> p in d.Tree(src)
    requires forall i :: 0 <= i < |order| ==> TellsAt(d.Tree(src), d.Tree(dst), d.heap, order, i, f, outside)
    requires HonestUpTo(d, src, dst, order, n, env, outside)
    ensures AgreeUpTo(d, src, dst, order, n, env, f)
  {
    if n > 0 {
      HonestAgrees(d, src, dst, order, n - 1, env, f, outside);
      HonestStep(d, src, dst, order, n - 1, env, f, outside);
      assert HonestAt(d, src, dst, order, n - 1, env, outside);
    }
  }

  lemma AgreeingIsHonest(
      d: Disk, src: Root, dst: Root, order: seq<Path>, env: Env, f: Env, outside: map<Path, Stat>)
    requires Valid(d) && src in d.roots && dst in d.roots && src != dst && env.stuck == {}
    requires ParentsFirst(order) && forall p :: p in order ==> p in d.Tree(src)
    requires forall i :: 0 <= i < |order| ==> TellsAt(d.Tree(src), d.Tree(dst), d.heap, order, i, f, outside)
    requires AgreeUpTo(d, src, dst, order, |order|, env, f)
    ensures HonestUpTo(d, src, dst, order, |order|, env, outside)
  {
    forall i | 0 <= i < |order| ensures HonestAt(d, src, dst, order, i, env, outside) {
      assert AgreeAt(d, src, dst, order, i, env, f);
      HonestStep(d, src, dst, order, i, env, f, outside);
    }
  }

  /**
  An environment answers honestly if and only if it gives the foreseen answers
  where the run asks, and the foreseen one is honest itself.
  */
  lemma HonestExactly(d: Disk, src: Root, dst: Root, env: Env, outside: map<Path, Stat>)
    requires Valid(d) && src in d.roots && dst in d.roots && src != dst && env.stuck == {}
    ensures var order, f := Walk(d.Tree(src)), Forecast(d.Tree(src), d.Tree(dst), d.heap, env, outside);
            && (Honest(d, src, dst, env, outside) <==> AgreeUpTo(d, src, dst, order, |order|, env, f))
            && Honest(d, src, dst, f, outside)
  {
    var srcTree, order := d.Tree(src), Walk(d.Tree(src));
    var f := Forecast(srcTree, d.Tree(dst), d.heap, env, outside);
    WalkParentsFirst(srcTree);
    forall i | 0 <= i < |order| ensures TellsAt(srcTree, d.Tree(dst), d.heap, order, i, f, outside) {
      ForecastAt(srcTree, d.Tree(dst), d.heap, i, env, outside);
    }
    if Honest(d, src, dst, env, outside) {
      HonestAgrees(d, src, dst, order, |order|, env, f, outside);
    }
    if AgreeUpTo(d, src, dst, order, |order|, env, f) {
      AgreeingIsHonest(d, src, dst, order, env, f, outside);
    }
    assert AgreeUpTo(d, src, dst, order, |order|, f, f);
    AgreeingIsHonest(d, src, dst, order, f, f, outside);
  }

  /** A forecast rests on the trees alone, not on the answers of the environment it is made for. */
  lemma SameForecast(srcTree: Tree, dstTree: Tree, heap: map<nat, Blob>, env: Env, other: Env, outside: map<Path, Stat>)
    requires env.faulty == other.faulty && env.stuck == other.stuck
    ensures Forecast(srcTree, dstTree, heap, env, outside) == Forecast(srcTree, dstTree, heap, other, outside)
  {
    ShowsSame(srcTree, dstTree, heap, env, other, outside, Walk(srcTree), |Walk(srcTree)|);
  }

  lemma {:induction false} ShowsSame(
      srcTree: Tree, dstTree: Tree, heap: map<nat, Blob>, env: Env, other: Env, outside: map<Path, Stat>,
      order: seq<Path>, n: nat)
    requires env.faulty == other.faulty && env.stuck == other.stuck && n <= |order|
    ensures Told(order, n, Shows(srcTree, dstTree, heap, env, outside))
            == Told(order, n, Shows(srcTree, dstTree, heap, other, outside))
  {
    if n > 0 {
      ShowsSame(srcTree, dstTree, heap, env, other, outside, order, n - 1);
    }
  }

  /** So a run with honest answers is the run with the foreseen ones, which are told from the trees before it. */
  lemma RunAsForeseen(d: Disk, src: Root, dst: Root, env: Env, outside: map<Path, Stat>)
    requires Valid(d) && src in d.roots && dst in d.roots && src != dst && env.stuck == {}
    requires Honest(d, src, dst, env, outside)
    ensures var f := Forecast(d.Tree(src), d.Tree(dst), d.heap, env, outside);
            && f.faulty == env.faulty && f.stuck == env.stuck
            && CopyPass(d, CopyData, src, dst, env) == CopyPass(d, CopyData, src, dst, f)
            && Sync(d, src, dst, env) == Sync(d, src, dst, f)
  {
    var f := Forecast(d.Tree(src), d.Tree(dst), d.heap, env, outside);
    HonestExactly(d, src, dst, env, outside);
    SyncAgrees(d, src, dst, env, f);
  }

  /** Once the walk is over, it has asked about every link in the place of a source path. */
  lemma AnswersAsForeseen(d: Disk, src: Root, dst: Root, env: Env, outside: map<Path, Stat>, p: Path)
    requires Valid(d) && src in d.roots && dst in d.roots && src != dst && env.stuck == {}
    requires Honest(d, src, dst, env, outside) && CopyPass(d, CopyData, src, dst, env).1 == Done
    requires p in d.Tree(src) && Asks(d.Tree(dst), p)
    ensures env.StatThrough(p) == Forecast(d.Tree(src), d.Tree(dst), d.heap, env, outside).StatThrough(p)
  {
    var order := Walk(d.Tree(src));
    HonestExactly(d, src, dst, env, outside);
    WalkParentsFirst(d.Tree(src));
    assert p in order;
    var i :| 0 <= i < |order| && order[i] == p;
    DoneBefore(d, src, dst, order, i, |order|, env);
    AsksAsBefore(d, src, dst, order, i, env);
    assert AgreeAt(d, src, dst, order, i, env, Forecast(d.Tree(src), d.Tree(dst), d.heap, env, outside));
  }

  /** How an honest walk ends, and when it leaves its tree, told from the trees before it. */
  lemma WalkForeseen(d: Disk, src: Root, dst: Root, env: Env, outside: map<Path, Stat>)
    requires Valid(d) && src in d.roots && dst in d.roots && src != dst && env.stuck == {}
    requires Honest(d, src, dst, env, outside)
    ensures var f, srcTree, t := Forecast(d.Tree(src), d.Tree(dst), d.heap, env, outside), d.Tree(src), d.Tree(dst);
            var order, end := Walk(srcTree), CopyPass(d, CopyData, src, dst, env).1;
            && end == RunTrouble(srcTree, t, f)
            && (end == LeftTree
                <==> exists i :: 0 <= i < |order| && MeetsLinkAt(srcTree, t, order, i, f)
                                 && NoFailureBefore(srcTree, t, order, i, f))
  {
    var f := Forecast(d.Tree(src), d.Tree(dst), d.heap, env, outside);
    RunAsForeseen(d, src, dst, env, outside);
    CopyPassOutcome(d, CopyData, src, dst, f);
    LeavesExactly(d, CopyData, src, dst, f);
  }

  /**
  The whole account of an honest run, told from the trees before it: how it
  ends, and, when it succeeds, whether it has made a mirror.
  */
  lemma SyncForeseen(d: Disk, src: Root, dst: Root, env: Env, outside: map<Path, Stat>)
    requires Valid(d) && src in d.roots && dst in d.roots && src != dst && env.stuck == {}
    requires Honest(d, src, dst, env, outside)
    ensures var f, srcTree, t := Forecast(d.Tree(src), d.Tree(dst), d.heap, env, outside), d.Tree(src), d.Tree(dst);
            && Sync(d, src, dst, env).1 == SyncEnd(srcTree, t, f)
            && (Sync(d, src, dst, env).1 == Done ==>
                  (Mirrors(View(d, src), View(Sync(d, src, dst, env).0, dst)) <==> NoneBlind(srcTree, t, d.heap, f)))
  {
    var f := Forecast(d.Tree(src), d.Tree(dst), d.heap, env, outside);
    RunAsForeseen(d, src, dst, env, outside);
    SyncOutcome(d, src, dst, f);
    if Sync(d, src, dst, env).1 == Done {
      SyncExact(d, src, dst, f);
    }
  }

  // Links to a file beside them

  /** A link that names a file beside it shows that file. */
  lemma LooksBeside(s: Sight, p: string, name: string, outside: map<Path, Stat>)
    requires Plain(p) && Plain(name) && At(s, [p]) == LinkTo(name) && At(s, [name]).Data?
    ensures Look(s, [p], outside) == Regular(At(s, [name]).size, At(s, [name]).mtime)
  {
    SplitWhole(name, '/');
    var none: Path := [];
    assert none + [p] == [p] && none + [name] == [name] && [name] + [p][1..] == [name];
    assert Resolve(s, none, [name], MAX_LINKS - 1) == On(At(s, [name]));
    assert Resolve(s, none, [p], MAX_LINKS) == Resolve(s, none, [name], MAX_LINKS - 1);
  }

  /** Of two paths, the lesser has been visited when the walk comes to the other, and not the other way round. */
  lemma EarlierInWalk(t: Tree, p: Path, q: Path, i: nat)
    requires p in t && q in t && PathLess(p, q) && i < |Walk(t)|
    ensures Walk(t)[i] == q ==> p in First(Walk(t), i) && q !in First(Walk(t), i)
    ensures Walk(t)[i] == p ==> q !in First(Walk(t), i) && p !in First(Walk(t), i)
  {
    var order := Walk(t);
    PathLessStrictTotal();
    WalkAscends(t);
    assert p in order && q in order;
    forall j | 0 <= j < |order| && j != i
      ensures if j < i then PathLess(order[j], order[i]) else PathLess(order[i], order[j])
    {
      if j < i { AscendingAt(PathLess, order, j, i); } else { AscendingAt(PathLess, order, i, j); }
    }
  }

  lemma EitherFirst(p: Path, q: Path)
    requires p != q
    ensures PathLess(p, q) <==> !PathLess(q, p)
  {
    PathLessStrictTotal();
  }

  /** A destination link at `p` to a file beside it, where the source has files in both places. */
  predicate LinkBeside(srcTree: Tree, dstTree: Tree, p: string, name: string) {
    && Plain(p) && Plain(name) && [p] != META && [name] != META
    && [p] in srcTree && srcTree[[p]].File? && [name] in srcTree && srcTree[[name]].File?
    && [p] in dstTree && dstTree[[p]] == Link(name) && [name] in dstTree && dstTree[[name]].File?
  }

  function StampOf(n: Node, heap: map<nat, Blob>): Stat
    requires n.File?
  {
    Regular(|BlobOf(heap, n.ino).content|, BlobOf(heap, n.ino).mtime)
  }

  /** Such a link shows the source's file if that comes earlier in the walk, and the file of the destination otherwise. */
  lemma BesideForeseen(
      srcTree: Tree, dstTree: Tree, heap: map<nat, Blob>, env: Env, outside: map<Path, Stat>, p: string, name: string)
    requires WellFormed(srcTree) && LinkBeside(srcTree, dstTree, p, name)
    ensures Forecast(srcTree, dstTree, heap, env, outside).StatThrough([p])
            == StampOf(if PathLess([name], [p]) then srcTree[[name]] else dstTree[[name]], heap)
  {
    var order, f := Walk(srcTree), Forecast(srcTree, dstTree, heap, env, outside);
    var i := NameVisited(srcTree, p, name);
    WalkParentsFirst(srcTree);
    ForecastAt(srcTree, dstTree, heap, i, env, outside);
    BesideSeen(srcTree, dstTree, heap, First(order, i), f, p, name);
    LooksBeside(Sighting(srcTree, dstTree, heap, First(order, i), f), p, name, outside);
  }

  lemma NameVisited(t: Tree, p: string, name: string) returns (i: nat)
    requires [p] in t && [name] in t && p != name
    ensures i < |Walk(t)| && Walk(t)[i] == [p] && [p] !in First(Walk(t), i)
    ensures [name] in First(Walk(t), i) <==> PathLess([name], [p])
  {
    assert [p] in Walk(t);
    i :| 0 <= i < |Walk(t)| && Walk(t)[i] == [p];
    EitherFirst([name], [p]);
    if PathLess([name], [p]) {
      EarlierInWalk(t, [name], [p], i);
    } else {
      EarlierInWalk(t, [p], [name], i);
    }
  }

  lemma BesideSeen(
      srcTree: Tree, dstTree: Tree, heap: map<nat, Blob>, done: set<Path>, f: Env, p: string, name: string)
    requires LinkBeside(srcTree, dstTree, p, name) && [p] !in done
    ensures var sight := Sighting(srcTree, dstTree, heap, done, f);
            && At(sight, [p]) == LinkTo(name)
            && At(sight, [name]) == SeenAs(if [name] in done then srcTree[[name]] else dstTree[[name]], heap)
  {
    assert !GoneAfter(srcTree, done, [p]) && !GoneAfter(srcTree, done, [name]);
  }

  /** A link that the walk overtakes: it shows the source's own file by then, which looks like the one that belongs there. */
  lemma OvertakenLinkStays(d: Disk, src: Root, dst: Root, env: Env, outside: map<Path, Stat>, p: string, name: string)
    requires Valid(d) && src in d.roots && dst in d.roots && src != dst && env.stuck == {}
    requires Honest(d, src, dst, env, outside) && Sync(d, src, dst, env).1 == Done
    requires LinkBeside(d.Tree(src), d.Tree(dst), p, name) && PathLess([name], [p])
    requires StampOf(d.Tree(src)[[name]], d.heap) == StampOf(d.Tree(src)[[p]], d.heap)
    ensures !Mirrors(View(d, src), View(Sync(d, src, dst, env).0, dst))
  {
    SyncForeseen(d, src, dst, env, outside);
    BesideForeseen(d.Tree(src), d.Tree(dst), d.heap, env, outside, p, name);
    assert Blind(d.Tree(src), d.Tree(dst), d.heap, [p], Forecast(d.Tree(src), d.Tree(dst), d.heap, env, outside));
  }

  // A second run

  /** The environment with the answers that a tree gives about its links as long as nothing changes it. */
  function AsSeen(t: Tree, heap: map<nat, Blob>, env: Env, outside: map<Path, Stat>): Env {
    env.(followed := map p | p in t && t[p].Link? :: Look(SightOf(t, heap), p, outside))
  }

  /**
  An honest run after a successful one succeeds and changes nothing if and only
  if, in the trees that the first has left, no source path is faulty and every
  link in the place of a source directory or file leads to the like of it.
  */
  lemma IdempotentAsSeen(d: Disk, src: Root, dst: Root, env: Env, again: Env, outside: map<Path, Stat>)
    requires Valid(d) && dst in d.roots && src in d.roots && src != dst && env.stuck == {} && again.stuck == {}
    requires Sync(d, src, dst, env).1 == Done
    requires Honest(Sync(d, src, dst, env).0, src, dst, again, outside)
    ensures var d' := Sync(d, src, dst, env).0;
            Sync(d', src, dst, again) == (d', Done)
            <==> SecondRunIsQuiet(d', src, dst, AsSeen(d'.Tree(dst), d'.heap, again, outside))
  {
    var d' := Sync(d, src, dst, env).0;
    var seen := AsSeen(d'.Tree(dst), d'.heap, again, outside);
    SyncFrame(d, src, dst, env);
    if SecondRunIsQuiet(d', src, dst, seen) {
      QuietAsSeen(d, src, dst, env, seen, again, outside);
    } else if Sync(d', src, dst, again) == (d', Done) {
      SyncIdempotent(d, src, dst, env, again);
      forall p | p in d'.Tree(src) && p != META
        ensures p !in seen.faulty && LinkHolds(d'.Tree(src), d'.Tree(dst), d'.heap, p, seen)
      {
        AskedAgain(d, src, dst, env, again, outside, p);
      }
    }
  }

  /** What the tree shows is what an honest second run is told, as long as it has nothing to do. */
  lemma QuietAsSeen(d: Disk, src: Root, dst: Root, env: Env, seen: Env, again: Env, outside: map<Path, Stat>)
    requires Valid(d) && dst in d.roots && src in d.roots && src != dst && env.stuck == {} && again.stuck == {}
    requires Sync(d, src, dst, env).1 == Done
    requires Honest(Sync(d, src, dst, env).0, src, dst, again, outside)
    requires var d' := Sync(d, src, dst, env).0;
             seen == AsSeen(d'.Tree(dst), d'.heap, again, outside) && SecondRunIsQuiet(d', src, dst, seen)
    ensures var d' := Sync(d, src, dst, env).0; Sync(d', src, dst, again) == (d', Done)
  {
    var d', order := Sync(d, src, dst, env).0, Walk(d.Tree(src));
    SyncFrame(d, src, dst, env);
    assert d'.Tree(src) == d.Tree(src);
    SyncIdempotent(d, src, dst, env, seen);
    forall i | 0 <= i < |order| ensures HonestAt(d', src, dst, order, i, seen, outside) {
      QuietSoFar(d, src, dst, env, seen, i);
    }
    assert Honest(d', src, dst, seen, outside);
    SameForecast(d.Tree(src), d'.Tree(dst), d'.heap, seen, again, outside);
    RunAsForeseen(d', src, dst, seen, outside);
    RunAsForeseen(d', src, dst, again, outside);
  }

  lemma AskedAgain(d: Disk, src: Root, dst: Root, env: Env, again: Env, outside: map<Path, Stat>, p: Path)
    requires Valid(d) && dst in d.roots && src in d.roots && src != dst && env.stuck == {} && again.stuck == {}
    requires Sync(d, src, dst, env).1 == Done && p in d.Tree(src) && p != META
    requires var d' := Sync(d, src, dst, env).0;
             && Honest(d', src, dst, again, outside) && d'.Tree(src) == d.Tree(src)
             && SecondRunIsQuiet(d', src, dst, again)
    ensures var d' := Sync(d, src, dst, env).0;
            var seen := AsSeen(d'.Tree(dst), d'.heap, again, outside);
            p !in seen.faulty && LinkHolds(d'.Tree(src), d'.Tree(dst), d'.heap, p, seen)
  {
    var d', order := Sync(d, src, dst, env).0, Walk(d.Tree(src));
    assert p in order;
    var i :| 0 <= i < |order| && order[i] == p;
    QuietSoFar(d, src, dst, env, again, i);
    assert HonestAt(d', src, dst, order, i, again, outside);
    assert LinkHolds(d'.Tree(src), d'.Tree(dst), d'.heap, p, again);
  }

  lemma QuietSoFar(d: Disk, src: Root, dst: Root, env: Env, again: Env, i: nat)
    requires Valid(d) && dst in d.roots && src in d.roots && src != dst && env.stuck == {} && again.stuck == {}
    requires Sync(d, src, dst, env).1 == Done && i <= |Walk(d.Tree(src))|
    requires SecondRunIsQuiet(Sync(d, src, dst, env).0, src, dst, again)
    ensures var d' := Sync(d, src, dst, env).0;
            Pass(d', CopyData, src, dst, Walk(d.Tree(src)), i, again) == (d', Done)
  {
    SyncSettles(d, src, dst, env);
    SyncFrame(d, src, dst, env);
    forall q | q in d.Tree(src) ensures exists before :: Trouble(d.Tree(src), d.Tree(dst), before, q, env) == Done {
      NoTrouble(d, src, dst, env, q);
    }
    PassIsIdle(d, Sync(d, src, dst, env).0, src, dst, Walk(d.Tree(src)), i, env, again);
  }

  /** A link that the first run keeps for what it shows, before the run replaces what it shows. */
  lemma KeptLinkTurns(d: Disk, src: Root, dst: Root, env: Env, outside: map<Path, Stat>, p: string, name: string)
    requires Valid(d) && src in d.roots && dst in d.roots && src != dst && env.stuck == {}
    requires Honest(d, src, dst, env, outside) && Sync(d, src, dst, env).1 == Done
    requires LinkBeside(d.Tree(src), d.Tree(dst), p, name) && PathLess([p], [name])
    requires StampOf(d.Tree(dst)[[name]], d.heap) == StampOf(d.Tree(src)[[p]], d.heap)
    requires StampOf(d.Tree(src)[[name]], d.heap) != StampOf(d.Tree(src)[[p]], d.heap)
    ensures var d' := Sync(d, src, dst, env).0; var sight := SightOf(d'.Tree(dst), d'.heap);
            At(sight, [p]) == LinkTo(name) && At(sight, [name]) == SeenAs(d.Tree(src)[[name]], d.heap)
  {
    var d' := Sync(d, src, dst, env).0;
    EitherFirst([name], [p]);
    BesideForeseen(d.Tree(src), d.Tree(dst), d.heap, env, outside, p, name);
    AnswersAsForeseen(d, src, dst, env, outside, [p]);
    SyncSettles(d, src, dst, env);
    assert Settled(d, d', CopyData, src, dst, [p], env) && Settled(d, d', CopyData, src, dst, [name], env);
  }

  /** The second run sees another file through it, and does not leave it. */
  lemma SecondRunTurns(
      d: Disk, src: Root, dst: Root, env: Env, again: Env, outside: map<Path, Stat>, outsideThen: map<Path, Stat>,
      p: string, name: string)
    requires Valid(d) && src in d.roots && dst in d.roots && src != dst && env.stuck == {} && again.stuck == {}
    requires Honest(d, src, dst, env, outside) && Sync(d, src, dst, env).1 == Done
    requires Honest(Sync(d, src, dst, env).0, src, dst, again, outsideThen)
    requires LinkBeside(d.Tree(src), d.Tree(dst), p, name) && PathLess([p], [name])
    requires StampOf(d.Tree(dst)[[name]], d.heap) == StampOf(d.Tree(src)[[p]], d.heap)
    requires StampOf(d.Tree(src)[[name]], d.heap) != StampOf(d.Tree(src)[[p]], d.heap)
    ensures var d' := Sync(d, src, dst, env).0; Sync(d', src, dst, again) != (d', Done)
  {
    var d' := Sync(d, src, dst, env).0;
    KeptLinkTurns(d, src, dst, env, outside, p, name);
    SyncFrame(d, src, dst, env);
    TurnedLinkFails(d, d', src, dst, again, outsideThen, p, name);
    IdempotentAsSeen(d, src, dst, env, again, outsideThen);
  }

  lemma TurnedLinkFails(
      d: Disk, d': Disk, src: Root, dst: Root, again: Env, outside: map<Path, Stat>, p: string, name: string)
    requires Valid(d) && src in d.roots && src != dst && Frame(d, d', dst, true)
    requires LinkBeside(d.Tree(src), d.Tree(dst), p, name)
    requires var sight := SightOf(d'.Tree(dst), d'.heap);
             At(sight, [p]) == LinkTo(name) && At(sight, [name]) == SeenAs(d.Tree(src)[[name]], d.heap)
    requires StampOf(d.Tree(src)[[name]], d.heap) != StampOf(d.Tree(src)[[p]], d.heap)
    ensures !LinkHolds(d'.Tree(src), d'.Tree(dst), d'.heap, [p], AsSeen(d'.Tree(dst), d'.heap, again, outside))
  {
    assert InodesIn(d.roots[src], d.heap) && d'.Tree(src) == d.Tree(src);
    LooksBeside(SightOf(d'.Tree(dst), d'.heap), p, name, outside);
  }
}

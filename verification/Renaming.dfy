/** The rename half of scripts/full_migration.py: a plan computed up front on the whole tree, deepest
    paths first, and carried out while the tree changes under it. */
module Renaming {
  import opened Rewriting

  type Path = seq<string>

  /** Every file and directory below the root, with whatever it holds. */
  type Tree<C> = map<Path, C>

  datatype Rename = Rename(oldPath: Path, newPath: Path)

  const EXCLUDED_DIRS: set<string> := {
    ".git", ".idea", ".vscode", "node_modules", "dist", "build", "coverage",
    "__pycache__", ".pytest_cache", ".venv", "venv"
  }

  const EXCLUDED_FILES: set<Path> := {
    [".github", "workflows", "zlttbots-ci.yml"],
    ["scripts", "full_migration.py"],
    ["scripts", "rebrand_zlttbots_to_zlttbots.py"]
  }

  predicate Excluded(p: Path) {
    (exists i :: 0 <= i < |p| && p[i] in EXCLUDED_DIRS) || p in EXCLUDED_FILES
  }

  function MapName(name: string): string {
    MappingFits();
    Rewrite(name, MAPPING)
  }

  function Target(p: Path): Path
    requires p != []
  {
    p[..|p| - 1] + [MapName(p[|p| - 1])]
  }

  predicate Planned(p: Path)
    requires p != []
  {
    !Excluded(p) && MapName(p[|p| - 1]) != p[|p| - 1]
  }

  ghost predicate Closed<C>(t: Tree<C>) {
    forall p :: p in t ==> p != [] && forall n :: 0 < n < |p| ==> p[..n] in t
  }

  /** The directory listing, each path once, deepest first; ties in any order. */
  ghost predicate Listing<C>(t: Tree<C>, listing: seq<Path>) {
    && (forall p :: p in listing <==> p in t)
    && (forall i, j :: 0 <= i < j < |listing| ==> listing[i] != listing[j] && |listing[i]| >= |listing[j]|)
  }

  function OldPaths(plan: seq<Rename>): set<Path> {
    set r | r in plan :: r.oldPath
  }

  function PlannedAmong(paths: seq<Path>): set<Path> {
    set p | p in paths && p != [] && Planned(p)
  }

  /** Each path once, deepest first. */
  ghost predicate DeepestFirst(paths: seq<Path>) {
    forall i, j :: 0 <= i < j < |paths| ==> paths[i] != paths[j] && |paths[i]| >= |paths[j]|
  }

  /** What a plan is: the planned paths, each once, deepest first, each with its mapped name. */
  ghost predicate PlanFor(planned: set<Path>, plan: seq<Rename>) {
    && OldPaths(plan) == planned
    && (forall r :: r in plan ==> r.oldPath != [] && r.newPath == Target(r.oldPath))
    && (forall i, j :: 0 <= i < j < |plan| ==>
          plan[i].oldPath != plan[j].oldPath && |plan[i].oldPath| >= |plan[j].oldPath|)
  }

  lemma PlanGrows(paths: seq<Path>, p: Path, plan: seq<Rename>)
    requires DeepestFirst(paths + [p]) && PlanFor(PlannedAmong(paths), plan) && p != []
    ensures PlanFor(PlannedAmong(paths + [p]), if Planned(p) then plan + [Rename(p, Target(p))] else plan)
  {
    hide Planned, Target;
    assert forall q :: q in paths + [p] <==> q in paths || q == p;
    if Planned(p) {
      var next := plan + [Rename(p, Target(p))];
      assert forall r :: r in next <==> r in plan || r == Rename(p, Target(p));
      assert OldPaths(next) == OldPaths(plan) + {p};
      forall i | 0 <= i < |plan| ensures plan[i].oldPath != p && |plan[i].oldPath| >= |p| {
        assert plan[i].oldPath in OldPaths(plan);
        var k :| 0 <= k < |paths| && paths[k] == plan[i].oldPath;
        assert (paths + [p])[k] == paths[k] && (paths + [p])[|paths|] == p;
      }
    }
  }

  /** `listing` is the recursive listing of the root, sorted by depth, deepest first; ties in any order. */
  method PlanRenames(listing: seq<Path>) returns (plan: seq<Rename>)
    requires DeepestFirst(listing) && forall p :: p in listing ==> p != []
    ensures PlanFor(PlannedAmong(listing), plan)
  {
    hide Planned, Target, PlanFor, MapName;
    plan := [];
    assert PlanFor(PlannedAmong([]), []) by { PlanNothing(); }
    for i := 0 to |listing|
      invariant PlanFor(PlannedAmong(listing[..i]), plan)
    {
      var p := listing[i];
      assert p in listing;
      assert listing[..i+1] == listing[..i] + [p];
      PlanGrows(listing[..i], p, plan);
      if Planned(p) {
        plan := plan + [Rename(p, Target(p))];
      }
    }
    assert listing[..|listing|] == listing;
  }

  lemma PlanNothing()
    ensures PlanFor(PlannedAmong([]), [])
  {
  }

  // ---------- moving a subtree ----------

  function Relocate(q: Path, src: Path, dst: Path): Path {
    if src <= q then dst + q[|src|..] else q
  }

  ghost predicate Absent<C>(t: Tree<C>, dst: Path) {
    forall p :: p in t ==> !(dst <= p)
  }

  lemma RelocateBack<C>(t: Tree<C>, src: Path, dst: Path, p: Path)
    requires Absent(t, dst) && p in t
    ensures Relocate(Relocate(p, src, dst), dst, src) == p
  {
    if src <= p {
      var q := dst + p[|src|..];
      assert q[..|dst|] == dst && q[|dst|..] == p[|src|..];
      assert p == src + p[|src|..];
    }
  }

  /** `src.rename(dst)`: the subtree under `src`, and nothing else, moves to `dst`. */
  function Move<C>(t: Tree<C>, src: Path, dst: Path): (r: Tree<C>)
    requires Absent(t, dst)
    ensures forall p :: p in t ==> Relocate(p, src, dst) in r && r[Relocate(p, src, dst)] == t[p]
    ensures forall q :: q in r ==> exists p :: p in t && Relocate(p, src, dst) == q
  {
    assert forall p :: p in t ==> Relocate(Relocate(p, src, dst), dst, src) == p by {
      forall p | p in t ensures Relocate(Relocate(p, src, dst), dst, src) == p { RelocateBack(t, src, dst, p); }
    }
    map q | q in (set p | p in t :: Relocate(p, src, dst)) :: t[Relocate(q, dst, src)]
  }

  // ---------- carrying the plan out ----------

  /** Where a path is once the paths in `done` have been renamed. */
  function Place(p: Path, done: set<Path>): (r: Path)
    ensures |r| == |p|
  {
    if p == [] then []
    else Place(p[..|p| - 1], done) + [if p in done then MapName(p[|p| - 1]) else p[|p| - 1]]
  }

  /** `now` is `t` with every path at its place, nothing lost, merged or changed. */
  ghost predicate Rearranged<C>(t: Tree<C>, now: Tree<C>, done: set<Path>) {
    && (forall p :: p in t ==> Place(p, done) in now && now[Place(p, done)] == t[p])
    && (forall q :: q in now ==> exists p :: p in t && Place(p, done) == q)
    && (forall p, q :: p in t && q in t && Place(p, done) == Place(q, done) ==> p == q)
  }

  lemma {:induction false} PlacePrefix(p: Path, done: set<Path>, n: nat)
    requires n <= |p|
    ensures Place(p, done)[..n] == Place(p[..n], done)
  {
    if n < |p| {
      PlacePrefix(p[..|p| - 1], done, n);
      assert p[..|p| - 1][..n] == p[..n];
    } else {
      assert p[..n] == p;
    }
  }

  /** Paths no deeper than the ones renamed so far are still where they were, unless renamed themselves. */
  lemma {:induction false} PlaceShallow(p: Path, done: set<Path>, d: nat)
    requires forall q :: q in done ==> |q| >= d
    requires |p| < d
    ensures Place(p, done) == p
  {
    if p != [] {
      PlaceShallow(p[..|p| - 1], done, d);
      assert p == p[..|p| - 1] + [p[|p| - 1]];
    }
  }

  lemma PlaceAtDepth(p: Path, done: set<Path>)
    requires forall q :: q in done ==> |q| >= |p|
    requires p != []
    ensures Place(p, done) == if p in done then Target(p) else p
  {
    hide MapName, Place;
    PlaceSnoc(p, done);
    PlaceShallow(p[..|p| - 1], done, |p|);
  }

  lemma PlaceSnoc(p: Path, done: set<Path>)
    requires p != []
    ensures Place(p, done) == Place(p[..|p| - 1], done) + [if p in done then MapName(p[|p| - 1]) else p[|p| - 1]]
    ensures p == p[..|p| - 1] + [p[|p| - 1]]
  {
  }

  /** Component by component: a name is mapped exactly when the path that ends in it was renamed. */
  lemma {:induction false} PlaceAt(p: Path, done: set<Path>, i: nat)
    requires i < |p|
    ensures Place(p, done)[i] == if p[..i+1] in done then MapName(p[i]) else p[i]
  {
    if i == |p| - 1 {
      assert p[..i+1] == p;
    } else {
      var up := p[..|p| - 1];
      assert up[..i+1] == p[..i+1];
      PlaceAt(up, done, i);
    }
  }

  lemma RelocateAbove(q: Path, src: Path, dst: Path)
    requires |q| <= |src|
    ensures Relocate(q, src, dst) == if q == src then dst else q
  {
    if src <= q { assert q == src && dst + q[|src|..] == dst; }
  }

  lemma RelocateBelow(q: Path, name: string, src: Path, dst: Path)
    requires |src| <= |q|
    ensures Relocate(q + [name], src, dst) == Relocate(q, src, dst) + [name]
  {
    assert src <= q + [name] <==> src <= q;
    assert (q + [name])[|src|..] == q[|src|..] + [name];
  }

  /** Renaming one more path, not deeper than any renamed so far, moves exactly its subtree. */
  lemma {:induction false} PlaceStep(p: Path, src: Path, done: set<Path>)
    requires src != [] && src !in done && forall q :: q in done ==> |q| >= |src|
    requires |src| <= |p| && Place(p[..|src|], done) == src ==> p[..|src|] == src
    ensures Place(p, done + {src}) == Relocate(Place(p, done), src, Target(src))
  {
    hide MapName, Target, Relocate;
    var d, dst := |src|, Target(src);
    if |p| < d {
      hide Place;
      PlaceShallow(p, done, d);
      PlaceShallow(p, done + {src}, d);
      RelocateAbove(p, src, dst);
    } else if |p| == d {
      hide Place;
      assert p[..d] == p;
      PlaceAtDepth(p, done);
      PlaceAtDepth(p, done + {src});
      RelocateAbove(Place(p, done), src, dst);
    } else {
      var up := p[..|p| - 1];
      assert up[..d] == p[..d];
      PlaceStep(up, src, done);
      RelocateBelow(Place(up, done), Place(p, done)[|p| - 1], src, dst);
    }
  }

  lemma SourceInPlace<C>(t: Tree<C>, now: Tree<C>, done: set<Path>, src: Path)
    requires Rearranged(t, now, done) && src in t && src != []
    requires src !in done && forall q :: q in done ==> |q| >= |src|
    ensures Place(src, done) == src && src in now
  {
    PlaceAtDepth(src, done);
  }

  /** A free name has nothing below it either. */
  lemma FreeIsAbsent<C>(t: Tree<C>, now: Tree<C>, done: set<Path>, dst: Path)
    requires Closed(t) && Rearranged(t, now, done) && dst !in now && dst != []
    ensures Absent(now, dst)
  {
    hide MapName, Place;
    forall q | q in now ensures !(dst <= q) {
      var p :| p in t && Place(p, done) == q;
      if |dst| <= |p| {
        PlacePrefix(p, done, |dst|);
        assert p[..|p|] == p;
        assert p[..|dst|] in t;
        assert Place(p[..|dst|], done) in now;
        assert q[..|dst|] == Place(p[..|dst|], done);
        assert q[..|dst|] != dst;
      }
    }
  }

  lemma MoveRearranges<C>(t: Tree<C>, now: Tree<C>, done: set<Path>, src: Path)
    requires Closed(t) && Rearranged(t, now, done) && src in t && src != []
    requires src !in done && forall q :: q in done ==> |q| >= |src|
    requires Absent(now, Target(src))
    ensures Rearranged(t, Move(now, src, Target(src)), done + {src})
  {
    hide Target, Move, Place, Relocate;
    var dst, then' := Target(src), Move(now, src, Target(src));
    SourceInPlace(t, now, done, src);
    forall p | p in t ensures Place(p, done + {src}) == Relocate(Place(p, done), src, dst) {
      if |src| <= |p| {
        assert p[..|p|] == p;
        assert p[..|src|] in t;
      }
      PlaceStep(p, src, done);
    }
    forall q | q in then' ensures exists p :: p in t && Place(p, done + {src}) == q {
      var m :| m in now && Relocate(m, src, dst) == q;
      var p :| p in t && Place(p, done) == m;
    }
    forall p, q | p in t && q in t && Place(p, done + {src}) == Place(q, done + {src}) ensures p == q {
      RelocateBack(now, src, dst, Place(p, done));
      RelocateBack(now, src, dst, Place(q, done));
    }
  }

  // ---------- collisions ----------

  function FinalName(p: Path): string
    requires p != []
  {
    if Planned(p) then MapName(p[|p| - 1]) else p[|p| - 1]
  }

  ghost predicate Siblings(p: Path, q: Path) {
    p != [] && |p| == |q| && p != q && p[..|p| - 1] == q[..|q| - 1]
  }

  /** Some sibling ends up with the name that `p` is to get. */
  ghost predicate Collides<C>(t: Tree<C>, p: Path) {
    exists q :: q in t && Siblings(p, q) && FinalName(p) == FinalName(q)
  }

  ghost predicate CollisionFree<C>(t: Tree<C>) {
    forall p :: p in t ==> !Collides(t, p)
  }

  function PlannedIn<C>(t: Tree<C>): set<Path> {
    set p | p in t && p != [] && Planned(p)
  }

  lemma MapNameIdempotent(name: string)
    ensures MapName(MapName(name)) == MapName(name)
  {
    MappingFits();
    MappingIdempotent(name, 0);
  }

  /** The only way to find a target taken is a collision of final names. */
  lemma TakenIsCollision<C>(t: Tree<C>, now: Tree<C>, done: set<Path>, src: Path)
    requires Closed(t) && Rearranged(t, now, done) && done <= PlannedIn(t)
    requires src in PlannedIn(t) && src !in done && forall q :: q in done ==> |q| >= |src|
    requires Target(src) in now
    ensures Collides(t, src)
  {
    hide MapName, Excluded, Place;
    var q :| q in t && Place(q, done) == Target(src);
    PlaceAtDepth(q, done);
    SameParent(src, q, done);
    if q !in done {
      MapNameIdempotent(src[|src| - 1]);
    }
  }

  /** A path found at the target of `src` is a sibling of `src`, with that name or mapped to it. */
  lemma SameParent(src: Path, q: Path, done: set<Path>)
    requires src != [] && |q| == |src| && MapName(src[|src| - 1]) != src[|src| - 1]
    requires src !in done && Target(src) == if q in done then Target(q) else q
    ensures Siblings(src, q)
    ensures MapName(src[|src| - 1]) == if q in done then MapName(q[|q| - 1]) else q[|q| - 1]
  {
    hide MapName;
    var n := |src| - 1;
    assert Target(src)[..n] == src[..n] && Target(src)[n] == MapName(src[n]);
    assert Target(q)[..n] == q[..n] && Target(q)[n] == MapName(q[n]);
  }

  lemma PlaceLast<C>(t: Tree<C>, p: Path)
    requires p in t && p != []
    ensures Place(p, PlannedIn(t)) == Place(p[..|p| - 1], PlannedIn(t)) + [FinalName(p)]
  {
    hide MapName, Planned;
  }

  /** When everything planned was renamed, no two siblings had the same final name. */
  lemma AllDoneIsCollisionFree<C>(t: Tree<C>, now: Tree<C>)
    requires Closed(t) && Rearranged(t, now, PlannedIn(t))
    ensures CollisionFree(t)
  {
    hide FinalName, Place, PlannedIn;
    forall p, q | p in t && q in t && Siblings(p, q) ensures FinalName(p) != FinalName(q) {
      PlaceLast(t, p);
      PlaceLast(t, q);
    }
  }

  /** One entry of the plan: skipped when its source is missing or its target is taken. */
  method ApplyOne<C>(ghost t: Tree<C>, now: Tree<C>, applied: seq<Rename>, r: Rename)
    returns (next: Tree<C>, extended: seq<Rename>)
    requires Closed(t) && Rearranged(t, now, OldPaths(applied)) && OldPaths(applied) <= PlannedIn(t)
    requires r.oldPath in PlannedIn(t) && r.newPath == Target(r.oldPath)
    requires r.oldPath !in OldPaths(applied) && forall q :: q in OldPaths(applied) ==> |q| >= |r.oldPath|
    ensures Rearranged(t, next, OldPaths(extended))
    ensures extended == applied + [r] || (extended == applied && Collides(t, r.oldPath))
  {
    hide Collides, Move, Rearranged, Place, Closed, Absent, Target, Planned, OldPaths;
    SourceInPlace(t, now, OldPaths(applied), r.oldPath);
    if r.oldPath !in now || r.newPath in now {
      TakenIsCollision(t, now, OldPaths(applied), r.oldPath);
      return now, applied;
    }
    TargetNotRoot(r.oldPath);
    FreeIsAbsent(t, now, OldPaths(applied), r.newPath);
    MoveRearranges(t, now, OldPaths(applied), r.oldPath);
    Appended(applied, r);
    return Move(now, r.oldPath, r.newPath), applied + [r];
  }

  lemma TargetNotRoot(p: Path)
    requires p != []
    ensures Target(p) != []
  {
  }

  /** The first `i` entries of the plan were either applied or skipped, skipped ones for a collision. */
  ghost predicate Progress<C>(t: Tree<C>, plan: seq<Rename>, i: nat, applied: seq<Rename>, skipped: set<Path>)
    requires i <= |plan|
  {
    && OldPaths(plan[..i]) == OldPaths(applied) + skipped
    && OldPaths(applied) !! skipped
    && (forall p :: p in skipped ==> p in t && Collides(t, p))
    && (if skipped == {} then applied == plan[..i] else |applied| < i)
  }

  lemma ProgressStep<C>(t: Tree<C>, plan: seq<Rename>, i: nat, applied: seq<Rename>, skipped: set<Path>, renamed: bool)
    requires PlanFor(PlannedIn(t), plan) && i < |plan| && Progress(t, plan, i, applied, skipped)
    requires !renamed ==> Collides(t, plan[i].oldPath)
    ensures if renamed then Progress(t, plan, i + 1, applied + [plan[i]], skipped)
            else Progress(t, plan, i + 1, applied, skipped + {plan[i].oldPath})
  {
    hide PlanFor, OldPaths, Collides, PlannedIn;
    PlanEntry(t, plan, i);
    Appended(applied, plan[i]);
  }

  lemma ProgressEnd<C>(t: Tree<C>, plan: seq<Rename>, applied: seq<Rename>, skipped: set<Path>)
    requires PlanFor(PlannedIn(t), plan) && Progress(t, plan, |plan|, applied, skipped)
    ensures OldPaths(applied) <= PlannedIn(t) && (skipped == {} ==> OldPaths(applied) == PlannedIn(t))
    ensures forall p :: p in PlannedIn(t) - OldPaths(applied) ==> Collides(t, p)
    ensures applied == plan <==> skipped == {}
    ensures skipped != {} ==> !CollisionFree(t)
  {
    hide OldPaths, Collides;
    assert plan[..|plan|] == plan;
    if skipped != {} {
      var p :| p in skipped;
    }
  }

  method ApplyRenames<C>(t: Tree<C>, plan: seq<Rename>) returns (now: Tree<C>, applied: seq<Rename>)
    requires Closed(t) && PlanFor(PlannedIn(t), plan)
    ensures Rearranged(t, now, OldPaths(applied)) && OldPaths(applied) <= PlannedIn(t)
    ensures forall p :: p in PlannedIn(t) - OldPaths(applied) ==> Collides(t, p)
    ensures applied == plan <==> CollisionFree(t)
  {
    hide Collides, PlannedIn, Rearranged, Closed, Target, PlanFor, CollisionFree, OldPaths, Progress;
    now, applied := t, [];
    ghost var skipped: set<Path> := {};
    NothingMoved(t);
    NoProgress(t, plan);
    for i := 0 to |plan|
      invariant Rearranged(t, now, OldPaths(applied)) && Progress(t, plan, i, applied, skipped)
    {
      EntryReady(t, plan, i, applied, skipped);
      ghost var before := applied;
      now, applied := ApplyOne(t, now, applied, plan[i]);
      ProgressStep(t, plan, i, before, skipped, applied != before);
      if applied == before {
        skipped := skipped + {plan[i].oldPath};
      }
    }
    ProgressEnd(t, plan, applied, skipped);
    if skipped == {} {
      AllDoneIsCollisionFree(t, now);
    }
  }

  lemma NoProgress<C>(t: Tree<C>, plan: seq<Rename>)
    ensures OldPaths([]) == {} && Progress(t, plan, 0, [], {})
  {
  }

  lemma EntryReady<C>(t: Tree<C>, plan: seq<Rename>, i: nat, applied: seq<Rename>, skipped: set<Path>)
    requires PlanFor(PlannedIn(t), plan) && i < |plan| && Progress(t, plan, i, applied, skipped)
    ensures OldPaths(applied) <= PlannedIn(t)
    ensures plan[i].oldPath in PlannedIn(t) && plan[i].oldPath != [] && plan[i].newPath == Target(plan[i].oldPath)
    ensures plan[i].oldPath !in OldPaths(applied) && forall q :: q in OldPaths(applied) ==> |q| >= |plan[i].oldPath|
  {
    hide OldPaths, PlanFor, Target;
    PlanEntry(t, plan, i);
  }

  lemma NothingMoved<C>(t: Tree<C>)
    ensures Rearranged(t, t, {})
  {
    forall p ensures Place(p, {}) == p { PlaceShallow(p, {}, |p| + 1); }
  }

  lemma Appended(plan: seq<Rename>, r: Rename)
    ensures OldPaths(plan + [r]) == OldPaths(plan) + {r.oldPath}
  {
    assert forall x :: x in plan + [r] <==> x in plan || x == r;
  }

  lemma PlanEntry<C>(t: Tree<C>, plan: seq<Rename>, i: nat)
    requires PlanFor(PlannedIn(t), plan) && i < |plan|
    ensures var src := plan[i].oldPath;
            && src in PlannedIn(t) && src in t && src != [] && plan[i].newPath == Target(src)
            && src !in OldPaths(plan[..i])
            && (forall q :: q in OldPaths(plan[..i]) ==> |q| >= |src|)
            && OldPaths(plan[..i+1]) == OldPaths(plan[..i]) + {src}
            && OldPaths(plan[..i]) <= PlannedIn(t)
            && plan[..i+1] == plan[..i] + [plan[i]]
  {
    assert plan[i] in plan;
    assert plan[i].oldPath in OldPaths(plan);
    assert plan[..i+1] == plan[..i] + [plan[i]];
    Appended(plan[..i], plan[i]);
    forall q | q in OldPaths(plan[..i])
      ensures q in OldPaths(plan) && q != plan[i].oldPath && |q| >= |plan[i].oldPath|
    {
      var k :| 0 <= k < i && plan[k].oldPath == q;
      assert plan[k] in plan;
    }
  }

  // ---------- the whole migration of a tree ----------

  /** Where a complete migration takes a path: every component is mapped, except where the path down to
      it is excluded. */
  function FinalPlace(p: Path): Path {
    seq(|p|, i requires 0 <= i < |p| => if Excluded(p[..i+1]) then p[i] else MapName(p[i]))
  }

  lemma PlaceIsFinal<C>(t: Tree<C>, p: Path)
    requires Closed(t) && p in t
    ensures Place(p, PlannedIn(t)) == FinalPlace(p)
  {
    hide MapName, Excluded, Place;
    forall i | 0 <= i < |p| ensures Place(p, PlannedIn(t))[i] == FinalPlace(p)[i] {
      PlaceAt(p, PlannedIn(t), i);
      assert p[..|p|] == p;
      assert p[..i+1] in t && p[..i+1][i] == p[i];
    }
  }

  lemma ListingPlan<C>(t: Tree<C>, listing: seq<Path>)
    requires Closed(t) && Listing(t, listing)
    ensures DeepestFirst(listing) && forall p :: p in listing ==> p != []
    ensures PlannedAmong(listing) == PlannedIn(t)
  {
    hide Planned;
  }

  lemma FullyPlaced<C>(t: Tree<C>, now: Tree<C>)
    requires Closed(t) && Rearranged(t, now, PlannedIn(t))
    ensures now.Keys == (set p | p in t :: FinalPlace(p))
    ensures forall p :: p in t ==> FinalPlace(p) in now && now[FinalPlace(p)] == t[p]
  {
    hide Place, FinalPlace, PlannedIn;
    forall p | p in t ensures Place(p, PlannedIn(t)) == FinalPlace(p) { PlaceIsFinal(t, p); }
  }

  /** What is planned, in plain terms: paths without any component of an excluded name, not among the excluded
      files, whose own name changes. */
  lemma PlannedExactly<C>(t: Tree<C>, p: Path)
    ensures p in PlannedIn(t) <==>
              && p in t && p != []
              && (forall i :: 0 <= i < |p| ==> p[i] !in EXCLUDED_DIRS) && p !in EXCLUDED_FILES
              && MapName(p[|p| - 1]) != p[|p| - 1]
  {
    hide MapName, EXCLUDED_DIRS, EXCLUDED_FILES;
  }

  /** Nothing below a directory of an excluded name is planned, and the components from there on stay. */
  lemma BelowExcluded<C>(t: Tree<C>, p: Path, i: nat, k: nat)
    requires i <= k < |p| && p[i] in EXCLUDED_DIRS
    ensures p !in PlannedIn(t) && FinalPlace(p)[k] == p[k]
  {
    hide MapName, EXCLUDED_DIRS, EXCLUDED_FILES;
    assert p[..k+1][i] == p[i];
  }

  /** Planning on a listing of the tree and carrying the plan out: without sibling collisions everything
      planned is renamed and every path ends at its final place with its content; otherwise some renames
      are skipped, and still nothing is lost or merged. */
  method Migrate<C>(t: Tree<C>, listing: seq<Path>)
    returns (plan: seq<Rename>, now: Tree<C>, applied: seq<Rename>)
    requires Closed(t) && Listing(t, listing)
    ensures PlanFor(PlannedIn(t), plan)
    ensures Rearranged(t, now, OldPaths(applied)) && OldPaths(applied) <= PlannedIn(t)
    ensures applied == plan <==> CollisionFree(t)
    ensures CollisionFree(t) ==>
              && now.Keys == (set p | p in t :: FinalPlace(p))
              && forall p :: p in t ==> FinalPlace(p) in now && now[FinalPlace(p)] == t[p]
  {
    hide Closed, Listing, DeepestFirst, Rearranged, CollisionFree, PlannedAmong, PlannedIn, OldPaths, FinalPlace;
    ListingPlan(t, listing);
    plan := PlanRenames(listing);
    now, applied := ApplyRenames(t, plan);
    if applied == plan {
      FullyPlaced(t, now);
    }
  }

  lemma LegacyName()
    ensures MapName("ZTTATO") == "ZLTTBOTS" == MapName("ZLTTBOTS")
  {
    MappingFits();
    MapNameIdempotent("ZTTATO");
    OneLegacyName("ZTTATO");
  }

  /** Two siblings, one of which is the other's new name already. */
  lemma CollidingPair(old': string, new': string)
    requires MapName(old') == new' == MapName(new') && old' != new'
    requires old' !in EXCLUDED_DIRS && new' !in EXCLUDED_DIRS
    ensures var t := map[[old'] := 1, [new'] := 2];
            && Closed(t) && PlannedIn(t) == {[old']} && Target([old']) in t
            && Collides(t, [old']) && !CollisionFree(t)
  {
    hide MapName;
    var p, q := [old'], [new'];
    var t := map[p := 1, q := 2];
    assert p[0] == old' && q[0] == new' && p[..0] == q[..0];
    assert p !in EXCLUDED_FILES && q !in EXCLUDED_FILES by { assert |p| == |q| == 1; }
    hide EXCLUDED_FILES, EXCLUDED_DIRS;
    assert !Excluded(p) && !Excluded(q);
    hide Excluded;
    assert Planned(p) && !Planned(q) && Target(p) == q;
    assert Siblings(p, q) && FinalName(p) == FinalName(q) && q in t && p in t;
  }

  /** Such a pair exists, so the rename planned for the first is bound to be skipped. */
  lemma CollidingSiblings()
    ensures var t := map[["ZTTATO"] := 1, ["ZLTTBOTS"] := 2];
            && Closed(t) && PlannedIn(t) == {["ZTTATO"]} && Target(["ZTTATO"]) in t
            && Collides(t, ["ZTTATO"]) && !CollisionFree(t)
  {
    hide MapName, Closed, PlannedIn, Target, Collides, CollisionFree;
    LegacyName();
    NotDirectories("ZTTATO");
    NotDirectories("ZLTTBOTS");
    assert "ZTTATO" != "ZLTTBOTS" by { assert |"ZTTATO"| == 6; }
    CollidingPair("ZTTATO", "ZLTTBOTS");
  }

  lemma NotDirectories(name: string)
    requires name != "" && name[0] == 'Z'
    ensures name !in EXCLUDED_DIRS
  {
    assert forall d :: d in EXCLUDED_DIRS ==> d[0] != 'Z';
  }

  // ---------- running the tool again ----------

  lemma PlainName(name: string)
    requires forall c :: c in name ==> c !in {'z', 'Z'}
    ensures MapName(name) == name
  {
    MappingFits();
    forall k, i | 0 <= k < |MAPPING| && 0 <= i <= |name| ensures !StartsWith(name[i..], MAPPING[k].pattern) {
      MappingShape(k);
      StartsWithHeadChar(name, i, MAPPING[k].pattern);
    }
    CleanIsFixed(name, MAPPING, 0);
  }

  lemma StartsWithHeadChar(name: string, i: nat, p: string)
    requires i <= |name| && p != "" && p[0] !in name
    ensures !StartsWith(name[i..], p)
  {
    if i < |name| {
      assert name[i..][0] == name[i];
      StartsWithHead(name[i..], p, 1);
      assert name[i..][..1][0] == name[i];
    }
  }

  /** After a complete run there is nothing left to plan. */
  lemma RerunPlansNothing<C>(t: Tree<C>, now: Tree<C>)
    requires Closed(t) && Rearranged(t, now, PlannedIn(t))
    ensures PlannedIn(now) == {}
  {
    hide MapName, Excluded, Place;
    forall q | q in now && q != [] ensures !Planned(q) {
      var p :| p in t && Place(p, PlannedIn(t)) == q;
      NotPlannedTwice(p, PlannedIn(t));
    }
  }

  lemma NotPlannedTwice(p: Path, done: set<Path>)
    requires p != [] && (Planned(p) <==> p in done) && forall q :: q in done ==> q != [] && Planned(q)
    ensures !Planned(Place(p, done))
  {
    hide MapName, Excluded, Place;
    var name := p[|p| - 1];
    PlaceAt(p, done, |p| - 1);
    assert p[..|p|] == p;
    if Excluded(p) {
      StaysExcluded(p, done);
    } else if p in done {
      MapNameIdempotent(name);
      assert Place(p, done)[|p| - 1] == MapName(name);
    } else {
      assert Place(p, done)[|p| - 1] == name;
    }
  }

  lemma StaysExcluded(p: Path, done: set<Path>)
    requires Excluded(p) && forall q :: q in done ==> q != [] && Planned(q)
    ensures Excluded(Place(p, done))
  {
    if i :| 0 <= i < |p| && p[i] in EXCLUDED_DIRS {
      PlaceAt(p, done, i);
      assert p[..i+1][i] == p[i];
      assert Excluded(p[..i+1]);
      assert Place(p, done)[i] == p[i];
    } else {
      forall i | 0 <= i < |p| ensures Place(p, done)[i] == p[i] {
        PlaceAt(p, done, i);
        if i == |p| - 1 { assert p[..i+1] == p; } else { ExcludedFileParents(p, i); }
      }
      assert Place(p, done) == p;
    }
  }

  lemma ExcludedFileParents(p: Path, i: nat)
    requires p in EXCLUDED_FILES && i < |p| - 1
    ensures MapName(p[i]) == p[i]
  {
    assert p[i] in [".github", "workflows", "scripts"];
    PlainName(p[i]);
  }
}

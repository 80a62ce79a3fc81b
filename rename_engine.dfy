/** `apply_rename_actions`: the planned renames carried out on the file
    tree below the scan root, files first in path order, then folders
    deepest first. */
module RenameEngine {
  import opened Text
  import opened Paths
  import opened Sorting
  import opened Naming
  import opened RenamePlanner

  /** `q` is `p` itself or lies inside it. */
  predicate Under(p: Path, q: Path) { |p| <= |q| && q[..|p|] == p }

  /** Whether `p` exists below the root; the root itself always does. */
  predicate Exists(tree: set<Path>, p: Path) { p == [] || p in tree }

  /** The tree after `src.rename(dst)`: everything at or inside `src` now
      sits at the same place inside `dst`. */
  function Moved(tree: set<Path>, src: Path, dst: Path): set<Path> {
    (set q | q in tree && !Under(src, q)) + (set q | q in tree && Under(src, q) :: dst + q[|src|..])
  }

  /** A tree of paths below the root: no entry for the root itself, and
      every folder holding an entry is present. */
  ghost predicate Tree(tree: set<Path>) {
    && [] !in tree
    && forall q, k | q in tree && 0 < k < |q| :: q[..k] in tree
  }

  /** The file system below the scan root, as the set of its paths relative
      to the root. */
  class FileSystem {
    var paths: set<Path>

    constructor (paths0: set<Path>)
      ensures paths == paths0
    {
      paths := paths0;
    }

    /** `Path.exists()`. */
    function PathExists(p: Path): (b: bool)
      reads this
      ensures b <==> Exists(paths, p)
    {
      p == [] || p in paths
    }

    /** `Path.rename()`. */
    method Rename(src: Path, dst: Path)
      modifies this
      ensures paths == Moved(old(paths), src, dst)
    {
      paths := Moved(paths, src, dst);
    }
  }

  /** What one action does: the `[OK]` and two `[SKIP]` lines. */
  datatype Outcome = Renamed | SourceMissing | TargetExists

  function OutcomeOf(tree: set<Path>, a: RenameAction): Outcome {
    if !Exists(tree, a.source) then SourceMissing
    else if Exists(tree, a.target) then TargetExists
    else Renamed
  }

  function After(tree: set<Path>, a: RenameAction): set<Path> {
    if OutcomeOf(tree, a) == Renamed then Moved(tree, a.source, a.target) else tree
  }

  /** The tree after carrying out `acts` in order. */
  function Replay(tree: set<Path>, acts: seq<RenameAction>): set<Path> {
    if acts == [] then tree
    else After(Replay(tree, acts[..|acts| - 1]), acts[|acts| - 1])
  }

  /** The outcome of each of `acts`, carried out in order. */
  function Outcomes(tree: set<Path>, acts: seq<RenameAction>): (r: seq<Outcome>)
    ensures |r| == |acts|
  {
    if acts == [] then []
    else
      var init := acts[..|acts| - 1];
      Outcomes(tree, init) + [OutcomeOf(Replay(tree, init), acts[|acts| - 1])]
  }

  /** The number of renames carried out. */
  function CountRenamed(os: seq<Outcome>): (n: nat)
    ensures n <= |os|
    ensures n == |os| <==> forall i | 0 <= i < |os| :: os[i] == Renamed
  {
    if os == [] then 0
    else CountRenamed(os[..|os| - 1]) + (if os[|os| - 1] == Renamed then 1 else 0)
  }

  lemma CountAppend(os: seq<Outcome>, o: Outcome)
    ensures CountRenamed(os + [o]) == CountRenamed(os) + (if o == Renamed then 1 else 0)
  {
    assert (os + [o])[..|os|] == os;
  }

  /** The actions of one kind, in their order. */
  function OfKind(acts: seq<RenameAction>, kind: ActionKind): seq<RenameAction> {
    if acts == [] then []
    else (if acts[0].kind == kind then [acts[0]] else []) + OfKind(acts[1..], kind)
  }

  /** The file sort key, `relative_source`. */
  function SourceText(a: RenameAction): string { PathText(a.source) }

  /** The folder sort key, the number of parts of the source. */
  function Depth(a: RenameAction): nat { |a.source| }

  /** `reverse=True` on the depth: deeper first, equal depths in their order. */
  function Deeper(x: nat, y: nat): bool { x > y }

  /** The order in which `apply_rename_actions` carries out the actions. */
  function ApplyOrder(acts: seq<RenameAction>): seq<RenameAction> {
    SortBy(OfKind(acts, FileRename), SourceText, StrLess) + SortBy(OfKind(acts, DirRename), Depth, Deeper)
  }

  /** How replaying extends by one action. */
  lemma ReplayStep(tree: set<Path>, acts: seq<RenameAction>, i: nat)
    requires i < |acts|
    ensures Replay(tree, acts[..i + 1]) == After(Replay(tree, acts[..i]), acts[i])
    ensures Outcomes(tree, acts[..i + 1]) == Outcomes(tree, acts[..i]) + [OutcomeOf(Replay(tree, acts[..i]), acts[i])]
  {
    assert acts[..i + 1][..i] == acts[..i];
  }

  /** `apply_rename_actions`: the new tree is the old one with the actions
      replayed in apply order, the outcomes are reported in that order, and
      the count is the number of renames carried out. */
  method ApplyRenameActions(fs: FileSystem, actions: seq<RenameAction>) returns (applied: nat, outcomes: seq<Outcome>)
    modifies fs
    ensures fs.paths == Replay(old(fs.paths), ApplyOrder(actions))
    ensures outcomes == Outcomes(old(fs.paths), ApplyOrder(actions))
    ensures applied == CountRenamed(outcomes)
  {
    var files := SortBy(OfKind(actions, FileRename), SourceText, StrLess);
    var dirs := SortBy(OfKind(actions, DirRename), Depth, Deeper);
    var order := files + dirs;
    assert order == ApplyOrder(actions);
    ghost var start := fs.paths;
    applied, outcomes := 0, [];
    for i := 0 to |order|
      invariant fs.paths == Replay(start, order[..i])
      invariant outcomes == Outcomes(start, order[..i])
      invariant applied == CountRenamed(outcomes)
    {
      ReplayStep(start, order, i);
      var action := order[i];
      if !fs.PathExists(action.source) {
        CountAppend(outcomes, SourceMissing);
        outcomes := outcomes + [SourceMissing];
        continue;
      }
      if fs.PathExists(action.target) {
        CountAppend(outcomes, TargetExists);
        outcomes := outcomes + [TargetExists];
        continue;
      }
      fs.Rename(action.source, action.target);
      CountAppend(outcomes, Renamed);
      applied := applied + 1;
      outcomes := outcomes + [Renamed];
    }
    assert order[..|order|] == order;
  }

  // ---------------------------------------------------------------------
  // The apply order
  // ---------------------------------------------------------------------

  lemma {:induction false} OfKindSplit(acts: seq<RenameAction>)
    ensures multiset(OfKind(acts, FileRename)) + multiset(OfKind(acts, DirRename)) == multiset(acts)
  {
    if acts != [] {
      OfKindSplit(acts[1..]);
      assert acts == [acts[0]] + acts[1..];
    }
  }

  lemma {:induction false} OfKindMembers(acts: seq<RenameAction>, kind: ActionKind)
    ensures forall k | 0 <= k < |OfKind(acts, kind)| :: OfKind(acts, kind)[k].kind == kind
  {
    if acts != [] {
      OfKindMembers(acts[1..], kind);
    }
  }

  lemma DeeperIsStrictTotalOrder()
    ensures StrictTotalOrder(Deeper)
  {
    forall a: nat, b: nat | a != b ensures Deeper(a, b) || Deeper(b, a) {
      if a < b { assert Deeper(b, a); }
    }
  }

  /** The apply order is a permutation of the actions. */
  lemma ApplyOrderPermutation(acts: seq<RenameAction>)
    ensures multiset(ApplyOrder(acts)) == multiset(acts)
  {
    OfKindSplit(acts);
  }

  /** The file renames come first and the folder renames after them. */
  lemma ApplyOrderKinds(acts: seq<RenameAction>)
    ensures var order, n := ApplyOrder(acts), |OfKind(acts, FileRename)|;
      forall k | 0 <= k < |order| :: order[k].kind == (if k < n then FileRename else DirRename)
  {
    var files, dirs := OfKind(acts, FileRename), OfKind(acts, DirRename);
    var sf, sd := SortBy(files, SourceText, StrLess), SortBy(dirs, Depth, Deeper);
    OfKindMembers(acts, FileRename);
    OfKindMembers(acts, DirRename);
    KindsKept(files, sf, FileRename);
    KindsKept(dirs, sd, DirRename);
    var order := ApplyOrder(acts);
    forall k | 0 <= k < |order| ensures order[k].kind == (if k < |files| then FileRename else DirRename) {
      if k < |sf| {
        assert order[k] == sf[k];
      } else {
        assert order[k] == sd[k - |sf|];
      }
    }
  }

  /** Reordering actions of one kind keeps them of that kind. */
  lemma KindsKept(s: seq<RenameAction>, t: seq<RenameAction>, kind: ActionKind)
    requires multiset(t) == multiset(s) && forall a | a in s :: a.kind == kind
    ensures forall k | 0 <= k < |t| :: t[k].kind == kind
  {
    forall k | 0 <= k < |t| ensures t[k].kind == kind {
      assert t[k] in multiset(s);
    }
  }

  /** The file renames are sorted by source text. */
  lemma ApplyOrderFilesSorted(acts: seq<RenameAction>)
    ensures var order := ApplyOrder(acts);
      forall i, j | 0 <= i < j < |OfKind(acts, FileRename)| :: !StrLess(SourceText(order[j]), SourceText(order[i]))
  {
    var files := OfKind(acts, FileRename);
    var sf := SortBy(files, SourceText, StrLess);
    StrLessIsStrictTotalOrder();
    SortBySorted(files, SourceText, StrLess);
    assert ApplyOrder(acts)[..|files|] == sf;
    forall i, j | 0 <= i < j < |files| ensures !StrLess(SourceText(ApplyOrder(acts)[j]), SourceText(ApplyOrder(acts)[i])) {
      assert ApplyOrder(acts)[i] == sf[i] && ApplyOrder(acts)[j] == sf[j];
    }
  }

  /** The folder renames are sorted by depth, deepest first, and folders of
      equal depth keep their order. */
  lemma ApplyOrderDirsSorted(acts: seq<RenameAction>)
    ensures |OfKind(acts, FileRename)| <= |ApplyOrder(acts)|
    ensures var dirs := ApplyOrder(acts)[|OfKind(acts, FileRename)|..];
      && (forall i, j | 0 <= i < j < |dirs| :: |dirs[i].source| >= |dirs[j].source|)
      && (forall d: nat :: WithKey(dirs, Depth, d) == WithKey(OfKind(acts, DirRename), Depth, d))
  {
    var dirs := OfKind(acts, DirRename);
    var sd := SortBy(dirs, Depth, Deeper);
    DeeperIsStrictTotalOrder();
    SortBySorted(dirs, Depth, Deeper);
    assert ApplyOrder(acts)[|OfKind(acts, FileRename)|..] == sd;
    forall i, j | 0 <= i < j < |sd| ensures |sd[i].source| >= |sd[j].source| {
      assert !Deeper(Depth(sd[j]), Depth(sd[i]));
    }
    forall d: nat ensures WithKey(sd, Depth, d) == WithKey(dirs, Depth, d) {
      SortByStable(dirs, Depth, Deeper, d);
    }
  }

  // ---------------------------------------------------------------------
  // What one rename does to the tree
  // ---------------------------------------------------------------------

  /** Membership in the moved tree, when neither path lies inside the
      other and nothing exists inside the target yet: a path inside the
      target is there exactly when its counterpart inside the source was,
      nothing is left inside the source, and every other path is untouched. */
  lemma MovedSpec(tree: set<Path>, src: Path, dst: Path, q: Path)
    requires !Under(src, dst) && !Under(dst, src)
    requires forall p | p in tree :: !Under(dst, p)
    ensures q in Moved(tree, src, dst) <==>
      if Under(dst, q) then src + q[|dst|..] in tree
      else q in tree && !Under(src, q)
  {
    if Under(dst, q) {
      var p := src + q[|dst|..];
      if p in tree {
        assert Under(src, p) && dst + p[|src|..] == q;
      }
      if q in Moved(tree, src, dst) {
        var p' :| p' in tree && Under(src, p') && q == dst + p'[|src|..];
        assert p' == src + p'[|src|..];
      }
    } else {
      forall p' | p' in tree && Under(src, p') ensures dst + p'[|src|..] != q {
        assert Under(dst, dst + p'[|src|..]);
      }
    }
  }

  /** A nested path is inside whatever holds its folder, and whatever
      strictly holds a path holds its folder. */
  lemma UnderParent(p: Path, q: Path)
    requires |q| > 0
    ensures Under(p, Parent(q)) ==> Under(p, q)
    ensures Under(p, q) && |p| < |q| ==> Under(p, Parent(q))
  {
    if |p| <= |q| - 1 {
      assert Parent(q)[..|p|] == q[..|p|];
    }
  }

  /** Whatever holds a prefix of `q` holds `q`. */
  lemma UnderPrefix(p: Path, q: Path, k: nat)
    requires k <= |q| && Under(p, q[..k])
    ensures Under(p, q)
  {
    assert q[..k][..|p|] == q[..|p|];
  }

  /** The prefixes of an entry of the moved tree are in the moved tree. */
  lemma MovedPrefix(tree: set<Path>, a: RenameAction, q: Path, k: nat)
    requires Tree(tree) && WellFormed(a) && a.source in tree
    requires !Under(a.source, a.target) && !Under(a.target, a.source)
    requires forall p | p in tree :: !Under(a.target, p)
    requires q in Moved(tree, a.source, a.target) && 0 < k < |q|
    ensures q[..k] in Moved(tree, a.source, a.target)
  {
    var src, dst := a.source, a.target;
    MovedSpec(tree, src, dst, q);
    MovedSpec(tree, src, dst, q[..k]);
    if Under(dst, q) {
      var p := src + q[|dst|..];
      if k >= |dst| {
        assert Under(dst, q[..k]);
        assert q[..k][|dst|..] == q[|dst|..k];
        assert p[..|src| + k - |dst|] == src + q[|dst|..k];
      } else {
        assert q[..k] == dst[..k];
        assert dst[..k] == Parent(dst)[..k] == Parent(src)[..k] == src[..k];
        if Under(src, q[..k]) || Under(dst, q[..k]) {
          assert false;
        }
      }
    } else {
      if Under(dst, q[..k]) {
        UnderPrefix(dst, q, k);
      }
      if Under(src, q[..k]) {
        UnderPrefix(src, q, k);
      }
    }
  }

  /** An existing entry and a free name in its own folder: neither holds
      the other, and nothing in the tree lies inside the free name. */
  lemma MoveApart(tree: set<Path>, a: RenameAction)
    requires Tree(tree) && WellFormed(a) && a.target !in tree
    ensures !Under(a.source, a.target) && !Under(a.target, a.source)
    ensures forall p | p in tree :: !Under(a.target, p)
  {
    var src, dst := a.source, a.target;
    assert dst[..|src|] == dst && src[..|dst|] == src;
    forall p | p in tree ensures !Under(dst, p) {
      if |dst| < |p| {
        assert p[..|dst|] in tree;
      } else {
        assert p[..|p|] == p;
      }
    }
  }

  /** Renaming an existing entry to a free name in its own folder keeps
      the paths a tree. */
  lemma TreeMoved(tree: set<Path>, a: RenameAction)
    requires Tree(tree) && WellFormed(a) && a.source in tree && a.target !in tree
    ensures Tree(Moved(tree, a.source, a.target))
  {
    var moved := Moved(tree, a.source, a.target);
    MoveApart(tree, a);
    forall q | q in moved ensures |q| > 0 {
      MovedSpec(tree, a.source, a.target, q);
    }
    forall q, k | q in moved && 0 < k < |q| ensures q[..k] in moved {
      MovedPrefix(tree, a, q, k);
    }
  }

  /** One action of `apply_rename_actions`: a skipped action leaves the tree
      as it was; a carried-out one starts from an existing source and a free
      target, keeps every path outside the source, adds nothing else outside
      the target, and puts inside the target exactly what was inside the
      source. Nothing that existed is overwritten. */
  lemma RenameStep(tree: set<Path>, a: RenameAction)
    requires Tree(tree) && WellFormed(a)
    ensures OutcomeOf(tree, a) != Renamed ==> After(tree, a) == tree
    ensures OutcomeOf(tree, a) == Renamed ==>
      && a.source in tree && a.target !in tree
      && forall q :: q in After(tree, a) <==>
           if Under(a.target, q) then a.source + q[|a.target|..] in tree
           else q in tree && !Under(a.source, q)
  {
    if OutcomeOf(tree, a) == Renamed {
      MoveApart(tree, a);
      forall q ensures q in After(tree, a) <==>
        if Under(a.target, q) then a.source + q[|a.target|..] in tree
        else q in tree && !Under(a.source, q)
      {
        MovedSpec(tree, a.source, a.target, q);
      }
    }
  }

  /** The count `apply_rename_actions` returns never exceeds the number of
      actions. */
  lemma AppliedAtMost(tree: set<Path>, acts: seq<RenameAction>)
    ensures CountRenamed(Outcomes(tree, ApplyOrder(acts))) <= |acts|
  {
    ApplyOrderPermutation(acts);
    assert |ApplyOrder(acts)| == |multiset(ApplyOrder(acts))| == |multiset(acts)| == |acts|;
  }

  // ---------------------------------------------------------------------
  // When every rename is carried out
  // ---------------------------------------------------------------------

  /** No two actions rename to the same target. */
  predicate DistinctTargets(acts: seq<RenameAction>) {
    forall i, j | 0 <= i < j < |acts| :: acts[i].target != acts[j].target
  }

  /** No action is in the way of a later one: no earlier source holds a
      later source, and no earlier target holds a later target. */
  ghost predicate Unobstructed(order: seq<RenameAction>) {
    forall i, j | 0 <= i < j < |order| ::
      !Under(order[i].source, order[j].source) && !Under(order[i].target, order[j].target)
  }

  /** Before each step of an unobstructed order whose sources all exist and
      whose targets are all free, the pending sources still exist and the
      pending targets are still free, so every step so far renamed. */
  lemma {:induction false} ReplayPending(tree: set<Path>, order: seq<RenameAction>, n: nat)
    requires n <= |order| && Unobstructed(order)
    requires forall k | 0 <= k < |order| ::
      order[k].source in tree && order[k].target !in tree && order[k].target != []
    ensures forall k | n <= k < |order| ::
      order[k].source in Replay(tree, order[..n]) && order[k].target !in Replay(tree, order[..n])
    ensures forall k | 0 <= k < n :: Outcomes(tree, order[..n])[k] == Renamed
  {
    if n == 0 {
      assert order[..0] == [];
    } else {
      ReplayPending(tree, order, n - 1);
      ReplayStep(tree, order, n - 1);
      var before := Replay(tree, order[..n - 1]);
      var a := order[n - 1];
      assert OutcomeOf(before, a) == Renamed;
      forall k | n <= k < |order|
        ensures order[k].source in Replay(tree, order[..n]) && order[k].target !in Replay(tree, order[..n])
      {
        assert !Under(a.source, order[k].source) && !Under(a.target, order[k].target);
        forall q | q in before && Under(a.source, q) ensures a.target + q[|a.source|..] != order[k].target {
          assert Under(a.target, a.target + q[|a.source|..]);
        }
      }
    }
  }

  /** Every action of an unobstructed order whose sources all exist and
      whose targets are all free is carried out. */
  lemma AllRenamed(tree: set<Path>, order: seq<RenameAction>)
    requires Unobstructed(order)
    requires forall k | 0 <= k < |order| ::
      order[k].source in tree && order[k].target !in tree && order[k].target != []
    ensures forall k | 0 <= k < |order| :: Outcomes(tree, order)[k] == Renamed
    ensures CountRenamed(Outcomes(tree, order)) == |order|
  {
    ReplayPending(tree, order, |order|);
    assert order[..|order|] == order;
  }

  /** Nothing any action renames lies inside the source of a file rename:
      files hold no entries. */
  ghost predicate NothingInsideFiles(acts: seq<RenameAction>) {
    forall i, j | 0 <= i < |acts| && 0 <= j < |acts| && acts[i].kind == FileRename ::
      acts[j].source == acts[i].source || !Under(acts[i].source, acts[j].source)
  }

  /** A free target cannot hold another rename's target in a tree that
      holds that rename's source. */
  lemma TargetNotAbove(tree: set<Path>, a: RenameAction, b: RenameAction)
    requires Tree(tree) && WellFormed(a) && WellFormed(b)
    requires b.source in tree && a.target !in tree && a.target != b.target
    ensures !Under(a.target, b.target)
  {
    UnderParent(a.target, b.target);
    UnderParent(a.target, b.source);
    if 0 < |a.target| < |b.target| {
      assert b.source[..|a.target|] in tree;
    }
    assert b.target[..|b.target|] == b.target;
  }

  /** A source cannot hold another source when it is a file's, or when it
      is at least as deep. */
  lemma SourceNotAbove(acts: seq<RenameAction>, a: RenameAction, b: RenameAction)
    requires a in acts && b in acts && NothingInsideFiles(acts) && a.source != b.source
    requires a.kind != FileRename ==> |a.source| >= |b.source|
    ensures !Under(a.source, b.source)
  {
    var x :| 0 <= x < |acts| && acts[x] == a;
    var y :| 0 <= y < |acts| && acts[y] == b;
    assert b.source[..|b.source|] == b.source;
  }

  /** After the files, the folder renames never get shallower. */
  lemma ApplyOrderDepths(acts: seq<RenameAction>)
    ensures var order, n := ApplyOrder(acts), |OfKind(acts, FileRename)|;
      forall i, j | n <= i < j < |order| :: |order[i].source| >= |order[j].source|
  {
    ApplyOrderDirsSorted(acts);
    ShallowerFrom(ApplyOrder(acts), |OfKind(acts, FileRename)|);
  }

  lemma ShallowerFrom(order: seq<RenameAction>, n: nat)
    requires n <= |order|
    requires var tail := order[n..];
      forall i, j | 0 <= i < j < |tail| :: |tail[i].source| >= |tail[j].source|
    ensures forall i, j | n <= i < j < |order| :: |order[i].source| >= |order[j].source|
  {
    var tail := order[n..];
    forall i, j | n <= i < j < |order| ensures |order[i].source| >= |order[j].source| {
      assert tail[i - n] == order[i] && tail[j - n] == order[j];
    }
  }

  /** Files first, then folders deepest first, leaves no action in the way
      of a later one, for well-formed actions on a tree whose sources exist,
      whose targets are free, with no source or target shared and nothing
      renamed inside a file. */
  lemma ApplyOrderUnobstructed(tree: set<Path>, acts: seq<RenameAction>)
    requires Tree(tree)
    requires forall a | a in acts :: WellFormed(a) && a.source in tree && a.target !in tree
    requires DistinctSources(acts) && DistinctTargets(acts) && NothingInsideFiles(acts)
    ensures Unobstructed(ApplyOrder(acts))
  {
    var order, n := ApplyOrder(acts), |OfKind(acts, FileRename)|;
    ApplyOrderPermutation(acts);
    ApplyOrderKinds(acts);
    ApplyOrderDepths(acts);
    DistinctKeysPermutation(acts, order, (a: RenameAction) => a.source);
    DistinctKeysPermutation(acts, order, (a: RenameAction) => a.target);
    forall i, j | 0 <= i < j < |order|
      ensures !Under(order[i].source, order[j].source) && !Under(order[i].target, order[j].target)
    {
      var a, b := order[i], order[j];
      assert a in multiset(acts) && b in multiset(acts);
      TargetNotAbove(tree, a, b);
      SourceNotAbove(acts, a, b);
    }
  }

  /** Under the conditions of `ApplyOrderUnobstructed`, applying the
      actions carries out every one of them. */
  lemma ApplyRenamesAll(tree: set<Path>, acts: seq<RenameAction>)
    requires Tree(tree)
    requires forall a | a in acts :: WellFormed(a) && a.source in tree && a.target !in tree
    requires DistinctSources(acts) && DistinctTargets(acts) && NothingInsideFiles(acts)
    ensures forall k | 0 <= k < |ApplyOrder(acts)| :: Outcomes(tree, ApplyOrder(acts))[k] == Renamed
    ensures CountRenamed(Outcomes(tree, ApplyOrder(acts))) == |acts|
  {
    var order := ApplyOrder(acts);
    ApplyOrderPermutation(acts);
    assert |order| == |multiset(order)| == |multiset(acts)| == |acts|;
    ApplyOrderUnobstructed(tree, acts);
    forall k | 0 <= k < |order|
      ensures order[k].source in tree && order[k].target !in tree && order[k].target != []
    {
      assert order[k] in multiset(acts);
    }
    AllRenamed(tree, order);
  }

  /** What a successful plan for a scan of a tree brings to the apply step:
      every source is in the tree, no two share a source, and nothing is
      renamed inside a file, since files hold no entries. */
  lemma PlanSources(tree: set<Path>, es: seq<Entry>, afmt: AlbumFormat, tfmt: TrackFormat)
    requires DistinctPaths(es)
    requires forall i | 0 <= i < |es| :: es[i].path in tree
    requires forall i, q | 0 <= i < |es| && es[i].kind == RegularFile && q in tree ::
      q == es[i].path || !Under(es[i].path, q)
    requires RenamePlan(es, afmt, tfmt).Success?
    ensures var acts := RenamePlan(es, afmt, tfmt).value;
      && (forall a | a in acts :: a.source in tree)
      && DistinctSources(acts) && NothingInsideFiles(acts)
  {
    var acts := RenamePlan(es, afmt, tfmt).value;
    RenamePlanShape(es, afmt, tfmt);
    RenamePlanDistinct(es, afmt, tfmt);
    forall a | a in acts ensures a.source in tree && (a.kind == FileRename ==> forall q | q in tree :: q == a.source || !Under(a.source, q)) {
      var i :| PlannedAt(es, i, FileRename, afmt, tfmt, a) || PlannedAt(es, i, DirRename, afmt, tfmt, a);
      PlanEntryOutcome(es[i], FileRename, afmt, tfmt);
      PlanEntryOutcome(es[i], DirRename, afmt, tfmt);
    }
    assert NothingInsideFiles(acts) by {
      forall i, j | 0 <= i < |acts| && 0 <= j < |acts| && acts[i].kind == FileRename
        ensures acts[j].source == acts[i].source || !Under(acts[i].source, acts[j].source)
      {
        assert acts[i] in acts && acts[j] in acts;
      }
    }
  }

  /** The renames planned for a scan of a tree, when their targets are all
      free and all different, are all carried out: the entries exist, files
      hold nothing, and the scan lists each path once. */
  lemma PlanThenApply(tree: set<Path>, es: seq<Entry>, afmt: AlbumFormat, tfmt: TrackFormat)
    requires Tree(tree) && DistinctPaths(es)
    requires forall i | 0 <= i < |es| :: es[i].path in tree
    requires forall i, q | 0 <= i < |es| && es[i].kind == RegularFile && q in tree ::
      q == es[i].path || !Under(es[i].path, q)
    requires RenamePlan(es, afmt, tfmt).Success?
    requires var acts := RenamePlan(es, afmt, tfmt).value;
      DistinctTargets(acts) && forall a | a in acts :: a.target !in tree
    ensures var acts := RenamePlan(es, afmt, tfmt).value;
      CountRenamed(Outcomes(tree, ApplyOrder(acts))) == |acts|
  {
    var acts := RenamePlan(es, afmt, tfmt).value;
    RenamePlanShape(es, afmt, tfmt);
    PlanSources(tree, es, afmt, tfmt);
    ApplyRenamesAll(tree, acts);
  }

  /** No earlier source holds a later one. */
  ghost predicate SourcesApart(order: seq<RenameAction>) {
    forall i, j | 0 <= i < j < |order| :: !Under(order[i].source, order[j].source)
  }

  /** While no earlier source holds a later one, every pending source is
      still in place: a skip changes nothing, and a rename only takes away
      what lies inside its own source. */
  lemma {:induction false} SourcesStay(tree: set<Path>, order: seq<RenameAction>, n: nat)
    requires n <= |order| && SourcesApart(order)
    requires forall k | 0 <= k < |order| :: order[k].source in tree
    ensures forall k | n <= k < |order| :: order[k].source in Replay(tree, order[..n])
  {
    if n == 0 {
      assert order[..0] == [];
    } else {
      SourcesStay(tree, order, n - 1);
      ReplayStep(tree, order, n - 1);
      var a := order[n - 1];
      forall k | n <= k < |order| ensures order[k].source in Replay(tree, order[..n]) {
        assert !Under(a.source, order[k].source);
      }
    }
  }

  /** When every source exists and no earlier source holds a later one, no
      action is skipped for a missing source, whatever the targets. */
  lemma NoSourceMissing(tree: set<Path>, order: seq<RenameAction>)
    requires SourcesApart(order)
    requires forall k | 0 <= k < |order| :: order[k].source in tree
    ensures forall k | 0 <= k < |order| :: Outcomes(tree, order)[k] != SourceMissing
  {
    forall k | 0 <= k < |order| ensures Outcomes(tree, order)[k] != SourceMissing {
      SourcesStay(tree, order, k);
      OutcomeAt(tree, order, k);
    }
  }

  /** Files first, then folders deepest first, puts no source before a
      later one it holds, when no source is shared and nothing is renamed
      inside a file. */
  lemma ApplyOrderSourcesApart(acts: seq<RenameAction>)
    requires DistinctSources(acts) && NothingInsideFiles(acts)
    ensures SourcesApart(ApplyOrder(acts))
  {
    var order := ApplyOrder(acts);
    ApplyOrderPermutation(acts);
    ApplyOrderKinds(acts);
    ApplyOrderDepths(acts);
    DistinctKeysPermutation(acts, order, (a: RenameAction) => a.source);
    forall i, j | 0 <= i < j < |order| ensures !Under(order[i].source, order[j].source) {
      var a, b := order[i], order[j];
      assert a in multiset(acts) && b in multiset(acts);
      SourceNotAbove(acts, a, b);
    }
  }

  /** Applying a successful plan for a scan of a tree skips no action for a
      missing source. Targets may exist already or be shared, as when
      "1 - X.mp3" and "01 - X.mp3" both want "01 X.mp3": such actions are
      skipped for an existing target instead. */
  lemma PlanNeverSourceMissing(tree: set<Path>, es: seq<Entry>, afmt: AlbumFormat, tfmt: TrackFormat)
    requires DistinctPaths(es)
    requires forall i | 0 <= i < |es| :: es[i].path in tree
    requires forall i, q | 0 <= i < |es| && es[i].kind == RegularFile && q in tree ::
      q == es[i].path || !Under(es[i].path, q)
    requires RenamePlan(es, afmt, tfmt).Success?
    ensures var order := ApplyOrder(RenamePlan(es, afmt, tfmt).value);
      forall k | 0 <= k < |order| :: Outcomes(tree, order)[k] != SourceMissing
  {
    var acts := RenamePlan(es, afmt, tfmt).value;
    var order := ApplyOrder(acts);
    PlanSources(tree, es, afmt, tfmt);
    ApplyOrderSourcesApart(acts);
    ApplyOrderPermutation(acts);
    forall k | 0 <= k < |order| ensures order[k].source in tree {
      assert order[k] in multiset(acts);
    }
    NoSourceMissing(tree, order);
  }

  // ---------------------------------------------------------------------
  // Which renames are carried out
  // ---------------------------------------------------------------------

  /** No target that is already in the tree is, or lies inside, the source
      of any action. */
  ghost predicate TakenTargetsOutside(tree: set<Path>, order: seq<RenameAction>) {
    forall k, l | 0 <= k < |order| && 0 <= l < |order| && order[l].target in tree ::
      !Under(order[k].source, order[l].target)
  }

  /** One rename leaves another action's target free or taken as it was in
      the original tree, when the rename started from a free target, the
      two targets differ and a taken target lies outside the moved source. */
  lemma TargetKept(tree: set<Path>, before: set<Path>, a: RenameAction, b: RenameAction)
    requires Tree(tree) && Tree(before) && WellFormed(a) && WellFormed(b)
    requires b.source in tree && a.target != b.target
    requires a.target !in tree && a.target !in before
    requires b.target in before <==> b.target in tree
    requires b.target in tree ==> !Under(a.source, b.target)
    ensures b.target in Moved(before, a.source, a.target) <==> b.target in tree
  {
    MoveApart(before, a);
    MovedSpec(before, a.source, a.target, b.target);
    TargetNotAbove(tree, a, b);
  }

  /** While no earlier source holds a later one, no two targets coincide and
      taken targets lie outside every source, each pending target is taken
      exactly when it was taken in the original tree. */
  lemma {:induction false} TargetsStay(tree: set<Path>, order: seq<RenameAction>, n: nat)
    requires n <= |order| && Tree(tree)
    requires forall k | 0 <= k < |order| :: WellFormed(order[k]) && order[k].source in tree
    requires SourcesApart(order) && DistinctTargets(order) && TakenTargetsOutside(tree, order)
    ensures forall k | n <= k < |order| ::
      order[k].target in Replay(tree, order[..n]) <==> order[k].target in tree
  {
    if n == 0 {
      assert order[..0] == [];
    } else {
      TargetsStay(tree, order, n - 1);
      ReplayStep(tree, order, n - 1);
      var before := Replay(tree, order[..n - 1]);
      var a := order[n - 1];
      if OutcomeOf(before, a) == Renamed {
        assert forall x | x in order[..n - 1] :: WellFormed(x);
        ReplayKeepsTree(tree, order[..n - 1]);
        forall k | n <= k < |order|
          ensures order[k].target in Replay(tree, order[..n]) <==> order[k].target in tree
        {
          TargetKept(tree, before, a, order[k]);
        }
      }
    }
  }

  /** When every source exists, no earlier source holds a later one, no two
      targets coincide and taken targets lie outside every source, an action
      is carried out exactly when its target was free to begin with; every
      other one is skipped for an existing target. */
  lemma RenamedIffFree(tree: set<Path>, order: seq<RenameAction>)
    requires Tree(tree)
    requires forall k | 0 <= k < |order| :: WellFormed(order[k]) && order[k].source in tree
    requires SourcesApart(order) && DistinctTargets(order) && TakenTargetsOutside(tree, order)
    ensures forall k | 0 <= k < |order| ::
      Outcomes(tree, order)[k] == Renamed <==> order[k].target !in tree
  {
    forall k | 0 <= k < |order|
      ensures Outcomes(tree, order)[k] == Renamed <==> order[k].target !in tree
    {
      SourcesStay(tree, order, k);
      TargetsStay(tree, order, k);
      OutcomeAt(tree, order, k);
    }
  }

  /** Reordering the actions keeps their shape, their sources in the tree,
      and taken targets outside every source. */
  lemma TakenTargetsReordered(tree: set<Path>, acts: seq<RenameAction>, order: seq<RenameAction>)
    requires multiset(order) == multiset(acts)
    requires forall a | a in acts :: WellFormed(a) && a.source in tree
    requires TakenTargetsOutside(tree, acts)
    ensures forall k | 0 <= k < |order| :: WellFormed(order[k]) && order[k].source in tree
    ensures TakenTargetsOutside(tree, order)
  {
    forall k | 0 <= k < |order| ensures WellFormed(order[k]) && order[k].source in tree {
      assert order[k] in multiset(acts);
    }
    forall k, l | 0 <= k < |order| && 0 <= l < |order| && order[l].target in tree
      ensures !Under(order[k].source, order[l].target)
    {
      assert order[k] in multiset(acts) && order[l] in multiset(acts);
      var x :| 0 <= x < |acts| && acts[x] == order[k];
      var y :| 0 <= y < |acts| && acts[y] == order[l];
    }
  }

  /** Files first, then folders deepest first, carries out exactly the
      actions whose target is free, for well-formed actions on a tree whose
      sources exist, with no source or target shared, nothing renamed inside
      a file, and no taken target at or inside a source. */
  lemma ApplyOrderRenamesFree(tree: set<Path>, acts: seq<RenameAction>)
    requires Tree(tree)
    requires forall a | a in acts :: WellFormed(a) && a.source in tree
    requires DistinctSources(acts) && DistinctTargets(acts) && NothingInsideFiles(acts)
    requires TakenTargetsOutside(tree, acts)
    ensures var order := ApplyOrder(acts);
      forall k | 0 <= k < |order| :: Outcomes(tree, order)[k] == Renamed <==> order[k].target !in tree
  {
    var order := ApplyOrder(acts);
    ApplyOrderSourcesApart(acts);
    ApplyOrderPermutation(acts);
    DistinctKeysPermutation(acts, order, (a: RenameAction) => a.target);
    TakenTargetsReordered(tree, acts, order);
    RenamedIffFree(tree, order);
  }

  /** Applying a successful plan for a scan of a tree carries out exactly the
      renames whose target is free, when no two share a target and no taken
      target is, or lies inside, a source; the others are skipped. */
  lemma PlanRenamesFreeTargets(tree: set<Path>, es: seq<Entry>, afmt: AlbumFormat, tfmt: TrackFormat)
    requires Tree(tree) && DistinctPaths(es)
    requires forall i | 0 <= i < |es| :: es[i].path in tree
    requires forall i, q | 0 <= i < |es| && es[i].kind == RegularFile && q in tree ::
      q == es[i].path || !Under(es[i].path, q)
    requires RenamePlan(es, afmt, tfmt).Success?
    requires var acts := RenamePlan(es, afmt, tfmt).value;
      DistinctTargets(acts) && TakenTargetsOutside(tree, acts)
    ensures var order := ApplyOrder(RenamePlan(es, afmt, tfmt).value);
      forall k | 0 <= k < |order| :: Outcomes(tree, order)[k] == Renamed <==> order[k].target !in tree
  {
    RenamePlanShape(es, afmt, tfmt);
    PlanSources(tree, es, afmt, tfmt);
    ApplyOrderRenamesFree(tree, RenamePlan(es, afmt, tfmt).value);
  }

  /** A folder "2001 - A" holding a track "1 - x.mp3", and the two renames
      the default templates plan for them. */
  const PairTree: set<Path> := {["2001 - A"], ["2001 - A", "1 - x.mp3"]}
  const PairDir := RenameAction(DirRename, ["2001 - A"], ["A (2001)"])
  const PairFile := RenameAction(FileRename, ["2001 - A", "1 - x.mp3"], ["2001 - A", "01 x.mp3"])

  /** Renaming the folder first takes the file rename's source away. */
  lemma FolderFirstLosesFile()
    ensures Outcomes(PairTree, [PairDir, PairFile]) == [Renamed, SourceMissing]
  {
    var tree, dir, file := PairTree, PairDir, PairFile;
    assert [dir, file][..1] == [dir] && [dir][..0] == [];
    assert dir.source[0][0] != dir.target[0][0];
    assert dir.source[..1] == dir.source && dir.target[..1] == dir.target && file.source[..1] == dir.source;
    assert OutcomeOf(tree, dir) == Renamed;
    forall p | p in tree ensures !Under(dir.target, p) {
      assert p[..1] == dir.source;
    }
    MovedSpec(tree, dir.source, dir.target, file.source);
    assert file.source !in Replay(tree, [dir]);
  }

  /** `apply_rename_actions` takes the file first. */
  lemma PairApplyOrder()
    ensures ApplyOrder([PairDir, PairFile]) == [PairFile, PairDir]
  {
    SplitPair(PairDir, PairFile);
    SortBySingle(PairFile, SourceText, StrLess);
    SortBySingle(PairDir, Depth, Deeper);
  }

  /** A folder rename followed by a file rename splits into one of each. */
  lemma SplitPair(dir: RenameAction, file: RenameAction)
    requires dir.kind == DirRename && file.kind == FileRename
    ensures OfKind([dir, file], FileRename) == [file] && OfKind([dir, file], DirRename) == [dir]
  {
    assert [dir, file][1..] == [file] && [file][1..] == [];
    assert OfKind([file], FileRename) == [file] && OfKind([file], DirRename) == [];
  }

  /** Taking the file first carries out both renames. */
  lemma FileFirstRenamesBoth()
    ensures Outcomes(PairTree, [PairFile, PairDir]) == [Renamed, Renamed]
  {
    var dir, file := PairDir, PairFile;
    assert file.target[0] == dir.source[0] != dir.target[0];
    assert dir.target !in PairTree && file.target !in PairTree;
    AllRenamed(PairTree, [file, dir]);
  }

  /** The apply order matters: on the folder and track above, the order
      `apply_rename_actions` uses skips nothing for a missing source, while
      renaming the folder first does. */
  lemma ApplyOrderMatters()
    ensures SourceMissing !in Outcomes(PairTree, ApplyOrder([PairDir, PairFile]))
    ensures SourceMissing in Outcomes(PairTree, [PairDir, PairFile])
  {
    PairApplyOrder();
    FileFirstRenamesBoth();
    FolderFirstLosesFile();
    assert Outcomes(PairTree, ApplyOrder([PairDir, PairFile])) == [Renamed, Renamed];
    assert Outcomes(PairTree, [PairDir, PairFile])[1] == SourceMissing;
  }

  // ---------------------------------------------------------------------
  // Skips
  // ---------------------------------------------------------------------

  /** Carrying out well-formed actions keeps the paths a tree. */
  lemma {:induction false} ReplayKeepsTree(tree: set<Path>, acts: seq<RenameAction>)
    requires Tree(tree) && forall a | a in acts :: WellFormed(a)
    ensures Tree(Replay(tree, acts))
  {
    if acts != [] {
      var init, last := acts[..|acts| - 1], acts[|acts| - 1];
      assert forall a | a in init :: a in acts;
      ReplayKeepsTree(tree, init);
      var before := Replay(tree, init);
      if OutcomeOf(before, last) == Renamed {
        TreeMoved(before, last);
      }
    }
  }

  /** The outcome of the action at position `k` is decided on the tree the
      actions before it leave. */
  lemma {:induction false} OutcomeAt(tree: set<Path>, acts: seq<RenameAction>, k: nat)
    requires k < |acts|
    ensures Outcomes(tree, acts)[k] == OutcomeOf(Replay(tree, acts[..k]), acts[k])
  {
    var init := acts[..|acts| - 1];
    if k < |init| {
      OutcomeAt(tree, init, k);
      assert init[..k] == acts[..k];
    } else {
      assert init == acts[..k];
    }
  }

  /** A target that a rename has filled stays filled while no later source
      holds it. */
  lemma {:induction false} TargetStays(tree: set<Path>, order: seq<RenameAction>, i: nat, m: nat)
    requires i < m <= |order| && order[i].source != []
    requires OutcomeOf(Replay(tree, order[..i]), order[i]) == Renamed
    requires forall l | i < l < m :: !Under(order[l].source, order[i].target)
    ensures order[i].target in Replay(tree, order[..m])
  {
    var t := order[i].target;
    ReplayStep(tree, order, m - 1);
    var before := Replay(tree, order[..m - 1]);
    if m == i + 1 {
      var a := order[i];
      assert Under(a.source, a.source) && a.target + a.source[|a.source|..] == t;
    } else {
      TargetStays(tree, order, i, m - 1);
      assert !Under(order[m - 1].source, t);
    }
  }

  /** A second action to a target an earlier one has filled is skipped,
      provided no action in between moves that target away. */
  lemma SharedTargetSkipped(tree: set<Path>, order: seq<RenameAction>, i: nat, j: nat)
    requires i < j < |order| && order[i].target == order[j].target && order[i].source != []
    requires Outcomes(tree, order)[i] == Renamed
    requires forall l | i < l < j :: !Under(order[l].source, order[i].target)
    ensures Outcomes(tree, order)[j] != Renamed
  {
    OutcomeAt(tree, order, i);
    OutcomeAt(tree, order, j);
    TargetStays(tree, order, i, j);
  }
}

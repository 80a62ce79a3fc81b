/** `gather_rename_actions`: two passes over the scanned entries, files
    first and then folders, collecting the renames the naming rules ask for. */
module RenamePlanner {
  import opened Wrappers
  import opened Text
  import opened Paths
  import opened Patterns
  import opened Naming

  /** `RenameAction.kind`: "file" or "dir". */
  datatype ActionKind = FileRename | DirRename

  /** `RenameAction`, with both paths relative to the scan root. */
  datatype RenameAction = RenameAction(kind: ActionKind, source: Path, target: Path)

  /** What a pass looks at: `is_file()` entries for files, `is_dir()` entries for folders. */
  function PassKind(kind: ActionKind): EntryKind {
    if kind == FileRename then RegularFile else Directory
  }

  /** The name the rules want for an entry, or None when they leave it alone:
      the normalized stem followed by the old suffix for a file, the
      normalized name for a folder. */
  function NewName(e: Entry, kind: ActionKind, afmt: AlbumFormat, tfmt: TrackFormat): Option<string> {
    var name := Name(e.path);
    if kind == FileRename then
      match NormalizedTrackName(Stem(name), tfmt)
      case None => None
      case Some(ns) => Some(ns + Suffix(name))
    else NormalizedAlbumName(name, afmt)
  }

  /** A wanted name is never the current one, and only named entries get one. */
  lemma NewNameDiffers(e: Entry, kind: ActionKind, afmt: AlbumFormat, tfmt: TrackFormat)
    requires NewName(e, kind, afmt, tfmt).Some?
    ensures Name(e.path) != "" && NewName(e, kind, afmt, tfmt).value != Name(e.path)
  {
    var name := Name(e.path);
    if kind == FileRename {
      var stem, suffix := Stem(name), Suffix(name);
      var ns := NormalizedTrackName(stem, tfmt).value;
      var m :| TrackFileSpec(stem, m) && ns == RenderTrack(tfmt, m.number, m.title);
      assert stem != "";
      AppendCancel(ns, stem, suffix);
    } else {
      var m :| AlbumDirSpec(name, m);
    }
  }

  /** One iteration of a pass: skip the entry, plan one action, or fail
      where `with_name` raises. The `target != path` test never fails. */
  function PlanEntry(e: Entry, kind: ActionKind, afmt: AlbumFormat, tfmt: TrackFormat)
    : Result<Option<RenameAction>, string>
  {
    if e.kind != PassKind(kind) then Success(None)
    else
      match NewName(e, kind, afmt, tfmt)
      case None => Success(None)
      case Some(n) => PlanNamed(e, kind, n)
  }

  /** The rest of an iteration once the wanted name `n` is known. */
  function PlanNamed(e: Entry, kind: ActionKind, n: string): Result<Option<RenameAction>, string> {
    match WithNameChecked(e.path, n)
    case Failure(err) => Failure(err)
    case Success(target) =>
      if target != e.path then Success(Some(RenameAction(kind, e.path, target)))
      else Success(None)
  }

  /** A named entry with a different wanted name fails exactly when that
      name is not a valid segment, and is otherwise renamed to it in place. */
  lemma PlanNamedOutcome(e: Entry, kind: ActionKind, n: string)
    requires Name(e.path) != "" && n != Name(e.path)
    ensures var r := PlanNamed(e, kind, n);
      && (r.Failure? <==> !ValidName(n))
      && (r.Success? ==>
            && r.value.Some? && r.value.value.kind == kind && r.value.value.source == e.path
            && Name(r.value.value.target) == n && WellFormed(r.value.value))
  {
  }

  /** An entry is skipped when it is of the other kind or the rules leave
      its name alone, fails exactly when its wanted name is not a valid
      segment, and otherwise yields a same-folder rename of itself to the
      wanted name. */
  lemma PlanEntryOutcome(e: Entry, kind: ActionKind, afmt: AlbumFormat, tfmt: TrackFormat)
    ensures var r := PlanEntry(e, kind, afmt, tfmt);
      && (r.Failure? <==>
            e.kind == PassKind(kind) && NewName(e, kind, afmt, tfmt).Some?
            && !ValidName(NewName(e, kind, afmt, tfmt).value))
      && (r == Success(None) <==> e.kind != PassKind(kind) || NewName(e, kind, afmt, tfmt).None?)
      && (r.Success? && r.value.Some? ==>
            var a := r.value.value;
            && e.kind == PassKind(kind) && a.kind == kind && a.source == e.path
            && NewName(e, kind, afmt, tfmt) == Some(Name(a.target))
            && WellFormed(a))
  {
    if e.kind == PassKind(kind) && NewName(e, kind, afmt, tfmt).Some? {
      NewNameDiffers(e, kind, afmt, tfmt);
      PlanNamedOutcome(e, kind, NewName(e, kind, afmt, tfmt).value);
    }
  }

  /** A planned file rename keeps the file's suffix: the new name ends
      with the old name's suffix. */
  lemma FileRenameKeepsSuffix(e: Entry, afmt: AlbumFormat, tfmt: TrackFormat)
    requires PlanEntry(e, FileRename, afmt, tfmt).Success? && PlanEntry(e, FileRename, afmt, tfmt).value.Some?
    ensures var a := PlanEntry(e, FileRename, afmt, tfmt).value.value;
      var n, x := Name(a.target), Suffix(Name(a.source));
      |x| <= |n| && n[|n| - |x|..] == x
  {
    PlanEntryOutcome(e, FileRename, afmt, tfmt);
    NewFileNameEnds(e, afmt, tfmt);
  }

  /** A file's wanted name ends with the file's suffix. */
  lemma NewFileNameEnds(e: Entry, afmt: AlbumFormat, tfmt: TrackFormat)
    requires NewName(e, FileRename, afmt, tfmt).Some?
    ensures var n, x := NewName(e, FileRename, afmt, tfmt).value, Suffix(Name(e.path));
      |x| <= |n| && n[|n| - |x|..] == x
  {
    var ns := NormalizedTrackName(Stem(Name(e.path)), tfmt).value;
    var x := Suffix(Name(e.path));
    var n := ns + x;
    assert n[|n| - |x|..] == x;
  }

  /** A loop that runs `step` over the entries in order, collecting the
      actions it yields and stopping at the first failure. */
  function Collect<E, A>(es: seq<E>, step: E -> Result<Option<A>, string>): Result<seq<A>, string> {
    if es == [] then Success([])
    else
      match Collect(es[..|es| - 1], step)
      case Failure(err) => Failure(err)
      case Success(acts) =>
        match step(es[|es| - 1])
        case Failure(err) => Failure(err)
        case Success(None) => Success(acts)
        case Success(Some(a)) => Success(acts + [a])
  }

  lemma {:induction false} CollectFailurePersists<E, A>(es: seq<E>, n: nat, step: E -> Result<Option<A>, string>)
    requires n <= |es| && Collect(es[..n], step).Failure?
    ensures Collect(es, step) == Collect(es[..n], step)
  {
    if n < |es| {
      var init := es[..|es| - 1];
      assert init[..n] == es[..n];
      CollectFailurePersists(init, n, step);
    } else {
      assert es[..n] == es;
    }
  }

  /** How the loop extends by one entry. */
  lemma CollectStep<E, A>(es: seq<E>, i: nat, step: E -> Result<Option<A>, string>)
    requires i < |es|
    ensures Collect(es[..i + 1], step) ==
      match Collect(es[..i], step)
      case Failure(err) => Failure(err)
      case Success(acts) =>
        match step(es[i])
        case Failure(err) => Failure(err)
        case Success(None) => Success(acts)
        case Success(Some(a)) => Success(acts + [a])
  {
    assert es[..i + 1][..i] == es[..i];
  }

  /** The loop fails exactly when the step fails on some entry, and then
      with the error of the first such entry. */
  lemma {:induction false} CollectOutcome<E, A>(es: seq<E>, step: E -> Result<Option<A>, string>)
    ensures Collect(es, step).Success? <==> forall i | 0 <= i < |es| :: step(es[i]).Success?
    ensures Collect(es, step).Failure? ==>
      exists i | 0 <= i < |es| :: step(es[i]) == Failure(Collect(es, step).error)
        && forall j | 0 <= j < i :: step(es[j]).Success?
  {
    if es != [] {
      var init := es[..|es| - 1];
      CollectOutcome(init, step);
      assert forall i | 0 <= i < |init| :: init[i] == es[i];
      if Collect(init, step).Failure? {
        var err := Collect(init, step).error;
        var i :| 0 <= i < |init| && step(init[i]) == Failure(err)
          && forall j | 0 <= j < i :: step(init[j]).Success?;
        assert step(es[i]).Failure?;
      }
    }
  }

  /** A successful loop holds exactly the actions the step yields. */
  lemma {:induction false} CollectMembers<E, A>(es: seq<E>, step: E -> Result<Option<A>, string>)
    requires Collect(es, step).Success?
    ensures var r := Collect(es, step).value;
      forall k | 0 <= k < |r| :: exists i | 0 <= i < |es| :: step(es[i]) == Success(Some(r[k]))
    ensures forall i | 0 <= i < |es| && step(es[i]).Success? && step(es[i]).value.Some? ::
      step(es[i]).value.value in Collect(es, step).value
  {
    if es != [] {
      var init, last := es[..|es| - 1], es[|es| - 1];
      CollectMembers(init, step);
      var acts, r := Collect(init, step).value, Collect(es, step).value;
      assert r == acts + (if step(last).value.Some? then [step(last).value.value] else []);
      forall k | 0 <= k < |r| ensures exists i | 0 <= i < |es| :: step(es[i]) == Success(Some(r[k])) {
        if k < |acts| {
          assert r[k] == acts[k];
          var i :| 0 <= i < |init| && step(init[i]) == Success(Some(acts[k]));
          assert init[i] == es[i];
        } else {
          assert step(es[|es| - 1]) == Success(Some(r[k]));
        }
      }
      forall i | 0 <= i < |es| && step(es[i]).Success? && step(es[i]).value.Some?
        ensures step(es[i]).value.value in r
      {
        if i < |init| {
          assert init[i] == es[i];
        }
      }
    }
  }

  /** The loop keeps the order of the entries: of two collected actions, the
      earlier one comes from an earlier entry. */
  lemma {:induction false} CollectOrdered<E, A>(es: seq<E>, step: E -> Result<Option<A>, string>)
    requires Collect(es, step).Success?
    ensures var r := Collect(es, step).value;
      forall k1, k2 | 0 <= k1 < k2 < |r| :: exists i1, i2 | 0 <= i1 < i2 < |es| ::
        step(es[i1]) == Success(Some(r[k1])) && step(es[i2]) == Success(Some(r[k2]))
  {
    if es != [] {
      var init, last := es[..|es| - 1], es[|es| - 1];
      CollectOrdered(init, step);
      CollectMembers(init, step);
      var acts, r := Collect(init, step).value, Collect(es, step).value;
      assert r == acts + (if step(last).value.Some? then [step(last).value.value] else []);
      forall k1, k2 | 0 <= k1 < k2 < |r| ensures exists i1, i2 | 0 <= i1 < i2 < |es| ::
        step(es[i1]) == Success(Some(r[k1])) && step(es[i2]) == Success(Some(r[k2]))
      {
        assert r[k1] == acts[k1];
        if k2 < |acts| {
          assert r[k2] == acts[k2];
          var i1, i2 :| 0 <= i1 < i2 < |init|
            && step(init[i1]) == Success(Some(acts[k1])) && step(init[i2]) == Success(Some(acts[k2]));
          assert init[i1] == es[i1] && init[i2] == es[i2];
        } else {
          var i1 :| 0 <= i1 < |init| && step(init[i1]) == Success(Some(acts[k1]));
          assert init[i1] == es[i1];
          assert step(es[|es| - 1]) == Success(Some(r[k2]));
        }
      }
    }
  }

  /** The step of one pass. */
  function PassStep(kind: ActionKind, afmt: AlbumFormat, tfmt: TrackFormat): Entry -> Result<Option<RenameAction>, string> {
    e => PlanEntry(e, kind, afmt, tfmt)
  }

  /** One pass over the entries in scan order: the actions planned, or the
      first `with_name` failure. */
  function PlanPass(es: seq<Entry>, kind: ActionKind, afmt: AlbumFormat, tfmt: TrackFormat)
    : Result<seq<RenameAction>, string>
  {
    Collect(es, PassStep(kind, afmt, tfmt))
  }

  /** `gather_rename_actions`, with `rglob` replaced by the entry sequence
      it yields (the same sequence for both passes). */
  function RenamePlan(es: seq<Entry>, afmt: AlbumFormat, tfmt: TrackFormat)
    : Result<seq<RenameAction>, string>
  {
    match PlanPass(es, FileRename, afmt, tfmt)
    case Failure(err) => Failure(err)
    case Success(files) =>
      match PlanPass(es, DirRename, afmt, tfmt)
      case Failure(err) => Failure(err)
      case Success(dirs) => Success(files + dirs)
  }

  /** A planned rename: a non-root entry renamed within its own folder. */
  predicate WellFormed(a: RenameAction) {
    |a.source| > 0 && |a.target| == |a.source| && Parent(a.target) == Parent(a.source)
    && a.source != a.target
  }

  /** No two actions rename the same source. */
  predicate DistinctSources(acts: seq<RenameAction>) {
    forall i, j | 0 <= i < j < |acts| :: acts[i].source != acts[j].source
  }

  /** An action the entry at index `i` asks for in the given pass. */
  predicate PlannedAt(es: seq<Entry>, i: int, kind: ActionKind, afmt: AlbumFormat, tfmt: TrackFormat, a: RenameAction) {
    0 <= i < |es| && PlanEntry(es[i], kind, afmt, tfmt) == Success(Some(a))
  }

  /** A pass succeeds exactly when every entry does. */
  lemma PassOutcome(es: seq<Entry>, kind: ActionKind, afmt: AlbumFormat, tfmt: TrackFormat)
    ensures PlanPass(es, kind, afmt, tfmt).Success? <==>
      forall i | 0 <= i < |es| :: PlanEntry(es[i], kind, afmt, tfmt).Success?
  {
    CollectOutcome(es, PassStep(kind, afmt, tfmt));
  }

  /** A successful pass holds exactly the actions its entries ask for, each
      a well-formed rename of an entry of the pass's kind. */
  lemma PassContents(es: seq<Entry>, kind: ActionKind, afmt: AlbumFormat, tfmt: TrackFormat)
    requires PlanPass(es, kind, afmt, tfmt).Success?
    ensures var r := PlanPass(es, kind, afmt, tfmt).value;
      && (forall a :: a in r <==> exists i :: PlannedAt(es, i, kind, afmt, tfmt, a))
      && (forall a | a in r :: a.kind == kind && WellFormed(a)
            && exists i | 0 <= i < |es| :: es[i].path == a.source && es[i].kind == PassKind(kind))
  {
    var step := PassStep(kind, afmt, tfmt);
    CollectMembers(es, step);
    var r := PlanPass(es, kind, afmt, tfmt).value;
    forall a ensures a in r <==> exists i :: PlannedAt(es, i, kind, afmt, tfmt, a) {
      if a in r {
        var k :| 0 <= k < |r| && r[k] == a;
        var i :| 0 <= i < |es| && step(es[i]) == Success(Some(r[k]));
        assert PlannedAt(es, i, kind, afmt, tfmt, a);
      }
      if i :| PlannedAt(es, i, kind, afmt, tfmt, a) {
        assert step(es[i]) == Success(Some(a));
      }
    }
    forall a | a in r ensures a.kind == kind && WellFormed(a)
      && exists i | 0 <= i < |es| :: es[i].path == a.source && es[i].kind == PassKind(kind)
    {
      var i :| PlannedAt(es, i, kind, afmt, tfmt, a);
      PlanEntryOutcome(es[i], kind, afmt, tfmt);
    }
  }

  /** Distinct entry paths give a pass with distinct sources. */
  lemma PassDistinct(es: seq<Entry>, kind: ActionKind, afmt: AlbumFormat, tfmt: TrackFormat)
    requires PlanPass(es, kind, afmt, tfmt).Success? && DistinctPaths(es)
    ensures DistinctSources(PlanPass(es, kind, afmt, tfmt).value)
  {
    var step := PassStep(kind, afmt, tfmt);
    CollectOrdered(es, step);
    var r := PlanPass(es, kind, afmt, tfmt).value;
    forall k1, k2 | 0 <= k1 < k2 < |r| ensures r[k1].source != r[k2].source {
      var i1, i2 :| 0 <= i1 < i2 < |es|
        && step(es[i1]) == Success(Some(r[k1])) && step(es[i2]) == Success(Some(r[k2]));
      PlanEntryOutcome(es[i1], kind, afmt, tfmt);
      PlanEntryOutcome(es[i2], kind, afmt, tfmt);
    }
  }

  /** The whole plan fails exactly when some entry fails in one of the two passes. */
  lemma RenamePlanOutcome(es: seq<Entry>, afmt: AlbumFormat, tfmt: TrackFormat)
    ensures RenamePlan(es, afmt, tfmt).Success? <==>
      forall i | 0 <= i < |es| ::
        PlanEntry(es[i], FileRename, afmt, tfmt).Success? && PlanEntry(es[i], DirRename, afmt, tfmt).Success?
  {
    PassOutcome(es, FileRename, afmt, tfmt);
    PassOutcome(es, DirRename, afmt, tfmt);
  }

  /** A successful plan is the file pass followed by the folder pass. */
  lemma RenamePlanParts(es: seq<Entry>, afmt: AlbumFormat, tfmt: TrackFormat)
    requires RenamePlan(es, afmt, tfmt).Success?
    ensures PlanPass(es, FileRename, afmt, tfmt).Success? && PlanPass(es, DirRename, afmt, tfmt).Success?
    ensures RenamePlan(es, afmt, tfmt).value
         == PlanPass(es, FileRename, afmt, tfmt).value + PlanPass(es, DirRename, afmt, tfmt).value
  {
  }

  /** Joining file renames and folder renames puts every file rename first. */
  lemma JoinKinds(files: seq<RenameAction>, dirs: seq<RenameAction>)
    requires forall a | a in files :: a.kind == FileRename
    requires forall a | a in dirs :: a.kind == DirRename
    ensures forall i, j | 0 <= i < j < |files + dirs| ::
      (files + dirs)[j].kind == FileRename ==> (files + dirs)[i].kind == FileRename
  {
    var acts := files + dirs;
    forall k | 0 <= k < |acts| ensures acts[k].kind == (if k < |files| then FileRename else DirRename) {
      if k < |files| {
        assert acts[k] == files[k] && acts[k] in files;
      } else {
        assert acts[k] == dirs[k - |files|] && acts[k] in dirs;
      }
    }
  }

  /** Joining two lists of renames with distinct sources, no source shared
      between them, gives distinct sources. */
  lemma JoinDistinct(files: seq<RenameAction>, dirs: seq<RenameAction>)
    requires DistinctSources(files) && DistinctSources(dirs)
    requires forall i, j | 0 <= i < |files| && 0 <= j < |dirs| :: files[i].source != dirs[j].source
    ensures DistinctSources(files + dirs)
  {
    var acts := files + dirs;
    forall i, j | 0 <= i < j < |acts| ensures acts[i].source != acts[j].source {
      if j < |files| {
        assert acts[i] == files[i] && acts[j] == files[j];
      } else if i >= |files| {
        assert acts[i] == dirs[i - |files|] && acts[j] == dirs[j - |files|];
      } else {
        assert acts[i] == files[i] && acts[j] == dirs[j - |files|];
      }
    }
  }

  /** A successful plan is exactly the actions the entries ask for, each a
      well-formed rename, with every file rename before every folder rename. */
  lemma RenamePlanShape(es: seq<Entry>, afmt: AlbumFormat, tfmt: TrackFormat)
    requires RenamePlan(es, afmt, tfmt).Success?
    ensures var acts := RenamePlan(es, afmt, tfmt).value;
      && (forall a | a in acts :: WellFormed(a))
      && (forall i, j | 0 <= i < j < |acts| :: acts[j].kind == FileRename ==> acts[i].kind == FileRename)
      && (forall a :: a in acts <==>
            exists i :: PlannedAt(es, i, FileRename, afmt, tfmt, a) || PlannedAt(es, i, DirRename, afmt, tfmt, a))
  {
    RenamePlanParts(es, afmt, tfmt);
    var files, dirs := PlanPass(es, FileRename, afmt, tfmt).value, PlanPass(es, DirRename, afmt, tfmt).value;
    PassContents(es, FileRename, afmt, tfmt);
    PassContents(es, DirRename, afmt, tfmt);
    JoinKinds(files, dirs);
  }

  /** Entries with distinct paths give a plan that never renames the same
      source twice. */
  lemma RenamePlanDistinct(es: seq<Entry>, afmt: AlbumFormat, tfmt: TrackFormat)
    requires RenamePlan(es, afmt, tfmt).Success? && DistinctPaths(es)
    ensures DistinctSources(RenamePlan(es, afmt, tfmt).value)
  {
    RenamePlanParts(es, afmt, tfmt);
    var files, dirs := PlanPass(es, FileRename, afmt, tfmt).value, PlanPass(es, DirRename, afmt, tfmt).value;
    PassDistinct(es, FileRename, afmt, tfmt);
    PassDistinct(es, DirRename, afmt, tfmt);
    PassSourcesApart(es, afmt, tfmt);
    JoinDistinct(files, dirs);
  }

  /** No file rename and folder rename share a source: one comes from a
      file entry, the other from a folder entry, and paths are distinct. */
  lemma PassSourcesApart(es: seq<Entry>, afmt: AlbumFormat, tfmt: TrackFormat)
    requires RenamePlan(es, afmt, tfmt).Success? && DistinctPaths(es)
    ensures PlanPass(es, FileRename, afmt, tfmt).Success? && PlanPass(es, DirRename, afmt, tfmt).Success?
    ensures var files, dirs := PlanPass(es, FileRename, afmt, tfmt).value, PlanPass(es, DirRename, afmt, tfmt).value;
      forall i, j | 0 <= i < |files| && 0 <= j < |dirs| :: files[i].source != dirs[j].source
  {
    RenamePlanParts(es, afmt, tfmt);
    PassContents(es, FileRename, afmt, tfmt);
    PassContents(es, DirRename, afmt, tfmt);
    ApartByKind(es, PlanPass(es, FileRename, afmt, tfmt).value, PlanPass(es, DirRename, afmt, tfmt).value);
  }

  /** Renames of file entries and renames of folder entries never share a
      source when no two entries share a path. */
  lemma ApartByKind(es: seq<Entry>, files: seq<RenameAction>, dirs: seq<RenameAction>)
    requires DistinctPaths(es)
    requires forall a | a in files :: exists i | 0 <= i < |es| :: es[i].path == a.source && es[i].kind == RegularFile
    requires forall a | a in dirs :: exists i | 0 <= i < |es| :: es[i].path == a.source && es[i].kind == Directory
    ensures forall i, j | 0 <= i < |files| && 0 <= j < |dirs| :: files[i].source != dirs[j].source
  {
    forall i, j | 0 <= i < |files| && 0 <= j < |dirs| ensures files[i].source != dirs[j].source {
      assert files[i] in files && dirs[j] in dirs;
      var x :| 0 <= x < |es| && es[x].path == files[i].source && es[x].kind == RegularFile;
      var y :| 0 <= y < |es| && es[y].path == dirs[j].source && es[y].kind == Directory;
      assert x != y;
    }
  }

  /** With the default templates, an entry whose own name is a valid
      segment is always given a valid new name: the number and year fields
      are digits, and the title and album come from the old name, which has
      no '/'. */
  lemma DefaultNewNameValid(e: Entry, kind: ActionKind)
    requires ValidName(Name(e.path))
    requires NewName(e, kind, DefaultAlbumFormat, DefaultTrackFormat).Some?
    ensures ValidName(NewName(e, kind, DefaultAlbumFormat, DefaultTrackFormat).value)
  {
    var name := Name(e.path);
    if kind == FileRename {
      var stem := Stem(name);
      StemSuffixChars(name, '/');
      TrackFileFieldsExact(stem);
      var m := TrackFileFields(stem).value;
      TrackFileFieldsChars(stem, '/');
      DefaultTrackRendering(m.number, m.title);
      var digits := ZeroPad(DecimalString(m.number), 2);
      assert '/' !in digits;
      var n := NewName(e, kind, DefaultAlbumFormat, DefaultTrackFormat).value;
      assert n == digits + " " + m.title + Suffix(name);
      assert |n| >= 3;
    } else {
      AlbumDirFieldsExact(name);
      var m := AlbumDirFields(name).value;
      AlbumDirFieldsChars(name, '/');
      DefaultAlbumRendering(m.album, m.year);
      assert '/' !in m.year;
      var n := NewName(e, kind, DefaultAlbumFormat, DefaultTrackFormat).value;
      assert n == m.album + " (" + m.year + ")";
      assert |n| >= 7;
    }
  }

  /** With the default templates, scanning entries that all have valid
      names never hits a `with_name` failure. */
  lemma DefaultPlanSucceeds(es: seq<Entry>)
    requires forall i | 0 <= i < |es| :: ValidName(Name(es[i].path))
    ensures RenamePlan(es, DefaultAlbumFormat, DefaultTrackFormat).Success?
  {
    forall i, kind | 0 <= i < |es|
      ensures PlanEntry(es[i], kind, DefaultAlbumFormat, DefaultTrackFormat).Success?
    {
      PlanEntryOutcome(es[i], kind, DefaultAlbumFormat, DefaultTrackFormat);
      if NewName(es[i], kind, DefaultAlbumFormat, DefaultTrackFormat).Some? {
        DefaultNewNameValid(es[i], kind);
      }
    }
    RenamePlanOutcome(es, DefaultAlbumFormat, DefaultTrackFormat);
  }

  /** The first loop of `gather_rename_actions`: renames for files. */
  method GatherFileRenames(entries: seq<Entry>, afmt: AlbumFormat, tfmt: TrackFormat)
    returns (r: Result<seq<RenameAction>, string>)
    ensures r == PlanPass(entries, FileRename, afmt, tfmt)
  {
    var actions: seq<RenameAction> := [];
    for i := 0 to |entries|
      invariant PlanPass(entries[..i], FileRename, afmt, tfmt) == Success(actions)
    {
      CollectStep(entries, i, PassStep(FileRename, afmt, tfmt));
      assert PassStep(FileRename, afmt, tfmt)(entries[i]) == PlanEntry(entries[i], FileRename, afmt, tfmt);
      var path := entries[i].path;
      if entries[i].kind != RegularFile {
        continue;
      }
      var normalizedStem := NormalizedTrackName(Stem(Name(path)), tfmt);
      if normalizedStem.None? {
        continue;
      }
      var target := WithNameChecked(path, normalizedStem.value + Suffix(Name(path)));
      if target.Failure? {
        CollectFailurePersists(entries, i + 1, PassStep(FileRename, afmt, tfmt));
        return Failure(target.error);
      }
      if target.value != path {
        actions := actions + [RenameAction(FileRename, path, target.value)];
      }
    }
    assert entries[..|entries|] == entries;
    return Success(actions);
  }

  /** The second loop of `gather_rename_actions`: renames for folders. */
  method GatherDirRenames(entries: seq<Entry>, afmt: AlbumFormat, tfmt: TrackFormat)
    returns (r: Result<seq<RenameAction>, string>)
    ensures r == PlanPass(entries, DirRename, afmt, tfmt)
  {
    var actions: seq<RenameAction> := [];
    for i := 0 to |entries|
      invariant PlanPass(entries[..i], DirRename, afmt, tfmt) == Success(actions)
    {
      CollectStep(entries, i, PassStep(DirRename, afmt, tfmt));
      assert PassStep(DirRename, afmt, tfmt)(entries[i]) == PlanEntry(entries[i], DirRename, afmt, tfmt);
      var path := entries[i].path;
      if entries[i].kind != Directory {
        continue;
      }
      var normalizedDir := NormalizedAlbumName(Name(path), afmt);
      if normalizedDir.None? {
        continue;
      }
      var target := WithNameChecked(path, normalizedDir.value);
      if target.Failure? {
        CollectFailurePersists(entries, i + 1, PassStep(DirRename, afmt, tfmt));
        return Failure(target.error);
      }
      if target.value != path {
        actions := actions + [RenameAction(DirRename, path, target.value)];
      }
    }
    assert entries[..|entries|] == entries;
    return Success(actions);
  }

  /** `gather_rename_actions`: files first, then folders; a `with_name`
      failure in either loop ends the whole call. */
  method GatherRenameActions(entries: seq<Entry>, afmt: AlbumFormat, tfmt: TrackFormat)
    returns (r: Result<seq<RenameAction>, string>)
    ensures r == RenamePlan(entries, afmt, tfmt)
  {
    var files := GatherFileRenames(entries, afmt, tfmt);
    if files.Failure? {
      return Failure(files.error);
    }
    var dirs := GatherDirRenames(entries, afmt, tfmt);
    if dirs.Failure? {
      return Failure(dirs.error);
    }
    return Success(files.value + dirs.value);
  }
}

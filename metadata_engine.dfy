/** `apply_metadata_actions`: writes the planned tags into each file, the
    files taken in path order, skipping formats the tagging library does not
    handle. */
module MetadataEngine {
  import opened Wrappers
  import opened Text
  import opened Paths
  import opened Sorting
  import opened TagRules
  import opened MetadataPlanner

  /** The tags of a file after the planned keys are set: each planned key
      holds a one-item list with its new value, every other tag is kept. */
  function Written(tags: map<string, TagValue>, updates: map<string, string>): map<string, TagValue> {
    map k | k in tags.Keys + updates.Keys :: if k in updates then ListTag([updates[k]]) else tags[k]
  }

  /** A file after one action: tagged files get the new tags, unsupported
      ones stay as they are. */
  function Saved(f: AudioTags, updates: map<string, string>): AudioTags {
    match f
    case Unsupported => Unsupported
    case Tagged(tags) => Tagged(Written(tags, updates))
  }

  /** The tags of the files below the scan root, keyed by their path
      relative to the root. */
  class TagStore {
    var files: map<Path, AudioTags>

    constructor (files0: map<Path, AudioTags>)
      ensures files == files0
    {
      files := files0;
    }

    /** `mutagen.File(path, easy=True)` on an existing file. */
    function Open(p: Path): AudioTags
      reads this
      requires p in files
    {
      files[p]
    }

    /** Setting each planned key to `[value]` on the opened file, then `save()`. */
    method Save(p: Path, updates: map<string, string>)
      requires p in files && files[p].Tagged?
      modifies this
      ensures files == old(files)[p := Saved(old(files)[p], updates)]
    {
      files := files[p := Saved(files[p], updates)];
    }
  }

  /** Every action names a file that exists. */
  ghost predicate Present(files: map<Path, AudioTags>, acts: seq<MetadataAction>) {
    forall i | 0 <= i < |acts| :: acts[i].filePath in files
  }

  /** What one action does to the files. */
  function ApplyOne(files: map<Path, AudioTags>, a: MetadataAction): (r: map<Path, AudioTags>)
    requires a.filePath in files
    ensures r.Keys == files.Keys
  {
    files[a.filePath := Saved(files[a.filePath], a.updates)]
  }

  /** The files after carrying out `acts` in order: the same files, each
      still readable or still unsupported, and a file no action names left
      alone. */
  function ApplyAll(files: map<Path, AudioTags>, acts: seq<MetadataAction>): (r: map<Path, AudioTags>)
    requires Present(files, acts)
    ensures r.Keys == files.Keys
    ensures forall p | p in files :: r[p].Tagged? <==> files[p].Tagged?
    ensures forall p | p in files && forall i | 0 <= i < |acts| :: acts[i].filePath != p :: r[p] == files[p]
  {
    if acts == [] then files
    else
      var init := acts[..|acts| - 1];
      assert Present(files, init);
      assert forall i | 0 <= i < |init| :: init[i] == acts[i];
      ApplyOne(ApplyAll(files, init), acts[|acts| - 1])
  }

  /** The number of actions whose file the library can open and save: every
      action counts exactly when every file named is readable. */
  function CountSupported(files: map<Path, AudioTags>, acts: seq<MetadataAction>): (n: nat)
    requires Present(files, acts)
    ensures n <= |acts|
    ensures n == |acts| <==> forall i | 0 <= i < |acts| :: files[acts[i].filePath].Tagged?
  {
    if acts == [] then 0
    else
      var init := acts[..|acts| - 1];
      assert Present(files, init);
      assert forall i | 0 <= i < |init| :: init[i] == acts[i];
      CountSupported(files, init) + (if files[acts[|acts| - 1].filePath].Tagged? then 1 else 0)
  }

  function FileText(a: MetadataAction): string { PathText(a.filePath) }

  /** `sorted(actions, key=lambda a: str(a.file_path))`. */
  function MetadataOrder(acts: seq<MetadataAction>): seq<MetadataAction> {
    SortBy(acts, FileText, StrLess)
  }

  /** The apply order holds the same actions, sorted by path text. */
  lemma MetadataOrderSpec(acts: seq<MetadataAction>)
    ensures multiset(MetadataOrder(acts)) == multiset(acts)
    ensures forall a :: a in MetadataOrder(acts) <==> a in acts
    ensures forall i, j | 0 <= i < j < |MetadataOrder(acts)| ::
      !StrLess(FileText(MetadataOrder(acts)[j]), FileText(MetadataOrder(acts)[i]))
  {
    var order := MetadataOrder(acts);
    forall a ensures a in order <==> a in acts {
      assert a in order <==> a in multiset(order);
      assert a in acts <==> a in multiset(acts);
    }
    StrLessIsStrictTotalOrder();
    SortBySorted(acts, FileText, StrLess);
  }

  lemma PresentOrder(files: map<Path, AudioTags>, acts: seq<MetadataAction>)
    requires Present(files, acts)
    ensures Present(files, MetadataOrder(acts))
  {
    MetadataOrderSpec(acts);
    var order := MetadataOrder(acts);
    forall i | 0 <= i < |order| ensures order[i].filePath in files {
      assert order[i] in acts;
    }
  }

  /** `apply_metadata_actions`: the files end up as the actions, carried
      out in path order, leave them, and the count is the number of actions
      on files the library could open. */
  method ApplyMetadataActions(ts: TagStore, actions: seq<MetadataAction>) returns (applied: nat)
    requires Present(ts.files, actions)
    modifies ts
    ensures Present(old(ts.files), MetadataOrder(actions))
    ensures ts.files == ApplyAll(old(ts.files), MetadataOrder(actions))
    ensures applied == CountSupported(old(ts.files), MetadataOrder(actions))
  {
    PresentOrder(ts.files, actions);
    var order := SortBy(actions, FileText, StrLess);
    ghost var start := ts.files;
    applied := 0;
    for i := 0 to |order|
      invariant Present(start, order[..i])
      invariant ts.files == ApplyAll(start, order[..i])
      invariant applied == CountSupported(start, order[..i])
    {
      var action := order[i];
      ApplyStep(start, order, i);
      var audio := ts.Open(action.filePath);
      if audio.Unsupported? {
        continue;
      }
      ts.Save(action.filePath, action.updates);
      applied := applied + 1;
    }
    assert order[..|order|] == order;
  }

  /** How carrying out one more action extends the files and the count. */
  lemma ApplyStep(files: map<Path, AudioTags>, acts: seq<MetadataAction>, i: nat)
    requires Present(files, acts) && i < |acts|
    ensures Present(files, acts[..i]) && Present(files, acts[..i + 1])
    ensures var before := ApplyAll(files, acts[..i]);
      && (before[acts[i].filePath].Tagged? <==> files[acts[i].filePath].Tagged?)
      && ApplyAll(files, acts[..i + 1])
         == (if before[acts[i].filePath].Tagged? then before[acts[i].filePath := Saved(before[acts[i].filePath], acts[i].updates)] else before)
      && CountSupported(files, acts[..i + 1])
         == CountSupported(files, acts[..i]) + (if files[acts[i].filePath].Tagged? then 1 else 0)
  {
    var prefix := acts[..i + 1];
    assert prefix[..i] == acts[..i] && prefix[i] == acts[i];
  }

  // ---------------------------------------------------------------------
  // What writing does
  // ---------------------------------------------------------------------

  /** Reading back the written keys gives the values written; every other
      key reads as before. */
  lemma WrittenReadsBack(tags: map<string, TagValue>, updates: map<string, string>, keys: set<string>)
    requires updates.Keys <= keys
    ensures CurrentTags(Tagged(Written(tags, updates)), keys) == CurrentTags(Tagged(tags), keys) + updates
  {
  }




  /** When no two actions name the same file, each file ends up as its one
      action leaves it. */
  lemma {:induction false} ApplyAllAt(files: map<Path, AudioTags>, acts: seq<MetadataAction>, m: nat)
    requires Present(files, acts) && DistinctFiles(acts) && m < |acts|
    ensures ApplyAll(files, acts)[acts[m].filePath] == Saved(files[acts[m].filePath], acts[m].updates)
  {
    var init := acts[..|acts| - 1];
    assert Present(files, init);
    if m == |acts| - 1 {
      assert forall i | 0 <= i < |init| :: init[i].filePath != acts[m].filePath;
    } else {
      assert DistinctFiles(init);
      ApplyAllAt(files, init, m);
    }
  }

  // ---------------------------------------------------------------------
  // Planning after applying
  // ---------------------------------------------------------------------

  /** The plan for a file looks only at that file's tags. */
  lemma PlanFileLocal(root: Path, s1: map<Path, AudioTags>, s2: map<Path, AudioTags>, e: Entry)
    requires e.kind == RegularFile ==> e.path in s1 && e.path in s2 && s1[e.path] == s2[e.path]
    ensures PlanFile(root, s1, e) == PlanFile(root, s2, e)
  {
  }

  /** A file whose derived tags all read back as wanted gets no action. */
  lemma SettledFile(root: Path, store: map<Path, AudioTags>, e: Entry)
    requires e.kind == RegularFile ==> e.path in store
    requires IsAudioFile(e) && DeriveMetadata(root + e.path).Some?
    requires forall k | k in TagKeys ::
      Get(CurrentTags(store[e.path], TagKeys), k) == DeriveMetadata(root + e.path).value[k]
    ensures PlanFile(root, store, e) == None
  {
    PlanFileOutcome(root, store, e);
  }

  /** After an action is saved into a readable file, the file's derived
      tags all read back as wanted. */
  lemma SavedSettles(root: Path, store: map<Path, AudioTags>, e: Entry, a: MetadataAction)
    requires e.kind == RegularFile ==> e.path in store
    requires PlanFile(root, store, e) == Some(a) && store[e.path].Tagged?
    ensures forall k | k in TagKeys ::
      Get(CurrentTags(Saved(store[e.path], a.updates), TagKeys), k) == DeriveMetadata(root + e.path).value[k]
  {
    PlanFileOutcome(root, store, e);
    var tags := store[e.path].tags;
    WrittenReadsBack(tags, a.updates, TagKeys);
  }

  /** The actions of a plan, in apply order, name distinct files. */
  lemma OrderDistinct(root: Path, store: map<Path, AudioTags>, es: seq<Entry>)
    requires Readable(es, store) && DistinctPaths(es)
    ensures DistinctFiles(MetadataOrder(MetadataPlan(root, store, es)))
  {
    var plan := MetadataPlan(root, store, es);
    MetadataPlanDistinct(root, store, es);
    MetadataOrderSpec(plan);
    DistinctKeysPermutation(plan, MetadataOrder(plan), (a: MetadataAction) => a.filePath);
  }

  /** Each action of a plan, in apply order, comes from a scanned file. */
  lemma OrderFrom(root: Path, store: map<Path, AudioTags>, es: seq<Entry>, m: nat)
    requires Readable(es, store) && m < |MetadataOrder(MetadataPlan(root, store, es))|
    ensures exists j | 0 <= j < |es| ::
      && PlanFile(root, store, es[j]) == Some(MetadataOrder(MetadataPlan(root, store, es))[m])
      && es[j].kind == RegularFile && es[j].path == MetadataOrder(MetadataPlan(root, store, es))[m].filePath
  {
    var plan := MetadataPlan(root, store, es);
    MetadataOrderSpec(plan);
    PlannedFrom(root, store, es, MetadataOrder(plan)[m]);
  }

  /** Each action of a plan comes from a scanned file. */
  lemma PlannedFrom(root: Path, store: map<Path, AudioTags>, es: seq<Entry>, a: MetadataAction)
    requires Readable(es, store) && a in MetadataPlan(root, store, es)
    ensures exists j | 0 <= j < |es| ::
      PlanFile(root, store, es[j]) == Some(a) && es[j].kind == RegularFile && es[j].path == a.filePath
  {
    var plan := MetadataPlan(root, store, es);
    MetadataPlanFrom(root, store, es);
    var k :| 0 <= k < |plan| && plan[k] == a;
    var j :| 0 <= j < |es| && PlanFile(root, store, es[j]) == Some(plan[k]);
    PlanFileNames(root, store, es[j]);
  }

  /** A plan names only files that exist. */
  lemma PlanPresent(root: Path, store: map<Path, AudioTags>, es: seq<Entry>)
    requires Readable(es, store)
    ensures Present(store, MetadataOrder(MetadataPlan(root, store, es)))
  {
    var order := MetadataOrder(MetadataPlan(root, store, es));
    forall m | 0 <= m < |order| ensures order[m].filePath in store {
      OrderFrom(root, store, es, m);
    }
  }

  /** The files once a scan's plan has been applied in apply order. */
  ghost function AfterPlan(root: Path, store: map<Path, AudioTags>, es: seq<Entry>): (r: map<Path, AudioTags>)
    requires Readable(es, store)
    ensures Present(store, MetadataOrder(MetadataPlan(root, store, es)))
    ensures r.Keys == store.Keys && Readable(es, r)
  {
    PlanPresent(root, store, es);
    ApplyAll(store, MetadataOrder(MetadataPlan(root, store, es)))
  }

  /** Every action a scanned file asks for is in the apply order. */
  lemma PlannedInOrder(root: Path, store: map<Path, AudioTags>, es: seq<Entry>, i: nat)
    requires Readable(es, store) && i < |es| && PlanFile(root, store, es[i]).Some?
    ensures PlanFile(root, store, es[i]).value in MetadataOrder(MetadataPlan(root, store, es))
  {
    MetadataPlanComplete(root, store, es);
    MetadataOrderSpec(MetadataPlan(root, store, es));
  }

  /** A planned file is saved with its own action. */
  lemma AfterPlanned(root: Path, store: map<Path, AudioTags>, es: seq<Entry>, i: nat)
    requires Readable(es, store) && DistinctPaths(es) && i < |es|
    requires es[i].kind == RegularFile && PlanFile(root, store, es[i]).Some?
    ensures AfterPlan(root, store, es)[es[i].path] == Saved(store[es[i].path], PlanFile(root, store, es[i]).value.updates)
  {
    var order := MetadataOrder(MetadataPlan(root, store, es));
    var a := PlanFile(root, store, es[i]).value;
    PlannedInOrder(root, store, es, i);
    var m :| 0 <= m < |order| && order[m] == a;
    PlanFileNames(root, store, es[i]);
    OrderDistinct(root, store, es);
    PlanPresent(root, store, es);
    ApplyAllAt(store, order, m);
  }

  /** A file with nothing planned is left as it was. */
  lemma AfterUnplanned(root: Path, store: map<Path, AudioTags>, es: seq<Entry>, i: nat)
    requires Readable(es, store) && DistinctPaths(es) && i < |es|
    requires es[i].kind == RegularFile && PlanFile(root, store, es[i]).None?
    ensures AfterPlan(root, store, es)[es[i].path] == store[es[i].path]
  {
    var order := MetadataOrder(MetadataPlan(root, store, es));
    forall m | 0 <= m < |order| ensures order[m].filePath != es[i].path {
      OrderFrom(root, store, es, m);
    }
    PlanPresent(root, store, es);
  }

  /** Once a plan is applied, a new scan of the same entries plans nothing
      for any file the library can open: every wanted tag is in place. */
  lemma PlanApplySettles(root: Path, store: map<Path, AudioTags>, es: seq<Entry>, i: nat)
    requires Readable(es, store) && DistinctPaths(es) && i < |es|
    ensures PlanFile(root, AfterPlan(root, store, es), es[i]).Some? ==> store[es[i].path].Unsupported?
  {
    var after := AfterPlan(root, store, es);
    var e := es[i];
    PlanFileOutcome(root, after, e);
    if IsAudioFile(e) && DeriveMetadata(root + e.path).Some? && store[e.path].Tagged? {
      match PlanFile(root, store, e)
      case Some(a) =>
        AfterPlanned(root, store, es, i);
        SavedSettles(root, store, e, a);
        SettledFile(root, after, e);
      case None =>
        AfterUnplanned(root, store, es, i);
        PlanFileLocal(root, store, after, e);
    }
  }

  /** When the library can open every planned file, applying the plan
      saves every action, and a new scan afterwards plans nothing. */
  lemma PlanApplyIdempotent(root: Path, store: map<Path, AudioTags>, es: seq<Entry>)
    requires Readable(es, store) && DistinctPaths(es)
    requires forall i | 0 <= i < |es| && PlanFile(root, store, es[i]).Some? :: store[es[i].path].Tagged?
    ensures MetadataPlan(root, AfterPlan(root, store, es), es) == []
    ensures var order := MetadataOrder(MetadataPlan(root, store, es));
      CountSupported(store, order) == |order|
  {
    var after := AfterPlan(root, store, es);
    var order := MetadataOrder(MetadataPlan(root, store, es));
    forall m | 0 <= m < |order| ensures store[order[m].filePath].Tagged? {
      OrderFrom(root, store, es, m);
    }
    forall i | 0 <= i < |es| ensures PlanFile(root, after, es[i]) == None {
      var e := es[i];
      PlanApplySettles(root, store, es, i);
      PlanFileOutcome(root, store, e);
      PlanFileOutcome(root, after, e);
      if IsAudioFile(e) && DeriveMetadata(root + e.path).Some? {
        if PlanFile(root, store, e).None? {
          DeriveMetadataKeys(root + e.path);
          assert Get(CurrentTags(store[e.path], TagKeys), "album") != "";
        }
        assert store[e.path].Tagged?;
      }
      FileStepIs(root, after, e);
    }
    GatherNone(es, FileStep(root, after));
  }
}

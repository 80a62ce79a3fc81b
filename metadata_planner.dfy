/** `read_current_tags` and `gather_metadata_actions`: for every audio file
    laid out as `Artist/Album (YYYY)/NN Title.ext`, the tags it lacks or
    holds with another value. */
module MetadataPlanner {
  import opened Wrappers
  import opened Text
  import opened Paths
  import opened TagRules

  /** A tag value as the easy-tag interface hands it out: usually a list of
      strings, sometimes a bare string, occasionally something else. */
  datatype TagValue = ListTag(items: seq<string>) | TextTag(text: string) | OtherTag

  /** What opening a file with the tagging library gives: nothing for a
      format it does not handle, or the file's tags. */
  datatype AudioTags = Unsupported | Tagged(tags: map<string, TagValue>)

  /** `MetadataAction`: the file relative to the scan root, the tags to
      write, and the tags read from the file. */
  datatype MetadataAction = MetadataAction(filePath: Path, updates: map<string, string>, current: map<string, string>)

  /** The text `read_current_tags` keeps for a value: a list's first item
      (or "" for an empty list), a string itself, nothing for anything else. */
  function TagText(v: TagValue): Option<string> {
    match v
    case ListTag(items) => Some(if items == [] then "" else items[0])
    case TextTag(text) => Some(text)
    case OtherTag => None
  }

  /** The map `read_current_tags` builds for the wanted keys. */
  function CurrentTags(f: AudioTags, keys: set<string>): map<string, string> {
    match f
    case Unsupported => map[]
    case Tagged(tags) =>
      map k | k in keys && k in tags && TagText(tags[k]).Some? :: TagText(tags[k]).value
  }

  /** `dict.get(key, "")`. */
  function Get(m: map<string, string>, key: string): string {
    if key in m then m[key] else ""
  }

  /** The keys listed in `keys`. */
  function KeysOf(keys: seq<string>): set<string> {
    set k | k in keys
  }

  /** `read_current_tags`: one pass over the wanted keys. */
  method ReadCurrentTags(f: AudioTags, keys: seq<string>) returns (current: map<string, string>)
    ensures current == CurrentTags(f, KeysOf(keys))
  {
    if f.Unsupported? {
      return map[];
    }
    current := map[];
    for i := 0 to |keys|
      invariant current == CurrentTags(f, KeysOf(keys[..i]))
    {
      assert keys[..i + 1] == keys[..i] + [keys[i]];
      assert KeysOf(keys[..i + 1]) == KeysOf(keys[..i]) + {keys[i]};
      var key := keys[i];
      if key in f.tags {
        match f.tags[key]
        case ListTag(items) =>
          current := current[key := if items == [] then "" else items[0]];
        case TextTag(text) =>
          current := current[key := text];
        case OtherTag =>
      }
    }
    assert keys[..|keys|] == keys;
  }

  /** The reads agree with what they were read from: a wanted key is
      present exactly when the file holds a list or a string under it, and
      then with that value's text. */
  lemma CurrentTagsSpec(f: AudioTags, keys: set<string>, k: string)
    ensures k in CurrentTags(f, keys) <==>
      f.Tagged? && k in keys && k in f.tags && !f.tags[k].OtherTag?
    ensures k in CurrentTags(f, keys) ==> CurrentTags(f, keys)[k] == TagText(f.tags[k]).value
    ensures f.Tagged? && k in f.tags && f.tags[k].ListTag? && f.tags[k].items != [] && k in keys ==>
      Get(CurrentTags(f, keys), k) == f.tags[k].items[0]
  {
  }

  /** The wanted tags whose current value differs, an absent tag counting as "". */
  function EffectiveUpdates(updates: map<string, string>, current: map<string, string>): map<string, string> {
    map k | k in updates && Get(current, k) != updates[k] :: updates[k]
  }

  /** The order in which `derive_metadata_for_file` lists its keys, which
      is the order `read_current_tags` visits them in. */
  const TagKeyOrder: seq<string> := ["album", "date", "year", "tracknumber", "artist", "albumartist", "author"]

  lemma TagKeyOrderKeys()
    ensures KeysOf(TagKeyOrder) == TagKeys
  {
  }

  /** Every scanned regular file can be opened for its tags. */
  ghost predicate Readable(es: seq<Entry>, store: map<Path, AudioTags>) {
    forall i | 0 <= i < |es| && es[i].kind == RegularFile :: es[i].path in store
  }

  /** One iteration of `gather_metadata_actions`: skip files that are not
      audio, that are outside the layout, or whose tags already agree;
      otherwise plan the differing tags. Derivation looks at the full path,
      so the artist and album folders may be the root or lie above it. */
  function PlanFile(root: Path, store: map<Path, AudioTags>, e: Entry): Option<MetadataAction>
    requires e.kind == RegularFile ==> e.path in store
  {
    if !IsAudioFile(e) then None
    else
      match DeriveMetadata(root + e.path)
      case None => None
      case Some(updates) =>
        var current := CurrentTags(store[e.path], updates.Keys);
        var effective := EffectiveUpdates(updates, current);
        if effective == map[] then None
        else Some(MetadataAction(e.path, effective, current))
  }

  /** A loop that runs `step` over the entries in order and keeps what it yields. */
  function Gather<E, A>(es: seq<E>, step: E --> Option<A>): seq<A>
    requires forall i | 0 <= i < |es| :: step.requires(es[i])
  {
    if es == [] then []
    else
      Gather(es[..|es| - 1], step) + (
        match step(es[|es| - 1])
        case None => []
        case Some(a) => [a])
  }

  /** How the loop extends by one entry. */
  lemma GatherStep<E, A>(es: seq<E>, i: nat, step: E --> Option<A>)
    requires i < |es| && forall i | 0 <= i < |es| :: step.requires(es[i])
    ensures Gather(es[..i + 1], step) == Gather(es[..i], step) + (
      match step(es[i])
      case None => []
      case Some(a) => [a])
  {
    assert es[..i + 1][..i] == es[..i];
  }

  /** The loop keeps exactly what the step yields, in entry order: each
      kept item comes from an entry, every item an entry yields is kept,
      and of two kept items the earlier comes from an earlier entry. */
  lemma {:induction false} GatherMembers<E, A>(es: seq<E>, step: E --> Option<A>)
    requires forall i | 0 <= i < |es| :: step.requires(es[i])
    ensures forall k | 0 <= k < |Gather(es, step)| :: exists i | 0 <= i < |es| :: step(es[i]) == Some(Gather(es, step)[k])
    ensures forall i | 0 <= i < |es| && step(es[i]).Some? :: step(es[i]).value in Gather(es, step)
    ensures forall k1, k2 | 0 <= k1 < k2 < |Gather(es, step)| :: exists i1, i2 | 0 <= i1 < i2 < |es| ::
      step(es[i1]) == Some(Gather(es, step)[k1]) && step(es[i2]) == Some(Gather(es, step)[k2])
  {
    if es == [] {
      assert Gather(es, step) == [];
    } else {
      var init, last := es[..|es| - 1], es[|es| - 1];
      assert forall i | 0 <= i < |init| :: init[i] == es[i];
      GatherMembers(init, step);
      var acts, r := Gather(init, step), Gather(es, step);
      assert r == acts + (if step(last).Some? then [step(last).value] else []);
      forall k | 0 <= k < |r| ensures exists i | 0 <= i < |es| :: step(es[i]) == Some(r[k]) {
        if k < |acts| {
          assert r[k] == acts[k];
          var i :| 0 <= i < |init| && step(init[i]) == Some(acts[k]);
          assert init[i] == es[i];
        } else {
          assert step(es[|es| - 1]) == Some(r[k]);
        }
      }
      forall k1, k2 | 0 <= k1 < k2 < |r| ensures exists i1, i2 | 0 <= i1 < i2 < |es| ::
        step(es[i1]) == Some(r[k1]) && step(es[i2]) == Some(r[k2])
      {
        assert r[k1] == acts[k1];
        var i1 :| 0 <= i1 < |init| && step(init[i1]) == Some(acts[k1]);
        assert init[i1] == es[i1];
        if k2 < |acts| {
          assert r[k2] == acts[k2];
          var j1, j2 :| 0 <= j1 < j2 < |init|
            && step(init[j1]) == Some(acts[k1]) && step(init[j2]) == Some(acts[k2]);
          assert init[j1] == es[j1] && init[j2] == es[j2];
        } else {
          assert step(es[|es| - 1]) == Some(r[k2]);
        }
      }
    }
  }

  /** A loop whose every step yields nothing keeps nothing. */
  lemma {:induction false} GatherNone<E, A>(es: seq<E>, step: E --> Option<A>)
    requires forall i | 0 <= i < |es| :: step.requires(es[i]) && step(es[i]).None?
    ensures Gather(es, step) == []
  {
    if es != [] {
      var init := es[..|es| - 1];
      assert forall i | 0 <= i < |init| :: init[i] == es[i];
      GatherNone(init, step);
    }
  }

  /** The step of the scan loop. */
  function FileStep(root: Path, store: map<Path, AudioTags>): Entry --> Option<MetadataAction> {
    (e: Entry) requires e.kind == RegularFile ==> e.path in store => PlanFile(root, store, e)
  }

  /** `gather_metadata_actions`, with `rglob` replaced by the entry
      sequence it yields: the actions in scan order. */
  function MetadataPlan(root: Path, store: map<Path, AudioTags>, es: seq<Entry>): seq<MetadataAction>
    requires Readable(es, store)
  {
    Gather(es, FileStep(root, store))
  }

  /** A planned action names the file it was planned for. */
  lemma PlanFileNames(root: Path, store: map<Path, AudioTags>, e: Entry)
    requires e.kind == RegularFile ==> e.path in store
    ensures PlanFile(root, store, e).Some? ==>
      e.kind == RegularFile && PlanFile(root, store, e).value.filePath == e.path
  {
  }

  /** The action planned for a file, if any: only for audio files in the
      layout; it names the file, records the tags read for the seven keys,
      and asks for exactly those derived tags whose current value differs. */
  lemma PlanFileOutcome(root: Path, store: map<Path, AudioTags>, e: Entry)
    requires e.kind == RegularFile ==> e.path in store
    ensures var r := PlanFile(root, store, e);
      r.Some? <==>
        && IsAudioFile(e) && DeriveMetadata(root + e.path).Some?
        && exists k | k in TagKeys :: Get(CurrentTags(store[e.path], TagKeys), k) != DeriveMetadata(root + e.path).value[k]
    ensures var r := PlanFile(root, store, e);
      r.Some? ==>
        var derived := DeriveMetadata(root + e.path).value;
        && r.value.filePath == e.path
        && r.value.current == CurrentTags(store[e.path], TagKeys)
        && (forall k :: k in r.value.updates <==> k in TagKeys && Get(r.value.current, k) != derived[k])
        && (forall k | k in r.value.updates :: r.value.updates[k] == derived[k] && r.value.updates[k] != "")
  {
    if IsAudioFile(e) && DeriveMetadata(root + e.path).Some? {
      var derived := DeriveMetadata(root + e.path).value;
      var current := CurrentTags(store[e.path], TagKeys);
      PlanFileOnLayout(root, store, e);
      DeriveMetadataKeys(root + e.path);
      EffectiveUpdatesSpec(derived, current);
    }
  }

  /** For an audio file in the layout, the plan reads the seven keys and
      keeps the differing ones. */
  lemma PlanFileOnLayout(root: Path, store: map<Path, AudioTags>, e: Entry)
    requires e.kind == RegularFile ==> e.path in store
    requires IsAudioFile(e) && DeriveMetadata(root + e.path).Some?
    ensures var derived := DeriveMetadata(root + e.path).value;
      var current := CurrentTags(store[e.path], TagKeys);
      PlanFile(root, store, e)
        == if EffectiveUpdates(derived, current) == map[] then None
           else Some(MetadataAction(e.path, EffectiveUpdates(derived, current), current))
  {
    DeriveMetadataKeys(root + e.path);
  }

  /** The effective updates are the wanted tags whose current value differs;
      there are none exactly when every wanted tag already agrees. */
  lemma EffectiveUpdatesSpec(updates: map<string, string>, current: map<string, string>)
    ensures forall k :: k in EffectiveUpdates(updates, current) <==> k in updates && Get(current, k) != updates[k]
    ensures forall k | k in EffectiveUpdates(updates, current) :: EffectiveUpdates(updates, current)[k] == updates[k]
    ensures EffectiveUpdates(updates, current) == map[] <==> forall k | k in updates :: Get(current, k) == updates[k]
  {
    if k :| k in updates && Get(current, k) != updates[k] {
      assert k in EffectiveUpdates(updates, current);
    }
  }

  /** Every action of `acts` is the one some entry asks for. */
  ghost predicate AllPlanned(root: Path, store: map<Path, AudioTags>, es: seq<Entry>, acts: seq<MetadataAction>)
    requires Readable(es, store)
  {
    forall k | 0 <= k < |acts| :: exists i | 0 <= i < |es| :: PlanFile(root, store, es[i]) == Some(acts[k])
  }

  /** Every action an entry asks for is in `acts`. */
  ghost predicate NonePassedOver(root: Path, store: map<Path, AudioTags>, es: seq<Entry>, acts: seq<MetadataAction>)
    requires Readable(es, store)
  {
    forall i | 0 <= i < |es| && PlanFile(root, store, es[i]).Some? :: PlanFile(root, store, es[i]).value in acts
  }

  /** Of two actions of `acts`, the earlier is asked for by an earlier entry. */
  ghost predicate InScanOrder(root: Path, store: map<Path, AudioTags>, es: seq<Entry>, acts: seq<MetadataAction>)
    requires Readable(es, store)
  {
    forall k1, k2 | 0 <= k1 < k2 < |acts| :: exists i1, i2 | 0 <= i1 < i2 < |es| ::
      PlanFile(root, store, es[i1]) == Some(acts[k1]) && PlanFile(root, store, es[i2]) == Some(acts[k2])
  }

  /** The step of the plan is `PlanFile`. */
  lemma FileStepIs(root: Path, store: map<Path, AudioTags>, e: Entry)
    requires e.kind == RegularFile ==> e.path in store
    ensures FileStep(root, store)(e) == PlanFile(root, store, e)
  {
  }

  /** Every planned action is one an entry asks for. */
  lemma MetadataPlanFrom(root: Path, store: map<Path, AudioTags>, es: seq<Entry>)
    requires Readable(es, store)
    ensures AllPlanned(root, store, es, MetadataPlan(root, store, es))
  {
    var step := FileStep(root, store);
    var r := MetadataPlan(root, store, es);
    GatherMembers(es, step);
    forall k | 0 <= k < |r| ensures exists i | 0 <= i < |es| :: PlanFile(root, store, es[i]) == Some(r[k]) {
      var i :| 0 <= i < |es| && step(es[i]) == Some(r[k]);
      FileStepIs(root, store, es[i]);
    }
  }

  /** Every action an entry asks for is planned. */
  lemma MetadataPlanComplete(root: Path, store: map<Path, AudioTags>, es: seq<Entry>)
    requires Readable(es, store)
    ensures NonePassedOver(root, store, es, MetadataPlan(root, store, es))
  {
    var step := FileStep(root, store);
    GatherMembers(es, step);
    forall i | 0 <= i < |es| && PlanFile(root, store, es[i]).Some?
      ensures PlanFile(root, store, es[i]).value in MetadataPlan(root, store, es)
    {
      FileStepIs(root, store, es[i]);
    }
  }

  /** Planned actions keep the order of the entries that ask for them. */
  lemma MetadataPlanOrdered(root: Path, store: map<Path, AudioTags>, es: seq<Entry>)
    requires Readable(es, store)
    ensures InScanOrder(root, store, es, MetadataPlan(root, store, es))
  {
    forall k1, k2 | 0 <= k1 < k2 < |MetadataPlan(root, store, es)|
      ensures exists i1, i2 | 0 <= i1 < i2 < |es| ::
        && PlanFile(root, store, es[i1]) == Some(MetadataPlan(root, store, es)[k1])
        && PlanFile(root, store, es[i2]) == Some(MetadataPlan(root, store, es)[k2])
    {
      OrderedPair(root, store, es, k1, k2);
    }
  }

  lemma OrderedPair(root: Path, store: map<Path, AudioTags>, es: seq<Entry>, k1: nat, k2: nat)
    requires Readable(es, store) && k1 < k2 < |MetadataPlan(root, store, es)|
    ensures exists i1, i2 | 0 <= i1 < i2 < |es| ::
      && PlanFile(root, store, es[i1]) == Some(MetadataPlan(root, store, es)[k1])
      && PlanFile(root, store, es[i2]) == Some(MetadataPlan(root, store, es)[k2])
  {
    var step := FileStep(root, store);
    var r := MetadataPlan(root, store, es);
    GatherMembers(es, step);
    var i1, i2 :| 0 <= i1 < i2 < |es| && step(es[i1]) == Some(r[k1]) && step(es[i2]) == Some(r[k2]);
    FileStepIs(root, store, es[i1]);
    FileStepIs(root, store, es[i2]);
  }

  /** No two planned actions name the same file. */
  predicate DistinctFiles(acts: seq<MetadataAction>) {
    forall i, j | 0 <= i < j < |acts| :: acts[i].filePath != acts[j].filePath
  }

  /** A scan that lists each path once plans each file at most once. */
  lemma MetadataPlanDistinct(root: Path, store: map<Path, AudioTags>, es: seq<Entry>)
    requires Readable(es, store) && DistinctPaths(es)
    ensures DistinctFiles(MetadataPlan(root, store, es))
  {
    MetadataPlanOrdered(root, store, es);
    var r := MetadataPlan(root, store, es);
    forall k1, k2 | 0 <= k1 < k2 < |r| ensures r[k1].filePath != r[k2].filePath {
      var i1, i2 :| 0 <= i1 < i2 < |es|
        && PlanFile(root, store, es[i1]) == Some(r[k1]) && PlanFile(root, store, es[i2]) == Some(r[k2]);
      PlanFileOutcome(root, store, es[i1]);
      PlanFileOutcome(root, store, es[i2]);
    }
  }

  /** `gather_metadata_actions`: one loop over the scanned entries. */
  method GatherMetadataActions(root: Path, store: map<Path, AudioTags>, entries: seq<Entry>)
    returns (actions: seq<MetadataAction>)
    requires Readable(entries, store)
    ensures actions == MetadataPlan(root, store, entries)
  {
    TagKeyOrderKeys();
    actions := [];
    for i := 0 to |entries|
      invariant actions == MetadataPlan(root, store, entries[..i])
    {
      GatherStep(entries, i, FileStep(root, store));
      var e := entries[i];
      assert FileStep(root, store)(e) == PlanFile(root, store, e);
      if !IsAudioFile(e) {
        continue;
      }
      var updates := DeriveMetadata(root + e.path);
      if updates.None? {
        continue;
      }
      DeriveMetadataKeys(root + e.path);
      var current := ReadCurrentTags(store[e.path], TagKeyOrder);
      var effective := EffectiveUpdates(updates.value, current);
      if effective == map[] {
        continue;
      }
      actions := actions + [MetadataAction(e.path, effective, current)];
    }
    assert entries[..|entries|] == entries;
  }
}

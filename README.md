# prep_files in Dafny

A model of the core of `prep_files.py`, a tool that gets a music library ready for a player. It does two jobs:

- It renames album folders written `YYYY - Album` and track files written `N - Title` to a normalized form. The defaults are `Album (YYYY)` and `NN Title`.
- It writes the album, date, year, track number and artist tags that the layout `Artist/Album (YYYY)/NN Title.ext` implies into each audio file.

The model keeps the tool's three layers, each in the source's own form.

- **Naming rules** are pure functions.
  - `Text`, `Paths` and `Patterns` model the pieces of Python the rules rely on:
    - `str.strip`, `str.lower`, `int()` and `{track:02d}`;
    - `pathlib`'s `name`, `parent`, `stem`, `suffix` and `with_name`;
    - the four regular expressions, each written as a character-level matcher and proved equal to an index-based description of what the expression matches.
  - `Naming` holds `normalized_album_name` and `normalized_track_name`, over a small template language: literal text, `{album}`, `{year}`, `{track}` padded to a width, `{title}`.
  - `TagRules` holds `is_audio_file` and `derive_metadata_for_file`.
  - `Prompt` holds the `y`/`yes` confirmation test.
- **Planners** are methods with loops over the sequence of entries a scan yields. Each method is proved equal to a specification function. The properties of those functions are proved as lemmas.
  - `RenamePlanner` covers `gather_rename_actions`: two passes, files and then folders. A `with_name` error is a `Failure`.
  - `MetadataPlanner` covers `read_current_tags` and `gather_metadata_actions`. A file's tags are a map from key to a list, a string or another value. A format the tag library cannot open is `Unsupported`.
- **Apply engines** are methods that change state in place.
  - `RenameEngine.ApplyRenameActions` renames paths in a `FileSystem` object whose state is the set of paths below the scan root. Renaming a folder moves everything inside it.
  - `MetadataEngine.ApplyMetadataActions` saves tags into a `TagStore` object that maps each file to its tags.
  - Both carry out the actions in the source's order and count what they did. Both are proved against a replay function of the old state.
- `Sorting` is the stable sort that Python's `sorted` stands for: an insertion sort keyed by a strict total order. It is proved to give a sorted permutation that keeps equal keys in their original order.

Paths are sequences of segments relative to the scan root. The scan root is the empty path. `str(path)` joins the segments with `/`. Python's string order is the lexicographic order on characters.

The rule at prep_files.py:228 is `\d{2}` followed by `\b`. A stem such as `100 Title` therefore yields no track number, not `10`. The model follows the code (`Patterns.TrackPrefix`).

## Model

| member | source | states |
|---|---|---|
| `Text.StripSpec` | prep_files.py:60 | `strip()` returns a slice of the input. Only whitespace is dropped on either side. The result is empty exactly when the input is all whitespace, and otherwise starts and ends with a non-space. |
| `Text.StripSpacePrefix` | prep_files.py:79 | Leading whitespace does not change what `strip()` returns. |
| `Text.LowerMatches` | prep_files.py:196 | Lower-casing and comparing with a lower-case word is a case-insensitive comparison. |
| `Text.DecimalString` | prep_files.py:78 | The decimal text of `int(...)` is all digits, has no leading zero, and reads back as the same number. |
| `Text.ZeroPad` | prep_files.py:80 | `{track:02d}` pads with zeros to the width and keeps the digits' value. |
| `Prompt.Confirmed` | prep_files.py:196-197 | An answer confirms exactly when, stripped, it is `y` or `yes` in any case. |
| `Prompt.ConfirmedIgnoresPadding` | prep_files.py:196 | Whitespace around the answer does not change the decision. |
| `Prompt.BlankAnswerDeclines` | prep_files.py:196-197 | An empty or blank answer declines. This is the `[y/N]` default. |
| `Paths.Parent` | prep_files.py:250-251 | A non-root path is its parent plus its name. |
| `Paths.Suffix` | prep_files.py:96 | There is a suffix exactly when the name's last dot is neither its first nor its last character. The suffix is then a `.` followed by at least one character and no further dot; otherwise it is empty. |
| `Paths.Stem` | prep_files.py:92 | Stem followed by suffix gives back the name. |
| `Paths.WithNameChecked` | prep_files.py:115 | `with_name` succeeds exactly for a named path and a valid single segment. The result has the same parent and the new name. |
| `Paths.StrLessIsStrictTotalOrder` | prep_files.py:162 | String comparison is irreflexive, transitive and total, so sorting by it is well defined. |
| `Patterns.DashRestSound` | prep_files.py:30 | The matcher for `\s*-\s*(.+)$` returns a field only when the tail has that shape. |
| `Patterns.DashRestComplete` | prep_files.py:30 | Every way the tail can match yields the same stripped field, which is the one the matcher returns. |
| `Patterns.AlbumDirFieldsExact` | prep_files.py:30 | The folder matcher for `^(\d{4})\s*-\s*(.+)$` returns fields exactly when the name matches, and returns the fields of every match. |
| `Patterns.AlbumDirOfParts` | prep_files.py:30 | `YYYY`, spaces, `-`, spaces, album gives that year and that album. |
| `Patterns.TrackFileFieldsExact` | prep_files.py:31 | The stem matcher for `^(\d{1,3})\s*-\s*(.+)$` returns fields exactly when the stem matches. |
| `Patterns.TrackFileComplete` | prep_files.py:31 | Every match with 1 to 3 leading digits yields the number those digits spell and the stripped title. |
| `Patterns.TrackFileOfParts` | prep_files.py:31 | Digits, spaces, `-`, spaces, title gives that number and that title. |
| `Patterns.AlbumYearFieldsExact` | prep_files.py:227 | The matcher for `^(.+?)\s*\((\d{4})\)$` returns fields exactly when the name matches, and returns the fields of every match. |
| `Patterns.AlbumYearComplete` | prep_files.py:227 | The lazy album group yields the stripped text before the `(YYYY)` that ends the name. |
| `Patterns.AlbumYearOfParts` | prep_files.py:227 | Album, spaces, `(YYYY)` gives that album and that year. |
| `Patterns.TrackPrefix` | prep_files.py:228 | A track number is found exactly when the stem starts with two digits followed by a word boundary, and it is those two digits. |
| `Naming.DefaultAlbumRendering` | prep_files.py:448 | The default album template renders `album (year)`. |
| `Naming.DefaultTrackRendering` | prep_files.py:453 | The default track template renders the number padded to two digits, a space and the title. |
| `Naming.NormalizedAlbumName` | prep_files.py:49-63 | For a matching name, the result is the rendered template, or None when that equals the name. A result always differs from the name and comes from a match. |
| `Naming.NormalizedTrackName` | prep_files.py:66-81 | The same for a stem, rendering the parsed number and the stripped title. |
| `Naming.AlbumRuleRenames` | prep_files.py:49-63 | `YYYY - Album` becomes `Album (YYYY)` under the default template, for every clean album field. |
| `Naming.TrackRuleRenames` | prep_files.py:66-81 | `N - Title` becomes `NN Title` under the default template, for every clean title, `1 - -x` included. |
| `Naming.TrackRuleCollides` | prep_files.py:77-80 | Two different stems whose digits spell the same number, such as `1 - X` and `01 - X`, get the same new stem. |
| `Naming.TrackRuleRejectsLongNumbers` | prep_files.py:31 | A stem starting with four digits is left alone under any template. |
| `Naming.AlbumOutputNoMatch` | prep_files.py:30 | `Album (YYYY)` does not match the folder pattern unless the album itself starts with `YYYY -`. |
| `Naming.TrackOutputNoMatch` | prep_files.py:31 | For any track number, `NN Title` does not match the track pattern unless the title starts with `-` or with whitespace. |
| `Naming.AlbumRuleIdempotent` | prep_files.py:49-63 | With the default template, applying the folder rule to its own output gives None, for an album not starting with `YYYY -`. |
| `Naming.TrackRuleIdempotent` | prep_files.py:66-81 | With the default template, applying the track rule to its own output gives None, for a title not starting with `-`. |
| `Naming.TrackRuleDashTitleCounterexample` | prep_files.py:66-81 | The title condition is needed: `1 - -x` becomes `01 -x`, which becomes `01 x`. |
| `Naming.AlbumRuleYearAlbumCounterexample` | prep_files.py:49-63 | The album condition is needed: `Y1 - Y2 - x` becomes `Y2 - x (Y1)`, which is renamed again. |
| `TagRules.IsAudioFile` | prep_files.py:238-239 | A file is audio exactly when it is a regular file whose suffix equals an allowed extension, ignoring case. |
| `TagRules.DeriveMetadata` | prep_files.py:242-277 | Tags are derived exactly when the parent matches `Album (YYYY)` with a non-empty album, the stem starts with a two-digit track number, and the stripped grandparent name is non-empty. |
| `TagRules.DeriveMetadataTags` | prep_files.py:261-277 | The derived tags:<br>• have exactly the seven keys, none empty;<br>• album and year are the folder's fields, and date equals year;<br>• the track number is the stem's first two digits;<br>• artist, album artist and author are the stripped grandparent name. |
| `TagRules.DeriveMetadataKeys` | prep_files.py:269-277 | The derived tags have exactly the seven keys, none of them empty. |
| `TagRules.DeriveFromLayout` | prep_files.py:244-248 | `Artist/Album (YYYY)/NN Title.ext` gives album `Album`, date and year `YYYY`, track `NN`, and the stripped artist. |
| `RenamePlanner.NewNameDiffers` | prep_files.py:92-97 | A wanted name is never the current name. |
| `RenamePlanner.PlanNamedOutcome` | prep_files.py:96-104 | Once an entry has a wanted name other than its own, it fails exactly when `with_name` rejects that name. Otherwise it is renamed in place to that name. |
| `RenamePlanner.PlanEntryOutcome` | prep_files.py:88-104 | One entry of a pass:<br>• it is skipped when it is of the other kind or the rule leaves it alone;<br>• it fails exactly when the wanted name is not a valid segment;<br>• otherwise it becomes a rename of itself, within its own folder, to the wanted name. |
| `RenamePlanner.FileRenameKeepsSuffix` | prep_files.py:96 | A file rename's new name ends with the old suffix. |
| `RenamePlanner.PassOutcome` | prep_files.py:88-104 | A pass succeeds exactly when every entry does. |
| `RenamePlanner.PassContents` | prep_files.py:88-104 | A successful pass holds exactly the actions its entries ask for. Each action is well formed, of the pass's kind, and renames a scanned entry of that kind. |
| `RenamePlanner.PassDistinct` | prep_files.py:88-104 | A scan listing each path once gives a pass that renames each source at most once. |
| `RenamePlanner.RenamePlanOutcome` | prep_files.py:84-125 | Planning succeeds exactly when both passes succeed on every entry. |
| `RenamePlanner.RenamePlanShape` | prep_files.py:84-125 | A plan holds exactly the file and folder renames the entries ask for. Each one:<br>• changes the name;<br>• keeps the parent and the depth;<br>• comes after no folder rename if it is a file rename. |
| `RenamePlanner.RenamePlanDistinct` | prep_files.py:84-125 | No two planned actions share a source. |
| `RenamePlanner.PassSourcesApart` | prep_files.py:88-123 | No file rename shares a source with a folder rename. |
| `RenamePlanner.DefaultNewNameValid` | prep_files.py:96 | With the default templates, a validly named entry always gets a valid new name. |
| `RenamePlanner.DefaultPlanSucceeds` | prep_files.py:84-125 | With the default templates, planning never fails. |
| `RenamePlanner.GatherFileRenames` | prep_files.py:88-104 | The file loop returns the file pass. |
| `RenamePlanner.GatherDirRenames` | prep_files.py:107-123 | The folder loop returns the folder pass. |
| `RenamePlanner.GatherRenameActions` | prep_files.py:84-125 | The two loops together return the plan: the file pass followed by the folder pass, or the first failure. |
| `Sorting.SortBy` | prep_files.py:162-167 | `sorted` returns a permutation of its input. |
| `Sorting.SortBySorted` | prep_files.py:162-167 | Under a strict total order on keys, the result is in ascending key order. |
| `Sorting.SortByStable` | prep_files.py:163-167 | Elements with equal keys keep their original relative order, as Python's `sorted` guarantees. |
| `RenameEngine.FileSystem.Rename` | prep_files.py:181 | `rename()` moves the source and everything inside it to the same place inside the target. |
| `RenameEngine.ApplyRenameActions` | prep_files.py:153-185 | The new tree is the old tree with the actions replayed in apply order. Each action:<br>• is skipped if its source is missing;<br>• is skipped if its target exists;<br>• is renamed otherwise.<br>The returned count is the number of renames. |
| `RenameEngine.CountRenamed` | prep_files.py:182 | The count is at most the number of outcomes. It equals that number exactly when every action was renamed. |
| `RenameEngine.ApplyOrderPermutation` | prep_files.py:162-169 | The apply order is a permutation of the actions. |
| `RenameEngine.ApplyOrderKinds` | prep_files.py:162-169 | All file renames come first, then all folder renames. |
| `RenameEngine.ApplyOrderFilesSorted` | prep_files.py:162 | File renames are in ascending order of their source text. |
| `RenameEngine.ApplyOrderDirsSorted` | prep_files.py:163-167 | Folder renames are deepest first. Folders of equal depth keep their plan order (stable `reverse=True`). |
| `RenameEngine.ApplyOrderDepths` | prep_files.py:163-167 | After the files, sources never get deeper. |
| `RenameEngine.MovedSpec` | prep_files.py:181 | After a rename, a path exists exactly when:<br>• it lies inside the target and its counterpart inside the source existed; or<br>• it lies outside both and existed before. |
| `RenameEngine.TreeMoved` | prep_files.py:181 | Renaming an existing entry to a free name in its own folder keeps the paths a well-formed tree. |
| `RenameEngine.RenameStep` | prep_files.py:170-183 | A skipped action leaves the tree unchanged. A performed one:<br>• starts from an existing source and a free target;<br>• keeps every path outside the source;<br>• overwrites nothing. |
| `RenameEngine.AppliedAtMost` | prep_files.py:153-185 | The returned count never exceeds the number of actions. |
| `RenameEngine.ReplayKeepsTree` | prep_files.py:169-183 | Carrying out well-formed actions keeps the paths a tree. |
| `RenameEngine.AllRenamed` | prep_files.py:169-185 | In an order where no action gets in the way of a later one, and with every source existing and every target free, every action is renamed. |
| `RenameEngine.ApplyOrderUnobstructed` | prep_files.py:156-167 | Files first, then folders deepest first, leaves no action in the way of a later one. This needs sources and targets distinct and nothing renamed inside a file. |
| `RenameEngine.ApplyRenamesAll` | prep_files.py:153-185 | Under those conditions every action is carried out, and the count equals the number of actions. |
| `RenameEngine.PlanThenApply` | prep_files.py:84-185 | Applying a successful plan for a scan of a tree renames every planned entry, when targets are free and distinct. |
| `RenameEngine.NoSourceMissing` | prep_files.py:169-175 | When every source exists and no earlier source holds a later one, no action is skipped for a missing source, whatever the targets. |
| `RenameEngine.ApplyOrderSourcesApart` | prep_files.py:162-167 | Files first, then folders deepest first, never puts a source before a later source it holds. This needs distinct sources and nothing renamed inside a file. |
| `RenameEngine.PlanNeverSourceMissing` | prep_files.py:84-185 | Applying a successful plan for a scan of a tree skips no action for a missing source. Targets may exist already or be shared, as in `TrackRuleCollides`; those actions are skipped for an existing target instead. |
| `RenameEngine.TargetKept` | prep_files.py:177-181 | One rename from a free target leaves another action's target free or taken as it was, when the two targets differ and a taken target lies outside the moved source. |
| `RenameEngine.TargetsStay` | prep_files.py:169-183 | Before each step, every pending target is taken exactly when it was taken in the original tree. This needs sources apart, targets distinct, and no taken target at or inside a source. |
| `RenameEngine.RenamedIffFree` | prep_files.py:169-183 | Under those conditions, with every source existing, an action is renamed exactly when its target was free to begin with. Otherwise it is skipped for an existing target. |
| `RenameEngine.TakenTargetsReordered` | prep_files.py:162-169 | Reordering the actions keeps their shape, their sources in the tree, and taken targets outside every source. |
| `RenameEngine.ApplyOrderRenamesFree` | prep_files.py:156-183 | In the apply order, an action is renamed exactly when its target was free, for distinct sources and targets, nothing renamed inside a file, and no taken target at or inside a source. |
| `RenameEngine.PlanRenamesFreeTargets` | prep_files.py:84-185 | Applying a successful plan for a scan of a tree renames exactly the planned entries whose target is free. The rest are skipped. This needs distinct targets, and no taken target at or inside any source. |
| `RenameEngine.FolderFirstLosesFile` | prep_files.py:156-169 | For a folder `2001 - A` holding `1 - x.mp3`, renaming the folder before the file leaves the file rename without its source. |
| `RenameEngine.PairApplyOrder` | prep_files.py:162-169 | For that pair, `apply_rename_actions` takes the file first. |
| `RenameEngine.FileFirstRenamesBoth` | prep_files.py:169-183 | Taking the file first carries out both renames. |
| `RenameEngine.ApplyOrderMatters` | prep_files.py:156-183 | On that pair, the apply order the source uses skips nothing for a missing source, while renaming the folder first does. |
| `RenameEngine.SharedTargetSkipped` | prep_files.py:177-179 | Of two actions with the same target, the later one is skipped and does not overwrite the first. |
| `MetadataPlanner.ReadCurrentTags` | prep_files.py:286-298 | The read loop returns the current-tag map for the wanted keys. |
| `MetadataPlanner.CurrentTagsSpec` | prep_files.py:286-298 | The current-tag map:<br>• is `{}` for an unsupported file;<br>• only holds wanted keys;<br>• a list gives its first item or `""`, a string gives itself, any other value leaves the key out. |
| `MetadataPlanner.EffectiveUpdatesSpec` | prep_files.py:313 | The effective updates are exactly the wanted pairs whose current value, `""` when missing, differs. They are empty exactly when nothing differs. |
| `MetadataPlanner.PlanFileOutcome` | prep_files.py:304-323 | A file gets an action exactly when it is audio, its tags derive, and some derived tag differs. The action:<br>• names the file;<br>• records the tags read;<br>• asks for exactly the differing tags, each with its derived non-empty value. |
| `MetadataPlanner.MetadataPlanFrom` | prep_files.py:301-325 | Every planned action is one an entry asks for. |
| `MetadataPlanner.MetadataPlanComplete` | prep_files.py:301-325 | Every action an entry asks for is planned. |
| `MetadataPlanner.MetadataPlanOrdered` | prep_files.py:301-325 | Planned actions keep the order of the entries that ask for them. |
| `MetadataPlanner.MetadataPlanDistinct` | prep_files.py:301-325 | A scan listing each path once plans each file at most once. |
| `MetadataPlanner.GatherMetadataActions` | prep_files.py:301-325 | The scan loop returns the plan. |
| `MetadataEngine.TagStore.Save` | prep_files.py:358-361 | Saving sets each planned key of the file to a one-item list and changes nothing else. |
| `MetadataEngine.ApplyAll` | prep_files.py:351-363 | Carrying out actions keeps the set of files. It never changes whether the library can open a file, and a file no action names is left alone. |
| `MetadataEngine.CountSupported` | prep_files.py:353-362 | The count is at most the number of actions. It equals that number exactly when every file named is one the library can open. |
| `MetadataEngine.MetadataOrderSpec` | prep_files.py:351 | The apply order holds the same actions, sorted by path text. |
| `MetadataEngine.ApplyMetadataActions` | prep_files.py:348-365 | The new tags are the old ones with the actions applied in path order. Unsupported files are skipped. The count is the number of supported files. |
| `MetadataEngine.WrittenReadsBack` | prep_files.py:358-359 | Reading after a write gives the written values for the written keys, and what was read before for every other key. |
| `MetadataEngine.ApplyAllAt` | prep_files.py:351-363 | When actions name distinct files, each file ends up saved with its own action. |
| `MetadataEngine.SettledFile` | prep_files.py:313-315 | A file whose tags all read as derived gets no action. |
| `MetadataEngine.SavedSettles` | prep_files.py:358-361 | After its action is saved, a supported file's tags all read as derived. |
| `MetadataEngine.OrderDistinct` | prep_files.py:351 | The apply order of a plan names distinct files. |
| `MetadataEngine.AfterPlan` | prep_files.py:348-365 | The files after a plan is applied form a store with the same files, still readable by the scan. |
| `MetadataEngine.PlanApplySettles` | prep_files.py:301-365 | After a plan is applied, a rescan plans only files the library cannot open. |
| `MetadataEngine.PlanApplyIdempotent` | prep_files.py:301-365 | When every planned file can be opened, applying the plan saves every action, and a rescan plans nothing. |

## Left out

- Directory traversal is not modelled. `rglob`, `is_file` and `is_dir` become a sequence of entries, each a relative path and a kind. Both rename passes, and a rescan, see the same sequence. Its order is whatever the scan gives.
- The tag library (`mutagen.File`, `save()`) is not modelled. It becomes a map from file to tags, with `Unsupported` for formats it cannot open.
  - Exceptions raised on a missing or unreadable file, or while saving, are not modelled. The `Readable` and `Present` premises say every file named is in the store. The `try`/`except` blocks at prep_files.py:373-394 are out.
- The dependency probe (`find_spec`), the two previews, the command line, `input()` and the messages printed are not modelled. Only the `y`/`yes` test is kept, in `Prompt.Confirmed`.
- Templates are limited to literal text, `{album}`, `{year}`, `{title}` and `{track}` padded with zeros to a width. Other `str.format` features are not modelled. A template naming an unknown field, which raises `KeyError`, cannot be written.
- `\s`, `\d`, `\w`, `\b`, `strip()` and `lower()` are modelled on ASCII only. Unicode digits, spaces and case mappings are not.
- `stem` and `suffix` follow the rule where the last dot starts the suffix, unless it is the first or the last character of the name.
- The file system is the set of paths below the scan root, with the root always existing.
  - A rename the operating system refuses (permissions, a missing folder on the way, a different device) is not modelled.
  - Case-insensitive name comparison is not modelled.
  - Windows path text (`\` separators) is not modelled. Metadata actions are sorted by the `/`-joined text.
- `read_current_tags` visits the keys in the order the derived dictionary lists them. The result does not depend on that order.
- `MetadataEngine.PlanApplyIdempotent` assumes the rescan sees the same entries and that the library can open every planned file. For files it cannot open, `MetadataEngine.PlanApplySettles` states what remains.

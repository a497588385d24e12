# knife-uploader reconciliation engine in Dafny

knife-uploader is a set of knife plugins that keep a Chef server in step with
a Chef repository checkout. Each command compares what the server holds with
what the checkout holds, shows the differences, and in upload mode writes the
local version to the server. This project models the deterministic core of
those commands and proves what they do:

- **Canonical JSON** (`Utils`, module `Utils`, file `utils.dfy`). Hash keys are
  sorted at every nesting level before rendering. Two values that differ only
  in the key order of their hashes, at any nesting level, therefore give the
  same text, and textual equality can stand in for structural equality.
- **Configuration and the repository checkout** (`BaseCommand`, module `Base`,
  file `base.dfy`):
  - `locate_config_value` and the default identifier pattern;
  - the scan of the cookbook paths and their parents for the last Chef
    repository checkout, memoised in the class field `chefRepoPath`.
- **Data bags** (`UploaderDataBagCommand`, module `DataBag`, file
  `data_bag.dfy`):
  - the encryption-aware three-outcome comparison of two item versions;
  - the item-file rules (file name and id, the two load modes);
  - `set_data_bag_items`: two loops that update the server from the local
    files and build the processed, ignored and updated id sets;
  - `diff_data_bag_item_files`: pairing the items of two local bags and
    comparing them.
- **Run lists** (`UploaderRunListCommand`, module `RunList`, file
  `run_list.dfy`). Nodes are selected by name pattern and environment. Each
  selected node gets the concatenation of the run lists of every rule whose
  regex `/\A#{rule}\Z/` matches its name, and upload mode saves it. The rule
  text is interpolated without grouping, so a rule such as `web|db` matches
  any name that starts with `web`.
- **The legacy copy** (`KnifeSafeUpload` in `safeupload.rb`, module `Legacy`,
  file `legacy.dfy`). This is an older version of the same engine. It has:
  - no pattern;
  - whole-item decryption;
  - a simpler configuration lookup;
  - a `get_cookbooks_path` with three required sub-directories;
  - no handling of a missing bag or an empty pairing.

  Where its code is the same as the engine's, it is modelled by the engine's
  definitions used with the pattern that selects everything.

The model takes the place of the outside world as follows:

- **Chef server**: `Store.RemoteStore`, a class holding the data bags and the
  nodes. Each server call is a method that updates them and appends to a
  ghost log of writes.
- **Local files**: a `FileSystem` value holding a set of directories and a map
  from file path to parsed JSON contents.
- **Values passed in as parameters**:
  - the JSON renderer (`JSON.pretty_generate`);
  - the decryption of a value (`decrypt_value`) or of a whole item
    (`decrypt`), as partial functions;
  - the regex engine compiling the identifier pattern (`Regexp.new`): a
    search predicate, or the `RegexpError` message;
  - the regex engine answering `name =~ /\A#{rule}\Z/` for a rule text and a
    node name: whether it matches, or the `RegexpError` message;
  - the parent-directory function `File.expand_path('..', path)`.

A method that returns `Err(message)` stands for a Ruby exception with that
message.

Each loop of the source is a Dafny loop proved against a reference function
over the same iteration order. Examples:

- `Pass` and `CreatePass` for the two loops of `set_data_bag_items`;
- `PairPass` for the pairing loops;
- `MergedRunList` for the run-list merge.

Lemmas then relate each reference function to a set-level specification of
the final outcome. Examples:

- `Matched`, `Ignored`, `ToUpdate`, `LocalOnly` and `Reconciled` for data bags;
- `ToCompare` for the pairing;
- `Selected` and `RunListsSet` for run lists.

## Model

| member | source | states |
|---|---|---|
| Utils.SortHashKeys | lib/chef/knife/uploader_base.rb:75-77 | the result holds exactly the same key/value pairs (same multiset), values untouched |
| Utils.SortHashKeysSorted | lib/chef/knife/uploader_base.rb:75-77 | the top-level keys of the result are in ascending order |
| Utils.SortHashKeysUnique | lib/chef/knife/uploader_base.rb:75-77 | sorting a hash with distinct keys keeps the keys distinct |
| Utils.InsertEntry | lib/chef/knife/uploader_base.rb:76 | one step of the key sort adds exactly the new pair to the sorted pairs |
| Utils.RecursiveSortHashKeys | lib/chef/knife/uploader_base.rb:79-87 | the result is canonical: keys in ascending order at every nesting level |
| Utils.RecursiveSortShape | lib/chef/knife/uploader_base.rb:79-87 | hashes stay hashes with the same keys and each value sorted recursively; arrays keep length and order with each element sorted; scalars are returned unchanged |
| Utils.CanonicalFixed | lib/chef/knife/uploader_base.rb:79-87 | a value that is already canonical is returned unchanged |
| Utils.RecursiveSortIdempotent | lib/chef/knife/uploader_base.rb:79-87 | sorting twice is the same as sorting once |
| Utils.SortedEntriesUnique | lib/chef/knife/uploader_base.rb:75-77 | two sorted hashes with distinct keys and the same pairs are identical |
| Utils.SameCanonicalEntries | lib/chef/knife/uploader_base.rb:79-87 | two hashes with distinct keys, the same keys and the same canonical value under each key sort to the same pairs |
| Utils.ReorderedSameCanonical | lib/chef/knife/uploader_base.rb:79-87 | two values that differ only in the key order of their hashes, at any nesting level (`SameUpToKeyOrder`), have the same canonical form |
| Utils.ReorderedSameText | lib/chef/knife/uploader_base.rb:89-91 | two values that differ only in the key order of their hashes, at any nesting level, give identical `json_with_sorted_keys` text |
| Utils.JsonWithSortedKeys | lib/chef/knife/uploader_base.rb:89-91 | the text always ends in a newline |
| Strings.Insert | lib/chef/knife/uploader_data_bag.rb:120 | inserting a new id into a sorted id list keeps it strictly sorted and adds exactly that id |
| Strings.StrictlySortedUnique | lib/chef/knife/uploader_data_bag.rb:120 | there is one strictly ascending ordering of a set of ids |
| Strings.SortedPrefix | lib/chef/knife/uploader_run_list.rb:23 | in a strictly ascending list of names, the names before position `i` are exactly those below the `i`-th |
| Strings.SortedIds | lib/chef/knife/uploader_data_bag.rb:120 | the ids are listed once each, in ascending order |
| Base.LocateConfigValue | lib/chef/knife/uploader_base.rb:146-154 | an unknown kind fails; a truthy command value wins, else the knife value; `:required` fails exactly when both resolve to nil; `:optional` never fails |
| Base.RubyClassName | lib/chef/knife/uploader_base.rb:126 | the name Ruby's `TypeError` gives a value: `nil` exactly for nil, `String` exactly for strings, `Array` exactly for arrays |
| Base.InitPattern | lib/chef/knife/uploader_base.rb:122-130 | no truthy configured pattern gives the pattern matching every id; a string that compiles gives a `Regex` of that source and the engine's unanchored search; a string that does not compile fails with the engine's `RegexpError` message; any other truthy value fails with the `TypeError` naming its class |
| Base.LastWithSubdirs | lib/chef/knife/uploader_base.rb:170-179 | the result is the last candidate holding every required sub-directory, or none when no candidate does |
| Base.LastWithSubdirsSnoc | lib/chef/knife/uploader_base.rb:172-177 | scanning one more candidate keeps it when it qualifies, else keeps the earlier choice |
| Base.Quoted | lib/chef/knife/uploader_base.rb:182 | each path is printed between double quotes, as Ruby prints an array of strings |
| Base.BaseCommand.ScanCookbooksPath | lib/chef/knife/uploader_base.rb:171-178 | after one cookbook path and its parent, the field holds the last qualifying candidate so far |
| Base.BaseCommand.GetChefRepoPath | lib/chef/knife/uploader_base.rb:168-188 | a memoised path is returned without scanning; otherwise the last of path, parent, path, parent… that is a checkout, and an error naming the path list when none is |
| Store.RemoteStore.CreateBag | lib/chef/knife/uploader_data_bag.rb:109 | the server gains an empty bag, and one write is logged |
| Store.RemoteStore.SaveItem | lib/chef/knife/uploader_data_bag.rb:141-142 | the item gets the new attributes, and nothing else changes |
| Store.RemoteStore.CreateItem | lib/chef/knife/uploader_data_bag.rb:158-160 | the bag gains the item, and nothing else changes |
| Store.RemoteStore.SaveNode | lib/chef/knife/uploader_run_list.rb:58-61 | the node gets the new run list, and nothing else changes |
| DataBag.Lookup | lib/chef/knife/uploader_data_bag.rb:193 | `contents['id']` is found exactly when the key is present, and it is that key's value |
| DataBag.DecryptEach | lib/chef/knife/uploader_data_bag.rb:25-27 | succeeds exactly when every non-`id` value decrypts; keeps keys and order, `id` verbatim, every other value decrypted |
| DataBag.DecryptedAttributes | lib/chef/knife/uploader_data_bag.rb:22-33 | on success the same keys, `id` verbatim, every other value decrypted, flag true; on any failure the raw attributes and flag false |
| DataBag.Compare | lib/chef/knife/uploader_data_bag.rb:58-97 | equal raw canonical texts: no difference, no decryption; else equal decrypted texts: no difference; else a difference over the two decrypted texts |
| DataBag.ReorderedNeverDiffer | lib/chef/knife/uploader_data_bag.rb:60-66 | two versions that differ only in the key order of their hashes, at any nesting level, compare equal without decryption |
| DataBag.DifferIrreflexive | lib/chef/knife/uploader_data_bag.rb:58-97 | no item differs from itself |
| DataBag.DifferSymmetric | lib/chef/knife/uploader_data_bag.rb:58-97 | the comparison does not depend on which version comes first |
| DataBag.UndecryptableComparesRaw | lib/chef/knife/uploader_data_bag.rb:69-90 | when neither version decrypts, they differ exactly when their raw texts do |
| DataBag.SamePlaintextNeverDiffer | lib/chef/knife/uploader_data_bag.rb:82-90 | two encrypted versions whose decrypted attributes differ at most in the key order of their hashes, at any nesting level, never differ |
| DataBag.Item.OverrideAttributes | lib/chef/knife/uploader_data_bag.rb:53-56 | the item's attributes are replaced by the new ones |
| DataBag.Item.Decrypted | lib/chef/knife/uploader_data_bag.rb:69 | returns the decryption of the item's current attributes and leaves them unchanged |
| DataBag.DiffDataBagItem | lib/chef/knife/uploader_data_bag.rb:58-97 | the answer is `Differ`; equal raw texts leave the item untouched with no decryption; otherwise it is decrypted twice and left holding the new attributes |
| DataBag.DataBagDir | lib/chef/knife/uploader_data_bag.rb:172-177 | the configured data bag path joined with the bag, else `<repo>/data_bags/<bag>`, failing when the repository path does |
| DataBag.ItemIdRoundTrip | lib/chef/knife/uploader_data_bag.rb:49-51 | the id read back from `<dir>/<id>.json` is the id, for ids without `/` or newline |
| DataBag.ListedPathRoundTrip | lib/chef/knife/uploader_data_bag.rb:39-51 | a listed file's path is rebuilt from its id |
| DataBag.LoadItemFileOutcomes | lib/chef/knife/uploader_data_bag.rb:186-203 | an unknown mode fails; a missing file gives nothing under `:can_skip` and fails under `:must_exist`; a present file loads exactly when its `id` is the expected id, and its contents are returned |
| DataBag.ListedDirectoryFails | lib/chef/knife/uploader_data_bag.rb:148-154 | a directory named `<id>.json` in the bag directory is listed, and loading it as a must-exist item file fails with "does not exist" |
| DataBag.IdsOfElems | lib/chef/knife/uploader_data_bag.rb:45-47 | the listed ids are the ids of the listed files |
| DataBag.ListedIdsMatch | lib/chef/knife/uploader_data_bag.rb:39-43 | every listed id matches the pattern |
| DataBag.PassSets | lib/chef/knife/uploader_data_bag.rb:120-145 | the first loop succeeds exactly when every selected server id's optional file loads; non-matching ids are only ignored, matching ids are processed, and the updated ones are those whose file differs |
| DataBag.PassUpdatedWithin | lib/chef/knife/uploader_data_bag.rb:120-145 | the first loop only updates server items |
| DataBag.CreatePassSets | lib/chef/knife/uploader_data_bag.rb:147-163 | the second loop succeeds exactly when every new local file loads; each listed id not yet processed or ignored is processed and updated, others are skipped |
| DataBag.ReconciledContents | lib/chef/knife/uploader_data_bag.rb:99-170 | the reconciled bag holds the server's items plus the local-only ones; ignored items keep the server version; updated and created items carry the local version |
| DataBag.InSyncUnchanged | lib/chef/knife/uploader_data_bag.rb:99-170 | a bag with nothing to update or create is left as it is |
| DataBag.ReconciledLoadable | lib/chef/knife/uploader_data_bag.rb:99-170 | a reconciled bag can be reconciled again |
| DataBag.ReconciledNothingToUpdate | lib/chef/knife/uploader_data_bag.rb:137-144 | after reconciling, no item differs from its file |
| DataBag.ReconcileIdempotent | lib/chef/knife/uploader_data_bag.rb:99-170 | a second run after a successful upload finds nothing to do |
| DataBag.SyncPassesOutcome | lib/chef/knife/uploader_data_bag.rb:114-163 | both loops together succeed exactly when every needed file loads, and report processed = matched ∪ local-only, ignored = unmatched, updated = changed ∪ local-only |
| DataBag.FreshIsLocalOnly | lib/chef/knife/uploader_data_bag.rb:148-150 | the ids the second loop creates are exactly the local-only ones |
| DataBag.SyncPassesUpload | lib/chef/knife/uploader_data_bag.rb:137-161 | writing the local version of every updated id gives the reconciled bag |
| DataBag.PairPassLoads | lib/chef/knife/uploader_data_bag.rb:236-252 | a pairing loop succeeds exactly when every file it reads loads |
| DataBag.PairPassPairs | lib/chef/knife/uploader_data_bag.rb:236-252 | a pairing loop adds exactly the ids with a file in both bags |
| DataBag.PairStepOutcome | lib/chef/knife/uploader_data_bag.rb:237-242 | one pairing step pairs an id exactly when both files exist |
| DataBag.FirstPairPass | lib/chef/knife/uploader_data_bag.rb:236-243 | the first loop pairs every first-bag id that also has a file in the second bag |
| DataBag.SecondPairPass | lib/chef/knife/uploader_data_bag.rb:244-252 | the second loop adds the second-bag ids that are not yet paired and have a file in the first bag |
| DataBag.PairPassesOutcome | lib/chef/knife/uploader_data_bag.rb:234-252 | the pairing succeeds exactly when every file read loads, and pairs exactly the matching ids with a file in both bags |
| DataBag.DataBagCommand.WithSecret | lib/chef/knife/uploader_data_bag.rb:22-33 | the command's decryption is `decrypted_attributes` over the secret's value decryptor |
| DataBag.DataBagCommand.UpdateRemoteItem | lib/chef/knife/uploader_data_bag.rb:127-144 | fails exactly when the optional file fails to load; reports whether it differs; saves the local version only when it differs outside a dry run |
| DataBag.DataBagCommand.VisitRemoteItem | lib/chef/knife/uploader_data_bag.rb:121-144 | one iteration of the first loop does what `Step` says and keeps the upload invariant |
| DataBag.DataBagCommand.UpdateRemoteItems | lib/chef/knife/uploader_data_bag.rb:120-145 | the first loop visits the server ids in ascending order and does what `Pass` says |
| DataBag.DataBagCommand.VisitLocalFile | lib/chef/knife/uploader_data_bag.rb:148-162 | one iteration of the second loop does what `CreateStep` says and keeps the upload invariant |
| DataBag.DataBagCommand.CreateLocalItems | lib/chef/knife/uploader_data_bag.rb:147-163 | the second loop visits the listed files in ascending order and does what `CreatePass` says |
| DataBag.DataBagCommand.SetDataBagItems | lib/chef/knife/uploader_data_bag.rb:99-170 | a missing directory fails before any server call; a missing bag is skipped in a dry run and created otherwise; succeeds exactly when every needed file loads, with the processed, ignored and updated sets; an upload leaves the bag reconciled with one write per updated id; a dry run writes nothing |
| DataBag.DataBagCommand.PairFile | lib/chef/knife/uploader_data_bag.rb:237-250 | one pairing iteration does what `PairStep` says |
| DataBag.DataBagCommand.PairLoop | lib/chef/knife/uploader_data_bag.rb:236-252 | a pairing loop visits the listed files in ascending order and does what `PairPass` says |
| DataBag.DataBagCommand.PairItemFiles | lib/chef/knife/uploader_data_bag.rb:234-252 | succeeds exactly when every file read loads, and yields the pairs of the matching ids present in both bags |
| DataBag.DataBagCommand.CompareInOrder | lib/chef/knife/uploader_data_bag.rb:272-276 | every pair is compared in the given order, and each outcome is `Differ` of that pair |
| DataBag.DataBagCommand.FindShell | lib/chef/knife/uploader_data_bag.rb:261-266 | finds the first id, in the given order, that the server bag holds, or reports that none is held |
| DataBag.DataBagCommand.CompareItems | lib/chef/knife/uploader_data_bag.rb:254-276 | nothing paired reports nothing to compare; otherwise fails exactly when the server bag holds no paired id; compares every pair in ascending id order |
| DataBag.DataBagCommand.DiffDataBagItemFiles | lib/chef/knife/uploader_data_bag.rb:230-277 | both directories must exist; a file that fails to load fails the command; the compared ids are exactly the matching ids with a file in both bags, in ascending order, each with its `Differ` outcome |
| RunList.ValidateArguments | lib/chef/knife/uploader_run_list.rb:68-76 | exactly one argument is accepted, and it is the environment |
| RunList.FilteredChefNodesSpec | lib/chef/knife/uploader_run_list.rb:22-27 | keeps exactly the names matching the pattern whose node is in the environment, in the input order |
| RunList.FilteredAllNodes | lib/chef/knife/uploader_run_list.rb:22-27 | over all node names in ascending order, yields the selected nodes in ascending order |
| RunList.MergedRunListSpec | lib/chef/knife/uploader_run_list.rb:37-45 | the merge succeeds exactly when every rule's regex compiles and every matching rule is a list; its length is the sum of their lengths; it holds exactly their entries |
| RunList.MergedRunListFirstError | lib/chef/knife/uploader_run_list.rb:41-45 | a failed merge fails with the error of the first rule whose regex does not compile or whose matching value is not a list, every earlier rule being accepted |
| RunList.MergedRunListAppend | lib/chef/knife/uploader_run_list.rb:41-45 | merging concatenated rules concatenates the merges, in file order, with no deduplication |
| RunList.MergedRunListNoMatch | lib/chef/knife/uploader_run_list.rb:37-45 | when every rule's regex compiles and none matches, the merged list is empty |
| RunList.MergedRunListSnoc | lib/chef/knife/uploader_run_list.rb:41-44 | one more rule is one `MergeStep`: a regex that does not compile fails with its `RegexpError`; a match appends the rule's list, or fails with the `TypeError` naming the value's class when it is not an array; no match leaves the merge as it is; an earlier failure stays |
| RunList.MergedRunListStopsAtErr | lib/chef/knife/uploader_run_list.rb:41-45 | once a rule fails, later rules do not change the failure |
| RunList.SkipsAsWrittenNever | lib/chef/knife/uploader_run_list.rb:48-51 | the skip guard never fires, because an array is always truthy |
| RunList.RunListsSetAdd | lib/chef/knife/uploader_run_list.rb:58-61 | saving one more node's merged list extends the expected final state by that node |
| RunList.StoppedAtNext | lib/chef/knife/uploader_run_list.rb:33-45 | a node loop in ascending name order that fails at the next node after the ones it visited has stopped at the first failing selected node, with exactly the selected nodes below it set |
| RunList.UnmatchedNodeCleared | lib/chef/knife/uploader_run_list.rb:37-61 | as written, a selected node that no rule matches has its run list set to `[]` |
| RunList.IntendedKeepsUnmatched | lib/chef/knife/uploader_run_list.rb:48-51 | with the intended skip, an unmatched node keeps its run list, and a node with a non-empty merge is set as before |
| RunList.RunListCommand.MergeRunList | lib/chef/knife/uploader_run_list.rb:36-45 | the loop's result is `MergedRunList` |
| RunList.RunListCommand.VisitNode | lib/chef/knife/uploader_run_list.rb:33-61 | fails exactly when the merge fails; a dry run writes nothing; an upload saves the merged list |
| RunList.RunListCommand.UpdateRunLists | lib/chef/knife/uploader_run_list.rb:33-62 | succeeds exactly when every selected node merges; visits them in ascending order; an upload sets every selected node's list with one write each; a dry run changes nothing; a failure is the error of the first selected node, in name order, whose merge fails, after an upload has set and saved exactly the selected nodes before it (`StoppedAt`) |
| RunList.RunListCommand.SetRunLists | lib/chef/knife/uploader_run_list.rb:29-66 | a repository path failure or a missing rules file fails before any node is touched; otherwise as `UpdateRunLists`, including the state a failure leaves |
| Legacy.LegacyLocateConfigValue | lib/chef/knife/safeupload.rb:92-99 | the command value when truthy, else the knife value, reported when falsy and never failing |
| Legacy.LegacyLocateVersusRequired | lib/chef/knife/safeupload.rb:92-99 | the legacy lookup returns nil exactly where the engine's `:required` lookup fails, and otherwise agrees with it; `false` is reported but returned |
| Legacy.RepoHasCookbooksSubdirs | lib/chef/knife/safeupload.rb:117-119 | every engine repository checkout also passes the legacy test |
| Legacy.LegacyFindsWhereEngineFinds | lib/chef/knife/safeupload.rb:113-128 | when a listed path is an engine checkout, the legacy scan finds a path |
| Legacy.LegacyBaseCommand.GetCookbooksPath | lib/chef/knife/safeupload.rb:113-128 | a memoised path is returned; otherwise the last listed path with `.git`, `environments` and `data_bags`, and an error naming the list when none has them |
| Legacy.LegacyDecryptedAttributes | lib/chef/knife/safeupload.rb:65-71 | the whole-item decryption with true, or the raw attributes with false |
| Legacy.LegacyDecryptionAgrees | lib/chef/knife/safeupload.rb:65-71 | when whole-item decryption equals value-by-value decryption, both copies agree |
| Legacy.LegacyDiffOutcomes | lib/chef/knife/safeupload.rb:193-231 | equal raw texts never differ; otherwise they differ exactly when the (decrypted where possible) texts differ; equal plaintexts never differ |
| Legacy.LegacyLoadItemFile | lib/chef/knife/safeupload.rb:293-310 | loads and fails on the same files as the engine's load; an id mismatch fails with a bare exception |
| Legacy.AnythingSelectsAll | lib/chef/knife/safeupload.rb:241-244 | with no pattern, every server item is processed and none is ignored |
| Legacy.LegacyDataBagCommand.SetDataBagItems | lib/chef/knife/safeupload.rb:233-287 | a bag missing on the server fails first; succeeds exactly when every needed file loads, with every server id processed; an upload leaves the bag reconciled; a dry run writes nothing |
| Legacy.LegacyDataBagCommand.CompareItems | lib/chef/knife/safeupload.rb:355-373 | nothing paired, or no paired id on the server, fails on the undefined `log`; a missing bag fails on `nil`; otherwise every pair is compared in ascending id order |
| Legacy.LegacyDataBagCommand.DiffDataBagItemFiles | lib/chef/knife/safeupload.rb:334-374 | succeeds exactly when every file read loads and the server bag holds a paired id; compares the ids present in both bags in ascending order |

The legacy `Utils` (lib/chef/knife/safeupload.rb:43-59) is the same code as
the engine's. The `Utils` members above model both copies. Dafny values are
immutable, so `recursive_sort_hash_keys` cannot change its argument.

## Left out

- Server I/O:
  - The Ridley client, its configuration and the network are replaced by the
    in-memory `RemoteStore`.
  - The lazy node fetch in `filtered_chef_nodes` is a plain filter over the
    stored nodes. Laziness only limits how many nodes are fetched.
- Libraries the model takes as parameters:
  - Encryption is a partial function passed in.
  - `JSON.pretty_generate` is a renderer passed in.
  - The regex engine is passed in: for the identifier pattern, a compiler to
    a search predicate or a `RegexpError` message; for the run-list rules,
    the answer of `/\A#{rule}\Z/` on a node name. Its syntax, the
    interpolation without grouping and the newline `\Z` accepts are the
    engine's business and are not interpreted.
- Parsing: `JSON.load` is taken as having produced a hash. A rules file or
  item file that is not a JSON object is not modelled.
- JSON numbers are integers (`JNum(int)`); floating-point numbers are not
  modelled, so the model does not capture how `pretty_generate` renders them
  or how they compare.
- Configuration: `KnifeConfigParser` evaluates arbitrary Ruby, so the cookbook
  path list and the data bag path are parameters.
- The filesystem is a value.
- Listing order: Ruby's `Dir[]` order is unspecified, so files are modelled
  as listed in ascending order.
- Output and timing are not modelled:
  - Diffy, `ui.info`/`warn`/`error`/`fatal`, `debug` and colour;
  - `time` (clock and float formatting);
  - `report_errors`;
  - the "updated items" and "processed" summaries.
- Command dispatch:
  - The `run_internal` argument checks of the data bag commands are not
    modelled.
  - Dry-run mode is a constructor parameter of each command.
  - The empty legacy commands (lib/chef/knife/safeupload.rb:395-415) do
    nothing and are not modelled.
- Ruby exception messages:
  - Errors raised by `NoMethodError`/`NameError` are modelled by their leading
    words only.
  - `Inspect` does not escape quotes or backslashes inside the paths.
  - `Base.RubyClassName` gives `Integer` for every number; a float would be
    named `Float` by Ruby.
- `fatal_error` (lib/chef/knife/uploader_data_bag.rb:268) is not defined in
  the source files modelled here. The model fails with its message.
- Shell item: `item.id = item_id` on the decryption shell is not modelled. The
  comparison is given each pair's attributes directly.
- DataBag.DataBagCommand.SetDataBagItems: when a file fails to load in upload
  mode, the contract does not state which items were already written before
  the failure.
- DataBag.DataBagCommand.DiffDataBagItemFiles: when a file fails to load, the
  contract states only that the command fails, not which error message it
  gives.
- Legacy.LegacyDataBagCommand.SetDataBagItems: a file whose `id` does not
  match fails with the engine's message, not the bare exception the legacy
  code raises. `LegacyLoadItemFile` states the legacy message on its own.
  When a file fails to load in upload mode, the contract does not state
  which items were already saved or created before the failure, nor the
  writes logged for them.
- Legacy.LegacyDataBagCommand.DiffDataBagItemFiles: when a file fails to load,
  the contract states only that the command fails; the error message is not
  pinned.
- RunList.RunListCommand.SetRunLists: follows the code as written, including
  the guard that never fires (see Findings). `RunList.IntendedRunListsSet`
  states the intended outcome.

## Findings

| source | as written | input that shows it | evidently intended | confidence | as-written member | corrected member |
|---|---|---|---|---|---|---|
| lib/chef/knife/uploader_run_list.rb:48-51 | `unless new_run_list` tests an array that starts as `[]`, which Ruby treats as true, so the "skipping" branch never runs | a selected node whose name no rule in the rules file matches: the merged list is `[]` and, in upload mode, the node's run list is overwritten with `[]` | a node no rule matches is skipped with a warning and keeps its run list | not executed; high (Ruby truthiness) | RunList.UnmatchedNodeCleared | RunList.IntendedKeepsUnmatched |

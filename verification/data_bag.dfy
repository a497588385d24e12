/**
 * `KnifeUploader::DataBagUtils` and `UploaderDataBagCommand`: item files on
 * the local disk, encryption-aware comparison of two versions of an item,
 * and reconciliation of a data bag on the Chef server with its local
 * directory.
 */
module DataBag {
  import opened Wrappers
  import opened Strings
  import opened Utils
  import opened Base
  import opened Store

  /** The value under `key` in a Hash, nil (`None`) when absent. */
  function Lookup(es: Entries, key: string): (r: Option<Json>)
    ensures r.Some? <==> key in Keys(es)
    ensures r.Some? ==> (key, r.value) in es
  {
    if es == [] then None
    else if es[0].0 == key then Some(es[0].1)
    else
      assert Keys(es) == {es[0].0} + Keys(es[1..]) by {
        assert es == [es[0]] + es[1..];
      }
      Lookup(es[1..], key)
  }

  // ---------------------------------------------------------------------
  // Decryption

  /**
   * `data_bag_item.decrypt_value(value)`: the plaintext of one value, or
   * `None` where the call raises one of the errors the engine rescues
   * (cipher error, missing method, not implemented, bad argument).
   */
  type ValueDecryptor = Json -> Option<Json>

  /** Every value except the `id` one replaced by its decryption, or `None` if one fails. */
  function DecryptEach(decrypt: ValueDecryptor, attrs: Attrs): (r: Option<Attrs>)
    ensures r.Some? <==> forall i :: 0 <= i < |attrs| && attrs[i].0 != "id" ==> decrypt(attrs[i].1).Some?
    ensures r.Some? ==> |r.value| == |attrs|
    ensures r.Some? ==> forall i :: 0 <= i < |attrs| ==> r.value[i].0 == attrs[i].0
    ensures r.Some? ==> forall i :: 0 <= i < |attrs| && attrs[i].0 == "id" ==> r.value[i].1 == attrs[i].1
    ensures r.Some? ==> forall i :: 0 <= i < |attrs| && attrs[i].0 != "id" ==> Some(r.value[i].1) == decrypt(attrs[i].1)
  {
    if attrs == [] then Some([])
    else
      var head := if attrs[0].0 == "id" then Some(attrs[0].1) else decrypt(attrs[0].1);
      match head
      case None => None
      case Some(v) =>
        match DecryptEach(decrypt, attrs[1..])
        case None => None
        case Some(rest) => Some([(attrs[0].0, v)] + rest)
  }

  /**
   * `DataBagUtils.decrypted_attributes`: the attributes with every value but
   * `id` decrypted and `true`, or, when any value fails to decrypt, the raw
   * attributes and `false`.
   */
  function DecryptedAttributes(decrypt: ValueDecryptor, attrs: Attrs): (r: (Attrs, bool))
    ensures r.1 <==> forall i :: 0 <= i < |attrs| && attrs[i].0 != "id" ==> decrypt(attrs[i].1).Some?
    ensures !r.1 ==> r.0 == attrs
    ensures r.1 ==> |r.0| == |attrs| && Keys(r.0) == Keys(attrs)
    ensures r.1 ==> forall i :: 0 <= i < |attrs| ==>
      r.0[i].0 == attrs[i].0 &&
      (attrs[i].0 == "id" ==> r.0[i].1 == attrs[i].1) &&
      (attrs[i].0 != "id" ==> Some(r.0[i].1) == decrypt(attrs[i].1))
  {
    match DecryptEach(decrypt, attrs)
    case None => (attrs, false)
    case Some(decrypted) =>
      assert Keys(decrypted) == Keys(attrs) by {
        forall k | k in Keys(attrs) ensures k in Keys(decrypted) {
          var e :| e in attrs && e.0 == k;
          var i :| 0 <= i < |attrs| && attrs[i] == e;
          assert decrypted[i] in decrypted;
        }
        forall k | k in Keys(decrypted) ensures k in Keys(attrs) {
          var e :| e in decrypted && e.0 == k;
          var i :| 0 <= i < |decrypted| && decrypted[i] == e;
          assert attrs[i] in attrs;
        }
      }
      (decrypted, true)
  }

  // ---------------------------------------------------------------------
  // Comparison of two versions of an item

  /** How an item's attributes are decrypted: the plaintext attributes and whether decryption worked. */
  type Decryption = Attrs -> (Attrs, bool)

  /** `Utils.json_with_sorted_keys` over the JSON renderer `render`. */
  function SortedKeysText(render: Json -> string): Json -> string
  {
    x => JsonWithSortedKeys(render, x)
  }

  /**
   * The canonical text of a set of attributes, where `canon` is the canonical
   * rendering of a JSON value (`SortedKeysText` of the JSON renderer).
   */
  function Text(canon: Json -> string, attrs: Attrs): string
  {
    canon(JObj(attrs))
  }

  /** The three outcomes of `diff_data_bag_item`. */
  datatype Comparison =
    | SameRaw
    | SameDecrypted(beforeDecrypted: bool, afterDecrypted: bool)
    | Different(beforeDecrypted: bool, afterDecrypted: bool, beforeText: string, afterText: string)

  /**
   * `diff_data_bag_item`: equal canonical raw texts mean no difference and no
   * decryption; otherwise both versions are decrypted, and equal canonical
   * decrypted texts mean no difference; anything else is a difference, shown
   * over the two decrypted (or raw, where decryption failed) texts.
   */
  function Compare(canon: Json -> string, decryption: Decryption, before: Attrs, after: Attrs): (c: Comparison)
    ensures c.SameRaw? <==> Text(canon, before) == Text(canon, after)
    ensures c.SameDecrypted? <==>
      Text(canon, before) != Text(canon, after) &&
      Text(canon, decryption(before).0) == Text(canon, decryption(after).0)
    ensures !c.SameRaw? ==> c.beforeDecrypted == decryption(before).1 && c.afterDecrypted == decryption(after).1
    ensures c.Different? ==> c.beforeText != c.afterText
    ensures c.Different? ==> c.beforeText == Text(canon, decryption(before).0) && c.afterText == Text(canon, decryption(after).0)
  {
    if Text(canon, before) == Text(canon, after) then SameRaw
    else
      var (beforeDecrypted, beforeOk) := decryption(before);
      var (afterDecrypted, afterOk) := decryption(after);
      if Text(canon, beforeDecrypted) == Text(canon, afterDecrypted) then SameDecrypted(beforeOk, afterOk)
      else Different(beforeOk, afterOk, Text(canon, beforeDecrypted), Text(canon, afterDecrypted))
  }

  /** The two versions of an item differ. */
  predicate Differ(canon: Json -> string, decryption: Decryption, before: Attrs, after: Attrs)
  {
    Compare(canon, decryption, before, after).Different?
  }

  /**
   * Two versions whose mappings, at any level, only had their keys inserted
   * in another order compare equal without any decryption.
   */
  lemma ReorderedNeverDiffer(render: Json -> string, decryption: Decryption, before: Attrs, after: Attrs)
    requires SameUpToKeyOrder(JObj(before), JObj(after))
    ensures Compare(SortedKeysText(render), decryption, before, after) == SameRaw
  {
    ReorderedSameText(render, JObj(before), JObj(after));
  }

  /** A version never differs from itself. */
  lemma DifferIrreflexive(canon: Json -> string, decryption: Decryption)
    ensures forall a :: !Differ(canon, decryption, a, a)
  {
  }

  /** Differing is symmetric in the two versions. */
  lemma DifferSymmetric(canon: Json -> string, decryption: Decryption, before: Attrs, after: Attrs)
    ensures Differ(canon, decryption, before, after) <==> Differ(canon, decryption, after, before)
  {
  }

  /**
   * When neither version can be decrypted, the comparison degrades to the raw
   * texts: the versions differ exactly when their canonical raw texts do.
   */
  lemma UndecryptableComparesRaw(canon: Json -> string, decrypt: ValueDecryptor, before: Attrs, after: Attrs)
    requires !DecryptedAttributes(decrypt, before).1 && !DecryptedAttributes(decrypt, after).1
    ensures Differ(canon, a => DecryptedAttributes(decrypt, a), before, after) <==> Text(canon, before) != Text(canon, after)
  {
    var d := a => DecryptedAttributes(decrypt, a);
    assert d(before) == (before, false) && d(after) == (after, false);
  }

  /**
   * Re-encryption: two versions whose decrypted attributes (the raw ones where
   * decryption fails) are the same up to key order never differ, whatever
   * their raw texts.
   */
  lemma SamePlaintextNeverDiffer(render: Json -> string, decrypt: ValueDecryptor, before: Attrs, after: Attrs)
    requires SameUpToKeyOrder(JObj(DecryptedAttributes(decrypt, before).0), JObj(DecryptedAttributes(decrypt, after).0))
    ensures !Differ(SortedKeysText(render), a => DecryptedAttributes(decrypt, a), before, after)
  {
    var d := a => DecryptedAttributes(decrypt, a);
    ReorderedSameText(render, JObj(d(before).0), JObj(d(after).0));
    assert Text(SortedKeysText(render), d(before).0) == Text(SortedKeysText(render), d(after).0);
  }

  // ---------------------------------------------------------------------
  // Item files

  /** `s` with every `/` at its end removed. */
  function TrimTrailingSlashes(s: string): string
  {
    if s != [] && s[|s| - 1] == '/' then TrimTrailingSlashes(s[..|s| - 1]) else s
  }

  /** The part of `s` after its last `/` (all of `s` when it has none). */
  function AfterLastSlash(s: string): string
  {
    if s == [] || s[|s| - 1] == '/' then [] else AfterLastSlash(s[..|s| - 1]) + [s[|s| - 1]]
  }

  /** `File.basename(path)`. */
  function Basename(path: string): string
  {
    var trimmed := TrimTrailingSlashes(path);
    if trimmed == [] then (if path == [] then [] else "/") else AfterLastSlash(trimmed)
  }

  /**
   * `s.gsub(/\.json$/, '')`: every `.json` that ends a line (it is followed by
   * a newline or by the end of `s`) is removed, scanning left to right.
   */
  function StripJsonAtLineEnds(s: string): string
  {
    if |s| >= 5 && s[..5] == ".json" && (|s| == 5 || s[5] == '\n') then StripJsonAtLineEnds(s[5..])
    else if s == [] then []
    else [s[0]] + StripJsonAtLineEnds(s[1..])
  }

  /** `data_bag_item_id_from_path`. */
  function ItemIdFromPath(path: string): string
  {
    StripJsonAtLineEnds(Basename(path))
  }

  /** The path `load_data_bag_item_file` reads for `id`. */
  function ItemFilePath(dir: string, id: string): string
  {
    Join(dir, id + ".json")
  }

  /**
   * `get_data_bag_dir`: `bag` inside the configured data bag path, else inside
   * `data_bags` of the repository checkout. The checkout is only looked for
   * (and its failure only matters) when no data bag path is configured.
   */
  function DataBagDir(dataBagPath: Option<string>, repoPath: Result<string>, bag: string): (r: Result<string>)
    ensures dataBagPath.Some? ==> r == Ok(Join(dataBagPath.value, bag))
    ensures dataBagPath.None? ==> (r.Ok? <==> repoPath.Ok?)
    ensures dataBagPath.None? && repoPath.Ok? ==> r.value == Join(Join(repoPath.value, "data_bags"), bag)
  {
    match dataBagPath
    case Some(path) => Ok(Join(path, bag))
    case None =>
      match repoPath
      case Ok(repo) => Ok(Join(Join(repo, "data_bags"), bag))
      case Err(message) => Err(message)
  }

  lemma {:induction false} AfterLastSlashOfJoin(prefix: string, name: string)
    requires '/' !in name
    ensures AfterLastSlash(prefix + "/" + name) == name
  {
    if name == [] {
    } else {
      var s := prefix + "/" + name;
      assert s[..|s| - 1] == prefix + "/" + name[..|name| - 1];
      AfterLastSlashOfJoin(prefix, name[..|name| - 1]);
      assert name == name[..|name| - 1] + [name[|name| - 1]];
    }
  }

  lemma {:induction false} StripJsonOfSuffixed(id: string)
    requires '\n' !in id
    ensures StripJsonAtLineEnds(id + ".json") == id
  {
    var s := id + ".json";
    if id == [] {
      assert s[5..] == [];
    } else {
      assert s[1..] == id[1..] + ".json";
      assert !(|s| == 5 || s[5] == '\n') by {
        if |id| > 5 {
          assert s[5] == id[5];
        }
      }
      StripJsonOfSuffixed(id[1..]);
      assert id == [id[0]] + id[1..];
    }
  }

  /** `Join(dir, name)` is the directory prefix followed by `name`. */
  lemma JoinAsPrefix(dir: string, name: string)
    ensures Join(dir, name) == Join(dir, "") + name
    ensures exists prefix :: Join(dir, name) == prefix + "/" + name
  {
    if dir != [] && dir[|dir| - 1] == '/' {
      assert dir == dir[..|dir| - 1] + "/";
      assert Join(dir, name) == dir[..|dir| - 1] + "/" + name;
    } else {
      assert Join(dir, name) == dir + "/" + name;
    }
  }

  /**
   * The id read back from the path of an item file is the id the path was
   * built from, for every id without `/` or newline.
   */
  lemma ItemIdRoundTrip(dir: string, id: string)
    requires '/' !in id && '\n' !in id
    ensures ItemIdFromPath(ItemFilePath(dir, id)) == id
  {
    var name := id + ".json";
    JoinAsPrefix(dir, name);
    var prefix :| Join(dir, name) == prefix + "/" + name;
    var path := Join(dir, name);
    assert path[|path| - 1] == 'n';
    assert TrimTrailingSlashes(path) == path;
    AfterLastSlashOfJoin(prefix, name);
    StripJsonOfSuffixed(id);
  }

  /**
   * The glob `*.json` in `dir` selects `path`: a file directly inside `dir`
   * whose name ends in `.json` and does not start with a dot.
   */
  predicate InDir(dir: string, path: string)
  {
    var prefix := Join(dir, "");
    && |prefix| < |path|
    && path[..|prefix|] == prefix
    && var name := path[|prefix|..];
    && '/' !in name
    && name[0] != '.'
    && |name| >= 5 && name[|name| - 5..] == ".json"
  }

  /** A listed file is the file `load_data_bag_item_file` reads for the id taken from its path. */
  lemma ListedPathRoundTrip(dir: string, path: string)
    requires InDir(dir, path) && '\n' !in path
    ensures ItemFilePath(dir, ItemIdFromPath(path)) == path
  {
    var prefix := Join(dir, "");
    var name := path[|prefix|..];
    var id := name[..|name| - 5];
    assert name == id + ".json";
    assert path == prefix + name;
    JoinAsPrefix(dir, name);
    assert '\n' !in id by {
      forall k | 0 <= k < |id| ensures id[k] != '\n' {
        assert id[k] == path[|prefix| + k];
      }
    }
    ItemIdRoundTrip(dir, id);
  }

  /**
   * `Dir[File.join(dir, '*.json')]` with the ids the pattern selects:
   * `list_data_bag_item_files`. The glob lists directories whose names end
   * in `.json` as well as files; loading such an entry in must-exist mode
   * raises, since it is not a regular file.
   */
  function ListedPaths(fs: FileSystem, dir: string, pattern: Pattern): set<string>
  {
    set path | path in fs.files.Keys + fs.dirs && InDir(dir, path) && Matches(pattern, ItemIdFromPath(path))
  }

  /** The ids of the listed files: `list_data_bag_item_ids`. */
  function ListedIds(fs: FileSystem, dir: string, pattern: Pattern): set<string>
  {
    set path | path in ListedPaths(fs, dir, pattern) :: ItemIdFromPath(path)
  }

  /** The contents of the item file for `id` in `dir`, if there is one. */
  function LocalItem(fs: FileSystem, dir: string, id: string): Option<Attrs>
  {
    if ItemFilePath(dir, id) in fs.files then Some(fs.files[ItemFilePath(dir, id)]) else None
  }

  /** The `mode` argument of `load_data_bag_item_file`. */
  datatype Mode = CanSkip | MustExist | OtherMode(name: string)

  /**
   * `load_data_bag_item_file`: the contents of the item file for `id`, whose
   * `id` field must equal `id`; a missing file gives nil in can-skip mode and
   * raises in must-exist mode; any other mode raises.
   */
  function LoadItemFile(fs: FileSystem, dir: string, id: string, mode: Mode): Result<Option<Attrs>>
  {
    if mode.OtherMode? then Err("unhandled exception")
    else
      var path := ItemFilePath(dir, id);
      if path in fs.files then
        var contents := fs.files[path];
        if Lookup(contents, "id") == Some(JStr(id)) then Ok(Some(contents))
        else Err("File " + path + " contains an invalid id (expected " + id + ")")
      else if mode == CanSkip then Ok(None)
      else Err("File " + path + " does not exist")
  }
  /**
   * What loading an item file gives: any other mode raises; a missing file
   * gives nil exactly in can-skip mode; a present file loads exactly when its
   * `id` field names the item, and then gives its contents.
   */
  lemma LoadItemFileOutcomes(fs: FileSystem, dir: string, id: string, mode: Mode)
    ensures mode.OtherMode? ==> LoadItemFile(fs, dir, id, mode).Err?
    ensures !mode.OtherMode? && LocalItem(fs, dir, id).None? ==> (LoadItemFile(fs, dir, id, mode).Ok? <==> mode == CanSkip)
    ensures LoadItemFile(fs, dir, id, mode).Ok? && LoadItemFile(fs, dir, id, mode).value.None? ==>
      mode == CanSkip && LocalItem(fs, dir, id).None?
    ensures !mode.OtherMode? && LocalItem(fs, dir, id).Some? ==>
      (LoadItemFile(fs, dir, id, mode).Ok? <==> Lookup(LocalItem(fs, dir, id).value, "id") == Some(JStr(id)))
    ensures LoadItemFile(fs, dir, id, mode).Ok? && LoadItemFile(fs, dir, id, mode).value.Some? ==>
      && LoadItemFile(fs, dir, id, mode).value == LocalItem(fs, dir, id)
      && Lookup(LoadItemFile(fs, dir, id, mode).value.value, "id") == Some(JStr(id))
  {
  }

  /**
   * A directory in `dir` whose name ends in `.json` is listed like an item
   * file, but loading it in must-exist mode raises: it is not a regular file.
   */
  lemma ListedDirectoryFails(fs: FileSystem, dir: string, pattern: Pattern, path: string)
    requires path in fs.dirs && path !in fs.files && InDir(dir, path) && '\n' !in path
    requires Matches(pattern, ItemIdFromPath(path))
    ensures path in ListedPaths(fs, dir, pattern) && ItemIdFromPath(path) in ListedIds(fs, dir, pattern)
    ensures LoadItemFile(fs, dir, ItemIdFromPath(path), MustExist) == Err("File " + path + " does not exist")
  {
    ListedPathRoundTrip(dir, path);
  }

  // ---------------------------------------------------------------------
  // The item object

  /** A data bag item object of the server client, used as a decryption shell. */
  class Item {
    var attributes: Attrs
    /** How many times the attributes were decrypted. */
    ghost var decryptions: nat

    constructor (attributes: Attrs)
      ensures this.attributes == attributes && decryptions == 0
    {
      this.attributes := attributes;
      decryptions := 0;
    }

    /** `override_attributes`: clear the attributes, then load `attrs`. */
    method OverrideAttributes(attrs: Attrs)
      modifies this
      ensures attributes == attrs && decryptions == old(decryptions)
    {
      attributes := attrs;
    }

    /** `DataBagUtils.decrypted_attributes(self)`. */
    method Decrypted(decryption: Decryption) returns (plain: Attrs, ok: bool)
      modifies this
      ensures (plain, ok) == decryption(attributes)
      ensures attributes == old(attributes) && decryptions == old(decryptions) + 1
    {
      plain, ok := decryption(attributes).0, decryption(attributes).1;
      decryptions := decryptions + 1;
    }
  }

  /**
   * `diff_data_bag_item`: reports whether the two versions differ. Equal raw
   * texts leave the shell untouched and decrypt nothing; otherwise the shell
   * holds each version in turn while it is decrypted, and ends with `after`.
   */
  method DiffDataBagItem(item: Item, canon: Json -> string, decryption: Decryption, before: Attrs, after: Attrs)
    returns (differs: bool)
    modifies item
    ensures differs == Differ(canon, decryption, before, after)
    ensures Text(canon, before) == Text(canon, after) ==>
      item.attributes == old(item.attributes) && item.decryptions == old(item.decryptions)
    ensures Text(canon, before) != Text(canon, after) ==>
      item.attributes == after && item.decryptions == old(item.decryptions) + 2
  {
    var beforeText := Text(canon, before);
    var afterText := Text(canon, after);
    if beforeText == afterText {
      return false;
    }
    item.OverrideAttributes(before);
    var beforePlain, beforeOk := item.Decrypted(decryption);
    item.OverrideAttributes(after);
    var afterPlain, afterOk := item.Decrypted(decryption);
    differs := Text(canon, beforePlain) != Text(canon, afterPlain);
  }

  // ---------------------------------------------------------------------
  // Reconciling a data bag on the server with its local directory
  //
  // `differs` below is the comparison `diff_data_bag_item` makes, that is
  // `Differ` with the command's rendering and decryption; the reconciliation
  // needs only that a version never differs from itself.

  /** The ids the item files at `paths` name, one per path. */
  function IdsOf(paths: seq<string>): set<string>
  {
    if paths == [] then {} else IdsOf(paths[..|paths| - 1]) + {ItemIdFromPath(paths[|paths| - 1])}
  }

  /** `IdsOf` depends only on which paths are given: it is the id of each of them. */
  lemma {:induction false} IdsOfElems(paths: seq<string>)
    ensures IdsOf(paths) == set p | p in Elems(paths) :: ItemIdFromPath(p)
  {
    if paths != [] {
      var n := |paths| - 1;
      IdsOfElems(paths[..n]);
      ElemsSnoc(paths, n);
      assert paths[..n + 1] == paths;
    }
  }

  /** The ids of `seen` the pattern selects. */
  function SelectedAmong(seen: set<string>, pattern: Pattern): set<string>
  {
    set id | id in seen && Matches(pattern, id)
  }

  /** The ids of `seen` the pattern leaves alone. */
  function UnselectedAmong(seen: set<string>, pattern: Pattern): set<string>
  {
    set id | id in seen && !Matches(pattern, id)
  }

  /** The selected ids of `seen` whose local file holds a version that differs from the one in `items`. */
  function StaleAmong(items: map<string, Attrs>, seen: set<string>, fs: FileSystem, dir: string, pattern: Pattern,
                      differs: (Attrs, Attrs) -> bool): set<string>
  {
    set id | id in seen && id in items && Matches(pattern, id) && LocalItem(fs, dir, id).Some? &&
      differs(items[id], LocalItem(fs, dir, id).value)
  }

  /** Looking at one more id adds it to exactly the sets it belongs to. */
  lemma AmongAdd(items: map<string, Attrs>, seen: set<string>, id: string, fs: FileSystem, dir: string, pattern: Pattern,
                 differs: (Attrs, Attrs) -> bool)
    ensures SelectedAmong(seen + {id}, pattern) ==
      if Matches(pattern, id) then SelectedAmong(seen, pattern) + {id} else SelectedAmong(seen, pattern)
    ensures UnselectedAmong(seen + {id}, pattern) ==
      if Matches(pattern, id) then UnselectedAmong(seen, pattern) else UnselectedAmong(seen, pattern) + {id}
    ensures StaleAmong(items, seen + {id}, fs, dir, pattern, differs) ==
      if id in items && Matches(pattern, id) && LocalItem(fs, dir, id).Some? &&
         differs(items[id], LocalItem(fs, dir, id).value)
      then StaleAmong(items, seen, fs, dir, pattern, differs) + {id}
      else StaleAmong(items, seen, fs, dir, pattern, differs)
  {
  }

  /**
   * One server id in the first loop of `set_data_bag_items`: an id the
   * pattern leaves alone is ignored; a selected one is processed, its
   * optional local file loaded (a file that does not load raises), and it is
   * updated when that file holds a differing version.
   */
  function Step(items: map<string, Attrs>, fs: FileSystem, dir: string, pattern: Pattern,
                differs: (Attrs, Attrs) -> bool, report: Report, id: string): (r: Result<Report>)
    requires report.Synced?
    ensures r.Ok? ==> r.value.Synced?
  {
    if !Matches(pattern, id) then Ok(Synced(report.processed, report.ignored + {id}, report.updated))
    else
      match LoadItemFile(fs, dir, id, CanSkip)
      case Err(message) => Err(message)
      case Ok(loaded) =>
        var stale := loaded.Some? && id in items && differs(items[id], loaded.value);
        Ok(Synced(report.processed + {id}, report.ignored, if stale then report.updated + {id} else report.updated))
  }

  /** The first loop of `set_data_bag_items` over the server ids `ids`, in order, up to the first failure. */
  function Pass(items: map<string, Attrs>, fs: FileSystem, dir: string, pattern: Pattern,
                differs: (Attrs, Attrs) -> bool, ids: seq<string>): (r: Result<Report>)
    ensures r.Ok? ==> r.value.Synced?
    decreases |ids|
  {
    if ids == [] then Ok(Synced({}, {}, {}))
    else
      match Pass(items, fs, dir, pattern, differs, ids[..|ids| - 1])
      case Err(message) => Err(message)
      case Ok(report) => Step(items, fs, dir, pattern, differs, report, ids[|ids| - 1])
  }

  /**
   * Whatever the order of `ids`, the loop fails exactly when a selected id's
   * optional file does not load, and otherwise sorts each id into exactly
   * the sets it belongs to.
   */
  lemma {:induction false} PassSets(items: map<string, Attrs>, fs: FileSystem, dir: string, pattern: Pattern,
                                    differs: (Attrs, Attrs) -> bool, ids: seq<string>)
    ensures Pass(items, fs, dir, pattern, differs, ids).Ok? <==>
      forall id :: id in SelectedAmong(Elems(ids), pattern) ==> LoadItemFile(fs, dir, id, CanSkip).Ok?
    ensures Pass(items, fs, dir, pattern, differs, ids).Ok? ==>
      Pass(items, fs, dir, pattern, differs, ids).value ==
        Synced(SelectedAmong(Elems(ids), pattern), UnselectedAmong(Elems(ids), pattern),
               StaleAmong(items, Elems(ids), fs, dir, pattern, differs))
  {
    if ids == [] {
      ElemsEmpty(ids);
    } else {
      var n := |ids| - 1;
      var id := ids[n];
      PassSets(items, fs, dir, pattern, differs, ids[..n]);
      ElemsSnoc(ids, n);
      assert ids[..n + 1] == ids;
      AmongAdd(items, Elems(ids[..n]), id, fs, dir, pattern, differs);
      if Matches(pattern, id) && LoadItemFile(fs, dir, id, CanSkip).Err? {
        assert id in SelectedAmong(Elems(ids), pattern);
      }
    }
  }

  /** The loop over one more id takes one more step, unless it has already failed. */
  lemma PassSnoc(items: map<string, Attrs>, fs: FileSystem, dir: string, pattern: Pattern,
                 differs: (Attrs, Attrs) -> bool, ids: seq<string>, i: int)
    requires 0 <= i < |ids|
    ensures Pass(items, fs, dir, pattern, differs, ids[..i]).Err? ==>
      Pass(items, fs, dir, pattern, differs, ids[..i + 1]) == Pass(items, fs, dir, pattern, differs, ids[..i])
    ensures Pass(items, fs, dir, pattern, differs, ids[..i]).Ok? ==>
      Pass(items, fs, dir, pattern, differs, ids[..i + 1]) ==
        Step(items, fs, dir, pattern, differs, Pass(items, fs, dir, pattern, differs, ids[..i]).value, ids[i])
  {
    assert ids[..i + 1][..i] == ids[..i];
  }

  /** The first failure ends the loop: the ids after it are never looked at. */
  lemma {:induction false} PassStopsAtErr(items: map<string, Attrs>, fs: FileSystem, dir: string, pattern: Pattern,
                                          differs: (Attrs, Attrs) -> bool, ids: seq<string>, k: int)
    requires 0 <= k <= |ids| && Pass(items, fs, dir, pattern, differs, ids[..k]).Err?
    ensures Pass(items, fs, dir, pattern, differs, ids) == Pass(items, fs, dir, pattern, differs, ids[..k])
    decreases |ids| - k
  {
    if k < |ids| {
      PassSnoc(items, fs, dir, pattern, differs, ids, k);
      PassStopsAtErr(items, fs, dir, pattern, differs, ids, k + 1);
    } else {
      assert ids[..k] == ids;
    }
  }

  /** Only ids already looked at are reported as updated. */
  lemma {:induction false} PassUpdatedWithin(items: map<string, Attrs>, fs: FileSystem, dir: string, pattern: Pattern,
                                             differs: (Attrs, Attrs) -> bool, ids: seq<string>)
    ensures Pass(items, fs, dir, pattern, differs, ids).Ok? ==>
      Pass(items, fs, dir, pattern, differs, ids).value.updated <= Elems(ids)
  {
    if ids != [] {
      var n := |ids| - 1;
      PassUpdatedWithin(items, fs, dir, pattern, differs, ids[..n]);
      ElemsSnoc(ids, n);
      assert ids[..n + 1] == ids;
    }
  }

  /**
   * One local item file in the second loop of `set_data_bag_items`: an id
   * already processed or ignored is skipped; any other is processed, its
   * required file loaded (a file that does not load raises), and created.
   */
  function CreateStep(fs: FileSystem, dir: string, report: Report, path: string): (r: Result<Report>)
    requires report.Synced?
    ensures r.Ok? ==> r.value.Synced?
  {
    var id := ItemIdFromPath(path);
    if id in report.processed || id in report.ignored then Ok(report)
    else
      match LoadItemFile(fs, dir, id, MustExist)
      case Err(message) => Err(message)
      case Ok(_) => Ok(Synced(report.processed + {id}, report.ignored, report.updated + {id}))
  }

  /** The second loop of `set_data_bag_items` over the local paths `paths`, in order, from the first loop's `start`. */
  function CreatePass(fs: FileSystem, dir: string, start: Report, paths: seq<string>): (r: Result<Report>)
    requires start.Synced?
    ensures r.Ok? ==> r.value.Synced?
    decreases |paths|
  {
    if paths == [] then Ok(start)
    else
      match CreatePass(fs, dir, start, paths[..|paths| - 1])
      case Err(message) => Err(message)
      case Ok(report) => CreateStep(fs, dir, report, paths[|paths| - 1])
  }

  /**
   * Whatever the order of `paths`, the second loop fails exactly when the
   * required file of a new id (one not processed or ignored before) does not
   * load, and otherwise processes and creates exactly the new ids.
   */
  lemma {:induction false} CreatePassSets(fs: FileSystem, dir: string, start: Report, paths: seq<string>)
    requires start.Synced?
    ensures CreatePass(fs, dir, start, paths).Ok? <==>
      forall id :: id in IdsOf(paths) - start.processed - start.ignored ==> LoadItemFile(fs, dir, id, MustExist).Ok?
    ensures CreatePass(fs, dir, start, paths).Ok? ==>
      CreatePass(fs, dir, start, paths).value ==
        Synced(start.processed + (IdsOf(paths) - start.processed - start.ignored), start.ignored,
               start.updated + (IdsOf(paths) - start.processed - start.ignored))
  {
    if paths != [] {
      var n := |paths| - 1;
      var front := paths[..n];
      var id := ItemIdFromPath(paths[n]);
      var seen := start.processed + start.ignored;
      CreatePassSets(fs, dir, start, front);
      var before := IdsOf(front) - start.processed - start.ignored;
      var after := IdsOf(paths) - start.processed - start.ignored;
      assert IdsOf(paths) == IdsOf(front) + {id};
      var prior := CreatePass(fs, dir, start, front);
      if prior.Err? {
        var bad :| bad in before && LoadItemFile(fs, dir, bad, MustExist).Err?;
        assert bad in after;
      } else if id in seen || id in before {
        assert after == before;
        assert CreatePass(fs, dir, start, paths) == prior;
      } else {
        assert after == before + {id};
        if LoadItemFile(fs, dir, id, MustExist).Err? {
          assert id in after;
        } else {
          assert CreatePass(fs, dir, start, paths) ==
            Ok(Synced(start.processed + before + {id}, start.ignored, start.updated + before + {id}));
        }
      }
    }
  }

  /** The second loop over one more path takes one more step, unless it has already failed. */
  lemma CreatePassSnoc(fs: FileSystem, dir: string, start: Report, paths: seq<string>, i: int)
    requires start.Synced? && 0 <= i < |paths|
    ensures CreatePass(fs, dir, start, paths[..i]).Err? ==>
      CreatePass(fs, dir, start, paths[..i + 1]) == CreatePass(fs, dir, start, paths[..i])
    ensures CreatePass(fs, dir, start, paths[..i]).Ok? ==>
      CreatePass(fs, dir, start, paths[..i + 1]) == CreateStep(fs, dir, CreatePass(fs, dir, start, paths[..i]).value, paths[i])
  {
    assert paths[..i + 1][..i] == paths[..i];
  }

  /** The first failure ends the second loop: the paths after it are never looked at. */
  lemma {:induction false} CreatePassStopsAtErr(fs: FileSystem, dir: string, start: Report, paths: seq<string>, k: int)
    requires start.Synced? && 0 <= k <= |paths| && CreatePass(fs, dir, start, paths[..k]).Err?
    ensures CreatePass(fs, dir, start, paths) == CreatePass(fs, dir, start, paths[..k])
    decreases |paths| - k
  {
    if k < |paths| {
      CreatePassSnoc(fs, dir, start, paths, k);
      CreatePassStopsAtErr(fs, dir, start, paths, k + 1);
    } else {
      assert paths[..k] == paths;
    }
  }

  /** Remote ids the pattern selects. */
  function Matched(items: map<string, Attrs>, pattern: Pattern): set<string>
  {
    SelectedAmong(items.Keys, pattern)
  }

  /** Remote ids the pattern leaves alone. */
  function Ignored(items: map<string, Attrs>, pattern: Pattern): set<string>
  {
    UnselectedAmong(items.Keys, pattern)
  }

  /** Selected remote ids whose local file holds a version that differs from the server's. */
  function ToUpdate(items: map<string, Attrs>, fs: FileSystem, dir: string, pattern: Pattern,
                    differs: (Attrs, Attrs) -> bool): set<string>
  {
    StaleAmong(items, items.Keys, fs, dir, pattern, differs)
  }

  /** Ids of local item files the server does not have. */
  function LocalOnly(items: map<string, Attrs>, fs: FileSystem, dir: string, pattern: Pattern): set<string>
  {
    ListedIds(fs, dir, pattern) - items.Keys
  }

  /**
   * Every item file the reconciliation reads loads: the optional file of each
   * selected remote id and the required file of each local-only id.
   */
  predicate Loadable(items: map<string, Attrs>, fs: FileSystem, dir: string, pattern: Pattern)
  {
    && (forall id :: id in Matched(items, pattern) ==> LoadItemFile(fs, dir, id, CanSkip).Ok?)
    && (forall id :: id in LocalOnly(items, fs, dir, pattern) ==> LoadItemFile(fs, dir, id, MustExist).Ok?)
  }

  /** The local versions of the items `ids` that have a file. */
  function LocalItems(fs: FileSystem, dir: string, ids: set<string>): map<string, Attrs>
  {
    map id | id in ids && ItemFilePath(dir, id) in fs.files :: fs.files[ItemFilePath(dir, id)]
  }

  /** The items of the bag once the differing and the missing ones are uploaded. */
  function Reconciled(items: map<string, Attrs>, fs: FileSystem, dir: string, pattern: Pattern,
                      differs: (Attrs, Attrs) -> bool): map<string, Attrs>
  {
    items + LocalItems(fs, dir, ToUpdate(items, fs, dir, pattern, differs) + LocalOnly(items, fs, dir, pattern))
  }

  /** A bag is in sync with its directory when there is nothing to update or create. */
  predicate InSync(items: map<string, Attrs>, fs: FileSystem, dir: string, pattern: Pattern,
                   differs: (Attrs, Attrs) -> bool)
  {
    ToUpdate(items, fs, dir, pattern, differs) == {} && LocalOnly(items, fs, dir, pattern) == {}
  }

  /** The counts and id sets `set_data_bag_items` reports. */
  datatype Report =
    | BagMissing
    | Synced(processed: set<string>, ignored: set<string>, updated: set<string>)

  /** Every listed id is one the pattern selects. */
  lemma ListedIdsMatch(fs: FileSystem, dir: string, pattern: Pattern, id: string)
    requires id in ListedIds(fs, dir, pattern)
    ensures Matches(pattern, id)
  {
    var path :| path in ListedPaths(fs, dir, pattern) && ItemIdFromPath(path) == id;
  }

  /**
   * When every file loads, the reconciled bag holds the server's items plus
   * every local-only one; the items the pattern leaves alone keep the
   * server's version, and every uploaded item carries the local version.
   */
  lemma ReconciledContents(items: map<string, Attrs>, fs: FileSystem, dir: string, pattern: Pattern,
                           differs: (Attrs, Attrs) -> bool)
    requires Loadable(items, fs, dir, pattern)
    ensures Reconciled(items, fs, dir, pattern, differs).Keys == items.Keys + LocalOnly(items, fs, dir, pattern)
    ensures forall id :: id in Ignored(items, pattern) ==>
      Reconciled(items, fs, dir, pattern, differs)[id] == items[id]
    ensures forall id :: id in ToUpdate(items, fs, dir, pattern, differs) + LocalOnly(items, fs, dir, pattern) ==>
      Some(Reconciled(items, fs, dir, pattern, differs)[id]) == LocalItem(fs, dir, id)
  {
    var r := Reconciled(items, fs, dir, pattern, differs);
    var toUpdate := ToUpdate(items, fs, dir, pattern, differs);
    var localOnly := LocalOnly(items, fs, dir, pattern);
    forall id | id in localOnly ensures id in r && Some(r[id]) == LocalItem(fs, dir, id) {
      assert LoadItemFile(fs, dir, id, MustExist).Ok?;
    }
    forall id | id in Ignored(items, pattern) ensures r[id] == items[id] {
      if id in localOnly {
        assert false;
      } else if id in toUpdate {
        assert false;
      }
    }
  }

  /** Reconciling a bag that is in sync changes nothing. */
  lemma InSyncUnchanged(items: map<string, Attrs>, fs: FileSystem, dir: string, pattern: Pattern,
                        differs: (Attrs, Attrs) -> bool)
    requires InSync(items, fs, dir, pattern, differs)
    ensures Reconciled(items, fs, dir, pattern, differs) == items
  {
    assert LocalItems(fs, dir, {}) == map[];
  }

  /** After reconciliation every file the next pass reads still loads. */
  lemma ReconciledLoadable(items: map<string, Attrs>, fs: FileSystem, dir: string, pattern: Pattern,
                           differs: (Attrs, Attrs) -> bool)
    requires Loadable(items, fs, dir, pattern)
    ensures Loadable(Reconciled(items, fs, dir, pattern, differs), fs, dir, pattern)
  {
    var r := Reconciled(items, fs, dir, pattern, differs);
    ReconciledContents(items, fs, dir, pattern, differs);
    forall id | id in Matched(r, pattern) ensures LoadItemFile(fs, dir, id, CanSkip).Ok? {
      if id !in items {
        assert LoadItemFile(fs, dir, id, MustExist).Ok?;
      }
    }
    assert LocalOnly(r, fs, dir, pattern) == {};
  }

  /** After reconciliation no selected item differs from its local file. */
  lemma ReconciledNothingToUpdate(items: map<string, Attrs>, fs: FileSystem, dir: string, pattern: Pattern,
                                  differs: (Attrs, Attrs) -> bool)
    requires Loadable(items, fs, dir, pattern)
    requires forall a :: !differs(a, a)
    ensures ToUpdate(Reconciled(items, fs, dir, pattern, differs), fs, dir, pattern, differs) == {}
  {
    var r := Reconciled(items, fs, dir, pattern, differs);
    ReconciledContents(items, fs, dir, pattern, differs);
    var uploaded := ToUpdate(items, fs, dir, pattern, differs) + LocalOnly(items, fs, dir, pattern);
    forall id | id in r && Matches(pattern, id) && LocalItem(fs, dir, id).Some?
      ensures !differs(r[id], LocalItem(fs, dir, id).value)
    {
      var local := LocalItem(fs, dir, id).value;
      if id in uploaded {
      } else {
        assert r[id] == items[id];
      }
    }
  }

  /**
   * Reconciliation reaches a fixed point in one pass: after it, every file
   * still loads, nothing differs and nothing is missing, so a second pass
   * writes nothing.
   */
  lemma ReconcileIdempotent(items: map<string, Attrs>, fs: FileSystem, dir: string, pattern: Pattern,
                            differs: (Attrs, Attrs) -> bool)
    requires Loadable(items, fs, dir, pattern)
    requires forall a :: !differs(a, a)
    ensures Loadable(Reconciled(items, fs, dir, pattern, differs), fs, dir, pattern)
    ensures InSync(Reconciled(items, fs, dir, pattern, differs), fs, dir, pattern, differs)
  {
    ReconciledContents(items, fs, dir, pattern, differs);
    ReconciledLoadable(items, fs, dir, pattern, differs);
    ReconciledNothingToUpdate(items, fs, dir, pattern, differs);
  }

  /**
   * The two loops of `set_data_bag_items`: the server ids `ids`, then the
   * local item files `paths`, the second loop starting from the first one's
   * report.
   */
  function SyncPasses(items: map<string, Attrs>, fs: FileSystem, dir: string, pattern: Pattern,
                      differs: (Attrs, Attrs) -> bool, ids: seq<string>, paths: seq<string>): (r: Result<Report>)
    ensures r.Ok? ==> r.value.Synced?
  {
    match Pass(items, fs, dir, pattern, differs, ids)
    case Err(message) => Err(message)
    case Ok(report) => CreatePass(fs, dir, report, paths)
  }

  /**
   * In whatever order the server ids and the listed files are visited, the
   * two loops fail exactly when some file they read does not load; otherwise
   * they process the selected server ids and the local-only ids, ignore the
   * rest of the server ids, and update the differing and the local-only ones.
   */
  lemma SyncPassesOutcome(items: map<string, Attrs>, fs: FileSystem, dir: string, pattern: Pattern,
                          differs: (Attrs, Attrs) -> bool, ids: seq<string>, paths: seq<string>)
    requires Elems(ids) == items.Keys && Elems(paths) == ListedPaths(fs, dir, pattern)
    ensures SyncPasses(items, fs, dir, pattern, differs, ids, paths).Ok? <==> Loadable(items, fs, dir, pattern)
    ensures SyncPasses(items, fs, dir, pattern, differs, ids, paths).Ok? ==>
      SyncPasses(items, fs, dir, pattern, differs, ids, paths).value ==
        Synced(Matched(items, pattern) + LocalOnly(items, fs, dir, pattern), Ignored(items, pattern),
               ToUpdate(items, fs, dir, pattern, differs) + LocalOnly(items, fs, dir, pattern))
  {
    PassSets(items, fs, dir, pattern, differs, ids);
    var first := Pass(items, fs, dir, pattern, differs, ids);
    if first.Ok? {
      CreatePassSets(fs, dir, first.value, paths);
      FreshIsLocalOnly(items, fs, dir, pattern, paths);
    }
  }

  /** The listed ids the first loop has neither processed nor ignored are the local-only ones. */
  lemma FreshIsLocalOnly(items: map<string, Attrs>, fs: FileSystem, dir: string, pattern: Pattern, paths: seq<string>)
    requires Elems(paths) == ListedPaths(fs, dir, pattern)
    ensures IdsOf(paths) - Matched(items, pattern) - Ignored(items, pattern) == LocalOnly(items, fs, dir, pattern)
  {
    IdsOfElems(paths);
    assert IdsOf(paths) == ListedIds(fs, dir, pattern);
    assert Matched(items, pattern) + Ignored(items, pattern) == items.Keys;
  }

  /** What the two loops upload to a bag that held `items` is its reconciled contents. */
  lemma SyncPassesUpload(items: map<string, Attrs>, fs: FileSystem, dir: string, pattern: Pattern,
                         differs: (Attrs, Attrs) -> bool, ids: seq<string>, paths: seq<string>)
    requires Elems(ids) == items.Keys && Elems(paths) == ListedPaths(fs, dir, pattern)
    requires SyncPasses(items, fs, dir, pattern, differs, ids, paths).Ok?
    ensures items + LocalItems(fs, dir, SyncPasses(items, fs, dir, pattern, differs, ids, paths).value.updated) ==
      Reconciled(items, fs, dir, pattern, differs)
  {
    SyncPassesOutcome(items, fs, dir, pattern, differs, ids, paths);
  }

  /** An id outside `ids` keeps its version under the local overlay. */
  lemma LocalItemsExclude(items: map<string, Attrs>, fs: FileSystem, dir: string, ids: set<string>, id: string)
    requires id in items && id !in ids
    ensures id in items + LocalItems(fs, dir, ids) && (items + LocalItems(fs, dir, ids))[id] == items[id]
  {
  }

  /** Overlaying one more local item is an update of one key. */
  lemma LocalItemsInclude(items: map<string, Attrs>, fs: FileSystem, dir: string, ids: set<string>, id: string)
    requires LocalItem(fs, dir, id).Some?
    ensures items + LocalItems(fs, dir, ids + {id}) == (items + LocalItems(fs, dir, ids))[id := LocalItem(fs, dir, id).value]
  {
  }

  /** Saving one more local version into a bag that holds `items` with the local versions of `ids`. */
  lemma SaveOneMore(bags0: map<string, map<string, Attrs>>, bag: string, items: map<string, Attrs>, fs: FileSystem,
                    dir: string, ids: set<string>, id: string, mode: Mode)
    requires LoadItemFile(fs, dir, id, mode).Ok? && LoadItemFile(fs, dir, id, mode).value.Some?
    ensures var before := bags0[bag := items + LocalItems(fs, dir, ids)];
      before[bag := before[bag][id := LoadItemFile(fs, dir, id, mode).value.value]] ==
        bags0[bag := items + LocalItems(fs, dir, ids + {id})]
  {
    LocalItemsInclude(items, fs, dir, ids, id);
  }

  // ---------------------------------------------------------------------
  // Pairing the item files of two local bags

  /** What the loops of `diff_data_bag_item_files` build: `processed_items` and `items_to_compare`. */
  datatype Pairing = Pairing(processed: set<string>, pairs: map<string, (Attrs, Attrs)>)

  /**
   * The file of `id` in `there` is optional and, when it is present, the
   * file in `here` is required: both load.
   */
  predicate PairLoads(fs: FileSystem, here: string, there: string, id: string)
  {
    && LoadItemFile(fs, there, id, CanSkip).Ok?
    && (LoadItemFile(fs, there, id, CanSkip).value.Some? ==> LoadItemFile(fs, here, id, MustExist).Ok?)
  }

  /** The directory a loop of `diff_data_bag_item_files` lists: the first bag's, then the second's. */
  function Here(dir1: string, dir2: string, second: bool): string
  {
    if second then dir2 else dir1
  }

  /** The directory a loop of `diff_data_bag_item_files` looks for a counterpart in. */
  function There(dir1: string, dir2: string, second: bool): string
  {
    if second then dir1 else dir2
  }

  /**
   * One listed id of `diff_data_bag_item_files`. In the first loop (over
   * the first bag) the id's file in the second bag is optional; when it is
   * there the first bag's file is required, and the id is processed and
   * paired. The second loop (over the second bag) skips processed ids and
   * works the other way round, without marking ids processed.
   */
  function PairStep(fs: FileSystem, dir1: string, dir2: string, second: bool, acc: Pairing, path: string)
    : (r: Result<Pairing>)
  {
    var id := ItemIdFromPath(path);
    var here := Here(dir1, dir2, second);
    var there := There(dir1, dir2, second);
    if second && id in acc.processed then Ok(acc)
    else
      match LoadItemFile(fs, there, id, CanSkip)
      case Err(message) => Err(message)
      case Ok(other) =>
        if other.None? then Ok(acc)
        else
          match LoadItemFile(fs, here, id, MustExist)
          case Err(message) => Err(message)
          case Ok(mine) =>
            var pair := if second then (other.value, mine.value) else (mine.value, other.value);
            Ok(Pairing(if second then acc.processed else acc.processed + {id}, acc.pairs[id := pair]))
  }

  /** One loop of `diff_data_bag_item_files` over `paths`, in order, from `start`, up to the first failure. */
  function PairPass(fs: FileSystem, dir1: string, dir2: string, second: bool, start: Pairing, paths: seq<string>)
    : Result<Pairing>
    decreases |paths|
  {
    if paths == [] then Ok(start)
    else
      match PairPass(fs, dir1, dir2, second, start, paths[..|paths| - 1])
      case Err(message) => Err(message)
      case Ok(acc) => PairStep(fs, dir1, dir2, second, acc, paths[|paths| - 1])
  }

  /** Both loops of `diff_data_bag_item_files`: over the first bag's files `paths1`, then the second's `paths2`. */
  function PairPasses(fs: FileSystem, dir1: string, dir2: string, paths1: seq<string>, paths2: seq<string>)
    : Result<Pairing>
  {
    match PairPass(fs, dir1, dir2, false, Pairing({}, map[]), paths1)
    case Err(message) => Err(message)
    case Ok(acc) => PairPass(fs, dir1, dir2, true, acc, paths2)
  }

  /** The ids of `ids` with a file in both directories, each with its two versions. */
  function PairsOf(fs: FileSystem, dir1: string, dir2: string, ids: set<string>): map<string, (Attrs, Attrs)>
  {
    map id | id in ids && LocalItem(fs, dir1, id).Some? && LocalItem(fs, dir2, id).Some? ::
      (LocalItem(fs, dir1, id).value, LocalItem(fs, dir2, id).value)
  }

  /** Looking at one more id pairs it exactly when it has a file in both directories. */
  lemma PairsOfAdd(fs: FileSystem, dir1: string, dir2: string, ids: set<string>, id: string)
    ensures PairsOf(fs, dir1, dir2, ids + {id}) ==
      if LocalItem(fs, dir1, id).Some? && LocalItem(fs, dir2, id).Some?
      then PairsOf(fs, dir1, dir2, ids)[id := (LocalItem(fs, dir1, id).value, LocalItem(fs, dir2, id).value)]
      else PairsOf(fs, dir1, dir2, ids)
  {
  }

  /** The ids a loop of `diff_data_bag_item_files` over `paths` looks at from `start`. */
  function PairFresh(second: bool, start: Pairing, paths: seq<string>): set<string>
  {
    if second then IdsOf(paths) - start.processed else IdsOf(paths)
  }

  /**
   * Whatever the order of `paths`, one loop of `diff_data_bag_item_files`
   * fails exactly when a file it reads for one of its ids does not load.
   */
  lemma {:induction false} PairPassLoads(fs: FileSystem, dir1: string, dir2: string, second: bool, start: Pairing,
                                         paths: seq<string>)
    ensures PairPass(fs, dir1, dir2, second, start, paths).Ok? <==>
      forall id :: id in PairFresh(second, start, paths) ==>
        PairLoads(fs, Here(dir1, dir2, second), There(dir1, dir2, second), id)
  {
    if paths != [] {
      var n := |paths| - 1;
      var front := paths[..n];
      var id := ItemIdFromPath(paths[n]);
      var here, there := Here(dir1, dir2, second), There(dir1, dir2, second);
      PairPassLoads(fs, dir1, dir2, second, start, front);
      var before := PairFresh(second, start, front);
      var after := PairFresh(second, start, paths);
      assert IdsOf(paths) == IdsOf(front) + {id};
      var prior := PairPass(fs, dir1, dir2, second, start, front);
      if prior.Err? {
        var bad :| bad in before && !PairLoads(fs, here, there, bad);
        assert bad in after;
      } else {
        PairPassPairs(fs, dir1, dir2, second, start, front);
        if second && id in start.processed {
          assert after == before;
        } else {
          PairStepOutcome(fs, dir1, dir2, second, prior.value, paths[n]);
          assert after == before + {id};
        }
      }
    }
  }

  /**
   * Whatever the order of `paths`, one loop of `diff_data_bag_item_files`
   * that does not fail pairs exactly the ids with a file in both
   * directories, each with its two versions, and (the first loop only)
   * marks them processed.
   */
  lemma {:induction false} PairPassPairs(fs: FileSystem, dir1: string, dir2: string, second: bool, start: Pairing,
                                         paths: seq<string>)
    ensures PairPass(fs, dir1, dir2, second, start, paths).Ok? ==>
      PairPass(fs, dir1, dir2, second, start, paths).value ==
        Pairing(if second then start.processed
                else start.processed + PairsOf(fs, dir1, dir2, PairFresh(second, start, paths)).Keys,
                start.pairs + PairsOf(fs, dir1, dir2, PairFresh(second, start, paths)))
  {
    if paths != [] {
      var n := |paths| - 1;
      var front := paths[..n];
      var id := ItemIdFromPath(paths[n]);
      PairPassPairs(fs, dir1, dir2, second, start, front);
      var before := PairFresh(second, start, front);
      var after := PairFresh(second, start, paths);
      assert IdsOf(paths) == IdsOf(front) + {id};
      var prior := PairPass(fs, dir1, dir2, second, start, front);
      if prior.Ok? && second && id in start.processed {
        assert after == before;
      } else if prior.Ok? {
        var found := PairsOf(fs, dir1, dir2, before);
        PairStepOutcome(fs, dir1, dir2, second, prior.value, paths[n]);
        PairsOfAdd(fs, dir1, dir2, before, id);
        assert after == before + {id};
        if LocalItem(fs, dir1, id).Some? && LocalItem(fs, dir2, id).Some? {
          var pair := (LocalItem(fs, dir1, id).value, LocalItem(fs, dir2, id).value);
          MapPlusUpdate(start.pairs, found, id, pair);
        }
      }
    }
  }

  /** A loop of the pairing over one more path takes one more step, unless it has already failed. */
  lemma PairPassSnoc(fs: FileSystem, dir1: string, dir2: string, second: bool, start: Pairing, paths: seq<string>,
                     i: int)
    requires 0 <= i < |paths|
    ensures PairPass(fs, dir1, dir2, second, start, paths[..i]).Err? ==>
      PairPass(fs, dir1, dir2, second, start, paths[..i + 1]) == PairPass(fs, dir1, dir2, second, start, paths[..i])
    ensures PairPass(fs, dir1, dir2, second, start, paths[..i]).Ok? ==>
      PairPass(fs, dir1, dir2, second, start, paths[..i + 1]) ==
        PairStep(fs, dir1, dir2, second, PairPass(fs, dir1, dir2, second, start, paths[..i]).value, paths[i])
  {
    assert paths[..i + 1][..i] == paths[..i];
  }

  /** The first failure ends a loop of the pairing: the paths after it are never looked at. */
  lemma {:induction false} PairPassStopsAtErr(fs: FileSystem, dir1: string, dir2: string, second: bool,
                                              start: Pairing, paths: seq<string>, k: int)
    requires 0 <= k <= |paths| && PairPass(fs, dir1, dir2, second, start, paths[..k]).Err?
    ensures PairPass(fs, dir1, dir2, second, start, paths) == PairPass(fs, dir1, dir2, second, start, paths[..k])
    decreases |paths| - k
  {
    if k < |paths| {
      PairPassSnoc(fs, dir1, dir2, second, start, paths, k);
      PairPassStopsAtErr(fs, dir1, dir2, second, start, paths, k + 1);
    } else {
      assert paths[..k] == paths;
    }
  }

  /** The items `diff_data_bag_item_files` compares: the listed ids of either bag with a file in both. */
  function ToCompare(fs: FileSystem, dir1: string, dir2: string, pattern: Pattern): map<string, (Attrs, Attrs)>
  {
    PairsOf(fs, dir1, dir2, ListedIds(fs, dir1, pattern) + ListedIds(fs, dir2, pattern))
  }

  /** The ids of the outcomes, in order. */
  function OutcomeIds(outcomes: seq<(string, bool)>): (r: seq<string>)
    ensures |r| == |outcomes| && forall k :: 0 <= k < |r| ==> r[k] == outcomes[k].0
  {
    seq(|outcomes|, k requires 0 <= k < |outcomes| => outcomes[k].0)
  }

  /** What `diff_data_bag_item_files` finds. */
  datatype FilesDiff =
    | NothingToCompare
    | Compared(outcomes: seq<(string, bool)>)

  /**
   * Every file the pairing reads loads: for each listed id of the first bag
   * its optional file in the second and, where that is present, its own;
   * for each listed id of the second bag not paired yet, the other way round.
   */
  predicate PairsLoadable(fs: FileSystem, dir1: string, dir2: string, pattern: Pattern)
  {
    && (forall id :: id in ListedIds(fs, dir1, pattern) ==> PairLoads(fs, dir1, dir2, id))
    && (forall id :: id in ListedIds(fs, dir2, pattern) - PairsOf(fs, dir1, dir2, ListedIds(fs, dir1, pattern)).Keys ==>
          PairLoads(fs, dir2, dir1, id))
  }

  /** Pairing `a` and then the rest of `b` pairs `a` and `b` together. */
  lemma PairsOfUnion(fs: FileSystem, dir1: string, dir2: string, a: set<string>, b: set<string>)
    ensures PairsOf(fs, dir1, dir2, a) + PairsOf(fs, dir1, dir2, b - PairsOf(fs, dir1, dir2, a).Keys) ==
      PairsOf(fs, dir1, dir2, a + b)
  {
  }

  /** The first loop of the pairing, over all the listed files of the first bag. */
  lemma FirstPairPass(fs: FileSystem, dir1: string, dir2: string, pattern: Pattern, paths1: seq<string>)
    requires Elems(paths1) == ListedPaths(fs, dir1, pattern)
    ensures PairPass(fs, dir1, dir2, false, Pairing({}, map[]), paths1).Ok? <==>
      forall id :: id in ListedIds(fs, dir1, pattern) ==> PairLoads(fs, dir1, dir2, id)
    ensures PairPass(fs, dir1, dir2, false, Pairing({}, map[]), paths1).Ok? ==>
      PairPass(fs, dir1, dir2, false, Pairing({}, map[]), paths1).value ==
        Pairing(PairsOf(fs, dir1, dir2, ListedIds(fs, dir1, pattern)).Keys, PairsOf(fs, dir1, dir2, ListedIds(fs, dir1, pattern)))
  {
    var empty := Pairing({}, map[]);
    IdsOfElems(paths1);
    assert IdsOf(paths1) == ListedIds(fs, dir1, pattern);
    PairPassLoads(fs, dir1, dir2, false, empty, paths1);
    PairPassPairs(fs, dir1, dir2, false, empty, paths1);
    EmptyPlus(PairsOf(fs, dir1, dir2, IdsOf(paths1)));
  }

  /** The empty map and the empty set are units of union. */
  lemma EmptyPlus<K, V>(m: map<K, V>)
    ensures map[] + m == m && {} + m.Keys == m.Keys
  {
  }

  /** The second loop of the pairing, over all the listed files of the second bag, after the first paired `found`. */
  lemma SecondPairPass(fs: FileSystem, dir1: string, dir2: string, pattern: Pattern, found: map<string, (Attrs, Attrs)>,
                       paths2: seq<string>)
    requires Elems(paths2) == ListedPaths(fs, dir2, pattern)
    ensures PairPass(fs, dir1, dir2, true, Pairing(found.Keys, found), paths2).Ok? <==>
      forall id :: id in ListedIds(fs, dir2, pattern) - found.Keys ==> PairLoads(fs, dir2, dir1, id)
    ensures PairPass(fs, dir1, dir2, true, Pairing(found.Keys, found), paths2).Ok? ==>
      PairPass(fs, dir1, dir2, true, Pairing(found.Keys, found), paths2).value.pairs ==
        found + PairsOf(fs, dir1, dir2, ListedIds(fs, dir2, pattern) - found.Keys)
  {
    IdsOfElems(paths2);
    assert IdsOf(paths2) == ListedIds(fs, dir2, pattern);
    PairPassLoads(fs, dir1, dir2, true, Pairing(found.Keys, found), paths2);
    PairPassPairs(fs, dir1, dir2, true, Pairing(found.Keys, found), paths2);
  }

  /**
   * In whatever order the two bags' files are listed, the pairing fails
   * exactly when a file it reads does not load, and otherwise compares
   * exactly the listed ids of either bag that have a file in both, each
   * with its two versions.
   */
  lemma PairPassesOutcome(fs: FileSystem, dir1: string, dir2: string, pattern: Pattern,
                          paths1: seq<string>, paths2: seq<string>)
    requires Elems(paths1) == ListedPaths(fs, dir1, pattern) && Elems(paths2) == ListedPaths(fs, dir2, pattern)
    ensures PairPasses(fs, dir1, dir2, paths1, paths2).Ok? <==> PairsLoadable(fs, dir1, dir2, pattern)
    ensures PairPasses(fs, dir1, dir2, paths1, paths2).Ok? ==>
      PairPasses(fs, dir1, dir2, paths1, paths2).value.pairs ==
        PairsOf(fs, dir1, dir2, ListedIds(fs, dir1, pattern) + ListedIds(fs, dir2, pattern))
  {
    var ids1, ids2 := ListedIds(fs, dir1, pattern), ListedIds(fs, dir2, pattern);
    FirstPairPass(fs, dir1, dir2, pattern, paths1);
    var first := PairPass(fs, dir1, dir2, false, Pairing({}, map[]), paths1);
    if first.Ok? {
      var found := PairsOf(fs, dir1, dir2, ids1);
      SecondPairPass(fs, dir1, dir2, pattern, found, paths2);
      PairsOfUnion(fs, dir1, dir2, ids1, ids2);
    }
  }

  /**
   * One id not skipped: the step fails exactly when a file it reads does not
   * load, and otherwise pairs the id exactly when it has a file in both
   * directories.
   */
  lemma PairStepOutcome(fs: FileSystem, dir1: string, dir2: string, second: bool, acc: Pairing, path: string)
    requires !(second && ItemIdFromPath(path) in acc.processed)
    ensures PairStep(fs, dir1, dir2, second, acc, path).Ok? <==>
      PairLoads(fs, Here(dir1, dir2, second), There(dir1, dir2, second), ItemIdFromPath(path))
    ensures var id := ItemIdFromPath(path);
      PairStep(fs, dir1, dir2, second, acc, path).Ok? ==>
        PairStep(fs, dir1, dir2, second, acc, path).value ==
          if LocalItem(fs, dir1, id).Some? && LocalItem(fs, dir2, id).Some?
          then Pairing(if second then acc.processed else acc.processed + {id},
                       acc.pairs[id := (LocalItem(fs, dir1, id).value, LocalItem(fs, dir2, id).value)])
          else acc
  {
  }

  /** Updating a key after a union is updating it in the right operand. */
  lemma MapPlusUpdate<K, V>(a: map<K, V>, b: map<K, V>, k: K, v: V)
    ensures (a + b)[k := v] == a + b[k := v]
  {
  }

  /** Updating a key twice keeps only the second value. */
  lemma MapUpdateTwice<K, V>(m: map<K, V>, k: K, v: V, w: V)
    ensures m[k := v][k := w] == m[k := w]
  {
  }

  /** `UploaderDataBagCommand` with the settings it reads. */
  class DataBagCommand {
    /** The Chef server client. */
    const store: RemoteStore
    /** The local disk. */
    const fs: FileSystem
    /** `@pattern`. */
    const pattern: Pattern
    /** `@dry_run`: report what would change without writing. */
    const dryRun: bool
    /** `Utils.json_with_sorted_keys`: `SortedKeysText` of `JSON.pretty_generate`. */
    const canon: Json -> string
    /**
     * Decryption of an item's attributes with the configured secret:
     * `DataBagUtils.decrypted_attributes` over the secret's value decryptor
     * for the engine's commands (`WithSecret`), the item-level decryption of
     * the legacy copy for that one.
     */
    const decryption: Decryption
    /** Whether two versions of an item differ, with this command's rendering and decryption. */
    const differs: (Attrs, Attrs) -> bool := (before, after) => Differ(canon, decryption, before, after)
    /** The `data_bag_path` of the knife configuration. */
    const dataBagPath: Option<string>
    /** What `get_chef_repo_path` yields. */
    const repoPath: Result<string>

    constructor (store: RemoteStore, fs: FileSystem, pattern: Pattern, dryRun: bool, render: Json -> string,
                 decryption: Decryption, dataBagPath: Option<string>, repoPath: Result<string>)
      ensures this.store == store && this.fs == fs && this.pattern == pattern && this.dryRun == dryRun
      ensures this.canon == SortedKeysText(render) && this.decryption == decryption
      ensures this.dataBagPath == dataBagPath && this.repoPath == repoPath
    {
      this.store := store;
      this.fs := fs;
      this.pattern := pattern;
      this.dryRun := dryRun;
      this.canon := SortedKeysText(render);
      this.decryption := decryption;
      this.dataBagPath := dataBagPath;
      this.repoPath := repoPath;
    }

    /** The engine's command, decrypting each value with the configured secret's decryptor `decrypt`. */
    constructor WithSecret(store: RemoteStore, fs: FileSystem, pattern: Pattern, dryRun: bool, render: Json -> string,
                           decrypt: ValueDecryptor, dataBagPath: Option<string>, repoPath: Result<string>)
      ensures this.store == store && this.fs == fs && this.pattern == pattern && this.dryRun == dryRun
      ensures this.canon == SortedKeysText(render)
      ensures forall attrs :: this.decryption(attrs) == DecryptedAttributes(decrypt, attrs)
      ensures this.dataBagPath == dataBagPath && this.repoPath == repoPath
    {
      this.store := store;
      this.fs := fs;
      this.pattern := pattern;
      this.dryRun := dryRun;
      this.canon := SortedKeysText(render);
      this.decryption := attrs => DecryptedAttributes(decrypt, attrs);
      this.dataBagPath := dataBagPath;
      this.repoPath := repoPath;
    }

    /**
     * One selected server item in the first loop of `set_data_bag_items`:
     * loads its optional local file and, when that differs from the server's
     * version, reports it as updated and (unless in a dry run) saves it.
     */
    method UpdateRemoteItem(bag: string, dir: string, id: string) returns (r: Result<bool>)
      requires bag in store.bags && id in store.bags[bag]
      modifies store
      ensures store.nodes == old(store.nodes)
      ensures r.Ok? <==> LoadItemFile(fs, dir, id, CanSkip).Ok?
      ensures r.Err? ==> r.message == LoadItemFile(fs, dir, id, CanSkip).message
      ensures r.Ok? ==> (r.value <==> (LoadItemFile(fs, dir, id, CanSkip).value.Some? &&
        differs(old(store.bags)[bag][id], LoadItemFile(fs, dir, id, CanSkip).value.value)))
      ensures dryRun || r != Ok(true) ==> store.bags == old(store.bags) && store.writes == old(store.writes)
      ensures !dryRun && r == Ok(true) ==>
        && store.bags == old(store.bags)[bag := old(store.bags)[bag][id := LoadItemFile(fs, dir, id, CanSkip).value.value]]
        && |store.writes| == |old(store.writes)| + 1
    {
      var loaded := LoadItemFile(fs, dir, id, CanSkip);
      if loaded.Err? {
        return Err(loaded.message);
      }
      if loaded.value.None? {
        return Ok(false);
      }
      var after := loaded.value.value;
      var item := new Item(store.bags[bag][id]);
      var before := item.attributes;
      var changed := DiffDataBagItem(item, canon, decryption, before, after);
      if changed && !dryRun {
        // `override_attributes(item, after)` would change nothing: the shell already holds `after`.
        store.SaveItem(bag, id, item.attributes);
      }
      return Ok(changed);
    }

    /**
     * The server holds `bags0` with the local version of every item of
     * `updated` saved into `bag`, one write each; in a dry run it is untouched.
     */
    ghost predicate Uploaded(bags: map<string, map<string, Attrs>>, writes: seq<Write>,
                             bags0: map<string, map<string, Attrs>>, writes0: seq<Write>, bag: string,
                             items: map<string, Attrs>, dir: string, updated: set<string>)
    {
      if dryRun then bags == bags0 && writes == writes0
      else bags == bags0[bag := items + LocalItems(fs, dir, updated)] && |writes| == |writes0| + |updated|
    }

    /** Every optional file the first loop of `set_data_bag_items` reads loads. */
    predicate RemoteLoadable(items: map<string, Attrs>, dir: string)
    {
      forall id :: id in Matched(items, pattern) ==> LoadItemFile(fs, dir, id, CanSkip).Ok?
    }

    /** One optional file that does not load makes the first loop fail. */
    lemma RemoteFailed(items: map<string, Attrs>, dir: string, id: string)
      requires id in items && Matches(pattern, id) && LoadItemFile(fs, dir, id, CanSkip).Err?
      ensures !RemoteLoadable(items, dir)
    {
      assert id in Matched(items, pattern);
    }

    /** One id of the first loop of `set_data_bag_items`. */
    method VisitRemoteItem(bag: string, dir: string, id: string, ghost bags0: map<string, map<string, Attrs>>,
                           ghost writes0: seq<Write>, ghost items: map<string, Attrs>, report: Report)
      returns (r: Result<Report>)
      requires bag in bags0 && bags0[bag] == items && id in items
      requires report.Synced? && id !in report.updated && Uploaded(store.bags, store.writes, bags0, writes0, bag, items, dir, report.updated)
      modifies store
      ensures store.nodes == old(store.nodes)
      ensures r == Step(items, fs, dir, pattern, differs, report, id)
      ensures Uploaded(store.bags, store.writes, bags0, writes0, bag, items, dir, if r.Ok? then r.value.updated else report.updated)
    {
      if !Matches(pattern, id) {
        r := Ok(Synced(report.processed, report.ignored + {id}, report.updated));
      } else {
        LocalItemsExclude(items, fs, dir, report.updated, id);
        assert store.bags[bag][id] == items[id];
        var changed := UpdateRemoteItem(bag, dir, id);
        if changed.Err? {
          r := Err(changed.message);
        } else {
          if changed.value && !dryRun {
            SaveOneMore(bags0, bag, items, fs, dir, report.updated, id, CanSkip);
            assert |report.updated + {id}| == |report.updated| + 1;
          }
          var updated := if changed.value then report.updated + {id} else report.updated;
          r := Ok(Synced(report.processed + {id}, report.ignored, updated));
        }
      }
    }

    /**
     * The first loop of `set_data_bag_items`: the server's items in ascending
     * id order; selected items whose local file differs are counted as
     * updated and, unless in a dry run, saved with the local version.
     */
    method UpdateRemoteItems(bag: string, dir: string) returns (r: Result<Report>, ghost ids: seq<string>)
      requires bag in store.bags
      modifies store
      ensures StrictlySorted(ids) && Elems(ids) == old(store.bags)[bag].Keys
      ensures r == Pass(old(store.bags)[bag], fs, dir, pattern, differs, ids)
      ensures store.nodes == old(store.nodes)
      ensures r.Ok? ==> Uploaded(store.bags, store.writes, old(store.bags), old(store.writes), bag, old(store.bags)[bag], dir, r.value.updated)
      ensures r.Err? && dryRun ==> store.bags == old(store.bags) && store.writes == old(store.writes)
    {
      ghost var bags0, writes0, items := store.bags, store.writes, store.bags[bag];
      var sorted := SortedIds(store.bags[bag].Keys);
      ids := sorted;
      var report := Synced({}, {}, {});
      assert LocalItems(fs, dir, {}) == map[];
      assert items + map[] == items;
      var i := 0;
      while i < |sorted|
        invariant 0 <= i <= |sorted|
        invariant store.nodes == old(store.nodes)
        invariant Pass(items, fs, dir, pattern, differs, sorted[..i]) == Ok(report)
        invariant Uploaded(store.bags, store.writes, bags0, writes0, bag, items, dir, report.updated)
      {
        var id := sorted[i];
        assert id in items by { assert id in Elems(sorted); }
        PassUpdatedWithin(items, fs, dir, pattern, differs, sorted[..i]);
        SortedNotBefore(sorted, i);
        var next := VisitRemoteItem(bag, dir, id, bags0, writes0, items, report);
        PassSnoc(items, fs, dir, pattern, differs, sorted, i);
        if next.Err? {
          PassStopsAtErr(items, fs, dir, pattern, differs, sorted, i + 1);
          return next, ids;
        }
        report := next.value;
        i := i + 1;
      }
      assert sorted[..i] == sorted;
      return Ok(report), ids;
    }

    /** One local item file of the second loop of `set_data_bag_items`. */
    method VisitLocalFile(bag: string, dir: string, path: string, ghost bags0: map<string, map<string, Attrs>>,
                          ghost writes0: seq<Write>, ghost items: map<string, Attrs>, report: Report)
      returns (r: Result<Report>)
      requires bag in bags0 && report.Synced? && report.updated <= report.processed
      requires Uploaded(store.bags, store.writes, bags0, writes0, bag, items, dir, report.updated)
      modifies store
      ensures store.nodes == old(store.nodes)
      ensures r == CreateStep(fs, dir, report, path)
      ensures Uploaded(store.bags, store.writes, bags0, writes0, bag, items, dir, if r.Ok? then r.value.updated else report.updated)
    {
      var id := ItemIdFromPath(path);
      if id in report.processed || id in report.ignored {
        r := Ok(report);
      } else {
        var loaded := LoadItemFile(fs, dir, id, MustExist);
        if loaded.Err? {
          r := Err(loaded.message);
        } else {
          if !dryRun {
            SaveOneMore(bags0, bag, items, fs, dir, report.updated, id, MustExist);
            store.CreateItem(bag, id, loaded.value.value);
            assert |report.updated + {id}| == |report.updated| + 1;
          }
          r := Ok(Synced(report.processed + {id}, report.ignored, report.updated + {id}));
        }
      }
    }

    /**
     * The second loop of `set_data_bag_items`: the listed item files in
     * ascending path order; each id neither processed nor ignored before is
     * loaded (its file must exist), counted as updated and, unless in a dry
     * run, created on the server.
     */
    method CreateLocalItems(bag: string, dir: string, ghost bags0: map<string, map<string, Attrs>>,
                            ghost writes0: seq<Write>, ghost items: map<string, Attrs>, start: Report)
      returns (r: Result<Report>, ghost paths: seq<string>)
      requires bag in bags0 && start.Synced? && start.updated <= start.processed
      requires Uploaded(store.bags, store.writes, bags0, writes0, bag, items, dir, start.updated)
      modifies store
      ensures StrictlySorted(paths) && Elems(paths) == ListedPaths(fs, dir, pattern)
      ensures r == CreatePass(fs, dir, start, paths)
      ensures store.nodes == old(store.nodes)
      ensures r.Ok? ==> Uploaded(store.bags, store.writes, bags0, writes0, bag, items, dir, r.value.updated)
      ensures r.Err? && dryRun ==> store.bags == old(store.bags) && store.writes == old(store.writes)
    {
      var sorted := SortedIds(ListedPaths(fs, dir, pattern));
      paths := sorted;
      var report := start;
      var i := 0;
      while i < |sorted|
        invariant 0 <= i <= |sorted|
        invariant store.nodes == old(store.nodes)
        invariant CreatePass(fs, dir, start, sorted[..i]) == Ok(report)
        invariant report.updated <= report.processed
        invariant Uploaded(store.bags, store.writes, bags0, writes0, bag, items, dir, report.updated)
      {
        var next := VisitLocalFile(bag, dir, sorted[i], bags0, writes0, items, report);
        CreatePassSnoc(fs, dir, start, sorted, i);
        if next.Err? {
          CreatePassStopsAtErr(fs, dir, start, sorted, i + 1);
          return next, paths;
        }
        report := next.value;
        i := i + 1;
      }
      assert sorted[..i] == sorted;
      return Ok(report), paths;
    }

    /** `get_data_bag_dir(bag)`. */
    function DataBagDirOf(bag: string): Result<string>
    {
      DataBagDir(dataBagPath, repoPath, bag)
    }

    /**
     * `set_data_bag_items`: the bag's directory must exist; a bag missing on
     * the server is skipped in a dry run and created otherwise; then the
     * server's items are compared with their files and the local-only files
     * are created. On success the report lists the selected server ids and
     * the local-only ids as processed, the others as ignored, and the
     * differing and local-only ids as updated; the bag then holds its
     * reconciled contents, one write per updated item (and one for a created
     * bag). A dry run writes nothing.
     */
    method SetDataBagItems(bag: string) returns (r: Result<Report>)
      modifies store
      ensures store.nodes == old(store.nodes)
      ensures dryRun ==> store.bags == old(store.bags) && store.writes == old(store.writes)
      ensures DataBagDirOf(bag).Err? ==>
        r == Err(DataBagDirOf(bag).message) && store.bags == old(store.bags) && store.writes == old(store.writes)
      ensures DataBagDirOf(bag).Ok? && DataBagDirOf(bag).value !in fs.dirs ==>
        r == Err(DataBagDirOf(bag).value + " does not exist or is not a directory") &&
        store.bags == old(store.bags) && store.writes == old(store.writes)
      ensures DataBagDirOf(bag).Ok? && DataBagDirOf(bag).value in fs.dirs && bag !in old(store.bags) && dryRun ==>
        r == Ok(BagMissing)
      ensures DataBagDirOf(bag).Ok? && DataBagDirOf(bag).value in fs.dirs && (bag in old(store.bags) || !dryRun) ==>
        var items := if bag in old(store.bags) then old(store.bags)[bag] else map[];
        var dir := DataBagDirOf(bag).value;
        && (r.Ok? <==> Loadable(items, fs, dir, pattern))
        && (r.Ok? ==> r == Ok(Synced(Matched(items, pattern) + LocalOnly(items, fs, dir, pattern), Ignored(items, pattern),
                                     ToUpdate(items, fs, dir, pattern, differs) + LocalOnly(items, fs, dir, pattern))))
        && (r.Ok? && !dryRun ==>
              && store.bags == old(store.bags)[bag := Reconciled(items, fs, dir, pattern, differs)]
              && |store.writes| == |old(store.writes)| + (if bag in old(store.bags) then 0 else 1) +
                   |ToUpdate(items, fs, dir, pattern, differs) + LocalOnly(items, fs, dir, pattern)|)
    {
      ghost var start := store.bags;
      var located := DataBagDirOf(bag);
      if located.Err? {
        return Err(located.message);
      }
      var dir := located.value;
      if dir !in fs.dirs {
        return Err(dir + " does not exist or is not a directory");
      }
      if bag !in store.bags {
        if dryRun {
          return Ok(BagMissing);
        }
        store.CreateBag(bag);
      }
      ghost var bags0, writes0, items := store.bags, store.writes, store.bags[bag];
      var first, ids := UpdateRemoteItems(bag, dir);
      PassSets(items, fs, dir, pattern, differs, ids);
      if first.Err? {
        return first;
      }
      var second, paths := CreateLocalItems(bag, dir, bags0, writes0, items, first.value);
      SyncPassesOutcome(items, fs, dir, pattern, differs, ids, paths);
      if second.Ok? && !dryRun {
        ghost var reconciled := Reconciled(items, fs, dir, pattern, differs);
        assert SyncPasses(items, fs, dir, pattern, differs, ids, paths) == second;
        SyncPassesUpload(items, fs, dir, pattern, differs, ids, paths);
        assert store.bags == bags0[bag := reconciled];
        if bag !in start {
          MapUpdateTwice(start, bag, map[], reconciled);
        }
      }
      return second;
    }

    /** `ensure_data_bag_dir_exists(bag)`: the bag's directory, which must be a directory. */
    function ExistingDir(bag: string): Result<string>
    {
      match DataBagDirOf(bag)
      case Err(message) => Err(message)
      case Ok(dir) => if dir in fs.dirs then Ok(dir) else Err(dir + " does not exist or is not a directory")
    }

    /** One listed file in a loop of `diff_data_bag_item_files`. */
    method PairFile(dir1: string, dir2: string, second: bool, acc: Pairing, path: string) returns (r: Result<Pairing>)
      ensures r == PairStep(fs, dir1, dir2, second, acc, path)
    {
      var here, there := Here(dir1, dir2, second), There(dir1, dir2, second);
      var id := ItemIdFromPath(path);
      if second && id in acc.processed {
        return Ok(acc);
      }
      var other := LoadItemFile(fs, there, id, CanSkip);
      if other.Err? {
        return Err(other.message);
      }
      if other.value.None? {
        return Ok(acc);
      }
      var mine := LoadItemFile(fs, here, id, MustExist);
      if mine.Err? {
        return Err(mine.message);
      }
      var processed := if second then acc.processed else acc.processed + {id};
      var pair := if second then (other.value.value, mine.value.value) else (mine.value.value, other.value.value);
      return Ok(Pairing(processed, acc.pairs[id := pair]));
    }

    /**
     * One loop of `diff_data_bag_item_files` (the second one when `second`),
     * over the listed files of its bag in ascending path order.
     */
    method PairLoop(dir1: string, dir2: string, second: bool, start: Pairing) returns (r: Result<Pairing>, ghost paths: seq<string>)
      ensures StrictlySorted(paths) && Elems(paths) == ListedPaths(fs, Here(dir1, dir2, second), pattern)
      ensures r == PairPass(fs, dir1, dir2, second, start, paths)
    {
      var sorted := SortedIds(ListedPaths(fs, Here(dir1, dir2, second), pattern));
      paths := sorted;
      var acc := start;
      for i := 0 to |sorted|
        invariant PairPass(fs, dir1, dir2, second, start, sorted[..i]) == Ok(acc)
      {
        var next := PairFile(dir1, dir2, second, acc, sorted[i]);
        PairPassSnoc(fs, dir1, dir2, second, start, sorted, i);
        if next.Err? {
          PairPassStopsAtErr(fs, dir1, dir2, second, start, sorted, i + 1);
          return next, paths;
        }
        acc := next.value;
      }
      assert sorted[..|sorted|] == sorted;
      return Ok(acc), paths;
    }

    /**
     * The two loops of `diff_data_bag_item_files`: they fail exactly when a
     * file they read does not load, and otherwise give the items to compare.
     */
    method PairItemFiles(dir1: string, dir2: string) returns (r: Result<map<string, (Attrs, Attrs)>>)
      ensures r.Ok? <==> PairsLoadable(fs, dir1, dir2, pattern)
      ensures r.Ok? ==> r.value == ToCompare(fs, dir1, dir2, pattern)
    {
      var first, paths1 := PairLoop(dir1, dir2, false, Pairing({}, map[]));
      if first.Err? {
        PairPassLoads(fs, dir1, dir2, false, Pairing({}, map[]), paths1);
        IdsOfElems(paths1);
        return Err(first.message);
      }
      var second, paths2 := PairLoop(dir1, dir2, true, first.value);
      PairPassesOutcome(fs, dir1, dir2, pattern, paths1, paths2);
      if second.Err? {
        return Err(second.message);
      }
      return Ok(second.value.pairs);
    }

    /** Compares every pair of `pairs` in the order of `ids`, decrypting through the shell `item`. */
    method CompareInOrder(item: Item, pairs: map<string, (Attrs, Attrs)>, ids: seq<string>)
      returns (outcomes: seq<(string, bool)>)
      requires forall k :: 0 <= k < |ids| ==> ids[k] in pairs
      modifies item
      ensures OutcomeIds(outcomes) == ids
      ensures forall k :: 0 <= k < |outcomes| ==>
        outcomes[k].1 == Differ(canon, decryption, pairs[ids[k]].0, pairs[ids[k]].1)
    {
      outcomes := [];
      for k := 0 to |ids|
        invariant |outcomes| == k
        invariant forall j :: 0 <= j < k ==>
          outcomes[j].0 == ids[j] && outcomes[j].1 == Differ(canon, decryption, pairs[ids[j]].0, pairs[ids[j]].1)
      {
        var (before, after) := pairs[ids[k]];
        var differs := DiffDataBagItem(item, canon, decryption, before, after);
        outcomes := outcomes + [(ids[k], differs)];
      }
    }

    /** The position of the first of `ids` the bag holds on the server, if any. */
    method FindShell(bag: string, ids: seq<string>) returns (r: Option<nat>)
      requires bag in store.bags
      ensures r.None? ==> forall k :: 0 <= k < |ids| ==> ids[k] !in store.bags[bag]
      ensures r.Some? ==> r.value < |ids| && ids[r.value] in store.bags[bag]
      ensures r.Some? ==> forall k :: 0 <= k < r.value ==> ids[k] !in store.bags[bag]
    {
      for k := 0 to |ids|
        invariant forall j :: 0 <= j < k ==> ids[j] !in store.bags[bag]
      {
        if ids[k] in store.bags[bag] {
          return Some(k);
        }
      }
      return None;
    }

    /**
     * The end of `diff_data_bag_item_files` once `pairs` are paired: nothing
     * to compare ends the command; otherwise the first paired id, in
     * ascending order, that the first bag holds on the server gives the
     * decryption shell (none, or no such bag, is fatal), and every pair is
     * compared in ascending id order.
     */
    method CompareItems(bag1: string, pairs: map<string, (Attrs, Attrs)>) returns (r: Result<FilesDiff>)
      ensures pairs == map[] ==> r == Ok(NothingToCompare)
      ensures pairs != map[] ==> (r.Ok? <==> bag1 in store.bags && pairs.Keys * store.bags[bag1].Keys != {})
      ensures r.Ok? && r.value.Compared? ==>
        && StrictlySorted(OutcomeIds(r.value.outcomes))
        && Elems(OutcomeIds(r.value.outcomes)) == pairs.Keys
        && forall k :: 0 <= k < |r.value.outcomes| ==>
             r.value.outcomes[k].1 == Differ(canon, decryption, pairs[r.value.outcomes[k].0].0,
                                             pairs[r.value.outcomes[k].0].1)
    {
      if pairs == map[] {
        return Ok(NothingToCompare);
      }
      if bag1 !in store.bags {
        return Err("undefined method `item' for nil:NilClass");
      }
      var ids := SortedIds(pairs.Keys);
      var shell := FindShell(bag1, ids);
      if shell.None? {
        assert pairs.Keys * store.bags[bag1].Keys == {} by {
          forall id | id in pairs.Keys ensures id !in store.bags[bag1] {
            var k :| 0 <= k < |ids| && ids[k] == id;
          }
        }
        return Err("Could not find any of the following items in the data bag " + bag1 + ": " + JoinWith(ids, ", "));
      }
      assert ids[shell.value] in pairs.Keys * store.bags[bag1].Keys;
      var item := new Item(store.bags[bag1][ids[shell.value]]);
      var outcomes := CompareInOrder(item, pairs, ids);
      return Ok(Compared(outcomes));
    }
    /**
     * `UploaderDataBagDiff#diff_data_bag_item_files`: both directories must
     * exist; the listed ids of either bag with a file in both are paired (a
     * file that does not load raises); an empty pairing ends the command
     * before any server call; otherwise the first paired id, in ascending
     * order, that the first bag holds on the server gives the decryption
     * shell (none is fatal), and every pair is compared in ascending id order.
     */
    method DiffDataBagItemFiles(bag1: string, bag2: string) returns (r: Result<FilesDiff>)
      ensures ExistingDir(bag1).Err? ==> r == Err(ExistingDir(bag1).message)
      ensures ExistingDir(bag1).Ok? && ExistingDir(bag2).Err? ==> r == Err(ExistingDir(bag2).message)
      ensures ExistingDir(bag1).Ok? && ExistingDir(bag2).Ok? ==>
        var dir1, dir2 := ExistingDir(bag1).value, ExistingDir(bag2).value;
        var pairs := ToCompare(fs, dir1, dir2, pattern);
        && (!PairsLoadable(fs, dir1, dir2, pattern) ==> r.Err?)
        && (PairsLoadable(fs, dir1, dir2, pattern) && pairs == map[] ==> r == Ok(NothingToCompare))
        && (PairsLoadable(fs, dir1, dir2, pattern) && pairs != map[] ==>
              (r.Ok? <==> bag1 in store.bags && pairs.Keys * store.bags[bag1].Keys != {}))
        && (r.Ok? && r.value.Compared? ==>
              && StrictlySorted(OutcomeIds(r.value.outcomes))
              && Elems(OutcomeIds(r.value.outcomes)) == pairs.Keys
              && forall k :: 0 <= k < |r.value.outcomes| ==>
                   r.value.outcomes[k].1 == Differ(canon, decryption, pairs[r.value.outcomes[k].0].0,
                                                   pairs[r.value.outcomes[k].0].1))
    {
      var located1 := ExistingDir(bag1);
      if located1.Err? {
        return Err(located1.message);
      }
      var located2 := ExistingDir(bag2);
      if located2.Err? {
        return Err(located2.message);
      }
      var dir1, dir2 := located1.value, located2.value;
      var paired := PairItemFiles(dir1, dir2);
      if paired.Err? {
        return Err(paired.message);
      }
      r := CompareItems(bag1, paired.value);
    }
  }
}

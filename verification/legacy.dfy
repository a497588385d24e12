/**
 * `KnifeSafeUpload`: the older copy of the engine. Its data bag commands have
 * no identifier pattern (so nothing is ignored), no check that a bag's
 * directory exists, no handling of a bag missing on the server and no check
 * for an empty pairing, and they decrypt an item as a whole. Where its code
 * is the same as the engine's, the engine's definitions are used, with the
 * pattern that selects every identifier.
 */
module Legacy {
  import opened Wrappers
  import opened Strings
  import opened Utils
  import opened Base
  import opened Store
  import opened DataBag

  // ---------------------------------------------------------------------
  // Configuration

  /**
   * `locate_config_value(key)`: the per-command value if truthy, else the
   * global knife one; a falsy result is reported (the second component) but
   * still returned, never raised.
   */
  function LegacyLocateConfigValue(config: Config, knife: Config, key: string): (r: (Json, bool))
    ensures r.0 == (if Truthy(Get(config, key)) then Get(config, key) else Get(knife, key))
    ensures r.1 <==> r.0 == JNull || r.0 == JBool(false)
  {
    var value := ConfiguredValue(config, knife, key);
    (value, !Truthy(value))
  }

  /**
   * Against the engine's required lookup: the legacy lookup reports every
   * value the engine raises on and returns the value wherever the engine
   * does; it also reports a value that is `false`, which the engine accepts.
   */
  lemma LegacyLocateVersusRequired(config: Config, knife: Config, key: string)
    ensures LocateConfigValue(config, knife, key, Required).Err? ==>
      LegacyLocateConfigValue(config, knife, key) == (JNull, true)
    ensures LegacyLocateConfigValue(config, knife, key) == (JNull, true) ==>
      LocateConfigValue(config, knife, key, Required).Err?
    ensures LocateConfigValue(config, knife, key, Required).Ok? ==>
      LocateConfigValue(config, knife, key, Required).value == LegacyLocateConfigValue(config, knife, key).0
    ensures LegacyLocateConfigValue(config, knife, key).0 == JBool(false) ==>
      LegacyLocateConfigValue(config, knife, key).1 && LocateConfigValue(config, knife, key, Required) == Ok(JBool(false))
  {
  }

  /** The subdirectories that mark a cookbooks repository checkout. */
  const CookbooksSubdirs: seq<string> := [".git", "environments", "data_bags"]

  /** A path with every subdirectory the engine requires has every one the legacy copy requires. */
  lemma RepoHasCookbooksSubdirs(fs: FileSystem, path: string)
    requires HasSubdirs(fs, path, RepoSubdirs)
    ensures HasSubdirs(fs, path, CookbooksSubdirs)
  {
    assert Join(path, CookbooksSubdirs[0]) == Join(path, RepoSubdirs[0]);
    assert Join(path, CookbooksSubdirs[1]) == Join(path, RepoSubdirs[2]);
    assert Join(path, CookbooksSubdirs[2]) == Join(path, RepoSubdirs[1]);
  }

  /**
   * Wherever one of the listed cookbook paths is a checkout by the engine's
   * standard, the legacy search finds a path.
   */
  lemma LegacyFindsWhereEngineFinds(fs: FileSystem, pathList: seq<string>, i: int)
    requires 0 <= i < |pathList| && HasSubdirs(fs, pathList[i], RepoSubdirs)
    ensures LastWithSubdirs(fs, pathList, CookbooksSubdirs).Some?
  {
    RepoHasCookbooksSubdirs(fs, pathList[i]);
  }

  /** The state the legacy `BaseCommand` keeps between calls. */
  class LegacyBaseCommand {
    /** `@cookbooks_path`, memoised by `GetCookbooksPath`. */
    var cookbooksPath: Option<string>

    constructor ()
      ensures cookbooksPath == None
    {
      cookbooksPath := None;
    }

    /**
     * `get_cookbooks_path`: scans the cookbook paths in list order and keeps
     * the last one with `.git`, `environments` and `data_bags`; raises when
     * none has them. A path found earlier is returned again without scanning.
     */
    method GetCookbooksPath(pathList: seq<string>, fs: FileSystem) returns (r: Result<string>)
      modifies this
      ensures old(cookbooksPath).Some? ==> cookbooksPath == old(cookbooksPath) && r == Ok(cookbooksPath.value)
      ensures old(cookbooksPath).None? ==> cookbooksPath == LastWithSubdirs(fs, pathList, CookbooksSubdirs)
      ensures r.Ok? <==> cookbooksPath.Some?
      ensures r.Ok? ==> r.value == cookbooksPath.value
      ensures r.Err? ==> r.message == "No cookbooks repository checkout path found in " + Inspect(pathList)
    {
      if cookbooksPath.None? {
        for i := 0 to |pathList|
          invariant cookbooksPath == LastWithSubdirs(fs, pathList[..i], CookbooksSubdirs)
        {
          assert pathList[..i + 1] == pathList[..i] + [pathList[i]];
          LastWithSubdirsSnoc(fs, pathList[..i], pathList[i], CookbooksSubdirs);
          if HasSubdirs(fs, pathList[i], CookbooksSubdirs) {
            cookbooksPath := Some(pathList[i]);
          }
        }
        assert pathList[..|pathList|] == pathList;
        if cookbooksPath.None? {
          return Err("No cookbooks repository checkout path found in " + Inspect(pathList));
        }
      }
      r := Ok(cookbooksPath.value);
    }
  }

  // ---------------------------------------------------------------------
  // Decryption and comparison

  /**
   * `data_bag_item.decrypt` on an item holding the given attributes: the
   * decrypted item as a whole, or `None` where the call raises one of the
   * errors the command rescues.
   */
  type ItemDecryptor = Attrs -> Option<Attrs>

  /**
   * `DataBagUtils.decrypted_attributes`: the whole-item decryption and
   * `true`, or the raw attributes and `false` when it fails.
   */
  function LegacyDecryptedAttributes(decryptItem: ItemDecryptor, attrs: Attrs): (r: (Attrs, bool))
    ensures r.1 <==> decryptItem(attrs).Some?
    ensures r.1 ==> r.0 == decryptItem(attrs).value
    ensures !r.1 ==> r.0 == attrs
  {
    match decryptItem(attrs)
    case Some(plain) => (plain, true)
    case None => (attrs, false)
  }

  /** The legacy decryption as the comparison uses it. */
  function LegacyDecryption(decryptItem: ItemDecryptor): Decryption
  {
    a => LegacyDecryptedAttributes(decryptItem, a)
  }

  /**
   * A whole-item decryption that succeeds exactly where the engine's
   * value-by-value one does, with the same plaintext, decrypts every item as
   * the engine does.
   */
  lemma LegacyDecryptionAgrees(decryptItem: ItemDecryptor, decrypt: ValueDecryptor, attrs: Attrs)
    requires decryptItem(attrs) == DecryptEach(decrypt, attrs)
    ensures LegacyDecryptedAttributes(decryptItem, attrs) == DecryptedAttributes(decrypt, attrs)
  {
  }

  /**
   * `diff_data_bag_item` of the legacy copy, the same code as the engine's
   * over the whole-item decryption: equal raw texts never differ; raw texts
   * that differ are compared decrypted where the decryption works and raw
   * where it does not.
   */
  lemma LegacyDiffOutcomes(canon: Json -> string, decryptItem: ItemDecryptor, before: Attrs, after: Attrs)
    ensures Text(canon, before) == Text(canon, after) ==> !Differ(canon, LegacyDecryption(decryptItem), before, after)
    ensures Text(canon, before) != Text(canon, after) ==>
      (Differ(canon, LegacyDecryption(decryptItem), before, after) <==>
        Text(canon, if decryptItem(before).Some? then decryptItem(before).value else before) !=
        Text(canon, if decryptItem(after).Some? then decryptItem(after).value else after))
    ensures decryptItem(before).Some? && decryptItem(before) == decryptItem(after) ==>
      !Differ(canon, LegacyDecryption(decryptItem), before, after)
  {
    var d := LegacyDecryption(decryptItem);
    assert d(before) == LegacyDecryptedAttributes(decryptItem, before);
    assert d(after) == LegacyDecryptedAttributes(decryptItem, after);
  }

  // ---------------------------------------------------------------------
  // Item files

  /**
   * `load_data_bag_item_file` of the legacy copy: as the engine's, except
   * that a file holding another id makes a bare `raise`.
   */
  function LegacyLoadItemFile(fs: FileSystem, dir: string, id: string, mode: Mode): (r: Result<Option<Attrs>>)
    ensures r.Ok? <==> LoadItemFile(fs, dir, id, mode).Ok?
    ensures r.Ok? ==> r.value == LoadItemFile(fs, dir, id, mode).value
    ensures !mode.OtherMode? && LocalItem(fs, dir, id).Some? && Lookup(LocalItem(fs, dir, id).value, "id") != Some(JStr(id)) ==>
      r == Err("unhandled exception")
    ensures !(LocalItem(fs, dir, id).Some? && Lookup(LocalItem(fs, dir, id).value, "id") != Some(JStr(id))) ==>
      r == LoadItemFile(fs, dir, id, mode)
  {
    if mode.OtherMode? then Err("unhandled exception")
    else
      var path := ItemFilePath(dir, id);
      if path in fs.files then
        var contents := fs.files[path];
        if Lookup(contents, "id") == Some(JStr(id)) then Ok(Some(contents))
        else Err("unhandled exception")
      else if mode == CanSkip then Ok(None)
      else Err("File " + path + " does not exist")
  }

  /** With the pattern that selects everything, every server id is processed and none is ignored. */
  lemma AnythingSelectsAll(items: map<string, Attrs>)
    ensures Matched(items, Anything) == items.Keys && Ignored(items, Anything) == {}
  {
  }

  // ---------------------------------------------------------------------
  // The data bag command

  /**
   * The legacy `DataBagCommand`. Its per-item work is the engine's command
   * built with the pattern that selects everything, no data bag path, the
   * cookbooks checkout in place of the repository checkout, and the
   * whole-item decryption.
   */
  class LegacyDataBagCommand {
    const engine: DataBagCommand
    /** What `get_cookbooks_path` yields. */
    const cookbooksPath: Result<string>

    /** The engine is set up as the legacy code behaves. */
    ghost predicate Valid()
    {
      engine.pattern == Anything && engine.dataBagPath == None && engine.repoPath == cookbooksPath
    }

    constructor (store: RemoteStore, fs: FileSystem, dryRun: bool, render: Json -> string,
                 decryptItem: ItemDecryptor, cookbooksPath: Result<string>)
      ensures Valid() && this.cookbooksPath == cookbooksPath
      ensures engine.store == store && engine.fs == fs && engine.dryRun == dryRun
      ensures engine.canon == SortedKeysText(render) && engine.decryption == LegacyDecryption(decryptItem)
    {
      engine := new DataBagCommand(store, fs, Anything, dryRun, render, LegacyDecryption(decryptItem), None, cookbooksPath);
      this.cookbooksPath := cookbooksPath;
    }

    /**
     * `set_data_bag_items` of the legacy copy: a bag missing on the server
     * fails on its first use; otherwise every server item is compared with
     * its file and the local-only files are created, as in the engine with
     * nothing ignored. A missing directory is not checked: it lists no file.
     */
    method SetDataBagItems(bag: string) returns (r: Result<Report>)
      requires Valid()
      modifies engine.store
      ensures engine.store.nodes == old(engine.store.nodes)
      ensures engine.dryRun ==> engine.store.bags == old(engine.store.bags) && engine.store.writes == old(engine.store.writes)
      ensures bag !in old(engine.store.bags) ==>
        r == Err("undefined method `item' for nil:NilClass") &&
        engine.store.bags == old(engine.store.bags) && engine.store.writes == old(engine.store.writes)
      ensures bag in old(engine.store.bags) && engine.DataBagDirOf(bag).Err? ==>
        r == Err(engine.DataBagDirOf(bag).message) &&
        engine.store.bags == old(engine.store.bags) && engine.store.writes == old(engine.store.writes)
      ensures engine.DataBagDirOf(bag).Ok? && bag in old(engine.store.bags) ==>
        var items, fs, dir := old(engine.store.bags)[bag], engine.fs, engine.DataBagDirOf(bag).value;
        && (r.Ok? <==> Loadable(items, fs, dir, Anything))
        && (r.Ok? ==> r == Ok(Synced(items.Keys + LocalOnly(items, fs, dir, Anything), {},
                                     ToUpdate(items, fs, dir, Anything, engine.differs) + LocalOnly(items, fs, dir, Anything))))
        && (r.Ok? && !engine.dryRun ==>
              && engine.store.bags == old(engine.store.bags)[bag := Reconciled(items, fs, dir, Anything, engine.differs)]
              && |engine.store.writes| == |old(engine.store.writes)| +
                   |ToUpdate(items, fs, dir, Anything, engine.differs) + LocalOnly(items, fs, dir, Anything)|)
    {
      if bag !in engine.store.bags {
        return Err("undefined method `item' for nil:NilClass");
      }
      var located := engine.DataBagDirOf(bag);
      if located.Err? {
        return Err(located.message);
      }
      var dir := located.value;
      ghost var bags0, writes0, items := engine.store.bags, engine.store.writes, engine.store.bags[bag];
      AnythingSelectsAll(items);
      var first, ids := engine.UpdateRemoteItems(bag, dir);
      PassSets(items, engine.fs, dir, Anything, engine.differs, ids);
      if first.Err? {
        return first;
      }
      var second, paths := engine.CreateLocalItems(bag, dir, bags0, writes0, items, first.value);
      SyncPassesOutcome(items, engine.fs, dir, Anything, engine.differs, ids, paths);
      if second.Ok? && !engine.dryRun {
        assert SyncPasses(items, engine.fs, dir, Anything, engine.differs, ids, paths) == second;
        SyncPassesUpload(items, engine.fs, dir, Anything, engine.differs, ids, paths);
      }
      return second;
    }

    /**
     * The end of the legacy `diff_data_bag_item_files` once `pairs` are
     * paired: the first paired id, in ascending order, that the first bag
     * holds on the server gives the decryption shell, and every pair is
     * compared in ascending id order. With nothing paired, or no paired id
     * on the server, the fatal report calls the undefined `log` and fails; a
     * bag missing on the server fails on its first use.
     */
    method CompareItems(bag1: string, pairs: map<string, (Attrs, Attrs)>) returns (r: Result<seq<(string, bool)>>)
      ensures pairs == map[] ==> r == Err("undefined local variable or method `log'")
      ensures pairs != map[] && bag1 !in engine.store.bags ==> r == Err("undefined method `item' for nil:NilClass")
      ensures pairs != map[] && bag1 in engine.store.bags && pairs.Keys * engine.store.bags[bag1].Keys == {} ==>
        r == Err("undefined local variable or method `log'")
      ensures r.Ok? <==> bag1 in engine.store.bags && pairs.Keys * engine.store.bags[bag1].Keys != {}
      ensures r.Ok? ==>
        && StrictlySorted(OutcomeIds(r.value))
        && Elems(OutcomeIds(r.value)) == pairs.Keys
        && forall k :: 0 <= k < |r.value| ==>
             r.value[k].1 == Differ(engine.canon, engine.decryption, pairs[r.value[k].0].0, pairs[r.value[k].0].1)
    {
      var ids := SortedIds(pairs.Keys);
      if ids == [] {
        return Err("undefined local variable or method `log'");
      }
      if bag1 !in engine.store.bags {
        return Err("undefined method `item' for nil:NilClass");
      }
      var shell := engine.FindShell(bag1, ids);
      if shell.None? {
        assert pairs.Keys * engine.store.bags[bag1].Keys == {} by {
          forall id | id in pairs.Keys ensures id !in engine.store.bags[bag1] {
            var k :| 0 <= k < |ids| && ids[k] == id;
          }
        }
        return Err("undefined local variable or method `log'");
      }
      assert ids[shell.value] in pairs.Keys * engine.store.bags[bag1].Keys;
      var item := new Item(engine.store.bags[bag1][ids[shell.value]]);
      var outcomes := engine.CompareInOrder(item, pairs, ids);
      return Ok(outcomes);
    }

    /**
     * `SafeDiffDataBag#diff_data_bag_item_files`: the ids of either bag with
     * a file in both are paired (a file that does not load raises), then
     * compared through a shell item of the first bag. The directories are
     * not checked and an empty pairing is not caught: it fails.
     */
    method DiffDataBagItemFiles(bag1: string, bag2: string) returns (r: Result<seq<(string, bool)>>)
      requires Valid()
      ensures engine.DataBagDirOf(bag1).Err? ==> r == Err(engine.DataBagDirOf(bag1).message)
      ensures engine.DataBagDirOf(bag1).Ok? ==>
        var dir1, dir2 := engine.DataBagDirOf(bag1).value, engine.DataBagDirOf(bag2).value;
        var pairs := ToCompare(engine.fs, dir1, dir2, Anything);
        && (r.Ok? <==> PairsLoadable(engine.fs, dir1, dir2, Anything) && bag1 in engine.store.bags &&
                       pairs.Keys * engine.store.bags[bag1].Keys != {})
        && (PairsLoadable(engine.fs, dir1, dir2, Anything) && pairs == map[] ==>
              r == Err("undefined local variable or method `log'"))
        && (r.Ok? ==>
              && StrictlySorted(OutcomeIds(r.value))
              && Elems(OutcomeIds(r.value)) == pairs.Keys
              && forall k :: 0 <= k < |r.value| ==>
                   r.value[k].1 == Differ(engine.canon, engine.decryption, pairs[r.value[k].0].0, pairs[r.value[k].0].1))
    {
      var located1 := engine.DataBagDirOf(bag1);
      if located1.Err? {
        return Err(located1.message);
      }
      var dir1, dir2 := located1.value, engine.DataBagDirOf(bag2).value;
      var paired := engine.PairItemFiles(dir1, dir2);
      if paired.Err? {
        return Err(paired.message);
      }
      r := CompareItems(bag1, paired.value);
    }
  }
}

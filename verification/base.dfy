/**
 * `KnifeUploader::BaseCommand`: configuration lookup, the identifier pattern
 * and the search for the Chef repository checkout.
 */
module Base {
  import opened Wrappers
  import opened Strings
  import opened Utils

  /** A configuration table; a missing key reads as nil (`JNull`). */
  type Config = map<string, Json>

  function Get(config: Config, key: string): Json
  {
    if key in config then config[key] else JNull
  }

  /** Ruby truthiness: every value except nil and false. */
  predicate Truthy(v: Json)
  {
    v != JNull && v != JBool(false)
  }

  /**
   * The class name Ruby's `TypeError` messages give for a value that has no
   * implicit conversion: `nil`, `true` and `false` by value, the class
   * otherwise.
   */
  function RubyClassName(v: Json): (r: string)
    ensures r in {"nil", "true", "false", "Integer", "String", "Array", "Hash"}
    ensures r == "nil" <==> v.JNull?
    ensures r == "Array" <==> v.JArr?
    ensures r == "String" <==> v.JStr?
  {
    match v
    case JNull => "nil"
    case JBool(b) => if b then "true" else "false"
    case JNum(_) => "Integer"
    case JStr(_) => "String"
    case JArr(_) => "Array"
    case JObj(_) => "Hash"
  }

  /** `config[key] || Chef::Config[:knife][key]`. */
  function ConfiguredValue(config: Config, knife: Config, key: string): Json
  {
    if Truthy(Get(config, key)) then Get(config, key) else Get(knife, key)
  }

  /** The `kind` argument of `locate_config_value`. */
  datatype Kind = Required | Optional | OtherKind(name: string)

  /**
   * `BaseCommand#locate_config_value`: a truthy per-command value wins over
   * the global knife configuration; a required key that resolves to nil
   * raises; a kind other than required or optional raises.
   */
  function LocateConfigValue(config: Config, knife: Config, key: string, kind: Kind): (r: Result<Json>)
    ensures kind.OtherKind? ==> r.Err?
    ensures kind == Optional ==> r.Ok?
    ensures kind == Required ==> (r.Err? <==> Get(config, key) in {JNull, JBool(false)} && Get(knife, key) == JNull)
    ensures r.Ok? && Truthy(Get(config, key)) ==> r.value == Get(config, key)
    ensures r.Ok? && !Truthy(Get(config, key)) ==> r.value == Get(knife, key)
  {
    if kind.OtherKind? then Err("unhandled exception")
    else
      var value := ConfiguredValue(config, knife, key);
      if kind == Required && value == JNull then Err(key + " not specified")
      else Ok(value)
  }

  /**
   * The identifier filter. `Anything` is the empty regex `//`; `Regex` holds
   * the source text and the compiled regex's unanchored search, so matching
   * is substring matching.
   */
  datatype Pattern = Anything | Regex(source: string, search: string -> bool)

  /** `id =~ @pattern` is truthy. */
  predicate Matches(p: Pattern, id: string)
  {
    match p
    case Anything => true
    case Regex(_, search) => search(id)
  }

  /**
   * `BaseCommand#initialize`: the configured `pattern`, compiled with
   * `Regexp.new`. `compile` is the regex engine: `Err` with the
   * `RegexpError` message for text it rejects. A configured value that is
   * not a string makes `Regexp.new` raise a `TypeError`. Without a pattern
   * every identifier matches.
   */
  function InitPattern(config: Config, knife: Config, compile: string -> Result<string -> bool>): (r: Result<Pattern>)
    ensures !Truthy(ConfiguredValue(config, knife, "pattern")) <==> r == Ok(Anything)
    ensures var v := ConfiguredValue(config, knife, "pattern");
      Truthy(v) && v.JStr? && compile(v.s).Ok? ==> r == Ok(Regex(v.s, compile(v.s).value))
    ensures var v := ConfiguredValue(config, knife, "pattern");
      Truthy(v) && v.JStr? && compile(v.s).Err? ==> r == Err(compile(v.s).message)
    ensures var v := ConfiguredValue(config, knife, "pattern");
      Truthy(v) && !v.JStr? ==> r == Err("no implicit conversion of " + RubyClassName(v) + " into String")
    ensures r.Ok? && r.value.Anything? ==> forall id :: Matches(r.value, id)
  {
    var located := LocateConfigValue(config, knife, "pattern", Optional);
    var value := located.value;
    if !Truthy(value) then Ok(Anything)
    else if !value.JStr? then Err("no implicit conversion of " + RubyClassName(value) + " into String")
    else match compile(value.s)
      case Err(message) => Err(message)
      case Ok(search) => Ok(Regex(value.s, search))
  }

  /** `File.join(dir, name)`: one separator between the parts. */
  function Join(dir: string, name: string): string
  {
    if dir != [] && dir[|dir| - 1] == '/' then dir + name else dir + "/" + name
  }

  /**
   * The local disk: the paths that are directories (`File.directory?`) and
   * the regular files, each with the JSON object `JSON.load` reads from it.
   */
  datatype FileSystem = FileSystem(dirs: set<string>, files: map<string, Entries>)

  /** `path` has every one of `subdirs` as a directory. */
  predicate HasSubdirs(fs: FileSystem, path: string, subdirs: seq<string>)
  {
    forall k :: 0 <= k < |subdirs| ==> Join(path, subdirs[k]) in fs.dirs
  }

  /** The subdirectories that mark a Chef repository checkout. */
  const RepoSubdirs: seq<string> := [".git", "data_bags", "environments", "roles"]

  /** `i` is the last position of `candidates` whose path has all of `subdirs`. */
  ghost predicate LastIndexWithSubdirs(fs: FileSystem, candidates: seq<string>, subdirs: seq<string>, i: int)
  {
    && 0 <= i < |candidates|
    && HasSubdirs(fs, candidates[i], subdirs)
    && forall j :: i < j < |candidates| ==> !HasSubdirs(fs, candidates[j], subdirs)
  }

  lemma LastWithSubdirsSnoc(fs: FileSystem, candidates: seq<string>, x: string, subdirs: seq<string>)
    ensures LastWithSubdirs(fs, candidates + [x], subdirs) ==
      if HasSubdirs(fs, x, subdirs) then Some(x) else LastWithSubdirs(fs, candidates, subdirs)
  {
    assert (candidates + [x])[..|candidates|] == candidates;
  }

  /** The last of `candidates` that has all of `subdirs`, if any. */
  function LastWithSubdirs(fs: FileSystem, candidates: seq<string>, subdirs: seq<string>): (r: Option<string>)
    ensures r.None? <==> forall i :: 0 <= i < |candidates| ==> !HasSubdirs(fs, candidates[i], subdirs)
    ensures r.Some? ==> HasSubdirs(fs, r.value, subdirs)
    ensures r.Some? ==> exists i :: LastIndexWithSubdirs(fs, candidates, subdirs, i) && candidates[i] == r.value
  {
    if candidates == [] then None
    else if HasSubdirs(fs, candidates[|candidates| - 1], subdirs) then Some(candidates[|candidates| - 1])
    else
      var r := LastWithSubdirs(fs, candidates[..|candidates| - 1], subdirs);
      assert r.Some? ==> exists i :: LastIndexWithSubdirs(fs, candidates, subdirs, i) && candidates[i] == r.value by {
        if r.Some? {
          var i :| LastIndexWithSubdirs(fs, candidates[..|candidates| - 1], subdirs, i) &&
            candidates[..|candidates| - 1][i] == r.value;
          assert LastIndexWithSubdirs(fs, candidates, subdirs, i);
        }
      }
      r
  }

  /** Each cookbook path followed by its parent directory, in list order. */
  function RepoCandidates(pathList: seq<string>, parent: string -> string): seq<string>
  {
    if pathList == [] then []
    else RepoCandidates(pathList[..|pathList| - 1], parent) + [pathList[|pathList| - 1], parent(pathList[|pathList| - 1])]
  }

  lemma RepoCandidatesSnoc(pathList: seq<string>, i: nat, parent: string -> string)
    requires i < |pathList|
    ensures RepoCandidates(pathList[..i + 1], parent) ==
      RepoCandidates(pathList[..i], parent) + [pathList[i], parent(pathList[i])]
  {
    assert pathList[..i + 1][..i] == pathList[..i];
  }

  /** `"#{path_list}"`: the list as Ruby prints an array of strings. */
  function Inspect(xs: seq<string>): string
  {
    "[" + JoinWith(Quoted(xs), ", ") + "]"
  }

  /** Each string between double quotes. */
  function Quoted(xs: seq<string>): (r: seq<string>)
    ensures |r| == |xs| && forall k :: 0 <= k < |xs| ==> r[k] == "\"" + xs[k] + "\""
  {
    if xs == [] then [] else ["\"" + xs[0] + "\""] + Quoted(xs[1..])
  }

  /** The state `BaseCommand` keeps between calls. */
  class BaseCommand {
    /** `@chef_repo_path`, memoised by `GetChefRepoPath`. */
    var chefRepoPath: Option<string>

    constructor ()
      ensures chefRepoPath == None
    {
      chefRepoPath := None;
    }

    /**
     * The inner loop of `get_chef_repo_path` for one cookbook path: the path
     * and then its parent, each kept when it is a checkout. `before` are the
     * candidates scanned so far.
     */
    method ScanCookbooksPath(cookbooksPath: string, fs: FileSystem, parent: string -> string, ghost before: seq<string>)
      requires chefRepoPath == LastWithSubdirs(fs, before, RepoSubdirs)
      modifies this
      ensures chefRepoPath == LastWithSubdirs(fs, before + [cookbooksPath, parent(cookbooksPath)], RepoSubdirs)
    {
      var pair := [cookbooksPath, parent(cookbooksPath)];
      assert before + pair[..0] == before;
      for k := 0 to 2
        invariant chefRepoPath == LastWithSubdirs(fs, before + pair[..k], RepoSubdirs)
      {
        var path := pair[k];
        assert before + pair[..k + 1] == (before + pair[..k]) + [path];
        LastWithSubdirsSnoc(fs, before + pair[..k], path, RepoSubdirs);
        if HasSubdirs(fs, path, RepoSubdirs) {
          chefRepoPath := Some(path);
        }
      }
      assert pair[..2] == pair;
    }

    /**
     * `BaseCommand#get_chef_repo_path`: scans every cookbook path and then its
     * parent, in list order, and keeps the last one that is a Chef repository
     * checkout; raises when none is. A path found earlier is returned again
     * without scanning. `parent` is `File.expand_path('..', path)`.
     */
    method GetChefRepoPath(pathList: seq<string>, fs: FileSystem, parent: string -> string) returns (r: Result<string>)
      modifies this
      ensures old(chefRepoPath).Some? ==> chefRepoPath == old(chefRepoPath) && r == Ok(chefRepoPath.value)
      ensures old(chefRepoPath).None? ==>
        chefRepoPath == LastWithSubdirs(fs, RepoCandidates(pathList, parent), RepoSubdirs)
      ensures r.Ok? <==> chefRepoPath.Some?
      ensures r.Ok? ==> r.value == chefRepoPath.value
      ensures r.Err? ==> r.message == "No chef repository checkout path could be determined using cookbook paths " + Inspect(pathList)
    {
      if chefRepoPath.None? {
        for i := 0 to |pathList|
          invariant chefRepoPath == LastWithSubdirs(fs, RepoCandidates(pathList[..i], parent), RepoSubdirs)
        {
          RepoCandidatesSnoc(pathList, i, parent);
          ScanCookbooksPath(pathList[i], fs, parent, RepoCandidates(pathList[..i], parent));
        }
        assert pathList[..|pathList|] == pathList;
        if chefRepoPath.None? {
          return Err("No chef repository checkout path could be determined using cookbook paths " + Inspect(pathList));
        }
      }
      r := Ok(chefRepoPath.value);
    }
  }
}

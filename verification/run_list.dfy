/**
 * `KnifeUploader::UploaderRunListCommand`: the run lists of the nodes of one
 * environment, merged from the environment's rules file and set on the Chef
 * server (or, in the diff command, only shown).
 */
module RunList {
  import opened Wrappers
  import opened Strings
  import opened Utils
  import opened Base
  import opened Store

  /** `validate_arguments`: exactly one argument, which names the environment. */
  function ValidateArguments(args: seq<string>): (r: Result<string>)
    ensures r.Ok? <==> |args| == 1
    ensures r.Ok? ==> r.value == args[0]
  {
    if |args| != 1 then Err("Exactly one argument expected: environment") else Ok(args[0])
  }

  // ---------------------------------------------------------------------
  // Selecting the nodes

  /** The node `name` is one `filtered_chef_nodes` keeps. */
  predicate Selects(nodes: map<string, Node>, pattern: Pattern, env: string, name: string)
  {
    Matches(pattern, name) && name in nodes && nodes[name].environment == env
  }

  /** The names of the nodes of environment `env` the pattern selects. */
  function Selected(nodes: map<string, Node>, pattern: Pattern, env: string): set<string>
  {
    set name | name in nodes && Selects(nodes, pattern, env, name)
  }

  /**
   * `filtered_chef_nodes` over the node names `names`, already in ascending
   * order: the names the pattern selects, each node fetched in full, then
   * only those in environment `env`.
   */
  function FilteredChefNodes(nodes: map<string, Node>, pattern: Pattern, env: string, names: seq<string>): seq<string>
  {
    if names == [] then []
    else
      var rest := FilteredChefNodes(nodes, pattern, env, names[..|names| - 1]);
      var name := names[|names| - 1];
      if Selects(nodes, pattern, env, name) then rest + [name] else rest
  }

  /**
   * The filter keeps exactly the selected names and keeps them in the order
   * given, so ascending names give ascending, repetition-free nodes.
   */
  lemma {:induction false} FilteredChefNodesSpec(nodes: map<string, Node>, pattern: Pattern, env: string,
                                                 names: seq<string>)
    ensures Elems(FilteredChefNodes(nodes, pattern, env, names)) ==
      set name | name in Elems(names) && Selects(nodes, pattern, env, name)
    ensures forall x :: x in FilteredChefNodes(nodes, pattern, env, names) ==> x in Elems(names)
    ensures StrictlySorted(names) ==> StrictlySorted(FilteredChefNodes(nodes, pattern, env, names))
  {
    if names != [] {
      var n := |names| - 1;
      var rest := FilteredChefNodes(nodes, pattern, env, names[..n]);
      FilteredChefNodesSpec(nodes, pattern, env, names[..n]);
      ElemsSnoc(names, n);
      assert names[..n + 1] == names;
      var chosen := set name | name in Elems(names) && Selects(nodes, pattern, env, name);
      var chosenFront := set name | name in Elems(names[..n]) && Selects(nodes, pattern, env, name);
      if Selects(nodes, pattern, env, names[n]) {
        ElemsSnoc(rest + [names[n]], |rest|);
        assert (rest + [names[n]])[..|rest|] == rest;
        assert chosen == chosenFront + {names[n]};
      } else {
        assert chosen == chosenFront;
      }
      if StrictlySorted(names) && Selects(nodes, pattern, env, names[n]) {
        assert StrictlySorted(names[..n]);
        var r := rest + [names[n]];
        forall i, j | 0 <= i < j < |r| ensures StrLt(r[i], r[j]) {
          if j == |rest| {
            assert r[i] in Elems(names[..n]);
            var k :| 0 <= k < n && names[k] == r[i];
            assert StrLt(names[k], names[n]);
          }
        }
      }
    }
  }

  /** From all node names in ascending order, the filter yields the selected nodes in ascending order. */
  lemma FilteredAllNodes(nodes: map<string, Node>, pattern: Pattern, env: string, names: seq<string>)
    requires StrictlySorted(names) && Elems(names) == nodes.Keys
    ensures StrictlySorted(FilteredChefNodes(nodes, pattern, env, names))
    ensures Elems(FilteredChefNodes(nodes, pattern, env, names)) == Selected(nodes, pattern, env)
  {
    FilteredChefNodesSpec(nodes, pattern, env, names);
  }

  // ---------------------------------------------------------------------
  // Merging the run list of one node

  /**
   * `node.name =~ /\A#{pattern}\Z/` for a rule's pattern text and a node
   * name, as the regex engine answers it: `Err` with the `RegexpError`
   * message when the interpolated text does not compile, otherwise whether
   * it matches. The pattern text is interpolated without grouping, so the
   * anchors bind tighter than an alternation in it, and `\Z` also accepts a
   * name that ends in a newline.
   */
  type RuleMatch = (string, string) -> Result<bool>

  /**
   * One rule's turn in the merge: its regex raises if it does not compile;
   * if it matches, its run list is appended with `+=`, which raises unless
   * the run list is an array.
   */
  function MergeStep(merged: seq<Json>, rule: (string, Json), ruleMatch: RuleMatch, name: string): Result<seq<Json>>
  {
    match ruleMatch(rule.0, name)
    case Err(message) => Err(message)
    case Ok(matched) =>
      if !matched then Ok(merged)
      else if rule.1.JArr? then Ok(merged + rule.1.elems)
      else Err("no implicit conversion of " + RubyClassName(rule.1) + " into Array")
  }

  /**
   * `new_run_list` for the node `name`: the run lists of the rules whose
   * regex matches the name, concatenated in file order; the first rule
   * whose step raises ends the command.
   */
  function MergedRunList(rules: Entries, ruleMatch: RuleMatch, name: string): Result<seq<Json>>
    decreases |rules|
  {
    if rules == [] then Ok([])
    else
      var front := MergedRunList(rules[..|rules| - 1], ruleMatch, name);
      if front.Err? then Err(front.message) else MergeStep(front.value, rules[|rules| - 1], ruleMatch, name)
  }

  /** The rule at `k` contributes to the node `name`: its regex matches. */
  predicate Contributes(rules: Entries, ruleMatch: RuleMatch, name: string, k: int)
  {
    0 <= k < |rules| && ruleMatch(rules[k].0, name) == Ok(true)
  }

  /** The rule lets the merge go on: its regex compiles and, if it matches, its value is an array. */
  predicate Accepted(rule: (string, Json), ruleMatch: RuleMatch, name: string)
  {
    ruleMatch(rule.0, name).Ok? && (ruleMatch(rule.0, name) == Ok(true) ==> rule.1.JArr?)
  }

  /** The error a rule the merge does not accept raises. */
  function RuleError(rule: (string, Json), ruleMatch: RuleMatch, name: string): string
  {
    match ruleMatch(rule.0, name)
    case Err(message) => message
    case Ok(_) => "no implicit conversion of " + RubyClassName(rule.1) + " into Array"
  }

  /** The sum of the lengths of the run lists that matching rules contribute. */
  function MatchedLength(rules: Entries, ruleMatch: RuleMatch, name: string): nat
  {
    if rules == [] then 0
    else
      var rule := rules[|rules| - 1];
      MatchedLength(rules[..|rules| - 1], ruleMatch, name) +
        if ruleMatch(rule.0, name) == Ok(true) && rule.1.JArr? then |rule.1.elems| else 0
  }

  /**
   * Merging succeeds exactly when every rule's regex compiles and every
   * matching rule holds an array; it
   * then holds every element of every matching rule and nothing else, with
   * no deduplication: its length is the sum of their lengths.
   */
  lemma {:induction false} MergedRunListSpec(rules: Entries, ruleMatch: RuleMatch, name: string)
    ensures MergedRunList(rules, ruleMatch, name).Ok? <==>
      forall k :: 0 <= k < |rules| ==> Accepted(rules[k], ruleMatch, name)
    ensures MergedRunList(rules, ruleMatch, name).Ok? ==>
      |MergedRunList(rules, ruleMatch, name).value| == MatchedLength(rules, ruleMatch, name)
    ensures MergedRunList(rules, ruleMatch, name).Ok? ==> forall x ::
      x in MergedRunList(rules, ruleMatch, name).value <==>
        exists k :: Contributes(rules, ruleMatch, name, k) && x in rules[k].1.elems
  {
    if rules != [] {
      var n := |rules| - 1;
      var front := rules[..n];
      MergedRunListSpec(front, ruleMatch, name);
      assert forall k :: Contributes(front, ruleMatch, name, k) <==> k < n && Contributes(rules, ruleMatch, name, k);
      if MergedRunList(rules, ruleMatch, name).Ok? {
        var merged := MergedRunList(front, ruleMatch, name).value;
        forall x | x in MergedRunList(rules, ruleMatch, name).value
          ensures exists k :: Contributes(rules, ruleMatch, name, k) && x in rules[k].1.elems
        {
          if x !in merged {
            assert Contributes(rules, ruleMatch, name, n) && x in rules[n].1.elems;
          }
        }
      } else if MergedRunList(front, ruleMatch, name).Ok? {
        assert !Accepted(rules[n], ruleMatch, name);
      }
    }
  }

  /** A failed merge fails at the first rule it does not accept, with that rule's error. */
  lemma {:induction false} MergedRunListFirstError(rules: Entries, ruleMatch: RuleMatch, name: string)
    ensures MergedRunList(rules, ruleMatch, name).Err? ==> exists k ::
      && 0 <= k < |rules|
      && !Accepted(rules[k], ruleMatch, name)
      && (forall j :: 0 <= j < k ==> Accepted(rules[j], ruleMatch, name))
      && MergedRunList(rules, ruleMatch, name).message == RuleError(rules[k], ruleMatch, name)
  {
    if rules != [] {
      var n := |rules| - 1;
      var front := rules[..n];
      MergedRunListFirstError(front, ruleMatch, name);
      if MergedRunList(front, ruleMatch, name).Err? {
        var k :| && 0 <= k < n
                 && !Accepted(front[k], ruleMatch, name)
                 && (forall j :: 0 <= j < k ==> Accepted(front[j], ruleMatch, name))
                 && MergedRunList(front, ruleMatch, name).message == RuleError(front[k], ruleMatch, name);
        assert forall j :: 0 <= j <= k ==> front[j] == rules[j];
      } else if MergedRunList(rules, ruleMatch, name).Err? {
        MergedRunListSpec(front, ruleMatch, name);
        assert forall j :: 0 <= j < n ==> front[j] == rules[j];
      }
    }
  }

  /** The rules file read in two parts merges to the two parts' merges, one after the other. */
  lemma {:induction false} MergedRunListAppend(a: Entries, b: Entries, ruleMatch: RuleMatch, name: string)
    ensures MergedRunList(a + b, ruleMatch, name).Ok? <==>
      MergedRunList(a, ruleMatch, name).Ok? && MergedRunList(b, ruleMatch, name).Ok?
    ensures MergedRunList(a + b, ruleMatch, name).Ok? ==>
      MergedRunList(a + b, ruleMatch, name).value ==
        MergedRunList(a, ruleMatch, name).value + MergedRunList(b, ruleMatch, name).value
    decreases |b|
  {
    if b == [] {
      assert a + b == a;
    } else {
      var n := |b| - 1;
      MergedRunListAppend(a, b[..n], ruleMatch, name);
      assert (a + b)[..|a + b| - 1] == a + b[..n];
      assert (a + b)[|a + b| - 1] == b[n];
    }
  }

  /** A node no rule matches gets the empty run list. */
  lemma {:induction false} MergedRunListNoMatch(rules: Entries, ruleMatch: RuleMatch, name: string)
    requires forall k :: 0 <= k < |rules| ==> ruleMatch(rules[k].0, name) == Ok(false)
    ensures MergedRunList(rules, ruleMatch, name) == Ok([])
  {
    if rules != [] {
      MergedRunListNoMatch(rules[..|rules| - 1], ruleMatch, name);
    }
  }

  /** The merge over one more rule takes one more step, unless it has already failed. */
  lemma MergedRunListSnoc(rules: Entries, ruleMatch: RuleMatch, name: string, k: int)
    requires 0 <= k < |rules|
    ensures MergedRunList(rules[..k], ruleMatch, name).Err? ==> MergedRunList(rules[..k + 1], ruleMatch, name) == MergedRunList(rules[..k], ruleMatch, name)
    ensures MergedRunList(rules[..k], ruleMatch, name).Ok? ==>
      MergedRunList(rules[..k + 1], ruleMatch, name) ==
        MergeStep(MergedRunList(rules[..k], ruleMatch, name).value, rules[k], ruleMatch, name)
  {
    assert rules[..k + 1][..k] == rules[..k];
  }

  /** The first failure ends the merge. */
  lemma {:induction false} MergedRunListStopsAtErr(rules: Entries, ruleMatch: RuleMatch, name: string,
                                                   k: int)
    requires 0 <= k <= |rules| && MergedRunList(rules[..k], ruleMatch, name).Err?
    ensures MergedRunList(rules, ruleMatch, name) == MergedRunList(rules[..k], ruleMatch, name)
    decreases |rules| - k
  {
    if k < |rules| {
      MergedRunListSnoc(rules, ruleMatch, name, k);
      MergedRunListStopsAtErr(rules, ruleMatch, name, k + 1);
    } else {
      assert rules[..k] == rules;
    }
  }

  // ---------------------------------------------------------------------
  // Skipping a node

  /**
   * `unless new_run_list`, as written: the node is skipped when the merged
   * list is not truthy. An array is truthy in Ruby even when empty.
   */
  predicate SkipsAsWritten(merged: seq<Json>)
  {
    !Truthy(JArr(merged))
  }

  /** The skip never happens: every node, matched by a rule or not, gets its merged list. */
  lemma SkipsAsWrittenNever(merged: seq<Json>)
    ensures !SkipsAsWritten(merged)
  {
  }

  /**
   * The nodes once the run lists of `selected` are set as the code does it:
   * each node whose merge succeeds gets its merged list, since the skip
   * never happens.
   */
  function RunListsSet(nodes: map<string, Node>, rules: Entries, ruleMatch: RuleMatch,
                       selected: set<string>): map<string, Node>
  {
    map name | name in nodes ::
      if name in selected && MergedRunList(rules, ruleMatch, name).Ok?
      then nodes[name].(runList := MergedRunList(rules, ruleMatch, name).value)
      else nodes[name]
  }

  /** The names of `names` that sort before `bound`. */
  function Below(names: set<string>, bound: string): set<string>
  {
    set name | name in names && StrLt(name, bound)
  }

  /**
   * The node loop over the selected nodes of `nodes0` stopped with `r` at
   * the node `failed`, the first in name order whose merge raises, leaving
   * the nodes `nodes` and the save log `writes` (`writes0` before): the
   * nodes before it are set and saved (unless in the diff command) and no
   * other node is.
   */
  ghost predicate StoppedAt(nodes0: map<string, Node>, pattern: Pattern, env: string, rules: Entries,
                            ruleMatch: RuleMatch, dryRun: bool, failed: string, r: Result<seq<string>>,
                            nodes: map<string, Node>, writes0: seq<Write>, writes: seq<Write>)
  {
    var before := Below(Selected(nodes0, pattern, env), failed);
    && failed in Selected(nodes0, pattern, env)
    && MergedRunList(rules, ruleMatch, failed).Err?
    && r == Err(MergedRunList(rules, ruleMatch, failed).message)
    && (forall name :: name in before ==> MergedRunList(rules, ruleMatch, name).Ok?)
    && (dryRun ==> nodes == nodes0 && writes == writes0)
    && (!dryRun ==> nodes == RunListsSet(nodes0, rules, ruleMatch, before) && |writes| == |writes0| + |before|)
  }

  /**
   * A loop over the selected nodes in ascending order that has visited the
   * first `i` of them and fails at the next one has stopped at that node.
   */
  lemma StoppedAtNext(nodes0: map<string, Node>, pattern: Pattern, env: string, rules: Entries,
                      ruleMatch: RuleMatch, dryRun: bool, names: seq<string>, i: int,
                      nodes: map<string, Node>, writes0: seq<Write>, writes: seq<Write>)
    requires StrictlySorted(names) && Elems(names) == Selected(nodes0, pattern, env)
    requires 0 <= i < |names| && MergedRunList(rules, ruleMatch, names[i]).Err?
    requires forall name :: name in Elems(names[..i]) ==> MergedRunList(rules, ruleMatch, name).Ok?
    requires dryRun ==> nodes == nodes0 && writes == writes0
    requires !dryRun ==>
      && nodes == RunListsSet(nodes0, rules, ruleMatch, Elems(names[..i]))
      && |writes| == |writes0| + |Elems(names[..i])|
    ensures StoppedAt(nodes0, pattern, env, rules, ruleMatch, dryRun, names[i],
                      Err(MergedRunList(rules, ruleMatch, names[i]).message), nodes, writes0, writes)
  {
    SortedPrefix(names, i);
    assert Below(Selected(nodes0, pattern, env), names[i]) == Elems(names[..i]);
    assert names[i] in Elems(names);
  }

  /** Setting the run list of one more node. */
  lemma RunListsSetAdd(nodes: map<string, Node>, rules: Entries, ruleMatch: RuleMatch,
                       selected: set<string>, name: string)
    requires name in nodes && MergedRunList(rules, ruleMatch, name).Ok?
    ensures RunListsSet(nodes, rules, ruleMatch, selected)
      [name := nodes[name].(runList := MergedRunList(rules, ruleMatch, name).value)] ==
      RunListsSet(nodes, rules, ruleMatch, selected + {name})
  {
  }

  /**
   * As written, a selected node that no rule matches loses its run list: it
   * is set to the empty list.
   */
  lemma UnmatchedNodeCleared(nodes: map<string, Node>, rules: Entries, ruleMatch: RuleMatch,
                             selected: set<string>, name: string)
    requires name in nodes && name in selected
    requires forall k :: 0 <= k < |rules| ==> ruleMatch(rules[k].0, name) == Ok(false)
    ensures name in RunListsSet(nodes, rules, ruleMatch, selected)
    ensures RunListsSet(nodes, rules, ruleMatch, selected)[name].runList == []
  {
    MergedRunListNoMatch(rules, ruleMatch, name);
  }

  /** The skip the warning describes: no run list was defined for the node. */
  predicate SkipsIntended(merged: seq<Json>)
  {
    merged == []
  }

  /** The nodes once the run lists of `selected` are set with the intended skip. */
  function IntendedRunListsSet(nodes: map<string, Node>, rules: Entries, ruleMatch: RuleMatch,
                               selected: set<string>): map<string, Node>
  {
    map name | name in nodes ::
      if name in selected && MergedRunList(rules, ruleMatch, name).Ok? &&
         !SkipsIntended(MergedRunList(rules, ruleMatch, name).value)
      then nodes[name].(runList := MergedRunList(rules, ruleMatch, name).value)
      else nodes[name]
  }

  /**
   * With the intended skip, a selected node that no rule matches keeps its
   * run list, and every other node ends as the code leaves it.
   */
  lemma {:induction false} IntendedKeepsUnmatched(nodes: map<string, Node>, rules: Entries,
                                                  ruleMatch: RuleMatch, selected: set<string>, name: string)
    requires name in nodes && name in selected
    ensures (forall k :: 0 <= k < |rules| ==> ruleMatch(rules[k].0, name) == Ok(false)) ==>
      IntendedRunListsSet(nodes, rules, ruleMatch, selected)[name] == nodes[name]
    ensures MergedRunList(rules, ruleMatch, name).Ok? && MergedRunList(rules, ruleMatch, name).value != [] ==>
      IntendedRunListsSet(nodes, rules, ruleMatch, selected)[name] == RunListsSet(nodes, rules, ruleMatch, selected)[name]
  {
    if forall k :: 0 <= k < |rules| ==> ruleMatch(rules[k].0, name) == Ok(false) {
      MergedRunListNoMatch(rules, ruleMatch, name);
    }
  }

  // ---------------------------------------------------------------------
  // The command

  /** `UploaderRunListCommand` with the settings it reads. */
  class RunListCommand {
    /** The Chef server client. */
    const store: RemoteStore
    /** The local disk. */
    const fs: FileSystem
    /** `@pattern`. */
    const pattern: Pattern
    /** The regex engine's answer to `name =~ /\A#{pattern}\Z/`. */
    const ruleMatch: RuleMatch
    /** `@env_name`. */
    const env: string
    /** `@dry_run`: the diff command shows the changes without saving. */
    const dryRun: bool
    /** What `get_chef_repo_path` yields. */
    const repoPath: Result<string>

    constructor (store: RemoteStore, fs: FileSystem, pattern: Pattern, ruleMatch: RuleMatch,
                 env: string, dryRun: bool, repoPath: Result<string>)
      ensures this.store == store && this.fs == fs && this.pattern == pattern && this.ruleMatch == ruleMatch
      ensures this.env == env && this.dryRun == dryRun && this.repoPath == repoPath
    {
      this.store := store;
      this.fs := fs;
      this.pattern := pattern;
      this.ruleMatch := ruleMatch;
      this.env := env;
      this.dryRun := dryRun;
      this.repoPath := repoPath;
    }

    /** The rules file of the environment: `run_lists/<env>.json` in the repository checkout. */
    function RunListsPath(): Result<string>
    {
      match repoPath
      case Err(message) => Err(message)
      case Ok(repo) => Ok(Join(Join(repo, "run_lists"), env + ".json"))
    }

    /** The loop of `set_run_lists` that builds `new_run_list` for the node `name`. */
    method MergeRunList(rules: Entries, name: string) returns (r: Result<seq<Json>>)
      ensures r == MergedRunList(rules, ruleMatch, name)
    {
      var merged := [];
      for k := 0 to |rules|
        invariant MergedRunList(rules[..k], ruleMatch, name) == Ok(merged)
      {
        MergedRunListSnoc(rules, ruleMatch, name, k);
        var (rulePattern, runList) := rules[k];
        var matched := ruleMatch(rulePattern, name);
        if matched.Err? {
          MergedRunListStopsAtErr(rules, ruleMatch, name, k + 1);
          return Err(matched.message);
        }
        if matched.value {
          if !runList.JArr? {
            MergedRunListStopsAtErr(rules, ruleMatch, name, k + 1);
            return Err("no implicit conversion of " + RubyClassName(runList) + " into Array");
          }
          merged := merged + runList.elems;
        }
      }
      assert rules[..|rules|] == rules;
      return Ok(merged);
    }

    /**
     * One iteration of `set_run_lists`: merges the run list of the node
     * `name` and, unless in the diff command, saves the node with it.
     * `done` are the nodes visited before.
     */
    method VisitNode(rules: Entries, name: string, ghost nodes0: map<string, Node>, ghost done: set<string>)
      returns (r: Result<()>)
      requires name in nodes0
      requires !dryRun ==> store.nodes == RunListsSet(nodes0, rules, ruleMatch, done)
      modifies store
      ensures r.Ok? <==> MergedRunList(rules, ruleMatch, name).Ok?
      ensures r.Err? ==> r == Err(MergedRunList(rules, ruleMatch, name).message)
      ensures store.bags == old(store.bags)
      ensures dryRun || r.Err? ==> store.nodes == old(store.nodes) && store.writes == old(store.writes)
      ensures r.Ok? && !dryRun ==>
        && store.nodes == RunListsSet(nodes0, rules, ruleMatch, done + {name})
        && |store.writes| == |old(store.writes)| + 1
    {
      var merged := MergeRunList(rules, name);
      if merged.Err? {
        return Err(merged.message);
      }
      if !SkipsAsWritten(merged.value) && !dryRun {
        assert name in store.nodes;
        RunListsSetAdd(nodes0, rules, ruleMatch, done, name);
        store.SaveNode(name, merged.value);
      }
      return Ok(());
    }

    /**
     * The node loop of `set_run_lists` over the rules `rules`: visits the
     * selected nodes in ascending name order and gives each its merged run
     * list; unless in the diff command, every visited node is saved with it,
     * whether or not it changed. The result lists the visited nodes.
     */
    method UpdateRunLists(rules: Entries) returns (r: Result<seq<string>>)
      modifies store
      ensures store.bags == old(store.bags)
      ensures dryRun ==> store.nodes == old(store.nodes) && store.writes == old(store.writes)
      ensures r.Ok? <==> forall name :: name in Selected(old(store.nodes), pattern, env) ==>
        MergedRunList(rules, ruleMatch, name).Ok?
      ensures r.Ok? ==> StrictlySorted(r.value) && Elems(r.value) == Selected(old(store.nodes), pattern, env)
      ensures r.Ok? && !dryRun ==>
        && store.nodes == RunListsSet(old(store.nodes), rules, ruleMatch, Selected(old(store.nodes), pattern, env))
        && |store.writes| == |old(store.writes)| + |r.value|
    ensures r.Err? ==> exists failed :: StoppedAt(old(store.nodes), pattern, env, rules, ruleMatch, dryRun, failed, r,
                                                  store.nodes, old(store.writes), store.writes)
    {
      ghost var nodes0, writes0 := store.nodes, store.writes;
      var names := SortedIds(store.nodes.Keys);
      var filtered := FilteredChefNodes(store.nodes, pattern, env, names);
      FilteredAllNodes(nodes0, pattern, env, names);
      ghost var done: set<string> := {};
      assert RunListsSet(nodes0, rules, ruleMatch, {}) == nodes0;
      for i := 0 to |filtered|
        invariant store.bags == old(store.bags)
        invariant done == Elems(filtered[..i])
        invariant forall name :: name in done ==> MergedRunList(rules, ruleMatch, name).Ok?
        invariant dryRun ==> store.nodes == nodes0 && store.writes == writes0
        invariant !dryRun ==> store.nodes == RunListsSet(nodes0, rules, ruleMatch, done)
        invariant !dryRun ==> |store.writes| == |writes0| + i
        invariant |done| == i
      {
        assert filtered[i] in Elems(filtered);
        ElemsSnoc(filtered, i);
        SortedNotBefore(filtered, i);
        var visited := VisitNode(rules, filtered[i], nodes0, done);
        if visited.Err? {
          StoppedAtNext(nodes0, pattern, env, rules, ruleMatch, dryRun, filtered, i, store.nodes,
                        writes0, store.writes);
          return Err(visited.message);
        }
        done := done + {filtered[i]};
      }
      assert filtered[..|filtered|] == filtered;
      return Ok(filtered);
    }

    /**
     * `set_run_lists`: reads the environment's rules file (a missing one
     * raises), then sets the run lists of the selected nodes.
     */
    method SetRunLists() returns (r: Result<seq<string>>)
      modifies store
      ensures store.bags == old(store.bags)
      ensures dryRun ==> store.nodes == old(store.nodes) && store.writes == old(store.writes)
      ensures RunListsPath().Err? ==>
        r == Err(RunListsPath().message) && store.nodes == old(store.nodes) && store.writes == old(store.writes)
      ensures RunListsPath().Ok? && RunListsPath().value !in fs.files ==>
        r == Err("No such file or directory @ rb_sysopen - " + RunListsPath().value) &&
        store.nodes == old(store.nodes) && store.writes == old(store.writes)
      ensures RunListsPath().Ok? && RunListsPath().value in fs.files ==>
        var rules := fs.files[RunListsPath().value];
        var selected := Selected(old(store.nodes), pattern, env);
        && (r.Ok? <==> forall name :: name in selected ==> MergedRunList(rules, ruleMatch, name).Ok?)
        && (r.Ok? ==> StrictlySorted(r.value) && Elems(r.value) == selected)
        && (r.Ok? && !dryRun ==>
              && store.nodes == RunListsSet(old(store.nodes), rules, ruleMatch, selected)
              && |store.writes| == |old(store.writes)| + |r.value|)
        && (r.Err? ==> exists failed :: StoppedAt(old(store.nodes), pattern, env, rules, ruleMatch, dryRun, failed, r,
                                                   store.nodes, old(store.writes), store.writes))
    {
      var located := RunListsPath();
      if located.Err? {
        return Err(located.message);
      }
      var path := located.value;
      if path !in fs.files {
        return Err("No such file or directory @ rb_sysopen - " + path);
      }
      r := UpdateRunLists(fs.files[path]);
    }
  }
}

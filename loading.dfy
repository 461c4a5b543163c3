/**
 * Opening every directory named on the command line into an ordered
 * dictionary of model groups (`load_designs` in show_my_designs,
 * `load_models` in show_me_pdbs).
 */
module Loading {
  import opened Wrappers
  import opened Ordering
  import opened Disk
  import opened Group

  /**
   * The keys of an ordered dictionary assigned `keys` in turn: each key
   * once, at the place of its first assignment.
   */
  function Dedup(keys: seq<string>): (r: seq<string>)
    ensures Distinct(r)
    ensures forall k :: k in r <==> k in keys
  {
    AppendMissing([], keys)
  }

  /** Directories named once each keep their command-line order. */
  lemma DedupOfDistinct(keys: seq<string>)
    requires Distinct(keys)
    ensures Dedup(keys) == keys
  {
    AppendMissingOfDistinct([], keys);
  }

  datatype Groups = Groups(keys: seq<string>, groups: map<string, ModelGroup>)

  /**
   * `designs[key] = group` on an ordered dictionary: a new key goes to the
   * end, an existing key keeps its place and gets the new value.
   */
  function Assign(d: Groups, key: string, g: ModelGroup): Groups
  {
    Groups(if key in d.groups then d.keys else d.keys + [key], d.groups[key := g])
  }

  /** `j` is the last position holding `directories[j]`. */
  predicate LastAt(directories: seq<string>, j: int)
    requires 0 <= j < |directories|
  {
    forall i :: j < i < |directories| ==> directories[i] != directories[j]
  }

  /** The dictionary built by assigning `loaded[j]` to `directories[j]` in turn. */
  function Collect(directories: seq<string>, loaded: seq<ModelGroup>): (r: Groups)
    requires |loaded| == |directories|
    ensures forall k :: k in r.groups <==> k in directories
    ensures forall k :: k in r.groups ==> exists j :: 0 <= j < |directories| && directories[j] == k && r.groups[k] == loaded[j]
  {
    if directories == [] then Groups([], map[])
    else
      var n := |directories| - 1;
      var front := Collect(directories[..n], loaded[..n]);
      assert forall k :: k in directories[..n] ==> k in directories;
      assert directories == directories[..n] + [directories[n]];
      Assign(front, directories[n], loaded[n])
  }

  /** Each directory maps to the group opened at its last occurrence: a later assignment replaces an earlier one. */
  lemma {:induction false} CollectLastWins(directories: seq<string>, loaded: seq<ModelGroup>)
    requires |loaded| == |directories|
    ensures forall j :: 0 <= j < |directories| && LastAt(directories, j) ==>
      directories[j] in Collect(directories, loaded).groups && Collect(directories, loaded).groups[directories[j]] == loaded[j]
  {
    if directories != [] {
      var n := |directories| - 1;
      var front := directories[..n];
      var before := Collect(front, loaded[..n]).groups;
      var after := Collect(directories, loaded).groups;
      assert after == before[directories[n] := loaded[n]];
      CollectLastWins(front, loaded[..n]);
      forall j | 0 <= j < |directories| && LastAt(directories, j)
        ensures directories[j] in after && after[directories[j]] == loaded[j]
      {
        if j < n {
          assert front[j] == directories[j] && LastAt(front, j);
          assert directories[j] != directories[n];
        }
      }
    }
  }

  /** The keys of the collected dictionary are the directories in first-occurrence order. */
  lemma {:induction false} CollectKeys(directories: seq<string>, loaded: seq<ModelGroup>)
    requires |loaded| == |directories|
    ensures Collect(directories, loaded).keys == Dedup(directories)
  {
    if directories != [] {
      var n := |directories| - 1;
      CollectKeys(directories[..n], loaded[..n]);
      AppendMissingStep([], directories, n);
      assert directories[..n + 1] == directories;
    }
  }

  /** `_load_models` leaves every node well formed. */
  lemma AfterLoadWellFormed(nodes: map<string, Node>, dir: string, useCache: bool)
    requires forall d :: d in nodes ==> WellFormed(nodes[d])
    ensures forall d :: d in AfterLoad(nodes, dir, useCache) ==> WellFormed(AfterLoad(nodes, dir, useCache)[d])
  {
  }

  /** Opening a list of directories: the snapshots in order or the first failure, and the file system left behind. */
  datatype LoadRun = LoadRun(outcome: Result<seq<Snapshot>, LoadError>, nodes: map<string, Node>)

  /** A run of the remaining directories, after `done` were opened. */
  function Resume(done: seq<Snapshot>, rest: LoadRun): LoadRun
  {
    LoadRun(if rest.outcome.Ok? then Ok(done + rest.outcome.value) else rest.outcome, rest.nodes)
  }

  /**
   * What opening `directories` in turn computes: each directory is opened
   * on the file system the previous ones left, and the first failure ends
   * the run (its cache write, if any, has already happened).
   */
  ghost function LoadAllSpec(nodes: map<string, Node>, directories: seq<string>, useCache: bool): (r: LoadRun)
    requires forall d :: d in nodes ==> WellFormed(nodes[d])
    ensures forall d :: d in r.nodes ==> WellFormed(r.nodes[d])
    ensures r.outcome.Ok? ==> |r.outcome.value| == |directories|
    decreases |directories|, 1
  {
    if directories == [] then LoadRun(Ok([]), nodes) else OpenFirst(nodes, directories, useCache)
  }

  /** The first directory is opened, then the rest on the file system it left. */
  ghost function OpenFirst(nodes: map<string, Node>, directories: seq<string>, useCache: bool): (r: LoadRun)
    requires forall d :: d in nodes ==> WellFormed(nodes[d])
    requires directories != []
    ensures forall d :: d in r.nodes ==> WellFormed(r.nodes[d])
    ensures r.outcome.Ok? ==> |r.outcome.value| == |directories|
    decreases |directories|, 0
  {
    AfterLoadWellFormed(nodes, directories[0], useCache);
    var after := AfterLoad(nodes, directories[0], useCache);
    match OpenSpec(nodes, directories[0], useCache)
    case Err(e) => LoadRun(Err(e), after)
    case Ok(s) => Resume([s], LoadAllSpec(after, directories[1..], useCache))
  }

  /** A run continued with more directories, unless it has already failed. */
  ghost function Then(run: LoadRun, more: seq<string>, useCache: bool): LoadRun
    requires forall d :: d in run.nodes ==> WellFormed(run.nodes[d])
  {
    if run.outcome.Err? then run else Resume(run.outcome.value, LoadAllSpec(run.nodes, more, useCache))
  }

  /**
   * Opening `first + more` is opening `first`, then `more` on the file
   * system `first` left, with no directory of `more` opened once `first`
   * has failed.
   */
  lemma {:induction false} LoadAllConcat(nodes: map<string, Node>, first: seq<string>, more: seq<string>, useCache: bool)
    requires forall d :: d in nodes ==> WellFormed(nodes[d])
    ensures LoadAllSpec(nodes, first + more, useCache) == Then(LoadAllSpec(nodes, first, useCache), more, useCache)
    decreases |first|
  {
    if first == [] {
      assert first + more == more;
      var rest := LoadAllSpec(nodes, more, useCache);
      assert rest.outcome.Ok? ==> [] + rest.outcome.value == rest.outcome.value;
    } else {
      var d := first[0];
      AfterLoadWellFormed(nodes, d, useCache);
      var after := AfterLoad(nodes, d, useCache);
      assert (first + more)[0] == d && (first + more)[1..] == first[1..] + more;
      LoadAllConcat(after, first[1..], more, useCache);
      match OpenSpec(nodes, d, useCache)
      case Err(e) =>
      case Ok(s) =>
        var front := LoadAllSpec(after, first[1..], useCache);
        if front.outcome.Ok? {
          var rest := LoadAllSpec(front.nodes, more, useCache);
          if rest.outcome.Ok? {
            assert [s] + (front.outcome.value + rest.outcome.value) == ([s] + front.outcome.value) + rest.outcome.value;
          }
        }
    }
  }

  /**
   * A directory that fails at its turn, after every earlier one opened,
   * ends the run with its own error; later directories are not opened.
   */
  lemma FailsAtItsTurn(nodes: map<string, Node>, first: seq<string>, dir: string, more: seq<string>, useCache: bool)
    requires forall d :: d in nodes ==> WellFormed(nodes[d])
    requires LoadAllSpec(nodes, first, useCache).outcome.Ok?
    requires OpenSpec(LoadAllSpec(nodes, first, useCache).nodes, dir, useCache).Err?
    ensures var at := LoadAllSpec(nodes, first, useCache).nodes;
      LoadAllSpec(nodes, first + [dir] + more, useCache) ==
      LoadRun(Err(OpenSpec(at, dir, useCache).error), AfterLoad(at, dir, useCache))
  {
    var at := LoadAllSpec(nodes, first, useCache).nodes;
    assert first + [dir] + more == first + ([dir] + more);
    LoadAllConcat(nodes, first, [dir] + more, useCache);
    assert LoadAllSpec(at, [dir] + more, useCache) == OpenFirst(at, [dir] + more, useCache);
  }

  /**
   * Directory `k` is where the run fails with `e`: every earlier directory
   * opened, and opening it on the file system they left fails with `e`.
   */
  ghost predicate FailsAt(nodes: map<string, Node>, directories: seq<string>, k: nat, useCache: bool, e: LoadError)
    requires forall d :: d in nodes ==> WellFormed(nodes[d])
    requires k < |directories|
  {
    var before := LoadAllSpec(nodes, directories[..k], useCache);
    before.outcome.Ok? && OpenSpec(before.nodes, directories[k], useCache) == Err(e)
  }

  /**
   * Conversely, a run that fails failed at some directory's turn, with that
   * directory's own error.
   */
  lemma {:induction false} FailureHasItsTurn(nodes: map<string, Node>, directories: seq<string>, useCache: bool)
    requires forall d :: d in nodes ==> WellFormed(nodes[d])
    requires LoadAllSpec(nodes, directories, useCache).outcome.Err?
    ensures exists k: nat ::
      k < |directories| && FailsAt(nodes, directories, k, useCache, LoadAllSpec(nodes, directories, useCache).outcome.error)
    decreases |directories|
  {
    var n := |directories| - 1;
    var front := directories[..n];
    var e := LoadAllSpec(nodes, directories, useCache).outcome.error;
    if LoadAllSpec(nodes, front, useCache).outcome.Err? {
      FailedPrefix(nodes, directories, useCache);
      FailureHasItsTurn(nodes, front, useCache);
      var k: nat :| k < |front| && FailsAt(nodes, front, k, useCache, e);
      assert directories[..k] == front[..k] && directories[k] == front[k];
      assert FailsAt(nodes, directories, k, useCache, e);
    } else {
      assert directories == front + [directories[n]];
      FailedLast(nodes, front, directories[n], useCache);
      assert FailsAt(nodes, directories, n, useCache, e);
    }
  }

  /** A run whose front has already failed fails as its front did. */
  lemma FailedPrefix(nodes: map<string, Node>, directories: seq<string>, useCache: bool)
    requires forall d :: d in nodes ==> WellFormed(nodes[d])
    requires directories != []
    requires LoadAllSpec(nodes, directories[..|directories| - 1], useCache).outcome.Err?
    ensures LoadAllSpec(nodes, directories, useCache) == LoadAllSpec(nodes, directories[..|directories| - 1], useCache)
  {
    var n := |directories| - 1;
    assert directories == directories[..n] + [directories[n]];
    LoadAllConcat(nodes, directories[..n], [directories[n]], useCache);
  }

  /** A run whose front opened and that still fails fails at its last directory, with that directory's error. */
  lemma FailedLast(nodes: map<string, Node>, front: seq<string>, d: string, useCache: bool)
    requires forall d :: d in nodes ==> WellFormed(nodes[d])
    requires LoadAllSpec(nodes, front, useCache).outcome.Ok?
    requires LoadAllSpec(nodes, front + [d], useCache).outcome.Err?
    ensures OpenSpec(LoadAllSpec(nodes, front, useCache).nodes, d, useCache) ==
      Err(LoadAllSpec(nodes, front + [d], useCache).outcome.error)
  {
    LoadAllConcat(nodes, front, [d], useCache);
    OneFails(LoadAllSpec(nodes, front, useCache).nodes, d, useCache);
  }

  /** A run of one directory fails exactly as opening it does. */
  lemma OneFails(nodes: map<string, Node>, d: string, useCache: bool)
    requires forall d :: d in nodes ==> WellFormed(nodes[d])
    requires LoadAllSpec(nodes, [d], useCache).outcome.Err?
    ensures OpenSpec(nodes, d, useCache) == Err(LoadAllSpec(nodes, [d], useCache).outcome.error)
  {
    FirstOpened(nodes, [d], useCache);
    assert [d][1..] == [];
  }

  /**
   * Having opened `done`, the run of all `directories` from `start` is
   * what is left of it from `nodes`.
   */
  ghost predicate RunsOn(start: map<string, Node>, directories: seq<string>, useCache: bool,
                         done: seq<Snapshot>, nodes: map<string, Node>)
    requires (forall d :: d in start ==> WellFormed(start[d])) && (forall d :: d in nodes ==> WellFormed(nodes[d]))
    requires |done| <= |directories|
  {
    LoadAllSpec(start, directories, useCache) == Resume(done, LoadAllSpec(nodes, directories[|done|..], useCache))
  }

  /** Nothing is opened yet: the run is all ahead. */
  lemma RunStarts(start: map<string, Node>, directories: seq<string>, useCache: bool)
    requires forall d :: d in start ==> WellFormed(start[d])
    ensures RunsOn(start, directories, useCache, [], start)
  {
    assert directories[0..] == directories;
    var whole := LoadAllSpec(start, directories, useCache);
    assert whole.outcome.Ok? ==> [] + whole.outcome.value == whole.outcome.value;
  }

  /** Every directory is opened: the run's snapshots are those taken, its file system the one reached. */
  lemma RunEnds(start: map<string, Node>, directories: seq<string>, useCache: bool,
                done: seq<Snapshot>, nodes: map<string, Node>)
    requires (forall d :: d in start ==> WellFormed(start[d])) && (forall d :: d in nodes ==> WellFormed(nodes[d]))
    requires |done| == |directories| && RunsOn(start, directories, useCache, done, nodes)
    ensures LoadAllSpec(start, directories, useCache) == LoadRun(Ok(done), nodes)
  {
    assert directories[|done|..] == [];
    assert done + [] == done;
  }

  /**
   * Opens directory `|done|` of the run: the run goes on with its
   * snapshot, or ends with its error on the file system its load left.
   */
  method OpenNext(fs: FileSystem, directories: seq<string>, i: nat, useCache: bool,
                  ghost start: map<string, Node>, ghost done: seq<Snapshot>)
    returns (r: Result<ModelGroup, LoadError>)
    requires fs.Valid() && (forall d :: d in start ==> WellFormed(start[d]))
    requires i == |done| < |directories| && RunsOn(start, directories, useCache, done, fs.nodes)
    modifies fs
    ensures fs.Valid()
    ensures forall d :: d in fs.nodes <==> d in old(fs.nodes)
    ensures forall d :: d in fs.nodes ==> (fs.nodes[d].Folder? <==> old(fs.nodes)[d].Folder?)
    ensures r.Err? ==> LoadAllSpec(start, directories, useCache) == LoadRun(Err(r.error), fs.nodes)
    ensures r.Ok? ==> RunsOn(start, directories, useCache, done + [r.value.State()], fs.nodes)
    ensures r.Ok? ==> fresh(r.value) && r.value.fs == fs && r.value.directory == directories[i]
    ensures r.Ok? ==> |DefinedMetrics(r.value.models)| >= 2 && fs.IsFolder(directories[i])
  {
    ghost var before := fs.nodes;
    r := ModelGroup.Open(fs, directories[i], useCache);
    if r.Err? {
      RunFails(start, directories, useCache, done, before);
    } else {
      RunGoesOn(start, directories, useCache, done, before);
    }
  }

  /** A directory that fails at its turn ends the run with its error, on the file system its load left. */
  lemma RunFails(start: map<string, Node>, directories: seq<string>, useCache: bool,
                 done: seq<Snapshot>, nodes: map<string, Node>)
    requires (forall d :: d in start ==> WellFormed(start[d])) && (forall d :: d in nodes ==> WellFormed(nodes[d]))
    requires |done| < |directories| && RunsOn(start, directories, useCache, done, nodes)
    requires OpenSpec(nodes, directories[|done|], useCache).Err?
    ensures LoadAllSpec(start, directories, useCache) ==
      LoadRun(Err(OpenSpec(nodes, directories[|done|], useCache).error), AfterLoad(nodes, directories[|done|], useCache))
  {
    var remaining := directories[|done|..];
    assert remaining[0] == directories[|done|];
    FirstOpened(nodes, remaining, useCache);
  }

  /** A directory that opens at its turn adds its snapshot; the run goes on from the file system its load left. */
  lemma RunGoesOn(start: map<string, Node>, directories: seq<string>, useCache: bool,
                  done: seq<Snapshot>, nodes: map<string, Node>)
    requires (forall d :: d in start ==> WellFormed(start[d])) && (forall d :: d in nodes ==> WellFormed(nodes[d]))
    requires |done| < |directories| && RunsOn(start, directories, useCache, done, nodes)
    requires OpenSpec(nodes, directories[|done|], useCache).Ok?
    ensures var after := AfterLoad(nodes, directories[|done|], useCache);
      (forall d :: d in after ==> WellFormed(after[d])) &&
      RunsOn(start, directories, useCache, done + [OpenSpec(nodes, directories[|done|], useCache).value], after)
  {
    var i := |done|;
    var remaining := directories[i..];
    assert remaining[0] == directories[i] && remaining[1..] == directories[i + 1..];
    FirstOpened(nodes, remaining, useCache);
    var s := OpenSpec(nodes, directories[i], useCache).value;
    var rest := LoadAllSpec(AfterLoad(nodes, directories[i], useCache), directories[i + 1..], useCache);
    ResumeTwice(done, s, rest);
    assert |done + [s]| == i + 1;
  }

  /** The run of a non-empty list opens its first directory, then the others on what that left. */
  lemma FirstOpened(nodes: map<string, Node>, remaining: seq<string>, useCache: bool)
    requires forall d :: d in nodes ==> WellFormed(nodes[d])
    requires remaining != []
    ensures var step := OpenSpec(nodes, remaining[0], useCache);
      var after := AfterLoad(nodes, remaining[0], useCache);
      (forall d :: d in after ==> WellFormed(after[d])) &&
      (step.Err? ==> LoadAllSpec(nodes, remaining, useCache) == LoadRun(Err(step.error), after)) &&
      (step.Ok? ==> LoadAllSpec(nodes, remaining, useCache) == Resume([step.value], LoadAllSpec(after, remaining[1..], useCache)))
  {
    assert LoadAllSpec(nodes, remaining, useCache) == OpenFirst(nodes, remaining, useCache);
  }

  /** Snapshots taken one after another resume the run as one list. */
  lemma ResumeTwice(done: seq<Snapshot>, s: Snapshot, rest: LoadRun)
    ensures Resume(done, Resume([s], rest)) == Resume(done + [s], rest)
  {
    if rest.outcome.Ok? {
      assert done + ([s] + rest.outcome.value) == (done + [s]) + rest.outcome.value;
    }
  }

  /** Opens the directories in order, stopping at the first that fails. */
  method OpenAll(fs: FileSystem, directories: seq<string>, useCache: bool) returns (r: Result<seq<ModelGroup>, LoadError>)
    requires fs.Valid()
    modifies fs
    ensures fs.Valid()
    ensures fs.nodes == LoadAllSpec(old(fs.nodes), directories, useCache).nodes
    ensures r.Err? <==> LoadAllSpec(old(fs.nodes), directories, useCache).outcome.Err?
    ensures r.Err? ==> LoadAllSpec(old(fs.nodes), directories, useCache).outcome == Err(r.error)
    ensures r.Ok? ==> |r.value| == |directories|
    ensures r.Ok? ==> forall j :: 0 <= j < |directories| ==>
      r.value[j].directory == directories[j] && r.value[j].fs == fs && r.value[j].Valid() &&
      r.value[j].State() == LoadAllSpec(old(fs.nodes), directories, useCache).outcome.value[j]
    ensures r.Ok? ==> forall i :: 0 <= i < |directories| ==> directories[i] in old(fs.nodes)
  {
    ghost var start := fs.nodes;
    ghost var snapshots: seq<Snapshot> := [];
    var loaded: seq<ModelGroup> := [];
    RunStarts(start, directories, useCache);
    for i := 0 to |directories|
      invariant fs.Valid()
      invariant |loaded| == i && |snapshots| == i
      invariant RunsOn(start, directories, useCache, snapshots, fs.nodes)
      invariant forall j :: 0 <= j < i ==>
        loaded[j].directory == directories[j] && loaded[j].fs == fs && loaded[j].State() == snapshots[j] &&
        |DefinedMetrics(loaded[j].models)| >= 2 && fs.IsFolder(directories[j])
      invariant forall d :: d in fs.nodes <==> d in start
    {
      var result := OpenNext(fs, directories, i, useCache, start, snapshots);
      if result.Err? {
        return Err(result.error);
      }
      loaded := loaded + [result.value];
      snapshots := snapshots + [result.value.State()];
    }
    RunEnds(start, directories, useCache, snapshots, fs.nodes);
    r := Ok(loaded);
  }

  /**
   * `load_designs`: opens the directories in order; any directory that
   * fails to open aborts the whole call.  A directory named twice is opened
   * twice and keeps its first position, with the group opened last.
   */
  method LoadGroups(fs: FileSystem, directories: seq<string>, useCache: bool) returns (r: Result<Groups, LoadError>)
    requires fs.Valid()
    modifies fs
    ensures fs.Valid()
    ensures fs.nodes == LoadAllSpec(old(fs.nodes), directories, useCache).nodes
    ensures r.Err? <==> LoadAllSpec(old(fs.nodes), directories, useCache).outcome.Err?
    ensures r.Err? ==> LoadAllSpec(old(fs.nodes), directories, useCache).outcome == Err(r.error)
    ensures r.Ok? ==> r.value.keys == Dedup(directories)
    ensures r.Ok? ==> forall k :: k in r.value.groups <==> k in directories
    ensures r.Ok? ==> forall k :: k in r.value.groups ==>
      r.value.groups[k].directory == k && r.value.groups[k].fs == fs && r.value.groups[k].Valid()
    ensures r.Ok? ==> forall j :: 0 <= j < |directories| && LastAt(directories, j) ==>
      directories[j] in r.value.groups &&
      r.value.groups[directories[j]].State() == LoadAllSpec(old(fs.nodes), directories, useCache).outcome.value[j]
    ensures r.Ok? ==> forall i :: 0 <= i < |directories| ==> directories[i] in old(fs.nodes)
  {
    var loaded := OpenAll(fs, directories, useCache);
    if loaded.Err? {
      return Err(loaded.error);
    }
    CollectKeys(directories, loaded.value);
    CollectLastWins(directories, loaded.value);
    r := Ok(Collect(directories, loaded.value));
  }
}

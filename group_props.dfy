/**
 * Properties that relate several operations of a model group: loading
 * twice, loading after the side files change, and reading back what the
 * setters wrote.
 */
module GroupProperties {
  import opened Wrappers
  import opened PyStr
  import opened PyInt
  import opened Records
  import opened Disk
  import opened Batch
  import opened Group

  /** The side files are never taken for model files. */
  lemma SideFilesAreNotModels()
    ensures !MatchesPdbGlob(CacheName) && !MatchesPdbGlob(NotesName) && !MatchesPdbGlob(RepName)
  {
    NoLetterBNoMatch(CacheName);
    NoLetterBNoMatch(NotesName);
    NoLetterBNoMatch(RepName);
  }

  lemma {:induction false} GlobAppend(listing: seq<string>, name: string)
    requires !MatchesPdbGlob(name)
    ensures Glob(listing + [name]) == Glob(listing)
  {
    if listing != [] {
      GlobAppend(listing[1..], name);
      assert (listing + [name])[1..] == listing[1..] + [name];
    } else {
      assert ([name])[1..] == [];
    }
  }

  lemma {:induction false} GlobWithout(listing: seq<string>, name: string)
    requires !MatchesPdbGlob(name)
    ensures Glob(Without(listing, name)) == Glob(listing)
  {
    if listing != [] {
      GlobWithout(listing[1..], name);
      if listing[0] != name {
        assert ([listing[0]] + Without(listing[1..], name))[1..] == Without(listing[1..], name);
      }
    }
  }

  lemma GlobPut(folder: Node, name: string, data: FileData)
    requires folder.Folder? && WellFormed(folder) && !MatchesPdbGlob(name)
    ensures Glob(Put(folder, name, data).listing) == Glob(folder.listing)
  {
    if name !in folder.files {
      GlobAppend(folder.listing, name);
    }
  }

  lemma {:induction false} ParseAllUnreadable(folder: Node, names: seq<string>)
    requires folder.Folder?
    requires forall k :: 0 <= k < |names| ==> ReadLines(folder, names[k]).None?
    ensures ParseAll(folder, names) == Ok([])
  {
    if names != [] {
      ParseAllUnreadable(folder, names[..|names| - 1]);
    }
  }

  lemma {:induction false} ParseAllSameFiles(f: Node, g: Node, names: seq<string>)
    requires f.Folder? && g.Folder?
    requires forall k :: 0 <= k < |names| ==> ReadLines(f, names[k]) == ReadLines(g, names[k])
    ensures ParseAll(f, names) == ParseAll(g, names)
  {
    if names != [] {
      ParseAllSameFiles(f, g, names[..|names| - 1]);
    }
  }

  /** Two versions of a directory that agree on everything the loader looks at. */
  predicate SameForLoading(f: Node, g: Node)
  {
    f.Folder? && g.Folder? &&
    Glob(f.listing) == Glob(g.listing) &&
    (CacheName in f.files <==> CacheName in g.files) &&
    (CacheName in f.files ==> f.files[CacheName] == g.files[CacheName]) &&
    forall x :: x in Glob(f.listing) ==> ReadLines(f, x) == ReadLines(g, x)
  }

  /** A successful load gives the same result from any directory that agrees on what the loader reads. */
  lemma LoadDependsOnlyOnModels(nodes: map<string, Node>, other: map<string, Node>, dir: string, useCache: bool)
    requires LoadModelsSpec(nodes, dir, useCache).Ok?
    requires dir in other && SameForLoading(nodes[dir], other[dir])
    ensures LoadModelsSpec(other, dir, useCache) == LoadModelsSpec(nodes, dir, useCache)
  {
    var f := nodes[dir];
    var g := other[dir];
    var pdbs := Glob(f.listing);
    assert g.listing != [];
    assert ReadCache(g, dir, useCache) == ReadCache(f, dir, useCache);
    var cached := ReadCache(f, dir, useCache).value;
    var todo := Uncached(pdbs, CachedPaths(cached));
    ParseAllSameFiles(f, g, todo);
  }

  lemma SameForLoadingTransitive(f: Node, g: Node, h: Node)
    requires SameForLoading(f, g) && SameForLoading(g, h)
    ensures SameForLoading(f, h)
  {
  }

  /** Writing the notes changes nothing the loader reads. */
  lemma SaveNotesKeepsModels(f: Node, s: string)
    requires f.Folder? && WellFormed(f)
    ensures SameForLoading(f, SaveNotesNode(f, s))
  {
    SideFilesAreNotModels();
    var written := Put(f, NotesName, TextFile(s));
    GlobPut(f, NotesName, TextFile(s));
    if s == [] {
      GlobWithout(written.listing, NotesName);
    }
    SideWriteKeepsReads(f, SaveNotesNode(f, s), NotesName);
  }

  /** A folder that differs from `f` at most in entry `name`, not a model file, reads every model file of `f` alike. */
  lemma SideWriteKeepsReads(f: Node, g: Node, name: string)
    requires f.Folder? && g.Folder? && !MatchesPdbGlob(name)
    requires forall x :: x in f.files && x != name ==> x in g.files && g.files[x] == f.files[x]
    requires forall x :: x in g.files && x != name ==> x in f.files
    ensures forall x :: x in Glob(f.listing) ==> ReadLines(f, x) == ReadLines(g, x)
  {
    forall x | x in Glob(f.listing) ensures ReadLines(f, x) == ReadLines(g, x) {
      assert x != name;
    }
  }

  /** Writing or removing the representative changes nothing the loader reads. */
  lemma SaveRepKeepsModels(f: Node, rep: Option<int>)
    requires f.Folder? && WellFormed(f)
    ensures SameForLoading(f, SaveRepNode(f, rep))
  {
    SideFilesAreNotModels();
    match rep {
    case Some(i) =>
      GlobPut(f, RepName, TextFile(IntToString(i)));
    case None =>
      if RepName in f.files {
        GlobWithout(f.listing, RepName);
      }
    }
    SideWriteKeepsReads(f, SaveRepNode(f, rep), RepName);
  }

  /** After `notes = s` the notes file exists exactly when `s` is not empty, and reading it gives `s`. */
  lemma NotesRoundTrip(f: Node, s: string)
    requires f.Folder? && WellFormed(f)
    ensures NotesName in SaveNotesNode(f, s).files <==> s != []
    ensures ReadNotes(SaveNotesNode(f, s)) == s
    ensures SaveNotesNode(f, s).files - {NotesName} == f.files - {NotesName}
  {
  }

  /**
   * After `representative = i` the file holds `str(i)` and reads back as
   * `i`; after `representative = None` the file is gone and reads as unset.
   */
  lemma RepresentativeRoundTrip(f: Node, dir: string, rep: Option<int>)
    requires f.Folder? && WellFormed(f)
    ensures RepName in SaveRepNode(f, rep).files <==> rep.Some?
    ensures ReadRepresentative(SaveRepNode(f, rep), dir) == Ok(rep)
    ensures SaveRepNode(f, rep).files - {RepName} == f.files - {RepName}
  {
    if rep.Some? {
      ParseIntOfIntToString(rep.value);
    }
  }

  /** Writing the cache leaves the side files as they were. */
  lemma CacheWriteKeepsAnnotations(h: Node, dir: string, table: Table)
    requires h.Folder? && WellFormed(h)
    ensures ReadNotes(Put(h, CacheName, PickleFile(table))) == ReadNotes(h)
    ensures ReadRepresentative(Put(h, CacheName, PickleFile(table)), dir) == ReadRepresentative(h, dir)
  {
  }

  /** Setting the notes and the representative does not change what a load returns. */
  lemma SaveAnnotationsKeepsLoad(nodes: map<string, Node>, dir: string, useCache: bool, s: string, rep: Option<int>)
    requires forall d :: d in nodes ==> WellFormed(nodes[d])
    requires LoadModelsSpec(nodes, dir, useCache).Ok?
    ensures dir in nodes && nodes[dir].Folder?
    ensures LoadModelsSpec(nodes[dir := SaveRepNode(SaveNotesNode(nodes[dir], s), rep)], dir, useCache) ==
      LoadModelsSpec(nodes, dir, useCache)
  {
    LoadSucceeded(nodes, dir, useCache);
    var f := nodes[dir];
    var g := SaveNotesNode(f, s);
    var h := SaveRepNode(g, rep);
    SaveNotesKeepsModels(f, s);
    SaveRepKeepsModels(g, rep);
    SameForLoadingTransitive(f, g, h);
    LoadDependsOnlyOnModels(nodes, nodes[dir := h], dir, useCache);
  }

  /** The side files written by the two setters read back as what was set, also once the cache is rewritten. */
  lemma SavedAnnotationsReadBack(f: Node, dir: string, s: string, rep: Option<int>, table: Table)
    requires f.Folder? && WellFormed(f)
    ensures var h := Put(SaveRepNode(SaveNotesNode(f, s), rep), CacheName, PickleFile(table));
      ReadNotes(h) == s && ReadRepresentative(h, dir) == Ok(rep)
  {
    var g := SaveNotesNode(f, s);
    var h := SaveRepNode(g, rep);
    NotesRoundTrip(f, s);
    RepresentativeRoundTrip(g, dir, rep);
    SaveRepKeepsNotes(g, rep);
    CacheWriteKeepsAnnotations(h, dir, table);
  }

  lemma SaveRepKeepsNotes(g: Node, rep: Option<int>)
    requires g.Folder? && WellFormed(g)
    ensures ReadNotes(SaveRepNode(g, rep)) == ReadNotes(g)
  {
    assert ReadText(SaveRepNode(g, rep), NotesName) == ReadText(g, NotesName);
  }

  /**
   * Reopening a group after setting its notes and representative gives the
   * same table back, with the notes and representative that were set.
   */
  lemma ReopenReadsAnnotations(nodes: map<string, Node>, dir: string, useCache: bool, s: string, rep: Option<int>)
    requires forall d :: d in nodes ==> WellFormed(nodes[d])
    requires LoadModelsSpec(nodes, dir, useCache).Ok?
    ensures dir in nodes && nodes[dir].Folder?
    ensures var saved := nodes[dir := SaveRepNode(SaveNotesNode(nodes[dir], s), rep)];
      OpenSpec(saved, dir, useCache) == Ok(Snapshot(LoadModelsSpec(nodes, dir, useCache).value, s, rep))
  {
    SaveAnnotationsKeepsLoad(nodes, dir, useCache, s, rep);
    var table := LoadModelsSpec(nodes, dir, useCache).value;
    var h := SaveRepNode(SaveNotesNode(nodes[dir], s), rep);
    var saved := nodes[dir := h];
    SavedAnnotationsReadBack(nodes[dir], dir, s, rep, table);
    assert AfterLoad(saved, dir, useCache)[dir] == Put(h, CacheName, PickleFile(table));
  }

  /** The steps of a successful load. */
  lemma LoadSucceeded(nodes: map<string, Node>, dir: string, useCache: bool)
    requires LoadModelsSpec(nodes, dir, useCache).Ok?
    ensures dir in nodes && nodes[dir].Folder? && nodes[dir].listing != [] && Glob(nodes[dir].listing) != []
    ensures ReadCache(nodes[dir], dir, useCache).Ok?
    ensures var f := nodes[dir];
      var cached := ReadCache(f, dir, useCache).value;
      var todo := Uncached(Glob(f.listing), CachedPaths(cached));
      ParseAll(f, todo).Ok? &&
      LoadModelsSpec(nodes, dir, useCache).value == cached + ParseAll(f, todo).value
    ensures MetricCheck(LoadModelsSpec(nodes, dir, useCache).value, dir) == LoadModelsSpec(nodes, dir, useCache)
  {
  }

  /** A loaded table has rows and at least two numeric metrics, so the cache is always written. */
  lemma LoadedTableHasMetrics(nodes: map<string, Node>, dir: string, useCache: bool)
    requires LoadModelsSpec(nodes, dir, useCache).Ok?
    ensures var table := LoadModelsSpec(nodes, dir, useCache).value;
      |DefinedMetrics(table)| >= 2 && |table| > 0
  {
    var table := LoadModelsSpec(nodes, dir, useCache).value;
    var m :| m in DefinedMetrics(table);
    assert NumericColumn(table, m);
  }

  /**
   * `table` is the cached rows, unchanged and first, then one record per
   * readable file of `todo`, in order, each parsed from that file and named
   * after it.
   */
  predicate LoadedFrom(f: Node, cached: Table, todo: seq<string>, table: Table)
    requires f.Folder?
  {
    var parsed := Readable(f, todo);
    |table| == |cached| + |parsed| &&
    table[..|cached|] == cached &&
    forall k :: 0 <= k < |parsed| ==>
      ParseRecord(parsed[k], ReadLines(f, parsed[k]).value) == Ok(table[|cached| + k]) &&
      Get(table[|cached| + k], PathKey) == Some(Text(parsed[k]))
  }

  /**
   * The loaded table is the cached rows, unchanged and first, then one
   * freshly parsed record per readable model file the cache does not name,
   * in glob order.  With the cache off or absent nothing is cached and every
   * model file is a candidate.
   */
  lemma LoadedTable(nodes: map<string, Node>, dir: string, useCache: bool)
    requires LoadModelsSpec(nodes, dir, useCache).Ok?
    ensures dir in nodes && nodes[dir].Folder? && ReadCache(nodes[dir], dir, useCache).Ok?
    ensures var f := nodes[dir];
      var cached := ReadCache(f, dir, useCache).value;
      (!useCache || CacheName !in f.files ==> cached == [] && Uncached(Glob(f.listing), CachedPaths(cached)) == Glob(f.listing)) &&
      LoadedFrom(f, cached, Uncached(Glob(f.listing), CachedPaths(cached)), LoadModelsSpec(nodes, dir, useCache).value)
  {
    LoadSucceeded(nodes, dir, useCache);
    var f := nodes[dir];
    var cached := ReadCache(f, dir, useCache).value;
    TableParts(f, cached, Uncached(Glob(f.listing), CachedPaths(cached)));
    assert CachedPaths([]) == {};
  }

  /** Cached rows followed by the records of a successful batch. */
  lemma TableParts(f: Node, cached: Table, todo: seq<string>)
    requires f.Folder? && ParseAll(f, todo).Ok?
    ensures LoadedFrom(f, cached, todo, cached + ParseAll(f, todo).value)
  {
    var parsed := ParseAll(f, todo).value;
    ParseAllRecords(f, todo);
    assert (cached + parsed)[..|cached|] == cached;
    assert forall k :: 0 <= k < |parsed| ==> (cached + parsed)[|cached| + k] == parsed[k];
  }

  /** The paths of a table made of two parts are the paths of the parts. */
  lemma CachedPathsAppend(a: Table, b: Table)
    ensures CachedPaths(a + b) == CachedPaths(a) + CachedPaths(b)
  {
    forall s | s in CachedPaths(a) + CachedPaths(b) ensures s in CachedPaths(a + b) {
      if s in CachedPaths(a) {
        var i :| 0 <= i < |a| && Get(a[i], PathKey) == Some(Text(s));
        assert (a + b)[i] == a[i];
      } else {
        var i :| 0 <= i < |b| && Get(b[i], PathKey) == Some(Text(s));
        assert (a + b)[|a| + i] == b[i];
      }
    }
    forall s | s in CachedPaths(a + b) ensures s in CachedPaths(a) + CachedPaths(b) {
      var i :| 0 <= i < |a + b| && Get((a + b)[i], PathKey) == Some(Text(s));
      if i < |a| {
        assert (a + b)[i] == a[i];
      } else {
        assert (a + b)[i] == b[i - |a|];
      }
    }
  }

  /** Every readable file of a successful batch is named by one of its records. */
  lemma ParsedNamesCovered(f: Node, todo: seq<string>)
    requires f.Folder? && ParseAll(f, todo).Ok?
    ensures forall x :: x in todo && ReadLines(f, x).Some? ==> x in CachedPaths(ParseAll(f, todo).value)
  {
    var parsed := ParseAll(f, todo).value;
    var readable := Readable(f, todo);
    ParseAllRecords(f, todo);
    forall x | x in todo && ReadLines(f, x).Some? ensures x in CachedPaths(parsed) {
      assert x in readable;
      var j :| 0 <= j < |readable| && readable[j] == x;
      assert Get(parsed[j], PathKey) == Some(Text(x));
    }
  }

  /**
   * Reloading with the cache on, after any successful load, gives back the
   * same table and leaves the file system as the first load left it: the
   * only model files parsed again are those that still cannot be opened.
   */
  lemma ReloadIsIdempotent(nodes: map<string, Node>, dir: string, useCache: bool)
    requires forall d :: d in nodes ==> WellFormed(nodes[d])
    requires LoadModelsSpec(nodes, dir, useCache).Ok?
    ensures var after := AfterLoad(nodes, dir, useCache);
      LoadModelsSpec(after, dir, true) == LoadModelsSpec(nodes, dir, useCache) &&
      AfterLoad(after, dir, true) == after
  {
    var table := LoadModelsSpec(nodes, dir, useCache).value;
    LoadAssembled(nodes, dir, useCache);
    var g := Put(nodes[dir], CacheName, PickleFile(table));
    CacheRewriteParsesNothing(nodes[dir], dir, useCache, table);
    ReloadSpec(nodes[dir := g], dir, g, table);
    PutTwice(nodes[dir], CacheName, PickleFile(table));
    StoreSame(nodes[dir := g], dir);
  }

  lemma StoreSame<K, V>(m: map<K, V>, k: K)
    requires k in m
    ensures m[k := m[k]] == m
  {
  }

  /** Writing the same entry twice is writing it once. */
  lemma PutTwice(f: Node, name: string, data: FileData)
    requires f.Folder? && WellFormed(f)
    ensures Put(Put(f, name, data), name, data) == Put(f, name, data)
  {
    var g := Put(f, name, data);
    assert g.files[name := data] == g.files;
  }

  /**
   * `table` is what the loader assembles from folder `f` before the metric
   * check: the cached rows, then the records of the readable uncached model
   * files.
   */
  ghost predicate Assembled(f: Node, dir: string, useCache: bool, table: Table)
  {
    f.Folder? && WellFormed(f) && f.listing != [] && Glob(f.listing) != [] &&
    ReadCache(f, dir, useCache).Ok? &&
    var cached := ReadCache(f, dir, useCache).value;
    var todo := Uncached(Glob(f.listing), CachedPaths(cached));
    ParseAll(f, todo).Ok? && table == cached + ParseAll(f, todo).value
  }

  /** A successful load assembled its table and passed the metric check. */
  lemma LoadAssembled(nodes: map<string, Node>, dir: string, useCache: bool)
    requires forall d :: d in nodes ==> WellFormed(nodes[d])
    requires LoadModelsSpec(nodes, dir, useCache).Ok?
    ensures dir in nodes && Assembled(nodes[dir], dir, useCache, LoadModelsSpec(nodes, dir, useCache).value)
    ensures MetricCheck(LoadModelsSpec(nodes, dir, useCache).value, dir) == LoadModelsSpec(nodes, dir, useCache)
  {
    LoadSucceeded(nodes, dir, useCache);
  }

  /**
   * After the cache is written, a reload with the cache on assembles the
   * same table: the cache holds it, and the model files it does not name
   * are ones that cannot be opened, so nothing is parsed again.
   */
  lemma CacheRewriteParsesNothing(f: Node, dir: string, useCache: bool, table: Table)
    requires Assembled(f, dir, useCache, table)
    ensures Assembled(Put(f, CacheName, PickleFile(table)), dir, true, table)
    ensures ParseAll(Put(f, CacheName, PickleFile(table)), Uncached(Glob(f.listing), CachedPaths(table))) == Ok([])
  {
    var cached := ReadCache(f, dir, useCache).value;
    var g := Put(f, CacheName, PickleFile(table));
    SideFilesAreNotModels();
    GlobPut(f, CacheName, PickleFile(table));
    var rest := Uncached(Glob(f.listing), CachedPaths(table));
    UncachedAfterRewrite(f, cached, table);
    PutKeepsModelReads(f, CacheName, PickleFile(table), rest);
    ParseAllUnreadable(g, rest);
    assert table + [] == table;
  }

  /** The model files a rewritten cache does not name cannot be opened. */
  lemma UncachedAfterRewrite(f: Node, cached: Table, table: Table)
    requires f.Folder?
    requires var todo := Uncached(Glob(f.listing), CachedPaths(cached));
      ParseAll(f, todo).Ok? && table == cached + ParseAll(f, todo).value
    ensures UnreadableModels(f, Uncached(Glob(f.listing), CachedPaths(table)))
  {
    var todo := Uncached(Glob(f.listing), CachedPaths(cached));
    var parsed := ParseAll(f, todo).value;
    var rest := Uncached(Glob(f.listing), CachedPaths(table));
    CachedPathsAppend(cached, parsed);
    ParsedNamesCovered(f, todo);
    forall k | 0 <= k < |rest| ensures ReadLines(f, rest[k]).None? && MatchesPdbGlob(rest[k]) {
      var x := rest[k];
      assert x in Glob(f.listing) && x !in CachedPaths(parsed);
      assert x in todo;
    }
  }

  /** Model files none of which can be opened. */
  predicate UnreadableModels(f: Node, names: seq<string>)
    requires f.Folder?
  {
    forall k :: 0 <= k < |names| ==> ReadLines(f, names[k]).None? && MatchesPdbGlob(names[k])
  }

  /** Writing an entry that is not a model file leaves unreadable model files unreadable. */
  lemma PutKeepsModelReads(f: Node, name: string, data: FileData, names: seq<string>)
    requires f.Folder? && WellFormed(f) && !MatchesPdbGlob(name)
    requires UnreadableModels(f, names)
    ensures forall k :: 0 <= k < |names| ==> ReadLines(Put(f, name, data), names[k]).None?
  {
    forall k | 0 <= k < |names| ensures ReadLines(Put(f, name, data), names[k]).None? {
      assert names[k] != name;
    }
  }

  /** The load spec of a directory whose folder assembles a table that passes the metric check. */
  lemma ReloadSpec(nodes: map<string, Node>, dir: string, g: Node, table: Table)
    requires dir in nodes && nodes[dir] == g && Assembled(g, dir, true, table)
    requires MetricCheck(table, dir) == Ok(table)
    ensures LoadModelsSpec(nodes, dir, true) == Ok(table)
  {
  }

  /**
   * The directory checks come in a fixed order: missing, then not a
   * directory, then empty, then without any model file.
   */
  lemma ValidationOrder(nodes: map<string, Node>, dir: string, useCache: bool)
    ensures LoadModelsSpec(nodes, dir, useCache) == Err(DoesNotExist(dir)) <==> dir !in nodes
    ensures LoadModelsSpec(nodes, dir, useCache) == Err(NotADirectory(dir)) <==> dir in nodes && !nodes[dir].Folder?
    ensures LoadModelsSpec(nodes, dir, useCache) == Err(IsEmpty(dir)) <==>
      dir in nodes && nodes[dir].Folder? && nodes[dir].listing == []
    ensures LoadModelsSpec(nodes, dir, useCache) == Err(NoPdbFiles(dir)) <==>
      dir in nodes && nodes[dir].Folder? && nodes[dir].listing != [] && Glob(nodes[dir].listing) == []
  {
    if dir in nodes && nodes[dir].Folder? && nodes[dir].listing != [] && Glob(nodes[dir].listing) != [] {
      var f := nodes[dir];
      match ReadCache(f, dir, useCache)
      case Err(e) =>
        assert e == CacheUnreadable(dir);
      case Ok(cached) =>
        var todo := Uncached(Glob(f.listing), CachedPaths(cached));
        if ParseAll(f, todo).Ok? {
          MetricCheckOutcome(cached + ParseAll(f, todo).value, dir);
        }
    }
  }

  /**
   * The metric check: no numeric column is an error naming the directory,
   * exactly one is an error naming that metric and the directory, and two
   * or more let the table through unchanged.
   */
  lemma MetricCheckOutcome(table: Table, dir: string)
    ensures MetricCheck(table, dir) == Ok(table) <==> |DefinedMetrics(table)| >= 2
    ensures MetricCheck(table, dir).Err? <==> |DefinedMetrics(table)| < 2
    ensures MetricCheck(table, dir) == Err(NoMetrics(dir)) <==> DefinedMetrics(table) == {}
    ensures MetricCheck(table, dir).Err? && MetricCheck(table, dir).error.OnlyOneMetric? ==>
      MetricCheck(table, dir).error.dir == dir && DefinedMetrics(table) == {MetricCheck(table, dir).error.metric}
    ensures |DefinedMetrics(table)| == 1 ==> MetricCheck(table, dir).Err? && MetricCheck(table, dir).error.OnlyOneMetric?
  {
  }
}

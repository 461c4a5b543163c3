/**
 * A model group: one directory of models, the table of their metrics, the
 * user's notes and the chosen representative model.  The same class is
 * `Design` in show_my_designs and `ModelGroup` in show_me_pdbs.
 *
 * Loading validates the directory, reads the metric cache, parses only the
 * model files the cache does not name, rejects a table with fewer than two
 * numeric columns and writes the table back to the cache.  Notes and the
 * representative live in two side files next to the models.
 */
module Group {
  import opened Wrappers
  import opened PyStr
  import opened PyInt
  import opened PyFloat
  import opened Ordering
  import opened Records
  import opened Disk
  import opened Batch

  const CacheName: string := "models.pkl"
  const NotesName: string := "notes.txt"
  const RepName: string := "representative.txt"

  /** A data frame, as the list of its rows; a missing cell is NaN. */
  type Table = seq<Record>

  datatype LoadError =
    | DoesNotExist(dir: string)
    | NotADirectory(dir: string)
    | IsEmpty(dir: string)
    | NoPdbFiles(dir: string)
    | CacheUnreadable(dir: string)
    | MalformedModel(error: ParseError)
    | NoMetrics(dir: string)
    | OnlyOneMetric(metric: string, dir: string)
    | MalformedRepresentative(dir: string, text: string)

  /**
   * The text of the IOErrors the loader raises itself.  Errors raised by the
   * Python runtime (a bad cache, a bad number) carry the runtime's text.
   */
  function Message(e: LoadError): Option<string>
  {
    match e
    case DoesNotExist(d) => Some(Quote(d) + " does not exist")
    case NotADirectory(d) => Some(Quote(d) + " is not a directory")
    case IsEmpty(d) => Some(Quote(d) + " is empty")
    case NoPdbFiles(d) => Some(Quote(d) + " doesn't contain any PDB files")
    case NoMetrics(d) => Some("no metrics defined for the models in " + Quote(d))
    case OnlyOneMetric(m, d) =>
      Some("only found one metric " + Quote(m) + " for the models in " + Quote(d) + ", need at least two")
    case _ => None
  }

  /** `"'{}'".format(s)` */
  function Quote(s: string): string
  {
    "'" + s + "'"
  }

  lemma ContainsMiddle(a: string, b: string, c: string)
    ensures Contains(a + b + c, b)
  {
    assert (a + b + c)[|a|..|a| + |b|] == b;
    assert OccursAt(a + b + c, b, |a|);
  }

  /** Every message the loader writes names the directory in quotes, and the one metric found when there is one. */
  lemma MessageNamesDirectory(e: LoadError)
    requires Message(e).Some?
    ensures Contains(Message(e).value, Quote(e.dir))
    ensures e.OnlyOneMetric? ==> Contains(Message(e).value, Quote(e.metric))
  {
    var q := Quote(e.dir);
    match e
    case DoesNotExist(d) =>
      ContainsMiddle([], q, " does not exist");
      assert [] + q + " does not exist" == q + " does not exist";
    case NotADirectory(d) =>
      ContainsMiddle([], q, " is not a directory");
      assert [] + q + " is not a directory" == q + " is not a directory";
    case IsEmpty(d) =>
      ContainsMiddle([], q, " is empty");
      assert [] + q + " is empty" == q + " is empty";
    case NoPdbFiles(d) =>
      ContainsMiddle([], q, " doesn't contain any PDB files");
      assert [] + q + " doesn't contain any PDB files" == q + " doesn't contain any PDB files";
    case NoMetrics(d) =>
      ContainsMiddle("no metrics defined for the models in ", q, []);
      assert "no metrics defined for the models in " + q + [] == "no metrics defined for the models in " + q;
    case OnlyOneMetric(m, d) =>
      OnlyOneMetricMessage(m, d);
  }

  lemma OnlyOneMetricMessage(m: string, d: string)
    ensures Contains(Message(OnlyOneMetric(m, d)).value, Quote(m))
    ensures Contains(Message(OnlyOneMetric(m, d)).value, Quote(d))
  {
    var head := "only found one metric ";
    var middle := " for the models in ";
    var tail := ", need at least two";
    var text := head + Quote(m) + middle + Quote(d) + tail;
    assert Message(OnlyOneMetric(m, d)).value == text;
    assert text == head + Quote(m) + (middle + Quote(d) + tail);
    ContainsMiddle(head, Quote(m), middle + Quote(d) + tail);
    assert text == (head + Quote(m) + middle) + Quote(d) + tail;
    ContainsMiddle(head + Quote(m) + middle, Quote(d), tail);
  }

  /** The cell a row holds for a metric, as pandas would read it: a number, or a missing cell. */
  function Cell(row: Record, metric: string): Option<Float>
  {
    if metric in row && row[metric].Number? then Some(row[metric].n) else None
  }

  predicate HasColumn(table: Table, c: string)
  {
    exists i :: 0 <= i < |table| && c in table[i]
  }

  /** A column gets a numeric dtype when every cell present in it is a number. */
  predicate NumericColumn(table: Table, c: string)
  {
    HasColumn(table, c) && forall i :: 0 <= i < |table| && c in table[i] ==> table[i][c].Number?
  }

  /** `defined_metrics`: the names of the numeric columns. */
  function DefinedMetrics(table: Table): (r: set<string>)
    ensures forall c :: c in r <==> NumericColumn(table, c)
  {
    set i, c | 0 <= i < |table| && c in table[i] && NumericColumn(table, c) :: c
  }

  /** The base names the cached rows already cover. */
  function CachedPaths(cached: Table): (r: set<string>)
    ensures forall s :: s in r <==> exists i :: 0 <= i < |cached| && Get(cached[i], PathKey) == Some(Text(s))
  {
    set i | 0 <= i < |cached| && PathKey in cached[i] && cached[i][PathKey].Text? :: cached[i][PathKey].s
  }

  /** The model files whose base name the cache does not cover, in glob order. */
  function Uncached(names: seq<string>, known: set<string>): (r: seq<string>)
    ensures forall x :: x in r <==> x in names && x !in known
    ensures known == {} ==> r == names
    ensures Subsequence(r, names)
  {
    if names == [] then []
    else
      assert forall x :: x in names[1..] ==> x in names;
      var rest := Uncached(names[1..], known);
      assert rest != [] ==> rest[0] in rest;
      if names[0] in known then
        assert [] + rest == rest;
        rest
      else
        assert ([names[0]] + rest)[1..] == rest;
        assert known == {} ==> names == [names[0]] + names[1..];
        [names[0]] + rest
  }

  /** The rows the loader starts from: none when the cache is off or absent. */
  function ReadCache(folder: Node, dir: string, useCache: bool): Result<Table, LoadError>
    requires folder.Folder?
  {
    if useCache && CacheName in folder.files then
      match folder.files[CacheName]
      case PickleFile(rows) => Ok(rows)
      case _ => Err(CacheUnreadable(dir))
    else Ok([])
  }

  lemma SingletonSet(s: set<string>)
    requires |s| == 1
    ensures exists m :: s == {m}
  {
    var m :| m in s;
    assert |s - {m}| == 0;
    assert s == {m};
  }

  /** The check that at least two metrics are numeric. */
  ghost function MetricCheck(table: Table, dir: string): Result<Table, LoadError>
  {
    var defined := DefinedMetrics(table);
    if |defined| == 0 then Err(NoMetrics(dir))
    else if |defined| == 1 then
      SingletonSet(defined);
      var m :| defined == {m};
      Err(OnlyOneMetric(m, dir))
    else Ok(table)
  }

  /** What `_load_models` computes from the file system. */
  ghost function LoadModelsSpec(nodes: map<string, Node>, dir: string, useCache: bool): Result<Table, LoadError>
  {
    if dir !in nodes then Err(DoesNotExist(dir))
    else if !nodes[dir].Folder? then Err(NotADirectory(dir))
    else if nodes[dir].listing == [] then Err(IsEmpty(dir))
    else
      var folder := nodes[dir];
      var pdbs := Glob(folder.listing);
      if pdbs == [] then Err(NoPdbFiles(dir))
      else match ReadCache(folder, dir, useCache)
        case Err(e) => Err(e)
        case Ok(cached) =>
          match ParseAll(folder, Uncached(pdbs, CachedPaths(cached)))
          case Err(e) => Err(MalformedModel(e))
          case Ok(parsed) => MetricCheck(cached + parsed, dir)
  }

  /** The file system after `_load_models`: a loaded table is written to the cache. */
  ghost function AfterLoad(nodes: map<string, Node>, dir: string, useCache: bool): map<string, Node>
    requires forall d :: d in nodes ==> WellFormed(nodes[d])
  {
    match LoadModelsSpec(nodes, dir, useCache)
    case Ok(table) => nodes[dir := Put(nodes[dir], CacheName, PickleFile(table))]
    case Err(_) => nodes
  }

  /** `_load_annotations`, notes part: the file's text, or "" when it cannot be opened. */
  function ReadNotes(folder: Node): string
    requires folder.Folder?
  {
    match ReadText(folder, NotesName)
    case Some(text) => text
    case None => ""
  }

  /** `_load_annotations`, representative part: `int()` of the file's text; a bad number is fatal. */
  function ReadRepresentative(folder: Node, dir: string): Result<Option<int>, LoadError>
    requires folder.Folder?
  {
    match ReadText(folder, RepName)
    case None => Ok(None)
    case Some(text) =>
      match ParseInt(text)
      case None => Err(MalformedRepresentative(dir, text))
      case Some(i) => Ok(Some(i))
  }

  /** The state of a freshly opened group. */
  datatype Snapshot = Snapshot(models: Table, notes: string, representative: Option<int>)

  /** What the constructor computes: the table, then the annotations read after the cache write. */
  ghost function OpenSpec(nodes: map<string, Node>, dir: string, useCache: bool): Result<Snapshot, LoadError>
    requires forall d :: d in nodes ==> WellFormed(nodes[d])
  {
    match LoadModelsSpec(nodes, dir, useCache)
    case Err(e) => Err(e)
    case Ok(table) =>
      var folder := AfterLoad(nodes, dir, useCache)[dir];
      match ReadRepresentative(folder, dir)
      case Err(e) => Err(e)
      case Ok(rep) => Ok(Snapshot(table, ReadNotes(folder), rep))
  }

  /** `_save_notes`: write the notes, then remove the file when they are empty. */
  function SaveNotesNode(folder: Node, notes: string): Node
    requires folder.Folder? && WellFormed(folder)
  {
    var written := Put(folder, NotesName, TextFile(notes));
    if notes == [] then Delete(written, NotesName) else written
  }

  /** `_save_representative`: write `str(i)`, or remove the file for None. */
  function SaveRepNode(folder: Node, rep: Option<int>): Node
    requires folder.Folder? && WellFormed(folder)
  {
    match rep
    case Some(i) => Put(folder, RepName, TextFile(IntToString(i)))
    case None => if RepName in folder.files then Delete(folder, RepName) else folder
  }

  /** A cell `np.argmin` compares: present and not NaN (pandas skips both kinds of NaN). */
  predicate Comparable(cell: Option<Float>)
  {
    cell.Some? && !cell.value.NaN?
  }

  /** `np.argmin` over a column: the first row holding the least number, NaN cells skipped. */
  function ArgMin(column: seq<Option<Float>>): (r: nat)
    requires exists i :: 0 <= i < |column| && Comparable(column[i])
    ensures r < |column| && IsFirstMin(column, r)
  {
    var front := column[..|column| - 1];
    var last := column[|column| - 1];
    if exists i :: 0 <= i < |front| && Comparable(front[i]) then
      var best := ArgMin(front);
      if Comparable(last) && Less(last.value, front[best].value) then |column| - 1 else best
    else |column| - 1
  }

  /** Row `i` holds a least number of the column, and every earlier number is greater. */
  predicate IsFirstMin(column: seq<Option<Float>>, i: nat)
    requires i < |column|
  {
    Comparable(column[i]) &&
    (forall j :: 0 <= j < |column| && Comparable(column[j]) ==> !Less(column[j].value, column[i].value)) &&
    (forall j :: 0 <= j < i && Comparable(column[j]) ==> Less(column[i].value, column[j].value))
  }

  /** A column of the table, one cell per row. */
  function Column(table: Table, metric: string): (r: seq<Option<Float>>)
    ensures |r| == |table| && forall i :: 0 <= i < |table| ==> r[i] == Cell(table[i], metric)
  {
    seq(|table|, i requires 0 <= i < |table| => Cell(table[i], metric))
  }

  /**
   * Why a query failed: the metric is not numeric (the message lists the
   * defined metrics), the row does not exist, or no total score is a number.
   */
  datatype QueryError = NoSuchMetric(metric: string, defined: set<string>) | NoSuchRow(index: int) | NoMinimum

  class ModelGroup {
    const fs: FileSystem
    const directory: string
    const models: Table
    var notes: string
    var representative: Option<int>

    ghost predicate Valid()
      reads this, fs
    {
      fs.Valid() && fs.IsFolder(directory) && |DefinedMetrics(models)| >= 2
    }

    /** The group's table and annotations as they stand. */
    function State(): Snapshot
      reads this
    {
      Snapshot(models, notes, representative)
    }

    constructor Loaded(fs: FileSystem, directory: string, models: Table, notes: string, representative: Option<int>)
      ensures this.fs == fs && this.directory == directory
      ensures this.models == models && this.notes == notes && this.representative == representative
    {
      this.fs := fs;
      this.directory := directory;
      this.models := models;
      this.notes := notes;
      this.representative := representative;
    }

    /** `_load_models`: validate the directory, merge cache and new records, check the metrics, write the cache. */
    static method LoadModels(fs: FileSystem, dir: string, useCache: bool) returns (r: Result<Table, LoadError>)
      requires fs.Valid()
      modifies fs
      ensures fs.Valid()
      ensures r == LoadModelsSpec(old(fs.nodes), dir, useCache)
      ensures r.Ok? ==> |DefinedMetrics(r.value)| >= 2 && fs.IsFolder(dir)
      ensures fs.nodes == AfterLoad(old(fs.nodes), dir, useCache)
      ensures forall d :: d in fs.nodes <==> d in old(fs.nodes)
      ensures forall d :: d in fs.nodes ==> (fs.nodes[d].Folder? <==> old(fs.nodes)[d].Folder?)
    {
      if dir !in fs.nodes {
        return Err(DoesNotExist(dir));
      }
      if !fs.nodes[dir].Folder? {
        return Err(NotADirectory(dir));
      }
      var folder := fs.nodes[dir];
      if folder.listing == [] {
        return Err(IsEmpty(dir));
      }
      if Glob(folder.listing) == [] {
        return Err(NoPdbFiles(dir));
      }
      r := LoadValidated(fs, dir, useCache);
    }

    /** The part of `_load_models` after the directory checks have passed. */
    static method LoadValidated(fs: FileSystem, dir: string, useCache: bool) returns (r: Result<Table, LoadError>)
      requires fs.Valid() && fs.IsFolder(dir)
      requires fs.nodes[dir].listing != [] && Glob(fs.nodes[dir].listing) != []
      modifies fs
      ensures fs.Valid()
      ensures r == LoadModelsSpec(old(fs.nodes), dir, useCache)
      ensures r.Ok? ==> |DefinedMetrics(r.value)| >= 2
      ensures r.Ok? ==> fs.nodes == old(fs.nodes)[dir := Put(old(fs.nodes)[dir], CacheName, PickleFile(r.value))]
      ensures r.Err? ==> fs.nodes == old(fs.nodes)
    {
      var folder := fs.nodes[dir];
      var pdbs := Glob(folder.listing);
      var cached: Table := [];
      var todo := pdbs;
      if useCache && CacheName in folder.files {
        match folder.files[CacheName] {
          case PickleFile(rows) =>
            cached := rows;
          case _ =>
            return Err(CacheUnreadable(dir));
        }
        todo := Uncached(pdbs, CachedPaths(cached));
      }
      assert ReadCache(folder, dir, useCache) == Ok(cached) && todo == Uncached(pdbs, CachedPaths(cached));
      var parsed := ParseRecordsFromPdbs(folder, todo);
      if parsed.Err? {
        return Err(MalformedModel(parsed.error));
      }
      var table := cached + parsed.value;
      assert LoadModelsSpec(fs.nodes, dir, useCache) == MetricCheck(table, dir);
      var defined := DefinedMetrics(table);
      if |defined| == 0 {
        return Err(NoMetrics(dir));
      }
      if |defined| == 1 {
        var m :| m in defined;
        assert defined == {m} by {
          SingletonSet(defined);
        }
        return Err(OnlyOneMetric(m, dir));
      }
      if |table| > 0 {
        fs.Write(dir, CacheName, PickleFile(table));
      }
      r := Ok(table);
    }

    /** The constructor: load the models, then the annotations. */
    static method Open(fs: FileSystem, dir: string, useCache: bool) returns (r: Result<ModelGroup, LoadError>)
      requires fs.Valid()
      modifies fs
      ensures fs.Valid()
      ensures fs.nodes == AfterLoad(old(fs.nodes), dir, useCache)
      ensures forall d :: d in fs.nodes <==> d in old(fs.nodes)
      ensures forall d :: d in fs.nodes ==> (fs.nodes[d].Folder? <==> old(fs.nodes)[d].Folder?)
      ensures dir !in old(fs.nodes) ==> r == Err(DoesNotExist(dir))
      ensures r.Err? ==> OpenSpec(old(fs.nodes), dir, useCache) == Err(r.error)
      ensures r.Ok? ==> fresh(r.value) && r.value.Valid() && r.value.fs == fs && r.value.directory == dir
      ensures r.Ok? ==>
        OpenSpec(old(fs.nodes), dir, useCache) == Ok(Snapshot(r.value.models, r.value.notes, r.value.representative))
    {
      var models := LoadModels(fs, dir, useCache);
      if models.Err? {
        return Err(models.error);
      }
      var folder := fs.nodes[dir];
      var notes := ReadNotes(folder);
      var rep := ReadRepresentative(folder, dir);
      if rep.Err? {
        return Err(rep.error);
      }
      var g := new ModelGroup.Loaded(fs, dir, models.value, notes, rep.value);
      r := Ok(g);
    }

    /** The `notes` setter. */
    method SetNotes(s: string)
      requires Valid()
      modifies this, fs
      ensures Valid()
      ensures notes == s && representative == old(representative)
      ensures fs.nodes == old(fs.nodes)[directory := SaveNotesNode(old(fs.nodes)[directory], s)]
    {
      notes := s;
      fs.Write(directory, NotesName, TextFile(s));
      if NotesName in fs.nodes[directory].files && s == [] {
        fs.Remove(directory, NotesName);
      }
    }

    /** The `representative` setter. */
    method SetRepresentative(index: Option<int>)
      requires Valid()
      modifies this, fs
      ensures Valid()
      ensures representative == index && notes == old(notes)
      ensures fs.nodes == old(fs.nodes)[directory := SaveRepNode(old(fs.nodes)[directory], index)]
    {
      representative := index;
      if index.Some? {
        fs.Write(directory, RepName, TextFile(IntToString(index.value)));
      } else if RepName in fs.nodes[directory].files {
        fs.Remove(directory, RepName);
      }
    }

    /** `get_metric`: the column of a numeric metric, or an error naming it and the defined metrics. */
    function GetMetric(metric: string): (r: Result<seq<Option<Float>>, QueryError>)
      reads this
      ensures r.Ok? <==> metric in DefinedMetrics(models)
      ensures r.Err? ==> r.error == NoSuchMetric(metric, DefinedMetrics(models))
      ensures r.Ok? ==> |r.value| == |models| && (exists i :: 0 <= i < |models| && r.value[i].Some?)
      ensures r.Ok? ==> forall i :: 0 <= i < |models| ==>
        (r.value[i].Some? <==> metric in models[i]) &&
        (r.value[i].Some? ==> models[i][metric] == Number(r.value[i].value))
    {
      if metric !in DefinedMetrics(models) then Err(NoSuchMetric(metric, DefinedMetrics(models)))
      else
        var column := Column(models, metric);
        assert NumericColumn(models, metric);
        var i :| 0 <= i < |models| && metric in models[i];
        assert column[i].Some?;
        Ok(column)
    }

    /**
     * The `representative` getter: the stored index, else the first row of
     * least total score, NaN scores skipped.
     */
    function Representative(): (r: Result<int, QueryError>)
      reads this
      ensures representative.Some? ==> r == Ok(representative.value)
      ensures representative.None? && TotalScore !in DefinedMetrics(models) ==>
        r == Err(NoSuchMetric(TotalScore, DefinedMetrics(models)))
      ensures representative.None? && TotalScore in DefinedMetrics(models) ==>
        (r.Ok? <==> exists i :: 0 <= i < |models| && Comparable(Cell(models[i], TotalScore))) &&
        (r.Err? ==> r.error == NoMinimum)
      ensures representative.None? && r.Ok? ==>
        0 <= r.value < |models| && IsFirstMin(Column(models, TotalScore), r.value)
    {
      if representative.Some? then Ok(representative.value)
      else match GetMetric(TotalScore)
        case Err(e) => Err(e)
        case Ok(column) =>
          if exists i :: 0 <= i < |column| && Comparable(column[i]) then Ok(ArgMin(column))
          else Err(NoMinimum)
    }

    /** `get_coord`: the cells of one row in two metrics; the row defaults to the representative. */
    function GetCoord(xMetric: string, yMetric: string, index: Option<int>): (r: Result<(Option<Float>, Option<Float>), QueryError>)
      reads this
      ensures r.Ok? ==> index.Some? || Representative().Ok?
      ensures r.Ok? && (index.Some? || Representative().Ok?) ==>
        var i := if index.Some? then index.value else Representative().value;
        0 <= i < |models| &&
        xMetric in DefinedMetrics(models) && yMetric in DefinedMetrics(models) &&
        r.value == (Cell(models[i], xMetric), Cell(models[i], yMetric))
      ensures index.Some? && xMetric in DefinedMetrics(models) && yMetric in DefinedMetrics(models) ==>
        (r.Ok? <==> 0 <= index.value < |models|)
      ensures var row := if index.Some? then Ok(index.value) else Representative();
        var defined := DefinedMetrics(models);
        (row.Err? ==> r == Err(row.error)) &&
        (row.Ok? && xMetric !in defined ==> r == Err(NoSuchMetric(xMetric, defined))) &&
        (row.Ok? && xMetric in defined && !(0 <= row.value < |models|) ==> r == Err(NoSuchRow(row.value))) &&
        (row.Ok? && xMetric in defined && 0 <= row.value < |models| ==>
          (r.Ok? <==> yMetric in defined) && (yMetric !in defined ==> r == Err(NoSuchMetric(yMetric, defined))))
    {
      var row := if index.Some? then Ok(index.value) else Representative();
      match row
      case Err(e) => Err(e)
      case Ok(i) =>
        match GetMetric(xMetric)
        case Err(e) => Err(e)
        case Ok(xs) =>
          if !(0 <= i < |xs|) then Err(NoSuchRow(i))
          else match GetMetric(yMetric)
            case Err(e) => Err(e)
            case Ok(ys) => Ok((xs[i], ys[i]))
    }
  }
}

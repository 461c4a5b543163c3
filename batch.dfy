/**
 * Parsing a batch of model files into records: every readable file gives
 * one record, in input order; a file that cannot be opened is reported and
 * skipped; a malformed metric line aborts the batch.
 */
module Batch {
  import opened Wrappers
  import opened PyStr
  import opened Records
  import opened Disk
  import opened Ordering

  /** `file.readlines()` for entry `name`, or None when opening it fails. */
  function ReadLines(folder: Node, name: string): Option<seq<string>>
    requires folder.Folder?
  {
    match ReadText(folder, name)
    case None => None
    case Some(text) => Some(SplitLines(text))
  }

  /** The names of the batch that can be opened, in order. */
  function Readable(folder: Node, names: seq<string>): (r: seq<string>)
    requires folder.Folder?
    ensures forall x :: x in r <==> x in names && ReadLines(folder, x).Some?
    ensures |r| <= |names|
    ensures Subsequence(r, names)
  {
    if names == [] then []
    else
      var n := |names| - 1;
      var front := Readable(folder, names[..n]);
      assert forall x :: x in names[..n] ==> x in names;
      assert names == names[..n] + [names[n]];
      if ReadLines(folder, names[n]).Some? then
        SubsequenceKeepLast(front, names[..n], names[n]);
        front + [names[n]]
      else
        SubsequenceSkipLast(front, names[..n], names[n]);
        front
  }

  /** The records of a batch: one per readable file, in order. */
  function ParseAll(folder: Node, names: seq<string>): Result<seq<Record>, ParseError>
    requires folder.Folder?
  {
    if names == [] then Ok([])
    else match ParseAll(folder, names[..|names| - 1])
      case Err(e) => Err(e)
      case Ok(records) =>
        var name := names[|names| - 1];
        match ReadLines(folder, name)
        case None => Ok(records)
        case Some(lines) =>
          match ParseRecord(name, lines)
          case Err(e) => Err(e)
          case Ok(rec) => Ok(records + [rec])
  }

  lemma ParseAllStep(folder: Node, names: seq<string>, i: nat)
    requires folder.Folder? && i < |names|
    ensures ParseAll(folder, names[..i + 1]) ==
      match ParseAll(folder, names[..i])
      case Err(e) => Err(e)
      case Ok(records) =>
        match ReadLines(folder, names[i])
        case None => Ok(records)
        case Some(lines) =>
          match ParseRecord(names[i], lines)
          case Err(e) => Err(e)
          case Ok(rec) => Ok(records + [rec])
  {
    assert names[..i + 1][..i] == names[..i];
  }

  lemma {:induction false} ParseAllErrorPersists(folder: Node, names: seq<string>, n: nat)
    requires folder.Folder? && n <= |names|
    requires ParseAll(folder, names[..n]).Err?
    ensures ParseAll(folder, names) == ParseAll(folder, names[..n])
    decreases |names| - n
  {
    if n < |names| {
      assert names[..|names| - 1][..n] == names[..n];
      ParseAllErrorPersists(folder, names[..|names| - 1], n);
    } else {
      assert names[..n] == names;
    }
  }

  /**
   * parse_records_from_pdbs: reads each file, skips those that cannot be
   * opened, and appends the parsed record of each of the others.
   */
  method ParseRecordsFromPdbs(folder: Node, names: seq<string>) returns (r: Result<seq<Record>, ParseError>)
    requires folder.Folder?
    ensures r == ParseAll(folder, names)
  {
    var records: seq<Record> := [];
    for i := 0 to |names|
      invariant ParseAll(folder, names[..i]) == Ok(records)
    {
      ParseAllStep(folder, names, i);
      var path := names[i];
      var read := ReadLines(folder, path);
      if read.None? {
        continue;
      }
      var parsed := ParseRecordFromPdb(NewRecord(path), read.value);
      if parsed.Err? {
        ParseAllErrorPersists(folder, names, i + 1);
        return Err(parsed.error);
      }
      records := records + [parsed.value];
    }
    assert names[..|names|] == names;
    r := Ok(records);
  }

  /**
   * A successful batch holds exactly one record per readable file, in
   * order, each the record parsed from that file and named after it.
   */
  lemma {:induction false} ParseAllRecords(folder: Node, names: seq<string>)
    requires folder.Folder?
    requires ParseAll(folder, names).Ok?
    ensures var records := ParseAll(folder, names).value;
      var readable := Readable(folder, names);
      |records| == |readable| &&
      forall k :: 0 <= k < |records| ==>
        ParseRecord(readable[k], ReadLines(folder, readable[k]).value) == Ok(records[k]) &&
        Get(records[k], PathKey) == Some(Text(readable[k]))
  {
    if names != [] {
      var front := names[..|names| - 1];
      ParseAllRecords(folder, front);
      var name := names[|names| - 1];
      if ReadLines(folder, name).Some? {
        PathIsBaseName(name, ReadLines(folder, name).value);
      }
    }
  }

  /** A file that opens but holds a malformed metric line. */
  predicate BadFile(folder: Node, name: string)
    requires folder.Folder?
  {
    ReadLines(folder, name).Some? && ParseRecord(name, ReadLines(folder, name).value).Err?
  }

  /** Some file of the batch is a bad file. */
  predicate AnyBad(folder: Node, names: seq<string>)
    requires folder.Folder?
  {
    names != [] && (AnyBad(folder, names[..|names| - 1]) || BadFile(folder, names[|names| - 1]))
  }

  lemma {:induction false} AnyBadIff(folder: Node, names: seq<string>)
    requires folder.Folder?
    ensures AnyBad(folder, names) <==> exists k :: 0 <= k < |names| && BadFile(folder, names[k])
  {
    if names != [] {
      var n := |names| - 1;
      var front := names[..n];
      AnyBadIff(folder, front);
      if AnyBad(folder, front) {
        var k :| 0 <= k < |front| && BadFile(folder, front[k]);
        assert names[k] == front[k];
      } else if BadFile(folder, names[n]) {
        assert 0 <= n < |names|;
      } else {
        forall k | 0 <= k < |names| ensures !BadFile(folder, names[k]) {
          if k < n {
            assert names[k] == front[k];
          }
        }
      }
    }
  }

  /** The batch fails exactly when some readable file holds a malformed metric line. */
  lemma {:induction false} ParseAllFailsIff(folder: Node, names: seq<string>)
    requires folder.Folder?
    ensures ParseAll(folder, names).Err? <==> exists k :: 0 <= k < |names| && BadFile(folder, names[k])
  {
    ParseAllFailsAnyBad(folder, names);
    AnyBadIff(folder, names);
  }

  lemma {:induction false} ParseAllFailsAnyBad(folder: Node, names: seq<string>)
    requires folder.Folder?
    ensures ParseAll(folder, names).Err? <==> AnyBad(folder, names)
  {
    if names != [] {
      ParseAllFailsAnyBad(folder, names[..|names| - 1]);
    }
  }

  /** Why the show_me_pdbs batch, as written, stops. */
  datatype BatchFailure = NameError(name: string) | Malformed(error: ParseError)

  /**
   * parse_records_from_pdbs of show_me_pdbs as written: for the first file
   * it can open it evaluates `self.parse_record_from_pdb` outside any class,
   * which raises NameError.  Only a batch of unreadable files gets through.
   */
  method ParseRecordsFromPdbsAsWritten(folder: Node, names: seq<string>) returns (r: Result<seq<Record>, BatchFailure>)
    requires folder.Folder?
    ensures r.Ok? <==> forall k :: 0 <= k < |names| ==> ReadLines(folder, names[k]).None?
    ensures r.Ok? ==> r.value == []
    ensures r.Err? ==> r.error == NameError("self")
  {
    var records: seq<Record> := [];
    for i := 0 to |names|
      invariant records == []
      invariant forall k :: 0 <= k < i ==> ReadLines(folder, names[k]).None?
    {
      var read := ReadLines(folder, names[i]);
      if read.None? {
        continue;
      }
      return Err(NameError("self"));
    }
    r := Ok(records);
  }

  /** Where the as-written batch fails on a readable model file, the working batch yields its record. */
  lemma WorkingBatchParsesReadableFile(folder: Node, name: string)
    requires folder.Folder? && ReadLines(folder, name).Some?
    requires ParseRecord(name, ReadLines(folder, name).value).Ok?
    ensures ParseAll(folder, [name]) == Ok([ParseRecord(name, ReadLines(folder, name).value).value])
  {
    assert [name][..0] == [];
    assert ParseAll(folder, [name][..0]) == Ok([]);
    var rec := ParseRecord(name, ReadLines(folder, name).value).value;
    assert [] + [rec] == [rec];
  }
}

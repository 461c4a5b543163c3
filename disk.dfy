/**
 * The part of the file system the model groups touch: a map from directory
 * path to node.  A directory holds named entries, listed in the order the
 * operating system returns them.  An entry is a text file (a gzipped model
 * stands for its decompressed text), a pickled table of records, or
 * something that cannot be opened for reading (a sub-directory, a file
 * without read permission, an archive whose header or checksum is bad).
 */
module Disk {
  import opened Wrappers
  import opened PyStr
  import opened Ordering
  import opened Records

  datatype FileData = TextFile(text: string) | Unreadable | PickleFile(rows: seq<Record>)

  datatype Node = PlainFile | Folder(files: map<string, FileData>, listing: seq<string>)

  /** A directory lists each of its entries exactly once. */
  ghost predicate WellFormed(node: Node)
  {
    node.Folder? ==> Distinct(node.listing) && forall x :: x in node.listing <==> x in node.files
  }

  /** Adds or overwrites entry `name`; a new entry goes to the end of the listing. */
  function Put(node: Node, name: string, data: FileData): (r: Node)
    requires node.Folder? && WellFormed(node)
    ensures r.Folder? && WellFormed(r)
    ensures r.files == node.files[name := data]
    ensures name in node.files ==> r.listing == node.listing
    ensures name !in node.files ==> r.listing == node.listing + [name]
  {
    if name in node.files then Folder(node.files[name := data], node.listing)
    else Folder(node.files[name := data], node.listing + [name])
  }

  /** Drops entry `name`, keeping the order of the others. */
  function Delete(node: Node, name: string): (r: Node)
    requires node.Folder? && WellFormed(node)
    ensures r.Folder? && WellFormed(r)
    ensures r.files == node.files - {name}
    ensures Subsequence(r.listing, node.listing) && name !in r.listing
  {
    var listing := Without(node.listing, name);
    Folder(node.files - {name}, listing)
  }

  /** `s` with every `x` left out, the rest in order. */
  function Without(s: seq<string>, x: string): (r: seq<string>)
    ensures forall y :: y in r <==> y in s && y != x
    ensures Distinct(s) ==> Distinct(r)
    ensures Subsequence(r, s)
  {
    if s == [] then []
    else if s[0] == x then
      var rest := Without(s[1..], x);
      assert rest != [] ==> rest[0] in rest;
      rest
    else
      var rest := Without(s[1..], x);
      assert forall y :: y in s[1..] ==> y in s;
      assert Distinct(s) ==> s[0] !in s[1..];
      [s[0]] + rest
  }

  /** The text of entry `name`, when it exists and can be read as text. */
  function ReadText(node: Node, name: string): Option<string>
    requires node.Folder?
  {
    if name in node.files && node.files[name].TextFile? then Some(node.files[name].text) else None
  }

  /**
   * The model-file pattern (a star, ".pdb", a star): any name containing ".pdb", except that,
   * as with every glob, names starting with a dot are not matched.
   */
  predicate MatchesPdbGlob(name: string)
  {
    |name| > 0 && name[0] != '.' && exists i :: 0 <= i <= |name| - 4 && OccursAt(name, ".pdb", i)
  }

  /** A name without the letter b never matches. */
  lemma NoLetterBNoMatch(name: string)
    requires forall i :: 0 <= i < |name| ==> name[i] != 'b'
    ensures !MatchesPdbGlob(name)
  {
    forall i | 0 <= i <= |name| - 4 ensures !OccursAt(name, ".pdb", i) {
      assert name[i..i + 4][3] == name[i + 3];
    }
  }

  /** The directory entries matching the model pattern, as base names, in listing order. */
  function Glob(listing: seq<string>): (r: seq<string>)
    ensures forall x :: x in r <==> x in listing && MatchesPdbGlob(x)
    ensures Distinct(listing) ==> Distinct(r)
    ensures |r| <= |listing|
    ensures Subsequence(r, listing)
  {
    if listing == [] then []
    else
      var rest := Glob(listing[1..]);
      assert forall y :: y in listing[1..] ==> y in listing;
      if MatchesPdbGlob(listing[0]) then [listing[0]] + rest else rest
  }

  /** The shared file system, updated in place by the model groups. */
  class FileSystem {
    var nodes: map<string, Node>

    ghost predicate Valid()
      reads this
    {
      forall d :: d in nodes ==> WellFormed(nodes[d])
    }

    constructor(initial: map<string, Node>)
      requires forall d :: d in initial ==> WellFormed(initial[d])
      ensures nodes == initial
      ensures Valid()
    {
      nodes := initial;
    }

    predicate IsFolder(dir: string)
      reads this
    {
      dir in nodes && nodes[dir].Folder?
    }

    /** `open(dir/name, 'w').write(...)`: creates or replaces one entry. */
    method Write(dir: string, name: string, data: FileData)
      requires Valid() && IsFolder(dir)
      modifies this
      ensures Valid()
      ensures nodes == old(nodes)[dir := Put(old(nodes)[dir], name, data)]
    {
      nodes := nodes[dir := Put(nodes[dir], name, data)];
    }

    /** `os.remove(dir/name)` */
    method Remove(dir: string, name: string)
      requires Valid() && IsFolder(dir)
      modifies this
      ensures Valid()
      ensures nodes == old(nodes)[dir := Delete(old(nodes)[dir], name)]
    {
      nodes := nodes[dir := Delete(nodes[dir], name)];
    }
  }
}

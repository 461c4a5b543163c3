/**
 * The `.sho` scripts offered for a model in show_my_designs: the
 * directories searched (the model group's directory and each directory
 * above it, the root excluded) and the menu title made from a script's
 * path.  Paths follow POSIX `os.path`.
 */
module Scripts {
  import opened Wrappers
  import opened PyStr

  /** `s.rfind(c)`: the last position holding `c`, or -1. */
  function LastIndex(s: string, c: char): (r: int)
    ensures -1 <= r < |s|
    ensures r >= 0 ==> s[r] == c
    ensures forall i :: r < i < |s| ==> s[i] != c
  {
    if s == [] then -1
    else if s[|s| - 1] == c then |s| - 1
    else LastIndex(s[..|s| - 1], c)
  }

  predicate AllSlashes(s: string)
  {
    forall i :: 0 <= i < |s| ==> s[i] == '/'
  }

  /** `s.rstrip('/')` */
  function StripSlashes(s: string): (r: string)
    ensures r <= s
    ensures r == [] || r[|r| - 1] != '/'
    ensures forall i :: |r| <= i < |s| ==> s[i] == '/'
  {
    if s != [] && s[|s| - 1] == '/' then StripSlashes(s[..|s| - 1]) else s
  }

  /**
   * `os.path.dirname`: everything up to the last slash, with trailing
   * slashes dropped unless nothing else is left.
   */
  function DirName(p: string): string
  {
    var head := p[..LastIndex(p, '/') + 1];
    if head != [] && !AllSlashes(head) then StripSlashes(head) else head
  }

  /** `os.path.basename`: everything after the last slash. */
  function BaseName(p: string): (r: string)
    ensures |r| <= |p|
    ensures forall i :: 0 <= i < |r| ==> r[i] != '/'
    ensures p == p[..|p| - |r|] + r
  {
    var k := LastIndex(p, '/') + 1;
    assert p == p[..k] + p[k..];
    p[k..]
  }

  /** An absolute path as `os.path.abspath` returns it, with no doubled slash. */
  predicate Normalized(p: string)
  {
    |p| > 0 && p[0] == '/' &&
    (p != "/" ==> p[|p| - 1] != '/') &&
    forall i :: 0 <= i < |p| - 1 ==> !(p[i] == '/' && p[i + 1] == '/')
  }

  /** The parent of a normalized path other than the root drops its last component. */
  lemma DirNameOfNormalized(p: string)
    requires Normalized(p) && p != "/"
    ensures var k := LastIndex(p, '/');
      0 <= k < |p| - 1 && DirName(p) == if k == 0 then "/" else p[..k]
    ensures Normalized(DirName(p)) && |DirName(p)| < |p|
  {
    var k := LastIndex(p, '/');
    assert k >= 0 by { assert p[0] == '/'; }
    var head := p[..k + 1];
    if k == 0 {
      assert head == "/";
      assert AllSlashes(head);
    } else {
      assert p[k - 1] != '/';
      assert !AllSlashes(head) by { assert head[k - 1] != '/'; }
      assert head == p[..k] + ['/'];
      assert StripSlashes(head) == StripSlashes(p[..k]);
      assert DirName(p) == p[..k];
    }
  }

  /** `os.path.dirname` of the path made of two slashes is itself. */
  lemma DoubleSlashIsItsOwnParent()
    ensures DirName("//") == "//" && "//" != "/"
  {
    assert LastIndex("//", '/') == 1;
    assert AllSlashes("//");
  }

  /** The directory the walk of the source reaches after `n` turns from `p`. */
  function DirNameAfter(p: string, n: nat): string
  {
    if n == 0 then p else DirName(DirNameAfter(p, n - 1))
  }

  /**
   * `os.path.abspath` keeps a leading `//`, and the walk as written, which
   * stops only at `/`, then never stops: from `//models` every turn after
   * the first is at `//`.
   */
  lemma {:induction false} DoubleSlashWalkNeverEnds(n: nat)
    ensures DirNameAfter("//models", n) != "/"
    ensures n > 0 ==> DirNameAfter("//models", n) == "//"
  {
    if n > 0 {
      DoubleSlashWalkNeverEnds(n - 1);
      DoubleSlashIsItsOwnParent();
      if n == 1 {
        var p := "//models";
        assert p[1] == '/' && forall i :: 2 <= i < |p| ==> p[i] != '/';
        assert LastIndex(p, '/') == 1;
        assert p[..2] == "//" && AllSlashes(p[..2]);
      }
    }
  }

  /** `os.path.dirname` returns a leading part of its path. */
  lemma DirNamePrefix(p: string)
    ensures DirName(p) <= p
  {
    var head := p[..LastIndex(p, '/') + 1];
    assert head <= p;
  }

  /**
   * The directories searched for `.sho` scripts, from `p` upwards, stopping
   * before the root.
   */
  function Ancestors(p: string): (r: seq<string>)
    requires Normalized(p)
    ensures p == "/" <==> r == []
    ensures r != [] ==> r[0] == p
    ensures forall i :: 0 <= i < |r| ==> Normalized(r[i]) && r[i] <= p && r[i] != "/"
    ensures forall i, j :: 0 <= i < j < |r| ==> |r[j]| < |r[i]|
    decreases |p|
  {
    if p == "/" then []
    else
      DirNameOfNormalized(p);
      var rest := Ancestors(DirName(p));
      assert forall i :: 0 < i < |[p] + rest| ==> ([p] + rest)[i] == rest[i - 1];
      [p] + rest
  }

  /** One step of the walk: the directory itself, then the walk from its parent. */
  lemma AncestorsStep(p: string)
    requires Normalized(p) && p != "/"
    ensures Normalized(DirName(p)) && |DirName(p)| < |p|
    ensures Ancestors(p) == [p] + Ancestors(DirName(p))
  {
    DirNameOfNormalized(p);
  }

  /**
   * The searched directories are exactly the leading parts of `p` that end
   * where a slash follows, and `p` itself, the root aside.
   */
  lemma {:induction false} AncestorsAreSlashPrefixes(p: string, e: string)
    requires Normalized(p)
    ensures e in Ancestors(p) <==> |e| >= 2 && e <= p && (|e| == |p| || p[|e|] == '/')
    decreases |p|
  {
    if p != "/" {
      DirNameOfNormalized(p);
      var k := LastIndex(p, '/');
      var d := DirName(p);
      AncestorsAreSlashPrefixes(d, e);
      assert Ancestors(p) == [p] + Ancestors(d);
      assert e in Ancestors(p) <==> e == p || e in Ancestors(d);
      if |e| >= 2 && e <= p && |e| < |p| && p[|e|] == '/' {
        assert |e| <= k;
        assert k > 0;
        if |e| < k {
          assert d[|e|] == p[|e|];
          assert e <= d;
        } else {
          assert e == d;
        }
      }
      if e in Ancestors(d) {
        assert e <= d && d <= p;
        if |e| == |d| {
          assert d == p[..k] && p[k] == '/';
        } else {
          assert d[|e|] == p[|e|];
        }
      }
    }
  }

  /**
   * The directory walk of the `.sho` search: the group's directory, then
   * each parent in turn until a root, which is not searched.  The walk
   * stops where `dirname` no longer moves, which on a normalized path is
   * exactly at `/`, and which also ends the walk from a leading `//`.
   */
  method ShoSearchDirs(directory: string) returns (dirs: seq<string>)
    ensures Normalized(directory) ==> dirs == Ancestors(directory)
    ensures forall i :: 0 <= i < |dirs| ==> dirs[i] <= directory && DirName(dirs[i]) != dirs[i]
  {
    var d := directory;
    dirs := [];
    assert DirName("/") == "/" by {
      assert LastIndex("/", '/') == 0;
      assert AllSlashes("/");
    }
    while DirName(d) != d
      invariant d <= directory
      invariant forall i :: 0 <= i < |dirs| ==> dirs[i] <= directory && DirName(dirs[i]) != dirs[i]
      invariant Normalized(directory) ==> Normalized(d) && dirs + Ancestors(d) == Ancestors(directory)
      decreases |d|
    {
      DirNamePrefix(d);
      if Normalized(directory) {
        WalkStep(dirs, d, directory);
      }
      dirs := dirs + [d];
      d := DirName(d);
    }
    if Normalized(directory) && d != "/" {
      DirNameOfNormalized(d);
    }
  }

  /** One turn of the walk keeps what is left to visit. */
  lemma WalkStep(dirs: seq<string>, d: string, directory: string)
    requires Normalized(d) && d != "/" && Normalized(directory)
    requires dirs + Ancestors(d) == Ancestors(directory)
    ensures Normalized(DirName(d)) && |DirName(d)| < |d|
    ensures (dirs + [d]) + Ancestors(DirName(d)) == Ancestors(directory)
  {
    DirNameOfNormalized(d);
    var rest := Ancestors(DirName(d));
    assert Ancestors(d) == [d] + rest;
    assert (dirs + [d]) + rest == dirs + ([d] + rest);
  }

  /**
   * `os.path.splitext(p)[0]`: `p` without its extension, the part from the
   * last dot of the file name when something other than dots comes before
   * that dot.
   */
  function SplitExtRoot(p: string): (r: string)
    ensures r <= p
  {
    var sep := LastIndex(p, '/');
    var dot := LastIndex(p, '.');
    if dot > sep && exists i :: sep + 1 <= i < dot && p[i] != '.' then p[..dot] else p
  }

  /**
   * The menu title of a script: its file name without extension, the
   * first character upper-cased and underscores turned into spaces.  `None`
   * is the IndexError raised for an empty name.
   */
  function ShoTitle(script: string): (r: Option<string>)
    ensures r.None? <==> BaseName(SplitExtRoot(script)) == []
    ensures r.Some? ==> |r.value| == |BaseName(SplitExtRoot(script))|
  {
    var stem := BaseName(SplitExtRoot(script));
    if stem == [] then None
    else Some(ReplaceChar([UpperChar(stem[0])] + stem[1..], '_', ' '))
  }

  /**
   * A script found by the search, `<dir>/<stem>.sho` with a stem that does
   * not start with a dot, always gets a title: its stem with the first
   * character upper-cased and underscores as spaces.
   */
  lemma ShoTitleOfFoundScript(dir: string, stem: string)
    requires stem != [] && stem[0] != '.'
    requires forall i :: 0 <= i < |stem| ==> stem[i] != '/'
    ensures ShoTitle(dir + "/" + stem + ".sho") == Some(ReplaceChar([UpperChar(stem[0])] + stem[1..], '_', ' '))
  {
    var p := dir + "/" + stem + ".sho";
    var sep := |dir|;
    var dot := |dir| + 1 + |stem|;
    assert p[sep] == '/' && forall i :: sep < i < |p| ==> p[i] != '/';
    assert LastIndex(p, '/') == sep;
    assert p[dot] == '.' && forall i :: dot < i < |p| ==> p[i] != '.';
    assert LastIndex(p, '.') == dot;
    assert p[sep + 1] == stem[0];
    var root := p[..dot];
    assert SplitExtRoot(p) == root;
    assert root == dir + "/" + stem;
    assert root[sep] == '/' && forall i :: sep < i < |root| ==> root[i] != '/';
    assert LastIndex(root, '/') == sep;
    assert BaseName(root) == stem;
  }
}

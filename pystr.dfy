/**
 * The few Python 2 byte-string operations the viewer relies on: prefix and
 * substring tests, ASCII case mapping (`lower`, `islower`, `title`),
 * whitespace splitting and stripping, and `readlines`.  On byte strings
 * Python maps the case of ASCII letters only, which is what is modelled.
 */
module PyStr {

  predicate IsSpace(c: char)
  {
    c == ' ' || c == '\t' || c == '\n' || c == '\r' || c == '\U{000B}' || c == '\U{000C}'
  }

  predicate IsUpperChar(c: char) { 'A' <= c <= 'Z' }

  predicate IsLowerChar(c: char) { 'a' <= c <= 'z' }

  predicate IsLetter(c: char) { IsUpperChar(c) || IsLowerChar(c) }

  function LowerChar(c: char): (r: char)
    ensures !IsUpperChar(r)
    ensures IsLetter(c) <==> IsLetter(r)
    ensures !IsUpperChar(c) ==> r == c
  {
    if IsUpperChar(c) then (c as int + 32) as char else c
  }

  function UpperChar(c: char): (r: char)
    ensures !IsLowerChar(r)
    ensures IsLetter(c) <==> IsLetter(r)
    ensures !IsLowerChar(c) ==> r == c
    ensures LowerChar(r) == LowerChar(c)
  {
    if IsLowerChar(c) then (c as int - 32) as char else c
  }

  /** `s.lower()` */
  function Lower(s: string): (r: string)
    ensures |r| == |s|
    ensures forall i :: 0 <= i < |s| ==> r[i] == LowerChar(s[i])
  {
    seq(|s|, i requires 0 <= i < |s| => LowerChar(s[i]))
  }

  /** `s.islower()`: at least one cased character and no upper-case one. */
  predicate IsLower(s: string)
  {
    (exists i :: 0 <= i < |s| && IsLowerChar(s[i])) &&
    (forall i :: 0 <= i < |s| ==> !IsUpperChar(s[i]))
  }

  /** `s.startswith(p)` */
  predicate StartsWith(s: string, p: string)
  {
    |p| <= |s| && s[..|p|] == p
  }

  predicate OccursAt(hay: string, needle: string, i: int)
  {
    0 <= i && i + |needle| <= |hay| && hay[i..i + |needle|] == needle
  }

  /** `needle in hay` */
  function Contains(hay: string, needle: string): (r: bool)
    ensures r <==> exists i :: OccursAt(hay, needle, i)
    decreases |hay|
  {
    if StartsWith(hay, needle) then
      assert OccursAt(hay, needle, 0);
      true
    else if hay == [] then
      assert forall i :: !OccursAt(hay, needle, i);
      false
    else
      var rest := Contains(hay[1..], needle);
      assert forall i :: OccursAt(hay[1..], needle, i) ==> OccursAt(hay, needle, i + 1);
      assert forall i :: OccursAt(hay, needle, i) ==> i > 0 && OccursAt(hay[1..], needle, i - 1);
      rest
  }

  /** A lower-case needle found in a string is found in its lower-cased copy. */
  lemma ContainsLower(hay: string, needle: string)
    requires Contains(hay, needle)
    ensures Contains(Lower(hay), Lower(needle))
  {
    var i :| OccursAt(hay, needle, i);
    assert Lower(hay)[i..i + |needle|] == Lower(needle);
    assert OccursAt(Lower(hay), Lower(needle), i);
  }

  /** A string with no upper-case letter is its own lower-cased copy. */
  lemma LowerOfLower(s: string)
    requires forall i :: 0 <= i < |s| ==> !IsUpperChar(s[i])
    ensures Lower(s) == s
  {
  }

  /** Python's `s.title()`: a letter is upper-cased when it starts a run of letters and lower-cased otherwise. */
  function Title(s: string): (r: string)
    ensures |r| == |s|
    ensures forall i :: 0 <= i < |s| ==> TitledAt(s, r, i)
  {
    seq(|s|, i requires 0 <= i < |s| => TitleChar(s[i], i > 0 && IsLetter(s[i - 1])))
  }

  /**
   * Position `i` of `r` is position `i` of `s` titled: the same letter up to
   * case, or the same non-letter; upper case where a run of letters starts,
   * not upper case inside one.
   */
  predicate TitledAt(s: string, r: string, i: int)
    requires 0 <= i < |s| && |r| == |s|
  {
    LowerChar(r[i]) == LowerChar(s[i]) &&
    (IsLetter(r[i]) <==> IsLetter(s[i])) &&
    (!IsLetter(s[i]) ==> r[i] == s[i]) &&
    (IsLetter(s[i]) && (i == 0 || !IsLetter(s[i - 1])) ==> IsUpperChar(r[i])) &&
    (i > 0 && IsLetter(s[i - 1]) ==> !IsUpperChar(r[i]))
  }

  /** One character of `title()`, given whether the character before it is a letter. */
  function TitleChar(c: char, afterLetter: bool): (r: char)
    ensures LowerChar(r) == LowerChar(c)
    ensures IsLetter(r) <==> IsLetter(c)
    ensures !IsLetter(c) ==> r == c
    ensures IsLetter(c) && !afterLetter ==> IsUpperChar(r)
    ensures afterLetter ==> !IsUpperChar(r)
  {
    if !IsLetter(c) then c
    else if afterLetter then LowerChar(c)
    else UpperChar(c)
  }

  /** `s.replace(a, b)` for one-character `a` and `b`. */
  function ReplaceChar(s: string, a: char, b: char): (r: string)
    ensures |r| == |s|
    ensures forall i :: 0 <= i < |s| ==> r[i] == (if s[i] == a then b else s[i])
  {
    seq(|s|, i requires 0 <= i < |s| => if s[i] == a then b else s[i])
  }

  /** Drops leading whitespace. */
  function SkipSpaces(s: string): (r: string)
    ensures |r| <= |s| && r == s[|s| - |r|..]
    ensures r != [] ==> !IsSpace(r[0])
    ensures forall i :: 0 <= i < |s| - |r| ==> IsSpace(s[i])
  {
    if s != [] && IsSpace(s[0]) then SkipSpaces(s[1..]) else s
  }

  /** Drops trailing whitespace. */
  function StripEnd(s: string): (r: string)
    ensures |r| <= |s| && r == s[..|r|]
    ensures r != [] ==> !IsSpace(r[|r| - 1])
    ensures forall i :: |r| <= i < |s| ==> IsSpace(s[i])
  {
    if s != [] && IsSpace(s[|s| - 1]) then StripEnd(s[..|s| - 1]) else s
  }

  /** `s.strip()` */
  function Strip(s: string): string
  {
    StripEnd(SkipSpaces(s))
  }

  /** Length of the leading run of non-whitespace characters. */
  function WordLength(s: string): (n: nat)
    ensures n <= |s|
    ensures forall i :: 0 <= i < n ==> !IsSpace(s[i])
    ensures n < |s| ==> IsSpace(s[n])
  {
    if s == [] || IsSpace(s[0]) then 0 else 1 + WordLength(s[1..])
  }

  /** A token of `split()`: non-empty, without whitespace. */
  predicate Word(w: string)
  {
    |w| > 0 && forall i :: 0 <= i < |w| ==> !IsSpace(w[i])
  }

  /** `s.split()` with no argument: the maximal runs of non-whitespace characters. */
  function Split(s: string): (r: seq<string>)
    ensures forall k :: 0 <= k < |r| ==> Word(r[k])
    decreases |s|
  {
    var t := SkipSpaces(s);
    if t == [] then []
    else
      var n := WordLength(t);
      var rest := Split(t[n..]);
      assert Word(t[..n]);
      assert forall k :: 0 < k < |[t[..n]] + rest| ==> ([t[..n]] + rest)[k] == rest[k - 1];
      [t[..n]] + rest
  }

  /** Leading whitespace is not part of any token. */
  lemma SplitSkipsSpace(s: string)
    requires s != [] && IsSpace(s[0])
    ensures Split(s) == Split(s[1..])
  {
  }

  /** Text that is all whitespace has no tokens, and text with a non-space character has one. */
  lemma SplitEmptyIff(s: string)
    ensures Split(s) == [] <==> forall i :: 0 <= i < |s| ==> IsSpace(s[i])
  {
    var t := SkipSpaces(s);
    if t != [] {
      assert !IsSpace(s[|s| - |t|]);
    }
  }

  /**
   * A word followed by whitespace, or by nothing, is the first token, and the
   * rest of the text gives the rest of the tokens.  With `SplitSkipsSpace`
   * this fixes every token: the maximal runs of non-space characters, in order.
   */
  lemma SplitTakesWord(w: string, rest: string)
    requires Word(w)
    requires rest == [] || IsSpace(rest[0])
    ensures Split(w + rest) == [w] + Split(rest)
  {
    var s := w + rest;
    assert SkipSpaces(s) == s;
    WordLengthOf(w, rest);
    assert s[..|w|] == w && s[|w|..] == rest;
  }

  lemma {:induction false} WordLengthOf(w: string, rest: string)
    requires forall i :: 0 <= i < |w| ==> !IsSpace(w[i])
    requires rest == [] || IsSpace(rest[0])
    ensures WordLength(w + rest) == |w|
  {
    if w != [] {
      assert (w + rest)[1..] == w[1..] + rest;
      WordLengthOf(w[1..], rest);
    } else {
      assert w + rest == rest;
    }
  }

  /** Length of the first line of a non-empty text, its terminating newline included. */
  function FirstLineLength(s: string): (n: nat)
    requires s != []
    ensures 0 < n <= |s|
    ensures forall i :: 0 <= i < n - 1 ==> s[i] != '\n'
    ensures n < |s| ==> s[n - 1] == '\n'
  {
    if s[0] == '\n' || |s| == 1 then 1 else 1 + FirstLineLength(s[1..])
  }

  function Concat(lines: seq<string>): string
  {
    if lines == [] then [] else lines[0] + Concat(lines[1..])
  }

  /** A line as `readlines()` gives it: not empty, with a newline at most at its end. */
  predicate OneLine(w: string)
  {
    |w| > 0 && forall i :: 0 <= i < |w| - 1 ==> w[i] != '\n'
  }

  /** A line that ends in a newline. */
  predicate EndsLine(w: string)
  {
    |w| > 0 && w[|w| - 1] == '\n'
  }

  /** Lines as `readlines()` cuts them: each one line, every one but the last ending in its newline. */
  predicate LineCut(r: seq<string>)
  {
    forall k :: 0 <= k < |r| ==> OneLine(r[k]) && (k < |r| - 1 ==> EndsLine(r[k]))
  }

  /** `file.readlines()`: the text cut after every newline; joining the lines gives the text back. */
  function SplitLines(s: string): (r: seq<string>)
    ensures Concat(r) == s
    ensures LineCut(r)
    decreases |s|
  {
    if s == [] then []
    else
      var n := FirstLineLength(s);
      var rest := SplitLines(s[n..]);
      assert OneLine(s[..n]);
      assert n == |s| ==> s[n..] == [];
      assert n < |s| ==> EndsLine(s[..n]);
      assert forall k :: 1 <= k < |rest| + 1 ==> ([s[..n]] + rest)[k] == rest[k - 1];
      assert ([s[..n]] + rest)[1..] == rest;
      assert s[..n] + s[n..] == s;
      [s[..n]] + rest
  }
}

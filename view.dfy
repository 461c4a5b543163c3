/**
 * The pure logic behind the two viewers' windows: axis titles, the default
 * and cycled axis metrics, the ordered list of selected groups and the
 * search filter over the groups' notes.  The widgets themselves are not
 * modelled; a `ViewState` holds the fields the window keeps for them.
 */
module View {
  import opened Wrappers
  import opened PyStr
  import opened Ordering
  import opened Records

  /** The axis titles known by name. */
  const MetricTitles: map<string, string> := map[
    TotalScore := "Total Score (REU)",
    LoopRmsd := "Loop RMSD (\U{00C5})",
    BuriedUnsats := "\U{0394} Buried Unsats"
  ]

  /**
   * `get_metric_title`: the known title, else the name title-cased with
   * underscores and hyphens turned into spaces.
   */
  function MetricTitle(metric: string): (r: string)
    ensures metric in MetricTitles ==> r == MetricTitles[metric]
    ensures metric !in MetricTitles ==> |r| == |metric|
    ensures metric !in MetricTitles ==> forall i :: 0 <= i < |r| && (metric[i] == '_' || metric[i] == '-') ==> r[i] == ' '
    ensures metric !in MetricTitles ==> forall i :: 0 <= i < |r| && metric[i] != '_' && metric[i] != '-' ==>
      TitledAt(metric, r, i)
    ensures metric !in MetricTitles ==> forall i :: 0 <= i < |r| ==> r[i] != '_' && r[i] != '-'
  {
    var naive := ReplaceChar(ReplaceChar(Title(metric), '_', ' '), '-', ' ');
    match Get(MetricTitles, metric)
    case Some(title) => title
    case None => naive
  }

  datatype Axes = Axes(x: string, y: string)

  /**
   * The axes show_my_designs starts with: `loop_rmsd` against `total_score`,
   * each replaced by the second defined metric when it is not defined.
   * `None` is the IndexError raised when that metric does not exist.
   */
  function DesignDefaultAxes(defined: seq<string>): (r: Option<Axes>)
    ensures r.Some? <==> (LoopRmsd in defined || |defined| >= 2) && (TotalScore in defined || |defined| >= 2)
    ensures r.Some? ==> r.value.x in defined && r.value.y in defined
    ensures r.Some? ==> (r.value.x == LoopRmsd <==> LoopRmsd in defined)
    ensures r.Some? ==> (r.value.y == TotalScore <==> TotalScore in defined)
    ensures r.Some? && LoopRmsd !in defined ==> r.value.x == defined[1]
    ensures r.Some? && TotalScore !in defined ==> r.value.y == defined[1]
  {
    if (LoopRmsd !in defined || TotalScore !in defined) && |defined| < 2 then None
    else
      Some(Axes(
        if LoopRmsd in defined then LoopRmsd else defined[1],
        if TotalScore in defined then TotalScore else defined[1]))
  }

  /**
   * The axes show_me_pdbs starts with: `loop_rmsd` or else the second
   * defined metric across, `total_score` or else the first defined metric
   * up.  `None` is the IndexError raised when that metric does not exist.
   */
  function DefaultAxes(defined: seq<string>): (r: Option<Axes>)
    ensures r.Some? <==> (LoopRmsd in defined || |defined| >= 2) && (TotalScore in defined || |defined| >= 1)
    ensures r.Some? ==> r.value.x in defined && r.value.y in defined
    ensures r.Some? ==> (r.value.x == LoopRmsd <==> LoopRmsd in defined)
    ensures r.Some? ==> (r.value.y == TotalScore <==> TotalScore in defined)
    ensures r.Some? && LoopRmsd !in defined ==> r.value.x == defined[1]
    ensures r.Some? && TotalScore !in defined ==> r.value.y == defined[0]
  {
    if LoopRmsd !in defined && |defined| < 2 then None
    else if TotalScore !in defined && |defined| < 1 then None
    else
      Some(Axes(
        if LoopRmsd in defined then LoopRmsd else defined[1],
        if TotalScore in defined then TotalScore else defined[0]))
  }

  /**
   * show_my_designs puts the same metric on both axes exactly when neither
   * preferred metric is defined, or when the one that is defined sits
   * second in the list and stands in for the other.
   */
  lemma DesignAxesCoincide(defined: seq<string>)
    requires Distinct(defined) && DesignDefaultAxes(defined).Some?
    ensures DesignDefaultAxes(defined).value.x == DesignDefaultAxes(defined).value.y <==>
      (LoopRmsd !in defined && TotalScore !in defined) ||
      (LoopRmsd !in defined && defined[1] == TotalScore) ||
      (TotalScore !in defined && defined[1] == LoopRmsd)
  {
  }

  /**
   * show_me_pdbs puts the same metric on both axes exactly when one
   * preferred metric is missing and the other sits where the fallback looks.
   */
  lemma DefaultAxesCoincide(defined: seq<string>)
    requires Distinct(defined) && DefaultAxes(defined).Some?
    ensures DefaultAxes(defined).value.x == DefaultAxes(defined).value.y <==>
      (LoopRmsd !in defined && defined[1] == TotalScore) ||
      (TotalScore !in defined && defined[0] == LoopRmsd)
  {
    var r := DefaultAxes(defined).value;
    if LoopRmsd !in defined && TotalScore !in defined {
      assert r.x == defined[1] && r.y == defined[0];
      assert defined[0] != defined[1];
    }
  }

  /** The metrics every group defines: `set.intersection` over the groups, which fails for no groups. */
  function SharedMetrics(sets: seq<set<string>>): (r: Option<set<string>>)
    ensures r.Some? <==> sets != []
    ensures r.Some? ==> forall m :: m in r.value <==> forall i :: 0 <= i < |sets| ==> m in sets[i]
  {
    if sets == [] then None
    else if |sets| == 1 then Some(sets[0])
    else
      var rest := SharedMetrics(sets[1..]).value;
      assert forall i :: 1 <= i < |sets| ==> sets[i] == sets[1..][i - 1];
      Some(sets[0] * rest)
  }

  /** `list.index`: the first position holding `x`. */
  function IndexOf(s: seq<string>, x: string): (k: nat)
    requires x in s
    ensures k < |s| && s[k] == x
    ensures forall i :: 0 <= i < k ==> s[i] != x
  {
    if s[0] == x then 0 else 1 + IndexOf(s[1..], x)
  }

  /** One step on along a list of `n` entries, wrapping round: `(i + 1) % n`. */
  function Step(i: nat, n: nat): (r: nat)
    requires i < n
    ensures r < n
    ensures n >= 2 ==> r != i
    ensures r == if i + 1 < n then i + 1 else 0
  {
    (i + 1) % n
  }

  /**
   * The position an axis moves to when cycled: one step on, and one step
   * more when that position holds the other axis's metric.
   */
  function NextIndex(defined: seq<string>, current: string, other: string): (j: nat)
    requires current in defined
    ensures j < |defined|
    ensures Distinct(defined) && |defined| >= 2 ==> defined[j] != other
    ensures var i := Step(IndexOf(defined, current), |defined|);
      j == if defined[i] == other then Step(i, |defined|) else i
  {
    var i := Step(IndexOf(defined, current), |defined|);
    if defined[i] == other then Step(i, |defined|) else i
  }

  /** With three metrics or more, cycling an axis always changes it. */
  lemma {:induction false} CycleMoves(defined: seq<string>, current: string, other: string)
    requires current in defined && Distinct(defined) && |defined| >= 3
    ensures defined[NextIndex(defined, current, other)] != current
  {
    var n := |defined|;
    var k := IndexOf(defined, current);
    var i := Step(k, n);
    assert NextIndex(defined, current, other) == i || NextIndex(defined, current, other) == Step(i, n);
  }

  /** With exactly two metrics on two different axes, cycling an axis leaves it where it is. */
  lemma {:induction false} CycleStaysWithTwo(defined: seq<string>, current: string, other: string)
    requires current in defined && other in defined && current != other
    requires Distinct(defined) && |defined| == 2
    ensures defined[NextIndex(defined, current, other)] == current
  {
    var k := IndexOf(defined, current);
    assert defined[Step(k, 2)] == other;
  }

  /** `for key in old_keys: if key in new_keys: keys.append(key)` */
  function Kept(previous: seq<string>, selected: seq<string>): (r: seq<string>)
    ensures forall k :: k in r <==> k in previous && k in selected
    ensures Distinct(previous) ==> Distinct(r)
  {
    if previous == [] then []
    else
      var front := previous[..|previous| - 1];
      var last := previous[|previous| - 1];
      assert previous == front + [last];
      Kept(front, selected) + (if last in selected then [last] else [])
  }

  /** One more old key: kept exactly when it is still selected. */
  lemma KeptStep(previous: seq<string>, selected: seq<string>, i: nat)
    requires i < |previous|
    ensures Kept(previous[..i + 1], selected) ==
      Kept(previous[..i], selected) + (if previous[i] in selected then [previous[i]] else [])
  {
    assert previous[..i + 1][..i] == previous[..i];
  }

  /**
   * The kept keys stay in their old order: of two kept keys, the earlier
   * one comes first among the old keys (which never repeat).
   */
  lemma {:induction false} KeptOrder(previous: seq<string>, selected: seq<string>, i: nat, j: nat)
    requires Distinct(previous) && i < j < |Kept(previous, selected)|
    ensures var r := Kept(previous, selected);
      r[i] in previous && r[j] in previous && FirstIndex(previous, r[i]) < FirstIndex(previous, r[j])
  {
    var r := Kept(previous, selected);
    var n := |previous| - 1;
    var front := previous[..n];
    var kept := Kept(front, selected);
    assert previous == front + [previous[n]];
    var a := r[i];
    var b := r[j];
    assert a in r && b in r;
    if j < |kept| {
      assert kept[i] == a && kept[j] == b;
      KeptOrder(front, selected, i, j);
      FirstIndexPrefix(previous, n, a);
      FirstIndexPrefix(previous, n, b);
    } else {
      assert b == previous[n] && a in kept;
      FirstIndexPrefix(previous, n, a);
      var q := FirstIndex(previous, b);
      assert previous[q] == previous[n];
    }
  }

  /** The selected keys after a selection change, from the keys before it and the rows now selected. */
  function MergeSelection(previous: seq<string>, selected: seq<string>): seq<string>
  {
    AppendMissing(Kept(previous, selected), selected)
  }

  /**
   * The new key list holds each selected key once; it starts with the old
   * keys still selected, in their old order, and goes on with the keys
   * newly selected, in the order they were first selected.
   */
  lemma MergeSelectionFacts(previous: seq<string>, selected: seq<string>)
    requires Distinct(previous)
    ensures var r := MergeSelection(previous, selected);
      Distinct(r) &&
      (forall k :: k in r <==> k in selected) &&
      r[..|Kept(previous, selected)|] == Kept(previous, selected) &&
      (forall k :: k in r[|Kept(previous, selected)|..] ==> k !in previous)
  {
    var kept := Kept(previous, selected);
    var r := MergeSelection(previous, selected);
    forall k | k in r[|kept|..]
      ensures k !in previous
    {
      assert k !in kept;
      assert k in r;
    }
  }

  /** Keys newly selected are appended in the order they first occur in the selection. */
  lemma MergeSelectionOrder(previous: seq<string>, selected: seq<string>, i: nat, j: nat)
    requires |Kept(previous, selected)| <= i < j < |MergeSelection(previous, selected)|
    ensures var r := MergeSelection(previous, selected);
      r[i] in selected && r[j] in selected && FirstIndex(selected, r[i]) < FirstIndex(selected, r[j])
  {
    var kept := Kept(previous, selected);
    var r := AppendMissing(kept, selected);
    assert r == MergeSelection(previous, selected);
    var a, b := i - |kept|, j - |kept|;
    assert r[|kept| + a] == r[i] && r[|kept| + b] == r[j];
    AppendMissingOrder(kept, selected, a, b);
  }

  /** A selection that keeps every old key and adds none leaves the list unchanged. */
  lemma {:induction false} ReselectKeepsOrder(previous: seq<string>, selected: seq<string>)
    requires forall k :: k in selected <==> k in previous
    ensures MergeSelection(previous, selected) == previous
  {
    KeptAll(previous, selected);
    AppendMissingNothingNew(previous, selected);
  }

  lemma {:induction false} KeptAll(previous: seq<string>, selected: seq<string>)
    requires forall k :: k in previous ==> k in selected
    ensures Kept(previous, selected) == previous
  {
    if previous != [] {
      var front := previous[..|previous| - 1];
      var last := previous[|previous| - 1];
      assert previous == front + [last];
      KeptAll(front, selected);
    }
  }

  /**
   * The loops of `on_select_*`: the old keys still selected, in their old
   * order, then the selected rows not yet in the list.
   */
  method SelectKeys(previous: seq<string>, selected: seq<string>) returns (merged: seq<string>)
    ensures merged == MergeSelection(previous, selected)
  {
    merged := [];
    for i := 0 to |previous|
      invariant merged == Kept(previous[..i], selected)
    {
      KeptStep(previous, selected, i);
      if previous[i] in selected {
        merged := merged + [previous[i]];
      }
    }
    assert previous[..|previous|] == previous;
    var kept := merged;
    for i := 0 to |selected|
      invariant merged == AppendMissing(kept, selected[..i])
    {
      AppendMissingStep(kept, selected, i);
      if selected[i] !in merged {
        merged := merged + [selected[i]];
      }
    }
    assert selected[..|selected|] == selected;
  }

  const WindowName: string := "Show My Designs"

  /** The window title after a selection change: the first selected key, and an ellipsis when there are more. */
  function WindowTitle(keys: seq<string>): (r: string)
    ensures StartsWith(r, WindowName)
    ensures keys == [] <==> r == WindowName
    ensures keys != [] ==> var n := |WindowName|; var k := |keys[0]|;
      |r| > n + 2 + k && r[n..n + 2] == " (" && r[n + 2..n + 2 + k] == keys[0] &&
      r[n + 2 + k..] == (if |keys| == 1 then ")" else ", ...)")
  {
    if keys == [] then WindowName
    else if |keys| == 1 then WindowName + " (" + keys[0] + ")"
    else WindowName + " (" + keys[0] + ", ...)"
  }

  /** `query_matches_*`: the needle in the notes, ignoring case only when the needle is lower case. */
  predicate QueryMatches(needle: string, notes: string)
  {
    if IsLower(needle) then Contains(Lower(notes), needle) else Contains(notes, needle)
  }

  /** An empty search shows every group. */
  lemma EmptyNeedleMatches(notes: string)
    ensures QueryMatches("", notes)
  {
    assert OccursAt(notes, "", 0);
  }

  /** A lower-case needle finds its text in any mix of cases. */
  lemma LowerNeedleIgnoresCase(needle: string, written: string, notes: string)
    requires IsLower(needle) && Lower(written) == needle
    requires Contains(notes, written)
    ensures QueryMatches(needle, notes)
  {
    ContainsLower(notes, written);
  }

  /** A needle holding an upper-case letter must occur exactly as typed. */
  lemma MixedNeedleIsExact(needle: string, notes: string)
    requires exists i :: 0 <= i < |needle| && IsUpperChar(needle[i])
    ensures QueryMatches(needle, notes) <==> Contains(notes, needle)
  {
  }

  /** A lower-case needle matched in notes with no upper-case letters matches them as they are. */
  lemma LowerNotesMatchExactly(needle: string, notes: string)
    requires forall i :: 0 <= i < |notes| ==> !IsUpperChar(notes[i])
    ensures QueryMatches(needle, notes) <==> Contains(notes, needle)
  {
    LowerOfLower(notes);
  }

  /**
   * `update_filter`: the group keys, in sorted order, whose notes match the
   * search text.
   */
  method UpdateFilter(notes: map<string, string>, needle: string) returns (shown: seq<string>)
    ensures Sorted(shown) && Distinct(shown)
    ensures forall k :: k in shown <==> k in notes && QueryMatches(needle, notes[k])
  {
    var keys := SortSet(notes.Keys);
    shown := [];
    for i := 0 to |keys|
      invariant Sorted(shown) && Distinct(shown)
      invariant forall k :: k in shown <==> k in keys[..i] && QueryMatches(needle, notes[k])
      invariant forall k, j :: k in shown && i <= j < |keys| ==> Below(k, keys[j]) && k != keys[j]
    {
      var key := keys[i];
      if QueryMatches(needle, notes[key]) {
        forall a, b | 0 <= a < b < |shown + [key]|
          ensures Below((shown + [key])[a], (shown + [key])[b])
        {
          if b == |shown| {
            assert shown[a] in shown;
          }
        }
        shown := shown + [key];
      }
      assert keys[..i + 1] == keys[..i] + [key];
      forall k, j | k in shown && i + 1 <= j < |keys|
        ensures Below(k, keys[j]) && k != keys[j]
      {
        if k == key {
          assert Below(keys[i], keys[j]) && keys[i] != keys[j];
        }
      }
    }
    assert keys[..|keys|] == keys;
  }

  /** `d` is `sorted(s)`: the members of `s` in order, each once. */
  ghost predicate SortedSetOf(d: seq<string>, s: set<string>)
  {
    Sorted(d) && Distinct(d) && forall m :: m in d <==> m in s
  }

  /** The attributes a `Design` object has: its fields, properties and methods. */
  const DesignAttributes: set<string> := {
    "__init__", "__str__", "__len__", "directory", "cache_path", "notes_path", "rep_path",
    "_models", "_notes", "_representative", "paths", "notes", "representative",
    "representative_path", "get_metric", "get_coord", "defined_metrics",
    "_load_models", "_load_annotations", "_save_notes", "_save_representative"
  }

  datatype HandlerError = AttributeError(name: string)

  /**
   * The "Set as representative" menu handler of show_my_designs as written:
   * it calls a `set_representative` method that `Design` does not have, so
   * every call fails before anything is stored.
   */
  function OnSetRepresentativeAsWritten(index: Option<int>): (r: Result<Option<int>, HandlerError>)
    ensures r == Err(AttributeError("set_representative"))
  {
    if "set_representative" in DesignAttributes then Ok(index)
    else Err(AttributeError("set_representative"))
  }

  /** The axis metrics of an open window and the keys of the selected groups. */
  class ViewState {
    var defined: seq<string>
    var xMetric: string
    var yMetric: string
    var keys: seq<string>

    ghost predicate Valid()
      reads this
    {
      Sorted(defined) && Distinct(defined) && xMetric in defined && yMetric in defined && Distinct(keys)
    }

    constructor (defined: seq<string>, axes: Axes)
      requires Sorted(defined) && Distinct(defined)
      requires axes.x in defined && axes.y in defined
      ensures Valid()
      ensures this.defined == defined && xMetric == axes.x && yMetric == axes.y && keys == []
    {
      this.defined := defined;
      xMetric := axes.x;
      yMetric := axes.y;
      keys := [];
    }

    /**
     * Opens the window state over the groups' defined metrics: their
     * intersection, sorted, with the default axes of show_me_pdbs.
     */
    static method Start(perGroup: seq<set<string>>) returns (r: Option<ViewState>)
      ensures r.Some? ==> fresh(r.value) && r.value.Valid() && r.value.keys == []
      ensures r.Some? ==> perGroup != []
      ensures r.Some? ==> forall m :: m in r.value.defined <==> m in SharedMetrics(perGroup).value
      ensures r.Some? ==> DefaultAxes(r.value.defined) == Some(Axes(r.value.xMetric, r.value.yMetric))
      ensures r.None? ==> perGroup == [] || exists d :: SortedSetOf(d, SharedMetrics(perGroup).value) && DefaultAxes(d).None?
    {
      var shared := SharedMetrics(perGroup);
      if shared.None? {
        return None;
      }
      var defined := SortSet(shared.value);
      var axes := DefaultAxes(defined);
      if axes.None? {
        assert SortedSetOf(defined, shared.value);
        return None;
      }
      var view := new ViewState(defined, axes.value);
      return Some(view);
    }

    /** `cycle_x_metric`: the x axis moves on, skipping the y axis's metric. */
    method CycleX()
      requires Valid()
      modifies this
      ensures defined == old(defined) && yMetric == old(yMetric) && keys == old(keys)
      ensures Valid()
      ensures xMetric == defined[NextIndex(defined, old(xMetric), yMetric)]
      ensures |defined| >= 2 ==> xMetric != yMetric
    {
      xMetric := defined[NextIndex(defined, xMetric, yMetric)];
    }

    /** `cycle_y_metric`: the y axis moves on, skipping the x axis's metric. */
    method CycleY()
      requires Valid()
      modifies this
      ensures defined == old(defined) && xMetric == old(xMetric) && keys == old(keys)
      ensures Valid()
      ensures yMetric == defined[NextIndex(defined, old(yMetric), xMetric)]
      ensures |defined| >= 2 ==> xMetric != yMetric
    {
      yMetric := defined[NextIndex(defined, yMetric, xMetric)];
    }

    /** `on_select_*`: the new key list replaces the old one. */
    method OnSelect(selected: seq<string>)
      requires Valid()
      modifies this
      ensures Valid()
      ensures keys == MergeSelection(old(keys), selected)
      ensures forall k :: k in keys <==> k in selected
      ensures defined == old(defined) && xMetric == old(xMetric) && yMetric == old(yMetric)
    {
      var previous := keys;
      keys := SelectKeys(previous, selected);
      MergeSelectionFacts(previous, selected);
    }
  }
}

/**
 * Metric records and the line-prefix record parser.
 *
 * A record maps column names to cells: the model file's base name under
 * "path" and one number per recognised metric.  The parser offers every
 * line of a model file to every rule of the metric table; a rule whose
 * prefix starts the line stores the line's second whitespace-separated
 * token under the rule's metric name, so the LAST matching line decides.
 * A token that is missing or not a number aborts the parse.
 */
module Records {
  import opened Wrappers
  import opened PyStr
  import opened PyFloat

  datatype Value = Text(s: string) | Number(n: Float)

  type Record = map<string, Value>

  const PathKey: string := "path"
  const TotalScore: string := "total_score"
  const LoopRmsd: string := "loop_rmsd"
  const BuriedUnsats: string := "delta_buried_unsats"

  /** One entry of the metric table: the metric's name and the line prefixes that carry it. */
  datatype MetricRule = MetricRule(name: string, prefixes: seq<string>)

  /** The metric table; `pose` lines are an alias for the total score. */
  const MetricParsers: seq<MetricRule> := [
    MetricRule(TotalScore, ["total_score", "pose"]),
    MetricRule(LoopRmsd, ["loop_backbone_rmsd"]),
    MetricRule(BuriedUnsats, ["delta_buried_unsats"])
  ]

  predicate Matches(rule: MetricRule, line: string)
  {
    exists j :: 0 <= j < |rule.prefixes| && StartsWith(line, rule.prefixes[j])
  }

  predicate DistinctNames(rules: seq<MetricRule>)
  {
    forall i, j :: 0 <= i < j < |rules| ==> rules[i].name != rules[j].name
  }

  /** Why `float(line.split()[1])` failed: no second token (IndexError) or not a number (ValueError). */
  datatype ParseError = MissingValue(line: string) | NotANumber(line: string, token: string)

  /** `float(line.split()[1])` */
  function ExtractValue(line: string): Result<Float, ParseError>
  {
    var tokens := Split(line);
    if |tokens| < 2 then Err(MissingValue(line))
    else match ParseFloat(tokens[1])
      case None => Err(NotANumber(line, tokens[1]))
      case Some(v) => Ok(v)
  }

  /** Offers one line to each rule in table order. */
  function ApplyRules(rec: Record, line: string, rules: seq<MetricRule>): Result<Record, ParseError>
    decreases |rules|
  {
    if rules == [] then Ok(rec)
    else if Matches(rules[0], line) then
      match ExtractValue(line)
      case Err(e) => Err(e)
      case Ok(v) => ApplyRules(rec[rules[0].name := Number(v)], line, rules[1..])
    else ApplyRules(rec, line, rules[1..])
  }

  /** Offers every line, first to last, to the rules. */
  function ApplyLines(rec: Record, lines: seq<string>, rules: seq<MetricRule>): Result<Record, ParseError>
    decreases |lines|
  {
    if lines == [] then Ok(rec)
    else match ApplyLines(rec, lines[..|lines| - 1], rules)
      case Err(e) => Err(e)
      case Ok(r) => ApplyRules(r, lines[|lines| - 1], rules)
  }

  /** The record a model file starts from: only its base name. */
  function NewRecord(name: string): Record
  {
    map[PathKey := Text(name)]
  }

  /** The record parsed from one readable model file. */
  function ParseRecord(name: string, lines: seq<string>): Result<Record, ParseError>
  {
    ApplyLines(NewRecord(name), lines, MetricParsers)
  }

  /** The position of the rule for metric `key`, if the table has one. */
  function RuleIndex(rules: seq<MetricRule>, key: string): (r: Option<nat>)
    ensures r.Some? ==> r.value < |rules| && rules[r.value].name == key
    ensures r.None? ==> forall k :: 0 <= k < |rules| ==> rules[k].name != key
  {
    if rules == [] then None
    else if rules[0].name == key then Some(0)
    else match RuleIndex(rules[1..], key)
      case None => None
      case Some(k) => Some(k + 1)
  }

  lemma RuleIndexAbsent(rules: seq<MetricRule>, key: string)
    requires forall k :: 0 <= k < |rules| ==> rules[k].name != key
    ensures RuleIndex(rules, key) == None
  {
  }

  /** The position of the last line that `rule` matches. */
  function LastMatch(lines: seq<string>, rule: MetricRule): (r: Option<nat>)
    ensures r.Some? ==> r.value < |lines| && Matches(rule, lines[r.value])
    ensures r.Some? ==> forall j :: r.value < j < |lines| ==> !Matches(rule, lines[j])
    ensures r.None? ==> forall j :: 0 <= j < |lines| ==> !Matches(rule, lines[j])
  {
    if lines == [] then None
    else if Matches(rule, lines[|lines| - 1]) then Some(|lines| - 1)
    else LastMatch(lines[..|lines| - 1], rule)
  }

  /** Some rule of the table matches the line. */
  predicate Claimed(rules: seq<MetricRule>, line: string)
    decreases |rules|
  {
    rules != [] && (Matches(rules[0], line) || Claimed(rules[1..], line))
  }

  lemma {:induction false} ClaimedIff(rules: seq<MetricRule>, line: string)
    ensures Claimed(rules, line) <==> exists k :: 0 <= k < |rules| && Matches(rules[k], line)
    decreases |rules|
  {
    if rules != [] {
      ClaimedIff(rules[1..], line);
      if Claimed(rules[1..], line) {
        var k :| 0 <= k < |rules[1..]| && Matches(rules[1..][k], line);
        assert Matches(rules[k + 1], line);
      }
      if !Matches(rules[0], line) && exists k :: 0 <= k < |rules| && Matches(rules[k], line) {
        var k :| 0 <= k < |rules| && Matches(rules[k], line);
        assert Matches(rules[1..][k - 1], line);
      }
    }
  }

  /** A line that some rule claims but whose value cannot be read. */
  predicate BadLine(rules: seq<MetricRule>, line: string)
  {
    Claimed(rules, line) && ExtractValue(line).Err?
  }

  /** One line fails exactly when it is a bad line, with the error of its own value. */
  lemma {:induction false} ApplyRulesOutcome(rec: Record, line: string, rules: seq<MetricRule>)
    ensures ApplyRules(rec, line, rules).Err? <==> BadLine(rules, line)
    ensures ApplyRules(rec, line, rules).Err? ==> ApplyRules(rec, line, rules).error == ExtractValue(line).error
    decreases |rules|
  {
    if rules != [] {
      var next := if Matches(rules[0], line) && ExtractValue(line).Ok?
                  then rec[rules[0].name := Number(ExtractValue(line).value)] else rec;
      ApplyRulesOutcome(next, line, rules[1..]);
    }
  }

  /** What one line does to the cell of metric `key`. */
  lemma {:induction false} ApplyRulesKey(rec: Record, line: string, rules: seq<MetricRule>, key: string)
    requires DistinctNames(rules)
    requires ApplyRules(rec, line, rules).Ok?
    ensures RuleIndex(rules, key).None? ==> Get(ApplyRules(rec, line, rules).value, key) == Get(rec, key)
    ensures RuleIndex(rules, key).Some? && !Matches(rules[RuleIndex(rules, key).value], line) ==>
      Get(ApplyRules(rec, line, rules).value, key) == Get(rec, key)
    ensures RuleIndex(rules, key).Some? && Matches(rules[RuleIndex(rules, key).value], line) ==>
      ExtractValue(line).Ok? && Get(ApplyRules(rec, line, rules).value, key) == Some(Number(ExtractValue(line).value))
    decreases |rules|
  {
    if rules != [] {
      var tail := rules[1..];
      assert DistinctNames(tail);
      var next := if Matches(rules[0], line) then rec[rules[0].name := Number(ExtractValue(line).value)] else rec;
      assert ApplyRules(rec, line, rules) == ApplyRules(next, line, tail);
      ApplyRulesKey(next, line, tail, key);
      if rules[0].name == key {
        forall k | 0 <= k < |tail| ensures tail[k].name != key {
          assert tail[k] == rules[k + 1];
        }
        RuleIndexAbsent(tail, key);
      } else {
        match RuleIndex(tail, key)
        case None =>
          assert RuleIndex(rules, key) == None;
        case Some(k) =>
          assert RuleIndex(rules, key) == Some(k + 1);
          assert tail[k] == rules[k + 1];
      }
    }
  }

  /** Once a prefix of the lines fails, the whole parse fails with that error. */
  lemma {:induction false} ErrorPersists(rec: Record, lines: seq<string>, rules: seq<MetricRule>, n: nat)
    requires n <= |lines|
    requires ApplyLines(rec, lines[..n], rules).Err?
    ensures ApplyLines(rec, lines, rules) == ApplyLines(rec, lines[..n], rules)
    decreases |lines| - n
  {
    if n < |lines| {
      assert lines[..|lines| - 1][..n] == lines[..n];
      ErrorPersists(rec, lines[..|lines| - 1], rules, n);
    } else {
      assert lines[..n] == lines;
    }
  }

  /** Some line of `lines` is a bad line. */
  predicate AnyBadLine(rules: seq<MetricRule>, lines: seq<string>)
  {
    lines != [] && (AnyBadLine(rules, lines[..|lines| - 1]) || BadLine(rules, lines[|lines| - 1]))
  }

  lemma AnyBadLineIff(rules: seq<MetricRule>, lines: seq<string>)
    ensures AnyBadLine(rules, lines) <==> exists i :: 0 <= i < |lines| && BadLine(rules, lines[i])
  {
    if AnyBadLine(rules, lines) {
      var i := BadLineWitness(rules, lines);
    } else {
      NoBadLine(rules, lines);
    }
  }

  /** The position of a bad line, when there is one. */
  lemma {:induction false} BadLineWitness(rules: seq<MetricRule>, lines: seq<string>) returns (i: nat)
    requires AnyBadLine(rules, lines)
    ensures i < |lines| && BadLine(rules, lines[i])
  {
    var n := |lines| - 1;
    if BadLine(rules, lines[n]) {
      i := n;
    } else {
      var front := lines[..n];
      i := BadLineWitness(rules, front);
      assert front[i] == lines[i];
    }
  }

  lemma {:induction false} NoBadLine(rules: seq<MetricRule>, lines: seq<string>)
    requires !AnyBadLine(rules, lines)
    ensures forall i :: 0 <= i < |lines| ==> !BadLine(rules, lines[i])
  {
    if lines != [] {
      var n := |lines| - 1;
      var front := lines[..n];
      NoBadLine(rules, front);
      assert !BadLine(rules, lines[n]);
      forall i | 0 <= i < n ensures !BadLine(rules, lines[i]) {
        assert front[i] == lines[i];
      }
    }
  }

  lemma {:induction false} ParseFailsAnyBadLine(rec: Record, lines: seq<string>, rules: seq<MetricRule>)
    ensures ApplyLines(rec, lines, rules).Err? <==> AnyBadLine(rules, lines)
  {
    if lines != [] {
      var front := lines[..|lines| - 1];
      ParseFailsAnyBadLine(rec, front, rules);
      if ApplyLines(rec, front, rules).Ok? {
        ApplyRulesOutcome(ApplyLines(rec, front, rules).value, lines[|lines| - 1], rules);
      }
    }
  }

  /** The parse fails exactly when some line is a bad line. */
  lemma ParseFailsIff(rec: Record, lines: seq<string>, rules: seq<MetricRule>)
    ensures ApplyLines(rec, lines, rules).Err? <==> exists i :: 0 <= i < |lines| && BadLine(rules, lines[i])
  {
    ParseFailsAnyBadLine(rec, lines, rules);
    AnyBadLineIff(rules, lines);
  }

  /**
   * Last match wins: after a successful parse, the cell of a metric in the
   * table holds the value of the last line its rule matches, and any other
   * cell (the path among them) is the one the parse started from.
   */
  lemma {:induction false} LastMatchWins(rec: Record, lines: seq<string>, rules: seq<MetricRule>, key: string)
    requires DistinctNames(rules)
    requires ApplyLines(rec, lines, rules).Ok?
    ensures var r := ApplyLines(rec, lines, rules).value;
      match RuleIndex(rules, key)
      case Some(k) =>
        (match LastMatch(lines, rules[k])
         case Some(i) => ExtractValue(lines[i]).Ok? && Get(r, key) == Some(Number(ExtractValue(lines[i]).value))
         case None => Get(r, key) == Get(rec, key))
      case None => Get(r, key) == Get(rec, key)
    decreases |lines|
  {
    if lines != [] {
      var front := lines[..|lines| - 1];
      var last := lines[|lines| - 1];
      LastMatchWins(rec, front, rules, key);
      ApplyRulesKey(ApplyLines(rec, front, rules).value, last, rules, key);
      match RuleIndex(rules, key)
      case None =>
      case Some(k) =>
        if !Matches(rules[k], last) {
          assert LastMatch(lines, rules[k]) == LastMatch(front, rules[k]);
          match LastMatch(front, rules[k])
          case None =>
          case Some(i) => assert lines[i] == front[i];
        }
    }
  }

  lemma MetricParsersFacts()
    ensures DistinctNames(MetricParsers)
    ensures RuleIndex(MetricParsers, TotalScore) == Some(0)
    ensures RuleIndex(MetricParsers, LoopRmsd) == Some(1)
    ensures RuleIndex(MetricParsers, BuriedUnsats) == Some(2)
    ensures RuleIndex(MetricParsers, PathKey) == None
  {
    assert MetricParsers[1..][1..] == [MetricParsers[2]];
    assert RuleIndex(MetricParsers[1..][1..], BuriedUnsats) == Some(0);
  }

  lemma MatchesOnePrefix(rule: MetricRule, line: string)
    requires |rule.prefixes| == 1
    ensures Matches(rule, line) <==> StartsWith(line, rule.prefixes[0])
  {
    if StartsWith(line, rule.prefixes[0]) {
      assert StartsWith(line, rule.prefixes[0]);
    }
  }

  lemma MatchesTwoPrefixes(rule: MetricRule, line: string)
    requires |rule.prefixes| == 2
    ensures Matches(rule, line) <==> StartsWith(line, rule.prefixes[0]) || StartsWith(line, rule.prefixes[1])
  {
    if StartsWith(line, rule.prefixes[0]) {
      assert StartsWith(line, rule.prefixes[0]);
    }
    if StartsWith(line, rule.prefixes[1]) {
      assert StartsWith(line, rule.prefixes[1]);
    }
  }

  /** Which lines each rule of the metric table claims. */
  lemma MetricParsersMatch(line: string)
    ensures Matches(MetricParsers[0], line) <==> StartsWith(line, "total_score") || StartsWith(line, "pose")
    ensures Matches(MetricParsers[1], line) <==> StartsWith(line, "loop_backbone_rmsd")
    ensures Matches(MetricParsers[2], line) <==> StartsWith(line, "delta_buried_unsats")
  {
    MatchesTwoPrefixes(MetricParsers[0], line);
    MatchesOnePrefix(MetricParsers[1], line);
    MatchesOnePrefix(MetricParsers[2], line);
  }

  /**
   * No line is claimed by two rules of the metric table (their prefixes
   * start with different letters), so the order in which the table is
   * walked does not change the record.
   */
  lemma MetricParsersDisjoint(line: string, i: nat, j: nat)
    requires i < j < |MetricParsers|
    ensures !(Matches(MetricParsers[i], line) && Matches(MetricParsers[j], line))
  {
    MetricParsersMatch(line);
    if line != [] {
      assert StartsWith(line, "total_score") ==> line[0] == 't';
      assert StartsWith(line, "pose") ==> line[0] == 'p';
      assert StartsWith(line, "loop_backbone_rmsd") ==> line[0] == 'l';
      assert StartsWith(line, "delta_buried_unsats") ==> line[0] == 'd';
    }
  }

  /** Every parsed record is named after its file. */
  lemma PathIsBaseName(name: string, lines: seq<string>)
    requires ParseRecord(name, lines).Ok?
    ensures Get(ParseRecord(name, lines).value, PathKey) == Some(Text(name))
  {
    MetricParsersFacts();
    LastMatchWins(NewRecord(name), lines, MetricParsers, PathKey);
  }

  /** A metric none of whose prefixes starts a line is absent from the record. */
  lemma UnmatchedMetricAbsent(name: string, lines: seq<string>, k: nat)
    requires k < |MetricParsers|
    requires forall i :: 0 <= i < |lines| ==> !Matches(MetricParsers[k], lines[i])
    requires ParseRecord(name, lines).Ok?
    ensures MetricParsers[k].name !in ParseRecord(name, lines).value
  {
    MetricParsersFacts();
    assert RuleIndex(MetricParsers, MetricParsers[k].name) == Some(k);
    LastMatchWins(NewRecord(name), lines, MetricParsers, MetricParsers[k].name);
  }

  /** A `pose` line sets the total score, unless a later total-score line overrides it. */
  lemma PoseSetsTotalScore(name: string, lines: seq<string>, i: nat)
    requires i < |lines| && StartsWith(lines[i], "pose")
    requires forall j :: i < j < |lines| ==> !Matches(MetricParsers[0], lines[j])
    requires ParseRecord(name, lines).Ok?
    ensures ExtractValue(lines[i]).Ok?
    ensures Get(ParseRecord(name, lines).value, TotalScore) == Some(Number(ExtractValue(lines[i]).value))
  {
    MetricParsersFacts();
    MetricParsersMatch(lines[i]);
    var last := LastMatch(lines, MetricParsers[0]);
    assert last == Some(i);
    LastMatchWins(NewRecord(name), lines, MetricParsers, TotalScore);
  }

  lemma ApplyLinesStep(rec: Record, lines: seq<string>, rules: seq<MetricRule>, i: nat)
    requires i < |lines|
    ensures ApplyLines(rec, lines[..i + 1], rules) ==
      match ApplyLines(rec, lines[..i], rules)
      case Err(e) => Err(e)
      case Ok(r) => ApplyRules(r, lines[i], rules)
  {
    assert lines[..i + 1][..i] == lines[..i];
  }

  /**
   * parse_record_from_pdb of show_my_designs: each line is tested against
   * the three prefixes in turn, and the record is updated in place.
   */
  method ParseRecordFromPdb(record: Record, lines: seq<string>) returns (r: Result<Record, ParseError>)
    ensures r == ApplyLines(record, lines, MetricParsers)
  {
    var current := record;
    for i := 0 to |lines|
      invariant ApplyLines(record, lines[..i], MetricParsers) == Ok(current)
    {
      var line := lines[i];
      ApplyLinesStep(record, lines, MetricParsers, i);
      ThreeRules(current, line);
      var updated := current;
      if StartsWith(line, "total_score") || StartsWith(line, "pose") {
        match ExtractValue(line)
        case Err(e) =>
          ErrorPersists(record, lines, MetricParsers, i + 1);
          return Err(e);
        case Ok(v) =>
          updated := updated[TotalScore := Number(v)];
      }
      if StartsWith(line, "loop_backbone_rmsd") {
        match ExtractValue(line)
        case Err(e) =>
          ErrorPersists(record, lines, MetricParsers, i + 1);
          return Err(e);
        case Ok(v) =>
          updated := updated[LoopRmsd := Number(v)];
      }
      if StartsWith(line, "delta_buried_unsats") {
        match ExtractValue(line)
        case Err(e) =>
          ErrorPersists(record, lines, MetricParsers, i + 1);
          return Err(e);
        case Ok(v) =>
          updated := updated[BuriedUnsats := Number(v)];
      }
      current := updated;
    }
    assert lines[..|lines|] == lines;
    r := Ok(current);
  }

  /** The metric table applied to one line, spelled out rule by rule. */
  lemma ThreeRules(rec: Record, line: string)
    ensures ApplyRules(rec, line, MetricParsers) ==
      var isTotal := StartsWith(line, "total_score") || StartsWith(line, "pose");
      var isLoop := StartsWith(line, "loop_backbone_rmsd");
      var isUnsats := StartsWith(line, "delta_buried_unsats");
      if (isTotal || isLoop || isUnsats) && ExtractValue(line).Err? then Err(ExtractValue(line).error)
      else
        var v := if ExtractValue(line).Ok? then ExtractValue(line).value else NaN;
        var r1 := if isTotal then rec[TotalScore := Number(v)] else rec;
        var r2 := if isLoop then r1[LoopRmsd := Number(v)] else r1;
        Ok(if isUnsats then r2[BuriedUnsats := Number(v)] else r2)
  {
    var rules := MetricParsers;
    MetricParsersMatch(line);
    var tail := rules[1..];
    var last := tail[1..];
    assert tail == [rules[1], rules[2]] && last == [rules[2]] && last[1..] == [];
    var e := ExtractValue(line);
    if e.Ok? {
      var v := e.value;
      var r1 := if Matches(rules[0], line) then rec[TotalScore := Number(v)] else rec;
      var r2 := if Matches(rules[1], line) then r1[LoopRmsd := Number(v)] else r1;
      var r3 := if Matches(rules[2], line) then r2[BuriedUnsats := Number(v)] else r2;
      assert ApplyRules(r2, line, last) == Ok(r3);
      assert ApplyRules(r1, line, tail) == Ok(r3);
    } else if !Matches(rules[0], line) && !Matches(rules[1], line) {
      assert ApplyRules(rec, line, last) == ApplyRules(rec, line, rules);
    } else if !Matches(rules[0], line) {
      assert ApplyRules(rec, line, tail) == ApplyRules(rec, line, rules);
    }
  }

  /**
   * parse_record_from_pdb of show_me_pdbs: the table-driven form, offering
   * each line to every (condition, parser) entry of the table.
   */
  method ParseRecordFromTable(parsers: seq<MetricRule>, record: Record, lines: seq<string>)
    returns (r: Result<Record, ParseError>)
    ensures r == ApplyLines(record, lines, parsers)
  {
    var current := record;
    for i := 0 to |lines|
      invariant ApplyLines(record, lines[..i], parsers) == Ok(current)
    {
      var line := lines[i];
      ApplyLinesStep(record, lines, parsers, i);
      var updated := current;
      for k := 0 to |parsers|
        invariant ApplyRules(current, line, parsers) == ApplyRules(updated, line, parsers[k..])
      {
        var rule := parsers[k];
        assert parsers[k..][1..] == parsers[k + 1..];
        if Matches(rule, line) {
          match ExtractValue(line)
          case Err(e) =>
            ErrorPersists(record, lines, parsers, i + 1);
            return Err(e);
          case Ok(v) =>
            updated := updated[rule.name := Number(v)];
        }
      }
      current := updated;
    }
    assert lines[..|lines|] == lines;
    r := Ok(current);
  }
}

/**
 * What constructing a `grammar` computes (src/representation/grammar.py:13-27):
 * read the lines, run both passes of `check_depths`, annotate the rules,
 * patch the permutation memo over the ramp of depths and list the
 * crossover non-terminals. `Loaded` is the specification the class in
 * module Engine meets; the lemmas here state what a loaded grammar
 * satisfies.
 */
module Loading {
  import opened Common
  import opened Text
  import opened Symbols
  import opened Parser
  import opened Depths
  import opened Permutations
  import opened Mapper

  /** Why constructing a grammar fails. */
  datatype LoadError =
    | ParseFailed(error: ParseError)   // a `ValueError` from `read_bnf_file`
    | UndefinedNonTerminal             // a `KeyError` in `check_depths`: a production names a non-terminal with no rule
    | NoStartRule                      // a `TypeError` at line 162: no rule was read, `start_rule` is `None`

  /** The `ramps` default of `check_permutations` (line 180). */
  const Ramps: int := 5

  /** What a constructed grammar holds. The records' `permutations: None` entry is constant and left out. */
  datatype Analysis = Analysis(rules: Rules, order: seq<string>, info: Infos, terminals: seq<string>, start: string,
                               minPath: int, maxArity: int, permutations: map<int, int>, crossoverNTs: seq<string>)

  /** `file_name.endswith(suffix)`. */
  predicate EndsWith(s: string, suffix: string)
  {
    |suffix| <= |s| && s[|s| - |suffix|..] == suffix
  }

  /** `crossover_NTs` over the first `k` keys: those whose `b_factor` exceeds 1, in key order. */
  function CrossoverNTs(info: Infos, order: seq<string>, k: nat): seq<string>
    requires k <= |order| && forall i :: 0 <= i < |order| ==> order[i] in info
  {
    if k == 0 then []
    else CrossoverNTs(info, order, k - 1) + (if info[order[k - 1]].bFactor > 1 then [order[k - 1]] else [])
  }

  /** A key is listed exactly when it is among the first `k` and its `b_factor` exceeds 1. */
  lemma {:induction false} CrossoverNTsIn(info: Infos, order: seq<string>, k: nat)
    requires k <= |order| && forall i :: 0 <= i < |order| ==> order[i] in info
    ensures forall x :: x in CrossoverNTs(info, order, k) <==> x in order[..k] && info[x].bFactor > 1
  {
    if k > 0 {
      CrossoverNTsIn(info, order, k - 1);
      assert order[..k] == order[..k - 1] + [order[k - 1]];
    }
  }

  lemma CrossoverNTsAll(info: Infos, order: seq<string>)
    requires forall i :: 0 <= i < |order| ==> order[i] in info
    ensures forall x :: x in CrossoverNTs(info, order, |order|) <==> x in order && info[x].bFactor > 1
  {
    CrossoverNTsIn(info, order, |order|);
    assert order[..|order|] == order;
  }

  // ---------------------------------------------------------- the shape

  /** Two rule tables with the same keys, alternatives and symbols up to the annotations. */
  ghost predicate SameShape(r1: Rules, r2: Rules)
  {
    r1.Keys == r2.Keys
    && forall n :: n in r1 ==>
         |r1[n]| == |r2[n]|
         && forall a :: 0 <= a < |r1[n]| ==>
              |r1[n][a]| == |r2[n][a]|
              && forall i :: 0 <= i < |r1[n][a]| ==>
                   r1[n][a][i].NT? == r2[n][a][i].NT? && Label(r1[n][a][i]) == Label(r2[n][a][i])
  }

  lemma AnnotateShape(rules: Rules, info: Infos)
    requires Fits(rules, info)
    ensures SameShape(Annotate(rules, info), rules) && SameShape(rules, Annotate(rules, info))
  {
    AnnotateEffect(rules, info);
  }

  /** Derivability depends on the shape only. */
  lemma {:induction false} DerivesSameShape(r1: Rules, r2: Rules, x: string, k: nat)
    requires SameShape(r1, r2) && Derives(r1, x, k)
    ensures Derives(r2, x, k)
    decreases k
  {
    var a :| 0 <= a < |r1[x]| && AltDerives(r1, r1[x][a], k - 1);
    var p, q := r1[x][a], r2[x][a];
    forall i | 0 <= i < |q| && q[i].NT? ensures Derives(r2, q[i].name, k - 1) {
      assert p[i].NT? && Label(p[i]) == Label(q[i]);
      DerivesSameShape(r1, r2, p[i].name, k - 1);
    }
    assert AltDerives(r2, r2[x][a], k - 1);
  }

  /** The single-terminal test agrees with terminal-only on tables of the same shape. */
  lemma ShapedSameShape(r1: Rules, r2: Rules, terminals: seq<string>)
    requires SameShape(r1, r2) && ShapedTerminals(r1, terminals)
    ensures ShapedTerminals(r2, terminals)
  {
    forall x, a | x in r2 && 0 <= a < |r2[x]| ensures SingleTerminal(r2[x][a], terminals) <==> TerminalOnly(r2[x][a]) {
      assert SingleTerminal(r1[x][a], terminals) <==> TerminalOnly(r1[x][a]);
      assert TerminalOnly(r1[x][a]) <==> TerminalOnly(r2[x][a]) by {
        assert forall i :: 0 <= i < |r1[x][a]| ==> (r1[x][a][i].T? <==> r2[x][a][i].T?);
      }
    }
  }

  /** A read table's single-terminal alternatives are its terminal-only ones, since no terminal names a non-terminal. */
  lemma WellReadShaped(t: Tables)
    requires WellRead(t)
    ensures ShapedTerminals(t.rules, t.terminals) && Mappable(t.rules) == Closed(t.rules)
  {
    forall x, a | x in t.rules && 0 <= a < |t.rules[x]| ensures SingleTerminal(t.rules[x][a], t.terminals) <==> TerminalOnly(t.rules[x][a]) {
      var p := t.rules[x][a];
      assert ReadProduction(p, t.terminals);
    }
  }

  // ------------------------------------------------------ the construction

  /** Tables whose records, keys and start agree: what the analysis needs to be defined. */
  ghost predicate Indexed(t: Tables)
  {
    t.rules.Keys == t.info.Keys && Covers(t.order, t.info) && Distinct(t.order)
    && (t.start.Some? ==> t.start.value in t.info)
  }

  /** Every rule has an alternative, and a single terminal is exactly a terminal-only alternative. */
  ghost predicate Shaped(t: Tables)
  {
    ShapedTerminals(t.rules, t.terminals) && forall n :: n in t.rules ==> |t.rules[n]| >= 1
  }

  /** Read tables are indexed and shaped. */
  lemma WellReadIndexed(t: Tables)
    requires WellRead(t)
    ensures Indexed(t) && Shaped(t)
  {
    WellReadShaped(t);
    if t.start.Some? {
      assert t.order[0] in t.order;
    }
  }

  /**
   * `check_depths` then `check_permutations` on read tables: a missing rule
   * raises first, then a missing start rule; otherwise the records after
   * both passes, the start's `min_steps`, the largest `min_steps`, the
   * annotated rules, the patched memo and the crossover non-terminals.
   */
  ghost function Analyse(t: Tables): Result<Analysis, LoadError>
    requires Indexed(t)
  {
    if !Closed(t.rules) then Err(UndefinedNonTerminal)
    else if t.start.None? then Err(NoStartRule)
    else
      var start := t.start.value;
      var info := Records(t);
      var rules := Annotate(t.rules, info);
      var minPath := info[start].minSteps;
      var maxArity := MaxArity(info, t.order, |t.order|);
      Ok(Completed(rules, t.order, info, t.terminals, start, minPath, maxArity))
  }

  /**
   * The grammar once `check_depths` is done: the memo `check_permutations`
   * patches from empty over its default ramp, and the crossover
   * non-terminals.
   */
  function Completed(rules: Rules, order: seq<string>, info: Infos, terminals: seq<string>, start: string,
                     minPath: int, maxArity: int): Analysis
    requires Closed(rules) && start in rules && forall i :: 0 <= i < |order| ==> order[i] in info
  {
    Analysis(rules, order, info, terminals, start, minPath, maxArity,
             Patch(rules, terminals, start, map[], minPath, RampCount(maxArity, minPath, Ramps)),
             CrossoverNTs(info, order, |order|))
  }

  /** The records after `check_depths`' two passes over the read records. */
  ghost function Records(t: Tables): (r: Infos)
    requires Indexed(t) && Closed(t.rules)
    ensures r.Keys == t.info.Keys
  {
    Pass2(t.rules, Pass1(t.rules, t.info, t.order), t.order)
  }

  /** The grammar the lines describe, or why it cannot be built. */
  ghost function Loaded(lines: seq<string>): Result<Analysis, LoadError>
  {
    match ParseFrom(NoTables, lines)
    case Err(e) => Err(ParseFailed(e))
    case Ok(t) => ParseFromValue(NoTables, lines); WellReadIndexed(t); Analyse(t)
  }

  // ------------------------------------------------------------ the lemmas

  /**
   * Construction fails to read exactly when a line is bad or a left-hand
   * side repeats; once read, it fails with a missing rule exactly when a
   * production names an undefined non-terminal, and for want of a start rule
   * exactly when the lines hold no rule at all.
   */
  lemma LoadedErrors(lines: seq<string>)
    ensures Loaded(lines).Err? && Loaded(lines).error.ParseFailed? <==>
              (exists k :: 0 <= k < |lines| && ReadLine(lines[k]).Bad?) || !Distinct(Lhss(RuleLines(lines)))
    ensures ParseFrom(NoTables, lines).Ok? ==>
              (Loaded(lines) == Err(UndefinedNonTerminal) <==> !Closed(ParseFrom(NoTables, lines).value.rules))
              && (Loaded(lines) == Err(NoStartRule) <==>
                    Closed(ParseFrom(NoTables, lines).value.rules) && RuleLines(lines) == [])
  {
    ParseFromOk(NoTables, lines);
    assert NoTables.order + Lhss(RuleLines(lines)) == Lhss(RuleLines(lines));
    if ParseFrom(NoTables, lines).Ok? {
      StartIsFirstRule(lines);
    }
  }

  /**
   * Tables read from the lines are well formed, start at the first
   * left-hand side (none without a rule), keep the left-hand sides in order
   * and list every rule's terminals in order.
   */
  lemma ReadTables(lines: seq<string>)
    requires ParseFrom(NoTables, lines).Ok?
    ensures var t := ParseFrom(NoTables, lines).value;
            && WellRead(t)
            && t.start == (if RuleLines(lines) == [] then None else Some(RuleLines(lines)[0].0))
            && t.order == Lhss(RuleLines(lines)) && t.terminals == RuleTerms(RuleLines(lines))
  {
    ParseFromValue(NoTables, lines);
    StartIsFirstRule(lines);
    assert NoTables.order + Lhss(RuleLines(lines)) == Lhss(RuleLines(lines));
    assert NoTables.terminals + RuleTerms(RuleLines(lines)) == RuleTerms(RuleLines(lines));
  }

  /** The outcome of construction once reading has failed. */
  lemma LoadedParseError(lines: seq<string>)
    requires ParseFrom(NoTables, lines).Err?
    ensures Loaded(lines) == Err(ParseFailed(ParseFrom(NoTables, lines).error))
  {
  }

  /** The outcome of construction once reading has succeeded: the analysis of the tables read. */
  lemma LoadedAnalysis(lines: seq<string>)
    requires ParseFrom(NoTables, lines).Ok?
    ensures Indexed(ParseFrom(NoTables, lines).value) && Shaped(ParseFrom(NoTables, lines).value)
    ensures Loaded(lines) == Analyse(ParseFrom(NoTables, lines).value)
  {
    ParseFromValue(NoTables, lines);
    WellReadIndexed(ParseFrom(NoTables, lines).value);
  }

  /** The two ways the analysis of read tables fails: a missing rule first, then a missing start rule. */
  lemma AnalyseErrors(t: Tables)
    requires Indexed(t)
    ensures !Closed(t.rules) ==> Analyse(t) == Err(UndefinedNonTerminal)
    ensures Closed(t.rules) && t.start.None? ==> Analyse(t) == Err(NoStartRule)
  {
  }

  /** What the counter and the mapper need: shaped rules whose keys are the key order, records for the keys, and a start rule. */
  ghost predicate Prepared(rules: Rules, order: seq<string>, info: Infos, terminals: seq<string>, start: string)
  {
    && start in rules && Mappable(rules) && ShapedTerminals(rules, terminals)
    && (forall x :: x in rules <==> x in order)
    && forall i :: 0 <= i < |order| ==> order[i] in info
  }

  /**
   * What `check_depths` leaves on closed read tables `t` with a start rule:
   * the records after both passes, the rules annotated with them,
   * `min_path` and `max_arity`.
   */
  ghost predicate DepthsDone(t: Tables, info: Infos, rules: Rules, minPath: int, maxArity: int) {
    && Indexed(t) && Shaped(t) && Closed(t.rules) && t.start.Some?
    && info == Pass2(t.rules, Pass1(t.rules, t.info, t.order), t.order) && rules == Annotate(t.rules, info)
    && minPath == info[t.start.value].minSteps && maxArity == MaxArity(info, t.order, |t.order|)
  }

  lemma AnalyseOk(t: Tables, info: Infos, rules: Rules, minPath: int, maxArity: int)
    requires DepthsDone(t, info, rules, minPath, maxArity)
    ensures Prepared(rules, t.order, info, t.terminals, t.start.value)
    ensures Analyse(t) == Ok(Completed(rules, t.order, info, t.terminals, t.start.value, minPath, maxArity))
  {
    AnnotatedReady(t, info);
  }

  /**
   * The annotated rules of read tables keep their keys and are ready for
   * mapping and counting: every reference defined, every rule non-empty, and
   * a single terminal exactly a terminal-only alternative.
   */
  lemma AnnotatedReady(t: Tables, info: Infos)
    requires Indexed(t) && Shaped(t) && Closed(t.rules) && info.Keys == t.info.Keys
    ensures var rules := Annotate(t.rules, info);
            rules.Keys == t.rules.Keys && Mappable(rules) && ShapedTerminals(rules, t.terminals)
  {
    var rules := Annotate(t.rules, info);
    AnnotateShape(t.rules, info);
    ShapedSameShape(t.rules, rules, t.terminals);
  }

  /**
   * The records after both passes: every non-terminal with a complete tree
   * of at most as many levels as there are rules is expanded, every
   * expanded one has a tree as deep as its `min_steps` and an unexpanded
   * one keeps the sentinel, one marked non-recursive never reaches itself,
   * and `b_factor` is the number of alternatives. `RecordsExact` sharpens
   * the first and fourth of these to exact characterisations.
   */
  lemma RecordsFacts(t: Tables)
    requires WellRead(t) && Closed(t.rules)
    ensures var info := Records(t);
            && Complete1(t.rules, info, |t.order|)
            && (forall x :: x in info && info[x].expanded ==> info[x].minSteps >= 1 && Derives(t.rules, x, info[x].minSteps))
            && (forall x :: x in info && !info[x].expanded ==> info[x].minSteps == Unresolved)
            && (forall x :: x in info && !info[x].recursive ==> forall n :: !Reaches(t.rules, x, x, n))
            && (forall x :: x in info ==> info[x].bFactor == |t.rules[x]|)
  {
    var info1 := Pass1(t.rules, t.info, t.order);
    Pass1Correct(t.rules, t.info, t.order);
    if t.order != [] {
      Pass1BFactorAndTerminals(t.rules, t.info, t.order);
    }
    Pass2Correct(t.rules, info1, t.order);
    forall x | x in info1 ensures RecordSound(t.rules, x, Records(t)[x]) {
      assert RecordSound(t.rules, x, info1[x]);
    }
  }

  /**
   * The records after both passes, exactly: a non-terminal is expanded
   * exactly when some derivation of it completes, whatever its depth, and
   * marked non-recursive exactly when no cycle can be reached from it.
   */
  lemma RecordsExact(t: Tables)
    requires WellRead(t) && Closed(t.rules)
    ensures var info := Records(t);
            && (forall x :: x in info ==> (info[x].expanded <==> Derivable(t.rules, x)))
            && (forall x :: x in info ==> (!info[x].recursive <==> !CycleReachable(t.rules, x)))
  {
    var info1 := Pass1(t.rules, t.info, t.order);
    Pass1Correct(t.rules, t.info, t.order);
    Pass1Exact(t.rules, t.info, t.order);
    Pass2Correct(t.rules, info1, t.order);
    Pass2Exact(t.rules, info1, t.order);
  }

  /**
   * The start's `min_path`: when the start is expanded it is at least 1 and
   * a tree of that depth exists, so the count of trees there is positive.
   * It never exceeds `max_arity`, which bounds every record's `min_steps`.
   */
  lemma MinPathFacts(t: Tables)
    requires WellRead(t) && Closed(t.rules) && t.start.Some?
    ensures var info := Records(t);
            var rules := Annotate(t.rules, info);
            var start := t.start.value;
            var maxArity := MaxArity(info, t.order, |t.order|);
            && start in rules
            && (info[start].expanded ==>
                  info[start].minSteps >= 1 && GrammarCount(rules, t.terminals, start, info[start].minSteps) > 0)
            && 0 <= maxArity && info[start].minSteps <= maxArity
            && forall x :: x in info ==> info[x].minSteps <= maxArity
  {
    var info := Records(t);
    var rules := Annotate(t.rules, info);
    var start := t.start.value;
    RecordsFacts(t);
    MaxArityAll(info, t.order);
    if info[start].expanded {
      WellReadIndexed(t);
      AnnotatedReady(t, info);
      AnnotateShape(t.rules, info);
      DerivesSameShape(t.rules, rules, start, info[start].minSteps);
      GrammarCountPositive(rules, t.terminals, start, info[start].minSteps);
    }
  }

  /** `max_arity` over all keys: at least 0 and at least every record's `min_steps`. */
  lemma MaxArityAll(info: Infos, order: seq<string>)
    requires forall x :: x in info <==> x in order
    ensures MaxArity(info, order, |order|) >= 0
    ensures forall x :: x in info ==> info[x].minSteps <= MaxArity(info, order, |order|)
  {
    MaxArityBounds(info, order, |order|);
    forall x | x in info ensures info[x].minSteps <= MaxArity(info, order, |order|) {
      var i :| 0 <= i < |order| && order[i] == x;
    }
  }

  /**
   * The memo `check_permutations` leaves from an empty one: exactly the ramp
   * of `n` depths from `min_path`, the first holding every tree up to it and
   * each later one the trees of exactly that depth, never a negative number.
   */
  lemma PatchFacts(rules: Rules, terminals: seq<string>, start: string, minPath: int, n: nat)
    requires Closed(rules) && ShapedTerminals(rules, terminals) && start in rules
    ensures var m := Patch(rules, terminals, start, map[], minPath, n);
            && (forall d :: d in m <==> minPath <= d < minPath + n)
            && (forall d :: d in m ==> m[d] >= 0)
            && (n > 0 ==> m[minPath] == GrammarCount(rules, terminals, start, minPath))
            && forall d :: d in m && d > minPath ==>
                 m[d] == GrammarCount(rules, terminals, start, d) - GrammarCount(rules, terminals, start, d - 1)
  {
    var m := Patch(rules, terminals, start, map[], minPath, n);
    PatchAt(rules, terminals, start, map[], minPath, n);
    forall d | d in m
      ensures m[d] >= 0
      ensures d > minPath ==> m[d] == GrammarCount(rules, terminals, start, d) - GrammarCount(rules, terminals, start, d - 1)
    {
      var i := d - minPath;
      assert m[minPath + i] == Exact(rules, terminals, start, map[], minPath, i);
      ExactsFromEmpty(rules, terminals, start, minPath, i);
    }
    if n > 0 {
      assert m[minPath + 0] == Exact(rules, terminals, start, map[], minPath, 0);
    }
  }
}

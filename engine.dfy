/**
 * The class `grammar` (src/representation/grammar.py:8-316) with the state
 * its methods update in place: the reader's line loop, `check_depths`'
 * nested sweeps and annotation, the memoised permutation counter and its
 * ramp patch, and the mapper's loop. Each method is proved to leave exactly
 * the state the specification functions of the other modules describe;
 * `Load` runs them in the constructor's order and meets `Loaded`.
 */
module Engine {
  import opened Common
  import opened Text
  import opened Symbols
  import opened Parser
  import opened Depths
  import opened Permutations
  import opened Mapper
  import opened Loading
  import opened Reading
  import opened Visits
  import opened Counting
  import opened Generating

  /** The fatal error of `check_all_permutations` (lines 210-214): a depth below `min_path`. */
  datatype CountError = BelowMinPath(depth: int)

  class Grammar {
    var pythonMode: bool
    var rules: Rules
    /** The keys of `non_terminals`, in insertion order. */
    var order: seq<string>
    /** `non_terminals`. */
    var info: Infos
    var terminals: seq<string>
    /** `start_rule[0]`, `None` before any rule is read. */
    var start: Option<string>
    var minPath: int
    var maxArity: int
    var permutations: map<int, int>
    var crossoverNTs: seq<string>

    /** The reader's part of the state. */
    function Read(): Tables
      reads this
    {
      Tables(rules, order, info, terminals, start)
    }

    /** The state is ready for the counter and the mapper. */
    ghost predicate Counted()
      reads this
    {
      start.Some? && Prepared(rules, order, info, terminals, start.value)
    }

    /** The state holds the analysis `a`. */
    ghost predicate Holds(a: Analysis)
      reads this
    {
      && rules == a.rules && order == a.order && info == a.info && terminals == a.terminals
      && start == Some(a.start) && minPath == a.minPath && maxArity == a.maxArity
      && permutations == a.permutations && crossoverNTs == a.crossoverNTs
    }

    /** The state before `read_bnf_file` (lines 14-21): nothing read, an empty memo. */
    constructor (pythonMode: bool)
      ensures this.pythonMode == pythonMode && Read() == NoTables
      ensures permutations == map[] && crossoverNTs == []
    {
      this.pythonMode := pythonMode;
      rules, order, info, terminals, start := map[], [], map[], [], None;
      minPath, maxArity := 0, 0;
      permutations, crossoverNTs := map[], [];
    }

    // ------------------------------------------------------- read_bnf_file

    /**
     * `read_bnf_file` over the grammar's lines (lines 29-76): each line read
     * into the tables in turn; the first bad line or repeated left-hand side
     * stops the reading with its error.
     */
    method ReadBnfFile(lines: seq<string>) returns (err: Option<ParseError>)
      modifies this`rules, this`order, this`info, this`terminals, this`start
      ensures err.None? <==> ParseFrom(old(Read()), lines).Ok?
      ensures err.None? ==> Read() == ParseFrom(old(Read()), lines).value
      ensures err.Some? ==> err.value == ParseFrom(old(Read()), lines).error
    {
      var k := 0;
      while k < |lines|
        invariant 0 <= k <= |lines|
        invariant ParseFrom(old(Read()), lines) == ParseFrom(Read(), lines[k..])
      {
        assert lines[k..][1..] == lines[k + 1..];
        match ReadLine(lines[k]) {
          case Skip =>
          case Bad(e) =>
            return Some(e);
          case Rule(lhs, productions) =>
            var e := AddRuleLine(lhs, productions);
            if e.Some? {
              return e;
            }
        }
        k := k + 1;
      }
      err := None;
    }

    /**
     * One rule line (lines 45-74): a fresh record for `lhs`, the start rule
     * if none is set, the alternatives read and their terminals appended,
     * and a repeated left-hand side raised only then.
     */
    method AddRuleLine(lhs: string, productions: string) returns (err: Option<ParseError>)
      modifies this`rules, this`order, this`info, this`terminals, this`start
      ensures err.None? <==> AddRule(old(Read()), lhs, productions).Ok?
      ensures err.None? ==> Read() == AddRule(old(Read()), lhs, productions).value
      ensures err.Some? ==> err.value == AddRule(old(Read()), lhs, productions).error
    {
      var isNew := lhs !in info;
      info := info[lhs := FreshInfo(lhs)];
      if isNew {
        order := order + [lhs];
      }
      if start.None? {
        start := Some(lhs);
      }
      var alts, texts := ReadRule(productions);
      terminals := terminals + texts;
      if lhs in rules {
        return Some(DuplicateLhs(lhs));
      }
      rules := rules[lhs := alts];
      err := None;
    }

    // -------------------------------------------------------- check_depths

    /**
     * `check_depths` (lines 78-178) on read tables whose references are all
     * defined: both passes, then, with a start rule, `min_path`, the largest
     * `min_steps` as `max_arity`, and the two annotation loops. Without a
     * start rule the lookup at line 162 fails once the passes are done.
     */
    method CheckDepths(ghost t: Tables) returns (err: Option<LoadError>, ghost done: Analysis)
      requires t == Read() && Indexed(t) && Shaped(t) && Closed(t.rules) && permutations == map[]
      modifies this`info, this`rules, this`minPath, this`maxArity
      ensures err.Some? <==> t.start.None?
      ensures err.Some? ==> err.value == NoStartRule
      // Stated of every analysis equal to `done`, so that the large definition
      // of `DepthsState` is only expanded where a caller asks for it.
      ensures err.None? ==> Holds(done) && forall a :: a == done ==> DepthsState(t, a)
    {
      var d;
      err, d := Depths(t, rules, info, order, terminals, start, crossoverNTs);
      info := d.info;
      if err.None? {
        rules, minPath, maxArity := d.rules, d.minPath, d.maxArity;
      }
      done := d;
    }

    /**
     * `check_depths` on the values of the tables it reads: both passes
     * over the records, then, with a start rule, the end of the method.
     * The analysis returned holds the tables as they are then.
     */
    static method Depths(ghost t: Tables, rules: Rules, info: Infos, order: seq<string>, terminals: seq<string>,
                         start: Option<string>, crossoverNTs: seq<string>)
      returns (err: Option<LoadError>, d: Analysis)
      requires Indexed(t) && Shaped(t) && Closed(t.rules)
      requires rules == t.rules && info == t.info && order == t.order && terminals == t.terminals && start == t.start
      ensures err.Some? <==> start.None?
      ensures err.Some? ==> err.value == NoStartRule
      ensures d.order == order && d.terminals == terminals && d.permutations == map[] && d.crossoverNTs == crossoverNTs
      ensures err.None? ==> Some(d.start) == start && forall a :: a == d ==> DepthsState(t, a)
    {
      var records := DepthPass(rules, info, order);
      records := RecursionPass(rules, records, order);
      if start.None? {
        return Some(NoStartRule), Analysis(rules, order, records, terminals, "", 0, 0, map[], crossoverNTs);
      }
      var annotated, steps, arity := PostPass(t, rules, records, order, start.value);
      d := Analysis(annotated, order, records, terminals, start.value, steps, arity, map[], crossoverNTs);
      err := None;
    }

    /**
     * The end of `check_depths` (lines 162-178) on the records of both
     * passes: `min_path` is the start's `min_steps`, `max_arity` the
     * largest `min_steps`, and every non-terminal occurrence gets its
     * record's `min_steps`, then its `recursive` flag.
     */
    static method PostPass(ghost t: Tables, rules: Rules, info: Infos, order: seq<string>, start: string)
      returns (annotated: Rules, steps: int, arity: int)
      requires Indexed(t) && Shaped(t) && Closed(t.rules) && t.start == Some(start)
      requires rules == t.rules && order == t.order && info == Pass2(rules, Pass1(rules, t.info, order), order)
      ensures DepthsDone(t, info, annotated, steps, arity)
    {
      steps := info[start].minSteps;
      arity := LargestSteps(info, order);
      annotated := NoteAll(rules, info, order, StepsNote);
      annotated := NoteAll(annotated, info, order, RecNote);
    }

    // ------------------------------------------------ the permutation count

    /**
     * `check_all_permutations(depth)` (lines 203-256): a depth below
     * `min_path` is fatal; a memoised depth returns its entry; otherwise the
     * table is filled up to `depth`, the start rule's alternatives summed,
     * and the sum stored in the memo and returned.
     */
    method CheckAllPermutations(depth: int) returns (r: Result<int, CountError>)
      requires Counted()
      modifies this`permutations
      ensures depth < minPath ==> r == Err(BelowMinPath(depth)) && permutations == old(permutations)
      ensures depth >= minPath ==>
                r == Ok(Cumulative(rules, terminals, start.value, old(permutations), depth))
                && permutations == old(permutations)[depth := r.value]
    {
      if depth < minPath {
        return Err(BelowMinPath(depth));
      }
      if depth in permutations {
        assert permutations[depth := permutations[depth]] == permutations;
        return Ok(permutations[depth]);
      }
      var productions := CollectProductions(rules, order);
      var depthPerSymbolTrees := FillTable(rules, terminals, productions, depth);
      var pos := StartSum(rules, terminals, depthPerSymbolTrees, start.value, depth);
      permutations := permutations[depth := pos];
      r := Ok(pos);
    }

    /**
     * One depth of `check_permutations`' loop (lines 189-194 and 196-201): the
     * cumulative count at `min_path + i` is appended and, past the first,
     * it and its memo entry lose the sum of the `i` entries before it.
     */
    method RampStep(i: nat, permsList: seq<int>, ghost memo: map<int, int>) returns (next: seq<int>)
      requires Counted()
      requires permsList == Exacts(rules, terminals, start.value, memo, minPath, i)
      requires permutations == memo + Patch(rules, terminals, start.value, memo, minPath, i)
      modifies this`permutations
      ensures next == Exacts(rules, terminals, start.value, memo, minPath, i + 1)
      ensures permutations == memo + Patch(rules, terminals, start.value, memo, minPath, i + 1)
    {
      ghost var now, rs, ts, st, mp := permutations, rules, terminals, start.value, minPath;
      var depth := i + minPath;
      var x := CheckAllPermutations(depth);
      next := permsList + [x.value];
      var total := 0;
      if i > 0 {
        assert next[..i] == permsList;
        total := Sum(next[..i]);
        next := next[i := next[i] - total];
        ghost var stored := permutations;
        assert stored == now[depth := x.value];
        permutations := permutations[depth := permutations[depth] - total];
        assert permutations == stored[depth := x.value - total];
      }
      assert rules == rs && terminals == ts && start.value == st && minPath == mp;
      RampAdvance(rs, ts, st, memo, mp, i, permsList, now, x.value, total, next, permutations);
    }

    /**
     * `check_permutations(ramps)` (lines 180-201): for each depth of the
     * ramp from `min_path`, the cumulative count is looked up or computed,
     * then both its `perms_list` entry and its memo entry have the sum of
     * the shallower entries taken off, leaving the exact count there.
     */
    method CheckPermutations(ramps: int)
      requires Counted()
      modifies this`permutations
      ensures permutations == old(permutations)
                + Patch(rules, terminals, start.value, old(permutations), minPath, RampCount(maxArity, minPath, ramps))
    {
      var n := RampCount(maxArity, minPath, ramps);
      ghost var memo, st := permutations, start.value;
      var permsList: seq<int> := [];
      var i := 0;
      while i < n
        invariant 0 <= i <= n
        invariant permsList == Exacts(rules, terminals, st, memo, minPath, i)
        invariant permutations == memo + Patch(rules, terminals, st, memo, minPath, i)
      {
        permsList := RampStep(i, permsList, memo);
        i := i + 1;
      }
    }

    /**
     * What the constructor does after reading (lines 25-27): a reference
     * to an undefined non-terminal raises inside `check_depths`; otherwise
     * `check_depths`, `check_permutations` with its default ramp, and the
     * crossover non-terminals.
     */
    method Analyse(ghost t: Tables) returns (err: Option<LoadError>)
      requires t == Read() && Indexed(t) && Shaped(t) && permutations == map[]
      modifies this`rules, this`info, this`minPath, this`maxArity, this`permutations, this`crossoverNTs
      ensures err.Some? ==> Loading.Analyse(t) == Err(err.value)
      ensures err.None? ==> Loading.Analyse(t).Ok? && Holds(Loading.Analyse(t).value)
    {
      AnalyseErrors(t);
      if !Closed(rules) {
        return Some(UndefinedNonTerminal);
      }
      ghost var done;
      err, done := CheckDepths(t);
      if err.Some? {
        return;
      }
      DepthsComplete(t, done);
      Finish(done);
    }

    /** `check_permutations()` and `crossover_NTs` once `check_depths` has left `done`. */
    method Finish(ghost done: Analysis)
      requires Holds(done) && permutations == map[] && Prepared(done.rules, done.order, done.info, done.terminals, done.start)
      modifies this`permutations, this`crossoverNTs
      ensures Holds(Completed(done.rules, done.order, done.info, done.terminals, done.start, done.minPath, done.maxArity))
    {
      CheckPermutations(Ramps);
      crossoverNTs := CrossoverNTs(info, order, |order|);
      UnionEmpty(Patch(rules, terminals, start.value, map[], minPath, RampCount(maxArity, minPath, Ramps)));
    }

    // ------------------------------------------------------------ generate

    /**
     * `generate(codons, max_wraps)` (lines 262-316) with `MAX_TREE_DEPTH`
     * given: the derivation loop from the start symbol, then the outcome.
     */
    method Generate(codons: seq<int>, maxWraps: int, maxTreeDepth: int, filter: string -> string) returns (o: Outcome)
      requires Mappable(rules) && start.Some? && start.value in rules && |codons| > 0
      ensures o == Mapped(rules, start.value, codons, maxWraps, maxTreeDepth, pythonMode, filter)
    {
      var s := GenerateLoop(rules, codons, maxWraps, maxTreeDepth, start.value);
      if |s.frontier| > 0 {
        return Outcome(Unfinished(s.output), s.nodes, true, s.maxDepth + 1, s.used);
      }
      var text := Concat(s.output);
      if pythonMode {
        text := filter(text);
      }
      o := Outcome(Finished(text), s.nodes, false, s.maxDepth + 1, s.used);
    }
  }

  /**
   * The constructor `grammar(file_name)` (lines 13-27) on the file's lines:
   * Python mode for a `pybnf` file, then reading, `check_depths`,
   * `check_permutations` with its default ramp and the crossover
   * non-terminals. The grammar built is the one `Loaded` describes, and
   * construction fails exactly when `Loaded` does, with the same error.
   */
  method Load(fileName: string, lines: seq<string>) returns (r: Result<Grammar, LoadError>)
    ensures r.Err? ==> Loaded(lines) == Err(r.error)
    ensures r.Ok? ==> fresh(r.value) && r.value.pythonMode == EndsWith(fileName, "pybnf")
                      && Loaded(lines).Ok? && r.value.Holds(Loaded(lines).value)
  {
    var g := new Grammar(EndsWith(fileName, "pybnf"));
    var e := g.ReadBnfFile(lines);
    if e.Some? {
      LoadedParseError(lines);
      return Err(ParseFailed(e.value));
    }
    LoadedAnalysis(lines);
    var err := g.Analyse(g.Read());
    if err.Some? {
      return Err(err.value);
    }
    r := Ok(g);
  }

  /**
   * The analysis `done` is what `check_depths` leaves on the closed tables
   * `t`: the records after both passes, the rules annotated with them,
   * `min_path`, `max_arity`, the rest as read and an empty memo.
   */
  ghost predicate DepthsState(t: Tables, done: Analysis)
  {
    && done.order == t.order && done.terminals == t.terminals && t.start == Some(done.start)
    && done.permutations == map[]
    && DepthsDone(t, done.info, done.rules, done.minPath, done.maxArity)
  }

  /**
   * What `check_depths` leaves on the tables `t` is ready for the counter
   * and the mapper, and completes to the analysis of `t`.
   */
  lemma DepthsComplete(t: Tables, done: Analysis)
    requires DepthsState(t, done)
    ensures Prepared(done.rules, done.order, done.info, done.terminals, done.start)
    ensures Loading.Analyse(t)
            == Ok(Completed(done.rules, done.order, done.info, done.terminals, done.start, done.minPath, done.maxArity))
  {
    AnalyseOk(t, done.info, done.rules, done.minPath, done.maxArity);
  }

  /** Adding entries to an empty memo gives just those entries. */
  lemma UnionEmpty(m: map<int, int>)
    ensures map[] + m == m
  {
  }
}

/**
 * The genotype-to-phenotype mapping (`generate`,
 * src/representation/grammar.py:262-316) as a step function over the
 * mapper's state and its iteration to the loop's exit.
 *
 * The state is the queue of unexpanded symbols with their depths, the
 * terminal texts emitted so far and the counters. Each step pops the
 * leftmost pending symbol: a terminal is emitted, a non-terminal is replaced
 * by the alternative the next codon selects. The sentential form (emitted
 * terminals followed by the pending symbols) therefore evolves by leftmost
 * derivation steps, and a finished run's output is a sentence of the
 * grammar.
 */
module Mapper {
  import opened Common
  import opened Text
  import opened Symbols
  import opened Depths

  /** A pending symbol and its depth in the derivation tree. */
  datatype Item = Item(sym: Symbol, depth: nat)

  /**
   * The loop's variables: `unexpanded_symbols`, `output`, `used_input`,
   * `wraps`, `nodes` and `current_max_depth`.
   */
  datatype State = State(frontier: seq<Item>, output: seq<string>, used: nat, wraps: int, nodes: nat, maxDepth: nat)

  /** The state before the loop: the start symbol at depth 0 pending, one node, no wrap yet. */
  function Initial(start: string): State
  {
    State([Item(NT(start, []), 0)], [], 0, -1, 1, 0)
  }

  /** Every non-terminal has at least one alternative and every reference has a rule. */
  predicate Mappable(rules: Rules)
  {
    Closed(rules) && forall x :: x in rules ==> |rules[x]| >= 1
  }

  /** Every pending non-terminal has a rule, and nothing pending is deeper than one below the deepest expanded. */
  predicate Inv(rules: Rules, s: State)
  {
    forall i :: 0 <= i < |s.frontier| ==>
      (s.frontier[i].sym.NT? ==> s.frontier[i].sym.name in rules) && s.frontier[i].depth <= s.maxDepth + 1
  }

  /** Some pending symbol is a non-terminal. */
  predicate PendingNT(frontier: seq<Item>)
  {
    exists i :: 0 <= i < |frontier| && frontier[i].sym.NT?
  }

  /** The loop condition. */
  predicate Running(s: State, maxWraps: int, maxTreeDepth: int)
  {
    s.wraps < maxWraps && |s.frontier| > 0 && s.maxDepth <= maxTreeDepth
  }

  /** The symbols of an alternative as pending items at depth `d`, in derivation order. */
  function Children(p: Production, d: nat): (r: seq<Item>)
    ensures |r| == |p| && forall k :: 0 <= k < |p| ==> r[k] == Item(p[k], d)
  {
    seq(|p|, k requires 0 <= k < |p| => Item(p[k], d))
  }

  /** The alternative the next codon selects for a non-terminal with alternatives `alts`. */
  function Choose(codons: seq<int>, used: nat, alts: seq<Production>): (c: nat)
    requires |codons| > 0 && |alts| > 0
    ensures c < |alts|
  {
    codons[used % |codons|] % |alts|
  }

  /** One iteration of the loop body. */
  function Step(rules: Rules, codons: seq<int>, s: State): State
    requires Mappable(rules) && Inv(rules, s) && |codons| > 0 && |s.frontier| > 0
  {
    var wraps := if s.used % |codons| == 0 && s.used > 0 && PendingNT(s.frontier) then s.wraps + 1 else s.wraps;
    var item := s.frontier[0];
    var maxDepth := if s.maxDepth < item.depth then item.depth else s.maxDepth;
    if item.sym.T? then
      State(s.frontier[1..], s.output + [item.sym.text], s.used, wraps, s.nodes, maxDepth)
    else
      var alts := rules[item.sym.name];
      var p := alts[Choose(codons, s.used, alts)];
      var kids := CountNTs(p, |p|);
      State(Children(p, item.depth + 1) + s.frontier[1..], s.output,
            if |alts| > 1 then s.used + 1 else s.used, wraps,
            s.nodes + (if kids > 0 then kids else 1), maxDepth)
  }

  // ----------------------------------------------------------- termination

  /** The length of the longest alternative of the first `k` in `alts`. */
  function LongestOf(alts: seq<Production>, k: nat): (r: nat)
    requires k <= |alts|
    ensures forall a :: 0 <= a < k ==> |alts[a]| <= r
  {
    if k == 0 then 0 else Max(LongestOf(alts, k - 1), |alts[k - 1]|)
  }

  /** An upper bound on the length of every alternative of every rule. */
  ghost function Longest(rules: Rules): (r: nat)
    ensures forall x, a :: x in rules && 0 <= a < |rules[x]| ==> |rules[x][a]| <= r
    decreases |rules.Keys|
  {
    if rules == map[] then 0
    else
      var x :| x in rules;
      var rest := rules - {x};
      assert |rest.Keys| < |rules.Keys| by { assert rest.Keys == rules.Keys - {x}; }
      var r := Max(LongestOf(rules[x], |rules[x]|), Longest(rest));
      assert forall y, a :: y in rules && 0 <= a < |rules[y]| ==> |rules[y][a]| <= r by {
        forall y, a | y in rules && 0 <= a < |rules[y]| ensures |rules[y][a]| <= r {
          if y != x {
            assert y in rest && rest[y] == rules[y];
          }
        }
      }
      r
  }

  function Pow(b: nat, e: nat): nat
  {
    if e == 0 then 1 else b * Pow(b, e - 1)
  }

  lemma {:induction false} PowPositive(b: nat, e: nat)
    requires b >= 1
    ensures Pow(b, e) >= 1
  {
    if e > 0 {
      PowPositive(b, e - 1);
      assert b * Pow(b, e - 1) >= Pow(b, e - 1);
    }
  }

  lemma MulStrict(l: nat, b: nat, q: nat)
    requires l < b && q >= 1
    ensures l * q < b * q
    decreases q
  {
    if q > 1 {
      MulStrict(l, b, q - 1);
      assert l * q == l * (q - 1) + l;
      assert b * q == b * (q - 1) + b;
    }
  }

  /** Each pending item at depth `d <= top` weighs `b^(top - d)`. */
  ghost function Weight(f: seq<Item>, top: int, b: nat): nat
  {
    if f == [] then 0
    else (if f[0].depth <= top then Pow(b, top - f[0].depth) else 0) + Weight(f[1..], top, b)
  }

  lemma {:induction false} WeightAppend(f: seq<Item>, g: seq<Item>, top: int, b: nat)
    ensures Weight(f + g, top, b) == Weight(f, top, b) + Weight(g, top, b)
  {
    if f != [] {
      assert f + g != [] && (f + g)[0] == f[0] && (f + g)[1..] == f[1..] + g;
      WeightAppend(f[1..], g, top, b);
      var head := if f[0].depth <= top then Pow(b, top - f[0].depth) else 0;
      assert Weight(f, top, b) == head + Weight(f[1..], top, b);
      assert Weight(f + g, top, b) == head + Weight(f[1..] + g, top, b);
    } else {
      assert f + g == g;
    }
  }

  lemma {:induction false} WeightChildren(p: Production, d: nat, top: int, b: nat)
    requires d <= top
    ensures Weight(Children(p, d), top, b) == |p| * Pow(b, top - d)
  {
    if p != [] {
      assert Children(p, d)[1..] == Children(p[1..], d);
      WeightChildren(p[1..], d, top, b);
    }
  }

  /** The children of an item weigh less than the item, when no alternative is `b` long. */
  lemma ChildrenLighter(p: Production, d: nat, top: int, b: nat)
    requires d < top && |p| < b
    ensures Weight(Children(p, d + 1), top, b) < Pow(b, top - d)
  {
    WeightChildren(p, d + 1, top, b);
    var e := top - d - 1;
    PowPositive(b, e);
    MulStrict(|p|, b, Pow(b, e));
    assert Pow(b, e + 1) == b * Pow(b, e);
  }

  /** Weighing the loop's queue: the popped item, then the rest. */
  lemma WeightPop(f: seq<Item>, top: int, b: nat)
    requires |f| > 0 && f[0].depth <= top && b >= 1
    ensures Weight(f, top, b) == Pow(b, top - f[0].depth) + Weight(f[1..], top, b)
    ensures Pow(b, top - f[0].depth) >= 1
  {
    PowPositive(b, top - f[0].depth);
  }

  /** While the loop runs, each step either pushes the depth past the limit or makes the weight drop. */
  lemma StepDecreases(rules: Rules, codons: seq<int>, s: State, maxWraps: int, maxTreeDepth: int)
    requires Mappable(rules) && Inv(rules, s) && |codons| > 0 && Running(s, maxWraps, maxTreeDepth)
    ensures var b := Longest(rules) + 1;
            Step(rules, codons, s).maxDepth <= maxTreeDepth ==>
              Weight(Step(rules, codons, s).frontier, maxTreeDepth + 1, b) < Weight(s.frontier, maxTreeDepth + 1, b)
  {
    if s.frontier[0].sym.NT? {
      ExpandDecreases(rules, codons, s, maxWraps, maxTreeDepth);
    } else if s.frontier[0].depth <= maxTreeDepth {
      WeightPop(s.frontier, maxTreeDepth + 1, Longest(rules) + 1);
    }
  }

  /** Expanding a non-terminal within the depth limit replaces it with lighter children. */
  lemma ExpandDecreases(rules: Rules, codons: seq<int>, s: State, maxWraps: int, maxTreeDepth: int)
    requires Mappable(rules) && Inv(rules, s) && |codons| > 0 && Running(s, maxWraps, maxTreeDepth)
    requires s.frontier[0].sym.NT?
    ensures var b := Longest(rules) + 1;
            Step(rules, codons, s).maxDepth <= maxTreeDepth ==>
              Weight(Step(rules, codons, s).frontier, maxTreeDepth + 1, b) < Weight(s.frontier, maxTreeDepth + 1, b)
  {
    var b := Longest(rules) + 1;
    var top := maxTreeDepth + 1;
    var item := s.frontier[0];
    var rest := s.frontier[1..];
    var alts := rules[item.sym.name];
    var p := alts[Choose(codons, s.used, alts)];
    var kids := Children(p, item.depth + 1);
    var r := Step(rules, codons, s);
    assert r.frontier == kids + rest;
    if r.maxDepth <= maxTreeDepth {
      assert item.depth <= maxTreeDepth;
      WeightPop(s.frontier, top, b);
      WeightAppend(kids, rest, top, b);
      ChildrenLighter(p, item.depth, top, b);
      assert Weight(r.frontier, top, b) < Weight(s.frontier, top, b);
    }
  }

  /** The step keeps the invariant. */
  lemma StepInv(rules: Rules, codons: seq<int>, s: State)
    requires Mappable(rules) && Inv(rules, s) && |codons| > 0 && |s.frontier| > 0
    ensures Inv(rules, Step(rules, codons, s))
  {
    var item := s.frontier[0];
    if item.sym.NT? {
      var alts := rules[item.sym.name];
      var p := alts[Choose(codons, s.used, alts)];
      assert ProdClosed(p, rules.Keys);
      var f := Children(p, item.depth + 1) + s.frontier[1..];
      forall i | 0 <= i < |f| ensures f[i].sym.NT? ==> f[i].sym.name in rules {
        if i >= |p| {
          assert f[i] == s.frontier[i - |p| + 1];
        }
      }
    }
  }

  /** The loop: steps until it stops running. */
  function Run(rules: Rules, codons: seq<int>, maxWraps: int, maxTreeDepth: int, s: State): (r: State)
    requires Mappable(rules) && Inv(rules, s) && |codons| > 0
    ensures Inv(rules, r) && !Running(r, maxWraps, maxTreeDepth)
    decreases if s.maxDepth <= maxTreeDepth then 1 else 0, Weight(s.frontier, maxTreeDepth + 1, Longest(rules) + 1)
  {
    if Running(s, maxWraps, maxTreeDepth) then
      StepDecreases(rules, codons, s, maxWraps, maxTreeDepth);
      StepInv(rules, codons, s);
      Run(rules, codons, maxWraps, maxTreeDepth, Step(rules, codons, s))
    else s
  }

  // ----------------------------------------------------------- the result

  /** The phenotype: the emitted texts when the tree is unfinished, else their concatenation. */
  datatype Phenotype = Unfinished(pieces: seq<string>) | Finished(text: string)

  /** What `generate` returns, less the genome it was given and the tree (always `None`). */
  datatype Outcome = Outcome(phenotype: Phenotype, nodes: nat, invalid: bool, depth: nat, used: nat)

  /**
   * The mapping of `codons` from the start symbol; `filter` stands for
   * `python_filter`, applied to a finished phenotype in Python mode.
   */
  function Mapped(rules: Rules, start: string, codons: seq<int>, maxWraps: int, maxTreeDepth: int,
                  pythonMode: bool, filter: string -> string): Outcome
    requires Mappable(rules) && start in rules && |codons| > 0
  {
    var s := Run(rules, codons, maxWraps, maxTreeDepth, Initial(start));
    var phenotype :=
      if |s.frontier| > 0 then Unfinished(s.output)
      else if pythonMode then Finished(filter(Concat(s.output)))
      else Finished(Concat(s.output));
    Outcome(phenotype, s.nodes, |s.frontier| > 0, s.maxDepth + 1, s.used)
  }

  // ----------------------------------------------------------- derivations

  /** The emitted terminals as symbols. */
  function Texts(output: seq<string>): seq<Symbol>
  {
    seq(|output|, i requires 0 <= i < |output| => T(output[i]))
  }

  /** The pending symbols. */
  function Syms(f: seq<Item>): seq<Symbol>
  {
    seq(|f|, i requires 0 <= i < |f| => f[i].sym)
  }

  /** The sentential form the state stands for: what was emitted, then what is pending. */
  function Form(s: State): seq<Symbol>
  {
    Texts(s.output) + Syms(s.frontier)
  }

  lemma SymsAppend(f: seq<Item>, g: seq<Item>)
    ensures Syms(f + g) == Syms(f) + Syms(g)
  {
    assert |Syms(f + g)| == |Syms(f) + Syms(g)|;
    forall i | 0 <= i < |f + g| ensures Syms(f + g)[i] == (Syms(f) + Syms(g))[i] {
      if i >= |f| {
        assert (f + g)[i] == g[i - |f|];
      }
    }
  }

  lemma SymsChildren(p: Production, d: nat)
    ensures Syms(Children(p, d)) == p
  {
    assert |Syms(Children(p, d))| == |p|;
  }

  /** `g` is `f` with its non-terminal at `i`, preceded by terminals only, replaced by alternative `a`. */
  ghost predicate LeftStepAt(rules: Rules, f: seq<Symbol>, g: seq<Symbol>, i: int, a: int)
  {
    0 <= i < |f| && TerminalOnly(f[..i]) && f[i].NT? && f[i].name in rules && 0 <= a < |rules[f[i].name]|
    && g == f[..i] + rules[f[i].name][a] + f[i + 1..]
  }

  /** `g` comes from `f` by replacing its leftmost non-terminal with one of that non-terminal's alternatives. */
  ghost predicate LeftStep(rules: Rules, f: seq<Symbol>, g: seq<Symbol>)
  {
    exists i, a :: LeftStepAt(rules, f, g, i, a)
  }

  /** A leftmost derivation: each form in `forms` comes from the one before it by a leftmost step. */
  ghost predicate Derivation(rules: Rules, forms: seq<seq<Symbol>>)
  {
    |forms| >= 1 && forall k :: 0 <= k < |forms| - 1 ==> LeftStep(rules, forms[k], forms[k + 1])
  }

  /** Emitting the leftmost pending terminal leaves the form as it was. */
  lemma FormEmit(output: seq<string>, item: Item, rest: seq<Item>)
    requires item.sym.T?
    ensures Texts(output + [item.sym.text]) + Syms(rest) == Texts(output) + Syms([item] + rest)
  {
    SymsAppend([item], rest);
    assert Texts(output + [item.sym.text]) == Texts(output) + [item.sym];
  }

  /** Expanding the leftmost pending non-terminal into `p` puts `p` in its place in the form. */
  lemma FormExpand(output: seq<string>, item: Item, p: Production, d: nat, rest: seq<Item>)
    ensures Texts(output) + Syms([item] + rest) == Texts(output) + [item.sym] + Syms(rest)
    ensures Texts(output) + Syms(Children(p, d) + rest) == Texts(output) + p + Syms(rest)
  {
    SymsAppend([item], rest);
    SymsAppend(Children(p, d), rest);
    SymsChildren(p, d);
  }

  /** Replacing a non-terminal preceded by terminals only is a leftmost step. */
  lemma LeftStepOf(rules: Rules, pre: seq<Symbol>, n: Symbol, a: int, post: seq<Symbol>)
    requires TerminalOnly(pre) && n.NT? && n.name in rules && 0 <= a < |rules[n.name]|
    ensures LeftStep(rules, pre + [n] + post, pre + rules[n.name][a] + post)
  {
    var f := pre + [n] + post;
    var i := |pre|;
    assert f[..i] == pre && f[i] == n && f[i + 1..] == post;
    assert LeftStepAt(rules, f, pre + rules[n.name][a] + post, i, a);
  }

  /** A step that pops a terminal emits it and leaves the form as it was. */
  lemma StepEmits(rules: Rules, codons: seq<int>, s: State)
    requires Mappable(rules) && Inv(rules, s) && |codons| > 0 && |s.frontier| > 0 && s.frontier[0].sym.T?
    ensures Form(Step(rules, codons, s)) == Form(s)
  {
    var r := Step(rules, codons, s);
    assert s.frontier == [s.frontier[0]] + r.frontier;
    FormEmit(s.output, s.frontier[0], r.frontier);
  }

  /** A step that pops a non-terminal performs a leftmost derivation step. */
  lemma StepExpands(rules: Rules, codons: seq<int>, s: State)
    requires Mappable(rules) && Inv(rules, s) && |codons| > 0 && |s.frontier| > 0 && s.frontier[0].sym.NT?
    ensures LeftStep(rules, Form(s), Form(Step(rules, codons, s)))
  {
    var item := s.frontier[0];
    var rest := s.frontier[1..];
    var alts := rules[item.sym.name];
    var a := Choose(codons, s.used, alts);
    assert s.frontier == [item] + rest;
    assert Step(rules, codons, s).output == s.output;
    assert Step(rules, codons, s).frontier == Children(alts[a], item.depth + 1) + rest;
    FormExpand(s.output, item, alts[a], item.depth + 1, rest);
    assert TerminalOnly(Texts(s.output));
    LeftStepOf(rules, Texts(s.output), item.sym, a, Syms(rest));
  }

  /** A step emits a terminal without changing the form, or performs one leftmost derivation step. */
  lemma StepForm(rules: Rules, codons: seq<int>, s: State)
    requires Mappable(rules) && Inv(rules, s) && |codons| > 0 && |s.frontier| > 0
    ensures s.frontier[0].sym.T? ==> Form(Step(rules, codons, s)) == Form(s)
    ensures s.frontier[0].sym.NT? ==> LeftStep(rules, Form(s), Form(Step(rules, codons, s)))
  {
    if s.frontier[0].sym.T? {
      StepEmits(rules, codons, s);
    } else {
      StepExpands(rules, codons, s);
    }
  }

  /** A leftmost step into the first form of a derivation extends the derivation at its front. */
  lemma DerivationStep(rules: Rules, f: seq<Symbol>, forms: seq<seq<Symbol>>)
    requires Derivation(rules, forms) && LeftStep(rules, f, forms[0])
    ensures Derivation(rules, [f] + forms)
  {
    var g := [f] + forms;
    forall k | 0 <= k < |g| - 1 ensures LeftStep(rules, g[k], g[k + 1]) {
      if k > 0 {
        assert g[k] == forms[k - 1] && g[k + 1] == forms[k];
      }
    }
  }

  /**
   * One turn of the loop, stated without the step itself: the invariant
   * holds after it, the run goes on from there, the termination measure
   * drops and the form evolves as `StepForm` says.
   */
  lemma RunAdvance(rules: Rules, codons: seq<int>, maxWraps: int, maxTreeDepth: int, s: State) returns (s': State)
    requires Mappable(rules) && Inv(rules, s) && |codons| > 0 && Running(s, maxWraps, maxTreeDepth)
    ensures Inv(rules, s')
    ensures Run(rules, codons, maxWraps, maxTreeDepth, s) == Run(rules, codons, maxWraps, maxTreeDepth, s')
    ensures s'.maxDepth > maxTreeDepth
            || Weight(s'.frontier, maxTreeDepth + 1, Longest(rules) + 1) < Weight(s.frontier, maxTreeDepth + 1, Longest(rules) + 1)
    ensures s.frontier[0].sym.T? ==> Form(s') == Form(s)
    ensures s.frontier[0].sym.NT? ==> LeftStep(rules, Form(s), Form(s'))
  {
    StepDecreases(rules, codons, s, maxWraps, maxTreeDepth);
    StepInv(rules, codons, s);
    StepForm(rules, codons, s);
    s' := Step(rules, codons, s);
  }

  /** The forms of a run's starting and final states are connected by leftmost derivation steps. */
  lemma RunDerives(rules: Rules, codons: seq<int>, maxWraps: int, maxTreeDepth: int, s: State)
    returns (forms: seq<seq<Symbol>>)
    requires Mappable(rules) && Inv(rules, s) && |codons| > 0
    ensures Derivation(rules, forms) && forms[0] == Form(s)
    ensures forms[|forms| - 1] == Form(Run(rules, codons, maxWraps, maxTreeDepth, s))
    decreases if s.maxDepth <= maxTreeDepth then 1 else 0, Weight(s.frontier, maxTreeDepth + 1, Longest(rules) + 1)
  {
    if Running(s, maxWraps, maxTreeDepth) {
      var s' := RunAdvance(rules, codons, maxWraps, maxTreeDepth, s);
      var later := RunDerives(rules, codons, maxWraps, maxTreeDepth, s');
      if s.frontier[0].sym.T? {
        forms := later;
      } else {
        DerivationStep(rules, Form(s), later);
        forms := [Form(s)] + later;
        assert forms[|forms| - 1] == later[|later| - 1];
      }
    } else {
      forms := [Form(s)];
    }
  }

  /**
   * A finished mapping derives its output from the start symbol: the
   * emitted terminals, in order, are a sentence of the grammar.
   */
  lemma FinishedIsSentence(rules: Rules, start: string, codons: seq<int>, maxWraps: int, maxTreeDepth: int)
    returns (forms: seq<seq<Symbol>>)
    requires Mappable(rules) && start in rules && |codons| > 0
    ensures var s := Run(rules, codons, maxWraps, maxTreeDepth, Initial(start));
            |s.frontier| == 0 ==>
              Derivation(rules, forms) && forms[0] == [NT(start, [])] && forms[|forms| - 1] == Texts(s.output)
  {
    var s := Run(rules, codons, maxWraps, maxTreeDepth, Initial(start));
    forms := RunDerives(rules, codons, maxWraps, maxTreeDepth, Initial(start));
    assert Form(Initial(start)) == [NT(start, [])];
    if |s.frontier| == 0 {
      assert Form(s) == Texts(s.output);
    }
  }

  /**
   * The mapping stops for one of the loop's three reasons, and `invalid`
   * is set exactly when symbols were left unexpanded.
   */
  lemma MappedOutcome(rules: Rules, start: string, codons: seq<int>, maxWraps: int, maxTreeDepth: int,
                      pythonMode: bool, filter: string -> string)
    requires Mappable(rules) && start in rules && |codons| > 0
    ensures var s := Run(rules, codons, maxWraps, maxTreeDepth, Initial(start));
            var o := Mapped(rules, start, codons, maxWraps, maxTreeDepth, pythonMode, filter);
            (s.wraps >= maxWraps || s.frontier == [] || s.maxDepth > maxTreeDepth)
            && (o.invalid <==> o.phenotype.Unfinished?)
            && (o.invalid <==> s.frontier != [])
            && (!o.invalid && !pythonMode ==> o.phenotype.text == Concat(s.output))
            && o.depth == s.maxDepth + 1
  {
  }

  // ----------------------------------------------------------- bounds

  /**
   * What the counters obey along a run: the wrap counter never passes
   * `max_wraps` (or stays at -1), every wrap adds at most one more pass over
   * the genome, and the deepest expansion is at most one below the cap.
   */
  predicate Bounded(s: State, codons: seq<int>, maxWraps: int, maxTreeDepth: int)
  {
    -1 <= s.wraps <= Max(maxWraps, -1)
    && s.used <= (s.wraps + 2) * |codons|
    && s.maxDepth <= Max(maxTreeDepth + 1, 0)
  }

  lemma MultipleMod(k: nat, n: nat)
    requires n >= 1
    ensures (k * n) % n == 0
  {
    var q := (k * n) / n;
    var r := (k * n) % n;
    assert k * n == n * q + r;
    var d := k - q;
    assert n * d == r;
  }

  lemma StepBounded(rules: Rules, codons: seq<int>, s: State, maxWraps: int, maxTreeDepth: int)
    requires Mappable(rules) && Inv(rules, s) && |codons| > 0 && Running(s, maxWraps, maxTreeDepth)
    requires Bounded(s, codons, maxWraps, maxTreeDepth)
    ensures Bounded(Step(rules, codons, s), codons, maxWraps, maxTreeDepth)
  {
    var r := Step(rules, codons, s);
    var n := |codons|;
    var cap := (s.wraps + 2) * n;
    assert (r.wraps + 2) * n == cap + (r.wraps - s.wraps) * n;
    if s.used == cap {
      MultipleMod(s.wraps + 2, n);
      assert s.used > 0;
      if s.frontier[0].sym.NT? {
        assert PendingNT(s.frontier);
        assert r.wraps == s.wraps + 1;
      }
    }
  }

  lemma {:induction false} RunBounded(rules: Rules, codons: seq<int>, maxWraps: int, maxTreeDepth: int, s: State)
    requires Mappable(rules) && Inv(rules, s) && |codons| > 0 && Bounded(s, codons, maxWraps, maxTreeDepth)
    ensures Bounded(Run(rules, codons, maxWraps, maxTreeDepth, s), codons, maxWraps, maxTreeDepth)
    decreases if s.maxDepth <= maxTreeDepth then 1 else 0, Weight(s.frontier, maxTreeDepth + 1, Longest(rules) + 1)
  {
    if Running(s, maxWraps, maxTreeDepth) {
      StepDecreases(rules, codons, s, maxWraps, maxTreeDepth);
      StepInv(rules, codons, s);
      StepBounded(rules, codons, s, maxWraps, maxTreeDepth);
      RunBounded(rules, codons, maxWraps, maxTreeDepth, Step(rules, codons, s));
    }
  }

  /**
   * The mapping reads at most `max_wraps + 2` passes' worth of codons (the
   * wrap counter starts at -1), and the depth it reports is at most
   * `MAX_TREE_DEPTH + 2`.
   */
  lemma MappedBounds(rules: Rules, start: string, codons: seq<int>, maxWraps: int, maxTreeDepth: int,
                     pythonMode: bool, filter: string -> string)
    requires Mappable(rules) && start in rules && |codons| > 0
    ensures var o := Mapped(rules, start, codons, maxWraps, maxTreeDepth, pythonMode, filter);
            o.used <= (Max(maxWraps, -1) + 2) * |codons| && 1 <= o.depth <= Max(maxTreeDepth + 2, 1)
  {
    RunBounded(rules, codons, maxWraps, maxTreeDepth, Initial(start));
    var s := Run(rules, codons, maxWraps, maxTreeDepth, Initial(start));
    assert (Max(maxWraps, -1) + 2) * |codons| == (s.wraps + 2) * |codons| + (Max(maxWraps, -1) - s.wraps) * |codons|;
  }

  // ----------------------------------------------------------- examples

  /** A turn of the loop from `s` to `next`: the run from `s` is the run from `next`. */
  lemma Turn(rules: Rules, codons: seq<int>, maxWraps: int, maxTreeDepth: int, s: State, next: State)
    requires Mappable(rules) && Inv(rules, s) && |codons| > 0 && Running(s, maxWraps, maxTreeDepth)
    requires Step(rules, codons, s) == next
    ensures Inv(rules, next)
    ensures Run(rules, codons, maxWraps, maxTreeDepth, s) == Run(rules, codons, maxWraps, maxTreeDepth, next)
  {
    StepInv(rules, codons, s);
  }

  /** `<S> ::= <A>b`, `<A> ::= a`: no choice has two alternatives. */
  const SingleGrammar: Rules := map["<S>" := [[NT("<A>", []), T("b")]], "<A>" := [[T("a")]]]

  lemma SingleMappable()
    ensures Mappable(SingleGrammar)
  {
    assert ProdClosed(SingleGrammar["<S>"][0], SingleGrammar.Keys);
  }

  lemma SingleTurn1(codons: seq<int>)
    requires |codons| > 0 && Mappable(SingleGrammar)
    ensures Step(SingleGrammar, codons, Initial("<S>")) == State([Item(NT("<A>", []), 1), Item(T("b"), 1)], [], 0, -1, 2, 0)
  {
    assert CountNTs(SingleGrammar["<S>"][0], 2) == 1;
  }

  lemma SingleTurn2(codons: seq<int>)
    requires |codons| > 0 && Mappable(SingleGrammar)
    ensures var s := State([Item(NT("<A>", []), 1), Item(T("b"), 1)], [], 0, -1, 2, 0);
            Inv(SingleGrammar, s)
            && Step(SingleGrammar, codons, s) == State([Item(T("a"), 2), Item(T("b"), 1)], [], 0, -1, 3, 1)
  {
  }

  lemma SingleTurn3(codons: seq<int>)
    requires |codons| > 0 && Mappable(SingleGrammar)
    ensures var s := State([Item(T("a"), 2), Item(T("b"), 1)], [], 0, -1, 3, 1);
            Inv(SingleGrammar, s) && Step(SingleGrammar, codons, s) == State([Item(T("b"), 1)], ["a"], 0, -1, 3, 2)
  {
  }

  lemma SingleTurn4(codons: seq<int>)
    requires |codons| > 0 && Mappable(SingleGrammar)
    ensures var s := State([Item(T("b"), 1)], ["a"], 0, -1, 3, 2);
            Inv(SingleGrammar, s) && Step(SingleGrammar, codons, s) == State([], ["a", "b"], 0, -1, 3, 2)
  {
  }

  /** On `SingleGrammar` the phenotype is "ab" and no codon is read. */
  lemma SingleChoices(codons: seq<int>, pythonMode: bool, filter: string -> string)
    requires |codons| > 0
    ensures Mappable(SingleGrammar)
            && Mapped(SingleGrammar, "<S>", codons, 0, 90, false, filter) == Outcome(Finished("ab"), 3, false, 3, 0)
  {
    var g := SingleGrammar;
    var s0 := Initial("<S>");
    var s1 := State([Item(NT("<A>", []), 1), Item(T("b"), 1)], [], 0, -1, 2, 0);
    var s2 := State([Item(T("a"), 2), Item(T("b"), 1)], [], 0, -1, 3, 1);
    var s3 := State([Item(T("b"), 1)], ["a"], 0, -1, 3, 2);
    var s4 := State([], ["a", "b"], 0, -1, 3, 2);
    SingleMappable();
    SingleTurn1(codons);
    Turn(g, codons, 0, 90, s0, s1);
    SingleTurn2(codons);
    Turn(g, codons, 0, 90, s1, s2);
    SingleTurn3(codons);
    Turn(g, codons, 0, 90, s2, s3);
    SingleTurn4(codons);
    Turn(g, codons, 0, 90, s3, s4);
    assert Run(g, codons, 0, 90, s4) == s4;
    assert Concat(["a", "b"]) == "ab";
  }

  /** `<S> ::= x<A> | y`, `<A> ::= a | b`. */
  const WrapGrammar: Rules := map["<S>" := [[T("x"), NT("<A>", [])], [T("y")]], "<A>" := [[T("a")], [T("b")]]]

  lemma WrapMappable()
    ensures Mappable(WrapGrammar)
  {
    assert ProdClosed(WrapGrammar["<S>"][0], WrapGrammar.Keys);
  }

  lemma WrapTurn1()
    requires Mappable(WrapGrammar)
    ensures Step(WrapGrammar, [0], Initial("<S>")) == State([Item(T("x"), 1), Item(NT("<A>", []), 1)], [], 1, -1, 2, 0)
  {
    assert CountNTs(WrapGrammar["<S>"][0], 2) == 1;
  }

  lemma WrapTurn2()
    requires Mappable(WrapGrammar)
    ensures var s := State([Item(T("x"), 1), Item(NT("<A>", []), 1)], [], 1, -1, 2, 0);
            Inv(WrapGrammar, s) && Step(WrapGrammar, [0], s) == State([Item(NT("<A>", []), 1)], ["x"], 1, 0, 2, 1)
  {
    var s := State([Item(T("x"), 1), Item(NT("<A>", []), 1)], [], 1, -1, 2, 0);
    assert PendingNT(s.frontier) by { assert s.frontier[1].sym.NT?; }
  }

  lemma WrapTurn3()
    requires Mappable(WrapGrammar)
    ensures var s := State([Item(NT("<A>", []), 1)], ["x"], 1, 0, 2, 1);
            Inv(WrapGrammar, s) && Step(WrapGrammar, [0], s) == State([Item(T("a"), 2)], ["x"], 2, 1, 3, 1)
  {
    var s := State([Item(NT("<A>", []), 1)], ["x"], 1, 0, 2, 1);
    assert PendingNT(s.frontier) by { assert s.frontier[0].sym.NT?; }
  }

  lemma WrapTurn4()
    requires Mappable(WrapGrammar)
    ensures var s := State([Item(T("a"), 2)], ["x"], 2, 1, 3, 1);
            Inv(WrapGrammar, s) && Step(WrapGrammar, [0], s) == State([], ["x", "a"], 2, 1, 3, 2)
  {
  }

  /**
   * On `WrapGrammar` with the genome `[0]` the wrap counter fires on two
   * consecutive iterations, once before a terminal is emitted and once
   * before `<A>` is expanded; the phenotype is "xa".
   */
  lemma WrapsTwice(filter: string -> string)
    ensures Mappable(WrapGrammar)
            && Run(WrapGrammar, [0], 5, 90, Initial("<S>")).wraps == 1
            && Mapped(WrapGrammar, "<S>", [0], 5, 90, false, filter) == Outcome(Finished("xa"), 3, false, 3, 2)
  {
    var g := WrapGrammar;
    var s0 := Initial("<S>");
    var s1 := State([Item(T("x"), 1), Item(NT("<A>", []), 1)], [], 1, -1, 2, 0);
    var s2 := State([Item(NT("<A>", []), 1)], ["x"], 1, 0, 2, 1);
    var s3 := State([Item(T("a"), 2)], ["x"], 2, 1, 3, 1);
    var s4 := State([], ["x", "a"], 2, 1, 3, 2);
    WrapMappable();
    WrapTurn1();
    Turn(g, [0], 5, 90, s0, s1);
    WrapTurn2();
    Turn(g, [0], 5, 90, s1, s2);
    WrapTurn3();
    Turn(g, [0], 5, 90, s2, s3);
    WrapTurn4();
    Turn(g, [0], 5, 90, s3, s4);
    assert Run(g, [0], 5, 90, s4) == s4;
    assert Concat(["x", "a"]) == "xa";
  }
}

/**
 * The list computations inside `generate`'s loop
 * (src/representation/grammar.py:270-305): the wrap test's scan for a
 * pending non-terminal, the children of the chosen production, and the
 * count of non-terminal children.
 */
module Generating {
  import opened Symbols
  import opened Depths
  import opened Mapper

  /** `any([i[0][1] == "NT" for i in unexpanded_symbols])` (line 276). */
  method AnyNT(frontier: seq<Item>) returns (b: bool)
    ensures b == PendingNT(frontier)
  {
    b := false;
    var i := 0;
    while i < |frontier|
      invariant 0 <= i <= |frontier|
      invariant b <==> exists m :: 0 <= m < i && frontier[m].sym.NT?
    {
      if frontier[i].sym.NT? {
        b := true;
      }
      i := i + 1;
    }
  }

  /** The `children` loop (lines 296-298): each symbol of the production one level deeper. */
  method ChildItems(production: Production, depth: nat) returns (children: seq<Item>)
    ensures children == Children(production, depth)
  {
    children := [];
    var k := 0;
    while k < |production|
      invariant 0 <= k <= |production| && |children| == k
      invariant forall m :: 0 <= m < k ==> children[m] == Item(production[m], depth)
    {
      children := children + [Item(production[k], depth)];
      k := k + 1;
    }
  }

  /** `len(NT_kids)` (lines 300-302): the non-terminal children, whose count is the production's. */
  method CountKids(children: seq<Item>, ghost production: Production, depth: nat) returns (n: nat)
    requires children == Children(production, depth)
    ensures n == CountNTs(production, |production|)
  {
    n := 0;
    var k := 0;
    while k < |children|
      invariant 0 <= k <= |children| && n == CountNTs(production, k)
    {
      if children[k].sym.NT? {
        n := n + 1;
      }
      k := k + 1;
    }
  }

  /**
   * A popped non-terminal (lines 288-305): the codon at `used_input` picks
   * the alternative, a codon is spent only when there was a choice, the
   * node count grows by the non-terminal children (or 1 without any), and
   * the children go in front of the rest at one level deeper.
   */
  method Expand(rules: Rules, codons: seq<int>, item: Item, rest: seq<Item>, usedInput: nat, nodes: nat)
    returns (unexpanded: seq<Item>, used: nat, count: nat)
    requires Mappable(rules) && item.sym.NT? && item.sym.name in rules && |codons| > 0
    ensures var alts := rules[item.sym.name];
            var p := alts[Choose(codons, usedInput, alts)];
            && unexpanded == Children(p, item.depth + 1) + rest
            && used == (if |alts| > 1 then usedInput + 1 else usedInput)
            && count == nodes + (if CountNTs(p, |p|) > 0 then CountNTs(p, |p|) else 1)
  {
    var productionChoices := rules[item.sym.name];
    var currentProduction := codons[usedInput % |codons|] % |productionChoices|;
    used := usedInput;
    if |productionChoices| > 1 {
      used := used + 1;
    }
    var children := ChildItems(productionChoices[currentProduction], item.depth + 1);
    var ntKids := CountKids(children, productionChoices[currentProduction], item.depth + 1);
    if ntKids > 0 {
      count := nodes + ntKids;
    } else {
      count := nodes + 1;
    }
    unexpanded := children + rest;
  }

  /**
   * One iteration of `generate`'s loop (lines 273-305): the wrap test, the
   * pop, the depth update, then the terminal emitted or the non-terminal
   * expanded.
   */
  method Iteration(rules: Rules, codons: seq<int>, unexpanded0: seq<Item>, output0: seq<string>, usedInput0: nat,
                   wraps0: int, nodes0: nat, currentMaxDepth0: nat)
    returns (unexpanded: seq<Item>, output: seq<string>, usedInput: nat, wraps: int, nodes: nat, currentMaxDepth: nat)
    requires Mappable(rules) && |codons| > 0 && |unexpanded0| > 0
    requires Inv(rules, State(unexpanded0, output0, usedInput0, wraps0, nodes0, currentMaxDepth0))
    ensures State(unexpanded, output, usedInput, wraps, nodes, currentMaxDepth)
            == Step(rules, codons, State(unexpanded0, output0, usedInput0, wraps0, nodes0, currentMaxDepth0))
  {
    unexpanded, output, usedInput, wraps, nodes, currentMaxDepth :=
      unexpanded0, output0, usedInput0, wraps0, nodes0, currentMaxDepth0;
    if usedInput % |codons| == 0 && usedInput > 0 {
      var pending := AnyNT(unexpanded);
      if pending {
        wraps := wraps + 1;
      }
    }
    var currentItem := unexpanded[0];
    unexpanded := unexpanded[1..];
    if currentMaxDepth < currentItem.depth {
      currentMaxDepth := currentItem.depth;
    }
    if currentItem.sym.T? {
      output := output + [currentItem.sym.text];
    } else {
      unexpanded, usedInput, nodes := Expand(rules, codons, currentItem, unexpanded, usedInput, nodes);
    }
  }

  /**
   * The loop of `generate` (lines 270-305): while wraps are left, symbols
   * are pending and the depth limit holds, pop the front symbol, emit a
   * terminal or replace a non-terminal by the alternative the next codon
   * selects. It ends in the state the loop's specification reaches.
   */
  method GenerateLoop(rules: Rules, codons: seq<int>, maxWraps: int, maxTreeDepth: int, start: string) returns (s: State)
    requires Mappable(rules) && start in rules && |codons| > 0
    ensures s == Run(rules, codons, maxWraps, maxTreeDepth, Initial(start))
  {
    var usedInput: nat, currentMaxDepth: nat, nodes: nat := 0, 0, 1;
    var wraps: int, output: seq<string> := -1, [];
    var unexpanded: seq<Item> := [Item(NT(start, []), 0)];
    while wraps < maxWraps && |unexpanded| > 0 && currentMaxDepth <= maxTreeDepth
      invariant Inv(rules, State(unexpanded, output, usedInput, wraps, nodes, currentMaxDepth))
      invariant Run(rules, codons, maxWraps, maxTreeDepth, State(unexpanded, output, usedInput, wraps, nodes, currentMaxDepth))
                == Run(rules, codons, maxWraps, maxTreeDepth, Initial(start))
      decreases if currentMaxDepth <= maxTreeDepth then 1 else 0, Weight(unexpanded, maxTreeDepth + 1, Longest(rules) + 1)
    {
      ghost var before := State(unexpanded, output, usedInput, wraps, nodes, currentMaxDepth);
      StepDecreases(rules, codons, before, maxWraps, maxTreeDepth);
      StepInv(rules, codons, before);
      unexpanded, output, usedInput, wraps, nodes, currentMaxDepth :=
        Iteration(rules, codons, unexpanded, output, usedInput, wraps, nodes, currentMaxDepth);
    }
    s := State(unexpanded, output, usedInput, wraps, nodes, currentMaxDepth);
  }
}

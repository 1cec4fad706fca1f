/**
 * The bodies of `check_depths`' two passes for one non-terminal
 * (src/representation/grammar.py:98-131 and 133-160), written as the
 * source's loops over the choices and proved to compute one visit of the
 * functional model in module Depths.
 */
module Visits {
  import opened Symbols
  import opened Depths
  import opened Parser

  /** Pass 1 on the record of `x`: set `b_factor`, then, unless expanded, count terminal choices and walk the choices. */
  method VisitDepth(rules: Rules, info: Infos, x: string) returns (r: Infos)
    requires Fits(rules, info) && x in info
    ensures r == Visit1(rules, info, x)
  {
    var choices := rules[x];
    var v0 := info[x].(bFactor := |choices|);
    r := info[x := v0];
    if !v0.expanded {
      var terms := CountTerms(choices);
      CountTerminalOnlyIff(choices, |choices|);
      if terms > 0 {
        r := r[x := v0.(minSteps := 1, expanded := true)];
      } else {
        assert ChoicesFor(info, choices) by {
          forall a | 0 <= a < |choices| ensures ProdClosed(choices[a], info.Keys) && !TerminalOnly(choices[a]) {
            assert ProdClosed(rules[x][a], rules.Keys);
          }
        }
        r := WalkChoices(info, x, v0, choices);
      }
    }
  }

  /** The `terms` counter: how many choices are terminal-only. */
  method CountTerms(choices: seq<Production>) returns (terms: nat)
    ensures terms == CountTerminalOnly(choices, |choices|)
  {
    terms := 0;
    var a := 0;
    while a < |choices|
      invariant 0 <= a <= |choices| && terms == CountTerminalOnly(choices, a)
    {
      if TerminalOnly(choices[a]) {
        terms := terms + 1;
      }
      a := a + 1;
    }
  }

  /** Pass 1's walk over the choices of an `x` with no terminal-only choice, from its record `v0`. */
  method WalkChoices(info: Infos, x: string, v0: NTInfo, choices: seq<Production>) returns (r: Infos)
    requires x in info && ChoicesFor(info, choices)
    ensures r == info[x := Choices(info, x, v0, choices, |choices|)]
  {
    r := info[x := v0];
    var a := 0;
    while a < |choices|
      invariant 0 <= a <= |choices|
      invariant r == info[x := Choices(info, x, v0, choices, a)]
    {
      ChoiceStepNow(info, x, r[x], choices[a]);
      r := ApplyChoice(r, x, choices[a]);
      a := a + 1;
    }
  }

  /** The choice step reads `x`'s record only through the updated table. */
  lemma ChoiceStepNow(info: Infos, x: string, v: NTInfo, p: Production)
    requires x in info && ProdClosed(p, info.Keys) && !TerminalOnly(p)
    ensures ChoiceStep(info, x, v, p) == ChoiceStep(info[x := v], x, v, p)
  {
    assert info[x := v][x := v] == info[x := v];
  }

  /** One choice of pass 1's walk, updating the record of `x` in `now`. */
  method ApplyChoice(now: Infos, x: string, choice: Production) returns (r: Infos)
    requires x in now && ProdClosed(choice, now.Keys) && !TerminalOnly(choice)
    ensures r == now[x := ChoiceStep(now, x, now[x], choice)]
  {
    CollapsedIn(choice, now.Keys);
    var names := Collapsed(choice);
    var vals := now[x];
    assert now[x := vals] == now;
    r := now;
    if |names| > 1 {
      if AllExpanded(now, names) {
        var top := MaxSteps(now, names) + 1;
        if vals.expanded && vals.minSteps > top {
          r := now[x := vals.(minSteps := top)];
        } else if !vals.expanded {
          r := now[x := vals.(expanded := true, minSteps := top)];
        }
      }
    } else {
      var child := now[names[0]];
      if child.expanded {
        if vals.expanded && vals.minSteps > child.minSteps + 1 {
          r := now[x := vals.(minSteps := child.minSteps + 1)];
        } else {
          r := now[x := vals.(expanded := true, minSteps := child.minSteps + 1)];
        }
      }
    }
  }

  /**
   * Pass 2 on the record of `x`: if it is still recursive, count its
   * terminal-only choices and its choices whose non-terminals are all
   * non-recursive, and clear the flag when the two cover every choice.
   */
  method VisitRecursion(rules: Rules, info: Infos, x: string) returns (r: Infos)
    requires Fits(rules, info) && x in info
    ensures r == Visit2(rules, info, x)
  {
    r := info;
    var vals := info[x];
    if vals.recursive {
      var choices := rules[x];
      var terms := 0;
      var nonrecurs := 0;
      var a := 0;
      while a < |choices|
        invariant 0 <= a <= |choices|
        invariant terms == CountTerminalOnly(choices, a) && nonrecurs == CountNonRec(info, choices, a)
      {
        var choice := choices[a];
        assert ProdClosed(choice, info.Keys) by { assert ProdClosed(rules[x][a], rules.Keys); }
        if TerminalOnly(choice) {
          terms := terms + 1;
        }
        var temp := 0;   // len(temp): the non-terminals of the choice
        var orary := 0;  // those whose record is not recursive
        var j := 0;
        while j < |choice|
          invariant 0 <= j <= |choice|
          invariant temp == CountNTs(choice, j) && orary == CountNonRecNTs(info, choice, j)
        {
          if choice[j].NT? {
            temp := temp + 1;
            if !info[choice[j].name].recursive {
              orary := orary + 1;
            }
          }
          j := j + 1;
        }
        if orary == temp && temp > 0 {
          nonrecurs := nonrecurs + 1;
        }
        a := a + 1;
      }
      if terms == |choices| {
        r := info[x := vals.(recursive := false)];
      } else if terms + nonrecurs == |choices| {
        r := info[x := vals.(recursive := false)];
      }
    } else {
      assert info[x := vals] == info;
    }
  }

  /** One production after an annotation loop (lines 171-174 or 175-178): each non-terminal gets its record's field. */
  method NoteChoice(info: Infos, prod: Production, kind: NoteKind) returns (r: Production)
    requires ProdClosed(prod, info.Keys)
    ensures r == NoteProduction(info, prod, kind)
  {
    r := prod;
    var j := 0;
    while j < |r|
      invariant 0 <= j <= |r| == |prod|
      invariant forall m :: 0 <= m < j ==> r[m] == NoteSymbol(info, prod[m], kind)
      invariant forall m :: j <= m < |r| ==> r[m] == prod[m]
    {
      var sym := r[j];
      if sym.NT? {
        r := r[j := NT(sym.name, sym.notes + [NoteOf(info[sym.name], kind)])];
      }
      j := j + 1;
    }
  }

  /** One rule's alternatives after an annotation loop. */
  method NoteChoices(info: Infos, alts: seq<Production>, kind: NoteKind) returns (r: seq<Production>)
    requires forall a :: 0 <= a < |alts| ==> ProdClosed(alts[a], info.Keys)
    ensures r == NoteAlts(info, alts, kind)
  {
    r := alts;
    var a := 0;
    while a < |r|
      invariant 0 <= a <= |r| == |alts|
      invariant forall b :: 0 <= b < a ==> r[b] == NoteProduction(info, alts[b], kind)
      invariant forall b :: a <= b < |r| ==> r[b] == alts[b]
    {
      var prod := NoteChoice(info, r[a], kind);
      r := r[a := prod];
      a := a + 1;
    }
  }

  /** An annotation loop over every rule, visited in key order. */
  method NoteAll(rules: Rules, info: Infos, order: seq<string>, kind: NoteKind) returns (r: Rules)
    requires Fits(rules, info) && Covers(order, info) && Distinct(order)
    ensures r == NoteRules(rules, info, kind)
  {
    r := rules;
    var k := 0;
    while k < |order|
      invariant 0 <= k <= |order| && r.Keys == rules.Keys
      invariant forall m :: 0 <= m < k ==> r[order[m]] == NoteAlts(info, rules[order[m]], kind)
      invariant forall x :: x in rules && (forall m :: 0 <= m < k ==> order[m] != x) ==> r[x] == rules[x]
    {
      var rule := order[k];
      assert forall a :: 0 <= a < |rules[rule]| ==> ProdClosed(rules[rule][a], info.Keys);
      var alts := NoteChoices(info, r[rule], kind);
      r := r[rule := alts];
      k := k + 1;
    }
    forall x | x in rules ensures r[x] == NoteRules(rules, info, kind)[x] {
      var m :| 0 <= m < |order| && order[m] == x;
    }
  }

  /** One sweep of pass 1 over the keys in order (lines 99-131). */
  method SweepDepth(rules: Rules, info: Infos, order: seq<string>) returns (r: Infos)
    requires Fits(rules, info) && forall i :: 0 <= i < |order| ==> order[i] in info
    ensures r == Sweep1(rules, info, order, |order|)
  {
    r := info;
    var k := 0;
    while k < |order|
      invariant 0 <= k <= |order| && r == Sweep1(rules, info, order, k)
    {
      r := VisitDepth(rules, r, order[k]);
      k := k + 1;
    }
  }

  /** Pass 1 of `check_depths` (lines 98-131): as many sweeps as there are keys. */
  method DepthPass(rules: Rules, info: Infos, order: seq<string>) returns (r: Infos)
    requires Fits(rules, info) && forall i :: 0 <= i < |order| ==> order[i] in info
    ensures r == Pass1(rules, info, order)
  {
    r := info;
    var i := 0;
    while i < |order|
      invariant 0 <= i <= |order| && r == Rounds1(rules, info, order, i)
    {
      r := SweepDepth(rules, r, order);
      i := i + 1;
    }
  }

  /** One sweep of pass 2 over the keys in order (lines 134-160). */
  method SweepRecursion(rules: Rules, info: Infos, order: seq<string>) returns (r: Infos)
    requires Fits(rules, info) && forall i :: 0 <= i < |order| ==> order[i] in info
    ensures r == Sweep2(rules, info, order, |order|)
  {
    r := info;
    var k := 0;
    while k < |order|
      invariant 0 <= k <= |order| && r == Sweep2(rules, info, order, k)
    {
      r := VisitRecursion(rules, r, order[k]);
      k := k + 1;
    }
  }

  /** Pass 2 of `check_depths` (lines 133-160), as many sweeps as there are keys. */
  method RecursionPass(rules: Rules, info: Infos, order: seq<string>) returns (r: Infos)
    requires Fits(rules, info) && forall i :: 0 <= i < |order| ==> order[i] in info
    ensures r == Pass2(rules, info, order)
  {
    r := info;
    var i := 0;
    while i < |order|
      invariant 0 <= i <= |order| && r == Rounds2(rules, info, order, i)
    {
      r := SweepRecursion(rules, r, order);
      i := i + 1;
    }
  }

  /** The loop computing `max_arity` (lines 167-170): the largest `min_steps`, from 0. */
  method LargestSteps(info: Infos, order: seq<string>) returns (m: int)
    requires forall i :: 0 <= i < |order| ==> order[i] in info
    ensures m == MaxArity(info, order, |order|)
  {
    m := 0;
    var k := 0;
    while k < |order|
      invariant 0 <= k <= |order| && m == MaxArity(info, order, k)
    {
      if info[order[k]].minSteps > m {
        m := info[order[k]].minSteps;
      }
      k := k + 1;
    }
  }
}

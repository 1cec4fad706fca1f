/**
 * The depth analysis (`check_depths`, src/representation/grammar.py:78-178)
 * as functions: one visit of a non-terminal in each pass, a sweep over the
 * non-terminals in definition order, and `len(non_terminals)` sweeps; then
 * `min_path`, `max_arity` and the notes appended to every non-terminal
 * occurrence. A visit sees every update made earlier in the same sweep, as
 * the source's in-place dictionary updates do.
 *
 * What the passes compute is related to two reference definitions:
 * `Derives(x, k)` (some derivation of `x` is complete within `k` levels) for
 * pass 1 and `Acyclic(x, k)` (no chain of references from `x` is `k` long)
 * for pass 2, each with a soundness and a completeness lemma.
 */
module Depths {
  import opened Common
  import opened Symbols

  /** The records cover exactly the rules' keys, and every referenced non-terminal has a rule. */
  predicate Fits(rules: Rules, info: Infos)
  {
    rules.Keys == info.Keys && Closed(rules)
  }

  /** The key order lists exactly the records' keys. */
  ghost predicate Covers(order: seq<string>, info: Infos)
  {
    forall x :: x in info <==> x in order
  }

  /** The number of terminal-only alternatives among the first `k` (the `terms` counter). */
  function CountTerminalOnly(alts: seq<Production>, k: nat): (r: nat)
    requires k <= |alts|
    ensures r <= k
  {
    if k == 0 then 0 else CountTerminalOnly(alts, k - 1) + (if TerminalOnly(alts[k - 1]) then 1 else 0)
  }

  /** The counter is zero exactly when no alternative is terminal-only, and full exactly when all are. */
  lemma {:induction false} CountTerminalOnlyIff(alts: seq<Production>, k: nat)
    requires k <= |alts|
    ensures CountTerminalOnly(alts, k) == 0 <==> forall a :: 0 <= a < k ==> !TerminalOnly(alts[a])
    ensures CountTerminalOnly(alts, k) == k <==> forall a :: 0 <= a < k ==> TerminalOnly(alts[a])
  {
    if k > 0 {
      CountTerminalOnlyIff(alts, k - 1);
    }
  }

  /** Some alternative holds terminals only: pass 1's `terms` counter is positive. */
  predicate HasTerminalChoice(alts: seq<Production>)
  {
    exists a :: 0 <= a < |alts| && TerminalOnly(alts[a])
  }

  /** The collapsed non-terminal names of a choice (`NT_choices`): repeats of neighbours cut. */
  function Collapsed(p: Production): seq<string>
  {
    Collapse(NTNames(p))
  }

  /** The collapsed names are exactly the non-terminals `p` mentions; there are some unless `p` is terminal-only. */
  lemma CollapsedFacts(p: Production)
    ensures forall x :: x in Collapsed(p) <==> Mentions(p, x)
    ensures forall i :: 0 <= i < |Collapsed(p)| ==> Mentions(p, Collapsed(p)[i])
    ensures Collapsed(p) != [] <==> !TerminalOnly(p)
  {
    NTNamesMentions(p);
    CollapseKeeps(NTNames(p));
  }

  lemma CollapsedIn(p: Production, keys: set<string>)
    requires ProdClosed(p, keys)
    ensures forall i :: 0 <= i < |Collapsed(p)| ==> Collapsed(p)[i] in keys
    ensures Collapsed(p) != [] <==> !TerminalOnly(p)
  {
    CollapsedFacts(p);
    forall i | 0 <= i < |Collapsed(p)| ensures Collapsed(p)[i] in keys {
      assert Mentions(p, Collapsed(p)[i]);
    }
  }

  // ================================================================ pass 1

  /** The largest `min_steps` among `names`. */
  function MaxSteps(info: Infos, names: seq<string>): int
    requires names != [] && forall i :: 0 <= i < |names| ==> names[i] in info
    decreases |names|
  {
    if |names| == 1 then info[names[0]].minSteps
    else Max(info[names[0]].minSteps, MaxSteps(info, names[1..]))
  }

  /** `MaxSteps` is reached by one of `names` and bounds all of them. */
  lemma {:induction false} MaxStepsBounds(info: Infos, names: seq<string>)
    requires names != [] && forall i :: 0 <= i < |names| ==> names[i] in info
    ensures forall i :: 0 <= i < |names| ==> info[names[i]].minSteps <= MaxSteps(info, names)
    ensures exists i :: 0 <= i < |names| && info[names[i]].minSteps == MaxSteps(info, names)
    decreases |names|
  {
    if |names| > 1 {
      MaxStepsBounds(info, names[1..]);
      assert forall i :: 1 <= i < |names| ==> names[i] == names[1..][i - 1];
      var j :| 0 <= j < |names[1..]| && info[names[1..][j]].minSteps == MaxSteps(info, names[1..]);
      assert names[j + 1] == names[1..][j];
      if info[names[0]].minSteps < MaxSteps(info, names[1..]) {
        assert info[names[j + 1]].minSteps == MaxSteps(info, names);
      } else {
        assert info[names[0]].minSteps == MaxSteps(info, names);
      }
    } else {
      assert info[names[0]].minSteps == MaxSteps(info, names);
    }
  }

  predicate AllExpanded(info: Infos, names: seq<string>)
  {
    forall i :: 0 <= i < |names| ==> names[i] in info && info[names[i]].expanded
  }

  /**
   * Pass 1's treatment of one choice `p` of `x` that holds a non-terminal:
   * the new record of `x`, whose current record is `v`. The other records are
   * read from `info`; `x`'s own, should `p` mention `x`, is `v`.
   */
  function ChoiceStep(info: Infos, x: string, v: NTInfo, p: Production): NTInfo
    requires x in info && ProdClosed(p, info.Keys) && !TerminalOnly(p)
  {
    CollapsedIn(p, info.Keys);
    var now := info[x := v];
    var names := Collapsed(p);
    if |names| > 1 then
      if AllExpanded(now, names) then
        var top := MaxSteps(now, names) + 1;
        if v.expanded && v.minSteps > top then v.(minSteps := top)
        else if !v.expanded then v.(expanded := true, minSteps := top)
        else v
      else v
    else
      var child := now[names[0]];
      if child.expanded then
        if v.expanded && v.minSteps > child.minSteps + 1 then v.(minSteps := child.minSteps + 1)
        else v.(expanded := true, minSteps := child.minSteps + 1)
      else v
  }

  /** The choices of `x` that hold a non-terminal. */
  predicate ChoicesFor(info: Infos, alts: seq<Production>)
  {
    forall a :: 0 <= a < |alts| ==> ProdClosed(alts[a], info.Keys) && !TerminalOnly(alts[a])
  }

  /** `x`'s record after its first `k` choices, starting from `v`. */
  function Choices(info: Infos, x: string, v: NTInfo, alts: seq<Production>, k: nat): NTInfo
    requires k <= |alts| && x in info && ChoicesFor(info, alts)
  {
    if k == 0 then v else ChoiceStep(info, x, Choices(info, x, v, alts, k - 1), alts[k - 1])
  }

  /** The record of `x` after pass 1's visit: its branching factor set, then expanded if it is not yet. */
  function Record1(rules: Rules, info: Infos, x: string): NTInfo
    requires Fits(rules, info) && x in info
  {
    var alts := rules[x];
    var v := info[x].(bFactor := |alts|);
    if v.expanded then v
    else if HasTerminalChoice(alts) then v.(minSteps := 1, expanded := true)
    else Choices(info, x, v, alts, |alts|)
  }

  /** Pass 1's visit of `x`: only `x`'s record changes. */
  function Visit1(rules: Rules, info: Infos, x: string): (r: Infos)
    requires Fits(rules, info) && x in info
    ensures r.Keys == info.Keys
  {
    info[x := Record1(rules, info, x)]
  }

  /** The visits of the first `k` keys of one sweep. */
  function Sweep1(rules: Rules, info: Infos, order: seq<string>, k: nat): (r: Infos)
    requires Fits(rules, info) && k <= |order| && forall i :: 0 <= i < |order| ==> order[i] in info
    ensures r.Keys == info.Keys
  {
    if k == 0 then info else Visit1(rules, Sweep1(rules, info, order, k - 1), order[k - 1])
  }

  /** `n` full sweeps. */
  function Rounds1(rules: Rules, info: Infos, order: seq<string>, n: nat): (r: Infos)
    requires Fits(rules, info) && forall i :: 0 <= i < |order| ==> order[i] in info
    ensures r.Keys == info.Keys
  {
    if n == 0 then info else Sweep1(rules, Rounds1(rules, info, order, n - 1), order, |order|)
  }

  /** Pass 1 as the source runs it: one sweep per non-terminal. */
  function Pass1(rules: Rules, info: Infos, order: seq<string>): (r: Infos)
    requires Fits(rules, info) && forall i :: 0 <= i < |order| ==> order[i] in info
    ensures r.Keys == info.Keys
  {
    Rounds1(rules, info, order, |order|)
  }

  // -------------------------------------------------- pass 1: reference

  /**
   * `x` can be fully expanded within `k` levels: some alternative of it has
   * only non-terminals that can be fully expanded within `k - 1` levels.
   */
  ghost predicate Derives(rules: Rules, x: string, k: nat)
    decreases k, 1
  {
    k >= 1 && x in rules && exists a :: 0 <= a < |rules[x]| && AltDerives(rules, rules[x][a], k - 1)
  }

  ghost predicate AltDerives(rules: Rules, p: Production, k: nat)
    decreases k, 2
  {
    forall i :: 0 <= i < |p| && p[i].NT? ==> Derives(rules, p[i].name, k)
  }

  lemma {:induction false} DerivesMono(rules: Rules, x: string, k: nat, k': nat)
    requires Derives(rules, x, k) && k <= k'
    ensures Derives(rules, x, k')
    decreases k
  {
    var a :| 0 <= a < |rules[x]| && AltDerives(rules, rules[x][a], k - 1);
    var p := rules[x][a];
    forall i | 0 <= i < |p| && p[i].NT? ensures Derives(rules, p[i].name, k' - 1) {
      DerivesMono(rules, p[i].name, k - 1, k' - 1);
    }
    assert AltDerives(rules, p, k' - 1);
  }

  /** One record's share of pass 1's invariant. */
  ghost predicate RecordSound(rules: Rules, x: string, v: NTInfo)
  {
    (v.expanded ==> v.minSteps >= 1 && Derives(rules, x, v.minSteps))
    && (!v.expanded ==> v.minSteps == Unresolved)
  }

  /**
   * The invariant of pass 1: an expanded non-terminal's `min_steps` is at
   * least 1 and some derivation meets it; an unexpanded one still has the
   * sentinel.
   */
  ghost predicate Sound1(rules: Rules, info: Infos)
  {
    forall x :: x in info ==> RecordSound(rules, x, info[x])
  }

  /** Every non-terminal that can be fully expanded within `k` levels is expanded. */
  ghost predicate Complete1(rules: Rules, info: Infos, k: nat)
  {
    forall x :: x in info && Derives(rules, x, k) ==> info[x].expanded
  }

  /** `b` differs from `a` at most in `x`'s `b_factor`, `min_steps` and `expanded`, and `x` stays expanded. */
  ghost predicate Frame1(a: Infos, b: Infos, x: string)
  {
    && x in a && a.Keys == b.Keys
    && (forall y :: y in a && y != x ==> b[y] == a[y])
    && b[x] == a[x].(bFactor := b[x].bFactor, minSteps := b[x].minSteps, expanded := b[x].expanded)
    && (a[x].expanded ==> b[x].expanded)
  }

  /** `expanded` never reverts, and only `min_steps`, `expanded` and `b_factor` change. */
  ghost predicate Grows1(a: Infos, b: Infos)
  {
    a.Keys == b.Keys
    && forall x :: x in a ==>
         (a[x].expanded ==> b[x].expanded) && b[x] == a[x].(bFactor := b[x].bFactor, minSteps := b[x].minSteps, expanded := b[x].expanded)
  }

  lemma Frame1Grows(a: Infos, b: Infos, x: string)
    requires Frame1(a, b, x)
    ensures Grows1(a, b)
  {
  }

  lemma Frame1Trans(a: Infos, b: Infos, c: Infos, x: string)
    requires Frame1(a, b, x) && Frame1(b, c, x)
    ensures Frame1(a, c, x)
  {
  }

  lemma Grows1Trans(a: Infos, b: Infos, c: Infos)
    requires Grows1(a, b) && Grows1(b, c)
    ensures Grows1(a, c)
  {
  }

  /**
   * One choice: with several collapsed names it changes `x` only when all of
   * them are expanded, setting `1 + max` the first time and afterwards only
   * lowering it; with one name whose record is expanded it sets
   * `child + 1` whatever `x` held before.
   */
  lemma ChoiceStepEffect(info: Infos, x: string, v: NTInfo, p: Production)
    requires x in info && ProdClosed(p, info.Keys) && !TerminalOnly(p)
    ensures var r := ChoiceStep(info, x, v, p);
            var now := info[x := v];
            var names := Collapsed(p);
            (|names| > 1 ==>
               (!AllExpanded(now, names) ==> r == v)
               && (AllExpanded(now, names) && !v.expanded ==>
                     r.expanded && r.minSteps == MaxSteps(now, names) + 1)
               && (v.expanded ==> r.minSteps <= v.minSteps))
            && (|names| == 1 && names[0] in now && now[names[0]].expanded ==>
                  r.expanded && r.minSteps == now[names[0]].minSteps + 1)
            && (|names| == 1 && names[0] in now && !now[names[0]].expanded ==> r == v)
  {
    CollapsedIn(p, info.Keys);
  }

  /** A choice changes only `min_steps` and `expanded`, and never un-expands. */
  lemma ChoiceStepFrame(info: Infos, x: string, v: NTInfo, p: Production)
    requires x in info && ProdClosed(p, info.Keys) && !TerminalOnly(p)
    ensures var r := ChoiceStep(info, x, v, p);
            r == v.(minSteps := r.minSteps, expanded := r.expanded) && (v.expanded ==> r.expanded)
  {
  }

  /** The single-child update can raise `min_steps`: a later choice with a deeper child overrides an earlier, shallower one. */
  lemma SingleChildRaises(info: Infos, p: Production)
    requires info == map["<S>" := NTInfo("<S>", 2, true, true, 2), "<B>" := NTInfo("<B>", 2, true, true, 1)]
    requires p == [NT("<B>", [])]
    ensures p[0].NT? && ChoiceStep(info, "<S>", info["<S>"], p).minSteps == 3
  {
    assert NTNames(p) == ["<B>"];
    assert Collapsed(p) == ["<B>"];
  }

  /** A choice whose non-terminals all have sound, expanded records derives within the largest of their `min_steps`. */
  lemma AltDerivesFrom(rules: Rules, now: Infos, p: Production, k: nat)
    requires forall i :: 0 <= i < |p| && p[i].NT? ==>
               p[i].name in now && RecordSound(rules, p[i].name, now[p[i].name])
               && now[p[i].name].expanded && now[p[i].name].minSteps <= k
    ensures AltDerives(rules, p, k)
  {
    forall i | 0 <= i < |p| && p[i].NT? ensures Derives(rules, p[i].name, k) {
      var m := p[i].name;
      DerivesMono(rules, m, now[m].minSteps, k);
    }
  }

  /** A choice that changes `x` sets it expanded, one level above every non-terminal of the choice, all of them expanded. */
  lemma ChoiceStepAbove(info: Infos, x: string, v: NTInfo, p: Production)
    requires x in info && ProdClosed(p, info.Keys) && !TerminalOnly(p)
    ensures var r := ChoiceStep(info, x, v, p);
            r != v ==>
              r.expanded &&
              forall i :: 0 <= i < |p| && p[i].NT? ==>
                info[x := v][p[i].name].expanded && info[x := v][p[i].name].minSteps < r.minSteps
  {
    var names := Collapsed(p);
    var now := info[x := v];
    var r := ChoiceStep(info, x, v, p);
    CollapsedIn(p, info.Keys);
    CollapsedFacts(p);
    ChoiceStepEffect(info, x, v, p);
    if r != v {
      if |names| > 1 {
        MaxStepsBounds(now, names);
      }
      forall i | 0 <= i < |p| && p[i].NT? ensures now[p[i].name].expanded && now[p[i].name].minSteps < r.minSteps {
        var m := p[i].name;
        assert Mentions(p, m);
        var j :| 0 <= j < |names| && names[j] == m;
      }
    }
  }

  lemma ChoiceStepSound(rules: Rules, info: Infos, x: string, v: NTInfo, a: nat)
    requires Fits(rules, info) && Sound1(rules, info) && x in info && RecordSound(rules, x, v)
    requires a < |rules[x]| && !TerminalOnly(rules[x][a])
    ensures RecordSound(rules, x, ChoiceStep(info, x, v, rules[x][a]))
  {
    var p := rules[x][a];
    var now := info[x := v];
    var r := ChoiceStep(info, x, v, p);
    ChoiceStepFrame(info, x, v, p);
    ChoiceStepAbove(info, x, v, p);
    if r != v {
      var k := r.minSteps;
      var i0 :| 0 <= i0 < |p| && p[i0].NT?;
      assert RecordSound(rules, p[i0].name, now[p[i0].name]);
      assert k >= 2;
      forall i | 0 <= i < |p| && p[i].NT? ensures Derives(rules, p[i].name, k - 1) {
        var m := p[i].name;
        var w := now[m];
        assert RecordSound(rules, m, w);
        assert w.expanded && w.minSteps <= k - 1;
        DerivesMono(rules, m, w.minSteps, k - 1);
      }
      assert AltDerives(rules, rules[x][a], k - 1);
      assert Derives(rules, x, k);
    }
  }

  lemma {:induction false} ChoicesFrame(info: Infos, x: string, v: NTInfo, alts: seq<Production>, k: nat)
    requires k <= |alts| && x in info && ChoicesFor(info, alts)
    ensures var r := Choices(info, x, v, alts, k);
            r == v.(minSteps := r.minSteps, expanded := r.expanded) && (v.expanded ==> r.expanded)
  {
    if k > 0 {
      ChoicesFrame(info, x, v, alts, k - 1);
      ChoiceStepFrame(info, x, Choices(info, x, v, alts, k - 1), alts[k - 1]);
    }
  }

  lemma {:induction false} ChoicesSound(rules: Rules, info: Infos, x: string, v: NTInfo, k: nat)
    requires Fits(rules, info) && Sound1(rules, info) && x in info && RecordSound(rules, x, v)
    requires k <= |rules[x]| && ChoicesFor(info, rules[x])
    ensures RecordSound(rules, x, Choices(info, x, v, rules[x], k))
  {
    if k > 0 {
      ChoicesSound(rules, info, x, v, k - 1);
      var w := Choices(info, x, v, rules[x], k - 1);
      assert RecordSound(rules, x, w);
      assert ProdClosed(rules[x][k - 1], info.Keys) && !TerminalOnly(rules[x][k - 1]);
      ChoiceStepSound(rules, info, x, w, k - 1);
    }
  }

  lemma TerminalDerives(rules: Rules, x: string, a: nat)
    requires x in rules && a < |rules[x]| && TerminalOnly(rules[x][a])
    ensures Derives(rules, x, 1)
  {
    assert AltDerives(rules, rules[x][a], 0);
  }

  /**
   * A visit touches only `x`'s record and sets its `b_factor`; an expanded
   * `x` is skipped otherwise, and an unexpanded one with a terminal-only
   * alternative gets `min_steps` 1.
   */
  lemma Visit1Frame(rules: Rules, info: Infos, x: string)
    requires Fits(rules, info) && x in info
    ensures Frame1(info, Visit1(rules, info, x), x)
    ensures Visit1(rules, info, x)[x].bFactor == |rules[x]|
    ensures info[x].expanded ==> Visit1(rules, info, x)[x] == info[x].(bFactor := |rules[x]|)
    ensures !info[x].expanded && HasTerminalChoice(rules[x]) ==>
              Visit1(rules, info, x)[x].expanded && Visit1(rules, info, x)[x].minSteps == 1
  {
    var alts := rules[x];
    var v := info[x].(bFactor := |alts|);
    if !v.expanded && !HasTerminalChoice(alts) {
      ChoicesFrame(info, x, v, alts, |alts|);
    }
  }

  /** A visit keeps pass 1's invariant. */
  lemma Visit1Sound(rules: Rules, info: Infos, x: string)
    requires Fits(rules, info) && Sound1(rules, info) && x in info
    ensures Sound1(rules, Visit1(rules, info, x))
  {
    var alts := rules[x];
    var v := info[x].(bFactor := |alts|);
    assert RecordSound(rules, x, info[x]);
    var r := Visit1(rules, info, x);
    if !v.expanded {
      if HasTerminalChoice(alts) {
        var a :| 0 <= a < |alts| && TerminalOnly(alts[a]);
        TerminalDerives(rules, x, a);
      } else {
        ChoicesSound(rules, info, x, v, |alts|);
      }
    }
    assert RecordSound(rules, x, r[x]);
  }

  lemma {:induction false} Sweep1Grows(rules: Rules, info: Infos, order: seq<string>, k: nat)
    requires Fits(rules, info) && k <= |order|
    requires forall i :: 0 <= i < |order| ==> order[i] in info
    ensures Grows1(info, Sweep1(rules, info, order, k))
  {
    if k > 0 {
      Sweep1Grows(rules, info, order, k - 1);
      var s := Sweep1(rules, info, order, k - 1);
      Visit1Frame(rules, s, order[k - 1]);
      Frame1Grows(s, Sweep1(rules, info, order, k), order[k - 1]);
      Grows1Trans(info, s, Sweep1(rules, info, order, k));
    }
  }

  lemma {:induction false} Rounds1Grows(rules: Rules, info: Infos, order: seq<string>, n: nat)
    requires Fits(rules, info) && forall i :: 0 <= i < |order| ==> order[i] in info
    ensures Grows1(info, Rounds1(rules, info, order, n))
  {
    if n > 0 {
      Rounds1Grows(rules, info, order, n - 1);
      var s := Rounds1(rules, info, order, n - 1);
      Sweep1Grows(rules, s, order, |order|);
      Grows1Trans(info, s, Rounds1(rules, info, order, n));
    }
  }

  lemma {:induction false} Sweep1Sound(rules: Rules, info: Infos, order: seq<string>, k: nat)
    requires Fits(rules, info) && Sound1(rules, info) && k <= |order|
    requires forall i :: 0 <= i < |order| ==> order[i] in info
    ensures Sound1(rules, Sweep1(rules, info, order, k))
  {
    if k > 0 {
      Sweep1Sound(rules, info, order, k - 1);
      Visit1Sound(rules, Sweep1(rules, info, order, k - 1), order[k - 1]);
    }
  }

  lemma {:induction false} Rounds1Sound(rules: Rules, info: Infos, order: seq<string>, n: nat)
    requires Fits(rules, info) && Sound1(rules, info)
    requires forall i :: 0 <= i < |order| ==> order[i] in info
    ensures Sound1(rules, Rounds1(rules, info, order, n))
  {
    if n > 0 {
      Rounds1Sound(rules, info, order, n - 1);
      Sweep1Sound(rules, Rounds1(rules, info, order, n - 1), order, |order|);
    }
  }

  /** A choice whose non-terminals are all expanded leaves `x` expanded. */
  lemma ChoiceStepExpands(info: Infos, x: string, v: NTInfo, p: Production)
    requires x in info && ProdClosed(p, info.Keys) && !TerminalOnly(p)
    requires forall i :: 0 <= i < |p| && p[i].NT? ==> info[x := v][p[i].name].expanded
    ensures ChoiceStep(info, x, v, p).expanded
  {
    CollapsedIn(p, info.Keys);
    CollapsedFacts(p);
    ChoiceStepEffect(info, x, v, p);
    ChoiceStepFrame(info, x, v, p);
    var names := Collapsed(p);
    forall j | 0 <= j < |names| ensures info[x := v][names[j]].expanded {
      assert Mentions(p, names[j]);
    }
  }

  lemma {:induction false} ChoicesExpand(info: Infos, x: string, v: NTInfo, alts: seq<Production>, k: nat, a: nat)
    requires x in info && a < k <= |alts| && ChoicesFor(info, alts)
    requires forall i :: 0 <= i < |alts[a]| && alts[a][i].NT? ==> alts[a][i].name != x && info[alts[a][i].name].expanded
    ensures Choices(info, x, v, alts, k).expanded
  {
    var w := Choices(info, x, v, alts, k - 1);
    assert Choices(info, x, v, alts, k) == ChoiceStep(info, x, w, alts[k - 1]);
    if a == k - 1 {
      var p := alts[a];
      var now := info[x := w];
      forall i | 0 <= i < |p| && p[i].NT? ensures now[p[i].name].expanded {
        assert p[i].name != x;
      }
      ChoiceStepExpands(info, x, w, p);
    } else {
      ChoicesExpand(info, x, v, alts, k - 1, a);
      ChoiceStepFrame(info, x, w, alts[k - 1]);
    }
  }

  /** Visiting a non-terminal that can be expanded within `k` levels, once all within `k - 1` are, expands it. */
  lemma Visit1Expands(rules: Rules, info: Infos, x: string, k: nat)
    requires Fits(rules, info) && x in info
    requires k >= 1 && Complete1(rules, info, k - 1) && Derives(rules, x, k)
    ensures Visit1(rules, info, x)[x].expanded
  {
    var alts := rules[x];
    var v := info[x].(bFactor := |alts|);
    if !v.expanded && !HasTerminalChoice(alts) {
      var a :| 0 <= a < |alts| && AltDerives(rules, alts[a], k - 1);
      var p := alts[a];
      forall i | 0 <= i < |p| && p[i].NT? ensures p[i].name != x && info[p[i].name].expanded {
        assert Derives(rules, p[i].name, k - 1);
        assert p[i].name in info;
      }
      ChoicesExpand(info, x, v, alts, |alts|, a);
    }
  }

  lemma {:induction false} Sweep1Complete(rules: Rules, info: Infos, order: seq<string>, k: nat, r: nat)
    requires Fits(rules, info) && k <= |order|
    requires forall i :: 0 <= i < |order| ==> order[i] in info
    requires r >= 1 && Complete1(rules, info, r - 1)
    ensures Complete1(rules, Sweep1(rules, info, order, k), r - 1)
    ensures forall i :: 0 <= i < k && Derives(rules, order[i], r) ==> Sweep1(rules, info, order, k)[order[i]].expanded
  {
    if k > 0 {
      Sweep1Complete(rules, info, order, k - 1, r);
      var s := Sweep1(rules, info, order, k - 1);
      Visit1Frame(rules, s, order[k - 1]);
      if Derives(rules, order[k - 1], r) {
        Visit1Expands(rules, s, order[k - 1], r);
      }
    }
  }

  /**
   * After `n` sweeps every non-terminal that can be fully expanded within
   * `n` levels is expanded.
   */
  lemma {:induction false} Rounds1Complete(rules: Rules, info: Infos, order: seq<string>, n: nat)
    requires Fits(rules, info) && Covers(order, info)
    ensures Complete1(rules, Rounds1(rules, info, order, n), n)
  {
    if n > 0 {
      Rounds1Complete(rules, info, order, n - 1);
      var s := Rounds1(rules, info, order, n - 1);
      Sweep1Complete(rules, s, order, |order|, n);
      var s' := Rounds1(rules, info, order, n);
      forall x | x in s' && Derives(rules, x, n) ensures s'[x].expanded {
        var i :| 0 <= i < |order| && order[i] == x;
      }
    }
  }

  /** Every record is the one the reader creates. */
  predicate AllFresh(info: Infos)
  {
    forall x :: x in info ==> info[x] == FreshInfo(x)
  }

  /**
   * Pass 1 from fresh records: expanded non-terminals have `min_steps` at
   * least 1 that some derivation meets, unexpanded ones keep the sentinel,
   * `expanded` never reverts, and every non-terminal with a complete
   * derivation of at most `len(non_terminals)` levels is expanded.
   */
  lemma Pass1Correct(rules: Rules, info: Infos, order: seq<string>)
    requires Fits(rules, info) && Covers(order, info) && AllFresh(info)
    ensures Sound1(rules, Pass1(rules, info, order))
    ensures Complete1(rules, Pass1(rules, info, order), |order|)
    ensures Grows1(info, Pass1(rules, info, order))
  {
    assert Sound1(rules, info) by {
      forall x | x in info ensures RecordSound(rules, x, info[x]) {
        assert info[x] == FreshInfo(x);
      }
    }
    Rounds1Sound(rules, info, order, |order|);
    Rounds1Complete(rules, info, order, |order|);
    Rounds1Grows(rules, info, order, |order|);
  }

  // ------------------------------------- pass 1: b_factor and terminal choices

  /** Every record's `b_factor` is the number of its alternatives. */
  predicate BFactorSet(rules: Rules, info: Infos)
    requires rules.Keys == info.Keys
  {
    forall x :: x in info ==> info[x].bFactor == |rules[x]|
  }

  /** A non-terminal with a terminal-only alternative that is expanded has `min_steps` 1. */
  predicate TerminalOne(rules: Rules, info: Infos)
    requires rules.Keys == info.Keys
  {
    forall x :: x in info && info[x].expanded && HasTerminalChoice(rules[x]) ==> info[x].minSteps == 1
  }

  lemma Visit1Facts(rules: Rules, info: Infos, x: string)
    requires Fits(rules, info) && TerminalOne(rules, info) && x in info
    ensures TerminalOne(rules, Visit1(rules, info, x))
  {
    var r := Visit1(rules, info, x);
    Visit1Frame(rules, info, x);
    forall y | y in r && r[y].expanded && HasTerminalChoice(rules[y]) ensures r[y].minSteps == 1 {
      if y != x {
        assert r[y] == info[y];
      } else if info[x].expanded {
        assert r[x].minSteps == info[x].minSteps;
      }
    }
  }

  lemma {:induction false} Sweep1TerminalOne(rules: Rules, info: Infos, order: seq<string>, k: nat)
    requires Fits(rules, info) && TerminalOne(rules, info) && k <= |order|
    requires forall i :: 0 <= i < |order| ==> order[i] in info
    ensures TerminalOne(rules, Sweep1(rules, info, order, k))
  {
    if k > 0 {
      Sweep1TerminalOne(rules, info, order, k - 1);
      Visit1Facts(rules, Sweep1(rules, info, order, k - 1), order[k - 1]);
    }
  }

  lemma {:induction false} Sweep1BFactor(rules: Rules, info: Infos, order: seq<string>, k: nat)
    requires Fits(rules, info) && k <= |order|
    requires forall i :: 0 <= i < |order| ==> order[i] in info
    ensures forall i :: 0 <= i < k ==> Sweep1(rules, info, order, k)[order[i]].bFactor == |rules[order[i]]|
    ensures BFactorSet(rules, info) ==> BFactorSet(rules, Sweep1(rules, info, order, k))
  {
    if k > 0 {
      Sweep1BFactor(rules, info, order, k - 1);
      var s := Sweep1(rules, info, order, k - 1);
      var s' := Sweep1(rules, info, order, k);
      Visit1Frame(rules, s, order[k - 1]);
      forall i | 0 <= i < k ensures s'[order[i]].bFactor == |rules[order[i]]| {
        if order[i] != order[k - 1] {
          assert s'[order[i]] == s[order[i]];
        }
      }
      if BFactorSet(rules, info) {
        forall y | y in s' ensures s'[y].bFactor == |rules[y]| {
          if y != order[k - 1] {
            assert s'[y] == s[y];
          }
        }
      }
    }
  }

  lemma {:induction false} Rounds1Facts(rules: Rules, info: Infos, order: seq<string>, n: nat)
    requires Fits(rules, info) && TerminalOne(rules, info) && Covers(order, info)
    ensures TerminalOne(rules, Rounds1(rules, info, order, n))
    ensures n >= 1 ==> BFactorSet(rules, Rounds1(rules, info, order, n))
  {
    if n > 0 {
      Rounds1Facts(rules, info, order, n - 1);
      var s := Rounds1(rules, info, order, n - 1);
      Sweep1TerminalOne(rules, s, order, |order|);
      Sweep1BFactor(rules, s, order, |order|);
      var s' := Rounds1(rules, info, order, n);
      forall x | x in s' ensures s'[x].bFactor == |rules[x]| {
        var i :| 0 <= i < |order| && order[i] == x;
      }
    }
  }

  /**
   * After pass 1 from fresh records over at least one non-terminal, every
   * `b_factor` is the number of alternatives, and a non-terminal with a
   * terminal-only alternative is expanded with `min_steps` 1.
   */
  lemma Pass1BFactorAndTerminals(rules: Rules, info: Infos, order: seq<string>)
    requires Fits(rules, info) && Covers(order, info) && AllFresh(info) && order != []
    ensures BFactorSet(rules, Pass1(rules, info, order))
    ensures forall x, a :: x in info && 0 <= a < |rules[x]| && TerminalOnly(rules[x][a]) ==>
              Pass1(rules, info, order)[x].expanded && Pass1(rules, info, order)[x].minSteps == 1
  {
    Rounds1Facts(rules, info, order, |order|);
    Pass1Correct(rules, info, order);
    forall x, a | x in info && 0 <= a < |rules[x]| && TerminalOnly(rules[x][a])
      ensures Pass1(rules, info, order)[x].expanded
    {
      TerminalDerives(rules, x, a);
      DerivesMono(rules, x, 1, |order|);
    }
  }

  // ================================================================ pass 2

  /** The number of non-terminal symbols among `p[..k]` (`len(temp)`). */
  function CountNTs(p: Production, k: nat): (r: nat)
    requires k <= |p|
    ensures r <= k
  {
    if k == 0 then 0 else CountNTs(p, k - 1) + (if p[k - 1].NT? then 1 else 0)
  }

  /** The number of those whose record is not recursive (`orary`). */
  function CountNonRecNTs(info: Infos, p: Production, k: nat): (r: nat)
    requires k <= |p| && ProdClosed(p, info.Keys)
    ensures r <= CountNTs(p, k)
  {
    if k == 0 then 0
    else CountNonRecNTs(info, p, k - 1) + (if p[k - 1].NT? && !info[p[k - 1].name].recursive then 1 else 0)
  }

  /** No non-terminal is counted exactly when there is none; all are counted non-recursive exactly when all are. */
  lemma {:induction false} CountNTsIff(info: Infos, p: Production, k: nat)
    requires k <= |p| && ProdClosed(p, info.Keys)
    ensures CountNTs(p, k) == 0 <==> forall i :: 0 <= i < k ==> p[i].T?
    ensures CountNonRecNTs(info, p, k) == CountNTs(p, k) <==> forall i :: 0 <= i < k && p[i].NT? ==> !info[p[i].name].recursive
  {
    if k > 0 {
      CountNTsIff(info, p, k - 1);
    }
  }

  /** A choice holding at least one non-terminal, none of them recursive. */
  predicate NonRecChoice(info: Infos, p: Production)
    requires ProdClosed(p, info.Keys)
  {
    CountNonRecNTs(info, p, |p|) == CountNTs(p, |p|) && CountNTs(p, |p|) > 0
  }

  /** The number of such choices among the first `k` (`nonrecurs`). */
  function CountNonRec(info: Infos, alts: seq<Production>, k: nat): (r: nat)
    requires k <= |alts| && forall a :: 0 <= a < |alts| ==> ProdClosed(alts[a], info.Keys)
  {
    if k == 0 then 0 else CountNonRec(info, alts, k - 1) + (if NonRecChoice(info, alts[k - 1]) then 1 else 0)
  }

  /** The record of `x` after pass 2's visit: a recursive `x` whose choices are all terminal-only or non-recursive by proxy stops being recursive. */
  function Record2(rules: Rules, info: Infos, x: string): NTInfo
    requires Fits(rules, info) && x in info
  {
    var v := info[x];
    if !v.recursive then v
    else
      var alts := rules[x];
      var terms := CountTerminalOnly(alts, |alts|);
      var nonrecurs := CountNonRec(info, alts, |alts|);
      if terms == |alts| then v.(recursive := false)
      else if terms + nonrecurs == |alts| then v.(recursive := false)
      else v
  }

  /** Pass 2's visit of `x`: only `x`'s record changes. */
  function Visit2(rules: Rules, info: Infos, x: string): (r: Infos)
    requires Fits(rules, info) && x in info
    ensures r.Keys == info.Keys
  {
    info[x := Record2(rules, info, x)]
  }

  function Sweep2(rules: Rules, info: Infos, order: seq<string>, k: nat): (r: Infos)
    requires Fits(rules, info) && k <= |order| && forall i :: 0 <= i < |order| ==> order[i] in info
    ensures r.Keys == info.Keys
  {
    if k == 0 then info else Visit2(rules, Sweep2(rules, info, order, k - 1), order[k - 1])
  }

  function Rounds2(rules: Rules, info: Infos, order: seq<string>, n: nat): (r: Infos)
    requires Fits(rules, info) && forall i :: 0 <= i < |order| ==> order[i] in info
    ensures r.Keys == info.Keys
  {
    if n == 0 then info else Sweep2(rules, Rounds2(rules, info, order, n - 1), order, |order|)
  }

  function Pass2(rules: Rules, info: Infos, order: seq<string>): (r: Infos)
    requires Fits(rules, info) && forall i :: 0 <= i < |order| ==> order[i] in info
    ensures r.Keys == info.Keys
  {
    Rounds2(rules, info, order, |order|)
  }

  // ------------------------------------------------- pass 2: the flip rule

  /** Every non-terminal of every alternative is already non-recursive. */
  predicate ChildrenNonRec(info: Infos, alts: seq<Production>)
    requires forall a :: 0 <= a < |alts| ==> ProdClosed(alts[a], info.Keys)
  {
    forall a, i :: 0 <= a < |alts| && 0 <= i < |alts[a]| && alts[a][i].NT? ==>
      alts[a][i].name in info && !info[alts[a][i].name].recursive
  }

  lemma {:induction false} CountChoices(info: Infos, alts: seq<Production>, k: nat)
    requires k <= |alts| && forall a :: 0 <= a < |alts| ==> ProdClosed(alts[a], info.Keys)
    ensures CountTerminalOnly(alts, k) + CountNonRec(info, alts, k) <= k
    ensures CountTerminalOnly(alts, k) + CountNonRec(info, alts, k) == k <==>
            forall a, i :: 0 <= a < k && 0 <= i < |alts[a]| && alts[a][i].NT? ==> !info[alts[a][i].name].recursive
  {
    if k > 0 {
      CountChoices(info, alts, k - 1);
      var p := alts[k - 1];
      CountNTsIff(info, p, |p|);
      assert TerminalOnly(p) ==> !NonRecChoice(info, p);
      assert TerminalOnly(p) || NonRecChoice(info, p) <==>
             forall i :: 0 <= i < |p| && p[i].NT? ==> !info[p[i].name].recursive;
    }
  }

  /**
   * A visit of a recursive `x` makes it non-recursive exactly when every
   * non-terminal of every alternative of `x` already is; the two counting
   * tests of the source together say no more than that. `recursive` never
   * turns true, and nothing else changes.
   */
  lemma Visit2Flip(rules: Rules, info: Infos, x: string)
    requires Fits(rules, info) && x in info
    ensures Visit2(rules, info, x)[x].recursive == (info[x].recursive && !ChildrenNonRec(info, rules[x]))
    ensures forall y :: y in info ==> Visit2(rules, info, x)[y] == info[y].(recursive := Visit2(rules, info, x)[y].recursive)
    ensures forall y :: y in info && y != x ==> Visit2(rules, info, x)[y] == info[y]
  {
    CountChoices(info, rules[x], |rules[x]|);
  }

  // -------------------------------------------------- pass 2: reference

  /** No chain of references starting at `x` has `k` links: every alternative's non-terminals allow fewer. */
  ghost predicate Acyclic(rules: Rules, x: string, k: nat)
    decreases k, 1
  {
    k >= 1 && x in rules && forall a :: 0 <= a < |rules[x]| ==> AltAcyclic(rules, rules[x][a], k - 1)
  }

  ghost predicate AltAcyclic(rules: Rules, p: Production, k: nat)
    decreases k, 2
  {
    forall i :: 0 <= i < |p| && p[i].NT? ==> Acyclic(rules, p[i].name, k)
  }

  lemma {:induction false} AcyclicMono(rules: Rules, x: string, k: nat, k': nat)
    requires Acyclic(rules, x, k) && k <= k'
    ensures Acyclic(rules, x, k')
    decreases k
  {
    forall a | 0 <= a < |rules[x]| ensures AltAcyclic(rules, rules[x][a], k' - 1) {
      var p := rules[x][a];
      assert AltAcyclic(rules, p, k - 1);
      forall i | 0 <= i < |p| && p[i].NT? ensures Acyclic(rules, p[i].name, k' - 1) {
        AcyclicMono(rules, p[i].name, k - 1, k' - 1);
      }
    }
  }

  /** `y` is reached from `x` through exactly `n` references. */
  ghost predicate Reaches(rules: Rules, x: string, y: string, n: nat)
    decreases n
  {
    n >= 1 && x in rules
    && exists a, i :: 0 <= a < |rules[x]| && 0 <= i < |rules[x][a]| && rules[x][a][i].NT?
                      && (if n == 1 then rules[x][a][i].name == y else Reaches(rules, rules[x][a][i].name, y, n - 1))
  }

  lemma {:induction false} AcyclicAlongPath(rules: Rules, x: string, y: string, k: nat, n: nat)
    requires Acyclic(rules, x, k) && Reaches(rules, x, y, n)
    ensures k > n && Acyclic(rules, y, k - n)
    decreases n
  {
    var a, i :| 0 <= a < |rules[x]| && 0 <= i < |rules[x][a]| && rules[x][a][i].NT?
                && (if n == 1 then rules[x][a][i].name == y else Reaches(rules, rules[x][a][i].name, y, n - 1));
    assert AltAcyclic(rules, rules[x][a], k - 1);
    if n > 1 {
      AcyclicAlongPath(rules, rules[x][a][i].name, y, k - 1, n - 1);
    }
  }

  /** A non-terminal with no long chains of references cannot reach itself. */
  lemma {:induction false} AcyclicNoCycle(rules: Rules, x: string, k: nat, n: nat)
    requires Acyclic(rules, x, k)
    ensures !Reaches(rules, x, x, n)
    decreases k
  {
    if Reaches(rules, x, x, n) {
      AcyclicAlongPath(rules, x, x, k, n);
      AcyclicNoCycle(rules, x, k - n, n);
    }
  }

  /** The invariant of pass 2 after `t` visits: a non-recursive record allows no chain of `t` references. */
  ghost predicate Sound2(rules: Rules, info: Infos, t: nat)
  {
    forall x :: x in info && !info[x].recursive ==> Acyclic(rules, x, t)
  }

  ghost predicate Complete2(rules: Rules, info: Infos, k: nat)
  {
    forall x :: x in info && Acyclic(rules, x, k) ==> !info[x].recursive
  }

  /** `recursive` only turns from true to false, and nothing else changes. */
  ghost predicate Shrinks2(a: Infos, b: Infos)
  {
    a.Keys == b.Keys && forall x :: x in a ==> b[x] == a[x].(recursive := b[x].recursive) && (!a[x].recursive ==> !b[x].recursive)
  }

  lemma Shrinks2Trans(a: Infos, b: Infos, c: Infos)
    requires Shrinks2(a, b) && Shrinks2(b, c)
    ensures Shrinks2(a, c)
  {
  }

  lemma Visit2Sound(rules: Rules, info: Infos, x: string, t: nat)
    requires Fits(rules, info) && x in info && Sound2(rules, info, t)
    ensures Sound2(rules, Visit2(rules, info, x), t + 1)
  {
    Visit2Flip(rules, info, x);
    var r := Visit2(rules, info, x);
    forall y | y in r && !r[y].recursive ensures Acyclic(rules, y, t + 1) {
      if !info[y].recursive {
        AcyclicMono(rules, y, t, t + 1);
      } else {
        assert y == x && ChildrenNonRec(info, rules[x]);
        forall a | 0 <= a < |rules[x]| ensures AltAcyclic(rules, rules[x][a], t) {
          var p := rules[x][a];
          forall i | 0 <= i < |p| && p[i].NT? ensures Acyclic(rules, p[i].name, t) {
            assert !info[p[i].name].recursive;
          }
        }
      }
    }
  }

  lemma {:induction false} Sweep2Sound(rules: Rules, info: Infos, order: seq<string>, k: nat, t: nat)
    requires Fits(rules, info) && k <= |order| && Sound2(rules, info, t)
    requires forall i :: 0 <= i < |order| ==> order[i] in info
    ensures Sound2(rules, Sweep2(rules, info, order, k), t + k)
  {
    if k > 0 {
      Sweep2Sound(rules, info, order, k - 1, t);
      Visit2Sound(rules, Sweep2(rules, info, order, k - 1), order[k - 1], t + k - 1);
    }
  }

  lemma {:induction false} Sweep2Shrinks(rules: Rules, info: Infos, order: seq<string>, k: nat)
    requires Fits(rules, info) && k <= |order|
    requires forall i :: 0 <= i < |order| ==> order[i] in info
    ensures Shrinks2(info, Sweep2(rules, info, order, k))
  {
    if k > 0 {
      Sweep2Shrinks(rules, info, order, k - 1);
      var s := Sweep2(rules, info, order, k - 1);
      Visit2Flip(rules, s, order[k - 1]);
      Shrinks2Trans(info, s, Sweep2(rules, info, order, k));
    }
  }

  /** The number of visits made by `n` rounds over `m` keys, counted one round at a time. */
  function VisitCount(n: nat, m: nat): nat
  {
    if n == 0 then 0 else VisitCount(n - 1, m) + m
  }

  lemma {:induction false} VisitCountProduct(n: nat, m: nat)
    ensures VisitCount(n, m) == n * m
  {
    if n > 0 {
      VisitCountProduct(n - 1, m);
      assert (n - 1) * m + m == n * m;
    }
  }

  lemma {:induction false} Rounds2Sound(rules: Rules, info: Infos, order: seq<string>, n: nat)
    requires Fits(rules, info) && Sound2(rules, info, 0)
    requires forall i :: 0 <= i < |order| ==> order[i] in info
    ensures Sound2(rules, Rounds2(rules, info, order, n), VisitCount(n, |order|))
  {
    if n > 0 {
      Rounds2Sound(rules, info, order, n - 1);
      Sweep2Sound(rules, Rounds2(rules, info, order, n - 1), order, |order|, VisitCount(n - 1, |order|));
    }
  }

  lemma {:induction false} Rounds2Shrinks(rules: Rules, info: Infos, order: seq<string>, n: nat)
    requires Fits(rules, info)
    requires forall i :: 0 <= i < |order| ==> order[i] in info
    ensures Shrinks2(info, Rounds2(rules, info, order, n))
  {
    if n > 0 {
      Rounds2Shrinks(rules, info, order, n - 1);
      var s := Rounds2(rules, info, order, n - 1);
      Sweep2Shrinks(rules, s, order, |order|);
      Shrinks2Trans(info, s, Rounds2(rules, info, order, n));
    }
  }

  lemma Visit2Completes(rules: Rules, info: Infos, x: string, k: nat)
    requires Fits(rules, info) && x in info && k >= 1 && Complete2(rules, info, k - 1) && Acyclic(rules, x, k)
    ensures !Visit2(rules, info, x)[x].recursive
  {
    Visit2Flip(rules, info, x);
    forall a, i | 0 <= a < |rules[x]| && 0 <= i < |rules[x][a]| && rules[x][a][i].NT?
      ensures !info[rules[x][a][i].name].recursive
    {
      assert AltAcyclic(rules, rules[x][a], k - 1);
    }
  }

  lemma {:induction false} Sweep2Complete(rules: Rules, info: Infos, order: seq<string>, k: nat, r: nat)
    requires Fits(rules, info) && k <= |order| && r >= 1 && Complete2(rules, info, r - 1)
    requires forall i :: 0 <= i < |order| ==> order[i] in info
    ensures Complete2(rules, Sweep2(rules, info, order, k), r - 1)
    ensures forall i :: 0 <= i < k && Acyclic(rules, order[i], r) ==> !Sweep2(rules, info, order, k)[order[i]].recursive
  {
    if k > 0 {
      Sweep2Complete(rules, info, order, k - 1, r);
      var s := Sweep2(rules, info, order, k - 1);
      var s' := Sweep2(rules, info, order, k);
      Visit2Flip(rules, s, order[k - 1]);
      if Acyclic(rules, order[k - 1], r) {
        Visit2Completes(rules, s, order[k - 1], r);
      }
      forall i | 0 <= i < k && Acyclic(rules, order[i], r) ensures !s'[order[i]].recursive {
        if order[i] != order[k - 1] {
          assert s'[order[i]] == s[order[i]];
        }
      }
    }
  }

  lemma {:induction false} Rounds2Complete(rules: Rules, info: Infos, order: seq<string>, n: nat)
    requires Fits(rules, info) && Covers(order, info)
    ensures Complete2(rules, Rounds2(rules, info, order, n), n)
  {
    if n > 0 {
      Rounds2Complete(rules, info, order, n - 1);
      var s := Rounds2(rules, info, order, n - 1);
      Sweep2Complete(rules, s, order, |order|, n);
      var s' := Rounds2(rules, info, order, n);
      forall x | x in s' && Acyclic(rules, x, n) ensures !s'[x].recursive {
        var i :| 0 <= i < |order| && order[i] == x;
      }
    } else {
      forall x | x in info ensures !Acyclic(rules, x, 0) {
      }
    }
  }

  /**
   * Pass 2 starting with every record recursive: a record it marks
   * non-recursive belongs to a non-terminal that cannot reach itself, every
   * non-terminal without chains of `len(non_terminals)` references is marked,
   * and only `recursive` changes, from true to false.
   */
  lemma Pass2Correct(rules: Rules, info: Infos, order: seq<string>)
    requires Fits(rules, info) && Covers(order, info)
    requires forall x :: x in info ==> info[x].recursive
    ensures forall x :: x in info && !Pass2(rules, info, order)[x].recursive ==>
              Acyclic(rules, x, |order| * |order|) && forall n :: !Reaches(rules, x, x, n)
    ensures Complete2(rules, Pass2(rules, info, order), |order|)
    ensures Shrinks2(info, Pass2(rules, info, order))
  {
    Rounds2Sound(rules, info, order, |order|);
    Rounds2Shrinks(rules, info, order, |order|);
    VisitCountProduct(|order|, |order|);
    Rounds2Complete(rules, info, order, |order|);
    forall x | x in info && !Pass2(rules, info, order)[x].recursive
      ensures Acyclic(rules, x, |order| * |order|) && forall n :: !Reaches(rules, x, x, n)
    {
      forall n: nat ensures !Reaches(rules, x, x, n) {
        AcyclicNoCycle(rules, x, |order| * |order|, n);
      }
    }
  }

  // ============================================ both passes: the fixed points

  /*
   * Both passes stop after `len(non_terminals)` sweeps. That is enough
   * because the non-terminals derivable within `k` levels (and those
   * without chains of `k` references) form a growing family of subsets of
   * the keys that, once two neighbouring levels agree, never changes again;
   * so it is settled by the level that equals the number of keys.
   */

  /** The keys that some derivation completes within `k` levels. */
  ghost function DerivableWithin(rules: Rules, k: nat): set<string>
  {
    set x | x in rules.Keys && Derives(rules, x, k)
  }

  /** The keys from which no chain of references has `k` links. */
  ghost function AcyclicWithin(rules: Rules, k: nat): set<string>
  {
    set x | x in rules.Keys && Acyclic(rules, x, k)
  }

  /** Some derivation of `x` completes, at whatever depth. */
  ghost predicate Derivable(rules: Rules, x: string)
  {
    exists k: nat :: Derives(rules, x, k)
  }

  /** The chains of references from `x` are bounded in length. */
  ghost predicate ChainsBounded(rules: Rules, x: string)
  {
    exists k: nat :: Acyclic(rules, x, k)
  }

  /** Any set of keys all listed in `order` has at most `|order|` elements. */
  lemma {:induction false} ListedBound(keys: set<string>, order: seq<string>)
    requires forall x :: x in keys ==> x in order
    ensures |keys| <= |order|
    decreases |order|
  {
    if order != [] {
      var rest := keys - {order[0]};
      forall x | x in rest ensures x in order[1..] {
        var i :| 0 <= i < |order| && order[i] == x;
        assert order[1..][i - 1] == x;
      }
      ListedBound(rest, order[1..]);
    }
  }

  /** A proper subset is smaller. */
  lemma ProperSubsetSize(a: set<string>, b: set<string>)
    requires a < b
    ensures |a| < |b|
  {
    assert b == a + (b - a);
    if b - a == {} {
      assert false;
    }
  }

  lemma DerivableGrows(rules: Rules, k: nat)
    ensures DerivableWithin(rules, k) <= DerivableWithin(rules, k + 1)
  {
    forall x | x in DerivableWithin(rules, k) ensures x in DerivableWithin(rules, k + 1) {
      DerivesMono(rules, x, k, k + 1);
    }
  }

  /** Two neighbouring levels that agree make the next level agree too. */
  lemma DerivableSettles(rules: Rules, k: nat)
    requires DerivableWithin(rules, k) == DerivableWithin(rules, k + 1)
    ensures DerivableWithin(rules, k + 1) == DerivableWithin(rules, k + 2)
  {
    forall y ensures Derives(rules, y, k) <==> Derives(rules, y, k + 1) {
      if Derives(rules, y, k + 1) {
        assert y in DerivableWithin(rules, k + 1);
      } else if Derives(rules, y, k) {
        DerivesMono(rules, y, k, k + 1);
      }
    }
    var k1, k2 := k + 1, k + 2;
    forall x ensures Derives(rules, x, k1) <==> Derives(rules, x, k2) {
      if x in rules {
        forall a | 0 <= a < |rules[x]| ensures AltDerives(rules, rules[x][a], k) <==> AltDerives(rules, rules[x][a], k1) {
        }
      }
    }
  }

  /** Every level up to `m + 1` added a key when level `m` and level `m + 1` differ. */
  lemma {:induction false} DerivableCount(rules: Rules, m: nat)
    requires DerivableWithin(rules, m) != DerivableWithin(rules, m + 1)
    ensures |DerivableWithin(rules, m + 1)| >= m + 1
  {
    DerivableGrows(rules, m);
    if m > 0 {
      if DerivableWithin(rules, m - 1) == DerivableWithin(rules, m) {
        DerivableSettles(rules, m - 1);
      }
      DerivableCount(rules, m - 1);
    }
    ProperSubsetSize(DerivableWithin(rules, m), DerivableWithin(rules, m + 1));
  }

  /**
   * A non-terminal that some derivation completes at all is completed within
   * as many levels as there are keys.
   */
  lemma {:induction false} DerivesWithinKeys(rules: Rules, x: string, k: nat)
    requires Derives(rules, x, k)
    ensures Derives(rules, x, |rules.Keys|)
  {
    var n := |rules.Keys|;
    if k <= n {
      DerivesMono(rules, x, k, n);
    } else {
      DerivableSettled(rules);
      DerivableFrom(rules, n, k);
      assert x in DerivableWithin(rules, k);
    }
  }

  /** By the level that equals the number of keys, the family of derivable keys has settled. */
  lemma DerivableSettled(rules: Rules)
    ensures DerivableWithin(rules, |rules.Keys|) == DerivableWithin(rules, |rules.Keys| + 1)
  {
    var n := |rules.Keys|;
    if DerivableWithin(rules, n) != DerivableWithin(rules, n + 1) {
      DerivableCount(rules, n);
      if DerivableWithin(rules, n + 1) != rules.Keys {
        ProperSubsetSize(DerivableWithin(rules, n + 1), rules.Keys);
      }
      assert false;
    }
  }

  /** A level that agrees with the next one agrees with every later one. */
  lemma {:induction false} DerivableFrom(rules: Rules, n: nat, k: nat)
    requires DerivableWithin(rules, n) == DerivableWithin(rules, n + 1) && n <= k
    ensures DerivableWithin(rules, k) == DerivableWithin(rules, n)
    decreases k - n
  {
    if k > n {
      DerivableSettles(rules, n);
      DerivableFrom(rules, n + 1, k);
    }
  }

  lemma AcyclicGrows(rules: Rules, k: nat)
    ensures AcyclicWithin(rules, k) <= AcyclicWithin(rules, k + 1)
  {
    forall x | x in AcyclicWithin(rules, k) ensures x in AcyclicWithin(rules, k + 1) {
      AcyclicMono(rules, x, k, k + 1);
    }
  }

  /** Two neighbouring levels that agree make the next level agree too. */
  lemma AcyclicSettles(rules: Rules, k: nat)
    requires AcyclicWithin(rules, k) == AcyclicWithin(rules, k + 1)
    ensures AcyclicWithin(rules, k + 1) == AcyclicWithin(rules, k + 2)
  {
    forall y ensures Acyclic(rules, y, k) <==> Acyclic(rules, y, k + 1) {
      if Acyclic(rules, y, k + 1) {
        assert y in AcyclicWithin(rules, k + 1);
      } else if Acyclic(rules, y, k) {
        AcyclicMono(rules, y, k, k + 1);
      }
    }
    var k1, k2 := k + 1, k + 2;
    forall x ensures Acyclic(rules, x, k1) <==> Acyclic(rules, x, k2) {
      if x in rules {
        forall a | 0 <= a < |rules[x]| ensures AltAcyclic(rules, rules[x][a], k) <==> AltAcyclic(rules, rules[x][a], k1) {
        }
      }
    }
  }

  lemma {:induction false} AcyclicCount(rules: Rules, m: nat)
    requires AcyclicWithin(rules, m) != AcyclicWithin(rules, m + 1)
    ensures |AcyclicWithin(rules, m + 1)| >= m + 1
  {
    AcyclicGrows(rules, m);
    if m > 0 {
      if AcyclicWithin(rules, m - 1) == AcyclicWithin(rules, m) {
        AcyclicSettles(rules, m - 1);
      }
      AcyclicCount(rules, m - 1);
    }
    ProperSubsetSize(AcyclicWithin(rules, m), AcyclicWithin(rules, m + 1));
  }

  lemma {:induction false} AcyclicFrom(rules: Rules, n: nat, k: nat)
    requires AcyclicWithin(rules, n) == AcyclicWithin(rules, n + 1) && n <= k
    ensures AcyclicWithin(rules, k) == AcyclicWithin(rules, n)
    decreases k - n
  {
    if k > n {
      AcyclicSettles(rules, n);
      AcyclicFrom(rules, n + 1, k);
    }
  }

  /**
   * A non-terminal whose chains of references are bounded at all has no
   * chain with as many links as there are keys.
   */
  lemma {:induction false} AcyclicWithinKeys(rules: Rules, x: string, k: nat)
    requires Acyclic(rules, x, k)
    ensures Acyclic(rules, x, |rules.Keys|)
  {
    var n := |rules.Keys|;
    if k <= n {
      AcyclicMono(rules, x, k, n);
    } else {
      AcyclicSettled(rules);
      AcyclicFrom(rules, n, k);
      assert x in AcyclicWithin(rules, k);
    }
  }

  /** By the level that equals the number of keys, the family of chain-bounded keys has settled. */
  lemma AcyclicSettled(rules: Rules)
    ensures AcyclicWithin(rules, |rules.Keys|) == AcyclicWithin(rules, |rules.Keys| + 1)
  {
    var n := |rules.Keys|;
    if AcyclicWithin(rules, n) != AcyclicWithin(rules, n + 1) {
      AcyclicCount(rules, n);
      if AcyclicWithin(rules, n + 1) != rules.Keys {
        ProperSubsetSize(AcyclicWithin(rules, n + 1), rules.Keys);
      }
      assert false;
    }
  }

  /** Some non-terminal reachable from `x`, or `x` itself, reaches itself. */
  ghost predicate CycleReachable(rules: Rules, x: string)
  {
    exists y: string, n: nat, m: nat :: (y == x || Reaches(rules, x, y, n)) && Reaches(rules, y, y, m)
  }

  lemma {:induction false} ReachesSnoc(rules: Rules, a: string, b: string, c: string, n: nat)
    requires Reaches(rules, a, b, n) && Reaches(rules, b, c, 1)
    ensures Reaches(rules, a, c, n + 1)
    decreases n
  {
    var p, i :| 0 <= p < |rules[a]| && 0 <= i < |rules[a][p]| && rules[a][p][i].NT?
                && (if n == 1 then rules[a][p][i].name == b else Reaches(rules, rules[a][p][i].name, b, n - 1));
    if n > 1 {
      ReachesSnoc(rules, rules[a][p][i].name, b, c, n - 1);
    }
    assert Reaches(rules, rules[a][p][i].name, c, n);
  }

  /** A key with chains of every length refers to another such key (on closed rules). */
  lemma UnboundedSuccessor(rules: Rules, y: string) returns (z: string)
    requires Closed(rules) && y in rules && !Acyclic(rules, y, |rules.Keys|)
    ensures z in rules && !Acyclic(rules, z, |rules.Keys|) && Reaches(rules, y, z, 1)
  {
    var n := |rules.Keys|;
    AcyclicSettled(rules);
    assert y !in AcyclicWithin(rules, n);
    assert !Acyclic(rules, y, n + 1);
    var a :| 0 <= a < |rules[y]| && !AltAcyclic(rules, rules[y][a], n);
    var i :| 0 <= i < |rules[y][a]| && rules[y][a][i].NT? && !Acyclic(rules, rules[y][a][i].name, n);
    z := rules[y][a][i].name;
    assert ProdClosed(rules[y][a], rules.Keys);
  }

  /** A walk of `n` references from a key with chains of every length. */
  lemma {:induction false} UnboundedWalk(rules: Rules, x: string, n: nat) returns (path: seq<string>)
    requires Closed(rules) && x in rules && !Acyclic(rules, x, |rules.Keys|)
    ensures |path| == n + 1 && path[0] == x
    ensures forall j :: 0 <= j < |path| ==> path[j] in rules
    ensures forall j :: 0 <= j < n ==> Reaches(rules, path[j], path[j + 1], 1)
    decreases n
  {
    if n == 0 {
      path := [x];
    } else {
      var z := UnboundedSuccessor(rules, x);
      var rest := UnboundedWalk(rules, z, n - 1);
      path := [x] + rest;
      forall j | 0 <= j < n ensures Reaches(rules, path[j], path[j + 1], 1) {
        if j > 0 {
          assert path[j] == rest[j - 1] && path[j + 1] == rest[j];
        }
      }
    }
  }

  lemma {:induction false} PathReaches(rules: Rules, path: seq<string>, i: nat, j: nat)
    requires i < j < |path|
    requires forall k :: 0 <= k < |path| - 1 ==> Reaches(rules, path[k], path[k + 1], 1)
    ensures Reaches(rules, path[i], path[j], j - i)
    decreases j
  {
    if j > i + 1 {
      PathReaches(rules, path, i, j - 1);
      ReachesSnoc(rules, path[i], path[j - 1], path[j], j - 1 - i);
    }
  }

  /** A sequence without repeats drawn from `keys` is no longer than `keys` has elements. */
  lemma {:induction false} NoRepeatsBound(s: seq<string>, keys: set<string>)
    requires forall k :: 0 <= k < |s| ==> s[k] in keys
    requires forall i, j :: 0 <= i < j < |s| ==> s[i] != s[j]
    ensures |s| <= |keys|
  {
    if s != [] {
      forall k | 0 <= k < |s| - 1 ensures s[1..][k] in keys - {s[0]} {
        assert s[1..][k] == s[k + 1];
      }
      NoRepeatsBound(s[1..], keys - {s[0]});
    }
  }

  /**
   * On closed rules, the chains of references from a key are bounded in
   * length exactly when no cycle can be reached from it.
   */
  lemma ChainsBoundedIffNoCycle(rules: Rules, x: string)
    requires Closed(rules) && x in rules
    ensures ChainsBounded(rules, x) <==> !CycleReachable(rules, x)
  {
    if ChainsBounded(rules, x) {
      var k: nat :| Acyclic(rules, x, k);
      if CycleReachable(rules, x) {
        var y: string, n: nat, m: nat :| (y == x || Reaches(rules, x, y, n)) && Reaches(rules, y, y, m);
        if y == x {
          AcyclicNoCycle(rules, x, k, m);
        } else {
          AcyclicAlongPath(rules, x, y, k, n);
          AcyclicNoCycle(rules, y, k - n, m);
        }
        assert false;
      }
    } else {
      var n := |rules.Keys|;
      var path := UnboundedWalk(rules, x, n);
      if forall i, j :: 0 <= i < j < |path| ==> path[i] != path[j] {
        NoRepeatsBound(path, rules.Keys);
        assert false;
      }
      var i, j :| 0 <= i < j < |path| && path[i] == path[j];
      PathReaches(rules, path, i, j);
      if i > 0 {
        PathReaches(rules, path, 0, i);
      }
      assert (path[i] == x || Reaches(rules, x, path[i], i)) && Reaches(rules, path[i], path[i], j - i);
    }
  }

  /** Records sound and complete up to a level at least the number of keys are exact. */
  lemma ExpandedExactly(rules: Rules, r: Infos, n: nat)
    requires Sound1(rules, r) && Complete1(rules, r, n) && |rules.Keys| <= n
    ensures forall x :: x in r ==> (r[x].expanded <==> Derivable(rules, x))
  {
    forall x | x in r ensures r[x].expanded <==> Derivable(rules, x) {
      if r[x].expanded {
        assert RecordSound(rules, x, r[x]);
        var m: nat := r[x].minSteps;
        assert Derives(rules, x, m);
        assert Derivable(rules, x);
      } else if k :| Derives(rules, x, k) {
        DerivesWithinKeys(rules, x, k);
        DerivesMono(rules, x, |rules.Keys|, n);
      }
    }
  }

  /**
   * Pass 1 from fresh records expands exactly the non-terminals that some
   * derivation completes, whatever its depth.
   */
  lemma Pass1Exact(rules: Rules, info: Infos, order: seq<string>)
    requires Fits(rules, info) && Covers(order, info) && AllFresh(info)
    ensures forall x :: x in info ==> (Pass1(rules, info, order)[x].expanded <==> Derivable(rules, x))
  {
    Pass1Correct(rules, info, order);
    ListedBound(rules.Keys, order);
    ExpandedExactly(rules, Pass1(rules, info, order), |order|);
  }

  /** Records sound at some level and complete up to one at least the number of keys are exact. */
  lemma NonRecursiveExactly(rules: Rules, r: Infos, t: nat, n: nat)
    requires Sound2(rules, r, t) && Complete2(rules, r, n) && |rules.Keys| <= n
    ensures forall x :: x in r ==> (!r[x].recursive <==> ChainsBounded(rules, x))
  {
    forall x | x in r ensures !r[x].recursive <==> ChainsBounded(rules, x) {
      if !r[x].recursive {
        assert Acyclic(rules, x, t);
        assert ChainsBounded(rules, x);
      } else if k :| Acyclic(rules, x, k) {
        AcyclicWithinKeys(rules, x, k);
        AcyclicMono(rules, x, |rules.Keys|, n);
      }
    }
  }

  /**
   * Pass 2 with every record recursive clears `recursive` exactly for the
   * non-terminals whose chains of references are bounded in length, which
   * are exactly those from which no cycle can be reached.
   */
  lemma Pass2Exact(rules: Rules, info: Infos, order: seq<string>)
    requires Fits(rules, info) && Covers(order, info)
    requires forall x :: x in info ==> info[x].recursive
    ensures forall x :: x in info ==> (!Pass2(rules, info, order)[x].recursive <==> ChainsBounded(rules, x))
    ensures forall x :: x in info ==> (!Pass2(rules, info, order)[x].recursive <==> !CycleReachable(rules, x))
  {
    Pass2Correct(rules, info, order);
    ListedBound(rules.Keys, order);
    NonRecursiveExactly(rules, Pass2(rules, info, order), |order| * |order|, |order|);
    forall x | x in info ensures ChainsBounded(rules, x) <==> !CycleReachable(rules, x) {
      ChainsBoundedIffNoCycle(rules, x);
    }
  }

  // ============================================================ post-pass

  /** The largest `min_steps` among the first `k` keys, from 0 (`max_arity`). */
  function MaxArity(info: Infos, order: seq<string>, k: nat): int
    requires k <= |order| && forall i :: 0 <= i < |order| ==> order[i] in info
  {
    if k == 0 then 0
    else
      var m := MaxArity(info, order, k - 1);
      if info[order[k - 1]].minSteps > m then info[order[k - 1]].minSteps else m
  }

  /** `max_arity` is 0 or some key's `min_steps`, at least 0 and at least every key's. */
  lemma {:induction false} MaxArityBounds(info: Infos, order: seq<string>, k: nat)
    requires k <= |order| && forall i :: 0 <= i < |order| ==> order[i] in info
    ensures MaxArity(info, order, k) >= 0
    ensures forall i :: 0 <= i < k ==> info[order[i]].minSteps <= MaxArity(info, order, k)
    ensures MaxArity(info, order, k) == 0 || exists i :: 0 <= i < k && info[order[i]].minSteps == MaxArity(info, order, k)
  {
    if k > 0 {
      MaxArityBounds(info, order, k - 1);
    }
  }

  /** Which field the annotation loops append. */
  datatype NoteKind = StepsNote | RecNote

  function NoteOf(v: NTInfo, kind: NoteKind): Note
  {
    match kind
    case StepsNote => Steps(v.minSteps)
    case RecNote => Rec(v.recursive)
  }

  /** One symbol after an annotation loop: a non-terminal gets its record's field appended. */
  function NoteSymbol(info: Infos, s: Symbol, kind: NoteKind): Symbol
    requires s.NT? ==> s.name in info
  {
    if s.T? then s else NT(s.name, s.notes + [NoteOf(info[s.name], kind)])
  }

  function NoteProduction(info: Infos, p: Production, kind: NoteKind): (r: Production)
    requires ProdClosed(p, info.Keys)
    ensures |r| == |p|
  {
    seq(|p|, i requires 0 <= i < |p| => NoteSymbol(info, p[i], kind))
  }

  function NoteAlts(info: Infos, alts: seq<Production>, kind: NoteKind): (r: seq<Production>)
    requires forall a :: 0 <= a < |alts| ==> ProdClosed(alts[a], info.Keys)
    ensures |r| == |alts|
  {
    seq(|alts|, a requires 0 <= a < |alts| => NoteProduction(info, alts[a], kind))
  }

  /** The rules after one annotation loop: same keys, and still naming only defined non-terminals. */
  function NoteRules(rules: Rules, info: Infos, kind: NoteKind): (r: Rules)
    requires Fits(rules, info)
    ensures r.Keys == rules.Keys && Fits(r, info)
  {
    var r := map n | n in rules :: NoteAlts(info, rules[n], kind);
    assert Closed(r) by {
      forall n, a | n in r && 0 <= a < |r[n]| ensures ProdClosed(r[n][a], r.Keys) {
        assert ProdClosed(rules[n][a], rules.Keys);
      }
    }
    r
  }

  /** The rules after both annotation loops: `min_steps` first, then `recursive`. */
  function Annotate(rules: Rules, info: Infos): (r: Rules)
    requires Fits(rules, info)
    ensures r.Keys == rules.Keys && Fits(r, info)
  {
    NoteRules(NoteRules(rules, info, StepsNote), info, RecNote)
  }

  /**
   * After annotation the rules have the same keys, alternatives and symbols;
   * terminals are untouched and every non-terminal occurrence carries its
   * notes followed by exactly its record's `min_steps` and `recursive`.
   */
  lemma AnnotateEffect(rules: Rules, info: Infos)
    requires Fits(rules, info)
    ensures var r := Annotate(rules, info);
            r.Keys == rules.Keys
            && forall n :: n in rules ==>
                 |r[n]| == |rules[n]|
                 && forall a :: 0 <= a < |rules[n]| ==>
                      |r[n][a]| == |rules[n][a]|
                      && forall i :: 0 <= i < |rules[n][a]| ==>
                           var s := rules[n][a][i];
                           r[n][a][i] == (if s.T? then s
                                          else NT(s.name, s.notes + [Steps(info[s.name].minSteps), Rec(info[s.name].recursive)]))
  {
    var once: Rules := NoteRules(rules, info, StepsNote);
    forall n, a, i | n in rules && 0 <= a < |rules[n]| && 0 <= i < |rules[n][a]| && rules[n][a][i].NT?
      ensures once[n][a][i].notes + [Rec(info[rules[n][a][i].name].recursive)]
              == rules[n][a][i].notes + [Steps(info[rules[n][a][i].name].minSteps), Rec(info[rules[n][a][i].name].recursive)]
    {
    }
  }
}

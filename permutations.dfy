/**
 * The derivation-tree counts (`check_all_permutations` and
 * `check_permutations`, src/representation/grammar.py:180-256) as functions.
 *
 * `ProdCount(p, i)` is the value the source stores for production `p` at
 * level `i` of its table: the product, over the non-terminals of `p`, of
 * the number of ways to expand each within `i - 1` levels, where a child
 * alternative counts 1 when it is a single terminal and otherwise its own
 * level `i - 1` entry (none exists below level 2). `GrammarCount(d)` sums
 * these over the start rule's alternatives. The tables are keyed by the
 * productions' contents, as the source's `str(prod)` keys are.
 */
module Permutations {
  import opened Common
  import opened Symbols
  import opened Depths

  /** The source's test for a child that counts once: one symbol whose label is a known terminal text. */
  predicate SingleTerminal(c: Production, terminals: seq<string>)
  {
    |c| == 1 && Label(c[0]) in terminals
  }

  /** That test agrees with "terminals only" on every alternative; the reader's tables satisfy this. */
  predicate ShapedTerminals(rules: Rules, terminals: seq<string>)
  {
    forall x, a :: x in rules && 0 <= a < |rules[x]| ==>
      (SingleTerminal(rules[x][a], terminals) <==> TerminalOnly(rules[x][a]))
  }

  // ---------------------------------------------------------- the recurrence

  /** The table entry of production `p` at level `i` (`depthPerSymbolTrees[str(p)][i]`). */
  function ProdCount(rules: Rules, terminals: seq<string>, p: Production, i: nat): nat
    requires Closed(rules) && ProdClosed(p, rules.Keys) && i >= 1
    decreases i, 2, 0
  {
    ProductOver(rules, terminals, p, |p|, i)
  }

  /** The product of the ways of the non-terminals among the first `k` symbols of `p` (`symPos`). */
  function ProductOver(rules: Rules, terminals: seq<string>, p: Production, k: nat, i: nat): nat
    requires Closed(rules) && ProdClosed(p, rules.Keys) && k <= |p| && i >= 1
    decreases i, 1, k
  {
    if k == 0 then 1
    else if p[k - 1].NT? then
      var alts := rules[p[k - 1].name];
      ProductOver(rules, terminals, p, k - 1, i) * Ways(rules, terminals, alts, |alts|, i)
    else ProductOver(rules, terminals, p, k - 1, i)
  }

  /** The ways to expand a non-terminal whose alternatives are `alts`, over the first `k` (`symbolArityPos`). */
  function Ways(rules: Rules, terminals: seq<string>, alts: seq<Production>, k: nat, i: nat): nat
    requires Closed(rules) && (forall a :: 0 <= a < |alts| ==> ProdClosed(alts[a], rules.Keys))
    requires k <= |alts| && i >= 1
    decreases i, 0, k
  {
    if k == 0 then 0
    else Ways(rules, terminals, alts, k - 1, i) + ChildCount(rules, terminals, alts[k - 1], i - 1)
  }

  /** What one child alternative adds at level `d`: 1 for a single terminal, else its entry at `d` if it has one. */
  function ChildCount(rules: Rules, terminals: seq<string>, c: Production, d: nat): nat
    requires Closed(rules) && ProdClosed(c, rules.Keys)
    decreases d, 3, 0
  {
    if SingleTerminal(c, terminals) then 1
    else if d >= 2 then ProdCount(rules, terminals, c, d)
    else 0
  }

  /** The count over the first `k` start alternatives: 1 for a terminal-only one, else its entry at `depth` if any. */
  function StartWays(rules: Rules, terminals: seq<string>, alts: seq<Production>, k: nat, depth: int): nat
    requires Closed(rules) && (forall a :: 0 <= a < |alts| ==> ProdClosed(alts[a], rules.Keys))
    requires k <= |alts|
  {
    if k == 0 then 0
    else
      StartWays(rules, terminals, alts, k - 1, depth)
      + (if TerminalOnly(alts[k - 1]) then 1
         else if depth >= 2 then ProdCount(rules, terminals, alts[k - 1], depth)
         else 0)
  }

  /** The number `check_all_permutations(depth)` computes from an empty memo. */
  function GrammarCount(rules: Rules, terminals: seq<string>, start: string, depth: int): nat
    requires Closed(rules) && start in rules
  {
    StartWays(rules, terminals, rules[start], |rules[start]|, depth)
  }

  // ------------------------------------------------------ growth with depth

  lemma MulMono(a: nat, b: nat, a': nat, b': nat)
    requires a <= a' && b <= b'
    ensures a * b <= a' * b'
  {
    assert a * b <= a' * b;
    assert a' * b <= a' * b';
  }

  lemma {:induction false} ProdCountMono(rules: Rules, terminals: seq<string>, p: Production, i: nat)
    requires Closed(rules) && ProdClosed(p, rules.Keys) && i >= 1
    ensures ProdCount(rules, terminals, p, i) <= ProdCount(rules, terminals, p, i + 1)
    decreases i, 2, 0
  {
    ProductOverMono(rules, terminals, p, |p|, i);
  }

  lemma {:induction false} ProductOverMono(rules: Rules, terminals: seq<string>, p: Production, k: nat, i: nat)
    requires Closed(rules) && ProdClosed(p, rules.Keys) && k <= |p| && i >= 1
    ensures ProductOver(rules, terminals, p, k, i) <= ProductOver(rules, terminals, p, k, i + 1)
    decreases i, 1, k
  {
    if k > 0 {
      ProductOverMono(rules, terminals, p, k - 1, i);
      if p[k - 1].NT? {
        var alts := rules[p[k - 1].name];
        WaysMono(rules, terminals, alts, |alts|, i);
        MulMono(ProductOver(rules, terminals, p, k - 1, i), Ways(rules, terminals, alts, |alts|, i),
                ProductOver(rules, terminals, p, k - 1, i + 1), Ways(rules, terminals, alts, |alts|, i + 1));
      }
    }
  }

  lemma {:induction false} WaysMono(rules: Rules, terminals: seq<string>, alts: seq<Production>, k: nat, i: nat)
    requires Closed(rules) && (forall a :: 0 <= a < |alts| ==> ProdClosed(alts[a], rules.Keys))
    requires k <= |alts| && i >= 1
    ensures Ways(rules, terminals, alts, k, i) <= Ways(rules, terminals, alts, k, i + 1)
    decreases i, 0, k
  {
    if k > 0 {
      WaysMono(rules, terminals, alts, k - 1, i);
      ChildCountMono(rules, terminals, alts[k - 1], i - 1);
    }
  }

  lemma {:induction false} ChildCountMono(rules: Rules, terminals: seq<string>, c: Production, d: nat)
    requires Closed(rules) && ProdClosed(c, rules.Keys)
    ensures ChildCount(rules, terminals, c, d) <= ChildCount(rules, terminals, c, d + 1)
    decreases d, 3, 0
  {
    if !SingleTerminal(c, terminals) && d >= 2 {
      ProdCountMono(rules, terminals, c, d);
    }
  }

  lemma {:induction false} StartWaysMono(rules: Rules, terminals: seq<string>, alts: seq<Production>, k: nat, depth: int)
    requires Closed(rules) && (forall a :: 0 <= a < |alts| ==> ProdClosed(alts[a], rules.Keys))
    requires k <= |alts|
    ensures StartWays(rules, terminals, alts, k, depth) <= StartWays(rules, terminals, alts, k, depth + 1)
  {
    if k > 0 {
      StartWaysMono(rules, terminals, alts, k - 1, depth);
      if !TerminalOnly(alts[k - 1]) && depth >= 2 {
        ProdCountMono(rules, terminals, alts[k - 1], depth);
      }
    }
  }

  /** The cumulative count never falls as the depth grows. */
  lemma {:induction false} GrammarCountMono(rules: Rules, terminals: seq<string>, start: string, d: int, d': int)
    requires Closed(rules) && start in rules && d <= d'
    ensures GrammarCount(rules, terminals, start, d) <= GrammarCount(rules, terminals, start, d')
    decreases d' - d
  {
    if d < d' {
      StartWaysMono(rules, terminals, rules[start], |rules[start]|, d);
      GrammarCountMono(rules, terminals, start, d + 1, d');
    }
  }

  // ------------------------------------------- a count is positive iff a tree exists

  lemma MulPositive(a: nat, b: nat)
    ensures a * b > 0 <==> a > 0 && b > 0
  {
    if a > 0 && b > 0 {
      assert a * b >= b;
    }
  }

  /** A production's entry at level `i` is positive exactly when all its non-terminals derive within `i - 1` levels. */
  lemma {:induction false} ProdCountPositive(rules: Rules, terminals: seq<string>, p: Production, i: nat)
    requires Closed(rules) && ShapedTerminals(rules, terminals) && ProdClosed(p, rules.Keys) && i >= 2
    ensures ProdCount(rules, terminals, p, i) > 0 <==> AltDerives(rules, p, i - 1)
    decreases i, 2, 0
  {
    ProductOverPositive(rules, terminals, p, |p|, i);
  }

  lemma {:induction false} ProductOverPositive(rules: Rules, terminals: seq<string>, p: Production, k: nat, i: nat)
    requires Closed(rules) && ShapedTerminals(rules, terminals) && ProdClosed(p, rules.Keys) && k <= |p| && i >= 2
    ensures ProductOver(rules, terminals, p, k, i) > 0 <==>
              forall j :: 0 <= j < k && p[j].NT? ==> Derives(rules, p[j].name, i - 1)
    decreases i, 1, k
  {
    if k > 0 {
      ProductOverPositive(rules, terminals, p, k - 1, i);
      if p[k - 1].NT? {
        var alts := rules[p[k - 1].name];
        WaysPositive(rules, terminals, p[k - 1].name, |alts|, i);
        MulPositive(ProductOver(rules, terminals, p, k - 1, i), Ways(rules, terminals, alts, |alts|, i));
      }
    }
  }

  lemma {:induction false} WaysPositive(rules: Rules, terminals: seq<string>, x: string, k: nat, i: nat)
    requires Closed(rules) && ShapedTerminals(rules, terminals) && x in rules && k <= |rules[x]| && i >= 2
    ensures Ways(rules, terminals, rules[x], k, i) > 0 <==>
              exists a :: 0 <= a < k && AltDerives(rules, rules[x][a], i - 2)
    decreases i, 0, k
  {
    if k > 0 {
      WaysPositive(rules, terminals, x, k - 1, i);
      ChildCountPositive(rules, terminals, rules[x][k - 1], i - 1);
    }
  }

  lemma {:induction false} ChildCountPositive(rules: Rules, terminals: seq<string>, c: Production, d: nat)
    requires Closed(rules) && ShapedTerminals(rules, terminals) && ProdClosed(c, rules.Keys) && d >= 1
    requires SingleTerminal(c, terminals) <==> TerminalOnly(c)
    ensures ChildCount(rules, terminals, c, d) > 0 <==> AltDerives(rules, c, d - 1)
    decreases d, 3, 0
  {
    if !SingleTerminal(c, terminals) {
      if d >= 2 {
        ProdCountPositive(rules, terminals, c, d);
      } else {
        var j :| 0 <= j < |c| && c[j].NT?;
        assert !Derives(rules, c[j].name, 0);
      }
    }
  }

  lemma {:induction false} StartWaysPositive(rules: Rules, terminals: seq<string>, x: string, k: nat, depth: int)
    requires Closed(rules) && ShapedTerminals(rules, terminals) && x in rules && k <= |rules[x]| && depth >= 1
    ensures StartWays(rules, terminals, rules[x], k, depth) > 0 <==>
              exists a :: 0 <= a < k && AltDerives(rules, rules[x][a], depth - 1)
  {
    if k > 0 {
      StartWaysPositive(rules, terminals, x, k - 1, depth);
      var c := rules[x][k - 1];
      if !TerminalOnly(c) {
        if depth >= 2 {
          ProdCountPositive(rules, terminals, c, depth);
        } else {
          var j :| 0 <= j < |c| && c[j].NT?;
          assert !Derives(rules, c[j].name, 0);
        }
      }
    }
  }

  /**
   * The count up to depth `d` is positive exactly when the start symbol has
   * a derivation complete within `d` levels.
   */
  lemma GrammarCountPositive(rules: Rules, terminals: seq<string>, start: string, d: int)
    requires Closed(rules) && ShapedTerminals(rules, terminals) && start in rules && d >= 1
    ensures GrammarCount(rules, terminals, start, d) > 0 <==> Derives(rules, start, d)
  {
    StartWaysPositive(rules, terminals, start, |rules[start]|, d);
  }

  // ----------------------------------------------------------- examples

  /** `<S> ::= a | b` has two trees at every depth. */
  lemma TwoTerminals(d: int)
    ensures var rules := map["<S>" := [[T("a")], [T("b")]]];
            Closed(rules) && GrammarCount(rules, ["a", "b"], "<S>", d) == 2
  {
    var rules: Rules := map["<S>" := [[T("a")], [T("b")]]];
    assert TerminalOnly(rules["<S>"][0]) && TerminalOnly(rules["<S>"][1]);
    assert StartWays(rules, ["a", "b"], rules["<S>"], 1, d) == 1;
  }

  /**
   * `<S> ::= <A><A> | x` and `<A> ::= a | b`: one tree of depth 1 and
   * four more of depth 2.
   */
  lemma PairExample()
    ensures var rules := map["<S>" := [[NT("<A>", []), NT("<A>", [])], [T("x")]], "<A>" := [[T("a")], [T("b")]]];
            Closed(rules)
            && GrammarCount(rules, ["x", "a", "b"], "<S>", 1) == 1
            && GrammarCount(rules, ["x", "a", "b"], "<S>", 2) == 5
  {
    var rules: Rules := map["<S>" := [[NT("<A>", []), NT("<A>", [])], [T("x")]], "<A>" := [[T("a")], [T("b")]]];
    var terminals: seq<string> := ["x", "a", "b"];
    var pair: Production := rules["<S>"][0];
    assert !TerminalOnly(pair) by { assert pair[0].NT?; }
    assert TerminalOnly(rules["<S>"][1]);
    assert Ways(rules, terminals, rules["<A>"], 2, 2) == 2 by {
      assert SingleTerminal(rules["<A>"][0], terminals) && SingleTerminal(rules["<A>"][1], terminals);
    }
    assert ProdCount(rules, terminals, pair, 2) == 4;
  }

  // ------------------------------------------------- the ramp patch (check_permutations)

  /** What `check_all_permutations(d)` returns given the memo it finds: the memo entry, or the count. */
  function Cumulative(rules: Rules, terminals: seq<string>, start: string, memo: map<int, int>, d: int): int
    requires Closed(rules) && start in rules
  {
    if d in memo then memo[d] else GrammarCount(rules, terminals, start, d)
  }

  /** How many depths `check_permutations` visits, starting at `min_path`. */
  function RampCount(maxArity: int, minPath: int, ramps: int): nat
  {
    var n := if maxArity > minPath then Max(maxArity + 1 - minPath, ramps) else ramps;
    if n < 0 then 0 else n
  }

  /** Entry `i` of `perms_list` once patched: the cumulative value minus the one below it. */
  function Exact(rules: Rules, terminals: seq<string>, start: string, memo: map<int, int>, minPath: int, i: nat): int
    requires Closed(rules) && start in rules
  {
    if i == 0 then Cumulative(rules, terminals, start, memo, minPath)
    else Cumulative(rules, terminals, start, memo, minPath + i) - Cumulative(rules, terminals, start, memo, minPath + i - 1)
  }

  /** The first `n` patched entries. */
  function Exacts(rules: Rules, terminals: seq<string>, start: string, memo: map<int, int>, minPath: int, n: nat): (r: seq<int>)
    requires Closed(rules) && start in rules
    ensures |r| == n
  {
    if n == 0 then [] else Exacts(rules, terminals, start, memo, minPath, n - 1) + [Exact(rules, terminals, start, memo, minPath, n - 1)]
  }

  /** What the patch writes into the memo after `n` depths: `min_path + i` maps to entry `i`. */
  function Patch(rules: Rules, terminals: seq<string>, start: string, memo: map<int, int>, minPath: int, n: nat): map<int, int>
    requires Closed(rules) && start in rules
  {
    if n == 0 then map[]
    else Patch(rules, terminals, start, memo, minPath, n - 1)[minPath + n - 1 := Exact(rules, terminals, start, memo, minPath, n - 1)]
  }

  /** The patch writes exactly the depths `min_path` to `min_path + n - 1`, depth `min_path + i` receiving entry `i`. */
  lemma {:induction false} PatchAt(rules: Rules, terminals: seq<string>, start: string, memo: map<int, int>, minPath: int, n: nat)
    requires Closed(rules) && start in rules
    ensures forall d :: d in Patch(rules, terminals, start, memo, minPath, n) <==> minPath <= d < minPath + n
    ensures forall i :: 0 <= i < n ==> Patch(rules, terminals, start, memo, minPath, n)[minPath + i]
                                        == Exact(rules, terminals, start, memo, minPath, i)
  {
    if n > 0 {
      PatchAt(rules, terminals, start, memo, minPath, n - 1);
    }
  }

  function Sum(s: seq<int>): int
  {
    if s == [] then 0 else Sum(s[..|s| - 1]) + s[|s| - 1]
  }

  /** The first `n` patched entries add up to the cumulative count at `min_path + n - 1`. */
  lemma {:induction false} ExactsSum(rules: Rules, terminals: seq<string>, start: string, memo: map<int, int>, minPath: int, n: nat)
    requires Closed(rules) && start in rules && n >= 1
    ensures Sum(Exacts(rules, terminals, start, memo, minPath, n)) == Cumulative(rules, terminals, start, memo, minPath + n - 1)
  {
    var previous := Exacts(rules, terminals, start, memo, minPath, n - 1);
    SumSnoc(previous, Exact(rules, terminals, start, memo, minPath, n - 1));
    if n > 1 {
      ExactsSum(rules, terminals, start, memo, minPath, n - 1);
    }
  }

  /** Appending an entry adds it to the sum. */
  lemma SumSnoc(s: seq<int>, x: int)
    ensures Sum(s + [x]) == Sum(s) + x
  {
    assert (s + [x])[..|s|] == s;
  }

  /**
   * From an empty memo the patched entries are the numbers of trees whose
   * depth is exactly `min_path + i`: never negative, and the first is
   * positive when the start symbol derives within `min_path` levels.
   */
  lemma ExactsFromEmpty(rules: Rules, terminals: seq<string>, start: string, minPath: int, i: nat)
    requires Closed(rules) && ShapedTerminals(rules, terminals) && start in rules
    ensures Exact(rules, terminals, start, map[], minPath, i) >= 0
    ensures i > 0 ==> Exact(rules, terminals, start, map[], minPath, i)
                      == GrammarCount(rules, terminals, start, minPath + i) - GrammarCount(rules, terminals, start, minPath + i - 1)
    ensures i == 0 && minPath >= 1 && Derives(rules, start, minPath) ==> Exact(rules, terminals, start, map[], minPath, i) > 0
  {
    if i > 0 {
      GrammarCountMono(rules, terminals, start, minPath + i - 1, minPath + i);
    } else if minPath >= 1 {
      GrammarCountPositive(rules, terminals, start, minPath);
    }
  }

  /**
   * At step `i` of the patch the memo is the original one with the first `i`
   * entries patched: depth `min_path + i` reads as in the original memo, and
   * patching it gives the memo of step `i + 1`.
   */
  lemma PatchStep(rules: Rules, terminals: seq<string>, start: string, memo: map<int, int>, minPath: int, i: nat)
    requires Closed(rules) && start in rules
    ensures var now := memo + Patch(rules, terminals, start, memo, minPath, i);
            && Cumulative(rules, terminals, start, now, minPath + i) == Cumulative(rules, terminals, start, memo, minPath + i)
            && now[minPath + i := Exact(rules, terminals, start, memo, minPath, i)]
               == memo + Patch(rules, terminals, start, memo, minPath, i + 1)
  {
    PatchAt(rules, terminals, start, memo, minPath, i);
  }

  /**
   * One depth of the patch as `check_permutations` performs it: the
   * cumulative count `x` at `min_path + i`, read through the memo patched so
   * far, is appended and stored, and past the first depth both copies lose the
   * sum of the entries before it. The list and the memo are then those of
   * step `i + 1`.
   */
  lemma RampAdvance(rules: Rules, terminals: seq<string>, start: string, memo: map<int, int>, minPath: int, i: nat,
                    permsList: seq<int>, now: map<int, int>, x: int, total: int, next: seq<int>, later: map<int, int>)
    requires Closed(rules) && start in rules
    requires permsList == Exacts(rules, terminals, start, memo, minPath, i)
    requires now == memo + Patch(rules, terminals, start, memo, minPath, i)
    requires x == Cumulative(rules, terminals, start, now, minPath + i)
    requires i == 0 ==> next == permsList + [x] && later == now[minPath + i := x]
    requires i > 0 ==> total == Sum(permsList) && next == (permsList + [x])[i := x - total]
                       && later == now[minPath + i := x - total]
    ensures next == Exacts(rules, terminals, start, memo, minPath, i + 1)
    ensures later == memo + Patch(rules, terminals, start, memo, minPath, i + 1)
  {
    PatchStep(rules, terminals, start, memo, minPath, i);
    var e := Exact(rules, terminals, start, memo, minPath, i);
    if i > 0 {
      ExactsSum(rules, terminals, start, memo, minPath, i);
      assert next == permsList + [e];
      assert later == now[minPath + i := e];
    }
  }
}

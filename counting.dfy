/**
 * The loops of `check_all_permutations` (src/representation/grammar.py:218-256):
 * collecting the non-terminal-containing productions, filling the
 * per-production table level by level, and summing over the start rule's
 * alternatives, each proved to compute the recurrence of module
 * Permutations. The table is keyed by production, as the source's
 * `str(prod)` keys are.
 */
module Counting {
  import opened Common
  import opened Symbols
  import opened Permutations

  /** `depthPerSymbolTrees`: per production, per level, the stored count. */
  type Table = map<Production, map<int, int>>

  // ------------------------------------------------------- the productions

  /** The alternatives among the first `k` of `alts` that hold a non-terminal, in order. */
  function NTAlts(alts: seq<Production>, k: nat): seq<Production>
    requires k <= |alts|
  {
    if k == 0 then [] else NTAlts(alts, k - 1) + (if TerminalOnly(alts[k - 1]) then [] else [alts[k - 1]])
  }

  /** `productions`: the non-terminal-containing alternatives of the first `k` keys, in key order. */
  function NTProductions(rules: Rules, order: seq<string>, k: nat): seq<Production>
    requires k <= |order| && forall i :: 0 <= i < |order| ==> order[i] in rules
  {
    if k == 0 then [] else NTProductions(rules, order, k - 1) + NTAlts(rules[order[k - 1]], |rules[order[k - 1]]|)
  }

  /** Every listed production holds a non-terminal and names only defined ones. */
  predicate ProductionsClosed(rules: Rules, prods: seq<Production>)
  {
    forall n :: 0 <= n < |prods| ==> ProdClosed(prods[n], rules.Keys) && !TerminalOnly(prods[n])
  }

  /** Every alternative that holds a non-terminal is listed. */
  ghost predicate ProductionsComplete(rules: Rules, prods: seq<Production>)
  {
    forall x, a :: x in rules && 0 <= a < |rules[x]| && !TerminalOnly(rules[x][a]) ==> rules[x][a] in prods
  }

  /** The alternatives of one non-terminal that hold a non-terminal, appended in order (lines 224-226). */
  method CollectAlts(rules: Rules, alts: seq<Production>, prods: seq<Production>) returns (out: seq<Production>)
    requires forall a :: 0 <= a < |alts| ==> ProdClosed(alts[a], rules.Keys)
    requires ProductionsClosed(rules, prods)
    ensures out == prods + NTAlts(alts, |alts|) && ProductionsClosed(rules, out)
    ensures forall q :: q in prods ==> q in out
    ensures forall b :: 0 <= b < |alts| && !TerminalOnly(alts[b]) ==> alts[b] in out
  {
    out := prods;
    var a := 0;
    while a < |alts|
      invariant 0 <= a <= |alts|
      invariant out == prods + NTAlts(alts, a)
      invariant ProductionsClosed(rules, out)
      invariant forall q :: q in prods ==> q in out
      invariant forall b :: 0 <= b < a && !TerminalOnly(alts[b]) ==> alts[b] in out
    {
      if !TerminalOnly(alts[a]) {
        out := out + [alts[a]];
      }
      a := a + 1;
    }
  }

  /** The loop collecting `productions` (lines 221-226). */
  method CollectProductions(rules: Rules, order: seq<string>) returns (prods: seq<Production>)
    requires Closed(rules) && forall x :: x in rules <==> x in order
    ensures prods == NTProductions(rules, order, |order|)
    ensures ProductionsClosed(rules, prods) && ProductionsComplete(rules, prods)
  {
    prods := [];
    var k := 0;
    while k < |order|
      invariant 0 <= k <= |order|
      invariant prods == NTProductions(rules, order, k)
      invariant ProductionsClosed(rules, prods)
      invariant forall i, a :: 0 <= i < k && 0 <= a < |rules[order[i]]| && !TerminalOnly(rules[order[i]][a]) ==>
                  rules[order[i]][a] in prods
    {
      var alts := rules[order[k]];
      assert forall a :: 0 <= a < |alts| ==> ProdClosed(alts[a], rules.Keys) by {
        forall a | 0 <= a < |alts| ensures ProdClosed(alts[a], rules.Keys) {
          assert ProdClosed(rules[order[k]][a], rules.Keys);
        }
      }
      var before := prods;
      prods := CollectAlts(rules, alts, before);
      forall i, a | 0 <= i <= k && 0 <= a < |rules[order[i]]| && !TerminalOnly(rules[order[i]][a])
        ensures rules[order[i]][a] in prods
      {
        if i < k {
          assert rules[order[i]][a] in before;
        } else {
          assert rules[order[i]][a] == alts[a];
        }
      }
      k := k + 1;
    }
    forall x, a | x in rules && 0 <= a < |rules[x]| && !TerminalOnly(rules[x][a]) ensures rules[x][a] in prods {
      var i :| 0 <= i < |order| && order[i] == x;
    }
  }

  // ------------------------------------------------------------ the table

  /** The table's keys are productions holding a non-terminal, and every such alternative is one. */
  ghost predicate Keyed(rules: Rules, t: Table)
  {
    (forall q :: q in t ==> ProdClosed(q, rules.Keys) && !TerminalOnly(q))
    && forall x, a :: x in rules && 0 <= a < |rules[x]| && !TerminalOnly(rules[x][a]) ==> rules[x][a] in t
  }

  /** The entries of `q` are exactly levels 2 to `top - 1`, each holding the recurrence's value. */
  ghost predicate Level(rules: Rules, terminals: seq<string>, t: Table, q: Production, top: int)
    requires Closed(rules) && q in t && ProdClosed(q, rules.Keys)
  {
    (forall d :: d in t[q] <==> 2 <= d < top)
    && forall d :: d in t[q] ==> d >= 2 && t[q][d] == ProdCount(rules, terminals, q, d)
  }

  /** Level `d` is filled for every key exactly when `d >= 2`, with the recurrence's values. */
  ghost predicate Ready(rules: Rules, terminals: seq<string>, t: Table, d: int)
    requires Closed(rules) && forall q :: q in t ==> ProdClosed(q, rules.Keys)
  {
    forall q :: q in t ==> (d in t[q] <==> d >= 2) && (d in t[q] ==> t[q][d] == ProdCount(rules, terminals, q, d))
  }

  /** The inner loop over a non-terminal's children (lines 241-246): `symbolArityPos`. */
  method SymbolWays(rules: Rules, terminals: seq<string>, t: Table, name: string, i: int) returns (w: int)
    requires Closed(rules) && ShapedTerminals(rules, terminals) && name in rules && i >= 2
    requires Keyed(rules, t) && Ready(rules, terminals, t, i - 1)
    ensures w == Ways(rules, terminals, rules[name], |rules[name]|, i)
  {
    var children := rules[name];
    w := 0;
    var k := 0;
    while k < |children|
      invariant 0 <= k <= |children|
      invariant w == Ways(rules, terminals, children, k, i)
    {
      var child := children[k];
      assert ProdClosed(rules[name][k], rules.Keys);
      if |child| == 1 && Label(child[0]) in terminals {
        w := w + 1;
      } else {
        assert !SingleTerminal(rules[name][k], terminals);
        if (i - 1) in t[child] {
          w := w + t[child][i - 1];
        }
      }
      k := k + 1;
    }
  }

  /** The loop over a production's symbols (lines 237-247): `symPos`. */
  method ProductionCount(rules: Rules, terminals: seq<string>, t: Table, p: Production, i: int) returns (symPos: int)
    requires Closed(rules) && ShapedTerminals(rules, terminals) && ProdClosed(p, rules.Keys) && i >= 2
    requires Keyed(rules, t) && Ready(rules, terminals, t, i - 1)
    ensures symPos == ProdCount(rules, terminals, p, i)
  {
    symPos := 1;
    var k := 0;
    while k < |p|
      invariant 0 <= k <= |p|
      invariant symPos == ProductOver(rules, terminals, p, k, i)
    {
      if p[k].NT? {
        var symbolArityPos := SymbolWays(rules, terminals, t, p[k].name, i);
        symPos := symPos * symbolArityPos;
      }
      k := k + 1;
    }
  }

  /** The table's entries at levels 2 to `i - 1` give level `i - 1` for every key. */
  lemma LevelsReady(rules: Rules, terminals: seq<string>, t: Table, prods: seq<Production>, n: int, i: int)
    requires Closed(rules) && Keyed(rules, t) && 0 <= n <= |prods| && i >= 2
    requires forall q :: q in t ==> Level(rules, terminals, t, q, if q in prods[..n] then i + 1 else i)
    ensures Ready(rules, terminals, t, i - 1)
  {
  }

  /** Storing level `i` of the `n`-th production moves it to the filled side. */
  lemma LevelStep(rules: Rules, terminals: seq<string>, t: Table, prods: seq<Production>, n: int, i: int, v: int, u: Table)
    requires Closed(rules) && Keyed(rules, t) && 0 <= n < |prods| && prods[n] in t && i >= 2
    requires v == ProdCount(rules, terminals, prods[n], i) && u == t[prods[n] := t[prods[n]][i := v]]
    requires forall q :: q in t ==> Level(rules, terminals, t, q, if q in prods[..n] then i + 1 else i)
    ensures Keyed(rules, u)
    ensures forall q :: q in u ==> Level(rules, terminals, u, q, if q in prods[..n + 1] then i + 1 else i)
  {
    var p := prods[n];
    assert prods[..n + 1] == prods[..n] + [p];
    forall q | q in u ensures Level(rules, terminals, u, q, if q in prods[..n + 1] then i + 1 else i) {
      if q != p {
        assert u[q] == t[q];
        assert Level(rules, terminals, t, q, if q in prods[..n] then i + 1 else i);
      } else {
        assert Level(rules, terminals, t, q, if q in prods[..n] then i + 1 else i);
      }
    }
  }

  /** `depthPerSymbolTrees[str(prod)] = {}` for every production (lines 230-231). */
  method EmptyTable(prods: seq<Production>) returns (t: Table)
    ensures (forall q :: q in t <==> q in prods) && forall q :: q in t ==> t[q] == map[]
  {
    t := map[];
    var n := 0;
    while n < |prods|
      invariant 0 <= n <= |prods|
      invariant (forall q :: q in t <==> q in prods[..n]) && forall q :: q in t ==> t[q] == map[]
    {
      t := t[prods[n] := map[]];
      n := n + 1;
    }
    assert prods[..|prods|] == prods;
  }

  /** One level `i` of the table (lines 236-248): each production in turn gets its count at `i`. */
  method FillLevel(rules: Rules, terminals: seq<string>, prods: seq<Production>, t: Table, i: int) returns (u: Table)
    requires Closed(rules) && ShapedTerminals(rules, terminals) && i >= 2
    requires Keyed(rules, t) && (forall q :: q in t <==> q in prods)
    requires forall q :: q in t ==> Level(rules, terminals, t, q, i)
    ensures Keyed(rules, u) && (forall q :: q in u <==> q in prods)
    ensures forall q :: q in u ==> Level(rules, terminals, u, q, i + 1)
  {
    u := t;
    var n := 0;
    while n < |prods|
      invariant 0 <= n <= |prods|
      invariant Keyed(rules, u) && (forall q :: q in u <==> q in prods)
      invariant forall q :: q in u ==> Level(rules, terminals, u, q, if q in prods[..n] then i + 1 else i)
    {
      var ntSymbol := prods[n];
      LevelsReady(rules, terminals, u, prods, n, i);
      var symPos := ProductionCount(rules, terminals, u, ntSymbol, i);
      var next := u[ntSymbol := u[ntSymbol][i := symPos]];
      LevelStep(rules, terminals, u, prods, n, i, symPos, next);
      u := next;
      n := n + 1;
    }
    assert prods[..n] == prods;
  }

  /**
   * The table `check_all_permutations(depth)` builds (lines 230-248): one
   * empty entry per production, then levels 2 to `depth`, each production
   * in turn.
   */
  method FillTable(rules: Rules, terminals: seq<string>, prods: seq<Production>, depth: int) returns (t: Table)
    requires Closed(rules) && ShapedTerminals(rules, terminals)
    requires ProductionsClosed(rules, prods) && ProductionsComplete(rules, prods)
    ensures Keyed(rules, t) && (forall q :: q in t <==> q in prods)
    ensures forall q :: q in t ==> Level(rules, terminals, t, q, Max(depth + 1, 2))
  {
    t := EmptyTable(prods);
    var i := 2;
    while i <= depth
      invariant 2 <= i <= Max(depth + 1, 2)
      invariant Keyed(rules, t) && (forall q :: q in t <==> q in prods)
      invariant forall q :: q in t ==> Level(rules, terminals, t, q, i)
    {
      t := FillLevel(rules, terminals, prods, t, i);
      i := i + 1;
    }
    assert i == Max(depth + 1, 2);
  }

  /** The loop over the start rule's alternatives (lines 250-254): `pos`. */
  method StartSum(rules: Rules, terminals: seq<string>, t: Table, start: string, depth: int) returns (pos: int)
    requires Closed(rules) && start in rules && Keyed(rules, t)
    requires forall q :: q in t ==> Level(rules, terminals, t, q, Max(depth + 1, 2))
    ensures pos == GrammarCount(rules, terminals, start, depth)
  {
    var startSymbols := rules[start];
    pos := 0;
    var k := 0;
    while k < |startSymbols|
      invariant 0 <= k <= |startSymbols|
      invariant pos == StartWays(rules, terminals, startSymbols, k, depth)
    {
      var sy := startSymbols[k];
      assert ProdClosed(rules[start][k], rules.Keys);
      if sy in t {
        pos := pos + if depth in t[sy] then t[sy][depth] else 0;
      } else {
        pos := pos + 1;
      }
      k := k + 1;
    }
  }
}

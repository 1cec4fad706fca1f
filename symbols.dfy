/**
 * The grammar's data: symbols, productions (alternatives), the rule table and
 * the per-non-terminal records that the depth analysis fills in.
 */
module Symbols {

  /** What the depth analysis appends to a non-terminal occurrence: its `min_steps`, then its `recursive` flag. */
  datatype Note = Steps(minSteps: int) | Rec(recursive: bool)

  /**
   * A symbol of a production: a terminal with its text, or a reference to a
   * non-terminal by name, carrying the notes appended to it after analysis.
   */
  datatype Symbol = T(text: string) | NT(name: string, notes: seq<Note>)

  /** One alternative: its symbols in derivation order. */
  type Production = seq<Symbol>

  /** The rule table: each non-terminal's alternatives, in the order written. */
  type Rules = map<string, seq<Production>>

  /** The first element of the symbol's list in the source: a terminal's text or a non-terminal's name. */
  function Label(s: Symbol): string
  {
    if s.T? then s.text else s.name
  }

  /** The record kept per non-terminal. */
  datatype NTInfo = NTInfo(id: string, minSteps: int, expanded: bool, recursive: bool, bFactor: int)

  type Infos = map<string, NTInfo>

  /** The `min_steps` a non-terminal starts with, standing for "not reached yet". */
  const Unresolved: int := 9999999999999

  /** The record a newly read non-terminal gets. */
  function FreshInfo(id: string): NTInfo
  {
    NTInfo(id, Unresolved, false, true, 0)
  }

  /** The alternative holds terminals only (Python's `all(...)`, so an empty one counts too). */
  predicate TerminalOnly(p: Production)
  {
    forall i :: 0 <= i < |p| ==> p[i].T?
  }

  /** Non-terminal `x` occurs in `p`. */
  predicate Mentions(p: Production, x: string)
  {
    exists i :: 0 <= i < |p| && p[i].NT? && p[i].name == x
  }

  /** The names of the non-terminals of `p`, left to right, with repeats. */
  function NTNames(p: Production): seq<string>
    decreases |p|
  {
    if p == [] then []
    else if p[0].NT? then [p[0].name] + NTNames(p[1..])
    else NTNames(p[1..])
  }

  /** `NTNames` lists exactly the non-terminals `p` mentions, and is empty exactly for a terminal-only `p`. */
  lemma {:induction false} NTNamesMentions(p: Production)
    ensures forall x :: x in NTNames(p) <==> Mentions(p, x)
    ensures NTNames(p) == [] <==> TerminalOnly(p)
    decreases |p|
  {
    if p != [] {
      NTNamesMentions(p[1..]);
      assert forall x :: Mentions(p[1..], x) ==> Mentions(p, x) by {
        forall x | Mentions(p[1..], x) ensures Mentions(p, x) {
          var i :| 0 <= i < |p[1..]| && p[1..][i].NT? && p[1..][i].name == x;
          assert p[i + 1] == p[1..][i];
        }
      }
      assert forall x :: Mentions(p, x) && !(p[0].NT? && p[0].name == x) ==> Mentions(p[1..], x) by {
        forall x | Mentions(p, x) && !(p[0].NT? && p[0].name == x) ensures Mentions(p[1..], x) {
          var i :| 0 <= i < |p| && p[i].NT? && p[i].name == x;
          assert i > 0 && p[1..][i - 1] == p[i];
        }
      }
      assert TerminalOnly(p) <==> p[0].T? && TerminalOnly(p[1..]) by {
        if p[0].T? && TerminalOnly(p[1..]) {
          forall i | 0 <= i < |p| ensures p[i].T? {
            if i > 0 { assert p[i] == p[1..][i - 1]; }
          }
        }
      }
    }
  }

  /** `itertools.groupby` keys: `s` with every run of equal neighbours cut to one element. */
  function Collapse(s: seq<string>): (r: seq<string>)
    ensures |r| <= |s| && (s != [] ==> r != [])
    ensures s != [] ==> r[0] == s[0]
    decreases |s|
  {
    if |s| <= 1 then s
    else if s[0] == s[1] then Collapse(s[1..])
    else [s[0]] + Collapse(s[1..])
  }

  /** Collapsing keeps every element and adds none. */
  lemma {:induction false} CollapseKeeps(s: seq<string>)
    ensures forall x :: x in Collapse(s) <==> x in s
    decreases |s|
  {
    if |s| > 1 {
      CollapseKeeps(s[1..]);
      assert s == [s[0]] + s[1..];
    }
  }

  /** No two neighbours of a collapsed sequence are equal. */
  lemma {:induction false} CollapseNoRepeats(s: seq<string>)
    ensures forall i :: 0 <= i < |Collapse(s)| - 1 ==> Collapse(s)[i] != Collapse(s)[i + 1]
    decreases |s|
  {
    if |s| > 1 {
      CollapseNoRepeats(s[1..]);
    }
  }

  /** Every non-terminal that `p` mentions is one of `keys`. */
  predicate ProdClosed(p: Production, keys: set<string>)
  {
    forall i :: 0 <= i < |p| && p[i].NT? ==> p[i].name in keys
  }

  /** Every non-terminal the rule table mentions has a rule: no lookup of an undefined name can fail. */
  predicate Closed(rules: Rules)
  {
    forall n, a :: n in rules && 0 <= a < |rules[n]| ==> ProdClosed(rules[n][a], rules.Keys)
  }

  /** The texts of the terminals of `p`, left to right. */
  function Terms(p: Production): seq<string>
  {
    if p == [] then [] else (if p[0].T? then [p[0].text] else []) + Terms(p[1..])
  }

  /** The texts of the terminals of the first `k` alternatives, in order. */
  function TermsOfAll(ps: seq<Production>, k: nat): seq<string>
    requires k <= |ps|
  {
    if k == 0 then [] else TermsOfAll(ps, k - 1) + Terms(ps[k - 1])
  }
}

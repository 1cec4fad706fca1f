/**
 * The loops of `read_bnf_file` that turn one right-hand side into its
 * alternatives (src/representation/grammar.py:49-69), each proved to build
 * what module Parser's functions describe, terminal list included.
 */
module Reading {
  import opened Text
  import opened Symbols
  import opened Parser

  /** The terminal texts of a production split in two are those of each part, in order. */
  lemma {:induction false} TermsAppend(a: Production, b: Production)
    ensures Terms(a + b) == Terms(a) + Terms(b)
    decreases |a|
  {
    if a != [] {
      assert (a + b)[1..] == a[1..] + b;
      TermsAppend(a[1..], b);
    } else {
      assert a + b == b;
    }
  }

  /**
   * One stripped alternative (lines 53-68): a whole terminal when it holds no
   * `<...>` span, otherwise the non-empty `findall` pieces, each a terminal
   * or a non-terminal; `texts` are the terminals appended to the list.
   */
  method ReadProduction(production: string) returns (p: Production, texts: seq<string>)
    ensures p == ProductionOf(production) && texts == Terms(p)
  {
    if !HasNTSpan(production) {
      texts := [production];
      p := [T(production)];
      assert Terms(p) == [production] + Terms([]);
    } else {
      var values := FindAllFrom(production, 0);
      p := [];
      texts := [];
      var k := 0;
      while k < |values|
        invariant 0 <= k <= |values|
        invariant p == Classify(values, k) && texts == Terms(p)
      {
        var value := values[k];
        if value != "" {
          var symbol;
          if !HasNTSpan(value) {
            symbol := T(value);
            texts := texts + [value];
          } else {
            symbol := NT(value, []);
          }
          TermsAppend(p, [symbol]);
          assert Terms([symbol]) == (if symbol.T? then [value] else []) + Terms([]);
          p := p + [symbol];
        }
        k := k + 1;
      }
    }
  }

  /** The alternatives of a right-hand side (lines 49-69) and the terminals they add, in order. */
  method ReadRule(productions: string) returns (alts: seq<Production>, texts: seq<string>)
    ensures alts == AlternativesOf(productions) && texts == TermsOfAll(alts, |alts|)
  {
    var pieces := Pieces(productions);
    alts := [];
    texts := [];
    var k := 0;
    while k < |pieces|
      invariant 0 <= k <= |pieces|
      invariant alts == Alternatives(pieces, k) && texts == TermsOfAll(alts, |alts|)
    {
      var tmpProduction, more := ReadProduction(pieces[k]);
      assert TermsOfAll(alts + [tmpProduction], k + 1) == TermsOfAll(alts, k) + more by {
        TermsOfAllPrefix(alts, [tmpProduction], k);
      }
      alts := alts + [tmpProduction];
      texts := texts + more;
      k := k + 1;
    }
  }

  /** Appending alternatives leaves the terminals of the first `k` as they were. */
  lemma {:induction false} TermsOfAllPrefix(ps: seq<Production>, more: seq<Production>, k: nat)
    requires k <= |ps|
    ensures TermsOfAll(ps + more, k) == TermsOfAll(ps, k)
  {
    if k > 0 {
      TermsOfAllPrefix(ps, more, k - 1);
      assert (ps + more)[k - 1] == ps[k - 1];
    }
  }
}

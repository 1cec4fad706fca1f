/**
 * The BNF reader (`read_bnf_file`, src/representation/grammar.py:29-76) as
 * functions over the grammar's lines: what one line contributes, and the
 * tables built from all of them. The imperative reader in module Engine is
 * proved to compute exactly `ParseFrom`.
 */
module Parser {
  import opened Common
  import opened Text
  import opened Symbols

  /** The `ValueError`s the reader raises. */
  datatype ParseError =
    | NotOnOneLine                     // the line starts with `::=` (line 76)
    | UnpackMismatch(pieces: nat)      // splitting on `::=` did not give two pieces (line 41)
    | LhsNotNonTerminal(lhs: string)   // the stripped left-hand side has no `<...>` span (line 44)
    | DuplicateLhs(lhs: string)        // a left-hand side defined twice (line 74)

  /**
   * What the reader fills in: the rule table, the non-terminal records with
   * their keys in insertion order, the terminal texts (repeats kept) and the
   * start symbol.
   */
  datatype Tables = Tables(rules: Rules, order: seq<string>, info: Infos, terminals: seq<string>,
                           start: Option<string>)

  const NoTables := Tables(map[], [], map[], [], None)

  /** The symbol a non-empty `findall` piece becomes. */
  function SymbolOf(value: string): Symbol
  {
    if HasNTSpan(value) then NT(value, []) else T(value)
  }

  /** The symbols of the first `k` pieces: empty pieces dropped, the others classified by the non-terminal search. */
  function Classify(values: seq<string>, k: nat): Production
    requires k <= |values|
  {
    if k == 0 then []
    else Classify(values, k - 1) + (if values[k - 1] == "" then [] else [SymbolOf(values[k - 1])])
  }

  /** The production one stripped alternative becomes. */
  function ProductionOf(alt: string): Production
  {
    if !HasNTSpan(alt) then [T(alt)]
    else
      var values := FindAllFrom(alt, 0);
      Classify(values, |values|)
  }

  /** The stripped `|`-pieces of a right-hand side. */
  function Pieces(rhs: string): (r: seq<string>)
    ensures |r| >= 1
  {
    var ps := SplitOn(rhs, "|");
    seq(|ps|, i requires 0 <= i < |ps| => Strip(ps[i]))
  }

  /** The productions of the first `k` pieces. */
  function Alternatives(pieces: seq<string>, k: nat): (r: seq<Production>)
    requires k <= |pieces|
    ensures |r| == k
  {
    if k == 0 then [] else Alternatives(pieces, k - 1) + [ProductionOf(pieces[k - 1])]
  }

  /** The alternatives a right-hand side holds. */
  function AlternativesOf(rhs: string): seq<Production>
  {
    Alternatives(Pieces(rhs), |Pieces(rhs)|)
  }

  /** How the reader treats one line on its own. */
  datatype LineKind = Skip | Rule(lhs: string, rhs: string) | Bad(error: ParseError)

  function ReadLine(line: string): LineKind
  {
    if StartsWith(line, "#") || Strip(line) == "" then Skip
    else if Find(line, "::=") == 0 then Bad(NotOnOneLine)
    else
      var parts := SplitOn(line, "::=");
      if |parts| != 2 then Bad(UnpackMismatch(|parts|))
      else
        var lhs := Strip(parts[0]);
        if !HasNTSpan(lhs) then Bad(LhsNotNonTerminal(lhs)) else Rule(lhs, parts[1])
  }

  /** A rule line's effect: register `lhs`, read its alternatives and terminals, reject a repeat. */
  function AddRule(t: Tables, lhs: string, rhs: string): Result<Tables, ParseError>
  {
    var alts := AlternativesOf(rhs);
    if lhs in t.rules then Err(DuplicateLhs(lhs))
    else
      Ok(Tables(t.rules[lhs := alts],
                if lhs in t.info then t.order else t.order + [lhs],
                t.info[lhs := FreshInfo(lhs)],
                t.terminals + TermsOfAll(alts, |alts|),
                if t.start.None? then Some(lhs) else t.start))
  }

  function Step(t: Tables, line: string): Result<Tables, ParseError>
  {
    match ReadLine(line)
    case Skip => Ok(t)
    case Bad(e) => Err(e)
    case Rule(lhs, rhs) => AddRule(t, lhs, rhs)
  }

  /** Reading `lines` in order into `t`; the first error ends the reading. */
  function ParseFrom(t: Tables, lines: seq<string>): Result<Tables, ParseError>
    decreases |lines|
  {
    if lines == [] then Ok(t)
    else
      match Step(t, lines[0])
      case Err(e) => Err(e)
      case Ok(t') => ParseFrom(t', lines[1..])
  }

  /** The rule lines of `lines`: left-hand side and right-hand side of each, in order. */
  function RuleLines(lines: seq<string>): seq<(string, string)>
  {
    if lines == [] then []
    else
      match ReadLine(lines[0])
      case Rule(lhs, rhs) => [(lhs, rhs)] + RuleLines(lines[1..])
      case _ => RuleLines(lines[1..])
  }

  function Lhss(rl: seq<(string, string)>): (r: seq<string>)
    ensures |r| == |rl| && forall k :: 0 <= k < |rl| ==> r[k] == rl[k].0
  {
    if rl == [] then [] else [rl[0].0] + Lhss(rl[1..])
  }

  /** The terminal texts the rule lines contribute, in order. */
  function RuleTerms(rl: seq<(string, string)>): seq<string>
  {
    if rl == [] then []
    else
      var alts := AlternativesOf(rl[0].1);
      TermsOfAll(alts, |alts|) + RuleTerms(rl[1..])
  }

  predicate Distinct(s: seq<string>)
  {
    forall i, j :: 0 <= i < j < |s| ==> s[i] != s[j]
  }

  // ---------------------------------------------------------------- lines

  /** Lines starting with `#` (untrimmed) and blank lines are the ones skipped. */
  lemma SkippedLines(line: string)
    ensures ReadLine(line) == Skip <==>
            StartsWith(line, "#") || forall i :: 0 <= i < |line| ==> IsSpace(line[i])
  {
    StripEmptyIffBlank(line);
  }

  /** A line without `::=` reaches the tuple unpacking with one piece and fails there, not at the one-line check. */
  lemma MissingSeparator(line: string)
    requires !StartsWith(line, "#") && Strip(line) != ""
    requires forall i :: !OccursAt(line, "::=", i)
    ensures ReadLine(line) == Bad(UnpackMismatch(1))
  {
    assert Find(line, "::=") == -1;
    SplitWithoutSeparator(line, "::=");
  }

  /** Only a `::=` at column 0 makes `line.find` falsy and reaches the one-line error. */
  lemma LeadingSeparator(line: string)
    requires !StartsWith(line, "#") && Strip(line) != ""
    ensures ReadLine(line) == Bad(NotOnOneLine) <==> StartsWith(line, "::=")
  {
    if StartsWith(line, "::=") {
      assert OccursAt(line, "::=", 0);
    }
    if Find(line, "::=") == 0 {
      assert OccursAt(line, "::=", 0);
    }
  }

  /**
   * A line that is neither skipped nor a rule raises: a rule line is exactly
   * one that splits on `::=` into two pieces whose stripped head holds a
   * `<...>` span.
   */
  lemma RuleLineIff(line: string)
    requires ReadLine(line) != Skip
    ensures ReadLine(line).Rule? <==>
            |SplitOn(line, "::=")| == 2 && HasNTSpan(Strip(SplitOn(line, "::=")[0]))
  {
    if Find(line, "::=") == 0 {
      var parts := SplitOn(line, "::=");
      assert parts[0] == "";
      assert !HasNTSpan(Strip(""));
    }
  }

  /** A rule line is its head, one `::=` and its right-hand side; the left-hand side is the stripped head. */
  lemma RuleLineShape(line: string)
    requires ReadLine(line).Rule?
    ensures var r := ReadLine(line);
            exists head :: line == head + "::=" + r.rhs && r.lhs == Strip(head) && HasNTSpan(r.lhs)
                           && Find(head, "::=") == -1 && Find(r.rhs, "::=") == -1
  {
    var parts := SplitOn(line, "::=");
    SplitJoin(line, "::=");
    SplitPiecesLackSeparator(line, "::=");
    assert JoinWith(parts, "::=") == parts[0] + "::=" + JoinWith(parts[1..], "::=");
    assert line == parts[0] + "::=" + parts[1];
  }

  // ---------------------------------------------------------- productions

  /** The shape every symbol of a read production has. */
  predicate SymbolShape(s: Symbol)
  {
    (s.T? ==> !HasNTSpan(s.text)) && (s.NT? ==> HasNTSpan(s.name) && s.notes == [])
  }

  /** A terminal run between non-terminals: non-empty and free of angle brackets. */
  predicate PlainRun(v: string)
  {
    v != "" && forall m :: 0 <= m < |v| ==> v[m] != '<' && v[m] != '>'
  }

  lemma {:induction false} ClassifyShape(values: seq<string>, k: nat)
    requires k <= |values|
    requires forall i :: 0 <= i < |values| ==> TokenShape(values[i])
    ensures forall i :: 0 <= i < |Classify(values, k)| ==>
              SymbolShape(Classify(values, k)[i])
              && (Classify(values, k)[i].T? ==> PlainRun(Classify(values, k)[i].text))
  {
    if k > 0 {
      ClassifyShape(values, k - 1);
    }
  }

  lemma {:induction false} ClassifyKeepsNT(values: seq<string>, k: nat, i: nat)
    requires i < k <= |values| && HasNTSpan(values[i])
    ensures !TerminalOnly(Classify(values, k))
  {
    if i < k - 1 {
      ClassifyKeepsNT(values, k - 1, i);
      assert Classify(values, k - 1) <= Classify(values, k);
      var j :| 0 <= j < |Classify(values, k - 1)| && Classify(values, k - 1)[j].NT?;
      assert Classify(values, k)[j] == Classify(values, k - 1)[j];
    } else {
      assert values[k - 1] != "";
      var c := Classify(values, k);
      assert c[|c| - 1] == NT(values[k - 1], []);
    }
  }

  /**
   * An alternative without a `<...>` span is one terminal holding its whole
   * text; one with a span yields at least one non-terminal, and then every
   * terminal run is non-empty and free of brackets.
   */
  lemma ProductionShape(alt: string)
    ensures TerminalOnly(ProductionOf(alt)) <==> !HasNTSpan(alt)
    ensures !HasNTSpan(alt) ==> ProductionOf(alt) == [T(alt)]
    ensures forall i :: 0 <= i < |ProductionOf(alt)| ==> SymbolShape(ProductionOf(alt)[i])
    ensures HasNTSpan(alt) ==>
              forall i :: 0 <= i < |ProductionOf(alt)| && ProductionOf(alt)[i].T? ==>
                PlainRun(ProductionOf(alt)[i].text)
  {
    if HasNTSpan(alt) {
      var values := FindAllFrom(alt, 0);
      FindAllShapes(alt, 0);
      ClassifyShape(values, |values|);
      var p, j :| 0 <= p < |alt| && 0 <= j < |alt| && SpanAt(alt, p, j);
      FindAllKeepsSpan(alt, 0, p, j);
      var i :| 0 <= i < |values| && HasNTSpan(values[i]);
      ClassifyKeepsNT(values, |values|, i);
    }
  }

  // --------------------------------------------------------------- tables

  /** What a read production satisfies, relative to the terminal list. */
  predicate ReadProduction(p: Production, terminals: seq<string>)
  {
    p != [] && (TerminalOnly(p) ==> |p| == 1)
    && forall i :: 0 <= i < |p| ==> SymbolShape(p[i]) && (p[i].T? ==> p[i].text in terminals)
  }

  /**
   * The invariant of the reader's tables: records, rules and keys agree, no
   * key twice, each record fresh, the start symbol is the first key, no
   * terminal text holds a `<...>` span, and every production is read.
   */
  ghost predicate WellRead(t: Tables)
  {
    && t.rules.Keys == t.info.Keys
    && (forall x :: x in t.info <==> x in t.order)
    && Distinct(t.order)
    && (forall x :: x in t.info ==> t.info[x] == FreshInfo(x))
    && (t.start.None? <==> t.order == [])
    && (t.start.Some? ==> t.start.value == t.order[0])
    && (forall k :: 0 <= k < |t.terminals| ==> !HasNTSpan(t.terminals[k]))
    && (forall n :: n in t.rules ==> |t.rules[n]| >= 1)
    && (forall n, a :: n in t.rules && 0 <= a < |t.rules[n]| ==> ReadProduction(t.rules[n][a], t.terminals))
  }

  lemma TermsIn(p: Production, i: nat)
    requires i < |p| && p[i].T?
    ensures p[i].text in Terms(p)
    decreases |p|
  {
    if i > 0 {
      TermsIn(p[1..], i - 1);
    }
  }

  lemma TermsShape(p: Production)
    requires forall i :: 0 <= i < |p| ==> SymbolShape(p[i])
    ensures forall k :: 0 <= k < |Terms(p)| ==> !HasNTSpan(Terms(p)[k])
    decreases |p|
  {
    if p != [] {
      TermsShape(p[1..]);
    }
  }

  lemma {:induction false} TermsOfAllFacts(ps: seq<Production>, k: nat)
    requires k <= |ps|
    requires forall a, i :: 0 <= a < |ps| && 0 <= i < |ps[a]| ==> SymbolShape(ps[a][i])
    ensures forall m :: 0 <= m < |TermsOfAll(ps, k)| ==> !HasNTSpan(TermsOfAll(ps, k)[m])
    ensures forall a, i :: 0 <= a < k && 0 <= i < |ps[a]| && ps[a][i].T? ==> ps[a][i].text in TermsOfAll(ps, k)
  {
    if k > 0 {
      TermsOfAllFacts(ps, k - 1);
      TermsShape(ps[k - 1]);
      var p := ps[k - 1];
      forall i | 0 <= i < |p| && p[i].T? ensures p[i].text in TermsOfAll(ps, k) {
        TermsIn(p, i);
      }
    }
  }

  lemma {:induction false} AlternativesRead(pieces: seq<string>, k: nat)
    requires k <= |pieces|
    ensures forall a :: 0 <= a < k ==> Alternatives(pieces, k)[a] == ProductionOf(pieces[a])
  {
    if k > 0 {
      var prev := Alternatives(pieces, k - 1);
      AlternativesRead(pieces, k - 1);
      assert Alternatives(pieces, k) == prev + [ProductionOf(pieces[k - 1])];
      forall a | 0 <= a < k ensures Alternatives(pieces, k)[a] == ProductionOf(pieces[a]) {
        if a < k - 1 {
          assert Alternatives(pieces, k)[a] == prev[a];
        }
      }
    }
  }

  /** The alternatives of a right-hand side: at least one, each read, their terminals recorded. */
  lemma AlternativesOfShape(rhs: string, terminals: seq<string>)
    ensures var alts := AlternativesOf(rhs);
            |alts| >= 1
            && (forall m :: 0 <= m < |TermsOfAll(alts, |alts|)| ==> !HasNTSpan(TermsOfAll(alts, |alts|)[m]))
            && forall a :: 0 <= a < |alts| ==> ReadProduction(alts[a], terminals + TermsOfAll(alts, |alts|))
  {
    var pieces := Pieces(rhs);
    var alts := AlternativesOf(rhs);
    AlternativesRead(pieces, |pieces|);
    forall a | 0 <= a < |alts| ensures forall i :: 0 <= i < |alts[a]| ==> SymbolShape(alts[a][i]) {
      ProductionShape(pieces[a]);
    }
    TermsOfAllFacts(alts, |alts|);
    forall a | 0 <= a < |alts| ensures ReadProduction(alts[a], terminals + TermsOfAll(alts, |alts|)) {
      ProductionShape(pieces[a]);
      if TerminalOnly(alts[a]) {
        assert !HasNTSpan(pieces[a]);
      }
    }
  }

  lemma ReadProductionGrows(p: Production, terminals: seq<string>, more: seq<string>)
    requires ReadProduction(p, terminals)
    ensures ReadProduction(p, terminals + more)
  {
  }

  /** Adding a new rule keeps the tables well read and appends its left-hand side to the keys. */
  lemma AddRuleWellRead(t: Tables, lhs: string, rhs: string)
    requires WellRead(t) && HasNTSpan(lhs) && lhs !in t.rules
    ensures AddRule(t, lhs, rhs).Ok?
    ensures WellRead(AddRule(t, lhs, rhs).value)
    ensures AddRule(t, lhs, rhs).value.order == t.order + [lhs]
  {
    var alts := AlternativesOf(rhs);
    var t' := AddRule(t, lhs, rhs).value;
    AlternativesOfShape(rhs, t.terminals);
    var more := TermsOfAll(alts, |alts|);
    forall n, a | n in t'.rules && 0 <= a < |t'.rules[n]| ensures ReadProduction(t'.rules[n][a], t'.terminals) {
      if n != lhs {
        ReadProductionGrows(t.rules[n][a], t.terminals, more);
      }
    }
    assert forall k :: 0 <= k < |t'.terminals| ==> !HasNTSpan(t'.terminals[k]) by {
      forall k | 0 <= k < |t'.terminals| ensures !HasNTSpan(t'.terminals[k]) {
        if k >= |t.terminals| {
          assert t'.terminals[k] == more[k - |t.terminals|];
        }
      }
    }
  }

  lemma AllGoodLines(lines: seq<string>)
    requires lines != []
    ensures (forall k :: 0 <= k < |lines| ==> !ReadLine(lines[k]).Bad?) <==>
            !ReadLine(lines[0]).Bad? && forall k :: 0 <= k < |lines[1..]| ==> !ReadLine(lines[1..][k]).Bad?
  {
    assert forall k :: 1 <= k < |lines| ==> lines[k] == lines[1..][k - 1];
  }

  /** Reading succeeds exactly when no line is bad and no left-hand side repeats one already read. */
  lemma {:induction false} ParseFromOk(t: Tables, lines: seq<string>)
    requires WellRead(t)
    ensures ParseFrom(t, lines).Ok? <==>
            (forall k :: 0 <= k < |lines| ==> !ReadLine(lines[k]).Bad?)
            && Distinct(t.order + Lhss(RuleLines(lines)))
    decreases |lines|, 1
  {
    if lines == [] {
      assert t.order + Lhss(RuleLines(lines)) == t.order;
    } else {
      var rest := lines[1..];
      AllGoodLines(lines);
      match ReadLine(lines[0])
      case Skip =>
        assert ParseFrom(t, lines) == ParseFrom(t, rest);
        assert RuleLines(lines) == RuleLines(rest);
        ParseFromOk(t, rest);
      case Bad(e) =>
        assert ParseFrom(t, lines).Err?;
      case Rule(lhs, rhs) =>
        assert Lhss(RuleLines(lines)) == [lhs] + Lhss(RuleLines(rest));
        if lhs in t.rules {
          assert ParseFrom(t, lines).Err?;
          var i :| 0 <= i < |t.order| && t.order[i] == lhs;
          var all := t.order + Lhss(RuleLines(lines));
          assert all[i] == lhs && all[|t.order|] == lhs;
          assert !Distinct(all);
        } else {
          NewRuleOk(t, lines, lhs, rhs);
        }
    }
  }

  lemma {:induction false} NewRuleOk(t: Tables, lines: seq<string>, lhs: string, rhs: string)
    requires WellRead(t) && lines != [] && ReadLine(lines[0]) == Rule(lhs, rhs) && lhs !in t.rules
    ensures ParseFrom(t, lines).Ok? <==>
            (forall k :: 0 <= k < |lines[1..]| ==> !ReadLine(lines[1..][k]).Bad?)
            && Distinct(t.order + Lhss(RuleLines(lines)))
    decreases |lines|, 0
  {
    var rest := lines[1..];
    AddRuleWellRead(t, lhs, rhs);
    var t1 := AddRule(t, lhs, rhs).value;
    assert ParseFrom(t, lines) == ParseFrom(t1, rest);
    ParseFromOk(t1, rest);
    assert Lhss(RuleLines(lines)) == [lhs] + Lhss(RuleLines(rest));
    ConcatAssoc(t.order, [lhs], Lhss(RuleLines(rest)));
  }

  /** After a successful reading of the keys `new` that are not in `t`, the earlier rules are unchanged. */
  predicate Extends(t: Tables, t': Tables, rl: seq<(string, string)>)
  {
    && t'.order == t.order + Lhss(rl)
    && t'.terminals == t.terminals + RuleTerms(rl)
    && (forall x :: x in t.rules ==> x in t'.rules && t'.rules[x] == t.rules[x])
    && (forall k :: 0 <= k < |rl| ==> rl[k].0 in t'.rules && t'.rules[rl[k].0] == AlternativesOf(rl[k].1))
    && (t.start.Some? ==> t'.start == t.start)
  }

  /**
   * A successful reading keeps the tables well read: the keys are the
   * left-hand sides in line order, each with the alternatives of its line,
   * and the terminals are those of the rule lines appended in order.
   */
  lemma {:induction false} ParseFromValue(t: Tables, lines: seq<string>)
    requires WellRead(t) && ParseFrom(t, lines).Ok?
    ensures WellRead(ParseFrom(t, lines).value)
    ensures Extends(t, ParseFrom(t, lines).value, RuleLines(lines))
    decreases |lines|, 1
  {
    if lines == [] {
      assert Lhss(RuleLines(lines)) == [] && RuleTerms(RuleLines(lines)) == [];
    } else {
      match ReadLine(lines[0])
      case Skip =>
        assert ParseFrom(t, lines) == ParseFrom(t, lines[1..]);
        assert RuleLines(lines) == RuleLines(lines[1..]);
        ParseFromValue(t, lines[1..]);
      case Rule(lhs, rhs) =>
        NewRuleValue(t, lines, lhs, rhs);
    }
  }

  lemma {:induction false} NewRuleValue(t: Tables, lines: seq<string>, lhs: string, rhs: string)
    requires WellRead(t) && ParseFrom(t, lines).Ok?
    requires lines != [] && ReadLine(lines[0]) == Rule(lhs, rhs)
    ensures WellRead(ParseFrom(t, lines).value)
    ensures Extends(t, ParseFrom(t, lines).value, RuleLines(lines))
    decreases |lines|, 0
  {
    var rest := lines[1..];
    assert lhs !in t.rules;
    AddRuleWellRead(t, lhs, rhs);
    var t1 := AddRule(t, lhs, rhs).value;
    assert ParseFrom(t, lines) == ParseFrom(t1, rest);
    ParseFromValue(t1, rest);
    assert lhs !in t.info;
    assert RuleLines(lines) == [(lhs, rhs)] + RuleLines(rest);
    ExtendsCons(t, lhs, rhs, ParseFrom(t, lines).value, RuleLines(rest));
  }

  lemma ExtendsCons(t: Tables, lhs: string, rhs: string, t': Tables, rl1: seq<(string, string)>)
    requires lhs !in t.rules && lhs !in t.info
    requires Extends(AddRule(t, lhs, rhs).value, t', rl1)
    ensures Extends(t, t', [(lhs, rhs)] + rl1)
  {
    ExtendsOrder(t, lhs, rhs, t', rl1);
    ExtendsTerms(t, lhs, rhs, t', rl1);
    ExtendsRules(t, lhs, rhs, t', rl1);
  }

  lemma ExtendsOrder(t: Tables, lhs: string, rhs: string, t': Tables, rl1: seq<(string, string)>)
    requires lhs !in t.rules && lhs !in t.info
    requires t'.order == AddRule(t, lhs, rhs).value.order + Lhss(rl1)
    ensures t'.order == t.order + Lhss([(lhs, rhs)] + rl1)
  {
    var rl := [(lhs, rhs)] + rl1;
    assert rl[1..] == rl1;
    assert Lhss(rl) == [lhs] + Lhss(rl1);
    ConcatAssoc(t.order, [lhs], Lhss(rl1));
  }

  lemma ExtendsTerms(t: Tables, lhs: string, rhs: string, t': Tables, rl1: seq<(string, string)>)
    requires lhs !in t.rules && lhs !in t.info
    requires t'.terminals == AddRule(t, lhs, rhs).value.terminals + RuleTerms(rl1)
    ensures t'.terminals == t.terminals + RuleTerms([(lhs, rhs)] + rl1)
  {
    var rl := [(lhs, rhs)] + rl1;
    assert rl[1..] == rl1;
    var alts := AlternativesOf(rhs);
    var more := TermsOfAll(alts, |alts|);
    assert RuleTerms(rl) == more + RuleTerms(rl1);
    ConcatAssoc(t.terminals, more, RuleTerms(rl1));
  }

  lemma ConcatAssoc(a: seq<string>, b: seq<string>, c: seq<string>)
    ensures (a + b) + c == a + (b + c)
  {
  }

  lemma ExtendsRules(t: Tables, lhs: string, rhs: string, t': Tables, rl1: seq<(string, string)>)
    requires lhs !in t.rules && lhs !in t.info
    requires var t1 := AddRule(t, lhs, rhs).value;
             (forall x :: x in t1.rules ==> x in t'.rules && t'.rules[x] == t1.rules[x])
             && (forall k :: 0 <= k < |rl1| ==> rl1[k].0 in t'.rules && t'.rules[rl1[k].0] == AlternativesOf(rl1[k].1))
    ensures var rl := [(lhs, rhs)] + rl1;
            (forall x :: x in t.rules ==> x in t'.rules && t'.rules[x] == t.rules[x])
            && (forall k :: 0 <= k < |rl| ==> rl[k].0 in t'.rules && t'.rules[rl[k].0] == AlternativesOf(rl[k].1))
  {
    var rl := [(lhs, rhs)] + rl1;
    var t1 := AddRule(t, lhs, rhs).value;
    assert lhs in t1.rules && t1.rules[lhs] == AlternativesOf(rhs);
    forall k | 0 <= k < |rl| ensures rl[k].0 in t'.rules && t'.rules[rl[k].0] == AlternativesOf(rl[k].1) {
      if k > 0 {
        assert rl[k] == rl1[k - 1];
      }
    }
  }

  /** The start symbol is the first left-hand side read. */
  lemma StartIsFirstRule(lines: seq<string>)
    requires ParseFrom(NoTables, lines).Ok?
    ensures var t := ParseFrom(NoTables, lines).value;
            t.start == (if RuleLines(lines) == [] then None else Some(RuleLines(lines)[0].0))
  {
    ParseFromValue(NoTables, lines);
  }
}

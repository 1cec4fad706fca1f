# PonyGE2 grammar engine, modelled in Dafny

This project models the class `grammar` of PonyGE2
(`src/representation/grammar.py`): the context-free-grammar engine of a
grammatical-evolution system. The class has four parts, and each is modelled.

- **The BNF reader** (`read_bnf_file`). It works on the grammar's lines and fills in:
  - the rule table;
  - the per-non-terminal records, keyed in definition order;
  - the terminal list, with repeats kept;
  - the start rule.
- **The depth analysis** (`check_depths`). It has five steps:
  - pass 1 sets `b_factor`, `expanded` and `min_steps`;
  - pass 2 clears `recursive`;
  - `min_path` is read from the start rule;
  - `max_arity` is the largest `min_steps`;
  - two loops append each non-terminal's `min_steps`, then its `recursive` flag, to every occurrence of it.
- **The permutation counter**:
  - `check_all_permutations` is a memoised recurrence over the productions that hold a non-terminal;
  - `check_permutations` patches the memo over a ramp of depths, so that it holds exact counts per depth.
- **The genotype-to-phenotype mapper** (`generate`). It is a leftmost derivation that consumes codons, with a wrap counter, a depth cap, a node count and an invalid flag.

**Layers.** The model has two layers.

- **Specification functions** are written over values:
  - `Parser.ParseFrom` for the reader;
  - `Depths.Pass1`, `Depths.Pass2` and `Depths.Annotate` for the analysis;
  - `Permutations.GrammarCount`, `Permutations.Cumulative` and `Permutations.Patch` for the counter;
  - `Mapper.Step`, `Mapper.Run` and `Mapper.Mapped` for the mapper;
  - `Loading.Loaded` for the whole constructor.
- **Imperative methods.** The class `Engine.Grammar` has the fields the source updates in place. Its methods, with the loop methods in modules Reading, Visits, Counting and Generating, do what the source does step by step. Each is proved to compute exactly its specification function.

**What the lemmas establish about the specification functions:**

- **Reader:**
  - which lines are skipped, and which errors are raised;
  - that the start rule is the first left-hand side;
  - that every alternative is read as the bracket tokeniser splits it;
  - that the terminals are recorded in order.
- **Pass 1 is sound:** an expanded non-terminal has a complete derivation tree of depth `min_steps`.
- **Pass 1 is complete:** every non-terminal with a tree of at most as many levels as there are rules is expanded.
- **Pass 1 is exact:** a non-terminal is expanded exactly when some derivation of it completes at all. The family of non-terminals derivable within `k` levels grows with `k` and stays inside the keys. Once two neighbouring levels agree it never changes again, so `len(non_terminals)` sweeps suffice.
- **Pass 1 only grows:** `expanded` never reverts, and only `min_steps`, `expanded` and `b_factor` change.
- **Pass 2:**
  - it only turns `recursive` from true to false;
  - its flip rule is exactly "every non-terminal of every alternative is already non-recursive";
  - a non-terminal it marks non-recursive can never reach itself;
  - it is exact: on closed rules a non-terminal is marked non-recursive exactly when no cycle can be reached from it (the same fixed-point argument, then a walk of `len(non_terminals)` references that must repeat a key).
- **Post-pass:**
  - `max_arity` bounds every `min_steps`;
  - every occurrence gets exactly its record's two fields.
- **Counter:**
  - the recurrence is monotone in the depth;
  - it is positive exactly when a tree complete within that depth exists;
  - the patched memo holds the exact counts, and they add up to the cumulative count.
- **Mapper:**
  - the loop terminates under the lexicographic measure (1 while the depth cap holds, then a weighted frontier size);
  - it keeps the depth invariant;
  - every step is a leftmost derivation step or emits a terminal, so a finished phenotype is a sentence of the grammar;
  - the codons used and the depth are bounded.

In three places the code behaves differently from what one might expect; the model follows the code:

- A start alternative that holds a non-terminal but has no table entry at the depth counts 0 (lines 251-252).
- Popping a terminal does not count a node (lines 285-286).
- The wrap counter is raised on every iteration that begins with `used_input` at a positive multiple of the genome length while a non-terminal is pending (lines 274-277). It is not raised once per wrap.

These quirks are also modelled as written:

- **The separator test.** `line.find` is falsy only at column 0, so a line without `::=` reaches the unpacking on line 41 and fails there.
- **The left-hand-side test.** The stripped left-hand side only has to contain a `<…>` span.
- **The single-child update.** The update at lines 126-131 can raise `min_steps`; `Depths.SingleChildRaises` exhibits it. Because of this, `min_steps` is the depth of some complete tree, not always the smallest one.

## Model

| member | source | states |
|---|---|---|
| Text.TrimStartFacts | src/representation/grammar.py:38 | the left trim removes exactly the leading white-space prefix (Python's `isspace` set) and stops at a non-space |
| Text.TrimEndFacts | src/representation/grammar.py:38 | the right trim removes exactly the trailing white-space suffix and stops at a non-space |
| Text.StripEmptyIffBlank | src/representation/grammar.py:38 | `strip()` gives "" exactly when every character of the line is white space |
| Text.FindFrom | src/representation/grammar.py:40 | the result is -1 or an occurrence of the separator, and no occurrence comes before it |
| Text.SplitPiecesLackSeparator | src/representation/grammar.py:41 | no piece of `split(sep)` contains the separator |
| Text.SplitJoin | src/representation/grammar.py:41 | joining the pieces of `split(sep)` with the separator gives back the line |
| Text.SplitWithoutSeparator | src/representation/grammar.py:41 | a text without the separator splits into itself alone |
| Text.CloseFrom | src/representation/grammar.py:32 | the lazy `.+?` scan stops at the first `>` at least two places after the `<` with no line break before it, or finds none exactly when each such `>` has a line break before it |
| Text.CloseFindsSpan | src/representation/grammar.py:43 | a `<` opens a match of `<.+?>` exactly when the lazy scan finds its `>`, and that `>` closes a match |
| Text.RunEnd | src/representation/grammar.py:60 | the `[^<>]*` branch matches up to the first `<` or `>`, and the run holds neither |
| Text.FindAllShapes | src/representation/grammar.py:60 | every piece of the `findall` is empty, a bracketed span, or a run free of `<` and `>` |
| Text.FindAllKeepsSpan | src/representation/grammar.py:54-60 | if the alternative holds a `<…>` match, some `findall` piece holds one |
| Symbols.NTNamesMentions | src/representation/grammar.py:115 | `NT_s` lists exactly the non-terminals the choice mentions, and is empty exactly for a terminal-only choice |
| Symbols.Collapse | src/representation/grammar.py:116 | the `groupby` keys are no longer than the input and start with its first element |
| Symbols.CollapseKeeps | src/representation/grammar.py:116 | `groupby` keys keep every name and add none |
| Symbols.CollapseNoRepeats | src/representation/grammar.py:116 | no two neighbouring `groupby` keys are equal |
| Parser.Pieces | src/representation/grammar.py:50-52 | a right-hand side has at least one stripped `|`-piece; how each piece is read is stated by `Parser.AlternativesRead` |
| Parser.AlternativesRead | src/representation/grammar.py:50-69 | the alternatives are the stripped `|`-pieces, each read into a production, in order |
| Parser.SkippedLines | src/representation/grammar.py:38 | a line is skipped exactly when it starts with `#` at column 0 or is blank after `strip` |
| Parser.MissingSeparator | src/representation/grammar.py:40-41 | a line without `::=` passes the `find` test and fails at the unpacking with one piece |
| Parser.LeadingSeparator | src/representation/grammar.py:40 | the one-line error is raised exactly for a line that starts with `::=` |
| Parser.RuleLineIff | src/representation/grammar.py:41-44 | a line is a rule exactly when it splits into two parts on `::=` and its stripped left-hand side contains a `<…>` span |
| Parser.RuleLineShape | src/representation/grammar.py:41-42 | a rule line is a head, one `::=` and the right-hand side; the left-hand side is the stripped head |
| Parser.ClassifyShape | src/representation/grammar.py:60-68 | each kept piece becomes a non-terminal holding a span, or a terminal run free of brackets |
| Parser.ClassifyKeepsNT | src/representation/grammar.py:60-68 | a piece holding a span makes the production hold a non-terminal |
| Parser.ProductionShape | src/representation/grammar.py:54-68 | an alternative is terminal-only exactly when it holds no `<…>` span, and then it is one terminal with its whole text |
| Parser.TermsIn | src/representation/grammar.py:55-65 | every terminal of a production is among the texts it appends |
| Parser.TermsShape | src/representation/grammar.py:54-65 | no appended terminal text holds a `<…>` span |
| Parser.TermsOfAllFacts | src/representation/grammar.py:49-69 | the terminals of a rule's alternatives are all recorded, and none holds a span |
| Parser.AlternativesOfShape | src/representation/grammar.py:49-69 | a right-hand side has at least one alternative, each read, with its terminals recorded |
| Parser.ReadProductionGrows | src/representation/grammar.py:55 | a production read against a terminal list stays read when more terminals are appended |
| Parser.AddRuleWellRead | src/representation/grammar.py:45-74 | a new left-hand side is accepted, keeps the tables well formed, and is appended to the key order |
| Parser.ParseFromOk | src/representation/grammar.py:37-76 | reading succeeds exactly when no line is bad and no left-hand side repeats |
| Parser.NewRuleOk | src/representation/grammar.py:40-74 | after a new rule line, reading succeeds exactly when no later line is bad and the left-hand sides stay distinct |
| Parser.ParseFromValue | src/representation/grammar.py:37-76 | a successful reading keeps the earlier rules, adds each rule line's alternatives, and appends the keys and terminals in order |
| Parser.NewRuleValue | src/representation/grammar.py:45-74 | the same, for lines that start with a new rule |
| Parser.StartIsFirstRule | src/representation/grammar.py:46-47 | the start rule is the first left-hand side read, or none without a rule line |
| Depths.CountTerminalOnlyIff | src/representation/grammar.py:104-108 | the `terms` counter is 0 exactly when no choice is terminal-only, and full exactly when all are |
| Depths.CollapsedFacts | src/representation/grammar.py:115-116 | `NT_choices` holds exactly the non-terminals of the choice, and is empty exactly for a terminal-only one |
| Depths.CollapsedIn | src/representation/grammar.py:115-118 | every collapsed name has a record |
| Depths.MaxStepsBounds | src/representation/grammar.py:119-120 | the `max` over `NT_choices` bounds each child's `min_steps` and is reached by one |
| Depths.Visit1 | src/representation/grammar.py:99-131 | pass 1's visit keeps the record keys; its effect is stated by `Depths.Visit1Frame`, `Depths.Visit1Sound` and `Depths.Visit1Expands` |
| Depths.Sweep1 | src/representation/grammar.py:99-131 | a sweep of pass 1 keeps the record keys; its effect is stated by `Depths.Sweep1Sound`, `Depths.Sweep1Grows` and `Depths.Sweep1Complete` |
| Depths.Rounds1 | src/representation/grammar.py:98-131 | the rounds of pass 1 keep the record keys; their effect is stated by `Depths.Rounds1Sound`, `Depths.Rounds1Grows` and `Depths.Rounds1Complete` |
| Depths.Pass1 | src/representation/grammar.py:98-131 | pass 1 keeps the record keys; what it computes is stated by `Depths.Pass1Correct` and `Depths.Pass1Exact` |
| Depths.ChoiceStepEffect | src/representation/grammar.py:114-131 | several collapsed children change the record only when all are expanded, first to `1 + max`, later only lowering it; one expanded child sets `child + 1`; one unexpanded child changes nothing |
| Depths.ChoiceStepFrame | src/representation/grammar.py:114-131 | a choice changes only `min_steps` and `expanded`, and never un-expands |
| Depths.SingleChildRaises | src/representation/grammar.py:124-131 | the single-child update can raise `min_steps` (2 to 3) |
| Depths.ChoiceStepAbove | src/representation/grammar.py:117-131 | a choice that changes the record expands it one level above each of the choice's non-terminals, all of them expanded |
| Depths.ChoiceStepSound | src/representation/grammar.py:114-131 | a choice keeps the record sound: expanded means a tree of depth `min_steps` exists |
| Depths.ChoicesFrame | src/representation/grammar.py:114-131 | the walk over choices changes only `min_steps` and `expanded` and never un-expands |
| Depths.ChoicesSound | src/representation/grammar.py:114-131 | the walk over choices keeps the record sound |
| Depths.TerminalDerives | src/representation/grammar.py:105-111 | a terminal-only choice gives a tree of depth 1 |
| Depths.Visit1Frame | src/representation/grammar.py:100-111 | a visit sets `b_factor` to the number of choices, leaves an expanded record otherwise alone, and sets `min_steps` 1 for a choice of terminals |
| Depths.Visit1Sound | src/representation/grammar.py:99-131 | a visit keeps every record sound |
| Depths.Sweep1Grows | src/representation/grammar.py:99-131 | a sweep never un-expands and changes only `min_steps`, `expanded` and `b_factor` |
| Depths.Rounds1Grows | src/representation/grammar.py:98-131 | the same for several sweeps |
| Depths.Sweep1Sound | src/representation/grammar.py:99-131 | a sweep keeps every record sound |
| Depths.Rounds1Sound | src/representation/grammar.py:98-131 | several sweeps keep every record sound |
| Depths.ChoiceStepExpands | src/representation/grammar.py:117-131 | a choice whose non-terminals are all expanded leaves the record expanded |
| Depths.ChoicesExpand | src/representation/grammar.py:114-131 | a walk that passes such a choice leaves the record expanded |
| Depths.Visit1Expands | src/representation/grammar.py:102-131 | a visit expands a non-terminal with a tree of `k` levels once all with `k - 1` levels are expanded |
| Depths.Sweep1Complete | src/representation/grammar.py:99-131 | a sweep keeps completeness and expands every visited non-terminal with a tree one level deeper |
| Depths.Rounds1Complete | src/representation/grammar.py:98-131 | after `n` sweeps every non-terminal with a tree of `n` levels is expanded |
| Depths.Pass1Correct | src/representation/grammar.py:98-131 | pass 1 from fresh records is sound, complete up to as many levels as there are keys, and only grows; `Depths.Pass1Exact` extends completeness to every depth |
| Depths.Visit1Facts | src/representation/grammar.py:101-111 | a visit keeps "an expanded non-terminal with a terminal-only choice has `min_steps` 1" |
| Depths.Sweep1TerminalOne | src/representation/grammar.py:99-111 | a sweep keeps the same property |
| Depths.Sweep1BFactor | src/representation/grammar.py:101 | after a sweep every visited record's `b_factor` is its number of choices |
| Depths.Rounds1Facts | src/representation/grammar.py:98-111 | the same two facts over rounds |
| Depths.Pass1BFactorAndTerminals | src/representation/grammar.py:98-111 | after pass 1 `b_factor` is the number of choices, and a non-terminal with a terminal-only choice is expanded with `min_steps` 1 |
| Depths.CountNTs | src/representation/grammar.py:144 | `len(temp)` is at most the production's length |
| Depths.CountNonRecNTs | src/representation/grammar.py:145-148 | `orary` is at most `len(temp)` |
| Depths.CountNTsIff | src/representation/grammar.py:144-149 | `temp` is empty exactly for a terminal-only choice, and `orary == len(temp)` exactly when every non-terminal of it is non-recursive |
| Depths.CountChoices | src/representation/grammar.py:138-157 | `terms + nonrecurs` never exceeds the number of choices, and equals it exactly when every non-terminal of every choice is non-recursive |
| Depths.Visit2Flip | src/representation/grammar.py:136-160 | a visit clears `recursive` exactly when it was set and every child is non-recursive; nothing else changes |
| Depths.Visit2 | src/representation/grammar.py:134-160 | pass 2's visit keeps the record keys; its effect is stated by `Depths.Visit2Flip` |
| Depths.Sweep2 | src/representation/grammar.py:134-160 | a sweep of pass 2 keeps the record keys; its effect is stated by `Depths.Sweep2Sound`, `Depths.Sweep2Shrinks` and `Depths.Sweep2Complete` |
| Depths.Rounds2 | src/representation/grammar.py:133-160 | the rounds of pass 2 keep the record keys; their effect is stated by `Depths.Rounds2Sound`, `Depths.Rounds2Shrinks` and `Depths.Rounds2Complete` |
| Depths.Pass2 | src/representation/grammar.py:133-160 | pass 2 keeps the record keys; what it computes is stated by `Depths.Pass2Correct` and `Depths.Pass2Exact` |
| Depths.AcyclicNoCycle | src/representation/grammar.py:133-160 | a non-terminal without reference chains of some length never reaches itself |
| Depths.Visit2Sound | src/representation/grammar.py:136-160 | after `t + 1` visits a non-recursive record allows no reference chain of `t + 1` links |
| Depths.Sweep2Sound | src/representation/grammar.py:134-160 | the same over a sweep of `k` visits |
| Depths.Sweep2Shrinks | src/representation/grammar.py:134-160 | a sweep only turns `recursive` from true to false |
| Depths.Rounds2Sound | src/representation/grammar.py:133-160 | after `n` rounds a non-recursive record allows no chain of `n` times the key count links |
| Depths.Rounds2Shrinks | src/representation/grammar.py:133-160 | rounds only turn `recursive` from true to false |
| Depths.Visit2Completes | src/representation/grammar.py:136-160 | a visit clears `recursive` of a non-terminal without chains of `k` links once all without chains of `k - 1` are cleared |
| Depths.Sweep2Complete | src/representation/grammar.py:134-160 | a sweep keeps that completeness and extends it to every visited key |
| Depths.Rounds2Complete | src/representation/grammar.py:133-160 | after `n` rounds every non-terminal without chains of `n` links is non-recursive |
| Depths.Pass2Correct | src/representation/grammar.py:133-160 | pass 2 marks non-recursive only non-terminals that never reach themselves, marks all without chains of as many links as there are keys, and changes only `recursive`, from true to false; `Depths.Pass2Exact` makes this exact |
| Depths.DerivesWithinKeys | src/representation/grammar.py:98-99 | a non-terminal that some derivation completes is completed within as many levels as there are keys, which is all that `len(non_terminals)` sweeps can reach |
| Depths.AcyclicWithinKeys | src/representation/grammar.py:133-134 | a non-terminal whose reference chains are bounded at all has no chain of as many links as there are keys |
| Depths.ChainsBoundedIffNoCycle | src/representation/grammar.py:133-160 | on closed rules, chains from a key are bounded exactly when no cycle can be reached from it |
| Depths.Pass1Exact | src/representation/grammar.py:98-131 | pass 1 from fresh records expands exactly the non-terminals that some derivation completes, at whatever depth |
| Depths.Pass2Exact | src/representation/grammar.py:133-160 | pass 2 from all-recursive records clears `recursive` exactly for the non-terminals with bounded reference chains, which are exactly those from which no cycle can be reached |
| Depths.MaxArityBounds | src/representation/grammar.py:167-170 | `max_arity` is at least 0 and every key's `min_steps`, and is 0 or one of them |
| Depths.NoteProduction | src/representation/grammar.py:172-174 | an annotated production keeps its length; its content is stated by `Depths.AnnotateEffect` |
| Depths.NoteAlts | src/representation/grammar.py:172-174 | an annotated rule keeps its alternatives' count; their content is stated by `Depths.AnnotateEffect` |
| Depths.NoteRules | src/representation/grammar.py:171-174 | one annotation loop keeps the keys and every reference defined; its content is stated by `Depths.AnnotateEffect` |
| Depths.Annotate | src/representation/grammar.py:171-178 | both annotation loops keep the keys and every reference defined; the notes appended are stated by `Depths.AnnotateEffect` |
| Depths.AnnotateEffect | src/representation/grammar.py:171-178 | every non-terminal occurrence gets exactly its record's `min_steps`, then its `recursive` flag; everything else stays |
| Permutations.ProdCountMono | src/representation/grammar.py:237-248 | a production's count never falls from one level to the next |
| Permutations.ProductOverMono | src/representation/grammar.py:237-247 | so does `symPos` |
| Permutations.WaysMono | src/representation/grammar.py:241-246 | so does `symbolArityPos` |
| Permutations.ChildCountMono | src/representation/grammar.py:242-246 | so does one child's share |
| Permutations.StartWaysMono | src/representation/grammar.py:250-254 | so does the sum over the start alternatives |
| Permutations.GrammarCountMono | src/representation/grammar.py:218-256 | the cumulative count never falls as the depth grows |
| Permutations.ProdCountPositive | src/representation/grammar.py:237-248 | a production's count at level `i` is positive exactly when it has a tree of `i - 1` levels |
| Permutations.ProductOverPositive | src/representation/grammar.py:237-247 | `symPos` is positive exactly when each of its non-terminals has a tree of `i - 1` levels |
| Permutations.WaysPositive | src/representation/grammar.py:241-246 | `symbolArityPos` is positive exactly when some alternative has a tree |
| Permutations.ChildCountPositive | src/representation/grammar.py:242-246 | a child's share is positive exactly when it has a tree |
| Permutations.StartWaysPositive | src/representation/grammar.py:250-254 | the start sum is positive exactly when some start alternative has a tree |
| Permutations.GrammarCountPositive | src/representation/grammar.py:218-256 | the cumulative count at a depth is positive exactly when some derivation of the start completes within that depth |
| Permutations.TwoTerminals | src/representation/grammar.py:250-254 | `<S> ::= a \| b` gives 2 at every depth |
| Permutations.PairExample | src/representation/grammar.py:230-254 | `<S> ::= <A><A> \| x`, `<A> ::= a \| b` gives 1 at depth 1 and 5 at depth 2 |
| Permutations.Exacts | src/representation/grammar.py:187-201 | `perms_list` after `n` depths has `n` entries; their values are stated by `Permutations.ExactsSum` and `Permutations.ExactsFromEmpty` |
| Permutations.PatchAt | src/representation/grammar.py:194 | the patch writes exactly the ramp's depths, each with its exact entry |
| Permutations.ExactsSum | src/representation/grammar.py:193-194 | the first `n` exact entries add up to the cumulative count at the `n`-th depth |
| Permutations.ExactsFromEmpty | src/representation/grammar.py:189-201 | from an empty memo each exact entry is the count difference of two neighbouring depths, never negative, and the first is positive when the start has a tree |
| Permutations.PatchStep | src/representation/grammar.py:190-194 | a depth not yet patched is counted as from the original memo, and storing its entry extends the patch by one depth |
| Permutations.RampAdvance | src/representation/grammar.py:189-201 | one turn of the ramp loop appends the next exact entry and patches its depth |
| Mapper.SymsChildren | src/representation/grammar.py:296-298 | the symbols of the children are exactly the chosen alternative, in order |
| Mapper.Choose | src/representation/grammar.py:291 | the codon picks an index below the number of alternatives |
| Mapper.StepDecreases | src/representation/grammar.py:280-305 | while the loop runs, a step raises the depth past the cap or lowers the weighted frontier size |
| Mapper.ExpandDecreases | src/representation/grammar.py:288-305 | expanding within the cap replaces an item by lighter children |
| Mapper.StepInv | src/representation/grammar.py:280-305 | a step keeps every pending depth at most one below the deepest one reached |
| Mapper.Run | src/representation/grammar.py:270-305 | the loop ends with the invariant kept and its condition false |
| Mapper.StepEmits | src/representation/grammar.py:285-286 | popping a terminal emits it and leaves the sentential form as it was |
| Mapper.StepExpands | src/representation/grammar.py:288-305 | popping a non-terminal is a leftmost derivation step |
| Mapper.StepForm | src/representation/grammar.py:280-305 | every step emits a terminal or performs a leftmost derivation step |
| Mapper.RunAdvance | src/representation/grammar.py:270-305 | one turn keeps the invariant and the end state, lowers the measure, and keeps or steps the form |
| Mapper.RunDerives | src/representation/grammar.py:270-305 | a leftmost derivation leads from the form of the starting state to the form of the final state |
| Mapper.FinishedIsSentence | src/representation/grammar.py:262-316 | a run that expands everything derives its emitted terminals from the start symbol |
| Mapper.MappedOutcome | src/representation/grammar.py:270-316 | the loop stops on wraps, an empty frontier or the depth cap; the result is invalid exactly when symbols are pending, the phenotype is then the raw tokens and otherwise the joined text; the depth is `current_max_depth + 1` |
| Mapper.StepBounded | src/representation/grammar.py:274-305 | a step keeps the codons used and the depth within their bounds |
| Mapper.RunBounded | src/representation/grammar.py:270-305 | so does the whole loop |
| Mapper.MappedBounds | src/representation/grammar.py:262-316 | at most `max(max_wraps, -1) + 2` genome lengths of codons are used, and the depth is between 1 and `max(MAX_TREE_DEPTH + 2, 1)` |
| Mapper.Turn | src/representation/grammar.py:270-305 | a turn of the loop leads to the same end state |
| Mapper.SingleChoices | src/representation/grammar.py:288-305 | `<S> ::= <A>b`, `<A> ::= a` maps to "ab" with no codon used, 3 nodes and depth 3 |
| Mapper.WrapsTwice | src/representation/grammar.py:274-277 | with one codon the wrap counter fires on two consecutive iterations |
| Visits.VisitDepth | src/representation/grammar.py:99-131 | pass 1's body on one key computes the specified visit |
| Visits.CountTerms | src/representation/grammar.py:104-107 | the `terms` loop counts the terminal-only choices |
| Visits.WalkChoices | src/representation/grammar.py:114-131 | the loop over the choices computes the specified walk |
| Visits.ApplyChoice | src/representation/grammar.py:115-131 | one choice's update is the specified choice step |
| Visits.VisitRecursion | src/representation/grammar.py:135-160 | pass 2's body on one key computes the specified visit |
| Visits.NoteChoice | src/representation/grammar.py:172-178 | one production's annotation loop appends each non-terminal's field |
| Visits.NoteChoices | src/representation/grammar.py:172-178 | one rule's annotation loops |
| Visits.NoteAll | src/representation/grammar.py:171-178 | an annotation loop over all rules computes the specified annotation |
| Visits.SweepDepth | src/representation/grammar.py:99-131 | one sweep of pass 1 |
| Visits.DepthPass | src/representation/grammar.py:98-131 | pass 1's nested loops compute `Pass1` |
| Visits.SweepRecursion | src/representation/grammar.py:134-160 | one sweep of pass 2 |
| Visits.RecursionPass | src/representation/grammar.py:133-160 | pass 2's nested loops compute `Pass2` |
| Visits.LargestSteps | src/representation/grammar.py:167-170 | the `max_arity` loop computes the largest `min_steps`, from 0 |
| Counting.CollectAlts | src/representation/grammar.py:224-226 | one rule appends its alternatives that hold a non-terminal, in order, keeping the earlier ones |
| Counting.CollectProductions | src/representation/grammar.py:221-226 | `productions` lists, in key order, exactly the alternatives that hold a non-terminal |
| Counting.SymbolWays | src/representation/grammar.py:241-246 | `symbolArityPos` is the number of single-terminal children plus the others' entries one level down |
| Counting.ProductionCount | src/representation/grammar.py:237-247 | `symPos` is the product of its non-terminals' ways |
| Counting.EmptyTable | src/representation/grammar.py:230-231 | every production gets an empty entry |
| Counting.FillLevel | src/representation/grammar.py:236-248 | one level stores each production's recurrence value, keeping the earlier levels |
| Counting.FillTable | src/representation/grammar.py:230-248 | the table holds exactly levels 2 to `depth`, each with the recurrence's value |
| Counting.StartSum | src/representation/grammar.py:250-254 | `pos` is the specified grammar count at `depth` |
| Reading.ReadProduction | src/representation/grammar.py:53-68 | one alternative is read into the specified production and its terminals are the texts appended |
| Reading.ReadRule | src/representation/grammar.py:49-69 | a right-hand side is read into the specified alternatives and terminals |
| Generating.AnyNT | src/representation/grammar.py:276 | the `any(...)` test holds exactly when a non-terminal is pending |
| Generating.ChildItems | src/representation/grammar.py:296-298 | the `children` loop builds the chosen symbols one level deeper |
| Generating.CountKids | src/representation/grammar.py:300-302 | `len(NT_kids)` is the production's number of non-terminals |
| Generating.Expand | src/representation/grammar.py:288-305 | expanding uses the codon's choice, spends a codon only if there was a choice, counts nodes, and prepends the children |
| Generating.Iteration | src/representation/grammar.py:273-305 | one turn of the loop computes `Step` |
| Generating.GenerateLoop | src/representation/grammar.py:270-305 | the loop ends in the state `Run` specifies |
| Loading.CrossoverNTsIn | src/representation/grammar.py:27 | a key is listed exactly when it is among the first `k` and its `b_factor` exceeds 1 |
| Loading.CrossoverNTsAll | src/representation/grammar.py:27 | `crossover_NTs` lists exactly the keys whose `b_factor` exceeds 1 |
| Loading.AnnotateShape | src/representation/grammar.py:171-178 | annotation changes only the notes on non-terminals |
| Loading.WellReadShaped | src/representation/grammar.py:54-68 | in read tables a single known terminal is exactly a terminal-only alternative |
| Loading.WellReadIndexed | src/representation/grammar.py:45-47 | read tables have a record per rule, keys in order and a start among them |
| Loading.Records | src/representation/grammar.py:98-160 | both passes keep the record keys; the records' meaning is stated by `Loading.RecordsFacts` and `Loading.RecordsExact` |
| Loading.LoadedErrors | src/representation/grammar.py:13-27 | construction fails to read exactly on a bad line or a repeated left-hand side; then fails with a missing rule exactly on an undefined reference, and for want of a start rule exactly with no rule line |
| Loading.ReadTables | src/representation/grammar.py:29-76 | tables read from the lines are well formed, start at the first left-hand side, and list the keys and terminals in order |
| Loading.LoadedParseError | src/representation/grammar.py:23 | a failed reading is the constructor's error |
| Loading.LoadedAnalysis | src/representation/grammar.py:23-27 | a successful reading is followed by the analysis of the tables read |
| Loading.AnalyseErrors | src/representation/grammar.py:98-166 | an undefined reference fails first, then a missing start rule |
| Loading.AnalyseOk | src/representation/grammar.py:162-201 | on closed tables with a start the analysis completes what `check_depths` leaves, ready for counting and mapping |
| Loading.AnnotatedReady | src/representation/grammar.py:171-178 | the annotated rules keep their keys, have no empty rule and no undefined reference |
| Loading.RecordsFacts | src/representation/grammar.py:98-160 | after both passes: every non-terminal with a tree of at most as many levels as there are keys is expanded, expanded means `min_steps >= 1` with a tree of that depth, unexpanded keeps 9999999999999, non-recursive never reaches itself, and `b_factor` is the number of alternatives; `Loading.RecordsExact` makes the first and fourth exact |
| Loading.RecordsExact | src/representation/grammar.py:98-160 | after both passes a non-terminal is expanded exactly when some derivation of it completes, and non-recursive exactly when no cycle can be reached from it |
| Loading.MinPathFacts | src/representation/grammar.py:162-170 | an expanded start has `min_path >= 1` and a positive count there; `min_path <= max_arity` and `max_arity` bounds every `min_steps` |
| Loading.MaxArityAll | src/representation/grammar.py:167-170 | `max_arity` is at least 0 and every record's `min_steps` |
| Loading.PatchFacts | src/representation/grammar.py:187-201 | from an empty memo the ramp leaves exactly its depths, the first holding the count up to it and each later one the trees of exactly that depth, none negative |
| Engine.Grammar.constructor | src/representation/grammar.py:14-21 | the state before reading: the mode flag, nothing read, an empty memo |
| Engine.Grammar.ReadBnfFile | src/representation/grammar.py:29-76 | the line loop leaves exactly the tables `ParseFrom` gives, or returns its first error |
| Engine.Grammar.AddRuleLine | src/representation/grammar.py:45-74 | one rule line updates the tables as `AddRule` does, or raises on a repeated left-hand side |
| Engine.Grammar.CheckDepths | src/representation/grammar.py:78-178 | `check_depths` fails exactly without a start rule, and otherwise leaves the records of both passes, `min_path`, `max_arity` and the annotated rules |
| Engine.Grammar.Depths | src/representation/grammar.py:98-166 | both passes, then the start lookup |
| Engine.Grammar.PostPass | src/representation/grammar.py:162-178 | `min_path`, `max_arity` and both annotation loops as specified |
| Engine.Grammar.CheckAllPermutations | src/representation/grammar.py:203-256 | a depth below `min_path` is an error; otherwise the memo entry or the computed count is returned and stored |
| Engine.Grammar.RampStep | src/representation/grammar.py:189-201 | one depth of the ramp appends the exact entry and patches the memo |
| Engine.Grammar.CheckPermutations | src/representation/grammar.py:180-201 | the memo is patched over `max(max_arity + 1 - min_path, ramps)` or `ramps` depths |
| Engine.Grammar.Analyse | src/representation/grammar.py:24-27 | the analysis after reading fails as specified or leaves the specified grammar |
| Engine.Grammar.Finish | src/representation/grammar.py:25-27 | `check_permutations()` and `crossover_NTs` complete the analysis |
| Engine.Grammar.Generate | src/representation/grammar.py:262-316 | `generate` returns exactly the specified outcome |
| Engine.Load | src/representation/grammar.py:13-27 | construction fails exactly as `Loaded` does, or builds the grammar `Loaded` describes, in Python mode exactly for a `pybnf` file |
| Engine.DepthsComplete | src/representation/grammar.py:162-201 | what `check_depths` leaves is ready for counting and completes to the analysis |

## Left out

- File reading. The lines are given as a `seq<string>`, and `open` (line 37) is not modelled. Lines are taken as they are, including any line break at the end.
- `python_filter` (lines 1 and 314) is a parameter `filter`. Its behaviour is not modelled.
- `params`: `MAX_TREE_DEPTH` (line 272) is a parameter, and `CODON_SIZE` (line 22) is left out because no modelled algorithm uses it.
- `initialisers.get_min_ramp_depth` (line 26) is a call into another module and is left out, and so is `min_ramp`.
- `__str__` (lines 258-260) only formats text for printing.
- The records' `'permutations': None` entry (line 45) is never changed, so it is not stored.
- `generate` also returns its input genome and `None`. These are not part of `Mapper.Outcome`.
- The `print` and `quit()` at lines 165-166 cannot be reached: every start rule is a key of the records. The model keeps no branch for it.
- The `print` and `quit()` at lines 213-214 become the error result `BelowMinPath`.
- Unexpanded non-terminals. When one is unexpanded it keeps `min_steps` 9999999999999, and so does `min_path` if it is the start. Then `max_arity` is at least that sentinel. The source's ramp at lines 188-194, or the loop `range(2, depth + 1)` at line 233, then runs for about 10^13 steps, so the constructor does not return in practice. `Loading.Loaded`, `Engine.Load` and `Loading.PatchFacts` still describe the values those loops would compute. The model does not capture that the source cannot finish computing them.
- Raised errors. The model promises nothing about the object's state after an error, because the constructor then raises and the object is lost.
- A `TypeError` at line 162 on an empty grammar becomes the error `NoStartRule`. A `KeyError` for an undefined non-terminal (lines 118, 125, 147 and 241) becomes `UndefinedNonTerminal` in `Loading.Loaded`. The methods of `check_depths` and the counter require closed rules instead.
- `Engine.Grammar.Generate` requires a non-empty genome. An empty one would divide by zero at lines 274 and 291.
- The two ramp loops of `check_permutations` (lines 189-194 and 196-201) have the same body, so they are one loop over `RampCount` depths.
- Table keys. The counter's table is keyed by the production itself rather than by `str(prod)`. Equal strings only come from equal productions, so the behaviour is the same.
- Python's built-in `sum` is the function `Permutations.Sum`.
- Python's integers are unbounded, and so are Dafny's. No wrap-around is modelled.
- Depths.Rounds2Sound: the bound is stated as `VisitCount(n, |order|)`; `VisitCountProduct` shows that this is `n * |order|`.

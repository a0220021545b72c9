# Operator-precedence analysis, modelled in Dafny

The repository holds two versions of an operator-precedence parser
generator for small context-free grammars whose rules are written
`A->α|β|...`. Non-terminals are upper-case letters. `#` marks both ends
of the input.

- `OperatorPriority.cpp` runs the whole pipeline.
  1. It splits each rule line at `|` into productions.
  2. It collects the non-terminals.
  3. It computes the FIRSTVT and LASTVT sets by recursion over the
     productions.
  4. It builds the precedence table from those sets.
  5. It runs the shift-reduce analysis of an input string, recording one
     trace row per step.
- `main.cpp` does the same preparation a second way.
  - It reads the lines and splits them at `|`.
  - It lists the terminals and non-terminals in order of first
    occurrence.
  - It computes FIRSTVT and LASTVT as a fixed point of two cases, a basic rule and an
    inheritance rule, iterated
    until nothing changes.
  - It builds the precedence table as a map indexed by terminal pairs,
    with a boundary rule for `#` around the start symbol `E`.

## Modules and how they map to the source

- **Seqs**: the C++ idiom "push if not already present" (`find` followed
  by `push_back`), as `Insert`/`InsertAll` with their properties.
- **TableWrites**: a precedence table seen as the sequence of its cell
  writes. The last write to a cell decides its value.
- **OPGrammar**: `isNonTerminal`, `containsTerminal`, `removeFirstChar` and
  `splitProduction` of `OperatorPriority.cpp`. The grammar record is a
  class whose production list is a sequence field.
- **OPSets**: `extractNonTerminals`, `addToFirstVT`/`addToLastVT`,
  `computeFirstVT`/`computeLastVT` and their drivers. The FIRSTVT and
  LASTVT tables are fields of the class `PrecedenceSets`. Their result is
  characterised, for every non-terminal, as the set of terminals that
  rules 1–3 of FIRSTVT (or LASTVT) derive.
- **OPTable**: `findTerminalIndex`, `initPrecedenceTable`,
  `buildPrecedenceTable` and `getPrecedenceRelation` on the class
  `ParsingData`. The table built equals the write list of the four cell
  rules applied to a blank table.
- **OPAnalysis**: `canReduce` and `analyzeString` on the class
  `ParseState`, which holds the two global strings `stackContent` and
  `remainingInput`. One iteration of the loop is the function `Next`. The
  whole run of the method equals the function `Drive`, which iterates
  `Next`.
- **RuleGrammar**: `GetGrammar`, `GetTerminals`, `GetNonTerminals`,
  `IsTerminal` and `IsNonTerminal` of `main.cpp`, and a corrected
  `GetGrammar` (see Findings).
- **RuleVT**: `CalculateFirstVT`/`CalculateLastVT`, one method for both
  sides. The result is the least assignment closed under the basic rule
  (Case 1) and the inheritance rule (Case 2).
- **RuleTable**: `BuildPriorityTable`, as the write list of its four rules
  plus the `#` boundary rule, applied to an empty map.

## Model

| member | source | states |
|---|---|---|
| OPGrammar.ContainsTerminal | OperatorPriority.cpp:42-51 | found holds exactly when one of the last count characters of the string is not an upper-case letter |
| OPGrammar.RemoveFirstChar | OperatorPriority.cpp:53-57 | the empty string stays empty; otherwise the result is the string without its first character |
| OPGrammar.Grammar.SplitProduction | OperatorPriority.cpp:60-74 | the production list becomes the old list followed by one production per alternative of the rule, all with the rule's left side |
| OPGrammar.SplitRuleFacts | OperatorPriority.cpp:60-74 | each alternative has the rule's left side and no '|'; joined with '|' they give back the text after the arrow, without a trailing '|' |
| OPSets.PrecedenceSets.FindNonTerminalIndex | OperatorPriority.cpp:93-100 | the index of the row for the symbol, or -1 exactly when no row has it |
| OPSets.PrecedenceSets.ExtractNonTerminals | OperatorPriority.cpp:102-121 | the rows become the old rows plus one empty row per new left side, in order of first occurrence, with no duplicate |
| OPSets.ExtractFacts | OperatorPriority.cpp:102-121 | every left side has a row, every row is a left side or was already there, and no symbol repeats |
| OPSets.AddVTFacts | OperatorPriority.cpp:123-132 | adding a character leaves the set unchanged if it is upper-case or already present, and otherwise appends it; adding twice is adding once |
| OPSets.PrecedenceSets.AddToVT | OperatorPriority.cpp:123-132 | only the named row of the named side changes, and it becomes AddVT of its old contents |
| OPSets.AddAllVTFacts | OperatorPriority.cpp:134-141 | the result keeps the old set as a prefix, holds exactly the old elements plus the added non-upper-case characters, has no duplicate, and is idempotent |
| OPSets.PrecedenceSets.AddAllToVT | OperatorPriority.cpp:134-141 | only the named row changes, and it becomes AddAllVT of its old contents and the given set |
| OPSets.PrecedenceSets.ComputeVT | OperatorPriority.cpp:163-217 | afterwards the non-terminal's row is closed under rules 1–3 for all its productions, it grows from the old row, and nothing outside the derivation is added |
| OPSets.PrecedenceSets.ApplyRules | OperatorPriority.cpp:166-184 | one production's rules 1–3 are applied (rule 1, else rule 2, then rule 3), after any recursive computation they need, keeping every row justified |
| OPSets.PrecedenceSets.ComputeAllVTSets | OperatorPriority.cpp:219-229 | every row of the chosen side is closed and justified, and the other side is unchanged |
| OPSets.VTExact | OperatorPriority.cpp:163-217 | a closed, justified row holds exactly the terminals rules 1–3 derive for its non-terminal |
| OPSets.AllClosed | OperatorPriority.cpp:219-229 | after the driver every production satisfies rules 1–3, and every row is exactly its derived set |
| OPSets.RecomputeUnchanged | OperatorPriority.cpp:219-229 | computing the sets again on closed rows changes nothing |
| OPTable.ParsingData.FindTerminalIndex | OperatorPriority.cpp:232-239 | the header index of the terminal, or -1 exactly when it is not a header |
| OPTable.ParsingData.InitPrecedenceTable | OperatorPriority.cpp:241-274 | the headers become the old headers plus the right-side terminals in order of first occurrence, without repeats, and every cell is blank |
| OPTable.ParsingData.BuildPrecedenceTable | OperatorPriority.cpp:276-324 | the grid becomes the old grid with the four rules' writes applied in source order |
| OPTable.TableWritesNamed | OperatorPriority.cpp:276-324 | a write is in the list exactly when one of the four rules names it for some production |
| OPTable.HeaderCoversWrites | OperatorPriority.cpp:276-324 | every write targets header terminals when all sets and right-side terminals are headers |
| OPTable.BuiltCell | OperatorPriority.cpp:276-324 | a cell of the built table is non-blank exactly when some rule names it, and then its value is one that rule gives |
| OPTable.BuiltCellUnique | OperatorPriority.cpp:276-324 | a cell named with only one relation holds that relation |
| OPTable.ParsingData.GetPrecedenceRelation | OperatorPriority.cpp:351-355 | the cell at the two terminals' header indices, or a blank when either is not a header |
| OPAnalysis.FirstMatchIsLeast | OperatorPriority.cpp:327-349 | the production chosen is the smallest index whose right side matches the top of the stack, and -1 exactly when none matches |
| OPAnalysis.ParseState.CanReduce | OperatorPriority.cpp:327-349 | found exactly when some production matches, and matchedProduction is then set to the first match |
| OPAnalysis.ParseState.TopTerminalPos | OperatorPriority.cpp:376-385 | the position of the topmost terminal of the stack, or the top when all are non-terminals |
| OPAnalysis.ParseState.MatchCount | OperatorPriority.cpp:330-342 | the count reaches the right side's length exactly when every symbol matches the stack top |
| OPAnalysis.ParseState.Decide | OperatorPriority.cpp:376-422 | the decision taken is Next of the current stack and input, and matchedProduction changes only on a reduction |
| OPAnalysis.ParseState.Step | OperatorPriority.cpp:369-424 | one iteration appends one trace row and moves the state to Next's configuration, and leaves it unchanged on a halt |
| OPAnalysis.ParseState.AnalyzeString | OperatorPriority.cpp:357-426 | the final state, trace and step count are those of Drive iterating Next from the initial configuration |
| OPAnalysis.MachineRealizes | OperatorPriority.cpp:357-426 | the iteration passed to the analysis is Next for this grammar and table |
| OPAnalysis.ShiftStep | OperatorPriority.cpp:391-404 | a shift happens exactly on '<', or on '=' other than at "#"/"#", and it pushes the first unread character and drops it from the input |
| OPAnalysis.ReduceStep | OperatorPriority.cpp:405-413 | a reduction happens exactly on '>' with a matching production, and it replaces that many symbols on top of the stack by the first match's left side |
| OPAnalysis.HaltStep | OperatorPriority.cpp:387-422 | the analysis accepts exactly at '=' between "#" and "#", and rejects exactly on '>' without a match or on a blank relation |
| OPAnalysis.DriveTrace | OperatorPriority.cpp:357-426 | each iteration adds one trace row numbered by the step counter, and the counter stops one short on a halt |
| OPAnalysis.DriveEnd | OperatorPriority.cpp:357-426 | a run that halts ends on a halting configuration whose action is the last trace row's |
| OPAnalysis.AcceptedRun | OperatorPriority.cpp:391-395 | an accepted run ends with "#" on top and "#" unread, and the table relates '#' to '#' by '=' |
| RuleGrammar.IsListed | main.cpp:89-105 | true exactly when the character is in the list |
| RuleGrammar.GetGrammar | main.cpp:31-47 | None, the `substr` exception, exactly when some line shorter than three characters holds a '\|'; otherwise the grammar is every line's split as written, in order |
| RuleGrammar.SplitInto | main.cpp:33-46 | None exactly when the line is shorter than three characters and holds a '\|'; otherwise one line's split as written is appended, and a line without '\|' is appended whole |
| RuleGrammar.OneBar | main.cpp:33-43 | a line with exactly one '\|' after the arrow becomes the two rules on either side of it |
| RuleGrammar.SplitAgrees | main.cpp:31-47 | on lines of at least three characters with at most one '\|', at position 3 or later, the split as written equals one rule per alternative |
| RuleGrammar.ThreeAlternatives | main.cpp:33-43 | "E->a\|b\|c" as written becomes "E->a", "E->b\|c", "E->a\|b", "E->c", but is intended as "E->a", "E->b", "E->c" |
| RuleGrammar.SplitLineSound | main.cpp:31-47 | the intended split gives one rule per '\|' plus one, each with the line's "A->" and no '\|' after it, and their right sides joined with '\|' are the line's right side |
| RuleGrammar.SplitGrammar | main.cpp:31-47 | the corrected loop yields every line's intended split, in order |
| RuleGrammar.SplitAlternatives | main.cpp:33-46 | the corrected inner loop appends one line's intended split |
| RuleGrammar.SplitAllSound | main.cpp:31-47 | from lines that each hold "A->", every rule of the corrected split holds "A->" and has no '\|' after it |
| RuleGrammar.ScanRule | main.cpp:55-67 | one rule's picked characters are inserted in order, and the seen set stays the set of listed characters |
| RuleGrammar.GetTerminals | main.cpp:51-70 | the terminals are the non-upper-case characters after the arrows, other than ' ' and '-', without repeats, in order of first occurrence |
| RuleGrammar.GetNonTerminals | main.cpp:72-86 | the non-terminals are the upper-case characters of the rules, without repeats, in order of first occurrence |
| RuleVT.AddBasic | main.cpp:113-133 | the basic rule inserts, into the set of the rule's left side, the terminal at the first or second position when there is one, and otherwise changes nothing |
| RuleVT.BasicPass | main.cpp:113-133 | after the first pass every rule's basic terminal is in its left side's set, and each set holds nothing else |
| RuleVT.Inherit | main.cpp:144-150 | updated exactly when b's set has a terminal missing from a's, and a's set then becomes a's set extended by b's |
| RuleVT.InheritPass | main.cpp:136-153 | one pass keeps the sets below every closed assignment and only grows them; it either strictly shrinks what is missing or leaves everything unchanged with the inheritance rule holding |
| RuleVT.CalculateVT | main.cpp:108-206 | the result is closed under the basic rule (Case 1) and the inheritance rule (Case 2), and is the least such assignment |
| RuleVT.LeastUnique | main.cpp:108-206 | two least closed assignments hold the same terminals for every non-terminal |
| RuleTable.ApplyWindow | main.cpp:238-283 | one window of right-side symbols writes the cells its four rules name, in source order |
| RuleTable.BuildPriorityTable | main.cpp:228-306 | the table is the write list of the four rules over all rules, followed by the boundary writes, applied to an empty map |
| RuleTable.ApplyBoundary | main.cpp:286-303 | when '#' is a terminal, '#' is below FIRSTVT(E), above LASTVT(E) and equal to itself; otherwise nothing is written |
| RuleTable.AllWritesNamed | main.cpp:228-306 | a write is in the list exactly when one of the rules or the boundary rule names it |
| RuleTable.BuiltCell | main.cpp:228-306 | a cell is in the map exactly when some rule names it, and then it holds one of '=', '<', '>' that such a rule gives |
| RuleTable.BuiltCellUnique | main.cpp:228-306 | a cell named with only one relation holds that relation |
| RuleTable.BoundaryWins | main.cpp:286-303 | with '#' a terminal, ('#','#') is '=', '#' is below every other terminal of FIRSTVT(E), and every other terminal of LASTVT(E) is above '#', whatever the rules wrote before |

## Left out

- File and console I/O: reading the grammar and input files, printing the sets, tables and trace, and writing `result.txt`. `GetGrammar` takes the lines already read.
- The two `main` drivers and the hard-coded file names.
- Fixed capacities: the arrays of 100 productions, 20 non-terminals, 100 terminals and 100 trace rows are modelled as unbounded sequences, so overflowing them is not modelled.
- OPSets.PrecedenceSets.ComputeVT: the recursion of `computeFirstVT`/`computeLastVT` is modelled under a precondition that the grammar has a rank (no left-recursive cycle through the first symbol). On a cyclic grammar the source recurses without end, and the model does not cover that case.
- OPAnalysis.ParseState.AnalyzeString: the loop is bounded by a fuel parameter. A run that uses it up ends as OutOfSteps. The source's loop has no bound.
- The two `exit(1)` calls in `analyzeString` and the messages before them are modelled as the outcome Rejected, with the reason kept.
- OPGrammar.ContainsTerminal: requires count <= |str|. For a longer count the source reads before the start of the string, which is undefined behaviour. The reduction test in OPAnalysis treats a right side longer than the stack as not matching, which is what the source's matching loop yields.
- The Case 2 trace lines that `CalculateFirstVT` and `CalculateLastVT` print are left out with the rest of the output.
- The trace's action texts are an enumeration, not the Chinese strings.
- OPAnalysis.ParseState.AnalyzeString: trace rows are appended, while the source writes `analysisTable[currentStep]`. The two agree from the fresh ParsingData the driver passes. A halt does not advance currentStep, so a second call would overwrite the source's last row, while the model appends another row with the same step.
- OPTable.ParsingData.GetPrecedenceRelation: for a character that is not a header the source indexes its table with -1. The model returns a blank there, which the analysis then treats as an undefined relation.
- Indexing with -1 in the source (an unknown non-terminal or terminal) is undefined behaviour. The model guards those reads, or requires that the index is found.
- RuleTable.BuildPriorityTable: rule 2 tests `i < rights.size() - 2` in `size_t`. On a one-symbol right side the subtraction wraps around, the test passes and `rights[i + 2]` is read past the end, which is undefined behaviour. The model tests `i + 2 < |rights|`, which agrees with the source on every right side of two or more symbols; an empty right side never enters the loop.
- RuleTable.BuildPriorityTable: `substr(3)` throws on a rule shorter than three characters. The member requires every rule to hold at least "A->".
- RuleVT.CalculateVT: the source reads `rule[3]` (FIRSTVT) or `rule[len - 1]` (LASTVT) with `operator[]`. Past the end of the string that read is undefined behaviour, and at index `size()` it gives '\0'. The member requires, through RuleOk, 3 ≤ |rule| for FIRSTVT and 1 ≤ |rule| for LASTVT, and, for FIRSTVT, reads `rule[3]` of a three-character rule as '\0', as the source does.
- RuleGrammar.GetGrammar, RuleGrammar.SplitInto: the out_of_range exception that `substr(3, j - 3)` throws on a line shorter than three characters holding a '|' is modelled as the result None. The model does not say what happens after it leaves GetGrammar, because nothing in the source catches it.
- RuleVT.Inherit: `operator[]` creates an empty entry for a missing key in the inheritance pass. The model reads a missing key as the empty set instead, which gives the same sets.
- `IsTerminal` and `IsNonTerminal` are the same scan over different lists, so they are modelled once, as RuleGrammar.IsListed.
- The characters are `char`, and `isupper` is modelled as 'A'..'Z' (the C locale).

## Findings

| source | as written | input that shows it | evidently intended | confidence | as-written member | corrected member |
|---|---|---|---|---|---|---|
| main.cpp:33-43 | every '\|' emits the text from the arrow to it and the text after it, so a line with two or more '\|' yields twice as many rules as '\|', and some still contain '\|' | "E->a\|b\|c" gives "E->a", "E->b\|c", "E->a\|b", "E->c" | one rule per alternative: "E->a", "E->b", "E->c" | not executed | RuleGrammar.ThreeAlternatives | RuleGrammar.SplitGrammar |
